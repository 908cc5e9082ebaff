/** In a tree built by accepted insertions, what stands in the way of a pattern follows from the routes alone. */
module RouteWays {
  import opened Prelude
  import opened Pattern
  import opened RouteTree
  import opened TreeInsert
  import opened RouteBuild
  import opened InsertProof
  import opened InsertShape
  import opened TreeOutcome
  import opened Acceptance
  import opened LiveTree
  import opened SegmentWilds
  import opened PatternAcceptance
  import opened PatternWalk
  import opened CompactTree

  // ----- Nodes, as the routes make them -----

  ghost predicate Passed(routes: iset<Tokens>, x: Tokens) {
    exists q :: q in routes && x <= q
  }

  /** `x` ends with the '/' of a segment with a parameter. */
  ghost predicate Closes(x: Tokens) {
    EndsInSlash(x) && exists i | 0 <= i < |x| :: x[i].Param? && SLASH_TOKEN !in x[i..|x| - 1]
  }

  /** Behind `x` the routes part with two literals. */
  ghost predicate Forks(routes: iset<Tokens>, x: Tokens) {
    exists a: byte, b: byte :: a != b && Passed(routes, x + [Lit(a)]) && Passed(routes, x + [Lit(b)])
  }

  ghost predicate WildFollows(routes: iset<Tokens>, x: Tokens) {
    exists w: Token :: !w.Lit? && Passed(routes, x + [w])
  }

  /**
   Where nodes end: at a route, before a wildcard, where routes part before any parameter of the
   segment, behind a parameter, and behind the '/' that ends the segment of a parameter.
   */
  ghost predicate NodeEnds(routes: iset<Tokens>, x: Tokens) {
    || x in routes || WildFollows(routes, x)
    || (FreshSegment(x, |x|) && Forks(routes, x))
    || (Passed(routes, x) && x != [] && (x[|x| - 1] == Param || Closes(x)))
  }

  /** Some route goes on behind the parameter that `x` ends with, with more than a '/' in the segment. */
  ghost predicate HasSuffixed(routes: iset<Tokens>, x: Tokens) {
    && x != [] && x[|x| - 1] == Param
    && exists q :: q in routes && x <= q && !PlainSuffix(SuffixOf(q, |x| - 1))
  }

  ghost function WaysBy(routes: iset<Tokens>): Ways {
    Ways(routes, iset x | NodeEnds(routes, x), iset x | HasSuffixed(routes, x))
  }

  ghost function RoutesOf<T>(n: Node<T>): iset<Tokens> {
    iset q | Get(n, q).Some?
  }

  // ----- Routes through nodes -----

  lemma {:induction false} PassedFront(routes: iset<Tokens>, x: Tokens, y: Tokens)
    requires Passed(routes, y) && x <= y
    ensures Passed(routes, x)
  {
    var q :| q in routes && y <= q;
    assert x <= q;
  }

  /** Every node has a route through it. */
  lemma {:induction false} RouteThrough<T>(n: Node<T>, d: nat, x: Tokens)
    requires WF(n, d) && Live(n) && Spelled(n, x)
    ensures Passed(RoutesOf(n), x)
    decreases n
  {
    if x == n.prefix {
      var q := SomeRoute(n, d);
      HeldPrefix(n, q);
      assert q in RoutesOf(n) && x <= q;
    } else {
      SpelledStep(n, x);
      var y := x[|n.prefix|..];
      var i := ChildIndex(n, y).value;
      ChildWF(n, d, i);
      RouteThrough(n.children[i], Depth(n, d), y);
      var r :| r in RoutesOf(n.children[i]) && y <= r;
      HeldIndex(n, d, i, r, y);
      HeldBelow(n, i, r);
      assert x == n.prefix + y;
      assert n.prefix + r in RoutesOf(n) && x <= n.prefix + r;
    }
  }

  /** Where no way leads, no route passes. */
  lemma {:induction false} NoWayNoRoute<T>(n: Node<T>, x: Tokens)
    requires !OnWay(WaysOf(n), x)
    ensures !Passed(RoutesOf(n), x) && !NodeEnds(RoutesOf(n), x)
  {
    hide Get, NodeAt;
    var routes := RoutesOf(n);
    assert !Passed(routes, x) by {
      if q :| q in routes && x <= q {
        HeldIsSpelled(n, q);
        assert q in WaysOf(n).ends;
      }
    }
    assert x in routes ==> Passed(routes, x);
    forall w: Token ensures !Passed(routes, x + [w]) {
      if Passed(routes, x + [w]) { PassedFront(routes, x, x + [w]); }
    }
  }

  // ----- Going down -----

  ghost predicate SameRoutesBehind<T>(n: Node<T>, x: Tokens, c: Node<T>, m: nat)
    requires m <= |c.prefix|
  {
    forall q | c.prefix[..m] <= q :: Get(n, x + q) == Get(c, q)
  }

  lemma {:induction false} PassedMoves<T>(n: Node<T>, x: Tokens, c: Node<T>, m: nat, y: Tokens)
    requires m <= |c.prefix| && SameRoutesBehind(n, x, c, m) && c.prefix[..m] <= y
    ensures Passed(RoutesOf(n), x + y) <==> Passed(RoutesOf(c), y)
  {
    hide Get;
    if q :| q in RoutesOf(c) && y <= q {
      assert c.prefix[..m] <= q;
      assert x + y <= x + q;
      assert x + q in RoutesOf(n);
    }
    if q :| q in RoutesOf(n) && x + y <= q {
      var r := q[|x|..];
      assert q[..|x + y|] == x + y;
      assert q[..|x|] == q[..|x + y|][..|x|] == x;
      assert q == x + r && r[..|y|] == q[..|x + y|][|x|..] == y;
      assert c.prefix[..m] <= r;
      assert r in RoutesOf(c);
    }
  }

  /** Whether `y` closes a segment does not depend on what comes before it. */
  lemma {:induction false} ClosesMoves(x: Tokens, y: Tokens, front: Tokens)
    requires front <= y && front != [] && SegmentStarts(x, front) && (AllLit(x) || |front| < |y|)
    ensures Closes(x + y) <==> Closes(y)
  {
    var z := x + y;
    assert z[|z| - 1] == y[|y| - 1];
    if EndsInSlash(y) {
      if i :| 0 <= i < |y| && y[i].Param? && SLASH_TOKEN !in y[i..|y| - 1] {
        assert z[|x| + i] == y[i] && z[|x| + i..|z| - 1] == y[i..|y| - 1];
      }
      if i :| 0 <= i < |z| && z[i].Param? && SLASH_TOKEN !in z[i..|z| - 1] {
        if i < |x| {
          assert x[i] == z[i];
          SlashInside(x, y, front, |y| - 1, i);
        } else {
          assert y[i - |x|] == z[i] && z[i..|z| - 1] == y[i - |x|..|y| - 1];
        }
      }
    }
  }

  lemma {:induction false} NodeMoves<T>(n: Node<T>, x: Tokens, c: Node<T>, m: nat, y: Tokens)
    requires 0 < m <= |c.prefix| && SameRoutesBehind(n, x, c, m) && c.prefix[..m] <= y
    requires SegmentStarts(x, c.prefix[..m]) && (AllLit(x) || m < |y|)
    ensures NodeEnds(RoutesOf(n), x + y) <==> NodeEnds(RoutesOf(c), y)
  {
    hide Get, Passed, SegmentStarts, Closes, FreshSegment;
    var front := c.prefix[..m];
    assert Get(n, x + y) == Get(c, y);
    forall w: Token ensures Passed(RoutesOf(n), x + y + [w]) <==> Passed(RoutesOf(c), y + [w]) {
      assert front <= y + [w];
      PassedMoves(n, x, c, m, y + [w]);
      assert x + y + [w] == x + (y + [w]);
    }
    PassedMoves(n, x, c, m, y);
    ClosesMoves(x, y, front);
    FreshMoves(x, y, front, |y|);
    assert (x + y)[|x + y| - 1] == y[|y| - 1];
    hide SameRoutesBehind;
  }

  lemma {:induction false} HeadRoutes<T>(n: Node<T>, d: nat, i: nat)
    requires WF(n, d) && TextKind(n) && i < |n.indices|
    ensures i < |n.children| && n.children[i].prefix != [] && SameRoutesBehind(n, n.prefix, n.children[i], 1)
  {
    hide Get;
    StaticText(n, d, i);
    var c := n.children[i];
    forall q | c.prefix[..1] <= q ensures Get(n, n.prefix + q) == Get(c, q) {
      assert c.prefix[..1] == q[..1];
      assert q[0] == q[..1][0] == c.prefix[..1][0] == c.prefix[0];
      HeldBelow(n, i, q);
    }
  }

  /** Behind a suffix with its '/', all routes go through its child. */
  lemma {:induction false} SlashRoutes<T>(n: Node<T>, d: nat, i: nat)
    requires WF(n, d) && TextKind(n) && n.wildChild && n.children != []
    requires ParamOf(n).kind.ParamNode? && i < |ParamOf(n).children|
    requires EndsInSlash(ParamOf(n).children[i].prefix)
    ensures var c := ParamOf(n).children[i]; SameRoutesBehind(n, n.prefix + [Param], c, |c.prefix|)
  {
    hide Get, NodeAt;
    var w := ParamOf(n);
    var c := w.children[i];
    ChildWF(n, d, |n.children| - 1);
    SuffixChildKind(w, d, i);
    assert c.prefix[..|c.prefix|] == c.prefix;
    forall q | c.prefix <= q ensures Get(n, n.prefix + [Param] + q) == Get(c, q) {
      TerminatorOfSuffix(c.prefix, q);
      SuffixIsUnique(w, q, i);
      BehindParam(n, d, q);
    }
  }

  // ----- Where nodes end -----

  /** At its own end a text node has one of the reasons. */
  lemma {:induction false} OwnEnd<T>(n: Node<T>, d: nat)
    requires WF(n, d) && TextKind(n) && Compact(n, false)
    ensures NodeEnds(RoutesOf(n), n.prefix)
  {
    CompactIsLive(n, d, false);
    if n.value.Some? {
      OwnRoute(n);
      assert n.prefix in RoutesOf(n);
    } else if n.wildChild {
      WildEnd(n, d);
    } else {
      ForkEnd(n, d);
    }
  }

  lemma {:induction false} ChildPassed<T>(n: Node<T>, d: nat, i: nat)
    requires WF(n, d) && Live(n) && i < |n.children|
    ensures n.children[i].prefix != [] && Passed(RoutesOf(n), n.prefix + [n.children[i].prefix[0]])
  {
    hide NodeAt, Get;
    var c := n.children[i];
    ChildHasText(n, d, i);
    OwnWay(c);
    WayUnder(n, d, i, c.prefix);
    RouteThrough(n, d, n.prefix + c.prefix);
    assert n.prefix + [c.prefix[0]] <= n.prefix + c.prefix;
    PassedFront(RoutesOf(n), n.prefix + [c.prefix[0]], n.prefix + c.prefix);
  }

  lemma {:induction false} WildEnd<T>(n: Node<T>, d: nat)
    requires WF(n, d) && TextKind(n) && Live(n) && n.wildChild && n.children != []
    ensures WildFollows(RoutesOf(n), n.prefix)
  {
    OneWild(n, d, Param);
    ChildPassed(n, d, |n.children| - 1);
  }

  lemma {:induction false} ForkEnd<T>(n: Node<T>, d: nat)
    requires WF(n, d) && TextKind(n) && Live(n) && !n.wildChild && |n.children| >= 2
    ensures FreshSegment(n.prefix, |n.prefix|) && Forks(RoutesOf(n), n.prefix)
  {
    ChildPassed(n, d, 0);
    ChildPassed(n, d, 1);
    assert Heads(n.children[0], n.indices[0]) && Heads(n.children[1], n.indices[1]);
    assert n.indices[0] != n.indices[1];
    assert Passed(RoutesOf(n), n.prefix + [Lit(n.indices[0])]) && Passed(RoutesOf(n), n.prefix + [Lit(n.indices[1])]);
  }

  /** Before its own end a text node has no end, and off its text there is nothing. */
  lemma {:induction false} NoEndBefore<T>(n: Node<T>, d: nat, x: Tokens)
    requires WF(n, d) && TextKind(n) && !(n.prefix <= x)
    ensures !Spelled(n, x) && !NodeEnds(RoutesOf(n), x)
  {
    hide Get, FreshSegment;
    var routes := RoutesOf(n);
    NotUnder(n, x);
    TextOf(n, d);
    forall q | q in routes ensures n.prefix <= q { HeldPrefix(n, q); }
    if x <= n.prefix {
      forall w: Token ensures Passed(routes, x + [w]) ==> w == n.prefix[|x|] {
        if q :| q in routes && x + [w] <= q {
          assert q[|x|] == (x + [w])[|x|] == w;
        }
      }
      forall i | 0 <= i < |x| ensures x[i].Lit? { assert x[i] == n.prefix[i]; }
      assert !Closes(x);
      assert !Forks(routes, x);
    } else {
      forall q | q in routes ensures !(x <= q) {
        OffText(n.prefix, x, q);
      }
      NothingPassed(routes, x);
    }
  }

  lemma {:induction false} OffText(text: Tokens, x: Tokens, q: Tokens)
    requires text <= q && !(text <= x) && !(x <= text)
    ensures !(x <= q)
  {
    if |x| <= |text| {
      assert x != text[..|x|] && text[..|x|] == q[..|x|];
    } else {
      assert text != x[..|text|];
      assert |x| <= |q| ==> q[..|x|][..|text|] == text;
    }
  }

  lemma {:induction false} NothingPassed(routes: iset<Tokens>, x: Tokens)
    requires !Passed(routes, x)
    ensures !NodeEnds(routes, x)
  {
    assert x in routes ==> Passed(routes, x);
    forall w: Token ensures !Passed(routes, x + [w]) {
      if Passed(routes, x + [w]) { PassedFront(routes, x, x + [w]); }
    }
  }

  lemma {:induction false} NotOnWayBelow<T>(n: Node<T>, y: Tokens)
    requires y != [] && forall z :: NodeAt(n, n.prefix + y + z) == None
    ensures !OnWay(WaysOf(n), n.prefix + y)
  {
    hide NodeAt, Get;
    var x := n.prefix + y;
    forall q | x <= q ensures q !in WaysOf(n).ends {
      assert q == x + q[|x|..];
    }
  }

  /** A text node without a child for `y`. */
  lemma {:induction false} NoChildNoEnd<T>(n: Node<T>, d: nat, y: Tokens)
    requires WF(n, d) && TextKind(n) && y != [] && ChildIndex(n, y) == None
    ensures !Spelled(n, n.prefix + y) && !NodeEnds(RoutesOf(n), n.prefix + y)
  {
    hide NodeAt, Get;
    WayStep(n, y);
    forall z: Tokens ensures NodeAt(n, n.prefix + y + z) == None {
      assert n.prefix + y + z == n.prefix + (y + z);
      assert (y + z)[0] == y[0];
      assert ChildIndex(n, y + z) == None;
      WayStep(n, y + z);
    }
    NotOnWayBelow(n, y);
    NoWayNoRoute(n, n.prefix + y);
  }

  /** Behind a catch-all, or another wildcard than the node has, there is nothing. */
  lemma {:induction false} WildNoEnd<T>(n: Node<T>, d: nat, y: Tokens)
    requires WF(n, d) && TextKind(n) && n.wildChild && n.children != [] && y != [] && !y[0].Lit?
    requires var w := ParamOf(n); if w.kind.CatchAll? then y != w.prefix else y[0] != Param
    ensures !Spelled(n, n.prefix + y) && !NodeEnds(RoutesOf(n), n.prefix + y)
  {
    hide NodeAt, Get;
    var w := ParamOf(n);
    forall z: Tokens ensures NodeAt(n, n.prefix + y + z) == None {
      assert n.prefix + y + z == n.prefix + (y + z);
      assert (y + z)[0] == y[0];
      assert y + [] == y;
      WayStep(n, y + z);
      WildNone(n, d, y, z);
    }
    assert n.prefix + y + [] == n.prefix + y;
    NotOnWayBelow(n, y);
    NoWayNoRoute(n, n.prefix + y);
  }

  lemma {:induction false} WildNone<T>(n: Node<T>, d: nat, y: Tokens, z: Tokens)
    requires WF(n, d) && TextKind(n) && n.wildChild && n.children != [] && y != [] && !y[0].Lit?
    requires var w := ParamOf(n); if w.kind.CatchAll? then y != w.prefix else y[0] != Param
    ensures NodeAt(ParamOf(n), y + z) == None && ChildIndex(n, y + z) == Some(|n.children| - 1)
  {
    var w := ParamOf(n);
    ChildWF(n, d, |n.children| - 1);
    assert (y + z)[0] == y[0];
    if w.prefix <= y + z {
      assert w.prefix[0] == y[0];
      assert w.kind.CatchAll?;
      assert y == [y[0]] + y[1..];
      assert |y| > 1;
    }
  }

  /** Inside a suffix the parameter does not have, no node ends. */
  lemma {:induction false} InsideSuffix<T>(n: Node<T>, d: nat, z: Tokens)
    requires WF(n, d) && TextKind(n) && n.wildChild && n.children != [] && ParamOf(n).kind.ParamNode?
    requires z != [] && SlashAt(z) == |z| && IndexOfPrefix(ParamOf(n).children, z) == None
    ensures !NodeEnds(RoutesOf(n), n.prefix + [Param] + z)
  {
    hide NodeAt, Get;
    var w, pre := ParamOf(n), n.prefix + [Param];
    var x, routes := pre + z, RoutesOf(n);
    assert z[..|z|] == z && Terminator(z) == |z|;
    BehindParam(n, d, z);
    assert x !in routes;
    forall u: Token | !u.Lit? ensures !Passed(routes, x + [u]) {
      assert (z + [u])[|z|] == u && pre + (z + [u]) == x + [u];
      if q :| q in routes && x + [u] <= q {
        LongerSegment(z, u);
        TextAfterParam(n, d, z + [u], q);
      }
    }
    assert !FreshSegment(x, |x|) by {
      assert x[|n.prefix|] == Param;
      assert x[|n.prefix|..|x|] == [Param] + z;
      assert z[..SlashAt(z)] == z;
    }
    assert x[|x| - 1] == z[|z| - 1];
    assert z[..SlashAt(z)] == z && z[|z| - 1] in z;
    if Passed(routes, x) {
      var q :| q in routes && x <= q;
      TextAfterParam(n, d, z, q);
    }
  }

  lemma {:induction false} LongerSegment(z: Tokens, u: Token)
    requires SlashAt(z) == |z| && u != SLASH_TOKEN
    ensures SlashAt(z + [u]) == |z + [u]|
  {
    var y := z + [u];
    assert z[..|z|] == z;
    forall j | 0 <= j < |y| ensures y[j] != SLASH_TOKEN { assert j < |z| ==> y[j] == z[j]; }
  }

  /** Routes go on behind a parameter with text, up to the end of the segment. */
  lemma {:induction false} TextAfterParam<T>(n: Node<T>, d: nat, s: Tokens, q: Tokens)
    requires WF(n, d) && TextKind(n) && n.wildChild && n.children != [] && ParamOf(n).kind.ParamNode?
    requires s != [] && SlashAt(s) == |s| && Get(n, q).Some? && n.prefix + [Param] + s <= q
    ensures AllLit(s)
  {
    hide NodeAt, Get;
    var w, pre := ParamOf(n), n.prefix + [Param];
    var r := q[|pre|..];
    assert q[..|pre + s|] == pre + s;
    assert q[..|pre|] == q[..|pre + s|][..|pre|] == pre;
    assert q == pre + r && r[..|s|] == q[..|pre + s|][|pre|..] == s;
    BehindParam(n, d, r);
    var i := ChildIndex(w, r).value;
    ChildWF(n, d, |n.children| - 1);
    SuffixChildKind(w, d, i);
    SlashAtPrefix(s, r);
    assert Terminator(r) >= |s|;
    assert s == r[..Terminator(r)][..|s|];
    forall j | 0 <= j < |s| ensures s[j].Lit? { assert s[j] == w.children[i].prefix[j]; }
  }

  /** The end of a suffix child. */
  lemma {:induction false} SuffixEnds<T>(n: Node<T>, d: nat, i: nat)
    requires WF(n, d) && TextKind(n) && Compact(n, false) && n.wildChild && n.children != []
    requires ParamOf(n).kind.ParamNode? && i < |ParamOf(n).children|
    ensures var x := n.prefix + [Param] + ParamOf(n).children[i].prefix; Spelled(n, x) && NodeEnds(RoutesOf(n), x)
  {
    hide NodeAt, Get;
    var w := ParamOf(n);
    var c := w.children[i];
    var x := n.prefix + [Param] + c.prefix;
    ChildWF(n, d, |n.children| - 1);
    SuffixChildKind(w, d, i);
    CompactIsLive(n, d, false);
    SuffixTerminator(c.prefix);
    assert c.prefix[..|c.prefix|] == c.prefix;
    SuffixIsUnique(w, c.prefix, i);
    BehindParam(n, d, c.prefix);
    OwnWay(c);
    RouteThrough(n, d, x);
    if EndsInSlash(c.prefix) {
      ClosesThere(n.prefix, c.prefix);
    } else {
      CompactChild(n, false, |n.children| - 1);
      CompactChild(w, false, i);
      OwnRoute(c);
      assert x in RoutesOf(n);
    }
  }

  lemma {:induction false} ClosesThere(x: Tokens, s: Tokens)
    requires EndsInSlash(s) && SlashAt(s) + 1 >= |s|
    ensures Closes(x + [Param] + s)
  {
    var z, k := x + [Param] + s, |x|;
    assert z[|z| - 1] == s[|s| - 1] && z[k] == Param;
    var t := z[k..|z| - 1];
    forall j | 0 <= j < |t| ensures t[j] != SLASH_TOKEN {
      if j > 0 {
        assert t[j] == s[j - 1] == s[..SlashAt(s)][j - 1];
      }
    }
  }

  /** Behind a parameter of a text node. */
  lemma {:induction false} EndsBehindParam<T>(n: Node<T>, d: nat, z: Tokens)
    requires WF(n, d) && TextKind(n) && Compact(n, false) && n.wildChild && n.children != []
    requires ParamOf(n).kind.ParamNode? && z != []
    ensures var x := n.prefix + [Param] + z; Spelled(n, x) <==> NodeEnds(RoutesOf(n), x)
    decreases n, 0
  {
    hide NodeAt, Get, WF, NodeEnds, Compact;
    var w, last := ParamOf(n), |n.children| - 1;
    var s, x := z[..Terminator(z)], n.prefix + [Param] + z;
    ChildKinds(n, d, last);
    BehindParam(n, d, z);
    SegmentOf(z);
    match IndexOfPrefix(w.children, s)
    case None =>
      if EndsInSlash(s) {
        NoWayOn(n, d, s);
        assert !OnWay(WaysOf(n), x) by {
          assert n.prefix + [Param] + s <= x;
          if OnWay(WaysOf(n), x) { OnWayFront(n, n.prefix + [Param] + s, x); }
        }
        NoWayNoRoute(n, x);
      } else {
        InsideSuffix(n, d, z);
      }
    case Some(i) =>
      var c := w.children[i];
      if z == s {
        SuffixEnds(n, d, i);
      } else {
        SuffixChildKind(w, d, i);
        SlashRoutes(n, d, i);
        TextOf(n, d);
        SlashStart(n.prefix, c.prefix);
        assert c.prefix[..|c.prefix|] == c.prefix;
        NodeMoves(n, n.prefix + [Param], c, |c.prefix|, z);
        CompactChild(n, false, last);
        CompactChild(w, false, i);
        assert c < n;
        EndsByRoutes(c, d + 1, z, true);
      }
  }

  lemma {:induction false} SegmentOf(z: Tokens)
    requires z != []
    ensures var s := z[..Terminator(z)];
            && s != [] && s <= z && SlashAt(s) + 1 >= |s| && (EndsInSlash(s) || (s == z && SlashAt(z) == |z|))
  {
    var s := z[..Terminator(z)];
    SlashAtPrefix(s, z);
    assert Terminator(z) == |z| ==> s == z;
    if SlashAt(z) < |z| {
      assert s[|s| - 1] == z[SlashAt(z)];
      forall j | 0 <= j < |s| - 1 ensures s[j] != SLASH_TOKEN {
        assert s[j] == z[..SlashAt(z)][j];
      }
    }
  }

  /** Nodes end where the routes make them end. */
  lemma {:induction false} EndsByRoutes<T>(n: Node<T>, d: nat, x: Tokens, suffix: bool)
    requires WF(n, d) && TextKind(n) && Compact(n, suffix) && (suffix ==> x != n.prefix)
    ensures Spelled(n, x) <==> NodeEnds(RoutesOf(n), x)
    decreases n, 2
  {
    hide NodeAt, Get, WF, NodeEnds;
    if !(n.prefix <= x) {
      NoEndBefore(n, d, x);
    } else if x == n.prefix {
      OwnWay(n);
      OwnEnd(n, d);
    } else {
      var y := x[|n.prefix|..];
      assert x == n.prefix + y;
      if y[0].Lit? {
        EndsBelowText(n, d, y, suffix);
      } else {
        EndsBelowWild(n, d, y, suffix);
      }
    }
  }

  lemma {:induction false} EndsBelowText<T>(n: Node<T>, d: nat, y: Tokens, suffix: bool)
    requires WF(n, d) && TextKind(n) && Compact(n, suffix) && y != [] && y[0].Lit?
    ensures Spelled(n, n.prefix + y) <==> NodeEnds(RoutesOf(n), n.prefix + y)
    decreases n, 0
  {
    hide NodeAt, Get, WF, NodeEnds, Compact;
    match ChildIndex(n, y)
    case None => NoChildNoEnd(n, d, y);
    case Some(i) =>
      HeadOf(n, d, y, i);
      var c := n.children[i];
      WayStep(n, y);
      HeadRoutes(n, d, i);
      TextOf(n, d);
      PlainStart(n.prefix, c.prefix[..1]);
      CompactChild(n, suffix, i);
      if c.prefix[0] == y[0] {
        assert c.prefix[..1] == y[..1];
        NodeMoves(n, n.prefix, c, 1, y);
        EndsByRoutes(c, d, y, false);
      }
  }

  lemma {:induction false} HeadOf<T>(n: Node<T>, d: nat, y: Tokens, i: nat)
    requires WF(n, d) && TextKind(n) && y != [] && y[0].Lit? && ChildIndex(n, y) == Some(i)
    ensures i < |n.indices| && i < |n.children| && WF(n.children[i], d) && n.children[i].kind.Static?
    ensures n.children[i].prefix != [] && n.children[i].prefix[0] == y[0]
  {
    assert Heads(n.children[i], n.indices[i]);
    ChildWF(n, d, i);
  }

  lemma {:induction false} EndsBelowWild<T>(n: Node<T>, d: nat, y: Tokens, suffix: bool)
    requires WF(n, d) && TextKind(n) && Compact(n, suffix) && y != [] && !y[0].Lit?
    ensures Spelled(n, n.prefix + y) <==> NodeEnds(RoutesOf(n), n.prefix + y)
    decreases n, 1
  {
    hide NodeAt, Get, WF, Compact, FreshSegment;
    if ChildIndex(n, y) == None {
      NoChildNoEnd(n, d, y);
    } else {
      assert n.wildChild && n.children != [];
      var w, last := ParamOf(n), |n.children| - 1;
      ChildKinds(n, d, last);
      OneWild(n, d, y[0]);
      WildKind(w, d);
      if w.kind.CatchAll? && y == w.prefix {
        HeldBelow(n, last, y);
        assert n.prefix + y in RoutesOf(n);
        HeldIsSpelled(n, n.prefix + y);
      } else if w.kind.CatchAll? || y[0] != Param {
        WildNoEnd(n, d, y);
      } else if y == [Param] {
        CompactIsLive(n, d, suffix);
        RouteThrough(n, d, n.prefix + y);
        assert (n.prefix + y)[|n.prefix + y| - 1] == Param;
      } else {
        var z := y[1..];
        assert y == [Param] + z && n.prefix + y == n.prefix + [Param] + z;
        WildCompact(n, suffix);
        EndsBehindParam(n, d, z);
      }
    }
  }

  lemma {:induction false} WildCompact<T>(n: Node<T>, suffix: bool)
    requires Compact(n, suffix) && TextKind(n) && n.wildChild && n.children != []
    ensures Compact(n, false)
  {
  }

  // ----- Suffixes -----

  /** Behind a parameter node, ways and routes are those of its suffix children. */
  ghost predicate GoesOn<T>(n: Node<T>, x: Tokens, w: Node<T>, z: Tokens)
    requires z != []
  {
    && NodeAt(n, x + z) == (match ChildIndex(w, z) case None => None case Some(i) => NodeAt(w.children[i], z))
    && Get(n, x + z) == (match ChildIndex(w, z) case None => None case Some(i) => Get(w.children[i], z))
  }

  /** A way that ends at a parameter ends with one. */
  lemma {:induction false} EndsAtParam<T>(n: Node<T>, d: nat, x: Tokens)
    requires WF(n, d) && Spelled(n, x) && x != []
    ensures x[|x| - 1] == Param <==> NodeAt(n, x).value.kind.ParamNode?
    decreases n
  {
    if x == n.prefix {
    } else {
      SpelledStep(n, x);
      var y := x[|n.prefix|..];
      var i := ChildIndex(n, y).value;
      ChildWF(n, d, i);
      EndsAtParam(n.children[i], Depth(n, d), y);
      assert y[|y| - 1] == x[|x| - 1];
    }
  }

  lemma {:induction false} OnFromParam<T>(n: Node<T>, d: nat, x: Tokens, z: Tokens)
    requires WF(n, d) && TextKind(n) && z != []
    requires NodeAt(n, x).Some? && NodeAt(n, x).value.kind.ParamNode?
    ensures GoesOn(n, x, NodeAt(n, x).value, z)
    ensures exists e :: WF(NodeAt(n, x).value, e)
    decreases n, 1
  {
    SpelledStep(n, x);
    var y := x[|n.prefix|..];
    var i := ChildIndex(n, y).value;
    var c := n.children[i];
    assert x == n.prefix + y && x + z == n.prefix + (y + z);
    ChildWF(n, d, i);
    hide NodeAt, Get, WF;
    WayStep(n, y);
    assert (y + z)[0] == y[0];
    if TextKind(c) {
      OnFromParam(c, d, y, z);
      WayStep(n, y + z);
      assert ChildIndex(n, y + z) == Some(i);
      HeldBelow(n, i, y + z);
    } else {
      OnThroughParam(n, d, y, z);
    }
  }

  lemma {:induction false} OnThroughParam<T>(n: Node<T>, d: nat, y: Tokens, z: Tokens)
    requires WF(n, d) && TextKind(n) && z != [] && y != [] && !y[0].Lit? && n.wildChild && n.children != []
    requires NodeAt(n, n.prefix + y).Some? && NodeAt(n, n.prefix + y).value.kind.ParamNode?
    ensures GoesOn(n, n.prefix + y, NodeAt(n, n.prefix + y).value, z)
    ensures exists e :: WF(NodeAt(n, n.prefix + y).value, e)
    decreases n, 0
  {
    hide NodeAt, Get, WF;
    var w := ParamOf(n);
    ParamAhead(n, d, y);
    if y == [Param] {
      OneWild(n, d, Param);
      BehindParam(n, d, z);
      assert n.prefix + y == n.prefix + [Param];
    } else {
      var u := y[1..];
      assert n.prefix + y == n.prefix + [Param] + u;
      BehindParam(n, d, u);
      var j := ChildIndex(w, u).value;
      var c := w.children[j];
      SuffixChildKind(w, d, j);
      SuffixGoesOn(w, d, u, z, j);
      OnFromParam(c, d + 1, u, z);
      BehindParam(n, d, u + z);
      assert n.prefix + y + z == n.prefix + [Param] + (u + z);
    }
  }

  lemma {:induction false} ParamAhead<T>(n: Node<T>, d: nat, y: Tokens)
    requires WF(n, d) && TextKind(n) && y != [] && !y[0].Lit? && n.wildChild && n.children != []
    requires NodeAt(n, n.prefix + y).Some? && NodeAt(n, n.prefix + y).value.kind.ParamNode?
    ensures ParamOf(n).kind.ParamNode? && WF(ParamOf(n), d) && ParamOf(n).prefix == [Param]
    ensures y == [Param] + y[1..]
  {
    hide NodeAt;
    var w := ParamOf(n);
    WayStep(n, y);
    WayText(w, y);
    OwnWay(w);
    OneWild(n, d, Param);
    WildKind(w, d);
    CatchHasNoChildren(w, d);
    hide WF;
    assert w.prefix == [w.prefix[0]] && y[0] == w.prefix[0];
  }

  /** A suffix behind which a parameter follows ends with its '/'. */
  lemma {:induction false} SuffixGoesOn<T>(w: Node<T>, d: nat, u: Tokens, z: Tokens, j: nat)
    requires WF(w, d) && w.kind.ParamNode? && u != [] && ChildIndex(w, u) == Some(j)
    requires NodeAt(w.children[j], u).Some? && NodeAt(w.children[j], u).value.kind.ParamNode?
    ensures ChildIndex(w, u + z) == Some(j)
  {
    var c := w.children[j];
    SuffixChildKind(w, d, j);
    WayText(c, u);
    OwnWay(c);
    assert c.children != [];
    assert c.prefix <= u + z;
    TerminatorOfSuffix(c.prefix, u + z);
    SuffixIsUnique(w, u + z, j);
  }

  lemma {:induction false} MarkedByRoutes<T>(n: Node<T>, d: nat, x: Tokens)
    requires WF(n, d) && TextKind(n) && Compact(n, false)
    ensures Marked(n, x) <==> HasSuffixed(RoutesOf(n), x)
  {
    hide NodeAt, Get, WF, Compact;
    CompactIsLive(n, d, false);
    if Marked(n, x) {
      SuffixHasRoute(n, d, x);
    }
    if HasSuffixed(RoutesOf(n), x) {
      RouteHasSuffix(n, d, x);
    }
  }

  lemma {:induction false} NotEmptyWay<T>(n: Node<T>, d: nat, x: Tokens)
    requires WF(n, d) && Spelled(n, x) && NodeAt(n, x).value.kind.ParamNode?
    ensures x != []
  {
  }

  lemma {:induction false} ParamCompactAt<T>(n: Node<T>, d: nat, x: Tokens, suffix: bool)
    requires WF(n, d) && Compact(n, suffix) && Spelled(n, x)
    ensures var c := NodeAt(n, x).value;
            Live(c) && (c.kind.ParamNode? ==> (c.kind.suffix <==> HasSuffix(c.children)))
    decreases n
  {
    CompactIsLive(n, d, suffix);
    if x != n.prefix {
      SpelledStep(n, x);
      var i := ChildIndex(n, x[|n.prefix|..]).value;
      ChildWF(n, d, i);
      CompactChild(n, suffix, i);
      ParamCompactAt(n.children[i], Depth(n, d), x[|n.prefix|..], n.kind.ParamNode?);
    }
  }

  lemma {:induction false} SuffixHasRoute<T>(n: Node<T>, d: nat, x: Tokens)
    requires WF(n, d) && TextKind(n) && Compact(n, false) && Marked(n, x)
    ensures HasSuffixed(RoutesOf(n), x)
  {
    hide NodeAt, Get, WF, Compact;
    var w := NodeAt(n, x).value;
    NotEmptyWay(n, d, x);
    EndsAtParam(n, d, x);
    ParamCompactAt(n, d, x, false);
    var i :| 0 <= i < |w.children| && !PlainSuffix(w.children[i].prefix);
    OnFromParam(n, d, x, [SLASH_TOKEN]);
    var e :| WF(w, e);
    var r := SuffixRoute(w, e, i);
    OnFromParam(n, d, x, r);
    var q := x + r;
    assert q in RoutesOf(n) && x <= q;
    assert q[|x|..] == r;
    assert SuffixOf(q, |x| - 1) == r[..Terminator(r)];
  }

  /** A route through a suffix child. */
  lemma {:induction false} SuffixRoute<T>(w: Node<T>, d: nat, i: nat) returns (r: Tokens)
    requires WF(w, d) && w.kind.ParamNode? && Live(w) && i < |w.children|
    ensures r != [] && ChildIndex(w, r) == Some(i) && Get(w.children[i], r).Some?
    ensures r[..Terminator(r)] == w.children[i].prefix
  {
    hide Get;
    var c := w.children[i];
    SuffixChildKind(w, d, i);
    assert Live(c);
    r := SomeRoute(c, d + 1);
    HeldIndex(w, d, i, r, r);
  }

  lemma {:induction false} RouteHasSuffix<T>(n: Node<T>, d: nat, x: Tokens)
    requires WF(n, d) && TextKind(n) && Compact(n, false) && HasSuffixed(RoutesOf(n), x)
    ensures Marked(n, x)
  {
    hide NodeAt, Get, WF, Compact;
    var q :| q in RoutesOf(n) && x <= q && !PlainSuffix(SuffixOf(q, |x| - 1));
    var r := q[|x|..];
    assert q == x + r && Passed(RoutesOf(n), x);
    assert NodeEnds(RoutesOf(n), x);
    EndsByRoutes(n, d, x, false);
    EndsAtParam(n, d, x);
    var w := NodeAt(n, x).value;
    assert r != [];
    OnFromParam(n, d, x, r);
    ParamCompactAt(n, d, x, false);
    var i := ChildIndex(w, r).value;
    assert w.children[i].prefix == r[..Terminator(r)];
  }

  // ----- Acceptance -----

  /** In such a tree the routes alone say where nodes end and which parameters have suffixes. */
  lemma {:induction false} WaysFollow<T>(t: Node<T>)
    requires TreeShape(t) && t != Empty() && Compact(t, false)
    ensures WaysOf(t) == WaysBy(RoutesOf(t))
  {
    hide NodeEnds, HasSuffixed, Compact, NodeAt, Get;
    forall x ensures Spelled(t, x) <==> NodeEnds(RoutesOf(t), x) {
      EndsByRoutes(t, 0, x, false);
    }
    forall x ensures Marked(t, x) <==> HasSuffixed(RoutesOf(t), x) {
      MarkedByRoutes(t, 0, x);
    }
    assert WaysOf(t).ends == WaysBy(RoutesOf(t)).ends;
    assert WaysOf(t).marks == WaysBy(RoutesOf(t)).marks;
    assert WaysOf(t).routes == WaysBy(RoutesOf(t)).routes;
  }

  lemma {:induction false} NoRoutesNoBlock(p: Tokens)
    ensures !Blocked(WaysBy(iset{}), p)
  {
    var ways := WaysBy(iset{});
    forall x ensures !Passed(iset{}, x) {}
    forall x ensures x !in ways.ends && x !in ways.marks { NothingPassed(iset{}, x); }
    hide NodeEnds, HasSuffixed, SegmentRest, FreshSegment, Passed;
    forall k: nat ensures !BlockAt(ways, p, k) {}
  }

  /**
   In a tree built by accepted insertions, a valid pattern is accepted if and only if nothing in the
   routes so far stands in its way.
   */
  lemma {:induction false} AcceptedByRoutes<T>(t: Node<T>, p: Tokens, v: T, names: seq<Name>)
    requires TreeShape(t) && OnlyAccepted(t) && Valid(p) && |names| == ParamCount(p)
    ensures Insert(t, p, v, names).outcome.Ok? <==> !Blocked(WaysBy(RoutesOf(t)), p)
  {
    hide Blocked, Insert, Compact, WaysBy;
    AcceptedIffUnhindered(t, p, v, names);
    if t == Empty() {
      EmptiedTree(t);
      assert RoutesOf(t) == iset{};
      NoRoutesNoBlock(p);
      NothingBlocksBare(t, p);
    } else {
      WaysFollow(t);
    }
  }
}
