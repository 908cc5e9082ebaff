/** The look-ahead of an insertion within a segment, stated on the ways through the tree. */
module SegmentWilds {
  import opened Prelude
  import opened Pattern
  import opened RouteTree
  import opened TreeInsert
  import opened RouteBuild
  import opened InsertProof
  import opened InsertShape
  import opened Acceptance

  /** Text within one segment. */
  ghost predicate SlashFree(t: Tokens) {
    AllLit(t) && SLASH_TOKEN !in t
  }

  /** The way `q` ends at a parameter that has had a static suffix. */
  ghost predicate Marked<T>(n: Node<T>, q: Tokens) {
    NodeAt(n, q).Some? && NodeAt(n, q).value.kind == ParamNode(true)
  }

  /**
   What can stand in the way of a pattern: the routes, the ends of nodes, and those ends at which a
   parameter has had a static suffix.
   */
  datatype Ways = Ways(routes: iset<Tokens>, ends: iset<Tokens>, marks: iset<Tokens>)

  ghost function WaysOf<T>(n: Node<T>): Ways {
    Ways(iset q | Get(n, q).Some?, iset q | Spelled(n, q), iset q | Marked(n, q))
  }

  /** In the segment that goes on at `x`, the tree leads to a parameter with a suffix. */
  ghost predicate SuffixedBelow(ways: Ways, x: Tokens) {
    exists t :: SlashFree(t) && x + t + [Param] in ways.marks
  }

  /** In the segment that goes on at `x`, the tree leads to a parameter. */
  ghost predicate WildBelow(ways: Ways, x: Tokens) {
    exists t :: SlashFree(t) && x + t + [Param] in ways.ends
  }

  /** Behind `x`, if a node ends at `k` inside a segment of `z`, it is the last segment. */
  ghost predicate LastSegmentAt(ways: Ways, x: Tokens, z: Tokens, k: nat)
    requires 0 < k < |z|
  {
    z[k - 1] != SLASH_TOKEN && x + z[..k] in ways.ends ==> SLASH_TOKEN !in z[k..]
  }

  /**
   From `x`, the text `z` leads to a parameter behind text. No node on the way may stand inside a
   segment that is not the last one.
   */
  ghost predicate Straddles(ways: Ways, x: Tokens, z: Tokens) {
    && AllLit(z) && z != [] && !EndsInSlash(z) && x + z + [Param] in ways.ends
    && forall k | 0 < k < |z| :: LastSegmentAt(ways, x, z, k)
  }

  /** At `x` the tree leads to a parameter with text in front of it. */
  ghost predicate PrefixedBelow(ways: Ways, x: Tokens) {
    x != [] && if EndsInSlash(x) then exists z :: Straddles(ways, x, z) else WildBelow(ways, x)
  }

  // ----- Ways -----

  lemma {:induction false} WayText<T>(c: Node<T>, y: Tokens)
    requires NodeAt(c, y).Some?
    ensures c.prefix <= y && (y == c.prefix || c.children != [])
  {
  }

  /** A way from a child is a way from the node. */
  lemma {:induction false} WayUnder<T>(n: Node<T>, d: nat, i: nat, y: Tokens)
    requires WF(n, d) && i < |n.children| && NodeAt(n.children[i], y).Some?
    ensures y != [] && ChildIndex(n, y) == Some(i) && NodeAt(n, n.prefix + y) == NodeAt(n.children[i], y)
  {
    WayText(n.children[i], y);
    ChildHasText(n, d, i);
    ChildIsUnique(n, d, y, i);
    assert (n.prefix + y)[|n.prefix|..] == y;
  }

  lemma {:induction false} WayStep<T>(n: Node<T>, y: Tokens)
    requires y != []
    ensures NodeAt(n, n.prefix + y) ==
            match ChildIndex(n, y) case None => None case Some(i) => NodeAt(n.children[i], y)
  {
    assert (n.prefix + y)[|n.prefix|..] == y;
  }

  /** A suffix without a '/' ends its route, so nothing lies behind a parameter in its own segment. */
  lemma {:induction false} SuffixHasNoWild<T>(c: Node<T>)
    requires SuffixShape(c)
    ensures SLASH_TOKEN !in c.prefix ==> c.children == []
    ensures !WildInSegment(c)
    ensures SLASH_TOKEN !in c.prefix ==> !SuffixWildInSegment(c)
  {
    if EndsInSlash(c.prefix) {
      assert c.prefix[|c.prefix| - 1] in c.prefix;
    }
  }

  lemma {:induction false} ParamLook<T>(w: Node<T>, d: nat)
    requires WF(w, d) && w.kind.ParamNode?
    ensures SuffixWildInSegment(w) <==> w.kind.suffix
    ensures WildInSegment(w)
    ensures !PrefixWildInSegment(w)
    ensures w.prefix == [Param] && NodeAt(w, [Param]) == Some(w)
  {
    forall i | 0 <= i < |w.children|
      ensures !WildInSegment(w.children[i])
      ensures SLASH_TOKEN !in w.children[i].prefix ==> !SuffixWildInSegment(w.children[i])
    {
      SuffixHasNoWild(w.children[i]);
    }
  }

  lemma {:induction false} CatchLook<T>(w: Node<T>, d: nat)
    requires WF(w, d) && w.kind.CatchAll?
    ensures !SuffixWildInSegment(w) && !WildInSegment(w) && !PrefixWildInSegment(w)
  {
  }

  /** The child that starts with a literal is static, and its text is part of the literals that follow. */
  lemma {:induction false} TextChild<T>(n: Node<T>, d: nat, t: Tokens, q: Tokens)
    requires WF(n, d) && TextKind(n) && AllLit(t) && t != [] && Spelled(n, n.prefix + t + q)
    requires q != [] && !q[0].Lit?
    ensures ChildIndex(n, t + q).Some?
    ensures var i := ChildIndex(n, t + q).value;
            && WF(n.children[i], d) && n.children[i].kind.Static? && n.children[i].prefix <= t
            && Spelled(n.children[i], t + q)
  {
    assert n.prefix + t + q == n.prefix + (t + q);
    WayStep(n, t + q);
    var i := ChildIndex(n, t + q).value;
    var c := n.children[i];
    assert (t + q)[0] == t[0];
    assert Heads(c, n.indices[i]);
    ChildWF(n, d, i);
    WayText(c, t + q);
    TextIsInside(c.prefix, t, q);
  }

  lemma {:induction false} TextIsInside(x: Tokens, t: Tokens, q: Tokens)
    requires AllLit(x) && x <= t + q && (q == [] || !q[0].Lit?)
    ensures x <= t
  {
    assert forall j | 0 <= j < |x| :: x[j] == (t + q)[j];
    assert q != [] ==> (t + q)[|t|] == q[0];
    assert |x| <= |t|;
    assert x == (t + q)[..|x|] == t[..|x|];
  }

  /** The wildcard child is where a way goes on with a parameter. */
  lemma {:induction false} ParamChild<T>(n: Node<T>, d: nat)
    requires WF(n, d) && TextKind(n) && Spelled(n, n.prefix + [Param])
    ensures n.wildChild && n.children != []
    ensures var w := n.children[|n.children| - 1];
            && WF(w, d) && w.kind.ParamNode? && NodeAt(n, n.prefix + [Param]) == Some(w)
  {
    WayStep(n, [Param]);
    var i := ChildIndex(n, [Param]).value;
    ChildWF(n, d, i);
    var w := n.children[i];
    WayText(w, [Param]);
    assert Wild(w);
    assert w.prefix[0] == Param;
  }

  /** Below a text node stand static children, then at most one wildcard. */
  lemma {:induction false} ChildKinds<T>(n: Node<T>, d: nat, i: nat)
    requires WF(n, d) && TextKind(n) && i < |n.children|
    ensures WF(n.children[i], d)
    ensures n.children[i].kind.ParamNode? || n.children[i].kind.CatchAll? ||
            (n.children[i].kind.Static? && i < |n.indices| && n.children[i].prefix != [])
  {
    ChildWF(n, d, i);
    ChildHasText(n, d, i);
  }

  lemma {:induction false} TextOf<T>(c: Node<T>, d: nat)
    requires WF(c, d) && TextKind(c)
    ensures AllLit(c.prefix)
  {
  }

  lemma {:induction false} OwnWay<T>(n: Node<T>)
    ensures NodeAt(n, n.prefix) == Some(n)
  {
  }

  // ----- A parameter with a suffix ahead -----

  ghost predicate SuffixWay<T>(n: Node<T>, x: Tokens, t: Tokens) {
    SlashFree(t) && Marked(n, x + t + [Param])
  }

  lemma {:induction false} SuffixWayUnder<T>(n: Node<T>, d: nat, i: nat, t: Tokens)
    requires WF(n, d) && TextKind(n) && i < |n.children| && SlashFree(n.children[i].prefix)
    requires SuffixWay(n.children[i], n.children[i].prefix, t)
    ensures SuffixWay(n, n.prefix, n.children[i].prefix + t)
  {
    var c := n.children[i];
    WayUnder(n, d, i, c.prefix + t + [Param]);
    assert n.prefix + (c.prefix + t) + [Param] == n.prefix + (c.prefix + t + [Param]);
  }

  lemma {:induction false} SuffixLook<T>(n: Node<T>)
    requires TextKind(n)
    ensures SuffixWildInSegment(n) <==>
            exists i | 0 <= i < |n.children| ::
              SLASH_TOKEN !in n.children[i].prefix && SuffixWildInSegment(n.children[i])
  {
  }

  lemma {:induction false} SuffixAheadIf<T>(n: Node<T>, d: nat)
    requires WF(n, d) && TextKind(n) && SuffixWildInSegment(n)
    ensures SuffixedBelow(WaysOf(n), n.prefix)
    decreases n
  {
    hide WF, SuffixWildInSegment, NodeAt;
    SuffixLook(n);
    var i :| 0 <= i < |n.children| && SLASH_TOKEN !in n.children[i].prefix && SuffixWildInSegment(n.children[i]);
    var c := n.children[i];
    ChildKinds(n, d, i);
    if c.kind.ParamNode? {
      ParamLook(c, d);
      WayUnder(n, d, i, [Param]);
      assert n.prefix + [] + [Param] == n.prefix + [Param];
      assert SuffixWay(n, n.prefix, []);
    } else if c.kind.CatchAll? {
      CatchLook(c, d);
    } else {
      TextOf(c, d);
      SuffixAheadIf(c, d);
      var t :| SlashFree(t) && Marked(c, c.prefix + t + [Param]);
      SuffixWayUnder(n, d, i, t);
    }
  }

  /** Behind the text of a child, the same way goes on. */
  lemma {:induction false} WayBelow<T>(n: Node<T>, d: nat, t: Tokens) returns (i: nat, rest: Tokens)
    requires WF(n, d) && TextKind(n) && AllLit(t) && t != [] && Spelled(n, n.prefix + t + [Param])
    ensures i < |n.children| && WF(n.children[i], d) && n.children[i].kind.Static? && n.children[i].prefix != []
    ensures t == n.children[i].prefix + rest && AllLit(rest)
    ensures NodeAt(n, n.prefix + t + [Param]) == NodeAt(n.children[i], n.children[i].prefix + rest + [Param])
  {
    TextChild(n, d, t, [Param]);
    i := ChildIndex(n, t + [Param]).value;
    var c := n.children[i];
    rest := t[|c.prefix|..];
    assert t == c.prefix + rest;
    assert c.prefix + rest + [Param] == t + [Param];
    assert n.prefix + t + [Param] == n.prefix + (t + [Param]);
    WayStep(n, t + [Param]);
    ChildHasText(n, d, i);
  }

  lemma {:induction false} SuffixAheadOnlyIf<T>(n: Node<T>, d: nat, t: Tokens)
    requires WF(n, d) && TextKind(n) && SuffixWay(n, n.prefix, t)
    ensures SuffixWildInSegment(n)
    decreases n
  {
    hide WF, SuffixWildInSegment, NodeAt;
    SuffixLook(n);
    if t == [] {
      assert n.prefix + t + [Param] == n.prefix + [Param];
      ParamChild(n, d);
      var w := n.children[|n.children| - 1];
      ParamLook(w, d);
      assert SLASH_TOKEN !in w.prefix;
    } else {
      var i, rest := WayBelow(n, d, t);
      SuffixAheadOnlyIf(n.children[i], d, rest);
      assert SLASH_TOKEN !in n.children[i].prefix;
    }
  }

  lemma {:induction false} SuffixAheadIff<T>(n: Node<T>, d: nat)
    requires WF(n, d) && TextKind(n)
    ensures SuffixWildInSegment(n) <==> SuffixedBelow(WaysOf(n), n.prefix)
  {
    hide SuffixWildInSegment;
    if SuffixWildInSegment(n) {
      SuffixAheadIf(n, d);
    }
    if t :| SlashFree(t) && Marked(n, n.prefix + t + [Param]) {
      SuffixAheadOnlyIf(n, d, t);
    }
  }

  // ----- A parameter ahead -----

  ghost predicate WildWay<T>(n: Node<T>, x: Tokens, t: Tokens) {
    SlashFree(t) && Spelled(n, x + t + [Param])
  }

  ghost predicate WildAhead<T>(n: Node<T>) {
    exists i | 0 <= i < |n.children| :: WildInSegment(n.children[i])
  }

  lemma {:induction false} WildLook<T>(c: Node<T>)
    requires c.kind.Static?
    ensures WildInSegment(c) <==> SLASH_TOKEN !in c.prefix && WildAhead(c)
  {
  }

  lemma {:induction false} WildAheadIf<T>(n: Node<T>, d: nat)
    requires WF(n, d) && TextKind(n) && WildAhead(n)
    ensures WildBelow(WaysOf(n), n.prefix)
    decreases n
  {
    hide WF, WildInSegment, NodeAt;
    var i :| 0 <= i < |n.children| && WildInSegment(n.children[i]);
    var c := n.children[i];
    ChildKinds(n, d, i);
    if c.kind.ParamNode? {
      ParamLook(c, d);
      WayUnder(n, d, i, [Param]);
      assert n.prefix + [] + [Param] == n.prefix + [Param];
      assert WildWay(n, n.prefix, []);
    } else if c.kind.CatchAll? {
      CatchLook(c, d);
    } else {
      TextOf(c, d);
      WildLook(c);
      WildAheadIf(c, d);
      var t :| SlashFree(t) && Spelled(c, c.prefix + t + [Param]);
      WayUnder(n, d, i, c.prefix + t + [Param]);
      assert n.prefix + (c.prefix + t) + [Param] == n.prefix + (c.prefix + t + [Param]);
      assert WildWay(n, n.prefix, c.prefix + t);
    }
  }

  lemma {:induction false} WildAheadOnlyIf<T>(n: Node<T>, d: nat, t: Tokens)
    requires WF(n, d) && TextKind(n) && WildWay(n, n.prefix, t)
    ensures WildAhead(n)
    decreases n
  {
    hide WF, WildInSegment, NodeAt;
    if t == [] {
      assert n.prefix + t + [Param] == n.prefix + [Param];
      ParamChild(n, d);
      ParamLook(n.children[|n.children| - 1], d);
    } else {
      var i, rest := WayBelow(n, d, t);
      var c := n.children[i];
      WildAheadOnlyIf(c, d, rest);
      assert SLASH_TOKEN !in c.prefix;
      WildLook(c);
    }
  }

  lemma {:induction false} WildAheadIff<T>(n: Node<T>, d: nat)
    requires WF(n, d) && TextKind(n)
    ensures WildAhead(n) <==> WildBelow(WaysOf(n), n.prefix)
  {
    hide WildAhead;
    if WildAhead(n) {
      WildAheadIf(n, d);
    }
    if t :| SlashFree(t) && Spelled(n, n.prefix + t + [Param]) {
      WildAheadOnlyIf(n, d, t);
    }
  }

  // ----- A parameter behind text ahead -----

  lemma {:induction false} LookAheadIs<T>(n: Node<T>, d: nat)
    requires WF(n, d) && TextKind(n)
    ensures PrefixWildInSegment(n) <==>
            n.prefix != [] &&
              if EndsInSlash(n.prefix) then exists i | 0 <= i < |n.children| :: PrefixWildInSegment(n.children[i])
              else WildAhead(n)
  {
    EmptyTextIsRoot(n, d);
    if n.prefix == [] {
      assert n.kind.Root?;
    }
  }

  /** Inside the text of a child no way ends. */
  lemma {:induction false} NoWayInside<T>(n: Node<T>, d: nat, i: nat, z: Tokens, k: nat)
    requires WF(n, d) && TextKind(n) && i < |n.indices| && 0 < k < |n.children[i].prefix| && k <= |z|
    requires n.children[i].prefix <= z && n.children[i].kind.Static?
    ensures !Spelled(n, n.prefix + z[..k])
  {
    var c := n.children[i];
    WayStep(n, z[..k]);
    assert Heads(c, n.indices[i]);
    assert z[..k][0] == c.prefix[0];
    HeadIsUnique(n, z[..k], i);
  }

  /** Text that straddles a child's text straddles from there on. */
  lemma {:induction false} StraddlesUnder<T>(n: Node<T>, d: nat, i: nat, t: Tokens)
    requires WF(n, d) && TextKind(n) && i < |n.indices| && n.children[i].kind.Static?
    requires var x := n.children[i].prefix;
             if EndsInSlash(x) then Straddles(WaysOf(n.children[i]), x, t) else WildWay(n.children[i], x, t)
    ensures Straddles(WaysOf(n), n.prefix, n.children[i].prefix + t)
  {
    hide WF, NodeAt, Get, LastSegmentAt;
    StaticText(n, d, i);
    var c := n.children[i];
    ChildKinds(n, d, i);
    var z := c.prefix + t;
    WayUnder(n, d, i, z + [Param]);
    assert n.prefix + z + [Param] == n.prefix + (z + [Param]);
    StraddlesEnd(c.prefix, t);
    forall k | 0 < k < |z| ensures LastSegmentAt(WaysOf(n), n.prefix, z, k) {
      StraddlesCut(n, d, i, t, k);
    }
  }

  lemma {:induction false} StaticText<T>(n: Node<T>, d: nat, i: nat)
    requires WF(n, d) && TextKind(n) && i < |n.indices|
    ensures i < |n.children| && n.children[i].prefix != [] && AllLit(n.children[i].prefix)
    ensures forall rest: Tokens | rest != [] && rest[0] == n.children[i].prefix[0] :: ChildIndex(n, rest) == Some(i)
  {
    var c := n.children[i];
    assert Heads(c, n.indices[i]);
    ChildWF(n, d, i);
    forall rest: Tokens | rest != [] && rest[0] == c.prefix[0] ensures ChildIndex(n, rest) == Some(i) {
      HeadIsUnique(n, rest, i);
    }
  }

  lemma {:induction false} StraddlesEnd(x: Tokens, t: Tokens)
    requires if EndsInSlash(x) then t != [] && !EndsInSlash(t) else SLASH_TOKEN !in t
    ensures !EndsInSlash(x + t)
  {
    var z := x + t;
    if t != [] {
      assert z[|z| - 1] == t[|t| - 1];
      assert t[|t| - 1] in t;
    } else {
      assert z == x;
    }
  }

  lemma {:induction false} StraddlesCut<T>(n: Node<T>, d: nat, i: nat, t: Tokens, k: nat)
    requires WF(n, d) && TextKind(n) && i < |n.indices| && n.children[i].kind.Static?
    requires var x := n.children[i].prefix;
             if EndsInSlash(x) then Straddles(WaysOf(n.children[i]), x, t) else WildWay(n.children[i], x, t)
    requires 0 < k < |n.children[i].prefix + t|
    ensures LastSegmentAt(WaysOf(n), n.prefix, n.children[i].prefix + t, k)
  {
    hide WF, NodeAt, Get, Straddles;
    StaticText(n, d, i);
    var c := n.children[i];
    var z := c.prefix + t;
    if k < |c.prefix| {
      NoWayInside(n, d, i, z, k);
    } else {
      var m := k - |c.prefix|;
      assert z[k..] == t[m..] && z[..k] == c.prefix + t[..m];
      if EndsInSlash(c.prefix) {
        assert z[|c.prefix| - 1] == c.prefix[|c.prefix| - 1];
        if m > 0 {
          assert z[k - 1] == t[m - 1];
          WayStep(n, z[..k]);
          assert z[..k][0] == c.prefix[0];
          assert LastSegmentAt(WaysOf(c), c.prefix, t, m) by { LastOf(WaysOf(c), c.prefix, t, m); }
        }
      }
    }
  }

  lemma {:induction false} LastOf(ways: Ways, x: Tokens, z: Tokens, k: nat)
    requires Straddles(ways, x, z) && 0 < k < |z|
    ensures LastSegmentAt(ways, x, z, k)
  {
  }

  lemma {:induction false} PrefixAheadIf<T>(n: Node<T>, d: nat)
    requires WF(n, d) && TextKind(n) && PrefixWildInSegment(n)
    ensures PrefixedBelow(WaysOf(n), n.prefix)
    decreases n
  {
    hide WF, PrefixWildInSegment, WildInSegment, Straddles, Spelled, SlashFree;
    LookAheadIs(n, d);
    if EndsInSlash(n.prefix) {
      var i :| 0 <= i < |n.children| && PrefixWildInSegment(n.children[i]);
      var c := n.children[i];
      ChildKinds(n, d, i);
      if c.kind.ParamNode? {
        ParamLook(c, d);
      } else if c.kind.CatchAll? {
        CatchLook(c, d);
      } else {
        PrefixAheadIf(c, d);
        if EndsInSlash(c.prefix) {
          var z :| Straddles(WaysOf(c), c.prefix, z);
          StraddlesUnder(n, d, i, z);
        } else {
          var t :| SlashFree(t) && Spelled(c, c.prefix + t + [Param]);
          StraddlesUnder(n, d, i, t);
        }
      }
    } else {
      WildAheadIff(n, d);
    }
  }

  lemma {:induction false} PrefixAheadOnlyIf<T>(n: Node<T>, d: nat)
    requires WF(n, d) && TextKind(n) && PrefixedBelow(WaysOf(n), n.prefix)
    ensures PrefixWildInSegment(n)
    decreases n
  {
    LookAheadIs(n, d);
    if EndsInSlash(n.prefix) {
      var z :| Straddles(WaysOf(n), n.prefix, z);
      TextChild(n, d, z, [Param]);
      var i := ChildIndex(n, z + [Param]).value;
      var c := n.children[i];
      assert (z + [Param])[0] == z[0];
      StraddlesBelow(n, d, i, z);
      PrefixAheadOnlyIf(c, d);
    } else {
      WildAheadIff(n, d);
    }
  }

  lemma {:induction false} StraddlesBelow<T>(n: Node<T>, d: nat, i: nat, z: Tokens)
    requires WF(n, d) && TextKind(n) && Straddles(WaysOf(n), n.prefix, z)
    requires i < |n.children| && n.children[i].prefix != [] && n.children[i].prefix <= z
    requires Spelled(n.children[i], z + [Param])
    ensures PrefixedBelow(WaysOf(n.children[i]), n.children[i].prefix)
  {
    hide WF, NodeAt;
    var c := n.children[i];
    var t := z[|c.prefix|..];
    assert z == c.prefix + t;
    assert c.prefix + t + [Param] == z + [Param];
    if EndsInSlash(c.prefix) {
      StraddlesRest(n, d, i, z, t);
    } else {
      assert Spelled(c, c.prefix) by { OwnWay(c); }
      WayUnder(n, d, i, c.prefix);
      var k := |c.prefix|;
      assert z[..k] == c.prefix && z[k - 1] == c.prefix[k - 1];
      if k < |z| { LastOf(WaysOf(n), n.prefix, z, k); }
      assert WildWay(c, c.prefix, t);
    }
  }

  lemma {:induction false} StraddlesRest<T>(n: Node<T>, d: nat, i: nat, z: Tokens, t: Tokens)
    requires WF(n, d) && TextKind(n) && Straddles(WaysOf(n), n.prefix, z)
    requires i < |n.children| && EndsInSlash(n.children[i].prefix) && z == n.children[i].prefix + t
    requires Spelled(n.children[i], z + [Param])
    ensures Straddles(WaysOf(n.children[i]), n.children[i].prefix, t)
  {
    hide WF, NodeAt, Get, LastSegmentAt;
    var c := n.children[i];
    assert c.prefix + t + [Param] == z + [Param];
    assert t == [] ==> z == c.prefix;
    assert forall j | 0 <= j < |t| :: t[j] == z[|c.prefix| + j];
    forall k | 0 < k < |t| ensures LastSegmentAt(WaysOf(c), c.prefix, t, k) {
      LastRest(n, d, i, z, t, k);
    }
  }

  lemma {:induction false} LastRest<T>(n: Node<T>, d: nat, i: nat, z: Tokens, t: Tokens, k: nat)
    requires WF(n, d) && TextKind(n) && i < |n.children| && z == n.children[i].prefix + t && 0 < k < |t|
    requires LastSegmentAt(WaysOf(n), n.prefix, z, |n.children[i].prefix| + k)
    ensures LastSegmentAt(WaysOf(n.children[i]), n.children[i].prefix, t, k)
  {
    hide WF, NodeAt, Get;
    var c := n.children[i];
    var m := |c.prefix| + k;
    assert z[..m] == c.prefix + t[..k] && z[m..] == t[k..] && z[m - 1] == t[k - 1];
    if Spelled(c, z[..m]) {
      WayUnder(n, d, i, z[..m]);
    }
  }

  lemma {:induction false} PrefixAheadIff<T>(n: Node<T>, d: nat)
    requires WF(n, d) && TextKind(n)
    ensures PrefixWildInSegment(n) <==> PrefixedBelow(WaysOf(n), n.prefix)
  {
    hide PrefixWildInSegment;
    if PrefixWildInSegment(n) {
      PrefixAheadIf(n, d);
    }
    if PrefixedBelow(WaysOf(n), n.prefix) {
      PrefixAheadOnlyIf(n, d);
    }
  }
}
