/** Every tree accepts a valid pattern exactly if it has no route yet and nothing stands in its way. */
module PatternWalk {
  import opened Prelude
  import opened Pattern
  import opened RouteTree
  import opened TreeInsert
  import opened RouteBuild
  import opened InsertProof
  import opened InsertAtProof
  import opened InsertShape
  import opened TreeOutcome
  import opened Acceptance
  import opened LiveTree
  import opened SegmentWilds
  import opened PatternAcceptance

  // ----- The end of the pattern -----

  lemma {:induction false} EndsHere<T>(
    node: Node<T>, d: nat, parent: Option<Node<T>>, p: Tokens, v: T, names: seq<Name>)
    requires Comes(node, d, p) && Enters(node, p) && CommonPrefix(p, node.prefix) == |p|
    ensures InsertAt(node, d, parent, p, v, names).outcome.Ok? <==> !Blocked(WaysOf(node), p)
  {
    hide WF, NewSuffix, NewStatic, NewWild, Promote, BlockAt, NodeAt;
    forall k: nat ensures !BlockAt(WaysOf(node), p, k) {
      if k < |p| {
        PassedLiterals(node, d, p, k);
      } else {
        NoBlockBehind(node, p, k);
      }
    }
    ShorterCommon(p, node.prefix);
    if p == node.prefix {
      assert Prepared(node, p).value == node.value;
    } else {
      assert Prepared(node, p).value.None?;
      assert !(node.prefix <= p);
    }
  }

  // ----- Down a static child -----

  lemma {:induction false} HeadWays<T>(n: Node<T>, d: nat, i: nat)
    requires WF(n, d) && TextKind(n) && i < |n.indices|
    ensures i < |n.children| && n.children[i].prefix != [] && SameWays(n, n.prefix, n.children[i], 1)
  {
    var c := n.children[i];
    assert Heads(c, n.indices[i]);
    forall q | c.prefix[..1] <= q ensures NodeAt(n, n.prefix + q) == NodeAt(c, q) {
      assert c.prefix[..1] == q[..1];
      assert q[0] == q[..1][0] == c.prefix[..1][0] == c.prefix[0];
      HeadIsUnique(n, q, i);
      WayStep(n, q);
    }
  }

  lemma {:induction false} PlainStart(x: Tokens, y: Tokens)
    requires AllLit(x)
    ensures SegmentStarts(x, y)
  {
  }

  lemma {:induction false} BlockedBelowStatic<T>(node: Node<T>, d: nat, p: Tokens, i: nat)
    requires Comes(node, d, p) && |node.prefix| < |p| && CommonPrefix(p, node.prefix) == |node.prefix|
    requires i < |node.indices| && p[|node.prefix|] == Lit(node.indices[i])
    ensures i < |node.children| && (Blocked(WaysOf(node), p) <==> Blocked(WaysOf(node.children[i]), p[|node.prefix|..]))
  {
    hide WF, BlockAt, NodeAt, Get, SameWays;
    var k := |node.prefix|;
    HeadWays(node, d, i);
    var c, rest := node.children[i], p[k..];
    assert p == node.prefix + rest by { ShorterCommon(p, node.prefix); }
    assert rest[0] == p[k];
    StaticHead(node, d, i);
    assert c.prefix[..1] == rest[..1];
    TextOf(node, d);
    PlainStart(node.prefix, c.prefix[..1]);
    FirstStep(node, c, d, p, i);
    forall j: nat | j < k + 1 ensures !BlockAt(WaysOf(node), p, j) {
      if j < k {
        PassedLiterals(node, d, p, j);
      }
    }
    HeldBelowHead(node, i, rest);
    BlockedMoves(node, node.prefix, c, 1, rest);
  }

  lemma {:induction false} StaticHead<T>(n: Node<T>, d: nat, i: nat)
    requires WF(n, d) && TextKind(n) && i < |n.indices|
    ensures i < |n.children| && WF(n.children[i], d) && n.children[i].kind.Static?
    ensures n.children[i].prefix != [] && n.children[i].prefix[0] == Lit(n.indices[i])
    ensures forall rest: Tokens | rest != [] && rest[0] == Lit(n.indices[i]) :: ChildIndex(n, rest) == Some(i)
  {
    assert Heads(n.children[i], n.indices[i]);
    ChildWF(n, d, i);
    forall rest: Tokens | rest != [] && rest[0] == Lit(n.indices[i]) ensures ChildIndex(n, rest) == Some(i) {
      HeadIsUnique(n, rest, i);
    }
  }

  lemma {:induction false} HeldBelowHead<T>(n: Node<T>, i: nat, rest: Tokens)
    requires rest != [] && ChildIndex(n, rest) == Some(i)
    ensures Get(n, n.prefix + rest) == Get(n.children[i], rest)
  {
    HeldBelow(n, i, rest);
  }

  lemma {:induction false} FirstStep<T>(n: Node<T>, c: Node<T>, d: nat, p: Tokens, i: nat)
    requires WF(n, d) && TextKind(n) && i < |n.children| && c == n.children[i] && c.prefix != []
    requires n.prefix + c.prefix[..1] <= p && p[|n.prefix|].Lit?
    ensures !BlockAt(WaysOf(n), p, |n.prefix|)
    ensures forall j: nat | j < 1 :: !BlockAt(WaysOf(c), p[|n.prefix|..], j)
  {
    hide WF, NodeAt;
    var k := |n.prefix|;
    OwnWay(c);
    WayUnder(n, d, i, c.prefix);
    var x := n.prefix + c.prefix[..1];
    assert p[..k + 1] == x;
    assert n.prefix + c.prefix in WaysOf(n).ends && x <= n.prefix + c.prefix;
    assert OnWay(WaysOf(n), x);
    AlongIsFree(n, p, k);
    var rest := p[k..];
    assert rest[..1] == p[..k + 1][k..] == c.prefix[..1];
    PassedIsOnWay(c, c.prefix[..1]);
    AlongIsFree(c, rest, 0);
  }

  // ----- At a wildcard child -----

  /** The wildcard child is the only way on with a wildcard. */
  lemma {:induction false} OneWild<T>(n: Node<T>, d: nat, w: Token)
    requires WF(n, d) && TextKind(n) && n.wildChild && n.children != [] && !w.Lit?
    ensures var c := n.children[|n.children| - 1];
            && Wild(c) && WF(c, d) && |c.prefix| == 1 && !c.prefix[0].Lit?
            && NodeAt(n, n.prefix + [w]) == if c.prefix == [w] then Some(c) else None
  {
    var c := n.children[|n.children| - 1];
    ChildWF(n, d, |n.children| - 1);
    WayStep(n, [w]);
  }

  lemma {:induction false} OtherWildIff<T>(n: Node<T>, d: nat, p: Tokens)
    requires WF(n, d) && TextKind(n) && n.wildChild && n.children != []
    requires n.prefix < p && !p[|n.prefix|].Lit?
    ensures var c, k := n.children[|n.children| - 1], |n.prefix|;
            && (OtherWild(WaysOf(n), p, k) <==> c.prefix != [p[k]])
            && (Marked(n, p[..k] + [Param]) <==> c.kind == ParamNode(true))
            && (Spelled(n, p[..k] + [Param]) <==> c.prefix == [Param])
            && !PartsAt(WaysOf(n), p, k)
  {
    hide WF, NodeAt;
    var c, k := n.children[|n.children| - 1], |n.prefix|;
    assert p[..k] == n.prefix;
    OneWild(n, d, p[k]);
    OneWild(n, d, Param);
    OneWild(n, d, c.prefix[0]);
    assert c.prefix == [c.prefix[0]];
    WildKind(c, d);
    forall w: Token | !w.Lit? && w != p[k] && Spelled(n, p[..k] + [w]) ensures c.prefix == [w] {
      OneWild(n, d, w);
    }
  }

  lemma {:induction false} WildKind<T>(c: Node<T>, d: nat)
    requires WF(c, d) && Wild(c)
    ensures c.kind.ParamNode? <==> c.prefix == [Param]
    ensures c.kind.CatchAll? ==> c.prefix[0].Catch? && c.value.Some? && Get(c, c.prefix).Some?
  {
  }

  /** Up to the wildcard nothing blocks. */
  lemma {:induction false} FreeBefore<T>(node: Node<T>, d: nat, p: Tokens)
    requires WF(node, d) && TextKind(node) && CommonPrefix(p, node.prefix) == |node.prefix|
    ensures forall j: nat | j < |node.prefix| :: !BlockAt(WaysOf(node), p, j)
  {
    hide WF, BlockAt, CommonPrefix;
    forall j: nat | j < |node.prefix| ensures !BlockAt(WaysOf(node), p, j) {
      PassedLiterals(node, d, p, j);
    }
  }

  /** The wildcard child refuses the pattern: it is another wildcard, a catch-all, or wants a suffix. */
  lemma {:induction false} ConflictIsBlocked<T>(node: Node<T>, d: nat, p: Tokens)
    requires Comes(node, d, p) && node.wildChild && node.children != [] && node.prefix < p
    requires !p[|node.prefix|].Lit?
    ensures var k := |node.prefix|;
            WildConflict(node, node.children[|node.children| - 1], p[k..]) <==>
            || OtherWild(WaysOf(node), p, k) || LacksSuffix(WaysOf(node), p, k)
            || (node.children[|node.children| - 1].kind.CatchAll? && Get(node, p).Some?)
  {
    hide NodeAt;
    var k, last := |node.prefix|, |node.children| - 1;
    var c, rest := node.children[last], p[k..];
    OtherWildIff(node, d, p);
    ChildWF(node, d, last);
    OneWild(node, d, p[k]);
    WildKind(c, d);
    assert rest[0] == p[k] && p[..k] == node.prefix && rest[1..] == p[k + 1..];
    if c.kind.CatchAll? && c.prefix == [p[k]] {
      CatchHeld(node, d, p);
    }
  }

  lemma {:induction false} CatchHeld<T>(node: Node<T>, d: nat, p: Tokens)
    requires Comes(node, d, p) && node.wildChild && node.children != [] && node.prefix < p
    requires node.children[|node.children| - 1].kind.CatchAll?
    requires node.children[|node.children| - 1].prefix == [p[|node.prefix|]]
    ensures Get(node, p).Some?
  {
    var last, rest := |node.children| - 1, p[|node.prefix|..];
    var c := node.children[last];
    ChildWF(node, d, last);
    ValidBehind(node, d, p);
    assert rest[0] == p[|node.prefix|];
    assert rest == [rest[0]] == c.prefix;
    assert ChildIndex(node, rest) == Some(last);
    HeldBelow(node, last, rest);
    assert node.prefix + rest == p;
  }

  // ----- Below a parameter -----

  /** The parameter child of a text node, and a pattern that goes on with a parameter there. */
  ghost predicate AtParameter<T>(node: Node<T>, d: nat, p: Tokens) {
    && Comes(node, d, p) && node.wildChild && node.children != [] && node.prefix < p
    && p[|node.prefix|] == Param && node.children[|node.children| - 1].kind.ParamNode?
    && !LacksSuffix(WaysOf(node), p, |node.prefix|)
  }

  ghost function ParamOf<T>(node: Node<T>): Node<T>
    requires node.children != []
  {
    node.children[|node.children| - 1]
  }

  lemma {:induction false} ParamText<T>(node: Node<T>, d: nat, p: Tokens)
    requires AtParameter(node, d, p)
    ensures var k := |node.prefix|;
            && p[..k] == node.prefix && p[k..] == [Param] + p[k + 1..] && p == node.prefix + [Param] + p[k + 1..]
            && CommonPrefix(p, node.prefix) == k && AllLit(node.prefix) && Valid(p[k..])
            && WF(ParamOf(node), d) && ParamOf(node).prefix == [Param]
  {
    hide NodeAt, OtherWild, LacksSuffix, CommonPrefix, Valid;
    ChildWF(node, d, |node.children| - 1);
    ShorterCommon(p, node.prefix);
    ValidBehind(node, d, p);
    CutAtParam(p, |node.prefix|);
  }

  lemma {:induction false} CutAtParam(p: Tokens, k: nat)
    requires k < |p| && p[k] == Param
    ensures p[k..] == [Param] + p[k + 1..] && p == p[..k] + [Param] + p[k + 1..]
  {
  }

  lemma {:induction false} ParamFacts<T>(node: Node<T>, d: nat, p: Tokens)
    requires AtParameter(node, d, p)
    ensures var w, k := ParamOf(node), |node.prefix|;
            && WF(w, d) && w.prefix == [Param] && CommonPrefix(p, node.prefix) == k && AllLit(node.prefix)
            && Spelled(node, node.prefix + [Param])
            && (BlockAt(WaysOf(node), p, k) <==> NewSuffixMeets(WaysOf(node), p, k))
            && Valid(p[k..]) && p[k..] == [Param] + p[k + 1..] && p == node.prefix + [Param] + p[k + 1..]
  {
    hide WF, NodeAt, NewSuffixMeets, Meets, OtherWild, LacksSuffix, PartsAt, CommonPrefix;
    ParamText(node, d, p);
    OtherWildIff(node, d, p);
  }

  /** Ways behind the parameter are ways of its suffix child. */
  lemma {:induction false} BehindParam<T>(node: Node<T>, d: nat, q: Tokens)
    requires WF(node, d) && TextKind(node) && node.wildChild && node.children != []
    requires ParamOf(node).kind.ParamNode? && q != []
    ensures var w := ParamOf(node);
            && NodeAt(node, node.prefix + [Param] + q) ==
               (match ChildIndex(w, q) case None => None case Some(i) => NodeAt(w.children[i], q))
            && Get(node, node.prefix + [Param] + q) ==
               (match ChildIndex(w, q) case None => None case Some(i) => Get(w.children[i], q))
  {
    hide NodeAt, Get;
    var w, last := ParamOf(node), |node.children| - 1;
    ChildWF(node, d, last);
    assert w.prefix == [Param];
    hide WF;
    var y := [Param] + q;
    assert node.prefix + [Param] + q == node.prefix + y;
    assert ChildIndex(node, y) == Some(last);
    WayStep(node, y);
    WayStep(w, q);
    HeldBelow(node, last, y);
    hide ChildIndex;
    if ChildIndex(w, q).Some? {
      HeldBelow(w, ChildIndex(w, q).value, q);
    } else {
      NothingBelow(w, q);
    }
  }

  lemma {:induction false} NothingBelow<T>(w: Node<T>, q: Tokens)
    requires q != [] && ChildIndex(w, q).None?
    ensures Get(w, w.prefix + q).None?
  {
    var x := w.prefix + q;
    assert x[|w.prefix|..] == q;
  }

  /** The suffix of a valid pattern is text, and its '/' ends it. */
  lemma {:induction false} SuffixFacts(p: Tokens, k: nat)
    requires k < |p| && p[k] == Param && Valid(p[k..])
    ensures var s, rest := SuffixOf(p, k), p[k + 1..];
            && AllLit(s) && |s| == Terminator(rest) && s <= rest && (s == [] <==> rest == [])
            && (EndsInSlash(s) || s == rest) && SlashAt(s) + 1 >= |s|
            && Valid(rest) && Valid(rest[|s|..])
            && (forall i | 0 <= i < |s| - 1 :: s[i] != SLASH_TOKEN)
  {
    var s, rest := SuffixOf(p, k), p[k + 1..];
    assert p[k..][0] == Param && p[k..][1..] == rest;
    ValidSegment(p[k..]);
    var t := Terminator(rest);
    if t < |rest| {
      assert s[|s| - 1] == rest[t - 1];
    } else {
      assert s == rest;
    }
    forall i | 0 <= i < |s| - 1 ensures s[i] != SLASH_TOKEN {
      assert i < SlashAt(rest);
      assert rest[i] == rest[..SlashAt(rest)][i];
    }
    SlashAtPrefix(s, rest);
    assert s == rest ==> SlashAt(s) == SlashAt(rest);
  }

  /** In the suffix of the parameter no position blocks. */
  lemma {:induction false} SuffixIsFree<T>(n: Node<T>, p: Tokens, k: nat, j: nat)
    requires k < j < |p| && p[k] == Param && p[j].Lit? && SLASH_TOKEN !in p[k + 1..j]
    ensures !BlockAt(WaysOf(n), p, j)
  {
    hide Meets, NodeAt;
    forall i | 0 <= i < |p[k..j]| ensures p[k..j][i] != SLASH_TOKEN {
      assert p[k..j][i] == p[k + i];
      if i > 0 { assert p[k + 1..j][i - 1] == p[k + i]; }
    }
  }

  lemma {:induction false} SuffixSoFar(p: Tokens, k: nat, j: nat)
    requires k < |p| && k < j <= k + |SuffixOf(p, k)| && j <= |p|
    requires forall i | 0 <= i < |SuffixOf(p, k)| - 1 :: SuffixOf(p, k)[i] != SLASH_TOKEN
    ensures SLASH_TOKEN !in p[k + 1..j]
  {
    var t := p[k + 1..j];
    forall i | 0 <= i < |t| ensures t[i] != SLASH_TOKEN {
      assert t[i] == p[k + 1..][i] == SuffixOf(p, k)[i];
    }
  }

  lemma {:induction false} SuffixPositions<T>(n: Node<T>, p: Tokens, k: nat)
    requires k < |p| && p[k] == Param && Valid(p[k..])
    ensures forall j: nat | k < j <= k + |SuffixOf(p, k)| :: !BlockAt(WaysOf(n), p, j)
  {
    hide BlockAt;
    var s, rest := SuffixOf(p, k), p[k + 1..];
    SuffixFacts(p, k);
    forall j: nat | k < j <= k + |s| ensures !BlockAt(WaysOf(n), p, j) {
      assert p[j] == rest[j - k - 1] == s[j - k - 1];
      SuffixSoFar(p, k, j);
      SuffixIsFree(n, p, k, j);
    }
  }

  /** The pattern ends with the parameter. */
  lemma {:induction false} ParamLast<T>(node: Node<T>, d: nat, p: Tokens, v: T, names: seq<Name>)
    requires AtParameter(node, d, p) && |p| == |node.prefix| + 1
    ensures var w := ParamOf(node);
            && WF(w, d) && Enters(w, [Param])
            && (InsertAt(w, d, Some(Prepared(node, p)), [Param], v, names).outcome.Ok? <==> !Blocked(WaysOf(node), p))
  {
    hide NodeAt, BlockAt, NewSuffix, NewStatic, NewWild;
    var w, k, last := ParamOf(node), |node.prefix|, |node.children| - 1;
    ParamFacts(node, d, p);
    FreeBefore(node, d, p);
    assert p[k + 1..] == [];
    NoSuffixMeets(node, p, k);
    forall j: nat ensures !BlockAt(WaysOf(node), p, j) {
      if j > k { NoBlockBehind(node, p, j); }
    }
    assert p == node.prefix + [Param];
    assert ChildIndex(node, [Param]) == Some(last);
    HeldBelow(node, last, [Param]);
    assert CommonPrefix([Param], w.prefix) == 1 by { ParamPrepared(w, d, [Param]); }
  }

  lemma {:induction false} NoSuffixMeets<T>(n: Node<T>, p: Tokens, k: nat)
    requires k < |p| && p[k + 1..] == []
    ensures !NewSuffixMeets(WaysOf(n), p, k)
  {
  }

  /** A suffix child takes the pattern in. */
  lemma {:induction false} BlockedBelowSuffix<T>(node: Node<T>, d: nat, p: Tokens, i: nat)
    requires AtParameter(node, d, p) && |p| > |node.prefix| + 1
    requires IndexOfPrefix(ParamOf(node).children, SuffixOf(p, |node.prefix|)) == Some(i)
    ensures Blocked(WaysOf(node), p) <==> Blocked(WaysOf(ParamOf(node).children[i]), p[|node.prefix| + 1..])
  {
    hide WF, NodeAt, BlockAt, Get, Blocked, AtParameter, IndexOfPrefix;
    var k := |node.prefix|;
    ParamFacts(node, d, p);
    SuffixFacts(p, k);
    if EndsInSlash(SuffixOf(p, k)) {
      BlockedBelowSlash(node, d, p, i);
    } else {
      BlockedAtSuffix(node, d, p, i);
    }
  }

  lemma {:induction false} FreeThroughSuffix<T>(node: Node<T>, d: nat, p: Tokens, i: nat)
    requires AtParameter(node, d, p) && |p| > |node.prefix| + 1
    requires IndexOfPrefix(ParamOf(node).children, SuffixOf(p, |node.prefix|)) == Some(i)
    ensures forall j: nat | j <= |node.prefix| + |SuffixOf(p, |node.prefix|)| :: !BlockAt(WaysOf(node), p, j)
  {
    hide WF, NodeAt, BlockAt, ChildIndex, NewSuffixMeets, LacksSuffix;
    var k := |node.prefix|;
    ParamFacts(node, d, p);
    FreeBefore(node, d, p);
    SuffixPositions(node, p, k);
    KnownSuffix(node, d, p, i);
  }

  /** The child of the suffix holds what the parameter holds behind it. */
  lemma {:induction false} SuffixTakes<T>(node: Node<T>, d: nat, p: Tokens, i: nat)
    requires AtParameter(node, d, p) && |p| > |node.prefix| + 1
    requires IndexOfPrefix(ParamOf(node).children, SuffixOf(p, |node.prefix|)) == Some(i)
    ensures var c, rest := ParamOf(node).children[i], p[|node.prefix| + 1..];
            && c.prefix <= rest && AllLit(c.prefix) && c.prefix != []
            && Get(node, node.prefix + [Param] + rest) == Get(c, rest)
            && forall j: nat | j < |c.prefix| :: !BlockAt(WaysOf(c), rest, j)
  {
    hide WF, NodeAt, BlockAt, Get, ChildIndex, NewSuffixMeets, LacksSuffix, IndexOfPrefix;
    var w, k := ParamOf(node), |node.prefix|;
    var c, rest := w.children[i], p[k + 1..];
    ParamText(node, d, p);
    SuffixFacts(p, k);
    KnownSuffix(node, d, p, i);
    BehindParam(node, d, rest);
    SuffixChildKind(w, d, i);
    forall j: nat | j < |c.prefix| ensures !BlockAt(WaysOf(c), rest, j) {
      SuffixAlong(c, rest, j);
    }
  }

  lemma {:induction false} BlockedBelowSlash<T>(node: Node<T>, d: nat, p: Tokens, i: nat)
    requires AtParameter(node, d, p) && |p| > |node.prefix| + 1
    requires IndexOfPrefix(ParamOf(node).children, SuffixOf(p, |node.prefix|)) == Some(i)
    requires EndsInSlash(SuffixOf(p, |node.prefix|))
    ensures Blocked(WaysOf(node), p) <==> Blocked(WaysOf(ParamOf(node).children[i]), p[|node.prefix| + 1..])
  {
    hide WF, NodeAt, BlockAt, Get, Blocked, SameWays, SegmentStarts, LacksSuffix;
    var k := |node.prefix|;
    var c, rest := ParamOf(node).children[i], p[k + 1..];
    FreeThroughSuffix(node, d, p, i);
    SuffixTakes(node, d, p, i);
    ParamText(node, d, p);
    SlashWays(node, d, i);
    SlashStart(node.prefix, c.prefix);
    assert c.prefix[..|c.prefix|] == c.prefix;
    BlockedMoves(node, node.prefix + [Param], c, |c.prefix|, rest);
  }

  lemma {:induction false} BlockedAtSuffix<T>(node: Node<T>, d: nat, p: Tokens, i: nat)
    requires AtParameter(node, d, p) && |p| > |node.prefix| + 1
    requires IndexOfPrefix(ParamOf(node).children, SuffixOf(p, |node.prefix|)) == Some(i)
    requires SuffixOf(p, |node.prefix|) == p[|node.prefix| + 1..]
    ensures Blocked(WaysOf(node), p) <==> Blocked(WaysOf(ParamOf(node).children[i]), p[|node.prefix| + 1..])
  {
    hide WF, NodeAt, BlockAt, Get, LacksSuffix;
    var c, rest := ParamOf(node).children[i], p[|node.prefix| + 1..];
    FreeThroughSuffix(node, d, p, i);
    SuffixTakes(node, d, p, i);
    ParamText(node, d, p);
    forall j: nat ensures !BlockAt(WaysOf(node), p, j) {
      if j >= |p| { NoBlockBehind(node, p, j); }
    }
    forall j: nat ensures !BlockAt(WaysOf(c), rest, j) {
      if j >= |rest| { NoBlockBehind(c, rest, j); }
    }
  }

  lemma {:induction false} SuffixAlong<T>(c: Node<T>, rest: Tokens, j: nat)
    requires c.prefix <= rest && j < |c.prefix| && AllLit(c.prefix)
    ensures !BlockAt(WaysOf(c), rest, j)
  {
    assert rest[..j + 1] == rest[..|c.prefix|][..j + 1] == c.prefix[..j + 1];
    assert rest[j] == c.prefix[j];
    PassedIsOnWay(c, rest[..j + 1]);
    AlongIsFree(c, rest, j);
  }

  lemma {:induction false} SuffixChildKind<T>(w: Node<T>, d: nat, i: nat)
    requires WF(w, d) && w.kind.ParamNode? && i < |w.children|
    ensures WF(w.children[i], d + 1) && w.children[i].kind.Static? && AllLit(w.children[i].prefix)
    ensures w.children[i].prefix != [] && SuffixShape(w.children[i])
  {
    ChildWF(w, d, i);
  }

  lemma {:induction false} KnownSuffix<T>(node: Node<T>, d: nat, p: Tokens, i: nat)
    requires AtParameter(node, d, p) && |p| > |node.prefix| + 1
    requires IndexOfPrefix(ParamOf(node).children, SuffixOf(p, |node.prefix|)) == Some(i)
    ensures !BlockAt(WaysOf(node), p, |node.prefix|)
    ensures ChildIndex(ParamOf(node), p[|node.prefix| + 1..]) == Some(i)
  {
    hide NodeAt, WF, BlockAt, LacksSuffix, IndexOfPrefix;
    var k := |node.prefix|;
    ParamFacts(node, d, p);
    SuffixFacts(p, k);
    SuffixWayIff(node, d, SuffixOf(p, k));
    assert p[..k] == node.prefix;
  }

  lemma {:induction false} SuffixTerminator(s: Tokens)
    requires SlashAt(s) + 1 >= |s|
    ensures Terminator(s) == |s|
  {
  }

  /** Behind a suffix with its '/', all ways go through its child. */
  lemma {:induction false} SlashWays<T>(node: Node<T>, d: nat, i: nat)
    requires WF(node, d) && TextKind(node) && node.wildChild && node.children != []
    requires ParamOf(node).kind.ParamNode? && i < |ParamOf(node).children|
    requires EndsInSlash(ParamOf(node).children[i].prefix)
    ensures var c := ParamOf(node).children[i]; SameWays(node, node.prefix + [Param], c, |c.prefix|)
  {
    hide NodeAt;
    var w := ParamOf(node);
    var c := w.children[i];
    ChildWF(node, d, |node.children| - 1);
    SuffixChildKind(w, d, i);
    assert c.prefix[..|c.prefix|] == c.prefix;
    forall q | c.prefix <= q ensures NodeAt(node, node.prefix + [Param] + q) == NodeAt(c, q) {
      TerminatorOfSuffix(c.prefix, q);
      SuffixIsUnique(w, q, i);
      BehindParam(node, d, q);
    }
  }

  lemma {:induction false} SlashStart(x: Tokens, s: Tokens)
    requires AllLit(x) && EndsInSlash(s)
    ensures SegmentStarts(x + [Param], s)
  {
    var y := x + [Param];
    forall i | 0 <= i < |y| && y[i].Param? ensures SLASH_TOKEN in y[i..] + s {
      var t := y[i..] + s;
      assert t[|t| - 1] == s[|s| - 1];
    }
  }

  // ----- A new suffix -----

  lemma {:induction false} ExtraSlashIff<T>(node: Node<T>, d: nat, p: Tokens)
    requires AtParameter(node, d, p) && |p| > |node.prefix| + 1
    requires IndexOfPrefix(ParamOf(node).children, SuffixOf(p, |node.prefix|)) == None
    ensures var x, s := node.prefix + [Param], SuffixOf(p, |node.prefix|);
            && !Spelled(node, x + s)
            && (!PlainSuffix(s) ==>
                  (ExtraSlash(ParamOf(node).children, s) <==>
                     Spelled(node, x + s + [SLASH_TOKEN]) || (EndsInSlash(s) && Spelled(node, x + s[..|s| - 1]))))
  {
    hide NodeAt, WF;
    var w, k := ParamOf(node), |node.prefix|;
    var x, s := node.prefix + [Param], SuffixOf(p, k);
    ParamFacts(node, d, p);
    SuffixFacts(p, k);
    SuffixWayIff(node, d, s);
    if !PlainSuffix(s) {
      assert x + (s + [SLASH_TOKEN]) == x + s + [SLASH_TOKEN];
      LongerSuffix(node, d, s);
      if EndsInSlash(s) {
        ShorterSuffix(node, d, s);
      } else {
        forall i | 0 <= i < |w.children| ensures w.children[i].prefix + [SLASH_TOKEN] != s {
          var y := w.children[i].prefix + [SLASH_TOKEN];
          assert y[|y| - 1] == SLASH_TOKEN;
        }
      }
    }
  }

  /** A way through one suffix: its child is there. */
  lemma {:induction false} SuffixWayIff<T>(node: Node<T>, d: nat, s: Tokens)
    requires WF(node, d) && TextKind(node) && node.wildChild && node.children != []
    requires ParamOf(node).kind.ParamNode? && s != [] && SlashAt(s) + 1 >= |s|
    ensures Spelled(node, node.prefix + [Param] + s) <==> IndexOfPrefix(ParamOf(node).children, s).Some?
  {
    hide NodeAt;
    var w := ParamOf(node);
    SuffixTerminator(s);
    assert s[..|s|] == s;
    BehindParam(node, d, s);
    if IndexOfPrefix(w.children, s).Some? {
      OwnWay(w.children[IndexOfPrefix(w.children, s).value]);
    }
  }

  lemma {:induction false} LongerSuffix<T>(node: Node<T>, d: nat, s: Tokens)
    requires WF(node, d) && TextKind(node) && node.wildChild && node.children != []
    requires ParamOf(node).kind.ParamNode? && s != [] && SlashAt(s) + 1 >= |s|
    requires IndexOfPrefix(ParamOf(node).children, s) == None
    ensures Spelled(node, node.prefix + [Param] + (s + [SLASH_TOKEN])) <==>
            exists i | 0 <= i < |ParamOf(node).children| :: s + [SLASH_TOKEN] == ParamOf(node).children[i].prefix
  {
    hide NodeAt;
    var w, y := ParamOf(node), s + [SLASH_TOKEN];
    ChildWF(node, d, |node.children| - 1);
    SlashAtPrefix(s, y);
    if SlashAt(s) == |s| {
      SuffixWayIff(node, d, y);
    } else {
      assert Terminator(y) == |s| && y[..|s|] == s;
      BehindParam(node, d, y);
      forall i | 0 <= i < |w.children| ensures w.children[i].prefix != y {
        assert SuffixShape(w.children[i]);
      }
    }
  }

  lemma {:induction false} ShorterSuffix<T>(node: Node<T>, d: nat, s: Tokens)
    requires WF(node, d) && TextKind(node) && node.wildChild && node.children != []
    requires ParamOf(node).kind.ParamNode? && |s| > 1 && SlashAt(s) + 1 >= |s| && EndsInSlash(s)
    ensures Spelled(node, node.prefix + [Param] + s[..|s| - 1]) <==>
            exists i | 0 <= i < |ParamOf(node).children| :: ParamOf(node).children[i].prefix + [SLASH_TOKEN] == s
  {
    hide NodeAt;
    var w, y := ParamOf(node), s[..|s| - 1];
    assert s == y + [SLASH_TOKEN];
    forall j | 0 <= j < |y| ensures y[j] != SLASH_TOKEN {
      assert j < SlashAt(s);
      assert y[j] == s[j] == s[..SlashAt(s)][j];
    }
    assert SlashAt(y) == |y|;
    SuffixWayIff(node, d, y);
    forall i | 0 <= i < |w.children| ensures w.children[i].prefix + [SLASH_TOKEN] == s <==> w.children[i].prefix == y {
      var z := w.children[i].prefix;
      assert z + [SLASH_TOKEN] == s ==> z == s[..|s| - 1];
    }
  }

  /** Behind a suffix the parameter does not have, no way leads on. */
  lemma {:induction false} NewSuffixLeaves<T>(node: Node<T>, d: nat, p: Tokens)
    requires AtParameter(node, d, p) && |p| > |node.prefix| + 1
    requires IndexOfPrefix(ParamOf(node).children, SuffixOf(p, |node.prefix|)) == None
    ensures Get(node, p).None?
    ensures forall j: nat | j > |node.prefix| + |SuffixOf(p, |node.prefix|)| :: !BlockAt(WaysOf(node), p, j)
  {
    hide *;
    var k := |node.prefix|;
    var s := SuffixOf(p, k);
    NewSuffixHasNoRoute(node, d, p);
    forall j: nat | j > k + |s| ensures !BlockAt(WaysOf(node), p, j) {
      if j < |p| {
        NewSuffixBeyond(node, d, p, j);
      } else {
        NoBlockBehind(node, p, j);
      }
    }
  }

  lemma {:induction false} NewSuffixHasNoRoute<T>(node: Node<T>, d: nat, p: Tokens)
    requires AtParameter(node, d, p) && |p| > |node.prefix| + 1
    requires IndexOfPrefix(ParamOf(node).children, SuffixOf(p, |node.prefix|)) == None
    ensures Get(node, p).None?
  {
    hide NodeAt, WF, Get, LacksSuffix, IndexOfPrefix, CommonPrefix;
    ParamText(node, d, p);
    BehindParam(node, d, p[|node.prefix| + 1..]);
  }

  lemma {:induction false} NewSuffixBeyond<T>(node: Node<T>, d: nat, p: Tokens, j: nat)
    requires AtParameter(node, d, p) && |p| > |node.prefix| + 1
    requires IndexOfPrefix(ParamOf(node).children, SuffixOf(p, |node.prefix|)) == None
    requires |node.prefix| + |SuffixOf(p, |node.prefix|)| < j < |p|
    ensures !BlockAt(WaysOf(node), p, j)
  {
    hide NodeAt, WF, BlockAt, LacksSuffix, IndexOfPrefix, CommonPrefix, OnWay, Valid;
    var k := |node.prefix|;
    var s := SuffixOf(p, k);
    ParamText(node, d, p);
    SuffixFacts(p, k);
    NoWayOn(node, d, s);
    assert p[..k + 1 + |s|] == node.prefix + [Param] + s;
    BeyondIsFree(node, p, k + 1 + |s|, j);
  }

  lemma {:induction false} NoWayOn<T>(node: Node<T>, d: nat, s: Tokens)
    requires WF(node, d) && TextKind(node) && node.wildChild && node.children != []
    requires ParamOf(node).kind.ParamNode? && EndsInSlash(s) && SlashAt(s) + 1 >= |s|
    requires IndexOfPrefix(ParamOf(node).children, s) == None
    ensures !OnWay(WaysOf(node), node.prefix + [Param] + s)
  {
    hide NodeAt;
    var x := node.prefix + [Param];
    forall q | Spelled(node, q) ensures !(x + s <= q) {
      if x + s <= q {
        var y := q[|x|..];
        assert q[..|x + s|] == x + s;
        assert q[..|x|] == q[..|x + s|][..|x|] == x;
        assert q == x + y && y[..|s|] == q[..|x + s|][|x|..] == s;
        TerminatorOfSuffix(s, y);
        BehindParam(node, d, y);
      }
    }
  }

  lemma {:induction false} AtNewSuffix<T>(w: Node<T>, d: nat, parent: Node<T>, q: Tokens, v: T, names: seq<Name>)
    requires WF(w, d) && w.kind.ParamNode? && q != [] && IndexOfPrefix(w.children, q[..Terminator(q)]) == None
    requires AllLit(q[..Terminator(q)]) && Valid(q[Terminator(q)..])
    ensures Enters(w, [Param] + q)
    ensures var s := q[..Terminator(q)];
            InsertAt(w, d, Some(parent), [Param] + q, v, names).outcome.Ok? <==>
            ExtraSlash(w.children, s) || PlainSuffix(s) || !PrefixWildInSegment(parent)
  {
    hide SuffixChild, PrefixWildInSegment, ExtraSlash, NewStatic, NewWild;
    var s := q[..Terminator(q)];
    assert [Param] <= [Param] + q && ([Param] + q)[1..] == q;
    ParamPrepared(w, d, [Param] + q);
    WildIffNotLit(s);
    SuffixIffValid(s, q[Terminator(q)..], v, names);
  }

  lemma {:induction false} NewSuffixMeetsIff<T>(node: Node<T>, d: nat, p: Tokens)
    requires AtParameter(node, d, p) && |p| > |node.prefix| + 1
    requires IndexOfPrefix(ParamOf(node).children, SuffixOf(p, |node.prefix|)) == None
    ensures var s := SuffixOf(p, |node.prefix|);
            NewSuffixMeets(WaysOf(node), p, |node.prefix|) <==>
            !ExtraSlash(ParamOf(node).children, s) && !PlainSuffix(s) && PrefixWildInSegment(Prepared(node, p))
  {
    hide NodeAt, WF, PrefixWildInSegment, ExtraSlash, PrefixedBelow, LacksSuffix, CommonPrefix, Valid, Terminator,
      IndexOfPrefix, Prepared, Get, Marked;
    var k := |node.prefix|;
    ParamFacts(node, d, p);
    ExtraSlashIff(node, d, p);
    PreparedLooks(node, d, p);
    assert p[..k] == node.prefix;
    hide Spelled;
    assert SuffixOf(p, k) != [] by { SuffixFacts(p, k); }
  }

  lemma {:induction false} NewSuffixOutcomeIs<T>(node: Node<T>, d: nat, p: Tokens, v: T, names: seq<Name>)
    requires AtParameter(node, d, p) && |p| > |node.prefix| + 1
    requires IndexOfPrefix(ParamOf(node).children, SuffixOf(p, |node.prefix|)) == None
    ensures var w, rest := ParamOf(node), p[|node.prefix|..];
            && WF(w, d) && Enters(w, rest)
            && (InsertAt(w, d, Some(Prepared(node, p)), rest, v, names).outcome.Ok? <==>
                  !NewSuffixMeets(WaysOf(node), p, |node.prefix|))
  {
    hide NodeAt, WF, InsertAt, PrefixWildInSegment, ExtraSlash, NewSuffixMeets, LacksSuffix, CommonPrefix, Valid,
      Terminator, IndexOfPrefix, Prepared;
    var k := |node.prefix|;
    ParamText(node, d, p);
    NewSuffixMeetsIff(node, d, p);
    SuffixFacts(p, k);
    AtNewSuffix(ParamOf(node), d, Prepared(node, p), p[k + 1..], v, names);
  }

  lemma {:induction false} NewSuffixBlocked<T>(node: Node<T>, d: nat, p: Tokens)
    requires AtParameter(node, d, p) && |p| > |node.prefix| + 1
    requires IndexOfPrefix(ParamOf(node).children, SuffixOf(p, |node.prefix|)) == None
    ensures Blocked(WaysOf(node), p) <==> NewSuffixMeets(WaysOf(node), p, |node.prefix|)
  {
    hide NodeAt, BlockAt, WF, NewSuffixMeets, Get;
    var k := |node.prefix|;
    ParamFacts(node, d, p);
    FreeBefore(node, d, p);
    SuffixPositions(node, p, k);
    NewSuffixLeaves(node, d, p);
    forall j: nat | j != k ensures !BlockAt(WaysOf(node), p, j) {}
  }

  // ----- The walk -----

  /** At a text node the walk goes on in a static child. */
  lemma {:induction false} DownStatic<T>(
    node: Node<T>, d: nat, parent: Option<Node<T>>, p: Tokens, v: T, names: seq<Name>, i: nat)
    requires Comes(node, d, p) && Enters(node, p)
    requires var k := CommonPrefix(p, node.prefix);
             k < |p| && p[k].Lit? && IndexOf(Prepared(node, p).indices, p[k].b) == Some(i)
    ensures CommonPrefix(p, node.prefix) == |node.prefix| && i < |node.indices| <= |node.children|
    ensures p[|node.prefix|] == Lit(node.indices[i])
    ensures var c, rest := node.children[i], p[|node.prefix|..];
            && Comes(c, d, rest) && Enters(c, rest)
            && InsertAt(node, d, parent, p, v, names).outcome ==
               InsertAt(c, d, Some(Prepared(node, p)), rest, v, names).outcome
  {
    hide PrefixWildInSegment, SuffixWildInSegment, Promote, SuffixChild, InsertRoute, NewSuffix, NewStatic, NewWild;
    StaticFound(node, d, p, i);
    StaticHead(node, d, i);
    ShorterCommon(p, node.prefix);
    ValidBehind(node, d, p);
    assert p[|node.prefix|..][0] == p[|node.prefix|];
  }

  /** At a parameter the walk goes on in the child of its suffix. */
  lemma {:induction false} AtSuffix<T>(w: Node<T>, d: nat, parent: Node<T>, q: Tokens, v: T, names: seq<Name>, i: nat)
    requires WF(w, d) && w.kind.ParamNode? && q != [] && Enters(w, [Param] + q)
    requires IndexOfPrefix(w.children, q[..Terminator(q)]) == Some(i)
    ensures WF(w.children[i], d + 1) && Enters(w.children[i], q)
    ensures InsertAt(w, d, Some(parent), [Param] + q, v, names).outcome ==
            InsertAt(w.children[i], d + 1, Some(w.(priority := w.priority + 1)), q, v, names).outcome
  {
    hide NewSuffix, NewStatic, NewWild, SuffixChild;
    SuffixChildKind(w, d, i);
    ParamPrepared(w, d, [Param] + q);
    assert ([Param] + q)[1..] == q;
  }

  lemma {:induction false} SuffixComes<T>(w: Node<T>, d: nat, q: Tokens, i: nat)
    requires WF(w, d) && w.kind.ParamNode? && q != [] && Valid(q) && i < |w.children|
    requires w.children[i].prefix == q[..Terminator(q)]
    ensures Comes(w.children[i], d + 1, q)
  {
    hide Valid, Terminator;
    SuffixChildKind(w, d, i);
    PositivePriority(w.children[i], d + 1);
  }

  lemma {:induction false} DownSuffix<T>(node: Node<T>, d: nat, p: Tokens, v: T, names: seq<Name>, i: nat)
    requires AtParameter(node, d, p) && |p| > |node.prefix| + 1
    requires IndexOfPrefix(ParamOf(node).children, SuffixOf(p, |node.prefix|)) == Some(i)
    ensures var w, rest := ParamOf(node), p[|node.prefix|..];
            && WF(w, d) && Enters(w, rest)
            && var c, q := w.children[i], p[|node.prefix| + 1..];
               && Comes(c, d + 1, q) && Enters(c, q)
               && InsertAt(w, d, Some(Prepared(node, p)), rest, v, names).outcome ==
                  InsertAt(c, d + 1, Some(w.(priority := w.priority + 1)), q, v, names).outcome
  {
    assert node.priority >= 1;
    hide NodeAt, WF, InsertAt, LacksSuffix, IndexOfPrefix, CommonPrefix, Valid, Prepared, Terminator, Comes;
    var w, k := ParamOf(node), |node.prefix|;
    var q := p[k + 1..];
    ParamText(node, d, p);
    assert Valid(q) by { SuffixFacts(p, k); }
    SuffixComes(w, d, q, i);
    AtSuffix(w, d, Prepared(node, p), q, v, names, i);
  }

  lemma {:induction false} WalkParameter<T>(node: Node<T>, d: nat, p: Tokens, v: T, names: seq<Name>)
    requires AtParameter(node, d, p)
    ensures var w, rest := ParamOf(node), p[|node.prefix|..];
            && WF(w, d) && Enters(w, rest)
            && (InsertAt(w, d, Some(Prepared(node, p)), rest, v, names).outcome.Ok? <==> !Blocked(WaysOf(node), p))
    decreases node, 0
  {
    hide NodeAt, WF, InsertAt, Blocked, LacksSuffix, IndexOfPrefix, Comes, Prepared, SuffixOf, Valid, Enters;
    var w, k := ParamOf(node), |node.prefix|;
    if |p| == k + 1 {
      ParamText(node, d, p);
      assert p[k..] == [Param];
      ParamLast(node, d, p, v, names);
    } else {
      match IndexOfPrefix(w.children, SuffixOf(p, k))
      case None =>
        NewSuffixOutcomeIs(node, d, p, v, names);
        NewSuffixBlocked(node, d, p);
      case Some(i) =>
        DownSuffix(node, d, p, v, names, i);
        BlockedBelowSuffix(node, d, p, i);
        assert w.children[i] < node;
        WalkAccepts(w.children[i], d + 1, Some(w.(priority := w.priority + 1)), p[k + 1..], v, names);
    }
  }

  lemma {:induction false} WalkWild<T>(
    node: Node<T>, d: nat, parent: Option<Node<T>>, p: Tokens, v: T, names: seq<Name>)
    requires Comes(node, d, p) && Enters(node, p)
    requires var k := CommonPrefix(p, node.prefix); k < |p| && !p[k].Lit? && Prepared(node, p).wildChild
    ensures InsertAt(node, d, parent, p, v, names).outcome.Ok? <==> !Blocked(WaysOf(node), p)
    decreases node, 1
  {
    hide NodeAt, WF, InsertAt, BlockAt, Get, LacksSuffix, OtherWild, CommonPrefix;
    var k, n := |node.prefix|, Prepared(node, p);
    WildFound(node, d, p);
    ShorterCommon(p, node.prefix);
    AtWild(node, d, parent, p, v, names);
    ConflictIsBlocked(node, d, p);
    WildMarks(node, d, p);
    if WildConflict(n, ParamOf(node), p[k..]) {
      WildBlocks(node, p, k);
    } else {
      WalkParameter(node, d, p, v, names);
    }
  }

  lemma {:induction false} WildMarks<T>(node: Node<T>, d: nat, p: Tokens)
    requires Comes(node, d, p) && node.wildChild && node.children != [] && node.prefix < p
    requires !p[|node.prefix|].Lit? && node.priority >= 1 && Prepared(node, p) == node.(priority := node.priority + 1)
    ensures WildConflict(Prepared(node, p), ParamOf(node), p[|node.prefix|..]) <==>
            WildConflict(node, ParamOf(node), p[|node.prefix|..])
    ensures !WildConflict(node, ParamOf(node), p[|node.prefix|..]) ==>
              p[|node.prefix|] == Param && ParamOf(node).kind.ParamNode?
  {
    var c := ParamOf(node);
    ChildWF(node, d, |node.children| - 1);
    OneWild(node, d, p[|node.prefix|]);
    assert p[|node.prefix|..][0] == p[|node.prefix|];
  }

  lemma {:induction false} WildBlocks<T>(n: Node<T>, p: Tokens, k: nat)
    requires k < |p| && (OtherWild(WaysOf(n), p, k) || LacksSuffix(WaysOf(n), p, k) || Get(n, p).Some?)
    ensures Blocked(WaysOf(n), p)
  {
    hide OtherWild, LacksSuffix, Get;
    if OtherWild(WaysOf(n), p, k) || LacksSuffix(WaysOf(n), p, k) {
      assert BlockAt(WaysOf(n), p, k);
    }
  }

  /** From any text node on, the walk accepts a valid pattern exactly if nothing blocks it. */
  lemma {:induction false} WalkAccepts<T>(
    node: Node<T>, d: nat, parent: Option<Node<T>>, p: Tokens, v: T, names: seq<Name>)
    requires Comes(node, d, p) && Enters(node, p)
    ensures InsertAt(node, d, parent, p, v, names).outcome.Ok? <==> !Blocked(WaysOf(node), p)
    decreases node, 2
  {
    hide WF, InsertAt, Blocked, CommonPrefix;
    var k, n := CommonPrefix(p, node.prefix), Prepared(node, p);
    if k == |p| {
      EndsHere(node, d, parent, p, v, names);
    } else if Leaves(node, p) {
      LeavingOutcome(node, d, parent, p, v, names);
      LeavingBlocked(node, d, p);
    } else if p[k].Lit? {
      var i := IndexOf(n.indices, p[k].b).value;
      DownStatic(node, d, parent, p, v, names, i);
      BlockedBelowStatic(node, d, p, i);
      WalkAccepts(node.children[i], d, Some(n), p[|node.prefix|..], v, names);
    } else {
      WalkWild(node, d, parent, p, v, names);
    }
  }

  // ----- A whole tree -----

  lemma {:induction false} NothingBlocksBare<T>(t: Node<T>, p: Tokens)
    requires TreeShape(t) && t.value.None? && t.children == []
    ensures !Blocked(WaysOf(t), p)
  {
    EmptiedTree(t);
    forall q ensures Spelled(t, q) ==> AllLit(q) {}
    forall k: nat ensures !BlockAt(WaysOf(t), p, k) {
      if k < |p| {
        BareBlocks(t, p, k);
      }
    }
  }

  lemma {:induction false} BareBlocks<T>(t: Node<T>, p: Tokens, k: nat)
    requires k < |p| && forall q :: Spelled(t, q) ==> AllLit(q)
    ensures !BlockAt(WaysOf(t), p, k)
  {
    hide Spelled, FreshSegment, SegmentRest;
    forall x: Tokens, w: Token | !w.Lit? ensures !Spelled(t, x + [w]) {
      var q := x + [w];
      assert q[|q| - 1] == w;
      assert !AllLit(q);
    }
    assert forall q :: Marked(t, q) ==> Spelled(t, q) by { MarkedIsSpelled(t); }
    hide Marked;
  }

  lemma {:induction false} MarkedIsSpelled<T>(t: Node<T>)
    ensures forall q :: Marked(t, q) ==> Spelled(t, q)
  {
  }

  /**
   After any insertions and removals, a tree accepts a valid pattern if and only if the pattern has no
   route yet and nothing stands in its way.
   */
  lemma {:induction false} AcceptedIffUnhindered<T>(t: Node<T>, p: Tokens, v: T, names: seq<Name>)
    requires TreeShape(t) && Valid(p) && |names| == ParamCount(p)
    ensures Insert(t, p, v, names).outcome.Ok? <==> !Blocked(WaysOf(t), p)
  {
    hide Blocked, InsertAt, WF;
    if t.value.None? && t.children == [] {
      FirstShape(t, p, v, names);
      NothingBlocksBare(t, p);
    } else {
      RootComes(t, p);
      WalkAccepts(t, 0, None, p, v, names);
    }
  }

  lemma {:induction false} RootComes<T>(t: Node<T>, p: Tokens)
    requires TreeShape(t) && !(t.value.None? && t.children == []) && Valid(p)
    ensures Comes(t, 0, p) && Enters(t, p)
  {
  }
}
