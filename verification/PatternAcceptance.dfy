/** Which patterns a tree accepts, for every valid pattern: what stands in the way is stated on its nodes. */
module PatternAcceptance {
  import opened Prelude
  import opened Pattern
  import opened RouteTree
  import opened TreeInsert
  import opened RouteBuild
  import opened InsertProof
  import opened InsertAtProof
  import opened InsertShape
  import opened TreeOutcome
  import opened Acceptance
  import opened LiveTree
  import opened SegmentWilds

  // ----- What stands in the way -----

  /** Some way through the tree passes `x`. */
  ghost predicate OnWay(ways: Ways, x: Tokens) {
    exists q :: q in ways.ends && x <= q
  }

  /** What is left of the segment at `k`, without its '/'. */
  function SegmentRest(p: Tokens, k: nat): Tokens
    requires k <= |p|
  {
    p[k..][..SlashAt(p[k..])]
  }

  /** No parameter stands in front of `k` in its segment. */
  ghost predicate FreshSegment(p: Tokens, k: nat)
    requires k <= |p|
  {
    forall i | 0 <= i < k && p[i].Param? :: SLASH_TOKEN in p[i..k]
  }

  /** At `k` the tree goes on with another wildcard. */
  ghost predicate OtherWild(ways: Ways, p: Tokens, k: nat)
    requires k < |p|
  {
    !p[k].Lit? && exists w: Token :: !w.Lit? && w != p[k] && p[..k] + [w] in ways.ends
  }

  /** At `k` stands a parameter behind text that has had suffixes, and the pattern ends it without one. */
  ghost predicate LacksSuffix(ways: Ways, p: Tokens, k: nat)
    requires k < |p|
  {
    p[k] == Param && p[..k] + [Param] in ways.marks && !EndsInSlash(p[..k]) && PlainSuffix(p[k + 1..])
  }

  /** The suffix of the parameter at `k`, its '/' included. */
  function SuffixOf(p: Tokens, k: nat): Tokens
    requires k < |p|
  {
    p[k + 1..][..Terminator(p[k + 1..])]
  }

  /**
   At `k` stands a parameter of the tree, the pattern gives it a suffix that is new even up to its '/',
   and the tree has a parameter behind text there.
   */
  ghost predicate NewSuffixMeets(ways: Ways, p: Tokens, k: nat)
    requires k < |p|
  {
    var x, s := p[..k] + [Param], SuffixOf(p, k);
    && p[k] == Param && x in ways.ends && s != [] && s != [SLASH_TOKEN] && x + s !in ways.ends
    && x + s + [SLASH_TOKEN] !in ways.ends && !(EndsInSlash(s) && x + s[..|s| - 1] in ways.ends)
    && PrefixedBelow(ways, p[..k])
  }

  /** The pattern leaves the tree at `k`. */
  ghost predicate PartsAt(ways: Ways, p: Tokens, k: nat)
    requires k < |p|
  {
    && FreshSegment(p, k) && OnWay(ways, p[..k])
    && if p[k].Lit? then !OnWay(ways, p[..k + 1]) else forall w: Token | !w.Lit? :: p[..k] + [w] !in ways.ends
  }

  /**
   From `k` on the pattern has a wildcard in this segment, and either side has text in front of its
   wildcard where the other has text behind its own. Where the pattern leaves the tree with a wildcard,
   anything longer than a '/' counts as text behind it.
   */
  ghost predicate Meets(ways: Ways, p: Tokens, k: nat)
    requires k < |p|
  {
    var segment := SegmentRest(p, k);
    var w := FirstWild(segment);
    && w < |segment|
    && (|| (k + w > 0 && p[k + w - 1] != SLASH_TOKEN && SuffixedBelow(ways, p[..k]))
        || ((if w == 0 then !PlainSuffix(p[k + 1..]) else segment[w + 1..] != []) && PrefixedBelow(ways, p[..k])))
  }

  ghost predicate BlockAt(ways: Ways, p: Tokens, k: nat) {
    && k < |p|
    && (OtherWild(ways, p, k) || LacksSuffix(ways, p, k) || NewSuffixMeets(ways, p, k) ||
        (PartsAt(ways, p, k) && Meets(ways, p, k)))
  }

  /** The pattern has a route already, or something stands in its way. */
  ghost predicate Blocked(ways: Ways, p: Tokens) {
    p in ways.routes || exists k :: BlockAt(ways, p, k)
  }

  // ----- Ways -----

  lemma {:induction false} OnWayFront<T>(n: Node<T>, x: Tokens, y: Tokens)
    requires OnWay(WaysOf(n), y) && x <= y
    ensures OnWay(WaysOf(n), x)
  {
    var q :| q in WaysOf(n).ends && y <= q;
    assert x <= q;
  }

  lemma {:induction false} PassedIsOnWay<T>(n: Node<T>, x: Tokens)
    requires x <= n.prefix
    ensures OnWay(WaysOf(n), x)
  {
    OwnWay(n);
    assert n.prefix in WaysOf(n).ends && x <= n.prefix;
  }

  /** A literal position the tree goes along blocks nothing. */
  lemma {:induction false} AlongIsFree<T>(n: Node<T>, p: Tokens, k: nat)
    requires k < |p| && p[k].Lit? && OnWay(WaysOf(n), p[..k + 1])
    ensures !BlockAt(WaysOf(n), p, k)
  {
  }

  /** Nothing blocks beyond the last way. */
  lemma {:induction false} BeyondIsFree<T>(n: Node<T>, p: Tokens, j: nat, k: nat)
    requires j <= k < |p| && !OnWay(WaysOf(n), p[..j])
    ensures !BlockAt(WaysOf(n), p, k)
  {
    hide Meets, PrefixedBelow, NodeAt;
    var x := p[..k];
    assert !OnWay(WaysOf(n), x) by {
      if OnWay(WaysOf(n), x) { OnWayFront(n, p[..j], x); }
    }
    forall y: Tokens ensures x + y !in WaysOf(n).ends {
      assert x <= x + y;
    }
  }

  /** A pattern that leaves all ways has no route. */
  lemma {:induction false} BeyondHasNoRoute<T>(n: Node<T>, p: Tokens, j: nat)
    requires j <= |p| && !OnWay(WaysOf(n), p[..j])
    ensures Get(n, p).None?
  {
    assert p[..j] <= p;
    assert Get(n, p).Some? ==> p in WaysOf(n).ends by {
      if Get(n, p).Some? { HeldIsSpelled(n, p); }
    }
  }

  // ----- The forked node -----

  /** Forking adds the one node it forks at. */
  lemma {:induction false} PreparedWays<T>(node: Node<T>, d: nat, p: Tokens, q: Tokens)
    requires WF(node, d) && TextKind(node) && q != p[..CommonPrefix(p, node.prefix)]
    ensures Spelled(Prepared(node, p), q) <==> Spelled(node, q)
    ensures Marked(Prepared(node, p), q) <==> Marked(node, q)
  {
    var k := CommonPrefix(p, node.prefix);
    var n := Prepared(node, p);
    if k < |node.prefix| {
      hide WF, NodeAt;
      assert n.prefix == node.prefix[..k] == p[..k];
      if n.prefix <= q {
        var y := q[k..];
        assert q == n.prefix + y && y != [];
        ForkChild(node, d, k, y);
      } else {
        NotUnder(n, q);
        NotUnder(node, q);
      }
    } else {
      SameChildrenWays(n, node, q);
    }
  }

  lemma {:induction false} NotUnder<T>(n: Node<T>, q: Tokens)
    requires !(n.prefix <= q)
    ensures NodeAt(n, q) == None
  {
  }

  lemma {:induction false} SameChildrenWays<T>(n: Node<T>, m: Node<T>, q: Tokens)
    requires n.prefix == m.prefix && n.children == m.children && n.indices == m.indices && n.wildChild == m.wildChild
    requires n.kind == m.kind || (TextKind(n) && TextKind(m))
    ensures Spelled(n, q) <==> Spelled(m, q)
    ensures Marked(n, q) <==> Marked(m, q)
  {
  }

  lemma {:induction false} ForkChild<T>(node: Node<T>, d: nat, k: nat, y: Tokens)
    requires WF(node, d) && TextKind(node) && k < |node.prefix| && y != []
    ensures var n := Fork(node.(priority := node.priority + 1), k);
            && (Spelled(n, n.prefix + y) <==> Spelled(node, n.prefix + y))
            && (Marked(n, n.prefix + y) <==> Marked(node, n.prefix + y))
  {
    var n := Fork(node.(priority := node.priority + 1), k);
    var c := n.children[0];
    var q := n.prefix + y;
    assert node.prefix == n.prefix + c.prefix;
    WayStep(n, y);
    assert c.prefix[0] == node.prefix[k] && node.prefix[k].Lit?;
    assert node.prefix <= q <==> c.prefix <= y by {
      assert q[..k] == n.prefix && q[k..] == y;
      if node.prefix <= q {
        assert c.prefix == node.prefix[k..] == q[..|node.prefix|][k..] == y[..|c.prefix|];
      }
      if c.prefix <= y {
        assert q[..|node.prefix|] == n.prefix + y[..|c.prefix|];
      }
    }
    if c.prefix <= y {
      assert y[0] == c.prefix[0];
      assert ChildIndex(n, y) == Some(0);
      assert y[|c.prefix|..] == q[|node.prefix|..];
    } else if ChildIndex(n, y).Some? {
      assert NodeAt(c, y) == None;
    }
  }

  /** The look-ahead at the forked node, on the ways of the node itself. */
  lemma {:induction false} PreparedLooks<T>(node: Node<T>, d: nat, p: Tokens)
    requires WF(node, d) && TextKind(node) && (node.kind.Static? ==> p != [] && p[0] == node.prefix[0])
    ensures var x, n := p[..CommonPrefix(p, node.prefix)], Prepared(node, p);
            && (SuffixWildInSegment(n) <==> SuffixedBelow(WaysOf(node), x))
            && (PrefixWildInSegment(n) <==> PrefixedBelow(WaysOf(node), x))
  {
    hide WF, SuffixWildInSegment, PrefixWildInSegment, NodeAt, CommonPrefix;
    PositivePriority(node, d);
    var x, n := p[..CommonPrefix(p, node.prefix)], Prepared(node, p);
    PreparedText(node, d, p);
    SuffixAheadIff(n, d);
    PrefixAheadIff(n, d);
    forall q | q != x ensures (Spelled(n, q) <==> Spelled(node, q)) && (Marked(n, q) <==> Marked(node, q)) {
      PreparedWays(node, d, p, q);
    }
    SameBelow(n, node, x);
  }

  lemma {:induction false} PositivePriority<T>(n: Node<T>, d: nat)
    requires WF(n, d)
    ensures n.priority >= 1
  {
  }

  lemma {:induction false} PreparedText<T>(node: Node<T>, d: nat, p: Tokens)
    requires WF(node, d) && TextKind(node) && (node.kind.Static? ==> p != [] && p[0] == node.prefix[0])
    ensures WF(Prepared(node, p), d) && TextKind(Prepared(node, p))
    ensures Prepared(node, p).prefix == p[..CommonPrefix(p, node.prefix)]
  {
    PreparedIsWF(node, d, p);
  }

  /** Nodes with the same ways below `x` look the same from there. */
  lemma {:induction false} SameBelow<T>(n: Node<T>, m: Node<T>, x: Tokens)
    requires forall q | q != x :: (Spelled(n, q) <==> Spelled(m, q)) && (Marked(n, q) <==> Marked(m, q))
    ensures SuffixedBelow(WaysOf(n), x) <==> SuffixedBelow(WaysOf(m), x)
    ensures PrefixedBelow(WaysOf(n), x) <==> PrefixedBelow(WaysOf(m), x)
  {
    hide Spelled, Marked;
    forall t: Tokens | t != [] ensures x + t in WaysOf(n).ends <==> x + t in WaysOf(m).ends {
      assert |x + t| > |x|;
    }
    forall t: Tokens ensures x + t + [Param] == x + (t + [Param]) {}
    forall t: Tokens ensures |x + t + [Param]| > |x| {}
    SameLook(WaysOf(n), x, WaysOf(m), x);
  }

  /** Two look-aheads over corresponding ways agree. */
  lemma {:induction false} SameLook(a: Ways, x: Tokens, b: Ways, y: Tokens)
    requires forall t: Tokens :: x + t + [Param] in a.marks <==> y + t + [Param] in b.marks
    requires forall t: Tokens :: x + t + [Param] in a.ends <==> y + t + [Param] in b.ends
    requires forall t: Tokens | t != [] :: x + t in a.ends <==> y + t in b.ends
    requires (x == [] <==> y == []) && (EndsInSlash(x) <==> EndsInSlash(y))
    ensures SuffixedBelow(a, x) <==> SuffixedBelow(b, y)
    ensures PrefixedBelow(a, x) <==> PrefixedBelow(b, y)
  {
    forall z: Tokens ensures Straddles(a, x, z) <==> Straddles(b, y, z) {
      forall k | 0 < k < |z| ensures LastSegmentAt(a, x, z, k) <==> LastSegmentAt(b, y, z, k) {
        assert z[..k] != [];
      }
      hide LastSegmentAt;
    }
    hide Straddles;
  }

  // ----- Leaving the tree -----

  /** The walk finds no child to go on with. */
  ghost predicate Leaves<T>(node: Node<T>, p: Tokens)
    requires node.priority >= 1
  {
    var k := CommonPrefix(p, node.prefix);
    && k < |p|
    && if p[k].Lit? then p[k].b !in Prepared(node, p).indices else !Prepared(node, p).wildChild
  }

  lemma {:induction false} LeavesAt<T>(node: Node<T>, d: nat, p: Tokens, q: Tokens)
    requires WF(node, d) && TextKind(node) && Leaves(node, p) && Spelled(node, q)
    ensures var k := CommonPrefix(p, node.prefix); k < |q| && q[..k] == p[..k] ==>
              if p[k].Lit? then q[k] != p[k] else q[k].Lit?
  {
    var k := CommonPrefix(p, node.prefix);
    WayText(node, q);
    if k < |q| && q[..k] == p[..k] {
      if k < |node.prefix| {
        assert q[k] == node.prefix[k];
        assert node.prefix[k].Lit?;
      } else {
        var y := q[k..];
        assert q == node.prefix + y && y[0] == q[k];
        WayStep(node, y);
      }
    }
  }

  lemma {:induction false} LeavesAllWays<T>(node: Node<T>, d: nat, p: Tokens)
    requires WF(node, d) && TextKind(node) && Leaves(node, p)
    ensures var k := CommonPrefix(p, node.prefix);
            && !OnWay(WaysOf(node), p[..k + 1])
            && (!p[k].Lit? ==> forall w: Token | !w.Lit? :: !Spelled(node, p[..k] + [w]))
  {
    hide WF, NodeAt, CommonPrefix;
    var k := CommonPrefix(p, node.prefix);
    forall q | Spelled(node, q) ensures !(p[..k + 1] <= q) {
      LeavesAt(node, d, p, q);
      FrontOf(p, q, k);
    }
    if !p[k].Lit? {
      forall w: Token | !w.Lit? ensures !Spelled(node, p[..k] + [w]) {
        var q := p[..k] + [w];
        assert |q| > k && q[..k] == p[..k] && q[k] == w;
        if Spelled(node, q) {
          LeavesAt(node, d, p, q);
        }
      }
    }
  }

  lemma {:induction false} FrontOf(p: Tokens, q: Tokens, k: nat)
    requires k < |p|
    ensures p[..k + 1] <= q ==> k < |q| && q[..k] == p[..k] && q[k] == p[k]
  {
    var x := p[..k + 1];
    assert x[..k] == p[..k] && x[k] == p[k];
    assert x <= q ==> x == q[..k + 1];
    assert k < |q| ==> q[..k + 1][..k] == q[..k] && q[..k + 1][k] == q[k];
  }

  lemma {:induction false} PassedLiterals<T>(node: Node<T>, d: nat, p: Tokens, j: nat)
    requires WF(node, d) && TextKind(node) && j < CommonPrefix(p, node.prefix)
    ensures p[j].Lit? && OnWay(WaysOf(node), p[..j + 1])
    ensures !BlockAt(WaysOf(node), p, j)
  {
    var k := CommonPrefix(p, node.prefix);
    assert p[j] == p[..k][j] == node.prefix[..k][j] == node.prefix[j];
    assert p[..j + 1] == p[..k][..j + 1] == node.prefix[..k][..j + 1] == node.prefix[..j + 1];
    PassedIsOnWay(node, p[..j + 1]);
    AlongIsFree(node, p, j);
  }

  lemma {:induction false} PartsThere<T>(node: Node<T>, d: nat, p: Tokens)
    requires WF(node, d) && TextKind(node) && Leaves(node, p)
    ensures var k := CommonPrefix(p, node.prefix);
            PartsAt(WaysOf(node), p, k) && !OtherWild(WaysOf(node), p, k) && !LacksSuffix(WaysOf(node), p, k) &&
            !NewSuffixMeets(WaysOf(node), p, k)
  {
    hide WF, NodeAt, CommonPrefix;
    var k := CommonPrefix(p, node.prefix);
    LeavesAllWays(node, d, p);
    forall i | 0 <= i < k ensures p[i].Lit? { PassedLiterals(node, d, p, i); }
    assert p[..k] == node.prefix[..k];
    PassedIsOnWay(node, p[..k]);
  }

  /** Where the pattern leaves the tree, only what it meets there can block it. */
  lemma {:induction false} LeavingBlocked<T>(node: Node<T>, d: nat, p: Tokens)
    requires WF(node, d) && TextKind(node) && Leaves(node, p)
    ensures Blocked(WaysOf(node), p) <==> Meets(WaysOf(node), p, CommonPrefix(p, node.prefix))
  {
    hide WF, NodeAt, CommonPrefix, BlockAt, Meets;
    var k := CommonPrefix(p, node.prefix);
    LeavesAllWays(node, d, p);
    BeyondHasNoRoute(node, p, k + 1);
    BlockedThere(node, d, p);
    forall j: nat | j != k ensures !BlockAt(WaysOf(node), p, j) {
      if j < k {
        PassedLiterals(node, d, p, j);
      } else if j < |p| {
        BeyondIsFree(node, p, k + 1, j);
      } else {
        NoBlockBehind(node, p, j);
      }
    }
  }

  lemma {:induction false} NoBlockBehind<T>(n: Node<T>, p: Tokens, j: nat)
    requires j >= |p|
    ensures !BlockAt(WaysOf(n), p, j)
  {
  }

  lemma {:induction false} BlockedThere<T>(node: Node<T>, d: nat, p: Tokens)
    requires WF(node, d) && TextKind(node) && Leaves(node, p)
    ensures var k := CommonPrefix(p, node.prefix); BlockAt(WaysOf(node), p, k) <==> Meets(WaysOf(node), p, k)
  {
    hide WF, NodeAt, CommonPrefix, Meets, PartsAt, OtherWild, LacksSuffix, NewSuffixMeets;
    PartsThere(node, d, p);
  }

  /** The conditions of the walk for any valid pattern. */
  ghost predicate Comes<T>(node: Node<T>, d: nat, p: Tokens) {
    && WF(node, d) && node.priority >= 1 && TextKind(node) && Valid(p)
    && (node.kind.Static? ==> p != [] && p[0] == node.prefix[0])
  }

  lemma {:induction false} LeavingOutcome<T>(
    node: Node<T>, d: nat, parent: Option<Node<T>>, p: Tokens, v: T, names: seq<Name>)
    requires Comes(node, d, p) && Enters(node, p) && Leaves(node, p)
    ensures InsertAt(node, d, parent, p, v, names).outcome.Ok? <==>
            !Meets(WaysOf(node), p, CommonPrefix(p, node.prefix))
  {
    hide WF, PrefixWildInSegment, SuffixWildInSegment, Promote, SuffixChild, InsertRoute, NewSuffix, SuffixedBelow,
      PrefixedBelow;
    var k := CommonPrefix(p, node.prefix);
    var n := Prepared(node, p);
    var rest := p[k..];
    assert rest[0] == p[k];
    TextOutcome(node, d, p);
    PreparedLooks(node, d, p);
    PreparedText(node, d, p);
    BuildsIffValid(n, rest, v, names);
    BuildsIffValid<T>(Fresh(1, [], Static), rest, v, names);
    PreparedBody(node, d, p);
    if p[k].Lit? {
      LeavingText(node, p, k);
    } else {
      LeavingWild(node, p, k);
    }
  }

  /** What a pattern meets that goes on with text. */
  lemma {:induction false} LeavingText<T>(node: Node<T>, p: Tokens, k: nat)
    requires k < |p| && p[k].Lit?
    ensures var segment := SegmentRest(p, k);
            var w := FirstWild(segment);
            Meets(WaysOf(node), p, k) <==>
            w < |segment| &&
            ((w > 0 && SuffixedBelow(WaysOf(node), p[..k])) ||
             (!PlainSuffix(segment[w + 1..]) && PrefixedBelow(WaysOf(node), p[..k])))
  {
    hide SuffixedBelow, PrefixedBelow;
    var rest, segment := p[k..], SegmentRest(p, k);
    var w := FirstWild(segment);
    if w < |segment| {
      assert segment[0] == rest[0] == p[k];
      assert w > 0;
      assert p[k + w - 1] == rest[w - 1] == segment[w - 1];
      assert segment[w - 1] in segment;
      NoSlashBehind(segment, w + 1);
    }
  }

  lemma {:induction false} NoSlashBehind(s: Tokens, k: nat)
    requires SLASH_TOKEN !in s && k <= |s|
    ensures PlainSuffix(s[k..]) <==> s[k..] == []
  {
    assert |s[k..]| > 0 ==> s[k..][0] == s[k];
  }

  /** What a pattern meets that goes on with a wildcard. */
  lemma {:induction false} LeavingWild<T>(node: Node<T>, p: Tokens, k: nat)
    requires k < |p| && !p[k].Lit?
    ensures Meets(WaysOf(node), p, k) <==>
            (k > 0 && p[k - 1] != SLASH_TOKEN && SuffixedBelow(WaysOf(node), p[..k])) ||
            (!PlainSuffix(p[k + 1..]) && PrefixedBelow(WaysOf(node), p[..k]))
  {
    hide SuffixedBelow, PrefixedBelow;
    var rest, segment := p[k..], SegmentRest(p, k);
    assert rest[0] == p[k];
    assert SlashAt(rest) > 0;
    assert segment[0] == rest[0];
    assert FirstWild(segment) == 0;
  }

  // ----- Going down -----

  /** Behind `x`, ways that start like the child are ways of the child. */
  ghost predicate SameWays<T>(n: Node<T>, x: Tokens, c: Node<T>, m: nat)
    requires m <= |c.prefix|
  {
    forall q | c.prefix[..m] <= q :: NodeAt(n, x + q) == NodeAt(c, q)
  }

  lemma {:induction false} WayMoves<T>(n: Node<T>, x: Tokens, c: Node<T>, m: nat, y: Tokens, z: Tokens)
    requires m <= |c.prefix| && SameWays(n, x, c, m) && c.prefix[..m] <= y
    ensures Spelled(n, x + y + z) <==> Spelled(c, y + z)
    ensures Marked(n, x + y + z) <==> Marked(c, y + z)
  {
    hide NodeAt;
    assert x + y + z == x + (y + z);
    assert c.prefix[..m] <= y + z;
  }

  lemma {:induction false} OnWayMoves<T>(n: Node<T>, x: Tokens, c: Node<T>, m: nat, y: Tokens)
    requires m <= |c.prefix| && SameWays(n, x, c, m) && c.prefix[..m] <= y
    ensures OnWay(WaysOf(n), x + y) <==> OnWay(WaysOf(c), y)
  {
    hide NodeAt;
    if q :| q in WaysOf(c).ends && y <= q {
      assert c.prefix[..m] <= q;
      assert x + y <= x + q;
      assert x + q in WaysOf(n).ends;
    }
    if q :| q in WaysOf(n).ends && x + y <= q {
      var r := q[|x|..];
      assert q[..|x + y|] == x + y;
      assert q[..|x|] == q[..|x + y|][..|x|] == x;
      assert q == x + r && r[..|y|] == q[..|x + y|][|x|..] == y;
      assert c.prefix[..m] <= r;
      assert r in WaysOf(c).ends;
    }
  }

  lemma {:induction false} BelowMoves<T>(n: Node<T>, x: Tokens, c: Node<T>, m: nat, y: Tokens)
    requires 0 < m <= |c.prefix| && SameWays(n, x, c, m) && c.prefix[..m] <= y
    ensures SuffixedBelow(WaysOf(n), x + y) <==> SuffixedBelow(WaysOf(c), y)
    ensures PrefixedBelow(WaysOf(n), x + y) <==> PrefixedBelow(WaysOf(c), y)
  {
    hide NodeAt, SameWays;
    forall t: Tokens
      ensures Marked(n, x + y + t + [Param]) <==> Marked(c, y + t + [Param])
      ensures Spelled(n, x + y + t + [Param]) <==> Spelled(c, y + t + [Param])
    {
      WayMoves(n, x, c, m, y, t + [Param]);
      assert x + y + t + [Param] == x + y + (t + [Param]) && y + t + [Param] == y + (t + [Param]);
    }
    forall t: Tokens ensures Spelled(n, x + y + t) <==> Spelled(c, y + t) {
      WayMoves(n, x, c, m, y, t);
    }
    hide Spelled, Marked;
    assert (x + y)[|x + y| - 1] == y[|y| - 1];
    SameLook(WaysOf(n), x + y, WaysOf(c), y);
  }

  /** What the text in front of the child must not hide: a parameter in the segment that goes on. */
  ghost predicate SegmentStarts(x: Tokens, y: Tokens) {
    forall i | 0 <= i < |x| && x[i].Param? :: SLASH_TOKEN in x[i..] + y
  }

  lemma {:induction false} FreshMoves(x: Tokens, rest: Tokens, y: Tokens, k: nat)
    requires y <= rest && |y| <= k <= |rest| && SegmentStarts(x, y)
    ensures FreshSegment(x + rest, |x| + k) <==> FreshSegment(rest, k)
  {
    var p, j := x + rest, |x| + k;
    if FreshSegment(p, j) {
      forall i | 0 <= i < k && rest[i].Param? ensures SLASH_TOKEN in rest[i..k] {
        assert p[|x| + i] == rest[i] && p[|x| + i..j] == rest[i..k];
      }
    }
    if FreshSegment(rest, k) {
      forall i | 0 <= i < j && p[i].Param? ensures SLASH_TOKEN in p[i..j] {
        if i < |x| {
          SlashInside(x, rest, y, k, i);
        } else {
          assert rest[i - |x|] == p[i] && p[i..j] == rest[i - |x|..k];
        }
      }
    }
  }

  lemma {:induction false} SlashInside(x: Tokens, rest: Tokens, y: Tokens, k: nat, i: nat)
    requires y <= rest && |y| <= k <= |rest| && i < |x| && SLASH_TOKEN in x[i..] + y
    ensures SLASH_TOKEN in (x + rest)[i..|x| + k]
  {
    var s, t := x[i..] + y, (x + rest)[i..|x| + k];
    var h :| 0 <= h < |s| && s[h] == SLASH_TOKEN;
    if h < |x| - i {
      assert t[h] == x[i + h] == s[h];
    } else {
      assert t[h] == rest[h - (|x| - i)] == y[h - (|x| - i)] == s[h];
    }
  }

  lemma {:induction false} TextMoves(x: Tokens, rest: Tokens, k: nat)
    requires 0 < k < |rest|
    ensures var p, j := x + rest, |x| + k;
            && p[..j] == x + rest[..k] && p[j] == rest[k] && p[j..] == rest[k..] && p[j + 1..] == rest[k + 1..]
            && p[..j + 1] == x + rest[..k + 1]
            && SegmentRest(p, j) == SegmentRest(rest, k) && SuffixOf(p, j) == SuffixOf(rest, k)
            && (EndsInSlash(p[..j]) <==> EndsInSlash(rest[..k]))
  {
  }

  lemma {:induction false} PartsMoves<T>(n: Node<T>, x: Tokens, c: Node<T>, m: nat, rest: Tokens, k: nat)
    requires 0 < m <= |c.prefix| && SameWays(n, x, c, m) && c.prefix[..m] <= rest && m <= k < |rest|
    requires SegmentStarts(x, c.prefix[..m])
    ensures PartsAt(WaysOf(n), x + rest, |x| + k) <==> PartsAt(WaysOf(c), rest, k)
  {
    hide NodeAt, SameWays, FreshSegment;
    TextMoves(x, rest, k);
    FreshMoves(x, rest, c.prefix[..m], k);
    FrontStays(c.prefix[..m], rest, k);
    FrontStays(c.prefix[..m], rest, k + 1);
    OnWayMoves(n, x, c, m, rest[..k]);
    OnWayMoves(n, x, c, m, rest[..k + 1]);
    forall w: Token ensures Spelled(n, x + rest[..k] + [w]) <==> Spelled(c, rest[..k] + [w]) {
      WayMoves(n, x, c, m, rest[..k], [w]);
    }
    hide Spelled, OnWay;
  }

  lemma {:induction false} FrontStays(y: Tokens, rest: Tokens, k: nat)
    requires y <= rest && |y| <= k <= |rest|
    ensures y <= rest[..k]
  {
    assert rest[..k][..|y|] == rest[..|y|];
  }

  lemma {:induction false} MeetsMoves<T>(n: Node<T>, x: Tokens, c: Node<T>, m: nat, rest: Tokens, k: nat)
    requires 0 < m <= |c.prefix| && SameWays(n, x, c, m) && c.prefix[..m] <= rest && m <= k < |rest|
    ensures Meets(WaysOf(n), x + rest, |x| + k) <==> Meets(WaysOf(c), rest, k)
  {
    hide NodeAt, SameWays, SuffixedBelow, PrefixedBelow;
    TextMoves(x, rest, k);
    FrontStays(c.prefix[..m], rest, k);
    BelowMoves(n, x, c, m, rest[..k]);
    var w := FirstWild(SegmentRest(rest, k));
    assert k + w - 1 < |rest| ==> (x + rest)[|x| + k + w - 1] == rest[k + w - 1];
  }

  lemma {:induction false} WildsMove<T>(n: Node<T>, x: Tokens, c: Node<T>, m: nat, rest: Tokens, k: nat)
    requires 0 < m <= |c.prefix| && SameWays(n, x, c, m) && c.prefix[..m] <= rest && m <= k < |rest|
    ensures OtherWild(WaysOf(n), x + rest, |x| + k) <==> OtherWild(WaysOf(c), rest, k)
    ensures LacksSuffix(WaysOf(n), x + rest, |x| + k) <==> LacksSuffix(WaysOf(c), rest, k)
  {
    hide NodeAt, SameWays;
    TextMoves(x, rest, k);
    FrontStays(c.prefix[..m], rest, k);
    forall w: Token
      ensures Spelled(n, x + rest[..k] + [w]) <==> Spelled(c, rest[..k] + [w])
      ensures Marked(n, x + rest[..k] + [w]) <==> Marked(c, rest[..k] + [w])
    {
      WayMoves(n, x, c, m, rest[..k], [w]);
    }
    hide Spelled, Marked;
  }

  lemma {:induction false} SuffixMoves<T>(n: Node<T>, x: Tokens, c: Node<T>, m: nat, rest: Tokens, k: nat)
    requires 0 < m <= |c.prefix| && SameWays(n, x, c, m) && c.prefix[..m] <= rest && m <= k < |rest|
    ensures NewSuffixMeets(WaysOf(n), x + rest, |x| + k) <==> NewSuffixMeets(WaysOf(c), rest, k)
  {
    hide NodeAt, SameWays, PrefixedBelow, Terminator;
    TextMoves(x, rest, k);
    FrontStays(c.prefix[..m], rest, k);
    BelowMoves(n, x, c, m, rest[..k]);
    var y, s := rest[..k], SuffixOf(rest, k);
    hide SuffixOf;
    WayMoves(n, x, c, m, y, [Param]);
    WayBehind(n, x, c, m, y, s);
    WayBehind(n, x, c, m, y, s + [SLASH_TOKEN]);
    WayBehind(n, x, c, m, y, if s == [] then [] else s[..|s| - 1]);
    assert x + y + [Param] + (s + [SLASH_TOKEN]) == x + y + [Param] + s + [SLASH_TOKEN];
    assert y + [Param] + (s + [SLASH_TOKEN]) == y + [Param] + s + [SLASH_TOKEN];
    hide Spelled, Get, Marked;
  }

  lemma {:induction false} WayBehind<T>(n: Node<T>, x: Tokens, c: Node<T>, m: nat, y: Tokens, s: Tokens)
    requires m <= |c.prefix| && SameWays(n, x, c, m) && c.prefix[..m] <= y
    ensures Spelled(n, x + y + [Param] + s) <==> Spelled(c, y + [Param] + s)
  {
    hide NodeAt, SameWays;
    WayMoves(n, x, c, m, y, [Param] + s);
    assert x + y + ([Param] + s) == x + y + [Param] + s && y + ([Param] + s) == y + [Param] + s;
  }

  lemma {:induction false} BlockMoves<T>(n: Node<T>, x: Tokens, c: Node<T>, m: nat, rest: Tokens, k: nat)
    requires 0 < m <= |c.prefix| && SameWays(n, x, c, m) && c.prefix[..m] <= rest && m <= k
    requires SegmentStarts(x, c.prefix[..m])
    ensures BlockAt(WaysOf(n), x + rest, |x| + k) <==> BlockAt(WaysOf(c), rest, k)
  {
    hide NodeAt, SameWays, SegmentStarts, OtherWild, LacksSuffix, NewSuffixMeets, PartsAt, Meets;
    if k < |rest| {
      WildsMove(n, x, c, m, rest, k);
      SuffixMoves(n, x, c, m, rest, k);
      PartsMoves(n, x, c, m, rest, k);
      MeetsMoves(n, x, c, m, rest, k);
    }
  }

  /** Below a child nothing else blocks, if nothing blocks on the way to it. */
  lemma {:induction false} BlockedMoves<T>(n: Node<T>, x: Tokens, c: Node<T>, m: nat, rest: Tokens)
    requires 0 < m <= |c.prefix| && SameWays(n, x, c, m) && c.prefix[..m] <= rest
    requires SegmentStarts(x, c.prefix[..m]) && Get(n, x + rest) == Get(c, rest)
    requires forall k: nat | k < |x| + m :: !BlockAt(WaysOf(n), x + rest, k)
    requires forall k: nat | k < m :: !BlockAt(WaysOf(c), rest, k)
    ensures Blocked(WaysOf(n), x + rest) <==> Blocked(WaysOf(c), rest)
  {
    hide NodeAt, Get, SameWays, SegmentStarts, BlockAt;
    if k: nat :| BlockAt(WaysOf(n), x + rest, k) {
      BlockMoves(n, x, c, m, rest, k - |x|);
    }
    if k: nat :| BlockAt(WaysOf(c), rest, k) {
      BlockMoves(n, x, c, m, rest, k);
    }
  }
}
