/** Accepted insertions leave no superfluous node: every node ends a route, branches, or cuts at a parameter. */
module CompactTree {
  import opened Prelude
  import opened Pattern
  import opened RouteTree
  import opened TreeInsert
  import opened RouteBuild
  import opened InsertProof
  import opened InsertAtProof
  import opened InsertShape
  import opened TreeOutcome
  import opened Acceptance
  import opened LiveTree

  ghost predicate HasSuffix<T>(children: seq<Node<T>>) {
    exists i | 0 <= i < |children| :: !PlainSuffix(children[i].prefix)
  }

  /** A text node, which may be a suffix, has a reason to be there. */
  ghost predicate Needed<T>(n: Node<T>, suffix: bool) {
    || n.value.Some?
    || (if suffix then n.children != [] else (n.wildChild && n.children != []) || |n.children| >= 2)
  }

  ghost predicate CompactBelow<T>(n: Node<T>)
    decreases n, 0
  {
    forall i | 0 <= i < |n.children| :: Compact(n.children[i], n.kind.ParamNode?)
  }

  ghost predicate Compact<T>(n: Node<T>, suffix: bool)
    decreases n, 1
  {
    && CompactBelow(n)
    && match n.kind
       case ParamNode(s) => (n.value.Some? || n.children != []) && (s <==> HasSuffix(n.children))
       case CatchAll => true
       case _ => Needed(n, suffix)
  }

  lemma {:induction false} CompactSuffix<T>(n: Node<T>, suffix: bool)
    requires Compact(n, false) && TextKind(n)
    ensures Compact(n, suffix)
  {
  }

  /** Only text, priority or value may differ. */
  lemma {:induction false} BelowAs<T>(n: Node<T>, m: Node<T>)
    requires CompactBelow(n) && m.children == n.children && m.kind.ParamNode? == n.kind.ParamNode?
    ensures CompactBelow(m)
  {
  }

  lemma {:induction false} CompactIsLive<T>(n: Node<T>, d: nat, suffix: bool)
    requires WF(n, d) && Compact(n, suffix)
    ensures Live(n)
    decreases n
  {
    forall i | 0 <= i < |n.children| ensures Live(n.children[i]) {
      ChildWF(n, d, i);
      CompactIsLive(n.children[i], Depth(n, d), n.kind.ParamNode?);
    }
  }

  // ----- Building a route -----

  lemma {:induction false} AddWildCompact<T>(n: Node<T>, child: Node<T>)
    requires CompactBelow(n) && TextKind(n) && !n.wildChild && Compact(child, false)
    ensures Compact(AddWild(n, child), false)
  {
    var m := AddWild(n, child);
    assert m.children == n.children + [child];
    forall i | 0 <= i < |m.children| ensures Compact(m.children[i], false) {
      assert i < |n.children| ==> Compact(n.children[i], false);
    }
  }

  lemma {:induction false} ParamCompact<T>(s: Node<T>)
    requires Compact(s, true) && s.prefix != []
    ensures Compact(Fresh<T>(1, [Param], ParamNode(s.prefix != [SLASH_TOKEN])).(children := [s]), false)
  {
    var w := Fresh<T>(1, [Param], ParamNode(s.prefix != [SLASH_TOKEN])).(children := [s]);
    assert w.children[0] == s;
    assert HasSuffix(w.children) <==> !PlainSuffix(s.prefix);
  }

  lemma {:induction false} LeafCompact<T>(p: Tokens, v: T, names: seq<Name>)
    ensures Compact(WithValue(Fresh(1, [Param], ParamNode(false)), v, names), false)
    ensures Compact(WithValue(Fresh(1, p, CatchAll), v, names), false)
  {
  }

  lemma {:induction false} RouteCompact<T>(n: Node<T>, p: Tokens, v: T, names: seq<Name>)
    requires CompactBelow(n) && TextKind(n) && !n.wildChild && InsertRoute(n, p, v, names).outcome.Ok?
    ensures Compact(InsertRoute(n, p, v, names).node, false) && TextKind(InsertRoute(n, p, v, names).node)
    decreases |p|, 0
  {
    var w := FirstWild(p);
    if w == |p| {
      BelowAs(n, WithValue(n.(prefix := p), v, names));
    } else {
      var host := if w > 0 then n.(prefix := p[..w]) else n;
      var q := p[w..];
      BelowAs(n, host);
      LeafCompact(q, v, names);
      if q[0].Catch? {
        AddWildCompact(host, WithValue(Fresh(1, q, CatchAll), v, names));
      } else {
        var t := Terminator(q[1..]);
        var suffix, rest := q[1..][..t], q[1..][t..];
        if suffix == [] {
          AddWildCompact(host, WithValue(Fresh(1, [Param], ParamNode(false)), v, names));
        } else {
          SuffixCompact(suffix, rest, v, names);
          var s := SuffixChild(suffix, rest, v, names).node;
          ParamCompact(s);
          AddWildCompact(host, Fresh(1, [Param], ParamNode(suffix != [SLASH_TOKEN])).(children := [s]));
        }
      }
    }
  }

  lemma {:induction false} SuffixCompact<T>(suffix: Tokens, rest: Tokens, v: T, names: seq<Name>)
    requires SuffixChild(suffix, rest, v, names).outcome.Ok?
    ensures Compact(SuffixChild(suffix, rest, v, names).node, true)
    ensures SuffixChild(suffix, rest, v, names).node.prefix == suffix
    decreases |rest|, 1
  {
    var base: Node<T> := Fresh(1, suffix, Static);
    assert CompactBelow(base);
    if rest != [] {
      if rest[0].Lit? {
        assert CompactBelow<T>(Fresh(1, [], Static));
        RouteCompact<T>(Fresh(1, [], Static), rest, v, names);
        var c := InsertRoute<T>(Fresh(1, [], Static), rest, v, names).node;
        var m := base.(indices := [rest[0].b], children := [c]);
        assert m.children[0] == c;
      } else {
        RouteCompact(base, rest, v, names);
        CompactSuffix(InsertRoute(base, rest, v, names).node, true);
      }
    }
  }

  // ----- The walk -----

  /** A forked node is not needed yet; what it forks is. */
  lemma {:induction false} PreparedCompact<T>(node: Node<T>, p: Tokens, suffix: bool)
    requires Compact(node, suffix) && node.priority >= 1 && (suffix ==> node.prefix <= p)
    requires CommonPrefix(p, node.prefix) < |node.prefix| ==> TextKind(node)
    ensures CompactBelow(Prepared(node, p))
    ensures CommonPrefix(p, node.prefix) == |node.prefix| ==> Compact(Prepared(node, p), suffix)
    ensures CommonPrefix(p, node.prefix) < |node.prefix| ==> |Prepared(node, p).children| == 1
  {
    var bumped := node.(priority := node.priority + 1);
    var k := CommonPrefix(p, node.prefix);
    ShorterCommon(p, node.prefix);
    BelowAs(node, bumped);
    if k < |node.prefix| {
      var child := bumped.(prefix := node.prefix[k..], priority := node.priority, kind := Static);
      BelowAs(node, child);
      assert Compact(child, false);
      assert Fork(bumped, k).children == [child];
    }
  }

  lemma {:induction false} PutCompact<T>(n: Node<T>, i: nat, c: Node<T>)
    requires CompactBelow(n) && i < |n.children| && Compact(c, n.kind.ParamNode?)
    ensures CompactBelow(n.(children := n.children[i := c]))
  {
    var m := n.(children := n.children[i := c]);
    forall j | 0 <= j < |m.children| ensures Compact(m.children[j], m.kind.ParamNode?) {
      assert m.children[j] == if j == i then c else n.children[j];
    }
  }

  lemma {:induction false} ReorderCompact<T>(n: Node<T>, i: nat)
    requires CompactBelow(n) && i < |n.indices| <= |n.children|
    ensures CompactBelow(Reorder(n, i)) && |Reorder(n, i).children| == |n.children|
    ensures var r := Reorder(n, i); r.value == n.value && r.kind == n.kind && r.wildChild == n.wildChild
    decreases i
  {
    if i > 0 && n.children[i - 1].priority < n.children[i].priority {
      var m := n.(children := Swap(n.children, i), indices := Swap(n.indices, i));
      forall j | 0 <= j < |m.children| ensures Compact(m.children[j], m.kind.ParamNode?) {
        assert m.children[j] == n.children[if j == i then i - 1 else if j == i - 1 then i else j];
      }
      ReorderCompact(m, i - 1);
    }
  }

  /** Only the children may differ, and not in number. */
  lemma {:induction false} StillNeeded<T>(n: Node<T>, m: Node<T>, suffix: bool)
    requires Compact(n, suffix) && TextKind(n) && CompactBelow(m) && |m.children| == |n.children|
    requires m.kind == n.kind && m.value == n.value && m.wildChild == n.wildChild
    ensures Compact(m, suffix)
  {
  }

  lemma {:induction false} NewStaticCompact<T>(n: Node<T>, d: nat, rest: Tokens, v: T, names: seq<Name>)
    requires Body(n, d) && CompactBelow(n) && rest != [] && rest[0].Lit? && rest[0].b !in n.indices
    requires NewStatic(n, rest, v, names).outcome.Ok?
    ensures CompactBelow(NewStatic(n, rest, v, names).node)
    ensures |NewStatic(n, rest, v, names).node.children| == |n.children| + 1
    ensures var r := NewStatic(n, rest, v, names).node;
            r.value == n.value && r.wildChild == n.wildChild && r.kind == n.kind
  {
    hide WF, PrefixWildInSegment, SuffixWildInSegment, Promote;
    var blank: Node<T> := Fresh(1, [], Static);
    assert CompactBelow(blank);
    RouteCompact(blank, rest, v, names);
    var c := InsertRoute(blank, rest, v, names).node;
    var m := WithStatic(n, rest[0].b, c);
    WithStaticTable(n, rest[0].b, c);
    forall j | 0 <= j < |m.children| ensures Compact(m.children[j], m.kind.ParamNode?) {
      assert m.children[j] == c || m.children[j] in n.children;
    }
    ReorderCompact(m, |n.indices|);
  }

  lemma {:induction false} NewSuffixCompact<T>(
    n: Node<T>, parent: Option<Node<T>>, rest: Tokens, v: T, names: seq<Name>)
    requires n.kind.ParamNode? && CompactBelow(n) && (n.kind.suffix <==> HasSuffix(n.children))
    requires NewSuffix(n, parent, rest, v, names).outcome.Ok?
    ensures Compact(NewSuffix(n, parent, rest, v, names).node, false)
  {
    hide PrefixWildInSegment;
    var t := Terminator(rest);
    var suffix := rest[..t];
    SuffixCompact(suffix, rest[t..], v, names);
    var s := SuffixChild(suffix, rest[t..], v, names).node;
    WithSuffixCompact(n, s);
  }

  lemma {:induction false} WithSuffixCompact<T>(n: Node<T>, s: Node<T>)
    requires n.kind.ParamNode? && CompactBelow(n) && (n.kind.suffix <==> HasSuffix(n.children)) && Compact(s, true)
    ensures Compact(WithSuffix(n, s), false)
  {
    var m, k := WithSuffix(n, s), Longer(n.children, |s.prefix|);
    forall j | 0 <= j < |m.children|
      ensures m.children[j] == if j < k then n.children[j] else if j == k then s else n.children[j - 1]
    {}
    forall j | 0 <= j < |m.children| ensures Compact(m.children[j], true) {
      assert j < k ==> Compact(n.children[j], true);
      assert j > k ==> Compact(n.children[j - 1], true);
    }
    if i :| 0 <= i < |n.children| && !PlainSuffix(n.children[i].prefix) {
      assert m.children[if i < k then i else i + 1] == n.children[i];
    }
    assert m.children[k] == s;
  }

  lemma {:induction false} CompactNewChild<T>(
    node: Node<T>, d: nat, parent: Option<Node<T>>, p: Tokens, v: T, names: seq<Name>, suffix: bool)
    requires WF(node, d) && node.priority >= 1 && Enters(node, p) && Compact(node, suffix) && TextKind(node)
    requires suffix ==> node.prefix <= p
    requires var k := CommonPrefix(p, node.prefix);
             k < |p| && (if p[k].Lit? then p[k].b !in Prepared(node, p).indices else !Prepared(node, p).wildChild)
    requires InsertAt(node, d, parent, p, v, names).outcome.Ok?
    ensures Compact(InsertAt(node, d, parent, p, v, names).node, suffix)
  {
    hide WF, PrefixWildInSegment, SuffixWildInSegment, Promote, SuffixChild, InsertRoute, NewStatic, NewSuffix, Compact,
      CompactBelow;
    var k := CommonPrefix(p, node.prefix);
    var n := Prepared(node, p);
    PreparedBody(node, d, p);
    PreparedCompact(node, p, suffix);
    if p[k].Lit? {
      NewStaticCompact(n, d, p[k..], v, names);
      GrownNeeded(node, p, NewStatic(n, p[k..], v, names).node, suffix);
    } else {
      RouteCompact(n, p[k..], v, names);
      CompactSuffix(InsertRoute(n, p[k..], v, names).node, suffix);
    }
  }

  /** One more child is reason enough for a forked node. */
  lemma {:induction false} GrownNeeded<T>(node: Node<T>, p: Tokens, r: Node<T>, suffix: bool)
    requires node.priority >= 1 && TextKind(node) && Compact(node, suffix) && CompactBelow(r)
    requires var n := Prepared(node, p);
             && r.value == n.value && r.wildChild == n.wildChild && r.kind == n.kind && |r.children| == |n.children| + 1
    ensures Compact(r, suffix)
  {
  }

  lemma {:induction false} CompactBelowChild<T>(
    node: Node<T>, d: nat, parent: Option<Node<T>>, p: Tokens, v: T, names: seq<Name>, suffix: bool, i: nat)
    requires WF(node, d) && node.priority >= 1 && Enters(node, p) && Compact(node, suffix)
    requires suffix ==> node.prefix <= p && TextKind(node)
    requires var k := CommonPrefix(p, node.prefix);
             k < |p| && ChildIndex(Prepared(node, p), p[k..]) == Some(i)
    requires InsertAt(node, d, parent, p, v, names).outcome.Ok?
    ensures Compact(InsertAt(node, d, parent, p, v, names).node, suffix)
    decreases node, 0
  {
    hide WF, PrefixWildInSegment, SuffixWildInSegment, Promote, SuffixChild, InsertRoute, NewStatic, NewSuffix,
      NewWild, Reorder, Compact, CompactBelow;
    var k := CommonPrefix(p, node.prefix);
    var n := Prepared(node, p);
    var rest := p[k..];
    assert rest[0] == p[k];
    ChildTaken(node, d, p, i);
    PreparedCompact(node, p, suffix);
    ChildWF(node, d, i);
    var child := node.children[i];
    CompactChild(node, suffix, i);
    ChildEntered(node, d, p, i);
    if node.kind.ParamNode? { SuffixFits(node, rest, i); }
    SuffixIsText(node, d, i);
    InsertAtCompact(child, Depth(node, d), Some(n), rest, v, names, node.kind.ParamNode?);
    ReplacedCompact(n, suffix, i, InsertAt(child, Depth(node, d), Some(n), rest, v, names).node);
  }

  lemma {:induction false} SuffixIsText<T>(n: Node<T>, d: nat, i: nat)
    requires WF(n, d) && i < |n.children|
    ensures n.kind.ParamNode? ==> TextKind(n.children[i])
  {
  }

  lemma {:induction false} CompactChild<T>(n: Node<T>, suffix: bool, i: nat)
    requires Compact(n, suffix) && i < |n.children|
    ensures Compact(n.children[i], n.kind.ParamNode?)
  {
  }

  /** The child of a suffix is entered with that suffix. */
  lemma {:induction false} SuffixFits<T>(node: Node<T>, rest: Tokens, i: nat)
    requires rest != [] && ChildIndex(node, rest) == Some(i) && node.kind.ParamNode?
    ensures node.children[i].prefix <= rest
    ensures CommonPrefix(rest, node.children[i].prefix) == |node.children[i].prefix|
  {
    ShorterCommon(rest, node.children[i].prefix);
  }

  /** A node stays compact when a compact child takes the place of another. */
  lemma {:induction false} ReplacedCompact<T>(n: Node<T>, suffix: bool, i: nat, c: Node<T>)
    requires Compact(n, suffix) && i < |n.children| && Compact(c, n.kind.ParamNode?)
    requires n.kind.ParamNode? ==> c.prefix == n.children[i].prefix && !suffix
    requires TextKind(n) || n.kind.ParamNode?
    ensures var m := n.(children := n.children[i := c]);
            Compact(m, suffix) && (TextKind(n) && i < |n.indices| <= |n.children| ==> Compact(Reorder(m, i), suffix))
  {
    hide Reorder;
    PutCompact(n, i, c);
    var m := n.(children := n.children[i := c]);
    if TextKind(n) {
      StillNeeded(n, m, suffix);
      if i < |n.indices| <= |n.children| {
        ReorderCompact(m, i);
        StillNeeded(m, Reorder(m, i), suffix);
      }
    } else {
      SameSuffixes(n, m, i);
    }
  }

  lemma {:induction false} SameSuffixes<T>(n: Node<T>, m: Node<T>, i: nat)
    requires Compact(n, false) && n.kind.ParamNode? && i < |n.children| && CompactBelow(m)
    requires m == n.(children := m.children) && |m.children| == |n.children|
    requires m.children == n.children[i := m.children[i]] && m.children[i].prefix == n.children[i].prefix
    ensures Compact(m, false)
  {
    assert forall j | 0 <= j < |n.children| :: m.children[j].prefix == n.children[j].prefix;
    assert HasSuffix(m.children) <==> HasSuffix(n.children) by {
      if j :| 0 <= j < |n.children| && !PlainSuffix(n.children[j].prefix) {
        assert !PlainSuffix(m.children[j].prefix);
      }
      if j :| 0 <= j < |m.children| && !PlainSuffix(m.children[j].prefix) {
        assert !PlainSuffix(n.children[j].prefix);
      }
    }
  }

  lemma {:induction false} CompactNewSuffix<T>(
    node: Node<T>, d: nat, parent: Option<Node<T>>, p: Tokens, v: T, names: seq<Name>)
    requires WF(node, d) && node.priority >= 1 && Enters(node, p) && Compact(node, false) && node.kind.ParamNode?
    requires |p| > 1 && ChildIndex(Prepared(node, p), p[CommonPrefix(p, node.prefix)..]) == None
    requires InsertAt(node, d, parent, p, v, names).outcome.Ok?
    ensures Compact(InsertAt(node, d, parent, p, v, names).node, false)
  {
    hide PrefixWildInSegment, SuffixWildInSegment, Promote, SuffixChild, InsertRoute, NewStatic, NewSuffix, NewWild;
    ParamPrepared(node, d, p);
    BelowAs(node, Prepared(node, p));
    NewSuffixCompact(Prepared(node, p), parent, p[1..], v, names);
  }

  lemma {:induction false} CompactEnd<T>(
    node: Node<T>, d: nat, parent: Option<Node<T>>, p: Tokens, v: T, names: seq<Name>, suffix: bool)
    requires WF(node, d) && node.priority >= 1 && Enters(node, p) && Compact(node, suffix)
    requires (suffix ==> node.prefix <= p && TextKind(node)) && CommonPrefix(p, node.prefix) == |p|
    requires InsertAt(node, d, parent, p, v, names).outcome.Ok?
    ensures Compact(InsertAt(node, d, parent, p, v, names).node, suffix)
  {
    hide PrefixWildInSegment, SuffixWildInSegment, Promote, SuffixChild, InsertRoute, NewStatic, NewSuffix, NewWild;
    if CommonPrefix(p, node.prefix) < |node.prefix| {
      ForkedIsText(node, d, p);
    }
    PreparedCompact(node, p, suffix);
    BelowAs(Prepared(node, p), WithValue(Prepared(node, p), v, names));
  }

  lemma {:induction false} InsertAtCompact<T>(
    node: Node<T>, d: nat, parent: Option<Node<T>>, p: Tokens, v: T, names: seq<Name>, suffix: bool)
    requires WF(node, d) && node.priority >= 1 && Enters(node, p) && Compact(node, suffix)
    requires suffix ==> node.prefix <= p && TextKind(node)
    requires InsertAt(node, d, parent, p, v, names).outcome.Ok?
    ensures Compact(InsertAt(node, d, parent, p, v, names).node, suffix)
    decreases node, 1
  {
    hide WF, InsertAt, Compact;
    var k := CommonPrefix(p, node.prefix);
    if k == |p| {
      CompactEnd(node, d, parent, p, v, names, suffix);
    } else {
      var n := Prepared(node, p);
      assert p[k..][0] == p[k];
      match ChildIndex(n, p[k..])
      case Some(i) => CompactBelowChild(node, d, parent, p, v, names, suffix, i);
      case None =>
        if node.kind.ParamNode? {
          ParamPrepared(node, d, p);
          CompactNewSuffix(node, d, parent, p, v, names);
        } else {
          NoChildTaken(node, d, p);
          CompactNewChild(node, d, parent, p, v, names, suffix);
        }
    }
  }

  /** A tree only ever inserted into, and never in vain. */
  ghost predicate OnlyAccepted<T>(t: Node<T>) {
    t == Empty() || Compact(t, false)
  }

  lemma {:induction false} InsertCompact<T>(t: Node<T>, p: Tokens, v: T, names: seq<Name>)
    requires TreeShape(t) && OnlyAccepted(t) && Insert(t, p, v, names).outcome.Ok?
    ensures Compact(Insert(t, p, v, names).node, false)
  {
    hide InsertAt, InsertRoute;
    if t.value.None? && t.children == [] {
      EmptiedTree(t);
      var n := t.(priority := t.priority + 1);
      RouteCompact(n, p, v, names);
      var r := InsertRoute(n, p, v, names).node;
      BelowAs(r, r.(kind := Root));
    } else {
      InsertAtCompact(t, 0, None, p, v, names, false);
    }
  }
}
