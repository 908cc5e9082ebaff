/** An insertion keeps the shape of the tree. */
module InsertShape {
  import opened Prelude
  import opened Pattern
  import opened RouteTree
  import opened TreeInsert
  import opened RouteBuild
  import opened InsertProof
  import opened InsertAtProof

  lemma {:induction false} SwapBody<T>(n: Node<T>, d: nat, i: nat)
    requires Body(n, d) && 0 < i < |n.indices|
    ensures Body(n.(children := Swap(n.children, i), indices := Swap(n.indices, i)), d)
  {
    hide WF;
    var m := n.(children := Swap(n.children, i), indices := Swap(n.indices, i));
    SwapDistinct(n.indices, i);
    forall j | 0 <= j < |m.children| ensures WF(m.children[j], d) {
      assert m.children[j] == n.children[if j == i then i - 1 else if j == i - 1 then i else j];
    }
    forall j | 0 <= j < |m.indices| ensures Heads(m.children[j], m.indices[j]) {
      var j' := if j == i then i - 1 else if j == i - 1 then i else j;
      assert Heads(n.children[j'], n.indices[j']);
    }
  }

  lemma {:induction false} ReorderBody<T>(n: Node<T>, d: nat, i: nat)
    requires Body(n, d) && i < |n.indices|
    ensures Body(Reorder(n, i), d)
    decreases i
  {
    hide WF;
    if i > 0 && n.children[i - 1].priority < n.children[i].priority {
      SwapBody(n, d, i);
      ReorderBody(n.(children := Swap(n.children, i), indices := Swap(n.indices, i)), d, i - 1);
    }
  }

  lemma {:induction false} ReplaceBody<T>(n: Node<T>, d: nat, i: nat, c: Node<T>)
    requires Body(n, d) && i < |n.children| && WF(c, d)
    requires if i < |n.indices| then Heads(c, n.indices[i]) else Wild(c)
    ensures Body(n.(children := n.children[i := c]), d)
  {
    hide WF;
    var m := n.(children := n.children[i := c]);
    forall j | 0 <= j < |m.indices| ensures Heads(m.children[j], m.indices[j]) {
      assert Heads(n.children[j], n.indices[j]);
    }
  }

  lemma {:induction false} WithStaticBody<T>(n: Node<T>, d: nat, b: byte, c: Node<T>)
    requires Body(n, d) && b !in n.indices && WF(c, d) && Heads(c, b)
    ensures Body(WithStatic(n, b, c), d)
  {
    hide WF;
    var m := WithStatic(n, b, c);
    WithStaticTable(n, b, c);
    forall j | 0 <= j < |m.indices| ensures Heads(m.children[j], m.indices[j]) {
      if j < |n.indices| { assert Heads(n.children[j], n.indices[j]); }
    }
    forall j | 0 <= j < |m.children| ensures WF(m.children[j], d) {
      assert m.children[j] == c || m.children[j] in n.children;
    }
  }

  lemma {:induction false} NewStaticShape<T>(n: Node<T>, d: nat, rest: Tokens, v: T, names: seq<Name>)
    requires Body(n, d) && rest != [] && rest[0].Lit? && rest[0].b !in n.indices
    requires |names| == d + ParamCount(rest)
    requires NewStatic(n, rest, v, names).outcome in {Ok, Err(Conflict)}
    ensures Body(NewStatic(n, rest, v, names).node, d)
  {
    hide WF, PrefixWildInSegment, SuffixWildInSegment;
    if !StaticConflict(n, rest) {
      var blank: Node<T> := Fresh(1, [], Static);
      var c := InsertRoute(blank, rest, v, names);
      NeverConflicts(blank, rest, v, names);
      BlankShape(blank, d, rest, v, names);
      BlankText(blank, rest, v, names);
      WithStaticBody(n, d, rest[0].b, c.node);
      ReorderBody(WithStatic(n, rest[0].b, c.node), d, |n.indices|);
    }
  }

  /** Writing the rest of a route never meets another route. */
  lemma {:induction false} NeverConflicts<T>(n: Node<T>, p: Tokens, v: T, names: seq<Name>)
    ensures InsertRoute(n, p, v, names).outcome != Err(Conflict)
    decreases |p|, 0
  {
    var q := p[FirstWild(p)..];
    if q != [] && q[0].Param? {
      var t := Terminator(q[1..]);
      SuffixNeverConflicts(q[1..][..t], q[1..][t..], v, names);
    }
  }

  lemma {:induction false} SuffixNeverConflicts<T>(suffix: Tokens, rest: Tokens, v: T, names: seq<Name>)
    ensures SuffixChild(suffix, rest, v, names).outcome != Err(Conflict)
    decreases |rest|, 1
  {
    if rest != [] {
      NeverConflicts<T>(if rest[0].Lit? then Fresh(1, [], Static) else Fresh(1, suffix, Static), rest, v, names);
    }
  }

  lemma {:induction false} NewWildShape<T>(
    n: Node<T>, d: nat, before: Option<Token>, rest: Tokens, v: T, names: seq<Name>)
    requires Body(n, d) && !n.wildChild && KeepsText(n, rest)
    requires |names| == d + ParamCount(rest)
    requires NewWild(n, before, rest, v, names).outcome in {Ok, Err(Conflict)}
    ensures Body(NewWild(n, before, rest, v, names).node, d)
  {
    hide WF, PrefixWildInSegment, SuffixWildInSegment;
    NeverConflicts(n, rest, v, names);
    if InsertRoute(n, rest, v, names).outcome.Ok? {
      GraftShape(n, d, rest, v, names);
    }
  }

  lemma {:induction false} WithSuffixShape<T>(n: Node<T>, d: nat, s: Node<T>)
    requires WF(n, d) && n.kind.ParamNode? && WF(s, d + 1) && SuffixShape(s)
    requires IndexOfPrefix(n.children, s.prefix) == None
    ensures WF(WithSuffix(n, s), d)
  {
    var m := WithSuffix(n, s);
    var k := Longer(n.children, |s.prefix|);
    forall i | 0 <= i < |m.children|
      ensures WF(m.children[i], d + 1) && SuffixShape(m.children[i])
    {
      assert m.children[i] == if i < k then n.children[i] else if i == k then s else n.children[i - 1];
    }
    assert ParamShape(m) by { WithSuffixOrder(n, s); }
  }

  lemma {:induction false} WithSuffixOrder<T>(n: Node<T>, s: Node<T>)
    requires ParamShape(n) && SuffixShape(s) && IndexOfPrefix(n.children, s.prefix) == None
    ensures ParamShape(WithSuffix(n, s))
  {
    hide SlashAt;
    var m := WithSuffix(n, s);
    var k := Longer(n.children, |s.prefix|);
    forall i | 0 <= i < |m.children|
      ensures SuffixShape(m.children[i])
      ensures !m.kind.suffix ==> m.children[i].prefix == [SLASH_TOKEN]
    {
      assert m.children[i] == if i < k then n.children[i] else if i == k then s else n.children[i - 1];
    }
    WithSuffixSorted(n.children, k, s, m.children);
  }

  lemma {:induction false} WithSuffixSorted<T>(prior: seq<Node<T>>, k: nat, s: Node<T>, all: seq<Node<T>>)
    requires k <= |prior| && all == prior[..k] + [s] + prior[k..]
    requires forall i, j | 0 <= i < j < |prior| ::
               prior[i].prefix != prior[j].prefix && |prior[i].prefix| >= |prior[j].prefix|
    requires forall i | 0 <= i < |prior| :: prior[i].prefix != s.prefix
    requires forall i | 0 <= i < k :: |prior[i].prefix| >= |s.prefix|
    requires k < |prior| ==> |prior[k].prefix| < |s.prefix|
    ensures forall i, j | 0 <= i < j < |all| :: all[i].prefix != all[j].prefix && |all[i].prefix| >= |all[j].prefix|
  {
    forall i, j | 0 <= i < j < |all|
      ensures all[i].prefix != all[j].prefix && |all[i].prefix| >= |all[j].prefix|
    {
      assert all[i] == if i < k then prior[i] else if i == k then s else prior[i - 1];
      assert all[j] == if j < k then prior[j] else if j == k then s else prior[j - 1];
      assert i == k < j - 1 ==> |prior[k].prefix| >= |prior[j - 1].prefix|;
    }
  }

  lemma {:induction false} NewSuffixShape<T>(
    n: Node<T>, d: nat, parent: Option<Node<T>>, rest: Tokens, v: T, names: seq<Name>)
    requires WF(n, d) && n.kind.ParamNode? && rest != []
    requires IndexOfPrefix(n.children, rest[..Terminator(rest)]) == None
    requires |names| == d + 1 + ParamCount(rest)
    requires NewSuffix(n, parent, rest, v, names).outcome in {Ok, Err(Conflict)}
    ensures WF(NewSuffix(n, parent, rest, v, names).node, d)
  {
    hide WF, PrefixWildInSegment;
    var t := Terminator(rest);
    var suffix := rest[..t];
    if !SuffixConflict(n, parent, suffix) && !HasWild(suffix) {
      SuffixNeverConflicts(suffix, rest[t..], v, names);
      SegmentText(rest);
      SuffixChildShape(suffix, d + 1, rest[t..], v, names);
      SuffixChildText(suffix, rest[t..], v, names);
      WithSuffixShape(n, d, SuffixChild(suffix, rest[t..], v, names).node);
    }
  }

  // ----- The walk -----

  lemma {:induction false} ChildWF<T>(n: Node<T>, d: nat, i: nat)
    requires WF(n, d) && i < |n.children|
    ensures WF(n.children[i], Depth(n, d))
    ensures n.kind.ParamNode? ==> SuffixShape(n.children[i])
    ensures TextKind(n) && i < |n.indices| ==> Heads(n.children[i], n.indices[i])
    ensures n.children[i].prefix != [] && n.children[i].priority >= 1
  {
    ChildHasText(n, d, i);
  }

  /** What the walk knows when it enters a node: a static node shares its first byte with the route. */
  ghost predicate Arrives<T>(node: Node<T>, d: nat, p: Tokens, names: seq<Name>) {
    && WF(node, d) && node.priority >= 1 && Enters(node, p)
    && (node.kind.Static? ==> p != [] && p[0] == node.prefix[0])
    && |names| == d + ParamCount(p)
  }

  lemma {:induction false} RestCount(p: Tokens, k: nat)
    requires k <= |p|
    ensures ParamCount(p) == ParamCount(p[..k]) + ParamCount(p[k..])
  {
    assert p == p[..k] + p[k..];
    ParamCountConcat(p[..k], p[k..]);
  }

  lemma {:induction false} TextRest<T>(node: Node<T>, d: nat, p: Tokens, names: seq<Name>)
    requires Arrives(node, d, p, names) && TextKind(node)
    ensures var k := CommonPrefix(p, node.prefix);
            |names| == d + ParamCount(p[k..]) && (node.kind.Static? ==> k > 0)
  {
    var k := CommonPrefix(p, node.prefix);
    RestCount(p, k);
    assert AllLit(node.prefix);
    assert p[..k] == node.prefix[..k];
    assert AllLit(p[..k]);
    ParamCountLit(p[..k]);
  }

  lemma {:induction false} EndShape<T>(
    node: Node<T>, d: nat, parent: Option<Node<T>>, p: Tokens, v: T, names: seq<Name>)
    requires Arrives(node, d, p, names) && CommonPrefix(p, node.prefix) == |p|
    ensures WF(InsertAt(node, d, parent, p, v, names).node, d)
  {
    if TextKind(node) {
      TextRest(node, d, p, names);
      PreparedBody(node, d, p);
      var r := InsertAt(node, d, parent, p, v, names).node;
      assert Body(r, d);
      BodyIsWF(r, d);
    } else {
      ParamPrepared(node, d, p);
      assert p == [Param] && p[1..] == [];
      assert ParamCount(p) == 1;
    }
  }

  lemma {:induction false} ParamDescendsShape<T>(node: Node<T>, d: nat, i: nat, c: Node<T>)
    requires WF(node, d) && node.kind.ParamNode? && i < |node.children|
    requires WF(c, d + 1) && c.kind.Static? && c.prefix == node.children[i].prefix
    requires EndsInSlash(c.prefix) || c.children == []
    ensures WF(node.(priority := node.priority + 1, children := node.children[i := c]), d)
  {
    var m := node.(priority := node.priority + 1, children := node.children[i := c]);
    assert SuffixShape(node.children[i]);
    assert forall j | 0 <= j < |m.children| :: m.children[j].prefix == node.children[j].prefix;
    assert ParamShape(m);
  }

  /** A suffix without '/' has no room for more: the route ends there. */
  lemma {:induction false} SuffixLeafStays<T>(
    node: Node<T>, d: nat, parent: Option<Node<T>>, p: Tokens, v: T, names: seq<Name>)
    requires WF(node, d) && node.kind.Static? && SuffixShape(node) && node.prefix == p[..Terminator(p)]
    ensures var c := InsertAt(node, d, parent, p, v, names).node;
            EndsInSlash(c.prefix) || c.children == []
  {
    SuffixKept(node.prefix, p);
    if !EndsInSlash(node.prefix) && p != [] {
      SegmentSuffix(p);
      assert node.prefix == p;
    }
  }

  lemma {:induction false} ShapeBelowParam<T>(
    node: Node<T>, d: nat, parent: Option<Node<T>>, p: Tokens, v: T, names: seq<Name>)
    requires Arrives(node, d, p, names) && node.kind.ParamNode? && |p| > 1
    requires InsertAt(node, d, parent, p, v, names).outcome in {Ok, Err(Conflict)}
    ensures WF(InsertAt(node, d, parent, p, v, names).node, d)
    decreases node, 0
  {
    hide WF, PrefixWildInSegment, SuffixWildInSegment, WildInSegment, Promote, SuffixChild, InsertRoute, NewSuffix,
      SlashAt,
         NewStatic, NewWild, WildConflict;
    var n := Prepared(node, p);
    ParamPrepared(node, d, p);
    BumpShape(node, d);
    var rest := p[1..];
    match IndexOfPrefix(node.children, rest[..Terminator(rest)])
    case None => NewSuffixShape(n, d, parent, rest, v, names);
    case Some(i) =>
      var child := node.children[i];
      ChildWF(node, d, i);
      InsertAtShape(child, d + 1, Some(n), rest, v, names);
      SuffixLeafStays(child, d + 1, Some(n), rest, v, names);
      SuffixKept(child.prefix, rest);
      ParamDescendsShape(node, d, i, InsertAt(child, d + 1, Some(n), rest, v, names).node);
  }

  lemma {:induction false} ShapeBelowStatic<T>(
    node: Node<T>, d: nat, parent: Option<Node<T>>, p: Tokens, v: T, names: seq<Name>, i: nat)
    requires Arrives(node, d, p, names) && TextKind(node)
    requires var k := CommonPrefix(p, node.prefix);
             k < |p| && p[k].Lit? && IndexOf(Prepared(node, p).indices, p[k].b) == Some(i)
    requires InsertAt(node, d, parent, p, v, names).outcome in {Ok, Err(Conflict)}
    ensures WF(InsertAt(node, d, parent, p, v, names).node, d)
    decreases node, 0
  {
    hide WF, PrefixWildInSegment, SuffixWildInSegment, WildInSegment, Promote, SuffixChild, InsertRoute, NewStatic;
    var k := CommonPrefix(p, node.prefix);
    var n := Prepared(node, p);
    StaticFound(node, d, p, i);
    PreparedBody(node, d, p);
    TextRest(node, d, p, names);
    var child := node.children[i];
    ChildWF(node, d, i);
    InsertAtShape(child, d, Some(n), p[k..], v, names);
    var c := InsertAt(child, d, Some(n), p[k..], v, names).node;
    assert Heads(c, n.indices[i]);
    ReplaceBody(n, d, i, c);
    ReorderBody(n.(children := n.children[i := c]), d, i);
    BodyIsWF(InsertAt(node, d, parent, p, v, names).node, d);
  }

  lemma {:induction false} ShapeBelowWild<T>(
    node: Node<T>, d: nat, parent: Option<Node<T>>, p: Tokens, v: T, names: seq<Name>)
    requires Arrives(node, d, p, names) && TextKind(node) && Prepared(node, p).wildChild
    requires var k := CommonPrefix(p, node.prefix); k < |p| && !p[k].Lit?
    requires InsertAt(node, d, parent, p, v, names).outcome in {Ok, Err(Conflict)}
    ensures WF(InsertAt(node, d, parent, p, v, names).node, d)
    decreases node, 0
  {
    hide WF, PrefixWildInSegment, SuffixWildInSegment, WildInSegment, Promote, SuffixChild, InsertRoute;
    var k := CommonPrefix(p, node.prefix);
    var n := Prepared(node, p);
    WildFound(node, d, p);
    PreparedBody(node, d, p);
    TextRest(node, d, p, names);
    var last := |node.children| - 1;
    var wild := node.children[last];
    ChildWF(node, d, last);
    if WildConflict(n, wild, p[k..]) {
      BumpShape(wild, d);
      ReplaceBody(n, d, last, wild.(priority := wild.priority + 1));
    } else {
      WildEnters(node, d, p);
      InsertAtShape(wild, d, Some(n), p[k..], v, names);
      ReplaceBody(n, d, last, InsertAt(wild, d, Some(n), p[k..], v, names).node);
    }
    BodyIsWF(InsertAt(node, d, parent, p, v, names).node, d);
  }

  lemma {:induction false} BumpShape<T>(n: Node<T>, d: nat)
    requires WF(n, d)
    ensures WF(n.(priority := n.priority + 1), d)
  {
  }

  lemma {:induction false} ShapeNewStatic<T>(
    node: Node<T>, d: nat, parent: Option<Node<T>>, p: Tokens, v: T, names: seq<Name>)
    requires Arrives(node, d, p, names) && TextKind(node)
    requires var k := CommonPrefix(p, node.prefix);
             k < |p| && p[k].Lit? && p[k].b !in Prepared(node, p).indices
    requires InsertAt(node, d, parent, p, v, names).outcome in {Ok, Err(Conflict)}
    ensures WF(InsertAt(node, d, parent, p, v, names).node, d)
  {
    hide PrefixWildInSegment, SuffixWildInSegment, WildInSegment, Promote, SuffixChild, InsertRoute, NewStatic, NewWild;
    PreparedBody(node, d, p);
    TextRest(node, d, p, names);
    NewStaticShape(Prepared(node, p), d, p[CommonPrefix(p, node.prefix)..], v, names);
    BodyIsWF(InsertAt(node, d, parent, p, v, names).node, d);
  }

  lemma {:induction false} ShapeNewWild<T>(
    node: Node<T>, d: nat, parent: Option<Node<T>>, p: Tokens, v: T, names: seq<Name>)
    requires Arrives(node, d, p, names) && TextKind(node) && !Prepared(node, p).wildChild
    requires var k := CommonPrefix(p, node.prefix); k < |p| && !p[k].Lit?
    requires InsertAt(node, d, parent, p, v, names).outcome in {Ok, Err(Conflict)}
    ensures WF(InsertAt(node, d, parent, p, v, names).node, d)
  {
    hide PrefixWildInSegment, SuffixWildInSegment, WildInSegment, Promote, SuffixChild, InsertRoute, NewStatic, NewWild;
    var k := CommonPrefix(p, node.prefix);
    PreparedBody(node, d, p);
    TextRest(node, d, p, names);
    NewWildShape(Prepared(node, p), d, if k == 0 then None else Some(p[k - 1]), p[k..], v, names);
    BodyIsWF(InsertAt(node, d, parent, p, v, names).node, d);
  }

  /** An accepted insertion keeps the shape, and so does one refused for a conflict. */
  lemma {:induction false} InsertAtShape<T>(
    node: Node<T>, d: nat, parent: Option<Node<T>>, p: Tokens, v: T, names: seq<Name>)
    requires Arrives(node, d, p, names)
    requires InsertAt(node, d, parent, p, v, names).outcome in {Ok, Err(Conflict)}
    ensures WF(InsertAt(node, d, parent, p, v, names).node, d)
    decreases node, 1
  {
    hide InsertAt;
    var k := CommonPrefix(p, node.prefix);
    var n := Prepared(node, p);
    if k == |p| {
      EndShape(node, d, parent, p, v, names);
    } else if node.kind.ParamNode? {
      ParamPrepared(node, d, p);
      ShapeBelowParam(node, d, parent, p, v, names);
    } else if p[k].Lit? {
      match IndexOf(n.indices, p[k].b)
      case None => ShapeNewStatic(node, d, parent, p, v, names);
      case Some(i) => ShapeBelowStatic(node, d, parent, p, v, names, i);
    } else if n.wildChild {
      ShapeBelowWild(node, d, parent, p, v, names);
    } else {
      ShapeNewWild(node, d, parent, p, v, names);
    }
  }
}
