/** The walk of an insertion: every route but the new one stays, and the tree keeps its shape. */
module InsertAtProof {
  import opened Prelude
  import opened Pattern
  import opened RouteTree
  import opened TreeInsert
  import opened RouteBuild
  import opened InsertProof

  lemma {:induction false} SuffixDescends<T>(
    node: Node<T>, d: nat, p: Tokens, v: T, names: seq<Name>, i: nat, c: Inserted<T>)
    requires WF(node, d) && Enters(node, p) && node.kind.ParamNode? && |p| > 1
    requires ChildIndex(Prepared(node, p), p[1..]) == Some(i)
    requires c.node.prefix == node.children[i].prefix && Adds(c, node.children[i], p[1..], v, names)
    ensures Prepared(node, p) == node.(priority := node.priority + 1)
    ensures Adds(Inserted(Prepared(node, p).(children := node.children[i := c.node]), c.outcome), node, p, v, names)
  {
    hide Get;
    ParamPrepared(node, d, p);
    PreparedSame(node, d, p);
    var n := Prepared(node, p);
    DescendAdds(n, i, c, p[1..], v, names);
    assert n.prefix + p[1..] == p;
    AddsFrom(Inserted(n.(children := node.children[i := c.node]), c.outcome), n, node, p, v, names);
  }

  lemma {:induction false} ParamPrepared<T>(node: Node<T>, d: nat, p: Tokens)
    requires WF(node, d) && Enters(node, p) && node.kind.ParamNode?
    ensures CommonPrefix(p, node.prefix) == 1
    ensures Prepared(node, p) == node.(priority := node.priority + 1)
  {
  }

  lemma {:induction false} InsertAtParam<T>(
    node: Node<T>, d: nat, parent: Option<Node<T>>, p: Tokens, v: T, names: seq<Name>)
    requires WF(node, d) && Enters(node, p) && node.kind.ParamNode? && |p| > 1
    requires IndexOfPrefix(node.children, p[1..][..Terminator(p[1..])]) == None
    ensures Adds(InsertAt(node, d, parent, p, v, names), node, p, v, names)
  {
    hide Get;
    ParamPrepared(node, d, p);
    PreparedSame(node, d, p);
    var n := Prepared(node, p);
    NewSuffixAdds(n, parent, p[1..], v, names);
    assert n.prefix + p[1..] == p;
    AddsFrom(NewSuffix(n, parent, p[1..], v, names), n, node, p, v, names);
  }

  /** The static child a route goes on to is a child of the unforked node. */
  lemma {:induction false} StaticFound<T>(node: Node<T>, d: nat, p: Tokens, i: nat)
    requires WF(node, d) && Enters(node, p) && TextKind(node)
    requires var k := CommonPrefix(p, node.prefix);
             k < |p| && p[k].Lit? && IndexOf(Prepared(node, p).indices, p[k].b) == Some(i)
    ensures CommonPrefix(p, node.prefix) == |node.prefix|
    ensures Prepared(node, p) == node.(priority := node.priority + 1)
    ensures i < |node.indices| <= |node.children| && Heads(node.children[i], p[|node.prefix|].b)
  {
    var k := CommonPrefix(p, node.prefix);
    if k < |node.prefix| {
      assert false;
    }
    assert Heads(node.children[i], node.indices[i]);
  }

  lemma {:induction false} StaticDescends<T>(
    node: Node<T>, d: nat, p: Tokens, v: T, names: seq<Name>, i: nat, c: Inserted<T>)
    requires WF(node, d) && Enters(node, p) && TextKind(node)
    requires var k := CommonPrefix(p, node.prefix);
             k < |p| && p[k].Lit? && IndexOf(Prepared(node, p).indices, p[k].b) == Some(i)
    requires i < |node.children| && Adds(c, node.children[i], p[CommonPrefix(p, node.prefix)..], v, names)
    requires i < |Prepared(node, p).indices| <= |Prepared(node, p).children|
    ensures Adds(Inserted(Reorder(Prepared(node, p).(children := node.children[i := c.node]), i), c.outcome),
                 node, p, v, names)
  {
    hide Get;
    StaticFound(node, d, p, i);
    PreparedSame(node, d, p);
    var n := Prepared(node, p);
    var rest := p[|node.prefix|..];
    assert rest[0] == p[|node.prefix|];
    assert ChildIndex(n, rest) == Some(i);
    DescendAdds(n, i, c, rest, v, names);
    assert n.prefix + rest == p;
    var m := n.(children := node.children[i := c.node]);
    ReorderAdds(m, i, c.outcome, n, p, v, names);
    AddsFrom(Inserted(Reorder(m, i), c.outcome), n, node, p, v, names);
  }

  lemma {:induction false} WildFound<T>(node: Node<T>, d: nat, p: Tokens)
    requires WF(node, d) && Enters(node, p) && TextKind(node) && Prepared(node, p).wildChild
    ensures CommonPrefix(p, node.prefix) == |node.prefix|
    ensures Prepared(node, p) == node.(priority := node.priority + 1)
    ensures node.children != [] && Wild(node.children[|node.children| - 1])
    ensures WF(node.children[|node.children| - 1], d)
  {
  }

  lemma {:induction false} WildDescends<T>(node: Node<T>, d: nat, p: Tokens, v: T, names: seq<Name>, c: Inserted<T>)
    requires WF(node, d) && Enters(node, p) && TextKind(node) && Prepared(node, p).wildChild
    requires |node.prefix| < |p| && !p[|node.prefix|].Lit? && node.children != []
    requires Adds(c, node.children[|node.children| - 1], p[|node.prefix|..], v, names)
    ensures var last := |node.children| - 1;
            Adds(Inserted(Prepared(node, p).(children := node.children[last := c.node]), c.outcome), node, p, v, names)
  {
    hide Get;
    WildFound(node, d, p);
    PreparedSame(node, d, p);
    var n := Prepared(node, p);
    var rest := p[|node.prefix|..];
    assert rest[0] == p[|node.prefix|];
    var last := |node.children| - 1;
    assert ChildIndex(n, rest) == Some(last);
    DescendAdds(n, last, c, rest, v, names);
    assert n.prefix + rest == p;
    AddsFrom(Inserted(n.(children := node.children[last := c.node]), c.outcome), n, node, p, v, names);
  }

  lemma {:induction false} WildRejects<T>(node: Node<T>, d: nat, p: Tokens, v: T, names: seq<Name>)
    requires WF(node, d) && Enters(node, p) && TextKind(node) && Prepared(node, p).wildChild && node.children != []
    ensures var last := |node.children| - 1;
            var wild := node.children[last];
            var bumped := wild.(priority := wild.priority + 1);
            Adds(Inserted(Prepared(node, p).(children := node.children[last := bumped]), Err(Conflict)),
                 node, p, v, names)
  {
    hide Get;
    WildFound(node, d, p);
    PreparedSame(node, d, p);
    var n := Prepared(node, p);
    var last := |node.children| - 1;
    var m := n.(children := node.children[last := node.children[last].(priority := node.children[last].priority + 1)]);
    BumpChildSame(n, last, node.children[last].priority + 1);
    SameTrans(m, n, node);
    RejectAdds(m, node, Conflict, p, v, names);
  }

  lemma {:induction false} InsertAtEnd<T>(
    node: Node<T>, d: nat, parent: Option<Node<T>>, p: Tokens, v: T, names: seq<Name>)
    requires WF(node, d) && Enters(node, p) && CommonPrefix(p, node.prefix) == |p|
    ensures Adds(InsertAt(node, d, parent, p, v, names), node, p, v, names)
  {
    hide Get;
    PreparedSame(node, d, p);
    var n := Prepared(node, p);
    assert p[..|p|] == p;
    if n.value.Some? {
      RejectAdds(n, node, Conflict, p, v, names);
    } else {
      SetValueAdds(n, v, names);
      AddsFrom(Inserted(WithValue(n, v, names), Ok), n, node, p, v, names);
    }
  }

  lemma {:induction false} InsertAtNewStatic<T>(
    node: Node<T>, d: nat, parent: Option<Node<T>>, p: Tokens, v: T, names: seq<Name>)
    requires WF(node, d) && Enters(node, p) && TextKind(node)
    requires var k := CommonPrefix(p, node.prefix);
             k < |p| && p[k].Lit? && p[k].b !in Prepared(node, p).indices
    ensures Adds(InsertAt(node, d, parent, p, v, names), node, p, v, names)
  {
    hide Get;
    PreparedSame(node, d, p);
    PreparedBody(node, d, p);
    var n := Prepared(node, p);
    var rest := p[CommonPrefix(p, node.prefix)..];
    NewStaticAdds(n, d, rest, v, names);
    assert n.prefix + rest == p;
    AddsFrom(NewStatic(n, rest, v, names), n, node, p, v, names);
  }

  lemma {:induction false} InsertAtNewWild<T>(
    node: Node<T>, d: nat, parent: Option<Node<T>>, p: Tokens, v: T, names: seq<Name>)
    requires WF(node, d) && Enters(node, p) && TextKind(node) && !Prepared(node, p).wildChild
    requires var k := CommonPrefix(p, node.prefix); k < |p| && !p[k].Lit?
    ensures Adds(InsertAt(node, d, parent, p, v, names), node, p, v, names)
  {
    hide Get, InsertRoute, SuffixChild, PrefixWildInSegment, SuffixWildInSegment, NewWild, NewStatic, NewSuffix;
    PreparedSame(node, d, p);
    PreparedBody(node, d, p);
    var n := Prepared(node, p);
    var k := CommonPrefix(p, node.prefix);
    var rest := p[k..];
    var before := if k == 0 then None else Some(p[k - 1]);
    NewWildAdds(n, before, rest, v, names);
    assert n.prefix + rest == p;
    AddsFrom(NewWild(n, before, rest, v, names), n, node, p, v, names);
  }

  lemma {:induction false} AddsBelowParam<T>(
    node: Node<T>, d: nat, parent: Option<Node<T>>, p: Tokens, v: T, names: seq<Name>)
    requires WF(node, d) && Enters(node, p) && node.kind.ParamNode? && |p| > 1
    ensures Adds(InsertAt(node, d, parent, p, v, names), node, p, v, names)
    decreases node, 0
  {
    hide Get, PrefixWildInSegment, SuffixWildInSegment, WildInSegment, Promote, SuffixChild, InsertRoute, NewSuffix;
    var n := Prepared(node, p);
    ParamPrepared(node, d, p);
    match IndexOfPrefix(node.children, p[1..][..Terminator(p[1..])])
    case None => InsertAtParam(node, d, parent, p, v, names);
    case Some(i) =>
      assert WF(node.children[i], d + 1) && SuffixShape(node.children[i]);
      InsertAtAdds(node.children[i], d + 1, Some(n), p[1..], v, names);
      var c := InsertAt(node.children[i], d + 1, Some(n), p[1..], v, names);
      SuffixKept(node.children[i].prefix, p[1..]);
      SuffixDescends(node, d, p, v, names, i, c);
  }

  lemma {:induction false} AddsBelowStatic<T>(
    node: Node<T>, d: nat, parent: Option<Node<T>>, p: Tokens, v: T, names: seq<Name>, i: nat)
    requires WF(node, d) && Enters(node, p) && TextKind(node)
    requires var k := CommonPrefix(p, node.prefix);
             k < |p| && p[k].Lit? && IndexOf(Prepared(node, p).indices, p[k].b) == Some(i)
    ensures Adds(InsertAt(node, d, parent, p, v, names), node, p, v, names)
    decreases node, 0
  {
    hide Get, PrefixWildInSegment, SuffixWildInSegment, WildInSegment, Promote, SuffixChild, InsertRoute, NewStatic;
    var k := CommonPrefix(p, node.prefix);
    var n := Prepared(node, p);
    StaticFound(node, d, p, i);
    assert WF(node.children[i], d);
    InsertAtAdds(node.children[i], d, Some(n), p[k..], v, names);
    StaticDescends(node, d, p, v, names, i, InsertAt(node.children[i], d, Some(n), p[k..], v, names));
  }

  lemma {:induction false} AddsBelowWild<T>(
    node: Node<T>, d: nat, parent: Option<Node<T>>, p: Tokens, v: T, names: seq<Name>)
    requires WF(node, d) && Enters(node, p) && TextKind(node) && Prepared(node, p).wildChild
    requires var k := CommonPrefix(p, node.prefix); k < |p| && !p[k].Lit?
    ensures Adds(InsertAt(node, d, parent, p, v, names), node, p, v, names)
    decreases node, 0
  {
    hide Get, PrefixWildInSegment, SuffixWildInSegment, WildInSegment, Promote, SuffixChild, InsertRoute;
    var k := CommonPrefix(p, node.prefix);
    var n := Prepared(node, p);
    WildFound(node, d, p);
    var wild := node.children[|node.children| - 1];
    if WildConflict(n, wild, p[k..]) {
      WildRejects(node, d, p, v, names);
    } else {
      WildEnters(node, d, p);
      InsertAtAdds(wild, d, Some(n), p[k..], v, names);
      WildDescends(node, d, p, v, names, InsertAt(wild, d, Some(n), p[k..], v, names));
    }
  }

  lemma {:induction false} WildEnters<T>(node: Node<T>, d: nat, p: Tokens)
    requires WF(node, d) && TextKind(node) && node.wildChild && node.children != []
    requires |node.prefix| < |p|
    requires !WildConflict(Prepared(node, p), node.children[|node.children| - 1], p[|node.prefix|..])
    ensures Enters(node.children[|node.children| - 1], p[|node.prefix|..])
  {
    var wild := node.children[|node.children| - 1];
    var rest := p[|node.prefix|..];
    assert WF(wild, d);
    assert [rest[0]] == wild.prefix;
  }

  /** One insertion, from the node the walk is at: it stores `p` if and only if it is accepted. */
  lemma {:induction false} InsertAtAdds<T>(
    node: Node<T>, d: nat, parent: Option<Node<T>>, p: Tokens, v: T, names: seq<Name>)
    requires WF(node, d) && Enters(node, p)
    ensures Adds(InsertAt(node, d, parent, p, v, names), node, p, v, names)
    decreases node, 1
  {
    hide Get, InsertAt, Adds;
    var k := CommonPrefix(p, node.prefix);
    var n := Prepared(node, p);
    if k == |p| {
      InsertAtEnd(node, d, parent, p, v, names);
    } else if node.kind.ParamNode? {
      ParamPrepared(node, d, p);
      AddsBelowParam(node, d, parent, p, v, names);
    } else if p[k].Lit? {
      match IndexOf(n.indices, p[k].b)
      case None => InsertAtNewStatic(node, d, parent, p, v, names);
      case Some(i) => AddsBelowStatic(node, d, parent, p, v, names, i);
    } else if n.wildChild {
      AddsBelowWild(node, d, parent, p, v, names);
    } else {
      InsertAtNewWild(node, d, parent, p, v, names);
    }
  }

  lemma {:induction false} SuffixKept(s: Tokens, p: Tokens)
    requires s == p[..Terminator(p)]
    ensures CommonPrefix(p, s) == |s|
  {
  }
}
