/** Insertions leave no dead ends: every childless node holds a value. */
module LiveTree {
  import opened Prelude
  import opened Pattern
  import opened RouteTree
  import opened TreeInsert
  import opened RouteBuild
  import opened InsertProof
  import opened InsertAtProof
  import opened InsertShape
  import opened TreeOutcome
  import opened Acceptance

  ghost predicate LiveBelow<T>(n: Node<T>) {
    forall i | 0 <= i < |n.children| :: Live(n.children[i])
  }

  lemma {:induction false} RouteLive<T>(n: Node<T>, p: Tokens, v: T, names: seq<Name>)
    requires LiveBelow(n) && !n.wildChild && InsertRoute(n, p, v, names).outcome.Ok?
    ensures Live(InsertRoute(n, p, v, names).node)
    decreases |p|, 0
  {
    var w := FirstWild(p);
    if w < |p| {
      var q := p[w..];
      if q[0].Param? {
        var t := Terminator(q[1..]);
        if q[1..][..t] != [] && !HasWild(q[1..][..t]) {
          SuffixLive(q[1..][..t], q[1..][t..], v, names);
        }
      }
    }
  }

  lemma {:induction false} SuffixLive<T>(suffix: Tokens, rest: Tokens, v: T, names: seq<Name>)
    requires SuffixChild(suffix, rest, v, names).outcome.Ok?
    ensures Live(SuffixChild(suffix, rest, v, names).node)
    decreases |rest|, 1
  {
    if rest != [] {
      RouteLive<T>(if rest[0].Lit? then Fresh(1, [], Static) else Fresh(1, suffix, Static), rest, v, names);
    }
  }

  lemma {:induction false} PreparedLive<T>(node: Node<T>, p: Tokens)
    requires Live(node) && node.priority >= 1
    ensures Live(Prepared(node, p)) && LiveBelow(Prepared(node, p))
  {
    var bumped := node.(priority := node.priority + 1);
    var k := CommonPrefix(p, node.prefix);
    if k < |node.prefix| {
      var child := bumped.(prefix := node.prefix[k..], priority := node.priority, kind := Static);
      assert Live(child);
      assert Fork(bumped, k).children == [child];
    }
  }

  lemma {:induction false} PutLive<T>(n: Node<T>, i: nat, c: Node<T>)
    requires LiveBelow(n) && i < |n.children| && Live(c)
    ensures Live(n.(children := n.children[i := c])) && LiveBelow(n.(children := n.children[i := c]))
  {
  }

  lemma {:induction false} ReorderLive<T>(n: Node<T>, i: nat)
    requires LiveBelow(n) && i < |n.indices| <= |n.children|
    ensures Live(Reorder(n, i))
    decreases i
  {
    if i > 0 && n.children[i - 1].priority < n.children[i].priority {
      var m := n.(children := Swap(n.children, i), indices := Swap(n.indices, i));
      forall j | 0 <= j < |m.children| ensures Live(m.children[j]) {
        assert m.children[j] == n.children[if j == i then i - 1 else if j == i - 1 then i else j];
      }
      ReorderLive(m, i - 1);
    }
  }

  lemma {:induction false} NewStaticLive<T>(n: Node<T>, d: nat, rest: Tokens, v: T, names: seq<Name>)
    requires Body(n, d) && Live(n) && rest != [] && rest[0].Lit? && rest[0].b !in n.indices
    requires NewStatic(n, rest, v, names).outcome in {Ok, Err(Conflict)}
    ensures Live(NewStatic(n, rest, v, names).node)
  {
    hide WF, PrefixWildInSegment, SuffixWildInSegment;
    if !StaticConflict(n, rest) {
      var blank: Node<T> := Fresh(1, [], Static);
      NeverConflicts(blank, rest, v, names);
      RouteLive(blank, rest, v, names);
      var c := InsertRoute(blank, rest, v, names).node;
      var m := WithStatic(n, rest[0].b, c);
      WithStaticTable(n, rest[0].b, c);
      forall j | 0 <= j < |m.children| ensures Live(m.children[j]) {
        assert m.children[j] == c || m.children[j] in n.children;
      }
      ReorderLive(m, |n.indices|);
    }
  }

  lemma {:induction false} NewSuffixLive<T>(n: Node<T>, parent: Option<Node<T>>, rest: Tokens, v: T, names: seq<Name>)
    requires n.kind.ParamNode? && Live(n)
    requires NewSuffix(n, parent, rest, v, names).outcome in {Ok, Err(Conflict)}
    ensures Live(NewSuffix(n, parent, rest, v, names).node)
  {
    hide PrefixWildInSegment;
    var t := Terminator(rest);
    var suffix := rest[..t];
    SuffixNeverConflicts(suffix, rest[t..], v, names);
    if !SuffixConflict(n, parent, suffix) && !HasWild(suffix) {
      SuffixLive(suffix, rest[t..], v, names);
      var s := SuffixChild(suffix, rest[t..], v, names).node;
      var m := WithSuffix(n, s);
      forall j | 0 <= j < |m.children| ensures Live(m.children[j]) {
        assert m.children[j] == s || m.children[j] in n.children;
      }
    }
  }

  lemma {:induction false} LiveNewChild<T>(
    node: Node<T>, d: nat, parent: Option<Node<T>>, p: Tokens, v: T, names: seq<Name>)
    requires WF(node, d) && node.priority >= 1 && Enters(node, p) && Live(node) && TextKind(node)
    requires var k := CommonPrefix(p, node.prefix);
             k < |p| && (if p[k].Lit? then p[k].b !in Prepared(node, p).indices else !Prepared(node, p).wildChild)
    requires InsertAt(node, d, parent, p, v, names).outcome in {Ok, Err(Conflict)}
    ensures Live(InsertAt(node, d, parent, p, v, names).node)
  {
    hide WF, PrefixWildInSegment, SuffixWildInSegment, Promote, SuffixChild, InsertRoute, NewStatic, NewSuffix;
    var k := CommonPrefix(p, node.prefix);
    var n := Prepared(node, p);
    PreparedBody(node, d, p);
    PreparedLive(node, p);
    if p[k].Lit? {
      NewStaticLive(n, d, p[k..], v, names);
    } else {
      NeverConflicts(n, p[k..], v, names);
      if InsertRoute(n, p[k..], v, names).outcome.Ok? {
        RouteLive(n, p[k..], v, names);
      }
    }
  }

  lemma {:induction false} LiveBelowChild<T>(
    node: Node<T>, d: nat, parent: Option<Node<T>>, p: Tokens, v: T, names: seq<Name>, i: nat)
    requires WF(node, d) && node.priority >= 1 && Enters(node, p) && Live(node)
    requires var k := CommonPrefix(p, node.prefix);
             k < |p| && ChildIndex(Prepared(node, p), p[k..]) == Some(i)
    requires InsertAt(node, d, parent, p, v, names).outcome in {Ok, Err(Conflict)}
    ensures Live(InsertAt(node, d, parent, p, v, names).node)
    decreases node, 0
  {
    hide WF, PrefixWildInSegment, SuffixWildInSegment, Promote, SuffixChild, InsertRoute, NewStatic, NewSuffix,
      NewWild, Reorder, Live;
    var k := CommonPrefix(p, node.prefix);
    var n := Prepared(node, p);
    var rest := p[k..];
    assert rest[0] == p[k];
    PreparedLive(node, p);
    ChildTaken(node, d, p, i);
    ChildWF(node, d, i);
    var child := node.children[i];
    LiveChild(node, i);
    if TextKind(node) && !rest[0].Lit? && WildConflict(n, child, rest) {
      PutLive(n, i, child.(priority := child.priority + 1));
    } else {
      ChildEntered(node, d, p, i);
      InsertAtLive(child, Depth(node, d), Some(n), rest, v, names);
      var c := InsertAt(child, Depth(node, d), Some(n), rest, v, names).node;
      PutLive(n, i, c);
      if TextKind(node) && rest[0].Lit? {
        ReorderLive(n.(children := n.children[i := c]), i);
      }
    }
  }

  lemma {:induction false} LiveChild<T>(n: Node<T>, i: nat)
    requires Live(n) && i < |n.children|
    ensures Live(n.children[i]) && Live(n.children[i].(priority := n.children[i].priority + 1))
  {
  }

  /** The child the walk goes on to belongs to the unforked node. */
  lemma {:induction false} ChildTaken<T>(node: Node<T>, d: nat, p: Tokens, i: nat)
    requires WF(node, d) && Enters(node, p)
    requires var k := CommonPrefix(p, node.prefix); k < |p| && ChildIndex(Prepared(node, p), p[k..]) == Some(i)
    ensures CommonPrefix(p, node.prefix) == |node.prefix| && i < |node.children|
    ensures Prepared(node, p) == node.(priority := node.priority + 1)
    ensures TextKind(node) || node.kind.ParamNode?
    ensures TextKind(node) ==> |node.indices| <= |node.children|
    ensures var rest := p[CommonPrefix(p, node.prefix)..];
            TextKind(node) ==> (if rest[0].Lit? then IndexOf(node.indices, rest[0].b) == Some(i) && i < |node.indices|
                                else node.wildChild && i == |node.children| - 1)
  {
    var k := CommonPrefix(p, node.prefix);
    assert p[k..][0] == p[k];
    if node.kind.ParamNode? {
      ParamPrepared(node, d, p);
    } else if p[k].Lit? {
      StaticFound(node, d, p, IndexOf(Prepared(node, p).indices, p[k].b).value);
    } else {
      WildFound(node, d, p);
    }
  }

  lemma {:induction false} ChildEntered<T>(node: Node<T>, d: nat, p: Tokens, i: nat)
    requires WF(node, d) && node.priority >= 1 && |node.prefix| < |p| && i < |node.children| &&
             (TextKind(node) || node.kind.ParamNode?)
    requires ChildIndex(node, p[|node.prefix|..]) == Some(i)
    requires var rest := p[|node.prefix|..];
             TextKind(node) && !rest[0].Lit? ==> !WildConflict(Prepared(node, p), node.children[i], rest)
    ensures Enters(node.children[i], p[|node.prefix|..])
  {
    ChildWF(node, d, i);
    var rest := p[|node.prefix|..];
    assert rest[..1] == [rest[0]];
  }

  lemma {:induction false} InsertAtLive<T>(
    node: Node<T>, d: nat, parent: Option<Node<T>>, p: Tokens, v: T, names: seq<Name>)
    requires WF(node, d) && node.priority >= 1 && Enters(node, p) && Live(node)
    requires InsertAt(node, d, parent, p, v, names).outcome in {Ok, Err(Conflict)}
    ensures Live(InsertAt(node, d, parent, p, v, names).node)
    decreases node, 1
  {
    hide WF, InsertAt;
    var k := CommonPrefix(p, node.prefix);
    if k == |p| {
      LiveEnd(node, d, parent, p, v, names);
    } else {
      var n := Prepared(node, p);
      assert p[k..][0] == p[k];
      match ChildIndex(n, p[k..])
      case Some(i) => LiveBelowChild(node, d, parent, p, v, names, i);
      case None =>
        if node.kind.ParamNode? {
          ParamPrepared(node, d, p);
          LiveNewSuffix(node, d, parent, p, v, names);
        } else {
          NoChildTaken(node, d, p);
          LiveNewChild(node, d, parent, p, v, names);
        }
    }
  }

  lemma {:induction false} NoChildTaken<T>(node: Node<T>, d: nat, p: Tokens)
    requires WF(node, d) && node.priority >= 1 && Enters(node, p) && !node.kind.ParamNode?
    requires var k := CommonPrefix(p, node.prefix); k < |p| && ChildIndex(Prepared(node, p), p[k..]) == None
    ensures var k := CommonPrefix(p, node.prefix);
            if p[k].Lit? then p[k].b !in Prepared(node, p).indices else !Prepared(node, p).wildChild
    ensures TextKind(node)
  {
    PreparedBody(node, d, p);
    var k := CommonPrefix(p, node.prefix);
    assert p[k..][0] == p[k];
  }

  lemma {:induction false} LiveNewSuffix<T>(
    node: Node<T>, d: nat, parent: Option<Node<T>>, p: Tokens, v: T, names: seq<Name>)
    requires WF(node, d) && node.priority >= 1 && Enters(node, p) && Live(node) && node.kind.ParamNode? && |p| > 1
    requires ChildIndex(Prepared(node, p), p[CommonPrefix(p, node.prefix)..]) == None
    requires InsertAt(node, d, parent, p, v, names).outcome in {Ok, Err(Conflict)}
    ensures Live(InsertAt(node, d, parent, p, v, names).node)
  {
    hide PrefixWildInSegment, SuffixWildInSegment, Promote, SuffixChild, InsertRoute, NewStatic, NewSuffix, NewWild;
    ParamPrepared(node, d, p);
    PreparedLive(node, p);
    NewSuffixLive(Prepared(node, p), parent, p[1..], v, names);
  }

  lemma {:induction false} LiveEnd<T>(node: Node<T>, d: nat, parent: Option<Node<T>>, p: Tokens, v: T, names: seq<Name>)
    requires WF(node, d) && node.priority >= 1 && Enters(node, p) && Live(node) && CommonPrefix(p, node.prefix) == |p|
    ensures Live(InsertAt(node, d, parent, p, v, names).node)
  {
    hide PrefixWildInSegment, SuffixWildInSegment, Promote, SuffixChild, InsertRoute, NewStatic, NewSuffix, NewWild;
    PreparedLive(node, p);
  }

  /** A tree that was only ever inserted into. */
  ghost predicate OnlyGrown<T>(t: Node<T>) {
    t == Empty() || Live(t)
  }

  lemma {:induction false} InsertLive<T>(t: Node<T>, p: Tokens, v: T, names: seq<Name>)
    requires TreeShape(t) && OnlyGrown(t)
    requires Insert(t, p, v, names).outcome in {Ok, Err(Conflict)}
    ensures Live(Insert(t, p, v, names).node)
  {
    if t.value.None? && t.children == [] {
      var n := t.(priority := t.priority + 1);
      NeverConflicts(n, p, v, names);
      RouteLive(n, p, v, names);
    } else {
      InsertAtLive(t, 0, None, p, v, names);
    }
  }
}
