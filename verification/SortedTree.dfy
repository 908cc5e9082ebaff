/** In every tree of every run, static children stand in order of falling priority. */
module SortedTree {
  import opened Prelude
  import opened Pattern
  import opened RouteTree
  import opened TreeInsert
  import opened RouteBuild
  import opened InsertProof
  import opened InsertAtProof
  import opened InsertShape
  import opened TreeRemove
  import opened TreeOutcome
  import opened ChildOrder
  import opened LiveTree
  import opened RouteRuns

  ghost predicate SortedBelow<T>(children: seq<Node<T>>)
    decreases children, 0
  {
    forall i | 0 <= i < |children| :: Sorted(children[i])
  }

  ghost predicate Sorted<T>(n: Node<T>)
    decreases n, 1
  {
    |n.indices| <= |n.children| && Falling(n.children, |n.indices|) && SortedBelow(n.children)
  }

  lemma {:induction false} FreshSorted<T>(priority: nat, prefix: Tokens, kind: Kind)
    ensures Sorted<T>(Fresh(priority, prefix, kind))
  {
  }

  /** One more child behind the listed ones. */
  lemma {:induction false} AddWildSorted<T>(n: Node<T>, child: Node<T>)
    requires Sorted(n) && !n.wildChild && Sorted(child)
    ensures Sorted(AddWild(n, child))
  {
    var m := AddWild(n, child);
    assert m.children == n.children + [child];
    assert forall i | 0 <= i < |n.children| :: m.children[i] == n.children[i];
  }

  lemma {:induction false} OneChildSorted<T>(n: Node<T>, child: Node<T>)
    requires n.children == [child] && |n.indices| <= 1 && Sorted(child)
    ensures Sorted(n)
  {
  }

  lemma {:induction false} RouteSorted<T>(n: Node<T>, p: Tokens, v: T, names: seq<Name>)
    requires Sorted(n) && !n.wildChild
    ensures Sorted(InsertRoute(n, p, v, names).node)
    decreases |p|, 0
  {
    var w := FirstWild(p);
    if w == |p| {
      SortedAs(n, WithValue(n.(prefix := p), v, names));
    } else {
      var host := if w > 0 then n.(prefix := p[..w]) else n;
      SortedAs(n, host);
      var q := p[w..];
      if q[0].Catch? {
        var star: Node<T> := WithValue(Fresh(1, q, CatchAll), v, names);
        AddWildSorted(host, star);
      } else {
        var t := Terminator(q[1..]);
        var suffix, rest := q[1..][..t], q[1..][t..];
        ParamSorted(host, suffix, rest, v, names);
      }
    }
  }

  lemma {:induction false} SortedAs<T>(n: Node<T>, m: Node<T>)
    requires Sorted(n) && m.children == n.children && m.indices == n.indices
    ensures Sorted(m)
  {
  }

  lemma {:induction false} ParamSorted<T>(host: Node<T>, suffix: Tokens, rest: Tokens, v: T, names: seq<Name>)
    requires Sorted(host) && !host.wildChild
    ensures Sorted(AddWild(host, WithValue(Fresh(1, [Param], ParamNode(false)), v, names)))
    ensures var s := SuffixChild(suffix, rest, v, names).node;
            Sorted(AddWild(host, Fresh(1, [Param], ParamNode(suffix != [SLASH_TOKEN])).(children := [s])))
    decreases |rest|, 2
  {
    AddWildSorted(host, WithValue(Fresh(1, [Param], ParamNode(false)), v, names));
    SuffixSorted(suffix, rest, v, names);
    var s := SuffixChild(suffix, rest, v, names).node;
    var param := Fresh(1, [Param], ParamNode(suffix != [SLASH_TOKEN])).(children := [s]);
    OneChildSorted(param, s);
    AddWildSorted(host, param);
  }

  lemma {:induction false} SuffixSorted<T>(suffix: Tokens, rest: Tokens, v: T, names: seq<Name>)
    ensures Sorted(SuffixChild(suffix, rest, v, names).node)
    decreases |rest|, 1
  {
    var base: Node<T> := Fresh(1, suffix, Static);
    if rest == [] {
      SortedAs(base, WithValue(base, v, names));
    } else if rest[0].Lit? {
      RouteSorted<T>(Fresh(1, [], Static), rest, v, names);
      var c := InsertRoute<T>(Fresh(1, [], Static), rest, v, names).node;
      OneChildSorted(base.(indices := [rest[0].b], children := [c]), c);
    } else {
      RouteSorted(base, rest, v, names);
    }
  }

  // ----- One child changes -----

  lemma {:induction false} PromoteMembers<T>(children: seq<Node<T>>, indices: bytes, i: nat)
    requires i < |indices| <= |children| && SortedBelow(children)
    ensures SortedBelow(Promote(children, indices, i).children)
    decreases i
  {
    if i > 0 && children[i - 1].priority < children[i].priority {
      var swapped := Swap(children, i);
      forall j | 0 <= j < |swapped| ensures Sorted(swapped[j]) {
        assert swapped[j] == children[if j == i then i - 1 else if j == i - 1 then i else j];
      }
      PromoteMembers(swapped, Swap(indices, i), i - 1);
    }
  }

  lemma {:induction false} ReorderSorted<T>(n: Node<T>, i: nat)
    requires i < |n.indices| <= |n.children| && SortedBelow(n.children) && FallingBut(n.children, |n.indices|, i)
    ensures Sorted(Reorder(n, i))
  {
    hide Falling, FallingBut, Promote;
    PromoteSorts(n.children, n.indices, i);
    PromoteMembers(n.children, n.indices, i);
  }

  lemma {:induction false} PutSorted<T>(n: Node<T>, i: nat, c: Node<T>)
    requires Sorted(n) && i < |n.children| && Sorted(c)
    ensures SortedBelow(n.children[i := c])
    ensures i >= |n.indices| ==> Sorted(n.(children := n.children[i := c]))
    ensures i < |n.indices| && c.priority >= n.children[i].priority ==> FallingBut(n.children[i := c], |n.indices|, i)
  {
    var m := n.children[i := c];
    forall j | 0 <= j < |m| ensures Sorted(m[j]) {
      assert m[j] == if j == i then c else n.children[j];
    }
  }

  lemma {:induction false} PreparedSorted<T>(node: Node<T>, p: Tokens)
    requires Sorted(node) && node.priority >= 1
    ensures Sorted(Prepared(node, p))
  {
    var bumped := node.(priority := node.priority + 1);
    var k := CommonPrefix(p, node.prefix);
    SortedAs(node, bumped);
    if k < |node.prefix| {
      var child := bumped.(prefix := node.prefix[k..], priority := node.priority, kind := Static);
      SortedAs(node, child);
      OneChildSorted(Fork(bumped, k), child);
    }
  }

  // ----- The walk -----

  lemma {:induction false} NewStaticSorted<T>(n: Node<T>, d: nat, rest: Tokens, v: T, names: seq<Name>)
    requires Body(n, d) && Sorted(n) && rest != [] && rest[0].Lit? && rest[0].b !in n.indices
    ensures Sorted(NewStatic(n, rest, v, names).node)
  {
    hide WF, PrefixWildInSegment, SuffixWildInSegment, Promote;
    if !StaticConflict(n, rest) {
      RouteSorted<T>(Fresh(1, [], Static), rest, v, names);
      var c := InsertRoute<T>(Fresh(1, [], Static), rest, v, names).node;
      var m := WithStatic(n, rest[0].b, c);
      WithStaticTable(n, rest[0].b, c);
      WithStaticFalls(n, rest[0].b, c);
      ReorderSorted(m, |n.indices|);
    }
  }

  lemma {:induction false} WithStaticFalls<T>(n: Node<T>, b: byte, c: Node<T>)
    requires Sorted(n) && Sorted(c) && |n.children| == |n.indices| + (if n.wildChild then 1 else 0)
    ensures var m := WithStatic(n, b, c);
            |m.indices| <= |m.children| && SortedBelow(m.children) && FallingBut(m.children, |m.indices|, |n.indices|)
  {
    var m, k := WithStatic(n, b, c), |n.indices|;
    forall j | 0 <= j < |m.children|
      ensures m.children[j] == if j < k then n.children[j] else if j == k then c else n.children[j - 1]
    {}
    forall j | 0 <= j < |m.children| ensures Sorted(m.children[j]) {
      assert j < k ==> Sorted(n.children[j]);
      assert j > k ==> Sorted(n.children[j - 1]);
    }
  }

  lemma {:induction false} NewSuffixSorted<T>(n: Node<T>, parent: Option<Node<T>>, rest: Tokens, v: T, names: seq<Name>)
    requires n.kind.ParamNode? && Sorted(n) && n.indices == []
    ensures Sorted(NewSuffix(n, parent, rest, v, names).node)
  {
    hide PrefixWildInSegment;
    var t := Terminator(rest);
    var suffix := rest[..t];
    if !SuffixConflict(n, parent, suffix) && !HasWild(suffix) {
      SuffixSorted(suffix, rest[t..], v, names);
      var s := SuffixChild(suffix, rest[t..], v, names).node;
      var m := WithSuffix(n, s);
      forall j | 0 <= j < |m.children| ensures Sorted(m.children[j]) {
        assert m.children[j] == s || m.children[j] in n.children;
      }
    }
  }

  lemma {:induction false} SortedNewChild<T>(
    node: Node<T>, d: nat, parent: Option<Node<T>>, p: Tokens, v: T, names: seq<Name>)
    requires WF(node, d) && node.priority >= 1 && Enters(node, p) && Sorted(node) && TextKind(node)
    requires var k := CommonPrefix(p, node.prefix);
             k < |p| && (if p[k].Lit? then p[k].b !in Prepared(node, p).indices else !Prepared(node, p).wildChild)
    ensures Sorted(InsertAt(node, d, parent, p, v, names).node)
  {
    hide WF, PrefixWildInSegment, SuffixWildInSegment, Promote, SuffixChild, InsertRoute, NewStatic, NewSuffix, Sorted;
    var k := CommonPrefix(p, node.prefix);
    var n := Prepared(node, p);
    PreparedBody(node, d, p);
    PreparedSorted(node, p);
    if p[k].Lit? {
      NewStaticSorted(n, d, p[k..], v, names);
    } else {
      RouteSorted(n, p[k..], v, names);
    }
  }

  lemma {:induction false} SortedBelowChild<T>(
    node: Node<T>, d: nat, parent: Option<Node<T>>, p: Tokens, v: T, names: seq<Name>, i: nat)
    requires WF(node, d) && node.priority >= 1 && Enters(node, p) && Sorted(node)
    requires var k := CommonPrefix(p, node.prefix);
             k < |p| && ChildIndex(Prepared(node, p), p[k..]) == Some(i)
    ensures Sorted(InsertAt(node, d, parent, p, v, names).node)
    decreases node, 0
  {
    hide WF, PrefixWildInSegment, SuffixWildInSegment, Promote, SuffixChild, InsertRoute, NewStatic, NewSuffix,
      NewWild, Reorder, Falling, FallingBut;
    var k := CommonPrefix(p, node.prefix);
    var n := Prepared(node, p);
    var rest := p[k..];
    assert rest[0] == p[k];
    PreparedSorted(node, p);
    ChildTaken(node, d, p, i);
    ChildWF(node, d, i);
    var child := node.children[i];
    assert Sorted(child);
    if TextKind(node) && !rest[0].Lit? && WildConflict(n, child, rest) {
      SortedAs(child, child.(priority := child.priority + 1));
      WildIsUnlisted(node, d);
      PutSorted(n, i, child.(priority := child.priority + 1));
    } else {
      ChildEntered(node, d, p, i);
      InsertAtSorted(child, Depth(node, d), Some(n), rest, v, names);
      var c := InsertAt(child, Depth(node, d), Some(n), rest, v, names).node;
      PutSorted(n, i, c);
      if TextKind(node) && rest[0].Lit? {
        ReorderSorted(n.(children := n.children[i := c]), i);
      } else {
        WildIsUnlisted(node, d);
      }
    }
  }

  /** The wildcard child, and the suffixes of a parameter, stand behind the listed children. */
  lemma {:induction false} WildIsUnlisted<T>(n: Node<T>, d: nat)
    requires WF(n, d)
    ensures n.kind.ParamNode? ==> n.indices == []
    ensures TextKind(n) && n.wildChild ==> |n.indices| == |n.children| - 1
  {
  }

  lemma {:induction false} SortedNewSuffix<T>(
    node: Node<T>, d: nat, parent: Option<Node<T>>, p: Tokens, v: T, names: seq<Name>)
    requires WF(node, d) && node.priority >= 1 && Enters(node, p) && Sorted(node) && node.kind.ParamNode? && |p| > 1
    requires ChildIndex(Prepared(node, p), p[CommonPrefix(p, node.prefix)..]) == None
    ensures Sorted(InsertAt(node, d, parent, p, v, names).node)
  {
    hide PrefixWildInSegment, SuffixWildInSegment, Promote, SuffixChild, InsertRoute, NewStatic, NewSuffix, NewWild,
      Sorted;
    ParamPrepared(node, d, p);
    PreparedSorted(node, p);
    NewSuffixSorted(Prepared(node, p), parent, p[1..], v, names);
  }

  lemma {:induction false} SortedEnd<T>(
    node: Node<T>, d: nat, parent: Option<Node<T>>, p: Tokens, v: T, names: seq<Name>)
    requires WF(node, d) && node.priority >= 1 && Enters(node, p) && Sorted(node) && CommonPrefix(p, node.prefix) == |p|
    ensures Sorted(InsertAt(node, d, parent, p, v, names).node)
  {
    hide PrefixWildInSegment, SuffixWildInSegment, Promote, SuffixChild, InsertRoute, NewStatic, NewSuffix, NewWild,
      Sorted;
    PreparedSorted(node, p);
    SortedAs(Prepared(node, p), WithValue(Prepared(node, p), v, names));
  }

  /** The walk, whatever it answers, keeps the order at every node it passes. */
  lemma {:induction false} InsertAtSorted<T>(
    node: Node<T>, d: nat, parent: Option<Node<T>>, p: Tokens, v: T, names: seq<Name>)
    requires WF(node, d) && node.priority >= 1 && Enters(node, p) && Sorted(node)
    ensures Sorted(InsertAt(node, d, parent, p, v, names).node)
    decreases node, 1
  {
    hide WF, InsertAt, Sorted;
    var k := CommonPrefix(p, node.prefix);
    if k == |p| {
      SortedEnd(node, d, parent, p, v, names);
    } else {
      var n := Prepared(node, p);
      assert p[k..][0] == p[k];
      match ChildIndex(n, p[k..])
      case Some(i) => SortedBelowChild(node, d, parent, p, v, names, i);
      case None =>
        if node.kind.ParamNode? {
          ParamPrepared(node, d, p);
          SortedNewSuffix(node, d, parent, p, v, names);
        } else {
          NoChildTaken(node, d, p);
          SortedNewChild(node, d, parent, p, v, names);
        }
    }
  }

  lemma {:induction false} InsertSorted<T>(t: Node<T>, p: Tokens, v: T, names: seq<Name>)
    requires TreeShape(t) && Sorted(t)
    ensures Sorted(Insert(t, p, v, names).node)
  {
    hide Sorted;
    if t.value.None? && t.children == [] {
      var n := t.(priority := t.priority + 1);
      EmptiedTree(t);
      SortedAs(t, n);
      RouteSorted(n, p, v, names);
      var r := InsertRoute(n, p, v, names).node;
      SortedAs(r, r.(kind := Root));
    } else {
      InsertAtSorted(t, 0, None, p, v, names);
    }
  }

  // ----- Removing -----

  lemma {:induction false} RemoveChildSorted<T>(n: Node<T>, d: nat, i: nat, names: seq<Name>)
    requires WF(n, d) && Sorted(n) && i < |n.children| && (TextShape(n) || n.kind.ParamNode?)
    ensures Sorted(RemoveChild(n, i, names).node)
  {
    var r, c := RemoveChild(n, i, names).node, n.children[i];
    if c.remapping == names {
      if c.children == [] {
        forall j | 0 <= j < |r.children| ensures Sorted(r.children[j]) {
          assert r.children[j] == n.children[if j < i then j else j + 1];
        }
        RemoveChildFalls(n, d, i, names);
      } else {
        SortedAs(c, c.(value := None));
        var m := n.children[i := c.(value := None)];
        forall j | 0 <= j < |m| ensures Sorted(m[j]) && m[j].priority == n.children[j].priority {
          assert m[j] == if j == i then c.(value := None) else n.children[j];
        }
      }
    }
  }

  lemma {:induction false} RemoveChildFalls<T>(n: Node<T>, d: nat, i: nat, names: seq<Name>)
    requires WF(n, d) && Sorted(n) && i < |n.children| && (TextShape(n) || n.kind.ParamNode?)
    requires n.children[i].remapping == names && n.children[i].children == []
    ensures var r := RemoveChild(n, i, names).node; |r.indices| <= |r.children| && Falling(r.children, |r.indices|)
  {
    if i < |n.indices| {
      assert !n.kind.ParamNode?;
      assert Heads(n.children[i], n.indices[i]);
    }
  }

  lemma {:induction false} RemoveAtSorted<T>(node: Node<T>, d: nat, p: Tokens, names: seq<Name>)
    requires WF(node, d) && Sorted(node)
    ensures Sorted(RemoveAt(node, d, p, names).node)
    decreases node, 1
  {
    hide RemoveChild, Sorted;
    if node.prefix < p {
      var rest := p[|node.prefix|..];
      forall i: nat | i < |node.children|
        ensures Sorted(RemoveBelow(node, d, i, rest, names).node)
      {
        RemoveBelowSorted(node, d, i, rest, names);
      }
      forall i: nat | i < |node.children| && (TextShape(node) || node.kind.ParamNode?)
        ensures Sorted(RemoveChild(node, i, names).node)
      {
        RemoveChildSorted(node, d, i, names);
      }
      hide RemoveBelow;
    }
  }

  lemma {:induction false} RemoveBelowSorted<T>(node: Node<T>, d: nat, i: nat, rest: Tokens, names: seq<Name>)
    requires WF(node, d) && Sorted(node) && i < |node.children|
    ensures Sorted(RemoveBelow(node, d, i, rest, names).node)
    decreases node, 0
  {
    ChildWF(node, d, i);
    var c := node.children[i];
    RemoveAtSorted(c, Depth(node, d), rest, names);
    var r := RemoveAt(c, Depth(node, d), rest, names).node;
    var m := node.children[i := r];
    forall j | 0 <= j < |m| ensures Sorted(m[j]) && m[j].priority == node.children[j].priority {
      assert m[j] == if j == i then r else node.children[j];
    }
  }

  lemma {:induction false} RemoveSorted<T>(t: Node<T>, p: Tokens, names: seq<Name>)
    requires TreeShape(t) && Sorted(t)
    ensures Sorted(Remove(t, p, names).node)
  {
    if p == t.prefix {
      SortedAs(t, t.(value := None));
      FreshSorted<T>(0, [], Static);
    } else if t.kind.Root? {
      RemoveAtSorted(t, 0, p, names);
    }
  }

  // ----- Runs -----

  /** Every tree of every run, whatever was inserted, refused and removed, is in order at every node. */
  lemma {:induction false} RunSorted<T>(
    trees: seq<Node<T>>, tables: seq<map<Tokens, Route<T>>>, ops: seq<Op<T>>, i: nat)
    requires Run(trees, tables, ops) && i <= |ops|
    ensures Sorted(trees[i])
  {
    hide Sorted, TableStep, Stored, Denotes, Insert, Remove;
    if i == 0 {
      FreshSorted<T>(0, [], Static);
    } else {
      RunSorted(trees, tables, ops, i - 1);
      RunDenotes(trees, tables, ops, i - 1);
      match ops[i - 1]
      case Add(p, v, names) => InsertSorted(trees[i - 1], p, v, names);
      case Drop(p, names) => RemoveSorted(trees[i - 1], p, names);
    }
  }
}
