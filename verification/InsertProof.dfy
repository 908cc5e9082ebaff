/** What one insertion does to the routes and to the shape of the tree. */
module InsertProof {
  import opened Prelude
  import opened Pattern
  import opened RouteTree
  import opened TreeInsert
  import opened RouteBuild

  // ----- Steps that leave the routes alone -----

  lemma {:induction false} BumpGet<T>(n: Node<T>, priority: nat, x: Tokens)
    ensures Get(n.(priority := priority), x) == Get(n, x)
  {
  }

  lemma {:induction false} ForkGet<T>(n: Node<T>, k: nat, x: Tokens)
    requires AllLit(n.prefix) && !n.kind.ParamNode? && k < |n.prefix| && n.priority > 0
    ensures Get(Fork(n, k), x) == Get(n, x)
  {
    var f := Fork(n, k);
    var child := n.(prefix := n.prefix[k..], priority := n.priority - 1, kind := Static);
    if f.prefix <= x && k < |x| {
      var rest := x[k..];
      assert x == n.prefix[..k] + rest;
      assert n.prefix == n.prefix[..k] + n.prefix[k..];
      assert n.prefix <= x <==> child.prefix <= rest;
      if n.prefix <= x {
        assert rest[|child.prefix|..] == x[|n.prefix|..];
        assert rest[0] == n.prefix[k];
      }
    }
  }

  /** Replacing the child that `x` goes through, or any other child, by one listed the same way. */
  lemma {:induction false} ReplaceGet<T>(n: Node<T>, i: nat, c: Node<T>, x: Tokens)
    requires i < |n.children|
    requires n.kind.ParamNode? ==> c.prefix == n.children[i].prefix
    ensures Get(n.(children := n.children[i := c]), x) ==
            if n.prefix < x && ChildIndex(n, x[|n.prefix|..]) == Some(i)
            then Get(c, x[|n.prefix|..]) else Get(n, x)
  {
    var m := n.(children := n.children[i := c]);
    if n.prefix < x {
      var rest := x[|n.prefix|..];
      if n.kind.ParamNode? {
        SamePrefixes(n.children, n.children[i := c], rest[..Terminator(rest)]);
      }
      assert ChildIndex(m, rest) == ChildIndex(n, rest);
    }
  }

  lemma {:induction false} SamePrefixes<T>(a: seq<Node<T>>, b: seq<Node<T>>, p: Tokens)
    requires |a| == |b| && forall i | 0 <= i < |a| :: a[i].prefix == b[i].prefix
    ensures IndexOfPrefix(a, p) == IndexOfPrefix(b, p)
  {
    if a != [] {
      assert a[0].prefix == b[0].prefix;
      SamePrefixes(a[1..], b[1..], p);
    }
  }

  ghost predicate Distinct(s: bytes) {
    forall i, j | 0 <= i < j < |s| :: s[i] != s[j]
  }

  lemma {:induction false} IndexOfAt(s: bytes, i: nat)
    requires Distinct(s) && i < |s|
    ensures IndexOf(s, s[i]) == Some(i)
  {
    var j := IndexOf(s, s[i]).value;
    assert s[j] == s[i];
  }

  /** The child a route goes on to, if any. */
  ghost function Picked<T>(n: Node<T>, rest: Tokens): Option<Node<T>>
    requires rest != []
  {
    match ChildIndex(n, rest) case None => None case Some(i) => Some(n.children[i])
  }

  ghost function GetIn<T>(c: Option<Node<T>>, x: Tokens): Option<Route<T>> {
    match c case None => None case Some(n) => Get(n, x)
  }

  lemma {:induction false} GetByPick<T>(n: Node<T>, x: Tokens)
    requires n.prefix < x
    ensures Get(n, x) == GetIn(Picked(n, x[|n.prefix|..]), x[|n.prefix|..])
  {
  }

  /** Two nodes with the same text and value hold the same routes when they pick the same children. */
  lemma {:induction false} SamePickSameGet<T>(n: Node<T>, m: Node<T>, x: Tokens)
    requires n.prefix == m.prefix && n.value == m.value && n.remapping == m.remapping
    requires n.prefix < x ==> Picked(n, x[|n.prefix|..]) == Picked(m, x[|n.prefix|..])
    ensures Get(n, x) == Get(m, x)
  {
    if n.prefix < x {
      GetByPick(n, x);
      GetByPick(m, x);
    }
  }

  ghost predicate TextKind<T>(n: Node<T>) {
    n.kind.Static? || n.kind.Root?
  }

  lemma {:induction false} PickAt<T>(n: Node<T>, rest: Tokens, i: nat)
    requires TextKind(n) && rest != [] && rest[0].Lit? && Distinct(n.indices) && i < |n.indices| <= |n.children|
    requires n.indices[i] == rest[0].b
    ensures Picked(n, rest) == Some(n.children[i])
  {
    IndexOfAt(n.indices, i);
  }

  lemma {:induction false} PickNone<T>(n: Node<T>, rest: Tokens)
    requires TextKind(n) && rest != [] && rest[0].Lit? && rest[0].b !in n.indices
    ensures Picked(n, rest) == None
  {
  }

  lemma {:induction false} PickWild<T>(n: Node<T>, rest: Tokens)
    requires TextKind(n) && rest != [] && !rest[0].Lit?
    ensures Picked(n, rest) == if n.wildChild && n.children != [] then Some(n.children[|n.children| - 1]) else None
  {
  }

  lemma {:induction false} SwapPick<T>(n: Node<T>, i: nat, rest: Tokens)
    requires 0 < i < |n.indices| <= |n.children| && Distinct(n.indices) && TextKind(n) && rest != []
    requires n.wildChild ==> i + 1 < |n.children|
    ensures Picked(n.(children := Swap(n.children, i), indices := Swap(n.indices, i)), rest) == Picked(n, rest)
  {
    var m := n.(children := Swap(n.children, i), indices := Swap(n.indices, i));
    SwapDistinct(n.indices, i);
    if !rest[0].Lit? {
      PickWild(n, rest);
      PickWild(m, rest);
    } else if rest[0].b in n.indices {
      var j := IndexOf(n.indices, rest[0].b).value;
      PickAt(n, rest, j);
      PickAt(m, rest, if j == i then i - 1 else if j == i - 1 then i else j);
    } else {
      assert rest[0].b !in m.indices;
    }
  }

  lemma {:induction false} SwapDistinct(s: bytes, i: nat)
    requires 0 < i < |s| && Distinct(s)
    ensures Distinct(Swap(s, i))
    ensures forall b :: b in Swap(s, i) <==> b in s
  {
    var r := Swap(s, i);
    forall b | b in s ensures b in r {
      var j :| 0 <= j < |s| && s[j] == b;
      assert r[if j == i then i - 1 else if j == i - 1 then i else j] == b;
    }
  }

  lemma {:induction false} SwapGet<T>(n: Node<T>, i: nat, x: Tokens)
    requires 0 < i < |n.indices| <= |n.children| && Distinct(n.indices) && TextKind(n)
    requires n.wildChild ==> i + 1 < |n.children|
    ensures Get(n.(children := Swap(n.children, i), indices := Swap(n.indices, i)), x) == Get(n, x)
  {
    var m := n.(children := Swap(n.children, i), indices := Swap(n.indices, i));
    if n.prefix < x {
      SwapPick(n, i, x[|n.prefix|..]);
    }
    SamePickSameGet(n, m, x);
  }

  lemma {:induction false} PromoteGet<T>(n: Node<T>, i: nat, x: Tokens)
    requires i < |n.indices| <= |n.children| && Distinct(n.indices) && TextKind(n)
    requires n.wildChild ==> |n.indices| < |n.children|
    ensures Get(Reorder(n, i), x) == Get(n, x)
    decreases i
  {
    if i > 0 && n.children[i - 1].priority < n.children[i].priority {
      var m := n.(children := Swap(n.children, i), indices := Swap(n.indices, i));
      SwapGet(n, i, x);
      SwapDistinct(n.indices, i);
      PromoteGet(m, i - 1, x);
    }
  }

  // ----- New children -----

  lemma {:induction false} WithStaticTable<T>(n: Node<T>, b: byte, c: Node<T>)
    requires TextShape(n) && b !in n.indices
    ensures var m := WithStatic(n, b, c);
            && |m.children| == |n.children| + 1 && m.children[|n.indices|] == c
            && (forall i | 0 <= i < |n.indices| :: m.children[i] == n.children[i])
            && (n.wildChild ==> m.children[|n.children|] == n.children[|n.children| - 1])
            && Distinct(m.indices)
  {
  }

  lemma {:induction false} WithStaticPick<T>(n: Node<T>, b: byte, c: Node<T>, y: Tokens)
    requires TextShape(n) && TextKind(n) && b !in n.indices && y != []
    ensures Picked(WithStatic(n, b, c), y) == if y[0] == Lit(b) then Some(c) else Picked(n, y)
  {
    var m := WithStatic(n, b, c);
    WithStaticTable(n, b, c);
    if !y[0].Lit? {
      PickWild(n, y);
      PickWild(m, y);
    } else if y[0].b == b {
      PickAt(m, y, |n.indices|);
    } else if y[0].b in n.indices {
      var j := IndexOf(n.indices, y[0].b).value;
      PickAt(n, y, j);
      PickAt(m, y, j);
    } else {
      PickNone(n, y);
      PickNone(m, y);
    }
  }

  lemma {:induction false} WithStaticGet<T>(n: Node<T>, b: byte, c: Node<T>, x: Tokens)
    requires TextShape(n) && TextKind(n) && b !in n.indices
    ensures Get(WithStatic(n, b, c), x) ==
            if n.prefix < x && x[|n.prefix|] == Lit(b) then Get(c, x[|n.prefix|..]) else Get(n, x)
  {
    var m := WithStatic(n, b, c);
    if n.prefix < x {
      WithStaticPick(n, b, c, x[|n.prefix|..]);
      GetByPick(n, x);
      GetByPick(m, x);
    }
  }

  lemma {:induction false} NewStaticGet<T>(n: Node<T>, d: nat, rest: Tokens, v: T, names: seq<Name>, x: Tokens)
    requires Body(n, d) && rest != [] && rest[0].Lit? && rest[0].b !in n.indices
    ensures var r := NewStatic(n, rest, v, names);
            Get(r.node, x) == Written(r, n.prefix + rest, x, v, names, Get(n, x))
    ensures Get(n, n.prefix + rest) == None
  {
    NotPickedNotHeld(n, rest);
    if !StaticConflict(n, rest) {
      var c := InsertRoute(Fresh(1, [], Static), rest, v, names);
      var m := WithStatic(n, rest[0].b, c.node);
      WithStaticTable(n, rest[0].b, c.node);
      PromoteGet(m, |n.indices|, x);
      WithStaticGet(n, rest[0].b, c.node, x);
      BlankBelow(n, rest, c, v, names, x);
    }
  }

  /** A new child under a byte nothing was listed under. */
  lemma {:induction false} BlankBelow<T>(n: Node<T>, rest: Tokens, c: Inserted<T>, v: T, names: seq<Name>, x: Tokens)
    requires TextKind(n) && rest != [] && rest[0].Lit? && rest[0].b !in n.indices
    requires c == InsertRoute(Fresh(1, [], Static), rest, v, names)
    ensures (if n.prefix < x && x[|n.prefix|] == rest[0] then Get(c.node, x[|n.prefix|..]) else Get(n, x)) ==
            Written(c, n.prefix + rest, x, v, names, Get(n, x))
  {
    if n.prefix < x {
      var y := x[|n.prefix|..];
      BlankGet(Fresh(1, [], Static), rest, v, names, y);
      assert x == n.prefix + y;
      NotPickedNotHeld(n, y);
    }
    assert x == n.prefix + rest ==> n.prefix < x && x[|n.prefix|] == rest[0] && x[|n.prefix|..] == rest;
  }

  lemma {:induction false} NotPickedNotHeld<T>(n: Node<T>, rest: Tokens)
    requires rest != []
    ensures Picked(n, rest) == None ==> Get(n, n.prefix + rest) == None
    ensures TextKind(n) && rest[0].Lit? && rest[0].b !in n.indices ==> Get(n, n.prefix + rest) == None
  {
    var x := n.prefix + rest;
    assert n.prefix < x && x[|n.prefix|..] == rest;
    GetByPick(n, x);
  }

  lemma {:induction false} NewSuffixGet<T>(
    n: Node<T>, rest: Tokens, parent: Option<Node<T>>, v: T, names: seq<Name>, x: Tokens)
    requires n.kind.ParamNode? && n.prefix == [Param] && rest != []
    requires IndexOfPrefix(n.children, rest[..Terminator(rest)]) == None
    ensures var r := NewSuffix(n, parent, rest, v, names);
            Get(r.node, x) == Written(r, n.prefix + rest, x, v, names, Get(n, x))
    ensures Get(n, n.prefix + rest) == None
  {
    NotPickedNotHeld(n, rest);
    var t := Terminator(rest);
    var suffix := rest[..t];
    if !SuffixConflict(n, parent, suffix) && !HasWild(suffix) {
      var s := SuffixChild(suffix, rest[t..], v, names);
      SuffixChildText(suffix, rest[t..], v, names);
      WithSuffixGet(n, s.node, x);
      SuffixBelow(n, rest, s, v, names, x);
    }
  }

  lemma {:induction false} SuffixBelow<T>(n: Node<T>, rest: Tokens, s: Inserted<T>, v: T, names: seq<Name>, x: Tokens)
    requires n.kind.ParamNode? && n.prefix == [Param] && rest != []
    requires IndexOfPrefix(n.children, rest[..Terminator(rest)]) == None
    requires s == SuffixChild(rest[..Terminator(rest)], rest[Terminator(rest)..], v, names)
    ensures (if n.prefix < x && x[1..][..Terminator(x[1..])] == rest[..Terminator(rest)]
             then Get(s.node, x[1..]) else Get(n, x))
            == Written(s, n.prefix + rest, x, v, names, Get(n, x))
  {
    var t := Terminator(rest);
    assert rest == rest[..t] + rest[t..];
    assert x == n.prefix + rest ==> n.prefix < x && x[1..] == rest;
    if n.prefix < x {
      assert x == n.prefix + x[1..];
      SuffixGet(rest[..t], rest[t..], v, names, x[1..]);
      NotPickedNotHeld(n, x[1..]);
    }
  }

  lemma {:induction false} WithSuffixGet<T>(n: Node<T>, s: Node<T>, x: Tokens)
    requires n.kind.ParamNode? && n.prefix == [Param] && IndexOfPrefix(n.children, s.prefix) == None
    ensures Get(WithSuffix(n, s), x) ==
            if n.prefix < x && x[1..][..Terminator(x[1..])] == s.prefix then Get(s, x[1..]) else Get(n, x)
  {
    if n.prefix < x {
      InsertedPrefix(n.children, Longer(n.children, |s.prefix|), s, x[1..][..Terminator(x[1..])]);
      GetByPick(n, x);
      GetByPick(WithSuffix(n, s), x);
    }
  }

  /** Looking for a text among the children once a child with a new text was put at `k`. */
  lemma {:induction false} InsertedPrefix<T>(children: seq<Node<T>>, k: nat, s: Node<T>, p: Tokens)
    requires k <= |children| && IndexOfPrefix(children, s.prefix) == None
    ensures var r := IndexOfPrefix(children[..k] + [s] + children[k..], p);
            if p == s.prefix then r == Some(k)
            else match IndexOfPrefix(children, p)
                 case None => r == None
                 case Some(i) => r == Some(if i < k then i else i + 1)
  {
    var all := children[..k] + [s] + children[k..];
    if k == 0 {
      assert all[1..] == children;
    } else {
      assert all[1..] == children[1..][..k - 1] + [s] + children[1..][k - 1..];
      InsertedPrefix(children[1..], k - 1, s, p);
    }
  }

  // ----- One insertion -----

  /** The node the walk works on: bumped, and forked when its text is longer than what it shares with the route. */
  ghost function Prepared<T>(node: Node<T>, p: Tokens): Node<T>
    requires node.priority >= 1
  {
    var k := CommonPrefix(p, node.prefix);
    var bumped := node.(priority := node.priority + 1);
    if k < |node.prefix| then Fork(bumped, k) else bumped
  }

  lemma {:induction false} ForkedIsText<T>(node: Node<T>, d: nat, p: Tokens)
    requires WF(node, d) && Enters(node, p) && CommonPrefix(p, node.prefix) < |node.prefix|
    ensures TextKind(node) && AllLit(node.prefix)
  {
    if node.kind.ParamNode? {
      assert false;
    }
  }

  /** Both nodes hold the same routes. */
  ghost predicate SameRoutes<T>(n: Node<T>, m: Node<T>) {
    forall x :: Get(n, x) == Get(m, x)
  }

  lemma {:induction false} BumpSame<T>(n: Node<T>, priority: nat)
    ensures SameRoutes(n.(priority := priority), n)
  {
    forall x ensures Get(n.(priority := priority), x) == Get(n, x) { BumpGet(n, priority, x); }
  }

  lemma {:induction false} ForkSame<T>(n: Node<T>, k: nat)
    requires AllLit(n.prefix) && !n.kind.ParamNode? && k < |n.prefix| && n.priority > 0
    ensures SameRoutes(Fork(n, k), n)
  {
    forall x ensures Get(Fork(n, k), x) == Get(n, x) { ForkGet(n, k, x); }
  }

  lemma {:induction false} SameTrans<T>(n: Node<T>, m: Node<T>, l: Node<T>)
    requires SameRoutes(n, m) && SameRoutes(m, l)
    ensures SameRoutes(n, l)
  {
  }

  lemma {:induction false} PreparedSame<T>(node: Node<T>, d: nat, p: Tokens)
    requires WF(node, d) && Enters(node, p)
    ensures SameRoutes(Prepared(node, p), node)
    ensures Prepared(node, p).prefix == p[..CommonPrefix(p, node.prefix)]
  {
    hide Get;
    var k := CommonPrefix(p, node.prefix);
    var bumped := node.(priority := node.priority + 1);
    BumpSame(node, node.priority + 1);
    if k < |node.prefix| {
      ForkedIsText(node, d, p);
      ForkSame(bumped, k);
      SameTrans(Fork(bumped, k), bumped, node);
    }
  }

  lemma {:induction false} PreparedBody<T>(node: Node<T>, d: nat, p: Tokens)
    requires WF(node, d) && Enters(node, p) && TextKind(node)
    ensures Body(Prepared(node, p), d)
  {
    var k := CommonPrefix(p, node.prefix);
    if k < |node.prefix| {
      var n := Prepared(node, p);
      var c := n.children[0];
      assert c.children == node.children && c.indices == node.indices && c.wildChild == node.wildChild;
      assert Table(c.indices, c.children, c.wildChild);
      assert WF(c, d);
    }
  }

  /** Below a child that takes the rest of the route, everything else is as before. */
  lemma {:induction false} DescendGet<T>(
    n: Node<T>, i: nat, c: Inserted<T>, rest: Tokens, v: T, names: seq<Name>, x: Tokens)
    requires i < |n.children| && rest != [] && ChildIndex(n, rest) == Some(i)
    requires n.kind.ParamNode? ==> c.node.prefix == n.children[i].prefix
    requires n.prefix < x ==>
               (Get(c.node, x[|n.prefix|..]) ==
                Written(c, rest, x[|n.prefix|..], v, names, Get(n.children[i], x[|n.prefix|..])))
    ensures Get(n.(children := n.children[i := c.node]), x) == Written(c, n.prefix + rest, x, v, names, Get(n, x))
  {
    ReplaceGet(n, i, c.node, x);
    assert x == n.prefix + rest ==> n.prefix < x && x[|n.prefix|..] == rest;
    if n.prefix < x {
      assert x == n.prefix + x[|n.prefix|..];
      GetByPick(n, x);
    }
  }

  lemma {:induction false} HeldBelow<T>(n: Node<T>, i: nat, rest: Tokens)
    requires i < |n.children| && rest != [] && ChildIndex(n, rest) == Some(i)
    ensures Get(n, n.prefix + rest) == Get(n.children[i], rest)
  {
    var x := n.prefix + rest;
    assert n.prefix < x && x[|n.prefix|..] == rest;
    GetByPick(n, x);
  }

  /** The insertion stores the route exactly when it is accepted, and keeps every other route. */
  ghost predicate Adds<T>(r: Inserted<T>, n: Node<T>, p: Tokens, v: T, names: seq<Name>) {
    && (forall x :: Get(r.node, x) == Written(r, p, x, v, names, Get(n, x)))
    && (r.outcome.Ok? ==> Get(n, p) == None)
  }

  lemma {:induction false} AddsFrom<T>(r: Inserted<T>, n: Node<T>, m: Node<T>, p: Tokens, v: T, names: seq<Name>)
    requires Adds(r, n, p, v, names) && SameRoutes(n, m)
    ensures Adds(r, m, p, v, names)
  {
    hide Get;
    assert Get(n, p) == Get(m, p);
    forall x ensures Get(r.node, x) == Written(r, p, x, v, names, Get(m, x)) {
      assert Get(n, x) == Get(m, x);
    }
  }

  lemma {:induction false} RejectAdds<T>(m: Node<T>, n: Node<T>, e: InsertError, p: Tokens, v: T, names: seq<Name>)
    requires SameRoutes(m, n)
    ensures Adds(Inserted(m, Err(e)), n, p, v, names)
  {
    hide Get;
  }

  lemma {:induction false} SetValueAdds<T>(n: Node<T>, v: T, names: seq<Name>)
    requires n.value.None?
    ensures Adds(Inserted(WithValue(n, v, names), Ok), n, n.prefix, v, names)
  {
    forall x ensures Get(WithValue(n, v, names), x) == if x == n.prefix then Some(Route(v, names)) else Get(n, x) {
      if n.prefix < x {
        GetByPick(n, x);
        GetByPick(WithValue(n, v, names), x);
      }
    }
  }

  lemma {:induction false} NewStaticAdds<T>(n: Node<T>, d: nat, rest: Tokens, v: T, names: seq<Name>)
    requires Body(n, d) && rest != [] && rest[0].Lit? && rest[0].b !in n.indices
    ensures Adds(NewStatic(n, rest, v, names), n, n.prefix + rest, v, names)
  {
    hide Get;
    NewStaticGet(n, d, rest, v, names, []);
    forall x ensures Get(NewStatic(n, rest, v, names).node, x)
                     == Written(NewStatic(n, rest, v, names), n.prefix + rest, x, v, names, Get(n, x)) {
      NewStaticGet(n, d, rest, v, names, x);
    }
  }

  lemma {:induction false} NewSuffixAdds<T>(n: Node<T>, parent: Option<Node<T>>, rest: Tokens, v: T, names: seq<Name>)
    requires n.kind.ParamNode? && n.prefix == [Param] && rest != []
    requires IndexOfPrefix(n.children, rest[..Terminator(rest)]) == None
    ensures Adds(NewSuffix(n, parent, rest, v, names), n, n.prefix + rest, v, names)
  {
    hide Get;
    NewSuffixGet(n, rest, parent, v, names, []);
    forall x ensures Get(NewSuffix(n, parent, rest, v, names).node, x)
                     == Written(NewSuffix(n, parent, rest, v, names), n.prefix + rest, x, v, names, Get(n, x)) {
      NewSuffixGet(n, rest, parent, v, names, x);
    }
  }

  lemma {:induction false} GraftAdds<T>(n: Node<T>, rest: Tokens, v: T, names: seq<Name>)
    requires Host(n) && KeepsText(n, rest)
    ensures Adds(InsertRoute(n, rest, v, names), n, n.prefix + rest, v, names)
  {
    hide Get;
    var r := InsertRoute(n, rest, v, names);
    forall x ensures Get(r.node, x) == Written(r, n.prefix + rest, x, v, names, Get(n, x)) {
      GraftGet(n, rest, v, names, x);
    }
    PickWild(n, rest);
    NotPickedNotHeld(n, rest);
  }

  lemma {:induction false} NewWildAdds<T>(n: Node<T>, before: Option<Token>, rest: Tokens, v: T, names: seq<Name>)
    requires Host(n) && KeepsText(n, rest)
    ensures Adds(NewWild(n, before, rest, v, names), n, n.prefix + rest, v, names)
  {
    hide Get;
    GraftAdds(n, rest, v, names);
    RejectAdds(n, n, Conflict, n.prefix + rest, v, names);
  }

  lemma {:induction false} DescendAdds<T>(n: Node<T>, i: nat, c: Inserted<T>, rest: Tokens, v: T, names: seq<Name>)
    requires i < |n.children| && rest != [] && ChildIndex(n, rest) == Some(i)
    requires n.kind.ParamNode? ==> c.node.prefix == n.children[i].prefix
    requires Adds(c, n.children[i], rest, v, names)
    ensures Adds(Inserted(n.(children := n.children[i := c.node]), c.outcome), n, n.prefix + rest, v, names)
  {
    hide Get;
    HeldBelow(n, i, rest);
    var m := n.(children := n.children[i := c.node]);
    forall x ensures Get(m, x) == Written(c, n.prefix + rest, x, v, names, Get(n, x)) {
      DescendGet(n, i, c, rest, v, names, x);
    }
  }

  lemma {:induction false} ReorderAdds<T>(m: Node<T>, i: nat, o: Outcome, n: Node<T>, p: Tokens, v: T, names: seq<Name>)
    requires i < |m.indices| <= |m.children| && Distinct(m.indices) && TextKind(m)
    requires m.wildChild ==> |m.indices| < |m.children|
    requires Adds(Inserted(m, o), n, p, v, names)
    ensures Adds(Inserted(Reorder(m, i), o), n, p, v, names)
  {
    hide Get;
    forall x ensures Get(Reorder(m, i), x) == Get(m, x) { PromoteGet(m, i, x); }
  }

  lemma {:induction false} BumpChildSame<T>(n: Node<T>, i: nat, priority: nat)
    requires i < |n.children|
    ensures SameRoutes(n.(children := n.children[i := n.children[i].(priority := priority)]), n)
  {
    var c := n.children[i].(priority := priority);
    forall x ensures Get(n.(children := n.children[i := c]), x) == Get(n, x) {
      ReplaceGet(n, i, c, x);
      if n.prefix < x {
        BumpGet(n.children[i], priority, x[|n.prefix|..]);
        GetByPick(n, x);
      }
    }
  }
}
