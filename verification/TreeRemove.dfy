/** Removal of a route from the radix tree. */
module TreeRemove {
  import opened Prelude
  import opened Pattern
  import opened RouteTree
  import opened TreeInsert
  import opened RouteBuild
  import opened InsertProof
  import opened InsertShape

  datatype Removed<T> = Removed(node: Node<T>, value: Option<T>)

  function Without<X>(s: seq<X>, i: nat): (r: seq<X>)
    requires i < |s|
    ensures |r| == |s| - 1
    ensures forall j | 0 <= j < |r| :: r[j] == s[if j < i then j else j + 1]
  {
    s[..i] + s[i + 1..]
  }

  /** Removes child `i` when its route has these parameter names; a child with children only loses its value. */
  function RemoveChild<T>(n: Node<T>, i: nat, names: seq<Name>): Removed<T>
    requires i < |n.children|
    requires TextShape(n) || n.kind.ParamNode?
  {
    var child := n.children[i];
    if child.remapping != names then Removed(n, None)
    else if child.children == [] then
      var kept := n.(children := Without(n.children, i));
      Removed(if child.kind.Static? && !n.kind.ParamNode? && i < |n.indices|
              then kept.(indices := Without(n.indices, i))
              else kept.(wildChild := false),
              child.value)
    else Removed(n.(children := n.children[i := child.(value := None)]), child.value)
  }

  /** Removes `p`, which goes on below `node`. */
  function RemoveAt<T>(node: Node<T>, ghost d: nat, p: Tokens, names: seq<Name>): (r: Removed<T>)
    requires WF(node, d)
    ensures r.node.prefix == node.prefix && r.node.kind == node.kind && r.node.priority == node.priority
    ensures |r.node.children| <= |node.children|
    decreases node
  {
    if !(node.prefix < p) then Removed(node, None)
    else
      var rest := p[|node.prefix|..];
      if node.kind.ParamNode? then
        match IndexOfPrefix(node.children, rest[..Terminator(rest)])
        case None => Removed(node, None)
        case Some(i) =>
          if Terminator(rest) == |rest| then RemoveChild(node, i, names) else RemoveBelow(node, d, i, rest, names)
      else
        match if rest[0].Lit? then IndexOf(node.indices, rest[0].b) else None
        case Some(i) =>
          if node.children[i].prefix == rest then RemoveChild(node, i, names) else RemoveBelow(node, d, i, rest, names)
        case None =>
          if !node.wildChild then Removed(node, None)
          else
            var last := |node.children| - 1;
            if node.children[last].prefix == rest then RemoveChild(node, last, names)
            else RemoveBelow(node, d, last, rest, names)
  }

  function RemoveBelow<T>(node: Node<T>, ghost d: nat, i: nat, rest: Tokens, names: seq<Name>): (r: Removed<T>)
    requires WF(node, d) && i < |node.children|
    ensures r.node.prefix == node.prefix && r.node.kind == node.kind && r.node.priority == node.priority
    ensures |r.node.children| <= |node.children|
    decreases node, 0
  {
    var r := RemoveAt(node.children[i], Depth(node, d), rest, names);
    Removed(node.(children := node.children[i := r.node]), r.value)
  }

  /** Removes a route from a whole tree; an emptied root without children is reset. */
  function Remove<T>(t: Node<T>, p: Tokens, names: seq<Name>): Removed<T>
    requires TreeShape(t)
  {
    if p == t.prefix then Removed(if t.children == [] then Empty() else t.(value := None), t.value)
    else if t.kind.Root? then RemoveAt(t, 0, p, names)
    else Removed(t, None)
  }

  // ----- Routes -----

  /** The removal takes exactly the route registered for `p` with these names. */
  ghost predicate Drops<T>(r: Removed<T>, n: Node<T>, p: Tokens, names: seq<Name>) {
    && (forall x :: Get(r.node, x) ==
          if x == p && Get(n, x).Some? && Get(n, x).value.names == names then None else Get(n, x))
    && r.value == (match Get(n, p)
                   case Some(route) => if route.names == names then Some(route.value) else None
                   case None => None)
  }

  lemma {:induction false} NothingDropped<T>(n: Node<T>, p: Tokens, names: seq<Name>)
    requires Get(n, p) == None || Get(n, p).value.names != names
    ensures Drops(Removed(n, None), n, p, names)
  {
    hide Get;
  }

  lemma {:induction false} DropBelow<T>(n: Node<T>, i: nat, c: Removed<T>, rest: Tokens, names: seq<Name>)
    requires i < |n.children| && rest != [] && ChildIndex(n, rest) == Some(i)
    requires n.kind.ParamNode? ==> c.node.prefix == n.children[i].prefix
    requires Drops(c, n.children[i], rest, names)
    ensures Drops(Removed(n.(children := n.children[i := c.node]), c.value), n, n.prefix + rest, names)
  {
    hide Get;
    HeldBelow(n, i, rest);
    var m := n.(children := n.children[i := c.node]);
    var p := n.prefix + rest;
    forall x
      ensures Get(m, x) ==
              if x == p && Get(n, x).Some? && Get(n, x).value.names == names then None else Get(n, x)
    {
      ReplaceGet(n, i, c.node, x);
      assert x == p ==> n.prefix < x && x[|n.prefix|..] == rest;
      if n.prefix < x {
        assert x == n.prefix + x[|n.prefix|..];
        GetByPick(n, x);
      }
    }
  }

  lemma {:induction false} LeafDrops<T>(c: Node<T>, names: seq<Name>)
    requires c.remapping == names
    ensures Drops(Removed(c.(value := None), c.value), c, c.prefix, names)
  {
    forall x ensures Get(c.(value := None), x) ==
                     if x == c.prefix && Get(c, x).Some? && Get(c, x).value.names == names then None else Get(c, x) {
      if c.prefix < x {
        GetByPick(c, x);
        GetByPick(c.(value := None), x);
      }
    }
  }

  lemma {:induction false} LeafHolds<T>(c: Node<T>, x: Tokens)
    ensures x == c.prefix && c.value.Some? ==> Get(c, x) == Some(Route(c.value.value, c.remapping))
    ensures c.children == [] && (x != c.prefix || c.value.None?) ==> Get(c, x) == None
  {
  }

  /** Taking a childless child out of its parent takes only what that child held. */
  lemma {:induction false} CutStaticPick<T>(n: Node<T>, i: nat, rest: Tokens)
    requires TextShape(n) && TextKind(n) && i < |n.indices| && rest != []
    ensures var m := n.(children := Without(n.children, i), indices := Without(n.indices, i));
            Picked(m, rest) == if rest[0] == Lit(n.indices[i]) then None else Picked(n, rest)
  {
    hide Without, IndexOf, Picked;
    var m := n.(children := Without(n.children, i), indices := Without(n.indices, i));
    assert Distinct(m.indices);
    if !rest[0].Lit? {
      PickWild(n, rest);
      PickWild(m, rest);
    } else if rest[0].b == n.indices[i] {
      assert rest[0].b !in m.indices;
      PickNone(m, rest);
    } else if rest[0].b in n.indices {
      var j := IndexOf(n.indices, rest[0].b).value;
      PickAt(n, rest, j);
      PickAt(m, rest, if j < i then j else j - 1);
    } else {
      assert rest[0].b !in m.indices;
      PickNone(n, rest);
      PickNone(m, rest);
    }
  }

  lemma {:induction false} CutWildPick<T>(n: Node<T>, rest: Tokens)
    requires TextShape(n) && TextKind(n) && n.wildChild && rest != []
    ensures var m := n.(children := Without(n.children, |n.children| - 1), wildChild := false);
            Picked(m, rest) == if !rest[0].Lit? then None else Picked(n, rest)
  {
    var m := n.(children := Without(n.children, |n.children| - 1), wildChild := false);
    if !rest[0].Lit? {
      PickWild(m, rest);
    } else if rest[0].b in n.indices {
      var j := IndexOf(n.indices, rest[0].b).value;
      PickAt(n, rest, j);
      PickAt(m, rest, j);
    } else {
      PickNone(n, rest);
      PickNone(m, rest);
    }
  }

  ghost predicate DistinctPrefixes<T>(children: seq<Node<T>>) {
    forall i, j | 0 <= i < j < |children| :: children[i].prefix != children[j].prefix
  }

  ghost function WithPrefix<T>(children: seq<Node<T>>, s: Tokens): Option<Node<T>> {
    match IndexOfPrefix(children, s) case None => None case Some(i) => Some(children[i])
  }

  lemma {:induction false} OnlyWithPrefix<T>(children: seq<Node<T>>, i: nat)
    requires DistinctPrefixes(children) && i < |children|
    ensures WithPrefix(children, children[i].prefix) == Some(children[i])
  {
    var j := IndexOfPrefix(children, children[i].prefix).value;
    assert children[j].prefix == children[i].prefix;
  }

  lemma {:induction false} CutPrefix<T>(children: seq<Node<T>>, i: nat, s: Tokens)
    requires DistinctPrefixes(children) && i < |children|
    ensures WithPrefix(Without(children, i), s) == if s == children[i].prefix then None else WithPrefix(children, s)
  {
    var less := Without(children, i);
    hide IndexOfPrefix, Without;
    match IndexOfPrefix(less, s)
    case Some(j) =>
      var k := if j < i then j else j + 1;
      assert less[j] == children[k] && k != i;
      OnlyWithPrefix(children, k);
    case None =>
      forall k | 0 <= k < |children| && k != i ensures children[k].prefix != s {
        assert children[k] == less[if k < i then k else k - 1];
      }
  }

  lemma {:induction false} CutSuffixPick<T>(n: Node<T>, i: nat, rest: Tokens)
    requires ParamShape(n) && i < |n.children| && rest != []
    ensures var m := n.(children := Without(n.children, i), wildChild := false);
            Picked(m, rest) == if rest[..Terminator(rest)] == n.children[i].prefix then None else Picked(n, rest)
  {
    hide IndexOfPrefix, Without, Terminator;
    CutPrefix(n.children, i, rest[..Terminator(rest)]);
  }

  /** `m` is `n` without its childless child `i`. */
  ghost predicate CutOf<T>(m: Node<T>, n: Node<T>, i: nat)
    requires i < |n.children|
  {
    && m.prefix == n.prefix && m.value == n.value && m.remapping == n.remapping
    && forall rest: Tokens | rest != [] ::
       Picked(m, rest) == if ChildIndex(n, rest) == Some(i) then None else Picked(n, rest)
  }

  lemma {:induction false} CutDrops<T>(m: Node<T>, n: Node<T>, i: nat, names: seq<Name>)
    requires i < |n.children| && CutOf(m, n, i)
    requires n.children[i].children == [] && n.children[i].remapping == names && n.children[i].prefix != []
    requires ChildIndex(n, n.children[i].prefix) == Some(i)
    ensures Drops(Removed(m, n.children[i].value), n, n.prefix + n.children[i].prefix, names)
  {
    hide Get;
    var c := n.children[i];
    var p := n.prefix + c.prefix;
    HeldBelow(n, i, c.prefix);
    LeafHolds(c, c.prefix);
    forall x
      ensures Get(m, x) ==
              if x == p && Get(n, x).Some? && Get(n, x).value.names == names then None else Get(n, x)
    {
      assert x == p ==> n.prefix < x && x[|n.prefix|..] == c.prefix;
      if n.prefix < x {
        var rest := x[|n.prefix|..];
        assert x == n.prefix + rest;
        GetByPick(n, x);
        GetByPick(m, x);
        LeafHolds(c, rest);
      } else {
        assert Get(m, x) == Get(n, x) by { ShortGet(m, n, x); }
      }
    }
  }

  lemma {:induction false} ShortGet<T>(m: Node<T>, n: Node<T>, x: Tokens)
    requires m.prefix == n.prefix && m.value == n.value && m.remapping == n.remapping && !(n.prefix < x)
    ensures Get(m, x) == Get(n, x)
  {
  }

  lemma {:induction false} CutStatic<T>(n: Node<T>, i: nat)
    requires TextShape(n) && TextKind(n) && i < |n.indices|
    ensures CutOf(n.(children := Without(n.children, i), indices := Without(n.indices, i)), n, i)
  {
    forall rest: Tokens | rest != []
      ensures ChildIndex(n, rest) == Some(i) <==> rest[0] == Lit(n.indices[i])
    {
      if rest[0] == Lit(n.indices[i]) { HeadIsUnique(n, rest, i); }
    }
    forall rest: Tokens | rest != []
      ensures Picked(n.(children := Without(n.children, i), indices := Without(n.indices, i)), rest)
              == if ChildIndex(n, rest) == Some(i) then None else Picked(n, rest)
    {
      CutStaticPick(n, i, rest);
    }
  }

  lemma {:induction false} CutWild<T>(n: Node<T>)
    requires TextShape(n) && TextKind(n) && n.wildChild
    ensures CutOf(n.(children := Without(n.children, |n.children| - 1), wildChild := false), n, |n.children| - 1)
  {
    var m := n.(children := Without(n.children, |n.children| - 1), wildChild := false);
    forall rest: Tokens | rest != []
      ensures Picked(m, rest) == if ChildIndex(n, rest) == Some(|n.children| - 1) then None else Picked(n, rest)
    {
      CutWildPick(n, rest);
      assert rest[0].Lit? ==> ChildIndex(n, rest) != Some(|n.indices|);
    }
  }

  lemma {:induction false} CutSuffix<T>(n: Node<T>, i: nat)
    requires ParamShape(n) && i < |n.children|
    ensures CutOf(n.(children := Without(n.children, i), wildChild := false), n, i)
  {
    var m := n.(children := Without(n.children, i), wildChild := false);
    forall rest: Tokens | rest != []
      ensures Picked(m, rest) == if ChildIndex(n, rest) == Some(i) then None else Picked(n, rest)
    {
      CutSuffixPick(n, i, rest);
      if rest[..Terminator(rest)] == n.children[i].prefix { SuffixIsUnique(n, rest, i); }
    }
  }

  lemma {:induction false} RemoveChildDrops<T>(n: Node<T>, d: nat, i: nat, names: seq<Name>)
    requires WF(n, d) && i < |n.children| && (TextShape(n) || n.kind.ParamNode?)
    requires n.children[i].prefix != [] && ChildIndex(n, n.children[i].prefix) == Some(i)
    ensures Drops(RemoveChild(n, i, names), n, n.prefix + n.children[i].prefix, names)
  {
    hide Get;
    var c := n.children[i];
    HeldBelow(n, i, c.prefix);
    if c.remapping != names {
      LeafNames(c);
      NothingDropped(n, n.prefix + c.prefix, names);
    } else if c.children == [] {
      CutChild(n, d, i, names);
      CutDrops(RemoveChild(n, i, names).node, n, i, names);
    } else {
      LeafDrops(c, names);
      DropBelow(n, i, Removed(c.(value := None), c.value), c.prefix, names);
    }
  }

  lemma {:induction false} LeafNames<T>(c: Node<T>)
    ensures Get(c, c.prefix) == None || Get(c, c.prefix).value.names == c.remapping
  {
  }

  lemma {:induction false} CutChild<T>(n: Node<T>, d: nat, i: nat, names: seq<Name>)
    requires WF(n, d) && i < |n.children| && (TextShape(n) || n.kind.ParamNode?)
    requires n.children[i].remapping == names && n.children[i].children == []
    ensures CutOf(RemoveChild(n, i, names).node, n, i)
  {
    hide CutOf, Get;
    ChildWF(n, d, i);
    if n.kind.ParamNode? {
      CutSuffix(n, i);
    } else if i < |n.indices| {
      CutStatic(n, i);
    } else {
      CutWild(n);
    }
  }

  lemma {:induction false} PickedDrops<T>(node: Node<T>, d: nat, p: Tokens, names: seq<Name>, i: nat)
    requires WF(node, d) && node.prefix < p && i < |node.children|
    requires ChildIndex(node, p[|node.prefix|..]) == Some(i)
    requires p[|node.prefix|..] != node.children[i].prefix ==>
               Drops(RemoveAt(node.children[i], Depth(node, d), p[|node.prefix|..], names),
                     node.children[i], p[|node.prefix|..], names)
    ensures (TextShape(node) || node.kind.ParamNode?)
    ensures Drops(if node.children[i].prefix == p[|node.prefix|..] then RemoveChild(node, i, names)
                  else RemoveBelow(node, d, i, p[|node.prefix|..], names), node, p, names)
  {
    hide Get;
    var rest := p[|node.prefix|..];
    assert p == node.prefix + rest;
    if node.children[i].prefix == rest {
      RemoveChildDrops(node, d, i, names);
    } else {
      DropBelow(node, i, RemoveAt(node.children[i], Depth(node, d), rest, names), rest, names);
    }
  }

  /** The removal walk, from the node it is at. */
  lemma {:induction false} RemoveAtDrops<T>(node: Node<T>, d: nat, p: Tokens, names: seq<Name>)
    requires WF(node, d) && p != node.prefix
    ensures Drops(RemoveAt(node, d, p, names), node, p, names)
    decreases node
  {
    hide Get, Drops;
    if !(node.prefix < p) {
      assert Drops(Removed(node, None), node, p, names) by { NoPrefix(node, p); NothingDropped(node, p, names); }
    } else {
      var rest := p[|node.prefix|..];
      assert p == node.prefix + rest;
      match ChildIndex(node, rest)
      case Some(i) =>
        ChildWF(node, d, i);
        if node.children[i].prefix != rest {
          RemoveAtDrops(node.children[i], Depth(node, d), rest, names);
        }
        PickedDrops(node, d, p, names, i);
        RemoveAtPicks(node, d, p, names, i);
      case None =>
        NotPickedNotHeld(node, rest);
        RemoveAtMisses(node, d, p, names);
        NothingDropped(node, p, names);
    }
  }

  lemma {:induction false} NoPrefix<T>(n: Node<T>, p: Tokens)
    requires p != n.prefix && !(n.prefix < p)
    ensures Get(n, p) == None
  {
  }

  /** The walk takes the child the route goes on to. */
  lemma {:induction false} RemoveAtPicks<T>(node: Node<T>, d: nat, p: Tokens, names: seq<Name>, i: nat)
    requires WF(node, d) && node.prefix < p && (TextShape(node) || node.kind.ParamNode?)
    requires ChildIndex(node, p[|node.prefix|..]) == Some(i)
    ensures RemoveAt(node, d, p, names) ==
            if node.children[i].prefix == p[|node.prefix|..] then RemoveChild(node, i, names)
            else RemoveBelow(node, d, i, p[|node.prefix|..], names)
  {
    var rest := p[|node.prefix|..];
    if node.kind.ParamNode? {
      assert node.children[i].prefix == rest[..Terminator(rest)];
      assert rest[..|rest|] == rest;
    }
  }

  /** Where the route does not go on, the walk changes nothing. */
  lemma {:induction false} RemoveAtMisses<T>(node: Node<T>, d: nat, p: Tokens, names: seq<Name>)
    requires WF(node, d) && node.prefix < p && ChildIndex(node, p[|node.prefix|..]) == None
    ensures RemoveAt(node, d, p, names) == Removed(node, None)
  {
    var rest := p[|node.prefix|..];
    if !node.kind.ParamNode? && node.wildChild {
      var last := |node.children| - 1;
      var wild := node.children[last];
      ChildWF(node, d, last);
      assert rest[0].Lit? && !wild.prefix[0].Lit?;
      assert RemoveAt(wild, d, rest, names) == Removed(wild, None);
      assert node.children[last := wild] == node.children;
    }
  }

  // ----- Shape -----

  lemma {:induction false} CutStaticBody<T>(n: Node<T>, d: nat, i: nat)
    requires Body(n, d) && i < |n.indices|
    ensures Body(n.(children := Without(n.children, i), indices := Without(n.indices, i)), d)
  {
    hide WF;
    var m := n.(children := Without(n.children, i), indices := Without(n.indices, i));
    forall j | 0 <= j < |m.indices| ensures Heads(m.children[j], m.indices[j]) {
      assert Heads(n.children[if j < i then j else j + 1], n.indices[if j < i then j else j + 1]);
    }
    assert Table(m.indices, m.children, m.wildChild);
  }

  lemma {:induction false} CutWildBody<T>(n: Node<T>, d: nat)
    requires Body(n, d) && n.wildChild
    ensures Body(n.(children := Without(n.children, |n.children| - 1), wildChild := false), d)
  {
    hide WF;
    var m := n.(children := Without(n.children, |n.children| - 1), wildChild := false);
    forall j | 0 <= j < |m.indices| ensures Heads(m.children[j], m.indices[j]) {
      assert Heads(n.children[j], n.indices[j]);
    }
  }

  lemma {:induction false} CutSuffixShape<T>(n: Node<T>, d: nat, i: nat)
    requires WF(n, d) && n.kind.ParamNode? && i < |n.children|
    ensures WF(n.(children := Without(n.children, i), wildChild := false), d)
  {
    var m := n.(children := Without(n.children, i), wildChild := false);
    assert forall j | 0 <= j < |m.children| :: m.children[j] == n.children[if j < i then j else j + 1];
    assert ParamShape(m);
  }

  lemma {:induction false} WFIsBody<T>(n: Node<T>, d: nat)
    requires WF(n, d) && TextKind(n)
    ensures Body(n, d)
  {
  }

  lemma {:induction false} ClearedShape<T>(c: Node<T>, d: nat)
    requires WF(c, d) && c.children != []
    ensures WF(c.(value := None), d)
  {
  }

  /** Putting back a changed child with the same text. */
  lemma {:induction false} PutBackShape<T>(n: Node<T>, d: nat, i: nat, c: Node<T>)
    requires WF(n, d) && i < |n.children| && WF(c, Depth(n, d))
    requires c.prefix == n.children[i].prefix && c.kind == n.children[i].kind &&
             |c.children| <= |n.children[i].children|
    ensures WF(n.(children := n.children[i := c]), d)
  {
    ChildWF(n, d, i);
    var m := n.(children := n.children[i := c]);
    if n.kind.ParamNode? {
      assert forall j | 0 <= j < |m.children| :: m.children[j].prefix == n.children[j].prefix;
      assert SuffixShape(c);
      assert ParamShape(m);
    } else {
      WFIsBody(n, d);
      ReplaceBody(n, d, i, c);
      BodyIsWF(m, d);
    }
  }

  lemma {:induction false} RemoveChildShape<T>(n: Node<T>, d: nat, i: nat, names: seq<Name>)
    requires WF(n, d) && i < |n.children| && (TextShape(n) || n.kind.ParamNode?)
    ensures WF(RemoveChild(n, i, names).node, d)
  {
    hide WF;
    var c := n.children[i];
    ChildWF(n, d, i);
    if c.remapping == names {
      if c.children != [] {
        ClearedShape(c, Depth(n, d));
        PutBackShape(n, d, i, c.(value := None));
      } else if n.kind.ParamNode? {
        CutSuffixShape(n, d, i);
      } else {
        HasChildren(n, d, i);
        WFIsBody(n, d);
        if i < |n.indices| {
          CutStaticBody(n, d, i);
        } else {
          CutWildBody(n, d);
        }
        BodyIsWF(RemoveChild(n, i, names).node, d);
      }
    }
  }

  lemma {:induction false} HasChildren<T>(n: Node<T>, d: nat, i: nat)
    requires WF(n, d) && !n.kind.ParamNode? && i < |n.children|
    ensures TextKind(n) && (n.kind.Static? ==> n.prefix != [])
    ensures i >= |n.indices| ==> n.wildChild && i == |n.children| - 1 && !n.children[i].kind.Static?
  {
  }

  lemma {:induction false} RemoveAtShape<T>(node: Node<T>, d: nat, p: Tokens, names: seq<Name>)
    requires WF(node, d)
    ensures WF(RemoveAt(node, d, p, names).node, d)
    decreases node
  {
    hide WF, RemoveChild;
    if node.prefix < p {
      var rest := p[|node.prefix|..];
      match ChildIndex(node, rest)
      case None => RemoveAtMisses(node, d, p, names);
      case Some(i) =>
        ChildWF(node, d, i);
        ShapeWithChild(node, d);
        RemoveAtPicks(node, d, p, names, i);
        RemoveChildShape(node, d, i, names);
        RemoveAtShape(node.children[i], Depth(node, d), rest, names);
        PutBackShape(node, d, i, RemoveAt(node.children[i], Depth(node, d), rest, names).node);
    }
  }

  lemma {:induction false} ShapeWithChild<T>(n: Node<T>, d: nat)
    requires WF(n, d) && n.children != []
    ensures TextShape(n) || n.kind.ParamNode?
  {
  }

  /** One removal from a whole tree takes exactly the route it names and keeps the shape. */
  lemma {:induction false} RemoveTree<T>(t: Node<T>, p: Tokens, names: seq<Name>)
    requires TreeShape(t) && |names| == ParamCount(p)
    ensures TreeShape(Remove(t, p, names).node)
    ensures Drops(Remove(t, p, names), t, p, names)
  {
    if p == t.prefix {
      RootDrops(t, names);
      if t.children != [] {
        ClearedShape(t, 0);
      }
    } else if t.kind.Root? {
      RemoveAtDrops(t, 0, p, names);
      RemoveAtShape(t, 0, p, names);
    } else {
      assert Get(t, p) == None;
      NothingDropped(t, p, names);
    }
  }

  lemma {:induction false} RootDrops<T>(t: Node<T>, names: seq<Name>)
    requires TreeShape(t) && |names| == ParamCount(t.prefix)
    ensures Drops(Removed(if t.children == [] then Empty() else t.(value := None), t.value), t, t.prefix, names)
  {
    assert AllLit(t.prefix);
    ParamCountLit(t.prefix);
    var m := if t.children == [] then Empty() else t.(value := None);
    if t.value.Some? {
      assert t.remapping == [] && names == [];
    }
    forall x ensures Get(m, x) ==
                     if x == t.prefix && Get(t, x).Some? && Get(t, x).value.names == names then None else Get(t, x) {
      if t.children == [] {
        LeafHolds(t, x);
        LeafHolds<T>(Empty(), x);
      } else if t.prefix < x {
        GetByPick(t, x);
        GetByPick(m, x);
      }
    }
  }
}
