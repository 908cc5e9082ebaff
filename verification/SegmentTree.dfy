/**
 Trees of patterns whose parameters have no static suffix and, when `strict`, fill whole
 segments. Insertions and removals keep a tree in this class.
 */
module SegmentTree {
  import opened Prelude
  import opened Pattern
  import opened RouteTree
  import opened TreeInsert
  import opened RouteBuild
  import opened InsertProof
  import opened InsertAtProof
  import opened InsertShape
  import opened TreeRemove
  import opened TreeOutcome
  import opened BestMatch

  ghost predicate PatternOk(p: Tokens, strict: bool) {
    if strict then WholeSegment(p) else NoSuffix(p)
  }

  ghost predicate ParamLast<T>(n: Node<T>) {
    n.wildChild && n.children != [] && n.children[|n.children| - 1].kind.ParamNode?
  }

  ghost predicate SegmentStart(text: Tokens) {
    text == [] || EndsInSlash(text)
  }

  ghost predicate Tidy<T>(n: Node<T>, strict: bool)
    decreases n
  {
    && n.kind != ParamNode(true)
    && (strict && ParamLast(n) ==> SegmentStart(n.prefix))
    && (forall i | 0 <= i < |n.children| :: Tidy(n.children[i], strict))
  }

  lemma {:induction false} TidyIsSuffixFree<T>(n: Node<T>, strict: bool)
    requires Tidy(n, strict)
    ensures SuffixFree(n)
    decreases n
  {
    forall i | 0 <= i < |n.children| ensures SuffixFree(n.children[i]) {
      TidyIsSuffixFree(n.children[i], strict);
    }
  }

  // ----- Building a route -----

  lemma {:induction false} PatternRest(p: Tokens, k: nat, strict: bool)
    requires PatternOk(p, strict) && k <= |p|
    ensures PatternOk(p[k..], strict)
    ensures strict && 0 < k < |p| && p[k].Param? ==> p[k - 1] == SLASH_TOKEN
  {
    var q := p[k..];
    assert forall i | 0 <= i < |q| :: q[i] == p[k + i];
  }

  /** Without a static suffix the rest of the segment is the '/' alone. */
  lemma {:induction false} PlainSegment(p: Tokens, strict: bool)
    requires PatternOk(p, strict) && |p| > 1 && p[0].Param?
    ensures Terminator(p[1..]) == 1 && p[1..][..1] == [SLASH_TOKEN] && p[1..][1..] == p[2..]
  {
    assert p[1] == SLASH_TOKEN;
    assert p[1..][0] == SLASH_TOKEN;
  }

  lemma {:induction false} AddWildTidy<T>(n: Node<T>, child: Node<T>, strict: bool)
    requires Tidy(n, strict) && !n.wildChild && Tidy(child, strict)
    requires strict && child.kind.ParamNode? ==> SegmentStart(n.prefix)
    ensures Tidy(AddWild(n, child), strict)
  {
    assert AddWild(n, child).children == n.children + [child];
  }

  lemma {:induction false} GraftTidy<T>(n: Node<T>, p: Tokens, v: T, names: seq<Name>, strict: bool)
    requires Tidy(n, strict) && !n.wildChild && KeepsText(n, p) && PatternOk(p, strict)
    requires InsertRoute(n, p, v, names).outcome.Ok?
    requires strict && p[0].Param? ==> SegmentStart(n.prefix)
    ensures Tidy(InsertRoute(n, p, v, names).node, strict)
    decreases |p|, 0
  {
    hide SuffixChild;
    GraftIsWildFor(n, p, v, names);
    if p[0].Param? && |p| > 1 {
      PlainSegment(p, strict);
      PatternRest(p, 2, strict);
      assert strict && |p| > 2 && p[2].Param? ==> p[1] == SLASH_TOKEN;
      SlashChildTidy(p[2..], v, names, strict);
    }
    AddWildTidy(n, WildFor(p, v, names), strict);
  }

  lemma {:induction false} SlashChildTidy<T>(rest: Tokens, v: T, names: seq<Name>, strict: bool)
    requires PatternOk(rest, strict) && SuffixChild([SLASH_TOKEN], rest, v, names).outcome.Ok?
    ensures Tidy(SuffixChild([SLASH_TOKEN], rest, v, names).node, strict)
    decreases |rest|, 2
  {
    if rest != [] {
      if rest[0].Lit? {
        BlankTidy(Fresh(1, [], Static), rest, v, names, strict);
      } else {
        GraftTidy(Fresh(1, [SLASH_TOKEN], Static), rest, v, names, strict);
      }
    }
  }

  lemma {:induction false} BlankTidy<T>(n: Node<T>, p: Tokens, v: T, names: seq<Name>, strict: bool)
    requires Blank(n) && PatternOk(p, strict) && InsertRoute(n, p, v, names).outcome.Ok?
    requires KeepsText(n, p) ==> n.prefix == []
    ensures Tidy(InsertRoute(n, p, v, names).node, strict)
    decreases |p|, 1
  {
    var w := FirstWild(p);
    if w < |p| {
      var host := if w > 0 then n.(prefix := p[..w]) else n;
      var q := p[w..];
      assert FirstWild(q) == 0 && q[0..] == q;
      assert InsertRoute(n, p, v, names) == InsertRoute(host, q, v, names);
      PatternRest(p, w, strict);
      GraftTidy(host, q, v, names, strict);
    }
  }

  // ----- Inserting -----

  lemma {:induction false} ForkTidy<T>(n: Node<T>, k: nat, strict: bool)
    requires Tidy(n, strict) && k < |n.prefix| && n.priority > 0 && !n.kind.ParamNode?
    ensures Tidy(Fork(n, k), strict)
  {
    var child := n.(prefix := n.prefix[k..], priority := n.priority - 1, kind := Static);
    assert Tidy(child, strict);
  }

  lemma {:induction false} PreparedTidy<T>(node: Node<T>, d: nat, p: Tokens, strict: bool)
    requires WF(node, d) && node.priority >= 1 && Enters(node, p) && Tidy(node, strict)
    ensures Tidy(Prepared(node, p), strict)
  {
    hide WF;
    var bumped := node.(priority := node.priority + 1);
    assert Tidy(bumped, strict);
    var k := CommonPrefix(p, node.prefix);
    if k < |node.prefix| {
      ForkedIsText(node, d, p);
      ForkTidy(bumped, k, strict);
    }
  }

  lemma {:induction false} PutTidy<T>(n: Node<T>, i: nat, c: Node<T>, strict: bool)
    requires Tidy(n, strict) && i < |n.children| && Tidy(c, strict)
    requires c.kind.ParamNode? ==> n.children[i].kind.ParamNode?
    ensures Tidy(n.(children := n.children[i := c]), strict)
  {
  }

  lemma {:induction false} ReorderTidy<T>(n: Node<T>, i: nat, strict: bool)
    requires Tidy(n, strict) && i < |n.indices| <= |n.children| && (n.wildChild ==> |n.indices| < |n.children|)
    ensures Tidy(Reorder(n, i), strict)
    decreases i
  {
    if i > 0 && n.children[i - 1].priority < n.children[i].priority {
      var m := n.(children := Swap(n.children, i), indices := Swap(n.indices, i));
      forall j | 0 <= j < |m.children| ensures Tidy(m.children[j], strict) {
        assert m.children[j] == n.children[if j == i then i - 1 else if j == i - 1 then i else j];
      }
      ReorderTidy(m, i - 1, strict);
    }
  }

  lemma {:induction false} NewStaticTidy<T>(n: Node<T>, d: nat, rest: Tokens, v: T, names: seq<Name>, strict: bool)
    requires Body(n, d) && Tidy(n, strict) && rest != [] && rest[0].Lit? && rest[0].b !in n.indices
    requires PatternOk(rest, strict)
    requires NewStatic(n, rest, v, names).outcome in {Ok, Err(Conflict)}
    ensures Tidy(NewStatic(n, rest, v, names).node, strict)
  {
    hide WF, PrefixWildInSegment, SuffixWildInSegment;
    if !StaticConflict(n, rest) {
      var blank: Node<T> := Fresh(1, [], Static);
      NeverConflicts(blank, rest, v, names);
      BlankTidy(blank, rest, v, names, strict);
      var c := InsertRoute(blank, rest, v, names).node;
      var m := WithStatic(n, rest[0].b, c);
      WithStaticTable(n, rest[0].b, c);
      forall j | 0 <= j < |m.children| ensures Tidy(m.children[j], strict) {
        assert m.children[j] == c || m.children[j] in n.children;
      }
      ReorderTidy(m, |n.indices|, strict);
    }
  }

  lemma {:induction false} NewSuffixTidy<T>(
    n: Node<T>, parent: Option<Node<T>>, p: Tokens, v: T, names: seq<Name>, strict: bool)
    requires n.kind.ParamNode? && Tidy(n, strict) && |p| > 1 && p[0].Param? && PatternOk(p, strict) && !n.wildChild
    requires NewSuffix(n, parent, p[1..], v, names).outcome in {Ok, Err(Conflict)}
    ensures Tidy(NewSuffix(n, parent, p[1..], v, names).node, strict)
  {
    hide PrefixWildInSegment;
    PlainSegment(p, strict);
    PatternRest(p, 2, strict);
    SuffixNeverConflicts([SLASH_TOKEN], p[2..], v, names);
    if !SuffixConflict(n, parent, [SLASH_TOKEN]) && !HasWild([SLASH_TOKEN]) {
      SlashChildTidy(p[2..], v, names, strict);
      var s := SuffixChild([SLASH_TOKEN], p[2..], v, names).node;
      SuffixChildText([SLASH_TOKEN], p[2..], v, names);
      var m := WithSuffix(n, s);
      forall j | 0 <= j < |m.children| ensures Tidy(m.children[j], strict) {
        assert m.children[j] == s || m.children[j] in n.children;
      }
    }
  }

  lemma {:induction false} NewWildTidy<T>(
    n: Node<T>, before: Option<Token>, rest: Tokens, v: T, names: seq<Name>, strict: bool)
    requires Tidy(n, strict) && !n.wildChild && KeepsText(n, rest) && PatternOk(rest, strict)
    requires NewWild(n, before, rest, v, names).outcome in {Ok, Err(Conflict)}
    requires strict && rest[0].Param? ==> SegmentStart(n.prefix)
    ensures Tidy(NewWild(n, before, rest, v, names).node, strict)
  {
    hide PrefixWildInSegment, SuffixWildInSegment;
    NeverConflicts(n, rest, v, names);
    if InsertRoute(n, rest, v, names).outcome.Ok? {
      GraftTidy(n, rest, v, names, strict);
    }
  }

  ghost predicate Settles<T>(node: Node<T>, d: nat, p: Tokens, strict: bool) {
    WF(node, d) && node.priority >= 1 && Enters(node, p) && Tidy(node, strict) && PatternOk(p, strict)
  }

  lemma {:induction false} TidyBelowParam<T>(
    node: Node<T>, d: nat, parent: Option<Node<T>>, p: Tokens, v: T, names: seq<Name>, strict: bool)
    requires Settles(node, d, p, strict) && node.kind.ParamNode? && |p| > 1
    requires InsertAt(node, d, parent, p, v, names).outcome in {Ok, Err(Conflict)}
    ensures Tidy(InsertAt(node, d, parent, p, v, names).node, strict)
    decreases node, 0
  {
    hide WF, PrefixWildInSegment, SuffixWildInSegment, Promote, SuffixChild, InsertRoute, NewSuffix, NewStatic,
      NewWild, WildConflict;
    var n := Prepared(node, p);
    ParamPrepared(node, d, p);
    PreparedTidy(node, d, p, strict);
    var rest := p[1..];
    PatternRest(p, 1, strict);
    match IndexOfPrefix(node.children, rest[..Terminator(rest)])
    case None =>
      ParamHasNoWild(node, d);
      NewSuffixTidy(n, parent, p, v, names, strict);
    case Some(i) =>
      ChildWF(node, d, i);
      InsertAtTidy(node.children[i], d + 1, Some(n), rest, v, names, strict);
      PutTidy(n, i, InsertAt(node.children[i], d + 1, Some(n), rest, v, names).node, strict);
  }

  lemma {:induction false} ParamHasNoWild<T>(node: Node<T>, d: nat)
    requires WF(node, d) && node.kind.ParamNode?
    ensures !node.wildChild
  {
  }

  lemma {:induction false} TidyBelowStatic<T>(
    node: Node<T>, d: nat, parent: Option<Node<T>>, p: Tokens, v: T, names: seq<Name>, strict: bool, i: nat)
    requires Settles(node, d, p, strict) && TextKind(node)
    requires var k := CommonPrefix(p, node.prefix);
             k < |p| && p[k].Lit? && IndexOf(Prepared(node, p).indices, p[k].b) == Some(i)
    requires InsertAt(node, d, parent, p, v, names).outcome in {Ok, Err(Conflict)}
    ensures Tidy(InsertAt(node, d, parent, p, v, names).node, strict)
    decreases node, 0
  {
    hide WF, PrefixWildInSegment, SuffixWildInSegment, Promote, SuffixChild, InsertRoute, NewStatic, NewSuffix,
      NewWild, Reorder;
    var k := CommonPrefix(p, node.prefix);
    var n := Prepared(node, p);
    StaticFound(node, d, p, i);
    PreparedBody(node, d, p);
    PreparedTidy(node, d, p, strict);
    PatternRest(p, k, strict);
    ChildWF(node, d, i);
    InsertAtTidy(node.children[i], d, Some(n), p[k..], v, names, strict);
    var c := InsertAt(node.children[i], d, Some(n), p[k..], v, names).node;
    PutTidy(n, i, c, strict);
    ReorderTidy(n.(children := n.children[i := c]), i, strict);
  }

  lemma {:induction false} TidyBelowWild<T>(
    node: Node<T>, d: nat, parent: Option<Node<T>>, p: Tokens, v: T, names: seq<Name>, strict: bool)
    requires Settles(node, d, p, strict) && TextKind(node) && Prepared(node, p).wildChild
    requires var k := CommonPrefix(p, node.prefix); k < |p| && !p[k].Lit?
    requires InsertAt(node, d, parent, p, v, names).outcome in {Ok, Err(Conflict)}
    ensures Tidy(InsertAt(node, d, parent, p, v, names).node, strict)
    decreases node, 0
  {
    hide WF, PrefixWildInSegment, SuffixWildInSegment, Promote, SuffixChild, InsertRoute, NewStatic, NewSuffix, NewWild;
    var k := CommonPrefix(p, node.prefix);
    var n := Prepared(node, p);
    WildFound(node, d, p);
    PreparedTidy(node, d, p, strict);
    PatternRest(p, k, strict);
    var last := |node.children| - 1;
    var wild := node.children[last];
    ChildWF(node, d, last);
    if WildConflict(n, wild, p[k..]) {
      assert Tidy(wild.(priority := wild.priority + 1), strict);
      PutTidy(n, last, wild.(priority := wild.priority + 1), strict);
    } else {
      WildEnters(node, d, p);
      InsertAtTidy(wild, d, Some(n), p[k..], v, names, strict);
      PutTidy(n, last, InsertAt(wild, d, Some(n), p[k..], v, names).node, strict);
    }
  }

  lemma {:induction false} TidyNewChild<T>(
    node: Node<T>, d: nat, parent: Option<Node<T>>, p: Tokens, v: T, names: seq<Name>, strict: bool)
    requires Settles(node, d, p, strict) && TextKind(node)
    requires var k := CommonPrefix(p, node.prefix);
             k < |p| && (if p[k].Lit? then p[k].b !in Prepared(node, p).indices else !Prepared(node, p).wildChild)
    requires InsertAt(node, d, parent, p, v, names).outcome in {Ok, Err(Conflict)}
    ensures Tidy(InsertAt(node, d, parent, p, v, names).node, strict)
  {
    hide WF, PrefixWildInSegment, SuffixWildInSegment, Promote, SuffixChild, InsertRoute, NewStatic, NewSuffix, NewWild;
    var k := CommonPrefix(p, node.prefix);
    var n := Prepared(node, p);
    PreparedBody(node, d, p);
    PreparedTidy(node, d, p, strict);
    PatternRest(p, k, strict);
    assert n.prefix == p[..k] by { hide Get; PreparedSame(node, d, p); }
    if p[k].Lit? {
      NewStaticTidy(n, d, p[k..], v, names, strict);
    } else {
      NewWildTidy(n, if k == 0 then None else Some(p[k - 1]), p[k..], v, names, strict);
    }
  }

  lemma {:induction false} InsertAtTidy<T>(
    node: Node<T>, d: nat, parent: Option<Node<T>>, p: Tokens, v: T, names: seq<Name>, strict: bool)
    requires Settles(node, d, p, strict)
    requires InsertAt(node, d, parent, p, v, names).outcome in {Ok, Err(Conflict)}
    ensures Tidy(InsertAt(node, d, parent, p, v, names).node, strict)
    decreases node, 1
  {
    hide WF, InsertAt;
    var k := CommonPrefix(p, node.prefix);
    var n := Prepared(node, p);
    if k == |p| {
      TidyEnd(node, d, parent, p, v, names, strict);
    } else if node.kind.ParamNode? {
      ParamPrepared(node, d, p);
      TidyBelowParam(node, d, parent, p, v, names, strict);
    } else if p[k].Lit? && p[k].b in n.indices {
      TidyBelowStatic(node, d, parent, p, v, names, strict, IndexOf(n.indices, p[k].b).value);
    } else if !p[k].Lit? && n.wildChild {
      TidyBelowWild(node, d, parent, p, v, names, strict);
    } else {
      TidyNewChild(node, d, parent, p, v, names, strict);
    }
  }

  lemma {:induction false} TidyEnd<T>(
    node: Node<T>, d: nat, parent: Option<Node<T>>, p: Tokens, v: T, names: seq<Name>, strict: bool)
    requires Settles(node, d, p, strict) && CommonPrefix(p, node.prefix) == |p|
    ensures Tidy(InsertAt(node, d, parent, p, v, names).node, strict)
  {
    hide WF, PrefixWildInSegment, SuffixWildInSegment, Promote, SuffixChild, InsertRoute, NewStatic, NewSuffix, NewWild;
    PreparedTidy(node, d, p, strict);
  }

  /** A whole tree stays in its class; the root must not be stale. */
  lemma {:induction false} InsertTidy<T>(t: Node<T>, p: Tokens, v: T, names: seq<Name>, strict: bool)
    requires TreeShape(t) && Tidy(t, strict) && PatternOk(p, strict) && !Stale(t, p)
    requires Insert(t, p, v, names).outcome in {Ok, Err(Conflict)}
    ensures Tidy(Insert(t, p, v, names).node, strict)
  {
    if t.value.None? && t.children == [] {
      EmptiedTree(t);
      var n := t.(priority := t.priority + 1);
      NeverConflicts(n, p, v, names);
      BlankTidy(n, p, v, names, strict);
    } else {
      InsertAtTidy(t, 0, None, p, v, names, strict);
    }
  }

  // ----- Removing -----

  lemma {:induction false} RemoveChildTidy<T>(n: Node<T>, i: nat, names: seq<Name>, strict: bool)
    requires Tidy(n, strict) && i < |n.children| && (TextShape(n) || ParamShape(n))
    ensures Tidy(RemoveChild(n, i, names).node, strict)
  {
    var child := n.children[i];
    if child.remapping == names {
      if child.children != [] {
        assert Tidy(child.(value := None), strict);
        PutTidy(n, i, child.(value := None), strict);
      } else {
        var m := RemoveChild(n, i, names).node;
        assert forall j | 0 <= j < |m.children| :: m.children[j] == n.children[if j < i then j else j + 1];
      }
    }
  }

  lemma {:induction false} RemoveAtTidy<T>(node: Node<T>, d: nat, p: Tokens, names: seq<Name>, strict: bool)
    requires WF(node, d) && Tidy(node, strict)
    ensures Tidy(RemoveAt(node, d, p, names).node, strict)
    decreases node
  {
    hide WF, RemoveChild;
    if node.prefix < p {
      var rest := p[|node.prefix|..];
      match ChildIndex(node, rest)
      case None => RemoveAtMisses(node, d, p, names);
      case Some(i) =>
        ChildWF(node, d, i);
        ChildrenShape(node, d);
        RemoveAtPicks(node, d, p, names, i);
        RemoveChildTidy(node, i, names, strict);
        RemoveAtTidy(node.children[i], Depth(node, d), rest, names, strict);
        PutTidy(node, i, RemoveAt(node.children[i], Depth(node, d), rest, names).node, strict);
    }
  }

  lemma {:induction false} ChildrenShape<T>(n: Node<T>, d: nat)
    requires WF(n, d) && n.children != []
    ensures TextShape(n) || ParamShape(n)
  {
  }

  lemma {:induction false} RemoveTidy<T>(t: Node<T>, p: Tokens, names: seq<Name>, strict: bool)
    requires TreeShape(t) && Tidy(t, strict)
    ensures Tidy(Remove(t, p, names).node, strict)
  {
    if p != t.prefix && t.kind.Root? {
      RemoveAtTidy(t, 0, p, names, strict);
    }
  }
}
