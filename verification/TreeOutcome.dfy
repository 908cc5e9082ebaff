/** Which insertions are accepted, and what one insertion does to a whole tree. */
module TreeOutcome {
  import opened Prelude
  import opened Pattern
  import opened RouteTree
  import opened TreeInsert
  import opened RouteBuild
  import opened InsertProof
  import opened InsertAtProof
  import opened InsertShape

  /** Only a valid pattern is accepted, and only a conflict refuses one. */
  ghost predicate ValidOutcome(outcome: Outcome, p: Tokens) {
    && (outcome.Ok? ==> Valid(p))
    && (Valid(p) ==> outcome in {Ok, Err(Conflict)})
  }

  lemma {:induction false} ValidSegment(p: Tokens)
    requires p != [] && p[0].Param? && AllLit(p[1..][..Terminator(p[1..])])
    ensures Valid(p) <==> Valid(p[1..])
  {
    var rest := p[1..];
    var t := Terminator(rest);
    assert rest == rest[..t] + rest[t..];
    ValidAfterText(rest[..t], rest[t..]);
  }

  lemma {:induction false} NewSuffixOutcome<T>(n: Node<T>, parent: Option<Node<T>>, p: Tokens, v: T, names: seq<Name>)
    requires n.kind.ParamNode? && |p| > 1 && p[0].Param?
    ensures ValidOutcome(NewSuffix(n, parent, p[1..], v, names).outcome, p)
  {
    hide PrefixWildInSegment;
    var rest := p[1..];
    var t := Terminator(rest);
    WildIffNotLit(rest[..t]);
    SuffixIffValid(rest[..t], rest[t..], v, names);
  }

  lemma {:induction false} ParamOutcome<T>(
    node: Node<T>, d: nat, parent: Option<Node<T>>, p: Tokens, v: T, names: seq<Name>)
    requires WF(node, d) && node.priority >= 1 && Enters(node, p) && node.kind.ParamNode?
    ensures ValidOutcome(InsertAt(node, d, parent, p, v, names).outcome, p)
    decreases node, 0
  {
    hide WF, PrefixWildInSegment, SuffixWildInSegment, Promote, SuffixChild, InsertRoute, NewSuffix, NewStatic,
      NewWild, WildConflict;
    var n := Prepared(node, p);
    var rest := p[1..];
    ParamPrepared(node, d, p);
    if rest == [] {
      assert Valid(p);
    } else {
      match IndexOfPrefix(node.children, rest[..Terminator(rest)])
      case None => NewSuffixOutcome(n, parent, p, v, names);
      case Some(i) =>
        ChildWF(node, d, i);
        ChildText(node.children[i], d + 1);
        InsertAtOutcome(node.children[i], d + 1, Some(n), rest, v, names);
        ValidSegment(p);
    }
  }

  lemma {:induction false} ChildText<T>(c: Node<T>, d: nat)
    requires WF(c, d) && c.kind.Static?
    ensures AllLit(c.prefix)
  {
  }

  lemma {:induction false} LiteralOutcome<T>(
    node: Node<T>, d: nat, parent: Option<Node<T>>, p: Tokens, v: T, names: seq<Name>)
    requires WF(node, d) && node.priority >= 1 && Enters(node, p) && TextKind(node)
    requires var k := CommonPrefix(p, node.prefix); k < |p| && p[k].Lit?
    ensures ValidOutcome(InsertAt(node, d, parent, p, v, names).outcome, p)
    decreases node, 0
  {
    hide WF, PrefixWildInSegment, SuffixWildInSegment, Promote, SuffixChild, InsertRoute, NewSuffix, NewWild,
      WildConflict;
    var k := CommonPrefix(p, node.prefix);
    var n := Prepared(node, p);
    var rest := p[k..];
    TextOutcome(node, d, p);
    match IndexOf(n.indices, p[k].b)
    case None =>
      BuildsIffValid<T>(Fresh(1, [], Static), rest, v, names);
      NeverConflicts<T>(Fresh(1, [], Static), rest, v, names);
    case Some(i) =>
      StaticFound(node, d, p, i);
      ChildWF(node, d, i);
      InsertAtOutcome(node.children[i], d, Some(n), rest, v, names);
  }

  lemma {:induction false} WildOutcome<T>(
    node: Node<T>, d: nat, parent: Option<Node<T>>, p: Tokens, v: T, names: seq<Name>)
    requires WF(node, d) && node.priority >= 1 && Enters(node, p) && TextKind(node)
    requires var k := CommonPrefix(p, node.prefix); k < |p| && !p[k].Lit?
    ensures ValidOutcome(InsertAt(node, d, parent, p, v, names).outcome, p)
    decreases node, 0
  {
    hide WF, PrefixWildInSegment, SuffixWildInSegment, Promote, SuffixChild, InsertRoute, NewSuffix, NewStatic, Valid;
    var k := CommonPrefix(p, node.prefix);
    var n := Prepared(node, p);
    var rest := p[k..];
    TextOutcome(node, d, p);
    BuildsIffValid(n, rest, v, names);
    NeverConflicts(n, rest, v, names);
    if n.wildChild {
      WildFound(node, d, p);
      var wild := node.children[|node.children| - 1];
      ChildWF(node, d, |node.children| - 1);
      if !WildConflict(n, wild, rest) {
        WildEnters(node, d, p);
        InsertAtOutcome(wild, d, Some(n), rest, v, names);
      }
    }
  }

  lemma {:induction false} InsertAtOutcome<T>(
    node: Node<T>, d: nat, parent: Option<Node<T>>, p: Tokens, v: T, names: seq<Name>)
    requires WF(node, d) && node.priority >= 1 && Enters(node, p)
    ensures ValidOutcome(InsertAt(node, d, parent, p, v, names).outcome, p)
    decreases node, 1
  {
    hide PrefixWildInSegment, SuffixWildInSegment, Promote, SuffixChild, InsertRoute, NewSuffix, NewStatic, NewWild;
    var k := CommonPrefix(p, node.prefix);
    if node.kind.ParamNode? {
      ParamOutcome(node, d, parent, p, v, names);
    } else if k == |p| {
      TextOutcome(node, d, p);
    } else if p[k].Lit? {
      LiteralOutcome(node, d, parent, p, v, names);
    } else {
      WildOutcome(node, d, parent, p, v, names);
    }
  }

  lemma {:induction false} TextOutcome<T>(node: Node<T>, d: nat, p: Tokens)
    requires WF(node, d) && TextKind(node)
    ensures Valid(p) <==> Valid(p[CommonPrefix(p, node.prefix)..])
  {
    var k := CommonPrefix(p, node.prefix);
    assert p == p[..k] + p[k..];
    assert AllLit(node.prefix) && p[..k] == node.prefix[..k];
    assert AllLit(p[..k]);
    ValidAfterText(p[..k], p[k..]);
  }

  // ----- A whole tree -----

  /** All routes were removed one by one, the root kept its text, and the new route starts with a wildcard. */
  ghost predicate Stale<T>(t: Node<T>, p: Tokens) {
    t.value.None? && t.children == [] && t.prefix != [] && p != [] && !p[0].Lit?
  }

  lemma {:induction false} EmptiedTree<T>(t: Node<T>)
    requires TreeShape(t) && t.value.None? && t.children == []
    ensures Blank(t) && AllLit(t.prefix)
    ensures forall x :: Get(t, x) == None
  {
  }

  lemma {:induction false} KindSame<T>(n: Node<T>, x: Tokens)
    requires TextKind(n)
    ensures Get(n.(kind := Root), x) == Get(n, x)
  {
  }

  lemma {:induction false} FirstInsert<T>(t: Node<T>, p: Tokens, v: T, names: seq<Name>, x: Tokens)
    requires TreeShape(t) && t.value.None? && t.children == []
    ensures var r := Insert(t, p, v, names);
            var stored := if Stale(t, p) then t.prefix + p else p;
            Get(r.node, x) == Written(r, stored, x, v, names, None)
  {
    hide Get;
    EmptiedTree(t);
    var n := t.(priority := t.priority + 1);
    assert Blank(n);
    var r := InsertRoute(n, p, v, names);
    KindSame(r.node, x);
    if Stale(t, p) {
      GraftGet(n, p, v, names, x);
      BumpGet(t, t.priority + 1, x);
    } else {
      BlankGet(n, p, v, names, x);
    }
  }

  lemma {:induction false} FirstShape<T>(t: Node<T>, p: Tokens, v: T, names: seq<Name>)
    requires TreeShape(t) && t.value.None? && t.children == [] && |names| == ParamCount(p)
    ensures var r := Insert(t, p, v, names);
            r.outcome != Err(Conflict) && (r.outcome.Ok? ==> TreeShape(r.node))
    ensures ValidOutcome(Insert(t, p, v, names).outcome, p)
  {
    EmptiedTree(t);
    var n := t.(priority := t.priority + 1);
    BuildsIffValid(n, p, v, names);
    NeverConflicts(n, p, v, names);
    if Valid(p) {
      BlankShape(n, 0, p, v, names);
      var m := InsertRoute(n, p, v, names).node.(kind := Root);
      assert Body(m, 0);
      BodyIsWF(m, 0);
    }
  }

  /**
   One insertion into a whole tree. It is accepted only for a valid pattern, keeps the shape
   unless the pattern is invalid, and adds exactly the new route, under the text a stale root
   still carries if there is one.
   */
  lemma {:induction false} InsertTree<T>(t: Node<T>, p: Tokens, v: T, names: seq<Name>)
    requires TreeShape(t) && |names| == ParamCount(p)
    ensures var r := Insert(t, p, v, names);
            && ValidOutcome(r.outcome, p)
            && (r.outcome in {Ok, Err(Conflict)} ==> TreeShape(r.node))
            && Adds(r, t, if Stale(t, p) then t.prefix + p else p, v, names)
  {
    hide Get;
    var r := Insert(t, p, v, names);
    if t.value.None? && t.children == [] {
      FirstShape(t, p, v, names);
      EmptiedTree(t);
      forall x ensures Get(r.node, x) == Written(r, if Stale(t, p) then t.prefix + p else p, x, v, names, None) {
        FirstInsert(t, p, v, names, x);
      }
    } else {
      InsertAtOutcome(t, 0, None, p, v, names);
      InsertAtAdds(t, 0, None, p, v, names);
      if r.outcome in {Ok, Err(Conflict)} {
        InsertAtShape(t, 0, None, p, v, names);
      }
    }
  }

  /** An accepted pattern is found again exactly when the root was not stale. */
  lemma {:induction false} InsertFoundIff<T>(t: Node<T>, p: Tokens, v: T, names: seq<Name>)
    requires TreeShape(t) && |names| == ParamCount(p)
    requires Insert(t, p, v, names).outcome.Ok?
    ensures Get(Insert(t, p, v, names).node, p) == Some(Route(v, names)) <==> !Stale(t, p)
  {
    hide Get;
    InsertTree(t, p, v, names);
    if Stale(t, p) {
      EmptiedTree(t);
      assert |t.prefix + p| > |p|;
      assert Get(t, p) == None;
    }
  }
}
