/** When a whole-segment pattern is accepted, and why a removed pattern can always come back. */
module Acceptance {
  import opened Prelude
  import opened Pattern
  import opened RouteTree
  import opened TreeInsert
  import opened RouteBuild
  import opened InsertProof
  import opened InsertAtProof
  import opened InsertShape
  import opened TreeRemove
  import opened TreeOutcome
  import opened SegmentTree

  // ----- The prefix/suffix checks never fire -----

  lemma {:induction false} NoWildInSegment<T>(c: Node<T>, d: nat)
    requires WF(c, d) && Tidy(c, true) && !c.kind.ParamNode? && c.prefix != []
    ensures !WildInSegment(c)
    decreases c
  {
    if SLASH_TOKEN !in c.prefix {
      assert !EndsInSlash(c.prefix);
      forall i | 0 <= i < |c.children| ensures !WildInSegment(c.children[i]) {
        ChildWF(c, d, i);
        assert Tidy(c.children[i], true);
        NotParamBelow(c, d, i);
        NoWildInSegment(c.children[i], d);
      }
    }
  }

  /** Below text that does not end a segment there is no parameter. */
  lemma {:induction false} NotParamBelow<T>(n: Node<T>, d: nat, i: nat)
    requires WF(n, d) && Tidy(n, true) && i < |n.children| && !n.kind.ParamNode? && !SegmentStart(n.prefix)
    ensures !n.children[i].kind.ParamNode?
  {
    if i < |n.indices| {
      assert Heads(n.children[i], n.indices[i]);
    }
  }

  lemma {:induction false} NoPrefixWild<T>(n: Node<T>, d: nat)
    requires WF(n, d) && Tidy(n, true)
    ensures !PrefixWildInSegment(n)
    decreases n
  {
    forall i | 0 <= i < |n.children|
      ensures EndsInSlash(n.prefix) ==> !PrefixWildInSegment(n.children[i])
      ensures !SegmentStart(n.prefix) ==> !WildInSegment(n.children[i])
    {
      ChildWF(n, d, i);
      assert Tidy(n.children[i], true);
      if EndsInSlash(n.prefix) {
        NoPrefixWild(n.children[i], Depth(n, d));
      } else if n.kind.ParamNode? {
        SlashSuffix(n, d, i);
      } else if n.prefix != [] {
        NotParamBelow(n, d, i);
        NoWildInSegment(n.children[i], d);
      }
    }
    EmptyTextIsRoot(n, d);
  }

  lemma {:induction false} SlashSuffix<T>(n: Node<T>, d: nat, i: nat)
    requires WF(n, d) && Tidy(n, true) && n.kind.ParamNode? && i < |n.children|
    ensures !WildInSegment(n.children[i])
  {
    assert n.children[i].prefix == [SLASH_TOKEN];
    assert SLASH_TOKEN in n.children[i].prefix;
  }

  lemma {:induction false} EmptyTextIsRoot<T>(n: Node<T>, d: nat)
    requires WF(n, d)
    ensures n.prefix == [] ==> n.kind.Root?
  {
  }

  lemma {:induction false} NoSuffixWild<T>(n: Node<T>, strict: bool)
    requires Tidy(n, strict)
    ensures !SuffixWildInSegment(n)
    decreases n
  {
    forall i | 0 <= i < |n.children| ensures !SuffixWildInSegment(n.children[i]) {
      NoSuffixWild(n.children[i], strict);
    }
  }

  // ----- Open places -----

  /** The way down along `p` meets neither a value at its end nor another wildcard. */
  ghost predicate Open<T>(n: Node<T>, p: Tokens)
    decreases n
  {
    if !(n.prefix <= p) then true
    else if p == n.prefix then n.value.None?
    else
      var rest := p[|n.prefix|..];
      match ChildIndex(n, rest)
      case None => true
      case Some(i) =>
        if rest[0].Lit? || n.kind.ParamNode? then Open(n.children[i], rest)
        else [rest[0]] == n.children[i].prefix && !n.children[i].kind.CatchAll? && Open(n.children[i], rest)
  }

  lemma {:induction false} ShorterCommon(p: Tokens, q: Tokens)
    ensures q <= p <==> CommonPrefix(p, q) == |q|
  {
    var k := CommonPrefix(p, q);
    if q <= p && k < |q| {
      assert false;
    }
    if k == |q| {
      assert q[..k] == q;
    }
  }

  /** The conditions of the walk for a whole-segment pattern. */
  ghost predicate Walks<T>(node: Node<T>, d: nat, p: Tokens) {
    Settles(node, d, p, true) && Valid(p) && (node.kind.Static? ==> p != [] && p[0] == node.prefix[0])
  }

  lemma {:induction false} NewSuffixOk<T>(n: Node<T>, parent: Option<Node<T>>, p: Tokens, v: T, names: seq<Name>)
    requires n.kind.ParamNode? && |p| > 1 && p[0].Param? && PatternOk(p, true) && Valid(p)
    ensures NewSuffix(n, parent, p[1..], v, names).outcome.Ok?
  {
    hide PrefixWildInSegment;
    PlainSegment(p, true);
    SuffixIffValid([SLASH_TOKEN], p[2..], v, names);
    WildIffNotLit([SLASH_TOKEN]);
  }

  lemma {:induction false} OpenParam<T>(
    node: Node<T>, d: nat, parent: Option<Node<T>>, p: Tokens, v: T, names: seq<Name>)
    requires Walks(node, d, p) && node.kind.ParamNode? && |p| > 1
    ensures InsertAt(node, d, parent, p, v, names).outcome.Ok? <==> Open(node, p)
    decreases node, 0
  {
    hide WF, PrefixWildInSegment, SuffixWildInSegment, Promote, SuffixChild, InsertRoute, NewSuffix, NewStatic,
      NewWild, WildConflict;
    var n := Prepared(node, p);
    ParamPrepared(node, d, p);
    assert node.prefix <= p && p != node.prefix by { ShorterCommon(p, node.prefix); }
    assert |node.prefix| == 1;
    var rest := p[1..];
    PatternRest(p, 1, true);
    match IndexOfPrefix(node.children, rest[..Terminator(rest)])
    case None => NewSuffixOk(n, parent, p, v, names);
    case Some(i) =>
      ChildWF(node, d, i);
      PlainSegment(p, true);
      ValidSegment(p);
      OpenInsert(node.children[i], d + 1, Some(n), rest, v, names);
  }

  lemma {:induction false} OpenLiteral<T>(
    node: Node<T>, d: nat, parent: Option<Node<T>>, p: Tokens, v: T, names: seq<Name>)
    requires Walks(node, d, p) && TextKind(node)
    requires var k := CommonPrefix(p, node.prefix); k < |p| && p[k].Lit?
    ensures InsertAt(node, d, parent, p, v, names).outcome.Ok? <==> Open(node, p)
    decreases node, 0
  {
    hide WF, PrefixWildInSegment, SuffixWildInSegment, Promote, SuffixChild, InsertRoute, NewSuffix, NewWild,
      WildConflict;
    var k := CommonPrefix(p, node.prefix);
    var n := Prepared(node, p);
    var rest := p[k..];
    assert rest[0] == p[k];
    ShorterCommon(p, node.prefix);
    PatternRest(p, k, true);
    TextOutcome(node, d, p);
    match IndexOf(n.indices, p[k].b)
    case Some(i) =>
      StaticFound(node, d, p, i);
      ChildWF(node, d, i);
      OpenInsert(node.children[i], d, Some(n), rest, v, names);
    case None =>
      BuildsIffValid<T>(Fresh(1, [], Static), rest, v, names);
      PreparedIsWF(node, d, p);
      PreparedTidy(node, d, p, true);
      NoPrefixWild(n, d);
      NoSuffixWild(n, true);
      NotForkedSame(node, p);
  }

  lemma {:induction false} NotForkedSame<T>(node: Node<T>, p: Tokens)
    requires node.priority >= 1
    ensures CommonPrefix(p, node.prefix) == |node.prefix| ==> Prepared(node, p) == node.(priority := node.priority + 1)
    ensures CommonPrefix(p, node.prefix) < |node.prefix| ==> !Prepared(node, p).wildChild
  {
  }

  lemma {:induction false} PreparedIsWF<T>(node: Node<T>, d: nat, p: Tokens)
    requires WF(node, d) && Enters(node, p) && TextKind(node)
    requires node.kind.Static? ==> p != [] && p[0] == node.prefix[0]
    ensures WF(Prepared(node, p), d)
  {
    PreparedBody(node, d, p);
    BodyIsWF(Prepared(node, p), d);
  }

  lemma {:induction false} OpenNewWild<T>(
    node: Node<T>, d: nat, parent: Option<Node<T>>, p: Tokens, v: T, names: seq<Name>)
    requires Walks(node, d, p) && TextKind(node) && !Prepared(node, p).wildChild
    requires var k := CommonPrefix(p, node.prefix); k < |p| && !p[k].Lit?
    ensures InsertAt(node, d, parent, p, v, names).outcome.Ok? <==> Open(node, p)
  {
    hide WF, PrefixWildInSegment, SuffixWildInSegment, Promote, SuffixChild, InsertRoute, NewSuffix, NewStatic;
    var k := CommonPrefix(p, node.prefix);
    var n := Prepared(node, p);
    var rest := p[k..];
    assert rest[0] == p[k];
    ShorterCommon(p, node.prefix);
    PatternRest(p, k, true);
    TextOutcome(node, d, p);
    NotForkedSame(node, p);
    PreparedIsWF(node, d, p);
    PreparedTidy(node, d, p, true);
    NoPrefixWild(n, d);
    NoSuffixWild(n, true);
    BuildsIffValid(n, rest, v, names);
  }

  /** Where a wildcard child stands, the walk is refused there or goes on below it. */
  lemma {:induction false} AtWild<T>(
    node: Node<T>, d: nat, parent: Option<Node<T>>, p: Tokens, v: T, names: seq<Name>)
    requires WF(node, d) && Enters(node, p) && TextKind(node) && Prepared(node, p).wildChild
    requires |node.prefix| < |p| && !p[|node.prefix|].Lit? && node.children != []
    requires CommonPrefix(p, node.prefix) == |node.prefix|
    ensures var wild, rest := node.children[|node.children| - 1], p[|node.prefix|..];
            if WildConflict(Prepared(node, p), wild, rest)
            then InsertAt(node, d, parent, p, v, names).outcome == Err(Conflict)
            else
              && WF(wild, d) && Enters(wild, rest)
              && InsertAt(node, d, parent, p, v, names).outcome ==
                 InsertAt(wild, d, Some(Prepared(node, p)), rest, v, names).outcome
  {
    hide PrefixWildInSegment, SuffixWildInSegment, Promote, SuffixChild, InsertRoute, NewSuffix, NewStatic, NewWild;
    var wild, rest := node.children[|node.children| - 1], p[|node.prefix|..];
    assert rest[0] == p[|node.prefix|];
    WildFound(node, d, p);
    if !WildConflict(Prepared(node, p), wild, rest) {
      WildEnters(node, d, p);
    }
  }

  lemma {:induction false} WalksOn<T>(node: Node<T>, d: nat, p: Tokens)
    requires Walks(node, d, p) && TextKind(node) && Prepared(node, p).wildChild && node.children != []
    requires |node.prefix| < |p| && CommonPrefix(p, node.prefix) == |node.prefix|
    requires !WildConflict(Prepared(node, p), node.children[|node.children| - 1], p[|node.prefix|..])
    ensures Walks(node.children[|node.children| - 1], d, p[|node.prefix|..])
  {
    hide PrefixWildInSegment, SuffixWildInSegment;
    PatternRest(p, |node.prefix|, true);
    TextOutcome(node, d, p);
    WildFound(node, d, p);
    WildEnters(node, d, p);
    ChildWF(node, d, |node.children| - 1);
    assert Tidy(node.children[|node.children| - 1], true);
  }

  lemma {:induction false} NoSuffixes<T>(n: Node<T>, i: nat)
    requires Tidy(n, true) && i < |n.children|
    ensures n.children[i].kind != ParamNode(true)
  {
    assert Tidy(n.children[i], true);
  }

  lemma {:induction false} OpenWild<T>(
    node: Node<T>, d: nat, parent: Option<Node<T>>, p: Tokens, v: T, names: seq<Name>)
    requires Walks(node, d, p) && TextKind(node)
    requires var k := CommonPrefix(p, node.prefix); k < |p| && !p[k].Lit?
    ensures InsertAt(node, d, parent, p, v, names).outcome.Ok? <==> Open(node, p)
    decreases node, 0
  {
    hide WF, InsertAt, Tidy, CommonPrefix;
    var k := CommonPrefix(p, node.prefix);
    var n := Prepared(node, p);
    if n.wildChild {
      var rest := p[k..];
      assert rest[0] == p[k];
      ShorterCommon(p, node.prefix);
      WildFound(node, d, p);
      var wild := node.children[|node.children| - 1];
      assert ChildIndex(node, rest) == Some(|node.children| - 1);
      NoSuffixes(node, |node.children| - 1);
      AtWild(node, d, parent, p, v, names);
      if !WildConflict(n, wild, rest) {
        WalksOn(node, d, p);
        OpenInsert(wild, d, Some(n), rest, v, names);
      }
    } else {
      OpenNewWild(node, d, parent, p, v, names);
    }
  }

  /** The walk accepts a whole-segment pattern exactly when its place is open. */
  lemma {:induction false} OpenInsert<T>(
    node: Node<T>, d: nat, parent: Option<Node<T>>, p: Tokens, v: T, names: seq<Name>)
    requires Walks(node, d, p)
    ensures InsertAt(node, d, parent, p, v, names).outcome.Ok? <==> Open(node, p)
    decreases node, 1
  {
    hide WF;
    var k := CommonPrefix(p, node.prefix);
    if k == |p| {
      OpenEnd(node, d, parent, p, v, names);
    } else if node.kind.ParamNode? {
      ParamPrepared(node, d, p);
      OpenParam(node, d, parent, p, v, names);
    } else if p[k].Lit? {
      OpenLiteral(node, d, parent, p, v, names);
    } else {
      OpenWild(node, d, parent, p, v, names);
    }
  }

  lemma {:induction false} OpenEnd<T>(node: Node<T>, d: nat, parent: Option<Node<T>>, p: Tokens, v: T, names: seq<Name>)
    requires Walks(node, d, p) && CommonPrefix(p, node.prefix) == |p|
    ensures InsertAt(node, d, parent, p, v, names).outcome.Ok? <==> Open(node, p)
  {
    hide PrefixWildInSegment, SuffixWildInSegment, Promote, SuffixChild, InsertRoute, NewSuffix, NewStatic, NewWild;
    ShorterCommon(p, node.prefix);
    if p == node.prefix {
      assert Prepared(node, p).value == node.value;
    } else {
      assert CommonPrefix(p, node.prefix) < |node.prefix|;
      assert Prepared(node, p).value.None?;
    }
  }

  // ----- Coming back -----

  lemma {:induction false} CutIsOpen<T>(m: Node<T>, n: Node<T>, i: nat, rest: Tokens)
    requires i < |n.children| && CutOf(m, n, i) && rest != [] && ChildIndex(n, rest) == Some(i)
    ensures Open(m, m.prefix + rest)
  {
    var p := m.prefix + rest;
    assert p[|m.prefix|..] == rest;
    assert Picked(m, rest) == None;
    assert ChildIndex(m, rest) == None;
  }

  lemma {:induction false} ClearedIsOpen<T>(n: Node<T>, d: nat, i: nat)
    requires WF(n, d) && i < |n.children| && n.children[i].children != []
    requires n.children[i].prefix != [] && ChildIndex(n, n.children[i].prefix) == Some(i)
    ensures Open(n.(children := n.children[i := n.children[i].(value := None)]), n.prefix + n.children[i].prefix)
  {
    var c := n.children[i];
    var m := n.(children := n.children[i := c.(value := None)]);
    var p := n.prefix + c.prefix;
    assert p[|n.prefix|..] == c.prefix;
    SamePrefixes(n.children, m.children, c.prefix[..Terminator(c.prefix)]);
    assert ChildIndex(m, c.prefix) == Some(i);
    ChildWF(n, d, i);
    if !c.prefix[0].Lit? {
      assert Wild(c);
      assert [c.prefix[0]] == c.prefix;
    }
  }

  lemma {:induction false} RemovedChildIsOpen<T>(n: Node<T>, d: nat, i: nat, names: seq<Name>)
    requires WF(n, d) && i < |n.children| && (TextShape(n) || n.kind.ParamNode?)
    requires n.children[i].prefix != [] && ChildIndex(n, n.children[i].prefix) == Some(i)
    requires n.children[i].remapping == names
    ensures Open(RemoveChild(n, i, names).node, n.prefix + n.children[i].prefix)
  {
    hide WF, Open;
    if n.children[i].children == [] {
      CutChild(n, d, i, names);
      CutIsOpen(RemoveChild(n, i, names).node, n, i, n.children[i].prefix);
    } else {
      ClearedIsOpen(n, d, i);
    }
  }

  lemma {:induction false} OpenBelow<T>(n: Node<T>, d: nat, i: nat, c: Node<T>, rest: Tokens)
    requires WF(n, d) && i < |n.children| && rest != [] && ChildIndex(n, rest) == Some(i)
    requires c.prefix == n.children[i].prefix && c.kind == n.children[i].kind && Open(c, rest)
    requires n.children[i].prefix < rest && !c.kind.CatchAll?
    ensures Open(n.(children := n.children[i := c]), n.prefix + rest)
  {
    var m := n.(children := n.children[i := c]);
    assert (n.prefix + rest)[|n.prefix|..] == rest;
    SamePrefixes(n.children, m.children, rest[..Terminator(rest)]);
    assert ChildIndex(m, rest) == Some(i);
    ChildWF(n, d, i);
    if !rest[0].Lit? && !n.kind.ParamNode? {
      NotCatchAbove(n, d, i, rest);
    }
  }

  lemma {:induction false} NotCatchAbove<T>(n: Node<T>, d: nat, i: nat, rest: Tokens)
    requires WF(n, d) && !n.kind.ParamNode? && i < |n.children| && n.children[i].prefix < rest && rest != [] &&
             !rest[0].Lit?
    ensures [rest[0]] == n.children[i].prefix
  {
    ChildWF(n, d, i);
    assert rest[0] == n.children[i].prefix[0];
  }

  /** Once its route is taken out, the place of a pattern is open again. */
  lemma {:induction false} RemovedIsOpen<T>(node: Node<T>, d: nat, p: Tokens, names: seq<Name>)
    requires WF(node, d) && p != node.prefix
    requires Get(node, p).Some? && Get(node, p).value.names == names
    ensures Open(RemoveAt(node, d, p, names).node, p)
    decreases node
  {
    hide WF, Open, RemoveChild;
    HeldStep(node, p);
    var rest := p[|node.prefix|..];
    var i := ChildIndex(node, rest).value;
    var c := node.children[i];
    ChildWF(node, d, i);
    ShapeWithChild(node, d);
    RemoveAtPicks(node, d, p, names, i);
    assert p == node.prefix + rest;
    if c.prefix == rest {
      OwnNames(c, rest);
      RemovedChildIsOpen(node, d, i, names);
    } else {
      RemovedIsOpen(c, Depth(node, d), rest, names);
      HeldStep(c, rest);
      CatchHasNoChildren(c, Depth(node, d));
      OpenBelow(node, d, i, RemoveAt(c, Depth(node, d), rest, names).node, rest);
    }
  }

  lemma {:induction false} CatchHasNoChildren<T>(c: Node<T>, d: nat)
    requires WF(c, d)
    ensures c.kind.CatchAll? ==> c.children == []
  {
  }

  lemma {:induction false} OwnNames<T>(c: Node<T>, p: Tokens)
    requires p == c.prefix && Get(c, p).Some?
    ensures Get(c, p).value.names == c.remapping
  {
  }

  lemma {:induction false} HeldStep<T>(n: Node<T>, p: Tokens)
    requires Get(n, p).Some? && p != n.prefix
    ensures n.prefix < p && ChildIndex(n, p[|n.prefix|..]).Some?
    ensures Get(n.children[ChildIndex(n, p[|n.prefix|..]).value], p[|n.prefix|..]) == Get(n, p)
  {
  }

  // ----- Routes that exclude each other -----

  /** Equal patterns, or patterns that part with two different wildcards. */
  ghost predicate Clash(p: Tokens, q: Tokens) {
    p == q || exists k :: ClashAt(p, q, k)
  }

  ghost predicate ClashAt(p: Tokens, q: Tokens, k: nat) {
    k < |p| && k < |q| && p[..k] == q[..k] && !p[k].Lit? && !q[k].Lit? && p[k] != q[k]
  }

  lemma {:induction false} ClashForward(x: Tokens, p: Tokens, q: Tokens, k: nat)
    requires ClashAt(p, q, k)
    ensures ClashAt(x + p, x + q, |x| + k)
  {
    assert (x + p)[..|x| + k] == x + p[..k] && (x + q)[..|x| + k] == x + q[..k];
  }

  lemma {:induction false} ClashBackward(x: Tokens, p: Tokens, q: Tokens, k: nat)
    requires ClashAt(x + p, x + q, k)
    ensures k >= |x| && ClashAt(p, q, k - |x|)
  {
    assert forall j | 0 <= j < |x| :: (x + p)[j] == x[j] && (x + q)[j] == x[j];
    var j := k - |x|;
    assert p[..j] == (x + p)[..k][|x|..] && q[..j] == (x + q)[..k][|x|..];
  }

  /** Behind a common text, two patterns exclude each other exactly when their rests do. */
  lemma {:induction false} ClashBehind(x: Tokens, p: Tokens, q: Tokens)
    ensures Clash(x + p, x + q) <==> Clash(p, q)
  {
    hide ClashAt;
    assert p == (x + p)[|x|..] && q == (x + q)[|x|..];
    if k: nat :| ClashAt(p, q, k) {
      ClashForward(x, p, q, k);
    }
    if k: nat :| ClashAt(x + p, x + q, k) {
      ClashBackward(x, p, q, k);
    }
  }

  /** Patterns that part with a literal on one side do not exclude each other. */
  lemma {:induction false} LiteralParts(p: Tokens, q: Tokens, k: nat)
    requires k <= |p| && k <= |q| && p[..k] == q[..k] && p != q
    requires k < |p| && k < |q| ==> p[k] != q[k] && (p[k].Lit? || q[k].Lit?)
    ensures !Clash(p, q)
  {
    forall j: nat ensures !ClashAt(p, q, j) {
      if j < k {
        assert p[j] == p[..k][j] && q[j] == q[..k][j];
      } else if k < j && j < |p| && j < |q| {
        assert p[..j][k] == p[k] && q[..j][k] == q[k];
      }
    }
  }

  /** `q` goes on below `n`, and not the way of `p`. */
  lemma {:induction false} OtherWay<T>(n: Node<T>, d: nat, p: Tokens, q: Tokens)
    requires WF(n, d) && TextKind(n) && n.prefix < p && n.prefix < q
    requires p[|n.prefix|].Lit? || q[|n.prefix|].Lit?
    requires p[|n.prefix|] != q[|n.prefix|]
    ensures !Clash(p, q)
  {
    LiteralParts(p, q, |n.prefix|);
  }

  /** A route of `n` that shares less than the text of `n` with `p`, or ends there. */
  lemma {:induction false} TextParts<T>(n: Node<T>, d: nat, p: Tokens, q: Tokens)
    requires WF(n, d) && TextKind(n) && n.prefix <= q && p != q
    requires !(n.prefix < p) || q == n.prefix
    ensures !Clash(p, q)
  {
    if n.prefix <= p {
      LiteralParts(p, q, |n.prefix|);
    } else {
      var k := CommonPrefix(p, n.prefix);
      ShorterCommon(p, n.prefix);
      assert q[..k] == n.prefix[..k];
      assert AllLit(n.prefix) && k < |n.prefix| && q[k] == n.prefix[k];
      LiteralParts(p, q, k);
    }
  }

  lemma {:induction false} HeldPrefix<T>(n: Node<T>, q: Tokens)
    requires Get(n, q).Some?
    ensures n.prefix <= q
  {
  }

  /** The node, with or without a value, that the way `q` ends at. */
  function NodeAt<T>(n: Node<T>, q: Tokens): Option<Node<T>>
    decreases n
  {
    if !(n.prefix <= q) then None
    else if q == n.prefix then Some(n)
    else
      match ChildIndex(n, q[|n.prefix|..])
      case None => None
      case Some(i) => NodeAt(n.children[i], q[|n.prefix|..])
  }

  /** Some node below `n`, with or without a value, is reached by `q`. */
  ghost predicate Spelled<T>(n: Node<T>, q: Tokens) {
    NodeAt(n, q).Some?
  }

  lemma {:induction false} HeldIsSpelled<T>(n: Node<T>, q: Tokens)
    requires Get(n, q).Some?
    ensures Spelled(n, q)
    decreases n
  {
    if q != n.prefix {
      HeldStep(n, q);
      HeldIsSpelled(n.children[ChildIndex(n, q[|n.prefix|..]).value], q[|n.prefix|..]);
    }
  }

  lemma {:induction false} SpelledStep<T>(n: Node<T>, q: Tokens)
    requires Spelled(n, q)
    ensures n.prefix <= q
    ensures q != n.prefix ==>
              && ChildIndex(n, q[|n.prefix|..]).Some?
              && Spelled(n.children[ChildIndex(n, q[|n.prefix|..]).value], q[|n.prefix|..])
  {
  }

  /** An open place holds no route. */
  lemma {:induction false} OpenIsFree<T>(n: Node<T>, p: Tokens)
    requires Open(n, p)
    ensures Get(n, p).None?
    decreases n
  {
    if n.prefix < p {
      var rest := p[|n.prefix|..];
      if ChildIndex(n, rest).Some? {
        OpenIsFree(n.children[ChildIndex(n, rest).value], rest);
      }
    }
  }

  lemma {:induction false} ParamOwn<T>(n: Node<T>, d: nat, p: Tokens, q: Tokens)
    requires WF(n, d) && n.kind.ParamNode? && [Param] <= p && n.prefix <= q && p != q
    requires q == n.prefix || !(n.prefix < p)
    ensures !Clash(p, q)
  {
    assert p[..1] == [Param] && q[..1] == [Param];
    LiteralParts(p, q, 1);
  }

  lemma {:induction false} HasText<T>(n: Node<T>, d: nat, q: Tokens)
    requires WF(n, d) && !n.kind.ParamNode? && Spelled(n, q) && n.prefix < q
    ensures TextKind(n)
  {
  }

  lemma {:induction false} SlashTwin<T>(n: Node<T>, d: nat, rest: Tokens, y: Tokens, j: nat)
    requires WF(n, d) && Tidy(n, true) && n.kind.ParamNode? && rest != [] && y != []
    requires rest[0] == SLASH_TOKEN && ChildIndex(n, y) == Some(j)
    ensures ChildIndex(n, rest) == Some(j) && n.children[j].prefix == [SLASH_TOKEN]
  {
    assert n.children[j].prefix == [SLASH_TOKEN];
    assert Terminator(rest) == 1;
    assert rest[..1] == [SLASH_TOKEN];
    SuffixIsUnique(n, rest, j);
  }

  lemma {:induction false} OpenNoBlockParam<T>(n: Node<T>, d: nat, p: Tokens, q: Tokens)
    requires Walks(n, d, p) && n.kind.ParamNode? && Open(n, p) && Spelled(n, q) && p != q
    requires n.prefix == [Param] && |p| > 1 && |q| > 1
    ensures !Clash(p, q)
    decreases n, 0
  {
    hide Spelled, WF;
    SpelledStep(n, q);
    var rest, y := p[1..], q[1..];
    assert p == [Param] + rest && q == [Param] + y;
    var j := ChildIndex(n, y).value;
    PlainSegment(p, true);
    PatternRest(p, 1, true);
    assert p[1] == SLASH_TOKEN && rest[0] == p[1];
    SlashTwin(n, d, rest, y, j);
    ChildWF(n, d, j);
    ValidSegment(p);
    OpenNoBlock(n.children[j], d + 1, rest, y);
    ClashBehind([Param], rest, y);
  }

  lemma {:induction false} OpenNoBlockText<T>(n: Node<T>, d: nat, p: Tokens, q: Tokens)
    requires Walks(n, d, p) && TextKind(n) && Open(n, p) && Spelled(n, q) && p != q && n.prefix < p && n.prefix < q
    requires p[|n.prefix|] == q[|n.prefix|] || (!p[|n.prefix|].Lit? && !q[|n.prefix|].Lit?)
    ensures !Clash(p, q)
    decreases n, 0
  {
    hide Spelled, WF;
    SpelledStep(n, q);
    var x, rest, y := n.prefix, p[|n.prefix|..], q[|n.prefix|..];
    assert p == x + rest && q == x + y && rest[0] == p[|x|] && y[0] == q[|x|];
    var i := ChildIndex(n, y).value;
    assert ChildIndex(n, rest) == Some(i);
    ChildWF(n, d, i);
    PatternRest(p, |x|, true);
    ValidBehind(n, d, p);
    assert Enters(n.children[i], rest) by { ChildEnters(n, d, i, rest); }
    ChildHead(n, d, i, rest);
    OpenNoBlock(n.children[i], d, rest, y);
    ClashBehind(x, rest, y);
  }

  lemma {:induction false} ValidBehind<T>(n: Node<T>, d: nat, p: Tokens)
    requires WF(n, d) && TextKind(n) && n.prefix <= p && Valid(p)
    ensures Valid(p[|n.prefix|..])
  {
    assert p == n.prefix + p[|n.prefix|..];
    ValidAfterText(n.prefix, p[|n.prefix|..]);
  }

  lemma {:induction false} ChildHead<T>(n: Node<T>, d: nat, i: nat, rest: Tokens)
    requires WF(n, d) && TextKind(n) && rest != [] && ChildIndex(n, rest) == Some(i)
    ensures n.children[i].prefix != [] && (n.children[i].kind.Static? ==> rest[0] == n.children[i].prefix[0])
  {
    ChildWF(n, d, i);
  }

  lemma {:induction false} ChildEnters<T>(n: Node<T>, d: nat, i: nat, rest: Tokens)
    requires WF(n, d) && TextKind(n) && rest != [] && ChildIndex(n, rest) == Some(i)
    requires !rest[0].Lit? ==> [rest[0]] == n.children[i].prefix && !n.children[i].kind.CatchAll?
    ensures Enters(n.children[i], rest)
  {
    ChildWF(n, d, i);
    assert rest[..1] == [rest[0]];
  }

  /** Around an open place no node excludes the pattern. */
  lemma {:induction false} OpenNoBlock<T>(n: Node<T>, d: nat, p: Tokens, q: Tokens)
    requires Walks(n, d, p) && Open(n, p) && Spelled(n, q) && p != q
    ensures !Clash(p, q)
    decreases n, 1
  {
    hide Spelled, WF, CommonPrefix;
    SpelledStep(n, q);
    if q == n.prefix || !(n.prefix < p) {
      if TextKind(n) {
        TextParts(n, d, p, q);
      } else {
        ParamOwn(n, d, p, q);
      }
    } else {
      var x, rest, y := n.prefix, p[|n.prefix|..], q[|n.prefix|..];
      assert rest[0] == p[|x|] && y[0] == q[|x|];
      if n.kind.ParamNode? {
        ParamText(n, d);
        OpenNoBlockParam(n, d, p, q);
      } else if rest[0] == y[0] || (!rest[0].Lit? && !y[0].Lit?) {
        HasText(n, d, q);
        OpenNoBlockText(n, d, p, q);
      } else {
        HasText(n, d, q);
        OtherWay(n, d, p, q);
      }
    }
  }

  /** In an open place no route excludes the pattern. */
  lemma {:induction false} OpenNoClash<T>(n: Node<T>, d: nat, p: Tokens, q: Tokens)
    requires Walks(n, d, p) && Open(n, p) && Get(n, q).Some?
    ensures !Clash(p, q)
  {
    OpenIsFree(n, p);
    HeldIsSpelled(n, q);
    OpenNoBlock(n, d, p, q);
  }

  lemma {:induction false} ParamText<T>(n: Node<T>, d: nat)
    requires WF(n, d) && n.kind.ParamNode?
    ensures n.prefix == [Param]
  {
  }

  // ----- Trees nothing was removed from -----

  /** Every childless node holds a value. */
  ghost predicate Live<T>(n: Node<T>)
    decreases n
  {
    (n.children == [] ==> n.value.Some?) && forall i | 0 <= i < |n.children| :: Live(n.children[i])
  }

  lemma {:induction false} SomeRoute<T>(n: Node<T>, d: nat) returns (q: Tokens)
    requires WF(n, d) && Live(n)
    ensures Get(n, q).Some?
    decreases n
  {
    if n.value.Some? {
      q := n.prefix;
    } else {
      ChildWF(n, d, 0);
      var y := SomeRoute(n.children[0], Depth(n, d));
      HeldPrefix(n.children[0], y);
      HeldChild(n.children[0], y);
      ChildIsUnique(n, d, y, 0);
      HeldBelow(n, 0, y);
      q := n.prefix + y;
    }
  }

  lemma {:induction false} HeldChild<T>(c: Node<T>, y: Tokens)
    requires Get(c, y).Some?
    ensures c.prefix == y || c.children != []
  {
  }

  /** In a live tree a closed place means a route that excludes the pattern. */
  lemma {:induction false} ClosedHasClash<T>(n: Node<T>, d: nat, p: Tokens) returns (q: Tokens)
    requires Walks(n, d, p) && Live(n) && !Open(n, p)
    ensures Get(n, q).Some? && Clash(p, q)
    decreases n
  {
    hide WF, CommonPrefix;
    if p == n.prefix {
      q := p;
      OwnRoute(n);
    } else {
      var x, rest := n.prefix, p[|n.prefix|..];
      assert p == x + rest && rest[0] == p[|x|];
      var i := ChildIndex(n, rest).value;
      var c := n.children[i];
      ChildWF(n, d, i);
      PatternRest(p, |x|, true);
      var y: Tokens;
      if n.kind.ParamNode? || rest[0].Lit? || ([rest[0]] == c.prefix && !c.kind.CatchAll?) {
        ClosedChild(n, d, p, i);
        y := ClosedHasClash(c, Depth(n, d), rest);
      } else {
        y := SomeRoute(c, Depth(n, d));
        WildTextClash(n, d, p, i, y);
      }
      ClashBehind(x, rest, y);
      HeldIndex(n, d, i, y, rest);
      HeldBelow(n, i, y);
      q := x + y;
    }
  }

  /** What closes a place: a route there, or a node that excludes the pattern. */
  ghost predicate Blocks<T>(n: Node<T>, p: Tokens, q: Tokens) {
    Clash(p, q) && Spelled(n, q) && (p == q ==> Get(n, p).Some?)
  }

  /** A closed place means such a node, whatever was removed. */
  lemma {:induction false} ClosedIsBlocked<T>(n: Node<T>, d: nat, p: Tokens) returns (q: Tokens)
    requires Walks(n, d, p) && !Open(n, p)
    ensures Blocks(n, p, q)
    decreases n
  {
    hide WF, CommonPrefix;
    if p == n.prefix {
      q := p;
      OwnRoute(n);
    } else {
      var x, rest := n.prefix, p[|n.prefix|..];
      assert p == x + rest && rest[0] == p[|x|];
      var i := ChildIndex(n, rest).value;
      var c := n.children[i];
      ChildWF(n, d, i);
      PatternRest(p, |x|, true);
      var y: Tokens;
      if n.kind.ParamNode? || rest[0].Lit? || ([rest[0]] == c.prefix && !c.kind.CatchAll?) {
        ClosedChild(n, d, p, i);
        y := ClosedIsBlocked(c, Depth(n, d), rest);
      } else {
        y := c.prefix;
        OwnRouteClash(n, d, p, i);
      }
      q := x + y;
      BlocksBehind(n, d, i, rest, y);
    }
  }

  lemma {:induction false} BlocksBehind<T>(n: Node<T>, d: nat, i: nat, rest: Tokens, y: Tokens)
    requires WF(n, d) && rest != [] && ChildIndex(n, rest) == Some(i) && Blocks(n.children[i], rest, y)
    ensures Blocks(n, n.prefix + rest, n.prefix + y)
  {
    hide WF, Clash;
    var x, c := n.prefix, n.children[i];
    ClashBehind(x, rest, y);
    ChildWF(n, d, i);
    SpelledStep(c, y);
    SpelledBelow(c, y);
    ChildIsUnique(n, d, y, i);
    assert (x + y)[|x|..] == y;
    if x + rest == x + y {
      assert rest == (x + rest)[|x|..];
      HeldBelow(n, i, rest);
    }
  }

  lemma {:induction false} SpelledBelow<T>(c: Node<T>, y: Tokens)
    requires Spelled(c, y)
    ensures c.prefix == y || c.children != []
  {
  }

  /** A wildcard child of another kind, or a catch-all, stands in the way. */
  lemma {:induction false} OwnRouteClash<T>(n: Node<T>, d: nat, p: Tokens, i: nat)
    requires Walks(n, d, p) && n.prefix < p && ChildIndex(n, p[|n.prefix|..]) == Some(i) && !n.kind.ParamNode?
    requires !p[|n.prefix|].Lit? && ([p[|n.prefix|]] != n.children[i].prefix || n.children[i].kind.CatchAll?)
    ensures Blocks(n.children[i], p[|n.prefix|..], n.children[i].prefix)
  {
    var rest := p[|n.prefix|..];
    var c := n.children[i];
    assert rest[0] == p[|n.prefix|];
    ChildWF(n, d, i);
    ValidBehind(n, d, p);
    if [rest[0]] != c.prefix {
      assert rest[..0] == c.prefix[..0];
      assert ClashAt(rest, c.prefix, 0);
    } else {
      assert rest == [rest[0]];
    }
  }

  /** A place is open exactly if nothing blocks it. */
  lemma {:induction false} OpenIff<T>(n: Node<T>, d: nat, p: Tokens)
    requires Walks(n, d, p)
    ensures Open(n, p) <==> forall q :: !Blocks(n, p, q)
  {
    if Open(n, p) {
      OpenIsFree(n, p);
      forall q ensures !Blocks(n, p, q) {
        if Spelled(n, q) && p != q {
          OpenNoBlock(n, d, p, q);
        }
      }
    } else {
      var q := ClosedIsBlocked(n, d, p);
    }
  }

  lemma {:induction false} OwnRoute<T>(n: Node<T>)
    requires n.value.Some?
    ensures Get(n, n.prefix).Some?
  {
  }

  lemma {:induction false} HeldIndex<T>(n: Node<T>, d: nat, i: nat, y: Tokens, rest: Tokens)
    requires WF(n, d) && i < |n.children| && Get(n.children[i], y).Some?
    ensures y != [] && ChildIndex(n, y) == Some(i)
  {
    ChildWF(n, d, i);
    HeldPrefix(n.children[i], y);
    HeldChild(n.children[i], y);
    ChildIsUnique(n, d, y, i);
  }

  lemma {:induction false} ClosedChild<T>(n: Node<T>, d: nat, p: Tokens, i: nat)
    requires Walks(n, d, p) && n.prefix < p && ChildIndex(n, p[|n.prefix|..]) == Some(i) && !Open(n, p)
    requires n.kind.ParamNode? || p[|n.prefix|].Lit? ||
             ([p[|n.prefix|]] == n.children[i].prefix && !n.children[i].kind.CatchAll?)
    ensures Walks(n.children[i], Depth(n, d), p[|n.prefix|..]) && !Open(n.children[i], p[|n.prefix|..])
  {
    hide WF;
    var rest := p[|n.prefix|..];
    assert rest[0] == p[|n.prefix|];
    ChildWF(n, d, i);
    PatternRest(p, |n.prefix|, true);
    if n.kind.ParamNode? {
      ParamText(n, d);
      PlainSegment(p, true);
      ValidSegment(p);
    } else {
      CatchHasNoChildren(n, d);
      ValidBehind(n, d, p);
      ChildHead(n, d, i, rest);
      ChildEnters(n, d, i, rest);
    }
  }

  lemma {:induction false} WildTextClash<T>(n: Node<T>, d: nat, p: Tokens, i: nat, y: Tokens)
    requires Walks(n, d, p) && n.prefix < p && ChildIndex(n, p[|n.prefix|..]) == Some(i) && !n.kind.ParamNode?
    requires !p[|n.prefix|].Lit? && Get(n.children[i], y).Some?
    requires [p[|n.prefix|]] != n.children[i].prefix || n.children[i].kind.CatchAll?
    ensures Clash(p[|n.prefix|..], y)
  {
    var rest := p[|n.prefix|..];
    var c := n.children[i];
    assert rest[0] == p[|n.prefix|];
    ChildWF(n, d, i);
    HeldPrefix(c, y);
    HeldChild(c, y);
    ValidBehind(n, d, p);
    if [rest[0]] != c.prefix {
      assert rest[..0] == y[..0];
      assert ClashAt(rest, y, 0);
    } else {
      assert y == c.prefix;
      assert rest == [rest[0]];
    }
  }
}
