/**
 The radix tree of routes: its nodes, the shape every tree keeps, and the table of
 routes a tree stands for.
 */
module RouteTree {
  import opened Prelude
  import opened Pattern

  datatype Kind = Root | ParamNode(suffix: bool) | CatchAll | Static

  datatype Node<T> = Node(
    prefix: Tokens,
    priority: nat,
    wildChild: bool,
    indices: bytes,
    kind: Kind,
    children: seq<Node<T>>,
    value: Option<T>,
    remapping: seq<Name>)

  /** What a pattern is registered with: the value and the parameter names of its own route. */
  datatype Route<T> = Route(value: T, names: seq<Name>)

  /** A node nobody has written to yet. */
  function Fresh<T>(priority: nat, prefix: Tokens, kind: Kind): Node<T> {
    Node(prefix, priority, false, [], kind, [], None, [])
  }

  /** The tree before the first route. */
  function Empty<T>(): Node<T> {
    Fresh(0, [], Static)
  }

  // ----- Looking up children -----

  function IndexOf(s: bytes, b: byte): (r: Option<nat>)
    ensures r.Some? ==> r.value < |s| && s[r.value] == b && b !in s[..(r.value)]
    ensures r.None? <==> b !in s
  {
    if s == [] then None
    else if s[0] == b then Some(0)
    else match IndexOf(s[1..], b)
      case None => None
      case Some(i) => Some(i + 1)
  }

  /** The child whose own text is exactly `p`. */
  function IndexOfPrefix<T>(children: seq<Node<T>>, p: Tokens): (r: Option<nat>)
    ensures r.Some? ==> r.value < |children| && children[r.value].prefix == p
    ensures r.None? ==> forall i | 0 <= i < |children| :: children[i].prefix != p
  {
    if children == [] then None
    else if children[0].prefix == p then Some(0)
    else match IndexOfPrefix(children[1..], p)
      case None =>
        assert forall i | 0 < i < |children| :: children[i] == children[1..][i - 1];
        None
      case Some(i) => Some(i + 1)
  }

  /** The child that continues with `rest`: by suffix below a parameter, by first token elsewhere. */
  function ChildIndex<T>(n: Node<T>, rest: Tokens): (r: Option<nat>)
    requires rest != []
    ensures r.Some? ==> r.value < |n.children|
  {
    if n.kind.ParamNode? then IndexOfPrefix(n.children, rest[..Terminator(rest)])
    else if rest[0].Lit? then
      match IndexOf(n.indices, rest[0].b)
      case None => None
      case Some(i) => if i < |n.children| then Some(i) else None
    else if n.wildChild && |n.children| > 0 then Some(|n.children| - 1)
    else None
  }

  /** The route stored for pattern `p` below `n`. */
  function Get<T>(n: Node<T>, p: Tokens): Option<Route<T>>
    decreases n
  {
    if !(n.prefix <= p) then None
    else if |p| == |n.prefix| then
      (match n.value case None => None case Some(v) => Some(Route(v, n.remapping)))
    else
      var rest := p[|n.prefix|..];
      match ChildIndex(n, rest)
      case None => None
      case Some(i) => Get(n.children[i], rest)
  }

  // ----- Shape -----

  /** `c` is a static child listed under byte `b`. */
  predicate Heads<T>(c: Node<T>, b: byte) {
    c.kind.Static? && c.prefix != [] && c.prefix[0] == Lit(b)
  }

  predicate Wild<T>(c: Node<T>) {
    c.kind.ParamNode? || c.kind.CatchAll?
  }

  /**
   `indices` lists the distinct first bytes of the static children in the same order, and
   the wildcard child comes last exactly when there is one.
   */
  ghost predicate Table<T>(indices: bytes, children: seq<Node<T>>, wild: bool) {
    && |children| == |indices| + (if wild then 1 else 0)
    && (forall i | 0 <= i < |indices| :: Heads(children[i], indices[i]))
    && (forall i, j | 0 <= i < j < |indices| :: indices[i] != indices[j])
    && (wild ==> Wild(children[|indices|]))
  }

  /** A suffix below a parameter: text up to the end of the segment; without '/' it ends the route. */
  ghost predicate SuffixShape<T>(c: Node<T>) {
    && c.kind.Static? && c.prefix != []
    && SlashAt(c.prefix) + 1 >= |c.prefix|
    && (EndsInSlash(c.prefix) || c.children == [])
  }

  ghost predicate ParamShape<T>(n: Node<T>) {
    && n.kind.ParamNode?
    && n.prefix == [Param] && n.indices == [] && !n.wildChild
    && (forall i | 0 <= i < |n.children| :: SuffixShape(n.children[i]))
    && (forall i, j | 0 <= i < j < |n.children| ::
          n.children[i].prefix != n.children[j].prefix && |n.children[i].prefix| >= |n.children[j].prefix|)
    && (!n.kind.suffix ==> forall i | 0 <= i < |n.children| :: n.children[i].prefix == [SLASH_TOKEN])
  }

  ghost predicate CatchShape<T>(n: Node<T>) {
    && |n.prefix| == 1 && n.prefix[0].Catch?
    && n.children == [] && n.indices == [] && !n.wildChild && n.value.Some?
  }

  ghost predicate TextShape<T>(n: Node<T>) {
    AllLit(n.prefix) && Table(n.indices, n.children, n.wildChild)
  }

  /** Parameters on the way to the end of `n`, `d` of them above it. */
  function Depth<T>(n: Node<T>, d: nat): nat {
    if n.kind.ParamNode? then d + 1 else d
  }

  /** The shape of a subtree reached through `d` parameters. */
  ghost predicate WF<T>(n: Node<T>, d: nat)
    decreases n
  {
    && n.priority >= 1
    && (n.value.Some? ==> |n.remapping| == Depth(n, d))
    && (forall i | 0 <= i < |n.children| :: WF(n.children[i], Depth(n, d)))
    && match n.kind
       case ParamNode(_) => ParamShape(n)
       case CatchAll => CatchShape(n)
       case Static => n.prefix != [] && TextShape(n)
       case Root => TextShape(n)
  }

  /** The shape of a whole tree. */
  ghost predicate TreeShape<T>(t: Node<T>) {
    t == Empty() || (t.kind.Root? && WF(t, 0))
  }

  // ----- The routes a tree holds -----

  /** `n` holds `route` at the pattern spelled by the prefixes on some way down to a node. */
  ghost predicate Holds<T>(n: Node<T>, p: Tokens, route: Route<T>)
    decreases n
  {
    && n.prefix <= p
    && (|| (p == n.prefix && n.value == Some(route.value) && n.remapping == route.names)
        || exists i | 0 <= i < |n.children| :: Holds(n.children[i], p[|n.prefix|..], route))
  }

  lemma {:induction false} TerminatorOfSuffix(s: Tokens, rest: Tokens)
    requires s != [] && SlashAt(s) + 1 >= |s| && s <= rest
    requires EndsInSlash(s) || s == rest
    ensures rest[..Terminator(rest)] == s
  {
    SlashAtPrefix(s, rest);
  }

  lemma {:induction false} SlashAtPrefix(s: Tokens, rest: Tokens)
    requires s <= rest
    ensures SlashAt(s) < |s| ==> SlashAt(rest) == SlashAt(s)
    ensures SlashAt(s) == |s| ==> SlashAt(rest) >= |s|
  {
    if s != [] && s[0] != SLASH_TOKEN {
      SlashAtPrefix(s[1..], rest[1..]);
    }
  }

  lemma {:induction false} SuffixIsUnique<T>(n: Node<T>, rest: Tokens, i: nat)
    requires ParamShape(n) && rest != [] && i < |n.children|
    requires n.children[i].prefix == rest[..Terminator(rest)]
    ensures ChildIndex(n, rest) == Some(i)
  {
    var j := IndexOfPrefix(n.children, rest[..Terminator(rest)]).value;
    assert n.children[j].prefix == n.children[i].prefix;
  }

  lemma {:induction false} HeadIsUnique<T>(n: Node<T>, rest: Tokens, i: nat)
    requires TextShape(n) && !n.kind.ParamNode? && rest != [] && i < |n.indices|
    requires rest[0] == Lit(n.indices[i])
    ensures ChildIndex(n, rest) == Some(i)
  {
    var j := IndexOf(n.indices, rest[0].b).value;
    assert n.indices[j] == n.indices[i];
  }

  /** Every way down that spells `p` takes the child that `ChildIndex` names. */
  lemma {:induction false} ChildIsUnique<T>(n: Node<T>, d: nat, rest: Tokens, i: nat)
    requires WF(n, d) && rest != [] && i < |n.children|
    requires n.children[i].prefix <= rest
    requires n.children[i].prefix == rest || n.children[i].children != []
    ensures ChildIndex(n, rest) == Some(i)
  {
    var c := n.children[i];
    if n.kind.ParamNode? {
      assert SuffixShape(c);
      TerminatorOfSuffix(c.prefix, rest);
      SuffixIsUnique(n, rest, i);
    } else if i < |n.indices| {
      assert Heads(c, n.indices[i]);
      HeadIsUnique(n, rest, i);
    } else {
      assert Wild(c);
      assert WF(c, Depth(n, d));
      assert rest[0] == c.prefix[0];
    }
  }

  lemma {:induction false} HoldsThenGet<T>(n: Node<T>, d: nat, p: Tokens, route: Route<T>)
    requires WF(n, d) && Holds(n, p, route)
    ensures Get(n, p) == Some(route)
    decreases n
  {
    var rest := p[|n.prefix|..];
    if !(p == n.prefix && n.value == Some(route.value) && n.remapping == route.names) {
      var i :| 0 <= i < |n.children| && Holds(n.children[i], rest, route);
      assert WF(n.children[i], Depth(n, d));
      HoldsThenGet(n.children[i], Depth(n, d), rest, route);
      ChildHasText(n, d, i);
      ChildIsUnique(n, d, rest, i);
    }
  }

  lemma {:induction false} ChildHasText<T>(n: Node<T>, d: nat, i: nat)
    requires WF(n, d) && i < |n.children|
    ensures n.children[i].prefix != [] && !n.children[i].kind.Root?
  {
    if n.kind.ParamNode? {
      assert SuffixShape(n.children[i]);
    } else if i < |n.indices| {
      assert Heads(n.children[i], n.indices[i]);
    } else {
      assert WF(n.children[i], Depth(n, d));
    }
  }

  lemma {:induction false} GetThenHolds<T>(n: Node<T>, p: Tokens, route: Route<T>)
    requires Get(n, p) == Some(route)
    ensures Holds(n, p, route)
    decreases n
  {
    if |p| > |n.prefix| {
      var rest := p[|n.prefix|..];
      GetThenHolds(n.children[ChildIndex(n, rest).value], rest, route);
    }
  }

  /** `Get` finds exactly the routes spelled by the ways down the tree. */
  lemma {:induction false} GetIsHolds<T>(n: Node<T>, d: nat, p: Tokens, route: Route<T>)
    requires WF(n, d)
    ensures Holds(n, p, route) <==> Get(n, p) == Some(route)
  {
    if Holds(n, p, route) { HoldsThenGet(n, d, p, route); }
    if Get(n, p) == Some(route) { GetThenHolds(n, p, route); }
  }
}
