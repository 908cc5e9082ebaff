/** Insertion into the radix tree, on values: each function gives the tree the source leaves behind. */
module TreeInsert {
  import opened Prelude
  import opened Pattern
  import opened RouteTree

  datatype InsertError = Conflict | InvalidParamSegment | InvalidParam | InvalidCatchAll | TooManyParams

  datatype Outcome = Ok | Err(error: InsertError)

  /** The node left behind by an insertion, accepted or not. */
  datatype Inserted<T> = Inserted(node: Node<T>, outcome: Outcome)

  // ----- Growing a node -----

  /** Adds a child, keeping a wildcard child last. */
  function AddChild<T>(n: Node<T>, child: Node<T>): (r: seq<Node<T>>) {
    var len := |n.children|;
    if n.wildChild && len > 0 then n.children[..len - 1] + [child] + [n.children[len - 1]]
    else n.children + [child]
  }

  function AddWild<T>(n: Node<T>, child: Node<T>): Node<T> {
    n.(children := AddChild(n, child), wildChild := true)
  }

  function WithValue<T>(n: Node<T>, v: T, names: seq<Name>): Node<T> {
    n.(value := Some(v), remapping := names)
  }

  /** `m` keeps priority and kind of `n` (a parameter node may gain suffixes) and has the given text. */
  predicate SameHead<T>(m: Node<T>, n: Node<T>, text: Tokens) {
    && m.priority == n.priority && m.prefix == text
    && (m.kind == n.kind || (m.kind.ParamNode? && n.kind.ParamNode?))
  }

  /** Writes the rest of a route below `n`, which becomes the node of its leading text. */
  function InsertRoute<T>(n: Node<T>, p: Tokens, v: T, names: seq<Name>): (r: Inserted<T>)
    ensures SameHead(r.node, n, if p != [] && !p[0].Lit? then n.prefix else r.node.prefix)
    decreases |p|, 0
  {
    var w := FirstWild(p);
    if w == |p| then Inserted(WithValue(n.(prefix := p), v, names), Ok)
    else
      var host := if w > 0 then n.(prefix := p[..w]) else n;
      var q := p[w..];
      if q[0].Catch? then
        if |q| != 1 then Inserted(n, Err(InvalidCatchAll))
        else Inserted(AddWild(host, WithValue(Fresh(1, q, CatchAll), v, names)), Ok)
      else
        var t := Terminator(q[1..]);
        var suffix, rest := q[1..][..t], q[1..][t..];
        if HasWild(suffix) then Inserted(host, Err(InvalidParamSegment))
        else if suffix == [] then
          Inserted(AddWild(host, WithValue(Fresh(1, [Param], ParamNode(false)), v, names)), Ok)
        else
          var s := SuffixChild(suffix, rest, v, names);
          var param := Fresh(1, [Param], ParamNode(suffix != [SLASH_TOKEN])).(children := [s.node]);
          Inserted(AddWild(host, param), s.outcome)
  }

  /** A new suffix node below a parameter, with the rest of the route under it. */
  function SuffixChild<T>(suffix: Tokens, rest: Tokens, v: T, names: seq<Name>): (r: Inserted<T>)
    decreases |rest|, 1
  {
    var base := Fresh(1, suffix, Static);
    if rest == [] then Inserted(WithValue(base, v, names), Ok)
    else if rest[0].Lit? then
      var c := InsertRoute(Fresh(1, [], Static), rest, v, names);
      Inserted(base.(indices := [rest[0].b], children := [c.node]), c.outcome)
    else InsertRoute(base, rest, v, names)
  }

  // ----- Order of the children -----

  datatype Ordered<T> = Ordered(children: seq<Node<T>>, indices: bytes, at: nat)

  function Swap<X>(s: seq<X>, i: nat): (r: seq<X>)
    requires 0 < i < |s|
  {
    s[i - 1 := s[i]][i := s[i - 1]]
  }

  /** Moves child `i` towards the front past children of lower priority, its index with it. */
  function Promote<T>(children: seq<Node<T>>, indices: bytes, i: nat): (r: Ordered<T>)
    requires i < |indices| <= |children|
    ensures r.at <= i && |r.children| == |children| && |r.indices| == |indices|
    decreases i
  {
    if i > 0 && children[i - 1].priority < children[i].priority then
      Promote(Swap(children, i), Swap(indices, i), i - 1)
    else Ordered(children, indices, i)
  }

  // ----- Conflicts between a parameter prefix and a parameter suffix in one segment -----

  predicate WildInSegment<T>(n: Node<T>)
    decreases n
  {
    SLASH_TOKEN !in n.prefix &&
    (n.kind.ParamNode? || exists i | 0 <= i < |n.children| :: WildInSegment(n.children[i]))
  }

  predicate PrefixWildInSegment<T>(n: Node<T>)
    decreases n
  {
    if n.kind.Root? && n.prefix == [] then false
    else if EndsInSlash(n.prefix) then exists i | 0 <= i < |n.children| :: PrefixWildInSegment(n.children[i])
    else exists i | 0 <= i < |n.children| :: WildInSegment(n.children[i])
  }

  predicate SuffixWildInSegment<T>(n: Node<T>)
    decreases n
  {
    n.kind == ParamNode(true) ||
    exists i | 0 <= i < |n.children| :: SLASH_TOKEN !in n.children[i].prefix && SuffixWildInSegment(n.children[i])
  }

  predicate PlainSuffix(s: Tokens) {
    s == [] || s == [SLASH_TOKEN]
  }

  // ----- Insertion -----

  function CommonPrefix(p: Tokens, q: Tokens): (k: nat)
    ensures k <= |p| && k <= |q| && p[..(k)] == q[..(k)]
    ensures k < |p| && k < |q| ==> p[k] != q[k]
  {
    if p == [] || q == [] || p[0] != q[0] then 0 else 1 + CommonPrefix(p[1..], q[1..])
  }

  function TokenByte(t: Token): byte {
    if t.Lit? then t.b else 123
  }

  /** Splits a node at `k`: what follows moves into a single static child. */
  function Fork<T>(n: Node<T>, k: nat): (r: Node<T>)
    requires k < |n.prefix| && n.priority > 0
  {
    var child := n.(prefix := n.prefix[k..], priority := n.priority - 1, kind := Static);
    n.(prefix := n.prefix[..k], wildChild := false, indices := [TokenByte(n.prefix[k])], children := [child],
       value := None, remapping := [])
  }

  /** Some child differs from the new suffix only by a trailing '/'. */
  predicate ExtraSlash<T>(children: seq<Node<T>>, suffix: Tokens) {
    exists i | 0 <= i < |children| ::
      children[i].prefix + [SLASH_TOKEN] == suffix || suffix + [SLASH_TOKEN] == children[i].prefix
  }

  /** How many leading children have at least `len` tokens. */
  function Longer<T>(children: seq<Node<T>>, len: nat): (k: nat)
    ensures k <= |children|
    ensures forall i | 0 <= i < k :: |children[i].prefix| >= len
    ensures k < |children| ==> |children[k].prefix| < len
  {
    if children == [] || |children[0].prefix| < len then 0 else 1 + Longer(children[1..], len)
  }

  /** A parameter node with one more suffix child, the longest suffixes first. */
  function WithSuffix<T>(n: Node<T>, s: Node<T>): Node<T>
    requires n.kind.ParamNode?
  {
    var k := Longer(n.children, |s.prefix|);
    n.(kind := ParamNode(n.kind.suffix || !PlainSuffix(s.prefix)),
       children := n.children[..k] + [s] + n.children[k..])
  }

  /** A suffix that differs from every sibling by more than a '/' below a parameter with a prefix in its segment. */
  predicate SuffixConflict<T>(n: Node<T>, parent: Option<Node<T>>, suffix: Tokens) {
    !ExtraSlash(n.children, suffix) && !PlainSuffix(suffix) && parent.Some? && PrefixWildInSegment(parent.value)
  }

  /** No child of the parameter node `n` has this suffix: makes one. */
  function NewSuffix<T>(n: Node<T>, parent: Option<Node<T>>, rest: Tokens, v: T, names: seq<Name>): (r: Inserted<T>)
    requires n.kind.ParamNode?
    ensures SameHead(r.node, n, n.prefix)
  {
    var t := Terminator(rest);
    var suffix := rest[..t];
    if SuffixConflict(n, parent, suffix) then Inserted(n, Err(Conflict))
    else if HasWild(suffix) then Inserted(n, Err(InvalidParamSegment))
    else
      var s := SuffixChild(suffix, rest[t..], v, names);
      Inserted(WithSuffix(n, s.node), s.outcome)
  }

  /** A parameter prefix and a parameter suffix would meet in the segment that starts with `rest`. */
  predicate StaticConflict<T>(n: Node<T>, rest: Tokens) {
    var segment := rest[..SlashAt(rest)];
    var w := FirstWild(segment);
    w < |segment| &&
    ((w > 0 && SuffixWildInSegment(n)) || (!PlainSuffix(segment[w + 1..]) && PrefixWildInSegment(n)))
  }

  /** A text node with one more static child, not yet moved to its place. */
  function WithStatic<T>(n: Node<T>, b: byte, c: Node<T>): Node<T> {
    n.(children := AddChild(n, c), indices := n.indices + [b])
  }

  /** Child `i` of a text node, moved to the place its priority gives it. */
  function Reorder<T>(n: Node<T>, i: nat): (r: Node<T>)
    requires i < |n.indices| <= |n.children|
  {
    var o := Promote(n.children, n.indices, i);
    n.(children := o.children, indices := o.indices)
  }

  /** No child of `n` is listed under the next byte: makes one. */
  function NewStatic<T>(n: Node<T>, rest: Tokens, v: T, names: seq<Name>): (r: Inserted<T>)
    requires rest != [] && rest[0].Lit?
    requires |n.children| == |n.indices| + (if n.wildChild then 1 else 0)
    ensures SameHead(r.node, n, n.prefix)
  {
    if StaticConflict(n, rest) then Inserted(n, Err(Conflict))
    else
      var c := InsertRoute(Fresh(1, [], Static), rest, v, names);
      Inserted(Reorder(WithStatic(n, rest[0].b, c.node), |n.indices|), c.outcome)
  }

  /** `n` has no wildcard child and the route goes on with a wildcard. `before` is the token in front of it. */
  function NewWild<T>(n: Node<T>, before: Option<Token>, rest: Tokens, v: T, names: seq<Name>): (r: Inserted<T>)
    requires rest != []
    ensures !rest[0].Lit? ==> SameHead(r.node, n, n.prefix)
  {
    if !PlainSuffix(rest[1..]) && PrefixWildInSegment(n) then Inserted(n, Err(Conflict))
    else if before.Some? && before.value != SLASH_TOKEN && SuffixWildInSegment(n) then Inserted(n, Err(Conflict))
    else InsertRoute(n, rest, v, names)
  }

  /** The wildcard child of `n` cannot take a route that goes on with `rest`. */
  predicate WildConflict<T>(n: Node<T>, wild: Node<T>, rest: Tokens)
    requires rest != []
  {
    || [rest[0]] != wild.prefix
    || wild.kind.CatchAll?
    || (!EndsInSlash(n.prefix) && wild.kind == ParamNode(true) && PlainSuffix(rest[1..]))
  }

  /** The walk only enters a parameter node with a route that goes on with a parameter, and never a catch-all. */
  predicate Enters<T>(node: Node<T>, p: Tokens) {
    !node.kind.CatchAll? && (node.kind.ParamNode? ==> [Param] <= p)
  }

  /** Inserts `p` at or below `node`, whose parent is `parent`. */
  function InsertAt<T>(node: Node<T>, ghost d: nat, parent: Option<Node<T>>, p: Tokens, v: T, names: seq<Name>)
    : (r: Inserted<T>)
    requires WF(node, d) && Enters(node, p)
    ensures r.node.priority == node.priority + 1
    ensures SameHead(r.node, node.(priority := node.priority + 1), node.prefix[..CommonPrefix(p, node.prefix)])
    decreases node
  {
    var k := CommonPrefix(p, node.prefix);
    var bumped := node.(priority := node.priority + 1);
    var n := if k < |node.prefix| then Fork(bumped, k) else bumped;
    if |p| == k then
      if n.value.Some? then Inserted(n, Err(Conflict)) else Inserted(WithValue(n, v, names), Ok)
    else
      var rest := p[k..];
      if n.kind.ParamNode? then
        match IndexOfPrefix(n.children, rest[..Terminator(rest)])
        case Some(i) =>
          var c := InsertAt(node.children[i], Depth(node, d), Some(n), rest, v, names);
          Inserted(n.(children := n.children[i := c.node]), c.outcome)
        case None => NewSuffix(n, parent, rest, v, names)
      else if rest[0].Lit? then
        match IndexOf(n.indices, rest[0].b)
        case Some(i) =>
          assert k == |node.prefix|;
          assert Heads(node.children[i], node.indices[i]);
          var c := InsertAt(node.children[i], Depth(node, d), Some(n), rest, v, names);
          Inserted(Reorder(n.(children := n.children[i := c.node]), i), c.outcome)
        case None => NewStatic(n, rest, v, names)
      else if n.wildChild then
        var last := |node.children| - 1;
        var wild := node.children[last];
        if WildConflict(n, wild, rest) then
          Inserted(n.(children := n.children[last := wild.(priority := wild.priority + 1)]), Err(Conflict))
        else
          var c := InsertAt(wild, Depth(node, d), Some(n), rest, v, names);
          Inserted(n.(children := n.children[last := c.node]), c.outcome)
      else
        NewWild(n, if k == 0 then None else Some(p[k - 1]), rest, v, names)
  }

  /** Inserts a normalized pattern, with its parameter names, into a whole tree. */
  function Insert<T>(t: Node<T>, p: Tokens, v: T, names: seq<Name>): (r: Inserted<T>)
    requires TreeShape(t)
  {
    if t.value.None? && t.children == [] then
      var r := InsertRoute(t.(priority := t.priority + 1), p, v, names);
      if r.outcome.Ok? then Inserted(r.node.(kind := Root), Ok) else r
    else InsertAt(t, 0, None, p, v, names)
  }
}
