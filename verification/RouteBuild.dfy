/** What writing the rest of a route below a node adds to the tree. */
module RouteBuild {
  import opened Prelude
  import opened Pattern
  import opened RouteTree
  import opened TreeInsert

  /** A text node with room for a wildcard child. */
  ghost predicate Host<T>(n: Node<T>) {
    !Wild(n) && !n.wildChild && |n.children| == |n.indices|
  }

  /** A node that holds nothing: the route overwrites its text or finds none. */
  ghost predicate Blank<T>(n: Node<T>) {
    !Wild(n) && !n.wildChild && n.children == [] && n.indices == [] && n.value.None?
  }

  /** The text already in `n` ends up in front of the route. */
  ghost predicate KeepsText<T>(n: Node<T>, p: Tokens) {
    p != [] && !p[0].Lit?
  }

  // ----- Routes -----

  lemma {:induction false} GetBelowWild<T>(n: Node<T>, child: Node<T>, x: Tokens)
    requires Host(n)
    ensures Get(AddWild(n, child), x) ==
            if n.prefix < x && !x[|n.prefix|].Lit? then Get(child, x[|n.prefix|..]) else Get(n, x)
    ensures n.prefix < x && !x[|n.prefix|].Lit? ==> Get(n, x) == None
  {
    var r := AddWild(n, child);
    assert r.children == n.children + [child];
    if n.prefix < x {
      var rest := x[|n.prefix|..];
      assert rest[0] == x[|n.prefix|];
      assert rest[0].Lit? ==> ChildIndex(r, rest) == ChildIndex(n, rest);
    }
  }

  /** The routes below a parameter node whose only child is `s`. */
  lemma {:induction false} GetBelowParam<T>(s: Node<T>, suffix: bool, x: Tokens)
    ensures Get(Fresh(1, [Param], ParamNode(suffix)).(children := [s]), x) ==
            if [Param] < x && s.prefix == x[1..][..Terminator(x[1..])] then Get(s, x[1..]) else None
  {
  }

  lemma {:induction false} SuffixChildText<T>(suffix: Tokens, rest: Tokens, v: T, names: seq<Name>)
    requires suffix != []
    ensures SuffixChild(suffix, rest, v, names).node.prefix == suffix
    ensures SuffixChild(suffix, rest, v, names).node.kind == Static
    ensures SuffixChild(suffix, rest, v, names).node.priority == 1
    ensures rest == [] ==> SuffixChild(suffix, rest, v, names).node.children == []
  {
    if rest != [] && !rest[0].Lit? {
      InsertRouteKeeps(Fresh(1, suffix, Static), rest, v, names);
    }
  }

  /** Writing a route that starts with a wildcard changes neither text, kind nor priority of the node. */
  lemma {:induction false} InsertRouteKeeps<T>(n: Node<T>, p: Tokens, v: T, names: seq<Name>)
    requires KeepsText(n, p)
    ensures var r := InsertRoute(n, p, v, names).node;
            r.prefix == n.prefix && r.kind == n.kind && r.priority == n.priority
  {
    assert FirstWild(p) == 0;
  }

  /** The route found at `x` after `p` is written below a node that starts with `text`. */
  ghost function Written<T>(r: Inserted<T>, p: Tokens, x: Tokens, v: T, names: seq<Name>, before: Option<Route<T>>)
    : Option<Route<T>>
  {
    if r.outcome.Ok? && x == p then Some(Route(v, names)) else before
  }

  /** The parameter node made for `p`, a parameter followed by a suffix and the rest of the route. */
  lemma {:induction false} ParamGet<T>(p: Tokens, v: T, names: seq<Name>, x: Tokens)
    requires p != [] && p[0].Param? && |p| > 1
    ensures var t := Terminator(p[1..]);
            var s := SuffixChild(p[1..][..t], p[1..][t..], v, names);
            forall b :: Get(Fresh(1, [Param], ParamNode(b)).(children := [s.node]), x) ==
              Written(s, p, x, v, names, None)
    decreases |p|, 3
  {
    hide Get, SuffixChild, SlashAt;
    var t := Terminator(p[1..]);
    var suffix, rest := p[1..][..t], p[1..][t..];
    var s := SuffixChild(suffix, rest, v, names);
    assert p[1..] == suffix + rest;
    SuffixChildText(suffix, rest, v, names);
    if x != [] {
      SuffixGet(suffix, rest, v, names, x[1..]);
      assert x == [x[0]] + x[1..];
      assert p == [Param] + p[1..];
    }
    forall b
      ensures Get(Fresh(1, [Param], ParamNode(b)).(children := [s.node]), x) == Written(s, p, x, v, names, None)
    {
      GetBelowParam(s.node, b, x);
    }
  }

  lemma {:induction false} GraftText<T>(n: Node<T>, p: Tokens, x: Tokens)
    requires KeepsText(n, p)
    ensures x == n.prefix + p <==> n.prefix < x && !x[|n.prefix|].Lit? && x[|n.prefix|..] == p
  {
    if x == n.prefix + p {
      assert x[|n.prefix|] == p[0];
    }
    if n.prefix <= x {
      assert x == n.prefix + x[|n.prefix|..];
    }
  }

  lemma {:induction false} GraftGet<T>(n: Node<T>, p: Tokens, v: T, names: seq<Name>, x: Tokens)
    requires Host(n) && KeepsText(n, p)
    ensures var r := InsertRoute(n, p, v, names);
            Get(r.node, x) == Written(r, n.prefix + p, x, v, names, Get(n, x))
    decreases |p|, 5
  {
    hide Get, SuffixChild;
    assert FirstWild(p) == 0 && p[0..] == p;
    GraftText(n, p, x);
    LeafGet(p, v, names, x[if n.prefix < x then |n.prefix| else 0..]);
    if p[0].Catch? {
      GetBelowWild(n, WithValue(Fresh(1, p, CatchAll), v, names), x);
    } else if |p| == 1 {
      GetBelowWild(n, WithValue(Fresh(1, [Param], ParamNode(false)), v, names), x);
    } else {
      var t := Terminator(p[1..]);
      var s := SuffixChild(p[1..][..t], p[1..][t..], v, names);
      GetBelowWild(n, Fresh(1, [Param], ParamNode(p[1..][..t] != [SLASH_TOKEN])).(children := [s.node]), x);
      if n.prefix < x {
        ParamGet(p, v, names, x[|n.prefix|..]);
      }
    }
  }

  lemma {:induction false} LeafGet<T>(p: Tokens, v: T, names: seq<Name>, x: Tokens)
    requires p != [] && !p[0].Lit?
    ensures p[0].Catch? ==>
              Get(WithValue(Fresh(1, p, CatchAll), v, names), x) == if x == p then Some(Route(v, names)) else None
    ensures p == [Param] ==> Get(WithValue(Fresh(1, [Param], ParamNode(false)), v, names), x)
                             == if x == p then Some(Route(v, names)) else None
  {
  }

  lemma {:induction false} SuffixGet<T>(suffix: Tokens, rest: Tokens, v: T, names: seq<Name>, x: Tokens)
    requires suffix != []
    ensures var r := SuffixChild(suffix, rest, v, names);
            Get(r.node, x) == Written(r, suffix + rest, x, v, names, None)
    decreases |rest|, 7
  {
    var base: Node<T> := Fresh(1, suffix, Static);
    if rest == [] {
      assert suffix + rest == suffix;
    } else if rest[0].Lit? {
      var c := InsertRoute(Fresh(1, [], Static), rest, v, names);
      if suffix < x {
        var y := x[|suffix|..];
        assert x == suffix + y;
        BlankGet(Fresh(1, [], Static), rest, v, names, y);
        BlankText(Fresh(1, [], Static), rest, v, names);
        if c.outcome.Ok? && y[0] != rest[0] {
          assert x != suffix + rest;
        }
        assert x == suffix + rest <==> y == rest;
      }
    } else {
      GraftGet(base, rest, v, names, x);
      assert Get(base, x) == None;
    }
  }

  lemma {:induction false} BlankGet<T>(n: Node<T>, p: Tokens, v: T, names: seq<Name>, x: Tokens)
    requires Blank(n) && (KeepsText(n, p) ==> n.prefix == [])
    ensures var r := InsertRoute(n, p, v, names);
            Get(r.node, x) == Written(r, p, x, v, names, None)
    decreases |p|, 6
  {
    var w := FirstWild(p);
    if w < |p| {
      var host := if w > 0 then n.(prefix := p[..w]) else n;
      var q := p[w..];
      assert p == p[..w] + q;
      assert FirstWild(q) == 0 && q[0..] == q;
      assert Get(host, x) == None && Get(n, x) == None;
      if !(q[0].Catch? && |q| != 1) {
        assert InsertRoute(n, p, v, names) == InsertRoute(host, q, v, names);
        GraftGet(host, q, v, names, x);
        assert host.prefix + q == p;
      }
    }
  }

  lemma {:induction false} BlankText<T>(n: Node<T>, p: Tokens, v: T, names: seq<Name>)
    requires Blank(n) && p != [] && p[0].Lit?
    ensures var r := InsertRoute(n, p, v, names);
            r.node.kind == n.kind && r.node.priority == n.priority &&
            (r.outcome.Ok? ==> r.node.prefix != [] && r.node.prefix[0] == p[0])
  {
  }

  // ----- Shape -----

  /** The shape of a text node, whatever its text. */
  ghost predicate Body<T>(n: Node<T>, d: nat) {
    && (n.kind.Static? || n.kind.Root?)
    && n.priority >= 1
    && (n.value.Some? ==> |n.remapping| == d)
    && (forall i | 0 <= i < |n.children| :: WF(n.children[i], d))
    && TextShape(n)
  }

  lemma {:induction false} AddWildShape<T>(n: Node<T>, child: Node<T>, d: nat)
    requires Body(n, d) && !n.wildChild && WF(child, d) && Wild(child)
    ensures Body(AddWild(n, child), d)
  {
    var r := AddWild(n, child);
    assert r.children == n.children + [child];
    forall i | 0 <= i < |r.indices| ensures Heads(r.children[i], r.indices[i]) {
      assert Heads(n.children[i], n.indices[i]);
    }
  }

  lemma {:induction false} ParamNodeShape<T>(s: Node<T>, d: nat, b: bool)
    requires WF(s, d + 1) && SuffixShape(s) && (!b ==> s.prefix == [SLASH_TOKEN])
    ensures WF(Fresh(1, [Param], ParamNode(b)).(children := [s]), d)
  {
  }

  /** The node made for a route that starts with a wildcard. */
  ghost function WildFor<T>(p: Tokens, v: T, names: seq<Name>): Node<T>
    requires p != [] && !p[0].Lit?
  {
    if p[0].Catch? then WithValue(Fresh(1, p, CatchAll), v, names)
    else if |p| == 1 then WithValue(Fresh(1, [Param], ParamNode(false)), v, names)
    else
      var t := Terminator(p[1..]);
      Fresh(1, [Param], ParamNode(p[1..][..t] != [SLASH_TOKEN])).(
        children := [SuffixChild(p[1..][..t], p[1..][t..], v, names).node])
  }

  lemma {:induction false} GraftIsWildFor<T>(n: Node<T>, p: Tokens, v: T, names: seq<Name>)
    requires KeepsText(n, p) && InsertRoute(n, p, v, names).outcome.Ok?
    ensures InsertRoute(n, p, v, names).node == AddWild(n, WildFor(p, v, names))
    ensures p[0].Catch? ==> |p| == 1
    ensures p[0].Param? && |p| > 1 ==>
              var t := Terminator(p[1..]);
              !HasWild(p[1..][..t]) && SuffixChild(p[1..][..t], p[1..][t..], v, names).outcome.Ok?
  {
    assert FirstWild(p) == 0 && p[0..] == p;
  }

  lemma {:induction false} WildForShape<T>(p: Tokens, d: nat, v: T, names: seq<Name>)
    requires p != [] && p[0].Param? && |p| > 1
    requires |names| == d + ParamCount(p)
    requires var t := Terminator(p[1..]);
             !HasWild(p[1..][..t]) && SuffixChild(p[1..][..t], p[1..][t..], v, names).outcome.Ok?
    ensures WF(WildFor(p, v, names), d)
    decreases |p|, 3
  {
    hide WF, SlashAt;
    var t := Terminator(p[1..]);
    var suffix, rest := p[1..][..t], p[1..][t..];
    SegmentText(p[1..]);
    SuffixChildShape(suffix, d + 1, rest, v, names);
    SuffixChildText(suffix, rest, v, names);
    ParamNodeShape(SuffixChild(suffix, rest, v, names).node, d, suffix != [SLASH_TOKEN]);
  }

  /** The rest of a segment without wildcards, as the text of a suffix node. */
  lemma {:induction false} SegmentText(p: Tokens)
    requires p != [] && !HasWild(p[..Terminator(p)])
    ensures var t := Terminator(p);
            var suffix := p[..t];
            && ParamCount(p) == ParamCount(p[t..])
            && AllLit(suffix) && suffix != [] && SlashAt(suffix) + 1 >= |suffix|
            && (EndsInSlash(suffix) || p[t..] == [])
  {
    var t := Terminator(p);
    assert p == p[..t] + p[t..];
    ParamCountConcat(p[..t], p[t..]);
    WildIffNotLit(p[..t]);
    ParamCountLit(p[..t]);
    SegmentSuffix(p);
  }

  lemma {:induction false} GraftShape<T>(n: Node<T>, d: nat, p: Tokens, v: T, names: seq<Name>)
    requires Body(n, d) && !n.wildChild && KeepsText(n, p)
    requires |names| == d + ParamCount(p)
    requires InsertRoute(n, p, v, names).outcome.Ok?
    ensures Body(InsertRoute(n, p, v, names).node, d)
    decreases |p|, 4
  {
    GraftIsWildFor(n, p, v, names);
    if p[0].Param? && |p| > 1 {
      WildForShape(p, d, v, names);
    }
    AddWildShape(n, WildFor(p, v, names), d);
  }

  /** The rest of a segment has at most a final '/'. */
  lemma {:induction false} SegmentSuffix(p: Tokens)
    requires p != []
    ensures var s := p[..Terminator(p)];
            s != [] && SlashAt(s) + 1 >= |s| && (EndsInSlash(s) || s == p)
  {
    var s := p[..Terminator(p)];
    SlashAtPrefix(s, p);
  }

  lemma {:induction false} SuffixChildShape<T>(suffix: Tokens, d: nat, rest: Tokens, v: T, names: seq<Name>)
    requires suffix != [] && AllLit(suffix) && SlashAt(suffix) + 1 >= |suffix|
    requires EndsInSlash(suffix) || rest == []
    requires |names| == d + ParamCount(rest)
    requires SuffixChild(suffix, rest, v, names).outcome.Ok?
    ensures WF(SuffixChild(suffix, rest, v, names).node, d)
    ensures SuffixShape(SuffixChild(suffix, rest, v, names).node)
    decreases |rest|, 6
  {
    SuffixChildText(suffix, rest, v, names);
    var base: Node<T> := Fresh(1, suffix, Static);
    if rest != [] {
      if rest[0].Lit? {
        var blank: Node<T> := Fresh(1, [], Static);
        BlankShape(blank, d, rest, v, names);
        BlankText(blank, rest, v, names);
        assert Heads(InsertRoute(blank, rest, v, names).node, rest[0].b);
      } else {
        GraftShape(base, d, rest, v, names);
      }
    }
  }

  lemma {:induction false} BlankShape<T>(n: Node<T>, d: nat, p: Tokens, v: T, names: seq<Name>)
    requires Blank(n) && n.priority >= 1 && |names| == d + ParamCount(p)
    requires AllLit(n.prefix)
    requires InsertRoute(n, p, v, names).outcome.Ok?
    ensures Body(InsertRoute(n, p, v, names).node, d)
    ensures InsertRoute(n, p, v, names).node.kind == n.kind
    ensures p != [] && p[0].Lit? ==> WF(InsertRoute(n, p, v, names).node, d)
    decreases |p|, 5
  {
    hide WF, SuffixChild;
    var w := FirstWild(p);
    if w < |p| {
      var host := if w > 0 then n.(prefix := p[..w]) else n;
      var q := p[w..];
      assert p == p[..w] + q;
      ParamCountConcat(p[..w], q);
      ParamCountLit(p[..w]);
      assert FirstWild(q) == 0 && q[0..] == q;
      assert InsertRoute(n, p, v, names) == InsertRoute(host, q, v, names);
      GraftShape(host, d, q, v, names);
      InsertRouteKeeps(host, q, v, names);
    } else {
      assert p[..w] == p;
      ParamCountLit(p);
    }
    if p != [] && p[0].Lit? {
      BodyIsWF(InsertRoute(n, p, v, names).node, d);
    }
  }

  lemma {:induction false} BodyIsWF<T>(n: Node<T>, d: nat)
    requires Body(n, d) && (n.kind.Static? ==> n.prefix != [])
    ensures WF(n, d)
  {
  }

  // ----- Acceptance -----

  /** A fresh node takes a route exactly when the route is valid. */
  lemma {:induction false} BuildsIffValid<T>(n: Node<T>, p: Tokens, v: T, names: seq<Name>)
    ensures InsertRoute(n, p, v, names).outcome.Ok? <==> Valid(p)
    decreases |p|, 0
  {
    var w := FirstWild(p);
    assert p == p[..w] + p[w..];
    ValidAfterText(p[..w], p[w..]);
    var q := p[w..];
    if w < |p| && q[0].Param? {
      var t := Terminator(q[1..]);
      SuffixIffValid(q[1..][..t], q[1..][t..], v, names);
      WildIffNotLit(q[1..][..t]);
      if q[1..][..t] == [] {
        assert q[1..] == [];
      }
    }
  }

  lemma {:induction false} SuffixIffValid<T>(suffix: Tokens, rest: Tokens, v: T, names: seq<Name>)
    ensures SuffixChild(suffix, rest, v, names).outcome.Ok? <==> Valid(rest)
    decreases |rest|, 1
  {
    if rest != [] {
      BuildsIffValid<T>(if rest[0].Lit? then Fresh(1, [], Static) else Fresh(1, suffix, Static), rest, v, names);
    }
  }

  lemma {:induction false} ValidAfterText(x: Tokens, p: Tokens)
    requires AllLit(x)
    ensures Valid(x + p) <==> Valid(p)
  {
    if x == [] {
      assert x + p == p;
    } else {
      assert (x + p)[1..] == x[1..] + p;
      ValidAfterText(x[1..], p);
    }
  }

  lemma {:induction false} WildIffNotLit(p: Tokens)
    ensures HasWild(p) <==> !AllLit(p)
  {
    if !HasWild(p) {
      assert p[..FirstWild(p)] == p;
    }
  }
}
