/** Runs after which the tree is not what its routes alone would make it. */
module RouteExamples {
  import opened Prelude
  import opened Pattern
  import opened RouteTree
  import opened TreeInsert
  import opened InsertShape
  import opened TreeOutcome
  import opened TreeRemove
  import opened TreeSearch
  import opened SegmentTree
  import opened Acceptance
  import opened RouteRuns

  // ----- An emptied root -----

  const SLASH_PARAM: Tokens := [SLASH_TOKEN, Param]

  /** The tree that holds only a parameter behind a slash. */
  lemma {:induction false} OneParam<T>(v: T, names: seq<Name>)
    ensures var r := Insert(Empty(), SLASH_PARAM, v, names);
            && r.outcome.Ok? && r.node.prefix == [SLASH_TOKEN] && r.node.value == None && r.node.wildChild &&
               r.node.kind == Root
            && r.node.indices == [] && r.node.children == [WithValue(Fresh(1, [Param], ParamNode(false)), v, names)]
  {
    assert FirstWild(SLASH_PARAM) == 1 by { assert SLASH_PARAM[1..] == [Param]; }
    assert SLASH_PARAM[..1] == [SLASH_TOKEN] && SLASH_PARAM[1..] == [Param] && [Param][1..] == [];
    assert Terminator([]) == 0;
  }

  lemma {:induction false} OneName()
    ensures ParamCount(SLASH_PARAM) == 1 && ParamCount([Param]) == 1
  {
    assert SLASH_PARAM[1..] == [Param] && [Param][1..] == [];
  }

  lemma {:induction false} OutAgain<T>(t: Node<T>, v: T, names: seq<Name>)
    requires TreeShape(t) && t.prefix == [SLASH_TOKEN] && t.value == None && t.wildChild && t.kind == Root &&
             t.indices == []
    requires t.children == [WithValue(Fresh(1, [Param], ParamNode(false)), v, names)]
    ensures var bare := Remove(t, SLASH_PARAM, names).node;
            bare.prefix == [SLASH_TOKEN] && bare.children == [] && bare.value == None
  {
    assert SLASH_PARAM[1..] == [Param];
    assert IndexOf([], 0) == None;
  }

  /** One route in and out again leaves text on the root, and a wildcard inserted next is stored behind that text. */
  lemma {:induction false} EmptiedRootExample<T>(v: T, a: Name, w: T, b: Name)
    ensures var t := Insert(Empty(), SLASH_PARAM, v, [a]).node;
            && TreeShape(t) && TreeShape(Remove(t, SLASH_PARAM, [a]).node)
            && var r := Insert(Remove(t, SLASH_PARAM, [a]).node, [Param], w, [b]);
               && r.outcome.Ok?
               && Get(r.node, [Param]) == None && Get(r.node, SLASH_PARAM) == Some(Route(w, [b]))
  {
    hide Get, Insert, Remove, ParamCount;
    OneParam(v, [a]);
    OneName();
    InsertTree(Empty(), SLASH_PARAM, v, [a]);
    var t := Insert(Empty(), SLASH_PARAM, v, [a]).node;
    OutAgain(t, v, [a]);
    RemoveTree(t, SLASH_PARAM, [a]);
    var bare := Remove(t, SLASH_PARAM, [a]).node;
    InsertTree(bare, [Param], w, [b]);
    FirstShape(bare, [Param], w, [b]);
    EmptiedTree(bare);
    assert [SLASH_TOKEN] + [Param] == SLASH_PARAM;
  }

  // ----- A wildcard node that outlives its routes -----

  const SLASH_PARAM_SLASH: Tokens := [SLASH_TOKEN, Param, SLASH_TOKEN]

  lemma {:induction false} DeepParam<T>(v: T, names: seq<Name>)
    ensures var r := Insert(Empty(), SLASH_PARAM_SLASH, v, names);
            var slash := WithValue(Fresh(1, [SLASH_TOKEN], Static), v, names);
            && r.outcome.Ok? && r.node.prefix == [SLASH_TOKEN] && r.node.value == None && r.node.wildChild
            && r.node.kind == Root && r.node.indices == []
            && r.node.children == [Fresh(1, [Param], ParamNode(false)).(children := [slash])]
  {
    var p, one: Tokens := SLASH_PARAM_SLASH, [SLASH_TOKEN];
    OneSlash();
    assert p[1..] == [Param, SLASH_TOKEN] && p[..1] == one && p[1..][1..] == one;
    assert FirstWild(p) == 1;
    assert one[..1] == one && one[1..] == [];
    assert SuffixChild(one, [], v, names) == Inserted(WithValue(Fresh(1, one, Static), v, names), Ok);
  }

  lemma {:induction false} OneSlash()
    ensures Terminator([SLASH_TOKEN]) == 1 && !HasWild([SLASH_TOKEN])
    ensures Valid([SLASH_TOKEN]) && ParamCount([SLASH_TOKEN]) == 0
  {
    var one := [SLASH_TOKEN];
    assert one[1..] == [];
  }

  lemma {:induction false} DeepOneName()
    ensures ParamCount(SLASH_PARAM_SLASH) == 1 && Valid(SLASH_PARAM_SLASH) && WholeSegment(SLASH_PARAM_SLASH)
  {
    OneSlash();
    var p, rest, one: Tokens := SLASH_PARAM_SLASH, [Param, SLASH_TOKEN], [SLASH_TOKEN];
    assert p[1..] == rest && rest[1..] == one && one[..1] == one && one[1..] == [];
    assert Valid(rest);
    assert ParamCount(rest) == 1;
  }

  /** The parameter stays when the only route below it goes. */
  lemma {:induction false} ParamStays<T>(t: Node<T>, slash: Node<T>, names: seq<Name>)
    requires TreeShape(t) && t.prefix == [SLASH_TOKEN] && t.value == None && t.wildChild
    requires t.kind == Root && t.indices == []
    requires t.children == [Fresh(1, [Param], ParamNode(false)).(children := [slash])]
    ensures var bare := Remove(t, SLASH_PARAM_SLASH, names).node;
            && bare.prefix == [SLASH_TOKEN] && bare.wildChild && bare.kind == Root
            && |bare.children| == 1 && bare.children[0].prefix == [Param]
  {
    var p, rest: Tokens := SLASH_PARAM_SLASH, [Param, SLASH_TOKEN];
    assert p[1..] == rest && p[..1] == t.prefix && t.prefix < p;
    assert |t.children[0].prefix| != |rest|;
    assert Remove(t, p, names) == RemoveBelow(t, 0, 0, rest, names);
  }

  lemma {:induction false} CatchBlocked<T>(t: Node<T>, c: Name)
    requires t.prefix == [SLASH_TOKEN] && t.wildChild && t.kind == Root
    requires |t.children| == 1 && t.children[0].prefix == [Param]
    ensures Blocks(t, [SLASH_TOKEN, Catch(c)], SLASH_PARAM)
  {
    var p := [SLASH_TOKEN, Catch(c)];
    assert SLASH_PARAM[1..] == [Param];
    assert p[..1] == SLASH_PARAM[..1];
    assert ClashAt(p, SLASH_PARAM, 1);
  }

  lemma {:induction false} CatchIsPlain(c: Name)
    ensures var p := [SLASH_TOKEN, Catch(c)]; Valid(p) && WholeSegment(p) && ParamCount(p) == 0
  {
    var p, rest: Tokens := [SLASH_TOKEN, Catch(c)], [Catch(c)];
    assert p[1..] == rest && rest[1..] == [];
    assert ParamCount(rest) == 0;
  }

  /**
   One route in and out again leaves no route at all, and a catch-all that clashes with nothing is
   refused: the node of the parameter is still there.
   */
  lemma {:induction false} LeftoverExample<T>(v: T, a: Name, w: T, c: Name)
    ensures var t := Insert(Empty(), SLASH_PARAM_SLASH, v, [a]).node;
            && TreeShape(t) && TreeShape(Remove(t, SLASH_PARAM_SLASH, [a]).node)
            && var bare := Remove(t, SLASH_PARAM_SLASH, [a]).node;
               && (forall q :: Get(bare, q) == None)
               && Insert(bare, [SLASH_TOKEN, Catch(c)], w, []).outcome == Err(Conflict)
  {
    hide Get, Insert, Remove, ParamCount, Tidy, Blocks;
    var p, star := SLASH_PARAM_SLASH, [SLASH_TOKEN, Catch(c)];
    DeepParam(v, [a]);
    DeepOneName();
    CatchIsPlain(c);
    InsertTree(Empty(), p, v, [a]);
    var t := Insert(Empty(), p, v, [a]).node;
    RemoveTree(t, p, [a]);
    ParamStays(t, WithValue(Fresh(1, [SLASH_TOKEN], Static), v, [a]), [a]);
    var bare := Remove(t, p, [a]).node;
    forall q ensures Get(bare, q) == None {
      NothingInEmpty<T>(q);
    }
    EmptyIsTidy<T>();
    InsertTidy(Empty(), p, v, [a], true);
    RemoveTidy(t, p, [a], true);
    CatchBlocked(bare, c);
    AcceptedIffUnblocked(bare, Registration(star, w, []));
    InsertTree(bare, star, w, []);
  }

  lemma {:induction false} EmptyIsTidy<T>()
    ensures Tidy(Empty<T>(), true)
  {
  }

  // ----- A suffix the search commits to -----

  const B: Token := Lit(98)
  const X: Token := Lit(120)

  const SHORT: Tokens := [SLASH_TOKEN, Param, B, SLASH_TOKEN]
  const LONG: Tokens := [SLASH_TOKEN, Param, B, B, SLASH_TOKEN, X]

  /** A whole tree that holds one parameter with these suffixes. */
  ghost predicate Suffixed<T>(t: Node<T>, suffixes: seq<Node<T>>) {
    && t.prefix == [SLASH_TOKEN] && t.value == None && t.wildChild && t.kind == Root && t.indices == []
    && |t.children| == 1 && t.children[0].prefix == [Param] && t.children[0].kind == ParamNode(true)
    && t.children[0].children == suffixes
  }

  lemma {:induction false} ShortTokens()
    ensures FirstWild(SHORT) == 1 && SHORT[1..] == [Param, B, SLASH_TOKEN]
    ensures Terminator([B, SLASH_TOKEN]) == 2 && !HasWild([B, SLASH_TOKEN])
    ensures ParamCount(SHORT) == 1
  {
    var a, b, c: Tokens := [Param, B, SLASH_TOKEN], [B, SLASH_TOKEN], [SLASH_TOKEN];
    assert SHORT[1..] == a && a[1..] == b && b[1..] == c && c[1..] == [];
    assert SlashAt(c) == 0 && SlashAt(b) == 1;
    assert FirstWild(c) == 1 && FirstWild(b) == 2;
    assert ParamCount(c) == 0 && ParamCount(b) == 0 && ParamCount(a) == 1;
  }

  lemma {:induction false} LongTokens()
    ensures var suffix := [B, B, SLASH_TOKEN]; Terminator(suffix + [X]) == 3 && !HasWild(suffix)
    ensures ParamCount(LONG) == 1 && FirstWild([X]) == 1
  {
    var a, b, c, d, e: Tokens :=
      [Param, B, B, SLASH_TOKEN, X], [B, B, SLASH_TOKEN, X], [B, SLASH_TOKEN, X], [SLASH_TOKEN, X], [X];
    assert LONG[1..] == a && a[1..] == b && b[1..] == c && c[1..] == d && d[1..] == e && e[1..] == [];
    assert SlashAt(d) == 0 && SlashAt(c) == 1 && SlashAt(b) == 2;
    assert [B, B, SLASH_TOKEN] + [X] == b;
    var f, g, h: Tokens := [B, B, SLASH_TOKEN], [B, SLASH_TOKEN], [SLASH_TOKEN];
    assert f[1..] == g && g[1..] == h && h[1..] == [];
    assert FirstWild(h) == 1 && FirstWild(g) == 2 && FirstWild(f) == 3;
    assert ParamCount(e) == 0 && ParamCount(d) == 0 && ParamCount(c) == 0 && ParamCount(b) == 0 && ParamCount(a) == 1;
  }

  lemma {:induction false} ShortTree<T>(v: T, names: seq<Name>)
    ensures var r := Insert(Empty(), SHORT, v, names);
            r.outcome.Ok? && Suffixed(r.node, [WithValue(Fresh(1, [B, SLASH_TOKEN], Static), v, names)])
  {
    ShortTokens();
    var suffix: Tokens := [B, SLASH_TOKEN];
    assert SHORT[..1] == [SLASH_TOKEN] && SHORT[1..][1..] == suffix && suffix[..2] == suffix && suffix[2..] == [];
    assert SuffixChild(suffix, [], v, names) == Inserted(WithValue(Fresh(1, suffix, Static), v, names), Ok);
  }

  /** The child of the longer suffix, which holds no value of its own. */
  ghost function LongChild<T>(v: T, names: seq<Name>): Node<T> {
    SuffixChild([B, B, SLASH_TOKEN], [X], v, names).node
  }

  lemma {:induction false} LongSuffix<T>(v: T, names: seq<Name>)
    ensures SuffixChild([B, B, SLASH_TOKEN], [X], v, names).outcome.Ok?
    ensures LongChild(v, names).prefix == [B, B, SLASH_TOKEN] && LongChild(v, names).value == None
  {
    LongTokens();
  }

  lemma {:induction false} NewLong<T>(w: Node<T>, parent: Node<T>, short: Node<T>, v: T, names: seq<Name>)
    requires w.kind == ParamNode(true) && w.prefix == [Param] && w.children == [short]
    requires short.prefix == [B, SLASH_TOKEN]
    requires parent.prefix == [SLASH_TOKEN] && |parent.children| == 1 && parent.children[0].prefix == [Param]
    requires parent.children[0].children == [short]
    ensures var r := NewSuffix(w, Some(parent), [B, B, SLASH_TOKEN, X], v, names);
            && r.outcome.Ok? && r.node.prefix == [Param] && r.node.kind == ParamNode(true)
            && r.node.children == [LongChild(v, names), short]
  {
    LongTokens();
    LongSuffix(v, names);
    var rest, suffix: Tokens := [B, B, SLASH_TOKEN, X], [B, B, SLASH_TOKEN];
    assert suffix + [X] == rest && rest[..3] == suffix && rest[3..] == [X];
    assert !PrefixWildInSegment(parent) by {
      assert SLASH_TOKEN in short.prefix;
      assert !WildInSegment(short);
      assert !PrefixWildInSegment(parent.children[0]);
    }
    assert Longer([short], 3) == 0;
    hide SuffixChild;
    assert [short][..0] + [LongChild(v, names)] + [short][0..] == [LongChild(v, names), short];
  }

  lemma {:induction false} FirstTokens(p: Tokens, x: Token)
    requires p != [] && p[0] == x
    ensures CommonPrefix(p, [x]) == 1
  {
    assert [x][1..] == [];
    assert CommonPrefix(p[1..], []) == 0;
  }

  lemma {:induction false} AtParam<T>(w: Node<T>, n: Node<T>, short: Node<T>, v: T, names: seq<Name>)
    requires WF(w, 0) && w.prefix == [Param] && w.kind == ParamNode(true) && w.children == [short]
    requires short.prefix == [B, SLASH_TOKEN]
    ensures var rest := [Param, B, B, SLASH_TOKEN, X];
            && Enters(w, rest)
            && InsertAt(w, 0, Some(n), rest, v, names) ==
               NewSuffix(w.(priority := w.priority + 1), Some(n), [B, B, SLASH_TOKEN, X], v, names)
  {
    hide NewSuffix;
    var rest, suffix: Tokens := [Param, B, B, SLASH_TOKEN, X], [B, B, SLASH_TOKEN];
    assert rest[1..] == suffix + [X] == [B, B, SLASH_TOKEN, X] && rest[1..][..3] == suffix;
    FirstTokens(rest, Param);
    LongTokens();
    assert |short.prefix| != |suffix|;
  }

  lemma {:induction false} BothTree<T>(t: Node<T>, short: Node<T>, v: T, names: seq<Name>)
    requires TreeShape(t) && Suffixed(t, [short]) && short.prefix == [B, SLASH_TOKEN]
    ensures var r := Insert(t, LONG, v, names);
            r.outcome.Ok? && Suffixed(r.node, [LongChild(v, names), short])
  {
    hide NewSuffix, LongChild, NewWild, NewStatic;
    var rest: Tokens := [Param, B, B, SLASH_TOKEN, X];
    var n, w := t.(priority := t.priority + 1), t.children[0];
    assert LONG[1..] == rest;
    FirstTokens(LONG, SLASH_TOKEN);
    ChildWF(t, 0, 0);
    NewLong(w.(priority := w.priority + 1), n, short, v, names);
    AtParam(w, n, short, v, names);
  }

  /** The path `/cbb/`. */
  const PATH: bytes := [SLASH, 99, 98, 98, SLASH]

  lemma {:induction false} SearchMisses<T>(t: Node<T>, long: Node<T>, short: Node<T>)
    requires Suffixed(t, [long, short]) && long.prefix == [B, B, SLASH_TOKEN] && long.value == None
    ensures Search(t, PATH) == None
  {
    var rest: bytes := [99, 98, 98, SLASH];
    assert PATH[1..] == rest;
    var a, b, c: bytes := [98, 98, SLASH], [98, SLASH], [SLASH];
    assert rest[1..] == a && a[1..] == b && b[1..] == c;
    assert PathSlash(c) == 0 && PathSlash(b) == 1 && PathSlash(a) == 2 && PathSlash(rest) == 3;
    assert rest[1..4] == a;
    assert FitsEnd(long, rest);
    assert FirstFit([long, short], rest) == Some(0);
    assert Search(long, a) == None;
    assert SearchWild(t.children[0], rest) == None;
  }

  lemma {:induction false} ShortFits()
    ensures Fits(SHORT, PATH, [[99, 98]])
  {
    var values: seq<bytes> := [[99, 98]];
    var a, b, c: Tokens := [Param, B, SLASH_TOKEN], [B, SLASH_TOKEN], [SLASH_TOKEN];
    var x, y, z: bytes := [99, 98, 98, SLASH], [98, SLASH], [SLASH];
    assert SHORT[1..] == a && a[1..] == b && b[1..] == c && c[1..] == [];
    assert PATH[1..] == x && x[2..] == y && y[1..] == z && z[1..] == [] && values[1..] == [];
    assert x[..2] == [99, 98];
    assert Fits(c, z, []);
    assert Fits(b, y, []);
    assert Fits(a, x, values);
  }

  /**
   With `/{a}b/` and `/{a}bb/x` registered, `/cbb/` is not found, although the first one fits it: the
   search commits to the longer suffix.
   */
  lemma {:induction false} CommitExample<T>(v: T, a: Name, w: T, b: Name)
    ensures var first := Insert(Empty(), SHORT, v, [a]);
            && TreeShape(first.node) && first.outcome.Ok?
            && var second := Insert(first.node, LONG, w, [b]);
               && TreeShape(second.node) && second.outcome.Ok?
               && Get(second.node, SHORT) == Some(Route(v, [a])) && Fits(SHORT, PATH, [[99, 98]])
               && Search(second.node, PATH) == None
  {
    hide Get, Insert, Search, Fits, LongChild;
    ShortTokens();
    LongTokens();
    ShortTree(v, [a]);
    InsertTree(Empty(), SHORT, v, [a]);
    var t, short := Insert(Empty(), SHORT, v, [a]).node, WithValue(Fresh(1, [B, SLASH_TOKEN], Static), v, [a]);
    BothTree(t, short, w, [b]);
    InsertTree(t, LONG, w, [b]);
    LongSuffix(w, [b]);
    SearchMisses(Insert(t, LONG, w, [b]).node, LongChild(w, [b]), short);
    ShortFits();
  }
}
