/**
 The search finds the best match over the routes a tree holds, whatever order they were
 inserted in, among those whose suffixes it commits to; without static suffixes, among all.
 */
module BestMatch {
  import opened Prelude
  import opened Pattern
  import opened RouteTree
  import opened TreeInsert
  import opened InsertProof
  import opened RouteBuild
  import opened InsertShape
  import opened TreeSearch

  /** No parameter of the subtree has a static suffix in its segment. */
  ghost predicate SuffixFree<T>(n: Node<T>)
    decreases n
  {
    n.kind != ParamNode(true) && forall i | 0 <= i < |n.children| :: SuffixFree(n.children[i])
  }

  /**
   On the way of `q` through the tree, each parameter with suffixes ends in the first of its suffixes
   that fits the segment, and takes a whole segment only where none fits. The longest come first.
   */
  ghost predicate Commits<T>(n: Node<T>, path: bytes, q: Tokens, values: seq<bytes>)
    decreases n
  {
    if n.kind.ParamNode? then
      if q == [] || values == [] || |values[0]| > |path| then true
      else if |q| == 1 then n.kind.suffix ==> FirstFit(n.children, path).None?
      else
        match ChildIndex(n, q[1..])
        case None => true
        case Some(i) =>
          && (n.kind.suffix ==> FirstFit(n.children, path) == Some(i))
          && Commits(n.children[i], path[|values[0]|..], q[1..], values[1..])
    else if n.prefix < q && |n.prefix| <= |path| then
      match ChildIndex(n, q[|n.prefix|..])
      case None => true
      case Some(i) => Commits(n.children[i], path[|n.prefix|..], q[|n.prefix|..], values)
    else true
  }

  /** Without suffixes there is nothing to commit to. */
  lemma {:induction false} SuffixFreeCommits<T>(n: Node<T>, path: bytes, q: Tokens, values: seq<bytes>)
    requires SuffixFree(n)
    ensures Commits(n, path, q, values)
    decreases n
  {
    if n.kind.ParamNode? {
      if |q| > 1 && values != [] && |values[0]| <= |path| && ChildIndex(n, q[1..]).Some? {
        SuffixFreeCommits(n.children[ChildIndex(n, q[1..]).value], path[|values[0]|..], q[1..], values[1..]);
      }
    } else if n.prefix < q && |n.prefix| <= |path| {
      var y := q[|n.prefix|..];
      if ChildIndex(n, y).Some? {
        SuffixFreeCommits(n.children[ChildIndex(n, y).value], path[|n.prefix|..], y, values);
      }
    }
  }

  /** The match is `q` itself, read the same way, or a route preferred to it. */
  ghost predicate AtLeast<T>(hit: Option<Hit<T>>, q: Tokens, values: seq<bytes>) {
    hit.Some? && ((hit.value.pattern == q && hit.value.values == values) || Prefers(hit.value.pattern, q))
  }

  lemma {:induction false} AtLeastUnder<T>(text: Tokens, hit: Option<Hit<T>>, q: Tokens, values: seq<bytes>)
    requires AtLeast(hit, q, values)
    ensures AtLeast(Under(text, hit), text + q, values)
  {
    if Prefers(hit.value.pattern, q) {
      PrefersUnder(text, hit.value.pattern, q);
    }
  }

  lemma {:induction false} AtLeastReading<T>(value: bytes, hit: Option<Hit<T>>, q: Tokens, values: seq<bytes>)
    requires AtLeast(hit, q, values)
    ensures AtLeast(Under([Param], Reading(value, hit)), [Param] + q, [value] + values)
  {
    AtLeastUnder([Param], Reading(value, hit), q, [value] + values);
  }

  /** A static match is preferred to any route that goes on with a wildcard. */
  lemma {:induction false} StaticBeatsWild<T>(n: Node<T>, d: nat, path: bytes, q: Tokens, values: seq<bytes>)
    requires WF(n, d) && TextKind(n) && |path| > |n.prefix| && Spells(n.prefix, path)
    requires StaticPart(n, path).Some?
    requires n.prefix < q && !q[|n.prefix|].Lit?
    ensures AtLeast(StaticPart(n, path), q, values)
  {
    hide Get;
    var rest := path[|n.prefix|..];
    var i := IndexOf(n.indices, path[|n.prefix|]).value;
    ChildWF(n, d, i);
    SearchSound(n.children[i], d, rest);
    var h := Search(n.children[i], rest).value;
    HeldText(n.children[i], h.pattern);
    var p := n.prefix + h.pattern;
    assert p[..|n.prefix|] == q[..|n.prefix|];
    assert PrefersAt(p, q, |n.prefix|);
  }

  /** A value followed by '/' or by the end is the whole first segment. */
  lemma {:induction false} SegmentValue(path: bytes, value: bytes)
    requires value <= path && value != [] && SLASH !in value
    requires |value| < |path| ==> path[|value|] == SLASH
    ensures PathSlash(path) == |value|
  {
    var s := PathSlash(path);
    assert forall i | 0 <= i < |value| :: path[i] == value[i];
    assert forall i | 0 <= i < s :: path[i] == path[..s][i];
  }

  lemma {:induction false} FitsNonEmpty(q: Tokens, path: bytes, values: seq<bytes>)
    requires Fits(q, path, values) && q != []
    ensures path != []
    ensures q[0].Lit? ==> q[0] == Lit(path[0])
    ensures q[0].Param? ==> values != [] && values[0] <= path
  {
  }

  lemma {:induction false} BestStatic<T>(n: Node<T>, d: nat, path: bytes, q: Tokens, values: seq<bytes>)
    requires WF(n, d) && TextKind(n) && |path| > |n.prefix| && Spells(n.prefix, path)
    requires n.prefix < q && q[|n.prefix|].Lit? && Get(n, q).Some? && Commits(n, path, q, values)
    requires Fits(q[|n.prefix|..], path[|n.prefix|..], values)
    ensures AtLeast(Search(n, path), q, values)
    decreases n, 0
  {
    hide Get;
    var rest, y := path[|n.prefix|..], q[|n.prefix|..];
    FitsNonEmpty(y, rest, values);
    assert y[0] == q[|n.prefix|] && rest[0] == path[|n.prefix|];
    GetByPick(n, q);
    var i := IndexOf(n.indices, rest[0]).value;
    ChildWF(n, d, i);
    SearchBest(n.children[i], d, rest, y, values);
    AtLeastUnder(n.prefix, Search(n.children[i], rest), y, values);
    assert n.prefix + y == q;
  }

  lemma {:induction false} BestWild<T>(n: Node<T>, d: nat, path: bytes, q: Tokens, values: seq<bytes>)
    requires WF(n, d) && TextKind(n) && |path| > |n.prefix| && Spells(n.prefix, path)
    requires n.prefix < q && !q[|n.prefix|].Lit? && Get(n, q).Some? && Commits(n, path, q, values)
    requires Fits(q[|n.prefix|..], path[|n.prefix|..], values)
    ensures AtLeast(Search(n, path), q, values)
    decreases n, 0
  {
    hide Get;
    if StaticPart(n, path).Some? {
      StaticBeatsWild(n, d, path, q, values);
    } else {
      var rest, y := path[|n.prefix|..], q[|n.prefix|..];
      assert y[0] == q[|n.prefix|];
      GetByPick(n, q);
      PickWild(n, y);
      var last := |n.children| - 1;
      ChildWF(n, d, last);
      SearchWildBest(n.children[last], d, rest, y, values);
      AtLeastUnder(n.prefix, SearchWild(n.children[last], rest), y, values);
      assert n.prefix + y == q;
    }
  }

  /** Whatever route fits the path, if the search commits to its suffixes, it finds it or one preferred to it. */
  lemma {:induction false} SearchBest<T>(n: Node<T>, d: nat, path: bytes, q: Tokens, values: seq<bytes>)
    requires WF(n, d) && TextKind(n)
    requires Get(n, q).Some? && Fits(q, path, values) && Commits(n, path, q, values)
    ensures AtLeast(Search(n, path), q, values)
    decreases n, 1
  {
    HeldFits(n, d, path, q, values);
    var y := q[|n.prefix|..];
    if y == [] {
      assert q == n.prefix;
    } else {
      hide Get;
      assert y[0] == q[|n.prefix|];
      FitsNonEmpty(y, path[|n.prefix|..], values);
      if y[0].Lit? {
        BestStatic(n, d, path, q, values);
      } else {
        BestWild(n, d, path, q, values);
      }
    }
  }

  lemma {:induction false} HeldFits<T>(n: Node<T>, d: nat, path: bytes, q: Tokens, values: seq<bytes>)
    requires WF(n, d) && TextKind(n) && Get(n, q).Some? && Fits(q, path, values)
    ensures n.prefix <= q && Spells(n.prefix, path) && Fits(q[|n.prefix|..], path[|n.prefix|..], values)
    ensures q == n.prefix ==> path[|n.prefix|..] == [] && values == [] && n.value.Some?
  {
    var y := q[|n.prefix|..];
    assert q == n.prefix + y;
    FitsLiteral(n.prefix, y, path, values);
  }

  lemma {:induction false} SearchWildBest<T>(w: Node<T>, d: nat, path: bytes, q: Tokens, values: seq<bytes>)
    requires WF(w, d) && Wild(w) && path != []
    requires Get(w, q).Some? && Fits(q, path, values) && Commits(w, path, q, values)
    ensures AtLeast(SearchWild(w, path), q, values)
    decreases w, 2
  {
    HeldText(w, q);
    if w.kind.CatchAll? {
      CatchBest(w, d, path, q, values);
    } else {
      var y := q[1..];
      assert q == [Param] + y;
      assert values == [values[0]] + values[1..];
      if y == [] {
        assert q == w.prefix;
        assert path[|values[0]|..] == [] && values[1..] == [];
        assert path == values[0];
        SegmentValue(path, path);
        assert values == [path];
      } else if w.kind.suffix {
        SuffixBest(w, d, path, q, values);
      } else {
        ParamBest(w, d, path, q, values);
      }
    }
  }

  lemma {:induction false} CatchBest<T>(w: Node<T>, d: nat, path: bytes, q: Tokens, values: seq<bytes>)
    requires WF(w, d) && w.kind.CatchAll? && path != []
    requires Get(w, q).Some? && Fits(q, path, values)
    ensures AtLeast(SearchWild(w, path), q, values)
  {
    assert q == w.prefix;
  }

  lemma {:induction false} CommitsBelow<T>(w: Node<T>, path: bytes, q: Tokens, values: seq<bytes>, i: nat)
    requires w.kind.ParamNode? && Commits(w, path, q, values)
    requires |q| > 1 && values != [] && |values[0]| <= |path| && ChildIndex(w, q[1..]) == Some(i)
    ensures w.kind.suffix ==> FirstFit(w.children, path) == Some(i)
    ensures Commits(w.children[i], path[|values[0]|..], q[1..], values[1..])
  {
  }

  lemma {:induction false} FitsParam(q: Tokens, path: bytes, values: seq<bytes>)
    requires Fits(q, path, values) && q != [] && q[0] == Param
    ensures values != [] && values[0] != [] && SLASH !in values[0] && values[0] <= path
    ensures Fits(q[1..], path[|values[0]|..], values[1..])
    ensures path[..|values[0]|] == values[0] && values == [values[0]] + values[1..]
  {
  }

  lemma {:induction false} SearchParamIs<T>(w: Node<T>, path: bytes)
    requires w.kind == ParamNode(false) && 0 < PathSlash(path) < |path| && |w.children| == 1
    ensures var s := PathSlash(path);
            SearchWild(w, path) == Under([Param], Reading(path[..s], Search(w.children[0], path[s..])))
  {
  }

  lemma {:induction false} ParamBest<T>(w: Node<T>, d: nat, path: bytes, q: Tokens, values: seq<bytes>)
    requires WF(w, d) && w.kind == ParamNode(false) && path != []
    requires |q| > 1 && q[0] == Param && Get(w, q).Some? && Fits(q, path, values) && Commits(w, path, q, values)
    ensures AtLeast(SearchWild(w, path), q, values)
    decreases w, 0
  {
    hide WF, Fits, Get, Search, SearchWild, Commits, AtLeast;
    FitsParam(q, path, values);
    var y, s := q[1..], |values[0]|;
    assert q == [Param] + y;
    OneSlashChild(w, d, q);
    CommitsBelow(w, path, q, values, 0);
    ChildWF(w, d, 0);
    FitsNonEmpty(y, path[s..], values[1..]);
    assert path[s..][0] == path[s];
    SegmentValue(path, values[0]);
    SearchParamIs(w, path);
    SearchBest(w.children[0], d + 1, path[s..], y, values[1..]);
    AtLeastReading(values[0], Search(w.children[0], path[s..]), y, values[1..]);
  }

  lemma {:induction false} SlashTwins<T>(children: seq<Node<T>>)
    requires forall i | 0 <= i < |children| :: children[i].prefix == [SLASH_TOKEN]
    ensures |children| > 1 ==> children[0].prefix == children[1].prefix
  {
  }

  lemma {:induction false} OneSlashChild<T>(w: Node<T>, d: nat, q: Tokens)
    requires WF(w, d) && w.kind == ParamNode(false) && |q| > 1 && Get(w, q).Some?
    ensures |w.children| == 1 && w.children[0].prefix == [SLASH_TOKEN] && ChildIndex(w, q[1..]) == Some(0)
    ensures Get(w.children[0], q[1..]) == Get(w, q) && q[1] == SLASH_TOKEN
  {
    GetByPick(w, q);
    var i := ChildIndex(w, q[1..]).value;
    assert w.children[i].prefix == [SLASH_TOKEN];
    SlashTwins(w.children);
    HeldText(w.children[0], q[1..]);
  }

  // ----- A parameter with suffixes -----

  /** A value and a suffix behind it make up the first segment. */
  lemma {:induction false} SuffixEnd<T>(c: Node<T>, path: bytes, value: bytes)
    requires SuffixShape(c) && value <= path && value != [] && SLASH !in value
    requires Spells(c.prefix, path[|value|..])
    requires EndsInSlash(c.prefix) || |path| == |value| + |c.prefix|
    ensures SegmentEnd(path) == |value| + |c.prefix| && PathSlash(path) > 0
  {
    var s, e := PathSlash(path), |value| + |c.prefix|;
    assert forall i | 0 <= i < |value| :: path[i] == value[i];
    assert forall i | 0 <= i < s :: path[i] == path[..s][i];
    forall i | |value| <= i < e ensures Lit(path[i]) == c.prefix[i - |value|] {
      assert path[|value|..][i - |value|] == path[i];
    }
    assert forall i | 0 <= i < |c.prefix| - 1 :: c.prefix[i] == c.prefix[..SlashAt(c.prefix)][i] != SLASH_TOKEN;
    assert forall i | 0 <= i < e - 1 :: path[i] != SLASH;
  }

  lemma {:induction false} SuffixChildFits<T>(
    c: Node<T>, d: nat, path: bytes, y: Tokens, values: seq<bytes>, value: bytes)
    requires WF(c, d) && SuffixShape(c) && Get(c, y).Some?
    requires value <= path && value != [] && SLASH !in value && Fits(y, path[|value|..], values)
    ensures SegmentEnd(path) == |value| + |c.prefix| && PathSlash(path) > 0
  {
    HeldFits(c, d, path[|value|..], y, values);
    HeldText(c, y);
    if !EndsInSlash(c.prefix) {
      assert y == c.prefix;
      assert |path[|value|..]| == |c.prefix|;
    }
    hide Get;
    SuffixEnd(c, path, value);
  }

  lemma {:induction false} SearchSuffixIs<T>(w: Node<T>, path: bytes, i: nat)
    requires w.kind == ParamNode(true) && PathSlash(path) > 0 && path != [] && FirstFit(w.children, path) == Some(i)
    ensures var s := SegmentEnd(path) - |w.children[i].prefix|;
            SearchWild(w, path) == Under([Param], Reading(path[..s], Search(w.children[i], path[s..])))
  {
  }

  lemma {:induction false} SuffixPicked<T>(w: Node<T>, d: nat, q: Tokens) returns (i: nat)
    requires WF(w, d) && w.kind.ParamNode? && |q| > 1 && Get(w, q).Some?
    ensures ChildIndex(w, q[1..]) == Some(i) && WF(w.children[i], d + 1) && SuffixShape(w.children[i])
    ensures Get(w.children[i], q[1..]) == Get(w, q) && q[0] == Param
  {
    GetByPick(w, q);
    i := ChildIndex(w, q[1..]).value;
    ChildWF(w, d, i);
  }

  lemma {:induction false} SuffixBest<T>(w: Node<T>, d: nat, path: bytes, q: Tokens, values: seq<bytes>)
    requires WF(w, d) && w.kind == ParamNode(true) && path != []
    requires |q| > 1 && q[0] == Param && Get(w, q).Some? && Fits(q, path, values) && Commits(w, path, q, values)
    ensures AtLeast(SearchWild(w, path), q, values)
    decreases w, 0
  {
    hide WF, Fits, Get, Search, SearchWild, Commits, AtLeast;
    FitsParam(q, path, values);
    var y, s := q[1..], |values[0]|;
    assert q == [Param] + y;
    var i := SuffixPicked(w, d, q);
    var c := w.children[i];
    CommitsBelow(w, path, q, values, i);
    SuffixChildFits(c, d + 1, path, y, values[1..], values[0]);
    SearchSuffixIs(w, path, i);
    SearchBest(c, d + 1, path[s..], y, values[1..]);
    AtLeastReading(values[0], Search(c, path[s..]), y, values[1..]);
  }

  // ----- What the search finds is committed -----

  ghost predicate CommitsIn<T>(n: Node<T>, path: bytes, hit: Option<Hit<T>>) {
    hit.Some? ==> Commits(n, path, hit.value.pattern, hit.value.values)
  }

  lemma {:induction false} SearchCommits<T>(n: Node<T>, d: nat, path: bytes)
    requires WF(n, d) && TextKind(n)
    ensures CommitsIn(n, path, Search(n, path))
    decreases n, 2
  {
    hide WF, StaticPart, WildPart;
    if |path| > |n.prefix| && Spells(n.prefix, path) {
      hide Commits;
      StaticCommits(n, d, path);
      WildCommits(n, d, path);
    }
  }

  lemma {:induction false} StaticCommits<T>(n: Node<T>, d: nat, path: bytes)
    requires WF(n, d) && TextKind(n) && |path| > |n.prefix|
    ensures CommitsIn(n, path, StaticPart(n, path))
    decreases n, 1
  {
    hide Search, CommitsIn, SoundIn;
    match IndexOf(n.indices, path[|n.prefix|])
    case None => assert CommitsIn<T>(n, path, None) by { NothingCommits(n, path); }
    case Some(i) =>
      ChildWF(n, d, i);
      var rest := path[|n.prefix|..];
      SearchCommits(n.children[i], d, rest);
      SearchSound(n.children[i], d, rest);
      CommitsUnder(n, d, path, i, Search(n.children[i], rest));
  }

  lemma {:induction false} NothingCommits<T>(n: Node<T>, path: bytes)
    ensures CommitsIn(n, path, None)
  {
  }

  lemma {:induction false} WildCommits<T>(n: Node<T>, d: nat, path: bytes)
    requires WF(n, d) && TextKind(n) && |path| > |n.prefix|
    ensures CommitsIn(n, path, WildPart(n, path))
    decreases n, 1
  {
    hide SearchWild, CommitsIn, SoundIn;
    if n.wildChild {
      var last, rest := |n.children| - 1, path[|n.prefix|..];
      ChildWF(n, d, last);
      SearchWildCommits(n.children[last], d, rest);
      SearchWildSound(n.children[last], d, rest);
      CommitsUnder(n, d, path, last, SearchWild(n.children[last], rest));
    } else {
      NothingCommits(n, path);
    }
  }

  lemma {:induction false} CommitsUnder<T>(n: Node<T>, d: nat, path: bytes, i: nat, hit: Option<Hit<T>>)
    requires WF(n, d) && TextKind(n) && i < |n.children| && |path| > |n.prefix|
    requires SoundIn(n.children[i], d, path[|n.prefix|..], hit) && CommitsIn(n.children[i], path[|n.prefix|..], hit)
    ensures CommitsIn(n, path, Under(n.prefix, hit))
  {
    hide Get;
    if hit.Some? {
      var p := hit.value.pattern;
      ChildWF(n, d, i);
      HeldText(n.children[i], p);
      ChildIsUnique(n, d, p, i);
      assert (n.prefix + p)[|n.prefix|..] == p;
    }
  }

  lemma {:induction false} CommitsBelowParam<T>(w: Node<T>, d: nat, path: bytes, i: nat, k: nat, hit: Option<Hit<T>>)
    requires WF(w, d) && w.kind.ParamNode? && i < |w.children| && k <= |path|
    requires w.kind.suffix ==> FirstFit(w.children, path) == Some(i)
    requires SoundIn(w.children[i], d + 1, path[k..], hit) && CommitsIn(w.children[i], path[k..], hit)
    ensures CommitsIn(w, path, Under([Param], Reading(path[..k], hit)))
  {
    hide Get;
    if hit.Some? {
      var p, values := hit.value.pattern, hit.value.values;
      ChildWF(w, d, i);
      HeldText(w.children[i], p);
      ChildIsUnique(w, d, p, i);
      assert ([Param] + p)[1..] == p && ([path[..k]] + values)[1..] == values;
    }
  }

  lemma {:induction false} SearchWildCommits<T>(w: Node<T>, d: nat, path: bytes)
    requires WF(w, d) && Wild(w) && path != []
    ensures CommitsIn(w, path, SearchWild(w, path))
    decreases w, 3
  {
    hide Search;
    var s := PathSlash(path);
    if w.kind.ParamNode? && s > 0 {
      if !w.kind.suffix && |w.children| == 1 {
        ChildWF(w, d, 0);
        SearchCommits(w.children[0], d + 1, path[s..]);
        SearchSound(w.children[0], d + 1, path[s..]);
        CommitsBelowParam(w, d, path, 0, s, Search(w.children[0], path[s..]));
      } else if w.kind.suffix && FirstFit(w.children, path).Some? {
        var i := FirstFit(w.children, path).value;
        var start := SegmentEnd(path) - |w.children[i].prefix|;
        ChildWF(w, d, i);
        SearchCommits(w.children[i], d + 1, path[start..]);
        SearchSound(w.children[i], d + 1, path[start..]);
        CommitsBelowParam(w, d, path, i, start, Search(w.children[i], path[start..]));
      }
    }
  }
}
