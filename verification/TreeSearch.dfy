/**
 The search of the tree, as a recursion: at each node the static child first, then the
 wildcard child. The iterative search with its stack of skipped nodes is proved equal to it.
 */
module TreeSearch {
  import opened Prelude
  import opened Pattern
  import opened RouteTree
  import opened TreeInsert
  import opened InsertProof
  import opened RouteBuild
  import opened InsertShape

  /** A match: the route's pattern and value, its parameter names, the keys handed out and the values read. */
  datatype Hit<T> = Hit(pattern: Tokens, value: T, names: seq<Name>, keys: seq<Name>, values: seq<bytes>)

  /** Position of the first '/' of a path, or its length. */
  function PathSlash(path: bytes): (s: nat)
    ensures s <= |path| && SLASH !in path[..(s)]
    ensures s < |path| ==> path[s] == SLASH
  {
    if path == [] || path[0] == SLASH then 0 else 1 + PathSlash(path[1..])
  }

  /** End of the first segment of a path, its '/' included. */
  function SegmentEnd(path: bytes): (e: nat)
    ensures e <= |path|
  {
    var s := PathSlash(path);
    if s < |path| then s + 1 else |path|
  }

  /** The suffix child fits the end of the segment and leaves a non-empty value in front. */
  predicate FitsEnd<T>(c: Node<T>, path: bytes) {
    var e := SegmentEnd(path);
    |c.prefix| < e && Spells(c.prefix, path[e - |c.prefix|..e])
  }

  /** The first suffix child that fits; the search commits to it. */
  function FirstFit<T>(children: seq<Node<T>>, path: bytes): (r: Option<nat>)
    ensures r.Some? ==> r.value < |children| && FitsEnd(children[r.value], path)
    ensures r.None? ==> forall i | 0 <= i < |children| :: !FitsEnd(children[i], path)
  {
    if children == [] then None
    else if FitsEnd(children[0], path) then Some(0)
    else match FirstFit(children[1..], path)
      case None =>
        assert forall i | 0 < i < |children| :: children[i] == children[1..][i - 1];
        None
      case Some(i) => Some(i + 1)
  }

  function Under<T>(text: Tokens, hit: Option<Hit<T>>): Option<Hit<T>> {
    match hit case None => None case Some(h) => Some(h.(pattern := text + h.pattern))
  }

  function Reading<T>(value: bytes, hit: Option<Hit<T>>): Option<Hit<T>> {
    match hit case None => None case Some(h) => Some(h.(values := [value] + h.values))
  }

  function OrElse<X>(a: Option<X>, b: Option<X>): Option<X> {
    if a.Some? then a else b
  }

  /** What the search finds for `path` at or below `n`. */
  function Search<T>(n: Node<T>, path: bytes): Option<Hit<T>>
    decreases n, 1
  {
    if |path| <= |n.prefix| || !Spells(n.prefix, path) then
      if |path| == |n.prefix| && Spells(n.prefix, path) && n.value.Some?
      then Some(Hit(n.prefix, n.value.value, n.remapping, n.remapping, []))
      else None
    else
      OrElse(StaticPart(n, path), WildPart(n, path))
  }

  /** The static child listed under the next byte. */
  function StaticPart<T>(n: Node<T>, path: bytes): Option<Hit<T>>
    requires |path| > |n.prefix|
    decreases n, 0
  {
    match IndexOf(n.indices, path[|n.prefix|])
    case None => None
    case Some(i) => if i < |n.children| then Under(n.prefix, Search(n.children[i], path[|n.prefix|..])) else None
  }

  /** The wildcard child, tried when the static child leads nowhere. */
  function WildPart<T>(n: Node<T>, path: bytes): Option<Hit<T>>
    requires |path| > |n.prefix|
    decreases n, 0
  {
    if n.wildChild && n.children != []
    then Under(n.prefix, SearchWild(n.children[|n.children| - 1], path[|n.prefix|..]))
    else None
  }

  function SearchWild<T>(w: Node<T>, path: bytes): Option<Hit<T>>
    requires path != []
    decreases w, 2
  {
    var s := PathSlash(path);
    match w.kind
    case ParamNode(false) =>
      if s == 0 then None
      else if s == |path| then WholeRest(w, path)
      else if |w.children| == 1 then Under([Param], Reading(path[..s], Search(w.children[0], path[s..])))
      else None
    case ParamNode(true) =>
      if s == 0 then None
      else
        (match FirstFit(w.children, path)
         case Some(i) =>
           var start := SegmentEnd(path) - |w.children[i].prefix|;
           Under([Param], Reading(path[..start], Search(w.children[i], path[start..])))
         case None => if s == |path| then WholeRest(w, path) else None)
    case CatchAll =>
      if w.value.Some? && |w.prefix| == 1 && w.prefix[0].Catch?
      then Some(Hit(w.prefix, w.value.value, w.remapping, w.remapping + [w.prefix[0].name], [path]))
      else None
    case _ => None
  }

  /** A parameter that takes the whole last segment. */
  function WholeRest<T>(w: Node<T>, path: bytes): Option<Hit<T>> {
    match w.value
    case None => None
    case Some(v) => Some(Hit([Param], v, w.remapping, w.remapping, [path]))
  }

  // ----- Soundness -----

  /** The names a pattern's own catch-all adds to its parameter names. */
  function CatchNames(p: Tokens): seq<Name> {
    if p != [] && p[|p| - 1].Catch? then [p[|p| - 1].name] else []
  }

  /** `hit` is a route of `n`, read off `path` with the names of that route. */
  ghost predicate Sound<T>(n: Node<T>, d: nat, path: bytes, hit: Hit<T>) {
    && Get(n, hit.pattern) == Some(Route(hit.value, hit.names))
    && Fits(hit.pattern, path, hit.values)
    && hit.keys == hit.names + CatchNames(hit.pattern)
    && |hit.names| == d + ParamCount(hit.pattern)
  }

  ghost predicate SoundIn<T>(n: Node<T>, d: nat, path: bytes, hit: Option<Hit<T>>) {
    hit.Some? ==> Sound(n, d, path, hit.value)
  }

  lemma {:induction false} SpelledText(p: Tokens, path: bytes)
    requires AllLit(p) && Spells(p, path) && |p| == |path|
    ensures Fits(p, path, []) && ParamCount(p) == 0 && CatchNames(p) == []
  {
    FitsLiteral(p, [], path, []);
    assert p + [] == p;
    assert path[|p|..] == [];
    ParamCountLit(p);
  }

  /** A hit below the child that `i` names, put under the text of `n`. */
  lemma {:induction false} SoundUnder<T>(n: Node<T>, d: nat, path: bytes, i: nat, hit: Hit<T>)
    requires AllLit(n.prefix) && Spells(n.prefix, path) && i < |n.children|
    requires Sound(n.children[i], d, path[|n.prefix|..], hit)
    requires hit.pattern != [] && ChildIndex(n, hit.pattern) == Some(i)
    ensures Sound(n, d, path, hit.(pattern := n.prefix + hit.pattern))
  {
    hide Get;
    FitsLiteral(n.prefix, hit.pattern, path, hit.values);
    HeldBelow(n, i, hit.pattern);
    ParamCountConcat(n.prefix, hit.pattern);
    ParamCountLit(n.prefix);
  }

  lemma {:induction false} SoundParam<T>(w: Node<T>, d: nat, path: bytes, i: nat, value: bytes, hit: Hit<T>)
    requires w.kind.ParamNode? && w.prefix == [Param] && i < |w.children|
    requires value <= path && value != [] && SLASH !in value
    requires Sound(w.children[i], d + 1, path[|value|..], hit)
    requires hit.pattern != [] && ChildIndex(w, hit.pattern) == Some(i)
    ensures Sound(w, d, path, hit.(pattern := [Param] + hit.pattern, values := [value] + hit.values))
  {
    hide Get;
    HeldBelow(w, i, hit.pattern);
    var p := [Param] + hit.pattern;
    assert p[1..] == hit.pattern;
    assert ([value] + hit.values)[1..] == hit.values;
  }

  lemma {:induction false} HeldText<T>(c: Node<T>, p: Tokens)
    requires Get(c, p).Some? && c.prefix != []
    ensures p != [] && c.prefix <= p && p[0] == c.prefix[0]
    ensures p == c.prefix || c.children != []
  {
  }

  lemma {:induction false} SoundStatic<T>(n: Node<T>, d: nat, path: bytes, i: nat)
    requires WF(n, d) && TextKind(n) && |path| > |n.prefix| && Spells(n.prefix, path)
    requires i < |n.children| && SoundIn(n.children[i], d, path[|n.prefix|..],
             Search(n.children[i], path[|n.prefix|..]))
    ensures SoundIn(n, d, path, Under(n.prefix, Search(n.children[i], path[|n.prefix|..])))
  {
    hide Get, Search;
    match Search(n.children[i], path[|n.prefix|..])
    case None =>
    case Some(h) =>
      ChildWF(n, d, i);
      HeldText(n.children[i], h.pattern);
      ChildIsUnique(n, d, h.pattern, i);
      SoundUnder(n, d, path, i, h);
  }

  lemma {:induction false} SoundBelowParam<T>(w: Node<T>, d: nat, path: bytes, i: nat, k: nat)
    requires WF(w, d) && w.kind.ParamNode? && i < |w.children| && 0 < k <= |path| && SLASH !in path[..k]
    requires SoundIn(w.children[i], d + 1, path[k..], Search(w.children[i], path[k..]))
    ensures SoundIn(w, d, path, Under([Param], Reading(path[..k], Search(w.children[i], path[k..]))))
  {
    hide Get, Search;
    match Search(w.children[i], path[k..])
    case None =>
    case Some(h) =>
      ChildWF(w, d, i);
      HeldText(w.children[i], h.pattern);
      ChildIsUnique(w, d, h.pattern, i);
      SoundParam(w, d, path, i, path[..k], h);
  }

  lemma {:induction false} SoundWhole<T>(w: Node<T>, d: nat, path: bytes)
    requires WF(w, d) && w.kind.ParamNode? && path != [] && SLASH !in path
    ensures SoundIn(w, d, path, WholeRest(w, path))
  {
    assert [Param][1..] == [];
    assert path[|path|..] == [] && [path][1..] == [];
    assert Fits([Param], path, [path]);
  }

  lemma {:induction false} SoundCatch<T>(w: Node<T>, d: nat, path: bytes)
    requires WF(w, d) && w.kind.CatchAll? && path != []
    ensures SoundIn(w, d, path, SearchWild(w, path))
  {
    assert w.prefix[1..] == [];
    assert Fits(w.prefix, path, [path]);
    assert ParamCount(w.prefix) == 0;
  }

  /** The suffix found at the end of a segment leaves a value without '/'. */
  lemma {:induction false} FitLeavesValue<T>(c: Node<T>, path: bytes)
    requires SuffixShape(c) && FitsEnd(c, path) && PathSlash(path) > 0
    ensures var start := SegmentEnd(path) - |c.prefix|;
            0 < start <= |path| && SLASH !in path[..start]
  {
    var s, e := PathSlash(path), SegmentEnd(path);
    var start := e - |c.prefix|;
    assert start <= s;
    assert path[..start] == path[..s][..start];
  }

  /** Every match names a route of the tree, and its values put into that route's pattern give the path. */
  lemma {:induction false} SearchSound<T>(n: Node<T>, d: nat, path: bytes)
    requires WF(n, d) && TextKind(n)
    ensures SoundIn(n, d, path, Search(n, path))
    decreases n, 1
  {
    hide Get;
    if |path| <= |n.prefix| || !Spells(n.prefix, path) {
      if Search(n, path).Some? {
        SpelledText(n.prefix, path);
        assert Get(n, n.prefix) == Some(Route(n.value.value, n.remapping)) by { OwnValue(n); }
      }
    } else {
      var rest := path[|n.prefix|..];
      match IndexOf(n.indices, path[|n.prefix|]) {
        case Some(i) =>
          ChildWF(n, d, i);
          SearchSound(n.children[i], d, rest);
          SoundStatic(n, d, path, i);
        case None =>
      }
      if n.wildChild {
        WildSoundUnder(n, d, path);
      }
    }
  }

  lemma {:induction false} OwnValue<T>(n: Node<T>)
    requires n.value.Some?
    ensures Get(n, n.prefix) == Some(Route(n.value.value, n.remapping))
  {
  }

  lemma {:induction false} WildSoundUnder<T>(n: Node<T>, d: nat, path: bytes)
    requires WF(n, d) && TextKind(n) && n.wildChild && |path| > |n.prefix| && Spells(n.prefix, path)
    ensures SoundIn(n, d, path, WildPart(n, path))
    decreases n, 0
  {
    hide Get;
    var last := |n.children| - 1;
    var w := n.children[last];
    var rest := path[|n.prefix|..];
    ChildWF(n, d, last);
    SearchWildSound(w, d, rest);
    match SearchWild(w, rest)
    case None =>
    case Some(h) =>
      HeldText(w, h.pattern);
      ChildIsUnique(n, d, h.pattern, last);
      SoundUnder(n, d, path, last, h);
  }

  lemma {:induction false} SearchWildSound<T>(w: Node<T>, d: nat, path: bytes)
    requires WF(w, d) && Wild(w) && path != []
    ensures SoundIn(w, d, path, SearchWild(w, path))
    decreases w, 2
  {
    hide Get, Search;
    var s := PathSlash(path);
    if w.kind.CatchAll? {
      SoundCatch(w, d, path);
    } else if s > 0 {
      assert path[..|path|] == path;
      if s == |path| { SoundWhole(w, d, path); }
      if !w.kind.suffix && |w.children| == 1 {
        ChildWF(w, d, 0);
        SearchSound(w.children[0], d + 1, path[s..]);
        SoundBelowParam(w, d, path, 0, s);
      } else if w.kind.suffix {
        match FirstFit(w.children, path) {
          case None =>
          case Some(i) =>
            ChildWF(w, d, i);
            FitLeavesValue(w.children[i], path);
            var start := SegmentEnd(path) - |w.children[i].prefix|;
            SearchSound(w.children[i], d + 1, path[start..]);
            SoundBelowParam(w, d, path, i, start);
        }
      }
    }
  }
}
