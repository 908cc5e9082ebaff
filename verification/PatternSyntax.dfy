/** Reading a route pattern: finding its wildcards and giving its parameters positional names. */
module PatternSyntax {
  import opened Prelude
  import opened Pattern
  import opened TreeInsert

  const OPEN: byte := 123
  const CLOSE: byte := 125
  const STAR: byte := 42
  const MAX_PARAMS: nat := 25

  datatype Wildcard = NoWildcard | WildcardAt(start: nat, end: nat) | BadParam

  /** Where the wildcard that opens at the first byte closes, looking from `i` on. */
  function CloseFrom(path: bytes, i: nat): (w: Wildcard)
    requires 2 <= i <= |path|
    ensures w.WildcardAt? ==> w.start == 0 && i < w.end <= |path| && path[w.end - 1] == CLOSE && path[w.end - 2] != STAR
    ensures w.WildcardAt? ==> forall j | i <= j < w.end - 1 :: path[j] !in {CLOSE, STAR, SLASH}
    ensures !w.NoWildcard?
    decreases |path| - i
  {
    if i == |path| then BadParam
    else if path[i] == CLOSE then if path[i - 1] == STAR then BadParam else WildcardAt(0, i + 1)
    else if path[i] == STAR || path[i] == SLASH then BadParam
    else CloseFrom(path, i + 1)
  }

  /** The first wildcard of a path. */
  function FindWildcard(path: bytes): (w: Wildcard)
    ensures w.WildcardAt? ==>
              && w.start + 3 <= w.end <= |path| && path[w.start] == OPEN && path[w.end - 1] == CLOSE
              && OPEN !in path[..(w.start)] && CLOSE !in path[..(w.start)]
    ensures w.NoWildcard? ==> OPEN !in path && CLOSE !in path
  {
    if path == [] then NoWildcard
    else if path[0] == CLOSE then BadParam
    else if path[0] != OPEN then
      match FindWildcard(path[1..])
      case WildcardAt(s, e) => WildcardAt(s + 1, e + 1)
      case w => w
    else if |path| < 2 || path[1] == CLOSE then BadParam
    else CloseFrom(path, 2)
  }

  ghost function Shift(w: Wildcard, k: nat): Wildcard {
    match w case WildcardAt(s, e) => WildcardAt(s + k, e + k) case other => other
  }

  lemma {:induction false} CloseShift(path: bytes, start: nat, i: nat)
    requires start + 2 <= i < |path|
    ensures Shift(CloseFrom(path[start..], i - start), start) ==
            if path[i] == CLOSE then if path[i - 1] == STAR then BadParam else WildcardAt(start, i + 1)
            else if path[i] == STAR || path[i] == SLASH then BadParam
            else Shift(CloseFrom(path[start..], i + 1 - start), start)
  {
    assert path[start..][i - start] == path[i] && path[start..][i - start - 1] == path[i - 1];
  }

  /** Looks for the end of the wildcard that opens at `start`. */
  method ScanClose(path: bytes, start: nat) returns (w: Wildcard)
    requires start + 2 <= |path|
    ensures w == Shift(CloseFrom(path[start..], 2), start)
  {
    hide CloseFrom;
    for i := start + 2 to |path|
      invariant Shift(CloseFrom(path[start..], 2), start) == Shift(CloseFrom(path[start..], i - start), start)
    {
      CloseShift(path, start, i);
      if path[i] == CLOSE {
        return if path[i - 1] == STAR then BadParam else WildcardAt(start, i + 1);
      }
      if path[i] == STAR || path[i] == SLASH { return BadParam; }
    }
    NeverClosed(path[start..]);
    return BadParam;
  }

  lemma {:induction false} NeverClosed(path: bytes)
    requires |path| >= 2
    ensures CloseFrom(path, |path|) == BadParam
  {
  }

  lemma {:induction false} FindShift(path: bytes, start: nat)
    requires start < |path|
    ensures Shift(FindWildcard(path[start..]), start) ==
            if path[start] == CLOSE then BadParam
            else if path[start] != OPEN then Shift(FindWildcard(path[start + 1..]), start + 1)
            else if start + 1 == |path| || path[start + 1] == CLOSE then BadParam
            else Shift(CloseFrom(path[start..], 2), start)
  {
    hide CloseFrom;
    assert path[start..][0] == path[start];
    assert path[start..][1..] == path[start + 1..];
    assert start + 1 < |path| ==> path[start..][1] == path[start + 1];
  }

  /** The wildcard search of the source, byte by byte. */
  method ScanWildcard(path: bytes) returns (w: Wildcard)
    ensures w == FindWildcard(path)
  {
    hide FindWildcard, CloseFrom;
    assert path[0..] == path;
    for start := 0 to |path|
      invariant FindWildcard(path) == Shift(FindWildcard(path[start..]), start)
    {
      FindShift(path, start);
      if path[start] == CLOSE { return BadParam; }
      if path[start] != OPEN { continue; }
      if start + 1 == |path| || path[start + 1] == CLOSE { return BadParam; }
      w := ScanClose(path, start);
      return;
    }
    FindNothing(path[|path|..]);
    return NoWildcard;
  }

  lemma {:induction false} FindNothing(path: bytes)
    requires path == []
    ensures FindWildcard(path) == NoWildcard
  {
  }

  // ----- Normalization -----

  datatype Normalized = Normalized(tokens: Tokens, names: seq<Name>) | Rejected(error: InsertError)

  function Literals(text: bytes): (p: Tokens)
    ensures |p| == |text| && forall i | 0 <= i < |p| :: p[i] == Lit(text[i])
  {
    seq(|text|, i requires 0 <= i < |text| => Lit(text[i]))
  }

  /** The token of the wildcard text `{...}`. */
  function WildToken(text: bytes): Token
    requires |text| >= 3
  {
    if text[1] == STAR then Catch(text[2..|text| - 1]) else Param
  }

  function WildNames(text: bytes): seq<Name>
    requires |text| >= 3
  {
    if text[1] == STAR then [] else [text[1..|text| - 1]]
  }

  /** Tokens and parameter names of a pattern, `k` parameters in. Too many parameters end the source with a panic. */
  function Normalize(path: bytes, k: nat): Normalized
    decreases |path|
  {
    match FindWildcard(path)
    case BadParam => Rejected(InvalidParam)
    case NoWildcard => Normalized(Literals(path), [])
    case WildcardAt(s, e) =>
      var names := WildNames(path[s..e]);
      if k + |names| > MAX_PARAMS then Rejected(TooManyParams)
      else
        match Normalize(path[e..], k + |names|)
        case Rejected(error) => Rejected(error)
        case Normalized(tokens, rest) =>
          Normalized(Literals(path[..s]) + [WildToken(path[s..e])] + tokens, names + rest)
  }

  /** One wildcard, the text in front of it, and what follows. */
  function Glue(text: bytes, wild: bytes, tail: Normalized): Normalized
    requires |wild| >= 3
  {
    match tail
    case Rejected(error) => tail
    case Normalized(tokens, names) => Normalized(Literals(text) + [WildToken(wild)] + tokens, WildNames(wild) + names)
  }

  lemma {:induction false} NormalizeAt(path: bytes, k: nat, s: nat, e: nat)
    requires FindWildcard(path) == WildcardAt(s, e)
    ensures Normalize(path, k) ==
            if k + |WildNames(path[s..e])| > MAX_PARAMS then Rejected(TooManyParams)
            else Glue(path[..s], path[s..e], Normalize(path[e..], k + |WildNames(path[s..e])|))
  {
    hide FindWildcard, WildToken, Literals;
  }

  function Prepend(tokens: Tokens, names: seq<Name>, r: Normalized): Normalized {
    match r case Rejected(error) => r case Normalized(t, n) => Normalized(tokens + t, names + n)
  }

  lemma {:induction false} NormalizeStep(rest: bytes, tokens: Tokens, names: seq<Name>, s: nat, e: nat)
    requires FindWildcard(rest) == WildcardAt(s, e)
    requires |names| + |WildNames(rest[s..e])| <= MAX_PARAMS
    ensures var found := WildNames(rest[s..e]);
            Prepend(tokens, names, Normalize(rest, |names|)) ==
            Prepend(tokens + Literals(rest[..s]) + [WildToken(rest[s..e])], names + found,
                    Normalize(rest[e..], |names + found|))
  {
    hide FindWildcard, Normalize, WildToken, Literals;
    NormalizeAt(rest, |names|, s, e);
    var found := WildNames(rest[s..e]);
    var tail := Normalize(rest[e..], |names| + |found|);
    if tail.Normalized? {
      assert tokens + (Literals(rest[..s]) + [WildToken(rest[s..e])] + tail.tokens)
          == tokens + Literals(rest[..s]) + [WildToken(rest[s..e])] + tail.tokens;
      assert names + (found + tail.names) == names + found + tail.names;
    }
  }

  /** The normalization loop: takes the wildcards one after the other. */
  method NormalizeParams(path: bytes) returns (r: Normalized)
    ensures r == Normalize(path, 0)
  {
    hide FindWildcard;
    var start := 0;
    var tokens: Tokens := [];
    var names: seq<Name> := [];
    assert path[0..] == path;
    PrependNothing(Normalize(path, 0));
    while true
      invariant start <= |path|
      invariant Normalize(path, 0) == Prepend(tokens, names, Normalize(path[start..], |names|))
      decreases |path| - start
    {
      var rest := path[start..];
      var w := ScanWildcard(rest);
      match w
      case BadParam => return Rejected(InvalidParam);
      case NoWildcard =>
        assert names + [] == names;
        return Normalized(tokens + Literals(rest), names);
      case WildcardAt(s, e) =>
        var found := WildNames(rest[s..e]);
        if |names| + |found| > MAX_PARAMS {
          return Rejected(TooManyParams);
        }
        NormalizeStep(rest, tokens, names, s, e);
        assert path[start + e..] == rest[e..];
        tokens := tokens + Literals(rest[..s]) + [WildToken(rest[s..e])];
        names := names + found;
        start := start + e;
    }
  }

  lemma {:induction false} PrependNothing(r: Normalized)
    ensures Prepend([], [], r) == r
  {
    if r.Normalized? {
      assert [] + r.tokens == r.tokens && [] + r.names == r.names;
    }
  }

  // ----- The text of a pattern -----

  /** A name that can stand between braces. */
  predicate PlainName(name: bytes) {
    CLOSE !in name && STAR !in name && SLASH !in name
  }

  predicate ParamName(name: Name) {
    name != [] && name[0] != CLOSE && name[0] != STAR && PlainName(name[1..])
  }

  /** One proper name per parameter, a proper name in every catch-all, no braces in the text. */
  predicate WellNamed(p: Tokens, names: seq<Name>)
    decreases |p|
  {
    if p == [] then names == []
    else match p[0]
      case Lit(b) => b != OPEN && b != CLOSE && WellNamed(p[1..], names)
      case Param => names != [] && ParamName(names[0]) && WellNamed(p[1..], names[1..])
      case Catch(name) => name != [] && PlainName(name) && WellNamed(p[1..], names)
  }

  /** A pattern as it is written. */
  function Render(p: Tokens, names: seq<Name>): bytes
    decreases |p|
  {
    if p == [] then []
    else match p[0]
      case Lit(b) => [b] + Render(p[1..], names)
      case Param =>
        if names == [] then []
        else [OPEN] + names[0] + [CLOSE] + Render(p[1..], names[1..])
      case Catch(name) => [OPEN, STAR] + name + [CLOSE] + Render(p[1..], names)
  }

  // ----- Reading back what is written -----

  lemma {:induction false} RenderConcat(p: Tokens, names: seq<Name>, q: Tokens, rest: seq<Name>)
    requires WellNamed(p, names)
    ensures Render(p + q, names + rest) == Render(p, names) + Render(q, rest)
    ensures WellNamed(p + q, names + rest) <==> WellNamed(q, rest)
    decreases |p|
  {
    if p == [] {
      assert p + q == q && names + rest == rest;
    } else {
      assert (p + q)[1..] == p[1..] + q;
      match p[0]
      case Param =>
        assert (names + rest)[1..] == names[1..] + rest;
        RenderConcat(p[1..], names[1..], q, rest);
      case _ =>
        RenderConcat(p[1..], names, q, rest);
    }
  }

  lemma {:induction false} RenderLiterals(text: bytes)
    requires OPEN !in text && CLOSE !in text
    ensures WellNamed(Literals(text), []) && Render(Literals(text), []) == text
  {
    if text != [] {
      assert Literals(text)[1..] == Literals(text[1..]);
      RenderLiterals(text[1..]);
    }
  }

  /** The text between the braces of a wildcard that was found. */
  lemma {:induction false} FoundIsNamed(path: bytes)
    requires FindWildcard(path).WildcardAt?
    ensures var w := FindWildcard(path);
            NamedWild(path[w.start..w.end])
    decreases |path|
  {
    hide CloseFrom, NamedWild;
    if path[0] != OPEN {
      var w := FindWildcard(path[1..]);
      FoundIsNamed(path[1..]);
      assert path[1..][w.start..w.end] == path[w.start + 1..w.end + 1];
    } else {
      ClosedIsNamed(path);
    }
  }

  lemma {:induction false} ClosedIsNamed(path: bytes)
    requires |path| >= 2 && path[0] == OPEN && path[1] != CLOSE && CloseFrom(path, 2).WildcardAt?
    ensures NamedWild(path[0..CloseFrom(path, 2).end])
  {
    hide CloseFrom;
    var e := CloseFrom(path, 2).end;
    var text := path[0..e];
    assert forall j | 0 <= j < e :: text[j] == path[j];
    OneWild(text);
  }

  ghost predicate NamedWild(text: bytes) {
    |text| >= 3 && WellNamed([WildToken(text)], WildNames(text)) && Render([WildToken(text)], WildNames(text)) == text
  }

  lemma {:induction false} OneWild(text: bytes)
    requires |text| >= 3 && text[0] == OPEN && text[|text| - 1] == CLOSE && text[1] != CLOSE && text[|text| - 2] != STAR
    requires forall j | 2 <= j < |text| - 1 :: text[j] !in {CLOSE, STAR, SLASH}
    ensures NamedWild(text)
  {
    var last := |text| - 1;
    if text[1] == STAR {
      var name := text[2..last];
      assert PlainName(name);
      assert [WildToken(text)][1..] == [];
      assert text == [OPEN, STAR] + name + [CLOSE];
    } else {
      var name := text[1..last];
      assert name[1..] == text[2..last];
      assert PlainName(name[1..]);
      var names: seq<Name> := [name];
      assert names[1..] == [] && [WildToken(text)][1..] == [];
      assert text == [OPEN] + name + [CLOSE];
    }
  }

  ghost predicate Reads(n: Normalized, path: bytes) {
    n.Normalized? ==> WellNamed(n.tokens, n.names) && Render(n.tokens, n.names) == path
  }

  lemma {:induction false} ReadsGlued(text: bytes, wild: bytes, tail: Normalized, rest: bytes)
    requires OPEN !in text && CLOSE !in text && NamedWild(wild) && Reads(tail, rest)
    ensures Reads(Glue(text, wild, tail), text + wild + rest)
  {
    hide Render, WellNamed, WildToken, Literals;
    if tail.Normalized? {
      RenderLiterals(text);
      RenderConcat([WildToken(wild)], WildNames(wild), tail.tokens, tail.names);
      RenderConcat(Literals(text), [], [WildToken(wild)] + tail.tokens, WildNames(wild) + tail.names);
      NothingBefore(WildNames(wild) + tail.names);
      assert Literals(text) + [WildToken(wild)] + tail.tokens == Literals(text) + ([WildToken(wild)] + tail.tokens);
      assert text + wild + rest == text + (wild + rest);
    }
  }

  lemma {:induction false} ReadsBack(path: bytes, k: nat)
    ensures Reads(Normalize(path, k), path)
    decreases |path|
  {
    hide CloseFrom, FindWildcard, Reads, Literals;
    match FindWildcard(path)
    case BadParam => assert Reads(Rejected(InvalidParam), path) by { RejectedReads(InvalidParam, path); }
    case NoWildcard =>
      LiteralsRead(path);
    case WildcardAt(s, e) =>
      NormalizeAt(path, k, s, e);
      if k + |WildNames(path[s..e])| <= MAX_PARAMS {
        ReadsBack(path[e..], k + |WildNames(path[s..e])|);
        FoundIsNamed(path);
        ReadsGlued(path[..s], path[s..e], Normalize(path[e..], k + |WildNames(path[s..e])|), path[e..]);
        assert path == path[..s] + path[s..e] + path[e..];
      } else {
        RejectedReads(TooManyParams, path);
      }
  }

  lemma {:induction false} RejectedReads(e: InsertError, path: bytes)
    ensures Reads(Rejected(e), path)
  {
  }

  lemma {:induction false} LiteralsRead(path: bytes)
    requires OPEN !in path && CLOSE !in path
    ensures Reads(Normalized(Literals(path), []), path)
  {
    RenderLiterals(path);
  }

  lemma {:induction false} FewNames(path: bytes, k: nat)
    requires Normalize(path, k).Normalized? && k <= MAX_PARAMS
    ensures k + |Normalize(path, k).names| <= MAX_PARAMS
    decreases |path|
  {
    hide FindWildcard, WildToken, Literals;
    match FindWildcard(path)
    case NoWildcard =>
    case WildcardAt(s, e) =>
      NormalizeAt(path, k, s, e);
      FewNames(path[e..], k + |WildNames(path[s..e])|);
  }

  /** A pattern that is accepted reads back as it was written, with a proper name for every wildcard. */
  lemma {:induction false} NormalizeReads(path: bytes)
    requires Normalize(path, 0).Normalized?
    ensures var n := Normalize(path, 0);
            && WellNamed(n.tokens, n.names) && Render(n.tokens, n.names) == path
            && |n.names| == ParamCount(n.tokens) <= MAX_PARAMS
  {
    hide Normalize;
    ReadsBack(path, 0);
    FewNames(path, 0);
    NamesCounted(Normalize(path, 0).tokens, Normalize(path, 0).names);
  }

  lemma {:induction false} NamesCounted(p: Tokens, names: seq<Name>)
    requires WellNamed(p, names)
    ensures |names| == ParamCount(p)
    decreases |p|
  {
    if p != [] {
      NamesCounted(p[1..], if p[0].Param? then names[1..] else names);
    }
  }

  lemma {:induction false} ClosesAt(path: bytes, i: nat, e: nat)
    requires 2 <= i < e <= |path| && path[e - 1] == CLOSE && path[e - 2] != STAR
    requires forall j | i <= j < e - 1 :: path[j] !in {CLOSE, STAR, SLASH}
    ensures CloseFrom(path, i) == WildcardAt(0, e)
    decreases e - i
  {
    if i < e - 1 {
      assert path[i] !in {CLOSE, STAR, SLASH};
      ClosesAt(path, i + 1, e);
    }
  }

  lemma {:induction false} LiteralFirst(b: byte, rest: bytes, k: nat)
    requires b != OPEN && b != CLOSE
    ensures Normalize([b] + rest, k) == Prepend([Lit(b)], [], Normalize(rest, k))
  {
    hide CloseFrom, FindWildcard, WildToken, Literals;
    var path := [b] + rest;
    FindAfterLiteral(b, rest);
    match FindWildcard(rest)
    case BadParam =>
    case NoWildcard =>
      assert Literals(path) == [Lit(b)] + Literals(rest);
      NothingBefore([]);
    case WildcardAt(s, e) =>
      LiteralBeforeWild(b, rest, k, s, e);
  }

  lemma {:induction false} LiteralBeforeWild(b: byte, rest: bytes, k: nat, s: nat, e: nat)
    requires b != OPEN && b != CLOSE && FindWildcard(rest) == WildcardAt(s, e)
    ensures Normalize([b] + rest, k) == Prepend([Lit(b)], [], Normalize(rest, k))
  {
    hide CloseFrom, FindWildcard, WildToken, Literals, Normalize;
    var path := [b] + rest;
    FindAfterLiteral(b, rest);
    assert path[s + 1..e + 1] == rest[s..e] && path[e + 1..] == rest[e..];
    NormalizeAt(path, k, s + 1, e + 1);
    NormalizeAt(rest, k, s, e);
    var tail := Normalize(rest[e..], k + |WildNames(rest[s..e])|);
    if tail.Normalized? {
      NothingBefore(WildNames(rest[s..e]) + tail.names);
      LiteralPrefix(b, rest, s, WildToken(rest[s..e]), tail.tokens);
    }
  }

  lemma {:induction false} NothingBefore(names: seq<Name>)
    ensures [] + names == names
  {
  }

  lemma {:induction false} FindAfterLiteral(b: byte, rest: bytes)
    requires b != OPEN && b != CLOSE
    ensures FindWildcard([b] + rest) == Shift(FindWildcard(rest), 1)
  {
    hide CloseFrom;
    assert ([b] + rest)[1..] == rest;
  }

  lemma {:induction false} LiteralPrefix(b: byte, rest: bytes, s: nat, t: Token, tail: Tokens)
    requires s <= |rest|
    ensures Literals(([b] + rest)[..s + 1]) + [t] + tail == [Lit(b)] + (Literals(rest[..s]) + [t] + tail)
  {
    assert ([b] + rest)[..s + 1] == [b] + rest[..s];
    assert Literals([b] + rest[..s]) == [Lit(b)] + Literals(rest[..s]);
  }

  /** A wildcard text in front of the rest of a pattern. */
  lemma {:induction false} WildFirst(text: bytes, rest: bytes, k: nat)
    requires |text| >= 3 && text[0] == OPEN && text[|text| - 1] == CLOSE && text[1] != CLOSE && text[|text| - 2] != STAR
    requires forall j | 2 <= j < |text| - 1 :: text[j] !in {CLOSE, STAR, SLASH}
    requires k + |WildNames(text)| <= MAX_PARAMS
    ensures Normalize(text + rest, k) ==
            Prepend([WildToken(text)], WildNames(text), Normalize(rest, k + |WildNames(text)|))
  {
    hide CloseFrom, FindWildcard, WildToken, Normalize;
    var path, e := text + rest, |text|;
    FindHere(text, rest);
    assert path[0..e] == text && path[e..] == rest && path[..0] == [];
    NormalizeAt(path, k, 0, e);
    var tail := Normalize(rest, k + |WildNames(text)|);
    if tail.Normalized? {
      assert Literals([]) + [WildToken(text)] + tail.tokens == [WildToken(text)] + tail.tokens;
    }
  }

  lemma {:induction false} FindHere(text: bytes, rest: bytes)
    requires |text| >= 3 && text[0] == OPEN && text[|text| - 1] == CLOSE && text[1] != CLOSE && text[|text| - 2] != STAR
    requires forall j | 2 <= j < |text| - 1 :: text[j] !in {CLOSE, STAR, SLASH}
    ensures FindWildcard(text + rest) == WildcardAt(0, |text|)
  {
    hide CloseFrom;
    var path := text + rest;
    assert forall j | 0 <= j < |text| :: path[j] == text[j];
    ClosesAt(path, 2, |text|);
  }

  /** Every properly named pattern is accepted, and reads as the pattern it was written from. */
  lemma {:induction false} RenderReads(p: Tokens, names: seq<Name>, k: nat)
    requires WellNamed(p, names) && k + |names| <= MAX_PARAMS
    ensures Normalize(Render(p, names), k) == Normalized(p, names)
    decreases |p|
  {
    hide Normalize, CloseFrom, FindWildcard;
    if p == [] {
      NormalizeNothing(k);
    } else {
      var q := p[1..];
      assert p == [p[0]] + q;
      match p[0]
      case Lit(b) =>
        RenderReads(q, names, k);
        LiteralFirst(b, Render(q, names), k);
        assert [] + names == names;
      case Param =>
        var name := names[0];
        var text := [OPEN] + name + [CLOSE];
        assert names == [name] + names[1..];
        assert text[1..|text| - 1] == name;
        assert forall j | 2 <= j < |text| - 1 :: text[j] == name[1..][j - 2];
        assert text[|text| - 2] == name[|name| - 1];
        assert |name| > 1 ==> name[|name| - 1] == name[1..][|name| - 2];
        RenderReads(q, names[1..], k + 1);
        WildFirst(text, Render(q, names[1..]), k);
        assert Render(p, names) == text + Render(q, names[1..]);
      case Catch(name) =>
        var text := [OPEN, STAR] + name + [CLOSE];
        assert text[2..|text| - 1] == name;
        assert forall j | 2 <= j < |text| - 1 :: text[j] == name[j - 2];
        RenderReads(q, names, k);
        WildFirst(text, Render(q, names), k);
        assert Render(p, names) == text + Render(q, names);
        assert [] + names == names;
    }
  }

  lemma {:induction false} NormalizeNothing(k: nat)
    ensures Normalize([], k) == Normalized([], [])
  {
    assert Literals([]) == [];
  }
}
