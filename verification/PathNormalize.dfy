/** Normal request paths: escapes reduced, dot segments resolved, slashes merged. */
module PathNormalize {
  import opened Prelude
  import opened Utf8
  import opened PathSyntax

  const HERE: bytes := [DOT]
  const UP: bytes := [DOT, DOT]

  // ----- What the algorithm computes -----

  function Resolve(parts: seq<bytes>, stack: seq<bytes>): seq<bytes>
    decreases |parts|
  {
    if parts == [] then stack
    else if parts[0] == [] || parts[0] == HERE then Resolve(parts[1..], stack)
    else if parts[0] == UP then Resolve(parts[1..], if stack == [] then [] else stack[..|stack| - 1])
    else Resolve(parts[1..], stack + [parts[0]])
  }

  function Join(segments: seq<bytes>): bytes {
    if segments == [] then [] else [SLASH] + segments[0] + Join(segments[1..])
  }

  lemma {:induction false} JoinFirst(x: bytes, rest: seq<bytes>)
    ensures Join([x] + rest) == [SLASH] + x + Join(rest)
  {
    assert ([x] + rest)[1..] == rest;
  }

  lemma {:induction false} JoinOne(x: bytes)
    ensures Join([x]) == [SLASH] + x
  {
    assert [x][1..] == [];
    assert [SLASH] + x + [] == [SLASH] + x;
  }

  predicate EndsInDirectory(s: bytes) {
    EndsWith(s, [SLASH]) || EndsWith(s, [SLASH] + HERE) || EndsWith(s, [SLASH] + UP)
  }

  function Assemble(decoded: bytes): bytes {
    var segments := Resolve(Split(decoded, SLASH), []);
    var out := Join(segments);
    if out == [] || (EndsInDirectory(decoded) && segments != []) then out + [SLASH] else out
  }

  /** The whole algorithm, without the shortcut for paths that look normal. */
  function Full(path: bytes): bytes {
    Assemble(Decode(path))
  }

  predicate SuspiciousAt(path: bytes, i: nat)
    requires i < |path|
  {
    path[i] == PERCENT || (path[i] == SLASH && i + 1 < |path| && path[i + 1] in {SLASH, DOT})
  }

  predicate Suspicious(path: bytes) {
    exists i | 0 <= i < |path| :: SuspiciousAt(path, i)
  }

  // ----- As the source runs it -----

  method NextPercent(path: bytes, from: nat) returns (i: nat)
    requires from <= |path|
    ensures from <= i <= |path| && (i < |path| ==> path[i] == PERCENT)
    ensures forall k | from <= k < i :: path[k] != PERCENT
  {
    i := from;
    while i < |path| && path[i] != PERCENT
      invariant from <= i <= |path| && forall k | from <= k < i :: path[k] != PERCENT
    {
      i := i + 1;
    }
  }

  /** Copies whole runs between percent signs. */
  method DecodeRuns(path: bytes) returns (out: bytes)
    ensures out == Decode(path)
  {
    hide Decode, Unreserved, Upper;
    var i := 0;
    out := [];
    assert path[0..] == path;
    while i < |path|
      invariant 0 <= i <= |path|
      invariant out + Decode(path[i..]) == Decode(path)
    {
      if path[i] == PERCENT && i + 2 < |path| && HexValue(path[i + 1]).Some? && HexValue(path[i + 2]).Some? {
        var c: byte := HexValue(path[i + 1]).value * 16 + HexValue(path[i + 2]).value;
        var reduced: bytes := if Unreserved(c) then [c] else [PERCENT, Upper(path[i + 1]), Upper(path[i + 2])];
        EscapeStep(path, i);
        Associative(out, reduced, Decode(path[i + 3..]));
        out := out + reduced;
        i := i + 3;
      } else {
        var end := NextPercent(path, i + 1);
        RunStep(path, i, end);
        Associative(out, path[i..end], Decode(path[end..]));
        out := out + path[i..end];
        i := end;
      }
    }
    NothingLeft(path);
    assert out + [] == out;
  }

  /** The text stays well formed, so the way back to the input is never taken. */
  method DecodeUnreserved(path: bytes) returns (decoded: bytes)
    requires Valid(path)
    ensures decoded == Decode(path)
  {
    var first := NextPercent(path, 0);
    if first == |path| {
      DecodePlain(path, |path|);
      assert path[..|path|] == path;
      return path;
    }
    var out := DecodeRuns(path);
    DecodeIsText(path);
    return if Valid(out) then out else path;
  }

  lemma {:induction false} Associative(a: bytes, b: bytes, c: bytes)
    ensures a + b + c == a + (b + c)
  {
  }

  lemma {:induction false} NothingLeft(path: bytes)
    ensures Decode(path[|path|..]) == []
  {
  }

  lemma {:induction false} EscapeStep(path: bytes, i: nat)
    requires i + 2 < |path| && path[i] == PERCENT && HexValue(path[i + 1]).Some? && HexValue(path[i + 2]).Some?
    ensures var c := HexValue(path[i + 1]).value * 16 + HexValue(path[i + 2]).value;
            Decode(path[i..]) == (if Unreserved(c) then [c] else [PERCENT, Upper(path[i + 1]), Upper(path[i + 2])]) +
              Decode(path[i + 3..])
  {
    var rest := path[i..];
    assert EscapeAt(rest) && rest[1] == path[i + 1] && rest[2] == path[i + 2] && rest[3..] == path[i + 3..];
  }

  lemma {:induction false} RunStep(path: bytes, i: nat, end: nat)
    requires i < end <= |path| && !EscapeAt(path[i..]) && forall k | i < k < end :: path[k] != PERCENT
    ensures Decode(path[i..]) == path[i..end] + Decode(path[end..])
  {
    var rest := path[i..];
    DecodeLiteral(rest, end - i);
    assert rest[..end - i] == path[i..end] && rest[end - i..] == path[end..];
  }

  method NormalizePath(path: bytes) returns (r: Option<bytes>)
    requires Valid(path)
    ensures r == if Suspicious(path) && Full(path) != path then Some(Full(path)) else None
  {
    var suspicious := LooksSuspicious(path);
    if !suspicious {
      return None;
    }
    var decoded := DecodeUnreserved(path);
    var segments := ResolveSegments(Split(decoded, SLASH));
    var out := JoinSegments(segments);
    if out == [] || (EndsInDirectory(decoded) && segments != []) {
      out := out + [SLASH];
    }
    return if out != path then Some(out) else None;
  }

  method LooksSuspicious(path: bytes) returns (suspicious: bool)
    ensures suspicious == Suspicious(path)
  {
    for i := 0 to |path|
      invariant forall k | 0 <= k < i :: !SuspiciousAt(path, k)
    {
      if SuspiciousAt(path, i) {
        return true;
      }
    }
    return false;
  }

  method ResolveSegments(parts: seq<bytes>) returns (segments: seq<bytes>)
    ensures segments == Resolve(parts, [])
  {
    segments := [];
    assert parts[0..] == parts;
    for i := 0 to |parts|
      invariant Resolve(parts, []) == Resolve(parts[i..], segments)
    {
      assert parts[i..][1..] == parts[i + 1..];
      var part := parts[i];
      if part == [] || part == HERE {
      } else if part == UP {
        segments := if segments == [] then [] else segments[..|segments| - 1];
      } else {
        segments := segments + [part];
      }
    }
  }

  method JoinSegments(segments: seq<bytes>) returns (out: bytes)
    ensures out == Join(segments)
  {
    out := [];
    assert segments[0..] == segments;
    for i := 0 to |segments|
      invariant out + Join(segments[i..]) == Join(segments)
    {
      assert segments[i..][1..] == segments[i + 1..];
      assert out + ([SLASH] + segments[i] + Join(segments[i + 1..])) ==
             out + [SLASH] + segments[i] + Join(segments[i + 1..]);
      out := out + [SLASH] + segments[i];
    }
    assert out + [] == out;
  }

  // ----- The shape of a normal path -----

  ghost predicate Good(segment: bytes) {
    segment != [] && segment != HERE && segment != UP && SLASH !in segment
  }

  ghost predicate AllGood(segments: seq<bytes>) {
    forall i | 0 <= i < |segments| :: Good(segments[i])
  }

  /** Good segments, each behind its slash, and perhaps a slash at the end. */
  ghost function Shape(segments: seq<bytes>, slash: bool): bytes {
    Join(segments) + if slash || segments == [] then [SLASH] else []
  }

  lemma {:induction false} ResolveIsGood(parts: seq<bytes>, stack: seq<bytes>)
    requires AllGood(stack) && forall i | 0 <= i < |parts| :: SLASH !in parts[i]
    ensures AllGood(Resolve(parts, stack))
    decreases |parts|
  {
    if parts != [] {
      var rest := parts[1..];
      if parts[0] == [] || parts[0] == HERE {
        ResolveIsGood(rest, stack);
      } else if parts[0] == UP {
        ResolveIsGood(rest, if stack == [] then [] else stack[..|stack| - 1]);
      } else {
        ResolveIsGood(rest, stack + [parts[0]]);
      }
    }
  }

  lemma {:induction false} JoinIsEmpty(segments: seq<bytes>)
    ensures Join(segments) == [] <==> segments == []
  {
  }

  lemma {:induction false} AssembleHasShape(decoded: bytes)
    ensures var segments := Resolve(Split(decoded, SLASH), []);
            AllGood(segments) && Assemble(decoded) == Shape(segments, EndsInDirectory(decoded))
  {
    var segments := Resolve(Split(decoded, SLASH), []);
    ResolveIsGood(Split(decoded, SLASH), []);
    JoinIsEmpty(segments);
    assert Join(segments) + [] == Join(segments);
  }

  ghost predicate NoSlashes(segments: seq<bytes>) {
    forall i | 0 <= i < |segments| :: SLASH !in segments[i]
  }

  /** Cutting a path of this shape gives its segments back. */
  lemma {:induction false} SplitShape(segments: seq<bytes>, tail: bytes)
    requires NoSlashes(segments) && (tail == [] || tail == [SLASH])
    ensures Split(Join(segments) + tail, SLASH) == [[]] + segments + if tail == [] then [] else [[]]
    decreases |segments|, 1
  {
    if segments == [] {
      assert Join(segments) + tail == tail;
      if tail != [] {
        assert tail[1..] == [];
        assert Split(tail, SLASH) == [[]] + Split([], SLASH);
      }
    } else {
      SplitShapeStep(segments[0], segments[1..], tail);
      assert segments == [segments[0]] + segments[1..];
    }
  }

  lemma {:induction false} SplitShapeStep(x: bytes, rest: seq<bytes>, tail: bytes)
    requires SLASH !in x && NoSlashes(rest) && (tail == [] || tail == [SLASH])
    ensures Split(Join([x] + rest) + tail, SLASH) == [[]] + ([x] + rest) + if tail == [] then [] else [[]]
    decreases |rest| + 1, 0
  {
    hide Split, Join;
    var y := Join(rest) + tail;
    SplitShape(rest, tail);
    JoinFirst(x, rest);
    assert Join([x] + rest) + tail == [SLASH] + (x + y);
    SplitSlash(x + y);
    JoinStart(rest, tail);
    SplitBehind(x, y);
    var more: seq<bytes> := if tail == [] then [] else [[]];
    assert ([[]] + rest + more)[1..] == rest + more;
    assert [[]] + ([x] + (rest + more)) == [[]] + ([x] + rest) + more;
  }

  lemma {:induction false} SplitSlash(y: bytes)
    ensures Split([SLASH] + y, SLASH) == [[]] + Split(y, SLASH)
  {
    assert ([SLASH] + y)[1..] == y;
  }

  /** A piece in front of a text that is empty or starts with a slash. */
  lemma {:induction false} SplitBehind(x: bytes, y: bytes)
    requires SLASH !in x && (y == [] || y[0] == SLASH)
    ensures Split(x + y, SLASH) == [x] + Split(y, SLASH)[1..]
  {
    if y == [] {
      SplitPiece(x, []);
      assert x + y == x;
    } else {
      SplitPiece(x, y[1..]);
      assert x + y == x + [SLASH] + y[1..];
    }
  }

  lemma {:induction false} JoinStart(segments: seq<bytes>, tail: bytes)
    requires tail == [] || tail == [SLASH]
    ensures var y := Join(segments) + tail; y == [] || y[0] == SLASH
  {
  }

  lemma {:induction false} ResolveGood(segments: seq<bytes>, stack: seq<bytes>, tail: seq<bytes>)
    requires AllGood(segments) && (tail == [] || tail == [[]])
    ensures Resolve(segments + tail, stack) == stack + segments
    decreases |segments|
  {
    if segments == [] {
      assert segments + tail == tail;
      assert stack + segments == stack;
    } else {
      assert Good(segments[0]);
      assert (segments + tail)[1..] == segments[1..] + tail;
      ResolveGood(segments[1..], stack + [segments[0]], tail);
      assert stack + [segments[0]] + segments[1..] == stack + segments;
    }
  }

  lemma {:induction false} JoinEnd(segments: seq<bytes>)
    requires segments != []
    ensures Join(segments) == Join(segments[..|segments| - 1]) + [SLASH] + segments[|segments| - 1]
    decreases |segments|
  {
    if |segments| > 1 {
      var rest := segments[1..];
      JoinEnd(rest);
      assert rest[..|rest| - 1] == segments[..|segments| - 1][1..];
    } else {
      assert segments[1..] == [] && segments[..0] == [];
    }
  }

  /** It ends like a directory exactly when the slash is there. */
  lemma {:induction false} ShapeEnd(segments: seq<bytes>, slash: bool)
    requires AllGood(segments) && segments != []
    ensures EndsInDirectory(Shape(segments, slash)) <==> slash
  {
    var q, x := Shape(segments, slash), segments[|segments| - 1];
    JoinEnd(segments);
    if slash {
      assert q[|q| - 1..] == [SLASH];
    } else {
      assert Good(x);
      LastSegment(Join(segments[..|segments| - 1]), x);
      assert Join(segments) + [] == Join(segments);
    }
  }

  lemma {:induction false} DirectoryEnds(q: bytes)
    ensures var n := |q|;
            EndsInDirectory(q) <==>
              || (n >= 1 && q[n - 1] == SLASH)
              || (n >= 2 && q[n - 2] == SLASH && q[n - 1] == DOT)
              || (n >= 3 && q[n - 3] == SLASH && q[n - 2] == DOT && q[n - 1] == DOT)
  {
    var n := |q|;
    assert n >= 1 ==> q[n - 1..] == [q[n - 1]];
    assert n >= 2 ==> q[n - 2..] == [q[n - 2], q[n - 1]];
    assert n >= 3 ==> q[n - 3..] == [q[n - 3], q[n - 2], q[n - 1]];
  }

  lemma {:induction false} LastSegment(front: bytes, x: bytes)
    requires Good(x)
    ensures !EndsInDirectory(front + [SLASH] + x)
  {
    hide EndsInDirectory;
    var q, n := front + [SLASH] + x, |x|;
    DirectoryEnds(q);
    assert forall i | 0 <= i < n :: q[|q| - n + i] == x[i] && x[i] in x;
    assert q[|q| - 1] == x[n - 1];
    assert n >= 2 ==> q[|q| - 2] == x[n - 2];
    assert n >= 3 ==> q[|q| - 3] == x[n - 3];
    assert n == 1 ==> x == [x[0]];
    assert n == 2 ==> x == [x[0], x[1]];
  }

  /** A path of this shape is left alone by everything but the escapes. */
  lemma {:induction false} AssembleKeepsShape(segments: seq<bytes>, slash: bool)
    requires AllGood(segments)
    ensures Assemble(Shape(segments, slash)) == Shape(segments, slash)
  {
    var q := Shape(segments, slash);
    var tail: bytes := if slash || segments == [] then [SLASH] else [];
    SplitShape(segments, tail);
    var more: seq<bytes> := if tail == [] then [] else [[]];
    assert ([[]] + segments + more)[1..] == segments + more;
    ResolveGood(segments, [], more);
    assert Resolve(Split(q, SLASH), []) == segments;
    JoinIsEmpty(segments);
    if segments != [] {
      ShapeEnd(segments, slash);
      assert Join(segments) + [] == Join(segments);
    }
  }

  // ----- The shortcut -----

  lemma {:induction false} PlainShape(s: bytes) returns (segments: seq<bytes>, slash: bool)
    requires s != [] && s[0] == SLASH && !Suspicious(s)
    ensures AllGood(segments) && s == Shape(segments, slash)
    decreases |s|
  {
    assert !SuspiciousAt(s, 0);
    var y := s[1..];
    if y == [] {
      segments, slash := [], true;
      assert s == [SLASH];
    } else {
      var k := FirstSlash(y);
      var x, z := y[..k], y[k..];
      assert y[0] != SLASH && y[0] != DOT;
      assert x[0] == y[0] && Good(x);
      assert s == [SLASH] + x + z;
      if z == [] {
        segments, slash := [x], false;
        JoinOne(x);
      } else {
        SuffixIsPlain(s, k + 1);
        assert s[k + 1..] == z;
        var rest, end := PlainShape(z);
        segments, slash := [x] + rest, if rest == [] then true else end;
        JoinFirst(x, rest);
        assert AllGood(segments);
      }
    }
  }

  lemma {:induction false} SuffixIsPlain(s: bytes, k: nat)
    requires !Suspicious(s) && k <= |s|
    ensures !Suspicious(s[k..])
  {
    forall i | 0 <= i < |s[k..]| ensures !SuspiciousAt(s[k..], i) { assert !SuspiciousAt(s, k + i); }
  }

  lemma {:induction false} FirstSlash(s: bytes) returns (k: nat)
    requires s != []
    ensures k <= |s| && SLASH !in s[..(k)] && (k < |s| ==> s[k] == SLASH)
  {
    k := 0;
    while k < |s| && s[k] != SLASH
      invariant k <= |s| && SLASH !in s[..k]
    {
      assert s[..k + 1] == s[..k] + [s[k]];
      k := k + 1;
    }
  }

  /**
   For a path that starts with a slash, the shortcut passes over it only where the whole algorithm
   would leave it alone.
   */
  lemma {:induction false} ShortcutIsSafe(path: bytes)
    requires path != [] && path[0] == SLASH && !Suspicious(path)
    ensures Full(path) == path
  {
    var segments, slash := PlainShape(path);
    AssembleKeepsShape(segments, slash);
    forall i | 0 <= i < |path| ensures path[i] != PERCENT { assert !SuspiciousAt(path, i); }
    DecodePlain(path, |path|);
    assert path[..|path|] + Decode(path[|path|..]) == path;
  }

  // ----- Results -----

  /** What is left of the segments: nothing empty inside, no dot segment. */
  ghost predicate NoOddSegment(s: bytes) {
    var parts := Split(s, SLASH);
    && |parts| >= 2 && parts[0] == []
    && forall i | 0 < i < |parts| :: parts[i] != HERE && parts[i] != UP && (parts[i] == [] ==> i == |parts| - 1)
  }

  /** The result of any path has no empty inner segment and no dot segment. */
  lemma {:induction false} ResultIsClean(path: bytes)
    ensures NoOddSegment(Full(path))
  {
    var d := Decode(path);
    AssembleHasShape(d);
    var segments, slash := Resolve(Split(d, SLASH), []), EndsInDirectory(d);
    var tail: bytes := if slash || segments == [] then [SLASH] else [];
    SplitShape(segments, tail);
    hide Split, Resolve, Decode, Assemble;
    var parts := Split(Full(path), SLASH);
    forall i | 0 < i < |parts| ensures parts[i] != HERE && parts[i] != UP && (parts[i] == [] ==> i == |parts| - 1) {
      if i - 1 < |segments| { assert Good(segments[i - 1]); }
    }
  }

  lemma {:induction false} ResolveCanonical(parts: seq<bytes>, stack: seq<bytes>)
    requires (forall i | 0 <= i < |parts| :: Canonical(parts[i])) && forall i | 0 <= i < |stack| :: Canonical(stack[i])
    ensures forall i | 0 <= i < |Resolve(parts, stack)| :: Canonical(Resolve(parts, stack)[i])
    decreases |parts|
  {
    if parts != [] {
      var rest := parts[1..];
      if parts[0] == [] || parts[0] == HERE {
        ResolveCanonical(rest, stack);
      } else if parts[0] == UP {
        ResolveCanonical(rest, if stack == [] then [] else stack[..|stack| - 1]);
      } else {
        ResolveCanonical(rest, stack + [parts[0]]);
      }
    }
  }

  lemma {:induction false} JoinCanonical(segments: seq<bytes>)
    requires forall i | 0 <= i < |segments| :: Canonical(segments[i])
    ensures Canonical(Join(segments))
    decreases |segments|
  {
    if segments != [] {
      JoinCanonical(segments[1..]);
      assert [SLASH][1..] == [];
      CanonicalConcat([SLASH], segments[0]);
      CanonicalConcat([SLASH] + segments[0], Join(segments[1..]));
    }
  }

  /** Normalizing again changes nothing, if every percent sign of the path starts an escape. */
  lemma {:induction false} NormalizingIsIdempotent(path: bytes)
    requires Escaped(path)
    ensures Full(Full(path)) == Full(path)
  {
    hide Split, Resolve, Decode, Canonical, EndsInDirectory;
    var d := Decode(path);
    var segments, slash := Resolve(Split(d, SLASH), []), EndsInDirectory(d);
    DecodeIsCanonical(path);
    CanonicalPieces(d);
    ResolveCanonical(Split(d, SLASH), []);
    JoinCanonical(segments);
    AssembleHasShape(d);
    ShapeCanonical(segments, slash);
    CanonicalIsFixed(Full(path));
    AssembleKeepsShape(segments, slash);
  }

  lemma {:induction false} ShapeCanonical(segments: seq<bytes>, slash: bool)
    requires Canonical(Join(segments))
    ensures Canonical(Shape(segments, slash))
  {
    assert [SLASH][1..] == [];
    if slash || segments == [] {
      CanonicalConcat(Join(segments), [SLASH]);
    } else {
      assert Join(segments) + [] == Join(segments);
    }
  }

  ghost function DecodeEach(segments: seq<bytes>): (r: seq<bytes>)
    ensures |r| == |segments|
  {
    seq(|segments|, i requires 0 <= i < |segments| => Decode(segments[i]))
  }

  lemma {:induction false} DecodeEachFirst(segments: seq<bytes>)
    requires segments != []
    ensures DecodeEach(segments) == [Decode(segments[0])] + DecodeEach(segments[1..])
  {
  }

  /** A path is decoded segment by segment. */
  lemma {:induction false} DecodeShape(segments: seq<bytes>, tail: bytes)
    requires tail == [] || tail == [SLASH]
    ensures Decode(Join(segments) + tail) == Join(DecodeEach(segments)) + tail
    decreases |segments|
  {
    if segments == [] {
      assert Join(segments) + tail == tail;
      assert tail != [] ==> tail[1..] == [];
    } else {
      DecodeShapeStep(segments[0], segments[1..], tail);
      assert segments == [segments[0]] + segments[1..];
      DecodeEachFirst(segments);
    }
  }

  lemma {:induction false} DecodeShapeStep(x: bytes, rest: seq<bytes>, tail: bytes)
    requires tail == [] || tail == [SLASH]
    ensures Decode(Join([x] + rest) + tail) == Join([Decode(x)] + DecodeEach(rest)) + tail
    decreases |rest| + 1, 0
  {
    hide Decode, Join, DecodeEach;
    var y := Join(rest) + tail;
    DecodeShape(rest, tail);
    JoinFirst(x, rest);
    JoinFirst(Decode(x), DecodeEach(rest));
    JoinStart(rest, tail);
    DecodeBehind(x, y);
    DecodeSlash(x + y);
    assert Join([x] + rest) + tail == [SLASH] + (x + y);
    assert [SLASH] + (Decode(x) + (Join(DecodeEach(rest)) + tail)) ==
           [SLASH] + Decode(x) + Join(DecodeEach(rest)) + tail;
  }

  lemma {:induction false} DecodeSlash(y: bytes)
    ensures Decode([SLASH] + y) == [SLASH] + Decode(y)
  {
    assert ([SLASH] + y)[1..] == y;
  }

  /** Resolving never makes more segments, and keeps as many only if it keeps them all. */
  lemma {:induction false} ResolveKeepsAll(parts: seq<bytes>, stack: seq<bytes>)
    ensures |Resolve(parts, stack)| <= |stack| + |parts|
    ensures |Resolve(parts, stack)| == |stack| + |parts| ==> Resolve(parts, stack) == stack + parts
    decreases |parts|
  {
    if parts != [] {
      var rest := parts[1..];
      if parts[0] == [] || parts[0] == HERE {
        ResolveKeepsAll(rest, stack);
      } else if parts[0] == UP {
        ResolveKeepsAll(rest, if stack == [] then [] else stack[..|stack| - 1]);
      } else {
        ResolveKeepsAll(rest, stack + [parts[0]]);
        assert stack + [parts[0]] + rest == stack + parts;
      }
    } else {
      assert stack + parts == stack;
    }
  }

  /** An empty piece at the end adds nothing. */
  lemma {:induction false} ResolveTail(parts: seq<bytes>, stack: seq<bytes>)
    ensures Resolve(parts + [[]], stack) == Resolve(parts, stack)
    decreases |parts|
  {
    if parts == [] {
      assert parts + [[]] == [[]];
      var empty: seq<bytes> := [[]];
      assert empty[1..] == [];
    } else {
      var rest := parts[1..];
      assert (parts + [[]])[1..] == rest + [[]];
      if parts[0] == [] || parts[0] == HERE {
        ResolveTail(rest, stack);
      } else if parts[0] == UP {
        ResolveTail(rest, if stack == [] then [] else stack[..|stack| - 1]);
      } else {
        ResolveTail(rest, stack + [parts[0]]);
      }
    }
  }

  /** What a second pass resolves. */
  lemma {:induction false} SecondSegments(segments: seq<bytes>, slash: bool)
    requires AllGood(segments)
    ensures Resolve(Split(Decode(Shape(segments, slash)), SLASH), []) == Resolve(DecodeEach(segments), [])
  {
    var tail: bytes := if slash || segments == [] then [SLASH] else [];
    var parts := DecodeEach(segments);
    DecodeShape(segments, tail);
    forall i | 0 <= i < |segments| ensures SLASH !in parts[i] {
      assert Good(segments[i]);
      DecodeNoSlash(segments[i]);
    }
    SplitShape(parts, tail);
    ResolveTail(parts, []);
    hide Decode, Split, DecodeEach;
    var more: seq<bytes> := if tail == [] then [] else [[]];
    assert ([[]] + parts + more)[1..] == parts + more;
    assert parts + [] == parts;
  }

  /** A normal path spells its segments. */
  lemma {:induction false} ShapeSpells(a: seq<bytes>, x: bool, b: seq<bytes>, y: bool)
    requires AllGood(a) && AllGood(b) && Shape(a, x) == Shape(b, y)
    ensures a == b
  {
    var s, t: bytes := if x || a == [] then [SLASH] else [], if y || b == [] then [SLASH] else [];
    SplitShape(a, s);
    SplitShape(b, t);
    var p, q := [[]] + a + (if s == [] then [] else [[]]), [[]] + b + if t == [] then [] else [[]];
    assert p == q;
    LastPiece(a, s);
    LastPiece(b, t);
    assert |a| == |b|;
    forall i | 0 <= i < |a| ensures a[i] == b[i] { assert p[i + 1] == a[i] && q[i + 1] == b[i]; }
  }

  /** The last piece is empty exactly if there is a slash at the end. */
  lemma {:induction false} LastPiece(segments: seq<bytes>, tail: bytes)
    requires AllGood(segments) && (segments == [] ==> tail != [])
    ensures var p: seq<bytes> := [[]] + segments + if tail == [] then [] else [[]]; p[|p| - 1] == [] <==> tail != []
  {
    if tail == [] {
      assert Good(segments[|segments| - 1]);
    }
  }

  /** The segments that are left of a path. */
  function Left(path: bytes): seq<bytes> {
    Resolve(Split(Decode(path), SLASH), [])
  }

  /**
   Normalizing again changes nothing if and only if no segment that is left holds an escape that can be
   reduced, which only a stray percent sign can make.
   */
  lemma {:induction false} IdempotentIff(path: bytes)
    ensures Full(Full(path)) == Full(path) <==> forall s | s in Left(path) :: Irreducible(s)
  {
    var d := Decode(path);
    var segments, slash := Left(path), EndsInDirectory(d);
    AssembleHasShape(d);
    SecondSegments(segments, slash);
    AssembleHasShape(Decode(Full(path)));
    hide Decode, Irreducible, Left, Resolve, Split;
    forall i | 0 <= i < |segments| ensures Decode(segments[i]) == segments[i] <==> Irreducible(segments[i]) {
      DecodeFixedIff(segments[i]);
    }
    FixedEach(segments);
    if Full(Full(path)) == Full(path) {
      var again := Resolve(DecodeEach(segments), []);
      ShapeSpells(again, EndsInDirectory(Decode(Full(path))), segments, slash);
      ResolveKeepsAll(DecodeEach(segments), []);
      assert [] + DecodeEach(segments) == DecodeEach(segments);
    }
    if DecodeEach(segments) == segments {
      FixedShape(segments, slash);
      AssembleKeepsShape(segments, slash);
    }
  }

  lemma {:induction false} FixedEach(segments: seq<bytes>)
    ensures DecodeEach(segments) == segments <==> forall i | 0 <= i < |segments| :: Decode(segments[i]) == segments[i]
  {
    hide Decode;
    assert forall i | 0 <= i < |segments| :: DecodeEach(segments)[i] == Decode(segments[i]);
  }

  lemma {:induction false} FixedShape(segments: seq<bytes>, slash: bool)
    requires DecodeEach(segments) == segments
    ensures Decode(Shape(segments, slash)) == Shape(segments, slash)
  {
    DecodeShape(segments, if slash || segments == [] then [SLASH] else []);
  }

  /** A stray percent sign before an escape: the first pass makes a new escape, which a second pass reduces. */
  lemma {:induction false} SecondPassExample()
    ensures var path := [SLASH, PERCENT, PERCENT, 51, 52, 49];
            && Full(path) == [SLASH, PERCENT, 52, 49]
            && Full(Full(path)) == [SLASH, 65]
  {
    var path, once := [SLASH, PERCENT, PERCENT, 51, 52, 49], [SLASH, PERCENT, 52, 49];
    assert Decode(path) == once by {
      assert path[1..] == [PERCENT, PERCENT, 51, 52, 49];
      assert path[1..][1..] == [PERCENT, 51, 52, 49];
      assert Decode([PERCENT, 51, 52, 49]) == [52, 49] by {
        assert [PERCENT, 51, 52, 49][3..] == [49] && [49][1..] == [];
      }
    }
    assert Decode(once) == [SLASH, 65] by {
      assert once[1..] == [PERCENT, 52, 49] && once[1..][3..] == [];
    }
    OneSegment([PERCENT, 52, 49]);
    OneSegment([65]);
  }

  lemma {:induction false} OneSegment(x: bytes)
    requires Good(x)
    ensures Assemble([SLASH] + x) == [SLASH] + x
  {
    JoinOne(x);
    assert Shape([x], false) == [SLASH] + x;
    AssembleKeepsShape([x], false);
  }
}
