/** What dot segments do to a path: the laws of section 5.2.4 of RFC 3986, and which segments are left. */
module PathResolution {
  import opened Prelude
  import opened PathSyntax
  import opened PathNormalize

  // ----- Cutting and resolving in pieces -----

  lemma {:induction false} ResolveConcat(a: seq<bytes>, b: seq<bytes>, stack: seq<bytes>)
    ensures Resolve(a + b, stack) == Resolve(b, Resolve(a, stack))
    decreases |a|
  {
    if a == [] {
      assert a + b == b;
    } else {
      assert (a + b)[1..] == a[1..] + b;
      if a[0] == [] || a[0] == HERE {
        ResolveConcat(a[1..], b, stack);
      } else if a[0] == UP {
        ResolveConcat(a[1..], b, if stack == [] then [] else stack[..|stack| - 1]);
      } else {
        ResolveConcat(a[1..], b, stack + [a[0]]);
      }
    }
  }

  lemma {:induction false} SplitFirst(b: byte, s: bytes)
    ensures b == SLASH ==> Split([b] + s, SLASH) == [[]] + Split(s, SLASH)
    ensures b != SLASH ==> Split([b] + s, SLASH) == [[b] + Split(s, SLASH)[0]] + Split(s, SLASH)[1..]
  {
    assert ([b] + s)[1..] == s && ([b] + s)[0] == b;
  }

  /** A piece put before a list of pieces, or grown at the front of it, leaves what follows the list. */
  lemma {:induction false} FrontOnly(b: byte, rest: seq<bytes>, more: seq<bytes>)
    requires rest != []
    ensures [[]] + (rest + more) == [[]] + rest + more
    ensures [[b] + (rest + more)[0]] + (rest + more)[1..] == [[b] + rest[0]] + rest[1..] + more
  {
    assert (rest + more)[1..] == rest[1..] + more;
  }

  lemma {:induction false} SplitConcat(a: bytes, s: bytes)
    ensures Split(a + [SLASH] + s, SLASH) == Split(a, SLASH) + Split(s, SLASH)
    decreases |a|, 1
  {
    if a == [] {
      assert a + [SLASH] + s == [SLASH] + s;
      SplitSlash(s);
    } else {
      SplitConcatStep(a[0], a[1..], s);
      assert a == [a[0]] + a[1..];
    }
  }

  lemma {:induction false} SplitConcatStep(b: byte, tail: bytes, s: bytes)
    ensures Split([b] + tail + [SLASH] + s, SLASH) == Split([b] + tail, SLASH) + Split(s, SLASH)
    decreases |tail| + 1, 0
  {
    hide Split;
    SplitConcat(tail, s);
    assert [b] + tail + [SLASH] + s == [b] + (tail + [SLASH] + s);
    SplitFirst(b, tail);
    SplitFirst(b, tail + [SLASH] + s);
    FrontOnly(b, Split(tail, SLASH), Split(s, SLASH));
  }

  /** Pieces that leave every stack as it was. */
  ghost predicate Neutral(parts: seq<bytes>) {
    forall stack :: Resolve(parts, stack) == stack
  }

  lemma {:induction false} DotsAreNeutral()
    ensures Neutral([[]]) && Neutral([HERE])
  {
    var empty: seq<bytes> := [[]];
    var here: seq<bytes> := [HERE];
    assert empty[1..] == [] && here[1..] == [];
  }

  lemma {:induction false} UpIsNeutral(x: bytes)
    requires Good(x)
    ensures Neutral([x, UP])
  {
    var parts := [x, UP];
    assert parts[1..] == [UP] && [UP][1..] == [];
    forall stack ensures Resolve(parts, stack) == stack {
      assert Resolve([UP], stack + [x]) == (stack + [x])[..|stack|];
    }
  }

  /** Two texts join at a slash after decoding as before it. */
  lemma {:induction false} DecodeJoin(a: bytes, s: bytes)
    ensures Decode(a + [SLASH] + s) == Decode(a) + [SLASH] + Decode(s)
  {
    hide Decode;
    assert a + [SLASH] + s == a + ([SLASH] + s);
    DecodeBehind(a, [SLASH] + s);
    DecodeSlash(s);
  }

  /** A path ends in a directory by what follows its last slashes. */
  lemma {:induction false} EndByTail(a: bytes, b: bytes)
    requires b != [] && b[0] == SLASH
    ensures EndsInDirectory(a + b) <==> EndsInDirectory(b)
  {
    hide EndsInDirectory;
    var q := a + b;
    DirectoryEnds(q);
    DirectoryEnds(b);
    assert forall i | 0 <= i < |b| :: q[|a| + i] == b[i];
  }

  /** A stretch of neutral pieces can be left out between two slashes. */
  lemma {:induction false} NeutralDrops(a: bytes, mid: bytes, c: bytes)
    requires Neutral(Split(Decode(mid), SLASH))
    ensures Full(a + [SLASH] + mid + [SLASH] + c) == Full(a + [SLASH] + c)
  {
    hide Decode, Split, Resolve, EndsInDirectory, Join;
    var A, M, C := Decode(a), Decode(mid), Decode(c);
    DecodeJoin(a + [SLASH] + mid, c);
    DecodeJoin(a, mid);
    DecodeJoin(a, c);
    SplitConcat(A + [SLASH] + M, C);
    SplitConcat(A, M);
    SplitConcat(A, C);
    ResolveConcat(Split(A, SLASH) + Split(M, SLASH), Split(C, SLASH), []);
    ResolveConcat(Split(A, SLASH), Split(M, SLASH), []);
    ResolveConcat(Split(A, SLASH), Split(C, SLASH), []);
    assert A + [SLASH] + M + [SLASH] + C == A + [SLASH] + M + ([SLASH] + C);
    assert A + [SLASH] + C == A + ([SLASH] + C);
    EndByTail(A + [SLASH] + M, [SLASH] + C);
    EndByTail(A, [SLASH] + C);
  }

  /** And at the end of a path it leaves the directory. */
  lemma {:induction false} NeutralEnds(a: bytes, mid: bytes)
    requires Neutral(Split(Decode(mid), SLASH)) && EndsInDirectory([SLASH] + Decode(mid))
    ensures Full(a + [SLASH] + mid) == Full(a + [SLASH])
  {
    hide Decode, Split, Resolve, EndsInDirectory, Join;
    var A, M := Decode(a), Decode(mid);
    DecodeJoin(a, mid);
    assert a + [SLASH] + [] == a + [SLASH];
    DecodeJoin(a, []);
    assert Decode([]) == [] by { NothingLeft([]); }
    assert A + [SLASH] + [] == A + [SLASH];
    SplitConcat(A, M);
    SplitConcat(A, []);
    EmptyPieces();
    DotsAreNeutral();
    ResolveConcat(Split(A, SLASH), Split(M, SLASH), []);
    ResolveConcat(Split(A, SLASH), [[]], []);
    assert A + [SLASH] + M == A + ([SLASH] + M);
    EndByTail(A, [SLASH] + M);
    DirectoryEnds(A + [SLASH]);
  }

  lemma {:induction false} EmptyPieces()
    ensures Split([], SLASH) == [[]]
  {
  }

  // ----- The laws -----

  /** A segment is good if it decodes to neither nothing nor dots. */
  ghost predicate Names(x: bytes) {
    SLASH !in x && Good(Decode(x))
  }

  lemma {:induction false} DecodeDots(s: bytes)
    requires s == HERE || s == UP
    ensures Decode(s) == s && Split(s, SLASH) == [s] && SLASH !in s
  {
    DecodePlain(s, |s|);
    assert s[..|s|] + Decode(s[|s|..]) == s;
    SplitPiece(s, []);
  }

  lemma {:induction false} StepBack(x: bytes)
    requires Names(x)
    ensures var mid := x + [SLASH] + UP;
            Neutral(Split(Decode(mid), SLASH)) && EndsInDirectory([SLASH] + Decode(mid))
  {
    hide Decode, Split, Resolve, EndsInDirectory;
    DecodeJoin(x, UP);
    DecodeDots(UP);
    SplitConcat(Decode(x), UP);
    assert Good(Decode(x));
    SplitPiece(Decode(x), []);
    assert [Decode(x)] + [UP] == [Decode(x), UP];
    UpIsNeutral(Decode(x));
    var q := [SLASH] + (Decode(x) + [SLASH] + UP);
    DirectoryEnds(q);
    assert q[|q| - 3] == SLASH && q[|q| - 2] == DOT && q[|q| - 1] == DOT;
  }

  /** `..` takes the segment before it along. */
  lemma {:induction false} UpTakesSegment(a: bytes, x: bytes, c: bytes)
    requires Names(x)
    ensures Full(a + [SLASH] + x + [SLASH] + UP + [SLASH] + c) == Full(a + [SLASH] + c)
    ensures Full(a + [SLASH] + x + [SLASH] + UP) == Full(a + [SLASH])
  {
    hide Full, Neutral, Decode, Split;
    StepBack(x);
    var mid := x + [SLASH] + UP;
    NeutralDrops(a, mid, c);
    NeutralEnds(a, mid);
    assert a + [SLASH] + x + [SLASH] + UP == a + [SLASH] + mid;
  }

  /** `.` and an empty segment go. */
  lemma {:induction false} DotsGo(a: bytes, c: bytes)
    ensures Full(a + [SLASH] + HERE + [SLASH] + c) == Full(a + [SLASH] + c)
    ensures Full(a + [SLASH] + HERE) == Full(a + [SLASH])
    ensures Full(a + [SLASH] + [SLASH] + c) == Full(a + [SLASH] + c)
  {
    hide Full, Split;
    DotsAreNeutral();
    DecodeDots(HERE);
    NeutralDrops(a, HERE, c);
    assert EndsInDirectory([SLASH] + HERE) by { DirectoryEnds([SLASH] + HERE); }
    NeutralEnds(a, HERE);
    EmptyPieces();
    NeutralDrops(a, [], c);
    assert a + [SLASH] + [] + [SLASH] + c == a + [SLASH] + [SLASH] + c;
  }

  lemma {:induction false} UpFromRoot()
    ensures Resolve([[]] + [UP], []) == []
  {
    var none: seq<bytes> := [];
    DotsAreNeutral();
    ResolveConcat([[]], [UP], none);
    assert [UP][1..] == none;
  }

  /** Above the root there is nothing. */
  lemma {:induction false} RootHasNoParent(c: bytes)
    ensures Full([SLASH] + UP + [SLASH] + c) == Full([SLASH] + c)
    ensures Full([SLASH] + UP) == [SLASH]
  {
    hide Decode, Split, EndsInDirectory;
    var C := Decode(c);
    DecodeDots(UP);
    DecodeJoin([SLASH] + UP, c);
    DecodeSlash(UP);
    DecodeSlash(c);
    SplitConcat([SLASH] + UP, C);
    SplitSlash(UP);
    SplitSlash(C);
    UpFromRoot();
    DotsAreNeutral();
    ResolveConcat([[]] + [UP], Split(C, SLASH), []);
    ResolveConcat([[]], Split(C, SLASH), []);
    assert [SLASH] + UP + [SLASH] + C == [SLASH] + UP + ([SLASH] + C);
    EndByTail([SLASH] + UP, [SLASH] + C);
  }

  /** A path from the root that the laws cannot shorten and whose escapes are reduced is left as it is. */
  lemma {:induction false} NormalPathStays(segments: seq<bytes>, slash: bool)
    requires AllGood(segments) && forall i | 0 <= i < |segments| :: Irreducible(segments[i])
    ensures Full(Shape(segments, slash)) == Shape(segments, slash)
  {
    hide Decode, Irreducible;
    forall i | 0 <= i < |segments| ensures Decode(segments[i]) == segments[i] {
      DecodeFixedIff(segments[i]);
    }
    FixedEach(segments);
    FixedShape(segments, slash);
    AssembleKeepsShape(segments, slash);
  }

  // ----- Which segments are left -----

  /** A name goes one level down, `..` one level up. */
  function Level(part: bytes): int {
    if part == [] || part == HERE then 0 else if part == UP then -1 else 1
  }

  /** How far the parts from `i` up to `j` go down. */
  function Depth(parts: seq<bytes>, i: nat, j: nat): int
    requires i <= j <= |parts|
    decreases j
  {
    if i == j then 0 else Depth(parts, i, j - 1) + Level(parts[j - 1])
  }

  /** The parts behind `i`, up to `j`, do not climb past it. */
  predicate StaysBelow(parts: seq<bytes>, i: nat, j: nat)
    requires i < j <= |parts|
  {
    Depth(parts, i + 1, j) >= 0
  }

  /** A name among the first `k` parts that no `..` behind it climbs past. */
  ghost predicate Kept(parts: seq<bytes>, k: nat, i: nat)
    requires i < k <= |parts|
  {
    Level(parts[i]) == 1 && forall j | i < j <= k :: StaysBelow(parts, i, j)
  }

  /** The places of the kept names, in order, with the level each is left at. */
  ghost predicate Places(parts: seq<bytes>, k: nat, places: seq<nat>)
    requires k <= |parts|
  {
    && (forall r | 0 <= r < |places| ::
          places[r] < k && Kept(parts, k, places[r]) && Depth(parts, places[r] + 1, k) == |places| - 1 - r)
    && (forall r, s | 0 <= r < s < |places| :: places[r] < places[s])
    && (forall i | 0 <= i < k && Kept(parts, k, i) :: i in places)
  }

  /** The parts at these places. */
  function At(parts: seq<bytes>, places: seq<nat>): (r: seq<bytes>)
    requires forall r | 0 <= r < |places| :: places[r] < |parts|
    ensures |r| == |places|
  {
    seq(|places|, r requires 0 <= r < |places| => parts[places[r]])
  }

  lemma {:induction false} KeptOn(parts: seq<bytes>, k: nat, i: nat)
    requires i < k < |parts|
    ensures Kept(parts, k + 1, i) <==> Kept(parts, k, i) && Depth(parts, i + 1, k) + Level(parts[k]) >= 0
  {
    assert Depth(parts, i + 1, k + 1) == Depth(parts, i + 1, k) + Level(parts[k]);
    assert StaysBelow(parts, i, k + 1) <==> Depth(parts, i + 1, k) + Level(parts[k]) >= 0;
  }

  lemma {:induction false} KeptNew(parts: seq<bytes>, k: nat)
    requires k < |parts|
    ensures Kept(parts, k + 1, k) <==> Level(parts[k]) == 1
  {
    assert Depth(parts, k + 1, k + 1) == 0;
  }

  lemma {:induction false} PlacesDown(parts: seq<bytes>, k: nat, places: seq<nat>)
    requires k < |parts| && Places(parts, k, places) && Level(parts[k]) == 1
    ensures Places(parts, k + 1, places + [k])
  {
    hide Kept, Level;
    KeptNew(parts, k);
    forall i | 0 <= i < k ensures Kept(parts, k + 1, i) <==> Kept(parts, k, i) && Depth(parts, i + 1, k) + 1 >= 0 {
      KeptOn(parts, k, i);
    }
    var now := places + [k];
    forall r | 0 <= r < |now|
      ensures now[r] < k + 1 && Kept(parts, k + 1, now[r]) && Depth(parts, now[r] + 1, k + 1) == |now| - 1 - r
    {
      if r < |places| {
        assert Depth(parts, places[r] + 1, k + 1) == Depth(parts, places[r] + 1, k) + 1;
      } else {
        assert Depth(parts, k + 1, k + 1) == 0;
      }
    }
    forall i | 0 <= i < k + 1 && Kept(parts, k + 1, i) ensures i in now {
      assert i < k ==> i in places;
    }
  }

  lemma {:induction false} PlacesSkip(parts: seq<bytes>, k: nat, places: seq<nat>)
    requires k < |parts| && Places(parts, k, places) && Level(parts[k]) == 0
    ensures Places(parts, k + 1, places)
  {
    hide Kept, Level;
    KeptNew(parts, k);
    forall i | 0 <= i < k
      ensures Kept(parts, k + 1, i) <==> Kept(parts, k, i) && Depth(parts, i + 1, k) >= 0
      ensures Depth(parts, i + 1, k + 1) == Depth(parts, i + 1, k)
    {
      KeptOn(parts, k, i);
    }
  }

  lemma {:induction false} PlacesUp(parts: seq<bytes>, k: nat, places: seq<nat>)
    requires k < |parts| && Places(parts, k, places) && Level(parts[k]) == -1
    ensures Places(parts, k + 1, if places == [] then [] else places[..|places| - 1])
  {
    hide Kept, Level;
    KeptNew(parts, k);
    forall i | 0 <= i < k
      ensures Kept(parts, k + 1, i) <==> Kept(parts, k, i) && Depth(parts, i + 1, k) >= 1
      ensures Depth(parts, i + 1, k + 1) == Depth(parts, i + 1, k) - 1
    {
      KeptOn(parts, k, i);
    }
    var now := if places == [] then [] else places[..|places| - 1];
    forall i | 0 <= i < k + 1 && Kept(parts, k + 1, i) ensures i in now {
      assert i in places;
      var r :| 0 <= r < |places| && places[r] == i;
      assert now[r] == i;
    }
  }

  /** One more part: a name is put on the stack, `..` takes one off. */
  lemma {:induction false} ResolveLast(parts: seq<bytes>, k: nat)
    requires k < |parts|
    ensures var stack := Resolve(parts[..k], []);
            Resolve(parts[..k + 1], []) ==
            if Level(parts[k]) == 1 then stack + [parts[k]]
            else if Level(parts[k]) == 0 || stack == [] then stack
            else stack[..|stack| - 1]
  {
    var part: seq<bytes> := [parts[k]];
    assert parts[..k + 1] == parts[..k] + part && part[1..] == [];
    ResolveConcat(parts[..k], part, []);
  }

  lemma {:induction false} AtMore(parts: seq<bytes>, places: seq<nat>, k: nat)
    requires (forall r | 0 <= r < |places| :: places[r] < |parts|) && k < |parts|
    ensures At(parts, places + [k]) == At(parts, places) + [parts[k]]
    ensures places != [] ==> At(parts, places[..|places| - 1]) == At(parts, places)[..|places| - 1]
  {
  }

  /** The segments that are left are the kept names, in their order. */
  lemma {:induction false} ResolvePlaces(parts: seq<bytes>, k: nat) returns (places: seq<nat>)
    requires k <= |parts|
    ensures Places(parts, k, places) && Resolve(parts[..k], []) == At(parts, places)
    decreases k
  {
    hide Kept, Depth, Level;
    if k == 0 {
      places := [];
      assert parts[..k] == [];
    } else {
      hide Resolve;
      var before := ResolvePlaces(parts, k - 1);
      assert forall r | 0 <= r < |before| :: before[r] < |parts|;
      ResolveLast(parts, k - 1);
      AtMore(parts, before, k - 1);
      LevelIs(parts[k - 1]);
      hide At, Places;
      if Level(parts[k - 1]) == 1 {
        places := before + [k - 1];
        PlacesDown(parts, k - 1, before);
      } else if Level(parts[k - 1]) == 0 {
        places := before;
        PlacesSkip(parts, k - 1, before);
      } else {
        places := if before == [] then [] else before[..|before| - 1];
        PlacesUp(parts, k - 1, before);
      }
    }
  }

  lemma {:induction false} LevelIs(part: bytes)
    ensures Level(part) in {-1, 0, 1}
  {
  }

  /** A name of the path that no `..` behind it climbs past. */
  ghost predicate Stays(parts: seq<bytes>, i: nat) {
    i < |parts| && Kept(parts, |parts|, i)
  }

  /**
   A normal path spells exactly the names of the decoded path that no `..` behind them climbs past, in
   their order, and closes with a slash if the decoded path ends in a directory or no name is left.
   */
  lemma {:induction false} FullSpellsKept(path: bytes) returns (places: seq<nat>)
    ensures var parts := Split(Decode(path), SLASH);
            && (forall r | 0 <= r < |places| :: Stays(parts, places[r]))
            && (forall i | Stays(parts, i) :: i in places)
            && (forall r, s | 0 <= r < s < |places| :: places[r] < places[s])
            && Full(path) == Shape(At(parts, places), EndsInDirectory(Decode(path)))
  {
    hide Decode, Split, Resolve, EndsInDirectory, Kept, Depth, Shape, At, Full;
    var parts := Split(Decode(path), SLASH);
    places := ResolvePlaces(parts, |parts|);
    assert parts[..|parts|] == parts;
    FullShape(path);
  }

  lemma {:induction false} FullShape(path: bytes)
    ensures Full(path) == Shape(Resolve(Split(Decode(path), SLASH), []), EndsInDirectory(Decode(path)))
  {
    AssembleHasShape(Decode(path));
  }
}
