/** Well-formed UTF-8 as section 4 of RFC 3629 defines it. */
module Utf8 {
  import opened Prelude

  predicate Continues(b: byte) {
    0x80 <= b <= 0xBF
  }

  /** What may follow the first byte of a longer character. */
  predicate SecondOk(first: byte, second: byte) {
    if first == 0xE0 then 0xA0 <= second <= 0xBF
    else if first == 0xED then 0x80 <= second <= 0x9F
    else if first == 0xF0 then 0x90 <= second <= 0xBF
    else if first == 0xF4 then 0x80 <= second <= 0x8F
    else Continues(second)
  }

  /** How long a character its first byte announces; zero for a byte that starts none. */
  function Announced(first: byte): (n: nat)
    ensures n <= 4
  {
    if first <= 0x7F then 1
    else if 0xC2 <= first <= 0xDF then 2
    else if 0xE0 <= first <= 0xEF then 3
    else if 0xF0 <= first <= 0xF4 then 4
    else 0
  }

  /** The length of the character at the front; zero if there is none. */
  function CharLen(s: bytes): (n: nat)
    ensures n <= |s| && n <= 4
    ensures n > 0 ==> n == Announced(s[0])
  {
    if s == [] then 0
    else
      var n := Announced(s[0]);
      if 0 < n <= |s| && (n > 1 ==> SecondOk(s[0], s[1])) && (forall i | 2 <= i < n :: Continues(s[i])) then n else 0
  }

  predicate Valid(s: bytes)
    decreases |s|
  {
    s == [] || (CharLen(s) > 0 && Valid(s[CharLen(s)..]))
  }

  /** A place where a text may be cut. */
  predicate IsBoundary(s: bytes, i: nat) {
    i == 0 || i == |s| || (i < |s| && !Continues(s[i]))
  }

  /** Only bytes that continue come after the first one of a character. */
  lemma {:induction false} InsideContinues(s: bytes, i: nat)
    requires 0 < i < CharLen(s)
    ensures Continues(s[i])
  {
  }

  lemma {:induction false} SameChar(s: bytes, t: bytes)
    requires CharLen(s) > 0
    ensures CharLen(s + t) == CharLen(s)
  {
    var n := CharLen(s);
    assert forall i | 0 <= i < n :: (s + t)[i] == s[i];
  }

  lemma {:induction false} ValidConcat(a: bytes, b: bytes)
    requires Valid(a) && Valid(b)
    ensures Valid(a + b)
    decreases |a|
  {
    if a == [] {
      assert a + b == b;
    } else {
      var n := CharLen(a);
      SameChar(a, b);
      assert (a + b)[n..] == a[n..] + b;
      ValidConcat(a[n..], b);
    }
  }

  lemma {:induction false} FrontIsBoundary(s: bytes)
    requires Valid(s) && s != []
    ensures !Continues(s[0])
  {
  }

  /** A well-formed front leaves a well-formed rest. */
  lemma {:induction false} CutFront(a: bytes, b: bytes)
    requires Valid(a) && Valid(a + b)
    ensures Valid(b) && IsBoundary(a + b, |a|)
    decreases |a|
  {
    if a == [] {
      assert a + b == b;
    } else {
      var n := CharLen(a);
      SameChar(a, b);
      assert (a + b)[n..] == a[n..] + b;
      CutFront(a[n..], b);
      if b != [] {
        FrontIsBoundary(b);
        assert (a + b)[|a|] == b[0];
      }
    }
  }

  /** A well-formed end leaves a well-formed front. */
  lemma {:induction false} CutBack(a: bytes, b: bytes)
    requires Valid(b) && Valid(a + b)
    ensures Valid(a) && IsBoundary(a + b, |a|)
    decreases |a|
  {
    if b != [] {
      FrontIsBoundary(b);
      assert (a + b)[|a|] == b[0];
    } else {
      assert a + b == a;
    }
    if a != [] {
      var n := CharLen(a + b);
      if n > |a| {
        InsideContinues(a + b, |a|);
      }
      assert (a + b)[n..] == a[n..] + b;
      CutBack(a[n..], b);
      assert forall i | 0 <= i < n :: (a + b)[i] == a[i];
    }
  }

  /** An ASCII byte at either end can be taken off. */
  lemma {:induction false} CutAscii(s: bytes)
    requires Valid(s) && s != []
    ensures s[|s| - 1] < 0x80 ==> Valid(s[..|s| - 1])
    ensures s[0] < 0x80 ==> Valid(s[1..])
  {
    var last := s[|s| - 1..];
    if s[|s| - 1] < 0x80 {
      assert last == [s[|s| - 1]] && last[1..] == [];
      assert s == s[..|s| - 1] + last;
      CutBack(s[..|s| - 1], last);
    }
  }
}
