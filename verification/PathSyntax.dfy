/** Escapes and segments of a request path (sections 2.1, 2.3 and 3.3 of RFC 3986). */
module PathSyntax {
  import opened Prelude
  import opened Utf8

  const PERCENT: byte := 37
  const DOT: byte := 46

  // ----- Escapes -----

  function HexValue(b: byte): (r: Option<nat>)
    ensures r.Some? ==> r.value < 16 && b < 128 && b != PERCENT && b != SLASH
  {
    if 48 <= b <= 57 then Some(b - 48)
    else if 97 <= b <= 102 then Some(b - 97 + 10)
    else if 65 <= b <= 70 then Some(b - 65 + 10)
    else None
  }

  function Upper(b: byte): byte {
    if 97 <= b <= 122 then b - 32 else b
  }

  predicate Unreserved(c: byte) {
    48 <= c <= 57 || 65 <= c <= 90 || 97 <= c <= 122 || c == 45 || c == 46 || c == 95 || c == 126
  }

  /** An escape stands at the front. */
  predicate EscapeAt(s: bytes) {
    |s| >= 3 && s[0] == PERCENT && HexValue(s[1]).Some? && HexValue(s[2]).Some?
  }

  function EscapedByte(s: bytes): byte
    requires EscapeAt(s)
  {
    HexValue(s[1]).value * 16 + HexValue(s[2]).value
  }

  /** What an escape becomes: the character if it is unreserved, or itself in upper case. */
  function Reduced(s: bytes): bytes
    requires EscapeAt(s)
  {
    if Unreserved(EscapedByte(s)) then [EscapedByte(s)] else [PERCENT, Upper(s[1]), Upper(s[2])]
  }

  function Decode(s: bytes): bytes
    decreases |s|
  {
    if s == [] then []
    else if EscapeAt(s) then Reduced(s) + Decode(s[3..])
    else [s[0]] + Decode(s[1..])
  }

  lemma {:induction false} DecodePlain(s: bytes, k: nat)
    requires k <= |s| && forall i | 0 <= i < k :: s[i] != PERCENT
    ensures Decode(s) == s[..k] + Decode(s[k..])
    decreases k
  {
    if k > 0 {
      DecodePlain(s[1..], k - 1);
      assert s[1..][k - 1..] == s[k..];
      assert [s[0]] + s[1..][..k - 1] == s[..k];
    } else {
      assert s[0..] == s;
    }
  }

  lemma {:induction false} DecodeLiteral(s: bytes, k: nat)
    requires 0 < k <= |s| && !EscapeAt(s) && forall i | 0 < i < k :: s[i] != PERCENT
    ensures Decode(s) == s[..k] + Decode(s[k..])
  {
    var rest := s[1..];
    assert Decode(s) == [s[0]] + Decode(rest);
    hide Decode;
    DecodePlain(rest, k - 1);
    assert rest[k - 1..] == s[k..];
    assert [s[0]] + rest[..k - 1] == s[..k];
  }

  /** Decoding keeps text well formed: only ASCII bytes are taken out or put in. */
  lemma {:induction false} DecodeIsText(s: bytes)
    requires Valid(s)
    ensures Valid(Decode(s))
    decreases |s|
  {
    if s != [] {
      if EscapeAt(s) {
        EscapeIsText(s);
        DecodeIsText(s[3..]);
        AsciiIsText(Reduced(s));
        ValidConcat(Reduced(s), Decode(s[3..]));
      } else {
        var n := CharLen(s);
        CharHasNoPercent(s);
        DecodeLiteral(s, n);
        DecodeIsText(s[n..]);
        OneChar(s);
        ValidConcat(s[..n], Decode(s[n..]));
      }
    }
  }

  lemma {:induction false} EscapeIsText(s: bytes)
    requires Valid(s) && EscapeAt(s)
    ensures Valid(s[3..])
  {
    assert s[1..][1..][1..] == s[3..];
    CutAscii(s);
    CutAscii(s[1..]);
    CutAscii(s[1..][1..]);
  }

  lemma {:induction false} AsciiIsText(s: bytes)
    requires forall i | 0 <= i < |s| :: s[i] < 128
    ensures Valid(s)
  {
    if s != [] {
      AsciiIsText(s[1..]);
      assert CharLen(s) == 1;
    }
  }

  lemma {:induction false} CharHasNoPercent(s: bytes)
    requires CharLen(s) > 0
    ensures forall i | 0 < i < CharLen(s) :: s[i] != PERCENT
  {
    forall i | 0 < i < CharLen(s) ensures s[i] != PERCENT { InsideContinues(s, i); }
  }

  lemma {:induction false} OneChar(s: bytes)
    requires CharLen(s) > 0
    ensures Valid(s[..CharLen(s)])
  {
    var n := CharLen(s);
    var c := s[..n];
    assert forall i | 0 <= i < n :: c[i] == s[i];
    assert CharLen(c) == n;
    assert c[n..] == [];
  }

  // ----- Escapes that are what they should be -----

  /** Every percent sign starts an escape. */
  predicate Escaped(s: bytes)
    decreases |s|
  {
    if s == [] then true
    else if s[0] == PERCENT then EscapeAt(s) && Escaped(s[3..])
    else Escaped(s[1..])
  }

  /** Every percent sign starts an escape that cannot be reduced. */
  predicate Canonical(s: bytes)
    decreases |s|
  {
    if s == [] then true
    else if s[0] == PERCENT then EscapeAt(s) && Reduced(s) == s[..3] && Canonical(s[3..])
    else Canonical(s[1..])
  }

  lemma {:induction false} CanonicalIsFixed(s: bytes)
    requires Canonical(s)
    ensures Decode(s) == s
    decreases |s|
  {
    if s != [] {
      if s[0] == PERCENT {
        CanonicalIsFixed(s[3..]);
        assert s[..3] + s[3..] == s;
      } else {
        CanonicalIsFixed(s[1..]);
        assert [s[0]] + s[1..] == s;
      }
    }
  }

  lemma {:induction false} CanonicalConcat(a: bytes, b: bytes)
    requires Canonical(a) && Canonical(b)
    ensures Canonical(a + b)
    decreases |a|
  {
    if a == [] {
      assert a + b == b;
    } else {
      var n := if a[0] == PERCENT then 3 else 1;
      CanonicalConcat(a[n..], b);
      assert (a + b)[n..] == a[n..] + b;
      assert n == 3 ==> (a + b)[..3] == a[..3];
    }
  }

  lemma {:induction false} ReducedIsCanonical(s: bytes)
    requires EscapeAt(s)
    ensures Canonical(Reduced(s))
  {
    var r := Reduced(s);
    if Unreserved(EscapedByte(s)) {
      assert r[1..] == [];
    } else {
      UpperHex(s[1]);
      UpperHex(s[2]);
      assert r[3..] == [] && r[..3] == r;
    }
  }

  lemma {:induction false} UpperHex(b: byte)
    requires HexValue(b).Some?
    ensures HexValue(Upper(b)) == HexValue(b) && Upper(Upper(b)) == Upper(b)
  {
  }

  /** One pass reduces every escape, if every percent sign starts one. */
  lemma {:induction false} DecodeIsCanonical(s: bytes)
    requires Escaped(s)
    ensures Canonical(Decode(s))
    decreases |s|
  {
    if s != [] {
      if s[0] == PERCENT {
        DecodeIsCanonical(s[3..]);
        ReducedIsCanonical(s);
        CanonicalConcat(Reduced(s), Decode(s[3..]));
      } else {
        DecodeIsCanonical(s[1..]);
        assert [s[0]][1..] == [];
        CanonicalConcat([s[0]], Decode(s[1..]));
      }
    }
  }

  /** No escape anywhere in the text can be reduced. */
  ghost predicate Irreducible(s: bytes) {
    forall i | 0 <= i < |s| :: EscapeAt(s[i..]) ==> Reduced(s[i..]) == s[i..i + 3]
  }

  lemma {:induction false} IrreducibleSkip(s: bytes, n: nat)
    requires n <= |s| && forall i | 0 < i < n :: s[i] != PERCENT
    requires n > 0 && (EscapeAt(s) ==> Reduced(s) == s[..3])
    ensures Irreducible(s) <==> Irreducible(s[n..])
  {
    var rest := s[n..];
    forall i | 0 <= i < |rest| ensures rest[i..] == s[n + i..] {}
    forall i | 0 <= i < |s| ensures EscapeAt(s[i..]) ==> i == 0 || i >= n {
      assert s[i..][0] == s[i];
    }
    assert s[0..] == s;
    IrreducibleAt(s);
    IrreducibleAt(rest);
    if Irreducible(rest) {
      forall i | 0 <= i < |s| && EscapeAt(s[i..]) ensures Reduced(s[i..]) == s[i..][..3] {
        if i >= n {
          assert rest[i - n..] == s[i..];
        }
      }
    }
    if Irreducible(s) {
      forall i | 0 <= i < |rest| && EscapeAt(rest[i..]) ensures Reduced(rest[i..]) == rest[i..][..3] {
        assert rest[i..] == s[n + i..];
      }
    }
  }

  lemma {:induction false} IrreducibleAt(s: bytes)
    ensures Irreducible(s) <==> forall i | 0 <= i < |s| && EscapeAt(s[i..]) :: Reduced(s[i..]) == s[i..][..3]
  {
    forall i | 0 <= i < |s| && EscapeAt(s[i..]) ensures s[i..][..3] == s[i..i + 3] {}
  }

  lemma {:induction false} DecodeShortens(s: bytes)
    ensures |Decode(s)| <= |s|
    decreases |s|
  {
    if s != [] {
      DecodeShortens(if EscapeAt(s) then s[3..] else s[1..]);
    }
  }

  /** Decoding leaves exactly the texts alone in which no escape can be reduced. */
  lemma {:induction false} DecodeFixedIff(s: bytes)
    ensures Decode(s) == s <==> Irreducible(s)
    decreases |s|
  {
    if s != [] {
      if EscapeAt(s) {
        DecodeFixedIff(s[3..]);
        DecodeShortens(s[3..]);
        FixedAtEscape(s);
      } else {
        DecodeFixedIff(s[1..]);
        IrreducibleSkip(s, 1);
        assert s == [s[0]] + s[1..];
        assert ([s[0]] + Decode(s[1..]))[1..] == Decode(s[1..]);
      }
    }
  }

  lemma {:induction false} FixedAtEscape(s: bytes)
    requires EscapeAt(s) && (Decode(s[3..]) == s[3..] <==> Irreducible(s[3..])) && |Decode(s[3..])| <= |s[3..]|
    ensures Decode(s) == s <==> Irreducible(s)
  {
    var rest := Decode(s[3..]);
    assert s[..3] + s[3..] == s;
    if Reduced(s) == s[..3] {
      IrreducibleSkip(s, 3);
      assert (Reduced(s) + rest)[3..] == rest;
    } else {
      assert s[0..] == s && s[0..0 + 3] == s[..3];
      assert !Irreducible(s);
      assert |Reduced(s)| == 3 ==> (Reduced(s) + rest)[..3] == Reduced(s);
    }
  }

  /** A text in front of nothing or of a slash is decoded on its own: no escape reaches over a slash. */
  lemma {:induction false} DecodeBehind(x: bytes, y: bytes)
    requires y == [] || y[0] == SLASH
    ensures Decode(x + y) == Decode(x) + Decode(y)
    decreases |x|
  {
    hide EscapeAt, Reduced;
    if x == [] {
      assert x + y == y;
    } else {
      EscapeBehind(x, y);
      if EscapeAt(x) {
        EscapeLength(x);
        DecodeBehind(x[3..], y);
        assert (x + y)[3..] == x[3..] + y;
      } else {
        DecodeBehind(x[1..], y);
        assert (x + y)[1..] == x[1..] + y;
      }
    }
  }

  lemma {:induction false} EscapeLength(x: bytes)
    requires EscapeAt(x)
    ensures |x| >= 3
  {
  }

  lemma {:induction false} EscapeBehind(x: bytes, y: bytes)
    requires x != [] && (y == [] || y[0] == SLASH)
    ensures EscapeAt(x + y) <==> EscapeAt(x)
    ensures EscapeAt(x) ==> Reduced(x + y) == Reduced(x)
  {
    var t := x + y;
    assert t[0] == x[0];
    assert |t| >= 2 ==> t[1] == if |x| >= 2 then x[1] else y[0];
    assert |t| >= 3 && |x| >= 2 ==> t[2] == if |x| >= 3 then x[2] else y[0];
  }

  lemma {:induction false} DecodeNoSlash(s: bytes)
    requires SLASH !in s
    ensures SLASH !in Decode(s)
    decreases |s|
  {
    if s != [] {
      DecodeNoSlash(if EscapeAt(s) then s[3..] else s[1..]);
      if EscapeAt(s) {
        assert SLASH !in Reduced(s);
      }
    }
  }

  // ----- Segments -----

  lemma {:induction false} SplitPiece(a: bytes, s: bytes)
    requires SLASH !in a
    ensures Split(a + [SLASH] + s, SLASH) == [a] + Split(s, SLASH)
    ensures Split(a, SLASH) == [a]
  {
    if a == [] {
      assert ([SLASH] + s)[1..] == s;
      assert a + [SLASH] + s == [SLASH] + s;
    } else {
      SplitPiece(a[1..], s);
      assert (a + [SLASH] + s)[1..] == a[1..] + [SLASH] + s;
      assert [a[0]] + a[1..] == a;
    }
  }

  lemma {:induction false} CanonicalPieces(s: bytes)
    requires Canonical(s)
    ensures forall i | 0 <= i < |Split(s, SLASH)| :: Canonical(Split(s, SLASH)[i])
    decreases |s|
  {
    if s != [] {
      if s[0] == PERCENT {
        CanonicalPieces(s[3..]);
        EscapeSplits(s);
        var first := Split(s[3..], SLASH)[0];
        assert Canonical(s[..3]) by { assert s[..3][3..] == [] && s[..3][..3] == s[..3]; }
        CanonicalConcat(s[..3], first);
      } else {
        CanonicalPieces(s[1..]);
        var rest := Split(s[1..], SLASH);
        if s[0] != SLASH {
          assert ([s[0]] + rest[0])[1..] == rest[0];
        }
      }
    }
  }

  lemma {:induction false} EscapeSplits(s: bytes)
    requires EscapeAt(s)
    ensures Split(s, SLASH) == [s[..3] + Split(s[3..], SLASH)[0]] + Split(s[3..], SLASH)[1..]
  {
    var rest := Split(s[3..], SLASH);
    assert s[1..][1..] == s[2..] && s[2..][1..] == s[3..];
    assert s[2..][0] == s[2] && s[1..][0] == s[1];
    assert Split(s[2..], SLASH) == [[s[2]] + rest[0]] + rest[1..];
    assert Split(s[1..], SLASH) == [[s[1]] + ([s[2]] + rest[0])] + rest[1..];
    assert [s[0]] + ([s[1]] + ([s[2]] + rest[0])) == s[..3] + rest[0];
  }
}
