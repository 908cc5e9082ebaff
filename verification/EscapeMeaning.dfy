/** What decoding does to the escapes of a path, symbol by symbol (sections 2.1, 2.3 and 6.2.2 of RFC 3986). */
module EscapeMeaning {
  import opened Prelude
  import opened PathSyntax

  /** A character of a path, as itself or escaped. */
  datatype Symbol = Plain(b: byte) | Escape(b: byte)

  /** Letters, digits, hyphen, period, underscore and tilde. */
  predicate UnreservedChar(c: char) {
    'A' <= c <= 'Z' || 'a' <= c <= 'z' || '0' <= c <= '9' || c in "-._~"
  }

  function Normal(x: Symbol): Symbol {
    if x.Escape? && UnreservedChar((x.b as int) as char) then Plain(x.b) else x
  }

  function NormalAll(xs: seq<Symbol>): (r: seq<Symbol>)
    ensures |r| == |xs|
  {
    seq(|xs|, i requires 0 <= i < |xs| => Normal(xs[i]))
  }

  const HEX_DIGITS := "0123456789ABCDEF"

  /** Escapes are written with upper-case digits. */
  function Spelling(x: Symbol): bytes {
    match x
    case Plain(b) => [b]
    case Escape(b) => [PERCENT, HEX_DIGITS[b / 16] as byte, HEX_DIGITS[b % 16] as byte]
  }

  function Spell(xs: seq<Symbol>): bytes {
    if xs == [] then [] else Spelling(xs[0]) + Spell(xs[1..])
  }

  /** The symbols of a text, from left to right. A percent sign that starts no escape stands for itself. */
  function Read(s: bytes): seq<Symbol>
    decreases |s|
  {
    if s == [] then []
    else if EscapeAt(s) then [Escape(EscapedByte(s))] + Read(s[3..])
    else [Plain(s[0])] + Read(s[1..])
  }

  lemma {:induction false} DigitOf(b: byte)
    requires HexValue(b).Some?
    ensures HEX_DIGITS[HexValue(b).value] as byte == Upper(b)
  {
    var v := HexValue(b).value;
    assert v < 10 ==> HEX_DIGITS[v] == (48 + v) as char;
    assert v >= 10 ==> HEX_DIGITS[v] == (55 + v) as char;
  }

  lemma {:induction false} UnreservedIs(c: byte)
    ensures Unreserved(c) <==> UnreservedChar((c as int) as char)
  {
    var marks := "-._~";
    assert marks == ['-', '.', '_', '~'];
  }

  lemma {:induction false} ReducedIs(s: bytes)
    requires EscapeAt(s)
    ensures Reduced(s) == Spelling(Normal(Escape(EscapedByte(s))))
  {
    var b, hi, lo := EscapedByte(s), HexValue(s[1]).value, HexValue(s[2]).value;
    UnreservedIs(b);
    assert b == hi * 16 + lo && b / 16 == hi && b % 16 == lo;
    DigitOf(s[1]);
    DigitOf(s[2]);
  }

  lemma {:induction false} NormalFirst(xs: seq<Symbol>)
    requires xs != []
    ensures NormalAll(xs) == [Normal(xs[0])] + NormalAll(xs[1..])
  {
  }

  lemma {:induction false} SpellFirst(x: Symbol, xs: seq<Symbol>)
    ensures Spell([x] + xs) == Spelling(x) + Spell(xs)
  {
    assert ([x] + xs)[1..] == xs;
  }

  /**
   Decoding any text replaces exactly the escapes of unreserved characters by the characters, writes
   every other escape in upper case and leaves all other symbols alone.
   */
  lemma {:induction false} DecodeSpells(s: bytes)
    ensures Decode(s) == Spell(NormalAll(Read(s)))
    decreases |s|
  {
    if s != [] {
      hide EscapeAt, Reduced, EscapedByte, Normal, Spelling, NormalAll, Spell;
      var xs := Read(s);
      NormalFirst(xs);
      if EscapeAt(s) {
        EscapeLength(s);
        DecodeSpells(s[3..]);
        ReducedIs(s);
        assert xs[1..] == Read(s[3..]);
      } else {
        DecodeSpells(s[1..]);
        PlainStays(s[0]);
        assert xs[1..] == Read(s[1..]);
      }
      SpellFirst(Normal(xs[0]), NormalAll(xs[1..]));
    } else {
      assert NormalAll([]) == [];
    }
  }

  lemma {:induction false} PlainStays(b: byte)
    ensures Spelling(Normal(Plain(b))) == [b]
  {
  }
}
