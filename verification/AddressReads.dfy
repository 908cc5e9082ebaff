/** What is written reads back as the same address. */
module AddressReads {
  import opened Prelude
  import opened PathSyntax
  import opened AddressText

  // ----- Groups -----

  ghost function Pow16(n: nat): nat {
    if n == 0 then 1 else 16 * Pow16(n - 1)
  }

  lemma {:induction false} DigitReads(d: nat)
    requires d < 16
    ensures HexValue(Digit(d)) == Some(d) && Digit(d) != COLON && Digit(d) != PERIOD
  {
  }

  lemma {:induction false} HexReads(v: nat, n: nat)
    requires v < Pow16(n)
    ensures HexNumber(Hex(v, n)) == Some(v)
    ensures COLON !in Hex(v, n) && PERIOD !in Hex(v, n)
  {
    if n > 0 {
      HexReads(v / 16, n - 1);
      DigitReads(v % 16);
      var p := Hex(v, n);
      assert p[..n - 1] == Hex(v / 16, n - 1);
    }
  }

  lemma {:induction false} GroupReads(v: nat)
    requires v < 65536
    ensures ReadGroup(GroupText(v)) == Some(v)
    ensures COLON !in GroupText(v)
  {
    assert Pow16(1) == 16 && Pow16(2) == 256 && Pow16(3) == 4096 && Pow16(4) == 65536;
    HexReads(v, Digits(v));
  }

  // ----- Pieces -----

  lemma {:induction false} SplitNone(b: bytes, sep: byte)
    requires sep !in b
    ensures Split(b, sep) == [b]
  {
    if b != [] {
      SplitNone(b[1..], sep);
      assert [b[0]] + b[1..] == b;
    }
  }

  lemma {:induction false} SplitLast(a: bytes, b: bytes, sep: byte)
    requires sep !in b
    ensures Split(a + [sep] + b, sep) == Split(a, sep) + [b]
    decreases |a|
  {
    var s := a + [sep] + b;
    if a == [] {
      SplitNone(b, sep);
      assert s[1..] == b;
    } else {
      SplitLast(a[1..], b, sep);
      assert s[1..] == a[1..] + [sep] + b;
      var rest := Split(a[1..], sep);
      assert (rest + [b])[0] == rest[0] && (rest + [b])[1..] == rest[1..] + [b];
    }
  }

  lemma {:induction false} GroupsRead(gs: seq<nat>, dotted: bool)
    requires AllGroups(gs)
    ensures ReadGroups(GroupsText(gs), dotted) == Some(gs)
    decreases |gs|
  {
    if gs != [] {
      GroupReads(gs[|gs| - 1]);
      if |gs| == 1 {
        SplitNone(GroupText(gs[0]), COLON);
        assert gs == [gs[0]];
      } else {
        GroupsReadMore(gs, dotted);
      }
    }
  }

  lemma {:induction false} GroupsReadMore(gs: seq<nat>, dotted: bool)
    requires AllGroups(gs) && |gs| > 1
    ensures ReadGroups(GroupsText(gs), dotted) == Some(gs)
    decreases |gs|, 0
  {
    var init, last := gs[..|gs| - 1], gs[|gs| - 1];
    GroupReads(last);
    GroupsRead(init, false);
    GroupsNotEmpty(init);
    var text := GroupsText(init);
    SplitLast(text, GroupText(last), COLON);
    hide GroupText, Split, ReadGroup;
    var pieces := Split(text, COLON) + [GroupText(last)];
    assert pieces[..|pieces| - 1] == Split(text, COLON);
    assert init + [last] == gs;
  }

  lemma {:induction false} GroupsNotEmpty(gs: seq<nat>)
    requires gs != []
    ensures GroupsText(gs) != []
  {
  }

  // ----- Pairs of colons -----

  ghost predicate PairAt(s: bytes, i: nat) {
    i + 1 < |s| && s[i] == COLON && s[i + 1] == COLON
  }

  lemma {:induction false} PairFirst(s: bytes, i: nat)
    requires PairAt(s, i) && forall j | 0 <= j < i :: !PairAt(s, j)
    ensures DoubleColon(s) == Some(i)
    decreases i
  {
    if i > 0 {
      assert !PairAt(s, 0);
      assert PairAt(s[1..], i - 1);
      forall j | 0 <= j < i - 1 ensures !PairAt(s[1..], j) { assert !PairAt(s, j + 1); }
      PairFirst(s[1..], i - 1);
    }
  }

  lemma {:induction false} PairNone(s: bytes)
    requires forall j | 0 <= j < |s| :: !PairAt(s, j)
    ensures DoubleColon(s) == None
  {
    if |s| >= 2 {
      assert !PairAt(s, 0);
      forall j | 0 <= j < |s[1..]| ensures !PairAt(s[1..], j) { assert !PairAt(s, j + 1); }
      PairNone(s[1..]);
    }
  }

  /** Groups are never next to a colon at the ends, and hold no pair of colons. */
  lemma {:induction false} GroupsHaveNoPair(gs: seq<nat>)
    requires AllGroups(gs)
    ensures var s := GroupsText(gs);
            && (forall j | 0 <= j < |s| :: !PairAt(s, j))
            && (s != [] ==> s[0] != COLON && s[|s| - 1] != COLON)
    decreases |gs|
  {
    if gs != [] {
      var last := GroupText(gs[|gs| - 1]);
      GroupReads(gs[|gs| - 1]);
      assert last[0] in last && last[|last| - 1] in last;
      if |gs| == 1 {
        assert forall j | 0 <= j < |last| :: last[j] in last;
      } else {
        var init := gs[..|gs| - 1];
        GroupsHaveNoPair(init);
        GroupsNotEmpty(init);
        NoPairBehind(GroupsText(init), last);
      }
    }
  }

  lemma {:induction false} NoPairBehind(a: bytes, b: bytes)
    requires a != [] && b != [] && COLON !in b && a[0] != COLON && a[|a| - 1] != COLON
    requires forall j | 0 <= j < |a| :: !PairAt(a, j)
    ensures var s := a + [COLON] + b;
            (forall j | 0 <= j < |s| :: !PairAt(s, j)) && s[0] != COLON && s[|s| - 1] != COLON
  {
    var s := a + [COLON] + b;
    assert forall j | 0 <= j < |b| :: s[|a| + 1 + j] == b[j] && b[j] in b;
    forall j | 0 <= j < |s| ensures !PairAt(s, j) {
      if j + 1 < |a| {
        assert !PairAt(a, j);
      } else if j > |a| {
        assert s[j] == b[j - |a| - 1];
      } else if j == |a| {
        assert s[j + 1] == b[0];
      }
    }
    assert s[|s| - 1] == b[|b| - 1];
  }

  lemma {:induction false} PairAfter(a: bytes, t: bytes)
    requires (forall j | 0 <= j < |a| :: !PairAt(a, j)) && (a != [] ==> a[|a| - 1] != COLON)
    ensures DoubleColon(a + [COLON, COLON] + t) == Some(|a|)
  {
    var s := a + [COLON, COLON] + t;
    assert PairAt(s, |a|);
    forall j | 0 <= j < |a| ensures !PairAt(s, j) { assert !PairAt(a, j); }
    PairFirst(s, |a|);
  }

  // ----- IPv4 addresses -----

  lemma {:induction false} DecimalDigits(a: nat, b: nat, c: nat)
    requires a < 10 && b < 10 && c < 10
    ensures DecimalNumber([48 + c]) == c
    ensures DecimalNumber([48 + b, 48 + c]) == 10 * b + c
    ensures DecimalNumber([48 + a, 48 + b, 48 + c]) == 100 * a + 10 * b + c
  {
    assert DecimalNumber([48 + c]) == c by { assert [48 + c][..0] == []; }
    assert DecimalNumber([48 + b]) == b by { assert [48 + b][..0] == []; }
    assert DecimalNumber([48 + a]) == a by { assert [48 + a][..0] == []; }
    assert DecimalNumber([48 + b, 48 + c]) == 10 * b + c by { assert [48 + b, 48 + c][..1] == [48 + b]; }
    assert DecimalNumber([48 + a, 48 + b]) == 10 * a + b by { assert [48 + a, 48 + b][..1] == [48 + a]; }
    assert [48 + a, 48 + b, 48 + c][..2] == [48 + a, 48 + b];
  }

  lemma {:induction false} OctetReads(o: nat)
    requires o < 256
    ensures ReadOctet(OctetText(o)) == Some(o)
    ensures PERIOD !in OctetText(o) && COLON !in OctetText(o)
  {
    var a, b, c := o / 100 % 10, o / 10 % 10, o % 10;
    OctetDigits(o);
    DecimalDigits(a, b, c);
    hide DecimalNumber;
    if o >= 100 {
      assert OctetText(o) == [48 + a, 48 + b, 48 + c];
    } else if o >= 10 {
      assert OctetText(o) == [48 + b, 48 + c];
    } else {
      assert OctetText(o) == [48 + c];
    }
  }

  lemma {:induction false} OctetDigits(o: nat)
    requires o < 256
    ensures o == 100 * (o / 100 % 10) + 10 * (o / 10 % 10) + o % 10
    ensures o >= 100 ==> o / 100 % 10 > 0
    ensures o < 100 ==> o / 100 % 10 == 0
    ensures 10 <= o < 100 ==> o / 10 % 10 > 0
    ensures o < 10 ==> o / 10 % 10 == 0
  {
  }

  lemma {:induction false} DottedSplits(a: bytes, b: bytes, c: bytes, d: bytes)
    requires PERIOD !in a && PERIOD !in b && PERIOD !in c && PERIOD !in d
    ensures Split(a + [PERIOD] + b + [PERIOD] + c + [PERIOD] + d, PERIOD) == [a, b, c, d]
  {
    SplitNone(a, PERIOD);
    SplitLast(a, b, PERIOD);
    SplitLast(a + [PERIOD] + b, c, PERIOD);
    SplitLast(a + [PERIOD] + b + [PERIOD] + c, d, PERIOD);
  }

  lemma {:induction false} DottedFrom(p: bytes, parts: seq<bytes>, a: nat, b: nat, c: nat, d: nat)
    requires Split(p, PERIOD) == parts && |parts| == 4
    requires ReadOctet(parts[0]) == Some(a) && ReadOctet(parts[1]) == Some(b) && ReadOctet(parts[2]) == Some(c) &&
             ReadOctet(parts[3]) == Some(d)
    ensures ReadDotted(p) == Some([a * 256 + b, c * 256 + d])
  {
    hide ReadOctet, Split;
  }

  lemma {:induction false} DottedReads(hi: nat, lo: nat)
    requires hi < 65536 && lo < 65536
    ensures ReadDotted(DottedText(hi, lo)) == Some([hi, lo])
    ensures COLON !in DottedText(hi, lo) && |DottedText(hi, lo)| >= 7
  {
    hide ReadOctet, OctetText, Split, ReadDotted;
    var a, b, c, d := hi / 256, hi % 256, lo / 256, lo % 256;
    OctetReads(a);
    OctetReads(b);
    OctetReads(c);
    OctetReads(d);
    DottedSplits(OctetText(a), OctetText(b), OctetText(c), OctetText(d));
    DottedFrom(DottedText(hi, lo), [OctetText(a), OctetText(b), OctetText(c), OctetText(d)], a, b, c, d);
  }

  /** The part after the pair of colons: one group, then the IPv4 address. */
  lemma {:induction false} MappedTail(d: bytes, hi: nat, lo: nat)
    requires ReadDotted(d) == Some([hi, lo]) && COLON !in d && |d| > 4
    ensures ReadGroups([102, 102, 102, 102] + [COLON] + d, true) == Some([0xFFFF, hi, lo])
  {
    hide ReadDotted, Split, ReadGroup;
    var ffff: bytes := [102, 102, 102, 102];
    FfffReads();
    SplitNone(ffff, COLON);
    SplitLast(ffff, d, COLON);
    LongIsNoGroup(d);
    var pieces := [ffff] + [d];
    assert pieces[..1] == [ffff] && pieces[1] == d;
    assert ReadPieces([ffff], false) == Some([0xFFFF]);
    assert ReadPieces(pieces, true) == Some([0xFFFF] + [hi, lo]);
    assert [0xFFFF] + [hi, lo] == [0xFFFF, hi, lo];
    assert ffff + [COLON] + d != [];
  }

  lemma {:induction false} MappedReads(hi: nat, lo: nat)
    requires hi < 65536 && lo < 65536
    ensures ReadAddress([COLON, COLON, 102, 102, 102, 102, COLON] + DottedText(hi, lo)) ==
            Some(Zeros(5) + [0xFFFF, hi, lo])
  {
    hide DottedText, ReadDotted, DoubleColon;
    var d := DottedText(hi, lo);
    DottedReads(hi, lo);
    MappedTail(d, hi, lo);
    var text: bytes := [COLON, COLON, 102, 102, 102, 102, COLON] + d;
    assert PairAt(text, 0);
    PairFirst(text, 0);
    assert text[..0] == [] && text[2..] == [102, 102, 102, 102] + [COLON] + d;
    assert ReadGroups(text[..0], false) == Some([]);
    hide ReadGroups;
    assert [] + Zeros(5) + [0xFFFF, hi, lo] == Zeros(5) + [0xFFFF, hi, lo];
  }

  lemma {:induction false} FfffReads()
    ensures ReadGroup([102, 102, 102, 102]) == Some(0xFFFF)
  {
    var p: bytes := [102, 102, 102, 102];
    assert p[..3][..2][..1][..0] == [];
    assert p[..3][..2][..1] == [102] && p[..3][..2] == [102, 102] && p[..3] == [102, 102, 102];
    assert HexNumber(p[..3][..2][..1]) == Some(15);
    assert HexNumber(p[..3][..2]) == Some(255);
    assert HexNumber(p[..3]) == Some(4095);
  }

  lemma {:induction false} LongIsNoGroup(p: bytes)
    requires |p| > 4
    ensures ReadGroup(p) == None
  {
  }

  // ----- Round trip -----

  /** Every address reads back from its text. */
  lemma {:induction false} AddressReadsBack(g: seq<nat>)
    requires IsAddress(g)
    ensures ReadAddress(PrintedAddress(g)) == Some(g)
  {
    hide GroupsText, DottedText, ReadGroups;
    if Mapped(g) {
      MappedReads(g[6], g[7]);
      assert Zeros(5) + [0xFFFF, g[6], g[7]] == g;
    } else {
      RunsAreLeftmostLongest(g);
      var r := RunsIn(g);
      if r.longest <= 1 {
        GroupsRead(g, true);
        GroupsHaveNoPair(g);
        PairNone(GroupsText(g));
      } else {
        CompressedReads(g, r.start, r.longest);
      }
    }
  }

  lemma {:induction false} CompressedReads(g: seq<nat>, start: nat, len: nat)
    requires IsAddress(g) && ZeroRun(g, start, len) && len >= 1
    ensures ReadAddress(GroupsText(g[..start]) + [COLON, COLON] + GroupsText(g[start + len..])) == Some(g)
  {
    hide GroupsText, ReadGroups, DoubleColon;
    var a, b := g[..start], g[start + len..];
    var text := GroupsText(a) + [COLON, COLON] + GroupsText(b);
    GroupsRead(a, false);
    GroupsRead(b, true);
    GroupsHaveNoPair(a);
    PairAfter(GroupsText(a), GroupsText(b));
    var i := |GroupsText(a)|;
    assert text[..i] == GroupsText(a) && text[i + 2..] == GroupsText(b);
    assert a + Zeros(len) + b == g;
  }

  // ----- Length and form -----

  lemma {:induction false} GroupsLength(gs: seq<nat>)
    ensures |GroupsText(gs)| <= 5 * |gs|
    ensures gs != [] ==> |GroupsText(gs)| <= 5 * |gs| - 1
    decreases |gs|
  {
    if |gs| > 1 {
      GroupsLength(gs[..|gs| - 1]);
    }
  }

  /** The text fits the 45 bytes it is given, and 39 are enough. */
  lemma {:induction false} AddressFits(g: seq<nat>)
    requires IsAddress(g)
    ensures |PrintedAddress(g)| <= 39
  {
    if !Mapped(g) {
      RunsAreLeftmostLongest(g);
      var r := RunsIn(g);
      GroupsLength(g);
      GroupsLength(g[..r.start]);
      GroupsLength(g[r.start + r.longest..]);
    }
  }

  /**
   Which zeros are compressed: for an address that is not IPv4-mapped, the leftmost of the longest
   runs of zero groups, if it has two groups or more, and none otherwise.
   */
  lemma {:induction false} CompressesLeftmostLongest(g: seq<nat>)
    requires IsAddress(g) && !Mapped(g)
    ensures (exists s: nat :: ZeroRun(g, s, 2)) ==>
              exists start: nat, len: nat | LeftmostLongest(g, start, len) ::
                len >= 2 && PrintedAddress(g) == GroupsText(g[..start]) + [COLON, COLON] + GroupsText(g[start + len..])
    ensures !(exists s: nat :: ZeroRun(g, s, 2)) ==> PrintedAddress(g) == GroupsText(g)
  {
    RunsAreLeftmostLongest(g);
    var r := RunsIn(g);
    hide GroupsText;
    if exists s: nat :: ZeroRun(g, s, 2) {
      assert r.longest >= 2;
      assert LeftmostLongest(g, r.start, r.longest);
    }
    assert r.longest >= 2 ==> ZeroRun(g, r.start, 2);
  }

  ghost predicate LeftmostLongest(g: seq<nat>, start: nat, len: nat) {
    && ZeroRun(g, start, len)
    && forall s: nat, l: nat | ZeroRun(g, s, l) :: l <= len && (l == len ==> start <= s)
  }

  // ----- The form of the text -----

  /** A decimal digit or one of the letters a to f, never in upper case. */
  predicate LowerHex(b: byte) {
    48 <= b <= 57 || 97 <= b <= 102
  }

  predicate AllLowerHex(s: bytes) {
    forall i | 0 <= i < |s| :: LowerHex(s[i])
  }

  lemma {:induction false} HexIsLower(v: nat, n: nat)
    ensures AllLowerHex(Hex(v, n))
  {
    if n > 0 {
      HexIsLower(v / 16, n - 1);
    }
  }

  lemma {:induction false} HexFirst(v: nat, n: nat)
    requires n > 0
    ensures v < 16 && n == 1 ==> Hex(v, n)[0] == Digit(v)
    ensures n > 1 ==> Hex(v, n)[0] == Hex(v / 16, n - 1)[0]
  {
    assert Hex(v, n)[..n - 1] == Hex(v / 16, n - 1);
  }

  /** A group is written in lower case, as a number without leading zeros. */
  lemma {:induction false} GroupForm(v: nat)
    requires v < 65536
    ensures AllLowerHex(GroupText(v)) && ReadGroup(GroupText(v)) == Some(v)
    ensures |GroupText(v)| > 1 ==> GroupText(v)[0] != 48
  {
    HexIsLower(v, Digits(v));
    GroupReads(v);
    hide Hex, Digit, ReadGroup;
    if v >= 16 {
      HexFirst(v, Digits(v));
      FirstDigit(v / 16, Digits(v) - 1);
    }
  }

  lemma {:induction false} FirstDigit(v: nat, n: nat)
    requires 0 < v < 4096 && 1 <= n && n == if v < 16 then 1 else if v < 256 then 2 else 3
    ensures Hex(v, n)[0] != 48
    decreases n
  {
    hide Hex;
    HexFirst(v, n);
    if n > 1 {
      FirstDigit(v / 16, n - 1);
    }
  }

  predicate GroupCharacters(s: bytes) {
    forall i | 0 <= i < |s| :: LowerHex(s[i]) || s[i] == COLON
  }

  lemma {:induction false} GroupsForm(gs: seq<nat>)
    requires AllGroups(gs)
    ensures GroupCharacters(GroupsText(gs))
    decreases |gs|
  {
    if gs != [] {
      var n := |gs| - 1;
      GroupForm(gs[n]);
      GroupsForm(gs[..n]);
      hide GroupText;
    }
  }

  /**
   A mapped address is "::ffff:" and a dotted IPv4 address that reads as its last two groups; any other
   is made of lower-case digits and colons alone.
   */
  lemma {:induction false} AddressForm(g: seq<nat>)
    requires IsAddress(g)
    ensures var text := PrintedAddress(g);
            if Mapped(g) then
              && |text| > 7 && text[..7] == [COLON, COLON, 102, 102, 102, 102, COLON]
              && ReadDotted(text[7..]) == Some([g[6], g[7]])
            else GroupCharacters(text)
  {
    hide GroupsText, DottedText, ReadDotted;
    var text := PrintedAddress(g);
    if Mapped(g) {
      DottedReads(g[6], g[7]);
      assert text[7..] == DottedText(g[6], g[7]);
    } else {
      var r := RunsIn(g);
      RunsAreLeftmostLongest(g);
      GroupsForm(g);
      GroupsForm(g[..r.start]);
      GroupsForm(g[r.start + r.longest..]);
    }
  }
}
