/** IPv6 addresses as text: how RFC 5952 writes them and how section 2.2 of RFC 4291 reads them. */
module AddressText {
  import opened Prelude
  import opened PathSyntax

  const COLON: byte := 58
  const PERIOD: byte := 46

  ghost predicate AllGroups(gs: seq<nat>) {
    forall i | 0 <= i < |gs| :: gs[i] < 65536
  }

  /** Eight groups of sixteen bits. */
  ghost predicate IsAddress(g: seq<nat>) {
    |g| == 8 && AllGroups(g)
  }

  // ----- Writing -----

  function Digit(d: nat): byte
    requires d < 16
  {
    if d < 10 then 48 + d else 87 + d
  }

  /** How many hexadecimal digits a group needs. */
  function Digits(v: nat): (n: nat)
    ensures 1 <= n <= 4
  {
    if v < 16 then 1 else if v < 256 then 2 else if v < 4096 then 3 else 4
  }

  /** The last `n` hexadecimal digits. */
  function Hex(v: nat, n: nat): (r: bytes)
    ensures |r| == n
  {
    if n == 0 then [] else Hex(v / 16, n - 1) + [Digit(v % 16)]
  }

  function GroupText(v: nat): (r: bytes)
    ensures 1 <= |r| <= 4
  {
    Hex(v, Digits(v))
  }

  function GroupsText(gs: seq<nat>): bytes {
    if gs == [] then []
    else if |gs| == 1 then GroupText(gs[0])
    else GroupsText(gs[..|gs| - 1]) + [COLON] + GroupText(gs[|gs| - 1])
  }

  function OctetText(o: nat): (r: bytes)
    ensures 1 <= |r| <= 3
  {
    (if o >= 100 then [48 + o / 100 % 10] else []) + (if o >= 10 then [48 + o / 10 % 10] else []) + [48 + o % 10]
  }

  function DottedText(hi: nat, lo: nat): (r: bytes)
    ensures |r| <= 15
  {
    OctetText(hi / 256) + [PERIOD] + OctetText(hi % 256) + [PERIOD] + OctetText(lo / 256) + [PERIOD] +
      OctetText(lo % 256)
  }

  /** Zeros, then ffff, then an IPv4 address. */
  predicate Mapped(g: seq<nat>) {
    |g| == 8 && g[0] == 0 && g[1] == 0 && g[2] == 0 && g[3] == 0 && g[4] == 0 && g[5] == 0xFFFF
  }

  /** Progress of the search for zero groups: where the best run starts, how long it is, how long the run at hand is. */
  datatype Runs = Runs(start: nat, longest: nat, current: nat)

  function RunsIn(g: seq<nat>): (r: Runs)
    ensures r.current <= r.longest && r.current <= |g| && r.start + r.longest <= |g|
  {
    if g == [] then Runs(0, 0, 0)
    else
      var n := |g| - 1;
      var r := RunsIn(g[..n]);
      if g[n] != 0 then r.(current := 0)
      else if r.current + 1 > r.longest then Runs(n - r.current, r.current + 1, r.current + 1)
      else r.(current := r.current + 1)
  }

  /** `len` zero groups from `start` on. */
  ghost predicate ZeroRun(g: seq<nat>, start: nat, len: nat) {
    start + len <= |g| && forall i | start <= i < start + len :: g[i] == 0
  }

  /** The search ends with the longest run, and with the leftmost one of that length. */
  lemma {:induction false} RunsAreLeftmostLongest(g: seq<nat>)
    ensures var r := RunsIn(g);
            && ZeroRun(g, r.start, r.longest) && ZeroRun(g, |g| - r.current, r.current)
            && (r.current < |g| ==> g[|g| - r.current - 1] != 0)
            && (forall s: nat, l: nat | ZeroRun(g, s, l) ::
                  l <= r.longest && (l == r.longest && l > 0 ==> r.start <= s))
  {
    if g != [] {
      var n := |g| - 1;
      var init := g[..n];
      RunsAreLeftmostLongest(init);
      var before, r := RunsIn(init), RunsIn(g);
      forall s: nat, l: nat | ZeroRun(g, s, l) ensures l <= r.longest && (l == r.longest && l > 0 ==> r.start <= s) {
        RunAtEnd(g, s, l);
      }
    }
  }

  /** A run of zeros in a list ends before its last group, or is part of the run at its end. */
  lemma {:induction false} RunAtEnd(g: seq<nat>, s: nat, l: nat)
    requires g != [] && ZeroRun(g, s, l)
    ensures s + l < |g| ==> ZeroRun(g[..|g| - 1], s, l)
    ensures s + l == |g| && l > 0 ==> g[|g| - 1] == 0 && ZeroRun(g[..|g| - 1], s, l - 1)
  {
  }

  function PrintedAddress(g: seq<nat>): bytes
    requires |g| == 8 && (forall i | 0 <= i < 8 :: g[i] < 65536)
  {
    if Mapped(g) then [COLON, COLON, 102, 102, 102, 102, COLON] + DottedText(g[6], g[7])
    else
      var r := RunsIn(g);
      RunsAreLeftmostLongest(g);
      if r.longest <= 1 then GroupsText(g)
      else GroupsText(g[..r.start]) + [COLON, COLON] + GroupsText(g[r.start + r.longest..])
  }

  // ----- Reading -----

  function HexNumber(p: bytes): Option<nat> {
    if p == [] then Some(0)
    else
      match (HexNumber(p[..|p| - 1]), HexValue(p[|p| - 1]))
      case (Some(v), Some(d)) => Some(v * 16 + d)
      case _ => None
  }

  /** One to four hexadecimal digits. */
  function ReadGroup(p: bytes): Option<nat> {
    if 1 <= |p| <= 4 then HexNumber(p) else None
  }

  predicate IsDecimal(p: bytes) {
    forall i | 0 <= i < |p| :: 48 <= p[i] <= 57
  }

  function DecimalNumber(p: bytes): nat
    requires IsDecimal(p)
  {
    if p == [] then 0 else DecimalNumber(p[..|p| - 1]) * 10 + (p[|p| - 1] - 48)
  }

  /** A decimal number up to 255, without leading zeros. */
  function ReadOctet(p: bytes): Option<nat> {
    var ok := 1 <= |p| <= 3 && IsDecimal(p) && (|p| > 1 ==> p[0] != 48) && DecimalNumber(p) < 256;
    if ok then Some(DecimalNumber(p)) else None
  }

  /** Four octets make two groups. */
  function ReadDotted(p: bytes): Option<seq<nat>> {
    var parts := Split(p, PERIOD);
    if |parts| != 4 then None
    else
      match (ReadOctet(parts[0]), ReadOctet(parts[1]), ReadOctet(parts[2]), ReadOctet(parts[3]))
      case (Some(a), Some(b), Some(c), Some(d)) => Some([a * 256 + b, c * 256 + d])
      case _ => None
  }

  /** Groups in hexadecimal; the last piece may be an IPv4 address in their stead. */
  function ReadPieces(pieces: seq<bytes>, dotted: bool): Option<seq<nat>>
    requires pieces != []
  {
    var last := pieces[|pieces| - 1];
    var tail := if dotted && ReadGroup(last).None? then ReadDotted(last)
                else match ReadGroup(last) case None => None case Some(v) => Some([v]);
    if |pieces| == 1 then tail
    else
      match (ReadPieces(pieces[..|pieces| - 1], false), tail)
      case (Some(gs), Some(t)) => Some(gs + t)
      case _ => None
  }

  function ReadGroups(text: bytes, dotted: bool): Option<seq<nat>> {
    if text == [] then Some([]) else ReadPieces(Split(text, COLON), dotted)
  }

  /** Where the first pair of colons stands. */
  function DoubleColon(text: bytes): (r: Option<nat>)
    ensures r.Some? ==> r.value + 2 <= |text|
  {
    if |text| < 2 then None
    else if text[0] == COLON && text[1] == COLON then Some(0)
    else match DoubleColon(text[1..]) case None => None case Some(i) => Some(i + 1)
  }

  function Zeros(n: nat): (r: seq<nat>)
    ensures |r| == n && forall i | 0 <= i < n :: r[i] == 0
  {
    seq(n, _ => 0)
  }

  /** An address: eight groups, or fewer with one pair of colons for the zeros between them. */
  function ReadAddress(text: bytes): Option<seq<nat>> {
    match DoubleColon(text)
    case None => (match ReadGroups(text, true) case Some(gs) => if |gs| == 8 then Some(gs) else None case None => None)
    case Some(i) =>
      match (ReadGroups(text[..i], false), ReadGroups(text[i + 2..], true))
      case (Some(a), Some(b)) => if |a| + |b| < 8 then Some(a + Zeros(8 - |a| - |b|) + b) else None
      case _ => None
  }
}
