/** Writing addresses into a fixed buffer, byte by byte. */
module AddressPrinter {
  import opened Prelude
  import opened AddressText
  import opened AddressReads

  const CAPACITY: nat := 45

  /** A buffer with `text` written at `at`. */
  ghost function Put(buf: bytes, at: nat, text: bytes): (r: bytes)
    requires at + |text| <= |buf|
    ensures |r| == |buf|
    ensures forall k | 0 <= k < |buf| :: r[k] == if at <= k < at + |text| then text[k - at] else buf[k]
  {
    buf[..at] + text + buf[at + |text|..]
  }

  lemma {:induction false} PutPut(buf: bytes, at: nat, a: bytes, b: bytes)
    requires at + |a| + |b| <= |buf|
    ensures Put(Put(buf, at, a), at + |a|, b) == Put(buf, at, a + b)
  {
  }

  lemma {:induction false} PutNothing(buf: bytes, at: nat)
    requires at <= |buf|
    ensures Put(buf, at, []) == buf
  {
  }

  method WriteByte(buf: array<byte>, at: nat, b: byte)
    requires at < buf.Length
    modifies buf
    ensures buf[..] == Put(old(buf[..]), at, [b])
  {
    buf[at] := b;
  }

  /** The digits from the last to the first, so that they come out in order. */
  method WriteSegment(buf: array<byte>, offset: nat, segment: nat) returns (digits: nat)
    requires segment < 65536 && offset + |GroupText(segment)| <= buf.Length
    modifies buf
    ensures digits == |GroupText(segment)| && buf[..] == Put(old(buf[..]), offset, GroupText(segment))
  {
    if segment == 0 {
      WriteByte(buf, offset, 48);
      assert GroupText(0) == [48] by { assert Hex(0, 0) == []; }
      return 1;
    }
    digits := Digits(segment);
    var pos, v := digits, segment;
    ghost var text := GroupText(segment);
    while pos > 0
      invariant 0 <= pos <= digits
      invariant text[..pos] == Hex(v, pos)
      invariant forall k | 0 <= k < buf.Length ::
                buf[k] == if offset + pos <= k < offset + digits then text[k - offset] else old(buf[k])
    {
      assert text[..pos][..pos - 1] == text[..pos - 1] && text[..pos][pos - 1] == text[pos - 1];
      pos := pos - 1;
      buf[offset + pos] := Digit(v % 16);
      v := v / 16;
    }
  }

  // ----- Groups -----

  lemma {:induction false} GroupsStep(gs: seq<nat>, i: nat)
    requires 0 < i < |gs|
    ensures GroupsText(gs[..i + 1]) == GroupsText(gs[..i]) + [COLON] + GroupText(gs[i])
  {
    assert gs[..i + 1][..i] == gs[..i];
  }

  lemma {:induction false} GroupsFirst(gs: seq<nat>)
    ensures GroupsText(gs[..0]) == []
    ensures gs != [] ==> GroupsText(gs[..1]) == GroupText(gs[0])
  {
  }

  lemma {:induction false} GroupsGrow(gs: seq<nat>, i: nat)
    requires i <= |gs|
    ensures |GroupsText(gs[..i])| <= |GroupsText(gs)|
    decreases |gs| - i
  {
    if i == |gs| {
      assert gs[..i] == gs;
    } else {
      GroupsFirst(gs);
      if i > 0 { GroupsStep(gs, i); }
      GroupsGrow(gs, i + 1);
    }
  }

  method WriteGroups(buf: array<byte>, offset: nat, segments: seq<nat>) returns (len: nat)
    requires AllGroups(segments) && offset + |GroupsText(segments)| <= buf.Length
    modifies buf
    ensures len == |GroupsText(segments)| && buf[..] == Put(old(buf[..]), offset, GroupsText(segments))
  {
    hide GroupsText, GroupText, Put;
    ghost var was := buf[..];
    len := 0;
    GroupsFirst(segments);
    PutNothing(was, offset);
    for i := 0 to |segments|
      invariant len == |GroupsText(segments[..i])| && offset + len <= buf.Length
      invariant buf[..] == Put(was, offset, GroupsText(segments[..i]))
    {
      GroupsGrow(segments, i + 1);
      ghost var done := GroupsText(segments[..i]);
      if i > 0 {
        GroupsStep(segments, i);
        PutPut(was, offset, done, [COLON]);
        PutPut(was, offset, done + [COLON], GroupText(segments[i]));
        WriteByte(buf, offset + len, COLON);
        len := len + 1;
      } else {
        PutPut(was, offset, done, GroupText(segments[i]));
        assert done + GroupText(segments[0]) == GroupText(segments[0]);
      }
      var n := WriteSegment(buf, offset + len, segments[i]);
      len := len + n;
    }
    assert segments[..|segments|] == segments;
  }

  // ----- Octets -----

  method WriteOctet(buf: array<byte>, offset: nat, octet: nat) returns (len: nat)
    requires octet < 256 && offset + |OctetText(octet)| <= buf.Length
    modifies buf
    ensures len == |OctetText(octet)| && buf[..] == Put(old(buf[..]), offset, OctetText(octet))
  {
    len := 0;
    if octet >= 100 {
      buf[offset + len] := 48 + octet / 100;
      len := len + 1;
    }
    if octet >= 10 {
      buf[offset + len] := 48 + octet / 10 % 10;
      len := len + 1;
    }
    buf[offset + len] := 48 + octet % 10;
    len := len + 1;
  }

  function Octets(hi: nat, lo: nat): seq<nat> {
    [hi / 256, hi % 256, lo / 256, lo % 256]
  }

  ghost predicate AllOctets(octets: seq<nat>) {
    forall i | 0 <= i < |octets| :: octets[i] < 256
  }

  /** Octets with periods between them. */
  function OctetsText(octets: seq<nat>): bytes {
    if octets == [] then []
    else if |octets| == 1 then OctetText(octets[0])
    else OctetsText(octets[..|octets| - 1]) + [PERIOD] + OctetText(octets[|octets| - 1])
  }

  lemma {:induction false} OctetsAreDotted(hi: nat, lo: nat)
    ensures OctetsText(Octets(hi, lo)) == DottedText(hi, lo)
  {
    hide OctetText;
    var o := Octets(hi, lo);
    assert o[..3] == [o[0], o[1], o[2]] && o[..3][..2] == [o[0], o[1]] && o[..3][..2][..1] == [o[0]];
    assert OctetsText([o[0]]) == OctetText(o[0]);
    assert OctetsText([o[0], o[1]]) == OctetText(o[0]) + [PERIOD] + OctetText(o[1]);
    assert OctetsText([o[0], o[1], o[2]]) == OctetText(o[0]) + [PERIOD] + OctetText(o[1]) + [PERIOD] + OctetText(o[2]);
  }

  lemma {:induction false} OctetsStep(octets: seq<nat>, i: nat)
    requires 0 < i < |octets|
    ensures OctetsText(octets[..i + 1]) == OctetsText(octets[..i]) + [PERIOD] + OctetText(octets[i])
  {
    assert octets[..i + 1][..i] == octets[..i];
  }

  lemma {:induction false} OctetsFirst(octets: seq<nat>)
    ensures OctetsText(octets[..0]) == []
    ensures octets != [] ==> OctetsText(octets[..1]) == OctetText(octets[0])
  {
  }

  lemma {:induction false} OctetsGrow(octets: seq<nat>, i: nat)
    requires i <= |octets|
    ensures |OctetsText(octets[..i])| <= |OctetsText(octets)|
    decreases |octets| - i
  {
    if i == |octets| {
      assert octets[..i] == octets;
    } else {
      OctetsFirst(octets);
      if i > 0 { OctetsStep(octets, i); }
      OctetsGrow(octets, i + 1);
    }
  }

  method WriteOctets(buf: array<byte>, offset: nat, octets: seq<nat>) returns (len: nat)
    requires AllOctets(octets) && offset + |OctetsText(octets)| <= buf.Length
    modifies buf
    ensures len == |OctetsText(octets)| && buf[..] == Put(old(buf[..]), offset, OctetsText(octets))
  {
    hide OctetsText, OctetText, Put;
    ghost var was := buf[..];
    len := 0;
    OctetsFirst(octets);
    PutNothing(was, offset);
    for i := 0 to |octets|
      invariant len == |OctetsText(octets[..i])| && offset + len <= buf.Length
      invariant buf[..] == Put(was, offset, OctetsText(octets[..i]))
    {
      OctetsGrow(octets, i + 1);
      ghost var done := OctetsText(octets[..i]);
      if i > 0 {
        OctetsStep(octets, i);
        PutPut(was, offset, done, [PERIOD]);
        PutPut(was, offset, done + [PERIOD], OctetText(octets[i]));
        WriteByte(buf, offset + len, PERIOD);
        len := len + 1;
      } else {
        PutPut(was, offset, done, OctetText(octets[i]));
        assert done + OctetText(octets[0]) == OctetText(octets[0]);
      }
      var n := WriteOctet(buf, offset + len, octets[i]);
      len := len + n;
    }
    assert octets[..|octets|] == octets;
  }

  method WriteIpv4(buf: array<byte>, offset: nat, hi: nat, lo: nat) returns (len: nat)
    requires hi < 65536 && lo < 65536 && offset + |DottedText(hi, lo)| <= buf.Length
    modifies buf
    ensures len == |DottedText(hi, lo)| && buf[..] == Put(old(buf[..]), offset, DottedText(hi, lo))
  {
    hide OctetsText, DottedText, Put;
    OctetsAreDotted(hi, lo);
    len := WriteOctets(buf, offset, Octets(hi, lo));
  }

  // ----- The address -----

  /** The longest run of zero groups, the first one on ties. */
  method FindRun(segments: seq<nat>) returns (start: nat, longest: nat)
    ensures start == RunsIn(segments).start && longest == RunsIn(segments).longest
  {
    start, longest := 0, 0;
    var current := 0;
    assert segments[..0] == [];
    for i := 0 to |segments|
      invariant RunsIn(segments[..i]) == Runs(start, longest, current)
    {
      assert segments[..i + 1][..i] == segments[..i];
      if segments[i] == 0 {
        current := current + 1;
        if current > longest {
          longest := current;
          start := i + 1 - current;
        }
      } else {
        current := 0;
      }
    }
    assert segments[..|segments|] == segments;
  }

  /** Writes the address; the text always fits. */
  method WriteIpv6(buf: array<byte>, segments: seq<nat>) returns (len: nat)
    requires buf.Length == CAPACITY && IsAddress(segments)
    modifies buf
    ensures len == |PrintedAddress(segments)| <= CAPACITY
    ensures buf[..] == Put(old(buf[..]), 0, PrintedAddress(segments))
  {
    hide GroupsText, DottedText, Put;
    AddressFits(segments);
    if Mapped(segments) {
      len := WriteMapped(buf, segments[6], segments[7]);
      return;
    }
    var start, longest := FindRun(segments);
    if longest <= 1 {
      len := WriteGroups(buf, 0, segments);
    } else {
      len := WriteCompressed(buf, segments, start, longest);
    }
  }

  method WriteMapped(buf: array<byte>, hi: nat, lo: nat) returns (len: nat)
    requires hi < 65536 && lo < 65536 && 7 + |DottedText(hi, lo)| <= buf.Length
    modifies buf
    ensures var text := [COLON, COLON, 102, 102, 102, 102, COLON] + DottedText(hi, lo);
            len == |text| && buf[..] == Put(old(buf[..]), 0, text)
  {
    hide DottedText;
    ghost var was := buf[..];
    var head: bytes := [COLON, COLON, 102, 102, 102, 102, COLON];
    for i := 0 to 7
      invariant forall k | 0 <= k < buf.Length :: buf[k] == if k < i then head[k] else was[k]
    {
      buf[i] := head[i];
    }
    assert buf[..] == Put(was, 0, head);
    hide Put;
    PutPut(was, 0, head, DottedText(hi, lo));
    var n := WriteIpv4(buf, 7, hi, lo);
    len := 7 + n;
  }

  method WriteCompressed(buf: array<byte>, segments: seq<nat>, start: nat, longest: nat) returns (len: nat)
    requires AllGroups(segments) && start + longest <= |segments|
    requires |GroupsText(segments[..start])| + 2 + |GroupsText(segments[start + longest..])| <= buf.Length
    modifies buf
    ensures var text := GroupsText(segments[..start]) + [COLON, COLON] + GroupsText(segments[start + longest..]);
            len == |text| && buf[..] == Put(old(buf[..]), 0, text)
  {
    hide GroupsText, Put;
    ghost var was, a, b := buf[..], GroupsText(segments[..start]), GroupsText(segments[start + longest..]);
    PutPut(was, 0, a, [COLON]);
    PutPut(was, 0, a + [COLON], [COLON]);
    PutPut(was, 0, a + [COLON, COLON], b);
    assert a + [COLON] + [COLON] == a + [COLON, COLON];
    len := WriteGroups(buf, 0, segments[..start]);
    WriteByte(buf, len, COLON);
    WriteByte(buf, len + 1, COLON);
    len := len + 2;
    var n := WriteGroups(buf, len, segments[start + longest..]);
    len := len + n;
  }
}
