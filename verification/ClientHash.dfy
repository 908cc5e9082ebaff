/** The hash of a client address that the IP-hash strategy starts from. */
module ClientHash {
  import opened Prelude

  const WORD32: nat := 0x1_0000_0000
  const WORD64: nat := 0x1_0000_0000_0000_0000

  /** What the target decides: where machine words wrap, and which byte of a word comes first. */
  datatype Machine = Machine(word: nat, little: bool) {
    predicate Known() {
      word == WORD32 || word == WORD64
    }
  }

  datatype IpAddr = V4(a: byte, b: byte, c: byte, d: byte) | V6(segments: seq<bv16>) {
    predicate Valid() {
      V6? ==> |segments| == 8
    }
  }

  /** Four bytes as one word, in the order of the machine. */
  function NativeWord(little: bool, a: byte, b: byte, c: byte, d: byte): (w: nat)
    ensures w < WORD32
  {
    if little then a + 0x100 * b + 0x1_0000 * c + 0x100_0000 * d
    else d + 0x100 * c + 0x1_0000 * b + 0x100_0000 * a
  }

  function RotateLeft7(x: nat): (r: nat)
    requires x < WORD32
    ensures r < WORD32
  {
    x * 0x80 % WORD32 + x / 0x200_0000
  }

  /** A wrapping product in 32 bits, of which the low 16 are kept. */
  function Mix16(x: bv16, k: nat): (r: nat)
    ensures r < 0x1_0000
  {
    x as nat * k % 0x1_0000
  }

  /** Both halves of an IPv6 address fill 16 bits of their own, so joining them is a sum. */
  function HashIp(m: Machine, ip: IpAddr): (hash: nat)
    requires ip.Valid()
    ensures hash < WORD32
  {
    match ip
    case V4(a, b, c, d) => RotateLeft7(NativeWord(m.little, a, b, c, d) * 0x6d2b79f5 % WORD32)
    case V6(s) =>
      Mix16(s[0] ^ s[1] ^ s[2] ^ s[3], 0x6d2b79f5) + 0x1_0000 * Mix16(s[4] ^ s[5] ^ s[6] ^ s[7], 0x2b6ac22e)
  }

  /** Some address has the largest hash there is. */
  lemma {:induction false} LargestHash()
    ensures HashIp(Machine(WORD32, true), V4(163, 85, 167, 35)) == WORD32 - 1
  {
    assert NativeWord(true, 163, 85, 167, 35) == 0x23a7_55a3;
    assert 0x23a7_55a3 * 0x6d2b79f5 % WORD32 == WORD32 - 1;
  }

  lemma {:induction false} RotateTellsApart(x: nat, y: nat)
    requires x < WORD32 && y < WORD32 && RotateLeft7(x) == RotateLeft7(y)
    ensures x == y
  {
    RotateParts(x);
    RotateParts(y);
  }

  /** Rotation swaps the upper 7 and the lower 25 bits. */
  lemma {:induction false} RotateParts(x: nat)
    requires x < WORD32
    ensures x / 0x200_0000 < 0x80 && RotateLeft7(x) == x % 0x200_0000 * 0x80 + x / 0x200_0000
  {
    var high, low := x / 0x200_0000, x % 0x200_0000;
    assert x * 0x80 == low * 0x80 + high * WORD32;
  }

  /** The multiplier is odd, so a product that wraps can be undone. */
  lemma {:induction false} ProductTellsApart(x: nat, y: nat)
    requires x < WORD32 && y < WORD32 && x * 0x6d2b79f5 % WORD32 == y * 0x6d2b79f5 % WORD32
    ensures x == y
  {
    var p, q := x * 0x6d2b79f5 / WORD32, y * 0x6d2b79f5 / WORD32;
    assert (x - y) * 0x6d2b79f5 == (p - q) * WORD32;
    assert 0x6d2b79f5 * 0xdc58aa5d == 1 + 1576479847 * WORD32;
    var z := (p - q) * 0xdc58aa5d - (x - y) * 1576479847;
    assert x - y == z * WORD32;
  }

  lemma {:induction false} NativeTellsApart(
    little: bool, a: byte, b: byte, c: byte, d: byte, a': byte, b': byte, c': byte, d': byte)
    requires NativeWord(little, a, b, c, d) == NativeWord(little, a', b', c', d')
    ensures a == a' && b == b' && c == c' && d == d'
  {
  }

  /** No two IPv4 clients have the same hash, on any target. */
  lemma {:induction false} HashTellsApart(m: Machine, x: IpAddr, y: IpAddr)
    requires x.V4? && y.V4? && HashIp(m, x) == HashIp(m, y)
    ensures x == y
  {
    hide NativeWord, RotateLeft7;
    var v, w := NativeWord(m.little, x.a, x.b, x.c, x.d), NativeWord(m.little, y.a, y.b, y.c, y.d);
    RotateTellsApart(v * 0x6d2b79f5 % WORD32, w * 0x6d2b79f5 % WORD32);
    ProductTellsApart(v, w);
    NativeTellsApart(m.little, x.a, x.b, x.c, x.d, y.a, y.b, y.c, y.d);
  }
}
