/** Reading the remembered tail and the current chunk as one stream. */
module ChunkReading {
  import opened Prelude
  import opened BodyScan

  method CopyInto(buf: array<byte>, at: nat, src: bytes)
    requires at + |src| <= buf.Length
    modifies buf
    ensures forall k | 0 <= k < buf.Length :: buf[k] == if at <= k < at + |src| then src[k - at] else old(buf[k])
  {
    for i := 0 to |src|
      invariant forall k | 0 <= k < buf.Length :: buf[k] == if at <= k < at + i then src[k - at] else old(buf[k])
    {
      buf[at + i] := src[i];
    }
  }

  class ChunkReader {
    const overlap: bytes
    const chunk: bytes
    var pos: nat

    ghost function Text(): bytes {
      overlap + chunk
    }

    ghost predicate Valid()
      reads this
    {
      pos <= |Text()|
    }

    constructor (overlap: bytes, chunk: bytes)
      ensures Valid() && pos == 0 && this.overlap == overlap && this.chunk == chunk
    {
      this.overlap := overlap;
      this.chunk := chunk;
      pos := 0;
    }

    /** Fills the buffer with as much of what is left as fits. */
    method Read(buf: array<byte>) returns (written: nat)
      requires Valid()
      modifies this, buf
      ensures Valid() && pos == old(pos) + written
      ensures written == Min(buf.Length, |Text()| - old(pos))
      ensures forall k | 0 <= k < buf.Length :: buf[k] == if k < written then Text()[old(pos) + k] else old(buf[k])
    {
      var total := |overlap| + |chunk|;
      if pos >= total {
        return 0;
      }
      written := 0;
      if pos < |overlap| {
        var src := overlap[pos..];
        var n := Min(|src|, buf.Length);
        CopyInto(buf, 0, src[..n]);
        pos := pos + n;
        written := n;
        if written >= buf.Length {
          return;
        }
      }
      if pos >= |overlap| {
        var ci := pos - |overlap|;
        if ci < |chunk| {
          var src := chunk[ci..];
          var n := Min(|src|, buf.Length - written);
          CopyInto(buf, written, src[..n]);
          pos := pos + n;
          written := written + n;
        }
      }
    }

    /** Reads of any non-zero sizes, one after the other to the end, give what is left exactly once. */
    method Drain(sizes: nat -> nat) returns (text: bytes)
      requires Valid() && forall i :: sizes(i) > 0
      modifies this
      ensures text == Text()[old(pos)..] && pos == |Text()|
    {
      text := [];
      var i, n := 0, 1;
      while n > 0
        invariant Valid()
        invariant old(pos) <= pos && text == Text()[old(pos)..pos]
        invariant n == 0 ==> pos == |Text()|
        decreases |Text()| - pos, n
      {
        ghost var at := pos;
        var buf := new byte[sizes(i)];
        n := Read(buf);
        assert buf[..n] == Text()[at..pos];
        text := text + buf[..n];
        i := i + 1;
      }
    }
  }
}
