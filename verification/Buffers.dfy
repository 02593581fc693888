/** Copying into byte buffers, and reading a file from front to back. */
module Buffers {
  import opened Types

  method CopyAll(src: array<byte>, dst: array<byte>)
    requires src.Length == dst.Length && src != dst
    modifies dst
    ensures dst[..] == src[..]
  {
    for i := 0 to src.Length
      invariant dst[..i] == src[..i]
    {
      dst[i] := src[i];
    }
    assert dst[..] == dst[..src.Length] && src[..] == src[..src.Length];
  }

  /** Writes the bytes src at position at. */
  method WriteBytes(dst: array<byte>, at: nat, src: Bytes)
    requires at + |src| <= dst.Length
    modifies dst
    ensures dst[..] == old(dst[..at]) + src + old(dst[at + |src|..])
  {
    for i := 0 to |src|
      invariant forall j :: 0 <= j < i ==> dst[at + j] == src[j]
      invariant forall j :: 0 <= j < at || at + i <= j < dst.Length ==> dst[j] == old(dst[j])
    {
      dst[at + i] := src[i];
    }
    assert dst[at..at + |src|] == src;
  }

  /** Writes the bytes src at offset, where the filled part of the buffer ends. */
  method PutAt(buf: array<byte>, offset: nat, src: Bytes) returns (next: nat)
    requires offset + |src| <= buf.Length
    modifies buf
    ensures next == offset + |src| && buf[..next] == old(buf[..offset]) + src
  {
    WriteBytes(buf, offset, src);
    next := offset + |src|;
    assert buf[..next] == buf[..][..next];
  }

  datatype Shortage = Nothing | TooLittle

  /** A file being read: the bytes, and how far the reader has come. */
  class Reader {
    const data: Bytes
    var pos: nat

    ghost predicate Valid()
      reads this
    {
      pos <= |data|
    }

    ghost function Rest(): Bytes
      requires Valid()
      reads this
    {
      data[pos..]
    }

    constructor (data: Bytes)
      ensures Valid() && Rest() == data && this.data == data
    {
      this.data, pos := data, 0;
    }

    /** io.ReadFull: n bytes, or how it fell short: at the end of the file already, or on the way. */
    method ReadFull(n: nat) returns (b: Bytes, short: Option<Shortage>)
      requires Valid()
      modifies this
      ensures Valid()
      ensures short.None? <==> n <= |old(Rest())|
      ensures short.None? ==> b == old(Rest())[..n] && Rest() == old(Rest())[n..]
      ensures short.Some? ==> short.value == if old(Rest()) == [] then Nothing else TooLittle
    {
      if n == 0 {
        return [], None;
      }
      if pos == |data| {
        return [], Some(Nothing);
      }
      if |data| - pos < n {
        b, short, pos := data[pos..], Some(TooLittle), |data|;
        return;
      }
      b, short, pos := data[pos..pos + n], None, pos + n;
    }
  }
}
