/** The byte buffer the read loop appends to and the decoders consume (channel/codec.go). */
module Buffers {
  import opened Bytes

  class Buffer {
    var data: seq<byte>
    var readIndex: nat

    ghost predicate Valid()
      reads this
    {
      readIndex <= |data|
    }

    /** The unread bytes: what a decoder sees. */
    function Unread(): (s: seq<byte>)
      requires Valid()
      reads this
    {
      data[readIndex..]
    }

    constructor (bytes: seq<byte>)
      ensures Valid() && readIndex == 0 && data == bytes && Unread() == bytes
    {
      data := bytes;
      readIndex := 0;
    }

    method Write(chunk: seq<byte>)
      requires Valid()
      modifies this`data
      ensures Valid() && data == old(data) + chunk && Unread() == old(Unread()) + chunk
    {
      data := data + chunk;
    }

    /** ReadBytes: n unread bytes and past them, or nothing at all. */
    method ReadBytes(n: nat) returns (r: Option<seq<byte>>)
      requires Valid()
      modifies this`readIndex
      ensures Valid()
      ensures |old(Unread())| < n ==> r == None && readIndex == old(readIndex)
      ensures |old(Unread())| >= n ==>
        r == Some(old(Unread())[..n]) && readIndex == old(readIndex) + n
    {
      if |data| - readIndex < n {
        return None;
      }
      assert data[readIndex..readIndex + n] == Unread()[..n];
      r := Some(data[readIndex..readIndex + n]);
      readIndex := readIndex + n;
    }

    /** ReadByte, ReadUint16, ReadUint32 and ReadUint64 are this read at widths 1, 2, 4 and 8. */
    method ReadUint(width: nat) returns (r: Option<nat>)
      requires Valid()
      modifies this`readIndex
      ensures Valid()
      ensures |old(Unread())| < width ==> r == None && readIndex == old(readIndex)
      ensures |old(Unread())| >= width ==>
        r == Some(GetUint(old(Unread())[..width])) && readIndex == old(readIndex) + width
    {
      if |data| - readIndex < width {
        return None;
      }
      var v: nat := 0;
      var i := 0;
      while i < width
        invariant i <= width <= |data| - readIndex
        invariant v == GetUint(data[readIndex..readIndex + i])
      {
        assert data[readIndex..readIndex + i + 1][..i] == data[readIndex..readIndex + i];
        v := v * 256 + data[readIndex + i];
        i := i + 1;
      }
      assert data[readIndex..readIndex + width] == Unread()[..width];
      readIndex := readIndex + width;
      return Some(v);
    }

    method Skip(n: nat) returns (ok: bool)
      requires Valid()
      modifies this`readIndex
      ensures Valid() && ok == (|old(Unread())| >= n)
      ensures readIndex == old(readIndex) + if ok then n else 0
    {
      if |data| - readIndex < n {
        return false;
      }
      readIndex := readIndex + n;
      return true;
    }

    method ResetReaderIndex(mark: nat)
      requires mark <= |data|
      modifies this`readIndex
      ensures Valid() && readIndex == mark
    {
      readIndex := mark;
    }

    /** Compact drops what was read and keeps every unread byte. */
    method Compact()
      requires Valid()
      modifies this
      ensures Valid() && readIndex == 0 && data == old(Unread())
      ensures |data| <= |old(data)|
    {
      if readIndex > 0 {
        data := data[readIndex..];
        readIndex := 0;
      }
    }
  }
}
