/** Bytes, machine integers and the big-endian fields of the wire format. */
module Bytes {

  datatype Option<+T> = None | Some(value: T)

  datatype Result<+T, +E> = Ok(value: T) | Err(error: E)

  type byte = b: int | 0 <= b < 256
  type int32 = x: int | -0x8000_0000 <= x < 0x8000_0000

  const TWO_32 := 0x1_0000_0000
  const TWO_62 := 0x4000_0000_0000_0000
  const TWO_63 := 0x8000_0000_0000_0000
  const TWO_64 := 0x1_0000_0000_0000_0000

  /** The value an `int32` holds after an arithmetic result x is stored in it. */
  function Wrap32(x: int): int32 {
    (x + 0x8000_0000) % TWO_32 - 0x8000_0000
  }

  /** The value a 64-bit `int` holds after an arithmetic result x is stored in it. */
  function Wrap64(x: int): int {
    if -TWO_63 <= x < TWO_63 then x else (x + TWO_63) % TWO_64 - TWO_63
  }

  function Pow256(width: nat): (p: nat)
    ensures p > 0
  {
    if width == 0 then 1 else 256 * Pow256(width - 1)
  }

  /** The low `width` bytes of v (two's complement when v is negative), most significant first. */
  function PutUint(width: nat, v: int): (s: seq<byte>)
    ensures |s| == width
  {
    if width == 0 then [] else PutUint(width - 1, v / 256) + [v % 256]
  }

  /** The unsigned integer whose big-endian bytes are s. */
  function GetUint(s: seq<byte>): (v: nat)
    ensures v < Pow256(|s|)
  {
    if s == [] then 0 else GetUint(s[..|s| - 1]) * 256 + s[|s| - 1]
  }

  /** The first byte of a field is its most significant one. */
  lemma {:induction false} LeadingByteCounts(b: byte, s: seq<byte>)
    ensures GetUint([b] + s) == b * Pow256(|s|) + GetUint(s)
  {
    if s == [] {
      assert [b] + s == [b] && [b][..0] == [];
    } else {
      var front := s[..|s| - 1];
      LeadingByteCounts(b, front);
      assert ([b] + s)[..|s|] == [b] + front;
      assert b * Pow256(|front|) * 256 == b * Pow256(|s|);
    }
  }

  /** Stored results are in range, and differ from what was computed by a multiple of the type's size. */
  lemma {:induction false} WrapsIntoRange(x: int)
    ensures Wrap32(x) == x - (x + 0x8000_0000) / TWO_32 * TWO_32
    ensures -TWO_63 <= Wrap64(x) < TWO_63 && Wrap64(x) == x - (x + TWO_63) / TWO_64 * TWO_64
  {}

  lemma {:induction false} PutUintWraps(width: nat, v: int, k: int)
    ensures PutUint(width, v + k * Pow256(width)) == PutUint(width, v)
  {
    if width > 0 {
      var q := k * Pow256(width - 1);
      assert k * Pow256(width) == 256 * q;
      assert (v + 256 * q) / 256 == v / 256 + q && (v + 256 * q) % 256 == v % 256;
      PutUintWraps(width - 1, v / 256, k);
    }
  }

  lemma {:induction false} GetPutInRange(width: nat, v: nat)
    requires v < Pow256(width)
    ensures GetUint(PutUint(width, v)) == v
  {
    if width > 0 {
      GetPutInRange(width - 1, v / 256);
      assert PutUint(width, v)[..width - 1] == PutUint(width - 1, v / 256);
    }
  }

  /** A field written and read back is the value modulo the field's range: nothing else is lost. */
  lemma {:induction false} GetPut(width: nat, v: int, k: int, r: nat)
    requires v == r + k * Pow256(width) && r < Pow256(width)
    ensures GetUint(PutUint(width, v)) == r
  {
    PutUintWraps(width, r, k);
    GetPutInRange(width, r);
  }

  lemma {:induction false} Pow256Values()
    ensures Pow256(1) == 0x100 && Pow256(2) == 0x1_0000
    ensures Pow256(4) == TWO_32 && Pow256(8) == TWO_64
  {
    assert Pow256(3) == 0x100_0000;
    assert Pow256(5) == 256 * Pow256(4);
    assert Pow256(6) == 256 * Pow256(5);
    assert Pow256(7) == 256 * Pow256(6);
  }

  /** Casting a signed field to unsigned on the way out and back to signed on the way in keeps it. */
  lemma {:induction false} SignedFieldRoundTrip(v: int32)
    ensures Wrap32(GetUint(PutUint(4, v))) == v
  {
    Pow256Values();
    if v < 0 {
      GetPut(4, v, -1, v + TWO_32);
    } else {
      GetPut(4, v, 0, v);
    }
  }
}
