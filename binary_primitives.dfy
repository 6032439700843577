/** Fixed-width integer reads and writes over a byte array, as the binary
    format lays them out: little-endian, two's complement for the signed
    kinds. `Read*` take the array as a sequence and a byte position. */
module BinaryPrimitives {
  import opened Common

  /** 256 to the power n. */
  function Pow256(n: nat): (r: nat)
    ensures r >= 1
  {
    if n == 0 then 1 else 256 * Pow256(n - 1)
  }

  /** Half the range of an n-byte integer: the bound of its signed reading. */
  function Half(n: nat): (r: nat)
    ensures n > 0 ==> 2 * r == Pow256(n)
  {
    if n == 0 then 0 else 128 * Pow256(n - 1)
  }

  lemma Pow256Values()
    ensures Pow256(1) == 0x100 && Pow256(2) == 0x1_0000
    ensures Pow256(4) == 0x1_0000_0000 && Pow256(8) == 0x1_0000_0000_0000_0000
    ensures Half(1) == 0x80 && Half(2) == 0x8000
    ensures Half(4) == 0x8000_0000 && Half(8) == 0x8000_0000_0000_0000
  {
    assert Pow256(2) == 256 * Pow256(1);
    assert Pow256(4) == 256 * (256 * Pow256(2));
    assert Pow256(8) == 256 * (256 * (256 * (256 * Pow256(4))));
  }

  /** The unsigned value of bytes stored least significant first. */
  function Unsigned(bs: seq<Byte>): (r: nat)
    ensures r < Pow256(|bs|)
  {
    if bs == [] then 0 else bs[0] + 256 * Unsigned(bs[1..])
  }

  /** The n least significant bytes of u, least significant first. */
  function LittleEndian(u: nat, n: nat): (r: seq<Byte>)
    ensures |r| == n
  {
    if n == 0 then [] else [u % 256] + LittleEndian(u / 256, n - 1)
  }

  /** Writing the n low bytes of a value that fits in n bytes and reading
      them back gives the value. */
  lemma {:induction false} UnsignedOfLittleEndian(u: nat, n: nat)
    requires u < Pow256(n)
    ensures Unsigned(LittleEndian(u, n)) == u
  {
    if n > 0 {
      var bs := LittleEndian(u, n);
      assert bs[1..] == LittleEndian(u / 256, n - 1);
      assert u / 256 < Pow256(n - 1);
      UnsignedOfLittleEndian(u / 256, n - 1);
      assert Unsigned(bs) == u % 256 + 256 * (u / 256);
    }
  }

  /** Two's complement reading of an n-byte unsigned value. */
  function Signed(u: nat, n: nat): (r: int)
    requires u < Pow256(n)
    ensures -(Half(n) as int) <= r < Half(n) || n == 0
    ensures r == u || r == u - Pow256(n)
  {
    if n > 0 && u >= Half(n) then u - Pow256(n) else u
  }

  /** The n-byte two's complement bit pattern of x, read as unsigned. */
  function TwosComplement(x: int, n: nat): (u: nat)
    requires n > 0 && -(Half(n) as int) <= x < Half(n)
    ensures u < Pow256(n)
    ensures Signed(u, n) == x
  {
    if x < 0 then x + Pow256(n) else x
  }

  /** The little-endian encoding of a signed n-byte value. */
  function EncodeSigned(x: int, n: nat): (r: seq<Byte>)
    requires n > 0 && -(Half(n) as int) <= x < Half(n)
    ensures |r| == n
  {
    LittleEndian(TwosComplement(x, n), n)
  }

  predicate InRange(a: seq<Byte>, pos: int, n: nat)
  {
    0 <= pos && pos + n <= |a|
  }

  function ReadUnsigned(a: seq<Byte>, pos: int, n: nat): (r: nat)
    requires InRange(a, pos, n)
    ensures r < Pow256(n)
  {
    Unsigned(a[pos..pos + n])
  }

  function ReadByte(a: seq<Byte>, pos: int): int
    requires InRange(a, pos, 1)
  {
    Signed(ReadUnsigned(a, pos, 1), 1)
  }

  function ReadShort(a: seq<Byte>, pos: int): int
    requires InRange(a, pos, 2)
  {
    Signed(ReadUnsigned(a, pos, 2), 2)
  }

  /** A UTF-16 code unit: two bytes read unsigned. */
  function ReadChar(a: seq<Byte>, pos: int): int
    requires InRange(a, pos, 2)
  {
    ReadUnsigned(a, pos, 2)
  }

  function ReadInt(a: seq<Byte>, pos: int): int
    requires InRange(a, pos, 4)
  {
    Signed(ReadUnsigned(a, pos, 4), 4)
  }

  function ReadLong(a: seq<Byte>, pos: int): int
    requires InRange(a, pos, 8)
  {
    Signed(ReadUnsigned(a, pos, 8), 8)
  }

  function ReadBoolean(a: seq<Byte>, pos: int): bool
    requires InRange(a, pos, 1)
  {
    a[pos] != 0
  }

  /** Whatever n-byte value is stored at pos is read back. */
  lemma ReadUnsignedStored(a: seq<Byte>, pos: int, u: nat, n: nat)
    requires InRange(a, pos, n) && u < Pow256(n)
    requires a[pos..pos + n] == LittleEndian(u, n)
    ensures ReadUnsigned(a, pos, n) == u
  {
    UnsignedOfLittleEndian(u, n);
  }

  /** A signed n-byte value stored at pos is read back by the signed reader. */
  lemma ReadSignedStored(a: seq<Byte>, pos: int, x: int, n: nat)
    requires n > 0 && -(Half(n) as int) <= x < Half(n)
    requires InRange(a, pos, n) && a[pos..pos + n] == EncodeSigned(x, n)
    ensures Signed(ReadUnsigned(a, pos, n), n) == x
  {
    ReadUnsignedStored(a, pos, TwosComplement(x, n), n);
  }

  /** A Java int stored at pos is what ReadInt returns. */
  lemma ReadIntStored(a: seq<Byte>, pos: int, x: int)
    requires IsInt(x) && InRange(a, pos, 4)
    requires (Pow256Values(); a[pos..pos + 4] == EncodeSigned(x, 4))
    ensures ReadInt(a, pos) == x
  {
    Pow256Values();
    ReadSignedStored(a, pos, x, 4);
  }

  /** A Java long stored at pos is what ReadLong returns. */
  lemma ReadLongStored(a: seq<Byte>, pos: int, x: int)
    requires IsLong(x) && InRange(a, pos, 8)
    requires (Pow256Values(); a[pos..pos + 8] == EncodeSigned(x, 8))
    ensures ReadLong(a, pos) == x
  {
    Pow256Values();
    ReadSignedStored(a, pos, x, 8);
  }

  /** A slice of a slice is a slice of the original. */
  lemma SliceOfSlice<T>(a: seq<T>, i: int, j: int, k: int, l: int)
    requires 0 <= i <= j <= |a| && 0 <= k <= l <= j - i
    ensures a[i..j][k..l] == a[i + k..i + l]
  {
    assert |a[i..j][k..l]| == l - k == |a[i + k..i + l]|;
    forall m | 0 <= m < l - k
      ensures a[i..j][k..l][m] == a[i + k..i + l][m]
    {
    }
  }

  /** A window of bytes stored at pos holds each of its own slices at the
      matching offset. */
  lemma StoredWindow<T>(a: seq<T>, pos: int, e: seq<T>, k: int, l: int)
    requires 0 <= pos && pos + |e| <= |a| && a[pos..pos + |e|] == e
    requires 0 <= k <= l <= |e|
    ensures a[pos + k..pos + l] == e[k..l]
  {
    SliceOfSlice(a, pos, pos + |e|, k, l);
  }
}
