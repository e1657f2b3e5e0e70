/** Little-endian integers of a fixed width. */
module LittleEndian {
  import opened Types

  function Pow256(width: nat): (p: nat)
    ensures p > 0
  {
    if width == 0 then 1 else 256 * Pow256(width - 1)
  }

  function ToBytes(n: nat, width: nat): (b: Bytes)
    ensures |b| == width
  {
    if width == 0 then [] else [n % 256] + ToBytes(n / 256, width - 1)
  }

  function FromBytes(b: Bytes): (n: nat)
    ensures n < Pow256(|b|)
  {
    if b == [] then 0 else b[0] + 256 * FromBytes(b[1..])
  }

  lemma {:induction false} FromToBytes(n: nat, width: nat)
    requires n < Pow256(width)
    ensures FromBytes(ToBytes(n, width)) == n
  {
    if width > 0 {
      FromToBytes(n / 256, width - 1);
      assert ToBytes(n, width)[1..] == ToBytes(n / 256, width - 1);
    }
  }

  lemma {:induction false} ToFromBytes(b: Bytes)
    ensures ToBytes(FromBytes(b), |b|) == b
  {
    if b != [] {
      ToFromBytes(b[1..]);
      assert FromBytes(b) / 256 == FromBytes(b[1..]) && FromBytes(b) % 256 == b[0];
      assert [b[0]] + b[1..] == b;
    }
  }

  lemma Widths()
    ensures Pow256(2) == 0x1_0000 && Pow256(4) == 0x1_0000_0000 && Pow256(8) == 0x1_0000_0000_0000_0000
  {
    assert Pow256(1) == 256;
    assert Pow256(2) == 256 * Pow256(1);
    assert Pow256(3) == 256 * Pow256(2);
    assert Pow256(4) == 256 * Pow256(3);
    assert Pow256(5) == 256 * Pow256(4);
    assert Pow256(6) == 256 * Pow256(5);
    assert Pow256(7) == 256 * Pow256(6);
    assert Pow256(8) == 256 * Pow256(7);
  }

  // ----- The integers on the wire -----

  /** The two's complement image of an i64. */
  function Unsigned(x: i64): u64 {
    if x < 0 then x + 0x1_0000_0000_0000_0000 else x
  }

  function Signed(u: u64): i64 {
    if u > I64_MAX then u - 0x1_0000_0000_0000_0000 else u
  }

  function Le64(x: i64): (b: Bytes)
    ensures |b| == 8
  {
    ToBytes(Unsigned(x), 8)
  }

  function Le32(x: u32): (b: Bytes)
    ensures |b| == 4
  {
    ToBytes(x, 4)
  }

  function Le16(x: u16): (b: Bytes)
    ensures |b| == 2
  {
    ToBytes(x, 2)
  }

  function I64At(b: Bytes): i64
    requires |b| == 8
  {
    Widths();
    Signed(FromBytes(b))
  }

  function U32At(b: Bytes): u32
    requires |b| == 4
  {
    Widths();
    FromBytes(b)
  }

  function U16At(b: Bytes): u16
    requires |b| == 2
  {
    Widths();
    FromBytes(b)
  }

  /** The value of four bytes, the least significant first. */
  function Quad(b: Bytes): int
    requires |b| >= 4
  {
    (b[0] as int) + 0x100 * (b[1] as int) + 0x1_0000 * (b[2] as int) + 0x100_0000 * (b[3] as int)
  }

  lemma {:induction false} TwoBytes(b: Bytes)
    requires |b| >= 2
    ensures FromBytes(b) == (b[0] as int) + 0x100 * (b[1] as int) + 0x1_0000 * FromBytes(b[2..])
  {
    assert b[1..][1..] == b[2..];
  }

  lemma {:induction false} FourBytes(b: Bytes)
    requires |b| >= 4
    ensures FromBytes(b) == Quad(b) + 0x1_0000_0000 * FromBytes(b[4..])
  {
    TwoBytes(b);
    TwoBytes(b[2..]);
    assert b[2..][2..] == b[4..];
  }

  /** The least significant byte comes first; the top bit of the last byte of an i64 is its sign. */
  lemma LeastFirst(b: Bytes)
    ensures |b| == 2 ==> U16At(b) == (b[0] as int) + 0x100 * (b[1] as int)
    ensures |b| == 4 ==> U32At(b) == Quad(b)
    ensures |b| == 8 ==>
              I64At(b) == Quad(b) + 0x1_0000_0000 * Quad(b[4..]) - (if b[7] < 0x80 then 0 else 0x1_0000_0000_0000_0000)
  {
    if |b| == 2 {
      TwoBytes(b);
    } else if |b| == 4 {
      FourBytes(b);
    } else if |b| == 8 {
      FourBytes(b);
      FourBytes(b[4..]);
      assert b[4..][3] == b[7];
    }
  }

  lemma IntegersRoundTrip(x: i64, y: u32, z: u16)
    ensures I64At(Le64(x)) == x && U32At(Le32(y)) == y && U16At(Le16(z)) == z
  {
    Widths();
    FromToBytes(Unsigned(x), 8);
    FromToBytes(y, 4);
    FromToBytes(z, 2);
  }

  lemma Bytes64RoundTrip(b: Bytes)
    requires |b| == 8
    ensures Le64(I64At(b)) == b
  {
    Widths();
    ToFromBytes(b);
  }

  lemma Bytes32RoundTrip(b: Bytes)
    requires |b| == 4
    ensures Le32(U32At(b)) == b
  {
    ToFromBytes(b);
  }

  lemma Bytes16RoundTrip(b: Bytes)
    requires |b| == 2
    ensures Le16(U16At(b)) == b
  {
    ToFromBytes(b);
  }
}
