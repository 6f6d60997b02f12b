/** Fixed-width big-endian integers, as both the Rust supervisor and the Python worker write them. */
module BigEndian {
  import opened Common

  function Pow256(n: nat): (r: nat)
    ensures r > 0
  {
    if n == 0 then 1 else 256 * Pow256(n - 1)
  }

  function Encode(v: nat, n: nat): (r: Bytes)
    ensures |r| == n
  {
    if n == 0 then [] else Encode(v / 256, n - 1) + [v % 256]
  }

  function Decode(b: Bytes): (v: nat)
    ensures v < Pow256(|b|)
  {
    if b == [] then 0 else Decode(b[..|b| - 1]) * 256 + b[|b| - 1]
  }

  lemma {:induction false} DecodeOfEncode(v: nat, n: nat)
    requires v < Pow256(n)
    ensures Decode(Encode(v, n)) == v
  {
    if n > 0 {
      DecodeOfEncode(v / 256, n - 1);
      assert Encode(v, n)[..n - 1] == Encode(v / 256, n - 1);
    }
  }

  lemma {:induction false} EncodeOfDecode(b: Bytes)
    ensures Encode(Decode(b), |b|) == b
  {
    if b != [] {
      EncodeOfDecode(b[..|b| - 1]);
      assert Decode(b) / 256 == Decode(b[..|b| - 1]) && Decode(b) % 256 == b[|b| - 1];
    }
  }

  /** Four bytes hold exactly a u32 and eight bytes exactly a u64. */
  lemma Widths()
    ensures Pow256(4) == U32_MAX + 1 && Pow256(8) == U64_MAX + 1
  {
    assert Pow256(1) == 256 && Pow256(2) == 0x1_0000 && Pow256(3) == 0x100_0000;
    assert Pow256(4) == 0x1_0000_0000 && Pow256(5) == 0x100_0000_0000;
    assert Pow256(6) == 0x1_0000_0000_0000 && Pow256(7) == 0x100_0000_0000_0000;
  }

  // ---- Byte by byte ----

  /** A 32-bit and a 64-bit number, most significant byte first. */
  function FourBytes(v: u32): (r: Bytes)
    ensures |r| == 4
  {
    [v / 0x100_0000, v / 0x1_0000 % 256, v / 0x100 % 256, v % 256]
  }

  function EightBytes(v: u64): (r: Bytes)
    ensures |r| == 8
  {
    FourBytes(v / 0x1_0000_0000) + FourBytes(v % 0x1_0000_0000)
  }

  lemma EncodesFour(v: u32)
    ensures Encode(v, 4) == FourBytes(v)
  {
    assert Encode(v / 0x100_0000, 1) == [v / 0x100_0000];
    assert v / 256 / 256 == v / 0x1_0000 && v / 256 / 256 / 256 == v / 0x100_0000;
    assert Encode(v / 0x1_0000, 2) == [v / 0x100_0000] + [v / 0x1_0000 % 256];
    assert Encode(v / 0x100, 3) == Encode(v / 0x1_0000, 2) + [v / 0x100 % 256];
  }

  lemma AddedAbove(low: nat, k: nat)
    ensures (low + 256 * k) / 256 == low / 256 + k && (low + 256 * k) % 256 == low % 256
  {
  }

  lemma LowHalf(v: u64)
    ensures var low := v % 0x1_0000_0000;
            && low % 256 == v % 256 && low / 0x100 % 256 == v / 0x100 % 256
            && low / 0x1_0000 % 256 == v / 0x1_0000 % 256 && low / 0x100_0000 == v / 0x100_0000 % 256
  {
    var low, high := v % 0x1_0000_0000, v / 0x1_0000_0000;
    assert v == low + 256 * (0x100_0000 * high);
    AddedAbove(low, 0x100_0000 * high);
    AddedAbove(low / 256, 0x1_0000 * high);
    AddedAbove(low / 256 / 256, 0x100 * high);
    assert v / 0x1_0000 == v / 256 / 256 && v / 0x100_0000 == v / 256 / 256 / 256;
    assert low / 0x1_0000 == low / 256 / 256 && low / 0x100_0000 == low / 256 / 256 / 256 < 256;
    AddedAbove(low / 256 / 256 / 256, high);
  }

  lemma EncodesEight(v: u64)
    ensures Encode(v, 8) == EightBytes(v)
  {
    EncodesFour(v / 0x1_0000_0000);
    LowHalf(v);
    var a, b, c := v / 0x100, v / 0x1_0000, v / 0x100_0000;
    assert a / 256 == b && b / 256 == c && c / 256 == v / 0x1_0000_0000;
    assert Encode(c, 5) == Encode(v / 0x1_0000_0000, 4) + [c % 256];
    assert Encode(b, 6) == Encode(c, 5) + [b % 256];
    assert Encode(a, 7) == Encode(b, 6) + [a % 256];
    assert Encode(v, 8) == Encode(a, 7) + [v % 256];
  }

  /** The number the first four bytes spell. */
  function FirstNumber(data: Bytes): nat
    requires |data| >= 4
  {
    var a: nat, b: nat, c: nat, d: nat := data[0], data[1], data[2], data[3];
    a * 0x100_0000 + b * 0x1_0000 + c * 0x100 + d
  }

  lemma FirstIsDecoded(data: Bytes)
    requires |data| >= 4
    ensures FirstNumber(data) == Decode(data[..4])
  {
    var b := data[..4];
    assert b[..3][..2][..1][..0] == [] && b[..3][..2][..1][0] == data[0];
    assert b[..3] == [data[0], data[1], data[2]] && b[..3][..2] == [data[0], data[1]] && b[..3][..2][..1] == [data[0]];
    var x: nat, y: nat, z: nat := data[0], data[1], data[2];
    assert Decode([data[0]]) == x;
    assert Decode([data[0], data[1]]) == x * 256 + y;
    assert Decode([data[0], data[1], data[2]]) == (x * 256 + y) * 256 + z;
  }
}
