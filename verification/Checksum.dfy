/** The journal checksum (persistence.rs): the CRC-32 of section 8 of RFC 1952, kept on 32-bit words,
    and the error patterns it always detects. */
module Checksum {
  import opened Common

  const POLYNOMIAL: bv32 := 0xEDB8_8320
  const ONES: bv32 := 0xFFFF_FFFF

  function Bit(v: nat): bv32 {
    if v % 2 == 1 then 1 else 0
  }

  function Append(w: bv32, bit: bv32): bv32 {
    (w << 1) | bit
  }

  /** The low `n` bits of a number as a word. */
  function Bits(v: nat, n: nat): bv32 {
    if n == 0 then 0 else Append(Bits(v / 2, n - 1), Bit(v))
  }

  /** A byte as a 32-bit word, bit by bit. */
  function Widen(b: u8): bv32 {
    Bits(b, 8)
  }

  /** One bit: shift right, folding the polynomial in when the bit shifted out is set. */
  function Shift(crc: bv32): bv32 {
    var mask: bv32 := 0 - (crc & 1);
    (crc >> 1) ^ (POLYNOMIAL & mask)
  }

  function Xor(a: bv32, b: bv32): bv32 {
    a ^ b
  }

  function Shifts(crc: bv32, n: nat): bv32 {
    if n == 0 then crc else Shift(Shifts(crc, n - 1))
  }

  function Absorb(crc: bv32, b: u8): bv32 {
    Shifts(Xor(crc, Widen(b)), 8)
  }

  function Fold(crc: bv32, bytes: Bytes): bv32 {
    if bytes == [] then crc else Absorb(Fold(crc, bytes[..|bytes| - 1]), bytes[|bytes| - 1])
  }

  function Crc(bytes: Bytes): bv32 {
    !Fold(ONES, bytes)
  }

  method Crc32(bytes: Bytes) returns (checksum: bv32)
    ensures checksum == Crc(bytes)
  {
    hide Widen, Shift, Xor;
    var crc := ONES;
    for i := 0 to |bytes|
      invariant crc == Fold(ONES, bytes[..i])
    {
      assert bytes[..i + 1][..i] == bytes[..i];
      crc := Xor(crc, Widen(bytes[i]));
      ghost var mixed := crc;
      for k := 0 to 8
        invariant crc == Shifts(mixed, k)
      {
        crc := Shift(crc);
      }
    }
    assert bytes[..|bytes|] == bytes;
    return !crc;
  }

  // ---- Every step is injective ----

  lemma ShiftInjective(a: bv32, b: bv32)
    ensures Shift(a) == Shift(b) ==> a == b
  {
  }

  lemma {:induction false} ShiftsInjective(a: bv32, b: bv32, n: nat)
    ensures Shifts(a, n) == Shifts(b, n) ==> a == b
  {
    if n > 0 {
      ShiftInjective(Shifts(a, n - 1), Shifts(b, n - 1));
      ShiftsInjective(a, b, n - 1);
    }
  }

  lemma ShiftOdd(crc: bv32)
    ensures crc & 1 == 1 ==> Shift(crc) == (crc >> 1) ^ POLYNOMIAL
    ensures crc & 1 == 0 ==> Shift(crc) == crc >> 1
  {
  }

  lemma XorBits(a: bv32, b: bv32)
    ensures (a ^ b) >> 1 == (a >> 1) ^ (b >> 1)
    ensures (a ^ b) & 1 == (a & 1) ^ (b & 1)
    ensures a & 1 == 0 || a & 1 == 1
  {
  }

  lemma ShiftLinear(a: bv32, b: bv32)
    ensures Shift(a ^ b) == Shift(a) ^ Shift(b)
  {
    hide Shift;
    ShiftOdd(a);
    ShiftOdd(b);
    ShiftOdd(a ^ b);
    XorBits(a, b);
    XorRearranged(a >> 1, b >> 1);
  }

  lemma XorRearranged(x: bv32, y: bv32)
    ensures (x ^ POLYNOMIAL) ^ y == (x ^ y) ^ POLYNOMIAL
    ensures x ^ (y ^ POLYNOMIAL) == (x ^ y) ^ POLYNOMIAL
    ensures (x ^ POLYNOMIAL) ^ (y ^ POLYNOMIAL) == x ^ y
  {
  }

  lemma {:induction false} ShiftsLinear(a: bv32, b: bv32, n: nat)
    ensures Shifts(Xor(a, b), n) == Xor(Shifts(a, n), Shifts(b, n))
  {
    if n > 0 {
      ShiftsLinear(a, b, n - 1);
      ShiftDistributes(Shifts(a, n - 1), Shifts(b, n - 1));
      hide Shift, Xor;
    }
  }

  lemma ShiftDistributes(a: bv32, b: bv32)
    ensures Shift(Xor(a, b)) == Xor(Shift(a), Shift(b))
  {
    ShiftLinear(a, b);
  }

  lemma XorCancels(a: bv32, b: bv32, w: bv32)
    ensures Xor(a, w) == Xor(b, w) ==> a == b
  {
  }

  /** Different running values stay different through any common suffix. */
  lemma {:induction false} FoldInjective(a: bv32, b: bv32, bytes: Bytes)
    ensures Fold(a, bytes) == Fold(b, bytes) ==> a == b
  {
    hide Widen, Shifts, Xor;
    if bytes != [] {
      var shorter := bytes[..|bytes| - 1];
      var w := Widen(bytes[|bytes| - 1]);
      ShiftsInjective(Xor(Fold(a, shorter), w), Xor(Fold(b, shorter), w), 8);
      XorCancels(Fold(a, shorter), Fold(b, shorter), w);
      FoldInjective(a, b, shorter);
    }
  }

  lemma {:induction false} FoldConcat(crc: bv32, x: Bytes, y: Bytes)
    ensures Fold(crc, x + y) == Fold(Fold(crc, x), y)
  {
    if y == [] {
      assert x + y == x;
    } else {
      FoldConcat(crc, x, y[..|y| - 1]);
      assert (x + y)[..|x + y| - 1] == x + y[..|y| - 1];
    }
  }

  // ---- Four bytes are one 32-bit word ----

  lemma {:induction false} ShiftsAdd(w: bv32, m: nat, n: nat)
    ensures Shifts(Shifts(w, m), n) == Shifts(w, m + n)
  {
    hide Shift;
    if n > 0 {
      ShiftsAdd(w, m, n - 1);
    }
  }

  lemma EightShifts(w: bv32)
    requires w & 0xFF == 0
    ensures Shift(Shift(Shift(Shift(Shift(Shift(Shift(Shift(w)))))))) == w >> 8
  {
  }

  lemma ShiftsUnrolled(w: bv32)
    ensures Shifts(w, 8) == Shift(Shift(Shift(Shift(Shift(Shift(Shift(Shift(w))))))))
  {
    hide Shift;
    var four := Shift(Shift(Shift(Shift(w))));
    assert Shifts(w, 0) == w && Shifts(w, 1) == Shift(w) && Shifts(w, 2) == Shift(Shift(w));
    assert Shifts(w, 3) == Shift(Shift(Shift(w))) && Shifts(w, 4) == four;
    assert Shifts(w, 5) == Shift(four) && Shifts(w, 6) == Shift(Shift(four));
    assert Shifts(w, 7) == Shift(Shift(Shift(four)));
  }

  /** Eight shifts of a word whose low byte is clear just move it down. */
  lemma CleanShift(w: bv32)
    requires w & 0xFF == 0
    ensures Shifts(w, 8) == w >> 8
  {
    EightShifts(w);
    ShiftsUnrolled(w);
  }

  /** `w` has no bit outside `mask`. */
  predicate Under(w: bv32, mask: bv32) {
    w & !mask == 0
  }

  function Ones(n: nat): bv32 {
    if n == 0 then 0 else Append(Ones(n - 1), 1)
  }

  lemma AppendUnder(w: bv32, bit: bv32, mask: bv32)
    requires Under(w, mask) && Under(bit, 1)
    ensures Under(Append(w, bit), Append(mask, 1))
  {
  }

  lemma BitUnder(v: nat)
    ensures Under(Bit(v), 1)
  {
  }

  lemma NothingUnder(mask: bv32)
    ensures Under(0, mask)
  {
  }

  lemma UnderTransitive(w: bv32, mask: bv32, wider: bv32)
    requires Under(w, mask) && Under(mask, wider)
    ensures Under(w, wider)
  {
  }

  lemma {:induction false} BitsUnder(v: nat, n: nat)
    ensures Under(Bits(v, n), Ones(n))
  {
    hide Under, Append, Bit;
    if n > 0 {
      BitsUnder(v / 2, n - 1);
      BitUnder(v);
      AppendUnder(Bits(v / 2, n - 1), Bit(v), Ones(n - 1));
    } else {
      NothingUnder(Ones(0));
    }
  }

  lemma OnesOfByte(n: nat)
    requires n <= 8
    ensures Under(Ones(n), 0xFF)
  {
    assert Ones(0) == 0 && Ones(1) == 1 && Ones(2) == 3 && Ones(3) == 7 && Ones(4) == 15;
    assert Ones(5) == 31 && Ones(6) == 63 && Ones(7) == 127 && Ones(8) == 255;
  }

  /** A word with only its low eight bits. */
  predicate IsByte(w: bv32) {
    Under(w, 0xFF)
  }

  lemma BitsAreAByte(v: nat, n: nat)
    requires n <= 8
    ensures IsByte(Bits(v, n))
  {
    hide Under;
    BitsUnder(v, n);
    OnesOfByte(n);
    UnderTransitive(Bits(v, n), Ones(n), 0xFF);
  }

  lemma AppendSplits(x: bv32, p: bv32)
    requires IsByte(x) && Under(p, 1)
    ensures Append(x, p) & 1 == p
    ensures Append(x, p) >> 1 == x
  {
  }

  lemma AppendInjective(x: bv32, y: bv32, p: bv32, q: bv32)
    requires IsByte(x) && IsByte(y) && Under(p, 1) && Under(q, 1) && Append(x, p) == Append(y, q)
    ensures p == q && x == y
  {
    AppendSplits(x, p);
    AppendSplits(y, q);
    hide Append, IsByte, Under;
  }

  lemma BitInjective(v: nat, w: nat)
    ensures Bit(v) == Bit(w) ==> v % 2 == w % 2
  {
  }

  function Power2(n: nat): nat {
    if n == 0 then 1 else 2 * Power2(n - 1)
  }

  lemma {:induction false} BitsInjective(v: nat, w: nat, n: nat)
    requires n <= 8 && v < Power2(n) && w < Power2(n) && Bits(v, n) == Bits(w, n)
    ensures v == w
  {
    hide Under, IsByte, Append, Bit;
    if n > 0 {
      BitsAreAByte(v / 2, n - 1);
      BitsAreAByte(w / 2, n - 1);
      BitUnder(v);
      BitUnder(w);
      AppendInjective(Bits(v / 2, n - 1), Bits(w / 2, n - 1), Bit(v), Bit(w));
      BitInjective(v, w);
      BitsInjective(v / 2, w / 2, n - 1);
    }
  }

  lemma WidenInjective(b: u8, c: u8)
    ensures Widen(b) == Widen(c) ==> b == c
  {
    assert Power2(4) == 16 && Power2(8) == 256;
    if Widen(b) == Widen(c) {
      BitsInjective(b, c, 8);
    }
  }

  function Up(w: bv32, bytes: nat): bv32 {
    if bytes == 0 then w else Up(w, bytes - 1) << 8
  }

  lemma UpIsClean(w: bv32, bytes: nat)
    requires IsByte(w) && 1 <= bytes <= 3
    ensures Up(w, bytes) & 0xFF == 0 && Up(w, bytes) >> 8 == Up(w, bytes - 1)
  {
    assert Up(w, 1) == w << 8;
    if bytes == 2 {
      assert Up(w, 2) == (w << 8) << 8;
    } else if bytes == 3 {
      assert Up(w, 2) == (w << 8) << 8;
      assert Up(w, 3) == ((w << 8) << 8) << 8;
    }
  }

  /** A byte moved up by whole bytes comes down by as many eights of shifts. */
  lemma {:induction false} UpThenDown(w: bv32, bytes: nat)
    requires IsByte(w) && bytes <= 3
    ensures Shifts(Up(w, bytes), 8 * bytes) == w
  {
    if bytes > 0 {
      UpIsClean(w, bytes);
      CleanShift(Up(w, bytes));
      UpThenDown(w, bytes - 1);
      ShiftsAdd(Up(w, bytes), 8, 8 * (bytes - 1));
    }
  }

  /** Absorbing a byte after `bytes` earlier ones is mixing it, moved up, into the first word. */
  lemma AbsorbEarlier(v: bv32, bytes: nat, b: u8)
    requires bytes <= 3
    ensures Absorb(Shifts(v, 8 * bytes), b) == Shifts(Xor(v, Up(Widen(b), bytes)), 8 * bytes + 8)
  {
    hide Bits, Xor, Shifts, Up, IsByte;
    BitsAreAByte(b, 8);
    UpThenDown(Widen(b), bytes);
    ShiftsLinear(v, Up(Widen(b), bytes), 8 * bytes);
    ShiftsAdd(Xor(v, Up(Widen(b), bytes)), 8 * bytes, 8);
  }

  /** Four bytes mixed into a word, the first one lowest. */
  function Pack(crc: bv32, s: Bytes): bv32
    requires |s| == 4
  {
    Xor(Xor(Xor(Xor(crc, Up(Widen(s[0]), 0)), Up(Widen(s[1]), 1)), Up(Widen(s[2]), 2)), Up(Widen(s[3]), 3))
  }

  lemma FoldIsPack(crc: bv32, s: Bytes)
    requires |s| == 4
    ensures Fold(crc, s) == Shifts(Pack(crc, s), 32)
  {
    hide Widen, Xor, Shifts, Up, Absorb;
    FoldOfFour(crc, s);
    var v1 := Xor(crc, Up(Widen(s[0]), 0));
    var v2 := Xor(v1, Up(Widen(s[1]), 1));
    var v3 := Xor(v2, Up(Widen(s[2]), 2));
    NoShifts(crc);
    AbsorbEarlier(crc, 0, s[0]);
    AbsorbEarlier(v1, 1, s[1]);
    AbsorbEarlier(v2, 2, s[2]);
    AbsorbEarlier(v3, 3, s[3]);
  }

  lemma NoShifts(w: bv32)
    ensures Shifts(w, 0) == w
  {
  }

  lemma FoldOfFour(crc: bv32, s: Bytes)
    requires |s| == 4
    ensures Fold(crc, s) == Absorb(Absorb(Absorb(Absorb(crc, s[0]), s[1]), s[2]), s[3])
  {
    hide Absorb;
    assert s[..3][..2] == s[..2] && s[..2][..1] == s[..1] && s[..1][..0] == [];
    assert Fold(crc, s[..1]) == Absorb(Fold(crc, s[..1][..0]), s[0]);
    assert Fold(crc, s[..2]) == Absorb(Fold(crc, s[..2][..1]), s[1]);
    assert Fold(crc, s[..3]) == Absorb(Fold(crc, s[..3][..2]), s[2]);
  }

  /** Four words as they are packed, the first one lowest. */
  function Packed(crc: bv32, w0: bv32, w1: bv32, w2: bv32, w3: bv32): bv32 {
    crc ^ w0 ^ (w1 << 8) ^ (w2 << 16) ^ (w3 << 24)
  }

  /** One byte of a packed word, without the running value it was mixed into. */
  function Unpack(packed: bv32, crc: bv32, lane: nat): bv32
    requires lane < 4
  {
    var word := packed ^ crc;
    if lane == 0 then word & 0xFF
    else if lane == 1 then (word >> 8) & 0xFF
    else if lane == 2 then (word >> 16) & 0xFF
    else (word >> 24) & 0xFF
  }

  lemma Unpacked0(crc: bv32, w0: bv32, w1: bv32, w2: bv32, w3: bv32)
    requires IsByte(w0) && IsByte(w1) && IsByte(w2) && IsByte(w3)
    ensures Unpack(Packed(crc, w0, w1, w2, w3), crc, 0) == w0
  {
  }

  lemma Unpacked1(crc: bv32, w0: bv32, w1: bv32, w2: bv32, w3: bv32)
    requires IsByte(w0) && IsByte(w1) && IsByte(w2) && IsByte(w3)
    ensures Unpack(Packed(crc, w0, w1, w2, w3), crc, 1) == w1
  {
  }

  lemma Unpacked2(crc: bv32, w0: bv32, w1: bv32, w2: bv32, w3: bv32)
    requires IsByte(w0) && IsByte(w1) && IsByte(w2) && IsByte(w3)
    ensures Unpack(Packed(crc, w0, w1, w2, w3), crc, 2) == w2
  {
  }

  lemma Unpacked3(crc: bv32, w0: bv32, w1: bv32, w2: bv32, w3: bv32)
    requires IsByte(w0) && IsByte(w1) && IsByte(w2) && IsByte(w3)
    ensures Unpack(Packed(crc, w0, w1, w2, w3), crc, 3) == w3
  {
  }

  lemma XorChain(crc: bv32, a: bv32, b: bv32, c: bv32, d: bv32, w1: bv32, w2: bv32, w3: bv32)
    requires b == w1 << 8 && c == w2 << 16 && d == w3 << 24
    ensures Xor(Xor(Xor(Xor(crc, a), b), c), d) == Packed(crc, a, w1, w2, w3)
  {
  }

  lemma UpShifts(w: bv32)
    requires IsByte(w)
    ensures Up(w, 0) == w && Up(w, 1) == w << 8 && Up(w, 2) == w << 16 && Up(w, 3) == w << 24
  {
    assert Up(w, 1) == w << 8;
    assert Up(w, 2) == (w << 8) << 8;
    assert Up(w, 3) == ((w << 8) << 8) << 8;
  }

  lemma PackIsPacked(crc: bv32, s: Bytes)
    requires |s| == 4
    ensures Pack(crc, s) == Packed(crc, Widen(s[0]), Widen(s[1]), Widen(s[2]), Widen(s[3]))
    ensures IsByte(Widen(s[0])) && IsByte(Widen(s[1])) && IsByte(Widen(s[2])) && IsByte(Widen(s[3]))
  {
    hide Bits, Xor, Up, IsByte, Packed;
    BitsAreAByte(s[0], 8);
    BitsAreAByte(s[1], 8);
    BitsAreAByte(s[2], 8);
    BitsAreAByte(s[3], 8);
    UpShifts(Widen(s[0]));
    UpShifts(Widen(s[1]));
    UpShifts(Widen(s[2]));
    UpShifts(Widen(s[3]));
    XorChain(crc, Up(Widen(s[0]), 0), Up(Widen(s[1]), 1), Up(Widen(s[2]), 2), Up(Widen(s[3]), 3),
             Widen(s[1]), Widen(s[2]), Widen(s[3]));
  }

  lemma PackInjective(crc: bv32, s: Bytes, t: Bytes)
    requires |s| == |t| == 4 && Pack(crc, s) == Pack(crc, t)
    ensures s == t
  {
    hide Widen, Unpack, IsByte, Pack, Packed;
    PackIsPacked(crc, s);
    PackIsPacked(crc, t);
    Unpacked0(crc, Widen(s[0]), Widen(s[1]), Widen(s[2]), Widen(s[3]));
    Unpacked0(crc, Widen(t[0]), Widen(t[1]), Widen(t[2]), Widen(t[3]));
    WidenInjective(s[0], t[0]);
    Unpacked1(crc, Widen(s[0]), Widen(s[1]), Widen(s[2]), Widen(s[3]));
    Unpacked1(crc, Widen(t[0]), Widen(t[1]), Widen(t[2]), Widen(t[3]));
    WidenInjective(s[1], t[1]);
    Unpacked2(crc, Widen(s[0]), Widen(s[1]), Widen(s[2]), Widen(s[3]));
    Unpacked2(crc, Widen(t[0]), Widen(t[1]), Widen(t[2]), Widen(t[3]));
    WidenInjective(s[2], t[2]);
    Unpacked3(crc, Widen(s[0]), Widen(s[1]), Widen(s[2]), Widen(s[3]));
    Unpacked3(crc, Widen(t[0]), Widen(t[1]), Widen(t[2]), Widen(t[3]));
    WidenInjective(s[3], t[3]);
  }

  // ---- What the checksum always detects ----

  /** Stretches of at most four bytes are told apart from any running value. */
  lemma {:induction false} StretchDetected(crc: bv32, s: Bytes, t: Bytes)
    requires |s| == |t| <= 4 && s != t
    ensures Fold(crc, s) != Fold(crc, t)
    decreases 4 - |s|
  {
    if |s| == 4 {
      FoldIsPack(crc, s);
      FoldIsPack(crc, t);
      ShiftsInjective(Pack(crc, s), Pack(crc, t), 32);
      if Pack(crc, s) == Pack(crc, t) {
        PackInjective(crc, s, t);
      }
    } else {
      var x: u8 := 0;
      assert (s + [x])[..|s|] == s && (t + [x])[..|s|] == t;
      StretchDetected(crc, s + [x], t + [x]);
      FoldConcat(crc, s, [x]);
      FoldConcat(crc, t, [x]);
    }
  }

  /** Two byte strings that differ, and only within four consecutive positions. */
  ghost predicate DifferWithinFour(a: Bytes, b: Bytes, at: nat, width: nat) {
    && |a| == |b| && at + width <= |a| && width <= 4 && a != b
    && a[..at] == b[..at] && a[at + width..] == b[at + width..]
  }

  /** The checksum changes whenever a payload changes only within four consecutive bytes. */
  lemma ShortErrorsDetected(a: Bytes, b: Bytes, at: nat, width: nat)
    requires DifferWithinFour(a, b, at, width)
    ensures Crc(a) != Crc(b)
  {
    hide Fold;
    var crc := Fold(ONES, a[..at]);
    var s, t := a[at..at + width], b[at..at + width];
    assert a == a[..at] + s + a[at + width..];
    assert b == b[..at] + t + b[at + width..];
    FoldConcat(ONES, a[..at] + s, a[at + width..]);
    FoldConcat(ONES, a[..at], s);
    FoldConcat(ONES, b[..at] + t, b[at + width..]);
    FoldConcat(ONES, b[..at], t);
    StretchDetected(crc, s, t);
    FoldInjective(Fold(crc, s), Fold(crc, t), a[at + width..]);
    ComplementInjective(Fold(ONES, a), Fold(ONES, b));
  }

  lemma ComplementInjective(a: bv32, b: bv32)
    ensures !a == !b ==> a == b
  {
  }

  // ---- A known value ----

  lemma Letters()
    ensures Widen(0x61) == 0x61 && Widen(0x62) == 0x62
  {
    assert Bits(0x61, 8) == Append(Bits(0x30, 7), 1) && Bits(0x62, 8) == Append(Bits(0x31, 7), 0);
    assert Bits(0x30, 7) == Append(Bits(0x18, 6), 0) && Bits(0x31, 7) == Append(Bits(0x18, 6), 1);
    assert Bits(0x18, 6) == Append(Bits(0xC, 5), 0) && Bits(0xC, 5) == Append(Bits(6, 4), 0) && Bits(6, 4) == Append(Bits(3, 3), 0);
    assert Bits(3, 3) == Append(Bits(1, 2), 1) && Bits(1, 2) == Append(Bits(0, 1), 1) && Bits(0, 1) == Append(Bits(0, 0), 0);
  }

  lemma FirstLetter()
    ensures Absorb(ONES, 0x61) == 0x1748_41BC
  {
    Letters();
    ShiftsUnrolled(0xFFFF_FF9E);
  }

  lemma SecondLetter()
    ensures Absorb(0x1748_41BC, 0x62) == 0x617C_B792
  {
    Letters();
    ShiftsUnrolled(0x1748_41DE);
  }

  /** The checksum of the two letters `ab` is the published one. */
  lemma KnownChecksum()
    ensures Crc([0x61, 0x62]) == 0x9E83_486D
  {
    hide Absorb;
    FirstLetter();
    SecondLetter();
    assert [0x61, 0x62][..1] == [0x61] && [0x61][..0] == [];
  }
}
