/**
 * The CRC-8 that guards every EEPROM slot: the Dallas/Maxim 1-Wire CRC
 * (reflected polynomial 0x8C) started from the non-standard seed 0xA5,
 * computed bit by bit, least significant bit first.
 */
module Crc8 {
  /** Seed of every slot checksum. */
  const Seed: bv8 := 0xA5
  /** Reflected form of the polynomial x^8 + x^5 + x^4 + 1. */
  const Poly: bv8 := 0x8C

  /** One inner-loop round: shift the register right and fold in the polynomial
      when the low bits of register and data differ. */
  function Step(crc: bv8, data: bv8): (r: bv8)
    ensures r & 0x80 != 0 <==> (crc ^ data) & 1 != 0
    ensures r & 0x73 == (crc >> 1) & 0x73
  {
    var sum := (crc ^ data) & 1;
    if sum != 0 then (crc >> 1) ^ Poly else crc >> 1
  }

  /** `n` rounds, the data shifting right after each. */
  function Bits(crc: bv8, data: bv8, n: nat): bv8
    decreases n
  {
    if n == 0 then crc else Bits(Step(crc, data), data >> 1, n - 1)
  }

  /** The register after absorbing one data byte. */
  function Byte(crc: bv8, data: bv8): bv8 {
    Bits(crc, data, 8)
  }

  /** The register after absorbing `bytes` in order, starting from `crc`. */
  function Fold(crc: bv8, bytes: seq<bv8>): bv8
    decreases |bytes|
  {
    if |bytes| == 0 then crc else Fold(Byte(crc, bytes[0]), bytes[1..])
  }

  /** The checksum of a slot's data bytes. */
  function Checksum(bytes: seq<bv8>): bv8 {
    Fold(Seed, bytes)
  }

  // ---------------------------------------------------------------------
  // The register seen as eight independent bits: the CRC is linear over
  // GF(2), which the bit view lets the solver see without bit-blasting
  // long chains of shifts and exclusive ors.

  datatype Reg = Reg(b0: bool, b1: bool, b2: bool, b3: bool, b4: bool, b5: bool, b6: bool, b7: bool)

  const Zero := Reg(false, false, false, false, false, false, false, false)

  function Xor(x: Reg, y: Reg): Reg {
    Reg(x.b0 != y.b0, x.b1 != y.b1, x.b2 != y.b2, x.b3 != y.b3,
        x.b4 != y.b4, x.b5 != y.b5, x.b6 != y.b6, x.b7 != y.b7)
  }

  function Shr(x: Reg): Reg {
    Reg(x.b1, x.b2, x.b3, x.b4, x.b5, x.b6, x.b7, false)
  }

  /** Step on bits: 0x8C flips bits 2, 3 and 7 of the shifted register. */
  function RegStep(c: Reg, d: Reg): Reg {
    var s := Shr(c);
    if c.b0 != d.b0 then Reg(s.b0, s.b1, !s.b2, !s.b3, s.b4, s.b5, s.b6, true) else s
  }

  function RegBits(c: Reg, d: Reg, n: nat): Reg
    decreases n
  {
    if n == 0 then c else RegBits(RegStep(c, d), Shr(d), n - 1)
  }

  function ShrN(d: Reg, n: nat): Reg
    decreases n
  {
    if n == 0 then d else ShrN(Shr(d), n - 1)
  }

  function ToReg(x: bv8): Reg {
    Reg(x & 1 != 0, x & 2 != 0, x & 4 != 0, x & 8 != 0,
        x & 16 != 0, x & 32 != 0, x & 64 != 0, x & 128 != 0)
  }

  lemma ToRegInjective(x: bv8, y: bv8)
    requires ToReg(x) == ToReg(y)
    ensures x == y
  {
  }

  lemma StepAsReg(c: bv8, d: bv8)
    ensures ToReg(Step(c, d)) == RegStep(ToReg(c), ToReg(d))
    ensures ToReg(d >> 1) == Shr(ToReg(d))
  {
  }

  lemma {:induction false} BitsAsReg(c: bv8, d: bv8, n: nat)
    ensures ToReg(Bits(c, d, n)) == RegBits(ToReg(c), ToReg(d), n)
    decreases n
  {
    if n > 0 {
      StepAsReg(c, d);
      BitsAsReg(Step(c, d), d >> 1, n - 1);
    }
  }

  lemma RegStepXor(c: Reg, d: Reg)
    ensures Xor(RegStep(c, d), Shr(d)) == RegStep(Xor(c, d), Zero)
  {
    assert Xor(Shr(c), Shr(d)) == Shr(Xor(c, d));
  }

  /** Linearity: absorbing data `d` into register `c` is the same as absorbing
      zero bits into `c ^ d`, up to the data bits still waiting to be shifted in. */
  lemma {:induction false} RegBitsXor(c: Reg, d: Reg, n: nat)
    ensures Xor(RegBits(c, d, n), ShrN(d, n)) == RegBits(Xor(c, d), Zero, n)
    decreases n
  {
    if n > 0 {
      RegStepXor(c, d);
      RegBitsXor(RegStep(c, d), Shr(d), n - 1);
      assert Shr(Zero) == Zero;
    }
  }

  lemma RegStepZeroInjective(x: Reg, y: Reg)
    requires RegStep(x, Zero) == RegStep(y, Zero)
    ensures x == y
  {
    RegStepZeroBits(x);
    RegStepZeroBits(y);
  }

  /** Bit 7 of a zero-data round is the bit shifted out; the other bits are the
      shifted register with bits 2 and 3 flipped by it. */
  lemma RegStepZeroBits(x: Reg)
    ensures var r := RegStep(x, Zero);
      r.b7 == x.b0 && r.b0 == x.b1 && r.b1 == x.b2 && r.b2 == (x.b3 != x.b0) &&
      r.b3 == (x.b4 != x.b0) && r.b4 == x.b5 && r.b5 == x.b6 && r.b6 == x.b7
  {
  }

  lemma {:induction false} RegBitsZeroInjective(x: Reg, y: Reg, n: nat)
    requires RegBits(x, Zero, n) == RegBits(y, Zero, n)
    ensures x == y
    decreases n
  {
    if n > 0 {
      assert Shr(Zero) == Zero;
      RegBitsZeroInjective(RegStep(x, Zero), RegStep(y, Zero), n - 1);
      RegStepZeroInjective(x, y);
    }
  }

  /** The register after one byte depends only on `crc ^ data`. */
  lemma ByteAsReg(c: bv8, d: bv8)
    ensures ToReg(Byte(c, d)) == RegBits(Xor(ToReg(c), ToReg(d)), Zero, 8)
  {
    var r := ToReg(d);
    BitsAsReg(c, d, 8);
    RegBitsXor(ToReg(c), r, 8);
    ShrEight(r);
  }

  /** Eight shifts empty the register. */
  lemma ShrEight(d: Reg)
    ensures ShrN(d, 8) == Zero
  {
    var d1 := Shr(d);
    var d2 := Shr(d1);
    var d3 := Shr(d2);
    var d4 := Shr(d3);
    var d5 := Shr(d4);
    var d6 := Shr(d5);
    var d7 := Shr(d6);
    assert ShrN(d7, 1) == Shr(d7) == Zero;
    assert ShrN(d5, 3) == ShrN(d6, 2) == ShrN(d7, 1);
    assert ShrN(d2, 6) == ShrN(d3, 5) == ShrN(d4, 4) == ShrN(d5, 3);
    assert ShrN(d, 8) == ShrN(d1, 7) == ShrN(d2, 6);
  }

  /** A changed data byte always changes the register. */
  lemma ByteInjectiveInData(c: bv8, d: bv8, e: bv8)
    requires Byte(c, d) == Byte(c, e)
    ensures d == e
  {
    ByteAsReg(c, d);
    ByteAsReg(c, e);
    RegBitsZeroInjective(Xor(ToReg(c), ToReg(d)), Xor(ToReg(c), ToReg(e)), 8);
    assert ToReg(d) == ToReg(e);
    ToRegInjective(d, e);
  }

  /** Two different registers stay different after the same data byte. */
  lemma ByteInjectiveInState(c: bv8, c': bv8, d: bv8)
    requires Byte(c, d) == Byte(c', d)
    ensures c == c'
  {
    ByteAsReg(c, d);
    ByteAsReg(c', d);
    RegBitsZeroInjective(Xor(ToReg(c), ToReg(d)), Xor(ToReg(c'), ToReg(d)), 8);
    assert ToReg(c) == ToReg(c');
    ToRegInjective(c, c');
  }

  lemma {:induction false} FoldInjectiveInState(c: bv8, c': bv8, bytes: seq<bv8>)
    requires Fold(c, bytes) == Fold(c', bytes)
    ensures c == c'
    decreases |bytes|
  {
    if |bytes| > 0 {
      FoldInjectiveInState(Byte(c, bytes[0]), Byte(c', bytes[0]), bytes[1..]);
      ByteInjectiveInState(c, c', bytes[0]);
    }
  }

  /** Every single-byte corruption of a slot's data changes its checksum. */
  lemma {:induction false} SingleByteErrorDetected(c: bv8, a: seq<bv8>, b: seq<bv8>, i: nat)
    requires |a| == |b| && i < |a| && a[i] != b[i]
    requires forall j :: 0 <= j < |a| && j != i ==> a[j] == b[j]
    ensures Fold(c, a) != Fold(c, b)
    decreases i
  {
    if i == 0 {
      assert a[1..] == b[1..];
      if Fold(c, a) == Fold(c, b) {
        FoldInjectiveInState(Byte(c, a[0]), Byte(c, b[0]), a[1..]);
        ByteInjectiveInData(c, a[0], b[0]);
      }
    } else {
      SingleByteErrorDetected(Byte(c, a[0]), a[1..], b[1..], i - 1);
    }
  }

  lemma {:induction false} RegBitsZeroZero(n: nat)
    ensures RegBits(Zero, Zero, n) == Zero
    decreases n
  {
    if n > 0 {
      assert RegStep(Zero, Zero) == Zero && Shr(Zero) == Zero;
      RegBitsZeroZero(n - 1);
    }
  }

  /** Absorbing the register's own value clears it. */
  lemma ByteSelf(x: bv8)
    ensures Byte(x, x) == 0
  {
    ByteAsReg(x, x);
    assert Xor(ToReg(x), ToReg(x)) == Zero;
    RegBitsZeroZero(8);
    ToRegInjective(Byte(x, x), 0);
  }

  lemma {:induction false} FoldAppend(c: bv8, bytes: seq<bv8>, y: bv8)
    ensures Fold(c, bytes + [y]) == Byte(Fold(c, bytes), y)
    decreases |bytes|
  {
    if |bytes| > 0 {
      assert (bytes + [y])[1..] == bytes[1..] + [y];
      FoldAppend(Byte(c, bytes[0]), bytes[1..], y);
    }
  }

  /** A slot whose last byte is the checksum of the others, and only such a slot,
      leaves a zero register when all of its bytes are run through the CRC. */
  lemma ResidueZero(c: bv8, bytes: seq<bv8>, y: bv8)
    ensures Fold(c, bytes + [y]) == 0 <==> y == Fold(c, bytes)
  {
    var x := Fold(c, bytes);
    FoldAppend(c, bytes, y);
    ByteSelf(x);
    if Byte(x, y) == 0 {
      ByteInjectiveInData(x, y, x);
    }
  }
}
