/** The 32-bit CRC-32C register: its shifts, their linearity, and the textbook division
    by the generator that they perform with all bits reversed. */
module CrcRegister {

  /** The CRC-32C generator 0x1EDC6F41 (section 12.1 of RFC 3720), bits reversed. */
  const POLY: bv32 := 0x82F63B78

  /** One shift of the reflected register. */
  function Shift(c: bv32): bv32
  {
    if c & 1 == 1 then (c >> 1) ^ POLY else c >> 1
  }

  function Shift2(c: bv32): bv32
  {
    Shift(Shift(c))
  }

  function Shift4(c: bv32): bv32
  {
    Shift2(Shift2(c))
  }

  function Shift8(c: bv32): bv32
  {
    Shift4(Shift4(c))
  }

  // ----- linearity -----

  /** Exclusive or, named so that proofs may treat it as a plain function. */
  function Xor(x: bv32, y: bv32): bv32
  {
    x ^ y
  }

  lemma OddOdd(x: bv32, y: bv32)
    requires x & 1 == 1 && y & 1 == 1
    ensures Shift(x ^ y) == Shift(x) ^ Shift(y)
  {
  }

  lemma OddEven(x: bv32, y: bv32)
    requires x & 1 == 1 && y & 1 != 1
    ensures Shift(x ^ y) == Shift(x) ^ Shift(y)
  {
  }

  lemma EvenOdd(x: bv32, y: bv32)
    requires x & 1 != 1 && y & 1 == 1
    ensures Shift(x ^ y) == Shift(x) ^ Shift(y)
  {
  }

  lemma EvenEven(x: bv32, y: bv32)
    requires x & 1 != 1 && y & 1 != 1
    ensures Shift(x ^ y) == Shift(x) ^ Shift(y)
  {
  }

  lemma ShiftLinear(x: bv32, y: bv32)
    ensures Shift(Xor(x, y)) == Xor(Shift(x), Shift(y))
  {
    hide Shift;
    if x & 1 == 1 {
      if y & 1 == 1 {
        OddOdd(x, y);
      } else {
        OddEven(x, y);
      }
    } else if y & 1 == 1 {
      EvenOdd(x, y);
    } else {
      EvenEven(x, y);
    }
  }

  lemma Shift8Linear(x: bv32, y: bv32)
    ensures Shift8(Xor(x, y)) == Xor(Shift8(x), Shift8(y))
  {
    hide Shift, Xor;
    var a, b := x, y;
    ShiftLinear(a, b);
    a, b := Shift(a), Shift(b);
    ShiftLinear(a, b);
    a, b := Shift(a), Shift(b);
    ShiftLinear(a, b);
    a, b := Shift(a), Shift(b);
    ShiftLinear(a, b);
    a, b := Shift(a), Shift(b);
    ShiftLinear(a, b);
    a, b := Shift(a), Shift(b);
    ShiftLinear(a, b);
    a, b := Shift(a), Shift(b);
    ShiftLinear(a, b);
    a, b := Shift(a), Shift(b);
    ShiftLinear(a, b);
  }

  lemma ShiftEven(h: bv32)
    requires h & 1 == 0
    ensures Shift(h) == h >> 1
  {
  }

  lemma Shift2High(h: bv32)
    requires h & 3 == 0
    ensures Shift2(h) == h >> 2
  {
    hide Shift;
    ShiftEven(h);
    ShiftEven(h >> 1);
  }

  lemma Shift4High(h: bv32)
    requires h & 0xF == 0
    ensures Shift4(h) == h >> 4
  {
    hide Shift2;
    Shift2High(h);
    Shift2High(h >> 2);
  }

  /** Shifting out zero bits only moves the rest down. */
  lemma Shift8High(h: bv32)
    requires h & 0xFF == 0
    ensures Shift8(h) == h >> 8
  {
    hide Shift4;
    Shift4High(h);
    Shift4High(h >> 4);
  }

  /** Bits above those consumed pass through unchanged. */
  lemma Shift8Above(x: bv32, w: bv32)
    requires w < 0x100_0000
    ensures Shift8(Xor(x, w << 8)) == Xor(Shift8(x), w)
  {
    hide Shift8, Xor;
    UpAndDown(w);
    Shift8Linear(x, w << 8);
    Shift8High(w << 8);
  }

  lemma UpAndDown(w: bv32)
    requires w < 0x100_0000
    ensures (w << 8) & 0xFF == 0 && (w << 8) >> 8 == w
  {
  }

  // ----- the register never forgets -----

  function Unshift(c: bv32): bv32
  {
    if c & 0x80000000 != 0 then ((c ^ POLY) << 1) | 1 else c << 1
  }

  lemma UnshiftInverts(c: bv32)
    ensures Unshift(Shift(c)) == c
  {
  }

  lemma Shift2Injective(x: bv32, y: bv32)
    requires Shift2(x) == Shift2(y)
    ensures x == y
  {
    hide Shift, Unshift;
    UnshiftInverts(Shift(x));
    UnshiftInverts(Shift(y));
    UnshiftInverts(x);
    UnshiftInverts(y);
  }

  /** Eight shifts are a bijection on the 32-bit states. */
  lemma Shift8Injective(x: bv32, y: bv32)
    requires Shift8(x) == Shift8(y)
    ensures x == y
  {
    hide Shift2;
    Shift2Injective(Shift2(Shift2(Shift2(x))), Shift2(Shift2(Shift2(y))));
    Shift2Injective(Shift2(Shift2(x)), Shift2(Shift2(y)));
    Shift2Injective(Shift2(x), Shift2(y));
    Shift2Injective(x, y);
  }

  // ----- the textbook division -----

  const GENERATOR: bv32 := 0x1EDC6F41

  /** The bits of a register in reverse order: bit k goes to bit 31 - k. */
  function Mirror(x: bv32): bv32
  {
    (((x >> 0) & 1) << 31) | (((x >> 1) & 1) << 30) | (((x >> 2) & 1) << 29) | (((x >> 3) & 1) << 28)
    | (((x >> 4) & 1) << 27) | (((x >> 5) & 1) << 26) | (((x >> 6) & 1) << 25) | (((x >> 7) & 1) << 24)
    | (((x >> 8) & 1) << 23) | (((x >> 9) & 1) << 22) | (((x >> 10) & 1) << 21) | (((x >> 11) & 1) << 20)
    | (((x >> 12) & 1) << 19) | (((x >> 13) & 1) << 18) | (((x >> 14) & 1) << 17) | (((x >> 15) & 1) << 16)
    | (((x >> 16) & 1) << 15) | (((x >> 17) & 1) << 14) | (((x >> 18) & 1) << 13) | (((x >> 19) & 1) << 12)
    | (((x >> 20) & 1) << 11) | (((x >> 21) & 1) << 10) | (((x >> 22) & 1) << 9) | (((x >> 23) & 1) << 8)
    | (((x >> 24) & 1) << 7) | (((x >> 25) & 1) << 6) | (((x >> 26) & 1) << 5) | (((x >> 27) & 1) << 4)
    | (((x >> 28) & 1) << 3) | (((x >> 29) & 1) << 2) | (((x >> 30) & 1) << 1) | (((x >> 31) & 1) << 0)
  }

  /** One division step, most significant bit first. */
  function Divide(r: bv32): bv32
  {
    if r & 0x80000000 != 0 then (r << 1) ^ GENERATOR else r << 1
  }

  /** One data bit enters at the top, and the division makes one step. */
  function DivideBit(r: bv32, bit: bv32): bv32
  {
    Divide(r ^ (bit << 31))
  }

  function Divide2(r: bv32, bits: bv32): bv32
  {
    DivideBit(DivideBit(r, bits & 1), (bits >> 1) & 1)
  }

  function Divide4(r: bv32, bits: bv32): bv32
  {
    Divide2(Divide2(r, bits), bits >> 2)
  }

  /** The bits of a byte enter least significant first. */
  function DivideByte(r: bv32, bits: bv32): bv32
  {
    Divide4(Divide4(r, bits), bits >> 4)
  }

  lemma MirrorLinear(x: bv32, y: bv32)
    ensures Mirror(x ^ y) == Mirror(x) ^ Mirror(y)
  {
  }

  lemma MirrorBit(bit: bv32)
    requires bit == 0 || bit == 1
    ensures Mirror(bit) == bit << 31
  {
  }

  lemma MirrorShifted(x: bv32)
    ensures Mirror(x >> 1) == Mirror(x) << 1
  {
  }

  predicate IsOdd(x: bv32)
  {
    x & 1 == 1
  }

  predicate HasTop(x: bv32)
  {
    x & 0x80000000 != 0
  }

  lemma MirrorEnds(x: bv32)
    ensures IsOdd(x) <==> HasTop(Mirror(x))
  {
  }

  lemma MirrorPoly()
    ensures Mirror(POLY) == GENERATOR
  {
  }

  lemma OddStep(s: bv32, r: bv32)
    requires IsOdd(s) && HasTop(r)
    ensures Shift(s) == Xor(s >> 1, POLY) && Divide(r) == Xor(r << 1, GENERATOR)
  {
  }

  lemma EvenStep(s: bv32, r: bv32)
    requires !IsOdd(s) && !HasTop(r)
    ensures Shift(s) == s >> 1 && Divide(r) == r << 1
  {
  }

  /** One shift of the reflected register is one division step of the mirrored one. */
  lemma OddIsDivision(s: bv32)
    requires IsOdd(s)
    ensures Mirror(Shift(s)) == Divide(Mirror(s))
  {
    hide Mirror, Shift, Divide, Xor, IsOdd, HasTop;
    MirrorShifted(s);
    MirrorEnds(s);
    MirrorPoly();
    MirrorXor(s >> 1, POLY);
    OddStep(s, Mirror(s));
  }

  lemma EvenIsDivision(s: bv32)
    requires !IsOdd(s)
    ensures Mirror(Shift(s)) == Divide(Mirror(s))
  {
    hide Mirror, Shift, Divide, IsOdd, HasTop;
    MirrorShifted(s);
    MirrorEnds(s);
    EvenStep(s, Mirror(s));
  }

  lemma MirrorXor(x: bv32, y: bv32)
    ensures Mirror(Xor(x, y)) == Xor(Mirror(x), Mirror(y))
  {
    hide Mirror;
    MirrorLinear(x, y);
  }

  lemma ShiftBitIsDivision(c: bv32, bit: bv32)
    requires bit == 0 || bit == 1
    ensures Mirror(Shift(Xor(c, bit))) == DivideBit(Mirror(c), bit)
  {
    hide Mirror, Shift, Divide;
    MirrorLinear(c, bit);
    MirrorBit(bit);
    if IsOdd(c ^ bit) {
      OddIsDivision(c ^ bit);
    } else {
      EvenIsDivision(c ^ bit);
    }
  }

  /** Consuming the lowest data bit leaves the others to later shifts. */
  lemma ShiftOneBit(c: bv32, b: bv32)
    ensures Shift(c ^ b) ^ (b >> 1) == Shift(c ^ (b & 1))
  {
  }

  /** What is left of the register once the k lowest data bits have entered. */
  function Left(c: bv32, b: bv32): bv32
  {
    Shift(Xor(c, b & 1))
  }

  lemma LeftIs(c: bv32, b: bv32)
    ensures Shift(Xor(c, b)) == Xor(Left(c, b), b >> 1)
  {
    ShiftOneBit(c, b);
  }

  lemma TwoBits(c: bv32, b: bv32)
    ensures exists r :: Shift2(Xor(c, b)) == Xor(r, b >> 2) && Mirror(r) == Divide2(Mirror(c), b)
  {
    hide Mirror, Shift, DivideBit, Xor;
    LeftIs(c, b);
    LeftIs(Left(c, b), b >> 1);
    LowBit(b);
    LowBit(b >> 1);
    ShiftBitIsDivision(c, b & 1);
    ShiftBitIsDivision(Left(c, b), (b >> 1) & 1);
    TwoShifts(b);
    var r := Left(Left(c, b), b >> 1);
    assert Shift2(Xor(c, b)) == Xor(r, b >> 2) && Mirror(r) == Divide2(Mirror(c), b);
  }

  lemma LowBit(b: bv32)
    ensures b & 1 == 0 || b & 1 == 1
  {
  }

  lemma TwoShifts(b: bv32)
    ensures (b >> 1) >> 1 == b >> 2 && (b >> 2) >> 2 == b >> 4 && (b >> 4) >> 4 == b >> 8
  {
  }

  lemma FourBits(c: bv32, b: bv32)
    ensures exists r :: Shift4(Xor(c, b)) == Xor(r, b >> 4) && Mirror(r) == Divide4(Mirror(c), b)
  {
    hide Mirror, Shift2, Divide2, Xor;
    TwoBits(c, b);
    var r1 :| Shift2(Xor(c, b)) == Xor(r1, b >> 2) && Mirror(r1) == Divide2(Mirror(c), b);
    TwoBits(r1, b >> 2);
    var r :| Shift2(Xor(r1, b >> 2)) == Xor(r, (b >> 2) >> 2) && Mirror(r) == Divide2(Mirror(r1), b >> 2);
    TwoShifts(b);
    assert Shift4(Xor(c, b)) == Xor(r, b >> 4) && Mirror(r) == Divide4(Mirror(c), b);
  }

  /** Eight shifts with a byte folded in are eight division steps on the mirrored register. */
  lemma ByteIsDivision(c: bv32, b: bv32)
    requires b < 256
    ensures Mirror(Shift8(Xor(c, b))) == DivideByte(Mirror(c), b)
  {
    hide Mirror, Shift4, Divide4, Xor;
    FourBits(c, b);
    var r1 :| Shift4(Xor(c, b)) == Xor(r1, b >> 4) && Mirror(r1) == Divide4(Mirror(c), b);
    FourBits(r1, b >> 4);
    var r :| Shift4(Xor(r1, b >> 4)) == Xor(r, (b >> 4) >> 4) && Mirror(r) == Divide4(Mirror(r1), b >> 4);
    TwoShifts(b);
    NothingLeft(r, b);
  }

  lemma NothingLeft(r: bv32, b: bv32)
    requires b < 256
    ensures Xor(r, (b >> 4) >> 4) == r
  {
  }
}
