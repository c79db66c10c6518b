/** The streaming CRC-32C of odps/crc.py: the table-driven loop, the bit-serial register it
    computes, the textbook division behind both, and the errors the checksum detects. */
module Crc32c {
  import opened Text
  import opened CrcRegister
  import opened CrcTable

  type Octets = seq<bv8>

  // ----- the register over bytes -----

  function Byte(c: bv32, b: bv8): bv32
  {
    Shift8(Xor(c, b as bv32))
  }

  /** The bit-serial register after a byte string. */
  function Serial(c: bv32, data: Octets): bv32
    decreases |data|
  {
    if data == [] then c else Serial(Byte(c, data[0]), data[1..])
  }

  const INIT: bv32 := 0xFFFFFFFF

  function Checksum(data: Octets): bv32
  {
    Serial(INIT, data) ^ 0xFFFFFFFF
  }

  /** The division register after a byte string. */
  function DivideAll(r: bv32, data: Octets): bv32
    decreases |data|
  {
    if data == [] then r else DivideAll(DivideByte(r, data[0] as bv32), data[1..])
  }

  /** The reflected register is, bit for bit in reverse, the remainder of the textbook division
      by 0x1EDC6F41 in which each byte enters least significant bit first. */
  lemma {:induction false} SerialIsDivision(c: bv32, data: Octets)
    ensures Mirror(Serial(c, data)) == DivideAll(Mirror(c), data)
    decreases |data|
  {
    hide Mirror, Shift8, DivideByte, Xor;
    if data != [] {
      ByteIsDivision(c, data[0] as bv32);
      SerialIsDivision(Byte(c, data[0]), data[1..]);
    }
  }

  lemma {:induction false} SerialAppend(c: bv32, a: Octets, b: Octets)
    ensures Serial(c, a + b) == Serial(Serial(c, a), b)
    decreases |a|
  {
    hide Byte;
    if a == [] {
      assert a + b == b;
    } else {
      assert (a + b)[1..] == a[1..] + b;
      SerialAppend(Byte(c, a[0]), a[1..], b);
    }
  }

  // ----- the table step -----

  function LowByte(x: bv32): bv8
  {
    (x & 0xFF) as bv8
  }

  lemma SplitLow(x: bv32)
    ensures x == Xor(x & 0xFFFFFF00, LowByte(x) as bv32)
    ensures (x & 0xFFFFFF00) & 0xFF == 0 && (x & 0xFFFFFF00) >> 8 == x >> 8
  {
  }

  /** Eight shifts in one look-up: the low byte selects the entry, the rest moves down. */
  lemma Shift8ByTable(x: bv32)
    ensures Shift8(x) == Xor(x >> 8, Table(LowByte(x)))
  {
    hide Shift8, Table, Xor, LowByte;
    SplitLow(x);
    Shift8Linear(x & 0xFFFFFF00, LowByte(x) as bv32);
    Shift8High(x & 0xFFFFFF00);
    TableIsShifts(LowByte(x));
  }

  lemma TableStep(c: bv32, b: bv8)
    ensures (Table(LowByte(c ^ (b as bv32))) ^ (c >> 8)) & 0xFFFFFFFF == Byte(c, b)
  {
    hide Shift8, Table, LowByte;
    var x := c ^ (b as bv32);
    Shift8ByTable(x);
    assert x == Xor(c, b as bv32);
    TopBytes(c, b);
    MaskedXor(Table(LowByte(x)), c >> 8);
  }

  lemma TopBytes(c: bv32, b: bv8)
    ensures (c ^ (b as bv32)) >> 8 == c >> 8
  {
  }

  lemma MaskedXor(x: bv32, y: bv32)
    ensures (x ^ y) & 0xFFFFFFFF == Xor(y, x)
  {
  }

  lemma FullMask(x: bv32)
    ensures x & 0xFFFFFFFF == x
  {
  }

  // ----- the object -----

  /** A Python slice index: negative ones count from the end, all are clipped. */
  function Index(i: int, n: nat): (k: nat)
    ensures k <= n
  {
    if i < 0 then (if i + n < 0 then 0 else i + n) else if i > n then n else i
  }

  function Slice(buf: Octets, from: int, to: int): Octets
  {
    var lo, hi := Index(from, |buf|), Index(to, |buf|);
    if lo <= hi then buf[lo..hi] else []
  }

  /** The bytes an `update` call feeds; an absent or zero length stands for the buffer's length. */
  function Fed(buf: Octets, off: Option<int>, length: Option<int>): Octets
  {
    var o := if off.Some? then off.value else 0;
    var n := if length.Some? && length.value != 0 then length.value else |buf|;
    Slice(buf, o, o + n)
  }

  class Crc32c {
    var crc: bv32

    constructor ()
      ensures crc == INIT
    {
      crc := INIT;
    }

    method Update(buf: Octets, off: Option<int>, length: Option<int>)
      modifies this
      ensures crc == Serial(old(crc), Fed(buf, off, length))
      ensures off.None? && length.None? ==> crc == Serial(old(crc), buf)
    {
      hide Byte, Table, LowByte, Fed;
      FedWhole(buf, 0);
      var toCrc := Fed(buf, off, length);
      var c := crc;
      ghost var rest, final := toCrc, Serial(crc, toCrc);
      for i := 0 to |toCrc|
        invariant rest == toCrc[i..]
        invariant Serial(c, rest) == final
      {
        var b := toCrc[i];
        TableStep(c, b);
        rest := rest[1..];
        var tableIndex := LowByte(c ^ (b as bv32));
        c := (Table(tableIndex) ^ (c >> 8)) & 0xFFFFFFFF;
      }
      assert rest == [];
      SerialEmpty(c);
      FullMask(c);
      crc := c & 0xFFFFFFFF;
    }

    method Reset()
      modifies this
      ensures crc == INIT
    {
      crc := INIT;
    }

    function GetValue(): (v: bv32)
      reads this
      ensures forall data | crc == Serial(INIT, data) :: v == Checksum(data)
    {
      crc ^ 0xFFFFFFFF
    }
  }

  // ----- the checksum as a remainder -----

  lemma MirrorComplement(x: bv32)
    ensures (x ^ 0xFFFFFFFF) ^ 0xFFFFFFFF == x && Mirror(0xFFFFFFFF) == 0xFFFFFFFF && Mirror(0) == 0
  {
  }

  /** The complement of v is, bits reversed, the remainder of the division of `data` that starts from all ones; in the
      textbook form, from zero with the first four bytes complemented. */
  predicate IsRemainder(v: bv32, data: Octets)
  {
    && Mirror(v ^ 0xFFFFFFFF) == DivideAll(0xFFFFFFFF, data)
    && (|data| >= 4 ==> Mirror(v ^ 0xFFFFFFFF) == DivideAll(0, FlipHead(data)))
  }

  /** The bytes with every bit of the first four turned over. */
  function FlipHead(data: Octets): Octets
    requires |data| >= 4
  {
    [data[0] ^ 0xFF, data[1] ^ 0xFF, data[2] ^ 0xFF, data[3] ^ 0xFF] + data[4..]
  }

  lemma FlippedWord(a: bv8, b: bv8, c: bv8, d: bv8)
    ensures Pack(a ^ 0xFF, Pack(b ^ 0xFF, Pack(c ^ 0xFF, Pack(d ^ 0xFF, 0))))
         == Xor(INIT, Pack(a, Pack(b, Pack(c, Pack(d, 0)))))
  {
  }

  lemma WordOfFour(a: bv8, b: bv8, c: bv8, d: bv8)
    ensures Word([a, b, c, d]) == Pack(a, Pack(b, Pack(c, Pack(d, 0))))
  {
    hide Pack;
    assert [a, b, c, d][1..] == [b, c, d] && [b, c, d][1..] == [c, d] && [c, d][1..] == [d] && [d][1..] == [];
    assert Word([d]) == Pack(d, Word([]));
    assert Word([c, d]) == Pack(c, Word([d]));
    assert Word([b, c, d]) == Pack(b, Word([c, d]));
  }

  lemma HeadFlips(u: Octets, v: Octets)
    requires |u| == |v| == 4 && forall i | 0 <= i < 4 :: v[i] == u[i] ^ 0xFF
    ensures Word(v) == Xor(INIT, Word(u))
  {
    hide Word, Pack, Xor;
    assert u == [u[0], u[1], u[2], u[3]] && v == [v[0], v[1], v[2], v[3]];
    WordOfFour(u[0], u[1], u[2], u[3]);
    WordOfFour(v[0], v[1], v[2], v[3]);
    FlippedWord(u[0], u[1], u[2], u[3]);
  }

  /** Four bytes from all ones leave what their complements leave from zero. */
  lemma HeadFromZero(u: Octets, v: Octets)
    requires |u| == |v| == 4 && Word(v) == Xor(INIT, Word(u))
    ensures Serial(0, v) == Serial(INIT, u)
  {
    hide Serial, Word, Xor;
    SerialIsWord(INIT, u);
    SerialIsWord(0, v);
    XorZero(Word(v));
  }

  lemma FlippedFromZero(data: Octets)
    requires |data| >= 4
    ensures Serial(0, FlipHead(data)) == Serial(INIT, data)
  {
    hide Serial, Word, Xor;
    var u, v, tail := data[..4], FlipHead(data)[..4], data[4..];
    assert data == u + tail && FlipHead(data) == v + tail;
    HeadFlips(u, v);
    HeadFromZero(u, v);
    SerialAppend(INIT, u, tail);
    SerialAppend(0, v, tail);
  }

  lemma ChecksumIsRemainder(data: Octets)
    ensures IsRemainder(Checksum(data), data)
  {
    hide Mirror, Serial, DivideAll, FlipHead;
    MirrorComplement(Serial(INIT, data));
    SerialIsDivision(INIT, data);
    if |data| >= 4 {
      FlippedFromZero(data);
      SerialIsDivision(0, FlipHead(data));
    }
  }

  lemma XorZero(x: bv32)
    ensures Xor(0, x) == x
  {
  }

  // ----- pieces -----

  function Flatten(pieces: seq<Octets>): Octets
  {
    if pieces == [] then [] else pieces[0] + Flatten(pieces[1..])
  }

  /** One `update` per piece. */
  function SerialPieces(c: bv32, pieces: seq<Octets>): bv32
    decreases |pieces|
  {
    if pieces == [] then c else SerialPieces(Serial(c, pieces[0]), pieces[1..])
  }

  /** Feeding data in any sequence of pieces leaves the register as feeding it whole. */
  lemma {:induction false} PiecesAsWhole(c: bv32, pieces: seq<Octets>)
    ensures SerialPieces(c, pieces) == Serial(c, Flatten(pieces))
    decreases |pieces|
  {
    hide Serial;
    if pieces == [] {
      assert Serial(c, []) == c by { SerialEmpty(c); }
    } else {
      SerialAppend(c, pieces[0], Flatten(pieces[1..]));
      PiecesAsWhole(Serial(c, pieces[0]), pieces[1..]);
    }
  }

  lemma SerialEmpty(c: bv32)
    ensures Serial(c, []) == c
  {
  }

  /** Without a length, `update` feeds the buffer from the offset on, all of it without an offset. */
  lemma FedWhole(buf: Octets, off: nat)
    ensures Fed(buf, None, None) == buf
    ensures Fed(buf, Some(off), None) == if off <= |buf| then buf[off..] else []
  {
  }

  /** A length that passes the end of the buffer is cut there. */
  lemma FedToTheEnd(buf: Octets, off: nat, length: nat)
    requires off <= |buf| < off + length
    ensures Fed(buf, Some(off), Some(length)) == buf[off..]
  {
  }

  /** A negative offset counts from the end, and then `update` feeds the bytes asked for exactly when they do not
      reach the end. */
  lemma FedFromTheEndIff(buf: Octets, k: int, length: int)
    requires 0 < length <= k <= |buf|
    ensures Fed(buf, Some(-k), Some(length)) == buf[|buf| - k..][..length] <==> length < k
  {
    if length == k {
      assert Fed(buf, Some(-k), Some(length)) == [];
    }
  }

  /** For offsets and lengths inside the buffer, `update` feeds the bytes asked for exactly when
      the length is not zero or nothing is left after the offset. */
  lemma FedAsAskedIff(buf: Octets, off: nat, length: nat)
    requires off + length <= |buf|
    ensures Fed(buf, Some(off), Some(length)) == buf[off..off + length] <==> length != 0 || off == |buf|
  {
    if length == 0 {
      assert Fed(buf, Some(off), Some(length)) == buf[off..];
      assert |buf[off..]| == |buf| - off;
    }
  }

  // ----- detected errors -----

  lemma XorInjective(c: bv32, c1: bv32, b: bv32)
    requires Xor(c, b) == Xor(c1, b)
    ensures c == c1
  {
  }

  /** Reading the same bytes never brings two different registers together. */
  lemma {:induction false} SerialInjective(c: bv32, c1: bv32, data: Octets)
    requires Serial(c, data) == Serial(c1, data)
    ensures c == c1
    decreases |data|
  {
    hide Shift8, Xor;
    if data != [] {
      SerialInjective(Byte(c, data[0]), Byte(c1, data[0]), data[1..]);
      var b := data[0] as bv32;
      Shift8Injective(Xor(c, b), Xor(c1, b));
      XorInjective(c, c1, b);
    }
  }

  function Pack(b: bv8, w: bv32): bv32
  {
    Xor(b as bv32, w << 8)
  }

  /** At most four bytes packed into one register, the first lowest. */
  function Word(u: Octets): bv32
    requires |u| <= 4
  {
    if u == [] then 0 else Pack(u[0], Word(u[1..]))
  }

  function ShiftBytes(c: bv32, k: nat): bv32
    decreases k
  {
    if k == 0 then c else ShiftBytes(Shift8(c), k - 1)
  }

  predicate Fits(w: bv32, k: nat)
  {
    (k <= 1 ==> w < 0x100) && (k <= 2 ==> w < 0x1_0000) && (k <= 3 ==> w < 0x100_0000)
  }

  lemma PackedFits(b: bv8, w: bv32, k: nat)
    requires k <= 3 && Fits(w, k) && (k == 0 ==> w == 0)
    ensures Fits(Pack(b, w), k + 1)
  {
  }

  lemma {:induction false} WordFits(u: Octets)
    requires |u| <= 4
    ensures Fits(Word(u), |u|)
    decreases |u|
  {
    hide Xor, Fits, Pack;
    if u == [] {
      NothingFits();
    } else {
      WordFits(u[1..]);
      PackedFits(u[0], Word(u[1..]), |u| - 1);
    }
  }

  lemma NothingFits()
    ensures Fits(0, 0)
  {
  }

  lemma XorAssoc(a: bv32, b: bv32, c: bv32)
    ensures Xor(a, Xor(b, c)) == Xor(Xor(a, b), c) && Xor(a, 0) == a
  {
  }

  /** The first byte goes into the register, the others wait above it. */
  lemma ByteThenWord(c: bv32, b: bv8, w: bv32)
    requires w < 0x100_0000
    ensures Shift8(Xor(c, Pack(b, w))) == Xor(Byte(c, b), w)
  {
    hide Shift8, Xor;
    Shift8Above(Xor(c, b as bv32), w);
    XorAssoc(c, b as bv32, w << 8);
  }

  /** The register after up to four bytes depends only on its old value combined with their word. */
  lemma {:induction false} SerialIsWord(c: bv32, u: Octets)
    requires |u| <= 4
    ensures Serial(c, u) == ShiftBytes(Xor(c, Word(u)), |u|)
    decreases |u|
  {
    hide Shift8, Xor, Fits, Pack, Byte;
    if u == [] {
      XorAssoc(c, 0, 0);
    } else {
      var w := Word(u[1..]);
      SerialIsWord(Byte(c, u[0]), u[1..]);
      WordFits(u[1..]);
      FitsThree(w, |u| - 1);
      ByteThenWord(c, u[0], w);
    }
  }

  lemma FitsThree(w: bv32, k: nat)
    requires Fits(w, k) && k <= 3
    ensures w < 0x100_0000
  {
  }

  lemma {:induction false} ShiftBytesInjective(x: bv32, y: bv32, k: nat)
    requires ShiftBytes(x, k) == ShiftBytes(y, k)
    ensures x == y
    decreases k
  {
    hide Shift8;
    if k > 0 {
      ShiftBytesInjective(Shift8(x), Shift8(y), k - 1);
      Shift8Injective(x, y);
    }
  }

  lemma UnpackWord(a: bv8, v: bv32, b: bv8, w: bv32)
    requires v < 0x100_0000 && w < 0x100_0000 && Pack(a, v) == Pack(b, w)
    ensures a == b && v == w
  {
  }

  lemma {:induction false} WordInjective(u: Octets, v: Octets)
    requires |u| == |v| <= 4 && Word(u) == Word(v)
    ensures u == v
    decreases |u|
  {
    hide Xor, Fits, Pack;
    if u != [] {
      WordFits(u[1..]);
      WordFits(v[1..]);
      FitsThree(Word(u[1..]), |u| - 1);
      FitsThree(Word(v[1..]), |v| - 1);
      UnpackWord(u[0], Word(u[1..]), v[0], Word(v[1..]));
      WordInjective(u[1..], v[1..]);
      assert u == [u[0]] + u[1..] && v == [v[0]] + v[1..];
    }
  }

  lemma XorCancels(c: bv32, x: bv32, y: bv32)
    requires Xor(c, x) == Xor(c, y)
    ensures x == y
  {
  }

  /** Two different inputs of the same length that agree outside a window of at most four
      bytes always have different checksums. */
  lemma WindowErrorsDetected(head: Octets, u: Octets, v: Octets, tail: Octets)
    requires |u| == |v| <= 4 && u != v
    ensures Checksum(head + u + tail) != Checksum(head + v + tail)
  {
    hide Serial, Word, Xor;
    var c := Serial(INIT, head);
    forall w | w in {u, v} ensures Serial(INIT, head + w + tail) == Serial(Serial(c, w), tail) {
      SerialAppend(INIT, head + w, tail);
      SerialAppend(INIT, head, w);
    }
    var su, sv := Serial(c, u), Serial(c, v);
    if su == sv {
      SerialIsWord(c, u);
      SerialIsWord(c, v);
      ShiftBytesInjective(Xor(c, Word(u)), Xor(c, Word(v)), |u|);
      XorCancels(c, Word(u), Word(v));
      WordInjective(u, v);
    }
    if Serial(su, tail) == Serial(sv, tail) {
      SerialInjective(su, sv, tail);
    }
    FinalDiffers(Serial(su, tail), Serial(sv, tail));
  }

  lemma FinalDiffers(x: bv32, y: bv32)
    requires x != y
    ensures x ^ 0xFFFFFFFF != y ^ 0xFFFFFFFF
  {
  }
}
