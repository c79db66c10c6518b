/** The running checksum of odps/tunnel/checksum.py: every value written is one `update` of the whole buffer. */
module Checksums {
  import opened Text
  import C = Crc32c

  /** A CRC-32C that is fed piece by piece; `fed` is a history variable. */
  class Checksum {
    const crc: C.Crc32c
    ghost var fed: C.Octets

    ghost predicate Valid()
      reads this, crc
    {
      crc.crc == C.Serial(C.INIT, fed)
    }

    constructor ()
      ensures Valid() && fresh(crc) && fed == []
    {
      crc := new C.Crc32c();
      fed := [];
    }

    /** `_update`. */
    method Update(piece: C.Octets)
      requires Valid()
      modifies this, crc
      ensures Valid() && fed == old(fed) + piece
    {
      C.SerialAppend(C.INIT, fed, piece);
      crc.Update(piece, None, None);
      fed := fed + piece;
    }

    /** `update_bool`: one byte. */
    method UpdateBool(val: bool)
      requires Valid()
      modifies this, crc
      ensures Valid() && fed == old(fed) + [if val then 1 else 0]
    {
      Update(if val then [1] else [0]);
    }

    method GetValue() returns (v: bv32)
      requires Valid()
      ensures v == C.Checksum(fed) && C.IsRemainder(v, fed)
    {
      hide C.Checksum, C.IsRemainder, C.Crc32c.GetValue;
      C.ChecksumIsRemainder(fed);
      v := crc.GetValue();
    }

    method Reset()
      requires Valid()
      modifies this, crc
      ensures Valid() && fed == []
    {
      crc.Reset();
      fed := [];
    }
  }

  /** A new checksum after one update per piece is the checksum of the pieces joined. */
  method OfPieces(pieces: seq<C.Octets>) returns (v: bv32)
    ensures C.IsRemainder(v, C.Flatten(pieces))
  {
    hide C.Checksum, C.IsRemainder, C.Serial;
    var c := new Checksum();
    for i := 0 to |pieces|
      invariant c.Valid() && fresh(c) && fresh(c.crc)
      invariant c.fed + C.Flatten(pieces[i..]) == C.Flatten(pieces)
    {
      assert pieces[i..][1..] == pieces[i + 1..];
      Regroup(c.fed, pieces[i], C.Flatten(pieces[i + 1..]));
      c.Update(pieces[i]);
    }
    assert c.fed + [] == c.fed;
    v := c.GetValue();
  }
}
