/** UTF-8 (section 3 of RFC 3629), as far as the byte sizes of odps/types.py need it. */
module Utf8 {
  import opened Text

  function EncodeChar(c: char): (b: Bytes)
    ensures 1 <= |b| <= 4
  {
    var n := c as int;
    if n < 0x80 then [n as byte]
    else if n < 0x800 then [(0xC0 + n / 64) as byte, Tail(n)]
    else if n < 0x10000 then [(0xE0 + n / 4096) as byte, Tail(n / 64), Tail(n)]
    else [(0xF0 + n / 262144) as byte, Tail(n / 4096), Tail(n / 64), Tail(n)]
  }

  /** A continuation byte with the last six bits of `n`. */
  function Tail(n: nat): byte
  {
    (0x80 + n % 64) as byte
  }

  function Encode(s: string): (b: Bytes)
    ensures |s| <= |b| <= 4 * |s|
  {
    if s == "" then [] else EncodeChar(s[0]) + Encode(s[1..])
  }

  predicate IsScalar(n: int)
  {
    0 <= n < 0xD800 || 0xE000 <= n < 0x110000
  }

  /** How many bytes the lead byte announces. */
  function Announced(lead: byte): (n: nat)
    ensures 1 <= n <= 4
  {
    if lead < 0xC0 then 1 else if lead < 0xE0 then 2 else if lead < 0xF0 then 3 else 4
  }

  /** The number that the payload bits of a character's bytes spell. */
  function Payload(b: Bytes): int
    requires 1 <= |b| <= 4
  {
    var lead := b[0] as int;
    match |b|
    case 1 => lead
    case 2 => (lead - 0xC0) * 64 + (b[1] as int - 0x80)
    case 3 => (lead - 0xE0) * 4096 + (b[1] as int - 0x80) * 64 + (b[2] as int - 0x80)
    case 4 => (lead - 0xF0) * 262144 + (b[1] as int - 0x80) * 4096 + (b[2] as int - 0x80) * 64 + (b[3] as int - 0x80)
  }

  /** The first character, if the text starts with exactly the bytes that encode one. */
  function DecodeFirst(b: Bytes): (r: Option<char>)
    requires b != []
    ensures r.Some? ==> EncodeChar(r.value) <= b
  {
    var n := Announced(b[0]);
    if n > |b| || !IsScalar(Payload(b[..n])) then None
    else
      var c := Payload(b[..n]) as char;
      if EncodeChar(c) == b[..n] then Some(c) else None
  }

  function Decode(b: Bytes): Option<string>
    decreases |b|
  {
    if b == [] then Some("")
    else
      match DecodeFirst(b)
      case None => None
      case Some(c) =>
        match Decode(b[|EncodeChar(c)|..])
        case None => None
        case Some(s) => Some([c] + s)
  }

  lemma EncodedCharDecodes(c: char, rest: Bytes)
    ensures DecodeFirst(EncodeChar(c) + rest) == Some(c)
  {
    var n, b := c as int, EncodeChar(c);
    assert (b + rest)[..|b|] == b;
    assert Announced(b[0]) == |b|;
    assert n == n / 64 * 64 + n % 64;
    assert n / 64 == n / 64 / 64 * 64 + n / 64 % 64 && n / 64 / 64 == n / 4096;
    assert n / 4096 == n / 4096 / 64 * 64 + n / 4096 % 64 && n / 4096 / 64 == n / 262144;
    assert Payload(b) == n;
    assert (n as char) == c;
  }

  /** Every text is read back from its bytes. */
  lemma {:induction false} EncodedDecodes(s: string)
    ensures Decode(Encode(s)) == Some(s)
    decreases |s|
  {
    if s != "" {
      var b, rest := EncodeChar(s[0]), Encode(s[1..]);
      EncodedCharDecodes(s[0], rest);
      assert (b + rest)[|b|..] == rest;
      EncodedDecodes(s[1..]);
      assert s == [s[0]] + s[1..];
    }
  }

  /** Only the bytes of a text are read as that text. */
  lemma {:induction false} DecodedEncodes(b: Bytes)
    ensures Decode(b).Some? ==> Encode(Decode(b).value) == b
    decreases |b|
  {
    hide EncodeChar, DecodeFirst;
    if Decode(b).Some? && b != [] {
      var c := DecodeFirst(b).value;
      var k := |EncodeChar(c)|;
      DecodedEncodes(b[k..]);
      var s := Decode(b[k..]).value;
      assert ([c] + s)[0] == c && ([c] + s)[1..] == s;
      assert b == b[..k] + b[k..];
    }
  }

  /** `_check_string_byte_size` of a text: four bytes a character when that fits, else the encoded size. */
  function CheckedSize(s: string, limit: nat): nat
  {
    if 4 * |s| > limit then |Encode(s)| else 4 * |s|
  }

  /** The shortcut never changes the verdict. */
  lemma ShortcutAgrees(s: string, limit: nat)
    ensures CheckedSize(s, limit) <= limit <==> |Encode(s)| <= limit
  {
  }

  predicate IsTail(b: byte)
  {
    0x80 <= b < 0xC0
  }

  predicate TwoByteForm(n: int, b: Bytes)
  {
    |b| == 2 && 0xC2 <= b[0] < 0xE0 && IsTail(b[1]) && n == (b[0] as int - 0xC0) * 0x40 + (b[1] as int - 0x80)
  }

  predicate ThreeByteForm(n: int, b: Bytes)
  {
    && |b| == 3 && 0xE0 <= b[0] < 0xF0 && IsTail(b[1]) && IsTail(b[2])
    && n == (b[0] as int - 0xE0) * 0x1000 + (b[1] as int - 0x80) * 0x40 + (b[2] as int - 0x80)
  }

  predicate FourByteForm(n: int, b: Bytes)
  {
    && |b| == 4 && 0xF0 <= b[0] <= 0xF4 && IsTail(b[1]) && IsTail(b[2]) && IsTail(b[3])
    && n == (b[0] as int - 0xF0) * 0x40000 + (b[1] as int - 0x80) * 0x1000
            + (b[2] as int - 0x80) * 0x40 + (b[3] as int - 0x80)
  }

  lemma TailsSpell(n: nat)
    ensures IsTail(Tail(n)) && n == n / 64 * 64 + (Tail(n) as int - 0x80)
    ensures n / 4096 == n / 64 / 64 && n / 262144 == n / 64 / 64 / 64
  {
  }

  /** The forms of section 3 of RFC 3629: which characters have how many bytes, and which bits are where. */
  lemma EncodedForm(c: char)
    ensures var n, b := c as int, EncodeChar(c);
            && (n < 0x80 ==> b == [n as byte])
            && (0x80 <= n < 0x800 ==> TwoByteForm(n, b))
            && (0x800 <= n < 0x10000 ==> ThreeByteForm(n, b))
            && (0x10000 <= n ==> FourByteForm(n, b))
  {
    hide Tail;
    var n := c as int;
    TailsSpell(n);
    TailsSpell(n / 64);
    TailsSpell(n / 4096);
  }
}
