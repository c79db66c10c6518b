/** The pieces of Python's text library that the modelled functions call:
    blank characters, `strip`, ASCII `lower`/`upper`, `int(text)` and `str(int)`. */
module Text {

  datatype Option<+T> = None | Some(value: T)

  function Or<T>(o: Option<T>, other: T): T
  {
    if o.Some? then o.value else other
  }

  lemma Regroup<T>(a: seq<T>, b: seq<T>, c: seq<T>)
    ensures a + (b + c) == (a + b) + c
  {
  }

  lemma RegroupFour<T>(a: seq<T>, b: seq<T>, c: seq<T>, d: seq<T>)
    ensures (a + b) + c + d == a + (b + c + d)
  {
  }

  predicate Distinct<T(==)>(s: seq<T>)
  {
    forall i, j | 0 <= i < j < |s| :: s[i] != s[j]
  }

  function Min(a: int, b: int): int
  {
    if a <= b then a else b
  }

  /** What raises in the source. */
  datatype Error =
    | ValueError | IndexError | KeyError | TypeError | AssertionError | NotImplementedError
    | AttributeError | StopIteration | DAGValidationError

  datatype Outcome<+T> = Ok(value: T) | Raise(error: Error)

  newtype byte = x: int | 0 <= x < 256

  type Bytes = seq<byte>

  /** The characters for which `str.isspace` holds. */
  predicate IsBlank(c: char)
  {
    || '\t' <= c <= '\r'
    || '\U{1c}' <= c <= ' '
    || c == '\U{85}' || c == '\U{a0}' || c == '\U{1680}'
    || '\U{2000}' <= c <= '\U{200a}'
    || c == '\U{2028}' || c == '\U{2029}' || c == '\U{202f}' || c == '\U{205f}' || c == '\U{3000}'
  }

  predicate AllBlank(s: string)
  {
    forall c | c in s :: IsBlank(c)
  }

  function LStrip(s: string): (r: string)
    ensures |r| <= |s|
  {
    if s != [] && IsBlank(s[0]) then LStrip(s[1..]) else s
  }

  function RStrip(s: string): (r: string)
    ensures |r| <= |s|
  {
    if s != [] && IsBlank(s[|s| - 1]) then RStrip(s[..|s| - 1]) else s
  }

  function Strip(s: string): (r: string)
    ensures |r| <= |s|
  {
    RStrip(LStrip(s))
  }

  /** Nothing to strip at either end. */
  predicate Tight(s: string)
  {
    s != [] ==> !IsBlank(s[0]) && !IsBlank(s[|s| - 1])
  }

  lemma {:induction false} LStripPadded(a: string, s: string)
    requires AllBlank(a)
    ensures LStrip(a + s) == LStrip(s)
  {
    if a == [] {
      assert a + s == s;
    } else {
      assert (a + s)[1..] == a[1..] + s;
      assert IsBlank(a[0]);
      LStripPadded(a[1..], s);
    }
  }

  lemma {:induction false} RStripPadded(s: string, b: string)
    requires AllBlank(b)
    ensures RStrip(s + b) == RStrip(s)
  {
    if b == [] {
      assert s + b == s;
    } else {
      var n := |b| - 1;
      assert (s + b)[..|s + b| - 1] == s + b[..n];
      assert IsBlank(b[n]);
      RStripPadded(s, b[..n]);
    }
  }

  /** Stripping removes exactly the blanks around a text with tight ends. */
  lemma StripPadded(a: string, s: string, b: string)
    requires AllBlank(a) && AllBlank(b) && Tight(s)
    ensures Strip(a + s + b) == s
  {
    assert a + s + b == a + (s + b);
    LStripPadded(a, s + b);
    RStripPadded(s, b);
    if s == [] {
      assert s + b == b + [];
      LStripPadded(b, []);
    }
  }

  lemma StripTight(s: string)
    requires Tight(s)
    ensures Strip(s) == s
  {
    assert [] + s + [] == s;
    StripPadded([], s, []);
  }

  /** `lower` on ASCII letters; other characters are left alone. */
  function LowerChar(c: char): char
  {
    if 'A' <= c <= 'Z' then ((c as int) + 32) as char else c
  }

  function UpperChar(c: char): char
  {
    if 'a' <= c <= 'z' then ((c as int) - 32) as char else c
  }

  function Lower(s: string): (r: string)
    ensures |r| == |s|
  {
    seq(|s|, i requires 0 <= i < |s| => LowerChar(s[i]))
  }

  function Upper(s: string): (r: string)
    ensures |r| == |s|
  {
    seq(|s|, i requires 0 <= i < |s| => UpperChar(s[i]))
  }

  predicate IsLower(s: string)
  {
    forall c | c in s :: !('A' <= c <= 'Z')
  }

  lemma LowerIsLower(s: string)
    ensures IsLower(Lower(s))
    ensures IsLower(s) <==> Lower(s) == s
  {
    if Lower(s) == s {
      forall c | c in s ensures !('A' <= c <= 'Z') {
        var i :| 0 <= i < |s| && s[i] == c;
        assert Lower(s)[i] == LowerChar(c);
      }
    }
    if IsLower(s) {
      forall i | 0 <= i < |s| ensures Lower(s)[i] == s[i] {
        assert s[i] in s;
      }
    }
  }

  /** Upper-casing loses nothing that lower-casing would keep. */
  lemma LowerUpper(s: string)
    ensures Lower(Upper(s)) == Lower(s)
  {
  }

  lemma StripUpper(s: string)
    ensures Strip(Upper(s)) == Upper(Strip(s))
  {
    LStripUpper(s);
    RStripUpper(LStrip(s));
  }

  lemma {:induction false} LStripUpper(s: string)
    ensures LStrip(Upper(s)) == Upper(LStrip(s))
  {
    if s != [] && IsBlank(s[0]) {
      assert Upper(s)[1..] == Upper(s[1..]);
      LStripUpper(s[1..]);
    }
  }

  lemma {:induction false} RStripUpper(s: string)
    ensures RStrip(Upper(s)) == Upper(RStrip(s))
  {
    if s != [] && IsBlank(s[|s| - 1]) {
      assert Upper(s)[..|s| - 1] == Upper(s[..|s| - 1]);
      RStripUpper(s[..|s| - 1]);
    }
  }

  /** `str(n)` for a natural number. */
  function NatText(n: nat): (s: string)
    ensures s != []
    ensures forall c | c in s :: IsDigit(c)
  {
    if n < 10 then [DigitChar(n)] else NatText(n / 10) + [DigitChar(n % 10)]
  }

  function IntText(n: int): (s: string)
    ensures s != []
    ensures forall c | c in s :: c == '-' || IsDigit(c)
  {
    if n < 0 then "-" + NatText(-n) else NatText(n)
  }

  predicate IsDigit(c: char)
  {
    '0' <= c <= '9'
  }

  function DigitChar(d: nat): (c: char)
    requires d < 10
    ensures IsDigit(c)
  {
    ((d + '0' as int) as char)
  }

  function DigitValue(c: char): nat
    requires IsDigit(c)
  {
    c as nat - '0' as nat
  }

  /** Digits with single underscores between them, as `int` reads them. */
  function ReadDigits(s: string): Option<nat>
  {
    if s == [] || !IsDigit(s[|s| - 1]) then None
    else
      var last := DigitValue(s[|s| - 1]);
      var rest := s[..|s| - 1];
      if rest == [] then Some(last)
      else
        var init := if rest[|rest| - 1] == '_' then rest[..|rest| - 1] else rest;
        match ReadDigits(init)
        case None => None
        case Some(n) => Some(10 * n + last)
  }

  /** `int(text)`: None stands for its ValueError. */
  function ReadInt(text: string): Option<int>
  {
    var s := Strip(text);
    if s != [] && s[0] == '-' then
      var digits := ReadDigits(s[1..]);
      if digits.None? then None else Some(-(digits.value as int))
    else if s != [] && s[0] == '+' then ReadDigits(s[1..])
    else ReadDigits(s)
  }

  lemma {:induction false} ReadNatText(n: nat)
    ensures ReadDigits(NatText(n)) == Some(n)
  {
    if n >= 10 {
      ReadNatText(n / 10);
      var s := NatText(n);
      var rest := s[..|s| - 1];
      assert rest == NatText(n / 10);
      assert rest[|rest| - 1] in rest;
    }
  }

  /** `int(str(n))` is n. */
  lemma ReadIntText(n: int)
    ensures ReadInt(IntText(n)) == Some(n)
    ensures Tight(IntText(n))
  {
    var s := IntText(n);
    TightIntText(n);
    StripTight(s);
    if n < 0 {
      assert s[1..] == NatText(-n);
      ReadNatText(-n);
    } else {
      ReadNatText(n);
      assert s[0] in s;
    }
  }

  lemma TightIntText(n: int)
    ensures Tight(IntText(n))
  {
    var s := IntText(n);
    assert s[0] in s && s[|s| - 1] in s;
  }
}
