/** `split_sql_by_semicolon` of odps/utils.py as a function of the text, and what it promises:
    statements split no further, and nothing but blanks, leading comments and bare semicolons is lost. */
module SqlSplit {
  import opened Text
  import opened SqlLexing

  function Emit(t: string): seq<string>
  {
    if t == "" || t == ";" then [] else [t]
  }

  /** z without its last n characters. */
  function Cut(z: string, n: nat): string
    requires n <= |z|
  {
    z[..|z| - n]
  }

  /** The statement that starts at z, when the text after its semicolon is r. */
  function Kept(z: string, r: string): string
  {
    var k := DropLead(z);
    if |r| <= |k| then Cut(k, |r|) else ""
  }

  function Split(z: string): (r: Outcome<seq<string>>)
    decreases |z|
  {
    match FirstStop(z, "")
    case Raise(e) => Raise(e)
    case Ok(None) => Ok(Emit(Tidy(DropLead(z))))
    case Ok(Some(r)) =>
      match Split(r)
      case Raise(e) => Raise(e)
      case Ok(later) => Ok(Emit(Tidy(Kept(z, r))) + later)
  }

  /** `\r\n` and then `\r` become `\n`. */
  function Normalize(s: string): (r: string)
    ensures '\r' !in r
  {
    if s == [] then []
    else if Starts(s, '\r', '\n') then ['\n'] + Normalize(s[2..])
    else [if s[0] == '\r' then '\n' else s[0]] + Normalize(s[1..])
  }

  function SplitSql(sql: string): Outcome<seq<string>>
  {
    Split(Normalize(sql))
  }

  // ----- a text and its prefix -----

  lemma {:induction false} QuoteRestCut(z: string, q: char, n: nat)
    requires QuoteRest(z, q).Some? && n <= |QuoteRest(z, q).value|
    ensures |QuoteRest(z, q).value| <= |z|
    ensures QuoteRest(Cut(z, n), q) == Some(Cut(QuoteRest(z, q).value, n))
    decreases |z|
  {
    QuoteRestShrinks(z, q);
    if z[0] == q {
      assert Cut(z, n)[1..] == Cut(z[1..], n);
    } else if z[0] == '\\' {
      QuoteRestShrinks(z[2..], q);
      QuoteRestCut(z[2..], q, n);
      assert Cut(z, n)[2..] == Cut(z[2..], n);
    } else {
      QuoteRestShrinks(z[1..], q);
      QuoteRestCut(z[1..], q, n);
      assert Cut(z, n)[1..] == Cut(z[1..], n);
    }
  }

  lemma {:induction false} LineRestCut(z: string, n: nat)
    requires n <= |LineRest(z)|
    ensures LineRest(Cut(z, n)) == Cut(LineRest(z), n)
    decreases |z|
  {
    if z != [] && z[0] != '\n' {
      LineRestCut(z[1..], n);
      assert |Cut(z, n)| > 0 ==> Cut(z, n)[1..] == Cut(z[1..], n);
    }
  }

  lemma {:induction false} BlockRestCut(z: string, n: nat)
    requires BlockRest(z).Some? && n <= |BlockRest(z).value|
    ensures |BlockRest(z).value| <= |z|
    ensures BlockRest(Cut(z, n)) == Some(Cut(BlockRest(z).value, n))
    decreases |z|
  {
    BlockRestShrinks(z);
    if Starts(z, '*', '/') {
      assert Cut(z, n)[2..] == Cut(z[2..], n);
    }
    if !Starts(z, '*', '/') {
      BlockRestShrinks(z[1..]);
      BlockRestCut(z[1..], n);
      assert Cut(z, n)[1..] == Cut(z[1..], n);
    }
  }

  predicate IsSuffix(r: string, z: string)
  {
    |r| <= |z| && z[|z| - |r|..] == r
  }

  lemma SuffixOfTail(r: string, z: string, k: nat)
    requires k <= |z| && IsSuffix(r, z[k..])
    ensures IsSuffix(r, z)
    ensures |r| < |z| - k ==> z[|z| - |r| - 1] == z[k..][|z[k..]| - |r| - 1]
  {
    assert z[k..][|z[k..]| - |r|..] == z[|z| - |r|..];
  }

  lemma SuffixTrans(r: string, y: string, z: string)
    requires IsSuffix(r, y) && IsSuffix(y, z)
    ensures IsSuffix(r, z)
    ensures |r| < |y| ==> z[|z| - |r| - 1] == y[|y| - |r| - 1]
  {
    SuffixOfTail(r, z, |z| - |y|);
  }

  lemma {:induction false} QuoteRestSuffix(z: string, q: char)
    requires QuoteRest(z, q).Some?
    ensures IsSuffix(QuoteRest(z, q).value, z)
    decreases |z|
  {
    if z[0] == q {
    } else if z[0] == '\\' {
      QuoteRestSuffix(z[2..], q);
      SuffixOfTail(QuoteRest(z, q).value, z, 2);
    } else {
      QuoteRestSuffix(z[1..], q);
      SuffixOfTail(QuoteRest(z, q).value, z, 1);
    }
  }

  lemma {:induction false} LineRestSuffix(z: string)
    ensures IsSuffix(LineRest(z), z)
  {
    if z != [] && z[0] != '\n' {
      LineRestSuffix(z[1..]);
      SuffixOfTail(LineRest(z), z, 1);
    }
  }

  lemma {:induction false} BlockRestSuffix(z: string)
    requires BlockRest(z).Some?
    ensures IsSuffix(BlockRest(z).value, z)
  {
    if !Starts(z, '*', '/') {
      BlockRestSuffix(z[1..]);
      SuffixOfTail(BlockRest(z).value, z, 1);
    }
  }

  lemma TokenSuffix(z: string, brackets: string)
    requires z != [] && AfterToken(z, brackets).Ok? && AfterToken(z, brackets).value.Some?
    ensures var y := AfterToken(z, brackets).value.value.0; IsSuffix(y, z) && |y| < |z|
  {
    hide QuoteRest, BlockRest, LineRest;
    if IsQuote(z[0]) && !IsOpen(z[0]) && !IsClose(z[0]) {
      QuoteRestSuffix(z[1..], z[0]);
      SuffixOfTail(QuoteRest(z[1..], z[0]).value, z, 1);
    } else if Starts(z, '-', '-') {
      LineRestSuffix(z[2..]);
      SuffixOfTail(LineRest(z[2..]), z, 2);
    } else if Starts(z, '/', '*') {
      BlockRestSuffix(z[2..]);
      SuffixOfTail(BlockRest(z[2..]).value, z, 2);
    }
  }

  lemma TokenCut(z: string, brackets: string, n: nat)
    requires z != [] && AfterToken(z, brackets).Ok? && AfterToken(z, brackets).value.Some?
    requires !StopsHere(z, brackets)
    requires n < |AfterToken(z, brackets).value.value.0|
    ensures var (y, b) := AfterToken(z, brackets).value.value;
            n < |y| < |z| && !StopsHere(Cut(z, n), brackets)
            && AfterToken(Cut(z, n), brackets) == Ok(Some((Cut(y, n), b)))
  {
    hide QuoteRest, BlockRest, LineRest;
    TokenSuffix(z, brackets);
    var p := Cut(z, n);
    assert p[1..] == Cut(z[1..], n);
    assert Starts(z, '-', '-') || Starts(z, '/', '*') ==> p[2..] == Cut(z[2..], n);
    if IsOpen(z[0]) || IsClose(z[0]) {
    } else if IsQuote(z[0]) {
      QuoteRestCut(z[1..], z[0], n);
    } else if Starts(z, '-', '-') {
      LineRestCut(z[2..], n);
    } else if Starts(z, '/', '*') {
      BlockRestCut(z[2..], n);
    }
  }

  /** Cut right after its semicolon, a text stops there as before. */
  lemma {:induction false} FirstStopCut(z: string, brackets: string)
    requires FirstStop(z, brackets).Ok? && FirstStop(z, brackets).value.Some?
    ensures var r := FirstStop(z, brackets).value.value;
            && FirstStop(Cut(z, |r|), brackets) == Ok(Some(""))
            && IsSuffix(r, z) && z[|z| - |r| - 1] == ';'
    decreases |z|
  {
    hide AfterToken;
    var r := FirstStop(z, brackets).value.value;
    if StopsHere(z, brackets) {
      assert Cut(z, |r|) == ";";
    } else {
      TokenSuffix(z, brackets);
      var (y, b) := AfterToken(z, brackets).value.value;
      FirstStopCut(y, b);
      SuffixTrans(r, y, z);
      TokenCut(z, brackets, |r|);
    }
  }
}
