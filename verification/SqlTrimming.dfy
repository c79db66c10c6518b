/** Tidying never moves a quote, a comment or a statement end: every lexical rule of
    SqlLexing commutes with taking blanks off the ends of lines. */
module SqlTrimming {
  import opened Text
  import opened SqlLexing

  // ----- trailing blanks -----

  /** A run of trailing blanks disappears up to its line end. */
  lemma {:induction false} TrailingEnds(z: string) returns (w: string)
    requires Trailing(z)
    ensures |w| < |z| && Trim(z) == Trim(w) && (w != [] ==> w[0] == '\n')
    ensures forall q :: !IsBlank(q) && q != '\\' ==> QuoteRest(z, q) == QuoteRest(w, q)
    ensures BlockRest(z) == BlockRest(w)
  {
    if |z| == 1 || z[1] == '\n' {
      w := z[1..];
    } else {
      w := TrailingEnds(z[1..]);
    }
    NotBackslash(z[0]);
  }

  lemma NotBackslash(c: char)
    requires IsBlank(c)
    ensures c != '\\' && c != '*' && c != '/' && c != '-' && !IsQuote(c) && !IsOpen(c) && !IsClose(c) && c != ';'
  {
  }

  /** A character that is not blank is kept, and what follows it looks the same. */
  lemma TrimKeeps(z: string)
    requires z != [] && !Trailing(z)
    ensures Trim(z) == [z[0]] + Trim(z[1..]) && Trim(z)[1..] == Trim(z[1..])
    ensures forall a, b :: !IsBlank(b) ==> (Starts(Trim(z), a, b) <==> Starts(z, a, b))
    ensures |z| > 1 && !IsBlank(z[1]) ==> Trim(z[1..]) == [z[1]] + Trim(z[2..]) && Trim(z)[2..] == Trim(z[2..])
  {
    var y := z[1..];
    assert Trim(z)[1..] == Trim(y);
    if y != [] {
      if Trailing(y) {
        var w := TrailingEnds(y);
        assert Trim(y) != [] ==> IsBlank(Trim(y)[0]);
      } else {
        assert Trim(y) == [y[0]] + Trim(y[1..]);
        assert y[1..] == z[2..];
        assert Trim(z)[2..] == Trim(y)[1..] == Trim(y[1..]);
      }
    }
  }

  lemma {:induction false} QuoteRestTrim(z: string, q: char)
    requires IsQuote(q)
    ensures QuoteRest(Trim(z), q) == match QuoteRest(z, q) case None => None case Some(r) => Some(Trim(r))
    decreases |z|
  {
    if z == [] {
    } else if Trailing(z) {
      NotBackslash(z[0]);
      QuoteRestTrim(z[1..], q);
    } else {
      TrimKeeps(z);
      if z[0] != q {
        if z[0] == '\\' {
          if |z| > 1 {
            EscapeTrim(z[1..], q);
          }
        } else {
          QuoteRestTrim(z[1..], q);
        }
      }
    }
  }

  /** The character that a backslash hides may be a trailing blank; the line end then takes its place. */
  lemma {:induction false} EscapeTrim(y: string, q: char)
    requires IsQuote(q) && y != []
    ensures var t := Trim(y);
            (if t == [] then None else QuoteRest(t[1..], q))
            == match QuoteRest(y[1..], q) case None => None case Some(r) => Some(Trim(r))
    decreases |y|
  {
    if Trailing(y) {
      var w := TrailingEnds(y);
      EscapedRun(y, q, w);
      if w != [] {
        assert !Trailing(w);
        assert Trim(w)[1..] == Trim(w[1..]);
        QuoteRestTrim(w[1..], q);
      }
    } else {
      assert Trim(y)[1..] == Trim(y[1..]);
      QuoteRestTrim(y[1..], q);
    }
  }

  lemma {:induction false} EscapedRun(y: string, q: char, w: string)
    requires IsQuote(q) && Trailing(y)
    requires forall p :: !IsBlank(p) && p != '\\' ==> QuoteRest(y, p) == QuoteRest(w, p)
    requires w != [] ==> w[0] == '\n'
    ensures QuoteRest(y[1..], q) == if w == [] then None else QuoteRest(w[1..], q)
  {
    NotBackslash(y[0]);
    QuoteNotBlank(q);
    assert QuoteRest(y, q) == QuoteRest(y[1..], q);
  }

  lemma QuoteNotBlank(q: char)
    requires IsQuote(q)
    ensures !IsBlank(q) && q != '\\' && q != '\n'
  {
  }

  lemma {:induction false} LineRestTrim(z: string)
    ensures LineRest(Trim(z)) == Trim(LineRest(z))
    decreases |z|
  {
    if z != [] && z[0] != '\n' {
      LineRestTrim(z[1..]);
      if !Trailing(z) {
        assert Trim(z)[1..] == Trim(z[1..]);
      }
    }
  }

  lemma {:induction false} BlockRestTrim(z: string)
    ensures BlockRest(Trim(z)) == match BlockRest(z) case None => None case Some(r) => Some(Trim(r))
    decreases |z|
  {
    if z == [] {
    } else if Trailing(z) {
      NotBackslash(z[0]);
      BlockRestTrim(z[1..]);
    } else {
      TrimKeeps(z);
      SlashNotBlank();
      if !Starts(z, '*', '/') {
        BlockRestTrim(z[1..]);
      }
    }
  }

  lemma SlashNotBlank()
    ensures !IsBlank('/') && !IsBlank('*') && !IsBlank('-') && !IsBlank(';')
  {
  }

  /** One token of the tidied text is the tidied token. */
  lemma TokenTrim(z: string, brackets: string)
    requires z != [] && !Trailing(z)
    ensures Trim(z) != [] && (StopsHere(Trim(z), brackets) <==> StopsHere(z, brackets))
    ensures AfterToken(Trim(z), brackets)
         == match AfterToken(z, brackets)
            case Raise(e) => Raise(e)
            case Ok(None) => Ok(None)
            case Ok(Some(next)) => Ok(Some((Trim(next.0), next.1)))
  {
    hide Trim, QuoteRest, BlockRest, LineRest, IsBlank, Trailing;
    TrimKeeps(z);
    SlashNotBlank();
    if IsOpen(z[0]) || IsClose(z[0]) {
    } else if IsQuote(z[0]) {
      QuoteRestTrim(z[1..], z[0]);
    } else if Starts(z, '-', '-') {
      LineRestTrim(z[2..]);
    } else if Starts(z, '/', '*') {
      BlockRestTrim(z[2..]);
    }
  }

  /** Statements end at the same places in the tidied text. */
  lemma {:induction false} FirstStopTrim(z: string, brackets: string)
    ensures FirstStop(Trim(z), brackets)
         == match FirstStop(z, brackets)
            case Raise(e) => Raise(e)
            case Ok(None) => Ok(None)
            case Ok(Some(r)) => Ok(Some(Trim(r)))
    decreases |z|
  {
    if z == [] {
    } else if Trailing(z) {
      NotBackslash(z[0]);
      FirstStopTrim(z[1..], brackets);
    } else {
      hide AfterToken, Trailing;
      TokenTrim(z, brackets);
      TrimKeeps(z);
      if !StopsHere(z, brackets) && AfterToken(z, brackets).Ok? && AfterToken(z, brackets).value.Some? {
        TokenShrinks(z, brackets);
        var (y, b) := AfterToken(z, brackets).value.value;
        FirstStopTrim(y, b);
      }
    }
  }
}
