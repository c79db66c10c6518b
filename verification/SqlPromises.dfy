/** What the statement splitter promises: its statements split no further, and together they
    keep everything but blanks, leading comments and bare semicolons. */
module SqlPromises {
  import opened Text
  import opened SqlLexing
  import opened SqlTrimming
  import opened SqlSplit

  // ----- blanks after a text -----

  lemma BlankTail(b: string)
    requires b != [] && AllBlank(b)
    ensures IsBlank(b[0]) && AllBlank(b[1..])
  {
    forall c | c in b[1..] ensures c in b {
    }
  }

  lemma {:induction false} QuoteRestPad(a: string, b: string, q: char)
    requires IsQuote(q) && AllBlank(b)
    ensures QuoteRest(a + b, q) == match QuoteRest(a, q) case None => None case Some(r) => Some(r + b)
    decreases |a| + |b|
  {
    QuoteNotBlank(q);
    if a == [] {
      assert a + b == b;
      if b != [] {
        BlankTail(b);
        NotBackslash(b[0]);
        QuoteRestPad([], b[1..], q);
        assert [] + b[1..] == b[1..];
      }
    } else if a[0] == q {
      assert (a + b)[1..] == a[1..] + b;
    } else if a[0] == '\\' && |a| == 1 {
      if b != [] {
        assert (a + b)[2..] == [] + b[1..];
        BlankTail(b);
        QuoteRestPad([], b[1..], q);
      }
    } else if a[0] == '\\' {
      assert (a + b)[2..] == a[2..] + b;
      QuoteRestPad(a[2..], b, q);
    } else {
      assert (a + b)[1..] == a[1..] + b;
      QuoteRestPad(a[1..], b, q);
    }
  }

  lemma {:induction false} LineRestPad(a: string, b: string)
    requires AllBlank(b)
    ensures LineRest(a) != [] ==> LineRest(a + b) == LineRest(a) + b
    ensures LineRest(a) == [] ==> AllBlank(LineRest(a + b))
    decreases |a| + |b|
  {
    if a == [] {
      assert a + b == b;
      if b != [] && b[0] != '\n' {
        BlankTail(b);
        LineRestPad([], b[1..]);
        assert [] + b[1..] == b[1..];
      }
    } else if a[0] != '\n' {
      assert (a + b)[1..] == a[1..] + b;
      LineRestPad(a[1..], b);
    }
  }

  lemma {:induction false} BlockRestPad(a: string, b: string)
    requires AllBlank(b)
    ensures BlockRest(a + b) == match BlockRest(a) case None => None case Some(r) => Some(r + b)
    decreases |a| + |b|
  {
    SlashNotBlank();
    if a == [] {
      assert a + b == b;
      if b != [] {
        BlankTail(b);
        BlockRestPad([], b[1..]);
        assert [] + b[1..] == b[1..];
      }
    } else {
      assert (a + b)[1..] == a[1..] + b;
      assert |a| == 1 && b != [] ==> (a + b)[1] == b[0] && b[0] in b;
      if Starts(a, '*', '/') {
        assert (a + b)[2..] == a[2..] + b;
      } else {
        BlockRestPad(a[1..], b);
      }
    }
  }

  lemma {:induction false} BlankNeverStops(b: string, brackets: string)
    requires AllBlank(b)
    ensures FirstStop(b, brackets) == Ok(None)
    decreases |b|
  {
    if b != [] {
      BlankTail(b);
      NotBackslash(b[0]);
      BlankNeverStops(b[1..], brackets);
    }
  }

  lemma StartsPad(a: string, b: string)
    requires a != [] && AllBlank(b)
    ensures forall x, y :: !IsBlank(y) ==> (Starts(a + b, x, y) <==> Starts(a, x, y))
    ensures (a + b)[0] == a[0] && (a + b)[1..] == a[1..] + b
    ensures |a| > 1 ==> (a + b)[2..] == a[2..] + b
  {
    assert |a| == 1 && b != [] ==> (a + b)[1] == b[0] && b[0] in b;
  }

  /** Blanks after a text do not change where it stops. */
  lemma {:induction false} FirstStopPad(a: string, b: string, brackets: string)
    requires AllBlank(b)
    ensures FirstStop(a + b, brackets)
         == match FirstStop(a, brackets)
            case Raise(e) => Raise(e)
            case Ok(None) => Ok(None)
            case Ok(Some(r)) => Ok(Some(r + b))
    decreases |a|, 1
  {
    if a == [] {
      assert a + b == b;
      BlankNeverStops(b, brackets);
    } else {
      StartsPad(a, b);
      SlashNotBlank();
      if StopsHere(a, brackets) {
      } else if IsOpen(a[0]) || IsClose(a[0]) {
        NextPad(a, b, brackets);
      } else if IsQuote(a[0]) {
        QuoteRestPad(a[1..], b, a[0]);
        NextPad(a, b, brackets);
      } else if Starts(a, '-', '-') {
        LineRestPad(a[2..], b);
        if LineRest(a[2..]) == [] {
          BlankNeverStops(LineRest(a[2..] + b), brackets);
        } else {
          NextPad(a, b, brackets);
        }
      } else if Starts(a, '/', '*') {
        BlockRestPad(a[2..], b);
        NextPad(a, b, brackets);
      } else {
        NextPad(a, b, brackets);
      }
    }
  }

  /** The step of FirstStopPad, for a token that ends inside a. */
  lemma NextPad(a: string, b: string, brackets: string)
    requires AllBlank(b) && a != [] && !StopsHere(a, brackets) && !StopsHere(a + b, brackets)
    requires AfterToken(a + b, brackets)
          == match AfterToken(a, brackets)
             case Raise(e) => Raise(e)
             case Ok(None) => Ok(None)
             case Ok(Some(next)) => Ok(Some((next.0 + b, next.1)))
    ensures FirstStop(a + b, brackets)
         == match FirstStop(a, brackets)
            case Raise(e) => Raise(e)
            case Ok(None) => Ok(None)
            case Ok(Some(r)) => Ok(Some(r + b))
    decreases |a|, 0
  {
    hide AfterToken;
    if AfterToken(a, brackets).Ok? && AfterToken(a, brackets).value.Some? {
      TokenShrinks(a, brackets);
      var (y, br) := AfterToken(a, brackets).value.value;
      FirstStopPad(y, b, br);
    }
  }

  // ----- tidying twice -----

  lemma {:induction false} TrailingPad(x: string, b: string)
    requires x != [] && AllBlank(b)
    ensures Trailing(x + b) <==> Trailing(x)
    decreases |x| + |b|
  {
    var y := x + b;
    if |x| == 1 {
      if b != [] {
        assert y[1..] == b && y[1] == b[0];
        BlankTail(b);
        if b[0] != '\n' {
          assert b == [b[0]] + b[1..];
          BlankTrailing(b);
        }
      }
    } else {
      assert y[1..] == x[1..] + b && y[1] == x[1];
      TrailingPad(x[1..], b);
    }
  }

  lemma {:induction false} BlankTrailing(b: string)
    requires b != [] && AllBlank(b) && b[0] != '\n'
    ensures Trailing(b)
  {
    BlankTail(b);
    if |b| > 1 && b[1] != '\n' {
      BlankTrailing(b[1..]);
    }
  }

  lemma {:induction false} TrimPad(x: string, b: string) returns (c: string)
    requires AllBlank(b)
    ensures AllBlank(c) && Trim(x + b) == Trim(x) + c
    decreases |x| + |b|
  {
    if x == [] {
      assert x + b == b;
      TrimBlank(b);
      c := Trim(b);
    } else {
      TrailingPad(x, b);
      assert (x + b)[1..] == x[1..] + b;
      c := TrimPad(x[1..], b);
      assert [x[0]] + (Trim(x[1..]) + c) == [x[0]] + Trim(x[1..]) + c;
    }
  }

  lemma {:induction false} TrimBlank(b: string)
    requires AllBlank(b)
    ensures AllBlank(Trim(b))
  {
    if b != [] {
      BlankTail(b);
      TrimBlank(b[1..]);
    }
  }

  /** A character that Trim kept is still kept in the trimmed text. */
  lemma {:induction false} NotTrailingTwice(z: string)
    requires z != [] && !Trailing(z)
    ensures !Trailing([z[0]] + Trim(z[1..]))
    decreases |z|
  {
    var t := [z[0]] + Trim(z[1..]);
    var y := z[1..];
    if IsBlank(z[0]) && z[0] != '\n' {
      assert y != [] && y[0] != '\n' && !Trailing(y);
      assert t[1..] == Trim(y) && Trim(y)[0] == y[0];
      NotTrailingTwice(y);
    }
  }

  lemma {:induction false} TrimTwice(z: string)
    ensures Trim(Trim(z)) == Trim(z)
    decreases |z|
  {
    if z != [] {
      TrimTwice(z[1..]);
      if !Trailing(z) {
        NotTrailingTwice(z);
        assert ([z[0]] + Trim(z[1..]))[1..] == Trim(z[1..]);
      }
    }
  }

  lemma {:induction false} RStripEmpty(l: string)
    ensures RStrip(l) == [] <==> AllBlank(l)
    decreases |l|
  {
    if l != [] {
      var n := |l| - 1;
      assert l == l[..n] + [l[n]];
      if IsBlank(l[n]) {
        RStripEmpty(l[..n]);
      }
    }
  }

  lemma {:induction false} LineTrailing(line: string, tail: string)
    requires line != [] && '\n' !in line && (tail == [] || tail[0] == '\n')
    ensures Trailing(line + tail) <==> AllBlank(line)
    decreases |line|
  {
    var z := line + tail;
    assert line == [line[0]] + line[1..];
    assert z[1..] == line[1..] + tail;
    if |line| > 1 {
      assert z[1] == line[1] && line[1] in line;
      LineTrailing(line[1..], tail);
    }
  }

  lemma {:induction false} LineWithoutNewline(line: string, tail: string)
    requires '\n' !in line && (tail == [] || tail[0] == '\n')
    ensures Trim(line + tail) == RStrip(line) + Trim(tail)
    decreases |line|
  {
    hide Trailing, IsBlank;
    if line == [] {
      assert line + tail == tail;
    } else {
      var rest := line[1..];
      assert line == [line[0]] + rest;
      assert (line + tail)[1..] == rest + tail;
      LineTrailing(line, tail);
      RStripFront(line[0], rest);
      RStripEmpty(rest);
      LineWithoutNewline(rest, tail);
      FrontAssoc(line[0], RStrip(rest), Trim(tail));
    }
  }

  lemma FrontAssoc(c: char, a: string, b: string)
    ensures [c] + (a + b) == [c] + a + b
  {
  }

  lemma {:induction false} RStripFront(c: char, l: string)
    ensures RStrip([c] + l) == if RStrip(l) == [] && IsBlank(c) then [] else [c] + RStrip(l)
    decreases |l|
  {
    var x := [c] + l;
    if l == [] {
      assert x[..|x| - 1] == [];
    } else if IsBlank(l[|l| - 1]) {
      assert x[..|x| - 1] == [c] + l[..|l| - 1];
      RStripFront(c, l[..|l| - 1]);
    }
  }

  /** The first line and what follows its line end. */
  lemma FirstLine(s: string) returns (line: string, rest: string)
    requires s != [] && OnlyNewlines(s)
    ensures '\n' !in line && |rest| < |s| && OnlyNewlines(rest)
    ensures if LineLength(s) == |s| then line == s && SplitLines(s) == [line]
            else s == line + (['\n'] + rest) && SplitLines(s) == [line] + SplitLines(rest)
  {
    var n := LineLength(s);
    line := s[..n];
    forall c | c in line ensures c != '\n' {
      var i :| 0 <= i < n && s[i] == c;
    }
    if n == |s| {
      rest := "";
    } else {
      rest := s[n + 1..];
      assert s[n] in s;
      OnlyNewlinesTail(s, n + 1);
      assert s == line + ([s[n]] + rest);
    }
  }

  lemma JoinCons(line: string, lines: seq<string>)
    ensures JoinLines([line] + lines) == if lines == [] then RStrip(line) else RStrip(line) + "\n" + JoinLines(lines)
  {
    assert ([line] + lines)[1..] == lines;
  }

  /** Line by line or as one text: the same tidying, up to a final line end. */
  lemma {:induction false} JoinedIsTrimmed(s: string) returns (b: string)
    requires OnlyNewlines(s)
    ensures AllBlank(b) && Trim(s) == JoinLines(SplitLines(s)) + b
    decreases |s|
  {
    hide RStrip, Trailing, JoinLines, SplitLines, IsBlank;
    b := "";
    if s == [] {
      NoLines();
    } else {
      var line, rest := FirstLine(s);
      JoinCons(line, []);
      assert [line] + [] == [line];
      if LineLength(s) == |s| {
        assert line + [] == s;
        LineWithoutNewline(line, []);
      } else {
        LineWithoutNewline(line, ['\n'] + rest);
        b := JoinedIsTrimmed(rest);
        NewlineKept(rest);
        JoinCons(line, SplitLines(rest));
        if SplitLines(rest) == [] {
          NoLines();
          RestIsEmpty(rest);
          b := "\n";
          NewlineBlank();
        } else {
          LinesGroup(RStrip(line), JoinLines(SplitLines(rest)), b);
        }
      }
    }
  }

  lemma NoLines()
    ensures JoinLines(SplitLines("")) == "" && JoinLines([]) == ""
  {
  }

  lemma NewlineBlank()
    ensures AllBlank("\n")
  {
  }

  lemma RestIsEmpty(rest: string)
    requires SplitLines(rest) == []
    ensures rest == "" && Trim(rest) == ""
  {
  }

  lemma NewlineKept(rest: string)
    ensures Trim(['\n'] + rest) == ['\n'] + Trim(rest)
  {
    assert (['\n'] + rest)[1..] == rest;
  }

  lemma LinesGroup(a: string, j: string, b: string)
    ensures a + (['\n'] + (j + b)) == (a + "\n" + j) + b
  {
  }

  lemma OnlyNewlinesTail(s: string, n: nat)
    requires OnlyNewlines(s) && n <= |s|
    ensures OnlyNewlines(s[n..])
  {
    forall c | c in s[n..] ensures c in s {
    }
  }

  lemma StripTrailing(x: string, b: string)
    requires AllBlank(b)
    ensures Strip(x + b) == Strip(x)
  {
    var y := LStrip(x);
    LStripSplit(x);
    var a := x[..|x| - |y|];
    if y == [] {
      assert x == a && x + b == (a + b) + [];
      LStripPadded(a + b, []);
    } else {
      assert x + b == a + (y + b);
      LStripPadded(a, y + b);
      assert (y + b)[0] == y[0];
      RStripPadded(y, b);
    }
  }

  lemma {:induction false} LStripSplit(x: string)
    ensures |LStrip(x)| <= |x|
    ensures AllBlank(x[..|x| - |LStrip(x)|]) && x == x[..|x| - |LStrip(x)|] + LStrip(x)
    ensures LStrip(x) != [] ==> !IsBlank(LStrip(x)[0])
  {
    if x != [] && IsBlank(x[0]) {
      LStripSplit(x[1..]);
      var n := |x| - |LStrip(x)|;
      assert x[..n] == [x[0]] + x[1..][..n - 1];
    }
  }

  lemma TidyIsTrim(s: string)
    requires OnlyNewlines(s)
    ensures Tidy(s) == Strip(Trim(s))
  {
    var b := JoinedIsTrimmed(s);
    StripTrailing(JoinLines(SplitLines(s)), b);
  }

  // ----- one statement -----

  lemma {:induction false} DropLeadStops(z: string)
    ensures FirstStop(DropLead(z), "") == FirstStop(z, "")
    decreases |z|
  {
    hide QuoteRest, BlockRest, LineRest;
    if z != [] {
      if IsBlank(z[0]) {
        NotBackslash(z[0]);
        DropLeadStops(z[1..]);
      } else if Starts(z, '-', '-') {
        DropLeadStops(LineRest(z[2..]));
      } else if Starts(z, '/', '*') && BlockRest(z[2..]).Some? {
        BlockRestShrinks(z[2..]);
        DropLeadStops(BlockRest(z[2..]).value);
      }
    }
  }

  /** A text that stops nowhere, or only at its very end. */
  predicate OneStatement(z: string)
  {
    FirstStop(z, "") == Ok(None) || FirstStop(z, "") == Ok(Some(""))
  }

  /** What is kept of one statement starts with code and stops only at its end. */
  lemma KeptIsOneStatement(z: string, r: string)
    requires FirstStop(z, "") == Ok(Some(r))
    ensures |r| < |DropLead(z)| && CodeFirst(Kept(z, r)) && OneStatement(Kept(z, r))
  {
    var k := DropLead(z);
    DropLeadStops(z);
    DropLeadIsCodeFirst(z);
    FirstStopCut(k, "");
    var p := Kept(z, r);
    assert p == Cut(k, |r|) && p[0] == k[0];
    assert Starts(p, '/', '*') ==> Starts(k, '/', '*');
    assert Starts(p, '-', '-') ==> Starts(k, '-', '-');
  }

  lemma {:induction false} TrimChars(z: string)
    ensures forall c | c in Trim(z) :: c in z
  {
    if z != [] {
      TrimChars(z[1..]);
      assert z == [z[0]] + z[1..];
    }
  }

  lemma StripParts(x: string) returns (a: string, b: string)
    ensures AllBlank(a) && AllBlank(b) && x == a + Strip(x) + b && Tight(Strip(x))
    ensures forall c | c in Strip(x) :: c in x
  {
    LStripSplit(x);
    var y := LStrip(x);
    a := x[..|x| - |y|];
    b := RStripSplit(y);
    assert x == a + (RStrip(y) + b);
    assert RStrip(y) != [] ==> RStrip(y)[0] == y[0];
  }

  lemma {:induction false} RStripSplit(y: string) returns (b: string)
    ensures AllBlank(b) && y == RStrip(y) + b && (RStrip(y) != [] ==> !IsBlank(RStrip(y)[|RStrip(y)| - 1]))
    decreases |y|
  {
    if y != [] && IsBlank(y[|y| - 1]) {
      var c := RStripSplit(y[..|y| - 1]);
      b := c + [y[|y| - 1]];
      assert y == y[..|y| - 1] + [y[|y| - 1]];
    } else {
      b := [];
      assert y == y + [];
    }
  }

  /** Code at the front keeps the tidied text from having a blank front. */
  lemma TrimFront(k: string, a: string, t: string, b: string)
    requires CodeFirst(k) && Trim(k) == a + t + b && AllBlank(a) && AllBlank(b) && t == Strip(Trim(k))
    ensures a == "" || k == ""
    ensures Trim(k) == t + b
  {
    BlankFront(a, t + b);
    assert a + t + b == a + (t + b);
    assert k != "" ==> Trim(k)[0] == k[0];
  }

  lemma BlankFront(a: string, x: string)
    requires AllBlank(a)
    ensures a == "" || IsBlank((a + x)[0])
  {
    assert a != "" ==> a[0] in a;
  }

  lemma TidyTwice(k: string, t: string, b: string)
    requires OnlyNewlines(k) && t == Strip(Trim(k)) && Trim(k) == t + b && AllBlank(b)
    requires OnlyNewlines(t)
    ensures Tidy(t) == t
  {
    hide Trim, Tidy, LStrip, RStrip, IsBlank;
    TidyIsTrim(t);
    TrimTwice(k);
    var c := TrimPad(t, b);
    StripTrailing(Trim(t), c);
    StripTwice(Trim(k));
  }

  lemma StripTwice(x: string)
    ensures Strip(Strip(x)) == Strip(x)
  {
    var a, b := StripParts(x);
    StripTight(Strip(x));
  }

  lemma TidyKeepsFront(k: string, t: string, b: string)
    requires CodeFirst(k) && Trim(k) == t + b && AllBlank(b)
    requires Tight(t)
    ensures CodeFirst(t)
  {
    if t != "" && k != "" {
      assert !Trailing(k);
      TrimKeeps(k);
      SlashNotBlank();
      StartsPad(t, b);
      if Starts(t, '/', '*') {
        assert Starts(k, '/', '*');
        BlockRestTrim(k[2..]);
        assert Trim(k)[2..] == Trim(k[2..]);
        BlockRestPad(t[2..], b);
      }
    }
  }

  lemma {:induction false} DropLeadSuffix(z: string)
    ensures IsSuffix(DropLead(z), z)
    decreases |z|
  {
    hide QuoteRest, BlockRest, LineRest;
    if z != [] {
      if IsBlank(z[0]) {
        DropLeadSuffix(z[1..]);
        SuffixOfTail(DropLead(z), z, 1);
      } else if Starts(z, '-', '-') {
        DropLeadSuffix(LineRest(z[2..]));
        LineRestSuffix(z[2..]);
        SuffixOfTail(LineRest(z[2..]), z, 2);
        SuffixTrans(DropLead(z), LineRest(z[2..]), z);
      } else if Starts(z, '/', '*') && BlockRest(z[2..]).Some? {
        var rest := BlockRest(z[2..]).value;
        BlockRestShrinks(z[2..]);
        DropLeadSuffix(rest);
        BlockRestSuffix(z[2..]);
        SuffixOfTail(rest, z, 2);
        SuffixTrans(DropLead(z), rest, z);
      }
    }
  }

  // ----- nothing but blanks, leading comments and bare semicolons is lost -----

  /** The characters that are not blank, in order. */
  function Ink(s: string): string
  {
    if s == [] then [] else (if IsBlank(s[0]) then [] else [s[0]]) + Ink(s[1..])
  }

  lemma {:induction false} InkAppend(a: string, b: string)
    ensures Ink(a + b) == Ink(a) + Ink(b)
  {
    if a == [] {
      assert a + b == b;
    } else {
      assert (a + b)[1..] == a[1..] + b;
      InkAppend(a[1..], b);
    }
  }

  lemma {:induction false} InkBlank(b: string)
    requires AllBlank(b)
    ensures Ink(b) == ""
  {
    if b != [] {
      BlankTail(b);
      InkBlank(b[1..]);
    }
  }

  lemma InkStrip(x: string)
    ensures Ink(Strip(x)) == Ink(x)
  {
    hide Strip, Ink;
    var a, b := StripParts(x);
    InkAppend(a + Strip(x), b);
    InkAppend(a, Strip(x));
    InkBlank(a);
    InkBlank(b);
  }

  lemma InkRStrip(x: string)
    ensures Ink(RStrip(x)) == Ink(x)
  {
    hide RStrip, Ink;
    var b := RStripSplit(x);
    InkAppend(RStrip(x), b);
    InkBlank(b);
  }

  lemma {:induction false} InkJoined(s: string)
    ensures Ink(JoinLines(SplitLines(s))) == Ink(s)
    decreases |s|
  {
    hide Ink, RStrip, JoinLines, IsBlank;
    if s == [] {
      NoLines();
    } else {
      var n := LineLength(s);
      InkRStrip(s[..n]);
      JoinCons(s[..n], []);
      assert [s[..n]] + [] == [s[..n]];
      if n == |s| {
        assert s[..n] == s;
      } else {
        var rest := s[n + 1..];
        assert s == s[..n] + [s[n]] + rest;
        LineEndInk(s[n]);
        InkAppend(s[..n] + [s[n]], rest);
        InkAppend(s[..n], [s[n]]);
        InkJoined(rest);
        JoinCons(s[..n], SplitLines(rest));
        if SplitLines(rest) == [] {
          NoLines();
          InkBlank("");
        } else {
          LineEndInk('\n');
          InkAppend(RStrip(s[..n]) + "\n", JoinLines(SplitLines(rest)));
          InkAppend(RStrip(s[..n]), "\n");
        }
      }
    }
  }

  lemma LineEndInk(c: char)
    requires IsLineEnd(c)
    ensures Ink([c]) == ""
  {
    assert [c][1..] == "";
  }

  /** Tidying takes away blanks only. */
  lemma TidyKeepsInk(s: string)
    ensures Ink(Tidy(s)) == Ink(s)
  {
    InkJoined(s);
    InkStrip(JoinLines(SplitLines(s)));
  }

  /** One statement's stretch of the text: what is dropped in front, and what is kept. */
  datatype Segment = Segment(lead: string, kept: string)

  function Segments(z: string): seq<Segment>
    requires Split(z).Ok?
    decreases |z|
  {
    var lead := Cut(z, |DropLead(z)|);
    match FirstStop(z, "").value
    case None => [Segment(lead, DropLead(z))]
    case Some(r) => [Segment(lead, Kept(z, r))] + Segments(r)
  }

  function Whole(segments: seq<Segment>): string
  {
    if segments == [] then "" else segments[0].lead + segments[0].kept + Whole(segments[1..])
  }

  /** What the segments keep, leaving out the bare ones: empty, or a lone semicolon. */
  function KeptInk(segments: seq<Segment>): string
  {
    if segments == [] then ""
    else
      var ink := Ink(segments[0].kept);
      (if ink == ";" then "" else ink) + KeptInk(segments[1..])
  }

  function Flatten(texts: seq<string>): string
  {
    if texts == [] then "" else texts[0] + Flatten(texts[1..])
  }

  /** Only blanks and whole comments. */
  predicate IsLead(x: string)
  {
    DropLead(x) == ""
  }

  lemma {:induction false} LeadIsLead(z: string)
    ensures IsLead(Cut(z, |DropLead(z)|))
    decreases |z|
  {
    hide QuoteRest, BlockRest, LineRest;
    var n := |DropLead(z)|;
    var p := Cut(z, n);
    if z != [] {
      if IsBlank(z[0]) {
        LeadIsLead(z[1..]);
        assert p[1..] == Cut(z[1..], n);
      } else if Starts(z, '-', '-') {
        LeadIsLead(LineRest(z[2..]));
        LineRestCut(z[2..], n);
        assert p[2..] == Cut(z[2..], n);
      } else if Starts(z, '/', '*') && BlockRest(z[2..]).Some? {
        BlockRestShrinks(z[2..]);
        LeadIsLead(BlockRest(z[2..]).value);
        BlockRestCut(z[2..], n);
        assert p[2..] == Cut(z[2..], n);
      } else {
        assert p == "";
      }
    }
  }

  lemma BareInk(t: string)
    requires Tight(t)
    ensures Ink(t) == ";" <==> t == ";"
    ensures Ink(t) == "" <==> t == ""
  {
    if t != "" {
      InkEnds(t);
    }
    assert ";"[1..] == "" && !IsBlank(';');
  }

  lemma InkEnds(t: string)
    requires t != "" && Tight(t)
    ensures Ink(t) != "" && (|t| > 1 ==> |Ink(t)| > 1)
  {
    if |t| > 1 {
      var n := |t| - 1;
      assert t == [t[0]] + t[1..n] + [t[n]];
      InkAppend([t[0]] + t[1..n], [t[n]]);
      InkAppend([t[0]], t[1..n]);
      assert [t[0]][1..] == "" && [t[n]][1..] == "";
    } else {
      assert t[1..] == "";
    }
  }

  lemma EmitInk(k: string)
    ensures Ink(Flatten(Emit(Tidy(k)))) == if Ink(k) == ";" then "" else Ink(k)
  {
    hide Tidy;
    var t := Tidy(k);
    TidyKeepsInk(k);
    TidyIsTight(k);
    BareInk(t);
    assert [t][1..] == [] && t + "" == t;
  }

  lemma TidyIsTight(k: string)
    ensures Tight(Tidy(k))
  {
    var a, b := StripParts(JoinLines(SplitLines(k)));
  }

  lemma {:induction false} FlattenAppend(a: seq<string>, b: seq<string>)
    ensures Flatten(a + b) == Flatten(a) + Flatten(b)
  {
    if a == [] {
      assert a + b == b;
    } else {
      assert (a + b)[1..] == a[1..] + b;
      FlattenAppend(a[1..], b);
    }
  }

  /** The three promises about a text and its segments. */
  predicate LosesNothing(z: string)
    requires Split(z).Ok?
  {
    && Whole(Segments(z)) == z
    && (forall s | s in Segments(z) :: IsLead(s.lead) && CodeFirst(s.kept))
    && Ink(Flatten(Split(z).value)) == KeptInk(Segments(z))
  }

  lemma LastSegment(z: string)
    requires FirstStop(z, "") == Ok(None)
    ensures LosesNothing(z)
  {
    hide Tidy, FirstStop, DropLead, Ink, Emit, CodeFirst, IsLead, Whole, KeptInk, Flatten;
    LeadIsLead(z);
    DropLeadIsCodeFirst(z);
    DropLeadSuffix(z);
    var lead, k := Cut(z, |DropLead(z)|), DropLead(z);
    assert z == lead + k;
    EmitInk(k);
    OneSegment(Segment(lead, k));
  }

  lemma OneMoreSegment(z: string, r: string)
    requires FirstStop(z, "") == Ok(Some(r)) && Split(r).Ok? && LosesNothing(r)
    ensures LosesNothing(z)
  {
    hide Tidy, FirstStop, DropLead, Ink, Emit, Kept, CodeFirst, IsLead, Whole, KeptInk, Flatten;
    var lead, k, kept := Cut(z, |DropLead(z)|), DropLead(z), Kept(z, r);
    KeptIsOneStatement(z, r);
    LeadIsLead(z);
    SegmentJoins(z, r);
    EmitInk(kept);
    FlattenAppend(Emit(Tidy(kept)), Split(r).value);
    InkAppend(Flatten(Emit(Tidy(kept))), Flatten(Split(r).value));
    ConsSegment(Segment(lead, kept), Segments(r));
  }

  lemma SegmentJoins(z: string, r: string)
    requires FirstStop(z, "") == Ok(Some(r)) && |r| < |DropLead(z)|
    ensures z == Cut(z, |DropLead(z)|) + Kept(z, r) + r
  {
    hide FirstStop, DropLead;
    DropLeadSuffix(z);
    KeptThenRest(z, r);
    assert z == Cut(z, |DropLead(z)|) + (Kept(z, r) + r);
  }

  lemma {:induction false} EachLosesNothing(z: string)
    requires Split(z).Ok?
    ensures LosesNothing(z)
    decreases |z|
  {
    hide Tidy, FirstStop, Kept, LosesNothing, Emit;
    match FirstStop(z, "").value
    case None => LastSegment(z);
    case Some(r) =>
      EachLosesNothing(r);
      OneMoreSegment(z, r);
  }

  /** The text is its segments in order; each drops in front only blanks and whole comments, and keeps
      the rest from its first code on; the statements, in order, hold every non-blank character that
      is kept, except those of segments that are nothing but a semicolon. */
  lemma NothingLost(z: string)
    requires Split(z).Ok?
    ensures Whole(Segments(z)) == z
    ensures forall s | s in Segments(z) :: IsLead(s.lead) && CodeFirst(s.kept)
    ensures Ink(Flatten(Split(z).value)) == KeptInk(Segments(z))
  {
    hide Split, Segments, Whole, KeptInk, Ink, Flatten, IsLead, CodeFirst;
    EachLosesNothing(z);
  }

  lemma OneSegment(s: Segment)
    ensures Whole([s]) == s.lead + s.kept
    ensures KeptInk([s]) == if Ink(s.kept) == ";" then "" else Ink(s.kept)
  {
    assert [s][1..] == [];
  }

  lemma ConsSegment(s: Segment, later: seq<Segment>)
    ensures Whole([s] + later) == s.lead + s.kept + Whole(later)
    ensures KeptInk([s] + later) == (if Ink(s.kept) == ";" then "" else Ink(s.kept)) + KeptInk(later)
  {
    assert ([s] + later)[1..] == later;
  }

  lemma StopSuffix(z: string)
    requires FirstStop(z, "").Ok? && FirstStop(z, "").value.Some?
    ensures IsSuffix(FirstStop(z, "").value.value, z)
  {
    FirstStopCut(z, "");
  }

  lemma KeptThenRest(z: string, r: string)
    requires FirstStop(z, "") == Ok(Some(r)) && |r| < |DropLead(z)|
    ensures Kept(z, r) + r == DropLead(z)
  {
    hide FirstStop, DropLead;
    DropLeadStops(z);
    StopSuffix(DropLead(z));
  }
}
