/** When the statements that `split_sql_by_semicolon` (odps/utils.py) returns split no further. */
module SqlResplit {
  import opened Text
  import opened SqlLexing
  import opened SqlTrimming
  import opened SqlSplit
  import opened SqlPromises

  // ----- every line separator as a line feed -----

  function LineFeed(c: char): char
  {
    if IsLineEnd(c) then '\n' else c
  }

  /** What tidying makes of the line separators. */
  function Newlined(s: string): (r: string)
    ensures |r| == |s| && forall i | 0 <= i < |s| :: r[i] == LineFeed(s[i])
  {
    seq(|s|, i requires 0 <= i < |s| => LineFeed(s[i]))
  }

  lemma NewlinedRest(s: string, n: nat)
    requires n <= |s|
    ensures Newlined(s)[n..] == Newlined(s[n..])
  {
  }

  lemma {:induction false} NewlinedLineLength(s: string)
    ensures LineLength(Newlined(s)) == LineLength(s)
    decreases |s|
  {
    if s != [] {
      NewlinedRest(s, 1);
      NewlinedLineLength(s[1..]);
    }
  }

  lemma {:induction false} NewlinedLines(s: string)
    ensures SplitLines(Newlined(s)) == SplitLines(s)
    decreases |s|
  {
    hide LineLength, Newlined;
    var n := LineLength(s);
    NewlinedLineLength(s);
    assert Newlined(s)[..n] == s[..n];
    if n == |s| {
      assert s[..n] == s && Newlined(s)[..n] == Newlined(s);
    } else {
      NewlinedRest(s, n + 1);
      NewlinedLines(s[n + 1..]);
    }
  }

  lemma NewlinedTidy(s: string)
    ensures Tidy(Newlined(s)) == Tidy(s)
  {
    NewlinedLines(s);
  }

  lemma {:induction false} NewlinedBlock(z: string)
    ensures BlockRest(Newlined(z)).None? <==> BlockRest(z).None?
    decreases |z|
  {
    if z != [] {
      NewlinedRest(z, 1);
      NewlinedBlock(z[1..]);
    }
  }

  lemma NewlinedCodeFirst(k: string)
    requires CodeFirst(k)
    ensures CodeFirst(Newlined(k))
  {
    if |k| >= 2 {
      NewlinedRest(k, 2);
      NewlinedBlock(k[2..]);
    }
  }

  lemma NewlinedStays(k: string)
    requires OnlyNewlines(k)
    ensures Newlined(k) == k
  {
    forall i | 0 <= i < |k| ensures Newlined(k)[i] == k[i] {
      assert k[i] in k;
    }
  }

  // ----- one statement, tidied -----

  /** With line feeds for its separators, the text stops nowhere or has only blanks left where it stops. */
  predicate Stays(k: string)
  {
    var stop := FirstStop(Newlined(k), "");
    stop.Ok? && (stop.value.Some? ==> AllBlank(stop.value.value))
  }

  /** The tidied statement is tidy, starts with code, and stops where the text with line feeds does. */
  lemma TidyStops(k: string) returns (b: string)
    requires CodeFirst(k) && '\r' !in k
    ensures var m, t := Newlined(k), Tidy(k);
            && AllBlank(b) && Tight(t) && CodeFirst(t) && Tidy(t) == t && '\r' !in t
            && FirstStop(t + b, "") == match FirstStop(m, "")
                                       case Raise(e) => Raise(e)
                                       case Ok(None) => Ok(None)
                                       case Ok(Some(r)) => Ok(Some(Trim(r)))
  {
    hide Trim, LStrip, RStrip, FirstStop, BlockRest, Tidy, IsBlank, Newlined;
    var m, t := Newlined(k), Tidy(k);
    NewlinedTidy(k);
    NewlinedCodeFirst(k);
    NewlinedChars(k);
    TidyIsTrim(m);
    TrimChars(m);
    var a;
    a, b := StripParts(Trim(m));
    FirstStopTrim(m, "");
    TrimOfNothing();
    TrimFront(m, a, t, b);
    assert Trim(m) == t + b;
    TidyTwice(m, t, b);
    TidyKeepsFront(m, t, b);
  }

  lemma TrimOfNothing()
    ensures Trim("") == ""
  {
  }

  lemma NewlinedChars(k: string)
    ensures OnlyNewlines(Newlined(k)) && ('\r' !in k ==> '\r' !in Newlined(k))
  {
    forall c | c in Newlined(k) ensures (IsLineEnd(c) ==> c == '\n') && ('\r' !in k ==> c != '\r') {
      var i :| 0 <= i < |k| && Newlined(k)[i] == c;
      assert k[i] in k;
    }
  }

  lemma {:induction false} NormalizedStays(s: string)
    requires '\r' !in s
    ensures Normalize(s) == s
  {
    if s != [] {
      assert s[0] in s;
      forall c | c in s[1..] ensures c != '\r' {
        assert c in s;
      }
      NormalizedStays(s[1..]);
    }
  }

  lemma SplitsToItself(t: string)
    requires t != "" && t != ";" && '\r' !in t
    requires CodeFirst(t) && OneStatement(t) && Tidy(t) == t
    ensures SplitSql(t) == Ok([t])
  {
    NormalizedStays(t);
    CodeFirstIsKept(t);
    if FirstStop(t, "").value.Some? {
      assert Cut(t, 0) == t;
      NothingToSplit();
      assert [t] + [] == [t];
    }
  }

  lemma NothingToSplit()
    ensures Split("") == Ok([])
  {
    assert SplitLines("") == [];
  }

  // ----- what is left is seen in the ink -----

  lemma {:induction false} TrimKeepsInk(z: string)
    ensures Ink(Trim(z)) == Ink(z)
    decreases |z|
  {
    if z != [] {
      TrimKeepsInk(z[1..]);
      assert !Trailing(z) ==> Trim(z)[1..] == Trim(z[1..]);
    }
  }

  lemma {:induction false} NoInkIsBlank(x: string)
    ensures AllBlank(x) <==> Ink(x) == ""
    decreases |x|
  {
    if x != [] {
      NoInkIsBlank(x[1..]);
      assert x == [x[0]] + x[1..];
    }
  }

  lemma {:induction false} KeptInkIsLess(segments: seq<Segment>)
    ensures |KeptInk(segments)| <= |Ink(Whole(segments))|
    decreases |segments|
  {
    hide Ink;
    if segments != [] {
      KeptInkIsLess(segments[1..]);
      var s := segments[0];
      InkAppend(s.lead + s.kept, Whole(segments[1..]));
      InkAppend(s.lead, s.kept);
    }
  }

  /** Statements hold no more than the text. */
  lemma StatementsAreLess(z: string)
    requires Split(z).Ok?
    ensures |Ink(Flatten(Split(z).value))| <= |Ink(z)|
  {
    hide Split, Ink, Segments, KeptInk, Whole;
    NothingLost(z);
    KeptInkIsLess(Segments(z));
  }

  lemma FlattenOne(t: string)
    ensures Flatten([t]) == t
  {
    assert [t][1..] == [] && t + "" == t;
  }

  /** With code left behind its first stop, a text does not split to itself. */
  lemma MoreIsSplit(t: string, r: string)
    requires CodeFirst(t) && '\r' !in t && FirstStop(t, "") == Ok(Some(r)) && !AllBlank(r)
    ensures SplitSql(t) != Ok([t])
  {
    hide FirstStop, Ink, Tidy, DropLead, AllBlank, CodeFirst, Flatten;
    NormalizedStays(t);
    CodeFirstIsKept(t);
    KeptIsOneStatement(t, r);
    KeptThenRest(t, r);
    StopsAtSemicolon(t, r);
    var kept := Kept(t, r);
    InkAppend(kept, r);
    NoInkIsBlank(r);
    NoInkIsBlank(kept);
    TidyKeepsInk(kept);
    if Split(r).Ok? {
      StatementsAreLess(r);
      FlattenOne(t);
      var first, later := Emit(Tidy(kept)), Split(r).value;
      assert first == [] ==> first + later == later;
      assert first != [] ==> (first + later)[0] == Tidy(kept);
    }
  }

  lemma StopsAtSemicolon(t: string, r: string)
    requires CodeFirst(t) && FirstStop(t, "") == Ok(Some(r))
    ensures !AllBlank(Kept(t, r))
  {
    hide DropLead;
    CodeFirstIsKept(t);
    FirstStopCut(t, "");
    var kept := Kept(t, r);
    assert kept[|kept| - 1] == ';' && kept[|kept| - 1] in kept;
  }

  /** A tidied statement splits to itself exactly when the statement stays one with line feeds for its separators. */
  lemma TidiedStaysIff(k: string)
    requires CodeFirst(k) && '\r' !in k && Emit(Tidy(k)) != []
    ensures SplitSql(Tidy(k)) == Ok([Tidy(k)]) <==> Stays(k)
  {
    hide Trim, FirstStop, BlockRest, Tidy, Newlined, Ink, Tight, AllBlank, SplitSql, CodeFirst;
    var t := Tidy(k);
    var b := TidyStops(k);
    FirstStopPad(t, b, "");
    var stop := FirstStop(t, "");
    if stop.Raise? {
      RaisedIsRaised(t);
    } else if stop.value.None? {
      SplitsToItself(t);
    } else {
      var r, whole := stop.value.value, FirstStop(Newlined(k), "").value.value;
      TrimKeepsInk(whole);
      NoInkIsBlank(whole);
      NoInkIsBlank(r);
      NoInkIsBlank(b);
      InkAppend(r, b);
      if AllBlank(r) {
        BlankRestIsEmpty(t, r);
        SplitsToItself(t);
      } else {
        MoreIsSplit(t, r);
      }
    }
  }

  lemma RaisedIsRaised(t: string)
    requires '\r' !in t && FirstStop(t, "").Raise?
    ensures SplitSql(t).Raise?
  {
    NormalizedStays(t);
  }

  lemma BlankRestIsEmpty(t: string, r: string)
    requires Tight(t) && FirstStop(t, "") == Ok(Some(r)) && AllBlank(r)
    ensures r == ""
  {
    FirstStopCut(t, "");
    if r != "" {
      LastIsCode(t, r);
    }
  }

  lemma LastIsCode(t: string, r: string)
    requires Tight(t) && IsSuffix(r, t) && r != ""
    ensures !AllBlank(r)
  {
    assert r[|r| - 1] in r && r[|r| - 1] == t[|t| - 1];
  }

  // ----- all statements -----

  lemma KeptChars(z: string, r: string)
    ensures forall c | c in Kept(z, r) :: c in z
    ensures r == "" ==> Kept(z, r) == DropLead(z)
  {
    DropLeadSuffix(z);
    var k := DropLead(z);
    forall c | c in Kept(z, r) ensures c in z {
      var i :| 0 <= i < |Kept(z, r)| && Kept(z, r)[i] == c;
      assert z[|z| - |k|..][i] == c;
    }
  }

  lemma StopChars(z: string)
    requires FirstStop(z, "").Ok? && FirstStop(z, "").value.Some?
    ensures forall c | c in FirstStop(z, "").value.value :: c in z
  {
    FirstStopCut(z, "");
    var r := FirstStop(z, "").value.value;
    forall c | c in r ensures c in z {
      assert c in z[|z| - |r|..];
    }
  }

  predicate SplitsAlone(t: string)
  {
    SplitSql(t) == Ok([t])
  }

  /** Empty segments and lone semicolons give no statement. */
  predicate StaysIfEmitted(s: Segment)
  {
    Emit(Tidy(s.kept)) != [] ==> Stays(s.kept)
  }

  lemma SegmentIff(lead: string, k: string)
    requires CodeFirst(k) && '\r' !in k
    ensures (forall t | t in Emit(Tidy(k)) :: SplitsAlone(t)) <==> StaysIfEmitted(Segment(lead, k))
  {
    hide Tidy, CodeFirst, Stays, SplitSql;
    if Emit(Tidy(k)) != [] {
      TidiedStaysIff(k);
      assert Tidy(k) in Emit(Tidy(k));
    }
  }

  lemma {:induction false} EachIff(z: string)
    requires Split(z).Ok? && '\r' !in z
    ensures (forall t | t in Split(z).value :: SplitsAlone(t)) <==> (forall s | s in Segments(z) :: StaysIfEmitted(s))
    decreases |z|
  {
    hide Tidy, FirstStop, DropLead, Emit, SplitsAlone, StaysIfEmitted, Kept, CodeFirst;
    var lead := Cut(z, |DropLead(z)|);
    match FirstStop(z, "").value
    case None =>
      DropLeadIsCodeFirst(z);
      KeptChars(z, "");
      SegmentIff(lead, DropLead(z));
    case Some(r) =>
      KeptIsOneStatement(z, r);
      KeptChars(z, r);
      StopChars(z);
      SegmentIff(lead, Kept(z, r));
      EachIff(r);
  }

  /** Every returned statement splits to itself alone exactly when every kept segment that gives a statement
      stays one statement with line feeds for its line separators. */
  lemma SplitsNoFurtherIff(sql: string)
    requires SplitSql(sql).Ok?
    ensures (forall t | t in SplitSql(sql).value :: SplitSql(t) == Ok([t]))
       <==> (forall s | s in Segments(Normalize(sql)) && Emit(Tidy(s.kept)) != [] :: Stays(s.kept))
  {
    hide Split, Segments, Normalize, Tidy, Emit, Stays;
    EachIff(Normalize(sql));
    assert forall t :: SplitsAlone(t) <==> SplitSql(t) == Ok([t]);
    assert forall s :: StaysIfEmitted(s) <==> (Emit(Tidy(s.kept)) != [] ==> Stays(s.kept));
  }

  // ----- line feeds only -----

  lemma {:induction false} SegmentsStay(z: string)
    requires Split(z).Ok? && OnlyNewlines(z)
    ensures forall s | s in Segments(z) :: Stays(s.kept)
    decreases |z|
  {
    hide FirstStop, DropLead, Newlined, Kept;
    match FirstStop(z, "").value
    case None =>
      DropLeadStops(z);
      KeptChars(z, "");
      NewlinedStays(DropLead(z));
    case Some(r) =>
      KeptIsOneStatement(z, r);
      KeptChars(z, r);
      NewlinedStays(Kept(z, r));
      StopChars(z);
      SegmentsStay(r);
  }

  /** In particular, with no line separator but the line feed, every returned statement splits to itself alone. */
  lemma SplitsNoFurther(sql: string, t: string)
    requires OnlyNewlines(Normalize(sql)) && SplitSql(sql).Ok? && t in SplitSql(sql).value
    ensures SplitSql(t) == Ok([t])
  {
    hide Segments, Normalize, Tidy, Emit, Stays;
    SegmentsStay(Normalize(sql));
    SplitsNoFurtherIff(sql);
  }
}
