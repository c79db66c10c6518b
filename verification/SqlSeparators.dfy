/** A text whose only statement splits further (odps/utils.py): the tidying of a statement turns a vertical tab into a
    line feed, which ends a comment that went on before. */
module SqlSeparators {
  import opened Text
  import opened SqlLexing
  import opened SqlSplit
  import opened SqlPromises
  import opened SqlResplit

  const WITH_TAB := "a--" + ['\U{0b}'] + ";b"
  const WITH_NEWLINE := "a--\n;b"

  lemma TabIsInTheComment()
    ensures FirstStop(WITH_TAB, "") == Ok(None) && DropLead(WITH_TAB) == WITH_TAB
  {
    var z := WITH_TAB;
    var y := z[1..];
    var x := y[2..];
    assert x == ['\U{0b}', ';', 'b'];
    assert LineRest(x) == LineRest(x[1..]) && x[1..] == [';', 'b'];
    assert LineRest(x[1..]) == LineRest(x[2..]) && x[1..][1..] == x[2..] == ['b'];
    assert LineRest(x[2..]) == LineRest(x[3..]) && x[2..][1..] == x[3..] == [];
    assert AfterToken(z, "") == Ok(Some((y, "")));
    assert AfterToken(y, "") == Ok(Some(([], "")));
    assert FirstStop(y, "") == FirstStop([], "");
  }

  lemma TabBecomesNewline()
    ensures Tidy(WITH_TAB) == WITH_NEWLINE
  {
    var z := WITH_TAB;
    assert z[1..][1..] == z[2..] && z[2..][1..] == z[3..];
    assert z[3..][0] == '\U{0b}' && LineLength(z[3..]) == 0;
    assert LineLength(z[2..]) == 1 && LineLength(z[1..]) == 2 && LineLength(z) == 3;
    assert z[..3] == "a--" && z[4..] == ";b";
    assert LineLength(";b") == 2 by {
      assert ";b"[1..] == "b" && "b"[1..] == "";
    }
    assert SplitLines(";b") == [";b"];
    assert SplitLines(z) == ["a--", ";b"];
    assert ["a--", ";b"][1..] == [";b"];
    assert RStrip("a--") == "a--" && RStrip(";b") == ";b";
    assert JoinLines(["a--", ";b"]) == "a--" + "\n" + ";b";
    assert "a--" + "\n" + ";b" == WITH_NEWLINE;
    StripTight(WITH_NEWLINE);
  }

  lemma NewlineEndsTheComment()
    ensures FirstStop(WITH_NEWLINE, "") == Ok(Some("b"))
  {
    var z := WITH_NEWLINE;
    var y := z[1..];
    assert y[2..] == "\n;b" && LineRest("\n;b") == "\n;b";
    assert AfterToken(z, "") == Ok(Some((y, "")));
    assert AfterToken(y, "") == Ok(Some(("\n;b", "")));
    assert "\n;b"[1..] == ";b" && ";b"[1..] == "b";
    assert AfterToken("\n;b", "") == Ok(Some((";b", "")));
    assert FirstStop(";b", "") == Ok(Some("b"));
    assert FirstStop("\n;b", "") == FirstStop(";b", "");
    assert FirstStop(y, "") == FirstStop("\n;b", "");
  }

  /** A statement with code in it is emitted. */
  lemma CodeIsEmitted(k: string)
    requires Ink(k) != "" && Ink(k)[0] != ';'
    ensures |Emit(Tidy(k))| == 1
  {
    hide Tidy;
    TidyKeepsInk(k);
    assert Ink("") == "" && Ink(";")[0] == ';';
  }

  lemma LastIsOne()
    ensures Split("b").Ok? && |Split("b").value| == 1
  {
    hide Tidy, Emit;
    assert "b"[1..] == "" && AfterToken("b", "") == Ok(Some(("", "")));
    assert FirstStop("b", "") == Ok(None);
    assert Ink("b")[0] == 'b';
    CodeIsEmitted("b");
  }

  lemma FirstIsOne()
    ensures |Emit(Tidy(Kept(WITH_NEWLINE, "b")))| == 1
  {
    hide Tidy, Emit;
    assert Kept(WITH_NEWLINE, "b")[0] == 'a';
    assert Ink(Kept(WITH_NEWLINE, "b"))[0] == 'a';
    CodeIsEmitted(Kept(WITH_NEWLINE, "b"));
  }

  /** A text that is one statement, whose only statement splits in two. */
  lemma VerticalTabSplitsFurther()
    ensures SplitSql(WITH_TAB) == Ok([WITH_NEWLINE])
    ensures SplitSql(WITH_NEWLINE).Ok? && |SplitSql(WITH_NEWLINE).value| == 2
  {
    hide FirstStop, DropLead, Tidy, Normalize;
    NormalizedStays(WITH_TAB);
    NormalizedStays(WITH_NEWLINE);
    TabIsInTheComment();
    TabBecomesNewline();
    NewlineEndsTheComment();
    LastIsOne();
    FirstIsOne();
  }
}
