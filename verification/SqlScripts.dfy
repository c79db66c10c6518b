/** The statements of a whole script (odps/utils.py): it is cut at exactly the semicolons outside quotes, comments and
    brackets, and each statement is shown from its first code. */
module SqlScripts {
  import opened Text
  import opened SqlLexing
  import opened SqlSplit
  import opened SqlQuotes
  import opened SqlReading

  // ----- before the first code -----

  predicate LeadPart(p: Part)
  {
    p.LineComment? || p.BlockComment? || (p.Char? && IsBlank(p.c))
  }

  /** The parts from the first that is code. */
  function WithoutLead(ps: seq<Part>): (r: seq<Part>)
    ensures r == [] || !LeadPart(r[0])
  {
    if ps != [] && LeadPart(ps[0]) then WithoutLead(ps[1..]) else ps
  }

  lemma CodePartStays(p: Part, next: string, top: bool)
    requires PartOk(p, next, top) && !LeadPart(p)
    ensures DropLead(SpellPart(p) + next) == SpellPart(p) + next
  {
    hide PartsOk, SpellAll, UnitsOk, SpellUnits;
    var z := SpellPart(p) + next;
    assert z[0] == SpellPart(p)[0];
    BracketIsCode();
    assert p.Char? && |z| > 1 ==> z[1] == next[0];
  }

  lemma BracketIsCode()
    ensures forall c | c in {'{', '[', '(', '"', '\'', '`', ';', '/'} :: !IsBlank(c)
  {
  }

  lemma LeadPartDrops(p: Part, next: string)
    requires PartOk(p, next, true) && LeadPart(p)
    ensures DropLead(SpellPart(p) + next) == DropLead(next)
  {
    hide PartsOk, SpellAll, NoBlockEnd;
    var z := SpellPart(p) + next;
    DashIsCode();
    match p
    case Char(c) => assert z[1..] == next;
    case LineComment(text) =>
      assert z[2..] == text + ("\n" + next);
      LineEnds(text, next);
      assert ("\n" + next)[1..] == next;
    case BlockComment(text) =>
      assert z[2..] == text + ("*/" + next);
      BlockEnds(text, next);
  }

  lemma DashIsCode()
    ensures !IsBlank('-') && !IsBlank('/') && IsBlank('\n')
  {
  }

  /** Blanks and whole comments in front are dropped, and nothing else. */
  lemma {:induction false} LeadDrops(ps: seq<Part>, next: string)
    requires PartsOk(ps, next, true)
    ensures DropLead(SpellAll(ps) + next)
         == if WithoutLead(ps) == [] then DropLead(next) else SpellAll(WithoutLead(ps)) + next
    decreases |ps|
  {
    hide DropLead, PartOk, SpellPart, LeadPart, SpellAll;
    if ps == [] {
      SpellNone(next);
    } else {
      SpellFirst(ps, next);
      if LeadPart(ps[0]) {
        LeadPartDrops(ps[0], SpellAll(ps[1..]) + next);
        LeadDrops(ps[1..], next);
      } else {
        CodePartStays(ps[0], SpellAll(ps[1..]) + next, true);
      }
    }
  }

  /** The ending, unless it is an unfinished line comment with no code before it. */
  function WithoutLeadEnding(e: Ending): string
  {
    if e.OpenLine? then "" else SpellEnding(e)
  }

  lemma EndingDrops(e: Ending)
    requires EndingOk(e, true, None)
    ensures DropLead(SpellEnding(e)) == WithoutLeadEnding(e)
  {
    hide Spell, SpellUnits, UnitsOk, NoBlockEnd, ReadingOk;
    DashIsCode();
    BracketIsCode();
    CloserIsCode();
    var z := SpellEnding(e);
    match e
    case OpenLine(text) =>
      assert z[2..] == text;
      LineEnds(text, "");
    case OpenBlock(text) =>
      assert z[2..] == text;
      BlockEnds(text, "");
    case _ =>
  }

  lemma CloserIsCode()
    ensures forall c | c in {'}', ']', ')'} :: !IsBlank(c)
  {
  }

  // ----- scripts -----

  /** Statements that end with a semicolon, and what comes behind the last of them. */
  datatype Script = Script(statements: seq<seq<Part>>, last: Reading)

  function SpellScript(x: Script): string
    decreases |x.statements|
  {
    if x.statements == [] then Spell(x.last)
    else SpellAll(x.statements[0]) + (";" + SpellScript(Script(x.statements[1..], x.last)))
  }

  predicate ScriptOk(x: Script)
    decreases |x.statements|
  {
    if x.statements == [] then ReadingOk(x.last, true, None) && !x.last.ending.Semicolon?
    else
      var later := Script(x.statements[1..], x.last);
      PartsOk(x.statements[0], ";" + SpellScript(later), true) && ScriptOk(later)
  }

  /** Nothing is returned for an empty statement or a bare semicolon. */
  function Returned(t: string): seq<string>
  {
    if t in {"", ";"} then [] else [t]
  }

  function Statements(statements: seq<seq<Part>>): seq<string>
  {
    if statements == [] then []
    else Returned(Tidy(SpellAll(WithoutLead(statements[0])) + ";")) + Statements(statements[1..])
  }

  function LastText(last: Reading): string
  {
    var code := WithoutLead(last.parts);
    if code == [] then WithoutLeadEnding(last.ending) else SpellAll(code) + SpellEnding(last.ending)
  }

  /** What the splitter returns for a script, or raises for a bracket that does not match. */
  function Result(x: Script): Outcome<seq<string>>
  {
    match Verdict(x.last.ending, false)
    case Raise(e) => Raise(e)
    case Ok(_) => Ok(Statements(x.statements) + Returned(Tidy(LastText(x.last))))
  }

  lemma ReturnedIsEmit(t: string)
    ensures Returned(t) == Emit(t)
  {
  }

  lemma FirstStatement(ps: seq<Part>, rest: string)
    requires PartsOk(ps, ";" + rest, true)
    ensures var z := SpellAll(ps) + (";" + rest);
            FirstStop(z, "") == Ok(Some(rest)) && Kept(z, rest) == SpellAll(WithoutLead(ps)) + ";"
  {
    hide FirstStop, PartsOk, SpellAll, WithoutLead, DropLead;
    var z := SpellAll(ps) + (";" + rest);
    ReadingDecides(Reading(ps, Semicolon(rest)));
    LeadDrops(ps, ";" + rest);
    EndingDrops(Semicolon(rest));
    var code := SpellAll(WithoutLead(ps));
    EmptyCode();
    assert DropLead(z) == code + (";" + rest);
    assert code + (";" + rest) == (code + ";") + rest;
  }

  lemma EmptyCode()
    ensures SpellAll([]) == "" && forall z: string :: SpellAll([]) + z == z
  {
  }

  lemma LastIs(last: Reading)
    requires ReadingOk(last, true, None) && !last.ending.Semicolon?
    ensures FirstStop(Spell(last), "") == Verdict(last.ending, false)
    ensures DropLead(Spell(last)) == LastText(last)
  {
    hide FirstStop, PartsOk, EndingOk, SpellAll, SpellEnding, WithoutLead, DropLead;
    ReadingDecides(last);
    LeadDrops(last.parts, SpellEnding(last.ending));
    EndingDrops(last.ending);
  }

  /** Every script is split into its statements. */
  lemma {:induction false} ScriptSplits(x: Script)
    requires ScriptOk(x)
    ensures Split(SpellScript(x)) == Result(x)
    decreases |x.statements|
  {
    hide FirstStop, PartsOk, ReadingOk, Spell, Tidy, Kept, DropLead, WithoutLead, Verdict, Emit, Returned, LastText;
    if x.statements == [] {
      LastIs(x.last);
      NeverSemicolon(x.last);
      ReturnedIsEmit(Tidy(LastText(x.last)));
      assert Statements(x.statements) + Returned(Tidy(LastText(x.last))) == Returned(Tidy(LastText(x.last)));
    } else {
      var later := Script(x.statements[1..], x.last);
      FirstStatement(x.statements[0], SpellScript(later));
      ScriptSplits(later);
      var first := Tidy(SpellAll(WithoutLead(x.statements[0])) + ";");
      ReturnedIsEmit(first);
      Regroup(Returned(first), Statements(later.statements), Returned(Tidy(LastText(x.last))));
    }
  }

  lemma NeverSemicolon(last: Reading)
    requires ReadingOk(last, true, None) && !last.ending.Semicolon?
    ensures Verdict(last.ending, false) == Ok(None) || Verdict(last.ending, false).Raise?
  {
    hide PartsOk;
    if last.ending.OpenGroup? {
      InsideNeverStops(last.ending.inner, Some(last.ending.open));
    }
  }

  /** Every text is a script. */
  lemma {:induction false} HasScript(z: string) returns (x: Script)
    ensures ScriptOk(x) && SpellScript(x) == z
    decreases |z|
  {
    hide PartsOk, EndingOk, SpellAll;
    var r := HasReading(z, true);
    if r.ending.Semicolon? {
      var later := HasScript(r.ending.rest);
      x := Script([r.parts] + later.statements, later.last);
      assert x.statements[1..] == later.statements;
    } else {
      x := Script([], r);
    }
  }

  // ----- line ends -----

  /** Texts joined by one of the three line ends, given for each. */
  function Joined(lines: seq<string>, ends: seq<string>): string
    requires |lines| == |ends| + 1
  {
    if ends == [] then lines[0] else lines[0] + ends[0] + Joined(lines[1..], ends[1..])
  }

  predicate LineEnd(e: string)
  {
    e == "\r\n" || e == "\n" || e == "\r"
  }

  /** A carriage return and a line feed are one line end, never two. */
  predicate Unambiguous(lines: seq<string>, ends: seq<string>)
    requires |lines| == |ends| + 1
  {
    forall i | 0 <= i < |ends| - 1 :: ends[i] == "\r" && lines[i + 1] == "" ==> ends[i + 1] != "\n"
  }

  lemma {:induction false} PlainFirst(line: string, rest: string)
    requires '\r' !in line
    ensures Normalize(line + rest) == line + Normalize(rest)
    decreases |line|
  {
    if line == "" {
      assert line + rest == rest;
    } else {
      assert line[0] in line;
      assert (line + rest)[0] == line[0] && (line + rest)[1..] == line[1..] + rest;
      PlainFirst(line[1..], rest);
    }
  }

  /** All three line ends become line feeds, and nothing else changes. */
  lemma {:induction false} LineEndsUnified(lines: seq<string>, ends: seq<string>)
    requires |lines| == |ends| + 1 && (forall e | e in ends :: LineEnd(e)) && Unambiguous(lines, ends)
    requires forall l | l in lines :: '\r' !in l && '\n' !in l
    ensures Normalize(Joined(lines, ends)) == Joined(lines, seq(|ends|, i => "\n"))
    decreases |ends|
  {
    hide Normalize;
    if ends == [] {
      PlainFirst(lines[0], "");
      assert lines[0] + "" == lines[0];
      NormalizedNothing();
    } else {
      var later := Joined(lines[1..], ends[1..]);
      assert lines[0] in lines && ends[0] in ends;
      PlainFirst(lines[0], ends[0] + later);
      assert lines[0] + ends[0] + later == lines[0] + (ends[0] + later);
      forall i | 0 <= i < |ends[1..]| - 1
        ensures ends[1..][i] == "\r" && lines[1..][i + 1] == "" ==> ends[1..][i + 1] != "\n"
      {
        assert ends[1..][i] == ends[i + 1] && lines[1..][i + 1] == lines[i + 2] && ends[1..][i + 1] == ends[i + 2];
      }
      LineEndsUnified(lines[1..], ends[1..]);
      if ends[0] == "\r" {
        LaterIsNoLineFeed(lines, ends);
      }
      OneLineEnd(ends[0], later);
      assert seq(|ends|, i => "\n")[1..] == seq(|ends[1..]|, i => "\n");
    }
  }

  lemma NormalizedNothing()
    ensures Normalize("") == ""
  {
  }

  lemma LaterIsNoLineFeed(lines: seq<string>, ends: seq<string>)
    requires |lines| == |ends| + 1 && ends != [] && ends[0] == "\r" && (forall e | e in ends :: LineEnd(e))
    requires Unambiguous(lines, ends) && forall l | l in lines :: '\n' !in l
    ensures var later := Joined(lines[1..], ends[1..]); later == "" || later[0] != '\n'
  {
    assert lines[1] in lines;
    if |ends| > 1 {
      assert ends[1] in ends;
      assert ends[0] == "\r" && lines[1] == "" ==> ends[1] != "\n";
      assert lines[1..][0] == lines[1] && ends[1..][0] == ends[1];
      assert lines[1] != "" ==> Joined(lines[1..], ends[1..])[0] == lines[1][0];
    }
  }

  lemma OneLineEnd(e: string, later: string)
    requires LineEnd(e) && (e == "\r" ==> later == "" || later[0] != '\n')
    ensures Normalize(e + later) == "\n" + Normalize(later)
  {
    if e == "\r\n" {
      assert (e + later)[2..] == later;
    } else {
      assert (e + later)[1..] == later;
    }
  }

  /** The characters at which Python ends a line, carriage return aside. */
  lemma LineEndsAre(c: char)
    ensures IsLineEnd(c) <==>
              c in {'\n', '\U{0b}', '\U{0c}', '\U{1c}', '\U{1d}', '\U{1e}', '\U{85}', '\U{2028}', '\U{2029}'}
  {
  }
}
