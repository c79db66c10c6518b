/** Where SQL statements end (odps/utils.py), stated without a scanner: every text is a sequence of characters, quoted
    texts, comments and bracketed groups, and it is cut at the first semicolon that is none of these. */
module SqlReading {
  import opened Text
  import opened SqlLexing
  import opened SqlSplit
  import opened SqlQuotes

  datatype Part =
    | Char(c: char)
    | Quoted(q: char, units: seq<Unit>)
    | LineComment(text: string)
    | BlockComment(text: string)
    | Group(open: char, parts: seq<Part>, close: char)

  /** What comes behind the parts. */
  datatype Ending =
    | Semicolon(rest: string)
    | Unmatched(close: char, rest: string)
    | Finished
    | OpenQuote(q: char, units: seq<Unit>, dangling: bool)
    | OpenLine(text: string)
    | OpenBlock(text: string)
    | OpenGroup(open: char, inner: Reading)

  datatype Reading = Reading(parts: seq<Part>, ending: Ending)

  // ----- how they are written -----

  function SpellPart(p: Part): (s: string)
    ensures s != ""
    decreases p
  {
    match p
    case Char(c) => [c]
    case Quoted(q, us) => [q] + SpellUnits(us) + [q]
    case LineComment(text) => "--" + text + "\n"
    case BlockComment(text) => "/*" + text + "*/"
    case Group(open, parts, close) => [open] + SpellAll(parts) + [close]
  }

  function SpellAll(ps: seq<Part>): string
    decreases ps
  {
    if ps == [] then "" else SpellPart(ps[0]) + SpellAll(ps[1..])
  }

  function SpellEnding(e: Ending): string
    decreases e
  {
    match e
    case Semicolon(rest) => ";" + rest
    case Unmatched(close, rest) => [close] + rest
    case Finished => ""
    case OpenQuote(q, us, dangling) => [q] + (SpellUnits(us) + if dangling then "\\" else "")
    case OpenLine(text) => "--" + text
    case OpenBlock(text) => "/*" + text
    case OpenGroup(open, inner) => [open] + Spell(inner)
  }

  function Spell(r: Reading): string
    decreases r
  {
    SpellAll(r.parts) + SpellEnding(r.ending)
  }

  // ----- what may stand where -----

  predicate Pair(open: char, close: char)
  {
    (open == '{' && close == '}') || (open == '[' && close == ']') || (open == '(' && close == ')')
  }

  /** A character that opens and closes nothing; `;` is one inside brackets only. */
  predicate Ordinary(c: char, top: bool)
  {
    c !in {'{', '}', '[', ']', '(', ')', '"', '\'', '`'} && (top ==> c != ';')
  }

  /** No comment starts with c when `next` follows. */
  predicate NoComment(c: char, next: string)
  {
    next != "" ==> !(c == '-' && next[0] == '-') && !(c == '/' && next[0] == '*')
  }

  predicate NoBlockEnd(text: string)
  {
    forall i | 0 <= i < |text| - 1 :: !(text[i] == '*' && text[i + 1] == '/')
  }

  predicate PartOk(p: Part, next: string, top: bool)
    decreases p
  {
    match p
    case Char(c) => Ordinary(c, top) && NoComment(c, next)
    case Quoted(q, us) => q in {'"', '\'', '`'} && UnitsOk(us, q)
    case LineComment(text) => '\n' !in text
    case BlockComment(text) => NoBlockEnd(text)
    case Group(open, parts, close) => Pair(open, close) && PartsOk(parts, [close] + next, false)
  }

  predicate PartsOk(ps: seq<Part>, next: string, top: bool)
    decreases ps
  {
    ps != [] ==> PartOk(ps[0], SpellAll(ps[1..]) + next, top) && PartsOk(ps[1..], next, top)
  }

  predicate EndingOk(e: Ending, top: bool, opener: Option<char>)
    decreases e
  {
    match e
    case Semicolon(_) => top
    case Unmatched(close, _) => close in {'}', ']', ')'} && (opener.Some? ==> !Pair(opener.value, close))
    case Finished => true
    case OpenQuote(q, us, _) => q in {'"', '\'', '`'} && UnitsOk(us, q)
    case OpenLine(text) => '\n' !in text
    case OpenBlock(text) => NoBlockEnd(text)
    case OpenGroup(open, inner) => open in {'{', '[', '('} && ReadingOk(inner, false, Some(open))
  }

  predicate ReadingOk(r: Reading, top: bool, opener: Option<char>)
    decreases r
  {
    PartsOk(r.parts, SpellEnding(r.ending), top) && EndingOk(r.ending, top, opener)
  }

  /** What the ending means for the splitter. */
  function Verdict(e: Ending, inside: bool): Outcome<Option<string>>
    decreases e
  {
    match e
    case Semicolon(rest) => Ok(Some(rest))
    case Unmatched(_, _) => Raise(if inside then AssertionError else IndexError)
    case OpenGroup(_, inner) => Verdict(inner.ending, true)
    case _ => Ok(None)
  }

  // ----- a reading decides -----

  lemma {:induction false} LineEnds(text: string, rest: string)
    requires '\n' !in text
    ensures LineRest(text + ("\n" + rest)) == "\n" + rest && LineRest(text) == ""
    decreases |text|
  {
    if text == "" {
      assert text + ("\n" + rest) == "\n" + rest;
    } else {
      assert text[0] in text;
      assert (text + ("\n" + rest))[1..] == text[1..] + ("\n" + rest);
      LineEnds(text[1..], rest);
    }
  }

  lemma {:induction false} BlockEnds(text: string, rest: string)
    requires NoBlockEnd(text)
    ensures BlockRest(text + ("*/" + rest)) == Some(rest) && BlockRest(text) == None
    decreases |text|
  {
    var z := text + ("*/" + rest);
    if text == "" {
      assert z == "*/" + rest && z[2..] == rest;
    } else {
      assert z[1..] == text[1..] + ("*/" + rest) && z[0] == text[0];
      assert |text| == 1 ==> z[1] == '*';
      assert |text| > 1 ==> z[1] == text[1];
      forall i | 0 <= i < |text[1..]| - 1 ensures !(text[1..][i] == '*' && text[1..][i + 1] == '/') {
        assert text[1..][i] == text[i + 1] && text[1..][i + 1] == text[i + 2];
      }
      BlockEnds(text[1..], rest);
    }
  }

  lemma SpellNone(next: string)
    ensures SpellAll([]) + next == next && PartsOk([], next, true) && PartsOk([], next, false)
  {
  }

  lemma SpellFirst(ps: seq<Part>, next: string)
    requires ps != []
    ensures SpellAll(ps) + next == SpellPart(ps[0]) + (SpellAll(ps[1..]) + next)
  {
  }

  lemma CharPasses(c: char, next: string, b: string)
    requires Ordinary(c, b == "") && NoComment(c, next)
    ensures FirstStop([c] + next, b) == FirstStop(next, b)
  {
    assert ([c] + next)[1..] == next;
  }

  lemma QuotedPasses(q: char, us: seq<Unit>, next: string, b: string)
    requires q in {'"', '\'', '`'} && UnitsOk(us, q)
    ensures FirstStop([q] + SpellUnits(us) + [q] + next, b) == FirstStop(next, b)
  {
    hide SpellUnits;
    var z := [q] + SpellUnits(us) + [q] + next;
    assert z[1..] == SpellUnits(us) + ([q] + next);
    QuoteCloses(us, q, next);
  }

  lemma LinePasses(text: string, next: string, b: string)
    requires '\n' !in text
    ensures FirstStop("--" + text + "\n" + next, b) == FirstStop(next, b)
  {
    var z := "--" + text + "\n" + next;
    assert z[2..] == text + ("\n" + next);
    LineEnds(text, next);
    NewlinePasses(next, b);
    assert FirstStop(z, b) == FirstStop("\n" + next, b);
  }

  lemma NewlinePasses(next: string, b: string)
    ensures FirstStop("\n" + next, b) == FirstStop(next, b)
  {
    assert ("\n" + next)[1..] == next;
  }

  lemma BlockPasses(text: string, next: string, b: string)
    requires NoBlockEnd(text)
    ensures FirstStop("/*" + text + "*/" + next, b) == FirstStop(next, b)
  {
    var z := "/*" + text + "*/" + next;
    assert z[2..] == text + ("*/" + next);
    BlockEnds(text, next);
  }

  lemma OpenPasses(open: char, next: string, b: string)
    requires open in {'{', '[', '('}
    ensures FirstStop([open] + next, b) == FirstStop(next, b + [open])
  {
    assert ([open] + next)[1..] == next;
  }

  lemma ClosePasses(open: char, close: char, next: string, b: string)
    requires Pair(open, close)
    ensures FirstStop([close] + next, b + [open]) == FirstStop(next, b)
  {
    assert ([close] + next)[1..] == next;
    assert (b + [open])[..|b|] == b;
  }

  lemma {:induction false} PartPasses(p: Part, next: string, b: string)
    requires PartOk(p, next, b == "")
    ensures FirstStop(SpellPart(p) + next, b) == FirstStop(next, b)
    decreases p
  {
    hide FirstStop, UnitsOk, NoBlockEnd, SpellAll, SpellUnits;
    match p
    case Char(c) => CharPasses(c, next, b);
    case Quoted(q, us) => QuotedPasses(q, us, next, b);
    case LineComment(text) => LinePasses(text, next, b);
    case BlockComment(text) => BlockPasses(text, next, b);
    case Group(open, parts, close) =>
      var inner := SpellAll(parts);
      assert [open] + inner + [close] + next == [open] + (inner + ([close] + next));
      OpenPasses(open, inner + ([close] + next), b);
      PartsPass(parts, [close] + next, b + [open]);
      ClosePasses(open, close, next, b);
  }

  /** Whole parts never stop the scan, and leave the open brackets as they were. */
  lemma {:induction false} PartsPass(ps: seq<Part>, next: string, b: string)
    requires PartsOk(ps, next, b == "")
    ensures FirstStop(SpellAll(ps) + next, b) == FirstStop(next, b)
    decreases ps
  {
    hide FirstStop, PartOk, SpellPart, SpellAll;
    if ps == [] {
      SpellNone(next);
    } else {
      SpellFirst(ps, next);
      PartPasses(ps[0], SpellAll(ps[1..]) + next, b);
      PartsPass(ps[1..], next, b);
    }
  }

  lemma SemicolonDecides(rest: string)
    ensures FirstStop(";" + rest, "") == Ok(Some(rest)) && FirstStop("", "") == Ok(None)
  {
    assert (";" + rest)[1..] == rest;
  }

  lemma UnmatchedDecides(close: char, rest: string, b: string)
    requires close in {'}', ']', ')'} && (b != "" ==> !Pair(b[|b| - 1], close))
    requires b != "" ==> b[|b| - 1] in {'{', '[', '('}
    ensures FirstStop([close] + rest, b) == Raise(if b == "" then IndexError else AssertionError)
  {
  }

  lemma OpenQuoteDecides(q: char, us: seq<Unit>, dangling: bool, b: string)
    requires q in {'"', '\'', '`'} && UnitsOk(us, q)
    ensures FirstStop([q] + (SpellUnits(us) + if dangling then "\\" else ""), b) == Ok(None)
  {
    hide UnitsOk, SpellUnits;
    var tail := SpellUnits(us) + if dangling then "\\" else "";
    assert ([q] + tail)[1..] == tail;
    QuoteStaysOpen(us, q, dangling);
  }

  lemma OpenLineDecides(text: string, b: string)
    requires '\n' !in text
    ensures FirstStop("--" + text, b) == Ok(None) && FirstStop("", b) == Ok(None)
  {
    assert ("--" + text)[2..] == text;
    LineEnds(text, "");
  }

  lemma OpenBlockDecides(text: string, b: string)
    requires NoBlockEnd(text)
    ensures FirstStop("/*" + text, b) == Ok(None)
  {
    assert ("/*" + text)[2..] == text;
    BlockEnds(text, "");
  }

  lemma {:induction false} EndingDecides(e: Ending, b: string)
    requires EndingOk(e, b == "", if b == "" then None else Some(b[|b| - 1]))
    requires b != "" ==> b[|b| - 1] in {'{', '[', '('}
    ensures FirstStop(SpellEnding(e), b) == Verdict(e, b != "")
    decreases e
  {
    hide FirstStop, UnitsOk, SpellUnits, PartsOk, NoBlockEnd;
    match e
    case Semicolon(rest) => SemicolonDecides(rest);
    case Unmatched(close, rest) => UnmatchedDecides(close, rest, b);
    case Finished => OpenLineDecides("", b);
    case OpenQuote(q, us, dangling) => OpenQuoteDecides(q, us, dangling, b);
    case OpenLine(text) => OpenLineDecides(text, b);
    case OpenBlock(text) => OpenBlockDecides(text, b);
    case OpenGroup(open, inner) =>
      OpenPasses(open, Spell(inner), b);
      ReadingGoesOn(inner, b + [open]);
  }

  lemma {:induction false} ReadingGoesOn(r: Reading, b: string)
    requires ReadingOk(r, b == "", if b == "" then None else Some(b[|b| - 1]))
    requires b != "" ==> b[|b| - 1] in {'{', '[', '('}
    ensures FirstStop(Spell(r), b) == Verdict(r.ending, b != "")
    decreases r
  {
    hide FirstStop, PartsOk, EndingOk, SpellAll, SpellEnding;
    PartsPass(r.parts, SpellEnding(r.ending), b);
    EndingDecides(r.ending, b);
  }

  /** A text stops where its reading says. */
  lemma ReadingDecides(r: Reading)
    requires ReadingOk(r, true, None)
    ensures FirstStop(Spell(r), "") == Verdict(r.ending, false)
  {
    ReadingGoesOn(r, "");
  }

  // ----- every text has a reading -----

  function AddPart(p: Part, r: Reading): Reading
  {
    Reading([p] + r.parts, r.ending)
  }

  lemma AddedPart(p: Part, r: Reading, top: bool)
    requires ReadingOk(r, top, None) && PartOk(p, Spell(r), top)
    ensures ReadingOk(AddPart(p, r), top, None) && Spell(AddPart(p, r)) == SpellPart(p) + Spell(r)
  {
    hide PartOk, EndingOk, SpellPart, SpellEnding;
    assert ([p] + r.parts)[1..] == r.parts;
  }

  lemma JustEnding(e: Ending, top: bool)
    requires EndingOk(e, top, None)
    ensures ReadingOk(Reading([], e), top, None) && Spell(Reading([], e)) == SpellEnding(e)
  {
  }

  lemma {:induction false} LineBreak(z: string) returns (n: nat)
    ensures n <= |z| && '\n' !in z[..n] && (n < |z| ==> z[n] == '\n')
  {
    if z != "" && z[0] != '\n' {
      n := LineBreak(z[1..]);
      assert z[..n + 1] == [z[0]] + z[1..][..n];
      n := n + 1;
    } else {
      n := 0;
    }
  }

  lemma {:induction false} BlockBreak(z: string) returns (n: nat)
    ensures n <= |z| && NoBlockEnd(z[..n])
    ensures n < |z| ==> n + 1 < |z| && z[n] == '*' && z[n + 1] == '/'
    decreases |z|
  {
    if |z| < 2 {
      n := |z|;
    } else if z[0] == '*' && z[1] == '/' {
      n := 0;
    } else {
      n := BlockBreak(z[1..]);
      var k := n + 1;
      forall i | 0 <= i < k - 1 ensures !(z[..k][i] == '*' && z[..k][i + 1] == '/') {
        if i > 0 {
          assert z[1..][..n][i - 1] == z[i] && z[1..][..n][i] == z[i + 1];
        }
      }
      n := k;
    }
  }

  /** Every text has a reading, inside brackets and outside. */
  lemma {:induction false} HasReading(z: string, top: bool) returns (r: Reading)
    ensures ReadingOk(r, top, None) && Spell(r) == z
    decreases |z|
  {
    hide ReadingOk, Spell;
    if z == "" {
      r := ReadEnding(z, Finished, top);
    } else if z[0] == ';' && top {
      assert z == ";" + z[1..];
      r := ReadEnding(z, Semicolon(z[1..]), top);
    } else if z[0] in {'"', '\'', '`'} {
      r := ReadQuoted(z, top);
    } else if z[0] in {'}', ']', ')'} {
      assert z == [z[0]] + z[1..];
      r := ReadEnding(z, Unmatched(z[0], z[1..]), top);
    } else if z[0] in {'{', '[', '('} {
      r := ReadGroup(z, top);
    } else if |z| >= 2 && z[0] == '-' && z[1] == '-' {
      r := ReadLine(z, top);
    } else if |z| >= 2 && z[0] == '/' && z[1] == '*' {
      r := ReadBlock(z, top);
    } else {
      var later := HasReading(z[1..], top);
      assert z == [z[0]] + z[1..];
      r := ReadPart(z, Char(z[0]), later, top);
    }
  }

  lemma ReadEnding(z: string, e: Ending, top: bool) returns (r: Reading)
    requires EndingOk(e, top, None) && SpellEnding(e) == z
    ensures ReadingOk(r, top, None) && Spell(r) == z
  {
    hide EndingOk, SpellEnding, Spell, ReadingOk;
    JustEnding(e, top);
    r := Reading([], e);
  }

  lemma ReadPart(z: string, p: Part, later: Reading, top: bool) returns (r: Reading)
    requires ReadingOk(later, top, None) && PartOk(p, Spell(later), top) && SpellPart(p) + Spell(later) == z
    ensures ReadingOk(r, top, None) && Spell(r) == z
  {
    hide ReadingOk, PartOk, Spell, SpellPart;
    AddedPart(p, later, top);
    r := AddPart(p, later);
  }

  lemma {:induction false} ReadQuoted(z: string, top: bool) returns (r: Reading)
    requires z != "" && z[0] in {'"', '\'', '`'}
    ensures ReadingOk(r, top, None) && Spell(r) == z
    decreases |z|, 0
  {
    hide ReadingOk, UnitsOk, Spell, SpellUnits;
    var x := HasLiteral(z[1..], z[0]);
    match x
    case Open(us, dangling) => r := ReadEnding(z, OpenQuote(z[0], us, dangling), top);
    case Closed(us, rest) =>
      assert z == [z[0]] + SpellUnits(us) + [z[0]] + rest;
      var later := HasReading(rest, top);
      r := ReadPart(z, Quoted(z[0], us), later, top);
  }

  lemma {:induction false} ReadLine(z: string, top: bool) returns (r: Reading)
    requires |z| >= 2 && z[0] == '-' && z[1] == '-'
    ensures ReadingOk(r, top, None) && Spell(r) == z
    decreases |z|, 0
  {
    hide ReadingOk, Spell;
    var body := z[2..];
    var n := LineBreak(body);
    if n == |body| {
      assert body[..n] == body && z == "--" + body;
      r := ReadEnding(z, OpenLine(body), top);
    } else {
      var later := HasReading(body[n + 1..], top);
      assert z == "--" + body[..n] + "\n" + body[n + 1..];
      r := ReadPart(z, LineComment(body[..n]), later, top);
    }
  }

  lemma {:induction false} ReadBlock(z: string, top: bool) returns (r: Reading)
    requires |z| >= 2 && z[0] == '/' && z[1] == '*'
    ensures ReadingOk(r, top, None) && Spell(r) == z
    decreases |z|, 0
  {
    hide ReadingOk, Spell;
    var body := z[2..];
    var n := BlockBreak(body);
    if n == |body| {
      assert body[..n] == body && z == "/*" + body;
      r := ReadEnding(z, OpenBlock(body), top);
    } else {
      var later := HasReading(body[n + 2..], top);
      assert z == "/*" + body[..n] + "*/" + body[n + 2..];
      r := ReadPart(z, BlockComment(body[..n]), later, top);
    }
  }

  lemma {:induction false} ReadGroup(z: string, top: bool) returns (r: Reading)
    requires z != "" && z[0] in {'{', '[', '('}
    ensures ReadingOk(r, top, None) && Spell(r) == z
    decreases |z|, 0
  {
    hide SpellAll, PartsOk;
    var inner := HasReading(z[1..], false);
    if inner.ending.Unmatched? && Pair(z[0], inner.ending.close) {
      var p := Group(z[0], inner.parts, inner.ending.close);
      var later := HasReading(inner.ending.rest, top);
      assert z == SpellPart(p) + inner.ending.rest;
      r := ReadPart(z, p, later, top);
    } else {
      assert z == [z[0]] + z[1..];
      InsideGroup(inner, z[0]);
      r := ReadEnding(z, OpenGroup(z[0], inner), top);
    }
  }

  lemma InsideGroup(inner: Reading, open: char)
    requires ReadingOk(inner, false, None) && !(inner.ending.Unmatched? && Pair(open, inner.ending.close))
    ensures ReadingOk(inner, false, Some(open))
  {
    hide PartsOk;
  }

  // ----- where a statement ends -----

  /** A statement ends at a semicolon exactly when whole parts come before it: no quote, comment or bracket is open. */
  lemma StopsAtIff(z: string, rest: string)
    ensures FirstStop(z, "") == Ok(Some(rest))
       <==> exists ps :: PartsOk(ps, ";" + rest, true) && z == SpellAll(ps) + (";" + rest)
  {
    hide FirstStop, PartsOk, SpellAll;
    var r := HasReading(z, true);
    ReadingDecides(r);
    if FirstStop(z, "") == Ok(Some(rest)) {
      VerdictIsSemicolon(r.ending, rest);
      assert PartsOk(r.parts, ";" + rest, true);
    }
    if ps :| PartsOk(ps, ";" + rest, true) && z == SpellAll(ps) + (";" + rest) {
      ReadingDecides(Reading(ps, Semicolon(rest)));
    }
  }

  lemma {:induction false} VerdictIsSemicolon(e: Ending, rest: string)
    requires EndingOk(e, true, None) && Verdict(e, false) == Ok(Some(rest))
    ensures e == Semicolon(rest)
  {
    hide PartsOk;
    if e.OpenGroup? {
      InsideNeverStops(e.inner, Some(e.open));
    }
  }

  lemma {:induction false} InsideNeverStops(r: Reading, opener: Option<char>)
    requires ReadingOk(r, false, opener)
    ensures Verdict(r.ending, true) == Ok(None) || Verdict(r.ending, true) == Raise(AssertionError)
    decreases r
  {
    hide PartsOk;
    if r.ending.OpenGroup? {
      InsideNeverStops(r.ending.inner, Some(r.ending.open));
    }
  }

  /** Somewhere inside open brackets, a bracket closes that does not match the innermost one. */
  predicate Mismatched(e: Ending)
    decreases e
  {
    e.OpenGroup? && (e.inner.ending.Unmatched? || Mismatched(e.inner.ending))
  }

  predicate Reads(r: Reading, z: string)
  {
    ReadingOk(r, true, None) && Spell(r) == z
  }

  lemma {:induction false} MismatchIsAssertion(e: Ending, inside: bool)
    requires inside || !e.Unmatched?
    ensures Verdict(e, inside) == Raise(AssertionError) <==> Mismatched(e) || (inside && e.Unmatched?)
    decreases e
  {
    if e.OpenGroup? {
      MismatchIsAssertion(e.inner.ending, true);
    }
  }

  /** A closing bracket is an `IndexError` with none open, and an `AssertionError` when it does not match. */
  lemma BracketErrorsIff(z: string)
    ensures FirstStop(z, "") == Raise(IndexError) <==> exists r :: Reads(r, z) && r.ending.Unmatched?
    ensures FirstStop(z, "") == Raise(AssertionError) <==> exists r :: Reads(r, z) && Mismatched(r.ending)
  {
    hide FirstStop, ReadingOk, Spell;
    var read := HasReading(z, true);
    assert Reads(read, z);
    forall r | Reads(r, z)
      ensures FirstStop(z, "") == Raise(IndexError) <==> r.ending.Unmatched?
      ensures FirstStop(z, "") == Raise(AssertionError) <==> Mismatched(r.ending)
    {
      ReadingDecides(r);
      if !r.ending.Unmatched? {
        MismatchIsAssertion(r.ending, false);
        InsideIsNoIndexError(r.ending);
      }
    }
  }

  lemma {:induction false} InsideIsNoIndexError(e: Ending)
    requires !e.Unmatched?
    ensures Verdict(e, false) != Raise(IndexError)
  {
    if e.OpenGroup? {
      NoIndexErrorInside(e.inner.ending);
    }
  }

  lemma {:induction false} NoIndexErrorInside(e: Ending)
    ensures Verdict(e, true) != Raise(IndexError)
    decreases e
  {
    if e.OpenGroup? {
      NoIndexErrorInside(e.inner.ending);
    }
  }
}
