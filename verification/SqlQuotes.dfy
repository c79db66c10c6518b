/** String literals written out: a quote, characters and escaped characters, and the same quote. */
module SqlQuotes {
  import opened Text
  import opened SqlLexing

  /** One character of a literal, or a backslash and the character it hides. */
  datatype Unit = Plain(c: char) | Escaped(c: char)

  function SpellUnit(u: Unit): (s: string)
    ensures s != ""
  {
    match u
    case Plain(c) => [c]
    case Escaped(c) => ['\\', c]
  }

  function SpellUnits(us: seq<Unit>): string
  {
    if us == [] then "" else SpellUnit(us[0]) + SpellUnits(us[1..])
  }

  /** The quote and the backslash only occur escaped. */
  predicate UnitsOk(us: seq<Unit>, q: char)
  {
    forall u | u in us :: u.Plain? ==> u.c != q && u.c != '\\'
  }

  lemma UnitFirst(us: seq<Unit>, next: string)
    requires us != []
    ensures var z := SpellUnits(us) + next;
            match us[0]
            case Plain(c) => z != "" && z[0] == c && z[1..] == SpellUnits(us[1..]) + next
            case Escaped(c) => |z| >= 2 && z[0] == '\\' && z[1] == c && z[2..] == SpellUnits(us[1..]) + next
  {
    assert SpellUnits(us) + next == SpellUnit(us[0]) + (SpellUnits(us[1..]) + next);
  }

  /** A literal ends at its own closing quote and nowhere before. */
  lemma {:induction false} QuoteCloses(us: seq<Unit>, q: char, rest: string)
    requires UnitsOk(us, q) && q != '\\'
    ensures QuoteRest(SpellUnits(us) + ([q] + rest), q) == Some(rest)
    decreases |us|
  {
    hide SpellUnits;
    if us == [] {
      SpellNothing([q] + rest);
    } else {
      UnitFirst(us, [q] + rest);
      assert us[0] in us;
      QuoteCloses(us[1..], q, rest);
    }
  }

  lemma SpellNothing(next: string)
    ensures SpellUnits([]) + next == next
  {
  }

  /** Without its closing quote a literal does not end; a last backslash hides nothing. */
  lemma {:induction false} QuoteStaysOpen(us: seq<Unit>, q: char, dangling: bool)
    requires UnitsOk(us, q) && q != '\\'
    ensures QuoteRest(SpellUnits(us) + (if dangling then "\\" else ""), q) == None
    decreases |us|
  {
    hide SpellUnits;
    var tail := if dangling then "\\" else "";
    if us == [] {
      SpellNothing(tail);
    } else {
      UnitFirst(us, tail);
      assert us[0] in us;
      QuoteStaysOpen(us[1..], q, dangling);
    }
  }

  /** How a literal goes on behind its opening quote. */
  datatype QuotedText = Closed(units: seq<Unit>, rest: string) | Open(units: seq<Unit>, dangling: bool)

  function SpellLiteral(x: QuotedText, q: char): string
  {
    match x
    case Closed(us, rest) => SpellUnits(us) + ([q] + rest)
    case Open(us, dangling) => SpellUnits(us) + (if dangling then "\\" else "")
  }

  function AddUnit(u: Unit, x: QuotedText): QuotedText
  {
    x.(units := [u] + x.units)
  }

  lemma AddedUnit(u: Unit, x: QuotedText, q: char)
    requires UnitsOk(x.units, q) && (u.Plain? ==> u.c != q && u.c != '\\')
    ensures UnitsOk(AddUnit(u, x).units, q)
    ensures SpellLiteral(AddUnit(u, x), q) == SpellUnit(u) + SpellLiteral(x, q)
  {
    assert ([u] + x.units)[1..] == x.units;
  }

  /** Every text is the rest of a literal in one of the two ways. */
  lemma {:induction false} HasLiteral(z: string, q: char) returns (x: QuotedText)
    requires q != '\\'
    ensures UnitsOk(x.units, q) && SpellLiteral(x, q) == z
    decreases |z|
  {
    if z == "" {
      x := Open([], false);
    } else if z[0] == q {
      x := Closed([], z[1..]);
    } else if z[0] == '\\' && |z| == 1 {
      x := Open([], true);
    } else if z[0] == '\\' {
      var later := HasLiteral(z[2..], q);
      AddedUnit(Escaped(z[1]), later, q);
      x := AddUnit(Escaped(z[1]), later);
      assert z == ['\\', z[1]] + z[2..];
    } else {
      var later := HasLiteral(z[1..], q);
      AddedUnit(Plain(z[0]), later, q);
      x := AddUnit(Plain(z[0]), later);
      assert z == [z[0]] + z[1..];
    }
  }

  /** Where a literal ends: at the first quote that no backslash hides. */
  lemma LiteralEnds(x: QuotedText, q: char)
    requires UnitsOk(x.units, q) && q != '\\'
    ensures QuoteRest(SpellLiteral(x, q), q) == if x.Closed? then Some(x.rest) else None
  {
    match x
    case Closed(us, rest) => QuoteCloses(us, q, rest);
    case Open(us, dangling) => QuoteStaysOpen(us, q, dangling);
  }
}
