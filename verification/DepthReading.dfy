/** Where `_split_at_depth` of odps/readers.py cuts, stated without its scan: a text is a sequence of characters, hidden
    characters, quoted texts and brackets, and it is cut at the delimiters outside brackets. */
module DepthReading {
  import opened Text
  import opened DepthSplit
  import opened SqlQuotes
  import opened ComplexValues

  /** One character, one behind a backslash, a text in quotes, or a bracket. */
  datatype Atom = Char(c: char) | Hidden(c: char) | Quoted(q: char, units: seq<Unit>) | Bracket(c: char)

  /** The text is over, ends in a backslash, or in a quoted text that is not closed. */
  datatype Tail = Done | Backslash | OpenQuote(q: char, units: seq<Unit>, dangling: bool)

  function SpellAtom(a: Atom): (s: string)
    ensures s != ""
  {
    match a
    case Char(c) => [c]
    case Hidden(c) => ['\\', c]
    case Quoted(q, us) => [q] + SpellUnits(us) + [q]
    case Bracket(c) => [c]
  }

  function SpellTail(t: Tail): string
  {
    match t
    case Done => ""
    case Backslash => "\\"
    case OpenQuote(q, us, dangling) => [q] + (SpellUnits(us) + if dangling then "\\" else "")
  }

  function SpellAtoms(atoms: seq<Atom>): string
  {
    if atoms == [] then "" else SpellAtom(atoms[0]) + SpellAtoms(atoms[1..])
  }

  predicate AtomOk(a: Atom)
  {
    match a
    case Char(c) => c !in {'\\', '"', '\'', '{', '}', '[', ']'}
    case Hidden(_) => true
    case Quoted(q, us) => q in {'"', '\''} && UnitsOk(us, q)
    case Bracket(c) => c in {'{', '}', '[', ']'}
  }

  predicate TailOk(t: Tail)
  {
    t.OpenQuote? ==> t.q in {'"', '\''} && UnitsOk(t.units, t.q)
  }

  /** Opening brackets less closing ones, of either kind. */
  function Depth(atoms: seq<Atom>): int
  {
    if atoms == [] then 0
    else
      Depth(atoms[..|atoms| - 1])
      + match atoms[|atoms| - 1]
        case Bracket(c) => if c in {'{', '['} then 1 else -1
        case _ => 0
  }

  /** The k-th atom is the delimiter, outside brackets. */
  predicate CutAt(atoms: seq<Atom>, k: nat, delimiter: char)
    requires k < |atoms|
  {
    atoms[k] == Char(delimiter) && Depth(atoms[..k]) == 0
  }

  // ----- the scan over one atom -----

  function AfterAtom(depth: int, a: Atom): int
  {
    match a
    case Bracket(c) => depth + if c in {'{', '['} then 1 else -1
    case _ => depth
  }

  lemma {:induction false} QuotePasses(us: seq<Unit>, q: char, depth: int, delimiter: char)
    requires q in {'"', '\''} && UnitsOk(us, q)
    ensures var s, n := SpellUnits(us) + [q], Nesting(depth, Some(q), false);
            FirstCut(s, n, delimiter) == |s| && Through(s, n) == Nesting(depth, None, false)
    decreases |us|
  {
    hide SpellUnits;
    var n := Nesting(depth, Some(q), false);
    if us == [] {
      SpellNothing([q]);
      assert [q][1..] == "";
    } else {
      UnitFirst(us, [q]);
      assert us[0] in us;
      var s, rest := SpellUnits(us) + [q], SpellUnits(us[1..]) + [q];
      QuotePasses(us[1..], q, depth, delimiter);
      if us[0].Escaped? {
        assert s[1..][1..] == rest;
        assert FirstCut(s, n, delimiter) == 1 + FirstCut(s[1..], Nesting(depth, Some(q), true), delimiter);
      }
    }
  }

  lemma {:induction false} OpenQuotePasses(us: seq<Unit>, q: char, dangling: bool, depth: int, delimiter: char)
    requires q in {'"', '\''} && UnitsOk(us, q)
    ensures var s := SpellUnits(us) + if dangling then "\\" else "";
            FirstCut(s, Nesting(depth, Some(q), false), delimiter) == |s|
    decreases |us|
  {
    hide SpellUnits;
    var n, tail := Nesting(depth, Some(q), false), if dangling then "\\" else "";
    if us == [] {
      SpellNothing(tail);
    } else {
      UnitFirst(us, tail);
      assert us[0] in us;
      var s, rest := SpellUnits(us) + tail, SpellUnits(us[1..]) + tail;
      OpenQuotePasses(us[1..], q, dangling, depth, delimiter);
      if us[0].Escaped? {
        assert s[1..][1..] == rest;
        assert FirstCut(s, n, delimiter) == 1 + FirstCut(s[1..], Nesting(depth, Some(q), true), delimiter);
      }
    }
  }

  lemma CharPasses(c: char, depth: int, delimiter: char)
    requires c !in {'\\', '"', '\'', '{', '}', '[', ']'}
    ensures var n := Nesting(depth, None, false);
            && FirstCut([c], n, delimiter) == (if depth == 0 && c == delimiter then 0 else 1)
            && Through([c], n) == n
  {
    assert [c][1..] == "";
  }

  lemma HiddenPasses(c: char, depth: int, delimiter: char)
    ensures var n := Nesting(depth, None, false);
            FirstCut(['\\', c], n, delimiter) == 2 && Through(['\\', c], n) == n
  {
    assert ['\\', c][1..] == [c] && [c][1..] == "";
    assert Through([c], Nesting(depth, None, true)) == Through("", Nesting(depth, None, false));
  }

  lemma BracketPasses(c: char, depth: int, delimiter: char)
    requires c in {'{', '}', '[', ']'}
    ensures var n := Nesting(depth, None, false);
            FirstCut([c], n, delimiter) == 1 && Through([c], n) == Nesting(AfterAtom(depth, Bracket(c)), None, false)
  {
    assert [c][1..] == "";
  }

  lemma QuotedPasses(q: char, us: seq<Unit>, depth: int, delimiter: char)
    requires q in {'"', '\''} && UnitsOk(us, q)
    ensures var n, s := Nesting(depth, None, false), [q] + SpellUnits(us) + [q];
            FirstCut(s, n, delimiter) == |s| && Through(s, n) == n
  {
    hide SpellUnits, UnitsOk;
    var s := [q] + SpellUnits(us) + [q];
    assert s[1..] == SpellUnits(us) + [q];
    QuotePasses(us, q, depth, delimiter);
  }

  /** Only a delimiter outside brackets is a cut; any atom leaves the scan outside quotes. */
  lemma AtomPasses(a: Atom, depth: int, delimiter: char)
    requires AtomOk(a)
    ensures var n, s := Nesting(depth, None, false), SpellAtom(a);
            && FirstCut(s, n, delimiter) == (if a == Char(delimiter) && depth == 0 then 0 else |s|)
            && Through(s, n) == Nesting(AfterAtom(depth, a), None, false)
  {
    hide FirstCut, Through, SpellUnits, UnitsOk;
    match a
    case Char(c) => CharPasses(c, depth, delimiter);
    case Hidden(c) => HiddenPasses(c, depth, delimiter);
    case Quoted(q, us) => QuotedPasses(q, us, depth, delimiter);
    case Bracket(c) => BracketPasses(c, depth, delimiter);
  }

  lemma TailPasses(t: Tail, depth: int, delimiter: char)
    requires TailOk(t)
    ensures FirstCut(SpellTail(t), Nesting(depth, None, false), delimiter) == |SpellTail(t)|
  {
    hide SpellUnits, UnitsOk;
    match t
    case OpenQuote(q, us, dangling) =>
      assert SpellTail(t)[1..] == SpellUnits(us) + if dangling then "\\" else "";
      OpenQuotePasses(us, q, dangling, depth, delimiter);
    case _ =>
  }

  // ----- the first cut -----

  lemma SpellSnoc(atoms: seq<Atom>, a: Atom)
    ensures SpellAtoms(atoms + [a]) == SpellAtoms(atoms) + SpellAtom(a)
  {
    hide SpellAtom;
    if atoms == [] {
      assert atoms + [a] == [a] && [a][1..] == [];
    } else {
      assert (atoms + [a])[1..] == atoms[1..] + [a];
      SpellSnoc(atoms[1..], a);
    }
  }

  /** Atoms without a cut are passed over whole. */
  lemma {:induction false} AtomsPass(atoms: seq<Atom>, delimiter: char)
    requires (forall a | a in atoms :: AtomOk(a)) && forall k | 0 <= k < |atoms| :: !CutAt(atoms, k, delimiter)
    ensures var s := SpellAtoms(atoms);
            && FirstCut(s, OUTSIDE, delimiter) == |s|
            && Through(s, OUTSIDE) == Nesting(Depth(atoms), None, false)
    decreases |atoms|
  {
    hide FirstCut, Through, SpellAtom, AtomOk;
    if atoms == [] {
      TailPasses(Done, 0, delimiter);
      NothingThrough();
    } else {
      var front, a := atoms[..|atoms| - 1], atoms[|atoms| - 1];
      forall k | 0 <= k < |front| ensures !CutAt(front, k, delimiter) {
        assert front[..k] == atoms[..k] && front[k] == atoms[k];
        assert !CutAt(atoms, k, delimiter);
      }
      AtomsPass(front, delimiter);
      assert a in atoms && atoms == front + [a];
      SpellSnoc(front, a);
      AtomPasses(a, Depth(front), delimiter);
      assert !CutAt(atoms, |front|, delimiter);
      FirstCutJoin(SpellAtoms(front), SpellAtom(a), OUTSIDE, delimiter);
      ThroughJoin(SpellAtoms(front), SpellAtom(a), OUTSIDE);
    }
  }

  lemma NothingThrough()
    ensures Through("", OUTSIDE) == OUTSIDE == Nesting(0, None, false)
  {
  }

  /** The first cut is at the first delimiter outside brackets, hidden characters and quoted texts. */
  lemma FirstCutIs(atoms: seq<Atom>, k: nat, later: string, delimiter: char)
    requires k < |atoms| && CutAt(atoms, k, delimiter) && forall i | 0 <= i < k :: !CutAt(atoms, i, delimiter)
    requires forall a | a in atoms :: AtomOk(a)
    ensures FirstCut(SpellAtoms(atoms[..k]) + ([delimiter] + later), OUTSIDE, delimiter) == |SpellAtoms(atoms[..k])|
  {
    hide FirstCut, Through, SpellAtom, AtomOk;
    var front := atoms[..k];
    forall i | 0 <= i < k ensures !CutAt(front, i, delimiter) {
      assert front[..i] == atoms[..i] && front[i] == atoms[i];
      assert !CutAt(atoms, i, delimiter);
    }
    AtomsPass(front, delimiter);
    assert atoms[k] in atoms;
    DelimiterCuts(delimiter, later);
    FirstCutJoin(SpellAtoms(front), [delimiter] + later, OUTSIDE, delimiter);
  }

  lemma DelimiterCuts(delimiter: char, later: string)
    requires AtomOk(Char(delimiter))
    ensures FirstCut([delimiter] + later, Nesting(0, None, false), delimiter) == 0
  {
  }

  /** Without such a delimiter there is no cut, whatever is left open at the end. */
  lemma NoCutIs(atoms: seq<Atom>, t: Tail, delimiter: char)
    requires (forall a | a in atoms :: AtomOk(a)) && TailOk(t)
    requires forall k | 0 <= k < |atoms| :: !CutAt(atoms, k, delimiter)
    ensures var s := SpellAtoms(atoms) + SpellTail(t); FirstCut(s, OUTSIDE, delimiter) == |s|
  {
    hide FirstCut, Through, SpellAtom, SpellTail, AtomOk;
    AtomsPass(atoms, delimiter);
    TailPasses(t, Depth(atoms), delimiter);
    FirstCutJoin(SpellAtoms(atoms), SpellTail(t), OUTSIDE, delimiter);
  }

  // ----- every text is made of atoms -----

  lemma {:induction false} HasAtoms(s: string) returns (atoms: seq<Atom>, t: Tail)
    ensures (forall a | a in atoms :: AtomOk(a)) && TailOk(t) && SpellAtoms(atoms) + SpellTail(t) == s
    decreases |s|, 0
  {
    hide SpellUnits, UnitsOk, SpellAtoms;
    if s == "" {
      atoms, t := [], Done;
      NoAtoms();
    } else if s == "\\" {
      atoms, t := [], Backslash;
      NoAtoms();
    } else if s[0] in {'"', '\''} {
      var x := HasLiteral(s[1..], s[0]);
      match x
      case Open(us, dangling) =>
        atoms, t := [], OpenQuote(s[0], us, dangling);
        NoAtoms();
      case Closed(us, rest) =>
        assert s == [s[0]] + SpellUnits(us) + [s[0]] + rest;
        atoms, t := MoreAtoms(s, Quoted(s[0], us), rest);
    } else if s[0] == '\\' {
      assert s == ['\\', s[1]] + s[2..];
      atoms, t := MoreAtoms(s, Hidden(s[1]), s[2..]);
    } else {
      assert s == [s[0]] + s[1..];
      var bracket := s[0] in {'{', '}', '[', ']'};
      atoms, t := MoreAtoms(s, if bracket then Bracket(s[0]) else Char(s[0]), s[1..]);
    }
  }

  lemma {:induction false} MoreAtoms(s: string, a: Atom, rest: string) returns (atoms: seq<Atom>, t: Tail)
    requires AtomOk(a) && SpellAtom(a) + rest == s
    ensures (forall x | x in atoms :: AtomOk(x)) && TailOk(t) && SpellAtoms(atoms) + SpellTail(t) == s
    decreases |rest|, 1
  {
    hide SpellAtom, AtomOk, TailOk, SpellTail;
    var later;
    later, t := HasAtoms(rest);
    atoms := [a] + later;
    assert atoms[1..] == later;
    assert SpellAtom(a) + SpellAtoms(later) + SpellTail(t) == SpellAtom(a) + (SpellAtoms(later) + SpellTail(t));
  }

  lemma NoAtoms()
    ensures SpellAtoms([]) == "" && forall z: string :: "" + z == z
  {
  }

  // ----- quotes around a value -----

  /** The text in quotes of either kind, with a backslash before each of them inside. */
  function InQuotes(s: string, q: char): string
  {
    [q] + Escaping(s, q) + [q]
  }

  function Escaping(s: string, q: char): string
  {
    if s == "" then "" else (if s[0] == q then ['\\', q] else [s[0]]) + Escaping(s[1..], q)
  }

  lemma {:induction false} EscapingUndone(s: string, q: char)
    requires '\\' !in s && q != '\\'
    ensures Unescape(Escaping(s, q), q) == s
    decreases |s|
  {
    if s != "" {
      var e := Escaping(s, q);
      assert s[0] in s;
      EscapingUndone(s[1..], q);
      if s[0] == q {
        assert e[2..] == Escaping(s[1..], q);
      } else {
        assert e[1..] == Escaping(s[1..], q);
      }
    }
  }

  /** Other quotes are not touched. */
  lemma {:induction false} EscapingApart(s: string, q: char, other: char)
    requires '\\' !in s && q != other && q != '\\' && other != '\\'
    ensures Unescape(Escaping(s, q), other) == Escaping(s, q)
    decreases |s|
  {
    if s != "" {
      var e := Escaping(s, q);
      assert s[0] in s;
      EscapingApart(s[1..], q, other);
      if s[0] == q {
        assert e[1..] == [q] + Escaping(s[1..], q) && e[1..][1..] == Escaping(s[1..], q);
        assert Unescape(e[1..], other) == [q] + Unescape(Escaping(s[1..], q), other);
      } else {
        assert e[1..] == Escaping(s[1..], q);
      }
    }
  }

  lemma {:induction false} NothingToUnescape(s: string, q: char)
    requires '\\' !in s
    ensures Unescape(s, q) == s
    decreases |s|
  {
    if |s| >= 2 {
      assert s[0] in s;
      NothingToUnescape(s[1..], q);
    }
  }

  /** A text without backslashes in quotes of either kind is unquoted to itself. */
  lemma UnquoteEither(s: string, q: char)
    requires q in {'"', '\''} && '\\' !in s
    ensures Unquote(InQuotes(s, q)) == s
  {
    hide Unescape, Escaping;
    var x := InQuotes(s, q);
    assert x[1..|x| - 1] == Escaping(s, q);
    EscapingUndone(s, q);
    if q == '\'' {
      EscapingApart(s, q, '"');
    } else {
      NothingToUnescape(s, '\'');
    }
  }

  /** A text that is not in quotes of one kind, and has no backslash, stays. */
  lemma UnquotedStays(s: string)
    requires '\\' !in s && (|s| >= 2 && s[0] in {'"', '\''} ==> s[|s| - 1] != s[0])
    ensures Unquote(s) == s
  {
    NothingToUnescape(s, '"');
    NothingToUnescape(s, '\'');
  }
}
