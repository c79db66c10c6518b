/** Parameter substitution of odps/dbapi.py: finding the placeholders outside string literals
    and putting escaped literals (odps/utils.py) in their place. */
module SqlParameters {
  import opened Text
  import opened SqlLexing

  // ----- literals -----

  /** What `escape_odps_string` writes for one character. */
  function EscapeChar(c: char): string
  {
    if c == '\U{08}' then "\\b"
    else if c == '\t' then "\\t"
    else if c == '\n' then "\\n"
    else if c == '\r' then "\\r"
    else if c == '\'' then "\\'"
    else if c == '"' then "\\\""
    else if c == '\\' then "\\\\"
    else if c == '\0' then "\\0"
    else [c]
  }

  function EscapeString(s: string): string
  {
    if s == [] then [] else EscapeChar(s[0]) + EscapeString(s[1..])
  }

  /** `to_odps_scalar` of a string. */
  function Literal(value: string): string
  {
    "'" + EscapeString(value) + "'"
  }

  /** Whatever its content, a literal is read as one string that its last quote closes. */
  lemma {:induction false} LiteralCloses(value: string, rest: string)
    ensures QuoteRest(EscapeString(value) + "'" + rest, '\'') == Some(rest)
    decreases |value|
  {
    if value == [] {
      assert EscapeString(value) + "'" + rest == ['\''] + rest;
      assert (['\''] + rest)[1..] == rest;
    } else {
      var e, tail := EscapeChar(value[0]), EscapeString(value[1..]) + "'" + rest;
      assert EscapeString(value) + "'" + rest == e + tail;
      assert (e + tail)[|e|..] == tail;
      LiteralCloses(value[1..], rest);
    }
  }

  // ----- placeholders -----

  /** Python's `isalpha` and `isalnum`. */
  datatype Letters = Letters(alpha: char -> bool, alnum: char -> bool)

  /** The only fact about letters that substitution rests on. */
  predicate QuoteIsNoLetter(l: Letters)
  {
    !l.alpha('\'')
  }

  datatype Style = Named | Positional

  predicate IsStringQuote(c: char)
  {
    c == '"' || c == '\''
  }

  predicate StartsKey(z: string, l: Letters)
  {
    z != "" && (l.alpha(z[0]) || z[0] == '_')
  }

  predicate InKey(c: char, l: Letters)
  {
    l.alnum(c) || c == '_'
  }

  /** How many characters at the front belong to a key. */
  function KeyLength(z: string, l: Letters): (n: nat)
    ensures n <= |z|
  {
    if z == "" || !InKey(z[0], l) then 0 else 1 + KeyLength(z[1..], l)
  }

  /** A stretch of the statement: a placeholder, or text that substitution copies. */
  datatype Piece = Copied(text: string) | Hole(key: string)

  predicate HoleAt(z: string, style: Style, l: Letters)
  {
    z != "" && if style == Named then z[0] == ':' && StartsKey(z[1..], l) else z[0] == '?'
  }

  function HoleLength(z: string, style: Style, l: Letters): (n: nat)
    requires HoleAt(z, style, l)
    ensures 0 < n <= |z|
  {
    if style == Named then 1 + KeyLength(z[1..], l) else 1
  }

  function HoleKey(z: string, style: Style, l: Letters): string
    requires HoleAt(z, style, l)
  {
    if style == Named then z[1..1 + KeyLength(z[1..], l)] else ""
  }

  /** How much text is copied in one go: a whole string literal, or one character. */
  function CopyLength(z: string): (n: nat)
    requires z != ""
    ensures 0 < n <= |z|
  {
    if IsStringQuote(z[0]) then
      QuoteRestShrinks(z[1..], z[0]);
      match QuoteRest(z[1..], z[0])
      case None => |z|
      case Some(r) => |z| - |r|
    else 1
  }

  function Pieces(z: string, style: Style, l: Letters): seq<Piece>
    decreases |z|
  {
    if z == "" then []
    else if HoleAt(z, style, l) then
      [Hole(HoleKey(z, style, l))] + Pieces(z[HoleLength(z, style, l)..], style, l)
    else [Copied(z[..CopyLength(z)])] + Pieces(z[CopyLength(z)..], style, l)
  }

  /** Where the placeholders stand, and their keys. */
  datatype Placeholder = Placeholder(pos: nat, key: string)

  function Placeholders(z: string, at: nat, style: Style, l: Letters): seq<Placeholder>
    decreases |z|
  {
    if z == "" then []
    else if HoleAt(z, style, l) then
      var n := HoleLength(z, style, l);
      [Placeholder(at, HoleKey(z, style, l))] + Placeholders(z[n..], at + n, style, l)
    else
      Placeholders(z[CopyLength(z)..], at + CopyLength(z), style, l)
  }

  function HoleText(p: Placeholder, style: Style): string
  {
    if style == Named then ":" + p.key else "?"
  }

  // ----- substitution -----

  /** The statement with a literal in each hole; values are taken in order. */
  function Fill(pieces: seq<Piece>, values: seq<string>): string
    requires |values| == Holes(pieces)
  {
    if pieces == [] then ""
    else
      match pieces[0]
      case Copied(text) => text + Fill(pieces[1..], values)
      case Hole(_) => Literal(values[0]) + Fill(pieces[1..], values[1..])
  }

  function Holes(pieces: seq<Piece>): nat
  {
    if pieces == [] then 0 else (if pieces[0].Hole? then 1 else 0) + Holes(pieces[1..])
  }

  /** The pieces of the filled statement: every hole has become a closed literal. */
  function Filled(pieces: seq<Piece>, values: seq<string>): seq<Piece>
    requires |values| == Holes(pieces)
  {
    if pieces == [] then []
    else
      match pieces[0]
      case Copied(text) => [pieces[0]] + Filled(pieces[1..], values)
      case Hole(_) => [Copied(Literal(values[0]))] + Filled(pieces[1..], values[1..])
  }

  function Spelled(p: Piece, style: Style): string
  {
    match p
    case Copied(text) => text
    case Hole(key) => if style == Named then ":" + key else "?"
  }

  /** The text of the pieces as they stood. */
  function Unfilled(pieces: seq<Piece>, style: Style): string
  {
    if pieces == [] then ""
    else Spelled(pieces[0], style) + Unfilled(pieces[1..], style)
  }

  lemma HoleSpells(z: string, style: Style, l: Letters)
    requires HoleAt(z, style, l)
    ensures z[..HoleLength(z, style, l)] == if style == Named then ":" + HoleKey(z, style, l) else "?"
  {
  }

  lemma NothingUnfilled(style: Style)
    ensures Unfilled([], style) == ""
  {
  }

  lemma UnfilledMore(p: Piece, rest: seq<Piece>, style: Style)
    ensures Unfilled([p] + rest, style) == Spelled(p, style) + Unfilled(rest, style)
  {
    assert ([p] + rest)[1..] == rest;
  }

  /** Finding placeholders loses no text. */
  lemma {:induction false} PiecesWhole(z: string, style: Style, l: Letters)
    ensures Unfilled(Pieces(z, style, l), style) == z
    decreases |z|
  {
    hide Pieces, Unfilled, HoleAt, HoleLength, HoleKey, CopyLength;
    if z == "" {
      ScanAtEnd(0, style, l);
      NothingUnfilled(style);
    } else if HoleAt(z, style, l) {
      var n := HoleLength(z, style, l);
      PiecesWhole(z[n..], style, l);
      HoleSpells(z, style, l);
      ScanAtHole(z, 0, style, l);
      UnfilledMore(Hole(HoleKey(z, style, l)), Pieces(z[n..], style, l), style);
    } else {
      var n := CopyLength(z);
      PiecesWhole(z[n..], style, l);
      ScanAtText(z, 0, style, l);
      UnfilledMore(Copied(z[..n]), Pieces(z[n..], style, l), style);
    }
  }

  lemma {:induction false} QuoteRestReplaced(z: string, q: char, other: string)
    requires QuoteRest(z, q).Some?
    ensures |QuoteRest(z, q).value| <= |z|
    ensures QuoteRest(z[..|z| - |QuoteRest(z, q).value|] + other, q) == Some(other)
    decreases |z|
  {
    QuoteRestShrinks(z, q);
    var n := |z| - |QuoteRest(z, q).value|;
    var y := z[..n] + other;
    if z[0] == q {
      assert y[1..] == other;
    } else if z[0] == '\\' {
      QuoteRestReplaced(z[2..], q, other);
      assert y[2..] == z[2..][..n - 2] + other;
    } else {
      QuoteRestReplaced(z[1..], q, other);
      assert y[1..] == z[1..][..n - 1] + other;
    }
  }

  /** What a filled remainder can start with: its own first character, or the quote of a literal. */
  lemma FillFront(z: string, style: Style, l: Letters, values: seq<string>)
    requires |values| == Holes(Pieces(z, style, l))
    ensures var f := Fill(Pieces(z, style, l), values);
            (z == "" <==> f == "") && (z != "" ==> f[0] == if HoleAt(z, style, l) then '\'' else z[0])
  {
  }

  /** Rescanning the filled statement finds no placeholder: the copied stretches are found again
      as they were, and each literal is one closed string, whatever it contains. */
  lemma {:induction false} RescanFindsNone(z: string, style: Style, l: Letters, values: seq<string>)
    requires QuoteIsNoLetter(l) && |values| == Holes(Pieces(z, style, l))
    ensures Pieces(Fill(Pieces(z, style, l), values), style, l) == Filled(Pieces(z, style, l), values)
    ensures Holes(Filled(Pieces(z, style, l), values)) == 0
    decreases |z|
  {
    var pieces := Pieces(z, style, l);
    if z != "" {
      if HoleAt(z, style, l) {
        var rest := z[HoleLength(z, style, l)..];
        RescanFindsNone(rest, style, l, values[1..]);
        LiteralPiece(values[0], Fill(pieces[1..], values[1..]), style, l);
      } else {
        var n := CopyLength(z);
        RescanFindsNone(z[n..], style, l, values);
        FillFront(z[n..], style, l, values);
        CopiedPiece(z, Fill(pieces[1..], values), style, l);
      }
    }
  }

  lemma LiteralPiece(value: string, rest: string, style: Style, l: Letters)
    ensures Pieces(Literal(value) + rest, style, l) == [Copied(Literal(value))] + Pieces(rest, style, l)
  {
    var z := Literal(value) + rest;
    assert z[1..] == EscapeString(value) + "'" + rest;
    LiteralCloses(value, rest);
    assert z[..|Literal(value)|] == Literal(value) && z[|Literal(value)|..] == rest;
  }

  /** What a copied stretch must be followed by to stay one: nothing new, or what a filled remainder starts with. */
  predicate Follows(y: string, rest: string, style: Style, l: Letters)
  {
    (y == "" <==> rest == "") && (y != "" ==> rest[0] == if HoleAt(y, style, l) then '\'' else y[0])
  }

  lemma CopyStays(z: string, rest: string, style: Style, l: Letters)
    requires z != "" && !HoleAt(z, style, l) && QuoteIsNoLetter(l) && Follows(z[CopyLength(z)..], rest, style, l)
    ensures var x := z[..CopyLength(z)] + rest;
            x != "" && !HoleAt(x, style, l) && CopyLength(x) == CopyLength(z)
  {
    var n := CopyLength(z);
    var x := z[..n] + rest;
    assert x[0] == z[0];
    if IsStringQuote(z[0]) {
      var body := QuoteRest(z[1..], z[0]);
      if body.Some? {
        QuoteRestReplaced(z[1..], z[0], rest);
        assert x[1..] == z[1..][..n - 1] + rest;
      } else {
        assert rest == "" && x == z;
      }
    } else {
      assert x[1..] == rest && (n < |z| ==> z[1..][0] == z[n]);
    }
  }

  lemma CopiedPiece(z: string, rest: string, style: Style, l: Letters)
    requires z != "" && !HoleAt(z, style, l) && QuoteIsNoLetter(l) && Follows(z[CopyLength(z)..], rest, style, l)
    ensures var n := CopyLength(z);
            Pieces(z[..n] + rest, style, l) == [Copied(z[..n])] + Pieces(rest, style, l)
  {
    hide HoleAt, CopyLength, Pieces, Follows;
    var n := CopyLength(z);
    var x := z[..n] + rest;
    CopyStays(z, rest, style, l);
    assert x[..n] == z[..n] && x[n..] == rest;
    ScanAtText(x, 0, style, l);
  }

  // ----- finding placeholders, character by character -----

  /** What is still to be found at position i, possibly inside a string literal. */
  function Ahead(s: string, i: nat, inString: Option<char>, style: Style, l: Letters): seq<Placeholder>
  {
    if i > |s| then []
    else if inString.None? then Placeholders(s[i..], i, style, l)
    else
      match QuoteRest(s[i..], inString.value)
      case None => []
      case Some(r) => if |r| <= |s| then Placeholders(r, |s| - |r|, style, l) else []
  }

  lemma AheadInString(s: string, i: nat, q: char, style: Style, l: Letters)
    requires i < |s|
    ensures Ahead(s, i, Some(q), style, l)
         == if s[i] == q then Ahead(s, i + 1, None, style, l)
            else Ahead(s, i + (if s[i] == '\\' then 2 else 1), Some(q), style, l)
  {
    hide Placeholders;
    assert s[i..][0] == s[i] && s[i..][1..] == s[i + 1..];
    QuoteRestShrinks(s[i..], q);
    if i + 1 < |s| {
      assert s[i..][2..] == s[i + 2..];
    }
  }

  lemma AheadAtQuote(s: string, i: nat, style: Style, l: Letters)
    requires i < |s| && IsStringQuote(s[i])
    ensures Ahead(s, i, None, style, l) == Ahead(s, i + 1, Some(s[i]), style, l)
  {
    hide Placeholders, QuoteRest, CopyLength;
    var z := s[i..];
    assert z[0] == s[i] && z[1..] == s[i + 1..];
    QuoteRestShrinks(z[1..], z[0]);
    QuoteIsNoHole(z, style, l);
    ScanAtText(z, i, style, l);
    ScanAtEnd(|s|, style, l);
    CopyAtQuote(z);
  }

  lemma QuoteIsNoHole(z: string, style: Style, l: Letters)
    requires z != "" && IsStringQuote(z[0])
    ensures !HoleAt(z, style, l)
  {
  }

  /** What is left after copying a string literal. */
  lemma CopyAtQuote(z: string)
    requires z != "" && IsStringQuote(z[0])
    ensures var body := QuoteRest(z[1..], z[0]);
            && z[CopyLength(z)..] == (if body.Some? then body.value else "")
            && CopyLength(z) == |z| - if body.Some? then |body.value| else 0
  {
    QuoteRestShrinks(z[1..], z[0]);
    if QuoteRest(z[1..], z[0]).Some? {
      QuoteRestIsSuffix(z[1..], z[0]);
    }
  }

  lemma AheadOutside(s: string, i: nat, style: Style, l: Letters)
    requires i < |s|
    ensures Ahead(s, i, None, style, l)
         == if IsStringQuote(s[i]) then Ahead(s, i + 1, Some(s[i]), style, l)
            else if HoleAt(s[i..], style, l) then
              [Placeholder(i, HoleKey(s[i..], style, l))] + Ahead(s, i + HoleLength(s[i..], style, l), None, style, l)
            else Ahead(s, i + 1, None, style, l)
  {
    hide KeyLength, QuoteRest;
    var z := s[i..];
    assert z[0] == s[i] && z[1..] == s[i + 1..];
    if IsStringQuote(s[i]) {
      AheadAtQuote(s, i, style, l);
    } else if HoleAt(z, style, l) {
      assert z[HoleLength(z, style, l)..] == s[i + HoleLength(z, style, l)..];
    }
  }

  lemma {:induction false} QuoteRestIsSuffix(z: string, q: char)
    requires QuoteRest(z, q).Some?
    ensures |QuoteRest(z, q).value| < |z| && z[|z| - |QuoteRest(z, q).value|..] == QuoteRest(z, q).value
    decreases |z|
  {
    if z[0] == q {
    } else if z[0] == '\\' {
      QuoteRestIsSuffix(z[2..], q);
    } else {
      QuoteRestIsSuffix(z[1..], q);
    }
  }

  method FindPlaceholders(s: string, style: Style, l: Letters) returns (found: seq<Placeholder>)
    ensures found == Placeholders(s, 0, style, l)
  {
    hide Placeholders, QuoteRest, KeyLength;
    found := [];
    var inString: Option<char> := None;
    var i: nat := 0;
    assert s[0..] == s;
    while i < |s|
      invariant i <= |s| + 1
      invariant Placeholders(s, 0, style, l) == found + Ahead(s, i, inString, style, l)
      decreases |s| + 1 - i
    {
      var c := s[i];
      if inString.Some? {
        AheadInString(s, i, inString.value, style, l);
        if c == inString.value {
          inString := None;
        } else if c == '\\' {
          i := i + 1;
        }
      } else {
        AheadOutside(s, i, style, l);
        HoleAtIs(s, i, style, l);
        if IsStringQuote(c) {
          inString := Some(c);
        } else if c == ':' && style == Named {
          if i + 1 < |s| && (l.alpha(s[i + 1]) || s[i + 1] == '_') {
            var j: nat := i + 1;
            while j < |s| && InKey(s[j], l)
              invariant i + 1 <= j <= |s|
              invariant KeyLength(s[i + 1..], l) == j - i - 1 + KeyLength(s[j..], l)
              decreases |s| - j
            {
              KeyGrows(s, j, l);
              j := j + 1;
            }
            KeyEnds(s, j, l);
            var key := s[i + 1..j];
            HoleKeyIs(s, i, j, l);
            Regroup(found, [Placeholder(i, key)], Ahead(s, j, None, style, l));
            found := found + [Placeholder(i, key)];
            i := j;
            continue;
          }
        } else if c == '?' && style == Positional {
          Regroup(found, [Placeholder(i, "")], Ahead(s, i + 1, None, style, l));
          found := found + [Placeholder(i, "")];
        }
      }
      i := i + 1;
    }
    NothingAhead(s, i, inString, style, l);
  }

  lemma HoleAtIs(s: string, i: nat, style: Style, l: Letters)
    requires i < |s|
    ensures HoleAt(s[i..], style, l)
        <==> if style == Named then s[i] == ':' && i + 1 < |s| && (l.alpha(s[i + 1]) || s[i + 1] == '_')
             else s[i] == '?'
    ensures style == Positional && s[i] == '?' ==>
              HoleLength(s[i..], style, l) == 1 && HoleKey(s[i..], style, l) == ""
  {
    assert s[i..][1..] == s[i + 1..];
  }

  lemma HoleKeyIs(s: string, i: nat, j: nat, l: Letters)
    requires i < j <= |s| && HoleAt(s[i..], Named, l) && KeyLength(s[i + 1..], l) == j - i - 1
    ensures HoleLength(s[i..], Named, l) == j - i && HoleKey(s[i..], Named, l) == s[i + 1..j]
  {
    assert s[i..][1..] == s[i + 1..];
    assert s[i..][1..j - i] == s[i + 1..j];
  }

  lemma KeyGrows(s: string, j: nat, l: Letters)
    requires j < |s| && InKey(s[j], l)
    ensures KeyLength(s[j..], l) == 1 + KeyLength(s[j + 1..], l)
  {
    assert s[j..][1..] == s[j + 1..];
  }

  lemma KeyEnds(s: string, j: nat, l: Letters)
    requires j <= |s| && (j < |s| ==> !InKey(s[j], l))
    ensures KeyLength(s[j..], l) == 0
  {
  }

  lemma NothingAhead(s: string, i: nat, inString: Option<char>, style: Style, l: Letters)
    requires i >= |s|
    ensures Ahead(s, i, inString, style, l) == []
  {
  }

  // ----- putting the literals in -----

  function HoleEnd(p: Placeholder, style: Style): nat
  {
    p.pos + |HoleText(p, style)|
  }

  /** In order, disjoint, and inside the n characters from position `from` on. */
  predicate InOrder(found: seq<Placeholder>, style: Style, from: nat, n: nat)
  {
    if found == [] then from <= n
    else from <= found[0].pos && InOrder(found[1..], style, HoleEnd(found[0], style), n)
  }

  /** The text from position `from` on, with a literal at each placeholder. */
  function FillAt(s: string, found: seq<Placeholder>, values: seq<string>, style: Style, from: nat): string
    requires |values| == |found| && InOrder(found, style, from, |s|)
    decreases |found|
  {
    InOrderInside(found, style, from, |s|);
    if found == [] then s[from..]
    else
      s[from..found[0].pos] + Literal(values[0])
      + FillAt(s, found[1..], values[1..], style, HoleEnd(found[0], style))
  }

  lemma {:induction false} InOrderInside(found: seq<Placeholder>, style: Style, from: nat, n: nat)
    requires InOrder(found, style, from, n)
    ensures from <= n && forall p | p in found :: from <= p.pos && HoleEnd(p, style) <= n
    decreases |found|
  {
    if found != [] {
      InOrderInside(found[1..], style, HoleEnd(found[0], style), n);
      assert found == [found[0]] + found[1..];
    }
  }

  lemma FillAtLater(s: string, found: seq<Placeholder>, values: seq<string>, style: Style, from: nat, to: nat)
    requires |values| == |found| && InOrder(found, style, to, |s|) && from <= to
    ensures InOrder(found, style, from, |s|) && to <= |s|
    ensures FillAt(s, found, values, style, from) == s[from..to] + FillAt(s, found, values, style, to)
  {
    hide Literal, HoleText;
    InOrderInside(found, style, to, |s|);
    if found == [] {
      CutBetween(s, from, to, |s|);
      assert s[from..|s|] == s[from..] && s[to..|s|] == s[to..];
    } else {
      var p := found[0];
      assert p in found;
      CutBetween(s, from, to, p.pos);
      var tail := FillAt(s, found[1..], values[1..], style, HoleEnd(p, style));
      RegroupFour(s[from..to], s[to..p.pos], Literal(values[0]), tail);
    }
  }

  lemma CutBetween(s: string, from: nat, to: nat, end: nat)
    requires from <= to <= end <= |s|
    ensures s[from..end] == s[from..to] + s[to..end]
  {
  }

  lemma ScanAtHole(z: string, at: nat, style: Style, l: Letters)
    requires HoleAt(z, style, l)
    ensures var n, key := HoleLength(z, style, l), HoleKey(z, style, l);
            && Pieces(z, style, l) == [Hole(key)] + Pieces(z[n..], style, l)
            && Placeholders(z, at, style, l) == [Placeholder(at, key)] + Placeholders(z[n..], at + n, style, l)
  {
  }

  lemma ScanAtText(z: string, at: nat, style: Style, l: Letters)
    requires z != "" && !HoleAt(z, style, l)
    ensures var n := CopyLength(z);
            && Pieces(z, style, l) == [Copied(z[..n])] + Pieces(z[n..], style, l)
            && Placeholders(z, at, style, l) == Placeholders(z[n..], at + n, style, l)
  {
  }

  lemma ScanAtEnd(at: nat, style: Style, l: Letters)
    ensures Pieces("", style, l) == [] && Placeholders("", at, style, l) == [] && Holes([]) == 0
  {
  }

  /** Filling by positions and filling piece by piece give the same text. */
  lemma {:induction false} FillAtIsFill(s: string, at: nat, style: Style, l: Letters, values: seq<string>)
    requires at <= |s| && |values| == Holes(Pieces(s[at..], style, l))
    ensures var found := Placeholders(s[at..], at, style, l);
            && |found| == |values| && InOrder(found, style, at, |s|)
            && FillAt(s, found, values, style, at) == Fill(Pieces(s[at..], style, l), values)
    decreases |s| - at
  {
    hide KeyLength, CopyLength, HoleKey, HoleLength, HoleAt, Literal, FillAt, Fill, InOrder, Holes, Pieces,
         Placeholders;
    var z := s[at..];
    if z == "" {
      ScanAtEnd(at, style, l);
      NothingToFill(s, at, values, style);
    } else if HoleAt(z, style, l) {
      var n := HoleLength(z, style, l);
      assert z[n..] == s[at + n..];
      ScanAtHole(z, at, style, l);
      FillHolePiece(HoleKey(z, style, l), Pieces(z[n..], style, l), values);
      FillAtIsFill(s, at + n, style, l, values[1..]);
      HoleSpan(z, at, style, l);
      FillHole(s, at, Placeholder(at, HoleKey(z, style, l)), Placeholders(z[n..], at + n, style, l), values, style);
    } else {
      var n := CopyLength(z);
      assert z[n..] == s[at + n..] && z[..n] == s[at..at + n];
      ScanAtText(z, at, style, l);
      FillCopyPiece(z[..n], Pieces(z[n..], style, l), values);
      FillAtIsFill(s, at + n, style, l, values);
      FillAtLater(s, Placeholders(z[n..], at + n, style, l), values, style, at, at + n);
    }
  }

  lemma NothingToFill(s: string, at: nat, values: seq<string>, style: Style)
    requires at <= |s| && s[at..] == "" && values == []
    ensures InOrder([], style, at, |s|) && FillAt(s, [], values, style, at) == "" == Fill([], values)
  {
  }

  lemma HoleSpan(z: string, at: nat, style: Style, l: Letters)
    requires HoleAt(z, style, l)
    ensures HoleEnd(Placeholder(at, HoleKey(z, style, l)), style) == at + HoleLength(z, style, l)
  {
  }

  lemma FillHole(s: string, at: nat, p: Placeholder, rest: seq<Placeholder>, values: seq<string>, style: Style)
    requires p.pos == at <= |s| && values != [] && |rest| == |values| - 1
    requires InOrder(rest, style, HoleEnd(p, style), |s|)
    ensures InOrder([p] + rest, style, at, |s|)
    ensures FillAt(s, [p] + rest, values, style, at)
         == Literal(values[0]) + FillAt(s, rest, values[1..], style, HoleEnd(p, style))
  {
    hide Literal;
    var found := [p] + rest;
    assert found[1..] == rest;
    assert s[at..at] == "";
    assert "" + Literal(values[0]) == Literal(values[0]);
  }

  lemma FillHolePiece(key: string, rest: seq<Piece>, values: seq<string>)
    requires |values| == Holes([Hole(key)] + rest)
    ensures ([Hole(key)] + rest)[1..] == rest && |values| == 1 + Holes(rest)
    ensures Fill([Hole(key)] + rest, values) == Literal(values[0]) + Fill(rest, values[1..])
  {
    hide Literal;
    assert ([Hole(key)] + rest)[1..] == rest;
  }

  lemma FillCopyPiece(text: string, rest: seq<Piece>, values: seq<string>)
    requires |values| == Holes([Copied(text)] + rest)
    ensures ([Copied(text)] + rest)[1..] == rest && |values| == Holes(rest)
    ensures Fill([Copied(text)] + rest, values) == text + Fill(rest, values)
  {
    hide Literal;
    assert ([Copied(text)] + rest)[1..] == rest;
  }

  // ----- the two substitution loops -----

  /** Where the text after placeholder i - 1 starts. */
  function FromOf(found: seq<Placeholder>, style: Style, i: nat): nat
    requires i <= |found|
  {
    if i == 0 then 0 else HoleEnd(found[i - 1], style)
  }

  lemma {:induction false} InOrderTail(found: seq<Placeholder>, style: Style, from: nat, n: nat, i: nat)
    requires InOrder(found, style, from, n) && i <= |found|
    ensures InOrder(found[i..], style, if i == 0 then from else HoleEnd(found[i - 1], style), n)
    decreases i
  {
    if i > 0 {
      InOrderTail(found[1..], style, HoleEnd(found[0], style), n, i - 1);
      assert found[1..][i - 1..] == found[i..];
    } else {
      assert found[0..] == found;
    }
  }

  /** The text between placeholders i - 1 and i. */
  function Stretch(s: string, found: seq<Placeholder>, style: Style, i: nat): string
    requires i < |found|
  {
    var from := FromOf(found, style, i);
    if from <= found[i].pos <= |s| then s[from..found[i].pos] else ""
  }

  /** One more placeholder: its stretch of text, its literal, and the rest. */
  lemma FillAtOne(s: string, found: seq<Placeholder>, values: seq<string>, style: Style, i: nat)
    requires |values| == |found| && InOrder(found, style, 0, |s|) && i < |found|
    ensures InOrder(found[i..], style, FromOf(found, style, i), |s|)
    ensures InOrder(found[i + 1..], style, FromOf(found, style, i + 1), |s|)
    ensures FromOf(found, style, i) <= found[i].pos < FromOf(found, style, i + 1) <= |s|
    ensures FillAt(s, found[i..], values[i..], style, FromOf(found, style, i))
         == Stretch(s, found, style, i) + Literal(values[i])
            + FillAt(s, found[i + 1..], values[i + 1..], style, FromOf(found, style, i + 1))
  {
    hide Literal;
    InOrderTail(found, style, 0, |s|, i);
    InOrderTail(found, style, 0, |s|, i + 1);
    InOrderInside(found[i + 1..], style, FromOf(found, style, i + 1), |s|);
    assert found[i..][1..] == found[i + 1..] && values[i..][1..] == values[i + 1..];
  }

  lemma FillAtLast(s: string, found: seq<Placeholder>, values: seq<string>, style: Style)
    requires |values| == |found| && InOrder(found, style, 0, |s|)
    ensures FromOf(found, style, |found|) <= |s|
    ensures InOrder(found[|found|..], style, FromOf(found, style, |found|), |s|)
    ensures FillAt(s, found[|found|..], values[|found|..], style, FromOf(found, style, |found|))
         == s[FromOf(found, style, |found|)..]
  {
    hide HoleText, InOrder;
    InOrderTail(found, style, 0, |s|, |found|);
    var from := FromOf(found, style, |found|);
    assert found[|found|..] == [] && values[|found|..] == [];
    FillAtNone(s, style, from);
  }

  lemma FillAtNone(s: string, style: Style, from: nat)
    ensures InOrder([], style, from, |s|) <==> from <= |s|
    ensures from <= |s| ==> FillAt(s, [], [], style, from) == s[from..]
  {
  }

  lemma {:induction false} HolesCounted(z: string, at: nat, style: Style, l: Letters)
    ensures |Placeholders(z, at, style, l)| == Holes(Pieces(z, style, l))
    decreases |z|
  {
    hide HoleAt, HoleLength, HoleKey, CopyLength;
    if z != "" {
      var n := if HoleAt(z, style, l) then HoleLength(z, style, l) else CopyLength(z);
      HolesCounted(z[n..], at + n, style, l);
      assert Pieces(z, style, l)[1..] == Pieces(z[n..], style, l);
    }
  }

  function Values(found: seq<Placeholder>, parameters: map<string, string>): (v: seq<string>)
    requires forall p | p in found :: p.key in parameters
    ensures |v| == |found| && forall i | 0 <= i < |v| :: v[i] == parameters[found[i].key]
  {
    if found == [] then [] else [parameters[found[0].key]] + Values(found[1..], parameters)
  }

  /** Dictionary parameters: literals spliced into the character list from right to left. */
  method ReplaceNamed(sql: string, parameters: map<string, string>, l: Letters) returns (r: Outcome<string>)
    ensures var found := Placeholders(sql, 0, Named, l);
            if exists p | p in found :: p.key !in parameters then r == Raise(KeyError)
            else |Values(found, parameters)| == Holes(Pieces(sql, Named, l))
                 && r == Ok(Fill(Pieces(sql, Named, l), Values(found, parameters)))
  {
    hide Placeholders, Pieces, Fill, FillAt, InOrder, Literal, Values;
    var found := FindPlaceholders(sql, Named, l);
    HolesCounted(sql, 0, Named, l);
    for i := 0 to |found|
      invariant forall j | 0 <= j < i :: found[j].key in parameters
    {
      if found[i].key !in parameters {
        assert found[i] in found;
        return Raise(KeyError);
      }
    }
    ghost var values := Values(found, parameters);
    assert sql[0..] == sql;
    FillAtIsFill(sql, 0, Named, l, values);
    FillAtLast(sql, found, values, Named);
    ghost var from := FromOf(found, Named, |found|);
    ghost var tail := FillAt(sql, found[|found|..], values[|found|..], Named, from);
    var text := sql;
    assert sql == sql[..from] + sql[from..];
    var i: nat := |found|;
    while i > 0
      invariant i <= |found| && from == FromOf(found, Named, i) <= |sql|
      invariant InOrder(found[i..], Named, from, |sql|)
      invariant tail == FillAt(sql, found[i..], values[i..], Named, from)
      invariant text == sql[..from] + tail
    {
      i := i - 1;
      var p := found[i];
      FillAtOne(sql, found, values, Named, i);
      var start, end := p.pos, p.pos + |":" + p.key|;
      var before := FromOf(found, Named, i);
      SpliceLeft(sql, before, start, from, Literal(values[i]), tail);
      text := text[..start] + Literal(parameters[p.key]) + text[end..];
      from := before;
      tail := FillAt(sql, found[i..], values[i..], Named, from);
    }
    assert found[0..] == found && values[0..] == values && sql[..0] + tail == tail;
    return Ok(text);
  }

  lemma SpliceLeft(s: string, before: nat, start: nat, end: nat, literal: string, tail: string)
    requires before <= start <= end <= |s|
    ensures var text := s[..end] + tail;
            text[..start] + literal + text[end..] == s[..before] + (s[before..start] + literal + tail)
  {
    var text := s[..end] + tail;
    assert text[..start] == s[..before] + s[before..start] && text[end..] == tail;
  }

  /** Sequence parameters: the text between placeholders, and the literals, joined from left to right. */
  method ReplacePositional(sql: string, parameters: seq<string>, l: Letters) returns (r: Outcome<string>)
    ensures if |parameters| != Holes(Pieces(sql, Positional, l)) then r == Raise(ValueError)
            else r == Ok(Fill(Pieces(sql, Positional, l), parameters))
  {
    hide Placeholders, Pieces, Fill, FillAt, InOrder, Literal;
    var found := FindPlaceholders(sql, Positional, l);
    HolesCounted(sql, 0, Positional, l);
    if |found| != |parameters| {
      return Raise(ValueError);
    }
    assert sql[0..] == sql;
    FillAtIsFill(sql, 0, Positional, l, parameters);
    var parts: seq<string> := [];
    var prev: nat := 0;
    for i := 0 to |found|
      invariant prev == FromOf(found, Positional, i) <= |sql|
      invariant |parts| == i
      invariant forall k | 0 <= k < i :: parts[k] == Stretch(sql, found, Positional, k)
    {
      FillAtOne(sql, found, parameters, Positional, i);
      parts := parts + [sql[prev..found[i].pos]];
      assert parts[i] == Stretch(sql, found, Positional, i);
      prev := found[i].pos + 1;
    }
    FillAtLast(sql, found, parameters, Positional);
    parts := parts + [sql[prev..]];
    var result := "";
    ghost var tail := FillAt(sql, found, parameters, Positional, 0);
    ghost var total := tail;
    assert found[0..] == found && parameters[0..] == parameters;
    for i := 0 to |found|
      invariant InOrder(found[i..], Positional, FromOf(found, Positional, i), |sql|)
      invariant tail == FillAt(sql, found[i..], parameters[i..], Positional, FromOf(found, Positional, i))
      invariant result + tail == total
    {
      FillAtOne(sql, found, parameters, Positional, i);
      tail := FillAt(sql, found[i + 1..], parameters[i + 1..], Positional, FromOf(found, Positional, i + 1));
      JoinRight(result, parts[i], Literal(parameters[i]), tail);
      result := result + parts[i] + Literal(parameters[i]);
    }
    return Ok(result + parts[|found|]);
  }

  lemma JoinRight(a: string, b: string, c: string, d: string)
    ensures a + (b + c + d) == a + b + c + d
  {
  }

  /** The scanner finds no placeholder in a filled statement. */
  lemma FilledHasNoPlaceholders(sql: string, style: Style, l: Letters, values: seq<string>)
    requires QuoteIsNoLetter(l) && |values| == Holes(Pieces(sql, style, l))
    ensures Placeholders(Fill(Pieces(sql, style, l), values), 0, style, l) == []
  {
    hide Pieces, Placeholders, Fill, Filled;
    RescanFindsNone(sql, style, l, values);
    HolesCounted(Fill(Pieces(sql, style, l), values), 0, style, l);
  }
}
