/** What the literals put into a statement stand for (odps/utils.py): reading one gives its value back. */
module SqlLiterals {
  import opened Text
  import opened SqlParameters

  /** The character that a backslash and c stand for in a string literal. */
  function Meant(c: char): Option<char>
  {
    match c
    case 'b' => Some('\U{08}')
    case 't' => Some('\U{09}')
    case 'n' => Some('\U{0a}')
    case 'r' => Some('\U{0d}')
    case '0' => Some('\U{00}')
    case '\'' => Some('\'')
    case '"' => Some('"')
    case '\\' => Some('\\')
    case _ => None
  }

  /** The value up to the closing quote, and the text behind it. */
  function ReadBody(z: string): Option<(string, string)>
  {
    if z == "" then None
    else if z[0] == '\'' then Some(("", z[1..]))
    else if z[0] == '\\' then
      if |z| == 1 || Meant(z[1]).None? then None
      else
        match ReadBody(z[2..])
        case None => None
        case Some(later) => Some(([Meant(z[1]).value] + later.0, later.1))
    else
      match ReadBody(z[1..])
      case None => None
      case Some(later) => Some(([z[0]] + later.0, later.1))
  }

  function ReadLiteral(z: string): Option<(string, string)>
  {
    if z == "" || z[0] != '\'' then None else ReadBody(z[1..])
  }

  lemma {:induction false} BodyIsRead(value: string, rest: string)
    ensures ReadBody(EscapeString(value) + ("'" + rest)) == Some((value, rest))
    decreases |value|
  {
    hide EscapeChar;
    if value == "" {
      assert EscapeString(value) + ("'" + rest) == "'" + rest && ("'" + rest)[1..] == rest;
    } else {
      var tail := EscapeString(value[1..]) + ("'" + rest);
      assert EscapeString(value) + ("'" + rest) == EscapeChar(value[0]) + tail;
      BodyIsRead(value[1..], rest);
      CharIsRead(value[0], tail);
      assert value == [value[0]] + value[1..];
    }
  }

  /** A character is escaped by one that stands for it, or needs no escape. */
  lemma EscapeStandsFor(c: char)
    ensures var e := EscapeChar(c);
            if c in {'\U{08}', '\U{09}', '\U{0a}', '\U{0d}', '\U{00}', '\'', '"', '\\'}
            then |e| == 2 && e[0] == '\\' && Meant(e[1]) == Some(c)
            else e == [c]
  {
  }

  lemma EscapedIsRead(d: char, c: char, tail: string)
    requires Meant(d) == Some(c) && ReadBody(tail).Some?
    ensures ReadBody(['\\', d] + tail) == Some(([c] + ReadBody(tail).value.0, ReadBody(tail).value.1))
  {
    hide Meant;
    assert (['\\', d] + tail)[2..] == tail;
  }

  lemma PlainIsRead(c: char, tail: string)
    requires c != '\'' && c != '\\' && ReadBody(tail).Some?
    ensures ReadBody([c] + tail) == Some(([c] + ReadBody(tail).value.0, ReadBody(tail).value.1))
  {
    hide Meant;
    assert ([c] + tail)[1..] == tail;
  }

  lemma CharIsRead(c: char, tail: string)
    requires ReadBody(tail).Some?
    ensures ReadBody(EscapeChar(c) + tail) == Some(([c] + ReadBody(tail).value.0, ReadBody(tail).value.1))
  {
    hide ReadBody, EscapeChar, Meant;
    var e := EscapeChar(c);
    EscapeStandsFor(c);
    if |e| == 2 {
      assert e == ['\\', e[1]];
      EscapedIsRead(e[1], c, tail);
    } else {
      PlainIsRead(c, tail);
    }
  }

  /** Reading a literal, whatever follows it, gives its value. */
  lemma LiteralIsRead(value: string, rest: string)
    ensures ReadLiteral(Literal(value) + rest) == Some((value, rest))
  {
    hide ReadBody;
    var z := Literal(value) + rest;
    assert z[1..] == EscapeString(value) + ("'" + rest);
    BodyIsRead(value, rest);
  }

  /** Different values have different literals. */
  lemma LiteralsDiffer(a: string, b: string)
    requires Literal(a) == Literal(b)
    ensures a == b
  {
    hide Literal;
    LiteralIsRead(a, "");
    LiteralIsRead(b, "");
  }

  /** No backspace, tab, line end or null character stands in a literal as it is. */
  lemma {:induction false} LiteralIsPrintable(value: string)
    ensures forall c | c in EscapeString(value) :: c !in {'\U{08}', '\U{09}', '\U{0a}', '\U{0d}', '\U{00}'}
  {
    if value != "" {
      LiteralIsPrintable(value[1..]);
      forall c | c in EscapeString(value) ensures c !in {'\U{08}', '\U{09}', '\U{0a}', '\U{0d}', '\U{00}'} {
        assert c in EscapeChar(value[0]) || c in EscapeString(value[1..]);
      }
    }
  }

  // ----- filled statements -----

  function JoinTexts(pieces: seq<Piece>): string
    requires forall p | p in pieces :: p.Copied?
  {
    if pieces == [] then "" else pieces[0].text + JoinTexts(pieces[1..])
  }

  /** Copied text as it was, and in the place of each hole a literal that reads as its value. */
  predicate ReadsAs(filled: seq<Piece>, pieces: seq<Piece>, values: seq<string>)
    decreases |pieces|
  {
    if pieces == [] then filled == [] && values == []
    else
      && filled != [] && filled[0].Copied?
      && if pieces[0].Copied? then filled[0] == pieces[0] && ReadsAs(filled[1..], pieces[1..], values)
         else values != [] && ReadLiteral(filled[0].text) == Some((values[0], ""))
              && ReadsAs(filled[1..], pieces[1..], values[1..])
  }

  lemma {:induction false} AllCopied(filled: seq<Piece>, pieces: seq<Piece>, values: seq<string>)
    requires ReadsAs(filled, pieces, values)
    ensures forall p | p in filled :: p.Copied?
    decreases |pieces|
  {
    hide ReadLiteral;
    if pieces != [] {
      AllCopied(filled[1..], pieces[1..], if pieces[0].Copied? then values else values[1..]);
      assert filled == [filled[0]] + filled[1..];
    }
  }

  /** A filled statement is its pieces in order, each hole a literal of its value. */
  lemma {:induction false} HolesAreRead(pieces: seq<Piece>, values: seq<string>)
    requires |values| == Holes(pieces)
    ensures ReadsAs(Filled(pieces, values), pieces, values)
    ensures (forall p | p in Filled(pieces, values) :: p.Copied?)
         && Fill(pieces, values) == JoinTexts(Filled(pieces, values))
    decreases |pieces|
  {
    hide ReadLiteral, Literal;
    if pieces != [] {
      var rest := if pieces[0].Hole? then values[1..] else values;
      HolesAreRead(pieces[1..], rest);
      assert Filled(pieces, values)[1..] == Filled(pieces[1..], rest);
      if pieces[0].Hole? {
        LiteralIsRead(values[0], "");
        assert Literal(values[0]) + "" == Literal(values[0]);
      }
    }
    AllCopied(Filled(pieces, values), pieces, values);
  }
}
