/** Which placeholders a statement has (odps/dbapi.py), stated without a scanner: those outside string literals. */
module SqlPlaceholders {
  import opened Text
  import opened SqlLexing
  import opened SqlQuotes
  import opened SqlParameters

  datatype Chunk = Char(c: char) | Str(q: char, units: seq<Unit>) | Slot(key: string)

  /** The statement is over, or a string literal in it never ends. */
  datatype Tail = Done | OpenStr(q: char, units: seq<Unit>, dangling: bool)

  function SpellChunk(x: Chunk, style: Style): string
  {
    match x
    case Char(c) => [c]
    case Str(q, us) => [q] + SpellUnits(us) + [q]
    case Slot(key) => if style == Named then ":" + key else "?"
  }

  function SpellTail(t: Tail): string
  {
    match t
    case Done => ""
    case OpenStr(q, us, dangling) => [q] + (SpellUnits(us) + if dangling then "\\" else "")
  }

  function SpellChunks(xs: seq<Chunk>, t: Tail, style: Style): string
  {
    if xs == [] then SpellTail(t) else SpellChunk(xs[0], style) + SpellChunks(xs[1..], t, style)
  }

  /** A key may start here. */
  predicate KeyStarts(next: string, l: Letters)
  {
    next != "" && (l.alpha(next[0]) || next[0] == '_')
  }

  predicate KeyOver(next: string, l: Letters)
  {
    next != "" ==> !l.alnum(next[0]) && next[0] != '_'
  }

  /** What may stand before `next`: a key is as long as it can be, and a character starts neither literal nor slot. */
  predicate ChunkOk(x: Chunk, next: string, style: Style, l: Letters)
  {
    match x
    case Char(c) =>
      c != '"' && c != '\'' && if style == Named then !(c == ':' && KeyStarts(next, l)) else c != '?'
    case Str(q, us) => (q == '"' || q == '\'') && UnitsOk(us, q)
    case Slot(key) =>
      if style == Positional then key == ""
      else (forall c | c in key :: l.alnum(c) || c == '_') && KeyStarts(key + next, l) && KeyOver(next, l)
  }

  predicate ChunksOk(xs: seq<Chunk>, t: Tail, style: Style, l: Letters)
  {
    if xs == [] then t.OpenStr? ==> (t.q == '"' || t.q == '\'') && UnitsOk(t.units, t.q)
    else ChunkOk(xs[0], SpellChunks(xs[1..], t, style), style, l) && ChunksOk(xs[1..], t, style, l)
  }

  function AsPiece(x: Chunk, style: Style): Piece
  {
    if x.Slot? then Hole(x.key) else Copied(SpellChunk(x, style))
  }

  /** What substitution makes of them: slots are holes, everything else is copied. */
  function AsPieces(xs: seq<Chunk>, t: Tail, style: Style): seq<Piece>
  {
    if xs == [] then if t.Done? then [] else [Copied(SpellTail(t))]
    else [AsPiece(xs[0], style)] + AsPieces(xs[1..], t, style)
  }

  /** Where the slots stand. */
  function SlotsFrom(xs: seq<Chunk>, at: nat, style: Style): seq<Placeholder>
  {
    if xs == [] then []
    else
      (if xs[0].Slot? then [Placeholder(at, xs[0].key)] else [])
      + SlotsFrom(xs[1..], at + |SpellChunk(xs[0], style)|, style)
  }

  // ----- the chunks decide -----

  lemma {:induction false} KeyIsRead(key: string, next: string, l: Letters)
    requires (forall c | c in key :: l.alnum(c) || c == '_') && KeyOver(next, l)
    ensures KeyLength(key + next, l) == |key|
    decreases |key|
  {
    if key == "" {
      assert key + next == next;
    } else {
      assert key[0] in key;
      assert (key + next)[0] == key[0] && (key + next)[1..] == key[1..] + next;
      KeyIsRead(key[1..], next, l);
    }
  }

  lemma SlotIsHole(key: string, next: string, style: Style, l: Letters)
    requires ChunkOk(Slot(key), next, style, l)
    ensures var z := SpellChunk(Slot(key), style) + next;
            && HoleAt(z, style, l) && HoleKey(z, style, l) == key
            && HoleLength(z, style, l) == |SpellChunk(Slot(key), style)|
            && z[HoleLength(z, style, l)..] == next
  {
    hide KeyLength;
    var z := SpellChunk(Slot(key), style) + next;
    if style == Named {
      assert z[1..] == key + next;
      KeyIsRead(key, next, l);
      assert z[1..1 + |key|] == key;
    } else {
      assert z[1..] == next;
    }
  }

  lemma CharIsCopied(c: char, next: string, style: Style, l: Letters)
    requires ChunkOk(Char(c), next, style, l)
    ensures var z := [c] + next;
            !HoleAt(z, style, l) && CopyLength(z) == 1 && z[..1] == [c] && z[1..] == next
  {
    assert ([c] + next)[1..] == next;
  }

  lemma StrIsCopied(q: char, us: seq<Unit>, next: string, style: Style, l: Letters)
    requires (q == '"' || q == '\'') && UnitsOk(us, q)
    ensures var s := [q] + SpellUnits(us) + [q];
            var z := s + next;
            !HoleAt(z, style, l) && CopyLength(z) == |s| && z[..|s|] == s && z[|s|..] == next
  {
    hide SpellUnits, UnitsOk;
    var s := [q] + SpellUnits(us) + [q];
    var z := s + next;
    assert z[1..] == SpellUnits(us) + ([q] + next);
    QuoteCloses(us, q, next);
  }

  lemma OpenIsCopied(q: char, us: seq<Unit>, dangling: bool, style: Style, l: Letters)
    requires (q == '"' || q == '\'') && UnitsOk(us, q)
    ensures var z := SpellTail(OpenStr(q, us, dangling));
            z != "" && !HoleAt(z, style, l) && CopyLength(z) == |z| && z[..|z|] == z && z[|z|..] == ""
  {
    hide SpellUnits, UnitsOk;
    var z := SpellTail(OpenStr(q, us, dangling));
    assert z[1..] == SpellUnits(us) + if dangling then "\\" else "";
    QuoteStaysOpen(us, q, dangling);
  }

  lemma ChunkDecides(x: Chunk, next: string, at: nat, style: Style, l: Letters)
    requires ChunkOk(x, next, style, l)
    ensures var z, later := SpellChunk(x, style) + next, at + |SpellChunk(x, style)|;
            && Pieces(z, style, l) == [AsPiece(x, style)] + Pieces(next, style, l)
            && Placeholders(z, at, style, l)
               == (if x.Slot? then [Placeholder(at, x.key)] else []) + Placeholders(next, later, style, l)
  {
    hide Pieces, Placeholders, HoleAt, HoleLength, HoleKey, CopyLength, SpellUnits, UnitsOk, KeyStarts, KeyOver;
    var z := SpellChunk(x, style) + next;
    match x
    case Char(c) =>
      CharIsCopied(c, next, style, l);
      ScanAtText(z, at, style, l);
    case Str(q, us) =>
      StrIsCopied(q, us, next, style, l);
      ScanAtText(z, at, style, l);
    case Slot(key) =>
      SlotIsHole(key, next, style, l);
      ScanAtHole(z, at, style, l);
  }

  /** A statement made of chunks has its slots for holes and no other. */
  lemma {:induction false} ChunksDecide(xs: seq<Chunk>, t: Tail, at: nat, style: Style, l: Letters)
    requires ChunksOk(xs, t, style, l)
    ensures Pieces(SpellChunks(xs, t, style), style, l) == AsPieces(xs, t, style)
    ensures Placeholders(SpellChunks(xs, t, style), at, style, l) == SlotsFrom(xs, at, style)
    decreases |xs|
  {
    hide Pieces, Placeholders, CopyLength, HoleAt, SpellChunk, SpellTail, ChunkOk;
    var z := SpellChunks(xs, t, style);
    if xs == [] {
      TailDecides(t, at, style, l);
    } else {
      ChunksDecide(xs[1..], t, at + |SpellChunk(xs[0], style)|, style, l);
      ChunkDecides(xs[0], SpellChunks(xs[1..], t, style), at, style, l);
    }
  }

  lemma TailDecides(t: Tail, at: nat, style: Style, l: Letters)
    requires t.OpenStr? ==> (t.q == '"' || t.q == '\'') && UnitsOk(t.units, t.q)
    ensures Pieces(SpellTail(t), style, l) == if t.Done? then [] else [Copied(SpellTail(t))]
    ensures Placeholders(SpellTail(t), at, style, l) == []
  {
    hide Pieces, Placeholders, HoleAt, CopyLength, SpellUnits, UnitsOk;
    ScanAtEnd(at, style, l);
    if t.OpenStr? {
      var z := SpellTail(t);
      OpenIsCopied(t.q, t.units, t.dangling, style, l);
      ScanAtText(z, at, style, l);
      ScanAtEnd(at + |z|, style, l);
    }
  }

  // ----- every statement is made of chunks -----

  lemma {:induction false} KeySplit(z: string, l: Letters)
    ensures var n := KeyLength(z, l);
            (forall c | c in z[..n] :: l.alnum(c) || c == '_') && KeyOver(z[n..], l)
  {
    if z != "" && InKey(z[0], l) {
      KeySplit(z[1..], l);
      var n := KeyLength(z[1..], l);
      assert z[..n + 1] == [z[0]] + z[1..][..n] && z[n + 1..] == z[1..][n..];
    }
  }

  lemma AddedChunk(x: Chunk, xs: seq<Chunk>, t: Tail, style: Style, l: Letters)
    requires ChunksOk(xs, t, style, l) && ChunkOk(x, SpellChunks(xs, t, style), style, l)
    ensures ChunksOk([x] + xs, t, style, l)
    ensures SpellChunks([x] + xs, t, style) == SpellChunk(x, style) + SpellChunks(xs, t, style)
  {
    hide ChunkOk, SpellChunk;
    assert ([x] + xs)[1..] == xs;
  }

  lemma {:induction false} HasChunks(z: string, style: Style, l: Letters) returns (xs: seq<Chunk>, t: Tail)
    ensures ChunksOk(xs, t, style, l) && SpellChunks(xs, t, style) == z
    decreases |z|
  {
    hide ChunksOk, SpellChunks, SpellUnits, UnitsOk, KeyLength;
    if z == "" {
      xs, t := [], Done;
      NoChunks(t, style, l);
    } else if z[0] == '"' || z[0] == '\'' {
      var x := HasLiteral(z[1..], z[0]);
      match x
      case Open(us, dangling) =>
        xs, t := [], OpenStr(z[0], us, dangling);
        NoChunks(t, style, l);
      case Closed(us, rest) =>
        var later;
        later, t := HasChunks(rest, style, l);
        assert z == [z[0]] + SpellUnits(us) + [z[0]] + rest;
        xs := [Str(z[0], us)] + later;
        AddedChunk(Str(z[0], us), later, t, style, l);
    } else {
      var x: Chunk, rest: string;
      if style == Positional && z[0] == '?' {
        x, rest := Slot(""), z[1..];
      } else if style == Named && z[0] == ':' && KeyStarts(z[1..], l) {
        var n := KeyLength(z[1..], l);
        KeySplit(z[1..], l);
        x, rest := Slot(z[1..][..n]), z[1..][n..];
        assert z[1..][..n] + z[1..][n..] == z[1..];
        assert z == ":" + z[1..][..n] + z[1..][n..];
      } else {
        x, rest := Char(z[0]), z[1..];
      }
      var later;
      later, t := HasChunks(rest, style, l);
      xs := [x] + later;
      AddedChunk(x, later, t, style, l);
    }
  }

  lemma NoChunks(t: Tail, style: Style, l: Letters)
    requires t.OpenStr? ==> (t.q == '"' || t.q == '\'') && UnitsOk(t.units, t.q)
    ensures ChunksOk([], t, style, l) && SpellChunks([], t, style) == SpellTail(t)
  {
  }

  // ----- how statements are filled -----

  /** The statement with literals in its slots and nothing else changed. */
  function FilledChunks(xs: seq<Chunk>, t: Tail, style: Style, values: seq<string>): string
    requires |values| == Slots(xs)
  {
    if xs == [] then SpellTail(t)
    else if xs[0].Slot? then Literal(values[0]) + FilledChunks(xs[1..], t, style, values[1..])
    else SpellChunk(xs[0], style) + FilledChunks(xs[1..], t, style, values)
  }

  function Slots(xs: seq<Chunk>): nat
  {
    if xs == [] then 0 else (if xs[0].Slot? then 1 else 0) + Slots(xs[1..])
  }

  lemma {:induction false} PiecesAreFilled(xs: seq<Chunk>, t: Tail, style: Style, values: seq<string>)
    requires |values| == Slots(xs)
    ensures Holes(AsPieces(xs, t, style)) == Slots(xs)
    ensures Fill(AsPieces(xs, t, style), values) == FilledChunks(xs, t, style, values)
    decreases |xs|
  {
    hide Literal, SpellChunk, SpellUnits;
    var pieces := AsPieces(xs, t, style);
    if xs != [] {
      assert pieces[1..] == AsPieces(xs[1..], t, style);
      PiecesAreFilled(xs[1..], t, style, if xs[0].Slot? then values[1..] else values);
    } else if t.OpenStr? {
      assert pieces == [Copied(SpellTail(t))] && pieces[1..] == [];
      assert Fill(pieces, values) == SpellTail(t) + Fill(pieces[1..], values);
      assert SpellTail(t) + "" == SpellTail(t);
    }
  }

  /** Filling a statement puts a literal in each slot outside string literals, in order. */
  lemma SlotsAreFilled(xs: seq<Chunk>, t: Tail, style: Style, l: Letters, values: seq<string>)
    requires ChunksOk(xs, t, style, l) && |values| == Slots(xs)
    ensures var pieces := Pieces(SpellChunks(xs, t, style), style, l);
            Holes(pieces) == |values| && Fill(pieces, values) == FilledChunks(xs, t, style, values)
  {
    hide ChunksOk, SpellChunks, Pieces, Fill, FilledChunks;
    ChunksDecide(xs, t, 0, style, l);
    PiecesAreFilled(xs, t, style, values);
  }

  /** The statement with the literal of its key's parameter in each slot. */
  function FilledByKey(xs: seq<Chunk>, t: Tail, parameters: map<string, string>): string
    requires forall x | x in xs :: x.Slot? ==> x.key in parameters
  {
    if xs == [] then SpellTail(t)
    else
      (if xs[0].Slot? then Literal(parameters[xs[0].key]) else SpellChunk(xs[0], Named))
      + FilledByKey(xs[1..], t, parameters)
  }

  lemma {:induction false} ValuesByKey(xs: seq<Chunk>, t: Tail, at: nat, parameters: map<string, string>)
    requires forall x | x in xs :: x.Slot? ==> x.key in parameters
    ensures var found := SlotsFrom(xs, at, Named);
            && |found| == Slots(xs) && (forall p | p in found :: p.key in parameters)
            && FilledChunks(xs, t, Named, Values(found, parameters)) == FilledByKey(xs, t, parameters)
    decreases |xs|
  {
    hide Literal, SpellTail, SpellChunk, Values;
    if xs == [] {
      NoValues(parameters);
    } else {
      var later := SlotsFrom(xs[1..], at + |SpellChunk(xs[0], Named)|, Named);
      ValuesByKey(xs[1..], t, at + |SpellChunk(xs[0], Named)|, parameters);
      if xs[0].Slot? {
        MoreValues(Placeholder(at, xs[0].key), later, parameters);
      } else {
        assert SlotsFrom(xs, at, Named) == later;
      }
    }
  }

  lemma NoValues(parameters: map<string, string>)
    ensures Values([], parameters) == []
  {
  }

  lemma MoreValues(p: Placeholder, later: seq<Placeholder>, parameters: map<string, string>)
    requires p.key in parameters && forall x | x in later :: x.key in parameters
    ensures forall x | x in [p] + later :: x.key in parameters
    ensures Values([p] + later, parameters) == [parameters[p.key]] + Values(later, parameters)
    ensures Values([p] + later, parameters)[1..] == Values(later, parameters)
  {
    assert ([p] + later)[1..] == later;
  }

  /** With dictionary parameters every slot is filled by its own key. */
  lemma KeysAreFilled(xs: seq<Chunk>, t: Tail, l: Letters, parameters: map<string, string>)
    requires ChunksOk(xs, t, Named, l) && forall x | x in xs :: x.Slot? ==> x.key in parameters
    ensures var z := SpellChunks(xs, t, Named);
            var found := Placeholders(z, 0, Named, l);
            && (forall p | p in found :: p.key in parameters)
            && |found| == Holes(Pieces(z, Named, l))
            && Fill(Pieces(z, Named, l), Values(found, parameters)) == FilledByKey(xs, t, parameters)
  {
    hide ChunksOk, SpellChunks, Pieces, Placeholders, Fill, FilledChunks, FilledByKey, Values;
    ChunksDecide(xs, t, 0, Named, l);
    ValuesByKey(xs, t, 0, parameters);
    SlotsAreFilled(xs, t, Named, l, Values(SlotsFrom(xs, 0, Named), parameters));
  }

  /** A slot whose key has no parameter is a placeholder without one: the `KeyError`. */
  lemma {:induction false} MissingKeyIsFound(xs: seq<Chunk>, at: nat, key: string)
    requires Slot(key) in xs
    ensures exists p :: p in SlotsFrom(xs, at, Named) && p.key == key
    decreases |xs|
  {
    var found := SlotsFrom(xs, at, Named);
    if xs[0] == Slot(key) {
      assert found[0].key == key;
    } else {
      var next := at + |SpellChunk(xs[0], Named)|;
      MissingKeyIsFound(xs[1..], next, key);
      var p :| p in SlotsFrom(xs[1..], next, Named) && p.key == key;
      assert p in found;
    }
  }
}
