/** Backquoted names: `split_backquoted`, `strip_backquotes` and `backquote_string` of odps/utils.py. */
module Backquotes {
  import opened Text

  /** `s.replace("`", "``")`. */
  function DoubleBackquotes(s: string): string
  {
    if s == [] then []
    else (if s[0] == '`' then "``" else [s[0]]) + DoubleBackquotes(s[1..])
  }

  /** `s.replace("``", "`")`, replacing from the left without overlap. */
  function UndoubleBackquotes(s: string): (r: string)
  {
    if |s| >= 2 && s[0] == '`' && s[1] == '`' then ['`'] + UndoubleBackquotes(s[2..])
    else if s == [] then []
    else [s[0]] + UndoubleBackquotes(s[1..])
  }

  function BackquoteString(s: string): string
  {
    "`" + DoubleBackquotes(s) + "`"
  }

  function StripBackquotes(name: string): (r: string)
  {
    var s := Strip(name);
    if s == [] || s[0] != '`' || s[|s| - 1] != '`' then s
    else UndoubleBackquotes(if |s| == 1 then "" else s[1..|s| - 1])
  }

  lemma {:induction false} UndoubleInverts(s: string)
    ensures UndoubleBackquotes(DoubleBackquotes(s)) == s
  {
    if s != [] {
      var d := DoubleBackquotes(s);
      UndoubleInverts(s[1..]);
      if s[0] == '`' {
        assert d[2..] == DoubleBackquotes(s[1..]);
      } else {
        assert d[1..] == DoubleBackquotes(s[1..]);
      }
    }
  }

  /** Quoting a name and stripping the quotes gives the name back, whatever it contains. */
  lemma StripBackquotesInverts(a: string, name: string, b: string)
    requires AllBlank(a) && AllBlank(b)
    ensures StripBackquotes(a + BackquoteString(name) + b) == name
  {
    var q := BackquoteString(name);
    StripPadded(a, q, b);
    assert q[1..|q| - 1] == DoubleBackquotes(name);
    UndoubleInverts(name);
  }

  /** The separators that end a piece: the given one, or blanks when none is given. */
  function Separators(sep: string): (r: set<string>)
    ensures forall x | x in r :: |x| == SeparatorLength(sep)
  {
    if sep != "" then {sep} else {" ", "\t", "\n", "\r", "\U{0c}"}
  }

  function SeparatorLength(sep: string): (n: nat)
    ensures n > 0
  {
    if sep != "" then |sep| else 1
  }

  /** `s[pos : pos + len]`, which Python clips at the end of the text. */
  function Window(s: string, pos: nat, len: nat): string
    requires pos <= |s|
  {
    if pos + len <= |s| then s[pos..pos + len] else s[pos..]
  }

  predicate SeparatorAt(s: string, pos: nat, sep: string)
    requires pos <= |s|
    ensures SeparatorAt(s, pos, sep) ==> pos + SeparatorLength(sep) <= |s|
  {
    Window(s, pos, SeparatorLength(sep)) in Separators(sep)
  }

  /** The pieces still to come when the scan stands at `pos` with `cur` collected;
      `room` is the number of splits still allowed, None for no limit. */
  function PiecesFrom(s: string, sep: string, pos: nat, cur: string, quoted: bool, room: Option<nat>): (r: seq<string>)
    requires pos <= |s|
    ensures |r| > 0
    decreases |s| - pos
  {
    if pos == |s| then [cur]
    else if s[pos] == '`' then PiecesFrom(s, sep, pos + 1, cur + [s[pos]], !quoted, room)
    else if !quoted && room != Some(0) && SeparatorAt(s, pos, sep) then
      [cur] + PiecesFrom(s, sep, pos + SeparatorLength(sep), "", quoted,
                         if room.Some? then Some(room.value - 1) else None)
    else PiecesFrom(s, sep, pos + 1, cur + [s[pos]], quoted, room)
  }

  function SplitBackquoted(s: string, sep: string, maxsplit: int): Outcome<seq<string>>
  {
    if '`' in sep then Raise(ValueError)
    else Ok(PiecesFrom(s, sep, 0, "", false, if maxsplit < 0 then None else Some(maxsplit)))
  }

  method RunSplitBackquoted(s: string, sep: string, maxsplit: int) returns (r: Outcome<seq<string>>)
    ensures r == SplitBackquoted(s, sep, maxsplit)
  {
    hide SeparatorAt, Separators;
    if '`' in sep {
      return Raise(ValueError);
    }
    var sepLen := SeparatorLength(sep);
    var results: seq<string> := [];
    var pos, cur, quoted := 0, "", false;
    ghost var room := if maxsplit < 0 then None else Some(maxsplit as nat);
    ghost var todo := PiecesFrom(s, sep, 0, "", false, room);
    ghost var all := todo;
    while pos < |s|
      invariant pos <= |s|
      invariant maxsplit < 0 <==> room.None?
      invariant room.Some? ==> room.value == maxsplit - |results|
      invariant all == results + todo
      invariant todo == PiecesFrom(s, sep, pos, cur, quoted, room)
    {
      var ch := s[pos];
      if ch == '`' {
        quoted := !quoted;
        cur := cur + [ch];
        pos := pos + 1;
      } else if !quoted && (maxsplit < 0 || |results| < maxsplit) && SeparatorAt(s, pos, sep) {
        room := if room.Some? then Some(room.value - 1) else None;
        todo := PiecesFrom(s, sep, pos + sepLen, "", quoted, room);
        TakeFirst(results, cur, todo);
        results := results + [cur];
        cur := "";
        pos := pos + sepLen;
      } else {
        cur := cur + [ch];
        pos := pos + 1;
      }
    }
    results := results + [cur];
    return Ok(results);
  }

  lemma TakeFirst(a: seq<string>, x: string, b: seq<string>)
    ensures a + ([x] + b) == a + [x] + b
  {
  }

  function Join(pieces: seq<string>, sep: string): string
    requires |pieces| > 0
  {
    if |pieces| == 1 then pieces[0] else pieces[0] + sep + Join(pieces[1..], sep)
  }

  lemma JoinCons(first: string, rest: seq<string>, sep: string)
    requires |rest| > 0
    ensures Join([first] + rest, sep) == first + sep + Join(rest, sep)
  {
    assert ([first] + rest)[1..] == rest;
  }

  /** Splitting loses nothing: the separator joins the pieces back to the text. */
  lemma {:induction false} JoinPieces(s: string, sep: string, pos: nat, cur: string, quoted: bool, room: Option<nat>)
    requires sep != "" && pos <= |s|
    ensures Join(PiecesFrom(s, sep, pos, cur, quoted, room), sep) == cur + s[pos..]
    decreases |s| - pos
  {
    hide Join, SeparatorAt, Separators;
    if pos == |s| {
      assert Join([cur], sep) == cur by { JoinOne(cur, sep); }
      assert cur + s[pos..] == cur;
    } else if s[pos] != '`' && !quoted && room != Some(0) && SeparatorAt(s, pos, sep) {
      var left := if room.Some? then Some(room.value - 1) else None;
      var rest := PiecesFrom(s, sep, pos + |sep|, "", quoted, left);
      JoinPieces(s, sep, pos + |sep|, "", quoted, left);
      JoinCons(cur, rest, sep);
      SplitApart(cur, s, pos, sep);
    } else {
      JoinPieces(s, sep, pos + 1, cur + [s[pos]], if s[pos] == '`' then !quoted else quoted, room);
      TakeOne(cur, s, pos);
    }
  }

  lemma JoinOne(cur: string, sep: string)
    ensures Join([cur], sep) == cur
  {
  }

  lemma TakeOne(cur: string, s: string, pos: nat)
    requires pos < |s|
    ensures cur + [s[pos]] + s[pos + 1..] == cur + s[pos..]
  {
  }

  lemma SplitApart(cur: string, s: string, pos: nat, sep: string)
    requires sep != "" && pos <= |s| && SeparatorAt(s, pos, sep)
    ensures pos + |sep| <= |s| && cur + sep + ("" + s[pos + |sep|..]) == cur + s[pos..]
  {
    assert s[pos..] == s[pos..pos + |sep|] + s[pos + |sep|..];
  }
}
