/** Where `split_backquoted` of odps/utils.py cuts: at the separators outside backquotes, and nowhere else. */
module BackquoteCuts {
  import opened Text
  import opened Backquotes

  /** Inside backquotes: behind an odd number of them. */
  predicate Inside(s: string)
  {
    s != "" && (Inside(s[..|s| - 1]) <==> s[|s| - 1] != '`')
  }

  /** The separator stands at position i; without one, any of five blanks does. */
  predicate HasSeparator(s: string, i: nat, sep: string)
  {
    if sep != "" then i + |sep| <= |s| && s[i..i + |sep|] == sep
    else i < |s| && s[i] in {' ', '\t', '\n', '\r', '\U{0c}'}
  }

  /** No separator starts outside backquotes. */
  predicate Whole(p: string, sep: string)
  {
    forall i | 0 <= i < |p| && !Inside(p[..i]) :: !HasSeparator(p, i, sep)
  }

  lemma SeparatorIs(s: string, i: nat, sep: string)
    requires i <= |s|
    ensures SeparatorAt(s, i, sep) <==> HasSeparator(s, i, sep)
  {
    if sep == "" && i < |s| {
      assert Window(s, i, 1) == [s[i]];
      assert SeparatorAt(s, i, sep) <==> [s[i]] in {" ", "\t", "\n", "\r", "\U{0c}"};
    }
  }

  /** The part of the text that is being collected holds no separator that counts. */
  predicate Collecting(s: string, sep: string, from: nat, pos: nat)
  {
    from <= pos <= |s| && forall i | from <= i < pos && !Inside(s[from..i]) :: !HasSeparator(s, i, sep)
  }

  lemma CollectedIsWhole(s: string, sep: string, from: nat, pos: nat)
    requires Collecting(s, sep, from, pos)
    ensures Whole(s[from..pos], sep)
  {
    var p := s[from..pos];
    forall i | 0 <= i < |p| && !Inside(p[..i]) ensures !HasSeparator(p, i, sep) {
      assert p[..i] == s[from..from + i];
      SeparatorInPart(s, sep, from, pos, i);
    }
  }

  lemma SeparatorInPart(s: string, sep: string, from: nat, pos: nat, i: nat)
    requires from <= pos <= |s| && from + i < pos
    ensures HasSeparator(s[from..pos], i, sep) ==> HasSeparator(s, from + i, sep)
  {
    if i + |sep| <= pos - from {
      PartOfPart(s, from, pos, i, i + |sep|);
    }
  }

  lemma PartOfPart(s: string, from: nat, pos: nat, i: nat, j: nat)
    requires from <= pos <= |s| && i <= j <= pos - from
    ensures s[from..pos][i..j] == s[from + i..from + j]
  {
    assert s == s[..from] + s[from..pos] + s[pos..];
    forall k | 0 <= k < j - i ensures s[from..pos][i..j][k] == s[from + i..from + j][k] {
      assert s[from..pos][i + k] == s[from + i + k];
    }
  }

  lemma QuoteIsNoSeparator(s: string, i: nat, sep: string)
    requires i < |s| && s[i] == '`' && '`' !in sep
    ensures !HasSeparator(s, i, sep)
  {
    SeparatorFirst(s, i, sep);
  }

  lemma SeparatorFirst(s: string, i: nat, sep: string)
    requires i < |s|
    ensures sep != "" && HasSeparator(s, i, sep) ==> s[i] in sep
  {
    if sep != "" && HasSeparator(s, i, sep) {
      assert s[i..i + |sep|][0] == sep[0];
    }
  }

  lemma OneMore(s: string, sep: string, from: nat, pos: nat)
    requires Collecting(s, sep, from, pos) && pos < |s| && '`' !in sep
    requires s[pos] == '`' || Inside(s[from..pos]) || !HasSeparator(s, pos, sep)
    ensures Collecting(s, sep, from, pos + 1)
    ensures s[from..pos + 1] == s[from..pos] + [s[pos]]
    ensures Inside(s[from..pos + 1]) <==> if s[pos] == '`' then !Inside(s[from..pos]) else Inside(s[from..pos])
  {
    assert s[from..pos + 1][..pos - from] == s[from..pos];
    if s[pos] == '`' {
      QuoteIsNoSeparator(s, pos, sep);
    }
  }

  /** Every piece before the last is whole and ends outside backquotes; so is the last one unless the splits ran out. */
  lemma {:induction false} PiecesAreWhole(
    s: string, sep: string, from: nat, pos: nat, quoted: bool, room: Option<nat>)
    requires '`' !in sep && from <= pos <= |s| && (quoted <==> Inside(s[from..pos]))
    requires room == Some(0) || Collecting(s, sep, from, pos)
    ensures var r := PiecesFrom(s, sep, pos, s[from..pos], quoted, room);
            && (forall i | 0 <= i < |r| - 1 :: Whole(r[i], sep) && !Inside(r[i]))
            && (room.Some? ==> |r| - 1 <= room.value)
            && (room.None? || |r| - 1 < room.value ==> Whole(r[|r| - 1], sep))
    decreases |s| - pos
  {
    hide Whole, HasSeparator, SeparatorAt, Inside;
    if pos == |s| {
      if room != Some(0) {
        CollectedIsWhole(s, sep, from, pos);
      }
    } else {
      SeparatorIs(s, pos, sep);
      if s[pos] != '`' && !quoted && room != Some(0) && SeparatorAt(s, pos, sep) {
        var next := pos + SeparatorLength(sep);
        var left := if room.Some? then Some(room.value - 1) else None;
        NothingInside(s, sep, next);
        PiecesAreWhole(s, sep, next, next, false, left);
        CollectedIsWhole(s, sep, from, pos);
      } else {
        if room != Some(0) {
          OneMore(s, sep, from, pos);
        } else {
          InsideMore(s, from, pos);
        }
        PiecesAreWhole(s, sep, from, pos + 1, if s[pos] == '`' then !quoted else quoted, room);
      }
    }
  }

  lemma InsideMore(s: string, from: nat, pos: nat)
    requires from <= pos < |s|
    ensures s[from..pos + 1] == s[from..pos] + [s[pos]]
    ensures Inside(s[from..pos + 1]) <==> if s[pos] == '`' then !Inside(s[from..pos]) else Inside(s[from..pos])
  {
    assert s[from..pos + 1][..pos - from] == s[from..pos];
  }

  lemma NothingInside(s: string, sep: string, pos: nat)
    requires pos <= |s|
    ensures s[pos..pos] == "" && !Inside("") && Collecting(s, sep, pos, pos)
  {
  }

  /** What `split_backquoted` returns: whole pieces, at most one more than the limit allows splits. */
  lemma SplitIsWhole(s: string, sep: string, maxsplit: int)
    requires '`' !in sep
    ensures var r := SplitBackquoted(s, sep, maxsplit).value;
            && (forall i | 0 <= i < |r| - 1 :: Whole(r[i], sep) && !Inside(r[i]))
            && (maxsplit >= 0 ==> |r| - 1 <= maxsplit)
            && (maxsplit < 0 || |r| - 1 < maxsplit ==> Whole(r[|r| - 1], sep))
  {
    hide Whole, PiecesFrom;
    NothingInside(s, sep, 0);
    PiecesAreWhole(s, sep, 0, 0, false, if maxsplit < 0 then None else Some(maxsplit));
  }

  /** Pieces with a blank between any two. */
  function JoinBlanks(pieces: seq<string>, blanks: seq<char>): string
    requires |pieces| == |blanks| + 1
  {
    if blanks == [] then pieces[0] else pieces[0] + [blanks[0]] + JoinBlanks(pieces[1..], blanks[1..])
  }

  /** Without a separator, the pieces are the text with single blanks taken out between them. */
  lemma {:induction false} JoinBlankPieces(s: string, pos: nat, cur: string, quoted: bool, room: Option<nat>)
    returns (blanks: seq<char>)
    requires pos <= |s|
    ensures var r := PiecesFrom(s, "", pos, cur, quoted, room);
            && |r| == |blanks| + 1 && (forall b | b in blanks :: b in {' ', '\t', '\n', '\r', '\U{0c}'})
            && JoinBlanks(r, blanks) == cur + s[pos..]
    decreases |s| - pos
  {
    hide SeparatorAt, JoinBlanks;
    if pos == |s| {
      blanks := [];
      OnePiece(cur);
      assert cur + s[pos..] == cur;
    } else if s[pos] != '`' && !quoted && room != Some(0) && SeparatorAt(s, pos, "") {
      SeparatorIs(s, pos, "");
      var left := if room.Some? then Some(room.value - 1) else None;
      var later := JoinBlankPieces(s, pos + 1, "", quoted, left);
      blanks := [s[pos]] + later;
      MorePieces(cur, PiecesFrom(s, "", pos + 1, "", quoted, left), s[pos], later);
      assert "" + s[pos + 1..] == s[pos + 1..] && cur + [s[pos]] + s[pos + 1..] == cur + s[pos..];
    } else {
      blanks := JoinBlankPieces(s, pos + 1, cur + [s[pos]], if s[pos] == '`' then !quoted else quoted, room);
      TakeOne(cur, s, pos);
    }
  }

  lemma OnePiece(cur: string)
    ensures JoinBlanks([cur], []) == cur
  {
  }

  lemma MorePieces(cur: string, pieces: seq<string>, blank: char, blanks: seq<char>)
    requires |pieces| == |blanks| + 1
    ensures JoinBlanks([cur] + pieces, [blank] + blanks) == cur + [blank] + JoinBlanks(pieces, blanks)
  {
    assert ([cur] + pieces)[1..] == pieces && ([blank] + blanks)[1..] == blanks;
  }

  // ----- names in backquotes -----

  /** Quoting doubles each backquote and changes nothing else. */
  lemma {:induction false} DoublingIs(a: string, b: string)
    requires '`' !in a
    ensures DoubleBackquotes(a) == a && DoubleBackquotes(a + ("`" + b)) == a + ("``" + DoubleBackquotes(b))
    decreases |a|
  {
    if a == "" {
      assert a + ("`" + b) == "`" + b && ("`" + b)[1..] == b;
      assert "" + ("``" + DoubleBackquotes(b)) == "``" + DoubleBackquotes(b);
    } else {
      assert a[0] in a;
      assert (a + ("`" + b))[0] == a[0] && (a + ("`" + b))[1..] == a[1..] + ("`" + b);
      DoublingIs(a[1..], b);
      assert a == [a[0]] + a[1..];
    }
  }

  /** A name that does not stand in backquotes is only stripped. */
  lemma UnquotedIsStripped(a: string, name: string, b: string)
    requires AllBlank(a) && AllBlank(b) && Tight(name) && (name == "" || name[0] != '`' || name[|name| - 1] != '`')
    ensures StripBackquotes(a + name + b) == name
  {
    StripPadded(a, name, b);
  }
}
