/** `_split_at_depth` of odps/readers.py: cutting a text at a delimiter, outside brackets and quotes. */
module DepthSplit {
  import opened Text
  import opened Backquotes

  datatype Nesting = Nesting(depth: int, quote: Option<char>, escape: bool)

  const OUTSIDE := Nesting(0, None, false)

  predicate IsQuote(c: char)
  {
    c == '"' || c == '\''
  }

  predicate IsOpen(c: char)
  {
    c == '{' || c == '['
  }

  predicate IsClose(c: char)
  {
    c == '}' || c == ']'
  }

  function After(q: Nesting, c: char): Nesting
  {
    if q.escape then q.(escape := false)
    else if c == '\\' then q.(escape := true)
    else if q.quote.Some? then if c == q.quote.value then q.(quote := None) else q
    else if IsQuote(c) then q.(quote := Some(c))
    else if IsOpen(c) then q.(depth := q.depth + 1)
    else if IsClose(c) then q.(depth := q.depth - 1)
    else q
  }

  predicate Cuts(q: Nesting, c: char, delimiter: char)
  {
    && q == OUTSIDE && c == delimiter
    && c != '\\' && !IsQuote(c) && !IsOpen(c) && !IsClose(c)
  }

  /** The position of the first cut, or the length of the text. */
  function FirstCut(s: string, q: Nesting, delimiter: char): (k: nat)
    ensures k <= |s|
  {
    if s == "" || Cuts(q, s[0], delimiter) then 0 else 1 + FirstCut(s[1..], After(q, s[0]), delimiter)
  }

  /** The scan's state behind a text. */
  function Through(s: string, q: Nesting): Nesting
  {
    if s == "" then q else Through(s[1..], After(q, s[0]))
  }

  /** All pieces; with a limit on the cuts, the rest stays in one piece. A limit below one still allows one cut. */
  function Split(s: string, delimiter: char, limit: Option<int>): (r: seq<string>)
    ensures |r| > 0
    decreases |s|
  {
    var k := FirstCut(s, OUTSIDE, delimiter);
    if k == |s| then [s]
    else if limit.Some? && limit.value <= 1 then [s[..k], s[k + 1..]]
    else [s[..k]] + Split(s[k + 1..], delimiter, if limit.Some? then Some(limit.value - 1) else None)
  }

  // ----- facts about the scan -----

  lemma {:induction false} FirstCutIsCut(s: string, q: Nesting, delimiter: char)
    ensures var k := FirstCut(s, q, delimiter);
            && (k < |s| ==> Through(s[..k], q) == OUTSIDE && s[k] == delimiter)
    decreases |s|
  {
    if s != "" && !Cuts(q, s[0], delimiter) {
      FirstCutIsCut(s[1..], After(q, s[0]), delimiter);
      var k := FirstCut(s, q, delimiter);
      if k < |s| {
        assert s[..k][0] == s[0] && s[..k][1..] == s[1..][..k - 1];
      }
    }
  }

  lemma {:induction false} ThroughJoin(a: string, b: string, q: Nesting)
    ensures Through(a + b, q) == Through(b, Through(a, q))
    decreases |a|
  {
    if a == "" {
      assert a + b == b;
    } else {
      assert (a + b)[0] == a[0] && (a + b)[1..] == a[1..] + b;
      ThroughJoin(a[1..], b, After(q, a[0]));
    }
  }

  /** Without a cut in `a`, the scan goes on behind it. */
  lemma {:induction false} FirstCutJoin(a: string, b: string, q: Nesting, delimiter: char)
    ensures FirstCut(a, q, delimiter) < |a| ==> FirstCut(a + b, q, delimiter) == FirstCut(a, q, delimiter)
    ensures FirstCut(a, q, delimiter) == |a| ==>
              FirstCut(a + b, q, delimiter) == |a| + FirstCut(b, Through(a, q), delimiter)
    decreases |a|
  {
    if a == "" {
      assert a + b == b;
    } else {
      assert (a + b)[0] == a[0] && (a + b)[1..] == a[1..] + b;
      if !Cuts(q, a[0], delimiter) {
        FirstCutJoin(a[1..], b, After(q, a[0]), delimiter);
      }
    }
  }

  // ----- nothing is lost -----

  /** The delimiter joins the pieces back to the text. */
  lemma {:induction false} PiecesRejoin(s: string, delimiter: char, limit: Option<int>)
    ensures Join(Split(s, delimiter, limit), [delimiter]) == s
    decreases |s|
  {
    hide FirstCut, Join;
    var k := FirstCut(s, OUTSIDE, delimiter);
    if k == |s| {
      JoinOne(s, [delimiter]);
    } else {
      FirstCutIsCut(s, OUTSIDE, delimiter);
      var rest := s[k + 1..];
      if limit.Some? && limit.value <= 1 {
        JoinOne(rest, [delimiter]);
        JoinCons(s[..k], [rest], [delimiter]);
        assert [s[..k]] + [rest] == [s[..k], rest];
      } else {
        var less := if limit.Some? then Some(limit.value - 1) else None;
        PiecesRejoin(rest, delimiter, less);
        JoinCons(s[..k], Split(rest, delimiter, less), [delimiter]);
      }
      assert s == s[..k] + [delimiter] + rest;
    }
  }

  /** Without a limit no piece can be cut further. */
  lemma {:induction false} PiecesAreWhole(s: string, delimiter: char)
    ensures forall p | p in Split(s, delimiter, None) :: FirstCut(p, OUTSIDE, delimiter) == |p|
    decreases |s|
  {
    hide Cuts;
    var k := FirstCut(s, OUTSIDE, delimiter);
    if k < |s| {
      FirstCutJoin(s[..k], s[k..], OUTSIDE, delimiter);
      assert s == s[..k] + s[k..];
      PiecesAreWhole(s[k + 1..], delimiter);
    }
  }

  /** Pieces that cannot be cut, and end outside brackets and quotes, are what a join of them splits into. */
  lemma {:induction false} JoinedSplits(pieces: seq<string>, delimiter: char)
    requires |pieces| > 0
    requires delimiter == ',' || delimiter == ':'
    requires forall p | p in pieces :: FirstCut(p, OUTSIDE, delimiter) == |p| && Through(p, OUTSIDE) == OUTSIDE
    ensures Split(Join(pieces, [delimiter]), delimiter, None) == pieces
    decreases |pieces|
  {
    hide FirstCut, Through, Join;
    if |pieces| == 1 {
      JoinOne(pieces[0], [delimiter]);
      assert pieces == [pieces[0]];
    } else {
      var first, rest := pieces[0], pieces[1..];
      CutBetween(first, Join(rest, [delimiter]), delimiter);
      JoinCons(first, rest, [delimiter]);
      JoinedSplits(rest, delimiter);
      assert pieces == [first] + rest;
    }
  }

  /** The first cut of two parts is at the delimiter between them. */
  lemma CutBetween(first: string, tail: string, delimiter: char)
    requires delimiter == ',' || delimiter == ':'
    requires FirstCut(first, OUTSIDE, delimiter) == |first| && Through(first, OUTSIDE) == OUTSIDE
    ensures var s := first + [delimiter] + tail;
            FirstCut(s, OUTSIDE, delimiter) == |first| && s[..|first|] == first && s[|first| + 1..] == tail
  {
    var s := first + [delimiter] + tail;
    assert s == first + ([delimiter] + tail);
    FirstCutJoin(first, [delimiter] + tail, OUTSIDE, delimiter);
  }

  // ----- the loop -----

  /** `_split_at_depth`, read to its end. */
  method SplitAtDepth(s: string, delimiter: char, maxSplits: Option<int>) returns (pieces: seq<string>)
    ensures pieces == Split(s, delimiter, maxSplits)
  {
    hide FirstCut;
    var depth, inQuote, escape := 0, None, false;
    var start, splits := 0, 0;
    pieces := [];
    ghost var left := maxSplits;
    ghost var all := Split(s, delimiter, maxSplits);
    assert s[0..] == s;
    for i := 0 to |s|
      invariant 0 <= start <= i && 0 <= splits
      invariant all == pieces + Split(s[start..], delimiter, left)
      invariant left == if maxSplits.Some? then Some(maxSplits.value - splits) else None
      invariant maxSplits.Some? && splits > 0 ==> splits < maxSplits.value
      invariant FirstCut(s[start..], OUTSIDE, delimiter)
             == i - start + FirstCut(s[i..], Nesting(depth, inQuote, escape), delimiter)
    {
      var ch := s[i];
      ScanStep(s, i, Nesting(depth, inQuote, escape), delimiter);
      if escape {
        escape := false;
        continue;
      }
      if ch == '\\' {
        escape := true;
        continue;
      }
      if inQuote.Some? {
        if ch == inQuote.value {
          inQuote := None;
        }
        continue;
      }
      if IsQuote(ch) {
        inQuote := Some(ch);
        continue;
      }
      if IsOpen(ch) {
        depth := depth + 1;
        continue;
      }
      if IsClose(ch) {
        depth := depth - 1;
        continue;
      }
      if ch == delimiter && depth == 0 {
        SplitStep(pieces, s, start, i, delimiter, left);
        pieces := pieces + [s[start..i]];
        start := i + 1;
        splits := splits + 1;
        if maxSplits.Some? && splits >= maxSplits.value {
          break;
        }
        left := if left.Some? then Some(left.value - 1) else None;
      }
    }
    if maxSplits.None? || splits == 0 || splits < maxSplits.value {
      NothingToCut(s[start..], delimiter, left);
    }
    pieces := pieces + [s[start..]];
  }

  /** What one cut at `i` adds to the pieces. */
  lemma SplitStep(pieces: seq<string>, s: string, start: nat, i: nat, delimiter: char, left: Option<int>)
    requires start <= i < |s| && FirstCut(s[start..], OUTSIDE, delimiter) == i - start
    ensures pieces + Split(s[start..], delimiter, left)
         == pieces + [s[start..i]]
            + if left.Some? && left.value <= 1 then [s[i + 1..]]
              else Split(s[i + 1..], delimiter, if left.Some? then Some(left.value - 1) else None)
  {
    hide FirstCut;
    assert s[start..][..i - start] == s[start..i] && s[start..][i - start + 1..] == s[i + 1..];
    assert [s[start..i], s[i + 1..]] == [s[start..i]] + [s[i + 1..]];
    TakeFirst(pieces, s[start..i],
              if left.Some? && left.value <= 1 then [s[i + 1..]]
              else Split(s[i + 1..], delimiter, if left.Some? then Some(left.value - 1) else None));
  }

  lemma NothingToCut(s: string, delimiter: char, left: Option<int>)
    requires FirstCut(s, OUTSIDE, delimiter) == |s|
    ensures Split(s, delimiter, left) == [s]
  {
  }

  lemma ScanStep(s: string, i: nat, q: Nesting, delimiter: char)
    requires i < |s|
    ensures FirstCut(s[i..], q, delimiter)
         == if Cuts(q, s[i], delimiter) then 0 else 1 + FirstCut(s[i + 1..], After(q, s[i]), delimiter)
  {
    assert s[i..][1..] == s[i + 1..];
  }

  // ----- limits -----

  /** A limit keeps the first pieces and leaves the rest joined; a limit below one allows one cut. */
  lemma {:induction false} LimitKeeps(s: string, delimiter: char, limit: int)
    ensures var all, some := Split(s, delimiter, None), Split(s, delimiter, Some(limit));
            var n := if limit < 1 then 1 else limit;
            if |all| - 1 <= n then some == all
            else |some| == n + 1 && some[..n] == all[..n] && some[n] == Join(all[n..], [delimiter])
    decreases |s|
  {
    hide FirstCut, Join;
    var k := FirstCut(s, OUTSIDE, delimiter);
    if k < |s| {
      var rest := s[k + 1..];
      var all, later := Split(s, delimiter, None), Split(rest, delimiter, None);
      assert all == [s[..k]] + later && all[1..] == later;
      if limit <= 1 {
        PiecesRejoin(rest, delimiter, None);
        if |later| == 1 {
          JoinOne(later[0], [delimiter]);
          assert later == [later[0]];
        }
      } else {
        LimitKeeps(rest, delimiter, limit - 1);
        if limit <= |later| {
          assert all[limit..] == later[limit - 1..];
        }
      }
    }
  }
}
