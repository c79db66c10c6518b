/** What the multipart reader promises: the stored body is what precedes the line break before
    the boundary line (section 5.1.1 of RFC 2046), wherever the read limit cuts lines. */
module MultipartBody {
  import opened Text
  import opened Multipart

  /** The lines before the first boundary line, whole lines being looked at. */
  function WholeLines(z: Bytes, boundary: Bytes): (r: (Bytes, End))
    decreases |z|
  {
    if z == [] then ([], AtEof)
    else
      var n := FirstLineLength(z);
      var kind := KindOf(z[..n], boundary);
      if kind != Ordinary then ([], AtBoundary(kind))
      else
        var (text, end) := WholeLines(z[n..], boundary);
        (z[..n] + text, end)
  }

  function Body(z: Bytes, boundary: Bytes): (Bytes, End)
  {
    var (text, end) := WholeLines(z, boundary);
    (DropBreak(text), end)
  }

  // ----- the body of a part -----

  lemma {:induction false} LineLengthPrefix(x: Bytes, y: Bytes)
    requires EndsWith(x, LF)
    ensures FirstLineLength(x + y) == FirstLineLength(x)
  {
    assert (x + y)[0] == x[0] && (x + y)[1..] == x[1..] + y;
    if x[0] != LF {
      LineLengthPrefix(x[1..], y);
    }
  }

  lemma {:induction false} LinesThenLines(x: Bytes, y: Bytes, boundary: Bytes)
    requires x == [] || EndsWith(x, LF)
    requires WholeLines(x, boundary).1 == AtEof
    ensures WholeLines(x, boundary).0 == x
    ensures WholeLines(x + y, boundary) == (x + WholeLines(y, boundary).0, WholeLines(y, boundary).1)
    decreases |x|
  {
    hide KindOf;
    var tail := WholeLines(y, boundary).0;
    if x == [] {
      assert x + y == y && x + tail == tail;
    } else {
      var n := FirstLineLength(x);
      LineLengthPrefix(x, y);
      assert (x + y)[..n] == x[..n] && (x + y)[n..] == x[n..] + y;
      assert x == x[..n] + x[n..];
      LinesThenLines(x[n..], y, boundary);
      Regroup(x[..n], x[n..], tail);
    }
  }

  // ----- boundary lines, written out -----

  /** Blanks that may follow a boundary: tab to carriage return, and space. */
  predicate Padding(z: Bytes)
  {
    forall b | b in z :: b == 32 || 9 <= b <= 13
  }

  /** A boundary that does not end in such a blank, as section 5.1.1 of RFC 2046 asks. */
  predicate TightEnd(z: Bytes)
  {
    z != [] ==> z[|z| - 1] != 32 && !(9 <= z[|z| - 1] <= 13)
  }

  /** Two dashes, the boundary, two more at the last one, and padding. */
  predicate IsBoundaryLine(line: Bytes, boundary: Bytes, last: bool)
  {
    exists n | 0 <= n <= |line| ::
      line[..n] == [45, 45] + boundary + (if last then [45, 45] else []) && Padding(line[n..])
  }

  lemma {:induction false} RStripSplit(z: Bytes)
    ensures var s := RStripBytes(z);
            && |s| <= |z| && z[..|s|] == s && Padding(z[|s|..])
            && TightEnd(s)
    decreases |z|
  {
    if z != [] && IsSpace(z[|z| - 1]) {
      var s := RStripBytes(z[..|z| - 1]);
      RStripSplit(z[..|z| - 1]);
      assert z[|s|..] == z[..|z| - 1][|s|..] + [z[|z| - 1]];
    }
  }

  lemma {:induction false} RStripPadding(s: Bytes, pad: Bytes)
    requires Padding(pad) && TightEnd(s)
    ensures RStripBytes(s + pad) == s
    decreases |pad|
  {
    if pad == [] {
      assert s + pad == s;
    } else {
      var n := |pad| - 1;
      assert (s + pad)[..|s + pad| - 1] == s + pad[..n] && (s + pad)[|s + pad| - 1] == pad[n];
      assert pad[n] in pad;
      forall b | b in pad[..n] ensures b in pad {
      }
      RStripPadding(s, pad[..n]);
    }
  }

  /** A line is a boundary exactly when it is two dashes, the boundary, at the last one two more, and padding; a
      boundary that ends in a blank is never found between parts. */
  lemma KindOfIff(line: Bytes, boundary: Bytes)
    ensures KindOf(line, boundary) == NextPart <==> IsBoundaryLine(line, boundary, false) && TightEnd(boundary)
    ensures KindOf(line, boundary) == LastPart <==> IsBoundaryLine(line, boundary, true)
  {
    hide RStripBytes, IsSpace;
    RStripSplit(line);
    var s := RStripBytes(line);
    BoundaryStripped(line, boundary, false);
    BoundaryStripped(line, boundary, true);
    assert DASHES + boundary + [] == DASHES + boundary;
    assert s == DASHES + boundary ==> DASHES <= s <= line;
    assert s == DASHES + boundary + DASHES ==> DASHES <= s <= line;
    DifferentEnds(boundary);
  }

  lemma DifferentEnds(boundary: Bytes)
    ensures DASHES + boundary != DASHES + boundary + DASHES
  {
    assert |DASHES + boundary| < |DASHES + boundary + DASHES|;
  }

  lemma BoundaryStripped(line: Bytes, boundary: Bytes, last: bool)
    ensures IsBoundaryLine(line, boundary, last) && (last || TightEnd(boundary))
       <==> RStripBytes(line) == [45, 45] + boundary + (if last then [45, 45] else [])
  {
    hide RStripBytes;
    var head := [45, 45] + boundary + (if last then [45, 45] else []);
    RStripSplit(line);
    BoundaryEnds(boundary, last);
    if IsBoundaryLine(line, boundary, last) && (last || TightEnd(boundary)) {
      var n :| 0 <= n <= |line| && line[..n] == head && Padding(line[n..]);
      assert line == head + line[n..];
      RStripPadding(head, line[n..]);
    }
  }

  lemma BoundaryEnds(boundary: Bytes, last: bool)
    ensures TightEnd([45, 45] + boundary + (if last then [45, 45] else [])) <==> last || TightEnd(boundary)
  {
  }

  /** The line from `i` up to `j`: at the start of the text or behind a line feed, and with its own line feed if it has
      one. */
  predicate IsLine(text: Bytes, i: nat, j: nat)
  {
    && i < j <= |text| && (i == 0 || text[i - 1] == 10)
    && (text[j - 1] == 10 || j == |text|)
    && forall k | i <= k < j - 1 :: text[k] != 10
  }

  /** No line of the text is a boundary. */
  predicate NoBoundaryIn(text: Bytes, boundary: Bytes)
  {
    forall i, j | 0 <= i < j <= |text| && IsLine(text, i, j) ::
      !IsBoundaryLine(text[i..j], boundary, false) && !IsBoundaryLine(text[i..j], boundary, true)
  }

  lemma FirstLineIs(z: Bytes, n: nat)
    requires z != [] && IsLine(z, 0, n)
    ensures FirstLineLength(z) == n
  {
    LineEnd(z);
  }

  lemma LaterLine(text: Bytes, n: nat, i: nat, j: nat)
    requires n <= |text| && (n == 0 || text[n - 1] == 10) && j <= |text| - n && IsLine(text[n..], i, j)
    ensures IsLine(text, n + i, n + j) && text[n + i..n + j] == text[n..][i..j]
  {
    forall k | n + i <= k < n + j - 1 ensures text[k] != 10 {
      assert text[n..][k - n] == text[k];
    }
  }

  lemma {:induction false} NoBoundaryIsEof(text: Bytes, boundary: Bytes)
    requires NoBoundaryIn(text, boundary) && (text == [] || text[|text| - 1] == 10)
    ensures WholeLines(text, boundary).1 == AtEof
    decreases |text|
  {
    hide KindOf, IsBoundaryLine, FirstLineLength;
    if text != [] {
      var n := FirstLineLength(text);
      LineEnd(text);
      assert IsLine(text, 0, n);
      assert text[0..n] == text[..n];
      KindOfIff(text[..n], boundary);
      var rest := text[n..];
      forall i, j | 0 <= i < j <= |rest| && IsLine(rest, i, j)
        ensures !IsBoundaryLine(rest[i..j], boundary, false) && !IsBoundaryLine(rest[i..j], boundary, true)
      {
        LaterLine(text, n, i, j);
      }
      NoBoundaryIsEof(rest, boundary);
    }
  }

  /** A boundary line with its line feed, or at the end of the data. */
  predicate EndsLine(line: Bytes, rest: Bytes)
  {
    && line != [] && (line[|line| - 1] == 10 || rest == [])
    && forall k | 0 <= k < |line| - 1 :: line[k] != 10
  }

  lemma LineIsFirst(line: Bytes, rest: Bytes)
    requires EndsLine(line, rest)
    ensures FirstLineLength(line + rest) == |line| && (line + rest)[..|line|] == line
  {
    hide FirstLineLength;
    assert IsLine(line + rest, 0, |line|);
    FirstLineIs(line + rest, |line|);
  }

  function Ending(last: bool): End
  {
    AtBoundary(if last then LastPart else NextPart)
  }

  /** With a part's text that holds no boundary line, its line break, a boundary line and anything after it, the body is
      the part's text, and the ending says whether the boundary was the last. */
  lemma BodyIsPartText(
    text: Bytes, lineBreak: Bytes, line: Bytes, rest: Bytes, boundary: Bytes, last: bool)
    requires lineBreak == [13, 10] || (lineBreak == [10] && (text != [] ==> text[|text| - 1] != 13))
    requires last || TightEnd(boundary)
    requires NoBoundaryIn(text + lineBreak, boundary)
    requires IsBoundaryLine(line, boundary, last) && EndsLine(line, rest)
    ensures Body(text + lineBreak + line + rest, boundary) == (text, Ending(last))
  {
    hide KindOf, IsBoundaryLine, NoBoundaryIn, FirstLineLength;
    var head := text + lineBreak;
    assert head[|head| - 1] == LF;
    NoBoundaryIsEof(head, boundary);
    LinesThenLines(head, line + rest, boundary);
    LineIsFirst(line, rest);
    KindOfIff(line, boundary);
    assert head + (line + rest) == text + lineBreak + line + rest;
    assert head + [] == head;
    if lineBreak == [LF] && text != [] {
      assert head[|head| - 2] == text[|text| - 1];
    }
    assert DropBreak(head) == text;
  }

  /** A part whose boundary line comes first has an empty body. */
  lemma EmptyPart(line: Bytes, rest: Bytes, boundary: Bytes, last: bool)
    requires last || TightEnd(boundary)
    requires IsBoundaryLine(line, boundary, last) && EndsLine(line, rest)
    ensures Body(line + rest, boundary) == ([], Ending(last))
  {
    hide KindOf, IsBoundaryLine, FirstLineLength;
    LineIsFirst(line, rest);
    KindOfIff(line, boundary);
  }

  // ----- the read limit -----

  function Seen(z: Bytes, boundary: Bytes, limit: nat): Kind
  {
    KindOf(z[..Min(limit, FirstLineLength(z))], boundary)
  }

  function Meant(z: Bytes, boundary: Bytes): Kind
  {
    KindOf(z[..FirstLineLength(z)], boundary)
  }

  /** Up to the first line that is a boundary, or is taken for one, no line is misjudged by its first `limit` bytes. */
  predicate CutSafe(z: Bytes, boundary: Bytes, limit: nat)
    decreases |z|
  {
    z != [] ==>
      var seen, meant := Seen(z, boundary, limit), Meant(z, boundary);
      if seen == Ordinary && meant == Ordinary then CutSafe(z[FirstLineLength(z)..], boundary, limit)
      else seen == meant
  }

  lemma {:induction false} SafeIsWhole(z: Bytes, boundary: Bytes, limit: nat)
    requires CutSafe(z, boundary, limit)
    ensures Lines(z, boundary, limit) == WholeLines(z, boundary)
    decreases |z|
  {
    hide KindOf;
    if z != [] && Seen(z, boundary, limit) == Ordinary {
      SafeIsWhole(z[FirstLineLength(z)..], boundary, limit);
    }
  }

  lemma ShortBreak(p: Bytes, y: Bytes)
    requires DASHES <= y
    ensures |DropBreak(p + y)| > |p| >= |DropBreak(p)|
  {
    var x := p + y;
    assert x[|p|] == DASH && x[|p| + 1] == DASH;
  }

  lemma BoundaryStartsWithDashes(line: Bytes, boundary: Bytes)
    requires KindOf(line, boundary) != Ordinary
    ensures DASHES <= line
  {
  }

  /** A misjudged line shows in what is stored or in how the part ends. */
  lemma {:induction false} UnsafeDiffers(p: Bytes, z: Bytes, boundary: Bytes, limit: nat)
    requires !CutSafe(z, boundary, limit)
    ensures var (seen, end) := Lines(z, boundary, limit);
            var (meant, meantEnd) := WholeLines(z, boundary);
            DropBreak(p + seen) != DropBreak(p + meant) || end != meantEnd
    decreases |z|
  {
    hide KindOf, DropBreak;
    var n := FirstLineLength(z);
    var kind, whole := Seen(z, boundary, limit), Meant(z, boundary);
    if kind == Ordinary && whole == Ordinary {
      UnsafeDiffers(p + z[..n], z[n..], boundary, limit);
      Regroup(p, z[..n], Lines(z[n..], boundary, limit).0);
      Regroup(p, z[..n], WholeLines(z[n..], boundary).0);
    } else if kind == Ordinary {
      var text := Lines(z[n..], boundary, limit).0;
      BoundaryStartsWithDashes(z[..n], boundary);
      ShortBreak(p, z[..n] + text);
      assert p + [] == p;
    } else if whole == Ordinary {
      var text := WholeLines(z[n..], boundary).0;
      BoundaryStartsWithDashes(z[..Min(limit, n)], boundary);
      ShortBreak(p, z[..n] + text);
      assert p + [] == p;
    }
  }

  /** The stored body and the ending are those of the standard exactly when the limit misjudges no line. */
  lemma StoredIsBodyIff(z: Bytes, boundary: Bytes, limit: nat)
    ensures Stored(z, boundary, limit) == Body(z, boundary) <==> CutSafe(z, boundary, limit)
  {
    hide Lines, WholeLines, DropBreak;
    if CutSafe(z, boundary, limit) {
      SafeIsWhole(z, boundary, limit);
    } else {
      UnsafeDiffers([], z, boundary, limit);
      assert [] + Lines(z, boundary, limit).0 == Lines(z, boundary, limit).0;
      assert [] + WholeLines(z, boundary).0 == WholeLines(z, boundary).0;
    }
  }

  /** Every line that starts with two dashes is read whole. */
  predicate DashedLinesFit(z: Bytes, limit: nat)
    decreases |z|
  {
    z != [] ==>
      && (DASHES <= z[..FirstLineLength(z)] ==> FirstLineLength(z) <= limit)
      && DashedLinesFit(z[FirstLineLength(z)..], limit)
  }

  /** Lines that start with two dashes and fit in one read are never misjudged. */
  lemma {:induction false} FittingIsSafe(z: Bytes, boundary: Bytes, limit: nat)
    requires limit >= 2 && DashedLinesFit(z, limit)
    ensures CutSafe(z, boundary, limit)
    decreases |z|
  {
    hide RStripBytes;
    if z != [] {
      var n := FirstLineLength(z);
      if !(DASHES <= z[..n]) {
        assert !(DASHES <= z[..Min(limit, n)]);
      }
      FittingIsSafe(z[n..], boundary, limit);
    }
  }
}
