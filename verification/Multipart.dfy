/** The multipart body reader of odps/lib/cgi_compat.py: bounded line reads, deferred line
    ends, and a spool that moves from memory to a file. */
module Multipart {
  import opened Text

  const LF: byte := 10
  const CR: byte := 13
  const DASH: byte := 45
  const DASHES: Bytes := [45, 45]

  // ----- lines -----

  /** The length of the first line, its line feed included. */
  function FirstLineLength(z: Bytes): (n: nat)
    ensures n <= |z| && (z != [] ==> n > 0)
  {
    if z == [] then 0 else if z[0] == LF then 1 else 1 + FirstLineLength(z[1..])
  }

  /** What `readline(limit)` returns: the first line, or its first `limit` bytes. */
  function Chunk(z: Bytes, limit: nat): (c: Bytes)
    ensures |c| <= |z|
  {
    z[..Min(limit, FirstLineLength(z))]
  }

  predicate IsSpace(b: byte)
  {
    b == 32 || 9 <= b <= 13
  }

  function RStripBytes(z: Bytes): Bytes
  {
    if z != [] && IsSpace(z[|z| - 1]) then RStripBytes(z[..|z| - 1]) else z
  }

  datatype Kind = Ordinary | NextPart | LastPart

  /** Whether a line at the start of a line is a boundary. */
  function KindOf(line: Bytes, boundary: Bytes): Kind
  {
    if !(DASHES <= line) then Ordinary
    else
      var stripped := RStripBytes(line);
      if stripped == DASHES + boundary then NextPart
      else if stripped == DASHES + boundary + DASHES then LastPart
      else Ordinary
  }

  // ----- what is stored -----

  /** How a part ended: at a boundary, or with the data. */
  datatype End = AtBoundary(kind: Kind) | AtEof

  /** The lines before the first boundary line, when only the first `limit` bytes of each line are looked at. */
  function Lines(z: Bytes, boundary: Bytes, limit: nat): (r: (Bytes, End))
    decreases |z|
  {
    if z == [] then ([], AtEof)
    else
      var n := FirstLineLength(z);
      var kind := KindOf(z[..Min(limit, n)], boundary);
      if kind != Ordinary then ([], AtBoundary(kind))
      else
        var (text, end) := Lines(z[n..], boundary, limit);
        (z[..n] + text, end)
  }

  /** The line break at the end. */
  function BreakLength(z: Bytes): (n: nat)
    ensures n <= |z|
  {
    if |z| >= 2 && z[|z| - 2] == CR && z[|z| - 1] == LF then 2
    else if |z| >= 1 && (z[|z| - 1] == LF || z[|z| - 1] == CR) then 1
    else 0
  }

  function DropBreak(z: Bytes): Bytes
  {
    z[..|z| - BreakLength(z)]
  }

  /** What the reader stores, and how it ends. */
  function Stored(z: Bytes, boundary: Bytes, limit: nat): (Bytes, End)
  {
    var (text, end) := Lines(z, boundary, limit);
    (DropBreak(text), end)
  }

  // ----- the objects -----

  class Reader {
    const data: Bytes
    var pos: nat

    constructor (data: Bytes)
      ensures this.data == data && pos == 0
    {
      this.data := data;
      pos := 0;
    }

    method ReadLine(limit: nat) returns (line: Bytes)
      requires pos <= |data|
      modifies this
      ensures pos == old(pos) + |line| <= |data|
      ensures line == Chunk(data[old(pos)..], limit)
    {
      line := [];
      while |line| < limit && pos < |data|
        invariant old(pos) <= pos == old(pos) + |line| <= |data|
        invariant |line| <= limit && line == data[old(pos)..pos]
        invariant |line| <= FirstLineLength(data[old(pos)..])
        invariant FirstLineLength(data[old(pos)..]) == |line| + FirstLineLength(data[pos..])
        decreases |data| - pos
      {
        var b := data[pos];
        LineLengthStep(data, pos);
        line := line + [b];
        pos := pos + 1;
        if b == LF {
          break;
        }
      }
      assert line == data[old(pos)..][..|line|];
    }
  }

  lemma LineLengthStep(data: Bytes, pos: nat)
    requires pos < |data|
    ensures FirstLineLength(data[pos..]) == if data[pos] == LF then 1 else 1 + FirstLineLength(data[pos + 1..])
  {
    assert data[pos..][1..] == data[pos + 1..];
  }

  const MEMORY_LIMIT := 1000

  /** The body store: `memory` until a write would take it past the limit, a file from then on. */
  class Spool {
    var memory: Option<Bytes>
    var file: Bytes

    function Contents(): Bytes
      reads this
    {
      if memory.Some? then memory.value else file
    }

    constructor ()
      ensures memory == Some([]) && Contents() == []
    {
      memory := Some([]);
      file := [];
    }

    method Write(line: Bytes)
      modifies this
      ensures Contents() == old(Contents()) + line
      ensures memory.Some? <==> old(memory).Some? && |old(Contents())| + |line| <= 1000
    {
      if memory.Some? && |memory.value| + |line| > MEMORY_LIMIT {
        file := memory.value;
        memory := None;
      }
      if memory.Some? {
        memory := Some(memory.value + line);
      } else {
        file := file + line;
      }
    }
  }

  // ----- the loop -----

  /** What is still stored after some text: at the start of a line, or inside one. */
  function After(read: Bytes, z: Bytes, atLineStart: bool, boundary: Bytes, limit: nat): (Bytes, End)
  {
    if atLineStart then
      var (text, end) := Lines(z, boundary, limit);
      (read + text, end)
    else
      var n := FirstLineLength(z);
      var (text, end) := Lines(z[n..], boundary, limit);
      (read + (z[..n] + text), end)
  }

  predicate AtLineStart(read: Bytes)
  {
    read == [] || read[|read| - 1] == LF
  }

  /** The bytes read so far are what is written and a deferred line break. */
  predicate Deferred(read: Bytes, written: Bytes, delim: Bytes)
  {
    read == written + delim && |delim| == BreakLength(read)
  }

  lemma ChunkStep(read: Bytes, z: Bytes, boundary: Bytes, limit: nat)
    requires z != [] && limit > 0
    ensures var c := Chunk(z, limit);
            var kind := if AtLineStart(read) then KindOf(c, boundary) else Ordinary;
            && c != []
            && (kind != Ordinary ==> After(read, z, AtLineStart(read), boundary, limit) == (read, AtBoundary(kind)))
            && (kind == Ordinary ==>
                  After(read, z, AtLineStart(read), boundary, limit)
                  == After(read + c, z[|c|..], AtLineStart(read + c), boundary, limit))
  {
    hide KindOf;
    var n, c := FirstLineLength(z), Chunk(z, limit);
    var kind := if AtLineStart(read) then KindOf(c, boundary) else Ordinary;
    if kind != Ordinary {
      assert read + [] == read;
    } else {
      assert (read + c)[|read + c| - 1] == c[|c| - 1];
      LineEnd(z);
      var rest := z[|c|..];
      if |c| == n {
        assert AtLineStart(read + c) || rest == [];
        assert z[..n] == c;
        Regroup(read, c, Lines(rest, boundary, limit).0);
        if !AtLineStart(read + c) {
          assert rest[..FirstLineLength(rest)] + Lines(rest[FirstLineLength(rest)..], boundary, limit).0 == [];
        }
      } else {
        LineTail(z, |c|);
        assert rest[FirstLineLength(rest)..] == z[n..] && z[..n] == c + rest[..FirstLineLength(rest)];
        Regroup(read, c, rest[..FirstLineLength(rest)] + Lines(z[n..], boundary, limit).0);
        Regroup(c, rest[..FirstLineLength(rest)], Lines(z[n..], boundary, limit).0);
      }
    }
  }

  /** A line ends with a line feed or with the data, and holds no other line feed. */
  lemma {:induction false} LineEnd(z: Bytes)
    requires z != []
    ensures var n := FirstLineLength(z);
            (z[n - 1] == LF || n == |z|) && forall i | 0 <= i < n - 1 :: z[i] != LF
  {
    if z[0] != LF && |z| > 1 {
      LineEnd(z[1..]);
      forall i | 0 <= i < FirstLineLength(z) - 1 ensures z[i] != LF {
        assert i > 0 ==> z[1..][i - 1] == z[i];
      }
    }
  }

  lemma {:induction false} LineTail(z: Bytes, k: nat)
    requires k < FirstLineLength(z)
    ensures FirstLineLength(z[k..]) == FirstLineLength(z) - k
    decreases k
  {
    if k > 0 {
      LineTail(z[1..], k - 1);
      assert z[1..][k - 1..] == z[k..];
    }
  }

  lemma StartAfter(z: Bytes, boundary: Bytes, limit: nat)
    ensures After([], z, true, boundary, limit) == Lines(z, boundary, limit)
  {
    hide Lines;
    var text := Lines(z, boundary, limit).0;
    assert [] + text == text;
  }

  lemma NothingAfter(read: Bytes, z: Bytes, boundary: Bytes, limit: nat)
    requires Chunk(z, limit) == [] && limit > 0
    ensures After(read, z, AtLineStart(read), boundary, limit) == (read, AtEof)
  {
    assert z == [];
    assert read + [] == read && z[..FirstLineLength(z)] + [] == [];
  }

  lemma KindIs(line: Bytes, boundary: Bytes)
    ensures KindOf(line, boundary)
         == if !(DASHES <= line) then Ordinary
            else if RStripBytes(line) == DASHES + boundary then NextPart
            else if RStripBytes(line) == DASHES + boundary + DASHES then LastPart
            else Ordinary
  {
  }

  /** At a boundary or at the end, the deferred break is what is not stored. */
  lemma FinalBody(read: Bytes, written: Bytes, delim: Bytes)
    requires Deferred(read, written, delim)
    ensures written == DropBreak(read)
  {
  }

  function Merged(delim: Bytes, chunk: Bytes): Bytes
  {
    if delim == [CR] then delim + chunk else chunk
  }

  lemma DeferredReturn(read: Bytes, written: Bytes, delim: Bytes)
    requires Deferred(read, written, delim)
    ensures delim == [CR] <==> EndsWith(read, CR)
  {
    assert delim != [] ==> read[|read| - 1] == delim[|delim| - 1];
    assert EndsWith(read, CR) ==> BreakLength(read) == 1;
  }

  /** The line break at the end shows in the merged line as it does in everything read. */
  lemma MergedBreak(read: Bytes, chunk: Bytes, merged: Bytes)
    requires chunk != [] && merged == if EndsWith(read, CR) then [CR] + chunk else chunk
    ensures BreakLength(read + chunk) == BreakLength(merged)
    ensures AtLineStart(read + chunk) == EndsWith(merged, LF)
  {
    var all := read + chunk;
    assert all[|all| - 1] == chunk[|chunk| - 1];
    if |chunk| >= 2 {
      assert all[|all| - 2] == chunk[|chunk| - 2];
    } else if read != [] {
      assert all[|all| - 2] == read[|read| - 1];
    }
  }

  /** One chunk further: only the new line break stays back. */
  lemma DeferStep(read: Bytes, written: Bytes, delim: Bytes, chunk: Bytes)
    requires Deferred(read, written, delim) && chunk != []
    ensures delim == [CR] ==> !AtLineStart(read)
    ensures var merged := Merged(delim, chunk);
            var front := if delim == [CR] then [] else delim;
            var k := BreakLength(merged);
            && Deferred(read + chunk, written + (front + merged[..|merged| - k]), merged[|merged| - k..])
            && AtLineStart(read + chunk) == EndsWith(merged, LF)
  {
    hide BreakLength;
    var merged := Merged(delim, chunk);
    var front := if delim == [CR] then [] else delim;
    DeferredReturn(read, written, delim);
    MergedBreak(read, chunk, merged);
    var k := BreakLength(merged);
    Regroup(written, front + merged[..|merged| - k], merged[|merged| - k..]);
    Regroup(front, merged[..|merged| - k], merged[|merged| - k..]);
    assert merged[..|merged| - k] + merged[|merged| - k..] == merged;
    assert front + merged == delim + chunk;
    Regroup(written, delim, chunk);
  }

  predicate EndsWith(z: Bytes, a: byte)
  {
    z != [] && z[|z| - 1] == a
  }

  predicate EndsWithTwo(z: Bytes, a: byte, b: byte)
  {
    |z| >= 2 && z[|z| - 2] == a && z[|z| - 1] == b
  }

  lemma NothingRead()
    ensures Deferred([], [], []) && AtLineStart([])
  {
  }

  lemma BreakCases(m: Bytes)
    ensures var k := BreakLength(m);
            if EndsWithTwo(m, CR, LF) then k == 2 && m[|m| - k..] == [CR, LF]
            else if EndsWith(m, LF) then k == 1 && m[|m| - k..] == [LF]
            else if EndsWith(m, CR) then k == 1 && m[|m| - k..] == [CR]
            else k == 0 && m[|m| - k..] == [] && m[..|m| - k] == m
    ensures EndsWithTwo(m, CR, LF) ==> EndsWith(m, LF)
  {
    if EndsWithTwo(m, CR, LF) {
      LastTwo(m);
    } else if m != [] {
      LastOne(m);
    }
  }

  lemma LastTwo(m: Bytes)
    requires |m| >= 2
    ensures m[|m| - 2..] == [m[|m| - 2], m[|m| - 1]]
  {
  }

  lemma LastOne(m: Bytes)
    requires m != []
    ensures m[|m| - 1..] == [m[|m| - 1]]
  {
  }

  /** The end of the loop body: what can be written of a line, the line break held back, and whether the next read
      starts a line. */
  method HoldBack(line: Bytes) returns (body: Bytes, delim: Bytes, lfEnd: bool)
    ensures body + delim == line && |delim| == BreakLength(line)
    ensures body == line[..|line| - |delim|] && delim == line[|line| - |delim|..]
    ensures lfEnd == EndsWith(line, LF)
  {
    hide BreakLength, EndsWith, EndsWithTwo;
    BreakCases(line);
    if EndsWithTwo(line, CR, LF) {
      delim := [CR, LF];
      body := line[..|line| - 2];
      lfEnd := true;
    } else if EndsWith(line, LF) {
      delim := [LF];
      body := line[..|line| - 1];
      lfEnd := true;
    } else if EndsWith(line, CR) {
      delim := [CR];
      body := line[..|line| - 1];
      lfEnd := false;
    } else {
      delim := [];
      body := line;
      lfEnd := false;
    }
  }

  /** `read_lines_to_outerboundary` without a length limit; `done` is 1 at the last boundary and -1 at the end of
      data. */
  method ReadLinesToOuterBoundary(fp: Reader, spool: Spool, outerBoundary: Bytes, limit: nat) returns (done: int)
    requires limit > 0 && fp.pos <= |fp.data| && spool.Contents() == []
    modifies fp, spool
    ensures var (body, end) := Stored(fp.data[old(fp.pos)..], outerBoundary, limit);
            && spool.Contents() == body
            && (spool.memory.Some? ==> |body| <= MEMORY_LIMIT)
            && done == match end
                       case AtEof => -1
                       case AtBoundary(kind) => if kind == LastPart then 1 else 0
  {
    hide Lines, KindOf, After, RStripBytes, Deferred, BreakLength, AtLineStart, EndsWith, EndsWithTwo, Chunk,
         FirstLineLength, DropBreak, Min;
    var nextBoundary := DASHES + outerBoundary;
    var lastBoundary := nextBoundary + DASHES;
    var delim: Bytes := [];
    var lastLineLfEnd := true;
    done := 0;
    ghost var z := fp.data[fp.pos..];
    ghost var read: Bytes := [];
    ghost var total := Lines(z, outerBoundary, limit);
    StartAfter(z, outerBoundary, limit);
    NothingRead();
    while true
      invariant fp.pos <= |fp.data| && z == fp.data[fp.pos..] && done == 0
      invariant spool.memory.Some? ==> |spool.Contents()| <= MEMORY_LIMIT
      invariant Deferred(read, spool.Contents(), delim) && lastLineLfEnd == AtLineStart(read)
      invariant After(read, z, AtLineStart(read), outerBoundary, limit) == total
      decreases |z|
    {
      FinalBody(read, spool.Contents(), delim);
      var line := fp.ReadLine(limit);
      if line == [] {
        done := -1;
        NothingAfter(read, z, outerBoundary, limit);
        break;
      }
      ChunkStep(read, z, outerBoundary, limit);
      KindIs(line, outerBoundary);
      ghost var chunk := line;
      DeferStep(read, spool.Contents(), delim, chunk);
      if delim == [CR] {
        line := delim + line;
        delim := [];
      }
      assert fp.data[fp.pos..] == z[|chunk|..];
      if DASHES <= line && lastLineLfEnd {
        var strippedLine := RStripBytes(line);
        if strippedLine == nextBoundary {
          break;
        }
        if strippedLine == lastBoundary {
          done := 1;
          break;
        }
      }
      var oldDelim := delim;
      line, delim, lastLineLfEnd := HoldBack(line);
      spool.Write(oldDelim + line);
      read := read + chunk;
      z := z[|chunk|..];
    }
  }
}
