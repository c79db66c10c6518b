/** The one-pass scanner that odps/utils.py runs: position, quote, comment and bracket state,
    and the statement cutter with its list of comment blocks. It computes SqlSplit.SplitSql. */
module SqlScanner {
  import opened Text
  import opened SqlLexing
  import opened SqlTrimming
  import opened SqlSplit
  import opened SqlPromises

  datatype Block = Block(from: nat, to: nat)

  /** Comment blocks in order, disjoint, inside the first n characters. */
  predicate Ordered(blocks: seq<Block>, n: nat)
  {
    && (forall i | 0 <= i < |blocks| :: blocks[i].from < blocks[i].to <= n)
    && forall i, j | 0 <= i < j < |blocks| :: blocks[i].to <= blocks[j].from
  }

  predicate Inside(blocks: seq<Block>, k: nat)
  {
    exists i | 0 <= i < |blocks| :: blocks[i].from <= k < blocks[i].to
  }

  /** Every character from lo to hi is blank or in a comment block. */
  predicate Covered(s: string, blocks: seq<Block>, lo: nat, hi: nat)
  {
    hi <= |s| && forall k | lo <= k < hi :: IsBlank(s[k]) || Inside(blocks, k)
  }

  /** The first code of the statement that starts at `start` is at v: only blanks and comment
      blocks come before it, and it is in no block itself. */
  predicate CodeAt(s: string, blocks: seq<Block>, start: nat, v: nat)
  {
    && start <= v
    && Covered(s, blocks, start, v)
    && (forall i | 0 <= i < |blocks| && blocks[i].to > start :: start <= blocks[i].from)
    && (forall i | 0 <= i < |blocks| :: blocks[i].to <= v || blocks[i].from > v)
  }

  // ----- cutting a statement -----

  /** The lines after the first. */
  function LaterLines(z: string): seq<string>
  {
    var n := LineLength(z);
    if n == |z| then [] else SplitLines(z[n + 1..])
  }

  lemma LinesUnfold(z: string)
    ensures JoinLines(SplitLines(z)) == JoinLines([z[..LineLength(z)]] + LaterLines(z))
  {
    hide JoinLines;
    var n := LineLength(z);
    if z == "" {
      NoLines();
      JoinCons("", []);
      RStripEmpty("");
      assert z[..n] == "";
    } else if n == |z| {
      assert z[..n] == z && [z] + [] == [z];
    }
  }

  lemma LineEndFirst(b: char, x: string)
    requires IsLineEnd(b)
    ensures LineLength([b] + x) == 0 && ([b] + x)[..0] == "" && LaterLines([b] + x) == SplitLines(x)
  {
    assert ([b] + x)[0 + 1..] == x;
  }

  lemma FirstLineMore(b: char, x: string)
    requires !IsLineEnd(b)
    ensures LineLength([b] + x) == LineLength(x) + 1
    ensures ([b] + x)[..LineLength(x) + 1] == [b] + x[..LineLength(x)]
    ensures LaterLines([b] + x) == LaterLines(x)
  {
    hide SplitLines;
    var y, n := [b] + x, LineLength(x);
    assert y[1..] == x;
    assert n < |x| ==> y[n + 1 + 1..] == x[n + 1..];
  }

  lemma JoinBlank(b: char, x: string) returns (c: string)
    requires IsBlank(b)
    ensures AllBlank(c) && JoinLines(SplitLines([b] + x)) == c + JoinLines(SplitLines(x))
  {
    hide JoinLines, SplitLines, LaterLines, IsBlank, RStrip;
    LinesUnfold([b] + x);
    if IsLineEnd(b) {
      LineEndFirst(b, x);
      JoinCons("", SplitLines(x));
      RStripEmpty("");
      NewlineBlank();
      c := if SplitLines(x) == [] then "" else "\n";
      if SplitLines(x) == [] {
        NoLines();
      } else {
        assert "" + "\n" + JoinLines(SplitLines(x)) == "\n" + JoinLines(SplitLines(x));
      }
    } else {
      LinesUnfold(x);
      FirstLineMore(b, x);
      var line, later := x[..LineLength(x)], LaterLines(x);
      JoinCons([b] + line, later);
      JoinCons(line, later);
      RStripFront(b, line);
      c := if RStrip(line) == "" then "" else [b];
      FrontLine(c, RStrip(line), JoinLines(later));
    }
  }

  lemma FrontLine(c: string, a: string, j: string)
    ensures c + a + "\n" + j == c + (a + "\n" + j) && "" + a == a
  {
  }

  /** Blanks in front of a statement do not change its tidied text. */
  lemma {:induction false} TidyBlankFront(a: string, x: string)
    requires AllBlank(a)
    ensures Tidy(a + x) == Tidy(x)
    decreases |a|
  {
    hide JoinLines, SplitLines, LStrip, RStrip, IsBlank;
    if a == "" {
      assert a + x == x;
    } else {
      BlankTail(a);
      assert a + x == [a[0]] + (a[1..] + x);
      TidyBlankFront(a[1..], x);
      var c := JoinBlank(a[0], a[1..] + x);
      LStripPadded(c, JoinLines(SplitLines(a[1..] + x)));
      assert Strip(c + JoinLines(SplitLines(a[1..] + x))) == Strip(JoinLines(SplitLines(a[1..] + x)));
    }
  }

  lemma StripEmptyIff(x: string)
    ensures Strip(x) == "" <==> AllBlank(x)
  {
    var a, b := StripParts(x);
    if AllBlank(x) {
      LStripPadded(x, "");
      assert x + "" == x;
    }
  }

  /** The cutter's state after some blocks: everything so far is blank, or the text from v on. */
  predicate Cutting(s: string, start: nat, v: nat, left: nat, text: string, has: bool)
  {
    && start <= left <= |s|
    && v <= |s|
    && if has then v < left && EndsWith(text, s[v..left]) else AllBlank(text) && left <= v
  }

  /** Blanks, then w. */
  predicate EndsWith(text: string, w: string)
  {
    |w| <= |text| && text[|text| - |w|..] == w && AllBlank(text[..|text| - |w|])
  }

  lemma EndsWithMore(text: string, w: string, more: string)
    requires EndsWith(text, w)
    ensures EndsWith(text + more, w + more)
  {
    var t, u := text + more, w + more;
    assert t[|t| - |u|..] == u;
    assert t[..|t| - |u|] == text[..|text| - |w|];
  }

  lemma BlankBefore(a: string, w: string)
    requires AllBlank(a)
    ensures EndsWith(a + w, w)
  {
    assert (a + w)[|a|..] == w && (a + w)[..|a|] == a;
  }

  lemma GapIsBlank(s: string, blocks: seq<Block>, start: nat, v: nat, i: nat, left: nat, to: nat)
    requires CodeAt(s, blocks, start, v) && Ordered(blocks, |s|) && start <= left <= to <= v <= |s|
    requires i <= |blocks| && forall j | 0 <= j < i :: blocks[j].to <= left
    requires i < |blocks| ==> to <= blocks[i].from
    ensures AllBlank(s[left..to])
  {
    forall c | c in s[left..to] ensures IsBlank(c) {
      var k :| 0 <= k < to - left && s[left..to][k] == c;
      forall j | 0 <= j < |blocks| ensures !(blocks[j].from <= left + k < blocks[j].to) {
        if j > i {
          assert blocks[i].to <= blocks[j].from;
        }
      }
      assert !Inside(blocks, left + k);
    }
  }

  lemma SliceApart(s: string, a: nat, b: nat, c: nat)
    requires a <= b <= c <= |s|
    ensures s[a..c] == s[a..b] + s[b..c]
  {
  }

  /** Once code has been seen, more text only lengthens the statement. */
  lemma CutMore(s: string, start: nat, v: nat, left: nat, text: string, to: nat)
    requires Cutting(s, start, v, left, text, true) && left <= to <= |s|
    ensures Cutting(s, start, v, to, text + s[left..to], true)
  {
    hide EndsWith;
    EndsWithMore(text, s[v..left], s[left..to]);
    SliceApart(s, v, left, to);
  }

  /** The stretch that reaches the first code. */
  lemma CutFirst(s: string, blocks: seq<Block>, start: nat, v: nat, i: nat, left: nat, text: string, to: nat)
    requires CodeAt(s, blocks, start, v) && Ordered(blocks, |s|) && Cutting(s, start, v, left, text, false)
    requires v < to <= |s| && i <= |blocks| && forall j | 0 <= j < i :: blocks[j].to <= left
    requires i < |blocks| ==> to <= blocks[i].from
    ensures Cutting(s, start, v, to, text + s[left..to], true)
  {
    GapIsBlank(s, blocks, start, v, i, left, v);
    SliceApart(s, left, v, to);
    BlankBefore(text + s[left..v], s[v..to]);
    assert text + s[left..v] + s[v..to] == text + s[left..to];
  }

  lemma CutLead(s: string, blocks: seq<Block>, start: nat, v: nat, i: nat, left: nat, text: string, to: nat)
    requires CodeAt(s, blocks, start, v) && Ordered(blocks, |s|) && Cutting(s, start, v, left, text, false)
    requires left <= to <= v && i <= |blocks| && forall j | 0 <= j < i :: blocks[j].to <= left
    requires i < |blocks| ==> to <= blocks[i].from
    ensures AllBlank(s[left..to]) && Cutting(s, start, v, to, text + s[left..to], false)
  {
    GapIsBlank(s, blocks, start, v, i, left, to);
  }

  /** One comment block further: its text is kept once code has been seen. */
  lemma CutBlock(
    s: string, blocks: seq<Block>, start: nat, v: nat, stop: nat, i: nat, left: nat, text: string, has: bool)
    requires Ordered(blocks, stop) && start <= v <= stop <= |s|
    requires CodeAt(s, blocks, start, v) && (v < stop ==> !IsBlank(s[v]))
    requires i < |blocks| && start < blocks[i].to && left <= blocks[i].from
    requires forall j | 0 <= j < i :: blocks[j].to <= left
    requires Cutting(s, start, v, left, text, has)
    ensures var b := blocks[i];
            var segment := s[left..b.from];
            var has1 := has || Strip(segment) != "";
            Cutting(s, start, v, b.to, if has1 then text + segment + s[b.from..b.to] else text + segment, has1)
  {
    hide Cutting, Strip, Covered;
    var b := blocks[i];
    var segment := s[left..b.from];
    StripEmptyIff(segment);
    if has {
      CutMore(s, start, v, left, text, b.from);
      CutMore(s, start, v, b.from, text + segment, b.to);
    } else if b.to <= v {
      CutLead(s, blocks, start, v, i, left, text, b.from);
      SkipBlock(s, start, v, b.from, text + segment, b.to);
    } else {
      CutFirst(s, blocks, start, v, i, left, text, b.from);
      CutLeft(s, start, v, left, text);
      assert segment[v - left] == s[v] && s[v] in segment;
      CutMore(s, start, v, b.from, text + segment, b.to);
    }
  }

  lemma CutLeft(s: string, start: nat, v: nat, left: nat, text: string)
    requires Cutting(s, start, v, left, text, false)
    ensures left <= v
  {
  }

  lemma SkipBlock(s: string, start: nat, v: nat, left: nat, text: string, to: nat)
    requires Cutting(s, start, v, left, text, false) && left <= to <= v
    ensures Cutting(s, start, v, to, text, false)
  {
  }

  /** After the last block, the rest of the statement completes the text. */
  lemma CutRest(s: string, blocks: seq<Block>, start: nat, v: nat, stop: nat, left: nat, text: string, has: bool)
    requires Ordered(blocks, stop) && start <= v <= stop <= |s| && left <= stop
    requires CodeAt(s, blocks, start, v)
    requires forall j | 0 <= j < |blocks| :: blocks[j].to <= left
    requires Cutting(s, start, v, left, text, has)
    ensures Tidy(text + s[left..stop]) == Tidy(s[v..stop])
  {
    hide Cutting, Tidy, Covered;
    var all := text + s[left..stop];
    if has {
      CutMore(s, start, v, left, text, stop);
      CutDone(s, start, v, stop, all);
    } else {
      CutLeft(s, start, v, left, text);
      if v == stop {
        CutLead(s, blocks, start, v, |blocks|, left, text, stop);
        CutNothing(s, start, v, stop, all);
      } else {
        CutFirst(s, blocks, start, v, |blocks|, left, text, stop);
        CutDone(s, start, v, stop, all);
      }
    }
  }

  lemma CutDone(s: string, start: nat, v: nat, stop: nat, all: string)
    requires Cutting(s, start, v, stop, all, true)
    ensures Tidy(all) == Tidy(s[v..stop])
  {
    hide Tidy;
    var w := s[v..stop];
    TidyBlankFront(all[..|all| - |w|], w);
    assert all[..|all| - |w|] + w == all;
  }

  lemma CutNothing(s: string, start: nat, v: nat, stop: nat, all: string)
    requires Cutting(s, start, v, stop, all, false) && v == stop
    ensures Tidy(all) == Tidy(s[v..stop])
  {
    hide Tidy;
    TidyBlankFront(all, "");
    assert all + "" == all && s[v..stop] == "";
  }

  method CutStatement(s: string, blocks: seq<Block>, start: nat, stop: nat, ghost v: nat) returns (t: string)
    requires Ordered(blocks, stop) && start <= v <= stop <= |s|
    requires CodeAt(s, blocks, start, v) && (v < stop ==> !IsBlank(s[v]))
    ensures t == Tidy(s[v..stop])
  {
    hide Cutting, Strip, Tidy, Covered;
    var text, has := "", false;
    var left: nat := start;
    CutStart(s, start, v);
    var i := 0;
    while i < |blocks|
      invariant i <= |blocks| && start <= left <= stop
      invariant left == start || (i > 0 && left == blocks[i - 1].to)
      invariant Cutting(s, start, v, left, text, has)
      invariant forall j | 0 <= j < i :: blocks[j].to <= left
    {
      var b := blocks[i];
      if b.to <= start {
        i := i + 1;
        continue;
      }
      if b.from > stop {
        break;
      }
      CutBlock(s, blocks, start, v, stop, i, left, text, has);
      var segment := s[left..b.from];
      text := text + segment;
      if Strip(segment) != "" {
        has := true;
      }
      if has {
        text := text + s[b.from..b.to];
      }
      left := b.to;
      i := i + 1;
    }
    CutRest(s, blocks, start, v, stop, left, text, has);
    text := text + s[left..stop];
    return Tidy(text);
  }

  lemma CutStart(s: string, start: nat, v: nat)
    requires start <= v <= |s|
    ensures Cutting(s, start, v, start, "", false)
  {
  }

  // ----- the scan -----

  datatype Comment = NoComment | LineComment | BlockComment

  function Rest(s: string, pos: nat): string
  {
    if pos <= |s| then s[pos..] else ""
  }

  /** Where the statement being read stops, seen from inside a quote or comment. */
  function Resume(rest: string, quote: Option<char>, comment: Comment, brackets: string): Outcome<Option<string>>
  {
    if quote.Some? then
      match QuoteRest(rest, quote.value)
      case None => Ok(None)
      case Some(r) => FirstStop(r, brackets)
    else
      match comment
      case NoComment => FirstStop(rest, brackets)
      case LineComment => FirstStop(LineRest(rest), brackets)
      case BlockComment =>
        match BlockRest(rest)
        case None => Ok(None)
        case Some(r) => FirstStop(r, brackets)
  }

  /** The text from the first code, while none has been seen; `unclosed` starts at an open block comment. */
  function LeadAhead(rest: string, comment: Comment, unclosed: string): string
  {
    match comment
    case NoComment => DropLead(rest)
    case LineComment => DropLead(LineRest(rest))
    case BlockComment =>
      match BlockRest(rest)
      case None => unclosed
      case Some(r) => DropLead(r)
  }

  /** The scanner's position and modes; cpos is where the open comment started. */
  datatype Scan = Scan(start: nat, pos: nat, quote: Option<char>, comment: Comment, cpos: nat, brackets: string)

  /** Comment blocks end before the open comment, or before the position. */
  function Settled(st: Scan): nat
  {
    if st.comment == NoComment then st.pos else st.cpos
  }

  /** The first code of the current statement is at v, once some has been seen. */
  predicate Leading(s: string, st: Scan, blocks: seq<Block>, v: Option<nat>)
    requires st.start <= |s|
  {
    match v
    case Some(p) =>
      && p < Settled(st) && p < |s| && !IsBlank(s[p])
      && CodeAt(s, blocks, st.start, p)
      && DropLead(s[st.start..]) == s[p..]
    case None =>
      && st.quote.None? && Covered(s, blocks, st.start, Settled(st))
      && DropLead(s[st.start..]) == LeadAhead(Rest(s, st.pos), st.comment, Rest(s, st.cpos))
  }

  predicate Scanning(s: string, st: Scan, blocks: seq<Block>, v: Option<nat>)
  {
    && st.start <= |s| && st.start <= st.pos && (st.quote.None? ==> st.pos <= |s|)
    && FirstStop(s[st.start..], "") == Resume(Rest(s, st.pos), st.quote, st.comment, st.brackets)
    && (st.comment != NoComment ==> st.quote.None? && st.start <= st.cpos < st.pos && !IsBlank(s[st.cpos]))
    && Ordered(blocks, if Settled(st) <= |s| then Settled(st) else |s|)
    && (forall i | 0 <= i < |blocks| && blocks[i].to > st.start :: st.start <= blocks[i].from)
    && Leading(s, st, blocks, v)
  }

  lemma RestStep(s: string, pos: nat)
    requires pos < |s|
    ensures Rest(s, pos) != "" && Rest(s, pos)[0] == s[pos] && Rest(s, pos)[1..] == Rest(s, pos + 1)
    ensures |Rest(s, pos)| > 1 <==> pos + 1 < |s|
    ensures pos + 1 < |s| ==> Rest(s, pos)[1] == s[pos + 1]
    ensures pos + 1 < |s| ==> Rest(s, pos)[2..] == Rest(s, pos + 2)
  {
  }

  predicate InCode(s: string, st: Scan)
  {
    st.pos < |s| && st.quote.None? && st.comment == NoComment
  }

  /** A code character: the statement has started. */
  lemma CodeChar(s: string, st: Scan, blocks: seq<Block>, v: Option<nat>, quote: Option<char>, brackets: string)
    requires Scanning(s, st, blocks, v) && InCode(s, st)
    requires !IsBlank(s[st.pos]) && DropLead(Rest(s, st.pos)) == Rest(s, st.pos)
    requires FirstStop(Rest(s, st.pos), st.brackets) == Resume(Rest(s, st.pos + 1), quote, NoComment, brackets)
    ensures Scanning(s, st.(pos := st.pos + 1, quote := quote, brackets := brackets), blocks,
                     if v.Some? then v else Some(st.pos))
  {
    hide FirstStop, DropLead, Inside, IsBlank;
  }

  lemma BlankPasses(z: string, brackets: string)
    requires z != "" && IsBlank(z[0])
    ensures FirstStop(z, brackets) == FirstStop(z[1..], brackets) && DropLead(z) == DropLead(z[1..])
  {
    hide IsBlank;
    NotBackslash(z[0]);
  }

  lemma CoveredBlank(s: string, blocks: seq<Block>, lo: nat, hi: nat)
    requires hi < |s| && IsBlank(s[hi])
    ensures Covered(s, blocks, lo, hi) ==> Covered(s, blocks, lo, hi + 1)
  {
  }

  lemma BlankChar(s: string, st: Scan, blocks: seq<Block>, v: Option<nat>)
    requires Scanning(s, st, blocks, v) && InCode(s, st) && IsBlank(s[st.pos])
    ensures Scanning(s, st.(pos := st.pos + 1), blocks, v)
  {
    hide FirstStop, DropLead, Covered, IsBlank, Rest, CodeAt;
    RestStep(s, st.pos);
    BlankPasses(Rest(s, st.pos), st.brackets);
    CoveredBlank(s, blocks, st.start, st.pos);
    OrderedLater(blocks, st.pos, st.pos + 1);
  }

  lemma OrderedLater(blocks: seq<Block>, n: nat, m: nat)
    requires Ordered(blocks, n) && n <= m
    ensures Ordered(blocks, m)
  {
  }

  /** What a comment at the front means for the statement end and for the first code. */
  lemma CommentAhead(z: string, brackets: string, comment: Comment)
    requires (comment == LineComment && Starts(z, '-', '-')) || (comment == BlockComment && Starts(z, '/', '*'))
    ensures |z| >= 2 && !IsBlank(z[0])
    ensures FirstStop(z, brackets) == Resume(z[2..], None, comment, brackets)
    ensures DropLead(z) == LeadAhead(z[2..], comment, z)
  {
    SlashNotBlank();
  }

  lemma CommentOpens(s: string, st: Scan, blocks: seq<Block>, v: Option<nat>, comment: Comment)
    requires Scanning(s, st, blocks, v) && InCode(s, st)
    requires (comment == LineComment && Starts(Rest(s, st.pos), '-', '-'))
          || (comment == BlockComment && Starts(Rest(s, st.pos), '/', '*'))
    ensures Scanning(s, st.(pos := st.pos + 2, comment := comment, cpos := st.pos), blocks, v)
  {
    hide Covered, CodeAt, FirstStop, DropLead, Rest, LineRest, BlockRest, IsBlank, Starts, Ordered;
    RestStep(s, st.pos);
    CommentAhead(Rest(s, st.pos), st.brackets, comment);
  }

  lemma CommentGoesOn(s: string, st: Scan, blocks: seq<Block>, v: Option<nat>)
    requires Scanning(s, st, blocks, v) && st.comment != NoComment && st.pos < |s|
    requires st.comment == LineComment ==> s[st.pos] != '\n'
    requires st.comment == BlockComment ==> !Starts(Rest(s, st.pos), '*', '/')
    ensures Scanning(s, st.(pos := st.pos + 1), blocks, v)
  {
    hide FirstStop, DropLead, Inside;
    RestStep(s, st.pos);
  }

  lemma OneMoreBlock(blocks: seq<Block>, from: nat, to: nat, n: nat)
    requires Ordered(blocks, from) && from < to <= n
    ensures Ordered(blocks + [Block(from, to)], n)
  {
  }

  lemma StillInside(blocks: seq<Block>, b: Block, k: nat)
    ensures Inside(blocks + [b], k) <==> Inside(blocks, k) || b.from <= k < b.to
  {
    var more := blocks + [b];
    if Inside(blocks, k) {
      var i :| 0 <= i < |blocks| && blocks[i].from <= k < blocks[i].to;
      assert more[i] == blocks[i];
    }
    assert more[|blocks|] == b;
  }

  lemma CoveredMore(s: string, blocks: seq<Block>, from: nat, to: nat, lo: nat, hi: nat)
    requires Covered(s, blocks, lo, hi)
    ensures Covered(s, blocks + [Block(from, to)], lo, hi)
    ensures from == hi && from <= to <= |s| ==> Covered(s, blocks + [Block(from, to)], lo, to)
  {
    forall k: nat ensures Inside(blocks + [Block(from, to)], k) <==> Inside(blocks, k) || from <= k < to {
      StillInside(blocks, Block(from, to), k);
    }
  }

  lemma CodeAtMore(s: string, blocks: seq<Block>, b: Block, start: nat, p: nat)
    requires CodeAt(s, blocks, start, p) && p < b.from
    ensures CodeAt(s, blocks + [b], start, p)
  {
    hide Covered;
    CoveredMore(s, blocks, b.from, b.to, start, p);
  }

  /** A closed comment: the block is recorded, and the code after it is read on. */
  lemma CommentCloses(s: string, st: Scan, blocks: seq<Block>, v: Option<nat>, to: nat)
    requires Scanning(s, st, blocks, v) && st.comment != NoComment && st.pos <= to <= |s|
    requires st.comment == LineComment ==> LineRest(Rest(s, st.pos)) == Rest(s, to)
    requires st.comment == BlockComment ==> BlockRest(Rest(s, st.pos)) == Some(Rest(s, to))
    ensures Scanning(s, st.(pos := to, comment := NoComment), blocks + [Block(st.cpos, to)], v)
  {
    hide Covered, IsBlank, FirstStop, DropLead, LineRest, BlockRest, CodeAt;
    var b := Block(st.cpos, to);
    OneMoreBlock(blocks, st.cpos, to, to);
    FromStart(blocks, b, st.start);
    if v.Some? {
      CodeAtMore(s, blocks, b, st.start, v.value);
    } else {
      CoveredMore(s, blocks, st.cpos, to, st.start, st.cpos);
    }
  }

  lemma FromStart(blocks: seq<Block>, b: Block, start: nat)
    requires start <= b.from
    requires forall i | 0 <= i < |blocks| && blocks[i].to > start :: start <= blocks[i].from
    ensures var more := blocks + [b]; forall i | 0 <= i < |more| && more[i].to > start :: start <= more[i].from
  {
  }

  lemma NewlineIsBlank()
    ensures IsBlank('\n')
  {
  }

  lemma QuoteCloses(s: string, st: Scan, blocks: seq<Block>, v: Option<nat>)
    requires Scanning(s, st, blocks, v) && st.quote.Some? && st.pos < |s| && s[st.pos] == st.quote.value
    ensures Scanning(s, st.(pos := st.pos + 1, quote := None), blocks, v)
  {
    hide FirstStop, DropLead, Inside;
    RestStep(s, st.pos);
  }

  lemma QuoteEscapes(s: string, st: Scan, blocks: seq<Block>, v: Option<nat>)
    requires Scanning(s, st, blocks, v) && st.quote.Some? && st.pos < |s| && s[st.pos] != st.quote.value
    requires s[st.pos] == '\\'
    ensures Scanning(s, st.(pos := st.pos + 2), blocks, v)
  {
    hide FirstStop, DropLead, Inside;
    RestStep(s, st.pos);
  }

  lemma QuoteGoesOn(s: string, st: Scan, blocks: seq<Block>, v: Option<nat>)
    requires Scanning(s, st, blocks, v) && st.quote.Some? && st.pos < |s| && s[st.pos] != st.quote.value
    requires s[st.pos] != '\\'
    ensures Scanning(s, st.(pos := st.pos + 1), blocks, v)
  {
    hide FirstStop, DropLead, Inside;
    RestStep(s, st.pos);
  }

  // ----- statement ends -----

  /** A fresh statement starts at pos; earlier comment blocks lie before it. */
  lemma StatementStarts(s: string, blocks: seq<Block>, pos: nat)
    requires pos <= |s| && Ordered(blocks, pos)
    ensures Scanning(s, Scan(pos, pos, None, NoComment, 0, ""), blocks, None)
  {
    hide FirstStop, DropLead;
  }

  lemma StatementStops(s: string, st: Scan, blocks: seq<Block>, v: Option<nat>)
    requires Scanning(s, st, blocks, v) && InCode(s, st) && StopsHere(Rest(s, st.pos), st.brackets)
    ensures var p := if v.Some? then v.value else st.pos;
            && FirstStop(s[st.start..], "") == Ok(Some(s[st.pos + 1..]))
            && st.start <= p <= st.pos && !IsBlank(s[p]) && CodeAt(s, blocks, st.start, p)
            && Kept(s[st.start..], s[st.pos + 1..]) == s[p..st.pos + 1]
            && Ordered(blocks, st.pos + 1)
  {
    hide DropLead, Covered;
    RestStep(s, st.pos);
    SemicolonIsCode(Rest(s, st.pos));
    var p := if v.Some? then v.value else st.pos;
    assert DropLead(s[st.start..]) == s[p..];
    CutAt(s, p, st.pos + 1);
    BlocksBefore(blocks, st.pos);
  }

  lemma CutAt(s: string, p: nat, end: nat)
    requires p <= end <= |s|
    ensures Cut(s[p..], |s[end..]|) == s[p..end]
  {
  }

  /** Blocks that end before a position are no obstacle to code there. */
  lemma BlocksBefore(blocks: seq<Block>, pos: nat)
    requires Ordered(blocks, pos)
    ensures Ordered(blocks, pos + 1) && forall i | 0 <= i < |blocks| :: blocks[i].to <= pos || blocks[i].from > pos
  {
  }

  lemma SemicolonIsCode(z: string)
    requires z != "" && z[0] == ';'
    ensures DropLead(z) == z
  {
    SlashNotBlank();
  }

  /** At the end of the text, outside a line comment. */
  lemma TextEnds(s: string, st: Scan, blocks: seq<Block>, v: Option<nat>)
    requires Scanning(s, st, blocks, v) && st.pos >= |s| && st.comment != LineComment
    ensures FirstStop(s[st.start..], "") == Ok(None)
    ensures var p := if v.Some? then v.value else if st.comment == BlockComment then st.cpos else |s|;
            && st.start <= p <= |s| && (p < |s| ==> !IsBlank(s[p])) && CodeAt(s, blocks, st.start, p)
            && DropLead(s[st.start..]) == s[p..|s|]
            && Ordered(blocks, |s|)
  {
    hide Inside;
    assert Rest(s, st.pos) == "";
    var p := if v.Some? then v.value else if st.comment == BlockComment then st.cpos else |s|;
    assert s[p..|s|] == s[p..];
  }

  function Then(done: seq<string>, later: Outcome<seq<string>>): Outcome<seq<string>>
  {
    match later
    case Raise(e) => Raise(e)
    case Ok(texts) => Ok(done + texts)
  }

  lemma ThenAssoc(a: seq<string>, b: seq<string>, later: Outcome<seq<string>>)
    ensures Then(a, Then(b, later)) == Then(a + b, later)
  {
    if later.Ok? {
      assert a + (b + later.value) == a + b + later.value;
    }
  }

  lemma SplitAtStop(z: string, r: string)
    requires FirstStop(z, "") == Ok(Some(r))
    ensures Split(z) == Then(Emit(Tidy(Kept(z, r))), Split(r))
  {
    hide Tidy, FirstStop, Kept, Emit;
  }

  /** What the scanner does at a code character that is not blank, no comment start and no statement end. */
  function CodeStep(c: char, brackets: string): Outcome<(Option<char>, string)>
  {
    if IsOpen(c) then Ok((None, brackets + [c]))
    else if IsClose(c) then
      match Close(brackets, c)
      case Raise(e) => Raise(e)
      case Ok(b) => Ok((None, b))
    else if IsQuote(c) then Ok((Some(c), brackets))
    else Ok((None, brackets))
  }

  lemma CodeStepIs(z: string, brackets: string)
    requires z != "" && !IsBlank(z[0]) && !StopsHere(z, brackets)
    requires StartsComment(z) ==> IsOpen(z[0]) || IsClose(z[0]) || IsQuote(z[0])
    ensures DropLead(z) == z
    ensures FirstStop(z, brackets) == match CodeStep(z[0], brackets)
                                      case Raise(e) => Raise(e)
                                      case Ok(next) => Resume(z[1..], next.0, NoComment, next.1)
  {
    hide QuoteRest, BlockRest, LineRest, DropLead;
    PlainFront(z);
  }

  lemma PlainFront(z: string)
    requires z != "" && !IsBlank(z[0])
    requires StartsComment(z) ==> IsOpen(z[0]) || IsClose(z[0]) || IsQuote(z[0])
    ensures DropLead(z) == z && !StartsComment(z)
  {
  }

  /** A bracket or a quote: read on, or the error of a bracket that does not close. */
  lemma SpecialChar(s: string, st: Scan, blocks: seq<Block>, v: Option<nat>, done: seq<string>)
    requires Scanning(s, st, blocks, v) && InCode(s, st) && st.start <= |s|
    requires IsOpen(s[st.pos]) || IsClose(s[st.pos]) || IsQuote(s[st.pos])
    ensures match CodeStep(s[st.pos], st.brackets)
            case Raise(e) => Then(done, Split(s[st.start..])) == Raise(e)
            case Ok(next) => Scanning(s, st.(pos := st.pos + 1, quote := next.0, brackets := next.1), blocks,
                                      if v.Some? then v else Some(st.pos))
  {
    hide Scanning, FirstStop, DropLead, CodeStep, StopsHere, Resume, Split, Then, IsBlank;
    RestStep(s, st.pos);
    SpecialNotBlank(s[st.pos]);
    SpecialIsNoStop(Rest(s, st.pos), st.brackets);
    CodeStepIs(Rest(s, st.pos), st.brackets);
    var step := CodeStep(s[st.pos], st.brackets);
    if step.Raise? {
      StatementFails(s, st, blocks, v, step.error);
      ThenFails(done, s[st.start..], step.error);
    } else {
      CodeChar(s, st, blocks, v, step.value.0, step.value.1);
    }
  }

  lemma SpecialIsNoStop(z: string, brackets: string)
    requires z != "" && (IsOpen(z[0]) || IsClose(z[0]) || IsQuote(z[0]))
    ensures !StopsHere(z, brackets)
  {
  }

  /** Any other code character. */
  lemma PlainChar(s: string, st: Scan, blocks: seq<Block>, v: Option<nat>)
    requires Scanning(s, st, blocks, v) && InCode(s, st) && !IsBlank(s[st.pos])
    requires !IsOpen(s[st.pos]) && !IsClose(s[st.pos]) && !IsQuote(s[st.pos])
    requires !StopsHere(Rest(s, st.pos), st.brackets) && !StartsComment(Rest(s, st.pos))
    ensures Scanning(s, st.(pos := st.pos + 1), blocks, if v.Some? then v else Some(st.pos))
  {
    hide Scanning, FirstStop, DropLead, StopsHere, Resume, IsBlank, StartsComment, IsOpen, IsClose, IsQuote;
    RestStep(s, st.pos);
    CodeStepIs(Rest(s, st.pos), st.brackets);
    CodeChar(s, st, blocks, v, None, st.brackets);
  }

  method SplitSqlBySemicolon(sql: string) returns (result: Outcome<seq<string>>)
    ensures result == SplitSql(sql)
  {
    hide Scanning, FirstStop, DropLead, Kept, Tidy, Split, CodeAt, Emit, IsBlank, Normalize, Resume, AfterToken,
         IsOpen, IsClose, IsQuote, QuoteRest, Then, LineRest, BlockRest;
    var s := Normalize(sql);
    var start: nat, pos: nat, statements: seq<string> := 0, 0, [];
    var comment, commentPos: nat := NoComment, 0;
    var blocks: seq<Block> := [];
    var quote: Option<char>, brackets := None, "";
    ghost var v: Option<nat> := None;
    StatementStarts(s, blocks, 0);
    assert s[0..] == s;
    EmptyThen(Split(s));
    while pos < |s|
      invariant start <= |s|
      invariant Scanning(s, Scan(start, pos, quote, comment, commentPos, brackets), blocks, v)
      invariant Split(s) == Then(statements, Split(s[start..]))
      decreases |s| + 1 - pos
    {
      var ch := s[pos];
      ghost var st := Scan(start, pos, quote, comment, commentPos, brackets);
      ghost var z := Rest(s, pos);
      RestStep(s, pos);
      if quote == None && comment == NoComment {
        ghost var step := CodeStep(ch, brackets);
        if IsOpen(ch) || IsClose(ch) || IsQuote(ch) {
          SpecialChar(s, st, blocks, v, statements);
          if step.Ok? {
            v := if v.Some? then v else Some(pos);
          }
        }
        if IsOpen(ch) {
          brackets := brackets + [ch];
          pos := pos + 1;
        } else if IsClose(ch) {
          if brackets == "" {
            return Raise(IndexError);
          }
          if brackets[|brackets| - 1] != Opener(ch) {
            return Raise(AssertionError);
          }
          brackets := brackets[..|brackets| - 1];
          pos := pos + 1;
        } else if IsQuote(ch) {
          quote := Some(ch);
          pos := pos + 1;
        } else if StartsComment(Window(s, pos)) {
          var kind := if ch == '-' then LineComment else BlockComment;
          WindowIsFront(s, pos);
          CommentOpens(s, st, blocks, v, kind);
          comment, commentPos := kind, pos;
          pos := pos + 2;
        } else if ch == ';' && brackets == "" {
          StatementStops(s, st, blocks, v);
          ghost var p := if v.Some? then v.value else pos;
          var part := CutStatement(s, blocks, start, pos + 1, p);
          SplitAtStop(s[start..], s[pos + 1..]);
          ThenAssoc(statements, Emit(part), Split(s[pos + 1..]));
          statements := statements + Emit(part);
          pos := pos + 1;
          start := pos;
          StatementStarts(s, blocks, pos);
          v := None;
          commentPos := 0;
        } else if IsBlank(ch) {
          BlankChar(s, st, blocks, v);
          pos := pos + 1;
        } else {
          PlainChar(s, st, blocks, v);
          v := if v.Some? then v else Some(pos);
          pos := pos + 1;
        }
      } else if quote.Some? && ch == quote.value {
        QuoteCloses(s, st, blocks, v);
        quote := None;
        pos := pos + 1;
      } else if quote.Some? && ch == '\\' {
        QuoteEscapes(s, st, blocks, v);
        pos := pos + 2;
      } else if comment == LineComment && ch == '\n' {
        LineCommentCloses(s, st, blocks, v);
        comment := NoComment;
        blocks := blocks + [Block(commentPos, pos)];
        pos := pos + 1;
      } else if comment == BlockComment && Starts(Window(s, pos), '*', '/') {
        BlockCommentCloses(s, st, blocks, v);
        comment := NoComment;
        blocks := blocks + [Block(commentPos, pos + 2)];
        pos := pos + 2;
      } else {
        if quote.Some? {
          QuoteGoesOn(s, st, blocks, v);
        } else {
          CommentGoesOn(s, st, blocks, v);
        }
        pos := pos + 1;
      }
    }
    if comment == LineComment {
      ghost var st := Scan(start, pos, quote, comment, commentPos, brackets);
      LastLineCommentCloses(s, st, blocks, v);
      comment := NoComment;
      blocks := blocks + [Block(commentPos, pos)];
    }
    ghost var st := Scan(start, pos, quote, comment, commentPos, brackets);
    TextEnds(s, st, blocks, v);
    ghost var p := if v.Some? then v.value else if comment == BlockComment then commentPos else |s|;
    var part := CutStatement(s, blocks, start, |s|, p);
    LastStatement(s[start..], statements);
    statements := statements + Emit(part);
    return Ok(statements);
  }

  lemma LineCommentCloses(s: string, st: Scan, blocks: seq<Block>, v: Option<nat>)
    requires Scanning(s, st, blocks, v) && st.comment == LineComment && st.pos < |s| && s[st.pos] == '\n'
    ensures Scanning(s, st.(pos := st.pos + 1, comment := NoComment), blocks + [Block(st.cpos, st.pos)], v)
  {
    hide Scanning, IsBlank;
    ScanBounds(s, st, blocks, v);
    RestStep(s, st.pos);
    CommentCloses(s, st, blocks, v, st.pos);
    NewlineIsBlank();
    BlankChar(s, st.(comment := NoComment), blocks + [Block(st.cpos, st.pos)], v);
  }

  lemma LastLineCommentCloses(s: string, st: Scan, blocks: seq<Block>, v: Option<nat>)
    requires Scanning(s, st, blocks, v) && st.comment == LineComment && st.pos >= |s|
    ensures Scanning(s, st.(comment := NoComment), blocks + [Block(st.cpos, st.pos)], v)
  {
    hide Scanning;
    ScanBounds(s, st, blocks, v);
    CommentCloses(s, st, blocks, v, st.pos);
  }

  lemma BlockCommentCloses(s: string, st: Scan, blocks: seq<Block>, v: Option<nat>)
    requires Scanning(s, st, blocks, v) && st.comment == BlockComment && st.pos < |s|
    requires Starts(Window(s, st.pos), '*', '/')
    ensures Scanning(s, st.(pos := st.pos + 2, comment := NoComment), blocks + [Block(st.cpos, st.pos + 2)], v)
  {
    hide Scanning;
    ScanBounds(s, st, blocks, v);
    RestStep(s, st.pos);
    CommentCloses(s, st, blocks, v, st.pos + 2);
  }

  lemma ScanBounds(s: string, st: Scan, blocks: seq<Block>, v: Option<nat>)
    requires Scanning(s, st, blocks, v) && st.comment != NoComment
    ensures st.pos <= |s| && st.quote.None?
  {
  }

  /** The two characters at pos, fewer at the end of the text. */
  function Window(s: string, pos: nat): string
    requires pos <= |s|
  {
    if pos + 2 <= |s| then s[pos..pos + 2] else s[pos..]
  }

  lemma WindowIsFront(s: string, pos: nat)
    requires pos < |s|
    ensures forall a, b :: Starts(Window(s, pos), a, b) <==> Starts(Rest(s, pos), a, b)
  {
  }

  lemma EmptyThen(later: Outcome<seq<string>>)
    ensures Then([], later) == later
  {
    if later.Ok? {
      assert [] + later.value == later.value;
    }
  }

  lemma SpecialNotBlank(c: char)
    requires IsOpen(c) || IsClose(c) || IsQuote(c)
    ensures !IsBlank(c) && c != ';'
  {
  }

  lemma StatementFails(s: string, st: Scan, blocks: seq<Block>, v: Option<nat>, e: Error)
    requires Scanning(s, st, blocks, v) && InCode(s, st) && FirstStop(Rest(s, st.pos), st.brackets) == Raise(e)
    ensures FirstStop(s[st.start..], "") == Raise(e)
  {
    hide FirstStop, DropLead, Inside;
  }

  lemma ThenFails(done: seq<string>, z: string, e: Error)
    requires FirstStop(z, "") == Raise(e)
    ensures Then(done, Split(z)) == Raise(e)
  {
  }

  lemma LastStatement(z: string, done: seq<string>)
    requires FirstStop(z, "") == Ok(None)
    ensures Then(done, Split(z)) == Ok(done + Emit(Tidy(DropLead(z))))
  {
    hide FirstStop, DropLead, Tidy;
  }
}
