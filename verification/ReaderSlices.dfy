/** Slicing and batching a one-way record stream (odps/readers.py). */
module ReaderSlices {
  import opened Text

  function Max(a: int, b: int): int
  {
    if a <= b then b else a
  }

  // ----- what a slice selects -----

  /** `start`, `start + step`, ... below `bound`. */
  function Strided<T>(data: seq<T>, start: nat, step: nat, bound: nat): seq<T>
    requires step > 0 && bound <= |data|
    decreases bound - start
  {
    if start >= bound then [] else [data[start]] + Strided(data, start + step, step, bound)
  }

  /** How many records are read: up to `end`, though always the one at `start`. */
  function Read(length: nat, start: nat, end: Option<int>): (n: nat)
    ensures n <= length
  {
    match end
    case None => length
    case Some(e) => Min(length, Max(e, start + 1))
  }

  function Slice<T>(data: seq<T>, start: nat, end: Option<int>, step: nat): seq<T>
    requires step > 0
  {
    Strided(data, start, step, Read(|data|, start, end))
  }

  /** The number of steps that fit below `bound`, rounded up. */
  function Steps(start: nat, step: nat, bound: nat): (n: nat)
    requires step > 0
    ensures n > 0 ==> start + (n - 1) * step < bound
    ensures bound <= start + n * step
    decreases bound - start
  {
    if start >= bound then 0
    else
      var n := 1 + Steps(start + step, step, bound);
      Shifted(start, step, n);
      n
  }

  lemma Shifted(start: nat, step: nat, n: nat)
    requires n > 0
    ensures start + n * step == start + step + (n - 1) * step
    ensures n > 1 ==> start + (n - 1) * step == start + step + (n - 2) * step
  {
    assert n * step == (n - 1) * step + step;
    assert n > 1 ==> (n - 1) * step == (n - 2) * step + step;
  }

  /** The position of the k-th selected record. */
  function Nth(start: nat, step: nat, k: nat): nat
  {
    start + k * step
  }

  lemma NthSkips(start: nat, step: nat, k: nat)
    ensures Nth(start, step, 0) == start && (k > 0 ==> Nth(start, step, k) == Nth(start + step, step, k - 1))
  {
    if k > 0 {
      Shifted(start, step, k);
    }
  }

  lemma {:induction false} StridedNth<T>(data: seq<T>, start: nat, step: nat, bound: nat, k: nat)
    requires step > 0 && bound <= |data| && k < |Strided(data, start, step, bound)|
    ensures Nth(start, step, k) < bound && Strided(data, start, step, bound)[k] == data[Nth(start, step, k)]
    decreases k
  {
    hide Nth;
    NthSkips(start, step, k);
    if k > 0 {
      StridedNth(data, start + step, step, bound, k - 1);
    }
  }

  lemma {:induction false} StridedLength<T>(data: seq<T>, start: nat, step: nat, bound: nat)
    requires step > 0 && bound <= |data|
    ensures |Strided(data, start, step, bound)| == Steps(start, step, bound)
    decreases bound - start
  {
    if start < bound {
      StridedLength(data, start + step, step, bound);
    }
  }

  /** The selected records, one by one. */
  lemma StridedAt<T>(data: seq<T>, start: nat, step: nat, bound: nat)
    requires step > 0 && bound <= |data|
    ensures var r := Strided(data, start, step, bound);
            && |r| == Steps(start, step, bound)
            && forall k | 0 <= k < |r| :: start + k * step < bound && r[k] == data[start + k * step]
  {
    hide Strided, Steps;
    StridedLength(data, start, step, bound);
    var r := Strided(data, start, step, bound);
    forall k | 0 <= k < |r| ensures start + k * step < bound && r[k] == data[start + k * step] {
      StridedNth(data, start, step, bound, k);
    }
  }

  // ----- the stream -----

  class Stream<T> {
    const records: seq<T>
    var pos: nat

    constructor (records: seq<T>)
      ensures this.records == records && pos == 0
    {
      this.records, pos := records, 0;
    }

    ghost predicate Valid()
      reads this
    {
      pos <= |records|
    }

    ghost function Rest(): seq<T>
      reads this
      requires Valid()
    {
      records[pos..]
    }

    method Next() returns (r: Option<T>)
      requires Valid()
      modifies this
      ensures Valid()
      ensures r == if old(pos) < |records| then Some(records[old(pos)]) else None
      ensures pos == old(pos) + if r.Some? then 1 else 0
    {
      if pos == |records| {
        return None;
      }
      r := Some(records[pos]);
      pos := pos + 1;
    }
  }

  lemma StridedSkips<T>(data: seq<T>, start: nat, step: nat, bound: nat)
    requires step > 0 && bound <= |data| && start < bound
    ensures Strided(data, start, step, bound) == [data[start]] + Strided(data, start + step, step, bound)
  {
  }

  lemma StridedEnds<T>(data: seq<T>, start: nat, step: nat, bound: nat)
    requires step > 0 && bound <= |data| && start >= bound
    ensures Strided(data, start, step, bound) == []
  {
  }

  /** `_iter`, read to its end. */
  method Iter<T>(s: Stream<T>, start: Option<nat>, end: Option<int>, step: Option<nat>) returns (out: seq<T>)
    requires s.Valid()
    modifies s
    ensures s.Valid()
    ensures var first, stride := Or(start, 0), OrOne(step);
            && out == Slice(old(s.Rest()), first, end, stride)
            && s.pos == old(s.pos) + Read(|old(s.Rest())|, first, end)
  {
    hide Strided;
    var first, stride := Or(start, 0), OrOne(step);
    var curr := first;
    ghost var p, data := s.pos, s.Rest();
    ghost var bound := Read(|data|, first, end);
    out := [];
    for i := 0 to first
      invariant s.Valid() && s.pos == p + i
    {
      var record := s.Next();
      if record.None? {
        StridedEnds(data, first, stride, bound);
        return;
      }
    }
    while true
      invariant s.Valid() && s.pos == p + curr
      invariant curr == first || end.None? || curr < end.value
      invariant first <= curr && s.pos <= |s.records|
      invariant out + Strided(data, curr, stride, bound) == Strided(data, first, stride, bound)
      decreases |s.records| - s.pos
    {
      ghost var from, done := curr, out;
      for i := 0 to stride
        invariant s.Valid() && s.pos == p + curr && curr == from + i
        invariant i == 0 ==> out == done && (curr == first || end.None? || curr < end.value)
        invariant i > 0 ==> from < bound && (end.None? || curr < end.value) && out == done + [data[from]]
      {
        var record := s.Next();
        if record.None? {
          assert curr == |data|;
          if i > 0 {
            StridedEnds(data, from + stride, stride, bound);
            StridedSkips(data, from, stride, bound);
          } else {
            StridedEnds(data, from, stride, bound);
          }
          return;
        }
        assert record.value == data[curr];
        if i == 0 {
          out := out + [record.value];
        }
        curr := curr + 1;
        if end.Some? && curr >= end.value {
          assert curr == bound;
          StridedEnds(data, from + stride, stride, bound);
          StridedSkips(data, from, stride, bound);
          return;
        }
      }
      StridedSkips(data, from, stride, bound);
      Regroup(done, [data[from]], Strided(data, from + stride, stride, bound));
    }
  }

  /** `step or 1`. */
  function OrOne(step: Option<nat>): (r: nat)
    ensures r > 0
  {
    if step.Some? && step.value != 0 then step.value else 1
  }

  // ----- counts -----

  /** `_calc_count`: the quotient, rounded up. */
  function CalcCount(start: int, end: int, step: int): int
    requires step != 0
  {
    if step > 0 then -((start - end) / step) else -((end - start) / -step)
  }

  lemma {:induction false} StepsIs(start: nat, step: nat, q: nat, bound: nat)
    requires step > 0 && start + q * step < bound <= start + (q + 1) * step
    ensures Steps(start, step, bound) == q + 1
    decreases q
  {
    if q > 0 {
      assert start + step + (q - 1) * step < bound <= start + step + q * step by {
        Shifted(start, step, q);
        Shifted(start, step, q + 1);
      }
      StepsIs(start + step, step, q - 1, bound);
    } else {
      assert (q + 1) * step == step && q * step == 0;
    }
  }

  lemma {:induction false} StepsExact(start: nat, step: nat, q: nat)
    requires step > 0
    ensures Steps(start, step, start + q * step) == q
  {
    if q > 0 {
      Shifted(start, step, q);
      StepsIs(start, step, q - 1, start + q * step);
    }
  }

  lemma Quotient(n: nat, step: nat)
    requires step > 0
    ensures n == (n / step) * step + n % step && 0 <= n % step < step
  {
  }

  lemma CountIsSteps(start: nat, end: nat, step: nat)
    requires step > 0 && start < end
    ensures Steps(start, step, end) == CalcCount(start, end, step) > 0
  {
    hide Steps;
    var n: nat := end - start - 1;
    var q: nat := n / step;
    Quotient(n, step);
    Times(q, step);
    StepsIs(start, step, q, end);
    RoundedUp(n, step);
  }

  lemma Times(q: nat, step: nat)
    ensures (q + 1) * step == q * step + step
  {
  }

  /** A slice that ends within the records has as many records as `_calc_count` says. */
  lemma CountIsLength<T>(data: seq<T>, start: nat, end: nat, step: nat)
    requires step > 0 && start < end <= |data|
    ensures |Slice(data, start, Some(end), step)| == CalcCount(start, end, step) > 0
  {
    hide Strided, Steps, CalcCount;
    StridedAt(data, start, step, end);
    CountIsSteps(start, end, step);
  }

  lemma RoundedUp(n: nat, step: nat)
    requires step > 0
    ensures -((-(n + 1)) / step) == n / step + 1
  {
    var q, r := n / step, n % step;
    Quotient(n, step);
    assert -(n + 1) == (-q - 1) * step + (step - 1 - r) by {
      assert (-q - 1) * step == -(q * step) - step;
    }
    Unique(-(n + 1), step, -q - 1, step - 1 - r);
  }

  lemma Unique(n: int, step: nat, q: int, r: nat)
    requires step > 0 && n == q * step + r && r < step
    ensures n / step == q
  {
    var d := n / step - q;
    assert n == (n / step) * step + n % step;
    assert d * step == r - n % step by {
      assert d * step == (n / step) * step - q * step;
    }
    assert d > 0 ==> d * step >= step;
    assert d < 0 ==> d * step + step <= 0;
  }

  /** The end `SliceIterator.to_pandas` asks for: it rounds the count down. */
  function PandasEnd(start: nat, end: nat, step: nat): (r: nat)
    requires step > 0 && start < end
    ensures r <= end
  {
    Quotient(end - start, step);
    start + ((end - start) / step) * step
  }

  /** `to_pandas` of a slice has the slice's records exactly when the step divides the span, when it
      exceeds the span, or when the records run out first. */
  lemma PandasAgreesIff<T>(data: seq<T>, start: nat, end: nat, step: nat)
    requires step > 0 && start < end
    ensures var cut := PandasEnd(start, end, step);
            Slice(data, start, Some(cut), step) == Slice(data, start, Some(end), step)
            <==> (end - start) % step == 0 || end - start < step || |data| <= cut
  {
    hide Strided, Steps;
    var n: nat := end - start;
    if n < step {
      SmallQuotient(n, step);
      SingleStep(data, start, step, Read(|data|, start, Some(start)), Read(|data|, start, Some(end)));
    } else {
      CutShort(data, start, end, step);
    }
  }

  lemma LargeQuotient(n: nat, step: nat)
    requires step > 0 && n >= step
    ensures (n / step) * step == n - n % step && n / step >= 1 && (n / step) * step >= step
  {
    var q := n / step;
    Quotient(n, step);
    assert q <= 0 ==> q * step <= 0;
    assert q >= 1 ==> q * step >= step;
  }

  lemma CutShort<T>(data: seq<T>, start: nat, end: nat, step: nat)
    requires step > 0 && end - start >= step
    ensures var cut := PandasEnd(start, end, step);
            Slice(data, start, Some(cut), step) == Slice(data, start, Some(end), step)
            <==> (end - start) % step == 0 || |data| <= cut
  {
    hide Strided, Steps;
    var n: nat := end - start;
    var q: nat := n / step;
    LargeQuotient(n, step);
    var cut := start + q * step;
    if n % step != 0 && cut < |data| {
      var bound := Read(|data|, start, Some(end));
      Times(q, step);
      StepsExact(start, step, q);
      StepsIs(start, step, q, bound);
      StridedAt(data, start, step, cut);
      StridedAt(data, start, step, bound);
    }
  }

  lemma SmallQuotient(n: nat, step: nat)
    requires n < step
    ensures n / step == 0
  {
  }

  lemma SingleStep<T>(data: seq<T>, start: nat, step: nat, a: nat, b: nat)
    requires step > 0 && a <= |data| && b <= |data|
    requires start < a <==> start < b
    requires a <= start + step && b <= start + step
    ensures Strided(data, start, step, a) == Strided(data, start, step, b)
  {
    if start < a {
      assert Strided(data, start + step, step, a) == [] == Strided(data, start + step, step, b);
    }
  }

  // ----- __getitem__ -----

  /** `reader[start:end:step]`, read to its end. */
  method GetSlice<T>(s: Stream<T>, start: Option<int>, end: Option<int>, step: Option<int>) returns (r: Outcome<seq<T>>)
    requires s.Valid()
    modifies s
    ensures s.Valid()
    ensures var first := Or(start, 0);
            var stride := if step.Some? && step.value != 0 then step.value else 1;
            if first < 0 || stride < 0 || (end.Some? && end.value <= first)
            then r == Raise(ValueError) && s.pos == old(s.pos)
            else r == Ok(Slice(old(s.Rest()), first, end, stride))
                 && s.pos == old(s.pos) + Read(|old(s.Rest())|, first, end)
  {
    var first := Or(start, 0);
    var stride := if step.Some? && step.value != 0 then step.value else 1;
    if stride > 0 && end.Some? {
      CountSign(first, end.value, stride);
    }
    if first < 0 || (end.Some? && CalcCount(first, end.value, stride) <= 0) || stride < 0 {
      return Raise(ValueError);
    }
    var out := Iter(s, Some(first), end, Some(stride));
    return Ok(out);
  }

  lemma CountSign(start: int, end: int, step: int)
    requires step > 0
    ensures CalcCount(start, end, step) <= 0 <==> end <= start
  {
    if end > start {
      var n: nat := end - start - 1;
      RoundedUp(n, step);
    }
  }

  /** `reader[index]`. */
  method GetIndex<T>(s: Stream<T>, index: int) returns (r: Outcome<T>)
    requires s.Valid()
    modifies s
    ensures s.Valid()
    ensures r == if index < 0 then Raise(ValueError)
                 else if index < |old(s.Rest())| then Ok(old(s.Rest())[index])
                 else Raise(IndexError)
    ensures s.pos == old(s.pos) + if index < 0 then 0 else Min(index + 1, |old(s.Rest())|)
  {
    if index < 0 {
      return Raise(ValueError);
    }
    ghost var data := s.Rest();
    var out := Iter(s, Some(index), Some(index + 1), Some(1));
    assert out == Strided(data, index, 1, Read(|data|, index, Some(index + 1)));
    if out == [] {
      return Raise(IndexError);
    }
    return Ok(out[0]);
  }

  // ----- to_result_frame -----

  function Concat<T>(frames: seq<seq<T>>): seq<T>
  {
    if frames == [] then [] else Concat(frames[..|frames| - 1]) + frames[|frames| - 1]
  }

  lemma ConcatSnoc<T>(frames: seq<seq<T>>, frame: seq<T>)
    ensures Concat(frames + [frame]) == Concat(frames) + frame
  {
    assert (frames + [frame])[..|frames|] == frames;
  }

  lemma ConcatFew<T>(frame: seq<T>)
    ensures Concat<T>([]) == [] && Concat([frame]) == frame
  {
    ConcatSnoc([], frame);
    assert [] + [frame] == [frame] && [] + frame == frame;
  }

  lemma Cut<T>(data: seq<T>, i: nat, j: nat)
    requires i <= j <= |data|
    ensures data[..j] == data[..i] + data[i..j]
  {
  }

  /** The values before the first empty place. */
  function TakeFilled<T>(data: seq<Option<T>>): seq<T>
  {
    if data == [] || data[0].None? then [] else [data[0].value] + TakeFilled(data[1..])
  }

  lemma {:induction false} TakeFilledStops<T>(data: seq<Option<T>>, values: seq<T>)
    requires |values| <= |data|
    requires forall i | 0 <= i < |values| :: data[i] == Some(values[i])
    requires |values| < |data| ==> data[|values|].None?
    ensures TakeFilled(data) == values
    decreases |data|
  {
    if values != [] {
      TakeFilledStops(data[1..], values[1..]);
      assert values == [values[0]] + values[1..];
    }
  }

  /** One more batch covers one more stretch of the records. */
  lemma BatchTaken<T>(frames: seq<seq<T>>, records: seq<T>, from: nat, to: nat, data: seq<Option<T>>)
    requires from <= to <= |records| && to - from <= |data| && Concat(frames) == records[..from]
    requires forall i | 0 <= i < to - from :: data[i] == Some(records[from + i])
    requires to - from < |data| ==> data[to - from].None?
    ensures Concat(frames + [TakeFilled(data)]) == records[..to]
  {
    hide Concat, TakeFilled;
    TakeFilledStops(data, records[from..to]);
    ConcatSnoc(frames, records[from..to]);
    Cut(records, from, to);
  }

  /** The batches of `to_result_frame`, concatenated: a frame is a sequence of records. */
  method Batched<T>(records: seq<T>, size: nat, threshold: int) returns (frame: seq<T>)
    requires size > 0
    ensures frame == records
  {
    hide Concat, TakeFilled;
    var frames: seq<seq<T>> := [];
    ConcatFew<T>([]);
    var data := new Option<T>[size](_ => None);
    var offset := 0;
    for n := 0 to |records|
      invariant 0 <= offset < size && offset <= n && data.Length == size
      invariant Concat(frames) == records[..n - offset]
      invariant forall i | 0 <= i < offset :: data[i] == Some(records[n - offset + i])
      invariant forall i | offset <= i < size :: data[i] == None
      invariant frames == [] ==> offset == n
      invariant fresh(data)
    {
      data[offset] := Some(records[n]);
      if offset != size - 1 {
        offset := offset + 1;
        continue;
      }
      BatchTaken(frames, records, n - offset, n + 1, data[..]);
      var batch := TakeFilled(data[..]);
      frames := frames + [batch];
      data := new Option<T>[size](_ => None);
      offset := 0;
      if |frames| > threshold {
        ConcatFew(Concat(frames));
        frames := [Concat(frames)];
      }
    }
    if frames == [] || data[0].Some? {
      BatchTaken(frames, records, |records| - offset, |records|, data[..]);
      var batch := TakeFilled(data[..]);
      frames := frames + [batch];
    }
    frame := Concat(frames);
    assert records[..|records|] == records;
  }

  /** Where `to_result_frame` stops reading. */
  function FrameEnd(start: Option<nat>, count: Option<int>, step: Option<nat>): Option<int>
  {
    if count.None? then None else Some(Or(start, 0) + count.value * OrOne(step))
  }

  /** Where the records suffice, `count` of them are returned exactly when `count` is not zero: then it is one. */
  lemma FrameCountIff<T>(data: seq<T>, start: nat, count: nat, step: nat)
    requires step > 0 && start < |data| && start + count * step <= |data|
    ensures |Slice(data, start, FrameEnd(Some(start), Some(count), Some(step)), step)| == count <==> count != 0
  {
    hide Strided, Steps;
    var end := start + count * step;
    if count == 0 {
      assert count * step == 0;
      StridedAt(data, start, step, start + 1);
      StepsIs(start, step, 0, start + 1);
    } else {
      assert count * step >= step by {
        Times(count - 1, step);
        assert (count - 1) * step >= 0;
      }
      StridedAt(data, start, step, end);
      StepsExact(start, step, count);
    }
  }

  /** `to_result_frame`: the slice's records in order, whatever the batch size and the merge threshold.
      A batch size below one reads and returns nothing, and an `end` of the caller's own, which would reach
      `_iter` twice, is a `TypeError`. */
  method ToResultFrame<T>(
    s: Stream<T>, start: Option<nat>, count: Option<int>, end: Option<Option<int>>, step: Option<nat>,
    batchSize: int, threshold: int) returns (r: Outcome<seq<T>>)
    requires s.Valid()
    modifies s
    ensures s.Valid()
    ensures var first, stop := Or(start, 0), FrameEnd(start, count, step);
            if end.Some? then r == Raise(TypeError) && s.pos == old(s.pos)
            else if batchSize <= 0 then r == Ok([]) && s.pos == old(s.pos)
            else r == Ok(Slice(old(s.Rest()), first, stop, OrOne(step)))
                 && s.pos == old(s.pos) + Read(|old(s.Rest())|, first, stop)
  {
    if end.Some? {
      return Raise(TypeError);
    }
    if batchSize <= 0 {
      return Ok([]);
    }
    var records := Iter(s, start, FrameEnd(start, count, step), step);
    var frame := Batched(records, batchSize, threshold);
    return Ok(frame);
  }

  // ----- slices, written out -----

  lemma {:induction false} EveryRecord<T>(data: seq<T>, start: nat)
    requires start <= |data|
    ensures Strided(data, start, 1, |data|) == data[start..]
    decreases |data| - start
  {
    if start < |data| {
      EveryRecord(data, start + 1);
      assert data[start..] == [data[start]] + data[start + 1..];
    }
  }

  /** Without start, end and step, or with zeros for start and step, a slice is all records. */
  lemma WholeSlice<T>(data: seq<T>)
    ensures Slice(data, Or(None, 0), None, OrOne(None)) == data
    ensures Slice(data, Or(Some(0), 0), None, OrOne(Some(0))) == data
  {
    EveryRecord(data, 0);
    assert data[0..] == data;
  }

  /** `count` records from the beginning, or from `start` on, end where they should. */
  lemma FrameEndIs(start: nat, count: int, step: nat)
    ensures FrameEnd(None, Some(count), None) == Some(count) && FrameEnd(Some(start), None, Some(step)) == None
    ensures FrameEnd(Some(start), Some(count), None) == Some(start + count)
    ensures step > 0 ==> FrameEnd(Some(start), Some(count), Some(step)) == Some(start + count * step)
  {
  }

  /** A slice takes every step-th record from `start` on, until the records or the positions before `end` run out; the
      record at `start` is taken whatever `end` is. */
  lemma SliceIs<T>(data: seq<T>, start: nat, end: Option<int>, step: nat)
    requires step > 0
    ensures var r := Slice(data, start, end, step);
            var next := start + |r| * step;
            && (forall k | 0 <= k < |r| ::
                  && start + k * step < |data| && r[k] == data[start + k * step]
                  && (k > 0 && end.Some? ==> start + k * step < end.value))
            && (next >= |data| || (|r| > 0 && end.Some? && next >= end.value))
  {
    hide Strided, Steps, Read;
    var bound := Read(|data|, start, end);
    StridedAt(data, start, step, bound);
    var r := Slice(data, start, end, step);
    PastTheBound(|data|, start, end, start + |r| * step);
    forall k | 0 < k < |r| && end.Some? ensures start + k * step < end.value {
      Later(k, step);
      BeforeTheBound(|data|, start, end.value, start + k * step);
    }
    if |r| == 0 {
      NothingTaken(start, step, bound, |data|, end);
    }
  }

  lemma Later(k: nat, step: nat)
    requires k > 0 && step > 0
    ensures k * step >= 1
  {
    Times(k - 1, step);
    assert (k - 1) * step >= 0;
  }

  lemma BeforeTheBound(length: nat, start: nat, end: int, at: nat)
    requires start < at < Read(length, start, Some(end))
    ensures at < end
  {
  }

  lemma PastTheBound(length: nat, start: nat, end: Option<int>, at: nat)
    ensures at >= Read(length, start, end) ==> at >= length || (end.Some? && at >= end.value)
  {
  }

  lemma NothingTaken(start: nat, step: nat, bound: nat, length: nat, end: Option<int>)
    requires step > 0 && bound == Read(length, start, end) && Steps(start, step, bound) == 0
    ensures start >= length && 0 * step == 0
  {
  }

  /** How far the stream is read. */
  lemma ReadIs(length: nat, start: nat, end: int)
    ensures Read(length, start, None) == length
    ensures start < length && end <= start ==> Read(length, start, Some(end)) == start + 1
    ensures start < end <= length ==> Read(length, start, Some(end)) == end
    ensures end >= length || start >= length ==> Read(length, start, Some(end)) == length
  {
  }
}
