/** The loops of `parse_complex_value` and its helpers (odps/readers.py). */
module ComplexReader {
  import opened Text
  import opened TypeStrings
  import opened Values
  import opened DepthSplit
  import opened ComplexValues

  /** A result behind what is already collected. */
  function Behind<T>(done: seq<T>, r: Outcome<seq<T>>): Outcome<seq<T>>
  {
    match r
    case Raise(e) => Raise(e)
    case Ok(rest) => Ok(done + rest)
  }

  lemma BehindStep<T>(done: seq<T>, x: T, r: Outcome<seq<T>>)
    ensures Behind(done, Behind([x], r)) == Behind(done + [x], r)
  {
    if r.Ok? {
      assert done + ([x] + r.value) == done + [x] + r.value;
    }
  }

  lemma BehindNothing<T>(r: Outcome<seq<T>>)
    ensures Behind([], r) == r
  {
    if r.Ok? {
      assert [] + r.value == r.value;
    }
  }

  lemma BehindEnd<T>(done: seq<T>)
    ensures Behind(done, Ok([])) == Ok(done)
  {
    assert done + [] == done;
  }

  method ParseComplexValue(valueStr: string, t: Ty, k: Casts) returns (r: Outcome<Val>)
    ensures r == ParseComplex(valueStr, t, k)
    decreases t, 2
  {
    match t
    case Array(_) => r := ParseArray(valueStr, t, k);
    case Map(_, _) => r := ParseMap(valueStr, t, k);
    case Struct(_) => r := ParseStruct(valueStr, t, k);
    case Vector(_, _) => r := k.vector(valueStr, t);
    case _ => r := Raise(ValueError);
  }

  /** An element, an entry's value or a field: null, composite or primitive. */
  method ParseValue(part: string, t: Ty, k: Casts) returns (r: Outcome<Val>)
    ensures r == ParseElement(part, t, k)
    decreases t, 3
  {
    if part == NULL_TOKEN {
      r := Ok(Null);
    } else if IsComposite(t) {
      r := ParseComplexValue(part, t, k);
    } else {
      r := Cast(part, t, k);
    }
  }

  method ParseArray(valueStr: string, t: Ty, k: Casts) returns (r: Outcome<Val>)
    requires t.Array?
    ensures r == ParseComplex(valueStr, t, k)
    decreases t, 1
  {
    hide ParseElement, Split;
    if !Bracketed(valueStr, '[', ']') {
      return Raise(ValueError);
    }
    var inner := Inside(valueStr);
    if inner == "" {
      return Ok(ListV([]));
    }
    var parts := SplitAtDepth(inner, ',', None);
    var items: seq<Val> := [];
    ghost var all := ParseItems(parts, t.elem, k);
    assert parts[0..] == parts;
    BehindNothing(all);
    for i := 0 to |parts|
      invariant all == Behind(items, ParseItems(parts[i..], t.elem, k))
    {
      ghost var rest := ParseItems(parts[i + 1..], t.elem, k);
      assert parts[i..][1..] == parts[i + 1..];
      var part := Strip(parts[i]);
      var value := ParseValue(part, t.elem, k);
      if value.Raise? {
        return Raise(value.error);
      }
      BehindStep(items, value.value, rest);
      items := items + [value.value];
    }
    BehindEnd(items);
    return Ok(ListV(items));
  }

  method ParseMap(valueStr: string, t: Ty, k: Casts) returns (r: Outcome<Val>)
    requires t.Map?
    ensures r == ParseComplex(valueStr, t, k)
    decreases t, 1
  {
    hide ParseElement, ParseKey, Split;
    if !Bracketed(valueStr, '{', '}') {
      return Raise(ValueError);
    }
    var inner := Inside(valueStr);
    if inner == "" {
      return Ok(DictV([]));
    }
    var parts := SplitAtDepth(inner, ',', None);
    var items: seq<Entry> := [];
    ghost var all := ParseEntries(parts, t, k);
    assert parts[0..] == parts;
    BehindNothing(all);
    for i := 0 to |parts|
      invariant all == Behind(items, ParseEntries(parts[i..], t, k))
    {
      ghost var rest := ParseEntries(parts[i + 1..], t, k);
      assert parts[i..][1..] == parts[i + 1..];
      var entry := Strip(parts[i]);
      var kvParts := SplitAtDepth(entry, ':', Some(1));
      if |kvParts| != 2 {
        return Raise(ValueError);
      }
      var key := ParseMapKey(Strip(kvParts[0]), t, k);
      if key.Raise? {
        return Raise(key.error);
      }
      var value := ParseValue(Strip(kvParts[1]), t.value, k);
      if value.Raise? {
        return Raise(value.error);
      }
      BehindStep(items, Entry(key.value, value.value), rest);
      items := items + [Entry(key.value, value.value)];
    }
    BehindEnd(items);
    return Dictionary(items);
  }

  method ParseMapKey(part: string, t: Ty, k: Casts) returns (r: Outcome<Val>)
    requires t.Map?
    ensures r == ParseKey(part, t.key, k)
    decreases t, 0
  {
    if IsComposite(t.key) {
      r := ParseComplexValue(part, t.key, k);
    } else {
      r := Cast(part, t.key, k);
    }
  }

  method ParseStruct(valueStr: string, t: Ty, k: Casts) returns (r: Outcome<Val>)
    requires t.Struct?
    ensures r == ParseComplex(valueStr, t, k)
    decreases t, 1
  {
    hide ParseElement, Split;
    var fields := t.fields;
    if !Bracketed(valueStr, '{', '}') {
      return Raise(ValueError);
    }
    var inner := Inside(valueStr);
    if inner == "" {
      return Ok(Record(fields, seq(|fields|, i => Null), k.host));
    }
    var values: seq<Val> := [];
    var parts := SplitAtDepth(inner, ',', None);
    ghost var all := ParseFields(parts, fields, k);
    assert parts[0..] == parts && fields[0..] == fields;
    BehindNothing(all);
    for i := 0 to |parts|
      invariant i <= |fields|
      invariant |values| == i
      invariant all == Behind(values, ParseFields(parts[i..], fields[i..], k))
    {
      assert parts[i..][1..] == parts[i + 1..];
      var part := Strip(parts[i]);
      var fvParts := SplitAtDepth(part, ':', Some(1));
      var text := if |fvParts| == 2 then Strip(fvParts[1]) else part;
      if i == |fields| {
        return Raise(StopIteration);
      }
      assert fields[i..][1..] == fields[i + 1..];
      ghost var rest := ParseFields(parts[i + 1..], fields[i + 1..], k);
      var value := ParseValue(text, fields[i].ty, k);
      if value.Raise? {
        return Raise(value.error);
      }
      BehindStep(values, value.value, rest);
      values := values + [value.value];
    }
    BehindEnd(values);
    if |values| < |fields| && !k.host.structAsDict {
      return Raise(TypeError);
    }
    return Ok(Record(fields, values, k.host));
  }
}
