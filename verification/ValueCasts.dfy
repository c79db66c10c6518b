/** What `validate_value` (odps/types.py) makes of values in another form: numbers as text, text as bytes,
    structs as dictionaries. */
module ValueCasts {
  import opened Text
  import opened TypeStrings
  import opened Utf8
  import opened Values
  import opened ValueLaws

  /** A number becomes its text as a string, and that text becomes the number again as an integer that holds it. */
  lemma NumbersThroughText(n: int, name: string, h: Host)
    requires Bounds(name).Some? && !h.asBinary
    ensures Validate(IntV(n), Primitive("string"), None, h)
         == if |Encode(IntText(n))| <= STRING_LIMIT then Ok(TextV(IntText(n))) else Raise(ValueError)
    ensures Validate(TextV(IntText(n)), Primitive(name), None, h)
         == if InBounds(n, Bounds(name).value) then Ok(IntV(n)) else Raise(ValueError)
  {
    hide IntText, ReadInt, Encode, ByteSize;
    ReadIntText(n);
    ByteSizeAgrees(TextV(IntText(n)), STRING_LIMIT);
  }

  /** A text and its bytes are the same string. */
  lemma TextThroughBytes(s: string, size: Option<nat>, h: Host)
    ensures ValidateString(BytesV(Encode(s)), size, h) == ValidateString(TextV(s), size, h)
  {
    hide Encode, Decode, ByteSize;
    EncodedDecodes(s);
  }

  lemma {:induction false} ZipAt(names: seq<string>, items: seq<Val>, i: nat)
    requires |names| == |items| && i < |names|
    ensures |Zip(names, items)| == |names| && Zip(names, items)[i] == Entry(TextV(names[i]), items[i])
    decreases |names|
  {
    if i > 0 {
      ZipAt(names[1..], items[1..], i - 1);
    } else if |names| > 1 {
      ZipAt(names[1..], items[1..], 0);
    }
  }

  lemma ZipIsDistinct(fields: seq<Field>, items: seq<Val>)
    requires |fields| == |items| && DistinctNames(fields)
    ensures DistinctKeys(Zip(FieldNameList(fields), items))
  {
    var names := FieldNameList(fields);
    var entries := Zip(names, items);
    forall i, j | 0 <= i < j < |entries| ensures entries[i].key != entries[j].key {
      ZipLength(names, items);
      ZipAt(names, items, i);
      ZipAt(names, items, j);
    }
  }

  lemma {:induction false} ZipLength(names: seq<string>, items: seq<Val>)
    ensures |Zip(names, items)| == if |names| < |items| then |names| else |items|
    decreases |names|
  {
    if names != [] && items != [] {
      ZipLength(names[1..], items[1..]);
    }
  }

  /** The fields from `k` on gather the items from `k` on. */
  lemma {:induction false} GatheredBack(fields: seq<Field>, items: seq<Val>, k: nat)
    requires |fields| == |items| && DistinctNames(fields) && k <= |fields|
    ensures Gathered(Zip(FieldNameList(fields), items), fields[k..]) == items[k..]
    decreases |fields| - k
  {
    hide Lookup, Zip;
    if k < |fields| {
      var names := FieldNameList(fields);
      ZipIsDistinct(fields, items);
      ZipAt(names, items, k);
      LookupFinds(Zip(names, items), k);
      GatheredBack(fields, items, k + 1);
      assert fields[k..][1..] == fields[k + 1..];
      assert items[k..] == [items[k]] + items[k + 1..];
    }
  }

  /** A tuple and the dictionary of its values by field name give the same struct. */
  lemma TupleAsDict(items: seq<Val>, fields: seq<Field>, size: Option<nat>, h: Host)
    requires |fields| == |items| && DistinctNames(fields)
    ensures Validate(DictV(Zip(FieldNameList(fields), items)), Struct(fields), size, h)
         == Validate(TupleV([], items), Struct(fields), size, h)
  {
    hide ValidateFields, ValidateKeyed, Zip, FromPairs, Gathered;
    ZipIsDistinct(fields, items);
    DistinctPairsStay(Zip(FieldNameList(fields), items));
    GatheredBack(fields, items, 0);
    assert fields[0..] == fields && items[0..] == items;
  }

  // ----- structs from dictionaries -----

  predicate HasKey(entries: seq<Entry>, name: string)
  {
    exists e :: e in entries && e.key == TextV(name)
  }

  lemma {:induction false} LookupByName(entries: seq<Entry>, name: string)
    ensures Lookup(entries, TextV(name)).Some? <==> HasKey(entries, name)
    ensures DistinctKeys(entries) ==>
              forall e | e in entries && e.key == TextV(name) :: Lookup(entries, TextV(name)) == Some(e.value)
    decreases |entries|
  {
    if entries != [] {
      LookupByName(entries[1..], name);
      assert entries == [entries[0]] + entries[1..];
      if DistinctKeys(entries) {
        forall i, j | 0 <= i < j < |entries[1..]| ensures entries[1..][i].key != entries[1..][j].key {
          assert entries[1..][i] == entries[i + 1] && entries[1..][j] == entries[j + 1];
        }
        forall e | e in entries[1..] ensures e.key != entries[0].key {
          var i :| 0 <= i < |entries[1..]| && entries[1..][i] == e;
          assert entries[i + 1] == e;
        }
      }
    }
  }

  /** A field gets the value under its name, or null when there is none. */
  lemma {:induction false} GatheredByName(entries: seq<Entry>, fields: seq<Field>, i: nat)
    requires i < |fields|
    ensures !HasKey(entries, fields[i].name) ==> Gathered(entries, fields)[i] == Null
    ensures DistinctKeys(entries) ==>
              forall e | e in entries && e.key == TextV(fields[i].name) :: Gathered(entries, fields)[i] == e.value
    decreases i
  {
    hide Lookup, HasKey;
    LookupByName(entries, fields[0].name);
    if i > 0 {
      GatheredByName(entries, fields[1..], i - 1);
    }
  }

  lemma {:induction false} FieldIsValidated(items: seq<Val>, fields: seq<Field>, i: nat, h: Host)
    requires ValidateFields(items, fields, h).Ok? && i < |items| && i < |fields|
    ensures Validate(items[i], fields[i].ty, None, h) == Ok(ValidateFields(items, fields, h).value[i])
    decreases i
  {
    hide Validate;
    if i > 0 {
      FieldIsValidated(items[1..], fields[1..], i - 1, h);
    }
  }

  lemma NullStays(t: Ty, h: Host)
    requires Covered(t)
    ensures Validate(Null, t, None, h) == Ok(Null)
  {
  }

  /** A dictionary becomes a record field by field: the validated value under each name, null where there is none. */
  lemma RecordByName(entries: seq<Entry>, fields: seq<Field>, i: nat, size: Option<nat>, h: Host)
    requires !h.structAsDict && DistinctKeys(entries) && Covered(Struct(fields)) && i < |fields|
    requires Validate(DictV(entries), Struct(fields), size, h).Ok?
    ensures var r := Validate(DictV(entries), Struct(fields), size, h).value;
            && r.RecordV? && |r.items| == |fields|
            && (!HasKey(entries, fields[i].name) ==> r.items[i] == Null)
            && forall e | e in entries && e.key == TextV(fields[i].name) ::
                 Validate(e.value, fields[i].ty, None, h) == Ok(r.items[i])
  {
    hide ValidateFields, Gathered, HasKey, DistinctKeys;
    GatheredByName(entries, fields, i);
    FieldIsValidated(Gathered(entries, fields), fields, i, h);
    assert fields[i] in fields;
    NullStays(fields[i].ty, h);
  }

  /** With `struct_as_dict` a missing key raises. */
  lemma {:induction false} MissingKeyRaises(entries: seq<Entry>, fields: seq<Field>, i: nat, h: Host)
    requires i < |fields| && !HasKey(entries, fields[i].name)
    ensures ValidateKeyed(entries, fields, h).Raise?
    decreases i
  {
    hide Lookup, HasKey, ValidateString, Validate;
    LookupByName(entries, fields[0].name);
    if i > 0 {
      MissingKeyRaises(entries, fields[1..], i - 1, h);
    }
  }

  // ----- dictionaries from pairs -----

  lemma {:induction false} InsertSets(entries: seq<Entry>, e: Entry, key: Val)
    ensures Lookup(Insert(entries, e), key) == if key == e.key then Some(e.value) else Lookup(entries, key)
    decreases |entries|
  {
    if entries != [] && entries[0].key != e.key {
      InsertSets(entries[1..], e, key);
      var r := Insert(entries, e);
      assert r[0] == entries[0] && r[1..] == Insert(entries[1..], e);
    } else if entries != [] {
      assert Insert(entries, e)[1..] == entries[1..];
    }
  }

  /** Of several pairs with one key the last decides. */
  lemma {:induction false} LastPairWins(pairs: seq<Entry>, i: nat)
    requires i < |pairs| && forall j | i < j < |pairs| :: pairs[j].key != pairs[i].key
    ensures Lookup(FromPairs(pairs), pairs[i].key) == Some(pairs[i].value)
    decreases |pairs|
  {
    hide Insert;
    var front, last := pairs[..|pairs| - 1], pairs[|pairs| - 1];
    InsertSets(FromPairs(front), last, pairs[i].key);
    if i < |pairs| - 1 {
      LastPairWins(front, i);
    }
  }

  // ----- integer types -----

  function Pow2(n: nat): nat
  {
    if n == 0 then 1 else 2 * Pow2(n - 1)
  }

  /** The bits of an integer type. */
  predicate HasBits(name: string, bits: nat)
  {
    (name, bits) in {("tinyint", 8), ("smallint", 16), ("int", 32), ("bigint", 64)}
  }

  lemma {:induction false} Pow2Sum(a: nat, b: nat)
    ensures Pow2(a + b) == Pow2(a) * Pow2(b)
    decreases a
  {
    if a > 0 {
      Pow2Sum(a - 1, b);
      assert Pow2(a) * Pow2(b) == 2 * (Pow2(a - 1) * Pow2(b));
    }
  }

  lemma Powers()
    ensures Pow2(7) == 128 && Pow2(15) == 32768 && Pow2(31) == 2147483648 && Pow2(63) == 9223372036854775808
  {
    assert Pow2(7) == 128;
    Pow2Sum(7, 8);
    assert Pow2(8) == 256;
    assert Pow2(15) == 128 * 256;
    Pow2Sum(15, 16);
    Pow2Sum(8, 8);
    assert Pow2(16) == 65536 && Pow2(31) == 32768 * 65536;
    Pow2Sum(31, 32);
    Pow2Sum(16, 16);
    assert Pow2(32) == 65536 * 65536 && Pow2(63) == 2147483648 * 4294967296;
  }

  /** An integer type takes exactly the integers of its width. */
  lemma IntegersByWidth(n: int, name: string, bits: nat, h: Host)
    requires HasBits(name, bits)
    ensures Validate(IntV(n), Primitive(name), None, h)
         == if -(Pow2(bits - 1) as int) <= n < Pow2(bits - 1) then Ok(IntV(n)) else Raise(ValueError)
  {
    hide Pow2;
    Powers();
  }

  /** A string is taken up to its size in bytes: eight megabytes, or the size asked for unless that is zero. */
  lemma StringsBySize(s: string, size: Option<nat>, h: Host)
    requires !h.asBinary
    ensures Validate(TextV(s), Primitive("string"), size, h)
         == if |Encode(s)| <= (if size in {None, Some(0)} then 8388608 else size.value) then Ok(TextV(s))
            else Raise(ValueError)
  {
    hide Encode, ByteSize;
    ByteSizeAgrees(TextV(s), Limit(size));
  }

  /** A sized string counts characters. */
  lemma SizedByLength(s: string, limit: int, h: Host)
    requires !h.asBinary
    ensures Validate(TextV(s), Varchar(limit), None, h) == if |s| <= limit then Ok(TextV(s)) else Raise(ValueError)
    ensures Validate(TextV(s), Char(limit), None, h) == Validate(TextV(s), Varchar(limit), None, h)
  {
  }

  // ----- values that do not fit -----

  /** How many items a container has. */
  function Count(v: Val): Option<nat>
  {
    match v
    case ListV(items) => Some(|items|)
    case DictV(entries) => Some(|entries|)
    case TupleV(_, items) => Some(|items|)
    case RecordV(_, items) => Some(|items|)
    case _ => None
  }

  /** A sized string first counts the items of a container, and takes the text of one that is short enough; a number has
      no length. */
  lemma SizedContainers(v: Val, limit: int, h: Host)
    ensures v.IntV? ==> ValidateSized(v, limit, h) == Raise(TypeError)
    ensures Count(v).Some? ==>
              ValidateSized(v, limit, h)
              == if Count(v).value > limit then Raise(ValueError) else ValidateSized(StoredText(h.show(v), h), limit, h)
  {
    hide Encode, Decode;
    EncodedDecodes(h.show(v));
  }

  /** A text or bytes of a text that is too long is a `ValueError`, and so are bytes that are none. */
  lemma SizedFails(v: Val, limit: int, h: Host)
    requires v.TextV? || v.BytesV?
    ensures ValidateSized(v, limit, h).Raise? ==> ValidateSized(v, limit, h).error == ValueError
    ensures v.TextV? && |v.s| > limit ==> ValidateSized(v, limit, h) == Raise(ValueError)
    ensures v.BytesV? && |v.b| > limit && (Decode(v.b) == None || |Decode(v.b).value| > limit) ==>
              ValidateSized(v, limit, h) == Raise(ValueError)
  {
    hide Encode, Decode;
  }

  /** Only lists are arrays, only dictionaries are maps, and only tuples, records and dictionaries are structs. */
  lemma OtherShapesFail(v: Val, t: Ty, size: Option<nat>, h: Host)
    requires !v.Null?
    ensures t.Array? && !v.ListV? ==> Validate(v, t, size, h) == Raise(ValueError)
    ensures t.Map? && !v.DictV? ==> Validate(v, t, size, h) == Raise(ValueError)
    ensures t.Struct? && !v.TupleV? && !v.RecordV? && !v.DictV? ==> Validate(v, t, size, h) == Raise(ValueError)
  {
  }

  lemma {:induction false} FieldsPrefix(items: seq<Val>, fields: seq<Field>, h: Host)
    ensures ValidateFields(items, fields, h)
         == ValidateFields(items[..if |items| < |fields| then |items| else |fields|], fields, h)
    decreases |items|
  {
    hide Validate;
    var n := if |items| < |fields| then |items| else |fields|;
    if items != [] && fields != [] {
      FieldsPrefix(items[1..], fields[1..], h);
      assert items[..n][1..] == items[1..][..n - 1];
    } else if n == |items| {
      assert items[..n] == items;
    }
  }

  /** A tuple with too few items for a record is a `TypeError` once its items are valid; items beyond the fields are
      ignored. */
  lemma TupleLength(items: seq<Val>, fields: seq<Field>, size: Option<nat>, h: Host)
    requires !h.structAsDict
    ensures |items| < |fields| && ValidateFields(items, fields, h).Ok? ==>
              Validate(TupleV([], items), Struct(fields), size, h) == Raise(TypeError)
    ensures |items| >= |fields| ==>
              Validate(TupleV([], items), Struct(fields), size, h)
              == Validate(TupleV([], items[..|fields|]), Struct(fields), size, h)
  {
    hide ValidateFields;
    FieldsPrefix(items, fields, h);
  }

  /** With `struct_as_dict` a named tuple counts as the dictionary of its own names. */
  lemma NamedTupleAsDict(names: seq<string>, items: seq<Val>, fields: seq<Field>, size: Option<nat>, h: Host)
    requires h.structAsDict && names != [] && |names| == |items| && Distinct(names)
    ensures Validate(TupleV(names, items), Struct(fields), size, h)
         == Validate(DictV(Zip(names, items)), Struct(fields), size, h)
  {
    hide ValidateKeyed, Zip, FromPairs;
    var entries := Zip(names, items);
    ZipLength(names, items);
    forall i, j | 0 <= i < j < |entries| ensures entries[i].key != entries[j].key {
      ZipAt(names, items, i);
      ZipAt(names, items, j);
    }
    DistinctPairsStay(entries);
  }

  /** Types that are neither integers, strings, sized strings nor nested are decided outside. */
  lemma OtherTypesAreForeign(v: Val, name: string, size: Option<nat>, h: Host)
    requires name !in {"tinyint", "smallint", "int", "bigint", "string"}
    ensures Validate(v, Primitive(name), size, h) == h.foreign(v, Primitive(name))
  {
  }
}
