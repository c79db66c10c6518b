/** What `validate_value` (odps/types.py) promises: its results conform to the type at every depth, and
    conforming values are exactly those it returns unchanged. */
module ValueLaws {
  import opened Text
  import opened TypeStrings
  import opened Utf8
  import opened Values

  /** Integers, strings and sized strings, nested in arrays, maps and structs. */
  predicate Covered(t: Ty)
  {
    match t
    case Primitive(name) => Bounds(name).Some? || name == "string"
    case Varchar(_) | Char(_) => true
    case Array(elem) => Covered(elem)
    case Map(key, value) => Covered(key) && Covered(value)
    case Struct(fields) => DistinctNames(fields) && forall f | f in fields :: Covered(f.ty)
    case _ => false
  }

  // ----- conformance -----

  predicate StoredForm(v: Val, h: Host)
  {
    if h.asBinary then v.BytesV? else v.TextV?
  }

  /** The size in bytes, encoded where needed. */
  function TrueSize(v: Val): nat
  {
    match v
    case TextV(s) => |Encode(s)|
    case BytesV(b) => |b|
    case _ => 0
  }

  /** At most `limit` characters, or bytes of at most `limit` characters, or at most `limit` bytes of any kind. */
  predicate ShortEnough(v: Val, limit: int)
  {
    match v
    case TextV(s) => |s| <= limit
    case BytesV(b) => |b| <= limit || (Decode(b).Some? && |Decode(b).value| <= limit)
    case _ => false
  }

  predicate KeyForm(v: Val, name: string, h: Host)
  {
    v == StoredText(name, h) && |Encode(name)| <= STRING_LIMIT
  }

  predicate Conforms(v: Val, t: Ty, size: Option<nat>, h: Host)
    decreases t
  {
    v.Null? ||
    match t
    case Primitive(name) =>
      if Bounds(name).Some? then v.IntV? && InBounds(v.n, Bounds(name).value)
      else name == "string" && StoredForm(v, h) && TrueSize(v) <= Limit(size)
    case Varchar(limit) => StoredForm(v, h) && ShortEnough(v, limit)
    case Char(limit) => StoredForm(v, h) && ShortEnough(v, limit)
    case Array(elem) => v.ListV? && forall x | x in v.items :: Conforms(x, elem, None, h)
    case Map(key, value) =>
      && v.DictV? && DistinctKeys(v.entries)
      && forall e | e in v.entries ::
           Hashable(e.key) && Conforms(e.key, key, None, h) && Conforms(e.value, value, None, h)
    case Struct(fields) =>
      if h.structAsDict then
        && v.DictV? && |v.entries| == |fields|
        && forall i | 0 <= i < |fields| ::
             KeyForm(v.entries[i].key, fields[i].name, h) && Conforms(v.entries[i].value, fields[i].ty, None, h)
      else
        && v.RecordV? && v.names == h.rename(FieldNameList(fields)) && |v.items| == |fields|
        && forall i | 0 <= i < |fields| :: Conforms(v.items[i], fields[i].ty, None, h)
    case _ => false
  }

  // ----- dictionaries -----

  lemma {:induction false} InsertKeys(entries: seq<Entry>, e: Entry)
    ensures forall x | x in Insert(entries, e) :: x == e || x in entries
    ensures DistinctKeys(entries) ==> DistinctKeys(Insert(entries, e))
    ensures forall x | x in Insert(entries, e) :: x.key == e.key || exists y :: y in entries && y.key == x.key
    decreases |entries|
  {
    if entries != [] && entries[0].key != e.key {
      InsertKeys(entries[1..], e);
      var rest := Insert(entries[1..], e);
      if DistinctKeys(entries) {
        forall i, j | 0 <= i < j < |entries[1..]| ensures entries[1..][i].key != entries[1..][j].key {
          assert entries[1..][i] == entries[i + 1] && entries[1..][j] == entries[j + 1];
        }
        forall j | 0 <= j < |rest| ensures rest[j].key != entries[0].key {
          assert rest[j] in rest;
          if rest[j].key != e.key {
            var y :| y in entries[1..] && y.key == rest[j].key;
            var k :| 0 <= k < |entries[1..]| && entries[1..][k] == y;
            assert entries[k + 1].key == y.key;
          }
        }
      }
    }
  }

  lemma {:induction false} FromPairsIsDictionary(pairs: seq<Entry>)
    ensures DistinctKeys(FromPairs(pairs))
    ensures forall x | x in FromPairs(pairs) :: x in pairs
    decreases |pairs|
  {
    if pairs != [] {
      var before, last := pairs[..|pairs| - 1], pairs[|pairs| - 1];
      FromPairsIsDictionary(before);
      InsertKeys(FromPairs(before), last);
    }
  }

  lemma {:induction false} InsertNew(entries: seq<Entry>, e: Entry)
    requires forall x | x in entries :: x.key != e.key
    ensures Insert(entries, e) == entries + [e]
    decreases |entries|
  {
    if entries != [] {
      assert entries[0] in entries;
      InsertNew(entries[1..], e);
      assert entries == [entries[0]] + entries[1..];
    }
  }

  lemma {:induction false} DistinctPairsStay(pairs: seq<Entry>)
    requires DistinctKeys(pairs)
    ensures FromPairs(pairs) == pairs
    decreases |pairs|
  {
    if pairs != [] {
      var before, last := pairs[..|pairs| - 1], pairs[|pairs| - 1];
      DistinctPairsStay(before);
      InsertNew(before, last);
    }
  }

  lemma {:induction false} LookupFinds(entries: seq<Entry>, i: nat)
    requires i < |entries| && DistinctKeys(entries)
    ensures Lookup(entries, entries[i].key) == Some(entries[i].value)
    decreases i
  {
    if i > 0 {
      forall a, b | 0 <= a < b < |entries[1..]| ensures entries[1..][a].key != entries[1..][b].key {
        assert entries[1..][a] == entries[a + 1] && entries[1..][b] == entries[b + 1];
      }
      LookupFinds(entries[1..], i - 1);
      assert entries[0].key != entries[i].key;
    }
  }

  // ----- leaves -----

  lemma SizedResult(v: Val, limit: int, h: Host)
    ensures var r := ValidateSized(v, limit, h);
            r.Ok? ==> r.value.Null? || (StoredForm(r.value, h) && ShortEnough(r.value, limit))
  {
    hide Encode, Decode;
  }

  lemma SizedStays(v: Val, limit: int, h: Host)
    requires v.Null? || (StoredForm(v, h) && ShortEnough(v, limit))
    ensures ValidateSized(v, limit, h) == Ok(v)
  {
    hide Encode, Decode;
  }

  lemma ByteSizeAgrees(v: Val, limit: nat)
    ensures ByteSize(v, limit) <= limit <==> TrueSize(v) <= limit
  {
    hide Encode, CheckedSize;
    if v.TextV? {
      ShortcutAgrees(v.s, limit);
    }
  }

  lemma StringResult(v: Val, size: Option<nat>, h: Host)
    ensures var r := ValidateString(v, size, h);
            r.Ok? ==> r.value.Null? || (StoredForm(r.value, h) && TrueSize(r.value) <= Limit(size))
  {
    hide Encode, Decode, ByteSize, TrueSize;
    var r := ValidateString(v, size, h);
    if r.Ok? {
      ByteSizeAgrees(r.value, Limit(size));
    }
  }

  lemma StringStays(v: Val, size: Option<nat>, h: Host)
    requires v.Null? || (StoredForm(v, h) && TrueSize(v) <= Limit(size))
    ensures ValidateString(v, size, h) == Ok(v)
  {
    hide Encode, Decode, ByteSize, TrueSize;
    ByteSizeAgrees(v, Limit(size));
  }

  /** A field name as a dictionary key. */
  lemma KeyResult(name: string, h: Host)
    ensures var r := ValidateString(TextV(name), None, h);
            if |Encode(name)| <= STRING_LIMIT then r == Ok(StoredText(name, h)) else r == Raise(ValueError)
  {
    hide Encode, Decode, ByteSize;
    ByteSizeAgrees(StoredText(name, h), STRING_LIMIT);
  }

  // ----- results conform -----

  lemma {:induction false} ValidatedConforms(v: Val, t: Ty, size: Option<nat>, h: Host)
    requires Covered(t)
    ensures var r := Validate(v, t, size, h);
            r.Ok? ==> Conforms(r.value, t, size, h)
    decreases t, 1, 0
  {
    hide ValidateString, ValidateSized, ShortEnough, TrueSize, FromPairs;
    match t
    case Primitive(name) =>
      if Bounds(name).None? {
        StringResult(v, size, h);
      }
    case Varchar(limit) => SizedResult(v, limit, h);
    case Char(limit) => SizedResult(v, limit, h);
    case Array(elem) =>
      if v.ListV? {
        AllConform(v.items, elem, h);
      }
    case Map(key, value) =>
      if v.DictV? {
        EntriesConform(v.entries, t, h);
        var rs := ValidateEntries(v.entries, t, h);
        if rs.Ok? {
          MapConforms(rs.value, t, h);
        }
      }
    case Struct(fields) => StructConforms(v, fields, h);
    case _ =>
  }

  lemma {:induction false} AllConform(items: seq<Val>, t: Ty, h: Host)
    requires Covered(t)
    ensures var rs := ValidateAll(items, t, h);
            rs.Ok? ==> forall x | x in rs.value :: Conforms(x, t, None, h)
    decreases t, 2, |items|
  {
    hide Validate, Conforms;
    if items != [] {
      ValidatedConforms(items[0], t, None, h);
      AllConform(items[1..], t, h);
    }
  }

  predicate EntryOk(e: Entry, t: Ty, h: Host)
    requires t.Map?
  {
    Hashable(e.key) && Conforms(e.key, t.key, None, h) && Conforms(e.value, t.value, None, h)
  }

  lemma {:induction false} EntriesConform(entries: seq<Entry>, t: Ty, h: Host)
    requires t.Map? && Covered(t)
    ensures var rs := ValidateEntries(entries, t, h);
            rs.Ok? ==> forall e | e in rs.value :: EntryOk(e, t, h)
    decreases t, 0, |entries|
  {
    hide Validate, Conforms, Hashable;
    if entries != [] {
      ValidatedConforms(entries[0].key, t.key, None, h);
      ValidatedConforms(entries[0].value, t.value, None, h);
      EntriesConform(entries[1..], t, h);
    }
  }

  lemma MapConforms(pairs: seq<Entry>, t: Ty, h: Host)
    requires t.Map? && forall e | e in pairs :: EntryOk(e, t, h)
    ensures Conforms(DictV(FromPairs(pairs)), t, None, h)
  {
    hide FromPairs, Hashable;
    FromPairsIsDictionary(pairs);
    forall e | e in FromPairs(pairs)
      ensures Hashable(e.key) && Conforms(e.key, t.key, None, h) && Conforms(e.value, t.value, None, h)
    {
      assert EntryOk(e, t, h);
    }
  }

  lemma {:induction false} FieldsConform(items: seq<Val>, fields: seq<Field>, h: Host)
    requires forall f | f in fields :: Covered(f.ty)
    ensures var rs := ValidateFields(items, fields, h);
            rs.Ok? ==> forall i | 0 <= i < |rs.value| :: Conforms(rs.value[i], fields[i].ty, None, h)
    decreases fields, 1, |fields|
  {
    hide Validate, Conforms, Covered;
    if items != [] && fields != [] {
      ValidatedConforms(items[0], fields[0].ty, None, h);
      FieldsConform(items[1..], fields[1..], h);
      var rs := ValidateFields(items, fields, h);
      if rs.Ok? {
        forall i | 0 <= i < |rs.value| ensures Conforms(rs.value[i], fields[i].ty, None, h) {
          if i > 0 {
            var tail := ValidateFields(items[1..], fields[1..], h).value;
            assert rs.value[i] == tail[i - 1] && fields[i] == fields[1..][i - 1];
          }
        }
      }
    }
  }

  lemma {:induction false} KeyedConform(entries: seq<Entry>, fields: seq<Field>, h: Host)
    requires forall f | f in fields :: Covered(f.ty)
    ensures var rs := ValidateKeyed(entries, fields, h);
            rs.Ok? ==> forall i | 0 <= i < |fields| ::
                         && KeyForm(rs.value[i].key, fields[i].name, h)
                         && Conforms(rs.value[i].value, fields[i].ty, None, h)
    decreases fields, 1, |fields|
  {
    hide Validate, Conforms, Covered, ValidateString, Lookup;
    if fields != [] {
      KeyResult(fields[0].name, h);
      var x := Lookup(entries, TextV(fields[0].name));
      if x.Some? {
        ValidatedConforms(x.value, fields[0].ty, None, h);
      }
      KeyedConform(entries, fields[1..], h);
      var rs := ValidateKeyed(entries, fields, h);
      if rs.Ok? {
        forall i | 0 <= i < |fields|
          ensures KeyForm(rs.value[i].key, fields[i].name, h) && Conforms(rs.value[i].value, fields[i].ty, None, h)
        {
          if i > 0 {
            var tail := ValidateKeyed(entries, fields[1..], h).value;
            assert rs.value[i] == tail[i - 1] && fields[i] == fields[1..][i - 1];
          }
        }
      }
    }
  }

  lemma {:induction false} StructConforms(v: Val, fields: seq<Field>, h: Host)
    requires forall f | f in fields :: Covered(f.ty)
    ensures var r := ValidateStruct(v, fields, h);
            r.Ok? ==> Conforms(r.value, Struct(fields), None, h)
    decreases fields, 2, 0
  {
    hide Covered;
    if h.structAsDict {
      var entries := AsDict(v, fields);
      if entries.Ok? {
        KeyedConform(entries.value, fields, h);
      }
    } else {
      var items := AsItems(v, fields);
      if items.Ok? {
        FieldsConform(items.value, fields, h);
      }
    }
  }

  // ----- keys that raise -----

  predicate IsNested(t: Ty)
  {
    t.Array? || t.Map? || t.Struct?
  }

  /** Lists, dictionaries and records cannot be keys: only null conforms to a nested type and is hashable. */
  lemma NestedKeysAreNull(v: Val, t: Ty, h: Host)
    requires IsNested(t) && Conforms(v, t, None, h)
    ensures Hashable(v) <==> v.Null?
  {
  }

  /** A key of a nested type that is not null makes the whole map raise. */
  lemma {:induction false} NestedKeyRaises(entries: seq<Entry>, i: nat, t: Ty, h: Host)
    requires t.Map? && Covered(t) && IsNested(t.key) && i < |entries| && !entries[i].key.Null?
    ensures ValidateEntries(entries, t, h).Raise?
    decreases i
  {
    hide Conforms, Hashable;
    if i == 0 {
      var key := Validate(entries[0].key, t.key, None, h);
      ValidatedConforms(entries[0].key, t.key, None, h);
      if key.Ok? {
        OnlyNullGivesNull(entries[0].key, t.key, h);
        NestedKeysAreNull(key.value, t.key, h);
      }
    } else {
      NestedKeyRaises(entries[1..], i - 1, t, h);
    }
  }

  lemma OnlyNullGivesNull(v: Val, t: Ty, h: Host)
    requires IsNested(t) && !v.Null?
    ensures Validate(v, t, None, h) != Ok(Null)
  {
  }

  /** A map whose keys are arrays, maps or structs is accepted only with null keys, and with one entry whose
      key is not null, both parts valid, what is raised is a `TypeError`. */
  lemma NestedKeysRaise(entries: seq<Entry>, t: Ty, size: Option<nat>, h: Host)
    requires t.Map? && Covered(t) && IsNested(t.key)
    ensures Validate(DictV(entries), t, size, h).Ok? ==> forall e | e in entries :: e.key.Null?
    ensures |entries| == 1 && !entries[0].key.Null? && Validate(entries[0].key, t.key, None, h).Ok?
            && Validate(entries[0].value, t.value, None, h).Ok? ==>
              Validate(DictV(entries), t, size, h) == Raise(TypeError)
  {
    hide Conforms, Hashable;
    if e :| e in entries && !e.key.Null? {
      var i :| 0 <= i < |entries| && entries[i] == e;
      NestedKeyRaises(entries, i, t, h);
    }
    if |entries| == 1 && !entries[0].key.Null? && Validate(entries[0].key, t.key, None, h).Ok? {
      ValidatedConforms(entries[0].key, t.key, None, h);
      OnlyNullGivesNull(entries[0].key, t.key, h);
      NestedKeysAreNull(Validate(entries[0].key, t.key, None, h).value, t.key, h);
    }
  }

  // ----- conforming values stay -----

  /** A struct value with fields somewhere inside. */
  predicate HasRecord(v: Val, t: Ty)
    decreases t
  {
    match t
    case Array(elem) => v.ListV? && exists x :: x in v.items && HasRecord(x, elem)
    case Map(key, value) =>
      v.DictV? && exists e :: e in v.entries && (HasRecord(e.key, key) || HasRecord(e.value, value))
    case Struct(fields) => !v.Null? && fields != []
    case _ => false
  }

  /** With both options on, struct keys are stored as bytes but looked up as text. */
  predicate KeysAreLost(v: Val, t: Ty, h: Host)
  {
    h.asBinary && h.structAsDict && HasRecord(v, t)
  }

  lemma {:induction false} ConformingStays(v: Val, t: Ty, size: Option<nat>, h: Host)
    requires Covered(t) && Conforms(v, t, size, h) && !KeysAreLost(v, t, h)
    ensures Validate(v, t, size, h) == Ok(v)
    decreases t, 1, 0
  {
    hide ValidateString, ValidateSized, ShortEnough, TrueSize, FromPairs, ReadInt;
    match t
    case Primitive(name) =>
      if Bounds(name).None? {
        StringStays(v, size, h);
      }
    case Varchar(limit) => SizedStays(v, limit, h);
    case Char(limit) => SizedStays(v, limit, h);
    case Array(elem) =>
      if v.ListV? {
        AllStay(v.items, elem, h);
      }
    case Map(key, value) =>
      if v.DictV? {
        EntriesStay(v.entries, t, h);
        DistinctPairsStay(v.entries);
      }
    case Struct(fields) => StructStays(v, fields, h);
    case _ =>
  }

  lemma {:induction false} AllStay(items: seq<Val>, t: Ty, h: Host)
    requires Covered(t)
    requires forall x | x in items :: Conforms(x, t, None, h) && !KeysAreLost(x, t, h)
    ensures ValidateAll(items, t, h) == Ok(items)
    decreases t, 2, |items|
  {
    hide Validate, Conforms, HasRecord, Covered;
    if items != [] {
      ConformingStays(items[0], t, None, h);
      AllStay(items[1..], t, h);
      assert items == [items[0]] + items[1..];
    }
  }

  lemma {:induction false} EntriesStay(entries: seq<Entry>, t: Ty, h: Host)
    requires t.Map? && Covered(t)
    requires forall e | e in entries ::
               EntryOk(e, t, h) && !KeysAreLost(e.key, t.key, h) && !KeysAreLost(e.value, t.value, h)
    ensures ValidateEntries(entries, t, h) == Ok(entries)
    decreases t, 0, |entries|
  {
    hide Validate, Conforms, HasRecord, Hashable;
    if entries != [] {
      assert EntryOk(entries[0], t, h);
      ConformingStays(entries[0].key, t.key, None, h);
      ConformingStays(entries[0].value, t.value, None, h);
      EntriesStay(entries[1..], t, h);
      assert entries == [entries[0]] + entries[1..];
    }
  }

  lemma {:induction false} FieldsStay(items: seq<Val>, fields: seq<Field>, h: Host)
    requires (forall f | f in fields :: Covered(f.ty)) && |items| == |fields|
    requires forall i | 0 <= i < |fields| :: Conforms(items[i], fields[i].ty, None, h)
    requires !(h.asBinary && h.structAsDict)
    ensures ValidateFields(items, fields, h) == Ok(items)
    decreases fields, 1, |fields|
  {
    hide Validate, Conforms, Covered;
    if fields != [] {
      ConformingStays(items[0], fields[0].ty, None, h);
      forall i | 0 <= i < |fields[1..]| ensures Conforms(items[1..][i], fields[1..][i].ty, None, h) {
        assert items[1..][i] == items[i + 1] && fields[1..][i] == fields[i + 1];
      }
      FieldsStay(items[1..], fields[1..], h);
      assert items == [items[0]] + items[1..];
    }
  }

  predicate Keyed(entries: seq<Entry>, fields: seq<Field>, h: Host)
  {
    && |entries| == |fields|
    && forall i | 0 <= i < |fields| ::
         KeyForm(entries[i].key, fields[i].name, h) && Conforms(entries[i].value, fields[i].ty, None, h)
  }

  /** The fields from `k` on find their values among all entries. */
  lemma {:induction false} KeyedStay(entries: seq<Entry>, fields: seq<Field>, k: nat, h: Host)
    requires k <= |fields| && Keyed(entries, fields, h) && DistinctKeys(entries)
    requires forall f | f in fields :: Covered(f.ty)
    requires h.structAsDict && !h.asBinary
    ensures ValidateKeyed(entries, fields[k..], h) == Ok(entries[k..])
    decreases fields, 1, |fields| - k
  {
    hide Validate, Conforms, Covered, ValidateString, Lookup;
    if k < |fields| {
      KeyResult(fields[k].name, h);
      LookupFinds(entries, k);
      FieldStays(entries[k].value, fields, k, h);
      KeyedStay(entries, fields, k + 1, h);
      assert fields[k..][1..] == fields[k + 1..];
      assert entries[k..] == [entries[k]] + entries[k + 1..];
    }
  }

  lemma {:induction false} FieldStays(v: Val, fields: seq<Field>, k: nat, h: Host)
    requires k < |fields| && Covered(fields[k].ty) && Conforms(v, fields[k].ty, None, h) && !h.asBinary
    ensures Validate(v, fields[k].ty, None, h) == Ok(v)
    decreases fields, 0, 0
  {
    ConformingStays(v, fields[k].ty, None, h);
  }

  lemma {:induction false} StructStays(v: Val, fields: seq<Field>, h: Host)
    requires DistinctNames(fields) && forall f | f in fields :: Covered(f.ty)
    requires Conforms(v, Struct(fields), None, h) && !KeysAreLost(v, Struct(fields), h)
    ensures ValidateStruct(v, fields, h) == Ok(v)
    decreases fields, 2, 0
  {
    hide Covered, ValidateKeyed, ValidateFields;
    if !v.Null? {
      if h.structAsDict {
        if fields == [] {
          EmptyKeyed(v.entries, h);
        } else {
          KeyedAreDistinct(v.entries, fields, h);
          KeyedStay(v.entries, fields, 0, h);
          assert fields[0..] == fields && v.entries[0..] == v.entries;
        }
      } else {
        FieldsStay(v.items, fields, h);
      }
    }
  }

  lemma EmptyKeyed(entries: seq<Entry>, h: Host)
    ensures ValidateKeyed(entries, [], h) == Ok([])
  {
  }

  lemma KeyedAreDistinct(entries: seq<Entry>, fields: seq<Field>, h: Host)
    requires Keyed(entries, fields, h) && DistinctNames(fields) && !h.asBinary
    ensures DistinctKeys(entries)
  {
  }

  // ----- lost keys -----

  lemma {:induction false} LostKeysRaise(v: Val, t: Ty, size: Option<nat>, h: Host)
    requires Covered(t) && Conforms(v, t, size, h) && KeysAreLost(v, t, h)
    ensures Validate(v, t, size, h).Raise?
    decreases t, 1, 0
  {
    match t
    case Array(elem) =>
      var x :| x in v.items && HasRecord(x, elem);
      var i :| 0 <= i < |v.items| && v.items[i] == x;
      OneRaises(v.items, i, elem, h);
    case Map(key, value) =>
      var e :| e in v.entries && (HasRecord(e.key, key) || HasRecord(e.value, value));
      var i :| 0 <= i < |v.entries| && v.entries[i] == e;
      OneEntryRaises(v.entries, i, t, h);
    case Struct(fields) => LostKeysAreMissed(v.entries, fields, h);
    case _ =>
  }

  lemma {:induction false} OneRaises(items: seq<Val>, i: nat, t: Ty, h: Host)
    requires i < |items| && Covered(t) && Conforms(items[i], t, None, h) && KeysAreLost(items[i], t, h)
    ensures ValidateAll(items, t, h).Raise?
    decreases t, 2, i
  {
    hide Validate, Conforms, HasRecord, Covered;
    if i == 0 {
      LostKeysRaise(items[0], t, None, h);
    } else {
      OneRaises(items[1..], i - 1, t, h);
    }
  }

  lemma {:induction false} OneEntryRaises(entries: seq<Entry>, i: nat, t: Ty, h: Host)
    requires i < |entries| && t.Map? && Covered(t) && EntryOk(entries[i], t, h)
    requires KeysAreLost(entries[i].key, t.key, h) || KeysAreLost(entries[i].value, t.value, h)
    ensures ValidateEntries(entries, t, h).Raise?
    decreases t, 0, i
  {
    hide Validate, Conforms, HasRecord, Hashable;
    if i == 0 {
      if KeysAreLost(entries[0].key, t.key, h) {
        LostKeysRaise(entries[0].key, t.key, None, h);
      } else {
        LostKeysRaise(entries[0].value, t.value, None, h);
      }
    } else {
      OneEntryRaises(entries[1..], i - 1, t, h);
    }
  }

  lemma {:induction false} NoTextKey(entries: seq<Entry>, name: string)
    requires forall e | e in entries :: e.key.BytesV?
    ensures Lookup(entries, TextV(name)) == None
    decreases |entries|
  {
    if entries != [] {
      assert entries[0] in entries;
      NoTextKey(entries[1..], name);
    }
  }

  lemma LostKeysAreMissed(entries: seq<Entry>, fields: seq<Field>, h: Host)
    requires fields != [] && Keyed(entries, fields, h) && h.asBinary && h.structAsDict
    ensures ValidateStruct(DictV(entries), fields, h) == Raise(KeyError)
  {
    hide Conforms, Encode;
    forall e | e in entries ensures e.key.BytesV? {
      var i :| 0 <= i < |entries| && entries[i] == e;
      assert KeyForm(entries[i].key, fields[i].name, h);
    }
    assert KeyForm(entries[0].key, fields[0].name, h);
    NoTextKey(entries, fields[0].name);
    KeyResult(fields[0].name, h);
  }

  // ----- the laws -----

  /** A value is returned unchanged exactly when it conforms to the type and holds no struct whose keys are lost. */
  lemma UnchangedIff(v: Val, t: Ty, size: Option<nat>, h: Host)
    requires Covered(t)
    ensures Validate(v, t, size, h) == Ok(v) <==> Conforms(v, t, size, h) && !KeysAreLost(v, t, h)
  {
    ValidatedConforms(v, t, size, h);
    if Conforms(v, t, size, h) {
      if KeysAreLost(v, t, h) {
        LostKeysRaise(v, t, size, h);
      } else {
        ConformingStays(v, t, size, h);
      }
    }
  }

  /** Validating a result again returns it, unless the two options lose its struct keys. */
  lemma ValidatedAgainIff(v: Val, t: Ty, size: Option<nat>, h: Host)
    requires Covered(t) && Validate(v, t, size, h).Ok?
    ensures var r := Validate(v, t, size, h).value;
            Validate(r, t, size, h) == Ok(r) <==> !KeysAreLost(r, t, h)
  {
    ValidatedConforms(v, t, size, h);
    UnchangedIff(Validate(v, t, size, h).value, t, size, h);
  }
}
