/** Printed values are read back by `parse_complex_value` (odps/readers.py). */
module ComplexRoundTrip {
  import opened Text
  import opened TypeStrings
  import opened Utf8
  import opened Values
  import opened ValueLaws
  import opened DepthSplit
  import opened ComplexValues
  import opened ComplexWriting
  import opened ComplexMeaning

  // ----- quoted strings -----

  /** A backslash before every double quote. */
  function Escape(s: string): string
  {
    if s == "" then "" else (if s[0] == '"' then "\\\"" else [s[0]]) + Escape(s[1..])
  }

  function Quote(s: string): string
  {
    "\"" + Escape(s) + "\""
  }

  /** Backslashes come in pairs before a double quote and before the end. */
  predicate Closed(s: string, escape: bool)
  {
    if s == "" then !escape
    else if s[0] == '"' then !escape && Closed(s[1..], false)
    else Closed(s[1..], s[0] == '\\' && !escape)
  }

  predicate HasEscaped(s: string, quote: char)
  {
    exists i :: 0 < i < |s| && s[i] == quote && s[i - 1] == '\\'
  }

  predicate Readable(s: string)
  {
    Closed(s, false) && !HasEscaped(s, '\'')
  }

  lemma {:induction false} ClosedIsScanned(s: string, escape: bool)
    requires Closed(s, escape)
    ensures Scanned(Escape(s) + "\"", Some('"'), escape)
    decreases |s|
  {
    var x := Escape(s) + "\"";
    if s == "" {
      assert x == "\"" && x[1..] == "";
    } else if s[0] == '"' {
      ClosedIsScanned(s[1..], false);
      assert x[0] == '\\' && x[1] == '"' && x[1..][1..] == Escape(s[1..]) + "\"";
      assert x[1..][0] == '"';
    } else {
      ClosedIsScanned(s[1..], s[0] == '\\' && !escape);
      assert x[0] == s[0] && x[1..] == Escape(s[1..]) + "\"";
    }
  }

  lemma QuotedIsLeafText(s: string)
    requires Closed(s, false)
    ensures IsLeafText(Quote(s))
  {
    var x := Quote(s);
    ClosedIsScanned(s, false);
    assert x[0] == '"' && x[1..] == Escape(s) + "\"";
  }

  /** Without a backslash in it a string is readable. */
  lemma {:induction false} PlainIsReadable(s: string)
    requires '\\' !in s
    ensures Readable(s)
    decreases |s|
  {
    if s != "" {
      PlainIsReadable(s[1..]);
      assert s[0] in s;
    }
  }

  lemma {:induction false} UnescapeInverts(s: string)
    ensures Unescape(Escape(s), '"') == s
    decreases |s|
  {
    if s != "" {
      UnescapeInverts(s[1..]);
      var x, rest := Escape(s), Escape(s[1..]);
      assert s == [s[0]] + s[1..];
      if s[0] == '"' {
        assert x[0] == '\\' && x[1] == '"' && x[2..] == rest;
      } else {
        assert x[0] == s[0] && x[1..] == rest;
        NoBareQuote(s[1..]);
      }
    }
  }

  lemma NoBareQuote(s: string)
    ensures Escape(s) != "" ==> Escape(s)[0] != '"'
  {
  }

  lemma {:induction false} UnescapeNothing(s: string, quote: char)
    requires !HasEscaped(s, quote)
    ensures Unescape(s, quote) == s
    decreases |s|
  {
    if |s| >= 2 {
      assert s[1] == quote ==> s[0] != '\\';
      forall i | 0 < i < |s[1..]| ensures !(s[1..][i] == quote && s[1..][i - 1] == '\\') {
        assert s[1..][i] == s[i + 1] && s[1..][i - 1] == s[i];
      }
      UnescapeNothing(s[1..], quote);
      assert s == [s[0]] + s[1..];
    }
  }

  lemma {:induction false} UnescapeShortens(s: string, quote: char, i: nat)
    requires 0 < i < |s| && s[i] == quote && s[i - 1] == '\\' && quote != '\\'
    ensures |Unescape(s, quote)| < |s|
    decreases |s|
  {
    if !(s[0] == '\\' && s[1] == quote) {
      assert i > 1;
      UnescapeShortens(s[1..], quote, i - 1);
    }
  }

  /** A quoted string is unquoted to itself exactly when no apostrophe in it follows a backslash. */
  lemma UnquoteInvertsIff(s: string)
    ensures Unquote(Quote(s)) == s <==> !HasEscaped(s, '\'')
  {
    hide Unescape, Escape;
    var x := Quote(s);
    assert x[1..|x| - 1] == Escape(s);
    UnescapeInverts(s);
    if HasEscaped(s, '\'') {
      var i :| 0 < i < |s| && s[i] == '\'' && s[i - 1] == '\\';
      UnescapeShortens(s, '\'', i);
    } else {
      UnescapeNothing(s, '\'');
    }
  }

  // ----- numbers -----

  lemma {:induction false} DigitsAreScanned(s: string)
    requires forall c | c in s :: c == '-' || IsDigit(c)
    ensures Scanned(s, None, false) && '\\' !in s
    decreases |s|
  {
    if s != "" {
      assert s[0] in s;
      DigitsAreScanned(s[1..]);
      assert s == [s[0]] + s[1..];
    }
  }

  lemma NumberIsLeafText(n: int)
    ensures IsLeafText(IntText(n)) && Unquote(IntText(n)) == IntText(n) && IntText(n) != NULL_TOKEN
  {
    hide IntText, Unescape, Scanned;
    var s := IntText(n);
    DigitsAreScanned(s);
    TightIntText(n);
    assert s[0] in s && s[|s| - 1] in s;
    UnescapeNothing(s, '"');
    UnescapeNothing(s, '\'');
    assert NULL_TOKEN[0] == '\\';
  }

  // ----- printed values -----

  /** A value as the service writes it: quoted strings, labelled struct fields, no blanks. */
  function Written(v: Val, t: Ty): Writing
    decreases t, 3, 0
  {
    match v
    case Null => Leaf(NULL_TOKEN)
    case IntV(n) => Leaf(IntText(n))
    case TextV(s) => Leaf(Quote(s))
    case ListV(items) => Group(true, if t.Array? then ItemMembers(items, t.elem) else [], "")
    case DictV(entries) =>
      Group(false,
            if t.Map? then EntryMembers(entries, t)
            else if t.Struct? then FieldMembers(ValuesOf(entries), t.fields)
            else [], "")
    case RecordV(_, items) => Group(false, if t.Struct? then FieldMembers(items, t.fields) else [], "")
    case _ => Leaf("")
  }

  function ValuesOf(entries: seq<Entry>): (r: seq<Val>)
    ensures |r| == |entries| && forall i | 0 <= i < |r| :: r[i] == entries[i].value
  {
    seq(|entries|, i requires 0 <= i < |entries| => entries[i].value)
  }

  function Bare(w: Writing): Slot
  {
    Slot("", w, "")
  }

  function ItemMembers(items: seq<Val>, t: Ty): (r: seq<Member>)
    ensures |r| == |items|
    decreases t, 4, |items|
  {
    if items == [] then [] else [Member(None, Bare(Written(items[0], t)))] + ItemMembers(items[1..], t)
  }

  function EntryMembers(entries: seq<Entry>, t: Ty): (r: seq<Member>)
    requires t.Map?
    ensures |r| == |entries|
    decreases t, 0, |entries|
  {
    if entries == [] then []
    else
      [Member(Some(Bare(Written(entries[0].key, t.key))), Bare(Written(entries[0].value, t.value)))]
      + EntryMembers(entries[1..], t)
  }

  function FieldMembers(items: seq<Val>, fields: seq<Field>): (r: seq<Member>)
    ensures |r| == if |items| < |fields| then |items| else |fields|
    decreases fields, 1, |items|
  {
    if items == [] || fields == [] then []
    else
      [Member(Some(Bare(Leaf(Quote(fields[0].name)))), Bare(Written(items[0], fields[0].ty)))]
      + FieldMembers(items[1..], fields[1..])
  }

  /** The values to which the round trip applies: they have the type, no key is null, and their strings
      and their field names are readable. */
  predicate Printable(v: Val, t: Ty, h: Host)
    decreases t, 0
  {
    match t
    case Primitive(name) =>
      if Bounds(name).Some? then v.IntV? && InBounds(v.n, Bounds(name).value)
      else name == "string" && v.TextV? && Readable(v.s) && |Encode(v.s)| <= STRING_LIMIT
    case Varchar(limit) => v.TextV? && Readable(v.s) && |v.s| <= limit
    case Char(limit) => v.TextV? && Readable(v.s) && |v.s| <= limit
    case Array(elem) => v.ListV? && forall x | x in v.items :: PrintableElement(x, elem, h)
    case Map(key, value) =>
      && v.DictV? && DistinctKeys(v.entries)
      && forall e | e in v.entries ::
           Hashable(e.key) && Printable(e.key, key, h) && PrintableElement(e.value, value, h)
    case Struct(fields) =>
      && (forall f | f in fields :: Closed(f.name, false))
      && if h.structAsDict then
           && DistinctNames(fields) && v.DictV? && |v.entries| == |fields|
           && forall i | 0 <= i < |fields| ::
                v.entries[i].key == TextV(fields[i].name) && PrintableElement(v.entries[i].value, fields[i].ty, h)
         else
           && v.RecordV? && v.names == h.rename(FieldNameList(fields)) && |v.items| == |fields|
           && forall i | 0 <= i < |fields| :: PrintableElement(v.items[i], fields[i].ty, h)
    case _ => false
  }

  predicate PrintableElement(v: Val, t: Ty, h: Host)
    decreases t, 1
  {
    v.Null? || Printable(v, t, h)
  }

  // ----- proof -----

  lemma LeafMeans(v: Val, t: Ty, k: Casts)
    requires Printable(v, t, k.host) && !k.host.asBinary && !IsComposite(t)
    ensures var w := Written(v, t);
            w.Leaf? && IsLeafText(w.text) && Cast(w.text, t, k) == Ok(v)
  {
    hide Unquote, Encode, Decode, ByteSize, TrueSize, ReadInt, IntText, Quote, IsLeafText, HasEscaped, Closed;
    match v
    case IntV(n) =>
      NumberIsLeafText(n);
      ReadIntText(n);
    case TextV(s) =>
      QuotedIsLeafText(s);
      UnquoteInvertsIff(s);
      if t.Primitive? {
        TextSize(s);
        StringStays(v, None, k.host);
      } else {
        SizedStays(v, t.limit, k.host);
      }
    case _ =>
  }

  lemma TextSize(s: string)
    ensures TrueSize(TextV(s)) == |Encode(s)|
  {
  }

  lemma NullIsGood()
    ensures Good(Leaf(NULL_TOKEN))
  {
    assert NULL_TOKEN[1..] == "N" && NULL_TOKEN[1..][1..] == "";
  }

  lemma {:induction false} WrittenMeans(v: Val, t: Ty, k: Casts)
    requires Printable(v, t, k.host) && !k.host.asBinary
    ensures var w := Written(v, t);
            Good(w) && Fits(w, t) && Meaning(w, t, k) == Ok(v)
    decreases t, 3, 0
  {
    hide IsLeafText, FromPairs, Cast, Encode, HasEscaped, Closed;
    match t
    case Array(elem) => ItemsAreRead(v.items, elem, k);
    case Map(_, _) =>
      EntriesAreRead(v.entries, t, k);
      DistinctPairsStay(v.entries);
    case Struct(fields) => StructIsRead(v, fields, k);
    case _ => LeafMeans(v, t, k);
  }

  lemma {:induction false} ElementIsRead(v: Val, t: Ty, k: Casts)
    requires PrintableElement(v, t, k.host) && !k.host.asBinary
    ensures var w := Written(v, t);
            Good(w) && FitsElement(w, t) && ElementMeaning(w, t, k) == Ok(v)
    decreases t, 4, 0
  {
    hide Good, Fits, Meaning, Printable;
    if v.Null? {
      NullIsGood();
    } else {
      WrittenMeans(v, t, k);
      NotNull(v, t, k.host);
    }
  }

  lemma NotNull(v: Val, t: Ty, h: Host)
    requires Printable(v, t, h)
    ensures Written(v, t) != Leaf(NULL_TOKEN)
  {
    match v
    case IntV(n) => NumberIsLeafText(n);
    case TextV(s) => assert Quote(s)[0] == '"' && NULL_TOKEN[0] == '\\';
    case _ =>
  }

  lemma MemberIsGood(key: Option<Slot>, w: Writing)
    requires Good(w) && (key.Some? ==> GoodSlot(key.value))
    ensures GoodMember(Member(key, Bare(w))) && GoodSlot(Bare(w))
  {
  }

  predicate ReadItems(ms: seq<Member>, t: Ty)
  {
    forall m | m in ms :: GoodMember(m) && m.key == None && FitsElement(m.value.w, t)
  }

  lemma {:induction false} ItemsAreRead(items: seq<Val>, t: Ty, k: Casts)
    requires (forall x | x in items :: PrintableElement(x, t, k.host)) && !k.host.asBinary
    ensures var ms := ItemMembers(items, t);
            ReadItems(ms, t) && ItemMeanings(ms, t, k) == Ok(items)
    decreases t, 5, |items|
  {
    hide Good, FitsElement, ElementMeaning, PrintableElement, Written, GoodMember;
    if items != [] {
      ElementIsRead(items[0], t, k);
      MemberIsGood(None, Written(items[0], t));
      ItemsAreRead(items[1..], t, k);
      OneMoreItem(Member(None, Bare(Written(items[0], t))), ItemMembers(items[1..], t), t, k);
      assert items == [items[0]] + items[1..];
    }
  }

  lemma OneMoreItem(m: Member, ms: seq<Member>, t: Ty, k: Casts)
    requires GoodMember(m) && m.key == None && FitsElement(m.value.w, t) && ReadItems(ms, t)
    ensures ReadItems([m] + ms, t)
    ensures ElementMeaning(m.value.w, t, k).Ok? && ItemMeanings(ms, t, k).Ok? ==>
              ItemMeanings([m] + ms, t, k)
              == Ok([ElementMeaning(m.value.w, t, k).value] + ItemMeanings(ms, t, k).value)
  {
    hide GoodMember, FitsElement, ElementMeaning;
    assert ([m] + ms)[1..] == ms;
  }

  predicate ReadEntries(ms: seq<Member>, t: Ty)
    requires t.Map?
  {
    forall m | m in ms :: GoodMember(m) && m.key.Some? && Fits(m.key.value.w, t.key) && FitsElement(m.value.w, t.value)
  }

  lemma {:induction false} EntriesAreRead(entries: seq<Entry>, t: Ty, k: Casts)
    requires t.Map? && !k.host.asBinary
    requires forall e | e in entries :: Printable(e.key, t.key, k.host) && PrintableElement(e.value, t.value, k.host)
    ensures var ms := EntryMembers(entries, t);
            ReadEntries(ms, t) && EntryMeanings(ms, t, k) == Ok(entries)
    decreases t, 0, |entries|
  {
    hide Good, Fits, FitsElement, Meaning, ElementMeaning, Printable, PrintableElement, Written;
    if entries != [] {
      WrittenMeans(entries[0].key, t.key, k);
      ElementIsRead(entries[0].value, t.value, k);
      MemberIsGood(None, Written(entries[0].key, t.key));
      MemberIsGood(Some(Bare(Written(entries[0].key, t.key))), Written(entries[0].value, t.value));
      EntriesAreRead(entries[1..], t, k);
      assert EntryMembers(entries, t)[1..] == EntryMembers(entries[1..], t);
      assert entries == [entries[0]] + entries[1..];
    }
  }

  predicate ReadFields(ms: seq<Member>, fields: seq<Field>)
  {
    && |ms| <= |fields| && (forall m | m in ms :: GoodMember(m))
    && forall i | 0 <= i < |ms| :: FitsElement(ms[i].value.w, fields[i].ty)
  }

  lemma LabelIsGood(name: string)
    requires Closed(name, false)
    ensures GoodSlot(Bare(Leaf(Quote(name))))
  {
    QuotedIsLeafText(name);
  }

  lemma ReadFieldsCons(m: Member, ms: seq<Member>, fields: seq<Field>)
    requires fields != [] && ReadFields(ms, fields[1..]) && GoodMember(m) && FitsElement(m.value.w, fields[0].ty)
    ensures ReadFields([m] + ms, fields)
  {
    hide GoodMember, FitsElement;
    forall i | 0 <= i < |[m] + ms| ensures FitsElement(([m] + ms)[i].value.w, fields[i].ty) {
      assert i > 0 ==> ([m] + ms)[i] == ms[i - 1] && fields[i] == fields[1..][i - 1];
    }
  }

  lemma FieldMeaningsCons(m: Member, ms: seq<Member>, fields: seq<Field>, k: Casts, v: Val, vs: seq<Val>)
    requires fields != [] && ReadFields([m] + ms, fields) && ReadFields(ms, fields[1..])
    requires ElementMeaning(m.value.w, fields[0].ty, k) == Ok(v) && FieldMeanings(ms, fields[1..], k) == Ok(vs)
    ensures FieldMeanings([m] + ms, fields, k) == Ok([v] + vs)
  {
    hide GoodMember, FitsElement, ElementMeaning;
    assert ([m] + ms)[1..] == ms;
  }

  lemma {:induction false} FieldsAreRead(items: seq<Val>, fields: seq<Field>, k: Casts)
    requires |items| == |fields| && !k.host.asBinary && forall f | f in fields :: Closed(f.name, false)
    requires forall i | 0 <= i < |fields| :: PrintableElement(items[i], fields[i].ty, k.host)
    ensures var ms := FieldMembers(items, fields);
            ReadFields(ms, fields) && FieldMeanings(ms, fields, k) == Ok(items)
    decreases fields, 1, |items|
  {
    hide Good, FitsElement, ElementMeaning, PrintableElement, Written, Closed, Quote, GoodMember;
    if fields != [] {
      var rest := FieldMembers(items[1..], fields[1..]);
      var tag := Bare(Leaf(Quote(fields[0].name)));
      ElementIsRead(items[0], fields[0].ty, k);
      LabelIsGood(fields[0].name);
      MemberIsGood(Some(tag), Written(items[0], fields[0].ty));
      forall i | 0 <= i < |fields[1..]| ensures PrintableElement(items[1..][i], fields[1..][i].ty, k.host) {
        assert items[1..][i] == items[i + 1] && fields[1..][i] == fields[i + 1];
      }
      FieldsAreRead(items[1..], fields[1..], k);
      var first := Member(Some(tag), Bare(Written(items[0], fields[0].ty)));
      ReadFieldsCons(first, rest, fields);
      FieldMeaningsCons(first, rest, fields, k, items[0], items[1..]);
      assert items == [items[0]] + items[1..];
    }
  }

  lemma {:induction false} ZipRebuilds(entries: seq<Entry>, fields: seq<Field>)
    requires |entries| == |fields| && forall i | 0 <= i < |fields| :: entries[i].key == TextV(fields[i].name)
    ensures Zip(FieldNameList(fields), ValuesOf(entries)) == entries
    decreases |fields|
  {
    var names, values := FieldNameList(fields), ValuesOf(entries);
    if fields != [] {
      assert names[1..] == FieldNameList(fields[1..]) && values[1..] == ValuesOf(entries[1..]);
      ZipRebuilds(entries[1..], fields[1..]);
      assert entries == [entries[0]] + entries[1..];
    }
  }

  lemma {:induction false} StructIsRead(v: Val, fields: seq<Field>, k: Casts)
    requires Printable(v, Struct(fields), k.host) && !k.host.asBinary
    ensures var w, t := Written(v, Struct(fields)), Struct(fields);
            Good(w) && Fits(w, t) && Meaning(w, t, k) == Ok(v)
    decreases fields, 2, 0
  {
    hide *;
    if k.host.structAsDict {
      DictIsRead(v, fields, k);
    } else {
      RecordIsRead(v, fields, k);
    }
  }

  lemma {:induction false} DictIsRead(v: Val, fields: seq<Field>, k: Casts)
    requires Printable(v, Struct(fields), k.host) && !k.host.asBinary && k.host.structAsDict
    ensures var w, t := Written(v, Struct(fields)), Struct(fields);
            Good(w) && Fits(w, t) && Meaning(w, t, k) == Ok(v)
    decreases fields, 1, |fields| + 1
  {
    hide FromPairs, FitsElement, Zip, Closed;
    FieldsAreRead(ValuesOf(v.entries), fields, k);
    ZipRebuilds(v.entries, fields);
    DistinctPairsStay(v.entries);
    assert fields == [] ==> ValuesOf(v.entries) == seq(|fields|, i => Null);
  }

  lemma {:induction false} RecordIsRead(v: Val, fields: seq<Field>, k: Casts)
    requires Printable(v, Struct(fields), k.host) && !k.host.asBinary && !k.host.structAsDict
    ensures var w, t := Written(v, Struct(fields)), Struct(fields);
            Good(w) && Fits(w, t) && Meaning(w, t, k) == Ok(v)
    decreases fields, 1, |fields| + 1
  {
    hide FromPairs, FitsElement, Zip, Closed;
    FieldsAreRead(v.items, fields, k);
    assert fields == [] ==> v.items == seq(|fields|, i => Null);
  }

  /** Printing an array, a map or a struct and reading the text gives the value back, at every depth. */
  lemma PrintedIsReadBack(v: Val, t: Ty, k: Casts)
    requires Printable(v, t, k.host) && !k.host.asBinary && IsComposite(t)
    ensures ParseComplex(TextOf(Written(v, t)), t, k) == Ok(v)
  {
    hide Printable, Written, Good, Fits, Meaning, TextOf, ParseComplex;
    WrittenMeans(v, t, k);
    ParseMeans(Written(v, t), t, k);
  }

  // ----- keys that raise -----

  lemma NestedIsUnhashable(s: string, t: Ty, k: Casts)
    requires IsNested(t)
    ensures ParseComplex(s, t, k).Ok? ==> !Hashable(ParseComplex(s, t, k).value)
  {
    hide ParseItems, ParseEntries, ParseFields, Inside, Split, FromPairs;
  }

  /** A map whose keys are arrays, maps or structs is read only when it is empty; an entry raises. */
  lemma NestedKeysAreNeverRead(s: string, t: Ty, k: Casts)
    requires t.Map? && IsNested(t.key)
    ensures ParseComplex(s, t, k).Ok? <==> Bracketed(s, '{', '}') && Inside(s) == ""
    ensures ParseComplex(s, t, k).Ok? ==> ParseComplex(s, t, k).value == DictV([])
  {
    hide Inside, Strip, ParseElement, FirstCut;
    if Inside(s) != "" {
      var parts := Split(Inside(s), ',', None);
      var pairs := ParseEntries(parts, t, k);
      if pairs.Ok? {
        var kv := Split(Strip(parts[0]), ':', Some(1));
        var first := ParseEntry(Strip(parts[0]), t, k);
        NestedIsUnhashable(Strip(kv[0]), t.key, k);
        assert first.value.key == ParseKey(Strip(kv[0]), t.key, k).value;
        assert pairs.value[0] == first.value;
        assert pairs.value[0] in pairs.value && !Hashable(pairs.value[0].key);
      }
    }
  }
}
