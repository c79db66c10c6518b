/** Texts of nested values that are refused, and what `keep_strings` changes (odps/readers.py). */
module ComplexErrors {
  import opened Text
  import opened TypeStrings
  import opened Values
  import opened DepthSplit
  import opened ComplexValues
  import opened ComplexRoundTrip

  // ----- the outside -----

  predicate Enclosed(s: string, open: char, close: char)
  {
    s != "" && s[0] == open && s[|s| - 1] == close
  }

  /** Arrays stand in square brackets, maps and structs in braces; anything else is a `ValueError`. */
  lemma BracketsNeeded(s: string, t: Ty, k: Casts)
    ensures t.Array? && !Enclosed(s, '[', ']') ==> ParseComplex(s, t, k) == Raise(ValueError)
    ensures (t.Map? || t.Struct?) && !Enclosed(s, '{', '}') ==> ParseComplex(s, t, k) == Raise(ValueError)
    ensures !t.Array? && !t.Map? && !t.Struct? && !t.Vector? ==> ParseComplex(s, t, k) == Raise(ValueError)
  {
  }

  /** Vectors are decided outside, at the top and inside. */
  lemma VectorsAreForeign(s: string, elem: Ty, d: int, k: Casts)
    ensures ParseComplex(s, Vector(elem, d), k) == k.vector(s, Vector(elem, d)) == ParseKey(s, Vector(elem, d), k)
  {
  }

  /** Nothing inside the brackets is an empty array or map, and a struct of nulls. */
  lemma NothingInside(t: Ty, k: Casts)
    ensures t.Array? ==> ParseComplex("[]", t, k) == Ok(ListV([]))
    ensures t.Map? ==> ParseComplex("{}", t, k) == Ok(DictV([]))
    ensures t.Struct? && !k.host.structAsDict ==>
              ParseComplex("{}", t, k)
              == Ok(RecordV(k.host.rename(FieldNameList(t.fields)), seq(|t.fields|, i => Null)))
  {
    assert Inside("[]") == "" && Inside("{}") == "";
  }

  // ----- entries and fields -----

  lemma {:induction false} NoDelimiter(s: string, q: Nesting, delimiter: char)
    requires delimiter !in s
    ensures FirstCut(s, q, delimiter) == |s|
    decreases |s|
  {
    if s != "" {
      assert s[0] in s;
      NoDelimiter(s[1..], After(q, s[0]), delimiter);
    }
  }

  /** An entry of a map without a colon is a `ValueError`. */
  lemma EntryNeedsColon(entry: string, t: Ty, k: Casts)
    requires t.Map? && ':' !in entry
    ensures ParseEntry(entry, t, k) == Raise(ValueError)
  {
    hide FirstCut;
    NoDelimiter(entry, OUTSIDE, ':');
  }

  /** A key that cannot be hashed is a `TypeError`. */
  lemma UnhashableFails(pairs: seq<Entry>, e: Entry)
    requires e in pairs && (e.key.ListV? || e.key.DictV? || e.key.RecordV?)
    ensures Dictionary(pairs) == Raise(TypeError)
  {
  }

  /** More values than fields are a `StopIteration` once those before are read. */
  lemma {:induction false} SurplusFails(parts: seq<string>, fields: seq<Field>, k: Casts)
    requires |parts| > |fields|
    ensures ParseFields(parts, fields, k).Raise?
    ensures ParseFields(parts[..|fields|], fields, k).Ok? ==> ParseFields(parts, fields, k) == Raise(StopIteration)
    decreases |fields|
  {
    hide ParseElement, ValueText;
    if fields != [] {
      assert parts[..|fields|][1..] == parts[1..][..|fields| - 1];
      SurplusFails(parts[1..], fields[1..], k);
    }
  }

  /** A struct with fewer values than fields is a `TypeError`, unless structs are dictionaries. */
  lemma MissingFieldsFail(s: string, fields: seq<Field>, k: Casts)
    requires Enclosed(s, '{', '}') && Inside(s) != "" && !k.host.structAsDict
    requires var values := ParseFields(Split(Inside(s), ',', None), fields, k);
             values.Ok? && |values.value| < |fields|
    ensures ParseComplex(s, Struct(fields), k) == Raise(TypeError)
  {
    hide ParseFields, Split, Inside;
  }

  // ----- keep_strings -----

  /** Integers are read whatever their size with `keep_strings`, and within their type's bounds without. */
  lemma KeptIntegers(n: int, name: string, k: Casts)
    requires name in {"tinyint", "smallint", "int", "bigint"}
    ensures k.keepStrings ==> Cast(IntText(n), Primitive(name), k) == Ok(IntV(n))
    ensures !k.keepStrings && !k.host.asBinary ==>
              Cast(IntText(n), Primitive(name), k)
              == if InBounds(n, Bounds(name).value) then Ok(IntV(n)) else Raise(ValueError)
  {
    hide IntText, ReadInt, Unquote;
    ReadIntText(n);
    NumberIsLeafText(n);
  }

  /** A sized string is kept whatever its length with `keep_strings`, and up to its length without. */
  lemma KeptStrings(part: string, limit: int, k: Casts)
    requires !k.host.asBinary
    ensures k.keepStrings ==> Cast(part, Varchar(limit), k) == Ok(TextV(Unquote(part))) == Cast(part, Char(limit), k)
    ensures k.keepStrings ==> Cast(part, Primitive("string"), k) == Ok(TextV(Unquote(part)))
    ensures !k.keepStrings ==>
              Cast(part, Varchar(limit), k)
              == if |Unquote(part)| <= limit then Ok(TextV(Unquote(part))) else Raise(ValueError)
  {
    hide Unquote;
  }

  /** Types that are neither integers nor strings are decided outside. */
  lemma OthersAreForeign(part: string, name: string, k: Casts)
    requires name !in {"tinyint", "smallint", "int", "bigint", "string"} && k.keepStrings
    ensures Cast(part, Primitive(name), k) == k.foreign(Unquote(part), Primitive(name))
  {
  }
}
