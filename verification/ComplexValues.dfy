/** `parse_complex_value` of odps/readers.py: arrays, maps and structs read from their text. */
module ComplexValues {
  import opened Text
  import opened TypeStrings
  import opened Values
  import opened DepthSplit

  const NULL_TOKEN := "\\N"

  /** How the leaves are cast: by `validate_value`, or, with `keep_strings`, without checks;
      vectors and the types left open are decided outside. */
  datatype Casts = Casts(
    host: Host, keepStrings: bool,
    vector: (string, Ty) -> Outcome<Val>, foreign: (string, Ty) -> Outcome<Val>)

  predicate IsComposite(t: Ty)
  {
    t.Array? || t.Map? || t.Struct? || t.Vector?
  }

  // ----- leaves -----

  /** `text.replace("\\" + quote, quote)`. */
  function Unescape(s: string, quote: char): (r: string)
    ensures |r| <= |s|
  {
    if |s| < 2 then s
    else if s[0] == '\\' && s[1] == quote then [quote] + Unescape(s[2..], quote)
    else [s[0]] + Unescape(s[1..], quote)
  }

  function Unquote(s: string): string
  {
    var inner := if |s| >= 2 && IsQuote(s[0]) && s[|s| - 1] == s[0] then s[1..|s| - 1] else s;
    Unescape(Unescape(inner, '"'), '\'')
  }

  /** `_cast_primitive`. */
  function Cast(part: string, t: Ty, k: Casts): Outcome<Val>
  {
    var s := Unquote(part);
    if !k.keepStrings then Validate(TextV(s), t, None, k.host)
    else
      match t
      case Primitive(name) =>
        if Bounds(name).Some? then CastInteger(TextV(s), k.host)
        else if name == "string" then Ok(StoredText(s, k.host))
        else k.foreign(s, t)
      case Varchar(_) => Ok(StoredText(s, k.host))
      case Char(_) => Ok(StoredText(s, k.host))
      case _ => k.foreign(s, t)
  }

  // ----- composites -----

  predicate Bracketed(s: string, open: char, close: char)
  {
    s != "" && s[0] == open && s[|s| - 1] == close
  }

  function Inside(s: string): string
  {
    if |s| < 2 then "" else Strip(s[1..|s| - 1])
  }

  function ParseComplex(s: string, t: Ty, k: Casts): Outcome<Val>
    decreases t, 3, 0
  {
    match t
    case Array(elem) =>
      if !Bracketed(s, '[', ']') then Raise(ValueError)
      else if Inside(s) == "" then Ok(ListV([]))
      else
        (match ParseItems(Split(Inside(s), ',', None), elem, k)
         case Raise(e) => Raise(e)
         case Ok(items) => Ok(ListV(items)))
    case Map(_, _) =>
      if !Bracketed(s, '{', '}') then Raise(ValueError)
      else if Inside(s) == "" then Ok(DictV([]))
      else
        (match ParseEntries(Split(Inside(s), ',', None), t, k)
         case Raise(e) => Raise(e)
         case Ok(pairs) => Dictionary(pairs))
    case Struct(fields) =>
      if !Bracketed(s, '{', '}') then Raise(ValueError)
      else if Inside(s) == "" then Ok(Record(fields, seq(|fields|, i => Null), k.host))
      else
        (match ParseFields(Split(Inside(s), ',', None), fields, k)
         case Raise(e) => Raise(e)
         case Ok(values) =>
           if |values| < |fields| && !k.host.structAsDict then Raise(TypeError)
           else Ok(Record(fields, values, k.host)))
    case Vector(_, _) => k.vector(s, t)
    case _ => Raise(ValueError)
  }

  /** `OrderedDict(items)`. */
  function Dictionary(pairs: seq<Entry>): Outcome<Val>
  {
    if exists e :: e in pairs && !Hashable(e.key) then Raise(TypeError) else Ok(DictV(FromPairs(pairs)))
  }

  /** A struct's value: a named tuple, or a dictionary of as many fields as there are values. */
  function Record(fields: seq<Field>, values: seq<Val>, h: Host): Val
  {
    if h.structAsDict then DictV(FromPairs(Zip(FieldNameList(fields), values)))
    else RecordV(h.rename(FieldNameList(fields)), values)
  }

  /** A value that may be null. */
  function ParseElement(part: string, t: Ty, k: Casts): Outcome<Val>
    decreases t, 4, 0
  {
    if part == NULL_TOKEN then Ok(Null) else ParseKey(part, t, k)
  }

  function ParseKey(part: string, t: Ty, k: Casts): Outcome<Val>
    decreases t, 3, 1
  {
    if IsComposite(t) then ParseComplex(part, t, k) else Cast(part, t, k)
  }

  function ParseItems(parts: seq<string>, t: Ty, k: Casts): (r: Outcome<seq<Val>>)
    ensures r.Ok? ==> |r.value| == |parts|
    decreases t, 5, |parts|
  {
    if parts == [] then Ok([])
    else
      match ParseElement(Strip(parts[0]), t, k)
      case Raise(e) => Raise(e)
      case Ok(first) =>
        match ParseItems(parts[1..], t, k)
        case Raise(e) => Raise(e)
        case Ok(rest) => Ok([first] + rest)
  }

  function ParseEntries(parts: seq<string>, t: Ty, k: Casts): (r: Outcome<seq<Entry>>)
    requires t.Map?
    ensures r.Ok? ==> |r.value| == |parts|
    decreases t, 0, |parts|
  {
    if parts == [] then Ok([])
    else
      match ParseEntry(Strip(parts[0]), t, k)
      case Raise(e) => Raise(e)
      case Ok(first) =>
        match ParseEntries(parts[1..], t, k)
        case Raise(e) => Raise(e)
        case Ok(rest) => Ok([first] + rest)
  }

  function ParseEntry(entry: string, t: Ty, k: Casts): Outcome<Entry>
    requires t.Map?
    decreases t, 0, 0
  {
    var kv := Split(entry, ':', Some(1));
    if |kv| != 2 then Raise(ValueError)
    else
      match ParseKey(Strip(kv[0]), t.key, k)
      case Raise(e) => Raise(e)
      case Ok(key) =>
        match ParseElement(Strip(kv[1]), t.value, k)
        case Raise(e) => Raise(e)
        case Ok(value) => Ok(Entry(key, value))
  }

  /** The text of a field's value: behind the first colon, or all of it. */
  function ValueText(part: string): string
  {
    var fv := Split(part, ':', Some(1));
    if |fv| == 2 then Strip(fv[1]) else part
  }

  function ParseFields(parts: seq<string>, fields: seq<Field>, k: Casts): (r: Outcome<seq<Val>>)
    ensures r.Ok? ==> |r.value| == |parts| <= |fields|
    decreases fields, 1, |parts|
  {
    if parts == [] then Ok([])
    else if fields == [] then Raise(StopIteration)
    else
      match ParseElement(ValueText(Strip(parts[0])), fields[0].ty, k)
      case Raise(e) => Raise(e)
      case Ok(first) =>
        match ParseFields(parts[1..], fields[1..], k)
        case Raise(e) => Raise(e)
        case Ok(rest) => Ok([first] + rest)
  }
}
