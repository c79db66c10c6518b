/** `validate_value` of odps/types.py: casting a Python value to a data type and checking it. */
module Values {
  import opened Text
  import opened TypeStrings
  import opened Utf8

  /** The Python values. A named tuple carries its field names, a plain tuple none. A record is the named
      tuple a struct yields: its class defines `__eq__` without `__hash__` (odps/lib/xnamedtuple.py:54-58). */
  datatype Val =
    | Null
    | IntV(n: int)
    | TextV(s: string)
    | BytesV(b: Bytes)
    | ListV(items: seq<Val>)
    | DictV(entries: seq<Entry>)
    | TupleV(names: seq<string>, items: seq<Val>)
    | RecordV(names: seq<string>, items: seq<Val>)

  datatype Entry = Entry(key: Val, value: Val)

  /** The options in force, and what Python decides: `str` of a container, `int` of bytes, the renaming
      of named tuple fields, and the types not covered here. */
  datatype Host = Host(
    asBinary: bool, structAsDict: bool,
    show: Val -> string, readBytes: Bytes -> Option<int>, rename: seq<string> -> seq<string>,
    foreign: (Val, Ty) -> Outcome<Val>)

  // ----- dictionaries -----

  predicate Hashable(v: Val)
  {
    match v
    case ListV(_) | DictV(_) | RecordV(_, _) => false
    case TupleV(_, items) => forall x | x in items :: Hashable(x)
    case _ => true
  }

  function Lookup(entries: seq<Entry>, key: Val): Option<Val>
  {
    if entries == [] then None
    else if entries[0].key == key then Some(entries[0].value)
    else Lookup(entries[1..], key)
  }

  /** `d[key] = value`: in place when the key is there, else at the end. */
  function Insert(entries: seq<Entry>, e: Entry): seq<Entry>
  {
    if entries == [] then [e]
    else if entries[0].key == e.key then [Entry(e.key, e.value)] + entries[1..]
    else [entries[0]] + Insert(entries[1..], e)
  }

  /** The dictionary built from pairs. */
  function FromPairs(pairs: seq<Entry>): seq<Entry>
  {
    if pairs == [] then [] else Insert(FromPairs(pairs[..|pairs| - 1]), pairs[|pairs| - 1])
  }

  predicate DistinctKeys(entries: seq<Entry>)
  {
    forall i, j | 0 <= i < j < |entries| :: entries[i].key != entries[j].key
  }

  // ----- primitives -----

  const STRING_LIMIT := 8 * 1024 * 1024

  /** The bounds of an integer type. */
  function Bounds(name: string): Option<(int, int)>
  {
    if name == "tinyint" then Some((-128, 127))
    else if name == "smallint" then Some((-32768, 32767))
    else if name == "int" then Some((-2147483648, 2147483647))
    else if name == "bigint" then Some((-9223372036854775808, 9223372036854775807))
    else None
  }

  predicate InBounds(n: int, bounds: (int, int))
  {
    bounds.0 <= n <= bounds.1
  }

  /** Text and bytes in the form the option `string_as_binary` asks for; `ValueError` for bytes that are no text. */
  function Stored(v: Val, h: Host): Outcome<Val>
  {
    if h.asBinary && v.TextV? then Ok(BytesV(Encode(v.s)))
    else if !h.asBinary && v.BytesV? then
      match Decode(v.b)
      case None => Raise(ValueError)
      case Some(s) => Ok(TextV(s))
    else Ok(v)
  }

  function StoredText(s: string, h: Host): Val
  {
    if h.asBinary then BytesV(Encode(s)) else TextV(s)
  }

  function CastInteger(v: Val, h: Host): Outcome<Val>
  {
    match v
    case IntV(_) => Ok(v)
    case TextV(s) => (match ReadInt(s) case None => Raise(ValueError) case Some(n) => Ok(IntV(n)))
    case BytesV(b) => (match h.readBytes(b) case None => Raise(ValueError) case Some(n) => Ok(IntV(n)))
    case _ => Raise(ValueError)
  }

  function CastString(v: Val, h: Host): Outcome<Val>
  {
    match v
    case TextV(_) | BytesV(_) => Ok(v)
    case IntV(n) => Ok(StoredText(IntText(n), h))
    case ListV(_) | DictV(_) => Ok(StoredText(h.show(v), h))
    case _ => Raise(ValueError)
  }

  function ByteSize(v: Val, limit: nat): nat
  {
    match v
    case TextV(s) => CheckedSize(s, limit)
    case BytesV(b) => |b|
    case _ => 0
  }

  /** `max_field_size or self._max_length`. */
  function Limit(size: Option<nat>): nat
  {
    if size.Some? && size.value != 0 then size.value else STRING_LIMIT
  }

  function ValidateInteger(v: Val, bounds: (int, int), h: Host): Outcome<Val>
  {
    if v.Null? then Ok(Null)
    else
      match Stored(v, h)
      case Raise(e) => Raise(e)
      case Ok(s) =>
        match CastInteger(s, h)
        case Raise(e) => Raise(e)
        case Ok(r) => if r.IntV? && InBounds(r.n, bounds) then Ok(r) else Raise(ValueError)
  }

  function ValidateString(v: Val, size: Option<nat>, h: Host): Outcome<Val>
  {
    if v.Null? then Ok(Null)
    else
      match Stored(v, h)
      case Raise(e) => Raise(e)
      case Ok(s) =>
        match CastString(s, h)
        case Raise(e) => Raise(e)
        case Ok(r) => if ByteSize(r, Limit(size)) <= Limit(size) then Ok(r) else Raise(ValueError)
  }

  // ----- varchar and char -----

  /** `SizeLimitedString.validate_value`. */
  function CheckLength(v: Val, limit: int): Outcome<()>
  {
    match v
    case Null => Ok(())
    case IntV(_) => Raise(TypeError)
    case TextV(s) => if |s| <= limit then Ok(()) else Raise(ValueError)
    case BytesV(b) =>
      if |b| <= limit then Ok(())
      else (match Decode(b)
            case None => Raise(ValueError)
            case Some(s) => if |s| <= limit then Ok(()) else Raise(ValueError))
    case ListV(items) => if |items| <= limit then Ok(()) else Raise(ValueError)
    case DictV(entries) => if |entries| <= limit then Ok(()) else Raise(ValueError)
    case TupleV(_, items) => if |items| <= limit then Ok(()) else Raise(ValueError)
    case RecordV(_, items) => if |items| <= limit then Ok(()) else Raise(ValueError)
  }

  function CastSized(v: Val, h: Host): Outcome<Val>
  {
    match v
    case Null => Ok(Null)
    case TextV(_) | BytesV(_) => Stored(v, h)
    case _ => Ok(StoredText(h.show(v), h))
  }

  function ValidateSized(v: Val, limit: int, h: Host): Outcome<Val>
  {
    match CheckLength(v, limit)
    case Raise(e) => Raise(e)
    case Ok(_) =>
      match CastSized(v, h)
      case Raise(e) => Raise(e)
      case Ok(r) =>
        match CheckLength(r, limit)
        case Raise(e) => Raise(e)
        case Ok(_) => Ok(r)
  }

  // ----- nested types -----

  function Validate(v: Val, t: Ty, size: Option<nat>, h: Host): Outcome<Val>
    decreases t, 1, 0
  {
    match t
    case Primitive(name) =>
      if Bounds(name).Some? then ValidateInteger(v, Bounds(name).value, h)
      else if name == "string" then ValidateString(v, size, h)
      else h.foreign(v, t)
    case Varchar(limit) => ValidateSized(v, limit, h)
    case Char(limit) => ValidateSized(v, limit, h)
    case Array(elem) =>
      (match v
       case Null => Ok(Null)
       case ListV(items) =>
         (match ValidateAll(items, elem, h)
          case Raise(e) => Raise(e)
          case Ok(rs) => Ok(ListV(rs)))
       case _ => Raise(ValueError))
    case Map(_, _) =>
      (match v
       case Null => Ok(Null)
       case DictV(entries) =>
         (match ValidateEntries(entries, t, h)
          case Raise(e) => Raise(e)
          case Ok(rs) => Ok(DictV(FromPairs(rs))))
       case _ => Raise(ValueError))
    case Struct(fields) => ValidateStruct(v, fields, h)
    case _ => h.foreign(v, t)
  }

  function FieldNameList(fields: seq<Field>): (r: seq<string>)
    ensures |r| == |fields|
  {
    seq(|fields|, i requires 0 <= i < |fields| => fields[i].name)
  }

  function ValidateAll(items: seq<Val>, t: Ty, h: Host): (r: Outcome<seq<Val>>)
    ensures r.Ok? ==> |r.value| == |items|
    decreases t, 2, |items|
  {
    if items == [] then Ok([])
    else
      match Validate(items[0], t, None, h)
      case Raise(e) => Raise(e)
      case Ok(first) =>
        match ValidateAll(items[1..], t, h)
        case Raise(e) => Raise(e)
        case Ok(rest) => Ok([first] + rest)
  }

  function ValidateEntries(entries: seq<Entry>, t: Ty, h: Host): (r: Outcome<seq<Entry>>)
    requires t.Map?
    ensures r.Ok? ==> |r.value| == |entries|
    decreases t, 0, |entries|
  {
    if entries == [] then Ok([])
    else
      match Validate(entries[0].key, t.key, None, h)
      case Raise(e) => Raise(e)
      case Ok(k) =>
        match Validate(entries[0].value, t.value, None, h)
        case Raise(e) => Raise(e)
        case Ok(v) =>
          if !Hashable(k) then Raise(TypeError)
          else
            match ValidateEntries(entries[1..], t, h)
            case Raise(e) => Raise(e)
            case Ok(rest) => Ok([Entry(k, v)] + rest)
  }

  function ValidateStruct(v: Val, fields: seq<Field>, h: Host): Outcome<Val>
    decreases fields, 2, 0
  {
    if v.Null? then Ok(Null)
    else if h.structAsDict then
      match AsDict(v, fields)
      case Raise(e) => Raise(e)
      case Ok(entries) =>
        match ValidateKeyed(entries, fields, h)
        case Raise(e) => Raise(e)
        case Ok(rs) => Ok(DictV(rs))
    else
      match AsItems(v, fields)
      case Raise(e) => Raise(e)
      case Ok(items) =>
        match ValidateFields(items, fields, h)
        case Raise(e) => Raise(e)
        case Ok(rs) =>
          if |rs| < |fields| then Raise(TypeError) else Ok(RecordV(h.rename(FieldNameList(fields)), rs))
  }

  /** The values a struct is built from: a tuple's items, or a dictionary's values by field name. */
  function AsItems(v: Val, fields: seq<Field>): Outcome<seq<Val>>
  {
    match v
    case TupleV(_, items) => Ok(items)
    case RecordV(_, items) => Ok(items)
    case DictV(entries) => Ok(Gathered(entries, fields))
    case _ => Raise(ValueError)
  }

  function Gathered(entries: seq<Entry>, fields: seq<Field>): (r: seq<Val>)
    ensures |r| == |fields|
  {
    if fields == [] then []
    else
      [match Lookup(entries, TextV(fields[0].name)) case None => Null case Some(x) => x]
      + Gathered(entries, fields[1..])
  }

  /** Items against field types, as far as both go. */
  function ValidateFields(items: seq<Val>, fields: seq<Field>, h: Host): (r: Outcome<seq<Val>>)
    ensures r.Ok? ==> |r.value| == if |items| < |fields| then |items| else |fields|
    decreases fields, 1, |fields|
  {
    if items == [] || fields == [] then Ok([])
    else
      match Validate(items[0], fields[0].ty, None, h)
      case Raise(e) => Raise(e)
      case Ok(first) =>
        match ValidateFields(items[1..], fields[1..], h)
        case Raise(e) => Raise(e)
        case Ok(rest) => Ok([first] + rest)
  }

  /** With `struct_as_dict`, a tuple is first zipped with its own names, or with the struct's. */
  function AsDict(v: Val, fields: seq<Field>): Outcome<seq<Entry>>
  {
    match v
    case TupleV(names, items) => Ok(FromPairs(Zip(OrFieldNames(names, fields), items)))
    case RecordV(names, items) => Ok(FromPairs(Zip(OrFieldNames(names, fields), items)))
    case DictV(entries) => Ok(entries)
    case _ => Raise(ValueError)
  }

  function OrFieldNames(names: seq<string>, fields: seq<Field>): seq<string>
  {
    if names == [] then FieldNameList(fields) else names
  }

  function Zip(names: seq<string>, items: seq<Val>): seq<Entry>
  {
    if names == [] || items == [] then [] else [Entry(TextV(names[0]), items[0])] + Zip(names[1..], items[1..])
  }

  function ValidateKeyed(entries: seq<Entry>, fields: seq<Field>, h: Host): (r: Outcome<seq<Entry>>)
    ensures r.Ok? ==> |r.value| == |fields|
    decreases fields, 1, |fields|
  {
    if fields == [] then Ok([])
    else
      match ValidateString(TextV(fields[0].name), None, h)
      case Raise(e) => Raise(e)
      case Ok(k) =>
        match Lookup(entries, TextV(fields[0].name))
        case None => Raise(KeyError)
        case Some(x) =>
          match Validate(x, fields[0].ty, None, h)
          case Raise(e) => Raise(e)
          case Ok(v) =>
            match ValidateKeyed(entries, fields[1..], h)
            case Raise(e) => Raise(e)
            case Ok(rest) => Ok([Entry(k, v)] + rest)
  }
}
