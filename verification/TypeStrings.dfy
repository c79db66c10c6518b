/** The data types of odps/types.py, the printer formed by their `name` properties,
    and the parser `validate_data_type` / `parse_composite_types`. */
module TypeStrings {
  import opened Text
  import opened Backquotes

  /** A data type, or one of the two other things the parser passes around:
      a text that is not resolved yet, and a `(field, type)` tuple. */
  datatype Ty =
    | Primitive(name: string)
    | Varchar(limit: int)
    | Char(limit: int)
    | Decimal(precision: Option<int>, scale: Option<int>)
    | Array(elem: Ty)
    | Map(key: Ty, value: Ty)
    | Struct(fields: seq<Field>)
    | Vector(elem: Ty, dimension: int)
    | Raw(text: string)
    | Pair(field: Field)

  datatype Field = Field(name: string, ty: Ty)

  const NUMERIC: set<string> := {"tinyint", "smallint", "int", "bigint", "float", "double"}
  const TEXTUAL: set<string> := {"string", "binary", "boolean", "json", "geography", "blob", "variant"}
  const TEMPORAL: set<string> := {"datetime", "date", "timestamp", "timestamp_ntz"}
  const INTERVAL: set<string> := {"interval_day_time", "interval_year_month"}
  const PRIMITIVES: set<string> := NUMERIC + TEXTUAL + TEMPORAL + INTERVAL

  const MAX_LENGTH := 65535

  /** The types that the constructors accept. */
  predicate WellFormed(t: Ty)
  {
    match t
    case Primitive(name) => name in PRIMITIVES
    case Varchar(limit) => limit <= MAX_LENGTH
    case Char(limit) => limit <= MAX_LENGTH
    case Decimal(p, s) =>
      if p.None? then s.None? else p.value >= 1 && (s.Some? ==> s.value <= p.value)
    case Array(e) => WellFormed(e)
    case Map(k, v) => WellFormed(k) && WellFormed(v)
    case Struct(fs) => DistinctNames(fs) && forall f | f in fs :: WellFormed(f.ty)
    case Vector(e, d) => (e == Primitive("float") || e == Primitive("double")) && d > 0
    case Raw(_) => false
    case Pair(_) => false
  }

  predicate DistinctNames(fs: seq<Field>)
  {
    forall i, j | 0 <= i < j < |fs| :: fs[i].name != fs[j].name
  }

  // ----- the printer -----

  function Name(t: Ty): string
  {
    match t
    case Primitive(name) => name
    case Varchar(limit) => "varchar(" + IntText(limit) + ")"
    case Char(limit) => "char(" + IntText(limit) + ")"
    case Decimal(p, s) =>
      if p.None? then "decimal"
      else if s.None? then "decimal(" + IntText(p.value) + ")"
      else "decimal(" + IntText(p.value) + "," + IntText(s.value) + ")"
    case Array(e) => "array<" + Name(e) + ">"
    case Map(k, v) => "map<" + Name(k) + "," + Name(v) + ">"
    case Struct(fs) => "struct<" + FieldNames(fs) + ">"
    case Vector(e, d) => "vector(" + Name(e) + "," + IntText(d) + ")"
    case Raw(text) => text
    case Pair(f) => f.name
  }

  function FieldNames(fs: seq<Field>): string
  {
    if fs == [] then ""
    else
      var first := BackquoteString(fs[0].name) + ":" + Name(fs[0].ty);
      if |fs| == 1 then first else first + "," + FieldNames(fs[1..])
  }

  // ----- the parser -----

  datatype Scan = Scan(stack: seq<Ty>, brackets: seq<nat>, token: string, quoted: bool)

  const START := Scan([], [], "", false)

  predicate ShortTexts(items: seq<Ty>, n: nat)
  {
    forall x | x in items :: x.Raw? ==> |x.text| < n
  }

  /** Every open bracket points at the raw head of its group, and every raw text
      is shorter than the whole input, whose length is n. */
  predicate Valid(st: Scan, n: nat)
  {
    && (forall i | 0 <= i < |st.brackets| :: st.brackets[i] < |st.stack| && st.stack[st.brackets[i]].Raw?)
    && (forall i, j | 0 <= i < j < |st.brackets| :: st.brackets[i] < st.brackets[j])
    && ShortTexts(st.stack, n)
  }

  /** The stack once the token in progress is stripped and, unless blank, pushed. */
  function Flushed(st: Scan): (r: seq<Ty>)
    ensures st.stack <= r
    ensures forall n | |st.token| < n && ShortTexts(st.stack, n) :: ShortTexts(r, n)
  {
    var token := Strip(st.token);
    if token != "" then st.stack + [Raw(token)] else st.stack
  }

  function SplitStructKv(kv: string): (r: seq<string>)
    ensures 1 <= |r| <= 2
    ensures |r[|r| - 1]| <= |kv|
  {
    var parts := PiecesFrom(kv, ":", 0, "", false, Some(1));
    OneSplit(kv, 0, "", false);
    if |parts| == 1 then [Strip(parts[0])]
    else [StripBackquotes(parts[0]), Strip(parts[1])]
  }

  lemma {:induction false} NoSplit(kv: string, pos: nat, cur: string, quoted: bool)
    requires pos <= |kv|
    ensures PiecesFrom(kv, ":", pos, cur, quoted, Some(0)) == [cur + kv[pos..]]
    decreases |kv| - pos
  {
    if pos == |kv| {
      assert cur + kv[pos..] == cur;
    } else {
      NoSplit(kv, pos + 1, cur + [kv[pos]], if kv[pos] == '`' then !quoted else quoted);
      assert cur + [kv[pos]] + kv[pos + 1..] == cur + kv[pos..];
    }
  }

  lemma {:induction false} OneSplit(kv: string, pos: nat, cur: string, quoted: bool)
    requires pos <= |kv|
    ensures var parts := PiecesFrom(kv, ":", pos, cur, quoted, Some(1));
            1 <= |parts| <= 2 && |parts[|parts| - 1]| <= |cur| + |kv| - pos
    decreases |kv| - pos
  {
    if pos < |kv| {
      if !quoted && kv[pos] == ':' {
        assert Window(kv, pos, 1) == ":";
        NoSplit(kv, pos + 1, "", quoted);
      } else {
        OneSplit(kv, pos + 1, cur + [kv[pos]], if kv[pos] == '`' then !quoted else quoted);
      }
    }
  }

  /** `int(x)` on a stack item; None covers its ValueError and the TypeError turned into one. */
  function ReadIntItem(x: Ty): Option<int>
  {
    if x.Raw? then ReadInt(x.text) else None
  }

  function ValidateDataType(text: string): (r: Outcome<Ty>)
    decreases |text|, 4
  {
    var s := Lower(Strip(text));
    if s in PRIMITIVES then Ok(Primitive(s)) else ParseComposite(s)
  }

  function ParseComposite(text: string): (r: Outcome<Ty>)
    decreases |text|, 3
  {
    var s := Strip(text);
    match Feed(START, s, |text|)
    case Raise(e) => Raise(e)
    case Ok(st) => if |st.stack| != 1 then Create([Raw(s)], |text|) else Ok(st.stack[0])
  }

  function Feed(st: Scan, s: string, ghost n: nat): (r: Outcome<Scan>)
    requires Valid(st, n) && |st.token| + |s| <= n
    ensures r.Ok? ==> Valid(r.value, n) && |r.value.token| <= |st.token| + |s|
    decreases n, 2, |s|
  {
    if s == [] then Ok(st)
    else
      match Step(st, s[0], n)
      case Raise(e) => Raise(e)
      case Ok(st1) => Feed(st1, s[1..], n)
  }

  function Step(st: Scan, ch: char, ghost n: nat): (r: Outcome<Scan>)
    requires Valid(st, n) && |st.token| < n
    ensures r.Ok? ==> Valid(r.value, n) && |r.value.token| <= |st.token| + 1
    decreases n, 1
  {
    if ch == '`' then Ok(st.(token := st.token + [ch], quoted := !st.quoted))
    else if st.quoted then Ok(st.(token := st.token + [ch]))
    else if ch == '<' || ch == '(' then Ok(OpenGroup(st, n))
    else if ch == '>' || ch == ')' then CloseGroup(st.(stack := Flushed(st), token := ""), n)
    else if ch == ',' then Ok(st.(stack := Flushed(st), token := ""))
    else Ok(st.(token := st.token + [ch]))
  }

  function OpenGroup(st: Scan, ghost n: nat): (r: Scan)
    requires Valid(st, n) && |st.token| < n
    ensures Valid(r, n) && r.token == ""
  {
    Scan(st.stack + [Raw(Strip(st.token))], st.brackets + [|st.stack|], "", st.quoted)
  }

  function CloseGroup(st: Scan, ghost n: nat): (r: Outcome<Scan>)
    requires Valid(st, n) && st.token == ""
    ensures r.Ok? ==> Valid(r.value, n) && r.value.token == ""
    decreases n, 0, 4
  {
    if st.brackets == [] then Raise(IndexError)
    else
      var last := |st.brackets| - 1;
      var at := st.brackets[last];
      match Create(st.stack[at..], n)
      case Raise(e) => Raise(e)
      case Ok(t) => Ok(Scan(st.stack[..at] + [t], st.brackets[..last], "", st.quoted))
  }

  function Create(items: seq<Ty>, ghost n: nat): (r: Outcome<Ty>)
    requires items != [] && items[0].Raw? && ShortTexts(items[1..], n)
    ensures r.Ok? ==> !r.value.Raw?
    decreases n, 0, 3
  {
    var parts := SplitStructKv(items[0].text);
    match ParseHandler(parts[|parts| - 1], items[1..], n)
    case Raise(e) => Raise(e)
    case Ok(t) => Ok(if |parts| == 1 then t else Pair(Field(parts[0], t)))
  }

  /** `handlers[typ].parse_composite(args)`. */
  function ParseHandler(typ: string, args: seq<Ty>, ghost n: nat): (r: Outcome<Ty>)
    requires ShortTexts(args, n)
    ensures r.Ok? ==> !r.value.Raw? && !r.value.Pair?
    decreases n, 0, 2
  {
    if typ == "varchar" || typ == "char" then
      if |args| != 1 then Raise(ValueError)
      else
        var limit := ReadIntItem(args[0]);
        if limit.None? || limit.value > MAX_LENGTH then Raise(ValueError)
        else Ok(if typ == "char" then Char(limit.value) else Varchar(limit.value))
    else if typ == "decimal" then
      if |args| > 2 then Raise(ValueError)
      else if |args| == 0 then Ok(Decimal(None, None))
      else
        var p := ReadIntItem(args[0]);
        if p.None? then Raise(ValueError)
        else if |args| == 1 then
          if p.value < 1 then Raise(ValueError) else Ok(Decimal(p, None))
        else
          var s := ReadIntItem(args[1]);
          if s.None? || p.value < 1 || s.value > p.value then Raise(ValueError) else Ok(Decimal(p, s))
    else if typ == "array" then
      if |args| != 1 then Raise(ValueError)
      else
        match AsType(args[0], n)
        case Raise(e) => Raise(e)
        case Ok(e) => Ok(Array(e))
    else if typ == "map" then
      if |args| != 2 then Raise(ValueError)
      else
        match AsType(args[0], n) {
          case Raise(e) => Raise(e)
          case Ok(k) =>
            match AsType(args[1], n)
            case Raise(e) => Raise(e)
            case Ok(v) => Ok(Map(k, v))
        }
    else if typ == "struct" then
      match CheckFields(args)
      case Raise(e) => Raise(e)
      case Ok(_) =>
        match StructFields(args, [], n)
        case Raise(e) => Raise(e)
        case Ok(fs) => Ok(Struct(fs))
    else if typ == "vector" then
      if |args| != 2 then Raise(ValueError)
      else
        match AsType(args[0], n)
        case Raise(e) => Raise(e)
        case Ok(e) =>
          var d := ReadIntItem(args[1]);
          if d.None? || d.value <= 0 then Raise(ValueError)
          else if e != Primitive("float") && e != Primitive("double") then Raise(ValueError)
          else Ok(Vector(e, d.value))
    else Raise(ValueError)
  }

  /** `validate_data_type` on a stack item. */
  function AsType(x: Ty, ghost n: nat): (r: Outcome<Ty>)
    requires x.Raw? ==> |x.text| < n
    decreases n, 0, 0
  {
    if x.Raw? then ValidateDataType(x.text)
    else if x.Pair? then Raise(ValueError)
    else Ok(x)
  }

  /** The first test of `Struct.parse_composite`: every item is a pair or a text with a colon. */
  function CheckFields(args: seq<Ty>): Outcome<()>
  {
    if args == [] then Ok(())
    else if args[0].Pair? then CheckFields(args[1..])
    else if !args[0].Raw? then Raise(TypeError)
    else if ':' !in args[0].text then Raise(ValueError)
    else CheckFields(args[1..])
  }

  /** `field_types[name] = ty` on an ordered dictionary. */
  function Upsert(fs: seq<Field>, name: string, ty: Ty): (r: seq<Field>)
  {
    if fs == [] then [Field(name, ty)]
    else if fs[0].name == name then [Field(name, ty)] + fs[1..]
    else [fs[0]] + Upsert(fs[1..], name, ty)
  }

  function StructFields(args: seq<Ty>, done: seq<Field>, ghost n: nat): (r: Outcome<seq<Field>>)
    requires ShortTexts(args, n)
    decreases n, 0, 1, |args|
  {
    if args == [] then Ok(done)
    else if args[0].Pair? then
      var f := args[0].field;
      if f.ty.Raw? || f.ty.Pair? then Raise(ValueError)
      else StructFields(args[1..], Upsert(done, f.name, f.ty), n)
    else if args[0].Raw? then
      var parts := SplitStructKv(args[0].text);
      if |parts| == 1 then Raise(ValueError)
      else
        match AsType(Raw(parts[1]), n)
        case Raise(e) => Raise(e)
        case Ok(ty) => StructFields(args[1..], Upsert(done, parts[0], ty), n)
    else Raise(TypeError)
  }

  method ParseCompositeTypes(text: string) returns (r: Outcome<Ty>)
    ensures r == ParseComposite(text)
  {
    hide ParseHandler, SplitStructKv, ValidateDataType, Strip, Feed, Create, CloseGroup, Valid, ShortTexts;
    var s := Strip(text);
    ghost var n := |text|;
    var stack: seq<Ty>, brackets: seq<nat> := [], [];
    var start, quoted := 0, false;
    ghost var st := START;
    StartIsValid(n);
    for idx := 0 to |s|
      invariant start <= idx
      invariant st == Scan(stack, brackets, s[start..idx], quoted)
      invariant Valid(st, n)
      invariant Feed(START, s, n) == Feed(st, s[idx..], n)
    {
      var ch := s[idx];
      ghost var next := Step(st, ch, n);
      FeedStep(st, s, idx, n);
      assert s[start..idx] + [ch] == s[start..idx + 1];
      if ch == '`' {
        quoted := !quoted;
      } else if !quoted {
        if ch == '<' || ch == '(' {
          brackets := brackets + [|stack|];
          stack := stack + [Raw(Strip(s[start..idx]))];
          start := idx + 1;
        } else if ch == '>' || ch == ')' {
          var token := Strip(s[start..idx]);
          if token != "" {
            stack := stack + [Raw(token)];
          }
          GroupCloses(st, ch, n);
          if brackets == [] {
            return Raise(IndexError);
          }
          var at := brackets[|brackets| - 1];
          brackets := brackets[..|brackets| - 1];
          var created := Create(stack[at..], n);
          if created.Raise? {
            return Raise(created.error);
          }
          stack := stack[..at] + [created.value];
          start := idx + 1;
        } else if ch == ',' {
          var token := Strip(s[start..idx]);
          if token != "" {
            stack := stack + [Raw(token)];
          }
          start := idx + 1;
        }
      }
      assert start == idx + 1 ==> s[start..idx + 1] == "";
      assert next == Ok(Scan(stack, brackets, s[start..idx + 1], quoted));
      st := next.value;
    }
    assert s[|s|..] == "";
    FeedNothing(st, n);
    NoItems(s, n);
    if |stack| != 1 {
      r := Create([Raw(s)], n);
      return;
    }
    return Ok(stack[0]);
  }

  /** What `CloseGroup` does, and that it may. */
  lemma GroupCloses(st: Scan, ch: char, n: nat)
    requires Valid(st, n) && |st.token| < n && !st.quoted && (ch == '>' || ch == ')')
    ensures st.brackets == [] ==> Step(st, ch, n) == Raise(IndexError)
    ensures var last, stack := |st.brackets| - 1, Flushed(st);
            st.brackets != [] ==>
              && st.brackets[last] < |stack|
              && var items := stack[st.brackets[last]..];
                 && items[0].Raw? && ShortTexts(items[1..], n)
                 && Step(st, ch, n) == match Create(items, n)
                                       case Raise(e) => Raise(e)
                                       case Ok(t) => Ok(Scan(stack[..st.brackets[last]] + [t],
                                                             st.brackets[..last], "", st.quoted))
  {
    hide Create, Flushed;
  }

  lemma StartIsValid(n: nat)
    ensures Valid(START, n)
  {
  }

  lemma NoItems(s: string, n: nat)
    ensures ShortTexts([Raw(s)][1..], n)
  {
  }

  lemma FeedNothing(st: Scan, n: nat)
    requires Valid(st, n) && |st.token| <= n
    ensures Feed(st, "", n) == Ok(st)
  {
  }

  lemma FeedStep(st: Scan, s: string, idx: nat, n: nat)
    requires Valid(st, n) && idx < |s| && |st.token| + |s| - idx <= n
    ensures Feed(st, s[idx..], n) == match Step(st, s[idx], n)
                                     case Raise(e) => Raise(e)
                                     case Ok(st1) => Feed(st1, s[idx + 1..], n)
  {
    assert s[idx..][0] == s[idx] && s[idx..][1..] == s[idx + 1..];
  }
}
