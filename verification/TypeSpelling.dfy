/** The spellings of a type: its name with blanks around every delimiter, either kind of
    bracket, and plain field names with or without backquotes. */
module TypeSpelling {
  import opened Text
  import opened Backquotes
  import opened TypeStrings

  // ----- spellings -----

  /** How one node of a type is laid out: blanks before the field name, before and
      after its colon, before the bracket, inside an empty bracket pair and at the end;
      whether a plain field name stays bare; and which brackets are used. */
  datatype Layout = Layout(before: string, colon: string, word: string, open: string, inner: string, after: string,
                           bare: bool, left: Bracket, right: Bracket, kids: seq<Layout>)

  datatype Bracket = Usual | Angle | Round

  const TIGHT := Layout("", "", "", "", "", "", false, Usual, Usual, [])

  predicate BlankLayout(l: Layout)
  {
    && AllBlank(l.before) && AllBlank(l.colon) && AllBlank(l.word)
    && AllBlank(l.open) && AllBlank(l.inner) && AllBlank(l.after)
    && forall k | k in l.kids :: BlankLayout(k)
  }

  function Kid(kids: seq<Layout>): Layout
  {
    if kids == [] then TIGHT else kids[0]
  }

  function Later(kids: seq<Layout>): seq<Layout>
  {
    if kids == [] then [] else kids[1..]
  }

  /** What stands between the brackets of a type. */
  datatype Arg = Word(text: string) | Whole(ty: Ty) | Labelled(field: Field)

  predicate Bracketed(t: Ty)
  {
    !t.Primitive? && t != Decimal(None, None)
  }

  function Head(t: Ty): string
  {
    match t
    case Primitive(name) => name
    case Varchar(_) => "varchar"
    case Char(_) => "char"
    case Decimal(_, _) => "decimal"
    case Array(_) => "array"
    case Map(_, _) => "map"
    case Struct(_) => "struct"
    case Vector(_, _) => "vector"
    case Raw(text) => text
    case Pair(f) => f.name
  }

  function Size(t: Ty): nat
  {
    match t
    case Decimal(_, _) => 4
    case Array(e) => 2 + Size(e)
    case Map(k, v) => 3 + Size(k) + Size(v)
    case Struct(fs) => 1 + FieldsSize(fs)
    case Vector(e, _) => 3 + Size(e)
    case _ => 2
  }

  function FieldsSize(fs: seq<Field>): nat
  {
    if fs == [] then 0 else 1 + Size(fs[0].ty) + FieldsSize(fs[1..])
  }

  function ArgSize(a: Arg): nat
  {
    match a
    case Word(_) => 1
    case Whole(t) => 1 + Size(t)
    case Labelled(f) => 1 + Size(f.ty)
  }

  function ArgsSize(args: seq<Arg>): nat
  {
    if args == [] then 0 else ArgSize(args[0]) + ArgsSize(args[1..])
  }

  function FieldArgs(fs: seq<Field>): (r: seq<Arg>)
    ensures ArgsSize(r) == FieldsSize(fs)
    ensures |r| == |fs|
  {
    if fs == [] then [] else [Labelled(fs[0])] + FieldArgs(fs[1..])
  }

  function TwoArgs(a: Arg, b: Arg): (r: seq<Arg>)
    ensures r == [a, b]
    ensures r[1..] == [b]
    ensures ArgsSize(r) == ArgSize(a) + ArgSize(b)
  {
    var r := [a, b];
    assert r[1..] == [b];
    assert ArgsSize([b]) == ArgSize(b);
    r
  }

  function Args(t: Ty): (r: seq<Arg>)
    ensures ArgsSize(r) < Size(t)
  {
    match t
    case Varchar(limit) => [Word(IntText(limit))]
    case Char(limit) => [Word(IntText(limit))]
    case Decimal(p, s) =>
      if p.None? then []
      else if s.None? then [Word(IntText(p.value))]
      else TwoArgs(Word(IntText(p.value)), Word(IntText(s.value)))
    case Array(e) => [Whole(e)]
    case Map(k, v) => TwoArgs(Whole(k), Whole(v))
    case Struct(fs) => FieldArgs(fs)
    case Vector(e, d) => TwoArgs(Whole(e), Word(IntText(d)))
    case _ => []
  }

  function OpenBracket(t: Ty, b: Bracket): string
  {
    if b == Angle || (b == Usual && (t.Array? || t.Map? || t.Struct?)) then "<" else "("
  }

  function CloseBracket(t: Ty, b: Bracket): string
  {
    if b == Angle || (b == Usual && (t.Array? || t.Map? || t.Struct?)) then ">" else ")"
  }

  /** A name that needs no backquotes. */
  predicate PlainName(s: string)
  {
    Tight(s) && PlainWord(s)
  }

  /** No character that the scanners treat specially. */
  predicate PlainWord(s: string)
  {
    forall c | c in s :: c !in "`<>(),:"
  }

  function NameText(name: string, bare: bool): string
  {
    if bare && PlainName(name) then name else BackquoteString(name)
  }

  function Spell(t: Ty, l: Layout): string
    decreases Size(t), 1
  {
    if !Bracketed(t) then Head(t)
    else
      Head(t) + l.open + OpenBracket(t, l.left)
      + (if Args(t) == [] then l.inner else SpellArgs(Args(t), l.kids))
      + CloseBracket(t, l.right)
  }

  function SpellArg(a: Arg, l: Layout): string
    decreases ArgSize(a), 0
  {
    match a
    case Word(text) => l.before + text + l.after
    case Whole(t) => l.before + Spell(t, l) + l.after
    case Labelled(f) => l.before + NameText(f.name, l.bare) + l.colon + ":" + l.word + Spell(f.ty, l) + l.after
  }

  function SpellArgs(args: seq<Arg>, kids: seq<Layout>): string
    requires args != []
    decreases ArgsSize(args), 1
  {
    if |args| == 1 then SpellArg(args[0], Kid(kids))
    else SpellArg(args[0], Kid(kids)) + "," + SpellArgs(args[1..], Later(kids))
  }

  /** The printer's own text is the tight spelling. */
  lemma {:induction false} NameIsTightSpelling(t: Ty)
    requires WellFormed(t)
    ensures Name(t) == Spell(t, TIGHT)
    decreases t, 1
  {
    if Bracketed(t) && Args(t) != [] {
      TightInner(t);
      NameParts(t);
      GroupText(Head(t), OpenBracket(t, Usual), InnerName(t), CloseBracket(t, Usual));
    } else if Bracketed(t) {
      assert "struct" + "" + "<" + "" + ">" == "struct<" + "" + ">";
    }
  }

  lemma GroupText(h: string, o: string, x: string, c: string)
    ensures h + "" + o + x + c == h + o + x + c
  {
    assert h + "" == h;
  }

  lemma NameParts(t: Ty)
    requires WellFormed(t) && Bracketed(t)
    ensures Name(t) == Head(t) + OpenBracket(t, Usual) + InnerName(t) + CloseBracket(t, Usual)
  {
    var opening := Head(t) + OpenBracket(t, Usual);
    match t
    case Varchar(_) => assert opening == "varchar(";
    case Char(_) => assert opening == "char(";
    case Decimal(p, s) =>
      assert opening == "decimal(";
      if s.Some? {
        CommaGroups("decimal(", IntText(p.value), IntText(s.value), ")");
      }
    case Array(_) => assert opening == "array<";
    case Map(k, v) =>
      assert opening == "map<";
      CommaGroups("map<", Name(k), Name(v), ">");
    case Struct(_) => assert opening == "struct<";
    case Vector(e, d) =>
      assert opening == "vector(";
      CommaGroups("vector(", Name(e), IntText(d), ")");
  }

  lemma CommaGroups(o: string, a: string, b: string, c: string)
    ensures o + a + "," + b + c == o + (a + "," + b) + c
  {
  }

  /** What the printer puts between the brackets. */
  function InnerName(t: Ty): string
    requires WellFormed(t) && Bracketed(t)
  {
    match t
    case Varchar(limit) => IntText(limit)
    case Char(limit) => IntText(limit)
    case Decimal(p, s) => if s.None? then IntText(p.value) else IntText(p.value) + "," + IntText(s.value)
    case Array(e) => Name(e)
    case Map(k, v) => Name(k) + "," + Name(v)
    case Struct(fs) => FieldNames(fs)
    case Vector(e, d) => Name(e) + "," + IntText(d)
  }

  lemma {:induction false} TightInner(t: Ty)
    requires WellFormed(t) && Bracketed(t) && Args(t) != []
    ensures SpellArgs(Args(t), []) == InnerName(t)
    decreases t, 0
  {
    match t
    case Array(e) =>
      NameIsTightSpelling(e);
      TightArgIs(Whole(e));
    case Map(k, v) =>
      NameIsTightSpelling(k);
      NameIsTightSpelling(v);
      TightPair(Whole(k), Whole(v));
    case Struct(fs) => FieldNamesAreTight(fs);
    case Vector(e, d) =>
      NameIsTightSpelling(e);
      TightPair(Whole(e), Word(IntText(d)));
    case Decimal(p, s) =>
      if s.None? {
        TightArgIs(Word(IntText(p.value)));
      } else {
        TightPair(Word(IntText(p.value)), Word(IntText(s.value)));
      }
    case Varchar(limit) => TightArgIs(Word(IntText(limit)));
    case Char(limit) => TightArgIs(Word(IntText(limit)));
  }

  function TightArg(a: Arg): string
  {
    match a
    case Word(text) => text
    case Whole(t) => Spell(t, TIGHT)
    case Labelled(f) => BackquoteString(f.name) + ":" + Spell(f.ty, TIGHT)
  }

  lemma TightArgIs(a: Arg)
    ensures SpellArg(a, TIGHT) == TightArg(a)
  {
  }

  lemma TightPair(a: Arg, b: Arg)
    ensures SpellArgs([a, b], []) == TightArg(a) + "," + TightArg(b)
  {
    assert [a, b][1..] == [b];
    TightArgIs(a);
    TightArgIs(b);
  }

  lemma {:induction false} FieldNamesAreTight(fs: seq<Field>)
    requires fs != [] && forall f | f in fs :: WellFormed(f.ty)
    ensures FieldNames(fs) == SpellArgs(FieldArgs(fs), [])
    decreases fs
  {
    NameIsTightSpelling(fs[0].ty);
    TightArgIs(Labelled(fs[0]));
    if |fs| > 1 {
      FieldNamesAreTight(fs[1..]);
      assert FieldArgs(fs)[1..] == FieldArgs(fs[1..]);
    }
  }
}
