/** What a spelled type leaves on the parser's stack (odps/types.py), and that a closing bracket makes
    the type of it again. */
module TypeHandlers {
  import opened Text
  import opened Backquotes
  import opened TypeStrings
  import opened TypeSpelling
  import opened TypeTokens

  // ----- what a spelled argument leaves on the stack -----

  function PrefixText(key: Option<string>, l: Layout): string
  {
    if key.None? then l.before
    else l.before + NameText(key.value, l.bare) + l.colon + ":" + l.word
  }

  function Item(key: Option<string>, t: Ty): Ty
  {
    if key.None? then t else Pair(Field(key.value, t))
  }

  /** A bracketed type is finished at its closing bracket; any other is still a text. */
  function TypeItem(key: Option<string>, t: Ty, l: Layout): Ty
  {
    if Bracketed(t) then Item(key, t) else Raw(Strip(PrefixText(key, l) + Head(t)))
  }

  function ArgItem(a: Arg, l: Layout): Ty
  {
    match a
    case Word(text) => Raw(text)
    case Whole(t) => TypeItem(None, t, l)
    case Labelled(f) => TypeItem(Some(f.name), f.ty, l)
  }

  function ArgItems(args: seq<Arg>, kids: seq<Layout>): (r: seq<Ty>)
    ensures |r| == |args|
  {
    if args == [] then [] else [ArgItem(args[0], Kid(kids))] + ArgItems(args[1..], Later(kids))
  }

  /** A keyword or a number. */
  predicate IsWord(w: string)
  {
    w != "" && Tight(w) && PlainWord(w)
  }

  predicate ArgOk(a: Arg)
  {
    match a
    case Word(text) => IsWord(text)
    case Whole(t) => WellFormed(t)
    case Labelled(f) => WellFormed(f.ty)
  }

  lemma HeadIsWord(t: Ty)
    requires WellFormed(t)
    ensures IsWord(Head(t))
  {
    if t.Primitive? {
      PrimitiveIsLetters(t.name);
    } else {
      CompositeIsLetters(Head(t));
    }
    LettersAreWord(Head(t));
  }

  predicate Letters(w: string)
  {
    w != "" && forall c | c in w :: 'a' <= c <= 'z' || c == '_'
  }

  lemma NumericIsLetters(name: string)
    requires name in NUMERIC
    ensures Letters(name)
  {
  }

  lemma TextualIsLetters(name: string)
    requires name in TEXTUAL
    ensures Letters(name)
  {
  }

  lemma TemporalIsLetters(name: string)
    requires name in TEMPORAL
    ensures Letters(name)
  {
  }

  lemma IntervalIsLetters(name: string)
    requires name in INTERVAL
    ensures Letters(name)
  {
  }

  lemma PrimitiveIsLetters(name: string)
    requires name in PRIMITIVES
    ensures Letters(name)
  {
    hide Letters, NUMERIC, TEXTUAL, TEMPORAL, INTERVAL;
    if name in NUMERIC {
      NumericIsLetters(name);
    } else if name in TEXTUAL {
      TextualIsLetters(name);
    } else if name in TEMPORAL {
      TemporalIsLetters(name);
    } else {
      IntervalIsLetters(name);
    }
  }

  lemma CompositeIsLetters(name: string)
    requires name in {"varchar", "char", "decimal", "array", "map", "struct", "vector"}
    ensures Letters(name)
  {
  }

  lemma LettersAreWord(w: string)
    requires Letters(w)
    ensures IsWord(w)
  {
    assert w[0] in w && w[|w| - 1] in w;
  }

  lemma IntTextIsWord(n: int)
    ensures IsWord(IntText(n))
  {
    TightIntText(n);
  }

  lemma {:induction false} FieldArgsOk(fs: seq<Field>)
    requires forall f | f in fs :: WellFormed(f.ty)
    ensures forall a | a in FieldArgs(fs) :: ArgOk(a)
  {
    if fs != [] {
      assert fs[0] in fs;
      forall f | f in fs[1..] ensures WellFormed(f.ty) {
        assert f in fs;
      }
      FieldArgsOk(fs[1..]);
    }
  }

  lemma ArgsOk(t: Ty)
    requires WellFormed(t)
    ensures forall a | a in Args(t) :: ArgOk(a)
  {
    match t
    case Varchar(limit) => IntTextIsWord(limit);
    case Char(limit) => IntTextIsWord(limit);
    case Decimal(p, s) =>
      if p.Some? {
        IntTextIsWord(p.value);
      }
      if s.Some? {
        IntTextIsWord(s.value);
      }
    case Struct(fs) => FieldArgsOk(fs);
    case Vector(e, d) => IntTextIsWord(d);
    case _ =>
  }

  lemma {:induction false} LStripSkips(w: string, q: bool, special: string)
    requires Skips(w, q, special)
    ensures Skips(LStrip(w), q, special) && QuoteAfter(LStrip(w), q) == QuoteAfter(w, q)
  {
    if w != [] && IsBlank(w[0]) {
      LStripSkips(w[1..], q, special);
    }
  }

  lemma {:induction false} LStripTwice(w: string)
    ensures LStrip(LStrip(w)) == LStrip(w)
  {
    if w != [] && IsBlank(w[0]) {
      LStripTwice(w[1..]);
    }
  }

  lemma {:induction false} LStripThrough(k: string, rest: string)
    requires rest != [] && !IsBlank(rest[0])
    ensures LStrip(k + rest) == LStrip(k) + rest
  {
    if k == [] {
      assert k + rest == rest;
    } else {
      assert (k + rest)[1..] == k[1..] + rest;
      LStripThrough(k[1..], rest);
    }
  }

  /** A key and its keyword split apart, whatever blanks surround the three tokens. */
  lemma SplitPrefixed(key: Option<string>, l: Layout, h: string, b: string)
    requires BlankLayout(l) && IsWord(h) && AllBlank(b)
    ensures SplitStructKv(Strip(PrefixText(key, l) + h + b)) == if key.None? then [h] else [key.value, h]
  {
    if key.None? {
      StripPadded(l.before, h, b);
      PlainSkips(h, false, ":");
      SplitUnlabelled(h);
      StripTight(h);
    } else {
      SplitKeyed(key.value, l, h, b);
    }
  }

  lemma SplitKeyed(name: string, l: Layout, h: string, b: string)
    requires BlankLayout(l) && IsWord(h) && AllBlank(b)
    ensures SplitStructKv(Strip(PrefixText(Some(name), l) + h + b)) == [name, h]
  {
    hide LStrip, RStrip, SplitStructKv, NameText;
    var k, v := l.before + NameText(name, l.bare) + l.colon, l.word + h;
    LabelSkips(name, l);
    LStripSkips(k, false, ":");
    StripLabel(k, v, b, h);
    assert PrefixText(Some(name), l) + h + b == k + (":" + v + b);
    SplitLabelled(LStrip(k), v);
    LStripTwice(k);
    NameRecovered(l.before, name, l.bare, l.colon);
    assert StripBackquotes(LStrip(k)) == StripBackquotes(k);
    StripPadded(l.word, h, "");
    assert l.word + h + "" == v;
  }

  lemma LabelSkips(name: string, l: Layout)
    requires BlankLayout(l)
    ensures var k := l.before + NameText(name, l.bare) + l.colon;
            Skips(k, false, ":") && !QuoteAfter(k, false)
            && Skips(k + ":" + l.word, false, BRACKETS) && !QuoteAfter(k + ":" + l.word, false)
  {
    var n := NameText(name, l.bare);
    forall special | special == ":" || special == BRACKETS
      ensures var k := l.before + n + l.colon; Skips(k, false, special) && !QuoteAfter(k, false)
    {
      forall w, q | w in [l.before, l.colon] ensures Skips(w, q, special) && QuoteAfter(w, q) == q {
        BlankIsPlain(w, special);
        PlainSkips(w, q, special);
      }
      NameSkips(name, l.bare, special);
      SkipsAppend(l.before, n, false, special);
      SkipsAppend(l.before + n, l.colon, false, special);
    }
    var k := l.before + n + l.colon;
    BlankIsPlain(l.word, BRACKETS);
    PlainSkips(l.word, false, BRACKETS);
    PlainSkips(":", false, BRACKETS);
    SkipsAppend(k, ":", false, BRACKETS);
    SkipsAppend(k + ":", l.word, false, BRACKETS);
  }

  lemma BlankIsPlain(w: string, special: string)
    requires AllBlank(w) && forall c | c in special :: !IsBlank(c)
    ensures forall c | c in w :: c != '`' && c !in special
  {
  }

  lemma StripLabel(k: string, v: string, b: string, h: string)
    requires AllBlank(b) && h != [] && Tight(h)
    requires |h| <= |v| && v[|v| - |h|..] == h
    ensures Strip(k + (":" + v + b)) == LStrip(k) + ":" + v
  {
    hide LStrip, RStrip;
    var rest := ":" + v + b;
    LStripThrough(k, rest);
    var x := LStrip(k) + ":" + v;
    assert LStrip(k) + rest == x + b;
    LastOf(LStrip(k) + ":", v, h);
    RStripKeeps(x, b);
  }

  lemma LastOf(a: string, v: string, h: string)
    requires h != [] && |h| <= |v| && v[|v| - |h|..] == h
    ensures (a + v)[|a + v| - 1] == h[|h| - 1]
  {
    assert v[|v| - |h|..][|h| - 1] == v[|v| - 1];
  }

  lemma RStripKeeps(x: string, b: string)
    requires AllBlank(b) && x != [] && !IsBlank(x[|x| - 1])
    ensures RStrip(x + b) == x
  {
    RStripPadded(x, b);
  }

  // ----- a closing bracket rebuilds the type -----

  /** An unbracketed type's text resolves to that type. */
  lemma ResolveHead(t: Ty)
    requires WellFormed(t) && !Bracketed(t)
    ensures ValidateDataType(Head(t)) == Ok(t)
  {
    hide ParseComposite, IsBlank, LStrip, RStrip;
    var h := Head(t);
    HeadIsWord(t);
    StripTight(h);
    HeadIsLower(t);
    LowerIsLower(h);
    if t.Decimal? {
      ResolveDecimal();
      CompositeNotPrimitive(h);
    }
  }

  lemma CompositeNotPrimitive(name: string)
    requires name == "decimal"
    ensures name !in PRIMITIVES
  {
    assert name[2] == 'c';
  }

  lemma HeadIsLower(t: Ty)
    requires WellFormed(t)
    ensures IsLower(Head(t))
  {
    if t.Primitive? {
      PrimitiveIsLetters(t.name);
    } else {
      CompositeIsLetters(Head(t));
    }
  }

  lemma ResolveDecimal()
    ensures ParseComposite("decimal") == Ok(Decimal(None, None))
  {
    hide LStrip, RStrip, Step, PiecesFrom, StripBackquotes;
    var h := "decimal";
    CompositeIsLetters(h);
    LettersAreWord(h);
    StripTight(h);
    PlainSkips(h, false, BRACKETS);
    FeedSkips(START, h, |h|);
    PlainSkips(h, false, ":");
    SplitUnlabelled(h);
  }

  lemma AsTypeItem(t: Ty, l: Layout, n: nat)
    requires WellFormed(t) && BlankLayout(l)
    requires var x := TypeItem(None, t, l); x.Raw? ==> |x.text| < n
    ensures AsType(TypeItem(None, t, l), n) == Ok(t)
  {
    if !Bracketed(t) {
      HeadIsWord(t);
      StripPadded(l.before, Head(t), "");
      assert PrefixText(None, l) + Head(t) == l.before + Head(t) + "";
      ResolveHead(t);
    }
  }

  lemma {:induction false} UpsertNew(done: seq<Field>, f: Field)
    requires forall g | g in done :: g.name != f.name
    ensures Upsert(done, f.name, f.ty) == done + [f]
  {
    if done != [] {
      forall g | g in done[1..] ensures g.name != f.name {
        assert g in done;
      }
      UpsertNew(done[1..], f);
      assert [done[0]] + (done[1..] + [f]) == done + [f];
    }
  }

  /** One field item, finished or still a text, passes the first test of the struct handler
      and yields its field. */
  lemma FieldItem(f: Field, l: Layout, n: nat)
    requires WellFormed(f.ty) && BlankLayout(l)
    requires var x := TypeItem(Some(f.name), f.ty, l); x.Raw? ==> |x.text| < n
    ensures var x := TypeItem(Some(f.name), f.ty, l);
            if Bracketed(f.ty) then x == Pair(f)
            else x.Raw? && ':' in x.text && SplitStructKv(x.text) == [f.name, Head(f.ty)]
                 && AsType(Raw(Head(f.ty)), n) == Ok(f.ty)
  {
    if !Bracketed(f.ty) {
      hide NameText, StripBackquotes, PiecesFrom, ParseComposite;
      var h := Head(f.ty);
      HeadIsWord(f.ty);
      SplitPrefixed(Some(f.name), l, h, "");
      assert PrefixText(Some(f.name), l) + h + "" == PrefixText(Some(f.name), l) + h;
      ResolveHead(f.ty);
      KeyedHasColon(f.name, l, h);
    }
  }

  lemma KeyedHasColon(name: string, l: Layout, h: string)
    requires BlankLayout(l) && IsWord(h)
    ensures ':' in Strip(PrefixText(Some(name), l) + h)
    ensures |h| <= |Strip(PrefixText(Some(name), l) + h)|
  {
    hide LStrip, RStrip, NameText;
    var k, v := l.before + NameText(name, l.bare) + l.colon, l.word + h;
    StripLabel(k, v, "", h);
    assert PrefixText(Some(name), l) + h == k + (":" + v + "");
    var x := LStrip(k) + ":" + v;
    assert x[|LStrip(k)|] == ':';
  }

  lemma FieldConsumed(f: Field, l: Layout, rest: seq<Ty>, done: seq<Field>, n: nat)
    requires WellFormed(f.ty) && BlankLayout(l)
    requires ShortTexts([TypeItem(Some(f.name), f.ty, l)] + rest, n) && ShortTexts(rest, n)
    ensures var items := [TypeItem(Some(f.name), f.ty, l)] + rest;
            && CheckFields(items) == CheckFields(rest)
            && StructFields(items, done, n) == StructFields(rest, Upsert(done, f.name, f.ty), n)
  {
    hide SplitStructKv, AsType, TypeItem;
    var x := TypeItem(Some(f.name), f.ty, l);
    assert ([x] + rest)[1..] == rest && x in [x] + rest;
    FieldItem(f, l, n);
  }

  lemma {:induction false} FieldsRebuilt(done: seq<Field>, fs: seq<Field>, kids: seq<Layout>, n: nat)
    requires DistinctNames(done + fs) && forall f | f in fs :: WellFormed(f.ty)
    requires forall k | k in kids :: BlankLayout(k)
    requires ShortTexts(ArgItems(FieldArgs(fs), kids), n)
    ensures CheckFields(ArgItems(FieldArgs(fs), kids)) == Ok(())
    ensures StructFields(ArgItems(FieldArgs(fs), kids), done, n) == Ok(done + fs)
    decreases |fs|
  {
    hide SplitStructKv, AsType, TypeItem, StructFields, CheckFields, WellFormed, BlankLayout;
    if fs == [] {
      assert done + fs == done;
      NoFields(done, n);
    } else {
      var f, rest := fs[0], ArgItems(FieldArgs(fs[1..]), Later(kids));
      assert FieldArgs(fs)[1..] == FieldArgs(fs[1..]);
      assert ArgItems(FieldArgs(fs), kids) == [TypeItem(Some(f.name), f.ty, Kid(kids))] + rest;
      assert ShortTexts(rest, n) by {
        forall x | x in rest ensures x in ArgItems(FieldArgs(fs), kids) {
        }
      }
      KidIsBlank(kids);
      FieldConsumed(f, Kid(kids), rest, done, n);
      NewName(done, fs);
      UpsertNew(done, f);
      assert done + [f] + fs[1..] == done + fs;
      forall g | g in fs[1..] ensures WellFormed(g.ty) {
        assert g in fs;
      }
      FieldsRebuilt(done + [f], fs[1..], Later(kids), n);
    }
  }

  lemma KidIsBlank(kids: seq<Layout>)
    requires forall k | k in kids :: BlankLayout(k)
    ensures BlankLayout(Kid(kids)) && forall k | k in Later(kids) :: BlankLayout(k)
  {
  }

  lemma NoFields(done: seq<Field>, n: nat)
    ensures CheckFields([]) == Ok(()) && StructFields([], done, n) == Ok(done)
  {
  }

  lemma NewName(done: seq<Field>, fs: seq<Field>)
    requires fs != [] && DistinctNames(done + fs)
    ensures forall g | g in done :: g.name != fs[0].name
  {
    forall g | g in done ensures g.name != fs[0].name {
      var i :| 0 <= i < |done| && done[i] == g;
      assert (done + fs)[i] == g && (done + fs)[|done|] == fs[0];
    }
  }

  lemma OneItem(a: Arg, kids: seq<Layout>)
    ensures ArgItems([a], kids) == [ArgItem(a, Kid(kids))]
  {
  }

  lemma TwoItems(a: Arg, b: Arg, kids: seq<Layout>)
    ensures ArgItems([a, b], kids) == [ArgItem(a, Kid(kids)), ArgItem(b, Kid(Later(kids)))]
  {
    assert [a, b][1..] == [b];
    OneItem(b, Later(kids));
  }

  lemma HandlerRebuilds(t: Ty, kids: seq<Layout>, n: nat)
    requires WellFormed(t) && Bracketed(t) && forall k | k in kids :: BlankLayout(k)
    requires ShortTexts(ArgItems(Args(t), kids), n)
    ensures ParseHandler(Head(t), ArgItems(Args(t), kids), n) == Ok(t)
  {
    hide ParseHandler, BlankLayout, ArgItems, ShortTexts;
    KidIsBlank(kids);
    KidIsBlank(Later(kids));
    match t
    case Struct(fs) => StructRebuilt(fs, kids, n);
    case Array(e) => ArrayRebuilt(e, kids, n);
    case Map(k, v) => MapRebuilt(k, v, kids, n);
    case Vector(e, d) => VectorRebuilt(e, d, kids, n);
    case Decimal(p, s) => DecimalRebuilt(p, s, kids, n);
    case _ => SizedRebuilt(t, kids, n);
  }

  lemma SizedRebuilt(t: Ty, kids: seq<Layout>, n: nat)
    requires (t.Varchar? || t.Char?) && t.limit <= MAX_LENGTH
    requires ShortTexts(ArgItems(Args(t), kids), n)
    ensures ParseHandler(Head(t), ArgItems(Args(t), kids), n) == Ok(t)
  {
    hide ReadInt;
    OneItem(Word(IntText(t.limit)), kids);
    ReadIntText(t.limit);
  }

  lemma DecimalRebuilt(p: Option<int>, s: Option<int>, kids: seq<Layout>, n: nat)
    requires WellFormed(Decimal(p, s)) && p.Some?
    requires ShortTexts(ArgItems(Args(Decimal(p, s)), kids), n)
    ensures ParseHandler("decimal", ArgItems(Args(Decimal(p, s)), kids), n) == Ok(Decimal(p, s))
  {
    hide ReadInt;
    ReadIntText(p.value);
    if s.None? {
      OneItem(Word(IntText(p.value)), kids);
    } else {
      ReadIntText(s.value);
      TwoItems(Word(IntText(p.value)), Word(IntText(s.value)), kids);
    }
  }

  lemma ArrayRebuilt(e: Ty, kids: seq<Layout>, n: nat)
    requires WellFormed(e) && BlankLayout(Kid(kids))
    requires ShortTexts(ArgItems(Args(Array(e)), kids), n)
    ensures ParseHandler("array", ArgItems(Args(Array(e)), kids), n) == Ok(Array(e))
  {
    hide AsType, TypeItem, BlankLayout;
    OneItem(Whole(e), kids);
    assert TypeItem(None, e, Kid(kids)) in ArgItems(Args(Array(e)), kids);
    AsTypeItem(e, Kid(kids), n);
  }

  lemma MapRebuilt(k: Ty, v: Ty, kids: seq<Layout>, n: nat)
    requires WellFormed(k) && WellFormed(v) && BlankLayout(Kid(kids)) && BlankLayout(Kid(Later(kids)))
    requires ShortTexts(ArgItems(Args(Map(k, v)), kids), n)
    ensures ParseHandler("map", ArgItems(Args(Map(k, v)), kids), n) == Ok(Map(k, v))
  {
    hide AsType, TypeItem, BlankLayout;
    TwoItems(Whole(k), Whole(v), kids);
    var items := ArgItems(Args(Map(k, v)), kids);
    assert TypeItem(None, k, Kid(kids)) in items && TypeItem(None, v, Kid(Later(kids))) in items;
    AsTypeItem(k, Kid(kids), n);
    AsTypeItem(v, Kid(Later(kids)), n);
  }

  lemma VectorRebuilt(e: Ty, d: int, kids: seq<Layout>, n: nat)
    requires WellFormed(Vector(e, d)) && BlankLayout(Kid(kids))
    requires ShortTexts(ArgItems(Args(Vector(e, d)), kids), n)
    ensures ParseHandler("vector", ArgItems(Args(Vector(e, d)), kids), n) == Ok(Vector(e, d))
  {
    hide AsType, TypeItem, ReadInt, BlankLayout, ParseHandler;
    TwoItems(Whole(e), Word(IntText(d)), kids);
    var items := ArgItems(Args(Vector(e, d)), kids);
    assert TypeItem(None, e, Kid(kids)) in items;
    AsTypeItem(e, Kid(kids), n);
    ReadIntText(d);
    VectorHandled(items, e, d, n);
  }

  lemma VectorHandled(items: seq<Ty>, e: Ty, d: int, n: nat)
    requires ShortTexts(items, n) && |items| == 2 && AsType(items[0], n) == Ok(e) && ReadIntItem(items[1]) == Some(d)
    requires WellFormed(Vector(e, d))
    ensures ParseHandler("vector", items, n) == Ok(Vector(e, d))
  {
    hide AsType, ReadIntItem;
  }

  lemma StructRebuilt(fs: seq<Field>, kids: seq<Layout>, n: nat)
    requires WellFormed(Struct(fs)) && forall k | k in kids :: BlankLayout(k)
    requires ShortTexts(ArgItems(FieldArgs(fs), kids), n)
    ensures ParseHandler("struct", ArgItems(FieldArgs(fs), kids), n) == Ok(Struct(fs))
  {
    hide ArgItems, FieldArgs, StructFields, CheckFields, AsType, BlankLayout, ParseHandler;
    assert [] + fs == fs;
    FieldsRebuilt([], fs, kids, n);
    StructHandled(ArgItems(FieldArgs(fs), kids), fs, n);
  }

  lemma StructHandled(items: seq<Ty>, fs: seq<Field>, n: nat)
    requires ShortTexts(items, n) && CheckFields(items) == Ok(()) && StructFields(items, [], n) == Ok(fs)
    ensures ParseHandler("struct", items, n) == Ok(Struct(fs))
  {
    hide StructFields, CheckFields, AsType, ReadIntItem;
  }

  lemma CreateRebuilds(key: Option<string>, t: Ty, l: Layout, items: seq<Ty>, n: nat)
    requires WellFormed(t) && Bracketed(t) && BlankLayout(l)
    requires items == ArgItems(Args(t), l.kids) && ShortTexts(items, n)
    ensures Create([Raw(Strip(PrefixText(key, l) + Head(t) + l.open))] + items, n) == Ok(Item(key, t))
  {
    hide ParseHandler, SplitStructKv, Strip, PrefixText, ArgItems;
    var all := [Raw(Strip(PrefixText(key, l) + Head(t) + l.open))] + items;
    assert all[1..] == items;
    HeadIsWord(t);
    SplitPrefixed(key, l, Head(t), l.open);
    HandlerRebuilds(t, l.kids, n);
  }
}
