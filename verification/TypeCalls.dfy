/** Types written as a name with words in brackets (odps/types.py): which of them the parser accepts, and what it raises
    for the others. */
module TypeCalls {
  import opened Text
  import opened TypeStrings
  import opened TypeSpelling
  import opened TypeTokens
  import opened TypeHandlers
  import opened TypeFeeding

  // ----- reading a name and words in brackets -----

  function Raws(ws: seq<string>): (r: seq<Ty>)
    ensures |r| == |ws| && forall i | 0 <= i < |ws| :: r[i] == Raw(ws[i])
    ensures forall n: nat :: (forall w | w in ws :: |w| < n) ==> ShortTexts(r, n)
  {
    seq(|ws|, i requires 0 <= i < |ws| => Raw(ws[i]))
  }

  function JoinWords(ws: seq<string>): string
    requires ws != []
  {
    if |ws| == 1 then ws[0] else ws[0] + ("," + JoinWords(ws[1..]))
  }

  function CallText(h: string, ws: seq<string>): string
    requires ws != []
  {
    h + ("(" + (JoinWords(ws) + ")"))
  }

  lemma WordIsFlushed(st: Scan, w: string)
    requires IsWord(w) && st.token == w
    ensures Flushed(st) == st.stack + [Raw(w)]
  {
    StripTight(w);
  }

  lemma WordIsPlain(w: string)
    requires IsWord(w)
    ensures forall c | c in w :: c != '`' && c !in BRACKETS && c != ':'
  {
  }

  lemma {:induction false} FeedWords(st: Scan, ws: seq<string>, n: nat)
    requires ws != [] && (forall w | w in ws :: IsWord(w)) && ReadyFor(st, JoinWords(ws), n) && st.token == ""
    ensures Feed(st, JoinWords(ws), n)
         == Ok(st.(stack := st.stack + Raws(ws[..|ws| - 1]), token := ws[|ws| - 1]))
    decreases |ws|
  {
    hide Feed, Valid, Flushed, IsWord;
    var w := ws[0];
    assert w in ws;
    WordIsPlain(w);
    if |ws| == 1 {
      FeedPlain(st, w, n);
      assert "" + w == w && st.stack + Raws(ws[..0]) == st.stack;
    } else {
      var later := JoinWords(ws[1..]);
      var st1 := st.(token := w);
      FeedPlain(st, w, n);
      assert "" + w == w;
      FeedThen(st, w, "," + later, st1, n);
      FeedComma(st1, later, n);
      WordIsFlushed(st1, w);
      var st2 := st.(stack := st.stack + [Raw(w)]);
      FeedWords(st2, ws[1..], n);
      assert st.stack + [Raw(w)] + Raws(ws[1..][..|ws| - 2]) == st.stack + Raws(ws[..|ws| - 1]);
    }
  }

  lemma {:induction false} JoinIsPlain(ws: seq<string>)
    requires ws != [] && forall w | w in ws :: IsWord(w)
    ensures JoinWords(ws) != ""
  {
    assert ws[0] in ws;
  }

  lemma CallIsTight(h: string, ws: seq<string>)
    requires IsWord(h) && ws != []
    ensures Strip(CallText(h, ws)) == CallText(h, ws)
  {
    hide JoinWords;
    var s := CallText(h, ws);
    assert s[0] == h[0] && s[|s| - 1] == ')';
    StripTight(s);
  }

  lemma FirstScan()
    ensures Valid(START, 0) && forall n: nat :: Valid(START, n)
  {
  }

  lemma ClosesToCreate(st: Scan, h: string, ws: seq<string>, n: nat)
    requires IsWord(h) && ws != [] && (forall w | w in ws :: IsWord(w) && |w| < n)
    requires st == Scan([Raw(h)] + Raws(ws), [0], "", false)
    ensures Valid(st, n) ==>
              CloseGroup(st, n) == match Create([Raw(h)] + Raws(ws), n)
                                   case Raise(e) => Raise(e)
                                   case Ok(t) => Ok(Scan([t], [], "", false))
  {
    hide Create;
    assert st.stack[0..] == st.stack && st.stack[..0] == [] && st.brackets[..0] == [];
    assert ([Raw(h)] + Raws(ws))[1..] == Raws(ws);
    var created := Create([Raw(h)] + Raws(ws), n);
    assert created.Ok? ==> [] + [created.value] == [created.value];
  }

  lemma HandlerIsNamed(h: string, ws: seq<string>, n: nat)
    requires IsWord(h) && forall w | w in ws :: |w| < n
    ensures ([Raw(h)] + Raws(ws))[1..] == Raws(ws)
    ensures Create([Raw(h)] + Raws(ws), n) == ParseHandler(h, Raws(ws), n)
  {
    hide ParseHandler, SplitStructKv;
    assert ([Raw(h)] + Raws(ws))[1..] == Raws(ws);
    WordIsPlain(h);
    PlainSkips(h, false, ":");
    SplitUnlabelled(h);
    StripTight(h);
  }

  lemma FeedInside(h: string, ws: seq<string>, n: nat)
    requires IsWord(h) && ws != [] && forall w | w in ws :: IsWord(w) && |w| < n
    requires ReadyFor(Scan([Raw(h)], [0], "", false), JoinWords(ws) + ")", n)
    ensures Feed(Scan([Raw(h)], [0], "", false), JoinWords(ws) + ")", n)
         == match ParseHandler(h, Raws(ws), n)
            case Raise(e) => Raise(e)
            case Ok(t) => Ok(Scan([t], [], "", false))
  {
    hide Feed, Valid, Flushed, IsWord, CloseGroup, ParseHandler, Create, JoinWords;
    var st2, inner := Scan([Raw(h)], [0], "", false), JoinWords(ws);
    FeedWords(st2, ws, n);
    var st3 := st2.(stack := [Raw(h)] + Raws(ws[..|ws| - 1]), token := ws[|ws| - 1]);
    FeedThen(st2, inner, ")", st3, n);
    FeedShut(st3, ")", n);
    WordIsFlushed(st3, ws[|ws| - 1]);
    assert [Raw(h)] + Raws(ws[..|ws| - 1]) + [Raw(ws[|ws| - 1])] == [Raw(h)] + Raws(ws);
    FlushedIsValid(st3, n);
    ClosesToCreate(st3.(stack := Flushed(st3), token := ""), h, ws, n);
    HandlerIsNamed(h, ws, n);
  }

  lemma OpenedCall(h: string, n: nat)
    requires IsWord(h) && |h| < n
    ensures Valid(START.(token := START.token + h), n)
    ensures OpenGroup(START.(token := START.token + h), n) == Scan([Raw(h)], [0], "", false)
  {
    HeadIsStripped(h);
    assert "" + h == h;
  }

  lemma FeedCall(h: string, ws: seq<string>, n: nat)
    requires IsWord(h) && ws != [] && (forall w | w in ws :: IsWord(w) && |w| < n) && n == |CallText(h, ws)|
    ensures Valid(START, n)
    ensures Feed(START, CallText(h, ws), n) == match ParseHandler(h, Raws(ws), n)
                                               case Raise(e) => Raise(e)
                                               case Ok(t) => Ok(Scan([t], [], "", false))
  {
    hide Feed, Valid, IsWord, ParseHandler, JoinWords, OpenGroup;
    FirstScan();
    WordIsPlain(h);
    FeedOpen(START, h, "(", JoinWords(ws) + ")", n);
    OpenedCall(h, n);
    FeedInside(h, ws, n);
  }

  lemma HeadIsStripped(h: string)
    requires IsWord(h)
    ensures Strip(h) == h
  {
    StripTight(h);
  }

  lemma FlushedIsValid(st: Scan, n: nat)
    requires Valid(st, n) && |st.token| < n
    ensures Valid(st.(stack := Flushed(st), token := ""), n)
  {
  }

  lemma CompositeCall(h: string, ws: seq<string>, n: nat)
    requires IsWord(h) && ws != [] && (forall w | w in ws :: IsWord(w) && |w| < n) && n == |CallText(h, ws)|
    ensures ParseComposite(CallText(h, ws)) == ParseHandler(h, Raws(ws), n)
  {
    hide Feed, IsWord, ParseHandler, Strip, JoinWords, CallText, Create, Valid;
    CallIsTight(h, ws);
    FeedCall(h, ws, n);
  }

  /** A name with words in brackets means what the name's handler makes of the words. */
  lemma CallParses(h: string, ws: seq<string>)
    requires IsWord(h) && IsLower(h) && ws != [] && forall w | w in ws :: IsWord(w) && IsLower(w)
    ensures forall w | w in ws :: |w| < |CallText(h, ws)|
    ensures ValidateDataType(CallText(h, ws)) == ParseHandler(h, Raws(ws), |CallText(h, ws)|)
  {
    hide IsWord, ParseHandler, ParseComposite, Strip, JoinWords, CallText, IsLower, PRIMITIVES;
    var s := CallText(h, ws);
    WordsAreShort(h, ws);
    CallIsTight(h, ws);
    CallIsLower(h, ws);
    LowerIsLower(s);
    CallIsNoPrimitive(h, ws);
    CompositeCall(h, ws, |s|);
  }

  lemma {:induction false} WordsAreShort(h: string, ws: seq<string>)
    requires ws != []
    ensures forall w | w in ws :: |w| < |CallText(h, ws)|
    decreases |ws|
  {
    if |ws| > 1 {
      WordsAreShort(h, ws[1..]);
      assert ws == [ws[0]] + ws[1..];
    }
  }

  lemma CallIsNoPrimitive(h: string, ws: seq<string>)
    requires ws != []
    ensures CallText(h, ws) !in PRIMITIVES
  {
    hide Letters, PRIMITIVES, JoinWords;
    var s := CallText(h, ws);
    if s in PRIMITIVES {
      PrimitiveIsLetters(s);
      assert s[|h|] == '(';
      LettersHaveNoBracket(s, |h|);
    }
  }

  lemma LettersHaveNoBracket(s: string, i: nat)
    requires i < |s|
    ensures Letters(s) ==> s[i] != '('
  {
    assert s[i] in s;
  }

  lemma {:induction false} CallIsLower(h: string, ws: seq<string>)
    requires IsLower(h) && ws != [] && forall w | w in ws :: IsLower(w)
    ensures IsLower(CallText(h, ws))
    decreases |ws|
  {
    JoinIsLower(ws);
    var s := CallText(h, ws);
    forall c | c in s ensures !('A' <= c <= 'Z') {
      assert c in h || c == '(' || c in JoinWords(ws) || c == ')';
    }
  }

  lemma {:induction false} JoinIsLower(ws: seq<string>)
    requires ws != [] && forall w | w in ws :: IsLower(w)
    ensures IsLower(JoinWords(ws))
    decreases |ws|
  {
    assert ws[0] in ws;
    if |ws| > 1 {
      JoinIsLower(ws[1..]);
      forall c | c in JoinWords(ws) ensures !('A' <= c <= 'Z') {
        assert c in ws[0] || c == ',' || c in JoinWords(ws[1..]);
      }
    }
  }

  // ----- which are accepted -----

  lemma NumberIsWord(n: int)
    ensures IsWord(IntText(n)) && IsLower(IntText(n)) && ReadIntItem(Raw(IntText(n))) == Some(n)
  {
    hide IntText;
    TightIntText(n);
    ReadIntText(n);
    NumberIsPlain(n);
  }

  lemma NumberIsPlain(n: int)
    ensures PlainWord(IntText(n)) && IsLower(IntText(n))
  {
    assert forall c | c in IntText(n) :: c == '-' || IsDigit(c);
  }

  lemma NameIsWord(h: string)
    requires h in {"varchar", "char", "decimal", "vector", "float", "double"}
    ensures IsWord(h) && IsLower(h)
  {
    hide Letters, IsWord, PRIMITIVES;
    if h == "float" || h == "double" {
      NumericIsLetters(h);
    } else {
      CompositeIsLetters(h);
    }
    LettersAreWord(h);
    LettersAreLower(h);
  }

  lemma LettersAreLower(h: string)
    requires Letters(h)
    ensures IsLower(h)
  {
  }

  lemma TwoWords(h: string, a: string, b: string)
    ensures CallText(h, [a]) == h + ("(" + (a + ")"))
    ensures CallText(h, [a, b]) == h + ("(" + (a + ("," + b) + ")"))
  {
    assert [a, b][1..] == [b];
    assert JoinWords([a, b]) == a + ("," + JoinWords([b]));
  }

  /** Lengths up to 65535 are accepted, also those that are zero or negative. */
  lemma LengthIff(n: int)
    ensures ValidateDataType("varchar(" + (IntText(n) + ")"))
         == if n <= 65535 then Ok(Varchar(n)) else Raise(ValueError)
    ensures ValidateDataType("char(" + (IntText(n) + ")")) == if n <= 65535 then Ok(Char(n)) else Raise(ValueError)
  {
    hide IntText, IsWord, ValidateDataType, ReadIntItem;
    NumberIsWord(n);
    NameIsWord("varchar");
    NameIsWord("char");
    CallParses("varchar", [IntText(n)]);
    CallParses("char", [IntText(n)]);
    TwoWords("varchar", IntText(n), "");
    TwoWords("char", IntText(n), "");
    assert "varchar" + ("(" + (IntText(n) + ")")) == "varchar(" + (IntText(n) + ")");
    assert "char" + ("(" + (IntText(n) + ")")) == "char(" + (IntText(n) + ")");
  }

  /** A precision is at least one, and a scale at most the precision. */
  lemma PrecisionIff(p: int, s: int)
    ensures ValidateDataType("decimal(" + (IntText(p) + ")"))
         == if p >= 1 then Ok(Decimal(Some(p), None)) else Raise(ValueError)
    ensures ValidateDataType("decimal(" + (IntText(p) + ("," + IntText(s)) + ")"))
         == if p >= 1 && s <= p then Ok(Decimal(Some(p), Some(s))) else Raise(ValueError)
  {
    hide IntText, IsWord, ValidateDataType, ReadIntItem;
    NumberIsWord(p);
    NumberIsWord(s);
    NameIsWord("decimal");
    CallParses("decimal", [IntText(p)]);
    CallParses("decimal", [IntText(p), IntText(s)]);
    TwoWords("decimal", IntText(p), IntText(s));
    assert "decimal" + ("(" + (IntText(p) + ")")) == "decimal(" + (IntText(p) + ")");
    assert "decimal" + ("(" + (IntText(p) + ("," + IntText(s)) + ")"))
        == "decimal(" + (IntText(p) + ("," + IntText(s)) + ")");
  }

  /** A name that is no composite type is a `ValueError`, whatever the words. */
  lemma OtherNamesFail(h: string, ws: seq<string>)
    requires IsWord(h) && IsLower(h) && ws != [] && forall w | w in ws :: IsWord(w) && IsLower(w)
    requires h !in {"varchar", "char", "decimal", "array", "map", "struct", "vector"}
    ensures ValidateDataType(CallText(h, ws)) == Raise(ValueError)
  {
    hide IsWord, ValidateDataType, CallText;
    CallParses(h, ws);
  }

  /** Too many words for a length or a decimal, and words that are no numbers, are a `ValueError`. */
  lemma WrongWordsFail(h: string, ws: seq<string>)
    requires ws != [] && forall w | w in ws :: IsWord(w) && IsLower(w)
    requires h in {"varchar", "char", "decimal"}
    requires |ws| > (if h == "decimal" then 2 else 1) || exists w :: w in ws && ReadInt(w) == None
    ensures ValidateDataType(CallText(h, ws)) == Raise(ValueError)
  {
    hide IsWord, ValidateDataType, CallText, ReadInt;
    NameIsWord(h);
    CallParses(h, ws);
    assert |ws| == 1 ==> ws == [ws[0]];
    assert |ws| == 2 ==> ws == [ws[0], ws[1]];
  }

  lemma VectorHandled(e: string, word: string, d: int, n: nat)
    requires e in {"float", "double"} && ReadIntItem(Raw(word)) == Some(d)
    requires ValidateDataType(e) == Ok(Primitive(e)) && |e| < n && |word| < n
    ensures ParseHandler("vector", Raws([e, word]), n)
         == if d >= 1 then Ok(Vector(Primitive(e), d)) else Raise(ValueError)
  {
    hide ReadIntItem, ValidateDataType;
  }

  /** A vector has floating point numbers and at least one dimension. */
  lemma VectorIff(e: string, d: int)
    requires e in {"float", "double"}
    ensures ValidateDataType("vector(" + (e + ("," + IntText(d)) + ")"))
         == if d >= 1 then Ok(Vector(Primitive(e), d)) else Raise(ValueError)
  {
    hide IntText, IsWord, ReadIntItem, ValidateDataType, ParseHandler;
    NumberIsWord(d);
    NameIsWord("vector");
    NameIsWord(e);
    var ws := [e, IntText(d)];
    CallParses("vector", ws);
    TwoWords("vector", e, IntText(d));
    assert "vector" + ("(" + (e + ("," + IntText(d)) + ")")) == "vector(" + (e + ("," + IntText(d)) + ")");
    ResolveHead(Primitive(e));
    assert e in ws && IntText(d) in ws;
    VectorHandled(e, IntText(d), d, |CallText("vector", ws)|);
  }

  /** The types without arguments, by name. */
  lemma PrimitivesAre()
    ensures PRIMITIVES == {"tinyint", "smallint", "int", "bigint", "float", "double", "string", "binary", "boolean",
                           "json", "geography", "blob", "variant", "datetime", "date", "timestamp", "timestamp_ntz",
                           "interval_day_time", "interval_year_month"}
    ensures forall name | name in PRIMITIVES :: ValidateDataType(name) == Ok(Primitive(name))
  {
    hide ValidateDataType;
    forall name | name in PRIMITIVES ensures ValidateDataType(name) == Ok(Primitive(name)) {
      ResolveHead(Primitive(name));
    }
  }

  // ----- arguments that do not fit -----

  /** The wrong number of arguments is a `ValueError`, whatever they are. */
  lemma WrongArityFails(typ: string, args: seq<Ty>, n: nat)
    requires ShortTexts(args, n)
    requires || (typ in {"array", "varchar", "char"} && |args| != 1)
             || (typ in {"map", "vector"} && |args| != 2)
             || (typ == "decimal" && |args| > 2)
    ensures ParseHandler(typ, args, n) == Raise(ValueError)
  {
  }

  /** A vector's elements are floating point numbers, and its dimension is a number; anything else is a `ValueError`. */
  lemma VectorFails(e: Ty, d: Ty, n: nat)
    requires ShortTexts([e, d], n) && AsType(e, n).Ok?
    requires AsType(e, n).value !in {Primitive("float"), Primitive("double")} || ReadIntItem(d) == None
    ensures ParseHandler("vector", [e, d], n) == Raise(ValueError)
  {
    hide AsType, ReadIntItem;
  }

  lemma {:induction false} FirstBadField(args: seq<Ty>, i: nat)
    requires i < |args| && !args[i].Pair? && (args[i].Raw? ==> ':' !in args[i].text)
    requires forall j | 0 <= j < i :: args[j].Pair? || (args[j].Raw? && ':' in args[j].text)
    ensures CheckFields(args) == Raise(if args[i].Raw? then ValueError else TypeError)
    decreases i
  {
    if i > 0 {
      FirstBadField(args[1..], i - 1);
    }
  }

  /** Every field of a struct has a name: a text without a colon is a `ValueError`, a type without a name a
      `TypeError`. */
  lemma NamelessFieldFails(args: seq<Ty>, i: nat, n: nat)
    requires ShortTexts(args, n)
    requires i < |args| && !args[i].Pair? && (args[i].Raw? ==> ':' !in args[i].text)
    requires forall j | 0 <= j < i :: args[j].Pair? || (args[j].Raw? && ':' in args[j].text)
    ensures ParseHandler("struct", args, n) == Raise(if args[i].Raw? then ValueError else TypeError)
  {
    hide CheckFields, StructFields, AsType, ReadIntItem;
    FirstBadField(args, i);
  }

  /** A named type is no type where one is expected. */
  lemma NamedTypeFails(f: Field, n: nat)
    ensures ParseHandler("array", [Pair(f)], n) == Raise(ValueError)
    ensures forall k: Ty | k.Primitive? ::
              ParseHandler("map", [Pair(f), k], n) == Raise(ValueError) == ParseHandler("map", [k, Pair(f)], n)
  {
  }

  /** A field given twice keeps its first place and takes its last type. */
  lemma {:induction false} FieldGivenTwice(fs: seq<Field>, i: nat, ty: Ty)
    requires i < |fs| && forall j | 0 <= j < i :: fs[j].name != fs[i].name
    ensures Upsert(fs, fs[i].name, ty) == fs[i := Field(fs[i].name, ty)]
    decreases i
  {
    if i > 0 {
      FieldGivenTwice(fs[1..], i - 1, ty);
      assert fs[i := Field(fs[i].name, ty)] == [fs[0]] + fs[1..][i - 1 := Field(fs[i].name, ty)];
    } else {
      assert fs[0 := Field(fs[0].name, ty)] == [Field(fs[0].name, ty)] + fs[1..];
    }
  }

  /** A field whose type is not resolved, or is itself named, is a `ValueError`. */
  lemma UnresolvedFieldFails(f: Field, args: seq<Ty>, n: nat)
    requires ShortTexts([Pair(f)] + args, n) && (f.ty.Raw? || f.ty.Pair?)
    ensures StructFields([Pair(f)] + args, [], n) == Raise(ValueError)
  {
  }
}
