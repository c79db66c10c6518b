/** The printed name of a type parses back exactly when its field names are lower case: no parsed type
    has an upper-case letter in a field name (odps/types.py). */
module TypeRoundTrip {
  import opened Text
  import opened Backquotes
  import opened TypeStrings
  import opened TypeSpelling
  import opened TypeReading

  // ----- the parser never produces an upper-case field name -----

  predicate LowerItems(items: seq<Ty>)
  {
    forall x | x in items :: LowerNames(x)
  }

  lemma SliceLower(s: string, lo: nat, hi: nat)
    requires lo <= hi <= |s| && IsLower(s)
    ensures IsLower(s[lo..hi])
  {
    forall c | c in s[lo..hi] ensures c in s {
      var i :| 0 <= i < hi - lo && s[lo..hi][i] == c;
      assert s[lo + i] == c;
    }
  }

  lemma {:induction false} LStripLower(s: string)
    requires IsLower(s)
    ensures IsLower(LStrip(s))
  {
    if s != [] && IsBlank(s[0]) {
      forall c | c in s[1..] ensures c in s {
      }
      LStripLower(s[1..]);
    }
  }

  lemma {:induction false} RStripLower(s: string)
    requires IsLower(s)
    ensures IsLower(RStrip(s))
  {
    if s != [] && IsBlank(s[|s| - 1]) {
      SliceLower(s, 0, |s| - 1);
      RStripLower(s[..|s| - 1]);
    }
  }

  lemma StripLower(s: string)
    requires IsLower(s)
    ensures IsLower(Strip(s))
  {
    LStripLower(s);
    RStripLower(LStrip(s));
  }

  lemma {:induction false} UndoubledLower(s: string)
    requires IsLower(s)
    ensures IsLower(UndoubleBackquotes(s))
  {
    if s != [] {
      assert s[0] in s;
      forall c | c in s[1..] ensures c in s {
      }
      if |s| >= 2 {
        forall c | c in s[2..] ensures c in s {
        }
      }
      UndoubledLower(s[1..]);
      if |s| >= 2 {
        UndoubledLower(s[2..]);
      }
    }
  }

  lemma StrippedBackquotesLower(s: string)
    requires IsLower(s)
    ensures IsLower(StripBackquotes(s))
  {
    hide Strip, UndoubleBackquotes;
    StripLower(s);
    var t := Strip(s);
    if |t| > 1 {
      SliceLower(t, 1, |t| - 1);
      UndoubledLower(t[1..|t| - 1]);
    }
    UndoubledLower("");
  }

  lemma {:induction false} PiecesLower(s: string, pos: nat, cur: string, quoted: bool, room: Option<nat>)
    requires pos <= |s| && IsLower(s) && IsLower(cur)
    ensures forall p | p in PiecesFrom(s, ":", pos, cur, quoted, room) :: IsLower(p)
    decreases |s| - pos
  {
    hide SeparatorAt, IsLower;
    if pos < |s| {
      assert IsLower(cur + [s[pos]]) && IsLower("") by { LowerSnoc(s, pos, cur); }
      if s[pos] == '`' {
        PiecesLower(s, pos + 1, cur + [s[pos]], !quoted, room);
      } else if !quoted && room != Some(0) && SeparatorAt(s, pos, ":") {
        PiecesLower(s, pos + 1, "", quoted, if room.Some? then Some(room.value - 1) else None);
      } else {
        PiecesLower(s, pos + 1, cur + [s[pos]], quoted, room);
      }
    }
  }

  lemma LowerSnoc(s: string, pos: nat, cur: string)
    requires pos < |s| && IsLower(s) && IsLower(cur)
    ensures IsLower(cur + [s[pos]]) && IsLower("")
  {
    assert s[pos] in s;
  }

  lemma SplitLower(kv: string)
    requires IsLower(kv)
    ensures forall p | p in SplitStructKv(kv) :: IsLower(p)
  {
    hide PiecesFrom, Strip, StripBackquotes, IsLower;
    var parts := PiecesFrom(kv, ":", 0, "", false, Some(1));
    assert IsLower("") by { EmptyIsLower(); }
    PiecesLower(kv, 0, "", false, Some(1));
    OneSplit(kv, 0, "", false);
    forall p | p in parts ensures IsLower(Strip(p)) && IsLower(StripBackquotes(p)) {
      StripLower(p);
      StrippedBackquotesLower(p);
    }
    assert parts[0] in parts && parts[|parts| - 1] in parts;
  }

  lemma EmptyIsLower()
    ensures IsLower("")
  {
  }

  lemma ValidateLower(text: string)
    ensures var r := ValidateDataType(text); r.Ok? ==> LowerNames(r.value)
    decreases |text|, 4
  {
    hide Strip, ParseComposite, PRIMITIVES;
    var s := Lower(Strip(text));
    LowerIsLower(Strip(text));
    if s !in PRIMITIVES {
      ParseLower(s);
    }
  }

  lemma ParseLower(text: string)
    requires IsLower(text)
    ensures var r := ParseComposite(text); r.Ok? ==> LowerNames(r.value)
    decreases |text|, 3
  {
    hide Strip, Feed, Create;
    var s := Strip(text);
    StripLower(text);
    FeedLower(START, s, |text|);
    CreateLower([Raw(s)], |text|);
  }

  lemma FeedLower(st: Scan, s: string, n: nat)
    requires Valid(st, n) && |st.token| + |s| <= n
    requires IsLower(s) && IsLower(st.token) && LowerItems(st.stack)
    ensures var r := Feed(st, s, n); r.Ok? ==> LowerItems(r.value.stack)
    decreases n, 2, |s|
  {
    hide Step, Valid;
    if s != [] {
      assert s[0] in s;
      forall c | c in s[1..] ensures c in s {
      }
      StepLower(st, s[0], n);
      if Step(st, s[0], n).Ok? {
        FeedLower(Step(st, s[0], n).value, s[1..], n);
      }
    }
  }

  lemma StepLower(st: Scan, ch: char, n: nat)
    requires Valid(st, n) && |st.token| < n
    requires IsLower([ch]) && IsLower(st.token) && LowerItems(st.stack)
    ensures var r := Step(st, ch, n); r.Ok? ==> IsLower(r.value.token) && LowerItems(r.value.stack)
    decreases n, 1
  {
    hide Strip, CloseGroup;
    StripLower(st.token);
    if !st.quoted && (ch == '>' || ch == ')') {
      CloseLower(st.(stack := Flushed(st), token := ""), n);
    }
  }

  lemma CloseLower(st: Scan, n: nat)
    requires Valid(st, n) && st.token == "" && LowerItems(st.stack)
    ensures var r := CloseGroup(st, n); r.Ok? ==> LowerItems(r.value.stack)
    decreases n, 0, 4
  {
    hide Create;
    if st.brackets != [] {
      var at := st.brackets[|st.brackets| - 1];
      forall x | x in st.stack[at..] || x in st.stack[..at] ensures x in st.stack {
      }
      CreateLower(st.stack[at..], n);
    }
  }

  lemma CreateLower(items: seq<Ty>, n: nat)
    requires items != [] && items[0].Raw? && ShortTexts(items[1..], n) && LowerItems(items)
    ensures var r := Create(items, n); r.Ok? ==> LowerNames(r.value)
    decreases n, 0, 3
  {
    hide SplitStructKv, ParseHandler;
    assert items[0] in items;
    SplitLower(items[0].text);
    var parts := SplitStructKv(items[0].text);
    assert parts[0] in parts;
    forall x | x in items[1..] ensures x in items {
    }
    HandlerLower(parts[|parts| - 1], items[1..], n);
  }

  lemma HandlerLower(typ: string, args: seq<Ty>, n: nat)
    requires ShortTexts(args, n) && LowerItems(args)
    ensures var r := ParseHandler(typ, args, n); r.Ok? ==> LowerNames(r.value)
    decreases n, 0, 2
  {
    hide AsType, StructFields, CheckFields, ReadInt;
    forall x | x in args ensures var r := AsType(x, n); r.Ok? ==> LowerNames(r.value) {
      AsTypeLower(x, n);
    }
    assert forall i | 0 <= i < |args| :: args[i] in args;
    if typ == "struct" {
      StructLower(args, [], n);
    }
  }

  lemma AsTypeLower(x: Ty, n: nat)
    requires LowerNames(x) && (x.Raw? ==> |x.text| < n)
    ensures var r := AsType(x, n); r.Ok? ==> LowerNames(r.value)
    decreases n, 0, 0
  {
    hide ValidateDataType;
    if x.Raw? {
      ValidateLower(x.text);
    }
  }

  predicate LowerFields(fs: seq<Field>)
  {
    forall f | f in fs :: IsLower(f.name) && LowerNames(f.ty)
  }

  lemma {:induction false} UpsertLower(fs: seq<Field>, name: string, ty: Ty)
    requires LowerFields(fs) && IsLower(name) && LowerNames(ty)
    ensures LowerFields(Upsert(fs, name, ty))
  {
    if fs != [] {
      assert fs[0] in fs;
      forall f | f in fs[1..] ensures f in fs {
      }
      UpsertLower(fs[1..], name, ty);
    }
  }

  lemma StructLower(args: seq<Ty>, done: seq<Field>, n: nat)
    requires ShortTexts(args, n) && LowerItems(args) && LowerFields(done)
    ensures var r := StructFields(args, done, n); r.Ok? ==> LowerFields(r.value)
    decreases n, 0, 1, |args|
  {
    hide SplitStructKv, AsType, Upsert, IsLower;
    if args != [] {
      var x := args[0];
      assert x in args;
      forall y | y in args[1..] ensures y in args {
      }
      if x.Pair? {
        UpsertLower(done, x.field.name, x.field.ty);
        StructLower(args[1..], Upsert(done, x.field.name, x.field.ty), n);
      } else if x.Raw? {
        SplitLower(x.text);
        var parts := SplitStructKv(x.text);
        if |parts| == 2 {
          assert parts[0] in parts && parts[1] in parts;
          AsTypeLower(Raw(parts[1]), n);
          var ty := AsType(Raw(parts[1]), n);
          if ty.Ok? {
            UpsertLower(done, parts[0], ty.value);
            StructLower(args[1..], Upsert(done, parts[0], ty.value), n);
          }
        }
      }
    }
  }

  /** The printed name of a type parses back to it exactly when all its field names are lower case. */
  lemma RoundTripIff(t: Ty)
    requires WellFormed(t)
    ensures ValidateDataType(Name(t)) == Ok(t) <==> LowerNames(t)
  {
    hide ValidateDataType, Spell;
    if LowerNames(t) {
      NameIsTightSpelling(t);
      ParseSpelling(t, TIGHT);
      assert "" + Spell(t, TIGHT) + "" == Spell(t, TIGHT);
    } else {
      ValidateLower(Name(t));
    }
  }

  /** Pickling stores `str(type)`, the name in upper case, and loads it with the parser. */
  lemma PickleRoundTripIff(t: Ty)
    requires WellFormed(t)
    ensures ValidateDataType(Upper(Name(t))) == Ok(t) <==> LowerNames(t)
  {
    hide Strip, ParseComposite;
    var s := Name(t);
    StripUpper(s);
    LowerUpper(Strip(s));
    assert ValidateDataType(Upper(s)) == ValidateDataType(s);
    RoundTripIff(t);
  }
}
