/** Every spelling of a type parses to that type (odps/types.py). */
module TypeReading {
  import opened Text
  import opened Backquotes
  import opened TypeStrings
  import opened TypeSpelling
  import opened TypeHandlers
  import opened TypeFeeding

  // ----- the round trip -----

  /** Every struct field name, at every depth, is free of upper-case letters. */
  predicate LowerNames(t: Ty)
  {
    match t
    case Array(e) => LowerNames(e)
    case Map(k, v) => LowerNames(k) && LowerNames(v)
    case Struct(fs) => forall f | f in fs :: IsLower(f.name) && LowerNames(f.ty)
    case Vector(e, _) => LowerNames(e)
    case Pair(f) => IsLower(f.name) && LowerNames(f.ty)
    case Raw(text) => IsLower(text)
    case Primitive(name) => IsLower(name)
    case _ => true
  }

  predicate LowerArg(a: Arg)
  {
    match a
    case Word(text) => IsLower(text)
    case Whole(t) => WellFormed(t) && LowerNames(t)
    case Labelled(f) => WellFormed(f.ty) && IsLower(f.name) && LowerNames(f.ty)
  }

  lemma {:induction false} LowerFieldArgs(fs: seq<Field>)
    requires forall f | f in fs :: WellFormed(f.ty) && IsLower(f.name) && LowerNames(f.ty)
    ensures forall a | a in FieldArgs(fs) :: LowerArg(a)
  {
    if fs != [] {
      assert fs[0] in fs;
      forall f | f in fs[1..] ensures WellFormed(f.ty) && IsLower(f.name) && LowerNames(f.ty) {
        assert f in fs;
      }
      LowerFieldArgs(fs[1..]);
    }
  }

  lemma LowerArgs(t: Ty)
    requires WellFormed(t) && LowerNames(t)
    ensures forall a | a in Args(t) :: LowerArg(a)
  {
    if t.Struct? {
      LowerFieldArgs(t.fields);
    }
  }

  lemma BlankIsLower(s: string)
    requires AllBlank(s)
    ensures IsLower(s)
  {
  }

  lemma {:induction false} DoubledIsLower(s: string)
    requires IsLower(s)
    ensures IsLower(DoubleBackquotes(s))
  {
    if s != [] {
      assert s[0] in s;
      forall c | c in s[1..] ensures !('A' <= c <= 'Z') {
        assert c in s;
      }
      DoubledIsLower(s[1..]);
    }
  }

  lemma SpellIsLower(t: Ty, l: Layout)
    requires WellFormed(t) && LowerNames(t) && BlankLayout(l)
    ensures IsLower(Spell(t, l))
    decreases Size(t), 1
  {
    hide Spell, SpellArgs, Args, BlankLayout;
    HeadIsLower(t);
    if Bracketed(t) {
      SpellParts(t, l);
      BlankPieces(l);
      if Args(t) != [] {
        LowerArgs(t);
        SpellArgsIsLower(Args(t), l.kids);
      }
    } else {
      SpellHead(t, l);
    }
  }

  lemma BlankPieces(l: Layout)
    requires BlankLayout(l)
    ensures IsLower(l.before) && IsLower(l.colon) && IsLower(l.word)
    ensures IsLower(l.open) && IsLower(l.inner) && IsLower(l.after)
    ensures forall k | k in l.kids :: BlankLayout(k)
  {
    hide IsBlank;
    forall s | s in [l.before, l.colon, l.word, l.open, l.inner, l.after] ensures IsLower(s) {
      BlankIsLower(s);
    }
  }

  lemma SpellArgsIsLower(args: seq<Arg>, kids: seq<Layout>)
    requires args != [] && (forall a | a in args :: LowerArg(a)) && forall k | k in kids :: BlankLayout(k)
    ensures IsLower(SpellArgs(args, kids))
    decreases ArgsSize(args), 1
  {
    hide SpellArg, SpellArgs, LowerArg, BlankLayout;
    KidIsBlank(kids);
    SpellArgsParts(args, kids);
    assert args[0] in args;
    SpellArgIsLower(args[0], Kid(kids));
    if |args| > 1 {
      forall a | a in args[1..] ensures LowerArg(a) {
        assert a in args;
      }
      SpellArgsIsLower(args[1..], Later(kids));
    }
  }

  lemma SpellArgIsLower(a: Arg, l: Layout)
    requires LowerArg(a) && BlankLayout(l)
    ensures IsLower(SpellArg(a, l))
    decreases ArgSize(a), 0
  {
    hide Spell, BlankLayout, DoubleBackquotes;
    BlankPieces(l);
    match a
    case Word(_) =>
    case Whole(t) => SpellIsLower(t, l);
    case Labelled(f) =>
      SpellIsLower(f.ty, l);
      DoubledIsLower(f.name);
  }

  lemma SpellIsTight(t: Ty, l: Layout)
    requires WellFormed(t)
    ensures Tight(Spell(t, l)) && (Bracketed(t) ==> !Letters(Spell(t, l)))
  {
    hide Spell, Inside, WellFormed, IsBlank;
    var s := Spell(t, l);
    HeadIsWord(t);
    if Bracketed(t) {
      SpellParts(t, l);
      assert s[0] == Head(t)[0];
      var c := CloseBracket(t, l.right);
      assert s[|s| - 1] == c[0] && c[0] in s;
      NoBlankBracket(c[0]);
    } else {
      SpellHead(t, l);
    }
  }

  lemma NoBlankBracket(c: char)
    requires c == '>' || c == ')'
    ensures !IsBlank(c)
  {
  }

  /** Every spelling of a type with lower-case field names parses to that type:
      blanks around any delimiter, either kind of bracket and bare plain names change nothing. */
  lemma ParseSpelling(t: Ty, l: Layout)
    requires WellFormed(t) && LowerNames(t) && BlankLayout(l)
    ensures ValidateDataType(l.before + Spell(t, l) + l.after) == Ok(t)
  {
    hide Spell, Feed, LStrip, RStrip, LowerNames, WellFormed;
    var s := Spell(t, l);
    SpellIsTight(t, l);
    StripPadded(l.before, s, l.after);
    SpellIsLower(t, l);
    LowerIsLower(s);
    if Bracketed(t) {
      if s in PRIMITIVES {
        PrimitiveIsLetters(s);
      }
      ParseBracketed(t, l);
    } else {
      SpellHead(t, l);
      StripTight(s);
      ResolveHead(t);
    }
  }

  lemma ParseBracketed(t: Ty, l: Layout)
    requires WellFormed(t) && Bracketed(t) && BlankLayout(l)
    ensures ParseComposite(Spell(t, l)) == Ok(t)
  {
    hide Spell, Feed, LStrip, RStrip, WellFormed, Create, Bracketed;
    var s := Spell(t, l);
    SpellIsTight(t, l);
    StripTight(s);
    SpellIgnoresBefore(t, l);
    FeedType(START, None, t, l.(before := ""), |s|);
  }

  lemma SpellIgnoresBefore(t: Ty, l: Layout)
    ensures Spell(t, l.(before := "")) == Spell(t, l)
  {
    hide SpellArgs;
  }
}
