/** Feeding the spelling of a type to the parser's scanner, character by character (odps/types.py). */
module TypeFeeding {
  import opened Text
  import opened TypeStrings
  import opened TypeSpelling
  import opened TypeTokens
  import opened TypeHandlers

  // ----- feeding a spelling -----

  predicate ReadyFor(st: Scan, text: string, n: nat)
  {
    Valid(st, n) && !st.quoted && |st.token| + |text| <= n
  }

  /** Feeding plain text only lengthens the token. */
  lemma FeedPlain(st: Scan, w: string, n: nat)
    requires ReadyFor(st, w, n) && forall c | c in w :: c != '`' && c !in BRACKETS
    ensures Feed(st, w, n) == Ok(st.(token := st.token + w))
  {
    PlainSkips(w, false, BRACKETS);
    FeedSkips(st, w, n);
  }

  lemma FeedOne(st: Scan, ch: char, n: nat)
    requires ReadyFor(st, [ch], n)
    ensures Feed(st, [ch], n) == Step(st, ch, n)
  {
    hide Step;
    assert [ch][1..] == "";
  }

  lemma FeedThen(st: Scan, a: string, b: string, st1: Scan, n: nat)
    requires Valid(st, n) && |st.token| + |a| + |b| <= n
    requires Feed(st, a, n) == Ok(st1)
    ensures Valid(st1, n) && |st1.token| + |b| <= n
    ensures Feed(st, a + b, n) == Feed(st1, b, n)
  {
    FeedAppend(st, a, b, n);
  }

  /** The scan stands inside a group, at `base`, with exactly `items` found so far. */
  predicate Collected(r: Outcome<Scan>, base: Scan, items: seq<Ty>)
  {
    r.Ok? && !r.value.quoted && r.value.brackets == base.brackets && Flushed(r.value) == base.stack + items
  }

  /** A bracketed type ends up whole on the stack, any other in the token. */
  lemma FeedType(st: Scan, key: Option<string>, t: Ty, l: Layout, n: nat)
    requires WellFormed(t) && BlankLayout(l) && ReadyFor(st, Spell(t, l), n)
    requires st.token == PrefixText(key, l)
    ensures Feed(st, Spell(t, l), n)
         == Ok(if Bracketed(t) then st.(stack := st.stack + [Item(key, t)], token := "")
               else st.(token := st.token + Head(t)))
    decreases Size(t), 2
  {
    hide Feed, Spell, PrefixText, Valid;
    HeadIsPlain(t, l.open);
    if Bracketed(t) {
      FeedBracketed(st, key, t, l, n);
    } else {
      assert Spell(t, l) == Head(t) by {
        SpellHead(t, l);
      }
      FeedPlain(st, Head(t), n);
    }
  }

  lemma SpellHead(t: Ty, l: Layout)
    requires !Bracketed(t)
    ensures Spell(t, l) == Head(t)
  {
  }

  function Inside(t: Ty, l: Layout): string
  {
    if Args(t) == [] then l.inner else SpellArgs(Args(t), l.kids)
  }

  lemma SpellParts(t: Ty, l: Layout)
    requires Bracketed(t)
    ensures Spell(t, l)
         == (Head(t) + l.open) + (OpenBracket(t, l.left) + (Inside(t, l) + CloseBracket(t, l.right)))
  {
    hide Head, OpenBracket, CloseBracket, SpellArgs, Args;
  }

  lemma FeedBracketed(st: Scan, key: Option<string>, t: Ty, l: Layout, n: nat)
    requires WellFormed(t) && BlankLayout(l) && ReadyFor(st, Spell(t, l), n)
    requires st.token == PrefixText(key, l) && Bracketed(t)
    ensures Feed(st, Spell(t, l), n) == Ok(st.(stack := st.stack + [Item(key, t)], token := ""))
    decreases Size(t), 1
  {
    hide Feed, Spell, Strip, SpellArgs, PrefixText, Valid, Flushed, ArgItems, OpenGroup, CloseGroup, Inside, WellFormed;
    var head := Head(t) + l.open;
    var open, close := OpenBracket(t, l.left), CloseBracket(t, l.right);
    var inner := Inside(t, l);
    SpellParts(t, l);
    HeadIsPlain(t, l.open);
    FeedOpen(st, head, open, inner + close, n);
    var st2 := OpenGroup(st.(token := st.token + head), n);
    FeedInner(st2, t, l, n);
    var st3 := Feed(st2, inner, n).value;
    FeedThen(st2, inner, close, st3, n);
    FeedShut(st3, close, n);
    OpenGroupIs(st, head, n);
    assert st.token + head == PrefixText(key, l) + Head(t) + l.open;
    FeedClosed(st, st3, key, t, l, ArgItems(Args(t), l.kids), n);
  }

  lemma OpenGroupIs(st: Scan, head: string, n: nat)
    requires Valid(st, n) && |st.token + head| < n
    ensures OpenGroup(st.(token := st.token + head), n)
         == Scan(st.stack + [Raw(Strip(st.token + head))], st.brackets + [|st.stack|], "", st.quoted)
  {
  }

  lemma FeedOpen(st: Scan, head: string, open: string, rest: string, n: nat)
    requires ReadyFor(st, head + (open + rest), n)
    requires open in {"<", "("} && forall c | c in head :: c != '`' && c !in BRACKETS
    ensures Valid(st.(token := st.token + head), n) && |st.token + head| < n
    ensures var st2 := OpenGroup(st.(token := st.token + head), n);
            ReadyFor(st2, rest, n) && st2.token == "" && Feed(st, head + (open + rest), n) == Feed(st2, rest, n)
  {
    hide Feed, Valid;
    FeedPlain(st, head, n);
    var st1 := st.(token := st.token + head);
    FeedThen(st, head, open + rest, st1, n);
    FeedOne(st1, open[0], n);
    FeedThen(st1, open, rest, OpenGroup(st1, n), n);
  }

  lemma FeedShut(st: Scan, close: string, n: nat)
    requires ReadyFor(st, close, n) && close in {">", ")"}
    ensures Feed(st, close, n) == CloseGroup(st.(stack := Flushed(st), token := ""), n)
  {
    hide Feed, Flushed, CloseGroup;
    FeedOne(st, close[0], n);
  }

  lemma FeedComma(st: Scan, rest: string, n: nat)
    requires ReadyFor(st, "," + rest, n)
    ensures var st1 := st.(stack := Flushed(st), token := "");
            ReadyFor(st1, rest, n) && Feed(st, "," + rest, n) == Feed(st1, rest, n)
  {
    hide Feed;
    FeedOne(st, ',', n);
    FeedThen(st, ",", rest, st.(stack := Flushed(st), token := ""), n);
  }

  lemma HeadIsPlain(t: Ty, b: string)
    requires WellFormed(t) && AllBlank(b)
    ensures forall c | c in Head(t) :: c != '`' && c !in BRACKETS
    ensures forall c | c in Head(t) + b :: c != '`' && c !in BRACKETS
  {
    HeadIsWord(t);
    BlankIsPlain(b, BRACKETS);
  }

  /** The closing bracket of t, once its arguments are collected above st. */
  lemma FeedClosed(st: Scan, st3: Scan, key: Option<string>, t: Ty, l: Layout, items: seq<Ty>, n: nat)
    requires WellFormed(t) && Bracketed(t) && BlankLayout(l) && items == ArgItems(Args(t), l.kids)
    requires Valid(st, n) && Valid(st3, n) && !st.quoted && !st3.quoted && |st3.token| < n
    requires st3.brackets == st.brackets + [|st.stack|]
    requires Flushed(st3) == st.stack + [Raw(Strip(PrefixText(key, l) + Head(t) + l.open))] + items
    ensures CloseGroup(st3.(stack := Flushed(st3), token := ""), n)
         == Ok(st.(stack := st.stack + [Item(key, t)], token := ""))
  {
    hide Create, Strip, PrefixText, Flushed, ArgItems;
    var stack, at := Flushed(st3), |st.stack|;
    var group := [Raw(Strip(PrefixText(key, l) + Head(t) + l.open))] + items;
    assert stack == st.stack + group;
    assert stack[at..] == group && stack[..at] == st.stack;
    assert st3.brackets[..|st3.brackets| - 1] == st.brackets;
    assert ShortTexts(stack, n);
    assert ShortTexts(items, n) by {
      forall x | x in items ensures x in stack {
      }
    }
    CreateRebuilds(key, t, l, items, n);
  }

  lemma FeedInner(st: Scan, t: Ty, l: Layout, n: nat)
    requires WellFormed(t) && Bracketed(t) && BlankLayout(l) && ReadyFor(st, Inside(t, l), n) && st.token == ""
    ensures Collected(Feed(st, Inside(t, l), n), st, ArgItems(Args(t), l.kids))
    decreases Size(t), 0
  {
    hide Feed, SpellArgs, LStrip, RStrip;
    if Args(t) == [] {
      BlankIsPlain(l.inner, BRACKETS);
      FeedPlain(st, l.inner, n);
      StripPadded(l.inner, "", "");
      assert l.inner + "" + "" == l.inner && "" + l.inner == l.inner;
    } else {
      ArgsOk(t);
      FeedArgs(st, Args(t), l.kids, n);
    }
  }

  lemma FeedArgs(st: Scan, args: seq<Arg>, kids: seq<Layout>, n: nat)
    requires args != [] && (forall a | a in args :: ArgOk(a)) && forall k | k in kids :: BlankLayout(k)
    requires ReadyFor(st, SpellArgs(args, kids), n) && st.token == ""
    ensures Collected(Feed(st, SpellArgs(args, kids), n), st, ArgItems(args, kids))
    decreases ArgsSize(args), 4
  {
    hide Feed, Strip, SpellArg, SpellArgs, ArgOk, Valid, ArgItem, ArgItems, BlankLayout, Flushed;
    KidIsBlank(kids);
    var first := SpellArg(args[0], Kid(kids));
    assert args[0] in args;
    SpellArgsParts(args, kids);
    if |args| == 1 {
      FeedArg(st, args[0], Kid(kids), n);
      OneItem(args[0], kids);
      assert args == [args[0]];
    } else {
      var rest := SpellArgs(args[1..], Later(kids));
      FeedArg(st, args[0], Kid(kids), n);
      var st1 := Feed(st, first, n).value;
      FeedThen(st, first, "," + rest, st1, n);
      FeedComma(st1, rest, n);
      var st2 := st1.(stack := Flushed(st1), token := "");
      forall a | a in args[1..] ensures ArgOk(a) {
        assert a in args;
      }
      FeedArgs(st2, args[1..], Later(kids), n);
      ConsItems(st.stack, args, kids);
    }
  }

  lemma SpellArgsParts(args: seq<Arg>, kids: seq<Layout>)
    requires args != []
    ensures SpellArgs(args, kids)
         == if |args| == 1 then SpellArg(args[0], Kid(kids))
            else SpellArg(args[0], Kid(kids)) + ("," + SpellArgs(args[1..], Later(kids)))
  {
    hide SpellArg;
  }

  lemma ConsItems(stack: seq<Ty>, args: seq<Arg>, kids: seq<Layout>)
    requires args != []
    ensures stack + [ArgItem(args[0], Kid(kids))] + ArgItems(args[1..], Later(kids)) == stack + ArgItems(args, kids)
  {
    hide ArgItem;
  }

  lemma FeedWord(st: Scan, w: string, l: Layout, n: nat)
    requires IsWord(w) && BlankLayout(l) && ReadyFor(st, l.before + w + l.after, n) && st.token == ""
    ensures Collected(Feed(st, l.before + w + l.after, n), st, [Raw(w)])
  {
    hide Feed, LStrip, RStrip, Valid;
    BlankIsPlain(l.before, BRACKETS);
    BlankIsPlain(l.after, BRACKETS);
    FeedPlain(st, l.before + w + l.after, n);
    StripPadded(l.before, w, l.after);
    assert "" + (l.before + w + l.after) == l.before + w + l.after;
  }

  lemma FeedArg(st: Scan, a: Arg, l: Layout, n: nat)
    requires ArgOk(a) && BlankLayout(l) && ReadyFor(st, SpellArg(a, l), n) && st.token == ""
    ensures Collected(Feed(st, SpellArg(a, l), n), st, [ArgItem(a, l)])
    decreases ArgSize(a), 3
  {
    hide Feed, Spell, Valid, IsWord, Collected, NameText, Skips;
    match a
    case Word(text) => FeedWord(st, text, l, n);
    case Whole(t) =>
      FeedPrefix(st, None, l, n);
      FeedTyped(st, None, t, l, n);
    case Labelled(f) =>
      KeyedSpelling(f, l);
      FeedPrefix(st, Some(f.name), l, n);
      FeedTyped(st, Some(f.name), f.ty, l, n);
  }

  lemma KeyedSpelling(f: Field, l: Layout)
    ensures SpellArg(Labelled(f), l) == PrefixText(Some(f.name), l) + Spell(f.ty, l) + l.after
  {
    hide Spell, NameText;
  }

  lemma FeedPrefix(st: Scan, key: Option<string>, l: Layout, n: nat)
    requires BlankLayout(l) && ReadyFor(st, PrefixText(key, l), n) && st.token == ""
    ensures Feed(st, PrefixText(key, l), n) == Ok(st.(token := PrefixText(key, l)))
  {
    hide Feed, NameText, Valid;
    if key.None? {
      BlankIsPlain(l.before, BRACKETS);
      FeedPlain(st, l.before, n);
    } else {
      LabelSkips(key.value, l);
      FeedSkips(st, PrefixText(key, l), n);
    }
    assert "" + PrefixText(key, l) == PrefixText(key, l);
  }

  lemma FeedTyped(st: Scan, key: Option<string>, t: Ty, l: Layout, n: nat)
    requires WellFormed(t) && BlankLayout(l) && st.token == ""
    requires ReadyFor(st, PrefixText(key, l) + Spell(t, l) + l.after, n)
    requires Feed(st, PrefixText(key, l), n) == Ok(st.(token := PrefixText(key, l)))
    ensures Collected(Feed(st, PrefixText(key, l) + Spell(t, l) + l.after, n), st, [TypeItem(key, t, l)])
    decreases Size(t), 3
  {
    hide Feed, Strip, Spell, Valid, PrefixText;
    var pre, text := PrefixText(key, l), Spell(t, l);
    assert pre + text + l.after == pre + (text + l.after);
    var st1 := st.(token := pre);
    FeedThen(st, pre, text + l.after, st1, n);
    FeedType(st1, key, t, l, n);
    var st2 := Feed(st1, text, n).value;
    FeedThen(st1, text, l.after, st2, n);
    BlankIsPlain(l.after, BRACKETS);
    FeedPlain(st2, l.after, n);
    if Bracketed(t) {
      StripPadded("", "", l.after);
      assert "" + "" + l.after == "" + l.after;
    } else {
      StripTail(key, t, l);
    }
  }

  lemma PrefixSplit(name: string, l: Layout, h: string, b: string)
    ensures PrefixText(Some(name), l) + h + b
         == (l.before + NameText(name, l.bare) + l.colon) + (":" + (l.word + h) + b)
  {
  }

  lemma StripTail(key: Option<string>, t: Ty, l: Layout)
    requires WellFormed(t) && BlankLayout(l)
    ensures Strip(PrefixText(key, l) + Head(t) + l.after) == Strip(PrefixText(key, l) + Head(t)) != ""
  {
    hide LStrip, RStrip, NameText, WellFormed;
    var h := Head(t);
    HeadIsWord(t);
    assert PrefixText(key, l) + h + "" == PrefixText(key, l) + h;
    if key.None? {
      StripPadded(l.before, h, l.after);
      StripPadded(l.before, h, "");
    } else {
      var k, v := l.before + NameText(key.value, l.bare) + l.colon, l.word + h;
      PrefixSplit(key.value, l, h, l.after);
      PrefixSplit(key.value, l, h, "");
      StripLabel(k, v, l.after, h);
      StripLabel(k, v, "", h);
    }
  }
}
