/** The texts that odps/readers.py reads as arrays, maps and structs, and what each means. */
module ComplexWriting {
  import opened Text
  import opened TypeStrings
  import opened Values
  import opened DepthSplit
  import opened ComplexValues
  import opened Backquotes

  /** A written value: a leaf, or members in brackets or braces; blanks may stand around every value. */
  datatype Writing = Leaf(text: string) | Group(square: bool, members: seq<Member>, gap: string)

  datatype Member = Member(key: Option<Slot>, value: Slot)

  datatype Slot = Slot(before: string, w: Writing, after: string)

  function TextOf(w: Writing): string
  {
    match w
    case Leaf(text) => text
    case Group(square, members, gap) =>
      (if square then "[" else "{")
      + (if members == [] then gap else Join(MemberTexts(members), ","))
      + (if square then "]" else "}")
  }

  function SlotText(s: Slot): string
  {
    s.before + TextOf(s.w) + s.after
  }

  function MemberText(m: Member): string
  {
    (match m.key case None => "" case Some(key) => SlotText(key) + ":") + SlotText(m.value)
  }

  function MemberTexts(ms: seq<Member>): (r: seq<string>)
    ensures |r| == |ms|
  {
    if ms == [] then [] else [MemberText(ms[0])] + MemberTexts(ms[1..])
  }

  // ----- which writings are good -----

  /** Brackets, commas and colons only inside quotes or behind a backslash; quotes closed at the end. */
  predicate Scanned(x: string, quote: Option<char>, escape: bool)
  {
    if x == "" then quote == None && !escape
    else if escape then Scanned(x[1..], quote, false)
    else if x[0] == '\\' then Scanned(x[1..], quote, true)
    else if quote.Some? then Scanned(x[1..], if x[0] == quote.value then None else quote, false)
    else if IsQuote(x[0]) then Scanned(x[1..], Some(x[0]), false)
    else !IsOpen(x[0]) && !IsClose(x[0]) && x[0] != ',' && x[0] != ':' && Scanned(x[1..], None, false)
  }

  predicate IsLeafText(x: string)
  {
    x != "" && Tight(x) && Scanned(x, None, false)
  }

  predicate Good(w: Writing)
  {
    match w
    case Leaf(text) => IsLeafText(text)
    case Group(_, members, gap) => AllBlank(gap) && forall m | m in members :: GoodMember(m)
  }

  predicate GoodMember(m: Member)
  {
    (m.key.Some? ==> GoodSlot(m.key.value)) && GoodSlot(m.value)
  }

  predicate GoodSlot(s: Slot)
  {
    AllBlank(s.before) && AllBlank(s.after) && Good(s.w)
  }

  /** The writing has the shape of the type: brackets for arrays, braces for maps and structs, keys in maps. */
  predicate Fits(w: Writing, t: Ty)
    decreases t, 0
  {
    match t
    case Array(elem) =>
      w.Group? && w.square && forall m | m in w.members :: m.key == None && FitsElement(m.value.w, elem)
    case Map(key, value) =>
      w.Group? && !w.square
      && forall m | m in w.members :: m.key.Some? && Fits(m.key.value.w, key) && FitsElement(m.value.w, value)
    case Struct(fields) =>
      w.Group? && !w.square && |w.members| <= |fields|
      && forall i | 0 <= i < |w.members| :: FitsElement(w.members[i].value.w, fields[i].ty)
    case Vector(_, _) => false
    case _ => w.Leaf?
  }

  predicate FitsElement(w: Writing, t: Ty)
    decreases t, 1
  {
    w == Leaf(NULL_TOKEN) || Fits(w, t)
  }

  // ----- what a writing means -----

  function Meaning(w: Writing, t: Ty, k: Casts): Outcome<Val>
    requires Fits(w, t)
    decreases t, 3, 0
  {
    match t
    case Array(elem) =>
      (match ItemMeanings(w.members, elem, k)
       case Raise(e) => Raise(e)
       case Ok(items) => Ok(ListV(items)))
    case Map(_, _) =>
      (match EntryMeanings(w.members, t, k)
       case Raise(e) => Raise(e)
       case Ok(pairs) => Dictionary(pairs))
    case Struct(fields) =>
      if w.members == [] then Ok(Record(fields, seq(|fields|, i => Null), k.host))
      else
        (match FieldMeanings(w.members, fields, k)
         case Raise(e) => Raise(e)
         case Ok(values) =>
           if |values| < |fields| && !k.host.structAsDict then Raise(TypeError)
           else Ok(Record(fields, values, k.host)))
    case _ => Cast(w.text, t, k)
  }

  function ElementMeaning(w: Writing, t: Ty, k: Casts): Outcome<Val>
    requires FitsElement(w, t)
    decreases t, 4, 0
  {
    if w == Leaf(NULL_TOKEN) then Ok(Null) else Meaning(w, t, k)
  }

  function ItemMeanings(ms: seq<Member>, t: Ty, k: Casts): (r: Outcome<seq<Val>>)
    requires forall m | m in ms :: FitsElement(m.value.w, t)
    decreases t, 5, |ms|
  {
    if ms == [] then Ok([])
    else
      match ElementMeaning(ms[0].value.w, t, k)
      case Raise(e) => Raise(e)
      case Ok(first) =>
        match ItemMeanings(ms[1..], t, k)
        case Raise(e) => Raise(e)
        case Ok(rest) => Ok([first] + rest)
  }

  function EntryMeanings(ms: seq<Member>, t: Ty, k: Casts): (r: Outcome<seq<Entry>>)
    requires t.Map?
    requires forall m | m in ms :: m.key.Some? && Fits(m.key.value.w, t.key) && FitsElement(m.value.w, t.value)
    decreases t, 0, |ms|
  {
    if ms == [] then Ok([])
    else
      match Meaning(ms[0].key.value.w, t.key, k)
      case Raise(e) => Raise(e)
      case Ok(key) =>
        match ElementMeaning(ms[0].value.w, t.value, k)
        case Raise(e) => Raise(e)
        case Ok(value) =>
          match EntryMeanings(ms[1..], t, k)
          case Raise(e) => Raise(e)
          case Ok(rest) => Ok([Entry(key, value)] + rest)
  }

  function FieldMeanings(ms: seq<Member>, fields: seq<Field>, k: Casts): (r: Outcome<seq<Val>>)
    requires |ms| <= |fields| && forall i | 0 <= i < |ms| :: FitsElement(ms[i].value.w, fields[i].ty)
    ensures r.Ok? ==> |r.value| == |ms|
    decreases fields, 1, |ms|
  {
    if ms == [] then Ok([])
    else
      match ElementMeaning(ms[0].value.w, fields[0].ty, k)
      case Raise(e) => Raise(e)
      case Ok(first) =>
        match FieldMeanings(ms[1..], fields[1..], k)
        case Raise(e) => Raise(e)
        case Ok(rest) => Ok([first] + rest)
  }

  // ----- scanning over a written value -----

  /** The scan passes over the text without a cut and comes out as it went in. */
  predicate Passes(x: string, depth: int, delimiter: char)
  {
    var q := Nesting(depth, None, false);
    FirstCut(x, q, delimiter) == |x| && Through(x, q) == q
  }

  lemma PassesJoin(x: string, y: string, depth: int, delimiter: char)
    requires Passes(x, depth, delimiter) && Passes(y, depth, delimiter)
    ensures Passes(x + y, depth, delimiter)
  {
    hide FirstCut, Through;
    var q := Nesting(depth, None, false);
    FirstCutJoin(x, y, q, delimiter);
    ThroughJoin(x, y, q);
  }

  lemma {:induction false} BlankPasses(x: string, depth: int, delimiter: char)
    requires AllBlank(x) && (delimiter == ',' || delimiter == ':')
    ensures Passes(x, depth, delimiter)
    decreases |x|
  {
    if x != "" {
      assert IsBlank(x[0]);
      BlankPasses(x[1..], depth, delimiter);
    }
  }

  lemma {:induction false} ScannedPasses(x: string, depth: int, quote: Option<char>, escape: bool, delimiter: char)
    requires Scanned(x, quote, escape) && (delimiter == ',' || delimiter == ':')
    requires quote.Some? ==> IsQuote(quote.value)
    ensures var q := Nesting(depth, quote, escape);
            FirstCut(x, q, delimiter) == |x| && Through(x, q) == Nesting(depth, None, false)
    decreases |x|
  {
    if x != "" {
      var next := After(Nesting(depth, quote, escape), x[0]);
      ScannedPasses(x[1..], depth, next.quote, next.escape, delimiter);
    }
  }

  /** Inside brackets a comma is no cut. */
  lemma DelimiterPasses(depth: int, delimiter: char, c: char)
    requires depth > 0 && (c == ',' || c == ':')
    ensures Passes([c], depth, delimiter)
  {
    assert [c][1..] == "";
  }

  lemma ColonPassesComma(depth: int)
    ensures Passes(":", depth, ',')
  {
    assert ":"[1..] == "";
  }

  /** Brackets around a text that passes one level deeper. */
  lemma BracketsPass(open: char, x: string, close: char, depth: int, delimiter: char)
    requires IsOpen(open) && IsClose(close) && depth >= 0 && (delimiter == ',' || delimiter == ':')
    requires Passes(x, depth + 1, delimiter)
    ensures Passes([open] + x + [close], depth, delimiter)
  {
    var q, inner := Nesting(depth, None, false), Nesting(depth + 1, None, false);
    assert [open][1..] == "" && [close][1..] == "";
    FirstCutJoin([open], x, q, delimiter);
    ThroughJoin([open], x, q);
    FirstCutJoin([open] + x, [close], q, delimiter);
    ThroughJoin([open] + x, [close], q);
  }

  lemma {:induction false} JoinPasses(pieces: seq<string>, depth: int, delimiter: char)
    requires |pieces| > 0 && depth > 0 && forall p | p in pieces :: Passes(p, depth, delimiter)
    ensures Passes(Join(pieces, ","), depth, delimiter)
    decreases |pieces|
  {
    hide Passes;
    if |pieces| > 1 {
      JoinPasses(pieces[1..], depth, delimiter);
      DelimiterPasses(depth, delimiter, ',');
      PassesJoin(pieces[0], ",", depth, delimiter);
      PassesJoin(pieces[0] + ",", Join(pieces[1..], ","), depth, delimiter);
    }
  }

  lemma {:induction false} GoodPasses(w: Writing, depth: int, delimiter: char)
    requires Good(w) && depth >= 0 && (delimiter == ',' || delimiter == ':')
    ensures Passes(TextOf(w), depth, delimiter)
    decreases w, 0
  {
    hide Passes;
    match w
    case Leaf(text) => LeafPasses(text, depth, delimiter);
    case Group(square, members, gap) =>
      if members == [] {
        BlankPasses(gap, depth + 1, delimiter);
      } else {
        MembersPass(members, depth + 1, delimiter);
        JoinPasses(MemberTexts(members), depth + 1, delimiter);
      }
      var inner := if members == [] then gap else Join(MemberTexts(members), ",");
      if square {
        BracketsPass('[', inner, ']', depth, delimiter);
      } else {
        BracketsPass('{', inner, '}', depth, delimiter);
      }
  }

  lemma LeafPasses(text: string, depth: int, delimiter: char)
    requires IsLeafText(text) && (delimiter == ',' || delimiter == ':')
    ensures Passes(text, depth, delimiter)
  {
    ScannedPasses(text, depth, None, false, delimiter);
  }

  lemma {:induction false} SlotPasses(s: Slot, depth: int, delimiter: char)
    requires GoodSlot(s) && depth >= 0 && (delimiter == ',' || delimiter == ':')
    ensures Passes(SlotText(s), depth, delimiter)
    decreases s, 1
  {
    hide Passes;
    BlankPasses(s.before, depth, delimiter);
    GoodPasses(s.w, depth, delimiter);
    BlankPasses(s.after, depth, delimiter);
    PassesJoin(s.before, TextOf(s.w), depth, delimiter);
    PassesJoin(s.before + TextOf(s.w), s.after, depth, delimiter);
  }

  /** A member passes: anywhere for commas, inside brackets also for colons. */
  lemma {:induction false} MemberPasses(m: Member, depth: int, delimiter: char)
    requires GoodMember(m) && depth >= 0 && (delimiter == ',' || (delimiter == ':' && depth > 0))
    ensures Passes(MemberText(m), depth, delimiter)
    decreases m, 2
  {
    hide Passes;
    SlotPasses(m.value, depth, delimiter);
    if m.key.Some? {
      SlotPasses(m.key.value, depth, delimiter);
      if delimiter == ',' {
        ColonPassesComma(depth);
      } else {
        DelimiterPasses(depth, delimiter, ':');
      }
      PassesJoin(SlotText(m.key.value), ":", depth, delimiter);
      PassesJoin(SlotText(m.key.value) + ":", SlotText(m.value), depth, delimiter);
    } else {
      assert "" + SlotText(m.value) == SlotText(m.value);
    }
  }

  lemma {:induction false} MembersPass(ms: seq<Member>, depth: int, delimiter: char)
    requires (forall m | m in ms :: GoodMember(m)) && depth >= 0
    requires delimiter == ',' || (delimiter == ':' && depth > 0)
    ensures forall p | p in MemberTexts(ms) :: Passes(p, depth, delimiter)
    decreases ms, |ms|
  {
    hide Passes;
    if ms != [] {
      MemberPasses(ms[0], depth, delimiter);
      MembersPass(ms[1..], depth, delimiter);
    }
  }

  /** A written value starts and ends with something. */
  lemma GoodIsTight(w: Writing)
    requires Good(w)
    ensures TextOf(w) != "" && Tight(TextOf(w))
  {
    if w.Group? {
      var s := TextOf(w);
      assert s[0] == if w.square then '[' else '{';
      assert s[|s| - 1] == if w.square then ']' else '}';
    }
  }
}
