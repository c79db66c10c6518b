/** `parse_complex_value` (odps/readers.py) reads every written value as what it means. */
module ComplexMeaning {
  import opened Text
  import opened TypeStrings
  import opened DepthSplit
  import opened ComplexValues
  import opened ComplexWriting
  import opened Backquotes

  // ----- pieces with blanks around them -----

  datatype Padded = Padded(lead: string, core: string, trail: string)

  function PadText(p: Padded): string
  {
    p.lead + p.core + p.trail
  }

  function PadTexts(ps: seq<Padded>): (r: seq<string>)
    ensures |r| == |ps|
  {
    if ps == [] then [] else [PadText(ps[0])] + PadTexts(ps[1..])
  }

  predicate PaddedOk(p: Padded)
  {
    AllBlank(p.lead) && AllBlank(p.trail) && p.core != "" && Tight(p.core) && Passes(p.core, 0, ',')
  }

  lemma PaddedPasses(p: Padded)
    requires PaddedOk(p)
    ensures Passes(PadText(p), 0, ',') && Strip(PadText(p)) == p.core
  {
    hide Passes, Strip;
    BlankPasses(p.lead, 0, ',');
    BlankPasses(p.trail, 0, ',');
    PassesJoin(p.lead, p.core, 0, ',');
    PassesJoin(p.lead + p.core, p.trail, 0, ',');
    StripPadded(p.lead, p.core, p.trail);
    StripTight(p.core);
  }

  lemma {:induction false} PadTextAt(ps: seq<Padded>, i: nat)
    requires i < |ps|
    ensures PadTexts(ps)[i] == PadText(ps[i])
  {
    if i > 0 {
      PadTextAt(ps[1..], i - 1);
    }
  }

  function NoLead(ps: seq<Padded>): seq<Padded>
    requires ps != []
  {
    [ps[0].(lead := "")] + ps[1..]
  }

  function NoTrail(ps: seq<Padded>): seq<Padded>
    requires ps != []
  {
    ps[..|ps| - 1] + [ps[|ps| - 1].(trail := "")]
  }

  lemma LeadIsApart(ps: seq<Padded>)
    requires ps != []
    ensures Join(PadTexts(ps), ",") == ps[0].lead + Join(PadTexts(NoLead(ps)), ",")
  {
    var first := ps[0].(lead := "");
    assert NoLead(ps)[1..] == ps[1..];
    assert PadText(ps[0]) == ps[0].lead + PadText(first);
    var rest := PadTexts(ps[1..]);
    if rest == [] {
      assert PadTexts(ps) == [PadText(ps[0])] && PadTexts(NoLead(ps)) == [PadText(first)];
      JoinOne(PadText(ps[0]), ",");
      JoinOne(PadText(first), ",");
    } else {
      JoinCons(PadText(ps[0]), rest, ",");
      JoinCons(PadText(first), rest, ",");
      RegroupFour(ps[0].lead, PadText(first), ",", Join(rest, ","));
    }
  }

  lemma {:induction false} TrailIsApart(ps: seq<Padded>)
    requires ps != []
    ensures Join(PadTexts(ps), ",") == Join(PadTexts(NoTrail(ps)), ",") + ps[|ps| - 1].trail
    decreases |ps|
  {
    if |ps| == 1 {
      assert PadTexts(ps) == [PadText(ps[0])];
      assert NoTrail(ps) == [ps[0].(trail := "")];
      JoinOne(PadText(ps[0]), ",");
      JoinOne(PadText(NoTrail(ps)[0]), ",");
      assert ps[0].lead + ps[0].core + "" == ps[0].lead + ps[0].core;
    } else {
      var rest := ps[1..];
      TrailIsApart(rest);
      assert NoTrail(ps)[0] == ps[0] && NoTrail(ps)[1..] == NoTrail(rest);
      JoinCons(PadText(ps[0]), PadTexts(rest), ",");
      JoinCons(PadText(ps[0]), PadTexts(NoTrail(rest)), ",");
      Regrouped4(PadText(ps[0]), ",", Join(PadTexts(NoTrail(rest)), ","), ps[|ps| - 1].trail);
    }
  }

  lemma Regrouped4(a: string, b: string, c: string, d: string)
    ensures a + b + (c + d) == (a + b + c) + d
  {
  }

  lemma StartsTight(ps: seq<Padded>)
    requires ps != [] && ps[0].lead == "" && ps[0].core != ""
    ensures var s := Join(PadTexts(ps), ",");
            s != "" && s[0] == ps[0].core[0]
  {
    var rest := PadTexts(ps[1..]);
    assert PadText(ps[0])[0] == ps[0].core[0];
    if rest == [] {
      JoinOne(PadText(ps[0]), ",");
      assert PadTexts(ps) == [PadText(ps[0])];
    } else {
      JoinCons(PadText(ps[0]), rest, ",");
    }
  }

  lemma {:induction false} EndsTight(ps: seq<Padded>)
    requires ps != [] && ps[|ps| - 1].trail == "" && ps[|ps| - 1].core != ""
    ensures var s, last := Join(PadTexts(ps), ","), ps[|ps| - 1].core;
            s != "" && s[|s| - 1] == last[|last| - 1]
    decreases |ps|
  {
    if |ps| == 1 {
      JoinOne(PadText(ps[0]), ",");
      assert PadTexts(ps) == [PadText(ps[0])];
    } else {
      EndsTight(ps[1..]);
      JoinCons(PadText(ps[0]), PadTexts(ps[1..]), ",");
    }
  }

  /** Stripping the whole and then each piece leaves the cores. */
  lemma SplitPadded(ps: seq<Padded>)
    requires ps != [] && forall p | p in ps :: PaddedOk(p)
    ensures var s := Strip(Join(PadTexts(ps), ","));
            var parts := Split(s, ',', None);
            && s != "" && |parts| == |ps|
            && forall i | 0 <= i < |ps| :: Strip(parts[i]) == ps[i].core
  {
    hide Strip, Passes, Split, PadText, Tight, FirstCut, Through;
    var qs := NoTrail(NoLead(ps));
    var inner := Join(PadTexts(qs), ",");
    LeadIsApart(ps);
    TrailIsApart(NoLead(ps));
    assert NoLead(ps)[|ps| - 1].trail == ps[|ps| - 1].trail;
    forall i | 0 <= i < |ps| ensures PaddedOk(qs[i]) && qs[i].core == ps[i].core {
      assert PaddedOk(ps[i]);
    }
    assert PaddedOk(ps[0]) && PaddedOk(ps[|ps| - 1]);
    StripInner(ps[0].lead, inner, ps[|ps| - 1].trail, qs);
    assert Join(PadTexts(ps), ",") == ps[0].lead + inner + ps[|ps| - 1].trail by {
      Regroup(ps[0].lead, inner, ps[|ps| - 1].trail);
    }
    PiecesOf(qs);
    forall i | 0 <= i < |ps| ensures Strip(PadTexts(qs)[i]) == ps[i].core {
      PadTextAt(qs, i);
      PaddedPasses(qs[i]);
    }
  }

  lemma StripInner(lead: string, inner: string, trail: string, qs: seq<Padded>)
    requires qs != [] && (forall i | 0 <= i < |qs| :: PaddedOk(qs[i])) && inner == Join(PadTexts(qs), ",")
    requires AllBlank(lead) && AllBlank(trail) && qs[0].lead == "" && qs[|qs| - 1].trail == ""
    ensures inner != "" && Strip(lead + inner + trail) == inner
  {
    hide Strip, Passes;
    assert PaddedOk(qs[0]) && PaddedOk(qs[|qs| - 1]);
    StartsTight(qs);
    EndsTight(qs);
    StripPadded(lead, inner, trail);
    StripTight(inner);
  }

  lemma PiecesOf(qs: seq<Padded>)
    requires qs != [] && forall i | 0 <= i < |qs| :: PaddedOk(qs[i])
    ensures Split(Join(PadTexts(qs), ","), ',', None) == PadTexts(qs)
  {
    hide Split, PaddedOk, Join, FirstCut, Through;
    forall p | p in PadTexts(qs)
      ensures FirstCut(p, OUTSIDE, ',') == |p| && Through(p, OUTSIDE) == OUTSIDE
    {
      var i :| 0 <= i < |qs| && PadTexts(qs)[i] == p;
      PadTextAt(qs, i);
      PaddedPasses(qs[i]);
    }
    JoinedSplits(PadTexts(qs), ',');
  }

  // ----- members as padded pieces -----

  function KeyPart(m: Member): string
    requires m.key.Some?
  {
    TextOf(m.key.value.w) + m.key.value.after
  }

  function ValuePart(m: Member): string
  {
    m.value.before + TextOf(m.value.w)
  }

  function Pad(m: Member): Padded
  {
    if m.key.Some? then Padded(m.key.value.before, KeyPart(m) + ":" + ValuePart(m), m.value.after)
    else Padded(m.value.before, TextOf(m.value.w), m.value.after)
  }

  function Pads(ms: seq<Member>): (r: seq<Padded>)
    ensures |r| == |ms| && forall i | 0 <= i < |ms| :: r[i] == Pad(ms[i])
  {
    if ms == [] then [] else [Pad(ms[0])] + Pads(ms[1..])
  }

  lemma PadIsMember(m: Member)
    ensures PadText(Pad(m)) == MemberText(m)
  {
    if m.key.Some? {
      var a, b, c := m.key.value.before, TextOf(m.key.value.w), m.key.value.after;
      var d, e, f := m.value.before, TextOf(m.value.w), m.value.after;
      assert a + ((b + c) + ":" + (d + e)) + f == ((a + b + c) + ":") + (d + e + f);
    } else {
      assert "" + SlotText(m.value) == SlotText(m.value);
    }
  }

  lemma {:induction false} PadsAreMembers(ms: seq<Member>)
    ensures PadTexts(Pads(ms)) == MemberTexts(ms)
    decreases |ms|
  {
    if ms != [] {
      PadIsMember(ms[0]);
      PadsAreMembers(ms[1..]);
    }
  }

  lemma EndsOfParts(b: string, c: string, d: string, e: string)
    requires b != "" && Tight(b) && e != "" && Tight(e)
    ensures Tight((b + c) + ":" + (d + e))
  {
    var s := (b + c) + ":" + (d + e);
    assert s[0] == b[0] && s[|s| - 1] == e[|e| - 1];
  }

  lemma PadOk(m: Member)
    requires GoodMember(m)
    ensures PaddedOk(Pad(m))
  {
    hide Passes, Tight;
    GoodIsTight(m.value.w);
    GoodPasses(m.value.w, 0, ',');
    if m.key.Some? {
      var key := m.key.value;
      GoodIsTight(key.w);
      KeyPartPasses(m, ',');
      ColonPassesComma(0);
      BlankPasses(m.value.before, 0, ',');
      PassesJoin(m.value.before, TextOf(m.value.w), 0, ',');
      PassesJoin(KeyPart(m), ":", 0, ',');
      PassesJoin(KeyPart(m) + ":", ValuePart(m), 0, ',');
      EndsOfParts(TextOf(key.w), key.after, m.value.before, TextOf(m.value.w));
    }
  }

  lemma KeyPartPasses(m: Member, delimiter: char)
    requires GoodMember(m) && m.key.Some? && (delimiter == ',' || delimiter == ':')
    ensures Passes(KeyPart(m), 0, delimiter)
  {
    hide Passes;
    GoodPasses(m.key.value.w, 0, delimiter);
    BlankPasses(m.key.value.after, 0, delimiter);
    PassesJoin(TextOf(m.key.value.w), m.key.value.after, 0, delimiter);
  }

  /** The pieces of a group's inside are its members. */
  lemma GroupSplits(ms: seq<Member>)
    requires ms != [] && forall m | m in ms :: GoodMember(m)
    ensures var s := Strip(Join(MemberTexts(ms), ","));
            var parts := Split(s, ',', None);
            && s != "" && |parts| == |ms|
            && forall i | 0 <= i < |ms| :: Strip(parts[i]) == Pad(ms[i]).core
  {
    hide Strip, Split, Join, PaddedOk;
    PadsAreMembers(ms);
    forall p | p in Pads(ms) ensures PaddedOk(p) {
      var i :| 0 <= i < |ms| && Pads(ms)[i] == p;
      PadOk(ms[i]);
    }
    SplitPadded(Pads(ms));
  }

  lemma GroupInside(w: Writing)
    requires w.Group? && Good(w)
    ensures Bracketed(TextOf(w), if w.square then '[' else '{', if w.square then ']' else '}')
    ensures Inside(TextOf(w)) == Strip(if w.members == [] then w.gap else Join(MemberTexts(w.members), ","))
  {
    hide Strip, Join;
    var s := TextOf(w);
    var inner := if w.members == [] then w.gap else Join(MemberTexts(w.members), ",");
    assert s[1..|s| - 1] == inner;
  }

  lemma StripBlank(x: string)
    requires AllBlank(x)
    ensures Strip(x) == ""
  {
    StripPadded(x, "", "");
    assert x + "" + "" == x;
  }

  // ----- keys and values -----

  lemma EntrySplits(m: Member)
    requires GoodMember(m) && m.key.Some?
    ensures Split(Pad(m).core, ':', Some(1)) == [KeyPart(m), ValuePart(m)]
    ensures Strip(KeyPart(m)) == TextOf(m.key.value.w) && Strip(ValuePart(m)) == TextOf(m.value.w)
  {
    hide FirstCut, Through, Strip;
    KeyPartPasses(m, ':');
    CutBetween(KeyPart(m), ValuePart(m), ':');
    GoodIsTight(m.key.value.w);
    GoodIsTight(m.value.w);
    StripTight(TextOf(m.key.value.w));
    StripTight(TextOf(m.value.w));
    StripPadded("", TextOf(m.key.value.w), m.key.value.after);
    StripPadded(m.value.before, TextOf(m.value.w), "");
    assert "" + TextOf(m.key.value.w) + m.key.value.after == KeyPart(m);
    assert ValuePart(m) + "" == ValuePart(m);
  }

  lemma ValueTextOf(m: Member)
    requires GoodMember(m)
    ensures ValueText(Pad(m).core) == TextOf(m.value.w)
  {
    hide FirstCut, Through, Strip;
    if m.key.Some? {
      EntrySplits(m);
    } else {
      GoodPasses(m.value.w, 0, ':');
      var s := TextOf(m.value.w);
      assert Split(s, ':', Some(1)) == [s];
    }
  }

  // ----- the parser gives the meaning -----

  predicate Cores(parts: seq<string>, ms: seq<Member>)
  {
    |parts| == |ms| && forall i | 0 <= i < |ms| :: Strip(parts[i]) == Pad(ms[i]).core
  }

  lemma CoresRest(parts: seq<string>, ms: seq<Member>)
    requires Cores(parts, ms) && ms != []
    ensures Cores(parts[1..], ms[1..])
  {
    hide Strip, Pad;
    forall i | 0 <= i < |ms[1..]| ensures Strip(parts[1..][i]) == Pad(ms[1..][i]).core {
      assert parts[1..][i] == parts[i + 1] && ms[1..][i] == ms[i + 1];
    }
  }

  /** Every well-written text of the type's shape is read as what it means, errors of its leaves included. */
  lemma {:induction false} ParseMeans(w: Writing, t: Ty, k: Casts)
    requires Good(w) && Fits(w, t)
    ensures ParseKey(TextOf(w), t, k) == Meaning(w, t, k)
    decreases t, 3, 0
  {
    hide Strip, Split, Join, Cast, Pad, TextOf;
    if IsComposite(t) {
      GroupInside(w);
      if w.members == [] {
        StripBlank(w.gap);
      } else {
        GroupSplits(w.members);
        var parts := Split(Inside(TextOf(w)), ',', None);
        assert Cores(parts, w.members);
        match t
        case Array(elem) => ItemsMean(parts, w.members, elem, k);
        case Map(_, _) => EntriesMean(parts, w.members, t, k);
        case Struct(fields) => FieldsMean(parts, w.members, fields, k);
        case _ =>
      }
    } else {
      LeafTextOf(w);
    }
  }

  lemma LeafTextOf(w: Writing)
    requires w.Leaf?
    ensures TextOf(w) == w.text
  {
  }

  lemma OnlyTheTokenIsNull(w: Writing)
    ensures TextOf(w) == NULL_TOKEN <==> w == Leaf(NULL_TOKEN)
  {
    if w.Group? {
      assert TextOf(w)[0] == if w.square then '[' else '{';
    }
  }

  lemma {:induction false} ElementMeans(w: Writing, t: Ty, k: Casts)
    requires Good(w) && FitsElement(w, t)
    ensures ParseElement(TextOf(w), t, k) == ElementMeaning(w, t, k)
    decreases t, 4, 0
  {
    hide ParseKey, Meaning;
    OnlyTheTokenIsNull(w);
    if w != Leaf(NULL_TOKEN) {
      ParseMeans(w, t, k);
    }
  }

  lemma {:induction false} ItemsMean(parts: seq<string>, ms: seq<Member>, t: Ty, k: Casts)
    requires Cores(parts, ms) && forall m | m in ms :: GoodMember(m)
    requires forall m | m in ms :: m.key == None && FitsElement(m.value.w, t)
    ensures ParseItems(parts, t, k) == ItemMeanings(ms, t, k)
    decreases t, 5, |ms|
  {
    hide ParseElement, ElementMeaning, Strip, TextOf, FitsElement, GoodSlot;
    if ms != [] {
      CoresRest(parts, ms);
      GoodValue(ms[0]);
      ElementMeans(ms[0].value.w, t, k);
      ItemsMean(parts[1..], ms[1..], t, k);
    }
  }

  lemma GoodValue(m: Member)
    requires GoodMember(m)
    ensures Good(m.value.w) && (m.key.Some? ==> Good(m.key.value.w))
  {
  }

  lemma {:induction false} EntriesMean(parts: seq<string>, ms: seq<Member>, t: Ty, k: Casts)
    requires Cores(parts, ms) && t.Map? && forall m | m in ms :: GoodMember(m)
    requires forall m | m in ms :: m.key.Some? && Fits(m.key.value.w, t.key) && FitsElement(m.value.w, t.value)
    ensures ParseEntries(parts, t, k) == EntryMeanings(ms, t, k)
    decreases t, 0, |ms|
  {
    hide ParseElement, ElementMeaning, ParseKey, Meaning, Strip, TextOf, FitsElement, Fits, GoodMember, Pad, Split;
    if ms != [] {
      CoresRest(parts, ms);
      GoodValue(ms[0]);
      EntrySplits(ms[0]);
      ParseMeans(ms[0].key.value.w, t.key, k);
      ElementMeans(ms[0].value.w, t.value, k);
      EntriesMean(parts[1..], ms[1..], t, k);
    }
  }

  lemma {:induction false} FieldsMean(parts: seq<string>, ms: seq<Member>, fields: seq<Field>, k: Casts)
    requires Cores(parts, ms) && |ms| <= |fields| && forall m | m in ms :: GoodMember(m)
    requires forall i | 0 <= i < |ms| :: FitsElement(ms[i].value.w, fields[i].ty)
    ensures ParseFields(parts, fields, k) == FieldMeanings(ms, fields, k)
    decreases fields, 1, |ms|
  {
    hide ParseElement, ElementMeaning, Strip, TextOf, FitsElement, GoodMember, Pad, ValueText;
    if ms != [] {
      CoresRest(parts, ms);
      GoodValue(ms[0]);
      ValueTextOf(ms[0]);
      ElementMeans(ms[0].value.w, fields[0].ty, k);
      forall i | 0 <= i < |ms[1..]| ensures FitsElement(ms[1..][i].value.w, fields[1..][i].ty) {
        assert ms[1..][i] == ms[i + 1] && fields[1..][i] == fields[i + 1];
      }
      FieldsMean(parts[1..], ms[1..], fields[1..], k);
    }
  }
}
