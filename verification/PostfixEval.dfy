/** Evaluating a loaded tree is running its listing on a stack of values
    (odps/expressions/core.py). */
module PostfixEval {
  import opened Text
  import opened Postfix

  /** What evaluation depends on: the constants' type check, the record, and the functions. */
  datatype World<!V> = World(
    check: Constant -> Outcome<V>,
    column: string -> Outcome<V>,
    call: (string, seq<V>) -> Outcome<V>)

  predicate Truthy(c: Constant)
  {
    match c
    case Whole(n) => n != 0
    case Truth(b) => b
    case Words(s) => s != ""
  }

  /** `LeafExprDesc.eval`: a constant that is false in Python counts as missing. */
  function LeafValue<V>(item: Item, w: World<V>): Outcome<V>
    requires item.Leaf?
  {
    if item.constant.Some? && Truthy(item.constant.value) then w.check(item.constant.value)
    else if item.reference.Some? then w.column(item.reference.value)
    else Raise(NotImplementedError)
  }

  function Applied<V>(item: Item, args: seq<V>, w: World<V>): Outcome<V>
  {
    match item
    case Leaf(_, _) => LeafValue(item, w)
    case Call(name) => w.call(name, args)
  }

  function Eval<V>(t: Tree, w: World<V>): Outcome<V>
  {
    match EvalAll(t.args, w)
    case Raise(e) => Raise(e)
    case Ok(vs) => Applied(t.item, vs, w)
  }

  /** The values from left to right, or the first error. */
  function EvalAll<V>(ts: seq<Tree>, w: World<V>): (r: Outcome<seq<V>>)
    ensures r.Ok? ==> |r.value| == |ts|
  {
    if ts == [] then Ok([])
    else
      match EvalAll(ts[..|ts| - 1], w)
      case Raise(e) => Raise(e)
      case Ok(vs) =>
        match Eval(ts[|ts| - 1], w)
        case Raise(e) => Raise(e)
        case Ok(v) => Ok(vs + [v])
  }

  /** A machine that keeps values where the loader keeps trees. */
  function Run<V>(values: seq<V>, items: seq<Item>, arity: Arity, w: World<V>): Outcome<seq<V>>
    decreases |items|
  {
    if items == [] then Ok(values)
    else
      var item := items[0];
      match Height(|values|, item, arity)
      case None => Raise(ValueError)
      case Some(k) =>
        match Applied(item, values[k..], w)
        case Raise(e) => Raise(e)
        case Ok(v) => Run(values[..k] + [v], items[1..], arity, w)
  }

  /** How much of the stack an item leaves alone. */
  function Height(height: nat, item: Item, arity: Arity): (k: Option<nat>)
    ensures k.Some? ==> k.value <= height
  {
    match item
    case Leaf(_, _) => Some(height)
    case Call(name) =>
      match arity(name)
      case None => None
      case Some(n) => Some(Kept(height, n))
  }

  // ----- proof -----

  lemma EvalSnoc<V>(ts: seq<Tree>, t: Tree, w: World<V>)
    ensures EvalAll(ts + [t], w) == match EvalAll(ts, w)
                                    case Raise(e) => Raise(e)
                                    case Ok(vs) =>
                                      match Eval(t, w)
                                      case Raise(e) => Raise(e)
                                      case Ok(v) => Ok(vs + [v])
  {
    assert (ts + [t])[..|ts|] == ts;
  }

  lemma {:induction false} EvalJoin<V>(a: seq<Tree>, b: seq<Tree>, w: World<V>)
    ensures EvalAll(a + b, w) == match EvalAll(a, w)
                                 case Raise(e) => Raise(e)
                                 case Ok(vs) =>
                                   match EvalAll(b, w)
                                   case Raise(e) => Raise(e)
                                   case Ok(us) => Ok(vs + us)
    decreases |b|
  {
    if b == [] {
      assert a + b == a;
      var va := EvalAll(a, w);
      assert va.Ok? ==> va.value + [] == va.value;
    } else {
      var front, last := b[..|b| - 1], b[|b| - 1];
      assert a + b == (a + front) + [last];
      EvalJoin(a, front, w);
      EvalSnoc(a + front, last, w);
      var va, vf, vl := EvalAll(a, w), EvalAll(front, w), Eval(last, w);
      if va.Ok? && vf.Ok? && vl.Ok? {
        Regroup(va.value, vf.value, [vl.value]);
      }
    }
  }

  lemma PushFolds(stack: seq<Tree>, item: Item, arity: Arity)
    ensures Push(stack, item, arity) == match Height(|stack|, item, arity)
                                        case None => Raise(ValueError)
                                        case Some(k) => Ok(Folded(stack, k, item))
  {
    hide Kept;
    assert stack[..|stack|] == stack && stack[|stack|..] == [];
  }

  lemma FoldedEval<V>(stack: seq<Tree>, k: nat, item: Item, w: World<V>)
    requires k <= |stack|
    ensures EvalAll(stack, w).Raise? ==> EvalAll(Folded(stack, k, item), w) == EvalAll(stack, w)
    ensures EvalAll(stack, w).Ok? ==>
              var vs := EvalAll(stack, w).value;
              EvalAll(Folded(stack, k, item), w) == match Applied(item, vs[k..], w)
                                                    case Raise(e) => Raise(e)
                                                    case Ok(v) => Ok(vs[..k] + [v])
  {
    hide Applied;
    var low, high := stack[..k], stack[k..];
    assert stack == low + high;
    EvalJoin(low, high, w);
    EvalSnoc(low, Tree(item, high), w);
    if EvalAll(stack, w).Ok? {
      var vs := EvalAll(stack, w).value;
      Halves(EvalAll(low, w).value, EvalAll(high, w).value, vs);
    }
  }

  lemma Halves<V>(a: seq<V>, b: seq<V>, c: seq<V>)
    requires c == a + b
    ensures c[..|a|] == a && c[|a|..] == b
  {
  }

  /** An error below stays the first error. */
  lemma {:induction false} ErrorsStay<V>(stack: seq<Tree>, items: seq<Item>, arity: Arity, w: World<V>)
    requires EvalAll(stack, w).Raise?
    ensures var r := Feed(stack, items, arity);
            r.Ok? ==> EvalAll(r.value, w) == EvalAll(stack, w)
    decreases |items|
  {
    hide EvalAll, Applied;
    if items != [] {
      PushFolds(stack, items[0], arity);
      var k := Height(|stack|, items[0], arity);
      if k.Some? {
        FoldedEval(stack, k.value, items[0], w);
        ErrorsStay(Folded(stack, k.value, items[0]), items[1..], arity, w);
      }
    }
  }

  /** Whatever is fed, on whatever stack: evaluating the trees is running the items on the stack's values,
      first error included. */
  lemma {:induction false} FedEvaluatesAsRun<V>(stack: seq<Tree>, items: seq<Item>, arity: Arity, w: World<V>)
    requires Feed(stack, items, arity).Ok? && EvalAll(stack, w).Ok?
    ensures EvalAll(Feed(stack, items, arity).value, w) == Run(EvalAll(stack, w).value, items, arity, w)
    decreases |items|
  {
    hide EvalAll, Applied;
    if items != [] {
      var item, vs := items[0], EvalAll(stack, w).value;
      PushFolds(stack, item, arity);
      var k := Height(|stack|, item, arity);
      var next := Folded(stack, k.value, item);
      FoldedEval(stack, k.value, item, w);
      match Applied(item, vs[k.value..], w)
      case Raise(_) => ErrorsStay(next, items[1..], arity, w);
      case Ok(_) => FedEvaluatesAsRun(next, items[1..], arity, w);
    }
  }

  /** `eval` of a loaded tree is a run of the listing it was loaded from. */
  lemma LoadedEvaluatesAsRun<V>(items: seq<Item>, arity: Arity, w: World<V>)
    requires Load(items, arity).Ok?
    ensures Run([], items, arity, w) == match Eval(Load(items, arity).value, w)
                                        case Raise(e) => Raise(e)
                                        case Ok(v) => Ok([v])
  {
    hide Eval, Feed, Run;
    assert EvalAll<V>([], w) == Ok([]);
    FedEvaluatesAsRun([], items, arity, w);
    var t := Load(items, arity).value;
    assert Feed([], items, arity).value == [] + [t];
    EvalSnoc([], t, w);
    var v := Eval(t, w);
    assert v.Ok? ==> [] + [v.value] == [v.value];
  }

  // ----- references -----

  /** The columns a tree refers to, from left to right. */
  function References(t: Tree): seq<string>
  {
    ReferencesAll(t.args) + Referred(t.item)
  }

  function ReferencesAll(ts: seq<Tree>): seq<string>
  {
    if ts == [] then [] else ReferencesAll(ts[..|ts| - 1]) + References(ts[|ts| - 1])
  }

  function Referred(item: Item): seq<string>
  {
    if item.Leaf? && item.reference.Some? then [item.reference.value] else []
  }

  /** The `references` the loader collects from the listing. */
  function Collected(items: seq<Item>): seq<string>
  {
    if items == [] then [] else Collected(items[..|items| - 1]) + Referred(items[|items| - 1])
  }

  lemma CollectedSnoc(items: seq<Item>, item: Item)
    ensures Collected(items + [item]) == Collected(items) + Referred(item)
  {
    assert (items + [item])[..|items|] == items;
  }

  lemma {:induction false} CollectedJoin(a: seq<Item>, b: seq<Item>)
    ensures Collected(a + b) == Collected(a) + Collected(b)
    decreases |b|
  {
    if b == [] {
      assert a + b == a;
    } else {
      var front, last := b[..|b| - 1], b[|b| - 1];
      assert a + b == (a + front) + [last];
      CollectedJoin(a, front);
      CollectedSnoc(a + front, last);
    }
  }

  lemma {:induction false} CollectedFromListing(t: Tree)
    ensures Collected(Listing(t)) == References(t)
    decreases t
  {
    CollectedFromAll(t.args);
    CollectedSnoc(ListingAll(t.args), t.item);
  }

  lemma {:induction false} CollectedFromAll(ts: seq<Tree>)
    ensures Collected(ListingAll(ts)) == ReferencesAll(ts)
    decreases ts
  {
    if ts != [] {
      CollectedFromAll(ts[..|ts| - 1]);
      CollectedFromListing(ts[|ts| - 1]);
      CollectedJoin(ListingAll(ts[..|ts| - 1]), Listing(ts[|ts| - 1]));
    }
  }

  /** The loader's `references` are the loaded tree's own, in order. */
  lemma LoadedReferences(items: seq<Item>, arity: Arity)
    requires Load(items, arity).Ok?
    ensures Collected(items) == References(Load(items, arity).value)
  {
    LoadedLists(items, arity);
    CollectedFromListing(Load(items, arity).value);
  }

  // ----- leaves -----

  /** A constant is checked, except that zero, false and the empty text count as no constant. */
  lemma ConstantLeaf<V>(c: Constant, reference: Option<string>, w: World<V>)
    ensures Eval(Tree(Leaf(Some(c), reference), []), w)
         == if c in {Whole(0), Truth(false), Words("")} then Eval(Tree(Leaf(None, reference), []), w) else w.check(c)
  {
  }

  /** Without a constant the column is read; with neither there is nothing to evaluate. */
  lemma ReferenceLeaf<V>(name: string, w: World<V>)
    ensures Eval(Tree(Leaf(None, Some(name)), []), w) == w.column(name)
    ensures Eval(Tree(Leaf(None, None), []), w) == Raise(NotImplementedError)
  {
  }

  /** An unknown function is a `ValueError`. */
  lemma UnknownFunction<V>(vs: seq<V>, name: string, rest: seq<Item>, arity: Arity, w: World<V>)
    requires arity(name) == None
    ensures Run(vs, [Call(name)] + rest, arity, w) == Raise(ValueError)
  {
  }
}
