/** Expression trees from postfix listings: `VisitedExpressions.parse` of odps/expressions/core.py
    as a stack machine on trees. */
module Postfix {
  import opened Text

  /** A listed expression: a constant or a column reference, or a function call. */
  datatype Item =
    | Leaf(constant: Option<Constant>, reference: Option<string>)
    | Call(name: string)

  datatype Constant = Whole(n: int) | Truth(b: bool) | Words(s: string)

  datatype Tree = Tree(item: Item, args: seq<Tree>)

  /** `arg_count` of the function a name stands for, when the name is known. */
  type Arity = string -> Option<nat>

  // ----- the stack machine -----

  /** The height left by `stack[:-n]`: all of the stack is cut for `n == 0`, and for too large an `n`. */
  function Kept(height: nat, n: nat): (k: nat)
    ensures k <= height
  {
    if n == 0 || n > height then 0 else height - n
  }

  function Push(stack: seq<Tree>, item: Item, arity: Arity): Outcome<seq<Tree>>
  {
    match item
    case Leaf(_, _) => Ok(stack + [Tree(item, [])])
    case Call(name) =>
      match arity(name)
      case None => Raise(ValueError)
      case Some(n) =>
        var k := Kept(|stack|, n);
        Ok(stack[..k] + [Tree(item, stack[k..])])
  }

  function Feed(stack: seq<Tree>, items: seq<Item>, arity: Arity): Outcome<seq<Tree>>
    decreases |items|
  {
    if items == [] then Ok(stack)
    else
      match Push(stack, items[0], arity)
      case Raise(e) => Raise(e)
      case Ok(next) => Feed(next, items[1..], arity)
  }

  function Load(items: seq<Item>, arity: Arity): Outcome<Tree>
  {
    match Feed([], items, arity)
    case Raise(e) => Raise(e)
    case Ok(stack) => if |stack| == 1 then Ok(stack[0]) else Raise(AssertionError)
  }

  // ----- listings -----

  /** The post-order listing. */
  function Listing(t: Tree): seq<Item>
  {
    ListingAll(t.args) + [t.item]
  }

  function ListingAll(ts: seq<Tree>): seq<Item>
  {
    if ts == [] then [] else ListingAll(ts[..|ts| - 1]) + Listing(ts[|ts| - 1])
  }

  lemma ListingSnoc(ts: seq<Tree>, t: Tree)
    ensures ListingAll(ts + [t]) == ListingAll(ts) + Listing(t)
  {
    assert (ts + [t])[..|ts|] == ts;
  }

  lemma {:induction false} ListingJoin(a: seq<Tree>, b: seq<Tree>)
    ensures ListingAll(a + b) == ListingAll(a) + ListingAll(b)
    decreases |b|
  {
    hide Listing;
    if b == [] {
      assert a + b == a;
    } else {
      var front, last := b[..|b| - 1], b[|b| - 1];
      assert a + b == (a + front) + [last];
      ListingJoin(a, front);
      ListingSnoc(a + front, last);
      Regroup(ListingAll(a), ListingAll(front), Listing(last));
    }
  }

  lemma FeedJoin(stack: seq<Tree>, a: seq<Item>, b: seq<Item>, arity: Arity)
    ensures Feed(stack, a + b, arity) == match Feed(stack, a, arity)
                                         case Raise(e) => Raise(e)
                                         case Ok(next) => Feed(next, b, arity)
    decreases |a|
  {
    if a == [] {
      assert a + b == b;
    } else {
      assert (a + b)[0] == a[0] && (a + b)[1..] == a[1..] + b;
      match Push(stack, a[0], arity)
      case Raise(_) =>
      case Ok(next) => FeedJoin(next, a[1..], b, arity);
    }
  }

  // ----- nothing is lost -----

  /** The trees above height `k` become the arguments of one call. */
  function Folded(stack: seq<Tree>, k: nat, item: Item): seq<Tree>
    requires k <= |stack|
  {
    stack[..k] + [Tree(item, stack[k..])]
  }

  lemma FoldedListing(stack: seq<Tree>, k: nat, item: Item)
    requires k <= |stack|
    ensures ListingAll(Folded(stack, k, item)) == ListingAll(stack) + [item]
  {
    hide ListingAll;
    ListingSnoc(stack[..k], Tree(item, stack[k..]));
    assert stack == stack[..k] + stack[k..];
    ListingJoin(stack[..k], stack[k..]);
    Regroup(ListingAll(stack[..k]), ListingAll(stack[k..]), [item]);
  }

  lemma PushKeepsListing(stack: seq<Tree>, item: Item, arity: Arity)
    ensures var next := Push(stack, item, arity);
            next.Ok? ==> ListingAll(next.value) == ListingAll(stack) + [item]
  {
    hide ListingAll, Kept;
    match item
    case Leaf(_, _) =>
      assert stack[..|stack|] == stack && stack[|stack|..] == [];
      FoldedListing(stack, |stack|, item);
    case Call(name) =>
      match arity(name)
      case None =>
      case Some(n) => FoldedListing(stack, Kept(|stack|, n), item);
  }

  lemma {:induction false} FeedKeepsListing(stack: seq<Tree>, items: seq<Item>, arity: Arity)
    ensures var r := Feed(stack, items, arity);
            r.Ok? ==> ListingAll(r.value) == ListingAll(stack) + items
    decreases |items|
  {
    if items == [] {
      assert ListingAll(stack) + items == ListingAll(stack);
    } else {
      var next := Push(stack, items[0], arity);
      if next.Ok? {
        PushKeepsListing(stack, items[0], arity);
        FeedKeepsListing(next.value, items[1..], arity);
        assert items == [items[0]] + items[1..];
        Regroup(ListingAll(stack), [items[0]], items[1..]);
      }
    }
  }

  /** Whatever listing loads, the loaded tree lists back to it. */
  lemma LoadedLists(items: seq<Item>, arity: Arity)
    ensures var r := Load(items, arity);
            r.Ok? ==> Listing(r.value) == items
  {
    FeedKeepsListing([], items, arity);
    var stack := Feed([], items, arity);
    if stack.Ok? && |stack.value| == 1 {
      var t := stack.value[0];
      assert stack.value == [] + [t];
      ListingSnoc([], t);
      assert [] + items == items && [] + Listing(t) == Listing(t);
    }
  }

  // ----- which trees are rebuilt -----

  predicate RightArity(t: Tree, arity: Arity)
  {
    match t.item
    case Leaf(_, _) => t.args == []
    case Call(name) => arity(name) == Some(|t.args|)
  }

  /** Every call in the tree has as many arguments as its function takes. */
  predicate Exact(t: Tree, arity: Arity)
  {
    RightArity(t, arity) && forall a | a in t.args :: Exact(a, arity)
  }

  /** A call without arguments is only ever listed when nothing is on the stack. */
  predicate Grounded(t: Tree, height: nat)
  {
    && (t.item.Call? && t.args == [] ==> height == 0)
    && forall i | 0 <= i < |t.args| :: Grounded(t.args[i], height + i)
  }

  predicate GroundedAll(ts: seq<Tree>, height: nat)
  {
    forall i | 0 <= i < |ts| :: Grounded(ts[i], height + i)
  }

  /** How many nodes have another number of arguments than their function takes. */
  function Defects(t: Tree, arity: Arity): nat
  {
    DefectsAll(t.args, arity) + if RightArity(t, arity) then 0 else 1
  }

  function DefectsAll(ts: seq<Tree>, arity: Arity): nat
  {
    if ts == [] then 0 else DefectsAll(ts[..|ts| - 1], arity) + Defects(ts[|ts| - 1], arity)
  }

  lemma DefectsSnoc(ts: seq<Tree>, t: Tree, arity: Arity)
    ensures DefectsAll(ts + [t], arity) == DefectsAll(ts, arity) + Defects(t, arity)
  {
    assert (ts + [t])[..|ts|] == ts;
  }

  lemma {:induction false} DefectsJoin(a: seq<Tree>, b: seq<Tree>, arity: Arity)
    ensures DefectsAll(a + b, arity) == DefectsAll(a, arity) + DefectsAll(b, arity)
    decreases |b|
  {
    if b == [] {
      assert a + b == a;
    } else {
      var front, last := b[..|b| - 1], b[|b| - 1];
      assert a + b == (a + front) + [last];
      DefectsJoin(a, front, arity);
      DefectsSnoc(a + front, last, arity);
    }
  }

  lemma {:induction false} ExactHasNoDefects(t: Tree, arity: Arity)
    requires Exact(t, arity)
    ensures Defects(t, arity) == 0
    decreases t
  {
    ExactAllHaveNoDefects(t.args, arity);
  }

  lemma {:induction false} ExactAllHaveNoDefects(ts: seq<Tree>, arity: Arity)
    requires forall t | t in ts :: Exact(t, arity)
    ensures DefectsAll(ts, arity) == 0
    decreases ts
  {
    if ts != [] {
      ExactAllHaveNoDefects(ts[..|ts| - 1], arity);
      ExactHasNoDefects(ts[|ts| - 1], arity);
    }
  }

  lemma FoldedDefects(stack: seq<Tree>, k: nat, item: Item, arity: Arity)
    requires k <= |stack|
    ensures DefectsAll(Folded(stack, k, item), arity) >= DefectsAll(stack, arity)
  {
    hide DefectsAll, RightArity;
    assert stack == stack[..k] + stack[k..];
    DefectsJoin(stack[..k], stack[k..], arity);
    DefectsSnoc(stack[..k], Tree(item, stack[k..]), arity);
  }

  /** Once a call has the wrong arguments, it keeps them. */
  lemma PushKeepsDefects(stack: seq<Tree>, item: Item, arity: Arity)
    ensures var next := Push(stack, item, arity);
            next.Ok? ==> DefectsAll(next.value, arity) >= DefectsAll(stack, arity)
  {
    hide DefectsAll, Kept;
    match item
    case Leaf(_, _) =>
      assert stack[..|stack|] == stack && stack[|stack|..] == [];
      FoldedDefects(stack, |stack|, item, arity);
    case Call(name) =>
      match arity(name)
      case None =>
      case Some(n) => FoldedDefects(stack, Kept(|stack|, n), item, arity);
  }

  lemma {:induction false} FeedKeepsDefects(stack: seq<Tree>, items: seq<Item>, arity: Arity)
    ensures var r := Feed(stack, items, arity);
            r.Ok? ==> DefectsAll(r.value, arity) >= DefectsAll(stack, arity)
    decreases |items|
  {
    if items != [] {
      var next := Push(stack, items[0], arity);
      if next.Ok? {
        PushKeepsDefects(stack, items[0], arity);
        FeedKeepsDefects(next.value, items[1..], arity);
      }
    }
  }

  /** The whole stack goes into a call without arguments. */
  lemma PushCallWithoutArguments(stack: seq<Tree>, t: Tree, arity: Arity)
    requires t.item.Call? && t.args == [] && RightArity(t, arity) && stack != []
    ensures var next := Push(stack, t.item, arity);
            next.Ok? && DefectsAll(next.value, arity) > DefectsAll(stack, arity)
  {
    var bad := Tree(t.item, stack);
    assert Push(stack, t.item, arity) == Ok([bad]) by {
      assert stack[..0] + [Tree(t.item, stack[0..])] == [bad];
    }
    DefectsSnoc([], bad, arity);
    assert [] + [bad] == [bad];
  }

  lemma PushRebuilds(stack: seq<Tree>, t: Tree, arity: Arity)
    requires RightArity(t, arity) && (t.item.Call? && t.args == [] ==> stack == [])
    ensures Push(stack + t.args, t.item, arity) == Ok(stack + [t])
  {
    if t.item.Leaf? {
      assert stack + t.args == stack;
    } else {
      var all := stack + t.args;
      assert Kept(|all|, |t.args|) == |stack|;
      assert all[..|stack|] == stack && all[|stack|..] == t.args;
    }
  }

  lemma {:induction false} GroundedRebuilds(stack: seq<Tree>, t: Tree, arity: Arity)
    requires Exact(t, arity) && Grounded(t, |stack|)
    ensures Feed(stack, Listing(t), arity) == Ok(stack + [t])
    decreases t
  {
    GroundedAllRebuild(stack, t.args, arity);
    FeedJoin(stack, ListingAll(t.args), [t.item], arity);
    PushRebuilds(stack, t, arity);
    FeedOne(stack + t.args, t.item, arity);
  }

  lemma FeedOne(stack: seq<Tree>, item: Item, arity: Arity)
    ensures Feed(stack, [item], arity) == Push(stack, item, arity)
  {
    assert [item][1..] == [];
  }

  lemma {:induction false} GroundedAllRebuild(stack: seq<Tree>, ts: seq<Tree>, arity: Arity)
    requires (forall t | t in ts :: Exact(t, arity)) && GroundedAll(ts, |stack|)
    ensures Feed(stack, ListingAll(ts), arity) == Ok(stack + ts)
    decreases ts
  {
    if ts == [] {
      assert stack + ts == stack;
    } else {
      var front, last := ts[..|ts| - 1], ts[|ts| - 1];
      assert GroundedAll(front, |stack|) by {
        forall i | 0 <= i < |front| ensures Grounded(front[i], |stack| + i) {
          assert front[i] == ts[i];
        }
      }
      GroundedAllRebuild(stack, front, arity);
      FeedJoin(stack, ListingAll(front), Listing(last), arity);
      GroundedRebuilds(stack + front, last, arity);
      assert stack + ts == (stack + front) + [last];
    }
  }

  /** A call without arguments above other trees takes them in, and the tree is not rebuilt. */
  lemma {:induction false} UngroundedSpoils(stack: seq<Tree>, t: Tree, arity: Arity)
    requires Exact(t, arity) && !Grounded(t, |stack|)
    ensures var r := Feed(stack, Listing(t), arity);
            r.Ok? ==> DefectsAll(r.value, arity) > DefectsAll(stack, arity)
    decreases t
  {
    FeedJoin(stack, ListingAll(t.args), [t.item], arity);
    if GroundedAll(t.args, |stack|) {
      assert t.item.Call? && t.args == [] && |stack| != 0;
      assert ListingAll(t.args) + [t.item] == [t.item];
      PushCallWithoutArguments(stack, t, arity);
      FeedOne(stack, t.item, arity);
    } else {
      UngroundedAllSpoil(stack, t.args, arity);
      var mid := Feed(stack, ListingAll(t.args), arity);
      if mid.Ok? {
        FeedKeepsDefects(mid.value, [t.item], arity);
      }
    }
  }

  lemma GroundedSnoc(ts: seq<Tree>, height: nat)
    requires ts != [] && GroundedAll(ts[..|ts| - 1], height)
    ensures GroundedAll(ts, height) <==> Grounded(ts[|ts| - 1], height + |ts| - 1)
  {
    hide Grounded;
    forall i | 0 <= i < |ts| - 1 ensures Grounded(ts[i], height + i) {
      assert ts[..|ts| - 1][i] == ts[i];
    }
  }

  lemma {:induction false} UngroundedAllSpoil(stack: seq<Tree>, ts: seq<Tree>, arity: Arity)
    requires (forall t | t in ts :: Exact(t, arity)) && !GroundedAll(ts, |stack|)
    ensures var r := Feed(stack, ListingAll(ts), arity);
            r.Ok? ==> DefectsAll(r.value, arity) > DefectsAll(stack, arity)
    decreases ts
  {
    var front, last := ts[..|ts| - 1], ts[|ts| - 1];
    FeedJoin(stack, ListingAll(front), Listing(last), arity);
    if GroundedAll(front, |stack|) {
      GroundedAllRebuild(stack, front, arity);
      GroundedSnoc(ts, |stack|);
      UngroundedSpoils(stack + front, last, arity);
      DefectsJoin(stack, front, arity);
    } else {
      UngroundedAllSpoil(stack, front, arity);
      var mid := Feed(stack, ListingAll(front), arity);
      if mid.Ok? {
        FeedKeepsDefects(mid.value, Listing(last), arity);
      }
    }
  }

  /** On any stack, the listing of a tree with the right arities puts that tree on top, and changes
      nothing below, exactly when no call without arguments is listed above another tree. */
  lemma RebuildsIff(stack: seq<Tree>, t: Tree, arity: Arity)
    requires Exact(t, arity)
    ensures Feed(stack, Listing(t), arity) == Ok(stack + [t]) <==> Grounded(t, |stack|)
  {
    if Grounded(t, |stack|) {
      GroundedRebuilds(stack, t, arity);
    } else {
      UngroundedSpoils(stack, t, arity);
      DefectsSnoc(stack, t, arity);
      ExactHasNoDefects(t, arity);
    }
  }

  /** Every call in the tree has an argument. */
  predicate NoEmptyCall(t: Tree)
    decreases t
  {
    (t.item.Call? ==> t.args != []) && forall a | a in t.args :: NoEmptyCall(a)
  }

  /** A tree whose calls all have arguments is rebuilt at any height. */
  lemma {:induction false} CallsWithArgumentsAreGrounded(t: Tree, height: nat)
    requires NoEmptyCall(t)
    ensures Grounded(t, height)
    decreases t
  {
    forall i | 0 <= i < |t.args| ensures Grounded(t.args[i], height + i) {
      CallsWithArgumentsAreGrounded(t.args[i], height + i);
    }
  }

  /** `Load` gives a tree back from its listing exactly when it is grounded on the empty stack. */
  lemma LoadInvertsListingIff(t: Tree, arity: Arity)
    requires Exact(t, arity)
    ensures Load(Listing(t), arity) == Ok(t) <==> Grounded(t, 0)
  {
    RebuildsIff([], t, arity);
    assert [] + [t] == [t];
    var r := Feed([], Listing(t), arity);
    if r.Ok? && |r.value| == 1 {
      assert r.value == [r.value[0]];
    }
  }

  // ----- listings that cannot be loaded -----

  predicate Known(item: Item, arity: Arity)
  {
    item.Call? ==> arity(item.name).Some?
  }

  /** Only an unknown function stops the loading. */
  lemma {:induction false} FeedFailsIff(stack: seq<Tree>, items: seq<Item>, arity: Arity)
    ensures Feed(stack, items, arity).Raise? <==> exists item :: item in items && !Known(item, arity)
    ensures Feed(stack, items, arity).Raise? ==> Feed(stack, items, arity).error == ValueError
    decreases |items|
  {
    if items != [] {
      var next := Push(stack, items[0], arity);
      assert items == [items[0]] + items[1..];
      if next.Ok? {
        FeedFailsIff(next.value, items[1..], arity);
        assert Known(items[0], arity);
      } else {
        assert items[0] in items && !Known(items[0], arity);
      }
    }
  }

  /** A listing of known items that does not end in one tree is an `AssertionError`. */
  lemma LoadFailsIff(items: seq<Item>, arity: Arity)
    ensures Load(items, arity) == Raise(ValueError) <==> exists item :: item in items && !Known(item, arity)
    ensures Load(items, arity).Raise? ==> Load(items, arity).error in {ValueError, AssertionError}
    ensures Load(items, arity).Ok? ==> Feed([], items, arity) == Ok([Load(items, arity).value])
  {
    hide Feed, Known;
    FeedFailsIff([], items, arity);
    var r := Feed([], items, arity);
    if r.Ok? && |r.value| == 1 {
      assert r.value == [r.value[0]];
    }
  }
}
