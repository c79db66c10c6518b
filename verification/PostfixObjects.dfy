/** `VisitedExpressions.parse` (odps/expressions/core.py) on the objects it links. */
module PostfixObjects {
  import opened Text
  import opened Postfix
  import opened PostfixEval

  class Expression {
    const item: Item
    var args: seq<Expression>
    var final: bool
    var references: Option<seq<string>>

    constructor (item: Item)
      ensures this.item == item && args == [] && !final && references == None
    {
      this.item := item;
      args, final, references := [], false, None;
    }
  }

  /** An object and what it links to look like a tree; everything linked is in `all`. */
  ghost predicate Shows(e: Expression, t: Tree, all: set<Expression>)
    reads all`args
    decreases t
  {
    && e in all
    && e.item == t.item
    && |e.args| == |t.args|
    && forall i | 0 <= i < |t.args| :: Shows(e.args[i], t.args[i], all)
  }

  ghost predicate ShowAll(es: seq<Expression>, ts: seq<Tree>, all: set<Expression>)
    reads all`args
  {
    |es| == |ts| && forall i | 0 <= i < |es| :: Shows(es[i], ts[i], all)
  }

  lemma {:induction false} ShowsInMore(e: Expression, t: Tree, few: set<Expression>, all: set<Expression>)
    requires Shows(e, t, few) && few <= all
    ensures Shows(e, t, all)
    decreases t
  {
    forall i | 0 <= i < |t.args| ensures Shows(e.args[i], t.args[i], all) {
      ShowsInMore(e.args[i], t.args[i], few, all);
    }
  }

  lemma ShowAllInMore(es: seq<Expression>, ts: seq<Tree>, few: set<Expression>, all: set<Expression>)
    requires ShowAll(es, ts, few) && few <= all
    ensures ShowAll(es, ts, all)
  {
    forall i | 0 <= i < |es| ensures Shows(es[i], ts[i], all) {
      ShowsInMore(es[i], ts[i], few, all);
    }
  }

  function Items(es: seq<Expression>): (r: seq<Item>)
    ensures |r| == |es|
  {
    seq(|es|, i requires 0 <= i < |es| => es[i].item)
  }

  function Upto(es: seq<Expression>, n: nat): set<Expression>
    requires n <= |es|
  {
    set i | 0 <= i < n :: es[i]
  }

  /** The references listed so far. */
  method CollectReferences(es: seq<Expression>) returns (names: seq<string>)
    ensures names == Collected(Items(es))
  {
    names := [];
    for i := 0 to |es|
      invariant names == Collected(Items(es)[..i])
    {
      var item := es[i].item;
      assert Items(es)[..i + 1] == Items(es)[..i] + [item];
      CollectedSnoc(Items(es)[..i], item);
      if item.Leaf? && item.reference.Some? {
        names := names + [item.reference.value];
      }
    }
    assert Items(es)[..|es|] == Items(es);
  }

  lemma FoldShows(
    stack: seq<Expression>, trees: seq<Tree>, k: nat, e: Expression, few: set<Expression>, all: set<Expression>)
    requires k <= |stack| && ShowAll(stack, trees, few) && e !in few && all == few + {e}
    requires e.args == stack[k..]
    ensures ShowAll(stack[..k] + [e], Folded(trees, k, e.item), all)
  {
    ShowAllInMore(stack, trees, few, all);
    assert Shows(e, Tree(e.item, trees[k..]), all) by {
      forall i | 0 <= i < |trees[k..]| ensures Shows(e.args[i], trees[k..][i], all) {
        assert e.args[i] == stack[k + i] && trees[k..][i] == trees[k + i];
      }
    }
  }

  /** The loop: the objects left on the stack show the trees the stack machine leaves. */
  method Link(es: seq<Expression>, arity: Arity) returns (r: Outcome<seq<Expression>>)
    requires Distinct(es) && forall e | e in es :: e.args == []
    modifies es
    ensures match Feed([], Items(es), arity)
            case Raise(e) => r == Raise(e)
            case Ok(trees) => r.Ok? && ShowAll(r.value, trees, Upto(es, |es|))
    ensures r.Ok? ==> forall e | e in es :: !e.final
    ensures forall e | e in es :: e.references == old(e.references)
  {
    hide Feed, Shows;
    var stack: seq<Expression> := [];
    ghost var trees: seq<Tree> := [];
    assert Items(es)[0..] == Items(es);
    for n := 0 to |es|
      invariant Feed([], Items(es), arity) == Feed(trees, Items(es)[n..], arity)
      invariant ShowAll(stack, trees, Upto(es, n))
      invariant forall i | n <= i < |es| :: es[i].args == []
      invariant forall i | 0 <= i < n :: !es[i].final
      invariant forall e | e in es :: e.references == old(e.references)
    {
      var e := es[n];
      e.final := false;
      PushFolds(trees, e.item, arity);
      FeedStep(trees, Items(es), n, arity);
      assert e !in Upto(es, n) && Upto(es, n + 1) == Upto(es, n) + {e};
      var k := |stack|;
      if e.item.Call? {
        var count := arity(e.item.name);
        if count == None {
          return Raise(ValueError);
        }
        k := Kept(|stack|, count.value);
        e.args := stack[k..];
      }
      FoldShows(stack, trees, k, e, Upto(es, n), Upto(es, n + 1));
      stack := stack[..k] + [e];
      trees := Folded(trees, k, e.item);
    }
    assert Items(es)[|es|..] == [];
    FeedNothing(trees, arity);
    return Ok(stack);
  }

  lemma FeedNothing(trees: seq<Tree>, arity: Arity)
    ensures Feed(trees, [], arity) == Ok(trees)
  {
  }

  lemma FeedStep(trees: seq<Tree>, items: seq<Item>, n: nat, arity: Arity)
    requires n < |items|
    ensures Feed(trees, items[n..], arity) == match Push(trees, items[n], arity)
                                              case Raise(e) => Raise(e)
                                              case Ok(next) => Feed(next, items[n + 1..], arity)
  {
    assert items[n..][1..] == items[n + 1..];
  }

  /** `VisitedExpressions.parse`: the root shows the loaded tree, is the only final expression, and lists the
      references. */
  method Parse(es: seq<Expression>, arity: Arity) returns (r: Outcome<Expression>)
    requires Distinct(es) && forall e | e in es :: e.args == []
    modifies es
    ensures match Load(Items(es), arity)
            case Raise(e) => r == Raise(e)
            case Ok(t) =>
              && r.Ok?
              && Shows(r.value, t, Upto(es, |es|))
              && r.value.references == Some(References(t))
              && forall e | e in es :: e.final <==> e == r.value
  {
    hide Feed, Shows, References, Collected;
    var linked := Link(es, arity);
    if linked.Raise? {
      return Raise(linked.error);
    }
    var stack := linked.value;
    if |stack| != 1 {
      return Raise(AssertionError);
    }
    var root := stack[0];
    assert root in es by { RootIsListed(root, Feed([], Items(es), arity).value[0], es); }
    LoadedReferences(Items(es), arity);
    root.final := true;
    var names := CollectReferences(es);
    root.references := Some(names);
    return Ok(root);
  }

  lemma RootIsListed(root: Expression, t: Tree, es: seq<Expression>)
    requires Shows(root, t, Upto(es, |es|))
    ensures root in es
  {
  }
}
