/** The `DAG` class of odps/dag.py: adjacency sets with an optional reverse index,
    Kahn's topological sort, edges that are tried before they are added, and filtered
    breadth-first search. */
module Dags {
  import opened Text
  import opened Graphs

  // ----- topological sort -----

  predicate MirrorOf(g: Graph, r: Option<Graph>)
  {
    r.Some? ==> Transposed(g, r.value)
  }

  /** `_predecessor_ids`: looked up in the reverse index when there is one, searched otherwise. */
  function PredecessorIds(v: Node, g: Graph, r: Option<Graph>): (p: set<Node>)
    requires v in g && MirrorOf(g, r)
    ensures p == Preds(g, v)
  {
    if r.Some? then r.value[v] else set u | u in g && v in g[u]
  }

  function Without(g: Graph, u: Node, v: Node): Graph
    requires u in g
  {
    g[u := g[u] - {v}]
  }

  /** The nodes without a predecessor in g, each once. */
  ghost predicate Sources(g0: Graph, g: Graph, nodes: seq<Node>)
  {
    && Distinct(nodes)
    && (forall n | n in nodes :: n in g0)
    && (forall v | v in g0 :: v in nodes <==> Preds(g, v) == {})
  }

  /** Kahn's state between two nodes: the edges of finished nodes are gone, and the
      finished and queued nodes are those without a remaining predecessor. */
  ghost predicate KahnState(g0: Graph, g: Graph, done: seq<Node>, queue: seq<Node>)
  {
    && Sources(g0, g, done + queue)
    && g.Keys == g0.Keys
    && (forall u | u in g :: g[u] == if u in done then {} else g0[u])
    && Settled(g0, done)
  }

  /** Every predecessor of a finished node was finished before it. */
  ghost predicate Settled(g: Graph, done: seq<Node>)
  {
    forall i, u | 0 <= i < |done| && Edge(g, u, done[i]) :: u in done[..i]
  }

  /** Kahn's state while the edges `todo` of the newest finished node n remain. */
  ghost predicate KahnInside(g0: Graph, g: Graph, done: seq<Node>, queue: seq<Node>, n: Node, todo: set<Node>)
  {
    && Sources(g0, g, done + queue)
    && n in done && n in g0 && todo <= g0[n]
    && g.Keys == g0.Keys
    && (forall u | u in g :: g[u] == if u == n then todo else if u in done then {} else g0[u])
    && Settled(g0, done)
  }

  lemma DistinctPrefix(a: seq<Node>, b: seq<Node>)
    requires Distinct(a + b)
    ensures Distinct(a)
  {
    assert a == (a + b)[..|a|];
  }

  lemma FirstState(g: Graph, queue: seq<Node>)
    requires Distinct(queue) && forall n :: n in queue <==> n in g && Preds(g, n) == {}
    ensures KahnState(g, g, [], queue)
  {
    assert [] + queue == queue;
  }

  lemma PopKeepsState(g0: Graph, g: Graph, done: seq<Node>, queue: seq<Node>)
    requires Closed(g0) && KahnState(g0, g, done, queue) && queue != []
    ensures queue[0] in g && |done| < |g0|
    ensures KahnInside(g0, g, done + [queue[0]], queue[1..], queue[0], g[queue[0]])
  {
    var n := queue[0];
    var done1 := done + [n];
    assert done1 + queue[1..] == done + queue;
    assert n in done + queue && (done + queue)[|done|] == n;
    forall i | 0 <= i < |done| ensures done[i] != n {
      assert (done + queue)[i] == done[i];
    }
    assert |done1| <= |g0| by {
      DistinctPrefix(done1, queue[1..]);
      CountDistinct(done1, g0.Keys);
    }
    forall i, u | 0 <= i < |done1| && Edge(g0, u, done1[i]) ensures u in done1[..i] {
      assert done1[..i] == done[..i];
      if i == |done| {
        assert u !in Preds(g, n);
        assert done[..i] == done;
      }
    }
  }

  lemma EdgeKeepsState(g0: Graph, g: Graph, done: seq<Node>, queue: seq<Node>, n: Node, todo: set<Node>, d: Node)
    requires Closed(g0) && KahnInside(g0, g, done, queue, n, todo) && d in todo
    ensures n in g && d in g && d in g[n]
    ensures Closed(g)
    ensures var g1 := Without(g, n, d);
            KahnInside(g0, g1, done, if Preds(g1, d) == {} then queue + [d] else queue, n, todo - {d})
  {
    hide Preds, Settled, Sources, Closed;
    FewerEdgesStayClosed(g0, g);
    assert d in g0[n];
    EdgeKeepsListed(g0, g, done, queue, n, d);
  }

  lemma FewerEdgesStayClosed(g0: Graph, g: Graph)
    requires Closed(g0) && g.Keys == g0.Keys && forall u | u in g :: g[u] <= g0[u]
    ensures Closed(g) && forall u, v | u in g && v in g[u] :: v in g
  {
  }

  /** The nodes listed are those without a predecessor, before and after one edge is removed. */
  lemma EdgeKeepsListed(g0: Graph, g: Graph, done: seq<Node>, queue: seq<Node>, n: Node, d: Node)
    requires n in g && d in g[n] && d in g0 && Sources(g0, g, done + queue)
    ensures var g1 := Without(g, n, d);
            Sources(g0, g1, done + if Preds(g1, d) == {} then queue + [d] else queue)
  {
    hide Preds, Distinct, Without;
    PredsWithout(g, n, d);
    DistinctSnoc(done, queue, d);
  }

  lemma PredsWithout(g: Graph, n: Node, d: Node)
    requires n in g && d in g[n]
    ensures n in Preds(g, d)
    ensures forall v :: Preds(Without(g, n, d), v) == if v == d then Preds(g, v) - {n} else Preds(g, v)
  {
  }

  lemma DistinctSnoc(done: seq<Node>, queue: seq<Node>, d: Node)
    requires Distinct(done + queue) && d !in done + queue
    ensures Distinct(done + (queue + [d]))
    ensures forall v :: v in done + (queue + [d]) <==> v in done + queue || v == d
  {
    assert done + (queue + [d]) == done + queue + [d];
  }

  lemma DoneKeepsState(g0: Graph, g: Graph, done: seq<Node>, queue: seq<Node>, n: Node)
    requires KahnInside(g0, g, done, queue, n, {})
    ensures KahnState(g0, g, done, queue)
  {
  }

  lemma MirrorWithout(g: Graph, r: Graph, u: Node, v: Node)
    requires Transposed(g, r) && Closed(g) && u in g && v in g[u]
    ensures v in r && u in r[v] && Transposed(Without(g, u, v), r[v := r[v] - {u}])
  {
    var g1 := Without(g, u, v);
    assert u in Preds(g, v);
    assert Preds(g1, v) == Preds(g, v) - {u};
    forall w | w in g && w != v ensures Preds(g1, w) == Preds(g, w) {
    }
  }

  lemma {:induction false} CountDistinct(s: seq<Node>, all: set<Node>)
    requires Distinct(s) && forall n | n in s :: n in all
    ensures |s| <= |all| && (|s| == |all| ==> forall n | n in all :: n in s)
    decreases |s|
  {
    if s != [] {
      var n, rest := s[0], s[1..];
      assert n in s;
      forall m | m in rest ensures m in all - {n} {
        assert m in s;
      }
      CountDistinct(rest, all - {n});
      if |s| == |all| {
        forall m | m in all ensures m in s {
          assert m == n || m in rest;
        }
      }
    }
  }

  lemma SettledIsTopological(g: Graph, done: seq<Node>)
    requires Distinct(done) && Settled(g, done) && forall n :: n in done <==> n in g
    ensures IsTopologicalOrder(g, done)
  {
    forall i, j | 0 <= i < |done| && 0 <= j < |done| && Edge(g, done[i], done[j]) ensures i < j {
      assert done[i] in done[..j];
      var k :| 0 <= k < j && done[..j][k] == done[i];
      assert done[k] == done[i];
    }
  }

  /** The nodes Kahn's algorithm never reaches feed each other, so they hold a cycle. */
  lemma UnfinishedIsCyclic(g0: Graph, g: Graph, done: seq<Node>)
    requires KahnState(g0, g, done, []) && |done| != |g|
    ensures Cyclic(g0)
  {
    assert g.Keys == g0.Keys;
    assert done + [] == done;
    var rest := g0.Keys - set n | n in done;
    CountDistinct(done, g0.Keys);
    if rest == {} {
      forall n | n in g0 ensures n in done {
        assert n !in rest;
      }
      CountAll(done, g0.Keys);
    }
    forall v | v in rest ensures FedFrom(g0, rest, v) {
      assert v !in done + [] && Preds(g, v) != {};
      var u :| u in Preds(g, v);
      assert Edge(g0, u, v) && u in rest;
    }
    StuckIsCyclic(g0, rest);
  }

  lemma {:induction false} CountAll(s: seq<Node>, all: set<Node>)
    requires Distinct(s) && (forall n | n in s :: n in all) && forall n | n in all :: n in s
    ensures |s| == |all|
    decreases |s|
  {
    if s == [] {
      assert all == {};
    } else {
      var n, rest := s[0], s[1..];
      assert n in s;
      forall m | m in rest ensures m in all - {n} {
        assert m in s;
      }
      forall m | m in all - {n} ensures m in rest {
        assert m in s;
      }
      CountAll(rest, all - {n});
    }
  }

  /** `_indep_ids`: the nodes without predecessors, in some order. */
  method IndepIds(g: Graph, r: Option<Graph>) returns (ids: seq<Node>)
    requires MirrorOf(g, r)
    ensures Distinct(ids) && forall n :: n in ids <==> n in g && Preds(g, n) == {}
  {
    ids := [];
    var todo := g.Keys;
    while todo != {}
      invariant todo <= g.Keys && Distinct(ids)
      invariant forall n :: n in ids <==> n in g.Keys - todo && Preds(g, n) == {}
    {
      var n :| n in todo;
      todo := todo - {n};
      if PredecessorIds(n, g, r) == {} {
        ids := ids + [n];
      }
    }
  }

  lemma FinishedIsOrdered(g0: Graph, g: Graph, done: seq<Node>)
    requires Closed(g0) && KahnState(g0, g, done, []) && |done| == |g|
    ensures IsTopologicalOrder(g0, done) && !Cyclic(g0)
  {
    assert done + [] == done;
    assert g.Keys == g0.Keys;
    CountDistinct(done, g0.Keys);
    SettledIsTopological(g0, done);
    OrderedIsAcyclic(g0, done);
  }

  /** The body of `topological_sort`, on its own copies of the two maps. */
  method SortGraph(g0: Graph, r0: Option<Graph>) returns (result: Outcome<seq<Node>>)
    requires Closed(g0) && MirrorOf(g0, r0)
    ensures result.Ok? ==> IsTopologicalOrder(g0, result.value)
    ensures result.Raise? <==> Cyclic(g0)
    ensures result.Raise? ==> result.error == ValueError
  {
    hide KahnState, KahnInside, Cyclic, IsTopologicalOrder, Transposed, Preds;
    var g, r := g0, r0;
    var done: seq<Node> := [];
    var queue := IndepIds(g, r);
    FirstState(g, queue);
    while queue != []
      invariant KahnState(g0, g, done, queue) && MirrorOf(g, r)
      decreases |g0| - |done|
    {
      PopKeepsState(g0, g, done, queue);
      var n := queue[0];
      queue := queue[1..];
      done := done + [n];
      var todo := g[n];
      while todo != {}
        invariant KahnInside(g0, g, done, queue, n, todo) && MirrorOf(g, r)
      {
        var d :| d in todo;
        EdgeKeepsState(g0, g, done, queue, n, todo, d);
        if r.Some? {
          MirrorWithout(g, r.value, n, d);
        }
        g := Without(g, n, d);
        if r.Some? {
          r := Some(r.value[d := r.value[d] - {n}]);
        }
        if PredecessorIds(d, g, r) == {} {
          queue := queue + [d];
        }
        todo := todo - {d};
      }
      DoneKeepsState(g0, g, done, queue, n);
    }
    if |done| != |g| {
      UnfinishedIsCyclic(g0, g, done);
      return Raise(ValueError);
    }
    FinishedIsOrdered(g0, g, done);
    return Ok(done);
  }
}
