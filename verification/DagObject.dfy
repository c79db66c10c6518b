/** The mutable `DAG` object of odps/dag.py, each method tied to the graph operation it performs. */
module DagObject {
  import opened Text
  import opened Graphs
  import opened Dags
  import opened DagRuns
  import opened DagSearch
  import opened DagPaths

  class Dag {
    var graph: Graph
    var reversed: Option<Graph>

    ghost function Now(): State
      reads this
    {
      State(graph, reversed)
    }

    constructor (reverse: bool)
      ensures Now() == State(EMPTY, if reverse then Some(EMPTY) else None)
      ensures Valid(Now()) && !Cyclic(graph)
    {
      graph := map[];
      reversed := if reverse then Some(map[]) else None;
      new;
      EmptyIsAcyclic(reverse);
    }

    method AddNode(n: Node)
      requires Valid(Now())
      modifies this
      ensures Now() == Apply(old(Now()), Op.AddNode(n)).0
      ensures n !in old(graph) ==> Valid(Now())
      ensures graph.Keys == old(graph).Keys + {n} && (reversed.Some? <==> old(reversed).Some?)
      ensures forall u, v :: Edge(graph, u, v) <==> Edge(old(graph), u, v) && u != n
      ensures reversed.Some? ==>
                forall u, v :: Edge(reversed.value, u, v) <==> Edge(old(reversed).value, u, v) && u != n
    {
      if n !in graph {
        AppliedIsValid(Now(), Op.AddNode(n));
      }
      graph := graph[n := {}];
      if reversed.Some? {
        reversed := Some(reversed.value[n := {}]);
      }
    }

    method RemoveNode(n: Node) returns (r: Outcome<()>)
      requires Valid(Now())
      modifies this
      ensures (Now(), r) == Apply(old(Now()), Op.RemoveNode(n)) && Valid(Now())
      ensures r == if n in old(graph) then Ok(()) else Raise(KeyError)
      ensures r.Raise? ==> graph == old(graph) && reversed == old(reversed)
      ensures graph.Keys == old(graph).Keys - {n} && (reversed.Some? <==> old(reversed).Some?)
      ensures forall u, v :: Edge(graph, u, v) <==> Edge(old(graph), u, v) && u != n && v != n
    {
      NodeRemoved(graph, n);
      AppliedIsValid(Now(), Op.RemoveNode(n));
      if n !in graph {
        return Raise(KeyError);
      }
      graph := RemoveFromAll(graph - {n}, n);
      if reversed.Some? {
        var r1 := RemoveFromAll(reversed.value - {n}, n);
        reversed := Some(r1);
        assert r1 == DropNode(old(reversed).value, n);
      }
      assert graph == DropNode(old(graph), n);
      return Ok(());
    }

    /** The loop that takes a removed node out of every remaining edge set. */
    static method RemoveFromAll(g: Graph, n: Node) returns (h: Graph)
      ensures h == map u | u in g :: g[u] - {n}
    {
      h := g;
      var todo := g.Keys;
      while todo != {}
        invariant todo <= g.Keys && h.Keys == g.Keys
        invariant forall u | u in g :: h[u] == if u in todo then g[u] else g[u] - {n}
      {
        var u :| u in todo;
        todo := todo - {u};
        if n in h[u] {
          h := h[u := h[u] - {n}];
        }
      }
    }

    method ContainsEdge(u: Node, v: Node) returns (b: bool)
      ensures b <==> u in graph && v in graph && v in graph[u]
    {
      if u !in graph || v !in graph {
        return false;
      }
      return v in graph[u];
    }

    /** `_validate`: refuses a graph without independent nodes or without a topological order. */
    static method Validate(g: Graph, r: Option<Graph>) returns (valid: bool)
      requires Closed(g) && MirrorOf(g, r)
      ensures valid <==> g.Keys != {} && !Cyclic(g)
    {
      var indep := IndepIds(g, r);
      if |indep| == 0 {
        if g.Keys != {} {
          NoSourceIsCyclic(g);
        }
        return false;
      }
      assert indep[0] in indep;
      var sorted := SortGraph(g, r);
      return sorted.Ok?;
    }

    method AddEdge(u: Node, v: Node, validate: bool) returns (r: Outcome<()>)
      requires Valid(Now())
      modifies this
      ensures (Now(), r) == Apply(old(Now()), Op.AddEdge(u, v, validate)) && Valid(Now())
      ensures validate && !Cyclic(old(graph)) && u in old(graph) && v in old(graph) ==>
                (r == Raise(DAGValidationError) <==> Reaches(old(graph), v, u))
      ensures r == Raise(KeyError) <==> u !in old(graph) || v !in old(graph)
      ensures r.Raise? ==> graph == old(graph) && reversed == old(reversed)
      ensures graph.Keys == old(graph).Keys && (reversed.Some? <==> old(reversed).Some?)
      ensures r.Ok? ==> forall a, b :: Edge(graph, a, b) <==> Edge(old(graph), a, b) || (a == u && b == v)
    {
      AppliedIsValid(Now(), Op.AddEdge(u, v, validate));
      if u !in graph || v !in graph {
        return Raise(KeyError);
      }
      if !Cyclic(graph) {
        EdgeRefusedIff(graph, u, v);
      }
      var valid := true;
      if validate {
        var testGraph := WithEdge(graph, u, v);
        var testReversed := if reversed.Some? then Some(WithEdge(reversed.value, v, u)) else None;
        MirrorWithEdge(graph, reversed, u, v);
        assert u in testGraph;
        valid := Validate(testGraph, testReversed);
      }
      if !valid {
        return Raise(DAGValidationError);
      }
      graph := WithEdge(graph, u, v);
      if reversed.Some? {
        reversed := Some(WithEdge(reversed.value, v, u));
      }
      return Ok(());
    }

    method RemoveEdge(u: Node, v: Node) returns (r: Outcome<()>)
      requires Valid(Now())
      modifies this
      ensures (Now(), r) == Apply(old(Now()), Op.RemoveEdge(u, v)) && Valid(Now())
      ensures r == if Edge(old(graph), u, v) then Ok(()) else Raise(KeyError)
      ensures r.Raise? ==> graph == old(graph) && reversed == old(reversed)
      ensures graph.Keys == old(graph).Keys && (reversed.Some? <==> old(reversed).Some?)
      ensures forall a, b :: Edge(graph, a, b) <==> Edge(old(graph), a, b) && !(a == u && b == v)
    {
      AppliedIsValid(Now(), Op.RemoveEdge(u, v));
      if u !in graph || v !in graph[u] {
        return Raise(KeyError);
      }
      graph := Without(graph, u, v);
      if reversed.Some? {
        reversed := Some(Without(reversed.value, v, u));
      }
      return Ok(());
    }

    method TopologicalSort() returns (r: Outcome<seq<Node>>)
      requires Valid(Now())
      ensures r.Ok? ==> IsTopologicalOrder(graph, r.value)
      ensures r.Raise? <==> Cyclic(graph)
      ensures r.Raise? ==> r.error == ValueError
    {
      r := SortGraph(graph, reversed);
    }

    method Predecessors(n: Node) returns (r: Outcome<set<Node>>)
      requires Valid(Now())
      ensures r == if n in graph then Ok(Preds(graph, n)) else Raise(KeyError)
    {
      if n !in graph {
        return Raise(KeyError);
      }
      return Ok(PredecessorIds(n, graph, reversed));
    }

    method Descendants(starts: seq<Node>, cond: Node -> bool) returns (r: Outcome<seq<Node>>)
      requires Valid(Now())
      ensures r.Raise? <==> exists n :: n in starts && cond(n) && n !in graph
      ensures r.Ok? ==> ListsReachable(graph, true, cond, starts, r.value)
    {
      r := Bfs(graph, reversed, starts, true, cond);
      if r.Ok? {
        ListedIsReachable(graph, true, cond, starts, r.value);
      }
    }

    method Ancestors(starts: seq<Node>, cond: Node -> bool) returns (r: Outcome<seq<Node>>)
      requires Valid(Now())
      ensures r.Raise? <==> exists n :: n in starts && cond(n) && n !in graph
      ensures r.Ok? ==> ListsReachable(graph, false, cond, starts, r.value)
    {
      r := Bfs(graph, reversed, starts, false, cond);
      if r.Ok? {
        ListedIsReachable(graph, false, cond, starts, r.value);
      }
    }
  }

  predicate IsSource(g: Graph, n: Node)
  {
    Preds(g, n) == {}
  }

  lemma NoSourceIsCyclic(g: Graph)
    requires g.Keys != {} && forall n | n in g :: !IsSource(g, n)
    ensures Cyclic(g)
  {
    hide IsSource, FedFrom, Cyclic;
    forall v | v in g.Keys ensures FedFrom(g, g.Keys, v) {
      PredFeeds(g, v);
    }
    StuckIsCyclic(g, g.Keys);
  }

  lemma PredFeeds(g: Graph, v: Node)
    requires !IsSource(g, v)
    ensures FedFrom(g, g.Keys, v)
  {
    var u :| u in Preds(g, v);
    assert Edge(g, u, v);
  }

  lemma MirrorWithEdge(g: Graph, r: Option<Graph>, u: Node, v: Node)
    requires Closed(g) && MirrorOf(g, r) && u in g && v in g
    ensures Closed(WithEdge(g, u, v))
    ensures MirrorOf(WithEdge(g, u, v), if r.Some? then Some(WithEdge(r.value, v, u)) else None)
  {
    if r.Some? {
      AppliedIsMirrored(g, r.value, Op.AddEdge(u, v, false));
    }
  }
}
