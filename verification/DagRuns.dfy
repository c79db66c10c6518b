/** What runs of DAG operations keep: no cycle, no dangling edge, and a reverse index
    that is exactly the graph turned round. */
module DagRuns {
  import opened Text
  import opened Graphs
  import opened Dags

  /** The two maps of a DAG object; `reversed` is absent unless the reverse index was asked for. */
  datatype State = State(graph: Graph, reversed: Option<Graph>)

  datatype Op =
    | AddNode(n: Node)
    | RemoveNode(n: Node)
    | AddEdge(u: Node, v: Node, validate: bool)
    | RemoveEdge(u: Node, v: Node)

  ghost predicate Valid(st: State)
  {
    Closed(st.graph) && MirrorOf(st.graph, st.reversed)
  }

  function DropNode(g: Graph, n: Node): Graph
  {
    map u | u in g && u != n :: g[u] - {n}
  }

  /** The edges and nodes an operation leaves, and what it reports. */
  ghost function ApplyToGraph(g: Graph, op: Op): (Graph, Outcome<()>)
  {
    match op
    case AddNode(n) => (g[n := {}], Ok(()))
    case RemoveNode(n) => if n !in g then (g, Raise(KeyError)) else (DropNode(g, n), Ok(()))
    case AddEdge(u, v, validate) =>
      if u !in g || v !in g then (g, Raise(KeyError))
      else if validate && Cyclic(WithEdge(g, u, v)) then (g, Raise(DAGValidationError))
      else (WithEdge(g, u, v), Ok(()))
    case RemoveEdge(u, v) =>
      if u !in g || v !in g[u] then (g, Raise(KeyError)) else (Without(g, u, v), Ok(()))
  }

  /** The same operation on the reverse index. */
  ghost function ApplyToIndex(g: Graph, r: Graph, op: Op): Graph
    requires g.Keys == r.Keys && Closed(g)
  {
    if ApplyToGraph(g, op).1.Raise? then r
    else
      match op
      case AddNode(n) => r[n := {}]
      case RemoveNode(n) => DropNode(r, n)
      case AddEdge(u, v, _) => WithEdge(r, v, u)
      case RemoveEdge(u, v) => Without(r, v, u)
  }

  ghost function Apply(st: State, op: Op): (State, Outcome<()>)
    requires Valid(st)
  {
    var (g, outcome) := ApplyToGraph(st.graph, op);
    (State(g, if st.reversed.Some? then Some(ApplyToIndex(st.graph, st.reversed.value, op)) else None), outcome)
  }

  // ----- each operation -----

  lemma AppliedIsClosed(g: Graph, op: Op)
    requires Closed(g)
    ensures Closed(ApplyToGraph(g, op).0)
  {
  }

  /** The reverse index stays the exact transpose, provided no existing node is added again. */
  lemma AppliedIsMirrored(g: Graph, r: Graph, op: Op)
    requires Closed(g) && Transposed(g, r)
    requires op.AddNode? ==> op.n !in g
    ensures Transposed(ApplyToGraph(g, op).0, ApplyToIndex(g, r, op))
  {
    var h, s := ApplyToGraph(g, op).0, ApplyToIndex(g, r, op);
    if ApplyToGraph(g, op).1.Ok? {
      forall w | w in s ensures s[w] == Preds(h, w) {
        if w in r {
          assert r[w] == Preds(g, w);
        }
      }
    }
  }

  /** A node that is added, or added again, loses the edges that leave it, and nothing else changes. */
  lemma NodeAdded(g: Graph, n: Node)
    ensures var (h, r) := ApplyToGraph(g, AddNode(n));
            && r.Ok? && h.Keys == g.Keys + {n}
            && forall u, v :: Edge(h, u, v) <==> Edge(g, u, v) && u != n
  {
  }

  /** A removed node goes with the edges that leave or enter it; all others stay. */
  lemma NodeRemoved(g: Graph, n: Node)
    requires Closed(g)
    ensures var (h, r) := ApplyToGraph(g, RemoveNode(n));
            && (r == if n in g then Ok(()) else Raise(KeyError))
            && h.Keys == g.Keys - {n}
            && forall u, v :: Edge(h, u, v) <==> Edge(g, u, v) && u != n && v != n
  {
    var h := ApplyToGraph(g, RemoveNode(n)).0;
    assert n in g ==> forall u | u in h :: h[u] == g[u] - {n};
  }

  /** An accepted edge is the only new one; a refused edge leaves no trace. */
  lemma EdgeAdded(g: Graph, u: Node, v: Node, validate: bool)
    ensures var (h, r) := ApplyToGraph(g, AddEdge(u, v, validate));
            && (r == Raise(KeyError) <==> u !in g || v !in g)
            && h.Keys == g.Keys
            && forall a, b :: Edge(h, a, b) <==> Edge(g, a, b) || (r.Ok? && a == u && b == v)
  {
    hide Cyclic;
  }

  /** A removed edge is the only one gone. */
  lemma EdgeRemoved(g: Graph, u: Node, v: Node)
    ensures var (h, r) := ApplyToGraph(g, RemoveEdge(u, v));
            && (r == if Edge(g, u, v) then Ok(()) else Raise(KeyError))
            && h.Keys == g.Keys
            && forall a, b :: Edge(h, a, b) <==> Edge(g, a, b) && !(a == u && b == v)
  {
  }

  /** Adding a node again keeps the index exact exactly when the node had no edge from or to another node. */
  lemma ReAddKeepsMirrorIff(g: Graph, r: Graph, n: Node)
    requires Closed(g) && Transposed(g, r) && n in g
    ensures Transposed(ApplyToGraph(g, AddNode(n)).0, ApplyToIndex(g, r, AddNode(n)))
        <==> g[n] <= {n} && r[n] <= {n}
  {
    var h, s := g[n := {}], r[n := {}];
    if Transposed(h, s) {
      forall v | v in g[n] ensures v == n {
        assert n in Preds(g, v);
        assert v in s && n in r[v];
        assert s[v] == Preds(h, v);
      }
      forall u | u in r[n] ensures u == n {
        assert u in Preds(g, n);
        assert u != n ==> u in Preds(h, n);
        assert s[n] == Preds(h, n);
      }
    }
    if g[n] <= {n} && r[n] <= {n} {
      forall w | w in s ensures s[w] == Preds(h, w) {
        assert r[w] == Preds(g, w);
        if w == n {
          assert Preds(h, n) <= Preds(g, n) - {n};
        } else {
          assert w !in g[n];
        }
      }
    }
  }

  /** In an acyclic graph a validated edge is refused exactly when a path already leads
      from its successor to its predecessor, self-loops included; a refusal changes nothing. */
  lemma EdgeRefusedIff(g: Graph, u: Node, v: Node)
    requires !Cyclic(g) && u in g && v in g
    ensures ApplyToGraph(g, AddEdge(u, v, true)).1 == Raise(DAGValidationError) <==> Reaches(g, v, u)
    ensures Reaches(g, v, u) ==> ApplyToGraph(g, AddEdge(u, v, true)).0 == g
    ensures u == v ==> Reaches(g, v, u)
  {
    EdgeClosesCycle(g, u, v);
    if u == v {
      assert IsPath(g, [u]) && [u][0] == v;
    }
  }

  lemma AppliedStaysAcyclic(g: Graph, op: Op)
    requires !Cyclic(g) && (op.AddEdge? ==> op.validate)
    ensures !Cyclic(ApplyToGraph(g, op).0)
  {
    if !op.AddEdge? {
      FewerEdgesStayAcyclic(g, ApplyToGraph(g, op).0);
    }
  }

  // ----- runs -----

  ghost function Run(st: State, ops: seq<Op>): (end: State)
    requires Valid(st) && FreshNodes(st.graph, ops)
    ensures Valid(end)
    decreases |ops|
  {
    if ops == [] then st
    else
      AppliedIsValid(st, ops[0]);
      Run(Apply(st, ops[0]).0, ops[1..])
  }

  /** No operation of the run adds a node that is present at that moment. */
  ghost predicate FreshNodes(g: Graph, ops: seq<Op>)
    decreases |ops|
  {
    ops != [] ==>
      && (ops[0].AddNode? ==> ops[0].n !in g)
      && FreshNodes(ApplyToGraph(g, ops[0]).0, ops[1..])
  }

  lemma AppliedIsValid(st: State, op: Op)
    requires Valid(st) && (op.AddNode? ==> op.n !in st.graph)
    ensures Valid(Apply(st, op).0)
  {
    AppliedIsClosed(st.graph, op);
    if st.reversed.Some? {
      AppliedIsMirrored(st.graph, st.reversed.value, op);
    }
  }

  lemma {:induction false} FreshFront(g: Graph, ops: seq<Op>, op: Op)
    requires FreshNodes(g, ops + [op])
    ensures FreshNodes(g, ops)
    decreases |ops|
  {
    if ops != [] {
      assert (ops + [op])[0] == ops[0] && (ops + [op])[1..] == ops[1..] + [op];
      FreshFront(ApplyToGraph(g, ops[0]).0, ops[1..], op);
    }
  }

  /** A run goes on from where it stood: the last operation acts on what the others left, and reports last. */
  lemma {:induction false} RunGoesOn(st: State, ops: seq<Op>, op: Op)
    requires Valid(st) && FreshNodes(st.graph, ops + [op])
    ensures FreshNodes(st.graph, ops)
    ensures Run(st, ops + [op]) == Apply(Run(st, ops), op).0
    ensures Reports(st, ops + [op]) == Reports(st, ops) + [Apply(Run(st, ops), op).1]
    decreases |ops|
  {
    hide ApplyToGraph, ApplyToIndex, Valid;
    FreshFront(st.graph, ops, op);
    if ops == [] {
      assert [] + [op] == [op] && [op][1..] == [];
    } else {
      assert (ops + [op])[0] == ops[0] && (ops + [op])[1..] == ops[1..] + [op];
      AppliedIsValid(st, ops[0]);
      RunGoesOn(Apply(st, ops[0]).0, ops[1..], op);
    }
  }

  const EMPTY: Graph := map[]

  /** Every run that validates its edges, from an empty DAG, ends acyclic, closed and exactly mirrored. */
  lemma {:induction false} RunsStayAcyclic(st: State, ops: seq<Op>)
    requires Valid(st) && FreshNodes(st.graph, ops) && !Cyclic(st.graph)
    requires forall op | op in ops :: op.AddEdge? ==> op.validate
    ensures !Cyclic(Run(st, ops).graph)
    ensures Run(st, ops).reversed.Some? ==> Transposed(Run(st, ops).graph, Run(st, ops).reversed.value)
    decreases |ops|
  {
    if ops != [] {
      assert ops[0] in ops;
      AppliedStaysAcyclic(st.graph, ops[0]);
      AppliedIsValid(st, ops[0]);
      forall op | op in ops[1..] ensures op.AddEdge? ==> op.validate {
        assert op in ops;
      }
      RunsStayAcyclic(Apply(st, ops[0]).0, ops[1..]);
    }
  }

  lemma EmptyIsAcyclic(reversed: bool)
    ensures Valid(State(EMPTY, if reversed then Some(EMPTY) else None)) && !Cyclic(EMPTY)
  {
    OrderedIsAcyclic(EMPTY, []);
  }

  /** What each operation of a run reported. */
  ghost function Reports(st: State, ops: seq<Op>): seq<Outcome<()>>
    requires Valid(st) && FreshNodes(st.graph, ops)
    decreases |ops|
  {
    if ops == [] then []
    else
      AppliedIsValid(st, ops[0]);
      [Apply(st, ops[0]).1] + Reports(Apply(st, ops[0]).0, ops[1..])
  }

  /** A DAG with a reverse index and one without accept and refuse the same operations, hold the same edges and find
      the same predecessors after every run. Operations here never look at the index, so reports and edges are equal
      by construction; that the source's checks, which do look at it, come to the same is what `DagObject.Dag.AddEdge`
      and `Dags.SortGraph` show. */
  lemma {:induction false} IndexChangesNothing(st: State, ops: seq<Op>)
    requires Valid(st) && FreshNodes(st.graph, ops)
    ensures var plain := State(st.graph, None);
            && Valid(plain)
            && Reports(plain, ops) == Reports(st, ops)
            && Run(plain, ops).graph == Run(st, ops).graph
            && forall v | v in Run(st, ops).graph ::
                 PredecessorIds(v, Run(st, ops).graph, Run(st, ops).reversed)
                 == PredecessorIds(v, Run(plain, ops).graph, None)
    decreases |ops|
  {
    if ops != [] {
      AppliedIsValid(st, ops[0]);
      AppliedIsValid(State(st.graph, None), ops[0]);
      IndexChangesNothing(Apply(st, ops[0]).0, ops[1..]);
    }
  }
}
