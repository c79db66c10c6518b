/** Directed graphs as adjacency maps: paths, cycles, topological orders and layers,
    stated independently of how odps/dag.py computes with them. */
module Graphs {
  import opened Text

  /** A node object, known only by its identity. */
  datatype Node = Node(id: int)

  type Graph = map<Node, set<Node>>

  predicate Closed(g: Graph)
  {
    forall u, v | u in g && v in g[u] :: v in g
  }

  predicate Edge(g: Graph, u: Node, v: Node)
  {
    u in g && v in g[u]
  }

  predicate IsPath(g: Graph, p: seq<Node>)
  {
    p != [] && forall i | 0 <= i < |p| - 1 :: Edge(g, p[i], p[i + 1])
  }

  ghost predicate Reaches(g: Graph, u: Node, v: Node)
  {
    exists p :: IsPath(g, p) && p[0] == u && p[|p| - 1] == v
  }

  ghost predicate Cyclic(g: Graph)
  {
    exists p :: IsPath(g, p) && |p| > 1 && p[0] == p[|p| - 1]
  }

  ghost predicate IsTopologicalOrder(g: Graph, order: seq<Node>)
  {
    && Distinct(order)
    && (forall n :: n in order <==> n in g)
    && forall i, j | 0 <= i < |order| && 0 <= j < |order| && Edge(g, order[i], order[j]) :: i < j
  }

  function WithEdge(g: Graph, u: Node, v: Node): Graph
    requires u in g
  {
    g[u := g[u] + {v}]
  }

  function Preds(g: Graph, v: Node): set<Node>
  {
    set u | u in g && v in g[u]
  }

  /** r holds every edge of g turned round, and nothing else. */
  predicate Transposed(g: Graph, r: Graph)
  {
    g.Keys == r.Keys && forall v | v in r :: r[v] == Preds(g, v)
  }

  // ----- cycles -----

  lemma {:induction false} PathClimbs(g: Graph, order: seq<Node>, p: seq<Node>) returns (first: nat, last: nat)
    requires IsTopologicalOrder(g, order) && IsPath(g, p)
    requires forall n | n in p :: n in g
    ensures first < |order| && last < |order| && order[first] == p[0] && order[last] == p[|p| - 1]
    ensures first + |p| - 1 <= last
  {
    assert p[0] in p && p[0] in g && p[0] in order;
    first :| 0 <= first < |order| && order[first] == p[0];
    if |p| == 1 {
      last := first;
    } else {
      assert Edge(g, p[0], p[1]);
      forall i | 0 <= i < |p| - 2 ensures Edge(g, p[1..][i], p[1..][i + 1]) {
        assert Edge(g, p[i + 1], p[i + 2]);
      }
      var second;
      second, last := PathClimbs(g, order, p[1..]);
      assert Edge(g, order[first], order[second]);
    }
  }

  /** A graph that has a topological order has no cycle. */
  lemma OrderedIsAcyclic(g: Graph, order: seq<Node>)
    requires Closed(g) && IsTopologicalOrder(g, order)
    ensures !Cyclic(g)
  {
    if Cyclic(g) {
      var p :| IsPath(g, p) && |p| > 1 && p[0] == p[|p| - 1];
      PathStaysInside(g, p);
      var first, last := PathClimbs(g, order, p);
    }
  }

  lemma PathStaysInside(g: Graph, p: seq<Node>)
    requires Closed(g) && IsPath(g, p) && |p| > 1
    ensures forall n | n in p :: n in g
  {
    forall n | n in p ensures n in g {
      var i :| 0 <= i < |p| && p[i] == n;
      if i == 0 {
        assert Edge(g, p[0], p[1]);
      } else {
        assert Edge(g, p[i - 1], p[(i - 1) + 1]);
      }
    }
  }

  lemma {:induction false} Pigeonhole(p: seq<Node>, holes: set<Node>) returns (i: nat, j: nat)
    requires |p| > |holes| && forall n | n in p :: n in holes
    ensures i < j < |p| && p[i] == p[j]
  {
    var head, rest := p[0], p[1..];
    assert head in p;
    if head in rest {
      var k :| 0 <= k < |rest| && rest[k] == head;
      i, j := 0, k + 1;
    } else {
      forall n | n in rest ensures n in holes - {head} {
        assert n in p;
      }
      i, j := Pigeonhole(rest, holes - {head});
      i, j := i + 1, j + 1;
    }
  }

  lemma Prepend(g: Graph, u: Node, p: seq<Node>)
    requires IsPath(g, p) && Edge(g, u, p[0])
    ensures IsPath(g, [u] + p)
  {
    var q := [u] + p;
    forall i | 0 <= i < |q| - 1 ensures Edge(g, q[i], q[i + 1]) {
      if i > 0 {
        assert Edge(g, p[i - 1], p[i - 1 + 1]);
      }
    }
  }

  ghost predicate FedFrom(g: Graph, rest: set<Node>, v: Node)
  {
    exists u :: u in rest && Edge(g, u, v)
  }

  lemma {:induction false} WalkBack(g: Graph, rest: set<Node>, v: Node, steps: nat) returns (p: seq<Node>)
    requires v in rest && forall w | w in rest :: FedFrom(g, rest, w)
    ensures |p| == steps + 1 && IsPath(g, p) && forall n | n in p :: n in rest
    decreases steps
  {
    if steps == 0 {
      p := [v];
    } else {
      var q := WalkBack(g, rest, v, steps - 1);
      assert q[0] in q && FedFrom(g, rest, q[0]);
      var w :| w in rest && Edge(g, w, q[0]);
      Prepend(g, w, q);
      p := [w] + q;
    }
  }

  /** Nodes that all have a predecessor among themselves contain a cycle. */
  lemma StuckIsCyclic(g: Graph, rest: set<Node>)
    requires rest != {}
    requires forall v | v in rest :: FedFrom(g, rest, v)
    ensures Cyclic(g)
  {
    var v :| v in rest;
    var p := WalkBack(g, rest, v, |rest|);
    var i, j := Pigeonhole(p, rest);
    SubPath(g, p, i, j + 1);
    var c := p[i..j + 1];
    assert c[0] == c[|c| - 1];
  }

  lemma SubPath(g: Graph, p: seq<Node>, i: nat, j: nat)
    requires IsPath(g, p) && i < j <= |p|
    ensures IsPath(g, p[i..j])
  {
    var c := p[i..j];
    forall k | 0 <= k < |c| - 1 ensures Edge(g, c[k], c[k + 1]) {
      assert Edge(g, p[i + k], p[i + k + 1]);
    }
  }

  // ----- one more edge -----

  predicate Avoids(p: seq<Node>, u: Node, v: Node)
  {
    forall i | 0 <= i < |p| - 1 :: !(p[i] == u && p[i + 1] == v)
  }

  lemma PathWithoutEdge(g: Graph, u: Node, v: Node, p: seq<Node>)
    requires u in g && IsPath(WithEdge(g, u, v), p) && Avoids(p, u, v)
    ensures IsPath(g, p)
  {
    forall i | 0 <= i < |p| - 1 ensures Edge(g, p[i], p[i + 1]) {
      assert Edge(WithEdge(g, u, v), p[i], p[i + 1]);
    }
  }

  /** A path of the larger graph from v to u, cut at its first use of the edge u -> v. */
  lemma {:induction false} ShortcutPath(g: Graph, u: Node, v: Node, p: seq<Node>) returns (q: seq<Node>)
    requires u in g && IsPath(WithEdge(g, u, v), p) && p[|p| - 1] == u
    ensures IsPath(g, q) && q[0] == p[0] && q[|q| - 1] == u
    decreases |p|
  {
    if Avoids(p, u, v) {
      PathWithoutEdge(g, u, v, p);
      q := p;
    } else {
      var i :| 0 <= i < |p| - 1 && p[i] == u && p[i + 1] == v;
      SubPath(WithEdge(g, u, v), p, 0, i + 1);
      q := ShortcutPath(g, u, v, p[0..i + 1]);
    }
  }

  lemma PathCloses(g: Graph, u: Node, v: Node)
    requires u in g && Reaches(g, v, u)
    ensures Cyclic(WithEdge(g, u, v))
  {
    var h := WithEdge(g, u, v);
    var p :| IsPath(g, p) && p[0] == v && p[|p| - 1] == u;
    forall i | 0 <= i < |p| - 1 ensures Edge(h, p[i], p[i + 1]) {
      assert Edge(g, p[i], p[i + 1]);
    }
    Prepend(h, u, p);
    assert ([u] + p)[0] == ([u] + p)[|p|];
  }

  /** A cycle, started behind its i-th node. */
  lemma Turned(h: Graph, c: seq<Node>, i: nat) returns (round: seq<Node>)
    requires IsPath(h, c) && c[0] == c[|c| - 1] && i < |c| - 1
    ensures IsPath(h, round) && round[0] == c[i + 1] && round[|round| - 1] == c[i]
  {
    round := c[i + 1..] + c[1..i + 1];
    forall k | 0 <= k < |round| - 1 ensures Edge(h, round[k], round[k + 1]) {
      var at := if k < |c| - 2 - i then i + 1 + k else k - (|c| - 2 - i);
      assert Edge(h, c[at], c[at + 1]);
    }
  }

  lemma CycleUsesEdge(g: Graph, u: Node, v: Node)
    requires u in g && !Cyclic(g) && Cyclic(WithEdge(g, u, v))
    ensures Reaches(g, v, u)
  {
    hide WithEdge, Edge;
    var h := WithEdge(g, u, v);
    var c :| IsPath(h, c) && |c| > 1 && c[0] == c[|c| - 1];
    if Avoids(c, u, v) {
      PathWithoutEdge(g, u, v, c);
      assert false;
    }
    var i :| 0 <= i < |c| - 1 && c[i] == u && c[i + 1] == v;
    var round := Turned(h, c, i);
    var q := ShortcutPath(g, u, v, round);
    assert IsPath(g, q) && q[0] == v && q[|q| - 1] == u;
  }

  /** In an acyclic graph the edge u -> v closes a cycle exactly when v already reaches u. */
  lemma EdgeClosesCycle(g: Graph, u: Node, v: Node)
    requires u in g && v in g && !Cyclic(g)
    ensures Cyclic(WithEdge(g, u, v)) <==> Reaches(g, v, u)
  {
    hide WithEdge, Edge, IsPath;
    if Reaches(g, v, u) {
      PathCloses(g, u, v);
    }
    if Cyclic(WithEdge(g, u, v)) {
      CycleUsesEdge(g, u, v);
    }
  }

  lemma FewerEdgesStayAcyclic(g: Graph, h: Graph)
    requires !Cyclic(g) && forall u, v | Edge(h, u, v) :: Edge(g, u, v)
    ensures !Cyclic(h)
  {
  }
}
