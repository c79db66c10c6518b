/** What `descendants` and `ancestors` of odps/dag.py list, in terms of paths of the graph alone. */
module DagPaths {
  import opened Text
  import opened Graphs
  import opened DagSearch

  /** A path whose nodes all pass the filter. */
  ghost predicate Passes(g: Graph, cond: Node -> bool, p: seq<Node>)
  {
    IsPath(g, p) && forall i | 0 <= i < |p| :: cond(p[i])
  }

  /** A path of at most k nodes leads from one of the starts down to n. */
  ghost predicate LeadsDown(g: Graph, cond: Node -> bool, starts: seq<Node>, n: Node, k: nat)
  {
    exists p :: Passes(g, cond, p) && |p| <= k && p[0] in starts && p[|p| - 1] == n
  }

  /** A path of at most k nodes leads from n down to one of the starts. */
  ghost predicate LeadsUp(g: Graph, cond: Node -> bool, starts: seq<Node>, n: Node, k: nat)
  {
    exists p :: Passes(g, cond, p) && |p| <= k && p[0] == n && p[|p| - 1] in starts
  }

  ghost predicate Leads(g: Graph, forward: bool, cond: Node -> bool, starts: seq<Node>, n: Node, k: nat)
  {
    if forward then LeadsDown(g, cond, starts, n, k) else LeadsUp(g, cond, starts, n, k)
  }

  /** Every node that a path leads to, except the starts themselves, once, and nearer ones first. */
  ghost predicate ListsReachable(g: Graph, forward: bool, cond: Node -> bool, starts: seq<Node>, out: seq<Node>)
  {
    && (forall i, j | 0 <= i < j < |out| :: out[i] != out[j])
    && (forall n :: n in out <==> !(n in starts && cond(n)) && exists k: nat :: Leads(g, forward, cond, starts, n, k))
    && forall i, j, k: nat | 0 <= i < j < |out| && Leads(g, forward, cond, starts, out[j], k) ::
         Leads(g, forward, cond, starts, out[i], k)
  }

  function Turned(p: seq<Node>): (r: seq<Node>)
    ensures |r| == |p| && forall i | 0 <= i < |p| :: r[i] == p[|p| - 1 - i]
  {
    if p == [] then [] else Turned(p[1..]) + [p[0]]
  }

  lemma WalkIsPath(g: Graph, forward: bool, cond: Node -> bool, p: seq<Node>)
    requires IsWalk(g, forward, cond, p) && cond(p[0])
    ensures Passes(g, cond, if forward then p else Turned(p))
  {
    var q := if forward then p else Turned(p);
    forall i | 0 <= i < |p| ensures cond(p[i]) {
      if i > 0 {
        assert Step(g, forward, cond, p[i - 1], p[i - 1 + 1]);
      }
    }
    forall i | 0 <= i < |q| - 1 ensures Edge(g, q[i], q[i + 1]) {
      var at := if forward then i else |p| - 2 - i;
      assert Step(g, forward, cond, p[at], p[at + 1]);
    }
  }

  lemma PathIsWalk(g: Graph, forward: bool, cond: Node -> bool, p: seq<Node>)
    requires Closed(g) && Passes(g, cond, p) && (|p| == 1 ==> p[0] in g)
    ensures IsWalk(g, forward, cond, if forward then p else Turned(p))
  {
    var q := if forward then p else Turned(p);
    forall i | 0 <= i < |q| - 1 ensures Step(g, forward, cond, q[i], q[i + 1]) {
      var at := if forward then i else |p| - 2 - i;
      assert Edge(g, p[at], p[at + 1]);
    }
  }

  /** The layers of the search are the nodes that paths lead to. */
  lemma LayerIsLed(g: Graph, forward: bool, cond: Node -> bool, starts: seq<Node>, k: nat, n: Node)
    requires Closed(g) && forall s | s in starts && cond(s) :: s in g
    ensures n in Layer(g, forward, cond, SetOf(Filter(starts, cond)), k) <==> Leads(g, forward, cond, starts, n, k + 1)
  {
    hide IsPath, Step, Layer;
    var from := SetOf(Filter(starts, cond));
    LayerIsWalks(g, forward, cond, from, k, n);
    if n in Layer(g, forward, cond, from, k) {
      var p :| p != [] && IsWalk(g, forward, cond, p) && |p| <= k + 1 && p[0] in from && p[|p| - 1] == n;
      WalkIsPath(g, forward, cond, p);
      assert Passes(g, cond, if forward then p else Turned(p));
    }
    if Leads(g, forward, cond, starts, n, k + 1) {
      var p := PathOf(g, forward, cond, starts, n, k + 1);
      PassedNotEmpty(g, cond, p);
      PathIsWalk(g, forward, cond, p);
      assert IsWalk(g, forward, cond, if forward then p else Turned(p));
    }
  }

  lemma PathOf(g: Graph, forward: bool, cond: Node -> bool, starts: seq<Node>, n: Node, k: nat) returns (p: seq<Node>)
    requires Leads(g, forward, cond, starts, n, k)
    ensures p != [] && Passes(g, cond, p) && |p| <= k
    ensures if forward then p[0] in starts && p[|p| - 1] == n else p[0] == n && p[|p| - 1] in starts
  {
    if forward {
      p :| Passes(g, cond, p) && |p| <= k && p[0] in starts && p[|p| - 1] == n;
    } else {
      p :| Passes(g, cond, p) && |p| <= k && p[0] == n && p[|p| - 1] in starts;
    }
  }

  lemma PassedNotEmpty(g: Graph, cond: Node -> bool, p: seq<Node>)
    requires Passes(g, cond, p)
    ensures p != [] && cond(p[0]) && cond(p[|p| - 1])
  {
  }

  lemma NoEmptyPath(g: Graph, forward: bool, cond: Node -> bool, starts: seq<Node>, n: Node)
    ensures !Leads(g, forward, cond, starts, n, 0)
  {
  }

  ghost predicate Led(g: Graph, forward: bool, cond: Node -> bool, from: set<Node>, n: Node)
  {
    exists k: nat :: n in Layer(g, forward, cond, from, k)
  }

  lemma LedIsLeads(g: Graph, forward: bool, cond: Node -> bool, starts: seq<Node>, n: Node)
    requires Closed(g) && forall s | s in starts && cond(s) :: s in g
    ensures Led(g, forward, cond, SetOf(Filter(starts, cond)), n)
       <==> exists k: nat :: Leads(g, forward, cond, starts, n, k)
  {
    hide Layer, Leads;
    var from := SetOf(Filter(starts, cond));
    if k: nat :| n in Layer(g, forward, cond, from, k) {
      LayerIsLed(g, forward, cond, starts, k, n);
    }
    if k: nat :| Leads(g, forward, cond, starts, n, k) {
      NoEmptyPath(g, forward, cond, starts, n);
      LayerIsLed(g, forward, cond, starts, k - 1, n);
    }
  }

  /** What the search lists is what paths lead to. */
  lemma ListedIsReachable(g: Graph, forward: bool, cond: Node -> bool, starts: seq<Node>, out: seq<Node>)
    requires Closed(g) && forall s | s in starts && cond(s) :: s in g
    requires Listed(g, forward, cond, SetOf(Filter(starts, cond)), out)
    ensures ListsReachable(g, forward, cond, starts, out)
  {
    hide Layer, Leads;
    var from := SetOf(Filter(starts, cond));
    forall n: Node ensures Led(g, forward, cond, from, n) <==> exists k: nat :: Leads(g, forward, cond, starts, n, k) {
      LedIsLeads(g, forward, cond, starts, n);
    }
    assert forall n: Node :: n in out <==> n !in from && Led(g, forward, cond, from, n);
    forall i, j, k: nat | 0 <= i < j < |out| && Leads(g, forward, cond, starts, out[j], k)
      ensures Leads(g, forward, cond, starts, out[i], k)
    {
      NoEmptyPath(g, forward, cond, starts, out[j]);
      LayerIsLed(g, forward, cond, starts, k - 1, out[j]);
      LayerIsLed(g, forward, cond, starts, k - 1, out[i]);
    }
  }
}
