/** The filtered breadth-first search of odps/dag.py, which `ancestors` and `descendants` list. */
module DagSearch {
  import opened Text
  import opened Graphs
  import opened Dags

  /** Where one step leads: along the edges for descendants, against them for ancestors. */
  function Next(g: Graph, forward: bool, u: Node): set<Node>
    requires u in g
  {
    if forward then g[u] else Preds(g, u)
  }

  ghost predicate Step(g: Graph, forward: bool, cond: Node -> bool, u: Node, v: Node)
  {
    u in g && v in Next(g, forward, u) && cond(v)
  }

  /** The nodes at most k steps from the start nodes. */
  ghost function Layer(g: Graph, forward: bool, cond: Node -> bool, starts: set<Node>, k: nat): set<Node>
  {
    if k == 0 then starts
    else
      var inner := Layer(g, forward, cond, starts, k - 1);
      inner + set u, v | u in inner && u in g && v in Next(g, forward, u) && cond(v) :: v
  }

  ghost predicate IsWalk(g: Graph, forward: bool, cond: Node -> bool, p: seq<Node>)
  {
    p != [] && forall i | 0 <= i < |p| - 1 :: Step(g, forward, cond, p[i], p[i + 1])
  }

  /** Layer k holds exactly the ends of walks of at most k steps from a start node. */
  lemma {:induction false} LayerIsWalks(g: Graph, forward: bool, cond: Node -> bool, starts: set<Node>, k: nat, n: Node)
    ensures n in Layer(g, forward, cond, starts, k)
        <==> exists p :: IsWalk(g, forward, cond, p) && |p| <= k + 1 && p[0] in starts && p[|p| - 1] == n
    decreases k
  {
    var inner := if k == 0 then {} else Layer(g, forward, cond, starts, k - 1);
    if n in Layer(g, forward, cond, starts, k) {
      if k == 0 {
        assert IsWalk(g, forward, cond, [n]) && [n][0] in starts;
      } else if n in inner {
        LayerIsWalks(g, forward, cond, starts, k - 1, n);
      } else {
        var u :| u in inner && u in g && n in Next(g, forward, u) && cond(n);
        LayerIsWalks(g, forward, cond, starts, k - 1, u);
        var p :| IsWalk(g, forward, cond, p) && |p| <= k && p[0] in starts && p[|p| - 1] == u;
        LongerWalk(g, forward, cond, p, n);
        assert (p + [n])[0] in starts && (p + [n])[|p|] == n;
      }
    }
    if exists p :: IsWalk(g, forward, cond, p) && |p| <= k + 1 && p[0] in starts && p[|p| - 1] == n {
      var p :| IsWalk(g, forward, cond, p) && |p| <= k + 1 && p[0] in starts && p[|p| - 1] == n;
      WalkInLayer(g, forward, cond, starts, k, p);
    }
  }

  lemma LongerWalk(g: Graph, forward: bool, cond: Node -> bool, p: seq<Node>, n: Node)
    requires IsWalk(g, forward, cond, p) && Step(g, forward, cond, p[|p| - 1], n)
    ensures IsWalk(g, forward, cond, p + [n])
  {
    var q := p + [n];
    forall i | 0 <= i < |q| - 1 ensures Step(g, forward, cond, q[i], q[i + 1]) {
      if i < |p| - 1 {
        assert Step(g, forward, cond, p[i], p[i + 1]);
      }
    }
  }

  lemma {:induction false} WalkInLayer(
    g: Graph, forward: bool, cond: Node -> bool, starts: set<Node>, k: nat, p: seq<Node>)
    requires IsWalk(g, forward, cond, p) && |p| <= k + 1 && p[0] in starts
    ensures p[|p| - 1] in Layer(g, forward, cond, starts, k)
    decreases k
  {
    if |p| == 1 {
      LayersGrow(g, forward, cond, starts, 0, k);
    } else {
      var q := p[..|p| - 1];
      forall i | 0 <= i < |q| - 1 ensures Step(g, forward, cond, q[i], q[i + 1]) {
        assert Step(g, forward, cond, p[i], p[i + 1]);
      }
      WalkInLayer(g, forward, cond, starts, k - 1, q);
      assert Step(g, forward, cond, p[|p| - 2], p[|p| - 2 + 1]);
    }
  }

  lemma {:induction false} LayersGrow(g: Graph, forward: bool, cond: Node -> bool, starts: set<Node>, j: nat, k: nat)
    requires j <= k
    ensures Layer(g, forward, cond, starts, j) <= Layer(g, forward, cond, starts, k)
    decreases k
  {
    if j < k {
      LayersGrow(g, forward, cond, starts, j, k - 1);
    }
  }

  // ----- the search -----

  function SetOf(s: seq<Node>): set<Node>
  {
    set n | n in s
  }

  function Filter(s: seq<Node>, cond: Node -> bool): (r: seq<Node>)
    ensures forall n :: n in r <==> n in s && cond(n)
  {
    if s == [] then []
    else (if cond(s[0]) then [s[0]] else []) + Filter(s[1..], cond)
  }

  /** v was found, no later than at the given level. */
  ghost predicate Found(order: seq<Node>, levels: seq<nat>, v: Node, level: nat)
    requires |levels| == |order|
  {
    exists j :: 0 <= j < |order| && order[j] == v && levels[j] <= level
  }

  /** The search after `head` nodes of `order` were expanded. The start nodes come first, at
      level 0; each later node is new, at a level that never decreases, and reachable in so many steps. */
  ghost predicate Searching(
    g: Graph, forward: bool, cond: Node -> bool, from: seq<Node>, out: seq<Node>, levels: seq<nat>)
  {
    var order := from + out;
    && |levels| == |order|
    && (forall n | n in order :: n in g)
    && Distinct(out) && (forall n | n in out :: n !in from)
    && (forall i | 0 <= i < |from| :: levels[i] == 0)
    && (forall i, j | 0 <= i <= j < |order| :: levels[i] <= levels[j])
    && (forall i | 0 <= i < |order| :: order[i] in Layer(g, forward, cond, SetOf(from), levels[i]))
  }

  /** The successors of node i, except those still in `todo`, were found in time. */
  ghost predicate Expanded(
    g: Graph, forward: bool, cond: Node -> bool, order: seq<Node>, levels: seq<nat>, i: nat, todo: set<Node>)
    requires i < |order| == |levels|
  {
    forall v | Step(g, forward, cond, order[i], v) && v !in todo :: Found(order, levels, v, levels[i] + 1)
  }

  lemma FoundMore(order: seq<Node>, levels: seq<nat>, n: Node, level: nat, v: Node, bound: nat)
    requires |levels| == |order| && Found(order, levels, v, bound)
    ensures Found(order + [n], levels + [level], v, bound)
  {
    var j :| 0 <= j < |order| && order[j] == v && levels[j] <= bound;
    assert (order + [n])[j] == v && (levels + [level])[j] <= bound;
  }

  lemma ExpandedMore(g: Graph, forward: bool, cond: Node -> bool, order: seq<Node>, levels: seq<nat>, i: nat,
                     todo: set<Node>, n: Node, level: nat)
    requires i < |order| == |levels| && Expanded(g, forward, cond, order, levels, i, todo)
    ensures Expanded(g, forward, cond, order + [n], levels + [level], i, todo)
  {
    forall v | Step(g, forward, cond, order[i], v) && v !in todo
      ensures Found(order + [n], levels + [level], v, levels[i] + 1)
    {
      FoundMore(order, levels, n, level, v, levels[i] + 1);
    }
  }

  /** When every found node is expanded, the levels are exact: layer k holds nothing found later. */
  lemma {:induction false} LayersCovered(g: Graph, forward: bool, cond: Node -> bool, from: seq<Node>, out: seq<Node>,
                                         levels: seq<nat>, k: nat, n: Node)
    requires Searching(g, forward, cond, from, out, levels)
    requires forall i | 0 <= i < |from + out| :: Expanded(g, forward, cond, from + out, levels, i, {})
    requires n in Layer(g, forward, cond, SetOf(from), k)
    ensures Found(from + out, levels, n, k)
    decreases k
  {
    var order, starts := from + out, SetOf(from);
    if k == 0 {
      var i :| 0 <= i < |from| && from[i] == n;
      assert order[i] == n && levels[i] <= 0;
    } else {
      var inner := Layer(g, forward, cond, starts, k - 1);
      if n in inner {
        LayersCovered(g, forward, cond, from, out, levels, k - 1, n);
        var j :| 0 <= j < |order| && order[j] == n && levels[j] <= k - 1;
        assert levels[j] <= k;
      } else {
        var u :| u in inner && u in g && n in Next(g, forward, u) && cond(n);
        LayersCovered(g, forward, cond, from, out, levels, k - 1, u);
        var i :| 0 <= i < |order| && order[i] == u && levels[i] <= k - 1;
        assert Expanded(g, forward, cond, order, levels, i, {});
        assert Step(g, forward, cond, order[i], n);
        var j :| 0 <= j < |order| && order[j] == n && levels[j] <= levels[i] + 1;
        assert levels[j] <= k;
      }
    }
  }

  /** What a listing of the search promises: the nodes beyond the start nodes that some layer
      holds, each once, and no node before one that is nearer. */
  ghost predicate Listed(g: Graph, forward: bool, cond: Node -> bool, starts: set<Node>, out: seq<Node>)
  {
    && Distinct(out)
    && (forall n :: n in out <==> n !in starts && exists k :: n in Layer(g, forward, cond, starts, k))
    && forall i, j, k: nat | 0 <= i < j < |out| && out[j] in Layer(g, forward, cond, starts, k) ::
         out[i] in Layer(g, forward, cond, starts, k)
  }

  lemma SearchedIsListed(g: Graph, forward: bool, cond: Node -> bool, from: seq<Node>, out: seq<Node>, levels: seq<nat>)
    requires Searching(g, forward, cond, from, out, levels)
    requires forall i | 0 <= i < |from + out| :: Expanded(g, forward, cond, from + out, levels, i, {})
    ensures Listed(g, forward, cond, SetOf(from), out)
  {
    var order, starts := from + out, SetOf(from);
    forall n ensures n in out <==> n !in starts && exists k :: n in Layer(g, forward, cond, starts, k) {
      if n in out {
        var j :| 0 <= j < |out| && out[j] == n;
        assert order[|from| + j] == n;
      }
      if n !in starts && exists k :: n in Layer(g, forward, cond, starts, k) {
        var k :| n in Layer(g, forward, cond, starts, k);
        LayersCovered(g, forward, cond, from, out, levels, k, n);
        assert n in order;
      }
    }
    forall i, j, k: nat | 0 <= i < j < |out| && out[j] in Layer(g, forward, cond, starts, k)
      ensures out[i] in Layer(g, forward, cond, starts, k)
    {
      LayersCovered(g, forward, cond, from, out, levels, k, out[j]);
      var m :| 0 <= m < |order| && order[m] == out[j] && levels[m] <= k;
      SamePlace(from, out, j, m);
      var a := |from| + i;
      assert order[a] == out[i] && levels[a] <= levels[m];
      LayersGrow(g, forward, cond, starts, levels[a], k);
    }
  }

  lemma SamePlace(from: seq<Node>, out: seq<Node>, j: nat, m: nat)
    requires Distinct(out) && (forall n | n in out :: n !in from)
    requires j < |out| && m < |from + out| && (from + out)[m] == out[j]
    ensures m == |from| + j
  {
    assert out[j] in out;
    forall i | 0 <= i < |from| ensures (from + out)[i] != out[j] {
      assert from[i] in from;
    }
  }

  /** The search while node h is being expanded and `todo` remains of its successors. */
  ghost predicate Inside(g: Graph, forward: bool, cond: Node -> bool, from: seq<Node>, out: seq<Node>,
                         levels: seq<nat>, h: nat, todo: set<Node>)
  {
    && Searching(g, forward, cond, from, out, levels)
    && h < |from + out|
    && (forall i | 0 <= i < |levels| :: levels[i] <= levels[h] + 1)
    && (forall i | 0 <= i < h :: Expanded(g, forward, cond, from + out, levels, i, {}))
    && Expanded(g, forward, cond, from + out, levels, h, todo)
  }

  /** The search once the first h nodes are expanded. */
  ghost predicate Between(g: Graph, forward: bool, cond: Node -> bool, from: seq<Node>, out: seq<Node>,
                          levels: seq<nat>, h: nat)
  {
    && Searching(g, forward, cond, from, out, levels)
    && h <= |from + out|
    && (h < |levels| ==> forall i | 0 <= i < |levels| :: levels[i] <= levels[h] + 1)
    && (forall i | 0 <= i < h :: Expanded(g, forward, cond, from + out, levels, i, {}))
  }

  lemma FirstBetween(g: Graph, forward: bool, cond: Node -> bool, from: seq<Node>, levels: seq<nat>)
    requires levels == seq(|from|, _ => 0) && forall n | n in from :: n in g
    ensures Between(g, forward, cond, from, [], levels, 0)
  {
    assert from + [] == from;
  }

  lemma StartNode(
    g: Graph, forward: bool, cond: Node -> bool, from: seq<Node>, out: seq<Node>, levels: seq<nat>, h: nat)
    requires Between(g, forward, cond, from, out, levels, h) && h < |from + out|
    ensures var cur := (from + out)[h];
            cur in g && cur in from + out
            && Inside(g, forward, cond, from, out, levels, h, Next(g, forward, cur))
  {
    assert (from + out)[h] in from + out;
  }

  lemma FoundIsSearching(g: Graph, forward: bool, cond: Node -> bool, from: seq<Node>, out: seq<Node>,
                         levels: seq<nat>, h: nat, v: Node)
    requires Closed(g) && Searching(g, forward, cond, from, out, levels)
    requires h < |levels| && forall i | 0 <= i < |levels| :: levels[i] <= levels[h] + 1
    requires Step(g, forward, cond, (from + out)[h], v) && v !in from + out
    ensures v in g && Searching(g, forward, cond, from, out + [v], levels + [levels[h] + 1])
  {
    var order, c, starts := from + out, levels[h], SetOf(from);
    assert from + (out + [v]) == order + [v];
    assert order[h] in Layer(g, forward, cond, starts, c);
    assert v in Layer(g, forward, cond, starts, c + 1);
  }

  /** A new successor joins the list at the next level. */
  lemma FindNode(g: Graph, forward: bool, cond: Node -> bool, from: seq<Node>, out: seq<Node>,
                 levels: seq<nat>, h: nat, todo: set<Node>, v: Node)
    requires Closed(g) && Inside(g, forward, cond, from, out, levels, h, todo)
    requires Step(g, forward, cond, (from + out)[h], v) && v !in from + out
    ensures v in g && h < |levels|
    ensures Inside(g, forward, cond, from, out + [v], levels + [levels[h] + 1], h, todo - {v})
  {
    hide Searching, Step, Found;
    SearchingLength(g, forward, cond, from, out, levels);
    FoundIsSearching(g, forward, cond, from, out, levels, h, v);
    var order, c := from + out, levels[h];
    var levels1 := levels + [c + 1];
    assert from + (out + [v]) == order + [v];
    forall i | 0 <= i < h ensures Expanded(g, forward, cond, order + [v], levels1, i, {}) {
      ExpandedMore(g, forward, cond, order, levels, i, {}, v, c + 1);
    }
    ExpandedMore(g, forward, cond, order, levels, h, todo, v, c + 1);
    NewIsFound(order, levels, v, c + 1);
  }

  lemma NewIsFound(order: seq<Node>, levels: seq<nat>, v: Node, level: nat)
    requires |levels| == |order|
    ensures Found(order + [v], levels + [level], v, level)
  {
    assert (order + [v])[|order|] == v && (levels + [level])[|order|] == level;
  }

  lemma SearchingLength(g: Graph, forward: bool, cond: Node -> bool, from: seq<Node>, out: seq<Node>, levels: seq<nat>)
    requires Searching(g, forward, cond, from, out, levels)
    ensures |levels| == |from + out|
  {
  }

  lemma GrowTail(order: seq<Node>, h: nat, v: Node)
    requires h < |order|
    ensures order[h + 1..] + [v] == (order + [v])[h + 1..] && (order + [v])[h] == order[h]
  {
  }

  /** A successor that fails the condition or was already found changes nothing. */
  lemma SkipNode(g: Graph, forward: bool, cond: Node -> bool, from: seq<Node>, out: seq<Node>,
                 levels: seq<nat>, h: nat, todo: set<Node>, v: Node)
    requires Inside(g, forward, cond, from, out, levels, h, todo) && (!cond(v) || v in from + out)
    ensures Inside(g, forward, cond, from, out, levels, h, todo - {v})
  {
    if v in from + out {
      var j :| 0 <= j < |from + out| && (from + out)[j] == v;
      assert levels[j] <= levels[h] + 1;
    }
  }

  lemma FinishNode(
    g: Graph, forward: bool, cond: Node -> bool, from: seq<Node>, out: seq<Node>, levels: seq<nat>, h: nat)
    requires Inside(g, forward, cond, from, out, levels, h, {})
    ensures Between(g, forward, cond, from, out, levels, h + 1)
  {
  }

  lemma FinishSearch(
    g: Graph, forward: bool, cond: Node -> bool, from: seq<Node>, out: seq<Node>, levels: seq<nat>, h: nat)
    requires h == |from + out| && Between(g, forward, cond, from, out, levels, h)
    ensures Listed(g, forward, cond, SetOf(from), out)
  {
    SearchedIsListed(g, forward, cond, from, out, levels);
  }

  lemma VisitOne(all: set<Node>, order: seq<Node>, v: Node)
    requires v in all && v !in order
    ensures SetOf(order + [v]) == SetOf(order) + {v}
    ensures |all - SetOf(order + [v])| + 1 == |all - SetOf(order)|
  {
    assert SetOf(order + [v]) == SetOf(order) + {v};
    assert all - SetOf(order) == (all - SetOf(order + [v])) + {v};
  }

  /** The inner loop of `bfs`: yield and queue the new successors of one node. */
  method ExpandNode(g: Graph, r: Option<Graph>, forward: bool, cond: Node -> bool, cur: Node,
                    ghost from: seq<Node>, ghost levels0: seq<nat>, ghost h: nat,
                    out0: seq<Node>, queue0: seq<Node>, visited0: set<Node>)
    returns (out: seq<Node>, queue: seq<Node>, visited: set<Node>, ghost levels: seq<nat>)
    requires Closed(g) && MirrorOf(g, r) && Between(g, forward, cond, from, out0, levels0, h)
    requires h < |from + out0| && cur == (from + out0)[h] && queue0 == (from + out0)[h + 1..]
    requires visited0 == SetOf(from + out0)
    ensures Between(g, forward, cond, from, out, levels, h + 1)
    ensures queue == (from + out)[h + 1..] && visited == SetOf(from + out) && |from + out| > h
    ensures |g.Keys - visited| + |queue| == |g.Keys - visited0| + |queue0|
  {
    hide Inside, Between, Transposed, Preds;
    out, queue, visited, levels := out0, queue0, visited0, levels0;
    ghost var order := from + out;
    StartNode(g, forward, cond, from, out, levels, h);
    var todo := if forward then g[cur] else PredecessorIds(cur, g, r);
    while todo != {}
      invariant order == from + out && visited == SetOf(order)
      invariant h < |order| && cur == order[h] && queue == order[h + 1..]
      invariant todo <= Next(g, forward, cur)
      invariant Inside(g, forward, cond, from, out, levels, h, todo)
      invariant |g.Keys - visited| + |queue| == |g.Keys - visited0| + |queue0|
      decreases todo
    {
      var up :| up in todo;
      if cond(up) && up !in visited {
        FindNode(g, forward, cond, from, out, levels, h, todo, up);
        VisitOne(g.Keys, order, up);
        GrowTail(order, h, up);
        Regroup(from, out, [up]);
        order := order + [up];
        visited := visited + {up};
        out := out + [up];
        levels := levels + [levels[h] + 1];
        queue := queue + [up];
      } else {
        SkipNode(g, forward, cond, from, out, levels, h, todo, up);
      }
      todo := todo - {up};
    }
    FinishNode(g, forward, cond, from, out, levels, h);
  }

  /** `bfs`, as the list of what it yields. */
  method Bfs(g: Graph, r: Option<Graph>, starts: seq<Node>, forward: bool, cond: Node -> bool)
    returns (result: Outcome<seq<Node>>)
    requires Closed(g) && MirrorOf(g, r)
    ensures result.Raise? <==> exists n :: n in starts && cond(n) && n !in g
    ensures result.Raise? ==> result.error == AssertionError
    ensures result.Ok? ==> Listed(g, forward, cond, SetOf(Filter(starts, cond)), result.value)
  {
    hide Between, Listed, Layer, Transposed, Preds, Filter;
    var from := Filter(starts, cond);
    if exists n | n in from :: n !in g {
      return Raise(AssertionError);
    }
    var visited := SetOf(from);
    var queue := from;
    var out: seq<Node> := [];
    ghost var levels: seq<nat> := seq(|from|, _ => 0);
    ghost var h := 0;
    FirstBetween(g, forward, cond, from, levels);
    while queue != []
      invariant h <= |from + out| && queue == (from + out)[h..] && visited == SetOf(from + out)
      invariant Between(g, forward, cond, from, out, levels, h)
      decreases |g.Keys - visited| + |queue|
    {
      var cur := queue[0];
      out, queue, visited, levels :=
        ExpandNode(g, r, forward, cond, cur, from, levels, h, out, queue[1..], visited);
      h := h + 1;
    }
    assert h == |from + out|;
    FinishSearch(g, forward, cond, from, out, levels, h);
    return Ok(out);
  }
}
