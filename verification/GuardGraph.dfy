/** Peeling a directed graph: which nodes survive dropping every node without a predecessor. */
module GuardGraph {

  type Graph = map<nat, set<nat>>

  /** Every successor is itself a node. */
  ghost predicate ClosedGraph(edges: Graph) {
    forall n, m | n in edges && m in edges[n] :: m in edges
  }

  /** The nodes of `some` with an edge into `n`. */
  function PredecessorsIn(edges: Graph, some: set<nat>, n: nat): (preds: set<nat>) {
    set p | p in some && p in edges && n in edges[p]
  }

  /** Every member has a predecessor among the members. */
  ghost predicate SelfFed(edges: Graph, some: set<nat>) {
    some <= edges.Keys && forall n | n in some :: PredecessorsIn(edges, some, n) != {}
  }

  /** The largest set of nodes each of which has a predecessor in the set. */
  ghost predicate IsLargestSelfFed(edges: Graph, largest: set<nat>) {
    SelfFed(edges, largest) && forall some | SelfFed(edges, some) :: some <= largest
  }

  ghost predicate IsPath(edges: Graph, path: seq<nat>) {
    path != [] && (forall k | 0 <= k < |path| :: path[k] in edges) &&
    forall j, k | 0 <= j < k < |path| && k == j + 1 :: path[k] in edges[path[j]]
  }

  ghost predicate OnCycle(edges: Graph, n: nat) {
    exists path :: IsPath(edges, path) && |path| >= 2 && path[0] == n && path[|path| - 1] == n
  }

  /** `n` lies on a cycle or can be reached from one. */
  ghost predicate OnOrAfterCycle(edges: Graph, n: nat) {
    exists path :: IsPath(edges, path) && OnCycle(edges, path[0]) && path[|path| - 1] == n
  }

  ghost predicate Acyclic(edges: Graph) {
    forall n | n in edges :: !OnCycle(edges, n)
  }

  ghost predicate Ascending(nodes: seq<nat>) {
    forall j, k | 0 <= j < k < |nodes| :: nodes[j] < nodes[k]
  }

  function Elements(nodes: seq<nat>): (elements: set<nat>) {
    set n | n in nodes
  }

  // ---- the peeling algorithm ----

  /** Adding one more source to the counted ones. */
  lemma OneMoreSource(edges: Graph, done: set<nat>, source: nat, n: nat)
    requires source in edges && source !in done
    ensures |PredecessorsIn(edges, done + {source}, n)| == |PredecessorsIn(edges, done, n)| + if n in edges[source] then 1 else 0
  {
    var before := PredecessorsIn(edges, done, n);
    var after := PredecessorsIn(edges, done + {source}, n);
    if n in edges[source] {
      assert after == before + {source};
    } else {
      assert after == before;
    }
  }

  lemma NoSources(edges: Graph, n: nat)
    ensures PredecessorsIn(edges, {}, n) == {}
  {
  }

  /** Raise by one the count of every successor. */
  method CountSuccessors(start: map<nat, int>, targets: set<nat>) returns (incoming: map<nat, int>)
    requires targets <= start.Keys
    ensures incoming.Keys == start.Keys
    ensures forall n | n in start :: incoming[n] == start[n] + if n in targets then 1 else 0
  {
    incoming := start;
    var successors := targets;
    while successors != {}
      invariant successors <= targets && incoming.Keys == start.Keys
      invariant forall n | n in start :: incoming[n] == start[n] + if n in targets && n !in successors then 1 else 0
      decreases successors
    {
      var node :| node in successors;
      incoming := incoming[node := incoming[node] + 1];
      successors := successors - {node};
    }
  }

  /** Every node's count is that of its predecessors among `sources`. */
  ghost predicate Counts(edges: Graph, incoming: map<nat, int>, sources: set<nat>) {
    incoming.Keys == edges.Keys &&
    forall n {:trigger incoming[n]} | n in edges :: incoming[n] == |PredecessorsIn(edges, sources, n)|
  }

  lemma NothingCounted(edges: Graph, incoming: map<nat, int>)
    requires incoming.Keys == edges.Keys && forall n | n in edges :: incoming[n] == 0
    ensures Counts(edges, incoming, {})
  {
    forall n ensures |PredecessorsIn(edges, {}, n)| == 0 {
      NoSources(edges, n);
    }
  }

  lemma CountsOneMore(edges: Graph, before: map<nat, int>, after: map<nat, int>, sources: set<nat>, source: nat)
    requires Counts(edges, before, sources) && source in edges && source !in sources && after.Keys == edges.Keys
    requires forall n | n in before :: after[n] == before[n] + if n in edges[source] then 1 else 0
    ensures Counts(edges, after, sources + {source})
  {
    forall n | n in edges ensures after[n] == |PredecessorsIn(edges, sources + {source}, n)| {
      OneMoreSource(edges, sources, source, n);
    }
  }

  method CountIncoming(edges: Graph) returns (incoming: map<nat, int>)
    requires ClosedGraph(edges)
    ensures Counts(edges, incoming, edges.Keys)
  {
    incoming := map node | node in edges :: 0;
    NothingCounted(edges, incoming);
    hide Counts, ClosedGraph;
    var todo := edges.Keys;
    ghost var sources: set<nat> := {};
    while todo != {}
      invariant Partition(sources, todo, edges.Keys) && Counts(edges, incoming, sources)
      decreases todo
    {
      var source :| source in todo;
      MoveOver(sources, todo, edges.Keys, source);
      incoming := CountOne(edges, incoming, sources, source);
      sources, todo := sources + {source}, todo - {source};
    }
  }

  predicate Partition(a: set<nat>, b: set<nat>, whole: set<nat>) {
    a !! b && a + b == whole
  }

  lemma MoveOver(a: set<nat>, b: set<nat>, whole: set<nat>, x: nat)
    requires Partition(a, b, whole) && x in b
    ensures x in whole && x !in a && Partition(a + {x}, b - {x}, whole)
  {
  }

  /** Count one more node as a source. */
  method CountOne(edges: Graph, start: map<nat, int>, ghost sources: set<nat>, source: nat) returns (incoming: map<nat, int>)
    requires ClosedGraph(edges) && Counts(edges, start, sources) && source in edges && source !in sources
    ensures Counts(edges, incoming, sources + {source})
  {
    incoming := CountSuccessors(start, edges[source]);
    CountsOneMore(edges, start, incoming, sources, source);
  }

  /** What holds of the peeling state between two steps: the counts are of the predecessors not yet
      peeled, and exactly the nodes counted zero have been queued. */
  ghost predicate Peeling(edges: Graph, incoming: map<nat, int>, queue: seq<nat>, seen: set<nat>) {
    incoming.Keys == edges.Keys && seen <= edges.Keys &&
    (forall n {:trigger incoming[n]} | n in edges :: incoming[n] == |PredecessorsIn(edges, edges.Keys - seen, n)|) &&
    Queued(edges, incoming, queue, seen)
  }

  ghost predicate Queued(edges: Graph, incoming: map<nat, int>, queue: seq<nat>, seen: set<nat>)
    requires incoming.Keys == edges.Keys
  {
    (forall n {:trigger incoming[n]} | n in edges :: incoming[n] == 0 <==> n in queue || n in seen) &&
    (forall k | 0 <= k < |queue| :: queue[k] in edges && queue[k] !in seen) &&
    forall j, k | 0 <= j < k < |queue| :: queue[j] != queue[k]
  }

  lemma PoppedIsPeeled(edges: Graph, incoming: map<nat, int>, waiting: seq<nat>, node: nat, seen: set<nat>)
    requires incoming.Keys == edges.Keys && Queued(edges, incoming, waiting + [node], seen)
    ensures node in edges && node !in seen && Queued(edges, incoming, waiting, seen + {node})
  {
    var queue := waiting + [node];
    assert queue[|waiting|] == node;
    assert forall k | 0 <= k < |waiting| :: waiting[k] == queue[k];
    forall n | n in edges
      ensures incoming[n] == 0 <==> n in waiting || n in seen + {node}
    {
      assert n in queue <==> n in waiting || n == node;
    }
  }

  lemma CountedDown(edges: Graph, incoming: map<nat, int>, queue: seq<nat>, seen: set<nat>, node: nat)
    requires incoming.Keys == edges.Keys && Queued(edges, incoming, queue, seen)
    requires node in edges && incoming[node] > 0
    ensures Queued(edges, incoming[node := incoming[node] - 1], if incoming[node] == 1 then queue + [node] else queue, seen)
  {
    var grown := if incoming[node] == 1 then queue + [node] else queue;
    assert node !in queue && node !in seen;
    forall n | n in edges
      ensures n in grown <==> n in queue || (n == node && incoming[node] == 1)
    {
    }
  }

  /** Drop one node: count its successors down, queueing those that reach zero. */
  method PeelOne(edges: Graph, start: map<nat, int>, waiting: seq<nat>, node: nat, ghost seen: set<nat>)
    returns (incoming: map<nat, int>, queue: seq<nat>)
    requires ClosedGraph(edges) && Peeling(edges, start, waiting + [node], seen)
    ensures Peeling(edges, incoming, queue, seen + {node})
  {
    hide PredecessorsIn;
    incoming, queue := start, waiting;
    PoppedIsPeeled(edges, start, waiting, node, seen);
    ghost var left := edges.Keys - seen - {node};
    assert left + {node} == edges.Keys - seen && left == edges.Keys - (seen + {node});
    ghost var target := map n | n in edges :: |PredecessorsIn(edges, left, n)|;
    forall n | n in edges
      ensures start[n] == target[n] + if n in edges[node] then 1 else 0
    {
      OneMoreSource(edges, left, node, n);
    }
    var successors := edges[node];
    while successors != {}
      invariant successors <= edges[node] && incoming.Keys == edges.Keys
      invariant forall n {:trigger incoming[n]} | n in edges :: incoming[n] == target[n] + if n in successors then 1 else 0
      invariant Queued(edges, incoming, queue, seen + {node})
      decreases successors
    {
      var successor :| successor in successors;
      CountedDown(edges, incoming, queue, seen + {node}, successor);
      incoming := incoming[successor := incoming[successor] - 1];
      if incoming[successor] == 0 {
        queue := queue + [successor];
      }
      successors := successors - {successor};
    }
  }

  /** The nodes counted zero at the start, each once. */
  method InitialQueue(edges: Graph, incoming: map<nat, int>) returns (queue: seq<nat>)
    requires incoming.Keys == edges.Keys
    ensures Queued(edges, incoming, queue, {})
  {
    queue := [];
    var todo := edges.Keys;
    while todo != {}
      invariant todo <= edges.Keys
      invariant forall n :: n in queue <==> n in edges && n !in todo && incoming[n] == 0
      invariant forall j, k | 0 <= j < k < |queue| :: queue[j] != queue[k]
      decreases todo
    {
      var node :| node in todo;
      ghost var was := queue;
      if incoming[node] == 0 {
        queue := queue + [node];
        assert forall n :: n in queue <==> n in was || n == node;
      }
      todo := todo - {node};
    }
    assert forall k | 0 <= k < |queue| :: queue[k] in queue;
  }

  lemma UncountedIsNotSelfFed(edges: Graph, seen: set<nat>, node: nat, some: set<nat>)
    requires PredecessorsIn(edges, edges.Keys - seen, node) == {}
    requires SelfFed(edges, some) && some !! seen
    ensures node !in some
  {
    assert PredecessorsIn(edges, some, node) <= PredecessorsIn(edges, edges.Keys - seen, node);
  }

  /** The nodes that survive the peeling, in ascending order: the largest set of nodes in which every
      node has a predecessor in the set. */
  method CyclicNodes(edges: Graph) returns (nodes: seq<nat>)
    requires ClosedGraph(edges)
    ensures Ascending(nodes)
    ensures IsLargestSelfFed(edges, Elements(nodes))
  {
    hide PredecessorsIn;
    var incoming := CountIncoming(edges);
    var queue := InitialQueue(edges, incoming);
    var seen := {};
    assert edges.Keys - {} == edges.Keys;
    while queue != []
      invariant Peeling(edges, incoming, queue, seen)
      invariant forall some | SelfFed(edges, some) :: some !! seen
      decreases edges.Keys - seen
    {
      var node := queue[|queue| - 1];
      assert queue == queue[..|queue| - 1] + [node];
      assert node in queue && node in edges && incoming[node] == 0;
      forall some | SelfFed(edges, some)
        ensures some !! seen + {node}
      {
        UncountedIsNotSelfFed(edges, seen, node, some);
      }
      assert node in edges.Keys - seen;
      incoming, queue := PeelOne(edges, incoming, queue[..|queue| - 1], node, seen);
      seen := seen + {node};
    }
    LeftIsSelfFed(edges, incoming, seen);
    nodes := Sorted(edges.Keys - seen);
    assert edges.Keys - seen == Elements(nodes);
  }

  lemma LeftIsSelfFed(edges: Graph, incoming: map<nat, int>, seen: set<nat>)
    requires Peeling(edges, incoming, [], seen)
    ensures SelfFed(edges, edges.Keys - seen)
  {
    forall n | n in edges.Keys - seen
      ensures PredecessorsIn(edges, edges.Keys - seen, n) != {}
    {
      assert incoming[n] != 0;
    }
  }

  predicate IsLeast(m: nat, some: set<nat>) {
    m in some && forall x | x in some :: m <= x
  }

  lemma {:induction false} HasLeast(some: set<nat>)
    requires some != {}
    ensures exists m :: IsLeast(m, some)
    decreases some
  {
    var y :| y in some;
    if some == {y} {
      assert IsLeast(y, some);
    } else {
      HasLeast(some - {y});
      var m :| IsLeast(m, some - {y});
      var least := if y <= m then y else m;
      forall x | x in some ensures least <= x {
        assert x == y || x in some - {y};
      }
      assert IsLeast(least, some);
    }
  }

  method Sorted(some: set<nat>) returns (nodes: seq<nat>)
    ensures Ascending(nodes)
    ensures forall n :: n in nodes <==> n in some
  {
    nodes := [];
    var rest := some;
    while rest != {}
      invariant rest <= some
      invariant forall n :: n in nodes <==> n in some - rest
      invariant Ascending(nodes)
      invariant forall k, x | 0 <= k < |nodes| && x in rest :: nodes[k] < x
      decreases rest
    {
      HasLeast(rest);
      var least :| least in rest && IsLeast(least, rest);
      ghost var was := nodes;
      nodes := nodes + [least];
      rest := rest - {least};
      assert forall n :: n in nodes <==> n in was || n == least;
    }
  }

  // ---- what the survivors are ----

  lemma {:induction false} Pigeonhole(path: seq<nat>, some: set<nat>)
    requires (forall k | 0 <= k < |path| :: path[k] in some) && |path| > |some|
    ensures exists j, k :: 0 <= j < k < |path| && path[j] == path[k]
    decreases |some|
  {
    var last := path[|path| - 1];
    if exists j :: 0 <= j < |path| - 1 && path[j] == last {
      var j :| 0 <= j < |path| - 1 && path[j] == last;
      assert path[j] == path[|path| - 1];
    } else {
      var init := path[..|path| - 1];
      Pigeonhole(init, some - {last});
      var j, k :| 0 <= j < k < |init| && init[j] == init[k];
      assert path[j] == path[k];
    }
  }

  /** Inside a self-fed set one can walk backwards for any number of steps. */
  lemma {:induction false} WalkBack(edges: Graph, some: set<nat>, n: nat, steps: nat) returns (path: seq<nat>)
    requires SelfFed(edges, some) && n in some
    ensures IsPath(edges, path) && |path| == steps + 1 && path[steps] == n
    ensures forall k | 0 <= k < |path| :: path[k] in some
    decreases steps
  {
    path := [n];
    if steps > 0 {
      var p :| p in PredecessorsIn(edges, some, n);
      var before := WalkBack(edges, some, p, steps - 1);
      path := before + [n];
      forall j, k | 0 <= j < k < |path| && k == j + 1
        ensures path[k] in edges[path[j]]
      {
        assert path[j] == before[j];
        assert k < |before| ==> path[k] == before[k];
      }
    }
  }

  lemma SelfFedIsAfterCycle(edges: Graph, some: set<nat>, n: nat)
    requires SelfFed(edges, some) && n in some
    ensures OnOrAfterCycle(edges, n)
  {
    var path := WalkBack(edges, some, n, |some|);
    Pigeonhole(path, some);
    var j, k :| 0 <= j < k < |path| && path[j] == path[k];
    var loop, tail := path[j..k + 1], path[j..];
    assert IsPath(edges, loop);
    assert OnCycle(edges, path[j]);
    assert IsPath(edges, tail) && tail[0] == path[j] && tail[|tail| - 1] == n;
  }

  lemma AfterCycleHasPredecessor(edges: Graph, n: nat) returns (p: nat)
    requires OnOrAfterCycle(edges, n)
    ensures p in edges && OnOrAfterCycle(edges, p) && n in edges[p]
  {
    var path :| IsPath(edges, path) && OnCycle(edges, path[0]) && path[|path| - 1] == n;
    if |path| == 1 {
      path :| IsPath(edges, path) && |path| >= 2 && path[0] == n && path[|path| - 1] == n;
    }
    var before := path[..|path| - 1];
    p := path[|path| - 2];
    assert IsPath(edges, before) && before[0] == path[0] && before[|before| - 1] == p;
    assert path[|path| - 1] in edges[p];
  }

  /** A node belongs to the largest self-fed set exactly when it lies on a cycle or downstream of one. */
  lemma LargestSelfFedIsAfterCycle(edges: Graph, largest: set<nat>)
    requires ClosedGraph(edges) && IsLargestSelfFed(edges, largest)
    ensures forall n | n in edges :: n in largest <==> OnOrAfterCycle(edges, n)
    ensures largest == {} <==> Acyclic(edges)
  {
    var after := set n | n in edges && OnOrAfterCycle(edges, n);
    forall n | n in after
      ensures PredecessorsIn(edges, after, n) != {}
    {
      var p := AfterCycleHasPredecessor(edges, n);
      assert p in PredecessorsIn(edges, after, n);
    }
    assert SelfFed(edges, after);
    forall n | n in largest
      ensures OnOrAfterCycle(edges, n)
    {
      SelfFedIsAfterCycle(edges, largest, n);
    }
    if !Acyclic(edges) {
      var n :| n in edges && OnCycle(edges, n);
      assert IsPath(edges, [n]);
      assert OnOrAfterCycle(edges, n);
    }
    if n :| n in largest {
      assert OnOrAfterCycle(edges, n);
      var path :| IsPath(edges, path) && OnCycle(edges, path[0]) && path[|path| - 1] == n;
      assert path[0] in edges;
      assert !Acyclic(edges);
    }
  }

  /** Every edge that leaves a node on a cycle ends at a node on a cycle. */
  ghost predicate NoEdgeLeavesCycles(edges: Graph) {
    forall n, m | n in edges && OnCycle(edges, n) && m in edges[n] :: OnCycle(edges, m)
  }

  lemma {:induction false} StaysOnCycles(edges: Graph, path: seq<nat>)
    requires NoEdgeLeavesCycles(edges) && IsPath(edges, path) && OnCycle(edges, path[0])
    ensures OnCycle(edges, path[|path| - 1])
    decreases |path|
  {
    hide OnCycle;
    if |path| > 1 {
      var before := path[..|path| - 1];
      assert IsPath(edges, before);
      StaysOnCycles(edges, before);
      assert path[|path| - 1] in edges[before[|before| - 1]];
    }
  }

  lemma SuccessorIsAfterCycle(edges: Graph, n: nat, m: nat)
    requires n in edges && m in edges && OnCycle(edges, n) && m in edges[n]
    ensures OnOrAfterCycle(edges, m)
  {
    hide OnCycle;
    assert IsPath(edges, [n, m]);
  }

  lemma AfterCycleIsOnCycle(edges: Graph, n: nat)
    requires NoEdgeLeavesCycles(edges) && OnOrAfterCycle(edges, n)
    ensures OnCycle(edges, n)
  {
    hide OnCycle, NoEdgeLeavesCycles;
    var path :| IsPath(edges, path) && OnCycle(edges, path[0]) && path[|path| - 1] == n;
    StaysOnCycles(edges, path);
  }

  /** The nodes returned all lie on cycles exactly when no edge leads off the cycles. */
  lemma SurvivorsAreOnCyclesIff(edges: Graph, largest: set<nat>)
    requires ClosedGraph(edges) && IsLargestSelfFed(edges, largest)
    ensures (forall n | n in largest :: OnCycle(edges, n)) <==> NoEdgeLeavesCycles(edges)
  {
    LargestSelfFedIsAfterCycle(edges, largest);
    hide OnCycle, OnOrAfterCycle;
    if forall n | n in largest :: OnCycle(edges, n) {
      forall n, m | n in edges && OnCycle(edges, n) && m in edges[n]
        ensures OnCycle(edges, m)
      {
        SuccessorIsAfterCycle(edges, n, m);
      }
    } else {
      var n :| n in largest && !OnCycle(edges, n);
      if NoEdgeLeavesCycles(edges) {
        AfterCycleIsOnCycle(edges, n);
      }
    }
  }

  /** A survivor need not lie on a cycle: node 2 is only downstream of the cycle 0, 1. */
  lemma SurvivorNeedNotBeOnACycle()
    ensures var edges: Graph := map[0 := {1}, 1 := {0, 2}, 2 := {}];
            ClosedGraph(edges) && SelfFed(edges, {0, 1, 2}) && !OnCycle(edges, 2)
  {
    var edges: Graph := map[0 := {1}, 1 := {0, 2}, 2 := {}];
    var all := {0, 1, 2};
    assert 1 in PredecessorsIn(edges, all, 0) && 0 in PredecessorsIn(edges, all, 1) && 1 in PredecessorsIn(edges, all, 2);
    forall path | IsPath(edges, path) && |path| >= 2
      ensures path[0] != 2
    {
      var next := path[1];
      assert next in edges[path[0]];
    }
  }
}
