/** Checking a form declaration: the faults reported, and what they do and do not mean for a run. */
module FormValidation {
  import opened PyValues
  import opened ParamSpecs
  import opened Forms
  import G = GuardGraph

  datatype Fault =
    | DeclaresNothing(block: nat)
    | UndeclaredGuard(block: nat, name: string)
    | InGuardCycle(block: nat)

  predicate DeclaredSomewhere(blocks: seq<Block>, name: string) {
    exists k :: 0 <= k < |blocks| && name in Names(blocks[k].params)
  }

  /** The guard graph: an edge from each block to those whose guards read what it introduces. */
  function FormGraph(blocks: seq<Block>): (edges: G.Graph)
    ensures G.ClosedGraph(edges) && edges.Keys == Indices(blocks)
  {
    map i: nat | i < |blocks| && IsIndex(blocks, i) ::
      set j: nat | j < |blocks| && GuardEdge(blocks, i, j)
  }

  /** Every fault of a declaration, each naming its block: the blocks without parameters, then the
      guards nothing declares, then the blocks on or downstream of a guard cycle. */
  method ValidateForm(blocks: seq<Block>) returns (faults: seq<Fault>)
    ensures forall i: nat :: DeclaresNothing(i) in faults <==> i < |blocks| && blocks[i].params == []
    ensures forall i: nat, n :: UndeclaredGuard(i, n) in faults <==>
              i < |blocks| && !DeclaredSomewhere(blocks, n) && exists c :: c in blocks[i].when && c.name == n
    ensures forall i: nat :: InGuardCycle(i) in faults <==> i < |blocks| && G.OnOrAfterCycle(FormGraph(blocks), i)
    ensures faults == [] <==>
              (forall b | b in blocks :: b.params != [] && forall c | c in b.when :: DeclaredSomewhere(blocks, c.name)) &&
              G.Acyclic(FormGraph(blocks))
  {
    var nothing := BlocksWithoutParams(blocks);
    var introducedBy := IntroducedBy(blocks);
    var undeclared := UndeclaredGuards(blocks, introducedBy);
    var edges := GuardEdges(blocks, introducedBy);
    var cyclic := BlocksInCycles(edges);
    faults := nothing + undeclared + cyclic;
    if faults == [] {
      forall b | b in blocks
        ensures b.params != [] && forall c | c in b.when :: DeclaredSomewhere(blocks, c.name)
      {
        var i :| 0 <= i < |blocks| && blocks[i] == b;
        assert DeclaresNothing(i) !in nothing;
        forall c | c in b.when
          ensures DeclaredSomewhere(blocks, c.name)
        {
          assert UndeclaredGuard(i, c.name) !in undeclared;
        }
      }
    } else {
      var fault := faults[0];
      assert fault in faults;
    }
  }

  method BlocksWithoutParams(blocks: seq<Block>) returns (faults: seq<Fault>)
    ensures forall f :: f in faults <==> f.DeclaresNothing? && f.block < |blocks| && blocks[f.block].params == []
  {
    faults := [];
    for i := 0 to |blocks|
      invariant forall f :: f in faults <==> f.DeclaresNothing? && f.block < i && blocks[f.block].params == []
    {
      ghost var was := faults;
      if blocks[i].params == [] {
        faults := faults + [DeclaresNothing(i)];
        assert forall f :: f in faults <==> f in was || f == DeclaresNothing(i);
      }
    }
  }

  ghost predicate Undeclared(blocks: seq<Block>, below: nat, f: Fault)
    requires below <= |blocks|
  {
    f.UndeclaredGuard? && f.block < below && !DeclaredSomewhere(blocks, f.name) &&
    exists c :: c in blocks[f.block].when && c.name == f.name
  }

  ghost predicate UndeclaredIn(blocks: seq<Block>, i: nat, below: nat, f: Fault)
    requires i < |blocks| && below <= |blocks[i].when|
  {
    f.UndeclaredGuard? && f.block == i && !DeclaredSomewhere(blocks, f.name) &&
    exists m :: 0 <= m < below && blocks[i].when[m].name == f.name
  }

  lemma IntroducedNames(blocks: seq<Block>, introducedBy: map<string, set<nat>>)
    requires Introduced(blocks, introducedBy)
    ensures forall name :: name in introducedBy <==> DeclaredSomewhere(blocks, name)
  {
    forall name ensures name in introducedBy <==> DeclaredSomewhere(blocks, name) {
      IntroducersOf(blocks, introducedBy, name);
      if name in introducedBy {
        var i :| i in introducedBy[name];
        assert name in Names(blocks[i].params);
      }
    }
  }

  method UndeclaredGuards(blocks: seq<Block>, introducedBy: map<string, set<nat>>) returns (faults: seq<Fault>)
    requires Introduced(blocks, introducedBy)
    ensures forall f :: f in faults <==> Undeclared(blocks, |blocks|, f)
  {
    IntroducedNames(blocks, introducedBy);
    hide Introduced, DeclaredSomewhere;
    faults := [];
    for i := 0 to |blocks|
      invariant forall f :: f in faults <==> Undeclared(blocks, i, f)
    {
      ghost var before := faults;
      var guard := blocks[i].when;
      for k := 0 to |guard|
        invariant forall f :: f in faults <==> (f in before || UndeclaredIn(blocks, i, k, f))
      {
        ghost var was := faults;
        if guard[k].name !in introducedBy {
          faults := faults + [UndeclaredGuard(i, guard[k].name)];
          assert forall f :: f in faults <==> f in was || f == UndeclaredGuard(i, guard[k].name);
        }
      }
      forall f
        ensures f in faults <==> Undeclared(blocks, i + 1, f)
      {
        if f in faults && f !in before {
          var m :| 0 <= m < |guard| && guard[m].name == f.name;
          assert guard[m] in blocks[i].when;
        }
        if Undeclared(blocks, i + 1, f) && f.block == i {
          var c :| c in blocks[i].when && c.name == f.name;
          var m :| 0 <= m < |guard| && guard[m] == c;
        }
      }
    }
  }

  /** Block `i` is recorded as introducing `name` once the blocks below `index` and the first `k`
      parameters of block `index` have been gone through. */
  predicate Recorded(blocks: seq<Block>, index: nat, k: nat, i: nat, name: string) {
    i < |blocks| &&
    ((i < index && name in Names(blocks[i].params)) ||
     (i == index && k <= |blocks[i].params| && name in Names(blocks[i].params[..k])))
  }

  lemma RecordedOneMore(blocks: seq<Block>, index: nat, k: nat, i: nat, name: string)
    requires index < |blocks| && k < |blocks[index].params|
    ensures Recorded(blocks, index, k + 1, i, name) <==>
            Recorded(blocks, index, k, i, name) || (i == index && name == blocks[index].params[k].name)
  {
    var params := blocks[index].params;
    assert params[..k + 1] == params[..k] + [params[k]];
  }

  lemma RecordedNextBlock(blocks: seq<Block>, index: nat, i: nat, name: string)
    requires index < |blocks|
    ensures Recorded(blocks, index + 1, 0, i, name) <==> Recorded(blocks, index, |blocks[index].params|, i, name)
  {
    var params := blocks[index].params;
    assert params[..|params|] == params;
  }

  predicate Maps(introducedBy: map<string, set<nat>>, name: string, i: nat) {
    name in introducedBy && i in introducedBy[name]
  }

  /** The dictionary holds what has been recorded so far, and no empty entry. */
  ghost predicate HoldsRecorded(blocks: seq<Block>, index: nat, k: nat, introducedBy: map<string, set<nat>>) {
    (forall name | name in introducedBy :: introducedBy[name] != {}) &&
    forall name, i: nat :: Maps(introducedBy, name, i) <==> Recorded(blocks, index, k, i, name)
  }

  lemma RecordOne(blocks: seq<Block>, index: nat, k: nat, before: map<string, set<nat>>, after: map<string, set<nat>>)
    requires index < |blocks| && k < |blocks[index].params| && HoldsRecorded(blocks, index, k, before)
    requires var name := blocks[index].params[k].name;
             after == before[name := (if name in before then before[name] else {}) + {index}]
    ensures HoldsRecorded(blocks, index, k + 1, after)
  {
    forall name, i: nat ensures Maps(after, name, i) <==> Recorded(blocks, index, k + 1, i, name) {
      assert Maps(before, name, i) <==> Recorded(blocks, index, k, i, name);
      RecordedOneMore(blocks, index, k, i, name);
      hide Recorded;
    }
  }

  lemma RecordNextBlock(blocks: seq<Block>, index: nat, introducedBy: map<string, set<nat>>)
    requires index < |blocks| && HoldsRecorded(blocks, index, |blocks[index].params|, introducedBy)
    ensures HoldsRecorded(blocks, index + 1, 0, introducedBy)
  {
    forall name, i: nat ensures Maps(introducedBy, name, i) <==> Recorded(blocks, index + 1, 0, i, name) {
      RecordedNextBlock(blocks, index, i, name);
    }
  }

  /** Each parameter is mapped to the blocks that introduce it. */
  ghost predicate Introduced(blocks: seq<Block>, introducedBy: map<string, set<nat>>) {
    HoldsRecorded(blocks, |blocks|, 0, introducedBy)
  }

  method IntroducedBy(blocks: seq<Block>) returns (introducedBy: map<string, set<nat>>)
    ensures Introduced(blocks, introducedBy)
  {
    introducedBy := map[];
    for index := 0 to |blocks|
      invariant HoldsRecorded(blocks, index, 0, introducedBy)
    {
      var params := blocks[index].params;
      for k := 0 to |params|
        invariant HoldsRecorded(blocks, index, k, introducedBy)
      {
        ghost var before := introducedBy;
        var name := params[k].name;
        introducedBy := introducedBy[name := (if name in introducedBy then introducedBy[name] else {}) + {index}];
        RecordOne(blocks, index, k, before, introducedBy);
      }
      RecordNextBlock(blocks, index, introducedBy);
    }
  }

  /** The edge from `i` to `j` is drawn once the guards below `index` and the first `k` entries of guard
      `index` have been gone through. */
  predicate Drawn(blocks: seq<Block>, index: nat, k: nat, i: nat, j: nat) {
    i < |blocks| && j < |blocks| && i != j &&
    ((j < index && GuardEdge(blocks, i, j)) ||
     (j == index && k <= |blocks[j].when| && exists c :: c in blocks[j].when[..k] && c.name in Names(blocks[i].params)))
  }

  lemma DrawnOneMore(blocks: seq<Block>, index: nat, k: nat, i: nat, j: nat)
    requires index < |blocks| && k < |blocks[index].when|
    ensures Drawn(blocks, index, k + 1, i, j) <==>
            Drawn(blocks, index, k, i, j) ||
            (j == index && i < |blocks| && i != index && blocks[index].when[k].name in Names(blocks[i].params))
  {
    var guard := blocks[index].when;
    assert guard[..k + 1] == guard[..k] + [guard[k]];
  }

  lemma DrawnNextBlock(blocks: seq<Block>, index: nat, i: nat, j: nat)
    requires index < |blocks|
    ensures Drawn(blocks, index + 1, 0, i, j) <==> Drawn(blocks, index, |blocks[index].when|, i, j)
  {
    var guard := blocks[index].when;
    assert guard[..|guard|] == guard;
  }

  predicate HasEdge(edges: G.Graph, i: nat, j: nat) {
    i in edges && j in edges[i]
  }

  /** The graph has the edges drawn so far. */
  ghost predicate HoldsDrawn(blocks: seq<Block>, index: nat, k: nat, edges: G.Graph) {
    edges.Keys == Indices(blocks) && forall i: nat, j: nat :: HasEdge(edges, i, j) <==> Drawn(blocks, index, k, i, j)
  }

  lemma DrawOne(blocks: seq<Block>, index: nat, k: nat, before: G.Graph, sources: set<nat>, after: G.Graph)
    requires index < |blocks| && k < |blocks[index].when| && HoldsDrawn(blocks, index, k, before) && after.Keys == before.Keys
    requires forall i: nat :: i in sources <==> i < |blocks| && blocks[index].when[k].name in Names(blocks[i].params)
    requires forall i | i in before :: after[i] == before[i] + if i in sources && i != index then {index} else {}
    ensures HoldsDrawn(blocks, index, k + 1, after)
  {
    forall i: nat, j: nat ensures HasEdge(after, i, j) <==> Drawn(blocks, index, k + 1, i, j) {
      assert HasEdge(before, i, j) <==> Drawn(blocks, index, k, i, j);
      DrawnOneMore(blocks, index, k, i, j);
      hide Drawn;
    }
  }

  lemma DrawNextBlock(blocks: seq<Block>, index: nat, edges: G.Graph)
    requires index < |blocks| && HoldsDrawn(blocks, index, |blocks[index].when|, edges)
    ensures HoldsDrawn(blocks, index + 1, 0, edges)
  {
    forall i: nat, j: nat ensures HasEdge(edges, i, j) <==> Drawn(blocks, index + 1, 0, i, j) {
      DrawnNextBlock(blocks, index, i, j);
    }
  }

  lemma IntroducersOf(blocks: seq<Block>, introducedBy: map<string, set<nat>>, name: string)
    requires Introduced(blocks, introducedBy)
    ensures var sources := if name in introducedBy then introducedBy[name] else {};
            sources <= Indices(blocks) && forall i: nat :: i in sources <==> i < |blocks| && name in Names(blocks[i].params)
  {
    forall i: nat ensures Maps(introducedBy, name, i) <==> i < |blocks| && name in Names(blocks[i].params) {
      assert Maps(introducedBy, name, i) <==> Recorded(blocks, |blocks|, 0, i, name);
    }
    var sources := if name in introducedBy then introducedBy[name] else {};
    forall i | i in sources ensures i in Indices(blocks) {
      assert Maps(introducedBy, name, i) && IsIndex(blocks, i);
    }
  }

  /** The guard graph, edge by edge as the loops over the guards draw it. */
  method GuardEdges(blocks: seq<Block>, introducedBy: map<string, set<nat>>) returns (edges: G.Graph)
    requires Introduced(blocks, introducedBy)
    ensures edges == FormGraph(blocks)
  {
    edges := map i | i in Indices(blocks) :: {};
    assert HoldsDrawn(blocks, 0, 0, edges);
    for index := 0 to |blocks|
      invariant HoldsDrawn(blocks, index, 0, edges)
    {
      var guard := blocks[index].when;
      for k := 0 to |guard|
        invariant HoldsDrawn(blocks, index, k, edges)
      {
        var sources := if guard[k].name in introducedBy then introducedBy[guard[k].name] else {};
        IntroducersOf(blocks, introducedBy, guard[k].name);
        ghost var before := edges;
        edges := DrawFrom(edges, sources, index);
        DrawOne(blocks, index, k, before, sources, edges);
      }
      DrawNextBlock(blocks, index, edges);
    }
    DrawnAll(blocks, edges);
  }

  /** An edge from every source but the target itself. */
  method DrawFrom(start: G.Graph, sources: set<nat>, target: nat) returns (edges: G.Graph)
    requires sources <= start.Keys
    ensures edges.Keys == start.Keys
    ensures forall i | i in start :: edges[i] == start[i] + if i in sources && i != target then {target} else {}
  {
    edges := start;
    var todo := sources;
    while todo != {}
      invariant todo <= sources && edges.Keys == start.Keys
      invariant forall i | i in start :: edges[i] == start[i] + if i in sources && i !in todo && i != target then {target} else {}
      decreases todo
    {
      var source :| source in todo;
      if source != target {
        edges := edges[source := edges[source] + {target}];
      }
      todo := todo - {source};
    }
  }

  lemma DrawnAll(blocks: seq<Block>, edges: G.Graph)
    requires HoldsDrawn(blocks, |blocks|, 0, edges)
    ensures edges == FormGraph(blocks)
  {
    forall i, j: nat | i in edges ensures j in edges[i] <==> j in FormGraph(blocks)[i] {
      assert HasEdge(edges, i, j) <==> Drawn(blocks, |blocks|, 0, i, j);
    }
    forall i | i in edges ensures edges[i] == FormGraph(blocks)[i] {
    }
  }

  method BlocksInCycles(edges: G.Graph) returns (faults: seq<Fault>)
    requires G.ClosedGraph(edges)
    ensures forall f :: f in faults <==> (f.InGuardCycle? && f.block in edges && G.OnOrAfterCycle(edges, f.block))
    ensures faults == [] <==> G.Acyclic(edges)
  {
    var nodes := G.CyclicNodes(edges);
    CyclicNodesAreAfterCycle(edges, nodes);
    hide *;
    faults := CycleFaults(nodes);
  }

  method CycleFaults(nodes: seq<nat>) returns (faults: seq<Fault>)
    ensures forall f :: f in faults <==> f.InGuardCycle? && f.block in G.Elements(nodes)
    ensures faults == [] <==> G.Elements(nodes) == {}
  {
    faults := [];
    for k := 0 to |nodes|
      invariant |faults| == k && forall m | 0 <= m < k :: faults[m] == InGuardCycle(nodes[m])
    {
      faults := faults + [InGuardCycle(nodes[k])];
    }
    FaultOfEachNode(nodes, faults);
  }

  lemma CyclicNodesAreAfterCycle(edges: G.Graph, nodes: seq<nat>)
    requires G.ClosedGraph(edges)
    requires G.IsLargestSelfFed(edges, G.Elements(nodes))
    ensures forall i: nat :: i in G.Elements(nodes) <==> i in edges && G.OnOrAfterCycle(edges, i)
    ensures G.Elements(nodes) == {} <==> G.Acyclic(edges)
  {
    G.LargestSelfFedIsAfterCycle(edges, G.Elements(nodes));
    hide G.OnOrAfterCycle, G.Acyclic;
  }

  lemma FaultOfEachNode(nodes: seq<nat>, faults: seq<Fault>)
    requires |faults| == |nodes| && forall m | 0 <= m < |nodes| :: faults[m] == InGuardCycle(nodes[m])
    ensures forall f :: f in faults <==> f.InGuardCycle? && f.block in G.Elements(nodes)
    ensures faults == [] <==> G.Elements(nodes) == {}
  {
    forall f: Fault | f.InGuardCycle? && f.block in nodes
      ensures f in faults
    {
      var k :| 0 <= k < |nodes| && nodes[k] == f.block;
      assert faults[k] == f;
    }
    if nodes != [] {
      assert nodes[0] in G.Elements(nodes);
    }
  }

  // ---- what a reported fault means when the form is resolved ----

  lemma SameValueReflexive(v: Value)
    ensures SameValue(v, v)
  {
  }

  /** Whatever is reported about it, a validly guarded block activates once the caller answers the
      parameters its guard needs: neither an undeclared guard nor a guard cycle keeps it out for good. */
  lemma TheCallerCanActivateAnyBlock(blocks: seq<Block>, i: nat)
    requires i < |blocks| && ValidGuard(blocks[i].when)
    ensures exists selections: Answers :: i in Resolved(blocks, selections).active
  {
    var guard := blocks[i].when;
    var selections := AnswersFor(guard);
    forall c | c in guard
      ensures c.name in selections && AcceptedBy(c, selections[c.name])
    {
      SameValueReflexive(c.accepted[0]);
    }
    ActiveIffGuardHolds(blocks, selections);
    var s := Resolved(blocks, selections);
    assert Holds(guard, s.answers);
  }

  /** For every parameter a guard needs, the first value it accepts. */
  lemma {:induction false} AnswersFor(guard: seq<Condition>) returns (answers: Answers)
    requires ValidGuard(guard)
    ensures forall c | c in guard :: c.name in answers && answers[c.name] == c.accepted[0]
    decreases |guard|
  {
    if guard == [] {
      answers := map[];
    } else {
      assert forall k | 0 <= k < |guard[1..]| :: guard[1..][k] == guard[k + 1];
      var rest := AnswersFor(guard[1..]);
      answers := rest[guard[0].name := guard[0].accepted[0]];
    }
  }

  /** Where the caller answers every parameter a guard names, the answers alone decide: the block is
      active exactly when each of them equals one of the values listed, any one of them. */
  lemma AnsweredGuardDecides(blocks: seq<Block>, selections: Answers, i: nat)
    requires i < |blocks| && forall c | c in blocks[i].when :: c.name in selections
    ensures i in Resolved(blocks, selections).active <==>
            forall c | c in blocks[i].when :: IsAnsweredBy(c, selections[c.name])
  {
    ActiveIffEveryConditionIsAnswered(blocks, selections, i);
    ActiveIffGuardHolds(blocks, selections);
    var s := Resolved(blocks, selections);
    assert forall c | c in blocks[i].when :: c.name in s.answers && s.answers[c.name] == selections[c.name];
    hide IsAnsweredBy, Resolved, Holds;
  }

  lemma SameAnswerReflexive(v: Value)
    ensures SameAnswer(v, v)
  {
    SameValueReflexive(v);
    AnswersAreEqual(v, v);
    hide SameValue, SameAnswer;
  }

  /** Any choice of listed values, not only the first ones, activates a block, whatever is reported of it. */
  lemma AnyChoiceActivates(blocks: seq<Block>, selections: Answers, i: nat)
    requires i < |blocks| && forall c | c in blocks[i].when :: c.name in selections && selections[c.name] in c.accepted
    ensures i in Resolved(blocks, selections).active
  {
    AnsweredGuardDecides(blocks, selections, i);
    forall c | c in blocks[i].when ensures IsAnsweredBy(c, selections[c.name]) {
      var k :| 0 <= k < |c.accepted| && c.accepted[k] == selections[c.name];
      SameAnswerReflexive(selections[c.name]);
    }
    hide SameAnswer, Resolved;
  }

  /** An answer that differs from every value listed keeps the block out, whatever else is answered. */
  lemma AnotherAnswerKeepsOut(blocks: seq<Block>, selections: Answers, i: nat, c: Condition)
    requires i < |blocks| && c in blocks[i].when && c.name in selections && !IsAnsweredBy(c, selections[c.name])
    ensures i !in Resolved(blocks, selections).active
  {
    ActiveIffEveryConditionIsAnswered(blocks, selections, i);
    ActiveIffGuardHolds(blocks, selections);
    hide IsAnsweredBy, Resolved, Holds;
  }

  /** A block guarded on a parameter nothing declares is active only if the caller answers it. */
  lemma UndeclaredGuardNeedsTheCaller(blocks: seq<Block>, selections: Answers, i: nat, c: Condition)
    requires i < |blocks| && c in blocks[i].when && !DeclaredSomewhere(blocks, c.name)
    requires i in Resolved(blocks, selections).active
    ensures c.name in selections
  {
    ActiveIffGuardHolds(blocks, selections);
    assert c.name in Resolved(blocks, selections).answers;
    DefaultsAreDeclared(blocks, c.name);
  }

  lemma DefaultsAreDeclared(blocks: seq<Block>, name: string)
    ensures forall j: nat, d | Declares(blocks, j, name, d) :: DeclaredSomewhere(blocks, name)
  {
    forall j: nat, d | Declares(blocks, j, name, d)
      ensures DeclaredSomewhere(blocks, name)
    {
      assert name in Names(blocks[j].params);
    }
  }

  // ---- when the reported blocks stay out ----

  /** The blocks numbered below `k` that are not left out. */
  function KeptTo(out: set<nat>, k: nat): (kept: seq<nat>)
    ensures forall m | 0 <= m < |kept| :: kept[m] < k && kept[m] !in out
  {
    if k == 0 then []
    else if k - 1 in out then KeptTo(out, k - 1)
    else KeptTo(out, k - 1) + [k - 1]
  }

  lemma {:induction false} IsKept(out: set<nat>, k: nat, i: nat)
    requires i < k && i !in out
    ensures i in KeptTo(out, k)
  {
    if i < k - 1 {
      IsKept(out, k - 1, i);
    }
  }

  /** The declaration without some of its blocks. */
  function Without(blocks: seq<Block>, out: set<nat>): (rest: seq<Block>) {
    var kept := KeptTo(out, |blocks|);
    seq(|kept|, m requires 0 <= m < |kept| => blocks[kept[m]])
  }

  lemma {:induction false} KeptIsPrefix(out: set<nat>, k: nat, n: nat)
    requires k <= n
    ensures KeptTo(out, k) <= KeptTo(out, n)
    decreases n
  {
    if k < n {
      KeptIsPrefix(out, k, n - 1);
      var before, after := KeptTo(out, n - 1), KeptTo(out, n);
      assert after == before || after == before + [n - 1];
    }
  }

  /** A block that is not left out comes right after those kept before it. */
  lemma PlaceOfKept(out: set<nat>, k: nat, n: nat)
    requires k < n && k !in out
    ensures var m := |KeptTo(out, k)|;
            m < |KeptTo(out, n)| && KeptTo(out, n)[m] == k && |KeptTo(out, k + 1)| == m + 1
  {
    KeptIsPrefix(out, k + 1, n);
    assert KeptTo(out, k + 1) == KeptTo(out, k) + [k];
  }

  lemma {:induction false} FillWithout(blocks: seq<Block>, out: set<nat>, answers: Answers, newly: set<nat>, k: nat)
    requires k <= |blocks| && newly !! out
    ensures var kept := KeptTo(out, |blocks|);
            |KeptTo(out, k)| <= |Without(blocks, out)| &&
            FillFrom(blocks, answers, newly, k) == FillFrom(Without(blocks, out), answers, PositionsOf(kept, newly), |KeptTo(out, k)|)
    decreases |blocks| - k
  {
    if k < |blocks| {
      var next := if k in newly then WithDefaults(answers, blocks[k].params) else answers;
      FillWithout(blocks, out, next, newly, k + 1);
      if k !in out {
        PlaceOfKept(out, k, |blocks|);
        hide KeptTo, WithDefaults;
        var kept, m := KeptTo(out, |blocks|), |KeptTo(out, k)|;
        assert m in PositionsOf(kept, newly) <==> k in newly;
        assert Without(blocks, out)[m] == blocks[k];
      }
    }
  }

  /** The two evaluations, with and without the blocks left out, are at the same point. */
  ghost predicate Alike(blocks: seq<Block>, out: set<nat>, s: State, t: State) {
    s.active !! out && t == State(PositionsOf(KeptTo(out, |blocks|), s.active), s.answers)
  }

  /** No guard of the blocks left out holds. */
  ghost predicate NoneHolds(blocks: seq<Block>, out: set<nat>, answers: Answers) {
    forall n | n in out && n < |blocks| :: !Holds(blocks[n].when, answers)
  }

  lemma PassWithout(blocks: seq<Block>, out: set<nat>, s: State, t: State)
    requires Alike(blocks, out, s, t) && Newly(blocks, s) !! out
    ensures Alike(blocks, out, Pass(blocks, s), Pass(Without(blocks, out), t))
    ensures Newly(blocks, s) == {} <==> Newly(Without(blocks, out), t) == {}
  {
    var kept, rest, newly := KeptTo(out, |blocks|), Without(blocks, out), Newly(blocks, s);
    assert Newly(rest, t) == PositionsOf(kept, newly) by {
      hide Holds, KeptTo;
    }
    FillWithout(blocks, out, s.answers, newly, 0);
    hide Newly, FillFrom, Without;
    assert t.active + PositionsOf(kept, newly) == PositionsOf(kept, s.active + newly);
    if newly != {} {
      var i :| i in newly;
      NewlyIsIndex(blocks, s, i);
      IsKept(out, |blocks|, i);
      var m :| 0 <= m < |kept| && kept[m] == i;
      assert m in PositionsOf(kept, newly);
    }
  }

  lemma NewlyIsIndex(blocks: seq<Block>, s: State, i: nat)
    requires i in Newly(blocks, s)
    ensures i < |blocks| && i !in s.active && Holds(blocks[i].when, s.answers)
  {
  }

  lemma HoldsOnMore(guard: seq<Condition>, earlier: Answers, later: Answers)
    requires Extends(later, earlier) && Holds(guard, earlier)
    ensures Holds(guard, later)
  {
  }

  lemma {:induction false} ActiveOnlyGrows(blocks: seq<Block>, s: State)
    ensures s.active + Newly(blocks, s) <= Settle(blocks, s).active
    decreases Indices(blocks) - s.active
  {
    if Newly(blocks, s) != {} {
      var i :| i in Newly(blocks, s);
      assert i in Indices(blocks) - s.active && i !in Indices(blocks) - Pass(blocks, s).active;
      ActiveOnlyGrows(blocks, Pass(blocks, s));
    }
  }

  /** While either evaluation keeps the left-out blocks out, they make the same passes. */
  lemma {:induction false} SettleWithout(blocks: seq<Block>, out: set<nat>, s: State, t: State)
    requires Alike(blocks, out, s, t)
    requires Settle(blocks, s).active !! out || NoneHolds(blocks, out, Settle(Without(blocks, out), t).answers)
    ensures Settle(blocks, s).active !! out && NoneHolds(blocks, out, Settle(Without(blocks, out), t).answers)
    ensures Settle(blocks, s).answers == Settle(Without(blocks, out), t).answers
    decreases Indices(blocks) - s.active
  {
    var rest, newly := Without(blocks, out), Newly(blocks, s);
    ActiveOnlyGrows(blocks, s);
    AnswersOnlyGrow(rest, t);
    forall n | n in newly ensures n !in out {
      NewlyIsIndex(blocks, s, n);
      HoldsOnMore(blocks[n].when, t.answers, Settle(rest, t).answers);
    }
    PassWithout(blocks, out, s, t);
    hide Without, KeptTo, Holds;
    if newly == {} {
      forall n | n in out && n < |blocks| ensures !Holds(blocks[n].when, s.answers) {
        assert n !in newly;
      }
    } else {
      var i :| i in newly;
      assert i in Indices(blocks) - s.active && i !in Indices(blocks) - Pass(blocks, s).active;
      SettleWithout(blocks, out, Pass(blocks, s), Pass(rest, t));
    }
  }

  /** Any blocks of any form stay out exactly when, evaluating the form without them, none of their
      guards holds on the answers; the two evaluations then end with the same answers. */
  lemma StayOutIff(blocks: seq<Block>, selections: Answers, out: set<nat>)
    ensures var s, rest := Resolved(blocks, selections), Resolved(Without(blocks, out), selections);
            (s.active !! out <==> NoneHolds(blocks, out, rest.answers)) && (s.active !! out ==> s.answers == rest.answers)
  {
    var s, t := Start(selections), Start(selections);
    assert PositionsOf(KeptTo(out, |blocks|), {}) == {};
    if Settle(blocks, s).active !! out || NoneHolds(blocks, out, Settle(Without(blocks, out), t).answers) {
      SettleWithout(blocks, out, s, t);
    }
  }

  /** The blocks reported for a guard cycle. */
  ghost function Reported(blocks: seq<Block>): (out: set<nat>) {
    set n: nat | n < |blocks| && G.OnOrAfterCycle(FormGraph(blocks), n)
  }

  /** The reported blocks' parameters never appear exactly when none of their guards holds on the
      answers of the form without them: what a caller could evaluate first. */
  lemma ReportedStayOutIff(blocks: seq<Block>, selections: Answers)
    ensures var rest := Resolved(Without(blocks, Reported(blocks)), selections);
            (forall n | n in Reported(blocks) :: n !in Resolved(blocks, selections).active) <==>
            (forall n | n in Reported(blocks) :: !Holds(blocks[n].when, rest.answers))
  {
    StayOutIff(blocks, selections, Reported(blocks));
    hide Resolved, Without, Holds;
  }

  /** Each parameter is introduced by one block only. */
  ghost predicate OneIntroducer(blocks: seq<Block>) {
    forall i, j, n | 0 <= i < |blocks| && 0 <= j < |blocks| && n in Names(blocks[i].params) && n in Names(blocks[j].params) :: i == j
  }

  lemma DefaultsOfTheRest(blocks: seq<Block>, out: set<nat>, m: nat, name: string, d: Value)
    requires Declares(Without(blocks, out), m, name, d)
    ensures exists i: nat :: i < |blocks| && i !in out && name in Names(blocks[i].params)
  {
    var i := KeptTo(out, |blocks|)[m];
    assert i < |blocks| && i !in out && name in Names(blocks[i].params);
  }

  /** So it is when every parameter has one introducer and the caller answers none of the parameters
      guards read: then no reported block ever activates. */
  lemma CyclicBlocksStayOut(blocks: seq<Block>, selections: Answers, i: nat)
    requires i < |blocks| && G.OnOrAfterCycle(FormGraph(blocks), i)
    requires OneIntroducer(blocks)
    requires forall b, c | b in blocks && c in b.when :: c.name !in selections
    ensures i !in Resolved(blocks, selections).active
  {
    var out := Reported(blocks);
    var rest := Resolved(Without(blocks, out), selections);
    ActiveIffGuardHolds(Without(blocks, out), selections);
    forall n | n in out
      ensures !Holds(blocks[n].when, rest.answers)
    {
      var p := G.AfterCycleHasPredecessor(FormGraph(blocks), n);
      assert GuardEdge(blocks, p, n) && p in out;
      var c :| c in blocks[n].when && c.name in Names(blocks[p].params);
      assert blocks[n] in blocks;
      if c.name in rest.answers {
        var m :| m in rest.active && Declares(Without(blocks, out), m, c.name, rest.answers[c.name]);
        DefaultsOfTheRest(blocks, out, m, c.name, rest.answers[c.name]);
        assert false;
      }
    }
    ReportedStayOutIff(blocks, selections);
  }

  /** Two blocks guarded on each other's parameters, and a third that introduces one of them too. */
  function CycleWithAWayIn(): seq<Block> {
    [TextBlock("a", "x", "on", [Condition("y", [One(Str("on"))])]),
     TextBlock("b", "y", "on", [Condition("x", [One(Str("on"))])]),
     TextBlock("c", "x", "on", [])]
  }

  lemma TheTwoGuardEachOther()
    ensures G.OnOrAfterCycle(FormGraph(CycleWithAWayIn()), 1)
  {
    var form := CycleWithAWayIn();
    var edges := FormGraph(form);
    assert form[0].when[0] in form[0].when && form[1].when[0] in form[1].when;
    assert form[0].params[0] in form[0].params && form[1].params[0] in form[1].params;
    assert GuardEdge(form, 0, 1) && GuardEdge(form, 1, 0);
    var loop := [1, 0, 1];
    assert G.IsPath(edges, loop);
    assert G.OnCycle(edges, 1);
    assert G.IsPath(edges, [1]);
  }

  /** With two introducers a block reported as part of a guard cycle can be active on the defaults. */
  lemma ReportedYetActive()
    ensures var form := CycleWithAWayIn();
            G.OnOrAfterCycle(FormGraph(form), 1) && 1 in Resolved(form, map[]).active
  {
    TheTwoGuardEachOther();
    var form := CycleWithAWayIn();
    ActiveIffGuardHolds(form, map[]);
    var s := Resolved(form, map[]);
    assert Holds(form[2].when, s.answers) && 2 in s.active;
    assert form[2].params[0] in form[2].params && "x" in Names(form[2].params);
    EveryDefaultIsOn(form);
    var needs := form[1].when[0];
    assert SameValue(s.answers["x"], needs.accepted[0]);
    assert AcceptedBy(needs, s.answers["x"]);
  }

  lemma EveryDefaultIsOn(form: seq<Block>)
    requires form == CycleWithAWayIn()
    ensures forall i: nat, n, d | Declares(form, i, n, d) :: d == One(Str("on"))
  {
    forall i: nat, n, d | Declares(form, i, n, d)
      ensures d == One(Str("on"))
    {
      var k :| 0 <= k < |form[i].params| && form[i].params[k].name == n && form[i].params[k].spec.default == d;
      assert form[i] in form;
    }
  }

  // ---- parameters that depend directly on themselves ----

  /** Block `j`'s guard reads a parameter that block `i`, which may be `j` itself, introduces. */
  predicate ReadsFrom(blocks: seq<Block>, i: nat, j: nat) {
    i < |blocks| && j < |blocks| && exists c :: c in blocks[j].when && c.name in Names(blocks[i].params)
  }

  predicate SelfGuarded(blocks: seq<Block>, i: nat) {
    ReadsFrom(blocks, i, i)
  }

  /** The guard graph with the edges from a block to itself: what is checked for cycles as documented. */
  function FullGraph(blocks: seq<Block>): (edges: G.Graph)
    ensures G.ClosedGraph(edges) && edges.Keys == Indices(blocks)
  {
    map i: nat | i < |blocks| && IsIndex(blocks, i) ::
      set j: nat | j < |blocks| && ReadsFrom(blocks, i, j)
  }

  lemma FullGraphEdges(blocks: seq<Block>, i: nat, j: nat)
    requires i < |blocks| && j < |blocks|
    ensures i in FormGraph(blocks) && i in FullGraph(blocks)
    ensures j in FullGraph(blocks)[i] <==> j in FormGraph(blocks)[i] || (i == j && SelfGuarded(blocks, i))
  {
    assert IsIndex(blocks, i);
  }

  ghost function AfterCycles(edges: G.Graph): (nodes: set<nat>) {
    set n | n in edges && G.OnOrAfterCycle(edges, n)
  }

  lemma ReportedIsDependent(blocks: seq<Block>, i: nat)
    requires i < |blocks| && G.OnOrAfterCycle(FormGraph(blocks), i)
    ensures G.OnOrAfterCycle(FullGraph(blocks), i)
  {
    var form, full := FormGraph(blocks), FullGraph(blocks);
    var reported := AfterCycles(form);
    assert IsIndex(blocks, i);
    forall n | n in reported ensures G.PredecessorsIn(full, reported, n) != {} {
      var p := G.AfterCycleHasPredecessor(form, n);
      FullGraphEdges(blocks, p, n);
      assert p in G.PredecessorsIn(full, reported, n);
    }
    hide G.OnOrAfterCycle;
    G.SelfFedIsAfterCycle(full, reported, i);
  }

  lemma SelfGuardedIsDependent(blocks: seq<Block>, i: nat)
    requires i < |blocks| && SelfGuarded(blocks, i)
    ensures G.OnOrAfterCycle(FullGraph(blocks), i)
  {
    FullGraphEdges(blocks, i, i);
    hide G.OnOrAfterCycle;
    assert i in G.PredecessorsIn(FullGraph(blocks), {i}, i);
    G.SelfFedIsAfterCycle(FullGraph(blocks), {i}, i);
  }

  /** Where every self-guarded block is reported anyway, so is every block that depends on itself. */
  lemma DependentIsReported(blocks: seq<Block>, i: nat)
    requires forall n: nat | n < |blocks| && SelfGuarded(blocks, n) :: G.OnOrAfterCycle(FormGraph(blocks), n)
    requires i < |blocks| && G.OnOrAfterCycle(FullGraph(blocks), i)
    ensures G.OnOrAfterCycle(FormGraph(blocks), i)
  {
    var form, full := FormGraph(blocks), FullGraph(blocks);
    var dependent := AfterCycles(full);
    assert IsIndex(blocks, i);
    forall n | n in dependent ensures G.PredecessorsIn(form, dependent, n) != {} {
      var p := PredecessorAsReported(blocks, n);
      assert p in G.PredecessorsIn(form, dependent, n);
    }
    hide G.OnOrAfterCycle;
    G.SelfFedIsAfterCycle(form, dependent, i);
  }

  lemma PredecessorAsReported(blocks: seq<Block>, n: nat) returns (p: nat)
    requires n < |blocks| && (SelfGuarded(blocks, n) ==> G.OnOrAfterCycle(FormGraph(blocks), n))
    requires G.OnOrAfterCycle(FullGraph(blocks), n)
    ensures p < |blocks| && p in FormGraph(blocks) && n in FormGraph(blocks)[p] && p in AfterCycles(FullGraph(blocks))
  {
    hide G.OnOrAfterCycle;
    p := G.AfterCycleHasPredecessor(FullGraph(blocks), n);
    FullGraphEdges(blocks, p, n);
    if n !in FormGraph(blocks)[p] {
      p := G.AfterCycleHasPredecessor(FormGraph(blocks), n);
      ReportedIsDependent(blocks, p);
      assert IsIndex(blocks, p);
    }
  }

  /** The report is complete, direct self-dependence included, exactly when every block that reads a
      parameter it introduces is reported for another reason. */
  lemma ReportIsCompleteIff(blocks: seq<Block>)
    ensures (forall i: nat | i < |blocks| :: G.OnOrAfterCycle(FormGraph(blocks), i) <==> G.OnOrAfterCycle(FullGraph(blocks), i)) <==>
            (forall i: nat | i < |blocks| && SelfGuarded(blocks, i) :: G.OnOrAfterCycle(FormGraph(blocks), i))
  {
    hide G.OnOrAfterCycle, SelfGuarded, FormGraph, FullGraph;
    forall i: nat | i < |blocks| && SelfGuarded(blocks, i) ensures G.OnOrAfterCycle(FullGraph(blocks), i) {
      SelfGuardedIsDependent(blocks, i);
    }
    forall i: nat | i < |blocks| && G.OnOrAfterCycle(FormGraph(blocks), i) ensures G.OnOrAfterCycle(FullGraph(blocks), i) {
      ReportedIsDependent(blocks, i);
    }
    if forall i: nat | i < |blocks| && SelfGuarded(blocks, i) :: G.OnOrAfterCycle(FormGraph(blocks), i) {
      forall i: nat | i < |blocks| && G.OnOrAfterCycle(FullGraph(blocks), i) ensures G.OnOrAfterCycle(FormGraph(blocks), i) {
        DependentIsReported(blocks, i);
      }
    }
  }

  /** The fault is real: in every form, a block that reads a parameter which only it introduces stays
      out unless the caller answers that parameter. */
  lemma SelfGuardedStaysOut(blocks: seq<Block>, selections: Answers, i: nat, c: Condition)
    requires i < |blocks| && c in blocks[i].when && c.name !in selections
    requires forall k: nat | k < |blocks| && k != i :: c.name !in Names(blocks[k].params)
    ensures i !in Resolved(blocks, selections).active
  {
    var others := Without(blocks, {i});
    var rest := Resolved(others, selections);
    ActiveIffGuardHolds(others, selections);
    if c.name in rest.answers {
      var m :| m in rest.active && Declares(others, m, c.name, rest.answers[c.name]);
      DefaultsOfTheRest(blocks, {i}, m, c.name, rest.answers[c.name]);
      assert false;
    }
    StayOutIff(blocks, selections, {i});
  }

  // ---- guards on parameters nothing declares ----

  /** A condition on an undeclared parameter is met in the end exactly when the caller answers it with an
      accepted value. */
  lemma UndeclaredConditionMetIff(blocks: seq<Block>, selections: Answers, c: Condition)
    requires !DeclaredSomewhere(blocks, c.name)
    ensures var s := Resolved(blocks, selections);
            c.name in s.answers && AcceptedBy(c, s.answers[c.name]) <==>
            c.name in selections && AcceptedBy(c, selections[c.name])
  {
    ActiveIffGuardHolds(blocks, selections);
    DefaultsAreDeclared(blocks, c.name);
    hide DeclaredSomewhere, AcceptedBy, Resolved;
  }

  /** A block guarded only on its own parameter. */
  function SelfGuardedForm(): seq<Block> {
    [TextBlock("a", "x", "on", [Condition("x", [One(Str("on"))])])]
  }

  /** The graph leaves self-guards out: this block is on no cycle, and yet it stays out of the form
      unless the caller answers its parameter. */
  lemma SelfGuardIsNotReported(selections: Answers)
    requires "x" !in selections
    ensures var form := SelfGuardedForm();
            G.Acyclic(FormGraph(form)) && Resolved(form, selections).active == {}
  {
    var form := SelfGuardedForm();
    var edges := FormGraph(form);
    assert edges.Keys == {0};
    assert edges[0] == {};
    forall path: seq<nat> | |path| >= 2 && path[0] in edges
      ensures !G.IsPath(edges, path)
    {
      assert path[1] !in edges[path[0]];
    }
    assert G.Acyclic(edges);
    var s := Start(selections);
    assert form[0].when[0] in form[0].when;
    assert Newly(form, s) == {};
  }
}
