/** Resolving a form into rendered parameter groups: activation, then merging by group key. */
module FormGroups {
  import opened PyValues
  import opened ParamSpecs
  import opened Forms

  datatype ParamGroup = ParamGroup(key: string, title: string, params: seq<Param>)

  /** The refusal of two active blocks of one group declaring the same parameter. */
  datatype DuplicateParam = DuplicateParam(key: string, name: string)

  // ---- what the merged groups are ----

  /** The active blocks numbered below `k`, in declaration order. */
  function ActiveBelow(blocks: seq<Block>, active: set<nat>, k: nat): seq<Block>
    requires k <= |blocks|
  {
    if k == 0 then []
    else ActiveBelow(blocks, active, k - 1) + if k - 1 in active then [blocks[k - 1]] else []
  }

  /** The group keys in order of first appearance. */
  function KeysOf(acts: seq<Block>): seq<string> {
    if acts == [] then []
    else
      var earlier := KeysOf(acts[..|acts| - 1]);
      var key := acts[|acts| - 1].key;
      if key in earlier then earlier else earlier + [key]
  }

  /** The parameters of every block of one group, in declaration order. */
  function ParamsOf(acts: seq<Block>, key: string): seq<Param> {
    if acts == [] then []
    else
      var last := acts[|acts| - 1];
      ParamsOf(acts[..|acts| - 1], key) + if last.key == key then last.params else []
  }

  /** The title of the first block of a group. */
  function TitleOf(acts: seq<Block>, key: string): string {
    if acts == [] then ""
    else if acts[0].key == key then acts[0].title
    else TitleOf(acts[1..], key)
  }

  function Groups(acts: seq<Block>): seq<ParamGroup> {
    seq(|KeysOf(acts)|, k requires 0 <= k < |KeysOf(acts)| =>
      ParamGroup(KeysOf(acts)[k], TitleOf(acts, KeysOf(acts)[k]), ParamsOf(acts, KeysOf(acts)[k])))
  }

  /** Two of the blocks share a group key and both declare `name`. */
  ghost predicate Clash(acts: seq<Block>, key: string, name: string) {
    exists p, q :: 0 <= p < q < |acts| && acts[p].key == key == acts[q].key &&
                   name in Names(acts[p].params) && name in Names(acts[q].params)
  }

  ghost predicate Conflict(acts: seq<Block>) {
    exists key, name :: Clash(acts, key, name)
  }

  // ---- facts about the merge ----

  lemma {:induction false} KeysCover(acts: seq<Block>)
    ensures forall key :: key in KeysOf(acts) <==> exists p :: 0 <= p < |acts| && acts[p].key == key
    ensures forall j, k | 0 <= j < k < |KeysOf(acts)| :: KeysOf(acts)[j] != KeysOf(acts)[k]
  {
    if acts != [] {
      var init, last := acts[..|acts| - 1], acts[|acts| - 1];
      KeysCover(init);
      forall key
        ensures key in KeysOf(acts) <==> exists p :: 0 <= p < |acts| && acts[p].key == key
      {
        if key in KeysOf(init) {
          var p :| 0 <= p < |init| && init[p].key == key;
          assert acts[p].key == key;
        } else if key == last.key {
          assert acts[|acts| - 1].key == key;
        } else {
          assert forall p | 0 <= p < |init| :: acts[p] == init[p];
        }
      }
    }
  }

  lemma {:induction false} ParamsOfNames(acts: seq<Block>, key: string, name: string)
    ensures name in Names(ParamsOf(acts, key)) <==>
            exists p :: 0 <= p < |acts| && acts[p].key == key && name in Names(acts[p].params)
  {
    if acts != [] {
      var init, last := acts[..|acts| - 1], acts[|acts| - 1];
      ParamsOfNames(init, key, name);
      var added := if last.key == key then last.params else [];
      assert Names(ParamsOf(init, key) + added) == Names(ParamsOf(init, key)) + Names(added);
      if name in Names(ParamsOf(init, key)) {
        var p :| 0 <= p < |init| && init[p].key == key && name in Names(init[p].params);
        assert acts[p] == init[p];
      } else if exists p :: 0 <= p < |acts| && acts[p].key == key && name in Names(acts[p].params) {
        var p :| 0 <= p < |acts| && acts[p].key == key && name in Names(acts[p].params);
        assert p < |init| ==> init[p] == acts[p];
      }
    }
  }

  lemma DistinctTogether(a: seq<Param>, b: seq<Param>)
    requires DistinctNames(a) && DistinctNames(b) && Names(a) !! Names(b)
    ensures DistinctNames(a + b)
  {
    forall j, k | 0 <= j < |a| && 0 <= k < |b| ensures a[j].name != b[k].name {
      assert a[j].name in Names(a) && b[k].name in Names(b);
    }
  }

  lemma {:induction false} ParamsOfDistinct(acts: seq<Block>, key: string)
    requires !Conflict(acts) && forall b | b in acts :: DistinctNames(b.params)
    ensures DistinctNames(ParamsOf(acts, key))
  {
    if acts != [] {
      var init, last := acts[..|acts| - 1], acts[|acts| - 1];
      assert acts == init + [last];
      if Conflict(init) {
        ConflictGrows(acts, |acts| - 1);
        assert false;
      }
      ParamsOfDistinct(init, key);
      if last.key == key {
        forall name | name in Names(ParamsOf(init, key)) ensures name !in Names(last.params) {
          if name in Names(last.params) {
            ClashFound(init, last, name, acts);
          }
        }
        hide Conflict;
        DistinctTogether(ParamsOf(init, key), last.params);
      }
    }
  }

  lemma ConflictGrows(acts: seq<Block>, k: nat)
    requires k <= |acts| && Conflict(acts[..k])
    ensures Conflict(acts)
  {
    var key, name :| Clash(acts[..k], key, name);
    var p, q :| 0 <= p < q < k && acts[..k][p].key == key == acts[..k][q].key &&
                name in Names(acts[..k][p].params) && name in Names(acts[..k][q].params);
    assert acts[p].key == key == acts[q].key;
    assert Clash(acts, key, name);
  }

  /** Where the `j`-th parameter of block `b` stands in its group. */
  function PlaceOf(acts: seq<Block>, b: nat, j: nat): nat
    requires b < |acts|
  {
    |ParamsOf(acts[..b], acts[b].key)| + j
  }

  lemma ParamsOfNext(acts: seq<Block>, b: nat, key: string)
    requires b < |acts|
    ensures ParamsOf(acts[..b + 1], key) == ParamsOf(acts[..b], key) + if acts[b].key == key then acts[b].params else []
  {
    assert acts[..b + 1][..b] == acts[..b] && acts[..b + 1][b] == acts[b];
  }

  lemma {:induction false} ParamsOfPrefix(acts: seq<Block>, b: nat, c: nat, key: string)
    requires b <= c <= |acts|
    ensures ParamsOf(acts[..b], key) <= ParamsOf(acts[..c], key)
    decreases c
  {
    if b < c {
      ParamsOfPrefix(acts, b, c - 1, key);
      ParamsOfNext(acts, c - 1, key);
      hide ParamsOf;
      var before, after := ParamsOf(acts[..c - 1], key), ParamsOf(acts[..c], key);
      assert before <= after;
    }
  }

  lemma PlaceHolds(acts: seq<Block>, b: nat, j: nat)
    requires b < |acts| && j < |acts[b].params|
    ensures var params := ParamsOf(acts, acts[b].key);
            PlaceOf(acts, b, j) < |params| && params[PlaceOf(acts, b, j)] == acts[b].params[j]
  {
    ParamsOfNext(acts, b, acts[b].key);
    ParamsOfPrefix(acts, b + 1, |acts|, acts[b].key);
    assert acts[..|acts|] == acts;
  }

  /** Within a group the places follow the declaration: block by block, and in a block parameter by
      parameter. */
  lemma PlacesFollowTheDeclaration(acts: seq<Block>, b: nat, j: nat, c: nat, k: nat)
    requires b < |acts| && c < |acts| && acts[b].key == acts[c].key && j < |acts[b].params| && k < |acts[c].params|
    ensures PlaceOf(acts, b, j) < PlaceOf(acts, c, k) <==> b < c || (b == c && j < k)
  {
    var key := acts[b].key;
    ParamsOfNext(acts, b, key);
    ParamsOfNext(acts, c, key);
    if b < c {
      ParamsOfPrefix(acts, b + 1, c, key);
    } else if c < b {
      ParamsOfPrefix(acts, c + 1, b, key);
    }
  }

  /** Every place of every group is taken by a parameter of a block with the group's key. */
  lemma {:induction false} EveryPlaceIsAParameter(acts: seq<Block>, key: string, i: nat) returns (b: nat, j: nat)
    requires i < |ParamsOf(acts, key)|
    ensures b < |acts| && acts[b].key == key && j < |acts[b].params| && i == PlaceOf(acts, b, j)
    decreases |acts|
  {
    var n := |acts| - 1;
    var init := acts[..n];
    ParamsOfNext(acts, n, key);
    assert acts[..n + 1] == acts;
    if i < |ParamsOf(init, key)| {
      b, j := EveryPlaceIsAParameter(init, key, i);
      assert init[..b] == acts[..b];
    } else {
      b, j := n, i - |ParamsOf(init, key)|;
    }
  }

  /** The group shows this parameter at its place, and its name nowhere else. */
  predicate ShowsOnce(group: ParamGroup, acts: seq<Block>, b: nat, j: nat)
    requires b < |acts| && j < |acts[b].params|
  {
    group.key == acts[b].key && PlaceOf(acts, b, j) < |group.params| &&
    forall i | 0 <= i < |group.params| ::
      if i == PlaceOf(acts, b, j) then group.params[i] == acts[b].params[j] else group.params[i].name != acts[b].params[j].name
  }

  /** Without a conflict every active parameter, with its whole declaration, stands exactly once in the
      one group with its block's key. */
  lemma EveryParameterExactlyOnce(acts: seq<Block>, b: nat, j: nat)
    requires !Conflict(acts) && forall x | x in acts :: DistinctNames(x.params)
    requires b < |acts| && j < |acts[b].params|
    ensures exists g :: 0 <= g < |Groups(acts)| && ShowsOnce(Groups(acts)[g], acts, b, j) &&
                        forall h | 0 <= h < |Groups(acts)| && h != g :: Groups(acts)[h].key != acts[b].key
  {
    KeysCover(acts);
    var key := acts[b].key;
    assert key in KeysOf(acts);
    var g :| 0 <= g < |KeysOf(acts)| && KeysOf(acts)[g] == key;
    PlaceHolds(acts, b, j);
    ParamsOfDistinct(acts, key);
    hide ParamsOf, KeysOf, Conflict;
    assert ShowsOnce(Groups(acts)[g], acts, b, j);
  }

  /** No earlier block has this one's key. */
  predicate IsFirstOfItsKey(acts: seq<Block>, b: nat) {
    b < |acts| && forall p | 0 <= p < b :: acts[p].key != acts[b].key
  }

  lemma {:induction false} TitleIsTheFirst(acts: seq<Block>, b: nat)
    requires IsFirstOfItsKey(acts, b)
    ensures TitleOf(acts, acts[b].key) == acts[b].title
    decreases b
  {
    if b > 0 {
      assert acts[0].key != acts[b].key;
      assert forall p | 0 <= p < b - 1 :: acts[1..][p] == acts[p + 1];
      TitleIsTheFirst(acts[1..], b - 1);
    }
  }

  /** The blocks listed open the groups with these keys, one after the other. */
  ghost predicate Opens(acts: seq<Block>, first: seq<nat>, keys: seq<string>) {
    |first| == |keys| && (forall g | 0 <= g < |first| :: IsFirstOfItsKey(acts, first[g]) && acts[first[g]].key == keys[g]) &&
    forall g, h | 0 <= g < h < |first| :: first[g] < first[h]
  }

  lemma OpensOneMore(acts: seq<Block>, init: seq<Block>, first: seq<nat>, keys: seq<string>)
    requires acts != [] && init == acts[..|acts| - 1] && Opens(init, first, keys)
    requires forall key :: key in keys <==> exists p :: 0 <= p < |init| && init[p].key == key
    ensures var n := |acts| - 1;
            if acts[n].key in keys then Opens(acts, first, keys) else Opens(acts, first + [n], keys + [acts[n].key])
  {
    var n := |acts| - 1;
    forall g | 0 <= g < |first| ensures IsFirstOfItsKey(acts, first[g]) && acts[first[g]].key == keys[g] {
      assert IsFirstOfItsKey(init, first[g]) && init[first[g]] == acts[first[g]];
      assert forall p | 0 <= p < first[g] :: acts[p] == init[p];
    }
    if acts[n].key !in keys {
      forall p | 0 <= p < n ensures acts[p].key != acts[n].key {
        assert init[p] == acts[p];
      }
    }
  }

  /** Which block opened each group, in the order of the groups. */
  lemma {:induction false} OpeningBlocks(acts: seq<Block>) returns (first: seq<nat>)
    ensures Opens(acts, first, KeysOf(acts))
    decreases |acts|
  {
    if acts == [] {
      first := [];
    } else {
      var n := |acts| - 1;
      first := OpeningBlocks(acts[..n]);
      KeysCover(acts[..n]);
      hide Opens;
      OpensOneMore(acts, acts[..n], first, KeysOf(acts[..n]));
      if acts[n].key !in KeysOf(acts[..n]) {
        first := first + [n];
      }
    }
  }

  lemma GroupAt(acts: seq<Block>, g: nat)
    requires g < |KeysOf(acts)|
    ensures |Groups(acts)| == |KeysOf(acts)|
    ensures Groups(acts)[g].key == KeysOf(acts)[g] && Groups(acts)[g].title == TitleOf(acts, KeysOf(acts)[g])
  {
    hide KeysOf, TitleOf, ParamsOf;
  }

  /** Group `g` is the one that block `b` opens, and has its title. */
  ghost predicate IsOpenedBy(acts: seq<Block>, g: nat, b: nat) {
    g < |Groups(acts)| && IsFirstOfItsKey(acts, b) && Groups(acts)[g].key == acts[b].key && Groups(acts)[g].title == acts[b].title
  }

  /** Some group has the block's key. */
  ghost predicate HasGroup(acts: seq<Block>, b: nat)
    requires b < |acts|
  {
    exists g :: 0 <= g < |Groups(acts)| && Groups(acts)[g].key == acts[b].key
  }

  /** The groups come in the order in which their first active blocks are declared, each under the title
      of that block, and every key has its group. */
  lemma GroupsFollowTheirFirstBlocks(acts: seq<Block>) returns (first: seq<nat>)
    ensures |first| == |Groups(acts)| && forall g: nat | g < |first| :: IsOpenedBy(acts, g, first[g])
    ensures forall g, h | 0 <= g < h < |first| :: first[g] < first[h]
    ensures forall b: nat | b < |acts| :: HasGroup(acts, b)
  {
    first := OpeningBlocks(acts);
    GroupCount(acts);
    hide KeysOf, TitleOf, ParamsOf, Groups;
    forall g: nat | g < |first| ensures IsOpenedBy(acts, g, first[g]) {
      GroupAt(acts, g);
      TitleIsTheFirst(acts, first[g]);
    }
    forall b: nat | b < |acts| ensures HasGroup(acts, b) {
      var g := GroupOf(acts, b);
    }
  }

  lemma GroupCount(acts: seq<Block>)
    ensures |Groups(acts)| == |KeysOf(acts)|
  {
    hide KeysOf, TitleOf, ParamsOf;
  }

  lemma GroupOf(acts: seq<Block>, b: nat) returns (g: nat)
    requires b < |acts|
    ensures g < |Groups(acts)| && Groups(acts)[g].key == acts[b].key
  {
    KeysCover(acts);
    GroupCount(acts);
    assert acts[b].key in KeysOf(acts);
    hide KeysOf, Groups;
    g :| g < |KeysOf(acts)| && KeysOf(acts)[g] == acts[b].key;
    GroupAt(acts, g);
  }

  /** The blocks listed are those active below `k`, in order. */
  ghost predicate ListsActive(blocks: seq<Block>, active: set<nat>, k: nat, at: seq<nat>, acts: seq<Block>)
    requires k <= |blocks|
  {
    |at| == |acts| && (forall m | 0 <= m < |at| :: at[m] < k && at[m] in active && acts[m] == blocks[at[m]]) &&
    (forall m, n | 0 <= m < n < |at| :: at[m] < at[n]) && forall i: nat | i < k && i in active :: i in at
  }

  lemma ListsOneMore(blocks: seq<Block>, active: set<nat>, k: nat, at: seq<nat>, acts: seq<Block>)
    requires k < |blocks| && ListsActive(blocks, active, k, at, acts)
    ensures if k in active then ListsActive(blocks, active, k + 1, at + [k], acts + [blocks[k]])
            else ListsActive(blocks, active, k + 1, at, acts)
  {
    if k in active {
      var more := at + [k];
      forall i: nat | i < k + 1 && i in active ensures i in more {
        assert i == k || i in at;
        assert more[|at|] == k;
      }
    }
  }

  /** The blocks merged are the active ones, each once, in the order declared. */
  lemma {:induction false} ActiveInOrder(blocks: seq<Block>, active: set<nat>, k: nat) returns (at: seq<nat>)
    requires k <= |blocks|
    ensures ListsActive(blocks, active, k, at, ActiveBelow(blocks, active, k))
  {
    if k == 0 {
      at := [];
    } else {
      at := ActiveInOrder(blocks, active, k - 1);
      hide ListsActive;
      ListsOneMore(blocks, active, k - 1, at, ActiveBelow(blocks, active, k - 1));
      assert ActiveBelow(blocks, active, k - 1) + [] == ActiveBelow(blocks, active, k - 1);
      if k - 1 in active {
        at := at + [k - 1];
      }
    }
  }

  // ---- the evaluator itself ----

  lemma ActiveBelowStep(blocks: seq<Block>, active: set<nat>, k: nat)
    requires k < |blocks|
    ensures var acts, next := ActiveBelow(blocks, active, k), ActiveBelow(blocks, active, k + 1);
            if k in active then |next| == |acts| + 1 && next[..|acts|] == acts && next[|acts|] == blocks[k] else next == acts
  {
  }

  lemma {:induction false} ActiveBelowGrows(blocks: seq<Block>, active: set<nat>, k: nat, m: nat)
    requires k <= m <= |blocks|
    ensures ActiveBelow(blocks, active, k) <= ActiveBelow(blocks, active, m)
    decreases m - k
  {
    if k < m {
      ActiveBelowGrows(blocks, active, k, m - 1);
      ActiveBelowStep(blocks, active, m - 1);
    }
  }

  lemma {:induction false} TitleOfExtends(acts: seq<Block>, last: Block, key: string)
    ensures TitleOf(acts + [last], key) ==
            if exists p :: 0 <= p < |acts| && acts[p].key == key then TitleOf(acts, key)
            else if last.key == key then last.title else ""
  {
    if acts == [] {
      assert acts + [last] == [last];
    } else {
      assert (acts + [last])[1..] == acts[1..] + [last];
      TitleOfExtends(acts[1..], last, key);
      if acts[0].key != key && exists p :: 0 <= p < |acts| && acts[p].key == key {
        var p :| 0 <= p < |acts| && acts[p].key == key;
        assert acts[1..][p - 1].key == key;
      } else if acts[0].key != key {
        assert forall p | 0 <= p < |acts[1..]| :: acts[1..][p] == acts[p + 1];
      }
    }
  }

  /** What the dictionaries the merge fills hold about one group. */
  predicate HoldsGroup(acts: seq<Block>, key: string, ordered: seq<string>, titles: map<string, string>, merged: map<string, seq<Param>>) {
    (key in titles <==> key in ordered) && (key in merged <==> key in ordered) &&
    (key in ordered ==> titles[key] == TitleOf(acts, key) && merged[key] == ParamsOf(acts, key))
  }

  /** The three dictionaries the merge fills describe the groups of the blocks merged so far. */
  ghost predicate MergedSoFar(acts: seq<Block>, ordered: seq<string>, titles: map<string, string>, merged: map<string, seq<Param>>) {
    ordered == KeysOf(acts) && forall key :: HoldsGroup(acts, key, ordered, titles, merged)
  }

  lemma GroupOneMore(acts: seq<Block>, last: Block, key: string)
    ensures KeysOf(acts + [last]) == if last.key in KeysOf(acts) then KeysOf(acts) else KeysOf(acts) + [last.key]
    ensures ParamsOf(acts + [last], key) == ParamsOf(acts, key) + if last.key == key then last.params else []
    ensures TitleOf(acts + [last], key) ==
            if key in KeysOf(acts) then TitleOf(acts, key) else if last.key == key then last.title else ""
  {
    assert (acts + [last])[..|acts|] == acts;
    KeysCover(acts);
    TitleOfExtends(acts, last, key);
  }

  lemma GroupHeldOneMore(acts: seq<Block>, last: Block, ordered: seq<string>, titles: map<string, string>, merged: map<string, seq<Param>>,
                         ordered': seq<string>, titles': map<string, string>, merged': map<string, seq<Param>>, key: string)
    requires MergedSoFar(acts, ordered, titles, merged)
    requires ordered' == KeysOf(acts + [last])
    requires titles' == if last.key in ordered then titles else titles[last.key := last.title]
    requires merged' == merged[last.key := (if last.key in merged then merged[last.key] else []) + last.params]
    ensures HoldsGroup(acts + [last], key, ordered', titles', merged')
  {
    assert HoldsGroup(acts, key, ordered, titles, merged);
    GroupOneMore(acts, last, key);
    GroupSoFar(acts, last.key, ordered, titles, merged);
    hide KeysOf, ParamsOf, TitleOf, MergedSoFar;
  }

  lemma MergeOneMore(acts: seq<Block>, last: Block, ordered: seq<string>, titles: map<string, string>, merged: map<string, seq<Param>>,
                     ordered': seq<string>, titles': map<string, string>, merged': map<string, seq<Param>>)
    requires MergedSoFar(acts, ordered, titles, merged)
    requires ordered' == if last.key in ordered then ordered else ordered + [last.key]
    requires titles' == if last.key in ordered then titles else titles[last.key := last.title]
    requires merged' == merged[last.key := (if last.key in merged then merged[last.key] else []) + last.params]
    ensures MergedSoFar(acts + [last], ordered', titles', merged')
  {
    GroupOneMore(acts, last, last.key);
    assert ordered' == KeysOf(acts + [last]);
    forall key ensures HoldsGroup(acts + [last], key, ordered', titles', merged') {
      GroupHeldOneMore(acts, last, ordered, titles, merged, ordered', titles', merged', key);
    }
    hide KeysOf, HoldsGroup;
  }

  lemma {:induction false} NoParamsYet(acts: seq<Block>, key: string)
    requires forall p | 0 <= p < |acts| :: acts[p].key != key
    ensures ParamsOf(acts, key) == []
  {
    if acts != [] {
      NoParamsYet(acts[..|acts| - 1], key);
    }
  }

  lemma ClashIsOldOrNew(acts: seq<Block>, last: Block, key: string, name: string)
    requires Clash(acts + [last], key, name)
    ensures Clash(acts, key, name) || (key == last.key && name in Names(ParamsOf(acts, key)) && name in Names(last.params))
  {
    var full := acts + [last];
    var p, q :| 0 <= p < q < |full| && full[p].key == key == full[q].key &&
                name in Names(full[p].params) && name in Names(full[q].params);
    ParamsOfNames(acts, key, name);
    assert full[p] == acts[p];
    if q < |acts| {
      assert full[q] == acts[q];
    }
  }

  lemma ConflictFreeStep(acts: seq<Block>, last: Block)
    requires !Conflict(acts)
    requires forall name | name in Names(last.params) :: name !in Names(ParamsOf(acts, last.key))
    ensures !Conflict(acts + [last])
  {
    forall key, name | Clash(acts + [last], key, name) ensures Conflict(acts) {
      ClashIsOldOrNew(acts, last, key, name);
    }
  }

  lemma ClashFound(acts: seq<Block>, last: Block, name: string, later: seq<Block>)
    requires name in Names(ParamsOf(acts, last.key)) && name in Names(last.params)
    requires acts + [last] <= later
    ensures Clash(later, last.key, name)
  {
    ParamsOfNames(acts, last.key, name);
    var p :| 0 <= p < |acts| && acts[p].key == last.key && name in Names(acts[p].params);
    assert later[p] == (acts + [last])[p] && later[|acts|] == (acts + [last])[|acts|];
  }

  /** Merges one more active block into the groups; the error is a name its group already has. */
  method MergeBlock(ghost acts: seq<Block>, block: Block, ordered: seq<string>, titles: map<string, string>, merged: map<string, seq<Param>>)
    returns (ordered': seq<string>, titles': map<string, string>, merged': map<string, seq<Param>>, duplicate: Option<string>)
    requires MergedSoFar(acts, ordered, titles, merged) && DistinctNames(block.params)
    ensures duplicate.None? ==>
              MergedSoFar(acts + [block], ordered', titles', merged') &&
              forall name | name in Names(block.params) :: name !in Names(ParamsOf(acts, block.key))
    ensures duplicate.Some? ==> duplicate.value in Names(ParamsOf(acts, block.key)) && duplicate.value in Names(block.params)
  {
    ordered', titles', merged', duplicate := ordered, titles, merged, None;
    GroupSoFar(acts, block.key, ordered, titles, merged);
    hide *;
    if block.key !in merged {
      ordered' := ordered + [block.key];
      titles' := titles[block.key := block.title];
      merged' := merged[block.key := []];
    }
    var added := AddParams(merged'[block.key], block.params);
    if added.Err? {
      duplicate := Some(added.error);
      return;
    }
    merged' := merged'[block.key := added.value];
    assert merged' == merged[block.key := added.value];
    MergeOneMore(acts, block, ordered, titles, merged, ordered', titles', merged');
  }

  lemma GroupSoFar(acts: seq<Block>, key: string, ordered: seq<string>, titles: map<string, string>, merged: map<string, seq<Param>>)
    requires MergedSoFar(acts, ordered, titles, merged)
    ensures key in ordered <==> key in merged
    ensures if key in merged then merged[key] == ParamsOf(acts, key) else ParamsOf(acts, key) == []
  {
    assert HoldsGroup(acts, key, ordered, titles, merged);
    KeysCover(acts);
    if key !in ordered {
      NoParamsYet(acts, key);
    }
  }

  lemma NothingMergedYet()
    ensures MergedSoFar([], [], map[], map[]) && !Conflict([])
  {
  }

  /** The groups a form renders for one set of answers, or the refusal of a duplicate parameter. */
  method ResolveForm(blocks: seq<Block>, selections: Answers) returns (r: Result<seq<ParamGroup>, DuplicateParam>)
    requires forall b | b in blocks :: DistinctNames(b.params)
    ensures var acts := ActiveBelow(blocks, Resolved(blocks, selections).active, |blocks|);
            (r.Ok? <==> !Conflict(acts)) &&
            (r.Ok? ==> r.value == Groups(acts)) &&
            (r.Err? ==> Clash(acts, r.error.key, r.error.name))
  {
    var active := Activate(blocks, selections);
    ghost var all := ActiveBelow(blocks, active, |blocks|);
    var ordered: seq<string>, titles: map<string, string>, merged: map<string, seq<Param>> := [], map[], map[];
    NothingMergedYet();
    for index := 0 to |blocks|
      invariant MergedSoFar(ActiveBelow(blocks, active, index), ordered, titles, merged)
      invariant !Conflict(ActiveBelow(blocks, active, index))
    {
      hide MergedSoFar, Conflict, DistinctNames, Names, ParamsOf, Groups, Resolved;
      ghost var acts := ActiveBelow(blocks, active, index);
      ActiveBelowStep(blocks, active, index);
      if index in active {
        var duplicate: Option<string>;
        ghost var next := ActiveBelow(blocks, active, index + 1);
        assert next == acts + [blocks[index]];
        ordered, titles, merged, duplicate := MergeBlock(acts, blocks[index], ordered, titles, merged);
        if duplicate.Some? {
          ActiveBelowGrows(blocks, active, index + 1, |blocks|);
          ClashFound(acts, blocks[index], duplicate.value, all);
          ClashIsConflict(all, blocks[index].key, duplicate.value);
          return Err(DuplicateParam(blocks[index].key, duplicate.value));
        }
        ConflictFreeStep(acts, blocks[index]);
      }
    }
    r := Ok(seq(|ordered|, k requires 0 <= k < |ordered| =>
      ParamGroup(ordered[k],
                 if ordered[k] in titles then titles[ordered[k]] else "",
                 if ordered[k] in merged then merged[ordered[k]] else [])));
    MergedAreGroups(all, ordered, titles, merged, r.value);
  }

  lemma ClashIsConflict(acts: seq<Block>, key: string, name: string)
    requires Clash(acts, key, name)
    ensures Conflict(acts)
  {
  }

  lemma MergedAreGroups(acts: seq<Block>, ordered: seq<string>, titles: map<string, string>, merged: map<string, seq<Param>>, groups: seq<ParamGroup>)
    requires MergedSoFar(acts, ordered, titles, merged) && |groups| == |ordered|
    requires forall k | 0 <= k < |ordered| ::
      ordered[k] in titles && ordered[k] in merged ==> groups[k] == ParamGroup(ordered[k], titles[ordered[k]], merged[ordered[k]])
    ensures groups == Groups(acts)
  {
    forall k | 0 <= k < |ordered| ensures groups[k] == Groups(acts)[k] {
      assert HoldsGroup(acts, ordered[k], ordered, titles, merged);
    }
  }

  /** Append a block's parameters to its group, refusing a name the group already has. */
  method AddParams(present: seq<Param>, params: seq<Param>) returns (r: Result<seq<Param>, string>)
    requires DistinctNames(params)
    ensures r.Ok? ==> r.value == present + params && Names(params) !! Names(present)
    ensures r.Err? ==> r.error in Names(present) && r.error in Names(params)
  {
    var merged := present;
    for k := 0 to |params|
      invariant merged == present + params[..k]
      invariant forall j | 0 <= j < k :: params[j].name !in Names(present)
    {
      var name := params[k].name;
      assert Names(present + params[..k]) == Names(present) + Names(params[..k]);
      if name in Names(merged) {
        assert name !in Names(params[..k]);
        return Err(name);
      }
      merged := merged + [params[k]];
    }
    r := Ok(merged);
  }

  /** The activation loop: passes over the remaining blocks until none is ready. */
  method Activate(blocks: seq<Block>, selections: Answers) returns (active: set<nat>)
    ensures active == Resolved(blocks, selections).active
  {
    var effective := selections;
    active := {};
    var remaining := set index: nat | index < |blocks| && IsIndex(blocks, index);
    while true
      invariant remaining == Indices(blocks) - active
      invariant Settle(blocks, State(active, effective)) == Resolved(blocks, selections)
      decreases remaining
    {
      ghost var s := State(active, effective);
      var newly := set index | index in remaining && Holds(blocks[index].when, effective);
      assert newly == Newly(blocks, s);
      if newly == {} {
        return;
      }
      ghost var i :| i in newly;
      assert i in remaining && i in newly;
      for index := 0 to |blocks|
        invariant FillFrom(blocks, effective, newly, index) == FillFrom(blocks, s.answers, newly, 0)
      {
        if index in newly {
          effective := SetDefaults(effective, blocks[index].params);
        }
      }
      remaining := remaining - newly;
      active := active + newly;
      assert State(active, effective) == Pass(blocks, s);
    }
  }

  method SetDefaults(answers: Answers, params: seq<Param>) returns (filled: Answers)
    ensures filled == WithDefaults(answers, params)
  {
    filled := answers;
    for k := 0 to |params|
      invariant WithDefaults(filled, params[k..]) == WithDefaults(answers, params)
    {
      assert params[k..][1..] == params[k + 1..];
      if params[k].name !in filled {
        filled := filled[params[k].name := params[k].spec.default];
      }
    }
  }
}
