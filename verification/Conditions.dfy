/** Turning the active conditions into an enforcement verdict. */
module Conditions {
  import opened PyStrings
  import opened PyValues

  datatype Severity = Advisory | Hold | Critical

  datatype Origin = Comm | Safety | Envelope | Trend

  datatype Condition = Condition(
    key: string,
    origin: Origin,
    severity: Severity,
    kind: string,
    sourceVis: seq<string>,
    affectedVis: Option<set<string>>,
    message: string,
    since: real,
    acknowledged: bool)

  /** What construction enforces: a critical condition is station-wide, a hold names who it holds. */
  predicate Valid(c: Condition) {
    c.key != "" && (c.severity.Critical? ==> c.affectedVis.None?) &&
    (c.severity.Hold? ==> c.affectedVis.Some? && c.affectedVis.value != {})
  }

  predicate AllValid(cs: seq<Condition>) {
    forall c | c in cs :: Valid(c)
  }

  datatype Verdict = Verdict(held: map<string, Condition>, emergency: seq<Condition>, runFailure: Option<(string, Condition)>)

  // ---- sorting by key ----

  /** A condition placed before the first one whose key is not smaller. */
  function Insert(c: Condition, s: seq<Condition>): seq<Condition> {
    if s == [] || AtMost(c.key, s[0].key) then [c] + s else [s[0]] + Insert(c, s[1..])
  }

  /** Python's stable sort by key: conditions with equal keys keep the order they came in. */
  function Sorted(cs: seq<Condition>): seq<Condition> {
    if cs == [] then [] else Insert(cs[0], Sorted(cs[1..]))
  }

  predicate IsSorted(s: seq<Condition>) {
    forall i, j | 0 <= i < j < |s| :: AtMost(s[i].key, s[j].key)
  }

  lemma FirstIsSmallest(c: Condition, s: seq<Condition>)
    requires IsSorted(s) && s != [] && AtMost(c.key, s[0].key)
    ensures IsSorted([c] + s)
  {
    forall j | 0 <= j < |s| ensures AtMost(c.key, s[j].key) {
      BeforeIsTransitive(c.key, s[0].key, s[j].key);
    }
  }

  lemma SmallestFirst(c: Condition, s: seq<Condition>)
    requires IsSorted(s) && forall other | other in s :: AtMost(c.key, other.key)
    ensures IsSorted([c] + s)
  {
  }

  lemma TailIsSorted(s: seq<Condition>)
    requires IsSorted(s) && s != []
    ensures IsSorted(s[1..])
  {
  }

  lemma InsertedLater(c: Condition, s: seq<Condition>, rest: seq<Condition>)
    requires IsSorted(s) && s != [] && !AtMost(c.key, s[0].key) && IsSorted(rest)
    requires multiset(rest) == multiset{c} + multiset(s[1..])
    ensures IsSorted([s[0]] + rest) && multiset([s[0]] + rest) == multiset{c} + multiset(s)
  {
    BeforeIsTotal(c.key, s[0].key);
    hide Before;
    assert s == [s[0]] + s[1..];
    forall other | other in rest ensures AtMost(s[0].key, other.key) {
      assert other in multiset(rest);
      assert other == c || other in s[1..];
    }
    hide AtMost;
    SmallestFirst(s[0], rest);
  }

  lemma {:induction false} InsertSorts(c: Condition, s: seq<Condition>)
    requires IsSorted(s)
    ensures IsSorted(Insert(c, s)) && multiset(Insert(c, s)) == multiset{c} + multiset(s)
    decreases |s|
  {
    if s != [] && AtMost(c.key, s[0].key) {
      FirstIsSmallest(c, s);
    } else if s != [] {
      TailIsSorted(s);
      hide AtMost, IsSorted;
      InsertSorts(c, s[1..]);
      InsertedLater(c, s, Insert(c, s[1..]));
    }
  }

  lemma {:induction false} SortedSorts(cs: seq<Condition>)
    ensures IsSorted(Sorted(cs)) && multiset(Sorted(cs)) == multiset(cs)
    decreases |cs|
  {
    if cs != [] {
      SortedSorts(cs[1..]);
      InsertSorts(cs[0], Sorted(cs[1..]));
      assert cs == [cs[0]] + cs[1..];
    }
  }

  // ---- the verdict ----

  /** The instruments a condition holds. */
  function Scope(c: Condition): set<string> {
    if c.severity.Hold? && c.affectedVis.Some? then c.affectedVis.value else {}
  }

  /** The union of the hold scopes. */
  function HeldNames(cs: seq<Condition>): set<string> {
    set c, vi | c in cs && vi in Scope(c) :: vi
  }

  /** The hold that wins an instrument: the smallest key, the earliest condition among equal keys. */
  function Winner(cs: seq<Condition>, vi: string): Option<Condition> {
    if cs == [] then None
    else
      var later := Winner(cs[1..], vi);
      if vi in Scope(cs[0]) && (later.None? || AtMost(cs[0].key, later.value.key)) then Some(cs[0]) else later
  }

  function Criticals(cs: seq<Condition>): seq<Condition> {
    if cs == [] then []
    else (if cs[0].severity.Critical? then [cs[0]] else []) + Criticals(cs[1..])
  }

  lemma {:induction false} WinnerIsSmallestKey(cs: seq<Condition>, vi: string)
    ensures Winner(cs, vi).Some? <==> vi in HeldNames(cs)
    ensures var w := Winner(cs, vi);
            w.Some? ==> w.value in cs && vi in Scope(w.value) && forall c | c in cs && vi in Scope(c) :: AtMost(w.value.key, c.key)
    decreases |cs|
  {
    if cs != [] {
      assert cs == [cs[0]] + cs[1..];
      WinnerIsSmallestKey(cs[1..], vi);
      var w, later := Winner(cs, vi), Winner(cs[1..], vi);
      if w.Some? {
        forall c | c in cs && vi in Scope(c) ensures AtMost(w.value.key, c.key) {
          if c in cs[1..] && w.value == cs[0] {
            BeforeIsTransitive(cs[0].key, later.value.key, c.key);
          } else if later.Some? {
            BeforeIsTotal(cs[0].key, later.value.key);
          }
        }
      }
    }
  }

  function Held(cs: seq<Condition>): (held: map<string, Condition>) {
    map vi | vi in HeldNames(cs) && Winner(cs, vi).Some? :: Winner(cs, vi).value
  }

  /** The verdict on a set of conditions. */
  function Decided(cs: seq<Condition>, watched: set<string>, runActive: bool): Verdict {
    var held := Held(cs);
    var stopped := watched * held.Keys;
    Verdict(held, Criticals(Sorted(cs)), if runActive && stopped != {} then Some((Least(stopped), held[Least(stopped)])) else None)
  }

  // ---- the computation, over the sorted conditions ----

  /** The first hold of an instrument in a list. */
  function FirstHold(s: seq<Condition>, vi: string): Option<Condition> {
    if s == [] then None else if vi in Scope(s[0]) then Some(s[0]) else FirstHold(s[1..], vi)
  }

  lemma {:induction false} FirstHoldIsOneOf(s: seq<Condition>, vi: string)
    ensures FirstHold(s, vi).Some? ==> FirstHold(s, vi).value in s
    decreases |s|
  {
    if s != [] {
      FirstHoldIsOneOf(s[1..], vi);
    }
  }

  lemma {:induction false} FirstHoldAfterInsert(c: Condition, s: seq<Condition>, vi: string)
    requires IsSorted(s)
    ensures var later := FirstHold(s, vi);
            FirstHold(Insert(c, s), vi) ==
            if vi in Scope(c) && (later.None? || AtMost(c.key, later.value.key)) then Some(c) else later
    decreases |s|
  {
    FirstHoldIsOneOf(s, vi);
    if s == [] {
      assert ([c] + s)[1..] == s;
    } else if AtMost(c.key, s[0].key) {
      assert ([c] + s)[1..] == s;
      forall k | 0 <= k < |s| ensures AtMost(c.key, s[k].key) {
        BeforeIsTransitive(c.key, s[0].key, s[k].key);
      }
    } else {
      FirstHoldAfterInsert(c, s[1..], vi);
      assert ([s[0]] + Insert(c, s[1..]))[1..] == Insert(c, s[1..]);
    }
  }

  /** On the sorted list the first hold of an instrument is the one that wins it. */
  lemma {:induction false} FirstHoldOfSorted(cs: seq<Condition>, vi: string)
    ensures FirstHold(Sorted(cs), vi) == Winner(cs, vi)
    decreases |cs|
  {
    if cs != [] {
      FirstHoldOfSorted(cs[1..], vi);
      SortedSorts(cs[1..]);
      FirstHoldAfterInsert(cs[0], Sorted(cs[1..]), vi);
    }
  }

  lemma {:induction false} FirstHoldOneMore(s: seq<Condition>, c: Condition, vi: string)
    ensures FirstHold(s + [c], vi) ==
            if FirstHold(s, vi).Some? then FirstHold(s, vi) else if vi in Scope(c) then Some(c) else None
    decreases |s|
  {
    if s != [] {
      assert (s + [c])[1..] == s[1..] + [c];
      FirstHoldOneMore(s[1..], c, vi);
    }
  }

  /** `held` maps exactly the instruments held in `s`, each to its first hold. */
  ghost predicate HoldsFirst(held: map<string, Condition>, s: seq<Condition>) {
    forall vi :: FirstHold(s, vi) == if vi in held then Some(held[vi]) else None
  }

  lemma HoldsFirstOfSorted(held: map<string, Condition>, cs: seq<Condition>)
    requires HoldsFirst(held, Sorted(cs))
    ensures held == Held(cs)
  {
    forall vi ensures Winner(cs, vi) == if vi in held then Some(held[vi]) else None {
      FirstHoldOfSorted(cs, vi);
    }
    forall vi ensures vi in held <==> vi in HeldNames(cs) {
      WinnerIsSmallestKey(cs, vi);
    }
  }

  /** Every instrument of a hold's scope, unless an earlier hold has it. */
  method SetDefaults(before: map<string, Condition>, c: Condition) returns (held: map<string, Condition>)
    ensures held.Keys == before.Keys + Scope(c)
    ensures forall vi | vi in held :: held[vi] == if vi in before then before[vi] else c
  {
    held := before;
    var todo := Scope(c);
    while todo != {}
      invariant todo <= Scope(c) && held.Keys == before.Keys + (Scope(c) - todo)
      invariant forall vi | vi in held :: held[vi] == if vi in before then before[vi] else c
      decreases todo
    {
      var vi :| vi in todo;
      if vi !in held {
        held := held[vi := c];
      }
      todo := todo - {vi};
    }
  }

  method Decide(cs: seq<Condition>, watched: set<string>, runActive: bool) returns (v: Verdict)
    requires AllValid(cs)
    ensures v == Decided(cs, watched, runActive)
  {
    var ordered := Sorted(cs);
    var emergency := Criticals(ordered);
    var held: map<string, Condition> := map[];
    for k := 0 to |ordered|
      invariant HoldsFirst(held, ordered[..k])
    {
      ghost var before := held;
      assert ordered[..k + 1] == ordered[..k] + [ordered[k]];
      if ordered[k].severity.Hold? {
        held := SetDefaults(held, ordered[k]);
      }
      forall vi ensures FirstHold(ordered[..k + 1], vi) == if vi in held then Some(held[vi]) else None {
        FirstHoldOneMore(ordered[..k], ordered[k], vi);
      }
    }
    assert ordered[..|ordered|] == ordered;
    HoldsFirstOfSorted(held, cs);
    var runFailure := None;
    if runActive {
      var stopped := watched * held.Keys;
      if stopped != {} {
        var first := Least(stopped);
        runFailure := Some((first, held[first]));
      }
    }
    v := Verdict(held, emergency, runFailure);
  }

  // ---- what the verdict says ----

  lemma {:induction false} CriticalsKeepOrder(s: seq<Condition>)
    requires IsSorted(s)
    ensures IsSorted(Criticals(s))
    ensures forall c | c in Criticals(s) :: c in s && c.severity.Critical?
    decreases |s|
  {
    if s != [] {
      CriticalsKeepOrder(s[1..]);
      var rest := Criticals(s[1..]);
      forall k | 0 <= k < |rest| ensures AtMost(s[0].key, rest[k].key) {
        assert rest[k] in s[1..];
      }
    }
  }

  lemma {:induction false} CriticalsCount(s: seq<Condition>, c: Condition)
    ensures multiset(Criticals(s))[c] == if c.severity.Critical? then multiset(s)[c] else 0
    decreases |s|
  {
    if s != [] {
      CriticalsCount(s[1..], c);
      assert s == [s[0]] + s[1..];
    }
  }

  /** Every hold holds its whole scope, each instrument under its smallest key; the emergencies are
      exactly the critical conditions, in key order; the run fails on the alphabetically first
      watched instrument held, and only while a run is active. */
  lemma WhatTheVerdictSays(cs: seq<Condition>, watched: set<string>, runActive: bool)
    ensures var v := Decided(cs, watched, runActive);
      && v.held.Keys == HeldNames(cs)
      && (forall vi | vi in v.held :: v.held[vi] in cs && vi in Scope(v.held[vi]) &&
            forall c | c in cs && vi in Scope(c) :: AtMost(v.held[vi].key, c.key))
      && IsSorted(v.emergency) && (forall c :: multiset(v.emergency)[c] == if c.severity.Critical? then multiset(cs)[c] else 0)
      && (v.runFailure.Some? <==> runActive && watched * HeldNames(cs) != {})
      && (v.runFailure.Some? ==>
            (var (name, c) := v.runFailure.value; IsLeast(name, watched * HeldNames(cs)) && c == v.held[name]))
  {
    forall vi ensures vi in Held(cs) <==> vi in HeldNames(cs) {
      WinnerIsSmallestKey(cs, vi);
    }
    forall vi | vi in Held(cs)
      ensures Held(cs)[vi] in cs && vi in Scope(Held(cs)[vi])
      ensures forall c | c in cs && vi in Scope(c) :: AtMost(Held(cs)[vi].key, c.key)
    {
      WinnerIsSmallestKey(cs, vi);
    }
    assert Held(cs).Keys == HeldNames(cs);
    SortedSorts(cs);
    CriticalsKeepOrder(Sorted(cs));
    forall c ensures multiset(Criticals(Sorted(cs)))[c] == if c.severity.Critical? then multiset(cs)[c] else 0 {
      CriticalsCount(Sorted(cs), c);
    }
  }

  // ---- the verdict in the conditions' own terms ----

  /** The condition is a hold that names the instrument. */
  ghost predicate NamesIt(c: Condition, vi: string) {
    c.severity == Hold && exists names :: c.affectedVis == Some(names) && vi in names
  }

  lemma ScopeMeans(c: Condition, vi: string)
    ensures vi in Scope(c) <==> NamesIt(c, vi)
  {
  }

  /** The hold that wins an instrument is the first, in the order given, among those with the smallest key. */
  lemma {:induction false} WinnerIsFirst(cs: seq<Condition>, vi: string) returns (j: nat)
    requires Winner(cs, vi).Some?
    ensures j < |cs| && cs[j] == Winner(cs, vi).value
    ensures forall i | 0 <= i < j && vi in Scope(cs[i]) :: !AtMost(cs[i].key, cs[j].key)
    decreases |cs|
  {
    hide Scope;
    var later := Winner(cs[1..], vi);
    if vi in Scope(cs[0]) && (later.None? || AtMost(cs[0].key, later.value.key)) {
      j := 0;
    } else {
      j := WinnerIsFirst(cs[1..], vi);
      j := j + 1;
      forall i | 0 <= i < j && vi in Scope(cs[i]) ensures !AtMost(cs[i].key, cs[j].key) {
        assert i > 0 ==> cs[i] == cs[1..][i - 1];
      }
    }
  }

  /** An instrument is held exactly when some hold names it, by the hold whose key comes first of those that
      do, and among equal keys by the one given first. */
  lemma HeldByTheFirstKey(cs: seq<Condition>, watched: set<string>, runActive: bool, vi: string)
    ensures var held := Decided(cs, watched, runActive).held;
            (vi in held <==> exists c :: c in cs && NamesIt(c, vi)) &&
            (vi in held ==>
               exists j :: 0 <= j < |cs| && held[vi] == cs[j] && NamesIt(cs[j], vi) &&
                 forall i | 0 <= i < |cs| && NamesIt(cs[i], vi) ::
                   ComesFirst(cs[j].key, cs[i].key) || (cs[i].key == cs[j].key && j <= i))
  {
    WinnerIsSmallestKey(cs, vi);
    forall c ensures vi in Scope(c) <==> NamesIt(c, vi) {
      ScopeMeans(c, vi);
    }
    hide Scope, NamesIt;
    if vi in HeldNames(cs) {
      var j := WinnerIsFirst(cs, vi);
      hide Winner;
      forall i | 0 <= i < |cs| && NamesIt(cs[i], vi)
        ensures ComesFirst(cs[j].key, cs[i].key) || (cs[i].key == cs[j].key && j <= i)
      {
        assert cs[i] in cs;
        BeforeIsTotal(cs[j].key, cs[i].key);
        BeforeIff(cs[j].key, cs[i].key);
      }
    }
  }

  /** The critical conditions with one key, in order. */
  function CriticalsWithKey(cs: seq<Condition>, key: string): seq<Condition> {
    if cs == [] then []
    else (if cs[0].severity == Critical && cs[0].key == key then [cs[0]] else []) + CriticalsWithKey(cs[1..], key)
  }

  lemma {:induction false} InsertKeepsOrder(c: Condition, s: seq<Condition>, key: string)
    ensures CriticalsWithKey(Insert(c, s), key) == CriticalsWithKey([c], key) + CriticalsWithKey(s, key)
    decreases |s|
  {
    assert [c][1..] == [] && CriticalsWithKey([], key) == [];
    if s == [] || AtMost(c.key, s[0].key) {
      assert ([c] + s)[1..] == s;
    } else {
      InsertKeepsOrder(c, s[1..], key);
      assert ([s[0]] + Insert(c, s[1..]))[1..] == Insert(c, s[1..]);
      assert c.key != s[0].key;
    }
  }

  lemma {:induction false} SortedKeepsOrder(cs: seq<Condition>, key: string)
    ensures CriticalsWithKey(Sorted(cs), key) == CriticalsWithKey(cs, key)
    decreases |cs|
  {
    hide Insert;
    if cs != [] {
      SortedKeepsOrder(cs[1..], key);
      InsertKeepsOrder(cs[0], Sorted(cs[1..]), key);
      assert [cs[0]][1..] == [] && CriticalsWithKey([], key) == [];
    }
  }

  lemma {:induction false} CriticalsKeepKeys(s: seq<Condition>, key: string)
    ensures CriticalsWithKey(Criticals(s), key) == CriticalsWithKey(s, key)
    decreases |s|
  {
    if s != [] {
      CriticalsKeepKeys(s[1..], key);
      var rest := Criticals(s[1..]);
      assert ([s[0]] + rest)[1..] == rest;
      assert [] + rest == rest;
    }
  }

  /** The emergencies come in the order of their keys, those with one key in the order they were given,
      and each critical condition is one of them. */
  lemma EmergenciesInOrder(cs: seq<Condition>, watched: set<string>, runActive: bool)
    ensures var e := Decided(cs, watched, runActive).emergency;
            (forall i, j | 0 <= i < j < |e| :: e[i].key == e[j].key || ComesFirst(e[i].key, e[j].key)) &&
            (forall c | c in e :: c.severity == Critical) && forall key :: CriticalsWithKey(e, key) == CriticalsWithKey(cs, key)
  {
    var e := Criticals(Sorted(cs));
    SortedSorts(cs);
    CriticalsKeepOrder(Sorted(cs));
    forall i, j | 0 <= i < j < |e| ensures e[i].key == e[j].key || ComesFirst(e[i].key, e[j].key) {
      BeforeIff(e[i].key, e[j].key);
    }
    forall key ensures CriticalsWithKey(e, key) == CriticalsWithKey(cs, key) {
      CriticalsKeepKeys(Sorted(cs), key);
      SortedKeepsOrder(cs, key);
    }
  }

  /** The run fails exactly when one is active and a watched instrument is held, for the watched held
      instrument whose name comes first. */
  lemma RunFailsOnTheFirstName(cs: seq<Condition>, watched: set<string>, runActive: bool)
    ensures var v := Decided(cs, watched, runActive);
            (v.runFailure.Some? <==> runActive && exists vi :: vi in watched && vi in v.held) &&
            (v.runFailure.Some? ==>
               var (name, c) := v.runFailure.value;
               name in watched && name in v.held && c == v.held[name] &&
               forall vi | vi in watched && vi in v.held :: vi == name || ComesFirst(name, vi))
  {
    var v := Decided(cs, watched, runActive);
    var stopped := watched * v.held.Keys;
    forall vi ensures vi in stopped <==> vi in watched && vi in v.held {
    }
    if stopped != {} {
      var vi :| vi in stopped;
      assert vi in watched && vi in v.held;
    }
    if v.runFailure.Some? {
      var name := v.runFailure.value.0;
      assert IsLeast(name, stopped);
      forall vi | vi in watched && vi in v.held ensures vi == name || ComesFirst(name, vi) {
        assert vi in stopped;
        BeforeIff(name, vi);
      }
    }
  }

  // ---- when the order of the conditions does not matter ----

  predicate Reordered(p: seq<Condition>, q: seq<Condition>) {
    multiset(p) == multiset(q)
  }

  /** Two different critical conditions share a key. */
  predicate CriticalTie(cs: seq<Condition>) {
    exists a, b | a in cs && b in cs :: a != b && a.severity.Critical? && b.severity.Critical? && a.key == b.key
  }

  /** A condition that holds an instrument with the smallest key of all that do. */
  predicate HoldsFirmest(cs: seq<Condition>, vi: string, c: Condition) {
    c in cs && vi in Scope(c) && forall other | other in cs && vi in Scope(other) :: AtMost(c.key, other.key)
  }

  /** Two different conditions share the smallest key of the holds of one instrument. */
  predicate HoldTie(cs: seq<Condition>) {
    exists a, b, vi | a in cs && b in cs && vi in Scope(a) :: a != b && HoldsFirmest(cs, vi, a) && HoldsFirmest(cs, vi, b)
  }

  lemma InReordered(p: seq<Condition>, q: seq<Condition>, c: Condition)
    requires Reordered(p, q)
    ensures c in p <==> c in q
  {
    assert c in p <==> c in multiset(p);
    assert c in q <==> c in multiset(q);
  }

  predicate NoTwoShareAKey(s: seq<Condition>) {
    forall a, b | a in s && b in s && a.key == b.key :: a == b
  }

  lemma HeadsAgree(p: seq<Condition>, q: seq<Condition>)
    requires Reordered(p, q) && IsSorted(p) && IsSorted(q) && NoTwoShareAKey(p) && p != [] && q != []
    ensures p[0] == q[0]
  {
    InReordered(p, q, p[0]);
    InReordered(p, q, q[0]);
    assert p[0] in p && q[0] in q;
    var i :| 0 <= i < |p| && p[i] == q[0];
    var j :| 0 <= j < |q| && q[j] == p[0];
    BeforeIsTotal(p[0].key, q[0].key);
    hide Before;
    assert AtMost(p[0].key, p[i].key) && AtMost(q[0].key, q[j].key);
  }

  lemma RestIsSorted(p: seq<Condition>)
    requires p != [] && IsSorted(p)
    ensures IsSorted(p[1..])
  {
    hide AtMost;
  }

  /** Sorted lists of the same conditions are equal when no two different ones share a key. */
  lemma {:induction false} SortedIsUnique(p: seq<Condition>, q: seq<Condition>)
    requires Reordered(p, q) && IsSorted(p) && IsSorted(q) && NoTwoShareAKey(p)
    ensures p == q
    decreases |p|
  {
    hide *;
    SameLength(p, q);
    if p != [] {
      HeadsAgree(p, q);
      RestIsSorted(p);
      RestIsSorted(q);
      RestSharesNoKey(p);
      RestReordered(p, q);
      SortedIsUnique(p[1..], q[1..]);
      assert p == [p[0]] + p[1..] && q == [q[0]] + q[1..];
    }
  }

  lemma SameLength(p: seq<Condition>, q: seq<Condition>)
    requires Reordered(p, q)
    ensures |p| == |q|
  {
    assert |p| == |multiset(p)| == |multiset(q)| == |q|;
  }

  lemma RestSharesNoKey(p: seq<Condition>)
    requires p != [] && NoTwoShareAKey(p)
    ensures NoTwoShareAKey(p[1..])
  {
    assert forall c | c in p[1..] :: c in p;
  }

  lemma RestReordered(p: seq<Condition>, q: seq<Condition>)
    requires p != [] && q != [] && p[0] == q[0] && Reordered(p, q)
    ensures Reordered(p[1..], q[1..])
  {
    assert p == [p[0]] + p[1..] && q == [q[0]] + q[1..];
    assert multiset(p[1..]) == multiset(p) - multiset{p[0]};
    assert multiset(q[1..]) == multiset(q) - multiset{q[0]};
  }

  lemma SameEmergency(p: seq<Condition>, q: seq<Condition>)
    requires Reordered(p, q) && !CriticalTie(p)
    ensures Criticals(Sorted(p)) == Criticals(Sorted(q))
  {
    CriticalsAreSorted(p);
    CriticalsAreSorted(q);
    CriticalsShareNoKey(p);
    hide *;
    SameCriticals(p, q);
    SortedIsUnique(Criticals(Sorted(p)), Criticals(Sorted(q)));
  }

  lemma CriticalsAreSorted(p: seq<Condition>)
    ensures IsSorted(Criticals(Sorted(p)))
  {
    WhatTheVerdictSays(p, {}, false);
  }

  lemma SameCriticals(p: seq<Condition>, q: seq<Condition>)
    requires Reordered(p, q)
    ensures Reordered(Criticals(Sorted(p)), Criticals(Sorted(q)))
  {
    WhatTheVerdictSays(p, {}, false);
    WhatTheVerdictSays(q, {}, false);
    hide Sorted, Criticals, IsSorted;
  }

  lemma CriticalsShareNoKey(p: seq<Condition>)
    requires !CriticalTie(p)
    ensures NoTwoShareAKey(Criticals(Sorted(p)))
  {
    SortedSorts(p);
    CriticalsKeepOrder(Sorted(p));
    hide Sorted, AtMost;
    var e := Criticals(Sorted(p));
    forall a, b | a in e && b in e && a.key == b.key ensures a == b {
      InReordered(Sorted(p), p, a);
      InReordered(Sorted(p), p, b);
    }
  }

  lemma SameWinner(p: seq<Condition>, q: seq<Condition>, vi: string)
    requires Reordered(p, q) && !HoldTie(p)
    ensures Winner(p, vi) == Winner(q, vi)
  {
    WinnerIsSmallestKey(p, vi);
    WinnerIsSmallestKey(q, vi);
    forall c ensures c in p <==> c in q {
      InReordered(p, q, c);
    }
    assert vi in HeldNames(p) <==> vi in HeldNames(q);
    if vi in HeldNames(p) {
      assert HoldsFirmest(p, vi, Winner(p, vi).value);
      assert HoldsFirmest(p, vi, Winner(q, vi).value);
    }
  }

  lemma SameHolds(p: seq<Condition>, q: seq<Condition>)
    requires Reordered(p, q) && !HoldTie(p)
    ensures Held(p) == Held(q)
  {
    hide HoldTie, Winner, HeldNames;
    forall vi ensures Winner(p, vi) == Winner(q, vi) && (vi in HeldNames(p) <==> vi in HeldNames(q)) {
      SameWinner(p, q, vi);
      WinnerIsSmallestKey(p, vi);
      WinnerIsSmallestKey(q, vi);
    }
  }

  lemma WithoutTiesOrderDoesNotMatter(p: seq<Condition>, q: seq<Condition>, watched: set<string>, runActive: bool)
    requires Reordered(p, q) && !CriticalTie(p) && !HoldTie(p)
    ensures Decided(p, watched, runActive) == Decided(q, watched, runActive)
  {
    hide CriticalTie, HoldTie, Held, Sorted;
    SameEmergency(p, q);
    SameHolds(p, q);
  }

  // ---- and when it does ----

  /** The same conditions with one of them first. */
  lemma BroughtToFront(cs: seq<Condition>, c: Condition) returns (rest: seq<Condition>)
    requires c in cs
    ensures Reordered([c] + rest, cs)
  {
    var i :| 0 <= i < |cs| && cs[i] == c;
    rest := cs[..i] + cs[i + 1..];
    assert cs == cs[..i] + [c] + cs[i + 1..];
    assert multiset([c] + rest) == multiset{c} + multiset(cs[..i]) + multiset(cs[i + 1..]);
  }

  /** The first critical condition with a given key. */
  function FirstCritical(s: seq<Condition>, key: string): Option<Condition> {
    if s == [] then None
    else if s[0].severity.Critical? && s[0].key == key then Some(s[0])
    else FirstCritical(s[1..], key)
  }

  lemma {:induction false} FirstCriticalAfterInsert(c: Condition, s: seq<Condition>, key: string)
    ensures FirstCritical(Insert(c, s), key) ==
            if c.severity.Critical? && c.key == key then Some(c) else FirstCritical(s, key)
    decreases |s|
  {
    if s == [] || AtMost(c.key, s[0].key) {
      assert ([c] + s)[1..] == s;
    } else {
      FirstCriticalAfterInsert(c, s[1..], key);
      assert ([s[0]] + Insert(c, s[1..]))[1..] == Insert(c, s[1..]);
    }
  }

  lemma {:induction false} FirstCriticalOfCriticals(s: seq<Condition>, key: string)
    ensures FirstCritical(Criticals(s), key) == FirstCritical(s, key)
    decreases |s|
  {
    if s != [] {
      FirstCriticalOfCriticals(s[1..], key);
      if s[0].severity.Critical? {
        assert ([s[0]] + Criticals(s[1..]))[1..] == Criticals(s[1..]);
      } else {
        assert [] + Criticals(s[1..]) == Criticals(s[1..]);
      }
    }
  }

  /** A critical condition that comes first is the first emergency with its key. */
  lemma FirstComesFirst(c: Condition, rest: seq<Condition>)
    requires c.severity.Critical?
    ensures FirstCritical(Criticals(Sorted([c] + rest)), c.key) == Some(c)
  {
    var cs := [c] + rest;
    assert cs[1..] == rest;
    FirstCriticalAfterInsert(c, Sorted(rest), c.key);
    FirstCriticalOfCriticals(Sorted(cs), c.key);
  }

  /** A firmest hold that comes first wins its instrument. */
  lemma FirstFirmestWins(c: Condition, rest: seq<Condition>, cs: seq<Condition>, vi: string)
    requires Reordered([c] + rest, cs) && HoldsFirmest(cs, vi, c)
    ensures vi in Held([c] + rest) && Held([c] + rest)[vi] == c
  {
    var front := [c] + rest;
    assert front[1..] == rest;
    WinnerIsSmallestKey(rest, vi);
    WinnerIsSmallestKey(front, vi);
    var later := Winner(rest, vi);
    if later.Some? {
      assert later.value in front;
      InReordered(front, cs, later.value);
    }
  }

  lemma TieDependsOnOrder(cs: seq<Condition>, watched: set<string>, runActive: bool) returns (q: seq<Condition>)
    requires CriticalTie(cs) || HoldTie(cs)
    ensures Reordered(q, cs) && Decided(q, watched, runActive) != Decided(cs, watched, runActive)
  {
    if CriticalTie(cs) {
      var a, b :| a in cs && b in cs && a != b && a.severity.Critical? && b.severity.Critical? && a.key == b.key;
      var afterA := BroughtToFront(cs, a);
      var afterB := BroughtToFront(cs, b);
      FirstComesFirst(a, afterA);
      FirstComesFirst(b, afterB);
      q := if Decided([a] + afterA, watched, runActive) == Decided(cs, watched, runActive) then [b] + afterB else [a] + afterA;
    } else {
      var a, b, vi :| a in cs && b in cs && vi in Scope(a) && a != b && HoldsFirmest(cs, vi, a) && HoldsFirmest(cs, vi, b);
      var afterA := BroughtToFront(cs, a);
      var afterB := BroughtToFront(cs, b);
      FirstFirmestWins(a, afterA, cs, vi);
      FirstFirmestWins(b, afterB, cs, vi);
      q := if Decided([a] + afterA, watched, runActive) == Decided(cs, watched, runActive) then [b] + afterB else [a] + afterA;
    }
  }

  /** The verdict ignores the order of the conditions exactly when no two different criticals share a
      key and no instrument has two different holds that share its smallest key. */
  lemma OrderIsIgnoredIffNoTies(cs: seq<Condition>, watched: set<string>, runActive: bool)
    ensures (forall q | Reordered(cs, q) :: Decided(q, watched, runActive) == Decided(cs, watched, runActive))
            <==> !CriticalTie(cs) && !HoldTie(cs)
  {
    if CriticalTie(cs) || HoldTie(cs) {
      var q := TieDependsOnOrder(cs, watched, runActive);
      assert Reordered(cs, q);
    } else {
      forall q | Reordered(cs, q) ensures Decided(q, watched, runActive) == Decided(cs, watched, runActive) {
        WithoutTiesOrderDoesNotMatter(cs, q, watched, runActive);
      }
    }
  }

  /** Conditions whose keys are all different always get one verdict. */
  lemma DistinctKeysIgnoreOrder(cs: seq<Condition>, q: seq<Condition>, watched: set<string>, runActive: bool)
    requires forall a, b | a in cs && b in cs && a.key == b.key :: a == b
    requires Reordered(cs, q)
    ensures Decided(q, watched, runActive) == Decided(cs, watched, runActive)
  {
    forall a, b, vi | a in cs && HoldsFirmest(cs, vi, a) && HoldsFirmest(cs, vi, b) ensures a == b {
      BeforeIsTotal(a.key, b.key);
    }
    OrderIsIgnoredIffNoTies(cs, watched, runActive);
  }
}
