/** The duration of a run before it starts: ramps, settling, measuring and whatever else it names. */
module Estimates {
  import opened PyStrings
  import opened PyValues

  /** Each thing the figure rests on without having been given it. */
  datatype Assumption =
    | NoCostModel
    | CostModelUnreadable
    | CostModelNotACost
    | NoSetpoints
    | SetpointsUnreadable
    | RampsAreConcurrent
    | FirstApproachNotCounted
    | NoRampRate(vi: string, distance: real)
    | Stated(text: string)

  datatype StepCost = StepCost(points: nat, setup: real, settle: real, measure: real, stated: seq<string>)

  /** What reading an optional declaration of the run gives. */
  datatype Declared<T> = Absent | Failed | Given(value: T)

  /** The run's cost hook: it may also return something that is no cost. */
  type CostHook = Declared<Option<StepCost>>

  type Setpoints = map<string, seq<real>>

  type Rates = map<string, real>

  /** What constructing a cost checks. */
  predicate ValidCost(cost: StepCost) {
    cost.setup >= 0.0 && cost.settle >= 0.0 && cost.measure >= 0.0
  }

  predicate ValidHook(hook: CostHook) {
    hook.Given? && hook.value.Some? ==> ValidCost(hook.value.value)
  }

  function Abs(x: real): (r: real)
    ensures r >= 0.0 && (r == x || r == -x)
  {
    if x < 0.0 then -x else x
  }

  /** The whole way through the setpoints, in order. */
  function Distance(values: seq<real>): (d: real)
    ensures d >= 0.0
  {
    if |values| < 2 then 0.0 else Abs(values[1] - values[0]) + Distance(values[1..])
  }

  function RampTime(distance: real, rate: real): real
    requires rate > 0.0
  {
    distance / rate * 60.0
  }

  /** An instrument whose ramps are counted. */
  predicate IsRated(vi: string, targets: Setpoints, rates: Rates) {
    vi in targets && Distance(targets[vi]) > 0.0 && vi in rates && rates[vi] > 0.0
  }

  /** An instrument that moves at no known rate. */
  predicate IsUnrated(vi: string, targets: Setpoints, rates: Rates) {
    vi in targets && Distance(targets[vi]) > 0.0 && (vi !in rates || rates[vi] <= 0.0)
  }

  /** The time of the slowest counted instrument outside `rest`, and zero when there is none. */
  ghost predicate IsSlowestOutside(seconds: real, rest: set<string>, targets: Setpoints, rates: Rates) {
    seconds >= 0.0 &&
    (forall vi | IsRated(vi, targets, rates) && vi !in rest :: RampTime(Distance(targets[vi]), rates[vi]) <= seconds) &&
    (seconds == 0.0 || exists vi :: IsRated(vi, targets, rates) && seconds == RampTime(Distance(targets[vi]), rates[vi]))
  }

  /** The time of the slowest counted instrument, and zero when none is counted. */
  ghost predicate IsSlowest(seconds: real, targets: Setpoints, rates: Rates) {
    IsSlowestOutside(seconds, {}, targets, rates)
  }

  /** One assumption for each unrated instrument among some names, alphabetically. */
  ghost function NotCounted(names: set<string>, targets: Setpoints, rates: Rates): seq<Assumption>
    decreases names
  {
    if names == {} then []
    else
      var vi := Least(names);
      (if IsUnrated(vi, targets, rates) then [NoRampRate(vi, Distance(targets[vi]))] else []) + NotCounted(names - {vi}, targets, rates)
  }

  class Assumptions {
    var list: seq<Assumption>

    constructor ()
      ensures list == []
    {
      list := [];
    }

    method Append(one: Assumption)
      modifies this
      ensures list == old(list) + [one]
    {
      list := list + [one];
    }

    method Extend(stated: seq<string>)
      modifies this
      ensures list == old(list) + seq(|stated|, k requires 0 <= k < |stated| => Stated(stated[k]))
    {
      list := list + seq(|stated|, k requires 0 <= k < |stated| => Stated(stated[k]));
    }
  }

  method TotalDistance(values: seq<real>) returns (distance: real)
    ensures distance == Distance(values)
  {
    distance := 0.0;
    assert values[0..] == values;
    for k := 0 to if values == [] then 0 else |values| - 1
      invariant distance + Distance(values[k..]) == Distance(values)
    {
      assert values[k..][1..] == values[k + 1..];
      distance := distance + Abs(values[k + 1] - values[k]);
    }
  }

  lemma SlowestOneMore(slowest: real, vi: string, rest: set<string>, targets: Setpoints, rates: Rates)
    requires IsSlowestOutside(slowest, rest, targets, rates)
    ensures IsSlowestOutside(
              if IsRated(vi, targets, rates) && RampTime(Distance(targets[vi]), rates[vi]) > slowest
              then RampTime(Distance(targets[vi]), rates[vi]) else slowest,
              rest - {vi}, targets, rates)
  {
    hide RampTime, Distance;
  }

  /** Counts one instrument's ramps, or names it where its rate is not known. */
  method CountRamp(vi: string, targets: Setpoints, rates: Rates, slowest: real, assumptions: Assumptions) returns (slower: real)
    requires vi in targets
    modifies assumptions
    ensures assumptions.list == old(assumptions.list) +
              if IsUnrated(vi, targets, rates) then [NoRampRate(vi, Distance(targets[vi]))] else []
    ensures if IsRated(vi, targets, rates) && RampTime(Distance(targets[vi]), rates[vi]) > slowest
            then slower == RampTime(Distance(targets[vi]), rates[vi]) else slower == slowest
  {
    slower := slowest;
    var distance := TotalDistance(targets[vi]);
    if distance <= 0.0 {
      return;
    }
    if vi !in rates || rates[vi] <= 0.0 {
      assumptions.Append(NoRampRate(vi, distance));
      return;
    }
    var seconds := RampTime(distance, rates[vi]);
    if seconds > slowest {
      slower := seconds;
    }
  }

  lemma NotCountedOneMore(names: set<string>, targets: Setpoints, rates: Rates)
    requires names != {}
    ensures var vi := Least(names);
            NotCounted(names, targets, rates) ==
            (if IsUnrated(vi, targets, rates) then [NoRampRate(vi, Distance(targets[vi]))] else []) + NotCounted(names - {vi}, targets, rates)
  {
  }

  lemma NothingCountedYet(targets: Setpoints, rates: Rates)
    ensures IsSlowestOutside(0.0, targets.Keys, targets, rates) && NotCounted({}, targets, rates) == []
  {
  }

  method SlowestRamp(targets: Setpoints, rates: Rates, assumptions: Assumptions) returns (slowest: real)
    modifies assumptions
    ensures IsSlowestOutside(slowest, {}, targets, rates)
    ensures assumptions.list == old(assumptions.list) + NotCounted(targets.Keys, targets, rates)
  {
    NothingCountedYet(targets, rates);
    hide *;
    slowest := 0.0;
    var names := targets.Keys;
    while names != {}
      invariant names <= targets.Keys && IsSlowestOutside(slowest, names, targets, rates)
      invariant assumptions.list + NotCounted(names, targets, rates) == old(assumptions.list) + NotCounted(targets.Keys, targets, rates)
      decreases names
    {
      var vi := Least(names);
      LeastIsOne(names);
      SlowestOneMore(slowest, vi, names, targets, rates);
      NotCountedOneMore(names, targets, rates);
      RatedIsATarget(vi, targets, rates);
      slowest := CountRamp(vi, targets, rates, slowest, assumptions);
      names := names - {vi};
    }
    assert assumptions.list + [] == assumptions.list;
  }

  lemma LeastIsOne(names: set<string>)
    requires names != {}
    ensures Least(names) in names
  {
  }

  lemma RatedIsATarget(vi: string, targets: Setpoints, rates: Rates)
    ensures IsRated(vi, targets, rates) ==> vi in targets && vi in rates && rates[vi] > 0.0
    ensures IsUnrated(vi, targets, rates) ==> vi in targets
  {
  }

  /** The slowest instrument's ramping time; every instrument that moves at no known rate is named. */
  method RampSeconds(planned: Declared<Setpoints>, rates: Rates, assumptions: Assumptions) returns (slowest: real)
    modifies assumptions
    ensures if planned.Given? then IsSlowest(slowest, planned.value, rates) else slowest == 0.0
    ensures slowest >= 0.0
    ensures assumptions.list == old(assumptions.list) + RampAssumed(planned, rates)
  {
    if !planned.Given? {
      assumptions.Append(if planned.Absent? then NoSetpoints else SetpointsUnreadable);
      return 0.0;
    }
    assumptions.Append(RampsAreConcurrent);
    assumptions.Append(FirstApproachNotCounted);
    slowest := SlowestRamp(planned.value, rates, assumptions);
  }

  /** The run's own cost, or none of it where the hook gives none. */
  function CostOf(hook: CostHook): StepCost {
    if hook.Given? && hook.value.Some? then hook.value.value else StepCost(0, 0.0, 0.0, 0.0, [])
  }

  /** What reading the cost hook leaves to assume. */
  function CostAssumed(hook: CostHook): seq<Assumption> {
    match hook
    case Absent => [NoCostModel]
    case Failed => [CostModelUnreadable]
    case Given(None) => [CostModelNotACost]
    case Given(Some(cost)) => seq(|cost.stated|, k requires 0 <= k < |cost.stated| => Stated(cost.stated[k]))
  }

  method ReadStepCost(hook: CostHook, assumptions: Assumptions) returns (cost: StepCost)
    modifies assumptions
    ensures cost == CostOf(hook) && assumptions.list == old(assumptions.list) + CostAssumed(hook)
  {
    cost := StepCost(0, 0.0, 0.0, 0.0, []);
    match hook {
      case Absent => assumptions.Append(NoCostModel);
      case Failed => assumptions.Append(CostModelUnreadable);
      case Given(None) => assumptions.Append(CostModelNotACost);
      case Given(Some(given)) =>
        assumptions.Extend(given.stated);
        cost := given;
    }
  }

  /** What reading the setpoints leaves to assume. */
  ghost function RampAssumed(planned: Declared<Setpoints>, rates: Rates): seq<Assumption> {
    match planned
    case Absent => [NoSetpoints]
    case Failed => [SetpointsUnreadable]
    case Given(targets) => [RampsAreConcurrent, FirstApproachNotCounted] + NotCounted(targets.Keys, targets, rates)
  }

  datatype Estimate = Estimate(total: real, setup: real, ramp: real, settle: real, measure: real, assumptions: seq<Assumption>)

  lemma CostIsValid(hook: CostHook)
    requires ValidHook(hook)
    ensures ValidCost(CostOf(hook))
  {
  }

  lemma CostMeans(hook: CostHook)
    ensures hook.Given? && hook.value.Some? ==> CostOf(hook) == hook.value.value
    ensures !(hook.Given? && hook.value.Some?) ==>
              CostOf(hook).setup == Times(CostOf(hook).settle, 0) == Times(CostOf(hook).measure, 0) == 0.0 && CostOf(hook).points == 0
  {
    OneMorePoint(CostOf(hook).settle, 0);
    OneMorePoint(CostOf(hook).measure, 0);
    hide Times;
  }

  /** What some points cost together. */
  function Times(each: real, points: nat): real {
    each * points as real
  }

  lemma OneMorePoint(each: real, points: nat)
    ensures Times(each, 0) == 0.0 && Times(each, points + 1) == Times(each, points) + each
    ensures each >= 0.0 ==> Times(each, points) >= 0.0
  {
    assert (points + 1) as real == points as real + 1.0;
  }

  /** The estimate: the settle wait is paid before every point but the first, the measurement at every
      point. The phases are never negative. */
  method EstimateDuration(hook: CostHook, planned: Declared<Setpoints>, rates: Rates) returns (e: Estimate)
    requires ValidHook(hook)
    ensures e.total == e.setup + e.ramp + e.settle + e.measure
    ensures e.setup >= 0.0 && e.ramp >= 0.0 && e.settle >= 0.0 && e.measure >= 0.0
    ensures !(hook.Given? && hook.value.Some?) ==> e.setup == e.settle == e.measure == 0.0
    ensures hook.Given? && hook.value.Some? ==>
              var cost := hook.value.value;
              && e.setup == cost.setup
              && e.settle == Times(cost.settle, if cost.points > 0 then cost.points - 1 else 0)
              && e.measure == Times(cost.measure, cost.points)
    ensures if planned.Given? then IsSlowest(e.ramp, planned.value, rates) else e.ramp == 0.0
    ensures e.assumptions == CostAssumed(hook) + RampAssumed(planned, rates)
  {
    CostIsValid(hook);
    CostMeans(hook);
    hide *;
    var assumptions := new Assumptions();
    AssumptionsStart(CostAssumed(hook));
    var cost := ReadStepCost(hook, assumptions);
    var ramp := RampSeconds(planned, rates, assumptions);
    PhasesAreNotNegative(cost);
    var settle, measure := Times(cost.settle, if cost.points > 0 then cost.points - 1 else 0), Times(cost.measure, cost.points);
    e := Estimate(cost.setup + ramp + settle + measure, cost.setup, ramp, settle, measure, assumptions.list);
  }

  lemma PhasesAreNotNegative(cost: StepCost)
    requires ValidCost(cost)
    ensures cost.setup >= 0.0 && Times(cost.settle, if cost.points > 0 then cost.points - 1 else 0) >= 0.0
    ensures Times(cost.measure, cost.points) >= 0.0
  {
    OneMorePoint(cost.settle, if cost.points > 0 then cost.points - 1 else 0);
    OneMorePoint(cost.measure, cost.points);
    hide Times;
  }

  lemma AssumptionsStart(assumed: seq<Assumption>)
    ensures [] + assumed == assumed
  {
  }

  /** Something is always assumed; the two assumptions of the ramp model are stated exactly when the
      setpoints could be read; and every instrument that moves at no known rate is named, with how far
      it would travel, and no other is. */
  lemma AssumptionsAreExplicit(hook: CostHook, planned: Declared<Setpoints>, rates: Rates)
    ensures var all := CostAssumed(hook) + RampAssumed(planned, rates);
      && all != []
      && (RampsAreConcurrent in all && FirstApproachNotCounted in all <==> planned.Given?)
      && forall vi, d :: NoRampRate(vi, d) in all <==>
           planned.Given? && vi in planned.value && d == Distance(planned.value[vi]) && d > 0.0 && (vi !in rates || rates[vi] <= 0.0)
  {
    var cost, ramp := CostAssumed(hook), RampAssumed(planned, rates);
    assert forall a | a in cost :: a.NoCostModel? || a.CostModelUnreadable? || a.CostModelNotACost? || a.Stated?;
    if planned.Given? {
      NotCountedNames(planned.value.Keys, planned.value, rates);
      assert ramp[0] == RampsAreConcurrent && ramp[1] == FirstApproachNotCounted;
    }
    hide CostAssumed, NotCounted, Distance;
    assert forall a :: a in cost + ramp <==> a in cost || a in ramp;
  }

  lemma {:induction false} NotCountedNames(names: set<string>, targets: Setpoints, rates: Rates)
    ensures forall a | a in NotCounted(names, targets, rates) :: a.NoRampRate?
    ensures forall vi, d :: NoRampRate(vi, d) in NotCounted(names, targets, rates) <==>
              vi in names && IsUnrated(vi, targets, rates) && d == Distance(targets[vi])
    decreases names
  {
    if names != {} {
      NotCountedNames(names - {Least(names)}, targets, rates);
    }
  }

  // ---- what the ramp phase means ----

  /** Rates are per minute and times in seconds. */
  lemma RatesArePerMinute(distance: real, rate: real)
    requires rate > 0.0
    ensures RampTime(distance, rate) * rate == distance * 60.0
  {
    assert distance / rate * rate == distance;
    assert distance / rate * 60.0 * rate == distance / rate * rate * 60.0;
  }

  /** Each further setpoint adds how far it lies from the one before it, whichever way. */
  lemma {:induction false} DistanceOneMore(values: seq<real>, x: real)
    ensures values == [] ==> Distance(values + [x]) == 0.0
    ensures values != [] ==>
              var last := values[|values| - 1];
              Distance(values + [x]) == Distance(values) + if x >= last then x - last else last - x
    decreases |values|
  {
    if |values| == 1 {
      assert (values + [x])[1..] == [x];
    } else if |values| > 1 {
      assert (values + [x])[1..] == values[1..] + [x];
      DistanceOneMore(values[1..], x);
    }
  }

  /** The instrument moves, at a known rate. */
  predicate MovesAtARate(vi: string, targets: Setpoints, rates: Rates) {
    vi in targets && Distance(targets[vi]) > 0.0 && vi in rates && rates[vi] > 0.0
  }

  /** So many seconds are enough for the whole way at the rate, which is per minute. */
  predicate Suffices(seconds: real, distance: real, rate: real) {
    distance * 60.0 <= seconds * rate
  }

  predicate IsAllOf(seconds: real, distance: real, rate: real) {
    distance * 60.0 == seconds * rate
  }

  lemma RampTimeSuffices(seconds: real, distance: real, rate: real)
    requires rate > 0.0
    ensures RampTime(distance, rate) <= seconds ==> Suffices(seconds, distance, rate)
    ensures seconds == RampTime(distance, rate) ==> IsAllOf(seconds, distance, rate)
  {
    RatesArePerMinute(distance, rate);
    var time := RampTime(distance, rate);
    hide RampTime;
    if time <= seconds {
      TimesRate(time, seconds, rate);
    }
  }

  /** The ramp phase suffices every counted instrument to go its whole way at its rate, one of them needs
      all of it, and it is nothing where none moves at a known rate. */
  lemma RampPhaseIsJustEnough(seconds: real, targets: Setpoints, rates: Rates)
    requires IsSlowest(seconds, targets, rates)
    ensures forall vi | MovesAtARate(vi, targets, rates) :: Suffices(seconds, Distance(targets[vi]), rates[vi])
    ensures seconds == 0.0 || exists vi :: MovesAtARate(vi, targets, rates) && IsAllOf(seconds, Distance(targets[vi]), rates[vi])
  {
    hide RampTime, Distance, Suffices, IsAllOf;
    forall vi | MovesAtARate(vi, targets, rates) ensures Suffices(seconds, Distance(targets[vi]), rates[vi]) {
      assert IsRated(vi, targets, rates);
      RampTimeSuffices(seconds, Distance(targets[vi]), rates[vi]);
    }
    if seconds != 0.0 {
      var vi :| IsRated(vi, targets, rates) && seconds == RampTime(Distance(targets[vi]), rates[vi]);
      RampTimeSuffices(seconds, Distance(targets[vi]), rates[vi]);
      assert MovesAtARate(vi, targets, rates);
    }
  }

  lemma TimesRate(a: real, b: real, rate: real)
    requires a <= b && rate > 0.0
    ensures a * rate <= b * rate
  {
  }

  lemma {:induction false} AtLeastStraight(values: seq<real>)
    requires values != []
    ensures Abs(values[|values| - 1] - values[0]) <= Distance(values)
    decreases |values|
  {
    if |values| > 1 {
      AtLeastStraight(values[1..]);
    }
  }

  predicate Rising(values: seq<real>) {
    forall k | 0 <= k < |values| - 1 :: values[k] <= values[k + 1]
  }

  predicate Falling(values: seq<real>) {
    forall k | 0 <= k < |values| - 1 :: values[k] >= values[k + 1]
  }

  /** The way through the setpoints is the straight line exactly when they never turn back. */
  lemma {:induction false} StraightIffNeverTurning(values: seq<real>)
    requires values != []
    ensures Distance(values) == Abs(values[|values| - 1] - values[0]) <==> Rising(values) || Falling(values)
    ensures Rising(values) ==> values[0] <= values[|values| - 1]
    ensures Falling(values) ==> values[0] >= values[|values| - 1]
    ensures Distance(values) == 0.0 ==> Rising(values) && Falling(values)
    decreases |values|
  {
    if |values| > 1 {
      var rest := values[1..];
      StraightIffNeverTurning(rest);
      AtLeastStraight(rest);
      assert Rising(values) <==> values[0] <= rest[0] && Rising(rest);
      assert Falling(values) <==> values[0] >= rest[0] && Falling(rest);
    }
  }

  lemma RampTimeGrows(d: real, e: real, rate: real, slower: real)
    requires 0.0 <= d <= e && 0.0 < slower <= rate
    ensures RampTime(d, rate) <= RampTime(e, slower)
  {
    assert d / rate <= e / rate;
    assert e / rate <= e / slower;
  }

  /** Exactly one ramp time is the slowest. */
  lemma SlowestIsUnique(a: real, b: real, targets: Setpoints, rates: Rates)
    requires IsSlowest(a, targets, rates) && IsSlowest(b, targets, rates)
    ensures a == b
  {
    hide RampTime, Distance;
  }

  /** The ramp phase is never shorter than any counted instrument's straight way from its first setpoint
      to its last. */
  lemma NoInstrumentBeatsItsStraightLine(seconds: real, targets: Setpoints, rates: Rates, vi: string)
    requires IsSlowest(seconds, targets, rates)
    requires vi in targets && targets[vi] != [] && vi in rates && rates[vi] > 0.0
    ensures RampTime(Abs(targets[vi][|targets[vi]| - 1] - targets[vi][0]), rates[vi]) <= seconds
  {
    var straight := Abs(targets[vi][|targets[vi]| - 1] - targets[vi][0]);
    AtLeastStraight(targets[vi]);
    RampTimeGrows(straight, Distance(targets[vi]), rates[vi], rates[vi]);
    assert straight == 0.0 ==> RampTime(straight, rates[vi]) == 0.0;
  }

  /** `some` is what is left of `all` after leaving out setpoints. */
  predicate IsSubsequence(some: seq<real>, all: seq<real>)
    decreases |all|
  {
    some == [] ||
    (all != [] && ((some[0] == all[0] && IsSubsequence(some[1..], all[1..])) || IsSubsequence(some, all[1..])))
  }

  lemma {:induction false} LeavingOutAfter(x: real, some: seq<real>, all: seq<real>)
    requires IsSubsequence(some, all)
    ensures Distance([x] + some) <= Distance([x] + all)
    decreases |all|
  {
    assert ([x] + some)[1..] == some && ([x] + all)[1..] == all;
    if some != [] {
      if some[0] == all[0] && IsSubsequence(some[1..], all[1..]) {
        LeavingOutAfter(some[0], some[1..], all[1..]);
        assert [some[0]] + some[1..] == some && [all[0]] + all[1..] == all;
      } else {
        LeavingOutAfter(x, some, all[1..]);
        assert ([x] + all[1..])[1..] == all[1..];
      }
    }
  }

  /** Leaving out setpoints never makes the way longer. */
  lemma {:induction false} LeavingOutShortens(some: seq<real>, all: seq<real>)
    requires IsSubsequence(some, all)
    ensures Distance(some) <= Distance(all)
    decreases |all|
  {
    if some != [] {
      if some[0] == all[0] && IsSubsequence(some[1..], all[1..]) {
        LeavingOutAfter(some[0], some[1..], all[1..]);
        assert [some[0]] + some[1..] == some && [all[0]] + all[1..] == all;
      } else {
        LeavingOutShortens(some, all[1..]);
      }
    }
  }

  /** With fewer setpoints and no slower rates the ramp phase never gets longer. */
  lemma FewerSetpointsNeverTakeLonger(longer: real, targets: Setpoints, slower: Rates, shorter: real, fewer: Setpoints, rates: Rates)
    requires IsSlowest(longer, targets, slower) && IsSlowest(shorter, fewer, rates)
    requires forall vi | vi in fewer :: vi in targets && IsSubsequence(fewer[vi], targets[vi])
    requires forall vi | vi in rates && rates[vi] > 0.0 :: vi in slower && 0.0 < slower[vi] <= rates[vi]
    ensures shorter <= longer
  {
    if shorter > 0.0 {
      var vi :| IsRated(vi, fewer, rates) && shorter == RampTime(Distance(fewer[vi]), rates[vi]);
      LeavingOutShortens(fewer[vi], targets[vi]);
      RampTimeGrows(Distance(fewer[vi]), Distance(targets[vi]), rates[vi], slower[vi]);
      assert IsRated(vi, targets, slower);
    }
  }
}
