/** The guarded-form evaluator: which blocks of a form declaration a set of answers activates. */
module Forms {
  import opened PyValues
  import opened ParamSpecs

  type Answers = map<string, Value>

  predicate AcceptedBy(c: Condition, value: Value) {
    exists k :: 0 <= k < |c.accepted| && SameValue(value, c.accepted[k])
  }

  /** A guard holds when every parameter it names is answered with an accepted value. */
  predicate Holds(guard: seq<Condition>, answers: Answers) {
    forall c | c in guard :: c.name in answers && AcceptedBy(c, answers[c.name])
  }

  /** The evaluator's state: the blocks activated so far and the answers in force. */
  datatype State = State(active: set<nat>, answers: Answers)

  function Start(selections: Answers): State {
    State({}, selections)
  }

  predicate IsIndex(blocks: seq<Block>, i: nat) {
    i < |blocks|
  }

  function Indices(blocks: seq<Block>): (all: set<nat>) {
    set i: nat | i < |blocks| && IsIndex(blocks, i)
  }

  predicate Ready(blocks: seq<Block>, s: State, i: nat) {
    i < |blocks| && i !in s.active && Holds(blocks[i].when, s.answers)
  }

  function Newly(blocks: seq<Block>, s: State): (newly: set<nat>) {
    set i: nat | i < |blocks| && Ready(blocks, s, i)
  }

  /** A parameter without an answer is answered with its own default. */
  function WithDefaults(answers: Answers, params: seq<Param>): Answers
    decreases |params|
  {
    if params == [] then answers
    else
      var p := params[0];
      WithDefaults(if p.name in answers then answers else answers[p.name := p.spec.default], params[1..])
  }

  /** Fill the defaults of the blocks of `newly` numbered `k` and above, in declaration order. */
  function FillFrom(blocks: seq<Block>, answers: Answers, newly: set<nat>, k: nat): Answers
    requires k <= |blocks|
    decreases |blocks| - k
  {
    if k == |blocks| then answers
    else FillFrom(blocks, if k in newly then WithDefaults(answers, blocks[k].params) else answers, newly, k + 1)
  }

  /** One pass: activate together every block whose guard holds now. */
  function Pass(blocks: seq<Block>, s: State): State {
    State(s.active + Newly(blocks, s), FillFrom(blocks, s.answers, Newly(blocks, s), 0))
  }

  function Settle(blocks: seq<Block>, s: State): State
    decreases Indices(blocks) - s.active
  {
    if Newly(blocks, s) == {} then s
    else
      var i :| i in Newly(blocks, s);
      assert i in Indices(blocks) - s.active && i !in Indices(blocks) - Pass(blocks, s).active;
      Settle(blocks, Pass(blocks, s))
  }

  /** Where the evaluation of a form ends for one set of answers. */
  function Resolved(blocks: seq<Block>, selections: Answers): State {
    Settle(blocks, Start(selections))
  }

  // ---- what one activation does to the answers ----

  ghost predicate Extends(later: Answers, earlier: Answers) {
    earlier.Keys <= later.Keys && forall n | n in earlier :: later[n] == earlier[n]
  }

  /** One of the parameters is named `n` and has default `d`. */
  ghost predicate GivesDefault(params: seq<Param>, n: string, d: Value) {
    exists k :: 0 <= k < |params| && params[k].name == n && params[k].spec.default == d
  }

  /** Block `i` declares parameter `n` with default `d`. */
  ghost predicate Declares(blocks: seq<Block>, i: nat, n: string, d: Value) {
    i < |blocks| && GivesDefault(blocks[i].params, n, d)
  }

  lemma DefaultOfFront(params: seq<Param>, n: string, d: Value)
    requires params != []
    ensures GivesDefault(params, params[0].name, params[0].spec.default)
    ensures GivesDefault(params[1..], n, d) ==> GivesDefault(params, n, d)
  {
    if GivesDefault(params[1..], n, d) {
      var k :| 0 <= k < |params[1..]| && params[1..][k].name == n && params[1..][k].spec.default == d;
      assert params[k + 1].name == n;
    }
  }

  lemma WithDefaultsAnswers(answers: Answers, params: seq<Param>)
    ensures Extends(WithDefaults(answers, params), answers)
    ensures WithDefaults(answers, params).Keys == answers.Keys + Names(params)
    ensures forall n | n in WithDefaults(answers, params) && n !in answers ::
              GivesDefault(params, n, WithDefaults(answers, params)[n])
    decreases |params|
  {
    if params == [] {
      assert Names(params) == {};
    } else {
      var p, rest := params[0], params[1..];
      var next := if p.name in answers then answers else answers[p.name := p.spec.default];
      WithDefaultsFront(answers, params);
      hide Names, GivesDefault, WithDefaults;
      WithDefaultsAnswers(next, rest);
      NamesFront(params);
      var full := WithDefaults(answers, params);
      forall n | n in full && n !in answers ensures GivesDefault(params, n, full[n]) {
        DefaultOfFront(params, n, full[n]);
      }
    }
  }

  lemma WithDefaultsFront(answers: Answers, params: seq<Param>)
    requires params != []
    ensures var p := params[0];
            WithDefaults(answers, params) ==
            WithDefaults(if p.name in answers then answers else answers[p.name := p.spec.default], params[1..])
  {
  }

  lemma NamesFront(params: seq<Param>)
    requires params != []
    ensures Names(params) == {params[0].name} + Names(params[1..])
  {
    assert params == [params[0]] + params[1..];
  }

  /** Some block of `some` declares parameter `n` with default `d`. */
  ghost predicate DeclaredIn(blocks: seq<Block>, some: set<nat>, n: string, d: Value) {
    exists i :: i in some && Declares(blocks, i, n, d)
  }

  lemma {:induction false} FillFromExtends(blocks: seq<Block>, answers: Answers, newly: set<nat>, k: nat)
    requires k <= |blocks|
    ensures Extends(FillFrom(blocks, answers, newly, k), answers)
    ensures forall i: nat, n | k <= i < |blocks| && i in newly && n in Names(blocks[i].params) :: n in FillFrom(blocks, answers, newly, k)
    decreases |blocks| - k
  {
    if k < |blocks| {
      WithDefaultsAnswers(answers, blocks[k].params);
      FillFromExtends(blocks, if k in newly then WithDefaults(answers, blocks[k].params) else answers, newly, k + 1);
    }
  }

  lemma {:induction false} FillFromOrigin(blocks: seq<Block>, answers: Answers, newly: set<nat>, k: nat, n: string)
    requires k <= |blocks|
    requires n in FillFrom(blocks, answers, newly, k) && n !in answers
    ensures DeclaredIn(blocks, newly, n, FillFrom(blocks, answers, newly, k)[n])
    decreases |blocks| - k
  {
    if k < |blocks| {
      var next := if k in newly then WithDefaults(answers, blocks[k].params) else answers;
      if n in next {
        WithDefaultsAnswers(answers, blocks[k].params);
        FillFromExtends(blocks, next, newly, k + 1);
        assert Declares(blocks, k, n, next[n]);
      } else {
        FillFromOrigin(blocks, next, newly, k + 1, n);
      }
    }
  }

  /** Every activated block's guard holds, and every answer is the caller's or an active block's default. */
  ghost predicate Sound(blocks: seq<Block>, selections: Answers, s: State) {
    (forall i | i in s.active :: i < |blocks| && Holds(blocks[i].when, s.answers)) &&
    Extends(s.answers, selections) &&
    (forall i, n | i in s.active && n in Names(blocks[i].params) :: n in s.answers) &&
    forall n | n in s.answers && n !in selections :: DeclaredIn(blocks, s.active, n, s.answers[n])
  }

  lemma PassIsSound(blocks: seq<Block>, selections: Answers, s: State)
    requires Sound(blocks, selections, s)
    ensures Sound(blocks, selections, Pass(blocks, s))
    ensures Extends(Pass(blocks, s).answers, s.answers)
  {
    var newly, t := Newly(blocks, s), Pass(blocks, s);
    FillFromExtends(blocks, s.answers, newly, 0);
    forall n | n in t.answers && n !in selections
      ensures DeclaredIn(blocks, t.active, n, t.answers[n])
    {
      if n in s.answers {
        var i :| i in s.active && Declares(blocks, i, n, s.answers[n]);
        assert i in t.active;
      } else {
        FillFromOrigin(blocks, s.answers, newly, 0, n);
        var i :| i in newly && Declares(blocks, i, n, t.answers[n]);
        assert i in t.active;
      }
    }
  }

  lemma {:induction false} SettleIsSound(blocks: seq<Block>, selections: Answers, s: State)
    requires Sound(blocks, selections, s)
    ensures Sound(blocks, selections, Settle(blocks, s))
    ensures Newly(blocks, Settle(blocks, s)) == {}
    decreases Indices(blocks) - s.active
  {
    if Newly(blocks, s) != {} {
      var i :| i in Newly(blocks, s);
      assert i in Indices(blocks) - s.active && i !in Indices(blocks) - Pass(blocks, s).active;
      PassIsSound(blocks, selections, s);
      SettleIsSound(blocks, selections, Pass(blocks, s));
    }
  }

  /** On exit a block is active exactly when its guard holds on the final answers; the caller's
      own answers are never overwritten; every other answer is the default of an active block. */
  lemma ActiveIffGuardHolds(blocks: seq<Block>, selections: Answers)
    ensures var s := Resolved(blocks, selections);
            (forall i: nat | i < |blocks| :: i in s.active <==> Holds(blocks[i].when, s.answers)) &&
            s.active <= Indices(blocks) && Extends(s.answers, selections) &&
            (forall i, n | i in s.active && n in Names(blocks[i].params) :: n in s.answers) &&
            (forall n | n in s.answers && n !in selections :: DeclaredIn(blocks, s.active, n, s.answers[n]))
  {
    SettleIsSound(blocks, selections, Start(selections));
    var s := Resolved(blocks, selections);
    forall i: nat | i < |blocks| && Holds(blocks[i].when, s.answers)
      ensures i in s.active
    {
      assert i !in Newly(blocks, s);
    }
  }

  // ---- what a guard accepts, said without the evaluator's own predicates ----

  /** The number a cell of a table row counts as: in a row a boolean is Python's 1 or 0. */
  ghost predicate CountsAs(x: Scalar, r: real) {
    match x
    case Bool(b) => r == if b then 1.0 else 0.0
    case Int(i) => r == i as real
    case Float(f) => r == f
    case _ => false
  }

  /** Two cells of table rows are equal: texts and nulls only to themselves, numbers by value. */
  ghost predicate SameCell(x: Scalar, y: Scalar) {
    match x
    case Null => y == Null
    case Str(s) => y == Str(s)
    case _ => exists r :: CountsAs(x, r) && CountsAs(y, r)
  }

  /** Two answers are the same to a guard. A text equals only itself, a number only a number of the same
      value, and a boolean only itself: never the 1 or 0 that Python takes it for. */
  ghost predicate SameAnswer(x: Value, y: Value) {
    match x
    case One(Null) => y == One(Null)
    case One(Str(s)) => y == One(Str(s))
    case One(Bool(b)) => y == One(Bool(b))
    case One(Int(i)) => y == One(Int(i)) || y == One(Float(i as real))
    case One(Float(r)) => y == One(Float(r)) || exists i: int :: y == One(Int(i)) && r == i as real
    case Table(rows) =>
      y.Table? && |y.rows| == |rows| && forall k | 0 <= k < |rows| ::
        rows[k].Keys == y.rows[k].Keys && forall name | name in rows[k] :: SameCell(rows[k][name], y.rows[k][name])
  }

  lemma CellsAreEqual(x: Scalar, y: Scalar)
    ensures ScalarEq(x, y) <==> SameCell(x, y)
  {
    if IsNumeric(x) {
      assert CountsAs(x, AsReal(x));
    }
    if IsNumeric(y) {
      assert CountsAs(y, AsReal(y));
    }
  }

  lemma AnswersAreEqual(x: Value, y: Value)
    ensures SameValue(x, y) <==> SameAnswer(x, y)
  {
    if x.Table? && y.Table? && |x.rows| == |y.rows| {
      forall k, name | 0 <= k < |x.rows| && x.rows[k].Keys == y.rows[k].Keys && name in x.rows[k]
        ensures ScalarEq(x.rows[k][name], y.rows[k][name]) <==> SameCell(x.rows[k][name], y.rows[k][name])
      {
        CellsAreEqual(x.rows[k][name], y.rows[k][name]);
      }
      hide ScalarEq, SameCell;
    }
  }

  /** Some value the condition lists, wherever it stands in the list, is the answer. */
  ghost predicate IsAnsweredBy(c: Condition, answer: Value) {
    exists k :: 0 <= k < |c.accepted| && SameAnswer(answer, c.accepted[k])
  }

  lemma AcceptedIffListed(c: Condition, answer: Value)
    ensures AcceptedBy(c, answer) <==> IsAnsweredBy(c, answer)
  {
    forall k | 0 <= k < |c.accepted| ensures SameValue(answer, c.accepted[k]) <==> SameAnswer(answer, c.accepted[k]) {
      AnswersAreEqual(answer, c.accepted[k]);
    }
    hide SameValue, SameAnswer;
  }

  /** For every form and answers a block is active exactly when every parameter its guard names has, in
      the end, an answer equal to one of the values listed for it. */
  lemma ActiveIffEveryConditionIsAnswered(blocks: seq<Block>, selections: Answers, i: nat)
    requires i < |blocks|
    ensures var s := Resolved(blocks, selections);
            i in s.active <==> forall c | c in blocks[i].when :: c.name in s.answers && IsAnsweredBy(c, s.answers[c.name])
  {
    ActiveIffGuardHolds(blocks, selections);
    var s := Resolved(blocks, selections);
    forall c | c in blocks[i].when && c.name in s.answers
      ensures AcceptedBy(c, s.answers[c.name]) <==> IsAnsweredBy(c, s.answers[c.name])
    {
      AcceptedIffListed(c, s.answers[c.name]);
    }
    hide AcceptedBy, IsAnsweredBy, Resolved;
  }

  // ---- resolving again, and the least active set ----

  lemma {:induction false} NothingLeftToFill(blocks: seq<Block>, answers: Answers, newly: set<nat>, k: nat)
    requires k <= |blocks|
    requires forall i: nat, n | i < |blocks| && i in newly && n in Names(blocks[i].params) :: n in answers
    ensures FillFrom(blocks, answers, newly, k) == answers
    decreases |blocks| - k
  {
    if k < |blocks| {
      WithDefaultsAnswers(answers, blocks[k].params);
      assert k in newly ==> WithDefaults(answers, blocks[k].params) == answers;
      NothingLeftToFill(blocks, answers, newly, k + 1);
    }
  }

  /** Resolving again with the final answers activates the same blocks and changes no answer. */
  lemma ResolvingAgainChangesNothing(blocks: seq<Block>, selections: Answers)
    ensures Resolved(blocks, Resolved(blocks, selections).answers) == Resolved(blocks, selections)
  {
    var s := Resolved(blocks, selections);
    ActiveIffGuardHolds(blocks, selections);
    var again := Start(s.answers);
    assert Newly(blocks, again) == s.active;
    NothingLeftToFill(blocks, s.answers, s.active, 0);
    var next := Pass(blocks, again);
    assert next == s;
    assert Newly(blocks, s) == {};
    if s.active != {} {
      assert Settle(blocks, again) == Settle(blocks, next);
    }
  }

  /** A guard read declaratively: every parameter it names has an accepted value, the caller's
      answer when there is one and otherwise a default declared by some block of `some`. */
  ghost predicate HoldsOn(blocks: seq<Block>, selections: Answers, some: set<nat>, guard: seq<Condition>) {
    forall c | c in guard :: MetOn(blocks, selections, some, c)
  }

  ghost predicate MetOn(blocks: seq<Block>, selections: Answers, some: set<nat>, c: Condition) {
    if c.name in selections then AcceptedBy(c, selections[c.name])
    else exists d :: DeclaredIn(blocks, some, c.name, d) && AcceptedBy(c, d)
  }

  /** `some` contains every block whose guard holds on the selections and the defaults of `some`. */
  ghost predicate Closed(blocks: seq<Block>, selections: Answers, some: set<nat>) {
    forall i: nat | i < |blocks| :: HoldsOn(blocks, selections, some, blocks[i].when) ==> i in some
  }

  /** No guard can tell two defaults declared for an unanswered parameter apart. */
  ghost predicate DefaultsReadAlike(blocks: seq<Block>, selections: Answers) {
    forall j: nat, c, a: nat, b: nat, d, e |
      j < |blocks| && c in blocks[j].when && c.name !in selections &&
      Declares(blocks, a, c.name, d) && Declares(blocks, b, c.name, e) && AcceptedBy(c, d) :: AcceptedBy(c, e)
  }

  lemma ReadyMeansHoldsOn(blocks: seq<Block>, selections: Answers, s: State, some: set<nat>, i: nat)
    requires Sound(blocks, selections, s) && Ready(blocks, s, i) && s.active <= some
    ensures HoldsOn(blocks, selections, some, blocks[i].when)
  {
    forall c | c in blocks[i].when
      ensures MetOn(blocks, selections, some, c)
    {
      if c.name !in selections {
        var j :| j in s.active && Declares(blocks, j, c.name, s.answers[c.name]);
        assert DeclaredIn(blocks, some, c.name, s.answers[c.name]);
      }
    }
  }

  /** A settled state is closed when the guards cannot tell same-named defaults apart. */
  lemma SettledIsClosed(blocks: seq<Block>, selections: Answers, s: State)
    requires Sound(blocks, selections, s) && Newly(blocks, s) == {}
    requires DefaultsReadAlike(blocks, selections)
    ensures Closed(blocks, selections, s.active)
  {
    forall i: nat | i < |blocks| && HoldsOn(blocks, selections, s.active, blocks[i].when)
      ensures i in s.active
    {
      forall c | c in blocks[i].when
        ensures c.name in s.answers && AcceptedBy(c, s.answers[c.name])
      {
        assert MetOn(blocks, selections, s.active, c);
        if c.name !in selections {
          var d :| DeclaredIn(blocks, s.active, c.name, d) && AcceptedBy(c, d);
          var a :| a in s.active && Declares(blocks, a, c.name, d);
          var b :| b in s.active && Declares(blocks, b, c.name, s.answers[c.name]);
        }
      }
      assert i !in Newly(blocks, s);
    }
  }

  lemma {:induction false} SettleStaysWithin(blocks: seq<Block>, selections: Answers, s: State, some: set<nat>)
    requires Sound(blocks, selections, s) && s.active <= some && Closed(blocks, selections, some)
    ensures Settle(blocks, s).active <= some
    decreases Indices(blocks) - s.active
  {
    if Newly(blocks, s) != {} {
      var i :| i in Newly(blocks, s);
      assert i in Indices(blocks) - s.active && i !in Indices(blocks) - Pass(blocks, s).active;
      PassIsSound(blocks, selections, s);
      forall j | j in Newly(blocks, s)
        ensures j in some
      {
        ReadyMeansHoldsOn(blocks, selections, s, some, j);
      }
      SettleStaysWithin(blocks, selections, Pass(blocks, s), some);
    }
  }

  /** The active set lies in every closed set; when the guards cannot tell same-named defaults
      apart it is itself closed, so it is the least one. */
  lemma ActiveSetIsLeast(blocks: seq<Block>, selections: Answers)
    ensures forall some | Closed(blocks, selections, some) :: Resolved(blocks, selections).active <= some
    ensures DefaultsReadAlike(blocks, selections) ==> Closed(blocks, selections, Resolved(blocks, selections).active)
  {
    var s := Start(selections);
    forall some | Closed(blocks, selections, some)
      ensures Resolved(blocks, selections).active <= some
    {
      SettleStaysWithin(blocks, selections, s, some);
    }
    SettleIsSound(blocks, selections, s);
    if DefaultsReadAlike(blocks, selections) {
      SettledIsClosed(blocks, selections, Resolved(blocks, selections));
    }
  }

  // ---- activating one block at a time, in any order ----

  function Activate(blocks: seq<Block>, s: State, i: nat): State
    requires i < |blocks|
  {
    State(s.active + {i}, WithDefaults(s.answers, blocks[i].params))
  }

  /** `t` is reached from `s` by activating the blocks of `order` one at a time, each when ready. */
  ghost predicate Reaches(blocks: seq<Block>, s: State, order: seq<nat>, t: State)
    decreases |order|
  {
    if order == [] then s == t
    else Ready(blocks, s, order[0]) && Reaches(blocks, Activate(blocks, s, order[0]), order[1..], t)
  }

  lemma ActivateIsSound(blocks: seq<Block>, selections: Answers, s: State, i: nat)
    requires Sound(blocks, selections, s) && Ready(blocks, s, i)
    ensures Sound(blocks, selections, Activate(blocks, s, i))
  {
    var t := Activate(blocks, s, i);
    WithDefaultsAnswers(s.answers, blocks[i].params);
    forall n | n in t.answers && n !in selections
      ensures DeclaredIn(blocks, t.active, n, t.answers[n])
    {
      if n in s.answers {
        var j :| j in s.active && Declares(blocks, j, n, s.answers[n]);
        assert j in t.active;
      } else {
        assert Declares(blocks, i, n, t.answers[n]);
      }
    }
  }

  lemma {:induction false} ReachedIsSoundAndWithin(blocks: seq<Block>, selections: Answers, s: State, order: seq<nat>, t: State, some: set<nat>)
    requires Sound(blocks, selections, s) && Reaches(blocks, s, order, t)
    requires Closed(blocks, selections, some) && s.active <= some
    ensures Sound(blocks, selections, t) && t.active <= some
    decreases |order|
  {
    if order != [] {
      ActivateIsSound(blocks, selections, s, order[0]);
      ReadyMeansHoldsOn(blocks, selections, s, some, order[0]);
      ReachedIsSoundAndWithin(blocks, selections, Activate(blocks, s, order[0]), order[1..], t, some);
    }
  }

  /** Same-named parameters share one default. */
  ghost predicate DefaultsAgree(blocks: seq<Block>) {
    forall a: nat, b: nat, n, d, e | Declares(blocks, a, n, d) && Declares(blocks, b, n, e) :: d == e
  }

  lemma SameAnswers(blocks: seq<Block>, selections: Answers, s: State, t: State)
    requires DefaultsAgree(blocks)
    requires Sound(blocks, selections, s) && Sound(blocks, selections, t) && s.active == t.active
    ensures s == t
  {
    forall n | n in s.answers
      ensures n in t.answers && s.answers[n] == t.answers[n]
    {
      AnswersTransfer(blocks, selections, s, t, n);
    }
    forall n | n in t.answers
      ensures n in s.answers
    {
      AnswersTransfer(blocks, selections, t, s, n);
    }
    assert s.answers == t.answers;
  }

  lemma AnswersTransfer(blocks: seq<Block>, selections: Answers, s: State, t: State, n: string)
    requires DefaultsAgree(blocks) && n in s.answers
    requires Sound(blocks, selections, s) && Sound(blocks, selections, t) && s.active == t.active
    ensures n in t.answers && s.answers[n] == t.answers[n]
  {
    if n !in selections {
      var i :| i in s.active && Declares(blocks, i, n, s.answers[n]);
      var k :| 0 <= k < |blocks[i].params| && blocks[i].params[k].name == n;
      assert n in Names(blocks[i].params);
      assert n in t.answers;
      var j :| j in t.active && Declares(blocks, j, n, t.answers[n]);
    }
  }

  /** Confluence: however the ready blocks are picked one at a time, a run that cannot go on has
      activated the blocks the batched evaluation activates; with one default per name it has the
      same answers too. */
  lemma AnyOrderSettlesTheSame(blocks: seq<Block>, selections: Answers, order: seq<nat>, t: State)
    requires DefaultsReadAlike(blocks, selections)
    requires Reaches(blocks, Start(selections), order, t) && Newly(blocks, t) == {}
    ensures t.active == Resolved(blocks, selections).active
    ensures DefaultsAgree(blocks) ==> t == Resolved(blocks, selections)
  {
    var s := Resolved(blocks, selections);
    SettleIsSound(blocks, selections, Start(selections));
    SettledIsClosed(blocks, selections, s);
    ReachedIsSoundAndWithin(blocks, selections, Start(selections), order, t, s.active);
    SettledIsClosed(blocks, selections, t);
    SettleStaysWithin(blocks, selections, Start(selections), t.active);
    if DefaultsAgree(blocks) {
      SameAnswers(blocks, selections, t, s);
    }
  }

  // ---- declaring the blocks in another order ----

  ghost predicate IsPermutation(perm: seq<nat>, n: nat) {
    |perm| == n && (forall k | 0 <= k < n :: perm[k] < n) &&
    (forall j, k | 0 <= j < k < n :: perm[j] != perm[k]) &&
    forall i: nat | i < n :: i in perm
  }

  ghost predicate Reordered(blocks: seq<Block>, perm: seq<nat>, other: seq<Block>) {
    IsPermutation(perm, |blocks|) && |other| == |blocks| && forall k | 0 <= k < |blocks| :: other[k] == blocks[perm[k]]
  }

  function PositionsOf(perm: seq<nat>, some: set<nat>): (at: set<nat>) {
    set k: nat | k < |perm| && perm[k] in some
  }

  function ImageOf(perm: seq<nat>, some: set<nat>): (image: set<nat>) {
    set k: nat | k in some && k < |perm| :: perm[k]
  }

  lemma ClosedUnderReordering(blocks: seq<Block>, selections: Answers, perm: seq<nat>, other: seq<Block>, some: set<nat>)
    requires Reordered(blocks, perm, other) && Closed(blocks, selections, some)
    ensures Closed(other, selections, PositionsOf(perm, some))
  {
    var at := PositionsOf(perm, some);
    forall k: nat | k < |other| && HoldsOn(other, selections, at, other[k].when)
      ensures k in at
    {
      forall c | c in blocks[perm[k]].when
        ensures MetOn(blocks, selections, some, c)
      {
        assert MetOn(other, selections, at, c);
        if c.name !in selections {
          var d :| DeclaredIn(other, at, c.name, d) && AcceptedBy(c, d);
          var j :| j in at && Declares(other, j, c.name, d);
          assert Declares(blocks, perm[j], c.name, d);
          assert DeclaredIn(blocks, some, c.name, d);
        }
      }
      assert HoldsOn(blocks, selections, some, blocks[perm[k]].when);
    }
  }

  lemma ClosedUnderReorderingBack(blocks: seq<Block>, selections: Answers, perm: seq<nat>, other: seq<Block>, some: set<nat>)
    requires Reordered(blocks, perm, other) && Closed(other, selections, some)
    ensures Closed(blocks, selections, ImageOf(perm, some))
  {
    var image := ImageOf(perm, some);
    forall i: nat | i < |blocks| && HoldsOn(blocks, selections, image, blocks[i].when)
      ensures i in image
    {
      assert i in perm;
      var k :| 0 <= k < |perm| && perm[k] == i;
      forall c | c in other[k].when
        ensures MetOn(other, selections, some, c)
      {
        assert MetOn(blocks, selections, image, c);
        if c.name !in selections {
          var d :| DeclaredIn(blocks, image, c.name, d) && AcceptedBy(c, d);
          var j :| j in image && Declares(blocks, j, c.name, d);
          var m: nat :| m in some && m < |perm| && perm[m] == j;
          assert Declares(other, m, c.name, d);
          assert DeclaredIn(other, some, c.name, d);
        }
      }
      assert HoldsOn(other, selections, some, other[k].when);
    }
  }

  lemma ReadAlikeReordered(blocks: seq<Block>, selections: Answers, perm: seq<nat>, other: seq<Block>)
    requires Reordered(blocks, perm, other) && DefaultsReadAlike(blocks, selections)
    ensures DefaultsReadAlike(other, selections)
  {
    forall j: nat, c, a: nat, b: nat, d, e |
      j < |other| && c in other[j].when && c.name !in selections &&
      Declares(other, a, c.name, d) && Declares(other, b, c.name, e) && AcceptedBy(c, d)
      ensures AcceptedBy(c, e)
    {
      assert c in blocks[perm[j]].when;
      assert Declares(blocks, perm[a], c.name, d) && Declares(blocks, perm[b], c.name, e);
    }
  }

  /** Declaring the same blocks in another order activates the same blocks, when no guard can tell the
      defaults declared for one name apart. */
  lemma DeclarationOrderDoesNotMatter(blocks: seq<Block>, selections: Answers, perm: seq<nat>, other: seq<Block>)
    requires Reordered(blocks, perm, other)
    requires DefaultsReadAlike(blocks, selections)
    ensures forall k: nat | k < |blocks| :: k in Resolved(other, selections).active <==> perm[k] in Resolved(blocks, selections).active
  {
    var here, there := Resolved(blocks, selections).active, Resolved(other, selections).active;
    ReadAlikeReordered(blocks, selections, perm, other);
    ActiveSetIsLeast(blocks, selections);
    ActiveSetIsLeast(other, selections);
    ClosedUnderReordering(blocks, selections, perm, other, here);
    ClosedUnderReorderingBack(blocks, selections, perm, other, there);
    assert there <= PositionsOf(perm, here);
    assert here <= ImageOf(perm, there);
    forall k: nat | k < |blocks| && perm[k] in here
      ensures k in there
    {
      var m: nat :| m in there && m < |perm| && perm[m] == perm[k];
      assert m == k;
    }
  }

  // ---- how many passes it takes ----

  function AfterPasses(blocks: seq<Block>, selections: Answers, p: nat): State {
    if p == 0 then Start(selections) else Pass(blocks, AfterPasses(blocks, selections, p - 1))
  }

  /** Block `j`'s guard reads a parameter that another block `i` introduces. */
  predicate GuardEdge(blocks: seq<Block>, i: nat, j: nat) {
    i < |blocks| && j < |blocks| && i != j && exists c :: c in blocks[j].when && c.name in Names(blocks[i].params)
  }

  /** A chain of distinct blocks, each introducing a parameter the next one's guard reads. */
  ghost predicate GuardChain(blocks: seq<Block>, chain: seq<nat>) {
    Linked(blocks, chain) && forall j, k | 0 <= j < k < |chain| :: chain[j] != chain[k]
  }

  ghost predicate Linked(blocks: seq<Block>, chain: seq<nat>) {
    forall j, k | 0 <= j < k < |chain| && k == j + 1 :: GuardEdge(blocks, chain[j], chain[k])
  }

  /** The k-th block of `chain` activates in pass k + 1. */
  ghost predicate ActivatedAlong(blocks: seq<Block>, selections: Answers, chain: seq<nat>) {
    forall k | 0 <= k < |chain| :: chain[k] in Newly(blocks, AfterPasses(blocks, selections, k))
  }

  lemma {:induction false} PassesAreSound(blocks: seq<Block>, selections: Answers, p: nat)
    ensures Sound(blocks, selections, AfterPasses(blocks, selections, p))
  {
    StartIsSound(blocks, selections);
    hide Sound, Pass;
    if p > 0 {
      PassesAreSound(blocks, selections, p - 1);
      PassIsSound(blocks, selections, AfterPasses(blocks, selections, p - 1));
    }
  }

  lemma StartIsSound(blocks: seq<Block>, selections: Answers)
    ensures Sound(blocks, selections, Start(selections))
  {
  }

  lemma {:induction false} PassesGrow(blocks: seq<Block>, selections: Answers, p: nat, q: nat)
    requires p <= q
    ensures AfterPasses(blocks, selections, p).active <= AfterPasses(blocks, selections, q).active
    decreases q - p
  {
    if p < q {
      PassesGrow(blocks, selections, p, q - 1);
    }
  }

  /** A block first ready after a pass reads a parameter that pass filled. */
  lemma ReadyBecauseOfThePass(blocks: seq<Block>, selections: Answers, s: State, j: nat) returns (i: nat)
    requires Sound(blocks, selections, s) && j in Newly(blocks, Pass(blocks, s))
    ensures i in Newly(blocks, s) && GuardEdge(blocks, i, j)
  {
    var t := Pass(blocks, s);
    PassIsSound(blocks, selections, s);
    var c := MetByThePass(blocks, s, j);
    FillFromOrigin(blocks, s.answers, Newly(blocks, s), 0, c.name);
    hide Sound, FillFrom, GivesDefault, Holds, AcceptedBy;
    i :| i in Newly(blocks, s) && Declares(blocks, i, c.name, t.answers[c.name]);
    DefaultIsNamed(blocks[i].params, c.name, t.answers[c.name]);
  }

  /** Part of the guard was not met before the pass and is met after it, by an answer the pass filled. */
  lemma MetByThePass(blocks: seq<Block>, s: State, j: nat) returns (c: Condition)
    requires j in Newly(blocks, Pass(blocks, s)) && Extends(Pass(blocks, s).answers, s.answers)
    ensures j < |blocks| && j !in s.active && j !in Newly(blocks, s) && c in blocks[j].when
    ensures c.name in Pass(blocks, s).answers && c.name !in s.answers
  {
    hide FillFrom, AcceptedBy;
    assert j !in Newly(blocks, s);
    c :| c in blocks[j].when && !(c.name in s.answers && AcceptedBy(c, s.answers[c.name]));
  }

  lemma DefaultIsNamed(params: seq<Param>, n: string, d: Value)
    requires GivesDefault(params, n, d)
    ensures n in Names(params)
  {
  }

  lemma ReadyBecauseOfThePassBefore(blocks: seq<Block>, selections: Answers, p: nat, j: nat) returns (i: nat)
    requires p > 0 && j in Newly(blocks, AfterPasses(blocks, selections, p))
    ensures i in Newly(blocks, AfterPasses(blocks, selections, p - 1)) && GuardEdge(blocks, i, j)
  {
    PassesAreSound(blocks, selections, p - 1);
    i := ReadyBecauseOfThePass(blocks, selections, AfterPasses(blocks, selections, p - 1), j);
  }

  lemma NewOnlyOnce(blocks: seq<Block>, selections: Answers, p: nat, q: nat, i: nat)
    requires p < q && i in Newly(blocks, AfterPasses(blocks, selections, p))
    ensures i !in Newly(blocks, AfterPasses(blocks, selections, q))
  {
    assert i in AfterPasses(blocks, selections, p + 1).active;
    PassesGrow(blocks, selections, p + 1, q);
  }

  /** A block that activates in pass `p + 1` ends a guard chain of `p + 1` distinct blocks. */
  lemma {:induction false} ActivationEndsAChain(blocks: seq<Block>, selections: Answers, p: nat, j: nat)
    requires j in Newly(blocks, AfterPasses(blocks, selections, p))
    ensures exists chain :: GuardChain(blocks, chain) && |chain| == p + 1 && chain[p] == j
  {
    var chain := ChainInto(blocks, selections, p, j);
    forall a, b | 0 <= a < b < |chain|
      ensures chain[a] != chain[b]
    {
      NewOnlyOnce(blocks, selections, a, b, chain[a]);
    }
    assert GuardChain(blocks, chain);
  }

  lemma {:induction false} ChainInto(blocks: seq<Block>, selections: Answers, p: nat, j: nat) returns (chain: seq<nat>)
    requires j in Newly(blocks, AfterPasses(blocks, selections, p))
    ensures |chain| == p + 1 && chain[p] == j
    ensures Linked(blocks, chain) && ActivatedAlong(blocks, selections, chain)
  {
    hide GuardEdge, Newly;
    if p == 0 {
      chain := [j];
    } else {
      var i := ReadyBecauseOfThePassBefore(blocks, selections, p, j);
      var rest := ChainInto(blocks, selections, p - 1, i);
      ExtendLinked(blocks, rest, j);
      ExtendActivated(blocks, selections, rest, j);
      chain := rest + [j];
    }
  }

  lemma ExtendLinked(blocks: seq<Block>, rest: seq<nat>, j: nat)
    requires Linked(blocks, rest)
    requires rest != [] && GuardEdge(blocks, rest[|rest| - 1], j)
    ensures Linked(blocks, rest + [j])
  {
    var chain := rest + [j];
    forall a, b | 0 <= a < b < |chain| && b == a + 1
      ensures GuardEdge(blocks, chain[a], chain[b])
    {
      assert chain[a] == rest[a];
      if b < |rest| {
        assert chain[b] == rest[b];
      }
    }
  }

  lemma ExtendActivated(blocks: seq<Block>, selections: Answers, rest: seq<nat>, j: nat)
    requires ActivatedAlong(blocks, selections, rest)
    requires j in Newly(blocks, AfterPasses(blocks, selections, |rest|))
    ensures ActivatedAlong(blocks, selections, rest + [j])
  {
    var chain := rest + [j];
    forall k | 0 <= k < |chain|
      ensures chain[k] in Newly(blocks, AfterPasses(blocks, selections, k))
    {
      if k < |rest| {
        assert chain[k] == rest[k];
      }
    }
  }

  lemma {:induction false} SettleFromAnyPass(blocks: seq<Block>, selections: Answers, p: nat)
    ensures Settle(blocks, AfterPasses(blocks, selections, p)) == Resolved(blocks, selections)
  {
    if p > 0 {
      SettleFromAnyPass(blocks, selections, p - 1);
      var before := AfterPasses(blocks, selections, p - 1);
      if Newly(blocks, before) == {} {
        NothingLeftToFill(blocks, before.answers, {}, 0);
        assert AfterPasses(blocks, selections, p) == before;
      }
    }
  }

  /** The evaluation settles within as many passes as the longest guard chain has blocks. */
  lemma PassesBoundedByChainDepth(blocks: seq<Block>, selections: Answers, depth: nat)
    requires forall chain | GuardChain(blocks, chain) :: |chain| <= depth
    ensures AfterPasses(blocks, selections, depth) == Resolved(blocks, selections)
  {
    var s := AfterPasses(blocks, selections, depth);
    if Newly(blocks, s) != {} {
      var j :| j in Newly(blocks, s);
      ActivationEndsAChain(blocks, selections, depth, j);
      assert false;
    }
    SettleFromAnyPass(blocks, selections, depth);
  }

  // ---- when the defaults of one name differ ----

  function TextBlock(key: string, name: string, default: string, when: seq<Condition>): Block {
    Block(key, key, [Param(name, ParamSpec(StrKind, One(Str(default)), "", "", None, None, None, false, None, NoColumns))], when)
  }

  /** Two unconditional blocks declare `mode` with defaults "dc" and "ac"; a third needs "ac". */
  function ConflictingForm(): seq<Block> {
    [TextBlock("first", "mode", "dc", []),
     TextBlock("second", "mode", "ac", []),
     TextBlock("third", "gain", "low", [Condition("mode", [One(Str("ac"))])])]
  }

  /** With differing defaults for one name the block declared first decides: the third block stays
      out of the form as declared and is part of it once the first two change places. */
  lemma DifferingDefaultsDependOnOrder()
    ensures var form := ConflictingForm();
            2 !in Resolved(form, map[]).active && 2 in Resolved([form[1], form[0], form[2]], map[]).active &&
            !Closed(form, map[], Resolved(form, map[]).active)
  {
    hide Settle;
    var form := ConflictingForm();
    ObserverFollowsTheFirstDefault(form);
    ObserverFollowsTheFirstDefault([form[1], form[0], form[2]]);
    var active := Resolved(form, map[]).active;
    var needs, ac := form[2].when[0], One(Str("ac"));
    assert form[1].params[0].name == "mode" && form[1].params[0].spec.default == ac;
    assert Declares(form, 1, "mode", ac);
    assert DeclaredIn(form, active, "mode", ac);
    assert SameValue(ac, needs.accepted[0]);
    assert MetOn(form, map[], active, needs);
    assert HoldsOn(form, map[], active, form[2].when);
  }

  lemma ObserverFollowsTheFirstDefault(form: seq<Block>)
    requires |form| == 3 && form[0].when == [] && form[1].when == []
    requires |form[0].params| == 1 && form[0].params[0].name == "mode"
    requires form[2].when == [Condition("mode", [One(Str("ac"))])]
    ensures 0 in Resolved(form, map[]).active && 1 in Resolved(form, map[]).active
    ensures 2 in Resolved(form, map[]).active <==> SameValue(form[0].params[0].spec.default, One(Str("ac")))
  {
    ActiveIffGuardHolds(form, map[]);
    FirstDefaultWins(form);
    var answers := Resolved(form, map[]).answers;
    var needs := form[2].when[0];
    assert Holds(form[0].when, answers) && Holds(form[1].when, answers);
    assert Holds(form[2].when, answers) <==> AcceptedBy(needs, answers["mode"]);
    assert AcceptedBy(needs, answers["mode"]) <==> SameValue(answers["mode"], needs.accepted[0]);
  }

  lemma FirstDefaultWins(form: seq<Block>)
    requires |form| == 3 && form[0].when == [] && |form[0].params| == 1
    ensures var answers := Resolved(form, map[]).answers; var p := form[0].params[0];
            p.name in answers && answers[p.name] == p.spec.default
  {
    var start := Start(map[]);
    var p := form[0].params[0];
    assert Ready(form, start, 0);
    assert 0 in Newly(form, start);
    var one := WithDefaults(map[], form[0].params);
    assert one == map[p.name := p.spec.default] by {
      assert form[0].params[1..] == [];
      assert WithDefaults(map[p.name := p.spec.default], form[0].params[1..]) == map[p.name := p.spec.default];
    }
    var next := Pass(form, start);
    assert next.answers == FillFrom(form, one, Newly(form, start), 1);
    FillFromExtends(form, one, Newly(form, start), 1);
    assert Settle(form, start) == Settle(form, next);
    AnswersOnlyGrow(form, next);
  }

  lemma {:induction false} AnswersOnlyGrow(blocks: seq<Block>, s: State)
    ensures Extends(Settle(blocks, s).answers, s.answers)
    decreases Indices(blocks) - s.active
  {
    if Newly(blocks, s) != {} {
      var i :| i in Newly(blocks, s);
      assert i in Indices(blocks) - s.active && i !in Indices(blocks) - Pass(blocks, s).active;
      FillFromExtends(blocks, s.answers, Newly(blocks, s), 0);
      AnswersOnlyGrow(blocks, Pass(blocks, s));
    }
  }
}
