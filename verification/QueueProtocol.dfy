/** The run queue across two threads: the client owns the queue, the engine pulls the next run from
    it through questions with a timeout and broadcasts a pushed snapshot of it.

    Each thread drains a FIFO mailbox. The engine waits for at most one question at a time; one that
    timed out stays in the client's mailbox and is answered all the same. */
module QueueProtocol {
  import opened PyValues

  /** A waiting run, as its immutable specification. */
  type Spec = string

  /** What the client posts to the engine. A publish is numbered by the push that came before it. */
  datatype Posted = Publish(push: nat) | Command(id: string)

  /** Where a question stands: not run yet, or what running it gave. */
  datatype Ask = Pending | Nothing | Popped(ticket: nat, spec: Spec) | Raised

  /** A popped spec and the question that popped it, numbered in pop order. */
  datatype Pop = Pop(ask: nat, spec: Spec)

  /** One queue broadcast: the value shown, which push that was, and the publish it answers. */
  datatype Broadcast = Broadcast(value: seq<Spec>, push: nat, answers: Option<nat>)

  /** The pull seam: the client's mailbox of questions, what the questions gave, the one the engine
      waits for, and what became of the specs popped so far. */
  datatype Pulls = Pulls(
    clientBox: seq<nat>,
    asks: seq<Ask>,
    waiting: Option<nat>,
    pops: seq<Pop>,
    built: seq<nat>,
    failed: set<nat>,
    timedOut: set<nat>)

  /** The broadcast side: the snapshot cache, whether the client has pushed to it and not yet posted its
      publish, the engine's mailbox, and what was pushed, broadcast, submitted and handled so far. */
  datatype Casts = Casts(
    cache: seq<Spec>,
    publishing: bool,
    engineBox: seq<Posted>,
    pushes: seq<seq<Spec>>,
    broadcasts: seq<Broadcast>,
    submitted: seq<string>,
    handled: seq<string>)

  datatype State = State(queue: seq<Spec>, pulls: Pulls, casts: Casts)

  /** Installing the queue pushes its first snapshot. */
  function Installed(queue: seq<Spec>): State {
    State(queue, Pulls([], [], None, [], [], {}, {}), Casts(queue, false, [], [queue], [], [], []))
  }

  // ---- the steps of the pull seam ----

  /** The engine posts a question and waits. */
  function AskNext(p: Pulls): Pulls {
    p.(asks := p.asks + [Pending], clientBox := p.clientBox + [|p.asks|], waiting := Some(|p.asks|))
  }

  predicate HasQuestion(p: Pulls) {
    p.clientBox != [] && p.clientBox[0] < |p.asks|
  }

  /** The client runs the next question, which gives it no spec. */
  function AnswerWith(p: Pulls, result: Ask): Pulls
    requires HasQuestion(p)
  {
    p.(clientBox := p.clientBox[1..], asks := p.asks[p.clientBox[0] := result])
  }

  /** The client runs the next question, which pops a spec. */
  function AnswerPop(p: Pulls, spec: Spec): Pulls
    requires HasQuestion(p)
  {
    AnswerWith(p, Popped(|p.pops|, spec)).(pops := p.pops + [Pop(p.clientBox[0], spec)])
  }

  predicate IsWaiting(p: Pulls) {
    p.waiting.Some? && p.waiting.value < |p.asks|
  }

  /** The engine gives up waiting. */
  function GiveUp(p: Pulls): Pulls
    requires IsWaiting(p)
  {
    p.(timedOut := p.timedOut + {p.waiting.value}, waiting := None)
  }

  /** The engine takes the answer and builds the spec it holds, if any. */
  function Take(p: Pulls, builds: bool): Pulls
    requires IsWaiting(p)
  {
    match p.asks[p.waiting.value]
    case Popped(ticket, _) =>
      if builds then p.(waiting := None, built := p.built + [ticket])
      else p.(waiting := None, failed := p.failed + {ticket})
    case _ => p.(waiting := None)
  }

  // ---- the steps of the broadcast side ----

  /** The client pushes its queue, the first half of publishing it. */
  function PushSnapshot(c: Casts, queue: seq<Spec>): Casts {
    c.(cache := queue, pushes := c.pushes + [queue], publishing := true)
  }

  /** The client posts the request to broadcast what it pushed last. */
  function PostPublish(c: Casts): Casts
    requires c.pushes != []
  {
    c.(engineBox := c.engineBox + [Publish(|c.pushes| - 1)], publishing := false)
  }

  function PostCommand(c: Casts, id: string): Casts {
    c.(engineBox := c.engineBox + [Command(id)], submitted := c.submitted + [id])
  }

  /** The engine broadcasts what its cache holds. */
  function BroadcastCache(c: Casts, answers: Option<nat>): Casts {
    c.(broadcasts := c.broadcasts + [Broadcast(c.cache, if c.pushes == [] then 0 else |c.pushes| - 1, answers)])
  }

  /** The engine runs the next posted call. */
  function ServeNext(c: Casts): Casts
    requires c.engineBox != []
  {
    var rest := c.(engineBox := c.engineBox[1..]);
    match c.engineBox[0]
    case Publish(push) => BroadcastCache(rest, Some(push))
    case Command(id) => rest.(handled := c.handled + [id])
  }

  // ---- the interleaved steps of both threads ----

  datatype Action =
    // on the client thread
    | Add(spec: Spec)
    | Rewrite(queue: seq<Spec>)
    | PushFromClient
    | PostFromClient
    | Submit(id: string)
    | Answer
    | AnswerRaising
    // on the engine thread
    | Pull
    | TimeOut
    | Receive(builds: bool)
    | Serve
    | PublishFromEngine

  predicate OnClient(a: Action) {
    a.Add? || a.Rewrite? || a.PushFromClient? || a.PostFromClient? || a.Submit? || a.Answer? || a.AnswerRaising?
  }

  /** The client thread does nothing between the two halves of a publish, though the engine may. The
      engine thread does nothing else while it waits; a wait ends with a timeout only as long as the
      question is unanswered. */
  predicate Enabled(s: State, a: Action) {
    (OnClient(a) ==> s.casts.publishing == a.PostFromClient?) &&
    match a
    case PostFromClient => s.casts.pushes != []
    case Answer => HasQuestion(s.pulls)
    case AnswerRaising => HasQuestion(s.pulls)
    case Pull => s.pulls.waiting.None?
    case TimeOut => IsWaiting(s.pulls) && s.pulls.asks[s.pulls.waiting.value].Pending?
    case Receive(_) => IsWaiting(s.pulls) && !s.pulls.asks[s.pulls.waiting.value].Pending?
    case Serve => s.pulls.waiting.None? && s.casts.engineBox != []
    case PublishFromEngine => s.pulls.waiting.None?
    case _ => true
  }

  function Apply(s: State, a: Action): State
    requires Enabled(s, a)
  {
    match a
    case Add(spec) => s.(queue := s.queue + [spec])
    case Rewrite(queue) => s.(queue := queue)
    case PushFromClient => s.(casts := PushSnapshot(s.casts, s.queue))
    case PostFromClient => s.(casts := PostPublish(s.casts))
    case Submit(id) => s.(casts := PostCommand(s.casts, id))
    case Answer =>
      if s.queue == [] then s.(pulls := AnswerWith(s.pulls, Nothing))
      else s.(pulls := AnswerPop(s.pulls, s.queue[0]), queue := s.queue[1..])
    case AnswerRaising => s.(pulls := AnswerWith(s.pulls, Raised))
    case Pull => s.(pulls := AskNext(s.pulls))
    case TimeOut => s.(pulls := GiveUp(s.pulls))
    case Receive(builds) => s.(pulls := Take(s.pulls, builds))
    case Serve => s.(casts := ServeNext(s.casts))
    case PublishFromEngine => s.(casts := BroadcastCache(s.casts, None))
  }

  /** Every action of the run can be taken where it stands. */
  predicate Legal(s: State, run: seq<Action>)
    decreases |run|
  {
    run == [] || (Enabled(s, run[0]) && Legal(Apply(s, run[0]), run[1..]))
  }

  function After(s: State, run: seq<Action>): State
    requires Legal(s, run)
    decreases |run|
  {
    if run == [] then s else After(Apply(s, run[0]), run[1..])
  }

  // ---- pulling: every popped spec has one fate ----

  /** Questions are answered in the order asked; an unanswered one is waited for or timed out, and
      the one waited for is the latest. */
  ghost predicate AsksInOrder(p: Pulls) {
    |p.clientBox| <= |p.asks| &&
    (forall k | 0 <= k < |p.clientBox| :: p.clientBox[k] == |p.asks| - |p.clientBox| + k) &&
    (forall i | 0 <= i < |p.asks| :: p.asks[i].Pending? <==> i >= |p.asks| - |p.clientBox|) &&
    (forall i | 0 <= i < |p.asks| && p.asks[i].Pending? :: p.waiting == Some(i) || i in p.timedOut) &&
    (p.waiting.Some? ==> p.waiting.value == |p.asks| - 1 && |p.asks| > 0)
  }

  /** Pops are numbered in the order of the questions that made them, each kept in its question. */
  ghost predicate PopsInOrder(p: Pulls) {
    (forall t | 0 <= t < |p.pops| :: p.pops[t].ask < |p.asks| && p.asks[p.pops[t].ask] == Popped(t, p.pops[t].spec)) &&
    (forall i | 0 <= i < |p.asks| && p.asks[i].Popped? :: p.asks[i].ticket < |p.pops| && p.pops[p.asks[i].ticket].ask == i) &&
    forall t, u | 0 <= t < u < |p.pops| :: p.pops[t].ask < p.pops[u].ask
  }

  predicate InFlight(p: Pulls, t: nat)
    requires t < |p.pops|
  {
    p.waiting == Some(p.pops[t].ask)
  }

  /** A popped spec is in flight, built, failed to build, or was popped for a question that timed out. */
  ghost predicate HasFate(p: Pulls, t: nat)
    requires t < |p.pops|
  {
    (InFlight(p, t) || t in p.built || t in p.failed || p.pops[t].ask in p.timedOut) &&
    !(t in p.built && (InFlight(p, t) || t in p.failed || p.pops[t].ask in p.timedOut)) &&
    !(t in p.failed && (InFlight(p, t) || p.pops[t].ask in p.timedOut))
  }

  ghost predicate OneFate(p: Pulls) {
    (forall t: nat | t < |p.pops| :: HasFate(p, t)) &&
    (forall t | t in p.built :: t < |p.pops|) &&
    (forall t | t in p.failed :: t < |p.pops|) &&
    (forall a | a in p.timedOut :: a < |p.asks| && p.waiting != Some(a))
  }

  ghost predicate BuiltInOrder(p: Pulls) {
    forall j, k | 0 <= j < k < |p.built| :: p.built[j] < p.built[k]
  }

  ghost predicate PullInvariant(p: Pulls) {
    AsksInOrder(p) && PopsInOrder(p) && OneFate(p) && BuiltInOrder(p)
  }

  lemma AskKeepsInvariant(p: Pulls)
    requires PullInvariant(p) && p.waiting.None?
    ensures PullInvariant(AskNext(p))
  {
    var q := AskNext(p);
    forall t: nat | t < |q.pops|
      ensures HasFate(q, t)
    {
      assert HasFate(p, t);
    }
  }

  lemma EmptyAnswerKeepsInvariant(p: Pulls, result: Ask)
    requires PullInvariant(p) && HasQuestion(p) && (result.Nothing? || result.Raised?)
    ensures PullInvariant(AnswerWith(p, result))
  {
    var q := AnswerWith(p, result);
    assert p.asks[p.clientBox[0]].Pending?;
    forall t: nat | t < |q.pops|
      ensures HasFate(q, t)
    {
      assert HasFate(p, t);
    }
  }

  lemma PopKeepsOrder(p: Pulls, spec: Spec)
    requires PullInvariant(p) && HasQuestion(p)
    ensures AsksInOrder(AnswerPop(p, spec)) && PopsInOrder(AnswerPop(p, spec))
  {
    var ask := p.clientBox[0];
    assert p.asks[ask].Pending?;
    forall u | 0 <= u < |p.pops|
      ensures p.pops[u].ask < ask
    {
      assert !p.asks[p.pops[u].ask].Pending?;
    }
  }

  lemma PopKeepsInvariant(p: Pulls, spec: Spec)
    requires PullInvariant(p) && HasQuestion(p)
    ensures PullInvariant(AnswerPop(p, spec))
  {
    var q, ask := AnswerPop(p, spec), p.clientBox[0];
    PopKeepsOrder(p, spec);
    assert p.asks[ask].Pending?;
    forall t: nat | t < |q.pops|
      ensures HasFate(q, t)
    {
      if t < |p.pops| {
        assert q.pops[t] == p.pops[t] && HasFate(p, t);
      } else {
        assert |p.pops| !in p.built && |p.pops| !in p.failed;
      }
    }
  }

  lemma GiveUpKeepsInvariant(p: Pulls)
    requires PullInvariant(p) && IsWaiting(p) && p.asks[p.waiting.value].Pending?
    ensures PullInvariant(GiveUp(p))
  {
    var q := GiveUp(p);
    forall t: nat | t < |q.pops|
      ensures HasFate(q, t)
    {
      assert HasFate(p, t) && p.asks[p.pops[t].ask].Popped?;
    }
  }

  lemma TakeKeepsInvariant(p: Pulls, builds: bool)
    requires PullInvariant(p) && IsWaiting(p) && !p.asks[p.waiting.value].Pending?
    ensures PullInvariant(Take(p, builds))
  {
    var q, ask := Take(p, builds), p.waiting.value;
    if p.asks[ask].Popped? {
      var ticket := p.asks[ask].ticket;
      assert InFlight(p, ticket) && HasFate(p, ticket);
      forall k | 0 <= k < |p.built|
        ensures p.built[k] < ticket
      {
        assert p.built[k] in p.built && HasFate(p, p.built[k]);
        assert p.pops[p.built[k]].ask < ask;
      }
      assert forall t :: t in q.built <==> t in p.built || (builds && t == ticket);
      forall t: nat | t < |q.pops|
        ensures HasFate(q, t)
      {
        assert HasFate(p, t) && (InFlight(p, t) ==> t == ticket);
      }
    } else {
      forall t: nat | t < |q.pops|
        ensures HasFate(q, t)
      {
        assert HasFate(p, t) && !InFlight(p, t);
      }
    }
  }

  lemma StepKeepsPullInvariant(s: State, a: Action)
    requires PullInvariant(s.pulls) && Enabled(s, a)
    ensures PullInvariant(Apply(s, a).pulls)
  {
    match a
    case Answer =>
      EmptyAnswerKeepsInvariant(s.pulls, Nothing);
      if s.queue != [] {
        PopKeepsInvariant(s.pulls, s.queue[0]);
      }
    case AnswerRaising => EmptyAnswerKeepsInvariant(s.pulls, Raised);
    case Pull => AskKeepsInvariant(s.pulls);
    case TimeOut => GiveUpKeepsInvariant(s.pulls);
    case Receive(builds) => TakeKeepsInvariant(s.pulls, builds);
    case _ =>
  }

  lemma {:induction false} PullInvariantHolds(s: State, run: seq<Action>)
    requires PullInvariant(s.pulls) && Legal(s, run)
    ensures PullInvariant(After(s, run).pulls)
    decreases |run|
  {
    hide PullInvariant;
    if run != [] {
      StepKeepsPullInvariant(s, run[0]);
      PullInvariantHolds(Apply(s, run[0]), run[1..]);
    }
  }

  /** In every run each popped spec is built at most once and in the order popped, and a popped spec
      neither built nor in flight failed to build or was popped for a question that timed out. */
  lemma BuiltAtMostOnceInOrder(queue: seq<Spec>, run: seq<Action>)
    requires Legal(Installed(queue), run)
    ensures var p := After(Installed(queue), run).pulls;
            BuiltInOrder(p) && (forall t | t in p.built :: t < |p.pops|) && forall t: nat | t < |p.pops| :: HasFate(p, t)
  {
    PullInvariantHolds(Installed(queue), run);
  }

  /** A timed-out question is still answered, and the spec it pops is lost: no later step builds it. */
  lemma {:induction false} TimedOutPopIsNeverBuilt(s: State, t: nat, run: seq<Action>)
    requires PullInvariant(s.pulls) && Legal(s, run)
    requires t < |s.pulls.pops| && s.pulls.pops[t].ask in s.pulls.timedOut
    ensures var p := After(s, run).pulls; t < |p.pops| && p.pops[t] == s.pulls.pops[t] && t !in p.built
    decreases |run|
  {
    if run == [] {
      assert HasFate(s.pulls, t);
    } else {
      StepKeepsPullInvariant(s, run[0]);
      hide PullInvariant;
      TimedOutPopIsNeverBuilt(Apply(s, run[0]), t, run[1..]);
    }
  }

  /** After any run a question is unanswered exactly while it is in the client's mailbox, timed out or not. */
  lemma PendingIffInMailbox(queue: seq<Spec>, run: seq<Action>, i: nat)
    requires Legal(Installed(queue), run)
    ensures var p := After(Installed(queue), run).pulls;
            i < |p.asks| ==> (p.asks[i].Pending? <==> i in p.clientBox)
  {
    PullInvariantHolds(Installed(queue), run);
    if i < |After(Installed(queue), run).pulls.asks| {
      PendingAreInMailbox(After(Installed(queue), run).pulls, i);
    }
    hide After, Legal, PullInvariant;
  }

  lemma PendingAreInMailbox(p: Pulls, i: nat)
    requires PullInvariant(p) && i < |p.asks|
    ensures p.asks[i].Pending? <==> i in p.clientBox
  {
    if p.asks[i].Pending? {
      assert p.clientBox[i - (|p.asks| - |p.clientBox|)] == i;
    }
  }

  /** The client runs every question in its mailbox. */
  function Draining(n: nat): (run: seq<Action>)
    ensures |run| == n && forall a | a in run :: a == Answer
  {
    seq(n, _ => Answer)
  }

  lemma {:induction false} DrainingAnswers(s: State, n: nat)
    requires PullInvariant(s.pulls) && !s.casts.publishing && n == |s.pulls.clientBox|
    ensures Legal(s, Draining(n))
    ensures var p := After(s, Draining(n)).pulls;
            |p.asks| == |s.pulls.asks| && p.clientBox == [] && p.timedOut == s.pulls.timedOut && PullInvariant(p)
    decreases n
  {
    if n > 0 {
      assert Draining(n)[1..] == Draining(n - 1);
      AnswerIsEnabled(s);
      StepKeepsPullInvariant(s, Answer);
      hide PullInvariant, Draining;
      DrainingAnswers(Apply(s, Answer), n - 1);
    }
  }

  lemma AnswerIsEnabled(s: State)
    requires PullInvariant(s.pulls) && !s.casts.publishing && s.pulls.clientBox != []
    ensures Enabled(s, Answer)
  {
  }

  /** Whatever has timed out, a client that goes on to run its mailbox answers every question asked. */
  lemma EveryQuestionIsAnswered(queue: seq<Spec>, run: seq<Action>)
    requires Legal(Installed(queue), run) && !After(Installed(queue), run).casts.publishing
    ensures var s := After(Installed(queue), run);
            var rest := Draining(|s.pulls.clientBox|);
            Legal(s, rest) && var p := After(s, rest).pulls;
            p.timedOut == s.pulls.timedOut && |p.asks| == |s.pulls.asks| && forall i | 0 <= i < |p.asks| :: !p.asks[i].Pending?
  {
    var s := After(Installed(queue), run);
    PullInvariantHolds(Installed(queue), run);
    DrainingAnswers(s, |s.pulls.clientBox|);
    var p := After(s, Draining(|s.pulls.clientBox|)).pulls;
    hide After, Legal, PullInvariant, Draining;
    forall i | 0 <= i < |p.asks| ensures !p.asks[i].Pending? {
      PendingAreInMailbox(p, i);
    }
  }

  // ---- the queue itself: nothing is lost or reordered on the way to the engine ----

  function Specs(pops: seq<Pop>): (specs: seq<Spec>)
    ensures |specs| == |pops| && forall t | 0 <= t < |pops| :: specs[t] == pops[t].spec
  {
    seq(|pops|, t requires 0 <= t < |pops| => pops[t].spec)
  }

  /** The specs a run adds to the queue. */
  function Added(run: seq<Action>): seq<Spec> {
    if run == [] then [] else (if run[0].Add? then [run[0].spec] else []) + Added(run[1..])
  }

  /** While the client only adds, the specs popped and those still waiting are, in order, the queue at
      the start and the specs added. */
  lemma {:induction false} PopsComeFromTheFront(s: State, run: seq<Action>)
    requires Legal(s, run) && forall a | a in run :: !a.Rewrite?
    ensures var t := After(s, run); Specs(t.pulls.pops) + t.queue == Specs(s.pulls.pops) + s.queue + Added(run)
    decreases |run|
  {
    if run != [] {
      assert run[0] in run;
      hide Specs, Apply, Enabled;
      StepKeepsSpecs(s, run[0]);
      PopsComeFromTheFront(Apply(s, run[0]), run[1..]);
      RegroupSpecs(Specs(s.pulls.pops) + s.queue, if run[0].Add? then [run[0].spec] else [], Added(run[1..]));
    }
  }

  lemma RegroupSpecs(a: seq<Spec>, b: seq<Spec>, c: seq<Spec>)
    ensures (a + b) + c == a + (b + c)
  {
  }

  lemma StepKeepsSpecs(s: State, a: Action)
    requires Enabled(s, a) && !a.Rewrite?
    ensures var t := Apply(s, a);
            Specs(t.pulls.pops) + t.queue == Specs(s.pulls.pops) + s.queue + if a.Add? then [a.spec] else []
  {
    if a.Answer? && s.queue != [] {
      assert Specs(Apply(s, a).pulls.pops) == Specs(s.pulls.pops) + [s.queue[0]];
    } else {
      assert Apply(s, a).pulls.pops == s.pulls.pops;
    }
  }

  // ---- with no timeouts and no failures: the single-threaded queue ----

  /** The single-threaded client: popping and building are one step. */
  datatype Inline = Inline(queue: seq<Spec>, built: seq<Spec>)

  function Next(i: Inline): Inline {
    if i.queue == [] then i else Inline(i.queue[1..], i.built + [i.queue[0]])
  }

  /** The single-threaded run in which the client does the same to its queue and the engine asks for
      the next run at the moments the client answers. */
  function InlineAfter(i: Inline, run: seq<Action>): Inline
    decreases |run|
  {
    if run == [] then i
    else
      match run[0]
      case Add(spec) => InlineAfter(i.(queue := i.queue + [spec]), run[1..])
      case Rewrite(queue) => InlineAfter(i.(queue := queue), run[1..])
      case Answer => InlineAfter(Next(i), run[1..])
      case _ => InlineAfter(i, run[1..])
  }

  /** The specs built, in order. */
  function BuiltSpecs(p: Pulls): (specs: seq<Spec>)
    requires forall t | t in p.built :: t < |p.pops|
  {
    seq(|p.built|, k requires 0 <= k < |p.built| => assert p.built[k] in p.built; p.pops[p.built[k]].spec)
  }

  predicate Untroubled(a: Action) {
    !a.TimeOut? && !a.AnswerRaising? && a != Receive(false)
  }

  /** Nothing has timed out or failed, and every pop but the one in flight is built. */
  ghost predicate AllBuilt(p: Pulls) {
    p.timedOut == {} && p.failed == {} &&
    |p.built| <= |p.pops| && (forall k | 0 <= k < |p.built| :: p.built[k] == k) &&
    (|p.built| < |p.pops| ==> |p.built| == |p.pops| - 1 && InFlight(p, |p.pops| - 1))
  }

  lemma NothingInFlightBeforeAnswer(p: Pulls)
    requires PullInvariant(p) && AllBuilt(p) && HasQuestion(p)
    ensures p.waiting == Some(p.clientBox[0]) && |p.built| == |p.pops|
  {
    assert p.asks[p.clientBox[0]].Pending?;
  }

  lemma NumbersBelowAreBuilt(p: Pulls, t: nat)
    requires AllBuilt(p)
    ensures t < |p.built| ==> t in p.built
  {
    if t < |p.built| {
      assert p.built[t] == t;
    }
  }

  lemma TakenIsLatest(p: Pulls)
    requires PullInvariant(p) && AllBuilt(p) && IsWaiting(p) && p.asks[p.waiting.value].Popped?
    ensures p.asks[p.waiting.value].ticket == |p.pops| - 1 == |p.built|
  {
    var ticket := p.asks[p.waiting.value].ticket;
    assert InFlight(p, ticket) && HasFate(p, ticket);
    NumbersBelowAreBuilt(p, ticket);
  }

  lemma StepKeepsAllBuilt(s: State, a: Action)
    requires PullInvariant(s.pulls) && AllBuilt(s.pulls) && Enabled(s, a) && Untroubled(a)
    ensures AllBuilt(Apply(s, a).pulls)
  {
    match a
    case Answer => NothingInFlightBeforeAnswer(s.pulls);
    case Receive(_) =>
      if s.pulls.asks[s.pulls.waiting.value].Popped? {
        TakenIsLatest(s.pulls);
      }
    case _ =>
  }

  /** The single-threaded state a threaded one stands for: what is in flight counts as built. */
  function Seen(s: State): Inline {
    Inline(s.queue, Specs(s.pulls.pops))
  }

  lemma StepIsSeenInline(s: State, a: Action)
    requires Enabled(s, a) && Untroubled(a)
    ensures Seen(Apply(s, a)) == InlineAfter(Seen(s), [a])
  {
    assert [a][1..] == [];
    if a.Answer? && s.queue != [] {
      assert Seen(Apply(s, a)).built == Next(Seen(s)).built;
    }
  }

  lemma InlineOneThenRest(i: Inline, run: seq<Action>)
    requires run != []
    ensures InlineAfter(i, run) == InlineAfter(InlineAfter(i, [run[0]]), run[1..])
  {
    assert [run[0]][1..] == [];
  }

  lemma {:induction false} RunIsSeenInline(s: State, run: seq<Action>)
    requires PullInvariant(s.pulls) && AllBuilt(s.pulls) && Legal(s, run) && forall a | a in run :: Untroubled(a)
    ensures AllBuilt(After(s, run).pulls) && Seen(After(s, run)) == InlineAfter(Seen(s), run)
    decreases |run|
  {
    if run != [] {
      assert run[0] in run;
      StepKeepsPullInvariant(s, run[0]);
      StepKeepsAllBuilt(s, run[0]);
      StepIsSeenInline(s, run[0]);
      InlineOneThenRest(Seen(s), run);
      hide PullInvariant, AllBuilt, Seen, InlineAfter;
      RunIsSeenInline(Apply(s, run[0]), run[1..]);
    }
  }

  /** Without timeouts and failures the threaded run builds what the single-threaded run builds: all
      of it once no pull is in flight, and all but the latest spec while one is. */
  lemma ThreadedBuildsTheInlineRuns(queue: seq<Spec>, run: seq<Action>)
    requires Legal(Installed(queue), run) && forall a | a in run :: Untroubled(a)
    ensures var s := After(Installed(queue), run); var i := InlineAfter(Inline(queue, []), run);
            s.queue == i.queue &&
            (forall t | t in s.pulls.built :: t < |s.pulls.pops|) && BuiltSpecs(s.pulls) <= i.built &&
            |i.built| <= |s.pulls.built| + 1 && (s.pulls.waiting.None? ==> BuiltSpecs(s.pulls) == i.built)
  {
    var start := Installed(queue);
    assert Specs([]) == [];
    RunIsSeenInline(start, run);
    var p := After(start, run).pulls;
    hide After, InlineAfter;
    assert BuiltSpecs(p) == Specs(p.pops)[..|p.built|];
  }

  // ---- broadcasts: never older than the publish they answer, and never going back ----

  /** The pushes of the publishes among `posted`, in order. */
  function PushesOf(posted: seq<Posted>): seq<nat> {
    if posted == [] then []
    else PushesOf(posted[..|posted| - 1]) +
         if posted[|posted| - 1].Publish? then [posted[|posted| - 1].push] else []
  }

  function CommandsOf(posted: seq<Posted>): seq<string> {
    if posted == [] then []
    else CommandsOf(posted[..|posted| - 1]) +
         if posted[|posted| - 1].Command? then [posted[|posted| - 1].id] else []
  }

  /** The publishes answered by `broadcasts`, in order. */
  function Answered(broadcasts: seq<Broadcast>): seq<nat> {
    if broadcasts == [] then []
    else Answered(broadcasts[..|broadcasts| - 1]) +
         match broadcasts[|broadcasts| - 1].answers case Some(push) => [push] case None => []
  }

  /** 1, 2, ..., n */
  function UpTo(n: nat): (r: seq<nat>)
    ensures |r| == n && forall k | 0 <= k < n :: r[k] == k + 1
  {
    seq(n, k => k + 1)
  }

  /** Every broadcast shows a pushed queue, no older than the publish it answers, and none goes back. */
  ghost predicate Fresh(c: Casts) {
    c.pushes != [] && c.cache == c.pushes[|c.pushes| - 1] &&
    (forall k | 0 <= k < |c.broadcasts| ::
       var b := c.broadcasts[k];
       b.push < |c.pushes| && b.value == c.pushes[b.push] && (b.answers.Some? ==> b.answers.value <= b.push)) &&
    (forall k | 0 <= k < |c.engineBox| && c.engineBox[k].Publish? :: c.engineBox[k].push < |c.pushes|) &&
    forall j, k | 0 <= j < k < |c.broadcasts| :: c.broadcasts[j].push <= c.broadcasts[k].push
  }

  /** How many publishes have been posted. */
  function Posts(c: Casts): nat {
    if c.pushes == [] then 0 else if c.publishing && |c.pushes| > 1 then |c.pushes| - 2 else |c.pushes| - 1
  }

  /** Every publish posted is answered by one broadcast or still in the mailbox, in order. */
  ghost predicate EachAnsweredOnce(c: Casts) {
    c.pushes != [] && (c.publishing ==> |c.pushes| > 1) && Answered(c.broadcasts) + PushesOf(c.engineBox) == UpTo(Posts(c))
  }

  /** With no publish half made or in the mailbox the last broadcast shows the latest push. */
  ghost predicate DrainedShowsLatest(c: Casts) {
    !c.publishing && PushesOf(c.engineBox) == [] && |c.pushes| > 1 ==>
      c.broadcasts != [] && c.broadcasts[|c.broadcasts| - 1].push == |c.pushes| - 1
  }

  ghost predicate CommandsInOrder(c: Casts) {
    c.handled + CommandsOf(c.engineBox) == c.submitted
  }

  ghost predicate BroadcastInvariant(c: Casts) {
    Fresh(c) && EachAnsweredOnce(c) && DrainedShowsLatest(c) && CommandsInOrder(c)
  }

  lemma {:induction false} FirstPush(posted: seq<Posted>)
    requires posted != []
    ensures PushesOf(posted) == (if posted[0].Publish? then [posted[0].push] else []) + PushesOf(posted[1..])
    decreases |posted|
  {
    var n := |posted| - 1;
    if n == 0 {
      assert posted[..0] == [] && posted[1..] == [];
    } else {
      FirstPush(posted[..n]);
      assert posted[..n][1..] == posted[1..][..n - 1] && posted[1..][n - 1] == posted[n];
      RegroupNumbers(if posted[0].Publish? then [posted[0].push] else [], PushesOf(posted[1..][..n - 1]), if posted[n].Publish? then [posted[n].push] else []);
    }
  }

  lemma {:induction false} FirstCommand(posted: seq<Posted>)
    requires posted != []
    ensures CommandsOf(posted) == (if posted[0].Command? then [posted[0].id] else []) + CommandsOf(posted[1..])
    decreases |posted|
  {
    var n := |posted| - 1;
    if n == 0 {
      assert posted[..0] == [] && posted[1..] == [];
    } else {
      FirstCommand(posted[..n]);
      assert posted[..n][1..] == posted[1..][..n - 1] && posted[1..][n - 1] == posted[n];
      RegroupSpecs(if posted[0].Command? then [posted[0].id] else [], CommandsOf(posted[1..][..n - 1]), if posted[n].Command? then [posted[n].id] else []);
    }
  }

  lemma LastPosted(posted: seq<Posted>, p: Posted)
    ensures PushesOf(posted + [p]) == PushesOf(posted) + if p.Publish? then [p.push] else []
    ensures CommandsOf(posted + [p]) == CommandsOf(posted) + if p.Command? then [p.id] else []
  {
    assert (posted + [p])[..|posted|] == posted;
  }

  lemma LastBroadcast(broadcasts: seq<Broadcast>, b: Broadcast)
    ensures Answered(broadcasts + [b]) == Answered(broadcasts) + match b.answers case Some(push) => [push] case None => []
  {
    assert (broadcasts + [b])[..|broadcasts|] == broadcasts;
  }

  /** The steps that touch the broadcast side. */
  datatype CastStep = Push(queue: seq<Spec>) | PostPush | Post(id: string) | ServeOne | EngineBroadcast

  predicate CastEnabled(c: Casts, step: CastStep) {
    match step
    case Push(_) => !c.publishing
    case PostPush => c.publishing && c.pushes != []
    case ServeOne => c.engineBox != []
    case _ => true
  }

  function CastApply(c: Casts, step: CastStep): Casts
    requires CastEnabled(c, step)
  {
    match step
    case Push(queue) => PushSnapshot(c, queue)
    case PostPush => PostPublish(c)
    case Post(id) => PostCommand(c, id)
    case ServeOne => ServeNext(c)
    case EngineBroadcast => BroadcastCache(c, None)
  }

  lemma StaysFresh(c: Casts, step: CastStep)
    requires Fresh(c) && CastEnabled(c, step)
    ensures Fresh(CastApply(c, step))
  {
  }

  lemma PostingIsAnsweredOnce(c: Casts, p: Posted)
    requires EachAnsweredOnce(c) && (if p.Publish? then c.publishing && p.push == |c.pushes| - 1 else true)
    ensures EachAnsweredOnce(if p.Publish? then PostPublish(c) else PostCommand(c, p.id))
  {
    LastPosted(c.engineBox, p);
    if p.Publish? {
      UpToOneMore(|c.pushes| - 2);
    }
    hide PushesOf, Answered, UpTo;
  }

  lemma RegroupNumbers(a: seq<nat>, b: seq<nat>, c: seq<nat>)
    ensures (a + b) + c == a + (b + c)
  {
  }

  lemma ServingIsAnsweredOnce(c: Casts)
    requires EachAnsweredOnce(c) && c.engineBox != []
    ensures EachAnsweredOnce(ServeNext(c))
  {
    FirstPush(c.engineBox);
    var rest := PushesOf(c.engineBox[1..]);
    match c.engineBox[0]
    case Publish(push) =>
      LastBroadcast(c.broadcasts, ServeNext(c).broadcasts[|c.broadcasts|]);
      RegroupNumbers(Answered(c.broadcasts), [push], rest);
    case Command(_) =>
      assert [] + rest == rest;
    hide PushesOf, Answered, UpTo;
  }

  lemma StaysAnsweredOnce(c: Casts, step: CastStep)
    requires EachAnsweredOnce(c) && CastEnabled(c, step)
    ensures EachAnsweredOnce(CastApply(c, step))
  {
    match step
    case Push(_) =>
    case PostPush => PostingIsAnsweredOnce(c, Publish(|c.pushes| - 1));
    case Post(id) => PostingIsAnsweredOnce(c, Command(id));
    case ServeOne => ServingIsAnsweredOnce(c);
    case EngineBroadcast => LastBroadcast(c.broadcasts, BroadcastCache(c, None).broadcasts[|c.broadcasts|]);
    hide PushesOf, Answered, UpTo, ServeNext, PostCommand;
  }

  lemma UpToOneMore(n: nat)
    ensures UpTo(n + 1) == UpTo(n) + [n + 1]
  {
  }

  lemma StaysDrained(c: Casts, step: CastStep)
    requires DrainedShowsLatest(c) && Fresh(c) && CastEnabled(c, step)
    ensures DrainedShowsLatest(CastApply(c, step))
  {
    hide PushesOf;
    match step
    case Push(_) =>
    case PostPush => LastPosted(c.engineBox, Publish(|c.pushes| - 1));
    case Post(id) => LastPosted(c.engineBox, Command(id));
    case ServeOne => FirstPush(c.engineBox);
    case EngineBroadcast =>
  }

  lemma PostingKeepsOrder(c: Casts, p: Posted)
    requires CommandsInOrder(c)
    ensures c.handled + CommandsOf(c.engineBox + [p]) == c.submitted + if p.Command? then [p.id] else []
  {
    LastPosted(c.engineBox, p);
    RegroupSpecs(c.handled, CommandsOf(c.engineBox), if p.Command? then [p.id] else []);
    hide CommandsOf, PushesOf;
  }

  lemma ServingKeepsOrder(c: Casts)
    requires CommandsInOrder(c) && c.engineBox != []
    ensures CommandsInOrder(ServeNext(c))
  {
    FirstCommand(c.engineBox);
    RegroupSpecs(c.handled, if c.engineBox[0].Command? then [c.engineBox[0].id] else [], CommandsOf(c.engineBox[1..]));
    assert c.handled + [] == c.handled;
    hide CommandsOf;
  }

  lemma CommandsStayInOrder(c: Casts, step: CastStep)
    requires CommandsInOrder(c) && CastEnabled(c, step)
    ensures CommandsInOrder(CastApply(c, step))
  {
    match step
    case Push(_) =>
    case PostPush =>
      PostingKeepsOrder(c, Publish(|c.pushes| - 1));
      assert c.submitted + [] == c.submitted;
    case Post(id) => PostingKeepsOrder(c, Command(id));
    case ServeOne => ServingKeepsOrder(c);
    case EngineBroadcast =>
    hide CommandsOf, ServeNext;
  }

  lemma StepKeepsBroadcastInvariant(s: State, a: Action)
    requires BroadcastInvariant(s.casts) && Enabled(s, a)
    ensures BroadcastInvariant(Apply(s, a).casts)
  {
    if a.PushFromClient? || a.PostFromClient? || a.Submit? || a.Serve? || a.PublishFromEngine? {
      var step :=
        match a
        case PushFromClient => Push(s.queue)
        case PostFromClient => PostPush
        case Submit(id) => Post(id)
        case Serve => ServeOne
        case _ => EngineBroadcast;
      assert Apply(s, a).casts == CastApply(s.casts, step);
      StaysFresh(s.casts, step);
      StaysAnsweredOnce(s.casts, step);
      StaysDrained(s.casts, step);
      CommandsStayInOrder(s.casts, step);
      hide Fresh, EachAnsweredOnce, DrainedShowsLatest, CommandsInOrder;
    }
  }

  lemma {:induction false} BroadcastInvariantHolds(s: State, run: seq<Action>)
    requires BroadcastInvariant(s.casts) && Legal(s, run)
    ensures BroadcastInvariant(After(s, run).casts)
    decreases |run|
  {
    hide BroadcastInvariant;
    if run != [] {
      StepKeepsBroadcastInvariant(s, run[0]);
      BroadcastInvariantHolds(Apply(s, run[0]), run[1..]);
    }
  }

  lemma StartIsFresh(queue: seq<Spec>)
    ensures BroadcastInvariant(Installed(queue).casts)
  {
  }

  // ---- what the client did, read off the run alone ----

  /** The client's own queue after one more action. */
  function QueueStep(queue: seq<Spec>, a: Action): seq<Spec> {
    match a
    case Add(spec) => queue + [spec]
    case Rewrite(other) => other
    case Answer => if queue == [] then queue else queue[1..]
    case _ => queue
  }

  function QueueAfter(queue: seq<Spec>, run: seq<Action>): seq<Spec>
    decreases |run|
  {
    if run == [] then queue else QueueAfter(QueueStep(queue, run[0]), run[1..])
  }

  /** The whole queue as the client had it at each publish, in order. */
  function QueuesPublished(queue: seq<Spec>, run: seq<Action>): seq<seq<Spec>>
    decreases |run|
  {
    if run == [] then []
    else (if run[0].PushFromClient? then [queue] else []) + QueuesPublished(QueueStep(queue, run[0]), run[1..])
  }

  /** The queue installed, and then the queue at each publish. */
  function History(queue: seq<Spec>, run: seq<Action>): (h: seq<seq<Spec>>)
    ensures h != []
  {
    [queue] + QueuesPublished(queue, run)
  }

  /** The specs at the head of the queue when questions were answered, in order. */
  function HeadsAnswered(queue: seq<Spec>, run: seq<Action>): seq<Spec>
    decreases |run|
  {
    if run == [] then []
    else (if run[0].Answer? && queue != [] then [queue[0]] else []) + HeadsAnswered(QueueStep(queue, run[0]), run[1..])
  }

  function SubmittedBy(run: seq<Action>): seq<string> {
    if run == [] then [] else (if run[0].Submit? then [run[0].id] else []) + SubmittedBy(run[1..])
  }

  /** How many publishes a run posts. */
  function PostsIn(run: seq<Action>): nat {
    if run == [] then 0 else (if run[0].PostFromClient? then 1 else 0) + PostsIn(run[1..])
  }

  lemma StepFollowsTheClient(s: State, a: Action)
    requires Enabled(s, a)
    ensures var t := Apply(s, a);
            t.queue == QueueStep(s.queue, a) &&
            t.casts.pushes == s.casts.pushes + (if a.PushFromClient? then [s.queue] else []) &&
            t.casts.submitted == s.casts.submitted + (if a.Submit? then [a.id] else []) &&
            Specs(t.pulls.pops) == Specs(s.pulls.pops) + (if a.Answer? && s.queue != [] then [s.queue[0]] else [])
  {
  }

  lemma RegroupQueues(a: seq<seq<Spec>>, b: seq<seq<Spec>>, c: seq<seq<Spec>>)
    ensures (a + b) + c == a + (b + c)
  {
  }

  /** Every legal run leaves the client's queue, the pushes, the pops and the submitted commands as its
      own actions, in order, say. */
  lemma {:induction false} RunFollowsTheClient(s: State, run: seq<Action>)
    requires Legal(s, run)
    ensures var t := After(s, run);
            t.queue == QueueAfter(s.queue, run) && t.casts.pushes == s.casts.pushes + QueuesPublished(s.queue, run) &&
            t.casts.submitted == s.casts.submitted + SubmittedBy(run) &&
            Specs(t.pulls.pops) == Specs(s.pulls.pops) + HeadsAnswered(s.queue, run)
    decreases |run|
  {
    hide Specs, Apply, Enabled, QueueStep;
    if run != [] {
      var a, rest := run[0], run[1..];
      StepFollowsTheClient(s, a);
      RunFollowsTheClient(Apply(s, a), rest);
      var next := QueueStep(s.queue, a);
      RegroupQueues(s.casts.pushes, if a.PushFromClient? then [s.queue] else [], QueuesPublished(next, rest));
      RegroupSpecs(s.casts.submitted, if a.Submit? then [a.id] else [], SubmittedBy(rest));
      RegroupSpecs(Specs(s.pulls.pops), if a.Answer? && s.queue != [] then [s.queue[0]] else [], HeadsAnswered(next, rest));
    }
  }

  /** What was popped over a whole run, the client rewriting its queue as it likes: the head of the queue
      as it stood at each answer, and the queue left is the client's own. */
  lemma PopsAreTheHeads(queue: seq<Spec>, run: seq<Action>)
    requires Legal(Installed(queue), run)
    ensures var s := After(Installed(queue), run);
            Specs(s.pulls.pops) == HeadsAnswered(queue, run) && s.queue == QueueAfter(queue, run)
  {
    RunFollowsTheClient(Installed(queue), run);
    assert Specs([]) == [];
    assert [] + HeadsAnswered(queue, run) == HeadsAnswered(queue, run);
    hide After, Legal;
  }

  lemma StepCountsPosts(s: State, a: Action)
    requires EachAnsweredOnce(s.casts) && Enabled(s, a)
    ensures var t := Apply(s, a);
            Posts(t.casts) == Posts(s.casts) + (if a.PostFromClient? then 1 else 0) &&
            |t.casts.pushes| - Posts(t.casts) == 1 + if t.casts.publishing then 1 else 0
  {
    hide PushesOf, Answered, UpTo;
  }

  lemma {:induction false} RunCountsPosts(s: State, run: seq<Action>)
    requires Legal(s, run) && BroadcastInvariant(s.casts)
    ensures var c := After(s, run).casts;
            Posts(c) == Posts(s.casts) + PostsIn(run) && |c.pushes| - Posts(c) == 1 + if c.publishing then 1 else 0
    decreases |run|
  {
    assert EachAnsweredOnce(s.casts);
    hide Apply, BroadcastInvariant, PushesOf, Answered, UpTo;
    if run != [] {
      StepCountsPosts(s, run[0]);
      StepKeepsBroadcastInvariant(s, run[0]);
      RunCountsPosts(Apply(s, run[0]), run[1..]);
    }
  }

  lemma PushesAreTheHistory(queue: seq<Spec>, run: seq<Action>)
    requires Legal(Installed(queue), run)
    ensures var c := After(Installed(queue), run).casts;
            c.pushes == History(queue, run) && c.submitted == SubmittedBy(run) && BroadcastInvariant(c) &&
            Posts(c) == PostsIn(run) && (c.publishing <==> PostsIn(run) != |History(queue, run)| - 1)
  {
    hide *;
    RunFollowsTheClient(Installed(queue), run);
    StartIsFresh(queue);
    BroadcastInvariantHolds(Installed(queue), run);
    RunCountsPosts(Installed(queue), run);
    InstalledMeans(queue);
    HistoryMeans(queue, run);
    assert [] + SubmittedBy(run) == SubmittedBy(run);
  }

  lemma InstalledMeans(queue: seq<Spec>)
    ensures var s := Installed(queue); s.queue == queue && s.casts.pushes == [queue] && s.casts.submitted == [] && Posts(s.casts) == 0
  {
  }

  lemma HistoryMeans(queue: seq<Spec>, run: seq<Action>)
    ensures History(queue, run) == [queue] + QueuesPublished(queue, run)
  {
  }

  /** In every run each broadcast shows the whole queue as the client had it at some publish, no earlier
      than the publish it answers; broadcasts never go back to an earlier one; every publish posted is
      answered once, in order; and once each publish begun is posted and answered the last broadcast is
      the queue as it was at the last publish. */
  lemma BroadcastsAreFresh(queue: seq<Spec>, run: seq<Action>)
    requires Legal(Installed(queue), run)
    ensures var c, h := After(Installed(queue), run).casts, History(queue, run);
            (forall k | 0 <= k < |c.broadcasts| ::
               var b := c.broadcasts[k];
               b.push < |h| && b.value == h[b.push] && (b.answers.Some? ==> b.answers.value <= b.push)) &&
            (forall j, k | 0 <= j < k < |c.broadcasts| :: c.broadcasts[j].push <= c.broadcasts[k].push) &&
            Answered(c.broadcasts) + PushesOf(c.engineBox) == UpTo(PostsIn(run)) &&
            (PostsIn(run) == |h| - 1 > 0 && PushesOf(c.engineBox) == [] ==>
               c.broadcasts != [] && c.broadcasts[|c.broadcasts| - 1].value == h[|h| - 1])
  {
    PushesAreTheHistory(queue, run);
    BroadcastFacts(After(Installed(queue), run).casts);
    hide After, Legal, BroadcastInvariant, History, UpTo, Answered, PushesOf;
  }

  lemma BroadcastFacts(c: Casts)
    requires BroadcastInvariant(c)
    ensures forall k | 0 <= k < |c.broadcasts| ::
              var b := c.broadcasts[k];
              b.push < |c.pushes| && b.value == c.pushes[b.push] && (b.answers.Some? ==> b.answers.value <= b.push)
    ensures forall j, k | 0 <= j < k < |c.broadcasts| :: c.broadcasts[j].push <= c.broadcasts[k].push
    ensures Answered(c.broadcasts) + PushesOf(c.engineBox) == UpTo(Posts(c)) && c.handled + CommandsOf(c.engineBox) == c.submitted
    ensures !c.publishing && PushesOf(c.engineBox) == [] && |c.pushes| > 1 ==>
              c.broadcasts != [] && c.broadcasts[|c.broadcasts| - 1].push == |c.pushes| - 1
  {
    hide UpTo, Answered, PushesOf, CommandsOf;
  }

  /** Commands are handled once each, in the order the client submitted them. */
  lemma CommandsHandledInOrder(queue: seq<Spec>, run: seq<Action>)
    requires Legal(Installed(queue), run)
    ensures var c := After(Installed(queue), run).casts; c.handled + CommandsOf(c.engineBox) == SubmittedBy(run)
  {
    PushesAreTheHistory(queue, run);
    BroadcastFacts(After(Installed(queue), run).casts);
    hide After, Legal, BroadcastInvariant, History, UpTo, Answered, PushesOf;
  }

  predicate Broadcasts(s: State, a: Action) {
    a.PublishFromEngine? || (a.Serve? && s.casts.engineBox != [] && s.casts.engineBox[0].Publish?)
  }

  /** After any run, a broadcast of either kind, served to the client or made on the engine's own thread,
      shows the client's queue as it is exactly when it is what it was at the last publish. */
  lemma BroadcastIsCurrentIff(queue: seq<Spec>, run: seq<Action>, a: Action)
    requires Legal(Installed(queue), run) && Enabled(After(Installed(queue), run), a)
    requires Broadcasts(After(Installed(queue), run), a)
    ensures var s := After(Installed(queue), run);
            var t := Apply(s, a);
            var h := History(queue, run);
            |t.casts.broadcasts| == |s.casts.broadcasts| + 1 &&
            (t.casts.broadcasts[|s.casts.broadcasts|].value == QueueAfter(queue, run) <==> h[|h| - 1] == QueueAfter(queue, run))
  {
    PushesAreTheHistory(queue, run);
    CacheIsLastPush(After(Installed(queue), run).casts);
    BroadcastShowsTheCache(After(Installed(queue), run), a);
    hide After, Legal, BroadcastInvariant, History, QueueAfter, Apply;
  }

  lemma BroadcastShowsTheCache(s: State, a: Action)
    requires Enabled(s, a) && Broadcasts(s, a)
    ensures var shown := Apply(s, a).casts.broadcasts;
            |shown| == |s.casts.broadcasts| + 1 && shown[|s.casts.broadcasts|].value == s.casts.cache
  {
  }

  lemma CacheIsLastPush(c: Casts)
    requires BroadcastInvariant(c)
    ensures c.pushes != [] && c.cache == c.pushes[|c.pushes| - 1]
  {
  }

  /** After any run, a publish that is served broadcasts the queue as it was when that publish was asked
      for exactly when what was pushed last is still that queue. */
  lemma PublishShowsItsOwnQueueIff(queue: seq<Spec>, run: seq<Action>)
    requires Legal(Installed(queue), run) && Enabled(After(Installed(queue), run), Serve)
    requires After(Installed(queue), run).casts.engineBox[0].Publish?
    ensures var s := After(Installed(queue), run); var c, h := s.casts, History(queue, run);
            var asked := c.engineBox[0].push;
            var shown := Apply(s, Serve).casts.broadcasts;
            asked < |h| && |shown| == |c.broadcasts| + 1 && shown[|c.broadcasts|].answers == Some(asked) &&
            (shown[|c.broadcasts|].value == h[asked] <==> h[|h| - 1] == h[asked])
  {
    hide *;
    PushesAreTheHistory(queue, run);
    var s := After(Installed(queue), run);
    ServeIsServeNext(s);
    ServedPublishShowsTheLastPush(s.casts);
  }

  lemma ServeIsServeNext(s: State)
    requires Enabled(s, Serve)
    ensures s.casts.engineBox != [] && Apply(s, Serve).casts == ServeNext(s.casts)
  {
    hide ServeNext;
  }

  lemma ServedPublishShowsTheLastPush(c: Casts)
    requires BroadcastInvariant(c) && c.engineBox != [] && c.engineBox[0].Publish?
    ensures var shown := ServeNext(c).broadcasts;
            c.pushes != [] && c.engineBox[0].push < |c.pushes| && |shown| == |c.broadcasts| + 1 &&
            shown[|c.broadcasts|].answers == Some(c.engineBox[0].push) && shown[|c.broadcasts|].value == c.pushes[|c.pushes| - 1]
  {
    CacheIsLastPush(c);
    PublishesArePushed(c);
    hide BroadcastInvariant;
  }

  lemma PublishesArePushed(c: Casts)
    requires BroadcastInvariant(c) && c.engineBox != [] && c.engineBox[0].Publish?
    ensures c.engineBox[0].push < |c.pushes|
  {
    assert Fresh(c);
    hide BroadcastInvariant;
  }

  /** With a second publish asked for before the first is served, the first shows the second's queue. */
  lemma PublishCanShowALaterQueue(spec: Spec)
    ensures var run := [PushFromClient, PostFromClient, Add(spec), PushFromClient, PostFromClient, Serve];
            Legal(Installed([]), run) &&
            var c := After(Installed([]), run).casts;
            c.pushes == [[], [], [spec]] && c.broadcasts == [Broadcast([spec], 2, Some(1))]
  {
    var s0 := Installed([]);
    var s1 := Apply(s0, PushFromClient);
    var s2 := Apply(s1, PostFromClient);
    var s3 := Apply(s2, Add(spec));
    var s4 := Apply(s3, PushFromClient);
    var s5 := Apply(s4, PostFromClient);
    var s6 := Apply(s5, Serve);
    assert s1.casts.pushes == [[], []] && s2.casts.engineBox == [Publish(1)];
    assert s3.queue == [spec];
    assert s4.casts.pushes == [[], [], [spec]];
    assert s5.casts.engineBox == [Publish(1), Publish(2)] && s5.casts.cache == [spec];
    assert s6.casts.pushes == [[], [], [spec]] && s6.casts.broadcasts == [Broadcast([spec], 2, Some(1))];
    hide Apply;
    assert [Serve][1..] == [];
    assert Legal(s5, [Serve]) && After(s5, [Serve]) == s6;
    OneStepFirst(s4, PostFromClient, [Serve]);
    OneStepFirst(s3, PushFromClient, [PostFromClient, Serve]);
    OneStepFirst(s2, Add(spec), [PushFromClient, PostFromClient, Serve]);
    OneStepFirst(s1, PostFromClient, [Add(spec), PushFromClient, PostFromClient, Serve]);
    OneStepFirst(s0, PushFromClient, [PostFromClient, Add(spec), PushFromClient, PostFromClient, Serve]);
  }

  lemma OneStepFirst(s: State, a: Action, rest: seq<Action>)
    requires Enabled(s, a) && Legal(Apply(s, a), rest)
    ensures Legal(s, [a] + rest) && After(s, [a] + rest) == After(Apply(s, a), rest)
  {
    assert ([a] + rest)[1..] == rest;
  }

  /** A broadcast asked for on the engine's own thread pushes nothing: after a pop the client has not
      published, it still shows the popped spec. */
  lemma EngineBroadcastCanBeStale(spec: Spec)
    ensures var run := [Pull, Answer, Receive(true), PublishFromEngine];
            Legal(Installed([spec]), run) &&
            var s := After(Installed([spec]), run);
            s.queue == [] && |s.casts.broadcasts| == 1 && s.casts.broadcasts[0].value == [spec]
  {
    var s0 := Installed([spec]);
    var s1 := Apply(s0, Pull);
    var s2 := Apply(s1, Answer);
    var s3 := Apply(s2, Receive(true));
    var s4 := Apply(s3, PublishFromEngine);
    var run := [Pull, Answer, Receive(true), PublishFromEngine];
    assert run[1..] == [Answer, Receive(true), PublishFromEngine];
    assert run[1..][1..] == [Receive(true), PublishFromEngine];
    assert run[1..][1..][1..] == [PublishFromEngine];
    assert Legal(s4, []) && After(s4, []) == s4;
    assert Legal(s3, [PublishFromEngine]) && After(s3, [PublishFromEngine]) == s4;
    assert Legal(s2, run[1..][1..]) && After(s2, run[1..][1..]) == s4;
    assert Legal(s1, run[1..]) && After(s1, run[1..]) == s4;
  }
}
