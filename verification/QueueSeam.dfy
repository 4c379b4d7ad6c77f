/** The objects that carry the run queue across the two threads, each of whose steps is a step of the
    protocol. */
module QueueSeam {
  import opened PyValues
  import P = QueueProtocol

  /** The engine's own copy of the queue, as of the latest snapshot the client handed over. */
  class QueueSnapshotCache {
    var entries: seq<P.Spec>

    constructor ()
      ensures entries == []
    {
      entries := [];
    }

    method Push(queue: seq<P.Spec>)
      modifies this
      ensures entries == queue
    {
      entries := queue;
    }
  }

  /** What calling across the threads gives: the value returned, or what was raised. */
  datatype Outcome = Returned(value: Option<P.Spec>) | Raising

  /** A call the engine wants made on the client thread, and what came of it. */
  class Question {
    var result: Option<P.Spec>
    var error: bool
    var done: bool

    constructor ()
      ensures !done && !error && result == None
    {
      result, error, done := None, false, false;
    }

    /** Keeps what the call gave, a value or an error; either way the wait for it may end. */
    method Run(outcome: Outcome)
      modifies this
      ensures done
      ensures match outcome
              case Returned(value) => result == value && error == old(error)
              case Raising => error && result == old(result)
    {
      match outcome {
        case Returned(value) => result := value;
        case Raising => error := true;
      }
      done := true;
    }

    /** The question stands as the protocol has it. */
    ghost predicate Shows(ask: P.Ask)
      reads this
    {
      match ask
      case Pending => !done && !error && result == None
      case Nothing => done && !error && result == None
      case Popped(_, spec) => done && !error && result == Some(spec)
      case Raised => done && error
    }
  }

  /** What the protocol calls the outcome. */
  predicate Gives(outcome: Outcome, ask: P.Ask) {
    match outcome
    case Returned(None) => ask.Nothing?
    case Returned(Some(spec)) => ask.Popped? && ask.spec == spec
    case Raising => ask.Raised?
  }

  /** How a pull ended for the engine. */
  datatype Pulled = NoRun | Built(spec: P.Spec) | BuildFailed | AskRaised

  /** The run an action builds, if it builds one. */
  function BuiltBy(s: P.State, a: P.Action): seq<P.Spec>
    requires P.Enabled(s, a)
  {
    if a == P.Receive(true) && s.pulls.asks[s.pulls.waiting.value].Popped? then [s.pulls.asks[s.pulls.waiting.value].spec] else []
  }

  lemma BuiltAreNumbered(p: P.Pulls)
    requires P.PullInvariant(p)
    ensures forall t | t in p.built :: t < |p.pops|
  {
  }

  lemma SameRuns(p: P.Pulls, q: P.Pulls)
    requires (forall t | t in p.built :: t < |p.pops|) && q.built == p.built && p.pops <= q.pops
    ensures (forall t | t in q.built :: t < |q.pops|) && P.BuiltSpecs(q) == P.BuiltSpecs(p)
  {
    forall k | 0 <= k < |p.built| ensures P.BuiltSpecs(q)[k] == P.BuiltSpecs(p)[k] {
      assert p.built[k] in p.built;
    }
  }

  lemma OneMoreRun(p: P.Pulls, q: P.Pulls, ticket: nat)
    requires (forall t | t in p.built :: t < |p.pops|) && q.built == p.built + [ticket] && p.pops == q.pops && ticket < |p.pops|
    ensures (forall t | t in q.built :: t < |q.pops|) && P.BuiltSpecs(q) == P.BuiltSpecs(p) + [p.pops[ticket].spec]
  {
    forall k | 0 <= k < |p.built| ensures P.BuiltSpecs(q)[k] == P.BuiltSpecs(p)[k] {
      assert p.built[k] in p.built && q.built[k] == p.built[k];
    }
  }

  lemma RunsGrow(s: P.State, a: P.Action)
    requires P.PullInvariant(s.pulls) && P.Enabled(s, a)
    ensures var after := P.Apply(s, a).pulls;
            P.PullInvariant(after) && (forall t | t in s.pulls.built :: t < |s.pulls.pops|) &&
            (forall t | t in after.built :: t < |after.pops|) && P.BuiltSpecs(after) == P.BuiltSpecs(s.pulls) + BuiltBy(s, a)
  {
    P.StepKeepsPullInvariant(s, a);
    BuiltAreNumbered(s.pulls);
    var before, after := s.pulls, P.Apply(s, a).pulls;
    if BuiltBy(s, a) != [] {
      var ticket := before.asks[before.waiting.value].ticket;
      TicketIsAPop(before);
      OneMoreRun(before, after, ticket);
    } else {
      SameRuns(before, after);
    }
  }

  lemma StartIsSound(queue: seq<P.Spec>)
    ensures var p := P.Installed(queue).pulls;
            P.PullInvariant(p) && (forall t | t in p.built :: t < |p.pops|) && P.BuiltSpecs(p) == []
  {
  }

  lemma TicketIsAPop(p: P.Pulls)
    requires P.PullInvariant(p) && P.IsWaiting(p) && p.asks[p.waiting.value].Popped?
    ensures var ask := p.asks[p.waiting.value]; ask.ticket < |p.pops| && p.pops[ask.ticket].spec == ask.spec
  {
    var ask := p.asks[p.waiting.value];
    assert p.pops[ask.ticket].ask == p.waiting.value;
  }

  /** What an answer changes: the head of the client's mailbox leaves it with its answer. */
  lemma AnswerEffect(s: P.State, a: P.Action)
    requires P.Enabled(s, a) && (a.Answer? || a.AnswerRaising?)
    ensures var t := P.Apply(s, a); var p, q := s.pulls, t.pulls;
            p.clientBox != [] && p.clientBox[0] < |p.asks| && q.clientBox == p.clientBox[1..] &&
            q.asks == p.asks[p.clientBox[0] := AnswerTo(s, a)] && q.waiting == p.waiting && t.casts == s.casts &&
            t.queue == if a.Answer? && s.queue != [] then s.queue[1..] else s.queue
  {
  }

  /** What the end of a wait changes, besides the run it may build. */
  lemma EndEffect(s: P.State, a: P.Action)
    requires P.Enabled(s, a) && (a.TimeOut? || a.Receive?)
    ensures var t := P.Apply(s, a); var p, q := s.pulls, t.pulls;
            p.waiting.Some? && p.waiting.value < |p.asks| && (a.TimeOut? <==> p.asks[p.waiting.value].Pending?) &&
            q.clientBox == p.clientBox && q.asks == p.asks && q.waiting.None? && t.casts == s.casts && t.queue == s.queue
  {
  }

  /** What serving and publishing change: nothing of the pulls and nothing of the queue. */
  lemma CastEffect(s: P.State, a: P.Action)
    requires P.Enabled(s, a) && (a.Serve? || a.PushFromClient? || a.PostFromClient? || a.PublishFromEngine?)
    ensures var t := P.Apply(s, a);
            t.pulls == s.pulls && t.queue == s.queue &&
            t.casts == match a
                       case Serve => P.ServeNext(s.casts)
                       case PushFromClient => P.PushSnapshot(s.casts, s.queue)
                       case PostFromClient => P.PostPublish(s.casts)
                       case _ => P.BroadcastCache(s.casts, None)
  {
  }

  function AnswerTo(s: P.State, a: P.Action): P.Ask {
    if a.AnswerRaising? then P.Raised
    else if s.queue == [] then P.Nothing
    else P.Popped(|s.pulls.pops|, s.queue[0])
  }

  /** The client's queue, the two mailboxes and the engine's side of the seam. */
  class Seam {
    var queue: seq<P.Spec>
    const cache: QueueSnapshotCache
    var publishing: bool
    var engineBox: seq<P.Posted>
    var clientBox: seq<Question>
    var waiting: Question?
    var pushed: nat
    var events: seq<seq<P.Spec>>
    var runs: seq<P.Spec>
    var handled: seq<string>

    ghost var state: P.State
    ghost var asked: seq<Question>

    /** Every object of the seam. */
    ghost function Repr(): set<object>
      reads this
    {
      {this, cache} + set q | q in asked
    }

    /** The mailbox holds the questions still to run, and the engine waits for the one the protocol names. */
    ghost predicate QuestionsMatch()
      reads this
    {
      var p := state.pulls;
      |asked| == |p.asks| && |clientBox| == |p.clientBox| &&
      (forall i, j | 0 <= i < j < |asked| :: asked[i] != asked[j]) &&
      (forall k | 0 <= k < |clientBox| :: p.clientBox[k] < |asked| && clientBox[k] == asked[p.clientBox[k]]) &&
      (waiting == null <==> p.waiting.None?) && (p.waiting.Some? ==> p.waiting.value < |asked| && waiting == asked[p.waiting.value])
    }

    ghost predicate AnswersMatch()
      reads Repr()
    {
      |asked| == |state.pulls.asks| && forall i | 0 <= i < |asked| :: asked[i].Shows(state.pulls.asks[i])
    }

    ghost predicate CastsMatch()
      reads this, cache
    {
      var c := state.casts;
      queue == state.queue && cache.entries == c.cache && publishing == c.publishing && engineBox == c.engineBox && handled == c.handled &&
      pushed == |c.pushes| && |events| == |c.broadcasts| && forall k | 0 <= k < |events| :: events[k] == c.broadcasts[k].value
    }

    ghost predicate RunsMatch()
      reads this
    {
      P.PullInvariant(state.pulls) && (forall t | t in state.pulls.built :: t < |state.pulls.pops|) &&
      runs == P.BuiltSpecs(state.pulls)
    }

    ghost predicate Valid()
      reads Repr()
    {
      QuestionsMatch() && AnswersMatch() && CastsMatch() && RunsMatch()
    }

    /** Installing the queue pushes its first snapshot. */
    constructor (queue: seq<P.Spec>)
      ensures Valid() && fresh(Repr()) && state == P.Installed(queue) && asked == []
    {
      var snapshots := new QueueSnapshotCache();
      snapshots.Push(queue);
      StartIsSound(queue);
      this.queue, cache, publishing, pushed := queue, snapshots, false, 1;
      engineBox, clientBox, waiting, events, runs, handled := [], [], null, [], [], [];
      state, asked := P.Installed(queue), [];
      hide P.PullInvariant, P.BuiltSpecs;
    }

    // ---- on the client thread ----

    method Add(spec: P.Spec)
      requires Valid() && P.Enabled(state, P.Add(spec))
      modifies this
      ensures Valid() && state == P.Apply(old(state), P.Add(spec)) && asked == old(asked)
    {
      RunsGrow(state, P.Add(spec));
      hide P.PullInvariant, P.BuiltSpecs;
      queue := queue + [spec];
      state := P.Apply(state, P.Add(spec));
    }

    /** The first half of publishing: the snapshot crosses. */
    method PushSnapshot()
      requires Valid() && P.Enabled(state, P.PushFromClient)
      modifies this, cache
      ensures Valid() && state == P.Apply(old(state), P.PushFromClient) && asked == old(asked)
    {
      CastEffect(state, P.PushFromClient);
      hide P.PullInvariant, P.BuiltSpecs, P.Apply, P.Enabled;
      cache.Push(queue);
      publishing, pushed := true, pushed + 1;
      state := P.Apply(state, P.PushFromClient);
    }

    /** The second half: the engine is asked to broadcast it. */
    method PostPublish()
      requires Valid() && P.Enabled(state, P.PostFromClient)
      modifies this
      ensures Valid() && state == P.Apply(old(state), P.PostFromClient) && asked == old(asked)
    {
      CastEffect(state, P.PostFromClient);
      hide P.PullInvariant, P.BuiltSpecs, P.Apply, P.Enabled;
      engineBox := engineBox + [P.Publish(pushed - 1)];
      publishing := false;
      state := P.Apply(state, P.PostFromClient);
    }

    /** Posts a command to the engine. */
    method Submit(id: string)
      requires Valid() && P.Enabled(state, P.Submit(id))
      modifies this
      ensures Valid() && state == P.Apply(old(state), P.Submit(id)) && asked == old(asked)
    {
      RunsGrow(state, P.Submit(id));
      hide P.PullInvariant, P.BuiltSpecs;
      engineBox := engineBox + [P.Command(id)];
      state := P.Apply(state, P.Submit(id));
    }

    /** Pops the next spec off the queue. */
    method TakeNextSpec() returns (spec: Option<P.Spec>)
      modifies this`queue
      ensures if old(queue) == [] then spec == None && queue == [] else spec == Some(old(queue)[0]) && queue == old(queue)[1..]
    {
      if queue == [] {
        return None;
      }
      spec := Some(queue[0]);
      queue := queue[1..];
    }

    /** Takes the question at the head of the client's mailbox and runs it. */
    method RunFirst(outcome: Outcome, ghost next: P.State, ghost answer: P.Ask)
      requires QuestionsMatch() && AnswersMatch() && clientBox != [] && Gives(outcome, answer)
      requires var p, q := state.pulls, next.pulls;
               q.clientBox == p.clientBox[1..] && q.asks == p.asks[p.clientBox[0] := answer] && q.waiting == p.waiting
      requires !clientBox[0].done && !clientBox[0].error && clientBox[0].result == None
      modifies this`clientBox, this`state, clientBox[0]
      ensures QuestionsMatch() && AnswersMatch() && state == next && clientBox == old(clientBox)[1..]
    {
      var question := clientBox[0];
      clientBox := clientBox[1..];
      question.Run(outcome);
      state := next;
    }

    /** Answers the question at the head of the client's mailbox: it pops the next spec. */
    method AnswerNext()
      requires Valid() && P.Enabled(state, P.Answer)
      modifies this, clientBox[0]
      ensures Valid() && asked == old(asked)
      ensures state == P.Apply(old(state), P.Answer)
    {
      RunsGrow(state, P.Answer);
      AnswerEffect(state, P.Answer);
      FirstIsOpen();
      ghost var next := P.Apply(state, P.Answer);
      ghost var answer := AnswerTo(state, P.Answer);
      hide P.PullInvariant, P.BuiltSpecs, P.Apply, P.Enabled;
      var spec := TakeNextSpec();
      RunFirst(Returned(spec), next, answer);
    }

    /** The question at the head of the client's mailbox raises. */
    method AnswerRaising()
      requires Valid() && P.Enabled(state, P.AnswerRaising)
      modifies this, clientBox[0]
      ensures Valid() && asked == old(asked)
      ensures state == P.Apply(old(state), P.AnswerRaising)
    {
      RunsGrow(state, P.AnswerRaising);
      AnswerEffect(state, P.AnswerRaising);
      FirstIsOpen();
      ghost var next := P.Apply(state, P.AnswerRaising);
      hide P.PullInvariant, P.BuiltSpecs, P.Apply, P.Enabled;
      RunFirst(Raising, next, P.Raised);
    }

    /** The question at the head of the client's mailbox has not run. */
    lemma FirstIsOpen()
      requires Valid() && P.HasQuestion(state.pulls)
      ensures clientBox != [] && clientBox[0] in asked
      ensures !clientBox[0].done && !clientBox[0].error && clientBox[0].result == None
    {
      assert state.pulls.asks[state.pulls.clientBox[0]].Pending?;
      hide P.BuiltSpecs;
    }

    // ---- on the engine thread ----

    /** The first half of a pull: a new question goes to the client, and the engine waits for it. */
    method BeginPull()
      requires Valid() && P.Enabled(state, P.Pull)
      modifies this
      ensures Valid() && state == P.Apply(old(state), P.Pull) && fresh(Repr() - old(Repr()))
    {
      RunsGrow(state, P.Pull);
      hide P.PullInvariant, P.BuiltSpecs;
      var question := new Question();
      clientBox := clientBox + [question];
      waiting := question;
      asked := asked + [question];
      state := P.Apply(state, P.Pull);
    }

    /** What the engine makes of the question it waited for: nothing of one still unanswered, else
        what its answer holds, which it builds. */
    method ReadAnswer(question: Question, builds: bool) returns (pulled: Pulled)
      ensures pulled.Built? <==> question.done && builds && !question.error && question.result.Some?
      ensures pulled.Built? ==> question.result == Some(pulled.spec)
      ensures pulled.AskRaised? <==> question.done && question.error
      ensures pulled.NoRun? <==> !question.done || (!question.error && question.result.None?)
    {
      if !question.done {
        return NoRun;
      }
      if question.error {
        return AskRaised;
      }
      if question.result.None? {
        return NoRun;
      }
      if !builds {
        return BuildFailed;
      }
      pulled := Built(question.result.value);
    }

    method StopWaiting(ghost a: P.Action, built: seq<P.Spec>)
      requires Valid() && P.Enabled(state, a) && (a.TimeOut? || a.Receive?) && built == BuiltBy(state, a)
      modifies this`waiting, this`runs, this`state
      ensures Valid() && state == P.Apply(old(state), a) && runs == old(runs) + built
    {
      RunsGrow(state, a);
      EndEffect(state, a);
      hide P.PullInvariant, P.BuiltSpecs, P.Apply, P.Enabled, BuiltBy;
      waiting := null;
      runs := runs + built;
      state := P.Apply(state, a);
    }

    /** Ends the wait, whatever came of it; a run is built exactly when the answer holds a spec, nothing
        was raised and building it succeeds. */
    method EndPull(builds: bool) returns (pulled: Pulled)
      requires Valid() && waiting != null
      requires P.Enabled(state, if waiting.done then P.Receive(builds) else P.TimeOut)
      modifies this
      ensures Valid() && asked == old(asked)
      ensures state == P.Apply(old(state), if old(waiting.done) then P.Receive(builds) else P.TimeOut)
      ensures runs == if pulled.Built? then old(runs) + [pulled.spec] else old(runs)
      ensures pulled.Built? <==> old(waiting.done) && builds && !old(waiting.error) && old(waiting.result).Some?
    {
      ghost var a := if waiting.done then P.Receive(builds) else P.TimeOut;
      WaitingShows();
      hide P.PullInvariant, P.BuiltSpecs, P.Apply;
      pulled := ReadAnswer(waiting, builds);
      StopWaiting(a, if pulled.Built? then [pulled.spec] else []);
    }

    /** The question waited for stands as the protocol has it. */
    lemma WaitingShows()
      requires Valid() && waiting != null
      ensures P.IsWaiting(state.pulls) && waiting.Shows(state.pulls.asks[state.pulls.waiting.value])
    {
      hide P.PullInvariant, P.BuiltSpecs;
    }

    /** Runs the call at the head of the engine's mailbox. */
    method ServeNext()
      requires Valid() && P.Enabled(state, P.Serve)
      modifies this
      ensures Valid() && state == P.Apply(old(state), P.Serve) && asked == old(asked)
    {
      CastEffect(state, P.Serve);
      hide P.PullInvariant, P.BuiltSpecs, P.Apply, P.Enabled;
      match engineBox[0] {
        case Publish(_) => events := events + [cache.entries];
        case Command(id) => handled := handled + [id];
      }
      engineBox := engineBox[1..];
      state := P.Apply(state, P.Serve);
    }

    /** A publish on the engine's own thread pushes nothing and broadcasts at once. */
    method PublishHere()
      requires Valid() && P.Enabled(state, P.PublishFromEngine)
      modifies this
      ensures Valid() && state == P.Apply(old(state), P.PublishFromEngine) && asked == old(asked)
    {
      CastEffect(state, P.PublishFromEngine);
      hide P.PullInvariant, P.BuiltSpecs, P.Apply, P.Enabled;
      events := events + [cache.entries];
      state := P.Apply(state, P.PublishFromEngine);
    }
  }
}
