/** Every request gets its final answer unless the system stops working or the main loop ends:
there is a measure that every step lowers except what comes from outside, waiting, and polling with
nothing queued, and as long as an answer is missing there is a step that lowers it. */
module SyncProgress {
  import opened PropertyTree
  import opened RemoteCollector
  import opened SyncProtocol
  import opened SyncAnswers
  import opened SyncRuns
  import opened RemoteSecurity
  import Tasks
  import Scheduling

  // ---- the measure ----

  function StageLeft(s: Stage): nat {
    match s
    case AskVersion => 5
    case AskGeneral => 4
    case AskList => 3
    case AskModule(_) => 2
    case AskAgain => 1
    case Done(_) => 0
  }

  /** The status callback puts something into the queue, so it must be worth more than that. */
  function RequestLeft(r: Request): nat {
    StageLeft(r.collector.stage) + Tasks.RunnerLeft(r.task.pc)
    + if r.task.pc == Tasks.InRun || r.task.pc == Tasks.ToStatus then 20 else 0
  }

  function ModulesLeft(r: Request): nat {
    var c := r.collector;
    if c.stage.AskModule? && c.stage.i < |c.list| then |c.list| - c.stage.i else 0
  }

  function Sum(rs: seq<Request>, f: Request -> nat): nat {
    if rs == [] then 0 else Sum(rs[..|rs| - 1], f) + f(rs[|rs| - 1])
  }

  /** With something queued: how far an update is from taking it. */
  function UpdateLeft(s: Scheduling.Sched<MainTask>): nat {
    if s.queue == [] then 0
    else if s.batch.None? then 1
    else if s.batch.value.left > 0 then 0 else 2
  }

  function MainLeft(m: MainPc): nat {
    match m
    case Polling => 0
    case Replying(_) => 1
    case Aborting(_) => 1
    case Syncing(_, p, _) => ProgressLeft(p)
  }

  function Left(w: World): nat {
    Sum(w.requests, RequestLeft) + 10 * |w.sched.queue| + UpdateLeft(w.sched) + MainLeft(w.main)
  }

  /** What decides where `Left` stays the same: modules still to ask for or to store. */
  function InnerLeft(w: World): nat {
    Sum(w.requests, ModulesLeft) + StoringLeft(w)
  }

  predicate Closer(w': World, w: World) {
    Left(w') < Left(w) || (Left(w') == Left(w) && InnerLeft(w') < InnerLeft(w))
  }

  lemma {:induction false} SumUpdate(rs: seq<Request>, f: Request -> nat, g: nat, r: Request)
    requires g < |rs|
    ensures Sum(rs[g := r], f) + f(rs[g]) == Sum(rs, f) + f(r)
  {
    var front := rs[..|rs| - 1];
    if g < |rs| - 1 {
      SumUpdate(front, f, g, r);
      assert rs[g := r][..|rs| - 1] == front[g := r];
    } else {
      assert rs[g := r][..|rs| - 1] == front;
    }
  }

  // ---- which steps count ----

  /** Not of this unit's own making. */
  predicate FromOutside(a: Action) {
    a.Change? || a.Receive? || a.Refuse? || a.Stop?
  }

  /** Threads that wait for a task. */
  predicate IsWaiting(a: Action) {
    a.Pool? && (a.step.Call? || a.step.Acquire? || a.step.Test? || a.step.Sleep? || a.step.Spurious?)
  }

  predicate IsIdle(w: World, a: Action) {
    (a.BeginUpdate? || a.FinishUpdate?) && w.sched.queue == []
  }

  predicate Counts(w: World, a: Action) {
    !FromOutside(a) && !IsWaiting(a) && !IsIdle(w, a) && !a.Exit?
  }

  lemma CollectorAdvances(r: Request, r': Request, reply: Option<RemoteState>)
    requires !r.collector.stage.Done? && r'.task == r.task && r'.collector == Exchange(r.collector, reply)
    ensures || RequestLeft(r') < RequestLeft(r)
            || (RequestLeft(r') == RequestLeft(r) && ModulesLeft(r') < ModulesLeft(r))
  {
  }

  lemma ExchangeHelps(w: World, g: nat, lost: bool)
    requires MainInv(w) && DoExchange(w, g, lost).Some?
    ensures Closer(DoExchange(w, g, lost).value, w)
  {
    var w', r := DoExchange(w, g, lost).value, w.requests[g];
    var reply := if lost then None else Some(Last(w.remotes[r.endpoint]));
    assert w'.requests == w.requests[g := w'.requests[g]];
    SumUpdate(w.requests, RequestLeft, g, w'.requests[g]);
    SumUpdate(w.requests, ModulesLeft, g, w'.requests[g]);
    CollectorAdvances(r, w'.requests[g], reply);
    // what is being stored is not being fetched
    assert w.main.Syncing? ==> w.main.g != g;
    assert StoringLeft(w') == StoringLeft(w);
  }

  /** A step of the runner of a fetch task. */
  lemma RunnerAdvances(w: World, g: nat, a: Tasks.Action)
    requires DoPool(w, g, a).Some? && !IsWaiting(Pool(g, a))
    ensures var r' := DoPool(w, g, a).value.requests[g];
            RequestLeft(r') + (if a.FireStatus? then 20 else 0) < RequestLeft(w.requests[g])
  {
  }

  lemma PoolHelps(w: World, g: nat, a: Tasks.Action)
    requires DoPool(w, g, a).Some? && !IsWaiting(Pool(g, a))
    ensures Closer(DoPool(w, g, a).value, w)
  {
    var w' := DoPool(w, g, a).value;
    PoolTouches(w, g, a);
    RunnerAdvances(w, g, a);
    assert w'.requests == w.requests[g := w'.requests[g]];
    SumUpdate(w.requests, RequestLeft, g, w'.requests[g]);
  }

  lemma LoopHelps(w: World, a: Action)
    requires Do(w, a).Some? && !IsIdle(w, a) && MainInv(w)
    requires a.Reply? || a.BeginUpdate? || a.TakeTask? || a.FinishUpdate?
    ensures Closer(Do(w, a).value, w)
  {
    var w' := Do(w, a).value;
    assert w'.requests == w.requests;
  }

  lemma WorkHelps(w: World, threw: bool)
    requires MainInv(w) && DoWork(w, threw).Some?
    ensures Closer(DoWork(w, threw).value, w)
  {
    var w' := DoWork(w, threw).value;
    assert w'.requests == w.requests && w'.sched == w.sched;
  }

  /** Whatever the unit itself does, it comes closer to having answered everything. */
  lemma EveryStepHelps(w: World, a: Action)
    requires MainInv(w) && Do(w, a).Some? && Counts(w, a)
    ensures Closer(Do(w, a).value, w)
  {
    match a {
      case Exchanged(g, lost) => ExchangeHelps(w, g, lost);
      case Pool(g, step) => PoolHelps(w, g, step);
      case Work(threw) => WorkHelps(w, threw);
      case _ => LoopHelps(w, a);
    }
  }

  predicate SameDistance(w': World, w: World) {
    Left(w') == Left(w) && InnerLeft(w') == InnerLeft(w)
  }

  lemma WaitingDoesNotHurt(w: World, g: nat, a: Tasks.Action)
    requires DoPool(w, g, a).Some? && IsWaiting(Pool(g, a))
    ensures SameDistance(DoPool(w, g, a).value, w)
  {
    var w', r := DoPool(w, g, a).value, w.requests[g];
    var r' := w'.requests[g];
    assert r'.task.pc == r.task.pc && r' == r.(task := r'.task);
    assert w' == w.(requests := w.requests[g := r']);
    SumUpdate(w.requests, RequestLeft, g, r');
    SumUpdate(w.requests, ModulesLeft, g, r');
    assert StoringLeft(w') == StoringLeft(w);
  }

  lemma IdlingDoesNotHurt(w: World, a: Action)
    requires Do(w, a).Some? && (IsIdle(w, a) || a.Change? || a.Stop?)
    ensures SameDistance(Do(w, a).value, w)
  {
    var w' := Do(w, a).value;
    assert w'.requests == w.requests && w'.main == w.main && w'.sched.queue == w.sched.queue;
  }

  /** Waiting, polling with nothing queued, remote changes and the wish to stop set nothing back. */
  lemma OthersDoNotHurt(w: World, a: Action)
    requires Do(w, a).Some? && !Counts(w, a) && !a.Receive? && !a.Refuse? && !a.Exit?
    ensures SameDistance(Do(w, a).value, w)
  {
    if a.Pool? { WaitingDoesNotHurt(w, a.g, a.step); } else { IdlingDoesNotHurt(w, a); }
  }

  // ---- some step is always there ----

  predicate Unanswered(w: World, g: nat) {
    g < |w.requests| && |About(w.sent, g)| < 2
  }

  /** The next step of a fetch that has not reported yet. */
  function FetchStep(r: Request, g: nat): Action {
    if r.task.pc == Tasks.ToStatus then Pool(g, Tasks.FireStatus)
    else if r.collector.stage.Done? then Pool(g, Tasks.Work(Tasks.Returned(r.collector.stage.ok)))
    else Exchanged(g, true)
  }

  /** The next step of the main thread. */
  function MainStep(w: World): Action {
    match w.main
    case Replying(_) => Reply
    case Syncing(_, _, _) => Work(false)
    case Aborting(_) => Work(false)
    case Polling =>
      if w.sched.batch.None? then BeginUpdate else if w.sched.batch.value.left > 0 then TakeTask else FinishUpdate
  }

  lemma FetchStepWorks(w: World, g: nat)
    requires InPool(w, g)
    ensures Do(w, FetchStep(w.requests[g], g)).Some? && Counts(w, FetchStep(w.requests[g], g))
  {
  }

  lemma MainStepWorks(w: World)
    requires MainInv(w) && w.loop != Exited && (w.main != Polling || w.sched.queue != [])
    ensures Do(w, MainStep(w)).Some? && Counts(w, MainStep(w))
  {
  }

  /** While an answer is missing and the main loop has not ended, the unit has a step to take, and
      it comes closer by it. */
  lemma SomeStepHelps(w: World, g: nat)
    requires MainInv(w) && AnswerInv(w) && Unanswered(w, g) && w.loop != Exited
    ensures exists a :: Counts(w, a) && Do(w, a).Some? && Closer(Do(w, a).value, w)
  {
    assert AnswerOk(w, g);
    var a := if InPool(w, g) then FetchStep(w.requests[g], g) else MainStep(w);
    if InPool(w, g) {
      FetchStepWorks(w, g);
    } else {
      if !ReplyDue(w, g) && !OnMain(w, g) { QueuedSomewhere(w, g); }
      MainStepWorks(w);
    }
    EveryStepHelps(w, a);
  }

  lemma QueuedSomewhere(w: World, g: nat)
    requires Queued(w, g) > 0
    ensures w.sched.queue != []
  {
  }

  /** From `w` on, `acts` is a run of the unit alone that ends with the final answer sent. */
  ghost predicate LeadsToAnswer(w: World, acts: seq<Action>, g: nat)
    decreases |acts|
  {
    if acts == [] then |About(w.sent, g)| == 2
    else !FromOutside(acts[0]) && Do(w, acts[0]).Some? && LeadsToAnswer(Do(w, acts[0]).value, acts[1..], g)
  }

  ghost predicate CanBeAnswered(w: World, g: nat) {
    exists more :: LeadsToAnswer(w, more, g)
  }

  lemma AnsweredAlready(w: World, g: nat)
    requires |About(w.sent, g)| == 2
    ensures CanBeAnswered(w, g)
  {
    assert LeadsToAnswer(w, [], g);
  }

  lemma AnsweredAfter(w: World, a: Action, g: nat)
    requires !FromOutside(a) && Do(w, a).Some? && CanBeAnswered(Do(w, a).value, g)
    ensures CanBeAnswered(w, g)
  {
    var acts :| LeadsToAnswer(Do(w, a).value, acts, g);
    assert ([a] + acts)[1..] == acts;
    assert LeadsToAnswer(w, [a] + acts, g);
  }

  /** As long as the main loop has not ended, the unit can go on, with nothing from outside, until
      the request has had its final answer. */
  lemma {:induction false} AnswerStaysPossible(w: World, g: nat)
    requires MainInv(w) && AnswerInv(w) && g < |w.requests| && w.loop != Exited
    ensures CanBeAnswered(w, g)
    decreases Left(w), InnerLeft(w)
  {
    assert AnswerOk(w, g);
    if Unanswered(w, g) {
      SomeStepHelps(w, g);
      var a :| Counts(w, a) && Do(w, a).Some? && Closer(Do(w, a).value, w);
      var next := Do(w, a).value;
      StepKeepsMain(w, a);
      StepKeepsAnswers(w, a);
      OnlyExitEnds(w, a);
      AnswerStaysPossible(next, g);
      AnsweredAfter(w, a, g);
    } else {
      AnsweredAlready(w, g);
    }
  }

  lemma OnlyExitEnds(w: World, a: Action)
    requires Do(w, a).Some?
    ensures |w.requests| <= |Do(w, a).value.requests|
    ensures w.loop != Exited && !a.Exit? ==> Do(w, a).value.loop != Exited
  {
  }

  /** Once the main loop has ended, nothing is sent any more. */
  lemma ExitedIsSilent(w: World, a: Action)
    requires MainInv(w) && w.loop == Exited && Do(w, a).Some?
    ensures Do(w, a).value.loop == Exited && Do(w, a).value.sent == w.sent
  {
  }

  lemma {:induction false} NothingAfterExit(w: World, acts: seq<Action>, g: nat)
    requires MainInv(w) && w.loop == Exited && LeadsToAnswer(w, acts, g)
    ensures |About(w.sent, g)| == 2
    decreases |acts|
  {
    if acts != [] {
      ExitedIsSilent(w, acts[0]);
      StepKeepsMain(w, acts[0]);
      NothingAfterExit(Do(w, acts[0]).value, acts[1..], g);
    }
  }

  lemma ExitedDecides(w: World, g: nat)
    requires MainInv(w) && w.loop == Exited
    ensures CanBeAnswered(w, g) <==> |About(w.sent, g)| == 2
  {
    if CanBeAnswered(w, g) {
      var more :| LeadsToAnswer(w, more, g);
      NothingAfterExit(w, more, g);
    }
    if |About(w.sent, g)| == 2 { AnsweredAlready(w, g); }
  }

  /** Exactly when a request can still get its final answer, in every run: as long as the main loop
      has not ended, or if it has had it. */
  lemma AnswerPossibleIff(w0: World, acts: seq<Action>, g: nat)
    requires Init(w0) && Run(w0, acts).Some? && g < |Run(w0, acts).value.requests|
    ensures var w := Run(w0, acts).value;
            CanBeAnswered(w, g) <==> w.loop != Exited || |About(w.sent, g)| == 2
  {
    AlwaysSafe(w0, acts);
    AlwaysAnswers(w0, acts);
    var w := Run(w0, acts).value;
    if w.loop != Exited { AnswerStaysPossible(w, g); } else { ExitedDecides(w, g); }
  }

  // ---- when the main loop ends ----

  /** Action number `k` of the run begins to take over a general configuration. */
  ghost predicate TakesOverGeneral(w0: World, acts: seq<Action>, k: nat)
    requires k < |acts|
  {
    var before := Run(w0, acts[..k]);
    before.Some? && acts[k].Work? &&
    var w := before.value;
    w.main.Syncing? && w.main.progress == Start && w.main.g < |w.requests| && w.requests[w.main.g].general
  }

  /** The main loop ends only if the unit was told to stop or has taken over a general
      configuration. */
  lemma {:induction false} WhyTheLoopEnds(w0: World, acts: seq<Action>)
    requires Init(w0) && Run(w0, acts).Some? && Run(w0, acts).value.loop != Running
    ensures Stop in acts || exists k :: 0 <= k < |acts| && TakesOverGeneral(w0, acts, k)
  {
    var front, a := acts[..|acts| - 1], acts[|acts| - 1];
    assert acts == front + [a];
    if Run(w0, front).value.loop != Running {
      WhyTheLoopEnds(w0, front);
      if k :| 0 <= k < |front| && TakesOverGeneral(w0, front, k) {
        assert front[..k] == acts[..k];
        assert TakesOverGeneral(w0, acts, k);
      }
    } else {
      LeavingRunning(Run(w0, front).value, a);
      if !a.Stop? { assert TakesOverGeneral(w0, acts, |front|); }
    }
  }

  lemma LeavingRunning(w: World, a: Action)
    requires Do(w, a).Some? && w.loop == Running && Do(w, a).value.loop != Running
    ensures a.Stop? || (a.Work? && w.main.Syncing? && w.main.progress == Start
                        && w.main.g < |w.requests| && w.requests[w.main.g].general)
  {
  }

  /** The first request is about to be answered, and the loop is told to end. */
  lemma ReachDraining(w0: World, client: string, key: string, endpoint: string) returns (w: World)
    requires Init(w0) && Permits(w0.access, key, SYNC_FROM) && endpoint in w0.remotes
    requires CanTakeOver(w0.local, Last(w0.remotes[endpoint]), true)
    ensures Reached(w0, w) && w.loop == Draining && w.main == Polling && |w.requests| == 1
    ensures w.sched.batch.Some? && w.sched.batch.value.left == 0
  {
    w := ReachSuccess(w0, client, key, endpoint, true);
    ReachedIsSafe(w0, w);
    assert w.loop == Draining;
    EndingAnswers(w);
    w := Extended(w0, w, Work(false));
  }

  lemma ReachBetweenRounds(w0: World, before: World) returns (w: World)
    requires Reached(w0, before) && before.main == Polling
    requires before.sched.batch.Some? && before.sched.batch.value.left == 0
    ensures Reached(w0, w) && w == before.(sched := w.sched) && w.sched.batch.None?
  {
    w := Extended(w0, before, FinishUpdate);
  }

  lemma ReachSecondRequest(w0: World, before: World, client: string, key: string, endpoint: string) returns (w: World)
    requires Reached(w0, before) && before.main == Polling && before.sched.batch.None? && before.loop == Draining
    requires Permits(before.access, key, SYNC_FROM)
    ensures Reached(w0, w) && w.main == Polling && w.sched == before.sched && w.loop == Draining
    ensures |w.requests| == |before.requests| + 1
    ensures w.sent == before.sent + [Answer(client, Delayed, |before.requests|)]
  {
    w := Extended(w0, before, Receive(client, key, endpoint, false));
    w := Extended(w0, w, Reply);
  }

  /** From every start: a client that asks after the general configuration of a unit was taken over
      can be left with "DELAYED" and nothing more, since the main loop may end before its fetch. */
  lemma RequestCanBeLeftBehind(w0: World, client: string, key: string, endpoint: string)
    requires Init(w0) && Permits(w0.access, key, SYNC_FROM) && endpoint in w0.remotes
    requires CanTakeOver(w0.local, Last(w0.remotes[endpoint]), true)
    ensures exists w :: Reached(w0, w) && w.loop == Exited && |w.requests| == 2
                     && About(w.sent, 1) == [Answer(client, Delayed, 1)]
  {
    var w1 := ReachDraining(w0, client, key, endpoint);
    var w2 := ReachBetweenRounds(w0, w1);
    ReachedAnswers(w0, w2);
    AccessNeverChanges(w0, w2);
    var w3 := ReachSecondRequest(w0, w2, client, key, endpoint);
    AboutOneMore(w2.sent, Answer(client, Delayed, 1), 1);
    var w4 := ReachExited(w0, w3);
  }

  /** And there are real units for which that happens. */
  lemma SomeoneIsLeftBehind()
    ensures exists w0, w :: Init(w0) && RealWorld(w0) && Reached(w0, w) && w.loop == Exited
                         && |w.requests| == 2 && |About(w.sent, 1)| == 1
  {
    QuietIsInit();
    QuietCanTakeOver(true);
    RequestCanBeLeftBehind(QuietWorld(), "client", "key", "tcp://remote");
  }

  lemma ReachExited(w0: World, before: World) returns (w: World)
    requires Reached(w0, before) && before.main == Polling && before.sched.batch.None? && before.loop == Draining
    ensures Reached(w0, w) && w == before.(loop := Exited)
  {
    w := Extended(w0, before, Exit);
  }

  lemma AccessNeverChanges(w0: World, w: World)
    requires Reached(w0, w)
    ensures w.access == w0.access
  {
    var acts: seq<Action> :| Run(w0, acts) == Some(w);
    RunKeepsAccess(w0, acts);
  }

  lemma ReachedAnswers(w0: World, w: World)
    requires Init(w0) && Reached(w0, w)
    ensures AnswerInv(w)
  {
    var acts: seq<Action> :| Run(w0, acts) == Some(w);
    AlwaysAnswers(w0, acts);
  }
}
