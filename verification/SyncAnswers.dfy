/** What the client of a `SYNC_FROM` request hears, in every run of the protocol. */
module SyncAnswers {
  import opened PropertyTree
  import opened Configuration
  import opened RemoteCollector
  import opened RemoteSecurity
  import opened SyncProtocol
  import Tasks
  import Scheduling

  /** The answers about one request, in the order in which they were sent. */
  function About(sent: seq<Message>, g: nat): seq<Message> {
    if sent == [] then []
    else
      var m, before := sent[|sent| - 1], About(sent[..|sent| - 1], g);
      if m.Answer? && m.guid == g then before + [m] else before
  }

  /** Exactly the answers with that guid, each as often as it was sent and in order. */
  lemma {:induction false} AboutParts(a: seq<Message>, m: Message, b: seq<Message>, g: nat)
    ensures About(a + [m] + b, g) ==
            About(a, g) + (if m.Answer? && m.guid == g then [m] else []) + About(b, g)
  {
    if b == [] {
      assert a + [m] + b == a + [m] && (a + [m])[..|a|] == a;
    } else {
      var all, front := a + [m] + b, b[..|b| - 1];
      assert all[..|all| - 1] == a + [m] + front && all[|all| - 1] == b[|b| - 1];
      AboutParts(a, m, front, g);
      var x := About(a, g) + if m.Answer? && m.guid == g then [m] else [];
      assert x + About(front, g) + [b[|b| - 1]] == x + (About(front, g) + [b[|b| - 1]]);
    }
  }

  lemma AboutOneMore(sent: seq<Message>, m: Message, g: nat)
    ensures About(sent + [m], g) == if m.Answer? && m.guid == g then About(sent, g) + [m] else About(sent, g)
  {
    assert (sent + [m])[..|sent|] == sent;
  }

  /** The main thread still has to send the first answer. */
  predicate ReplyDue(w: World, g: nat) {
    w.main.Replying? && w.main.msg.Answer? && w.main.msg.guid == g
  }

  predicate InPool(w: World, g: nat) {
    g < |w.requests| && (w.requests[g].task.pc == Tasks.InRun || w.requests[g].task.pc == Tasks.ToStatus)
  }

  predicate OnMain(w: World, g: nat) {
    (w.main.Syncing? || w.main.Aborting?) && w.main.g == g
  }

  /** The main thread has nothing to do for the request, now or in its queue. */
  predicate Idle(w: World, g: nat) {
    !OnMain(w, g) && SyncTask(g) !in w.sched.queue && AbortTask(g) !in w.sched.queue
  }

  function Queued(w: World, g: nat): nat {
    multiset(w.sched.queue)[SyncTask(g)] + multiset(w.sched.queue)[AbortTask(g)]
  }

  /** Where the duty to give the final answer is: with the fetch, in the queue, with the main
      thread. */
  function Duties(w: World, g: nat): nat {
    (if InPool(w, g) then 1 else 0) + Queued(w, g) + (if OnMain(w, g) then 1 else 0)
  }

  /** "Aborted" for a fetch that failed, "Success" or "Failed" for one that succeeded. */
  predicate Final(m: Message, r: Request, g: nat) {
    && m.Answer? && m.client == r.client && m.guid == g
    && m.kind in (if r.task.success then {Success, Failed} else {Aborted})
  }

  /** Conservation: the duties and the final answers together are always exactly one. */
  predicate AnswerOk(w: World, g: nat)
    requires g < |w.requests|
  {
    var a, r := About(w.sent, g), w.requests[g];
    if ReplyDue(w, g) then a == [] && w.main.msg == Answer(r.client, Delayed, g) && Duties(w, g) == 1
    else
      && a != [] && a[0] == Answer(r.client, Delayed, g)
      && (forall i | 1 <= i < |a| :: Final(a[i], r, g))
      && Duties(w, g) + |a| - 1 == 1
  }

  ghost predicate AnswerInv(w: World) {
    && (forall g | 0 <= g < |w.requests| :: AnswerOk(w, g))
    && (forall g | g >= |w.requests| :: About(w.sent, g) == [] && !ReplyDue(w, g))
  }

  /** A step that moves no duty of `g` and tells its client nothing. */
  lemma Untouched(w: World, w': World, g: nat)
    requires g < |w.requests| <= |w'.requests| && AnswerOk(w, g)
    requires w'.requests[g].client == w.requests[g].client
    requires w'.requests[g].task.success == w.requests[g].task.success || InPool(w, g)
    requires About(w'.sent, g) == About(w.sent, g)
    requires Queued(w', g) == Queued(w, g) && InPool(w', g) == InPool(w, g) && OnMain(w', g) == OnMain(w, g)
    requires ReplyDue(w', g) == ReplyDue(w, g) && (ReplyDue(w, g) ==> w'.main == w.main)
    ensures AnswerOk(w', g)
  {
  }

  lemma RemoteStepsKeepAnswers(w: World, a: Action)
    requires AnswerInv(w) && Do(w, a).Some? && (a.Change? || a.Exchanged? || a.Stop? || a.Exit?)
    ensures AnswerInv(Do(w, a).value)
  {
    var w' := Do(w, a).value;
    forall g | 0 <= g < |w'.requests| ensures AnswerOk(w', g) {
      Untouched(w, w', g);
    }
  }

  lemma QueueGrows(w: World, w': World, t: MainTask, g: nat)
    requires w'.sched.queue == w.sched.queue + [t]
    ensures Queued(w', g) == Queued(w, g) + if t.g == g then 1 else 0
  {
    assert multiset(w'.sched.queue) == multiset(w.sched.queue) + multiset{t};
  }

  lemma QueueShrinks(w: World, w': World, g: nat)
    requires w.sched.queue != [] && w'.sched.queue == w.sched.queue[1..]
    ensures Queued(w, g) == Queued(w', g) + if w.sched.queue[0].g == g then 1 else 0
  {
    assert w.sched.queue == [w.sched.queue[0]] + w'.sched.queue;
    assert multiset(w.sched.queue) == multiset{w.sched.queue[0]} + multiset(w'.sched.queue);
  }

  /** What a step of a fetch task changes: only its own task, and on the status callback the
      queue. */
  lemma PoolTouches(w: World, g: nat, a: Tasks.Action)
    requires DoPool(w, g, a).Some?
    ensures var w', r := DoPool(w, g, a).value, w.requests[g];
            && w'.requests == w.requests[g := r.(task := w'.requests[g].task)]
            && w'.main == w.main && w'.sent == w.sent
            && (w'.requests[g].task.success == r.task.success || InPool(w, g))
            && InPool(w', g) == (InPool(w, g) && !a.FireStatus?)
            && (!a.FireStatus? ==> w'.sched == w.sched)
            && (a.FireStatus? ==> InPool(w, g))
            && (a.FireStatus? ==>
                  w'.sched.queue == w.sched.queue + [if r.task.success then SyncTask(g) else AbortTask(g)])
  {
  }

  /** The status callback hands the duty from the fetch to the queue. */
  lemma StatusMovesDuty(w: World, w': World, g: nat, t: MainTask)
    requires g < |w.requests| == |w'.requests| && AnswerOk(w, g) && w'.requests[g].client == w.requests[g].client
    requires w'.main == w.main && w'.sent == w.sent && w'.sched.queue == w.sched.queue + [t] && t.g == g
    requires InPool(w, g) && !InPool(w', g)
    ensures AnswerOk(w', g)
  {
    QueueGrows(w, w', t, g);
  }

  lemma PoolKeepsAnswers(w: World, g: nat, a: Tasks.Action)
    requires AnswerInv(w) && DoPool(w, g, a).Some?
    ensures AnswerInv(DoPool(w, g, a).value)
  {
    var w' := DoPool(w, g, a).value;
    PoolTouches(w, g, a);
    forall k | 0 <= k < |w'.requests| ensures AnswerOk(w', k) {
      if a.FireStatus? {
        var t := if w.requests[g].task.success then SyncTask(g) else AbortTask(g);
        QueueGrows(w, w', t, k);
        if k == g { StatusMovesDuty(w, w', g, t); } else { Untouched(w, w', k); }
      } else {
        Untouched(w, w', k);
      }
    }
  }

  /** Accepting a request, or refusing one. */
  lemma AfterReceive(w: World, w': World, client: string, key: string, endpoint: string, general: bool)
    requires AnswerInv(w) && MainInv(w) && w.main == Polling
    requires || w' == w.(main := Replying(Refusal(client)))
             || w' == w.(requests := w.requests + [NewRequest(client, key, endpoint, general)],
                         main := Replying(Answer(client, Delayed, |w.requests|)))
    ensures AnswerInv(w')
  {
    var n := |w.requests|;
    forall g | 0 <= g < |w'.requests| ensures AnswerOk(w', g) {
      if g < n {
        Untouched(w, w', g);
      } else {
        assert !Fetched(w, n) && !FetchFailed(w, n);
        assert SyncTask(n) !in w.sched.queue && AbortTask(n) !in w.sched.queue;
        assert About(w.sent, n) == [];
      }
    }
  }

  lemma ReceiveKeepsAnswers(w: World, a: Action)
    requires AnswerInv(w) && MainInv(w) && Do(w, a).Some? && (a.Receive? || a.Refuse?)
    ensures AnswerInv(Do(w, a).value)
  {
    if a.Receive? {
      AfterReceive(w, Do(w, a).value, a.client, a.key, a.endpoint, a.general);
    } else {
      AfterReceive(w, Do(w, a).value, a.client, "", "", false);
    }
  }

  lemma ReplyKeepsAnswers(w: World)
    requires AnswerInv(w) && w.main.Replying?
    ensures AnswerInv(Do(w, Reply).value)
  {
    var w' := Do(w, Reply).value;
    assert w' == w.(sent := w.sent + [w.main.msg], main := Polling);
    forall g: nat
      ensures About(w'.sent, g) == if ReplyDue(w, g) then About(w.sent, g) + [w.main.msg] else About(w.sent, g)
    {
      AboutOneMore(w.sent, w.main.msg, g);
    }
    forall g | 0 <= g < |w'.requests| ensures AnswerOk(w', g) {
      if ReplyDue(w, g) { FirstAnswer(w, w', g); } else { Untouched(w, w', g); }
    }
  }

  lemma FirstAnswer(w: World, w': World, g: nat)
    requires g < |w.requests| && AnswerOk(w, g) && ReplyDue(w, g)
    requires w' == w.(sent := w.sent + [w.main.msg], main := Polling)
    ensures AnswerOk(w', g)
  {
    AboutOneMore(w.sent, w.main.msg, g);
  }

  lemma LoopKeepsAnswers(w: World, a: Action)
    requires AnswerInv(w) && Do(w, a).Some? && (a.BeginUpdate? || a.TakeTask? || a.FinishUpdate?)
    ensures AnswerInv(Do(w, a).value)
  {
    var w' := Do(w, a).value;
    assert w'.requests == w.requests && w'.sent == w.sent;
    forall g | 0 <= g < |w'.requests| ensures AnswerOk(w', g) {
      assert AnswerOk(w, g);
      if a.TakeTask? {
        QueueShrinks(w, w', g);
        if w.sched.queue[0].g != g { Untouched(w, w', g); }
      } else {
        Untouched(w, w', g);
      }
    }
  }

  /** What a step of a task on the main thread does: it goes on with the same request, or gives
      that request its final answer. */
  lemma WorkTouches(w: World, threw: bool)
    requires MainInv(w) && DoWork(w, threw).Some?
    ensures var w', g := DoWork(w, threw).value, w.main.g;
            && OnMain(w, g) && g < |w.requests| && w'.requests == w.requests && w'.sched == w.sched
            && if w'.sent == w.sent then OnMain(w', g)
               else w'.main == Polling && |w'.sent| == |w.sent| + 1 && w'.sent[..|w.sent|] == w.sent
                    && Final(w'.sent[|w.sent|], w.requests[g], g)
  {
  }

  lemma FinalAnswer(w: World, w': World, g: nat, m: Message)
    requires g < |w.requests| && AnswerOk(w, g) && OnMain(w, g) && Final(m, w.requests[g], g)
    requires w'.requests == w.requests && w'.sched == w.sched && w'.main == Polling && w'.sent == w.sent + [m]
    ensures AnswerOk(w', g)
  {
    AboutOneMore(w.sent, m, g);
  }

  /** After a step that goes on with request `g`, or gives it its final answer. */
  lemma AfterWork(w: World, w': World, g: nat)
    requires AnswerInv(w) && OnMain(w, g) && g < |w.requests| && w'.requests == w.requests && w'.sched == w.sched
    requires if w'.sent == w.sent then OnMain(w', g)
             else w'.main == Polling && |w'.sent| == |w.sent| + 1 && w'.sent[..|w.sent|] == w.sent
                  && Final(w'.sent[|w.sent|], w.requests[g], g)
    ensures AnswerInv(w')
  {
    if w'.sent == w.sent {
      forall k | 0 <= k < |w'.requests| ensures AnswerOk(w', k) { Untouched(w, w', k); }
    } else {
      var m := w'.sent[|w.sent|];
      assert w'.sent == w.sent + [m];
      forall k: nat ensures About(w'.sent, k) == if k == g then About(w.sent, k) + [m] else About(w.sent, k) {
        AboutOneMore(w.sent, m, k);
      }
      forall k | 0 <= k < |w'.requests| ensures AnswerOk(w', k) {
        if k == g { FinalAnswer(w, w', g, m); } else { Untouched(w, w', k); }
      }
    }
  }

  lemma WorkKeepsAnswers(w: World, threw: bool)
    requires AnswerInv(w) && MainInv(w) && DoWork(w, threw).Some?
    ensures AnswerInv(DoWork(w, threw).value)
  {
    WorkTouches(w, threw);
    AfterWork(w, DoWork(w, threw).value, w.main.g);
  }

  lemma StepKeepsAnswers(w: World, a: Action)
    requires AnswerInv(w) && MainInv(w) && Do(w, a).Some?
    ensures AnswerInv(Do(w, a).value)
  {
    match a {
      case Pool(g, step) => PoolKeepsAnswers(w, g, step);
      case Work(threw) => WorkKeepsAnswers(w, threw);
      case Reply => ReplyKeepsAnswers(w);
      case BeginUpdate => LoopKeepsAnswers(w, a);
      case TakeTask => LoopKeepsAnswers(w, a);
      case FinishUpdate => LoopKeepsAnswers(w, a);
      case Receive(_, _, _, _) => ReceiveKeepsAnswers(w, a);
      case Stop => RemoteStepsKeepAnswers(w, a);
      case Exit => RemoteStepsKeepAnswers(w, a);
      case Refuse(_) => ReceiveKeepsAnswers(w, a);
      case Change(_, _, _) => RemoteStepsKeepAnswers(w, a);
      case Exchanged(_, _) => RemoteStepsKeepAnswers(w, a);
    }
  }

  lemma {:induction false} AlwaysAnswers(w0: World, acts: seq<Action>)
    requires Init(w0) && Run(w0, acts).Some?
    ensures AnswerInv(Run(w0, acts).value)
  {
    if acts != [] {
      var front := acts[..|acts| - 1];
      AlwaysAnswers(w0, front);
      AlwaysSafe(w0, front);
      StepKeepsAnswers(Run(w0, front).value, acts[|acts| - 1]);
    }
  }

  /** In every interleaving a request is first answered "DELAYED", then at most once more, with
      "Aborted" if its fetch failed and with "Success" or "Failed" if it did not, always to the
      client that asked and with its own guid; and exactly once more as soon as its fetch thread
      is through and the main thread has nothing left to do for it. */
  lemma EveryRequestAnswered(w0: World, acts: seq<Action>, g: nat)
    requires Init(w0) && Run(w0, acts).Some? && g < |Run(w0, acts).value.requests|
    ensures var w := Run(w0, acts).value;
            var a, r := About(w.sent, g), w.requests[g];
            && |a| <= 2
            && (|a| > 0 ==> a[0] == Answer(r.client, Delayed, g))
            && (|a| == 2 ==> Final(a[1], r, g))
            && (!ReplyDue(w, g) ==> |a| > 0)
            && (!ReplyDue(w, g) && r.task.pc == Tasks.Finished && Idle(w, g) ==> |a| == 2)
  {
    AlwaysAnswers(w0, acts);
    assert AnswerOk(Run(w0, acts).value, g);
  }

  // ---- who is answered ----

  lemma {:induction false} OnlyPermittedAsk(w0: World, acts: seq<Action>, g: nat)
    requires Init(w0) && Run(w0, acts).Some? && g < |Run(w0, acts).value.requests|
    ensures Run(w0, acts).value.access == w0.access
    ensures Permits(w0.access, Run(w0, acts).value.requests[g].key, SYNC_FROM)
  {
    if acts != [] {
      var front, a := acts[..|acts| - 1], acts[|acts| - 1];
      var w := Run(w0, front).value;
      StepKeepsPermitted(w, a, g);
      if g < |w.requests| { OnlyPermittedAsk(w0, front, g); } else { RunKeepsAccess(w0, front); }
    }
  }

  lemma StepKeepsPermitted(w: World, a: Action, g: nat)
    requires Do(w, a).Some? && g < |Do(w, a).value.requests|
    ensures var w' := Do(w, a).value;
            && w'.access == w.access
            && (g < |w.requests| ==> w'.requests[g].key == w.requests[g].key)
            && (g >= |w.requests| ==> Permits(w.access, w'.requests[g].key, SYNC_FROM))
  {
    if !a.Change? && !a.Exchanged? && !a.Pool? { OtherStepsKeepRequests(w, a); }
  }

  lemma {:induction false} RunKeepsAccess(w0: World, acts: seq<Action>)
    requires Run(w0, acts).Some?
    ensures Run(w0, acts).value.access == w0.access
  {
    if acts != [] { RunKeepsAccess(w0, acts[..|acts| - 1]); }
  }

  /** A client that may not ask is told so, and nothing else happens. */
  lemma RefusalIsTold(w: World, client: string, key: string, endpoint: string, general: bool)
    requires w.main == Polling && w.sched.batch.None? && w.loop != Exited && !Permits(w.access, key, SYNC_FROM)
    ensures var w1 := Do(w, Receive(client, key, endpoint, general));
            w1.Some? && Do(w1.value, Reply) == Some(w.(sent := w.sent + [Refusal(client)]))
    ensures var w1 := Do(w, Refuse(client));
            w1.Some? && Do(w1.value, Reply) == Some(w.(sent := w.sent + [Refusal(client)]))
  {
  }

  /** The tables were made from this configuration, which names no key and no command twice. */
  ghost predicate Describes(entries: seq<Tree>, access: Access) {
    && !access.unrestricted && Process(entries) == Ok(access.tables)
    && DistinctKeys(entries) && forall k | 0 <= k < |entries| :: DistinctNames(entries[k].children)
  }

  /** Every answer about a synchronisation, "DELAYED" included, in every run, is about a request
      whose key is permitted to ask for one, as the security configuration says. */
  lemma OnlyPermittedAreAnswered(w0: World, acts: seq<Action>, i: nat)
    requires Init(w0) && Run(w0, acts).Some? && i < |Run(w0, acts).value.sent| && Run(w0, acts).value.sent[i].Answer?
    ensures var w := Run(w0, acts).value;
            var g := w.sent[i].guid;
            && g < |w.requests| && w.sent[i].client == w.requests[g].client
            && Permits(w0.access, w.requests[g].key, SYNC_FROM)
            && forall entries | Describes(entries, w0.access) :: DirectlyAllowed(entries, w.requests[g].key, SYNC_FROM)
  {
    var w := Run(w0, acts).value;
    AlwaysAnswers(w0, acts);
    AnsweredIsAccepted(w, i);
    OnlyPermittedAsk(w0, acts, w.sent[i].guid);
    var key := w.requests[w.sent[i].guid].key;
    forall entries | Describes(entries, w0.access) ensures DirectlyAllowed(entries, key, SYNC_FROM) {
      PermittedDirectly(w0.access, entries, key);
    }
  }

  lemma AnsweredIsAccepted(w: World, i: nat)
    requires AnswerInv(w) && i < |w.sent| && w.sent[i].Answer?
    ensures w.sent[i].guid < |w.requests| && w.sent[i].client == w.requests[w.sent[i].guid].client
  {
    AboutHolds(w.sent, i);
    assert w.sent[i].guid < |w.requests| ==> AnswerOk(w, w.sent[i].guid);
  }

  lemma PermittedDirectly(access: Access, entries: seq<Tree>, key: string)
    requires Describes(entries, access) && Permits(access, key, SYNC_FROM)
    ensures DirectlyAllowed(entries, key, SYNC_FROM)
  {
    TablesAnswerDirectly(entries, key, SYNC_FROM);
  }

  lemma {:induction false} AboutHolds(sent: seq<Message>, i: nat)
    requires i < |sent| && sent[i].Answer?
    ensures sent[i] in About(sent, sent[i].guid)
  {
    if i < |sent| - 1 { AboutHolds(sent[..|sent| - 1], i); }
  }

  // ---- where "Success" comes from ----

  /** A step sends at most one message, and "Success" only from a synchronisation that has gone
      through. */
  lemma StepSends(w: World, a: Action)
    requires AnswerInv(w) && Do(w, a).Some?
    ensures var w' := Do(w, a).value;
            && w.sent <= w'.sent && |w'.sent| <= |w.sent| + 1
            && (|w.sent| < |w'.sent| && w'.sent[|w.sent|].Answer? && w'.sent[|w.sent|].kind == Success ==>
                  w.main.Syncing? && w.main.progress == Ending(true) && w.main.g == w'.sent[|w.sent|].guid)
  {
    if a.Reply? && w.main.msg.Answer? {
      assert ReplyDue(w, w.main.msg.guid);
      assert w.main.msg.guid < |w.requests| ==> AnswerOk(w, w.main.msg.guid);
    }
  }

  /** Message number `i` was sent by action number `k`, when the local configuration was what
      taking over one single state of the remote unit had made of the backup. */
  ghost predicate SentAfterTakeover(w0: World, acts: seq<Action>, k: nat, i: nat, g: nat)
    requires k < |acts|
  {
    var before := Run(w0, acts[..k]);
    before.Some? &&
    var w := before.value;
    && |w.sent| == i && w.main.Syncing? && w.main.g == g < |w.requests|
    && var r := w.requests[g];
       && r.endpoint in w.remotes && r.first < |w.remotes[r.endpoint]|
       && TakenOver(w.local, w.main.backup, w.remotes[r.endpoint][r.first], r.general)
  }

  /** Behind every "Success" that was ever sent stands one state of the remote unit that had just
      been taken over. */
  lemma {:induction false} EverySuccessWasTakenOver(w0: World, acts: seq<Action>, i: nat)
    requires Init(w0) && Run(w0, acts).Some? && i < |Run(w0, acts).value.sent|
    requires Run(w0, acts).value.sent[i].Answer? && Run(w0, acts).value.sent[i].kind == Success
    ensures exists k :: 0 <= k < |acts| && SentAfterTakeover(w0, acts, k, i, Run(w0, acts).value.sent[i].guid)
  {
    var front := acts[..|acts| - 1];
    var w := Run(w0, front).value;
    AlwaysAnswers(w0, front);
    StepSends(w, acts[|acts| - 1]);
    if i < |w.sent| {
      EverySuccessWasTakenOver(w0, front, i);
      var k :| 0 <= k < |front| && SentAfterTakeover(w0, front, k, i, w.sent[i].guid);
      assert front[..k] == acts[..k];
      assert SentAfterTakeover(w0, acts, k, i, w.sent[i].guid);
    } else {
      SuccessIsOneRemoteState(w0, front);
      assert SentAfterTakeover(w0, acts, |front|, i, w.main.g);
    }
  }
}
