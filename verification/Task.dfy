/** One task: the thread that runs it, and the threads that wait for it on a condition
variable. Steps are as fine as the lock sections; waiters may wake for no reason. */
module Tasks {
  import opened PropertyTree

  /** Where the running thread is: inside the task's own code, before the status callback,
      before the completion callback, then locking, storing, unlocking and notifying. */
  datatype RunPc = InRun | ToStatus | ToCompletion | ToLock | ToStore | ToUnlock | ToNotify | Finished

  datatype Callback = OnSuccess | OnFailure | OnCompletion

  /** What the task's own code does: it returns a verdict or throws. */
  datatype Verdict = Returned(ok: bool) | Threw

  /** A waiter wants the lock, holds it to look at the flag, holds it while about to sleep,
      sleeps, or is back. */
  datatype WaiterPc = WantLock | Testing | AboutToSleep | Asleep | Back

  datatype Holder = Free | Runner | Waiter(id: nat)

  datatype State = State(
    pc: RunPc, success: bool, complete: bool, fired: seq<Callback>, lock: Holder, waiters: map<nat, WaiterPc>)

  datatype Action =
    | Work(verdict: Verdict) | FireStatus | FireCompletion | Lock | Store | Unlock | Notify
    | Call(w: nat) | Acquire(w: nat) | Test(w: nat) | Sleep(w: nat) | Spurious(w: nat)

  const START: State := State(InRun, false, false, [], Free, map[])

  predicate At(s: State, w: nat, pc: WaiterPc) {
    w in s.waiters && s.waiters[w] == pc
  }

  /** All sleeping waiters wake up and want the lock. */
  function Woken(waiters: map<nat, WaiterPc>): map<nat, WaiterPc> {
    map w | w in waiters :: if waiters[w] == Asleep then WantLock else waiters[w]
  }

  /** The state after an action, if it can be taken. */
  function Do(s: State, a: Action): Option<State> {
    match a
    case Work(v) =>
      if s.pc == InRun then Some(s.(success := v == Returned(true), pc := ToStatus)) else None
    case FireStatus =>
      if s.pc == ToStatus
      then Some(s.(fired := s.fired + [if s.success then OnSuccess else OnFailure], pc := ToCompletion)) else None
    case FireCompletion =>
      if s.pc == ToCompletion then Some(s.(fired := s.fired + [OnCompletion], pc := ToLock)) else None
    case Lock => if s.pc == ToLock && s.lock == Free then Some(s.(lock := Runner, pc := ToStore)) else None
    case Store => if s.pc == ToStore then Some(s.(complete := true, pc := ToUnlock)) else None
    case Unlock => if s.pc == ToUnlock then Some(s.(lock := Free, pc := ToNotify)) else None
    case Notify => if s.pc == ToNotify then Some(s.(waiters := Woken(s.waiters), pc := Finished)) else None
    case Call(w) =>
      if w !in s.waiters || At(s, w, Back) then Some(s.(waiters := s.waiters[w := WantLock])) else None
    case Acquire(w) =>
      if At(s, w, WantLock) && s.lock == Free
      then Some(s.(lock := Waiter(w), waiters := s.waiters[w := Testing])) else None
    case Test(w) =>
      if !At(s, w, Testing) then None
      else if s.complete then Some(s.(lock := Free, waiters := s.waiters[w := Back]))
      else Some(s.(waiters := s.waiters[w := AboutToSleep]))
    case Sleep(w) =>
      if At(s, w, AboutToSleep) then Some(s.(lock := Free, waiters := s.waiters[w := Asleep])) else None
    case Spurious(w) =>
      if At(s, w, Asleep) then Some(s.(waiters := s.waiters[w := WantLock])) else None
  }

  function Run(s: State, acts: seq<Action>): Option<State> {
    if acts == [] then Some(s)
    else
      var before := Run(s, acts[..|acts| - 1]);
      if before.None? then None else Do(before.value, acts[|acts| - 1])
  }

  /** The callbacks that must have fired at each point. */
  function FiredAt(pc: RunPc, success: bool): seq<Callback> {
    match pc
    case InRun => []
    case ToStatus => []
    case ToCompletion => [if success then OnSuccess else OnFailure]
    case _ => [if success then OnSuccess else OnFailure, OnCompletion]
  }

  ghost predicate Inv(s: State) {
    && s.fired == FiredAt(s.pc, s.success)
    && (s.complete <==> s.pc in {ToUnlock, ToNotify, Finished})
    && (s.lock == Runner <==> s.pc in {ToStore, ToUnlock})
    && (forall w: nat :: (At(s, w, Testing) || At(s, w, AboutToSleep)) <==> s.lock == Waiter(w))
    && (forall w | At(s, w, AboutToSleep) :: !s.complete)
    && (forall w | At(s, w, Asleep) :: s.pc != Finished)
    && (forall w | At(s, w, Back) :: s.complete)
  }

  lemma StepKeepsInv(s: State, a: Action)
    requires Inv(s) && Do(s, a).Some?
    ensures Inv(Do(s, a).value)
  {
    var t := Do(s, a).value;
    forall v: nat ensures (At(t, v, Testing) || At(t, v, AboutToSleep)) <==> t.lock == Waiter(v) {
      assert (At(s, v, Testing) || At(s, v, AboutToSleep)) <==> s.lock == Waiter(v);
    }
    forall v | At(t, v, AboutToSleep) ensures !t.complete {
      assert At(s, v, AboutToSleep) || a == Test(v);
    }
    forall v | At(t, v, Asleep) ensures t.pc != Finished {
      assert At(s, v, Asleep) || (At(s, v, AboutToSleep) && !s.complete);
    }
    forall v | At(t, v, Back) ensures t.complete {
      assert At(s, v, Back) || a == Test(v);
    }
  }

  lemma {:induction false} AlwaysInv(acts: seq<Action>)
    requires Run(START, acts).Some?
    ensures Inv(Run(START, acts).value)
  {
    if acts != [] {
      AlwaysInv(acts[..|acts| - 1]);
      StepKeepsInv(Run(START, acts[..|acts| - 1]).value, acts[|acts| - 1]);
    }
  }

  /** No lost wakeup: in every interleaving, a waiter that sleeps although the task is complete
      still has the notification to come; once the runner is through, nobody sleeps. */
  lemma NoLostWakeup(acts: seq<Action>, w: nat)
    requires Run(START, acts).Some? && At(Run(START, acts).value, w, Asleep)
    ensures var s := Run(START, acts).value;
            s.pc != Finished && (s.complete ==> s.pc == ToUnlock || s.pc == ToNotify)
  {
    AlwaysInv(acts);
  }

  /** A waiter is back only after exactly one status callback, the one for the verdict, and
      then the completion callback have run. */
  lemma BackMeansCallbacksRan(acts: seq<Action>, w: nat)
    requires Run(START, acts).Some? && At(Run(START, acts).value, w, Back)
    ensures var s := Run(START, acts).value;
            s.complete && s.fired == [if s.success then OnSuccess else OnFailure, OnCompletion]
  {
    AlwaysInv(acts);
  }

  /** Once the task's own code has returned, the verdict never changes, and what fired stays
      fired. */
  lemma {:induction false} VerdictIsFinal(s: State, acts: seq<Action>)
    requires s.pc != InRun && Run(s, acts).Some?
    ensures var t := Run(s, acts).value;
            t.pc != InRun && t.success == s.success && s.fired <= t.fired && (s.complete ==> t.complete)
  {
    if acts != [] {
      VerdictIsFinal(s, acts[..|acts| - 1]);
    }
  }

  /** What the task's own code did in a run, if it is over. */
  lemma {:induction false} VerdictDecides(acts: seq<Action>, k: nat, v: Verdict)
    requires Run(START, acts).Some? && k < |acts| && acts[k] == Work(v)
    ensures var s := Run(START, acts).value;
            && s.pc != InRun
            && (s.success <==> v == Returned(true))
            && (s.fired != [] ==> s.fired[0] == if v == Returned(true) then OnSuccess else OnFailure)
            && (FireStatus in acts ==> s.fired != [])
  {
    AlwaysInv(acts);
    var front, last := acts[..|acts| - 1], acts[|acts| - 1];
    assert acts == front + [last];
    if k < |front| {
      VerdictDecides(front, k, v);
      VerdictIsFinal(Run(START, front).value, [last]);
      RunOneMore(front, last);
    } else {
      StatusNeedsVerdict(front);
    }
  }

  lemma RunOneMore(front: seq<Action>, last: Action)
    ensures Run(START, front).Some? ==> Run(Run(START, front).value, [last]) == Run(START, front + [last])
  {
    assert (front + [last])[..|front|] == front && [last][..0] == [];
  }

  /** Before its own code is over, no callback has been called. */
  lemma {:induction false} StatusNeedsVerdict(acts: seq<Action>)
    requires Run(START, acts).Some? && Run(START, acts).value.pc == InRun
    ensures FireStatus !in acts
  {
    if acts != [] {
      var front := acts[..|acts| - 1];
      assert acts == front + [acts[|acts| - 1]];
      if Run(START, front).value.pc == InRun { StatusNeedsVerdict(front); }
    }
  }

  // ---- everybody gets back ----

  ghost function Those(s: State, pc: WaiterPc): set<nat> {
    set w | w in s.waiters && s.waiters[w] == pc
  }

  /** How many steps the runner has left. */
  function RunnerLeft(pc: RunPc): nat {
    match pc
    case InRun => 7
    case ToStatus => 6
    case ToCompletion => 5
    case ToLock => 4
    case ToStore => 3
    case ToUnlock => 2
    case ToNotify => 1
    case Finished => 0
  }

  /** What the waiters have left, as long as nobody wakes them. */
  ghost function Pending(s: State): nat {
    4 * |Those(s, WantLock)| + 3 * |Those(s, Testing)| + 2 * |Those(s, AboutToSleep)| + |Those(s, Asleep)|
  }

  lemma Moved(s: State, w: nat, pc: WaiterPc)
    requires w in s.waiters && s.waiters[w] != pc
    ensures var t := s.(waiters := s.waiters[w := pc]);
            && |Those(t, pc)| == |Those(s, pc)| + 1
            && |Those(t, s.waiters[w])| == |Those(s, s.waiters[w])| - 1
            && forall other :: other != pc && other != s.waiters[w] ==> Those(t, other) == Those(s, other)
  {
    var t := s.(waiters := s.waiters[w := pc]);
    var was := s.waiters[w];
    assert Those(t, pc) == Those(s, pc) + {w} && w !in Those(s, pc);
    assert Those(t, was) == Those(s, was) - {w} && w in Those(s, was);
  }

  lemma MovedDown(s: State, t: State, w: nat, pc: WaiterPc)
    requires w in s.waiters && t.waiters == s.waiters[w := pc]
    requires (s.waiters[w], pc) in
      {(WantLock, Testing), (Testing, AboutToSleep), (Testing, Back), (AboutToSleep, Asleep)}
    ensures Pending(t) < Pending(s)
  {
    Moved(s, w, pc);
    assert forall other :: Those(t, other) == Those(s.(waiters := s.waiters[w := pc]), other);
  }

  /** Apart from new calls and waking for no reason, every step brings the runner closer to its
      end or, failing that, the waiters closer to being back, whoever is scheduled. */
  lemma EveryStepHelps(s: State, a: Action)
    requires Do(s, a).Some? && !a.Call? && !a.Spurious?
    ensures var t := Do(s, a).value;
            || RunnerLeft(t.pc) < RunnerLeft(s.pc)
            || (t.pc == s.pc && Pending(t) < Pending(s))
  {
    var t := Do(s, a).value;
    match a {
      case Acquire(w) => MovedDown(s, t, w, Testing);
      case Test(w) => MovedDown(s, t, w, t.waiters[w]);
      case Sleep(w) => MovedDown(s, t, w, Asleep);
      case _ =>
    }
  }

  /** And until the runner is through and everybody is back, such a step can be taken: there is
      no deadlock, whoever holds the lock. */
  lemma SomeStepCanBeTaken(s: State, w: nat)
    requires Inv(s) && (s.pc != Finished || (w in s.waiters && s.waiters[w] != Back))
    ensures exists a: Action :: !a.Call? && !a.Spurious? && Do(s, a).Some?
  {
    if s.lock.Waiter? {
      var v := s.lock.id;
      assert At(s, v, Testing) || At(s, v, AboutToSleep);
      assert Do(s, Test(v)).Some? || Do(s, Sleep(v)).Some?;
    } else if s.pc != Finished {
      var a := RunnerStep(s.pc);
      assert Do(s, a).Some? && !a.Call? && !a.Spurious?;
    } else {
      assert !At(s, w, Asleep);
      assert (At(s, w, Testing) || At(s, w, AboutToSleep)) <==> s.lock == Waiter(w);
      assert Do(s, Acquire(w)).Some?;
    }
  }

  /** What the runner does next; its own code may also give another verdict. */
  function RunnerStep(pc: RunPc): Action
    requires pc != Finished
  {
    match pc
    case InRun => Work(Returned(true))
    case ToStatus => FireStatus
    case ToCompletion => FireCompletion
    case ToLock => Lock
    case ToStore => Store
    case ToUnlock => Unlock
    case ToNotify => Notify
  }
}
