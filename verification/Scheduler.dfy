/** The queue of tasks for the main thread: many producers, one consumer that takes what was
queued when it looked. */
module Scheduling {
  import opened PropertyTree

  /** An update that still has `left` tasks to run; `limit` tasks had been queued, ever, when it began. */
  datatype Batch = Batch(left: nat, limit: nat)

  /** `enqueued` and `ran` record everything that was queued and taken. */
  datatype Sched<T> = Sched(enqueued: seq<T>, queue: seq<T>, ran: seq<T>, batch: Option<Batch>, broken: bool)

  datatype Action<T> = Enqueue(task: T) | Begin | Take | Finish

  function Idle<T>(): Sched<T> {
    Sched([], [], [], None, false)
  }

  /** Taking from an empty queue is undefined behaviour, recorded as `broken`. */
  function Do<T>(s: Sched<T>, a: Action<T>): Option<Sched<T>> {
    match a
    case Enqueue(t) => Some(s.(enqueued := s.enqueued + [t], queue := s.queue + [t]))
    case Begin => if s.batch.None? then Some(s.(batch := Some(Batch(|s.queue|, |s.enqueued|)))) else None
    case Take =>
      if s.batch.None? || s.batch.value.left == 0 then None
      else if s.queue == [] then Some(s.(broken := true))
      else Some(s.(queue := s.queue[1..], ran := s.ran + [s.queue[0]],
                   batch := Some(s.batch.value.(left := s.batch.value.left - 1))))
    case Finish => if s.batch.Some? && s.batch.value.left == 0 then Some(s.(batch := None)) else None
  }

  ghost predicate Inv<T>(s: Sched<T>) {
    && !s.broken
    && s.enqueued == s.ran + s.queue
    && (s.batch.Some? ==> |s.ran| + s.batch.value.left == s.batch.value.limit <= |s.enqueued|)
  }

  lemma StepKeepsInv<T>(s: Sched<T>, a: Action<T>)
    requires Inv(s) && Do(s, a).Some?
    ensures Inv(Do(s, a).value)
  {
    if a.Take? && s.queue != [] {
      assert s.queue == [s.queue[0]] + s.queue[1..];
    }
  }

  function Run<T>(s: Sched<T>, acts: seq<Action<T>>): Option<Sched<T>> {
    if acts == [] then Some(s)
    else
      var before := Run(s, acts[..|acts| - 1]);
      if before.None? then None else Do(before.value, acts[|acts| - 1])
  }

  lemma {:induction false} AlwaysInv<T>(acts: seq<Action<T>>)
    requires Run(Idle(), acts).Some?
    ensures Inv(Run(Idle(), acts).value)
  {
    if acts != [] {
      AlwaysInv(acts[..|acts| - 1]);
      StepKeepsInv(Run(Idle(), acts[..|acts| - 1]).value, acts[|acts| - 1]);
    }
  }

  /** In every interleaving of producers with the consumer: the tasks run are a prefix of the
      tasks queued, none is lost, the queue is never empty when it is taken from, and nothing
      queued during an update is run by that update. */
  lemma RunsInOrder<T>(acts: seq<Action<T>>)
    requires Run(Idle(), acts).Some?
    ensures var s := Run(Idle(), acts).value;
            && !s.broken
            && s.ran <= s.enqueued && s.enqueued == s.ran + s.queue
            && (s.batch.Some? ==> |s.ran| <= s.batch.value.limit)
  {
    AlwaysInv(acts);
  }

  /** Within one update, `acts` being all that happens between its start and its end: what has run
      at the end is exactly what had been queued, ever, when it began. */
  lemma UpdateRunsAll<T>(before: seq<Action<T>>, acts: seq<Action<T>>)
    requires Run(Idle(), before).Some? && Do(Run(Idle(), before).value, Begin).Some?
    requires Finish !in acts && Run(Do(Run(Idle(), before).value, Begin).value, acts).Some?
    ensures var s := Run(Idle(), before).value;
            var t := Run(Do(s, Begin).value, acts).value;
            && t.ran <= s.enqueued <= t.enqueued
            && (Do(t, Finish).Some? <==> t.ran == s.enqueued)
  {
    AlwaysInv(before);
    StepKeepsInv(Run(Idle(), before).value, Begin);
    WithinUpdate(Run(Idle(), before).value, acts);
  }

  lemma {:induction false} WithinUpdate<T>(s: Sched<T>, acts: seq<Action<T>>)
    requires Inv(s) && s.batch.None? && Finish !in acts && Run(Do(s, Begin).value, acts).Some?
    ensures var t := Run(Do(s, Begin).value, acts).value;
            && Inv(t) && t.batch.Some? && t.batch.value.left == |s.enqueued| - |t.ran|
            && t.ran <= s.enqueued <= t.enqueued
  {
    if acts != [] {
      var front, last := acts[..|acts| - 1], acts[|acts| - 1];
      assert acts == front + [last];
      WithinUpdate(s, front);
      StepKeepsInv(Run(Do(s, Begin).value, front).value, last);
    } else {
      StepKeepsInv(s, Begin);
    }
  }

  class Scheduler<T> {
    var queue: seq<T>

    constructor ()
      ensures queue == []
    {
      queue := [];
    }

    method Enqueue(t: T)
      modifies this
      ensures queue == old(queue) + [t]
    {
      queue := queue + [t];
    }

    /** Runs exactly what was queued at the start, in order. `arrivals[i]` is what other
        threads, and the task before, queue between two lock sections. */
    method Update(arrivals: seq<seq<T>>) returns (ran: seq<T>)
      requires |arrivals| == |queue|
      modifies this
      ensures ran == old(queue)
      ensures queue == Flatten(arrivals)
    {
      var run := |queue|;
      ran := [];
      var n := run;
      while run > 0
        invariant 0 <= run <= n == |arrivals|
        invariant ran == old(queue)[..n - run]
        invariant queue == old(queue)[n - run..] + Flatten(arrivals[..n - run])
      {
        var i := n - run;
        queue := queue + arrivals[i];
        assert arrivals[..i + 1][..i] == arrivals[..i];
        assert queue == [old(queue)[i]] + old(queue)[i + 1..] + Flatten(arrivals[..i + 1]);
        var task := queue[0];
        queue := queue[1..];
        assert queue == old(queue)[i + 1..] + Flatten(arrivals[..i + 1]);
        ran := ran + [task];
        run := run - 1;
      }
      assert arrivals[..n] == arrivals;
    }
  }

  function Flatten<T>(ss: seq<seq<T>>): seq<T> {
    if ss == [] then [] else Flatten(ss[..|ss| - 1]) + ss[|ss| - 1]
  }

  /** Everything, in order. */
  lemma {:induction false} FlattenParts<T>(a: seq<seq<T>>, s: seq<T>, b: seq<seq<T>>)
    ensures Flatten(a + [s] + b) == Flatten(a) + s + Flatten(b)
  {
    if b == [] {
      assert a + [s] + b == a + [s] && (a + [s])[..|a|] == a;
    } else {
      var all, front := a + [s] + b, b[..|b| - 1];
      assert all[..|all| - 1] == a + [s] + front;
      FlattenParts(a, s, front);
      assert Flatten(a) + s + Flatten(front) + b[|b| - 1] == Flatten(a) + s + (Flatten(front) + b[|b| - 1]);
    }
  }
}
