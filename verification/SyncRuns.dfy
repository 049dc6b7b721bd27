/** Runs of the protocol that exist: a synchronisation that succeeds, and one that begins before
its fetch task is complete. */
module SyncRuns {
  import opened PropertyTree
  import opened Configuration
  import opened RemoteCollector
  import opened SyncConfig
  import opened RemoteSecurity
  import opened SyncProtocol
  import Tasks
  import Scheduling

  ghost predicate Reached(w0: World, w: World) {
    exists acts: seq<Action> :: Run(w0, acts) == Some(w)
  }

  lemma Extended(w0: World, w: World, a: Action) returns (w': World)
    requires Reached(w0, w) && Do(w, a).Some?
    ensures w' == Do(w, a).value && Reached(w0, w')
  {
    var acts: seq<Action> :| Run(w0, acts) == Some(w);
    w' := Do(w, a).value;
    assert (acts + [a])[..|acts|] == acts;
    assert Run(w0, acts + [a]) == Some(w');
  }

  lemma ReachedIsSafe(w0: World, w: World)
    requires Init(w0) && Reached(w0, w)
    ensures FetchInv(w) && MainInv(w)
  {
    var acts: seq<Action> :| Run(w0, acts) == Some(w);
    AlwaysSafe(w0, acts);
  }

  // ---- the tasks inside the protocol ----

  ghost predicate TasksInv(w: World) {
    forall g | 0 <= g < |w.requests| :: Tasks.Inv(w.requests[g].task)
  }

  lemma StepKeepsTasks(w: World, a: Action)
    requires TasksInv(w) && Do(w, a).Some?
    ensures TasksInv(Do(w, a).value)
  {
    match a {
      case Change(_, _, _) =>
      case Exchanged(_, _) =>
      case Pool(g, step) => Tasks.StepKeepsInv(w.requests[g].task, step);
      case _ => OtherStepsKeepRequests(w, a);
    }
  }

  /** Everything that holds of one task holds of the fetch task of every request, in every run. */
  lemma {:induction false} AlwaysTasks(w0: World, acts: seq<Action>)
    requires Init(w0) && Run(w0, acts).Some?
    ensures TasksInv(Run(w0, acts).value)
  {
    if acts != [] {
      AlwaysTasks(w0, acts[..|acts| - 1]);
      StepKeepsTasks(Run(w0, acts[..|acts| - 1]).value, acts[|acts| - 1]);
    }
  }

  /** Exactly when a synchronisation runs although its fetch task is not complete: while the
      fetch thread is between its status callback and storing the flag. */
  lemma IncompleteDuringSyncIff(w0: World, acts: seq<Action>)
    requires Init(w0) && Run(w0, acts).Some? && Run(w0, acts).value.main.Syncing?
    ensures var w := Run(w0, acts).value;
            w.main.g < |w.requests| &&
            var t := w.requests[w.main.g].task;
            && (!t.complete <==> t.pc in {Tasks.ToCompletion, Tasks.ToLock, Tasks.ToStore})
            && t.success && Tasks.OnSuccess in t.fired && Tasks.OnFailure !in t.fired
  {
    AlwaysSafe(w0, acts);
    AlwaysTasks(w0, acts);
    var w := Run(w0, acts).value;
    assert Fetched(w, w.main.g);
    assert Tasks.Inv(w.requests[w.main.g].task);
  }

  // ---- a request, its fetch, and the start of its synchronisation ----

  /** One request, still in its own code, and a main thread with nothing to do. */
  predicate Fetching(w0: World, w: World, r: Request) {
    w == w0.(requests := [r], sent := w.sent) && r.task == Tasks.START
  }

  lemma ReachRequest(w0: World, client: string, key: string, endpoint: string, general: bool) returns (w: World)
    requires Init(w0) && Permits(w0.access, key, SYNC_FROM)
    ensures Reached(w0, w) && Fetching(w0, w, NewRequest(client, key, endpoint, general))
  {
    assert Run(w0, []) == Some(w0);
    w := Extended(w0, w0, Receive(client, key, endpoint, general));
    w := Extended(w0, w, Reply);
  }

  /** A remote unit that answers can always be collected. */
  lemma {:induction false} ReachFetched(w0: World, before: World, r: Request) returns (w: World, r': Request)
    requires Reached(w0, before) && Fetching(w0, before, r)
    requires r.endpoint in w0.remotes && w0.remotes[r.endpoint] != []
    requires var s := Last(w0.remotes[r.endpoint]);
             DistinctModules(s) && s.general.Ok? && Partial(r.collector, s) && r.collector.stage != Done(false)
    ensures Reached(w0, w) && Fetching(w0, w, r') && r'.collector.stage == Done(true)
    ensures r'.client == r.client && r'.endpoint == r.endpoint && r'.general == r.general
    ensures Snapshot(r'.collector, Last(w0.remotes[r.endpoint]))
    decreases Rank(r.collector.stage),
              if r.collector.stage.AskModule? then |r.collector.list| - r.collector.stage.i else 0,
              if r.collector.stage.Done? then 0 else 1
  {
    if r.collector.stage.Done? {
      w, r' := before, r;
    } else {
      var s := Last(w0.remotes[r.endpoint]);
      ExchangeAgrees(r.collector, s);
      if r.collector.stage.AskModule? { FindDistinctModule(s.modules, r.collector.stage.i); }
      w := Extended(w0, before, Exchanged(0, false));
      assert [r][0 := w.requests[0]] == [w.requests[0]];
      w, r' := ReachFetched(w0, w, w.requests[0]);
    }
  }

  const REPORTED: Tasks.State := Tasks.START.(success := true, pc := Tasks.ToStatus)

  lemma ReachReported(w0: World, before: World, r: Request) returns (w: World)
    requires Reached(w0, before) && Fetching(w0, before, r) && r.collector.stage == Done(true)
    ensures Reached(w0, w) && w == before.(requests := [r.(task := REPORTED)])
  {
    w := Extended(w0, before, Pool(0, Tasks.Work(Tasks.Returned(true))));
    assert [r][0 := r.(task := REPORTED)] == [r.(task := REPORTED)];
  }

  lemma ReachQueued(w0: World, before: World, r: Request) returns (w: World)
    requires Reached(w0, before) && before.requests == [r] && r.task == REPORTED && before.sched == Scheduling.Idle()
    ensures Reached(w0, w) && w == before.(requests := w.requests, sched := w.sched)
    ensures w.sched == Scheduling.Idle().(enqueued := [SyncTask(0)], queue := [SyncTask(0)])
    ensures |w.requests| == 1 && w.requests[0] == r.(task := w.requests[0].task)
    ensures w.requests[0].task.success && !w.requests[0].task.complete
  {
    w := Extended(w0, before, Pool(0, Tasks.FireStatus));
    assert [r][0 := w.requests[0]] == [w.requests[0]];
  }

  /** The fetch reports and queues; the main thread begins an update and takes up the
      synchronisation, before the fetch thread does anything else. */
  lemma ReachTaken(w0: World, before: World, r: Request) returns (w: World)
    requires Init(w0) && Reached(w0, before) && Fetching(w0, before, r) && r.collector.stage == Done(true)
    ensures Reached(w0, w) && w.main == Syncing(0, Start, w0.local) && w.local == w0.local && w.remotes == w0.remotes
    ensures |w.requests| == 1 && w.requests[0] == r.(task := w.requests[0].task)
    ensures w.requests[0].task.success && !w.requests[0].task.complete
    ensures w.sched.queue == [] && w.sched.batch.Some? && w.sched.batch.value.left == 0
  {
    w := ReachReported(w0, before, r);
    w := ReachQueued(w0, w, w.requests[0]);
    w := ReachFirstTask(w0, w, SyncTask(0));
  }

  lemma ReachFirstTask(w0: World, before: World, t: MainTask) returns (w: World)
    requires Reached(w0, before) && before.main == Polling && before.loop != Exited
    requires before.sched.batch == None && before.sched.queue == [t]
    ensures Reached(w0, w) && w == before.(sched := w.sched, main := w.main)
    ensures w.main == match t case SyncTask(g) => Syncing(g, Start, before.local) case AbortTask(g) => Aborting(g)
    ensures w.sched.queue == [] && w.sched.batch.Some? && w.sched.batch.value.left == 0
  {
    w := Extended(w0, before, BeginUpdate);
    w := Extended(w0, w, TakeTask);
  }

  // ---- a synchronisation that goes through ----

  function ProgressLeft(p: Progress): nat {
    match p
    case Start => 6
    case Storing(_) => 5
    case Restoring => 4
    case Loading => 3
    case Starting => 2
    case Ending(_) => 1
  }

  function StoringLeft(w: World): nat {
    if w.main.Syncing? && w.main.g < |w.requests| && w.main.progress.Storing? then
      var n, i := |w.requests[w.main.g].collector.list|, w.main.progress.i;
      if i <= n then n - i else 0
    else 0
  }

  /** The configuration that the synchronisation started from. */
  function Base(w: World): Config
    requires w.main.Syncing?
  {
    if w.main.progress == Start then w.local else w.main.backup
  }

  /** From `base`, the kernel tree can be taken over, and what is then to be loaded names its
      libraries. */
  predicate GoesThrough(base: Config, r: Request) {
    var start := WithKernel(base, r.collector, r.general);
    start.Ok? && NamesLibraries(r.collector.list, Merged(start.value, base, r.collector).modules)
  }

  /** A step in which nothing else fails. */
  lemma WorkAdvances(w: World)
    requires MainInv(w) && w.main.Syncing? && !w.main.progress.Ending?
    requires var r := w.requests[w.main.g];
             (forall n | n in r.collector.list :: n in r.collector.configs) && GoesThrough(Base(w), r)
    ensures Do(w, Work(false)).Some?
    ensures var w' := Do(w, Work(false)).value;
            && w'.main.Syncing? && w'.main.g == w.main.g && Base(w') == Base(w)
            && w'.main.progress != Start && w'.main.progress != Ending(false)
            && w'.requests == w.requests && w'.remotes == w.remotes && w'.sched == w.sched && w'.sent == w.sent
            && (ProgressLeft(w'.main.progress) < ProgressLeft(w.main.progress)
                || (w.main.progress.Storing? && w'.main.progress.Storing? && StoringLeft(w') < StoringLeft(w)))
  {
    var list := w.requests[w.main.g].collector.list;
    if w.main.progress.Storing? && w.main.progress.i < |list| {
      assert list[w.main.progress.i] in list;
    }
  }

  /** The end is in reach. */
  lemma {:induction false} ReachEnding(w0: World, before: World) returns (w: World)
    requires Init(w0) && Reached(w0, before) && before.main.Syncing? && before.main.progress != Ending(false)
    requires before.main.g < |before.requests| && GoesThrough(Base(before), before.requests[before.main.g])
    ensures Reached(w0, w) && w.main.Syncing? && w.main.progress == Ending(true) && w.main.g == before.main.g
    ensures w.requests == before.requests && w.remotes == before.remotes
    ensures w.sched == before.sched && w.sent == before.sent
    decreases ProgressLeft(before.main.progress), StoringLeft(before)
  {
    if before.main.progress == Ending(true) {
      w := before;
    } else {
      ReachedIsSafe(w0, before);
      FetchedIsSnapshot(before, before.main.g);
      WorkAdvances(before);
      w := Extended(w0, before, Work(false));
      w := ReachEnding(w0, w);
    }
  }

  /** What module `n` of the remote list is to be loaded with. */
  function Target(local: Config, s: RemoteState, n: string): Option<Tree> {
    if Imports(local.kernel, n) then
      var m := FindModule(s.modules, n);
      if m.Some? then Some(m.value.config) else None
    else Lookup(local.modules, n)
  }

  /** The remote export and the local `sync_dest` are readable, and every module of the remote list
      that is to be loaded names its library. */
  ghost predicate CanTakeOver(local: Config, s: RemoteState, general: bool) {
    && s.general.Ok?
    && (general ==> SetKernel(local.kernel, local.instanceName, s.general.value).Ok?)
    && forall n | n in ModuleNames(s.modules) && Target(local, s, n).Some? ::
         GetData(Target(local, s, n).value, "file").Some?
  }

  lemma SnapshotGoesThrough(local: Config, r: Request, s: RemoteState)
    requires Genuine(s) && Snapshot(r.collector, s) && CanTakeOver(local, s, r.general)
    ensures GoesThrough(local, r)
  {
    var c := r.collector;
    GenuineIsPublic(s);
    GenuineIsDistinct(s);
    SnapshotIsListed(c, s);
    var start := WithKernel(local, c, r.general).value;
    MergeIsIntended(start, local, c, r.general);
    var configs := Merged(start, local, c).modules;
    forall n | n in c.list && n in configs ensures GetData(configs[n], "file").Some? {
      ConfigsLookup(s.modules, n);
      assert Lookup(configs, n) == Intended(local, c, n) == Target(local, s, n);
    }
  }

  lemma SnapshotIsListed(c: Collector, s: RemoteState)
    requires Snapshot(c, s) && DistinctModules(s)
    ensures forall n | n in c.list :: n in c.configs
  {
    forall n | n in c.list ensures n in c.configs { ConfigsLookup(s.modules, n); }
  }

  /** And only if so: what was taken over could be. */
  lemma TakenOverCouldBe(local: Config, backup: Config, s: RemoteState, general: bool)
    requires DistinctModules(s) && s.general.Ok? && TakenOver(local, backup, s, general)
    ensures CanTakeOver(backup, s, general)
  {
    forall n | n in ModuleNames(s.modules) && Target(backup, s, n).Some?
      ensures GetData(Target(backup, s, n).value, "file").Some?
    {
      ConfigsLookup(s.modules, n);
      assert Lookup(local.modules, n) == Target(backup, s, n);
    }
  }

  /** From every start, a synchronisation with a known remote unit can go through if its state can
      be taken over. */
  lemma SyncCanSucceed(w0: World, client: string, key: string, endpoint: string, general: bool)
    requires Init(w0) && Permits(w0.access, key, SYNC_FROM) && endpoint in w0.remotes
    requires CanTakeOver(w0.local, Last(w0.remotes[endpoint]), general)
    ensures exists w :: Reached(w0, w) && w.main.Syncing? && w.main.progress == Ending(true) && w.main.g < |w.requests|
                     && w.requests[w.main.g].client == client
                     && w.requests[w.main.g].collector.list == ModuleNames(Last(w0.remotes[endpoint]).modules)
  {
    var w := ReachSuccess(w0, client, key, endpoint, general);
  }

  lemma ReachSuccess(w0: World, client: string, key: string, endpoint: string, general: bool) returns (w: World)
    requires Init(w0) && Permits(w0.access, key, SYNC_FROM) && endpoint in w0.remotes
    requires CanTakeOver(w0.local, Last(w0.remotes[endpoint]), general)
    ensures Reached(w0, w) && w.main.Syncing? && w.main.progress == Ending(true) && w.main.g == 0
    ensures |w.requests| == 1 && w.requests[0].client == client && w.requests[0].general == general
    ensures w.requests[0].collector.list == ModuleNames(Last(w0.remotes[endpoint]).modules)
    ensures w.sched.queue == [] && w.sched.batch.Some? && w.sched.batch.value.left == 0
  {
    var s := Last(w0.remotes[endpoint]);
    var w1 := ReachRequest(w0, client, key, endpoint, general);
    assert History(w0.remotes[endpoint]);
    GenuineIsDistinct(s);
    var w2, r2 := ReachFetched(w0, w1, w1.requests[0]);
    var w3 := ReachTaken(w0, w2, r2);
    SnapshotGoesThrough(w0.local, w3.requests[0], s);
    w := ReachEnding(w0, w3);
  }

  /** From every start, a synchronisation with a known remote unit can begin before its fetch task
      has stored its completion flag. */
  lemma SyncCanStartEarly(w0: World, client: string, key: string, endpoint: string, general: bool)
    requires Init(w0) && Permits(w0.access, key, SYNC_FROM)
    requires endpoint in w0.remotes && Last(w0.remotes[endpoint]).general.Ok?
    ensures exists w :: Reached(w0, w) && w.main.Syncing? && w.main.progress == Start
                     && w.main.g < |w.requests| && !w.requests[w.main.g].task.complete
  {
    var w1 := ReachRequest(w0, client, key, endpoint, general);
    assert History(w0.remotes[endpoint]);
    GenuineIsDistinct(Last(w0.remotes[endpoint]));
    var w2, r2 := ReachFetched(w0, w1, w1.requests[0]);
    var w3 := ReachTaken(w0, w2, r2);
  }

  // ---- two units to start from ----

  /** A properly configured unit with nothing to do, and a remote unit with two modules. */
  function QuietWorld(): World {
    World(map["tcp://remote" := [TwoModules("x")]], Config(UnitTree("f", "unit", []), map[], 1, "unit"),
          [], Scheduling.Idle(), Polling, [], Access(true, Tables(map[], map[])), Running)
  }

  /** All units are properly configured, and every remote state is exactly one that a unit can be in. */
  ghost predicate RealWorld(w: World) {
    && WellNamed(w.local.kernel, w.local.instanceName)
    && forall e, i | e in w.remotes && 0 <= i < |w.remotes[e]| :: IsReal(w.remotes[e][i])
  }

  ghost predicate IsReal(s: RemoteState) {
    exists c: Config :: RealState(s, c)
  }

  lemma QuietIsInit()
    ensures Init(QuietWorld()) && RealWorld(QuietWorld())
    ensures "tcp://remote" in QuietWorld().remotes && Last(QuietWorld().remotes["tcp://remote"]) == TwoModules("x")
  {
    TwoModulesGenuine("x");
    assert IsReal(TwoModules("x"));
    OneStateHistory(TwoModules("x"));
    UnitTreeGet("f", "unit", [], "kernel-cfg");
  }

  lemma QuietCanTakeOver(general: bool)
    ensures CanTakeOver(QuietWorld().local, TwoModules("x"), general)
  {
    var local, s := QuietWorld().local, TwoModules("x");
    UnitTreeGet("f", "unit", [], "kernel-cfg");
    UnitTreeGet("f", "unit", [], "sync_dest");
    UnitTreeGet("f", "unit", [], "no_import");
    ModuleTreeGet("b", "x", [("level", Leaf("1"))]);
    ModuleTreeGet("a", "x", []);
    forall n | n in ModuleNames(s.modules) && Target(local, s, n).Some?
      ensures GetData(Target(local, s, n).value, "file").Some?
    {
      var i :| 0 <= i < 2 && ModuleNames(s.modules)[i] == n;
      FindDistinctModule(s.modules, i);
    }
  }

  lemma OneStateHistory(s: RemoteState)
    requires Genuine(s)
    ensures History([s])
  {
  }

  /** The main thread can be at the start of a synchronisation although the fetch task has not
      stored its completion flag: the flag is stored only after the status callback that queues
      the synchronisation. What holds instead is `SyncReadsFinalCollector`. */
  lemma SyncBeforeCompletion()
    ensures exists w0, w :: Init(w0) && RealWorld(w0) && Reached(w0, w)
                         && w.main.Syncing? && w.main.progress == Start
                         && w.main.g < |w.requests| && !w.requests[w.main.g].task.complete
  {
    QuietIsInit();
    SyncCanStartEarly(QuietWorld(), "client", "key", "tcp://remote", false);
  }
}
