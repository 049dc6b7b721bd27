/** The whole `SYNC_FROM` protocol: remote units that change at will, one pool thread per
request that collects a remote configuration, and the main thread that answers clients,
merges and reloads. A run is any interleaving of the steps of all of them. */
module SyncProtocol {
  import opened PropertyTree
  import opened Configuration
  import opened RemoteCollector
  import opened SyncConfig
  import opened RemoteSecurity
  import Tasks
  import Scheduling

  datatype MainTask = SyncTask(g: nat) | AbortTask(g: nat)

  datatype Kind = Delayed | Success | Failed | Aborted

  /** What is sent to a client: an answer about the request `guid`, or a refusal. */
  datatype Message = Answer(client: string, kind: Kind, guid: nat) | Refusal(client: string)

  /** How far the main thread is with a synchronisation. */
  datatype Progress = Start | Storing(i: nat) | Restoring | Loading | Starting | Ending(ok: bool)

  datatype MainPc =
    | Polling
    | Replying(msg: Message)
    | Syncing(g: nat, progress: Progress, backup: Config)
    | Aborting(g: nat)

  /** One accepted request: who asked, what is collected, and the fetch task. `first` is the
      number of the remote state that answered the general request. */
  datatype Request = Request(
    client: string, key: string, endpoint: string, general: bool, collector: Collector, first: nat, task: Tasks.State)

  /** The main loop runs, or has been told to end and still serves for a while, or has ended: the
      kernel is gone and another one starts from the configuration file. */
  datatype Loop = Running | Draining | Exited

  /** `remotes` gives all the states each remote unit went through, the current one last. */
  datatype World = World(
    remotes: map<string, seq<RemoteState>>, local: Config, requests: seq<Request>,
    sched: Scheduling.Sched<MainTask>, main: MainPc, sent: seq<Message>, access: Access, loop: Loop)

  const SYNC_FROM: string := "SYNC_FROM"

  datatype Action =
    | Change(endpoint: string, config: Config, modules: seq<RemoteModule>)   // a remote unit changes
    | Exchanged(g: nat, lost: bool)                                          // one request of a fetch
    | Pool(g: nat, step: Tasks.Action)                                       // a step of a fetch task
    | Receive(client: string, key: string, endpoint: string, general: bool)  // a well-formed SYNC_FROM
    | Refuse(client: string)                                                 // anything else that is refused
    | Stop                                                                   // a signal or a control request
    | Exit                                                                   // the main loop ends
    | Reply | BeginUpdate | TakeTask | FinishUpdate                          // the main loop
    | Work(threw: bool)                                                      // the task on the main thread

  function Last<T>(s: seq<T>): T
    requires s != []
  {
    s[|s| - 1]
  }

  function Answered(config: Config, modules: seq<RemoteModule>): RemoteState {
    RemoteState(config.version, Export(config), modules)
  }

  // ---- the steps ----

  /** The rule the collector relies on: the version never falls, and a change of the modules raises
      it. */
  function DoChange(w: World, endpoint: string, config: Config, modules: seq<RemoteModule>): Option<World> {
    var s := Answered(config, modules);
    if endpoint in w.remotes && w.remotes[endpoint] != []
      && Later(Last(w.remotes[endpoint]), s) && AnsweredBy(s, config)
    then Some(w.(remotes := w.remotes[endpoint := w.remotes[endpoint] + [s]]))
    else None
  }

  function DoExchange(w: World, g: nat, lost: bool): Option<World> {
    if g >= |w.requests| then None else
    var r := w.requests[g];
    if r.task.pc != Tasks.InRun || r.collector.stage.Done? then None
    else if lost then Some(w.(requests := w.requests[g := r.(collector := Exchange(r.collector, None))]))
    else if r.endpoint in w.remotes && w.remotes[r.endpoint] != [] then
      var h := w.remotes[r.endpoint];
      var first := if r.collector.stage.AskVersion? || r.collector.stage.AskGeneral? then |h| - 1 else r.first;
      Some(w.(requests := w.requests[g := r.(collector := Exchange(r.collector, Some(Last(h))), first := first)]))
    else None
  }

  /** The fetch task reports what the collection gave; its status callback queues the
      synchronisation, or the answer that it was aborted, for the main thread. */
  function DoPool(w: World, g: nat, a: Tasks.Action): Option<World> {
    if g >= |w.requests| then None else
    var r := w.requests[g];
    var t := Tasks.Do(r.task, a);
    if t.None? then None
    else if a.Work? && !(r.collector.stage.Done? && a.verdict == Tasks.Returned(r.collector.stage.ok)) then None
    else
      var w' := w.(requests := w.requests[g := r.(task := t.value)]);
      if a.FireStatus? then
        var task := if r.task.success then SyncTask(g) else AbortTask(g);
        var s := Scheduling.Do(w.sched, Scheduling.Enqueue(task));
        if s.Some? then Some(w'.(sched := s.value)) else None
      else Some(w')
  }

  function NewRequest(client: string, key: string, endpoint: string, general: bool): Request {
    Request(client, key, endpoint, general, RemoteCollector.START, 0, Tasks.START)
  }

  /** A client whose key is not permitted to ask is refused. */
  function DoReceive(w: World, client: string, key: string, endpoint: string, general: bool): Option<World> {
    if w.main != Polling || w.sched.batch.Some? || w.loop == Exited then None
    else if !Permits(w.access, key, SYNC_FROM) then Some(w.(main := Replying(Refusal(client))))
    else Some(w.(requests := w.requests + [NewRequest(client, key, endpoint, general)],
                 main := Replying(Answer(client, Delayed, |w.requests|))))
  }

  /** The flag is looked at between two rounds of the loop. */
  function DoExit(w: World): Option<World> {
    if w.loop == Draining && w.main == Polling && w.sched.batch.None? then Some(w.(loop := Exited)) else None
  }

  function DoSched(w: World, a: Scheduling.Action<MainTask>): Option<World> {
    var s := Scheduling.Do(w.sched, a);
    if s.Some? then Some(w.(sched := s.value)) else None
  }

  function DoTake(w: World): Option<World> {
    if w.main != Polling || w.sched.queue == [] then None else
    var task := w.sched.queue[0];
    var w' := DoSched(w, Scheduling.Take);
    if w'.None? then None
    else match task
      case SyncTask(g) => Some(w'.value.(main := Syncing(g, Start, w.local)))
      case AbortTask(g) => Some(w'.value.(main := Aborting(g)))
  }

  /** One step of the synchronisation on the main thread. It reads the collector of the
      request as it is now. Taking over the general configuration tells the main loop to end.
      Loading fails if a configuration names no library; it and starting modules may also fail for
      other reasons. */
  function DoSync(w: World, r: Request, m: MainPc, threw: bool): (w': World)
    requires m.Syncing?
    ensures w' == w.(local := w'.local, main := w'.main, sent := w'.sent, loop := w'.loop)
  {
    var c := r.collector;
    match m.progress
    case Start =>
      var start := WithKernel(w.local, c, r.general);
      if !r.task.success || start.Err? then w.(main := m.(progress := Ending(false)))
      else
        w.(local := start.value, main := m.(progress := Storing(0), backup := w.local),
           loop := if r.general && w.loop == Running then Draining else w.loop)
    case Storing(i) =>
      if i >= |c.list| then w.(main := m.(progress := Restoring))
      else if Importable(w.local, c.list[i]) && c.list[i] !in c.configs then w.(main := m.(progress := Ending(false)))
      else w.(local := MergeOne(w.local, m.backup, c, c.list[i]), main := m.(progress := Storing(i + 1)))
    case Restoring =>
      w.(local := Restore(w.local, m.backup, NonImportable(m.backup)), main := m.(progress := Loading))
    case Loading =>
      if threw || !NamesLibraries(c.list, w.local.modules) then w.(main := m.(progress := Ending(false)))
      else w.(local := w.local.(version := c.version), main := m.(progress := Starting))
    case Starting => w.(main := m.(progress := Ending(!threw)))
    case Ending(ok) =>
      w.(sent := w.sent + [Answer(r.client, if ok then Success else Failed, m.g)], main := Polling)
  }

  function DoWork(w: World, threw: bool): Option<World> {
    match w.main
    case Syncing(g, _, _) => if g < |w.requests| then Some(DoSync(w, w.requests[g], w.main, threw)) else None
    case Aborting(g) =>
      if g < |w.requests| then Some(w.(sent := w.sent + [Answer(w.requests[g].client, Aborted, g)], main := Polling))
      else None
    case _ => None
  }

  function Do(w: World, a: Action): Option<World> {
    match a
    case Change(e, config, modules) => DoChange(w, e, config, modules)
    case Exchanged(g, lost) => DoExchange(w, g, lost)
    case Pool(g, step) => DoPool(w, g, step)
    case Receive(client, key, e, general) => DoReceive(w, client, key, e, general)
    case Refuse(client) =>
      if w.main != Polling || w.sched.batch.Some? || w.loop == Exited then None
      else Some(w.(main := Replying(Refusal(client))))
    case Stop => if w.loop == Running then Some(w.(loop := Draining)) else None
    case Exit => DoExit(w)
    case Reply => if w.main.Replying? then Some(w.(sent := w.sent + [w.main.msg], main := Polling)) else None
    case BeginUpdate => if w.main == Polling && w.loop != Exited then DoSched(w, Scheduling.Begin) else None
    case TakeTask => DoTake(w)
    case FinishUpdate => if w.main == Polling then DoSched(w, Scheduling.Finish) else None
    case Work(threw) => DoWork(w, threw)
  }

  function Run(w: World, acts: seq<Action>): Option<World> {
    if acts == [] then Some(w)
    else
      var before := Run(w, acts[..|acts| - 1]);
      if before.None? then None else Do(before.value, acts[|acts| - 1])
  }

  // ---- where runs begin ----

  /** A remote unit's past: versions do not fall and rise with every change of the modules, and
      each state is one that a unit can be in. */
  ghost predicate History(h: seq<RemoteState>) {
    && h != []
    && (forall i, j | 0 <= i < j < |h| :: Later(h[i], h[j]))
    && (forall i | 0 <= i < |h| :: Genuine(h[i]))
  }

  ghost predicate Init(w: World) {
    && (forall e | e in w.remotes :: History(w.remotes[e]))
    && w.requests == [] && w.sched == Scheduling.Idle() && w.main == Polling && w.sent == []
    && w.loop == Running
  }

  // ---- fetching ----

  /** How a fetch stands towards the remote unit it reads. */
  ghost predicate FetchOk(w: World, r: Request) {
    && (r.collector.stage.AskVersion? ==> r.collector == RemoteCollector.START)
    && (r.task.pc == Tasks.InRun || r.collector.stage.Done?)
    && (r.task.pc == Tasks.InRun ==> !r.task.success)
    && (r.task.pc != Tasks.InRun ==> (r.task.success <==> r.collector.stage == Done(true)))
    && (!r.collector.stage.AskVersion? && r.collector.stage != Done(false) ==>
          && r.endpoint in w.remotes && r.first < |w.remotes[r.endpoint]|
          && Tracks(r.collector, w.remotes[r.endpoint][r.first], Last(w.remotes[r.endpoint])))
  }

  ghost predicate FetchInv(w: World) {
    && (forall e | e in w.remotes :: History(w.remotes[e]))
    && (forall g | 0 <= g < |w.requests| :: FetchOk(w, w.requests[g]))
  }

  lemma HistoryGrows(h: seq<RemoteState>, s: RemoteState)
    requires History(h) && Later(Last(h), s) && Genuine(s)
    ensures History(h + [s])
  {
    var longer := h + [s];
    assert forall i | 0 <= i < |h| :: longer[i] == h[i] && (i < |h| - 1 ==> Later(h[i], Last(h)));
    forall i, j | 0 <= i < j < |longer| ensures Later(longer[i], longer[j]) {}
  }

  lemma ChangeKeepsFetch(w: World, endpoint: string, config: Config, modules: seq<RemoteModule>)
    requires FetchInv(w) && DoChange(w, endpoint, config, modules).Some?
    ensures FetchInv(DoChange(w, endpoint, config, modules).value)
  {
    var s := Answered(config, modules);
    var w' := DoChange(w, endpoint, config, modules).value;
    var h := w.remotes[endpoint];
    assert Genuine(s);
    HistoryGrows(h, s);
    forall g | 0 <= g < |w'.requests| ensures FetchOk(w', w'.requests[g]) {
      var r := w.requests[g];
      assert FetchOk(w, r);
      if !r.collector.stage.AskVersion? && r.collector.stage != Done(false) && r.endpoint == endpoint {
        assert (h + [s])[r.first] == h[r.first];
        TracksLater(r.collector, h[r.first], Last(h), s);
      }
    }
  }

  lemma ExchangeKeepsFetch(w: World, g: nat, lost: bool)
    requires FetchInv(w) && DoExchange(w, g, lost).Some?
    ensures FetchInv(DoExchange(w, g, lost).value)
  {
    var w' := DoExchange(w, g, lost).value;
    var r := w.requests[g];
    assert FetchOk(w, r);
    if !lost {
      var h := w.remotes[r.endpoint];
      assert History(h);
      if r.collector.stage.AskVersion? {
        assert Tracks(Exchange(r.collector, Some(Last(h))), Last(h), Last(h));
      } else {
        GenuineIsDistinct(h[r.first]);
        TracksExchange(r.collector, h[r.first], Last(h), Some(Last(h)));
      }
    }
    forall k | 0 <= k < |w'.requests| ensures FetchOk(w', w'.requests[k]) {
      assert FetchOk(w, w.requests[k]);
    }
  }

  lemma PoolKeepsFetch(w: World, g: nat, a: Tasks.Action)
    requires FetchInv(w) && DoPool(w, g, a).Some?
    ensures FetchInv(DoPool(w, g, a).value)
  {
    var w' := DoPool(w, g, a).value;
    forall k | 0 <= k < |w'.requests| ensures FetchOk(w', w'.requests[k]) {
      assert FetchOk(w, w.requests[k]);
    }
  }

  /** Only remote changes and pool threads touch what a fetch depends on. */
  lemma OtherStepsKeepRequests(w: World, a: Action)
    requires Do(w, a).Some? && !a.Change? && !a.Exchanged? && !a.Pool?
    ensures var w' := Do(w, a).value;
            && w'.remotes == w.remotes && |w.requests| <= |w'.requests|
            && (forall g | 0 <= g < |w.requests| :: w'.requests[g] == w.requests[g])
            && (forall g | |w.requests| <= g < |w'.requests| ::
                  a.Receive? && w'.requests[g] == NewRequest(a.client, a.key, a.endpoint, a.general))
  {
  }

  lemma StepKeepsFetch(w: World, a: Action)
    requires FetchInv(w) && Do(w, a).Some?
    ensures FetchInv(Do(w, a).value)
  {
    match a {
      case Change(e, config, modules) => ChangeKeepsFetch(w, e, config, modules);
      case Exchanged(g, lost) => ExchangeKeepsFetch(w, g, lost);
      case Pool(g, step) => PoolKeepsFetch(w, g, step);
      case _ =>
        OtherStepsKeepRequests(w, a);
        var w' := Do(w, a).value;
        forall g | 0 <= g < |w'.requests| ensures FetchOk(w', w'.requests[g]) {
          if g < |w.requests| { assert FetchOk(w, w.requests[g]); }
        }
    }
  }

  /** A request whose fetch reported success holds one remote state whole. */
  lemma FetchedIsSnapshot(w: World, g: nat)
    requires FetchInv(w) && g < |w.requests| && w.requests[g].task.success
    ensures var r := w.requests[g];
            && r.collector.stage == Done(true)
            && r.endpoint in w.remotes && r.first < |w.remotes[r.endpoint]|
            && Snapshot(r.collector, w.remotes[r.endpoint][r.first])
            && Public(r.collector.general)
            && forall n | n in r.collector.list :: n in r.collector.configs
  {
    var r := w.requests[g];
    assert FetchOk(w, r);
    var s := w.remotes[r.endpoint][r.first];
    assert History(w.remotes[r.endpoint]);
    GenuineIsPublic(s);
    CollectedKeys(s.modules);
    forall n | n in r.collector.list ensures n in r.collector.configs {
      var i :| 0 <= i < |s.modules| && ModuleNames(s.modules)[i] == n;
      assert s.modules[i].name == n;
      assert n in ConfigsOf(s.modules).Keys;
    }
  }

  // ---- once fetched, never written again ----

  /** Whatever happens next, a fetch that reported success stays successful and its collector
      is not written any more. */
  lemma {:induction false} FetchedStaysFetched(w: World, acts: seq<Action>, g: nat)
    requires g < |w.requests| && w.requests[g].task.pc != Tasks.InRun && Run(w, acts).Some?
    ensures var w' := Run(w, acts).value;
            && g < |w'.requests| && w'.requests[g].task.pc != Tasks.InRun
            && w'.requests[g].collector == w.requests[g].collector
            && w'.requests[g].task.success == w.requests[g].task.success
            && w'.requests[g].client == w.requests[g].client
  {
    if acts != [] {
      FetchedStaysFetched(w, acts[..|acts| - 1], g);
      OneStepFetched(Run(w, acts[..|acts| - 1]).value, acts[|acts| - 1], g);
    }
  }

  lemma OneStepFetched(w: World, a: Action, g: nat)
    requires g < |w.requests| && w.requests[g].task.pc != Tasks.InRun && Do(w, a).Some?
    ensures var w' := Do(w, a).value;
            && g < |w'.requests| && w'.requests[g].task.pc != Tasks.InRun
            && w'.requests[g].collector == w.requests[g].collector
            && w'.requests[g].task.success == w.requests[g].task.success
            && w'.requests[g].client == w.requests[g].client
  {
    if !a.Change? && !a.Exchanged? && !a.Pool? { OtherStepsKeepRequests(w, a); }
  }

  // ---- merging ----

  /** The fetch has reported, and its status callback has run. */
  predicate Reported(w: World, g: nat) {
    g < |w.requests| && w.requests[g].task.pc != Tasks.InRun && w.requests[g].task.pc != Tasks.ToStatus
  }

  predicate Fetched(w: World, g: nat) {
    Reported(w, g) && w.requests[g].task.success
  }

  predicate FetchFailed(w: World, g: nat) {
    Reported(w, g) && !w.requests[g].task.success
  }

  /** How far the local configuration is between the backup and the merged one. */
  predicate MergeOk(w: World, r: Request, p: Progress, backup: Config) {
    var c, start := r.collector, WithKernel(backup, r.collector, r.general);
    match p
    case Start => w.local == backup
    case Storing(i) => start.Ok? && i <= |c.list| && w.local == MergeList(start.value, backup, c, c.list[..i])
    case Restoring => start.Ok? && w.local == MergeList(start.value, backup, c, c.list)
    case Loading => start.Ok? && w.local == Merged(start.value, backup, c)
    case Starting => start.Ok? && MergeDone(w.local, start.value, backup, c)
    case Ending(ok) =>
      if ok then start.Ok? && MergeDone(w.local, start.value, backup, c)
      else (forall n | n in c.list :: n in c.configs) ==> LeftByFailure(w.local, start, backup, c)
  }

  /** What a failed synchronisation leaves: the old configuration if the kernel tree could not be
      taken over, else the merged one, with the new version only if all modules could be loaded. */
  predicate LeftByFailure(local: Config, start: Result<Config>, backup: Config, c: Collector) {
    if start.Err? then local == backup
    else local == Merged(start.value, backup, c) || MergeDone(local, start.value, backup, c)
  }

  predicate MergeDone(local: Config, start: Config, backup: Config, c: Collector) {
    local == Merged(start, backup, c).(version := c.version) && NamesLibraries(c.list, local.modules)
  }

  /** A synchronisation that has taken over the general configuration has told the loop to end. */
  predicate LoopOk(w: World) {
    && (w.loop == Exited ==> w.main == Polling && w.sched.batch.None?)
    && (w.main.Syncing? && w.main.g < |w.requests| && w.requests[w.main.g].general ==>
          w.main.progress == Start || w.main.progress == Ending(false) || w.loop != Running)
  }

  ghost predicate MainInv(w: World) {
    && Scheduling.Inv(w.sched)
    && (forall g | SyncTask(g) in w.sched.queue :: Fetched(w, g))
    && (forall g | AbortTask(g) in w.sched.queue :: FetchFailed(w, g))
    && (w.main.Syncing? ==> Fetched(w, w.main.g) && MergeOk(w, w.requests[w.main.g], w.main.progress, w.main.backup))
    && (w.main.Aborting? ==> FetchFailed(w, w.main.g))
    && LoopOk(w)
  }

  predicate FetchSide(a: Action) {
    a.Exchanged? || a.Change? || a.Receive? || a.Refuse? || a.Reply? || a.Stop? || a.Exit?
  }

  /** After a step that leaves queue, local configuration and reported requests alone. */
  lemma ReportsStay(w: World, w': World)
    requires MainInv(w) && w'.sched == w.sched && w'.local == w.local && LoopOk(w')
    requires w'.main == w.main || !(w'.main.Syncing? || w'.main.Aborting?)
    requires forall g: nat | Reported(w, g) :: g < |w'.requests| && w'.requests[g] == w.requests[g]
    ensures MainInv(w')
  {
    forall g | SyncTask(g) in w'.sched.queue ensures Fetched(w', g) { assert Fetched(w, g); }
    forall g | AbortTask(g) in w'.sched.queue ensures FetchFailed(w', g) { assert FetchFailed(w, g); }
  }

  lemma FetchStepsKeepMain(w: World, a: Action)
    requires MainInv(w) && Do(w, a).Some? && FetchSide(a)
    ensures MainInv(Do(w, a).value)
  {
    var w' := Do(w, a).value;
    forall g: nat | Reported(w, g) ensures g < |w'.requests| && w'.requests[g] == w.requests[g] {}
    ReportsStay(w, w');
  }

  lemma PoolKeepsMain(w: World, g: nat, a: Tasks.Action)
    requires MainInv(w) && DoPool(w, g, a).Some?
    ensures MainInv(DoPool(w, g, a).value)
  {
    var w' := DoPool(w, g, a).value;
    var queued := if w.requests[g].task.success then SyncTask(g) else AbortTask(g);
    if a.FireStatus? { Scheduling.StepKeepsInv(w.sched, Scheduling.Enqueue(queued)); }
    forall k: nat | Reported(w, k)
      ensures Reported(w', k) && w'.requests[k] == w.requests[k].(task := w'.requests[k].task)
      ensures w'.requests[k].task.success == w.requests[k].task.success
    {}
    forall k | SyncTask(k) in w'.sched.queue ensures Fetched(w', k) {
      if SyncTask(k) in w.sched.queue { assert Fetched(w, k); }
    }
    forall k | AbortTask(k) in w'.sched.queue ensures FetchFailed(w', k) {
      if AbortTask(k) in w.sched.queue { assert FetchFailed(w, k); }
    }
  }

  lemma SchedKeepsMain(w: World, a: Action)
    requires MainInv(w) && Do(w, a).Some? && (a.BeginUpdate? || a.TakeTask? || a.FinishUpdate?)
    ensures MainInv(Do(w, a).value)
  {
    var w' := Do(w, a).value;
    var step := if a.BeginUpdate? then Scheduling.Begin else if a.TakeTask? then Scheduling.Take else Scheduling.Finish;
    Scheduling.StepKeepsInv(w.sched, step);
    assert forall t | t in w'.sched.queue :: t in w.sched.queue;
    forall g: nat | Fetched(w, g) ensures Fetched(w', g) {}
    if a.TakeTask? { assert w.sched.queue[0] in w.sched.queue; }
    forall g | SyncTask(g) in w'.sched.queue ensures Fetched(w', g) { assert SyncTask(g) in w.sched.queue; }
    forall g | AbortTask(g) in w'.sched.queue ensures FetchFailed(w', g) { assert AbortTask(g) in w.sched.queue; }
  }

  lemma SyncKeepsMerge(w: World, r: Request, threw: bool)
    requires w.main.Syncing? && r.task.success && MergeOk(w, r, w.main.progress, w.main.backup)
    ensures var w' := DoSync(w, r, w.main, threw);
            w'.main.Syncing? ==> w'.main.g == w.main.g && MergeOk(w', r, w'.main.progress, w'.main.backup)
    ensures !DoSync(w, r, w.main, threw).main.Aborting?
  {
    var list := r.collector.list;
    match w.main.progress {
      case Start => assert list[..0] == [];
      case Storing(i) =>
        if i < |list| { assert list[..i + 1][..i] == list[..i]; } else { assert list[..i] == list; }
      case _ =>
    }
  }

  lemma WorkKeepsMain(w: World, threw: bool)
    requires MainInv(w) && DoWork(w, threw).Some?
    ensures MainInv(DoWork(w, threw).value)
  {
    var w' := DoWork(w, threw).value;
    assert w'.requests == w.requests && w'.sched == w.sched;
    forall g: nat ensures Reported(w', g) == Reported(w, g) {}
    if w.main.Syncing? { SyncKeepsMerge(w, w.requests[w.main.g], threw); }
  }

  lemma StepKeepsMain(w: World, a: Action)
    requires MainInv(w) && Do(w, a).Some?
    ensures MainInv(Do(w, a).value)
  {
    match a {
      case Pool(g, step) => PoolKeepsMain(w, g, step);
      case Work(threw) => WorkKeepsMain(w, threw);
      case BeginUpdate => SchedKeepsMain(w, a);
      case TakeTask => SchedKeepsMain(w, a);
      case FinishUpdate => SchedKeepsMain(w, a);
      case _ => FetchStepsKeepMain(w, a);
    }
  }

  lemma {:induction false} AlwaysSafe(w0: World, acts: seq<Action>)
    requires Init(w0) && Run(w0, acts).Some?
    ensures FetchInv(Run(w0, acts).value) && MainInv(Run(w0, acts).value)
  {
    if acts != [] {
      var w := Run(w0, acts[..|acts| - 1]).value;
      AlwaysSafe(w0, acts[..|acts| - 1]);
      StepKeepsFetch(w, acts[|acts| - 1]);
      StepKeepsMain(w, acts[|acts| - 1]);
    }
  }

  // ---- end to end ----

  /** What `local` must be after taking over the remote state `s` on top of `backup`: the remote
      version; the remote configuration of every imported module of the remote list, and of no
      other module; the kernel tree that taking over the remote export gives, if it was asked
      for, or else the old one; and the same name. Every module that was to be loaded names its
      library. */
  ghost predicate TakenOver(local: Config, backup: Config, s: RemoteState, general: bool) {
    && local.version == s.version
    && local.instanceName == backup.instanceName
    && (!general ==> local.kernel == backup.kernel)
    && (general ==> s.general.Ok? && Ok(local.kernel) == SetKernel(backup.kernel, backup.instanceName, s.general.value))
    && Get(local.kernel, "no_import") == Get(backup.kernel, "no_import")
    && NamesLibraries(ModuleNames(s.modules), local.modules)
    && forall n :: Lookup(local.modules, n) ==
         (var m := FindModule(s.modules, n);
          if m.Some? && Imports(backup.kernel, n) then Some(m.value.config) else Lookup(backup.modules, n))
  }

  lemma {:induction false} ConfigsLookup(ms: seq<RemoteModule>, n: string)
    requires forall i, j | 0 <= i < j < |ms| :: ms[i].name != ms[j].name
    ensures var m := FindModule(ms, n);
            && Lookup(ConfigsOf(ms), n) == (if m.Some? then Some(m.value.config) else None)
            && (n in ModuleNames(ms) <==> m.Some?)
  {
    CollectedKeys(ms);
    if i :| 0 <= i < |ms| && ms[i].name == n {
      FindDistinctModule(ms, i);
      CollectedAt(ms, i);
      assert ModuleNames(ms)[i] == n;
    } else {
      NotFound(ms, n);
    }
  }

  lemma {:induction false} NotFound(ms: seq<RemoteModule>, n: string)
    requires forall i | 0 <= i < |ms| :: ms[i].name != n
    ensures FindModule(ms, n).None?
  {
    if ms != [] { NotFound(ms[1..], n); }
  }

  /** In every interleaving of remote changes, pool threads and the main loop: whenever the main
      thread is about to answer "Success", the fetch has reported success, its collector is
      final, and the local configuration is what taking over one single state that the remote
      unit was in makes of the backup. */
  lemma SuccessIsOneRemoteState(w0: World, acts: seq<Action>)
    requires Init(w0) && Run(w0, acts).Some?
    requires Run(w0, acts).value.main.Syncing? && Run(w0, acts).value.main.progress == Ending(true)
    ensures var w := Run(w0, acts).value;
            Fetched(w, w.main.g) &&
            var r := w.requests[w.main.g];
            && r.collector.stage == Done(true)
            && r.endpoint in w.remotes && r.first < |w.remotes[r.endpoint]|
            && TakenOver(w.local, w.main.backup, w.remotes[r.endpoint][r.first], r.general)
            && Do(w, Work(false)) == Some(w.(sent := w.sent + [Answer(r.client, Success, w.main.g)], main := Polling))
  {
    AlwaysSafe(w0, acts);
    EndingIsTakenOver(Run(w0, acts).value);
    EndingAnswers(Run(w0, acts).value);
  }

  lemma EndingIsTakenOver(w: World)
    requires FetchInv(w) && MainInv(w) && w.main.Syncing? && w.main.progress == Ending(true)
    ensures Fetched(w, w.main.g) &&
            var r := w.requests[w.main.g];
            && r.collector.stage == Done(true)
            && r.endpoint in w.remotes && r.first < |w.remotes[r.endpoint]|
            && TakenOver(w.local, w.main.backup, w.remotes[r.endpoint][r.first], r.general)
  {
    var r := w.requests[w.main.g];
    FetchedIsSnapshot(w, w.main.g);
    assert History(w.remotes[r.endpoint]);
    GenuineIsDistinct(w.remotes[r.endpoint][r.first]);
    MergedIsTakenOver(w.main.backup, r, w.remotes[r.endpoint][r.first]);
  }

  lemma EndingAnswers(w: World)
    requires w.main.Syncing? && w.main.progress == Ending(true) && w.main.g < |w.requests|
    ensures Do(w, Work(false)) ==
            Some(w.(sent := w.sent + [Answer(w.requests[w.main.g].client, Success, w.main.g)], main := Polling))
  {
  }

  lemma MergedIsTakenOver(backup: Config, r: Request, s: RemoteState)
    requires WithKernel(backup, r.collector, r.general).Ok?
    requires DistinctModules(s) && Snapshot(r.collector, s) && Public(r.collector.general)
    requires forall n | n in r.collector.list :: n in r.collector.configs
    requires var merged := Merged(WithKernel(backup, r.collector, r.general).value, backup, r.collector);
             NamesLibraries(r.collector.list, merged.modules)
    ensures var merged := Merged(WithKernel(backup, r.collector, r.general).value, backup, r.collector);
            TakenOver(merged.(version := r.collector.version), backup, s, r.general)
  {
    var c := r.collector;
    var start := WithKernel(backup, c, r.general).value;
    var local := Merged(start, backup, c).(version := c.version);
    MergeIsIntended(start, backup, c, r.general);
    forall n ensures Lookup(local.modules, n) ==
        (var m := FindModule(s.modules, n);
         if m.Some? && Imports(backup.kernel, n) then Some(m.value.config) else Lookup(backup.modules, n)) {
      ConfigsLookup(s.modules, n);
      assert Lookup(local.modules, n) == Intended(backup, c, n);
    }
  }

  /** In every run, a synchronisation that is about to be answered "Failed" leaves the configuration
      that `Sync` leaves: nothing of a failed one is rolled back. */
  lemma FailureLeaves(w0: World, acts: seq<Action>)
    requires Init(w0) && Run(w0, acts).Some?
    requires Run(w0, acts).value.main.Syncing? && Run(w0, acts).value.main.progress == Ending(false)
    ensures var w := Run(w0, acts).value;
            Fetched(w, w.main.g) &&
            var r := w.requests[w.main.g];
            LeftByFailure(w.local, WithKernel(w.main.backup, r.collector, r.general), w.main.backup, r.collector)
  {
    AlwaysSafe(w0, acts);
    FetchedIsSnapshot(Run(w0, acts).value, Run(w0, acts).value.main.g);
  }

  /** The synchronisation only ever reads a collector that is final: whenever the main thread
      is inside one, the fetch has reported success and the collection is done. */
  lemma SyncReadsFinalCollector(w0: World, acts: seq<Action>)
    requires Init(w0) && Run(w0, acts).Some? && Run(w0, acts).value.main.Syncing?
    ensures var w := Run(w0, acts).value;
            Fetched(w, w.main.g) && w.requests[w.main.g].collector.stage == Done(true)
  {
    AlwaysSafe(w0, acts);
    FetchedIsSnapshot(Run(w0, acts).value, Run(w0, acts).value.main.g);
  }

  /** While a synchronisation runs, whatever else happens, its backup is the configuration that
      was in force when the main thread took it up. */
  lemma {:induction false} BackupIsWhatWasThere(w: World, acts: seq<Action>)
    requires w.main.Syncing? && w.main.progress == Start && w.main.backup == w.local
    requires TakeTask !in acts && Run(w, acts).Some?
    ensures var w' := Run(w, acts).value;
            w'.main.Syncing? ==> w'.main.g == w.main.g && w'.main.backup == w.local
    ensures var w' := Run(w, acts).value; w'.main.Syncing? && w'.main.progress == Start ==> w'.local == w.local
  {
    if acts != [] {
      var front, a := acts[..|acts| - 1], acts[|acts| - 1];
      assert a in acts;
      BackupIsWhatWasThere(w, front);
      StepKeepsBackup(Run(w, front).value, a);
    }
  }

  lemma StepKeepsBackup(w: World, a: Action)
    requires Do(w, a).Some? && !a.TakeTask?
    ensures var w' := Do(w, a).value;
            w'.main.Syncing? ==>
              && w.main.Syncing? && w'.main.g == w.main.g
              && (w.main.progress == Start ==> w'.main.backup in {w.local, w.main.backup})
              && (w.main.progress != Start ==> w'.main.backup == w.main.backup && w'.main.progress != Start)
              && (w'.main.progress == Start ==> w'.local == w.local)
  {
  }

  // ---- the unit's own tags ----

  lemma StepKeepsIdentity(w: World, a: Action)
    requires FetchInv(w) && MainInv(w) && WellNamed(w.local.kernel, w.local.instanceName) && Do(w, a).Some?
    ensures var w' := Do(w, a).value;
            && w'.local.instanceName == w.local.instanceName
            && SameIdentity(w.local.kernel, w'.local.kernel)
            && WellNamed(w'.local.kernel, w'.local.instanceName)
  {
    if a.Work? && w.main.Syncing? {
      SyncKeepsIdentity(w, a.threw);
    } else {
      OtherStepsKeepLocal(w, a);
    }
  }

  lemma OtherStepsKeepLocal(w: World, a: Action)
    requires Do(w, a).Some? && !(a.Work? && w.main.Syncing?)
    ensures Do(w, a).value.local == w.local
  {
  }

  lemma KernelKeepsIdentity(local: Config, c: Collector, general: bool)
    requires WithKernel(local, c, general).Ok? && Public(c.general) && WellNamed(local.kernel, local.instanceName)
    ensures var k := WithKernel(local, c, general).value;
            && k.instanceName == local.instanceName
            && SameIdentity(local.kernel, k.kernel) && WellNamed(k.kernel, k.instanceName)
  {
    IdentityKept(local.kernel, local.instanceName, c.general);
  }

  lemma SyncKeepsIdentity(w: World, threw: bool)
    requires FetchInv(w) && MainInv(w) && w.main.Syncing? && WellNamed(w.local.kernel, w.local.instanceName)
    ensures var w' := DoSync(w, w.requests[w.main.g], w.main, threw);
            && w'.local.instanceName == w.local.instanceName
            && SameIdentity(w.local.kernel, w'.local.kernel)
            && WellNamed(w'.local.kernel, w'.local.instanceName)
  {
    var r := w.requests[w.main.g];
    FetchedIsSnapshot(w, w.main.g);
    SyncKernel(w, threw);
    if WithKernel(w.local, r.collector, r.general).Ok? {
      KernelKeepsIdentity(w.local, r.collector, r.general);
    }
  }

  /** A synchronisation touches the kernel tree only in its first step. */
  lemma SyncKernel(w: World, threw: bool)
    requires w.main.Syncing? && w.main.g < |w.requests|
    ensures var r := w.requests[w.main.g];
            var local, start := DoSync(w, r, w.main, threw).local, WithKernel(w.local, r.collector, r.general);
            || (local.kernel == w.local.kernel && local.instanceName == w.local.instanceName)
            || (start.Ok? && local == start.value)
  {
    if w.main.progress.Restoring? {
      RestorePointwise(w.local, w.main.backup, NonImportable(w.main.backup));
    }
  }

  /** Through any number of synchronisations from any remote units, the local instance name,
      the list of modules that are not imported and the configuration file name never change,
      and the file name stays listed exactly once. */
  lemma {:induction false} IdentityNeverChanges(w0: World, acts: seq<Action>)
    requires Init(w0) && WellNamed(w0.local.kernel, w0.local.instanceName) && Run(w0, acts).Some?
    ensures var w := Run(w0, acts).value;
            && w.local.instanceName == w0.local.instanceName
            && SameIdentity(w0.local.kernel, w.local.kernel)
            && WellNamed(w.local.kernel, w.local.instanceName)
  {
    if acts != [] {
      var front := acts[..|acts| - 1];
      IdentityNeverChanges(w0, front);
      AlwaysSafe(w0, front);
      StepKeepsIdentity(Run(w0, front).value, acts[|acts| - 1]);
    }
  }
}
