/** Collecting the configuration of a remote unit, one request at a time.

There is no remote lock: the remote unit may change between any two requests. The collector
reads the version first, then the general configuration, the list of modules and each module,
then the version again. */
module RemoteCollector {
  import opened PropertyTree
  import opened Configuration
  import Modules

  datatype RemoteModule = RemoteModule(name: string, config: Tree, files: seq<(string, string)>)

  /** Everything a remote unit can be asked for: its version, the general configuration it
      exports (none if its own flags are unreadable) and its loaded modules. */
  datatype RemoteState = RemoteState(version: uint64, general: Result<Tree>, modules: seq<RemoteModule>)

  /** What a unit with configuration `c` answers: its own version and export, and the modules of a
      set in the order of the levels that `c` gives. */
  predicate AnsweredBy(s: RemoteState, c: Config) {
    && s.version == c.version && s.general == Export(c)
    && forall i, j | 0 <= i < j < |s.modules| ::
         Modules.Level(c.modules, s.modules[i].name) < Modules.Level(c.modules, s.modules[j].name)
  }

  /** The state of some unit. */
  ghost predicate Genuine(s: RemoteState) {
    exists c: Config :: AnsweredBy(s, c)
  }

  lemma GenuineIsPublic(s: RemoteState)
    requires Genuine(s) && s.general.Ok?
    ensures Public(s.general.value)
  {
    var c: Config :| AnsweredBy(s, c);
    ExportIsPublic(c);
  }

  datatype Stage = AskVersion | AskGeneral | AskList | AskModule(i: nat) | AskAgain | Done(ok: bool)

  datatype Collector = Collector(
    stage: Stage, version: uint64, general: Tree, list: seq<string>,
    configs: map<string, Tree>, files: map<string, seq<(string, string)>>)

  const START: Collector := Collector(AskVersion, 0, EMPTY, [], map[], map[])

  function ModuleNames(ms: seq<RemoteModule>): seq<string> {
    seq(|ms|, i requires 0 <= i < |ms| => ms[i].name)
  }

  function FindModule(ms: seq<RemoteModule>, name: string): Option<RemoteModule> {
    if ms == [] then None else if ms[0].name == name then Some(ms[0]) else FindModule(ms[1..], name)
  }

  function NextModule(list: seq<string>, i: nat): Stage {
    if i < |list| then AskModule(i) else AskAgain
  }

  function Gathered(files: map<string, seq<(string, string)>>, name: string): seq<(string, string)> {
    if name in files then files[name] else []
  }

  /** One request and its answer. No answer in time, or one that cannot be used, ends the
      collection. */
  function Exchange(c: Collector, reply: Option<RemoteState>): Collector {
    if c.stage.Done? then c
    else if reply.None? then c.(stage := Done(false))
    else
      var s := reply.value;
      match c.stage
      case AskVersion => c.(version := s.version, stage := AskGeneral)
      case AskGeneral =>
        if s.general.Ok? then c.(general := s.general.value, stage := AskList) else c.(stage := Done(false))
      case AskList =>
        var list := c.list + ModuleNames(s.modules);
        c.(list := list, stage := NextModule(list, 0))
      case AskModule(i) =>
        if i >= |c.list| then c.(stage := Done(false)) else
        var name := c.list[i];
        var m := FindModule(s.modules, name);
        if m.None? then c.(stage := Done(false))
        else c.(configs := c.configs[name := m.value.config],
                files := c.files[name := Gathered(c.files, name) + m.value.files],
                stage := NextModule(c.list, i + 1))
      case AskAgain => c.(stage := Done(s.version == c.version))
  }

  // ---- agreement with one remote state ----

  predicate DistinctModules(s: RemoteState) {
    forall i, j | 0 <= i < j < |s.modules| :: s.modules[i].name != s.modules[j].name
  }

  /** A unit never lists a module twice. */
  lemma GenuineIsDistinct(s: RemoteState)
    requires Genuine(s)
    ensures DistinctModules(s)
  {
    var c: Config :| AnsweredBy(s, c);
  }

  function ConfigsOf(ms: seq<RemoteModule>): map<string, Tree> {
    if ms == [] then map[] else ConfigsOf(ms[..|ms| - 1])[ms[|ms| - 1].name := ms[|ms| - 1].config]
  }

  function FilesOf(ms: seq<RemoteModule>): map<string, seq<(string, string)>> {
    if ms == [] then map[] else FilesOf(ms[..|ms| - 1])[ms[|ms| - 1].name := ms[|ms| - 1].files]
  }

  /** All that was collected is what `s` would answer. */
  predicate Snapshot(c: Collector, s: RemoteState) {
    && c.version == s.version
    && s.general == Ok(c.general)
    && c.list == ModuleNames(s.modules)
    && c.configs == ConfigsOf(s.modules)
    && c.files == FilesOf(s.modules)
  }

  /** What was collected so far is what `s` would have answered. */
  predicate Partial(c: Collector, s: RemoteState) {
    match c.stage
    case AskVersion => c == START
    case AskGeneral => c.version == s.version && c.list == [] && c.configs == map[] && c.files == map[]
    case AskList =>
      && c.version == s.version && s.general == Ok(c.general)
      && c.list == [] && c.configs == map[] && c.files == map[]
    case AskModule(i) =>
      && i < |s.modules|
      && c.version == s.version && s.general == Ok(c.general) && c.list == ModuleNames(s.modules)
      && c.configs == ConfigsOf(s.modules[..i]) && c.files == FilesOf(s.modules[..i])
    case AskAgain => Snapshot(c, s)
    case Done(ok) => ok ==> Snapshot(c, s)
  }

  lemma {:induction false} FindDistinctModule(ms: seq<RemoteModule>, i: nat)
    requires forall i, j | 0 <= i < j < |ms| :: ms[i].name != ms[j].name
    requires i < |ms|
    ensures FindModule(ms, ms[i].name) == Some(ms[i])
  {
    if i > 0 {
      assert ms[1..][i - 1] == ms[i];
      FindDistinctModule(ms[1..], i - 1);
    }
  }

  lemma {:induction false} CollectedKeys(ms: seq<RemoteModule>)
    ensures ConfigsOf(ms).Keys == FilesOf(ms).Keys == set i | 0 <= i < |ms| :: ms[i].name
  {
    if ms != [] {
      var front := ms[..|ms| - 1];
      CollectedKeys(front);
      assert (set i | 0 <= i < |ms| :: ms[i].name)
          == (set i | 0 <= i < |front| :: front[i].name) + {ms[|ms| - 1].name};
    }
  }

  lemma CollectOne(ms: seq<RemoteModule>, i: nat)
    requires forall i, j | 0 <= i < j < |ms| :: ms[i].name != ms[j].name
    requires i < |ms|
    ensures ConfigsOf(ms[..i + 1]) == ConfigsOf(ms[..i])[ms[i].name := ms[i].config]
    ensures var fs := FilesOf(ms[..i]);
            FilesOf(ms[..i + 1]) == fs[ms[i].name := Gathered(fs, ms[i].name) + ms[i].files]
  {
    CollectedKeys(ms[..i]);
    assert ms[..i + 1][..i] == ms[..i];
    assert [] + ms[i].files == ms[i].files;
  }

  lemma {:induction false} CollectedAt(ms: seq<RemoteModule>, i: nat)
    requires forall i, j | 0 <= i < j < |ms| :: ms[i].name != ms[j].name
    requires i < |ms|
    ensures ms[i].name in ConfigsOf(ms) && ConfigsOf(ms)[ms[i].name] == ms[i].config
    ensures ms[i].name in FilesOf(ms) && FilesOf(ms)[ms[i].name] == ms[i].files
  {
    if i < |ms| - 1 {
      CollectedAt(ms[..|ms| - 1], i);
    }
  }

  /** What a snapshot means, part by part: version, general configuration, and for each module in
      order its name, configuration and additional files, and nothing else. */
  lemma SnapshotMeaning(c: Collector, s: RemoteState)
    requires Snapshot(c, s) && DistinctModules(s)
    ensures c.version == s.version && s.general == Ok(c.general) && |c.list| == |s.modules|
    ensures forall i | 0 <= i < |s.modules| ::
              var m := s.modules[i];
              && c.list[i] == m.name && m.name in c.configs && c.configs[m.name] == m.config
              && m.name in c.files && c.files[m.name] == m.files
    ensures forall n | n in c.configs || n in c.files :: n in c.list
  {
    forall i | 0 <= i < |s.modules| ensures var n := s.modules[i].name;
        n in c.configs && c.configs[n] == s.modules[i].config && n in c.files && c.files[n] == s.modules[i].files
    {
      CollectedAt(s.modules, i);
    }
    CollectedKeys(s.modules);
    forall n | n in c.configs || n in c.files ensures n in c.list {
      assert n in ConfigsOf(s.modules).Keys;
      var i :| 0 <= i < |s.modules| && s.modules[i].name == n;
      assert c.list[i] == n;
    }
  }

  /** An answer from the same state keeps the agreement. */
  lemma ExchangeAgrees(c: Collector, s: RemoteState)
    requires Partial(c, s) && DistinctModules(s)
    ensures Partial(Exchange(c, Some(s)), s)
  {
    match c.stage {
      case AskList => ListAgrees(c, s);
      case AskModule(i) => ModuleAgrees(c, s);
      case _ =>
    }
  }

  lemma ListAgrees(c: Collector, s: RemoteState)
    requires c.stage.AskList? && Partial(c, s)
    ensures Partial(Exchange(c, Some(s)), s)
  {
    var ms := s.modules;
    assert c.list + ModuleNames(ms) == ModuleNames(ms);
    assert ms[..0] == [];
  }

  lemma ModuleAgrees(c: Collector, s: RemoteState)
    requires c.stage.AskModule? && Partial(c, s) && DistinctModules(s)
    ensures Partial(Exchange(c, Some(s)), s)
  {
    var ms, i := s.modules, c.stage.i;
    FindDistinctModule(ms, i);
    CollectOne(ms, i);
    assert ms[..|ms|] == ms;
  }

  /** How a collection stands whose general configuration came from `first`, while the remote unit
      is in state `now`: either the version has moved on, and the collection can only fail, or all
      that was collected so far is what `first` would have answered. */
  predicate Tracks(c: Collector, first: RemoteState, now: RemoteState) {
    match c.stage
    case AskVersion => false
    case AskGeneral => c == START.(stage := AskGeneral, version := c.version) && c.version <= now.version
    case Done(ok) => ok ==> Snapshot(c, first)
    case _ =>
      || c.version < now.version
      || (c.version == now.version && now.modules == first.modules && Partial(c, first))
  }

  /** The remote unit has a higher version, or at least the same modules as before. */
  predicate Later(first: RemoteState, now: RemoteState) {
    first.version < now.version || (first.version == now.version && now.modules == first.modules)
  }

  lemma TracksLater(c: Collector, first: RemoteState, now: RemoteState, next: RemoteState)
    requires Tracks(c, first, now) && Later(now, next)
    ensures Tracks(c, first, next)
  {
  }

  /** Only the general request looks at the general configuration. */
  lemma SameAnswer(c: Collector, s: RemoteState, s': RemoteState)
    requires s.version == s'.version && s.modules == s'.modules && !c.stage.AskGeneral?
    ensures Exchange(c, Some(s)) == Exchange(c, Some(s'))
  {
  }

  /** Any answer keeps `Tracks`: one from a unit whose version has moved on can only lead to a
      failure. */
  lemma TracksExchange(c: Collector, first: RemoteState, now: RemoteState, reply: Option<RemoteState>)
    requires Tracks(c, first, now) && DistinctModules(first)
    requires reply.Some? ==> reply.value == now
    ensures Tracks(Exchange(c, reply), if c.stage.AskGeneral? then now else first, now)
  {
    if !c.stage.AskGeneral? && !c.stage.Done? && c.version == now.version {
      SameAnswer(c, first, now);
      ExchangeAgrees(c, first);
    }
  }

  // ---- a whole collection against a remote unit that keeps changing ----

  function Rank(s: Stage): nat {
    match s
    case AskVersion => 4
    case AskGeneral => 3
    case AskList => 2
    case AskModule(_) => 1
    case AskAgain => 0
    case Done(_) => 0
  }

  /** Request number `k` is answered by `env(k)`. */
  function Collect(c: Collector, env: nat -> Option<RemoteState>, k: nat): Collector
    decreases Rank(c.stage), if c.stage.AskModule? then |c.list| - c.stage.i else 0, if c.stage.Done? then 0 else 1
  {
    if c.stage.Done? then c else Collect(Exchange(c, env(k)), env, k + 1)
  }

  /** The version never falls, and a change of the modules raises it. */
  ghost predicate Evolves(env: nat -> Option<RemoteState>) {
    forall i: nat, j: nat :: i <= j && env(i).Some? && env(j).Some? ==> Later(env(i).value, env(j).value)
  }

  lemma {:induction false} CollectTracks(c: Collector, env: nat -> Option<RemoteState>, k: nat,
                                         first: RemoteState, now: RemoteState)
    requires Tracks(c, first, now) && DistinctModules(first) && !c.stage.AskGeneral?
    requires forall i: nat | i >= k && env(i).Some? :: Later(now, env(i).value)
    requires Evolves(env)
    ensures var r := Collect(c, env, k); r.stage == Done(true) ==> Snapshot(r, first)
    decreases Rank(c.stage), if c.stage.AskModule? then |c.list| - c.stage.i else 0, if c.stage.Done? then 0 else 1
  {
    if !c.stage.Done? {
      if env(k).Some? {
        var next := env(k).value;
        TracksLater(c, first, now, next);
        TracksExchange(c, first, next, env(k));
        CollectTracks(Exchange(c, env(k)), env, k + 1, first, next);
      }
    }
  }

  /** Optimistic snapshot: however many changes fall between the requests, even changes of the
      general configuration that keep the version, a collection that succeeds holds, in every
      part, what one single remote state would have answered, the one that answered the general
      request. Module names that differ are what every unit answers, see `GenuineIsDistinct`. */
  lemma SuccessIsSnapshot(env: nat -> Option<RemoteState>)
    requires Evolves(env)
    requires env(1).Some? ==> DistinctModules(env(1).value)
    ensures var r := Collect(START, env, 0);
            r.stage == Done(true) ==> env(0).Some? && env(1).Some? && Snapshot(r, env(1).value)
  {
    var c := Exchange(START, env(0));
    assert Collect(START, env, 0) == Collect(c, env, 1);
    if env(0).Some? {
      assert Collect(c, env, 1) == Collect(Exchange(c, env(1)), env, 2);
      if env(1).Some? {
        var s := env(1).value;
        assert Later(env(0).value, s);
        TracksExchange(c, s, s, env(1));
        forall i: nat | i >= 2 && env(i).Some? ensures Later(s, env(i).value) {}
        CollectTracks(Exchange(c, env(1)), env, 2, s, s);
      }
    }
  }

  /** Every listed module was collected, as far as the collection went. */
  predicate Listed(c: Collector) {
    match c.stage
    case AskModule(i) => i < |c.list| && forall j | 0 <= j < i :: c.list[j] in c.configs
    case AskAgain => forall n | n in c.list :: n in c.configs
    case Done(ok) => ok ==> forall n | n in c.list :: n in c.configs
    case _ => c.list == []
  }

  /** A successful collection holds every module it lists, whatever the remote unit did. */
  lemma {:induction false} SuccessIsListed(c: Collector, env: nat -> Option<RemoteState>, k: nat)
    requires Listed(c)
    ensures Listed(Collect(c, env, k)) && Collect(c, env, k).stage.Done?
    decreases Rank(c.stage), if c.stage.AskModule? then |c.list| - c.stage.i else 0, if c.stage.Done? then 0 else 1
  {
    if !c.stage.Done? {
      SuccessIsListed(Exchange(c, env(k)), env, k + 1);
    }
  }

  // ---- exactly when a collection succeeds ----

  /** The request for module number `i` gets an answer that can be used. */
  ghost predicate Gives(env: nat -> Option<RemoteState>, i: nat, name: string) {
    env(3 + i).Some? && FindModule(env(3 + i).value.modules, name).Some?
  }

  ghost function Given(env: nat -> Option<RemoteState>, i: nat, name: string): RemoteModule
    requires Gives(env, i, name)
  {
    FindModule(env(3 + i).value.modules, name).value
  }

  /** The last request is answered with the version of the first. */
  ghost predicate Confirms(env: nat -> Option<RemoteState>, n: nat, version: uint64) {
    env(3 + n).Some? && env(3 + n).value.version == version
  }

  /** The collection of the modules from number `i` on. */
  lemma {:induction false} ModulesIff(c: Collector, env: nat -> Option<RemoteState>, i: nat)
    requires i <= |c.list| && c.stage == NextModule(c.list, i)
    ensures var r := Collect(c, env, 3 + i);
            && r == c.(stage := r.stage, configs := r.configs, files := r.files)
            && (r.stage == Done(true) <==>
                  (forall j | i <= j < |c.list| :: Gives(env, j, c.list[j])) && Confirms(env, |c.list|, c.version))
    decreases |c.list| - i
  {
    if i < |c.list| && Gives(env, i, c.list[i]) { ModulesIff(Exchange(c, env(3 + i)), env, i + 1); }
  }

  /** What they leave under one name: what its own answer said, and nothing under other names. */
  lemma {:induction false} ModulesHold(c: Collector, env: nat -> Option<RemoteState>, i: nat, k: nat)
    requires i <= |c.list| && c.stage == NextModule(c.list, i) && i <= k < |c.list|
    requires forall j | i <= j < |c.list| && j != k :: c.list[j] != c.list[k]
    requires Collect(c, env, 3 + i).stage == Done(true)
    ensures var r, n := Collect(c, env, 3 + i), c.list[k];
            && Gives(env, k, n) && n in r.configs && r.configs[n] == Given(env, k, n).config
            && n in r.files && r.files[n] == Gathered(c.files, n) + Given(env, k, n).files
    decreases |c.list| - i
  {
    ModulesIff(c, env, i);
    var c' := Exchange(c, env(3 + i));
    assert Gives(env, i, c.list[i]);
    if i < k {
      ModulesHold(c', env, i + 1, k);
    } else {
      OthersStay(c', env, i + 1, c.list[k]);
    }
  }

  lemma {:induction false} OthersStay(c: Collector, env: nat -> Option<RemoteState>, i: nat, n: string)
    requires i <= |c.list| && c.stage == NextModule(c.list, i) && n in c.configs && n in c.files
    requires forall j | i <= j < |c.list| :: c.list[j] != n
    ensures var r := Collect(c, env, 3 + i);
            n in r.configs && r.configs[n] == c.configs[n] && n in r.files && r.files[n] == c.files[n]
    decreases |c.list| - i
  {
    if i < |c.list| && Gives(env, i, c.list[i]) { OthersStay(Exchange(c, env(3 + i)), env, i + 1, n); }
  }

  /** The first three requests can be used. */
  ghost predicate Opens(env: nat -> Option<RemoteState>) {
    env(0).Some? && env(1).Some? && env(1).value.general.Ok? && env(2).Some?
  }

  /** What is collected by them. */
  function Opened(version: uint64, general: Tree, list: seq<string>): Collector {
    Collector(NextModule(list, 0), version, general, list, map[], map[])
  }

  lemma OpeningIff(env: nat -> Option<RemoteState>)
    ensures !Opens(env) ==> Collect(START, env, 0).stage == Done(false)
    ensures Opens(env) ==>
              Collect(START, env, 0) == Collect(Opened(env(0).value.version, env(1).value.general.value,
                                                       ModuleNames(env(2).value.modules)), env, 3)
  {
    var c1 := Exchange(START, env(0));
    assert Collect(START, env, 0) == Collect(c1, env, 1);
    if env(0).Some? {
      var c2 := Exchange(c1, env(1));
      assert Collect(c1, env, 1) == Collect(c2, env, 2);
      if env(1).Some? && env(1).value.general.Ok? {
        assert Collect(c2, env, 2) == Collect(Exchange(c2, env(2)), env, 3);
        assert env(2).Some? ==> [] + ModuleNames(env(2).value.modules) == ModuleNames(env(2).value.modules);
      }
    }
  }

  /** For every behaviour of the remote unit: a collection succeeds exactly if every request gets an
      answer that can be used and the version is in the end what it was at first, and then it
      holds what the answers said. */
  lemma SuccessIff(env: nat -> Option<RemoteState>)
    ensures var r := Collect(START, env, 0);
            r.stage == Done(true) <==>
            && env(0).Some? && env(1).Some? && env(1).value.general.Ok? && env(2).Some?
            && var ms := ModuleNames(env(2).value.modules);
               (forall i | 0 <= i < |ms| :: Gives(env, i, ms[i])) && Confirms(env, |ms|, env(0).value.version)
    ensures var r := Collect(START, env, 0);
            r.stage == Done(true) ==>
              && r.version == env(0).value.version && Ok(r.general) == env(1).value.general
              && r.list == ModuleNames(env(2).value.modules)
  {
    OpeningIff(env);
    if Opens(env) {
      var list := ModuleNames(env(2).value.modules);
      ModulesIff(Opened(env(0).value.version, env(1).value.general.value, list), env, 0);
    }
  }

  /** And if the list names no module twice, each module's configuration and files are those of the
      answer to its own request. */
  lemma SuccessHolds(env: nat -> Option<RemoteState>, i: nat)
    requires Collect(START, env, 0).stage == Done(true) && i < |Collect(START, env, 0).list|
    requires env(2).Some? ==> DistinctModules(env(2).value)
    ensures var r := Collect(START, env, 0);
            var n := r.list[i];
            && Gives(env, i, n) && n in r.configs && r.configs[n] == Given(env, i, n).config
            && n in r.files && r.files[n] == Given(env, i, n).files
  {
    OpeningIff(env);
    SuccessIff(env);
    var list := ModuleNames(env(2).value.modules);
    var c := Opened(env(0).value.version, env(1).value.general.value, list);
    ModulesHold(c, env, 0, i);
    assert [] + Given(env, i, list[i]).files == Given(env, i, list[i]).files;
  }

  /** A remote unit that answers and does not change is always collected. */
  lemma {:induction false} QuietRemoteCollected(c: Collector, env: nat -> Option<RemoteState>, k: nat, s: RemoteState)
    requires forall i: nat :: env(i) == Some(s)
    requires DistinctModules(s) && s.general.Ok?
    requires Partial(c, s) && c.stage != Done(false)
    ensures Collect(c, env, k).stage == Done(true) && Snapshot(Collect(c, env, k), s)
    decreases Rank(c.stage), if c.stage.AskModule? then |c.list| - c.stage.i else 0, if c.stage.Done? then 0 else 1
  {
    if !c.stage.Done? {
      assert env(k) == Some(s);
      ExchangeAgrees(c, s);
      if c.stage.AskModule? { FindDistinctModule(s.modules, c.stage.i); }
      QuietRemoteCollected(Exchange(c, env(k)), env, k + 1, s);
    }
  }

  /** Every module that is listed dumps the tree it was started with, which is the stored one. */
  predicate StoredBy(s: RemoteState, c: Config) {
    forall i | 0 <= i < |s.modules| ::
      s.modules[i].name in c.modules && s.modules[i].config == c.modules[s.modules[i].name]
  }

  /** Exactly the state of a properly configured unit with configuration `c`. */
  ghost predicate RealState(s: RemoteState, c: Config) {
    AnsweredBy(s, c) && StoredBy(s, c) && WellNamed(c.kernel, c.instanceName)
  }

  /** The tree of a module: its name and library, then `rest`. */
  function ModuleTree(name: string, text: string, rest: seq<(string, Tree)>): Tree {
    Tree(text, [("name", Leaf(name))] + ([("file", Leaf("lib"))] + rest))
  }

  lemma ModuleTreeGet(name: string, text: string, rest: seq<(string, Tree)>)
    ensures var t := ModuleTree(name, text, rest);
            && GetData(t, "name") == Some(name) && GetData(t, "file") == Some("lib")
            && Get(t, "level") == Find(rest, "level")
  {
    var tail := [("file", Leaf("lib"))] + rest;
    FindNext("name", Leaf(name), tail, "name");
    FindNext("name", Leaf(name), tail, "file");
    FindNext("name", Leaf(name), tail, "level");
    FindNext("file", Leaf("lib"), rest, "file");
    FindNext("file", Leaf("lib"), rest, "level");
  }

  function EarlyTree(text: string): Tree {
    ModuleTree("b", text, [("level", Leaf("1"))])
  }

  function LateTree(text: string): Tree {
    ModuleTree("a", text, [])
  }

  lemma TreeLevels(text: string)
    ensures Modules.LevelOf(EarlyTree(text)) == 1 && Modules.LevelOf(LateTree(text)) == 100
  {
    var rest := [("level", Leaf("1"))];
    assert rest == [("level", Leaf("1"))] + [];
    FindNext("level", Leaf("1"), [], "level");
    ModuleTreeGet("b", text, rest);
    ModuleTreeGet("a", text, []);
    assert Modules.ParseNat("1") == Some(1);
  }

  /** A unit that exports nothing and has two modules, `b` before `a`, whose settings read `text`. */
  function TwoModules(text: string): RemoteState {
    RemoteState(7, Ok(EMPTY), [RemoteModule("b", EarlyTree(text), []), RemoteModule("a", LateTree(text), [])])
  }

  /** A unit whose `sync_source` flags nothing. */
  function Silent(modules: map<string, Tree>, version: uint64): Config {
    Config(UnitTree("f", "remote", [("sync_source", EMPTY)]), modules, version, "remote")
  }

  lemma {:induction false} RestrictToNone(cs: seq<(string, Tree)>)
    ensures Restrict(cs, []) == []
  {
    if cs != [] { RestrictToNone(cs[..|cs| - 1]); }
  }

  lemma SilentExportsNothing(modules: map<string, Tree>, version: uint64)
    ensures Export(Silent(modules, version)) == Ok(EMPTY)
    ensures WellNamed(Silent(modules, version).kernel, "remote")
  {
    var rest := [("sync_source", EMPTY)];
    assert rest == [("sync_source", EMPTY)] + [];
    FindNext("sync_source", EMPTY, [], "sync_source");
    FindNext("sync_source", EMPTY, [], "kernel-cfg");
    UnitTreeGet("f", "remote", rest, "sync_source");
    RestrictToNone(GeneralConfig(Silent(modules, version)).children);
  }

  /** The unit whose state it is. */
  function TwoModulesUnit(text: string): Config {
    Silent(map["b" := EarlyTree(text), "a" := LateTree(text)], 7)
  }

  lemma TwoModulesGenuine(text: string)
    ensures RealState(TwoModules(text), TwoModulesUnit(text))
    ensures Genuine(TwoModules(text))
  {
    var c := TwoModulesUnit(text);
    SilentExportsNothing(c.modules, 7);
    TreeLevels(text);
    assert Modules.Level(c.modules, "b") == 1 && Modules.Level(c.modules, "a") == 100;
    assert AnsweredBy(TwoModules(text), c);
  }

  /** The unit is in state `s`, later in state `s'`; the collection succeeds and holds neither. */
  ghost predicate Torn(env: nat -> Option<RemoteState>, s: RemoteState, s': RemoteState) {
    && (forall k: nat :: env(k) == Some(s) || env(k) == Some(s'))
    && (forall i: nat, j: nat :: i <= j && env(i) == Some(s') ==> env(j) == env(i))
    && Collect(START, env, 0).stage == Done(true)
    && !Snapshot(Collect(START, env, 0), s) && !Snapshot(Collect(START, env, 0), s')
  }

  /** Without the rule that changes of the modules raise the version the comparison is worthless: a
      unit that changes once, keeping its version, is collected half before and half after. */
  lemma TornWithoutTheRule()
    ensures exists env: nat -> Option<RemoteState>, s: RemoteState, s': RemoteState, c: Config, c': Config ::
              Torn(env, s, s') && RealState(s, c) && RealState(s', c') && s.version == s'.version
  {
    TwoModulesGenuine("old");
    TwoModulesGenuine("new");
    TornBetween();
  }

  lemma TornBetween()
    ensures exists env: nat -> Option<RemoteState> :: Torn(env, TwoModules("old"), TwoModules("new"))
  {
    var env: nat -> Option<RemoteState> := k => if k < 4 then Some(TwoModules("old")) else Some(TwoModules("new"));
    TornRun(env);
    TwoModulesConfigs("old");
    TwoModulesConfigs("new");
    assert Torn(env, TwoModules("old"), TwoModules("new"));
  }

  lemma TornRun(env: nat -> Option<RemoteState>)
    requires forall k: nat :: env(k) == if k < 4 then Some(TwoModules("old")) else Some(TwoModules("new"))
    ensures var r := Collect(START, env, 0);
            && r.stage == Done(true) && "a" in r.configs && "b" in r.configs
            && r.configs["b"] == EarlyTree("old") && r.configs["a"] == LateTree("new")
  {
    var before, after := TwoModules("old"), TwoModules("new");
    assert env(0) == env(1) == env(2) == env(3) == Some(before) && env(4) == env(5) == Some(after);
    var c1 := Exchange(START, Some(before));
    var c2 := Exchange(c1, Some(before));
    var c3 := Exchange(c2, Some(before));
    assert c3.list == ["b", "a"] && c3.stage == AskModule(0);
    FindDistinctModule(before.modules, 0);
    var c4 := Exchange(c3, Some(before));
    assert c4.stage == AskModule(1) && c4.configs == map["b" := EarlyTree("old")];
    FindDistinctModule(after.modules, 1);
    var c5 := Exchange(c4, Some(after));
    assert c5.stage == AskAgain && c5.configs == c4.configs["a" := LateTree("new")];
    var c6 := Exchange(c5, Some(after));
    assert Collect(c5, env, 5) == Collect(c6, env, 6) == c6;
    assert Collect(c3, env, 3) == Collect(c4, env, 4) == Collect(c5, env, 5);
    assert Collect(START, env, 0) == Collect(c1, env, 1) == Collect(c2, env, 2) == Collect(c3, env, 3);
  }

  lemma TwoModulesConfigs(text: string)
    ensures var m := ConfigsOf(TwoModules(text).modules);
            "a" in m && "b" in m && m["a"] == LateTree(text) && m["b"] == EarlyTree(text)
  {
    var ms := TwoModules(text).modules;
    assert ms[..1] == [ms[0]] && ms[..1][..0] == [];
  }

  // ---- the object ----

  class RemoteConfigCollector {
    var firstCall: bool
    var succeed: bool
    var version: uint64
    var general: Tree
    var list: seq<string>
    var configs: map<string, Tree>
    var files: map<string, seq<(string, string)>>

    ghost function View(stage: Stage): Collector
      reads this
    {
      Collector(stage, version, general, list, configs, files)
    }

    constructor ()
      ensures firstCall && !succeed && View(AskVersion) == START
    {
      firstCall, succeed, version, general := true, false, 0, EMPTY;
      list, configs, files := [], map[], map[];
    }

    method FetchGeneralConfig(reply: Option<RemoteState>) returns (ok: bool)
      modifies this`general
      ensures ok == !Exchange(old(View(AskGeneral)), reply).stage.Done?
      ensures ok ==> View(AskList) == Exchange(old(View(AskGeneral)), reply)
    {
      if reply.None? { return false; }
      if reply.value.general.Err? { return false; }
      general := reply.value.general.value;
      return true;
    }

    method FetchModuleList(reply: Option<RemoteState>) returns (ok: bool)
      modifies this`list
      ensures ok == reply.Some?
      ensures ok ==> View(NextModule(list, 0)) == Exchange(old(View(AskList)), reply)
    {
      if reply.None? { return false; }
      var parts := ModuleNames(reply.value.modules);
      for i := 0 to |parts|
        invariant list == old(list) + parts[..i]
      {
        list := list + [parts[i]];
      }
      return true;
    }

    method FetchModuleConfig(i: nat, reply: Option<RemoteState>) returns (ok: bool)
      requires i < |list|
      modifies this`configs, this`files
      ensures ok == !Exchange(old(View(AskModule(i))), reply).stage.Done?
      ensures ok ==> View(NextModule(list, i + 1)) == Exchange(old(View(AskModule(i))), reply)
    {
      var name := list[i];
      if reply.None? { return false; }
      var m := FindModule(reply.value.modules, name);
      if m.None? { return false; }
      var parts := m.value.files;
      for j := 0 to |parts|
        invariant Gathered(files, name) == Gathered(old(files), name) + parts[..j]
        invariant configs == old(configs) && files[name := []] == old(files)[name := []]
      {
        files := files[name := Gathered(files, name) + [parts[j]]];
      }
      // the row exists even if there is no file
      files := files[name := Gathered(files, name)];
      assert files[name] == Gathered(old(files), name) + parts by { assert parts[..|parts|] == parts; }
      assert files == files[name := []][name := files[name]];
      assert files == old(files)[name := []][name := files[name]] == old(files)[name := files[name]];
      configs := configs[name := m.value.config];
      return true;
    }

    method FetchModulesConfig(env: nat -> Option<RemoteState>) returns (ok: bool)
      modifies this`configs, this`files
      ensures var r := Collect(old(View(NextModule(list, 0))), env, 3);
              if ok then Collect(View(AskAgain), env, 3 + |list|) == r else r.stage == Done(false)
    {
      for i := 0 to |list|
        invariant Collect(View(NextModule(list, i)), env, 3 + i) == Collect(old(View(NextModule(list, 0))), env, 3)
      {
        var one := FetchModuleConfig(i, env(3 + i));
        if !one { return false; }
      }
      return true;
    }

    /** Fills the object; on success it holds one remote state whole. */
    method FetchConfig(env: nat -> Option<RemoteState>) returns (ok: bool)
      requires firstCall && !succeed && View(AskVersion) == START
      modifies this
      ensures !firstCall && succeed == ok
      ensures ok <==> Collect(START, env, 0).stage == Done(true)
      ensures ok ==> View(Done(true)) == Collect(START, env, 0)
      ensures ok ==> forall n | n in list :: n in configs
      ensures ok ==> env(1).Some?
      ensures ok && Evolves(env) && DistinctModules(env(1).value) ==> Snapshot(View(Done(true)), env(1).value)
    {
      firstCall := false;
      ghost var c1 := Exchange(START, env(0));
      assert Collect(START, env, 0) == Collect(c1, env, 1);
      if env(0).None? { return false; }
      version := env(0).value.version;
      ghost var c2 := Exchange(c1, env(1));
      assert Collect(c1, env, 1) == Collect(c2, env, 2);
      var gotGeneral := FetchGeneralConfig(env(1));
      if !gotGeneral { return false; }
      assert Collect(c2, env, 2) == Collect(Exchange(c2, env(2)), env, 3);
      var gotList := FetchModuleList(env(2));
      if !gotList { return false; }
      assert Collect(START, env, 0) == Collect(View(NextModule(list, 0)), env, 3);
      var gotModules := FetchModulesConfig(env);
      if !gotModules { return false; }
      if env(3 + |list|).None? || env(3 + |list|).value.version != version {
        return false;
      }
      succeed := true;
      SuccessIsListed(START, env, 0);
      if Evolves(env) && DistinctModules(env(1).value) {
        SuccessIsSnapshot(env);
      }
      return true;
    }
  }
}
