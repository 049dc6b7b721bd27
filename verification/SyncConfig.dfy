/** Merging a collected configuration into the local one and reloading the modules. */
module SyncConfig {
  import opened PropertyTree
  import opened Configuration
  import opened RemoteCollector
  import opened Modules

  // ---- the merge, on values ----

  /** What the first loop does with one module of the remote list. */
  function MergeOne(cfg: Config, backup: Config, c: Collector, name: string): Config {
    if Importable(cfg, name) then
      if name in c.configs then cfg.(modules := cfg.modules[name := c.configs[name]]) else cfg
    else if name in backup.modules then cfg.(modules := cfg.modules[name := backup.modules[name]])
    else cfg
  }

  function MergeList(cfg: Config, backup: Config, c: Collector, list: seq<string>): Config {
    if list == [] then cfg
    else MergeOne(MergeList(cfg, backup, c, list[..|list| - 1]), backup, c, list[|list| - 1])
  }

  /** What the second loop does: local modules that are never imported come back from the backup. */
  function Restore(cfg: Config, backup: Config, names: seq<string>): Config {
    if names == [] then cfg
    else
      var before := Restore(cfg, backup, names[..|names| - 1]);
      var name := names[|names| - 1];
      if name in backup.modules then before.(modules := before.modules[name := backup.modules[name]]) else before
  }

  /** The local configuration once the kernel tree is settled. */
  function WithKernel(local: Config, c: Collector, general: bool): Result<Config> {
    if !general then Ok(local)
    else
      var k := SetKernel(local.kernel, local.instanceName, c.general);
      if k.Ok? then Ok(local.(kernel := k.value)) else Err
  }

  /** The whole merge: both loops, starting from `start`, with `local` as the backup. */
  function Merged(start: Config, local: Config, c: Collector): Config {
    Restore(MergeList(start, local, c, c.list), local, NonImportable(local))
  }

  function Lookup(m: map<string, Tree>, n: string): Option<Tree> {
    if n in m then Some(m[n]) else None
  }

  /** The intended result: what the remote list offers, except for modules that are not
      imported; everything else as before. */
  function Intended(local: Config, c: Collector, n: string): Option<Tree> {
    if n in c.list && Imports(local.kernel, n) then Lookup(c.configs, n) else Lookup(local.modules, n)
  }

  lemma {:induction false} MergeListPointwise(cfg: Config, backup: Config, c: Collector, list: seq<string>)
    requires cfg.modules == backup.modules
    requires forall n | n in list :: n in c.configs
    ensures var r := MergeList(cfg, backup, c, list);
            && r == cfg.(modules := r.modules)
            && forall n :: Lookup(r.modules, n)
                 == if n in list && Importable(cfg, n) then Some(c.configs[n]) else Lookup(backup.modules, n)
  {
    if list != [] {
      var front, name := list[..|list| - 1], list[|list| - 1];
      MergeListPointwise(cfg, backup, c, front);
      var r := MergeList(cfg, backup, c, front);
      assert Importable(r, name) == Importable(cfg, name);
      forall n ensures n in list <==> n in front || n == name {
        assert list == front + [name];
      }
    }
  }

  lemma {:induction false} RestorePointwise(cfg: Config, backup: Config, names: seq<string>)
    ensures var r := Restore(cfg, backup, names);
            && r == cfg.(modules := r.modules)
            && forall n :: Lookup(r.modules, n)
                 == if n in names && n in backup.modules then Some(backup.modules[n]) else Lookup(cfg.modules, n)
  {
    if names != [] {
      var front, name := names[..|names| - 1], names[|names| - 1];
      assert names == front + [name];
      RestorePointwise(cfg, backup, front);
      assert forall n :: n in names <==> n in front || n == name;
    }
  }

  /** Exactly what the two loops compute, whatever the kernel tree was set to in between: the
      first loop asks the new tree which modules are imported, the second asks the backup. */
  lemma MergedPointwise(start: Config, local: Config, c: Collector)
    requires start.modules == local.modules
    requires forall n | n in c.list :: n in c.configs
    ensures var r := Merged(start, local, c);
            && r == start.(modules := r.modules)
            && forall n :: Lookup(r.modules, n) ==
                 if n in c.list && Imports(start.kernel, n) && (Imports(local.kernel, n) || n !in local.modules)
                 then Some(c.configs[n]) else Lookup(local.modules, n)
  {
    forall n
      ensures Importable(start, n) == Imports(start.kernel, n) && Importable(local, n) == Imports(local.kernel, n)
    {
      ImportableIff(start, n);
      ImportableIff(local, n);
    }
    MergeListPointwise(start, local, c, c.list);
    RestorePointwise(MergeList(start, local, c, c.list), local, NonImportable(local));
  }

  /** The two loops give the intended result exactly when the new tree and the old one agree
      on what is imported, as far as it matters. */
  lemma LoopsAgreeIff(start: Config, local: Config, c: Collector)
    requires start.modules == local.modules
    requires forall n | n in c.list :: n in c.configs
    ensures (forall n :: Lookup(Merged(start, local, c).modules, n) == Intended(local, c, n)) <==>
            forall n | n in c.list ::
              && (Imports(local.kernel, n) ==>
                    Imports(start.kernel, n) || Lookup(local.modules, n) == Some(c.configs[n]))
              && (!Imports(local.kernel, n) && n !in local.modules ==> !Imports(start.kernel, n))
  {
    MergedPointwise(start, local, c);
    var r := Merged(start, local, c).modules;
    if forall n | n in c.list ::
         && (Imports(local.kernel, n) ==> Imports(start.kernel, n) || Lookup(local.modules, n) == Some(c.configs[n]))
         && (!Imports(local.kernel, n) && n !in local.modules ==> !Imports(start.kernel, n)) {
      forall n ensures Lookup(r, n) == Intended(local, c, n) {}
    }
    if forall n :: Lookup(r, n) == Intended(local, c, n) {
      forall n | n in c.list
        ensures Imports(local.kernel, n) ==> Imports(start.kernel, n) || Lookup(local.modules, n) == Some(c.configs[n])
        ensures !Imports(local.kernel, n) && n !in local.modules ==> !Imports(start.kernel, n)
      {
        assert Lookup(r, n) == Intended(local, c, n);
      }
    }
  }

  /** With a general configuration that came from an exporter, the two loops compute the
      intended result: modules that are not imported keep their configuration or stay absent,
      imported modules of the remote list take the remote one, all others are unchanged. */
  lemma MergeIsIntended(start: Config, local: Config, c: Collector, general: bool)
    requires WithKernel(local, c, general) == Ok(start)
    requires general ==> Public(c.general)
    requires forall n | n in c.list :: n in c.configs
    ensures var r := Merged(start, local, c);
            && r == start.(modules := r.modules)
            && Get(r.kernel, "no_import") == Get(local.kernel, "no_import")
            && forall n :: Lookup(r.modules, n) ==
                 if n in c.list && Imports(local.kernel, n) then Some(c.configs[n]) else Lookup(local.modules, n)
  {
    MergedPointwise(start, local, c);
    assert Get(start.kernel, "no_import") == Get(local.kernel, "no_import") by {
      if general { NoImportKept(local, c); }
    }
  }

  lemma NoImportKept(local: Config, c: Collector)
    requires SetKernel(local.kernel, local.instanceName, c.general).Ok? && Public(c.general)
    ensures var k := SetKernel(local.kernel, local.instanceName, c.general).value;
            Get(k, "no_import") == Get(local.kernel, "no_import")
  {
    var k := local.kernel;
    if Get(k, "sync_dest").None? {
      AdoptGet(k, local.instanceName, c.general, GetData(k, "kernel-cfg").value);
    } else {
      PublicHides(c.general);
      PutNamedGet(k, c.general.children, Flags(Get(k, "sync_dest").value.children, {}).value, "no_import");
    }
  }

  /** Synchronising from the same collection again, with or without the general configuration,
      changes no module. */
  lemma MergeTwice(start: Config, start2: Config, local: Config, c: Collector, general: bool)
    requires WithKernel(local, c, general) == Ok(start) && (general ==> Public(c.general))
    requires forall n | n in c.list :: n in c.configs
    requires WithKernel(Merged(start, local, c), c, general) == Ok(start2)
    ensures var r := Merged(start, local, c); Merged(start2, r, c).modules == r.modules
  {
    var r := Merged(start, local, c);
    MergeIsIntended(start, local, c, general);
    MergeIsIntended(start2, r, c, general);
    var r2 := Merged(start2, r, c);
    forall n ensures Lookup(r2.modules, n) == Lookup(r.modules, n) {}
    SameLookups(r2.modules, r.modules);
  }

  lemma SameLookups(a: map<string, Tree>, b: map<string, Tree>)
    requires forall n :: Lookup(a, n) == Lookup(b, n)
    ensures a == b
  {
    forall n ensures n in a <==> n in b { assert Lookup(a, n) == Lookup(b, n); }
    forall n | n in a ensures a[n] == b[n] { assert Lookup(a, n) == Lookup(b, n); }
  }

  // ---- the task ----

  /** How far a run of the task got. */
  datatype Outcome = NotFetched | KernelRefused | LoadFailed | StartFailed | Succeeded

  /** What a successful fetch leaves behind. */
  predicate Complete(fetched: RemoteConfigCollector)
    reads fetched
  {
    fetched.succeed ==> forall n | n in fetched.list :: n in fetched.configs
  }

  /** The flags of the main loop. */
  class Kernel {
    var isRunning: bool
    var wantRestart: bool

    constructor ()
      ensures isRunning && !wantRestart
    {
      isRunning, wantRestart := true, false;
    }

    method RestartLater()
      modifies this
      ensures !isRunning && wantRestart
    {
      wantRestart, isRunning := true, false;
    }
  }

  /** Runs on the main thread once a fetch is over. After a fetch that succeeded the local
      configuration ends up merged, the modules are stopped, forgotten, loaded anew and
      started, and the order of the module set is never disturbed. Taking over the general
      configuration asks for a restart, whatever becomes of the rest. */
  method Sync(fetched: RemoteConfigCollector, general: bool, kernel: Kernel, mm: ModuleManager, failing: set<string>)
    returns (outcome: Outcome)
    requires Complete(fetched)
    modifies kernel, mm, mm.config
    ensures if general && outcome != NotFetched && outcome != KernelRefused
            then !kernel.isRunning && kernel.wantRestart
            else kernel.isRunning == old(kernel.isRunning) && kernel.wantRestart == old(kernel.wantRestart)
    ensures old(mm.Valid()) || (outcome != NotFetched && outcome != KernelRefused) ==> mm.Valid()
    ensures outcome == NotFetched <==> !fetched.succeed
    ensures outcome == KernelRefused <==>
              fetched.succeed && WithKernel(old(mm.config.View()), fetched.View(Done(true)), general).Err?
    ensures outcome == NotFetched || outcome == KernelRefused ==>
              mm.config.View() == old(mm.config.View()) && mm.modules == old(mm.modules) && mm.events == old(mm.events)
    ensures outcome != NotFetched && outcome != KernelRefused ==>
              var local, c := old(mm.config.View()), fetched.View(Done(true));
              var merged := Merged(WithKernel(local, c, general).value, local, c);
              && (outcome == LoadFailed <==> !NamesLibraries(fetched.list, merged.modules))
              && mm.config.View() == (if outcome == LoadFailed then merged else merged.(version := c.version))
              && old(mm.events) + StopsOf(Running(old(mm.modules))) <= mm.events
    ensures outcome == Succeeded || outcome == StartFailed ==>
              && Ok(mm.asked) == Loadable(fetched.list, mm.config.modulesConfigs, mm.available)
              && (outcome == Succeeded <==> forall m | m in mm.modules :: m.name !in failing)
    ensures outcome == Succeeded ==>
              && mm.events == old(mm.events) + StopsOf(Running(old(mm.modules))) + StartsOf(mm.modules)
              && forall m | m in mm.modules :: m.running
  {
    if !fetched.succeed { return NotFetched; }
    var cm := mm.config;
    ghost var local, c := cm.View(), fetched.View(Done(true));
    var backupModules, backupKernel := cm.modulesConfigs, cm.kernelConfig;
    if general {
      var accepted := cm.SetKconfig(fetched.general);
      if !accepted { return KernelRefused; }
      kernel.RestartLater();
    }
    ghost var start := cm.View();
    mm.StopModules(false);
    assert mm.config.View() == start;
    StoreFetched(fetched, mm, backupModules, start, local);
    RestoreLocal(mm, backupKernel, backupModules, start, local, c);
    outcome := Reload(fetched, mm, failing);
  }

  /** Loads the modules of the remote list, takes over the version and starts them. */
  method Reload(fetched: RemoteConfigCollector, mm: ModuleManager, failing: set<string>) returns (outcome: Outcome)
    requires mm.modules == [] && mm.asked == [] && mm.Valid()
    modifies mm, mm.config`version
    ensures mm.Valid() && old(mm.events) <= mm.events
    ensures outcome == LoadFailed || outcome == StartFailed || outcome == Succeeded
    ensures outcome == LoadFailed <==> !NamesLibraries(fetched.list, mm.config.modulesConfigs)
    ensures mm.config.version == if outcome == LoadFailed then old(mm.config.version) else fetched.version
    ensures outcome == LoadFailed ==> mm.events == old(mm.events)
    ensures outcome != LoadFailed ==>
              && Ok(mm.asked) == Loadable(fetched.list, mm.config.modulesConfigs, mm.available)
              && (outcome == Succeeded <==> forall m | m in mm.modules :: m.name !in failing)
    ensures outcome == Succeeded ==>
              mm.events == old(mm.events) + StartsOf(mm.modules) && forall m | m in mm.modules :: m.running
  {
    var loaded := LoadAll(fetched.list, mm);
    if !loaded { return LoadFailed; }
    mm.config.SetVersion(fetched.version);
    var started := mm.InitModules(failing);
    outcome := if started then Succeeded else StartFailed;
  }

  /** First loop. */
  method StoreFetched(fetched: RemoteConfigCollector, mm: ModuleManager, backupModules: map<string, Tree>,
                      ghost start: Config, ghost local: Config)
    requires mm.modules == [] && mm.asked == [] && mm.Valid()
    requires mm.config.View() == start && local.modules == backupModules
    requires forall n | n in fetched.list :: n in fetched.configs
    modifies mm.config`modulesConfigs
    ensures mm.Valid()
    ensures mm.config.View() == MergeList(start, local, fetched.View(Done(true)), fetched.list)
  {
    var cm, list := mm.config, fetched.list;
    ghost var c := fetched.View(Done(true));
    for i := 0 to |list|
      invariant cm.View() == MergeList(start, local, c, list[..i])
    {
      assert list[..i + 1][..i] == list[..i];
      var name := list[i];
      var importable := cm.IsModuleImportable(name);
      if importable {
        var _ := cm.StoreConfig(name, fetched.configs[name]);
      } else if name in backupModules {
        var _ := cm.StoreConfig(name, backupModules[name]);
      }
    }
    assert list[..|list|] == list;
    mm.ClearIsValid();
  }

  /** Second loop. */
  method RestoreLocal(mm: ModuleManager, backupKernel: Tree, backupModules: map<string, Tree>,
                      ghost start: Config, ghost local: Config, ghost c: Collector)
    requires mm.modules == [] && mm.asked == [] && mm.Valid()
    requires local.kernel == backupKernel && local.modules == backupModules
    requires mm.config.View() == MergeList(start, local, c, c.list)
    modifies mm.config`modulesConfigs
    ensures mm.Valid()
    ensures mm.config.View() == Merged(start, local, c)
  {
    var cm := mm.config;
    var noImport := Get(backupKernel, "no_import");
    var names := if noImport.Some? then Names(noImport.value.children) else [];
    ghost var merged := cm.View();
    for i := 0 to |names|
      invariant cm.View() == Restore(merged, local, names[..i])
    {
      assert names[..i + 1][..i] == names[..i];
      if names[i] in backupModules {
        var _ := cm.StoreConfig(names[i], backupModules[names[i]]);
      }
    }
    assert names[..|names|] == names;
    mm.ClearIsValid();
  }

  /** The modules of the remote list that get loaded: those that have a configuration and a
      library. A missing library is only reported; a configuration that names no library ends
      the synchronisation. */
  function Loadable(list: seq<string>, configs: map<string, Tree>, available: set<string>): Result<seq<string>> {
    if list == [] then Ok([])
    else
      var before, name := Loadable(list[..|list| - 1], configs, available), list[|list| - 1];
      if before.Err? || name !in configs then before
      else match GetData(configs[name], "file")
        case None => Err
        case Some(file) => if file in available then Ok(before.value + [name]) else before
  }

  /** Every listed module that has a configuration names a library in it. */
  predicate NamesLibraries(list: seq<string>, configs: map<string, Tree>) {
    forall n | n in list && n in configs :: GetData(configs[n], "file").Some?
  }

  /** Loading goes through exactly if no configuration lacks its library's name, and then loads
      exactly the listed modules that have a configuration and whose library is there. */
  lemma {:induction false} LoadableIff(list: seq<string>, configs: map<string, Tree>, available: set<string>)
    ensures Loadable(list, configs, available).Ok? <==> NamesLibraries(list, configs)
    ensures Loadable(list, configs, available).Ok? ==>
              forall n :: n in Loadable(list, configs, available).value <==>
                n in list && n in configs && GetData(configs[n], "file").value in available
  {
    if list != [] {
      var front, last := list[..|list| - 1], list[|list| - 1];
      LoadableIff(front, configs, available);
      forall n ensures n in list <==> n in front || n == last {
        assert list == front + [last];
      }
    }
  }

  /** The modules are loaded in the order of the list. */
  lemma {:induction false} LoadableParts(a: seq<string>, b: seq<string>, configs: map<string, Tree>,
                                         available: set<string>)
    requires Loadable(a, configs, available).Ok? && Loadable(b, configs, available).Ok?
    ensures Loadable(a + b, configs, available)
         == Ok(Loadable(a, configs, available).value + Loadable(b, configs, available).value)
  {
    if b == [] {
      var x := Loadable(a, configs, available).value;
      assert a + b == a && x + [] == x;
    } else {
      var front, n := b[..|b| - 1], b[|b| - 1];
      assert (a + b)[..|a + b| - 1] == a + front && (a + b)[|a + b| - 1] == n;
      LoadableParts(a, front, configs, available);
      var x, y := Loadable(a, configs, available).value, Loadable(front, configs, available).value;
      assert x + y + [n] == x + (y + [n]);
    }
  }

  lemma LoadableOne(n: string, configs: map<string, Tree>, available: set<string>)
    requires NamesLibraries([n], configs)
    ensures n in configs ==> GetData(configs[n], "file").Some?
    ensures Loadable([n], configs, available)
         == Ok(if n in configs && GetData(configs[n], "file").value in available then [n] else [])
  {
    assert n in [n] && [n][..0] == [];
    assert Loadable([], configs, available) == Ok([]) && [] + [n] == [n];
  }

  lemma {:induction false} LoadableErr(list: seq<string>, i: nat, configs: map<string, Tree>, available: set<string>)
    requires i <= |list| && Loadable(list[..i], configs, available).Err?
    ensures Loadable(list, configs, available).Err?
    decreases |list| - i
  {
    if i == |list| {
      assert list[..i] == list;
    } else {
      assert list[..i + 1][..i] == list[..i];
      LoadableErr(list, i + 1, configs, available);
    }
  }

  method LoadAll(list: seq<string>, mm: ModuleManager) returns (ok: bool)
    requires mm.modules == [] && mm.asked == [] && mm.Valid()
    modifies mm
    ensures mm.Valid() && mm.events == old(mm.events)
    ensures forall m | m in mm.modules :: !m.running
    ensures ok == Loadable(list, mm.config.modulesConfigs, mm.available).Ok?
    ensures ok == NamesLibraries(list, mm.config.modulesConfigs)
    ensures ok ==> Ok(mm.asked) == Loadable(list, mm.config.modulesConfigs, mm.available)
  {
    ok := LoadEach(list, mm);
    LoadableIff(list, mm.config.modulesConfigs, mm.available);
  }

  method LoadEach(list: seq<string>, mm: ModuleManager) returns (ok: bool)
    requires mm.modules == [] && mm.asked == [] && mm.Valid()
    modifies mm
    ensures mm.Valid() && mm.events == old(mm.events)
    ensures forall m | m in mm.modules :: !m.running
    ensures ok == Loadable(list, mm.config.modulesConfigs, mm.available).Ok?
    ensures ok ==> Ok(mm.asked) == Loadable(list, mm.config.modulesConfigs, mm.available)
  {
    for i := 0 to |list|
      invariant mm.Valid() && mm.events == old(mm.events)
      invariant forall m | m in mm.modules :: !m.running
      invariant Ok(mm.asked) == Loadable(list[..i], mm.config.modulesConfigs, mm.available)
    {
      assert list[..i + 1][..i] == list[..i];
      if list[i] in mm.config.modulesConfigs {
        var r := mm.LoadModule(list[i]);
        if r == LoadThrew {
          LoadableErr(list, i + 1, mm.config.modulesConfigs, mm.available);
          return false;
        }
      }
    }
    assert list[..|list|] == list;
    return true;
  }

  // ---- a whole life of the unit ----

  datatype SyncInput = SyncInput(fetched: RemoteConfigCollector, general: bool, failing: set<string>)

  /** Start-up followed by any number of synchronisations, failed ones included: the module set
      is in order after each, if start-up left it so or a synchronisation got as far as reloading. */
  method Life(kernel: Kernel, mm: ModuleManager, boot: seq<(string, Tree)>, failing: set<string>,
              syncs: seq<SyncInput>)
    returns (outcomes: seq<Outcome>)
    requires mm.modules == [] && mm.asked == [] && mm.config.modulesConfigs == map[]
    requires forall s | s in syncs :: Complete(s.fetched)
    modifies kernel, mm, mm.config
    ensures SteadyLevels(boot) || Reloaded(outcomes) ==> mm.Valid()
  {
    outcomes := [];
    var r := ModuleManagerInit(mm, boot, failing);
    if r != BootDone { return; }
    for i := 0 to |syncs|
      invariant SteadyLevels(boot) || Reloaded(outcomes) ==> mm.Valid()
    {
      var outcome := Sync(syncs[i].fetched, syncs[i].general, kernel, mm, syncs[i].failing);
      outcomes := outcomes + [outcome];
    }
  }

  predicate Reloaded(outcomes: seq<Outcome>) {
    exists i :: 0 <= i < |outcomes| && outcomes[i] != NotFetched && outcomes[i] != KernelRefused
  }
}
