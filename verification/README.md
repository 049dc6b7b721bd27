# Leosac core, modelled and verified

Leosac is an access control system. A unit runs modules that are configured by property trees, and
one unit can take over the configuration of another while both stay in service. This project is a
Dafny model of the part of its core where several actors or several objects have to agree, with
proofs of what the design relies on:

- **Configuration synchronisation.** A `SYNC_FROM` request makes a pool thread collect a remote
  configuration, request by request, while the remote unit may change at any time. The main thread
  then merges the collection into the local configuration, reloads the modules and answers the
  client. `SyncProtocol` puts the remote units, the pool threads and the main thread into one state
  machine; a run is any interleaving of their steps. `Configuration`, `RemoteCollector`, `Modules`
  and `SyncConfig` are the objects the steps are made of, `Tasks` and `Scheduling` the primitives
  that connect the threads. `SyncAnswers` is about what clients hear, `SyncRuns` about runs that
  exist, and `SyncProgress` about getting to an answer.
- **Zones.** The validator that runs when a zone is stored looks only downwards. `Zones` says exactly
  what it accepts and shows that it nevertheless keeps the rules of the whole graph.
- **Audit entries**, with their parent and child links and the update that climbs to the parents.
- **Cards.** `Wiegand` goes from the bits on the wire through the reader's byte buffer and the printed
  card text to the number, `Cards` holds the text validator and the number formats.
- **Access profiles** and their merge, and the compressed permission tables of **remote control**.

Objects that the C++ code updates in place are classes; each method is proved equal to a function on
values, and the laws are proved about those functions. The two concurrent primitives and the whole
protocol are state machines whose steps are as fine as the lock sections.

## What came out

The following hold for all inputs or all runs, unless a condition is given.

- Behind every answer "Success" stands one single state that the remote unit was in: the local version
  and every imported module equal it, the kernel tree is what taking over its export makes of the old
  one if that was asked for and the old one otherwise, and no other module changed. This rests on the
  rule that the version never falls and that a change of the modules raises it; changes of the general
  configuration alone may keep it, as `set_netconfig` does (src/core/kernel.cpp:307-330). The code does
  not enforce the rule: nothing calls `incr_version`, and a synchronisation sets whatever version it got
  (src/core/tasks/SyncConfig.cpp:139). Without the rule a collection can be torn
  (`RemoteCollector.TornWithoutTheRule`).
- A request gets "DELAYED", then at most one more answer, and exactly one once its threads are through.
  While that answer is missing and the main loop has not ended, the unit has a step that brings it
  closer. Taking over a general configuration ends the loop (src/core/tasks/SyncConfig.cpp:73-74,
  src/core/kernel.cpp:441-474), and a client whose fetch is still going on then hears nothing more:
  `SyncProgress.AnswerPossibleIff` is the exact condition, `SyncProgress.RequestCanBeLeftBehind` gives
  the run, and `SyncProgress.WhyTheLoopEnds` says that only a stop from outside has the same effect.
- `SyncConfig::do_run` asserts that the fetch task is complete (src/core/tasks/SyncConfig.cpp:43). That
  can be false: the completion flag is stored after the callback that queues the synchronisation
  (src/core/tasks/Task.cpp:57-72). `SyncRuns.SyncBeforeCompletion` gives the run and
  `SyncRuns.IncompleteDuringSyncIff` says exactly when it happens. What does hold is that the fetch has
  succeeded and that its collector is never written again.
- The two loops of the merge ask different trees which modules are imported. `SyncConfig.LoopsAgreeIff`
  gives the exact condition under which they compute the intended result, and
  `SyncConfig.MergeIsIntended` shows that exported trees always meet it.
- Applying the same export again changes nothing after two rounds. After one round it changes nothing
  unless the local `sync_dest` lets itself be replaced and its replacement lets in a sent tag that the
  first round left out and that differs from the local one.
- Naming a module twice in the configuration file is accepted. It takes the module set out of order
  exactly if the second entry moves a loaded module past a neighbour (`Modules.DisturbedIff`, with an
  example in `Modules.BootCanBeDisturbed`), and is harmless if the level stays (`Modules.SteadyBoot`).
- The zone validator accepts exactly trees, not all graphs without cycles, although the documentation
  (src/core/auth/IZone.hpp:42-45) allows several logical parents. Being a tree is not kept by later
  updates elsewhere: `Zones.SharedZoneBlocksItsAncestors` shows a zone that was accepted and cannot be
  stored again unchanged, and `Zones.UnchangedAcceptedIffTree` says exactly when that happens.
- `AuditEntry::set_parent` keeps links mirrored and climbs finite if and only if the entry had no parent
  and the new parent is not below the entry; the code only asserts the first and does not look at the
  second. An old parent goes on listing the entry. A parent below the entry closes a circle, and the
  update cascade from there never ends. Entries made by the event factories meet neither case.

## Model

| member | source | states |
|---|---|---|
| Configuration.ConfigManager.GetGeneralConfig | src/core/config/ConfigManager.cpp:59-74 | the loop over the general tags gives each tag the kernel tree holds, once, in order, followed by the version |
| Configuration.GeneralFacts | src/core/config/ConfigManager.cpp:59-74 | every lookup in a general configuration: the in-memory version, a general tag as the kernel tree has it, nothing else; no tag occurs twice |
| Configuration.TagNames | src/core/config/ConfigManager.cpp:63-65 | which tags a general configuration may hold, by name, and which are never exported |
| Configuration.ParseBoolMeaning | src/core/config/ConfigManager.cpp:102 | the texts that read as true and as false |
| Configuration.ConfigManager.GetExportableGeneralConfig | src/core/config/ConfigManager.cpp:76-115 | the loops compute `Export` of the current configuration, including the failure for an unreadable flag |
| Configuration.FlagsMeaning | src/core/config/ConfigManager.cpp:92-104 | flags can be collected exactly when each that counts is a truth value, and then give exactly the names for which one is set and which are not skipped |
| Configuration.ExportIsPublic | src/core/config/ConfigManager.cpp:76-115 | an export fails exactly for an unreadable `sync_source`; otherwise it holds exactly the tags the unit is willing to export, each as the unit has it, never `no_import`, `instance_name` or `kernel-cfg`, and none twice |
| Configuration.ConfigManager.SetKconfig | src/core/config/ConfigManager.cpp:186-228 | the new kernel tree as a function of the old one and the incoming one; an error leaves the old tree in place |
| Configuration.KernelLookup | src/core/config/ConfigManager.cpp:186-228 | exactly when an exported tree is taken over, and what every tag is afterwards, with and without a local `sync_dest` |
| Configuration.AdoptGet | src/core/config/ConfigManager.cpp:195-210 | without `sync_dest` everything is replaced except `no_import`, `kernel-cfg` and `instance_name`, and `kernel-cfg` occurs once |
| Configuration.IdentityKept | src/core/config/ConfigManager.cpp:186-228 | taking over any exported tree changes none of the unit's own tags, and `kernel-cfg` still occurs exactly once |
| Configuration.FixedPoint | src/core/config/ConfigManager.cpp:186-228 | applying the same export again is without effect after two rounds, and after one if and only if a condition on the local tree and the export holds beforehand |
| Configuration.PutNamedSame | src/core/config/ConfigManager.cpp:219-226 | putting the named subtrees changes nothing if and only if each is already the one found |
| Configuration.TwoRoundsNeeded | src/core/config/ConfigManager.cpp:211-227 | two properly configured units such that one round of taking over the export of the second is not enough |
| Configuration.SecondRoundChanges | src/core/config/ConfigManager.cpp:211-227 | a second round changes something whenever the local unit lets in only `sync_dest` and the export brings one that lets in a new `log` |
| Configuration.ConfigManager.StoreConfig | src/core/config/ConfigManager.cpp:117-130 | the module's configuration is replaced, no other is, and the result says whether there was one |
| Configuration.ConfigManager.IsModuleImportable | src/core/config/ConfigManager.cpp:230-249 | true exactly if there is no `no_import` tag or none of its children has that name |
| Configuration.ImportableIff | src/core/config/ConfigManager.cpp:230-249 | a module is imported if and only if no child of the `no_import` tag has its name |
| Configuration.ConfigManager.SetVersion | src/core/config/ConfigManager.cpp:266-269 | any version is accepted, a lower one too |
| RemoteCollector.RemoteConfigCollector.FetchConfig | src/core/config/RemoteConfigCollector.cpp:60-109 | succeeds exactly when every request is answered usably and both versions agree; the fields then hold the collection, every listed module has a configuration, and under the version rule all of it came from one remote state |
| RemoteCollector.RemoteConfigCollector.FetchGeneralConfig | src/core/config/RemoteConfigCollector.cpp:111-133 | stores the general configuration of the answer, or fails |
| RemoteCollector.RemoteConfigCollector.FetchModuleList | src/core/config/RemoteConfigCollector.cpp:135-154 | appends all names of the answer in order, or fails |
| RemoteCollector.RemoteConfigCollector.FetchModuleConfig | src/core/config/RemoteConfigCollector.cpp:156-203 | stores configuration and additional files of one module, with a row of files even if there is none, or fails |
| RemoteCollector.RemoteConfigCollector.FetchModulesConfig | src/core/config/RemoteConfigCollector.cpp:205-213 | asks for every listed module in order and stops at the first failure |
| RemoteCollector.SuccessIsSnapshot | src/core/config/RemoteConfigCollector.hpp:45-49 | however many changes fall between the requests, even changes of the general configuration that keep the version, a collection that succeeds holds in every part what the state that answered the general request would have answered |
| RemoteCollector.SnapshotMeaning | src/core/config/RemoteConfigCollector.cpp:60-109 | such a collection part by part: version, general configuration, and for each module in order its name, configuration and additional files, and nothing else |
| RemoteCollector.SuccessIff | src/core/config/RemoteConfigCollector.cpp:60-109 | for every behaviour of the remote unit a collection succeeds if and only if every request gets a usable answer and the last version is the first; version, general configuration and list are then those of the answers |
| RemoteCollector.SuccessHolds | src/core/config/RemoteConfigCollector.cpp:156-213 | and each module's configuration and files are those of the answer to its own request |
| RemoteCollector.TracksExchange | src/core/config/RemoteConfigCollector.cpp:60-109 | any single answer keeps the agreement with the state that gave the general configuration as long as version and modules stay, and an answer from a unit with a higher version can only lead to failure |
| RemoteCollector.SuccessIsListed | src/core/config/RemoteConfigCollector.cpp:205-213 | every collection ends, and one that succeeds holds a configuration for every module it lists, whatever the remote unit did |
| RemoteCollector.QuietRemoteCollected | src/core/config/RemoteConfigCollector.cpp:60-109 | a remote unit that answers and does not change is always collected, and as it is |
| RemoteCollector.GenuineIsDistinct | src/core/RemoteControl.cpp:154-161 | a unit never lists a module twice, because its modules are in strict order of levels that depend on the names alone |
| RemoteCollector.TornWithoutTheRule | src/core/config/RemoteConfigCollector.hpp:45-49 | two states of properly configured units, with the module trees they store and the same version, such that a unit that goes from one to the other is collected with success and as neither |
| Modules.ModuleManager.LoadModule | src/core/module_manager.cpp:154-179 | the set stays strictly sorted by level and, if it held exactly the first module asked for at each level, still does; the three results and when each occurs |
| Modules.LevelMeaning | src/core/module_manager.cpp:313-314 | the level of every tree: the number its text spells digit by digit, with a sign or without, if it fits an `int`, and 100 for anything else |
| Modules.ParseNatMeaning | src/core/module_manager.cpp:313-314 | exactly the non-empty texts of digits are numbers, worth the sum of their digits weighed by place |
| Modules.DecimalReadsBack | src/core/config/ConfigManager.cpp:72 | a version or level that is printed reads back as itself, and has no leading zero |
| Modules.LongLevels | src/core/module_manager.cpp:313-314 | the levels 40 and 101 as texts |
| Modules.InsertHolds | src/core/module_manager.cpp:172 | inserting a module into the level-ordered set keeps it the first module of each level, a module of a taken level being dropped |
| Modules.InsertFacts | src/core/module_manager.cpp:311-317 | inserting keeps the order, adds the module if its level is free and changes nothing if it is taken |
| Modules.ModuleManager.InitModules | src/core/module_manager.cpp:69-76 | modules start in the order of the set; it succeeds exactly if none of them fails to start, and otherwise stops at the first that does, with exactly those before it running |
| Modules.ModuleManager.StopModules | src/core/module_manager.cpp:198-209 | the running modules stop in reverse order; a hard stop empties the set, whatever state it was in, a soft one leaves it |
| Modules.RunningParts | src/core/module_manager.cpp:211-236 | what is stopped is exactly what runs, in the order of the set |
| Modules.SortedNamesDistinct | src/core/module_manager.cpp:311-317 | no name is in the set twice |
| Modules.StopsMirrorStarts | src/core/module_manager.cpp:198-209 | modules stop in the exact reverse of the order in which they start |
| Modules.StoreOtherKeeps | src/core/kernel.cpp:203-232 | storing the configuration of a module that was not yet asked for does not disturb the set |
| Modules.StoreKeepsOrderIff | src/core/module_manager.cpp:311-317 | storing a new configuration for a loaded module keeps the order if and only if the new level lies between its neighbours |
| Modules.ModuleManagerInit | src/core/kernel.cpp:186-233 | how start-up ends for every list of modules, repeated names included, and exactly when a module that cannot start ends it; what is then stored, loaded and started; with steady levels the set holds the first module of each level |
| Modules.LoadEntry | src/core/kernel.cpp:203-223 | how one more entry of the configuration file is stored and loaded, in which order it can fail, and that one without a library is not even stored |
| Modules.SteadyBoot | src/core/kernel.cpp:203-223 | start-up never takes the set out of order if a repeated name keeps its level, as all distinct names do |
| Modules.SteadyBootLoads | src/core/kernel.cpp:203-223 | it then loads everything if and only if every entry names a library that is there |
| Modules.BootInLevelOrder | src/core/kernel.cpp:203-232 | two modules with any two different levels are in level order after start-up, whichever is listed first |
| Modules.DisturbedIff | src/core/kernel.cpp:213-215 | one more entry takes the set out of order if and only if it names a library and gives a loaded module a level that does not lie between its neighbours |
| Modules.MovingPastDisturbs | src/core/kernel.cpp:213-215 | every start-up that loads one module, then a second behind it, and then moves the first behind the second, takes the set out of order |
| Modules.BootCanBeDisturbed | src/core/kernel.cpp:213-215 | a configuration file for which that happens |
| SyncConfig.Sync | src/core/tasks/SyncConfig.cpp:41-146 | exactly when it ends in which way, and for each the exact configuration left behind; modules stop in reverse order, are forgotten, loaded from the remote list and started in order; a set in order stays so, and reloading puts any set in order; a restart is asked for exactly when the general configuration was taken over |
| SyncConfig.Kernel.RestartLater | src/core/kernel.cpp:441-445 | the main loop is told to end and a restart is wanted |
| SyncConfig.LoadableIff | src/core/tasks/SyncConfig.cpp:127-139 | loading goes through if and only if no listed configuration lacks its library's name, and then loads exactly the listed modules with a configuration whose library is there |
| SyncConfig.LoadableParts | src/core/tasks/SyncConfig.cpp:127-139 | modules are loaded in the order of the list |
| SyncConfig.Reload | src/core/tasks/SyncConfig.cpp:127-140 | it fails to load exactly if a listed configuration names no library, and fails to start exactly if a loaded module does; the version is taken over unless loading fails |
| SyncConfig.StoreFetched | src/core/tasks/SyncConfig.cpp:78-109 | the first loop computes `MergeList` of the remote list |
| SyncConfig.RestoreLocal | src/core/tasks/SyncConfig.cpp:111-125 | the second loop completes the merge from the backup |
| SyncConfig.LoadAll | src/core/tasks/SyncConfig.cpp:127-139 | exactly the modules of the remote list that have a configuration and a library are loaded, in order; it fails exactly if a configuration names no library |
| SyncConfig.MergedPointwise | src/core/tasks/SyncConfig.cpp:64-125 | what both loops together give every module name, whatever tree the import lists were read from |
| SyncConfig.LoopsAgreeIff | src/core/tasks/SyncConfig.cpp:81-125 | the two loops give the intended result if and only if the new and the old import list agree where it matters |
| SyncConfig.MergeIsIntended | src/core/tasks/SyncConfig.cpp:64-125 | with an exported tree: modules that are not imported keep their configuration or stay absent, imported modules of the remote list take the remote one, all others are unchanged |
| SyncConfig.MergeTwice | src/core/tasks/SyncConfig.cpp:64-125 | synchronising from the same collection again, with or without the general configuration, changes no module |
| SyncConfig.Life | src/core/tasks/SyncConfig.cpp:64-146 | after start-up with steady levels, or after any synchronisation that got as far as reloading, the set holds exactly the first module of each level, sorted by the levels now in force, through any number of further synchronisations |
| Tasks.AlwaysInv | src/core/tasks/Task.cpp:43-86 | in every interleaving of `run` and any number of `wait` calls: which callbacks have fired, who holds the lock, and who may sleep at each point |
| Tasks.NoLostWakeup | src/core/tasks/Task.cpp:70-86 | a waiter that sleeps although the task is complete still has the notification to come |
| Tasks.BackMeansCallbacksRan | src/core/tasks/Task.cpp:57-86 | a waiter is back only after the one status callback for the verdict and then the completion callback |
| Tasks.VerdictIsFinal | src/core/tasks/Task.cpp:43-91 | once the task's own code is over, verdict, completion and fired callbacks stay, whatever happens |
| Tasks.VerdictDecides | src/core/tasks/Task.cpp:43-60 | in every run a task succeeds if and only if its own code returned true, and the first callback is the one for that; code that throws fails |
| Tasks.EveryStepHelps | src/core/tasks/Task.cpp:43-86 | apart from new calls and spurious wakeups, every step of whoever is scheduled brings the runner closer to its end or the waiters closer to being back |
| Tasks.SomeStepCanBeTaken | src/core/tasks/Task.cpp:43-86 | until the runner is through and everybody is back there is such a step, whoever holds the lock: no deadlock |
| Scheduling.RunsInOrder | src/core/Scheduler.cpp:29-58 | for every interleaving of producers with the consumer: what ran is a prefix of what was queued, nothing is lost or run twice, the queue is never empty when taken from, and an update runs nothing queued after it began |
| Scheduling.UpdateRunsAll | src/core/Scheduler.cpp:42-58 | an update can end if and only if exactly what was queued when it began has run |
| Scheduling.Scheduler.Enqueue | src/core/Scheduler.cpp:35-39 | appends to the queue |
| Scheduling.Scheduler.Update | src/core/Scheduler.cpp:42-58 | runs exactly what was queued at the start, in order, ends, and leaves exactly what arrived meanwhile |
| SyncProtocol.AlwaysSafe | src/core/tasks/SyncConfig.cpp:41-146 | the invariants that tie every fetch to its remote unit and the local configuration to the progress of the merge hold in every reachable state |
| SyncProtocol.FetchedIsSnapshot | src/core/config/RemoteConfigCollector.cpp:60-109 | in every such state a fetch that reported success holds one past state of its remote unit whole |
| SyncProtocol.FetchedStaysFetched | src/core/tasks/Task.cpp:43-78 | whatever happens afterwards, its verdict and its collector are never written again |
| SyncProtocol.SyncReadsFinalCollector | src/core/tasks/SyncConfig.cpp:41-62 | whenever the main thread is inside a synchronisation the fetch has succeeded and its collection is done |
| SyncProtocol.BackupIsWhatWasThere | src/core/tasks/SyncConfig.cpp:64-68 | through every interleaving the backup is the configuration in force when the synchronisation was taken up |
| SyncProtocol.SuccessIsOneRemoteState | src/core/tasks/SyncConfig.cpp:64-146 | in every run, when "Success" is about to be sent, version and imported modules are those of one single remote state, the kernel tree is the old one or what that state's export makes of it, and name and other modules are as before; every module that was to be loaded names its library |
| SyncProtocol.FailureLeaves | src/core/tasks/SyncConfig.cpp:50-61 | in every run, what a synchronisation answered "Failed" leaves: the old configuration if the kernel tree was refused, else the merged one, nothing rolled back |
| SyncProtocol.IdentityNeverChanges | src/core/config/ConfigManager.cpp:186-228 | through any number of synchronisations from any remote units, instance name, import list and configuration file name never change, and the file name stays listed once |
| SyncAnswers.EveryRequestAnswered | src/core/RemoteControl.cpp:260-325 | in every run: "DELAYED" first, then at most one final answer, "Aborted" for a failed fetch and "Success" or "Failed" otherwise, to the client that asked and with its guid, and exactly one once fetch thread and main thread are through |
| SyncAnswers.AboutParts | src/core/RemoteControl.cpp:286-299 | the answers counted for a request are exactly those sent with its guid, in order |
| SyncAnswers.AlwaysAnswers | src/core/RemoteControl.cpp:94-152 | conservation: for each request the pending duties and the final answers together are always exactly one |
| SyncAnswers.OnlyPermittedAreAnswered | src/core/RemoteControl.cpp:116-143 | every answer about a synchronisation, in any run, goes to a client whose key the security configuration, read directly, allows to ask for one |
| SyncAnswers.RefusalIsTold | src/core/RemoteControl.cpp:136-151 | a client that may not ask is told so, and nothing else changes |
| SyncAnswers.EverySuccessWasTakenOver | src/core/RemoteControl.cpp:286-304 | every "Success" ever sent, in any run, was sent when one single remote state had just been taken over for that request |
| SyncAnswers.StepSends | src/core/RemoteControl.cpp:301-308 | a step sends at most one message, and "Success" only for a synchronisation that has gone through |
| SyncRuns.AlwaysTasks | src/core/tasks/Task.cpp:43-86 | what holds of one task in every run of it holds of the fetch task of every request in every run of the protocol |
| SyncRuns.IncompleteDuringSyncIff | src/core/tasks/SyncConfig.cpp:43 | during a synchronisation the fetch task is incomplete if and only if its thread is between the status callback and storing the flag |
| SyncRuns.SyncBeforeCompletion | src/core/tasks/Task.cpp:57-72 | a run of properly configured units, in states that units can be in, in which a synchronisation begins before the fetch task has stored its completion |
| SyncRuns.SyncCanStartEarly | src/core/tasks/Task.cpp:57-72 | such a run exists from every start with a known remote unit |
| SyncRuns.SyncCanSucceed | src/core/tasks/SyncConfig.cpp:64-146 | from every start a synchronisation can go through if the export and the local `sync_dest` are readable and every module that is to be loaded names its library |
| SyncRuns.TakenOverCouldBe | src/core/tasks/SyncConfig.cpp:64-146 | and only then: a state that was taken over met these conditions |
| SyncProgress.EveryStepHelps | src/core/kernel.cpp:166-176 | every step of the unit itself, other than waiting, polling with nothing queued and ending the loop, lowers a measure of what is left until all is answered |
| SyncProgress.OthersDoNotHurt | src/core/kernel.cpp:166-176 | waiting, idle polling, remote changes and a request to stop leave that measure as it is |
| SyncProgress.SomeStepHelps | src/core/RemoteControl.cpp:301-319 | while a request lacks its final answer and the loop has not ended, a step that lowers the measure can be taken |
| SyncProgress.AnswerPossibleIff | src/core/kernel.cpp:166-184 | in every run a request can still get its final answer, with nothing from outside, if and only if the main loop has not ended or it has had it |
| SyncProgress.WhyTheLoopEnds | src/core/tasks/SyncConfig.cpp:69-75 | the main loop ends only after a stop from outside or after a general configuration was taken over |
| SyncProgress.ExitedIsSilent | src/core/kernel.cpp:457-474 | once the loop has ended nothing more is sent |
| SyncProgress.RequestCanBeLeftBehind | src/core/kernel.cpp:441-474 | from every start from which a general configuration can be taken over, a later client can be left with "DELAYED" and nothing more |
| SyncProgress.SomeoneIsLeftBehind | src/core/kernel.cpp:441-474 | such a run of properly configured units |
| Zones.ValidatorAcceptsTrees | src/core/auth/Zone.cpp:121-171 | on every graph, cyclic ones included, the validator ends; it accepts if and only if no zone is reached twice and every reached zone meets the parent rule; the visited set is then exactly what is reached |
| Zones.VisitIff | src/core/auth/Zone.cpp:132-171 | the same for a visit that starts with some zones already visited |
| Zones.RuleMeaning | src/core/auth/Zone.cpp:151-162 | the parent rule without counting: a physical zone is named by physical zones in at most one place, a logical one in none |
| Zones.Validate | src/core/auth/Zone.cpp:132-184 | the recursive code with its shared set computes `Visit` |
| Zones.CountPhysicalParents | src/core/auth/Zone.cpp:134-149 | the loop counts the places where physical zones name the zone |
| Zones.StoreKeepsAcyclic | src/core/auth/Zone.cpp:111-130 | if what is below the stored zone is a tree, the whole graph stays free of cycles |
| Zones.StoreKeepsGlobalRules | src/core/auth/Zone.cpp:111-171 | storing a zone, or rolling it back, keeps the rules of the whole graph although only its descendants are looked at |
| Zones.RemoveKeepsGlobalRules | src/modules/websock-api/api/ZoneCRUD.cpp:145 | removing a zone nobody names keeps the rules |
| Zones.EveryRunKeepsGlobalRules | src/core/auth/IZone.hpp:42-45 | after every run of creations, updates and removals: no cycle, no logical zone with a physical parent, no physical zone with two |
| Zones.EveryRunIsSound | src/core/auth/IZone.hpp:42-45 | the same in the words of the documentation: no chain of children returns to its start, and who may name whom |
| Zones.ApplyMeaning | src/core/auth/Zone.cpp:111-119 | exactly which creations, updates and removals are accepted; an accepted one changes its own zone only, a refused one nothing |
| Zones.UnchangedAcceptedIffTree | src/core/auth/Zone.cpp:121-130 | in a graph that keeps the rules a zone can be stored again unchanged if and only if no zone below it is shared |
| Zones.SharedZoneBlocksItsAncestors | src/core/auth/IZone.hpp:44-45 | a run after which a zone that was accepted is refused as it stands |
| Zones.ZoneStore.Store | src/core/auth/Zone.cpp:111-119 | accepts exactly trees that meet the rule and then changes that zone only, leaves everything as it was otherwise, and keeps the global rules |
| Audit.Store | src/core/audit/AuditEntry.cpp:44-55 | writing an entry ends after writing it and each entry above it exactly once, and no other |
| Audit.AncestorsDistinct | src/core/audit/AuditEntry.cpp:44-55 | no entry is above itself, and none is met twice on the way up |
| Audit.AncestorsAreClimbs | src/core/audit/AuditEntry.cpp:49-53 | the entries above are exactly those met on following the parent links, in order |
| Audit.SetParent | src/core/audit/AuditEntry.cpp:95-109 | both links are set and the author is inherited if there is none; afterwards links are mirrored and every climb ends if and only if the entry had no parent and the new parent is not below it; if it is below, the climb from the entry never ends |
| Audit.ParentBelowMakesCircle | src/core/audit/AuditEntry.cpp:95-109 | if the new parent is below the entry, then from anywhere below it, and however far one climbs, there is another entry above |
| Audit.ForestClimbsEnd | src/core/audit/AuditEntry.cpp:44-55 | in a forest every climb ends |
| Audit.Link | src/core/audit/AuditEntry.cpp:104-105 | after the two assignments the links are mirrored if and only if the entry had no parent before |
| Audit.RemoveParent | src/core/audit/AuditEntry.cpp:111-121 | both links are removed, the other children stay in order, and the entries stay a forest |
| Audit.WithoutParts | src/core/audit/AuditEntry.cpp:117-119 | the other children stay in order |
| Audit.Finalize | src/core/audit/AuditEntry.cpp:57-70 | the elapsed time is added and the entry stored the first time only |
| Audit.AuditTrail.Create | src/core/audit/UserEvent.cpp:30-55 | a new entry is linked on both sides and keeps the forest; it is written twice if it has a parent, and each entry above it once |
| Audit.AuditTrail.RunAll | src/core/audit/AuditEntry.cpp:44-121 | after every run of creations, detachments and finalisations links mirror each other, each child is listed once, there is no circle, and each duration is what the first finalisation added |
| Cards.ValidateCardId | src/core/credentials/RFIDCard.cpp:117-142 | the stream loop ends and accepts a text if and only if, white space aside, it is two hexadecimal digits followed by any number of groups of a colon and two digits |
| Cards.CardFormatIff | src/core/credentials/RFIDCard.cpp:117-142 | the card format place by place: a colon at every third, hexadecimal digits elsewhere |
| Cards.CharClasses | src/core/credentials/RFIDCard.cpp:127-128 | the characters that count as white space and as digits |
| Cards.StripParts | src/core/credentials/RFIDCard.cpp:127-131 | leaving out white space keeps every other character in order |
| Cards.MakeCard | src/core/credentials/RFIDCard.cpp:28-32 | a card is made exactly from a text of that format and a positive bit count |
| Cards.CreateSimpleCsn | src/core/auth/AuthSourceBuilder.cpp:33-50 | exactly which serial numbers make a card, and with eight bits per digit |
| Cards.CsnIsPlainHex | src/core/auth/AuthSourceBuilder.cpp:43-49 | a serial number of up to eight bytes without white space gives its plain hexadecimal value, both raw and formatted, although its bit count is sixteen per byte |
| Cards.RawOfHex | src/core/credentials/RFIDCard.cpp:44-56 | digits are read whole and then lose the filling bits; it fails if they exceed 64 bits |
| Cards.ReadsText | src/core/credentials/RFIDCard.cpp:52 | how any text is read: white space, then digits up to the first other character, failing without digits or above 64 bits |
| Cards.RemoveColonsNext | src/core/credentials/RFIDCard.cpp:46 | removing colons keeps every other character in order |
| Cards.CaseDoesNotMatter | src/core/credentials/RFIDCard.cpp:52 | upper and lower case digits give the same number |
| Cards.DigitMeaning | src/core/credentials/RFIDCard.cpp:52 | what each digit is worth, in either case |
| Cards.FillingMeaning | src/core/credentials/RFIDCard.cpp:53-54 | how many bits are dropped for every positive bit count, and when the shift is undefined |
| Cards.PlainInt | src/core/credentials/RFIDCard.cpp:58-71 | every bit count but 26 and 34 gives the raw number |
| Cards.FormatDigits | src/core/credentials/RFIDCard.cpp:46 | without its colons a text of card format is all digits, an even number of them, two per byte |
| Wiegand.WireToNumber | src/core/credentials/RFIDCard.cpp:44-56 | 1 to 64 bits, left-justified in bytes with anything behind them, are printed as a text that the validator accepts and that decodes to the number they spell |
| Wiegand.WireToFormat | src/core/credentials/RFIDCard.cpp:73-97 | for 26 and 34 bits the formatted number is the 16 or 24 bits before the last one |
| Wiegand.CardTextFormat | src/modules/wiegand/strategies/SimpleWiegandStrategy.cpp:44-52 | the printed text has card format and three characters per byte less one |
| Wiegand.PrintedByte | src/modules/wiegand/strategies/SimpleWiegandStrategy.cpp:48-49 | a byte is printed as two digits that spell it |
| Wiegand.ValueIsWeightSum | src/modules/wiegand/WiegandReaderImpl.cpp:96-108 | the number that bits spell is the sum of their place values, the first bit being the highest |
| Wiegand.MaskIsShift | src/modules/wiegand/WiegandReaderImpl.cpp:100 | bits are written from the highest of a byte to the lowest |
| Wiegand.WiegandReader.HandleBit | src/modules/wiegand/WiegandReaderImpl.cpp:91-115 | one interrupt writes one bit and no other, and the interrupt after 128 only resets the count |
| Wiegand.WiegandReader.HandleBits | src/modules/wiegand/WiegandReaderImpl.cpp:91-115 | a burst of any length leaves exactly the bits since the last overrun at the front of the buffer |
| Wiegand.WiegandReader.Timeout | src/modules/wiegand/strategies/SimpleWiegandStrategy.cpp:36-57 | prints exactly the bytes that hold received bits, with the bit count, or nothing |
| Wiegand.WiegandReader.ReadReset | src/modules/wiegand/WiegandReaderImpl.cpp:192-196 | count and buffer are zero |
| Wiegand.WiegandReader.ReadCard | src/modules/wiegand/WiegandReaderImpl.cpp:117-129 | end to end: a burst of which 1 to 64 bits are left gives the number they spell, one of which nothing is left gives no card, and the reader is ready again |
| Wiegand.WiegandReader.ReadCards | src/modules/wiegand/WiegandReaderImpl.cpp:91-129 | any sequence of bursts, each followed by silence, is decoded card by card, overruns included |
| AccessProfiles.SimpleAccessProfile.IsAccessGranted | src/core/auth/SimpleAccessProfile.cpp:27-53 | grants exactly if a general schedule or one of the door covers the date, and leaves an empty row behind exactly if it had to look for one that was not there |
| AccessProfiles.SimpleAccessProfile.AddAccessSchedule | src/core/auth/SimpleAccessProfile.cpp:55-62 | appends to the row of the door, or to the general schedules, and to nothing else |
| AccessProfiles.OneMoreSchedule | src/core/auth/SimpleAccessProfile.cpp:27-62 | with one more schedule access is granted exactly where it was before, or where the schedule covers the date for a door it is meant for; an empty profile grants nothing |
| AccessProfiles.GrantsMeaning | src/core/auth/SimpleAccessProfile.cpp:27-53 | access means that some general schedule or some schedule of the door covers the date |
| AccessProfiles.Merge | src/core/auth/ProfileMerger.cpp:28-71 | a new profile with the schedules of both, row by row; the two stay as they are |
| AccessProfiles.MergeIsDisjunction | src/core/auth/ProfileMerger.cpp:28-71 | for every date and every door or none, the merged profile grants if and only if one of the two does |
| AccessProfiles.QuestionsChangeNothing | src/core/auth/SimpleAccessProfile.cpp:40-51 | no sequence of questions changes a later decision of the profile or of any merge built from it |
| RemoteSecurity.TablesAnswerDirectly | src/core/RemoteControlSecurity.cpp:49-97 | with distinct keys and distinct commands per key, the compressed tables answer every request of every client as a direct look at the configuration would |
| RemoteSecurity.AllowsMeaning | src/core/RemoteControlSecurity.cpp:49-97 | from the texts of an entry alone: the command's own value decides if there is one, else the default, and without a default the answer is no |
| RemoteSecurity.UnknownIsRefused | src/core/RemoteControlSecurity.cpp:55-62 | a key that no entry names may do nothing |
| RemoteSecurity.ProcessIff | src/core/RemoteControlSecurity.cpp:71-90 | a configuration can be used if and only if every entry names a key and gives every command a truth value |
| RemoteSecurity.RemoteControlSecurity.ProcessSecurityEntry | src/core/RemoteControlSecurity.cpp:71-97 | fails exactly for a missing key or an unreadable value; otherwise the default and the list of differing commands are recorded, with a row even if there are none |
| RemoteSecurity.RemoteControlSecurity.ProcessConfig | src/core/RemoteControlSecurity.cpp:33-47 | without a security section everything is allowed, otherwise the tables are those of all entries |
| RemoteSecurity.RemoteControlSecurity.AllowRequest | src/core/RemoteControlSecurity.cpp:49-69 | the answer of the tables, or yes when nothing is restricted |
| RemoteSecurity.ExceptionsFacts | src/core/RemoteControlSecurity.cpp:79-90 | a command is on the list exactly if its own value differs from the default |

## Left out

- SuccessIsSnapshot: assumes that the remote version never falls and rises with every change of the modules, because the code relies on it and does not check it.
- GenuineIsDistinct: assumes that the remote unit's own module set is in order.
- ModuleManagerInit: stops where a repeated name takes the set out of order, because what `std::set` does then is undefined.
- TablesAnswerDirectly: assumes distinct keys and distinct commands per key, because repeated ones have no single direct reading.
- CsnIsPlainHex: is about texts without white space; the validator accepts white space anywhere, but reading a number stops at the first one after a digit.
- Assertions of the C++ code are taken as compiled out, except that pointers are not null; a library that is missing after a synchronisation is only reported.
- Sockets, encryption, pollers and timeouts: a request is answered by the remote state of that moment or lost.
- Database, transactions and lazy pointers: inverse collections are assumed to mirror the forward ones, a throwing callback rolls the change back, and a zone that another one names cannot be removed.
- C++ memory ordering: steps are sequentially consistent at the grain of the lock sections; `success_` is read as written.
- Exceptions thrown by task callbacks, and the responses' own task objects.
- What the next kernel does after a restart, what a fetch thread then does to a scheduler that is gone, how long the loop drains, and an abrupt exit on a second interrupt; saving the configuration; writing additional files.
- Dynamic libraries: a set of files that can be opened, and a set of modules that fail to start, are parameters.
- Property tree paths with dots, white space around numbers and truth values, and truth values other than `1`, `0`, `true` and `false`; XML and archive formats.
- Signs and a `0x` prefix in front of card numbers, which a validated text cannot hold; shifts by a negative amount, for bit counts over 64 that are not whole bytes, count as a failure.
- Wiegand bus messages that are neither high nor low, what is decoded from more than 64 bits, green LED and buzzer, and the pin-code strategies.
- Expiry of the weak link to an audit parent, event masks, descriptions and the various event types.
- Schedules are predicates on dates; time frames and the calendar are not modelled.
- Request identifiers are request numbers, so that they are distinct by construction.
- User security contexts, hardware facades, alarms, membership comparison, the web socket API and the remaining commands of remote control, which are lookups and field copies.
