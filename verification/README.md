# libsystemd, verified

This project models the service manager of `libsystemd`: its unit registry (`app/libsystemd/src/serviceapi.c`) and its
stop-request registry (`app/libsystemd/src/stoprequest.c`). `dafny verify dfyconfig.toml` checks all of it.

| files | what they model |
|---|---|
| `StartOrder`, `Relaxation` | the in-place relaxation that gives every unit its starting order |
| `Supervision`, `SupervisionRuns`, `Supervisor` | start, exit callback, restart policy, main-PID hand-over and stop of process-backed units |
| `LibraryUnits` | library units that share one module |
| `StopRequests`, `StopRegistry`, `StopProtocol` | the stop-request registry and the services that wait on their semaphores |
| `Expansion`, `Tokenizer`, `UnitNames`, `UnitFiles` | specifiers, argument vectors and name lists, template and instance names, from unit files to units |
| `Registry`, `RegistryStore` | the lists of units, templates, rules, devices and configuration directories, and the methods that change them in place |
| `RegistryStarts`, `RegistryRuns`, `RegistryThreads`, `RegistryConfluence`, `RegistryBoot`, `RegistrySections`, `RegistryMounts`, `RegistryConfigDirs`, `RegistryUnmount`, `RegistryStartOrder` | what those methods guarantee over runs and interleavings |
| `Services`, `Search`, `Errno`, `Wrappers` | the unit record and the service object, first-match search, error numbers, optional values |

What the C code does step by step is a method, on the fields of a class or on an array, and its contract equates the result
or the new state with a specification function. What the code promises is then proved of those functions, over all runs.

The operating system and the file system are environments. Process numbers are fresh, a terminating process runs each of its
exit registrations once, semaphores saturate, locks exclude. Whether a spawn, a kill, a callback or a module operation
succeeds, and when processes exit, is an input of each operation or is chosen arbitrarily. A disk says what each file parses
to; a directory tree is given as its entries in the order of the walk, a rules directory as its sections.

Where the code and its documentation differ, the code is modelled:

- `app/libsystemd/docs/configuration.md:214-217` says that units are not instantiated on demand; `libsystemd_start_service`
  does so.
- `app/libsystemd/docs/configuration.md:129` and `app/libsystemd/docs/api-reference.md:94` say that the exit callback is
  registered only when `restart` is not `no`; it is always registered, because it also releases the unit's PID.
- `app/libsystemd/docs/configuration.md:241-243` and the comment above `libsystemd_substitute_mount_specifier` say that `%%`
  is taken as it is in a plain unit; the code replaces the `%m` in `%%m` (`Expansion.PlainReadsAsDocumentedIff`).
- The loop documented with `libsystemd_set_stop_semaphore` loses no wakeup; a client that registers another semaphore between
  the check and the wait may, and only such a client (`StopRequests.NoWakeupLostIff`).
- A device reported early ends up started "regardless of call order"; an unmount is the exception, since it does not replay
  devices (`RegistryUnmount.UnmountServesIff`).

## Model

| member | source | states |
|---|---|---|
| StartOrder.ResolveIsLongest | app/libsystemd/src/serviceapi.c:794-894 | whatever non-negative orders it begins with, the relaxation gives every unit that cannot reach a cycle exactly the weight of its longest dependency path (the order the path's end begins with, plus one per step); from zero that is its longest dependency chain |
| StartOrder.ConvergesWithinBound | app/libsystemd/src/serviceapi.c:881-894 | without cycles the fixed point is reached one pass before the bound of the loop |
| StartOrder.ReachesFixedPointIffAcyclic | app/libsystemd/src/serviceapi.c:881-894 | the bounded loop ends at the fixed point if and only if the dependencies have no cycle |
| StartOrder.ResolveWithinBounds | app/libsystemd/src/serviceapi.c:829-894 | with or without cycles orders never decrease, and none exceeds the greatest initial order plus the square of the number of units |
| StartOrder.UnchangedPassIsStable | app/libsystemd/src/serviceapi.c:881-894 | a pass changes nothing if and only if the orders are a fixed point, which is what lets the loop stop early |
| StartOrder.StopEarly | app/libsystemd/src/serviceapi.c:881-894 | stopping after such a pass gives the orders all remaining passes would give |
| StartOrder.StaleOrdersHarmlessIff | app/libsystemd/src/serviceapi.c:881-894 | resolving again from existing orders gives every unit that reaches no cycle its longest chain if and only if none of these units carries an order above its chain already |
| StartOrder.AppendedUnitsResolveAsFromScratch | app/libsystemd/src/serviceapi.c:4784-4796 | if none is above its chain, resolving a registry that a mount has appended units to gives every unit that reaches no cycle what it would get from scratch, and again leaves none above its chain |
| StartOrder.ChainsFollowTheirNodes | app/libsystemd/src/serviceapi.c:3812-3813 | sorting a list of distinct names, after its orders were resolved, takes the longest chain of every unit that reaches no cycle along, so the orders are right for the sorted list too |
| StartOrder.MountAfterScanResolvesAsFromScratch | app/libsystemd/src/serviceapi.c:3812-3813 | so with distinct names a mount after a scan resolves, from the orders the sorted units carry or lower ones, as from scratch for every unit that reaches no cycle |
| StartOrder.DuplicateNamesLeaveStaleOrders | app/libsystemd/src/serviceapi.c:3812-3813 | with duplicate names it need not: a tree and a sort of it after which an order stays above its unit's longest chain |
| StartOrder.RemovedUnitsLeaveStaleOrders | app/libsystemd/src/serviceapi.c:4784-4796 | after an unmount it need not: a unit keeps an order that counted on a removed dependency |
| StartOrder.StartsAfterDependencies | app/libsystemd/src/serviceapi.c:707-712 | in any subset of the registry started in ascending order, a unit that reaches no cycle starts after each of its dependencies in the subset, however equal orders are arranged and even if other units are on cycles |
| Relaxation.FoldDependencies | app/libsystemd/src/serviceapi.c:794-807 | the visitor's loop raises the maximum to one more than the order of each registered dependency, first match by name |
| Relaxation.RelaxService | app/libsystemd/src/serviceapi.c:829-847 | one unit is relaxed in place, over `requires` and then `after`, and a change is reported exactly when its order changed |
| Relaxation.ResolveStartingOrder | app/libsystemd/src/serviceapi.c:881-894 | the in-place loop with its bound and early exit leaves the orders that the specification gives |
| Supervision.CallbackKeeps | app/libsystemd/src/serviceapi.c:1158-1187 | running one exit callback, a restart included, keeps the supervision invariant while further callbacks of the dead process are still to run |
| Supervision.ExitKeepsInv | app/libsystemd/src/serviceapi.c:1158-1187 | a process exit keeps it: every registration on a live process belongs to a unit that is not destroyed and whose `pid` is that process, and a positive `pid` equals `last_pid` |
| Supervision.NotifyKeepsInv | app/libsystemd/src/serviceapi.c:3577-3635 | a main-PID hand-over keeps it |
| SupervisionRuns.NextKeepsInv | app/libsystemd/src/serviceapi.c:929-975 | every operation - create, start, hand-over, exit, either half of a stop, destroy - keeps it |
| SupervisionRuns.ReachableStatesAreSupervised | app/libsystemd/src/serviceapi.c:1087-1402 | it holds in every state of every serialised run |
| SupervisionRuns.ExitEffect | app/libsystemd/src/serviceapi.c:1158-1187 | an exit releases, or restarts if the policy calls for it, exactly the units whose main process it was and that are supervised; every other unit is unchanged |
| SupervisionRuns.UntrackedExitIsInert | app/libsystemd/src/serviceapi.c:1158-1187 | the exit of a process no unit tracks changes no unit and spawns nothing |
| SupervisionRuns.LiveProcessStaysTracked | app/libsystemd/src/serviceapi.c:1087-1187 | no operation takes a live process away from its unit and leaves it running: while it is there it stays the main process, unless that very unit is handed over |
| SupervisionRuns.StartOutcome | app/libsystemd/src/serviceapi.c:1087-1150 | a start returns 0 if and only if no process of the unit lives and the spawn succeeds, and then the new process is the main and the last one, supervised if it lives and takes the registration; otherwise -EALREADY or the spawn's error, and nothing has changed |
| SupervisionRuns.NotifyOutcome | app/libsystemd/src/serviceapi.c:3577-3635 | a hand-over returns 0 if and only if the process lives and a unit is found, whatever became of the launcher; then the process is the unit's main process and no other unit has changed; each error with its cause, and without effect |
| SupervisionRuns.LauncherExitAfterHandOver | app/libsystemd/src/serviceapi.c:3577-3635 | after a hand-over the launcher's own exit leaves the unit with its new main process |
| SupervisionRuns.StoppingUnitIsLeftAlone | app/libsystemd/src/serviceapi.c:1322-1356 | between the halves of a stop any exits, with any status and policy, leave the unit as the stop left it |
| SupervisionRuns.EndStopEffect | app/libsystemd/src/serviceapi.c:1345-1368 | a stop that returns 0 has released the unit and its process is gone; the only error is a failed kill of a process that is still there, and it changes nothing |
| SupervisionRuns.DeliberateStopNeverRespawns | app/libsystemd/src/serviceapi.c:1260-1368 | over a whole stop, through any exits during the grace period, the unit is never respawned; success leaves `pid` -1 and the process gone, a failed kill leaves it tracked |
| SupervisionRuns.SpawnsWithinBudget | app/libsystemd/src/serviceapi.c:1158-1187 | one operation spawns no more than it has to: one process for a start, one for each unit the exit makes due for a restart, none for the stopped unit |
| SupervisionRuns.EverySpawnIsAccountedFor | app/libsystemd/src/serviceapi.c:1087-1187 | over a whole run every process spawned is accounted for by an explicit start or by an exit that qualifies under a unit's policy |
| Supervisor.Manager.AttachExitCallback | app/libsystemd/src/serviceapi.c:929-946 | registers the callback on the live main process and records its handle, or clears the handle |
| Supervisor.Manager.DetachExitCallback | app/libsystemd/src/serviceapi.c:957-975 | takes exactly the unit's own registration off its process |
| Supervisor.Manager.StartService | app/libsystemd/src/serviceapi.c:1087-1150 | refuses a unit whose process lives, leaves a unit as it was when the spawn fails, and otherwise tracks and supervises the new process |
| Supervisor.Manager.ExitCallback | app/libsystemd/src/serviceapi.c:1158-1187 | releases the unit and, if the policy calls for it, starts it again |
| Supervisor.Manager.ProcessExits | app/libsystemd/src/serviceapi.c:1158-1187 | a terminating process runs each of its registered callbacks once, in order |
| Supervisor.Manager.FindByPid | app/libsystemd/src/serviceapi.c:764-780 | the first service with that main PID; a non-positive PID matches none |
| Supervisor.Manager.NotifyMainPid | app/libsystemd/src/serviceapi.c:3577-3635 | the first unit of that name, or the one whose main process is the caller, is handed over; the error cases change nothing |
| Supervisor.Manager.WaitForExit | app/libsystemd/src/serviceapi.c:1228-1250 | with the 32-bit counter of the C code: it never wraps, at most ceil(timeout/10) sleeps are made, and giving up means that at least the whole timeout was slept |
| Supervisor.Manager.RequestGracefulStop | app/libsystemd/src/serviceapi.c:1260-1281 | no wait for a zero timeout, for the caller itself or for a process that did not register; otherwise as above |
| Supervisor.Manager.BeginStop | app/libsystemd/src/serviceapi.c:1322-1345 | a unit without a live process is released and reported, otherwise its callback is detached before anything else |
| Supervisor.Manager.EndStop | app/libsystemd/src/serviceapi.c:1346-1368 | the process is looked up again and killed only if it is still there; a failed kill is reported and leaves the unit tracking it |
| Supervisor.Manager.StopService | app/libsystemd/src/serviceapi.c:1322-1368 | the whole stop: no respawn, success means process gone and `pid` -1, and a registered process is killed only after its whole timeout unless it stops itself |
| LibraryUnits.NextKeepsInv | app/libsystemd/src/serviceapi.c:984-1044 | starts and stops keep flags and callbacks in step and never disable a module with callbacks |
| LibraryUnits.InterferenceKeepsInvIff | app/libsystemd/src/serviceapi.c:984-1044 | somebody else's disabling of the module, or a new generation of units, keeps them in step if and only if no unit is started |
| LibraryUnits.InStepThroughoutIff | app/libsystemd/src/serviceapi.c:984-1044 | they stay in step throughout a run if and only if each such interference falls on a state with no unit started |
| LibraryUnits.QuietIsReported | app/libsystemd/src/serviceapi.c:1461-1473 | a caller can tell: no unit is started if and only if none is reported as running |
| LibraryUnits.FlagsFollowCallbacks | app/libsystemd/src/serviceapi.c:984-1044 | after every such run the successful callbacks alternate for each unit name, beginning with START; a unit's flag is up if and only if the last one was START, which is when it is reported as running |
| LibraryUnits.UnitsAreIndependent | app/libsystemd/src/serviceapi.c:1017-1044 | starting or stopping one unit never changes another |
| LibraryUnits.ErrorsChangeNoUnit | app/libsystemd/src/serviceapi.c:984-1044 | an operation that reports an error leaves every unit as active or inactive as it was |
| LibraryUnits.InterferenceRepeatsStart | app/libsystemd/src/serviceapi.c:984-1015 | what happens otherwise: the next start of a unit that was started calls START again without a STOP |
| LibraryUnits.StartOutcome | app/libsystemd/src/serviceapi.c:984-1015 | in every state of the module: a start that returns 0 has called START, once, and the unit runs, the very first one included; a unit that runs is reported as such and not started again; otherwise the result is what START reports, and the unit runs exactly if that is success |
| LibraryUnits.StartLeavesNothingBehind | app/libsystemd/src/serviceapi.c:984-1004 | a module that cannot be loaded or enabled, or that has half a pair of callbacks, is refused and put back as far as unloading succeeds |
| LibraryUnits.StopOutcome | app/libsystemd/src/serviceapi.c:1017-1044 | a stop that returns 0 leaves the unit not running; one that runs by a callback is stopped exactly by STOP, whose failure is reported and leaves it running |
| LibraryUnits.StopWhileDisabled | app/libsystemd/src/serviceapi.c:1017-1029 | with the module disabled nothing is called: a left-over flag is taken down, a loaded module unloaded, and a unit that was not started reported |
| LibraryUnits.PlainModuleLifecycle | app/libsystemd/src/serviceapi.c:1041-1043 | a module without callbacks is disabled and unloaded by the stop, each failure reported; the stop undoes the start |
| LibraryUnits.CallbacksAreTheSuccesses | app/libsystemd/src/serviceapi.c:984-1044 | over any run, whatever others do, the callbacks that succeeded for a unit are one START for each of its starts that returned 0 and one STOP for each stop that did so while it ran, in that order |
| LibraryUnits.RescanKeepsInvIff | app/libsystemd/src/serviceapi.c:1384-1431 | a rescan, which ignores what stopping the previous generation reports, keeps callbacks alternating for every unit name if and only if the STOP of every started unit succeeds |
| LibraryUnits.SharedModule.StartLibrary | app/libsystemd/src/serviceapi.c:984-1015 | loading, enabling, the missing half of a callback pair and the callback itself, with every error path |
| LibraryUnits.SharedModule.StopLibrary | app/libsystemd/src/serviceapi.c:1017-1044 | the reverse, for modules with and without callbacks |
| StopRequests.RunRefinesRegisters | app/libsystemd/src/stoprequest.c:67-187 | in every interleaving of lock sections there is at most one entry per process, and it is what that process's own sections and the requests sent to it make of it |
| StopRequests.RequestIsSticky | app/libsystemd/src/stoprequest.c:294-325 | a request stays until the entry is cleared or its process exits, even across registering again |
| StopRequests.NoPostAfterRelease | app/libsystemd/src/stoprequest.c:233-250 | once the call that cleared or replaced a semaphore has returned no request posts it, unless it is registered again |
| StopRequests.ReleasedByOwner | app/libsystemd/src/stoprequest.c:294-325 | clearing, replacing or exiting is such a release |
| StopRequests.RequestPostsKeptSemaphore | app/libsystemd/src/stoprequest.c:233-250 | after a check that saw no request, while the process registers nothing but the same semaphore, a request is on record if and only if a post went to that semaphore since |
| StopRequests.ReplacingBeforeWaitLosesPost | app/libsystemd/src/stoprequest.c:284-325 | in any registry, a request that comes while another semaphore is registered, between the check and the wait, is on record without a post to the one the process goes on to wait on |
| StopRequests.NoWakeupLostIff | app/libsystemd/src/stoprequest.c:284-325 | no interleaving, the process clearing its entry or exiting included, loses the wakeup if and only if every semaphore the process registers between the check and the wait is the one it waits on |
| StopRegistry.Registry.TakeEntry | app/libsystemd/src/stoprequest.c:75-84 | takes out the entry of the process, and only that |
| StopRegistry.Registry.SendRequest | app/libsystemd/src/stoprequest.c:233-250 | returns true if and only if there is an entry, and then sets its flag and posts its current semaphore once |
| StopRegistry.Registry.AddEntry | app/libsystemd/src/stoprequest.c:147-175 | adds an entry and the exit callback that will drop it |
| StopRegistry.Registry.SetStopSemaphore | app/libsystemd/src/stoprequest.c:294-325 | creates, replaces or removes the caller's entry; the errors change nothing |
| StopRegistry.Registry.ProcessTerminates | app/libsystemd/src/stoprequest.c:120-139 | a terminating process loses its entry and its callbacks |
| StopRegistry.Registry.Deinit | app/libsystemd/src/stoprequest.c:207-231 | unloading leaves no entry and no exit callback behind |
| StopProtocol.NextKeepsInv | app/libsystemd/src/stoprequest.c:284-290 | every step of the documented client loop, of stoppers and of kills keeps the protocol's invariant |
| StopProtocol.NoLostWakeup | app/libsystemd/src/stoprequest.c:284-290 | in every interleaving a process that was told to stop and is about to wait, or waiting, finds its semaphore posted, even if the post met a full semaphore |
| StopProtocol.NoPostAfterDestroy | app/libsystemd/src/stoprequest.c:233-250 | no request ever posts a destroyed semaphore |
| StopProtocol.RequestedIsNeverBlocked | app/libsystemd/src/stoprequest.c:284-290 | a process that was told to stop can always take its next step in the loop |
| StopProtocol.RequestedLeavesLoop | app/libsystemd/src/stoprequest.c:284-290 | it leaves the loop with its third loop step at the latest, so it waits at most once more |
| Expansion.ExpandEscape | app/libsystemd/src/serviceapi.c:2177-2248 | doubling every % and expanding gives the text back, so inserted text is never scanned again |
| Expansion.SpecifiersStandFor | app/libsystemd/src/serviceapi.c:2198-2240 | between any two texts %i and %I are the instance, %p the prefix, %n the unit name, %v the value or nothing, %m the mount point without trailing slashes or nothing |
| Expansion.OtherPercentsAreKept | app/libsystemd/src/serviceapi.c:2207-2213 | a % before any other character, or at the end, is kept |
| Expansion.ExpandDistributesIffSettled | app/libsystemd/src/serviceapi.c:2177-2248 | expansion distributes over concatenation for every right part if and only if the left part leaves no unpaired % |
| Expansion.MountSpecifierLength | app/libsystemd/src/serviceapi.c:2084-2092 | the length that drops trailing slashes |
| Expansion.MeasureExpansion | app/libsystemd/src/serviceapi.c:2177-2213 | the measuring loop counts exactly the length of the expansion |
| Expansion.SubstituteSpecifiers | app/libsystemd/src/serviceapi.c:2177-2248 | the writing loop stays inside the measured buffer, fills it exactly, and writes the left-to-right expansion |
| Expansion.ReplaceIsSplitAndJoin | app/libsystemd/src/serviceapi.c:2109-2148 | replacing a token is cutting the text at its occurrences and joining the pieces with the new text |
| Expansion.PlainReadsAsDocumentedIff | app/libsystemd/src/serviceapi.c:2094-2148 | replacing every %m of a plain unit's value gives what the documentation says (%% is taken as it is) if and only if, read from the left, no %% is followed by m - or the mount point itself reads %m |
| Expansion.PlainUnitExpandsInsideDoubledPercent | app/libsystemd/src/serviceapi.c:2109-2148 | so a plain unit expands the %m inside %%m, which a template instance does not; %%%m comes out as documented |
| Expansion.SubstituteToken | app/libsystemd/src/serviceapi.c:2109-2148 | the two passes of the %m expander agree in the same way |
| Expansion.SubstituteDeviceName | app/libsystemd/src/serviceapi.c:2362-2402 | and those of the %name expander |
| Tokenizer.TokensOfWeave | app/libsystemd/src/serviceapi.c:1559-1641 | tokens without separators, joined by any separator runs, are found again |
| Tokenizer.TextIsWeave | app/libsystemd/src/serviceapi.c:1559-1641 | any text is exactly its tokens and the separators between them, so tokens are maximal and nothing is lost |
| Tokenizer.SeparatorsAre | app/libsystemd/src/serviceapi.c:1571-1634 | arguments are separated by blanks and tabs and by nothing else, names by commas too: any such spacing of such tokens is read back |
| Tokenizer.CountTokens | app/libsystemd/src/serviceapi.c:1565-1590 | the counting pass finds that many tokens |
| Tokenizer.CutToken | app/libsystemd/src/serviceapi.c:1612-1634 | one round of the destructive pass cuts off the next token in place |
| Tokenizer.BuildArgv | app/libsystemd/src/serviceapi.c:1559-1641 | both passes find the same tokens: every index stays below argc, and the vector is the executable, the tokens and the sentinel |
| Tokenizer.ParseNameList | app/libsystemd/src/serviceapi.c:1738-1791 | the comma, space and tab list gives its tokens in order |
| UnitNames.SplitIffBuilt | app/libsystemd/src/serviceapi.c:2597-2645 | a unit name splits into a prefix and an instance if and only if it was built from them (both non-empty, no @ in the prefix) |
| UnitNames.InstanceFileIffBuilt | app/libsystemd/src/serviceapi.c:1955-2003 | a file is an instance of a prefix if and only if its name is the built name plus the extension |
| UnitNames.TemplateFileIffBuilt | app/libsystemd/src/serviceapi.c:1955-2003 | a file is a template if and only if its name is a prefix, an @ and the extension, and a plain unit if and only if there is no @ in it |
| UnitNames.MakeUnitNameOf | app/libsystemd/src/serviceapi.c:1857-1871 | taking the extension off gives the name back |
| UnitNames.ClassifyUnitFile | app/libsystemd/src/serviceapi.c:1955-2003 | plain, template or instance by the first @ |
| UnitNames.SplitName | app/libsystemd/src/serviceapi.c:2597-2645 | the search loop finds the first @ and rejects empty parts |
| UnitFiles.ApplySpecifiers | app/libsystemd/src/serviceapi.c:2271-2300 | every key is expanded once |
| UnitFiles.BuildReadsWhatIsWritten | app/libsystemd/src/serviceapi.c:2421-2577 | a unit is built from a file's keys if and only if they write it: exec, args, requires, after, type and restart, lists spaced in any way, defaults for absent or unknown words |
| UnitFiles.UnitsReadTheirKeys | app/libsystemd/src/serviceapi.c:2674-2731 | so an instance on demand is the unit that its template's keys write once expanded, and a unit file is the unit that its keys write |
| UnitFiles.InstanceSpecifiers | app/libsystemd/src/serviceapi.c:2271-2300 | what %i, %I, %p, %n, %v and %m in a key of the template become in an instance: its name parts, its value and the template's mount point |
| UnitFiles.PlainUnitKeys | app/libsystemd/src/serviceapi.c:2314-2338 | a unit that is no instance has every %m replaced by its mount point and everything else copied |
| UnitFiles.InstanceOverTemplate | app/libsystemd/src/serviceapi.c:4257-4310 | an instance laid over its template is the same unit as the instance with every key written out: its own keys win, the others are inherited, a missing template is no error |
| UnitFiles.TwoRoutesAgree | app/libsystemd/src/serviceapi.c:2674-2731 | parsing an empty instance file and instantiating on demand build from the same keys and give the same unit apart from the from-template flag, and one fails if and only if the other does |
| UnitFiles.InstanceIdentity | app/libsystemd/src/serviceapi.c:2674-2731 | name, source and success of an instantiation do not depend on the value |
| UnitFiles.ParseDir | app/libsystemd/src/serviceapi.c:4367-4467 | the walk over the entries collects units and templates in order and skips what does not parse |
| UnitFiles.TreeIsItsFiles | app/libsystemd/src/serviceapi.c:4367-4467 | a tree yields the unit of each readable file that is no template, and one template for each template file, with the directory it was found in and the mount point |
| RegistryRuns.StartRegisters | app/libsystemd/src/serviceapi.c:3469-3489 | a start registers its unit if it is missing and can be made, never twice; it renames and moves none, not even when it expands an instance again |
| RegistryRuns.RefreshIsFreshStart | app/libsystemd/src/serviceapi.c:2801-2820 | an instance that is expanded again is the unit a first start with the new value would make |
| RegistryRuns.NoUnitIffUnregistered | app/libsystemd/src/serviceapi.c:3476-3488 | a start reports that there is no such unit if and only if none is registered afterwards |
| RegistryStarts.StartMakesTheInstance | app/libsystemd/src/serviceapi.c:2756-2820 | a start appends the instance that the first template of the name's prefix gives with the value, puts it in the place of an instance that may be expanded again, or leaves everything as it is |
| RegistryStarts.StartReports | app/libsystemd/src/serviceapi.c:2756-2820 | an error means that nothing has changed; there is none if and only if the unit is registered afterwards and, where it was to be expanded again, could be |
| RegistryStarts.StartsReport | app/libsystemd/src/serviceapi.c:3962-3995 | among several starts one reports that there is no such unit if and only if none is registered when all are done |
| RegistryStarts.UnitsAreMadeForRequests | app/libsystemd/src/serviceapi.c:3225-3267 | after any number of starts each unit is what it was or was made for one of the requests, with that request's value |
| RegistryRuns.RememberOnce | app/libsystemd/src/serviceapi.c:557-602 | a device is remembered once, with the value of its first report |
| RegistryRuns.ForgetIsExact | app/libsystemd/src/serviceapi.c:613-632 | what is forgotten is gone and nothing else is |
| RegistryRuns.ForgetUndoesRemember | app/libsystemd/src/serviceapi.c:557-632 | forgetting undoes remembering |
| RegistryRuns.RunRemembersReported | app/libsystemd/src/serviceapi.c:4032-4060 | after any run exactly the devices reported and not withdrawn since are remembered, each once: no reload or mount brings one back |
| RegistryRuns.TargetsAreNamed | app/libsystemd/src/serviceapi.c:3071-3163 | the resolved targets are exactly the expanded templates of the rules of that class |
| RegistryStarts.TargetsConcat | app/libsystemd/src/serviceapi.c:3071-3163 | every matching rule contributes its own target, in the order of the rules |
| RegistryStarts.LoadedRulesAre | app/libsystemd/src/serviceapi.c:2860-2905 | the rules loaded are the sections with a class and a start or a remove key, marked with their mount point |
| RegistryStarts.LoadedRulesConcat | app/libsystemd/src/serviceapi.c:2860-2905 | in the order of the sections |
| RegistryRuns.ReplayRegisters | app/libsystemd/src/serviceapi.c:3185-3267 | a replay registers exactly the units that rules name for remembered devices and that can be made |
| RegistryRuns.DeviceAddedRegisters | app/libsystemd/src/serviceapi.c:3962-3995 | a reported device registers exactly the units that rules name for it and that can be made |
| RegistryStarts.DeviceAddedMakes | app/libsystemd/src/serviceapi.c:3962-3995 | what it brings is made with the value it is reported with |
| RegistryStarts.DeviceRemovedRegisters | app/libsystemd/src/serviceapi.c:4084-4090 | a withdrawn device registers exactly the removal units that rules name for it and that can be made |
| RegistryStarts.DeviceRemovedMakes | app/libsystemd/src/serviceapi.c:4041-4090 | they are made with the value the device was remembered with |
| RegistryStarts.ReplayMakes | app/libsystemd/src/serviceapi.c:3232-3267 | what a replay brings is made for a remembered device with its value |
| RegistryStarts.ReplayGoesInOrder | app/libsystemd/src/serviceapi.c:3232-3267 | a replay goes through the devices in the order of their reports and through the targets of each in the order of the rules |
| RegistryRuns.ReplayServes | app/libsystemd/src/serviceapi.c:3232-3267 | after a replay every remembered device is served, whatever was so before |
| RegistryRuns.NextServes | app/libsystemd/src/serviceapi.c:3773-3995 | every operation but an unmount keeps every remembered device served |
| RegistryRuns.RunServesDevices | app/libsystemd/src/serviceapi.c:3773-3995 | after any run in which each unmount is followed by a reload: every unit a rule names for a remembered device is registered, unless no units directory is known or the first template of its prefix is missing or unusable |
| RegistryThreads.NextAttends | app/libsystemd/src/serviceapi.c:3232-3267 | every lock section of the calls keeps it that a unit a rule names for a remembered device is registered, cannot be made, or will be seen to by a call under way; a scan, rule load or mount that begins establishes it |
| RegistryThreads.InterleavingsServeDevices | app/libsystemd/src/serviceapi.c:3185-3267 | in every interleaving of the lock sections of scans, rule loads, mounts, device reports, withdrawals and starts, once all calls have returned every remembered device is served, if some scan, rule load or mount began after the last unmount |
| RegistryConfluence.BootRegisters | app/libsystemd/src/serviceapi.c:3773-3833 | a run of scans, rule loads and device reports in any order registers exactly the names of the tree and those that rules name for the devices and a template can make |
| RegistryConfluence.OrderOfCallsDoesNotMatter | app/libsystemd/src/serviceapi.c:169-186 | two such runs that report the same devices register the same names, whatever the order of the calls |
| RegistryBoot.InterleavedBootRegisters | app/libsystemd/src/serviceapi.c:3185-3267 | the same for calls that run at the same time: in every interleaving of the lock sections of scans, rule loads and reports, once all have returned, exactly these names are registered |
| RegistryBoot.OrderOfSectionsDoesNotMatter | app/libsystemd/src/serviceapi.c:169-186 | two finished interleavings that report the same devices register the same names |
| RegistrySections.AddUnitsKeeps | app/libsystemd/src/serviceapi.c:4663-4677 | units of a mount point are appended, never under a name that is taken |
| RegistrySections.ScanDistinctIffTreeIs | app/libsystemd/src/serviceapi.c:3798-3815 | after a scan names are distinct if and only if those of the scanned tree are |
| RegistrySections.KeptIsFilter | app/libsystemd/src/serviceapi.c:4982-5003 | what stays of a list after an unmount is its order-preserving filter "not from that mount point" |
| RegistrySections.DroppedIsReversedRest | app/libsystemd/src/serviceapi.c:4968-4979 | what is stopped is everything else, in reverse registry order |
| RegistrySections.ApplyKeeps | app/libsystemd/src/serviceapi.c:4882-5024 | every lock section keeps the registry free of orphans and of two units of one name or two templates of one prefix, save those a scanned tree defines itself; names stay distinct if the scanned tree's are |
| RegistrySections.InterleavingsStayTidy | app/libsystemd/src/serviceapi.c:3469-3489 | so does every interleaving of lock sections of any number of threads, even if the file system changes in between: a unit, template or rule of a mount point has its configuration directory loaded, two units of one name are both files of the scanned tree, and names stay distinct if every scanned tree's are |
| RegistrySections.OpIsInterleaving | app/libsystemd/src/serviceapi.c:3773-3995 | every whole operation is a sequence of lock sections, possibly none |
| RegistrySections.RunStaysTidy | app/libsystemd/src/serviceapi.c:4863-5024 | the same over runs of whole operations |
| RegistryMounts.MountAddsItsUnits | app/libsystemd/src/serviceapi.c:4647-4697 | a mount registers exactly the names its directory adds, and of two units with one name the first stays where it is |
| RegistryMounts.ScanKeepsMountedUnits | app/libsystemd/src/serviceapi.c:3809-3810 | a scan reloads its directory and keeps the units of every loaded mount point |
| RegistryConfigDirs.MountAddsItsTemplates | app/libsystemd/src/serviceapi.c:4663-4697 | after a mount the first template of a prefix is the one found before or else the mount's own first one, and the first unit of a name likewise |
| RegistryConfigDirs.MountFindsPrefixIff | app/libsystemd/src/serviceapi.c:4679-4697 | a prefix is found after a mount if and only if it was found before or the mount's directory has such a template file |
| RegistryConfigDirs.InstantiableAfterMountIff | app/libsystemd/src/serviceapi.c:2756-2796 | a name can be instantiated after a mount if and only if the first template of its prefix, old ones first, is usable |
| RegistryConfigDirs.ScanFindsInOrder | app/libsystemd/src/serviceapi.c:3807-3815 | after a scan units and templates are found first in the scanned tree, then in the directories of the loaded mount points in the order of loading; rules, devices and mount points stay |
| RegistryConfigDirs.ConfigPathIs | app/libsystemd/src/serviceapi.c:4577-4589 | the directory is `cfg/services` or `cfg/rules` below the mount point, written with a slash at its end or without |
| RegistryConfigDirs.SamePathIffSlashesApart | app/libsystemd/src/serviceapi.c:4594-4609 | two paths name the same directory if and only if they agree but for slashes at their ends |
| RegistryConfigDirs.MountIsRefusedIff | app/libsystemd/src/serviceapi.c:4878-4912 | for every mount point and scanned directory, with or without slashes at the end: already loaded or the scanned directory itself is -EALREADY, neither units nor rules there is -ENOENT, anything else is loaded |
| RegistryConfigDirs.MountOnce | app/libsystemd/src/serviceapi.c:4878-4912 | a refused mount changes nothing, and a loaded one is refused the next time |
| RegistryConfigDirs.UnmountUndoesMount | app/libsystemd/src/serviceapi.c:4944-5024 | unmounting takes away exactly what mounting has added - units, templates, rules, the mount point - and it can be mounted again |
| RegistryConfigDirs.UnmountStopsWhatItTakes | app/libsystemd/src/serviceapi.c:4968-5003 | an unmount stops exactly the units it takes away, those that come from the mount point |
| RegistryMounts.RunKeepsRulesInStep | app/libsystemd/src/serviceapi.c:3891-3905 | after any run the rules are exactly those of the rules directory loaded last followed by those of each loaded mount point in the order of loading, and no mount point is loaded twice |
| RegistryUnmount.UnmountServesIff | app/libsystemd/src/serviceapi.c:4944-5024 | an unmount leaves every remembered device served if and only if no unit that a remaining rule names for one comes from the mount point while its template comes from elsewhere and is usable |
| RegistryUnmount.UnmountCanStrandADevice | app/libsystemd/src/serviceapi.c:4944-5024 | a file system and a run from the empty registry - a scan, a rule load, a mount, a report - after which the device is served, and after the unmount it is not, although a template could make its unit |
| RegistryStartOrder.ScanStartsAfterDependencies | app/libsystemd/src/serviceapi.c:3812-3828 | the list a scan starts front to back holds every unit once, each that reaches no cycle after the first unit of any name it requires or follows |
| RegistryStartOrder.MountStartsAfterDependencies | app/libsystemd/src/serviceapi.c:4784-4808 | a mount starts its own units so that each that reaches no cycle follows its dependencies among them, even from stale orders |
| RegistryStartOrder.MountAfterScanResolvesAsFromScratch | app/libsystemd/src/serviceapi.c:4784-4796 | a mount after a scan of distinct names gives every unit that reaches no cycle the order it would get from scratch; a unit that was expanded again since, and carries zero, does no harm |
| RegistryStartOrder.UnmountKeepsPlacesIff | app/libsystemd/src/serviceapi.c:3814-3828 | an unmount leaves each of the first units of the list where it is if and only if none of them comes from the mount point; otherwise the walk, which counted before, goes wrong |
| RegistryStartOrder.UnitsKeepTheirPlaces | app/libsystemd/src/serviceapi.c:3819-3828 | while a scan walks its first units by index, starts, mounts, rule loads and unmounts that take none of them away leave each in its place |
| RegistryStore.Store.StartService | app/libsystemd/src/serviceapi.c:3476-3488 | the look-up, the instantiation and the refresh, in one lock section, with each error |
| RegistryStore.Store.InstantiateOnDemand | app/libsystemd/src/serviceapi.c:2756-2796 | appends the instance, or reports that there is no such unit |
| RegistryStore.Store.RefreshLibraryInstance | app/libsystemd/src/serviceapi.c:2801-2820 | replaces an instance in its place, or reports why not |
| RegistryStore.Store.RememberDevice | app/libsystemd/src/serviceapi.c:557-602 | the list afterwards |
| RegistryStore.Store.ForgetDevice | app/libsystemd/src/serviceapi.c:613-632 | the list afterwards: one entry is removed by index |
| RegistryStore.Store.ResolveTargets | app/libsystemd/src/serviceapi.c:3071-3163 | one target for each matching rule, in rule order |
| RegistryStore.Store.ReplayPendingDevices | app/libsystemd/src/serviceapi.c:3232-3267 | the loops over a copy of the devices and over each device's targets are a replay |
| RegistryStore.Store.NotifyDeviceAdded | app/libsystemd/src/serviceapi.c:3962-3995 | the device is remembered first, then every target is looked up or made, and what each look-up reports is returned |
| RegistryStore.Store.NotifyDeviceRemoved | app/libsystemd/src/serviceapi.c:4032-4112 | the value is read before the device is forgotten, the units to stop are listed, and the removal units are registered with that value |
| RegistryStore.Store.MergeConfigDirUnits | app/libsystemd/src/serviceapi.c:4647-4697 | units and templates are appended unless their name or prefix is taken |
| RegistryStore.Store.MergeConfigDirRules | app/libsystemd/src/serviceapi.c:4710-4747 | rules are appended, or become the rules if there are none |
| RegistryStore.Store.ReloadRules | app/libsystemd/src/serviceapi.c:3880-3908 | the rules directory replaces the rules, those of mount points are appended again, devices are replayed |
| RegistryStore.Store.ScanDirectory | app/libsystemd/src/serviceapi.c:3773-3833 | the new generation is merged, resolved from zero and sorted, each unit keeps the order it was sorted by, and devices are replayed; the units to stop and those to start are listed in that order; a directory that cannot be read changes nothing |
| RegistryStore.Store.LoadConfigDir | app/libsystemd/src/serviceapi.c:4863-4924 | already loaded, or the scanned directory itself, or nothing there: refused without a change; otherwise merged, its units listed to be started in ascending resolved order, devices replayed |
| RegistryStore.Store.UnloadConfigDir | app/libsystemd/src/serviceapi.c:4944-5024 | the backwards loops leave the filtered lists and the removed units in reverse order |
| RegistryStore.SortByStartingOrder | app/libsystemd/src/serviceapi.c:707-712 | the sort's contract: each item once, in ascending order, equal orders in any arrangement |
| RegistryStore.TrimmedLength | app/libsystemd/src/serviceapi.c:4594-4607 | two paths are the same directory if they agree without trailing slashes |

## Left out

- RegistryRuns.RunServesDevices: operations run one after the other; interleaved lock sections are RegistryThreads.InterleavingsServeDevices. In both the file system stays as it is during the run.
- RegistryBoot.InterleavedBootRegisters: the file system stays as it is, as in RegistryConfluence.BootRegisters.
- RegistryConfluence.BootRegisters: no mounts, unmounts or withdrawals in such a run, because which of two equally named units stays depends on the order of mounts.
- RegistryMounts.RunKeepsRulesInStep: the file system stays as it is during the run.
- RegistryStore.Store.RefreshLibraryInstance: a new object takes the place of the old one, whereas the C code keeps the object's address and swaps its contents; whether the unit is inactive, by its flag and its module, is one input.
- RegistryStore.Store.ScanDirectory: which units are stopped and started is a returned list, what that does to them is Supervisor.Manager; the units it starts do not mount anything meanwhile; which sections of other threads leave every unit in its place is RegistryStartOrder.UnitsKeepTheirPlaces.
- RegistryStore.Store.LoadConfigDir: the started units are a returned list, as above.
- RegistryStore.Store.NotifyDeviceRemoved: the units to stop are a returned list; the wait of up to a fixed time for each removal unit is left out.
- Supervisor.Manager.StopService: the exit of the process between the first look-up and the detachment, and parallel calls on one service, whose fields no lock protects; the code leaves both to its callers.
- Supervisor.Manager.NotifyMainPid: the unit type is not checked, as in the code; the supervision results are for simple and oneshot units.
- StopProtocol.NoLostWakeup: each process owns one semaphore and is its only waiter.
- StartOrder.ResolveWithinBounds: orders are unbounded integers; the C int does not overflow below 46,000 units.
- Directory walks, file reading and the dmini parser; the parsing of `stop_timeout_ms`, whose result is a parameter between 0 and 2^31-1.
- The order of the keys of a parsed file, which decides nothing here.
- dmlist's internals: lists are sequences with first-match search, removal by index, appending, and a sort whose contract does not promise stability.
- Allocation failures, ownership and freeing of strings and services.
- Stream redirections, descriptions, logging, listing and status records other than the running flag of library units.
- The magic number and the address of a stop-request entry that its exit callback checks.
- Mount notifications and the device names made from mount points.
- Argument checks for NULL.
- `app/service/src/service.c` and `app/systemd/src/systemd.c`, the command-line programs.
