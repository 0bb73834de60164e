# Windhawk: a verified model of the engine's logic

Windhawk loads customization mods into running processes. This project models the part of it that
decides and keeps track: the symbol-hook session and its cache, the life of mods and of the session
that carries them, the injection into new processes, pattern matching, and some algorithms of the
application and of its editor extension. Windows, the network, the storage and the mods' own code
are parameters or nondeterministic answers. `dafny verify dfyconfig.toml` checks everything.

Where the source changes state in place, the model does: classes with fields, methods with loops.
Each such method is proved against a function or a relation on values, and the properties are proved
about those. Protocols between threads or processes are step relations, with one step for each action
that others can interleave with.

| files | what they model |
|---|---|
| `Text.dfy` | splitting, joining, decimal text, `stoull` |
| `SymbolSession.dfy`, `HookSymbolsSession.dfy` | one symbol-hook session: as functions on values, and as the class that is proved against them |
| `SymbolReplay.dfy`, `SymbolReplayExact.dfy` | the printed cache replays; the exact condition under which it always does |
| `SymbolRun.dfy`, `SymbolStore.dfy` | one run of `HookSymbols`; any number of processes that run it and share the stored cache |
| `ModTrace.dfy`, `ModsState.dfy`, `ModsManager.dfy`, `ModsFate.dfy` | what a mod is told over its life; building, reloading and tearing down the map of mods; what a reload does to each single mod |
| `SessionHandOff.dfy` | the threads of a session, its deletion, its semaphore and the module's references |
| `Injection.dfy` | the creating parent's hook and the scanner, interleaved on one new process |
| `Glob.dfy`, `PathPatterns.dfy`, `ModFilter.dfy` | wildcards, `\|`-separated lists, the exclusion pattern, which mods a process gets |
| `SettingsTree.dfy`, `SettingsStored.dfy`, `SettingsMerge.dfy` | nested settings to flat keys, what is stored under them, and the merge on an update |
| `ModMetadata.dfy`, `ModFork.dfy` | metadata lines, rewriting identifier and names, free identifiers |
| `Utf8.dfy`, `LogOutput.dfy` | RFC 3629 section 3, and the log stream cut into chunks |
| `Versions.dfy`, `UserProfile.dfy` | version order, and updates that are reported once |
| `UpdateCheck.dfy` | the portable daemon's update timer and checker |
| `LogVerbosity.dfy` | per-thread log verbosity |

Five findings, each proved with its exact condition:

* The printed symbol cache replays faithfully after every history if and only if no optional hook shares
  a symbol with a later hook (`SymbolReplayExact.CacheReplayExactly`). Disjoint symbol lists are sufficient
  but more than is needed.
* A hooked parent does resume the main thread while the scanner owns the mutex, exactly when the
  parent's own handling ended without an injection and without having waited
  (`Injection.ParentResumesUnderScannerExactly`). The thread still does not run, because the scanner
  keeps its own suspension.
* A `|`-joined list matches what some element matches, and beyond that only through an empty element of a
  list of several, for a path without a file name (`PathPatterns.JoinedListMatches`,
  `PathPatterns.EmptyPartMatchesExactly`). That elements contain no `|` is not needed.
* A new top-level setting reaches a user who has a configuration exactly if no stored value has its
  prefix and its prefix is not one of the names every JavaScript object inherits, such as `constructor`
  (`SettingsMerge.WholeSettingsAreAdded`, `SettingsMerge.InheritedNamesAreNeverAdded`, `SettingsMerge.ConstructorIsNeverAdded`).
* A rewritten identifier or name reads as the old one with the suffix exactly if only spaces and tabs
  stand between it and the end of its line (`ModFork.SuffixesAreExactly`).

One more condition concerns teardown: when the session's construction fails after its mods were loaded, an
initialized mod is uninitialized and released without ever having been told beforehand, and hooks are
never applied (`ModsManagers.ModsManager.Build`). In every other run each mod has the full life.

Where comments and code disagree, the model follows the code: the comment above `wcsmatch` speaks of
separators that a wildcard does not cross (src/windhawk/engine/functions.cpp:36-48), and the code has none.

## Model

| member | source | states |
|---|---|---|
| SymbolSession.HistoryPartitionsHooks | src/windhawk/engine/mod.cpp:508-694 | after any cache texts, symbols and missing marks, also when an exception stops it: every hook is unresolved, resolved or dropped and only one of these, only optional hooks are dropped, every address came with a symbol of that hook's own list, exactly the resolved hooks with a hook function are pending |
| SymbolSession.StepSound | src/windhawk/engine/mod.cpp:521-670 | every single operation, on any input, keeps that partition and the match between pending hooks and addresses |
| SymbolSession.AddressesWereOffered | src/windhawk/engine/mod.cpp:521-589 | every resolved hook has an address that some operation brought with that symbol: a symbol event with exactly that address, or a line of a cache of this version whose number is the distance from the base |
| SymbolReplay.CacheReplay | src/windhawk/engine/mod.cpp:554-641 | parsing a printed cache in any session with the same hooks and file data, at any base, does what replaying its entries one by one does |
| SymbolReplay.RenderCutUp | src/windhawk/engine/mod.cpp:554-590 | cutting the printed text gives back the version, the two comments and every symbol and offset |
| SymbolReplay.RunTallied | src/windhawk/engine/mod.cpp:592-670 | in every history the printed missing lines are exactly the symbols of the dropped hooks, once each |
| SymbolReplay.FinishedSessionReplays | src/windhawk/engine/mod.cpp:521-670 | a history that leaves nothing unresolved prints a cache that a fresh session at any base replays: all hooks resolved or dropped, the same offsets, the same dropped ones |
| SymbolReplay.ReplayedAddresses | src/windhawk/engine/mod.cpp:554-589 | each replayed address is the printed session's, moved by the difference of the module bases: modulo 2 to the 64 or 32, and exactly where nothing wraps around |
| SymbolReplay.OffsetMoves | src/windhawk/engine/mod.cpp:558-587 | an offset printed at one base and read at another keeps its distance from the base |
| SymbolReplayExact.CacheReplayExactly | src/windhawk/engine/mod.cpp:592-641 | every finishing history replays everywhere if and only if no optional hook shares a symbol with a later hook |
| SymbolReplayExact.BothOptionalFails | src/windhawk/engine/mod.cpp:598-619 | two optional hooks that share a symbol: a history whose cache does not replay, because the equality count is off |
| SymbolReplayExact.RequiredLaterFails | src/windhawk/engine/mod.cpp:521-537 | an optional hook and a later required one that share a symbol: a history whose replay gives the symbol to the wrong hook |
| SymbolReplayExact.SeparatorInFileNameFails | src/windhawk/engine/mod.cpp:768-778 | a separator in the module's file name shifts the cache and makes the replay throw |
| SymbolReplayExact.Finish | src/windhawk/engine/mod.cpp:643-682 | any history can be continued to one that leaves nothing unresolved |
| Text.PiecesOfJoin | src/windhawk/engine/functions.cpp:92-100 | cutting a joined list gives all pieces of all its parts, whatever they contain |
| Text.ParseOfDigits | src/windhawk/engine/mod.cpp:585-587 | any text of digits is its value if that fits 64 bits, and an exception otherwise |
| Text.ParseOfDecimal | src/windhawk/engine/mod.cpp:585-587 | an offset printed in decimal is read back by `stoull` |
| HookSymbolsSessions.HookSymbolsSession.constructor | src/windhawk/engine/mod.cpp:510-519 | a new session has all hooks unresolved, in array order, and prints only the header |
| HookSymbolsSessions.HookSymbolsSession.OnSymbolResolved | src/windhawk/engine/mod.cpp:521-562 | the first unresolved hook that lists the symbol takes it, and the fields follow the specification |
| HookSymbolsSessions.HookSymbolsSession.ResolveSymbolsFromCache | src/windhawk/engine/mod.cpp:564-641 | the two loops over the cut-up cache, with the exception for a bad number leaving the session as far as it got |
| HookSymbolsSessions.HookSymbolsSession.EraseMarked | src/windhawk/engine/mod.cpp:592-641 | the erasing loop removes exactly the marked optional hooks and prints their symbols as missing, in order |
| HookSymbolsSessions.HookSymbolsSession.MarkUnresolvedSymbolsAsMissing | src/windhawk/engine/mod.cpp:643-670 | exactly the unresolved optional hooks leave and are printed as missing |
| HookSymbolsSessions.HookSymbolsSession.AreAllSymbolsResolved | src/windhawk/engine/mod.cpp:680-682 | true exactly when every hook is resolved or dropped |
| HookSymbolsSessions.HookSymbolsSession.ApplyPendingHooks | src/windhawk/engine/mod.cpp:684-694 | calls back for each pending hook once, in order, and leaves none pending |
| SymbolRuns.HookSymbols | src/windhawk/engine/mod.cpp:1631-1892 | true exactly if the caches that are read resolve every hook, or none of them throws and caches and enumerated symbols together reach every required hook; then all pending hooks are set, each at an address met with one of its own symbols, the dropped hooks are those that nothing reached, and the printed cache is stored exactly if the local store did not finish the run; otherwise nothing is set or stored; without any cache text and with disjoint lists, true exactly if each required hook lists an enumerated name |
| SymbolRuns.RunComesTo | src/windhawk/engine/mod.cpp:1698-1871 | in which of its ways a run ends, from the cache texts and the symbols it meets |
| SymbolRuns.EnumerationLeaves | src/windhawk/engine/mod.cpp:1852-1864 | although it stops early, the enumeration leaves exactly the hooks that no symbol would reach |
| SymbolRuns.EnumerationComesTo | src/windhawk/engine/mod.cpp:1866-1871 | it succeeds exactly if all required hooks are reached, and the optional ones left are dropped |
| SymbolRuns.DisjointUnclaimed | src/windhawk/engine/mod.cpp:521-537 | with disjoint lists a hook is left exactly if it lists no enumerated name |
| SymbolRuns.PendingWereMet | src/windhawk/engine/mod.cpp:541-552 | every hook that is set is set at an address met together with one of its own symbols |
| SymbolRuns.Enumerate | src/windhawk/engine/mod.cpp:1852-1864 | the enumeration skips nameless symbols and stops at the symbol that resolves the last hook |
| SymbolStore.StoredResolves | src/windhawk/engine/mod.cpp:1685-1710 | a store that holds the cache of a finished session resolves every hook of a fresh one, at any base |
| SymbolStore.StoreStaysReplayable | src/windhawk/engine/mod.cpp:1685-1892 | in every interleaving of any number of runs the store is empty or holds the cache of a finished session, and stays filled |
| SymbolStore.LaterRunsUseTheStore | src/windhawk/engine/mod.cpp:1685-1767 | once the store is filled, every run that can read it finishes there, at the first or the second try, without going online or enumerating |
| SymbolStore.WritingFillsTheStore | src/windhawk/engine/mod.cpp:1875-1881 | a run that stores writes the cache of its finished session, and one whose write fails leaves the store as it was |
| ModTrace.GoneIsFullLife | src/windhawk/engine/mod.cpp:2179-2272 | the automaton accepts exactly: Init and AfterInit, any number of SettingsChanged, BeforeUninit, Uninit, release; or a refused Init and release |
| ModTrace.PhaseAfterEach | src/windhawk/engine/mods_manager.cpp:122-164 | a loop that calls one function of each of a set of instances advances exactly those, whatever the order |
| ModsManagers.ModsManager.LoadOne | src/windhawk/engine/mod.cpp:2179-2212 | what loading leaves in the entry and tells the mod, on each of its ways out |
| ModsManagers.ModsManager.ApplyOne | src/windhawk/engine/mod.cpp:2232-2267 | the four answers about changed settings, what the entry records, and whether the mod was asked |
| ModsManagers.ModsManager.SortNames | src/windhawk/engine/mods_manager.cpp:86-120 | the enumeration fills the three collections exactly by each mod's decision and asks exactly the mods whose change time moved |
| ModsManagers.ModsManager.SendOff | src/windhawk/engine/mods_manager.cpp:122-177 | all leaving mods are told, then the hooks are applied, then all are uninitialized, then all are released; the map keeps exactly the others |
| ModsManagers.ModsManager.BringIn | src/windhawk/engine/mods_manager.cpp:179-226 | new entries are made and loaded, the hooks are applied, and then exactly the new instances are told |
| ModsManagers.ModsManager.ReloadModsAndSettings | src/windhawk/engine/mods_manager.cpp:81-226 | for any state and any answers: the order of all callbacks, the resulting entries, and every instance again ready or gone; a failing enumeration makes no mod leave |
| ModsManagers.ModsManager.Build | src/windhawk/engine/customization_session.cpp:66-93 | a session is built with every wanted mod ready; otherwise every initialized mod saw Init, Uninit, release and hooks were never applied |
| ModsManagers.ModsManager.TearDown | src/windhawk/engine/customization_session.cpp:95-145 | all mods are told, hooks are disabled, all are uninitialized, all are released, and nothing is left |
| ModsManagers.ModsManager.Life | src/windhawk/engine/mods_manager.cpp:18-226 | over construction, any number of reloads and destruction every instance has exactly one full life |
| ModsState.LoadAllLoads | src/windhawk/engine/mods_manager.cpp:190-201 | loading fresh entries one after the other starts or releases every new instance and touches no other entry |
| ModsState.ReloadKeepsTidy | src/windhawk/engine/mods_manager.cpp:81-226 | any reload in this order leaves every instance ready, if its entry is still there, or gone |
| ModsState.ReloadConverges | src/windhawk/engine/mods_manager.cpp:86-201 | with readable storage the keys are exactly the mods that should load, each entry has the configured library, and the configured change time except exactly for a mod loaded again without a library and with a time other than 0 |
| ModsState.SecondReloadIsQuiet | src/windhawk/engine/mods_manager.cpp:86-226 | a second reload of the same configuration calls no mod, creates and releases no instance, and changes no entry's instance |
| ModsFate.UnwantedModLeaves | src/windhawk/engine/mods_manager.cpp:86-95 | a mod that should not be loaded is told goodbye, released and erased |
| ModsFate.NewModIsLoaded | src/windhawk/engine/mods_manager.cpp:109-111 | a wanted mod without an entry gets one, with an instance exactly if every step of loading it succeeds |
| ModsFate.OtherLibraryIsLoadedAnew | src/windhawk/engine/mod.cpp:2238-2242 | with another library the old instance leaves unasked and the mod is loaded anew |
| ModsFate.UnreadableModLeaves | src/windhawk/engine/mods_manager.cpp:113-116 | a mod whose configuration cannot be read leaves and is erased |
| ModsFate.UnchangedModStays | src/windhawk/engine/mod.cpp:2244-2266 | with nothing changed the entry and its instance stay, and the instance is told nothing |
| ModsFate.UnloadedModIsTriedAgain | src/windhawk/engine/mod.cpp:2247-2251 | a mod without an instance is loaded anew when its settings change |
| ModsFate.RefusingModIsUnloaded | src/windhawk/engine/mod.cpp:2253-2255 | an instance that refuses its new settings sees SettingsChanged, BeforeUninit, Uninit and release; its entry stays without an instance |
| ModsFate.AcceptingModStays | src/windhawk/engine/mods_manager.cpp:103-108 | an instance that accepts them stays, is told nothing else, and the new change time is recorded |
| ModsFate.ModThatAsksIsReloaded | src/windhawk/engine/mods_manager.cpp:106-107 | one that asks for it leaves after SettingsChanged, and a new instance is made |
| ModsFate.UnreadableLoggingLeaves | src/windhawk/engine/mod.cpp:2258-2264 | if the logging values cannot be read the mod leaves and is erased |
| ModsFate.OldCalls | src/windhawk/engine/mods_manager.cpp:81-177 | exactly the calls that an instance of the map sees in a reload |
| ModsFate.NewCalls | src/windhawk/engine/mods_manager.cpp:190-226 | a new instance that stays has seen Init and AfterInit, and nothing else |
| SessionHandOff.StepKeepsInv | src/windhawk/engine/customization_session.cpp:11-32 | every step of every thread keeps: one owner of the semaphore and the session, references equal to what the threads hold, every session's life as its owner's position says |
| SessionHandOff.NeverMisused | src/windhawk/engine/customization_session.cpp:225-379 | no thread touches a session that it handed over or that is destroyed, and no step of its end comes out of order |
| SessionHandOff.UsersHoldTheSession | src/windhawk/engine/customization_session.cpp:240-275 | a thread that uses the session is the only one, the session is there, and the loop runner is there when it is dereferenced |
| SessionHandOff.SecondSessionNeverFound | src/windhawk/engine/customization_session.cpp:16-25 | the exception for a second session is never thrown |
| SessionHandOff.ModuleOutlivesThreads | src/windhawk/engine/customization_session.cpp:234-283 | the module has references exactly while some thread runs in it |
| SessionHandOff.AllOverInTheEnd | src/windhawk/engine/customization_session.cpp:276-349 | when all threads are gone: semaphore free, no session, no references, every session's life over |
| SessionHandOff.EverySessionEndsOnce | src/windhawk/engine/customization_session.cpp:372-379 | each session: constructed, used, told, hooks disabled, uninitialized, destroyed, semaphore released; each once, in this order, the last five by one thread, nothing after |
| SessionHandOff.SomeThreadCanMove | src/windhawk/engine/customization_session.cpp:11-33 | while a thread is left, some thread can take a step |
| SessionHandOff.LoopReloads | src/windhawk/engine/customization_session.cpp:352-367 | a changed configuration is reloaded in the loop |
| SessionHandOff.WatcherReloads | src/windhawk/engine/customization_session.cpp:293-349 | a change seen while watching is reloaded by the thread created because of it, which then loops; if none can be created the session is deleted |
| SessionHandOff.DedicatedThreadLoops | src/windhawk/engine/customization_session.cpp:284-290 | a dedicated thread runs the loop of the session it constructed |
| SessionHandOff.ApcThreadHandsOver | src/windhawk/engine/customization_session.cpp:225-283 | from an APC a created thread takes the session over, and loops or watches |
| SessionHandOff.EverySessionCanEnd | src/windhawk/engine/customization_session.cpp:225-379 | from wherever its holder is, and even if every further call fails, at most nine of its steps end the session and free the semaphore |
| Injection.StepKeepsInv | src/windhawk/engine/all_processes_injector.cpp:320-445 | every step of the hook, the scanner, the process or a third party keeps the protocol's invariant |
| Injection.NeverTwoInjections | src/windhawk/engine/all_processes_injector.cpp:372-445 | in no interleaving are two injections queued or alive at once |
| Injection.InjectionsConserved | src/windhawk/engine/all_processes_injector.cpp:408-445 | in every run what was injected is queued, alive, or has ended |
| Injection.ExactlyOneInjection | src/windhawk/engine/all_processes_injector.cpp:320-445 | if no party skips or fails, then in every interleaving the process has an injection when both are done, and exactly one as long as none has ended |
| Injection.SuspendCountConserved | src/windhawk/engine/all_processes_injector.cpp:354-370 | when both parties are done, on every path, the thread's suspend count is what the creator asked for, less its own resume, plus what third parties hold |
| Injection.ThreadWaitsForScanner | src/windhawk/engine/all_processes_injector.cpp:354-445 | while the scanner owns the mutex the main thread is suspended and has not started |
| Injection.WaitEnds | src/windhawk/engine/new_process_injector.cpp:213-243 | a waiting parent waits only for the scanner, which can then always move on |
| Injection.ParentResumesUnderScannerExactly | src/windhawk/engine/new_process_injector.cpp:181-243 | the parent resumes the thread while the scanner owns the mutex for exactly the outcomes that neither injected nor waited |
| Glob.WcsMatch | src/windhawk/engine/functions.cpp:49-81 | terminates, and is true exactly when the string can be cut into one fitting segment for each pattern character |
| Glob.MatchesStar | src/windhawk/engine/functions.cpp:56-71 | a star matches nothing, or one character and then as a star again |
| Glob.MatchesInTwo | src/windhawk/engine/functions.cpp:49-81 | two patterns one after the other match what can be cut into a match of each |
| Glob.PlainThenStar | src/windhawk/engine/functions.cpp:49-81 | a plain text and a star match everything that starts with the text |
| Glob.StarThenPlain | src/windhawk/engine/functions.cpp:49-81 | a star and a plain text match everything that ends with the text |
| Glob.QuestionMark | src/windhawk/engine/functions.cpp:73-80 | a question mark matches one character |
| Glob.StarStar | src/windhawk/engine/functions.cpp:59-63 | a run of stars matches what one star matches |
| Glob.PlainMatchesItself | src/windhawk/engine/functions.cpp:73-80 | a pattern without wildcards matches its own text only |
| PathPatterns.DoesPathMatchPattern | src/windhawk/engine/functions.cpp:147-223 | true exactly when some part of the list, without wildcards if only explicit matches count, matches the path, or the file name if it has no backslash |
| PathPatterns.ExplicitMatchesExactly | src/windhawk/engine/functions.cpp:173-179 | explicit matches are exactly those of the parts with neither a star nor a question mark |
| PathPatterns.ExplicitMatchNamesThePath | src/windhawk/engine/functions.cpp:173-216 | if expansion and upper-casing bring in no wildcard, an explicit match is a part that is the path or its file name |
| PathPatterns.PlainPartMatches | src/windhawk/engine/functions.cpp:206-216 | an expanded part without wildcards matches the path it is, or the file name if it has no backslash |
| PathPatterns.FolderPartMatches | src/windhawk/engine/process_lists.h:61-63 | a part that expands to a folder, a backslash and a star matches exactly the paths below the folder |
| PathPatterns.CaseDoesNotCount | src/windhawk/engine/functions.cpp:157-164 | only the upper-cased path counts |
| PathPatterns.LastBackslash | src/windhawk/engine/functions.cpp:166-170 | the file name is what follows the last backslash |
| PathPatterns.FileNameIsTail | src/windhawk/engine/functions.cpp:166-170 | the file name is the longest ending of the path without a backslash |
| PathPatterns.ListReadBackExactly | src/vscode-windhawk/src/utils/modConfigUtils.ts:114-120 | a list written with `join` is read back by `split` if and only if it has elements and none contains the separator |
| PathPatterns.JoinedListMatches | src/windhawk/engine/functions.cpp:172-220 | matching a joined list is matching some element, or its empty part |
| PathPatterns.EmptyPartMatchesExactly | src/windhawk/engine/functions.cpp:172-220 | the empty part matters exactly for a list of several with an empty element and a path without a file name |
| PathPatterns.JoinedListMatchesSomeElement | src/vscode-windhawk/src/utils/modConfigUtils.ts:193-204 | for a path with a file name, or no empty element, the joined list matches exactly what some element matches |
| PathPatterns.BuildExcludePattern | src/windhawk/engine/new_process_injector.cpp:118-146 | the pattern built by appending matches exactly the union of the user's list and the enabled built-in lists |
| PathPatterns.ShouldSkipNewProcess | src/windhawk/engine/all_processes_injector.cpp:302-318 | a process is skipped exactly when that union matches and the inclusion list does not |
| ModFilter.DoesArchitectureMatchPattern | src/windhawk/engine/mod.cpp:161-192 | true exactly when some part is one of the build's names |
| ModFilter.ShouldLoadInRunningProcess | src/windhawk/engine/mod.cpp:2279-2330 | true exactly when the mod is on, the architecture fits, it is included, by name in a critical process, and not excluded |
| ModFilter.StoredListsDecide | src/windhawk/engine/mod.cpp:2279-2330 | from the lists of the user interface through the stored text to the engine's decision, as if the lists had been consulted |
| ModFilter.CriticalOnlyByName | src/windhawk/engine/mod.cpp:2302-2317 | in a critical process exactly the parts with neither a star nor a question mark include a mod that did not ask for more |
| ModFilter.PatternsCountElsewhere | src/windhawk/engine/mod.cpp:2302-2317 | in every other process, and for a mod that asked for it, every matching part includes it |
| SettingsTree.Extraction.ParseSettings | src/vscode-windhawk/src/utils/modSourceUtils.ts:433-492 | the recursive loops write exactly the leaves in order, or fail for an item without exactly one key |
| SettingsTree.Extraction.ParseAnnotated | src/vscode-windhawk/src/utils/modSourceUtils.ts:440-452 | one item adds the leaves of its one value under its own key, and fails exactly if it has not one key or its value fails |
| SettingsTree.Extraction.ParseValue | src/vscode-windhawk/src/utils/modSourceUtils.ts:454-481 | the same for one value: scalar, list, nested settings, list of nested settings |
| SettingsTree.GroupKeys | src/vscode-windhawk/src/utils/modSourceUtils.ts:440-481 | with valid and unique sibling names all leaves of a nested tree have different keys, each under its own setting's key |
| SettingsTree.EveryValueHasItsKey | src/vscode-windhawk/src/utils/modSourceUtils.ts:328-492 | the flat record holds every leaf under its own key; exactly a top-level scalar named `__proto__` is lost |
| SettingsStored.ValuesAreStored | src/vscode-windhawk/src/utils/modSourceUtils.ts:433-492 | a value found by its path in the tree is stored under the key that spells the path: true as 1, false as 0, numbers and strings as they are, list items at their positions |
| SettingsStored.StoredIsFound | src/vscode-windhawk/src/utils/modSourceUtils.ts:433-492 | whatever is stored is stored for such a value |
| SettingsStored.FailsExactly | src/vscode-windhawk/src/utils/modSourceUtils.ts:440-446 | the extraction fails exactly if somewhere in the tree an item has not exactly one key of its own |
| SettingsMerge.MergeModSettings | src/vscode-windhawk/src/utils/modConfigUtils.ts:28-47 | the result is the stored settings and the incoming ones of unknown prefix, and the flag says exactly whether anything changed |
| SettingsMerge.MergeIsStable | src/vscode-windhawk/src/utils/modConfigUtils.ts:28-47 | what the user has is kept, and a second merge of the same settings changes nothing |
| SettingsMerge.SettingPrefixes | src/vscode-windhawk/src/utils/modConfigUtils.ts:29 | all keys of one top-level setting have one prefix |
| SettingsMerge.PrefixLiterally | src/vscode-windhawk/src/utils/modConfigUtils.ts:29 | the prefix of a key is its name, with index 0 if it is in a list, whatever follows after a dot |
| SettingsMerge.HomesDiffer | src/vscode-windhawk/src/utils/modConfigUtils.ts:29 | different top-level settings have different prefixes |
| SettingsMerge.WholeSettingsAreAdded | src/vscode-windhawk/src/utils/modConfigUtils.ts:39-44 | a top-level setting comes with all of its values or none, exactly by whether its prefix is known |
| SettingsMerge.InheritedNamesAreNeverAdded | src/vscode-windhawk/src/utils/modConfigUtils.ts:31-44 | a new setting with a name that every object inherits is never added |
| SettingsMerge.ConstructorIsNeverAdded | src/vscode-windhawk/src/utils/modConfigUtils.ts:31-44 | a setting named `constructor` is not added even to an empty record |
| ModMetadata.HeadAgrees | src/vscode-windhawk/src/utils/modSourceUtils.ts:117 | a line's key, language and value position depend only on the text up to the value's first character |
| ModMetadata.LineReadsExactly | src/vscode-windhawk/src/utils/modSourceUtils.ts:112-135 | a line is read as an item exactly if it is of the form, and then the item is what the form says |
| ModMetadata.WhiteExactly | src/vscode-windhawk/src/utils/modSourceUtils.ts:113 | the characters that are trimmed, that end lines, and that are blanks |
| ModMetadata.LineRewritten | src/vscode-windhawk/src/utils/modSourceUtils.ts:227-245 | a rewritten line reads as the old value, the white space that is no blank, and the suffix; other lines stay as they are |
| ModFork.NewSourceReads | src/vscode-windhawk/src/utils/modSourceUtils.ts:99-136 | a rewritten block is readable and says the same line by line, except for the suffix on the first identifier line and on every name line |
| ModFork.SuffixesAreExactly | src/vscode-windhawk/src/utils/modSourceUtils.ts:227-245 | the new value is exactly the old one with the suffix if and only if only blanks follow it on its line |
| ModFork.FirstFree | src/vscode-windhawk/src/extension.ts:981-993 | the loop ends for any finite set of taken identifiers, at the least number from 2 on that is free |
| ModFork.ForkMod | src/vscode-windhawk/src/extension.ts:976-998 | the fork's identifier is free, its number is the least possible, and the new source reads with both suffixes |
| ModFork.ForkNamesItself | src/vscode-windhawk/src/extension.ts:976-998 | the new source's identifier line says exactly the free identifier |
| ModFork.NewModId | src/vscode-windhawk/src/extension.ts:906-928 | a new mod keeps the template's identifier if it is free and gets the least free number otherwise |
| Utf8.RoundTrip | src/vscode-windhawk/src/logOutputChannel.ts:36 | decoding the encoding of a text gives the text |
| Utf8.RoundTripBack | src/vscode-windhawk/src/logOutputChannel.ts:36 | only the encoding of a text decodes to it |
| Utf8.EncodesExactly | src/vscode-windhawk/src/logOutputChannel.ts:36 | the encodings are exactly the byte sequences of RFC 3629 section 4 |
| Utf8.Examples | src/vscode-windhawk/src/logOutputChannel.ts:36 | the examples of RFC 3629 section 7 |
| Utf8.MasksAreRanges | src/vscode-windhawk/src/logOutputChannel.ts:82-98 | the bit masks of the scan are the byte ranges of the model |
| LogOutput.IncompleteUtf8Index | src/vscode-windhawk/src/logOutputChannel.ts:79-110 | the loop computes the scan that the other lemmas are about |
| LogOutput.CutAtLastBoundary | src/vscode-windhawk/src/logOutputChannel.ts:79-110 | text followed by the start of a character is cut exactly between them |
| LogOutput.KeptBack | src/vscode-windhawk/src/logOutputChannel.ts:79-110 | for arbitrary bytes, what is kept back starts with a first byte that announces more |
| LogOutput.NothingLost | src/vscode-windhawk/src/logOutputChannel.ts:31-45 | for arbitrary bytes and chunks, the pieces and the carry are the input, and the carry has at most three bytes |
| LogOutput.PieceOfText | src/vscode-windhawk/src/logOutputChannel.ts:31-37 | a piece of a text is the longest run of whole characters in its buffer, and what is kept back the start of the next |
| LogOutput.TextIsShown | src/vscode-windhawk/src/logOutputChannel.ts:31-45 | however a text is cut, every character is shown as soon as it is complete and what waits is the start of the next |
| LogOutput.WholeTextIsShown | src/vscode-windhawk/src/logOutputChannel.ts:31-45 | the separately decoded pieces of a whole text are the text, and nothing waits |
| LogOutput.LogOutputChannel.OnStdout | src/vscode-windhawk/src/logOutputChannel.ts:31-37 | one chunk feeds its own stream and leaves the other alone |
| LogOutput.LogOutputChannel.OnStderr | src/vscode-windhawk/src/logOutputChannel.ts:39-45 | the same for the other stream |
| Versions.VersionLessThan | src/windhawk/app/userprofile.cpp:116-141 | true exactly when at the first difference between the component lists, continued with zeros, the first is smaller |
| Versions.DottedOrder | src/windhawk/app/userprofile.cpp:116-141 | for numbers written in decimal between dots, less is being smaller at the first place where they differ, a missing number being 0 |
| Versions.ComponentsOfDotted | src/windhawk/app/userprofile.cpp:121-128 | such numbers are read back |
| Versions.StrictWeakOrder | src/windhawk/app/userprofile.cpp:116-141 | irreflexive, transitive, incomparability an equivalence: equal components up to zeros |
| Versions.Trichotomy | src/windhawk/app/userprofile.cpp:116-141 | of two component lists exactly one is below the other, or they are the same |
| UserProfile.UpdateContentWithOnlineData | src/windhawk/app/userprofile.cpp:151-264 | succeeds exactly when the needed members are readable; the new profile, whether it differs, and the three status values |
| UserProfile.UpdateApp | src/windhawk/app/userprofile.cpp:165-202 | the application's record, and when its update is available and new |
| UserProfile.UpdateMod | src/windhawk/app/userprofile.cpp:211-251 | one mod's record, and when its update is available and new |
| UserProfile.UpdateMods | src/windhawk/app/userprofile.cpp:211-251 | in any order of the online mods: the records, the number of updates, whether one is new |
| UserProfile.AppStatusExactly | src/windhawk/app/userprofile.cpp:189-202 | an application update is available exactly if a lower version is installed, and new if none was known or the known one is installed |
| UserProfile.ModStatusExactly | src/windhawk/app/userprofile.cpp:239-251 | so many mods are counted as have another version than the online one, and one is new if none was known or the known one is installed |
| UserProfile.RecordsExactly | src/windhawk/app/userprofile.cpp:165-237 | the latest versions are recorded and nothing else in the profile changes |
| UserProfile.NotifiedOnce | src/windhawk/app/userprofile.cpp:151-264 | applying the same data again changes nothing, counts the same and reports nothing as new |
| UpdateCheck.MainWindow.OnTimer | src/windhawk/app/main_window.cpp:297-308 | the timer starts a checker, or is set again when none can be made |
| UpdateCheck.MainWindow.OnPowerBroadcast | src/windhawk/app/main_window.cpp:340-360 | a resume sets the timer again exactly when checks are on and no checker is on its way |
| UpdateCheck.MainWindow.OnUpdateChecked | src/windhawk/app/main_window.cpp:472-496 | the answer ends an exit that waits, or sets the timer if checks are still on |
| UpdateCheck.MainWindow.LoadSettings | src/windhawk/app/main_window.cpp:664-692 | switching checks on or off sets or stops the timer unless a checker is on its way |
| UpdateCheck.MainWindow.ExitProgram | src/windhawk/app/main_window.cpp:727-744 | an exit waits for a checker, or destroys the window |
| UpdateCheck.ExactlyOneWakeUp | src/windhawk/app/main_window.cpp:297-744 | in every reachable state: checks on, exactly one of timer and checker; checks off, no timer |
| UpdateCheck.ExitIsNotForgotten | src/windhawk/app/main_window.cpp:472-479 | whatever happens in between, a waiting exit is kept until the answer arrives, and then the window goes |
| UpdateCheck.ExitLeadsToDestruction | src/windhawk/app/main_window.cpp:727-744 | after an exit the window is destroyed exactly if no checker was on its way or its answer arrived, and until then that answer can still come |
| UpdateCheck.SettingsTakeEffect | src/windhawk/app/main_window.cpp:664-692 | settings that were read are in effect at once, with the timer set or stopped accordingly |
| UpdateCheck.ChecksKeepComing | src/windhawk/app/main_window.cpp:297-496 | with checks on and no exit requested, timer, answer and message lead back to a set timer |
| LogVerbosity.StepKeepsInv | src/windhawk/engine/logger.cpp:64-93 | entering and leaving scopes, in two steps each, keeps the count equal to the registered threads and the shared verbosity high enough |
| LogVerbosity.QuickCheckNeverSuppresses | src/windhawk/engine/logger.h:38-45 | a line that `ShouldLog` allows passes the check before it |
| LogVerbosity.OutermostScopeDecides | src/windhawk/engine/logger.cpp:33-57 | in nested scopes the outermost one sets the thread's verbosity, and outside of all it is the initial one |
| LogVerbosity.ReturnsToInitial | src/windhawk/engine/logger.cpp:84-93 | at count 0, and so once all scopes are left, the shared verbosity is the initial one, and the quick check passes no more than it |

## Left out

- Windows calls, the registry, INI files, HTTP, MSDIA, the hooking library and the shellcode are parameters or free choices of the environment; hooks are set and removed atomically.
- Walking module images, shims, symbol server paths, progress texts, dialogs, tray, service control and the web view's message traffic.
- YAML parsing, schema validation and general regular expressions: the settings tree is taken as validated, and metadata lines are parsed by a hand-written grammar of the two patterns in use.
- `getBestLanguageMatch`, `validateMetadata` and the grouping of metadata items by key; the model reads each line by itself.
- Finding the metadata block inside the source: the model starts from the text between the two marker lines, which rewriting leaves alone.
- SymbolReplay.FinishedSessionReplays: assumes that no symbol, no file name and no time stamp contains the separator, which the source relies on without checking.
- SymbolReplayExact.CacheReplayExactly: assumes in addition that every required hook lists at least one symbol, as no history finishes otherwise.
- SymbolStore.StoreStaysReplayable: assumes names without NUL characters and the same module file in all processes; the mutex around the second try is not modelled, so its interleavings are all allowed.
- SymbolRuns.HookSymbols: leaves out the checks of the options structure and of null pointers at its start; the hybrid escape hatch is a parameter.
- Text.ParseOfDecimal: `stoull` skips the six ASCII white-space characters only.
- ModsManagers.ModsManager.ReloadModsAndSettings: mods are values in a map and their loaded part is an instance number; callbacks answer anything but do not throw, enumerated names are unique, and waiting for threads to leave a mod's code is left out.
- Mod status and task files, debug logging scopes and the loading of shims inside `LoadedMod`.
- SessionHandOff.NeverMisused: a step relation, one step for each stretch that other threads cannot observe; the end of a wait is a free choice and nothing says that the loop ends.
- Injection.NeverTwoInjections: one new process, a step relation; the process has one thread until that one has started, the creator does not resume it before its hook has returned, and a queued or live injection keeps its copy of the mutex.
- The scan that enumerates processes, and the choice of processes other than through the skip test.
- PathPatterns.DoesPathMatchPattern: upper-casing is a free function on characters, and environment expansion, with the replacement of `%ProgramFiles%` in 32-bit processes before it, is a free function on one part that does not fail.
- PathPatterns.BuildExcludePattern: the contents of the built-in lists are parameters that are not empty.
- The dead tests for negative lengths in `wcsmatch`, whose parameters are unsigned.
- SettingsMerge.MergeModSettings: the order of keys in a record and the conversion of values to text are not modelled.
- The rest of `setModConfig`, the configuration backends, and settings time stamps.
- LogOutput.WholeTextIsShown: how invalid bytes are shown is not modelled, only that none is lost and at most three wait.
- Versions.VersionLessThan: components are unbounded integers, so overflow of a machine `int` is not modelled.
- UserProfile.UpdateContentWithOnlineData: online data is given by what is read from it, with an absent value for each exception; numbers and arrays in the profile are opaque.
- UserProfile.NotifiedOnce: is about the profile as it was left; an installation in between may well make the same data new again.
- UpdateCheck.ExactlyOneWakeUp: timers fire at any time while they are set, delays are not modelled, and a finished checker's message is not lost; only the portable daemon checks by itself.
- LogVerbosity.QuickCheckNeverSuppresses: a step relation with the mutex sections as single steps; a thread logs only between entering and leaving scopes.
- Hexadecimal and integer text in the portable settings, and the engine control processes.
