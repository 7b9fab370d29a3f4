# Verified model of the gsd launcher's protocols

This project models six parts of the command-line launcher (`src/`) in Dafny and proves what they
are for:

- **Extension load order** (`Text`, `DependencyGraph`, `ExtensionSort`, `ExtensionLoadOrder`): the
  in-place Kahn algorithm of `sortExtensionPaths`, its duplicate, missing and self dependencies, and
  its cycle fallback. The methods keep the source's maps and its spliced ready list; what they return
  is characterised by a relation on graphs, the graph theorems are proved of that relation, and
  `ExtensionLoadOrder` says what the result is in terms of the manifests and the given paths alone.
- **The cmux vault bridge** (`CmuxVault`, `CmuxPresence`, `CmuxRestore`, `CmuxTurns`,
  `CmuxOwnership`, `CmuxBridge`): one step per stretch between two awaits, interleaved with updates, a stop, failing
  calls, and other agents that write to the same server. `CmuxBridge` is the class; each of its
  methods is proved equal to a function in `CmuxVault`, and the theorems are about every run of
  those functions: what is safe, and in `CmuxTurns` what every turn must go on to do.
- **The coordination-maintenance protocol** (`MaintenanceFrames`, `MaintenanceBackend`,
  `MaintenanceTranscript`, `MaintenanceCancellation`, `MaintenanceRefinement`, `MaintenanceFrontend`,
  `MaintenanceHandshake`): framing and its independence of chunk boundaries, the backend's loops, the
  calls and replies that the received lines spell,
  the backend under cancellation and its agreement with the loops when nothing interrupts it, the
  frontend's callbacks, and the handshake between frontend and worker.
- **Managed resources** (`ResourceTrees`, `ResourceSync`, `ResourceHistory`, `ResourceExamples`,
  `AgentDirectory`): exact directory copies, the content fingerprint, pruning and syncing, and the
  installed extensions directory after any history of launches, also launches that throw half-way
  through their copy, and of user edits.
- **Headless runs** (`Answers`, `AnswerReplies`, `AnswerInjector`, `Headless`): deferred questions with their timers,
  the idle timer, the window of recent events, and the restart loop.
- **Versions** (`Versions`, `ManagedFence`, `VersionStrings`): `compareSemver` against section 11 of
  Semantic Versioning 2.0.0, the two fences against newer managed resources, and how version strings
  are taken apart.

`dafny verify dfyconfig.toml` checks everything.

## What the proofs found

- Not every tracked entry of an earlier release disappears. A directory that loses `index.js`,
  `index.ts` and `extension-manifest.json` in one release and is dropped in a later one stays
  installed for ever, although it was tracked once (`ResourceExamples.OnceListedCanStay`). The exact
  rule is in `ResourceHistory.AfterEveryLaunch`: an entry that is no longer shipped is still there if
  and only if its last shipped form was a directory that the manifest does not list.
- Such a leftover, or a user's directory, under the name of a root file of a later release makes the
  launch throw, since neither the copy nor its fallback can replace a directory by a file
  (`ResourceExamples.RemnantMakesLaunchThrow`; exactly when:
  `ResourceSync.LaunchThrowsExactlyWhen`). What it has written by then is in no manifest. If the user
  goes back to the older release, that launch skips its copy, and the newer release's files stay
  (`ResourceExamples.OlderReleaseKeepsNewerFiles`). Such strays exist only after a launch that threw
  (`ResourceHistory.NoThrowNoStrays`), until a completed copy ships their name
  (`ResourceHistory.AfterEveryLaunch`); those whose name no completed copy has shipped stay through
  every launch that does not ship it (`ResourceHistory.NeverCopiedSurvives`).
- `env-utils.js` in the extensions directory is removed at every launch that does not ship it, also
  when it is the user's (`ResourceExamples.EnvUtilsIsTaken`; exactly what is taken from users:
  `ResourceHistory.NeverBundledSurvives`).
- The fingerprint does not see empty directories, so one that is added without a new version is not
  installed (`ResourceExamples.EmptyDirectoryIsNotInstalled`; exactly what the fingerprint sees:
  `ResourceTrees.FingerprintShowsVisible`).
- A deferred question without a usable answer gets no reply at all under `first_option`
  (`Answers.DeferredWithoutAnswerIsDropped`; exactly when: `Answers.MetadataDisposes`).
- When two requests share a title, the timer of the older one evicts the newer from the deferred
  map, so the newer one is defaulted even if its metadata comes in time
  (`Answers.OlderTimerEvictsNewer`; exactly when, over all runs: `Answers.MetadataReachesExactlyWhen`).
- `compareSemver` is cyclic on prerelease identifiers such as `1a`, `2` and `10`
  (`Versions.CompareCanBeCyclic`), and it does not tell `1` from `1e0` (`Versions.CompareCanTie`).
  `Versions.CompareFollowsPrecedence` says exactly when it departs from precedence: when the first
  two identifiers that differ are an inverted pair, or a tie that later identifiers do not put
  right.
- The show that precedes a set may report the session's own binding as automatic while resume is
  disabled; the set is issued all the same (`CmuxRestore.SetAfterAutomaticShow`; exactly when:
  `CmuxRestore.SetAfterShowExactlyWhen`), and only its reply counts as a report.
- The SIGTERM that the worker would raise for a parent lost during its imports is never needed: it
  has exited by then (`MaintenanceHandshake.OrphanIsToldOnce`).

## Model

| member | source | states |
|---|---|---|
| DependencyGraph.KahnIsTopological | src/extension-sort.ts:40-101 | the emitted ids are, each once and dependencies first, exactly the ids that reach no dependency cycle |
| DependencyGraph.KahnIsLeast | src/extension-sort.ts:76-101 | the emitted sequence is lexicographically least among all topological orders of those ids |
| DependencyGraph.KahnIsUnique | src/extension-sort.ts:76-101 | two complete runs of the ready list on one graph emit the same sequence |
| DependencyGraph.LeftoverIffReachesCycle | src/extension-sort.ts:103-106 | an installed id is left over if and only if a dependency path leads from it into a cycle |
| DependencyGraph.EmittedAvoidsCycles | src/extension-sort.ts:85-101 | nothing emitted can reach a cycle |
| DependencyGraph.LeftoverReachesCycle | src/extension-sort.ts:103-106 | whatever is left over reaches a cycle, found by walking unmet dependencies until one repeats |
| ExtensionSort.BuildIdMap | src/extension-sort.ts:27-38 | the loop separates paths without a manifest, keeps ids in first-seen order and lets the last path of an id win |
| ExtensionSort.BuildGraph | src/extension-sort.ts:40-74 | in-degrees and dependents count the declarations between installed ids with repetitions, self-dependencies do not count, and every missing dependency is warned of |
| ExtensionSort.Kahn | src/extension-sort.ts:76-101 | the loop over the spliced ready list emits the greedy alphabetical order until nothing can be loaded, and leaves each id the number of its unmet declarations as in-degree |
| ExtensionSort.ZeroDegree | src/extension-sort.ts:76-83 | the initial ready list holds the ids without unmet dependencies, ascending |
| ExtensionSort.Release | src/extension-sort.ts:89-100 | emitting an id decrements its dependents once per declaration and inserts each that reaches zero in order |
| ExtensionSort.Leftover | src/extension-sort.ts:103-106 | the leftover ids are collected ascending |
| ExtensionSort.WarnOfCycles | src/extension-sort.ts:108-127 | one warning per declared edge between leftover ids |
| ExtensionSort.SortExtensionPaths | src/extension-sort.ts:25-137 | the result is the manifest-less paths in input order, then the paths of the emitted ids, then those of the leftover ids ascending, with the missing and cycle warnings in order; what that means for the manifests is in ExtensionLoadOrder |
| ExtensionSort.SortIsLeastTopological | src/extension-sort.ts:40-131 | for the order in that result: least topological order of the cycle-free ids, and the leftover is exactly what reaches a cycle; EdgeIsNeed ties the graph to the manifests |
| ExtensionSort.EveryIdOnce | src/extension-sort.ts:76-131 | every installed id is listed exactly once and an emitted id only after everything it depends on |
| ExtensionSort.EveryPathOnce | src/extension-sort.ts:27-38 | after the manifest-less paths come the mapped paths, each exactly once and nothing else |
| ExtensionSort.LoadOrderIsUnique | src/extension-sort.ts:76-131 | the graph alone determines both parts of the order |
| ExtensionSort.LastPathWins | src/extension-sort.ts:30-38 | of several paths with one id the last in the input is loaded |
| ExtensionSort.OrderOfInputIsIrrelevant | src/extension-sort.ts:133-136 | with distinct ids, permuting the input leaves the sorted part unchanged |
| ExtensionSort.WithoutManifestKeeps | src/extension-sort.ts:29-37 | every path without a manifest is kept as often as it was given |
| ExtensionSort.MissingWarningsCount | src/extension-sort.ts:55-64 | one missing-dependency warning per declaration of an id that is not installed |
| ExtensionSort.CycleWarningsCount | src/extension-sort.ts:108-127 | as many warnings for a pair of ids as there are declared edges between them inside the leftover set |
| ExtensionLoadOrder.EdgeIsNeed | src/extension-sort.ts:51-71 | the graph that is sorted is the declared one: an edge is exactly a declaration, in the manifest of the last path with an id, of another installed id |
| ExtensionLoadOrder.StuckReachesCycle | src/extension-sort.ts:103-106 | reaching a cycle of that graph is having a chain of declared needs that comes back to itself |
| ExtensionLoadOrder.ManifestlessComeFirst | src/extension-sort.ts:29-37 | every path without a manifest stands in the result after exactly those given before it |
| ExtensionLoadOrder.EveryIdHasItsPlace | src/extension-sort.ts:133-136 | after those, every installed id takes exactly one place, held by the last path with that id, and nothing else is there |
| ExtensionLoadOrder.DependenciesLoadFirst | src/extension-sort.ts:76-101 | an id that is not stuck on a cycle comes after every installed id its manifest declares |
| ExtensionLoadOrder.StuckLoadLast | src/extension-sort.ts:103-131 | stuck ids come after all others, in alphabetical order |
| ExtensionLoadOrder.FirstOfThoseThatCouldGo | src/extension-sort.ts:76-101 | of two ids whose needs have all been loaded, the alphabetically first comes first |
| ExtensionLoadOrder.WarningsAreOfDeclarations | src/extension-sort.ts:51-127 | as many missing warnings for a pair of ids as the manifest declares of an id that is not installed, as many cycle warnings as it declares between two stuck ids, the missing ones first |
| ExtensionLoadOrder.WarningsAreInOrder | src/extension-sort.ts:46-127 | missing warnings come in the order in which their ids were first seen, cycle warnings in alphabetical order, those about one id in the order of its declarations |
| CmuxPresence.NoLostWakeup | src/cmux-vault.ts:312-357 | at most one drain runs; when none runs nothing is pending; the identities taken are a subsequence of those submitted that ends with the last, and with the null identity after a stop |
| CmuxPresence.PresenceIsBracketed | src/cmux-vault.ts:354-427 | presence events are well bracketed, at loop boundaries the open path is that of the tracked binding when its vault flag is set, and nothing is open once a stop has drained |
| CmuxPresence.EndMatchesStart | src/cmux-vault.ts:423-427 | every end event comes right after a start of the same path |
| CmuxPresence.RepeatedReport | src/cmux-vault.ts:319-321 | after a declined or failed automatic clear a repeated report is taken up again; after a plain failed clear it is dropped unless it is a refresh |
| CmuxPresence.RunKeepsWake | src/cmux-vault.ts:346-357 | the invariant behind the wake-up claim holds over every interleaving |
| CmuxPresence.RunKeepsPresence | src/cmux-vault.ts:354-544 | the invariant behind the bracketing claim holds over every interleaving |
| CmuxRestore.NoSetWhileAutomatic | src/cmux-vault.ts:370-393 | while resume stays disabled, between an automatic report and any later set a guarded clear succeeded, and if both concern one session another session was reported between; a report is a matching reply to a set, or to the show of a turn with both features off; an automatic binding seen by the show that precedes a set is no report, and SetAfterShowExactlyWhen says when the set follows it |
| CmuxRestore.RunIsVetoed | src/cmux-vault.ts:460-478 | the veto holds over every interleaving, with the single blocked slot |
| CmuxRestore.SetAfterShowExactlyWhen | src/cmux-vault.ts:483-500 | after any run, whatever the show that precedes a set reports, the set is issued if and only if that is nothing, or a binding of this program's agents that is the tracked one, or with none tracked that relaunches the session being published; what the binding says of automatic restore does not matter |
| CmuxRestore.SetAfterAutomaticShow | src/cmux-vault.ts:483-500 | a run in which a set follows a show that reports the session's own binding as automatic while resume is disabled, which is one case of SetAfterShowExactlyWhen |
| CmuxTurns.DutiesAreDone | src/cmux-vault.ts:354-478 | in every run, whatever is due after an act of a turn is the very next act: the clear of the tracked binding when a session ends, both features are off or the file does not exist; the check of the session file when a feature is on; the show before a set; the clear of an automatic binding that was found, and then the turn that waited for it |
| CmuxTurns.TrackedIsCleared | src/cmux-vault.ts:359-391 | in those cases a clear of the tracked generation is the next thing asked for |
| CmuxTurns.FieldsAreTold | src/cmux-vault.ts:286-303 | in every run, the tracked binding, the blocked and the unsafe identity are what the acts so far say |
| CmuxTurns.AskingWaits | src/cmux-vault.ts:354-396 | whatever a step asks for or announces, the drain waits for, and nothing recorded is rewritten |
| CmuxTurns.PolicyIsRead | src/cmux-vault.ts:258-272 | the two features of a turn, from the environment and the preferences |
| CmuxTurns.FileIsRead | src/cmux-vault.ts:388-392 | only a session file that exists counts as persisted |
| CmuxTurns.SetIsAnswered | src/cmux-vault.ts:501-526 | what is tracked after a set: exactly a reply that is the binding asked for and says whether it is automatic; with resume disabled an automatic one is found instead; any other reply changes nothing |
| CmuxTurns.ShowIsAnswered | src/cmux-vault.ts:447-458 | with both features off, exactly the session's own automatic binding is found |
| CmuxTurns.ClearIsAnswered | src/cmux-vault.ts:398-421 | a successful clear is followed up; a declined or failed one ends the turn and leaves the binding tracked |
| CmuxTurns.MetadataIsFollowed | src/cmux-vault.ts:540-543 | after a binding was set, the end of another session's presence comes first, and then, or at once, the start of this one's if the vault is on |
| CmuxTurns.UpdateIsTaken | src/cmux-vault.ts:312-331 | exactly which updates are taken up, and as what |
| CmuxTurns.StopIsTaken | src/cmux-vault.ts:333-339 | a first stop of the owner submits the null identity, nothing else does |
| CmuxTurns.DrainEnds | src/cmux-vault.ts:346-396 | once no more updates come, thirty replies or failures, whatever they are, end the drain with nothing pending |
| CmuxOwnership.ClearsOnlyItsOwn | src/cmux-vault.ts:398-421 | against a server that honours the expected generation, and under arbitrary foreign writes, every binding removed by the bridge's clears was set by it or adopted by exact launch match |
| CmuxOwnership.SetOnlyOverItsOwn | src/cmux-vault.ts:483-494 | a set is issued only when the last show observed nothing, a binding the bridge answers for, or the exact relaunch of the session being published |
| CmuxOwnership.RunKeepsOwnership | src/cmux-vault.ts:436-458 | every generation the bridge tracks is its own or adopted, over every run with a hostile server |
| CmuxBridge.CmuxVaultBridge.constructor | src/cmux-vault.ts:290-310 | a fresh bridge satisfies the invariants of wake-up, presence, restore and turns |
| CmuxBridge.CmuxVaultBridge.Update | src/cmux-vault.ts:312-331 | an update keeps those invariants and is the step that the theorems about runs quantify over |
| CmuxBridge.CmuxVaultBridge.Stop | src/cmux-vault.ts:333-339 | so is a stop, after which the bridge is stopped |
| CmuxBridge.CmuxVaultBridge.Resume | src/cmux-vault.ts:354-396 | so is whatever reply or failure the suspended drain goes on with, including that what is due in its turn is done |
| CmuxBridge.SoundMeans | src/cmux-vault.ts:286-303 | what those invariants promise between any two steps: one drain, an empty slot when idle, bracketed presence, vetoed sets, duties done, nothing present once a stop has drained |
| MaintenanceFrames.ValidatorsAgree | src/coordination-maintenance-cli.ts:105-112 | the frontend's inline test and the backend's parser accept the same lines; three keys out of three allowed leave none missing |
| MaintenanceFrames.CommandsRoundTrip | src/coordination-maintenance-backend.ts:14-28 | the object that spells prepare, apply or receipt parses to a frame that asks for just that, with its id and input |
| MaintenanceFrames.FrameIsWireForm | src/coordination-maintenance-backend.ts:14-28 | a line is a frame if and only if it is the wire form of that frame, under an id of one to sixty-four letters, digits, underscores and dashes |
| MaintenanceFrames.LinesRejoin | src/coordination-maintenance-backend.ts:114-119 | a stream is its lines, each with byte 10 after it, and a rest without one |
| MaintenanceFrames.LinesAppend | src/coordination-maintenance-backend.ts:113-121 | framing a stream in two pieces yields the lines of the whole |
| MaintenanceBackend.Serve | src/coordination-maintenance-backend.ts:106-158 | host calls, replies and exit code are a function of the concatenated bytes, however the stream was cut; beyond the byte limit they are those of what came before the chunk that crosses it, and a refusal |
| MaintenanceBackend.Drain | src/coordination-maintenance-backend.ts:113-140 | the inner loop handles exactly the complete lines of what has been received and keeps the rest |
| MaintenanceBackend.StoppedIsFinal | src/coordination-maintenance-backend.ts:115-140 | once a prefix of the stream has stopped the protocol, later bytes change nothing |
| MaintenanceBackend.OverlongIsFinal | src/coordination-maintenance-backend.ts:117-141 | a line too long before its newline comes ends like one too long when it comes |
| MaintenanceTranscript.SucceedsExactlyWhen | src/coordination-maintenance-backend.ts:113-158 | exit code 0 if and only if the input is one or more whole lines, at most sixteen, each a frame that the host opened for, answered without refusal and in time, with no second prepare; the events are then the call and the reply of each line in turn, between one opening and one close |
| MaintenanceTranscript.FailsSo | src/coordination-maintenance-backend.ts:113-158 | in any failing run the events are the calls and replies of the lines served, and then exactly the ending that the first line not served calls for |
| MaintenanceTranscript.RequestIsSpelled | src/coordination-maintenance-backend.ts:14-28 | the request on a line is the one it spells |
| MaintenanceCancellation.HostIsClosedOnce | src/coordination-maintenance-backend.ts:123-156 | in every interleaving of stop with opening the host is opened at most once, prepared at most once, and closed as often as opened, also when it opens after the stop |
| MaintenanceCancellation.NoCallAfterStop | src/coordination-maintenance-backend.ts:88-137 | no host command starts after a stop |
| MaintenanceCancellation.StopEnds | src/coordination-maintenance-backend.ts:88-93 | a stop ends the protocol wherever it stands, with exit code 1, the host closed if it is open, and nothing more written |
| MaintenanceCancellation.SettlingProceeds | src/coordination-maintenance-backend.ts:123-140 | whatever is awaited makes the protocol go on when it settles, to another await or nearer the end of what is pending |
| MaintenanceCancellation.LimitStops | src/coordination-maintenance-backend.ts:111-112 | beyond the byte limit every run gives up with exit code 1 |
| MaintenanceCancellation.RepliesAreInOrder | src/coordination-maintenance-backend.ts:115-158 | replies answer frames in order, also in a failing run, whose last reply answers the next frame or is an anonymous refusal; a refusal is always last; exit 0 means that every line received was a frame with a reply that is no refusal |
| MaintenanceCancellation.RunKeeps | src/coordination-maintenance-backend.ts:83-158 | the host and reply ledger is kept by every step |
| MaintenanceCancellation.RunKeepsAccount | src/coordination-maintenance-backend.ts:106-143 | frames taken and bytes pending account for every byte received until the first failure |
| MaintenanceRefinement.UninterruptedRunsAgree | src/coordination-maintenance-backend.ts:105-158 | the step machine and the function of the received bytes agree: every run without stop or failing write does what the bytes determine, however the input was cut and whenever opening and writes settled; and it ends before its input does only when no further bytes could change that |
| MaintenanceRefinement.DriveIsARun | src/coordination-maintenance-backend.ts:105-158 | those are runs of the step machine without a stop |
| MaintenanceFrontend.Frontend.constructor | src/coordination-maintenance-cli.ts:23-39 | the frontend starts with nothing accepted and the invariant |
| MaintenanceFrontend.Frontend.Input | src/coordination-maintenance-cli.ts:97-118 | a chunk is accepted exactly if the whole input so far gives no reason to refuse, and is queued or handed to the child exactly once; what is reported otherwise |
| MaintenanceFrontend.Frontend.End | src/coordination-maintenance-cli.ts:126-132 | the input may end normally exactly if it is a positive whole number of lines, and is refused otherwise; the child's input is then ended if it is ready |
| MaintenanceFrontend.Frontend.RefuseInput | src/coordination-maintenance-cli.ts:119-124 | a refusal stops the run and is reported once |
| MaintenanceFrontend.Frontend.OnMessage | src/coordination-maintenance-cli.ts:162-175 | one start for the first announcement; ready only on the right token; the queue then reaches the child in order, the bytes written are the chunks accepted, and its input is ended if the input has; anything else stops |
| MaintenanceFrontend.Frontend.FlushQueue | src/coordination-maintenance-cli.ts:171-172 | the queued chunks are written in order, none lost or repeated |
| MaintenanceFrontend.Frontend.StopNow | src/coordination-maintenance-cli.ts:77-94 | a stop takes effect once: it kills a living child, or finishes with code 1 without one |
| MaintenanceFrontend.Frontend.Stop | src/coordination-maintenance-cli.ts:77-94 | stopping keeps the invariant |
| MaintenanceFrontend.Frontend.HardStop | src/coordination-maintenance-cli.ts:87-93 | a child that does not go away still leads to exit code 1 and an unconfirmed termination |
| MaintenanceFrontend.Frontend.ChildExited | src/coordination-maintenance-cli.ts:81-83 | a child may have exited before its streams close, and the invariant still holds |
| MaintenanceFrontend.Frontend.ChildClosed | src/coordination-maintenance-cli.ts:146-149 | exit code 0 takes a clean child exit and no stop; a stopped frontend reports the termination, also after a hard stop |
| MaintenanceFrontend.Frontend.Finish | src/coordination-maintenance-cli.ts:61-69 | the first finish fixes the code; the promise is settled when no write is pending |
| MaintenanceFrontend.Frontend.WriteSettled | src/coordination-maintenance-cli.ts:46-60 | the promise is settled once all writes have called back, with the finish code; a failed write stops |
| MaintenanceFrontend.Frontend.Relay | src/coordination-maintenance-cli.ts:150-156 | output of the child is relayed in order up to the limit, and beyond it stops the run |
| MaintenanceFrontend.Screen | src/coordination-maintenance-cli.ts:102-114 | the screening loop accepts exactly the lines that pass, and leaves the rest pending |
| MaintenanceFrontend.ScreenedLinesParse | src/coordination-maintenance-backend.ts:115-141 | lines the frontend lets through fail in the backend only through a repeated prepare, the host or the reply |
| MaintenanceFrontend.BackendAgrees | src/coordination-maintenance-cli.ts:97-132 | a stream the frontend lets end normally succeeds in the backend, or fails there only through a repeated prepare, the host or the reply |
| MaintenanceFrontend.FrontendLetsPass | src/coordination-maintenance-cli.ts:97-118 | at no point of an input that the backend takes to a successful end does the frontend refuse it |
| MaintenanceHandshake.ReadyMeansStarted | src/coordination-maintenance-worker.ts:23-47 | the frontend is ready only when the worker started its backend, once, on the start the frontend sent |
| MaintenanceHandshake.GenuineWorkerIsNotStopped | src/coordination-maintenance-cli.ts:162-170 | no message of a genuine worker is ever taken for a violation |
| MaintenanceHandshake.OrphanIsToldOnce | src/coordination-maintenance-worker.ts:16-22 | a worker that lost its parent has exited, or has signalled its backend exactly once and armed its deadline |
| MaintenanceHandshake.BackendNeeds | src/coordination-maintenance-worker.ts:8-47 | a backend takes a supervised worker, a start that finds the parent the worker was born with, and imports that succeed |
| MaintenanceHandshake.HandshakeSucceeds | src/coordination-maintenance-worker.ts:23-58 | and an undisturbed handshake makes the frontend ready and the backend run |
| MaintenanceHandshake.WorkerEnds | src/coordination-maintenance-worker.ts:10-57 | what ends a worker at once, and that a running backend is told of the end of its parent and given a deadline |
| MaintenanceHandshake.OtherwiseNothing | src/coordination-maintenance-worker.ts:10-57 | what settles, fires or arrives at any other time changes nothing |
| MaintenanceHandshake.ExitIsFinal | src/coordination-maintenance-worker.ts:10-57 | a worker that has exited stays so, with its code |
| MaintenanceHandshake.ForeignStartIsRefused | src/coordination-maintenance-worker.ts:28-33 | any start but one from the worker's own parent, which is still there, is refused |
| MaintenanceHandshake.MessageMeans | src/coordination-maintenance-cli.ts:162-170 | what each message does to the frontend: only the two it waits for, in turn, do not stop it |
| MaintenanceHandshake.RunKeeps | src/coordination-maintenance-worker.ts:10-59 | the handshake invariants over every interleaving |
| ResourceTrees.IsExactDirectoryCopy | src/resource-loader.ts:826-852 | true exactly when the two trees are equal and hold only readable files and directories |
| ResourceTrees.PlainAnywhere | src/resource-loader.ts:826-852 | what an exact copy may hold: a readable file or a directory at every path below |
| ResourceTrees.CleanupBundledSkills | src/resource-loader.ts:791-816 | an entry of the shared directory goes if and only if it is an untouched copy of a bundled skill; the others keep their contents |
| ResourceTrees.FingerprintShowsVisible | src/resource-loader.ts:178-183 | exactly what the fingerprint tells apart: two trees have the same one if and only if they agree once empty directories and the skipped name are left out |
| ResourceTrees.FingerprintLists | src/resource-loader.ts:315-339 | the fingerprint covers every file at any depth with its contents, but for the stored fingerprint itself |
| ResourceTrees.NothingMissing | src/resource-loader.ts:873-882 | an installed tree with every entry of one release misses no file of another that looks the same to the fingerprint |
| ResourceSync.StaleSiblingMeaning | src/resource-loader.ts:434-453 | a sibling is stale exactly when the bundle has the other compiled form of the same stem and not this one |
| ResourceSync.MarkedMeans | src/resource-loader.ts:107-121 | an extension directory is listed if index.js, index.ts or extension-manifest.json stands in it |
| ResourceSync.PruningTakes | src/resource-loader.ts:651-703 | exactly which entries pruning takes, from what is listed, what is shipped and what stands there now |
| ResourceHistory.AfterEveryLaunch | src/resource-loader.ts:723-787 | after every launch that did not throw, in every history, whatever threw before: the release copied last looks like the current one to the fingerprint; every name it ships is installed exactly, and an entry only earlier copied releases had is still there if and only if its last shipped form was an unlisted directory, except strays, names a launch that threw shipped and no completed copy since; a launch that copied leaves none of its names a stray |
| ResourceHistory.AfterEveryPackagedLaunch | src/resource-loader.ts:723-787 | on releases without empty directories, for every name that is no stray: what is shipped is installed exactly, and a dropped entry is still there if and only if its last shipped form was an unlisted directory |
| ResourceHistory.EveryHistoryIsConsistent | src/resource-loader.ts:98-134 | after any history, launches that threw included, the manifest describes the release copied last and every name a copied release ever had is settled, but for strays and for listed entries a launch that threw has cleared |
| ResourceHistory.LaunchKeepsConsistency | src/resource-loader.ts:737-787 | one launch, skipped, full or thrown, keeps that |
| ResourceSync.SkipsExactlyWhenUnchanged | src/resource-loader.ts:755-762 | with everything the manifest records in place, the copy is skipped if and only if package, version, other resources and visible tree are those of the release copied last |
| ResourceSync.SkipsExactlyWhen | src/resource-loader.ts:755-762 | whatever happened to the installed files, the copy is skipped if and only if the release is unchanged and no file of it, at any depth, is absent after cleaning up |
| ResourceSync.NoFileIsMissing | src/resource-loader.ts:873-882 | a launch that does not throw leaves no file of the release missing at any depth, and after a copy each has the release's contents |
| ResourceHistory.NoFileIsMissingAfter | src/resource-loader.ts:755-762 | the same after any history, strays included |
| ResourceSync.LaunchThrowsExactlyWhen | src/resource-loader.ts:413-432 | a launch throws if and only if it does not skip and an unlisted directory stands at a root file's name or a dangling link at a directory's |
| ResourceSync.ObstaclesStay | src/resource-loader.ts:423-430 | what stands in the way when a launch throws still does afterwards, and the manifest is unchanged |
| ResourceHistory.NeverBundledSurvives | src/resource-loader.ts:651-703 | a name no release ever had holds what the user last put there, also when launches throw, unless it was a stale sibling or env-utils.js |
| ResourceHistory.NeverCopiedSurvives | src/resource-loader.ts:413-432 | what a launch that threw wrote under a name no completed copy shipped stays through every later launch that does not ship it, unless it is a stale sibling or env-utils.js |
| ResourceHistory.NothingIsInvented | src/resource-loader.ts:723-787 | in any history whatever, every installed entry is what some release shipped under its name, or the user's |
| ResourceHistory.NoThrowNoStrays | src/resource-loader.ts:723-787 | a history in which no launch threw has no strays, so the theorems about histories then hold of every name |
| ResourceSync.LaunchSparesUserNames | src/resource-loader.ts:434-453 | what one launch may take from the user, exactly, whether it skips, copies or throws |
| ResourceExamples.OnceListedCanStay | src/resource-loader.ts:107-121 | three releases after which a once tracked directory is still installed |
| ResourceExamples.RemnantMakesLaunchThrow | src/resource-loader.ts:417-430 | two releases of which the second makes the launch throw |
| ResourceExamples.OlderReleaseKeepsNewerFiles | src/resource-loader.ts:755-787 | a newer release whose launch throws leaves its files, and the older release, launched again, skips its copy and keeps them |
| ResourceExamples.EnvUtilsIsTaken | src/resource-loader.ts:698-702 | a launch after which the user's env-utils.js is gone |
| ResourceExamples.EmptyDirectoryIsNotInstalled | src/resource-loader.ts:315-339 | an empty directory added to any release without a new version is not installed |
| AgentDirectory.CopyNext | src/resource-loader.ts:417-430 | while a merging copy is under way after the bundled directories were removed, the next entry can be copied if and only if no directory stands at a root file's name and no dangling link at a directory's, and it is then exactly the bundle's |
| AgentDirectory.OverlayMerges | src/resource-loader.ts:423-430 | a copy that does not throw puts every file of the source in its place and leaves every other file of the destination |
| AgentDirectory.AgentDirectory.PruneRemovedBundledExtensions | src/resource-loader.ts:651-703 | exactly the stale listed files and directories and env-utils.js are removed |
| AgentDirectory.AgentDirectory.PruneStaleSiblingFiles | src/resource-loader.ts:434-453 | exactly the stale sibling files are removed |
| AgentDirectory.AgentDirectory.RemoveBundledDirs | src/resource-loader.ts:417-422 | exactly the destinations of bundled directories are removed |
| AgentDirectory.AgentDirectory.CopyTree | src/resource-loader.ts:423-430 | the copy, in whatever order it takes the entries, completes if and only if none is blocked and then installs exactly the bundle; when it throws, the entries written are the bundle's and the others as they were |
| AgentDirectory.AgentDirectory.SyncResourceDir | src/resource-loader.ts:413-432 | the directory afterwards is the old one without stale siblings, overridden by the bundle; when it throws, and what it leaves then |
| AgentDirectory.AgentDirectory.InitResources | src/resource-loader.ts:723-787 | a launch, also one that throws, changes directory and manifest as the launch function of the history theorems says |
| Answers.MatchPrecedence | src/headless-answers.ts:41-63 | the same question wins over a related one wherever they stand, the first among equals, nothing only if neither exists |
| Answers.FindConfiguredQuestionAnswer | src/headless-answers.ts:41-63 | the two loops find that entry |
| Answers.Accepted | src/headless-answers.ts:273-300 | a configured answer is accepted only if the request itself offers every value |
| AnswerReplies.MatchIsFirstOfBest | src/headless-answers.ts:41-63 | the entry for a question is the first under the same id, or if there is none the first whose id extends the other by an underscore and more; no entry only if neither exists |
| AnswerReplies.AcceptedIsGiven | src/headless-answers.ts:273-300 | a body is accepted if and only if it consists of the values of that entry, a single one or all as the metadata asks, and the request offers them |
| AnswerReplies.MetaIsToldLast | src/headless-answers.ts:152-176 | the metadata used for a title is what the inputs told of it last |
| AnswerReplies.SelectIsAnswered | src/headless-answers.ts:191-223 | in every run, a new request is answered with what the file gives for its own title; if that is nothing, it is cancelled or left to the caller; if nothing was told, it is deferred |
| AnswerReplies.MetadataResolves | src/headless-answers.ts:178-184 | in every run, metadata answers each deferred request it tells of with what the file gives, cancels it or drops it, and touches no other timer |
| AnswerReplies.RepliesInMapOrder | src/headless-answers.ts:178-184 | metadata that resolves several deferred requests answers them in the order of the map |
| AnswerReplies.PutInPlace | src/headless-answers.ts:221-221 | deferring replaces in place what is deferred under the title, or adds to the end |
| Answers.AtMostOneReply | src/headless-answers.ts:152-223 | no request is answered twice, and offered selects equal answered plus defaulted plus live timers |
| Answers.EveryRequestIsDealtWith | src/headless-answers.ts:268-314 | a request without a live timer has exactly one reply if and only if it was neither handed back nor dropped, and under cancel it always has |
| AnswerReplies.RepliesAreTruthful | src/headless-answers.ts:205-310 | in every run, a configured reply is what the file gives under what had then been told of the request's own title; any other is a cancellation under cancel, and else the first option, or nothing if there is none |
| Answers.MetadataDisposes | src/headless-answers.ts:178-184 | what metadata does to each live request: answered if acceptable, cancelled under cancel, dropped under first_option, untouched if not deferred |
| Answers.DeferredWithoutAnswerIsDropped | src/headless-answers.ts:178-184 | a run in which a deferred question gets no reply |
| Answers.SharedTitleOrphans | src/headless-answers.ts:205-222 | in one step, a deferred request loses its place exactly when a request of the same title arrives or another's timer of that title fires |
| Answers.DeferredUnlessEvicted | src/headless-answers.ts:205-222 | over any run after a request was deferred, while its timer is live, it is still deferred if and only if no select of its title came and no other timer of that title fired |
| Answers.MetadataReachesExactlyWhen | src/headless-answers.ts:178-184 | over any run, metadata that comes while a deferred request's timer is live disposes of it if and only if it is about its title, no select of that title came and no other timer of it fired since |
| Answers.OrphansAreDefaulted | src/headless-answers.ts:206-219 | a live request that is not deferred is never answered but by its own timer |
| Answers.OlderTimerEvictsNewer | src/headless-answers.ts:205-222 | two requests of one title: the newer one gets its answer if the metadata comes first, and never does if the older one's timer fires first |
| Answers.RunKeeps | src/headless-answers.ts:133-223 | the accounting holds over every sequence of selects, metadata and timers |
| Answers.CancelLeavesNothing | src/headless-answers.ts:303-310 | under cancel nothing is handed back or dropped |
| AnswerInjector.AnswerInjector.constructor | src/headless-answers.ts:133-147 | a fresh injector accounts for every request |
| AnswerInjector.AnswerInjector.TryHandle | src/headless-answers.ts:191-223 | a select keeps the account of every request, offered equal answered plus defaulted plus live, and a request not handled is the caller's; it is the step of the run theorems |
| AnswerInjector.AnswerInjector.ObserveEvent | src/headless-answers.ts:152-185 | metadata keeps the account, and resolves the deferred requests in the map's order as the run theorems say |
| AnswerInjector.AnswerInjector.TimerFires | src/headless-answers.ts:206-219 | a timer keeps the account and adds exactly one reply |
| Headless.OutstandingMeaning | src/headless.ts:716-726 | the tracked ids are those of interactive calls that started and have not ended since |
| Headless.WindowShowsTheTail | src/headless-events.ts:219-230 | the window shows a no-work tail if and only if the whole trace ends in one and the window holds three UI events |
| Headless.TailIsGivingUp | src/headless-events.ts:209-230 | the tail is the last three UI requests, a selection, an input and a notice with the word cancelled in any case |
| Headless.WindowShowsGivingUp | src/headless-events.ts:219-230 | the window shows it if and only if all three are among the last twenty events |
| Headless.Monitor.constructor | src/headless.ts:638-675 | no event seen, no timer |
| Headless.Monitor.ResetIdleTimer | src/headless.ts:677-688 | the timer is armed exactly under the stated condition |
| Headless.Monitor.OnEvent | src/headless.ts:708-728 | counts, window and outstanding calls are functions of the whole trace, and after every event the timer runs if and only if the run may idle |
| Headless.Monitor.IdleFires | src/headless.ts:683-686 | a run ends by idleness only with no interactive call outstanding and a tool started or a quick command |
| Headless.Monitor.ChainIntoAuto | src/headless.ts:1175-1180 | chaining into auto-mode leaves no idle timer |
| Headless.Monitor.Summary | src/headless.ts:1289-1289 | the summary for the restart loop is that of the whole trace |
| Headless.RestartsAfterCrashes | src/headless-events.ts:286-293 | a run is restart-eligible if and only if it failed uninterrupted with no event at all, or with more than five and a tool start, and its last twenty events do not show it giving up |
| Headless.RunHeadless | src/headless.ts:318-355 | at most maxRestarts + 1 runs; every run before the last looked like a crash and was no quick task; the exit code is the last run's |
| Text.LessIsByCodeUnits | src/extension-sort.ts:80-83 | the order on strings is that of their UTF-16 code units |
| Text.LessByCode | src/update-check.ts:64-64 | on characters below the surrogates, the first that differ decide by their codes |
| Versions.CompareSemver | src/update-check.ts:34-68 | the two loops compute the comparison the theorems are about |
| Versions.CompareFollowsPrecedence | src/update-check.ts:34-68 | for all prerelease identifiers whatever, the sign is that of precedence by section 11 of Semantic Versioning 2.0.0 if and only if the first two identifiers that differ are neither an inverted pair (a word taken to be below a number, or two words that read as numbers turned round) nor a tie (read as one number) after which what decides does not decide as they would; when it departs, it finds the versions equal or has the opposite sign |
| Versions.IdentifiersFollowPrecedence | src/update-check.ts:51-67 | the same for any two lists of identifiers |
| Versions.PlainVersionsFollowPrecedence | src/update-check.ts:34-68 | with digits and letter-led words only, the sign is always that of precedence |
| Versions.CompareIsAntisymmetric | src/update-check.ts:34-68 | on all strings, swapping the versions turns the sign, and a version equals itself |
| Versions.CompareIsTotalPreorder | src/update-check.ts:34-68 | the order is transitive on any three versions no two of which depart |
| Versions.PrecedenceIsTransitive | src/update-check.ts:34-68 | precedence itself is transitive |
| Versions.PrecedenceIsAsymmetric | src/update-check.ts:34-68 | precedence itself is asymmetric |
| Versions.CompareCanBeCyclic | src/update-check.ts:58-65 | for every release, three prereleases that each compare below the next, in a circle, one pair being inverted |
| Versions.CompareCanTie | src/update-check.ts:58-65 | for every release, 1 and 1e0 as prereleases compare as equal although the first precedes |
| Versions.PickHigherVersion | src/update-check.ts:132-136 | the result is the one that compares higher, the first on a tie; it precedes neither, and an empty version loses |
| ManagedFence.GetNewerManagedResourceVersion | src/resource-loader.ts:342-357 | the managed version is reported exactly when this package's manifest has a newer one |
| ManagedFence.AssertMaintenancePackageCompatibility | src/coordination-maintenance-backend.ts:32-49 | when the maintenance fence throws, on every kind of manifest |
| ManagedFence.CompareReleases | src/coordination-maintenance-backend.ts:43-48 | the component loop decides by the first difference |
| ManagedFence.StripIsReleasePart | src/resource-loader.ts:68-70 | trimming and stripping leave exactly the release part of a release |
| ManagedFence.FencesAgreeOnReleases | src/coordination-maintenance-backend.ts:39-48 | on releases both fences compute the same order, however large the numbers |
| ManagedFence.FencesAgree | src/coordination-maintenance-backend.ts:32-49 | on all inputs the maintenance fence refuses what the ordinary check refuses, or a manifest or version it cannot use |
| VersionStrings.ParsedFrom | src/update-check.ts:35-39 | a version parses to components and identifiers if and only if it is them, joined by dots and a first dash |
| VersionStrings.DigitsAreDecimal | src/update-check.ts:37-38 | digit strings are read in decimal places |
| VersionStrings.ReleaseIsOf | src/coordination-maintenance-backend.ts:39-42 | a release is exactly an optional v, three numbers with dots between, and a suffix on one line that begins with a plus or minus |
| VersionStrings.HigherByNumbers | src/coordination-maintenance-backend.ts:43-48 | a release is higher if and only if its three numbers are above the other's, the first difference deciding |
| VersionStrings.StripLeaves | src/resource-loader.ts:68-70 | what is left of any string: without the blanks around it and one leading v, what stands before the first plus or minus, or 0.0.0 |

## Left out

- Text.Less: an id with unpaired surrogates cannot be written as a Dafny string; all others compare by code unit.
- ExtensionSort.SortExtensionPaths: warnings are kept as kind and ids, not as message text; manifests are a map instead of file reads.
- CmuxOwnership.ClearsOnlyItsOwn: workspace and surface ids are fixed for one bridge, and a server call takes effect when it is answered or lost.
- CmuxBridge: metadata files, session snapshots, titles and console warnings; the await on the managed-bridge check is merged with the one on preferences and its result is fixed for the process.
- CmuxBridge: the process environment (owner, flags) does not change during a run.
- MaintenanceBackend.Serve: UTF-8 decoding, JSON parsing and the size of an encoded reply are parameters, and the host is a deterministic function of its calls.
- MaintenanceCancellation: `close` of the host throwing only turns the exit code to 1 and is not modelled; promise continuations run to completion before the next event.
- MaintenanceRefinement.UninterruptedRunsAgree: the final refusal is taken to fit the reply limit, as its request id has at most 64 characters.
- MaintenanceFrontend: the durations of timers, back-pressure (pause and resume), and stream errors other than as a stop; a write that throws at once counts as one whose callback reports an error.
- MaintenanceHandshake: signals that reach the worker before its backend listens end the process and are not modelled; sending on a broken channel has no effect.
- ResourceTrees.FingerprintShowsVisible: links, which the source reads through to their targets, are outside the statement; the hash is taken to be injective, so the listing it is computed from stands for it; sixteen hexadecimal digits of it are not modelled.
- ResourceHistory.AfterEveryLaunch: users edit only names that no release has had so far; releases hold files and directories only, none of the name the fingerprint skips, and the files that mark an extension are files.
- ResourceSync.LaunchThrowsExactlyWhen: a link or special entry at a root file's name counts as replaced by the copy; directories that cannot be read fail the permission walk, which is left out; a copy that throws stops between two entries, so an entry cut short by a full disk is not modelled.
- ResourceSync: shared/, agents/, the skills directory, the browser skill, the node_modules link, the registry and file permissions; the directories are synced by the method proved here.
- Answers: secrets, unused-id warnings and the loading of the answer file; question ids are normalised by a function that is a parameter.
- Headless.Monitor: completion and exit-code detection from notifications, supervised mode, output formats and wall-clock durations; runs that leave the process without returning.
- Headless.RunHeadless: back-off delays.
- Versions.CompareFollowsPrecedence: components of the release part from two to the fifty-third on are outside the statement; JavaScript's Number is a parameter that is exact below that bound and keeps the order of digit strings above it, an infinite value being one that exceeds the others; build metadata is not split off, as the code does not either.
- ManagedFence: locating the package and the agent directory; both fences are given the same manifest and package version.
- Argument parsing, dispatch, onboarding, help and progress output, and the modules for git, SQLite, file locks and the web.
