# A verified model of the PureCVisor control daemon

PureCVisor is a hypervisor management daemon. This project models the parts of it whose correctness is least
visible in any one function: how requests are admitted while the daemon drains and reloads, how VM jobs lock names and
undo their work, what the REST rate limiter really bounds, and the text tools its check scripts rely on. Each part
is written in the form of the source (classes and loops where it updates state, functions where it computes)
and the results are stated over every input, every run or every interleaving.

- **Drain and admission** (`Drain`, `DrainSegments`, `DrainProgress`). Any number of threads call inc, dec, begin and
  cancel while any number of waiter threads run. Each atomic access, lock, unlock, wait and broadcast is a
  step of its own; the deadline and spurious wake-ups may happen at any time.
- **Main loop** (`EventLoop`). Both Unix-socket transports and the hot-reload cycle, one callback at a time.
- **VM locks** (`VmLocks`). The lock table with its ages and owner processes; create and clone jobs with the clone's
  renewal thread, in any interleaving.
- **Jobs** (`Storage`, `CloneSaga`, `OvaJobs`). The clone worker and the OVA workers over a storage in which every
  command that changes it, the definition of a domain and the cleanup included, may be refused, may work, or may
  take effect and still report failure.
- **Rate limiter** (`RateLimiter`, `RateLimiterWitness`). Fixed windows, eviction in an arbitrary order.
- **Lexers and delimiter matching** (`Lexer`, `Regions`, `Delimiters`). Two scripts that should see the same function bodies.
- **Dispatcher** (`Dispatch`), **paging** (`Pagination`) and **arena** (`Arena`).

Where a promise of the code does not hold, there is a concrete run that breaks it and a lemma that says exactly
when it holds: the waiter's unlocked read of zero (`FastPathStraggler`, `ZeroIsFinal`), the exec with nothing in
flight (`ExecWithRequestInFlight`, `ExecClearExactly`), exclusion by the VM locks (`CreateOvertaken`,
`LocksExcludeWhilePrompt`), the atomic failure of a clone (`CleanupDestroysForeignTarget`, `CloneWorker`) and
of an import (`FailedConversionLeaks`, `ImportOutcome`), the request limit (`BeyondTheLimit`, `RateExact`), and the
agreement of the two body extractors (`LiteralInGap`, `ExtractorsAgreeExactly`).

The lock code that runs is `src/modules/core/vm_state.c`; the table in `include/core_state.h` is older and has
neither ages nor processes. The model follows the former.

Verify with `dafny verify dfyconfig.toml`.

## Model

| member | source | states |
|---|---|---|
| Drain.InvStep | src/api/drain.c:39-64 | every single step of any thread keeps: one mutex owner, the counter equal to tokens out plus callers mid-way, and a pending broadcast for every sleeper over a zero counter |
| Drain.DrainSafety | src/api/drain.c:39-64 | in every state of every run the counter is tokens out plus callers mid-way and not negative, at most one thread holds the mutex, and a waiter asleep at zero has a broadcast still coming |
| Drain.WakeUpStep | src/api/drain.c:55-64 | no interleaving loses a wake-up: the thread that took the counter to zero owes its broadcast until it has woken every sleeper |
| Drain.IncAlone | src/api/drain.c:39-53 | an inc that is not interleaved admits exactly when the flag is clear and changes nothing else |
| Drain.DecAlone | src/api/drain.c:55-64 | a dec that is not interleaved returns one token, and wakes every sleeper exactly when it reaches zero |
| Drain.BeginAlone | src/api/drain.c:250-272 | a begin that is not interleaved sets the flag and spawns one waiter exactly when the flag was clear |
| Drain.CancelAlone | src/api/drain.c:274-280 | a cancel clears the flag and changes nothing else |
| DrainSegments.FlagStep | src/api/drain.c:39-53 | with the flag set, no step other than a cancel clears it or lets another thread past the check |
| DrainSegments.AdmissionsAfterFlag | src/api/drain.c:39-53 | after the flag is set a run without cancel admits at most one request, and none if no thread was past its check |
| DrainSegments.NoneAfterWaiterLocks | src/api/drain.c:224-247 | once a waiter holds the mutex with the flag set, no run without cancel admits anything and the counter never rises |
| DrainSegments.DrainGuarantee | src/api/drain.c:216-272 | a waiter that left its loop finds nothing in flight from then on; one that left by the unlocked read shares the daemon with at most one request |
| DrainSegments.GivesUpExactlyAtDeadline | src/api/drain.c:229-241 | over every run a waiter gives up if and only if its own deadline passed while it slept |
| DrainSegments.DoneMeansDrained | src/api/drain.c:216-247 | a waiter that is done and whose deadline did not pass left by its loop, with nothing in flight from then on, or by the unlocked read, with at most one request in flight |
| DrainSegments.ZeroIsFinal | src/api/drain.c:216-222 | with the flag set, a zero counter stays zero through every run without cancel if and only if no thread stands between its check and its increment |
| DrainSegments.FastPathStraggler | src/api/drain.c:216-222 | a run from start-up after which the waiter has quit the loop while one request is in flight |
| DrainProgress.StepDecreases | src/api/drain.c:216-247 | every step of a thread uses up a bounded potential, broadcasts and newly spawned waiters included |
| DrainProgress.EveryScheduleEnds | src/api/drain.c:216-247 | whatever the scheduler picks, threads left to themselves take at most that many steps |
| DrainProgress.QuietMeans | src/api/drain.c:55-64 | when no thread can step the mutex is free and every waiter is finished or sleeps over tokens nobody has returned |
| DrainProgress.RunsOut | src/api/drain.c:216-247 | from every reachable state the threads can run until none can step |
| DrainProgress.OneWaiterPerDrain | src/api/drain.c:250-272 | however many callers begin at once, over every run without cancel there is exactly one waiter, spawned or about to be, once the flag is set |
| DrainProgress.DrainCompletes | src/api/drain.c:216-247 | without the deadline, every schedule ends, the counter then equals the tokens out, with none out every waiter has finished, and none has given up before its deadline |
| EventLoop.Daemon.constructor | src/api/drain.c:25-37 | the daemon starts open, with nothing in flight and no cycle under way |
| EventLoop.Daemon.DrainInc | src/api/drain.c:39-53 | admits exactly when the flag is clear, counting the request |
| EventLoop.Daemon.Dispatch | src/api/dispatcher.c:5032-5053 | a permitted node.drain sets the flag, a permitted node.resume clears it, nothing else moves it |
| EventLoop.Daemon.UringAccept | src/api/uds_server.c:160-205 | refines the accept step: a failed submission returns the token it took and reports the connection closed |
| EventLoop.Daemon.UringRead | src/api/uds_server.c:207-271 | refines the read step on every exit: one outcome, and the token returned exactly when one was held |
| EventLoop.Daemon.IncomingConnection | src/api/uds_server.c:395-429 | refines the accept step of the other transport |
| EventLoop.Daemon.ReadFinished | src/api/uds_server.c:346-393 | refines the read step of the other transport |
| EventLoop.Daemon.OnSigUsr2 | src/api/hot_reload.c:76-95 | starts a cycle only from idle, shutting admission and arming one timer |
| EventLoop.Daemon.Prepare | src/api/hot_reload.c:120-134 | starts a cycle exactly when none is under way, and otherwise changes nothing |
| EventLoop.Daemon.DrainCheckTimer | src/api/hot_reload.c:59-74 | the timer stays exactly while requests are in flight, and then gives way to one idle |
| EventLoop.Daemon.DoUpgrade | src/api/hot_reload.c:22-57 | tries the exec; if it fails the cycle is idle again and admission open |
| EventLoop.TokenConservation | src/api/uds_server.c:160-271 | over every sequence of events on both transports the counter is the number of live connections with a token; each finished connection reported one outcome and returned its token exactly as often as it took one |
| EventLoop.TransportsAgree | src/api/uds_server.c:207-271 | exactly when the two transports decide a completed read alike; in particular whenever bytes came and the socket was wrapped |
| EventLoop.AcceptOutcome | src/api/uds_server.c:160-205 | who gets in: only root, and on the ring only an arrival; with a token exactly when the flag is clear; a failed submission is closed at once |
| EventLoop.ReadOutcome | src/api/uds_server.c:346-393 | what a completed read logs: dispatched exactly when it can be served and holds a token or resumes, otherwise rejected or closed; and the token returned exactly when held |
| EventLoop.ServedExactly | src/api/uds_server.c:207-271 | over every run with a dispatcher a readable request is dispatched if and only if its connection came in while the flag was clear, or it resumes; any other is rejected |
| EventLoop.FlagMoves | src/api/dispatcher.c:5032-5053 | exactly when the flag is set after each event: signals, node.drain, node.resume, failed exec |
| EventLoop.CycleMoves | src/api/hot_reload.c:22-95 | exactly how each event moves the cycle, its timer and its idle |
| EventLoop.ReloadCompletes | src/api/hot_reload.c:22-95 | from every reachable draining state the connections can be read out, and then the timer and the idle try the exec with nothing in flight |
| EventLoop.ShutdownGate | src/api/uds_server.c:42-58 | a connection accepted while the flag is set, and stays set, reaches the dispatcher only with node.resume |
| EventLoop.OneCycleAtATime | src/api/hot_reload.c:22-95 | in every run one timer is pending exactly while draining and one idle exactly while ready, so cycles never overlap |
| EventLoop.ExecOnlyWhenDrained | src/api/hot_reload.c:22-95 | in a cycle during which admission is not reopened the exec is tried only with nothing in flight; a failed one leaves the cycle idle and admission open |
| EventLoop.ExecWithRequestInFlight | src/api/hot_reload.c:22-74 | a run in which node.resume between ready and exec lets a request in, and the exec is tried over it |
| EventLoop.ExecClearExactly | src/api/hot_reload.c:22-74 | from any reachable ready state with nothing in flight, every stretch without a reopening that still ends ready has nothing in flight, if and only if the flag is set at that state |
| VmLocks.LockStore.Lock | src/modules/core/vm_state.c:140-249 | granted exactly when the database is not open, or the transaction works and no live, young row stands; then the row is ours, otherwise nothing changes |
| VmLocks.LockStore.Unlock | src/modules/core/vm_state.c:251-267 | removes the row whoever owns it, and no other |
| VmLocks.LockStore.Renew | src/modules/core/vm_state.c:269-296 | re-dates the row exactly when it belongs to this process |
| VmLocks.LockStore.Reconcile | src/modules/core/vm_state.c:95-134 | keeps exactly the rows of live processes |
| VmLocks.LockLifetimes | src/modules/core/vm_state.c:24-37 | a row keeps others out if and only if its process lives and it is younger than 60, 300, 600 or 1800 seconds, by operation |
| VmLocks.HeldMoves | src/api/dispatcher.c:949-988 | every step of every job takes a name it does not hold, releases or renews one it does, or leaves its names alone |
| VmLocks.ReleasedExactlyOnce | src/api/dispatcher.c:949-988 | over every interleaving each job takes a name at most once, releases it exactly as often, and its renewal thread renews only names still held |
| VmLocks.ExclusionStep | src/modules/core/vm_state.c:140-249 | a step keeps this process's rows equal to the disjoint union of the names its jobs hold if and only if it does not overwrite one of its own locks for age |
| VmLocks.LocksExcludeUnlessOvertaken | src/api/dispatcher.c:4755-4934 | the same over every run from start-up |
| VmLocks.OvertakenExactlyWhenLate | src/modules/core/vm_state.c:24-37 | a lock is overwritten exactly when its holder is a create 600 s old or a clone whose source was not renewed for 300 s or target for 600 s |
| VmLocks.LocksExcludeWhilePrompt | src/modules/core/vm_state.c:24-37 | names are exclusive throughout a run if and only if none is asked for while its holder is late |
| VmLocks.CreateOvertaken | src/api/dispatcher.c:1771-1778 | two creates of one name both hold it when the second comes 600 s after the first |
| VmLocks.EndedJobRestores | src/api/dispatcher.c:4755-4934 | over every interleaving, a job that has ended (refused at its target, failed in preflight, or finished) leaves a name only it touched as it found it, if and only if it never took the name or the name had no row |
| VmLocks.RefusedClone | src/api/dispatcher.c:4761-4781 | an uninterrupted run refused at the target: the source is released, and the table is as found exactly when the source had no row |
| VmLocks.CloneStarts | src/api/dispatcher.c:4759-4781 | a clone whose names are free takes both, passes its preflight and starts to renew |
| VmLocks.RenewalRefreshes | src/api/dispatcher.c:949-964 | one round of the renewal thread dates both rows anew |
| VmLocks.EveryJobCanEnd | src/api/dispatcher.c:966-988 | from every reachable world every job can end by its own steps, the join included, and has then given back exactly its names |
| Storage.DestroyUndoes | src/api/dispatcher.c:1068-1091 | destroying a dataset made on a store that lacked it takes nothing else along |
| CloneSaga.CleanupRestores | src/api/dispatcher.c:1133-1144 | target first, then snapshot, takes any intermediate storage back to the one before the run |
| CloneSaga.WrongOrderLeaks | src/api/dispatcher.c:1091-1116 | the snapshot of a copy-on-write clone cannot be destroyed first |
| CloneSaga.CleanupDestroysForeignTarget | src/api/dispatcher.c:1133-1144 | a target dataset that was there before the run does not survive the cleanup |
| CloneSaga.FullCopyDrop | src/api/dispatcher.c:1326-1330 | the temporary snapshot of a full copy may go while the copy stays |
| CloneSaga.FinishedClone | src/api/dispatcher.c:1451-1490 | after definition and the last drop the storage is the finished clone |
| CloneSaga.Host.CleanupFailedArtifacts | src/api/dispatcher.c:1133-1144 | the storage after the cleanup as a function of the one it found |
| CloneSaga.Host.WaitForNode | src/api/dispatcher.c:1300-1324 | waits for the device node for exactly one hundred polls of 100 ms |
| CloneSaga.AbandonedZvol | src/api/dispatcher.c:1133-1144 | whatever stands after the snapshot and whichever destructions are refused: exactly when the cleanup gives back the storage before the run |
| CloneSaga.UndoneWhenHonoured | src/api/dispatcher.c:1133-1144 | where the cleanup is carried out, the exact condition is that no snapshot or definition failed after its effect and the target was not there before |
| CloneSaga.Host.PrepareZvol | src/api/dispatcher.c:1255-1330 | succeeds exactly when snapshot, copy and node do, leaving the intermediate storage; otherwise one failure report, and the storage as before exactly under the stated condition |
| CloneSaga.Host.CopyFileDisk | src/modules/virt/vm_clone_plan.c:354-411 | copies exactly when the paths are absolute, the source but not the target is there and the command works; exactly when a target file is left behind |
| CloneSaga.Host.DefineClone | src/api/dispatcher.c:1345-1497 | from a ready disk on: exactly when the clone is defined, and exactly when a failure leaves the storage as before, a definition that takes effect and reports failure included |
| CloneSaga.Host.CloneWorker | src/api/dispatcher.c:1220-1497 | every step that fails fails the clone and defines no domain; when none fails the clone is there on its own disk; one audit and one broadcast agreeing with the outcome; for every combination of failures, refused cleanups included, exactly when a failed run leaves the storage as it was |
| CloneSaga.Host.HandleClone | src/api/dispatcher.c:4782-4934 | with the handler's checks before the worker and a cleanup that is carried out, a failed clone is atomic if and only if no snapshot or definition took effect and reported failure; a refused one does nothing |
| OvaJobs.Jobs.CreateFinished | src/api/dispatcher.c:883-920 | one job result, one broadcast and one audit record, all agreeing |
| OvaJobs.Jobs.Extract | src/api/dispatcher.c:2902-3025 | each of the six early exits sets the job result once, to failed |
| OvaJobs.Jobs.ImportDisk | src/api/dispatcher.c:2902-3115 | the storage after the disk step, and one job result exactly when it fails |
| OvaJobs.Jobs.ImportWorker | src/api/dispatcher.c:2902-3190 | every step that fails fails the import; when none fails the machine is there on its disk; job result, audit and broadcast agree on every way out; exactly when a failed import leaves the storage as it was |
| OvaJobs.ImportOutcome | src/api/dispatcher.c:2902-3190 | for every storage and every combination of failures, refused cleanups included: success, what is left, the domains, and the exact condition for leaving no trace |
| OvaJobs.FailedConversionLeaks | src/api/dispatcher.c:3096-3113 | after every import whose conversion to an image dies half-way the storage is the one before plus that image |
| OvaJobs.FailedInstallOrphans | src/api/dispatcher.c:3118-3152 | after every import into a pool whose installation defines the domain and reports failure, the domain stays without its disk |
| OvaJobs.CreatedUndone | src/api/dispatcher.c:2885-2900 | destroying the zvol just created restores the storage |
| OvaJobs.Jobs.WriteArchive | src/api/dispatcher.c:2502-2752 | what an export has written on each way out, which names its cleanup goes by, and exactly when the archive was made and found |
| OvaJobs.Jobs.ExportWorker | src/api/dispatcher.c:2502-2774 | every step that fails fails the export, and when none fails the archive is there; the files after the cleanup whichever removals are refused; job result, audit and broadcast agree |
| OvaJobs.ExportTraces | src/api/dispatcher.c:2753-2774 | no temporary file stays exactly when every one written could be removed; nothing changes at all exactly when moreover the archive is as before |
| RateLimiter.KeysCarryLimits | src/api/rest_middleware.c:8-52 | equal keys come from equal addresses and carry equal limits, though addresses may contain the separator |
| RateLimiter.LimitOfEachClass | src/api/rest_middleware.c:8-45 | the limit of every request by path and verb: 60 for logins, 3600 for metrics and health, 120 for making machines, 600 for everything else |
| RateLimiter.SharedBudget | src/api/rest_middleware.c:8-52 | two requests share a count if and only if they come from one address and are in one class of path and verb |
| RateLimiter.WindowLasts | src/api/rest_server.c:853-872 | a request more than sixty seconds after the start opens a new window with only itself in the table |
| RateLimiter.EndpointLimiter.EvictHalf | src/api/rest_server.c:877-893 | in whatever order entries come up, half of them, rounded down, go and the others are untouched |
| RateLimiter.EndpointLimiter.Request | src/api/rest_server.c:853-908 | one request in any state: new window, count, eviction and decision |
| RateLimiter.EvictionShape | src/api/rest_server.c:873-893 | only a key the table does not know can trigger an eviction, only at 1024 entries, leaving at most 514, and surviving counts are unchanged |
| RateLimiter.RateBound | src/api/rest_server.c:853-908 | for every run and key, admissions in the window are at most limit times one plus the evictions that took the key's count; without eviction exactly the first limit; at most 1024 entries; E evictions need 1025 + 511(E-1) requests |
| RateLimiter.RateExact | src/api/rest_server.c:853-908 | after every run, a key's limit holds through every continuation of the window that does not shed its count, if and only if the table still counts as many of its requests as were admitted and those are within the limit |
| RateLimiter.ShedCostsExactly | src/api/rest_server.c:877-893 | after an eviction that took a key's count the limit can be exceeded exactly when a request of the key had been admitted in the window |
| RateLimiter.FirstLimitAdmitted | src/api/rest_server.c:853-908 | in a window without eviction a request is admitted if and only if it is among the first limit of its key |
| RateLimiter.UserLimiter.Request | src/api/rest_server.c:910-957 | one request of a user in any state, the clearing of the full table included |
| RateLimiter.UserWindowLasts | src/api/rest_server.c:910-957 | the same sixty seconds for users |
| RateLimiter.UserRateBound | src/api/rest_server.c:910-957 | the same bound for users: at most 512 entries, each clearing costs 513 requests, and only a clearing that took the user's count buys another limit |
| RateLimiter.UserRateExact | src/api/rest_server.c:910-957 | after every run, a user's limit holds through every continuation of the window in which the table does not forget the user, if and only if the table still counts as many requests as were admitted and those are within the limit |
| RateLimiterWitness.BeyondTheLimit | src/api/rest_server.c:877-893 | a run of 1085 requests in one window that admits 61 of a key whose limit is 60 |
| Lexer.StripCodeLoop | scripts/check_container_owner_scope.py:46-98 | the flag-driven loop computes the pointwise blanking of comments and literals |
| Lexer.BlankLiteral | scripts/check_container_owner_scope.py:79-95 | the inner loop blanks a literal to its end, escapes and the end of the text included |
| Lexer.StripCommentsLoop | scripts/check_cors_anchor.py:36-93 | the one-loop lexer computes the pointwise blanking of comments only |
| Lexer.OffsetsKept | scripts/check_container_owner_scope.py:46-98 | both keep length and the exact newlines, and every other character is copied from its own offset or blank |
| Lexer.NothingOpensLeft | scripts/check_container_owner_scope.py:46-98 | the blanked text holds no quote and no comment opener |
| Lexer.StripCodeIdempotent | scripts/check_container_owner_scope.py:46-98 | blanking twice is blanking once |
| Lexer.StrippedText | scripts/check_zpool_suspend_recover.py:41-97 | read again, the comment-stripped text has the same literals, and code where comments were |
| Lexer.StripsCompose | scripts/check_zpool_suspend_recover.py:41-97 | blanking after stripping comments equals blanking; stripping comments twice equals once |
| Regions.KindsAreRegions | scripts/check_container_owner_scope.py:46-98 | told without the lexer: line comments run to the first newline, block comments to the first end, literals to the first unescaped quote of their kind; for every cover of a text by such regions each character is kept or blanked as its region says |
| Regions.EveryTextIsCovered | scripts/check_cors_anchor.py:36-93 | every text has such a cover, so this says all |
| Regions.LineCommentsExactly | scripts/check_zpool_suspend_recover.py:41-97 | in a text without quotes and block comments a character is in a comment if and only if two slashes stand before or at it in its line |
| Delimiters.MatchDelims | scripts/check_container_owner_scope.py:100-110 | the depth loop computes the matcher, -1 for none |
| Delimiters.MatchMeans | scripts/check_container_owner_scope.py:100-110 | the matcher returns k if and only if k closes the block: nesting is positive before it and zero at it |
| Delimiters.MatchersAgree | scripts/check_zpool_suspend_recover.py:99-161 | from every lexer position, plain matching on blanked text equals literal-aware matching on comment-stripped text |
| Delimiters.ExtractFnBody | scripts/check_container_owner_scope.py:112-130 | the slice of the raw text at the offsets found in the blanked text |
| Delimiters.ScanAware | scripts/check_zpool_suspend_recover.py:113-157 | the scanning loop computes the literal-aware matcher |
| Delimiters.ExtractFuncBody | scripts/check_zpool_suspend_recover.py:99-161 | the slice of the comment-stripped text, to its end when unclosed |
| Delimiters.CandidatesAgree | scripts/check_zpool_suspend_recover.py:99-161 | a candidate leads both extractors to the same brace if and only if no literal hides it |
| Delimiters.ExtractorsAgree | scripts/check_zpool_suspend_recover.py:99-161 | for every text and list of such candidates both find the same closed body, or one none and the other the rest when it is unclosed |
| Delimiters.ExtractorsAgreeExactly | scripts/check_container_owner_scope.py:112-130 | for every list of candidates the extractors agree if and only if the first brace in the blanked text is not hidden by a literal, or its block is unclosed and no later one is found closed |
| Delimiters.BracesDiffer | scripts/check_container_owner_scope.py:112-130 | a brace seen through a literal never stands directly behind another candidate |
| Delimiters.LiteralInGap | scripts/check_container_owner_scope.py:112-130 | a text of six characters on which one extractor finds a body and the other none |
| Delimiters.RawSliceIsBlock | scripts/check_container_owner_scope.py:112-130 | the raw slice runs from a code brace to a code brace, with positive nesting on every proper prefix |
| Delimiters.BodyMeans | scripts/check_container_owner_scope.py:112-130 | told without the extractor: the body found is that of the first candidate whose parameter list is followed, over space only, by a brace, up to the brace that closes it; both directions |
| Arena.GuardExact | src/utils/arena.c:28-46 | the 64-bit guard is right if and only if the sum does not wrap to within the capacity |
| Arena.BlocksDisjoint | src/utils/arena.c:28-46 | for every history of requests and resets the live blocks are 8-aligned, in bounds and pairwise disjoint |
| Arena.Arena.constructor | src/utils/arena.c:15-26 | an empty arena of the given capacity |
| Arena.Arena.Alloc | src/utils/arena.c:28-42 | for every size: granted exactly when the rounded sizes granted since the last reset plus this one fit; the block is zeroed, all else untouched; a refusal changes nothing; the buffer is overrun exactly when the wrapped sum passes the guard and the true one does not fit |
| Arena.Arena.Clear | src/utils/arena.c:44-46 | forgets the blocks |
| Pagination.Paginate | src/api/dispatcher.c:825-858 | for every offset and limit: the slice at the clamped offset, the whole array for a non-positive limit, and undefined exactly when clamped offset plus limit overflows |
| Pagination.PageMeans | src/api/dispatcher.c:825-858 | a page is a run of at most limit elements, shorter only at the end, from the offset brought into range; there is more exactly when elements follow |
| Pagination.WalkDelivers | src/api/dispatcher.c:825-858 | adding the limit while there is more delivers exactly the rest of the array from any offset, in order |
| Pagination.NextLinkIsHasMore | src/api/rest_server.c:379-404 | exactly when the next link and has_more agree: always for a non-negative offset, and for a negative one when the first page is not the last or the unclamped sum too reaches the total |
| Pagination.LinksInvert | src/api/rest_server.c:379-404 | prev undoes next; next undoes prev exactly when prev did not stop at zero |
| Pagination.LinksFollowWalk | src/api/rest_server.c:379-404 | following next links visits the offsets of the walk |
| Dispatch.BuildIndex | src/api/dispatcher.c:5882-5887 | for every table the index answers with the role of a method's last row, and 0 without one, though role 0 is stored as null |
| Dispatch.IndexIsScan | src/api/dispatcher.c:96-310 | where repeated rows agree the index answers like a scan from the top |
| Dispatch.LastMeans | src/api/dispatcher.c:5882-5887 | the role answered is that of a row for the method behind which there is no other |
| Dispatch.RoleWithoutRow | src/api/dispatcher.c:301-310 | the highest role without method or index, none for an unlisted method |
| Dispatch.AliasMeans | src/api/dispatcher.c:5632-5642 | after aliasing a textual name is there under both keys and nothing given is changed |
| Dispatch.TargetsMean | src/api/dispatcher.c:431-460 | whose owner is looked up: the source of a clone if named, else the first name given, in order |
| Dispatch.CloneNamesExactly | src/api/dispatcher.c:4680-4716 | exactly which source and target a clone is carried out with |
| Dispatch.ClonesActOnCheckedName | src/api/dispatcher.c:673-699 | for every request, after aliasing, a clone that passes validation acts on exactly the name whose owner was looked up |
| Dispatch.EmptySourceParts | src/api/dispatcher.c:4680-4716 | without the name validation an empty source would make the two differ |
| Dispatch.BatchAllowed | src/api/dispatcher.c:610-640 | a batch passes if and only if it is a list whose every entry is a name owned by the caller |
| Dispatch.RunBatch | src/api/dispatcher.c:3562-3591 | accepted and rejected split the first 100 entries, each in order and with its reason |
| Dispatch.EntryAnswered | src/api/dispatcher.c:3562-3591 | every entry is accepted if it names a machine that is found, else rejected as empty or not found |
| Dispatch.BatchActsOnOwned | src/api/dispatcher.c:610-640 | every VM an operator's batch acts on is owned by the caller and was found |
| Dispatch.BatchCounts | src/api/dispatcher.c:3562-3591 | accepted plus rejected are exactly the first 100 entries, or all if fewer |

## Left out

- Sockets, io_uring, TLS, libsoup, file descriptors and GObject references: only accept, read and respond events remain.
- Quitting the GLib main loop: a waiter's exit is modelled, not which loop it then quits.
- Wrap-around of the 32-bit counters of the drain, of the rate limiter and of the lock times.
- Clocks: time is an arbitrary integer in the rate limiter, non-decreasing in the lock runs, and the drain deadline may pass whenever a waiter sleeps.
- Lock runs in which the lock database is not open, in which an unlock or a renewal fails, or in which another process overwrites one of this process's expired rows; `LockStore.Lock` states the first for a single call.
- The other holders of VM locks in the same process (start, stop, delete, hotplug, snapshot and container operations): in the lock runs "this process's rows" are those of create and clone jobs only.
- Lock runs that start with a row carrying this process's own recycled process number.
- The contents of files and datasets: the storage tracks names and which clone depends on which snapshot.
- Child datasets, space and properties in ZFS, whether libvirt accepts a name that is taken, and what qemu-img does beyond success, failure, and failure after the effect.
- JSON and OVF parsing, rewriting of the domain XML, the contents of the policy table, and the plain RPC handlers.
- The regular expressions that find a function's name in the check scripts: the positions of the parentheses after it are given.
- The other check scripts, the web interface, metrics and health rendering, and the bootstrap stubs.
- What the arena and the paging do after undefined behaviour of C: a write past the buffer, and a signed overflow.
- OvaJobs.ExportTraces: takes the temporary names to be new; the temporary directory itself and its removal are not modelled.
- Dispatch.IndexIsScan: one direction only, since rows between a method's first and last may disagree without changing either answer.
- EventLoop.TransportsAgree: compares the decisions, not the text of the responses.
