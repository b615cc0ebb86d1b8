# mc-admin, verified

mc-admin administers a Minecraft server. This project models its crash-recoverable
transactions and stateful protocols in Dafny and proves what they promise over every
input, every run and every pattern of failures.

| module | what it models |
|---|---|
| `FileTree`, `History`, `RestoreWorker` | restoring a backup: phase marker, rollback clone, in-place sync, recovery, and the doorman container that answers while Minecraft is down |
| `ArchiveNames`, `Inspection`, `Extraction` | member names of a backup archive, its inspection, and the tree that extraction builds |
| `Containers` | a Docker container between two looks, and what stopping it achieves |
| `Polling` | the two waiting loops of the container controllers |
| `OpLevels`, `OpLedger`, `OpTransaction`, `OpLevelsWorker` | requests for OP levels: the two queue files and the transaction that rewrites `ops.json` |
| `LimiterTable`, `LoginLimiter`, `LoginRuns` | the login attempt limiter |
| `LogTail` | the tail of the server log across rotated archives |
| `RestartTrace`, `RestartScheduler` | scheduled and daily restarts |
| `Wire`, `Doorman`, `Rcon` | the doorman's VarInt packets and the Source RCON Protocol |
| `Sessions` | the session registry and its file |

Conventions:

- A call into the file system or to Docker ends as `Done`, `Raised` (a Python
  exception) or `Killed` (the process died during the call; no handler runs). A call that
  does not end as `Done` may have taken effect in part or in whole. The choice is
  nondeterministic, so a claim about a method holds for every pattern of failures. The
  parameter `calm` promises that none of a method's calls fails (and that a started
  server comes up); the clauses about it say that the method then makes its progress.
  `undoes` is the same promise for the exception handler alone.
- The state of an object is its real fields. Ghost fields record what the fields must
  mean: the deeds that made the world, what each player is owed, the trace of warnings
  and restarts. `Valid()` ties the two together, every method keeps it whichever way it
  ends and says what it adds to the record, and `RunAll` or a similar method carries it
  over whole runs.
- Where a promise of the code is false, the code is modelled as it is, and the exact
  condition is proved (see "Where the code falls short").

`dafny verify dfyconfig.toml` checks everything.

## Main results

1. **Restore is crash-safe** (`RestoreWorker.Worker.RunAll`). After any number of
   runs, each ending in a return, an exception or a kill at any step, the world that
   recovery leaves is the first world with the deeds of these runs replayed. Each run
   adds at most one deed: it restores the requested archive, whole, or it is cut short
   while it removes a rollback in use, and then the live world is still whole and what
   recovery will leave is a remnant of it. Minecraft and the doorman never hold the
   address together, and whenever Minecraft is down, and was not before the first run,
   recovery starts it: a run without failures ends as the phase it finds demands, with
   no files left and the server up. No reserved name ever reaches the stage or the rollback, so
   neither sync is refused.
2. **The in-place sync is exact from any starting point** (`FileTree.SyncTree`), keeps
   inodes wherever source and destination are of one kind, and never touches protected
   names, complete or not.
3. **OP requests are conserved** (`OpLevelsWorker.Worker.RunAll`), with the web process
   setting and removing requests between any two steps of the worker. What is owed is
   computed from its calls (`OpLedger.Owed`): every level last asked for and not
   withdrawn is in the pending file, or else in the applying file, or else `ops.json`
   itself carries it. No request is given up unless a run raised under a `committed`
   marker and its handler was cut short, and then exactly those `Dropped` names. No file
   ever holds a level that nobody asked for. A run without failures completes, and then
   `ops.json` carries what was owed at the claim to every player listed there.
4. **The limiter's books balance** (`LoginLimiter.Limiter`): every lease has its two
   buckets, each bucket counts its leases, failures and leases stay within the
   threshold, locks last (`IpLockLasts`, `PairLockLasts`), and as many failures of a pair
   in one window as its threshold lock it out (`FailuresLock`).
5. **The log tail equals a one-line specification** (`LogTail.FileLog.Tail`) for every
   request, and the per-archive cap is invisible exactly up to 500 lines.
6. **The member loop of extraction succeeds exactly on members with safe names and
   without clashes** (`Extraction.UnpackedLaws`), in whatever order they come, and
   `Inspection.ChecksDiffer` says exactly how this differs from what `inspect_archive`
   lets through. The restore runs on both.
7. **Restarts follow their trace** (`RestartScheduler.RunAll`): it grows by what the
   calls are heard to do and nothing else. **Wire formats round trip**
   (`Doorman.SentIsRead`, `Rcon.AnsweredCommand`), and **the session file answers as memory does**
   (`Sessions.SessionRegistry`).

## Where the code falls short

- `_cleanup_transaction` removes the rollback tree before the marker. If that removal
  is cut short after it has begun, under a phase in which recovery uses the rollback,
  the next run syncs the remainder back and deletes the rest of the world.
  `RemoveRollback` records a `Torn` deed under exactly this condition. `Run` proves that
  only a run ending in an exception or a kill can do it, with the marker of such a phase
  in place and the live world whole. `HalfRemovedRollbackIsTrusted` shows the loss for
  every such state, and `HalfRemovedRollbackLosesAnEntry` for a concrete one that an
  interrupted removal of the full copy may leave (`HalfIsRemnant`).
- When the rollback is gone and the marker still says `applying`, `rolling_back` or
  `rollback_failed` (a cleanup cut short just before the marker), every later run asks for
  an operator and does nothing, although the world is intact and nothing is down
  (`StaysStuck`; `Recover` proves that it asks exactly then).
- `DockerContainerController.stop` acts only on the status `running`. On a container that
  is `restarting` it returns normally and Docker may start Minecraft during the sync.
  `StopHolds` proves that the server stays down if and only if the status read is not
  `restarting`; `CrashLoopComesBack` is the input; `loose` records it in both workers.
- A file and a directory of one name pass `inspect_archive` and cannot be extracted
  (`FileAndDirectoryPassInspection`).
- A leftover `started` marker makes the next run return the earlier target without
  restoring the one now requested (`RestoreWorker.Worker.Run`, fourth clause).
- After `rollback_ready` only removal of the rollback can leave phase `applied` or
  `starting` without a rollback, and then the world is the old one. The message of
  app/restore_worker.py:396-398 says that the restored world was restarted; the state
  shows the old world (`RestoreWorker.Worker.Recover`, `RollbackLost`).
- `DoormanController.release` takes any failed lookup for an absent doorman.
  `ReleaseFrees` proves that the address is free, whatever the deciding look showed, if
  and only if it was not a failed lookup; `FailedLookupShares` starts Minecraft beside a
  running doorman whose lookup fails. `blind` records it.
- `complete_claim` may raise after the `committed` marker. If the handler that then
  undoes the transaction is cut short between restoring `ops.json` and re-queueing the
  claim, recovery completes the claim all the same. `CutShortLosesRequest` gives an
  instance; `CutShortDrops` proves that a request is lost if and only if it was claimed,
  has no newer pending request, and the player is listed in `ops.json` at another level.
- A handler cut short between stop and start leaves a `committed` marker and a stopped
  server. `CommittedStaysDown` proves that recovery then leaves Minecraft stopped if and
  only if it was; `StrandedInstance` is such a state.
- `remove` withdraws a pending request only: the player stays queued if and only if the
  transaction holds a claim (`Remove`), and a claim is applied all the same
  (`WithdrawnTooLate`, `WithdrawnInstance`).
- Failures are forgotten when the table of pairs is full and another pair needs room:
  `FailuresLock` holds while `tracked_pair_count` stays below the limit, and
  `EvictionForgets` and `EvictionInstance` show what happens at it.
- The docstring of `recent` promises lines up to the requested number; a request for
  more than 500 lines can be served short (`CapHarmlessUpTo500`).
- A session of the empty user name is valid in memory and forgotten by a reload
  (`LoadAgrees`, `NamelessSessionIsForgotten`).
- A tick that comes late announces the largest threshold that is due, which can be more
  than the time that really remains: ten minutes, five seconds before the restart
  (`LateTickOverstates`). It overstates by less than the time since every due warning had
  been given (`WarningIsTimely`).
- `_encode_varint` would not end on a negative number; no caller passes one.

## Model

| member | source | states |
|---|---|---|
| FileTree.RemovePath | app/restore_worker.py:52-56 | a completed removal leaves nothing; an interrupted one leaves a remnant: some entries gone, at most one of them removed in part, everything else as it was |
| FileTree.RemoveTree | app/restore_worker.py:55-56 | the same for a directory whose entries go one after the other |
| FileTree.CopyInPlace | app/restore_worker.py:253-258 | copying over a file keeps its inode, and its data is the source's only if the copy completed |
| FileTree.SyncEntry | app/restore_worker.py:261-289 | from any former entry (absent, or of a clashing type) the entry ends with the source's content; inodes are kept level by level where kinds agree |
| FileTree.SyncTree | app/restore_worker.py:292-311 | unprotected names show exactly the source, or the source laid over the former names when absent ones are kept; protected names are untouched even by an interrupted call; refused, before any change, exactly when the source has a protected name |
| FileTree.CloneEntry | app/restore_worker.py:222-236 | a completed clone has the content of its source |
| FileTree.CloneChildren | app/restore_worker.py:239-250 | a completed clone holds exactly the unprotected entries; no protected name ever enters it |
| History.ReplayTakesLastArchive | app/restore_worker.py:450-458 | in a series of restores a root entry comes whole from the last archive that has its name |
| History.ReplayKeepsOtherNames | app/restore_worker.py:450-458 | a root entry that no archive has stays as it was at first; tears can only take from it |
| History.RemnantContents | app/restore_worker.py:336-340 | an interrupted removal leaves nothing new and nothing changed, only less |
| History.SoundSnoc | app/restore_worker.py:336-340 | every torn rollback is a remnant of the world of its time |
| RestoreWorker.Worker.WriteState | app/restore_worker.py:314-321 | the marker is the old one or the new one, never in between; recovery would leave the committed world before and after |
| RestoreWorker.Worker.Commit | app/restore_worker.py:461-464 | the archive enters the history if and only if the `started` marker is in place |
| RestoreWorker.Worker.Extract | app/restore_worker.py:134-201 | the stage holds the tree of the archive's members only if the archive passed inspection as restorable and its members can be extracted; without failures, exactly then; the world is not touched |
| RestoreWorker.Worker.RemoveRollback | app/restore_worker.py:336-340 | tears exactly when the removal is cut short after it has begun while recovery uses the rollback; then the live world is still the committed one and the remnant is not |
| RestoreWorker.Worker.CloneLiveTree | app/restore_worker.py:239-250 | runs only with Minecraft stopped, unless the stop saw a crash loop; once complete, the rollback is exactly the live world, which did not change, without reserved names |
| RestoreWorker.Worker.ApplyStage | app/restore_worker.py:449-459 | runs only with Minecraft stopped, unless the stop saw a crash loop; never refused for a reserved name; the world becomes the overlay, and the rollback stays intact however it ends |
| RestoreWorker.Worker.RestoreRollback | app/restore_worker.py:468-471 | the same conditions; never refused for a reserved name; the world becomes exactly the rollback from any half-applied state |
| RestoreWorker.Worker.Cleanup | app/restore_worker.py:336-340 | the live world is untouched; a completed cleanup leaves no trace of the transaction; the marker goes last; only an interrupted one can tear the rollback, and only in a phase that uses it |
| RestoreWorker.Worker.Stop | app/restore_worker.py:698-707 | Minecraft is down, unless the status read was `restarting`, before the doorman is posted; failing to post it is not an error; without failures it is posted |
| RestoreWorker.Worker.ReleaseDoorman | app/restore_worker.py:647-673 | a normal return was decided by a look that showed the doorman down, and then it is, or by a failed lookup |
| RestoreWorker.Worker.AwaitDown | app/restore_worker.py:657-673 | given what each look shows: which look decides, and what it means for the doorman |
| RestoreWorker.Worker.Start | app/restore_worker.py:709-711 | the doorman is released first, so the two never run together unless a lookup failed; a server left stopped is one that recovery starts; without failures the doorman is gone and the server runs |
| RestoreWorker.Worker.StartContainer | app/restore_worker.py:557-591 | done only if a good look was had; a server that comes up is found up |
| RestoreWorker.Worker.Recover | app/restore_worker.py:343-403 | a recovery that ends normally leaves exactly the world announced by marker and rollback, a server that is up and no files; without failures its end is that of the phase found: rolled back from `rollback_ready` on if the rollback is there, cancelled early before that, restarted without rollback at `applied` or `starting`, the earlier target at `started`, an operator otherwise |
| RestoreWorker.Worker.Prepare | app/restore_worker.py:436-446 | from `stopping` to a complete rollback the world stays intact, whatever fails |
| RestoreWorker.Worker.Overlay | app/restore_worker.py:447-459 | the rollback stays intact throughout; at `applied` the world is the committed one with the archive over it |
| RestoreWorker.Worker.Launch | app/restore_worker.py:461-464 | an exception leaves the rollback intact and the archive uncommitted |
| RestoreWorker.Worker.PutBack | app/restore_worker.py:377-384 | the committed world is back and the server runs; if a step fails the rollback is still there for the next run |
| RestoreWorker.Worker.RollBack | app/restore_worker.py:466-484 | ends with the old world running and nothing left behind, and always so without failures; or asks for intervention with the invariant kept |
| RestoreWorker.Worker.Proceed | app/restore_worker.py:438-464 | the phases are written in their order; an exception leaves an intact rollback if one was made, and an untouched world otherwise |
| RestoreWorker.Worker.Transact | app/restore_worker.py:436-502 | a normal return means that the requested archive is committed, live and running; a cancellation leaves the old world and no files; without failures it returns; if only the handler is free of failures it never needs an operator |
| RestoreWorker.Worker.Begin | app/restore_worker.py:426-502 | after a recovery that found nothing: commits the requested archive, with the phases in order, or ends with the old world; without failures it returns exactly for a restorable archive |
| RestoreWorker.Worker.Run | app/restore_worker.py:406-502 | every normal return names the archive that was last laid over the live world; a run adds at most one deed, the requested archive or a torn rollback beside a whole world; with a leftover `started` marker the earlier target is returned and nothing is done; a run without failures leaves no files, the committed world and a server that is up |
| RestoreWorker.Worker.RunAll | app/restore_worker.py:343-502 | over any series of runs the world that recovery leaves is the replay of their deeds, at most one a run and each accounted for by its end; a run that tears leaves the live world whole; exclusion of the containers; a server that is down is one that recovery starts |
| RestoreWorker.StaysStuck | app/restore_worker.py:400-403 | once an operator is asked for, every later run asks again and changes nothing, with the world intact |
| RestoreWorker.HalfRemovedRollbackIsTrusted | app/restore_worker.py:369-384 | from every torn state a completed recovery deletes each entry the rollback lacks from a world that was whole |
| RestoreWorker.HalfRemovedRollbackLosesAnEntry | app/restore_worker.py:369-384 | a concrete state in which that happens, left by an interrupted removal of the full copy |
| RestoreWorker.HalfIsRemnant | app/restore_worker.py:336-340 | that half rollback is what an interrupted removal may leave of the full one |
| RestoreWorker.FailedLookupShares | app/restore_worker.py:658-665 | a failed lookup of a running doorman counts as released, and Minecraft is started beside it |
| Containers.StopContainer | app/restore_worker.py:538-542 | a normal return has acted on the status it read: a running server is down, any other container as it was |
| Containers.StopHolds | app/restore_worker.py:538-542 | after a normal stop the server stays down, whatever time brings, if and only if the status read was not `restarting` |
| Containers.CrashLoopComesBack | app/restore_worker.py:538-542 | the input that fails: a stop of a restarting container returns normally and the server may run right after |
| ArchiveNames.PartsOfJoin | app/adapters/archive_validation.py:35-38 | parsing a joined path gives its components back |
| ArchiveNames.JoinOfSplit | app/adapters/archive_validation.py:35-38 | splitting a name at its slashes loses nothing |
| ArchiveNames.AcceptedExactly | app/adapters/archive_validation.py:29-42 | a name is accepted if and only if it is not empty, has no forbidden character, no leading slash and no `..` between slashes, and its first component that says something is not reserved |
| ArchiveNames.NormalNameIsKept | app/adapters/archive_validation.py:29-42 | every path in normal form, however deep, is accepted unchanged |
| ArchiveNames.AcceptedNameIsSafe | app/adapters/archive_validation.py:29-42 | an accepted name normalises to a relative path with the same components, no `..`, no forbidden character and no reserved first component |
| ArchiveNames.NormalisationIsIdempotent | app/adapters/archive_validation.py:29-42 | normalising an accepted name twice is normalising it once |
| Extraction.PlaceIsExact | app/restore_worker.py:155-189 | placing a member adds it and its missing parents, and changes nothing at any other path |
| Extraction.PlaceFails | app/restore_worker.py:158-179 | a member is refused exactly when a file stands on its way or its place is taken |
| Extraction.ClashDecides | app/restore_worker.py:158-179 | after members without clashes, the next one is refused exactly when it clashes with one of them |
| Extraction.BuiltHolds | app/restore_worker.py:178-189 | every regular member is found at its path with its data |
| Extraction.UnpackedLaws | app/restore_worker.py:146-189 | members can be extracted if and only if all names are safe, all kinds allowed and no two clash; the tree then holds the members and their parents and nothing else, and no reserved name at its root |
| Extraction.ExtractMembers | app/restore_worker.py:146-189 | the member loop computes that tree, or raises exactly when there is none |
| Inspection.ReadMembers | app/adapters/archive_validation.py:58-92 | reads on exactly when every member is safe and of an allowed kind, no two files share a normal name and `server.properties` is not too long; then the sizes and the properties are those of the members |
| Inspection.Inspect | app/adapters/archive_validation.py:45-130 | fit if and only if the members are readable and there is a file; restorable if and only if, besides, the world that `server.properties` names has a `level.dat` that is not empty |
| Inspection.ChecksDiffer | app/adapters/archive_validation.py:58-73 | for members that each pass, extraction and inspection differ in exactly two ways: a file in the way of a directory, and a second file named after the root |
| Inspection.FileAndDirectoryPassInspection | app/adapters/archive_validation.py:67-71 | a file and a directory of one name pass inspection and cannot be extracted |
| Polling.ClockGrows | app/restore_worker.py:591-591 | after n sleeps at least n poll intervals have passed |
| Polling.AwaitStart | app/restore_worker.py:557-591 | ends within the bound given by timeout and poll interval; returns at the first good look (healthy, or without a healthcheck running since an earlier look min(2 s, timeout) ago), raises at the first hopeless one or at the deadline, and passes over no look that decides |
| Polling.GoodSince | app/restore_worker.py:576-582 | the time the code keeps is that of the first look of the unbroken run |
| Polling.ComesUp | app/restore_worker.py:564-580 | a server that is seen running, healthy wherever that is expected, is found up |
| Polling.AwaitRelease | app/restore_worker.py:657-673 | ends within its bound; returns normally exactly when the doorman is down or gone; it was up at every earlier look |
| Polling.ReleaseFrees | app/restore_worker.py:648-667 | after a normal return the address is free, whatever was shown, if and only if the deciding look was not a failed lookup |
| OpLevels.ByKeyAt | app/op_levels_worker.py:106-106 | keyed by lower-case name, a list keeps each player's last item and no other player |
| OpLevels.FirstIsOnly | app/adapters/pending_op_levels.py:154-155 | without repeated players, keeping the first item is keeping the last |
| OpLevels.ApplyRequestedLevels | app/op_levels_worker.py:102-122 | every matching entry ends at its requested level, all other entries, fields and the order are kept; the count is the number of entries that differ; unresolved are exactly the requests no entry names |
| OpLevels.AppliedIs | app/op_levels_worker.py:109-120 | entry by entry: a requested player gets the level, and name, order and every other field stay |
| OpLevels.DifferencesCount | app/op_levels_worker.py:118-120 | the change count is the number of entries that changed |
| OpLevels.NoDifferences | app/op_levels_worker.py:118-120 | the change count is zero if and only if nothing changed |
| OpLevels.AppliedTwice | app/op_levels_worker.py:102-122 | a second application changes nothing and leaves the same requests unresolved |
| OpLevels.MatchesAreListed | app/op_levels_worker.py:109-121 | matched players are exactly the requested ones that some entry names |
| OpLevels.SetDefaults | app/adapters/pending_op_levels.py:154-155 | unresolved requests go under what is pending, the first of each player: a newer request wins |
| OpLevels.Overwrite | app/adapters/pending_op_levels.py:168-172 | the claim goes over what the applying file holds, the last item of each player |
| OpLedger.OwedIsLastAsk | app/adapters/pending_op_levels.py:123-137 | a player is owed the level of the last call about them, or nothing if that withdrew it, unless given up since |
| OpLedger.OwedAfterGivingUp | app/op_levels_worker.py:225-228 | giving up requests takes exactly these off what is owed |
| OpLedger.OwedUnchanged | app/adapters/pending_op_levels.py:123-137 | calls about other players change nothing of what a player is owed |
| OpTransaction.SetHonours | app/adapters/pending_op_levels.py:123-130 | a new request keeps every promise, and is itself one |
| OpTransaction.RemoveHonours | app/adapters/pending_op_levels.py:132-137 | a withdrawal breaks no other promise |
| OpTransaction.AppliedAt | app/op_levels_worker.py:109-120 | applying a claim gives each claimed player its level and leaves every other player's level |
| OpTransaction.CommitHonours | app/op_levels_worker.py:288-293 | what leaves the queue at the commit is carried by `ops.json` |
| OpTransaction.UndoHonours | app/op_levels_worker.py:294-302 | undoing a commit keeps every promise, provided that the whole claim is queued again |
| OpTransaction.CommitFits | app/op_levels_worker.py:292-292 | the `committed` marker turns the claim into unresolved requests and new operators, with every file still fitting |
| OpTransaction.RestoreFits | app/op_levels_worker.py:196-204 | putting `ops.json` back keeps the files fitting, and exposes the claim exactly under a `committed` marker |
| OpTransaction.ForgoFits | app/op_levels_worker.py:225-228 | taking a `committed` marker at its word keeps every promise but the dropped ones |
| OpTransaction.DeliveredOk | app/op_levels_worker.py:261-293 | applying everything that is owed and not yet carried delivers it: carried if listed, pending if not |
| OpTransaction.CutShortLosesRequest | app/op_levels_worker.py:225-228 | a concrete queue and `ops.json` for which the cut-short handler loses a request |
| OpTransaction.CutShortDrops | app/op_levels_worker.py:225-228 | a request is lost there if and only if it was claimed, nothing newer is pending and its player is listed at another level |
| OpLevelsWorker.Worker.SetLevel | app/adapters/pending_op_levels.py:123-130 | accepted exactly for a name and a level of 1 to 4; the newest request replaces any other, claimed or pending |
| OpLevelsWorker.Worker.Remove | app/adapters/pending_op_levels.py:132-137 | withdraws the pending request; the player stays queued if and only if the transaction holds a claim |
| OpLevelsWorker.Worker.Serve | app/adapters/pending_op_levels.py:123-137 | the next call of the web process changes what is owed as that call says |
| OpLevelsWorker.Worker.ClaimAll | app/adapters/pending_op_levels.py:139-147 | nothing leaves the queue, whichever of the two writes fails; the claim is the whole queue with the newest levels |
| OpLevelsWorker.Worker.CompleteClaim | app/adapters/pending_op_levels.py:149-157 | the queue stays the same through both writes, so a replay gives the same result |
| OpLevelsWorker.Worker.RestoreClaim | app/adapters/pending_op_levels.py:159-175 | the claim is back under any newer request; the queue stays the same through both writes |
| OpLevelsWorker.Worker.Commit | app/op_levels_worker.py:292-292 | at the marker, and only there, the operators become the new ones and the claim leaves the queue |
| OpLevelsWorker.Worker.ReplaceOps | app/op_levels_worker.py:280-287 | `ops.json` is replaced only with Minecraft stopped, unless the stop saw a crash loop, and a rollback in place |
| OpLevelsWorker.Worker.RestoreOps | app/op_levels_worker.py:196-204 | the original is back; under a `committed` marker, and only then, the claim becomes exposed |
| OpLevelsWorker.Worker.Cleanup | app/op_levels_worker.py:190-193 | removes rollback then marker, with every promise already kept by the pending file and `ops.json` alone |
| OpLevelsWorker.Worker.Revert | app/op_levels_worker.py:294-323 | a completed undo leaves the original `ops.json`, every request owed in the pending file or carried, the server up and no files |
| OpLevelsWorker.Worker.Abandon | app/op_levels_worker.py:225-228 | what recovery gives up by trusting a `committed` marker: nothing, or exactly the dropped requests and the restart |
| OpLevelsWorker.Worker.Recover | app/op_levels_worker.py:207-243 | the operators stay those the marker announced; exactly the dropped requests are given up, none unless the claim was exposed; a cancelled transaction leaves the server up and all requests queued; a `committed` marker does not start the server; without failures any other marker is undone |
| OpLevelsWorker.NewEntries | app/op_levels_worker.py:279-279 | the edited copy, its number of changes and the unresolved requests are the specified ones |
| OpLevelsWorker.Worker.Rewrite | app/op_levels_worker.py:279-288 | `ops.json` holds the applied levels even when the write was skipped for lack of changes |
| OpLevelsWorker.Worker.Proceed | app/op_levels_worker.py:262-293 | the operators change exactly at the commit; the returned numbers are the differences and the players still waiting |
| OpLevelsWorker.Worker.Transact | app/op_levels_worker.py:259-334 | completed: levels applied, server up, numbers exact; cancelled: original restored and every request owed queued; cut short only in the handler of a run that raised under a `committed` marker, never by a kill alone |
| OpLevelsWorker.Worker.Run | app/op_levels_worker.py:246-334 | the operators after a run are the old ones or the old ones with the whole claim applied, never a mix; the claim is all that was owed at its moment and not yet carried, and nothing nobody asked for; once completed, what was owed then is carried by `ops.json` for listed players and pending for others, unless a later call says otherwise; without failures a run completes, or cancels what it found |
| OpTransaction.Conserved | app/adapters/pending_op_levels.py:107-175 | in every reachable state but the exposed one, each request owed is in the pending file at its level, or else in the applying file at its level, or else carried by `ops.json` itself |
| OpLevelsWorker.Worker.RunAll | app/op_levels_worker.py:207-334 | over any series of runs and any calls of the web process what these calls leave owed is in one of the two queue files at its newest level or carried by `ops.json`; nothing is given up and the server never stranded unless a run raised under a `committed` marker and its handler failed or died |
| OpLevelsWorker.CommittedStaysDown | app/op_levels_worker.py:225-228 | a recovery that finds a `committed` marker leaves the server stopped if and only if it was |
| OpLevelsWorker.StrandedInstance | app/op_levels_worker.py:297-299 | a committed transaction whose handler died after its stop leaves Minecraft stopped |
| OpLevelsWorker.WithdrawnTooLate | app/adapters/pending_op_levels.py:132-137 | a request withdrawn after the claim is applied all the same |
| OpLevelsWorker.WithdrawnInstance | app/adapters/pending_op_levels.py:132-137 | a concrete claim, withdrawn and then applied |
| LimiterTable.AfterTrims | app/api/login_security.py:281-283 | filtering by the window drops exactly the failures at or before the cutoff, from the left |
| LimiterTable.PrepareBucket | app/api/login_security.py:275-283 | what remains are exactly the failures that count: all under a running lock, none after one that ran out, otherwise those in the window; a lock that ran out is gone |
| LimiterTable.Released | app/api/login_security.py:266-273 | a live lease finds its bucket with a positive count, and the accounting holds after it |
| LimiterTable.TotalIsLeases | app/api/login_security.py:261-264 | the in-flight counts of a table add up to the number of leases |
| LoginLimiter.ReleaseOk | app/api/login_security.py:266-273 | the clamp at zero never decides |
| LoginLimiter.EvictionOrder | app/api/login_security.py:308-315 | the order of eviction is total: no failures first, then the longest unseen, then by key |
| LoginLimiter.Evict | app/api/login_security.py:307-316 | gives up the one idle bucket that is first in this order; none if all are locked or in use |
| LoginLimiter.GetOrCreate | app/api/login_security.py:303-319 | fails exactly when the table is full of locked or busy buckets; otherwise evicts at most one idle bucket and keeps the size bound |
| LoginLimiter.Sweep | app/api/login_security.py:298-301 | what remains are exactly the prepared buckets that are not empty |
| LoginLimiter.ReleasedStep | app/api/login_security.py:294-296 | forgetting one more lease releases its bucket and no other |
| LoginLimiter.FailedOk | app/api/login_security.py:213-224 | a counted failure keeps the bucket within its threshold, locks it at the threshold and shortens no lock |
| LoginLimiter.ChargedOk | app/api/login_security.py:205-224 | a failure leaves the failures that count followed by this one, and at the threshold a lock that is the longer of the old one and the new |
| LoginLimiter.AdmitsMeans | app/api/login_security.py:180-196 | a bucket admits if and only if it has no running lock and the failures that count with the attempts in flight are below the threshold |
| LoginLimiter.Limiter.TotalsAgree | app/api/login_security.py:261-264 | in every reachable state both tables' totals equal the number of leases |
| LoginLimiter.Limiter.Release | app/api/login_security.py:266-273 | both buckets exist with a positive count; locks and failures are kept |
| LoginLimiter.Limiter.Cancel | app/api/login_security.py:240-249 | only the lease and emptied buckets go; locks are kept; an unknown token changes nothing |
| LoginLimiter.Limiter.Success | app/api/login_security.py:226-238 | the pair has no failures and no lock afterwards; every other pair is the same bucket as before, and the address keeps its lock |
| LoginLimiter.Limiter.Failure | app/api/login_security.py:205-224 | in each of the two buckets the failures that count are followed by this one, and at the threshold it is locked for the lock time or longer; other buckets unchanged |
| LoginLimiter.Limiter.ForgetStale | app/api/login_security.py:289-296 | exactly the stale leases go, and each bucket counts those that are left |
| LoginLimiter.Limiter.CleanupIfDue | app/api/login_security.py:285-301 | when the interval has passed, exactly the leases older than the timeout go and both tables are tidied; otherwise nothing changes; locks are kept |
| LoginLimiter.Limiter.TryTake | app/api/login_security.py:175-203 | with both buckets at hand: a lease if and only if both admit it, and exactly what entering or being turned away leaves |
| LoginLimiter.Limiter.Reserve | app/api/login_security.py:169-203 | a lease is given if and only if both tables have room and both buckets admit it; the buckets, the evictions and a refusal's traces are exact |
| LoginLimiter.Limiter.Begin | app/api/login_security.py:162-203 | a lease is given if and only if both tables, tidied if a cleanup is due, have room and admit it; leases, buckets and evictions are exact; a locked pair or address gets none |
| LoginRuns.Perform | app/api/login_security.py:162-249 | every public call keeps the invariant and every lock but that of the pair a success is for; while the table has room it charges the failure to its pair and only ages the failures of every other |
| LoginRuns.IpLockLasts | app/api/login_security.py:184-187 | over any calls in clock order a locked address gets no lease before its lock ends |
| LoginRuns.PairLockLasts | app/api/login_security.py:184-187 | over any calls in clock order a locked pair gets no lease before its lock ends, unless an earlier success on that very pair cleared it |
| LoginRuns.ChargeDecides | app/api/login_security.py:213-224 | a failure locks the pair if and only if the last so many failures of the whole log, as many as the threshold, are in the window |
| LoginRuns.FailuresLock | app/api/login_security.py:162-249 | over any calls: from the first failure that makes as many in one window as the threshold, the pair gets no lease for the lock time, without a success on it and while the table has room |
| LoginRuns.EvictionForgets | app/api/login_security.py:307-316 | with a table for one pair, an attempt on another pair makes the limiter forget the first one's failures |
| LoginRuns.EvictionInstance | app/api/login_security.py:307-316 | a concrete limiter that forgets a failure so |
| LogTail.NewestAreNewest | app/adapters/log_file.py:107-116 | the archives consulted are at most seven, in descending time, and none left out is newer than one of them |
| LogTail.FilterJoins | app/adapters/log_file.py:84-84 | filtering is line by line and keeps the order |
| LogTail.FilterOne | app/adapters/log_file.py:52-53 | a line is kept exactly if it passes the filter |
| LogTail.LastIsSuffix | app/adapters/log_file.py:84-84 | the last lines are a suffix, as long as asked for or as there is |
| LogTail.JoinedJoins | app/adapters/log_file.py:90-105 | archives are joined in time order, the older in front |
| LogTail.JoinedOne | app/adapters/log_file.py:118-137 | an archive that cannot be read counts as empty |
| LogTail.LastBoot | app/adapters/log_file.py:72-78 | the index of the last boot line, or -1 |
| LogTail.SwapCuts | app/adapters/log_file.py:55-70 | cutting at the last boot and keeping the last n lines commute |
| LogTail.CapIsInvisible | app/adapters/log_file.py:118-137 | capping each archive changes no request within the cap, whatever the archives |
| LogTail.CapKeepsRecent | app/adapters/log_file.py:39-39 | up to 500 lines the capped and the uncapped specification agree |
| LogTail.CapShortensLargeRequests | app/adapters/log_file.py:39-39 | above 500 lines there is a log for which they differ |
| LogTail.CapHarmlessUpTo500 | app/adapters/log_file.py:39-39 | the cap is harmless for all logs if and only if at most 500 lines are asked for |
| LogTail.ReadTail | app/adapters/log_file.py:80-88 | a bounded queue over the useful lines holds the last of them |
| LogTail.LastBootIndex | app/adapters/log_file.py:72-78 | the backward scan finds the last boot line |
| LogTail.Current | app/adapters/log_file.py:61-70 | how the end of the current log alone decides: a boot in it, enough lines, or the rest from the archives |
| LogTail.FileLog.ArchiveLines | app/adapters/log_file.py:118-137 | with the cache the same lines as without |
| LogTail.FileLog.Backfill | app/adapters/log_file.py:90-105 | the early-exit scan equals the last lines since the last boot over all archives |
| LogTail.FileLog.Tail | app/adapters/log_file.py:55-70 | equals the specification for every request, and the uncapped one up to 500 lines |
| RestartScheduler.Scheduler.Schedule | app/adapters/restart_schedule.py:33-50 | thresholds above the whole delay are never announced; the programming replaces the former one |
| RestartScheduler.Scheduler.Cancel | app/adapters/restart_schedule.py:52-57 | nothing is pending afterwards; tells whether something was |
| RestartScheduler.Scheduler.TakeDueWarning | app/adapters/restart_schedule.py:63-72 | the largest threshold that is due and unannounced, each once; none only if all due ones were announced |
| RestartScheduler.WarningIsTimely | app/adapters/restart_schedule.py:63-72 | a warning overstates the time left by less than the time since every due warning had been given |
| RestartScheduler.LateTickOverstates | app/adapters/restart_schedule.py:63-72 | an hour's delay and a first tick five seconds before the restart announce ten minutes |
| RestartScheduler.Scheduler.ScheduleRestart | app/domain/services/actions.py:223-241 | accepted exactly for a positive delay; thresholds beyond it count as announced |
| RestartScheduler.Scheduler.CancelScheduledRestart | app/domain/services/actions.py:254-266 | the programming never acts again |
| RestartScheduler.Scheduler.SetDaily | app/adapters/recurring_restart.py:43-55 | a new or cleared configuration starts afresh, with no fired day |
| RestartScheduler.Scheduler.TickDaily | app/domain/services/actions.py:385-418 | arms if and only if nothing is pending, the day has not fired and the appointment is within its notice; a pending one-shot is never overwritten; a missed appointment is marked, not caught up; the trace grows by the arming and nothing else |
| RestartScheduler.Scheduler.Tick | app/domain/services/actions.py:273-336 | restarts if and only if due, not deferred for players and not busy; a postponed restart stays programmed; says a threshold only when no more than that is left, the largest not yet said, and is quiet only if all due ones were; the trace grows by exactly what is heard, after the arming if there is one |
| RestartTrace.TraceSnoc | app/domain/services/actions.py:273-336 | an event that belongs to the latest programming or configuration, and is fine after each earlier one, extends a good trace |
| RestartScheduler.Perform | app/domain/services/actions.py:223-418 | each call adds to the trace what the call is and was heard to do |
| RestartScheduler.RunAll | app/domain/services/actions.py:223-418 | over every run, on what the calls were heard to do: warnings of one programming strictly decrease, none exceeds its delay and none comes while more time than it says is left; then at most one restart, never early, never with the defer flag unless zero players were confirmed; nothing follows a cancellation; the daily rule arms once a day per configuration |
| Wire.Socket.ReadExact | app/doorman_server.py:68-75 | exactly the asked number of bytes however they are chunked, or a failure at the end of the stream |
| Doorman.EncodeVarint | app/doorman_server.py:88-95 | ends for every natural number and writes its base-128 digits |
| Doorman.RoundTrip | app/doorman_server.py:78-95 | with any number of allowed bytes a value is read back exactly when it fits, and refused above |
| Doorman.VarintDigits | app/doorman_server.py:88-95 | byte i holds the digit of weight 128^i, and its top bit says whether more follow |
| Doorman.ThreeHundred | app/doorman_server.py:88-95 | 300 is AC 02 on the wire |
| Doorman.VarintRoundTrip | app/doorman_server.py:78-95 | decoding inverts encoding exactly below 2^35, whatever follows, and refuses everything above |
| Doorman.DecodedBounds | app/doorman_server.py:78-85 | what is read is in range and consumes at least one byte |
| Doorman.ReadVarint | app/doorman_server.py:78-85 | the socket reader computes the specified decoding on every input |
| Doorman.PacketReader.Varint | app/doorman_server.py:116-126 | the buffer reader agrees with the socket reader on every input |
| Doorman.SendPacket | app/doorman_server.py:105-106 | writes the framed payload |
| Doorman.ReadPacket | app/doorman_server.py:98-102 | reads one framed payload, with each error case |
| Doorman.PacketRoundTrip | app/doorman_server.py:98-106 | a packet is read back if and only if its length is 1 to 32768 |
| Doorman.StreamRoundTrip | app/doorman_server.py:98-106 | a stream of such packets is read back packet by packet |
| Doorman.ReadPackets | app/doorman_server.py:98-102 | reading packet by packet off a socket is what the stream says |
| Doorman.SentIsRead | app/doorman_server.py:98-106 | what was sent packet by packet is read back unchanged however the network cuts it up, and the rest is left |
| Rcon.Int32Bytes | app/adapters/rcon.py:35-36 | the four bytes are the number's digits to base 256, lowest first, modulo 2^32 |
| Rcon.PacketLayout | app/adapters/rcon.py:33-36 | length, id, type, payload and two zero bytes, in this order |
| Rcon.ListCommandBytes | app/adapters/rcon.py:33-36 | the bytes of one concrete command |
| Rcon.PacketRoundTrip | app/adapters/rcon.py:33-42 | decoding inverts encoding for all ids, types and payloads |
| Rcon.TakeEncoded | app/adapters/rcon.py:33-42 | an encoded packet is taken from the front of any stream, with its id, type, payload and payload size, and leaves the rest |
| Rcon.FragmentsConcat | app/adapters/rcon.py:28-30 | fragments of at most 4096 bytes join to the reply; the first is short exactly when the reply is |
| Rcon.CollectFragments | app/adapters/rcon.py:103-111 | collecting up to the sentinel's answer joins all fragments and leaves what follows |
| Rcon.ReplyReassembled | app/adapters/rcon.py:91-111 | a reply of any length, exact multiples of 4096 included, comes back whole and the stream stands at what follows |
| Rcon.RconConnection.RecvPacket | app/adapters/rcon.py:81-89 | takes one packet off the stream, or raises |
| Rcon.RconConnection.Command | app/adapters/rcon.py:91-111 | returns the specified reply and leaves the stream behind it; the sentinel is sent only when the first packet is full |
| Rcon.AnsweredCommand | app/adapters/rcon.py:91-111 | against a server that splits its reply the client returns the whole reply and leaves what follows |
| Sessions.LoadAgrees | app/api/sessions.py:70-94 | exactly the sessions with an id, a user name and an age within the lifetime are loaded; a reload answers as the file does from then on for every named user, and no for the empty name |
| Sessions.NamelessSessionIsForgotten | app/api/sessions.py:78-80 | a session of the empty name is valid before a reload and invalid after |
| Sessions.EnforceCap | app/api/sessions.py:101-110 | exactly the cap remains if there were more, none evicted is newer than one kept, other users keep all, the newest survives |
| Sessions.CapHolds | app/api/sessions.py:106-110 | evicting the first of the sorted sessions meets the cap and spares the newer ones |
| Sessions.NewestKept | app/api/sessions.py:108-110 | the session just opened is not evicted |
| Sessions.OthersKept | app/api/sessions.py:101-110 | the sessions of every other user are the same, in the same order |
| Sessions.OldestByAge | app/api/sessions.py:108-108 | the stable sort orders by age |
| Sessions.ExpiredIsIdle | app/api/sessions.py:139-142 | purging an expired session changes no later answer |
| Sessions.SessionRegistry.Restart | app/api/sessions.py:70-94 | a restart changes no answer for a named user |
| Sessions.SessionRegistry.Register | app/api/sessions.py:114-128 | the new session is there, the cap holds, other users are unchanged, the file is memory |
| Sessions.AnswerMeans | app/api/sessions.py:130-143 | valid is a session of that id and user whose age is at most the lifetime, or any age without one |
| Sessions.SessionRegistry.IsValid | app/api/sessions.py:130-143 | answers exactly that from the sessions, purges the session if it is the user's and expired and nothing else, changes no later answer |
| Sessions.SessionRegistry.Touch | app/api/sessions.py:145-151 | sets when that session was last seen and changes nothing else; the file still agrees |
| Sessions.SessionRegistry.Revoke | app/api/sessions.py:171-180 | succeeds exactly for a session of that user, which is then gone from memory and file |
| Sessions.SessionRegistry.RevokeOthers | app/api/sessions.py:182-194 | exactly the user's other sessions go, and their number is returned |
| Sessions.Perform | app/api/sessions.py:70-194 | no call brings back a session that is gone from memory and file |
| Sessions.RevokedStaysInvalid | app/api/sessions.py:171-199 | over any calls and restarts a revoked session stays invalid for everyone |

## Left out

- File metadata, ownership, reflinks, hard links, special files and the order of writes to disk under power loss: trees hold content and inode numbers, and a failure is an exception or a process kill.
- What the server writes to its world after a start: `RestoreWorker` compares worlds as the worker leaves them.
- Container states beyond running, restarting and halted, and an operator who starts or stops containers meanwhile: a started server stays up or in a crash loop until a worker stops it.
- Unreadable, unknown or externally edited marker files, and a rollback without a marker, which no run leaves.
- JSON, gzip and tar encoding: taken as lossless on well-formed data; reading `level-name` off the text of `server.properties` is a parameter of `Inspection`; a changed fingerprint is one of the failures of extraction.
- Lower-casing of player names and normalising of addresses and user names: names come with their folded form, keys come normalised.
- The order of the claimed list and of the pending list shown to users: queues are maps.
- Writes of Minecraft itself to `ops.json`, and of a player's own commands: only the worker rewrites it here.
- Reading corrupt queue files, which raises in every operation.
- LoginRuns.Perform: takes calls in clock order; the code reads its clock before it takes its lock.
- LogTail.FileLog.Tail: takes the listing of the archives with their times, and what each version of an archive holds, as given; a listing that fails and the stripping of line ends are not modelled.
- RestartScheduler.Scheduler.Tick: one tick is one step, so calls from other threads fall between ticks; announcements in the game, the note of a deferral, audit and permissions are not modelled, and a failing write of the fired day is not either.
- RestartScheduler.RunAll: local days do not run backwards.
- Doorman.ReadVarint: adding stands for the bitwise or of bits that do not overlap.
- Doorman strings, status and login replies, and Rcon authentication and text decoding: payloads are bytes.
- Sessions.SessionRegistry.Register: the random token is new and not empty, and the write of the file succeeds; addresses and user agents are not modelled.
- The web routes, templates, RBAC, notifications, mod, update and backup services, and the clients of foreign services: each is settled by reading one branch or one call.
