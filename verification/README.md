# Scrim: protocols, registries and text cores, proved

Scrim serves "canvases" (small directory trees of web files) to browsers and keeps them fresh. This
project models the parts of it that rest on subtle ordering, counting or arithmetic, and proves what
they are for, in Dafny 4.11. `dafny verify dfyconfig.toml` checks everything.

## What is modelled

**Reloads.** `ReloadProtocol` is the watcher, its timers and `Close` as an interleaved step system:
the event loop, one *generation* per `AfterFunc` call, the runtime dispatching a timer at any moment
after its deadline, the callbacks, each phase of `Close`, and the SSE clients. `Stop`, `Reset`,
`fireWG.Add`, `AfterFunc` and the map update are separate steps. `ReloadDebounce` proves of its runs when
reloads start and that a burst of events gets one, `ReloadAccounts` where they come from. `CanvasWatcher` is the same object
as a class and its methods are tied to those steps; `SseHub` is the client registry with its two
caps and its incrementally kept total.

**Canvas trees.** `FileSystem` is a map from named paths to whole trees, in which every call may
fail and a failed removal or copy may leave anything at the path it was working on. The class keeps
every state it has been in and counts its faults, so that `Snapshots` (snapshots, revert, revert with
a safety snapshot) and `TreeSwap` (the swap of push and copy) state what held at every moment, hence
wherever a run stops, and that without faults they succeed. `TreeWalk` and `PushArchive` are the walks
that copy or pack trees, entry by entry, under byte and entry caps; a tree of the file system is a
tree of theirs, and `TreeSwap.PushPacked` goes from a packed directory to the canvas. `SnapshotNames`
is the naming of snapshots, with the calendar it rests on. `HandlerLocks` lets any number of pushes,
copies, single-lock handlers and metadata writers run at once, and `SharedTrees` lets all of them work
on one file system, each system call a step of its own that may fail and that suits its handler's
request, with creates beside them that take no push lock. `Footprints` proves what each
kind of handler may change, and that swaps can go through.

**Metadata.** `KeyedMutex` is the mutex-per-key table, as a class and as a step system that is
proved to be one atomic lock per key; `CanvasMeta` the four read-modify-write operations;
`MetaConcurrency` any number of goroutines running them.

**Registries.** `SessionRegistry` and `AgentRegistry` give each operation of the two stores as a
function of the state, the clock readings and the outcome of each save, with runs that include
restarts; `SessionStore` and `AgentStore` are the stores as classes whose methods are proved to
compute those functions. `LoginRenewal` puts one browser's cookie beside the session registry, and
`SignedCookie` is the signed value itself, for any MAC (base64url is section 5 of RFC 4648). An agent
token's date is the issued-at claim of section 4.1.6 of RFC 7519.

**Text.** `LogScrubber` (three leftmost-greedy rewrites), `FileEdit` (exact-string edits and
batches), `Paths` (canonical paths against joined ones).

## What the proofs found

- *A session's closed form is not exact at login.* `ExpiresAt = min(CreatedAt + maxLifetime,
  LastSeen + idleTTL)` trails by the time between the login's clock reading and the registry's until
  the first renewal; it holds at login if and only if the two readings agree
  (`SessionRegistry.LoginLag`). So a session used at gaps below the idle window can still be lost:
  with uses at most `gap` apart and a delay of at most `delay`, every session lives to its cap if and
  only if `gap + min(delay, gap) + TouchInterval <= idleTTL`, or the window reaches the cap
  (`RegularSessionsSurviveExactly`).
- *A logout whose save fails is undone by a restart*, and a second logout in between reports success
  without writing (`UnsavedLogoutComesBack`). Whatever the process does in between, the session
  answers after the restart if and only if neither the logout's save nor any later one worked and the
  file's copy has not expired (`LogoutIsFinalExactlyWhenSaved`). Until the restart it never answers
  (`EndedMisses`).
- *A renewed cookie can outlive its record* after a failed save and a restart
  (`LoginRenewal.RestartAfterUnsavedRenewal`). Cookie and registry agree throughout a run if and only
  if at each restart the file's copy of the record is dead or ends in the cookie's second
  (`AgreesThroughoutExactly`); it is enough that each renewal that re-issued the cookie had reached
  the file by then (`SavedRenewalsSurvive`).
- *A revocation whose save fails lasts for the process*, and beyond it if and only if some later save
  works before the restart or the file already had it (`AgentRegistry.UnsavedRevocation`,
  `UnsavedRevocationIsLost`).
- *A create stops a swap.* It makes its directory without the push lock, and `os.Rename` refuses a name
  that holds a directory, even an empty one. From the moment a push, copy or revert has moved the old
  tree aside, its new tree can be put in place, and then the old one back, if and only if no create has
  taken the canvas's name since; otherwise both renames fail with nothing wrong on the disk
  (`SharedTrees.SwapSucceedsExactly`, `RollBackWorksExactly`, `CreateStopsASwap`). The canvas is then an
  empty directory, and its tree still whole at the name it was moved to.
- *A revert clears a backup that it may still need.* The name reverts move trees to is removed before
  there is anything to put in place. A complete tree is no longer at any of its canvas's names if and
  only if a revert has removed it there while the canvas did not hold it (`SharedTrees.LostExactly`), and
  no longer anywhere if and only if that was the only copy on the disk (`GoneExactly`). Over whole runs
  nothing else loses one (`SafeThroughoutExactly`). It takes two reverts, the first stopped by a create
  or by two faults (`StrandedTreeIsLost`, `ALossCanBegin`). If the first took a safety snapshot, the tree
  is there too.
- *`readMeta` hides a failed read*, so the next write starts from nothing and drops every share; a
  write keeps them exactly if the read worked or there were none (`CanvasMeta.KeepsSharesExactly`,
  `FailedReadDropsShares`).
- *`Create` cannot blank a title*: asked for no metadata on a canvas without owner and grants it
  writes nothing, and the old title stays (`CanvasMeta.CreateRecordsExactly`,
  `BlankCreateKeepsTheTitle`).
- *`os.Stat` failing on an existing canvas skips the safety snapshot*; after a cleaned-up revert the
  old tree survives exactly if the snapshot was taken or the revert changed nothing
  (`Snapshots.OnlyASeenCanvasIsSaved`, `AnUnseenCanvasIsLost`).
- *The prefix test of both joins is no containment under a root that climbs*: with root `..`, the
  name `..` is accepted and leaves it. Exactly the clean roots ending in `..` are affected
  (`Paths.JoinContainsExactly`); the program's own roots never do.
- *`validateName` lets the lone `/` through*, because `filepath.Base` returns it unchanged; it is
  `parseName` that stops it (`SnapshotNames.ValidateNameExactly`).
- *Two (subject, client) pairs can share an agent row* only through a line break: moving one across
  the join keeps the row, whatever the digest (`AgentRegistry.LineBreakSharesARow`), and with a
  collision-free digest a pair has a row of its own if and only if neither string holds one
  (`OwnRowExactly`). Both strings come from header values (`internal/server/hubgate.go:236-240,351`),
  which hold none, so no request meets the failing side.

## Model

| member | source | states |
|---|---|---|
| ReloadProtocol.NoReloadIsLost | internal/server/watcher.go:107-175 | In every interleaving, until Close starts cancelling, an event of a canvas is still being handled, or a generation of it is still to enter onReload, or a reload that began after the event was broadcast and each client registered by then has an unread token or read one since |
| ReloadProtocol.OnePendingPerCanvas | internal/server/watcher.go:144-175 | At most one generation per canvas is pending; it is the one in the timers map, due one debounce after its latest arming and no sooner than that after the latest event |
| ReloadProtocol.FireCountBalances | internal/server/watcher.go:158-175 | fireWG is the number of generations neither finished nor cancelled plus the Add or Done in flight, never negative, and no Add runs beside Close's Wait |
| ReloadProtocol.CloseIsABarrier | internal/server/watcher.go:191-211 | Once Close has returned every generation is finished or cancelled, and in no continuation is a timer dispatched or onReload entered, broadcast in or left |
| ReloadProtocol.ClosedIsQuiet | internal/server/watcher.go:196-211 | With Close returned, each single generation is finished or cancelled |
| ReloadProtocol.ClosedRuns | internal/server/watcher.go:191-211 | Every run after Close consists of clock ticks and client steps and leaves the timers alone |
| ReloadProtocol.EveryEventCanBeServed | internal/server/watcher.go:107-175 | From every reachable state before the sweep, the loop, timers and callbacks alone can carry a recorded event to a reload that began after it |
| ReloadProtocol.CloseCanReturn | internal/server/watcher.go:191-211 | From every reachable state in which Close has been called, the loop, the callbacks and Close itself can carry it to its return, with no event, client or time needed |
| ReloadProtocol.CloseAdvances | internal/server/watcher.go:191-211 | While Close is under way one of them has a step that lowers what is left of it |
| ReloadProtocol.NothingLingers | internal/server/watcher.go:160-170 | Once every callback has returned the timers map is empty again, whichever generations took over an entry |
| ReloadProtocol.NextEventIsServed | internal/server/watcher.go:86-105 | Until Close begins the watcher never stops listening: from every reachable state it can take a new event of any canvas and go on to a reload that began after it |
| ReloadProtocol.PendingWhileClosing | internal/server/watcher.go:144-196 | A reachable state with an event recorded, its generation pending and Close called, for any canvas and window |
| ReloadProtocol.RunKeepsInv | internal/server/watcher.go:86-211 | Lock ownership, timer map, credit, deadlines, outstanding events and delivered tokens are kept by every step of every run |
| ReloadProtocol.CallbackKeepsStored | internal/server/watcher.go:160-172 | A callback deletes the map entry only if it is its own, so every other pending generation stays the stored one |
| ReloadProtocol.CloseKeepsCredit | internal/server/watcher.go:196-211 | Close returns one credit for each timer it stops and none for one already dispatched |
| ReloadProtocol.LoopKeepsCredit | internal/server/watcher.go:144-175 | A new generation brings exactly its own credit; a pushed-back one brings none |
| ReloadProtocol.CallbackKeepsDelivered | internal/server/hub.go:74-83 | A broadcast leaves every client registered when its reload began with an unread token |
| ReloadDebounce.NoReloadBeforeItsTime | internal/server/watcher.go:120-122 | In every run, when a generation enters onReload a whole window has passed since it was last armed, by its AfterFunc or a Reset since |
| ReloadDebounce.BurstReloadsOnce | internal/server/watcher.go:120-175 | However many events of a canvas come with no timer of it dispatched in between, exactly one reload is due after them; in every run from there it is entered once, or cancelled by Close, or still due, and if entered no sooner than a window after the last event |
| ReloadDebounce.DueBalances | internal/server/watcher.go:144-175 | Reloads that are due are made by AfterFunc alone and leave by entering onReload or by the sweep, one for one |
| ReloadDebounce.RunStaysInTime | internal/server/watcher.go:144-175 | Along every run a pending generation is due one window after its own latest arming, and one under way was due |
| ReloadAccounts.BroadcastsFollowEvents | internal/server/watcher.go:107-175 | Over every run each broadcast is owed to an event of its own: broadcasts and reloads still owed never exceed those owed at first and the events seen |
| ReloadAccounts.ReadsAreOwedToEvents | internal/server/hub.go:42-83 | A client reads at most one reload for each event of its canvas since it registered and each reload then already coming: none comes out of nowhere |
| ReloadAccounts.ReadsFollowBroadcasts | internal/server/hub.go:74-83 | While it stays, a client reads at most once for each broadcast, and, its full slot counted, at least once if there was one |
| CanvasWatcher.ScheduleStepsCompute | internal/server/watcher.go:144-175 | Run without interruption, the protocol's steps of scheduleReload compute the sequential function the class is proved against |
| CanvasWatcher.Watcher.ScheduleReload | internal/server/watcher.go:144-175 | Pushes the pending timer back, or installs a new generation with its own credit whatever entry was there |
| CanvasWatcher.Watcher.CleanUp | internal/server/watcher.go:160-170 | The callback's critical section makes exactly the protocol's step |
| CanvasWatcher.Watcher.Stop | internal/server/watcher.go:148-151 | Answers true exactly for a timer not yet dispatched |
| CanvasWatcher.Watcher.Sweep | internal/server/watcher.go:196-208 | Cancels just the stored pending generations and keeps fireWG minus the live generations unchanged |
| SseHub.AddedConnects | internal/server/hub.go:42-61 | Registering adds exactly one connected client and one to its canvas's count |
| SseHub.RemovedDisconnects | internal/server/hub.go:61-68 | Unregistering removes exactly that client and leaves no empty canvas behind |
| SseHub.RegisterThenUnregister | internal/server/hub.go:42-69 | Unregistering what was just registered gives back the very same registry |
| SseHub.HubStepsAreProtocolSteps | internal/server/hub.go:42-83 | Registering, unregistering, reading and broadcasting on the registry are the reload protocol's client steps |
| SseHub.AddedCounts | internal/server/hub.go:42-61 | An admitted client keeps the running total equal to the connected clients and both caps respected |
| SseHub.RoomExactly | internal/server/hub.go:42-52 | A registration is refused exactly where it would pass a cap |
| SseHub.RemovedCounts | internal/server/hub.go:61-68 | So does its removal |
| SseHub.Hub.Register | internal/server/hub.go:42-69 | Refuses exactly when a cap is reached, changing nothing; otherwise adds a channel in no use before |
| SseHub.Hub.Unregister | internal/server/hub.go:61-68 | The registry without that client, the total one less |
| SseHub.Hub.Broadcast | internal/server/hub.go:74-83 | Fills every slot of that canvas and no other, however full they were |
| SseHub.Hub.Receive | internal/server/handlers_sse.go:71-84 | Reading a client's channel empties its slot and no other |
| SseHub.Hub.ClientCount | internal/server/hub.go:90-94 | The kept total is the number of connected clients over all canvases |
| SseHub.Hub.CanvasClientCount | internal/server/hub.go:98-102 | The number of connected clients of one canvas |
| KeyedMutex.Table.Entry | internal/canvas/canvas.go:54-64 | Finds the key's mutex or makes one no other key has; every existing entry stays |
| KeyedMutex.StepIsAtomic | internal/canvas/canvas.go:49-68 | Each step of any number of goroutines is the atomic per-key lock's step on one key, or changes no holder |
| KeyedMutex.MutualExclusion | internal/canvas/canvas.go:43-68 | No two goroutines hold one key |
| KeyedMutex.WaitsForSameKey | internal/server/hubmode.go:97-124 | A goroutine is held up at a mutex exactly while another holds that very key: different keys never contend |
| KeyedMutex.TableNeverBlocks | internal/server/hubmode.go:110-121 | Whoever waits for the table can enter it or its owner can leave it |
| KeyedMutex.RunKeepsInv | internal/server/hubmode.go:110-124 | In every run each key keeps the mutex it was first given |
| KeyedMutex.RunsExclude | internal/server/hubmode.go:97-124 | Over every run from an empty table: one holder per key, and waiting exactly while the key is held |
| KeyedMutex.FreeKeyCanBeLocked | internal/server/hubmode.go:110-124 | In any state a goroutine can lock a key nobody holds within five steps, nobody letting go of anything; unlocking it then leaves every key held as it was |
| CanvasMeta.MetaDir.Create | internal/canvas/canvas.go:198-230 | Rewrites only that canvas's file, keeping grants and, for an empty owner, the owner; on error nothing changes |
| CanvasMeta.MetaDir.SetOwner | internal/canvas/canvas.go:246-254 | Rewrites only the owner |
| CanvasMeta.MetaDir.AddGrant | internal/canvas/canvas.go:259-267 | Appends one grant and keeps the rest |
| CanvasMeta.MetaDir.RemoveGrant | internal/canvas/canvas.go:273-295 | Drops and counts every matching grant; writes nothing when none matches |
| CanvasMeta.MetaDir.WriteMeta | internal/canvas/canvas.go:479-509 | The whole new contents or the whole old ones |
| CanvasMeta.CreateRecordsExactly | internal/canvas/canvas.go:206-229 | Owner and grants after a Create; and title, description and icon are those given exactly unless nothing at all is asked and the file has an old one |
| CanvasMeta.BlankCreateKeepsTheTitle | internal/canvas/canvas.go:222-224 | A title no Create can blank |
| CanvasMeta.KeepsSharesExactly | internal/canvas/canvas.go:511-521 | A rewrite keeps every share if and only if it could read the file or there was none |
| CanvasMeta.FailedReadDropsShares | internal/canvas/canvas.go:511-521 | A share lost to a failed read |
| CanvasMeta.GrantHistory | internal/canvas/canvas.go:259-295 | How often a grant stands in the file is the number of times it was added since the last write that cleared it |
| CanvasMeta.AddedGrantStands | internal/canvas/canvas.go:259-267 | An added grant stands until a write clears it |
| CanvasMeta.RemovedGrantStaysGone | internal/canvas/canvas.go:273-295 | A removed grant is back only through a later AddGrant |
| CanvasMeta.OwnerIsLastNamed | internal/canvas/canvas.go:206-219 | The owner is the last one written; grant operations and ownerless Creates never change it |
| CanvasMeta.OneFieldEach | internal/canvas/canvas.go:246-295 | SetOwner, AddGrant and RemoveGrant write every field but their own as it was read; an added grant goes last, and what RemoveGrant leaves are the others in their order |
| CanvasMeta.WithoutSplits | internal/canvas/canvas.go:282-290 | Removing from a list is removing from its parts, in their order |
| CanvasMeta.WithoutOne | internal/canvas/canvas.go:282-290 | A single grant is dropped exactly if it matches |
| CanvasMeta.LabelsAreLastCreated | internal/canvas/canvas.go:206-295 | While every read succeeds, title, description and icon are those of the last Create that wrote, or the first file's |
| CanvasMeta.IdIsOneName | internal/canvas/canvas.go:136-139 | A valid id is one ordinary, unhidden name that cleaning leaves alone: safe as one component of a path |
| MetaConcurrency.Linearizable | internal/canvas/canvas.go:26-39 | However writers interleave, each file is the first one with the successful writes applied in the order their makers took the lock |
| MetaConcurrency.UnlockedReadsSeeAPrefix | internal/canvas/canvas.go:235-241 | GetOwnerGrants, which takes no lock, reads at any moment of any run the first file with a prefix of the writes applied in lock order |
| MetaConcurrency.SharesAreExact | internal/canvas/canvas.go:26-39 | Over all runs whose reads succeed, no grant is lost, duplicated or resurrected |
| MetaConcurrency.StepKeepsInv | internal/canvas/canvas.go:205-295 | What a writer has read is still what the file holds when it writes, and its turn is the last |
| MetaConcurrency.OneOperation | internal/canvas/canvas.go:205-295 | While a canvas's lock is free, whatever goes on at others, an operation can go through: it leaves the file as by itself, the lock free, and all else as it was |
| SnapshotNames.CivilOf | internal/snapshot/snapshot.go:154-158 | Every instant with a four-digit year has a civil reading that denotes it |
| SnapshotNames.YearsAreGregorian | internal/snapshot/snapshot.go:154-158 | The calendar of the stamps is the Gregorian one |
| SnapshotNames.InstantOrder | internal/snapshot/snapshot.go:24-31 | Comparing calendar fields from the year down is comparing instants |
| SnapshotNames.NameRoundTrip | internal/snapshot/snapshot.go:364-375 | Every name Create builds passes validateName and parses back to the same instant and label |
| SnapshotNames.ParseNameExactly | internal/snapshot/snapshot.go:364-375 | What parses as a name: exactly a stamp of the instant it gives, but for the parser's comma and sign, then the label, behind a dash or not |
| SnapshotNames.NameOrder | internal/snapshot/snapshot.go:24-31 | Names of distinct instants sort as the instants, whatever the labels |
| SnapshotNames.ValidateNameExactly | internal/snapshot/snapshot.go:74-79 | Which names validateName accepts, in plain terms, and that parseName stops the odd one out |
| SnapshotNames.List | internal/snapshot/snapshot.go:175-201 | The directories with a snapshot's name, all of them, sorted by name |
| Snapshots.KeptExactly | internal/snapshot/snapshot.go:183-196 | Which entries of a directory List keeps: exactly the directories whose name parses, under that name |
| SnapshotNames.LastIsNewest | internal/snapshot/snapshot.go:206-212 | In a listing of created snapshots times never go back, so the last is the newest |
| FileSystem.Disk.RemoveAll | internal/snapshot/snapshot.go:265-273 | Removes the tree, or fails leaving anything there and nothing else changed |
| FileSystem.Disk.Rename | internal/snapshot/snapshot.go:281-291 | All or nothing; no directory replaces or is replaced |
| FileSystem.Disk.ReadVersions | internal/snapshot/snapshot.go:179-186 | Just the entries of that canvas's snapshot directory |
| Snapshots.Latest | internal/snapshot/snapshot.go:206-212 | The greatest snapshot name, or none if there is no snapshot |
| Snapshots.Resolve | internal/snapshot/snapshot.go:234-261 | The named snapshot if it is there, or without a name the latest |
| Snapshots.Create | internal/snapshot/snapshot.go:143-169 | On success an exact copy under a new name; nothing else is touched in any case; with no faults it succeeds exactly for a valid id, a valid label and a canvas directory; an error leaves no partial snapshot if the removal works |
| Snapshots.CreateNamed | internal/snapshot/snapshot.go:143-169 | The same for a given name, at every moment on the way |
| Snapshots.Stage | internal/snapshot/snapshot.go:263-279 | The canvas is untouched while the snapshot is copied beside it |
| Snapshots.SwapIn | internal/snapshot/snapshot.go:281-294 | At every moment the old tree is in place or whole aside, or the new one is in place |
| Snapshots.Revert | internal/snapshot/snapshot.go:229-296 | Success puts the chosen snapshot in place; an error leaves the canvas as it was unless the restoring rename fails, and then it is whole aside; with no faults it succeeds exactly when there is something to revert to; an error before the canvas is moved leaves nothing staged if no removal fails |
| Snapshots.Replace | internal/snapshot/snapshot.go:263-296 | The same once the snapshot is known, at every moment |
| Snapshots.RevertWithSafety | internal/snapshot/snapshot.go:313-357 | A name that does not resolve changes nothing; with the safety snapshot taken, or on failure, the old tree is whole at every moment in one of three places; with no faults it succeeds exactly when the name resolves |
| Snapshots.RevertTo | internal/snapshot/snapshot.go:347-356 | The same once the target is resolved |
| Snapshots.SaveIfThere | internal/snapshot/snapshot.go:347-354 | The safety snapshot, exactly the old tree, if the directory is seen |
| Snapshots.SaveThenRevert | internal/snapshot/snapshot.go:300-311 | Resolving before saving means the target is never the safety snapshot itself |
| Snapshots.OnlyASeenCanvasIsSaved | internal/snapshot/snapshot.go:347-354 | After a cleaned-up revert the old tree survives exactly if its snapshot was taken or nothing changed |
| Snapshots.AnUnseenCanvasIsLost | internal/snapshot/snapshot.go:347-354 | A cleaned-up revert of a canvas that was not seen leaves its old tree nowhere |
| Snapshots.RevertIsUndone | internal/snapshot/snapshot.go:298-312 | A bare revert after a revert whose safety snapshot sorts last targets that snapshot and restores the original tree, bytes and link targets |
| Snapshots.ClockNamesLast | internal/snapshot/snapshot.go:24-31 | A clock past every earlier snapshot gives the new one a name not taken and sorting last |
| Snapshots.BareRevertUndoes | internal/snapshot/snapshot.go:298-312 | So with strictly increasing clock readings every such revert is undoable |
| TreeSwap.ReserveAside | internal/server/handlers_push.go:138-148 | A fresh name outside the canvases; if its removal works nothing has changed |
| TreeSwap.Swap | internal/server/handlers_push.go:127-174 | Complete new tree or complete old tree; only a failed rollback leaves the canvas absent with the old tree whole aside |
| TreeSwap.SwapAndClean | internal/server/handlers_push.go:96-104 | The same with the deferred removal of the staging directory, which is gone if no removal fails |
| TreeSwap.Push | internal/server/handlers_push.go:71-174 | A whole push: never torn at any moment, nothing else that was there touched, with no faults it succeeds exactly for a valid id and an accepted archive, and never if anything but a removal fails; and if no removal fails, whatever else does, nothing is left staged but the old tree of a failed rollback |
| TreeSwap.PushPacked | internal/server/handlers_push.go:71-174 | From a packed directory to the canvas: with no faults it succeeds exactly when the caps allow, and then the canvas holds exactly that directory's regular files and directories |
| TreeSwap.StageCopy | internal/server/handlers_copy.go:81-120 | The source's tree staged and an overwritten target's tree saved, the target still in place |
| TreeSwap.Copy | internal/server/handlers_copy.go:25-157 | The target becomes the source's tree, nothing is overwritten unasked, the source and every other canvas stay; with no faults it succeeds exactly when what it asks for holds, the walk's caps and kinds computed; and if no removal fails nothing is left staged but the old tree of a failed rollback |
| TreeSwap.CopyIsUndone | internal/server/handlers_copy.go:116-124 | A bare revert after an overwriting copy whose snapshot sorts last restores the overwritten tree |
| TreeSwap.OverwriteIsUndone | internal/server/handlers_copy.go:22-24 | So with strictly increasing clock readings every overwriting copy is undoable |
| HandlerLocks.ScriptsAreOrderly | internal/server/handlers_copy.go:58-69 | Every handler takes each lock above all it holds and acts on a tree only under that canvas's lock |
| HandlerLocks.CopyIsOrderly | internal/server/handlers_copy.go:58-69 | Because the copy takes its two locks in lexical order |
| HandlerLocks.ScriptsDo | internal/server/handlers_copy.go:58-69 | For every request, which push locks its script takes (a copy exactly its source's and its target's, the others their own), which metadata locks, and which trees it acts on in which order: a copy on its source before it last acts on its target |
| HandlerLocks.ScriptsWorkUnderTheirLocks | internal/server/handlers_copy.go:66-69 | At each of those acts it holds all of those push locks |
| HandlerLocks.CopiesHoldBoth | internal/server/handlers_copy.go:58-69 | Over every run, a copy at an act has both its locks |
| HandlerLocks.GiveKeepsLocal | internal/server/handlers_copy.go:66-69 | Giving back the last lock taken leaves the others held in order, each once |
| HandlerLocks.StepKeepsInv | internal/server/hubmode.go:97-124 | Holders, deferred unlocks and the section history agree after every step, early returns included |
| HandlerLocks.SomeoneCanStep | internal/server/handlers_copy.go:58-69 | Following blocked handlers from holder to holder always ends at one that can step |
| HandlerLocks.NeverDeadlocked | internal/server/handlers_copy.go:58-69 | In every reachable state with an unfinished handler some handler can take its next step |
| HandlerLocks.ActsAreSerial | internal/server/handlers_push.go:120-125 | The acts on one canvas's tree come in lock order, one holder's never interrupted by another's |
| SharedTrees.EveryCanvasIsWhole | internal/server/handlers_push.go:127-174 | At every moment of every interleaving of all handlers' system calls, what is at a canvas's name is its complete tree or a create's empty directory; where the complete tree is not in place, the lock's holder is mid-swap and has it whole aside, or the last swap could not be rolled back |
| SharedTrees.OnlyTheHolderChanges | internal/server/handlers_push.go:120-125 | Only the holder of its push lock changes a canvas, in an act recorded for its turn; a create only fills a gap with an empty directory |
| SharedTrees.ChangesAreSerial | internal/server/hubmode.go:97-124 | So over whole runs on the shared file system the changes of one canvas come turn by turn |
| SharedTrees.CopiesAreWhole | internal/server/handlers_copy.go:58-62 | What a copy has staged when its walk ends is what is at its source's name, then and all through the walk: its complete tree, or a create's empty directory where that is stranded |
| SharedTrees.CopiesAtWork | internal/server/handlers_copy.go:58-69 | In every run, while a copy stands at an act both locks have it as holder, what it walks is its source, and what it has moved aside its target |
| SharedTrees.CopiesPutTheirSource | internal/server/handlers_copy.go:58-157 | And the tree its swap puts at its target is the one its source holds |
| Footprints.HandlersKeepToTheirOwn | internal/server/hubmode.go:87-124 | In every run whatever a handler does changes only names of its own request: no other canvas or its snapshots, and of a copy's source nothing at all |
| Footprints.SwapsGoThrough | internal/server/handlers_push.go:127-158 | In every reachable state in which a push, copy or revert has its new tree whole, its swap can go through without a fault: the old tree aside, from where it can be removed, its own in place |
| Footprints.PushesGoThrough | internal/server/handlers_push.go:71-174 | From every reachable state in which a push has come to its canvas it can put any tree there, with no fault and no one else's help |
| Footprints.CopiesGoThrough | internal/server/handlers_copy.go:98-157 | And a copy that has come to its source can put what that holds at its target |
| Footprints.StrandedIsEmpty | internal/server/handlers_push.go:158-166 | In every run a canvas whose last swap could not be rolled back has nothing at its name, or a create's empty directory, until a swap or an edit puts a new tree there |
| SharedTrees.SwapsAreWhole | internal/server/handlers_push.go:158-174 | What a swap moves into place is the handler's own staged tree, still whole whatever others have done since |
| SharedTrees.SwapSucceedsExactly | internal/server/handlers_push.go:149-158 | Over every run: without a fault a swap puts its tree in place exactly when no create has taken the canvas's name since the old tree was moved aside |
| SharedTrees.RollBackWorksExactly | internal/server/handlers_push.go:158-166 | The same of the rollback, which then leaves the canvas as the swap found it; otherwise the old tree is where it was moved |
| SharedTrees.CreateStopsASwap | internal/canvas/canvas.go:198-205 | A run without a fault, from any moment at which a swap can start, that leaves the canvas an empty directory |
| SharedTrees.ReplacedExactly | internal/server/handlers_push.go:127-174 | Only the lock holder's whole staged tree or edit comes in a complete tree's place, and is in place then |
| SharedTrees.LostExactly | internal/snapshot/snapshot.go:265-273 | Whatever any handler does, a complete tree is no longer at any of its canvas's names exactly if a revert has removed it from the name reverts move trees to, where alone it was; then an earlier rollback has failed |
| SharedTrees.GoneExactly | internal/snapshot/snapshot.go:265-273 | It is no longer anywhere on the disk exactly if that was its only copy |
| SharedTrees.SafeThroughoutExactly | internal/snapshot/snapshot.go:265-273 | Over every run it is at one of those names at every moment exactly if no revert clears the last |
| SharedTrees.StrandedTreeIsLost | internal/snapshot/snapshot.go:265-292 | Two handlers' reverts that lose a tree, from any moment at which the first can start its swap: with a create there need be no fault |
| SharedTrees.ALossCanBegin | internal/snapshot/snapshot.go:265-292 | Such a moment is reachable, for any canvas and trees |
| SharedTrees.NeverStuck | internal/server/handlers_copy.go:58-69 | Locks and system calls together never deadlock: a handler in the middle of a walk or swap has a step towards its end, and otherwise one can take its next lock step |
| SharedTrees.StepKeepsInv | internal/server/handlers_push.go:120-174 | Who staged what, what has been moved aside to where, and what each canvas's complete tree is agree after every step of every handler |
| SharedTrees.StepKeepsCanvas | internal/server/handlers_push.go:127-174 | No step of any handler leaves at a canvas's name anything but its complete tree or an empty directory |
| TreeWalk.RebuiltExactly | internal/dircopy/dircopy.go:40-83 | A walked tree put down in a fresh directory is rebuilt exactly, if and only if every entry is of a kind taken and the caps allow the whole |
| TreeWalk.RunTree | internal/dircopy/dircopy.go:47-82 | The same for any subtree at a clear path, with the exact byte and entry accounts |
| TreeWalk.PutBounds | internal/server/handlers_push.go:269-297 | One entry never takes accepted bytes past the cap nor written bytes more than one past it |
| TreeWalk.FilePutExactly | internal/dircopy/dircopy.go:91-120 | One file, whatever fails: the run goes on exactly if nothing did and the bytes fit; otherwise a beginning of the file is what it leaves, accounted for, and nothing else is changed |
| TreeWalk.PutExactly | internal/server/handlers_push.go:223-297 | Any file or directory entry, put down over anything: when it is taken, and what is there then; a later entry of the same name wins |
| TreeWalk.PutKeepsShape | internal/server/handlers_push.go:240-262 | Whatever is put down, the result is a tree: parents are directories, no directory is overwritten |
| PushArchive.TarWriter.WalkTree | internal/pushclient/pushclient.go:33-94 | Appends exactly the packed form of the tree |
| PushArchive.TarWriter.WalkForest | internal/pushclient/pushclient.go:33-73 | Appends the directories and regular files in walk order and passes over the rest |
| PushArchive.Dest.WriteFile | internal/server/handlers_push.go:269-297 | At most one byte past the budget is copied, and then the entry is refused |
| PushArchive.Dest.Place | internal/server/handlers_push.go:240-261 | The switch on an entry's type |
| PushArchive.Unpack | internal/server/handlers_push.go:217-263 | The extraction loop computes the specified run |
| PushArchive.ExtractTar | internal/server/handlers_push.go:217-263 | The same with every name joined to the staging root |
| PushArchive.CopyDir | internal/dircopy/dircopy.go:40-83 | The copy's walk computes the specified run |
| PushArchive.CopyWalked | internal/dircopy/dircopy.go:47-82 | The function given to the walk, with its running totals |
| PushArchive.CopyTree | internal/snapshot/snapshot.go:382-410 | The snapshot copy's walk, links recreated, no caps |
| PushArchive.CopyEntry | internal/snapshot/snapshot.go:392-408 | One entry of it |
| PushArchive.SnapshotIsExact | internal/snapshot/snapshot.go:377-410 | A snapshot is the directory down to every byte and link target, with what is read of any other entry in its place, and fails exactly if one cannot be read |
| PushArchive.PackedNamesLocate | internal/pushclient/pushclient.go:45-59 | Every packed name joins to the very path it was packed from |
| PushArchive.PackForestLocates | internal/pushclient/pushclient.go:33-73 | Entry by entry the archive goes to the walk of the pruned tree |
| PushArchive.PushRoundTrip | internal/server/handlers_push.go:217-263 | Extracting Pack(tree) rebuilds exactly its files and directories, or stops at a cap, the first exactly when the caps allow; a copy of the result under the same caps comes out the same |
| PushArchive.CopyIsExact | internal/dircopy/dircopy.go:15-18 | A copy succeeds exactly for files and directories within the caps, and rebuilds them all |
| PushArchive.AnyArchiveIsBounded | internal/server/handlers_push.go:206-263 | Any archive, any disk failure: accepted bytes within the cap, written bytes at most one more, and a well-formed tree |
| PushArchive.ExtractionIsBounded | internal/server/handlers_push.go:206-263 | The same for extraction into a staging root, which it never leaves |
| PushArchive.EntriesStayBelow | internal/server/handlers_push.go:294-314 | Where an entry is put is where its joined name leads, below the root |
| Paths.CleanKeepsTheMeaning | internal/mcpserver/backend.go:221-223 | Cleaning never changes where a path leads, wherever it is read from |
| Paths.CleanIsIdempotent | internal/mcpserver/backend.go:221-223 | Cleaning twice is cleaning once |
| Paths.AcceptedExactly | internal/mcpserver/backend.go:208-228 | Exactly which paths cleanRelPath accepts, and that the result is their ordinary names |
| Paths.RefusedExactly | internal/mcpserver/backend.go:208-228 | Which of the four refusals each other path gets |
| Paths.CleanedIsAFixedPoint | internal/mcpserver/backend.go:208-228 | What it returns it accepts and leaves unchanged |
| Paths.CleanedAndRawAgree | internal/mcpserver/backend.go:183-192 | Raw and cleaned path join to the same target; both are accepted exactly under a root that can hold a file |
| Paths.AcceptedContinuesTheRoot | internal/server/handlers_push.go:305-314 | An accepted target is the root or continues it by whole ordinary segments |
| Paths.AcceptedIsBelow | internal/server/handlers_push.go:305-314 | It leads just those names below where the root leads |
| Paths.ClimbingRootLeaks | internal/server/handlers_push.go:305-314 | Under a root ending in ".." the name ".." is accepted and escapes |
| Paths.JoinContainsExactly | internal/server/handlers_push.go:294-314 | The join contains everything it accepts exactly when its root does not climb |
| SessionRegistry.NoResurrection | internal/session/session.go:193-274 | A gone session stays gone through every operation, failed save and restart until its id is created again |
| SessionRegistry.RevokedIsGone | internal/session/session.go:317-336 | A Revoke that answered true leaves nothing, in memory or in the file |
| SessionRegistry.ExpiredIsGone | internal/session/session.go:193-206 | An expired session is gone, over all runs with fresh ids, once its record in memory has expired or every expiry it was ever given has passed |
| SessionRegistry.LapsedIsGone | internal/session/session.go:391-402 | The second over any run: whether its record is still there, was dropped by a prune in the very operation that stored it, or lost to a restart |
| SessionRegistry.RunKeepsAhead | internal/session/session.go:364-449 | The file never promises a session more than memory does |
| SessionRegistry.LogoutIsFinalExactlyWhenSaved | internal/session/session.go:342-358 | After a logout, any run of the process and a restart, the session answers if and only if no save worked from the logout on and the file's copy has not expired |
| SessionRegistry.EndedMisses | internal/session/session.go:342-358 | An ended session misses through every later run of the process, saved or not |
| SessionRegistry.UnsavedLogoutComesBack | internal/session/session.go:342-358 | Under every policy a run in which a failed save and a restart undo a logout |
| SessionRegistry.LoginLag | internal/session/session.go:151-184 | A login's record trails the closed form by exactly the registration delay |
| SessionRegistry.RenewalHitsTarget | internal/session/session.go:236-284 | A renewal lands on the closed form, never moves the expiry back or past the cap |
| SessionRegistry.SlidingExpiry | internal/session/session.go:236-284 | Over whole runs every record keeps the closed form, capped or uncapped, up to that delay until renewed |
| SessionRegistry.UsedSessionStaysLive | internal/session/session.go:236-274 | A session used at gaps of at most idleTTL minus TouchInterval (less the delay) stays live until its cap, or for ever without one |
| SessionRegistry.LoginStartsWarm | internal/session/session.go:151-184 | An accepted login starts such a session |
| SessionRegistry.RegularSessionsSurviveExactly | internal/session/session.go:151-284 | The exact gaps, delays and policies for which every regularly used session lives to its cap |
| SessionRegistry.CreatedExactly | internal/session/session.go:151-184 | What Create answers and leaves: refused for a missing id, subject or expiry or an unloaded registry; else the record as given, its open times the registry's and its end within the cap, the others only pruned, saved or not |
| SessionRegistry.FoundExactly | internal/session/session.go:193-206 | Lookup finds exactly the live record of its id and changes nothing |
| SessionRegistry.RenewedExactly | internal/session/session.go:236-274 | Renew hits exactly the live record of its id; within the interval it changes nothing, past it the record slides to the window or the cap and the answer says whether its end moved |
| SessionRegistry.RevokedExactly | internal/session/session.go:317-336 | Revoke answers true exactly if the session is there, the caller's own and live, and the save works; an own live session is gone from memory either way, and otherwise nothing changes |
| SessionRegistry.EndedExactly | internal/session/session.go:342-358 | End takes out its session whoever's it is, and errs exactly if it cannot save or nothing was loaded |
| SessionRegistry.RestartedExactly | internal/session/session.go:120-139 | A new process has the file's records, pruned, and fails closed with none exactly if there is a file that cannot be read or decoded |
| SessionStore.Store.constructor | internal/session/session.go:120-139 | Loads, prunes and writes a prune back best effort |
| SessionStore.Store.Load | internal/session/session.go:364-388 | Missing, unreadable, corrupt and good files told apart; entries without id skipped |
| SessionStore.Store.Prune | internal/session/session.go:391-402 | Drops just the expired records |
| SessionStore.Store.Save | internal/session/session.go:408-449 | Prunes, then replaces the file or leaves it |
| SessionStore.Store.Create | internal/session/session.go:151-184 | Computes the specified Create, errors included |
| SessionStore.Store.Lookup | internal/session/session.go:193-206 | Computes the specified Lookup |
| SessionStore.Store.Renew | internal/session/session.go:236-274 | Computes the specified Renew, throttle and clamp included |
| SessionStore.Store.Revoke | internal/session/session.go:317-336 | Computes the specified Revoke |
| SessionStore.Store.End | internal/session/session.go:342-358 | Computes the specified End |
| LoginRenewal.CookieAndRegistryAgree | internal/oidc/oidc.go:521-544 | Over any run of one process and under any policy the newest cookie carries the whole-second floor of the record's expiry |
| LoginRenewal.RestartAgreesExactly | internal/session/session.go:364-388 | They agree after a restart if and only if the file's copy is dead then or ends in the cookie's second |
| LoginRenewal.AgreesThroughoutExactly | internal/oidc/oidc.go:521-544 | Over runs with restarts they agree throughout if and only if that holds at each restart |
| LoginRenewal.SavedRenewalsSurvive | internal/server/hubgate.go:294-303 | It does if each renewal that re-issued the cookie reached the file before the next restart |
| LoginRenewal.CookieWindow | internal/oidc/oidc.go:676-685 | While its record lives the cookie never outlives it and lapses less than one second before it, restarts included |
| LoginRenewal.GateFollowsRegistry | internal/server/hubgate.go:294-327 | A request passes exactly when the record is live and the cookie's second has not run out |
| LoginRenewal.RestartAfterUnsavedRenewal | internal/server/hubgate.go:294-303 | A run in which a failed save and a restart leave the cookie ahead of the record |
| LoginRenewal.LoginIssuesExactly | internal/oidc/oidc.go:529-544 | A login hands out a cookie exactly if its session was registered and saved, ending in that deadline's second |
| LoginRenewal.LoginPasses | internal/server/hubgate.go:294-327 | And with it the next request passes exactly until then |
| LoginRenewal.RequestReissuesExactly | internal/oidc/oidc.go:676-681 | A request hands out a new cookie exactly if it passed and the registry has moved its session's end on, to a moment still to come |
| SignedCookie.Base64RoundTrip | internal/oidc/session.go:189-191 | Decoding what was encoded gives it back, with no dot or line break in between |
| SignedCookie.DecodesExactly | internal/oidc/session.go:189-191 | Line breaks aside, a text decodes exactly if it has just the characters encoding writes and a possible length |
| SignedCookie.SignedVerifies | internal/oidc/session.go:43-77 | What was signed verifies to its payload, and under another signer exactly when the MACs agree |
| SignedCookie.DomainsSeparate | internal/oidc/session.go:43-50 | Zero-free domains never give two payloads one MAC input |
| SignedCookie.NoCrossUse | internal/oidc/session.go:57-77 | A value accepted under another domain or another key is a collision of the MAC |
| SignedCookie.SessionRoundTrip | internal/oidc/session.go:116-150 | A session cookie decodes to its own claims exactly until its expiry second, given an id and a subject |
| AgentRegistry.RevokeBars | internal/agentconn/agentconn.go:264-287 | A Revoke that answered true bars the row in memory and in the file |
| AgentRegistry.RevocationBarrier | internal/agentconn/agentconn.go:178-231 | Over all later admits, prunes, failed saves and restarts the row is refused until a request names its client and is dated strictly after the revocation, and that one is let in |
| AgentRegistry.UnsavedRevocation | internal/agentconn/agentconn.go:264-287 | A revocation whose save failed refuses the row through every later run of the process until a reopening request, and outlasts it exactly if some save worked before the restart or the file had it |
| AgentRegistry.UnsavedRevocationIsLost | internal/agentconn/agentconn.go:264-287 | A run in which a restart lets the row in again |
| AgentRegistry.OnlyStaleRowsAreDropped | internal/agentconn/agentconn.go:321-336 | Pruning only ever drops unrevoked rows unseen for the retention period |
| AgentRegistry.RowsSeparatePairs | internal/agentconn/agentconn.go:100-105 | Subjects without a line break never share a row |
| AgentRegistry.LineBreakSharesARow | internal/agentconn/agentconn.go:100-105 | Moving a line break across the join keeps the row, whatever the digest |
| AgentRegistry.OwnRowExactly | internal/agentconn/agentconn.go:100-105 | A pair has a row of its own exactly when neither string holds a line break |
| AgentRegistry.AdmittedExactly | internal/agentconn/agentconn.go:178-231 | A request is let in exactly if its row is absent or unrevoked, or it names its client and is dated after the revocation; without a subject always, and with an unloaded registry it errs |
| AgentRegistry.AdmitLeaves | internal/agentconn/agentconn.go:178-231 | What an admission leaves of the row, field by field: first seen kept, last seen, address and revocation as told; other rows only pruned, saved or not |
| AgentRegistry.RevokedExactly | internal/agentconn/agentconn.go:264-287 | Revoke answers true exactly for the caller's own row, not yet revoked, and a working save; such a row is barred in memory either way, and otherwise nothing changes |
| AgentRegistry.RestartedExactly | internal/agentconn/agentconn.go:127-143 | A new process has the file's rows, pruned, and fails closed with none exactly if there is a file that cannot be read or decoded |
| AgentStore.Store.constructor | internal/agentconn/agentconn.go:127-143 | Loads, prunes and writes a prune back best effort |
| AgentStore.Store.Load | internal/agentconn/agentconn.go:292-316 | Missing, unreadable, corrupt and good files told apart |
| AgentStore.Store.Prune | internal/agentconn/agentconn.go:321-336 | Drops just the stale unrevoked rows |
| AgentStore.Store.Save | internal/agentconn/agentconn.go:338-341 | Prunes, then replaces the file or leaves it |
| AgentStore.Store.Admit | internal/agentconn/agentconn.go:178-231 | Computes the specified Admit, throttle and reopening included |
| AgentStore.Store.Revoke | internal/agentconn/agentconn.go:264-287 | Computes the specified Revoke |
| LogScrubber.ScrubbedIsClean | internal/logging/logging.go:121-160 | For every input no "/c/", no "?" and no word-delimited run of 24 or more hex digits comes out |
| LogScrubber.ScrubIsIdempotent | internal/logging/logging.go:155-160 | Scrubbing twice is scrubbing once, and an input is unchanged exactly when it was clean |
| LogScrubber.NoPathOut | internal/logging/logging.go:128-141 | No pass or placeholder brings back a canvas path |
| LogScrubber.NoHexRunOut | internal/logging/logging.go:138-141 | The hex pass leaves no run, at its own seams either |
| LogScrubber.PathTakesItsQuery | internal/logging/logging.go:128-133 | A path's query goes with the path, as one placeholder |
| LogScrubber.OnlyMatchesAreCut | internal/logging/logging.go:121-160 | Each pass gives back its input with just the leftmost longest matches cut out and one placeholder each in their place |
| LogScrubber.MatchesExist | internal/logging/logging.go:121-160 | Every text has such a list of matches |
| FileEdit.LeftmostDetermines | internal/fileedit/fileedit.go:125-144 | Count and replacement are determined by the leftmost non-overlapping matches, however those are found |
| FileEdit.LeftmostExists | internal/fileedit/fileedit.go:125-144 | Every text has such a list of matches |
| FileEdit.MatchesAreOccurrences | internal/fileedit/fileedit.go:125-144 | A match is an occurrence: so many characters, the old text, and some more |
| FileEdit.SplicingBack | internal/fileedit/fileedit.go:125-144 | Putting the old text back into the gaps gives back the original |
| FileEdit.ReplacedLength | internal/fileedit/fileedit.go:125-144 | The length changes by the matches times the difference in length |
| FileEdit.ApplyMeaning | internal/fileedit/fileedit.go:125-144 | The whole contract of one edit: its result, or which of five refusals it is |
| FileEdit.FoldSplits | internal/fileedit/fileedit.go:101-119 | A batch run as two parts gives the same result, counts added, failures keeping their place |
| FileEdit.ApplyBatch | internal/fileedit/fileedit.go:101-119 | The loop is the left fold of Apply, refusing an empty batch |
| FileEdit.FirstFailureIsNamed | internal/fileedit/fileedit.go:101-119 | A batch fails at a step exactly when all before it apply and that one fails for that cause |
| FileEdit.BatchAccounts | internal/fileedit/fileedit.go:101-119 | On success counts add, every intermediate text is within maxBytes, and the length changes by the sum of the steps' gains |

## Left out

- HTTP, templates, CLI, mDNS, browser launch, file modes, Windows access lists, OIDC discovery and token exchange: input and output, or libraries.
- `CopyMeta`, `Delete` and `handleDeleteCanvas`: they take neither lock, so the linearizability and serialization results are about the four locked operations only, and `SharedTrees` has no deletes: one in the middle of a walk tears it.
- Symbolic link resolution: containment is proved on path names; `EvalSymlinks` and races with other processes are not modelled, nor are links followed by an open.
- CanvasWatcher.Watcher.ScheduleReload: assumes no timer is dispatched inside the call; the interleaved protocol covers the case where one is.
- SseHub.Hub.Register: the caps are proved on the class; the interleaved protocol registers clients without them.
- FileSystem.Disk.Rename: `os.Rename` looks for a directory at the new name and then makes the system call; here, and in `SharedTrees`, that is one step.
- FileSystem.Disk.CopyTree: a copy onto something that exists merges in the source; here what comes of it is left open, so nothing is claimed for a snapshot name already taken.
- Snapshots.Revert: the second look at a resolved target (as path, through links) is the same look as the first here.
- TreeSwap.Push: making the staging root and the canvases directory may fail in the source, with the same outcome as a failed staging directory; the metadata writes after the swap are in `CanvasMeta`, and a failure there reports an error although the new tree is in place.
- TreeSwap.Copy: the same for its metadata step, which is `CopyMeta`; the source is one of files, directories and links.
- PushArchive.ExtractTar: the archive is a list of entries; tar bytes, the request body limit and file modes are not modelled. The caps (50 MiB and 1000 entries in the source) are parameters.
- SnapshotNames.NameRoundTrip: years past 9999, whose stamps are longer, are outside the naming scheme; `time.Format` and `time.Parse` are modelled for this one layout, the parser's tolerance for a comma and a signed fraction included.
- SessionRegistry.SlidingExpiry: the idle window and cap are fixed over a run; a change of policy across restarts is not modelled, nor the order of records in the file.
- LoginRenewal.AgreesThroughoutExactly: this session's requests come one after another; a race between two renewals of one session is not modelled. No cookie is written for a deadline already past.
- AgentStore.Store.Admit: requires the digest to be non-empty, as a hex digest is.
- SignedCookie.SignedVerifies: the MAC is any function of key and message; JSON is any faithful codec, and constant-time comparison is equality.
- FileEdit.ApplyMeaning: texts are sequences of characters; the source counts bytes.
- SharedTrees.StepKeepsInv: staging names are new, as `MkdirTemp` makes them; a name reserved for a backup is not given out again between its removal and the rename onto it. A crash of the process is not a step (what it leaves is what `EveryCanvasIsWhole` and `LostExactly` say of the moment).
- Whole-run ownership through the gate, the daemon's spawn lock, and "anything that pushed also copies" for archives that omit directory entries: not invariants of the code.
- Views, scopes, default icons, configuration, the principal registry and user tokens: easy members.
