# UnixNotis verification

A Dafny model of the parts of UnixNotis whose correctness spans several data structures, several
calls or several tasks, with proofs of what those parts are for. Run `dafny verify dfyconfig.toml`
in this directory.

The centre is the notification daemon:

- `NotificationStore.dfy` and `HistoryStore.dfy` are the store as the daemon keeps it (an
  insertion-ordered index map, an id-to-row map beside a deque, a deadline map, an id cursor, the
  do-not-disturb switch). Every method is proved against `StoreModel.dfy`, where the store is just
  two queues of rows; the joint invariant and everything about whole runs is proved there.
- `StoreLaws.dfy` says what the store promises in the fields of rows and limits alone: who may replace
  a row, which rows stay live, and which rows reach the archive in what form.
- `IdAllocation.dfy` unrolls the wrapping id cursor onto the naturals and proves freshness and the
  reuse rule of the Desktop Notifications Specification 1.2, section 9.1 (Notify). `IdCapacity.dfy`
  shows that the bounded search always finds a free id under every configuration that can be loaded,
  and exactly which limits beyond those would break that. `Dnd.dfy` does the same kind of trace
  reasoning for the revision-guarded switch.
- `ExpirationModel.dfy` is a transition system of the store, the command channel and the scheduler's
  heap and map. A timer pass is specified there as a filter over maps. `Daemon.dfy` holds the
  handlers and the scheduler task as mutable objects; each of their methods is one step of the
  transition system and keeps its invariant. `TimerPass.dfy` is the loop argument that ties heap
  pops to the filter. `ExpirationInterleavings.dfy` takes the locks as the code takes them: sends
  happen after the lock is released, and handlers run between the items of a timer pass.
- `SignalBurst.dfy` is the per-sender rate limiter, with bounds over arbitrary time intervals: two
  windows of eight direct signals can meet one closed second, but fifteen is the exact bound.
  `BurstTimes.dfy` describes the whole limiter by the call times alone and proves that it agrees.

Around it:

- `ReloadModel.dfy` and `Reload.dfy`: reload coalescing in the popup process, as a transition system
  of two slots, a bounded queue, the main loop and a retry timer, and as objects refining it.
  `ReloadInterleavings.dfy` cuts its calls at their atomic operations, `ReloadCounts.dfy` counts
  reloads against changes.
- `Image.dfy`: layout normalisation of notification images, and RGB expansion by a scalar loop and by
  a 16-byte vector loop over the same array.
- `CssText.dfy`, `CssLines.dfy`, `CssBlocks.dfy`, `CssTextBlocks.dfy`, `CssDeclarations.dfy`: the CSS
  checker's comment stripper, the lines and columns it reports, its block scanner on bytes and on
  text, and its declaration parser, the latter with a printer. `CssComments.dfy`, `CssRules.dfy` and
  `CssUnits.dfy` are grammars of comments, rules and declarations as their author writes them; what
  is written in them is read back exactly.
- `Pathing.dfy`, `PathOrder.dfy`, `ConfigTree.dfy`, `ConfigRoot.dfy`: preset paths, and the
  explicit-stack walk that collects the files of a preset.
- `MediaKeys.dfy`, `MediaSnapshot.dfy`, `MediaOrder.dfy`: grouping and in-place deduplication of
  media players, and when their sort order survives it.
- `OfflineCommands.dfy`, `OutageBounds.dfy`, `OutageOnce.dfy`: buffering of panel commands while the
  daemon is away, how long an outage may be, and which requests it forgets.

`Support.dfy` and `Notifications.dfy` hold shared vocabulary.

## Where the code and its own words differ

The model follows the code. Each case names the lemmas that say exactly when the words are right,
and the concrete input or run that shows they can be wrong.

- Deadlines belong to live rows, except when the active cap is zero: the deadline is recorded after
  the row was evicted (`StoreModel.StepKeepsGood`, `StoreModel.ZeroCapOrphansTimer`).
- A do-not-disturb rollback must not overwrite a newer write. Its guard can be trusted exactly when
  the token changed nothing or its revision is below the largest 64-bit value (`Dnd.GuardHoldsIff`,
  `Dnd.SaturationDefeatsGuard`).
- No timer is lost while a store change and its send are one step. With sends after the lock is
  released, a run loses none exactly when no command overtakes one that its id still needs
  (`ExpirationInterleavings.RunKeepsIff`, `ExpirationInterleavings.OvertakingDropsTimer`).
- "Verify the deadline is still current before closing": between the check and the close a live row
  is closed early exactly when a notify took its id meanwhile and asked for no deadline or a later
  one (`ExpirationInterleavings.ClosesEarlyIff`, `ExpirationInterleavings.ReplacementIsClosed`).
- Comment stripping is meant to keep offsets aligned with the source. It does for characters and
  lines, so the reported positions are the author's (`CssLines.StrippedPositionsAreAuthors`). The
  byte offset of a character stays aligned exactly when every comment character before it is one
  byte wide (`CssText.StripKeepsByteOffsetsIff`, `CssText.WideCommentShiftsOffsets`).
- "Recent intent wins" when the offline buffer is full: the command pushed out at the front may be
  a clear-all that nothing repeats. An outage keeps its meaning exactly when that does not happen
  (`OfflineCommands.OutageKeepsMeaning`), which is certain exactly up to 125 commands that name a
  notification (`OutageBounds.SafeCountIff`, `OfflineCommands.LongOutageForgetsClear`). When nobody
  repeats a clear or a close, a request is forgotten exactly when the commands behind it fill the
  queue (`OutageOnce.OnceOutageKeepsMeaningIff`).
- A media snapshot is sorted by status and identity before duplicates are merged. Merging keeps the
  order by status. It keeps the whole order exactly when no shown player takes a place before that of
  a shown player which sorts strictly before it (`MediaSnapshot.DedupeKeepsRanks`,
  `MediaOrder.OrderStaysIff`, `MediaOrder.ReplacementBreaksIdentityOrder`).
- No reload is lost while each slot call is one step. Cut at their atomic operations, the calls keep
  the protocol exactly when every late mark lands on a busy slot or before a second look at the mark,
  and every late store finds the state it stores (`ReloadInterleavings.RunKeepsIff`,
  `ReloadInterleavings.SplitRequestLosesChange`, `ReloadInterleavings.LateStoreLosesChange`).

## Model

| member | source | states |
|---|---|---|
| IdAllocation.EachIdOncePerCycle | crates/unixnotis-daemon/src/store/store_identity.rs:21-51 | any 2^32 - 1 consecutive candidates contain every nonzero id exactly once |
| IdAllocation.SearchFindsFirst | crates/unixnotis-daemon/src/store/store_identity.rs:26-42 | the search returns the first candidate that is not held, or fails because all were held |
| IdAllocation.AllocatedIdIsFresh | crates/unixnotis-daemon/src/store/store_identity.rs:21-51 | an allocated id is nonzero, and collides with a held id if and only if every nonzero id is held |
| IdAllocation.AllocationOnPositions | crates/unixnotis-daemon/src/store/store_identity.rs:21-51 | one allocation passes a run of consecutive positions, each held or handed out, and leaves the cursor behind them |
| IdAllocation.ReuseOnlyAfterFullCycle | crates/unixnotis-daemon/src/store/store_identity.rs:21-51 | in any run, the same id is granted twice only after whole cycles of the cursor, and every nonzero id was passed in between while held or granted |
| Notifications.FindMeans | crates/unixnotis-daemon/src/store/store_identity.rs:60-62 | a lookup by id finds a row of that id if and only if there is one |
| HistoryStores.HistoryStore.ListViews | crates/unixnotis-daemon/src/store/store_history.rs:41-49 | lists the archived rows newest first, whatever the state of the order queue |
| HistoryStores.HistoryStore.Clear | crates/unixnotis-daemon/src/store/store_history.rs:36-39 | leaves no row |
| HistoryStores.HistoryStore.Remove | crates/unixnotis-daemon/src/store/store_history.rs:51-58 | takes out exactly the row with that id and says whether there was one |
| HistoryStores.HistoryStore.Insert | crates/unixnotis-daemon/src/store/store_history.rs:60-68 | the row becomes the newest, and an older row with the same id is gone |
| HistoryStores.HistoryStore.EvictToLimit | crates/unixnotis-daemon/src/store/store_history.rs:70-94 | ends from any state, even with stale or missing order entries, with exactly min(rows, limit) rows kept unchanged; on an ordered store they are the newest ones |
| HistoryStores.RowsHaveOrderedIds | crates/unixnotis-daemon/src/store/store_history.rs:60-68 | in an ordered store the order queue lists every row once |
| StoreModel.ArchiveKeepsShape | crates/unixnotis-daemon/src/store/store_lifecycle.rs:154-172 | archiving keeps ids distinct and the archive within its limit, and only archives what was closed |
| StoreModel.ArchiveInSteps | crates/unixnotis-daemon/src/store/store_lifecycle.rs:121-172 | pushing overflow row by row, trimming each time, is pushing the whole prefix and trimming once |
| StoreModel.AdmitKeepsGood | crates/unixnotis-daemon/src/store/store_lifecycle.rs:50-57 | inserting a row keeps the joint invariant; the row is live afterwards if and only if the cap is positive |
| StoreModel.InsertRespectsOwners | crates/unixnotis-daemon/src/store/store_lifecycle.rs:33-48 | while an id is free, an insertion takes the id of an existing row only as a replacement requested by that row's owner |
| StoreModel.InsertKeepsOtherRows | crates/unixnotis-daemon/src/store/store_lifecycle.rs:15-69 | every other live row stays live if and only if it is not reported as evicted |
| StoreModel.InsertKeepsGood | crates/unixnotis-daemon/src/store/store_lifecycle.rs:15-69 | insertion keeps ids distinct across both queues and both bounds |
| StoreModel.CloseKeepsGood | crates/unixnotis-daemon/src/store/store_lifecycle.rs:71-80 | closing keeps the joint invariant, the id is no longer live and no new id is held |
| StoreModel.DismissKeepsGood | crates/unixnotis-daemon/src/store/store_lifecycle.rs:82-95 | dismissing keeps the joint invariant and frees exactly that id |
| StoreModel.StepKeepsGood | crates/unixnotis-daemon/src/daemon/notifications.rs:124-137 | every handler step keeps the joint invariant, and keeps deadlines on live rows if and only if it is not a timed notify under a zero cap |
| StoreModel.RunKeepsGood | crates/unixnotis-daemon/src/store/store_lifecycle.rs:15-172 | in every reachable store: distinct nonzero ids over both queues, at most min(max_active, 12) live and max_entries archived rows, deadlines only for live rows when the cap is positive |
| StoreModel.ZeroCapOrphansTimer | crates/unixnotis-daemon/src/daemon/notifications.rs:124-137 | with max_active = 0 one timed notify leaves a deadline without a live row |
| StoreModel.RequestsFormRun | crates/unixnotis-daemon/src/store/store_identity.rs:21-51 | the allocations along any run of the store chain their cursors |
| StoreModel.StoreReusesIdsLast | crates/unixnotis-daemon/src/store/store_identity.rs:21-51 | along any run of the store an id is allocated again only after every nonzero id was passed, held or handed out |
| StoreLaws.ReplacesIff | crates/unixnotis-daemon/src/store/store_identity.rs:53-91 | an insertion replaces if and only if the requested id is that of a live or archived row with the same bus name, or with the same pid and the same start time; nothing unknown matches |
| StoreLaws.UsedIdIsOwned | crates/unixnotis-daemon/src/store/store_lifecycle.rs:33-48 | in every reachable store with a free id, an insertion gets an id in use only if it asked for it and its row has the same bus name, or the same pid and start time |
| StoreLaws.InsertKeepsNewestLive | crates/unixnotis-daemon/src/store/store_lifecycle.rs:50-57 | the new row is the last live one, and the newest min(max_active, 12) rows stay live, in order |
| StoreLaws.InsertArchivesOverflow | crates/unixnotis-daemon/src/store/store_lifecycle.rs:121-152 | what the cap pushes out goes to the archive in order, stripped, transient rows only if allowed, and is what is reported as evicted |
| StoreLaws.CloseArchives | crates/unixnotis-daemon/src/store/store_lifecycle.rs:154-172 | closing a live row makes it the newest archived row, stripped of hints and image and otherwise unchanged, if and only if the user did not dismiss it and it is not transient or transients are allowed; otherwise the archive is unchanged |
| StoreLaws.CloseKeepsOthersLive | crates/unixnotis-daemon/src/store/store_lifecycle.rs:71-80 | a close takes out the row and its deadline and leaves every other live row and deadline in place |
| StoreLaws.CloseOfNoRow | crates/unixnotis-daemon/src/store/store_lifecycle.rs:71-80 | closing an id that is not live changes neither queue |
| StoreLaws.DismissKeepsOthers | crates/unixnotis-daemon/src/store/store_lifecycle.rs:82-95 | a dismissal takes the row out of both queues without archiving it and leaves every other row in place |
| StoreLaws.DroppedTouchesNothing | crates/unixnotis-daemon/src/store/store_lifecycle.rs:19-31 | a dropped notification gets an id and touches no row and no deadline |
| StoreLaws.PassArchives | crates/unixnotis-daemon/src/expire.rs:53-101 | after a timer pass the archive holds the newest of what it held and of what the pass fired, in the order it fired, stripped |
| StoreLaws.FiredRowIsArchivedIff | crates/unixnotis-daemon/src/expire.rs:53-101 | a fired row is archived if and only if it is not transient or transients are allowed, and fewer archivable rows than fit were fired after it |
| StoreLaws.ArchiveIsStripped | crates/unixnotis-daemon/src/store/store_lifecycle.rs:167-170 | no archived row of any run carries hints or image bytes |
| IdCapacity.LoadedConfigNeverTakesOver | crates/unixnotis-core/src/config/runtime/sanitize/pipeline.rs:109-114 | under every loaded configuration, every run holds at most 5012 ids and no insertion takes the id of an existing row except as its owner's replacement |
| IdCapacity.NeverTakesOverIff | crates/unixnotis-daemon/src/store/store_identity.rs:21-51 | for limits of any size, the search finds a free id and no row is taken over in any run, if and only if the two queues have room for fewer than 2^32 - 1 rows |
| IdCapacity.FullStoreIsTakenOver | crates/unixnotis-daemon/src/store/store_identity.rs:21-51 | with room for every nonzero id, 2^32 - 1 notifications hold them all and the next one takes one over |
| NotificationStores.NotificationStore.constructor | crates/unixnotis-daemon/src/store.rs:123-163 | a new store is empty, with the cursor at 1 and the given switch |
| NotificationStores.NotificationStore.FirstFree | crates/unixnotis-daemon/src/store/store_identity.rs:22-42 | the bounded candidate loop computes the search of the model |
| NotificationStores.NotificationStore.NextId | crates/unixnotis-daemon/src/store/store_identity.rs:21-51 | hands out the id and leaves the cursor of the model, changing nothing else |
| NotificationStores.NotificationStore.CanReplaceForSender | crates/unixnotis-daemon/src/store/store_identity.rs:53-66 | true exactly when a live or else archived row with that id belongs to the sender |
| NotificationStores.NotificationStore.PushHistory | crates/unixnotis-daemon/src/store/store_lifecycle.rs:154-172 | archives one row under the shared archive rule, keeping the newest rows within the limit |
| NotificationStores.NotificationStore.EvictOldest | crates/unixnotis-daemon/src/store/store_lifecycle.rs:127-134 | moves the oldest live row and its deadline out |
| NotificationStores.NotificationStore.EnforceActiveLimit | crates/unixnotis-daemon/src/store/store_lifecycle.rs:121-152 | the eviction loops move exactly the oldest overflow prefix into the archive, in order, and drop its deadlines |
| NotificationStores.NotificationStore.Insert | crates/unixnotis-daemon/src/store/store_lifecycle.rs:15-69 | the new store and outcome are those of the two-queue model; the invariant holds again |
| NotificationStores.NotificationStore.AdmitRow | crates/unixnotis-daemon/src/store/store_lifecycle.rs:50-57 | drops stale copies, appends the row and evicts, as the model does in one move |
| NotificationStores.NotificationStore.Close | crates/unixnotis-daemon/src/store/store_lifecycle.rs:71-80 | refines the model's close and returns the removed row, if any |
| NotificationStores.NotificationStore.DismissFromPanel | crates/unixnotis-daemon/src/store/store_lifecycle.rs:82-95 | refines the model's dismissal and reports which queues held the id |
| NotificationStores.NotificationStore.DrainActiveIds | crates/unixnotis-daemon/src/store/store_lifecycle.rs:97-103 | returns the live ids newest first and leaves no live row and no deadline |
| NotificationStores.NotificationStore.SetExpiration | crates/unixnotis-daemon/src/store/store_lifecycle.rs:105-115 | sets or clears the deadline of one id and nothing else |
| NotificationStores.NotificationStore.ListActive | crates/unixnotis-daemon/src/store.rs:230-237 | lists the live rows newest first |
| NotificationStores.NotificationStore.ListHistory | crates/unixnotis-daemon/src/store.rs:239-242 | lists the archived rows newest first |
| NotificationStores.NotificationStore.ClearHistory | crates/unixnotis-daemon/src/store.rs:257-260 | empties the archive and nothing else |
| NotificationStores.NotificationStore.SetDnd | crates/unixnotis-daemon/src/store.rs:198-220 | one write of the modelled switch, with its undo token |
| NotificationStores.NotificationStore.ToggleDnd | crates/unixnotis-daemon/src/store.rs:178-181 | one write of the opposite value |
| NotificationStores.NotificationStore.RollbackDndWriteIfCurrent | crates/unixnotis-daemon/src/store.rs:183-196 | one guarded rollback of the modelled switch |
| Dnd.SetIsObeyed | crates/unixnotis-daemon/src/store.rs:173-220 | in every history a set request is obeyed; asking for the present value changes nothing and is reported so, any other request is one transition, counted below saturation |
| Dnd.ToggleIsSet | crates/unixnotis-daemon/src/store.rs:178-181 | a toggle is a set request for the other value |
| Dnd.UndoIsTransition | crates/unixnotis-daemon/src/store.rs:183-196 | a rollback leaves the switch alone, or is one counted transition to the other value |
| Dnd.FlagFollowsRevision | crates/unixnotis-daemon/src/store.rs:173-220 | below saturation the flag is the initial value flipped once per revision, over any interleaving of writes, toggles and rollbacks |
| Dnd.TokenOfStep | crates/unixnotis-daemon/src/store.rs:198-220 | the token a write reports describes that write and stays at its place in the history |
| Dnd.RollbackIffUntouched | crates/unixnotis-daemon/src/store.rs:183-196 | whatever came before and after, a late rollback takes effect if and only if its write changed the flag and every later state is the one that write left; it then restores the value before the write |
| Dnd.GuardHoldsIff | crates/unixnotis-daemon/src/store.rs:183-196 | no later history can make the rollback succeed after a transition, if and only if the write changed nothing or its revision is below the largest 64-bit value |
| Dnd.SaturationDefeatsGuard | crates/unixnotis-daemon/src/store.rs:183-196 | the failing case is reached by 2^64 - 1 toggles: two more toggles go unnoticed by the rollback of the last counted one |
| ExpirationModel.ReplayHead | crates/unixnotis-daemon/src/expire.rs:149-165 | reading the first command and replaying the rest is replaying the whole channel |
| ExpirationModel.CompactKeepsLive | crates/unixnotis-daemon/src/expire.rs:167-185 | compaction never drops the heap item of a scheduled deadline and always restores the heap bound |
| ExpirationModel.StepKeepsTimers | crates/unixnotis-daemon/src/expire.rs:35-104 | each of notify, close, dismiss, clear, receive and timer pass keeps the scheduler invariant |
| ExpirationModel.RunKeepsTimers | crates/unixnotis-daemon/src/expire.rs:35-104 | in every reachable state, replaying the queued commands gives each stored deadline exactly, and each scheduled deadline has its heap item |
| ExpirationModel.PopStepKeeps | crates/unixnotis-daemon/src/expire.rs:62-99 | popping and handling one item loses no timer that is still needed |
| ExpirationModel.PassFiresExpired | crates/unixnotis-daemon/src/expire.rs:53-101 | a pass closes no row early and closes every expired row with no command still queued; the closed ids leave the live queue and the deadlines, all others stay |
| ExpirationModel.PassFiresInOrder | crates/unixnotis-daemon/src/expire.rs:53-101 | a pass closes each row once, in the order of the stored deadlines |
| ExpirationModel.DrainedPassFiresAll | crates/unixnotis-daemon/src/expire.rs:53-101 | with the channel drained, after a pass the remaining deadlines are exactly the later ones |
| ExpirationModel.SleepNeverOvershoots | crates/unixnotis-daemon/src/expire.rs:36-54 | with the channel drained, the deadline the scheduler sleeps on is never later than a stored one |
| ExpirationModel.HeapStaysBounded | crates/unixnotis-daemon/src/expire.rs:167-185 | in every reachable state the heap has at most max(128, 4 x scheduled) items |
| ExpirationModel.NotifyTells | crates/unixnotis-daemon/src/daemon/notifications.rs:124-150 | once its command is read, the scheduler knows exactly the deadline a notify asked for, or none, and the same as before for every other id |
| ExpirationModel.GoneRowsAreForgotten | crates/unixnotis-daemon/src/daemon.rs:121-164 | a row that leaves by a close, a dismissal or a clear leaves no timer behind once the channel is read |
| StoreLaws.ClearLeavesNothing | crates/unixnotis-daemon/src/daemon/control.rs:213-228 | clearing leaves no row and no deadline, and no timer of a live row once the channel is read |
| ExpirationInterleavings.TurnKeepsIff | crates/unixnotis-daemon/src/expire.rs:36-104 | with sends after the lock and the lock taken twice per item, a turn of a handler or the scheduler loses no timer if and only if it is no send that overtakes what its id still needs; it then keeps the whole invariant |
| ExpirationInterleavings.RunKeepsIff | crates/unixnotis-daemon/src/daemon/notifications.rs:124-150 | no timer is lost at any moment of a run if and only if no command overtakes one that its id still needs; the whole invariant then holds throughout |
| ExpirationInterleavings.RestLeavesOnlyFuture | crates/unixnotis-daemon/src/expire.rs:53-101 | whatever handlers did during a pass, it leaves no expired deadline behind, unless a command for that id is still under way |
| ExpirationInterleavings.PassesEnd | crates/unixnotis-daemon/src/expire.rs:56-100 | during a pass handlers leave the heap alone and each popped item shrinks it |
| ExpirationInterleavings.TurnKeepsCheck | crates/unixnotis-daemon/src/expire.rs:53-101 | every turn, also a send that loses a timer, keeps the store invariant and what is known about the deadline of a checked row |
| ExpirationInterleavings.ClosesEarlyIff | crates/unixnotis-daemon/src/expire.rs:71-92 | in every state of every run, also one that lost timers, a live row is closed early between check and close if and only if the last notify that took its id meanwhile asked for no deadline or a later one |
| ExpirationInterleavings.OvertakingDropsTimer | crates/unixnotis-daemon/src/daemon/notifications.rs:147-150 | two notifies of one sender whose commands arrive the other way round: the stored deadline never reaches the scheduler |
| ExpirationInterleavings.ReplacementIsClosed | crates/unixnotis-daemon/src/expire.rs:71-92 | a replacement without a deadline arrives between check and close, and is about to be closed |
| TimerPasses.CurrentStep | crates/unixnotis-daemon/src/expire.rs:62-99 | popping a current item takes its id out of the map and fires it, once, if the store agrees |
| TimerPasses.PassEnds | crates/unixnotis-daemon/src/expire.rs:53-101 | the pops, closes and final compaction of a pass add up to the filter over the maps |
| Daemons.ExpirationTask.ApplyCommand | crates/unixnotis-daemon/src/expire.rs:149-165 | updates heap and map as the model does |
| Daemons.ExpirationTask.MaybeCompact | crates/unixnotis-daemon/src/expire.rs:167-185 | clears, keeps or rebuilds the heap as the model does |
| Daemons.ExpirationTask.PopEarliest | crates/unixnotis-daemon/src/expire.rs:142-147 | removes one item with the least deadline |
| Daemons.Daemon.Notify | crates/unixnotis-daemon/src/daemon/notifications.rs:124-150 | insert, record the deadline, send the command: one notify step of the transition system; the scheduler invariant holds again |
| Daemons.Daemon.CloseNotification | crates/unixnotis-daemon/src/daemon.rs:121-141 | one close step, which keeps the scheduler invariant where it held; a Cancel is sent only when a live row was removed |
| Daemons.Daemon.DismissFromPanel | crates/unixnotis-daemon/src/daemon.rs:143-164 | one dismiss step; the scheduler invariant holds again |
| Daemons.Daemon.ClearAll | crates/unixnotis-daemon/src/daemon/control.rs:213-228 | one clear step: both queues empty, one Cancel per live row, newest first; the scheduler invariant holds again |
| Daemons.Daemon.ReceiveCommand | crates/unixnotis-daemon/src/expire.rs:36-52 | one receive step, with compaction only when the heap was not empty; the scheduler invariant holds again |
| Daemons.Daemon.HandlePopped | crates/unixnotis-daemon/src/expire.rs:62-99 | one pop step of the model: the item is skipped, dropped or closed, no timer is lost, and the account of the pass stays right |
| Daemons.Daemon.TimerPass | crates/unixnotis-daemon/src/expire.rs:53-101 | the heap loop refines the filter: it closes exactly the ids whose scheduled deadline is due and equals the stored one, each once, earliest first; the scheduler invariant holds again |
| SignalBurst.BurstCache.SignalModeForSender | crates/unixnotis-daemon/src/daemon/signal_burst.rs:31-76 | pruning, counting and mode decision as one observation of the model |
| SignalBurst.CacheStaysOk | crates/unixnotis-daemon/src/daemon/signal_burst.rs:31-76 | after any trace the map has at most 128 senders and every window is consistent with the clock |
| SignalBurst.DirectSignalsBounded | crates/unixnotis-daemon/src/daemon/signal_burst.rs:56-69 | in any closed second a sender gets at most fifteen direct signals |
| SignalBurst.FifteenIsReached | crates/unixnotis-daemon/src/daemon/signal_burst.rs:56-69 | a trace with exactly fifteen direct signals in one closed second |
| SignalBurst.DirectSendersBounded | crates/unixnotis-daemon/src/daemon/signal_burst.rs:41-47 | in any closed second at most 128 senders get a direct signal |
| SignalBurst.SuppressFollowsResync | crates/unixnotis-daemon/src/daemon/signal_burst.rs:65-75 | a suppressed event follows a resync for the same sender that is at most a second older |
| BurstTimes.ModeIsByTimes | crates/unixnotis-daemon/src/daemon/signal_burst.rs:31-76 | the limiter as a function of call times: an untracked call resyncs; of the tracked calls of one window the first eight are direct, the ninth resyncs, the rest are suppressed |
| BurstTimes.DirectIff | crates/unixnotis-daemon/src/daemon/signal_burst.rs:62-64 | a tracked call is direct if and only if fewer than eight calls of its sender precede it in its window |
| BurstTimes.OneResyncPerWindow | crates/unixnotis-daemon/src/daemon/signal_burst.rs:65-75 | after a tracked call that resyncs, every later tracked call of that sender in its window is suppressed |
| BurstTimes.UntrackedIff | crates/unixnotis-daemon/src/daemon/signal_burst.rs:41-47 | a call is untracked if and only if its sender was not tracked in the last second and 128 others were |
| ReloadGates.ReloadSlot.Request | crates/unixnotis-popups/src/app/reload.rs:46-74 | claims an idle slot or marks a busy one dirty, as the model does |
| ReloadGates.ReloadSlot.Flush | crates/unixnotis-popups/src/app/reload.rs:76-98 | retries a blocked send; the dirty mark survives only if the send did not get through |
| ReloadGates.ReloadSlot.Complete | crates/unixnotis-popups/src/app/reload.rs:100-118 | goes again if marked dirty, else becomes idle |
| ReloadGates.ReloadSlot.Dispatch | crates/unixnotis-popups/src/app/reload.rs:120-140 | the three outcomes of a send |
| ReloadGates.PopupRuntime.OnChange | crates/unixnotis-popups/src/app/reload.rs:156-162 | one watcher step; a blocked send asks for the retry timer |
| ReloadGates.PopupRuntime.BeginUiEvent | crates/unixnotis-popups/src/app/runtime.rs:13-25 | one take step: the handler starts and reads the files as they are now |
| ReloadGates.PopupRuntime.FinishUiEvent | crates/unixnotis-popups/src/app/runtime.rs:25-44 | complete, flush, perhaps start the timer: one finish step |
| ReloadGates.PopupRuntime.StartReloadTimer | crates/unixnotis-popups/src/app/reload.rs:186-216 | at most one timer source is installed |
| ReloadGates.PopupRuntime.OnTimer | crates/unixnotis-popups/src/app/reload.rs:201-213 | a tick flushes both slots and stops exactly when none is blocked |
| ReloadModel.StepKeeps | crates/unixnotis-popups/src/app/reload.rs:46-146 | every step keeps the protocol invariant |
| ReloadModel.NoReloadLost | crates/unixnotis-popups/src/app/reload.rs:46-146 | in every reachable state an unread change is covered by a queued event, a dirty running handler, or a blocked slot with a timer; at most one event per kind is queued or running |
| ReloadModel.OwnStepsDescend | crates/unixnotis-popups/src/app/runtime.rs:25-44 | every enabled step of the main context lowers the remaining work, except a tick that finds every retry blocked, which changes nothing |
| ReloadModel.StuckIsSettled | crates/unixnotis-popups/src/app/reload.rs:46-146 | when the main context cannot advance, every change was read, the queue is empty and both slots are fresh |
| ReloadModel.ChangesAreEventuallySeen | crates/unixnotis-popups/src/app/reload.rs:46-146 | once changes stop, whatever order the main context takes its steps in, it advances at most as often as there is work left, and until everything was read it can advance |
| ReloadCounts.NoNeedlessReload | crates/unixnotis-popups/src/app/reload.rs:46-146 | in every run at most as many reloads of a kind have started as changes of that kind were reported |
| ReloadCounts.WaitingChangesShareReload | crates/unixnotis-popups/src/app/reload.rs:76-98 | however many changes come in while a reload waits for room, the send that gets through covers them all |
| ReloadCounts.QueueIsInOrder | crates/unixnotis-popups/src/app/reload.rs:120-140 | the queue takes events in order until it is full, and none when it is closed |
| ReloadCounts.ClosedQueueEndsReloads | crates/unixnotis-popups/src/app/reload.rs:120-146 | on a closed queue the calls leave an idle slot without a mark |
| ReloadModel.MarkIsSafeIff | crates/unixnotis-popups/src/app/reload.rs:48-69 | a mark set after the load keeps its change and the protocol if and only if the slot is still busy |
| ReloadInterleavings.StepKeepsIff | crates/unixnotis-popups/src/app/reload.rs:46-118 | with calls cut at their atomic operations, each operation keeps the protocol if and only if it is no late mark on an idle slot without a recheck ahead and no late store over another state |
| ReloadInterleavings.RunKeepsIff | crates/unixnotis-popups/src/app/reload.rs:46-118 | a run of cut calls keeps the protocol throughout if and only if every late mark and late store is safe; then every change is covered by an event, a handler, a retry, a paused mark or a recheck |
| ReloadInterleavings.MarksDuringCompletionAreSafe | crates/unixnotis-popups/src/app/reload.rs:100-118 | a mark that lands during a completion is never too late: the second look finds it |
| ReloadInterleavings.LateMarkLosesIff | crates/unixnotis-popups/src/app/reload.rs:48-69 | a mark that lands too late leaves its change uncovered if and only if no reload has read it meanwhile and no other mark is due |
| ReloadInterleavings.SplitRequestLosesChange | crates/unixnotis-popups/src/app/reload.rs:48-69 | the handler completes between load and mark: nothing is left to do and the change is unread |
| ReloadInterleavings.LateStoreLosesIff | crates/unixnotis-popups/src/app/reload.rs:120-140 | after a store that came too late, the next change is uncovered if and only if no other mark is due |
| ReloadInterleavings.LateStoreLosesChange | crates/unixnotis-popups/src/app/reload.rs:120-140 | the handler completes between send and store: the next change only marks a dead slot |
| Images.ExpandRowScalar | crates/unixnotis-core/src/model/image.rs:311-320 | writes each RGB pixel with alpha 255 and no other byte |
| Images.QuadExpands | crates/unixnotis-core/src/model/image.rs:322-343 | shuffle and alpha mask on sixteen loaded bytes give exactly four expanded pixels |
| Images.ExpandRowSsse3 | crates/unixnotis-core/src/model/image.rs:322-354 | writes what the scalar loop writes, for every width, with every load and store inside its slice |
| Images.ExpandTail | crates/unixnotis-core/src/model/image.rs:345-353 | finishes the pixels the vector loop left |
| Images.ExpandEachRow | crates/unixnotis-core/src/model/image.rs:273-297 | all rows are expanded and packed, or the last row overruns the buffer |
| Images.ExpandRgbToRgba | crates/unixnotis-core/src/model/image.rs:256-308 | the row loop, with either row routine, computes the expanded image or rejects it |
| Images.NormalizeImageData | crates/unixnotis-core/src/model/image.rs:170-190 | the hint parser's normalisation as specified |
| Images.NormalizeAcceptsExactly | crates/unixnotis-core/src/model/image.rs:170-254 | an image is accepted if and only if it has 8 bits, 3 or 4 channels, positive size, a wide enough stride, enough bytes and a result within 262144 bytes |
| Images.NormalizeYieldsNormal | crates/unixnotis-core/src/model/image.rs:170-190 | every accepted image has 4 channels, a buffer of at most 262144 bytes and the same size |
| Images.PixelInside | crates/unixnotis-core/src/model/image.rs:206-242 | every pixel of a normalised image lies inside its buffer |
| Images.NormalizeIsIdempotent | crates/unixnotis-core/src/model/image.rs:170-190 | normalising a normalised image changes nothing |
| Images.NormalizeKeepsPixels | crates/unixnotis-core/src/model/image.rs:256-308 | each colour byte of the result is the source's byte of the same pixel, and RGB becomes opaque |
| CssText.WhitespaceIsUnicode | crates/noticenterctl/src/main/main_css_check_parse.rs:267-282 | blanks are exactly the characters with the Unicode property White_Space |
| CssText.TrimSplits | crates/noticenterctl/src/main/main_css_check_parse.rs:267-282 | trimming removes blanks from both ends and nothing else |
| CssText.StripCssComments | crates/noticenterctl/src/main/main_css_check_parse.rs:22-55 | the stripping loop computes the specified stripping |
| CssText.StripKeepsLayout | crates/noticenterctl/src/main/main_css_check_parse.rs:22-55 | same character count, each character kept or blanked, every newline where it was |
| CssText.StripLeavesNoOpener | crates/noticenterctl/src/main/main_css_check_parse.rs:22-55 | no comment opener is left or formed |
| CssText.StripIsIdempotent | crates/noticenterctl/src/main/main_css_check_parse.rs:22-55 | stripping twice is stripping once |
| CssText.StripReplacesComments | crates/noticenterctl/src/main/main_css_check_parse.rs:22-55 | each character is blanked if and only if it belongs to a comment and is no newline |
| CssComments.CommentIsBlanked | crates/noticenterctl/src/main/main_css_check_parse.rs:22-55 | text before the first opener stays; the comment and its marks become blanks up to the first closer, line ends excepted; the rest is stripped on its own; an unfinished comment reaches to the end |
| CssText.StripKeepsByteOffsetsIff | crates/noticenterctl/src/main/main_css_check_parse.rs:44-45 | at every position, the byte offset is the source's if and only if every comment character before it is one byte wide; otherwise it is smaller |
| CssText.AllOffsetsAlignedIff | crates/noticenterctl/src/main/main_css_check_parse.rs:44-45 | all byte offsets stay aligned if and only if no comment has a wide character |
| CssText.WideCommentShiftsOffsets | crates/noticenterctl/src/main/main_css_check_parse.rs:44-45 | a two-byte letter in a comment moves every later offset to the front, whatever follows |
| CssLines.LineColumnForOffset | crates/noticenterctl/src/main/main_css_check_lint/values.rs:147-163 | the loop computes the position of the first character at or behind the byte offset |
| CssLines.PositionMeans | crates/noticenterctl/src/main/main_css_check_lint/values.rs:147-163 | the line counts the line feeds before a character, the column the characters since the last one |
| CssLines.StrippedPositionsAreAuthors | crates/noticenterctl/src/main/main_css_check_lint/scan.rs:19-130 | the line and column reported for a character of the stripped text are those of the same character in the author's file, even where byte offsets differ |
| CssBlocks.NextCssBlockWithOffsets | crates/noticenterctl/src/main/main_css_check_parse.rs:62-126 | returns the block opened by the first unquoted brace and closed where nesting first returns to zero, or none if there is no such block |
| CssBlocks.BalancingBrace | crates/noticenterctl/src/main/main_css_check_parse.rs:84-119 | finds the first position where nesting returns to zero |
| CssBlocks.NextBlockIsUnique | crates/noticenterctl/src/main/main_css_check_parse.rs:62-126 | at most one block meets the description |
| CssBlocks.BlockIsDelimited | crates/noticenterctl/src/main/main_css_check_parse.rs:62-126 | a found block moves the cursor, sits between its own unquoted braces, and never closes early |
| CssRules.RuleIsNextBlock | crates/noticenterctl/src/main/main_css_check_parse.rs:62-126 | for a selector and a body of plain bytes, quoted strings and nested blocks, the next block is exactly that selector and that body |
| CssRules.RuleIsRead | crates/noticenterctl/src/main/main_css_check_parse.rs:62-126 | no other block can be read there, whatever the strings hold and however deep the blocks nest |
| CssRules.StringPasses | crates/noticenterctl/src/main/main_css_check_parse.rs:65-80 | a quoted string hides its braces |
| CssTextBlocks.EncodeIsInjective | crates/noticenterctl/src/main/main_css_check_parse.rs:81-111 | no two texts have the same UTF-8 bytes |
| CssTextBlocks.BlocksAreText | crates/noticenterctl/src/main/main_css_check_parse.rs:62-126 | scanning the bytes of a text from the start of a character, a found block is a piece of the text between braces, and the cursor is again at the start of a character |
| CssTextBlocks.DecodedBlockIsText | crates/noticenterctl/src/main/main_css_check_parse.rs:81-111 | whatever a decoder does with bytes that are no text, the decoded selector and body are the pieces of the text |
| CssDeclarations.ParseCssDeclarationsWithOffsets | crates/noticenterctl/src/main/main_css_check_parse.rs:224-265 | the one-pass parser returns the declarations of the pieces between top-level semicolons |
| CssDeclarations.PushDeclaration | crates/noticenterctl/src/main/main_css_check_parse.rs:267-291 | appends the declaration of one piece, if it has one |
| CssDeclarations.FindTopLevelColon | crates/noticenterctl/src/main/main_css_check_parse.rs:293-328 | finds the first colon outside quotes and groups |
| CssDeclarations.ParsePrinted | crates/noticenterctl/src/main/main_css_check_parse.rs:224-328 | parsing undoes printing for every well-formed list, any blanks and either ending, with each offset at its name |
| CssDeclarations.ParsedIsWellFormed | crates/noticenterctl/src/main/main_css_check_parse.rs:224-328 | whatever the block, the parsed list is well-formed |
| CssDeclarations.ParserImage | crates/noticenterctl/src/main/main_css_check_parse.rs:224-328 | a list of pairs is the parse of some block if and only if it is well-formed |
| CssDeclarations.ReparseIsStable | crates/noticenterctl/src/main/main_css_check_parse.rs:224-328 | printing a parse result and parsing again changes nothing |
| CssDeclarations.OffsetsPointAtNames | crates/noticenterctl/src/main/main_css_check_parse.rs:284-290 | in every block each reported byte offset is where the declaration's name stands |
| CssUnits.QuoteHides | crates/noticenterctl/src/main/main_css_check_parse.rs:236-250 | a quoted string, escaped quotes included, ends in the state it began in and hides every mark |
| CssUnits.GroupHides | crates/noticenterctl/src/main/main_css_check_parse.rs:253-257 | a group in parentheses or brackets ends in the state it began in and hides every mark |
| CssUnits.OpenQuoteHides | crates/noticenterctl/src/main/main_css_check_parse.rs:236-250 | an unfinished string hides everything up to the end |
| CssUnits.StrayCloserIsInert | crates/noticenterctl/src/main/main_css_check_parse.rs:255-257 | a closing mark without its opening mark changes nothing |
| CssUnits.UnitsScan | crates/noticenterctl/src/main/main_css_check_parse.rs:224-328 | the scanner finds exactly the first mark outside all quotes and groups of the grammar |
| CssUnits.WrittenParses | crates/noticenterctl/src/main/main_css_check_parse.rs:224-328 | declarations written in the grammar parse to themselves, each with the byte offset of its name |
| CssUnits.QuotedValueParses | crates/noticenterctl/src/main/main_css_check_parse.rs:224-328 | a name with a quoted value parses to that one declaration, whatever the string holds |
| Pathing.NormalizeRelativePath | crates/noticenterctl/src/preset/pathing.rs:66-105 | which error each path gets, and otherwise exactly its names in order |
| Pathing.NormalizeComponents | crates/noticenterctl/src/preset/pathing.rs:78-104 | keeps the names, drops dots, rejects climbs and roots |
| Pathing.FormatThenNormalize | crates/noticenterctl/src/preset/pathing.rs:171-180 | a normalised path written with slashes normalises to itself |
| Pathing.ComponentsOfJoin | crates/noticenterctl/src/preset/pathing.rs:171-180 | the formatted path has exactly the names as components |
| Pathing.ArchivePayloadRelative | crates/noticenterctl/src/preset/pathing.rs:150-160 | gives a path if and only if the entry is that path below the payload folder, and none only for the manifest |
| Pathing.PayloadTextIff | crates/noticenterctl/src/preset/pathing.rs:150-160 | an entry stands for a path if and only if its pieces are the payload folder and the names in order, without a leading slash or dot and without a climb |
| Pathing.ComponentsAre | crates/noticenterctl/src/preset/pathing.rs:78-104 | slashes separate; empty pieces and dots go, except a leading dot; two dots climb; the other pieces are names |
| Pathing.ArchiveRoundTrip | crates/noticenterctl/src/preset/pathing.rs:145-160 | every normalised path survives the trip into the archive layout and back |
| Pathing.NormalizeLexicalPath | crates/noticenterctl/src/preset/pathing.rs:107-133 | the buffer loop computes the lexical form |
| Pathing.LexicalKeepsMeaning | crates/noticenterctl/src/preset/pathing.rs:107-133 | followed from any directory, the lexical form leads where the path leads, and it is canonical |
| Pathing.LexicalIsIdempotent | crates/noticenterctl/src/preset/pathing.rs:107-133 | normalising twice is normalising once |
| Pathing.AbsoluteForm | crates/noticenterctl/src/preset/pathing.rs:107-133 | an absolute path normalises to the root and the names of the place it leads to |
| Pathing.ContainmentIsExact | crates/noticenterctl/src/preset/pathing.rs:107-133 | the prefix test on normal forms holds if and only if the path leads below the root directory |
| PathOrder.TextLessIff | crates/noticenterctl/src/preset/config_root.rs:122-127 | texts are ordered by their first difference, a prefix first |
| PathOrder.PathLessIff | crates/noticenterctl/src/preset/config_root.rs:122-127 | paths are ordered by their first different name, a prefix first |
| PathOrder.SortSorts | crates/noticenterctl/src/preset/config_root.rs:122-127 | sorting rows with different paths gives the same rows in ascending order |
| PathOrder.AscendingIsUnique | crates/noticenterctl/src/preset/config_root.rs:122-127 | a set of rows has one ascending listing |
| ConfigTree.NotedIsDeserved | crates/noticenterctl/src/preset/config_root.rs:57-119 | whatever the pruned walk notes is what some visible path of the tree deserves |
| ConfigTree.DeservedIsNoted | crates/noticenterctl/src/preset/config_root.rs:57-119 | what a visible path deserves is noted, unless the walk is refused |
| ConfigTree.ItemPathsDiffer | crates/noticenterctl/src/preset/config_root.rs:57-119 | no path is noted twice |
| ConfigRoot.VisitEntry | crates/noticenterctl/src/preset/config_root.rs:60-118 | one entry is noted, stacked, passed over or refused |
| ConfigRoot.ReadDirectory | crates/noticenterctl/src/preset/config_root.rs:55-119 | reading one directory keeps the account of what is noted and what the stack still owes, and lowers the work left |
| ConfigRoot.CollectConfigFiles | crates/noticenterctl/src/preset/config_root.rs:41-129 | ends on every finite tree; succeeds if and only if nothing reached is refused; returns in path order exactly the files that match no exclusion, lie under no top-level backup directory and are not the output, and likewise the skipped entries |
| ConfigRoot.FileIsCollectedIff | crates/noticenterctl/src/preset/config_root.rs:102-118 | a file is collected, with its size and its permission bits, if and only if no exclusion is a prefix of its path, it is not below a first directory whose name begins with Backup-, and it is not the output |
| ConfigRoot.RefusedIff | crates/noticenterctl/src/preset/config_root.rs:82-115 | the walk fails at exactly the reached directories that lead outside and the exportable files with set-user-id, set-group-id or sticky bits |
| ConfigRoot.LookupGoesDown | crates/noticenterctl/src/preset/config_root.rs:55-64 | a path names the entry of each directory it goes through |
| ConfigRoot.OrderOfEntriesIsIrrelevant | crates/noticenterctl/src/preset/config_root.rs:122-128 | trees with the same paths give the same lists, however directories list their entries |
| MediaKeys.NormalizeToken | crates/unixnotis-center/src/media/snapshot.rs:143-161 | the token loop computes the token |
| MediaKeys.TokenIsToken | crates/unixnotis-center/src/media/snapshot.rs:143-161 | a token is lower-case words separated by single blanks, none at the ends |
| MediaKeys.TokenKeepsLetters | crates/unixnotis-center/src/media/snapshot.rs:143-161 | a token has the letters and digits of the text, in lower case and in order |
| MediaKeys.LettersAreAscii | crates/unixnotis-center/src/media/snapshot.rs:143-161 | the letters and digits a token keeps are the ASCII ones, and only capitals change |
| MediaKeys.WordsStayApart | crates/unixnotis-center/src/media/snapshot.rs:143-161 | two words stay apart by one blank if there was a blank between them, and grow together if there were only marks |
| MediaKeys.NormalizeTokenIsIdempotent | crates/unixnotis-center/src/media/snapshot.rs:143-161 | normalising a token changes nothing |
| MediaKeys.KeysMeanSources | crates/unixnotis-center/src/media/snapshot.rs:97-133 | two players share a key if and only if they have the same process, track, family or identity, title and artist; no key text stands for two of these |
| MediaKeys.KeysMeanFields | crates/unixnotis-center/src/media/snapshot.rs:97-133 | the same on the players' fields: which of process, track, family, identity, title and artist must agree, and when there is no key |
| MediaSnapshot.DedupePlayers | crates/unixnotis-center/src/media/snapshot.rs:74-95 | every place goes to a keyless player or to the best of its key, the earliest among equals, in order of first appearance |
| MediaSnapshot.DedupeShowsBest | crates/unixnotis-center/src/media/snapshot.rs:74-95 | one card per key; every player is shown or represented by one at least as good; keyless players all stay |
| MediaSnapshot.DedupeKeepsRanks | crates/unixnotis-center/src/media/snapshot.rs:82-90 | replacing players in place keeps the list ordered by playback rank |
| MediaOrder.OrderStaysIff | crates/unixnotis-center/src/media/snapshot.rs:43-50 | the snapshot is in the full sort order if and only if no shown player has a place before that of a shown player which sorts strictly before it |
| MediaOrder.JumpersMovedUp | crates/unixnotis-center/src/media/snapshot.rs:82-90 | in a sorted list only a duplicate that took an earlier place can break the order, over a player listed before it |
| MediaOrder.WithoutDuplicatesOrderStays | crates/unixnotis-center/src/media/snapshot.rs:43-50 | without duplicates the whole sort order is kept |
| MediaOrder.ReplacementBreaksIdentityOrder | crates/unixnotis-center/src/media/snapshot.rs:82-90 | three players whose snapshot is not ordered by identity |
| MediaSnapshot.DedupeIsIdempotent | crates/unixnotis-center/src/media/snapshot.rs:74-95 | a deduplicated list is left alone |
| MediaSnapshot.DedupeIsDetermined | crates/unixnotis-center/src/media/snapshot.rs:74-95 | the description leaves one result |
| MediaSnapshot.BuildSnapshot | crates/unixnotis-center/src/media/snapshot.rs:33-59 | the snapshot is the deduplication of the sorted active players: best of each key, earliest among equals, in order of first appearance; playing cards come before paused ones, and every active player is represented, a playing one by a playing card, one with art by an equally active card with art |
| OfflineCommands.EnqueueKeepsCoalesced | crates/unixnotis-center/src/dbus/dbus_commands.rs:54-79 | the queue keeps at most 128 commands and one of each replaceable kind, and only leaves commands out |
| OfflineCommands.StashKeepsCoalesced | crates/unixnotis-center/src/dbus/dbus_commands.rs:34-52 | after any outage the queue is coalesced and a subsequence of the requests |
| OfflineCommands.EnqueueEffect | crates/unixnotis-center/src/dbus/dbus_commands.rs:54-79 | buffering a command adds exactly its effect if and only if it does not push out an id-independent command |
| OfflineCommands.StashAgrees | crates/unixnotis-center/src/dbus/dbus_commands.rs:34-79 | during an outage the queue has the effect of everything requested, except for the kinds pushed out and not requested again |
| OfflineCommands.StashEffect | crates/unixnotis-center/src/dbus/dbus_commands.rs:34-52 | a whole outage keeps the effect of everything requested if and only if no kind of request was pushed out and not requested again |
| OfflineCommands.ShortOutage | crates/unixnotis-center/src/dbus/dbus_commands.rs:70-75 | outages with at most as many requests as the buffer holds lose nothing |
| OfflineCommands.OutageKeepsMeaning | crates/unixnotis-center/src/dbus/dbus_commands.rs:34-116 | replaying the coalesced, stale-filtered queue leaves every daemon state as replaying every id-independent request in order if and only if no kind was pushed out and not requested again |
| OfflineCommands.OutageImposesSurviving | crates/unixnotis-center/src/dbus/dbus_commands.rs:34-116 | whatever was pushed out, the replay imposes on every daemon state exactly the requested effect without the lost kinds |
| OfflineCommands.ReplayImposesDelivered | crates/unixnotis-center/src/dbus/dbus_commands.rs:34-116 | whatever was pushed out and whichever calls fail, the replay imposes on every daemon state the requested effect without exactly those kinds |
| OfflineCommands.ReplayIsShort | crates/unixnotis-center/src/dbus/dbus_commands.rs:100-109 | at most three commands are replayed |
| OfflineCommands.ReplayedAre | crates/unixnotis-center/src/dbus/dbus_commands.rs:100-116 | exactly the queued clears, closes and do-not-disturb requests are replayed, in order |
| OfflineCommands.LongOutageForgetsClear | crates/unixnotis-center/src/dbus/dbus_commands.rs:70-75 | a clear-all followed by 128 dismissals is forgotten |
| OutageBounds.FewIdsLoseNothing | crates/unixnotis-center/src/dbus/dbus_commands.rs:54-79 | an outage with at most 125 commands that name a notification loses nothing, however many other requests it has |
| OutageBounds.BuriedIsForgotten | crates/unixnotis-center/src/dbus/dbus_commands.rs:70-75 | a request followed by 128 commands that name a notification, and not repeated, is lost |
| OutageBounds.SafeCountIff | crates/unixnotis-center/src/dbus/dbus_commands.rs:54-79 | n commands that name a notification can make no outage lose a request, in whatever order, if and only if n is at most 125 |
| OutageOnce.ForgottenIff | crates/unixnotis-center/src/dbus/dbus_commands.rs:54-79 | when nobody repeats a clear or a close, a request is forgotten if and only if the commands behind it, coalesced, fill the queue |
| OutageOnce.OnceOutageKeepsMeaningIff | crates/unixnotis-center/src/dbus/dbus_commands.rs:34-116 | such an outage keeps its meaning if and only if no last request of a kind has a queue's worth of commands behind it |
| OfflineCommands.OfflineBuffer.Enqueue | crates/unixnotis-center/src/dbus/dbus_commands.rs:54-79 | the new queue, and true exactly when the command was buffered |
| OfflineCommands.OfflineBuffer.Stash | crates/unixnotis-center/src/dbus/dbus_commands.rs:34-52 | drains everything readable into the queue |
| OfflineCommands.OfflineBuffer.DropStaleCommands | crates/unixnotis-center/src/dbus/dbus_commands.rs:100-116 | keeps exactly the id-independent commands, in order |
| OfflineCommands.OfflineBuffer.Flush | crates/unixnotis-center/src/dbus/dbus_commands.rs:81-98 | hands every command over once, oldest first, and empties the queue; a failing call is not retried |
| OfflineCommands.OfflineBuffer.Reconnect | crates/unixnotis-center/src/dbus.rs:121-122 | dropping stale commands and flushing imposes the requested effect without the kinds pushed out for good or not delivered; with none of those, it is the effect of the whole outage |

## Left out

- D-Bus proxies, signals, name ownership and authorisation: input and output. The order of store change and command send is kept.
- Rules, text, hints, icons, inhibitor bookkeeping, popup and sound gates: a notification is an id, its owner fields, a transient bit and an opaque payload; "drop all" is an input of insert.
- resolve_expiration is not part of this model: the deadline of a notify is an arbitrary optional input.
- Daemons.Daemon.Notify: as a method, store change and send are one step; the lock granularity of the code is modelled in ExpirationInterleavings.
- Daemons.Daemon.CloseNotification: as a method, store change and send are one step; the lock granularity of the code is modelled in ExpirationInterleavings.
- Daemons.Daemon.DismissFromPanel: as a method, store change and send are one step; the lock granularity of the code is modelled in ExpirationInterleavings.
- Daemons.Daemon.ClearAll: as a method, store change and sends are one step; the lock granularity of the code is modelled in ExpirationInterleavings.
- Daemons.Daemon.HandlePopped: as a method, check and close are one step; ExpirationInterleavings takes the lock twice, as the code does.
- Daemons.Daemon.TimerPass: as a method, a pass runs alone; ExpirationInterleavings runs handlers between its items.
- The capacity of the expiration channel: it is an unbounded queue here, and nothing is said about deadlock when the scheduler sends into its own channel.
- BinaryHeap's array layout: the heap is a multiset with a least-deadline pop; ties may come out in any order.
- ReloadGates.ReloadSlot.Complete: as one step its second look at the dirty mark is a branch that cannot be taken; ReloadInterleavings cuts the call there.
- ReloadModel.StepKeeps: steps are whole slot calls; ReloadInterleavings cuts requests and completions at their atomic operations.
- ReloadModel.NoReloadLost: steps are whole slot calls; the runs of cut calls are those of ReloadInterleavings.RunKeepsIff.
- ReloadInterleavings.RunKeepsIff: the claim of an idle slot, a failed send and a flush stay whole, and memory is sequentially consistent.
- A closed reload channel in runs: slot calls model it, the run theorems assume an open channel.
- Sizes as 64-bit words in the store and scheduler: lengths are naturals; only image arithmetic, ids, counters and revisions model overflow.
- Persistence of the do-not-disturb switch, including whether the flag equals the last persisted value.
- Parsing of image hints and the array form of image bytes; CPU feature detection is an input.
- The 64-bit lane packing of the vector code: a store writes sixteen bytes.
- CssBlocks.NextCssBlockWithOffsets: slices stay bytes; CssTextBlocks says what decoding them gives, String::from_utf8_lossy itself is not part of this model.
- split_selectors, normalize_selector and should_recurse_at_rule: the same scanning pattern with easier claims.
- main_css_check.rs wires a split main_css_check_parse module directory; the scanner modelled here is the single-file one, which has the same logic.
- ConfigRoot.CollectConfigFiles: the file system is a tree value with one flag per directory for "leads outside the root"; read errors and races do not occur.
- Pathing.LexicalKeepsMeaning: lexical, as the code is; symbolic links do not exist in its directories.
- Override of a collected file's contents, bundle names, prompts, archive reading and writing.
- Windows path prefixes and non-Unix file modes.
- Unicode lower-casing of player identities: a parameter. The order of equal identities in a snapshot depends on the cache's iteration order and is left open.
- Transport capabilities and the content of media art; sending of snapshots.
- OfflineCommands.OfflineBuffer.Flush: a failing call has either its whole effect or none; which one is an input.
- GTK widgets, installer, sound, supervision, trial mode and process probing.
