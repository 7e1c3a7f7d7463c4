# Storm multi-lang runtime: accounting, wire protocol, packaging, linking

A Dafny model of the parts of the pystorm_a8c runtime whose correctness spans many steps.

- **Tuple accounting** (`BatchSpec`, `BatchingBolt`, `BatchAccounting`, `BatchGrouping`, `BatchFailures`, `BatchPasses`,
  `PlainBolt`). A bolt is a class whose methods update `_batches`, `_current_tups`, `_current_key` and `_tick_counter`
  and write to a trace of what was read, handed to user code and sent. User code may raise at any call, the pipe may
  close at any message (`room` says after how many), and the logger may raise in the except clause. Each method is
  proved to do what a function on the state says; the theorems count, per id, over whole runs.
- **The timer thread** (`Tickless`, `TicklessGrouping`, `TicklessBolt`). Lock sections, the stored exception, the signal
  and the handler are atomic steps in any order; the theorems hold for every interleaving. `TicklessBolt` holds the
  inherited bolt as a field.
- **The JAR walk** (`Names`, `JarWalk`, `JarOrder`, `JarCollect`). The file system is a finite graph of directory
  identities; the explicit-stack loop with its table of recorded keys is refined to a recursion, and the recursion to
  simple paths.
- **The wire** (`Sanitise`, `Framing`, `Demux`, `Pairing`): integer sanitising, the `end`-framed stream, and one input
  read as two queues, after the Apache Storm Multi-Lang Protocol, sections "Spouts" and "Bolts".
- **Spouts** (`ReliableSpouts`, `SpoutLoop`): replay with a limit, and one `sync` per command.
- **Topology linking** (`Dicts`, `Topology`, `Inputs`). Specs and stream ids are objects; key objects are renamed in place
  inside insertion-ordered dictionaries compared by value.
- **Blobs** (`Blobs`): acceptance and placement.

A function that describes an operation (`BatchSpec.Flush`, `Tickless.Apply`, `Demux.AfterEmit`, `Topology.Clean`, ...) is
reached from the table through the method proved against it and the lemmas about it.

Taken as parameters: which tuples, commands and directory entries arrive; what user code returns, sends or raises; when
the pipe closes; `json.dumps` and `json.loads`, with the fact that one message becomes one line beginning with a brace
that `loads` inverts.

Where the code falls short of what one would expect, the model keeps the code. An input shows each such case, and a
theorem says exactly when it does not arise:

- After a handled exception `_current_tups` is not cleared, so a read that then raises fails the tuple again
  (`FailedTwice`; `KeptIffMalformedFindAll`, and `AnsweredOnceIff` for the plain bolt).
- A logger that raises after `group_key` did drops the tuple (`LoggerDropsTuple`; `KeptIffNoneMuffled`, and
  `AnsweredIffNeverMuffled` for the plain bolt; both failures together, `RunKeepsBooksIff` and `AnsweredAsReadIff`).
- `_run` of the tickless bolt reads before it takes the lock; an exception signalled in between drops the tuple, neither
  acked nor failed nor stored (`SignalDropsHeldTuple`; `NothingLostIffClean`).
- A key whose batch keeps raising keeps the later batches waiting, since every flush begins with it; they are handed over at
  the first tick in which nothing raises (`FlushAfterFailure`, `WaitingBoundWithFailures`).
- The tickless handler may run after a later flush has acked its tuples, and fails them as well
  (`LateHandlerFailsAcked`; `BooksExactIff`, `NoneAnsweredTwiceIff`).
- An exception whose logging raises never reaches the handler, so a spout's command goes without its sync
  (`MuffledGetsNoSync`; `SyncDiscipline`).
- A replay that raises after it was sent is not counted towards `max_fails` (`ReplaysPastLimit`, `RaisedSentIsReached`;
  `ReplayLimitHoldsIff`).
- `_contains_itself` takes the file system root for its own ancestor, so `_collect` of `/` yields nothing although files
  are there (`CollectRoot`; `Collect`).
- Two inputs that come to name one stream become one edge (`NamedBothWaysMerges`, `StrangerMerges`, `SpecAndStreamMerge`;
  `LinkingKeepsEdgesIff`, `SanitizeKeepsEdgesIff`, `InputsBecomeEdgesIff`).

`dafny verify dfyconfig.toml` checks the whole project.

## Model

| member | source | states |
|---|---|---|
| BatchingBolts.BatchingBolt.constructor | pystorm_a8c/bolt.py:298-302 | a new bolt has no batches, no current tuples or key and a tick counter of 0 |
| BatchingBolts.BatchingBolt.Send | pystorm_a8c/component.py:355-363 | a message goes to the end of the trace, or finds the pipe closed and leaves everything as it was |
| BatchingBolts.BatchingBolt.SendAll | pystorm_a8c/bolt.py:364-366 | acks or fails go out in order up to the first that finds the pipe closed |
| BatchingBolts.BatchingBolt.ProcessOne | pystorm_a8c/bolt.py:360-366 | one batch becomes current, is handed to `process_batch` and is acked tuple by tuple unless the call raises, in which case nothing is acked |
| BatchingBolts.BatchingBolt.ProcessBatches | pystorm_a8c/bolt.py:355-373 | a flush that may raise at any batch or find the pipe closed at any ack leaves exactly the fields and trace of `Flush`: completed batches emptied, the raising one current under its key; `_batches` is replaced only at the end |
| BatchingBolts.BatchingBolt.ProcessTick | pystorm_a8c/bolt.py:338-353 | the tick is counted and acked before anything is flushed; a flush starts only past `ticks_between_batches` with batches there, and only one that returns resets the counter |
| BatchingBolts.BatchingBolt.Process | pystorm_a8c/bolt.py:375-384 | the tuple joins the list under its group key, or nothing is filed when `group_key` raises |
| BatchingBolts.BatchingBolt.RunOnce | pystorm_a8c/bolt.py:386-401 | one `_run`: a read that raises changes nothing, a tuple is current exactly until its branch returns |
| BatchingBolts.BatchingBolt.FailWiped | pystorm_a8c/bolt.py:409-416 | fails every tuple of every batch when the process is to exit, of the batch under `_current_key` otherwise, and remembers exactly their ids |
| BatchingBolts.BatchingBolt.FailLeftover | pystorm_a8c/bolt.py:418-421 | fails the current tuples that were not failed as part of a batch |
| BatchingBolts.BatchingBolt.HandleRunException | pystorm_a8c/bolt.py:403-426 | error and sync first, then both fail loops, then the batch under `_current_key` reset and the key cleared; `_current_tups` and the other batches stay |
| BatchingBolts.BatchingBolt.Pass | pystorm_a8c/component.py:518-542 | one pass of the run loop with its except clauses: status 2 when Storm went away, status 1 after any other exception under `exit_on_exception`, handled or not, and otherwise the loop goes on |
| BatchingBolts.BatchingBolt.Run | pystorm_a8c/component.py:504-542 | the loop over any finite stretch of turns ends in the state, or with the status and trace, of `BatchSpec.Run` |
| BatchingBolts.RunStays | pystorm_a8c/component.py:544-550 | once the process has left, later turns change nothing |
| BatchingBolts.FlushFrom | pystorm_a8c/bolt.py:360-372 | how the pipe meets one batch decides the rest of the flush: its call, its acks if it returns, then the later batches |
| BatchSpec.EmptiedInPlace | pystorm_a8c/bolt.py:367-370 | emptying batches one key at a time keeps every key, its place and the batches not reached |
| BatchAccounting.FlushCount | pystorm_a8c/bolt.py:360-366 | a flush acks each tuple of the batches it completes once, fails nothing and reads nothing |
| BatchAccounting.FlushSettles | pystorm_a8c/bolt.py:355-373 | a flush moves tuples from pending to acked; interrupted, it leaves the raising batch and the later ones pending, with nothing beyond them owed by the handler |
| BatchAccounting.TickSettles | pystorm_a8c/bolt.py:338-353 | a tick is acked once and keeps the books, or hands them to the handler in order |
| BatchAccounting.FilingSettles | pystorm_a8c/bolt.py:375-384 | filing makes exactly the new tuple pending |
| BatchAccounting.RaisingKeySettles | pystorm_a8c/bolt.py:383-401 | a raising `group_key` leaves exactly the tuple just read owed on top of what is pending |
| BatchAccounting.RunOnceSettles | pystorm_a8c/bolt.py:386-401 | `_run` keeps the books, or leaves the handler what it owes, unless a malformed read meets a stray current tuple; unless `group_key` raised, the books are right even without the handler |
| BatchAccounting.HandlerCount | pystorm_a8c/bolt.py:409-421 | per id, the handler fails what it wipes plus the current tuples outside it, and nothing else |
| BatchAccounting.HandlerSettles | pystorm_a8c/bolt.py:403-426 | the handler pays exactly what is owed: everything on exit, the batch under `_current_key` otherwise |
| BatchAccounting.PassSettles | pystorm_a8c/component.py:518-542 | one pass of the loop keeps the books, with a logger that raises too unless it keeps a raising `group_key` from the handler, and closes them when it leaves with status 1 after the handler |
| BatchAccounting.RunSettles | pystorm_a8c/component.py:518-542 | the same at every point of every such run with distinct data-tuple ids |
| BatchAccounting.ExitAccounting | pystorm_a8c/bolt.py:338-426 | whenever the process leaves with status 1 after a handler that did not raise, each data tuple was acked or failed exactly once and never both, each tick acked as often as read, wherever the exception arose |
| BatchAccounting.PendingAccounting | pystorm_a8c/bolt.py:355-373 | with `exit_on_exception` off, at every loop head each data tuple is acked, failed or pending, exactly one of the three, and ticks are acked, unless a logger drops a tuple or a malformed read finds a stray one |
| BatchAccounting.FailingBatch | pystorm_a8c/bolt.py:403-426 | with `exit_on_exception` off, a flush raising at batch i acks the batches before i, fails those of i once, and leaves the later batches pending under their keys in their order, unanswered, and the counter one higher |
| BatchAccounting.FailingBatchTrace | pystorm_a8c/bolt.py:355-426 | the exact messages and dictionary of such a pass |
| BatchAccounting.HandlerKeepsBooksIff | pystorm_a8c/bolt.py:418-421 | from a settled state the handler answers each tuple as often as read if and only if no current tuple lies outside the batches it wipes |
| BatchAccounting.MalformedReadKeepsBooksIff | pystorm_a8c/bolt.py:391 | `_current_tups` survives a handled exception: a malformed read is booked correctly if and only if the tuples left there are among those being failed |
| BatchAccounting.FailedTwice | pystorm_a8c/bolt.py:418-426 | an input that shows it: a tuple whose `group_key` raised is failed again by the next malformed read |
| BatchAccounting.RunBalances | pystorm_a8c/bolt.py:338-426 | at every loop head of every run, malformed reads and raising loggers included: reads plus the fails outside the wiped batches equal answers plus pending plus the tuples that `group_key` kept out of every batch |
| BatchAccounting.TurnNets | pystorm_a8c/bolt.py:403-426 | turn by turn, the second loop of the handler fails what `group_key` kept out of the batches, less what the logger drops, plus what a malformed read makes it fail again |
| BatchAccounting.RunNets | pystorm_a8c/bolt.py:338-426 | over every run with distinct data ids: reads plus repeated fails equal answers plus pending plus dropped |
| BatchAccounting.RunKeepsBooksIff | pystorm_a8c/bolt.py:403-426 | with distinct data ids, over every run, malformed reads and raising loggers included: an id is acked, failed or pending as often as read if and only if handled read failures failed it again exactly as often as the logger dropped it |
| BatchAccounting.KeptIffNoneMuffled | pystorm_a8c/component.py:527-539 | with any logger and no handled read failure, all books of a run are right if and only if on no data tuple read did `group_key` and then the logger raise |
| BatchAccounting.KeptIffMalformedFindAll | pystorm_a8c/bolt.py:418-421 | when no logger keeps a raising `group_key` from the handler, all books of a run are right if and only if, whenever a read raised and was handled, no current tuple lay outside the batches the handler wipes |
| BatchAccounting.LoggerDropsTuple | pystorm_a8c/component.py:524-539 | an input that shows the other failing side: the logger raises after `group_key` did, and the tuple is neither answered nor pending |
| BatchGrouping.FlushCalls | pystorm_a8c/bolt.py:360-370 | a flush without exceptions calls `process_batch` once per key with all its tuples |
| BatchGrouping.FlushPartition | pystorm_a8c/bolt.py:355-384 | each flush hands over, per key, exactly the tuples filed since the last flush, and no other turn calls `process_batch` |
| BatchGrouping.GroupingRefinement | pystorm_a8c/bolt.py:355-384 | in every exception-free run, per key, the batches handed over one after the other followed by what is pending are that key's tuples in arrival order |
| BatchGrouping.TickBound | pystorm_a8c/bolt.py:344-353 | after every tick, batches that are left mean a counter of at most `ticks_between_batches` |
| BatchGrouping.WaitingBound | pystorm_a8c/bolt.py:338-384 | every tuple has been handed to `process_batch` under its key once `ticks_between_batches` + 1 ticks have followed it |
| BatchFailures.FailedFlushCalls | pystorm_a8c/bolt.py:360-370 | a flush that raises at batch i calls `process_batch` once for each key up to that one, and for no later key |
| BatchFailures.FlushAfterFailure | pystorm_a8c/bolt.py:351-373 | as the counter is not reset by a flush that raises, the very next tick, if nothing raises, hands over each later batch under its key, an empty one under the earlier keys, and leaves none |
| BatchFailures.WaitingBoundWithFailures | pystorm_a8c/bolt.py:338-373 | although flushes fail and loggers raise: a tuple has been handed to `process_batch` under its key once `ticks_between_batches` + 1 ticks have followed it in which nothing raised |
| BatchPasses.PassEnds | pystorm_a8c/component.py:518-542 | status 1 exactly after something ordinary was raised under `exit_on_exception`; status 2 only at the end of the input, by StormWentAwayError or with a full pipe; a process that stays has raised nothing or has the flag off |
| BatchPasses.OnlyStormEndsIt | pystorm_a8c/component.py:518-542 | with `exit_on_exception` off a run is only ever left with status 2 |
| BatchPasses.CurrentAfter | pystorm_a8c/bolt.py:391-401 | `_current_tups` is empty at the head of the loop after a pass that raised nothing, and otherwise what the exception left there |
| BatchPasses.NoKeyAtHead | pystorm_a8c/bolt.py:367-370 | with `auto_fail` and a quiet logger `_current_key` is None at every head of the loop |
| BatchPasses.RaisingKeyBatch | pystorm_a8c/bolt.py:409-426 | a `group_key` that raises and is handled costs, besides its tuple, the batch under None, failed and emptied, and leaves every other batch as it was |
| BatchPasses.AutoFailOff | pystorm_a8c/bolt.py:408 | with `auto_fail` off nothing is ever failed |
| BatchPasses.HandlerKeepsBatches | pystorm_a8c/bolt.py:406-408 | and the handler only reports, leaving batches and key |
| BatchPasses.AutoAckOff | pystorm_a8c/bolt.py:364-366 | with `auto_ack` off only ticks are ever acked |
| PlainBolts.PlainBolt.RunOnce | pystorm_a8c/bolt.py:206-227 | `Bolt._run`: sync for a heartbeat, otherwise user code and then the ack; the tuple stays current when user code raises |
| PlainBolts.PlainBolt.HandleRunException | pystorm_a8c/bolt.py:229-238 | error, sync and fail for the one current tuple; nothing at all, not even the error, without one |
| PlainBolts.PlainBolt.Pass | pystorm_a8c/component.py:518-542 | the same run loop around the plain bolt |
| PlainBolts.RunBooks | pystorm_a8c/bolt.py:206-238 | under default flags each id was answered as often as it was read, plus once for every handled read failure that met a tuple still current, less once for every exception its logger kept from the handler |
| PlainBolts.AnsweredAsReadIff | pystorm_a8c/bolt.py:206-238 | whatever the logger does, an id is answered as often as read if and only if the two numbers agree |
| PlainBolts.AnsweredOnceIff | pystorm_a8c/bolt.py:222-238 | when no exception of user code was kept from the handler, every tuple and tick is answered as often as read if and only if no read raised, and was handled, right after a handled exception |
| PlainBolts.AnsweredIffNeverMuffled | pystorm_a8c/component.py:527-539 | when no stale read is handled, whatever the logger does, every tuple and tick is answered as often as read if and only if no exception of user code was kept from the handler |
| PlainBolts.SyncsAreOwed | pystorm_a8c/bolt.py:213-238 | over every run: one sync for each heartbeat and each error, and one error for each exception that had a tuple to blame and was not muffled |
| PlainBolts.PassEnds | pystorm_a8c/component.py:518-542 | status 1 only after something ordinary was raised under `exit_on_exception`, and staying only without |
| PlainBolts.FlagsOff | pystorm_a8c/bolt.py:218-238 | with `auto_ack` off nothing is acked, with `auto_fail` off nothing is failed |
| TicklessBolts.TicklessBatchingBolt.constructor | pystorm_a8c/bolt.py:491-503 | no exception stored, the main thread reading |
| TicklessBolts.TicklessBatchingBolt.ReadTuple | pystorm_a8c/bolt.py:556 | the tuple is read and held before the lock is taken |
| TicklessBolts.TicklessBatchingBolt.RunSection | pystorm_a8c/bolt.py:557-566 | under the lock: sync, ack the tick, or file the tuple, then clear `_current_tups` |
| TicklessBolts.TicklessBatchingBolt.BatchEntryRun | pystorm_a8c/bolt.py:509-525 | under the lock a whole flush; what it raises is caught by the batcher thread |
| TicklessBolts.TicklessBatchingBolt.StoreException | pystorm_a8c/bolt.py:523-525 | the caught exception becomes `exc_info` |
| TicklessBolts.TicklessBatchingBolt.HandleWorkerException | pystorm_a8c/bolt.py:527-541 | raises in the main thread, and clears `exc_info`, exactly when one is stored; a stray signal changes nothing |
| TicklessBolts.TicklessBatchingBolt.HandleRunException | pystorm_a8c/component.py:527-542 | the inherited handler unless the logger raises before it, then status 1 or back to reading |
| BatchAccounting.FlushAccounts | pystorm_a8c/bolt.py:509-516 | a timer flush turns pending into acked one for one, and an interrupted one leaves `_current_tups` equal to the batch under `_current_key` |
| Tickless.SectionAccounts | pystorm_a8c/bolt.py:557-566 | a lock section makes exactly its data tuple pending, or acks exactly its tick |
| BatchAccounting.HandlerAccounts | pystorm_a8c/bolt.py:403-426 | per id: what the handler fails against what leaves `_batches`, for any `_current_tups` |
| Tickless.ExecCovers | pystorm_a8c/bolt.py:509-566 | over every interleaving, a data tuple read is accounted for, or else held or lost and nowhere else |
| Tickless.LostIffUnclean | pystorm_a8c/bolt.py:527-566 | a data tuple was dropped if and only if a signal with an exception came while one was read and not yet filed |
| Tickless.AccountedForIff | pystorm_a8c/bolt.py:509-566 | over all interleavings a data tuple read is acked, failed or still in `_batches` exactly when it is not held by the main thread and was not dropped by a signal while held |
| Tickless.NothingLostIffClean | pystorm_a8c/bolt.py:509-566 | outside that window every data tuple is accounted for if and only if no exception-carrying signal arrived in it |
| Tickless.SignalDropsHeldTuple | pystorm_a8c/bolt.py:527-557 | an interleaving that shows the loss |
| Tickless.ExecBalances | pystorm_a8c/bolt.py:509-566 | over every interleaving and per id, reads plus what the handler failed again equal answers plus pending plus held plus lost |
| Tickless.BooksExactIff | pystorm_a8c/bolt.py:418-421 | the books are exact for an id if and only if the handler never failed it again, and for all ids if and only if its guard `tup.id not in failed` never held for a current tuple |
| Tickless.AnsweredOnceIff | pystorm_a8c/bolt.py:403-426 | a data tuple alone with its id is answered at most once, and not while it waits, if and only if the handler never failed it again |
| Tickless.NoneAnsweredTwiceIff | pystorm_a8c/bolt.py:403-426 | with distinct ids no data tuple is answered twice, both ways or while it waits if and only if every handler found its current tuples in the batches it wiped |
| Tickless.PromptAccounting | pystorm_a8c/bolt.py:403-426 | that is so when each batcher exception is handled before the next flush |
| Tickless.LateHandlerFailsAcked | pystorm_a8c/bolt.py:509-541 | the failing side is reached: the next flush comes first, and a tuple is acked and then failed |
| TicklessGrouping.SectionFiles | pystorm_a8c/bolt.py:557-566 | one lock section answers a heartbeat by a sync and a tick by its ack, and adds a data tuple to the tuples under the key `group_key` returned for it and to no others |
| TicklessGrouping.NothingUnderAWrongKey | pystorm_a8c/bolt.py:509-566 | over every interleaving, exceptions included: a tuple is only ever in the batch of the key that `group_key` returned for it, and only handed over under that key |
| TicklessGrouping.TimerHands | pystorm_a8c/bolt.py:355-373 | a timer flush hands over, under each key, all that is pending there |
| TicklessGrouping.TimerGroups | pystorm_a8c/bolt.py:509-566 | grouping over interleavings: while no flush raises, per key the batches handed over, one after the other, and what is pending are the data tuples with that key in the order of their lock sections |
| TicklessGrouping.ThreadLeaves | pystorm_a8c/component.py:518-542 | the main thread leaves with status 2 when its input ends, from the except clause with status 1 exactly under `exit_on_exception`, and gets there only by a signal with an exception |
| JarWalk.DepthBound | pystorm_a8c/cli/jar.py:63-70 | an unpruned path is shorter than the number of directories |
| JarWalk.WalkIff | pystorm_a8c/cli/jar.py:64-70 | the recursion over all graphs, cycles included, visits unpruned exactly the kept names through pairwise distinct directories outside the ancestors |
| JarWalk.VisitedIff | pystorm_a8c/cli/jar.py:64-70 | from the source directory: exactly the simple paths |
| JarWalk.EntriesIff | pystorm_a8c/cli/jar.py:72-76 | the entries are those of the non-excluded files of the unpruned visits |
| JarWalk.ArchiveIff | pystorm_a8c/cli/jar.py:48-76 | an entry is in the archive if and only if non-excluded directory names lead to it through pairwise distinct identities and the file is not excluded; its archive name is made of that path |
| JarWalk.ArchiveNamesDistinct | pystorm_a8c/cli/jar.py:72-76 | no archive name is yielded twice |
| JarWalk.BothLinksAppear | pystorm_a8c/cli/jar.py:51-60 | two links to one directory that is not an ancestor both appear, under different names |
| JarWalk.ArchiveEmptyIff | pystorm_a8c/cli/jar.py:86-91 | the archive is empty if and only if no file belongs in it |
| JarOrder.ListingOrderIsForgotten | pystorm_a8c/cli/jar.py:70-76 | two file systems that differ only in the order of their listings have equal archives, order included |
| JarOrder.ArchiveInOrder | pystorm_a8c/cli/jar.py:70-76 | the entries of a directory come in the order of their names, before what is in its subdirectories, and those, with all that is below them, in the order of theirs |
| JarOrder.EntriesSpelledOut | pystorm_a8c/cli/jar.py:70-76 | every entry is a file below the source directory under `resources/` and its relative path, through no excluded directory, and not an excluded file |
| JarOrder.LeIff | pystorm_a8c/cli/jar.py:70-72 | the order is the lexicographic one by code point |
| JarCollect.ContainsItself | pystorm_a8c/cli/jar.py:32-45 | true exactly when the key is met at an ancestor before the recorded ancestors end; the root is its own ancestor |
| JarCollect.MeetsAncestor | pystorm_a8c/cli/jar.py:32-45 | in the course of the walk below any source directory but the root, that is exactly whether the identity occurs among the ancestors |
| JarCollect.CollectFiles | pystorm_a8c/cli/jar.py:72-76 | appends the packaged files of one directory in sorted order |
| JarCollect.Enter | pystorm_a8c/cli/jar.py:64-76 | one iteration: record, prune or collect, push the kept directories |
| JarCollect.Advance | pystorm_a8c/cli/jar.py:64-70 | an iteration takes the visit at the head off the recursive walk and leaves the rest of it, and the walk that is left shrinks |
| JarCollect.Collect | pystorm_a8c/cli/jar.py:48-76 | the explicit-stack walk terminates on every graph and yields the entries of the recursion, in its order; with a file that belongs, it yields nothing if and only if the source directory is the file system root |
| JarCollect.CollectRoot | pystorm_a8c/cli/jar.py:32-45 | a file system that shows it: the root with one file that belongs |
| Names.SortedIsOrdered | pystorm_a8c/cli/jar.py:70-72 | sorting keeps the names and their number and puts them in order |
| Sanitise.ReplacePointwise | pystorm_a8c/serializer.py:16-27 | position by position, an integer outside the signed 64-bit range becomes null; every other node keeps its kind, length, keys and value, tuples becoming lists |
| Sanitise.ReplacedIsReadable | pystorm_a8c/serializer.py:10-27 | no integer Storm cannot read, and no tuple, is left |
| Sanitise.ReplaceKeepsIff | pystorm_a8c/serializer.py:16-27 | a value is unchanged up to tuple-to-list if and only if all its integers are in range |
| Sanitise.ReplaceIsIdempotent | pystorm_a8c/serializer.py:16-27 | sanitising twice is sanitising once |
| Sanitise.ReadableIff | pystorm_a8c/serializer.py:10-13 | readable means: fits 64 bits in two's complement |
| Framing.JSONSerializer.constructor | pystorm_a8c/serializer.py:46-55 | no blank line counted |
| Framing.JSONSerializer.ReadMessage | pystorm_a8c/serializer.py:69-95 | lines up to `end`, blank ones counted and skipped, are parsed together; the end of the stream raises StormWentAwayError whatever was read |
| Framing.JSONSerializer.SendMessage | pystorm_a8c/serializer.py:97-116 | one frame without blank lines, holding the sanitised message, is written, or StormWentAwayError raised |
| Framing.BlanksOnlyCount | pystorm_a8c/serializer.py:84-93 | the blank-line counter does not influence what is read |
| Framing.ReadWhole | pystorm_a8c/serializer.py:69-102 | a frame with blank lines at any boundary is read as its one line of JSON, even without its last newline |
| Framing.ReadCut | pystorm_a8c/serializer.py:78-80 | anything shorter is no message |
| Framing.CutStream | pystorm_a8c/serializer.py:69-102 | wherever the stream is cut, the sanitised messages that have arrived in full are returned in order, then StormWentAwayError, and no partial message ever |
| Framing.RoundTrip | pystorm_a8c/serializer.py:69-102 | what was serialised is read back sanitised, in order, whatever blank lines come in between |
| Framing.JSONSerializer.SendThem | pystorm_a8c/serializer.py:69-116 | after any sequence of sends on an open pipe, reading the output returns each message sanitised, in order, then the end, and no unreadable integer |
| Framing.WrittenIsRead | pystorm_a8c/serializer.py:69-102 | what `serialize_dict` produced, message after message, is read back sanitised and in order |
| Framing.SerializedIsFrame | pystorm_a8c/serializer.py:97-102 | `serialize_dict` writes exactly one frame |
| Demux.Component.constructor | pystorm_a8c/component.py:243-272 | both queues are empty |
| Demux.Component.ReadTaskIds | pystorm_a8c/component.py:324-332 | the oldest queued list, or the next list of the stream with the commands before it queued |
| Demux.Component.ReadCommand | pystorm_a8c/component.py:334-342 | the oldest queued command, or the next command of the stream with the lists before it queued |
| Demux.Component.Emit | pystorm_a8c/component.py:443-478 | the message built key by key is sent, unless the pipe is closed, and a reply is waited for exactly for a non-direct emit that needs one; a direct one returns its own task |
| Demux.EmitSendsArguments | pystorm_a8c/component.py:449-465 | Storm reads from the message of an emit that got out exactly the arguments of the call, field by field, and the flag only to switch replies off |
| Demux.EmitWithoutReply | pystorm_a8c/component.py:458-478 | a direct emit that wants task ids returns its own task, any other that does not wait returns nothing, and neither reads anything |
| Demux.EmitRefused | pystorm_a8c/component.py:443-447 | anything but a list or tuple, or a closed pipe, sends and reads nothing |
| Demux.GarbledReplyRaises | pystorm_a8c/component.py:470-472 | whatever commands come before it, a reply that does not parse makes a waiting emit raise after its message was sent |
| Pairing.ReadKeepsOrder | pystorm_a8c/component.py:324-342 | one call of either kind: value and queue together are the old queue and the filter of the messages taken, for both kinds |
| Pairing.Demultiplexing | pystorm_a8c/component.py:324-342 | for any sequence of calls, the values returned followed by the queue are the order-preserving filter of the messages read, for both kinds, and one of the two queues is always empty |
| Pairing.ActionBooks | pystorm_a8c/component.py:324-342 | each action of the thread keeps: no list outstanding, replies in order, commands in order |
| Pairing.PairedWhileGoing | pystorm_a8c/component.py:406-478 | garbled messages included: as long as the calls return, the i-th waiting emit got the i-th answer, none is outstanding, and the commands are those returned, queued and unread, in order |
| Pairing.ReturnsIffServed | pystorm_a8c/component.py:324-342 | against a Storm that keeps order and sends nothing garbled, all calls return if and only if it has answered every emit that asks and has sent a command for every `read_command` |
| Pairing.EmitsGetTheirReplies | pystorm_a8c/component.py:406-478 | against a Storm that answers exactly the non-direct `need_task_ids` emits, in order, with commands interleaved anyhow, every emit returns its own list, no reply is left over and no command is lost or reordered |
| ReliableSpouts.ReliableSpout.constructor | pystorm_a8c/spout.py:164-167 | both maps are empty |
| ReliableSpouts.ReliableSpout.Ack | pystorm_a8c/spout.py:169-180 | the id leaves both maps |
| ReliableSpouts.ReliableSpout.Emit | pystorm_a8c/spout.py:215-238 | the arguments are saved before the emit, which may raise; without an id nothing is saved |
| ReliableSpouts.ReliableSpout.Fail | pystorm_a8c/spout.py:182-213 | below the limit the saved arguments are emitted again and a replay that returns is counted; at the limit the id is dropped; an unknown id changes nothing |
| ReliableSpouts.MapsFollowLives | pystorm_a8c/spout.py:164-238 | after any sequence of emits, acks and fails the two maps hold exactly the ids in flight, with the arguments and counts of the life of each seen by itself |
| ReliableSpouts.RunInvariant | pystorm_a8c/spout.py:164-238 | every id in `failed_tuples` is in `unacked_tuples` with a count from 1 to `max_fails`; the ids emitted are those still tracked and those resolved, and none is both |
| ReliableSpouts.InFlightArgs | pystorm_a8c/spout.py:230-231 | a tracked id carries the arguments of its last explicit emit |
| ReliableSpouts.EmitSendsItsArguments | pystorm_a8c/spout.py:230-238 | an explicit emit, of a tracked id too, sends and saves the arguments of this call and touches no count and no other id |
| ReliableSpouts.MessagesCarryLastArgs | pystorm_a8c/spout.py:182-238 | every message that an operation sends carries the most recent explicit arguments of its id |
| ReliableSpouts.AckForgets | pystorm_a8c/spout.py:169-180 | an ack sends nothing and forgets that id alone |
| ReliableSpouts.ReplayBound | pystorm_a8c/spout.py:182-213 | while an id is tracked the replays that returned are what `failed_tuples` counts and at most `max_fails`, whatever else happens and however often it is emitted again |
| ReliableSpouts.FailReplaysOrResolves | pystorm_a8c/spout.py:182-213 | a fail sends the last explicit arguments as long as the count is below the limit, and otherwise sends nothing and removes the id from both maps |
| ReliableSpouts.StaysInFlightIff | pystorm_a8c/spout.py:164-238 | an untracked id is tracked from here on if and only if it is emitted first, never acked and never failed once `max_fails` replays have returned |
| ReliableSpouts.LimitResolves | pystorm_a8c/spout.py:197-213 | from the emit on, without an ack, the id stays tracked until the fail after `max_fails` returned replays, and that fail removes it from both maps and sends nothing |
| ReliableSpouts.SentReplays | pystorm_a8c/spout.py:182-238 | how often an id went out: its explicit emits plus its replays, counting those that raised after being sent |
| ReliableSpouts.ReplayLimitHoldsIff | pystorm_a8c/spout.py:182-213 | Storm gets an id again exactly once for each fail whose replay got out, so at most `max_fails` times if and only if there are no more such fails, returned and raised together |
| ReliableSpouts.ReplaysPastLimit | pystorm_a8c/spout.py:197-205 | an input that goes past the limit: with `max_fails` 1, two replays that raise once sent leave the id tracked and uncounted |
| ReliableSpouts.DeliveryIsSent | pystorm_a8c/component.py:443-478 | for every ending of `emit`: the message is out exactly if the spout counts it as sent |
| ReliableSpouts.RaisedSentIsReached | pystorm_a8c/component.py:470-472 | the input behind such histories: a waiting emit whose reply does not parse raises although its message is out |
| SpoutLoop.Spout.Dispatch | pystorm_a8c/spout.py:121-133 | the callback of the command sends its messages and returns, raises or loses Storm; an unknown command only logs |
| SpoutLoop.Spout.Pass | pystorm_a8c/component.py:365-382 | sync after a callback that returned, error and sync after one that raised, status 2 as soon as the pipe is closed |
| SpoutLoop.PassStretch | pystorm_a8c/spout.py:116-134 | what one command leaves in the trace |
| SpoutLoop.SyncDiscipline | pystorm_a8c/spout.py:116-134 | as long as Storm is there, each command is followed by its messages, exactly one sync and then the next command, whether the callback returned or raised, if and only if no logger failure kept an exception from the handler |
| SpoutLoop.MuffledGetsNoSync | pystorm_a8c/component.py:524-539 | an input that shows the failing side: a callback raises, then the logger, and the command has no sync |
| SpoutLoop.SyncUntilStormGoes | pystorm_a8c/component.py:518-542 | when Storm goes away, all before the last command is in order and that command has no sync |
| SpoutLoop.PassEnds | pystorm_a8c/component.py:518-542 | status 1 only after an exception under `exit_on_exception`, status 2 only when Storm is gone or its pipe full, staying only without either |
| SpoutLoop.OnlyStormEndsIt | pystorm_a8c/component.py:518-542 | with `exit_on_exception` off a run is only ever left with status 2 |
| Dicts.RekeyKeepsAll | pystorm_a8c/dsl/topology.py:99-104 | deleting and reinserting keys one by one over a snapshot keeps every entry and its value, unmoved keys first, when no two keys get the same new one |
| Dicts.RekeyLosesNothingIff | pystorm_a8c/dsl/topology.py:99-104 | in any case the keys afterwards are exactly the new keys, each with the value of an entry given that key; nothing is lost if and only if the new keys are distinct |
| Dicts.MidwayNext | pystorm_a8c/dsl/topology.py:99-104 | each step keeps the dictionary apart, finds the key it deletes, and loses an entry exactly when the new key is there |
| Topology.Reinsert | pystorm_a8c/dsl/topology.py:100-104 | the key object is renamed in place while it is out of the dictionary, which changes by exactly that step |
| Topology.CleanKey | pystorm_a8c/dsl/topology.py:99-118 | one turn: rename, TypeError for a missing component, then the checks on the renamed key |
| Topology.CleanSpecInputs | pystorm_a8c/dsl/topology.py:95-118 | the inputs, by value, and the error are those of the rewriting up to the first link that cannot stand |
| Topology.CleanIsRekey | pystorm_a8c/dsl/topology.py:107-118 | it succeeds if and only if every link names a declared component, one of its streams, and fields of that stream; then the inputs are the rekeyed ones |
| Topology.CheckIs | pystorm_a8c/dsl/topology.py:107-118 | KeyError for a component or stream that is not declared, ValueError for a grouping field that the stream does not have |
| Topology.CleanErrorIs | pystorm_a8c/dsl/topology.py:105-118 | the first link that cannot stand decides the error, TypeError when it has no component |
| Topology.LinkedIs | pystorm_a8c/dsl/topology.py:103 | a spec is replaced by the name it bears, with the stream unchanged, and any other key stays |
| Topology.CleanedStands | pystorm_a8c/dsl/topology.py:95-118 | after success the inputs are distinct links that stand, one for every key there was |
| Topology.ApartIffUniform | pystorm_a8c/dsl/topology.py:101-104 | when every spec referred to is the topology's own, names being unique, two keys come to name one stream if and only if it is an input both by spec and by name |
| Topology.LinkingKeepsEdgesIff | pystorm_a8c/dsl/topology.py:95-118 | whatever the keys refer to, no edge is merged or dropped if and only if no two keys come to name one stream, and then every edge keeps its stream and grouping |
| Topology.NamedBothWaysMerges | pystorm_a8c/dsl/topology.py:101-104 | an input that shows a merge: one stream given by spec and by name |
| Topology.StrangerMerges | pystorm_a8c/dsl/topology.py:101-104 | another: a declared spec and one from elsewhere that bears its name |
| Topology.NameSpec | pystorm_a8c/dsl/topology.py:53-55 | a given name stays, otherwise the variable name is taken |
| Topology.ClassDictToSpecs | pystorm_a8c/dsl/topology.py:48-66 | every spec is named, in order, unless a component instance is among the attributes or a spec is bound twice or a name shared |
| Topology.Link | pystorm_a8c/dsl/topology.py:20-29 | a bolt without inputs, a spout without outputs, anything else, or a link that cannot stand is refused with its error |
| Topology.LinkNext | pystorm_a8c/dsl/topology.py:20-29 | the other specs keep their inputs |
| Topology.LinkAll | pystorm_a8c/dsl/topology.py:20-29 | all specs are accepted and cleaned, each from what its own inputs were, or an error stops the loop; the registers hold exactly the bolts and the spouts by name |
| Topology.NameAll | pystorm_a8c/dsl/topology.py:48-66 | naming touches no input, and fixes what every reference stands for |
| Topology.CleanedIsLinked | pystorm_a8c/dsl/topology.py:95-118 | what success means for the links of one spec |
| Topology.NewTopology | pystorm_a8c/dsl/topology.py:15-45 | the class is created if and only if the specs can be named, each is accepted and links without error, there is a spout unless it is `Topology` itself, and the config is a dict; then every edge of every spec stands, none was lost or merged unless two keys came to name one stream, every bolt has an edge and every spout a stream |
| Inputs.SanitizeDict | pystorm_a8c/dsl/component.py:76-96 | the dictionary form: the first fault in order, or every spec key replaced by its default stream |
| Inputs.SanitizeKeepsEdgesIff | pystorm_a8c/dsl/component.py:76-97 | the result maps exactly the streams meant to groupings; no input is merged if and only if no two keys mean the same stream |
| Inputs.SpecAndStreamMerge | pystorm_a8c/dsl/component.py:77-81 | an input that shows a merge: a spec and its default stream as two keys |
| Inputs.SanitizeList | pystorm_a8c/dsl/component.py:98-124 | the list form: one entry per stream, grouped as its last item has it, direct exactly for a spec whose default stream is direct; TypeError for anything else |
| Inputs.ReferenceIs | pystorm_a8c/dsl/component.py:106 | a spec is referred to by its name if that is not empty, by itself otherwise |
| Inputs.FaultIs | pystorm_a8c/dsl/component.py:77-96 | KeyError for a spec without a default stream, TypeError for a key or value of the wrong kind |
| Inputs.FirstFaultIs | pystorm_a8c/dsl/component.py:77-96 | the first entry at fault decides |
| Inputs.TargetIs | pystorm_a8c/dsl/component.py:78-81 | a spec key stands for its default stream, a stream key for itself |
| Inputs.ListSpelledOut | pystorm_a8c/dsl/component.py:101-124 | each entry is for the stream of an item that no later one shares, direct exactly if that item is a spec whose default stream is direct, shuffled otherwise; and every stream listed has one |
| Inputs.NewSpec | pystorm_a8c/dsl/component.py:28-42 | a spec made from a dictionary of inputs holds what was read, under keys that it shares with no other spec, or the first fault |
| Inputs.NewSpecFromList | pystorm_a8c/dsl/component.py:98-124 | a spec made from a list, under keys of its own, or TypeError |
| Inputs.InputsBecomeEdgesIff | pystorm_a8c/dsl/component.py:75-129 | from the inputs as the user gives them to the linked edges: none is lost or merged if and only if no two mean the same stream once names are known, and each stream meant is an edge |
| Inputs.ListHasStreams | pystorm_a8c/dsl/component.py:98-124 | reading a list gives exactly one entry for each stream in it |
| Inputs.ListBecomesEdgesIff | pystorm_a8c/dsl/component.py:98-124 | the list form from end to end: each stream listed is an edge that stands; no stream is merged if and only if they stay apart once names are known, and no item is if and only if no two mean the same stream |
| Blobs.CheckBlobs | pystorm_a8c/cli/submit.py:121-142 | all problems, in sorted key order: the venv key, local names that are not plain, and local names taken by an earlier plain one |
| Blobs.AcceptedIff | pystorm_a8c/cli/submit.py:114-142 | there is none if and only if no key is the venv key, every local name is plain and no two are the same |
| Blobs.PlainIff | pystorm_a8c/cli/submit.py:114-118 | a local name is plain if and only if it is not `venv` and leads, from whatever directory, to the file of that name in it |
| Blobs.ReportsHold | pystorm_a8c/cli/submit.py:126-136 | every problem reported is one, and a shared name is reported with the first blob in key order that has it |
| Blobs.ReportsComplete | pystorm_a8c/cli/submit.py:126-136 | every blob at fault is reported for it |
| Blobs.BlobstoreMap | pystorm_a8c/cli/submit.py:145-154 | the venv blob unpacked at `venv`, every extra blob as a plain file at its local name, an extra blob under the venv key taking its place |
| Blobs.PlacedApartIff | pystorm_a8c/cli/submit.py:114-154 | the map has the venv key alone at `venv`, alone unpacked, and no local name twice, if and only if the blobs are acceptable |

## Left out

- Handshake, pid file, logging, stream wrapping and `_exit`: process I/O; only the exit status is kept. Log messages that
  `StormHandler` sends to Storm are not in the traces.
- BaseException other than StormWentAwayError and ordinary exceptions (KeyboardInterrupt, SystemExit) is not modelled.
- JSON text, text decoding and universal newlines are library behaviour behind `dumps`, `loads` and `Readline`.
- Tuple payloads, and emits of user code in a bolt, do not occur in the accounting traces; user code that acks or fails
  by itself is excluded there.
- Tickless: real time, thread start-up, and a signal inside a lock section or inside the handler, are not modelled; `group_key` does not raise and
  reads do not meet malformed input; after the pipe has closed nothing is stated.
- TicklessBolts.TicklessBatchingBolt.BatchEntryRun: the sleep before the flush is left to the order of the steps.
- BatchAccounting.ExitAccounting: supposes distinct data-tuple ids; a heartbeat is not a tuple to be answered.
- BatchAccounting.PendingAccounting: supposes distinct data-tuple ids, no tuple dropped by a logger and no stray tuple met by a handled
  read failure; `KeptIffNoneMuffled` and `KeptIffMalformedFindAll` show that no less would do.
- BatchAccounting.RunKeepsBooksIff: supposes distinct data-tuple ids; `RunBalances` does not.
- Demux.Component.Emit: `need_task_ids` emits from several threads at once are not modelled, since `read_command` tests its queue
  outside the reader lock; the two locks around a single thread do nothing.
- JAR: ZIP writing, file contents, stat errors and broken links are foreign calls; the order in which os.walk lists a
  directory does not matter (`ListingOrderIsForgotten`).
- ReliableSpouts: a `max_fails` that changes during a run; the log lines.
- SpoutLoop: commands are well formed, and the log call for an unknown command does not raise.
- Topology.NewTopology: supposes that no stream-id object is shared between two specs, whose dictionaries would otherwise hold a key with a
  stale hash; that lookups find keys by value is part of `Without` and `With`. `spec.inputs` is never None, as
  `_sanitize_inputs` makes it a dictionary. The Thrift structs are left out.
- Topology.ApartIffUniform: supposes that every spec referred to belongs to the topology; `StrangerMerges` shows why.
- Inputs.SanitizeDict: works on a copy; that the caller's own dictionary is rewritten is not modelled. `NewSpec` makes a key object of its own
  for each input, where the source keeps the stream ids it is given.
- `_sanitize_outputs`, `_sanitize_config`, `_sanitize_par`: single checks and merges; mixing a `Stream` for `default` with
  plain field names shares the class-level list and is not modelled.
- `blobstore_options`, `resolve_options`, `resolve_parallelism`, `rewrite_execution_commands`: merges of maps.
- Nimbus RPC, upload, kill polling, configuration, argument parsing: network and command line.
