# Verified model of the PostgreSQL key-value store

This project models the transaction engine of the SurrealDB-on-PostgreSQL store and proves what it
is meant to guarantee: the savepoint discipline of `PgTransaction`, the close protocol of `PgTx`,
the store's begin/shutdown/accounting life cycle, and the text transformations around them
(connection URLs, percent escapes, partition DDL, durations).

The server is one PostgreSQL session inside one transaction block: a durable table, a working
table, a stack of named savepoints with snapshots, and a status. Every statement may be struck by a
fault: refused by the server, refused by the driver before it is sent, or lost with the connection. Nothing about which statements fail is
fixed in advance, so every claim about runs holds for every pattern of failures.

`dafny verify dfyconfig.toml` checks everything.

## How it is laid out

- `PgServer`, `Tables`, `KeyOrder`, `PgErrors`: the session, the meaning of each SQL string, the
  order of `BYTEA` keys, and how driver errors are classified.
- `TxModel`: what one call on a `PgTransaction` does, as functions on the client's fields and the
  session. `PgTransactions` is the object itself; each of its methods is proved to do what `TxModel`
  says, so everything below about runs is about the object.
- `SavepointRuns`, `SetMany`, `Ranges`, `UndoRefinement`: what those functions guarantee over whole
  runs, up to the refinement of the named, fallible protocol to a plain map with an anonymous undo
  stack.
- `CloseProtocol`, `CloseRuns`: any number of concurrent callers of one `PgTx`, interleaved at every
  access to `done`, the mutex, the inner transaction, the wire and the counters; futures may be
  dropped at their await points. `PgTxs` is the object, one method per atomic section, each proved
  to be the protocol's step.
- `CallSteps` takes each call apart into the steps its future takes (up to the first await, the
  server carrying out a statement, the answer coming in) and proves that the steps add up to the
  call. `AbandonedCalls`: what a future dropped between two steps leaves behind.
- `PgTxRuns` puts protocol and transaction together, step by step and with futures dropped at any
  step: the lock makes any interleaving one sequential run, in the transaction, on the wire and in
  real time, and what a commit publishes is what that run left. `PgTxCalls`: who is let in, and that
  a call on a quiet value goes through to its own answer.
- `Lifecycle`: any number of begin calls, the transactions they open and the users of those
  transactions, with the shared counters and the shutdown barrier. `BeginRetry`: the two retry
  loops; `BeginRuns`: each call inside a run of the store goes as its loop goes. `Heartbeat`: the
  direct-mode heartbeat task.
- `UrlParams`, `PercentDecode`, `Partitions`, `Durations`, over `Text`, `Sequences` and `Decimal`: the text tier.

## What turned out not to hold as written

- A comment says that `closed()` returning true always means that the connection is released
  (src/pg_tx.rs:189-191). It does not: from the winner's swap until the server's answer has been
  counted out, `done` is set while the connection is still held, at first in the mutex, then with
  the lock free in the winner's own hands. `CloseRuns.DoneWindow` says exactly when,
  `CloseRuns.DoneWindowReached` gives a run into each half.
- The documented identity `tx_started = tx_committed + tx_rolled_back` (README.md:686) holds at
  quiescence if and only if every transaction was opened through `new_transaction` and no commit or
  cancel future was dropped while awaiting the server's answer: a transaction that a caller gets
  from the public `begin` is counted as started and by no result counter.
  `Lifecycle.MetricIdentity` proves both directions; `tx_active` returns to zero either way.
  `Lifecycle.BareTransactionBreaksIdentity` and `Lifecycle.LostCommitBreaksIdentity` are runs on
  which it fails.
- After a `setm` that failed part-way a caller is said to be able to commit the batches before
  (src/transaction.rs:584-590). That is so if and only if the failing batch never left the driver.
  If the server refused it the block is aborted, and if the connection went the block is gone: a
  commit then publishes nothing, without an error if the block was merely aborted.
  `SetMany.FailedSetManyCommits` gives the durable table for every pattern of faults.
- The repair of the savepoint stack after an error presupposes that the future is polled to its
  end. If it is dropped before, the stacks agree if and only if the last statement of the call had
  been carried out: `AbandonedCalls.StacksAfter`. `AbandonedCalls.StrandedName` is a case where
  they do not, and what it costs.
- Parser and stripper do not always agree on which settings are theirs. The parser stops at a
  second `?` in the query, the stripper does not, so a setting behind it is removed from the URL
  and read by nobody. `UrlParams.ParserReadsWhatIsStripped` is the exact condition,
  `UrlParams.SettingLost` a family of such URLs.
- Stripping a URL is idempotent and leaves nothing for the parser to read, except when every
  parameter was stripped and the fragment contains a `?`: then the fragment's own query moves into
  first place. `UrlParams.StripIdempotent` and `UrlParams.StrippedInertExactly` are the exact
  conditions, `UrlParams.FragmentQueryLeaks` is a family of such URLs.
- Begin errors are never transient in pool mode. In direct mode they are in exactly one case, two
  attempts worth a retry and then a session setup that times out:
  `BeginRetry.DirectErrorTransientWhen`, with a run in `BeginRetry.DirectErrorStaysTransient`.
- Printed durations lose what is below a millisecond, and a fractional duration of more than 2^64
  milliseconds is printed but cannot be read back: `Durations.FormatParseRoundTrip`, with both cases
  in `Durations.RoundTripFails`.

## Model

| member | source | states |
|---|---|---|
| SavepointRuns.RollbackRestores | src/transaction.rs:1013-1072 | whatever legal calls ran since a successful `new_save_point`, failing or nested in any way without leaving its level, a rollback that succeeds leaves session (table, savepoints, status) and name stack exactly as before that `new_save_point` |
| SavepointRuns.RunKeeps | src/transaction.rs:345-362 | over every run under every fault: stacks agree, the durable table is untouched, and all savepoints below the levels the run used are still there with their snapshots |
| SavepointRuns.StacksAgree | src/transaction.rs:1013-1072 | from BEGIN on, on every run, the client's name stack is the server's savepoint stack whenever the connection is alive |
| SavepointRuns.RollbackAlwaysAvailable | src/transaction.rs:1045-1072 | on a live connection with a healthy server the rollback is never refused, even in an aborted block, and revives it |
| SavepointRuns.ReleaseKeepsTable | src/transaction.rs:1028-1043 | a release drops exactly the innermost level on both sides and keeps the table |
| SavepointRuns.InterruptedRollbackRetries | src/transaction.rs:1061-1070 | when ROLLBACK TO worked and RELEASE did not, the level stays on both stacks and a second call reaches the very state an undisturbed one reaches |
| SavepointRuns.NamesCollideOnlyByWrapping | src/transaction.rs:350-362 | two attempts get the same name if and only if they are a multiple of 2^32 apart |
| SavepointRuns.StackComesFromAttempts | src/transaction.rs:350-362 | on every run, the names still on the stack are those of an increasing list of attempts, and the counter is the number of attempts modulo 2^32 |
| SavepointRuns.OpenNamesDistinct | src/transaction.rs:350-362 | in a run with at most 2^32 attempts, failed ones included, open savepoints never share a name |
| SavepointRuns.ReadOnlyNeverWrites | src/transaction.rs:311-316 | a transaction opened without write never changes the working table, in any mix of reads, attempted writes and savepoint calls |
| SavepointRuns.ConditionalMissLeavesAll | src/transaction.rs:705-786 | `put`, `putc`, `delc` fail exactly when their condition does not hold, with which error, and then leave client and session untouched |
| SavepointRuns.CommitIsAtomic | src/transaction.rs:390-460 | after any run, a commit leaves the old durable table or the whole working table; which of them for every answer and block status; a cancel always the old one; after either the transaction is closed |
| SavepointRuns.ClosedAnswers | src/transaction.rs:483-1072 | what each call on a closed transaction answers, the cases included that do not say `TxClosed`; nothing but the name counter changes |
| SavepointRuns.ErrorIsReturned | src/transaction.rs:328-336 | an error of a call's first statement is what the call returns, classified with the key for calls on one key and without for all others |
| SetMany.SetManyIsSets | src/transaction.rs:568-643 | for any length, duplicates and dedup order, `setm` succeeds and leaves exactly the state of setting the pairs one by one |
| SetMany.PrefixTakesEffect | src/transaction.rs:612-636 | if the first k batches go through, exactly those are applied, and what the outcome and block are for each fate of the next |
| SetMany.FailedBatchLeavesPrefix | src/transaction.rs:616-632 | if batch k is refused, exactly the first 32000 k deduplicated pairs took effect, the block is aborted, and the error keeps its class |
| SetMany.FailedSetManyCommits | src/transaction.rs:584-590 | what a commit after a failed `setm` leaves: the durable table with the batches before the failing one, if and only if that one never left the driver and the commit is carried out; else the durable table as it was |
| SetMany.FailedSetManyFailsSomewhere | src/transaction.rs:612-636 | every failed `setm` on a healthy block fails at one of its batches; on any other block a commit publishes nothing |
| SetMany.BatchesPartition | src/transaction.rs:612-635 | the batches are the list cut in order into exactly ceil(n/32000) pieces of 1 to 32000 pairs |
| SetMany.BatchesDistinct | src/transaction.rs:675-703 | no batch names a key twice, which the server would reject |
| SetMany.LastValueWins | src/transaction.rs:576-580 | the last value given for a key is the one that a list of pairs stands for |
| SetMany.DedupPairs | src/transaction.rs:675-703 | both dedup paths, in-place scan and hash map, yield each key once with its last value |
| SetMany.Drain | src/transaction.rs:702-702 | iterating a hash map lists every entry exactly once, in an order left open |
| UndoRefinement.CallRefinesUndo | src/transaction.rs:554-806 | every call on an open transaction, reads and refused writes included, under any faults, is a move of a plain map with an anonymous undo stack: its own move if it succeeds, and if not, nothing, a spoiled machine, or the half-way point of a `setm` or a rollback; with a healthy server it succeeds exactly when it is admitted and the plain map accepts it |
| UndoRefinement.RunRefinesUndo | src/transaction.rs:1013-1072 | every run of a transaction is a run of that undo machine |
| UndoRefinement.FailedSetManyUndone | src/transaction.rs:584-590 | whatever a `setm` did before failing, short of losing the connection, rolling back to the savepoint before it restores session and stack |
| UndoRefinement.SetAllOverrides | src/transaction.rs:591-643 | setting pairs in order is overriding the table by the table the list stands for |
| Ranges.SortedMeaning | src/transaction.rs:115-137 | an ordered range answer is strictly ordered and lists exactly the rows in range |
| Ranges.OrderedListingUnique | src/transaction.rs:115-137 | there is only one such listing, so any correct ORDER BY gives this answer |
| Ranges.DescendingIsReversed | src/transaction.rs:886-947 | descending order is ascending order reversed |
| Ranges.EmptyRange | src/transaction.rs:832-835 | the start >= end shortcuts agree with the query they skip |
| Ranges.RangeReadsAgree | src/transaction.rs:869-983 | `count` is the length of `getr`, and the unlimited descending answer is it reversed |
| Ranges.RangeDeleteAgrees | src/transaction.rs:789-806 | `delr` removes exactly the keys of `getr`, reports their number, and touches nothing else |
| Ranges.CutIsSlice | src/transaction.rs:115-131 | a page is the slice of the whole answer that LIMIT and OFFSET say, element by element |
| Ranges.NextPageStart | src/transaction.rs:47-56 | after a page, the rows still to come are exactly the range that starts at the last key followed by a zero byte, and that range is smaller |
| KeyOrder.NothingBetween | src/transaction.rs:53-54 | no byte string lies between a key and that key followed by a zero byte |
| KeyOrder.LtMeaning | src/transaction.rs:115-137 | one key is below another exactly if it is a proper prefix of it or has the smaller byte where they first differ |
| KeyOrder.InRangeMeaning | src/transaction.rs:107-113 | a range holds its start, everything above it, and nothing from its end on |
| PgTransactions.ScanByPages | src/transaction.rs:47-56 | for any positive page size and any faults, what was fetched is a prefix of the range without gap or repeat, all of it if no page failed; only a fault can make one fail on a healthy block; fetching ends |
| PgTransactions.FetchPage | src/transaction.rs:903-922 | a page that is read changes nothing and, with the range after it, makes up the range asked for |
| PgTransactions.MatchRows | src/transaction.rs:507-549 | linear search and hash map give every requested key its row's value, whatever the row order |
| PgTransactions.CountRecords | src/pg_tx.rs:370-376 | `records` is the number of requested positions whose key exists, `value_bytes` the bytes of all values returned |
| PgTransactions.PgTransaction.constructor | src/transaction.rs:236-283 | a new object is open, without savepoints, its counter at zero |
| PgTransactions.PgTransaction.Set | src/transaction.rs:554-566 | result and new state are those of the model's step |
| PgTransactions.PgTransaction.Put | src/transaction.rs:707-721 | as above; no row affected means the key exists |
| PgTransactions.PgTransaction.PutIf | src/transaction.rs:726-748 | as above, for both kinds of condition |
| PgTransactions.PgTransaction.Del | src/transaction.rs:751-762 | as above |
| PgTransactions.PgTransaction.DelIf | src/transaction.rs:767-786 | as above, for both kinds of condition |
| PgTransactions.PgTransaction.DelRange | src/transaction.rs:789-806 | as above, the empty range answered before the connection is looked at |
| PgTransactions.PgTransaction.SetMany | src/transaction.rs:591-643 | the batching loop sends what the model's batches say and stops at the first failure |
| PgTransactions.PgTransaction.Exists | src/transaction.rs:483-492 | whether the key is in the working table |
| PgTransactions.PgTransaction.Get | src/transaction.rs:495-504 | the key's value in the working table |
| PgTransactions.PgTransaction.GetMany | src/transaction.rs:507-549 | pointwise `get` for any key list, duplicates and absent keys included, on both lookup strategies |
| PgTransactions.PgTransaction.RangeQuery | src/transaction.rs:823-852 | the requested slice of the sorted range, with the empty-range shortcut, and which error otherwise |
| PgTransactions.PgTransaction.Keys | src/transaction.rs:869-884 | the keys of that slice, ascending; errors likewise |
| PgTransactions.PgTransaction.KeysReverse | src/transaction.rs:886-901 | the keys of the slice of the reversed range; errors likewise |
| PgTransactions.PgTransaction.Scan | src/transaction.rs:903-922 | the slice of the range, ascending; errors likewise |
| PgTransactions.PgTransaction.ScanReverse | src/transaction.rs:925-944 | the slice of the reversed range; errors likewise |
| PgTransactions.PgTransaction.GetRange | src/transaction.rs:949-963 | the whole range, or the error of the query; an empty range succeeds even on a closed transaction |
| PgTransactions.PgTransaction.Count | src/transaction.rs:966-983 | the length of what `getr` returns, or the error of the query; an empty range likewise |
| PgTransactions.PgTransaction.NewSavePoint | src/transaction.rs:1013-1025 | push, send, pop again on failure: the model's step |
| PgTransactions.PgTransaction.ReleaseLastSavePoint | src/transaction.rs:1028-1043 | pop, send, push back on failure: the model's step |
| PgTransactions.PgTransaction.RollbackToSavePoint | src/transaction.rs:1051-1072 | pop, send two statements, push back if either fails: the model's step |
| PgTransactions.PgTransaction.Finish | src/transaction.rs:390-460 | commit and cancel close the object whatever the answer and count `tx_active` down once, exactly when there was a connection |
| PgTransactions.PgTransaction.Drop | src/transaction.rs:1097-1123 | only an object that still holds its connection rolls back and counts down |
| PgTransactions.Perform | src/transaction.rs:483-1072 | any call on the object, reads by their own methods, gives the result and the state of the model's step |
| PgTransactions.Drive | src/transaction.rs:483-1072 | any list of calls on the object is a run of the model, so what is proved of runs holds of the object |
| CallSteps.CompleteIsStep | src/transaction.rs:328-336 | the steps a call's future takes add up to the model's step, for every call and every fault of its statements |
| CallSteps.ProceedIsStep | src/transaction.rs:483-1072 | whenever the steps of a call have come to an end, state and outcome are those of the model's step under the faults it met |
| CallSteps.ProceedKeeps | src/transaction.rs:306-316 | at every step of an admitted call: nothing durable changes, no terminal command is sent, and no error of a passed check comes back |
| AbandonedCalls.StacksAfter | src/transaction.rs:1013-1072 | a call whose future is dropped at any step on a live connection leaves the two savepoint stacks in agreement if and only if it is no savepoint call or its last statement had been carried out |
| AbandonedCalls.StrandedName | src/transaction.rs:1013-1025 | a `new_save_point` dropped before the server acted leaves a name the server does not know; the next rollback is refused for it and the block aborted |
| PgErrors.TransientExactlyWhenCurable | src/error.rs:85-152 | the retry test on the classified error, message prefix included, is true exactly for connection-class, deadlock, serialization, I/O and pool-timeout driver errors |
| PgErrors.SqlStates | src/error.rs:97-130 | which SQLSTATE codes become which error, each class exactly from its own codes |
| PgErrors.DriverErrors | src/error.rs:130-152 | pool timeout, closed pool, I/O and everything else come exactly from their own driver errors |
| CloseProtocol.StepInv | src/pg_tx.rs:68-222 | every atomic step of every caller keeps lock, winner, kind, inner and wire invariants |
| CloseRuns.CloseIsExclusive | src/pg_tx.rs:144-222 | under any interleaving: statements then at most one terminal command; once any closer has returned exactly one has won; the winner gets the server's answer to its own command, every other closer `TransactionFinished`; `done` with the lock free means the inner transaction is gone, and it is never gone from a live value without `done` |
| CloseRuns.CloseGoesThrough | src/pg_tx.rs:144-222 | from any reached state in use, unlocked and not closed, a commit or cancel can run to its end: its own command, the server's answer, and counted as committed exactly for a COMMIT answered Ok |
| CloseRuns.NothingAfterDone | src/pg_tx.rs:196-202 | once `done` is set, the rest of any run adds to the wire at most the winner's own terminal command |
| CloseRuns.LateCallsFinish | src/pg_tx.rs:68-94 | calls that have not passed the fast check when `done` is set can only end in `TransactionFinished` |
| CloseRuns.DoneWindow | src/pg_tx.rs:189-201 | with `done` set, the connection is still held exactly while the winner stands anywhere between its swap and counting out the answer, and still in the mutex exactly until its take |
| CloseRuns.DoneWindowReached | src/pg_tx.rs:181-201 | a lone commit reaches `done` with the connection in the mutex, and `done` with the lock free and the connection awaiting the answer |
| CloseRuns.CountedExactlyOnce | src/transaction.rs:285-298 | each counter moves exactly when its fact becomes true, facts stay true, so nothing is counted twice, by guard or by drop |
| CloseRuns.DroppedMeansSettled | src/pg_tx.rs:113-123 | a dropped transaction has given back its share of `tx_active` and is counted in exactly one result counter, unless its terminal future was dropped mid-await |
| CloseRuns.ReleasedExactlyWithoutConnection | src/transaction.rs:1087-1123 | the share of `tx_active` is given back exactly when the connection is no longer held |
| PgTxs.PgTx.constructor | src/pg_tx.rs:43-58 | a new object is the protocol's initial state |
| PgTxs.PgTx.TestDone | src/pg_tx.rs:81-88 | the unlocked look at `done` and `write`, in that order |
| PgTxs.PgTx.Lock | src/pg_tx.rs:72-72 | taking the mutex |
| PgTxs.PgTx.TestInner | src/pg_tx.rs:72-77 | an operation is admitted exactly if the inner transaction is there |
| PgTxs.PgTx.SwapDone | src/pg_tx.rs:187-194 | the swap under the lock; the caller wins exactly if `done` was false |
| PgTxs.PgTx.TakeInner | src/pg_tx.rs:203-203 | the winner moves the transaction out |
| PgTxs.PgTx.DropGuard | src/pg_tx.rs:204-204 | the lock is given up before the terminal I/O |
| PgTxs.PgTx.CountOut | src/transaction.rs:1087-1095 | the guard's drop counts `tx_active` down by what the protocol says |
| PgTxs.PgTx.CountResultOf | src/pg_tx.rs:206-219 | only a commit that was answered Ok counts as committed, everything else as rolled back |
| PgTxs.PgTx.Drop | src/pg_tx.rs:113-123 | dropping the value counts an unfinished transaction as rolled back and releases a held connection |
| PgTxs.PgTx.Drive | src/pg_tx.rs:68-222 | any schedule of atomic sections on the object is a run of the protocol, and the shared counters move by its totals |
| CloseRuns.TotalsAre | src/pg_tx.rs:113-219 | over its life a transaction adds at most one to the two result counters together, and once dropped has been released exactly once |
| PgTxRuns.Serializable | src/pg_tx.rs:68-474 | under any interleaving of single steps, faults and dropped futures: the transaction is always where the operations, run one after the other in the order admitted and each as far as it got, put it; the wire carries the statements of the one, then of the next; at most one terminal command follows, on the state they left |
| PgTxRuns.UnfinishedAre | src/pg_tx.rs:68-94 | only the operation under the guard, last in that order, and those dropped there are unfinished; without any the order is a run of whole calls |
| PgTxRuns.AnswersAreTheRuns | src/pg_tx.rs:224-474 | every caller that got an answer got the one its own call has at its place in that run |
| PgTxRuns.StatementsStandTogether | src/pg_tx.rs:68-94 | on the wire no statement of one caller stands between two of another |
| PgTxRuns.RealTimeOrder | src/pg_tx.rs:68-94 | an operation that had begun before another was called comes before it |
| PgTxRuns.ProtocolFollows | src/pg_tx.rs:68-222 | the protocol part of any such run is a run of the close protocol |
| PgTxRuns.StacksAgreeAcross | src/transaction.rs:1013-1072 | if every operation was settled where it stopped, dropped futures included, the savepoint stacks agree |
| PgTxRuns.CommittedIsTheRun | src/pg_tx.rs:205-219 | a commit that returned Ok published exactly the table that run left, or nothing if the block was aborted; after a cancel, a drop or no end the durable table is the initial one |
| PgTxRuns.CountedCommit | src/pg_tx.rs:205-212 | a transaction counted as committed published nothing if and only if its block was aborted or its run left the table unchanged |
| PgTxRuns.InnerNeverRefuses | src/pg_tx.rs:66-94 | a call that gets through to the inner transaction finds it open, and writable if it writes, so the inner `TxClosed` and `TxReadOnly` never come back |
| PgTxCalls.ReadOnlyRefusals | src/pg_tx.rs:81-94 | `TransactionReadonly` answers one of the seven writes on a transaction opened without write, and nothing else |
| PgTxCalls.Admission | src/pg_tx.rs:68-94 | on a value in use, unlocked and not closed a read or savepoint call gets in whatever the write flag, a write exactly if the flag is set |
| PgTxCalls.CallGoesThrough | src/pg_tx.rs:224-474 | any admitted call there can run to its end, gets the answer of the model's step and leaves what that step leaves, the lock free again |
| PgTxCalls.EndGoesThrough | src/pg_tx.rs:144-222 | a commit or cancel there ends the transaction as it stands with its own command and returns the answer |
| PgTxCalls.DroppedInside | src/pg_tx.rs:224-474 | the future of an admitted operation can be dropped at its first wait, which frees the lock and leaves the transaction half-way |
| Lifecycle.Conservation | src/store.rs:817-818 | at every moment of every run of the store: started = committed + rolled back + lost + handed out bare by `begin` + not yet settled, and `tx_active` is the number of transactions holding a connection, between 0 and started |
| Lifecycle.NeverUnderflows | src/transaction.rs:285-298 | no step of any run takes more than one off `tx_active`, or takes it below zero |
| Lifecycle.MetricIdentity | src/store.rs:1371-1379 | at quiescence started = committed + rolled back if and only if every transaction came through `new_transaction` and no terminal future was dropped mid-await; `tx_active` is zero |
| Lifecycle.BareTransactionBreaksIdentity | src/store.rs:774-786 | a run of one transaction from `begin` itself that ends at rest with the identity broken |
| Lifecycle.LostCommitBreaksIdentity | src/pg_tx.rs:205-219 | a run of one commit dropped while awaiting the answer that ends at rest with the identity broken |
| Lifecycle.BarrierHolds | src/store.rs:1093-1097 | once shutdown is set, on every later run: attempts in flight only drain, whatever starts comes out of them, each uses up its place, so at most as many start as were in flight |
| Lifecycle.LateCallsNeverStart | src/store.rs:774-811 | once shutdown is set, a call not in flight, still to be made or between two attempts, never starts a transaction in any later run, nothing it still does is counted, and at its next look at the barrier it is refused |
| Lifecycle.OpenedAsBegun | src/pg_builder.rs:37-50 | on every run, what a call hands out is what the first `begin` of that name asked for: a `PgTx` with that write flag, or a bare transaction |
| BeginRetry.PgStore.BeginPooled | src/store.rs:788-891 | the pool loop returns and sleeps what the model says; both counters go up by one exactly on success |
| BeginRetry.PgStore.BeginDirect | src/store.rs:899-1079 | the direct loop, with its cascade of connect, session setup and BEGIN, likewise |
| BeginRetry.PoolCallBounded | src/store.rs:791-846 | against any environment: one to three attempts, delays never shrink within a call, at most 15000 ms of sleep |
| BeginRetry.PoolSleptExactly | src/store.rs:829-846 | delay by delay: 5000 and 10000 ms from the first attempt that saw connections but none idle and none in use by a transaction, 200 and 400 ms before |
| BeginRetry.DirectCallBounded | src/store.rs:900-961 | one to three attempts, separated by exactly 500 and then 1000 ms, at most 1500 in all |
| BeginRetry.NoOverflow | src/store.rs:830-838 | the backoff products fit 64 bits and the powers 32 |
| BeginRetry.PoolSucceedsWhen | src/store.rs:799-884 | success with the n-th attempt if and only if that attempt meets an open barrier and gets a connection and every earlier one met an open barrier and failed transiently |
| BeginRetry.DirectSucceedsWhen | src/store.rs:904-1079 | the same for connect, session setup and BEGIN in direct mode |
| BeginRetry.PoolErrorsAreFinal | src/store.rs:876-884 | a failed pool call never reports a transient error |
| BeginRetry.PoolReports | src/store.rs:876-884 | a failed pool call reports the barrier's error, a first attempt's own error, or a later one wrapped with the number of attempts |
| BeginRetry.DirectReports | src/store.rs:954-1074 | a direct call fails exactly if a step of its last attempt failed, and reports that step's error, wrapped from the second attempt on unless the session setup timed out |
| BeginRetry.DirectErrorTransientWhen | src/store.rs:954-974 | a failed direct call reports a transient error if and only if the first two attempts were worth a retry and the third met an open barrier, connected and timed out in session setup |
| BeginRetry.DirectErrorStaysTransient | src/store.rs:954-974 | three session setups that time out give the caller the transient error itself |
| BeginRetry.PoolDecides | src/store.rs:799-889 | success and number of attempts are those of the loop both modes share |
| BeginRetry.DirectDecides | src/store.rs:904-1079 | the same for direct mode |
| BeginRuns.PoolCallFollows | src/store.rs:774-889 | in any interleaved run of the whole store, a call has succeeded, was refused or goes on exactly as the pool loop does on the answers the call got, and after as many attempts |
| BeginRuns.DirectCallFollows | src/store.rs:899-1079 | the same for direct mode |
| Heartbeat.Task.Drive | src/store.rs:1531-1658 | the task's variables follow the state machine over every sequence of events |
| Heartbeat.HeldMeansHealthy | src/store.rs:1539-1658 | on every run a connection is kept only with zero consecutive failures, and never across I/O |
| Heartbeat.CancelledIoBounded | src/store.rs:1545-1561 | after cancellation only a round already past its check issues I/O: at most one connect and one `SELECT 1` |
| Heartbeat.CancelledStops | src/store.rs:1545-1561 | a cancelled task stops within five of its own steps |
| Heartbeat.BackoffExact | src/store.rs:1597-1603 | for every u32 count the saturating formula is exactly min(5 n^2, 300), between 5 and 300, and 300 exactly from 8 on |
| Heartbeat.BackoffMonotone | src/store.rs:1597-1603 | more failures never shorten the wait |
| Heartbeat.FailedConnectWaits | src/store.rs:1587-1610 | on every run a failed connect is followed by a wait of exactly min(5 n^2, 300) seconds, n being the failures since the last success counted from the answers (modulo 2^32) |
| Heartbeat.NothingIssuedWhileBackingOff | src/store.rs:1604-1610 | until that wait is over no connect and no probe is issued; then the task is back at its loop head |
| Heartbeat.RoundAfterProbe | src/store.rs:1616-1655 | after a `SELECT 1` that succeeded the next round probes and does not connect; after one that failed it connects |
| Heartbeat.ConnectIsProbed | src/store.rs:1568-1580 | a connect that succeeds is probed in the same round |
| Heartbeat.CancellationIsObserved | src/store.rs:1545-1561 | at each of its waits, and at its own check, a cancelled task can stop at once |
| UrlParams.StripCustomParams | src/store.rs:145-180 | the loop computes the URL with exactly the foreign parameters left |
| UrlParams.MergeUrlParams | src/config.rs:443-686 | the loop applies the known assignments of the query in order, percent-decoded, and stops at the first error, for any meaning of the parameters |
| UrlParams.StripKeepsForeign | src/store.rs:145-180 | when a foreign parameter is left: base and fragment survive and the new query splits into exactly the foreign pairs, in order |
| UrlParams.StripFixpoints | src/store.rs:145-180 | a URL is left alone if and only if it has no query, or a non-empty one without custom parameters |
| UrlParams.StripIdempotent | src/store.rs:145-180 | stripping twice is stripping once if and only if a foreign parameter was left or the fragment has nothing to strip |
| UrlParams.StrippedUrlIsInert | src/config.rs:443-499 | merging a stripped URL leaves any configuration unchanged, whenever a foreign parameter was left or the fragment has no `?` |
| UrlParams.StrippedInertExactly | src/config.rs:443-499 | a stripped URL assigns nothing if and only if a foreign parameter was left or the query in the fragment holds no assignment |
| UrlParams.FragmentQueryLeaks | src/store.rs:145-180 | URLs for which stripping removes one value of a setting and leaves another to be read |
| UrlParams.ParserReadsWhatIsStripped | src/config.rs:443-499 | the parser reads exactly the settings the stripper removes if and only if no setting stands in the first pair with a `?` or behind it |
| UrlParams.SettingLost | src/store.rs:145-180 | URLs for which a setting is stripped and read by nobody |
| UrlParams.StoreUrls | src/store.rs:120-139 | both facts for the store's own parameter list and any URL whose fragment has no `?` |
| UrlParams.OwnSettings | src/config.rs:452-466 | each of the store's thirteen settings is taken out of the URL and read from it |
| UrlParams.InOrder | src/config.rs:499-686 | assignments take effect in the order of the URL and the first that fails ends the merge |
| Text.SplitJoin | src/store.rs:153-166 | splitting at a delimiter undoes joining |
| Text.JoinSplit | src/store.rs:153-166 | joining undoes splitting, for every text |
| PercentDecode.PercentDecode | src/config.rs:13-62 | the byte loop computes the decoding, ends, and never lengthens its input |
| PercentDecode.DecodeUndoesEncoders | src/config.rs:13-73 | decoding undoes every encoder that escapes `%` and `+`, in any mix of spellings, and what follows a well-formed prefix is decoded on its own |
| PercentDecode.DecodeEncoded | src/config.rs:7-12 | decoding a whole encoded text gives the text back |
| PercentDecode.HexDigitMeaning | src/config.rs:66-73 | the hex digits are those of the two alphabets, worth their place |
| PercentDecode.MalformedCopied | src/config.rs:29-57 | a `%` that begins no escape is copied with the two bytes behind it, or what there is of them |
| Partitions.CreateTableSql | src/tune.rs:474-516 | the loop emits the text of the DDL: parent statement, then one line per child |
| Partitions.DdlStatements | src/tune.rs:499-514 | read line by line the text is one parent statement and exactly N child statements, child i with remainder i of N |
| Partitions.ChildLineInjective | src/tune.rs:506-511 | a child's statement determines its name, modulus and remainder |
| Partitions.ChildReadsBack | src/tune.rs:506-511 | a child's statement names the child, then its parent, and its parentheses read back as its modulus and remainder |
| Partitions.EmittedRouting | src/tune.rs:487-489 | the emitted statements, read back, send each hash value to exactly one child |
| Partitions.HeadSays | src/tune.rs:478-482 | the parent is created UNLOGGED exactly when the setting says so |
| Partitions.DdlChildren | src/tune.rs:479-514 | exactly N of the statements define a child, none without partitioning |
| Partitions.ExactlyOneChild | src/tune.rs:487-489 | each hash value lands in exactly one child |
| Partitions.ChildNamesDistinct | src/tune.rs:506-511 | children have distinct names |
| Partitions.LastNameDecides | src/tune.rs:136-150 | the check of the last name accepts if and only if every child's name fits 63 bytes |
| Partitions.TuneTableSql | src/tune.rs:629-713 | the loop emits the parent's tuning and then one block per child, or the plain table's tuning |
| Partitions.TunesExactlyChildren | src/tune.rs:683-711 | there is one block for each child, the i-th block tunes child i, and nothing else follows |
| Partitions.StorageSets | src/tune.rs:684-693 | fill factor, TOAST target and column storage get their own values |
| Partitions.VacuumScaleSet | src/tune.rs:694-711 | the vacuum scale factor gets its own value |
| Partitions.AnalyzeScaleSet | src/tune.rs:694-711 | the analyze scale factor gets its own value |
| Partitions.ThresholdSet | src/tune.rs:694-711 | the vacuum threshold gets its own value |
| Partitions.CostsSet | src/tune.rs:694-711 | cost limit and cost delay get their own values |
| Partitions.CountMatchesDdl | src/store.rs:191-224 | a partition count is accepted if and only if it is the number of child statements in the DDL text for that setting (a negative count passing for none) |
| Decimal.ParsePrint | src/tune.rs:985-986 | parsing a printed number gives it back if and only if it fits the type |
| Decimal.PrintLengthMonotone | src/tune.rs:140-148 | a larger number never has a shorter numeral |
| Durations.FormatParseRoundTrip | src/tune.rs:778-787 | a printed duration is read back unchanged if and only if it is whole seconds, or whole milliseconds that fit 64 bits; if it is read back at all, only the part below a millisecond is lost |
| Durations.RoundTripFails | src/tune.rs:778-787 | a nanosecond is lost; the longest duration with a fraction cannot be read back |
| Durations.SuffixMeaning | src/tune.rs:983-1002 | what a number means bare and with each suffix, in seconds and nanoseconds, and when it does not fit |
| Durations.SpaceIgnored | src/tune.rs:984-984 | white space around a duration makes no difference |
| Durations.NoNumberRefused | src/tune.rs:977-982 | a unit behind something that is no number is refused |
| Durations.ParsedDurationsRoundTrip | src/tune.rs:983-1002 | every duration the parser can produce survives printing and parsing |

## Left out

- PostgreSQL between sessions: isolation levels, MVCC, lock waits and deadlock detection; a conflict is one of the faults a statement may meet.
- The driver, TLS, TCP, pool internals and wall-clock timeouts: each is an answer of the environment.
- A finished block and a lost connection are one status, because nothing sent afterwards has an effect in either.
- Memory orderings: every access to an atomic is one step of an interleaving.
- Panics inside terminal I/O, and a process that dies.
- Key and value sizes, and the 64-bit range of `value_bytes` and row counts.
- The default cursors that drive pagination live in surrealdb-core, which is not part of this model; ScanByPages follows the description in src/transaction.rs:47-56.
- `count_approx`, `vacuum`, `health_check`, pool resizing, the pool-utilization warning, logging, `Debug` and `Display`.
- The ROLLBACK that a pooled connection queues when it is dropped: `wire` lists only what callers send (src/transaction.rs:1103-1109).
- A statement in flight when its future is dropped: the server carries it out at once or never. On one connection nothing can be sent in between that would tell "at once" from "later".
- Versioned reads and the conversion to the core error type: `version` is taken to be `None`.
- The waiting part of `shutdown` (closing the pool, joining the heartbeat, the grace period); only the barrier is modelled.
- Direct-mode keepalive SQL and the best-effort ROLLBACK after a failed BEGIN, which change no result.
- The value of the connect timeout, which is carried only as the text it displays as, and how long the heartbeat sleeps other than its backoff.
- UrlParams.MergeUrlParams: what each parameter's value means and its range checks are a parameter of the method, and warnings are left out, the comparison after the loop included.
- PercentDecode.PercentDecode: stays at bytes; the lossy conversion of the result to UTF-8 is left out.
- Partitions.TuneTableSql: the settings are taken as the text they print as, their range checks being single-branch assertions.
- Partitions.CountMatchesDdl: says which counts are accepted, not the wording of the refusals.
- PgTransactions.PgTransaction.SetMany: deduplicates before it looks at the connection and the write flag, which cannot be told apart because deduplication touches nothing outside the list.
- Environment parsing, identifier validation and the reserved-word list, the remaining settings of src/tune.rs, `redact_url`, src/main.rs, src/composer.rs and metric registration: single-branch code or plain delegation.
