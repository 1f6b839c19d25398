# Verified core of go-plgchain

A Dafny model of the parts of the go-plgchain node whose mechanism must agree with a simple specification over every
run, with proofs that it does, or exactly when it does. `dafny verify dfyconfig.toml` checks the whole project.

* **World state and executor.** `World` gives the meaning of the journaled overlay on values. `OverlayTxn` models the
  overlay as the program has it, with state objects and log slices shared between the current tree and the saved ones,
  and proves every run equal to the run on values, but for the log lists of reverts that no nested caller makes. `Reads`
  says what every read answers after every write. `Refunds` has the exact law of the refund counter under legacy and net
  gas metering and bounds it, `Commit` proves that flushing refines the overlay, and `Balances`, `Executor` and
  `Conservation` prove on values that trees of calls, creations and selfdestructs conserve balances; `Effects` says of
  each of them when it fails, from what its code starts and who has paid whom. `HeapExecutor` runs the same calls and
  creations on the overlay of `OverlayTxn`, with its snapshots and reverts, `Blocks` carries all of this through messages
  and whole blocks together with the gas accounting, `Payments` adds up what a message costs and to whom, and
  `StateChain` carries the results through chains of committed blocks.
* **Transaction pool.** `TxQueue` has the two binary heaps, `PoolAccount` the per-account queues under every interleaving
  of their steps, `SlotGauge` the slot counter as a transition system, `PoolGauge` the proof that the queues' methods are
  steps of that system, and `BlockFill` the loop that fills a block.
* **Fork choice.** `ForkChoice` models header writes, the caches and the walk of a reorganisation.
* **Merkle tree.** `Merkle` builds the linked tree level by level, collects proofs along the parents and verifies them by
  the bits of the index.
* **plgBFT accounting.** `Epochs` counts commit signatures across epochs, `Checkpoints` submits missed checkpoints.
* **Event tracker and quorums.** `Tracker` delivers confirmed logs once; `Quorum` has the validator sets and quorum sizes.

Main results are stated for all inputs and all runs. Hashes are idealised: a header hash names one header, a storage root
and a code hash stand for the contents they commit to, and the Merkle results hold for every hash function, with binding
up to an explicit collision. `Common` has the few definitions all modules share.

Where the code does not do what one would expect of it, the model follows the code and a result says exactly when the
expectation holds:

* A log list saved by a snapshot survives an append exactly when the append does not overwrite one of its slots with
  another log (`SurvivesEmitIff`). A revert always brings back objects and refund counter; it brings back the log list
  too when no revert in between went below the snapshot (`RevertRestores`, `StaysLive`), and may not otherwise
  (`DeadSnapshotLosesLog`). A snapshot's log list survives every continuation exactly when no tree, current or saved, has
  a shorter slice over the same array (`RunKeepsLogs`, and `RunLosesLogs` for the continuation that loses it).
* `GetCommittedState` reads the root of the block's start. At the start of a transaction no continuation lets `SubRefund`
  wrap if and only if metering is legacy or no slot is cleared already (`SafeIffNothingCleared`); the second transaction
  of a block can wrap (`SecondTransactionWraps`).
* A creation refused by the deployment allow list keeps the value it moved (`RefusedCreateIff`), and before Homestead one
  that cannot pay for its code keeps whatever its code did. `FailedCreateIff` says for exactly which creations every
  failure, whatever the code does, leaves all balances.
* A promotion keeps the account's invariant exactly when the enqueued nonces do not go on up to 2^64 - 1. When they do,
  all of them are promoted and the next expected nonce does not move (`Promote`, with `LastNonceIsStuck` as a run).
* `Pop` keeps the slot gauge balanced exactly when the transaction it is given has the slots of the one it takes, if it
  takes any (`PoolGauge.Pop`); a transaction that a reset prunes between `Peek` and `Pop` leaves the gauge off
  (`StalePop`).
* The price heap compares the low 64 bits of the prices. 2^64 is the exact bound on the prices up to which the head it
  selects always pays most (`PaysMostIff`, with `CheapestIsBest` for a market in which it pays least).
* After a reorganisation the number-to-hash index names the new chain exactly when the branches part just below the lower
  of the two heads (`ReindexedIff`, with `DeepReorg` as a run in which it does not). Heights above a lower new head keep
  their entries, which the claim does not cover.
* A Merkle proof stops at the first node that has the root's hash; the proof is accepted exactly when the leaf index is
  below 2 to the length of the proof (`ProveAndVerify`, with `EarlyStopRejected`). The verifier does not reset the hasher
  it is given before it writes the leaf, so `VerifyProofUsing` is stated for a hasher in any state.
* With epochs of one block, consecutive commit inputs overlap and all signatures but those of the first and the last
  counted block are counted twice (`RunSizeOne`); from size two on every signature is counted once (`RunChain`).
  command/genesis/params.go:133 refuses sizes below two, so only a genesis file written by hand has one.
* Logs stored after a removal are delivered exactly when they were not stored below the delivery cursor and the block is
  past the number of confirmations (`StoreAfterRemoval`). Until a delivered log is removed, a new block leaves all logs
  it confirms delivered exactly when its number is not the number of confirmations with a log of block 0 waiting next
  (`Tracker.Run`, with `PassedOver` as a run in which it is).
* Two legacy quorums overlap in more than the faulty validators exactly when the number of validators is 1 modulo 3
  (`LegacyQuorumsMeetIff`).

## Model

| member | source | states |
|---|---|---|
| `OverlayTxn.AccountRef.Copy` | state/state.go:94-115 | a fresh account with the same contents |
| `OverlayTxn.StateObject.Copy` | state/state.go:122-162 | a fresh object over a fresh account with the same contents |
| `OverlayTxn.StateObject.Run` | state/txn.go:138-180 | a callback of upsertAccount, run in place, has the effect its edit has on values |
| `OverlayTxn.HoldsPut` | state/txn.go:118-136 | inserting an object no tree holds yet leaves every saved tree with its value |
| `OverlayTxn.HoldsRevert` | state/txn.go:71-78 | after a revert the current tree has the saved value, with the logs its slice now shows; for a live snapshot exactly the saved logs |
| `OverlayTxn.SurvivesEmitIff` | state/txn.go:192-210 | a saved log list is unchanged by an append if and only if the append does not overwrite one of its slots with a different log |
| `OverlayTxn.HoldsAppend` | state/txn.go:192-210 | an append into spare capacity keeps all live log lists and says what every other one becomes |
| `OverlayTxn.HoldsGrow` | state/txn.go:192-210 | an append that moves to a larger array changes no saved log list |
| `OverlayTxn.Txn.constructor` | state/txn.go:47-58 | a new Txn stands for the empty overlay |
| `OverlayTxn.Txn.Snapshot` | state/txn.go:61-68 | saves the current tree under the next id and makes it live |
| `OverlayTxn.Txn.RevertToSnapshot` | state/txn.go:71-78 | restores the saved tree, its logs included when the snapshot is live; younger snapshots are no longer live |
| `OverlayTxn.Txn.GetStateObject` | state/txn.go:90-116 | a fresh copy of what the overlay or the base holds, nothing for a deleted or missing account |
| `OverlayTxn.Txn.EditedCopy` | state/txn.go:118-136 | the object to insert is never shared with a tree |
| `OverlayTxn.Txn.UpsertAccount` | state/txn.go:118-136 | the current tree changes as on values and no saved tree changes |
| `OverlayTxn.Txn.CreateAccount` | state/txn.go:521-536 | a new account keeps only the old balance; saved trees are kept |
| `OverlayTxn.Txn.EmitLog` | state/txn.go:192-210 | appends to the log list, accounting for every saved list that shares the array |
| `OverlayTxn.Txn.TakeLogs` | state/txn.go:456-465 | hands out the log list and removes it |
| `OverlayTxn.Txn.SubBalance` | state/txn.go:157-173 | a zero amount is accepted, a short balance refused without a change |
| `OverlayTxn.Txn.GetState` | state/txn.go:323-343 | the dirty slot if there is one, otherwise the trie; together with the word committed before the block |
| `OverlayTxn.Txn.SetStorage` | state/txn.go:231-301 | storage, refund counter and status as the value-level metering gives them, whose status, words and counter `Refunds.StatusIff`, `Reads.SetStorageReads`, `Refunds.CounterModulo` and `Refunds.LegacyIsExact` say outright |
| `OverlayTxn.Txn.Meter` | state/txn.go:249-300 | the refund updates in the order of the code, modulo 2^64; `Refunds.MeteredModulo` says what they add up to |
| `OverlayTxn.Txn.CleanDeleteObjects` | state/txn.go:538-572 | marks exactly the suicided and, on request, the empty accounts, and clears the refund |
| `OverlayTxn.Txn.Do` | state/txn.go:61-136 | each operation acts as its value-level step; a revert to any snapshot restores objects and refund, and the logs its slice shows by then, which for a live one are the saved logs; every other saved log list is accounted for |
| `OverlayTxn.Txn.Run` | state/txn.go:61-136 | over every run, whatever it reverts to, everything but the log lists is as on values, saved trees are never changed or removed, and the log lists are as on values when every revert names a live snapshot |
| `OverlayTxn.Txn.RevertRestores` | state/txn.go:61-78 | whatever runs between a snapshot and the revert to it, balances, nonces, slots, flags and refund are back, and the logs too unless the run reverted below the snapshot |
| `OverlayTxn.StaysLive` | state/txn.go:61-78 | a snapshot stays live through a run if and only if no revert of the run goes below it |
| `OverlayTxn.Txn.RunKeepsLogs` | state/txn.go:61-210 | when no tree, current or saved, has a shorter slice over the array of a snapshot, the log list of the snapshot survives every run |
| `OverlayTxn.Txn.RunLosesLogs` | state/txn.go:61-210 | from any tree that has one, the next log and the revert to the snapshot show another list |
| `OverlayTxn.IgnoresLogs` | state/txn.go:61-136 | overlays that differ in their log lists only still do so after the same run |
| `OverlayTxn.DeadSnapshotLosesLog` | state/txn.go:192-210 | a run after which the current tree is the one saved under id 1 with the log d last, and shows the log e in its place |
| `Reads.EditsOne` | state/txn.go:118-136 | a callback of upsertAccount changes no read of another account, and neither logs nor refund |
| `Reads.EditReads` | state/txn.go:118-380 | existence, balance, nonce, code, slots and flag of the account after each kind of callback |
| `Reads.SuicideReads` | state/txn.go:420-436 | an existing account is marked and has no balance, a missing one stays missing |
| `Reads.SealingRewardReads` | state/txn.go:138-147 | the reward is added, or is all that a suicided account has afterwards |
| `Reads.CreateReads` | state/txn.go:521-536 | the account has its old balance and nothing else; no other account changes |
| `Reads.SetStorageReads` | state/txn.go:231-320 | the slot has the word written, and no other slot, balance, nonce, code or log changes |
| `Refunds.ClearedMeans` | state/txn.go:478-485 | a slot is cleared when its committed word is nonzero and its current word zero |
| `Refunds.SetStateCleared` | state/txn.go:304-320 | a write changes the set of cleared slots at its own slot only |
| `Refunds.MeteredCovered` | state/txn.go:260-300 | every branch of the metering keeps the counter at 15000 per cleared slot, and what it takes back is there |
| `Refunds.SetStorageCovered` | state/txn.go:231-301 | one storage write keeps every cleared slot paid for and does not wrap |
| `Refunds.StepCovered` | state/txn.go:446-454 | so does every other operation of a transaction |
| `Refunds.CoveredRunIsSafe` | state/txn.go:231-301 | over every interleaving of writes, refunds, snapshots and reverts no SubRefund wraps |
| `Refunds.SafeIffNothingCleared` | state/txn.go:446-485 | at a transaction's start no continuation wraps if and only if metering is legacy or no slot is cleared already |
| `Refunds.LegacyOnlyGrants` | state/txn.go:246-258 | over every run under legacy metering the counter stays at or above the lowest value it had at the start or in a snapshot, whatever has been cleared |
| `Refunds.SecondTransactionWraps` | state/txn.go:446-485 | clearing a slot in one transaction and rewriting it in the next leaves the counter 15000 below 2^64 |
| `Refunds.StatusIff` | state/txn.go:231-301 | for each of the five statuses exactly when it is answered, from the committed, the current and the new word |
| `Refunds.MeteredModulo` | state/txn.go:246-300 | one write changes the counter, modulo 2^64, by 15000 for a slot cleared or no longer so and by 19800, 19200, 4800 or 4200 for one that comes back; under legacy metering by 15000 for a deletion |
| `Refunds.MeteredExactly` | state/txn.go:260-300 | so without a remainder as long as the counter holds what is taken back and does not overflow |
| `Refunds.CounterModulo` | state/txn.go:231-301 | over every run of writes to any slots from any state the counter changes, modulo 2^64, by 15000 for each slot more that is cleared and by the payments for slots that came back |
| `Refunds.CounterIsExact` | state/txn.go:231-301 | so without a remainder from every state that covers its cleared slots |
| `Refunds.SlotIsExact` | state/txn.go:231-301 | whatever words are written to one slot, the counter gains 15000 if it ends cleared and the payment for coming back as often as it does |
| `Refunds.LegacyIsExact` | state/txn.go:246-258 | over every run of writes under legacy metering the counter gains, modulo 2^64, 15000 for each deletion |
| `Commit.WalkStorage` | state/txn.go:597-612 | one storage entry for each dirty slot, deleted exactly when the word is zero |
| `Commit.Flush` | state/txn.go:574-622 | the flushed form of one state object |
| `Commit.Commit` | state/txn.go:574-622 | cleans the shared overlay and emits one object for each account it then has |
| `Commit.StorageRefines` | state/txn.go:597-612 | the flushed storage reads as the dirty slots over the old root |
| `Commit.CommitRefines` | state/txn.go:521-622 | after applying the objects to the base a fresh Txn reads every account and slot as the old one after cleaning |
| `Commit.CommitTotal` | state/txn.go:574-622 | the base after applying the objects has the sum of balances of the overlay less what suicided accounts still held |
| `Commit.CleanDeleteReads` | state/txn.go:538-572 | cleaning changes no read but that suicided, and on request empty, accounts disappear; it keeps the logs and clears the refund |
| `Balances.CreatedBalance` | state/txn.go:521-536 | recreating an account keeps all balances |
| `Balances.CleanTotal` | state/txn.go:538-572 | cleaning lowers the sum of balances by exactly what suicided accounts still hold |
| `Executor.RunReturns` | state/executor.go:565-598 | a run returns no more gas than it got and fails only with its own error |
| `Executor.TransferMoves` | state/executor.go:600-616 | fails exactly when the balance is short, otherwise moves the amount and touches no third balance |
| `Effects.TransferReads` | state/executor.go:600-616 | a transfer that succeeds changes no nonce, code, slot, log or refund |
| `Effects.CallErrs` | state/executor.go:618-642 | exactly when a call is too deep and exactly when the caller cannot pay, both with all gas and balances kept; otherwise it ends as its code does |
| `Effects.CallRunsFrom` | state/executor.go:618-655 | the code of a call starts where the caller has paid the callee the value and everything else is as it was; if it fails the tree is the one before |
| `Effects.CallPays` | state/executor.go:632-642 | called code that stops at once leaves the value with the callee for a plain call and all balances as they were for the other kinds |
| `Effects.FailedCallKeeps` | state/executor.go:618-655 | a failed call moves and burns nothing |
| `Effects.CreateErrs` | state/executor.go:674-731 | for each way a creation fails before its code runs exactly when it does, and the gas it leaves |
| `Effects.CreateRunsFrom` | state/executor.go:674-771 | the caller has spent a nonce and paid the value to an account that, with EIP158, is fresh with nonce one; the code starts there; and how the creation ends |
| `Effects.DeployedReads` | state/executor.go:733-771 | the five ends of a creation whose code has run: reverted, too long, unpaid before and after Homestead, or with the code stored and 200 gas a byte taken |
| `Effects.SelfdestructReads` | state/executor.go:830-837 | balance, nonce, code and flag of every account after a selfdestruct, and 24000 granted for the first one |
| `Effects.HostReads` | state/executor.go:773-837 | what each host operation does to balances, slots and logs and what it burns |
| `Conservation.SelfdestructTotal` | state/executor.go:830-837 | a selfdestruct keeps the sum of balances unless the account names itself |
| `Conservation.RunConserves` | state/executor.go:565-598 | over every tree of host operations the sum of balances changes only by what was burned |
| `Conservation.CallConserves` | state/executor.go:618-655 | so over every call, failed or not |
| `Conservation.CreateConserves` | state/executor.go:674-771 | so over every creation, failed or not |
| `Conservation.RunBurnsNothing` | state/executor.go:565-598 | a tree without selfdestructs burns nothing and flags no account |
| `Conservation.RefusedCreateIff` | state/executor.go:721-731 | a creation that gets as far as the allow list and is refused there leaves all balances if and only if it has nothing to move |
| `Conservation.FailedCreateIff` | state/executor.go:674-771 | every failure of a creation leaves all balances, whatever its code does, if and only if it fails its checks, or is authorized from Homestead on or without any balance in the world, or is refused with nothing to move |
| `HeapExecutor.Transfer` | state/executor.go:600-616 | on the shared overlay a transfer fails exactly when the balance is short and otherwise moves the amount |
| `HeapExecutor.Selfdestruct` | state/executor.go:830-837 | on the shared overlay a selfdestruct moves the balance and flags the account as on values |
| `HeapExecutor.Host` | state/executor.go:773-837 | each host operation, calls and creations among them, acts on the shared overlay as on values |
| `HeapExecutor.Run` | state/executor.go:565-598 | a tree of host operations on the shared overlay has the outcome it has on values, and snapshots of the callers stay live |
| `HeapExecutor.ApplyCall` | state/executor.go:618-655 | a call that snapshots and reverts the shared overlay has the outcome it has on values; a failed one leaves the overlay as it was, logs and refund included, but for an account touched before a failed transfer; it fails for want of balance if and only if it is a plain call of a caller with less than the value, and called code that stops at once leaves exactly the value moved from caller to callee |
| `HeapExecutor.ApplyCreate` | state/executor.go:674-771 | so a creation, with the branches that do not revert |
| `HeapExecutor.Deploy` | state/executor.go:742-771 | the code is stored, or the creation is reverted, or it fails as it stands |
| `Blocks.PayloadGasByCount` | state/executor.go:892-933 | the cost per byte adds up to counts times prices |
| `Blocks.TransactionGasCost` | state/executor.go:892-933 | the overflow checks are exact: a result exists if and only if the unbounded cost fits in 64 bits, and is that cost |
| `Blocks.IntrinsicGasIs` | state/executor.go:892-933 | 21000, or 53000 for a creation from Homestead on, 4 for each zero byte and 68 or 16 for each other one |
| `Blocks.RefusedIff` | state/executor.go:472-503 | for each way a message is refused exactly when it is, in terms of nonce, balance, pool and intrinsic gas |
| `Blocks.FeesSplit` | state/executor.go:408-422 | the upfront cost is the sender's refund plus the coinbase's fee |
| `Blocks.FeeIsProduct` | state/executor.go:408-422 | a fee is gas times price |
| `Blocks.SettledPaysOut` | state/executor.go:527-533 | every balance after the settlement: the sender has the gas left and the coinbase the gas used, each at the gas price, more than before, and nobody else has |
| `Blocks.WritesPaysOut` | state/executor.go:304-358 | so for every accepted message between the end of its run and its settled state, with the gas used of its receipt |
| `Blocks.SignedIs` | state/executor.go:304-315 | only a legacy transaction without a sender needs its signature, and without one it is refused |
| `Payments.PaidUpfront` | state/executor.go:408-422 | the upfront cost is taken from the sender alone |
| `Payments.FinishedReads` | state/executor.go:322-357 | the state after a message has no suicided or empty account, no logs and no refund, and all else as before |
| `Payments.FailedCallCosts` | state/executor.go:472-539 | a message whose call fails, whatever its code does, moves exactly the fee for the gas used from sender to coinbase |
| `Payments.PlainTransfer` | state/executor.go:472-539 | a message to code that stops at once succeeds if and only if the sender has upfront cost and value; it moves the value to the receiver if it does, and the fee for the gas used to the coinbase |
| `Payments.PlainCreation` | state/executor.go:505-515 | for each error exactly when a creation by code that stops at once ends with it; otherwise the value is with the new account, the code is its code and the gas for it is taken |
| `Blocks.MessageConserves` | state/executor.go:472-539 | for one message the balances after fees and cleaning are the old sum less what was burned, and equal to it without selfdestructs |
| `Blocks.Transition.CheckAndProcess` | state/executor.go:939-983 | the first checks, and the upfront cost taken when they pass |
| `Blocks.Transition.SubGasPool` | state/executor.go:368-376 | takes gas exactly when the pool has it |
| `Blocks.Transition.Admit` | state/executor.go:472-503 | the errors in the order of the checks, what an admitted message has paid, and that a refused one leaves the pool as it was unless it is refused for its intrinsic gas, which keeps its gas |
| `Blocks.Transition.Settle` | state/executor.go:519-538 | with the gas used that `UpdateGasUsed` computes, its refund capped at half: the sender gains the gas left and the coinbase the gas used, each times the gas price, no other balance changes, and the gas goes back to the pool |
| `Blocks.Transition.Execute` | state/executor.go:505-538 | the run, the refund and the fee of an admitted message on the shared overlay, and that they create no balance |
| `Blocks.Transition.Apply` | state/executor.go:387-400 | snapshot, apply and revert on error: a refused message leaves the overlay, and the pool but for an intrinsic-gas refusal; an applied one is performed after its upfront cost, takes its gas used from the pool and creates no balance |
| `Blocks.Transition.Conclude` | state/executor.go:322-357 | the receipt of an applied message, and the cleaned state |
| `Blocks.Transition.Write` | state/executor.go:304-358 | when it fails and with which error, and what that leaves in the pool; the state and the receipt are those of the dispatched message, settled and cleaned; sender and coinbase are paid the gas left and the gas used of the receipt; the gas is what the pool lost and stays within the limit; the sum of balances falls by exactly what was burned |
| `Blocks.WritesConserve` | state/executor.go:304-358 | an accepted message lowers the sum of balances by exactly what its run burned and what flagged accounts still held, which is nothing without selfdestructs |
| `Blocks.Transition.WriteFailedReceipt` | state/executor.go:272-301 | a failed receipt without gas |
| `Blocks.CumulativePush` | state/executor.go:322-357 | appending a receipt keeps cumulative gas equal to the prefix sums |
| `Blocks.ProcessBlock` | state/executor.go:128-153 | one receipt per transaction, cumulative gas as prefix sums, gas within the limit, and the sum of balances less by exactly what was lost, which is nothing without selfdestructs |
| `StateChain.CommitTransition` | state/executor.go:361-366 | the committed base answers every read as the overlay did and has its sum of balances |
| `StateChain.ProcessAndCommit` | state/executor.go:128-153 | a block is committed as a whole or not at all, and lowers the sum of balances by exactly what was lost |
| `StateChain.ProcessChain` | state/executor.go:128-153 | so over every chain of blocks up to the first that is refused, each on the base the one before left |
| `TxQueue.HeadPrecedesAll` | txpool/queue.go:129-136 | nothing in a heap precedes its head |
| `TxQueue.PushKeepsHeap` | txpool/queue.go:76-78 | pushing keeps the heap order |
| `TxQueue.PopKeepsHeap` | txpool/queue.go:90-101 | popping keeps the heap order |
| `TxQueue.Push` | txpool/queue.go:138-145 | pushing adds exactly the transaction |
| `TxQueue.Pop` | txpool/queue.go:147-158 | popping takes exactly the head |
| `PoolAccount.Prune` | txpool/queue.go:50-62 | splits a queue at a nonce |
| `PoolAccount.PromotesOne` | txpool/account.go:263-291 | each round of promote moves the best paid transaction for the next nonce and prunes the others, except those with the last nonce of all |
| `PoolAccount.Account.Enqueue` | txpool/account.go:226-243 | for every nonce, which of the two limits refuses a transaction; otherwise it is added |
| `PoolAccount.Account.Promote` | txpool/account.go:250-299 | moves the longest run of consecutive nonces from the next one, each the best paid for its nonce; the invariant survives if and only if the enqueued nonces do not reach 2^64 - 1 without a gap; if they do, all are promoted and the next nonce stays |
| `PoolAccount.FullIff` | txpool/account.go:269-291 | a promotion reaches the last nonce if and only if every nonce from the next one on is enqueued |
| `PoolAccount.Account.Reset` | txpool/account.go:190-223 | drops exactly what is below the nonce and signals exactly when a promotion is due |
| `PoolAccount.Account.PopPromoted` | txpool/txpool.go:410-433 | takes the lowest promoted nonce, if any |
| `PoolAccount.Account.Drop` | txpool/txpool.go:437-482 | clears both queues and rolls the nonce back |
| `PoolAccount.Account.PruneHole` | txpool/txpool.go:674-700 | removes everything enqueued exactly when the next nonce is not among it |
| `PoolAccount.Interleave` | txpool/account.go:190-299 | under every interleaving, until the first promotion that reaches 2^64 - 1, which ends it, the promoted queue is a run of consecutive nonces up to the next one, nothing enqueued is below it, and each promoted transaction is the best paid offered for its nonce |
| `PoolAccount.LastNonceIsStuck` | txpool/account.go:250-299 | a run of an account in which the last two nonces are promoted, the next one does not move and the invariant is lost |
| `SlotGauge.SlotsRequired` | txpool/slot_gauge.go:41-48 | the slots of all transactions modulo 2^64 |
| `SlotGauge.SlotsHold` | txpool/slot_gauge.go:41-48 | a transaction fits into n slots of 32768 bytes if and only if its slots are at most n |
| `SlotGauge.DecreasedSubtracts` | txpool/slot_gauge.go:30-32 | adding the complement subtracts modulo 2^64, for zero slots too |
| `SlotGauge.QueueStepBalances` | txpool/txpool.go:753-802 | enqueueing and pruning keep the gauge balanced against what they owe it |
| `SlotGauge.TakeBalancesIff` | txpool/txpool.go:410-482 | taking transactions while lowering the gauge keeps the balance if and only if the slots agree modulo 2^64 |
| `SlotGauge.OwedStepBalances` | txpool/txpool.go:847-902 | making an owed change keeps the balance |
| `SlotGauge.StepBalancesIff` | txpool/txpool.go:410-433 | a step breaks the balance if and only if it is a Pop of something other than it was given |
| `SlotGauge.GaugeTracksQueues` | txpool/slot_gauge.go:25-48 | through every interleaving with Pop given the head, the gauge is the slots of all queued transactions less owed increments plus owed decrements modulo 2^64, and exact when nothing is owed |
| `PoolGauge.Enqueue` | txpool/txpool.go:753-782 | enqueueing is a step that owes the gauge the transaction's slots, a refusal none |
| `PoolGauge.Promote` | txpool/txpool.go:787-802 | promoting is a step that owes the gauge the pruned transactions |
| `PoolGauge.Reset` | txpool/txpool.go:847-902 | resetting is a step that owes the gauge what both queues lost |
| `PoolGauge.Pop` | txpool/txpool.go:410-433 | for any given transaction and any queue: takes the head if there is one, lowers the gauge by the slots of the given one, and keeps the balance if and only if the two agree modulo 2^64 |
| `PoolGauge.Drop` | txpool/txpool.go:437-482 | dropping is a step that lowers the gauge by everything cleared |
| `PoolGauge.PruneHole` | txpool/txpool.go:674-700 | pruning a hole is a step that lowers the gauge by what was removed |
| `PoolGauge.Interleave` | txpool/slot_gauge.go:25-48 | every interleaving on an account's heaps, for all nonces, and of owed changes is a run of the transition system in which each step keeps the balance if and only if it is not a Pop of other slots than given |
| `PoolGauge.StalePop` | txpool/txpool.go:396-433 | a run (Peek, reset, Pop) after which nothing is queued or owed and the gauge stands at 2^64 less the slots of the transaction |
| `BlockFill.PeekIsBest` | txpool/queue.go:221-223 | the head of the price heap is a head of the accounts not excluded, and none of these has a higher price in the low 64 bits |
| `BlockFill.CheapestIsBest` | txpool/queue.go:221-223 | two heads of which the cheaper one comes first |
| `BlockFill.PaysMostIff` | txpool/queue.go:221-223 | the best head pays most in all markets with prices below a bound if and only if the bound is at most 2^64 |
| `BlockFill.PicksPayMost` | txpool/queue.go:221-223 | when all prices are below 2^64 every pick of a sale pays most |
| `BlockFill.NextHead` | txpool/txpool.go:410-433 | after a written transaction the account's next one takes its place among the executables |
| `BlockFill.SalePerSender` | consensus/dev/dev.go:112-150 | whatever Write answers, what is taken from a sender is a prefix of its run, and all of it when the sender is not excluded and nothing is left |
| `BlockFill.SellsFollows` | consensus/dev/dev.go:123-144 | what a round does to queue, demotions and exclusions of the sender, answer by answer, the first check being the block gas limit |
| `BlockFill.TakenIsChosen` | consensus/dev/dev.go:112-150 | the result lists, in order, exactly the picks that fit into a block and were written |
| `BlockFill.SellsEverything` | consensus/dev/dev.go:112-150 | if everything fits and is written and no head is left, all promoted transactions are in the result |
| `BlockFill.UnsoldShrinks` | consensus/dev/dev.go:117-144 | every round takes a transaction from the queues or, for a demotion, only from the executables |
| `BlockFill.Pool.GetPrimaries` | txpool/account.go:47-68 | each account's head once |
| `BlockFill.Pool.Prepare` | txpool/txpool.go:379-392 | the executables are exactly the heads |
| `BlockFill.Pool.Peek` | txpool/txpool.go:396-404 | a head whose price is highest in the low 64 bits, or nothing when there is no head |
| `BlockFill.Pool.PopTx` | txpool/txpool.go:410-433 | removes the head, resets the demotions and offers the next one |
| `BlockFill.Pool.Drop` | txpool/txpool.go:437-482 | clears the account and leaves the other heads on offer |
| `BlockFill.Pool.Demote` | txpool/txpool.go:487-506 | excludes the account and counts the demotion, after ten of them drops it; what becomes of every queue |
| `BlockFill.Pool.Round` | consensus/plgbft/block_builder.go:182-207 | one round takes the best head; over the block gas limit it is dropped, otherwise the answer of Write decides between taking, demoting, dropping and stopping |
| `BlockFill.Pool.Fill` | consensus/dev/dev.go:112-150 | the loop ends, at the gas limit or with no head left; every round takes a best head and changes the market as its answer asks; the result is exactly the picks that fit into a block and were written, in order; of each sender it has a run of consecutive nonces from the lowest promoted one, and all of them when everything fits and is written; with all promoted prices below 2^64 every pick pays most |
| `ForkChoice.Recorded` | blockchain/blockchain.go:1216-1234 | recording a header again repeats its total difficulty |
| `ForkChoice.WeighedToo` | blockchain/blockchain.go:571-594 | so cached difficulties stay right |
| `ForkChoice.Extended` | blockchain/blockchain.go:448-466 | a child of the head is new and becomes the heaviest leaf |
| `ForkChoice.Forked` | blockchain/blockchain.go:1242-1251 | a header that is not heavier leaves the head the heaviest leaf |
| `ForkChoice.Outweighed` | blockchain/blockchain.go:1236-1241 | a heavier header is new; both heads are leaves |
| `ForkChoice.LeafNotBehind` | blockchain/blockchain.go:1300-1329 | no walk back passes through a leaf |
| `ForkChoice.TipsPart` | blockchain/blockchain.go:1317-1333 | two leaves part above the header where their walks meet |
| `ForkChoice.ReindexedIff` | blockchain/blockchain.go:1345-1350 | after a reorganisation the index names the new chain if and only if the branches part just below the lower head |
| `ForkChoice.Blockchain.constructor` | blockchain/blockchain.go:406-426 | the genesis is head, recorded and indexed |
| `ForkChoice.Blockchain.ReadHeader` | blockchain/blockchain.go:525-549 | what an uncached read returns, whatever was evicted |
| `ForkChoice.Blockchain.ReadTotalDifficulty` | blockchain/blockchain.go:571-594 | what an uncached read returns, whatever was evicted |
| `ForkChoice.Blockchain.Descend` | blockchain/blockchain.go:1299-1315 | walks to the height of the other head, listing the parents passed |
| `ForkChoice.Blockchain.StepBack` | blockchain/blockchain.go:1317-1329 | terminates at the last common header |
| `ForkChoice.Blockchain.Walk` | blockchain/blockchain.go:1284-1329 | the old side's list is never empty and reaches the last common header |
| `ForkChoice.Blockchain.WriteFork` | blockchain/blockchain.go:1257-1281 | the header replaces its parent among the forks |
| `ForkChoice.Blockchain.WriteCanonicalHashes` | blockchain/blockchain.go:1345-1350 | the index is rewritten at the heights of the list |
| `ForkChoice.Blockchain.AdvanceHead` | blockchain/blockchain.go:469-507 | the head moves and the recorded difficulty is written again |
| `ForkChoice.Blockchain.HandleReorg` | blockchain/blockchain.go:1284-1363 | the event's old chain is exactly the abandoned branch, its new chain the new head down to the old height |
| `ForkChoice.Blockchain.WriteCanonicalHeader` | blockchain/blockchain.go:448-466 | the header becomes the head and the event announces it |
| `ForkChoice.Blockchain.RecordSide` | blockchain/blockchain.go:1204-1237 | the header is stored; its difficulty is recorded exactly when its parent's is |
| `ForkChoice.Blockchain.WriteSide` | blockchain/blockchain.go:1195-1254 | a fork, or a reorganisation when the header is heavier |
| `ForkChoice.Blockchain.WriteHeaderImpl` | blockchain/blockchain.go:1195-1254 | when a header is refused, when it becomes the head, which event it causes, what becomes of the forks, and when the index stays right |
| `ForkChoice.Blockchain.WriteAll` | blockchain/blockchain.go:1195-1254 | over every run the head has maximal total difficulty and recorded difficulties never change |
| `ForkChoice.DeepReorg` | blockchain/blockchain.go:1317-1329 | a run after which the index names an abandoned header |
| `Merkle.DepthIsCeilLog` | merkle-tree/merkle_tree.go:144-146 | the depth is the binary logarithm rounded up |
| `Merkle.ClimbReachesAbove` | merkle-tree/merkle_tree.go:206-226 | following the index bits along a node's siblings computes the hashes above it, odd levels included |
| `Merkle.ClimbBinds` | merkle-tree/merkle_tree.go:206-226 | two climbs of equal length from one index to one root start alike and use the same siblings, or exhibit a collision |
| `Merkle.OneLeafPerIndex` | merkle-tree/merkle_tree.go:188-226 | two accepted proofs of equal length at one index and root have the same leaf, or exhibit a collision |
| `Merkle.NewMerkleNode` | merkle-tree/merkle_tree.go:48-75 | the hash of the data, or of the children's hashes |
| `Merkle.BuildLevel` | merkle-tree/merkle_tree.go:95-113 | a level of fresh parents over distinct nodes, linked both ways, the last odd node joined with itself |
| `Merkle.BuildLevels` | merkle-tree/merkle_tree.go:93-113 | levels upon levels down to a single root |
| `Merkle.LevelHashes` | merkle-tree/merkle_tree.go:93-113 | the hashes of every level are those of the leaves, joined pairwise that often |
| `Merkle.NewMerkleTreeWithHashing` | merkle-tree/merkle_tree.go:83-120 | fails exactly for no leaves; otherwise a linked tree with the root hash of the data |
| `Merkle.MerkleTree.LeafIndex` | merkle-tree/merkle_tree.go:123-131 | the first index of the leaf |
| `Merkle.MerkleTree.FindLeafNode` | merkle-tree/merkle_tree.go:172-180 | the node of the first such leaf |
| `Merkle.MerkleTree.ToParent` | merkle-tree/merkle_tree.go:158-166 | comparing hashes finds the sibling's hash even when both children have the same |
| `Merkle.MerkleTree.GenerateProof` | merkle-tree/merkle_tree.go:149-169 | the siblings of the first such leaf up to the first node with the root's hash |
| `Merkle.GetProofHash` | merkle-tree/merkle_tree.go:206-226 | the climb from the hash of what the hasher held followed by the leaf |
| `Merkle.VerifyProofUsing` | merkle-tree/merkle_tree.go:188-203 | exactly what is accepted |
| `Merkle.GeneratedAccepted` | merkle-tree/merkle_tree.go:149-226 | a generated proof leads the verifier to the root |
| `Merkle.ProveAndVerify` | merkle-tree/merkle_tree.go:149-226 | a generated proof of a nonempty leaf is accepted at its index if and only if the index is below 2 to its length; it has full length and is accepted when no hash on the way equals the root's |
| `Merkle.EarlyStopRejected` | merkle-tree/merkle_tree.go:157-166 | under a constant hash function the generated proof of the second of two leaves stops at once and is not accepted at its index |
| `Epochs.GetFilteredValidators` | consensus/plgbft/validator_metadata.go:274-295 | the validators whose bit is set; an error exactly for a bit beyond a nonempty set |
| `Epochs.SameValidators` | consensus/plgbft/extra.go:205-237 | the set that verified an epoch's blocks is the set the epoch started with |
| `Epochs.CountSealers` | consensus/plgbft/consensus_runtime.go:463-476 | every signer's count goes up by one, no other |
| `Epochs.CountHeader` | consensus/plgbft/consensus_runtime.go:463-476 | a header adds the signers of its parent, read against the set that verified them |
| `Epochs.CountOwnBlocks` | consensus/plgbft/consensus_runtime.go:484-493 | the walk over the epoch's own blocks |
| `Epochs.LookBack` | consensus/plgbft/consensus_runtime.go:497-513 | the two blocks left over from the epoch before |
| `Epochs.CalculateCommitEpochInput` | consensus/plgbft/consensus_runtime.go:455-513 | counts for every address the blocks it signed in one stretch, and the length of the stretch |
| `Epochs.NoneExceedsTotal` | consensus/plgbft/consensus_runtime.go:515-531 | no validator is credited with more than the total |
| `Epochs.GetFirstBlockOfEpoch` | consensus/plgbft/consensus_runtime.go:924-957 | the next block after an epoch's end, otherwise the first block with the epoch's number |
| `Epochs.WalkFindsFirst` | consensus/plgbft/consensus_runtime.go:945-956 | on a scheduled chain that is the scheduled first block |
| `Epochs.RestartEpoch` | consensus/plgbft/consensus_runtime.go:383-451 | the metadata of the epoch the next block belongs to, from nothing or from the epoch before |
| `Epochs.Runtime.OnBlockInserted` | consensus/plgbft/consensus_runtime.go:240-294 | a block already handled is ignored; the epoch changes exactly at its last block |
| `Epochs.Runtime.CommitEpochInput` | consensus/plgbft/consensus_runtime.go:297-379 | an input exactly when the pending block is an epoch's last |
| `Epochs.BalancedOn` | consensus/plgbft/consensus_runtime.go:455-513 | each epoch of size at least two continues the account where the last one stopped; the first counts size - 2 blocks, later ones size |
| `Epochs.RunChain` | consensus/plgbft/consensus_runtime.go:240-294 | over every run with epochs of at least two blocks the committed uptimes of every address add up to the blocks it signed, each counted once |
| `Epochs.RunSizeOne` | consensus/plgbft/consensus_runtime.go:455-513 | over every run with epochs of one block the uptimes count all blocks but the first and the last counted one twice |
| `Checkpoints.PendingIsExact` | consensus/plgbft/checkpoint_manager.go:150-178 | a checkpoint is in the pending list if and only if it is an epoch-ending block of its range, flagged as such; the list is in increasing order |
| `Checkpoints.CheckpointManager.SendPending` | consensus/plgbft/checkpoint_manager.go:150-178 | sends the pending list in order up to the first refusal |
| `Checkpoints.CheckpointManager.SubmitCheckpoint` | consensus/plgbft/checkpoint_manager.go:114-191 | sends the plan in order up to the first refusal, and succeeds exactly when all was sent |
| `Checkpoints.PlanIsExact` | consensus/plgbft/checkpoint_manager.go:114-191 | the plan is strictly increasing, and a checkpoint is in it if and only if it is the latest one with its flag or an epoch-ending block after the last checkpoint and below the latest, flagged as such |
| `Checkpoints.PrefixMissesNothing` | consensus/plgbft/checkpoint_manager.go:114-191 | after any refusal nothing up to the current checkpoint is missing |
| `Checkpoints.PrefixIsDue` | consensus/plgbft/checkpoint_manager.go:114-191 | a submission sends nothing but epoch-ending blocks flagged as such and latest blocks with their flag |
| `Checkpoints.SubmitAll` | consensus/plgbft/checkpoint_manager.go:274-317 | over every run of submissions and refusals every epoch-ending block up to the current checkpoint was sent once, in order, and nothing was sent but such blocks and the latest ones, each with its flag |
| `Tracker.Entry.LastIndex` | tracker/event_tracker_store.go:338-344 | one past the last stored index |
| `Tracker.Entry.StoreLogs` | tracker/event_tracker_store.go:238-262 | appends under consecutive indices |
| `Tracker.Entry.RemoveLogs` | tracker/event_tracker_store.go:265-278 | removes exactly the logs from an index on |
| `Tracker.Entry.GetFinalizedLogs` | tracker/event_tracker_store.go:292-330 | the logs from the cursor up to the first one that is too young |
| `Tracker.Entry.OnNewBlock` | tracker/event_tracker_store.go:133-177 | delivers them in order and moves the cursor past them; a block up to the number of confirmations changes nothing |
| `Tracker.NothingConfirmedWaits` | tracker/event_tracker_store.go:133-177 | with block numbers in order no confirmed log is left behind |
| `Tracker.Perform` | tracker/event_tracker_store.go:133-177 | any step keeps deliveries exactly once, in order and confirmed; they keep matching the store if and only if no delivered log is removed; a new block then leaves no log it confirms undelivered if and only if it is not the block of the confirmations with a log of block 0 next |
| `Tracker.Run` | tracker/event_tracker_store.go:133-177 | so over every run, after each of its steps and blocks, until a delivered log is removed |
| `Tracker.StoreAfterRemoval` | tracker/event_tracker_store.go:265-278 | logs stored after a removal are delivered by a block that confirms everything if and only if they were not stored below the cursor and the block is past the confirmations |
| `Tracker.PassedOver` | tracker/event_tracker_store.go:145-147 | a run in which the block of the confirmations confirms a stored log of block 0 and does not deliver it |
| `Quorum.LenCounts` | validators/set.go:20-22 | with distinct addresses the length counts validators |
| `Quorum.FaultyIsGreatest` | consensus/ibft/validators.go:10-23 | F is the greatest number of which the number of validators is more than three times |
| `Quorum.Set.Index` | validators/set.go:67-75 | the position of the address, or -1 when it is absent |
| `Quorum.Set.Add` | validators/set.go:84-96 | which error refuses a validator; otherwise it is appended and addresses stay distinct |
| `Quorum.Set.Del` | validators/set.go:99-113 | which error refuses; otherwise the validators with other addresses, in their order |
| `Quorum.Set.Merge` | validators/set.go:116-134 | another type is refused with an error of its own; otherwise the union of the addresses, keeping the old validators first |
| `Quorum.OptimalQuorumsMeet` | consensus/ibft/validators.go:35-49 | two optimal quorums share at least F + 1 distinct validators |
| `Quorum.OptimalQuorumSurvives` | consensus/ibft/validators.go:10-49 | with F validators absent the others still make an optimal quorum |
| `Quorum.LegacyQuorumsMeetIff` | consensus/ibft/validators.go:28-32 | two legacy quorums always share F + 1 validators if and only if the number of validators is 1 modulo 3 |

## Left out

- EVM opcodes, precompiles, tracers and PostHook: a run is an arbitrary tree of host operations.
- `GetCode` and the code cache, which is not part of the snapshots; code is a value of the account.
- Raw `SetState` inside a transaction is outside the refund results, which are about metered writes.
- The refund counter across the transactions of one block, beyond the exact condition under which it wraps.
- Balances, nonces and slot words have no upper bound; gas, refunds, nonces of the pool, the slot gauge and Merkle indices have 64 bits.
- OverlayTxn.Txn.MarkAll: recursion where CleanDeleteObjects has a loop over the collected addresses; the order of the marks does not matter to the result.
- OverlayTxn.Capacity: the growth of a full slice is one fixed rule; any rule that grows gives the same results.
- Commit.Commit: accounts and slots are visited in any order, not in the order of the radix tree and the trie.
- Blocks.TransactionGasCost: the payload is shorter than 2^64 bytes, as every byte slice is.
- The pool's lookup index, nonce validation against the chain, skips counters, gossip and events.
- SlotGauge.StepBalancesIff: accounts are the multisets of their transactions and a step is what a handler does under one lock; PoolGauge ties the steps to the queues of one account, with the others as values.
- BlockFill.Pool.Fill: an account whose promotion has reached nonce 2^64 - 1, and so lost its invariant, is not covered; accounts are values in a map rather than shared objects, and the timer of the block builder, which only ends the loop earlier, is not there.
- Failed receipts that the block builder writes for transactions over the block gas limit.
- ForkChoice.Blockchain.WriteHeaderImpl: storage writes succeed; a header hash names one header, is not the zero hash, and block numbers extend their parents.
- Bodies, receipts, the gas price average, gas limit calculation and block verification of the blockchain.
- Merkle.ProveAndVerify: at most 2^62 leaves, more than a slice of slices can hold, so that the bound on the index does not depend on how the platform converts 2^63; hashes have 32 bytes.
- The sorted listing of the uptime counter and the ABI encoding of commit inputs and checkpoints.
- Epochs.CalculateCommitEpochInput: the chain is complete and its headers were verified against the scheduled validator sets; missing blocks and slashing are not modelled.
- Checkpoints.SubmitAll: submissions do not overlap in time and the latest blocks grow.
- Tracker.Entry.RemoveLogs: deleting while a bolt cursor advances removes every key from the index on; JSON encoding of logs and several filters are not modelled.
- CalcProposer and the JSON and RLP forms of validator sets.
- The export and restore framing of blocks, the IBFT message engine, the proposer calculator and validator-set voting power.
- Networking, JSON-RPC, the command line, secrets, logging and metrics.
