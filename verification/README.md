# Verification of the Hedera to EVM bridge validator

This Dafny project models the bridging protocol that every validator runs and proves
properties of it that span its parts: what a quorum of signatures means under every
interleaving of the message handlers, what a scheduled payout does to the BurnEvent and Fee
tables when any database write may fail, which ledger entries the watchers and the recovery
pass hand on, how a transfer's status can move over restarts, and that the bridge account
always covers what it owes. `dafny verify dfyconfig.toml` checks everything.

## Files

| file | models |
|---|---|
| `Fees.dfy` | fee calculator, distributor, the two transfer lists, the three places that compute the net amount |
| `Quorum.dfy` | signature collection at one validator as a machine whose steps are single database calls |
| `Messages.dfy` | the message handler, message service, recovery of messages and transfer query, run by one goroutine |
| `Execution.dfy` | scheduled execution and its callbacks at N validators, with a shared scheduled-transaction network |
| `Callbacks.dfy` | the burn service, fee transfer and scheduled service, run by one goroutine |
| `Lifecycle.dfy` | the status of transfer rows over runs of the process |
| `Transfers.dfy` | the transfer repository, the handler's gate, the processing of one transfer and the recovery loops |
| `Watchers.dfy`, `HandOff.dfy`, `MirrorNode.dfy` | polling watchers, recovery window, hand-off, polling for an outcome |
| `Peg.dfy` | money over whole runs |
| `Signatures.dfy`, `Timestamps.dfy`, `TransactionIds.dfy` | the canonical forms and keys the other parts compare |
| `Int64.dfy`, `Text.dfy`, `Sets.dfy`, `Sums.dfy`, `Wrappers.dfy` | Go's int64 arithmetic, strconv and strings, finite sets, sums over lists, Option and Result |

## How the model is built

Go's int64 arithmetic is modelled with wrap-around and division truncated toward zero.
Code that changes state is a class whose methods are proved against functions. The step
machines of `Quorum.dfy` and `Execution.dfy` use the same functions, so that the goroutines'
interleavings are runs of the code's own steps; `Messages.AloneIsRun`,
`Callbacks.ExecuteIsRun` and `Transfers.HandleIsRun` prove that the code as one goroutine
executes it is a run of `Quorum.dfy`, of `Execution.dfy` and of `Lifecycle.dfy`. A machine has a total function `Apply(state, action)`; a run is any sequence of
actions, and a statement about `Run(actions)` for all `actions` is a statement about every
reachable state. Digests, public-key recovery and the asset mapping are function-valued
fields of a configuration, so the proofs hold for whatever they compute.

The statements that need them name these hypotheses in their `requires` clauses:

- The member list, fee percentage, Hedera member accounts and asset mapping are fixed and the
  same at all validators.
- `Quorum.OneDigestPerSignature`, `Quorum.OneSignaturePerDigest` and
  `Quorum.OneDigestPerTransfer` speak about the messages on one topic: a signature belongs to
  one digest of one transfer; a member produces one signature per digest (section 3.2 of
  RFC 6979); a member signs one digest per transfer. `Messages.TwoSignaturesOneSigner` shows
  that rows being unique by signature, and not by signer, makes the second one necessary.
- Rows that the recovery pass stored were not sanity-checked. `Quorum.ProperDigestsIff` shows
  that they are the only rows that can carry a wrong digest.
- Answers of the mirror node are beginnings of the ledger after the cursor, in ascending order.
- Identical scheduled transactions are one entity that executes at most once, and the router
  contract mints at most once per transaction id (docs/overview.md). In `Peg.dfy` both need
  the majority of the validators, and fewer than that majority may do anything they like. The
  ledger executes only lists that sum to zero, amounts on the ledgers are not negative, and
  the contract mints no negative amount.
- In `Lifecycle.dfy` a restart happens later than every recorded transfer, and the watcher
  hands each later transfer on once, which is what `Watchers.dfy` and `HandOff.dfy` prove.

## Where the code does not do what its comments or names suggest

- `ValidAmount` is documented as the closest divisible amount; it rounds toward zero, which is
  the closest exactly for remainders of at most half the member count
  (`Fees.ValidAmountNearestIff`; 5 with 3 members gives 3, not 6, `Fees.ValidAmountNotNearest`).
- The calculator's correction of the remainder is never needed (`Fees.FeePlusRemainder`), and
  the distributor's "amount not divisible" error cannot occur in a payout
  (`Fees.PrepareTransfers`).
- The bridge always holding what it owes is false for a deposit whose amount times percentage
  overflows to a negative fee: more is minted than was deposited. It is also false for a burn
  with a negative fee when the bridge account is itself a member, which such a fee charges.
  `Peg.NeverShortIff` says exactly when neither can happen, `Peg.NeverShortWithinBound` that
  the calculator's bound excludes both, and `Peg.InflatedMint` is such a run.
- COMPLETED is called terminal, but the validator's own late submitted-write puts
  IN_PROGRESS over it (`Lifecycle.CompletedIsFinalIff`, and `Lifecycle.CompletedOverwritten`
  for the run).
- The fee row of a failed execution has an empty schedule id in a unique column, so a
  validator stores such a row only while it has none (`Execution.FailedFeeStoredIff`); of two
  failed burns the second gets no fee row (`Execution.SecondFailedBurn`).
- A burn event whose row was created just before the process stopped is never submitted: later
  deliveries find the row (`Execution.RowWithoutSubmission`).
- Neither the recovery pass nor the watchers take an entry stamped exactly at the start of the
  process (`HandOff.HandOffIff`, `HandOff.BoundaryEntryLost`).
- The recovery of transfers and of messages is skipped by the transfer cursor alone. With a
  message cursor and no transfer cursor, the messages in between are lost
  (`HandOff.CoversIff`, `HandOff.MessagesLost`).
- The transfer query serves a transfer whose fee row is a failed one, while message handlers
  keep waiting for it (`Messages.Service.GetTransferData`, `Messages.Service.HandleSignatureMessage`).

## Model

| member | source | states |
|---|---|---|
| Fees.FeePlusRemainder | app/services/fee/calculator/calculator.go:43-53 | fee and remainder add up to the amount modulo 2^64 for every int64, and the correction branch is dead |
| Fees.FeeExactIff | app/services/fee/calculator/calculator.go:44 | the fee is the truncated quotient of the exact product if and only if the product fits in 64 bits |
| Fees.SafeForEveryPercentageIff | app/services/fee/calculator/calculator.go:24-53 | every legal percentage charges between zero and the amount if and only if the amount is at most 92233720368547 |
| Fees.UnsafePercentage | app/services/fee/calculator/calculator.go:32-44 | above that amount some legal percentage charges a negative fee |
| Fees.ValidAmountRounds | app/services/fee/distributor/distributor.go:72-82 | the valid amount is a multiple of the member count, of the same sign, less than one member count nearer to zero |
| Fees.ValidAmountNearestIff | app/services/fee/distributor/distributor.go:72-82 | the valid amount is the closest multiple, as the comment says, if and only if the remainder is at most half the member count |
| Fees.ValidAmountNotNearest | app/services/fee/distributor/distributor.go:72-82 | an amount that is not rounded to the closest multiple |
| Fees.ChargedFeeNegativeIff | app/services/fee/calculator/calculator.go:43-53 | the charged fee is negative if and only if the wrapped product of amount and percentage is at most minus 100000 times the member count |
| Fees.NetFitsIff | app/services/transfers/service.go:188-192 | of a non-negative amount, net and fee split it exactly if and only if the net amount is not negative, whatever the fee |
| Fees.CalculateMemberDistribution | app/services/fee/distributor/distributor.go:52-70 | an error exactly for amounts that do not divide; otherwise every member, in order, gets the same share and the shares sum to the amount |
| Fees.ChargedFeeClosedForm | app/services/fee/distributor/distributor.go:73-82 | within the bound the charged fee is n*floor(amount*p/(100000*n)), between zero and the amount, and the other side gets exactly the rest, rounding dust below n included |
| Fees.NetPlusFee | app/services/transfers/service.go:188-192 | net amount and charged fee add up to the amount modulo 2^64, whatever overflowed on the way |
| Fees.SplittingDeposits | app/services/transfers/service.go:188-192 | splitting a sum into k deposits never raises the total fee and lowers it by at most n*(k-1) |
| Fees.PrepareTransfers | app/services/burn-event/service.go:86-110 | the payout list of a burn, entry by entry: an equal share of the fee for every member in order, what is left for the recipient, the whole amount from the bridge; it never fails, and recipient amount plus fee is the burned amount |
| Fees.FeeListZeroSum | app/services/transfers/service.go:247-258 | the fee list of every deposit sums to zero |
| Fees.FeeListEntries | app/services/transfers/service.go:247-258 | the fee list of a deposit, entry by entry: an equal share for every member in order, and the whole fee from the bridge |
| Fees.PayoutListZeroSum | app/services/burn-event/service.go:99-107 | for every int64 amount, the payout list of a burn sums to zero if and only if the amount can be negated and the amount less the fee did not wrap, which holds within the bound |
| Fees.AmountAgreement | app/services/transfers/service.go:182-196 | the signed decimal amount equals stored amount less stored fee through both decimal round trips, for every amount text |
| Fees.TextsClosedForm | app/services/transfers/service.go:181-196 | within the bound the fee row's text is the decimal closed form of the fee, and the signed text, and the expected one, that of the amount less it |
| Signatures.SwitchSignatureValueV | app/helper/ethereum/helper.go:61-77 | V of the given buffer goes from 27 and 28 to 0 and 1, and the returned text is that of a copy whose V goes from 0 and 1 to 27 and 28; all other bytes stay, and only 65 bytes are accepted |
| Signatures.AcceptedIff | app/helper/ethereum/helper.go:25-32 | exactly the hexadecimal texts of 65 bytes are accepted |
| Signatures.StoredFormIffSameSignature | app/helper/ethereum/helper.go:25-32 | two accepted texts store the same text if and only if R, S and recovery bit agree, and if and only if the recovery function gets the same bytes |
| Signatures.LetterCaseIgnored | app/helper/ethereum/helper.go:25-32 | texts that differ in letter case only decode alike, rejections included |
| Signatures.DecodeStored | app/helper/ethereum/helper.go:61-77 | decoding the stored text returns the stored pair |
| Timestamps.RoundTrip | app/helper/timestamp/helper.go:32-53 | reading the text of a timestamp gives it back, for every int64 |
| Timestamps.StringForm | app/helper/timestamp/helper.go:48-53 | the text is the whole seconds and the remaining nanoseconds, fewer than a second and of the same sign |
| Timestamps.Unreadable | app/helper/timestamp/helper.go:32-46 | which error a text leads to, and that a text without a dot indexes past the split text |
| Timestamps.FromFields | app/helper/timestamp/helper.go:32-46 | two parsable fields combine to seconds*10^9+nanos modulo 2^64 |
| Timestamps.OrderPreserving | app/helper/timestamp/helper.go:32-46 | on well-formed texts the parser preserves and reflects the order of (seconds, nanos) |
| TransactionIds.ConversionsAgree | app/helper/hedera/transaction-id.go:26-62 | the two conversions agree on every unscheduled text, malformed ones included |
| TransactionIds.ConversionsDisagreeOnScheduled | app/helper/hedera/transaction-id.go:26-62 | on the id of a scheduled transaction they differ |
| TransactionIds.ScheduledSuffixIgnored | app/helper/hedera/transaction-id.go:26-38 | the first conversion ignores a scheduled suffix |
| TransactionIds.LeadingZerosIgnored | app/helper/hedera/transaction-id.go:26-38 | nanos written with fewer leading zeros lead to the same key |
| TransactionIds.KeyInjective | app/helper/hedera/transaction-id.go:26-38 | the key determines account, seconds and nanos |
| TransactionIds.KeyForm | app/helper/hedera/transaction-id.go:26-38 | the key is account, seconds and nanos with dashes, each number with at least nine digits and its value kept |
| TransactionIds.Malformed | app/helper/hedera/transaction-id.go:26-62 | an id without an @, or without a dot after it, has no key |
| TransactionIds.TimestampOfId | app/helper/hedera/transaction-id.go:64-66 | the timestamp of a converted id reads back as its seconds and nanos |
| Quorum.DigestFieldsIff | app/model/auth-message/auth-message.go:26-40 | under a digest function without collisions, two messages share a digest if and only if transfer id, router, wrapped asset, receiver and amount agree |
| Quorum.ExpectedDigestIs | app/services/messages/service.go:90-105 | the digest expected for a stored transfer is over its own fields, its mapped asset, and its amount less its fee |
| Quorum.SaneIff | app/services/messages/service.go:82-114 | the sanity check passes if and only if there is a transfer with a fee transaction whose receiver, router, mapped asset and amount less fee in decimal are the message's |
| Quorum.RunSafe | app/process/handler/message/handler.go:70-99 | in every run, with faults and races, signatures stay unique, every row is a member's, every row inserted by a handler carries the stored transfer's digest, and completed transfers reach the threshold |
| Quorum.ProperDigestsIff | app/services/messages/service.go:82-114 | the rows of a transfer all carry the stored transfer's digest if and only if the rows stored before the run did |
| Quorum.QuorumSafety | app/process/handler/message/handler.go:87-113 | when the completing write has been made, the rows reach the threshold with pairwise distinct signatures over the one digest of the stored transfer, signed by a strict majority of the members |
| Quorum.QuorumIntersection | app/process/handler/message/handler.go:101-113 | if each member signs one digest of a transfer, no two validators' databases hold majorities for different digests of it, for every member count, with recovered rows, failed calls and unequal transfer tables |
| Quorum.CompletedAgree | app/process/handler/message/handler.go:87-94 | two validators that completed one transfer expect the same digest of it |
| Quorum.Provenance | app/process/handler/message/handler.go:70-99 | in every run, unfinished or with failed calls, new rows stem from accepted messages and completed transfers reach the threshold and had an accepted delivery |
| Quorum.ConflictLive | app/persistence/entity/message.go:23 | a handler that loses the race on the unique signature column finds its own row stored and the transfer accounted for by an inserter that counts after its insert |
| Quorum.FinalState | app/process/handler/message/handler.go:70-99 | once all handlers have finished without a failed call, the rows are a function of the delivered set, and the completing write was made exactly for transfers that reach the threshold and had an accepted delivery |
| Quorum.Confluence | app/core/pair/pair.go:42-48 | any order, interleaving and repetition of the same messages leaves the same rows and the same completing writes |
| Quorum.CompletionIff | app/process/handler/message/handler.go:87-98 | with any failed calls, the completing write was made if and only if some handler that counted with the threshold stored met no failure in its count and its write; a transfer that reached the threshold in this run has such a counter |
| Messages.AloneIsRun | app/process/handler/message/handler.go:70-99 | an undisturbed handler is one of the machine's runs |
| Messages.AloneEffect | app/process/handler/message/handler.go:70-99 | what an undisturbed handler does: it inserts at most its own row, and counts also after finding a duplicate, but not after a conflict |
| Messages.LostCompletion | app/process/handler/message/handler.go:81-99 | when counting fails after the last needed insert, all handlers finish with a majority stored and no completing write, and the next delivery of that message completes |
| Messages.Service.HandleSignatureMessage | app/process/handler/message/handler.go:70-99 | the handler leaves the tables of an undisturbed run, and waits exactly while there is no fee row with a transaction id |
| Messages.Service.ProcessSignature | app/services/messages/service.go:117-167 | the row is inserted if and only if the signature recovers, for the digest over the message's own five fields, to a member and is not stored; which row, and that a duplicate is no error while a conflict is |
| Messages.Service.CheckMajority | app/process/handler/message/handler.go:101-113 | a majority is reported exactly when the stored rows of the transfer are more than half as many as the members |
| Messages.Service.TopicMessagesRecovery | app/process/recovery/recovery.go:189-217 | recovery without the sanity check still leaves unique signatures and only rows of earlier runs or of fetched messages, and misses no member's signature |
| Messages.Service.GetTransferData | app/services/transfers/service.go:328-368 | the query is "not found" exactly without a fee amount, so a failed fee row is served; it returns exactly the stored signatures, the expected amount, and a majority exactly when they are more than half as many as the members |
| Messages.AuthoriseTransfer | app/services/transfers/service.go:181-223 | the submitted message carries the net amount and the key's signature of the digest over transfer id, router, wrapped asset, receiver and that amount; when it fails |
| Messages.SignedMessageIsSane | app/services/messages/service.go:90-113 | what one validator signs passes every equally configured validator's sanity check and has the digest it expects |
| Messages.TwoSignaturesOneSigner | app/persistence/entity/message.go:19-26 | any two signatures of one of three members that differ in R or S complete a transfer, although no other signature recovers |
| Execution.AlwaysInLockstep | app/services/burn-event/service.go:128-215 | for every outcome and every pattern of failed writes the Fee row never runs ahead of its BurnEvent row, a terminal Fee row has the burn's terminal status, and both are about the same scheduled transaction |
| Execution.TerminalStatusesAreFinal | app/services/burn-event/service.go:183-215 | terminal BurnEvent and Fee statuses never change again in any continuation |
| Execution.ExecuteAtMostOnce | app/services/burn-event/service.go:67-84 | a validator submits the payout of a burn event at most once: submissions, and a task about to submit, are at most the event's row, and exactly it unless a task was abandoned |
| Execution.RowWithoutSubmission | app/services/burn-event/service.go:67-84 | the run in which the process stops after creating the row, and a later delivery submits nothing |
| Execution.SameSchedule | app/services/scheduled/service.go:63-76 | all validators whose submission succeeded record the same schedule and transaction |
| Execution.BurnRowsAreTrue | app/services/burn-event/service.go:183-215 | a burn row has the event's amount and recipient; COMPLETED means that the network executed the event's payout, and FAILED with a recorded transaction that it resolved that one without success and executed none |
| Execution.FeeRowsAreTrue | app/services/transfers/service.go:300-324 | a fee row has its owner's fee; COMPLETED means that the network executed its owner's list under the row's id, and FAILED with a schedule that it did not |
| Execution.FeeRowIsPaid | app/services/burn-event/service.go:81-100 | the amount in a fee row is what the members get from the submitted list together |
| Execution.PayoutEntries | app/services/burn-event/service.go:86-110 | what is submitted for a burn: its asset, equal shares for the members, the rest for the event's recipient, the whole amount from the bridge |
| Execution.FeeEntries | app/services/transfers/service.go:247-258 | what is submitted for a deposit: its asset, equal shares of the fee for the members, the fee from the bridge |
| Execution.PaidAtMostOnce | app/services/scheduled/service.go:38-87 | over all submissions of all validators at most one scheduled transaction is executed per memo, and it is that burn's or deposit's own list |
| Execution.FailedFeeStoredIff | app/services/burn-event/service.go:158-178 | in every reachable state a failed execution's fee row is stored if and only if the database accepts the write and no fee row with an empty schedule id is there |
| Execution.SecondFailureLeavesNoFeeRow | app/persistence/entity/fee.go:21-28 | a validator has at most one fee row without a schedule id |
| Execution.SecondFailedBurn | app/services/burn-event/service.go:158-178 | the run of two failing burns with every write accepted: both burns FAILED, and only the first has a fee row |
| Execution.WriteBurnOk | app/services/burn-event/service.go:67-215 | each write of a burn task keeps the tables in order, leads to a stage that fits them, and touches no other event |
| Execution.WriteDepositOk | app/services/transfers/service.go:266-324 | the same for the fee transfer of a deposit |
| Callbacks.Service.Execute | app/services/scheduled/service.go:38-87 | answer by answer: a success or identical receipt makes the burn row SUBMITTED with its schedule and transaction and is polled, any other answer makes it FAILED, none changes nothing; the fee row that follows, and which writes stop it |
| Callbacks.Service.ProcessEvent | app/services/burn-event/service.go:67-84 | an event with a row is left alone; otherwise a row with its amount and recipient is created, its own payout list is submitted, and the tables record the answer as for Execute |
| Callbacks.Service.ProcessFeeTransfer | app/services/transfers/service.go:247-264 | the deposit's own fee list is submitted and its fee row records the answer as for Execute |
| Callbacks.Service.OnExecutionSuccess | app/services/burn-event/service.go:129-156 | burn row first, fee row only after it |
| Callbacks.Service.OnExecutionFail | app/services/burn-event/service.go:158-178 | burn row first, then a failed fee row, for a deposit without a transaction id |
| Callbacks.Service.OnMined | app/services/burn-event/service.go:183-215 | the burn row, and only after it the fee row, become COMPLETED for a success and FAILED otherwise |
| Callbacks.ExecuteIsRun | app/services/scheduled/service.go:38-87 | the sequential Execute is a run of the machine: submitting with the matching reply and the two writes leave its tables, record the answer, and poll what it polls |
| Lifecycle.AtMostOncePerRun | app/process/handler/transfer/handler.go:47-62 | over any interleaving a transfer enters ProcessTransfer at most once per run of the process |
| Lifecycle.ReprocessedIff | app/persistence/transfer/transfer.go:211-222 | a recorded transfer can be processed again, in this or a later run, if and only if its status is INITIAL or RECOVERED or recovery holds it queued |
| Lifecycle.RecoveredIsQueued | app/process/recovery/recovery.go:116-143 | a transfer that recovery saves is queued by the query that follows, whatever else is saved, and is then processed |
| Lifecycle.SignatureStatusForward | app/persistence/transfer/transfer.go:128-146 | the signature status only moves from empty to SUBMITTED to MINED or FAILED |
| Lifecycle.CompletedIsFinalIff | app/persistence/transfer/transfer.go:124-138 | COMPLETED stays in every continuation if and only if the validator's own submitted-write is not still to come |
| Lifecycle.CompletedOverwritten | app/persistence/transfer/transfer.go:128-138 | the run from an empty database that writes IN_PROGRESS over COMPLETED |
| Lifecycle.DuplicateDeliveryProcessesTwice | app/process/handler/transfer/handler.go:47-58 | in a reached state, a second handler of the same new transfer would find the INITIAL row and enter ProcessTransfer again |
| Transfers.Service.Handle | app/process/handler/transfer/handler.go:40-63 | a delivered transfer is processed exactly if it had no record, and one could be created, or an INITIAL one; the record, started fee and published message that follow are as for ProcessTransfer |
| Transfers.HandleIsRun | app/process/handler/transfer/handler.go:40-63 | the handler is a run of the lifecycle machine with the same outcomes: same rows, and one entry exactly if it entered |
| Transfers.Service.ProcessTransfer | app/services/transfers/service.go:181-245 | once the amount parses a fee transfer is started whose text is the fee row's, whatever fails later; the message published has the transfer's fields and the signed amount, which is what a reader of amount and fee expects, exactly if signing and submission succeed; the record becomes IN_PROGRESS with a submitted signature exactly if the write succeeds too |
| Transfers.Service.OnAuthMessageMined | app/services/transfers/service.go:160-179 | the signature status becomes MINED for a success and FAILED otherwise |
| Transfers.Service.TransfersRecovery | app/process/recovery/recovery.go:145-185 | the loop saves what `Transfers.Saved` says, for any pattern of failing checks and writes |
| Transfers.SavedKeeps | app/process/recovery/recovery.go:145-185 | saving changes no earlier record, adds only valid fetched entries as RECOVERED, and misses none whose write the database accepts |
| Transfers.Service.GetUnprocessedTransfers | app/persistence/transfer/transfer.go:211-222 | exactly the ids of INITIAL and RECOVERED records, each once |
| Transfers.Service.ProcessUnfinishedOperations | app/process/recovery/recovery.go:219-242 | every INITIAL or RECOVERED record is processed once, failures do not stop the others, all other records stay; one fee and at most one message for each, with the record's fields and the right amounts |
| Transfers.Service.Recover | app/process/recovery/recovery.go:116-143 | the pass as a whole processes, exactly once each, the deposits it found valid and could store, and the records left INITIAL or RECOVERED, and nothing else |
| Transfers.Service.UpdateSignatureStatus | app/persistence/transfer/transfer.go:182-209 | only SUBMITTED, MINED and FAILED can be set, and only on the named record |
| Watchers.TransferWatcher.BeginWatching | app/process/watcher/transfer/watcher.go:107-137 | n iterations of the loop, with errors, restarts and unparsable timestamps, lead to the cursor `Watchers.Polled` gives |
| Watchers.MessageWatcher.BeginWatching | app/process/watcher/message/watcher.go:94-121 | the same for the loop that moves the cursor with every message |
| Watchers.TransfersExactlyOnce | app/process/watcher/transfer/watcher.go:107-137 | after any number of iterations, page sizes and errors, the transactions handed on are a gap-free, duplicate-free beginning of the ledger after the start cursor, and stored and local cursor agree |
| Watchers.MessagesExactlyOnce | app/process/watcher/message/watcher.go:94-121 | the same for messages |
| Watchers.TransferAnswers | app/process/watcher/transfer/watcher.go:107-137 | one iteration answer by answer: error, empty page, parsable and unparsable last timestamp |
| Watchers.MessageAnswers | app/process/watcher/message/watcher.go:94-121 | the same for messages, of which an unparsable one is skipped and resets the local cursor |
| HandOff.Between | app/clients/hedera/mirror-node/client.go:56-73 | the window query fails exactly for a failed query or an unparsable timestamp, and otherwise keeps exactly the items earlier than the end |
| HandOff.ComputeIntervals | app/process/recovery/recovery.go:88-114 | the interval from the configuration or the stored cursors, and when it fails |
| HandOff.HandOffIff | app/clients/hedera/mirror-node/client.go:84-106 | recovery and the ledger after the boundary are together every entry after the start, once and in order, if and only if recovery took its whole window and no entry is stamped exactly at the boundary |
| HandOff.HandOffRun | app/process/watcher/transfer/watcher.go:79-137 | for both watchers after any number of iterations: what recovery took and what was handed on since are a gap-free beginning of the ledger under exactly that condition, and with the boundary entry put in they always are |
| HandOff.BoundaryEntryLost | app/clients/hedera/mirror-node/client.go:56-73 | for every boundary, an entry stamped exactly there is taken by neither |
| HandOff.CoversIff | cmd/main.go:90-102 | a ledger's window is taken whole if and only if recovery was not skipped by the transfer cursor (or had nothing to take there) and its one answer reached the end of it |
| HandOff.RecoveredBegins | app/process/recovery/recovery.go:145-217 | whatever the mirror node answers, recovery takes a beginning of its window |
| HandOff.StartIff | cmd/main.go:75-140 | the whole hand-off of a start, for both ledgers and watchers: what recovery took from the answer and what the watcher handed on after any number of iterations are a gap-free beginning of the ledger if and only if recovery missed nothing and no entry is stamped at the boundary |
| HandOff.MessagesLost | cmd/main.go:90-102 | with a message cursor and no transfer cursor, a message inside the window is taken by neither recovery nor watcher |
| HandOff.RestartResumes | app/process/recovery/recovery.go:88-114 | what one process handed on, what the next recovers from the stored cursor and what it watches later follow each other without loss or repetition |
| MirrorNode.WaitForTransaction | app/clients/hedera/mirror-node/client.go:166-240 | at most one callback fires, none after an error; the first answer with an entry, or for a schedule with two, decides: success exactly if an entry, for a schedule a scheduled one, has the result SUCCESS |
| Peg.PegInvariant | docs/overview.md:40-91 | per asset, in every reachable state, for deposits and burns of any amount: bridge balance = wrapped supply + unminted + unpaid fees + unpaid burns + what executed lists credit back to the bridge + deposits that can never be minted |
| Peg.PegExactIff | docs/overview.md:40-91 | balance = wrapped supply + unminted + unpaid fees + unpaid burns, if and only if nothing is kept or stranded; that is, unless an executed list debited the bridge twice, if and only if no deposit is stranded by an overflowing net amount and no executed list credits the bridge |
| Peg.CoversIff | docs/overview.md:14-16 | in every reachable state the balance covers all outstanding claims unless a deposit is inflated and not made up for, or an executed burn debited the bridge twice, and where nothing else makes up for it only then |
| Peg.NeverShortIff | app/services/fee/calculator/calculator.go:43-53 | the bridge covers all claims in every run, if and only if no deposit of the asset can be inflated and no burn of it that drains the bridge can be funded by deposits |
| Peg.NeverShortWithinBound | app/services/fee/calculator/calculator.go:24-53 | with amounts of the asset within the calculator's 64-bit bound the bridge covers all claims in every run |
| Peg.DrainingBurnLeavesShort | app/services/burn-event/service.go:86-110 | every fundable burn with a negative fee, when the bridge is a member and not the recipient, can be paid out so that the bridge is short |
| Peg.InflatedDepositLeavesShort | app/services/transfers/service.go:188-192 | every inflated deposit leaves the bridge short as soon as it is made |
| Peg.InflatedMint | app/services/transfers/service.go:188-217 | an honest run with a deposit one unit above the calculator's bound in which about twice the deposit is minted |
| Peg.EveryPayoutCovered | app/services/burn-event/service.go:86-110 | where all claims are covered, the balance covers every single outstanding payout on top of the supply |
| Peg.BackSign | app/services/burn-event/service.go:99-107 | an executed list takes more than its debt from the bridge if and only if the bridge is a member, the fee is negative and the bridge is not the recipient; it credits nothing back when the bridge is neither member nor recipient |
| Peg.MintedIsRight | docs/overview.md:70-71 | a claim with a majority of signatures is the net amount of a deposit that was made |
| Peg.ExecutedIsRight | docs/overview.md:54-57 | a scheduled transaction with a majority of submissions is the list of a deposit or burn that was made |
| Peg.DebtMoved | app/services/transfers/service.go:254-258 | the list of every deposit or burn moves exactly its debt out of the bridge account, less its other entries for that account |

## Left out

- Cryptography, protobuf, base64, ABI packing, state proofs and memo validation: the digest, key recovery and checks on a fetched entry are parameters.
- HTTP, JSON, gorm and the Hedera SDK: tables with their unique columns, writes that may fail, and answers chosen freely by the environment stand for them.
- The REST routers, configuration loading, scripts, generated contract bindings and end-to-end helpers: no property of their own.
- Updates of the member list during a run, with its mutex.
- Ethereum block confirmations and the subscription to burn events: a burn event reaches a handler any number of times; the truncation of its 256-bit amount to int64 is not modelled.
- Liveness: a message handler whose transfer never gets a fee row with a transaction id waits for ever; statements about finished handlers say so.
- The endless watcher loops are modelled as n iterations for every n; a failed cursor write ends the process there and is not modelled.
- Goroutines started per transaction by the transfer watcher: handing on is modelled, not the order in which the queue receives them.
- Rows of the message and transfer tables are values in maps and sets; the order in which a query returns them is left open, except that recovery saves in ledger order.
- Peg.PegInvariant: the threshold of the bridge account is taken to be the majority the router uses, because the documentation leaves n/m open; how the contract reads a net amount that wrapped to a negative number is not modelled.
- Peg.PegExactIff: its second part leaves out runs in which an executed list debited the bridge account twice, because such a debit can cancel a credit; its first part, and Peg.PegInvariant, hold there too.
- Quorum.Confluence: stated for runs without failed database calls, because it is false with them: Messages.LostCompletion is a run in which the completing write is missing, Quorum.CompletionIff says exactly when it is, and Quorum.Provenance is the part of Quorum.FinalState that every run keeps.
- Quorum.DigestFieldsIff: the digest is taken over the fields as written; that the code first reads the three addresses as hexadecimal, so that different texts of one address share a digest, is part of the digest function.
- Human-readable timestamps: used for logging only.
