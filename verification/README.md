# Gasless wallet relay: verified model

The repository is a relay that lets a Solana wallet act without holding SOL: it quotes an action (Send, Swap,
Claim, Burn, Recover Value, or a cross-chain transfer), sponsors the network cost, takes it back out of the
tokens moved, checks what the wallet signed, submits the transaction and reconciles the result. This project
models the parts of that where a mistake would cost money, and proves what they are there for.

| part | files |
|---|---|
| Does a wallet-modified transaction still mean the prepared one, and who pays for it? | `Phantom.dfy`, `PhantomCompatibility.dfy`, `PhantomMeaning.dfy`, `PhantomSigners.dfy`, `PhantomCharge.dfy` |
| The temporary store, twice: replay locks, rate limits, sponsorship exposure | `Ledger.dfy`, `MemoryStore.dfy`, `RedisStore.dfy`, `StoreAgreement.dfy`, `LockRuns.dfy`, `ExposureRuns.dfy`, `ExposureExcess.dfy`, `RateLimitRuns.dfy`, `OperationalRisk.dfy` |
| Submission protocols | `BurnSubmit.dfy`, `CleanSubmission.dfy`, `RecoverEconomics.dfy`, `RecoverLifecycle.dfy`, `RecoverOutcomes.dfy`, `RecoverCompletion.dfy`, `RecoverEngine.dfy` |
| Sponsorship economics and settlement | `SendEconomics.dfy`, `Pricing.dfy`, `SwapQuote.dfy`, `TokenSettlement.dfy`, `ClaimAllocation.dfy`, `ClaimSettlement.dfy` |
| Amount texts | `Decimal.dfy`, `DecimalText.dfy`, `Amounts.dfy` |
| The EIP-712 order identifier | `Eip712.dfy`, `Eip712Commitment.dfy`, `RelayTypes.dfy`, `RelayOrder.dfy`, `RelayReading.dfy`, `RelayIdentifier.dfy` |
| Shared | `Wrappers.dfy`, `Sequences.dfy`, `Numbers.dfy`, `Sums.dfy`, `Balances.dfy`, `TextOrder.dfy` |

How the parts hang together. `Ledger.Apply` says what each store operation does to the live entries; the methods
of both store classes are proved against it, the run theorems are about it, and `OperationalRisk` shows that the
requests the service makes satisfy what those theorems ask. `BurnSubmit` interleaves submits over the same
ledger. `RecoverLifecycle` gives each engine call as a function of the stored record, the quote and the ways its
awaited calls can end, `RecoverOutcomes` proves what the calls guarantee, `RecoverCompletion` what they come to,
and `RecoverEngine.Engine` assigns those fields step by step and carries the guarantees over. The order identifier
is told twice: `RelayOrder` normalises and encodes as the source does, `RelayReading` says what an order means and
`RelayIdentifier` spells out the hash of that, and the two are proved to be one. The
settlement files run the instruction lists the builders produce on a ledger and compare the outcome with what
the engines' `reconcile` methods check. Errors the source throws are `Err` results naming the stage.

What the source promises, and what was found to be the exact condition where a stronger claim fails:

- Compatibility keeps what a message does but not who pays for it: `AcceptedPayerChanges` exchanges payer and
  wallet and `ExchangedPayerPays` shows both ledgers; `LedgerChargedExactly` says when charged runs agree. The
  browser checks compatibility alone (src/wallet/signing.ts:136); the server also checks the signers before it
  signs, which settles the payer (`SignedChargedExactly`).
- A zero-amount reservation can become impossible to release, because a shared counter is deleted when it
  reaches zero: `ServiceStrandsZero` is a run of the service's own requests in which it happens,
  `MatchingReleaseExact` says exactly when.
- The limits bound the counters, not the exposure: reservations outlive the counter that counted them.
  `ServiceExceedsCap` is a run of the service with 19 live against a cap of 10, `ExposureOverRuns` gives the exact
  excess, `GrantsStayWithinLimitExactly` and, for the service, `ServiceStaysWithinCapExactly` the states in which
  the limit does bound the exposure.
- A failed Burn submit can leave its locks behind for a day, because nothing catches what handing them back
  throws: `ThrowingReleaseStrandsLocks` and `LostReplyStrandsLock` are the schedules,
  `FailedRunLeavesLocksExactly` the condition.
- A signature that is confirmed but failed is observed as a success, since confirmation is tested before the
  error: `FailedButConfirmed` at an input, `ErrorReportedExactly` exactly when. Recover still reconciles only
  after reading a confirming landing (`ReconciledOnlyOnMatch`).
- Recover's two reconcilers agree on the verdict (`ReconcilersAgree`) but not on the exposure: a mismatch that
  the submit itself finds is never released (`MismatchStrandsExposure`), not even while the quote is still open
  to a submit (`OpenQuoteStrandsExposure`); `ReleasableExactly` says from which states any call can release.
- The amount formatter does not work without decimals (a slice by minus zero takes the whole string):
  `RoundTripExactly`.
- A settlement list whose source is one of its own destinations does not reconcile unless it moves nothing:
  `ReconcilesExactly`, and `RoutedReconcilesExactly` after a routed swap. The Send engine compares the token
  accounts (server/send/engine.ts:91), the Swap engine the wallets (`assertDestinations`, server/swap/engine.ts:128).
- The order identifier commits to what fields mean (integers, decoded bytes), not to how they are spelled:
  `SpellingIsIgnored`.

`dafny verify dfyconfig.toml` checks everything.

## Model

| member | source | states |
|---|---|---|
| Phantom.LookupIdentity | chains/solana/transactions/phantom.ts:43-60 | The two walks over the lookup tables answer exactly the account at that place in the concatenation of static keys, all writable loads and all readonly loads, and nothing outside it |
| Phantom.LoadedIdentity | chains/solana/transactions/phantom.ts:43-54 | The k-th account of the n-th lookup is found at the offset the loads before it add up to |
| Phantom.IdentityTextInjective | chains/solana/transactions/phantom.ts:43-60 | The text forms of two account identities coincide only for one identity |
| Phantom.JoinedDecidesAccounts | chains/solana/transactions/phantom.ts:69-76 | Comparing account lists by their joined text decides equality of the lists, so the text comparison is the structural one |
| Phantom.TextDecidesInstructions | chains/solana/transactions/phantom.ts:69-76 | For keys without separators, comparing two instructions by program, joined account text and data agrees with the structural comparison |
| Phantom.NameExactly | chains/solana/transactions/phantom.ts:62-67 | An instruction resolves exactly when its program is a static key and every account position is in the combined list, and then to that program, those accounts and its data |
| PhantomCompatibility.PreparedKeysDistinct | chains/solana/transactions/phantom.ts:119-127 | Passing the key checks implies by counting that the prepared keys, which are never checked, are pairwise distinct, and that the returned keys are those plus at most the Lighthouse program |
| PhantomCompatibility.KeysPassSound | chains/solana/transactions/phantom.ts:119-135 | The key checks imply a permutation plus at most Lighthouse, every privilege kept and Lighthouse readonly and not a signer |
| PhantomCompatibility.KeysPassComplete | chains/solana/transactions/phantom.ts:119-135 | Conversely every such permutation passes the key checks |
| PhantomCompatibility.ComputePassExact | chains/solana/transactions/phantom.ts:137-151 | The compute-budget checks pass exactly when both messages open with one limit and one price of unchanged value and the returned order is limit, price |
| PhantomCompatibility.SupportedAreGuards | chains/solana/transactions/phantom.ts:97-107 | A Lighthouse instruction is supported exactly when its first byte is 2 to 17, it has two accounts at 4, none at 15, three at 16 and one otherwise, it is 3 to 256 bytes long and it names loaded accounts or prepared keys alone |
| PhantomCompatibility.ValidateEconomicsExact | chains/solana/transactions/phantom.ts:153-163 | The remaining checks pass exactly when the other instructions name the same calls in order and, where the Lighthouse program was added, one to four of those assertions follow, and otherwise nothing |
| PhantomCompatibility.ValidateExact | chains/solana/transactions/phantom.ts:113-164 | The validator accepts exactly identical messages, without augmentation, and the rewrites described by three relations on keys, settings and appended assertions, with it |
| PhantomCompatibility.RefusedFor | chains/solana/transactions/phantom.ts:113-164 | A refused message is refused for the first of version, blockhash, lookup tables, keys, settings and remaining instructions that is not as described, with a reason of that kind |
| PhantomMeaning.SameCall | chains/solana/transactions/phantom.ts:62-76 | Instructions with one identity resolve to the same call under every lookup-table content, although their indexes differ |
| PhantomMeaning.SameComputePrefix | chains/solana/transactions/phantom.ts:143-151 | Swapping the two compute-budget settings changes nothing when the settings are independent |
| PhantomMeaning.AssertionsKeepState | chains/solana/transactions/phantom.ts:97-107 | Under every semantics in which Lighthouse calls with first byte 2 to 17 abort or leave the state alone, whatever the memory calls 0 and 1 do, appended assertions do so together |
| PhantomMeaning.AcceptedKeepsMeaning | chains/solana/transactions/phantom.ts:113-164 | For every lookup-table content, start state and semantics with independent settings and guarding assertions, an accepted message aborts or does what the prepared one does, and exactly that when no Lighthouse program was added; who pays the fee is apart from this |
| PhantomMeaning.AcceptedReflexive | chains/solana/transactions/phantom.ts:114 | Every message is accepted as itself, without augmentation |
| PhantomMeaning.AcceptedTransitive | chains/solana/transactions/phantom.ts:113-164 | Acceptance composes: two accepted rewrites in a row are one accepted rewrite |
| PhantomMeaning.ChainOfRewrites | chains/solana/transactions/phantom.ts:157-162 | Any chain of accepted rewrites is one accepted rewrite and adds at most four instructions in all |
| PhantomSigners.PrivilegeClasses | chains/solana/transactions/phantom.ts:33-41 | The privilege computed from an index is membership in the key range the header counts set aside |
| PhantomSigners.HeaderCounts | chains/solana/transactions/phantom.ts:119-135 | With well-formed headers both signed counts are unchanged and the readonly unsigned count grows by one exactly when Lighthouse is added |
| PhantomSigners.SignedExactly | chains/solana/transactions/clean.ts:37-52 | The signed check lets a message through exactly when it is an accepted rewrite of version 0 with the prepared blockhash, lookup tables only where allowed, payer and wallet as its two signers and allowed programs alone, the payer slot is empty, the wallet signature verifies and the lifetime has not ended; and which of the three errors it answers otherwise |
| PhantomSigners.RewrittenPassesExactly | chains/solana/transactions/clean.ts:43-47 | For an accepted rewrite those message checks come down to the prepared message passing them and the first two keys being payer and wallet: nothing the wallet may add can fail them |
| PhantomSigners.SignersKeepSlots | chains/solana/transactions/clean.ts:37-52 | A signed message that passes has payer and wallet in slots 0 and 1, and they were the prepared signers with the same writable ones; they differ unless the prepared message repeats a key |
| PhantomCharge.BillKept | chains/solana/transactions/phantom.ts:113-164 | Acceptance keeps what a fee is computed from, the number of signatures and the compute-budget settings, but not for whom it is charged |
| PhantomCharge.ChargedAlikeExactly | src/wallet/signing.ts:130-142 | With the fee charged to the first key before the instructions run, and kept when they abort, an accepted message does what the prepared one does if and only if billing its first key comes to the same as billing the prepared one, under every fee schedule |
| PhantomCharge.LedgerChargedExactly | src/wallet/signing.ts:130-142 | When a positive fee is taken from a ledger of balances, that is if and only if the first key is still the prepared one or neither of the two accounts can pay |
| PhantomCharge.AcceptedPayerChanges | src/wallet/signing.ts:130-142 | An accepted message with payer and wallet exchanged, both writable signers, which is billed to the wallet |
| PhantomCharge.ExchangedPayerPays | src/wallet/signing.ts:130-142 | On every ledger where both can pay, the prepared message takes the fee from the payer and that accepted one takes it from the wallet |
| PhantomCharge.OtherPayerIsRefused | chains/solana/transactions/clean.ts:46 | The check of the signed transaction refuses every message that another account would pay for |
| PhantomCharge.SignedChargedExactly | chains/solana/transactions/clean.ts:37-52 | A signed message that passes is charged to the ledger and runs as the prepared one if and only if the prepared one is headed by its fee payer, or neither that payer nor the account that heads it can pay |
| PhantomCharge.SignedBilledExactly | chains/solana/transactions/clean.ts:37-52 | Under every fee schedule it does so if and only if billing the fee payer comes to the same as billing the prepared message |
| MemoryStore.MemoryTemporaryStore.Current | server/storage/temporary.ts:39-43 | Answers the live entry at a key and drops a dead one without changing what is live |
| MemoryStore.MemoryTemporaryStore.AcquireReplayLock | server/storage/temporary.ts:76-81 | Answer and whole live state are the ledger's: taken only when no live lock is there |
| MemoryStore.MemoryTemporaryStore.HasReplayLock | server/storage/temporary.ts:82 | Answers whether a live lock is there and changes nothing live |
| MemoryStore.MemoryTemporaryStore.ReleaseReplayLockIfSafe | server/storage/temporary.ts:83-86 | Removes the lock exactly when it is live and carries the given owner |
| MemoryStore.MemoryTemporaryStore.ConsumeRateLimit | server/storage/temporary.ts:87-93 | Counts the call, keeps the deadline of a live counter, and allows it up to the limit |
| MemoryStore.MemoryTemporaryStore.ReserveSponsorshipExposure | server/storage/temporary.ts:94-102 | The two passes over the keys amount to one ledger step: idempotent, refused with no change when some counter would pass its limit, otherwise all counters raised |
| MemoryStore.MemoryTemporaryStore.ReleaseSponsorshipExposure | server/storage/temporary.ts:103-112 | One ledger step: already released, mismatch and unsafe counters change nothing; otherwise all counters are lowered, emptied ones deleted and the reservation dropped |
| MemoryStore.MemoryTemporaryStore.GetSponsorshipExposure | server/storage/temporary.ts:113 | Answers the live counter or zero |
| RedisStore.UpstashTemporaryStore.AcquireReplayLock | server/storage/temporary.ts:163-165 | SET NX EX is the same ledger step |
| RedisStore.UpstashTemporaryStore.ReleaseReplayLockIfSafe | server/storage/temporary.ts:167-170 | The compare-and-delete script is the same ledger step |
| RedisStore.UpstashTemporaryStore.ConsumeRateLimit | server/storage/temporary.ts:171-174 | INCR followed by EXPIRE on the first call is the same ledger step |
| RedisStore.UpstashTemporaryStore.ReserveSponsorshipExposure | server/storage/temporary.ts:175-180 | The reserving script, with INCRBY and EXPIRE per key, is the same ledger step |
| RedisStore.UpstashTemporaryStore.ReleaseSponsorshipExposure | server/storage/temporary.ts:181-188 | The releasing script, with DECRBY and DEL per key, is the same ledger step |
| LockRuns.LockStays | server/storage/temporary.ts:76-86 | Over every run of the store before its deadline a granted lock stays its owner's while that owner does not give it back, whatever other owners release: every acquire of it is refused and every question for it is answered yes |
| LockRuns.LockLifetime | server/storage/temporary.ts:76-86 | From any store: a granted lock keeps everyone out until its deadline or the release by its owner; after either it is not there and the next acquire is granted |
| StoreAgreement.Lockstep | server/storage/temporary.ts:76-189 | Driven by one trace of operations under one non-decreasing clock, the in-memory store and the Redis scripts give the same answers and hold the same live entries |
| ExposureRuns.ConservationOverRuns | server/storage/temporary.ts:94-112 | While nothing expires, after any run every counter equals the sum of the unreleased reservations naming it |
| ExposureRuns.MatchingReleaseExact | server/storage/temporary.ts:103-112 | A matching release succeeds if and only if its amount is positive or all of its counters still exist |
| ExposureRuns.ReleaseAnswerOverRuns | server/storage/temporary.ts:103-112 | The answer to every release in any run without expiry, case by case |
| ExposureRuns.LedgerAnswersOverRuns | server/storage/temporary.ts:94-113 | In any run without expiry a question for the exposure behind a key is answered with the sum of the unreleased reservations naming it, and a new reservation is granted exactly when that sum stays within the limit of every key |
| ExposureRuns.ReleaseUndoesReserve | server/storage/temporary.ts:94-112 | Releasing right after reserving restores every counter, deadline and absence |
| ExposureRuns.RepeatsAndRefusalsChangeNothing | server/storage/temporary.ts:94-112 | A refused reservation, a refused release, a reservation under an id that is live and a release under one that is not change nothing, whatever their other arguments |
| ExposureRuns.ReservationStays | server/storage/temporary.ts:94-112 | Over any run a granted reservation stays, with its amount and deadline, until its deadline or its own release |
| ExposureRuns.RepeatedReserveIsIdempotent | server/storage/temporary.ts:94-102 | So repeating it at any time before then is granted and changes nothing, whatever happened in between |
| ExposureRuns.ZeroReservationStranded | server/storage/temporary.ts:108-110 | For any list of keys, a run in which a zero-amount reservation can no longer be released, because its counters were deleted at zero |
| ExposureRuns.ExposureBoundedOverRuns | server/storage/temporary.ts:94-112 | Under any non-decreasing clock with a fixed window, each live counter stays between zero and its limit and never exceeds the sum of the live reservations naming it |
| ExposureExcess.OperationsKeepExcess | server/storage/temporary.ts:94-112 | No operation changes the difference between the live reservations naming a key and its counter |
| ExposureExcess.TimeChangesExcess | server/storage/temporary.ts:39-43 | Only time does: a counter that ends adds what it counted, reservations that end take theirs away |
| ExposureExcess.ExposureOverRuns | server/storage/temporary.ts:94-112 | Over every run the live reservations naming a key are its counter plus exactly what ended counters counted less what ended reservations held |
| ExposureExcess.ExposureWithinLimitInWindow | server/storage/temporary.ts:94-102 | Until a counter window of the key ends, the limit bounds the live reservations themselves |
| ExposureExcess.GrantsStayWithinLimitExactly | server/storage/temporary.ts:94-102 | At any time the live reservations of a key exceed its counter by nothing if and only if every reservation then granted on the key leaves them within its limit, given a free id of the key whose other counters have as much room |
| ExposureExcess.ExposureExceedsLimit | server/storage/temporary.ts:94-102 | For any list of keys with limits of 10, a run of three granted reservations after which the live ones amount to 19 |
| RateLimitRuns.WindowAllowsTheLimit | server/storage/temporary.ts:87-93 | A counter window allows exactly its first calls up to the limit |
| RateLimitRuns.IntervalAllowsUnderTwiceTheLimit | server/storage/temporary.ts:87-93 | Any half-open interval of window length allows fewer than twice the limit, whatever the call times |
| OperationalRisk.RequestsAreDisciplined | server/risk/operational.ts:63-87 | The reserve and release requests of the risk service have distinct keys fixed per transaction, and limits that do not vary per key, which is what the exposure theorems ask for |
| OperationalRisk.RequestRefusedExactly | server/risk/operational.ts:65-68 | A cost is refused as undetermined exactly when it is negative or beyond the safe integers, and as over the limit exactly when it is above the cap for one transaction |
| OperationalRisk.CountersAreShared | server/risk/operational.ts:69-70 | With no colon in networks and actions, two subjects share the global counter exactly when they share the network, the wallet counter exactly when they share network and wallet, and the action counter exactly when they are the same; no counter of one kind is one of another |
| OperationalRisk.ServiceRunsAreDisciplined | server/risk/operational.ts:63-87 | A run made only of the service's requests, with any locks and rate limits in between, satisfies what the exposure theorems ask |
| OperationalRisk.ServiceExposureBounded | server/risk/operational.ts:63-87 | In every run of the service each live counter is within its configured cap and within the reservations behind it |
| OperationalRisk.ServiceExposureConserved | server/risk/operational.ts:63-87 | And equals them while nothing expires |
| OperationalRisk.ServiceStaysWithinCapExactly | server/risk/operational.ts:63-79 | Whatever the service is next granted leaves the live reservations of a key within its cap if and only if they and the room its three counters and the per-transaction cap leave are within the cap together |
| OperationalRisk.ServiceExceedsCap | server/risk/operational.ts:63-79 | With both caps 10, three granted requests of the service for one subject after which 19 lamports are reserved at once, on each of its three keys |
| OperationalRisk.ServiceStrandsZero | server/risk/operational.ts:63-87 | A run of the service's own requests after which the release of a zero cost is refused and its reservation stays |
| BurnSubmit.InvariantReached | server/burn/engine.ts:189-231 | For every schedule of interleaved submits within a lock lifetime, each run holds the locks its phase says, they are in the store under its request id, and no two runs hold one lock |
| BurnSubmit.AtMostOneCrossing | server/burn/engine.ts:191-203 | Two runs that have both crossed the relayer boundary are for different quotes, messages and requests and share no lock |
| BurnSubmit.CrossedHoldsFinalLock | server/burn/engine.ts:194-198 | A run that has crossed had exactly one hash returned by validation and holds the locks on its quote, its prepared message, its request and the message with that hash |
| BurnSubmit.CrossedMessagesDiffer | server/burn/engine.ts:191-203 | No message, prepared or returned by the wallet, is that of two runs that have crossed |
| BurnSubmit.FinalLockRefuses | server/burn/engine.ts:198 | A returned message that another submit has locked sends the run to its catch block with no lock added |
| BurnSubmit.OnlyTheHolderReleases | server/burn/engine.ts:229-231 | A lock is removed only by the run that acquired it, even when two runs carry one request id |
| BurnSubmit.FailedRunLeavesLocksExactly | server/burn/engine.ts:194-198 | A run that ended before crossing leaves one of its locks behind if and only if the reply of the acquire that took it was lost, or a release at or before its own threw |
| BurnSubmit.ThrowingReleaseStrandsLocks | server/burn/engine.ts:229-231 | A schedule on which the first release throws: all three locks stay for their whole lifetime and every submit of the quote is refused until then |
| BurnSubmit.LostReplyStrandsLock | server/burn/engine.ts:194 | A schedule on which the reply of the first acquire is lost: its lock is never handed back |
| BurnSubmit.LoneRunCrosses | server/burn/engine.ts:191-203 | An undisturbed run whose locks are free crosses, holding exactly its three locks |
| BurnSubmit.LoneRunCrossesChanged | server/burn/engine.ts:191-203 | With a message the wallet has changed it crosses as well, holding the lock on that message too, each for a day |
| BurnSubmit.CrossedRunEnds | server/burn/engine.ts:204-241 | Past the boundary a run is signed, submitted and finished in that order, or finished by what throws, and no lock is taken or handed back |
| CleanSubmission.ErrorReportedExactly | server/clean/submission.ts:19-32 | An execution error is reported if and only if some provider sees it and none has settled the transaction; a failed transaction is otherwise reported as a success |
| CleanSubmission.FailedButConfirmed | server/clean/submission.ts:21-24 | One provider that has confirmed a failed transaction is enough for a success |
| CleanSubmission.OneAnswer | server/clean/submission.ts:19-32 | The outcome of every single answer, constructor by constructor: confirmed and finalized are a success, below them an error decides, and an unseen signature has expired exactly when the height is past its lifetime |
| CleanSubmission.SameAnswersSameOutcome | server/clean/submission.ts:19-32 | Neither the order of the providers nor repeated answers change the outcome |
| CleanSubmission.BroadcastAndConfirmClean | server/clean/submission.ts:51-73 | What the rounds of broadcasting and observing amount to: whether anything was sent, and the outcome, with any awaited call failing |
| CleanSubmission.BroadcastStops | server/clean/submission.ts:51-73 | What any rounds amount to, told by the first one that does not go on: whether anything was sent, whether the outcome is conclusive and which it is |
| RecoverLifecycle.ReleasedOnlyWhenSafe | server/recover/engine.ts:135-183 | Over every sequence of engine calls, with any awaited call failing, exposure is released only if nothing was broadcast or a conclusive observation was made |
| RecoverLifecycle.InvAfter | server/recover/engine.ts:156-183 | After any calls, something broadcast has a durable signature and a status that unsigned cleanup and a second crossing refuse |
| RecoverEconomics.ReconcilersAgree | server/recover/engine.ts:204-222 | The check against the quote after a submit and the check against the durable record reach one verdict on one landing |
| RecoverEconomics.ConfirmsExactly | server/recover/engine.ts:204-222 | Either check confirms a landing exactly when the network took the recorded fee, the first change of the wallet is at least the minimum, that of the fee destination the two fees and the advance, that of the sponsor exactly the advance, and both accounts are gone |
| RecoverEconomics.ConfirmedLandingPays | server/recover/engine.ts:204-206 | A confirmed landing paid the user at least the minimum; the other accounts gave up exactly the user gain, the service fees and the network fee, and the sponsor got its advance back |
| RecoverOutcomes.CallKeepsPromises | server/recover/engine.ts:61-263 | Every call, however its awaited calls end, keeps the record and its terms, never changes a signature, and makes at most one release, a safe one |
| RecoverOutcomes.ReconcilingCallReads | server/recover/engine.ts:199-228 | A call that turns a record reconciled has itself read a landing without a chain error that confirms the record's terms |
| RecoverOutcomes.ReconciledOnlyOnMatch | server/recover/engine.ts:199-228 | The same over every run, at the call where the status changes |
| RecoverOutcomes.ReleasableExactly | server/recover/engine.ts:88-183 | In every run whose lookups read one landing (or none), some call can still release sponsored exposure if and only if the record is not final, or failed without a signature, or its submitted quote is open and that landing confirms the terms |
| RecoverOutcomes.StuckForever | server/recover/engine.ts:88-183 | From any other state no sequence of calls changes the record or ever releases it |
| RecoverOutcomes.MismatchStrandsExposure | server/recover/engine.ts:207-223 | When the submit itself finds other figures, record and quote fail with the exposure never released by any later call; the durable reconciler on the same landing releases it |
| RecoverOutcomes.OpenQuoteStrandsExposure | server/recover/engine.ts:168-173 | The same when that submit cannot write the quote: it stays open to a submit, and still no call that reads the same figures releases anything |
| RecoverCompletion.StatusOutcome | server/recover/engine.ts:101-112 | A status call on a submitted record whose writes return leaves it reconciled exactly when the transaction is seen as a success and its landing pays, failed exactly when it expired, failed on chain or landed without paying, and open otherwise; exposure is released once as it closes |
| RecoverCompletion.UnsignedStatusOutcome | server/recover/engine.ts:94-99 | Before there is a signature the call fails the record, with one release, exactly when every height is past its lifetime |
| RecoverCompletion.ResumeOutcome | server/recover/engine.ts:185-196 | A resumed submit closes quote and record exactly where the status call would, except that a landing that failed on chain leaves the record open, and releases once when the landing pays or the transaction expired or failed |
| RecoverCompletion.CrossingOutcome | server/recover/engine.ts:149-177 | A first submit, whatever its rounds: quote and record carry the signature before anything is sent, what the rounds observed then closes them as a resumed submit would, and rounds that end in an exception leave both submitted |
| RecoverCompletion.PaidRunCompletes | server/recover/engine.ts:61-177 | From a fresh quote, prepared and submitted, with a landing that pays: quote and record end reconciled under one signature, with one release |
| RecoverCompletion.RejectedSignatureReleases | server/recover/engine.ts:180 | A transaction the payer signed and a later check refused is never sent: exposure is released once and both sides fail |
| RecoverCompletion.AbortOutcome | server/recover/engine.ts:251-263 | Giving a quote up fails the record, with one release, exactly in the statuses without a signature that come before relaying, and changes nothing in any other |
| RecoverCompletion.SubmitBeforeBoundary | server/recover/engine.ts:141-179 | A submit that is not admitted, finds a lock taken or cannot hand one back changes nothing; one refused before the boundary ends like giving the quote up |
| RecoverCompletion.SubmitOfClosedQuote | server/recover/engine.ts:137-139 | A submit changes nothing unless its quote is prepared, not failed, and not reconciled with a signature |
| RecoverCompletion.LostRecordFaults | server/recover/engine.ts:235-244 | Whatever throws while a lost record is failed, its exposure is released first and it only fails once that is through, so that a later call tries again |
| RecoverCompletion.PaidRecordFaults | server/recover/engine.ts:224-228 | A record whose landing pays is accounted for first, then released, then reconciled, whatever throws |
| RecoverCompletion.PaidResumeFaults | server/recover/engine.ts:190-210 | In a resumed submit the record is reconciled first, the quote once accounted for, and the exposure released only after all of them are written |
| RecoverCompletion.AbortFaults | server/recover/engine.ts:255-261 | The same order when a quote is given up |
| RecoverCompletion.UnseenStatus | server/recover/engine.ts:101-102 | A status call that cannot observe, or record what it observed, changes neither record nor quote and releases nothing |
| RecoverCompletion.UnseenResume | server/recover/engine.ts:186-187 | Nor does such a resumed submit |
| RecoverCompletion.PrepareFaults | server/recover/engine.ts:61-86 | Preparing writes the record with the terms of the quote, and the quote only becomes prepared after record and event are written |
| RecoverCompletion.ExpiredQuoteIsInert | server/recover/engine.ts:135-137 | Once the stored quote is gone the record stays and no submit or preparation does anything |
| RecoverEngine.Engine.Submit | server/recover/engine.ts:135-183 | With its try and catch flags: the record and its terms stay, a signature under which something was broadcast stays, and at most one release is made, a safe one |
| RecoverEngine.Engine.TerminalizeUnsigned | server/recover/engine.ts:251-263 | Leaves a signed, relaying, submitted or reconciled record exactly as it is; otherwise, when it goes through, the record has failed without a signature and a sponsored exposure was released once |
| RecoverEngine.Engine.ReconcileStatus | server/recover/engine.ts:88-112 | Leaves the quote and a final record alone; otherwise only the status moves, final with one release, and reconciled only after reading a confirming landing |
| RecoverEngine.Drive | server/recover/engine.ts:61-263 | An engine object driven through any calls ends in the specified state, with every release justified |
| SendEconomics.FeeStep | chains/solana/transactions/send.ts:25-30 | One more unit sent raises the capped fee by at most one unit, for every rate up to 10,000 basis points and every cap |
| SendEconomics.FeeIsGreatest | chains/solana/transactions/send.ts:25-30 | The fee is the greatest whole number of raw units within the rate on the amount and within the dollar cap, and it is refused exactly for a negative amount or a policy out of bounds |
| SendEconomics.ReimbursementBounds | chains/solana/transactions/send.ts:32-36 | The nested ceilings cover the buffered cost at the micro prices and exceed it by less than three raw units |
| SendEconomics.ReimbursementExactly | chains/solana/transactions/send.ts:32-36 | The reimbursement is the cost at the two prices rounded up to raw units, and that with the buffer rounded up again; it is refused exactly for negative or missing inputs |
| SendEconomics.CalculateSendMax | chains/solana/transactions/send.ts:38-48 | The search ends with the greatest positive amount whose debit fits the balance, and fails exactly when the balance is below the cost, the policy is invalid or no positive amount fits |
| SendEconomics.DustAtMostOne | chains/solana/transactions/send.ts:38-48 | The greatest amount leaves at most one raw unit unspent |
| SendEconomics.TwoSpareUnitsSuffice | chains/solana/transactions/send.ts:46 | Two units above the reimbursement can always send something |
| SendEconomics.PrepareSendEconomics | chains/solana/transactions/send.ts:108-119 | Succeeds exactly when terms that honour the limit, the balance and the stable network fee exist, and answers them |
| DecimalText.ScaledIsNumber | server/pricing/service.ts:21-24 | Reading all digits of a decimal text as one number scales the denoted number by ten per fraction digit |
| DecimalText.DecimalExactly | server/cross-chain/registry.ts:28-35 | The accepted texts are exactly zero or a number without leading zero, alone or followed by a point and at least one digit |
| Pricing.SixDigitsKept | server/pricing/service.ts:24 | Keeping six fraction digits loses exactly the place value of the rest |
| Pricing.UsdMicros | server/pricing/service.ts:20-28 | The denoted price in micro-dollars, rounded in the asked direction, or an error exactly when the text is malformed or that number is not positive and safe |
| Pricing.EffectiveAtMost | chains/solana/token-2022/accounts.ts:194-201 | The raw-unit price never exceeds the price times the multiplier |
| Pricing.EffectiveExactly | chains/solana/token-2022/accounts.ts:194-201 | It is the product of the price and the multiplier rounded down to nanos, rounded down again, and refused exactly when an input is not positive or nothing is left |
| Pricing.ReimbursementNeverUndercharges | server/pricing/service.ts:64 | With SOL rounded up and the token rounded down, the collected tokens are worth at least the sponsored lamports at the prices as quoted |
| Pricing.WrappedSolNeverUndercharges | server/pricing/service.ts:64 | Paid in wrapped SOL, whose price is rounded up, the reimbursement is at least the sponsored lamports themselves |
| SwapQuote.CreateQuote | server/swap/engine.ts:63-80 | Succeeds exactly when the trial reimbursements reach a fixed point within six attempts, and then total = routed + fee + reimbursement with the reimbursement computed from its own final cost |
| SwapQuote.SwapFeeIsRate | chains/solana/transactions/swap.ts:29-32 | The service fee is the rate on the whole input in hundredths of a percent, rounded down, and refused exactly out of bounds |
| SwapQuote.Determined | server/swap/engine.ts:67-79 | The trial reimbursements are determined by the request and the service answers |
| SwapQuote.SteadyRouteStabilizes | server/swap/engine.ts:67-79 | When the network fee does not move, the second attempt at the latest is the fixed point |
| TokenSettlement.ExpectedDeltas | server/send/engine.ts:269 | The filled map has one entry per destination, holding its summed share even where destinations coincide |
| TokenSettlement.TokenMatches | server/swap/engine.ts:137 | The check passes exactly when the source lost the total and each destination gained its share |
| TokenSettlement.ExecutionDeltas | chains/solana/transactions/send.ts:93-95 | Running the transfers moves every balance by its credits less, at the source, the total |
| TokenSettlement.RunsIfCovered | chains/solana/transactions/send.ts:93-95 | Transfers away from the source run exactly when it holds their total |
| TokenSettlement.SupplyKept | chains/solana/transactions/send.ts:93-95 | Running the transfers neither mints nor burns |
| TokenSettlement.ReconcilesExactly | server/send/engine.ts:91 | An executed list reconciles if and only if the source is not a destination or nothing was moved |
| TokenSettlement.SendSettles | server/send/engine.ts:264 | A prepared Send runs exactly on the ledgers that hold its total debit, reconciles, and moves every balance by the recipient amount, the reimbursement and the fee at the three accounts less the total at the source |
| TokenSettlement.RoutedReconcilesExactly | server/swap/engine.ts:137 | Transfers after a routed swap reconcile with the total if and only if the source is none of their destinations |
| TokenSettlement.SwapSettles | chains/solana/transactions/swap.ts:88-92 | A balanced, routed quote reconciles with the total input if and only if the source is neither settlement account, away from them runs exactly when the source held the total input, and then the reimbursement account gained the reimbursement and the fee account the fee |
| ClaimAllocation.SortedFacts | chains/solana/claim/accounts.ts:68 | The sort is an address-ordered permutation that keeps the order of equal addresses |
| TextOrder.BeforeExactly | chains/solana/claim/accounts.ts:68 | One address comes before another exactly where, after equal characters, it ends or has the smaller one |
| ClaimAllocation.BatchingCovers | chains/solana/claim/accounts.ts:66-70 | Batches concatenate to the sorted accounts, none is empty or above the maximum, only the last may be short, and the error is exactly a maximum below one |
| ClaimAllocation.ShareOfDifference | chains/solana/transactions/claim.ts:11-14 | A difference of cumulative fees is within one lamport of the exact share |
| ClaimAllocation.ClaimFeeIsRate | chains/solana/transactions/claim.ts:11-14 | The fee is the rate on the total in hundredths of a percent, rounded down, and refused exactly out of bounds |
| ClaimAllocation.AllocateFees | server/claim/engine.ts:105-116 | Batch fees sum to the fee on the total, each the floor or ceiling of its own share; fails exactly when the policy is invalid or a batch would keep less than the minimum |
| ClaimAllocation.BatchedGross | server/claim/engine.ts:102-103 | Sorting and batching lose no lamport |
| ClaimAllocation.CreateQuote | server/claim/engine.ts:97-126 | A quote has one batch, of the sorted selection, with the fee on everything selected, and fails exactly when the payout would be too small |
| ClaimSettlement.SetSizeFindsDuplicates | chains/solana/transactions/claim.ts:41 | The set-size comparison finds exactly the lists with a repeated account |
| ClaimSettlement.PreparedShape | chains/solana/transactions/claim.ts:58-68 | What a prepared claim has been checked for, and its exact instruction list |
| ClaimSettlement.PreparedExactly | chains/solana/transactions/claim.ts:34-70 | A claim is prepared exactly for one to ten different accounts, a payer other than the destination, two equal fee answers of at least 37,500 lamports, a payout of at least the minimum and settlements within the safe integers, and then as those closes followed by that transfer |
| ClaimSettlement.ClosesRun | chains/solana/transactions/claim.ts:43 | Running the closes hands the wallet the accounts' summed lamports and removes the accounts |
| ClaimSettlement.ClaimSettles | server/claim/engine.ts:374-381 | On any ledger holding the quoted lamports the claim runs exactly when wallet plus payout is not negative, and then gives the deltas and closed accounts reconciliation demands, moves nothing else, and removes exactly the network fee |
| ClaimSettlement.EmptyWalletSettles | chains/solana/transactions/claim.ts:63-68 | A wallet holding nothing is never overdrawn and ends with exactly the payout |
| Amounts.SendParserMeans | server/send/engine.ts:47-56 | The parser that pads the text computes the denoted number times ten to the decimals |
| Amounts.SwapParserMeans | chains/solana/transactions/swap.ts:18-27 | The Swap parser computes the same from 0 to 18 decimals and refuses every text for any other number of them |
| Amounts.CrossChainParserMeans | server/cross-chain/registry.ts:28-35 | The cross-chain parser computes the same, as text |
| Amounts.ParsersAgree | server/cross-chain/registry.ts:28-35 | From 0 to 18 decimals the three parsers accept the same texts, refuse the rest alike and agree on the integer |
| Amounts.ParseOfFormat | server/cross-chain/service.ts:124 | Parsing a formatted positive amount gives it back, for one decimal or more |
| Amounts.WholeTokensAreLost | server/cross-chain/service.ts:124 | With no decimals every formatted amount is malformed |
| Amounts.RoundTripExactly | server/cross-chain/service.ts:124 | The round trip holds for all positive amounts if and only if there is at least one decimal |
| Amounts.FormatOfParse | server/cross-chain/service.ts:124 | Formatting a parsed amount gives its text without trailing fraction zeros |
| Eip712.BigEndianRoundTrip | chains/solana/relay/order.ts:53-58 | A word of bounded integers reads back as the integer |
| Eip712.ReferencedIsReachable | chains/solana/relay/order.ts:62-69 | The set a type hash is taken over is exactly the structs reachable from the named one |
| Eip712.SortedNames | chains/solana/relay/order.ts:70 | The names come in strictly ascending order and are all of the set |
| Eip712.ComputeTypeHash | chains/solana/relay/order.ts:62-71 | Growing the set by recursive visits and hashing the definitions gives the type hash |
| Eip712Commitment.EncoderReadsData | chains/solana/relay/order.ts:73-92 | The encoder is decoding to typed data followed by the EIP-712 encoding of that data, errors included |
| Eip712Commitment.DecodedHasType | chains/solana/relay/order.ts:73-92 | What decodes under a type has that type |
| Eip712Commitment.EveryValueIsAWord | chains/solana/relay/order.ts:73-88 | Every encoded value is 32 bytes |
| Eip712Commitment.ArrayCommits | chains/solana/relay/order.ts:74-77 | An array's hash fixes its length as well as its items |
| Eip712Commitment.EncodingCommits | chains/solana/relay/order.ts:73-92 | For any type table, typed data with one encoding is one piece of data unless two inputs hashed on the way collide |
| Eip712.HexBytesExact | chains/solana/relay/order.ts:37-40 | A text decodes to bytes exactly when it is 0x and their two digits each, high digit first, in either case; every other text is refused as not hexadecimal |
| Eip712.HexRoundTrip | chains/solana/relay/order.ts:37-40 | Bytes printed with a table of the 32 digit characters, in either case, decode to themselves |
| RelayTypes.FeeType | chains/solana/relay/order.ts:61 | The type string of a fee, as literal text |
| RelayTypes.InputType | chains/solana/relay/order.ts:61-71 | The type string of an input: its own text followed by those of its payment and refund |
| RelayTypes.OutputType | chains/solana/relay/order.ts:61-71 | The type string of an output: its own text followed by that of its payment |
| RelayTypes.OrderType | chains/solana/relay/order.ts:61-71 | The type string of an order: its own literal text followed by the six others in alphabetical order |
| RelayOrder.NormalizeRefuses | chains/solana/relay/order.ts:94-109 | Normalisation refuses nothing but a text that is not hexadecimal or not an address of its chain |
| RelayReading.AddressBytesExact | chains/solana/relay/order.ts:42-51 | An address gives exactly the 32 bytes base58 decodes it to on Solana and the 20 bytes it spells elsewhere, and which error it gives otherwise |
| RelayReading.OrderReads | chains/solana/relay/order.ts:94-109 | An identifier is taken over some typed data exactly when that is what the order means: its texts, the bytes its addresses and hexadecimal strings spell, its amounts and deadlines as bounded integers, array by array |
| RelayIdentifier.IdentifierExact | chains/solana/relay/order.ts:73-111 | The identifier is computed exactly when the order means something, and is then the hash of that, told again struct by struct with literal type strings and 32-byte words |
| RelayIdentifier.OrdersMeanAlike | chains/solana/relay/order.ts:24-35 | Two orders mean the same data exactly when they agree in every field and every array length, as texts, integers and spelled bytes |
| RelayIdentifier.IdentifierDecides | chains/solana/relay/order.ts:111 | Orders whose identifiers can be computed have one identifier exactly when they agree in every field and every array length, unless two hashed inputs collide |
| RelayIdentifier.SpellingIsIgnored | chains/solana/relay/order.ts:94-109 | Two orders that differ only in a call spelled 0xAB and 0xab have one identifier |

## Left out

- HTTP routes, sessions, environment loading, logging, React components and wallet connectors.
- RPC, Kora, Relay, Jupiter and Supabase clients: their answers are parameters of the modelled steps, free to be anything or to fail.
- Ed25519, SHA-256, keccak, base58, UTF-8 and JavaScript's String, Number and BigInt conversions: function parameters; keccak is assumed to give 32 bytes and not to collide on the inputs hashed for the two orders compared.
- Message serialisation: byte equality of two messages is structural equality, and transaction size limits are not modelled.
- PhantomSigners.HeaderCounts: asks for headers whose counts fit the key list, which the compiler of messages guarantees and the validator does not check.
- MemoryStore.MemoryTemporaryStore.ReserveSponsorshipExposure: the clock is read once per operation, where the source reads it at every access.
- RedisStore.UpstashTemporaryStore.ReserveSponsorshipExposure: the Redis server itself is modelled (a key is gone once its deadline is reached, where the server keeps it through that very millisecond, so agreement at that instant is an assumption; GET, SET, INCRBY, DECRBY, EXPIRE, TTL, DEL), not its network, persistence or eviction.
- Sessions, stored quotes and the swap authority of the temporary store: plain reads and writes with a lifetime.
- JavaScript numbers beyond 2^53 in store counters: counters are integers.
- BurnSubmit.AtMostOneCrossing: submits are steps on values so that they can interleave; the resume path, the rate limit and the stored quote of Burn's submit are not part of it, and all steps fall within one lock lifetime.
- Quote status of Burn under concurrent submits: a losing run writes an earlier status back, so no order on statuses is claimed.
- RecoverLifecycle.ReleasedOnlyWhenSafe: engine calls run one after another, and there is one prepared transaction per quote.
- RecoverEngine.Engine.Submit: the rate limit, the replay locks and the checks before the relayer boundary are one answer (passed, replayed, refused, or refused with a lock that could not be handed back). The locks of a crossing are one flag without a deadline, since they outlive every stored quote that was not submitted (86,400 against 300 seconds); which locks a failed submit leaves behind is modelled for Burn only.
- RecoverOutcomes.ReleasableExactly: what has landed under a signature stays landed with the same figures, while the two token accounts may come and go; a record always has the figures `prepare` writes, so the check for incomplete ones is left out.
- RecoverEconomics.ConfirmedLandingPays: asks for wallet, payer and fee destination to differ. The engine compares the wallet and the payer with the destination when it quotes (server/recover/engine.ts:44) and never with each other; that these two differ follows from the signed check, which asks for both as the two signers of a message with distinct keys (PhantomSigners.SignersKeepSlots).
- PhantomCharge.LedgerChargedExactly: the fee is any function of the number of signatures and the compute-budget data that is positive on the prepared message; headers fit the key list, as above, and an account may be left with any balance that is not negative.
- Receipts of the Recover engine such as events and timestamps, except that recording one may fail.
- Pricing.UsdMicros: takes the price as text; the source turns a JSON number into text first, and an exponent form is then malformed. Caching, age and confidence checks of the price provider are left out.
- Pricing.ReimbursementNeverUndercharges: with the multiplier as a real number, as in the next line.
- Pricing.EffectiveAtMost: the scaled multiplier is a real number multiplied exactly, where the source multiplies doubles before rounding down.
- Amounts.ParsersAgree: at multiplier one; the parsers hand other multipliers to a library.
- SwapQuote.CreateQuote: route building, account checks and fee estimation of an attempt are one answer, the network fee or a failure.
- TokenSettlement.SwapSettles: what the routed swap does is a hypothesis; it is assumed to take the routed input from the source and to leave the other settlement accounts alone; the minimum output and the payer's lamports are not modelled.
- TokenSettlement.SendSettles: creation of the recipient's account and the payer's lamport delta are not modelled.
- ClaimSettlement.ClaimSettles: compute-budget instructions move nothing, and an account in the ledger may be closed by its wallet; the network's rent-exempt minimum for the wallet after the transfer is not modelled, so a wallet left with a positive balance below it counts as a run; freezing, delegates and wrapped SOL are excluded by the discovery checks, which are not part of this model.
- Eip712Commitment.EncoderReadsData: an array or a buffer where a struct is expected is refused, where the source would look for properties on it; absent properties are undefined as in the source.
- RelayIdentifier.IdentifierDecides: the final hexadecimal text of the 32 bytes is not modelled, nor properties an order may carry beyond its interface.
- Token-account byte inspection, Jupiter route field checks and Relay quote field checks: long conjunctions that one reading settles.
- Token registry `list` and `evaluate`, operator metrics and public statistics.
