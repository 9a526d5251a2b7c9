# Formal model of the cloud billing and provisioning backend

A Dafny project that models the stateful core of the backend and proves properties of every
run of it: the worker's job protocols, the affiliate ledger, the ISO listing, the Dokploy
mirror, invoice and payment transitions, and the blog tag literal.
`dafny verify dfyconfig.toml` checks everything.

## How it is modelled

* **Protocols.** Where several workers or requests race, a module has a `State`, an `Event` per
  SQL statement, transaction or provider call, a total `Step`, and `Run` over any sequence of
  events. An event whose handler is not at that statement changes nothing, so a sequence is an
  arbitrary interleaving of any number of workers, retries, crashes and requests. Provider
  answers, database failures and job attempts are event parameters.
* **Loops and updated rows.** Loops of the source are methods with invariants; tables that a
  handler updates are classes (`OrphanTable`, `Affiliate`, `Mirror`, `DatabaseMirror`), whose
  methods are specified by functions on values about which the lemmas are proved.
* **Money** is exact `real`; the floating-point error of the commission is an explicit term.
* **Constraints.** Unique indexes come from `backend/internal/platform/migrate/schema.sql`; a
  PostgreSQL error inside a transaction aborts all of it.

| module | source |
|---|---|
| `IsoRegistration`, `IsoAdoption` | `backend/cmd/worker/main.go`, `backend/internal/api/handlers_isos.go` |
| `ProvisionLock`, `InstanceLifecycle`, `OrphanReconciliation` | `backend/cmd/worker/main.go`, `backend/internal/api/handlers_admin_ops.go` |
| `Commission`, `CurrencyOrder`, `AffiliateLedger`, `WithdrawInterleaving`, `ConcurrentWithdrawals`, `ReferralCodes` | `backend/internal/affiliate/service.go` |
| `Wallet` | `backend/internal/wallet/service.go` |
| `IsoViews` | `backend/internal/api/handlers_isos.go` |
| `MirrorPass`, `DokployMirror`, `DokployDatabases` | `backend/internal/api/handlers_dokploy.go` |
| `Billing` | `backend/internal/api/handlers_admin_billing.go`, `backend/internal/api/handlers_orders_invoices.go` |
| `TagArray` | `backend/internal/api/handlers_blog.go` |

## Where the code differs from what its comments say

Each of these is proved over all inputs or runs, as an exact condition where there is one.

* **ISO rows created by URL are never registered.** They are inserted as 'registering', the
  claim gate refuses that status, and the retry endpoint only queues another job
  (`ByUrlRowsNeverRegister`); `ActiveReachability` says exactly which rows can still become active.
* **A resolved orphan that is listed again makes every tick fail**, because the unique index
  covers resolved rows too; accounts resolve each other's orphans, so two accounts with an orphan
  each suffice (`TickFailsExactly`, `ReappearanceAlwaysFails`, `SecondTickFails`).
* **A withdrawal marks more than it credits** when an earning commits between the summing query
  and the UPDATE of its currency (`WithdrawGap`, `GapIsZeroExactly`, `LateEarningIsLost`, and over
  whole runs `PaidMinusCredited`, `ConservedExactly`, `LossOccurs`); an UPDATE by the collected
  ids would not (`NoGapByIds`, `ByIdsConserves`).
* **A mapped instance can get a second machine**: a sync stores the id without the lock, and a
  provision handler that loaded the row before does not look again before its create call
  (`CreateAfterMappingExactly`, `SyncOvertakesProvision`; under the lock at most one,
  `AtMostOneCreateAfterMapping`).
* **A paid invoice can become void** when a void request read it before it was paid
  (`SettlementIsFinalExactly`, `PaidInvoiceIsVoided`).
* **A repeated top-up approval does not "continue as success"**: the violated unique index has
  already aborted the transaction, so nothing of it commits (`SecondApprovalIsNoop`,
  `LateApprovalOnlyEnds`, `ApprovalsOverlap`).
* **Suspension jobs have no guard**: on a terminated instance they bring back a live status, and
  a replayed terminate job destroys the machine again (`SuspensionJobReopensTermination`); a
  handler already in flight can do the same to the status (`RevivalExactly`,
  `SyncRevivesTerminated`).
* **The closing write of a registration ignores deletion**: a row deleted meanwhile ends deleted,
  yet 'active' and mapped (`DeletedRowIsStillMapped`).
* **Tags with a comma or a double quote do not survive** the round trip (`RoundTripExactly`).
* **A large page number overflows** the page offset (`PageIsRightExactly`).

## Model

| member | source | states |
|---|---|---|
| `IsoRegistration.ClaimExclusion` | backend/cmd/worker/main.go:2106-2124 | in every interleaving at most one execution per ISO row is between the claim gate and its closing write; each execution issues at most one create call, none before its claim; a row is claimed at most once more than it recorded failures |
| `IsoRegistration.StepKeepsInv` | backend/cmd/worker/main.go:2063-2336 | every statement of the worker, the API and every crash keeps the inductive invariant |
| `IsoRegistration.RunKeepsInv` | backend/cmd/worker/main.go:2063-2336 | the invariant holds along every run |
| `IsoRegistration.GateAdmitsOne` | backend/cmd/worker/main.go:2106-2124 | while one execution holds a row, no event of another takes that one past the gate |
| `IsoRegistration.HeldRowIsSafe` | backend/cmd/worker/main.go:2245-2323 | no event of another execution changes a row that is held |
| `IsoRegistration.MappingAndDeletionArePermanent` | backend/cmd/worker/main.go:2300-2323 | over every run a stored external id is never replaced, and a soft delete never undone |
| `IsoRegistration.ActiveReachability` | backend/cmd/worker/main.go:2106-2124 | a live row can become active if and only if it is not 'registering' or is held by an execution that can still close it |
| `IsoRegistration.UnregistrableForever` | backend/internal/api/handlers_isos.go:671-723 | a row that nobody can finish stays so under every later sequence of jobs and retries |
| `IsoRegistration.StrandedForever` | backend/cmd/worker/main.go:2106-2124 | a live 'registering' row without an execution leaves that status only by deletion |
| `IsoRegistration.ByUrlRowsNeverRegister` | backend/internal/api/handlers_isos.go:359-363 | rows inserted as 'registering' are never active or failed in any continuation |
| `IsoRegistration.NonFinalFailureStrands` | backend/cmd/worker/main.go:2318-2325 | a claimant that fails before its final attempt strands its row for ever |
| `IsoRegistration.InsertExactly` | backend/internal/api/handlers_isos.go:637-642 | an upload starts live, 'uploaded' and unmapped, a by-URL row 'registering'; a job is queued when enqueueing succeeded; nothing else changes |
| `IsoRegistration.DeleteExactly` | backend/internal/api/handlers_isos.go:466-475 | deletion marks exactly the one live row deleted and 'removed', keeping its mapping |
| `IsoRegistration.RetryExactly` | backend/internal/api/handlers_isos.go:671-717 | a job is queued exactly for a live row that is not active and has no live job; no row changes |
| `IsoRegistration.StartExactly` | backend/cmd/worker/main.go:2083-2099 | a queued job starts exactly on a live row that is not registered |
| `IsoRegistration.ProposeStep` | backend/cmd/worker/main.go:2327-2336 | a listed image is taken up unless the ownership query succeeds and finds a live owner |
| `IsoRegistration.FinishStep` | backend/cmd/worker/main.go:2300-2311 | the closing write stores exactly the adopted image unless another row of the provider, deleted or not, has it |
| `IsoRegistration.GiveUpStep` | backend/cmd/worker/main.go:2318-2325 | a failure is recorded exactly by a final attempt on a row that still lives |
| `IsoRegistration.UploadRegisters` | backend/cmd/worker/main.go:2106-2159 | from every state an uploaded row is registered by its own job with the proposed image, without a create call |
| `IsoRegistration.CreatedImageRegisters` | backend/cmd/worker/main.go:2245-2296 | a claimed row is registered through one create call with the image that appears |
| `IsoRegistration.RefusedCallFails` | backend/cmd/worker/main.go:2251-2253 | a refused create call ends 'failed' for the final attempt and 'registering' for any other |
| `IsoRegistration.DeletedRowIsStillMapped` | backend/cmd/worker/main.go:2300-2311 | a row deleted while its job runs ends deleted, yet 'active' and mapped |
| `IsoAdoption.ScanBefore` | backend/cmd/worker/main.go:2144-2159 | adopts the first fitting listed image, and otherwise returns the set of all listed ids |
| `IsoAdoption.PollAfter` | backend/cmd/worker/main.go:2274-2292 | one poll adopts the first new match, or late in the wait the only new image, never a system or claimed one; it adopts none exactly when nothing qualifies |
| `IsoAdoption.AwaitImage` | backend/cmd/worker/main.go:2255-2296 | over any sequence of rounds with failing listings and changing claims: adopts in the first round that offers an image, times out in the first round past the deadline that offers none, and is cancelled exactly when every round is barren and in time |
| `IsoAdoption.Register` | backend/cmd/worker/main.go:2144-2296 | create is called exactly when no free match was listed; an adopted image is the first such match, or one that was not listed before the call; when nothing is adopted no round offered anything |
| `IsoAdoption.AdoptableExactly` | backend/cmd/worker/main.go:2274-2292 | what a poll may adopt, read off the listing: new, not the system's, unclaimed, and matching or the only new image late in the wait |
| `IsoAdoption.FitsExactly` | backend/cmd/worker/main.go:2153-2156 | what the scan before the call may adopt: a matching, unclaimed image that is not the system's |
| `ProvisionLock.ProvisioningIsSerialised` | backend/cmd/worker/main.go:424-439 | with handlers shorter than the lock's lifetime, in every run: one handler at a time, no release of a foreign lock, one write of external_vm_id, creates at most one more than the attempts that ended unmapped |
| `ProvisionLock.CreatesAfterMapping` | backend/cmd/worker/main.go:487-497 | from every state with a stored id and along every run the id never changes, no attempt that loads the row later gets ready to create, and further create calls come one each from handlers that were ready before |
| `ProvisionLock.CreateAfterMappingExactly` | backend/cmd/worker/main.go:620-625 | a mapped instance can get another machine if and only if a handler loaded its row before the id was stored and has not called create yet |
| `ProvisionLock.AtMostOneCreateAfterMapping` | backend/cmd/worker/main.go:424-439 | with handlers shorter than the lock's lifetime that is at most one machine, whatever follows |
| `ProvisionLock.SyncOvertakesProvision` | backend/cmd/worker/main.go:917-943 | a run in which a sync stores the id between a handler's load and its create call |
| `ProvisionLock.StepKeepsInv` | backend/cmd/worker/main.go:605-661 | every step of handlers, clock, syncs and crashes keeps lock ownership and the counts |
| `ProvisionLock.SlowHandlerLosesLock` | backend/cmd/worker/main.go:424-439 | for every longer bound there is a run with two handlers inside and one in which a release deletes another's lock |
| `ProvisionLock.LockIsSafeExactlyBelowTtl` | backend/cmd/worker/main.go:57-60 | exclusion, and safe release, hold in all runs if and only if handlers are shorter than the lock's lifetime |
| `ProvisionLock.QueueTimeoutLeavesMargin` | backend/internal/platform/queue/queue.go:86 | with the queue's five-minute limit on a handler, the lock is safe if and only if the release, which that limit does not cover, takes less than the five minutes left |
| `ProvisionLock.AttemptMaps` | backend/cmd/worker/main.go:424-661 | from every state without an id and a live lock, a complete attempt stores the id it finds, calls create once and frees the lock |
| `ProvisionLock.FailedAttemptFrees` | backend/cmd/worker/main.go:424-439 | a failed attempt frees the lock, so the next handler enters at once |
| `ProvisionLock.AcquireExactly` | backend/cmd/worker/main.go:424-433 | a handler enters exactly when no unexpired lock is stored, and then holds one for ten minutes |
| `ProvisionLock.ReleaseOwn` | backend/cmd/worker/main.go:434-439 | a release deletes the lock that carries the handler's job |
| `ProvisionLock.ReleaseForeign` | backend/cmd/worker/main.go:434-439 | a release that finds another job's lock, or none, leaves the key alone |
| `ProvisionLock.ResolveExactly` | backend/cmd/worker/main.go:643-659 | the id found by name is stored exactly when none is stored yet |
| `ProvisionLock.SyncExactly` | backend/cmd/worker/main.go:917-943 | a sync stores an id exactly when none is stored yet, without the lock |
| `InstanceLifecycle.DeletedAtIsPermanent` | backend/cmd/worker/main.go:1308-1311 | no modelled step ever clears deleted_at |
| `InstanceLifecycle.SettledForever` | backend/cmd/worker/main.go:1263-1311 | with only terminate handlers in flight and no suspension job, the status stays deleted and destroy calls are limited to handlers that had loaded the row; a replay alone makes none |
| `InstanceLifecycle.RevivalExactly` | backend/cmd/worker/main.go:854-984 | a terminated row can show another status without a suspension job if and only if a handler other than terminate had read it before |
| `InstanceLifecycle.SyncRevivesTerminated` | backend/cmd/worker/main.go:954-964 | from every live mapped row there is a run without suspension jobs in which a sync overwrites the status of the terminated row |
| `InstanceLifecycle.SuspensionJobReopensTermination` | backend/cmd/worker/main.go:1337-1383 | from every terminated, mapped row a suspension job leads to a live status and a second destroy call |
| `InstanceLifecycle.AdminSuspendAlone` | backend/internal/api/handlers_admin_ops.go:116-136 | exactly a row that is not deleted, suspended or being deleted ends suspended; nothing else changes |
| `InstanceLifecycle.AdminUnsuspendAlone` | backend/internal/api/handlers_admin_ops.go:138-158 | exactly a suspended row that is not deleted ends active; nothing else changes |
| `InstanceLifecycle.SuspensionJobsAlone` | backend/cmd/worker/main.go:1359-1383 | the jobs write the same statuses from every status, deleted rows included |
| `InstanceLifecycle.SuspensionRoundTrip` | backend/internal/api/handlers_admin_ops.go:116-158 | suspending and lifting restores an active row exactly, by endpoints and by jobs |
| `InstanceLifecycle.WorkerJobsAlone` | backend/cmd/worker/main.go:954-964 | a sync writes the reported status, provisioning 'provisioning', on which rows each |
| `InstanceLifecycle.TerminateAlone` | backend/cmd/worker/main.go:1263-1311 | a mapped row is deleted after one confirmed destroy call; a refused call leaves it; a deleted one sees no call |
| `InstanceLifecycle.TerminateUnmapped` | backend/cmd/worker/main.go:1267-1311 | a row without a machine is deleted without a destroy call |
| `OrphanReconciliation.OrphanTable.Record` | backend/cmd/worker/main.go:2458-2480 | an unknown id gets one open row with the account and payload, an open one keeps its account and takes the payload; fails, changing nothing, exactly when the id's row is resolved |
| `OrphanReconciliation.OrphanTable.ResolveStale` | backend/cmd/worker/main.go:2482-2518 | resolves exactly the open rows that the listing does not show |
| `OrphanReconciliation.OrphanTable.ResolveByAdmin` | backend/internal/api/handlers_admin_ops.go:422-451 | closes exactly the one open row named, and nothing else |
| `OrphanReconciliation.OrphanTable.RecordListing` | backend/cmd/worker/main.go:2448-2480 | the loop over a listing: ids by the reference semantics, accounts and payloads by row |
| `OrphanReconciliation.OrphanTable.VisitAccount` | backend/cmd/worker/main.go:2417-2518 | the loops refine the set semantics of one account; new rows carry its id and the last listed payload, open ones keep their account and take it, all other rows change only to resolved |
| `OrphanReconciliation.OrphanTable.Tick` | backend/cmd/worker/main.go:2387-2523 | the tick refines the fold over accounts, and keeps one row per external id |
| `OrphanReconciliation.SightClosedForm` | backend/cmd/worker/main.go:2448-2480 | a listing is recorded in full if and only if none of its orphans has a resolved row |
| `OrphanReconciliation.VisitClosedForm` | backend/cmd/worker/main.go:2417-2518 | open orphans U become (U ∩ V) ∪ (V \ L); a failed listing changes nothing; fails exactly on a resolved orphan |
| `OrphanReconciliation.TickFailsExactly` | backend/cmd/worker/main.go:2464-2470 | the whole tick fails if and only if some account lists an orphan that was resolved before the tick or dropped by an account earlier in it |
| `OrphanReconciliation.OpenExactly` | backend/cmd/worker/main.go:2482-2518 | after a successful tick an id is open if and only if it was open and no listed account drops it, or it is an orphan of some account and no listed account after that one drops it |
| `OrphanReconciliation.OpenLiesInLastListing` | backend/cmd/worker/main.go:2482-2518 | after a successful tick everything open lies in the last listed account's listing, and contains its orphans |
| `OrphanReconciliation.ResolvedIsTerminal` | backend/cmd/worker/main.go:2458-2518 | through every tick, failed ones included, rows stay and resolved rows stay resolved |
| `OrphanReconciliation.ReappearanceAlwaysFails` | backend/internal/platform/migrate/schema.sql:1690-1702 | once resolved, an orphan makes every later tick that lists it fail, whatever ticks and manual resolutions lie between |
| `OrphanReconciliation.SecondTickFails` | backend/cmd/worker/main.go:2417-2518 | an orphan of one account that the last listed account does not show makes the tick after a successful one fail |
| `OrphanReconciliation.SingleAccountIsStable` | backend/cmd/worker/main.go:2417-2518 | with one account an unchanged listing changes nothing |
| `Commission.CommissionIsHalfUpNearestCent` | backend/internal/affiliate/service.go:204-213 | for four-decimal inputs the commission is the half-up nearest cent, within half a cent, and unchanged by any evaluation error up to 1e-9 |
| `Commission.ErrorAbsorbed` | backend/internal/affiliate/service.go:204-213 | errors in [-1e-9, 9e-9) never change a four-decimal product's cent |
| `Commission.ToleranceIsExact` | backend/internal/affiliate/service.go:204-213 | that interval is exact: every error outside it rounds some product wrongly |
| `Commission.HalfUpExactlyUnlessJustBelowTie` | backend/internal/affiliate/service.go:204-213 | off the grid the result is half-up if and only if the amount is not in the last 1e-9 below a tie |
| `Commission.CommissionIsMonotone` | backend/internal/affiliate/service.go:204-213 | never negative, and monotone in base and percent |
| `Wallet.ApplyKeepsSound` | backend/internal/wallet/service.go:59-102 | an accepted transaction appends one entry; balances stay the net of their entries and non-negative, keys unique |
| `Wallet.ApplyExactly` | backend/internal/wallet/service.go:59-102 | which transactions are accepted, why others are not, and the one balance and the one entry an accepted one writes |
| `Wallet.EnsureWalletKeepsSound` | backend/internal/affiliate/service.go:390-395 | opening a wallet at zero keeps the books sound |
| `CurrencyOrder.SortCurrencies` | backend/internal/affiliate/service.go:421-433 | the in-place insertion sort leaves a sorted permutation |
| `CurrencyOrder.LessIsLexicographic` | backend/internal/affiliate/service.go:427-431 | the order compares at the first difference, a proper prefix coming first |
| `AffiliateLedger.AccrualAddsRightfulRows` | backend/internal/affiliate/service.go:224-323 | an accrual keeps all rows and adds at most two, each to the right parties, currency and amount, none for a pair that has one, a bonus only after a commission |
| `AffiliateLedger.AccrualIsComplete` | backend/internal/affiliate/service.go:224-323 | every row an invoice owes is there after its accrual, unless one of its kind was before |
| `AffiliateLedger.AccrualIsIdempotent` | backend/internal/affiliate/service.go:224-323 | a repeated accrual leaves the state equal |
| `AffiliateLedger.AccrualReplies` | backend/internal/affiliate/service.go:236-291 | which accruals report a missing invoice or an unreadable payer; every other one succeeds |
| `AffiliateLedger.Affiliate.RecordCommission` | backend/internal/affiliate/service.go:224-323 | the accrual's branches and its two inserts under the unique index refine the accrual function, each error and no-op case included |
| `AffiliateLedger.Affiliate.Reverse` | backend/internal/affiliate/service.go:592-610 | only an approved earning is reversed; unknown and settled ones are refused |
| `AffiliateLedger.ReversalExactly` | backend/internal/affiliate/service.go:592-610 | reversal succeeds if and only if the earning is approved, and then changes that status alone; a refusal changes nothing |
| `AffiliateLedger.SettingsChangeExactly` | backend/internal/affiliate/service.go:475-509 | which inputs are refused, and which value each field takes |
| `AffiliateLedger.SumPayable` | backend/internal/affiliate/service.go:352-376 | the totals map has exactly the user's payable currencies, each with its sum |
| `AffiliateLedger.SortedKeys` | backend/internal/affiliate/service.go:421-433 | the keys of the map, each once, ascending |
| `AffiliateLedger.PayOut` | backend/internal/affiliate/service.go:385-415 | the credit-and-mark loop refines paying the currencies one by one; a refused credit means a non-positive amount |
| `AffiliateLedger.Affiliate.Withdraw` | backend/internal/affiliate/service.go:335-419 | exactly the approved commissions the user referred and bonuses the user was referred for turn paid, exactly the organization's wallets rise, each by the total of its currency; nothing to withdraw exactly when there is no such row; a refusal changes nothing |
| `AffiliateLedger.WithdrawalPays` | backend/internal/affiliate/service.go:352-414 | the same of every atomic withdrawal, by row columns and wallet balances |
| `AffiliateLedger.MarkMovesOwed` | backend/internal/affiliate/service.go:402-409 | marking a currency moves exactly what was owed in it to paid, and nothing in any other |
| `AffiliateLedger.StepKeepsInv` | backend/internal/affiliate/service.go:224-419 | every accrual, settings change, withdrawal and reversal keeps the ledger invariant |
| `AffiliateLedger.AffiliateConservation` | backend/internal/affiliate/service.go:335-419 | in every run and currency payout credits equal the amounts of paid earnings; one earning per invoice and kind; wallets balance |
| `AffiliateLedger.EarningsEvolve` | backend/internal/affiliate/service.go:592-610 | between any two points of a run earnings keep all but their status, and paid and reversed are terminal |
| `AffiliateLedger.PaidAtMostOnce` | backend/internal/affiliate/service.go:387-414 | over a run an earning is paid at most once, and exactly once if it ends paid |
| `AffiliateLedger.ReversedIsNeverReaccrued` | backend/internal/affiliate/service.go:592-599 | a reversed earning stays the only row of its invoice and kind |
| `AffiliateLedger.EarningsHaveProvenance` | backend/internal/affiliate/service.go:288-320 | in every run no user earns from their own invoice, and each bonus has an earlier commission |
| `WithdrawInterleaving.WithdrawGap` | backend/internal/affiliate/service.go:352-414 | marked minus credited is exactly the sum of the user's earnings in that currency that committed between the query and its UPDATE; other currencies are untouched |
| `WithdrawInterleaving.GapIsZeroExactly` | backend/internal/affiliate/service.go:387-414 | with positive amounts the gap is zero if and only if no such earning committed |
| `WithdrawInterleaving.LateEarningIsLost` | backend/internal/affiliate/service.go:387-414 | whatever is being paid, an earning that commits right after the query loses its whole amount |
| `WithdrawInterleaving.ReversedInTimeIsNotLost` | backend/internal/affiliate/service.go:402-409 | a late earning reversed before the UPDATE leaves no gap |
| `WithdrawInterleaving.DisturbExactly` | backend/internal/affiliate/service.go:592-599 | what other transactions may change meanwhile, by row columns |
| `WithdrawInterleaving.NoGapByIds` | backend/internal/affiliate/service.go:352-376 | updating the collected ids pays exactly what was credited under every interference |
| `WithdrawInterleaving.OwedSplitsAtQuery` | backend/internal/affiliate/service.go:352-414 | what an UPDATE finds payable is what the query summed plus what committed since |
| `ConcurrentWithdrawals.StepKeepsInv` | backend/internal/affiliate/service.go:335-419 | every statement of any number of concurrent withdrawals, accruals and reversals keeps the lock and money invariant |
| `ConcurrentWithdrawals.OneWithdrawalPerUser` | backend/internal/affiliate/service.go:352-360 | the row locks alone keep two withdrawals of one user from being past their queries together |
| `ConcurrentWithdrawals.PaidMinusCredited` | backend/internal/affiliate/service.go:352-414 | over every interleaving and currency, paid minus credited is exactly the total of the rows withdrawals marked without collecting, all committed after their query; no row is paid by two withdrawals |
| `ConcurrentWithdrawals.LateExactly` | backend/internal/affiliate/service.go:402-409 | the rows marked without credit are exactly the user's unreversed rows in a paid currency between the query's snapshot and that currency's UPDATE snapshot |
| `ConcurrentWithdrawals.ConservedExactly` | backend/internal/affiliate/service.go:387-414 | credits never exceed what is marked paid, and equal it if and only if no withdrawal overtook an earning of its user in that currency |
| `ConcurrentWithdrawals.ByIdsConserves` | backend/internal/affiliate/service.go:363-376 | updating the collected ids conserves money in every interleaving |
| `ConcurrentWithdrawals.LossOccurs` | backend/internal/affiliate/service.go:402-409 | for any two earnings of one user and currency, a run that marks both and credits one |
| `ConcurrentWithdrawals.UndisturbedIsAtomic` | backend/internal/affiliate/service.go:335-419 | run statement by statement without interference, a withdrawal turns exactly the rows due paid and credits each currency with their total |
| `ConcurrentWithdrawals.QueryExactly` | backend/internal/affiliate/service.go:352-376 | a query collects exactly the due rows its snapshot shows, once nobody else holds one |
| `ConcurrentWithdrawals.ReverseExactly` | backend/internal/affiliate/service.go:592-599 | an earning is reversed exactly when it is approved and not locked |
| `ConcurrentWithdrawals.AbortExactly` | backend/internal/affiliate/service.go:346-350 | a rolled back withdrawal leaves no trace |
| `ReferralCodes.ReferralCodeFromBytes` | backend/internal/affiliate/service.go:39-63 | byte values modulo 32 map in order to A-Z and 2-7, the base32 alphabet of section 6 of RFC 4648 |
| `ReferralCodes.StepKeepsInv` | backend/internal/affiliate/service.go:66-107 | every statement of every call keeps the invariant, and no stored code changes |
| `ReferralCodes.CodesAreAllocatedOnce` | backend/internal/affiliate/service.go:66-107 | in every interleaving a user's code is written at most once, is well formed and unique, and is what every successful call returned |
| `ReferralCodes.CallsAgree` | backend/internal/affiliate/service.go:66-107 | two successful calls for one user return the same code however far apart |
| `ReferralCodes.BeginExactly` | backend/internal/affiliate/service.go:66-79 | a call errs exactly for a missing or deleted user, returns a stored code, and otherwise tries to allocate |
| `ReferralCodes.UpdateExactly` | backend/internal/affiliate/service.go:80-98 | an UPDATE stores and returns a free code exactly on a live user without one; a collision costs one of five attempts |
| `ReferralCodes.RereadExactly` | backend/internal/affiliate/service.go:99-106 | a re-read returns the stored code or costs an attempt |
| `ReferralCodes.RefusedExactly` | backend/internal/affiliate/service.go:66-107 | exactly how a call comes to be refused |
| `ReferralCodes.CallAllocates` | backend/internal/affiliate/service.go:66-98 | a call by a live user without a code stores and returns the first free code it draws |
| `ReferralCodes.CollisionsRefuse` | backend/internal/affiliate/service.go:80-107 | colliding draws cost one attempt each and the fifth refuses the call |
| `IsoViews.ProviderViews` | backend/internal/api/handlers_isos.go:248-262 | one entry per provider image, and an index of the last position of each id |
| `IsoViews.MergedViews` | backend/internal/api/handlers_isos.go:231-281 | the index-based loops compute the merge by definition |
| `IsoViews.LocalRowSurvivesExactly` | backend/internal/api/handlers_isos.go:263-279 | for all lists a local row is visible if and only if it is unmatched or no later local row has its external id |
| `IsoViews.NoRowIsShownTwice` | backend/internal/api/handlers_isos.go:263-279 | for all lists no local row appears at two positions |
| `IsoViews.MergeOfDistinctLists` | backend/internal/api/handlers_isos.go:231-281 | with distinct ids provider positions are kept, each overlaid by its local row or untouched, unmatched rows follow in order, every local row is visible |
| `IsoViews.EntriesByColumn` | backend/internal/api/handlers_isos.go:248-276 | column by column what each provider position shows, with and without a matched local row |
| `IsoViews.PaginateViews` | backend/internal/api/handlers_isos.go:283-295 | the clamped slice is the page at the wrapped offset, or invalid when that is negative |
| `IsoViews.PagesReproduceList` | backend/internal/api/handlers_isos.go:283-295 | the first n pages are the first n * perPage entries, so enough pages are the whole list |
| `IsoViews.PagePastTheEndIsEmpty` | backend/internal/api/handlers_isos.go:286-289 | a page past the end is empty while its offset fits an int |
| `IsoViews.PageIsRightExactly` | backend/internal/api/handlers_isos.go:286-294 | the page asked for is returned if and only if its offset fits an int or wraps past the end |
| `IsoViews.LargestPageIsInvalid` | backend/pkg/httputil/httputil.go:39-60 | a page number the parser accepts for which the slice is invalid |
| `MirrorPass.MergedClosedForm` | backend/internal/api/handlers_dokploy.go:341-351 | after the upsert loop each id holds its last stored item or is untouched |
| `MirrorPass.DeleteUnseen` | backend/internal/api/handlers_dokploy.go:352-362 | in whatever order, exactly the unseen existing ids are deleted and counted |
| `MirrorPass.MergedMinus` | backend/internal/api/handlers_dokploy.go:341-362 | deleting unseen ids after the upserts never touches a stored row |
| `DokployMirror.Mirror.StoreItems` | backend/internal/api/handlers_dokploy.go:341-351 | the upsert loop: table, seen ids and counters under any insert failures |
| `DokployMirror.Mirror.UpsertItems` | backend/internal/api/handlers_dokploy.go:326-364 | the new table, synced + failed = number of items, and the removed count, under any database failures |
| `DokployMirror.FirstScalarDecides` | backend/internal/api/handlers_dokploy.go:648-669 | the first key holding a scalar decides the text; without one it is empty |
| `DokployMirror.ItemIdByField` | backend/internal/api/handlers_dokploy.go:366-387 | which field carries the id of each entity, in which order fields count, and when an item has none |
| `DokployMirror.ItemIsStoredUnderItsField` | backend/internal/api/handlers_dokploy.go:432-624 | an item is stored under the string in its entity's own field; an environment also needs its project |
| `DokployMirror.MirrorAgreement` | backend/internal/api/handlers_dokploy.go:326-364 | under any failures: the keys are those stored plus those not deleted, nothing stored in a pass is deleted in it, each stored id holds its last item, a targeted pass removes nothing |
| `DokployMirror.CleanPassKeys` | backend/internal/api/handlers_dokploy.go:352-362 | when the read and the deletions succeed the keys are stored ∪ (existing ∩ seen), whichever inserts fail |
| `DokployMirror.SyncIsIdempotent` | backend/internal/api/handlers_dokploy.go:326-364 | repeating a pass whose read and deletions succeed changes and removes nothing |
| `DokployDatabases.DatabaseMirror.StampItems` | backend/internal/api/handlers_dokploy.go:285-295 | the upsert loop of one type under any insert failures: table, seen ids and counters |
| `DokployDatabases.DatabaseMirror.SyncOne` | backend/internal/api/handlers_dokploy.go:272-307 | one answered type upserts its list and deletes the unseen rows of that type, as far as its statements succeed |
| `DokployDatabases.DatabaseMirror.Sync` | backend/internal/api/handlers_dokploy.go:244-308 | the loop over types refines the fold under any failures; counters, and exactly the unanswered types skipped |
| `DokployDatabases.DatabaseIdByField` | backend/internal/api/handlers_dokploy.go:389-397 | which field carries the id of a database item, and when it has none |
| `DokployDatabases.ListedItemEndsUnderItsField` | backend/internal/api/handlers_dokploy.go:254-308 | a listed item ends in the row of the string in its type's own field, stamped with the type |
| `DokployDatabases.DatabaseSyncClosedForm` | backend/internal/api/handlers_dokploy.go:254-308 | whichever statements fail, an id ends with the last answered type that stored it and that list's last stored item; else its row stays unless the pass of its own type deletes it |
| `DokployDatabases.DatabaseSyncIsIdempotent` | backend/internal/api/handlers_dokploy.go:254-308 | repeating a sync with the same answers, whichever statements fail in both, changes no row and removes none |
| `DokployDatabases.ListedIdEnds` | backend/internal/api/handlers_dokploy.go:285-295 | when writes succeed, a listed id ends stamped by the last answered type that lists it |
| `DokployDatabases.UnlistedIdEnds` | backend/internal/api/handlers_dokploy.go:296-304 | when writes succeed, an unlisted id keeps its row if its type was skipped and is absent otherwise |
| `DokployDatabases.TypesAreDistinct` | backend/internal/api/handlers_dokploy.go:124 | the closed form applies to the six types of the sync |
| `TagArray.PostgresStringArray` | backend/internal/api/handlers_blog.go:72-89 | the loop prints the trimmed non-empty tags, quoted and joined |
| `TagArray.ParseStringArray` | backend/internal/api/handlers_blog.go:53-70 | the loop keeps the comma-separated parts that are not empty without their quotes |
| `TagArray.RoundTripExactly` | backend/internal/api/handlers_blog.go:53-89 | parsing the printed literal gives the trimmed non-empty tags in order if and only if no tag has a comma or a double quote |
| `TagArray.SplitUndoesJoin` | backend/internal/api/handlers_blog.go:61-88 | splitting at commas undoes joining comma-free parts |
| `TagArray.QuotedTagIsChanged` | backend/internal/api/handlers_blog.go:83 | a tag with a double quote always comes back changed |
| `TagArray.TrimSpaceExactly` | backend/internal/api/handlers_blog.go:78 | only outer spaces of a tag go, and what is left neither starts nor ends with one |
| `TagArray.PrintedShape` | backend/internal/api/handlers_blog.go:72-89 | braces around the tags, each in double quotes, joined by commas |
| `TagArray.ParseUnquoted` | backend/internal/api/handlers_blog.go:53-70 | an unquoted literal parses to its non-empty parts in order |
| `Billing.VoidIsTerminal` | backend/internal/api/handlers_admin_billing.go:465-492 | in every interleaving of the four modelled endpoints (approve, void order, void invoice, cancel order) a void invoice stays void |
| `Billing.CancelExactly` | backend/internal/api/handlers_orders_invoices.go:256-297 | exactly which orders a customer cancels, exactly which invoices become void, and that nothing else changes |
| `Billing.CancelledForGood` | backend/internal/api/handlers_orders_invoices.go:284-297 | after a cancel no run settles an invoice it voided, and the order stays cancelled |
| `Billing.VoidOrderExactly` | backend/internal/api/handlers_admin_billing.go:333-367 | the same of an administrator's voiding of an order |
| `Billing.VoidInvoiceExactly` | backend/internal/api/handlers_admin_billing.go:465-492 | exactly which invoices an administrator voids |
| `Billing.ApproveInvoicePayment` | backend/internal/api/handlers_admin_billing.go:658-716 | exactly which payments are approved, and that exactly an unpaid or overdue invoice is settled in full |
| `Billing.SettlementIsFinalExactly` | backend/internal/api/handlers_admin_billing.go:465-492 | a paid invoice can stop being paid if and only if a void request had read it before; otherwise its row never changes |
| `Billing.PaidInvoiceIsVoided` | backend/internal/api/handlers_admin_billing.go:465-492 | for every unpaid invoice with a pending payment, a run that settles it in full and then voids it |
| `Billing.PaidInvoicesAreFull` | backend/internal/api/handlers_admin_billing.go:658-716 | paid invoices have paid = total and due = 0 along every run |
| `Billing.SecondApprovalIsNoop` | backend/internal/api/handlers_admin_billing.go:690-726 | approving a received top-up again changes nothing |
| `Billing.FirstApprovalCredits` | backend/internal/api/handlers_admin_billing.go:690-716 | the first approval marks a top-up received and leaves exactly one credit under its key if and only if its amount is positive, changes nothing otherwise, and disturbs no other top-up |
| `Billing.PendingTopupIsAccepted` | backend/internal/api/handlers_admin_billing.go:693-706 | the key of a pending top-up is free in every state the system can reach, so its approval credits its amount to the wallet of its organization and currency, and moves no other balance |
| `Billing.ReceivedExactly` | backend/internal/api/handlers_admin_billing.go:658-716 | over every run a top-up ends received if and only if it was, or at least one approval of it reached its transaction and its amount is positive |
| `Billing.TopupCreditedExactlyOnce` | backend/internal/api/handlers_admin_billing.go:658-726 | over every run any number n >= 1 of approvals of a positive top-up credit its wallet exactly once with its amount and mark it received; none otherwise; balances stay sound |
| `Billing.LateApprovalOnlyEnds` | backend/internal/api/handlers_admin_billing.go:700-716 | an approval that reaches its transaction after the top-up was received changes nothing but its own handler |
| `Billing.ApprovalsOverlap` | backend/internal/api/handlers_admin_billing.go:678-716 | for every pending positive top-up, a run in which two approvals overlap, one credits and the other does nothing |

## Left out

- Proxmox, VMware, Onidel and VNC handlers: thin wrappers around provider calls.
- Authentication, API keys, audience middleware: single-branch checks over foreign services.
- Lists, dashboards, click tracking, catalog editing, PDF, mail, webhooks: SQL text and row scanning.
- Events, notifications, audit entries and the provider_actions log: they feed no modelled decision except the replay check, whose only effect is one more sync.
- ISO names: the tolerant name comparison is a parameter of `IsoAdoption`; download, storage and usage limits are not modelled.
- Several instances: lock keys and rows of different instances are independent, so one instance is modelled.
- Instance service outside the worker and the admin endpoints: customer-side terminate and sync requests, and migrate, clone and snapshot jobs, are not part of this model.
- Dokploy: the mirror's queryable columns and the unwrapping of response envelopes; a row is the item itself.
- Billing.VoidIsTerminal: covers the four modelled endpoints only. Settlement by a gateway (backend/internal/payment/service.go:595-614) is not part of this model; it sets 'paid' on any invoice that is not paid yet, void ones included, so with it a void invoice can become paid.
- Billing: payment of an invoice from a wallet, and the rest of the payment service, are not part of this model.
- AffiliateLedger.Affiliate.RecordCommission: one database transaction is one atomic step, so reads of settings and invoice that straddle a concurrent commit are not modelled.
- IsoViews.PaginateViews: the sum of start and page size is not wrapped, since no slice is long enough for it to overflow.
- ConcurrentWithdrawals: wallet rows are not locked there, a credit is an entry of its withdrawal; balances are in `AffiliateLedger` and `Wallet`. A deadlock is an abort.
- Float64 representation of sums: totals are exact; only the commission carries an error term.
