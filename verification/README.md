# A verified model of the restaurant platform's commercial and operational core

This project models four parts of the server in Dafny and proves what they keep over whole runs.

**Commercial ledgers and the admin commands over them.** A subscription row (status, plan, cycle,
period) sits beside a binding row and two insert-only, versioned ledgers: free-period concessions
and charged-terms snapshots. `Concessions` and `ChargedTerms` hold the ledgers and their invariants,
`Accounts` says what each command does to one account, and the class `CommercialStore.Tables` with
`AdminCommands` and `AdminCreate` performs the commands statement by statement on the tables; every
method is proved to do to its own subscription exactly what the account function says and nothing to
any other. `AccountContents` says column by column what each command leaves stored and exactly when it
is carried out. `AccountRuns` and `AccountEntitlement` prove the promises over all runs of all commands
on one account, and `AdminRuns` executes runs of requests of any owners on the tables and proves that
every subscription's account is such a run. `ChargedTermsRace` and `ConcessionRace` split the calls at
their awaits and prove what every interleaving keeps. `Calendar` is the UTC month arithmetic that ends
a concession, checked against the year and month tables of ECMAScript's time values (section "Time
Values and Time Range" of ECMA-262).

**The canonical subscription order.** `Entitlement` and `Resolver` model when a row is entitled, how
competing rows are ranked and which row a payment activates. The comparator reads the clock; the
proofs show that its order does not depend on it.

**The in-memory limiters.** `RateLimit`, `CounterMap`, `EmitCooldown`, `VerificationResend` and
`Eviction` model mutable maps with lazy expiry, periodic cleanup and capped size. Cleanup is proved
invisible, and each limiter's bound is proved over every run.

**The cash register store and the audit pager.** `CrmpStore` is the in-memory store, `CrmpRuns`,
`CrmpNumbers` and `CrmpOpens` are its overlapping calls, and `AuditPager` is the keyset pager over a
table that grows between pages.

Instants are integers (milliseconds since the epoch), row ids from UUID generators are a counter,
and a text column is a `string`. The clock does not step back in the results about runs; results
about interleavings allow stale stamps where they say so.

## What does not hold as written

Where the code falls short of what it is for, the model keeps the code and states exactly when the
promise holds:

- `AccountEntitlement.CycleOnlyUpdateIsDropped`, `CycleIsStoredExactlyWhen`: the billing cycle is not
  among the audited fields, so an update that changes nothing else is accepted and written nowhere.
- `AccountEntitlement.ReportIsTrueExactlyWhen`, `RespelledEndCarriesCycle`: the audited fields are
  compared as text, and a column reads back in another spelling than the one an update writes. Sending
  the stored end date along counts as a change, and gets the cycle stored after all.
- `AccountContents.UnwrittenUpdateLeavesAccountExactlyWhen`: an update that cancels the subscription
  cancels its running concession first, and does not take that back when it is then refused or finds
  nothing to write.
- `ChargedTerms.NeighboursDifferExactlyWhen`, `PaddedOfferIsNeverRecognised`: snapshots store trimmed
  terms but compare untrimmed ones, so an offer with blanks around its amount appends equal terms at
  every call, and `ChargedTermsRace.PaddedOffersDoNotConverge`: of two racing calls one throws. Offers
  from the catalog are trimmed.
- `AccountEntitlement.GrantEntitlesExactlyWhenPeriodReadable`: over an unreadable period end a grant
  inserts a running concession and entitles nobody.
- `ConcessionRace.WriteKeepsFinalityExactlyWhen`, `CancelRacingReviseOverwrites`,
  `ReviseRacingCancelOverwrites`: a command that read its row before another superseded or cancelled it
  overwrites that status.
- `Concessions.StaleReaderSeesTwo`, `LapsedGrantStaysActive`: "current" compares only the end and lapsed
  rows stay active, so a reader whose clock was read before the newest row started sees two current rows.
- `AdminCreate.ApplyAdminUserSubscriptionCreate`: the insert of the subscription row itself is not
  inside the compensated part; if it throws after taking effect, the bare row stays. So does the row
  when the compensating delete has no effect.
- `RateLimit.SlidingBoundIsReached`: the file calls the limiter sliding-window; it is a fixed window,
  and 2 * maxAttempts - 1 calls fit in one window length. That bound is sharp.
- `CounterMap.CooldownKeptExactlyWhen`, `WindowResetForgetsEmission`: a new window forgets the last
  emission, so the emit cooldown is kept only inside a window.
- `EmitCooldown.EmissionsAreSpacedExactlyWhen`: a cleanup age shorter than the cooldown forgets
  emissions too early. The callers' ages are long enough.
- `VerificationResend.SendsAreSpacedExactlyWhen`, `OverlappingResendsAreNotSpaced`: the check for a
  recent email and the record of one are separated by awaits, and two callers make no check. Two
  overlapping requests send two emails at once.
- `CrmpOpens.OverlappingFailureWedgesRegister`, `CrmpNumbers.StepKeepsAccountExactlyWhen`: a failed
  open that rewinds under a later one leaves the sequence below a stored number, and the register
  can then never be opened again by opens that run one at a time.
- `CrmpStore.CorridorIsOneUnitExactlyWhen`: the in-memory close saves the shift before it checks the
  register, so a refused register leaves the shift closed.
- `CrmpRuns.GuessingAheadLosesUpdates`, `GuessingRunLosesUpdate`: a client that names an expected
  version newer than the one it read can overwrite a row it never saw.
- `AuditPager.DefaultRangeSkipsEvent`, `DeliveredExactlyWhenCoveringPageKeeps`: without dates the
  ninety-day range is recomputed for every page, so an event can fall out between pages.
- `AuditPager.GetAuditEventStats`: the counts are separate queries, so an event of the range that is
  appended between them makes the groups exceed the total.

## Model

| member | source | states |
|---|---|---|
| Calendar.MonthArithmetic | shared/commercial-concession/calendar.ts:18-37 | adding months lands in the month that many later, on the same day or that month's last one, at the same time of day |
| Calendar.MonthsAreUnique | shared/commercial-concession/calendar.ts:18-37 | a day lies in one month only, so the month arithmetic has one answer |
| Calendar.EndIsOnCalendar | shared/commercial-concession/calendar.ts:39-48 | a period of days ends that many days later and one of months that many months later, on the same day or that month's last one, both at the same time of day |
| Calendar.MonthsFollowStandard | shared/commercial-concession/calendar.ts:18-37 | every month starts on the day that ECMAScript's year formula and month table give it |
| Calendar.EndIsAfterStart | shared/commercial-concession/calendar.ts:39-48 | every accepted duration ends strictly after its start, so the later end-after-start guards never fire |
| Entitlement.EntitledMeansLiveAndUnexpired | server/subscriptionEntitlement.ts:32-114 | entitled exactly when the status is trial or active and the end that goes with it is readable and still ahead |
| Entitlement.VerdictNamesReason | server/subscriptionEntitlement.ts:32-114 | the reason given is exactly the one that applies: no row, a dead status, a missing end or one that has passed |
| Entitlement.EntitlementOnlyLapses | server/subscriptionEntitlement.ts:32-114 | a row that is entitled later was entitled before; time alone never entitles |
| Resolver.ComparatorIsTimeless | server/subscriptionResolver.ts:34-64 | the sign of the comparator is a relation of the two rows that the clock does not enter |
| Resolver.ComparatorIsStrictTotalOrder | server/subscriptionResolver.ts:47-64 | irreflexive, total on distinct ids and transitive, even when each comparison reads another clock |
| Resolver.LaterEndComesFirst | server/subscriptionResolver.ts:22-64 | among rows alike live or dead the later end of the column that governs the status comes first, a readable end before none, then the larger id |
| Resolver.PickCanonical | server/subscriptionResolver.ts:70-76 | a row of the input, absent only for an empty input |
| Resolver.PickIsFirst | server/subscriptionResolver.ts:70-76 | no row of the input precedes the picked one |
| Resolver.FirstIsPicked | server/subscriptionResolver.ts:70-76 | with distinct ids, the row nothing precedes is the one picked |
| Resolver.PickIgnoresTimeAndOrder | server/subscriptionResolver.ts:70-87 | every permutation of the rows at every two instants gives the same pick |
| Resolver.AnyEntitledIffCanonicalEntitled | server/subscriptionEntitlement.ts:150-156 | some row is entitled exactly when the canonical row is |
| Resolver.RedeliveryPicksSameRow | server/subscriptionActivation.ts:17-46 | after an activation that does not weaken the chosen row, the same options pick that row again at any time |
| Resolver.EveryRedeliveryPicksSameRow | server/db.ts:542-551 | any number of redeliveries land on the row first chosen and change no other row |
| Resolver.GetSubscriptionsByUser | server/commercial/ownerAccountSubscriptionAuthority.ts:14-20 | exactly the stored rows of the owner, whatever order the database gives |
| Resolver.DeliveryStaysExactlyWhenNoRivalPrecedes | server/subscriptionActivation.ts:17-46 | a stored row that is named by id gets the delivery; otherwise, for restaurant, plan and no options alike, the next delivery stays on a row exactly when no row it competes with precedes it |
| Concessions.ValidateTerms | server/commercial/concessions.ts:98-119 | accepted terms have a positive duration |
| Concessions.TermsAreValidExactlyWhen | server/commercial/concessions.ts:98-119 | terms are accepted exactly for 1 to 366 days or 1 to 24 months with a reason of 1 to 512 characters without outer blanks, and the first bound that fails names the error |
| Common.TrimDropsBlanks | server/commercial/concessions.ts:98-104 | trimming takes all blanks from both ends and nothing else |
| Concessions.CurrentRowIsNewestRunning | server/commercial/concessions.ts:171-191 | the current row is the newest that is active and not over |
| Concessions.OnlyNewestCanBeCurrent | server/commercial/concessions.ts:171-191 | in a chain whose rows have started, no row but the newest is current, and the scan finds exactly it or nothing |
| Concessions.AppendKeepsChain | server/commercial/concessions.ts:330-347 | an append over nothing current continues versions 1..n and leaves the older rows ended or inactive |
| Concessions.InsertKeepsChain | server/commercial/concessions.ts:309-363 | an insertion with any stamp, even an old one, keeps the ledger a chain |
| Concessions.InsertStoresNextRow | server/commercial/concessions.ts:309-363 | an insertion that is not refused stores what was asked as the next version, running to the calendar's end, and supersedes the running row and no other |
| Concessions.GrantOverRunningRow | server/commercial/concessions.ts:320-325 | a grant over a running row answers with it if unit and duration are its own and is refused otherwise |
| Concessions.ReactivationStoresNextRow | server/commercial/concessions.ts:596-630 | a reactivation is refused over a running row and otherwise stores the next version over unchanged rows |
| Concessions.ReactivationKeepsChain | server/commercial/concessions.ts:596-630 | the reactivation transaction keeps the ledger a chain |
| Concessions.InsertKeepsHistory | server/commercial/concessions.ts:309-363 | stored rows keep their terms, statuses change at most once, and a superseded row names its successor, which started before its end |
| Concessions.ReactivationKeepsHistory | server/commercial/concessions.ts:596-630 | a reactivation keeps stored terms, final statuses and successor links |
| Concessions.CancelCurrentKeepsHistory | server/commercial/concessions.ts:462-485 | a cancellation keeps stored terms, final statuses and successor links, and leaves nothing current |
| Concessions.InsertedRowIsCurrent | server/commercial/concessions.ts:309-363 | the row an insertion returns is the current one at its own stamp |
| Concessions.StaleReaderSeesTwo | server/commercial/concessions.ts:157-159 | any two active rows of a chain are both current exactly before both ends, which is before the row after the first had started |
| Concessions.LapsedGrantStaysActive | server/commercial/concessions.ts:309-363 | a grant made once another has lapsed leaves such a pair |
| Concessions.NewestFirstIsVersionOrder | server/commercial/concessions.ts:178-182 | the order by version descending is the ledger reversed |
| Concessions.LoadCurrentCommercialConcession | server/commercial/concessions.ts:171-191 | the loop returns the newest current row, or none |
| Concessions.CurrentAmongFirstRows | server/commercial/concessions.ts:207-213 | the loop with its seen set judges the first row met of each subscription and no other |
| Concessions.FirstOfIsNewest | server/commercial/concessions.ts:202-213 | in any answer ordered by version the first row met is the subscription's newest |
| Concessions.LoadSubscriptionIdsWithCurrentConcession | server/commercial/concessions.ts:193-218 | the batch reader returns the asked subscriptions whose newest row is current |
| Concessions.BatchAgreesWithSingle | server/commercial/concessions.ts:171-218 | the batch reader's set is exactly the subscriptions for which the all-versions reader finds a row |
| FirstRows.FirstOfIsEarliest | server/commercial/chargedTermsSnapshots.ts:139-145 | the row a seen-set loop keeps for a subscription is the first of its rows in the answer |
| ChargedTerms.CurrentSnapshot | server/commercial/chargedTermsSnapshots.ts:99-120 | a stored row that no other follows in the order by effectiveFrom, then version |
| ChargedTerms.CurrentIsLastInserted | server/commercial/chargedTermsSnapshots.ts:99-120 | in a chain that row is the one inserted last |
| ChargedTerms.AppendKeepsChain | server/commercial/chargedTermsSnapshots.ts:180-194 | an append stamped no earlier than the stored rows keeps versions 1..n and both orders equal |
| ChargedTerms.InsertSnapshotKeepsLedger | server/commercial/chargedTermsSnapshots.ts:152-210 | the ledger stays a chain and only grows, neighbours stay different for trimmed offers, and a webhook never adds a second snapshot |
| ChargedTerms.InsertSnapshotStores | server/commercial/chargedTermsSnapshots.ts:152-210 | an incomplete offer is refused, the newest row is returned if it says the offer or to a webhook, and else the offer is appended with its blanks removed |
| ChargedTerms.InsertSnapshotAnswersOffer | server/commercial/chargedTermsSnapshots.ts:152-210 | a returned row is current afterwards and carries the offer's terms |
| ChargedTerms.IdentityChangeKeepsLedger | server/commercial/chargedTermsSnapshots.ts:227-264 | after a plan or cycle change the newest snapshot says the offer; it is appended exactly when the newest one did not |
| ChargedTerms.ReactivationKeepsLedger | server/commercial/chargedTermsSnapshots.ts:315-358 | a paid reactivation of a complete offer always appends one snapshot, of that offer without its blanks, which is then current; an incomplete offer appends none |
| ChargedTerms.NeighboursDifferExactlyWhen | server/commercial/chargedTermsSnapshots.ts:158-194 | an admin insert keeps neighbours different exactly when it is not the current terms with blanks around them, and such a repeat stays one |
| ChargedTerms.PaddedOfferIsNeverRecognised | server/commercial/chargedTermsSnapshots.ts:166-186 | one blank before the amount is enough for such a repeat |
| ChargedTerms.KeepFirstRows | server/commercial/chargedTermsSnapshots.ts:139-145 | the loop keeps the first row met of each subscription, once |
| ChargedTerms.FirstOfIsCurrent | server/commercial/chargedTermsSnapshots.ts:129-145 | in any ordered answer the first row met is the single reader's row |
| ChargedTerms.LoadCurrentChargedTermsForSubscriptions | server/commercial/chargedTermsSnapshots.ts:122-150 | the batch reader returns each subscription's single-reader row, once, and nothing else |
| ChargedTermsRace.FreeVersionMeansFreshRead | server/commercial/chargedTermsSnapshots.ts:190-197 | an insert that the unique version key admits was based on the newest row |
| ChargedTermsRace.EveryInterleavingIsSafe | server/commercial/chargedTermsSnapshots.ts:164-210 | in every interleaving no version is duplicated, stored rows never change, and a call returns a stored row that answers it or throws |
| ChargedTermsRace.LoneCallIsInsertSnapshot | server/commercial/chargedTermsSnapshots.ts:164-210 | a call that nothing overlaps does what the ledger insertion says |
| ChargedTermsRace.RacingInsertsConverge | server/commercial/chargedTermsSnapshots.ts:164-210 | racing inserts of one trimmed offer, with no other writer and no failing read, add at most one row and all return it or the matching current one; a webhook may return the row that was current at the start; none throws |
| ChargedTermsRace.PaddedLoserThrows | server/commercial/chargedTermsSnapshots.ts:199-205 | a refused call whose offer has blanks throws though the stored row has its terms, trimmed |
| ChargedTermsRace.BothReadIsReached | server/commercial/chargedTermsSnapshots.ts:164-173 | two calls on an empty table can both have read it |
| ChargedTermsRace.PaddedOffersDoNotConverge | server/commercial/chargedTermsSnapshots.ts:180-207 | with one such offer the first then stores its row and the second throws |
| ConcessionRace.FreeVersionMeansSameRows | server/commercial/concessions.ts:331-341 | an insert that the unique version key admits was planned on the rows now stored |
| ConcessionRace.EveryInterleavingKeepsOneCurrent | server/commercial/concessions.ts:309-363 | for every interleaving of reads and writes, however stale, versions stay 1..n, terms stay, no row becomes active again, and for a reader not behind the clock only the newest row can be current |
| ConcessionRace.LoneCallIsCommand | server/commercial/concessions.ts:309-363 | a call that nothing overlaps does what the ledger function of its command says |
| ConcessionRace.WriteKeepsFinalityExactlyWhen | server/commercial/concessions.ts:349-354 | a write keeps statuses final exactly when the row it names is still active or is left as it is |
| ConcessionRace.BothLookedIsReached | server/commercial/concessions.ts:470-470 | a revision and a cancellation can both have read the row a grant left |
| ConcessionRace.CancelRacingReviseOverwrites | server/commercial/concessions.ts:479-485 | if the cancellation then writes last, superseded becomes cancelled |
| ConcessionRace.ReviseRacingCancelOverwrites | server/commercial/concessions.ts:349-354 | if the revision writes last, cancelled becomes superseded under a running successor |
| Accounts.ResolveChargedTerms | server/commercial/adminChargedTermsCompletion.ts:116-174 | an offer is made exactly for a visible plan with a positive amount and a currency; it carries the listing's own plan, amount, currency and cycle id, without blanks, and the asked cycle |
| AccountRuns.NewAccountIsSound | server/subscriptionAudit.ts:207-218 | the run invariant holds of every account without ledger rows |
| AccountRuns.GrantIsSound | server/commercial/concessions.ts:365-412 | a grant keeps both ledgers well-formed and only extends them |
| AccountRuns.ReviseIsSound | server/commercial/concessions.ts:414-460 | a revision keeps both ledgers well-formed and only extends them |
| AccountRuns.CancelIsSound | server/commercial/concessions.ts:462-510 | a cancellation keeps both ledgers well-formed and only extends them |
| AccountRuns.ReactivateIsSound | server/commercial/adminReactivation.ts:104-303 | a reactivation of either mode keeps both ledgers well-formed and only extends them |
| AccountRuns.UpdateIsSound | server/subscriptionAudit.ts:306-480 | an update, with its best-effort cancellation, keeps and only extends both ledgers |
| AccountRuns.EveryRunIsSound | server/commercial/concessions.ts:309-363 | over every run of every command, with ids not used before, both ledgers are well-formed chains that only grow, the current snapshot is the last inserted, and only the newest concession can be current |
| AdminRuns.ExecuteAdmin | server/commercial/adminConcessions.ts:33-43 | an admin request is its account function on the owner's canonical row, and nothing without one |
| AdminRuns.ExecuteAll | server/subscriptionAudit.ts:306-480 | over every sequence of requests of any owners, refusals included, every account is the run of the commands carried out on it, these had unused ids in time, and all accounts stay sound and only grow |
| AccountEntitlement.GuardJudgesWrittenRow | server/subscriptionAudit.ts:331-350 | the row the guard judged and the row any branch writes are entitled at the same instants |
| AccountEntitlement.UpdatesNeverRevive | server/commercial/adminReactivation.ts:305-329 | over every run of admin updates and cancellations an account that is not entitled never becomes entitled |
| AccountEntitlement.UpdateReportsAuditedChange | server/subscriptionAuditSnapshot.ts:57-80 | an update reports a change and writes exactly when plan, status or the text of the end differs from what is stored |
| AccountEntitlement.CommitWritesExactlyAuditedChanges | server/subscriptionAudit.ts:389-468 | whichever branch an update takes, the row is written whole, and exactly when an audited text changes |
| AccountEntitlement.CycleOnlyUpdateIsDropped | server/subscriptionAudit.ts:426-430 | an update of nothing but the billing cycle writes nothing |
| AccountEntitlement.CycleIsStoredExactlyWhen | server/subscriptionAuditSnapshot.ts:57-80 | a requested cycle is stored exactly when it was there already or an audited text changes with it |
| AccountEntitlement.ReportIsTrueExactlyWhen | server/subscriptionAuditSnapshot.ts:57-67 | the reported change is a change of the stored plan, status or end exactly when the update does not merely respell the end |
| AccountEntitlement.RespelledEndCarriesCycle | server/subscriptionAudit.ts:297-301 | the stored end sent along with a new cycle gets the cycle stored and a change reported |
| AccountEntitlement.ReactivationEntitles | server/commercial/adminReactivation.ts:149-302 | success means entitled, changed means not entitled before, a paid change adds one snapshot and no concession and entitles up to its period end, a free one adds one concession and no snapshot, anything else writes nothing |
| AccountEntitlement.CurrentConcessionEntitles | server/commercial/concessions.ts:365-460 | over every run of concession commands a current concession ends no later than the period, so its subscription is entitled |
| AccountEntitlement.GrantInsertsAndAligns | server/commercial/concessions.ts:387-401 | without a current concession a valid grant inserts the current row and aligns the period to its end |
| AccountEntitlement.GrantEntitlesExactlyWhenPeriodReadable | server/commercial/concessions.ts:523-533 | a grant that inserts entitles exactly when the stored period end is absent or readable |
| AccountEntitlement.CancellingEndsUnpaidEntitlement | server/commercial/adminConcessions.ts:90-107 | cancelling ends entitlement at that instant without charged terms and leaves the row alone with them |
| AccountEntitlement.GrantedRowIsNewest | server/commercial/concessions.ts:379-401 | the row a grant returns is the newest one and is current |
| AccountEntitlement.RepeatedGrantChangesNothing | server/commercial/concessions.ts:379-382 | repeating a grant with the same terms while it runs returns the same row and changes nothing |
| AccountContents.InactiveIsRefused | server/commercial/adminConcessions.ts:33-44 | without an active subscription a grant, revision or cancellation is refused for that reason and changes nothing |
| AccountContents.GrantStores | server/commercial/concessions.ts:365-412 | a grant refuses bad terms, answers or refuses over a running concession, and else stores what was asked on the row's plan and cycle and makes the period end the later of the two |
| AccountContents.ReviseStores | server/commercial/concessions.ts:414-460 | a revision with other terms stores them on the running concession's plan and cycle, supersedes that concession, is current and makes the period end the later of the two; the same terms change nothing, and nothing running is refused |
| AccountContents.CancelStores | server/commercial/concessions.ts:462-510 | a cancellation ends the running concession now, answers with the given reason, and ends the period now exactly without charged terms; with nothing running it reports the newest row |
| AccountContents.FreeReactivationStores | server/commercial/adminReactivation.ts:149-215 | goes ahead exactly for an unentitled row with nothing running, and stores the asked period as a concession and the row active on the asked plan and cycle until it ends; an entitled row is answered exactly when all that is there already |
| AccountContents.PaidReactivationStores | server/commercial/adminReactivation.ts:217-302 | goes ahead exactly for an unentitled row, a sellable listing and an end ahead, and stores the listing's price for the asked cycle as a new snapshot, the row active until that end and the binding on the plan |
| AccountContents.UpdateStoresWhatIsAsked | server/subscriptionAudit.ts:287-350 | an update that writes stores the resolved plan and the asked cycle, status and ends, trial dates included, and no other column |
| AccountContents.UpdateKeepsTermsWithPlan | server/subscriptionAudit.ts:379-480 | when plan or cycle changed with no concession current afterwards, the newest snapshot says the listing's offer for the new cycle, appended exactly if it is new, and the binding is on its plan or made from it; under a concession terms stay and the binding follows the row; otherwise both stay |
| AccountContents.UpdateCancelsExactlyWhen | server/subscriptionAudit.ts:365-377 | an update touches the concessions exactly to cancel the running one of a subscription it is to cancel |
| AccountContents.UnwrittenUpdateLeavesAccountExactlyWhen | server/subscriptionAudit.ts:365-430 | an update that fails or writes nothing has left the account as it was exactly when it had no running concession to cancel on the way |
| AccountContents.UpdateIsRefusedExactlyWhen | server/subscriptionAudit.ts:321-416 | an update is refused exactly for a malformed end, a revival, an unknown plan, or a plan or cycle change that nothing sells while no concession is current |
| CommercialStore.Tables.InsertVersionTransaction | server/commercial/concessions.ts:309-363 | find, refuse or supersede, and append do the ledger function's insertion to one subscription |
| CommercialStore.Tables.InsertConcessionVersion | server/commercial/concessions.ts:285-363 | the ledger insertion behind validation of unit, duration and reason |
| CommercialStore.Tables.AlignSubscriptionPeriodEnd | server/commercial/concessions.ts:512-534 | the period end becomes the later of the two, and stays when unreadable |
| CommercialStore.Tables.GrantUnderFaults | server/commercial/concessions.ts:365-412 | whatever statement throws, read fails or alignment is skipped, a grant that returns a row returns the current one; without faults it is the account function |
| CommercialStore.Tables.GrantCommercialConcession | server/commercial/concessions.ts:365-412 | the whole new account and result, and no other subscription touched |
| CommercialStore.Tables.ReviseCommercialConcession | server/commercial/concessions.ts:414-460 | the whole new account and result, and no other subscription touched |
| CommercialStore.Tables.CancelCommercialConcession | server/commercial/concessions.ts:462-510 | the whole new account and result, and no other subscription touched; without a current row the latest row is reported and nothing is written |
| CommercialStore.Tables.UpdateEnrollmentPlanIdOnly | server/commercial/concessions.ts:536-552 | only an existing binding's plan changes |
| CommercialStore.Tables.ApplyAdminFreeReactivation | server/commercial/concessions.ts:574-664 | the whole new account and result, and no other subscription touched |
| CommercialStore.Tables.InsertSnapshotRow | server/commercial/chargedTermsSnapshots.ts:175-210 | the insert under the unique version key: on any fault either no row or the next row is stored, and a returned row is current |
| CommercialStore.Tables.InsertImmutableChargedTermsSnapshot | server/commercial/chargedTermsSnapshots.ts:152-210 | whatever fails, a returned row is current and answers a trimmed offer; without faults it is the account function |
| CommercialStore.Tables.BindPlanOrInsert | server/commercial/chargedTermsSnapshots.ts:271-298 | the binding's plan is touched, or a binding is made from the offer |
| CommercialStore.Tables.ApplyAdminCommercialIdentityChange | server/commercial/chargedTermsSnapshots.ts:216-302 | the whole new account and snapshot, and no other subscription touched |
| CommercialStore.Tables.ApplyAdminPaidReactivation | server/commercial/chargedTermsSnapshots.ts:309-396 | the whole new account and result, and no other subscription touched |
| AdminCommands.ApplyAdminConcessionGrant | server/commercial/adminConcessions.ts:46-67 | on the owner's canonical row, behind the status gate, the account function; without such a row nothing changes; the tables stay valid for the next command |
| AdminCommands.ApplyAdminConcessionRevise | server/commercial/adminConcessions.ts:69-88 | on the owner's canonical row the revision does what the account function says, behind the status gate, and the tables stay valid |
| AdminCommands.ApplyAdminConcessionCancel | server/commercial/adminConcessions.ts:90-107 | on the owner's canonical row the cancellation does what the account function says, ending the period exactly when no snapshot exists, and the tables stay valid |
| AdminCommands.ApplyAdminUserSubscriptionReactivate | server/commercial/adminReactivation.ts:104-303 | on the owner's canonical row the reactivation does what the account function says, in both modes, and the tables stay valid |
| AdminCommands.BuildAdminSubscriptionUpdateData | server/subscriptionAudit.ts:287-304 | the update record filled step by step is the one the account function uses, trial dates included |
| AdminCommands.CommitUserSubscriptionUpdate | server/subscriptionAudit.ts:379-480 | the ordered writes of the three branches do what the account function says and keep the tables valid |
| AdminCommands.ApplyAdminUserSubscriptionUpdate | server/subscriptionAudit.ts:306-480 | on the owner's canonical row the update does what the account function says, and the tables stay valid |
| AdminCreate.ReadSubscriptionBinding | server/services/commercial-catalog/adoptionService.ts:488-520 | a binding reads with the current snapshot's terms laid over it |
| AdminCreate.CompleteExistingBinding | server/commercial/adminChargedTermsCompletion.ts:190-205 | a binding already there is completed only if it reads as the offer; one that does not is refused and nothing changes |
| AdminCreate.VerifyAndSnapshot | server/commercial/adminChargedTermsCompletion.ts:245-272 | success means binding and snapshot carry the offer; a failure removes the new binding |
| AdminCreate.SnapshotNewBinding | server/commercial/adminChargedTermsCompletion.ts:258-272 | without faults the first snapshot and the binding are the offer's; a failure removes the new binding |
| AdminCreate.RequestIsRefusedExactlyWhen | server/subscriptionAudit.ts:160-205 | a request is refused before any write exactly for an owner with an account row, a free period with a trial or an end date, an unknown or unsellable plan, or a malformed end, in that order |
| AdminCreate.PersistAdminCreateChargedTerms | server/commercial/adminChargedTermsCompletion.ts:176-299 | whatever fails, success means binding and current snapshot say the offer; when nothing fails a new subscription gets exactly the two |
| AdminCreate.ApplyAdminUserSubscriptionCreate | server/subscriptionAudit.ts:130-285 | refused before any write, or the row starts as asked and runs to the asked end or the default one, a trial's end with it; fail-closed: complete for the listed offer, or with the asked concession and entitled, or removed unless the compensating delete has no effect; it succeeds when nothing throws; nobody else is touched; the one exception named |
| RateLimit.RateLimiter.CleanupExpired | server/_core/rateLimit.ts:26-32 | at most once per interval, exactly the expired buckets go |
| RateLimit.RateLimiter.CheckRateLimit | server/_core/rateLimit.ts:34-60 | the verdict and new buckets of the specification, after cleanup |
| RateLimit.RateLimiter.ClearRateLimit | server/_core/rateLimit.ts:62-65 | only the cleared key goes |
| RateLimit.CleanupIsInvisible | server/_core/rateLimit.ts:26-60 | on every call sequence every verdict, remaining count and retry time is that of a limiter that never cleans |
| RateLimit.AllowedWithinBudget | server/_core/rateLimit.ts:34-60 | calls allowed in an interval never exceed what the open bucket and the next one leave |
| RateLimit.SlidingWindowBound | server/_core/rateLimit.ts:34-60 | over every run at most 2 * maxAttempts - 1 calls of a key are allowed in any half-open interval of one window length |
| RateLimit.BucketWindowBound | server/_core/rateLimit.ts:34-60 | at most maxAttempts in the window of one bucket |
| RateLimit.SlidingBoundIsReached | server/_core/rateLimit.ts:19-60 | for every window of at least two milliseconds and every limit of at least one there is a run that reaches the bound |
| RateLimit.RetryAfterIsExact | server/_core/rateLimit.ts:47-53 | refusals continue until the retry time with the remaining wait, and at it a call is allowed |
| RateLimit.CheckAnswers | server/_core/rateLimit.ts:34-60 | a check is allowed exactly while its window has calls left, counts only then, never moves the end of an open window, and says the remaining calls or the wait |
| RateLimit.RemainingIsWhatIsLeft | server/_core/rateLimit.ts:55-59 | of any number of further checks before the window ends exactly the remaining count is allowed |
| Eviction.DropOldest | server/_core/cooldownCounterMap.ts:38-43 | what is kept fits the cap and nothing kept is older than something dropped |
| CounterMap.CooldownCounterMap.Cleanup | server/_core/cooldownCounterMap.ts:34-44 | stale keys go, then only least recently seen ones above the cap; no entry changes |
| CounterMap.GoneKeysAreStaleOrOldest | server/_core/cooldownCounterMap.ts:34-44 | a key that is gone was last seen too long ago, or the map is full of keys seen no earlier; no stale key is left |
| CounterMap.CooldownCounterMap.Increment | server/_core/cooldownCounterMap.ts:46-57 | the key's entry is bumped, the others are as after the cleanup, and at most maxKeys + 1 keys remain |
| CounterMap.CooldownCounterMap.CanEmit | server/_core/cooldownCounterMap.ts:59-62 | exactly when a cooldown has passed since the entry's last emission, or since the epoch without one |
| CounterMap.CooldownCounterMap.MarkEmitted | server/_core/cooldownCounterMap.ts:64-66 | the entry handed out is the one in the map, so the mark shows there and nowhere else |
| CounterMap.StaleCleanupIsInvisible | server/_core/cooldownCounterMap.ts:34-61 | with a stale time of at least a window every count and emit decision is that of a map that never drops stale keys |
| CounterMap.CountIsHitsInWindow | server/_core/cooldownCounterMap.ts:46-57 | without eviction a count is the number of the key's hits since its window began |
| CounterMap.EmissionsPerWindowAreBounded | server/_core/cooldownCounterMap.ts:46-66 | emissions in one window number at most ceil(windowMs / emitCooldownMs) |
| CounterMap.CooldownKeptExactlyWhen | server/_core/cooldownCounterMap.ts:49-62 | the hit after an emission keeps the cooldown exactly when it is in the same window or late enough |
| CounterMap.WindowResetForgetsEmission | server/_core/cooldownCounterMap.ts:46-66 | a run from the empty map whose emission just before a window ends is followed by one as it ends |
| EmitCooldown.EmitStamps.TryConsumeEmitCooldown | server/_core/emitCooldown.ts:12-24 | consumes and stamps exactly when the cooldown has passed |
| EmitCooldown.EmitStamps.CleanupEmitCooldownStamps | server/_core/emitCooldown.ts:27-36 | exactly the stamps older than the age go |
| EmitCooldown.EmitStamps.TrimEmitCooldownStamps | server/_core/emitCooldown.ts:39-49 | at most the cap remains and nothing kept is older than something dropped |
| EmitCooldown.StampCleanupIsInvisible | server/_core/emitCooldown.ts:12-36 | dropping stamps older than the cooldown changes no decision in any run |
| EmitCooldown.EmissionsAreSpaced | server/_core/emitCooldown.ts:12-36 | in every run with cleanups, two emissions of one key are at least a cooldown apart when no stamp is dropped before its cooldown is over |
| EmitCooldown.EarlyCleanupForgetsEmission | server/_core/emitCooldown.ts:27-36 | with a shorter age, a try, a cleanup and a try emit twice within the cooldown |
| EmitCooldown.EmissionsAreSpacedExactlyWhen | server/_core/emitCooldown.ts:12-36 | emissions are spaced in all runs exactly when the age is at least the cooldown less a millisecond |
| VerificationResend.ResendMaps.CleanupVerificationResendMaps | server/auth-local/verificationResend.ts:47-68 | both maps drop what is old and are then trimmed to the cap, oldest first |
| VerificationResend.ResendMaps.TouchVerificationEmailStamp | server/auth-local/verificationResend.ts:70-75 | a known stamp is seen now and keeps its sent time |
| VerificationResend.ResendMaps.RecordVerificationEmailSent | server/auth-local/verificationResend.ts:85-87 | the actor's stamp is replaced and no other |
| VerificationResend.StepsAreTheMethods | server/auth-local/verificationResend.ts:47-87 | the steps on one actor's stamp are what the map operations do to that actor |
| VerificationResend.ExclusiveSendsAreSpaced | server/auth-local.ts:454-473 | sends of one actor that are all checked and never overlap begin at least the minimum interval apart, cleanups and all |
| VerificationResend.NotExclusiveIsNotSpaced | server/auth-local/sendVerificationEmail.ts:29-77 | every other order of steps has a timing with valid checks in which two sends begin too close |
| VerificationResend.SendsAreSpacedExactlyWhen | server/auth-local/sendVerificationEmail.ts:23-80 | an actor's sends are always spaced exactly when none begins between another's check and its record and all but the first are checked |
| VerificationResend.OverlappingResendsAreNotSpaced | server/auth-local.ts:455-473 | two overlapping requests, and a send without a check, begin in the same instant as the one before |
| CrmpStore.InMemoryCrmpStore.InsertRegister | server/crmp/InMemoryCrmpStore.ts:35-41 | refused and unchanged if the register exists, else stored |
| CrmpStore.InMemoryCrmpStore.UpdateRegister | server/crmp/InMemoryCrmpStore.ts:42-55 | refused and unchanged if absent or at another version, else replaced |
| CrmpStore.InMemoryCrmpStore.InsertShift | server/crmp/InMemoryCrmpStore.ts:68-84 | the scan refuses exactly a stored id or a stored number of that register |
| CrmpStore.InMemoryCrmpStore.SaveShift | server/crmp/InMemoryCrmpStore.ts:85-93 | compare-and-set on a stored row, plain insert of an absent one |
| CrmpStore.InMemoryCrmpStore.AllocateNextShiftNumber | server/crmp/InMemoryCrmpStore.ts:157-162 | the register's next number, others untouched |
| CrmpStore.InMemoryCrmpStore.CommitOpenShift | server/crmp/InMemoryCrmpStore.ts:233-249 | an uninterrupted open stores the created shift or rewinds the sequence |
| CrmpStore.InMemoryCrmpStore.CommitCloseCorridor | server/crmp/InMemoryCrmpStore.ts:250-258 | the two calls in order, with what each leaves when the other is refused |
| CrmpStore.CorridorIsOneUnitExactlyWhen | server/crmp/InMemoryCrmpStore.ts:250-258 | a failing close leaves everything as it was exactly when the register is not the one refused, or the shift is refused too or saved unchanged |
| CrmpRuns.AcceptedSaveIsBasedOnStored | server/crmp/InMemoryCrmpStore.ts:85-93 | an accepted save replaced the row its client had read |
| CrmpRuns.EveryInterleavingIsSafe | server/crmp/InMemoryCrmpStore.ts:68-93 | under every interleaving of opens and saves no two shifts share register and number, and no update is lost |
| CrmpRuns.VersionCountsAcceptedSaves | server/crmp/InMemoryCrmpStore.ts:85-93 | a version is the initial one plus what the accepted saves added, one each when every client adds one |
| CrmpRuns.GuessingAheadLosesUpdates | server/crmp/FinancialShiftDomainService.ts:120-128 | an accepted save is based on the stored row exactly when the expected version is one its client had read |
| CrmpRuns.OneSavedIsReached | server/crmp/InMemoryCrmpStore.ts:85-98 | two clients can both have read a shift and one have saved it |
| CrmpRuns.GuessingRunLosesUpdate | server/crmp/FinancialShiftDomainService.ts:120-128 | the other then expects the saved version unread and replaces it by a successor of the old one |
| CrmpNumbers.StepKeepsAccountExactlyWhen | server/crmp/InMemoryCrmpStore.ts:234-248 | the numbers up to the sequence stay exactly the stored and the pending ones, each once, exactly when the step is no rewind or one with no later allocation |
| CrmpNumbers.CleanRunsNeverConflict | server/crmp/InMemoryCrmpStore.ts:68-84 | in every interleaving whose rewinds are clean no insert meets its number stored |
| CrmpNumbers.UncleanRewindLosesAccount | server/crmp/InMemoryCrmpStore.ts:244-247 | a rewind under a later allocation leaves a number above the sequence in use |
| CrmpOpens.EmptyStoreIsDense | server/crmp/InMemoryCrmpStore.ts:29-32 | the numbering invariant holds of the store as it is created |
| CrmpOpens.LoneOpenIsItsSteps | server/crmp/InMemoryCrmpStore.ts:233-249 | an uninterrupted open is the three steps in a row |
| CrmpOpens.LoneOpenKeepsDense | server/crmp/InMemoryCrmpStore.ts:233-249 | it takes the next number, or fails and restores the store exactly, and fails only for a throwing create or a stored id |
| CrmpOpens.LoneOpensNumberDensely | server/crmp/InMemoryCrmpStore.ts:157-162 | over every run of opens one at a time a register's numbers are exactly 1..n, n is its sequence, and it counts the successes |
| CrmpOpens.LoneOpenSucceedsExactlyWhen | server/crmp/InMemoryCrmpStore.ts:68-84 | on any store an open of a creatable new shift succeeds exactly when the next number is not stored |
| CrmpOpens.WedgedStaysWedged | server/crmp/InMemoryCrmpStore.ts:234-248 | once the next number is stored, no later open of that register succeeds |
| CrmpOpens.OverlappingFailureWedgesRegister | server/crmp/InMemoryCrmpStore.ts:233-249 | three opens of an unused register reach such a state |
| AuditPager.BuildListConditions | server/audit/auditReadRepository.ts:41-53 | the pushed conditions hold of an event exactly when the set filter fields match it; empty texts do not filter |
| AuditPager.SelectIsPrefixOfAll | server/audit/auditReadRepository.ts:72-77 | the limited query returns the first rows of the unlimited one |
| AuditPager.ListAuditEvents | server/audit/auditReadRepository.ts:55-84 | the newest matching rows below the cursor; a next cursor exactly when more follow |
| AuditPager.PagesPartitionTheQuery | server/audit/auditReadRepository.ts:65-83 | pages so far and rows still below the cursor make up the one-query answer of the first table, whatever was appended meanwhile |
| AuditPager.PagingIsOneQuery | server/audit/auditReadRepository.ts:55-84 | paging to the end returns every matching event once, newest first, in full pages but the last |
| AuditPager.PagingEnds | server/audit/auditQueryLimits.ts:13-20 | a walk has at most one page more than the first table has rows |
| AuditPager.EndIsBelow | server/audit/auditReadRepository.ts:66-68 | the cursor only moves down |
| AuditPager.DeliveredExactlyWhenCoveringPageKeeps | server/audit/adminAuditRouter.ts:48-68 | with a filter that moves between pages an event is returned at most once, and exactly when the page covering its id keeps it |
| AuditPager.DefaultRangeSkipsEvent | server/audit/adminAuditRouter.ts:48-52 | without dates an event inside the first page's range can be returned by no page |
| AuditPager.ResolveAuditDateRange | server/audit/auditQueryLimits.ts:33-60 | an accepted range is ordered and at most ninety days, two given dates are accepted exactly when they are, and a missing one is filled from the clock and the default length |
| AuditPager.ClampAuditListLimit | server/audit/auditQueryLimits.ts:13-20 | a limit between 1 and 200, the rounded-down request when that fits |
| AuditPager.GetAuditEventStats | server/audit/auditReadRepository.ts:94-163 | each group holds its count on the table its query met, today's count is of the events since its start, and a grouping adds up to the total exactly when no event of the range was appended in between |
| AuditPager.InRangeKeepsExactly | server/audit/auditReadRepository.ts:113-121 | the range holds each event with its times, both ends included, as often as the table, and no other |

## Left out

- Database drivers, SQL building, connection failures that make readers return nothing, and the columns no decision reads.
- AdminCreate.ApplyAdminUserSubscriptionCreate: the protected-user check and the refusal of a non-zero restaurant id come before any write and are not modelled.
- AccountRuns.EveryRunIsSound: snapshot offers of a run are trimmed, as the catalog's are; `ChargedTerms.NeighboursDifferExactlyWhen` says what happens otherwise.
- AdminRuns.ExecuteAll: requests run one after another and creation is not among them; a created account without ledger rows is sound by `AccountRuns.NewAccountIsSound`, and what survives overlapping commands is in `ConcessionRace` and `ChargedTermsRace`.
- AccountEntitlement.CurrentConcessionEntitles: it needs a readable period end at the start and instants after the epoch, because an absent end counts as the epoch. It also needs the two date parsers to agree, as on a server in UTC: a bare timestamp is read as UTC by the entitlement rule and in the server's zone by the alignment and by the test for a current concession.
- ConcessionRace.EveryInterleavingKeepsOneCurrent: a transaction that updates one row and inserts another is a read and then one write that is rolled back whole when the version is taken.
- ChargedTermsRace.EveryInterleavingIsSafe: a duplicate-key error is taken to come from the unique pair of subscription and version.
- ChargedTermsRace.RacingInsertsConverge: a failing read reports no row, so its caller proposes version one and can throw; such reads are excluded here and covered by `ChargedTermsRace.EveryInterleavingIsSafe`.
- Resolver.RedeliveryPicksSameRow: the sort is modelled as an insertion sort; ties cannot occur between distinct ids.
- An update's several clock reads are one instant.
- MySQL rounding of timestamps and normalisation of decimal columns: a column holds the instant or text that was written.
- Civil-calendar period ends, catalog prices and plan resolution are parameters of the commands.
- Durations that are not whole numbers and dates outside the range of JavaScript's `Date`.
- Trimming removes spaces, tabs and line breaks; other Unicode blanks are not modelled.
- Audit and operations logging: it does not affect results.
- Eviction.DropOldest: which of several equally old keys is evicted is left open; the code takes map order.
- VerificationResend.SendsAreSpacedExactlyWhen: it holds below the cap, since an evicted stamp is forgotten, and from an empty map; a send begins when its clock is read, and the two readings of one request are one instant.
- CounterMap.CountIsHitsInWindow: it holds without cap eviction, which forgets a key.
- RateLimit.SlidingWindowBound: one key with fixed options and no clear, as its callers use it.
- CrmpOpens.WedgedStaysWedged: opens run one at a time from there on; overlapping opens could pass the taken number.
- The lists and attribution lookups of the cash register store, its database twin (which does run in one transaction), and the shift and register lifecycle rules: easy members or thin queries.
- CrmpRuns.EveryInterleavingIsSafe: commands copy the identity of the shift they read, and the close that raises a version by two is covered because any increase is allowed.
- Tie order and key order of JavaScript maps, HTTP routing, permissions and everything else around these four cores.
