# Payzeno ledger: verified model

A Dafny model of the money path of payzeno-ledger and machine-checked proofs of what it promises.
`dafny verify dfyconfig.toml` checks everything; nothing here runs the service.

Four parts, each a set of modules.

**The double-entry ledger.** `Chart`, `LedgerTables`, `LedgerSessions`, `LedgerInvariant`,
`LedgerTheorems`, `Balances`, `LedgerPoster`, `LedgerPostings`. The database is explicit state: committed rows, the
uncommitted rows of each session, the unique indexes, row locks. A session claims an idempotency
key, resolves or creates an account per line, writes its entries, upserts the balance cache and
commits or rolls back, one statement at a time, with any number of other sessions interleaved at
READ COMMITTED. `LedgerPoster.Database` is the same thing as the code runs it, method by method;
each method is tied to the run of steps it performed.

**Payouts.** `Fx`, `Rounding`, `Keys`, `PayoutLedger`, `PayoutMachine`, `PayoutTheorems`,
`PayoutService`. Creation under the merchant/currency advisory lock, cancel, scheduler advance,
`mark_paid`, `mark_failed` and returns, from concurrent workers, with optional conversion into two
balanced transactions and a reversal rebuilt from the row's columns. A posting is one atomic step
here; `LedgerPostings` shows that the sessions' committed ledger is such a list, that only a commit
adds to it, never a key it already has, and that its balances are those of entries and cache.

**Three further protocols.** `Captures` and `CaptureService` (deferred capture with timeouts,
status probes, crashes), `Consumers` and `ConsumerLoop` (dedupe over an at-least-once queue, with
claim retention), `Settlements`, `SettlementTheorems`, `SettlementDuplicates` and `SettlementService`
(file import with crash and resume), and the conditional upsert in `Projections`.

**Arithmetic.** `Allocation`, `DecimalContext`, `LargestRemainder`, `Fees`, `Calendar`, `DecimalText`.
The largest-remainder allocation is modelled with Python's 28-digit decimal context, because its
results depend on it.

Where a promised property is false of the code, the code is kept, a concrete run shows the failure
and the exact condition is proved:

- "An in-flight payout is not reversed" fails when the scheduler writes `in_transit` over a row that
  was cancelled or failed after the scheduler read it. `PayoutTheorems.UnreversedExactly` says that
  this is the only way, `PayoutTheorems.InFlightAndReversed` is the run. The scheduler's docstring
  calls its pass atomic with respect to a concurrent `mark_paid`; the pass takes no lock on the rows
  it has read.
- "A key is charged at most once" holds exactly when the acquirer replays a captured key for ever, or
  a lone worker records every charge it makes (`Captures.ChargedOnceExactly`). Replay for any bounded
  time, the acquirers' 24 hours included, is not enough (`Captures.CrashDoubleCharges`,
  `Captures.RaceDoubleCharges`), and neither is a worker that never dies if a charge that landed can be
  answered with a 5xx, which the code takes for "nothing happened"
  (`Captures.UnavailableDoubleCharges`), or with an error nobody catches
  (`Captures.UnreadableDoubleCharges`). "Captured is final" holds exactly with at most one worker
  (`Captures.FinalExactly`).
- "A lost claim means somebody else owns this capture" fails for two different charges whose ids end
  in the same 24 characters (`CaptureService.DifferentChargesShareRow`); which claims share a row is
  `CaptureService.SameRowExactly`.
- "An effect is applied once per consumer" holds exactly when claims are never purged or kept at least
  as long as the queue can hand an event out plus the longest a worker holds a message before its
  claim is decided (`Consumers.AppliedOnceExactly`); a retention that covers the delivery window alone
  does not protect against a slow worker (`Consumers.PurgedTooSoon`).
- "No line sits in two nearby batches" holds in every run exactly when files arrive per currency only
  (`SettlementTheorems.LinesApartExactly`), and in one run exactly when no transaction in it brings a
  line that a nearby batch already has (`SettlementDuplicates.DuplicatedExactly`).
- "The spread is never negative" holds for a mid-rate and a markup exactly when the marked-down rate
  lies below the midpoint above mid's own place on the ten-decimal grid (`Fx.SpreadSign`); a finer
  mid-rate can round up past it (`Fx.OffGridQuoteOverpays`), one from `cross_rate` cannot.
- "Delivery order does not matter" holds exactly when no charge has two different events at its
  latest instant (`Projections.ConvergesExactly`, and `Projections.OrderShows` for a pair that has).
- "Interchange-plus leaves no remainder" holds exactly unless a tied markup and the pass-through
  amounts lie on opposite sides of zero (`Fees.PlusRemainder`, and `Fees.PlusLeavesRemainder` for one).
- "The shares add up to the total" holds exactly when what the computed floors leave is a number of
  positions, which it always is while products and weights stay below 10^27
  (`LargestRemainder.AllocateRemainder`); beyond 28 digits it fails (`LargestRemainder.HugeOverpays`).
- "Of equal remainders the earlier position is raised" holds between equal weights; between different
  ones a tied quota with more integer digits has fewer left for its sort key and goes last
  (`LargestRemainder.TieByDigits`). Rounding apart, the allocation is determined exactly when no two
  different weights tie where the units run out (`Allocation.FairUnique`).

Two more places follow the code rather than its prose: `mark_paid` accepts a payout in any status,
reversed ones included, and the already-filed query described as looking at other files also reads
the batch being imported, which is harmless because its own references were skipped before.

## Model

| member | source | states |
|---|---|---|
| Chart.SumLines | app/services/transactions.py:398-410 | the loop that totals a bucket's lines adds each matching line with the sign of the account's normal balance |
| Chart.CheckLinesExact | app/services/transactions.py:356-395 | the posting checks pass exactly on at least two lines, all positive, debits equal to credits, and say which of the two rules is broken, imbalance first |
| Chart.MirroredNegates | app/services/transactions.py:251-260 | turning every line round negates every bucket's total, and doing it twice gives the lines back |
| Chart.MirroredPostable | app/domain/rules/payouts.py:143-157 | mirrored lines pass the posting checks exactly when the lines do |
| LedgerTables.DeltasCommute | app/repositories/balance_cache.py:58-124 | two cache deltas, on the same row or different ones, give the same table in either order |
| LedgerTables.LegsMoveBucket | app/services/transactions.py:323-354 | a written leg set moves each bucket sum of its merchant row by exactly the delta the cache receives, and no other row |
| LedgerTables.LegsBalance | app/services/transactions.py:283-321 | a written leg set adds nothing to any currency's trial balance at any instant |
| LedgerInvariant.StepKeeps | app/services/transactions.py:127-195 | every statement of every session, commits and rollbacks included, keeps the ledger's invariant |
| LedgerInvariant.Reachable | app/services/transactions.py:111-195 | every run from the empty database ends in a state satisfying the invariant |
| LedgerTheorems.KeysPostOnce | app/repositories/ledger_transaction.py:97-165 | in every interleaving two committed transactions with one idempotency key are the same transaction |
| LedgerTheorems.CommittedWhole | app/services/transactions.py:127-195 | a committed transaction carries its complete leg set, at least two positive legs that net to zero |
| LedgerTheorems.LegsOnTheirAccounts | app/services/transactions.py:283-321 | each committed leg repeats its line and stands on the platform's account for a platform type, on the merchant's otherwise, in the transaction's currency and mode |
| LedgerTheorems.TrialBalanceZero | app/repositories/ledger_entry.py:315-364 | debits equal credits per currency and mode at every as-of instant of every reachable state |
| LedgerTheorems.LosingClaimNamesWinner | app/repositories/ledger_transaction.py:135-165 | a losing claim writes nothing and names the only transaction the caller can see under the key, with the fingerprint comparison |
| LedgerTheorems.WinningClaimIsFree | app/repositories/ledger_transaction.py:97-134 | a claim is won exactly when the lines are postable and no committed or uncommitted transaction holds the key |
| LedgerTheorems.CommittedForever | app/services/transactions.py:111-195 | no later step changes or removes a committed transaction or any of its entries |
| LedgerTheorems.BuildReversal | app/services/transactions.py:251-260 | the loop over stored legs builds each leg's line turned round, in order |
| LedgerTheorems.ReversalMirrorsLines | app/services/transactions.py:233-281 | the lines rebuilt from stored legs are the posted lines mirrored |
| LedgerTheorems.ReversalUndoes | app/services/transactions.py:233-281 | a reversal hits the original's accounts leg by leg, nets to zero on every account and bucket, and reversing it reproduces the original lines |
| LedgerTheorems.AccountsUnique | app/models/account.py:95-118 | no two account rows share a natural key, null-merchant platform accounts included, however creations race |
| Balances.CacheEqualsEntries | app/repositories/balance_cache.py:58-124 | in every reachable state each cache row is the entry sum of all four buckets, a missing row means zeros, and the negative column is max(0, -available) |
| Balances.ReadPathsAgree | app/services/balances.py:63-108 | the cached and the entry-summing reads answer alike when the instant covers every entry |
| Balances.GetBalanceExactly | app/services/balances.py:63-108 | in every reachable store a past instant is answered from the entries up to it and anything else from all of them, available and negative being the two sides of the payable total |
| Balances.LaterEntriesIgnored | app/services/balances.py:63-108 | an entry after the past instant asked for never changes the answer |
| Balances.BucketIsAccount | app/models/account.py:33-66 | in every reachable store each bucket is its own account of the merchant, credits less debits for payable, reserve and chargeback liability, debits less credits for receivable |
| Balances.GroupSumSigned | app/repositories/ledger_entry.py:231-273 | the grouped credits-minus-debits query, re-signed by normal balance, is the bucket total |
| Balances.SumBuckets | app/repositories/ledger_entry.py:231-273 | the loop over grouped rows fills every bucket with its signed entry sum |
| Balances.BalanceCache.ApplyDelta | app/repositories/balance_cache.py:58-124 | every bucket of the row grows by its delta, other rows stay, the derived negative column is kept |
| Balances.BalanceCache.Overwrite | app/repositories/balance_cache.py:203-243 | the row reads as the given totals, other rows stay, the derived negative column is kept |
| LedgerPoster.Database.ClaimIdempotencyKey | app/repositories/ledger_transaction.py:97-165 | the claim answers what the index decides and changes nothing unless it wins |
| LedgerPoster.Database.GetOrCreate | app/services/accounts.py:40-107 | select, insert in a savepoint, re-read after a lost race: the line is resolved exactly when its account is absent or active and free to create; the session fails exactly on a frozen or closed account, and otherwise waits |
| LedgerPoster.Database.MaterialiseEntries | app/services/transactions.py:283-321 | the loop resolves one account per line in order exactly when none is frozen, closed or being created elsewhere, and stops at the first that is |
| LedgerPoster.Database.Post | app/services/transactions.py:111-195 | a won claim ends in success exactly when no line's account is frozen, closed or being created elsewhere and no other session holds the cache row, and in `AccountFrozen` for exactly the first account that is not active when nothing is in the way before it; success leaves the whole leg set in the session, a lost claim leaves nothing and raises or returns the winner, a bad line set changes nothing, and every path is a run of the interleaving model |
| LedgerPoster.Database.Reverse | app/services/transactions.py:233-281 | reading back the legs of any transaction the session sees, committed or its own, and posting them flipped succeeds or is refused on a frozen account under exactly the conditions of a post, and success leaves the whole mirrored leg set under the new key; a lost claim leaves nothing and raises |
| LedgerPoster.Database.Commit | app/db/session.py:87-101 | commit publishes exactly the session's rows |
| LedgerPoster.Database.Rollback | app/db/session.py:87-101 | rollback leaves the committed tables untouched |
| LedgerPostings.StepPosts | app/services/transactions.py:127-195 | every statement leaves the committed list of postings alone or, at a commit, appends that session's postings, none under a key already in the list |
| LedgerPostings.PostingsSayItAll | app/repositories/balance_cache.py:58-124 | in every run the committed postings carry no key twice, net to each account's entries, and their payable balance is the cached one |
| Rounding.HalfUpExact | app/domain/money.py:130-140 | the quantisation is the nearest integer, ties away from zero, and only that integer |
| Rounding.HalfUpMonotone | app/domain/fx.py:134-142 | rounding never reorders two quotients of different denominators |
| Fx.SpreadSign | app/domain/fx.py:121-183 | for a positive mid-rate and a valid markup no quote of any amount has a negative spread exactly when the marked-down rate is below half a grid step above mid's grid floor |
| Fx.MarkupCoversExactly | app/domain/fx.py:121-131 | the recorded rate is no better than mid exactly under that condition on mid and markup |
| Fx.OffGridQuoteOverpays | app/domain/fx.py:121-131 | a mid-rate finer than the grid can quote a negative spread |
| Fx.GridRateNoBetter | app/domain/fx.py:121-131 | on the grid that condition always holds, so the marked-down rate lies between zero and mid |
| Fx.TargetLinesPostable | app/domain/rules/payouts.py:102-140 | the bank-side legs balance exactly when mid is payout plus spread, a zero spread leg dropped |
| Fx.QuoteSound | app/domain/fx.py:99-183 | a quote on a cross rate pays something, never above mid, at a stored rate that reproduces the amount, with balanced legs in both currencies |
| Fx.QuoteExactly | app/domain/fx.py:145-183 | a quote goes through exactly on a positive amount between two currencies with the markup in range and at least one unit to pay, and both its amounts are conversions at its own rate and at mid; each refusal is told apart |
| Fx.CrossRateNearest | app/domain/fx.py:99-118 | the cross rate is the target's rate over the source's to the nearest ten-billionth; a currency without a rate is refused |
| Fx.ConvertNearest | app/domain/fx.py:134-142 | a conversion is the nearest target unit to amount times rate, ties away from zero, shifted by the difference of the exponents |
| Fx.ConvertExamples | app/domain/fx.py:134-142 | ten dollars at 151.20 are 1512 yen, and back at the inverse rate 1000 cents |
| Keys.ParseInvertsKey | app/domain/idempotency.py:54-115 | parsing an accepted key returns its three components |
| Keys.KeyInjective | app/domain/idempotency.py:54-77 | two accepted triples with one key are the same triple |
| Keys.KeyInvertsParse | app/domain/idempotency.py:103-115 | rebuilding a parsed key gives the string back exactly when its components are ones the builder accepts |
| Keys.BuiltExactly | app/domain/idempotency.py:54-88 | a key is built exactly from components without the separator, none empty but a fee's subject, a settle key's with their id prefixes, and is the three joined |
| Keys.ParsesExactly | app/domain/idempotency.py:103-115 | a string parses exactly when it is three separator-free parts of which only the last may be empty |
| Keys.PayoutKeysDistinct | app/services/payouts.py:455-482 | the four posting keys of payouts coincide exactly for the same purpose, merchant and payout |
| PayoutLedger.ReversalCancels | app/services/payouts.py:639-716 | a payout's creation and its rebuilt reversal cancel on every account in both currencies |
| PayoutLedger.CreationDebits | app/services/payouts.py:413-483 | creation takes exactly the balance amount from exactly the balance it names, and the reversal gives it back |
| PayoutLedger.CreationMoves | app/services/payouts.py:413-483 | what a creation moves on every account: the balance to cash, or converted, the balance to clearing and clearing in the bank's currency to cash and spread revenue, and nothing else |
| PayoutMachine.DraftSound | app/services/payouts.py:280-316 | a drafted row passes the table's check constraints, and its columns rebuild the legs the conversion posts |
| PayoutMachine.DraftBalances | app/services/payouts.py:740-755 | the stored rate reproduces the stored amount and every posting of the draft balances |
| PayoutMachine.DraftedExactly | app/services/payouts.py:248-316 | a request is drafted exactly when it is affordable and converts, and the row carries what was asked for |
| PayoutMachine.ReversalClaim | app/services/payouts.py:639-716 | the reversal's keys are taken exactly when the row says it is reversed |
| PayoutMachine.StepKeeps | app/services/payouts.py:203-716 | every step of every worker keeps rows, postings, keys and locks consistent |
| PayoutMachine.Reachable | app/services/payouts.py:203-716 | every run from the empty tables satisfies that invariant |
| PayoutTheorems.NetEffect | app/services/payouts.py:413-716 | in every run a payout's net effect on any account is its creation legs while unreversed and zero once reversed; failed, returned and canceled imply reversed; no key posts twice |
| PayoutTheorems.ReversalNamed | app/services/payouts.py:639-716 | in every run a reversed payout names the posting on the ledger that gave its balance back in full |
| PayoutTheorems.RowsForever | app/services/payouts.py:485-716 | amounts and currencies never change after creation, a reversal is never taken back, postings are only appended |
| PayoutTheorems.AtMostOneInFlight | app/models/payout.py:200-209 | at most one scheduled or in-transit payout per merchant, balance currency and mode |
| PayoutTheorems.PaidNeverFails | app/services/payouts.py:499-600 | in no interleaving does a paid payout become failed: the item lock makes the failure see it paid, and only a cancellation or scheduler write that read it scheduled can move it anywhere but to returned |
| PayoutTheorems.LostOnlyWhenOvertaken | app/workers/payout_scheduler.py:75-81 | one step breaks "in flight implies not reversed" exactly when it is a scheduler write onto a row reversed since it was read |
| PayoutTheorems.UnreversedExactly | app/workers/payout_scheduler.py:63-101 | over a whole run no in-flight payout is reversed exactly when no scheduler write was overtaken |
| PayoutTheorems.PunctualRuns | app/services/payouts.py:248-316 | when no scheduler write is stale, lock and in-flight check alone keep a second payout out and no in-flight payout is reversed |
| PayoutTheorems.RaceReversesInFlight | app/workers/payout_scheduler.py:75-81 | from any state, any scheduled payout can be raced into in-transit and reversed |
| PayoutTheorems.InFlightAndReversed | app/workers/payout_scheduler.py:75-81 | such a run exists from the empty tables |
| PayoutTheorems.NeverOverdrawn | app/services/payouts.py:248-316 | if payouts are the only debits, no merchant's payable balance goes below zero in any interleaving |
| PayoutService.AdvancePass | app/workers/payout_scheduler.py:75-81 | the loop moves exactly the due scheduled rows and counts them |
| PayoutService.Payouts.CreatePayout | app/services/payouts.py:203-351 | created exactly when nothing is in flight, the payable is positive and covers the amount asked for, and a conversion has a rate, a markup in range and a unit to pay; the row pays the amount asked for, or the whole payable when none or zero was, in the currencies and mode of the request, and the balance falls by it and not below zero; otherwise nothing changes |
| PayoutService.Payouts.CancelPayout | app/services/payouts.py:485-497 | only a scheduled, unreversed payout is cancelled, with its reversal posted |
| PayoutService.Payouts.MarkPaid | app/services/payouts.py:499-524 | the status becomes paid from any status and the ledger is untouched |
| PayoutService.Payouts.MarkFailed | app/services/payouts.py:526-637 | returned when the money had left, failed before, reversed once; refused when already failed, returned or reversed; the same step as in the interleaving machine |
| PayoutService.Payouts.PostReversal | app/services/payouts.py:639-716 | posts exactly when not yet reversed, row and postings together |
| PayoutService.Payouts.AdvanceDue | app/workers/payout_scheduler.py:63-101 | one pass moves the due scheduled rows in transit and nothing else |
| Captures.CapturedMeansCharged | app/services/captures.py:154-171 | with any workers, crashes and acquirer, a row marked captured really was charged |
| Captures.SoloStep | app/services/captures.py:89-171 | a lone worker acts on current rows and never rewrites a finished one; if it never crashes and no charge that landed is answered with an error, it never reissues a charged key |
| Captures.ChargedOnceExactly | app/services/captures.py:89-171 | with truthful refusals and status answers, no run charges a key twice exactly when the acquirer replays a key for ever, or one worker neither crashes nor meets an error answer to a capture that landed, or nobody works |
| Captures.FinalExactly | app/services/captures.py:154-171 | captured and failed are never overwritten exactly when at most one worker runs, crashes or not |
| Captures.CrashDoubleCharges | app/services/captures.py:110-133 | without replay, or once a bounded replay has lapsed, a worker that died before recording its answer charges twice |
| Captures.UnreadableDoubleCharges | app/services/captures.py:118-133 | without replay, or once it has lapsed, a capture that landed and whose answer raised past the handlers is charged again by the next pass |
| Captures.UnavailableDoubleCharges | app/services/captures.py:130-133 | without replay, or once it has lapsed, a capture that landed behind a 5xx goes back to pending and is charged again |
| Captures.RaceDoubleCharges | app/services/captures.py:89-108 | without replay, or once it has lapsed, two workers that listed the same pending row charge twice |
| Captures.PromptRunsChargeOnce | app/services/captures.py:89-171 | under bounded replay, any workers and crashes, a run no longer than the replay charges no key twice |
| Captures.StaleWriteOverwrites | app/services/captures.py:154-171 | with two workers a late unavailable answer overwrites captured |
| CaptureService.SameRowExactly | app/services/captures.py:64-69 | two claims get one row id exactly when long charge ids share their last 24 characters, or short ones are equal and as much of the batches as fits agrees |
| CaptureService.DifferentChargesShareRow | app/services/captures.py:64-69 | two different charges of one batch can get one row id |
| CaptureService.ClaimableExactly | app/services/captures.py:45-87 | a claim is free exactly when no recorded intent shares its row; the key index never refuses more |
| CaptureService.DeferredCaptures.RecordIntent | app/services/captures.py:45-87 | a malformed key raises; otherwise the claim succeeds exactly when no earlier intent shares its row; a lost one rolls back whatever the caller's session had claimed before, and committed rows never move |
| CaptureService.DeferredCaptures.Commit | app/services/captures.py:45-87 | the caller's commit publishes exactly the session's claims and keeps every charged-once invariant |
| CaptureService.DeferredCaptures.Issue | app/services/captures.py:110-133 | captured, failed, indeterminate or pending as the acquirer captured, refused, timed out or was unavailable, and unchanged when the answer raises; the acquirer's book moves exactly when the capture landed and was not replayed |
| CaptureService.DeferredCaptures.ResolveIndeterminate | app/services/captures.py:135-152 | the probe never issues a capture, marks captured or pending by the truthful answer, and writes nothing when the answer is unknown |
| CaptureService.DeferredCaptures.ProcessPending | app/services/captures.py:89-108 | a pass goes through the list, or stops at the first row whose call raises; every row it reached has the status its own reply calls for, every other row is as it was; it is a run of one worker from idle to idle, and no key is charged twice if no landed capture is answered with an error or keys are replayed for ever |
| Consumers.StepKeeps | app/consumers/base.py:61-144 | when claims outlive deliveries and messages in hand, every receive, claim, handler, commit, delete, crash and purge keeps claims and effects in step |
| Consumers.DeletedMeansApplied | app/consumers/base.py:87-133 | a deleted message was readable, and its effect is committed exactly once if its type is handled |
| Consumers.AppliedOnceExactly | app/repositories/processed_event.py:64-134 | effects are applied at most once per consumer in every run exactly when nothing is handled, claims are never purged, or retention is at least the delivery window plus the time a message can be in hand |
| Consumers.PurgedTooSoon | app/repositories/processed_event.py:119-134 | with any shorter retention a message received in the window is claimed after its first claim was purged and its effect applied twice |
| ConsumerLoop.Host.ClaimEvent | app/repositories/processed_event.py:64-85 | the insert returns nothing exactly when the claim is committed, waits exactly while another session holds it uncommitted, and is ours exactly otherwise; only the last takes a claim |
| ConsumerLoop.Host.HandleMessage | app/consumers/base.py:87-133 | no verdict exactly while another session holds the claim; otherwise true exactly for a readable message that is not ours, was done before or whose handler succeeds, which adds its claim and one effect; in every other case claims and effects stay |
| ConsumerLoop.Host.Poll | app/consumers/base.py:61-85 | the batch is gone through unless a claim has to wait; each message handled is deleted unless unreadable or failed, an unreadable one never is, and no others are |
| Settlements.ClosedForever | app/services/settlements.py:140-180 | a batch that left open keeps its items, its count and its expected total, equal to its items' count and net, whatever runs later |
| Settlements.OneBatchPerFile | app/services/settlements.py:69-108 | no run has two batches of one acquirer under one file reference |
| Settlements.AddedFiles | app/services/settlements.py:182-257 | adding a file puts each line asked for into the batch unless it is there or, per currency, nearby already, and adds nothing else |
| Settlements.NetOfParts | app/services/settlements.py:140-180 | the net a batch is closed on is the sum of its items' nets |
| Settlements.ReimportAddsNothing | app/services/settlements.py:289-399 | a file imported once adds nothing when imported again, whatever ran in between |
| Settlements.ResumeIsTheClose | app/services/settlements.py:355-391 | re-running an import that stopped between its transactions is exactly the missing close |
| SettlementTheorems.LinesApartExactly | app/repositories/reconciliation_item.py:169-202 | no acquirer reference sits twice in batches of one acquirer and currency within seven days, in every run, exactly when files arrive per currency only |
| SettlementTheorems.PerCurrencyRuns | app/services/settlements.py:289-399 | per-currency runs keep lines apart and every item in a batch of its own currency |
| SettlementTheorems.TwiceDuplicates | app/services/settlements.py:182-257 | any two unguarded imports of one line under different references within the window duplicate it |
| SettlementDuplicates.StepExactly | app/services/settlements.py:289-399 | a transaction first puts a line into two nearby batches exactly when it goes through and brings a reference such a batch already has |
| SettlementDuplicates.DuplicatedExactly | app/repositories/reconciliation_item.py:169-202 | a run ends with a reference twice in batches of one acquirer and currency within the window exactly when some transaction of it did that |
| SettlementTheorems.ImportedInTwo | app/services/settlements.py:358-387 | importing part of a file and then all of it leaves the same batch and the same items in the same order as importing it at once |
| SettlementService.Collect | app/services/settlements.py:221-248 | the loop keeps exactly the records whose reference the batch lacks, in order |
| SettlementService.Store.OpenBatch | app/services/settlements.py:69-108 | the batch of the acquirer under the reference if there is one, or a new open one |
| SettlementService.Store.FindImportedBatch | app/services/settlements.py:110-134 | finds exactly the batch of the currency under the per-currency reference, or failing that under the per-day one, and none exactly when neither holds the currency |
| SettlementService.Store.Close | app/services/settlements.py:140-180 | closes exactly an existing open batch, with its items' count and net |
| SettlementService.Store.ImportLegacyRecords | app/services/settlements.py:182-257 | adds exactly the records the open batch lacks, nothing to one that has left open; fails exactly without records or when two of them repeat a reference the batch lacks, and then changes nothing |
| SettlementService.Store.ImportFile | app/services/settlements.py:289-399 | nothing is filed exactly when a currency was asked for, no batch of it had left open and no line has it; otherwise it answers a batch of the acquirer under the file's reference, or the one already imported; unless that had left open, every line of the currency is in it or in a batch of the acquirer and currency within seven days, nothing else is added, and an uninterrupted import leaves it closed with its totals; it fails exactly when two lines of the currency repeat a reference that is new, and then changes nothing |
| Projections.RowsAreNewest | app/repositories/settlement_charge.py:71-109 | after any deliveries the rows are exactly the charges heard of, each at one of its newest events |
| Projections.NeverOlder | app/repositories/settlement_charge.py:71-109 | a stored timestamp never decreases and an equal one leaves the row alone |
| Projections.ConvergesExactly | app/repositories/settlement_charge.py:71-109 | all orders and duplications of the same events end alike exactly when no charge has two events at its latest instant |
| Projections.OrderShows | app/repositories/settlement_charge.py:71-109 | two events of one charge at one instant end in different rows in the two orders |
| Projections.ChargeTable.UpsertIfNewer | app/repositories/settlement_charge.py:71-109 | answers true exactly when the row changed, and the stored event is at least as new |
| LargestRemainder.AllocateRemainder | app/domain/money.py:203-222 | refuses exactly a non-positive weight sum; otherwise raises the first positions by the 28-digit keys, the shares add up to the total exactly when what the computed floors leave is between zero and the number of positions, and below 10^27 they do and the allocation is fair |
| LargestRemainder.SmallIsExact | app/domain/money.py:214-218 | below 10^27 the computed floors are the exact ones, and the keys never put a smaller fraction first nor tell equal weights apart |
| LargestRemainder.TieByDigits | app/domain/money.py:214-221 | two units over weights 4, 1, 1 leave three equal fractions, a tie across the cut; position 1 is raised before position 0 because its key has one digit more, giving [1, 1, 0] |
| LargestRemainder.HugeOverpays | app/domain/money.py:214-221 | 2 * 10^28 over three equal weights gives out three units too many |
| DecimalContext.QuotientNear | app/domain/money.py:214 | a decimal quotient differs from the exact one by at most half a unit of its 28th digit |
| DecimalContext.QuotientExactly | app/domain/money.py:214 | it is the exact quotient at 28 significant digits, nearest with ties to even |
| DecimalContext.ProductIsQuotient | app/domain/money.py:214 | and a product is kept exactly up to 28 digits and rounded the same way beyond |
| Allocation.FairUnique | app/domain/money.py:203-222 | the fair allocation of a total, raising no smaller fraction and of equal weights the earlier, is the only one exactly when no two different weights leave one fraction where the units run out |
| Allocation.KeyedFair | app/domain/money.py:218-221 | raising by any keys that respect the fractions and equal weights is fair and gives out the total |
| Allocation.FloorOrCeiling | app/domain/money.py:203-222 | for any weights of positive sum each share is the floor or the ceiling of its exact quota |
| Allocation.ZeroWeightGetsZero | app/domain/money.py:203-222 | a zero weight gets nothing |
| Allocation.EvenIsEqualWeights | app/domain/money.py:188-200 | the even split adds up, differs by at most one unit and is a fair allocation of equal weights, negative totals included |
| Allocation.EvenIsOnlyFair | app/domain/money.py:188-200 | and the only one |
| LargestRemainder.AllocateEqually | app/domain/money.py:188-222 | below 10^27 allocating by all-ones weights returns the even split |
| Fees.LegacyIsBlended | app/domain/fees.py:141-158 | the legacy two-stage rounding equals the platform fee at 290 bps and 30 for every gross |
| Fees.PlatformFeeExactly | app/domain/fees.py:53-73 | the fee is the nearest unit to the basis-point share plus the fixed part, capped at gross; negative parts are refused, the fixed one first |
| Fees.FeeWithinGross | app/domain/fees.py:188-197 | the fee lies between zero and gross exactly for a non-negative gross, and net plus fee is always gross, and a net is never below zero |
| Fees.RemainderBounded | app/domain/fees.py:76-114 | the remainder is at most half a unit per component |
| Fees.ApportionFee | app/domain/fees.py:76-114 | parts add up to the rounded total, only the sink differs from its own rounding and by the remainder; empty and duplicate lists are refused |
| Fees.PlusRemainder | app/domain/fees.py:173-185 | the interchange-plus remainder is zero exactly unless the markup is midway between two units and lies on the other side of zero from the total, hence always for non-negative inputs |
| Fees.PlusParts | app/domain/fees.py:173-185 | an interchange-plus fee passes interchange and scheme fee on unchanged and gives the markup the rest of the total, the nearest unit to the exact sum |
| Fees.PlusLeavesRemainder | app/domain/fees.py:173-185 | half a unit of markup with an interchange of -1 leaves a remainder of -1 |
| Calendar.NextBusinessDay | app/domain/calendar.py:112-131 | the loop finds the first business day among the day and the thirty after it, and fails exactly when all are closed |
| Calendar.FirstOpenExact | app/domain/calendar.py:112-131 | the search succeeds at a day exactly when it is the first business day in range, and fails exactly when all are closed |
| Calendar.AddBusinessDays | app/domain/calendar.py:133-147 | a negative count is refused, otherwise the loop agrees with the addition function, failures included |
| Calendar.LoadedRowWins | app/domain/calendar.py:100-105 | a loaded row decides its day, and without one Monday to Friday are open |
| Calendar.BusinessDaysBetween | app/domain/calendar.py:161-176 | an end before the start is refused, otherwise the loop counts the business days of the half-open range |
| Calendar.AddCounts | app/domain/calendar.py:133-176 | the result of an addition is a business day with exactly that many business days from the start before it |
| Calendar.AddExact | app/domain/calendar.py:133-147 | an addition yields a day exactly when it is the business day of that rank and no closure on the way outlasts the lookahead |
| Calendar.AddComposes | app/domain/calendar.py:133-147 | adding in two goes is adding at once, failures included |
| Calendar.NextWithoutRows | app/domain/calendar.py:100-131 | without rows the lookahead is never exhausted |
| Calendar.WeekIsFiveDays | app/domain/calendar.py:100-147 | without rows every addition succeeds and five business days are one week |
| DecimalText.RoundTrip | app/domain/money.py:143-166 | parsing a printed amount gives the amount back for every integer and every currency |
| DecimalText.ReadExactly | app/domain/money.py:143-158 | a text is read as an amount exactly when it is a plain decimal: blanks, a sign, digits around at most one point, blanks |
| DecimalText.ReadsNearest | app/domain/money.py:143-158 | a plain decimal is read as the nearest minor unit of the currency, ties away from zero |
| DecimalText.PrintsPlainly | app/domain/money.py:161-167 | a printed amount has no plus, no needless zero in front and exactly the currency's places |

## Left out

- Decimal's 28-digit context outside `allocate_remainder`: in fees, conversions and amount text decimals are exact rationals, so amounts and rates whose digits exceed the context are not modelled.
- LargestRemainder.AllocateEqually: is stated below 10^27; beyond it `HugeOverpays` is an equal-weights input on which the two differ.
- String ids in the state machines: ids, keys and references that are only compared are integers; `Keys` works on the strings, and `CaptureService` on strings coded injectively.
- Python's date range: dates are unbounded day numbers, so the overflow past year 9999 is not modelled.
- Columns no branch reads: timestamps other than the entry's `created_at`, `last_transaction_id`, `reverses_transaction_id`, capture `response_reference` and `completed_at`, item match fields, payout availability dates.
- LedgerPoster.Database.GetOrCreate: an account frozen after the check and before commit still receives the legs; no claim is made about frozen accounts beyond the check itself.
- LedgerTheorems.ReversalUndoes: is about a committed transaction whose lines are the rebuilt reversal; that a second `reverse` of one transaction loses its claim is `KeysPostOnce` on the reversal's key.
- Balances.ReadPathsAgree: assumes the instant covers every committed entry, since the clocks of application and database are not modelled together.
- Fx.QuoteSound: does not model the `Numeric(20,10)` column overflowing on a very large rate.
- Consumers.DeletedMeansApplied: a handler's effect is one unit committed with the claim; what the individual handlers write is not modelled.
- Captures: the inline `capture_deferred` call of app/services/reconciliation/poster.py does not go through the attempt table and is not part of this model.
- Captures.ChargedOnceExactly: a timed-out request has charged or never will by the time its status is asked; a charge landing after a "not captured" answer is not modelled.
- Settlements.ClosedForever: the importing and closing transactions are atomic; two of them overlapping statement by statement at READ COMMITTED is not modelled, nor is matching of the new items.
- SettlementService.Store.ImportFile: the acquirer's file arrives as parsed lines; fetching, parsing and a file not ready are not modelled.
- DecimalText.RoundTrip: the parser reads plain decimals with ASCII blanks; exponents, underscores, NaN and infinities, which `Decimal` also accepts, count as errors.
- Reserve holds and adjustments: their ids contain the key separator, which the key builder rejects later, so no claim is made that release or approval completes.
- Funding across its two entry points, the merchant projection's partial updates and outbox claiming: the code does not promise the stronger property.
- Reconciliation sweep, retry scheduler, payout rails and concrete posting rules other than the payout ones: they would add callers of the operations above.
- HTTP, middleware, logging, metrics, configuration, the operations CLI, migrations, schedulers' timing, clients of acquirers, FX, SNS and SQS: I/O; only their possible answers appear.
- Hash collisions of fingerprints and advisory lock keys: a lock collision only makes locking coarser.
