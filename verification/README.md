# Verified models of the quant workbench's stateful cores

This project models, in Dafny, the parts of the workbench whose state outlives a call, and proves what they promise
over whole runs. `dafny verify dfyconfig.toml` checks everything.

* **AI-review ledger** (`Ledger*.dfy`, `DecisionStore.dfy`). Two tables: reviews by id, legacy or authoritative, and
  decisions in row order. `Ledger` gives every transaction as a function from tables to tables or an error;
  `DecisionStore.Store` is the class whose methods loop, insert, delete and roll back, proved equal to those
  functions. `LedgerInvariant` and `LedgerRuns` carry the invariant over every run; `LedgerWrites` says which rows each
  committed write leaves; `LedgerMerge` shows that applying an archive is a join.
* **Backtests** (`Market.dfy`, `Money.dfy`, `Indicators.dfy`, `Rule*.dfy`, `Policy*.dfy`, `BacktestEngine.dfy`). The
  same-bar rule loop and the policy loop with its one-slot pending order, entry throttle and two breakers: what every
  bar trades and why (`RuleReports`, `PolicyFills`), when a run gets through (`RuleRuns`, `PolicyRuns`), when a breaker
  trips (`PolicyHalts`) and that it then holds, no look-ahead, conservation, solvency and throttling. Prices and cash are exact reals; time is in whole seconds.
* **Keycloak reconciler** (`Keycloak*.dfy`). The server is a class whose methods are the admin requests. The reconciler
  reads, writes what differs, reads again and verifies; its contract says exactly when it converges, and
  `KeycloakValues` what is then stored, value by value.
* **Event-stream framing** (`StreamFraming.dfy`, `EventStream.dfy`, `EventReading.dfy`, `EventLosses.dfy`). An
  incremental line splitter, with its limit, deadline and stop flag, and the event parser behind it: what any byte
  stream means, as a round trip under any chunking; and exactly which lists of events survive it. The parser follows the
  code where that differs from sections 9.2.5 and 9.2.6 of the WHATWG HTML Living Standard: a pending event is emitted
  at end of stream, and empty data is emitted.
* **Deterministic review and the review record** (`Review*.dfy`). The stance as a severity join, what "supported" and
  "blocked" mean, exactly which risks, gaps and consistency are reported (`ReviewRisks`, `ReviewConsistency`), exactly
  when further evidence can improve the stance, what is recorded of a provider's answer (`ReviewOutcomes`), exactly when
  the record the service writes passes the store's validator, the records that do not, and why the shipped registry and
  adapters write none of those.
* **Smaller cores** (`OutcomeScoring.dfy`, `OutcomeMeaning.dfy`, `AuditEvents.dfy`, `EvidenceRuns.dfy`,
  `SpotOrders.dfy`). Outcome scoring and what its numbers are, the first-writer-wins event store under concurrent
  clients, and order preparation as a fixpoint.

`Prelude.dfy` holds options, results and the "first failing check" fold; `Texts.dfy` holds string trimming.

## What the proofs rest on

* The ledger's digest is a function; two records with one digest are equal up to their hash (`CollisionFree`). Nothing
  else is assumed of it, and `LedgerCodec` gives one that meets it. Field checks of single records are predicates the
  ledger never looks inside.
* The policy context, the evaluator and the fill transition are functions of
  the bars ingested so far and of the runtime state; an evaluation is dated with the bar it was made on.
* The Keycloak server keeps scope names unique, hands out fresh ids, replaces on PUT, and shows a stored secret as the
  mask. Default and optional scope sets are independent sets that a PUT of a client leaves alone; a PUT of a scope
  leaves its mappers alone; a new client starts with scopes of the server's choice, non-empty where existing non-empty
  lists were asked for. The desired secrets are texts other than the mask, and desired mappers carry no id.
* In the review record, hashes are 64 hexadecimal digits and the writer's three fixed sentences pass its own secret
  screen. Base-URL rules, prompt rendering and per-field evidence checks are functions both sides share. For the shipped
  registry, a base URL the URL check returns passes it again unchanged (`UrlsSettle`).
* Venue rounding and decimal rounding are functions; each lemma names what it needs of them.

## Findings

* `delete_by_run` on its own orphans decisions: `LedgerRuns.DeleteByRunIff` is the exact condition, and
  `LedgerRuns.DeleteByRunCanOrphan` orphans any first decision under any codec that accepts it.
* The predecessor check behind a matching prefix can never fire (`LedgerEffects.ContinuationIsLinked`).
* An empty desired client scope list makes the reconciler's own verifying read fail, so a run that wrote everything
  still raises (`Keycloak.SettledReadable`, `KeycloakEmptyLists.EmptyListIsUnreadable`, and the condition in `Reconcile`).
* Event data loses a trailing carriage return, a newline inside a line splits it, and an event without lines vanishes;
  nothing else is ever lost (`EventLosses.RoundTripExactly`, and `EventStream.EatenCarriageReturn` for a concrete case).
* An experiment id can clash with another: it ends at one of its colons or continues its candidate ids. Then evidence
  of the one counts for the other and can hide a failed gate, turning "blocked" into "insufficient evidence" in bundles
  the service accepts; without a clash the stance never improves (`ReviewClash.ClashIsExact`, `ClashPassesService`).
* A record is built but refused by its own store when no evidence reaches the prompt, when the registered model name
  is padded or empty, when a registered base URL has no endpoint, or when a refusal other than for execution semantics
  carries a diagnostic (`ReviewAgreement.WriterAgreesWithValidator`, `ReviewMisfits`). The shipped registry, adapters and
  assembler meet none of these, whatever the environment and the answer (`ReviewRegistry.ShippedIsAccepted`).
* An upsert of an evidence event between two calls makes them return different artifacts
  (`EvidenceRuns.UpsertBreaksAgreement`); it is harmless exactly when it repeats the stored artifact (`StepAgreesExactly`).

## Model

| member | source | states |
|---|---|---|
| LedgerRuns.EveryRunIsSafe | services/quant_core/quant_core/ai_review_decisions.py:130-344 | Every state reached from the empty tables by any sequence of append, restore, record, record_v2, archive apply, archive replace (either preserve mode) and delete_by_reviews satisfies the invariant: each review's decisions in row order form one chain that starts at no predecessor and supersedes row by row, decision ids are unique in the whole table, and every decision is a valid record bound to the stored v2 review's record and evidence hashes |
| LedgerRuns.StepKeepsInv | services/quant_core/quant_core/ai_review_decisions.py:130-480 | Every single transaction keeps that invariant, committed or rolled back |
| LedgerRuns.SingleSuccessor | services/quant_core/quant_core/ai_review_decisions.py:130-168 | After one append naming a predecessor (or none) for a review has committed, any append naming the same one fails and changes nothing, whatever additive transactions came in between |
| LedgerRuns.UniqueSuccessor | services/quant_core/quant_core/ai_review_decisions.py:537-560 | In a good state two stored decisions of one review with the same predecessor are the same row |
| LedgerRuns.StepExtends | services/quant_core/quant_core/ai_review_decisions.py:130-294 | Without replace or delete, every step extends each chain at its end and leaves every stored v2 review as it is |
| LedgerRuns.RunExtends | services/quant_core/quant_core/ai_review_decisions.py:130-294 | The same over any run of such steps |
| LedgerInvariant.AppendEffect | services/quant_core/quant_core/ai_review_decisions.py:130-168 | A committed append adds exactly one row, with a new id, superseding the current tail, and nothing else |
| LedgerInvariant.AppendCommitsIff | services/quant_core/quant_core/ai_review_decisions.py:130-168 | Exactly when an append commits: the request is valid, the review is a stored v2 review, the named predecessor is the current tail, the built record is valid and the fresh id is unused |
| LedgerInvariant.RestoreEffect | services/quant_core/quant_core/ai_review_decisions.py:170-204 | A restore confirms the stored row with that id and hash, or appends exactly the given record at the tail of its chain |
| LedgerInvariant.ReadsSucceed | services/quant_core/quant_core/ai_review_decisions.py:537-560 | In a good state every validating read of a chain succeeds and returns the whole chain |
| LedgerInvariant.PreflightApplyIff | services/quant_core/quant_core/ai_review_decisions.py:233-260 | The apply preflight accepts exactly the archives that are valid, own their reviews, reuse no decision id for another record, and whose chains are prefix-compatible with the stored ones |
| LedgerInvariant.PreflightApplyIsExact | services/quant_core/quant_core/ai_review_decisions.py:233-294 | What the preflight accepts commits, with exactly the missing rows inserted; what it refuses fails with the same error |
| LedgerInvariant.AcceptableInserts | services/quant_core/quant_core/ai_review_decisions.py:466-477 | The rows an accepted archive inserts have ids new to the table and distinct from one another, so no insert meets its primary key |
| LedgerInvariant.ApplyKeepsInv | services/quant_core/quant_core/ai_review_decisions.py:262-294 | A committed apply keeps the ledger invariant |
| LedgerInvariant.WrittenTable | services/quant_core/quant_core/ai_review_runs.py:537-604 | An apply leaves every stored v2 review as it was and stores every archived one as archived |
| LedgerEffects.GlobalIdIff | services/quant_core/quant_core/ai_review_decisions.py:416-443 | The global id check passes exactly when every archived id that is already stored names the same record of the same review, or belongs to a replaced review |
| LedgerEffects.PrefixErrorIff | services/quant_core/quant_core/ai_review_decisions.py:445-464 | The prefix check of one review passes exactly when the stored chain validates and one of the two chains is a prefix of the other, by id and record hash |
| LedgerEffects.ContinuationIsLinked | services/quant_core/quant_core/ai_review_decisions.py:445-464 | The extra predecessor check after a matching prefix never fires: the archive's own chain check already implies it |
| LedgerChains.DecisionArchiveIff | services/quant_core/quant_core/ai_review_decisions.py:621-641 | An archive's decisions are accepted exactly when they are valid records with distinct ids, each naming an archived v2 review and its hashes, and linked review by review |
| LedgerChains.ValidatedRowsIff | services/quant_core/quant_core/ai_review_decisions.py:537-560 | A validating read succeeds exactly when all rows are valid, bound to the review and linked |
| LedgerEffects.ArchiveIff | services/quant_core/quant_core/ai_review_runs.py:639-660 | The archive check accepts exactly well-formed reviews with distinct ids, no id both legacy and v2, all of the archive's run |
| LedgerEffects.OwnershipIff | services/quant_core/quant_core/ai_review_runs.py:506-535 | The ownership check accepts exactly the archives that overwrite no row of another run, of the other kind, or with another v2 record hash |
| LedgerMerge.ApplyIsJoin | services/quant_core/quant_core/ai_review_decisions.py:262-294 | A committed apply leaves every review with the longer of its stored and archived chains, one being a prefix of the other |
| LedgerMerge.AppliesIff | services/quant_core/quant_core/ai_review_decisions.py:262-294 | An apply commits exactly when archive and ownership are valid, no stored id is reused for another record, and no chain forks |
| LedgerMerge.ApplyIsIdempotent | services/quant_core/quant_core/ai_review_decisions.py:262-294 | Applying the same archive again commits and changes neither table |
| LedgerMerge.ApplyCommutes | services/quant_core/quant_core/ai_review_decisions.py:262-294 | If two archives apply one after the other they apply in the other order too, and the v2 reviews and all chains come out the same |
| LedgerRuns.PreflightReplaceIff | services/quant_core/quant_core/ai_review_decisions.py:377-414 | Exactly when the replace preflight accepts, for either preserve mode |
| LedgerRuns.PreflightReplaceIsExact | services/quant_core/quant_core/ai_review_decisions.py:296-375 | What the replace preflight accepts commits, in either preserve mode; what it refuses fails with the same error |
| LedgerRuns.ReplaceKeepsInv | services/quant_core/quant_core/ai_review_decisions.py:296-344 | A committed replace keeps the ledger invariant in either preserve mode |
| LedgerRuns.DeleteByReviewsKeepsInv | services/quant_core/quant_core/ai_review_decisions.py:218-231 | Deleting the decisions of any set of reviews keeps the invariant |
| LedgerRuns.DeleteByRunIff | services/quant_core/quant_core/ai_review_runs.py:480-486 | Deleting a run's reviews on their own keeps the invariant exactly when none of its v2 reviews has a decision left |
| LedgerRuns.DeleteByRunCanOrphan | services/quant_core/quant_core/ai_review_runs.py:480-486 | Under every codec, for every review and first decision it accepts: after recording the one and appending the other the ledger is good, and delete_by_run alone orphans the decision |
| LedgerWrites.ReplaceEffect | services/quant_core/quant_core/ai_review_decisions.py:296-344 | A committed replace of run R from a good state. Not preserving: every archived v2 review has exactly its archived chain, every other v2 review R had has none, all other chains are unchanged. Preserving: no decision changes. Either way R has exactly the archived reviews, stored as archived, and every other run's are as they were |
| LedgerWrites.ApplyEffect | services/quant_core/quant_core/ai_review_decisions.py:262-294 | A committed apply stores every archived review as archived, leaves the others, and only adds rows at the end |
| LedgerWrites.AppendRecord | services/quant_core/quant_core/ai_review_decisions.py:130-168 | Exactly when an append commits, and the record it stores: the request's outcome and reason, the fresh id and time, the review's hashes and the tail it supersedes, sealed by its digest |
| LedgerWrites.RestoreCommitsIff | services/quant_core/quant_core/ai_review_decisions.py:170-204 | Exactly when a restore commits: the record is sealed and names a stored v2 review, and either it is the row stored under its id or that id is free and it continues its chain; with the tables it leaves |
| LedgerWrites.RecordLegacyIff | services/quant_core/quant_core/ai_review_runs.py:259-303 | Exactly when a legacy record commits, and that it stores the record under its id and changes nothing else |
| LedgerWrites.RecordV2Iff | services/quant_core/quant_core/ai_review_runs.py:305-359 | Exactly when an authoritative record commits, and that it stores it or confirms the identical stored one, and changes nothing else |
| LedgerWrites.DeleteByReviewsEffect | services/quant_core/quant_core/ai_review_decisions.py:218-231 | Deleting by review empties exactly those chains and touches no review |
| LedgerWrites.DeleteByRunEffect | services/quant_core/quant_core/ai_review_runs.py:480-486 | Deleting a run removes exactly its reviews, of either kind, and touches no decision |
| LedgerWrites.RowsAreSealed | services/quant_core/quant_core/ai_review_decisions.py:537-560 | In a good state every stored decision passes its checks, carries its own digest and names the record and evidence hashes of a stored, sealed v2 review |
| DecisionStore.Store.SelectValidated | services/quant_core/quant_core/ai_review_decisions.py:537-560 | The validating loop over a review's rows returns the chain or the first failing row's error |
| DecisionStore.Store.ListByReview | services/quant_core/quant_core/ai_review_decisions.py:206-216 | Listing returns the validated chain of a stored v2 review, or the error of the first check that fails |
| DecisionStore.Store.GroupByReview | services/quant_core/quant_core/ai_review_decisions.py:644-653 | The grouping loop yields, for each archived review, its chain in archive order, or the error of the first decision naming none |
| DecisionStore.Store.CheckLinks | services/quant_core/quant_core/ai_review_decisions.py:621-641 | The loop that carries the expected predecessor reports the first decision that does not supersede the one before it |
| DecisionStore.Store.CheckDecisionArchive | services/quant_core/quant_core/ai_review_decisions.py:621-641 | The archive validation loops report exactly the specified first error |
| DecisionStore.Store.CheckArchive | services/quant_core/quant_core/ai_review_runs.py:639-660 | Reviews first, then decisions: exactly the specified first error of an archive |
| DecisionStore.Store.CheckOwnership | services/quant_core/quant_core/ai_review_runs.py:506-535 | The ownership loop reports the first clash with a stored row |
| DecisionStore.Store.CheckGlobalIds | services/quant_core/quant_core/ai_review_decisions.py:416-443 | The id loop reports the first archived id that clashes with a stored row |
| DecisionStore.Store.CheckPrefixes | services/quant_core/quant_core/ai_review_decisions.py:445-464 | The prefix loop reports the first review whose chains do not agree |
| DecisionStore.Store.InsertMissing | services/quant_core/quant_core/ai_review_decisions.py:466-477 | All prefixes are checked before the first insert; then exactly the rows beyond each stored chain are inserted |
| DecisionStore.Store.WriteReviews | services/quant_core/quant_core/ai_review_runs.py:537-604 | The review half of an archive write: ownership, optional clearing of the run, legacy upserts, v2 inserts |
| DecisionStore.Store.AppendDecision | services/quant_core/quant_core/ai_review_decisions.py:130-168 | The append transaction: new tables exactly as specified, or the old ones and the error |
| DecisionStore.Store.RestoreDecision | services/quant_core/quant_core/ai_review_decisions.py:170-204 | The restore transaction, with rollback when the re-read fails |
| DecisionStore.Store.PreflightArchiveApply | services/quant_core/quant_core/ai_review_decisions.py:233-260 | The preflight reports the specified first error and changes nothing |
| DecisionStore.Store.ApplyArchiveAtomic | services/quant_core/quant_core/ai_review_decisions.py:262-294 | The apply transaction: both tables change together as specified, or neither does |
| DecisionStore.Store.CheckReplace | services/quant_core/quant_core/ai_review_decisions.py:377-414 | The replace checks for either preserve mode report the specified first error |
| DecisionStore.Store.PreflightArchiveReplace | services/quant_core/quant_core/ai_review_decisions.py:346-375 | The replace preflight reports the specified first error and changes nothing |
| DecisionStore.Store.ReplaceArchiveAtomic | services/quant_core/quant_core/ai_review_decisions.py:296-344 | The replace transaction: both tables change together as specified, or neither does; LedgerWrites.ReplaceEffect says which rows that leaves |
| RuleBacktest.NoLookAhead | services/quant_core/quant_core/backtest.py:161-308 | On the first k sorted bars the rule run makes exactly the decisions that the run on all bars dates with those bars, all its later decisions being dated with later bars, and marks the same equity points, apart from the closing liquidation; where the k-th bar is later than the one before it, the decisions of the short run are exactly those of the full run up to that time |
| PolicyProperties.NoLookAhead | services/quant_core/quant_core/backtest.py:324-546 | The same for the policy loop with its pending order, throttle and halts: the fills of the short run are exactly those of the full run up to its last bar's time |
| RuleBacktest.RulesConserve | services/quant_core/quant_core/backtest.py:161-322 | Ending equity minus initial cash is gross profit minus gross loss recomputed from the trades; trades alternate buy and sell with equal quantities; the run ends flat |
| PolicyProperties.PolicyConserves | services/quant_core/quant_core/backtest.py:324-565 | The same for the policy loop |
| RuleBacktest.RulesNeverOverdraw | services/quant_core/quant_core/backtest.py:244-308 | With rates in [0, 1] and non-negative prices, cash is never negative after any bar and the final equity is not either |
| PolicyProperties.PolicyNeverOverdraws | services/quant_core/quant_core/backtest.py:349-546 | The same for the policy loop |
| RuleBacktest.SignalIsProposal | services/quant_core/quant_core/backtest.py:202-242 | The standard signal never overrules the rules: its action is the proposed one in every reachable book |
| PolicyProperties.SizeAffordable | services/quant_core/quant_core/strategy_evaluator.py:1180-1213 | Entry sizing never asks for more than the cash buys, entry fee included |
| PolicyProperties.FillHasEffect | services/quant_core/quant_core/backtest.py:349-426 | Which of the three things a bar does to the pending order: nothing, a sell fill, or a buy fill of an affordable quantity |
| PolicyProperties.DecideHasEffect | services/quant_core/quant_core/backtest.py:449-521 | What deciding on a bar may change: a newly queued decision is dated with the bar, and a queued entry was neither halted nor throttled by the pruned entry times |
| PolicyProperties.LoopOrdered | services/quant_core/quant_core/strategy_evaluator.py:112-174 | A policy run that gets through has strictly increasing bar times, whatever order the bars came in |
| PolicyBreakers.HaltedBarFillsNoEntry | services/quant_core/quant_core/backtest.py:349-487 | While a breaker is tripped the next bar fills no entry, because the slot cannot hold one |
| PolicyBreakers.DrawdownHaltIsFinal | services/quant_core/quant_core/backtest.py:440-487 | Once the drawdown breaker trips it stays tripped and no later bar fills a buy |
| PolicyBreakers.DailyHaltHolds | services/quant_core/quant_core/backtest.py:428-487 | Once the daily breaker trips no buy fills up to and including the first bar of the next day |
| PolicyBreakers.SellsPassBreakers | services/quant_core/quant_core/backtest.py:474-521 | Whatever the breakers say, a sell decided on an open position is filled on the next bar at its price |
| PolicyBreakers.EntriesThrottled | services/quant_core/quant_core/backtest.py:349-487 | On minute-aligned bars no half-open hour, wherever it begins, holds more buy fills than the limit, although the limit is tested on a pruned list before the fill happens |
| PolicyBreakers.HourApartBoundsWindow | services/quant_core/quant_core/backtest.py:467-487 | Fill times at least an hour apart in every limit + 1 never crowd any window of an hour |
| PolicyBreakers.LoopThrottled | services/quant_core/quant_core/backtest.py:349-487 | The loop invariant behind it: every limit + 1 consecutive fills, the pending one included, span an hour |
| PolicyBreakers.NothingAdmitted | services/quant_core/quant_core/backtest.py:467-487 | A limit of zero or less admits no entry at all |
| Market.SortBarsSorts | services/quant_core/quant_core/backtest.py:168-175 | Sorting the bars is a permutation in time order |
| Market.SortedPrefixIsFixed | services/quant_core/quant_core/backtest.py:168-175 | A prefix of sorted bars sorts to itself |
| Market.IndicatorsLocal | services/quant_core/quant_core/indicators.py:4-36 | Moving average and RSI at an index depend on the values up to that index only |
| Market.LiquidatedConserved | services/quant_core/quant_core/backtest.py:290-308 | The closing liquidation leaves a flat, balanced book whose cash is the final equity |
| BacktestEngine.MetricsAgree | services/quant_core/quant_core/backtest.py:567-601 | For a conserved report the recomputed metrics agree with the run: total return is gross profit less gross loss over initial cash, and the trade count is twice the round trips |
| BacktestEngine.DrawdownIsLargestFall | services/quant_core/quant_core/indicators.py:39-48 | While equity is not negative, the maximum drawdown is the largest share of an earlier equity ever lost: no later point is further below an earlier one, some pair is that far apart, and it is at most one |
| BacktestEngine.MaxDrawdown | services/quant_core/quant_core/indicators.py:39-48 | The running-peak loop computes the largest fall from the peak so far, or zero |
| BacktestEngine.ComputeMetrics | services/quant_core/quant_core/backtest.py:567-601 | Return, win rate, profit factor, counts and maximum drawdown are the stated shares of the tally and of the equity values; the call fails exactly on zero initial cash |
| BacktestEngine.TallyTrades | services/quant_core/quant_core/backtest.py:567-601 | The pairing loop over trades computes wins, losses, gross profit and gross loss |
| BacktestEngine.Run | services/quant_core/quant_core/backtest.py:161-322 | The same-bar loop over cash, position, trades and equity computes the specified run and its metrics, errors included; RuleReports.RunTold says what that run is |
| BacktestEngine.RunPolicyStrategy | services/quant_core/quant_core/backtest.py:324-565 | The policy loop with its one-slot order computes the specified run and its metrics, errors included; PolicyFills.BarMeans and PolicyHalts say what its bars do |
| BacktestEngine.PruneTimes | services/quant_core/quant_core/backtest.py:467-473 | Pruning keeps exactly the entry times after the cutoff, in order |
| RuleReports.RunTold | services/quant_core/quant_core/backtest.py:161-322 | What a report of the rule run says, read off bars and trades alone: on each bar from the start, a flat book buys exactly when every entry condition holds and the stake buys something it can pay for, at the slipped close with the fee on the stake; an open one is sold whole exactly when stop, target or exit conditions call for it, with that reason; each equity point is cash plus position at the close; the last position is liquidated |
| RuleReports.EverySale | services/quant_core/quant_core/backtest.py:90-115 | Every sell of the run happens on one bar, with reason "stop_loss" exactly when its close is at or below (1 - stop) times the preceding buy's price, else "take_profit" exactly when it is at or above (1 + take) times it, else on met exit conditions |
| RuleReports.EveryPurchase | services/quant_core/quant_core/backtest.py:202-287 | Every buy of the run happens on one bar on which every entry condition holds, for the allowed share of the cash the trades before it left |
| RuleReports.HeldOver | services/quant_core/quant_core/backtest.py:90-115 | A position still open after a later bar: its close was strictly between both thresholds and the exit conditions did not hold |
| RuleReports.FlatOver | services/quant_core/quant_core/backtest.py:202-287 | A flat book after a bar that could be bought on: an entry condition failed or the stake bought nothing |
| RuleSignals.StepTrades | services/quant_core/quant_core/backtest.py:202-287 | The trades one bar of the rule loop adds, in any book |
| RuleSignals.ConditionMeans | services/quant_core/quant_core/backtest.py:64-87 | A condition is an inequality: of close or volume and their means, or of the RSI and a threshold |
| Indicators.SmaMeans | services/quant_core/quant_core/indicators.py:4-10 | The moving average times the window is the sum of the last values; there is one exactly from the window's last index on |
| Indicators.RsiMeans | services/quant_core/quant_core/indicators.py:13-36 | The RSI is the share of the gains in all moves of the window in percent, 100 or 50 without a fall; there is one exactly once the window has its moves |
| PolicyHalts.DrawdownExactly | services/quant_core/quant_core/backtest.py:428-447 | After any number of bars the drawdown breaker is tripped exactly when a limit is set and some evaluated bar's equity point is at or below (1 - limit) times the largest of the initial cash and the points up to it |
| PolicyHalts.DailyExactly | services/quant_core/quant_core/backtest.py:428-447 | The daily breaker is tripped exactly when a limit is set and some bar of the current day so far closed with cash plus position at or below (1 - limit) times the value on that day's first bar |
| PolicyFills.BarMeans | services/quant_core/quant_core/backtest.py:349-546 | One bar of the policy loop, as facts about cash, position, trades, strategy state, pending slot, entry times, breakers and equity: which of them it changes, to what, and that nothing else changes |
| PolicyFills.FillMeans | services/quant_core/quant_core/backtest.py:349-426 | What a bar does to the waiting order: the price, quantity, fee, cash and trade of its fill, or why it is dropped |
| PolicyFills.DecideMeans | services/quant_core/quant_core/backtest.py:449-521 | What a bar queues: nothing, or the strategy's decision dated with the bar, a hold where the position does not allow it, an entry only if no breaker is tripped and the past hour holds fewer entries than the limit |
| PolicyFills.SizeMeans | services/quant_core/quant_core/strategy_evaluator.py:1180-1213 | The entry size is the largest multiple of 0.00001 within the risk budget, the share of cash, the cash with its fee and the largest notional, or zero when worth less than the minimum; it fails exactly on a cost of zero per unit |
| PolicyRuns.RunsExactly | services/quant_core/quant_core/backtest.py:168-175 | For an evaluator that always answers and fills that are always accepted: a policy run gets through exactly when there are bars, it starts at one of them, no two have one timestamp, and each is admitted after the ones before it; else the stated errors |
| PolicyRuns.ReportMeans | services/quant_core/quant_core/backtest.py:522-565 | The report of a policy run is its last state, an open position sold at the last close |
| RuleRuns.RunsExactly | services/quant_core/quant_core/backtest.py:161-242 | A rule run gets through exactly when there are bars, it starts at one of them, and no evaluated bar comes to an unsupported condition or one without a positive window, all conditions before it being met; for well-formed conditions only bars and start matter |
| Money.LiquidatedMeans | services/quant_core/quant_core/backtest.py:290-308 | A position open at the end is sold whole at the slipped last close, less its fee; the last equity point becomes the cash |
| Market.SortBarsIsStable | services/quant_core/quant_core/backtest.py:168-175 | Bars with one timestamp keep their order |
| KeycloakReconciler.Server.Reconcile | tools/apply_keycloak_claude_cimd.py:816-1008 | With apply the run ends in the desired state exactly when the server reads, every scope exists, no mapper name is ambiguous and no desired scope list is empty. In that state every desired realm field, provider key, client field and attribute, scope set and scope field is the stored value, and by name each managed scope's mappers, less their ids, are the desired ones, literally so where these hold no null. The final verification never fails; a server that stores all this is left unchanged; apply never answers "ready"; without apply nothing changes and "ready" means the stored values are the desired ones, secrets present; whatever the configuration does not mention survives every outcome; the mask is never stored |
| KeycloakReconciler.Server.Migrate | tools/apply_keycloak_claude_cimd.py:872-982 | All the writes of one run in order: they reach the settled state or stop at a drift that cannot be repaired |
| KeycloakReconciler.Server.MigrateClients | tools/apply_keycloak_claude_cimd.py:872-931 | Realm, provider and clients, with up to two more readings: both clients are found where the reading says, and nothing unmanaged is touched |
| KeycloakReconciler.Server.MigrateScopes | tools/apply_keycloak_claude_cimd.py:932-982 | Scope payloads and the six scope sets: success exactly when the scopes exist and mapper names are unambiguous, and then everything is as desired |
| KeycloakReconciler.Server.ReadCurrent | tools/apply_keycloak_claude_cimd.py:427-545 | A reading reports what the server shows, or the first check that fails |
| KeycloakReconciler.Server.SyncScopePayloads | tools/apply_keycloak_claude_cimd.py:730-793 | Succeeds exactly when every managed scope exists with unambiguous mapper names; then all match; other scopes and unmanaged fields are untouched |
| KeycloakReconciler.Server.SyncScope | tools/apply_keycloak_claude_cimd.py:739-793 | One scope: core rewritten only if it differs; the mapper diff ends in a match; mappers that matched keep their ids; a matching scope is not touched |
| KeycloakReconciler.Server.SyncMappers | tools/apply_keycloak_claude_cimd.py:755-793 | Delete, then create or rewrite: afterwards the stored mappers, less their ids and keyed by name, are the desired ones, literally so where these hold no null; those already stored so keep their ids, and if all were, nothing is written |
| KeycloakReconciler.Server.SyncDefaultScopes | tools/apply_keycloak_claude_cimd.py:796-813 | The two loops leave exactly the set difference applied; a missing desired scope changes nothing |
| KeycloakReconciler.Server.WriteRealm | tools/apply_keycloak_claude_cimd.py:872-876 | The rewritten realm stores every desired field, keeps the others, and is a fixpoint |
| KeycloakReconciler.Server.WriteProvider | tools/apply_keycloak_claude_cimd.py:877-897 | The provider is created or merged over its masked reading: desired values stored, other keys kept, a fixpoint |
| KeycloakReconciler.Server.WriteClient | tools/apply_keycloak_claude_cimd.py:898-911 | The client is merged unless it matches; every look-up still finds it |
| KeycloakReconciler.Server.WriteCodex | tools/apply_keycloak_claude_cimd.py:912-931 | The Codex client is created and re-read, or merged unless ready; only the lists a new client starts with can fail the reading |
| Keycloak.SettledVerifies | tools/apply_keycloak_claude_cimd.py:984-1008 | Every reading of a settled server passes the final verification, masked secrets included |
| Keycloak.SettledReadable | tools/apply_keycloak_claude_cimd.py:295-303 | A settled server can be read back exactly when no desired client scope list is empty |
| KeycloakEmptyLists.EmptyListIsUnreadable | tools/apply_keycloak_claude_cimd.py:295-303 | A valid configuration with an empty client list and a readable server on which nothing else is missing: the run cannot end well, and the settled server it is to reach is refused by the reading that verifies it |
| KeycloakEmptyLists.FilledListIsReadable | tools/apply_keycloak_claude_cimd.py:984-1008 | The same configuration with one scope in that list is settled, readable and reconcilable |
| Keycloak.RewriteIsFixpoint | tools/apply_keycloak_claude_cimd.py:883-897 | Writing the merge of a masked reading and the desired values over a settled representation changes nothing |
| Keycloak.MergeHolds | tools/apply_keycloak_claude_cimd.py:883-911 | A merge stores every desired key and leaves every other field and key as it was |
| Keycloak.MaskNotStored | tools/apply_keycloak_claude_cimd.py:883-897 | A rewrite from a masked reading never stores the mask |
| Keycloak.HeldReadsAsMatching | tools/apply_keycloak_claude_cimd.py:658-675 | What is stored as desired reads as matching, the masked secret excused |
| KeycloakWrites.MatchShowsMask | tools/apply_keycloak_claude_cimd.py:626-675 | A matching representation always shows its secret masked, so apply always rewrites it |
| KeycloakWrites.PayloadsRead | tools/apply_keycloak_claude_cimd.py:720-727 | The payload comparison of a reading holds exactly when every managed scope of the server matches |
| KeycloakWrites.FrameTwice | tools/apply_keycloak_claude_cimd.py:816-1008 | The frame of a run composes over its writes |
| KeycloakMappers.PlacedAll | tools/apply_keycloak_claude_cimd.py:780-793 | Once every desired name has been created, rewritten or left, the scope's mappers match |
| KeycloakMappers.AllMatchedStay | tools/apply_keycloak_claude_cimd.py:780-793 | Mappers that matched before are neither rewritten nor re-created |
| KeycloakMappers.KeepNamed | tools/apply_keycloak_claude_cimd.py:775-779 | Deleting undesired names leaves uniquely named mappers, all desired; a matching scope has nothing to delete |
| KeycloakValues.MapperMeans | tools/apply_keycloak_claude_cimd.py:678-683 | A mapper matches exactly when, less its id and its nulls, it has the desired values and no key beyond the desired ones; for a desired mapper without nulls exactly when the two are equal less the id |
| KeycloakValues.MappersMean | tools/apply_keycloak_claude_cimd.py:686-717 | The mappers of a scope match exactly when each has a name of its own, the names are the desired ones and under each name is the desired mapper |
| KeycloakValues.ClientMeans | tools/apply_keycloak_claude_cimd.py:643-655 | A client matches exactly when every desired field is the stored value and its attributes include every desired one |
| KeycloakValues.ReadableMeans | tools/apply_keycloak_claude_cimd.py:626-675 | The shown realm or provider matches exactly when every desired value but the secret is the stored one and some secret is stored |
| KeycloakValues.VerifiedMeans | tools/apply_keycloak_claude_cimd.py:984-1008 | A reading passes verification exactly when the server stores every desired value that can be read |
| KeycloakValues.SettledMeans | tools/apply_keycloak_claude_cimd.py:816-1008 | A settled server is exactly one that stores every desired value, secrets included |
| KeycloakValues.ReadErrorMeans | tools/apply_keycloak_claude_cimd.py:427-545 | When a reading fails and how: an unsafe flow, a client missing or ambiguous, or one with an empty scope list |
| StreamFraming.TakeLines | services/quant_core/quant_core/ai_review_providers.py:1266-1295 | Splitting a buffer yields its complete lines and the unterminated rest |
| StreamFraming.ReadLines | services/quant_core/quant_core/ai_review_providers.py:1266-1295 | Any split of the bytes into chunks yields the lines of their concatenation when nothing interrupts the reading and the byte limit holds; when the limit, the deadline or the stop flag ends it, the lines completed by the chunks before that |
| StreamFraming.OneEnding | services/quant_core/quant_core/ai_review_providers.py:1266-1295 | A reading ends in exactly one way, with exactly one list of lines |
| StreamFraming.CompleteExactly | services/quant_core/quant_core/ai_review_providers.py:1266-1295 | It reaches the end exactly when no read is interrupted and the bytes are within the limit |
| StreamFraming.SplitResumes | services/quant_core/quant_core/ai_review_providers.py:1266-1295 | Splitting may stop and resume at any byte |
| EventStream.ParseEvents | services/quant_core/quant_core/ai_review_providers.py:1298-1313 | The event loop over lines computes the specified events, the pending one at end of stream included |
| EventStream.ReadEvents | services/quant_core/quant_core/ai_review_providers.py:1266-1313 | Framing and parsing composed: the events of the lines read; one still waiting for its blank line is yielded at the end of the stream and after a stop, and lost when the limit or the deadline is raised |
| EventStream.EncodedRoundTrip | services/quant_core/quant_core/ai_review_providers.py:1266-1313 | Every well-formed stream of comments, fields, data lines (spaced or not, LF or CRLF) and blank lines is read back as its meaning, under any chunking |
| EventStream.EventsRoundTrip | services/quant_core/quant_core/ai_review_providers.py:1266-1313 | Any list of events whose lines end in no carriage return is read back exactly, under any chunking |
| EventStream.ReadBack | services/quant_core/quant_core/ai_review_providers.py:1266-1313 | Writing a stream and reading it in chunks within the limit returns its events |
| EventLosses.RoundTripExactly | services/quant_core/quant_core/ai_review_providers.py:1266-1313 | For any list of events and any chunking: they are read back as written exactly when every event has a line and no line holds a newline or ends in a carriage return |
| EventLosses.StreamHolds | services/quant_core/quant_core/ai_review_providers.py:1298-1313 | Reading never yields more text than was written, and less exactly when some line holds a newline or ends in a carriage return |
| EventLosses.EmptyEventsAreLost | services/quant_core/quant_core/ai_review_providers.py:1298-1313 | Fewer events come back when one of them has no line |
| EventStream.EatenCarriageReturn | services/quant_core/quant_core/ai_review_providers.py:1298-1313 | A concrete loss: a trailing carriage return is eaten |
| EventStream.FinalNewlineOptional | services/quant_core/quant_core/ai_review_providers.py:1266-1295 | A missing final newline changes no line |
| EventReading.EveryStreamMeans | services/quant_core/quant_core/ai_review_providers.py:1266-1313 | Any byte stream at all is a list of well-formed items, and the events read from it are what these mean |
| EventReading.JoinedSplit | services/quant_core/quant_core/ai_review_providers.py:1298-1313 | The lines joined in an event can be told apart again at its newlines |
| ReviewVerdicts.SupportedExactly | services/quant_core/quant_core/ai_review_stage3.py:182-464 | "supported" is issued exactly when hash, boundary and references are valid and every experiment has complete, bound data, one selected candidate that is the referenced one, a passed formal gate, complete metrics and all thresholds |
| ReviewVerdicts.BlockedExactly | services/quant_core/quant_core/ai_review_stage3.py:182-441 | "blocked" is the stance exactly when hash or boundary is wrong, or some experiment's data or formal gate evidence blocks |
| ReviewVerdicts.StanceIsJoin | services/quant_core/quant_core/ai_review_stage3.py:182-441 | The stance is the most severe of the bundle's verdict and its references' verdicts |
| ReviewMonotone.NeverImproves | services/quant_core/quant_core/ai_review_stage3.py:182-464 | Adding a comparison with its evidence to an intact bundle never improves the stance when its id clashes with no id already referenced |
| ReviewClash.ClashIsExact | services/quant_core/quant_core/ai_review_stage3.py:182-464 | Over all bundles on given experiments and all evidence of a further one: the stance never improves exactly when the new id clashes with none of theirs, where ids clash if the new one equals another, ends at one of its colons, or continues its candidate ids |
| ReviewClash.ClashImproves | services/quant_core/quant_core/ai_review_stage3.py:229-272 | For every clashing pair a bundle that goes from blocked to insufficient: the added evidence hides the failed gate |
| ReviewClash.ClashPassesService | services/quant_core/quant_core/ai_review_runs.py:905-958 | For distinct clashing ids the service's own check accepts that bundle before and after |
| ReviewMonotone.NotItsCandidate | services/quant_core/quant_core/ai_review_stage3.py:256-271 | Evidence of an experiment that does not clash is never selected as another's candidate |
| ReviewMonotone.NotItsQuality | services/quant_core/quant_core/ai_review_stage3.py:229-241 | nor taken for its data quality |
| ReviewEngine.EvaluateBundle | services/quant_core/quant_core/ai_review_stage3.py:182-441 | The engine's loops compute the specified assessment, validation errors included; ReviewConsistency, ReviewRisks and ReviewReading say what it holds |
| ReviewConsistency.ConsistencyExactly | services/quant_core/quant_core/ai_review_stage3.py:528-542 | For distinct experiments: insufficient exactly when there are fewer than two references or one shows no complete candidate; otherwise consistent exactly when every comparison agrees with the primary in the signs of its returns and the crossed drawdown, trade and window thresholds, divergent exactly when more than half differ, mixed for the rest |
| ReviewRisks.RisksExactly | services/quant_core/quant_core/ai_review_stage3.py:182-441 | A risk is reported exactly when hash or boundary is wrong or some reference's own evidence gives rise to it, with its severity and the id of the item it comes from |
| ReviewRisks.GapsExactly | services/quant_core/quant_core/ai_review_stage3.py:182-464 | A gap is reported exactly when a reference is none or some reference's evidence lacks what the sentence says |
| ReviewReading.StanceReads | services/quant_core/quant_core/ai_review_stage3.py:406-441 | The stance read off the report: blocked exactly with a critical risk, else insufficient exactly with a gap, else caution exactly with a risk |
| ReviewReading.ReferencesMean | services/quant_core/quant_core/ai_review_stage3.py:444-475 | Which references are reviewed, in which order: the primary one, then the comparisons that name an experiment and a candidate |
| ReviewReading.AcceptedExactly | services/quant_core/quant_core/ai_review_stage3.py:149-178 | An assessment is issued exactly when it holds at most fifty risks and gaps, short texts and only ids of the bundle |
| ReviewReading.NotAfterMeans | services/quant_core/quant_core/ai_review_stage3.py:477-497 | The order of the two time stamps is lexicographic |
| ReviewEngine.ReviewReferences | services/quant_core/quant_core/ai_review_stage3.py:223-405 | The loop over references accumulates blocks, risks, gaps and signatures as specified |
| ReviewEngine.ExperimentReferences | services/quant_core/quant_core/ai_review_stage3.py:444-464 | The loop over comparisons collects the valid references and a gap for each invalid one |
| ReviewEngine.ValidateAssessment | services/quant_core/quant_core/ai_review_stage3.py:149-178 | The validation loops report the first thing wrong with an assessment |
| ReviewEngine.NeverCitesUnknown | services/quant_core/quant_core/ai_review_stage3.py:149-441 | The engine never cites evidence the bundle does not hold, so its own validation never fails for that reason |
| ReviewAgreement.WriterAgreesWithValidator | services/quant_core/quant_core/ai_review_stage3.py:1092-1326 | A record is written exactly when approval fits the provider, the bundle is checked and assessed and its prompt renders; it is accepted exactly when the provider is local, or some evidence reaches the prompt, the registered model name is trimmed and non-empty, the registered base URL has an endpoint, and only an execution-semantics refusal carries a diagnostic; otherwise exactly its external part is refused |
| ReviewAgreement.AttemptAccepted | services/quant_core/quant_core/ai_review_runs.py:1393-1549 | The same for the external part alone |
| ReviewAgreement.RestIsAccepted | services/quant_core/quant_core/ai_review_runs.py:795-883 | Whatever the external part, the rest of a written record passes every check of the store |
| ReviewAgreement.AskedAccepted | services/quant_core/quant_core/ai_review_stage3.py:1272-1326 | A reply, refusal or crash of an addressed provider is recorded acceptably, under the condition on diagnostics |
| ReviewAgreement.UnconfiguredAccepted | services/quant_core/quant_core/ai_review_stage3.py:1185-1239 | The unconfigured record is accepted exactly when the registered model and base URL are fit |
| ReviewOutcomes.AskedExactly | services/quant_core/quant_core/ai_review_stage3.py:1272-1326 | What is recorded of an addressed provider: completed exactly when the answer is its own, valid and cites only what it was shown, with that answer and its counts; else failed, with the refusal's own code and diagnostic and its detail as shown |
| ReviewOutcomes.AttemptExactly | services/quant_core/quant_core/ai_review_stage3.py:1149-1326 | Which of the outcomes an attempt has: local, unconfigured, asked; and what each records |
| ReviewOutcomes.CreatedRecord | services/quant_core/quant_core/ai_review_stage3.py:1092-1147 | A written record binds the bundle, the engine's assessment of it and the attempt under its id and time, sealed by its hash |
| ReviewOutcomes.AcceptedIsIntact | services/quant_core/quant_core/ai_review_runs.py:795-958 | An accepted record is sealed, fits its evidence, and if completed holds a valid reply to what was shown under the hashes of what was asked and answered |
| ReviewOutcomes.ValidReply | services/quant_core/quant_core/ai_review_stage3.py:149-178 | A reply is valid exactly with one of the four stances and consistencies, short texts, at most fifty of each kind, and references to shown evidence |
| ReviewOutcomes.EndpointMeans | services/quant_core/quant_core/ai_review_runs.py:1369-1390 | Which endpoint a base URL has |
| ReviewAgreement.MessageIsTrimmed | services/quant_core/quant_core/ai_review_stage3.py:1873-1877 | The recorded error message is never empty, padded, too long or secret-like |
| Texts.StripKeeps | services/quant_core/quant_core/ai_review_stage3.py:1873-1877 | Stripping takes blank text off the two ends and nothing else |
| ReviewTotality.CheckedIsAssessed | services/quant_core/quant_core/ai_review_stage3.py:149-441 | Every bundle the service has checked, with ids that leave room for the sentences about them, is assessed: the engine's own validation never refuses it |
| ReviewMisfits.UnshownIsRefused | services/quant_core/quant_core/ai_review_stage3.py:1421-1448 | For every reviewable bundle of unselected candidates alone, a record is built and refused |
| ReviewMisfits.UntrimmedModelIsRefused | services/quant_core/quant_core/ai_review_stage3.py:1160-1199 | For every reviewable bundle and every model name that is empty or padded, a record is built and refused |
| ReviewMisfits.ForeignBaseIsRefused | services/quant_core/quant_core/ai_review_stage3.py:1169-1239 | For every reviewable bundle and every sanitised base URL without an endpoint, a record is built and refused |
| ReviewMisfits.DiagnosticIsRefused | services/quant_core/quant_core/ai_review_stage3.py:1305-1326 | For every reviewable bundle and every refusal with a diagnostic, other than for execution semantics, a record is built and refused |
| ReviewMisfits.HoldingIsReady | services/quant_core/quant_core/ai_review_runs.py:905-958 | Concrete bundles, of one context item and of one unselected candidate, that are reviewable and show that one item or none |
| ReviewRegistry.ShippedIsAccepted | services/quant_core/quant_core/ai_review_providers.py:892-989 | With the registry read from any environment, the shipped adapters and assembled evidence: every record written is accepted; and with short ids one is written exactly when approval, bundle and prompt allow it |
| ReviewRegistry.ShippedOutcome | services/quant_core/quant_core/ai_review_providers.py:1440-1513 | What is recorded: not configured exactly when the provider is not; completed exactly when it is and its payload is valid and free of execution semantics, and then with that payload and its counts |
| ReviewRegistry.RegisteredEndpoint | services/quant_core/quant_core/ai_review_providers.py:938-979 | A registered base URL is recorded as it is and has exactly the endpoint the adapter posts to |
| ReviewRegistry.ReachedIffConfigured | services/quant_core/quant_core/ai_review_stage3.py:1185-1271 | A provider is asked exactly when it is configured |
| OutcomeScoring.LaterBarsChangeNothing | services/quant_core/quant_core/ai_research_m4.py:490-567 | Bars appended to the outcome run, and benchmark bars after the outcome, change no scored value |
| OutcomeScoring.ReturnCoversExcursion | services/quant_core/quant_core/ai_research_m4.py:508-525 | With low <= close <= high the stance-adjusted return is at least the adverse excursion, which is at most zero, for all three stances and any monotone symmetric rounding |
| OutcomeScoring.ExcursionBounds | services/quant_core/quant_core/ai_research_m4.py:1089-1104 | The same for the excursion of any bars, from their last bar |
| OutcomeMeaning.ScoredExactly | services/quant_core/quant_core/ai_research_m4.py:490-567 | A recommendation is scored exactly when the runs fit it, some bar is the last of its horizon with known prices, and the benchmark is known at the reference time and later at the outcome time |
| OutcomeMeaning.ScoreMeans | services/quant_core/quant_core/ai_research_m4.py:490-567 | The scored values as facts about the reference price, the horizon bar and the last benchmark bars at or before the two times: raw and benchmark return, alpha their difference, the stance's sign, price and time |
| OutcomeMeaning.AdverseMeans | services/quant_core/quant_core/ai_research_m4.py:1089-1104 | The adverse excursion is the largest move against the stance over the horizon, as a loss in percent, attained on some bar or zero |
| EvidenceRuns.FirstWriterWins | services/quant_core/quant_core/ai_research_m4.py:50-134 | From a state without the event or any call: in an interleaving all returned calls hold, at every moment, the stored artifact, with exactly one creator once it is stored, exactly when every write from outside leaves the stored artifact alone |
| EvidenceRuns.StepAgreesExactly | services/quant_core/quant_core/audit_events.py:149-254 | The exact condition of one step: starts and inserts always keep the agreement; an upsert exactly when its last event of that id repeats the stored artifact, an insertion from outside exactly when the event is stored, a deletion exactly when it spares it |
| EvidenceRuns.ReturnsAgree | services/quant_core/quant_core/ai_research_m4.py:50-134 | Then two returned calls for one event hold the same artifact and are not both its creator |
| EvidenceRuns.UpsertBreaksAgreement | services/quant_core/quant_core/audit_events.py:149-201 | A concrete interleaving with an upsert in which two calls return different artifacts |
| AuditEvents.Store.RecordIfAbsent | services/quant_core/quant_core/audit_events.py:203-254 | Inserts the normalised event if its id is free, returns the stored one either way and says whether it inserted |
| AuditEvents.Store.RecordMany | services/quant_core/quant_core/audit_events.py:149-201 | Every event is normalised before the first is written; then later events overwrite earlier ones |
| AuditEvents.LastEventWins | services/quant_core/quant_core/audit_events.py:149-201 | After several upserts each id holds the last event given for it, and ids given none hold what they held |
| SpotOrders.PreparedExactly | services/quant_core/quant_core/binance_spot_orders.py:295-383 | An order is prepared exactly when it is well-formed for an active market, meets the minimum amount, its rounded amount and price are positive, inside every amount, price and cost limit, under the buy cap and covered by the free balance, and the precisions, minimums and fee to be repeated are finite and not negative; infinite and NaN limits and balances are as floats compare; then with those numbers |
| SpotOrders.PreparationIsFixpoint | services/quant_core/quant_core/binance_spot_orders.py:295-383 | A prepared order prepares to itself on the same market and balance exactly when the venue's rounding leaves its amount and price alone |
| SpotOrders.PreparedIsSubmitted | services/quant_core/quant_core/binance_spot_orders.py:234-292 | With idempotent rounding a prepared order is never rejected as changed |
| SpotOrders.SubmittedExactly | services/quant_core/quant_core/binance_spot_orders.py:234-292 | An order is submitted exactly when it can be prepared and no prepared number is further from the order's own than its tolerance; it is refused as changed exactly when one is |
| SpotOrders.CurrenciesMean | services/quant_core/quant_core/binance_spot_orders.py:489-496 | Which two currencies an order moves |

## Left out

- SQL text, schema migration and JSON encoding of rows: tables are maps and sequences whose columns agree with the record.
- SHA-256, canonical JSON, uuids and clocks: functions or inputs.
- Text screening by regular expressions and the field-by-field checks of single records: predicates.
- Normalisation of legacy review records beyond accepting or refusing them; only upsert and ownership are modelled.
- BacktestEngine.ComputeMetrics: does not model `annual_return_pct` (fractional powers), and leaves values unrounded.
- BacktestEngine.Run: prices and cash are reals, so floating-point rounding is not modelled; proposal and signal ids are left out and the snapshot hash is a function of the bars seen.
- BacktestEngine.RunPolicyStrategy: likewise, and the strategy evaluator, its context and the fill transition are functions whose own rules are not modelled.
- KeycloakReconciler.Server.ReadCurrent: malformed JSON shapes of the admin API's answers, authentication and HTTP errors are not modelled; the first-broker-login check is one flag.
- Building the desired Keycloak configuration from template and environment: its result is a value with stated properties.
- KeycloakReconciler.Server.SyncDefaultScopes: the sorted order of the requests is not modelled, only their set.
- StreamFraming.ReadLines: UTF-8 decoding is not modelled; bytes are characters, and the deadline and the stop flag are what each read finds them to be.
- The review texts beyond gaps and citations: the fixed sentences of risks, summary and watch items are tags.
- ReviewTotality.CheckedIsAssessed: experiment and candidate ids are taken to leave room for the sentences made from them, 1900 characters together.
- ReviewRegistry.ShippedIsAccepted: the URL check is a function whose results are taken to pass it unchanged; the text screen for execution semantics is a function; transport errors are any error code with any detail.
- ReviewAgreement.WriterAgreesWithValidator: the transitional rendering of first-template prompts is a function; evidence projection is modelled by which items reach the prompt.
- EvidenceRuns.FirstWriterWins: the artifact's contents (claims, lessons, certainty) are one value chosen by the call.
- SpotOrders.PreparedExactly: limits given as numeric text or booleans are modelled by no number at all, products are exact, and the constant execution assumptions are left out.
- Exchange and provider HTTP calls, sockets, threads, redaction, market-data adapters, the API layer, the front ends and the command-line tools.
