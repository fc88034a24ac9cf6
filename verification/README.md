# Verified model of the tracing platform's core

This project models the parts of the platform where correctness is hard to see by reading, and proves what they
are there for. It is written for Dafny 4.11; `dafny verify dfyconfig.toml` checks all of it.

- **Trace engine.** A walk over tainted money: a max-heap with stale entries over a changing frontier, two taint models,
  stop conditions, top-K fan-out and buffered writes. `TaintQueue` is the heap, array by array; `TraceModel` says what
  expanding one address does to a plain frontier map whose next address is always one of greatest taint; `TraceLoop` makes
  the loop a function of what the adapters answer, so that the attempts of a job can be compared (`TraceRetry`);
  `TraceEngine.TraceRun` is the code's loop with its heap, maps, buffers and counters and with a failure at any await,
  proved to perform exactly such a run. Which transfers an address is followed along is said of the transfers themselves
  (`TraceSelection`), and so is how they share its balance (`TraceShares`). What holds of every run is proved about those
  runs: what arrives where and what is left behind (`TraceArrivals`), paths (`TracePaths`), rows (`TraceRows`), conservation
  (`TraceTaint`). `TraceInputs` says when the transfers an adapter collects meet what the
  engine needs of them.
- **Provider layer.** The circuit breaker over every sequence of answers and reports (`CircuitBreaker`); bounded retry and
  failover against a provider, a breaker and a budget that answer anything (`ProviderCall`); any number of calls
  interleaved over real breakers (`CallSystem`), and what they do told from the reports alone (`CallLaws`); the single-flight cache over every interleaving; the deduplicating walk
  over a pager that is not trusted; the ranks that serve as transfer indexes; and the two-stage TRON walk.
- **Canonical JSON and the audit chain.** A printer proved injective by a reader that undoes it and meets
  the keys of every object in ascending order (`CanonicalOrder`), and a hash-chained log.
- **Bitcoin.** Union-find clustering against chains of accepted transactions, and the floor split of outputs over payers.
- **Mule features.** Breadth-first distances, rolling windows, fan-out and its rule.
- **Intake and monitoring.** Case linkage, trace jobs and row statuses of a batch, and the import that other imports may
  overtake (`Imports`), with what a committed one stored said of the complaints themselves (`ImportLaws`); the probe semaphore; the pass over watched addresses (`TronPoller`) and what its checkpoints and
  cached pages mean over time (`PollHistory`).

Amounts in USD are reals; `Fin(x)`/`Inf` is a taint that is finite or, for a seed without a reported amount, unbounded.
A digest is any function that is injective on canonical texts. A comparison such as `localeCompare` is any strict total
order. Adapters, labels, bridge resolvers, clocks, ids and databases are parameters: functions, sequences and maps.

What the model found in the code:

- After every step of every run, what waits on the frontier plus what expanded addresses kept is what the trace has to
  account for, plus what bridge crossings mint, plus what edges with one (txHash, idx) are credited twice:
  `TraceTaint.TaintBalance`. What it has to account for is the reported amount, or for a job without one, all that the
  transfers selected at its seed are worth, once the seed is expanded. Intake creates every job without an amount
  (apps/api/src/intake/service.ts:239), so every such seed starts unbounded (workers/trace/engine.ts:146).
  Each resolved bridge leg is allotted the node's whole balance again (workers/trace/engine.ts:275-284). Where (txHash, idx)
  is unique at every address, taint is conserved exactly as long as no address with a positive or unbounded balance sends a
  positively priced leg through a bridge that resolves to an address not expanded yet: `TraceTaint.ConservedExactlyWhen`,
  with `TraceTaint.BridgeDoublesTaint` as an instance. Production passes no resolver (workers/src/index.ts:100-108), so there
  repeated keys alone can break the balance (`TraceTaint.TaintConserved`, `TraceTaint.SharesLookedUp`).
- A retried job is promised to be safe (workers/trace/engine.ts:116-121), and is not: the provider cache keeps transfers but
  not their prices, as `enrich` runs outside it on every call (workers/adapters/tron.ts:149, btc.ts:95, evm.ts:156) and leaves
  a transfer unpriced when no source answers (workers/adapters/pricing.ts:138-154). A row stored without its price stays
  without it, and with a late price another edge may be selected: `TraceRetry.PriceArrivesLate`, `TraceRetry.SelectionChanges`.
  Whatever earlier attempts wrote, the table ends as one clean attempt leaves it if and only if every stored row is the one
  that attempt stores under its key (`TraceRetry.TableSafeIff`), and the graph if and only if they changed no edge it does
  not write (`TraceRetry.GraphSafeIff`). Where earlier attempts got the same answers, prices included, a retry is safe
  (`TraceRetry.RetryIsSafe`).
- The unique key of the Hop table leaves out `idx` (apps/api/prisma/schema.prisma:223). A run's `hopsWritten` equals the
  rows stored exactly when no two rows share that key: `TraceRows.StoredCount`, `TraceRows.StoredRowLost`.
- A half-open trial whose call leaves on a spent budget or a hard failure (workers/adapters/providerGuard.ts:215-220, 231-235)
  tells the breaker nothing. If no other call is still out at that provider, it is never tried again, whatever happens:
  `CallSystem.SilentLeaveStrands`, `CallSystem.StrandedForever`; nothing else strands a provider
  (`CallSystem.OnlySilentLeaves`), and `CallSystem.StrandingRun` is such a run from the start. Over every history a later
  request is admitted if and only if some call reports a success or a retryable failure in between:
  `CallSystem.RecoversExactlyWhen`.
- `collectTransfers` reports `truncated: false` when a cursor comes back a second time. Such a walk read the provider's last
  page if and only if no cursor repeated: `Pagination.CompleteIff`. A failover followed by a failback does repeat one, as a
  stage restarts on the provider it changes to (workers/adapters/evm.ts:145-153), and all later pages of both providers are
  then missing: `Pagination.FailbackLosesPages`.
- TRON indexes are ranks within one page (workers/adapters/tron.ts:165, 186), so a walk returns the provider's history
  exactly when no transaction has rows on two pages: `TronWalk.WalkIsWholeIff`. The engine still gets distinct (txHash, idx)
  exactly when no two pages hold rows of one transaction with one idx and different parties (`TraceInputs.TronKeysIff`,
  `TraceInputs.CutClashes`); where they do, each edge counts the share of the last edge with its key
  (`TraceTaint.SharesLookedUp`, `TraceTaint.ClashCountsTwice`).
- The two views of a Bitcoin payment agree on its amount, but on its `idx` only for the payer that sorts first:
  `BtcMoney.ViewsAgree`. A sender's view uses no idx twice; a receiver's does exactly when two of its outputs m < n have
  payers of ranks p and q with 1000 m + p = 1000 n + q (workers/adapters/btc.ts:129): `BtcMoney.IdxUniqueIff`. Up to a
  thousand payers, or with one output, that cannot be (`BtcMoney.IdxUnique`); beyond, it can (`BtcMoney.IdxCollides`).
- A Bitcoin sender's rows can add up to more than it paid: outputs are split over the inputs that have an address
  (workers/adapters/btc.ts:99-106), and where others carry value those payers are credited with it too, as with 90 for an
  input of 1 (`BtcMoney.UnaddressedInputBreaks`). Rows are bounded by what a sender paid when the addressed inputs cover what
  others receive (`BtcMoney.CoveredIsBounded`), for a sole payer exactly then (`BtcMoney.SolePayerIff`), and not once its
  part exceeds what it paid by more than rounding can take off (`BtcMoney.BeyondIsBroken`).
- The poller's header comment says the checkpoint is the last transfer's time plus one millisecond, so that a restart never
  sees a transfer twice (workers/monitor/tronPoller.ts:32-35). The code writes the clock of the pass (line 92), taken before
  any page is read (line 40), and every page is cached for good under the address, `since` and the cursor
  (workers/adapters/tron.ts:136-137), in Redis (workers/src/index.ts:43). Two things follow.
  A poll that dies leaves its pages, the retry asks from the same `since` (workers/monitor/checkpoint.ts:70-72), reads them
  back and saves a later checkpoint; what the provider showed in between is lost (`PollHistory.CrashLoses`,
  `PollHistory.LosingRunLoses`). A transfer is evaluated if and only if no saved poll moved the checkpoint past it on a page
  read before it was visible: `PollHistory.EvaluatedIff`.
  And a poll that reads a transfer sent after its pass took the clock evaluates it, and so does the next poll, whose window
  starts at that clock (`PollHistory.DoubleRunRepeats`). A transfer is evaluated exactly once if and only if neither happens:
  `PollHistory.EvaluatedOnceIff`.
- The unique key of acknowledgement numbers makes overlapping imports create a complaint once, after at most three attempts:
  `Imports.IntakeService.Ingest`. Cases and traces have no such key, and a batch reads them before its transaction
  (apps/api/src/intake/service.ts:132-262). Two overlapping imports leave two traces for one case, chain and seed exactly
  when one stores a trace the other asked for after reading (`Imports.TwinIff`, `ImportRuns.TwinRun`). A complaint ends
  outside the earliest case that shares a wallet with it exactly when another import stored one of its wallets meanwhile
  and it opened a case of its own or joined a later one (`Imports.EarliestAsMetIff`, `ImportRuns.OvertakenRun`).
- The comment on the persist retry says "once" (apps/api/src/intake/service.ts:328); the code allows two retries (line 336).

## Model

| member | source | states |
|---|---|---|
| TaintQueue.RootIsMax | workers/trace/priorityQueue.ts:25-28 | The root of any valid heap is at least every entry, by induction along parents |
| TaintQueue.SiftStep | workers/trace/priorityQueue.ts:47-59 | Swapping a hole with its largest child moves the only possible violation of the heap order down one level |
| TaintQueue.TaintPriorityQueue.Push | workers/trace/priorityQueue.ts:20-23 | The array becomes the one that appending and swapping upwards gives; heap order is kept and exactly one entry joins the multiset |
| TaintQueue.TaintPriorityQueue.Pop | workers/trace/priorityQueue.ts:25-35 | Returns an entry of greatest taint and removes exactly that entry, leaving the array that moving the last entry down gives; nothing exactly on an empty queue |
| TaintQueue.TaintPriorityQueue.BubbleUp | workers/trace/priorityQueue.ts:37-45 | Repairs a heap whose only violation is at i, keeping its entries, and swaps exactly as specified |
| TaintQueue.TaintPriorityQueue.BubbleDown | workers/trace/priorityQueue.ts:47-59 | Repairs a heap whose only violation is below i, keeping its entries, and swaps exactly as specified |
| TaintAllocation.AllocateTaint | workers/trace/taint.ts:23-36 | The loops compute the specified HAIRCUT and FIFO shares |
| TaintAllocation.AllotsExactly | workers/trace/taint.ts:23-36 | Both models hand out exactly min(parent, total priced outflow) |
| TaintAllocation.SharesBounded | workers/trace/taint.ts:16-36 | Every share lies between 0 and its edge's value, and an unpriced edge gets 0 |
| TaintAllocation.FifoLeadsHaircut | workers/trace/taint.ts:11-36 | After any prefix of the edges FIFO has moved at least as much taint as HAIRCUT |
| TaintAllocation.HaircutIsProportional | workers/trace/taint.ts:33-35 | HAIRCUT shares are in proportion to the outflows' values |
| TaintAllocation.FifoInTurn | workers/trace/taint.ts:24-31 | The first k FIFO outflows get min(parent, their value) between them, so nothing goes to an outflow while an earlier one is not filled |
| TraceSelection.StopsIff | workers/trace/engine.ts:226-236 | An address stops with the reason its label names, mixer, sanctioned, bridge unresolved or exchange, or at the hop limit, and for nothing else before its outflows are read |
| TraceSelection.PlanIff | workers/trace/engine.ts:226-291 | It is a high-degree stop if and only if its timely outflows have more distinct recipients than the cutoff, fails if and only if a walk it needs throws, and is followed otherwise |
| TraceSelection.FanOutSelects | workers/trace/engine.ts:241-291 | Followed are all bridge legs in order and, of the outflows that are timely, not swapped, not to a bridge and unpriced or worth the minimum, exactly topK or all: none left out is worth more than one taken, and they come greatest first |
| TraceSelection.HighDegreeShows | workers/trace/engine.ts:248-254 | A high-degree stop shows the topK greatest of all timely outflows in the same sense |
| TraceSelection.UnpricedLast | workers/trace/engine.ts:103-105 | An unpriced transfer is taken only when every priced one is |
| TraceShares.BridgeShareIs | workers/trace/engine.ts:279-281 | A bridge leg gets its own value or the whole balance, whichever is less, under either model |
| TraceShares.SharedInProportion | workers/trace/engine.ts:289-297 | Under HAIRCUT the selected edges carry taint in proportion to their values |
| TraceShares.OldestFirst | workers/trace/engine.ts:289-297 | Under FIFO an edge gets nothing while an older one has not been filled |
| TraceEngine.TraceRun.TakeNext | workers/trace/engine.ts:212-217 | A pop that is not stale yields an unexpanded address of greatest current taint; a stale one changes nothing |
| TraceEngine.TraceRun.PushChild | workers/trace/engine.ts:173-186 | Frontier map and heap change together: every frontier address keeps an entry with its current taint |
| TraceEngine.TraceRun.PersistEdges | workers/trace/engine.ts:188-193 | Appends one numbered row per edge, with the graph rows in lockstep |
| TraceEngine.TraceRun.CrossBridge | workers/trace/engine.ts:275-284 | A bridge leg is written, and resolved onto the far chain or recorded as a terminal |
| TraceEngine.TraceRun.PushTop | workers/trace/engine.ts:293-297 | The selected edges arrive at their recipients with their shares |
| TraceEngine.TraceRun.ShowHighDegree | workers/trace/engine.ts:248-254 | An address with too many counterparties becomes a terminal, its largest edges are written and none is followed |
| TraceEngine.TraceRun.FollowOutflows | workers/trace/engine.ts:275-299 | Bridge legs and then the selected edges, with their rows, terminals and heap entries in the order the plain step says |
| TraceEngine.TraceRun.Flush | workers/trace/engine.ts:164-171 | Both databases hold exactly the rows handed over; when the Hop insert, the graph write or an event in between throws, the graph is no further than the table and neither runs ahead of the run |
| TraceEngine.TraceRun.ProcessNode | workers/trace/engine.ts:219-299 | The loop body does to heap, maps, buffers and databases what expanding the address does to the plain state; when anything in it throws, the rows written are a first part of that |
| TraceEngine.TraceRun.Walk | workers/trace/engine.ts:212-302 | The loop terminates and performs a run of greatest-taint steps from the seed, within maxNodes, until the frontier is empty or the limit is hit, and rests where `TraceLoop.Walked` does; whatever throws, the rows written are a first part of that walk's |
| TraceEngine.TraceRun.WalkAndFlush | workers/trace/engine.ts:195-302 | From a fresh start: without a failure around it the walk succeeds exactly when no adapter throws, and then both databases got every row |
| TraceEngine.TraceRun.RunTrace | workers/trace/engine.ts:122-326 | A whole attempt with any failure at any await: the run performed, what each database got of the rows the walk produces, the count returned exactly when it completes, the job status on completion and on failure, and a completed job left alone |
| TraceLoop.WalkResumes | workers/trace/engine.ts:212-302 | An attempt that gets at least the answers of an earlier one, prices included, goes through the same steps: the earlier rows are a first part of its rows, and all of them if the earlier one completed |
| TraceRetry.TableSafeIff | workers/trace/engine.ts:116-121 | Whatever any number of earlier attempts wrote, the Hop table ends as one clean attempt leaves it if and only if every stored row is the row that attempt stores under its key |
| TraceRetry.GraphSafeIff | workers/trace/engine.ts:164-171 | And the graph, if and only if they changed no edge the completing attempt does not write |
| TraceRetry.FreshGraphSafeIff | workers/trace/engine.ts:164-171 | In a graph that held none of the trace's edges: if and only if it writes every edge they wrote |
| TraceRetry.RetryIsSafe | workers/trace/engine.ts:116-121 | Where earlier attempts got some of the same answers, prices included, table and graph end as after one clean attempt |
| TraceRetry.PriceArrivesLate | workers/adapters/pricing.ts:138-154 | A transfer stored without its price before a retry keeps a row no clean attempt would leave |
| TraceRetry.SelectionChanges | workers/trace/engine.ts:103-105 | With topK one, an edge of 100 USD is written while the other has no price, and once that one's price comes and is greater, the other is; table and graph keep the first, which no clean attempt writes |
| TraceLoop.RowsOnlyGrow | workers/trace/engine.ts:188-193 | No step of the loop takes a row back |
| TracePaths.RunReaches | workers/trace/engine.ts:173-297 | In every state of every run, each known address hangs on the seed by a chronological chain of written rows that each passed a positive share on, inside the window, arriving at its firstTaintedAt, and by such a chain of exactly hop rows with hop at most maxHops |
| TraceArrivals.RunGathers | workers/trace/engine.ts:173-186 | In every state of every run each address holds the sum of the shares that arrived before its own expansion, and its hop and first taint are the least among its arrivals |
| TraceArrivals.TerminalsIff | workers/trace/engine.ts:226-284 | The terminals of a run are exactly those its expansions end in: stopped addresses, and the near sides of bridge legs that do not resolve |
| TraceArrivals.RowsIff | workers/trace/engine.ts:188-193 | A transfer is written for an address if and only if the run expanded it and followed or showed that transfer |
| TraceRows.PlanKeysUnique | workers/trace/engine.ts:241-291 | The rows chosen for one address never repeat a (txHash, idx) |
| TraceRows.RunRows | workers/trace/engine.ts:188-193 | In every state of every run the rows are numbered 1..n without gaps, no two share source and (txHash, idx), and only expanded addresses have rows |
| TraceRows.RowsDiffer | workers/trace/engine.ts:188-193 | Any two rows of such a list have different keys |
| TraceRows.PicksDiffer | workers/trace/engine.ts:212-217 | No run expands an address twice, and expanded is exactly the set of picks |
| TraceRows.StoredCount | apps/api/prisma/schema.prisma:206-223 | The rows stored never exceed the rows written, and equal them exactly when no two share (txHash, fromAddr, toAddr) |
| TraceRows.AllStoredIff | apps/api/prisma/schema.prisma:223 | Every row is stored if and only if no two have one transaction between the same two addresses |
| TraceRows.AllMergedIff | workers/trace/graphWrite.ts:22-28 | Every row is an edge of its own in the graph if and only if no two have one transaction and number between the same two nodes |
| TraceRows.StoredRowLost | apps/api/prisma/schema.prisma:223 | Two transfers of one transaction between the same parties collapse into one stored row |
| TraceRows.WriteOver | workers/trace/engine.ts:164-171 | Writing a first part of the rows and then all of them stores what writing all of them once does |
| TraceRows.MergeOver | workers/trace/engine.ts:164-171 | And so for the graph, where a later row replaces an equal edge |
| TraceTaint.SharesAddUp | workers/trace/engine.ts:286-297 | The shares looked up by txHash and idx add up to min(balance, priced value of the selected edges) |
| TraceTaint.SharesLookedUp | workers/trace/engine.ts:286-297 | For any selection, keys repeated or not, under either model and from any balance, each edge is credited with the share of the last edge with its key, and the whole is right exactly when those add up to what was allotted |
| TraceTaint.ClashCountsTwice | workers/trace/engine.ts:286-297 | Of two edges with one key the one allotted last counts twice: the shares add up exactly when both got the same |
| TraceTaint.HaircutClash | workers/trace/taint.ts:33-35 | Proportional shares from a positive balance are the same exactly when the edges are worth the same |
| TraceTaint.FifoClash | workers/trace/taint.ts:24-31 | FIFO shares are the same exactly when equal edges are both covered, or the balance is twice a smaller first edge |
| TraceInputs.TronKeysIff | workers/adapters/paginate.ts:35-57 | A complete TRON walk, deduplicated as it is, gives the engine distinct (txHash, idx) if and only if no two pages hold rows of one transaction with one idx and different parties |
| TraceInputs.ClashInOneStage | workers/adapters/tron.ts:134-150 | Such pages are of one stage, where no transaction moves both coins |
| TraceInputs.CutClashes | workers/adapters/tron.ts:165-186 | Two rows of one transaction, each first on its page, clash exactly when their recipients differ; the same row read twice does not |
| TraceInputs.TronOutflowsDistinct | workers/adapters/tron.ts:134-187 | A walk whose page boundaries cut no transaction gives distinct (txHash, idx) |
| TraceTaint.ExpandBalance | workers/trace/engine.ts:212-302 | Expanding an address, an unbounded seed included, changes waiting plus kept taint by exactly what an unbounded balance brings in, what its bridge crossings mint and what repeated keys are credited twice |
| TraceTaint.TaintBalance | workers/trace/engine.ts:146-302 | After every step of every run, with or without a reported amount, waiting plus kept taint is what the trace has to account for, plus what crossings minted, plus what repeated keys were credited twice; past an unbounded seed all waiting taint is finite |
| TraceTaint.TaintConserved | workers/trace/engine.ts:146-302 | Without a resolver and with unique (txHash, idx), waiting plus kept taint is the reported amount, or without one what the seed's selected transfers are worth, no address holds more, and a run that empties its frontier kept all of it |
| TraceTaint.ConservedExactlyWhen | workers/trace/engine.ts:275-284 | With unique (txHash, idx), for either kind of seed, conservation up to a step holds if and only if no earlier step crossed a positively priced leg, out of a positive or unbounded balance, to an address not expanded yet |
| TraceTaint.MintedIff | workers/trace/engine.ts:275-284 | A step, an unbounded seed's included, creates taint exactly when it crosses such a leg |
| TraceTaint.NothingDoubled | workers/trace/engine.ts:286-297 | With unique (txHash, idx) no edge is credited with another's share |
| TraceTaint.BridgeShareOf | workers/trace/engine.ts:275-284 | A leg's share is positive exactly when its value and the balance are, in both taint models |
| TraceTaint.BridgeDoublesTaint | workers/trace/engine.ts:275-284 | A trace of one resolved leg accounts for twice the reported amount |
| CircuitBreaker.Breaker.Allow | workers/adapters/providerGuard.ts:88-95 | Admits when closed, or once per cooldown while open, and takes the trial |
| CircuitBreaker.Breaker.Success | workers/adapters/providerGuard.ts:96-100 | Leaves the breaker as new |
| CircuitBreaker.Breaker.Failure | workers/adapters/providerGuard.ts:101-111 | Reports true exactly on a move from closed to open |
| CircuitBreaker.Consistent | workers/adapters/providerGuard.ts:82-116 | Over every history: closed means fewer failures than the threshold, and a trial means open |
| CircuitBreaker.OpenIff | workers/adapters/providerGuard.ts:101-111 | Over every history the circuit is open if and only if at least the threshold of calls failed since the last success, and has been since the last of them |
| CircuitBreaker.AdmitsIff | workers/adapters/providerGuard.ts:88-95 | A call is let in if and only if fewer than the threshold failed since the last success, or the cooldown has passed since the last failure and nobody was let in on trial before |
| CircuitBreaker.TrialsSpaced | workers/adapters/providerGuard.ts:88-111 | Two half-open admissions without a success between them are at least the cooldown apart |
| CircuitBreaker.RecoversIff | workers/adapters/providerGuard.ts:88-95 | Some later request is admitted if and only if the breaker is closed or no trial is pending |
| ProviderCall.ProviderGuard.RunStep | workers/adapters/providerGuard.ts:221-250 | The attempts at one provider end at the first success, hard failure, open circuit or last attempt; every one of its seven statistics moves by the runs of its kind |
| ProviderCall.ProviderGuard.TryStep | workers/adapters/providerGuard.ts:206-251 | One step succeeds with its provider's value or yields its cause, every statistic of the provider moves accordingly and no other provider's does |
| ProviderCall.ProviderGuard.Call | workers/adapters/providerGuard.ts:204-261 | Returns the first success in provider order or the causes of all failed steps, within steps times attempts runs; calls minus retries grows by the providers run and failovers by the causes |
| ProviderCall.OneCauseEach | workers/adapters/providerGuard.ts:204-261 | With at least one attempt configured every failed step leaves exactly its own cause, in order |
| ProviderCall.SurfacedIff | workers/adapters/providerGuard.ts:253-260 | A failed call gives the provider's own error if and only if it has one step, that was run, and its last run failed for good with a message of its own; otherwise all are unavailable |
| ProviderCall.LastIsFirst | workers/adapters/providerGuard.ts:221-250 | A step ends at the first attempt that gives a value, fails for good, is the last allowed or leaves the circuit open; all before it failed softly |
| ProviderCall.NoAttemptNoTrace | workers/adapters/providerGuard.ts:221 | With none configured nothing is run, and a step that gets past breaker and budget leaves neither cause nor statistic |
| ProviderCall.RunsBounded | workers/adapters/providerGuard.ts:206-251 | The runs of the first n steps are at most n times attempts |
| CallSystem.RecoversExactlyWhen | workers/adapters/providerGuard.ts:88-116 | While a trial is pending, over every continuation of interleaved calls: a request is or would be admitted if and only if some call reported a success or a retryable failure in between |
| CallSystem.SilentLeaveStrands | workers/adapters/providerGuard.ts:215-235 | The last call at a provider, leaving its trial on a spent budget or a hard failure, strands the provider |
| CallSystem.StrandedForever | workers/adapters/providerGuard.ts:210-235 | A stranded provider admits nobody in any continuation, and its breaker never changes again |
| CallSystem.OnlySilentLeaves | workers/adapters/providerGuard.ts:204-252 | In every execution a provider is stranded only after a call left it silently |
| CallSystem.RecoverableIff | workers/adapters/providerGuard.ts:204-252 | Some continuation admits again if and only if a call that can still report is out at the provider |
| CallSystem.StrandingRun | workers/adapters/providerGuard.ts:204-252 | A run of two calls from the start that strands a provider |
| CallSystem.StatsTell | workers/adapters/providerGuard.ts:204-252 | Over every interleaving circuitOpens is the number of moves from closed to open, calls minus retries the number of calls let through (but for sleepers), and failovers the number that moved on |
| CallLaws.CircuitOpensIff | workers/adapters/providerGuard.ts:101-111 | Over every interleaving a provider's circuit is open if and only if at least the threshold of retryable failures were reported to it, by whatever calls, since its last success |
| CallLaws.AskIff | workers/adapters/providerGuard.ts:210-214 | A call is let in exactly when that provider's reports let it, and otherwise moves on to its next provider |
| CallLaws.RanIff | workers/adapters/providerGuard.ts:221-250 | After a run a call ends well, is retried exactly while attempts are left and its report leaves the circuit closed or cooled down, or moves on |
| CallLaws.AttemptsBounded | workers/adapters/providerGuard.ts:221 | In every execution each run out is one of the attempts allowed |
| CallLaws.EndsWellIff | workers/adapters/providerGuard.ts:221-228 | A call ends well if and only if one of its runs succeeded |
| SingleFlight.AtMostOneRunning | workers/adapters/providerGuard.ts:285-298 | Two live computes for one key are the same compute |
| SingleFlight.StepExclusive | workers/adapters/providerGuard.ts:279-299 | Every step keeps inflight holding a key exactly while its one compute is live |
| SingleFlight.CachedIsSound | workers/adapters/providerGuard.ts:279-299 | In every interleaving: one compute per key at a time, every caller gets a value or error a compute for its key produced (or a stored value), and misses count computes |
| Pagination.AddItems | workers/adapters/paginate.ts:50-56 | One page extends seen and items to the first-occurrence dedup of all pages read |
| Pagination.CollectTransfers | workers/adapters/paginate.ts:41-64 | Against any pager: pages read in cursor order within maxPages, items the dedup of those pages, stopping only at the end, at a followed cursor or at a ceiling, and truncated exactly in the last case |
| Pagination.DedupKeys | workers/adapters/paginate.ts:35-39 | Deduplication keeps every key and no key twice |
| Pagination.DedupIsFirst | workers/adapters/paginate.ts:35-56 | It keeps the first item of each hash, number, sender and recipient, those and no others, in the order they came |
| Pagination.CompleteIff | workers/adapters/paginate.ts:57-63 | Against any pager, a walk that reports truncated false read the provider's last page if and only if no cursor it was handed repeats an earlier one or the start |
| Pagination.FailbackLosesPages | workers/adapters/evm.ts:145-153 | Failover on the second call and failback on the third: the walk reports truncated false with exactly the first pages of both providers |
| TransferIdx.GroupByTx | packages/shared/src/chainTypes.ts:102-103 | The first loop lists the positions of every transaction's rows, in order |
| TransferIdx.AssignIdx | packages/shared/src/chainTypes.ts:96-110 | Every row gets base plus its rank: the rows of its transaction with a smaller key, and earlier ones with the same key |
| TransferIdx.SortInOrder | packages/shared/src/chainTypes.ts:105-108 | A stable sort by key alone orders a group by key and then by reading order |
| TransferIdx.PlaceIsRank | packages/shared/src/chainTypes.ts:105-108 | The place of a row in its sorted group is its rank |
| TransferIdx.IdxDistinct | packages/shared/src/chainTypes.ts:96-100 | Two rows of one transaction never get the same idx |
| TransferIdx.StampedExactly | packages/shared/src/chainTypes.ts:96-100 | A key owns exactly the ranks from the number of smaller keys on, one for each row that has it |
| TransferIdx.IdxIgnoresOrder | packages/shared/src/chainTypes.ts:96-100 | The same rows in any order get the same (txHash, idx) for the same transfers |
| TronWalk.GetTransfers | workers/adapters/tron.ts:134-150 | One page of the stage the cursor names, its rows ranked, and the cursor of what follows it |
| TronWalk.PageAtCursor | workers/adapters/tron.ts:137-148 | Following the cursors visits the USDT pages and then the TRX pages, in order |
| TronWalk.UsdtPage | workers/adapters/tron.ts:152-166 | A USDT page lists exactly the provider's transfers of the official contract, in order, with their parties, time and amount |
| TronWalk.TrxPage | workers/adapters/tron.ts:168-187 | A TRX page lists exactly the transfers between addresses that did not fail, in the same way |
| TronWalk.WalkReadsHistory | workers/adapters/tron.ts:135-150 | A walk reads a prefix of those pages, and all of them unless it says truncated |
| TronWalk.WalkReturnsPages | workers/adapters/paginate.ts:41-64 | A walk that is not truncated returns the dedup of both stages' pages |
| TronWalk.StraddleClashes | workers/adapters/tron.ts:165-186 | A transaction with rows on two pages gets some (txHash, idx) twice |
| TronWalk.PagedIffWhole | workers/adapters/tron.ts:165-186 | Numbering page by page is numbering the whole list if and only if no transaction straddles two pages |
| TronWalk.WalkIsWholeIff | workers/adapters/tron.ts:134-187 | A walk that is not truncated returns the provider's whole USDT and TRX history if and only if no page boundary cuts a transaction |
| TronWalk.RoomEnough | workers/adapters/paginate.ts:41-63 | With room under both ceilings no walk is truncated |
| Units.FormatReadsBack | packages/shared/src/chainTypes.ts:78-87 | Printed text reads back as the exact integer, for every integer and number of decimals |
| Units.FormatIsCanonical | packages/shared/src/chainTypes.ts:78-87 | The text has no needless zeros, no bare point, at most the unit's places, and a sign exactly below zero |
| BtcMoney.CollectInputs | workers/adapters/btc.ts:99-106 | The first loop gives every payer's sum, their order and the total paid in |
| BtcMoney.TransfersOf | workers/adapters/btc.ts:98-133 | The loops produce the sender's and the receiver's view of a transaction |
| BtcMoney.SentExactly | workers/adapters/btc.ts:110-117 | A sender's view has one row for each output to another address, in order, of its proportional part printed with eight decimals |
| BtcMoney.ReceivedExactly | workers/adapters/btc.ts:119-130 | A receiver's view has, for each of its outputs, the whole from coinbase where coins are new or no payer has an address, and else one proportional row for every other payer |
| BtcMoney.SharesBound | workers/adapters/btc.ts:116-128 | Rounding down each of k parts loses less than k units in all and gains none |
| BtcMoney.PartsMakeTotal | workers/adapters/btc.ts:99-106 | The payers' sums add up to the total paid in |
| BtcMoney.OutputIsSplit | workers/adapters/btc.ts:119-130 | The printed rows of an output, with its receiver's own share, add up to at most the output and miss less than one satoshi per payer |
| BtcMoney.SenderIsBounded | workers/adapters/btc.ts:110-117 | A sender's printed rows add up to at most what it paid in, when a transaction creates no money and all its inputs have an address |
| BtcMoney.CoveredIsBounded | workers/adapters/btc.ts:99-117 | And whenever the inputs that have an address cover what others receive |
| BtcMoney.SolePayerIff | workers/adapters/btc.ts:99-117 | For a sole payer exactly then: it is credited with all that others receive |
| BtcMoney.BeyondIsBroken | workers/adapters/btc.ts:110-117 | It is broken once the payer's sum times what others receive exceeds the addressed total times that sum and the number of their outputs |
| BtcMoney.UnaddressedInputBreaks | workers/adapters/btc.ts:102-105 | A valid transaction with an input without address in which a payer of 1 is credited with 90 |
| BtcMoney.ViewsAgree | workers/adapters/btc.ts:110-130 | Payer and receiver of an output each hold exactly one row for it with the same amount, and the same idx exactly when the payer sorts first |
| BtcMoney.IdxUniqueIff | workers/adapters/btc.ts:110-130 | A receiver's view uses no idx twice if and only if no two outputs m < n to it have payers of ranks p, q with 1000 m + p = 1000 n + q; a sender's view never does |
| BtcMoney.IdxUnique | workers/adapters/btc.ts:110-130 | No view of a transaction with at most a thousand payers, or with one output to the address, uses an idx twice |
| BtcMoney.IdxCollides | workers/adapters/btc.ts:119-130 | With more payers and two neighbouring outputs to one address, its view repeats an idx |
| CanonicalProofs.RoundTrip | packages/shared/src/canonical.ts:31-61 | A reader gives back the meaning of every accepted value, over arbitrary nesting and escapes |
| CanonicalProofs.StringReads | packages/shared/src/canonical.ts:42 | Every string of UTF-16 units reads back through its escapes, lone surrogates included |
| CanonicalTheorems.CanonicalIffSame | packages/shared/src/canonical.ts:27-61 | Two accepted values print alike if and only if they mean the same JSON value |
| CanonicalTheorems.KeyOrderIrrelevant | packages/shared/src/canonical.ts:9-12 | Listing an object's properties in another order never changes the text |
| CanonicalTheorems.OneListing | packages/shared/src/canonical.ts:54-56 | A set of members with distinct keys has one sorted listing; `CanonicalOrder` says which |
| CanonicalOrder.KeysAscend | packages/shared/src/canonical.ts:9-12 | A reader meets the members of every printed object with strictly ascending keys, unit by unit, each kept property once, its value in the text it has on its own |
| CanonicalOrder.Words | packages/shared/src/canonical.ts:36-60 | null, undefined, true, false and the empty array, object and string are spelt as in JSON, without spaces |
| CanonicalOrder.ShortEscapes | packages/shared/src/canonical.ts:42 | Quote, backslash and five control characters have their backslash forms |
| CanonicalOrder.OtherUnits | packages/shared/src/canonical.ts:42 | Every other control character and a lone surrogate is four lower-case hex digits that spell it, and everything else stands for itself |
| CanonicalTheorems.RejectsExactly | packages/shared/src/canonical.ts:36-60 | Printing fails exactly on values that hold a non-finite number, a date or an unsupported type where it would be printed |
| CanonicalTheorems.ErrorNames | packages/shared/src/canonical.ts:32-60 | The exception is about something the value does hold: a non-finite number, a Date or an unsupported type |
| CanonicalTheorems.CanonicalTextPaired | packages/shared/src/canonical.ts:63-66 | Canonical text never holds a lone surrogate, so UTF-8 encoding it for the digest loses nothing |
| Audit.HashDetermines | apps/api/src/audit/service.ts:56-65 | Two entries hash alike if and only if they agree in every hashed field |
| Audit.TipDeterminesLog | apps/api/src/audit/service.ts:25-34 | Two valid logs that end in the same hash are equal row for row in all hashed fields and hashes |
| Audit.VerifyChain | apps/api/src/audit/service.ts:81-116 | Accepts exactly when every row in scope is good, and otherwise reports the least bad row in scope with both hashes, whatever JSON the metadata column holds |
| Audit.FullIffScoped | apps/api/src/audit/service.ts:91-99 | The full walk accepts if and only if every scoped walk does |
| Audit.TamperingFound | apps/api/src/audit/service.ts:25-29 | Whatever is changed in one row of an accepted log, hashed fields or the hash itself, the rows before it stay good and it or the next is bad; the log still passes if and only if that row is the last and hashed anew |
| Audit.AuditService.Record | apps/api/src/audit/service.ts:38-79 | An append keeps the log valid and adds exactly the row it built, or rejects the entry and leaves the log |
| Audit.LockedRecordsKeepChain | apps/api/src/audit/service.ts:38-48 | Every interleaving of recorders under the lock, any of which may fail while holding it, keeps the log valid |
| Audit.ForkDetected | apps/api/src/audit/service.ts:40-42 | Without the lock, two rows built on one tip make a log that verification rejects |
| BtcClustering.UnionFind.Find | apps/api/src/attribution/heuristics/btcClustering.ts:11-18 | Terminates, returns the root, adds an unseen address on its own, and changes no class |
| BtcClustering.UnionFind.Union | apps/api/src/attribution/heuristics/btcClustering.ts:20-24 | Joins exactly the classes of its two addresses |
| BtcClustering.RootsAgree | apps/api/src/attribution/heuristics/btcClustering.ts:11-18 | The roots are determined by the parent map |
| BtcClustering.CompressKeepsForest | apps/api/src/attribution/heuristics/btcClustering.ts:15-17 | Path compression leaves every root as it was |
| BtcClustering.IsCoinJoinLike | apps/api/src/attribution/heuristics/btcClustering.ts:36-41 | True exactly when some output value occurs at least the given number of times |
| BtcClustering.AcceptedIff | apps/api/src/attribution/heuristics/btcClustering.ts:56-66 | A transaction clusters its inputs if and only if it has at least two and no three outputs are alike |
| BtcClustering.ClusterBtcTransactions | apps/api/src/attribution/heuristics/btcClustering.ts:56-74 | Two addresses end in one class if and only if a chain of accepted transactions links them; skipped and clustered are the CoinJoin-like and accepted multi-input txids in order |
| BtcClustering.ClassesAreLinks | apps/api/src/attribution/heuristics/btcClustering.ts:51-74 | A sound and complete partition is exactly the linking relation |
| BtcClustering.OrderIrrelevant | apps/api/src/attribution/heuristics/btcClustering.ts:51-74 | The order and repetition of transactions do not change the classes |
| GraphDistance.Adjacency | apps/api/src/mule/graphDistance.ts:8-9 | The first loop lists every address's targets |
| GraphDistance.BfsDepths | apps/api/src/mule/graphDistance.ts:6-23 | Terminates with exactly the reachable addresses and the length of their shortest paths |
| GraphDistance.PathDepth | apps/api/src/mule/graphDistance.ts:13-21 | No path to an address is shorter than its depth |
| GraphDistance.HopsToNearest | apps/api/src/mule/graphDistance.ts:25-35 | The least distance to any target, or none if and only if no target is reachable |
| HopWindows.BurstTxPerHour | apps/api/src/mule/hopMath.ts:72-82 | The greatest number of transactions in any one-hour window, attained by some window |
| HopWindows.PeakStretch | apps/api/src/mule/hopMath.ts:75-81 | The sliding loop finds a longest stretch of sorted times within one hour |
| HopWindows.HourCountIs | apps/api/src/mule/hopMath.ts:72-82 | What is counted are the hops from a moment to sixty minutes later, both included |
| HopWindows.FanOutIs | apps/api/src/mule/hopMath.ts:36-40 | The fan-out of an inbound hop is the greatest number of later outbound hops to different addresses within the window |
| HopWindows.FanOut1h | apps/api/src/mule/hopMath.ts:30-43 | The greatest number of distinct recipients inside the window of any one inbound hop |
| HopWindows.DetectFanOut | apps/api/src/mule/rules/fanOut.ts:10-30 | One match per inbound hop that reaches the minimum, in order |
| HopWindows.Strongest | apps/api/src/mule/detect.ts:20-28 | The first of the matches with most distinct recipients |
| HopWindows.RuleFires | apps/api/src/mule/rules/fanOut.ts:10-30 | The rule fires if and only if there is an inbound hop and the fan-out in its window reaches the minimum, and its strongest match reports that fan-out |
| HopWindows.RuleAgreesWithFeature | apps/api/src/mule/features.ts:36 | The feature always looks at sixty minutes: at that window the rule agrees with it for every minimum, a shorter one only misses and a longer one only adds, and with inbound hops they differ exactly when the minimum lies between the two fan-outs |
| IntakeLinking.LinkItems | apps/api/src/intake/service.ts:132-179 | The loops place every complaint of a batch by the wallets of stored and earlier complaints |
| IntakeLinking.EarliestIsFirstLeast | apps/api/src/intake/service.ts:159 | The reduce picks the first of the matches of least rank |
| IntakeLinking.KnownExactly | apps/api/src/intake/service.ts:133-177 | The complaints known for a wallet are exactly the stored ones and the earlier ones of the batch that hold it |
| IntakeLinking.JoinsEarliest | apps/api/src/intake/service.ts:153-177 | A complaint joins the earliest case among all complaints sharing a wallet with it and lists all those cases; a case is opened if and only if there is none |
| IntakeTraces.PrepareItem | apps/api/src/intake/service.ts:219-248 | Every seed of a complaint has a trace afterwards, with a job unless that trace has started, and every request is answered in order; `ImportLaws` says which seeds those are |
| IntakeTraces.PrepareTraces | apps/api/src/intake/service.ts:205-250 | New traces repeat no key of each other or of the reused ones, every job id occurs once, jobs are new traces or queued reused ones, and every request of the batch is answered in order |
| IntakeTraces.PrepareRight | apps/api/src/intake/service.ts:221-246 | One key is reused from the store, reused from the batch, or made, keeping the plan right |
| IntakeTraces.AnswersJoin | apps/api/src/intake/service.ts:218-248 | The answers of two stretches of requests are those of both together: reused means stored or asked for earlier |
| Intake.ReadRows | apps/api/src/intake/service.ts:274-295 | Rows that fail are invalid, repeats inside the file are duplicates, and the first of each number goes on |
| Intake.DropExisting | apps/api/src/intake/service.ts:297-315 | Of those, exactly the stored ones become duplicates, and their cases are kept |
| Intake.SortRows | apps/api/src/intake/service.ts:274-315 | Every row has exactly one status, and the new complaints are lined up in file order |
| Intake.CountsAddUp | apps/api/src/intake/service.ts:375-378 | total is created plus duplicates plus invalid |
| Intake.CreatedCount | apps/api/src/intake/service.ts:375-376 | created is the number of complaints the batch stored |
| Intake.RankIsCaseTime | apps/api/src/intake/service.ts:153-177 | The rank a complaint was compared by is the stored creation time of its case, so the next batch compares alike |
| Intake.Reassert | apps/api/src/intake/service.ts:349-357 | Queued traces of re-sent complaints are enqueued again, and no job id twice |
| Intake.AnswersTold | apps/api/src/intake/service.ts:218-248 | Each answer carries the id of a stored trace of its case, chain and seed, and each new trace is reported as new exactly once |
| Imports.IntakeService.Persist | apps/api/src/intake/service.ts:132-262 | One attempt: everything is worked out from the store as read; the transaction fails exactly when a number of the batch is taken by then, and otherwise leaves the rows, cases, links, traces and jobs of the batch on top of whatever it met, with foreign and primary keys kept |
| Imports.IntakeService.Ingest | apps/api/src/intake/service.ts:264-388 | The whole import against any other imports before, between and after its attempts: the statuses are those of the last reading, each failed attempt was overtaken by a complaint with one of its numbers, at most three attempts are made, and a number is stored only if nobody has stored it |
| ImportLaws.AskedExactly | apps/api/src/intake/types.ts:50-55 | A committed batch stores a trace for every address of a complaint on its resolved chain, or on each candidate chain unless it is flagged inactive; every new trace is one of those, and each complaint is told exactly its own, by id |
| ImportLaws.WantedIff | apps/api/src/intake/service.ts:218-222 | The keys the loops ask for are exactly those, by case, chain and address |
| ImportLaws.HashIsNoSeed | apps/api/src/intake/types.ts:50-52 | A value held only as a transaction hash gets no trace |
| ImportLaws.LinksIff | apps/api/src/intake/service.ts:176-200 | The wallet rows of a batch are one complaint's number and case for each address it holds, and no others |
| ImportLaws.OnePerNumber | apps/api/src/intake/service.ts:274-315 | Of the rows with one number exactly the first becomes a complaint, or a stored duplicate where the number was stored; the later ones repeat it; invalid rows are those that could not be read |
| Imports.SortedAgain | apps/api/src/intake/service.ts:336-341 | Filtering what is left against a later store gives the statuses sorting everything against that store would |
| Imports.TwinIff | apps/api/src/intake/service.ts:205-237 | A batch adds a second trace for a case, chain and seed if and only if another import stored, after it read, a trace that it had asked for and not found |
| Imports.AloneNoTwin | apps/api/src/intake/service.ts:205-237 | An import nothing overtakes adds no second trace for a case, chain and seed |
| Imports.OneTraceEver | apps/api/src/intake/service.ts:205-237 | So over any sequence of such imports no case, chain and seed ever gets a second trace |
| Imports.BothMakeIt | apps/api/src/intake/service.ts:205-262 | Two imports that read one store and both ask for a trace it lacks leave two of them |
| ImportRuns.TwinRun | apps/api/src/intake/service.ts:205-262 | Two imports of complaints that hold a wallet of a stored case, both reading before the other commits, do |
| ImportRuns.JoinsShared | apps/api/src/intake/service.ts:153-177 | And each of them places its complaint in that case |
| Imports.EarliestAsMetIff | apps/api/src/intake/service.ts:132-179 | Judged by the store a batch met, a complaint is in the earliest case that shares a wallet with it if and only if no other import stored one of its wallets meanwhile while it opened a case or that one's case is earlier, and it lists all sharing cases if and only if all those are listed anyway |
| ImportRuns.OvertakenRun | apps/api/src/intake/service.ts:132-262 | An import that another overtakes commits at once and leaves its complaint outside the case it shares a wallet with |
| ProbeRunner.ProbesAreSafe | apps/api/src/intake/probe.ts:31-66 | In every interleaving at most concurrency probes run, waiters are exactly the queued probes, no wake-up is lost, and each key is probed once |
| ProbeRunner.SomeoneMoves | apps/api/src/intake/probe.ts:37-46 | Unless all are done, some probe is running or about to: no waiter is stranded |
| ProbeRunner.MoveUsesWork | apps/api/src/intake/probe.ts:37-46 | Every resume or finish uses up work, though a woken probe may have to queue again |
| ProbeRunner.StretchesAreShort | apps/api/src/intake/probe.ts:31-66 | Without new arrivals at most three moves per probe happen, so all finish |
| TronPoller.CombineTier | workers/monitor/checkpoint.ts:36-40 | The most urgent of an address's tiers |
| TronPoller.FindDue | workers/monitor/checkpoint.ts:42-76 | The loops list the due addresses in order of first appearance |
| TronPoller.DueListed | workers/monitor/checkpoint.ts:42-76 | An address is listed if and only if it is watched and its interval has passed, with its checkpoint and all its cases |
| TronPoller.DueIff | workers/monitor/checkpoint.ts:42-76 | Read off the watch list: an address is due if and only if some case watches it and the interval of its most urgent tier has passed since its checkpoint, or since 0; it lists each watching case once |
| TronPoller.DueOnce | workers/monitor/checkpoint.ts:56-75 | No address is listed twice |
| TronPoller.TronMonitor.PollAddress | workers/monitor/tronPoller.ts:48-93 | The walk over cached and new pages, read after the clock of the pass, alerts of each transfer, then of the address, then that clock as checkpoint; a crash in between leaves the checkpoint and keeps the pages |
| TronPoller.TronMonitor.Poll | workers/monitor/tronPoller.ts:37-97 | A pass takes the clock, then polls each due address in turn, each reading after the one before it, from its checkpoint and cached pages; where it breaks off, that address and all later ones keep their checkpoints, and the pages read so far stay cached; alerts only grow, each address that had its turn adds exactly what its poll owes, and nobody else adds any |
| TronPoller.OwedIff | workers/monitor/tronPoller.ts:48-85 | A poll owes an alert to a case if and only if the case watches the address and the finding is one of the rules on an evaluated transfer, with its amount, or one on the address, with none, once the poll is saved |
| PollHistory.ReadWalk | workers/adapters/tron.ts:134-150 | Cached pages come first and the provider gives the rest, one after another; the items are the dedup of the pages, and a walk that throws leaves what it read |
| PollHistory.ReadByFirst | workers/adapters/tron.ts:136-137 | Every page of a poll is the one read by the first poll with that since that came so far |
| PollHistory.ReadsGrow | workers/monitor/tronPoller.ts:37-92 | A poll has no page older than what a poll saved before it had read |
| PollHistory.CheckpointsGrow | workers/monitor/tronPoller.ts:87-92 | Checkpoints only move forward |
| PollHistory.WindowsTile | workers/monitor/tronPoller.ts:87-92 | The window of each saved poll starts where the one of the saved poll before it ended, the first at 0 |
| PollHistory.EvaluatedIff | workers/monitor/tronPoller.ts:28-36 | With any crashes and the page cache, a transfer is evaluated if and only if no saved poll moved the checkpoint past it on a page read before it was visible |
| PollHistory.CrashLoses | workers/monitor/checkpoint.ts:70-72 | A poll that reads a transfer's page before it is visible and dies makes the retry pass that transfer over: no saved poll ever evaluates it |
| PollHistory.LosingRunLoses | workers/adapters/tron.ts:136-137 | Three polls that lose a transfer this way, though a later poll is saved |
| PollHistory.EvaluatedTwiceOnly | workers/monitor/tronPoller.ts:87-92 | Two saved polls evaluate one transfer only when the first saw it ahead of its own clock; a third takes polls at the instant it was sent, shown and read |
| PollHistory.AheadRepeats | workers/monitor/tronPoller.ts:87-92 | And then the next saved poll does evaluate it again |
| PollHistory.EvaluatedOnceIff | workers/monitor/tronPoller.ts:87-92 | Saved polls evaluate a transfer exactly once if and only if moreover no poll with another saved after it saw the transfer ahead of its own clock |
| PollHistory.DoubleRunRepeats | workers/monitor/tronPoller.ts:40-47 | A run whose pass of 100 reads a transfer of 102 at 105, which the pass of 200 evaluates again |

## Left out

- HTTP clients, Redis, BullMQ, Prisma, Neo4j, Socket.IO, fixtures and secrets: foreign I/O, kept as functions, sequences and maps at the boundary.
- Rounding of IEEE-754 numbers in taint and prices: reals stand for them. `-0` and `0` are one number in canonical JSON, as they print alike.
- SHA-256, Base58Check, EIP-55, AES-GCM and tokens: a digest is any injective function; TRON addresses arrive already in their text form, and the error on a malformed one is not modelled.
- Trace events, the apiCalls counter, label names, timings and the onTerminal hook: they do not feed back into the walk.
- TraceEngine.TraceRun.RunTrace: the update that marks a job RUNNING or FAILED does not fail here itself, and only one attempt of a job runs at a time.
- ProviderCall.ProviderGuard.Call: breaker and budget answers are arbitrary inputs here, so that other callers may interleave; `CallSystem` has the real breakers. How an error is classified is an input, and waiting times and rate limiters are left out.
- CallSystem.RecoversExactlyWhen: the values and errors of calls, the order of their causes and the length of sleeps are in `ProviderCall` or left out; a call may also give way before it asks the breaker, which only adds interleavings; clocks do not run backwards.
- SingleFlight.CachedIsSound: a failed cache read, JSON encoding of cached values and time-to-live rules beyond "an entry may vanish" are not modelled.
- Pagination.CollectTransfers: an empty cursor counts as none, as in the source; encoding cursors as base64 JSON is left out, a cursor being a value.
- TronWalk.WalkIsWholeIff: requires fingerprints of one stage to differ and a transaction to move either USDT or TRX; the page cache is in `PollHistory`.
- TransferIdx.IdxIgnoresOrder: speaks of parties, amount, token and idx; timestamps follow when rows of one transaction share theirs.
- The EVM pager's three stages and row window: its walk is an instance of the untrusted pager, and one stage of its failover is `Pagination.FailoverPager`.
- Bitcoin pages, account records and outspends: the split of one transaction is modelled.
- Audit.AuditService.Record: requires that the database gives metadata back with the same meaning; database sequence numbers and ids are inputs.
- Imports.IntakeService.Ingest: the reads of one attempt are one moment, stored rows do not change while a batch runs (a trace may start meanwhile), field encryption and the parts of a row that only copy data are left out, and a row arrives normalised with its chains resolved.
- IntakeTraces.PrepareTraces: options, token and queue name of a payload are constants of the chain and left out.
- ProbeRunner.ProbesAreSafe: the result of a probe and its timeout are one finish step.
- TronPoller.TronMonitor.PollAddress: a process dies between two transfers or before the rules on the address, not between two alerts or between those rules and the checkpoint; publishing alerts is left out.
- PollHistory.EvaluatedIff: assumes no walk is truncated, that the provider shows a transfer from some moment on, on one page of a walk from a given time, that nobody else fills the same cache keys, that one pass starts after the one before it ended, and that clocks do not run backwards.
- Peel chains, dwell times, refresh-token stores, label joins, training splits and CSV export: smaller than what is here and independent of it.
- Rule scores, typologies, model training, routes, schemas, the web client and reports: plumbing, finite tables or library numerics.
