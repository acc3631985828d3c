# Resilience and observability core: a Dafny model

This project models the system core of a learning assistant. The core lives in
`services/systemCore.ts` and holds three parts:

- **Telemetry** (`SystemMonitor`). It counts requests and failures and keeps the
  last error. It also keeps a rolling window of the last 20 latencies and their
  rounded mean. From these it derives a health status: HEALTHY, DEGRADED or DOWN.
- **Resilience** (`CircuitBreaker`). It wraps a remote call. After 3 failures it
  opens and rejects calls for 10 seconds. The first call after the cooldown
  runs as a probe (HALF_OPEN). It reports every state change to the monitor.
- **Retrieval** (`retrieveContext`). It scores every chunk of a fixed
  knowledge corpus against a query: 2 points for a tag match, 1 point for a
  substring of the content. Then it joins the two best chunks under a header.

Files:

- `types.dfy`: the shared types of `types.ts` (`SystemMetrics`, `SystemStatus`,
  `RAGChunk`, and the circuit states).
- `telemetry.dfy`: the monitor as a class whose methods update its fields.
  Specification functions (window, rounded mean, health) state what the fields
  must hold.
- `resilience.dfy`: the breaker as a class that holds a reference to its monitor.
  The pure function `Attempt` is the effect of one call. `Execute` is proved
  against it.
- `text.dfy`: the string built-ins the retriever uses. These are
  `toLowerCase`, `split` on one character, `join` and `includes`.
- `corpus.dfy`: the knowledge corpus of `constants.ts`, copied verbatim.
- `retrieval.dfy`: scoring, filtering, the stable sort, selection and the
  context string, as functions and lemmas.

Numbers are exact:

- Latencies are whole milliseconds.
- `Math.round(sum / n)` becomes the integer `(2·sum + n) / (2·n)`.
  The contract of `RoundDiv` states it is the nearest whole number.
- The test `failed / (total || 1) > 0.2` becomes `5·failed > (total || 1)`.
  The contract of `ErrorRateAbove` states the two tests agree.

Each call to `Date.now()` becomes a parameter:

- `now` is the reading before the operation runs (line 75).
- `settledAt` is the reading after the operation settles (line 103).

The model follows the code in these points:

- **Tokens.** The query is split on the single character `' '`, not on
  whitespace. So an empty query, or a doubled, leading or trailing space,
  produces an empty token. `"".includes` holds for every content, so each such
  token adds 1 to every chunk. An empty query therefore returns the first two
  corpus chunks, not an empty result. `EmptyTokenMatchesEverything` and
  `EmptyQueryRetrievesFirstTwo` prove this.
- **No match.** When nothing matches, the result is the empty string `""`.
- **Average.** The average is rounded to a whole number, not the exact mean.
- **Rejected calls.** A call the breaker rejects records no transaction. The
  breaker never calls `recordTransaction`.

## Model

| member | source | states |
|---|---|---|
| Telemetry.Sum | services/systemCore.ts:35 | the left-fold sum of the window is 0 for an empty window and no smaller than any single sample |
| Telemetry.RoundDiv | services/systemCore.ts:36 | the rounded quotient r satisfies len·(2r−1) ≤ 2·sum < len·(2r+1), i.e. it is the nearest whole number to sum/len with halves rounded up, as `Math.round` does for non-negative values |
| Telemetry.SumBounds | services/systemCore.ts:35 | the sum of samples that all lie in [lo, hi] lies in [n·lo, n·hi] |
| Telemetry.MeanWithinBounds | services/systemCore.ts:35-36 | the rounded mean of a non-empty window lies between any lower and upper bound of its samples |
| Telemetry.RateDenominator | services/systemCore.ts:47 | the error-rate denominator `requestsTotal \|\| 1` is never zero |
| Telemetry.ErrorRateAbove | services/systemCore.ts:47-51 | the integer test 5·failed > (total \|\| 1) holds exactly when failed/(total \|\| 1) > 0.2 computed over the reals |
| Telemetry.HealthOf | services/systemCore.ts:46-56 | DOWN iff the circuit is OPEN; DEGRADED iff it is not OPEN and the error rate exceeds 0.2 or the average exceeds 3000 ms; HEALTHY iff neither holds |
| Telemetry.Reported | services/systemCore.ts:41-44 | reporting a circuit state replaces the state, re-derives the status from the new snapshot, and leaves counters, average and last error unchanged |
| Telemetry.ReportedAll | services/systemCore.ts:41-44 | after several reports in a row the snapshot equals a single report of the last state; no reports leave it unchanged |
| Telemetry.LastWindow | services/systemCore.ts:32-33 | the window of a history holds min(n, 20) samples |
| Telemetry.LastWindowIsSuffix | services/systemCore.ts:32-33 | the window is the tail of the history: the history is its older samples followed by the window |
| Telemetry.SlideKeepsLastWindow | services/systemCore.ts:32-33 | pushing a sample and shifting out the oldest one when the window exceeds 20 yields exactly the last min(n, 20) samples of the history, never empty |
| Telemetry.WindowSum | services/systemCore.ts:35 | the accumulating loop returns the left-to-right sum of the window |
| Telemetry.SystemMonitor.constructor | services/systemCore.ts:15-23 | a new monitor has zero counters, average 0, no last error, HEALTHY status, CLOSED circuit and an empty window, and satisfies the monitor invariant |
| Telemetry.SystemMonitor.RecordTransaction | services/systemCore.ts:25-39 | total +1; failed +1 and last error overwritten only on failure; window = previous window plus the sample, oldest dropped past 20; average = rounded mean of the new window; circuit state unchanged; invariant (window = last 20 samples of the history, status = HealthOf) preserved |
| Telemetry.SystemMonitor.SetCircuitState | services/systemCore.ts:41-44 | the snapshot becomes `Reported(old, state)`: only the circuit state and the status change; window and history untouched |
| Telemetry.SystemMonitor.UpdateHealthStatus | services/systemCore.ts:46-56 | the if-cascade sets the status to HealthOf of the current snapshot and changes nothing else |
| Telemetry.SystemMonitor.GetMetrics | services/systemCore.ts:58-60 | returns a value copy equal to the current snapshot, with failed ≤ total and a status consistent with HealthOf |
| Telemetry.SlowSampleMean | services/systemCore.ts:35-36 | nineteen samples of 100 ms and one of 5000 ms have rounded mean 345 |
| Telemetry.RecordFailures | services/systemCore.ts:25-39 | recording n failures of the same latency on a fresh monitor counts n failures, records n equal samples, keeps the last error and leaves the circuit CLOSED |
| Telemetry.FailuresThenSlowSuccess | services/systemCore.ts:25-56 | 20 failures of 100 ms then one success of 5000 ms: 21 requests, 20 failed, the oldest sample evicted, average 345, last error kept, status DEGRADED |
| Resilience.Attempt | services/systemCore.ts:73-106 | an OPEN breaker within its cooldown rejects without running the operation and changes nothing; past it, it reports HALF_OPEN and runs the operation once; success zeroes the count and closes (reporting CLOSED); failure adds one and, at 3, opens with nextAttempt = settle time + 10000 (reporting OPEN); otherwise nothing else changes; a breaker that was not OPEN reports exactly [CLOSED] on success, [OPEN] on the failure that reaches 3, and nothing on other failures; the CLOSED ⇔ failures < 3 invariant is preserved |
| Resilience.Run | services/systemCore.ts:73-106 | a run of calls keeps a consistent breaker consistent, and no calls leave it unchanged |
| Resilience.ProbeDecides | services/systemCore.ts:73-106 | a probe through an OPEN breaker past its cooldown reports HALF_OPEN then CLOSED on success, or HALF_OPEN then OPEN with a new cooldown on failure, because the failure count is not reset on the way to HALF_OPEN |
| Resilience.RejectedWithinCooldown | services/systemCore.ts:74-80 | any run of calls that all arrive before the cooldown ends leaves an OPEN breaker exactly as it was |
| Resilience.ConsecutiveFailuresOpen | services/systemCore.ts:99-106 | consecutive failures that bring the count to the threshold leave a consistent breaker OPEN, from any starting state |
| Resilience.ThreeFailuresThenFailFast | services/systemCore.ts:66-106 | from the initial breaker, three failures open it with nextAttempt = third settle time + 10000, and any call no later than that is rejected |
| Resilience.CircuitBreaker.constructor | services/systemCore.ts:66-71 | a new breaker has no failures, is CLOSED with nextAttempt 0, and is bound to a valid monitor |
| Resilience.CircuitBreaker.Execute | services/systemCore.ts:73-91 | the new breaker fields equal `Attempt(...).next`; the result is the rejection iff the operation was not run, otherwise the operation's value or its re-raised error; the monitor receives exactly the reported states, in order, and its window and counters are untouched |
| Resilience.CircuitBreaker.OnSuccess | services/systemCore.ts:93-97 | failures 0, state CLOSED, nextAttempt unchanged, CLOSED reported to the monitor |
| Resilience.CircuitBreaker.OnFailure | services/systemCore.ts:99-106 | failures +1; at the threshold the state is OPEN, nextAttempt = now + 10000 and OPEN is reported; below it nothing else changes and nothing is reported |
| Resilience.ThreeFailuresReportDown | services/systemCore.ts:73-106 | three failing calls through a fresh breaker and monitor leave the monitor's circuit OPEN and its status DOWN, and a call within the cooldown is rejected |
| Text.Lower | services/systemCore.ts:113 | lower-casing keeps the length and maps each character through ASCII lower-casing |
| Text.LowerIdempotent | services/systemCore.ts:113 | lower-cased text has no capital letters and lower-casing it again changes nothing |
| Text.Split | services/systemCore.ts:113 | splitting yields at least one piece and no piece contains the separator |
| Text.JoinSplit | services/systemCore.ts:113 | joining the pieces of a split with the separator gives back the original string |
| Text.SplitJoin | services/systemCore.ts:113 | splitting a join of separator-free pieces gives back the pieces |
| Text.Join | services/systemCore.ts:131 | the first part is a prefix of the joined string |
| Text.Contains | services/systemCore.ts:118 | a needle found in the text is no longer than the text, and the empty needle is always found |
| Text.ContainsAt | services/systemCore.ts:118 | `includes` holds exactly when the needle starts at some position of the text; the empty needle occurs everywhere |
| Retrieval.Tokens | services/systemCore.ts:113 | the query yields at least one token, no token contains a space, and joining the tokens with single spaces gives back the lower-cased query |
| Retrieval.TokenScore | services/systemCore.ts:117-118 | a token contributes at most 3: at least 2 iff it is exactly one of the chunk's tags, and an odd amount iff it occurs in the lower-cased content |
| Retrieval.Score | services/systemCore.ts:116-119 | a chunk's score, summed over all tokens, is at most 3 per token |
| Retrieval.ScoreAppend | services/systemCore.ts:116-119 | the score of a concatenated token list is the sum of the scores of its parts, so repeated tokens count again |
| Retrieval.ScoreBounds | services/systemCore.ts:116-119 | a chunk's score is at least each single token's contribution |
| Retrieval.ScoreChunk | services/systemCore.ts:115-120 | the accumulating loop over the tokens returns the chunk's score |
| Retrieval.ScoreAll | services/systemCore.ts:114-121 | every corpus chunk is kept in order and paired with its score |
| Retrieval.Relevant | services/systemCore.ts:125 | the filtered list holds only chunks with a positive score and keeps every chunk of each positive score in its original order |
| Retrieval.RelevantEmptyOrAll | services/systemCore.ts:125 | nothing survives the filter iff every chunk scores zero; nothing is dropped when every chunk scores above zero |
| Retrieval.Insert | services/systemCore.ts:126 | insertion adds exactly one element to the multiset and puts it first or keeps the old head first |
| Retrieval.InsertKeepsTies | services/systemCore.ts:126 | insertion places the new chunk ahead of all chunks of its own score and keeps the others' order |
| Retrieval.InsertKeepsRanking | services/systemCore.ts:126 | inserting into a list sorted by descending score keeps it sorted |
| Retrieval.SortByScore | services/systemCore.ts:126 | the sort is a permutation, orders by descending score, and keeps the order of chunks with equal scores (stable) |
| Retrieval.StableRankingUnique | services/systemCore.ts:126 | two lists sorted by descending score that keep the same chunks of every score in the same order are equal |
| Retrieval.Rank | services/systemCore.ts:124-126 | the ranking is sorted by descending score, every chunk in it scores above zero, and for each positive score it keeps that score's chunks in corpus order |
| Retrieval.Top | services/systemCore.ts:127 | the selection is a prefix of the ranking of at most two chunks: exactly two when the ranking has two, the whole ranking otherwise |
| Retrieval.RankMembers | services/systemCore.ts:124-126 | the ranking holds exactly the chunks that score above zero |
| Retrieval.TopIsBest | services/systemCore.ts:124-127 | at most two chunks are selected (two when two are relevant), ranked, each scoring above zero and taken from the scored corpus; every unselected chunk scores no more than every selected one; equal scores keep corpus order |
| Retrieval.RankIsTheStableSort | services/systemCore.ts:124-126 | any stable descending ranking of the positively scored chunks equals the model's ranking |
| Retrieval.TopScorerRanksFirst | services/systemCore.ts:124-126 | a first chunk that scores above zero and no lower than any other ranks first |
| Retrieval.Contents | services/systemCore.ts:131 | one content per selected chunk, in the same order |
| Retrieval.TopEmptyIffNoScore | services/systemCore.ts:124-129 | at most two chunks are selected, and none iff every chunk scores zero |
| Retrieval.SelectedEmptyIffNoScore | services/systemCore.ts:112-129 | over the corpus, no chunk is selected iff every corpus chunk scores zero for the query |
| Retrieval.RetrieveContext | services/systemCore.ts:112-132 | the result is empty iff every corpus chunk scores zero; otherwise it starts with the header and holds one or two selected chunks |
| Retrieval.EmptyTokenMatchesEverything | services/systemCore.ts:113-118 | a query with an empty token scores every corpus chunk at least 1 and always retrieves context |
| Retrieval.EmptyTokenScoresOne | services/systemCore.ts:117-118 | the empty token scores exactly 1 on a chunk without an empty tag |
| Retrieval.UniformScoresKeepOrder | services/systemCore.ts:124-126 | when every chunk scores 1 the ranking keeps them in corpus order |
| Retrieval.UniformScoresRetrieveFirstTwo | services/systemCore.ts:124-131 | when every chunk scores 1 the first two are selected and joined by a blank line |
| Retrieval.EmptyQueryScoresOne | services/systemCore.ts:113-119 | the empty query is one empty token and scores 1 on every corpus chunk |
| Retrieval.EmptyQueryRetrievesFirstTwo | services/systemCore.ts:112-132 | the empty query returns the header, the first corpus chunk, a blank line and the second corpus chunk |
| Retrieval.NoEmptyTag | constants.ts:6-53 | no corpus chunk has an empty tag |
| Retrieval.FeedbackTagOnlyFirst | constants.ts:6-53 | only the system-dynamics chunk is tagged "feedback", and it is also tagged "loops" |
| Retrieval.TwoTokenScore | services/systemCore.ts:116-119 | a two-token query scores the sum of both tokens' contributions |
| Retrieval.TopScorerRetrievedFirst | services/systemCore.ts:124-131 | the top-scoring first chunk is selected first and its content directly follows the header |
| Retrieval.LoopsFeedbackTokens | services/systemCore.ts:113 | "loops feedback" tokenizes to "loops" and "feedback" |
| Retrieval.LoopsFeedbackScores | services/systemCore.ts:114-121 | for "loops feedback" the system-dynamics chunk scores at least 4 and no chunk scores more |
| Retrieval.LoopsFeedbackRanksSystemDynamicsFirst | services/systemCore.ts:112-132 | "loops feedback" scores the system-dynamics chunk at least 4, selects it first, and the context starts with the header followed by its content |

## Left out

- The UI components, `App.tsx` and `services/geminiService.ts` are not part of
  this model. They call the core but are not part of it.
- `INITIAL_LESSONS` and the other constants in `constants.ts` are not modelled.
  Only the retrieval corpus is.
- Asynchrony: the operation passed to `execute` is replaced by the value it
  settles with (`Outcome`). Whether it ran is the `invoked` flag of `Attempt`.
  Interleaving of concurrent `execute` calls across the `await` is not modelled:
  each call is atomic. In the source, the state stays HALF_OPEN while the probe
  awaits its operation, and line 74 rejects only in the OPEN state. So every
  call that starts during that time also runs its operation. The source does
  not limit HALF_OPEN to one call in flight, and the model does not capture
  such overlapping calls.
- The clock: each `Date.now()` is a parameter (`now` and `settledAt`).
- Floating point: latencies are whole, non-negative milliseconds. Counters are
  unbounded integers, so precision loss past 2^53 is not modelled.
- The rejection's error message text is not modelled. The rejection is the
  `CircuitOpen` result, distinct from an error the operation raises.
- Lower-casing covers ASCII letters only. Unicode case mapping is not modelled.
- The module-level singletons `monitor` and `circuitBreaker` are not modelled.
  Instead, the breaker holds a reference to the monitor it reports to.
- The optional `relevanceScore` field is modelled as a separate `ScoredChunk`
  pairing. Every chunk receives a score, so the `|| 0` fallbacks at lines
  125-126 never apply.
- `Array.prototype.sort` is modelled as a stable insertion sort. ECMAScript
  requires the sort to be stable, and `RankIsTheStableSort` shows that any
  stable sort gives the same ranking.
- The full history of latencies and of reported circuit states is ghost state.
  It is used to state the window invariant and the order of reports.
