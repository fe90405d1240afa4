# AgentCount: a verified model

AgentCount is a census pipeline. It follows a registry of agents on several
chains, reads the documents those agents publish, judges each agent and each
paid endpoint on a ladder of questions, and publishes counts, prices and
differences between sweeps. This project models the logic that decides what is
published, and proves what that logic promises.

The outside world is a set of parameters that may behave in any way: a provider
may refuse any range or fail on any call, a clock only moves forward, a network
answers anything, a database transaction may break at any statement or lose its
acknowledgement. Where the code only terminates or only succeeds under a
condition, the condition is part of the statement. Machine integers are explicit
where they matter (64-bit casts and wrap-around, saturating and checked
arithmetic). Loops and objects of the code are methods and classes, each proved
against a specification function or predicate; the laws are lemmas about those.

| module | what it models |
|---|---|
| `Ledger`, `Store`, `Indexer` | the chain indexer: range splitting, the atomic batch, the cursor protocol over whole histories |
| `PoliteFetch`, `Cadence`, `Fairness`, `Waits` | the per-host politeness protocol as interleaved steps of any number of fetch tasks; when the delay spaces what a host sees; no fetch waits for ever, and how long one can be made to wait |
| `Registry`, `Token` | adaptive and splitting range scans, boundary search, batched transfer queries |
| `Decimal`, `Units`, `Summary` | decimal printing of unbounded integers; payment counts, shared addresses, saturating buckets |
| `Order`, `Transitions`, `SweeperDelta`, `SellersDelta` | transition tables between two sweeps |
| `Robots`, `RobotsText` | the robots.txt parser against its reading as groups (section 2.2.1 of RFC 9309), down to the text of the file |
| `Uris`, `Fetch`, `Refusal`, `Resolvable` | from a raw URI through redirects and gateways to the rung-2 verdict |
| `Live`, `Ladder` | rung 6, and skip propagation over the dependency forest of rungs |
| `Documents`, `NulEscape` | rewriting every string of a JSON document; NUL escaping in strings and documents |
| `Networks`, `Identity`, `Catalog` | canonical network names, seller identities, the assembled population |
| `Settled`, `Shop` | settlement tallies; the capped cheapest purchase |

## Where code and documentation part

The model follows the code. Each of these is proved, with the exact condition
under which the documented behaviour holds.

- `run_batch` adds the batch size, and the step to the next block, without a
  check: the cursor moves forward if and only if from + batch is below 2^64 and
  the batch ends below 2^64 - 1 (`Indexer.CursorAdvancesIff`). Otherwise block 9
  goes back to block 8 (`Indexer.CursorCanRegress`), or the chain starts over at
  block 0 (`Indexer.CursorCanRestart`). A batch covers batch + 1 blocks, although
  the setting is described as blocks per query (`Indexer.RunReaches`).
- The indexer is said to stay a buffer of confirmations behind the tip. It does, if
  and only if the chain is as long as the buffer: on a shorter one block 0 is
  indexed at once (`Indexer.BatchConfirmedIff`).
- `is_range_too_large` is documented with a provider's words, "query returned more
  than 10000 results", that it does not recognise (`Indexer.RefusalMissed`; what it
  does recognise, `Indexer.RangeTooLargeIff`).
- `registrations` ends, whatever the provider does, if and only if the last block
  is not the largest 64-bit number; if it is, no provider lets the scan succeed
  (`Registry.ScanEndsIff`). The growth branch of `LogWindow` is never
  taken, because the window stays at its ceiling
  (`Registry.LogWindow.OnSuccess`, `Registry.Registrations`).
- Batched transfer queries return a transfer once for each chunk that names its
  address, so they agree with one query, whatever the chain holds, if and only
  if targets that stand for one address never fall in different chunks
  (`Token.BatchingExactIff`).
- The politeness delay spaces slots. The sends themselves are spaced as well,
  even if every task wakes on time, if and only if the global limit is at least
  two for every host in play: four hosts for the default limit of eight
  (`Cadence.SpacedIff`). `PoliteFetch.DialRate` bounds the dials of all runs.
- A redirect status without a Location is recorded as too many redirects, an
  error of the census, although a comment calls it a final response; with hops
  to spare, that record means a missing Location and nothing else
  (`Fetch.TooManyEarlyIff`, `Resolvable.RedirectWithoutLocation`).
- `percent_decode` accepts a sign inside an escape: `%+5` becomes the byte 5.
  It does what its comment says if and only if no such escape occurs
  (`Uris.DocumentedIff`).
- A fetch is meant never to fail. It panics on a data URI exactly if its payload
  is read as base64 and a segment of its metadata, with no `enc=` segment before
  it, is longer than four bytes and has a character across the fourth
  (`Uris.BreaksIff`; `data:;base64;aéé,e30=` is one, `Uris.CharacterTorn`). Every
  other URI gets its outcome and its verdict (`Fetch.Fetch`,
  `Resolvable.CheckUri`).
- A gzipped document comes back whole if and only if it is at most eight MiB;
  a longer one is cut there without a word (`Uris.EncodedRoundTrip`).
- Whether robots.txt permits a URL is said to mean one thing in this project.
  The document gate matches the path, the public entry point the path and the
  query. They agree if and only if the path alone is already blocked, or no rule
  longer than the path matches into the query (`Fetch.GatesAgreeIff`; `/a?x`
  tells them apart on `/a?x=1`, `Fetch.GatesDiffer`).
- If no gateway URL parses, an ipfs URI is a failure of the agent rather than an
  error of the census (`Resolvable.IpfsVerdict`).
- A trailing group without directives that names us takes over the rules of
  whatever group it is moved in front of; every other group can be moved freely
  (`Robots.MovableIff`).
- The NUL substitution is called lossless. It is, if and only if the original
  does not already spell the escape (`NulEscape.LosslessIff`), at any depth of a
  document (`NulEscape.DocumentLosslessIff`); and a document keeps its shape if
  and only if no two keys of an object escape alike
  (`NulEscape.EscapedShapeIff`).
- Rung 6 reads an observation as rung 2 does, except an error-free 402
  (`Live.AgreesWithRungTwoIff`).
- The shape of a stored address tells the rule that normalised it, unless a
  payee of a non-EVM network wrote 0x and forty hexadecimal digits
  (`Identity.EncodingTold`; both verbatim rules accept one,
  `Identity.ShapedPayeeAccepted`).

## Model

| member | source | states |
|---|---|---|
| Ledger.ScanAccept | crates/indexer/src/ingest.rs:93-99 | popping an accepted range from the work stack returns exactly the next logs of the whole query and leaves the rest pending |
| Ledger.ScanSplit | crates/indexer/src/ingest.rs:100-105 | halving a refused range leaves the same blocks pending, in order, and is progress |
| Indexer.FetchLogs | crates/indexer/src/ingest.rs:90-109 | for any provider: what one unlimited query would return, or an error that narrowing cannot help; accepted ranges tile from..to in order, failed calls are accepted calls minus one |
| Indexer.RangeTooLargeIff | crates/indexer/src/ingest.rs:72-84 | a refusal is retried with a narrower range exactly if it contains one of six phrases, in any case |
| Indexer.RefusalMissed | crates/indexer/src/ingest.rs:66-84 | a documented refusal that contains none of them |
| Indexer.FetchHeaders | crates/indexer/src/ingest.rs:165-183 | exactly one header request per distinct block that produced a log, and no other block |
| Indexer.DecodeIsRecognised | crates/indexer/src/ingest.rs:185-193 | decoding through the batch's header map equals decoding against the chain's own headers |
| Store.Db.WriteBatch | crates/indexer/src/store.rs:66-163 | wherever the transaction breaks, all rows and the cursor are written or none, and an error may still hide a commit |
| Store.ReindexHarmless | crates/indexer/src/store.rs:66-163 | applying logs again, in any order and number, changes nothing |
| Store.OnlyApplyAll | crates/indexer/src/store.rs:66-163 | a batch of one chain acts on that chain's rows as if they were alone |
| Store.OnlyOther | crates/indexer/src/store.rs:66-163 | and leaves every other chain's rows as they were |
| Indexer.RunBatch | crates/indexer/src/ingest.rs:149-207 | one pass, under any failures: idle exactly while the next block is above head - confirmations, one whole batch up to there, or an error with nothing or the whole batch written; never a partial state |
| Indexer.Run | crates/indexer/src/ingest.rs:121-145 | the endless loop up to any stop: the states it passes through, its outcomes, and the waits (12 s when idle, doubling to 60 s after errors, none after progress); a pass whose requests all succeed does not err, unless the range wraps |
| Indexer.CursorRoundTrip | crates/indexer/src/ingest.rs:59-64 | the casts through the signed column lose nothing: the next batch starts one after the last block written |
| Indexer.CursorAdvancesIff | crates/indexer/src/ingest.rs:159-159 | for every head and batch size of 64 bits: the cursor moves forward exactly when from + batch fits 64 bits and the batch ends below 2^64 - 1 |
| Indexer.CursorCanRegress | crates/indexer/src/ingest.rs:159-159 | a concrete batch size that moves the cursor back |
| Indexer.CursorCanRestart | crates/indexer/src/store.rs:145-159 | a batch that ends on the last block of 64 bits sends the cursor to before block 0 |
| Indexer.RunPasses | crates/indexer/src/ingest.rs:121-145 | the passes of a run are passes of a history, smooth ones those whose requests all succeed |
| Indexer.BatchKeeps | crates/indexer/src/ingest.rs:149-207 | a committed batch that is in range, as CursorAdvancesIff requires, keeps the tables equal to a replay of the chain up to the cursor and moves the cursor forward to at most the safe head |
| Indexer.BatchConfirmedIff | crates/indexer/src/ingest.rs:152-159 | every block of a batch has its confirmations exactly if the chain is as long as the buffer |
| Indexer.OtherBatchKeeps | crates/indexer/src/ingest.rs:149-207 | a batch of another chain, in range or not, touches neither rows nor cursor of this one |
| Indexer.PassKeeps | crates/indexer/src/ingest.rs:149-207 | any pass of any chain, successful or not, keeps a chain consistent, provided its own batches are in range |
| Indexer.HistoryKeeps | crates/indexer/src/ingest.rs:121-207 | over every interleaving of passes of all chains, restarts and moving heads, as long as the chain's own batches are in range: rows equal a replay up to the cursor, the cursor never decreases, and every block it passed (but block 0) lay `confirmations` below a head that the loop was shown |
| Indexer.EmptyConsistent | crates/indexer/src/ingest.rs:59-64 | the invariant holds of an empty database |
| Indexer.StoredExactly | crates/indexer/src/ingest.rs:185-193 | a log is in the replay exactly when a block of the range carries it and it is complete and recognised: the row has the log's own block, transaction, index, contract and event, and the hash and time of its own block's header |
| Indexer.ReplayRaw | crates/indexer/src/store.rs:66-163 | the audit rows of a replay are exactly its logs, each once under its own key |
| Indexer.ReplayAgents | crates/indexer/src/store.rs:66-163 | the agents table holds for each id its first registration, and no id without one |
| Indexer.ReplayFeedback | crates/indexer/src/store.rs:66-163 | the feedback table holds for each log key its first feedback, and nothing else |
| Indexer.ErrorFreePass | crates/indexer/src/ingest.rs:149-207 | an error-free pass is one step of the progress function |
| Indexer.RunReaches | crates/indexer/src/ingest.rs:121-145 | while requests succeed, batches are in range and the head stays put, a run of the loop gets on: after n passes the cursor is n * (batch + 1) blocks on, or rests on head - confirmations |
| Indexer.HistoryReaches | crates/indexer/src/ingest.rs:121-207 | the same for a chain whose requests succeed in every history, whatever passes of other chains come between and however those end |
| Indexer.ConsistentHolds | crates/indexer/src/store.rs:66-163 | the chain's audit rows are exactly its recognised logs from the deploy block up to the cursor, each once under its own key |
| PoliteFetch.HostLane.ClaimNextStart | crates/probe/src/fetch.rs:818-824 | the slot granted is the later of now and the lane's next start, which moves one delay past it |
| PoliteFetch.HostLane.BackOff | crates/probe/src/fetch.rs:830-836 | the next start is pushed out to at most 120 s from now and never pulled in |
| PoliteFetch.StepKeepsInv | crates/probe/src/fetch.rs:734-810 | every step of every task keeps permit accounting, slot spacing and no-early-dial |
| PoliteFetch.RunKeepsInv | crates/probe/src/fetch.rs:734-837 | over every interleaving: at most PER_HOST_CAP permit holders per host and at most the global limit in flight |
| PoliteFetch.IdleInv | crates/probe/src/fetch.rs:382-408 | a new prober satisfies the invariant |
| PoliteFetch.LaterSlots | crates/probe/src/fetch.rs:818-836 | a slot granted after a state is at least the lane's next start in that state |
| PoliteFetch.BackOffHonoured | crates/probe/src/fetch.rs:781-836 | after a Retry-After at time t every later slot on that host is at least t + min(Retry-After, 120 s) (section 10.2.3 of RFC 9110) |
| PoliteFetch.SlotRate | crates/probe/src/fetch.rs:818-824 | any window of length L holds at most L / delay + 1 slots of one host |
| PoliteFetch.DialRate | crates/probe/src/fetch.rs:734-810 | and, in every run and window, at most PER_HOST_CAP more dials than that |
| PoliteFetch.BackOffQuiet | crates/probe/src/fetch.rs:781-836 | until the wait is over, at most PER_HOST_CAP - 1 tasks dial the host, each with a slot from before the response |
| Cadence.SpacedIff | crates/probe/src/fetch.rs:734-756 | over every prompt run to a set of hosts, any two dials of one host are a delay apart exactly when the global limit is at least PER_HOST_CAP times the number of hosts |
| Cadence.RunOnTime | crates/probe/src/fetch.rs:746-756 | with that many permits a task that has its slot always finds one free, so it dials exactly at its slot |
| Cadence.SendsBunch | crates/probe/src/fetch.rs:751-756 | with fewer, a prompt run in which a task waits a whole delay past its slot for a global permit and then dials its host in the same instant as another task |
| PoliteFetch.SomeoneCanMove | crates/probe/src/fetch.rs:734-810 | no deadlock: while a task is unfinished some task can take its next step, after a wait at most |
| PoliteFetch.StepWork | crates/probe/src/fetch.rs:734-810 | each step of a task is one unit of a finite amount of work |
| PoliteFetch.EveryFetchCanFinish | crates/probe/src/fetch.rs:734-810 | from any reachable state, whatever order permits are granted in, there is a run in which every task finishes |
| Fairness.EventIsRun | crates/probe/src/fetch.rs:734-810 | with permits handed out in order of arrival, every event is some steps of the protocol, so the laws of its runs hold here too |
| Fairness.IdleGood | crates/probe/src/fetch.rs:382-408 | a new prober is where executions start |
| Fairness.NextKeeps | crates/probe/src/fetch.rs:734-810 | every event keeps both kinds of queue in order and hands every free permit on: nobody waits while a permit is free |
| Fairness.QueueMovesUp | crates/probe/src/fetch.rs:735-741 | a host's queue moves up by one with every request to that host that ends, and not otherwise |
| Fairness.LineMovesUp | crates/probe/src/fetch.rs:751-756 | the line for the global permit moves up by one with every request that ends, and not otherwise |
| Fairness.PermitInTurn | crates/probe/src/fetch.rs:735-741 | the task at place k keeps waiting until k requests to its host have ended and gets its permit with the next: no overtaking, no longer wait |
| Fairness.EveryFetchEnds | crates/probe/src/fetch.rs:734-810 | no starvation: in every infinite execution in which ready tasks are scheduled, requests end and time passes, every fetch ends, however many others keep arriving |
| Waits.WaitsBounded | crates/probe/src/fetch.rs:95-102 | in every run of a new prober, whatever Retry-After asks for: no cadence gets further ahead of the clock than two minutes (or the delay, if longer) and two delays, and no slot further than one delay less |
| Waits.WaitsReached | crates/probe/src/fetch.rs:804-836 | and a run that gets exactly that far, however much longer the origin asked for |
| Registry.LogWindow.constructor | crates/chain/src/registry.rs:431-438 | a new window is at its ceiling and at least one block |
| Registry.LogWindow.OnFailure | crates/chain/src/registry.rs:447-467 | the window halves unless it is one block, and stays at its ceiling if it was |
| Registry.LogWindow.OnSuccess | crates/chain/src/registry.rs:469-478 | at the ceiling nothing changes; below it every sixteenth success in a row doubles |
| Registry.Absorb | crates/chain/src/registry.rs:727-733 | of two registrations of an agent the earlier block is kept |
| Registry.Registrations | crates/chain/src/registry.rs:681-765 | for any provider: the minimum-block registration of each id in the range; windows tile the range, calls are windows plus failures, failures at most the binary logarithm of the start window; errors only for one block; it is left exactly where the recursive definition of the scan is |
| Registry.ScanEndsIff | crates/chain/src/registry.rs:698-757 | whatever the provider answers and however the window narrows, the scan ends when the last block is below the largest 64-bit number; at that number no provider ever lets it succeed |
| Registry.FindBoundary | crates/chain/src/registry.rs:339-365 | neighbours lo, lo + 1 with only lo existing; from 0 exactly 2 log2(lo) + 2 calls (one for lo = 0); an unanswered probe or an overflow is always an error |
| Registry.HighestAgentId | crates/chain/src/registry.rs:563-586 | an existing id whose successor does not exist, or none only if 0 does not exist |
| Registry.EnumerateAgentIds | crates/chain/src/registry.rs:595-600 | the ids 0..highest with highest existing and its successor not, which are the existing ids exactly when those are contiguous |
| Registry.RetryThrottled | crates/chain/src/registry.rs:267-323 | only throttled and timed-out calls are repeated, at most maxRetries times, and the waits add up to base * (2^n - 1) |
| Token.ChunkTransfers | crates/chain/src/token.rs:234-281 | one chunk: the transfers of one query over the range, or an error for a refused single block; a query without addresses would match every transfer |
| Token.TransfersBatched | crates/chain/src/token.rs:216-284 | all chunks in turn, the whole or an error; a chunk without a valid address is not asked about |
| Token.PerChunkCount | crates/chain/src/token.rs:216-284 | a transfer is returned once per chunk that names its address |
| Token.ReturnedIff | crates/chain/src/token.rs:216-284 | a transfer is returned exactly if a complete log says it, field by field, and some target stands for its recipient or sender |
| Token.ChunksExactIff | crates/chain/src/token.rs:216-284 | whatever the chain holds, batching is exact exactly when no address is in two chunks; otherwise a single transfer shows the difference |
| Token.BatchingExactIff | crates/chain/src/token.rs:216-284 | the same condition on the caller's list: targets that stand for one address never fall in different chunks |
| Token.DistinctTargetsOnce | crates/chain/src/token.rs:225-230 | distinct addresses are named by one chunk each |
| Decimal.ScaledIsProduct | crates/payments/src/units.rs:47-69 | the scaling used throughout is multiplication by a power of ten |
| Units.FormatShape | crates/payments/src/units.rs:47-69 | the branch for tokens without decimals prints like the general one |
| Units.FormatExact | crates/payments/src/units.rs:47-69 | for digit strings of any length: the output is canonical and reads back, scaled, as the input's value; anything else is refused |
| Units.CanonicalUnique | crates/payments/src/units.rs:38-46 | two canonical decimals that read alike are the same string |
| Units.PrintsAlikeIffEqual | crates/payments/src/units.rs:47-69 | two amounts print alike exactly when they are the same number |
| Summary.CountPaid | crates/payments/src/summary.rs:96-136 | the first loop's lists hold each counted address and agent once; the accumulators are the exact totals capped at 2^128 - 1 |
| Summary.FindShared | crates/payments/src/summary.rs:138-154 | the paid addresses that rows of two or more agents, counted or not, credit |
| Summary.OnlyShared | crates/payments/src/summary.rs:157-170 | an agent all of whose counted addresses are shared |
| Summary.Summarise | crates/payments/src/summary.rs:96-189 | every published field equals its set-based definition |
| Summary.BucketsPartition | crates/payments/src/summary.rs:122-135 | every counted row is in exactly one bucket |
| Summary.CountsAddUp | crates/payments/src/summary.rs:175-188 | the published bucket counts add up to the separately published number of counted transfers |
| Summary.BucketReads | crates/payments/src/summary.rs:173-184 | a printed bucket reads back as min(total, 2^128 - 1) |
| Summary.ParseIff | crates/payments/src/summary.rs:96-136 | an amount is read exactly if it is digits, after a plus sign at most, and fits 128 bits |
| Summary.PrintedRead | crates/payments/src/units.rs:47-69 | every printed number up to that limit is read back, and none beyond it |
| Summary.SummaryIgnoresOrder | crates/payments/src/summary.rs:96-189 | any permutation of the rows gives the same summary |
| Order.InOrder | crates/sellers/src/delta.rs:97-99 | a sorted collection iterates each member once in ascending order |
| Order.AscendingUnique | crates/sweeper/src/delta.rs:151-160 | there is one ascending sequence of a set of keys |
| Transitions.CountTransitions | crates/sweeper/src/delta.rs:119-130 | the counter holds, for every move, the number of shared keys that made it |
| Transitions.SumWhere | crates/sweeper/src/delta.rs:136-149 | a filtered sum over the counter, in any map order, counts the keys whose move passes the filter |
| Transitions.SortedFlips | crates/sweeper/src/delta.rs:151-160 | the published table is strictly sorted, positive and exact |
| Transitions.FlipsConserve | crates/sweeper/src/delta.rs:151-160 | the table sums to the number of shared keys whose status changed, and no row moves a status to itself |
| Transitions.FlipTableUnique | crates/sweeper/src/delta.rs:151-160 | the two runs determine the table, whatever order hash maps iterate in |
| Transitions.FlipsTransposed | crates/sweeper/src/delta.rs:115-171 | swapping the runs transposes the table |
| Transitions.WhereReversed | crates/sweeper/src/delta.rs:136-149 | counting a kind of move forwards is counting its mirror image backwards |
| Transitions.PopulationBalances | crates/sweeper/src/delta.rs:162-166 | after + disappeared = before + appeared |
| SweeperDelta.Compute | crates/sweeper/src/delta.rs:115-171 | the published row: populations, both headline series and the flips, each as a set size |
| SweeperDelta.DeltaDetermined | crates/sweeper/src/delta.rs:115-171 | the runs determine the row |
| SweeperDelta.DeltaConserves | crates/sweeper/src/delta.rs:115-171 | flips add up, populations balance, the headline series never exceed the table beneath them |
| SweeperDelta.DeltaReverses | crates/sweeper/src/delta.rs:115-171 | swapping the runs swaps the series and transposes the flips |
| SweeperDelta.HeadlinesMean | crates/sweeper/src/delta.rs:132-149 | both headline series, read off the two runs: agents whose rung 2 began or ceased to pass, refusals and errors aside |
| SweeperDelta.NoFalseChurn | crates/sweeper/src/delta.rs:60-60 | when every rung-2 change touches a refusal or an error of ours, both headline series are zero |
| SweeperDelta.ExclusionsIgnored | crates/sweeper/src/delta.rs:132-149 | the headline series depend on the moves between non-excluded statuses alone |
| SellersDelta.ExcludedVolumes | crates/sellers/src/delta.rs:131-142 | each excluded volume is the number of rung-2 moves touching that status and none earlier in the list |
| SellersDelta.Compute | crates/sellers/src/delta.rs:97-166 | the published seller row, each field as a set size |
| SellersDelta.DeltaDetermined | crates/sellers/src/delta.rs:97-166 | the sweeps determine the row |
| SellersDelta.RungTwoAccounted | crates/sellers/src/delta.rs:114-142 | every rung-2 transition is counted once: came back, went dark, one of three exclusions, or between other non-pass statuses |
| SellersDelta.DeltaConserves | crates/sellers/src/delta.rs:97-166 | flips add up and populations balance |
| SellersDelta.DeltaReverses | crates/sellers/src/delta.rs:97-166 | swapping the sweeps swaps the series, keeps the exclusions, transposes the flips |
| SellersDelta.RowMeans | crates/sellers/src/delta.rs:114-142 | the same for sellers, and what each of the three excluded volumes counts |
| Robots.ParseDisallow | crates/probe/src/robots.rs:244-281 | the streaming loop equals a recursive reading of the classified lines (their text: `RobotsText.ClassifyIff`) |
| Robots.ParserReadsGroups | crates/probe/src/robots.rs:244-281 | that reading yields the Disallow values of exactly the groups that name the token or `*` |
| Robots.DisallowedIff | crates/probe/src/robots.rs:85-100 | a path is disallowed exactly when an applicable group has a non-empty Disallow value that prefixes it |
| Robots.RenderParses | crates/probe/src/robots.rs:244-281 | round trip: a file written from groups is read as those groups |
| Robots.OnlyOurGroupsMatter | crates/probe/src/robots.rs:244-281 | reordering or repeating groups and deleting other agents' groups changes no decision |
| Robots.MovableIff | crates/probe/src/robots.rs:244-281 | a group can be moved freely exactly when it has a directive or does not name us |
| RobotsText.ClassifyIff | crates/probe/src/robots.rs:249-288 | a line is read as exactly what its text spells: the comment cut off, the key in any case, white space around key and value not counted |
| RobotsText.CommentSaysNothing | crates/probe/src/robots.rs:283-288 | a comment behind a line, or on a line of its own, says nothing |
| RobotsText.FileReadIff | crates/probe/src/robots.rs:249-288 | a file is read as exactly the lines its text spells, the last ended or not |
| RobotsText.TextOfGroups | crates/probe/src/robots.rs:244-288 | round trip through text: however a file of groups is spelled, with comments and blank lines anywhere, it yields the Disallow values of exactly the groups that name us |
| RobotsText.CommentsIrrelevant | crates/probe/src/robots.rs:283-288 | files that say the same apart from comments and blank lines decide alike |
| RobotsText.TextDecidesIff | crates/probe/src/robots.rs:85-100 | a path is disallowed exactly when a group spelled in the text, naming the token or `*`, has a non-empty Disallow value that prefixes it |
| Uris.IpfsNamesIff | crates/probe/src/resolve.rs:148-156 | an ipfs URI names a content path exactly when, trimmed, it is the scheme, any number of slashes and that path |
| Uris.PlainRoundTrip | crates/probe/src/resolve.rs:220-238 | a document percent-encoded into a data URI is recovered as an inline payload |
| Uris.EncodedRoundTrip | crates/probe/src/resolve.rs:193-290 | for any encoders that the library's decoders undo, and on exactly the metadata that do not make the program panic: whatever document is encoded in base64 is recovered; of one gzipped as well, the first eight MiB, which is all of it exactly when it is no longer |
| Uris.FindEncodingIs | crates/probe/src/resolve.rs:263-266 | the search for `enc=` by bytes is the search by characters, except that it panics exactly on a segment cut inside a character with no `enc=` segment before it |
| Uris.BreaksIff | crates/probe/src/resolve.rs:220-290 | a URI has no outcome exactly when it is a data URI whose payload is read as base64 and whose metadata hold such a segment |
| Uris.ResolvedIff | crates/probe/src/resolve.rs:87-290 | read off the text of a URI that names no ipfs path: what is asked for over HTTP (http and https), which URIs carry their document and what it is, byte for byte, and which are in an encoding that is not decoded |
| Uris.LabelIff | crates/probe/src/resolve.rs:160-172 | what a text that is no URL is filed under |
| Uris.CharacterTorn | crates/probe/src/resolve.rs:263-266 | one such URI |
| Uris.PercentDecode | crates/probe/src/resolve.rs:294-312 | the index loop equals the left-to-right recursive decoding |
| Uris.HexDigitIff | crates/probe/src/resolve.rs:294-312 | the sixteen digits an escape is made of, and their values |
| Uris.EncodingRecovered | crates/probe/src/resolve.rs:294-312 | any percent-encoding of a byte string decodes to that string |
| Uris.DocumentedIff | crates/probe/src/resolve.rs:291-312 | decoding is as documented exactly when no escape carries a sign |
| Uris.SignedEscapeDecoded | crates/probe/src/resolve.rs:294-312 | the input on which the two differ |
| Fetch.ReadBodyCapped | crates/probe/src/fetch.rs:895-911 | however the body is chunked, its first MAX_BODY_BYTES are kept and truncation is told exactly |
| Fetch.FetchHttp | crates/probe/src/fetch.rs:599-703 | at most MAX_REDIRECTS + 1 sends, each hop validated first and each following from the one before; the record says how the chain ended |
| Fetch.FetchDetermined | crates/probe/src/fetch.rs:599-703 | for each behaviour of the world that contract leaves one chain, one end and one record |
| Fetch.TooManyEarlyIff | crates/probe/src/fetch.rs:659-697 | a fetch with hops to spare is recorded as too many redirects exactly when its last answer was a redirect without a Location, whose status it keeps |
| Fetch.FetchRobotsRules | crates/probe/src/robots.rs:167-237 | at most MAX_ROBOTS_REDIRECTS + 1 sends, each validated first; the rules are those the last answer settles, or the reason why none did |
| Fetch.RuledOutNeverAsked | crates/probe/src/fetch.rs:616-640 | where the robots.txt established for an origin has a group naming the token or `*` that rules the path out, no request for the document is sent |
| Fetch.GatesAgreeIff | crates/probe/src/robots.rs:120-134 | the document gate and the public entry point give one answer exactly when the rules block the path alone or have no matching prefix that reaches into the query |
| Fetch.GatesDiffer | crates/probe/src/fetch.rs:626-640 | the input on which the two differ |
| Fetch.RulesDetermined | crates/probe/src/robots.rs:167-237 | for each behaviour of the world there is one chain of requests and one result |
| Fetch.FetchIpfsChain | crates/probe/src/fetch.rs:537-592 | gateways are tried in order until the first 2xx, whose record is returned; every attempt is recorded with its status and error, and only all of them failing is a failure |
| Fetch.Fetch | crates/probe/src/fetch.rs:494-514 | which of the paths a URI takes and what the record says of it; there is no record exactly for the URIs on which reading the metadata panics |
| Resolvable.ErrorTextRead | crates/checks/src/refusal.rs:61-63 | the error texts the prober writes are read back as what they mean: no permission, a blocked address, or an error of ours |
| Resolvable.HttpVerdict | crates/checks/src/rung2_resolvable.rs:191-254 | over http(s) the verdict is decided by how the chain ended: robots and declines are Refused, timeouts, connections and redirects Error, blocked addresses and other statuses Fail |
| Resolvable.RedirectWithoutLocation | crates/probe/src/fetch.rs:659-697 | a first answer 302 without a Location: recorded as too many redirects, and judged an error of the census |
| Resolvable.AnsweredAtOnce | crates/checks/src/rung2_resolvable.rs:222-223 | a permitted request answered with a 2xx at once passes |
| Resolvable.IpfsVerdict | crates/checks/src/rung2_resolvable.rs:191-254 | over ipfs: Pass exactly on a gateway's 2xx; otherwise Error exactly when some gateway URL parses, and Fail when none does |
| Resolvable.LocalVerdict | crates/checks/src/rung2_resolvable.rs:125-190 | without the network: a decoded payload passes, an undecodable one is our error, nothing to fetch fails |
| Resolvable.BlankTold | crates/checks/src/rung2_resolvable.rs:128-135 | a blank URI is told apart from one with nothing to fetch |
| Resolvable.CheckUri | crates/checks/src/rung2_resolvable.rs:125-264 | end to end, for any network: every URI gets its verdict, except exactly those that make the prober panic. An http or https address is asked for and passes exactly on a 2xx over a validated chain of at most MAX_REDIRECTS + 1 sends; a document that the URI carries passes as it is; an encoding not decoded is our error; nothing to fetch fails |
| Live.Judge | crates/checks/src/rung6_live.rs:286-457 | the seven counters in one loop equal order-free sums, and the status follows from them |
| Live.ProbeableIff | crates/checks/src/rung6_live.rs:175-193 | an endpoint is probeable exactly if its trimmed text begins, in any case, with http:// or https:// |
| Live.KindIff | crates/checks/src/rung6_live.rs:175-235 | the published kind of any declared text: web address, mailbox, account on a chain, or other |
| Live.OutcomeIff | crates/checks/src/rung6_live.rs:344-391 | what one observation says, by status code; payment is asked for by an error-free 402 alone |
| Live.AgreesWithRungTwoIff | crates/checks/src/rung6_live.rs:344-391 | a single observation is judged as at rung 2, except an error-free 402 |
| Live.CountsConserve | crates/checks/src/rung6_live.rs:286-457 | live + answered not live + refused + our errors = probed <= probeable <= declared |
| Live.AbsentIff | crates/checks/src/rung6_live.rs:396-400 | no row exactly when something is probeable and nothing was probed |
| Live.OrderIrrelevant | crates/checks/src/rung6_live.rs:286-457 | the order of the endpoints changes nothing |
| Live.StatusIsHighest | crates/checks/src/rung6_live.rs:400-457 | the status is the highest any one observation gives, error < refused < fail < pass |
| Live.MoreOnlyRaises | crates/checks/src/rung6_live.rs:400-457 | observations of further endpoints never lower the status |
| Live.ObservationOnlyRaises | crates/checks/src/rung6_live.rs:400-457 | nor does an observation that arrives for an endpoint already declared |
| Ladder.RunLadder | crates/checks/src/ladder.rs:72-109 | for distinct rungs the in-place pass refines the recursive definition of a rung's stopper, which `Ladder.TrackSkips` states in rung numbers; sorted, none added or dropped |
| Ladder.StopperIsRoot | crates/checks/src/ladder.rs:72-109 | a named stopper is present, did not pass, has the status named, and nothing above it stops it |
| Ladder.OnlySkipsAdded | crates/checks/src/ladder.rs:72-109 | only rungs with a stopped parent change, to a skip naming the root-most stopper |
| Ladder.OrderIrrelevant | crates/checks/src/ladder.rs:72-109 | the input order does not matter |
| Ladder.LadderUnique | crates/checks/src/ladder.rs:72-109 | the results determine the ladder |
| Ladder.LadderTwice | crates/checks/src/ladder.rs:72-109 | running the ladder on its own output gives that output back |
| Ladder.RungSevenIndependent | crates/checks/src/ladder.rs:55-65 | rung 7's result depends on rungs 1 and 7 alone |
| Ladder.TrackSkips | crates/checks/src/ladder.rs:55-109 | rungs 2 to 7 in rung numbers alone: each is skipped exactly if a rung below it on its own track did not pass, with nothing missing in between, and names the lowest such rung; rung 5 does not stop rung 6, only rung 1 stops rung 7 |
| Ladder.TrackRoots | crates/checks/src/ladder.rs:55-65 | rung 1 and unknown rungs are never skipped |
| Ladder.TrackDecides | crates/checks/src/ladder.rs:55-109 | no result off a rung's own track matters to it |
| NulEscape.EscapeLeavesNone | crates/sweeper/src/store.rs:107-115 | no NUL is left and each costs five more characters |
| NulEscape.EscapeIdempotent | crates/sweeper/src/store.rs:107-115 | escaping twice is escaping once |
| NulEscape.EscapeSpelled | crates/sweeper/src/store.rs:107-115 | a NUL becomes a backslash, a u and four zeros, and back |
| NulEscape.LosslessIff | crates/sweeper/src/store.rs:107-115 | the reverse replacement restores the original exactly when it did not already contain the escape |
| NulEscape.UndoneOrShorter | crates/sweeper/src/store.rs:107-115 | escaping and substituting back restores a string or makes it shorter |
| Documents.Rewrite | crates/sweeper/src/store.rs:573-599 | the recursive rewrite, keys collected in order with a later one overwriting, equals the recursive definition |
| NulEscape.EscapeInJson | crates/sweeper/src/store.rs:573-599 | with the escape in place, at every depth |
| NulEscape.EscapedClean | crates/sweeper/src/store.rs:573-599 | no key or string value at any depth holds a NUL |
| NulEscape.CleanUntouched | crates/sweeper/src/store.rs:573-599 | a NUL-free document is unchanged |
| NulEscape.EscapedIdempotent | crates/sweeper/src/store.rs:573-599 | rewriting twice is rewriting once |
| NulEscape.DocumentLosslessIff | crates/sweeper/src/store.rs:561-599 | the reverse rewrite restores the whole document exactly when no key or string value, at any depth, already contains the escape |
| Documents.UndoneIff | crates/sweeper/src/store.rs:561-599 | the law behind it: one rewrite undoes another on a document exactly when it does so on every key and string |
| Documents.FieldsKeptIff | crates/sweeper/src/store.rs:583-596 | an object keeps all its fields exactly when no two of its keys become one |
| NulEscape.EscapedShapeIff | crates/sweeper/src/store.rs:573-599 | the tree keeps its shape, every item and field in place, exactly when keys stay apart in every object |
| Networks.SameIff | crates/sellers/src/network.rs:51-78 | two names are one network exactly when their ids agree up to the case of the namespace, their words up to case, or one is the other's friendly name |
| Networks.FriendlyNames | crates/sellers/src/network.rs:51-58 | the chain each friendly name stands for |
| Networks.OtherNames | crates/sellers/src/network.rs:59-72 | every other name stands for itself, in lower case but for the reference of an id |
| Networks.MainIsNotTest | crates/sellers/src/network.rs:51-78 | Base is never taken for Base Sepolia, whatever either is called |
| Networks.CanonicalIdempotent | crates/sellers/src/network.rs:51-72 | a canonical name is its own canonical name |
| Networks.EncodingIff | crates/sellers/src/network.rs:139-148 | the address encoding follows from the namespace the name stands for, and is never guessed |
| Networks.FriendlyEncodings | crates/sellers/src/network.rs:139-148 | the encodings of the friendly names |
| Identity.AcceptedAddress | crates/sellers/src/identity.rs:126-166 | an accepted address is the trimmed text, in lower case only under the hexadecimal rule |
| Identity.HexAccepted | crates/sellers/src/identity.rs:129-147 | an EVM payee is accepted exactly if it is 0x and forty hexadecimal digits, not all zero; the zero address has its own reason |
| Identity.Base58Accepted | crates/sellers/src/identity.rs:148-158 | a Solana payee exactly if it is 32 to 44 letters and digits, not all of them 1 |
| Identity.OpaqueAccepted | crates/sellers/src/identity.rs:159-167 | any other payee exactly if it has 1 to 128 bytes |
| Identity.NormalizeIdempotent | crates/sellers/src/identity.rs:126-166 | normalising a normal address changes nothing |
| Identity.SamePayeeIff | crates/sellers/src/identity.rs:126-166 | two spellings are one payee exactly when they agree, ignoring case only for hexadecimal addresses |
| Identity.EncodingTold | crates/sellers/src/identity.rs:114-123 | a stored address tells which rule normalised it, except a hexadecimal shape on another network |
| Identity.ShapedPayeeAccepted | crates/sellers/src/identity.rs:141-164 | such a payee is accepted verbatim and then taken for a hexadecimal one |
| Identity.SameHostIff | crates/sellers/src/identity.rs:171-190 | accepted resources share a host key exactly when the parser gives them the same host and non-default port |
| Identity.HostAccepted | crates/sellers/src/identity.rs:171-190 | a resource has a host key exactly if it is a web address with a host |
| Identity.WordsTell | crates/sellers/src/identity.rs:63-72 | the published word tells the reason of a refusal |
| Catalog.Assemble | crates/sellers/src/catalog.rs:141-168 | one seller per identity in strictly ascending order, carrying exactly what its listings said, and every refusal in turn |
| Catalog.OrderIrrelevant | crates/sellers/src/catalog.rs:141-168 | permuting listings gives the identical sellers and the same multiset of refusals |
| Catalog.NothingDropped | crates/sellers/src/catalog.rs:141-168 | every listing is refused with its reason or lands its catalog and resource in the one seller with its id |
| Catalog.NothingInvented | crates/sellers/src/catalog.rs:141-168 | nothing is in a seller or a refusal that no listing supplied |
| Catalog.RejectedCounts | crates/sellers/src/catalog.rs:160-163 | there are as many refusals as listings without an identity |
| Catalog.Coverage | crates/sellers/src/catalog.rs:173-181 | the nested loop counts, for each catalog, the sellers that mention it |
| Catalog.CoverageAlone | crates/sellers/src/catalog.rs:173-181 | a catalog's coverage is the number of sellers its own listings alone would assemble |
| Catalog.ExclusiveWouldBeMissed | crates/sellers/src/catalog.rs:102-107 | the sellers exclusive to a catalog are exactly those a census without it would miss |
| Settled.Tally.constructor | crates/sellers/src/settled.rs:112-123 | an empty tally with both wallets normalised |
| Settled.Tally.Absorb | crates/sellers/src/settled.rs:126-143 | one transfer added under exactly one kind, our own wallet recognised first |
| Settled.AbsorbWindow | crates/sellers/src/settled.rs:126-143 | after any windows the tally tells the closed form of all transfers seen |
| Settled.Judge | crates/sellers/src/settled.rs:182-188 | the verdict equals the closed form over all transfers |
| Settled.VerdictConserves | crates/sellers/src/settled.rs:126-169 | settlements and both exclusions add up to the transfers; Pass, a first and a last block exactly when somebody else paid |
| Settled.OrderIrrelevant | crates/sellers/src/settled.rs:126-169 | one verdict for one multiset of transfers |
| Settled.WindowsAddUp | crates/sellers/src/settled.rs:126-169 | the verdicts of two windows combine to the verdict of both |
| Settled.CaseNeverReadmits | crates/sellers/src/settled.rs:172-174 | a sender is recognised as the shopper or the payee exactly when the trimmed texts agree up to case |
| Shop.FaceValueIs | crates/sellers/src/shop.rs:93-106 | a readable price is the least whole number of cents covering the amount, and a price is unreadable exactly for an unlisted asset or an overflow |
| Shop.Decide | crates/sellers/src/shop.rs:115-168 | the first of the cheapest quotes at or under the cap; otherwise no quote is buyable and the reason is the most informative; the last branch is unreachable |
| Shop.DecisionUnique | crates/sellers/src/shop.rs:115-168 | the quotes leave exactly one decision |
| Shop.OrderOnlyMovesIndex | crates/sellers/src/shop.rs:115-168 | reordering quotes changes neither the price paid nor the reason for paying nothing |
| Shop.NeverOverspends | crates/sellers/src/shop.rs:87-106 | a purchase's amount is covered by its price and by the ten-cent cap at the asset's own scale |
| Shop.SweepOneCap | crates/sellers/src/shop.rs:78-85 | for the first sweep's asset the cap is exactly 100,000 atomic units |

## Left out

- The RPC, HTTP, TLS, DNS and Postgres clients, tracing, environment parsing and command-line wiring: oracles and an atomic store stand for them.
- `export`, `recompute`, the API crate, build scripts and `analysis/`: plumbing around logic modelled here.
- URL parsing, base64, the gzip decoder (its cap is modelled), Unicode lower-casing of an `enc=` value and text decoding: parameters with no assumption beyond a non-empty scheme.
- `parse_retry_after` dates: the parsed number of seconds is taken as given.
- `Summary::contract_share_percent`: floating point.
- `MethodConfound`, `retry_transient`, `classify_error` and `partition_by_scope`: branch-by-branch facts that follow from one body.
- Evidence JSON and its wording, except where a later rung reads an error text back.
- Rungs 1, 3, 4, 5 and 7 and the seller rungs other than settlement and purchase.
- Chain reorganisations below the confirmation buffer: the chain an indexer sees is fixed there.
- Indexer.FetchLogs: the words that mark a refusal as too large are compared after ASCII lower-casing, and the provider's order of logs within one answer is the order of blocks.
- Registry.RetryThrottled: the wait is a product of unbounded integers, so a shift by 64 or more is not modelled; which texts count as throttling is a parameter.
- Registry.Registrations: logs that cannot be decoded or cited are dropped by the provider parameter.
- PoliteFetch.RunKeepsInv: the cancellation of tasks is not modelled. It holds whatever order permits are granted in; `Fairness` relies on the semaphores' own promise to grant them in order of arrival.
- Cadence.SpacedIff: a prompt run only forbids time to pass a task's slot while a global permit is free; how long a task waits for its host permit is left open.
- PoliteFetch.EveryFetchCanFinish: says that a finishing run exists; that every fair execution finishes each fetch is `Fairness.EveryFetchEnds`.
- Fetch.FetchHttp: the robots decision of a document fetch is a parameter of the network, one answer per fetch; the per-host cache of rules is not modelled.
- Summary.Summarise: the three pairs of accumulators are kept in one record of three.
- Fetch.FetchIpfsChain: the URL parser's own words (after a bad gateway URL or an unusable redirect), hashes, headers and elapsed times are not kept.
- What a panic does to the tasks around it: a fetch that panics is modelled as one without an outcome.
- Debug builds, where an overflowing addition panics instead of wrapping.
- Integer columns narrower than 64 bits (log index and agent id are unbounded here).
