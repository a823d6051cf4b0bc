# ravager, modelled in Dafny

ravager is a small HTTP load generator. It reads its configuration from
command-line flags, then sends a number of requests to one URL. A dispatch
loop launches them in one of two modes:

- `max-in-flight`: at most `Parallelism` requests are in flight at once.
- `as-rps`: `Parallelism` new requests start every second.

Each request records its outcome in a shared statistics record with atomic
adds. A reporter prints those statistics every second, and once more at the
end.

This project models the bookkeeping of that program as pure Dafny functions
and state machines, and proves what the bookkeeping guarantees:

- `wrappers.dfy`: `Option` and a `Result` with early-return support.
- `config.dfy` (module `Config`): covers these pieces:
  - the zero configuration `New`;
  - the parallelism-mode parser `toParallelismMode`;
  - the checks `FromFlags` makes once the flags are parsed: a URL is required, and the mode must be valid.
- `stats.dfy` (module `Stats`): covers these pieces:
  - the statistics record;
  - hydration of the status-code buckets 100..599;
  - the adds a request makes for its outcome, with a fault when a status code has no bucket;
  - the counting invariant;
  - the tally of any batch of outcomes.
- `interleaving.dfy` (module `Interleaving`): the atomic adds of concurrently recording requests, in any interleaving.
- `dispatch.dfy` (module `Dispatch`): the loop condition the two dispatch loops share, and the choice of loop from the mode.
- `capped.dfy` (module `CappedDispatch`): `cappedInFlightDispatch` as a state machine. It includes the semaphore and the completion callback that releases it.
- `strict.dfy` (module `StrictDispatch`): `strictRpsDispatch` as a state machine, plus the loop itself as a method.
- `headers.dfy` (module `Headers`): the per-request header split `strings.SplitN(h, ":", 2)` and the header loop.
- `report.dfy` (module `Report`): covers these pieces:
  - `strconv.Itoa` and its inverse;
  - `presentStatuses`;
  - the integer part of `printStats`, which is the count since the last snapshot and the snapshot replacement.
- `snapshot_race.dfy` (module `SnapshotRace`): two overlapping `printStats` calls.

Modelling conventions:

- Time, the network and the OS are left out.
- A request's outcome is an input: a transport failure, or a response with some status code.
- A dispatch run is a sequence of atomic steps. The state machine allows a step only where the Go program could take it.
- A fatal `log.Fatal` becomes an `Err` result.
- The configuration field `Method` is named `verb`, because `method` is a Dafny keyword.

Where the model follows the code rather than a looser reading of the program:

- A response whose status code is outside 100..599 is not ignored. The map
  lookup at main.go:160 yields a nil `*uint64`, and the atomic add through it
  panics. The model returns `Err(NilCounter(code))` for that case.
- Headers are split inside every request (main.go:138-147), not once before
  the run. A header without a colon is fatal at the first request that uses it.
- `Parallelism` is never validated. The model takes it as a natural number and
  proves what happens at 0: the capped loop stalls before its first launch,
  and the strict loop never advances.

## Model

| member | source | states |
|---|---|---|
| Config.New | internal/config/config.go:30-35 | A new configuration has an empty (not missing) header list and body, and every other field is zero or empty |
| Config.ToParallelismMode | internal/config/config.go:92-98 | A mode is accepted if and only if it is "max-in-flight" or "as-rps", and the accepted mode is the input itself. Any other string, the empty one included, gives the invalid-mode error and the empty mode |
| Config.ModeParseIdempotent | internal/config/config.go:93-97 | Parsing the result of a parse again gives the same answer, error included |
| Config.DefaultModeAccepted | internal/config/config.go:41-44 | The default of the parallelism-mode flag parses to max-in-flight with no error |
| Config.FromFlagsAsWritten | internal/config/config.go:37-90 | As written: an empty URL is rejected whatever the other flags say. With a URL, an unknown mode is rejected. Otherwise the configuration holds the flag values, except that the body is always the empty default |
| Config.FromFlags | internal/config/config.go:79-87 | Corrected version, with the body copied after parsing (first row of Findings). The same URL and mode rejections apply. An accepted configuration holds exactly the flag values, the body included |
| Config.AsWrittenDropsBody | internal/config/config.go:71-78 | As written, a non-empty body given on the command line never reaches the configuration, which always holds the empty default |
| Config.DefaultsWithUrlAccepted | internal/config/config.go:46-69 | With only a URL given, the configuration is 100 in parallel, 1000 requests, GET, no headers, empty body, max-in-flight, and a 20-second timeout |
| Dispatch.SelectDispatcher | main.go:86-105 | The capped loop runs if and only if the mode is max-in-flight. The strict loop runs if and only if the mode is as-rps |
| Dispatch.AcceptedConfigDispatches | main.go:86-106 | Every configuration that passes validation runs one of the two dispatch loops, so `done` is never called without a run |
| Stats.HydrateFrom | main.go:59-63 | The hydration loop adds a zero counter for each code from its start up to 600, and keeps every other entry |
| Stats.NewStats | main.go:51-63 | The initial record has buckets exactly for codes 100..599, all zero, and zero counters |
| Stats.NewStatsConsistent | main.go:51-63 | The initial record satisfies the counting invariant: total = complete + fail, and the bucket sum = complete |
| Stats.Add | main.go:160 | An atomic add faults if and only if it targets the bucket of a code that has no entry |
| Stats.AddGrows | main.go:155-162 | No add lowers a counter or changes which buckets exist |
| Stats.Record | main.go:155-162 | A failure adds one to the fail and total counts and changes nothing else. A success with a bucketed code adds one to the complete count, its bucket and the total, and changes nothing else. A success without a bucket faults |
| Stats.RecordFaultsOffRange | main.go:155-162 | From a consistent record, recording faults if and only if it is a success whose code is outside 100..599 |
| Stats.RecordPreservesConsistency | main.go:155-162 | Recording one outcome keeps the counting invariant and never lowers a counter |
| Stats.RecordAllTally | main.go:155-162 | A batch of recordings faults if and only if some success has an unbucketed code. Otherwise the record grows by exactly the tally of the batch |
| Stats.RecordOrderIndependent | main.go:155-162 | Two batches with the same outcomes in any order fault alike and otherwise give the same record |
| Stats.RecordAllConsistent | main.go:155-162 | Any batch that does not fault keeps the counting invariant, and no counter decreases |
| Stats.FreshRunCounts | main.go:59-63 | From the hydrated record, a run faults if and only if a success has a code outside 100..599. Otherwise each counter and bucket holds the number of outcomes it counts, and the invariant holds |
| Interleaving.StepAccounts | main.go:155-162 | One atomic add by one request keeps the record equal to its base plus exactly the adds done so far. It keeps every request's outcome and lowers no counter |
| Interleaving.InterleaveAccounts | main.go:155-162 | Along any interleaving of the requests' adds, that accounting holds and no counter decreases. When every success code has a bucket, no interleaving faults |
| Interleaving.TotalTrailsOutcomes | main.go:156-162 | At any moment, complete + fail equals the total plus the number of requests still recording: those that have made their complete or fail add but not yet their total add. Once every request has finished, the two are equal |
| Interleaving.InFlightBounds | main.go:155-162 | A record read mid-run shows complete + fail equal to the total plus one per request still recording. So the total is never above complete + fail, complete + fail is at most one per request above the total, and no counter is below the starting record |
| Interleaving.FinishedHydrated | main.go:160 | Once every request has finished its adds, every success carried a bucketed code |
| Interleaving.FinishedIsTally | main.go:155-162 | Once every request has finished, the record is the base plus the tally of their outcomes |
| Interleaving.InterleavingIsSequential | main.go:155-162 | No lost updates: whatever the interleaving, the final record is the one that recording the outcomes one after another gives, and it is consistent |
| CappedDispatch.StepKeepsInv | main.go:110-118 | Every step keeps the bookkeeping invariant: tokens held = requests not yet released, the WaitGroup = requests not yet done, launched = running + releasing + finished, held ≤ p, and at most n launched |
| CappedDispatch.RunKeepsInv | main.go:110-118 | Every run that starts in a state satisfying the invariant ends in one that satisfies it |
| CappedDispatch.InFlightBound | main.go:87-91 | In every reachable state at most p requests hold a slot. The WaitGroup counts exactly the launched requests whose callback has not called `wg.Done` |
| CappedDispatch.LaunchesExactlyN | main.go:111-117 | Once the loop has ended, exactly n requests were launched, and no further launch is possible |
| CappedDispatch.DrainedMeansAllCompleted | main.go:74-76 | When `wg.Wait` returns after the loop, all n requests have called `wg.Done` |
| CappedDispatch.UnboundedNeverDispatched | main.go:111 | With a request count of 0 the loop never ends |
| CappedDispatch.ZeroParallelismStalls | main.go:87 | With parallelism 0, not even the first send into the semaphore can happen |
| CappedDispatch.NoDeadlock | main.go:87-91 | With p > 0, some step is possible until the loop has ended and every slot is released |
| CappedDispatch.FiniteRunTerminates | main.go:110-118 | A run with n > 0 takes at most 3n + 1 steps |
| CappedDispatch.CompletionReachable | main.go:81-108 | With p > 0 and n > 0, the run that completes each request before the next ends with n launched, all finished, and the loop exited |
| StrictDispatch.StepKeepsInv | main.go:120-129 | Every step keeps the bookkeeping invariant: the counter = ticks × p, the WaitGroup = requests not yet done, and every tick began below n |
| StrictDispatch.RunKeepsInv | main.go:120-129 | Every run that starts in a state satisfying the invariant ends in one that satisfies it |
| StrictDispatch.LaunchCount | main.go:121-128 | Once the loop has ended, it ran ceil(n/p) ticks of p launches each, so the number launched is at least n and less than n + p |
| StrictDispatch.DrainedMeansAllCompleted | main.go:74-76 | When `wg.Wait` returns after the loop, every launched request (at least n) has run its callback |
| StrictDispatch.UnboundedNeverDispatched | main.go:122 | With a request count of 0 the loop never ends |
| StrictDispatch.ZeroParallelismSpins | main.go:121-125 | With parallelism 0, ticks never raise the counter: nothing is launched and a finite loop never ends |
| StrictDispatch.InFlightUnbounded | main.go:122-127 | Nothing caps the requests in flight: for any request count whose loop condition admits k ticks (every k when the count is 0), k ticks with no completion leave k × p requests outstanding |
| StrictDispatch.StrictDispatchLoop | main.go:120-129 | The loop launches ticks × p requests with (ticks − 1) × p < n ≤ ticks × p, and its ticks followed by the exit are a run of the state machine |
| StrictDispatch.FiniteRunTerminates | main.go:120-129 | A run with n > 0 and p > 0 takes at most 2(n + p) + 1 steps |
| Headers.SplitN2 | main.go:139 | The split gives one piece (the whole string) if and only if there is no colon. Otherwise it gives two pieces: a colon-free name and the rest, which rejoin to the input |
| Headers.ParseHeader | main.go:139-146 | A header is fatal if and only if it has no colon, and the error reports one piece. Otherwise the name is the text before the first colon and the value is everything after it |
| Headers.ParseJoin | main.go:139-146 | Splitting `name:value` with a colon-free name gives back exactly that name and value, further colons and spaces in the value included |
| Headers.JoinParse | main.go:139-146 | A header that parses is exactly its name, a colon and its value |
| Headers.MalformedHeaderExample | main.go:140-145 | "X-Broken" is fatal, with one piece |
| Headers.HeaderExamples | main.go:139-146 | "Host:a:b" gives name "Host" and value "a:b". ":x" gives an empty name |
| Headers.SetHeaders | main.go:138-147 | The header loop succeeds if and only if every header has a colon. It sets one pair per header, in order, each the split of its header. Otherwise it reports the fatal error |
| Report.ItoaRoundTrip | main.go:210 | The decimal key of a status code parses back to that code |
| Report.ItoaInjective | main.go:210 | Distinct codes get distinct keys |
| Report.PresentStatuses | main.go:202-214 | Every code with a positive count appears under its decimal key with its count. No code with a zero count appears, and every key is the decimal key of a code with a positive count |
| Report.PrintStats | main.go:176-197 | The stored snapshot holds the total just read and the current time. The line reports the completed, failed and total values read, the elapsed time since the last snapshot, and the presented buckets. The count since the last snapshot is the plain difference when the total has not fallen behind the snapshot. When it has, the `uint64` subtraction wraps to 2^64 minus the shortfall |
| Report.LineNeverOvercounts | main.go:176-196 | Because the total is read first and counters only grow, a stats line never shows a total above completed + failed |
| Report.SeriesTelescopes | main.go:165-191 | Calls made one after another over growing totals each report the plain difference from the previous total, and the counts add up to the total's growth |
| SnapshotRace.AsWrittenRaceWraps | main.go:177-188 | With the order as written, two overlapping calls can give one of them a snapshot ahead of its total, so its count since the last snapshot is 2^64 − 1 |
| SnapshotRace.CorrectedNeverWraps | main.go:177-188 | Loading the snapshot before reading the total, every call in any interleaving sees a snapshot total no larger than its own total, and reports the plain difference |

## Left out

- The fasthttp client and all wire I/O (main.go:42-49, 103, 133-154) are foreign library calls. A request's outcome is an input to the model, and the client's `MaxConnsPerHost` setting is not modelled.
- Goroutine scheduling, `time.Sleep`, `time.After`, signal handling and the `select` between an interrupt and completion (main.go:65-78, 123, 165-174) are not modelled as such. Time disappears from the dispatch machines, and concurrency appears only as interleavings of atomic steps.
- The interrupt path prints the statistics without waiting for requests in flight (main.go:72-73). Only its overlap with the periodic printer is modelled, in `SnapshotRace`.
- The floating-point rate and `math.Round` (main.go:185-186, 197) are floating point. When no time has elapsed the source divides by zero, and that case is not modelled either. Only the integer count since the last snapshot and the elapsed time are kept.
- Flag parsing by pflag, `log.Fatal` exiting the process, and zerolog output (internal/config/config.go:40-78, main.go:141-144, 157, 193-199) are library plumbing. Parsed flags are an input, and a fatal error is an `Err` result.
- Stats.Add: counters are unbounded naturals, so 64-bit wrap-around of `CompleteCount`, `FailCount`, `TotalCount` and the buckets is not modelled. Reaching it would take 2^64 requests.
- StrictDispatch.LaunchCount: the loop counter is unbounded. The `uint64` wrap of `reqNum += p` when n is within p of 2^64 (main.go:122) is not modelled, so the result holds only for counts that fit.
- A negative `Parallelism` makes `make(chan, p)` or `wg.Add(p)` panic (main.go:87, 124). The dispatch machines take p as a natural number, and this panic is not modelled.
- Report.PresentStatuses: the nil-bucket panic (main.go:205-207) cannot happen, because only hydration stores into the map, and it never stores nil. Buckets are plain numbers.
- The request body is kept as the flag's characters. The `[]byte` conversion to UTF-8 is not modelled.
- `req.Header.Set` (main.go:136, 146) may canonicalise header names, and the fixed "Connection: close" header is also set there. The model keeps the split pairs as they are.
- The order `defer` imposes in `req` (main.go:132), with the completion callback after the adds, is not connected to the dispatch machines. Their `wg.Done` steps and the recording model's adds are separate models.
- `printStatsLoop` (main.go:165-174) only repeats `printStats` once a second. Its sequential repetition is `Report.PrintSeries`.

## Findings

| source | as written | input that shows it | evidently intended | confidence | as-written member | corrected member |
|---|---|---|---|---|---|---|
| internal/config/config.go:71-78 | `cfg.Body = []byte(bodyStr)` runs before `pflag.Parse()`, so it copies the flag's default "" | `--body hello` with any URL: the configuration's body is empty | the body is copied after parsing, so requests carry the given body | high, not executed | Config.FromFlagsAsWritten | Config.FromFlags |
| main.go:177-188 | `printStats` reads `TotalCount` before loading the stored snapshot; two calls can overlap on an interrupt, while `printStatsLoop` still prints | call A reads total 0; a request completes; call B reads 1, loads and stores a snapshot with total 1; A loads it: `0 - 1` wraps to 2^64 − 1 | the count since the last snapshot never wraps, e.g. by loading the snapshot before reading the total | medium, not executed | SnapshotRace.AsWrittenRaceWraps | SnapshotRace.CorrectedNeverWraps |
