# shamir-db: verified models of its hard parts

This project models nine pieces of shamir-db in Dafny and proves what they promise. Each
file is one module; `dafny verify dfyconfig.toml` checks all of them together.

- **Deterministic generator** (`HullDobell`, `VectorData`, `ClusteredVectors`). The 64-bit
  linear congruential generator behind the benchmark data, its rejection sampler and the
  clustered data set. The full period is proved from first principles, and the sampler's
  unbounded loop is bounded by a position on the full cycle.
- **Allocation accounting** (`PeakMem`, `PeakTracker`). Any number of threads and
  measurement windows as an interleaved step system over the three atomics, and the same
  operations run by one thread as a class.
- **Calendar arithmetic** (`Civil`). `civil_from_days` on 64-bit integers against the
  Gregorian calendar (leap rule in appendix C, month lengths in section 5.7 of RFC 3339).
- **`q!` and `filter!`** (`FilterLower`, `QueryGrammar`, `QuerySpelling`, `QueryRoundTrip`,
  `QueryTheorem`, `QueryParser`, `QueryLower`). The look-ahead parser over tokens, an
  independent description of the language it accepts, the parser as it consumes a stream in
  place, and the lowering to builder calls together with the query those calls build.
- **Request and close of the Node client** (`RequestProtocol`). A fair
  reader-writer lock, a versioned shutdown flag and two biased selects per request. One poll
  of a select is two steps, because a close can happen between its arms.
- **Canonical admin encoding** (`CanonicalFields`, `CanonicalValues`, `AdminEncoding`). All 35
  operation schemas over length-prefixed fields, with an explicit decoder.
- **Process-tree supervisor** (`BoundedPipe`, `Supervisor`). Classes for the process tree and
  its pipe readers over an operating system whose answers are arbitrary, so that a method's
  contract holds on every run.
- **Layout ratchet** (`LayoutKeys`, `LayoutScan`, `LayoutRatchet`, `BaselineText`). Names and
  their sorted order, the two-pass scan, the
  evaluation, the update, the comparison of revisions and the baseline file.
- **Affected crates** (`Affected`). The worklist closure over reverse dependencies.

`Common` holds the types several models share, `ModularArithmetic` facts about quotients and
remainders.

## Model

| member | source | states |
|---|---|---|
| VectorData.FullPeriod | crates/shamir-bench-utils/src/vector_data.rs:43-87 | from every seed the generator is back at the seed after exactly the multiples of 2^64 steps, no sooner |
| VectorData.NoEarlyRepeat | crates/shamir-bench-utils/src/vector_data.rs:74-87 | no two of the first 2^64 states from any seed are equal, so seed 0 is like any other |
| VectorData.EveryStateVisited | crates/shamir-bench-utils/src/vector_data.rs:74-87 | every 64-bit state is reached from every seed within 2^64 steps |
| HullDobell.ReturnTime | crates/shamir-bench-utils/src/vector_data.rs:84-87 | for every power-of-two modulus, odd increment and multiplier congruent 1 mod 4: n steps return to the start iff the modulus divides n |
| HullDobell.OrbitIsSurjective | crates/shamir-bench-utils/src/vector_data.rs:84-87 | under the same conditions the orbit of any start covers all residues |
| VectorData.LowBitAfter | crates/shamir-bench-utils/src/vector_data.rs:84-87 | the low bit alternates: after n steps it is that of seed plus n |
| VectorData.WitnessAccepts | crates/shamir-bench-utils/src/vector_data.rs:121-127 | a pass whose first draw comes from state 2^63 or 2^63 + 1 is accepted |
| VectorData.SomePassAccepts | crates/shamir-bench-utils/src/vector_data.rs:121-136 | from every generator state one of the first 2^63 passes of the rejection loop is accepted |
| VectorData.Rejected | crates/shamir-bench-utils/src/vector_data.rs:121-136 | the number of rejected passes: the first accepting pass and no earlier one, below 2^63 |
| VectorData.Lcg.NextU64 | crates/shamir-bench-utils/src/vector_data.rs:84-87 | one wrapping multiply-add; the result is the new state |
| VectorData.Lcg.NextF32 | crates/shamir-bench-utils/src/vector_data.rs:91-93 | one step; the draw is the high 24 bits over 2^24 and lies in [0, 1) |
| VectorData.Lcg.TryNextRange | crates/shamir-bench-utils/src/vector_data.rs:107-114 | bad bounds fail without a step; otherwise one step and an interpolated value in [lo, hi) |
| VectorData.Lcg.NextGaussian | crates/shamir-bench-utils/src/vector_data.rs:121-136 | the loop terminates from every state, stops at the first accepting pass and returns its first coordinate times the scale |
| ClusteredVectors.FlattenRow | crates/shamir-bench-utils/src/vector_data/vector_rows.rs:18-45 | row i of the flat buffer is the i-th appended row |
| ClusteredVectors.VectorRows.Push | crates/shamir-bench-utils/src/vector_data/vector_rows.rs:18-21 | appends one row and keeps the others |
| ClusteredVectors.VectorRows.Row | crates/shamir-bench-utils/src/vector_data/vector_rows.rs:39-45 | indexing returns the row that was pushed at that index |
| ClusteredVectors.VectorRows.Len | crates/shamir-bench-utils/src/vector_data/vector_rows.rs:24-26 | the number of pushed rows, and 0 for dimension 0 |
| ClusteredVectors.EffectiveClusters | crates/shamir-bench-utils/src/vector_data.rs:218-222 | the smaller of the requested count and the number of points; the requested count when there are no points |
| ClusteredVectors.DrawCentroid | crates/shamir-bench-utils/src/vector_data.rs:229-234 | one centroid row, a function of the seed and its index, and the generator state behind it |
| ClusteredVectors.DrawCentroids | crates/shamir-bench-utils/src/vector_data.rs:227-235 | all centroid rows from the seed alone |
| ClusteredVectors.DrawPoint | crates/shamir-bench-utils/src/vector_data.rs:249-254 | one point: its centroid plus scaled noise drawn from its own position in the stream |
| ClusteredVectors.DrawNext | crates/shamir-bench-utils/src/vector_data.rs:248-254 | point i: the round-robin centroid and noise from its own place in the stream |
| ClusteredVectors.DrawPoints | crates/shamir-bench-utils/src/vector_data.rs:246-255 | all points by round-robin over the centroids |
| ClusteredVectors.Generate | crates/shamir-bench-utils/src/vector_data.rs:200-258 | panics exactly on zero clusters, zero dimension or negative sigma; else the rows are a function of the five parameters |
| ClusteredVectors.MembersExact | crates/shamir-bench-utils/src/vector_data.rs:248-249 | cluster c of k gets n / k points, one more when c < n mod k |
| ClusteredVectors.ClustersBalanced | crates/shamir-bench-utils/src/vector_data.rs:185-188 | cluster sizes differ by at most one and no used centroid is empty |
| ClusteredVectors.ZeroSigmaCopiesCentroids | crates/shamir-bench-utils/src/vector_data.rs:197-199 | without noise every point equals its centroid |
| ClusteredVectors.MorePointsKeepPrefix | crates/shamir-bench-utils/src/vector_data.rs:245-255 | asking for more points keeps every earlier one |
| Civil.CivilSuccessor | crates/shamir-engine/examples/vector_report.rs:389-400 | for every day number the next day's date is the Gregorian successor |
| Civil.CivilFromDaysSteps | crates/shamir-engine/examples/vector_report.rs:389-400 | the same on 64-bit integers, wherever the next day does not overflow |
| Civil.EpochDate | crates/shamir-engine/examples/vector_report.rs:389-400 | day 0 is 1970-01-01 |
| Civil.CivilIsCalendarDay | crates/shamir-engine/examples/vector_report.rs:389-400 | the result is a valid date whose ordinal, counted by years and months, is the day number plus 719163 |
| Civil.CivilIsBijective | crates/shamir-engine/examples/vector_report.rs:389-400 | a valid date is the image of exactly one day number, its ordinal |
| Civil.CivilFromDaysImage | crates/shamir-engine/examples/vector_report.rs:389-400 | on 64-bit inputs the image is exactly the dates between the two extreme ones, each hit once |
| Civil.CivilOrder | crates/shamir-engine/examples/vector_report.rs:389-400 | earlier day numbers have earlier dates and conversely |
| Civil.OnlyFirstAdditionOverflows | crates/shamir-engine/examples/vector_report.rs:390-399 | overflow happens exactly above the maximum less 719468; otherwise no intermediate overflows and all commented ranges hold |
| Civil.YearOfEraRange | crates/shamir-engine/examples/vector_report.rs:393-395 | the three-term correction yields a year in [0, 399] and a day of year in [0, 365], 365 only in leap years |
| Civil.MarchDecomposition | crates/shamir-engine/examples/vector_report.rs:391-395 | the shifted day number is the days up to its March year plus its day of year |
| Civil.MonthTable | crates/shamir-engine/examples/vector_report.rs:396-398 | the month formula reproduces the table of cumulative month lengths |
| Civil.OrdinalOfNextDay | crates/shamir-engine/examples/vector_report.rs:387-400 | the independent ordinal grows by one on the calendar successor |
| Civil.OrdinalIsInjective | crates/shamir-engine/examples/vector_report.rs:387-400 | different valid dates have different ordinals |
| PeakMem.InvHolds | crates/shamir-bench-utils/src/peak_mem.rs:66-200 | in every reachable state: blocks in flight belong to one thread, at most one window is held, CURRENT counts the accounted bytes |
| PeakMem.CurrentIsAccounted | crates/shamir-bench-utils/src/peak_mem.rs:67-125 | CURRENT is the total of accounted block sizes mod 2^64, and equal to it iff that total is below 2^64 |
| PeakMem.NeverWraps | crates/shamir-bench-utils/src/peak_mem.rs:67-125 | CURRENT is that total whenever the live bytes plus those freed but not yet subtracted fit in 64 bits |
| PeakMem.CounterCanWrap | crates/shamir-bench-utils/src/peak_mem.rs:87-92 | without that bound a run wraps CURRENT although nothing is live: frees are subtracted after the memory is reused |
| PeakMem.QuiescentTotals | crates/shamir-bench-utils/src/peak_mem.rs:67-125 | with no operation in flight the accounted and the live totals agree |
| PeakMem.ReallocNeverSpikes | crates/shamir-bench-utils/src/peak_mem.rs:94-114 | a realloc moves CURRENT by new minus old in one step of machine arithmetic, whatever ran in between, and exactly so while the accounted total fits a word |
| PeakMem.NoOtherReset | crates/shamir-bench-utils/src/peak_mem.rs:127-147 | while a window is held only its own steps store to PEAK or move it |
| PeakMem.WindowIsExclusive | crates/shamir-bench-utils/src/peak_mem.rs:185-200 | from its acquire to its release no other window resets |
| PeakMem.LowerBound | crates/shamir-bench-utils/src/peak_mem.rs:108-170 | from the second load on, while no subtraction escapes, every value CURRENT had is in PEAK or still on its way there |
| PeakMem.UpperBound | crates/shamir-bench-utils/src/peak_mem.rs:108-170 | PEAK and everything on its way to it stay below the maximum of CURRENT since the first load |
| PeakMem.ReportedPeak | crates/shamir-bench-utils/src/peak_mem.rs:127-182 | for any threads and interleaving: the reported peak is at most the maximum since the first load if nothing was half-accounted there, and at least the maximum since the second load if nothing is half-accounted at the read and no subtraction in between escapes, that is, underflows past everything PEAK has or is about to get |
| PeakMem.CurrentCovered | crates/shamir-bench-utils/src/peak_mem.rs:108-130 | step by step: a covered counter stays covered exactly unless the step is a subtraction that escapes |
| PeakMem.EscapeBreaksTheReport | crates/shamir-bench-utils/src/peak_mem.rs:123-170 | the guard is exact: from every open window with nothing half-accounted, the run that takes an escaping subtraction and then reads reports too little |
| PeakMem.ReportedPeakWithoutUnderflow | crates/shamir-bench-utils/src/peak_mem.rs:127-182 | the lower bound for every window in which no subtraction takes more than CURRENT holds |
| PeakMem.FittingNeverUnderflows | crates/shamir-bench-utils/src/peak_mem.rs:123-125 | while the accounted total fits a word no subtraction underflows |
| PeakMem.ReportedPeakWhenFitting | crates/shamir-bench-utils/src/peak_mem.rs:127-182 | so the lower bound holds for every window whose accounted total fits a word |
| PeakMem.UnderflowInWindow | crates/shamir-bench-utils/src/peak_mem.rs:123-130 | a run whose report is too low because a subtraction escaped, with 47 live bytes at the read and nothing half-accounted at either end |
| PeakMem.MaxCurrentIsMaximum | crates/shamir-bench-utils/src/peak_mem.rs:127-170 | the maximum used above bounds every state of the window and is attained |
| PeakMem.HalfAccountedAtRead | crates/shamir-bench-utils/src/peak_mem.rs:116-121 | a run that breaks the lower bound with an allocation half-accounted at the read |
| PeakMem.HalfAccountedAtFirstLoad | crates/shamir-bench-utils/src/peak_mem.rs:116-130 | a run that breaks the upper bound with an allocation half-accounted at the first load |
| PeakMem.BurstBetweenLoads | crates/shamir-bench-utils/src/peak_mem.rs:127-130 | a run whose reported peak misses a burst between the two loads: the lower bound cannot start at the first |
| PeakTracker.PeakCounters.AccountAlloc | crates/shamir-bench-utils/src/peak_mem.rs:116-121 | adds to CURRENT and raises PEAK to it |
| PeakTracker.PeakCounters.AccountDealloc | crates/shamir-bench-utils/src/peak_mem.rs:123-125 | subtracts from CURRENT, PEAK stays |
| PeakTracker.PeakCounters.AccountRealloc | crates/shamir-bench-utils/src/peak_mem.rs:108-114 | moves CURRENT by the difference, PEAK sees only the result |
| PeakTracker.PeakCounters.Account | crates/shamir-bench-utils/src/peak_mem.rs:67-104 | one operation of a workload in machine arithmetic; only the adding ones touch PEAK |
| PeakTracker.PeakCounters.ResetPeakOwned | crates/shamir-bench-utils/src/peak_mem.rs:127-130 | PEAK becomes CURRENT |
| PeakTracker.PeakCounters.Acquire | crates/shamir-bench-utils/src/peak_mem.rs:188-193 | succeeds exactly when no window is active and then activates it |
| PeakTracker.PeakCounters.Reset | crates/shamir-bench-utils/src/peak_mem.rs:138-144 | resets only outside a window and leaves no window active |
| PeakTracker.PeakCounters.Measure | crates/shamir-bench-utils/src/peak_mem.rs:162-170 | refuses without running inside a window; else reports the largest counter value at the start or after an adding call, which is the high-water mark of live bytes whenever the workload fits, and releases the window |
| PeakTracker.NotedIsHighWater | crates/shamir-bench-utils/src/peak_mem.rs:162-170 | for a workload that fits, looking at the peak only after adding calls loses nothing |
| PeakTracker.LiveAfterAppend | crates/shamir-bench-utils/src/peak_mem.rs:67-125 | live bytes after two workloads follow from those after the first |
| PeakTracker.HighWaterAppend | crates/shamir-bench-utils/src/peak_mem.rs:162-170 | two measurements in a row say as much as one over both workloads: its high-water mark is the larger of theirs |
| FilterLower.LoweringPreservesMeaning | crates/shamir-query-builder-macros/src/filter_lower.rs:28-116 | an expression is accepted exactly when it is a filter expression; the emitted calls then build a filter that judges every record as the expression means |
| FilterLower.SegmentsResolve | crates/shamir-query-builder-macros/src/filter_lower.rs:343-367 | a dotted path resolves in a record segment by segment, in order |
| FilterLower.PathCodeResolves | crates/shamir-query-builder-macros/src/filter_lower.rs:321-341 | the emitted path literal names the same place in every record |
| FilterLower.ComparisonPreserved | crates/shamir-query-builder-macros/src/filter_lower.rs:57-100 | each comparison keeps its operator, field side and value |
| FilterLower.CallPreserved | crates/shamir-query-builder-macros/src/filter_lower.rs:121-318 | each predicate call keeps its predicate, its field argument and its other arguments in order |
| FilterLower.CollectFieldSegments | crates/shamir-query-builder-macros/src/filter_lower.rs:343-367 | the collector pushes exactly the segments of the path, or fails |
| QueryTheorem.ParserIsExact | crates/shamir-query-builder-macros/src/query_parse.rs:208-348 | a stream parses to a tree exactly when it is a legal spelling of that tree: clauses in the documented order, nothing left over, keys distinct |
| QueryTheorem.RoundTrip | crates/shamir-query-builder-macros/src/query_parse.rs:208-348 | every tree whose names avoid the look-ahead keywords, spelled in clause order with or without trailing commas, parses to itself |
| QueryTheorem.AcceptedNamesAvoid | crates/shamir-query-builder-macros/src/query_parse.rs:223-306 | the converse: every tree the parser returns has names that avoid those keywords |
| QueryTheorem.Unambiguous | crates/shamir-query-builder-macros/src/query_parse.rs:208-348 | no stream is a legal spelling of two trees |
| QueryTheorem.ParsesBack | crates/shamir-query-builder-macros/src/query_parse.rs:208-348 | every legal spelling parses to its tree |
| QueryTheorem.AcceptedIsSpelled | crates/shamir-query-builder-macros/src/query_parse.rs:208-348 | every accepted stream is a legal spelling of the result |
| QueryRoundTrip.ListForward | crates/shamir-query-builder-macros/src/query_parse.rs:223-306 | a shown list, optional trailing comma included, is read back for any kind of item |
| QueryRoundTrip.ListBackward | crates/shamir-query-builder-macros/src/query_parse.rs:223-306 | an accepted list is a shown list whose items fit what follows them |
| QueryRoundTrip.SelectForward | crates/shamir-query-builder-macros/src/query_parse.rs:255-279 | a shown select clause, `distinct` included, is read back |
| QueryRoundTrip.SelectBackward | crates/shamir-query-builder-macros/src/query_parse.rs:255-279 | an accepted select clause is a shown one |
| QueryRoundTrip.ExprClauseForward | crates/shamir-query-builder-macros/src/query_parse.rs:214-253 | a shown `where` or `having` clause is read back |
| QueryRoundTrip.ExprClauseBackward | crates/shamir-query-builder-macros/src/query_parse.rs:214-253 | an accepted `where` or `having` clause is a shown one |
| QuerySpelling.PathForward | crates/shamir-query-builder-macros/src/query_parse.rs:355-370 | a shown field path is read back unless a dot and a name follow it |
| QuerySpelling.PathBackward | crates/shamir-query-builder-macros/src/query_parse.rs:355-370 | an accepted field path is a shown one, taken as far as it goes |
| QuerySpelling.TableForward | crates/shamir-query-builder-macros/src/query_parse.rs:372-399 | a shown table argument is read back |
| QuerySpelling.TableBackward | crates/shamir-query-builder-macros/src/query_parse.rs:372-399 | an accepted table argument is a shown one |
| QuerySpelling.ItemForward | crates/shamir-query-builder-macros/src/query_parse.rs:452-563 | every shown select item is read back |
| QuerySpelling.ItemBackward | crates/shamir-query-builder-macros/src/query_parse.rs:452-563 | every accepted select item is a shown one |
| QuerySpelling.OrderForward | crates/shamir-query-builder-macros/src/query_parse.rs:281-306 | a shown order item is read back |
| QuerySpelling.OrderBackward | crates/shamir-query-builder-macros/src/query_parse.rs:281-306 | an accepted order item is a shown one |
| QueryParser.ParseStream.FieldPath | crates/shamir-query-builder-macros/src/query_parse.rs:355-370 | the loop consumes and returns what the grammar says |
| QueryParser.ParseStream.Dotted | crates/shamir-query-builder-macros/src/query_parse.rs:359-369 | the same for the segments of a path |
| QueryParser.ParseStream.DottedWhole | crates/shamir-query-builder-macros/src/query_parse.rs:565-609 | segments inside parentheses, nothing left over |
| QueryParser.ParseStream.OptionalAs | crates/shamir-query-builder-macros/src/query_parse.rs:576-585 | an alias if one is announced |
| QueryParser.ParseStream.RequiredAs | crates/shamir-query-builder-macros/src/query_parse.rs:586-596 | an alias or an error |
| QueryParser.ParseStream.SelectItem | crates/shamir-query-builder-macros/src/query_parse.rs:452-563 | one select item as the grammar says |
| QueryParser.ParseStream.SelectCall | crates/shamir-query-builder-macros/src/query_parse.rs:459-541 | the call forms of select items as the grammar says |
| QueryParser.ParseStream.OrderItem | crates/shamir-query-builder-macros/src/query_parse.rs:285-296 | one order item as the grammar says |
| QueryParser.ParseStream.GroupByFields | crates/shamir-query-builder-macros/src/query_parse.rs:223-244 | the `group_by` loop computes the list of the grammar |
| QueryParser.ParseStream.SelectItems | crates/shamir-query-builder-macros/src/query_parse.rs:264-278 | the `select` loop computes the list of the grammar |
| QueryParser.ParseStream.OrderByItems | crates/shamir-query-builder-macros/src/query_parse.rs:281-306 | the `order_by` loop computes the list of the grammar |
| QueryParser.ParseStream.FilterExpr | crates/shamir-query-builder-macros/src/query_parse.rs:611-628 | a clause body, refused when empty or a clause keyword |
| QueryParser.ParseStream.Table | crates/shamir-query-builder-macros/src/query_parse.rs:372-399 | the table argument as the grammar says |
| QueryParser.ParseStream.Number | crates/shamir-query-builder-macros/src/query_parse.rs:308-322 | `limit` and `offset` as the grammar says |
| QueryParser.ParseStream.ReadQuery | crates/shamir-query-builder-macros/src/query_parse.rs:208-348 | the whole parser, consuming the stream in place, computes the grammar's result |
| QueryParser.CheckDuplicateSelectKeys | crates/shamir-query-builder-macros/src/query_parse.rs:401-441 | the scan accepts exactly the item lists without two equal output keys |
| QueryLower.CompiledQuerySaysItsTree | crates/shamir-query-builder-macros/src/query_parse_lower.rs:17-113 | lowering fails exactly on unsupported filters; else running the emitted builder calls gives a read query that says, clause by clause, what the tree says |
| QueryLower.ToTokens | crates/shamir-query-builder-macros/src/query_parse_lower.rs:18-112 | the loop that extends the chain emits the calls of the clauses in order |
| QueryLower.FilterTokens | crates/shamir-query-builder-macros/src/query_parse_lower.rs:42-70 | the chain up to `having`, or an error for an unsupported filter |
| QueryLower.OrderTokens | crates/shamir-query-builder-macros/src/query_parse_lower.rs:86-95 | one call for each order item, in order |
| QueryLower.ItemSpelled | crates/shamir-query-builder-macros/src/query_parse_lower.rs:281-344 | a lowered select item builds the item with its path and under its output key |
| QueryLower.ChainRuns | crates/shamir-query-builder/src/read/query/query.rs:36-186 | running the calls fills every part of the builder as the tree says |
| RequestProtocol.InvHolds | crates/shamir-client-node/src/request_state.rs:10-39 | in every reachable state: the lock queue is exactly the suspended lock futures, a writer holds alone, running requests saw no close, at most one close took the client |
| RequestProtocol.ClientTakenOnce | crates/shamir-client-node/src/client.rs:477-488 | over every run of requests and closes the client is taken at most once and never under a read guard |
| RequestProtocol.AfterSignal | crates/shamir-client-node/src/request_state.rs:19-38 | after the signal no request begins to poll its operation; only a poll already begun may finish |
| RequestProtocol.LateRequestNeverRuns | crates/shamir-client-node/src/request_state.rs:19-30 | a request that subscribes after the signal never touches the client |
| RequestProtocol.NoLostShutdown | crates/shamir-client-node/src/request_state.rs:19-38 | after the signal every pending request, in either select and however subscribed, has a named next step, and the flag polls lead to `Closed` |
| RequestProtocol.SomeStepEnabled | crates/shamir-client-node/src/request_state.rs:19-38 | as long as a request or close is pending after the signal, some step other than an arrival or a cancellation is enabled |
| RequestProtocol.WorkDecreases | crates/shamir-client-node/src/request_state.rs:19-38 | after the signal every step but an arrival lowers the remaining work |
| RequestProtocol.ShutdownTerminates | crates/shamir-client-node/src/client.rs:477-497 | without arrivals the number of steps after the signal is bounded by the remaining work |
| RequestProtocol.OrderKept | crates/shamir-client-node/src/client.rs:485-486 | no step puts anyone in front of a queued close |
| RequestProtocol.NoBarging | crates/shamir-client-node/src/request_state.rs:25-26 | while a close is queued only readers in front of it obtain the lock |
| RequestProtocol.NoBargingWriter | crates/shamir-client-node/src/client.rs:485-486 | and only writers in front of it |
| RequestProtocol.AheadNeverGrows | crates/shamir-client-node/src/client.rs:477-497 | arrivals included, the work in front of a queued close never grows and every step that serves it shrinks it |
| RequestProtocol.AheadCanMove | crates/shamir-client-node/src/client.rs:477-497 | while a close waits, a step that serves it is enabled |
| RequestProtocol.QueuedCloseIsServed | crates/shamir-client-node/src/client.rs:477-497 | a close waits for at most as many serving steps as there was work in front of it, however many requests arrive |
| CanonicalFields.BigEndianInverse | crates/shamir-query-types/test-vectors/admin_hmac_v2_reference.py:18-20 | big-endian integers below the width's limit read back |
| CanonicalFields.ScalarReadBack | crates/shamir-query-types/test-vectors/admin_hmac_v2_reference.py:21-23 | the UTF-8 bytes of every scalar value read back, whatever follows |
| CanonicalFields.ScalarsReadBack | crates/shamir-query-types/test-vectors/admin_hmac_v2_reference.py:21-23 | the UTF-8 bytes of every text read back |
| CanonicalValues.TextReadBack | crates/shamir-query-types/test-vectors/admin_hmac_v2_reference.py:21-23 | a length-prefixed text under 2^32 bytes is prefix-decodable |
| CanonicalValues.TextsReadBack | crates/shamir-query-types/test-vectors/admin_hmac_v2_reference.py:30-31 | a counted list of texts is prefix-decodable |
| CanonicalValues.ResourceReadBack | crates/shamir-query-types/test-vectors/admin_hmac_v2_reference.py:34-36 | a resource with the component count of its kind is prefix-decodable; the name of a namespace is dropped |
| CanonicalValues.GroupReadBack | crates/shamir-query-types/test-vectors/admin_hmac_v2_reference.py:39-40 | a group reference is prefix-decodable |
| CanonicalValues.ScopeReadBack | crates/shamir-query-types/test-vectors/admin_hmac_v2_reference.py:64 | a purge scope is prefix-decodable |
| CanonicalValues.PrefixDecodable | crates/shamir-query-types/test-vectors/admin_hmac_v2_reference.py:18-80 | every field type: the decoder, seeing only type and bytes, recovers the value's normal form and stops right behind it |
| AdminEncoding.FieldsDetermined | crates/shamir-query-types/test-vectors/admin_hmac_v2_reference.py:43-80 | within every operation equal field bytes mean equal normal forms of every field, whatever the component counts of resources |
| AdminEncoding.FieldsDecodable | crates/shamir-query-types/test-vectors/admin_hmac_v2_reference.py:43-80 | within any schema whose resources have the component count of their kind the same holds whatever bytes follow |
| AdminEncoding.ResourceThenTail | crates/shamir-query-types/test-vectors/admin_hmac_v2_reference.py:34-36 | with the tail of `chmod`, `chown` or `chgrp` behind it a resource of any component count is determined |
| AdminEncoding.EachPrefix | crates/shamir-query-types/test-vectors/admin_hmac_v2_reference.py:34-36 | of two component lists whose bytes start alike the shorter is a prefix of the longer |
| AdminEncoding.OperationsSeparate | crates/shamir-query-types/test-vectors/admin_hmac_v2_reference.py:90 | different operations never share canonical bytes, whatever their fields |
| AdminEncoding.TagReadBack | crates/shamir-query-types/src/security/hmac.rs:56-91 | every operation is recovered from its tag |
| AdminEncoding.TagsDiffer | crates/shamir-query-types/src/security/hmac.rs:56-91 | the 35 tags are pairwise different |
| AdminEncoding.CanonicalIsInjective | crates/shamir-query-types/test-vectors/admin_hmac_v2_reference.py:43-90 | for all fields that encode: canonical bytes are equal iff the operations are equal and their fields agree, up to the `invoker` default, the ignored namespace name and digest equality |
| AdminEncoding.EncodingUsesNormal | crates/shamir-query-types/test-vectors/admin_hmac_v2_reference.py:43-80 | values with the same normal form encode alike |
| AdminEncoding.SomeFieldsEncode | crates/shamir-query-types/test-vectors/admin_hmac_v2_reference.py:77 | the encoding is not empty: a token revocation encodes even with an empty id |
| AdminEncoding.ArityMatters | crates/shamir-query-types/test-vectors/admin_hmac_v2_reference.py:34-36 | without a fixed component count the same bytes split into two different resources |
| BoundedPipe.ReadBounded | crates/shamir-proc-tree/src/supervise.rs:80-98 | for every way the pipe delivers its bytes: the first `limit` bytes, plus the marker iff there were more |
| BoundedPipe.CutAnywhere | crates/shamir-proc-tree/src/supervise.rs:82-95 | any cutting into non-empty reads with any interruptions is the same stream |
| BoundedPipe.ChunkingIsInvisible | crates/shamir-proc-tree/src/supervise.rs:77-98 | the kept bytes depend on the stream alone, are bounded, and equal it iff it fits or ends in the marker itself |
| Supervisor.Lifecycle | crates/shamir-proc-tree/src/process_tree_unix.rs:35-178 | over every run, failed startup and `Drop` included, the group is killed only while its leader is unreaped, and the waiting is at most the timeout plus four grace periods |
| Supervisor.SuperviseInner | crates/shamir-proc-tree/src/supervise.rs:173-248 | success iff the first wait saw the exit and the run was clean (both pipes delivered, leader reaped, no kill fell back, final kill clean); incomplete teardown iff it saw the exit and the run was not; timeout iff it timed out; failure iff neither; errors carry the recorded problems, success the reaped status and what the pipes deliver; the status-unavailable error never occurs |
| Supervisor.WindDown | crates/shamir-proc-tree/src/supervise.rs:191-225 | everything before the final reap: the outcome is decided by the first event, and after an exit nothing is reported iff both pipes delivered and no kill fell back |
| Supervisor.Spawn | crates/shamir-proc-tree/src/process_tree_unix.rs:35-73 | a failed startup kills before it reaps, leaves no tree behind and reports problems exactly when one of its three steps failed |
| Supervisor.BoundedReap | crates/shamir-proc-tree/src/supervise.rs:9-27 | polls within one grace period; the leader is reaped iff a status is returned |
| Supervisor.GroupGone | crates/shamir-proc-tree/src/process_tree_unix.rs:149-157 | a verdict on the group within one grace period, sending no signal |
| Supervisor.ProcessTree.WaitExit | crates/shamir-proc-tree/src/process_tree_unix.rs:76-91 | a seen exit is remembered and costs nothing; otherwise one wait of at most the timeout |
| Supervisor.ProcessTree.Terminate | crates/shamir-proc-tree/src/process_tree_unix.rs:93-103 | kills the group exactly when the leader is unreaped; succeeds iff the signal was delivered, found nobody, or was refused by a group whose leader is a zombie |
| Supervisor.ProcessTree.Reap | crates/shamir-proc-tree/src/process_tree_unix.rs:105-142 | the last kill comes before the reap; the flag tells whether the leader was reaped; nothing is reported iff the kill was tolerated, the leader reaped and a doubtful group seen to vanish |
| Supervisor.ProcessTree.Drop | crates/shamir-proc-tree/src/process_tree_unix.rs:174-178 | kills the group exactly when the leader is unreaped, and waits for nothing |
| Supervisor.KillTree | crates/shamir-proc-tree/src/supervise.rs:249-267 | falls back to the leader iff the kill is made to fail or did not go well, and reports exactly that fallback and its failure |
| Supervisor.PipeReader.Collect | crates/shamir-proc-tree/src/supervise.rs:119-134 | waits to the deadline at most; bytes are there exactly after a delivery |
| Supervisor.CollectBoth | crates/shamir-proc-tree/src/supervise.rs:211-213 | both pipes share one grace period |
| Supervisor.Drain | crates/shamir-proc-tree/src/supervise.rs:211-225 | a late pipe is retried once behind a kill after a clean exit; the problems are exactly the fallback and the pipes that never delivered |
| Supervisor.Observe | crates/shamir-proc-tree/src/supervise.rs:191-201 | the outcome is the first wait's answer, or a failure without a wait |
| Supervisor.StopLeader | crates/shamir-proc-tree/src/supervise.rs:203-210 | kills before it waits again, for at most one grace period; the problems are exactly those of the kill and of the wait |
| Supervisor.LateKillIsUnsafe | crates/shamir-proc-tree/src/process_tree_unix.rs:93-96 | one more group kill after a reap would be unsafe, so the guard is needed |
| LayoutScan.Scan | scripts/ci/check_layout.py:174-217 | fails exactly on an unreadable counted file; else its directories are exactly those in scope, each with its files counted with multiplicity plus its distinct subdirectories |
| LayoutScan.ScanNames | scripts/ci/check_layout.py:174-217 | the same for names: tracked names in, sizes by name out |
| LayoutScan.NamedSizesCountChildren | scripts/ci/check_layout.py:174-217 | by name: for a duplicate-free list with no name a directory of another, each directory has its number of distinct direct children |
| LayoutKeys.JoinSplit | scripts/ci/check_layout.py:183-188 | splitting a name at slashes and joining gives it back |
| LayoutKeys.SplitJoin | scripts/ci/check_layout.py:183-188 | joining slash-free segments and splitting gives them back, so names and segment lists correspond |
| LayoutScan.CountFiles | scripts/ci/check_layout.py:180-199 | the first pass: direct files, all directories, source directories and line counts |
| LayoutScan.CountDirs | scripts/ci/check_layout.py:201-206 | the second pass adds one entry for each distinct subdirectory |
| LayoutScan.KeepInScope | scripts/ci/check_layout.py:208-217 | the filter keeps exactly the directories in scope |
| LayoutScan.CountIsChildren | scripts/ci/check_layout.py:184-206 | the count equals the number of distinct direct children iff no direct file is listed twice and none is also a directory; else it is larger |
| LayoutScan.ScanCountsChildren | scripts/ci/check_layout.py:174-217 | for a duplicate-free list with no path a directory of another, each in-scope directory has its number of distinct direct children |
| LayoutScan.OrderIsIrrelevant | scripts/ci/check_layout.py:174-217 | the report does not depend on the order of the list |
| LayoutRatchet.Evaluate | scripts/ci/check_layout.py:278-306 | in sorted order: exactly one violation for each size above what is allowed, with its limit, one hint for each entry that could be tightened, and the count of accepted entries |
| LayoutRatchet.CleanIffNoViolations | scripts/ci/check_layout.py:278-306 | no violations iff every size is within the larger of hard limit and record |
| LayoutRatchet.UpdateEntries | scripts/ci/check_layout.py:362-410 | the new baseline is the tightened one; blocking iff it still leaves a fault; the log is, sorted, one true line for each recorded entry that changed or is faulty, then one for each unrecorded fault |
| LayoutRatchet.UpdateIsFixpoint | scripts/ci/check_layout.py:362-410 | an update passes the comparison, repeating it changes nothing, no hint is left |
| LayoutRatchet.UpdateKeepsFaults | scripts/ci/check_layout.py:374-409 | tightening neither hides nor invents a fault |
| LayoutRatchet.UpdateIsTightest | scripts/ci/check_layout.py:374-396 | no baseline that keeps accepted entries accepted and regressed ones recorded is tighter |
| LayoutRatchet.HintMeansChange | scripts/ci/check_layout.py:294-305 | hints name exactly the measured entries an update would change |
| LayoutRatchet.Compare | scripts/ci/check_baseline_monotonic.py:125-138 | in sorted order: one finding for exactly each new or larger entry |
| LayoutKeys.SortedKeys | scripts/ci/check_layout.py:377 | the keys in ascending order: directories before files, then by code points |
| LayoutKeys.KeyTransitive | scripts/ci/check_layout.py:377 | that order is transitive |
| LayoutKeys.KeyOrder | scripts/ci/check_layout.py:377 | and any two different keys are ordered one way |
| LayoutRatchet.NoFindingsIffWithin | scripts/ci/check_baseline_monotonic.py:125-138 | no findings iff head records nothing new and nothing larger |
| LayoutRatchet.CheckMonotonic | scripts/ci/check_baseline_monotonic.py:191-219 | with the missing-file rules: passes iff head is within base, a missing file being empty |
| LayoutRatchet.FirstRecordBounds | scripts/ci/check_baseline_monotonic.py:125-138 | in a passing history whatever is recorded was recorded at every earlier revision, at least as large |
| LayoutRatchet.WholeHistoryRatchet | scripts/ci/check_layout.py:278-306 | over any chain of passing revisions a size never exceeds its hard limit or its first record |
| LayoutRatchet.MissingStaysEmpty | scripts/ci/check_baseline_monotonic.py:191-204 | after a missing baseline nothing is ever recorded again |
| BaselineText.RoundTrip | scripts/ci/check_layout.py:220-250 | writing then loading returns the map for all paths that are non-empty, start visibly and have no line break |
| BaselineText.RoundTripExactly | scripts/ci/check_layout.py:220-250 | and for no other map: the round trip works iff all paths are of that form |
| BaselineText.LoadedPathsOk | scripts/ci/check_layout.py:229-245 | whatever the file says, every loaded path is of that form |
| BaselineText.EntryParses | scripts/ci/check_layout.py:231-250 | one formatted line parses to its entry, inner and trailing spaces included |
| BaselineText.LoadBaseline | scripts/ci/check_layout.py:220-245 | the loop over lines; a missing file is empty, a malformed line an error |
| BaselineText.RenderBaseline | scripts/ci/check_layout.py:413-422 | the file lists every entry once, in ascending order of the keys |
| BaselineText.RenderLines | scripts/ci/check_layout.py:413-422 | the loop that builds the lines, for a given order |
| BaselineText.FileRoundTrip | scripts/ci/check_layout.py:220-250 | the written file loads as the map iff its paths are of that form |
| BaselineText.UpdateSurvivesTheFile | scripts/ci/check_layout.py:362-422 | whatever baseline was loaded and whatever was measured, the updated baseline written to a file loads as itself |
| Affected.SelectCrates | scripts/ci/affected_crates.py:122-170 | the whole workspace iff some changed path cannot be bounded; else the least set with the marked crates closed under reverse dependencies |
| Affected.Close | scripts/ci/affected_crates.py:159-168 | the worklist terminates and computes that least set |
| Affected.ManifestDirs | scripts/ci/affected_crates.py:97-105 | each crate folder belongs to the last package listed in it |
| Affected.ReverseDeps | scripts/ci/affected_crates.py:108-119 | exactly the workspace dependencies, reversed |
| Affected.SelectionIsUnique | scripts/ci/affected_crates.py:122-170 | the selection is determined by the input |
| Affected.MoreChangesSelectMore | scripts/ci/affected_crates.py:122-170 | with the workspace as top, more changed files never select less |
| Affected.ChainsAreSelected | scripts/ci/affected_crates.py:159-168 | every crate that depends on a marked one through any chain is selected |
| Affected.OnlyChainsAreSelected | scripts/ci/affected_crates.py:159-168 | and nothing else is |
| Affected.DocumentationSelectsNothing | scripts/ci/affected_crates.py:136-157 | a documentation-only change selects nothing iff none of its files lies in a `crates/` folder or among the global files |
| Affected.MarkdownExample | scripts/ci/affected_crates.py:136-143 | such a change exists |
| Affected.MarkdownCanSelectEverything | scripts/ci/affected_crates.py:136-143 | in every workspace, a changed Markdown file directly in `crates/` whose name no package claims as a folder selects everything |

Where code and documentation disagree the model follows the code:

- The header of `affected_crates.py` says that a change to Markdown files alone selects
  nothing. The code looks at the `crates/` folder first, so this holds exactly for the files
  named in `DocumentationSelectsNothing`.
- `CURRENT` is described as the live byte count. The code subtracts a freed block only after
  the system has the memory back, so the count can exceed what is live and, without the bound
  in `NeverWraps`, wrap; `UnderflowInWindow` shows a measurement that is then too low.

## Left out

- The engine, index, storage, transaction, handshake and planner code: not part of this model.
- Write forms of `q!` (insert, update, delete, upsert, call): the same combinators again.
- Floating-point rounding, `ln` and `sqrt`: draws are exact fractions and the Gaussian scale is a parameter.
- VectorData.Lcg.TryNextRange: non-finite bounds and the final clamp to `hi.next_down()` do not arise on real numbers.
- VectorData.Lcg.NextGaussian: the scale `sqrt(-2 ln s / s)` is a parameter and the arithmetic is exact.
- ClusteredVectors.Generate: a non-finite sigma does not arise on real numbers.
- Tokenising and operator precedence of Rust: the query parser works on tokens and takes the expression parser as a parameter; filter expressions start as trees.
- Contents of comparison values and predicates: filters are judged by uninterpreted functions of the resolved field.
- Error messages and spans of the macros: only whether parsing and lowering fail.
- The other parts of a read query (temporal, versions, explain, total count): the macro leaves them at their defaults.
- Fairness of the tokio scheduler and of select polling: liveness is an enabled step and a decreasing measure.
- Deadlines, secrets and the transport shutdown behind `close`: no step of the modelled protocol waits for them.
- SHA-256 and HMAC: a digest is an uninterpreted 32-byte function and no cryptographic claim is made.
- The JSON fixture and the printed vectors: input and output of the generator.
- Real clocks and the time spent outside timed waits: the clock may jump forward at any call, and only requested waits are added up.
- A leader reaped by someone else, and a process group that changes its leader: the supervisor owns the child.
- The Windows job-object code: other system calls behind the same interface.
- Text of a read error of the scan, and file text that is not valid UTF-8.
- The version of Unicode: decimal digits are those of 15.0.
- Overflow checks of debug builds, in which the addition of an allocation that wraps panics.
- Creating a missing baseline from the current violations, and rendering of the report.
- Affected.SelectCrates: names are a set; sorting and printing them is left out, and so is reading the metadata.
