# randoutbreaksim core, modelled in Dafny

The program simulates outbreaks as a branching process. Each primary
infectious individual starts a tree of infections. The engine walks that
tree depth first over a growable array of *layers*, one infectious
individual per depth. For each individual it draws a communicable period,
a number of transmission events, event times and numbers of infections.
Everything it does is reported through callbacks. The standard
summary-statistics collector uses those callbacks to fill per-path
timelines: infectious individuals, new infections and positive tests per
integer time bin, with negative bins for times before the primary's
creation. It also keeps sums, a histogram of infections per individual and
the extinction result. The executable's threads accumulate the path
timelines and write each path, and its contact-tracing entries, as
little-endian 32-bit words. Before all of this, the model parameters are
validated and the missing ones are solved for.

The Dafny modules follow that structure:

- `Doubles` (doubles.dfy): a double as NaN, a finite real or an infinity,
  with the IEEE comparisons and arithmetic the parameter solver uses.
- `Individuals` (individuals.dfy): the per-layer individual record, the
  draws the engine takes, and the event-time formula.
- `ModelParameters` (model_parameters.dfy): the parameter record and
  `model_solve_pars`, `model_solve_R0_group`, `model_solve_gamma_group`.
  Each is a method proved equal to a specification function, and the
  validation rules are proved as lemmas about those functions.
- `Simulation` (simulation.dfy): `sim_pars_init` and `sim_init`.
- `BranchSim` (branchsim.dfy): `branchsim_init` and `branchsim` as a class
  over an array of layers. The C `goto` structure becomes a loop over three
  program points: spawn the cursor's individual, generate its current
  event, or backtrack. Every callback is appended to a `trace`. The
  callback protocol is a machine over a stack of frame counts (`Replay`).
  Each step is proved to keep the trace a valid replay, and a completed run
  is proved to balance.
- `SummaryStats` (summary_stats.dfy): the `std_summary_stats` collector as a
  class with its three timelines as arrays. Logical bin `b` is stored at
  physical index `b + timelineshift`.
- `ThreadOutput` (thread_output.dfy): `realloc_thread_timelines` on a thread
  record, the four path writers and `ct_write_func` writing into a word
  array, and `ctcompar`. A reader (`DecodeReg`, `DecodeReltime`,
  `DecodeCt`) is defined independently, and each writer's output is proved
  to read back as the data written.

Some behaviour of the C is written out explicitly:

- Truncating `(int)` casts, `floor` and `ceil` are distinct functions.
- The signed/unsigned comparison `trt < npers` converts `trt` to unsigned,
  so a negative bin never passes.
- The path initialiser's reset `nimaxedoutmintimeindex=UINT32_MAX` stores
  -1 into the `int32_t` field; `PathInit` models that store as written, and
  `PathInitCorrected` the INT32_MAX sentinel that the rest of the model
  reasons about (see Findings).
- A `htole64` stored into a 32-bit slot on a little-endian host gives the
  low word.

## Model

| member | source | states |
|---|---|---|
| Doubles.MulFinite | src/lib/model_parameters.c:168 | a product of doubles is finite exactly when both factors are, and then equals the exact product |
| Doubles.DivFinite | src/lib/model_parameters.c:170-174 | a quotient is finite exactly for a finite dividend over a non-zero finite or infinite divisor, and then equals the exact quotient |
| Individuals.EventTimeInPeriod | src/lib/branchsim.c:108 | with u in [0, 1) an event time lies in (parent + latent, parent + latent + comm] |
| ModelParameters.SolvePars | src/lib/model_parameters.c:9-138 | result equals the specification; -1 exactly when the tbar/lambda/(p or mu)/R0 count is not 3, -2 exactly when the R0 group then fails, -3 exactly when it passes but not exactly one of kappa/t95 is set, -4 exactly when the main gamma group then fails; once those pass, the code is the first non-zero code of the interrupted-main, alternate and latent groups taken on the input; every code is 0 or in -12..-1 |
| ModelParameters.SolveR0Group | src/lib/model_parameters.c:140-192 | result equals the specification; a failed range check returns its own code (-1 for p < 0, -2 for tbar, -3 for lambda, -4 for R0); any other failure is the root finder's code, met only when p was missing and mu > 1 |
| ModelParameters.SolveGammaGroup | src/lib/model_parameters.c:194-243 | result equals the specification; -1 when ave is not >= 0, when x95 is unset and kappa is not > 0, or when x95 is set and below ave; infinite kappa gives x95 = ave; x95 = ave gives infinite kappa |
| ModelParameters.SolveInterruptedMain | src/lib/model_parameters.c:40-58 | result equals the specification; a zero pit skips the group and leaves the parameters unchanged; -5 exactly when pit is non-zero and not exactly one of kappait/it95 is set, -6 exactly when its gamma group then fails; only kappait and it95 change |
| ModelParameters.SolveAlternate | src/lib/model_parameters.c:60-116 | result equals the specification; q not > 0 skips the group and leaves the parameters unchanged; -7 exactly when q > 0 and not exactly one of kappaq/m95 is set, -8 exactly when its gamma group then fails; -9 and -10 the same for the interrupted-alternate group, exactly when the alternate group passes, pim (or pit when pim is unset) is > 0 and not all of imbar/kappaim/im95 are unset, with imbar borrowed from itbar; only the alternate fields change |
| ModelParameters.SolveLatent | src/lib/model_parameters.c:118-135 | result equals the specification; with kappal and l95 both unset the group is skipped; -11 exactly when one of them is set but not exactly one, -12 exactly when its gamma group then fails; only kappal and l95 change |
| ModelParameters.R0Relation | src/lib/model_parameters.c:167-174 | after a successful R0 group, R0 = lambda * tbar * mu in exact arithmetic whenever all four are finite |
| ModelParameters.R0GroupShape | src/lib/model_parameters.c:143-174 | a successful R0 group passed every range check, and its R0, lambda, tbar and mu are those derived from p and then filled in for the missing member |
| ModelParameters.MissingRelation | src/lib/model_parameters.c:168-174 | whichever member is filled in, the four finite values satisfy R0 = lambda * tbar * mu |
| ModelParameters.AlternateCodeIgnoresEarlierGroups | src/lib/model_parameters.c:60-116 | the alternate group's code does not depend on the R0, main or interrupted-main gamma results, so solving those first does not change it |
| ModelParameters.LatentCodeIgnoresEarlierGroups | src/lib/model_parameters.c:118-135 | the latent group's code depends only on lbar, kappal and l95 |
| ModelParameters.SolvedFactor | src/lib/model_parameters.c:170-174 | a finite R0 / (x * y) times x * y gives back R0 |
| ModelParameters.ZeroPGivesUnitMu | src/lib/model_parameters.c:149 | a provided p = 0 gives mu = 1 |
| ModelParameters.MissingPSolved | src/lib/model_parameters.c:177-190 | a missing p is the root finder's answer and code when mu > 1, and 0 with success otherwise |
| ModelParameters.DefaultsAreIncomplete | src/lib/model_parameters.c:11-14 | the defaults alone (no tbar, lambda, p, mu or R0) are rejected with -1 |
| ModelParameters.DefaultsSkipOptionalGroups | src/lib/model_parameters.c:40-137 | with q = 0, pit = 0 and no latent shape, passing the R0 and main gamma groups is enough for success |
| ModelParameters.InterruptedAltDefaults | src/lib/model_parameters.c:79-101 | an unset pim takes pit; a positive pim with imbar, kappaim, im95 all unset copies itbar, kappait, it95; otherwise an unset imbar takes itbar and -9 is returned exactly when not exactly one of kappaim/im95 is set |
| Simulation.SimParsInit | src/lib/simulation.c:9-45 | q = 0, pit = 0, tmax infinite, nstart = 1, popsize = 0, trelpriend false, all four primary period types, the log-attendees-plus-1 group type, every other numeric parameter NaN, timetype untouched |
| Simulation.SimVars.SimInit | src/lib/simulation.c:47-61 | the parameters and generator are stored, the data pointer is cleared and each of the six slots holds its default routine |
| BranchSim.StartCalls | src/lib/branchsim.c:44-50 | the start calls of a trace, in order: each one is a no-event or new-infection call |
| BranchSim.EventCalls | src/lib/branchsim.c:113-117 | the new-event calls of a trace, in order |
| BranchSim.ConsumedEventThen | src/lib/branchsim.c:113-131 | a new-event call followed by an end-of-infection call, allocation calls or nothing uses one more event draw and no period draw |
| BranchSim.FilteredAllocsDown | src/lib/branchsim.c:90 | allocation calls are neither start calls nor new-event calls |
| BranchSim.CompletedRun | src/lib/branchsim.c:22-171 | a trace that replays from [nstart] down to [0] started exactly nstart primaries, ended every individual it opened at each layer, and started at layer l + 1 exactly as many individuals as the accepted events of layer l had infections |
| BranchSim.PrimariesBalance | src/lib/branchsim.c:34-36 | each primary taken from the root frame is started exactly once, with or without events |
| BranchSim.OpenedEndedBalance | src/lib/branchsim.c:60-150 | at each layer the new-infection calls and the end-of-infection calls differ only by whether that layer was open at either end of the trace |
| BranchSim.ChildrenBalance | src/lib/branchsim.c:115-161 | the individuals started at layer l + 1 are the infections of the accepted events at layer l, up to those pending at either end |
| BranchSim.ReplayedCallsWellShaped | src/lib/branchsim.c:44-133 | in any valid trace an individual without events only gets the no-event call, the new-infection call only goes to one with events, every event is one of its own, and it ends at its last event |
| BranchSim.ReplayKeepsBottom | src/lib/branchsim.c:136-138 | the walk never pops the root frame |
| BranchSim.ReplayAllocsDown | src/lib/branchsim.c:90 | the allocation calls made while growing leave the protocol state unchanged |
| BranchSim.SpawnReplay | src/lib/branchsim.c:102-133 | starting an individual takes one from the frame below; the no-event call leaves the walk backtracking, the new-infection call opens its frame |
| BranchSim.EventReplay | src/lib/branchsim.c:115-117 | the new-event call sets the cursor's frame to the event's infections when accepted and to none otherwise |
| BranchSim.EndReplay | src/lib/branchsim.c:125-130 | the end-of-infection call closes the cursor's frame once it is empty |
| BranchSim.AdvanceFrames | src/lib/branchsim.c:79-81 | moving up a layer keeps the frames below and gives the new layer the infection being started |
| BranchSim.BranchSimulator.Init | src/lib/branchsim.c:13-20 | the given number of layers, each passed to the allocation callback in order, the root's event time 0 and the cursor at the root |
| BranchSim.BranchSimulator.Grow | src/lib/branchsim.c:84-92 | the layer count becomes floor(1.5 n), slots below keep their contents, new slots are blank, and the allocation callback runs on the new slots from the top down |
| BranchSim.BranchSimulator.Advance | src/lib/branchsim.c:79-92 | the cursor moves up one layer; exactly when it reaches the end of the array, the array first grows to floor(1.5n) layers with blank new slots and the allocation calls from the last slot down are appended; otherwise the array, its size and the trace are unchanged; the protocol state is kept |
| BranchSim.BranchSimulator.SpawnStep | src/lib/branchsim.c:93-105 | the new individual gets the drawn latent, communicable and end periods, test outcome, truncation flag and event count, is infectious at tmax exactly when the parent's event time plus its communicable period exceeds tmax, and starts at event 0 when it has events; the engine backtracks exactly when there are no events, and the one callback appended is the no-event callback or the new-infection callback; the protocol invariant holds at the next program point |
| BranchSim.BranchSimulator.GenEventStep | src/lib/branchsim.c:107-131 | the event time is the parent's event time plus latent plus comm * (1 - u) and the infections are the drawn ones; the new-event callback gets that record and its answer is the draw's; an accepted event starts at infection 0 and moves up (appending the growth's allocation calls); a refused event moves to the next event, or, exactly when it was the last, ends the individual with the end-of-infection callback; no other layer changes |
| BranchSim.BranchSimulator.BacktrackStep | src/lib/branchsim.c:136-161 | going down a layer, the individual there moves to its next infection and the walk moves up, or after its last infection moves to its next event, or after its last event too gets the end-of-infection callback (the only call appended) and the walk keeps going down; no other layer changes and the array never grows here; the protocol invariant is kept |
| BranchSim.BranchSimulator.WalkPrimary | src/lib/branchsim.c:34-166 | one primary's tree is walked back to layer 1, consuming the period and event draws in order, and stops early only when the stream it next needs is exhausted |
| BranchSim.BranchSimulator.Run | src/lib/branchsim.c:22-171 | the root is set up with event time 0, one event and nstart infections, and reported once; the trace after it is a valid protocol replay from [nstart], and a completed run replays to [0]; the k-th individual started carries the k-th period draw's periods and event count and the k-th new-event call the k-th event draw's infections and answer; a run stops early only when the period or the event draws are used up |
| SummaryStats.TruncMonotone | src/lib/standard_summary_stats.h:129-133 | truncation toward zero is monotone |
| SummaryStats.AcceptedEventsAreCounted | src/lib/standard_summary_stats.h:129-133 | an event is accepted exactly when it has infections, is within lmax and is no later than tmax; every accepted event was counted in its bin |
| SummaryStats.SignedBelowUnsignedMeaning | src/lib/standard_summary_stats.h:200 | the signed-against-unsigned bin check passes exactly for non-negative bins below npers |
| SummaryStats.WideCountIsCounterPlusOne | src/lib/standard_summary_stats.h:306 | the 64-bit read of the 32-bit counter, plus one and stored in 32 bits, is the counter plus one on a little-endian host |
| SummaryStats.NimaxResetAsWritten | src/lib/standard_summary_stats.h:88 | the reset value, UINT32_MAX in a signed 32-bit field, is -1 |
| SummaryStats.StdSummaryStats.PathInitCorrected | src/lib/standard_summary_stats.h:76-89 | as the path initialiser, but the maxed-out index is reset to the INT32_MAX sentinel meaning that no bin has maxed out |
| SummaryStats.AsWrittenResetHidesMaxedOutBin | src/lib/standard_summary_stats.h:169 | from the reset as written, no maxed-out bin at a time index >= 0 is ever recorded |
| SummaryStats.CorrectedResetRecordsMinimum | src/lib/standard_summary_stats.h:161-169 | from the INT32_MAX reset, the index is the sentinel when no bin maxed out and otherwise the smallest maxed-out index |
| SummaryStats.InfRangeInt32 | src/lib/standard_summary_stats.h:282-285 | when the two floors fit in `int` (the infection time's strictly above INT32_MIN), both ends of the infectious range and the negated lower end tested at :285 are 32-bit signed integers |
| SummaryStats.InfRangeAllocated | src/lib/standard_summary_stats.h:282-285 | the infectious range of an individual never leaves the allocated bins |
| SummaryStats.RebasedKeepsLogicalBins | src/lib/standard_summary_stats.h:222-238 | re-basing by d keeps every bin at its logical index and makes the d new bins empty |
| SummaryStats.StdSummaryStats.Init | src/lib/standard_summary_stats.h:29-50 | a collector with the struct's three timelines of npers bins each, no negative bins, every bin zero, and the given histogram size |
| SummaryStats.StdSummaryStats.PathInit | src/lib/standard_summary_stats.h:76-89 | every allocated bin, negative ones included, is emptied; the sums and extinction time are 0; the path is extinct; the maxed-out index is the as-written reset, -1 |
| SummaryStats.StdSummaryStats.NewEvent | src/lib/standard_summary_stats.h:123-137 | the counter gains the infections; the event's bin gains them exactly when they are non-zero, the truncated time is not past the truncated tmax and the layer is within lmax; accepted exactly when that holds and the time is no later than tmax |
| SummaryStats.StdSummaryStats.NewEventNimax | src/lib/standard_summary_stats.h:154-177 | as the new-event callback, except that a bin already above nimax is left unchanged, the path becomes non-extinct, the smallest maxed-out index is kept and the event is refused |
| SummaryStats.StdSummaryStats.NewInf | src/lib/standard_summary_stats.h:190-202 | the counter is reset; a true-positive test adds exactly one to its bin when that bin is in [0, npers); nothing else changes |
| SummaryStats.StdSummaryStats.GrowFront | src/lib/standard_summary_stats.h:217-242 | the three timelines get new empty bins down to -newshift, every old bin keeps its logical index, and every other field is unchanged |
| SummaryStats.StdSummaryStats.NewPriInf | src/lib/standard_summary_stats.h:213-244 | the timelines are re-based exactly when time is not measured from the primary's creation and the needed shift exceeds the current one; then the new-infection update applies on the re-based positive-test timeline |
| SummaryStats.StdSummaryStats.RecordInfectiousPeriod | src/lib/standard_summary_stats.h:273-287 | a tmax-truncated individual makes the path non-extinct, any other raises the extinction time to its end of period; each bin of its infectious range gains exactly one and no other bin changes; the two floors that bound the range are required to fit in `int` |
| SummaryStats.StdSummaryStats.EndInf | src/lib/standard_summary_stats.h:264-288 | the R sum gains the counter and the period sum the communicable period, then the infectious period is recorded |
| SummaryStats.StdSummaryStats.EndInfRecNinfs | src/lib/standard_summary_stats.h:301-311 | the histogram grows with empty bins to cover the counter when too short, and exactly the counter's bin gains one; then as the end-of-infection callback, extinction time included |
| SummaryStats.StdSummaryStats.NoEventInf | src/lib/standard_summary_stats.h:328-351 | the period sum gains the communicable period and the infectious period is recorded; the R sum is untouched |
| SummaryStats.StdSummaryStats.NoEventInfRecNinfs | src/lib/standard_summary_stats.h:364-369 | histogram bin 0 gains one and nothing else in it changes; then as the no-event callback, extinction time included |
| ThreadOutput.WordDecodes | src/bin/main.h:210 | a signed 32-bit value read back from its word is the value |
| ThreadOutput.WideWordIsWord | src/bin/main.h:211 | the 64-bit little-endian store into a 32-bit slot gives the 32-bit word |
| ThreadOutput.HeaderDecodes | src/bin/main.h:209-211 | the header words give back the maxed-out index and the extinction value |
| ThreadOutput.KeptEnd | src/bin/main.h:190-195 | the number of kept bins is at least one, every later bin is dead, and the last kept bin is live unless it is bin 0 |
| ThreadOutput.LastKept | src/bin/main.h:190-195 | the down-scan stops at one before the number of kept bins |
| ThreadOutput.FirstLive | src/bin/main.h:286-291 | the first live bin is live and every bin before it is dead |
| ThreadOutput.FirstKept | src/bin/main.h:286-291 | the up-scan stops at the first live bin |
| ThreadOutput.FirstBeforeEnd | src/bin/main.h:284-292 | the first infectious bin lies before the end of the kept bins |
| ThreadOutput.TrailingBinsEmpty | src/bin/main.h:190-195 | every trimmed trailing bin is empty in the infectious and, with tests, the positive-test timelines |
| ThreadOutput.LeadingBinsEmpty | src/bin/main.h:286-291 | every trimmed leading bin is empty in the infectious timeline |
| ThreadOutput.WriteRegPath | src/bin/main.h:186-261 | the buffer starts with the regular words of the path (bin count, maxed-out index, extinction word, then the kept bins of each timeline), nothing after them changes, and the size is 12 + 8 or 12 bytes per kept bin |
| ThreadOutput.WriteRegBins | src/bin/main.h:208-220 | the buffer starts with the header and blocks for n bins and nothing after them changes |
| ThreadOutput.WriteReltimePath | src/bin/main.h:263-368 | the buffer starts with the relative-time words of the path (bin count, count before time 0, maxed-out index, extinction word, then the kept bins), nothing after them changes, and the size is four bytes per word |
| ThreadOutput.ReltimeWordsScanned | src/bin/main.h:265-294 | the two scans' results bound a non-empty range that starts at or before time 0 |
| ThreadOutput.WriteReltimeBins | src/bin/main.h:294-311 | the buffer starts with the header and blocks for the bins lo to hi - 1 and nothing after them changes |
| ThreadOutput.WriteBody | src/bin/main.h:214-218 | the blocks of the timelines are written at the offset and nothing else changes |
| ThreadOutput.BlockRoundTrip | src/bin/main.h:305-309 | a block holding bins lo to hi - 1 of a timeline whose other bins are empty unpacks to that timeline |
| ThreadOutput.RegLayoutRoundTrip | src/bin/main.h:208-220 | the regular layout of n bins reads back as the path when every later bin is empty |
| ThreadOutput.ReltimeLayoutRoundTrip | src/bin/main.h:294-311 | the relative-time layout of bins lo to hi - 1 reads back as the path when every other bin is empty |
| ThreadOutput.RegPathRoundTrip | src/bin/main.h:186-261 | reading back the words a regular writer puts out gives the path's timelines, maxed-out index and extinction value |
| ThreadOutput.ReltimePathRoundTrip | src/bin/main.h:263-368 | reading back the words a relative-time writer puts out gives the path's timelines, negative bins included, maxed-out index and extinction value |
| ThreadOutput.PaddedKeepsLogicalBins | src/bin/main.h:80-180 | a grown timeline holds old bin k at k + ndiff, and its first ndiff and last pdiff bins are 0 |
| ThreadOutput.PadAll | src/bin/main.h:80-180 | growing all twelve timelines of equal length n gives twelve of length ndiff + n + pdiff |
| ThreadOutput.ThreadData.ReallocThreadTimelines | src/bin/main.h:76-184 | unless ndiff or pdiff is positive nothing changes; otherwise every timeline is padded by ndiff in front and pdiff at the end, the negative-bin count grows by ndiff and the total by ndiff + pdiff |
| ThreadOutput.CtCompare | src/bin/main.h:371 | the comparison returns -1, 0 or 1 |
| ThreadOutput.CtCompareOrders | src/bin/main.h:371 | the sign gives the order of the test times, the comparison is antisymmetric and transitive |
| ThreadOutput.NotAfterDayExact | src/bin/main.h:393-403 | the filtered entries are exactly those whose test day is no later than the index |
| ThreadOutput.SentinelSelectsAll | src/bin/main.h:380-404 | with the INT32_MAX sentinel the filter keeps every entry, so the two branches agree |
| ThreadOutput.AsWrittenResetDropsAllEntries | src/bin/main.h:395 | with the index left at -1 by the reset as written, no entry is written |
| ThreadOutput.CorrectedResetKeepsAllEntries | src/bin/main.h:380-390 | with the corrected reset a path that never maxed out writes every entry |
| ThreadOutput.CtWordsRoundTrip | src/bin/main.h:383-388 | the five words per entry read back as the entries |
| ThreadOutput.CtSelectedSnoc | src/bin/main.h:393-403 | one more entry is written exactly when the index is the sentinel or its day is within the index |
| ThreadOutput.WriteEntry | src/bin/main.h:396-400 | the five fields of the entry are written in order at the position and nothing else changes |
| ThreadOutput.CtWrite | src/bin/main.h:373-406 | the buffer starts with the words of the selected entries in order, nothing after them changes, and the size is 20 bytes per entry written |

## Left out

- Random draws (`gsl_ran_poisson`, `gsl_ran_logarithmic`, `gsl_rng_uniform`) and `gen_time_periods_func` are finite input sequences; a run that exhausts them stops with `completed` false.
- The new-event callback's answer is part of each event draw; the engine records its callbacks in a trace instead of calling the collector, so the two halves are proved separately.
- `PER_COND`, `branchsim_free` and `std_stats_free` are left out: they are unseen macros or memory release only.
- `INIT_N_LAYERS` is a constructor parameter (at least 2), because branchsim.h is not part of this model.
- BranchSim.BranchSimulator.Grow: the layer count is unbounded; the C's uint32 `nlayers` overflow is not modelled.
- Doubles are reals with NaN and the infinities; rounding is not modelled. The conversions of times to `int` bins that index a timeline are assumed to stay within 32 bits, stated as preconditions: the event bin of the new-event callbacks, the test bin, the re-basing shift, and both ends of the infectious range (`InfRangeFits`, carried by every end-of-infection and no-event callback). The comparison-only casts in the new-event callbacks are not (see below).
- `log` and the root finders are functions supplied with the parameters; their numerics are not modelled.
- Printing (`printf`, `fprintf`, `DEBUG_PRINTF`), `NUMEVENTSSTATS` and thread orchestration (`simthread`, mutexes, `main`, config.c) are left out as I/O or concurrency.
- SummaryStats.StdSummaryStats.EndInf: bin counts, `rsum` and the per-individual counter are unbounded; the C's uint32 wrap-around is not modelled.
- SummaryStats.StdSummaryStats.NewEvent: the per-individual counter kept in the individual's data pointer is passed in and returned instead.
- SummaryStats.StdSummaryStats.NewEvent: the event's bin is required to be allocated; the C indexes it unchecked.
- SummaryStats.StdSummaryStats.NewEvent: tmax is a finite real, so the default `tmax=INFINITY` of `sim_pars_init` cannot be passed; the `(int)` casts of the event time and of tmax in the bin test (standard_summary_stats.h:131) are unbounded truncations, where the C's cast is undefined outside 32 bits.
- SummaryStats.StdSummaryStats.NewEventNimax: the same finite tmax and unbounded truncations for its bin test (standard_summary_stats.h:160).
- SummaryStats.StdSummaryStats.NoEventInfRecNinfs: histogram bin 0 is required to exist; the C indexes it unchecked.
- SummaryStats.StdSummaryStats.Init: the initialiser that fills this struct is not in the source (standard_summary_stats.c:3-11 has an older signature, sets `npers=tmax+1` and leaves its one timeline unzeroed); the constructor allocates the struct's three timelines zeroed, and every path starts with `PathInit` in any case.
- ThreadOutput.WriteRegPath: the path record holds the fields the writers read (`pp_*` timelines, `tlpptnvpers`, `tlppnnpers`, `maxedoutmintimeindex`), which are not in the collector's struct; its `assert`s are preconditions, and the regular writers require no negative bins.
- The output buffer is an array of 32-bit words on a little-endian host; big-endian hosts are not modelled.
- ThreadOutput.CtWrite: the two C loops (sentinel and filter) are one selection, justified by `SentinelSelectsAll`; the entry fields are taken to be 32-bit unsigned.
- ThreadOutput.ThreadData.ReallocThreadTimelines: the twelve buffers are sequences in one record, so buffer ownership and aliasing are not modelled.

## Findings

| source | as written | input that shows it | evidently intended | confidence | as-written member | corrected member |
|---|---|---|---|---|---|---|
| src/lib/standard_summary_stats.h:88 | `nimaxedoutmintimeindex=UINT32_MAX` stores -1 into the signed 32-bit index | a path whose first bin over nimax is at time index 3: min(-1, 3) stays -1, and the contact-tracing writer then keeps entries up to day -1, i.e. none | reset to the INT32_MAX sentinel that src/bin/main.h:380 tests for, so the index records the smallest maxed-out bin | medium, not executed | SummaryStats.AsWrittenResetHidesMaxedOutBin | SummaryStats.CorrectedResetRecordsMinimum |
