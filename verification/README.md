# Lavik: a verified model of its accounting and text cores

Lavik is a Redis-compatible server that runs one worker thread per core. This project models the parts of it
whose correctness rests on an argument rather than on one function body, and proves that argument:

- **Memory admission** (`Memory*.dfy`). Every worker owns one shard of byte counters and admits memory against a
  fixed share of the process limit, without looking at the other workers. Threads without a worker share slot 0 and
  add up every shard's counters, one after the other. The counters and the three move-only owners are classes; the
  protocol is a machine of any number of workers and of unbound operations whose steps are single accesses to shared
  counters, so that steps of other threads fall between a thread's reads and the access that publishes its decision.
  Over every run: the process stays within its limit, every counter equals the tokens that answer for it, and the
  abort on underflow is never reached, under the conditions stated below.
- **Glob matching** (`Glob*.dfy`). The production matcher remembers only the last star. It is proved equal to the
  token-by-token meaning of a pattern, to the meaning of the list of pieces that the pattern writes, to the existence of
  a division of the text into one piece per token, and to the backtracking reference matcher of the repository's own
  tests.
- **Random subsets** (`RandomSample.dfy`, `Sample*.dfy`, `ChoiceStreams.dfy`, `Combinatorics.dfy`). The generator is
  a stream of choices, each uniform below its bound. Every strategy is proved to give every k-subset of n ranks
  the probability 1 / C(n, k).
- **Configuration text** (`Config*.dfy`, `Decimal.dfy`, `Filters.dfy`). Splitting a line, quoting an argument,
  rewriting a file, starting from it, and sizes and limits as text: splitting accepts exactly the written forms of its
  result, a rewrite changes nothing but the directives it manages, and a restart brings back what it wrote.
- **Smaller cores**: the single-threaded shared pointer (`SharedPointer.dfy`), command latency histograms
  (`Histogram.dfy`, `Metrics.dfy`, `MetricsText.dfy`), the strict integer grammar and expiration deadlines
  (`RedisInt.dfy`, `Expiration.dfy`), and the manifest digest input (`PopulationManifest.dfy`).

Machine integers are explicit: `u64` and `i64` are subset types, so an intermediate value of such a type is a proof
that the operation does not wrap, and where the program may wrap the model says `WrappingAdd` or `WrappingSub`.
Inputs the program takes from outside (host capacity, the clock, the random generator, the cycle counter's
frequency) are parameters.

## Results that qualify the design

- The process limit holds over all runs exactly when operations of threads without a worker do not overlap each other
  and none of them retains memory while workers serve. Otherwise, for every worker count and every limit, there is a
  run that ends above it, one for each failing side (`MemoryUnbound.LimitHoldsExactlyWhenDisciplined`). Reserving and
  releasing by such threads does no harm at any time.
- With M unbound operations in flight at once, slot 0 stays within 2 * M - 1 times the limit, torn readings included
  (`MemoryRuns.EveryRunBoundsSlots`), and a run gets that far (`MemoryAbort.OverlapFillsSlotZero`). Over all runs the
  counters are exact and the abort is unreachable exactly when that multiple fits in 64 bits
  (`MemoryAbort.CountersHoldExactlyWhenRoomy`); for a single operation it always does.
- The division into shares wastes nothing: if every worker is refused a single byte, the whole limit is in use
  (`MemoryHeadroom.RefusedWorkersMeanFull`).
- A charge accounted under a reservation that still holds the same bytes is counted twice by the raw counters. The
  excess is exactly the bytes that both still hold (`MemoryOverlap.EveryRunExceedsByOverlapOnly`,
  `MemoryOverlap.EveryRunOverlapsLiveBytes`), it can reach the whole limit (`MemoryOverlap.OverlapCountsTwice`), and
  without such an overlap the raw sum is within the limit too.
- The last check of the deadline parser, for a deadline of zero or less, never rejects anything
  (`Expiration.DeadlineDecides`).
- The steady budget and a percentage client budget fit the configured maximum together exactly when a tenth of it
  covers both the percentage and the fixed 128 KiB minimum (`MemoryLimits.BudgetsFitTogether`).
- The manifest encoding identifies entries up to partition ids modulo 2^16, so it is injective on the partition
  domain and not beyond it (`PopulationManifest.EncodingPrefixMeansSameEntries`, `PopulationManifest.WideIdsCollide`).

## Model

| member | source | states |
|---|---|---|
| MemoryLimits.DistributedShare | src/memory.cpp:229-232 | a share is total/workers or one more |
| MemoryLimits.SharesSumToTotal | src/memory.cpp:229-232 | the shares of all workers add up to the whole limit: nothing is lost to rounding or handed out twice |
| MemoryLimits.SharesAreOrdered | src/memory.cpp:229-232 | what cannot be divided evenly goes to the first workers, one byte each |
| MemoryLimits.ShareMonotone | src/memory.cpp:229-232 | a smaller total never gives a larger share, so a stale, larger reading is conservative |
| MemoryLimits.SteadyMemoryLimit | src/memory.cpp:269-277 | the limit and the withheld tenth make up the maximum; it is below 2^64-1 and zero only for zero |
| MemoryLimits.EffectiveClientBufferLimit | src/memory.cpp:281-292 | zero means unlimited and only for a zero setting; otherwise never below 128 KiB; no intermediate value overflows |
| MemoryLimits.PercentageSplit | src/memory.cpp:281-292 | the split multiplication is floor(maximum * percent / 100) and stays in range |
| MemoryLimits.PercentageLimitIsExact | src/memory.cpp:281-292 | a percentage limit is that floor raised to the minimum |
| MemoryLimits.ByteLimitIsExact | src/memory.cpp:281-292 | a limit in bytes is max(value, 131072) |
| MemoryLimits.BudgetsFitTogether | src/memory.cpp:269-292 | both budgets fit the maximum if and only if a tenth of it covers the percentage and the minimum |
| MemoryLimits.TenPercentFits | src/memory.cpp:269-292 | up to ten percent the percentage part always fits the withheld tenth |
| MemoryLimits.ProcessWouldExceed | src/memory.cpp:243-252 | the guarded subtraction chain for unbound threads never underflows and equals the unbounded comparison |
| MemoryLimits.ShareWouldExceed | src/memory.cpp:254-267 | the chain over one worker's shares never underflows and equals the unbounded comparison |
| MemoryLimits.SaturatingAdd | src/memory.cpp:234-238 | min(left + right, 2^64-1) |
| MemoryLimits.RetainedUsed | src/memory.cpp:173-185 | the early-exit loop returns min(true sum, 2^64-1) |
| MemoryLimits.SaturatingSum | src/memory.cpp:187-227 | the pending, full-sync and client loops return min(true sum, 2^64-1) |
| MemoryLimits.SaturationHidesNothing | src/memory.cpp:173-277 | saturated sums take the decision the true sums would take |
| MemoryCounters.ReleaseIsExact | src/memory.cpp:572-592 | releasing takes exactly the token's bytes out of its own shard's pending bytes and leaves the token empty and not admitted |
| MemoryCounters.ResetIsExact | src/memory.cpp:637-642 | resetting takes exactly the charge's bytes out of its owner's retained bytes and leaves the charge empty |
| MemoryCounters.AcquireDecides | src/memory.cpp:482-525 | client bytes are granted if and only if they fit the connection's own counter and, with a quota, the worker's share; then hold and counter grow by them, otherwise nothing changes |
| MemoryCounters.AcquireIsExact | src/memory.cpp:482-525 | a grant adds exactly the bytes to the hold and to its own slot's client bytes and changes nothing else |
| MemoryCounters.ClientReleaseIsExact | src/memory.cpp:527-545 | a release takes exactly the bytes out of the hold and its own slot's client bytes, on a worker and on slot 0, and changes nothing else |
| MemoryCounters.ReleaseUndoesAcquire | src/memory.cpp:482-545 | giving client bytes back restores hold and counters |
| MemoryCounters.AbortsExactlyOnWrap | src/memory.cpp:342-366 | the process aborts if and only if retained bytes would wrap, up or down; otherwise they change by exactly the bytes |
| MemoryCounters.ReleaseUndoesReserve | src/memory.cpp:572-662 | releasing a reservation restores the counters it was made from |
| MemoryCounters.ReleaseUndoesAccount | src/memory.cpp:342-366 | releasing retained bytes undoes accounting them |
| MemoryCounters.RestoreUndoesConsume | src/memory.cpp:687-708 | restoring full-sync credit undoes consuming it |
| MemoryCounters.ResizesCompose | src/memory.cpp:628-635 | resizing twice is resizing to the last size |
| MemoryTokens.MemoryAccounting.constructor | src/memory.cpp:70-81 | counters start at zero with no limit and no worker |
| MemoryTokens.MemoryAccounting.InitMemoryLimit | src/memory.cpp:305-340 | succeeds exactly for a worker count in range, a valid limit and a known maximum; on failure the limits stay |
| MemoryTokens.MemoryAccounting.Bind | src/memory.cpp:368-382 | the thread's slot, and mirrors reloaded from that slot when it changes |
| MemoryTokens.MemoryAccounting.WouldExceed | src/memory.cpp:240-267 | the loops and guarded chains decide the unbounded comparison of WorkerWouldExceed |
| MemoryTokens.MemoryAccounting.WouldExceedMemoryLimit | src/memory.cpp:471-475 | that decision against the steady limit |
| MemoryTokens.MemoryAccounting.AccountRetainedMemory | src/memory.cpp:342-353 | new counters, with the abort on overflow |
| MemoryTokens.MemoryAccounting.ReleaseRetainedMemory | src/memory.cpp:355-366 | new counters, with the abort on underflow |
| MemoryTokens.MemoryAccounting.TryReserveMemory | src/memory.cpp:644-662 | a token exactly when the bytes fit, holding them, with pending bytes grown by them; otherwise nothing changes |
| MemoryTokens.MemoryAccounting.TryReserveFullSyncMemory | src/memory.cpp:674-685 | full-sync bytes grow exactly when the bytes fit |
| MemoryTokens.MemoryAccounting.ConsumeFullSyncMemory | src/memory.cpp:687-698 | credit becomes retained bytes of the same slot |
| MemoryTokens.MemoryAccounting.RestoreFullSyncMemory | src/memory.cpp:700-708 | retained bytes become credit again |
| MemoryTokens.MemoryAccounting.ReleaseFullSyncMemory | src/memory.cpp:710-716 | credit is given back |
| MemoryTokens.MemoryReservation.Move | src/memory.cpp:547-550 | the token is taken over and the source left inert |
| MemoryTokens.MemoryReservation.MoveAssign | src/memory.cpp:552-561 | the old bytes are released, the new token taken over; self-assignment changes nothing |
| MemoryTokens.MemoryReservation.Release | src/memory.cpp:572-592 | the reserved bytes leave their own shard, once |
| MemoryTokens.MemoryReservation.Commit | src/memory.cpp:565-570 | the reservation is released and the retained bytes accounted to its shard |
| MemoryTokens.RetainedMemoryCharge.Move | src/memory.cpp:594-597 | the charge is taken over and the source left empty |
| MemoryTokens.RetainedMemoryCharge.MoveAssign | src/memory.cpp:599-607 | the old bytes are released, the new charge taken over; self-assignment changes nothing |
| MemoryTokens.RetainedMemoryCharge.Adopt | src/memory.cpp:611-618 | the reservation is committed and the charge answers for the retained bytes |
| MemoryTokens.RetainedMemoryCharge.Account | src/memory.cpp:620-626 | the bytes are accounted to the owner and the charge answers for them |
| MemoryTokens.RetainedMemoryCharge.Resize | src/memory.cpp:628-635 | the owner's shard changes by the difference |
| MemoryTokens.RetainedMemoryCharge.Reset | src/memory.cpp:637-642 | the owner's shard loses the bytes, once |
| MemoryTokens.ClientBufferReservation.TryAcquire | src/memory.cpp:482-525 | grows hold and counter together or neither |
| MemoryTokens.ClientBufferReservation.Release | src/memory.cpp:527-545 | shrinks hold and counter together |
| MemoryRefinement.AdmissionAlone | src/memory.cpp:644-685 | a run of the machine from any state to what TryReserveMemory or TryReserveFullSyncMemory of a worker leaves |
| MemoryRefinement.CommitAlone | src/memory.cpp:565-592 | a run to what Commit leaves |
| MemoryRefinement.SummingAlone | src/memory.cpp:243-252 | the readings of an unbound thread, undisturbed, add up to the three process-wide sums and give the method's decision |
| MemoryRefinement.UnboundAdmissionAlone | src/memory.cpp:644-656 | a run of all the readings to what TryReserveMemory without a worker leaves |
| MemoryRefinement.ReleaseAlone | src/memory.cpp:572-592 | a run to what Release leaves |
| MemoryRefinement.ShrinkAlone | src/memory.cpp:628-635 | a run to what Resize to fewer bytes leaves, on any thread |
| MemoryRefinement.GrowAlone | src/memory.cpp:628-635 | a run to what Resize to more bytes leaves, under an open reservation |
| MemoryRefinement.ResetAlone | src/memory.cpp:637-642 | a run to what Reset leaves, on any thread |
| MemoryRefinement.MoveAlone | src/memory.cpp:547-607 | a run to what moving a charge into an empty one or a reservation into an inert one leaves |
| MemoryRefinement.ConsumeAlone | src/memory.cpp:687-698 | a run to what ConsumeFullSyncMemory leaves |
| MemoryRefinement.RestoreAlone | src/memory.cpp:700-708 | a run to what RestoreFullSyncMemory leaves |
| MemoryRefinement.ReleaseCreditAlone | src/memory.cpp:710-716 | a run to what ReleaseFullSyncMemory leaves |
| MemoryRefinement.ClientAlone | src/memory.cpp:482-545 | runs to what TryAcquire and Release of a client hold leave |
| MemoryHeadroom.RefusedWorkersMeanFull | src/memory.cpp:254-267 | no headroom is wasted: if every worker is refused what it asks for, slot 0's retained bytes, all that workers have in use and all they ask for exceed the limit |
| MemoryHeadroom.RefusedDecisionsMeanFull | src/memory.cpp:254-267 | the same of the decisions of the machine |
| MemoryHeadroom.UnboundRefusedExactlyWhenFull | src/memory.cpp:243-252 | a thread without a worker is refused if and only if the bytes and all that is in use on any slot exceed the limit |
| MemoryHeadroom.NoLimitRefusesNothing | src/memory.cpp:240-243 | without a limit nothing is refused |
| MemoryCovers.LowerInside | include/lavik/memory.h:118-124 | giving bytes of a charge back lowers what it has under open reservations by as much, or by all of it |
| MemoryAdmission.DecideKeeps | src/memory.cpp:254-267 | a worker's decision on a stale reading of slot 0 and on its own bytes is safe |
| MemoryAdmission.ReadNextKeeps | src/memory.cpp:173-213 | an unbound thread's torn sums stay on the safe side, whatever happens between its readings |
| MemoryAdmission.DecideUnboundKeeps | src/memory.cpp:245-252 | so does its decision on them |
| MemorySteps.ReleaseKeeps | src/memory.cpp:565-592 | giving a reservation back, or the first half of a commit, keeps the invariant |
| MemorySteps.FinishRetainKeeps | src/memory.cpp:342-353 | the second half of a commit or of consuming credit keeps the invariant |
| MemorySteps.AccountCoveredKeeps | src/memory.cpp:620-626 | accounting under an open reservation keeps the invariant, for charge objects and explicit accounts |
| MemorySteps.GrowCoveredKeeps | src/memory.cpp:628-635 | growing a charge under an open reservation keeps the invariant |
| MemorySteps.LowerKeeps | src/memory.cpp:628-642 | shrinking or resetting a charge on any thread cannot underflow and keeps the invariant |
| MemoryRuns.StepKeeps | src/memory.cpp:342-716 | every step of every operation keeps the invariant: counters equal tokens, each slot within its capacity, covers within live bytes, no abort |
| MemoryRuns.RunKeepsInv | src/memory.cpp:342-716 | the invariant holds in every state of every interleaved run, for any number of workers and of overlapping unbound operations that leaves room in 64 bits |
| MemoryRuns.ContinuedRunStaysWithinLimit | src/memory.cpp:229-277 | from any state that satisfies the whole invariant, every interleaved continuation stays within the steady limit |
| MemoryRuns.EveryRunStaysWithinLimit | src/memory.cpp:229-277 | slot 0's retained bytes and all workers' retained, pending and full-sync bytes stay within the steady limit, though each worker checks only its own share against possibly stale readings; a byte held by a charge and by its open reservation counts once |
| MemoryRuns.EveryRunRetainsWithinLimit | src/memory.cpp:565-716 | retained bytes and full-sync credit alone are within the limit in every state |
| MemoryRuns.EveryRunBoundsSlots | src/memory.cpp:229-267 | whatever unbound threads do, each worker stays within its share, and slot 0 within 2 * M - 1 times the limit for M overlapping unbound operations |
| MemoryRuns.EveryRunConservesBytes | src/memory.cpp:342-642 | pending bytes equal live reservations; retained bytes equal charge objects, explicit accounts and consumed credit; full-sync bytes equal granted credit not consumed or in transit; client bytes equal live holds; the abort is unreachable |
| MemoryRuns.QuiescentRunHoldsNothing | src/memory.cpp:547-716 | with every token, account, credit and hold gone, all four counters are zero: nothing leaks, nothing is released twice |
| MemoryClients.EveryRunBoundsClients | src/memory.cpp:477-545 | each worker's client bytes equal its holds and stay within its share; all together within the quota, whatever unbound threads do |
| MemoryRuns.EveryRunFitsMaximum | src/memory.cpp:269-292 | with the limit that is derived from the maximum, at most ten percent for clients and a tenth of at least 128 KiB, everything admitted fits the configured maximum |
| MemoryUnbound.OverlapExceedsLimit | src/memory.cpp:644-656 | for every worker count and limit, a run above the limit when two unbound operations overlap |
| MemoryUnbound.RetentionExceedsLimit | src/memory.cpp:240-267 | for every worker count and limit, a run above the limit when an unbound thread retains while workers serve |
| MemoryUnbound.LimitHoldsExactlyWhenDisciplined | src/memory.cpp:240-267 | the limit holds over all runs if and only if unbound operations do not overlap and none retains while workers serve |
| MemoryAbort.OverlapFillsSlotZero | src/memory.cpp:342-353 | for every worker count, limit and M, a run that retains 2 * M - 1 times the limit on slot 0, or aborts if that does not fit in 64 bits |
| MemoryAbort.CountersHoldExactlyWhenRoomy | src/memory.cpp:342-366 | over all runs the counters equal their tokens and the process never aborts if and only if 2 * M - 1 times the limit fits in 64 bits |
| MemoryOverlap.EveryRunExceedsByOverlapOnly | include/lavik/memory.h:118-124 | the raw counters show the once-counted use plus exactly the overlap, and without overlap are within the limit |
| MemoryOverlap.EveryRunOverlapsLiveBytes | include/lavik/memory.h:118-124 | every part of the overlap lies within bytes a charge still holds and bytes an open reservation of the same slot still holds |
| MemoryOverlap.OverlapCountsTwice | include/lavik/memory.h:118-124 | for every worker count and limit, a run whose raw counters reach twice the limit |
| MemoryOverlap.ReservationOutlivesCharge | include/lavik/memory.h:118-124 | for every worker count and limit, giving the charges back ends that overlap: their reservations count again in full |
| Glob.ClassEnd | include/lavik/glob.h:34-57 | where a character class ends, past its start and within the pattern, terminated or not |
| Glob.MatchGlobCharacterClass | include/lavik/glob.h:25-59 | the class loop decides membership and finds the end that the item-by-item meaning has |
| Glob.StarIsAnyRun | include/lavik/glob.h:71-77 | a star denotes exactly what the rest denotes from some later position |
| Glob.StarsCollapse | include/lavik/glob.h:72 | a run of stars means one star |
| Glob.LaterStarSuffices | include/lavik/glob.h:71-77 | at the next star the earlier one can be forgotten without losing a match |
| Glob.StarHeldAdvances | include/lavik/glob.h:94-98 | matching one more byte keeps what is known about the held star |
| Glob.StarTakesOneMore | include/lavik/glob.h:99-103 | after a mismatch it is enough to let the last star take one byte more |
| Glob.RedisGlobMatch | include/lavik/glob.h:61-108 | terminates and returns exactly the recursive meaning of the pattern, for every pattern and text |
| GlobSyntax.PatternMatchesItsMeaning | include/lavik/glob.h:25-108 | the written form of a list of stars, single bytes, escapes and classes, negated or not, with ranges in either order, terminated or not, matches a text if and only if the list means it; the meaning is defined on the list alone |
| GlobSyntax.EveryPatternIsWritten | include/lavik/glob.h:25-108 | every pattern is the written form of such a list |
| GlobReference.MatchingIsDividing | include/lavik/glob.h:61-108 | a non-empty text matches if and only if it can be cut into one piece per token, one byte for each non-star |
| GlobReference.ValkeyClass | tests/command_table_test.cpp:79-118 | the reference matcher's class loop decides the same membership and end |
| GlobReference.FailedStarFailsLater | tests/command_table_test.cpp:51-78 | when what follows a star cannot match the rest, longer runs for earlier stars cannot either |
| GlobReference.ValkeyMatch | tests/command_table_test.cpp:51-140 | the recursive matcher, with its skip flag, decides the pattern's meaning |
| GlobReference.ValkeyGlobReference | tests/command_table_test.cpp:142-147 | the reference matcher and the production matcher agree on every input |
| RandomSample.SelectCurrentRandomRank | include/lavik/random_sample.h:69-78 | keeps a rank exactly when its choice is below what is still requested, and draws only when undecided |
| RandomSample.SampleCompact | include/lavik/random_sample.h:98-111 | the loop without a bound on rank stops by the end of the population, having made the sample of its choices |
| RandomSample.SampleBySubtraction | include/lavik/random_sample.h:112-121 | swap-remove until the request is left |
| RandomSample.SampleByFloyd | include/lavik/random_sample.h:122-136 | the loop makes the sample of its choices, a candidate already taken becoming the upper rank |
| RandomSample.CompactSampleValid | include/lavik/random_sample.h:98-111 | ranks are increasing and in range, and the request never exceeds what remains |
| RandomSample.SubtractedValid | include/lavik/random_sample.h:112-121 | removal keeps ranks distinct and in range and leaves the right number |
| RandomSample.FloydSampleValid | include/lavik/random_sample.h:122-136 | Floyd's ranks are distinct and in range |
| RandomSample.SampleUniqueRandomRanks | include/lavik/random_sample.h:80-139 | for every population, request and generator: exactly min(requested, population) distinct in-range ranks, in order for compact collections, and the sample of the chosen strategy |
| RandomSample.ChoicesNeeded | include/lavik/random_sample.h:44-57 | how many choices are made for each population, request and layout |
| SampleUniformity.FloydCount | include/lavik/random_sample.h:122-136 | exactly j! choice streams of Floyd's first j steps give any one set |
| SampleUniformity.CompactCount | include/lavik/random_sample.h:98-111 | the number of choice streams that select any one set in the one-pass selection |
| SampleUniformity.SubtractCount | include/lavik/random_sample.h:112-121 | exactly (n-k)! removal streams leave any one set |
| SampleDistribution.FloydSubset | include/lavik/random_sample.h:122-136 | Floyd's streams divide evenly over the C(n, k) subsets |
| SampleDistribution.CompactSubset | include/lavik/random_sample.h:98-111 | so do the one-pass streams |
| SampleDistribution.SubtractSubset | include/lavik/random_sample.h:112-121 | so do the removal streams |
| SampleDistribution.EverySubsetEquallyLikely | include/lavik/random_sample.h:46-139 | whatever strategy is chosen, every k-subset has probability 1 / C(n, k) |
| ConfigLine.ParseRedisConfigLine | src/config.cpp:262-312 | the loop splits a line as Tokenize does, errors included |
| ConfigCharacters.CharacterBetweenWords | src/config.cpp:262-312 | by character code: what any one character between two words does |
| ConfigCharacters.CommentEndsLine | src/config.cpp:268-274 | whatever follows a number sign is dropped |
| ConfigCharacters.EscapesByCode | src/config.cpp:90-105 | by character code: what each escape stands for, and a backslash at the end of the line |
| ConfigCharacters.QuotesByCode | src/config.cpp:276-307 | either quotation mark opens an argument that ends at the same mark; it must be closed and a gap must follow |
| ConfigLine.ScanArgument | src/config.cpp:276-297 | the inner loop reads one bare or quoted argument |
| ConfigLine.WrittenLineReads | src/config.cpp:262-312 | arguments written bare or in either quote, escaped or not, with any spacing and any comment, read back as themselves |
| ConfigLine.AcceptedLineIsWritten | src/config.cpp:262-312 | every accepted line is such a written form of its arguments |
| ConfigLine.QuoteRedisConfigArgument | src/config.cpp:107-134 | the loop quotes a value on one line, with no line break or tab left |
| ConfigCharacters.QuotedByCode | src/config.cpp:107-134 | by character code: how each character is quoted |
| ConfigLine.EscapedIsOneLine | src/config.cpp:107-134 | no quoted form contains a raw line break |
| ConfigLine.QuoteReadsBack | src/config.cpp:90-134 | for every string, splitting its quoted form gives that one string |
| ConfigLine.QuotedLineReadsBack | src/config.cpp:107-134 | for every list of strings, splitting their quoted forms gives the list |
| ConfigRewrite.TextReadsBack | src/config.cpp:861-878 | lines written to a file are the lines read from it |
| ConfigRewrite.UnterminatedLineIsRead | src/config.cpp:861-878 | a last line without a line break is a line, unless it is empty |
| ConfigRewrite.StrippedIsPrefix | src/config.cpp:884-886 | nothing but trailing line breaks is stripped |
| ConfigRewrite.KeepLines | src/config.cpp:858-879 | the reading loop keeps the unmanaged lines or names the first line that does not split |
| ConfigRewrite.StrippedText | src/config.cpp:885-888 | stripping line breaks drops exactly the trailing empty lines |
| ConfigRewrite.RewriteText | src/config.cpp:858-899 | the whole text transformation |
| ConfigMeaning.UpstreamLineReads | src/config.cpp:890-896 | for any host text the generated line reads as exactly name, host and port |
| ConfigMeaning.GeneratedReads | src/config.cpp:889-899 | the generated lines are single lines, all managed, and say upstream and priority |
| ConfigMeaning.KeptDirectives | src/config.cpp:868-878 | dropping managed lines drops exactly the managed directives |
| ConfigMeaning.RewrittenLinesReadBack | src/config.cpp:858-899 | unmanaged lines survive verbatim and in order, trailing blank lines aside, followed by the generated ones |
| ConfigMeaning.RewriteFailsAtFirstBadLine | src/config.cpp:861-867 | a rewrite succeeds if and only if every line splits, and otherwise reports the first that does not |
| ConfigMeaning.RewritePreservesMeaning | src/config.cpp:858-899 | the rewritten file says the original directives without the managed ones, in order, then the generated ones |
| ConfigMeaning.LastRewriteWins | src/config.cpp:858-899 | rewriting a rewritten file equals rewriting the original with the last values |
| ConfigMeaning.RewriteIsIdempotent | src/config.cpp:858-899 | rewriting again with the same values changes nothing |
| ConfigLoad.RewrittenFileSays | src/config.cpp:858-899 | the rewritten file keeps every directive whose name is none of the four, letter case aside, and ends with replicaof for a Lavik upstream, redis-replicaof for a Redis one, and the priority |
| ConfigLoad.RewrittenTextIs | src/config.cpp:884-899 | its text, to the character |
| ConfigLoad.LoadRedisConfigFile | src/config.cpp:798-826 | the loading loop applies the replication directives line by line and stops at the first bad line |
| ConfigLoad.RestartFollowsRewrite | src/config.cpp:436-501 | a server started from the rewritten file follows the upstream that was written, as its kind, with the priority that was written |
| ConfigSizes.ParseMemorySize | src/config.cpp:179-219 | the digit scan and suffix table compute MemorySize |
| ConfigSizes.SizeIsWorth | src/config.cpp:179-219 | a text is a size if and only if it is digits and a unit in any case whose product fits 64 bits, and the product is the result; which error otherwise |
| ConfigSizes.NumberWithUnit | src/config.cpp:179-219 | a number with a unit, letter case aside, is that many times 1, 1024, 1048576, 1073741824 or 1099511627776 bytes, or out of range; with anything else behind it, it is no size |
| ConfigSizes.ClientLimitIsWritten | src/config.cpp:221-243 | a text is a given limit if and only if it writes that percentage up to 100, or a size of that worth |
| ConfigSizes.ClientLimitReadsBack | src/config.cpp:221-249 | every valid limit survives being printed and read |
| SharedPointer.LocalSharedPtr.constructor | include/lavik/local_shared_ptr.h:103-104 | a null handle joins and changes no count |
| SharedPointer.LocalSharedPtr.Make | include/lavik/local_shared_ptr.h:217-233 | a fresh block with one handle |
| SharedPointer.LocalSharedPtr.Copy | include/lavik/local_shared_ptr.h:106-109 | one more handle, counted once more, on a live block |
| SharedPointer.LocalSharedPtr.Move | include/lavik/local_shared_ptr.h:117-120 | the block changes hands, its count does not change |
| SharedPointer.LocalSharedPtr.CopyAssign | include/lavik/local_shared_ptr.h:130-133 | the handle takes the other's block, self-assignment included; all counts stay right |
| SharedPointer.LocalSharedPtr.MoveAssign | include/lavik/local_shared_ptr.h:140-143 | the handle takes the block and leaves the other null, self-assignment aside |
| SharedPointer.LocalSharedPtr.Reset | include/lavik/local_shared_ptr.h:155-160 | the last handle to leave destroys the block, no other does |
| SharedPointer.LocalSharedPtr.Swap | include/lavik/local_shared_ptr.h:161-165 | two handles exchange blocks, all counts stay right |
| SharedPointer.LocalSharedPtr.Destruct | include/lavik/local_shared_ptr.h:128 | the destructor leaves the block and the heap stays consistent |
| SharedPointer.LocalSharedPtr.UseCount | include/lavik/local_shared_ptr.h:182-185 | the reported count is the number of handles on the block |
| SharedPointer.Heap.HandlesAreLive | include/lavik/local_shared_ptr.h:155-160 | no handle ever points at a destroyed block |
| SharedPointer.Heap.DestroyedExactlyWhenUnheld | include/lavik/local_shared_ptr.h:155-160 | a block is destroyed if and only if no handle is left, and at most once |
| SharedPointer.DeadStaysDead | include/lavik/local_shared_ptr.h:106-165 | once no handle points at a block, no continuation of the program points at it again |
| SharedPointer.HandlesMove | include/lavik/local_shared_ptr.h:106-164 | what copying, moving and swapping do to each handle |
| SharedPointer.AssignmentsAreSwaps | include/lavik/local_shared_ptr.h:130-165 | assigning and resetting are a temporary, a swap and its end, also on a single handle |
| SharedPointer.Step | include/lavik/local_shared_ptr.h:106-165 | every operation moves the handles as the program's meaning says, makes a block exactly for an allocation, and leaves no handle on a destroyed block |
| SharedPointer.Run | include/lavik/local_shared_ptr.h:106-165 | after any program, hence after every part of one, handles point where its meaning says, each block's count is the number of handles on it, and it is destroyed if and only if that is zero |
| SharedPointer.RunToEnd | include/lavik/local_shared_ptr.h:106-165 | with its handles gone, every block a program made, one per allocation, was destroyed exactly once |
| Histogram.LowerBoundIsTheBucket | src/metrics.cpp:285-291 | the two cache checks hold if and only if the bucket is the exact lower bound |
| Histogram.FindLowerBound | src/metrics.cpp:292-296 | binary search finds the first bound not below the latency |
| Histogram.MergeIsConcatenation | src/metrics.cpp:336-346 | merging two workers' totals gives the totals of all their records, wrap-around included |
| Histogram.TotalsCount | src/metrics.cpp:270-300 | calls and bins count the records, modulo 2^64 |
| Histogram.TicksAddUp | src/metrics.cpp:270-300 | the ticks are the sum of the latencies, modulo 2^64 |
| Histogram.RenderBuckets | src/metrics.cpp:459-470 | the rendering loop accumulates the bins |
| Histogram.PlusInfIsTheCount | src/metrics.cpp:468-477 | the +Inf bucket equals the count, whatever was recorded |
| Histogram.BucketsCountExactly | src/metrics.cpp:459-470 | while fewer than 2^64 calls were made, each bucket counts exactly the calls at or below its bound |
| Histogram.BucketsNeverDecrease | src/metrics.cpp:459-470 | and the buckets never decrease |
| Metrics.TickBoundIsTight | src/metrics.cpp:182-189 | no latency within a bound falls outside its bucket, and less than a tick beyond it falls inside |
| Metrics.TickBoundIsExact | src/metrics.cpp:182-189 | a bound is the exact ticks plus 0.999, rounded down, at least one |
| Metrics.UpperBoundsTable | include/lavik/metrics.h:37-42 | the bounds in microseconds: powers of two up to 512, then the round steps up to 8 seconds |
| Metrics.TickBoundFits | src/metrics.cpp:178-190 | below 2 * 10^18 Hz every bound fits in 64 bits |
| Metrics.InitLatencyBounds | src/metrics.cpp:178-190 | the tick bounds are nondecreasing at every counter frequency |
| Metrics.WorkerMetrics.constructor | src/metrics.cpp:178-180 | totals start at nothing recorded |
| Metrics.WorkerMetrics.RecordCommandMetric | src/metrics.cpp:270-300 | whatever the cached bucket, the record lands in the exact one, and the totals stay those of what was recorded |
| Metrics.WorkerMetrics.ResetCommandMetrics | src/metrics.cpp:349-357 | totals start over while the cached buckets stay, harmlessly |
| Metrics.Replay | src/metrics.cpp:270-357 | after any sequence of records and resets the totals are those of the records since the last reset |
| Metrics.CollectCommand | src/metrics.cpp:302-347 | merging snapshots taken at different times gives the totals of all records they saw |
| MetricsText.SecondsFromMicroseconds | src/metrics.cpp:385-396 | the text is the exact decimal number of seconds, with no zero at its end |
| RedisInt.ParseRedisInt64 | include/lavik/redis_parse.h:47-63 | a text is accepted if and only if it is the printed form of a 64-bit integer, which is the result |
| RedisInt.PrintedMagnitude | include/lavik/redis_parse.h:45-63 | printed forms have no leading zero and read back exactly within range, both ends included |
| RedisInt.PrintedFormsDiffer | include/lavik/redis_parse.h:45-63 | different integers have different printed forms |
| Expiration.ParseRedisExpirationDeadline | include/lavik/expiration.h:42-77 | no 64-bit overflow, equal to the meaning over unbounded integers, and a deadline is never zero |
| Expiration.DeadlineDecides | include/lavik/expiration.h:42-77 | an integer is accepted if and only if it and its deadline fit in 64 bits and, where past deadlines are rejected, it is positive; the deadline is exact, or the sentinel for a past one; the final check never rejects |
| Expiration.OtherTextIsNoInteger | include/lavik/expiration.h:42-49 | a text is refused as no integer if and only if it is not the printed form of one |
| PopulationManifest.AppendBigEndian | include/lavik/population_manifest_format.h:58-62 | the shift loop appends the value's low bytes, most significant first |
| PopulationManifest.BigEndianReadsBack | include/lavik/population_manifest_format.h:58-62 | the bytes determine a value that fits them |
| PopulationManifest.Encode | include/lavik/population_manifest_format.h:51-70 | the encoding has exactly 25 + 10n bytes |
| PopulationManifest.EncodingStarts | include/lavik/population_manifest_format.h:51-64 | the bytes start with LAVIK_POPULATION_V1 and the version 1 |
| PopulationManifest.EncodingHolds | include/lavik/population_manifest_format.h:58-70 | where each byte of the count, of each partition id and of each epoch stands |
| PopulationManifest.EncodePopulationManifestDigestInput | include/lavik/population_manifest_format.h:51-70 | the loops build that encoding |
| PopulationManifest.EncodingPrefixMeansSameEntries | include/lavik/population_manifest_format.h:51-70 | for 32-bit counts, one encoding is a prefix of another if and only if the lists agree, ids modulo 2^16 |
| PopulationManifest.EncodingIsInjective | include/lavik/population_manifest_format.h:36-70 | on partition ids below 16,384 equal or prefixed bytes mean equal lists |
| PopulationManifest.WideIdsCollide | include/lavik/population_manifest_format.h:65-68 | two ids 2^16 apart have the same bytes |

## Left out

- The replication, RDB, pub/sub, storage-engine, command-table and cluster-control code, the applications and the vendored libraries.
- Host, cgroup, resident-set and allocator reads, peak tracking (`UpdatePeak`) and the statistics getters of `src/memory.cpp`: capacity is a parameter, the rest would add only easy members.
- Weak memory ordering: a step of the machine is one access to one counter, in some total order.
- The machine models full-sync and client operations on bound workers only, and reservations of at least one byte; zero-byte reservations change no counter.
- A release of retained bytes that were accounted in several parts is several steps of the machine, one for each part.
- RandomSample.SampleUniqueRandomRanks: populations are unbounded integers and the generator's draws are exactly uniform; 64-bit sizes, vector capacity and the Mersenne Twister itself are not modelled.
- ConfigRewrite.RewriteText: models the text only; stat, temporary file, permissions, sync, rename and I/O errors are not modelled.
- ConfigLoad.LoadRedisConfigFile: models the three replication directives; every other directive is taken to succeed without touching their options.
- Dispatch of the other directives to options and their cross-field validation, node ids and endpoints in `src/config.cpp`: long lists of one-step facts.
- ConfigLine.ParseRedisConfigLine: characters stand for bytes, and white space is that of the C locale.
- SharedPointer.LocalSharedPtr.Reset: a block's value does not itself own handles, so its destructor releases nothing else; thread affinity checks and allocators are not modelled.
- Metrics.TickBoundFits: over the reals; long-double rounding is not modelled.
- Metrics.InitLatencyBounds: computes over the reals; long-double rounding and a bound too large for 64 bits are not modelled.
- Metrics.WorkerMetrics.RecordCommandMetric: the early return of a thread that is not a worker is not modelled.
- Connection, defragmentation and dataset-change counters, and the rest of the rendered text, in `src/metrics.cpp`: easy members.
- Floating-point parsing and formatting in `include/lavik/redis_parse.h`.
- The SHA-256 digest over the manifest bytes, and the callers' checks that entries are ordered and in the partition domain.
