# Verification of the entropy gateway

A Dafny model of the path from detection events to released entropy: the batch collector, the
conditioning stages, the whitened pool with its continuous health tests, the request limiter, the
batch statistics, the cloud forwarder and the client's reconnection. `dafny verify dfyconfig.toml`
checks everything.

## How it is organised

| file | what it models |
|---|---|
| `Samples.dfy`, `Counting.dfy` | multiplicity, runs of equal values, pigeonhole: the measures the tests are judged by |
| `HealthTests.dfy` | the Repetition Count Test and the Adaptive Proportion Test (sections 4.4.1 and 4.4.2 of NIST SP 800-90B), as classes and as automata |
| `Bits.dfy`, `Words.dfy` | bytes as bit strings, 64-bit words as little-endian bytes |
| `VonNeumann.dfy`, `Whitening.dfy` | extraction, packing, the XOR fold, the dual-stage pipeline |
| `Slices.dfy`, `Events.dfy`, `Pool.dfy`, `PoolHistory.dfy` | the whitened pool as a class over reused arrays, and whole runs of it |
| `TokenBucket.dfy` | the request limiter and the Retry-After number |
| `BatchTests.dfy`, `MinEntropy.dfy` | frequency, runs, repetition and proportion statistics; the min-entropy estimators |
| `CollectorMachine.dfy`, `Collector.dfy` | the collector as a step machine over all interleavings, and as a class whose methods are its transitions |
| `Forwarder.dfy`, `Gateway.dfy` | the sender behind the collector, and the composition of collector, pool and cloud |
| `Reconnect.dfy` | backoff, the single-flight gate, the rotation timer |

Objects the gateway updates in place are classes; each method is tied by its postcondition to a
transition function, and what the gateway promises is proved of that function over every input, run or
reachable state. Concurrency is a step machine: one step is what one goroutine does under one lock, or
one channel operation. A flush is two steps, because it blocks on a full queue while it holds the lock.

Parameters of the model: SHA-256 is any function from byte strings to 32 bytes; the binary logarithm is
any function with its laws; the clock is a sequence of instants; whether a send or a dial succeeds is
chosen by the environment. A nil slice is the empty sequence. Tokens and ratios are real numbers;
durations are whole nanoseconds.

## Where the code and its description part

- The pool's constructor is described as keeping at least `minSize` bytes available
  (internal/entropy/pool.go:37-40). The reserve is only checked on entry, so one request can drain it
  (`ReserveCanBeDrained`); it is kept exactly by requests within `AvailableEntropy`
  (`ReserveKeptExactlyWithinAvailable`).
- Not starting an `Add` after `Close` is not enough for a safe shutdown: an `Add` already waiting for
  the lock can still send on the closed queue. `FirstCloseIsSafeExactly` gives the condition at the
  first `Close`: no `Add` is waiting for the lock. `LeftoverIsFatal` gives it once the queue is closed.
- `toBitCount` clamps one byte count early (`BitCountClampsOneEarly`).
- A token bucket taken by itself can advertise a Retry-After that is a fraction of a nanosecond short, at
  rates below one token a second (`RetryAfterCanFallShort`; `RetryAfterMeetsExactly` says exactly when).
  The server never makes such a bucket: it takes its rate and burst from positive integers
  (internal/entropy/http_entropy_server.go:76-82, 113), and `ServerRetryAfterSuffices` covers every
  bucket it does make.
- The client's gate can swallow a wake-up: a stream that fails after the owner of the gate has dialled
  and before it has cleared the gate can leave the client down with nobody reconnecting
  (`WakeUpCanBeLost`). `FailureStrandsExactly` says that this is the only way, and in runs without such
  a failure a client that is down always has a reconnection coming (`DownMeansReconnecting`).
- A failure of the proportion test resets that test only; the refused bytes stay stored and
  are counted a second time by the repetition test (`AptFailureKeepsRepetitions`).

## Model

| member | source | states |
|---|---|---|
| `HealthTests.RepetitionCountTest.constructor` | internal/validation/continuous_health_tests.go:23-32 | starts in the fresh state, with cutoff 40 in place of one that is not positive |
| `HealthTests.RepetitionCountTest.Test` | internal/validation/continuous_health_tests.go:37-63 | verdict and new state are one transition of the automaton that `RctCharacterisation` explains |
| `HealthTests.RepetitionCountTest.TestBlock` | internal/validation/continuous_health_tests.go:67-74 | verdict and new state are those of feeding the block until the first failure |
| `HealthTests.RepetitionCountTest.Reset` | internal/validation/continuous_health_tests.go:78-85 | forgets the samples seen, keeps the cutoff |
| `HealthTests.RctCharacterisation` | internal/validation/continuous_health_tests.go:37-74 | from a fresh state a block passes if and only if no value stands max(cutoff, 2) times in a row; after a pass the state is the last sample and the length of the run it ends |
| `HealthTests.RctEverySample` | internal/validation/continuous_health_tests.go:37-63 | sample by sample, past failures too: the state is the last sample and the run it ends, and a sample fails if and only if it makes that run reach max(cutoff, 2) |
| `HealthTests.RctPassedBlockHasNoLongRun` | internal/validation/continuous_health_tests.go:67-74 | whatever was seen before, a block that passes holds no run that reaches the limit |
| `HealthTests.RctLongRunAlwaysFails` | internal/validation/continuous_health_tests.go:67-74 | a block with such a run fails from every state |
| `Samples.FeedAppend` | internal/validation/continuous_health_tests.go:67-74 | for either test, where a stream is cut into blocks changes neither verdict nor state, nor which sample fails first |
| `Samples.FeedSnoc` | internal/validation/continuous_health_tests.go:67-74 | a block is its samples one after another, up to the first failure |
| `HealthTests.AdaptiveProportionTest.constructor` | internal/validation/continuous_health_tests.go:114-128 | starts at the beginning of a window, with 605 and 4096 in place of parameters that are not positive |
| `HealthTests.AdaptiveProportionTest.Test` | internal/validation/continuous_health_tests.go:133-163 | verdict and new state are one transition of the automaton that `AptCharacterisation` explains |
| `HealthTests.AdaptiveProportionTest.TestBlock` | internal/validation/continuous_health_tests.go:168-175 | verdict and new state are those of feeding the block until the first failure |
| `HealthTests.AdaptiveProportionTest.Reset` | internal/validation/continuous_health_tests.go:179-186 | goes back to the start of a window, keeps the parameters |
| `HealthTests.AptPartialWindow` | internal/validation/continuous_health_tests.go:137-162 | samples short of a window never fail, and the state counts the copies of the first |
| `HealthTests.AptWholeWindow` | internal/validation/continuous_health_tests.go:150-159 | a whole window passes if and only if its first sample occurs fewer than cutoff times in it |
| `HealthTests.AptCharacterisation` | internal/validation/continuous_health_tests.go:133-175 | from the start of a window a block passes if and only if every complete, non-overlapping window does; the state after a pass describes the window left open |
| `HealthTests.AptEverySample` | internal/validation/continuous_health_tests.go:133-163 | sample by sample, past failures too: the state describes the open window, and a sample fails if and only if it completes a window in which the opening sample occurs cutoff times or more |
| `HealthTests.LazyAndEagerFailInSameWindow` | internal/validation/continuous_health_tests.go:150-159 | checking the count only when a window is complete finds the same first bad window as checking after every sample, the open window excepted |
| `HealthTests.WindowStartIsMultiple` | internal/validation/continuous_health_tests.go:150-159 | the windows used to compare the two variants start at multiples of the window size |
| `Whitening.VonNeumannExtractor` | internal/entropy/whitening.go:13-44 | the result unpacks to the pair filter of the whole bit stream followed by zero padding only, in as few bytes as that needs, at most half the input rounded up |
| `Whitening.ExtractPairs` | internal/entropy/whitening.go:20-36 | the inner loop appends the pair filter of one byte |
| `Whitening.ExtractedBitsAppend` | internal/entropy/whitening.go:18-37 | extraction distributes over concatenation |
| `VonNeumann.DebiasedPair` | internal/entropy/whitening.go:20-36 | each pair adds its first bit if its bits differ and nothing if they agree |
| `Bits.BitsOfAt` | internal/entropy/whitening.go:10-12 | bit j of byte i of the stream is bit 7 - j of that byte |
| `VonNeumann.SwapMaskedFlips` | internal/entropy/whitening.go:24-35 | swapping the masked unequal pairs turns the extracted bits into bits XOR mask |
| `VonNeumann.SwapMaskedKeepsOnes` | internal/entropy/whitening.go:24-35 | and keeps the number of one-bits |
| `VonNeumann.SwapMaskedUndone` | internal/entropy/whitening.go:24-35 | and done twice restores the stream |
| `Whitening.VonNeumannConjugation` | internal/entropy/whitening.go:13-44 | so on inputs there is, for every mask, an involution that keeps length and number of one-bits and XORs the extracted bits with the mask |
| `VonNeumann.LeadingPair` | internal/entropy/whitening.go:24-35 | a leading pair of equal bits leaves every extraction probability as it is; one of unequal bits fixes the first extracted bit |
| `VonNeumann.VonNeumannIsFair` | internal/entropy/whitening.go:10-12 | for independent bits of any bias, extracted strings of equal length are equally likely: the debiasing claim |
| `Whitening.PackBits` | internal/entropy/whitening.go:93-108 | unpacking MSB-first gives the bits followed only by zero padding, in ceil(n/8) bytes; any nonzero entry is a one-bit |
| `Whitening.PackedInjective` | internal/entropy/whitening.go:93-108 | packing loses nothing but the length |
| `Bits.BitsOfInjective` | internal/entropy/whitening.go:89-92 | a byte string is determined by its bit stream, which gives the contract of packing one solution |
| `Whitening.ParityPreprocess` | internal/entropy/whitening.go:76-87 | nothing for fewer than two bytes, else one byte fewer, each the XOR of the two input bytes around it |
| `Whitening.FoldedAt` | internal/entropy/whitening.go:82-84 | each output byte is the XOR of the two input bytes around it |
| `Whitening.FoldRebuilds` | internal/entropy/whitening.go:76-87 | an input is rebuilt from its first byte and its fold |
| `Whitening.FoldIsOnto` | internal/entropy/whitening.go:76-87 | every byte string is a fold, once for each first byte |
| `Whitening.ShiftedFoldsAgree` | internal/entropy/whitening.go:76-87 | inputs that differ by one and the same byte everywhere fold alike |
| `Whitening.StageOneKernel` | internal/entropy/pool.go:92-97 | two non-empty batches are the same to stage one if and only if they have equally many events and some byte, repeated eight times, is the XOR of every pair of timestamps |
| `Whitening.PipelineKernel` | internal/entropy/whitening.go:58-70 | two non-empty batches are conditioned alike under every hash if and only if some byte, repeated eight times, is the XOR of every pair of timestamps |
| `Words.XorBytewise` | internal/entropy/pool.go:94 | little-endian encodings differ by one byte throughout if and only if the words differ by that byte repeated |
| `Words.LittleEndianAt` | internal/entropy/pool.go:94 | byte k of an encoding is the word shifted down 8k bits |
| `Whitening.SerialisedAt` | internal/entropy/pool.go:92-95 | byte 8i + k of the raw stream is byte k of timestamp i |
| `Whitening.Sha256Conditioner` | internal/entropy/whitening.go:49-56 | nothing for no input, else the digest |
| `Whitening.DualStageWhitening` | internal/entropy/whitening.go:63-70 | from two bytes on the digest of the string whose bytes are the XORs of adjacent input bytes, 32 bytes; nothing below |
| `Whitening.ToBitCount` | internal/entropy/whitening.go:140-149 | zero exactly for counts that are not positive, the largest 32-bit value exactly from the clamp on, eight times the count in between |
| `Whitening.BitCountClampsOneEarly` | internal/entropy/whitening.go:138-149 | is eight times the byte count, capped, for every count but the one at the boundary of the guard |
| `Pool.EffectiveBounds` | internal/entropy/pool.go:57-66 | a missing minimum becomes 32, a missing maximum four times the minimum, a given maximum is raised to it; the result is always in order |
| `Pool.WhitenedPool.WithBounds` | internal/entropy/pool.go:57-75 | an empty pool with effective bounds and fresh health tests |
| `Pool.PutUint64` | internal/entropy/pool.go:94 | at the offset byte k is the word shifted down 8k bits, for k below 8, and nothing else changes |
| `Pool.Whiten` | internal/entropy/pool.go:92-97 | the digest of the XOR fold of the timestamps in order, eight bytes each, least significant first |
| `Pool.ConditioningHashesFold` | internal/entropy/pool.go:92-97 | there is exactly one such fold, and its digest is what a batch contributes |
| `Pool.WhitenedPool.AddBatch` | internal/entropy/pool.go:87-141 | nothing for an empty batch; else the digest of that fold goes to the end of the store and the events to the end of the history, each dropping only the oldest, as few as its bound demands |
| `Pool.BatchLands` | internal/entropy/pool.go:119-138 | the same of the transition that `PoolConservation` accounts for |
| `Pool.WhitenedPool.ExtractEntropy` | internal/entropy/pool.go:149-190 | output and new state, health tests included, are the transition that `RefusedExactly` decides and `PoolConservation` accounts for |
| `Pool.WhitenedPool.PoolStatus` | internal/entropy/pool.go:194-199 | lengths of history and store |
| `Pool.WhitenedPool.AvailableEntropy` | internal/entropy/pool.go:203-212 | what exceeds the reserve; `ReserveKeptExactlyWithinAvailable` says what it is good for |
| `Pool.Available` | internal/entropy/pool.go:203-212 | never negative, zero if and only if the store is at or below the reserve, else what exceeds it |
| `Slices.Slice.Append` | internal/entropy/pool.go:122 | appends in place while there is room, else into a new array |
| `Slices.Slice.DropFront` | internal/entropy/pool.go:125-126 | shifts in place: the contents lose exactly their first elements |
| `Slices.Slice.AppendBounded` | internal/entropy/pool.go:133-138 | the contents become the last elements, up to the bound, of old and new together |
| `PoolHistory.PoolConservation` | internal/entropy/pool.go:87-190 | over every run the pool is the conditioned output after a cursor, releases are consecutive slices before it, every byte made was delivered, trimmed or is stored, the store is bounded, and the history is the last 4096 events |
| `PoolHistory.CursorNeverMovesBack` | internal/entropy/pool.go:133-138 | from every reachable ledger the cursor only moves forward and releases already made never change |
| `PoolHistory.ReleasesAreDisjoint` | internal/entropy/pool.go:184-189 | no byte is released twice, and releases come in order |
| `PoolHistory.RefusalKeepsBytes` | internal/entropy/pool.go:149-182 | a refused extraction leaves bytes, history and cursor as they were |
| `PoolHistory.GateHolds` | internal/entropy/pool.go:168-182 | in every run the repetition test has seen exactly the bytes since its reset, refused ones included, and the proportion test exactly those released since its last failure |
| `PoolHistory.HealthGate` | internal/entropy/pool.go:165-189 | bytes released since the last health failure hold no run of 40, nor do those the repetition test has seen since its reset; the 4096-byte tiles of those released since the last APT failure have fewer than 605 copies of their first byte each |
| `PoolHistory.RefusedExactly` | internal/entropy/pool.go:149-190 | in every run a request is unavailable if and only if it asks for nothing or the store is below it or the reserve; else it fails the repetition test if and only if its bytes complete a run of 40 with those seen since the reset, else the proportion test if and only if they complete a bad window, else it gets exactly the oldest bytes |
| `PoolHistory.StretchExtends` | internal/entropy/pool.go:165-189 | a stretch free of failures, of either test or of the proportion test, only adds what it delivers to what was released since the last one |
| `PoolHistory.HealthyStretchHasNoLongRun` | internal/entropy/pool.go:165-189 | every stretch of every run that has no health failure delivers no run of 40 equal bytes, across requests too |
| `PoolHistory.StretchIsTiled` | internal/entropy/pool.go:165-189 | every stretch of every run that has no APT failure, repetition failures notwithstanding: what it delivers, after the part of the open window delivered before it, is tiled by windows that pass |
| `PoolHistory.RctFailureIsForgotten` | internal/entropy/pool.go:168-174 | after a repetition failure a request is judged by its own bytes alone, and the proportion test is undisturbed |
| `PoolHistory.AptFailureKeepsRepetitions` | internal/entropy/pool.go:176-182 | after a proportion failure a new window opens, but the repetition test sees the refused bytes a second time; exactly when the next request fails which test |
| `PoolHistory.SplitExtractionsMerge` | internal/entropy/pool.go:149-190 | releases of n then m bytes are one release of n + m, in bytes, store and test states |
| `PoolHistory.MergedExtractionSplits` | internal/entropy/pool.go:149-190 | a release of n + m can be had as n then m if and only if the reserve is met after the first n |
| `PoolHistory.ReserveKeptExactlyWithinAvailable` | internal/entropy/pool.go:157-163 | a release leaves the reserve if and only if it asked for no more than was reported available |
| `PoolHistory.ReserveCanBeDrained` | internal/entropy/pool.go:157-163 | one batch into a default pool, whatever its events and the hash: a request for 32 bytes is served and empties it |
| `PoolHistory.StuckHeadIsNeverReleased` | internal/entropy/pool.go:168-174 | a store whose first m bytes hold a run of 40 refuses every request for m or more, from every state, and keeps the bytes |
| `TokenBucket.RateLimiter.constructor` | internal/entropy/http_entropy_server.go:397-417 | a full bucket, with rate 1 and burst equal to the rate for settings that are not positive |
| `TokenBucket.RateLimiter.Allow` | internal/entropy/http_entropy_server.go:419-457 | verdict, wait and new bucket are the transition that `BurstIsServedExactly` and `DeniedWaitIsTight` pin and the bounds below speak about |
| `TokenBucket.FullBucket` | internal/entropy/http_entropy_server.go:397-417 | a new bucket is full, with its rate, capacity and instant |
| `TokenBucket.BurstIsServedExactly` | internal/entropy/http_entropy_server.go:423-439 | k calls at any instant admit exactly as many as there are whole tokens in what was left plus rate times the time since, capped by the capacity; what remains, and the clock, exactly |
| `TokenBucket.IdleBucketFills` | internal/entropy/http_entropy_server.go:425-433 | a bucket left idle until its capacity has accrued admits its whole capacity in a row |
| `TokenBucket.DeniedWaitIsTight` | internal/entropy/http_entropy_server.go:441-456 | a denied call is told a second at least, a nanosecond more than which pays for a token, and beyond a second no more than it takes |
| `TokenBucket.TokensStayWithinCapacity` | internal/entropy/http_entropy_server.go:425-436 | tokens stay between zero and capacity for every sequence of clock readings, decreasing ones included |
| `TokenBucket.SpendingIsCovered` | internal/entropy/http_entropy_server.go:425-436 | admissions and what is left are covered by what was there and what accrued |
| `TokenBucket.WindowBound` | internal/entropy/http_entropy_server.go:425-439 | whatever came before, a stretch of calls admits at most capacity plus rate times its length |
| `TokenBucket.GreedyIsOptimal` | internal/entropy/http_entropy_server.go:435-439 | after any number of requests no policy on the same bucket that may decline has admitted more |
| `TokenBucket.AllowIsFeasible` | internal/entropy/http_entropy_server.go:435-439 | the limiter itself is one of those policies |
| `TokenBucket.DenialsAreUnobservable` | internal/entropy/http_entropy_server.go:423-456 | on a clock that does not run backwards, deleting a denied call changes no other verdict or wait |
| `TokenBucket.RefillTwice` | internal/entropy/http_entropy_server.go:425-433 | refilling in two steps is refilling in one, the cap notwithstanding |
| `TokenBucket.SetRetryAfter` | internal/entropy/http_entropy_server.go:459-471 | the least number of seconds that is at least one, at least the configured one, and covers the wait |
| `TokenBucket.RetryAfterSuffices` | internal/entropy/http_entropy_server.go:441-471 | with rate and capacity at least one, a call the advertised seconds after a denial is admitted if none was in between |
| `TokenBucket.ServerBucket` | internal/entropy/http_entropy_server.go:76-113 | a server's bucket starts full, its rate from rps and its capacity from burst, 25 each where not positive, so both at least one |
| `TokenBucket.ServerRetryAfterSuffices` | internal/entropy/http_entropy_server.go:76-113 | so on every server, in every run, whoever waits the advertised seconds after a denial is admitted if nobody is in between |
| `TokenBucket.RetryAfterMeetsExactly` | internal/entropy/http_entropy_server.go:446-456 | at any rate, a call exactly at the advertised second is admitted unless the cut wait lost a fraction and is exactly the seconds advertised |
| `TokenBucket.RetryAfterAtAnyRate` | internal/entropy/http_entropy_server.go:446-456 | one nanosecond more suffices at any rate |
| `TokenBucket.RetryAfterCanFallShort` | internal/entropy/http_entropy_server.go:446-456 | a bucket and an instant where the advertised seconds do not suffice |
| `TokenBucket.WaitIsTight` | internal/entropy/http_entropy_server.go:441-454 | the wait pays for a token up to a nanosecond, and above the one-second floor never overpays |
| `TokenBucket.TooSmallNeverAdmits` | internal/entropy/http_entropy_server.go:402-404 | a bucket smaller than one token admits nobody, ever |
| `BatchTests.FrequencyTest` | internal/validation/quick_tests.go:18-32 | the share of one-bits of the stream; passes if and only if it is between 45 and 55 percent, as integers |
| `BatchTests.RunsTest` | internal/validation/quick_tests.go:39-71 | the nested loop counts the runs of the MSB-first stream; passes if and only if they are within a tenth of half its length, as integers |
| `BatchTests.RunsAppend` | internal/validation/quick_tests.go:44-63 | runs of a joined stream are the sum, less one exactly when the bits at the joint agree |
| `BatchTests.RunsAgainstEach` | internal/validation/quick_tests.go:44-63 | runs are at most twice the ones or zeros, plus one, and tell which bit ends the stream when the bound is tight |
| `BatchTests.RunsOfData` | internal/validation/quick_tests.go:18-63 | the same on bytes: the joint is the last bit of one part and the first of the next; runs against the ones the frequency test counts |
| `BatchTests.ComputeRctStat` | internal/validation/quick_tests.go:154-176 | the longest run of equal bytes in the window |
| `BatchTests.Windowed` | internal/validation/quick_tests.go:163 | the window is the first bytes of the data |
| `BatchTests.ComputeAptStat` | internal/validation/quick_tests.go:181-207 | the highest multiplicity in the window as a share of it, for any order of the table |
| `BatchTests.RctStreamingEqualsBatch` | internal/validation/continuous_health_tests.go:67-74 | the streaming test passes from fresh if and only if the batch statistic over a covering window is below max(cutoff, 2) |
| `BatchTests.AptFailureShowsInBatch` | internal/validation/continuous_health_tests.go:150-159 | a window that fails the streaming test has a batch share of at least cutoff over window, and conversely when it opens with its commonest byte |
| `Samples.LongestRunIsLongest` | internal/validation/quick_tests.go:151-153 | the longest run is the largest k for which k equal values stand in a row |
| `Samples.TrailingRunIsMaximal` | internal/validation/quick_tests.go:159-173 | the run kept while scanning is the longest that ends the prefix |
| `MinEntropy.EstimateMcvWithStats` | internal/validation/min_entropy.go:42-71 | the true highest multiplicity and a value that has it, for any order of the table; the estimate is minus log2 of its share, zero where it is all; distinct values times it, and 256 times it, cover the data |
| `MinEntropy.McvBounds` | internal/validation/min_entropy.go:9-14 | that estimate is between 0 and 8 bits, and 0 if and only if all bytes are equal |
| `MinEntropy.EstimateCollisionWithStats` | internal/validation/min_entropy.go:121-162 | a reported time is the one-based place of the first repeat, between 2 and 257, with that many less one distinct before it, and the estimate is made of it; no report means all distinct and at most 256 |
| `MinEntropy.CollisionBounds` | internal/validation/min_entropy.go:145-159 | for reported times the estimate is from 1 to 8 bits, the logarithm up to 256 and 8 bits at 257, and grows strictly in between; the lower clamp never acts |
| `MinEntropy.EstimateMinEntropyConservative` | internal/validation/min_entropy.go:164-175 | the lower of the share's and the first repeat's estimate, between 0 and 8 bits, and 0 if and only if no two bytes differ |
| `MinEntropy.DistinctIsShort` | internal/validation/min_entropy.go:130-147 | distinct bytes are at most 256 |
| `Counting.HighestCount` | internal/validation/min_entropy.go:54-61 | walking the table in any order finds the highest multiplicity and a value that has it |
| `Counting.Tally` | internal/validation/min_entropy.go:47-52 | the table maps exactly the values that occur to how often |
| `Counting.MaxCountAttained` | internal/validation/min_entropy.go:54-61 | some value occurs as often as the highest multiplicity |
| `Counting.MaxCountBounds` | internal/validation/min_entropy.go:54-61 | and none more often |
| `Samples.CountIsMultiplicity` | internal/validation/min_entropy.go:47-50 | the count of a value is its multiplicity |
| `Counting.Pigeonhole` | internal/validation/min_entropy.go:52-61 | elements from a set of values, each at most m times, are at most m times as many as the values |
| `Counting.MaxCountShare` | internal/validation/min_entropy.go:52-61 | the commonest byte fills its share |
| `CollectorMachine.CollectorConservation` | internal/collector/collector.go:105-153 | under every interleaving, the events added are in order those sent, in flight, queued, staged and buffered; batch k is not empty, at most maxSize long, and numbered k mod 2^32 whatever the sender returned |
| `CollectorMachine.AddFlushesExactlyWhenFull` | internal/collector/collector.go:109-114 | an event that fills the buffer makes a batch of exactly maxSize, any other stays buffered and sends nothing |
| `CollectorMachine.FlushTakesEverything` | internal/collector/collector.go:127-153 | the timer and Close empty the buffer into one batch, if it holds something |
| `CollectorMachine.ShortBatchMeansFlush` | internal/collector/collector.go:105-184 | every step makes at most one batch and keeps those made; one below maxSize is made by the timer or a Close alone |
| `CollectorMachine.AddAloneMakesFullBatches` | internal/collector/collector.go:105-115 | in every run in which neither flushes, every batch has exactly maxSize events |
| `CollectorMachine.Capacity` | internal/collector/collector.go:85 | the queue has room for half of maxSize, rounded down, and for one at least |
| `CollectorMachine.HolderBlocksExactlyWhenFull` | internal/collector/collector.go:151-152 | a flush blocks, with the lock held, if and only if the open queue is full |
| `CollectorMachine.StepKeepsInv` | internal/collector/collector.go:105-214 | every step of every goroutine keeps the invariant behind it |
| `CollectorMachine.StepKeepsShutdownInv` | internal/collector/collector.go:157-214 | every step under the shutdown discipline keeps the invariant behind shutdown safety |
| `CollectorMachine.ShutdownIsSafe` | internal/collector/collector.go:157-188 | under that discipline nothing is ever sent on the closed queue, however late the timer fires and however often Close runs |
| `CollectorMachine.SenderExitMeansDelivered` | internal/collector/collector.go:190-214 | when the send loop has ended, everything added has been sent and no send is pending |
| `CollectorMachine.SomeStepEnabled` | internal/collector/collector.go:151-152 | no deadlock: while anything is under way some step is enabled, if the sender returns |
| `CollectorMachine.InternalStepsDecreaseWork` | internal/collector/collector.go:157-214 | each step of the collector's own decreases the work left |
| `CollectorMachine.InternalRunsAreShort` | internal/collector/collector.go:157-214 | so left alone it rests within that many steps |
| `CollectorMachine.RestAfterCloseIsDrained` | internal/collector/collector.go:179-204 | a disciplined shutdown at rest has closed the queue, ended both goroutines, and sent batches that concatenate to exactly the events added |
| `CollectorMachine.CanComeToRest` | internal/collector/collector.go:157-214 | from every state of a disciplined run the collector's own steps lead to rest |
| `CollectorMachine.CloseDrains` | internal/collector/collector.go:179-204 | once a Close has begun, at most the work left in steps finishes the shutdown, drained |
| `CollectorMachine.WaitingAddCanPanic` | internal/collector/collector.go:105-115 | from every state with an Add waiting for the lock and the queue open, a Close that begins now can lead to a send on the closed queue without any further Add |
| `CollectorMachine.FirstCloseIsSafeExactly` | internal/collector/collector.go:157-188 | in every run up to the first Close: no continuation without further Add sends on the closed queue if and only if no Add is waiting for the lock |
| `CollectorMachine.LockCanBeFreed` | internal/collector/collector.go:151-152 | while the queue is open, a flush that blocks on it with the lock held is let through by the send loop, and the lock is given back |
| `CollectorMachine.LeftoverIsFatal` | internal/collector/collector.go:182-188 | with the queue closed, a panic lies ahead without further Add if and only if an event was left waiting for the lock, buffered or staged |
| `Collector.BatchCollector.constructor` | internal/collector/collector.go:72-83 | the empty collector, with a buffer of maxSize |
| `Collector.BatchCollector.Add` | internal/collector/collector.go:105-115 | a batch is made if and only if the event fills the buffer to maxSize, of exactly what was buffered and the event; else the event is buffered; in the same buffer array, with no array of a batch under way changed |
| `Collector.BatchCollector.Flush` | internal/collector/collector.go:127-151 | the batch is a fresh array with the buffer's contents, numbered next; the buffer is emptied in place and never reallocated |
| `Collector.BatchCollector.FlushLocked` | internal/collector/collector.go:170-184 | the machine's transition for the timer and for Close |
| `Collector.BatchCollector.EnqueueStaged` | internal/collector/collector.go:152 | succeeds if and only if there is room, and then only moves the batch |
| `Collector.BatchCollector.TakeNext` | internal/collector/collector.go:208 | the oldest queued batch goes in flight |
| `Collector.BatchCollector.SenderReturned` | internal/collector/collector.go:209-212 | the batch counts as sent and as no longer pending, with or without an error |
| `Collector.BatchCollector.SendNext` | internal/collector/collector.go:208-213 | one turn of the loop sends exactly the oldest batch |
| `Collector.BatchCollector.RunSendLoop` | internal/collector/collector.go:206-214 | the loop sends exactly what was queued, in order, whatever the errors |
| `Forwarder.CloudAwareForwarder.constructor` | cmd/entropy-tdc-gateway/main.go:117-119 | no client at first |
| `Forwarder.CloudAwareForwarder.SetClient` | cmd/entropy-tdc-gateway/main.go:121-124 | a client is there from now on, if one is given |
| `Forwarder.CloudAwareForwarder.Close` | cmd/entropy-tdc-gateway/main.go:126-133 | detaches the client, and tells whether there was one |
| `Forwarder.CloudAwareForwarder.SendBatch` | cmd/entropy-tdc-gateway/main.go:135-158 | the pool gets the batch in any case; if a client is there and sends, the cloud gets its number and each event with its receive timestamp, picosecond timestamp, channel and digest; an error if and only if a client is there and does not |
| `Forwarder.Convert` | cmd/entropy-tdc-gateway/main.go:146-149 | event by event, in order, field by field, with the digest of the fold of the encoded timestamp |
| `Forwarder.ToProtosMirror` | cmd/entropy-tdc-gateway/main.go:494-513 | the converted events carry the fields of the originals and that digest |
| `Forwarder.WhitenedEvent` | cmd/entropy-tdc-gateway/main.go:518-522 | the digest of the XOR fold of the eight little-endian timestamp bytes, always 32 bytes, so the size check never drops one |
| `Forwarder.WhitenedEventKernel` | cmd/entropy-tdc-gateway/main.go:518-522 | two events are whitened from the same stage-one bytes if and only if their timestamps differ by one byte repeated eight times |
| `Gateway.EndToEnd` | cmd/entropy-tdc-gateway/main.go:135-158 | in every disciplined run each batch handled reached the pool once and in order whatever the client did, the history is the last 4096 of their events, the cloud has an in-order subsequence of them; shut down and at rest, it is the last 4096 of all events added |
| `Gateway.CloudHoldsExactly` | cmd/entropy-tdc-gateway/main.go:135-158 | in every run the cloud holds exactly the batches sent while a client was attached that it accepted, in order, and the sender's errors are exactly those of attached clients that did not |
| `Gateway.MirroredFaithfully` | cmd/entropy-tdc-gateway/main.go:146-151 | each of them with its number and every event mirrored field by field |
| `Gateway.GatewayPoolIsLedger` | cmd/entropy-tdc-gateway/main.go:135-137 | in every run the pool is that of a run of pool operations, one batch for each send and the extractions between, so that the health gate and the accounts hold of the composition |
| `Gateway.GCanComeToRest` | cmd/entropy-tdc-gateway/main.go:135-158 | from every state of a disciplined run the gateway's own steps, the forwarder's included, lead to rest within the work left |
| `Gateway.CloseDrainsToPool` | internal/collector/collector.go:179-204 | once a Close has begun, they end with a drained collector, a pool that was handed every batch, and a history of the last 4096 events added |
| `Gateway.FeedKeeps` | internal/entropy/pool.go:122-127 | handing a batch to the pool keeps the accounts of the composition |
| `Gateway.FinishKeeps` | cmd/entropy-tdc-gateway/main.go:140-157 | so does the sender's return, with a client or without, accepted or not |
| `Gateway.CollectKeeps` | internal/collector/collector.go:105-214 | so does every other step of the collector |
| `Reconnect.ConnectorWaits` | cmd/entropy-tdc-gateway/main.go:527-567 | the first wait is d0, each later one twice the one before, capped by dmax: min(d0 * 2^k, dmax); 5 and 60 for settings that are not positive |
| `Reconnect.DoubledIsNext` | internal/grpc/client.go:279-282 | doubling and capping one wait gives the next, for all settings, negative ones included |
| `Reconnect.WaitsGrowToMax` | internal/grpc/client.go:279-282 | with settings in order, waits never shrink and never exceed the maximum |
| `Reconnect.SingleFlight` | internal/grpc/client.go:232-245 | in every reachable state at most one goroutine is past the gate, and the gate is set if and only if one is |
| `Reconnect.SingleRotationTimer` | internal/grpc/client.go:316-354 | in every reachable state at most one rotation timer is live and uncancelled, and none after Close has cancelled |
| `Reconnect.StopLeavesNoneLive` | internal/grpc/client.go:347-354 | stopping the rotation timer leaves none live |
| `Reconnect.FlagsFollowEvents` | internal/grpc/client.go:118-125 | over every run each successful dial starts one receiver and each failure of one ends one; the client counts as connected if and only if the last of the successful dials and the failures was a dial |
| `Reconnect.RotationIsNeverLost` | internal/grpc/client.go:316-345 | in every run in which Close has not stopped it, a configured rotation is pending or fired, or about to be armed |
| `Reconnect.ArmedExactly` | internal/grpc/client.go:319-345 | arming leaves a live timer if and only if a rotation is configured and the client is open |
| `Reconnect.FiredTimerReconnects` | internal/grpc/client.go:336-343 | a timer that fires is over and sends a goroutine to the gate |
| `Reconnect.NoWaitAfterClose` | internal/grpc/client.go:251-265 | once the client is closed no goroutine begins to wait |
| `Reconnect.ClosedClientWindsDown` | internal/grpc/client.go:251-265 | and wherever they were, all can end, each in at most five steps |
| `Reconnect.ReconnectBackoff` | internal/grpc/client.go:247-284 | in every reachable state a goroutine that waits after k failures sleeps min(d0 * 2^k, dmax), or d0 when k is zero |
| `Reconnect.StepKeepsGate` | internal/grpc/client.go:232-245 | every step keeps the gate owned by exactly the goroutine past it |
| `Reconnect.StepKeepsTimers` | internal/grpc/client.go:316-354 | every step keeps every live timer the one the stored cancel function belongs to |
| `Reconnect.WakeUpLostExactly` | internal/grpc/client.go:232-245 | a client that is down with a reconnection on the way can lose it by what the goroutines do by themselves if and only if the owner of the gate has already dialled |
| `Reconnect.FailureStrandsExactly` | internal/grpc/client.go:149-157 | a stream failure can leave the client down for good if and only if it comes after the owner of the gate has dialled, and the client is not closed |
| `Reconnect.SecureKeptExactly` | internal/grpc/client.go:232-290 | every other step keeps a client that is down supplied with a reconnection that cannot be lost |
| `Reconnect.DownMeansReconnecting` | internal/grpc/client.go:232-290 | in every run in which no stream fails while the owner is past its dial, a client that is down always has a reconnection coming |
| `Reconnect.WakeUpCanBeLost` | internal/grpc/client.go:191-201 | such a late failure can happen: the client stays down, with no goroutine and no timer left |

## Left out

- SHA-256 itself: a parameter of the model, any function to 32 bytes.
- Metrics, logging, HTTP handlers and headers other than the Retry-After number, TLS, OAuth2, the MQTT and gRPC transports, the protobuf code.
- Floating point: ratios and tokens are real numbers, thresholds become integer inequalities, and the binary logarithm is any function with its laws. P-values, and ComputeTestSummary with them, are not modelled.
- EstimateMCV and EstimateCollision: the same estimates as their variants with statistics, which are modelled.
- Machine integers: counters, lengths and durations are unbounded, so the overflow of a doubled or converted time.Duration, or of the pool's bounds, is not modelled. The batch sequence number does wrap at 2^32.
- Environment parsing and validation of the configuration, topic and payload parsing, the fake clock, GetState and other accessors, ComputeWhiteningStats: easy members.
- NewWhitenedPool and NewBatchCollector: wrappers of the constructors that are modelled.
- A negative maxSize of the collector: the program panics at once. A maxSize of zero is covered.
- Mutexes of the sequential classes: each method runs under its lock, so runs are sequences of calls. Only the collector and the client are modelled with interleaved goroutines.
- Close of the collector: the five seconds after which it stops waiting, and reuse of the wait groups, are not modelled; what is proved is what a Close that waits long enough waits for.
- Collector.BatchCollector.RunSendLoop: the sequential loop covers what is queued when it starts; batches that arrive meanwhile, and the closing of the queue, are in the step machine.
- Whitening.ExtractPairs: the inner loop of the extractor as a method of its own.
- Pool.WhitenedPool.AddBatch: the branch for an empty conditioned output cannot be reached by a non-empty batch and has no counterpart, nor has the dropping of a per-event output that is not 32 bytes long.
- PoolHistory.HealthyStretchHasNoLongRun: says nothing across a health failure, after which a test forgets the run it was in.
- BatchTests.AptFailureShowsInBatch: the converse only for windows that open with their commonest byte, because the streaming test counts copies of the first byte alone.
- Forwarder.CloudAwareForwarder.Close: closing the client itself is in the reconnection model.
- Reconnect: the first connection is one step before all others; the unsynchronised writes of connect to the connection fields, and whether a connected client has a live stream, are not modelled. The jitter of the MQTT retry is not modelled.
