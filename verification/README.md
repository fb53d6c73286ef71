# NNIS evidence chain: a Dafny model

NNIS (a GPU inference runtime) surrounds its kernels with host code that decides what may be
claimed about them: harnesses with CPU oracles and error bounds, greedy-decoding fixtures, ABBA
timing campaigns, a resumable campaign launcher, parity records, and a Hub process that runs the
native generator and publishes its result once.  This project models that host code and proves what
it relies on.

| part | modules |
|---|---|
| Child capture and write-once publication | `ChildCapture`, `ParentPath`, `Publication`, `PublicationLimits`, `PublicationOutcomes`, `PublicationCode`, `PublicationContrast`, `HubGeneration` |
| Multi-pass tree reduction and its error bound | `PassStructure`, `SummationError`, `TreeReduction`, `TreeSumCode` |
| Stable softmax attention | `Attention`, `AttentionReference` |
| Deterministic selection, binary16 rounding, cached greedy decoding, the oracle suite | `Selection`, `Binary16`, `Decoding`, `ReferenceSuite` |
| Order statistics, schedules and ABBA evidence | `OrderStatistics`, `Schedules`, `AbbaDrift`, `AlternatingPairs`, `AbbaConsensus`, `FusedMlpCampaign` |
| The massive campaign: producer, validators, launcher | `MassiveHarness`, `MassiveCampaign`, `MassiveEvidence`, `CampaignValidation`, `CaseObservations`, `CampaignLauncher`, `LauncherCode`, `LauncherRuns`, `LauncherVerdict`, `LauncherConsensus`, `ParityRecord`, `QualifiedCampaign` |
| Parity evidence and tokenizer identity | `ParityEvidence`, `TokenizerIdentity` |
| Shared | `Json`, `Text`, `RealArithmetic`, `Wrappers` |

`dafny verify dfyconfig.toml` checks the whole project.

## How the system is modelled

- Concurrency is interleaving.  A publisher makes one system call per step, and any number of
  publishers, crashes and power losses may come between.  A power loss may take any name, because
  the directory itself is never forced to disk; what that undoes is stated.  The child process, its descendants, the
  clock and other users of a directory move between any two calls of the code that is modelled.
  Method contracts that mention such a party hold for every behaviour of it.  Which system calls fail is
  not for the modelled code to choose either: every failed call is recorded, and contracts say of every
  error which failed call is behind it.
- The directory of a result is a path of components, each a directory, missing, a dangling link or another
  file; making it is the recursion of `Path.mkdir(parents=True, exist_ok=True)`.
- `link()`, `mkdir()` and `read()` follow POSIX.1-2017, System Interfaces, chapter 3: `link` fails if the new
  name is bound (symbolic links included), and a read that returns no bytes for a non-zero request
  is end of file.
- The launcher's state is the files of one run directory.  A write may complete, fail, or be cut
  off by a kill, before the file is touched or in the middle of it, and a file cut off in the
  middle does not parse.  A kill between two writes is a kill before the second.
- Reals are exact, except that floating-point addition in the reduction is any operation with a
  relative error of at most epsilon that is exact on zero pads, and binary16 rounding is modelled
  bit for bit in units of 2^-24.  `exp` is any positive function that turns sums into products.
- A language model is a function from a cache and new tokens to logits and an extended cache that
  obeys the cache law: feeding `a` then `b` is feeding `a + b`.  `argmax` takes the lowest index.
- JSON documents are trees; the strings that the tools compare with or write are constants.

## Findings

- "Result path already exists" can be wrong, because `mkdir` raises the same `FileExistsError` as `link`.
  Making the parents raises it exactly on a blocked path: its first component that is not a directory is a
  dangling link, or is another file and the last component (`ParentPath.MakeParentsMeaning`).  Over every
  blocked path, such as below a regular file or anywhere below a dangling link, a publisher is refused though
  nothing is bound (`PublicationLimits.BlockedParentIsRefused`, `PublicationLimits.BlockedPaths`), and a
  refusal means a bound destination exactly if the path is not blocked at that moment
  (`PublicationLimits.RefusalMeansBoundIff`).  That can be read off the path at the start of the run as long
  as nobody else changes it; a publisher whose destination is itself a component of the path changes it.
  Besides, every random draw of a temporary name may hit an existing file
  (`PublicationLimits.LeftoverTemporaryIsRefused`).
- The publisher does not force the directory to disk, so a power loss can take a published name, and
  then a second publisher may return normally for the same path
  (`PublicationLimits.PowerLossAllowsTwoWinners`).  A destination stays the same exactly as long as no loss
  takes its name (`Publication.WriteOnceIff`).
- A destination is protected from being seen half-written exactly if it could not be the name of a
  temporary: the prefix and eight random characters (`PublicationLimits.NeverPartialIff`).
- As a function, the repeated masked argmax of the top-k oracle repeats index 0 once nothing above minus
  infinity is left; `Selection.PicksAreStableSortPrefix` gives the exact bound on k.  The harness itself
  only ever generates finite values, and there every `k <= n` is right (`Selection.HarnessTopK`).
- `raw_campaign_files` is right exactly if no repeat is lost before one that is not, where a repeat is lost
  if its file is not acceptable and its attempt fails (`LauncherVerdict.RawFilesCorrectIff`,
  `LauncherVerdict.FirstFailureMislabels`).
- An old `parity_record.json` stays beside a later consensus that is complete and invalid
  (`ParityRecord.OldRecordBesideInvalidConsensus`, `ParityRecord.SmallerRunLeavesStaleRecord`).
  `ParityRecord.CurrentIff` says exactly when the record on disk belongs to the consensus on disk.
- `--repeats 1` can never exit 0 (`LauncherVerdict.OneRepeatNeverSucceeds`), and a fused-MLP
  campaign of one round cannot be recomputed (`FusedMlpCampaign.RecomputeCampaign`).
- The launcher's check that run contexts are distinct cannot fire over files it wrote itself
  (`LauncherRuns.DistinctnessNeverFires`); it does fire when a campaign file is copied under another
  number (`LauncherVerdict.CopiedCampaignFailsTheRun`).
- The harness's check that the output is stable across measured iterations is unreachable: every
  iteration has matched the oracle before it is compared with the first one (asserted inside
  `MassiveHarness.MeasureIterations`).
- The Hub summary's own single-commit check can never fail (`ParityEvidence.SingleCommitCheckNeverFails`).
- The canonical record of a tokenizer identity is its own as long as no field holds a newline followed by a
  label (`TokenizerIdentity.RecordIdentifies`).  A valid identity in which one of two neighbouring text fields
  spells the boundary between them shares its record with another valid identity
  (`TokenizerIdentity.SpelledBoundaryCollides`), and any valid identity can be turned into such a pair
  (`TokenizerIdentity.EmbeddedNewlinesCollide`).
- Linear drift cancels from differences, not from relative improvements.  Alternating sweeps free the
  difference of two medians exactly for an even number of rounds (`Schedules.SweepCancelsDriftIffEven`).
  An ABBA round frees the difference of its means and the sign of its improvement
  (`AbbaDrift.PairUnderDrift`), and the improvement's value exactly if nothing drifts at the middle of the
  round or the variants are equal (`AbbaDrift.PairUnbiasedIff`).  An attention campaign is eligible exactly
  if the candidate's advantage reaches the floor in every round and exceeds the drift of one execution
  (`AbbaDrift.ReviewEligibleUnderDrift`).
- The campaign of single alternating pairs flags all pairs as positive exactly if the candidate's advantage
  exceeds the drift of one execution (`AlternatingPairs.AllPositiveIff`).  Its median relative improvement is
  biased: over two rounds it is that of the base costs exactly if nothing drifts or the candidate's cost minus the
  parent's is just the drift of one execution (`AlternatingPairs.TwoRoundsUnbiasedIff`), and over any even number of rounds of
  equal variants it is below zero for every drift but none (`AlternatingPairs.EqualVariantsUnderDrift`).

## Model

| member | source | states |
|---|---|---|
| `ChildCapture.RequestSize` | tools/nnis_hub_hf_generate.py:150 | every read asks for at least one byte and at most one byte over the budget |
| `ChildCapture.EmptyReadIsEof` | tools/nnis_hub_hf_generate.py:151-158 | an empty read is end of file: no writer is left and everything written was read |
| `ChildCapture.EnvironmentMovesCompose` | tools/nnis_hub_hf_generate.py:142-158 | any number of environment moves between two calls is one, and end of file is final |
| `ChildCapture.HandleReady` | tools/nnis_hub_hf_generate.py:147-163 | one ready pipe: captures stay faithful prefixes of the streams, a would-block costs time, a close removes the pipe, and giving up means that the stream exceeds the budget or the read itself failed |
| `ChildCapture.FullyCaptured` | tools/nnis_hub_hf_generate.py:142-163 | with both pipes unregistered the captures are the complete streams |
| `ChildCapture.Drain` | tools/nnis_hub_hf_generate.py:130-163 | the loop terminates for every child: at most 2*MAX+1 data reads, two end-of-file reads, and idle rounds paid for by the deadline |
| `ChildCapture.WaitForExit` | tools/nnis_hub_hf_generate.py:164-171 | closing both pipes is not completion: without an exit before the deadline the result is a timeout |
| `ChildCapture.RunNativeGeneration` | tools/nnis_hub_hf_generate.py:79-179 | a normal return is exit code zero with exactly every byte written to either pipe; every error has its call that failed, a stream over the budget, a deadline passed before both ends of file and the exit code were there, or the child's exit code behind it; so a call that is over before the deadline and in which nothing failed returns both streams, or one exceeds the budget, or the exit code is not zero; the child is reaped and the pipes closed on every path |
| `Publication.CompleteStep` | tools/nnis_hub_hf_generate.py:234-263 | every step of any publisher keeps every destination absent, as it was, or bound to one publisher's complete durable encoding |
| `Publication.CompletePowerLoss` | tools/nnis_hub_hf_generate.py:246-252 | a power loss keeps that too, because the file was forced to disk before it was linked |
| `Publication.AbsentOrComplete` | tools/nnis_hub_hf_generate.py:234-263 | in every reachable state of every run with crashes and power losses a bound destination holds its initial contents or one complete encoding |
| `Publication.WriteOnce` | tools/nnis_hub_hf_generate.py:253-256 | a bound destination keeps its file and contents over every run with crashes and power losses, as long as no loss takes its name |
| `Publication.WriteOnceIff` | tools/nnis_hub_hf_generate.py:253-256 | that guard is exact |
| `Publication.OneWinner` | tools/nnis_hub_hf_generate.py:242-263 | as long as no power loss takes the name, a publisher that returned has its own encoding published, and at most one returns per destination |
| `Publication.StepUnlinksOnlyOwnTemp` | tools/nnis_hub_hf_generate.py:257-263 | the only name a publisher removes is its own temporary, which still leads to the file it created and to no other publisher's |
| `Publication.TempStaysOwn` | tools/nnis_hub_hf_generate.py:246-263 | in every reachable state a publisher's temporary name leads to its own file |
| `Publication.OutcomesStep` | tools/nnis_hub_hf_generate.py:242-263 | every step keeps what the outcomes of all publishers for a destination claim true |
| `ParentPath.MakeParentsMeaning` | tools/nnis_hub_hf_generate.py:245 | making the parents raises FileExistsError exactly if the first component that is not a directory is a dangling link, or another file and the last; NotADirectoryError exactly if it is another file further up; otherwise it ends with directories all along |
| `PublicationLimits.RefusalMeansBoundIff` | tools/nnis_hub_hf_generate.py:240-256 | in every reachable state a publisher that is refused has a bound destination exactly if the path to its directory is not blocked then, and not blocked at the start of the run as long as nobody else changed it (a free temporary name having been found, and no loss having taken the destination) |
| `PublicationLimits.ParentStays` | tools/nnis_hub_hf_generate.py:245 | as long as nobody else changes where the path leads, no publisher and no power loss makes it blocked or unblocked |
| `PublicationLimits.BlockedParentIsRefused` | tools/nnis_hub_hf_generate.py:245-256 | over every blocked path, a run in which a publisher is told that its result exists, and nothing is bound |
| `PublicationLimits.BlockedPaths` | tools/nnis_hub_hf_generate.py:245 | a path that ends in a regular file is blocked, and so is one below a dangling link at any height |
| `PublicationLimits.LeftoverTemporaryIsRefused` | tools/nnis_hub_hf_generate.py:246-256 | so is one whose draws all hit a leftover temporary |
| `PublicationLimits.PowerLossAllowsTwoWinners` | tools/nnis_hub_hf_generate.py:246-263 | a run in which a power loss takes the name and two publishers return normally for one destination |
| `PublicationLimits.NeverPartialIff` | tools/nnis_hub_hf_generate.py:247 | over all runs a name is never seen half-written exactly if it is not the prefix followed by eight random characters |
| `Publication.TempNames` | tools/nnis_hub_hf_generate.py:247 | which names a temporary can have |
| `PublicationLimits.TempLikeDestinationCanBePartial` | tools/nnis_hub_hf_generate.py:247 | for every temporary-like name, a run that binds it to an unfinished file |
| `PublicationOutcomes.OsErrorIsEarned` | tools/nnis_hub_hf_generate.py:242-263 | over every run, a publisher told of an error other than the existing path had a call of its own that failed |
| `PublicationOutcomes.LinkedMeansReturned` | tools/nnis_hub_hf_generate.py:253-263 | over every run, whoever linked a destination last returns normally, whether or not its unlink fails, unless it is cut short |
| `PublicationOutcomes.LateLinkIsRefused` | tools/nnis_hub_hf_generate.py:253-256 | over every run, who links after the destination was bound is told that it exists, unless it is cut short |
| `PublicationCode.OthersMeetRely` | tools/nnis_hub_hf_generate.py:234-263 | what one publisher relies on between its calls is what every step of any other publisher does |
| `PublicationCode.OthersMeetRelyThroughout` | tools/nnis_hub_hf_generate.py:234-263 | so is any number of their steps in a row |
| `PublicationCode.WriteNewJson` | tools/nnis_hub_hf_generate.py:234-263 | the publisher's own code, under any interference: a normal return means absent before and bound to exactly this encoding now; a refusal means bound exactly if the path to the directory is not blocked, unless the draws of a temporary name were exhausted; any other error exactly if a call of its own had one; nothing bound is replaced, and nothing left behind unless an unlink failed |
| `PublicationContrast.ExclusiveNeverRebinds` | tools/nnis_hub_nnml1_parity_validate.py:119-130 | exclusive creation keeps every binding |
| `PublicationContrast.ExclusiveCanComplete` | tools/nnis_hub_nnml1_parity_validate.py:119-130 | a publisher left alone with a free destination can bind it to its complete encoding |
| `PublicationContrast.ExclusiveCrashIsForGood` | tools/nnis_hub_nnml1_parity_validate.py:119-130 | a publisher that crashes while it writes leaves its destination bound to the part it had written over every further run of any number of exclusive publishers |
| `PublicationContrast.ExclusiveLosesCompleteness` | tools/nnis_hub_nnml1_parity_validate.py:119-130 | and such a crash can come right after the creation |
| `PublicationContrast.ReplaceStaysComplete` | tools/observe_p0_physical_qualification.py:315-323 | every step of the replacing writer keeps destinations complete |
| `PublicationContrast.ReplaceRunsAreComplete` | tools/observe_p0_physical_qualification.py:315-323 | over every run of replacing writers without power loss destinations are complete |
| `PublicationContrast.ReplaceNeverSyncs` | tools/observe_p0_physical_qualification.py:315-323 | no step of a replacing writer makes a file durable |
| `PublicationContrast.ReplaceReturnsUnsynced` | tools/observe_p0_physical_qualification.py:323 | so a writer returns with its destination bound to a file that is not durable |
| `PublicationContrast.ReplaceLosesCompleteness` | tools/observe_p0_physical_qualification.py:315-323 | and a power loss after that may leave the destination bound to anything |
| `PublicationContrast.ReplaceRebinds` | tools/observe_p0_physical_qualification.py:315-323 | replacing a bound destination moves it to another file, so it is not write-once |
| `HubGeneration.AcceptableMeans` | tools/nnis_hub_hf_generate.py:45-75 | which requests are acceptable |
| `HubGeneration.Execute` | tools/nnis_hub_hf_generate.py:51-76 | an unacceptable request or a bound destination is refused and starts nothing; success is a child that completed, its full streams, and their encoding newly bound at the destination; every other ending has its justified failure of the capture, its encoding that does not exist, or its reason not to be published; before publication only others move the directory |
| `PassStructure.CeilDivIsLeast` | crates/nnis-bench/examples/reduction.rs:33 | the ceiling quotient is the least q with q times the divisor at least the dividend |
| `PassStructure.NestedCeilDiv` | crates/nnis-bench/examples/reduction.rs:32-41 | ceilings of quotients compose |
| `PassStructure.SizeAfterClosedForm` | crates/nnis-bench/examples/reduction.rs:32-41 | after i passes ceil(n / span^i) values are left |
| `PassStructure.TrafficIsSum` | crates/nnis-bench/examples/reduction.rs:32-41 | the values moved are the ceil(n / span^i) read and the ceil(n / span^(i + 1)) written by every pass i, and nothing else |
| `PassStructure.LeastPassCountUnique` | crates/nnis-bench/examples/reduction.rs:37-40 | there is one least p >= 1 with span^p >= n |
| `PassStructure.OverflowIsFinal` | crates/nnis-bench/examples/reduction.rs:34-36 | an overflow on the way means that the true byte total overflows |
| `PassStructure.TrafficAndPasses` | crates/nnis-bench/examples/reduction.rs:27-44 | the checked loop terminates and returns the least pass count and the true byte total, or nothing exactly when that total does not fit in 64 bits |
| `SummationError.ErrorIsAccumulated` | crates/nnis-bench/examples/reduction.rs:46-55 | evaluating any tree with rounded additions errs by at most the accumulated rounding of its nodes |
| `SummationError.GrowthBelowGamma` | crates/nnis-bench/examples/reduction.rs:49 | (1 + eps)^d - 1 is at most d eps / (1 - d eps) |
| `SummationError.TreeErrorBound` | crates/nnis-bench/examples/reduction.rs:46-55 | any tree with at most d inexact additions on a path is within gamma(d) times the sum of magnitudes of the exact sum |
| `SummationError.BitLengthIsCeilLog` | crates/nnis-bench/examples/reduction.rs:47 | the bit length of n - 1 is the least j with 2^j >= n |
| `SummationError.BlockDepth` | crates/nnis-kernels/src/reduction.rs:12-41 | a block of halving strides has at most ceil(log2 m) inexact additions on a path over the m elements it holds |
| `SummationError.BlockKeepsSums` | crates/nnis-kernels/src/reduction.rs:12-41 | a block adds every element once, and its padded lanes add nothing |
| `TreeReduction.PassSize` | crates/nnis-bench/examples/reduction.rs:33 | one pass leaves one partial sum per block |
| `TreeReduction.MultiPassCount` | crates/nnis-bench/examples/reduction.rs:27-44 | the multi-pass tree takes exactly the counted number of passes |
| `TreeReduction.MultiPassDepth` | crates/nnis-kernels/src/reduction.rs:977-1010 | over all passes together the inexact depth is at most ceil(log2 n), whatever the span |
| `TreeReduction.MultiPassKeepsSums` | crates/nnis-kernels/src/reduction.rs:977-1010 | the passes together add every element once |
| `TreeReduction.BoundDepthIsSmall` | crates/nnis-bench/examples/reduction.rs:47-49 | the denominator of the bound stays positive for every input length |
| `TreeReduction.ErrorBoundMeaning` | crates/nnis-bench/examples/reduction.rs:46-55 | the bound is exactly epsilon or s / (1 - s) of the sum of magnitudes, whichever is more, with s = (ceil(log2 n) + 1) epsilon |
| `TreeReduction.HarnessAcceptsEveryReduction` | crates/nnis-bench/examples/reduction.rs:46-55 | every multi-pass reduction in the kernel's order, of every input and with every rounding, is within the harness's bound of the exact sum |
| `TreeSumCode.HalveInPlace` | crates/nnis-kernels/src/reduction.rs:996-1002 | one stride of the shared lanes in place is the step of the tree |
| `TreeSumCode.SumBlock` | crates/nnis-kernels/src/reduction.rs:985-1004 | the block loop evaluates the tree of its block |
| `TreeSumCode.TreeSum` | crates/nnis-kernels/src/reduction.rs:977-1010 | the ordered sum evaluates the multi-pass tree and lies within the bound of the exact sum |
| `Attention.Rescale` | crates/nnis-kernels/src/attention.rs:117-136 | moving the reference point multiplies the running sum and accumulator by one factor |
| `Attention.AnyReferencePoint` | crates/nnis-bench/examples/attention.rs:162-169 | softmax at any reference point is the oracle's value, and its denominator is positive |
| `Attention.ShiftInvariance` | crates/nnis-bench/examples/attention.rs:162-169 | shifting all scores changes nothing |
| `Attention.OutputBetweenValues` | crates/nnis-bench/examples/attention.rs:165-169 | an output lies between the least and greatest value of its column |
| `Attention.OnlineStands` | crates/nnis-kernels/src/attention.rs:77-146 | the running maximum, sum and accumulator over chunks always stand for the exact sums over the keys so far |
| `Attention.OnlineEqualsReference` | crates/nnis-kernels/src/attention.rs:77-151 | the chunked online softmax equals the two-pass oracle for every length and chunk size |
| `Attention.ChunkCount` | crates/nnis-bench/examples/attention.rs:69-72 | it takes ceil(kv / chunk) chunks |
| `AttentionReference.ScoresMeaning` | crates/nnis-bench/examples/attention.rs:153-161 | every score is the scale times the sum of the products of the elements of its query row and its key row |
| `AttentionReference.ExpectedIsOutput` | crates/nnis-bench/examples/attention.rs:162-170 | what is expected of an element is the sum of the values of its column weighted by the exponentials of its row's scores, over the sum of those |
| `AttentionReference.Validate` | crates/nnis-bench/examples/attention.rs:147-185 | output of the right length is accepted exactly if no element is off that by more than 0.001 and 0.0001 of it, the result is then the greatest distance, attained, and a mismatch is the first element that is off |
| `AttentionReference.ValidateRow` | crates/nnis-bench/examples/attention.rs:162-182 | the column loop of one row |
| `AttentionReference.RowScores` | crates/nnis-bench/examples/attention.rs:153-161 | the scores of one row |
| `Selection.ArgMax` | crates/nnis-bench/examples/top_k.rs:66-71 | the greatest value, ties to the lowest index |
| `Selection.ScanMax` | crates/nnis-bench/examples/top_k.rs:66-71 | the scan finds it |
| `Selection.ValidateTopK` | crates/nnis-bench/examples/top_k.rs:64-81 | the device indices are accepted exactly when they are the repeated masked argmax, and a mismatch is the first |
| `Selection.RankedIsSort` | crates/nnis-bench/examples/top_k.rs:65-81 | the stable descending sort is ordered by value, then index |
| `Selection.RankedContents` | crates/nnis-bench/examples/top_k.rs:65-81 | and holds every index once |
| `Selection.PicksAreStableSortPrefix` | crates/nnis-bench/examples/top_k.rs:65-81 | the oracle is the first k of the stable sort exactly when k does not exceed the elements above minus infinity (plus one if element 0 is minus infinity) |
| `Selection.TopKMeaning` | crates/nnis-bench/examples/top_k.rs:65-81 | then the k indices are distinct, values non-increasing, ties by index, everything unpicked dominated |
| `Selection.HarnessTopK` | crates/nnis-bench/examples/top_k.rs:38-40 | on the values that the harness generates every k up to n is the prefix of the stable sort |
| `Selection.MaskedArgMaxCanRepeat` | crates/nnis-bench/examples/top_k.rs:80 | the oracle as a function: two minus infinities, which the harness never generates, are picked as the same index twice |
| `Binary16.RoundUnitsMonotone` | tools/tinyllama_1p1b_chat_fixture_v2.py:32-35 | rounding magnitudes is monotone |
| `Binary16.RoundUnitsOnGrid` | tools/tinyllama_1p1b_chat_fixture_v2.py:32-35 | the result is a binary16 magnitude |
| `Binary16.RoundUnitsNearest` | tools/tinyllama_1p1b_chat_fixture_v2.py:32-35 | it is the nearest one, ties to the even significand |
| `Binary16.RoundToF16Monotone` | tools/tinyllama_1p1b_chat_fixture_v2.py:32-35 | rounding is monotone on all extended values, overflow to infinity included |
| `Binary16.GridMeaning` | tools/tinyllama_1p1b_chat_fixture_v2.py:32-35 | the representable magnitudes are the integers below 2^11 times powers of two |
| `Binary16.RoundToF16Meaning` | tools/tinyllama_1p1b_chat_fixture_v2.py:32-35 | exactly magnitudes from 65520 on become infinite; any other value becomes a binary16 value of its sign than which none is nearer |
| `Binary16.RoundedArgMax` | tools/tinyllama_1p1b_chat_fixture_v2.py:32-35 | the argmax after rounding has the rounded maximum and an index no larger than before |
| `Decoding.GreedyPrefix` | tools/tinyllama_1p1b_chat_fixture.py:357-379 | decoding t steps is the first t tokens of decoding s >= t steps |
| `Decoding.GreedyToken` | tools/tinyllama_1p1b_chat_fixture.py:305-324 | token i is the choice from the logits of prompt and tokens before it |
| `Decoding.GreedyMeaning` | tools/tinyllama_1p1b_chat_fixture.py:305-324 | that is the lowest index of a greatest logit, taken as they are or after rounding to binary16 |
| `Decoding.GreedyTokens` | tools/tinyllama_1p1b_chat_fixture.py:305-324 | the cached loop equals uncached decoding: each token is the argmax of the logits, rounded if the policy says so, of prompt and tokens before it; it consumes prompt + steps - 1 positions |
| `Decoding.ReferenceLogits` | tools/smollm2_135m_fixture.py:281-350 | the recording loop takes the argmax of the unrounded logits, records the logits of every step, and consumes one position more |
| `Decoding.GenerateOnce` | tools/bench_smollm2_transformers.py:115-128 | so does the benchmark loop |
| `Decoding.F16OracleToken` | tools/tinyllama_1p1b_chat_fixture_v2.py:21-45 | each binary16-oracle token has the greatest logit after rounding, at the lowest index, which is no larger than the F32 argmax |
| `ReferenceSuite.ValidateCases` | crates/nnis-bench/examples/llama_f16_massive_abba.rs:163-218 | accepted exactly when there are cases, names differ and every case is valid, overflow of positions included |
| `ReferenceSuite.ValidCaseMeans` | crates/nnis-bench/examples/llama_f16_massive_abba.rs:176-217 | when a case is valid |
| `ReferenceSuite.DecodeValidatedCase` | crates/nnis-bench/examples/llama_f16_massive_abba.rs:207-217 | decoding a validated case never exceeds the model's positions |
| `ReferenceSuite.PromptIds` | tools/tinyllama_1p1b_chat_fixture.py:288-302 | exactly the target length, start token first, then the family's tokens cyclically |
| `ReferenceSuite.CaseNameInjective` | tools/tinyllama_1p1b_chat_fixture.py:361-372 | a case name determines family, length and steps |
| `ReferenceSuite.DecodePrompt` | tools/tinyllama_1p1b_chat_fixture.py:355-379 | the standard case cut from a deep decode holds its own greedy continuation |
| `ReferenceSuite.CaseContents` | tools/tinyllama_1p1b_chat_fixture.py:352-383 | the name, family, prompt and lengths of a built case, and each of its tokens as an argmax |
| `ReferenceSuite.BuildReferenceCases` | tools/tinyllama_1p1b_chat_fixture.py:352-383 | the builder emits 18 distinct cases, one per family and prompt length and a deep one per family, each with the greedy continuation of its prompt, all of which the harness accepts |
| `ReferenceSuite.BuiltSuiteIsValid` | tools/tinyllama_1p1b_chat_fixture.py:352-383 | whatever the builder has put together is a valid suite |
| `OrderStatistics.SortedIsSorted` | tools/bench_smollm2_transformers.py:92 | the sorted samples ascend |
| `OrderStatistics.SortedIgnoresOrder` | tools/bench_smollm2_transformers.py:88-102 | no statistic depends on the order of the samples |
| `OrderStatistics.PercentileMonotone` | tools/bench_smollm2_transformers.py:78-85 | monotone in the quantile |
| `OrderStatistics.PercentileDominates` | tools/bench_smollm2_transformers.py:78-85 | monotone in pointwise larger samples |
| `OrderStatistics.PercentileEnds` | tools/bench_smollm2_transformers.py:78-85 | quantiles 0 and 1 are the extremes |
| `OrderStatistics.PercentileMeaning` | crates/nnis-bench/src/lib.rs:465-478 | between two positions a percentile is on the line through the samples there |
| `OrderStatistics.MedianIsPercentile` | crates/nnis-bench/examples/smollm2_f16_attention_abba_consensus.rs:495-504 | the percentile at one half is the verifier's odd/even median |
| `OrderStatistics.MeanBetween` | tools/bench_smollm2_transformers.py:88-102 | the mean lies between the extremes |
| `OrderStatistics.VarianceBound` | tools/bench_smollm2_transformers.py:88-102 | variance is at most (max - mean)(mean - min) |
| `OrderStatistics.SummaryIsOrdered` | tools/bench_smollm2_transformers.py:88-102 | 0 <= min <= median <= p95 <= p99 <= max, min <= mean <= max, and the variance bound |
| `OrderStatistics.SummaryMeaning` | crates/nnis-bench/src/lib.rs:428-463 | every field of a summary: the extremes, the percentiles at 0.5, 0.95 and 0.99, the mean of the sum, and the variance as mean of squares less square of mean |
| `OrderStatistics.SummarizeIff` | crates/nnis-bench/src/lib.rs:428-442 | exactly empty and negative samples are rejected |
| `AbbaConsensus.ValidateCampaign` | crates/nnis-bench/examples/smollm2_f16_attention_abba_consensus.rs:387-438 | accepted exactly when 24 reports of one environment and plan are a bijection onto rounds 1..6 and slots A1, B1, B2, A2 with fitting modes and positive times; the evidence is then the rows of those cells |
| `AbbaConsensus.CollectRounds` | crates/nnis-bench/examples/smollm2_f16_attention_abba_consensus.rs:403-410 | collecting fails exactly on a duplicate cell |
| `AbbaConsensus.RoundEvidence` | crates/nnis-bench/examples/smollm2_f16_attention_abba_consensus.rs:441-493 | one row per round, or nothing exactly when a round is not acceptable |
| `AbbaConsensus.EvidenceIgnoresOrder` | crates/nnis-bench/examples/smollm2_f16_attention_abba_consensus.rs:387-493 | reordering the reports changes neither acceptance nor evidence |
| `AbbaConsensus.PairedIsWeightedMean` | crates/nnis-bench/examples/smollm2_f16_attention_abba_consensus.rs:472-490 | a paired improvement is the reference-weighted mean of its AB and BA improvements |
| `AbbaConsensus.ReviewEligibleMeaning` | crates/nnis-bench/examples/smollm2_f16_attention_abba_consensus.rs:517-598 | eligible exactly when all six paired values reach 3% and both order medians are positive |
| `AbbaConsensus.RowSays` | crates/nnis-bench/examples/smollm2_f16_attention_abba_consensus.rs:441-493 | a row holds, slot by slot, the times of the reports of its round that its metric is about |
| `AbbaConsensus.RoundSays` | crates/nnis-bench/examples/smollm2_f16_attention_abba_consensus.rs:472-490 | its three improvements over both, the first and the last reference time |
| `AbbaConsensus.SummarySays` | crates/nnis-bench/examples/smollm2_f16_attention_abba_consensus.rs:517-598 | wins, losses, ties and values at the floor are counted, and the three medians are those of the three improvements |
| `Schedules.Sweep` | tools/run_w1_lm_head_bf16_sweep.py:264-332 | every block collects one sample per round, at its scheduled position |
| `Schedules.MonotoneMedian` | tools/run_w1_lm_head_bf16_sweep.py:264-332 | the median of a rising or falling series is its middle |
| `Schedules.MedianUnderDrift` | tools/run_w1_lm_head_bf16_sweep.py:264-332 | a block's median under linear drift is its base plus the drift at one position |
| `Schedules.SweepCancelsDriftIffEven` | tools/run_f16_fused_mlp_e2e_abba.py:461-463 | differences of two medians are free of linear drift exactly when the number of rounds is even; pairs in alternating order are the case of two blocks |
| `AbbaDrift.PairUnderDrift` | crates/nnis-bench/examples/llama_f16_massive_abba.rs:744-760 | under linear drift an ABBA round's paired metric has the base costs' difference and sign of improvement, over a drifting reference |
| `AbbaDrift.PairUnbiasedIff` | crates/nnis-bench/examples/llama_f16_massive_abba.rs:744-760 | its relative improvement is that of the base costs exactly if the drift at the middle is zero or the costs are equal |
| `AbbaDrift.OwnPairUnderDrift` | crates/nnis-bench/examples/llama_f16_massive_abba.rs:744-808 | a case's pair from the medians of four drifting blocks has the base costs' difference and sign, and their relative improvement exactly if the drift at the middle is zero or the costs are equal |
| `AbbaDrift.AttentionRoundUnderDrift` | crates/nnis-bench/examples/smollm2_f16_attention_abba_consensus.rs:472-490 | the attention campaign's paired improvement keeps its sign too, while its AB and BA improvements shift by the drift of one execution in opposite directions |
| `AbbaDrift.ReviewEligibleUnderDrift` | crates/nnis-bench/examples/smollm2_f16_attention_abba_consensus.rs:517-598 | rounds under linear drift are eligible exactly if the advantage of the base costs reaches 3% of every round's drifting reference and exceeds the drift of one execution in size |
| `AlternatingPairs.SidesAreDrifting` | tools/run_f16_fused_mlp_e2e_abba.py:461-463 | the two sides of the alternating pairs are the drifting series of a schedule of two blocks |
| `AlternatingPairs.AllPositiveIff` | tools/run_f16_fused_mlp_e2e_abba.py:347-348 | over two or more drifting rounds all pairs are positive exactly if the advantage of the base costs exceeds the drift of one execution in size |
| `AlternatingPairs.CampaignFlagUnderDrift` | tools/run_f16_fused_mlp_e2e_abba.py:273-386 | that is what the flag of a recomputed campaign says when its reports drift |
| `AlternatingPairs.TwoRoundsUnbiasedIff` | tools/run_f16_fused_mlp_e2e_abba.py:341-346 | the median relative improvement of two drifting rounds is that of the base costs exactly if there is no drift, or the candidate's cost minus the parent's is the drift of one execution |
| `AlternatingPairs.MedianWithinDrift` | tools/run_f16_fused_mlp_e2e_abba.py:341-346 | over any even number of rounds, while the base costs differ by no more than the drift of one execution, the median is the mean of the last two rounds if times rise and of the first two if they fall |
| `AlternatingPairs.EqualVariantsUnderDrift` | tools/run_f16_fused_mlp_e2e_abba.py:341-346 | equal variants over any even number of rounds have equal medians and a median relative improvement, in closed form, that is never above zero and is zero exactly without drift |
| `FusedMlpCampaign.ReportFiles` | tools/run_f16_fused_mlp_e2e_abba.py:232-249 | accepted exactly when the matching names are one per plan for each round below some n |
| `FusedMlpCampaign.CountIsContiguous` | tools/run_f16_fused_mlp_e2e_abba.py:241-249 | that n is the number of leading rounds |
| `FusedMlpCampaign.ValidateRecordedOrder` | tools/run_f16_fused_mlp_e2e_abba.py:252-270 | a recorded order passes exactly when it lists every round with the candidate first in the odd ones |
| `FusedMlpCampaign.CollectPairs` | tools/run_f16_fused_mlp_e2e_abba.py:291-331 | pairs exactly when every report is valid and of one campaign |
| `FusedMlpCampaign.RecomputeCampaign` | tools/run_f16_fused_mlp_e2e_abba.py:273-390 | a summary exactly when the rounds are covered, a recorded order fits, all reports are valid and of one setting, and there are at least two rounds; it holds the statistics of their pairs |
| `FusedMlpCampaign.BothOrdersRun` | tools/run_f16_fused_mlp_e2e_abba.py:332-383 | parent-first rounds always have samples, candidate-first rounds exactly from two rounds on |
| `FusedMlpCampaign.PairsAreFromTimings` | tools/run_f16_fused_mlp_e2e_abba.py:293-331 | recomputed pairs are improvements of positive timings |
| `FusedMlpCampaign.FlagsMeanAllWins` | tools/run_f16_fused_mlp_e2e_abba.py:342-348 | all positive holds exactly when every pair was a win, and passing the floor exactly when moreover the median reaches 3% |
| `FusedMlpCampaign.ComparisonIsOrdered` | tools/run_f16_fused_mlp_e2e_abba.py:342-386 | wins, losses and ties cover the rounds, the improvement statistics are ordered, and saved time and speed-up agree |
| `AlternatingPairs.ComparisonMeaning` | tools/run_f16_fused_mlp_e2e_abba.py:332-390 | every field of the comparison: counts of faster and slower rounds, and the statistics of all, the even and the odd rounds |
| `FusedMlpCampaign.ConsensusIff` | tools/run_f16_fused_mlp_e2e_abba.py:499-540 | two runs reach consensus exactly if they are independent, of one setting, and clear wins in every round with medians of at least 3%; it reports the smaller of the two and their mean |
| `TokenizerIdentity.RecordIdentifies` | tools/tokenizer_reference_identity.py:201-220 | an identity in which no field holds a newline followed by a label is the only identity with its record |
| `TokenizerIdentity.SingleLineSpellsNoLabel` | tools/tokenizer_reference_identity.py:98-220 | validated identities of single-line fields are among those |
| `TokenizerIdentity.ValidIff` | tools/tokenizer_reference_identity.py:141-163 | what validation asks of the version, of the digests and of every text field |
| `TokenizerIdentity.FieldUnderLabel` | tools/tokenizer_reference_identity.py:201-220 | which field stands on which line, after which label |
| `TokenizerIdentity.RecordLine` | tools/tokenizer_reference_identity.py:201-220 | the record is its fourteen lines in that order |
| `TokenizerIdentity.SpelledBoundaryCollides` | tools/tokenizer_reference_identity.py:201-220 | a validated identity shares its record with another one if, of two neighbouring text fields, the first holds the newline and label between them after some text, or the second holds them before some |
| `TokenizerIdentity.EmbeddedNewlinesCollide` | tools/tokenizer_reference_identity.py:201-220 | from any validated identity, at any two neighbouring text fields and for any texts, two different validated identities that share a record |
| `ParityEvidence.ValidateAll` | tools/validate_nnml1_multi_model_parity_evidence.py:136-171 | a list validates exactly when each record does |
| `ParityEvidence.RecordAcceptedIff` | tools/validate_nnml1_multi_model_parity_evidence.py:84-171 | a record is accepted exactly if it names a registered checkpoint with its own source, all its observations are exact, and it either has no logits or logits compared without a failure |
| `ParityEvidence.SuiteAcceptedIff` | tools/validate_nnml1_multi_model_parity_evidence.py:228-249 | a suite is accepted exactly if its records are, share its commit, and name both checkpoints |
| `Json.EqualsOne` | tools/validate_nnml1_multi_model_parity_evidence.py:136-138 | what equals version 1 |
| `Json.HexDigits` | tools/validate_nnml1_multi_model_parity_evidence.py:84-99 | which strings are digests: lower-case hexadecimal digits of the exact number |
| `Json.PythonSpaces` | tools/validate_nnml1_multi_model_parity_evidence.py:56-60 | which characters stripping removes |
| `ParityEvidence.AtMostTwoNames` | tools/validate_nnml1_multi_model_parity_evidence.py:29-47 | accepted records name at most the two registered checkpoints |
| `ParityEvidence.BuildSuiteIff` | tools/validate_nnml1_multi_model_parity_evidence.py:252-272 | composing succeeds exactly when all records validate, share one commit and name both checkpoints |
| `ParityEvidence.BuiltSuite` | tools/validate_nnml1_multi_model_parity_evidence.py:228-272 | a composed suite is a fixed point of validation, counts two checkpoints, and holds the records given |
| `ParityEvidence.SingleCommitCheckNeverFails` | tools/nnis_hub_nnml1_parity_validate.py:60-81 | the summary's single-commit check never fails on validated evidence |
| `ParityEvidence.SuiteSummary` | tools/nnis_hub_nnml1_parity_validate.py:60-108 | a suite's summary names both checkpoints, counts two, and carries the suite's commit |
| `ParityEvidence.BuildRecordIff` | tools/validate_nnml1_multi_model_parity_evidence.py:174-225 | a record is built exactly from a registered identity, well-formed digests and complete exact counts |
| `ParityEvidence.BuiltRecordSummary` | tools/nnis_hub_nnml1_parity_validate.py:60-108 | every built record is accepted by the summary, as one checkpoint of its commit |
| `CampaignValidation.CountMeaning` | tools/run_tinyllama_massive_campaign.py:199-265 | counting succeeds exactly on well-shaped documents, counts every case there is, and all are exact exactly when each case is |
| `CampaignValidation.CountIsOfLeaves` | tools/run_tinyllama_massive_campaign.py:216-258 | the three counters are the numbers of cases, of successful ones, and of those that equal the oracle |
| `CampaignValidation.AllExactIsOfLeaves` | tools/run_tinyllama_massive_campaign.py:252-265 | exactness is that of every case |
| `CampaignValidation.CollectSemanticValidation` | tools/run_tinyllama_massive_campaign.py:199-265 | the counters of the nested loops are the recursive count, faults included |
| `CampaignValidation.SingleReport` | tools/run_tinyllama_massive_campaign_v2.py:33-37 | one report is counted exactly when it is well-shaped, and all exact exactly when every case is |
| `CampaignValidation.CompleteCampaignMeaning` | tools/run_tinyllama_massive_campaign_v2.py:18-50 | version 2 accepts exactly the identity-valid reports that are complete and exact in every case and every round's evidence |
| `CampaignValidation.ExactCampaigns` | tools/run_tinyllama_massive_campaign.py:252-265 | fully exact campaigns are counted in full, and exactly |
| `MassiveHarness.MedianIsNonNegative` | crates/nnis-bench/src/lib.rs:430-466 | the median of a summarizable sample is non-negative |
| `MassiveHarness.WarmUp` | crates/nnis-bench/examples/llama_f16_massive_abba.rs:550-555 | warm-ups pass exactly when each reproduces the oracle |
| `MassiveHarness.MeasureIterations` | crates/nnis-bench/examples/llama_f16_massive_abba.rs:557-587 | the measured loop passes exactly when each iteration reproduces the oracle; it holds the oracle's tokens and the samples of those iterations |
| `MassiveHarness.MeasureCase` | crates/nnis-bench/examples/llama_f16_massive_abba.rs:544-615 | a measurement exactly when every attempt reproduces the oracle, every series can be summarized and the GPU median is positive |
| `MassiveHarness.ReproducesMeans` | crates/nnis-bench/examples/llama_f16_massive_abba.rs:550-587 | what an attempt must report to reproduce its oracle |
| `MassiveHarness.MeasurableMeans` | crates/nnis-bench/examples/llama_f16_massive_abba.rs:544-615 | when a case is measurable: all attempts reproduce, there is an iteration, all five times are finite and not negative, and the GPU median is positive |
| `MassiveHarness.MeasurementHolds` | crates/nnis-bench/examples/llama_f16_massive_abba.rs:557-615 | a measurement holds the five times of every measured attempt, each under its metric, and their medians |
| `MassiveHarness.MaxActiveRows` | crates/nnis-bench/examples/llama_f16_massive_abba.rs:222-228 | the greatest KV-row demand, attained by some case |
| `MassiveHarness.RunBlock` | crates/nnis-bench/examples/llama_f16_massive_abba.rs:617-728 | one entry per case whatever happens, in suite order or reversed; failed blocks list every case as failed |
| `MassiveHarness.StartsMeans` | crates/nnis-bench/examples/llama_f16_massive_abba.rs:617-690 | when a block starts, a staged plan needing rows for each case |
| `MassiveHarness.EntriesSay` | crates/nnis-bench/examples/llama_f16_massive_abba.rs:655-728 | every entry is about the case whose turn it is, forwards or from the last case to the first, and holds the oracle's tokens if it succeeded and no result otherwise |
| `MassiveHarness.StagedBlockHoldsEveryCase` | crates/nnis-bench/examples/llama_f16_massive_abba.rs:629-641 | a staged block with any success holds the KV rows of every case |
| `MassiveHarness.BlockSuccessIff` | crates/nnis-bench/examples/llama_f16_massive_abba.rs:691-695 | a block succeeds exactly when it starts and every case is measurable on it |
| `MassiveHarness.LookUpFindsOwnCase` | crates/nnis-bench/examples/llama_f16_massive_abba.rs:730-732 | names being distinct, looking a case up by name finds its own measurement in either order |
| `MassiveHarness.LookUpIsOwnMedian` | crates/nnis-bench/examples/llama_f16_massive_abba.rs:730-742 | the looked-up median is that of the case's own samples |
| `MassiveCampaign.RunRound` | crates/nnis-bench/examples/llama_f16_massive_abba.rs:801-821 | a round is reference, candidate, candidate, reference in slots A1, B1, B2, A2 over one case order, odd rounds reversed, with its paired evidence |
| `MassiveCampaign.RunCandidate` | crates/nnis-bench/examples/llama_f16_massive_abba.rs:800-826 | every round is reported, and complete means all of them |
| `MassiveCampaign.Run` | crates/nnis-bench/examples/llama_f16_massive_abba.rs:788-865 | every candidate and round is reported whatever fails, and the report is complete exactly when all are |
| `MassiveCampaign.PairsAreOwn` | crates/nnis-bench/examples/llama_f16_massive_abba.rs:744-784 | paired metrics pair each case's own medians, whatever the case order, and a GPU pair always exists |
| `MassiveCampaign.EvidenceIsOwn` | crates/nnis-bench/examples/llama_f16_massive_abba.rs:762-784 | the evidence of a round: under each case's name and the candidate's, the means of its own outer and inner medians and the improvement between them, metric by metric |
| `MassiveCampaign.RoundCompleteIff` | crates/nnis-bench/examples/llama_f16_massive_abba.rs:809-814 | a round is complete exactly when its four blocks succeed and the wall and request medians are positive on both sides |
| `MassiveCampaign.CampaignCompleteIff` | crates/nnis-bench/examples/llama_f16_massive_abba.rs:798-814 | so is the campaign, over all rounds and candidates |
| `MassiveEvidence.ValidSuiteIsRunnable` | crates/nnis-bench/examples/llama_f16_massive_abba.rs:166-218 | what suite validation guarantees is all that the evidence theorems ask of a campaign |
| `MassiveEvidence.ReportDocument` | tools/run_tinyllama_massive_campaign.py:199-265 | every report the producer emits passes the validator's shape checks, whatever failed |
| `MassiveEvidence.RoundSaysOwnMedians` | crates/nnis-bench/examples/llama_f16_massive_abba.rs:762-784 | in the document of a complete round, the GPU times and the three improvements of each case are those of its own medians |
| `MassiveEvidence.CandidateSays` | crates/nnis-bench/examples/llama_f16_massive_abba.rs:822-825 | a candidate's report is under its plan's name |
| `MassiveEvidence.EveryReportIsCounted` | tools/run_tinyllama_massive_campaign.py:216-258 | the semantic count of an emitted report succeeds with observations equal to expected |
| `MassiveEvidence.AllExactIffBlocksSucceed` | tools/run_tinyllama_massive_campaign.py:252-265 | the validator's exactness flag holds exactly when every block succeeded |
| `MassiveEvidence.CompleteIsExact` | crates/nnis-bench/examples/llama_f16_massive_abba.rs:810-814 | a complete report is exact in every case with complete evidence |
| `MassiveEvidence.AcceptedIffComplete` | tools/run_tinyllama_massive_campaign_v2.py:18-50 | version 2 accepts an emitted report exactly when its identity is right and it says that it is complete |
| `MassiveEvidence.EveryReportIsDescribable` | tools/run_tinyllama_massive_campaign.py:357-374 | every report the producer emits can be summarized descriptively: no lookup and no sorting raises |
| `CaseObservations.WellNamedCampaigns` | tools/run_tinyllama_massive_campaign.py:357-394 | campaigns whose evidence is named by strings never make the descriptive summaries raise |
| `CaseObservations.ObserveIff` | tools/run_tinyllama_massive_campaign.py:357-374 | which pieces of evidence raise when they are looked up |
| `CaseObservations.IteratedIff` | tools/run_tinyllama_massive_campaign.py:357-374 | which values can be looped over without raising |
| `CaseObservations.SortableIff` | tools/run_tinyllama_massive_campaign.py:387-420 | when sorting the cells raises |
| `CaseObservations.ComparableIff` | tools/run_tinyllama_massive_campaign.py:387-420 | two values can be ordered exactly if both are numbers, both strings, or they are the same |
| `CaseObservations.SameValueCases` | tools/run_tinyllama_massive_campaign.py:357-374 | which different values are one cell: true and 1, false and 0, an integer and the float of its value |
| `CampaignLauncher.AcceptedFacts` | tools/run_tinyllama_massive_campaign.py:157-196 | an accepted report carries the expected commit and run context, and under version 2 is complete and exact |
| `LauncherConsensus.AcceptedIff` | tools/run_tinyllama_massive_campaign.py:157-196 | which fields make a report acceptable, a clean tree among them |
| `LauncherConsensus.NormalizedEqualIff` | tools/run_tinyllama_massive_campaign.py:145-154 | environments are equal exactly if they differ in nothing but time, commit, its state and run context |
| `LauncherConsensus.SemanticMeaning` | tools/run_tinyllama_massive_campaign.py:199-265 | the semantic count of any reports exists exactly if each can be counted, is of all cases they declare, and is exact exactly if every case of every report is |
| `LauncherConsensus.ConsensusIff` | tools/run_tinyllama_massive_campaign.py:377-428 | for either version a consensus comes about exactly on accepted, independent, countable and describable reports, and is valid exactly for two or more of one environment that say they are complete and are exact in every case |
| `LauncherConsensus.ConsensusSays` | tools/run_tinyllama_massive_campaign.py:422-450 | what each of its fields says of the reports |
| `LauncherCode.RunDirectory.CollectCampaigns` | tools/run_tinyllama_massive_campaign.py:512-526 | the loop over the repeats, file by file, is the recursive account of it |
| `LauncherCode.RunDirectory.Launch` | tools/run_tinyllama_massive_campaign.py:512-575 | a run, with every failure and kill, leaves the files and exit code of that account |
| `LauncherCode.RunDirectory.LaunchAll` | tools/run_tinyllama_massive_campaign.py:491-575 | so does any sequence of runs |
| `LauncherRuns.SuffixDetermines` | tools/run_tinyllama_massive_campaign.py:518 | the repeat number can be read back from a run context |
| `LauncherRuns.TurnsKeepSafe` | tools/run_tinyllama_massive_campaign.py:512-526 | however far a run comes, every campaign file that parses was written for its own repeat |
| `LauncherRuns.HistoryKeepsSafe` | tools/run_tinyllama_massive_campaign.py:491-575 | that holds over every history of runs of either version, at any commit, with kills and failures anywhere |
| `LauncherRuns.TurnsCollect` | tools/run_tinyllama_massive_campaign.py:512-526 | campaigns in use are accepted, stand on disk under their own numbers, in order, and every repeat is used or recorded as failed |
| `LauncherRuns.TurnsPartition` | tools/run_tinyllama_massive_campaign.py:512-526 | every repeat of an unstopped loop is in use or recorded as failed under its own run context, and never both |
| `LauncherRuns.DistinctnessNeverFires` | tools/run_tinyllama_massive_campaign.py:384-386 | the run contexts in use are pairwise distinct, so the distinctness check never fires |
| `LauncherRuns.AcceptedOnDiskIsExact` | tools/run_tinyllama_massive_campaign_v2.py:139-147 | after any history from an empty directory, what the version 2 loader accepts is complete, exact and its own repeat's |
| `LauncherVerdict.ZeroMeansQualified` | tools/run_tinyllama_massive_campaign.py:535-575 | exit code 0 on any disk: the consensus on disk is valid and sound, its raw files are the campaigns used in order, and the parity record was built from it |
| `LauncherConsensus.LaunchSucceedsIff` | tools/run_tinyllama_massive_campaign.py:491-575 | either version exits 0 on any disk exactly if the loop was not stopped and lost no repeat, its reports qualify, and recording the result succeeds |
| `LauncherConsensus.ReportsAreSources` | tools/run_tinyllama_massive_campaign.py:512-526 | the reports of a run that loses nothing are, in order, the accepted files on disk and what the harness emits for the others |
| `LauncherConsensus.LoadMeaning` | tools/run_tinyllama_massive_campaign.py:272-280 | a file that is missing, torn or an unacceptable object is no campaign, and one that is no object makes the launcher fail |
| `LauncherConsensus.ResumeTakesFile` | tools/run_tinyllama_massive_campaign.py:512-517 | an accepted file is taken up, whatever the harness would do |
| `LauncherConsensus.NoResumeMeasures` | tools/run_tinyllama_massive_campaign.py:512-517 | without resuming a repeat is measured, whatever is on disk |
| `LauncherConsensus.ContextSays` | tools/run_tinyllama_massive_campaign.py:507-518 | a run context names the tool, the short commit, the time and the repeat |
| `LauncherConsensus.LossIsReported` | tools/run_tinyllama_massive_campaign.py:527-575 | a run that loses a repeat exits 1, lists the loss in its file and in a consensus that is not valid, and leaves the record alone |
| `LauncherConsensus.NoKillNoDeath` | tools/run_tinyllama_massive_campaign.py:491-575 | a run in which nothing is killed ends with an exit code |
| `LauncherConsensus.KilledWritesEndTheRun` | tools/run_tinyllama_massive_campaign.py:535-545 | and one killed at a write that it reaches does not |
| `LauncherConsensus.RecordSays` | tools/run_tinyllama_massive_campaign.py:546-567 | the fields of the parity record |
| `LauncherVerdict.OneRepeatNeverSucceeds` | tools/run_tinyllama_massive_campaign.py:422-423 | fewer than two repeats never exit 0 |
| `LauncherVerdict.ParityChangesOnlyWithValidConsensus` | tools/run_tinyllama_massive_campaign.py:546-567 | the record file changes only after a valid consensus, and the run exits 0 unless that write is cut off |
| `ParityRecord.CurrentIff` | tools/run_tinyllama_massive_campaign.py:535-567 | after a run the record on disk belongs to the valid consensus on disk exactly if the run exits 0, or left a current pair's consensus alone, or rewrote the same consensus and stopped before the record |
| `ParityRecord.OldRecordBesideInvalidConsensus` | tools/run_tinyllama_massive_campaign.py:535-567 | with one accepted campaign on disk, a run of one repeat leaves any old record beside a complete, invalid consensus |
| `ParityRecord.SmallerRunLeavesStaleRecord` | tools/run_tinyllama_massive_campaign.py:535-567 | so does a one-repeat run after any success at the same commit |
| `LauncherVerdict.V2ConsensusIff` | tools/run_tinyllama_massive_campaign.py:422-428 | on version 2 reports a consensus is built exactly if they can be described, and is valid exactly for at least two campaigns with equal normalized environments |
| `LauncherVerdict.V2ZeroIff` | tools/run_tinyllama_massive_campaign_v2.py:139-147 | version 2 exits 0 exactly when no repeat was lost, at least two campaigns share an environment and can be described, and recording the result succeeds |
| `LauncherVerdict.UsedIffNotLost` | tools/run_tinyllama_massive_campaign.py:512-526 | a repeat's campaign is used exactly if, by the files at the start and its own attempt, it is not lost |
| `LauncherVerdict.RawFilesCorrectIff` | tools/run_tinyllama_massive_campaign.py:451 | the raw file list is the campaigns used exactly if, by the files at the start and the attempts, no repeat is lost before one that is not |
| `LauncherVerdict.FirstFailureMislabels` | tools/run_tinyllama_massive_campaign.py:451 | when repeat 1 fails and repeat 2 succeeds the list names file 1 for campaign 2 |
| `LauncherVerdict.CopiedCampaignFailsTheRun` | tools/run_tinyllama_massive_campaign.py:384-386 | a campaign file copied under another number makes the run exit 1 with the files untouched |
| `LauncherVerdict.ResumeIsStable` | tools/run_tinyllama_massive_campaign.py:512-517 | after exit code 0 the same run measures nothing and reproduces the same files and exit code |
| `QualifiedCampaign.FreshRun` | tools/run_tinyllama_massive_campaign.py:512-526 | in a fresh directory, or without resuming, a run uses every delivered report, in order |
| `QualifiedCampaign.CompleteTrialsQualify` | tools/run_tinyllama_massive_campaign.py:491-575 | complete harness campaigns in one environment, launched twice or more under either version, fresh or without resuming, with working files, exit 0 with their consensus and parity record on disk |

## Left out

- CUDA, kernels, allocator, KV-cache and model loading: what a device does is an input of the model.
- Block sizes that are not powers of two, and rounding of an addition with zero: adding a zero pad is exact by assumption.
- The reference sum of the reduction harness, which adds in double precision, is taken as the exact sum.
- Floating point in attention scores, softmax and timing statistics: exact reals, so overflow to infinity and NaN do not occur.  With no keys the attention oracle divides zero by zero and accepts every element; the model says so explicitly.
- Binary32 itself: logits are exact reals or infinities before rounding to binary16; NaN logits are left out.
- Text encoding, hashing, subprocesses, git, argument parsing, downloads: encoding is a function, SHA-256 digests are strings.
- Report fields that no modelled validator reads, error messages, and the Markdown summary's text.
- The numbers in the launcher's descriptive case and candidate summaries: the model has the observations behind them and knows when looking them up or sorting them raises.
- Environment equality in the launcher is structural; Python also equates 1, 1.0 and True.
- Very large JSON integers that overflow a Python float.
- `statistics.fmean` and `statistics.stdev` in the descriptive summaries, which can overflow on very large finite improvements, and the Markdown write, which fails on a lone surrogate in a candidate's name.
- AbbaConsensus.ValidateCampaign: takes reports that passed their own field-by-field validation, a long chain of pinned equalities, and compares environments as values where `require_compatible_environment` compares field by field.
- FusedMlpCampaign.CollectPairs: the field-by-field validation of each raw report is one flag.
- FusedMlpCampaign.RecomputeCampaign: rests on that flag; the semantic gate it records is a constant.
- TokenizerIdentity.RecordIdentifies: spelling no label is sufficient for a record of its own, not necessary: between it and `SpelledBoundaryCollides` lie fields that spell a label of a field further off, or the boundary of a version or digest, or one that would leave a blank field.
- The two-campaign step of the attention consensus adds only equality checks between two accepted campaigns.
- White space in names is ASCII where Rust's `trim` is Unicode (`ReferenceSuite`).
- Would-block reads: the kernel is assumed to spend at least one clock unit on each, and an empty readiness report to spend its timeout.  Capture time is in whole nanoseconds.
- Removal of the result directory by others between two calls of one publisher, beyond what a power loss may take; the exclusive-creation and replacing writers are modelled from an existing directory on.
- Making the parent directories is one step, so two publishers do not make the same parents at once; a link that leads to itself counts as another file.
- `--force-fixture`, fixture generation and the build of the benchmark binary, which precede the launcher's loop.
- The consumers of suites beyond the Hub summary, and the INT4, INT2 and CSC reference projections.
