# Verified models of LeapFlow's algorithms

LeapFlow records what a user does, abstracts the recording into actions and skills, reads layered
configuration, and measures itself with a benchmark runner. This project models the algorithms at
the centre of that and proves what they are for.

- **Consensus distillation** (`Consensus`, `Subsequences`): the table and traceback of the longest
  common subsequence are optimal; folding it over demonstrations is common to all of them, and is a
  longest such sequence exactly for at most two demonstrations.
- **Layered configuration** (`Letters`, `EnvNames`, `LayeredConfig`, `ConfigPriority`): dictionaries
  keep insertion order. Splitting, nesting, merging and flattening of `LEAPFLOW_*` variables round-trip
  exactly for prefix-free environments, and the environment has the last word exactly when the YAML
  tree has no clash.
- **Benchmark runner** (`TrialStatuses`, `Runner`, `ParallelRunner`, `Resume`): retries, the shared
  counters, and the concurrent mode as interleaved atomic steps. The steps are: a task begins, waits for
  the semaphore, acquires it, or ends an attempt; leaving the semaphore, counting and setting the abort
  flag are one step because nothing is awaited in between. Results are for all interleavings. Resuming
  is proved for sequential and concurrent runs in either role.
- **Action abstraction** (`Actions`, `UndoCollapse`, `ContiguousPasses`, `PatternLibrary`, `PairPlans`,
  `PairingRules`, `FilterRules`, `FileEffects`, `Abstraction`): every pass is a loop proved against a list
  function.
  Two relations compose over any chain of passes: `Derived` (each output spans inputs, in order of the
  starts) and `Blocking` (the input is cut into consecutive blocks, one output per block).
- **Smaller algorithms**: episode segmentation (`Segmenter`), three percentile implementations and the
  bounded latency window (`Means`, `Percentiles`), quota eviction (`CacheQuota`), the import closure behind test
  selection (`ImpactClosure`), causal chains (`CausalChain`) and deployment gates (`Gates`).

`dafny verify dfyconfig.toml` checks everything.

## What the proofs found

The code is modelled as it is. Where a promise does not hold for all inputs, a lemma names inputs that
break it and another says exactly when it holds.

- The module comment of `consensus.py` presents the result as the common subsequence of three
  demonstrations. The pairwise fold can lose shared steps from three demonstrations on
  (`Consensus.FoldMissesCommonSteps`); it is optimal for all inputs exactly up to two
  (`Consensus.FoldLongestIffAtMostTwo`). With a minimum of zero or less and no analysable trajectory
  the distiller indexes an empty list (`Consensus.DistillConsensus`).
- Environment variables do not always win over YAML. Flattening upper-cases names and the last write
  wins, so a YAML key such as `a_b` after `a` keeps `LEAPFLOW_A_B` from having any effect
  (`ConfigPriority.UnderscoreKeyDefeatsVariable`). `ConfigPriority.EnvironmentWinsIffNoClash` gives the
  condition, one variable at a time; it looks at the names up to case. A condition on sibling keys alone
  that suffices is in `ConfigPriority.SeparatedHasNoClash`.
- Fail-fast stops new trials, not retries: a trial already running goes on calling the adapter after
  the abort. Exactly the settings without that are in `ParallelRunner.NoLateCallIff`.
- `SKIPPED` is not terminal, so a scenario whose adapter reports it is executed again on resume, and only
  such a one is (`Resume.NothingExecutedTwice`, `Resume.TogetherExecutedOnce`); a third run fed with the
  second run's file repeats what the second one skipped (`Resume.ThirdRunForgets`).
- Steps lose their key codes when they become actions, so the undo collapse that opens the pipeline
  never acts there (`Abstraction.UndoNeverActsOnLiftedSteps`). Outside the pipeline it skips lists of one
  action, which shows exactly on a single undo or redo (`UndoCollapse.ShortListsAreSkipped`).
- With an empty pattern in the library the matcher stays at one position for ever, unless longest matches
  happen to tile the whole list (`PatternLibrary.ScanEndsIff`, `PatternLibrary.AllScansEndIff`).
- Pairing two events across another action makes ranges overlap (`PairingRules.PairingCanOverlap`).
  Ranges stay disjoint exactly if every event that has a partner has it next to it
  (`PairingRules.DisjointIffNeighbours`).
- The first detector given to the segmenter replaces the default ones, so it can join episodes
  (`Segmenter.FirstDetectorCanCoarsen`); when it only refines is in `Segmenter.AddingDetectorsRefinesIff`.
- A one-action list keeps the trace of an unfinished download (`FilterRules.TempTraceLeftIff`).
- Evicting one cache entry can remove the file of another that is kept (`CacheQuota.TwoEntriesOneFile`);
  for which entries some quota does so is in `CacheQuota.SharedPathLosesFile`. Expiry is not limited to
  the manager's own profile (`CacheQuota.Cache.CleanupExpired`).
- A changed source that was deleted and that the coverage map does not know adds nothing to the selected
  tests, and only such a source never does (`ImpactClosure.SourceAddsNothingIff`).
- Combining no gates is conditional, so the empty list is not neutral (`Gates.JoinLawHoldsIff`).

## Model

| member | source | states |
|---|---|---|
| Consensus.LcsOptimal | src/leapflow/analysis/consensus.py:88-112 | For all two sequences the list walked back through the table is common to both, and no common subsequence is longer. |
| Consensus.NoLongerCommon | src/leapflow/analysis/consensus.py:94-99 | Entry (i, j) of the table bounds the length of every common subsequence of the two prefixes. |
| Consensus.WalkBackIsCommon | src/leapflow/analysis/consensus.py:101-112 | The walk from (i, j) yields a common subsequence of the prefixes whose length is entry (i, j). |
| Consensus.FillRow | src/leapflow/analysis/consensus.py:94-99 | Filling row i in place leaves every row up to i holding the lengths of the longest common subsequences. |
| Consensus.Lcs | src/leapflow/analysis/consensus.py:88-112 | The imperative table and traceback return exactly the sequence that is proved optimal. |
| Consensus.FoldIsCommon | src/leapflow/analysis/consensus.py:58-60 | Folding over all demonstrations yields a subsequence of every one of them. |
| Consensus.FoldStepIsLongest | src/leapflow/analysis/consensus.py:58-60 | Each step of the fold takes a longest common subsequence of what is left and the next demonstration, starting with the first. |
| Consensus.FoldLongestIffAtMostTwo | src/leapflow/analysis/consensus.py:58-60 | For k demonstrations the fold is a longest subsequence common to all, whatever they are, if and only if k is at most 2; the documentation presents it as the common subsequence of three. |
| Consensus.FoldMissesCommonSteps | src/leapflow/analysis/consensus.py:58-63 | For every k of at least 3, k concrete demonstrations that share two steps and whose fold is empty. |
| Consensus.ConsensusStepIsEverywhere | src/leapflow/analysis/consensus.py:65-69 | Each consensus step has the number of demonstrations as its frequency. |
| Consensus.FrequencyIsTotal | src/leapflow/analysis/consensus.py:65-69 | A step's frequency is at most the number of demonstrations, and equal to it exactly when the step occurs in every one. |
| Consensus.CountSteps | src/leapflow/analysis/consensus.py:65-69 | The counting loops hold, for each step, the number of demonstrations it occurs in. |
| Consensus.FoldDemonstrations | src/leapflow/analysis/consensus.py:58-60 | The loop over the demonstrations computes the fold that is common to all of them. |
| Consensus.SelectDemonstrations | src/leapflow/analysis/consensus.py:46-53 | By position: one demonstration for each trajectory with episodes, in their order, the earliest of its longest episodes, equal ones included. |
| Consensus.SelectionIsUnique | src/leapflow/analysis/consensus.py:46-53 | That determines the demonstrations. |
| Consensus.MeanFrequency | src/leapflow/analysis/consensus.py:65-73 | The mean relative frequency of a non-empty consensus is exactly 1. |
| Consensus.DistillConsensus | src/leapflow/analysis/consensus.py:40-85 | A candidate results exactly when at least the minimum of trajectories has episodes and their demonstrations, selected by position, share at least two folded steps; its steps are common to all of them and its confidence is exactly 0.95; a minimum of zero or less with no demonstration indexes an empty list. |
| EnvNames.JoinSplitEnvKey | src/leapflow/config_loader.py:286-301 | Joining the segments of a split variable name gives the name back, compound keys or not. |
| EnvNames.SplitEnvKeyLoop | src/leapflow/config_loader.py:286-301 | The search from the longest tail splits off the longest compound key that ends the name. |
| EnvNames.SplitEnvKeySpec | src/leapflow/config_loader.py:286-301 | Segments have no underscore except that the last may be a compound key; if the name ends in compound keys behind an underscore, the last segment is the longest of them. |
| EnvNames.EnvPathName | src/leapflow/config_loader.py:150-301 | The name flattening gives the path of a variable is that variable's name in upper case. |
| EnvNames.EnvPathInjective | src/leapflow/config_loader.py:261-301 | Variables whose paths are flattened to the same name have the same path. |
| LayeredConfig.MergeSpec | src/leapflow/config_loader.py:139-147 | What each key of a deep merge holds, and that base keys keep their place in the order in front of new ones. |
| LayeredConfig.MergeLeaves | src/leapflow/config_loader.py:139-147 | Every leaf of the overlay survives the merge, and no path gets a value that neither side had. |
| LayeredConfig.MergeLeafLaw | src/leapflow/config_loader.py:139-147 | What a merge has at a path: the overlay's leaf; nothing exactly if the overlay has no leaf there but a mapping at the path or a leaf above it, or neither side a leaf; else the base's leaf. |
| LayeredConfig.EnvVars.Flatten | src/leapflow/config_loader.py:150-160 | Writing into the shared dictionary adds exactly what the tree contributes, later fields overriding earlier ones. |
| LayeredConfig.LastFieldWins | src/leapflow/config_loader.py:150-160 | When two fields write the same name, the value is that of the later one. |
| LayeredConfig.RenderReadsBack | src/leapflow/config_loader.py:155-160 | What is written for a value can be read back: flags, texts, and lists whose items have no comma; only null is not written. |
| LayeredConfig.WrittenComesFromLeaf | src/leapflow/config_loader.py:150-160 | Every flattened value is the text of a leaf whose path has that name. |
| LayeredConfig.EnvOverrides | src/leapflow/config_loader.py:261-284 | The loop over the environment builds the trie of all variables with the prefix. |
| LayeredConfig.InsertLeaves | src/leapflow/config_loader.py:274-284 | Inserting a variable sets its own path, removes exactly the leaves above and below it, and leaves all others. |
| LayeredConfig.RoundTripIffPrefixFree | src/leapflow/config_loader.py:150-301 | Flattening the trie of an environment, in whatever order it lists its variables, reproduces the name-to-value map if and only if no variable's path extends another's. |
| LayeredConfig.RoundTrip | src/leapflow/config_loader.py:150-301 | The round trip for every prefix-free environment. |
| ConfigPriority.EnvironmentWinsIffNoClash | src/leapflow/config_loader.py:76-301 | For every tree of YAML values: each variable of each environment whose path no other variable's extends or prefixes keeps its own value after merge and flatten, if and only if no leaf of the tree lies behind a key through which a variable of the same name is inserted. |
| ConfigPriority.SeparatedHasNoClash | src/leapflow/config_loader.py:139-301 | Such a leaf cannot exist if keys are in lower case and, in no mapping at any depth, is one key followed by an underscore a prefix of another. |
| ConfigPriority.EnvironmentWinsOverSeparated | src/leapflow/config_loader.py:76-301 | So over layers without such sibling keys every variable independent of the others wins. |
| ConfigPriority.VariableWins | src/leapflow/config_loader.py:139-160 | One variable keeps its value when no YAML leaf of its name comes after its path. |
| ConfigPriority.ShadowedPathLoses | src/leapflow/config_loader.py:139-160 | A variable whose path is shadowed by a later leaf of the same name never has any effect on that name. |
| ConfigPriority.UnderscoreKeyDefeatsVariable | src/leapflow/config_loader.py:139-301 | The smallest such tree: with keys a (a mapping) and a_b on file, LEAPFLOW_A_B overrides nothing. |
| ConfigPriority.LaterLayerWins | src/leapflow/config_loader.py:76-85 | A leaf of the last layer is the merged leaf, and every merged leaf comes from some layer. |
| ConfigPriority.LayersLeafLaw | src/leapflow/config_loader.py:76-85 | The merged layers have a leaf exactly if some layer has it and no later layer has a leaf at, a leaf above or a mapping at its path. |
| ConfigPriority.Load | src/leapflow/config_loader.py:45-94 | Loading merges the layers in order, resolves secrets, merges the environment last and flattens; without a clash each variable that is independent of the others has its own value in the result, whatever those others are. |
| Runner.Context.RetrySpec | src/benchmarks/runner.py:136-156 | A scenario passes after retries exactly when some attempt from here on passes. |
| Runner.RunWithRetry | src/benchmarks/runner.py:136-156 | The retry loop returns the first passing attempt, otherwise the last one. |
| Runner.RunProgress.RunOneScenario | src/benchmarks/runner.py:174-230 | One scenario run alone: resumed, skipped after an abort, or executed, with the exact effect on all counters and on the record of what was executed. |
| Runner.VisitedSpec | src/benchmarks/runner.py:274-279 | Sequential mode visits the scenarios up to and including the first failure under fail-fast, or all. |
| Runner.RunSequential | src/benchmarks/runner.py:267-279 | The results are those of exactly that prefix, the adapter was called for exactly its incomplete scenarios, the counters account for them, and the run is aborted exactly when the last one failed under fail-fast. |
| ParallelRunner.EveryRunKeepsInv | src/benchmarks/runner.py:174-283 | Every state of every interleaving satisfies the invariant on tasks, counters, results and adapter calls. |
| ParallelRunner.BoundedAndFailFast | src/benchmarks/runner.py:195-267 | In every interleaving at most max(1, max_parallel) trials execute, a first attempt never starts after an abort, and no attempt is made twice. |
| ParallelRunner.NoLateCallIff | src/benchmarks/runner.py:143-230 | No adapter call of any kind ever follows an abort if and only if fail-fast is off, retries are off, or at most one trial runs at once: a running trial keeps retrying after the abort. |
| ParallelRunner.NeverStuck | src/benchmarks/runner.py:195-283 | An unfinished state always has an enabled step. |
| ParallelRunner.RunsAreBounded | src/benchmarks/runner.py:143-283 | No interleaving is longer than scenarios times (retries + 3) steps. |
| ParallelRunner.FinishedAccounting | src/benchmarks/runner.py:220-283 | At the end each scenario has exactly one result, and completed plus skipped-by-abort is the number of scenarios. |
| ParallelRunner.AbortIsScheduleIndependent | src/benchmarks/runner.py:220-226 | Whether a finished run aborted does not depend on the interleaving. |
| ParallelRunner.SameAsSequential | src/benchmarks/runner.py:274-283 | Without an abort every interleaving ends with the results and counters of the sequential run. |
| Resume.SavedExactlyTerminal | src/benchmarks/cli.py:430-436 | Of a sequential or concurrent first run, the ids a resumed run skips are exactly those of the scenarios with a terminal trial in the result file. |
| Resume.TerminalInSequential | src/benchmarks/runner.py:274-279 | The file of a sequential run, a prefix if it aborted, has a terminal trial for exactly the visited scenarios that ended with one. |
| Resume.TerminalInConcurrent | src/benchmarks/runner.py:280-283 | The file of a concurrent run has one for exactly the scenarios whose task ended with one. |
| Resume.TerminalIffExecuted | src/benchmarks/runner.py:174-230 | In either mode a scenario has a terminal trial exactly if the adapter was called for it and did not report it skipped. |
| Resume.ResumeExecutesTheRest | src/benchmarks/runner.py:176-193 | Whatever the modes and whatever happened in the first run, a resumed run calls the adapter only for scenarios without a terminal trial, and for all of them unless it aborts. |
| Resume.NothingExecutedTwice | src/benchmarks/runner.py:136-218 | In either mode of either run, whatever retries or aborts there were, finished or not: a scenario is executed in both runs only if the adapter reported it skipped in the first. |
| Resume.TogetherExecutedOnce | src/benchmarks/runner.py:136-218 | If the second run ends without an abort, every scenario is executed in one of the two, and in both exactly in that case. |
| Resume.ThirdRunForgets | src/benchmarks/models.py:54-63 | A third run resumed from the second run's file alone executes again what the second run skipped. |
| Actions.DerivedTransitive | src/leapflow/analysis/abstractor.py:243-248 | The relation "each output spans inputs, ordered by first input" composes. |
| Actions.DerivedKeepsProvenance | src/leapflow/analysis/abstractor.py:243-248 | Such outputs keep starts strictly increasing and ranges non-empty and in bounds, and are no more than the inputs. |
| Actions.BlockingTransitive | src/leapflow/analysis/abstractor.py:243-248 | Cuttings into consecutive blocks, one output per block, compose. |
| Actions.BlockingKeepsSortedDisjoint | src/leapflow/analysis/abstractor.py:62-85 | Such a cutting keeps sorted, disjoint ranges sorted and disjoint. |
| UndoCollapse.FoldIsTheNormalForm | src/leapflow/analysis/denoise.py:42-55 | The stack's result is a normal form reached by rewriting (action·undo, redo and leading undo to nothing), and every rewriting that ends in a normal form ends there. |
| UndoCollapse.NormalIffPlain | src/leapflow/analysis/denoise.py:42-80 | A list admits no rewriting exactly when it holds neither undo nor redo. |
| UndoCollapse.Collapse | src/leapflow/analysis/denoise.py:42-55 | The push-and-pop loop computes that result. |
| UndoCollapse.CollapseIdempotent | src/leapflow/analysis/denoise.py:42-55 | Collapsing twice is collapsing once. |
| UndoCollapse.CollapseIsSubsequence | src/leapflow/analysis/denoise.py:42-55 | The result is a subsequence of the input. |
| UndoCollapse.ShortListsAreSkipped | src/leapflow/analysis/denoise.py:43-44 | The early return misses the normal form exactly on a list of one undo or redo. |
| ContiguousPasses.RunEndSpec | src/leapflow/analysis/denoise.py:108-125 | A run holds only actions that join it and ends where the next does not. |
| ContiguousPasses.FindRunEnd | src/leapflow/analysis/synthesis.py:453-466 | The scan for the end of a run finds that maximal run. |
| ContiguousPasses.ScanIsBlocking | src/leapflow/analysis/abstractor.py:62-85 | Idempotent merge, window management, batch moves, grouping and file-system patterns cut their input into consecutive blocks, a merged block's range being (first start, last end); with minimum runs of two or more they leave single actions unchanged. |
| ContiguousPasses.TooShortToMerge | src/leapflow/analysis/synthesis.py:434-657 | The early returns for short lists agree with the scan. |
| ContiguousPasses.IdempotentMerge | src/leapflow/analysis/denoise.py:92-154 | The loop returns the blocking of the idempotent runs. |
| ContiguousPasses.WindowManagement | src/leapflow/analysis/synthesis.py:655-714 | The loop returns the blocking of the window runs of at least the minimum length. |
| ContiguousPasses.BatchMoveLoop | src/leapflow/analysis/synthesis.py:434-510 | The loop returns the blocking of the moves into one folder of at least the minimum number. |
| FileEffects.BatchMovesKeepFiles | src/leapflow/analysis/synthesis.py:434-510 | Replayed on any set of files, the batches do what the moves did. |
| ContiguousPasses.Grouping | src/leapflow/analysis/abstractor.py:62-150 | The loop returns the blocking of the groups of one kind, and of typing into one application. |
| ContiguousPasses.GroupingKeepsTyped | src/leapflow/analysis/abstractor.py:62-118 | Grouping loses no typed character and keeps their order. |
| ContiguousPasses.FileSystemPatterns | src/leapflow/analysis/fs_pattern_pass.py:306-369 | The loop returns the blocking of the first file-system pattern that accepts at each position. |
| FileEffects.FsPatternsKeepFiles | src/leapflow/analysis/fs_pattern_pass.py:169-369 | Recognizing deletions, renames and new documents does to any set of files what the events did, where no folder is created. |
| ContiguousPasses.OrganizingIff | src/leapflow/analysis/fs_pattern_pass.py:110-166 | A folder is organized exactly if at least two moves below it follow its creation at once. |
| ContiguousPasses.DeletingIff | src/leapflow/analysis/fs_pattern_pass.py:169-202 | Deletions are merged exactly from two in a row on. |
| ContiguousPasses.MergedIff | src/leapflow/analysis/denoise.py:92-106 | When each pass merges at a position: how many of the actions that follow have to continue the run. |
| Actions.LeastConfidenceSpec | src/leapflow/analysis/abstractor.py:139-150 | A merged confidence is reached by one action of the block and exceeded by none. |
| PatternLibrary.MatchAllIsLeftmostLongest | src/leapflow/analysis/patterns.py:123-175 | Matches are in bounds, in order and disjoint, each is as long as any pattern matching at its start, and no pattern matches at a position left uncovered, whatever the order of the library. |
| PatternLibrary.LeftmostLongestIsUnique | src/leapflow/analysis/patterns.py:123-149 | Those conditions determine the matched spans. |
| PatternLibrary.MatchesAreEarliest | src/leapflow/analysis/patterns.py:123-149 | Each match is of the longest pattern matching at its start, and of several as long of the one added first. |
| PatternLibrary.MatchesStretch | src/leapflow/analysis/patterns.py:151-166 | A pattern matches where its elements accept the stretch of actions of the same length one by one. |
| PatternLibrary.ScanEndsIff | src/leapflow/analysis/patterns.py:129-149 | The scan of a list ends if and only if the library has no empty pattern, or longest matches tile the whole list without a gap. |
| PatternLibrary.AllScansEndIff | src/leapflow/analysis/patterns.py:129-149 | All scans of a library end, for every list and every way of comparing, if and only if none of its patterns is empty. |
| PatternLibrary.NextIndexIs | src/leapflow/analysis/patterns.py:133-149 | A step of the scan goes behind the longest match, stays where it is if only an empty pattern matches, and else goes on by one. |
| PatternLibrary.Library.FindMatches | src/leapflow/analysis/patterns.py:123-149 | The library's matcher returns the list that is proved leftmost-longest. |
| PatternLibrary.ScanMatches | src/leapflow/analysis/patterns.py:129-149 | The scanning loop jumps behind each match and computes that list. |
| PatternLibrary.TryPatterns | src/leapflow/analysis/patterns.py:137-145 | At a position the first matching pattern of the sorted list is taken. |
| PatternLibrary.Library.AddPattern | src/leapflow/analysis/patterns.py:113-115 | The pattern is appended to the library. |
| PatternLibrary.Library.RemovePattern | src/leapflow/analysis/patterns.py:117-121 | All patterns of the name go, the others stay in order, and the answer says whether there was one. |
| PatternLibrary.PatternsAreBlocking | src/leapflow/analysis/abstractor.py:166-211 | Replacing matches is a blocking; it leaves single actions unchanged if no pattern has length one. |
| PatternLibrary.AbstractedSays | src/leapflow/analysis/abstractor.py:184-206 | A match becomes an action of the pattern's name and confidence; a parameter is what the pattern extracts, else what the last action of the match that has it says. |
| PatternLibrary.PatternPass | src/leapflow/analysis/abstractor.py:166-211 | The splice loop returns the input with every match replaced. |
| PairPlans.EachPositionOnce | src/leapflow/analysis/synthesis.py:74-96 | A scan that skips consumed positions accounts for every position exactly once, whatever chooses the partners. |
| PairingRules.PairsUseEachEventOnce | src/leapflow/analysis/synthesis.py:74-382 | In each pairing rule every input is either kept unchanged or in exactly one pair of the rule (i < j <= i + max_gap, right kind, different paths; for inotify a cookie shared by no third), outputs follow the order of first positions, and outputs plus pairs equal inputs. |
| PairingRules.NearestPartner | src/leapflow/analysis/synthesis.py:98-142 | An unconsumed partner inside the window is never passed over for a later one. |
| PairingRules.CookiePartnerIff | src/leapflow/analysis/synthesis.py:1199-1230 | An inotify rename is paired with another exactly when that is a later rename with its cookie and no third one carries it. |
| PairingRules.PairUp | src/leapflow/analysis/synthesis.py:74-348 | The loop with its growing consumed set returns that pairing. |
| PairingRules.InotifyPairs | src/leapflow/analysis/synthesis.py:1199-1230 | Without any cookie the rename heuristics apply, otherwise only cookies count. |
| FileEffects.PairedOutput | src/leapflow/analysis/synthesis.py:74-189 | Every output of a pairing rule is an input it kept, or, replayed on a set of files, removes the first event's path and adds the second's; it is a rename exactly if the rename rule finds the folder unchanged, and else a move. |
| FileEffects.PairMovesTheFile | src/leapflow/analysis/synthesis.py:144-189 | The same for one pair, with the new path as its path. |
| PairingRules.PairingCanOverlap | src/leapflow/analysis/synthesis.py:144-189 | Pairing across an action in between turns disjoint ranges into overlapping ones. |
| PairingRules.DisjointIffNeighbours | src/leapflow/analysis/synthesis.py:74-382 | For every pairing rule and all sorted, disjoint ranges the result is sorted and disjoint if and only if, from left to right, every event with a partner has it next to it. |
| PairingRules.NeighboursAreBlocks | src/leapflow/analysis/synthesis.py:74-382 | In that case the rule is a blocking that leaves single actions unchanged, like the contiguous passes. |
| PairingRules.NeighboursIffAdjacent | src/leapflow/analysis/synthesis.py:74-382 | That condition on the input says that all pairs that are formed are of adjacent positions. |
| FilterRules.FocusIsRepeatFree | src/leapflow/analysis/synthesis.py:279-303 | No kept switch goes to the app the action before it switched to, and repeat-free lists are unchanged. |
| FilterRules.FocusIsSubsequence | src/leapflow/analysis/synthesis.py:279-293 | Removing repeated focus keeps a subsequence. |
| FilterRules.FocusKeepsOthers | src/leapflow/analysis/synthesis.py:279-293 | Only switches are removed. |
| FilterRules.DuplicateFocus | src/leapflow/analysis/synthesis.py:279-293 | The loop computes that list. |
| FilterRules.DetoursAreDropped | src/leapflow/analysis/denoise.py:172-217 | A dropped action lies between a switch and the switch back within the window with nothing of substance between, and a kept switch has no such return. |
| FilterRules.DistractionsKeepSubstance | src/leapflow/analysis/denoise.py:172-217 | No file operation, clipboard copy or typing is ever dropped as a distraction, and they keep their order. |
| FilterRules.FilterDistractions | src/leapflow/analysis/denoise.py:172-187 | The index loop drops exactly the detours. |
| FilterRules.DialogsAreDropped | src/leapflow/analysis/synthesis.py:915-951 | A dropped action lies between a permission dialog and the first switch out of it, and a dialog that is kept has no such switch in its window. |
| FilterRules.FilterPermissions | src/leapflow/analysis/synthesis.py:915-937 | The loop with its growing noise set drops exactly those dialogs. |
| FilterRules.TempTraceLeftIff | src/leapflow/analysis/synthesis.py:812-845 | The rule leaves the creation or modification of an unfinished download if and only if the list was that one action, which it returns unchanged. |
| FilterRules.DownloadsKeepOthers | src/leapflow/analysis/synthesis.py:812-838 | Whatever is no trace of an unfinished download and lies in no finished one is kept. |
| FilterRules.DownloadsComeFrom | src/leapflow/analysis/synthesis.py:812-838 | Everything in the result is an action that was kept, or the download made of a creation and the step that completes it. |
| FileEffects.DownloadAddsFinalFile | src/leapflow/analysis/synthesis.py:870-895 | A download adds the file where its last step left it: the destination, or else the path, or else the target. |
| FilterRules.CompletionIsFirst | src/leapflow/analysis/synthesis.py:847-868 | A download ends at the first action in its window that completes it. |
| FilterRules.SynthesizeDownloads | src/leapflow/analysis/synthesis.py:812-838 | The loop replaces each download by one action and drops unfinished traces. |
| FilterRules.GatheredIsBlocking | src/leapflow/analysis/synthesis.py:1076-1104 | Gather-and-compose replaces one contiguous stretch by one action and leaves everything else. |
| FilterRules.GatherSays | src/leapflow/analysis/synthesis.py:1076-1187 | There is something to gather exactly if two or more cycles all paste into one app; the action names it and counts them. |
| FilterRules.FragmentsAreInOrder | src/leapflow/analysis/synthesis.py:1106-1135 | Copy-paste cycles lie in bounds, one behind the other. |
| FilterRules.FragmentsAreCycles | src/leapflow/analysis/synthesis.py:1106-1135 | Each cycle is a copy and a paste behind it inside the window, with the app pasted into. |
| FilterRules.FragmentsAreComplete | src/leapflow/analysis/synthesis.py:1106-1135 | Every copy is part of a cycle unless no paste follows it in its window. |
| FilterRules.PasteIsFirst | src/leapflow/analysis/synthesis.py:1143-1153 | A copy is paired with the first paste in its window. |
| FilterRules.FindFragments | src/leapflow/analysis/synthesis.py:1106-1135 | The search loop collects exactly those cycles. |
| FilterRules.GatherCompose | src/leapflow/analysis/synthesis.py:1076-1104 | The rule replaces the stretch from the first copy to the last paste. |
| Abstraction.Abstract | src/leapflow/analysis/abstractor.py:223-283 | On n steps the conservative pipeline returns at most n actions with starts strictly increasing in 0..n-1 and start < end <= n. |
| Abstraction.ConservativeOrder | src/leapflow/analysis/abstractor.py:230-248 | The pipeline denoises, then pairs events, then composes, then recognizes, each part working on the result of the one before. |
| Abstraction.EventOrder | src/leapflow/analysis/synthesis.py:1324-1329 | Focus, windows, renames and modifications are treated in this order. |
| Abstraction.CompositionOrder | src/leapflow/analysis/synthesis.py:1330-1334 | Then batches, permission dialogs, downloads and gathering. |
| Abstraction.PipelineProvenance | src/leapflow/analysis/abstractor.py:243-248 | The same for every list of the modelled stages in any order. |
| Abstraction.PipelineIsDerived | src/leapflow/analysis/synthesis.py:1336-1349 | In any chain of stages each output spans a stretch of inputs, in the order of the starts. |
| Abstraction.StageIsDerived | src/leapflow/analysis/synthesis.py:1324-1334 | Each stage on its own has that property. |
| Abstraction.RunStages | src/leapflow/analysis/synthesis.py:1336-1349 | Running the loops one after the other computes the chain of stages. |
| Abstraction.ContiguousChainIsBlocking | src/leapflow/analysis/abstractor.py:243-248 | Any chain of contiguous passes, in any order, cuts its input into consecutive blocks, one output per block, singletons unchanged where each pass leaves them so. |
| Abstraction.ContiguousChainKeepsSortedDisjoint | src/leapflow/analysis/abstractor.py:243-248 | Such a chain keeps sorted, disjoint ranges sorted and disjoint. |
| Abstraction.UndoNeverActsOnLiftedSteps | src/leapflow/analysis/abstractor.py:250-283 | Converting steps to actions drops key codes and modifiers, so the undo collapse at the head of the pipeline never changes anything. |
| Segmenter.Segment | src/leapflow/analysis/segmenter.py:271-311 | The episodes partition [0, n) into non-empty stretches, cut exactly where some detector reports a boundary. |
| Segmenter.EveryStepInOneEpisode | src/leapflow/analysis/segmenter.py:287-311 | Each step lies in an episode, and episodes do not overlap. |
| Segmenter.MergeBoundaries | src/leapflow/analysis/segmenter.py:279-285 | The merged boundaries are increasing and exactly those of all detectors. |
| Segmenter.BuiltIsCut | src/leapflow/analysis/segmenter.py:287-311 | Building episodes from sorted edges, empty ones skipped, cuts exactly at the boundaries. |
| Segmenter.BuildEpisodes | src/leapflow/analysis/segmenter.py:287-311 | The episodes built from the merged boundaries are those between neighbouring edges. |
| Segmenter.BuildBetween | src/leapflow/analysis/segmenter.py:292-305 | The loop over the edges builds one episode between different neighbours and none between equal ones. |
| Segmenter.DetectedInBounds | src/leapflow/analysis/segmenter.py:52-258 | Every detector reports strictly increasing positions between 1 and n. |
| Segmenter.TimeGapReports | src/leapflow/analysis/segmenter.py:52-67 | The time-gap detector reports exactly the steps that come so much later than the one before. |
| Segmenter.AppSwitchesReports | src/leapflow/analysis/segmenter.py:70-91 | The app-switch detector reports exactly the switches, after a pause, to another app than the one in front. |
| Segmenter.RefinesIff | src/leapflow/analysis/segmenter.py:287-311 | Every episode of one segmentation lies inside one of another exactly if the first has all inner boundaries of the second. |
| Segmenter.AddingDetectorsRefinesIff | src/leapflow/analysis/segmenter.py:268-285 | Adding detectors refines the segmentation, except that the first ones given replace the defaults: then it does exactly if they report every inner boundary of those. |
| Segmenter.FirstDetectorCanCoarsen | src/leapflow/analysis/segmenter.py:268-320 | The exception occurs: a maximum length given alone gives up the cut at a gap of five minutes. |
| Segmenter.EpisodesAreShort | src/leapflow/analysis/segmenter.py:187-235 | With a maximum length in use (or the adaptive one on a long session) no episode has more signal steps than that. |
| Segmenter.LongGapsAreBoundaries | src/leapflow/analysis/segmenter.py:52-67 | The merged boundaries include every gap at or above the threshold of a detector in use. |
| Segmenter.NoLongGapInside | src/leapflow/analysis/segmenter.py:52-67 | With the time-gap detector in use no two neighbours inside an episode are as far apart as the threshold. |
| Segmenter.SemanticBoundariesAreSpaced | src/leapflow/analysis/segmenter.py:123-156 | Semantic boundaries are at least the minimum length apart, and behind the first signal step. |
| Segmenter.RunIsMaximal | src/leapflow/analysis/segmenter.py:137-154 | The running counter is the length of the longest stretch that stays in the domain or merely navigates. |
| Segmenter.BeforeIsLast | src/leapflow/analysis/segmenter.py:137-154 | The domain in effect is that of the last step that does not merely navigate, or of the first step. |
| Segmenter.FindShifts | src/leapflow/analysis/segmenter.py:133-156 | The counter loop reports exactly the significant shifts that keep the distance. |
| Segmenter.DetectSemantic | src/leapflow/analysis/segmenter.py:123-156 | Applied to the signal steps only, and to none when there are too few. |
| Segmenter.ChunksAreFull | src/leapflow/analysis/segmenter.py:198-207 | Each maximum-length chunk ends with its last allowed signal step, and the rest has fewer. |
| Segmenter.DetectMaxLength | src/leapflow/analysis/segmenter.py:198-207 | The counting loop reports the ends of those chunks. |
| Segmenter.MinLengthFilterIsBest | src/leapflow/analysis/segmenter.py:245-258 | The filter's boundaries keep the minimum distance, and no other choice that does keeps more of them. |
| Segmenter.SpacedDropsOnlyClose | src/leapflow/analysis/segmenter.py:245-258 | A boundary is left out only if it is too close to one kept before it, or to the start. |
| Segmenter.Thin | src/leapflow/analysis/segmenter.py:245-258 | The loop thins the boundaries in that greedy way. |
| Segmenter.Detect | src/leapflow/analysis/segmenter.py:41-258 | Each detector's loop reports the positions its definition says. |
| Segmenter.AppsSpec | src/leapflow/analysis/segmenter.py:323-332 | The application sequence has each non-empty id of the steps once. |
| Segmenter.AppsGrow | src/leapflow/analysis/segmenter.py:323-332 | More steps only add ids at the end. |
| Segmenter.AppSequence | src/leapflow/analysis/segmenter.py:323-332 | The loop lists the ids in order of first appearance. |
| Percentiles.ImplementationsAgree | src/benchmarks/metrics.py:197-207 | All three implementations return the same value for every non-empty sample and every p in [0, 100]. |
| Percentiles.InterpolationsAgree | src/benchmarks/native/realtime_local.py:219-227 | Each way of writing the interpolation is the piecewise linear curve through the sorted samples. |
| Percentiles.AtMiddle | src/benchmarks/metrics.py:197-207 | Between two neighbouring samples the curve is straight. |
| Percentiles.PercentileEnds | src/benchmarks/metrics.py:197-207 | Percentile 0 is the least value and percentile 100 the greatest. |
| Percentiles.MedianOfTwo | src/benchmarks/metrics.py:197-207 | The median of two values lies halfway between them. |
| Percentiles.PercentileIsMonotone | src/benchmarks/metrics.py:197-207 | A percentile lies between least and greatest value and grows with p. |
| Percentiles.OrderDoesNotMatter | src/benchmarks/metrics.py:201 | A percentile depends on the values only, not on their order. |
| Percentiles.RollingIsMonotone | src/leapflow/performance.py:55-64 | The clamped quantile of sorted samples lies between the extremes and grows with the quantile. |
| Percentiles.SummaryIsOrdered | src/leapflow/performance.py:38-52 | In every summary minimum <= p50 <= p95 <= p99 <= maximum, the mean between the extremes. |
| Percentiles.SummaryExtremes | src/leapflow/performance.py:38-52 | Minimum and maximum are samples and bound every sample. |
| Percentiles.SummaryMatchesMetrics | src/leapflow/performance.py:38-52 | The percentiles of a snapshot are percentiles 50, 95 and 99 as the benchmark metrics compute them. |
| Percentiles.SummaryMean | src/leapflow/performance.py:47 | Its mean is that of the samples, sorted or not. |
| Percentiles.RollingLatency.Observe | src/leapflow/performance.py:34-36 | The window is the latest `capacity` of all clamped observations ever made. |
| Percentiles.RollingLatency.Snapshot | src/leapflow/performance.py:38-52 | After any history the snapshot is the ordered summary of those. |
| Percentiles.RollingLatency.constructor | src/leapflow/performance.py:30-32 | The capacity is at least one. |
| Percentiles.JitterIsOrdered | src/benchmarks/metrics.py:210-231 | The jitter percentiles are non-negative and ordered. |
| Percentiles.JumpsAt | src/benchmarks/metrics.py:214-222 | Jitter is taken over the distances between consecutive durations. |
| Percentiles.JitterReversed | src/benchmarks/metrics.py:210-231 | Jitter is the same when the durations are read backwards. |
| CacheQuota.Cache.CleanupQuota | src/leapflow/cache/manager.py:171-205 | The index loses exactly the evicted prefix of the age order, the files exactly the managed paths of it, and the answer counts it. |
| CacheQuota.ShortestPrefix | src/leapflow/cache/manager.py:186-198 | The evicted prefix is the shortest whose removal meets the quota. |
| CacheQuota.QuotaIsMet | src/leapflow/cache/manager.py:171-205 | Afterwards the entries the filter selects are the rest of the order and within the quota; entries outside the filter are untouched. |
| CacheQuota.OldestGoFirst | src/leapflow/cache/manager.py:191 | No evicted entry was used later than a kept one. |
| CacheQuota.LatestGoesLast | src/leapflow/cache/manager.py:191-212 | The most recently used entry is evicted only if every entry is. |
| CacheQuota.TouchedGoesLast | src/leapflow/cache/manager.py:191-212 | In the entries' own times: an entry touched later than any time on record is evicted only if every listed entry is. |
| CacheQuota.FirstRegisteredGoesFirst | src/leapflow/cache/manager.py:191-198 | Of two entries not used since they were registered, the one registered later goes only if the other does. |
| CacheQuota.OthersStay | src/leapflow/cache/manager.py:180-205 | An entry of another profile or scope, or of another category, workspace or session than asked for, stays as it is. |
| CacheQuota.SelectedAreListed | src/leapflow/cache/manager.py:180-191 | Every other entry counts towards the quota. |
| CacheQuota.SortByAgeSpec | src/leapflow/cache/manager.py:191 | The order is a permutation of the rows by last access, or creation. |
| CacheQuota.Cache.UnlinkOldest | src/leapflow/cache/manager.py:189-198 | The eviction loop unlinks and collects exactly that prefix. |
| CacheQuota.QuotaSeparates | src/leapflow/cache/manager.py:186-198 | Some quota evicts one position of the age order and nothing from a later one on exactly if the entries between have any size. |
| CacheQuota.SharedPathLosesFile | src/leapflow/cache/manager.py:171-205 | An entry that is kept loses its file under some quota if and only if its path is below the root and an older listed entry has the same path, with some size from there up to it; entries outside the filter count as the end of the order. |
| CacheQuota.TwoEntriesOneFile | src/leapflow/cache/manager.py:171-205 | Of two entries of one file, registered under different ids, the cleanup evicts the older and unlinks the file the younger still names. |
| CacheQuota.Cache.RegisterMany | src/leapflow/cache/manager.py:116-128 | The index is the fold of all writes. |
| CacheQuota.LastRegisteredWins | src/leapflow/cache/manager.py:116-128 | Of several entries with one id the last written is the one stored. |
| CacheQuota.Cache.Touch | src/leapflow/cache/manager.py:207-212 | Only the access time of that entry changes. |
| CacheQuota.Cache.CleanupExpired | src/leapflow/cache/manager.py:214-228 | Exactly the expired entries of all profiles go, with their files below the root. |
| ImpactClosure.DependentsClosure | tools/impact.py:165-175 | For every import graph and every order of the work list the loop ends with the least closed superset: exactly what a chain of imports reaches. |
| ImpactClosure.ReachedIsLeast | tools/impact.py:165-175 | What a chain reaches lies in every closed superset of the modules. |
| ImpactClosure.TestsTouching | tools/impact.py:216-225 | The selected tests are those whose coverage meets the change, the unknown paths those no test covers. |
| ImpactClosure.TestsDepending | tools/impact.py:165-202 | The tests found are exactly those importing something in the closure. |
| ImpactClosure.SelectFromPaths | tools/impact.py:231-282 | A selection consists of exactly the tests linked to the change; everything runs exactly when a path escalates, nothing relevant changed, or no test is linked. |
| ImpactClosure.LinkedPathByPath | tools/impact.py:251-269 | A change links exactly the tests its paths link one by one: the path itself, the tests covering it, or, if the map does not know it, the tests importing something that reaches it. |
| ImpactClosure.SourceAddsNothingIff | tools/impact.py:251-269 | A changed source adds no linked test, whatever else changed and whatever the tests import, if and only if it no longer exists and the map does not know it. |
| ImpactClosure.MoreChangesLinkMore | tools/impact.py:251-269 | A larger change never links fewer tests. |
| CausalChain.ExtractCausalChain | src/leapflow/analysis/causal.py:49-92 | For lists longer than two with an effect the loops return the closed form: all effects, and each support whose next effect-or-support is an effect. |
| CausalChain.BacktraceSupport | src/leapflow/analysis/causal.py:79-92 | The walk back claims the nearest support unless an effect comes first. |
| CausalChain.FindCausal | src/leapflow/analysis/causal.py:67-77 | The forward scan claims exactly the effects and the supports next before one. |
| CausalChain.SelectedIsChain | src/leapflow/analysis/causal.py:55-60 | Selecting the claimed positions in order yields the closed form. |
| CausalChain.ChainIsCausal | src/leapflow/analysis/causal.py:49-92 | In the result every support is directly followed by an effect. |
| CausalChain.ChainKeepsEffects | src/leapflow/analysis/causal.py:49-77 | No effect is lost or reordered. |
| CausalChain.AtMostOneSupportEach | src/leapflow/analysis/causal.py:79-92 | The result has at most one support per effect. |
| CausalChain.ExtractionIsIdempotent | src/leapflow/analysis/causal.py:49-65 | Extracting twice is extracting once. |
| CausalChain.WhenExtracted | src/leapflow/analysis/causal.py:52-58 | The result is the closed form exactly for lists longer than two with an effect and for lists already of that shape. |
| Gates.GateVerdict | src/benchmarks/gates.py:122-200 | A gate is ready exactly when no eligible trial is unavailable or failing, one passed, and every effective metric is reported and met; it is blocked exactly when a required benchmark has no eligible, an unavailable or a failing trial, or some trial passed and a reported metric is missed. |
| Gates.EvaluatedVerdict | src/benchmarks/gates.py:96-200 | The same for a whole result, with its eligible trials, effective thresholds and actual values; only a manifest can require. |
| Gates.AllMissedIsBlocked | src/benchmarks/gates.py:71-93 | A run with a success, whose eligible values of one metric all miss its threshold with no aggregate to go by, is blocked. |
| Gates.AllReachedIsMet | src/benchmarks/gates.py:71-93 | If they all reach it, the metric is met. |
| Gates.ActualIsBetween | src/benchmarks/gates.py:85-89 | Without a trusted aggregate the actual value lies between two of the values the eligible trials report. |
| Means.MeansAddUp | src/benchmarks/gates.py:85-89 | Means weigh their values alike: each times its number of values adds up over concatenation. |
| Means.MeanBetween | src/benchmarks/gates.py:85-89 | A mean lies between any bounds of its values. |
| Gates.TrustedAggregateDecides | src/benchmarks/gates.py:90-92 | Without diagnostic scenarios the last aggregate of a metric is its actual value. |
| Gates.CheckMetricsVerdict | src/benchmarks/gates.py:173-186 | Along the metrics the status only escalates. |
| Gates.CheckMetricsDetails | src/benchmarks/gates.py:173-186 | The details name exactly the metrics that are not reported or are missed, and the actual values are exactly those reported. |
| Gates.ReasonsSpec | src/benchmarks/gates.py:130-131 | The reasons are the messages of the unavailable trials, each once, in order of first appearance. |
| Gates.DiagnosticsDoNotInterfere | src/benchmarks/gates.py:56-93 | Two results with diagnostic trials that agree on the eligible ones get the same gate, whatever their diagnostic trials and aggregate metrics say. |
| Gates.EffectiveThreshold | src/benchmarks/gates.py:109-120 | Which threshold is in force for a metric: override, manifest gate, declared default, in that order, the last of equal names. |
| Gates.EligibleSpec | src/benchmarks/gates.py:56-68 | The eligible trials are those of no diagnostic scenario, and all count exactly when there is none. |
| Gates.CollectActuals | src/benchmarks/gates.py:71-93 | The bucket loops hold the mean of the eligible values, or the last aggregate when every trial is eligible. |
| Gates.EvaluateGate | src/benchmarks/gates.py:96-200 | The imperative escalation computes the gate the verdict theorems are about, details included. |
| Gates.CombineIsJoin | src/benchmarks/gates.py:203-221 | Over concatenation of non-empty lists combining is the worst-state join, and details and ids concatenate. |
| Gates.CombineSpec | src/benchmarks/gates.py:210-214 | One blocked gate blocks, all ready gates are ready. |
| Gates.CombineOne | src/benchmarks/gates.py:203-221 | A single gate keeps its state, details and name. |
| Gates.JoinLawHoldsIff | src/benchmarks/gates.py:203-221 | The join law holds for all lists except exactly when an empty one meets a ready one. |
| Gates.CombineInGroups | src/benchmarks/gates.py:203-221 | The worst state wins however the gates are grouped. |

## Left out

- LayeredConfig.EnvOverrides: the dictionary cursor that moves through aliased nested dictionaries is modelled on values, as an insertion along a path.
- ConfigPriority.Load: reading YAML files, warnings, watched paths and the secret vault; secret resolution is a function parameter that keeps mappings well formed.
- EnvNames.EnvPathName: case mapping covers ASCII letters only; keys of YAML mappings are strings, and numbers and dates count as their texts.
- LayeredConfig.EnvVars.Flatten: lists hold texts, so lists and mappings nested inside a YAML list are not modelled.
- ParallelRunner.BoundedAndFailFast: the semaphore may wake waiters in any order, which includes the order asyncio uses; exceptions from the trial callback, cancellation and real time are not modelled.
- Runner.RunWithRetry: an attempt's timeout and exceptions are statuses the adapter parameter returns; the number of retries is not negative, as the command line ensures; a scenario's result depends on the scenario and the attempt only.
- Resume.NothingExecutedTwice: the SHA-256 digest of trial ids is an injective function, and scenario ids are distinct.
- Abstraction.Abstract: the conservative rule list only. UnpairedRenameDedupRule (which may reorder), SystemNoiseRule, AppLaunchNoiseRule, DragDropRule and OpenInAppSynthesisRule of the platform lists are not modelled. Descriptions, drag coordinates and clipboard text are left out of the parameters.
- Actions.DerivedTransitive: texts are structural (folder, stem, extension) and words interned, so repeated or trailing slashes, the root folder and the case of extensions are not modelled; neither are parameters that only display, such as common parents and file patterns.
- FilterRules.GatherCompose: the list of source applications is an unordered set in the source and not kept; the minimum number of cycles is the default of two; what counts as a paste is a predicate parameter.
- PatternLibrary.Library.FindMatches: wildcards, alternatives and the extraction of parameters are function parameters; reading patterns from YAML is left out; the library must have no empty pattern. With one, `PatternLibrary.ScanEndsIff` says on which lists the loop ends; what it returns on those is not modelled.
- ContiguousPasses.FileSystemPatterns: the four built-in matchers only, with the default confidence; a matcher never raises.
- Segmenter.Segment: the reasons of boundaries are not kept. A semantic detector with a minimum length of zero or less needs a signal step, without which the source raises an index error.
- FileEffects.FsPatternsKeepFiles: organizing a folder is left out of it, because the action it yields does not say where below the folder each file went.
- Percentiles.ImplementationsAgree: over the reals, for p in [0, 100]; rounding to four digits and binary floating point are left out, and so is the lock.
- CacheQuota.Cache.CleanupQuota: the rows come from the query in any order, given as a parameter; paths are resolved component lists without symbolic links; the database and JSON columns are maps and fields.
- ImpactClosure.SelectFromPaths: git, glob patterns, parsing of imports and the coverage file are parameters; the explanation text is left out, and the selection is a set.
- CausalChain.ExtractCausalChain: actions are names with an identity; nothing else of them is looked at.
- Gates.EvaluateGate: which canonical key a metric name stands for is a parameter; the details are values, not sentences.
- The command line, adapters, recording, perception, the language-model passes and everything that only copies settings: they would add no algorithm.
- The journey selection and the coverage-map builder of `tools/impact.py`, and the metrics of `benchmarks/metrics.py` that are a single sum or division.
