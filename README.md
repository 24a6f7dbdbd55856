# FPG core in Dafny

This project models the sequential core of FPG. FPG is a frequent-itemset miner (FP-Growth, written in C++ and exposed to Python) together with the Python scripts that prepare its input from spike-train recordings. The model covers five parts:

- **Job planner** (`DataAcquisition/occurrences_estimation.py`), in `occurrences.dfy`.
  - `estimate_number_occurrences` builds, for each session and each `epoch_trialtype` context, a table of mining jobs. It has three phases:
    - a growing phase, which computes the minimum number of occurrences `min_occ` for pattern size `min_spikes` and corrects it when it rises;
    - a floor phase up to size 10;
    - one tail job for sizes 10 and above.
  - The statistics (`np.percentile`, `binom.isf`) are function-valued parameters (`Stats`). `binom_coeff` and the lag count `winlen!/(winlen-k-1)!` are exact integers. Every Python exception on this path becomes a `Failure`.
  - `create_rate_dict` takes the spike trains as a parameter. `split_path` is modelled over strings, with `os.path.split` written out.
- **Epoch table and grouping helpers** (`DataAcquisition/rgutils.py`), in `rgutils.dfy`: the unit id `st_id`, the epoch-name table, and the SNR filter with grouping by unit id.
- **Verbosity and logger emission rule** (`PythonModule/include/Logger.h`), in `logger.dfy`.
- **FP-Growth miner** (`PythonModule/include/FPGrowth.h`, `PythonModule/include/FPTree.h`):
  - `fpgrowth_prep.dfy`: frequency counting, the item/transaction reduction fixpoint, the ranking of items by support and the transaction order.
  - `fptree.dfy`: the prefix tree with its header lists. Nodes are an index-based pool, and allocation appends a node.
  - `building.dfy`: the constructor's tree-building half.
  - `projection.dfy`: the conditional projection `project`.
  - `patterns.dfy` and `miner.dfy`: the bookkeeping of the pattern being grown, the length gate and the recording of patterns, including the perfect-extension expansion `pp`.
  - `postprocessing.dfy`: the `PostProcessing` filter.
- **Shared modules:** `sorting.dfy` (a stable insertion sort, which stands for `sorted` and `std::sort`) and `wrappers.dfy` (`Option`/`Result`).

The miner is modelled in its `ALL_PATTERN` build, where the closed-set detector accepts every item. The `PERF_EXT_EXPANSION` switch is the boolean field `perfExtExpansion`. One thread is modelled.

A pattern entry is `support * 2^32 + id` (`Patterns.WORD` is 2^32), as `endLocalPattern` writes it. `PostProcessing` looks items up by the low 32 bits.

In expansion mode `pp` writes item codes (`m_pId2Item[...]`), not packed ids, and `PostProcessing` then looks every entry up through `m_pId2Item` again. The model follows the code in both places: `Mining.FPGrowth.PP` records `ItemsOf(...)` and `Filtering.ItemOf` indexes `id2Item`. It does not claim which of the two the authors meant.

Where the documentation and the code disagree, the model follows the code:
- `rgutils.py` documents the `'start'` epoch around `FP-ON`, but the code uses `TS-ON` (rgutils.py:268).
- `rgutils.py` documents the `'earlydelay'` epoch around `FP-ON` (rgutils.py:212), but the code uses `CUE-OFF` (rgutils.py:272).
- `rgutils.py` documents the `'hold'` epoch around `RW` (rgutils.py:215), but the code uses `RW-ON` (rgutils.py:278).
- `rgutils.py` documents `t_pre` as positive for times before the trigger (rgutils.py:226-227), and the epoch table lists the named windows with positive `t_pre` values. The code gives the named epochs -250, -500 and -200 ms instead (rgutils.py:268-278). The model keeps the code's signs.
- `create_rate_dict` documents `'rates'` as sorted in decreasing order, but `sorted` gives ascending order (occurrences_estimation.py:59, 75).
- `_storing_remaining_parameters` stores a module-level `abs_min_occ` (occurrences_estimation.py:116). The model stores the caller's `abs_min_occ`.

## Model

| member | source | states |
|---|---|---|
| Logging.ToUnderlying | PythonModule/include/Logger.h:74-78 | the underlying value lies in 0..4, and it is 0 exactly for `VB_DEBUG` and 4 exactly for `VB_ERROR` |
| Logging.ToVerbosity | PythonModule/include/Logger.h:80-86 | any value outside 0..4 gives `VB_INFO`; a value in 0..4 gives the verbosity whose underlying value it is |
| Logging.ToVerbosityInvertsToUnderlying | PythonModule/include/Logger.h:74-86 | converting a verbosity to its value and back gives the same verbosity |
| Logging.DefaultThresholdSuppressesOnlyDebug | PythonModule/include/Logger.h:20-24 | under the default threshold `VB_VERBOSE`, a logger is silent exactly when its level is `VB_DEBUG` |
| Logging.Logger.constructor | PythonModule/include/Logger.h:20-24 | a new logger has the given level and stream, with threshold `VB_VERBOSE` unless one is given |
| Logging.Logger.SetVerbosity | PythonModule/include/Logger.h:26-29 | the threshold becomes the given verbosity |
| Logging.Logger.Write | PythonModule/include/Logger.h:38-44 | the data reaches the stream exactly when the level is at least the threshold; the logger returns itself |
| Logging.Logger.WriteEndl | PythonModule/include/Logger.h:31-36 | the line end reaches the stream exactly when the level is at least the threshold; the logger returns itself |
| Logging.Loggers.constructor | PythonModule/include/Logger.h:53-57 | the five global loggers have threshold `VB_VERBOSE` |
| Logging.Loggers.SetVerbosity | PythonModule/include/Logger.h:65-72 | all five loggers get the same threshold, and nothing is written |
| RgUtils.StIdDecodes | DataAcquisition/rgutils.py:88-95 | for unit ids below 100, the channel id and unit id can be read back from `st_id` by division and remainder |
| RgUtils.StIdInjective | DataAcquisition/rgutils.py:88-95 | two trains with unit ids below 100 and the same `st_id` have the same channel and unit |
| RgUtils.ResolveEpoch | DataAcquisition/rgutils.py:266-284 | an unknown epoch name fails with `ValueError`; each named epoch gives a string trigger and a window of exactly 500 ms; a non-string succeeds exactly when it has three items, and is then unpacked in order |
| RgUtils.NamedEpochExamples | DataAcquisition/rgutils.py:267-276 | `'start'` resolves to (`TS-ON`, -250 ms, 250 ms) and `'movement'` to (`SR`, -200 ms, 300 ms) |
| RgUtils.Kept | DataAcquisition/rgutils.py:323-331 | every kept train is a single unit with SNR strictly above the threshold, tagged with its segment |
| RgUtils.KeptOf | DataAcquisition/rgutils.py:324-331 | the kept trains of one segment are single units above the SNR threshold, carrying that segment's trial id and trial type |
| RgUtils.OfUnit | DataAcquisition/rgutils.py:332-338 | the trains filed under an id all have that `st_id` and come from the input |
| RgUtils.OfUnitAppend | DataAcquisition/rgutils.py:335-338 | appending a train extends exactly the list of its own unit id |
| RgUtils.OfUnitNonEmpty | DataAcquisition/rgutils.py:335-338 | a unit id is a key exactly when its list is non-empty |
| RgUtils.GroupsAppend | DataAcquisition/rgutils.py:332-338 | the try/except append (append to an existing list, else start one) keeps the grouping invariant |
| RgUtils.KeptOfStep | DataAcquisition/rgutils.py:324-326 | one train of a segment is kept exactly when it is a single unit above the threshold |
| RgUtils.KeptStep | DataAcquisition/rgutils.py:323-326 | the segments are visited in order, with `seg_id` numbering them |
| RgUtils.GroupByUnit | DataAcquisition/rgutils.py:322-339 | the keys are exactly the unit ids of kept trains, and each list holds that unit's kept trains in trial order |
| RgUtils.GroupTrial | DataAcquisition/rgutils.py:324-338 | processing one segment appends its kept trains to the grouping |
| RgUtils.GroupedTrainsPassFilter | DataAcquisition/rgutils.py:326-338 | every grouped train passed the SNR filter and is filed under its own `st_id` |
| Occurrences.LastSlash | DataAcquisition/occurrences_estimation.py:23 | finds the last `/` of a path, or none |
| Occurrences.RStripSlashes | DataAcquisition/occurrences_estimation.py:23 | strips exactly the trailing slashes |
| Occurrences.Split | DataAcquisition/occurrences_estimation.py:23 | `os.path.split`: the tail has no slash; a non-empty tail leaves a strictly shorter head |
| Occurrences.RStripIfMixed | DataAcquisition/occurrences_estimation.py:23 | the head is stripped of trailing slashes unless it is all slashes, and never grows |
| Occurrences.RStripIfMixedNonEmpty | DataAcquisition/occurrences_estimation.py:27-28 | a non-empty head stays non-empty, so the loop ends by appending it |
| Occurrences.ComponentsUnfold | DataAcquisition/occurrences_estimation.py:22-29 | one loop step: a non-empty tail is the last component, an empty tail ends with the head if non-empty |
| Occurrences.PeelFolder | DataAcquisition/occurrences_estimation.py:24-25 | appending a non-empty tail keeps the reversed folder list consistent with the path's components |
| Occurrences.PeelHead | DataAcquisition/occurrences_estimation.py:27-28 | appending the final non-empty head completes the components |
| Occurrences.PeelNothing | DataAcquisition/occurrences_estimation.py:26-29 | an empty head ends the loop with the components complete |
| Occurrences.SplitPath | DataAcquisition/occurrences_estimation.py:20-31 | the append loop followed by `reverse` returns exactly the path's components, root first |
| Occurrences.ComponentsShape | DataAcquisition/occurrences_estimation.py:20-31 | no component is empty, and only the first may contain a slash |
| Occurrences.ComponentsOfEmpty | DataAcquisition/occurrences_estimation.py:20-31 | the empty path has no components |
| Occurrences.ComponentsOfRoot | DataAcquisition/occurrences_estimation.py:20-31 | `/` has the single component `/` |
| Occurrences.JoinComponents | DataAcquisition/occurrences_estimation.py:20-31 | for a normalised path, joining the components gives the path back (round trip) |
| Occurrences.SplitPathExample | DataAcquisition/occurrences_estimation.py:20-31 | `/a/b` splits into `/`, `a`, `b` |
| Occurrences.Trunc | DataAcquisition/occurrences_estimation.py:68 | `int()` truncates toward zero |
| Occurrences.RealLessIsStrictWeakOrder | DataAcquisition/occurrences_estimation.py:75 | the order `sorted` uses on rates is a strict weak order |
| Occurrences.CreateRateDict | DataAcquisition/occurrences_estimation.py:34-78 | gives one rate per train in input order (count / length); `rates` is a permutation of them sorted ascending; `n_bins` is length / binsize truncated; no trains, a zero binsize or a zero length fail; the result is the rate dictionary `RateDictOf` describes as a value |
| Occurrences.Fact | DataAcquisition/occurrences_estimation.py:231-233 | factorials are positive |
| Occurrences.Lag | DataAcquisition/occurrences_estimation.py:231-233 | the lag count is positive |
| Occurrences.LagIsFactorialRatio | DataAcquisition/occurrences_estimation.py:231-233 | the product `winlen-k .. winlen` equals `winlen! / (winlen-k-1)!` |
| Occurrences.ChooseZeroIff | DataAcquisition/occurrences_estimation.py:233-234 | `binom_coeff(n, k)` is zero exactly when k > n |
| Occurrences.Positive | DataAcquisition/occurrences_estimation.py:223 | keeps exactly the rates above zero |
| Occurrences.PatternSpace | DataAcquisition/occurrences_estimation.py:231-234 | for every size k, including 0: the number of patterns is positive exactly when k < winlen and k <= the number of active neurons; otherwise it fails with the factorial error or the division by zero |
| Occurrences.GrowStep | DataAcquisition/occurrences_estimation.py:222-246 | no active neuron fails; a success has k < winlen, a positive pattern count and `min_occ` equal to the threshold at that count; a value above `min_occ_old` uses the previous count |
| Occurrences.Growing | DataAcquisition/occurrences_estimation.py:208-270 | the growing loop ends with a positive pattern count |
| Occurrences.GrowingShape | DataAcquisition/occurrences_estimation.py:208-210 | the loop body runs at least once, every value but the last is above `abs_min_occ`, the last is at most `abs_min_occ`, and it stays below `winlen` |
| Occurrences.BoundCountNeverUnbound | DataAcquisition/occurrences_estimation.py:239-240 | once a previous count exists, the correction never reads an unbound variable |
| Occurrences.PreviousCountAlwaysDefined | DataAcquisition/occurrences_estimation.py:209 | with `min_occ_old = n_bins` and `isf <= n_bins`, the correction never fires on the first iteration, so `num_combination_patt_old` is defined when read |
| Occurrences.PowShrinks | DataAcquisition/occurrences_estimation.py:227 | a power of a probability shrinks as the exponent grows |
| Occurrences.ProbShrinks | DataAcquisition/occurrences_estimation.py:227 | the repetition probability does not grow with pattern size |
| Occurrences.GrowingNonIncreasing | DataAcquisition/occurrences_estimation.py:238-246 | if `isf` is monotone in p, the computed `min_occ` values never rise |
| Occurrences.GrowingUnfolds | DataAcquisition/occurrences_estimation.py:210-270 | one iteration of the growing loop: fail, stop at or below `abs_min_occ`, or continue with k+1 |
| Occurrences.GrowJobsStep | DataAcquisition/occurrences_estimation.py:211-270 | storing a growing job at the next counter keeps the job-table invariant |
| Occurrences.ComputeStep | DataAcquisition/occurrences_estimation.py:222-246 | the loop body's computation equals the step function |
| Occurrences.GrowPhase | DataAcquisition/occurrences_estimation.py:205-270 | the growing loop stores one job per computed value, with `min_spikes` and `job_counter` advancing by one each; it ends with `min_occ <= abs_min_occ` |
| Occurrences.FloorPhase | DataAcquisition/occurrences_estimation.py:273-308 | the floor loop adds one job per size up to 10 with `max_spikes == min_spikes`, leaves earlier jobs alone, and advances the counter by the number of jobs |
| Occurrences.FloorStage | DataAcquisition/occurrences_estimation.py:273-308 | after the floor loop the table satisfies the key and value invariants |
| Occurrences.TailStage | DataAcquisition/occurrences_estimation.py:310-340 | the tail job (size 10, no maximum, `abs_min_occ`) is stored at the current counter without advancing it |
| Occurrences.PhasesGiveJobsOf | DataAcquisition/occurrences_estimation.py:205-340 | the three phases together produce the context's job table |
| Occurrences.EstimateContext | DataAcquisition/occurrences_estimation.py:193-340 | a context's job table is exactly the one the three phases describe, or the growing loop's error |
| Occurrences.ContextJobsProperties | DataAcquisition/occurrences_estimation.py:248-330 | the first job has `min_spikes = abs_min_spikes`; every job is well formed; after the first job storing `abs_min_occ`, all later ones do; jobs below the counter have a maximum; the tail job exists exactly when the sizes reach 10 |
| Occurrences.JobsOfExactly | DataAcquisition/occurrences_estimation.py:205-340 | the phases' description of a context fixes its outcome: exactly one job table, counter and pattern count satisfy it |
| Occurrences.ContextsCons | DataAcquisition/occurrences_estimation.py:192-203 | an epoch's labels are the first trial type's `ep_tt` together with the labels of the rest |
| Occurrences.ContextsConsEpoch | DataAcquisition/occurrences_estimation.py:189-203 | the labels of several epochs are the first epoch's labels together with the rest's |
| Occurrences.ContextStepStores | DataAcquisition/occurrences_estimation.py:193-340 | a context that succeeds loaded a valid rate dictionary from its own trains and grew its thresholds from them; its table is the job table of those thresholds, numbered from the job counter carried in; the counter moves past it; other contexts are untouched |
| Occurrences.ContextStepKeeps | DataAcquisition/occurrences_estimation.py:193-340 | storing one context keeps every job of the session well formed and filed under its own label |
| Occurrences.EpochFromStep | DataAcquisition/occurrences_estimation.py:192-203 | one trial type of the epoch fold: a failing context ends the epoch with its error, a succeeding one hands on its state |
| Occurrences.EpochFromJobsOk | DataAcquisition/occurrences_estimation.py:192-340 | an epoch keeps every job of the session well formed |
| Occurrences.EpochFromContexts | DataAcquisition/occurrences_estimation.py:192-203 | an epoch adds exactly its labels `ep_tt`, one per trial type |
| Occurrences.SessionFromContexts | DataAcquisition/occurrences_estimation.py:189-340 | a session's table holds exactly the labels of its epochs and trial types, every job well formed |
| Occurrences.PlannerFromShape | DataAcquisition/occurrences_estimation.py:183-341 | the planner has one entry per session, each with every label and well-formed jobs |
| Occurrences.EstimateOneContext | DataAcquisition/occurrences_estimation.py:193-340 | one context: the rate dictionary of its own trains, the three phases from the carried counter and pattern count, the jobs stored under `ep_tt`; equal to the context step of the fold |
| Occurrences.SessionJobsOkUpdate | DataAcquisition/occurrences_estimation.py:203 | overwriting a context with well-formed jobs keeps the session table well formed |
| Occurrences.EstimateEpoch | DataAcquisition/occurrences_estimation.py:189-340 | the trial-type loop is the epoch fold: each context's table is the job table of its own trains, numbered from the counter the previous context left; the epoch adds exactly its labels, all well formed |
| Occurrences.EstimateSession | DataAcquisition/occurrences_estimation.py:183-340 | the epoch loop is the session fold from no contexts and job counter 0, with the pattern count carried in and out; its labels are exactly `ep_tt` for all epochs and trial types, all well formed |
| Occurrences.EstimateNumberOccurrences | DataAcquisition/occurrences_estimation.py:183-341 | the session loop is the planner fold: each session's table is its session fold, started from the pattern count the previous session left; the keys are exactly the sessions, each holding every label's well-formed job table; no sessions give an empty table |
| Sorting.Insert | PythonModule/include/FPGrowth.h:175-177 | inserting adds exactly one element |
| Sorting.InsertKeepsSorted | PythonModule/include/FPGrowth.h:175-177 | inserting into a sorted sequence keeps it sorted |
| Sorting.SortBy | PythonModule/include/FPGrowth.h:175-177 | the result is a sorted permutation of the input |
| Sorting.Reverse | PythonModule/include/FPGrowth.h:219 | element i of the result is element n-1-i of the input |
| Sorting.ReverseOfSorted | PythonModule/include/FPGrowth.h:196-219 | reversing an ascending sequence gives one where no element is less than a later one |
| Sorting.ReversePermutes | PythonModule/include/FPGrowth.h:219 | reversing is a permutation |
| Preparation.CountPositive | PythonModule/include/FPGrowth.h:607-617 | an item has a positive count exactly when it occurs in some transaction |
| Preparation.GetFrequency | PythonModule/include/FPGrowth.h:607-617 | the map's keys are exactly the occurring items, and each maps to its number of occurrences, duplicates included |
| Preparation.KeepLong | PythonModule/include/FPGrowth.h:643-646 | every kept transaction is at least `minPatternLen` long |
| Preparation.KeepLongNoRepeats | PythonModule/include/FPGrowth.h:643-646 | dropping short transactions keeps every transaction free of repeated items |
| Preparation.KeepLongCounts | PythonModule/include/FPGrowth.h:643-646 | a transaction keeps all its copies if long enough and loses all of them otherwise |
| Preparation.ReduceTransactions | PythonModule/include/FPGrowth.h:643-646 | the loop keeps exactly the long transactions, in order |
| Preparation.Erase | PythonModule/include/FPGrowth.h:628 | erasing removes exactly one element |
| Preparation.EraseShifts | PythonModule/include/FPGrowth.h:628 | elements after the erased one shift down by one |
| Preparation.Pass | PythonModule/include/FPGrowth.h:624-634 | a pass never lengthens a transaction |
| Preparation.EraseOne | PythonModule/include/FPGrowth.h:628 | erasing lowers exactly one item's multiplicity by one |
| Preparation.PassOnlyErases | PythonModule/include/FPGrowth.h:624-634 | a pass never adds an occurrence |
| Preparation.PassKeepsFrequent | PythonModule/include/FPGrowth.h:626 | an item with frequency at least `minSupport` is never erased |
| Preparation.PassErasesOnlyInfrequent | PythonModule/include/FPGrowth.h:624-634 | the pass yields a sub-multiset that keeps every frequent item's occurrences |
| Preparation.PassKeepsPrefix | PythonModule/include/FPGrowth.h:624-634 | the part before the iterator is untouched |
| Preparation.PassUnchanged | PythonModule/include/FPGrowth.h:624-634 | if nothing was erased, the transaction is unchanged and every visited item was frequent |
| Preparation.FrontEraseSkipsNext | PythonModule/include/FPGrowth.h:628-630 | after erasing the first element, the new first element is not examined in that pass |
| Preparation.FrontEraseExample | PythonModule/include/FPGrowth.h:628-630 | in `[1, 2]` with both infrequent, only 1 is erased |
| Preparation.EraseInfrequent | PythonModule/include/FPGrowth.h:624-635 | the iterator loop computes the pass and reports erasure exactly when it shortened the transaction |
| Preparation.ReduceItems | PythonModule/include/FPGrowth.h:619-641 | each transaction gets one pass; the result is true iff some item was erased; the map keeps exactly the entries at least `minSupport` |
| Preparation.KeepLongTotal | PythonModule/include/FPGrowth.h:104-108 | dropping short transactions never increases the total item count |
| Preparation.KeepLongCount | PythonModule/include/FPGrowth.h:106 | dropping short transactions never increases an item's count |
| Preparation.ErasedCount | PythonModule/include/FPGrowth.h:106-108 | erasing within transactions never increases an item's count |
| Preparation.ShorterTotal | PythonModule/include/FPGrowth.h:104-108 | an erasure strictly lowers the total item count (the fixpoint loop's variant) |
| Preparation.RoundNoRepeats | PythonModule/include/FPGrowth.h:104-108 | one round of the fixpoint keeps transactions free of repeated items |
| Preparation.RoundCounts | PythonModule/include/FPGrowth.h:104-108 | one round never raises an item's count above the input's |
| Preparation.RoundFixpoint | PythonModule/include/FPGrowth.h:104-108 | a round that erases nothing leaves the long transactions as they are, with every remaining item at least `minSupport` frequent |
| Preparation.Reduce | PythonModule/include/FPGrowth.h:104-108 | the do-while ends with every transaction at least `minPatternLen` long, every remaining item at least `minSupport` frequent, the map equal to the counts, and no count above the input's; input without repeated items gives output without them |
| Preparation.CountItem | PythonModule/include/FPGrowth.h:155-159 | `try_emplace` followed by `Inc` keeps the first-seen table consistent |
| Preparation.TableNext | PythonModule/include/FPGrowth.h:153-160 | a finished transaction closes into the table |
| Preparation.CountTransaction | PythonModule/include/FPGrowth.h:153-160 | counting a transaction extends the table invariant |
| Preparation.TableComplete | PythonModule/include/FPGrowth.h:151-160 | the finished table numbers items in first-seen order, holds each item once with its support, and holds exactly the occurring items |
| Preparation.CollectItems | PythonModule/include/FPGrowth.h:151-172 | `F` and `fF` list every occurring item once, in first-seen order, with its support |
| Preparation.TableOrdersAreStrictWeak | PythonModule/include/FPGrowth.h:175-177 | both comparators are strict weak orders |
| Preparation.Ranked | PythonModule/include/FPGrowth.h:175-177 | the two sorts give a permutation ordered by non-increasing support |
| Preparation.ReorderKeepsDistinct | PythonModule/include/FPGrowth.h:175-177 | a permutation of a table with distinct items has distinct items |
| Preparation.AssignIdx | PythonModule/include/FPGrowth.h:180-186 | `fF[i]` gets index i and is otherwise unchanged |
| Preparation.IdxSortKeepsTable | PythonModule/include/FPGrowth.h:223 | sorting by index leaves an already indexed table unchanged |
| Preparation.IdxMap | PythonModule/include/FPGrowth.h:180-186 | each item maps to its index, and only table items are keys |
| Preparation.ReorderDescribes | PythonModule/include/FPGrowth.h:175-177 | reordering keeps the table a description of the database |
| Preparation.IndexedDescribes | PythonModule/include/FPGrowth.h:180-186 | assigning indices keeps it a description of the database |
| Preparation.RankItems | PythonModule/include/FPGrowth.h:151-186 | the ranking lists every item of the database once with its support; index i is at position i; supports never increase |
| Preparation.ToIdx | PythonModule/include/FPGrowth.h:191-194 | rewriting by index keeps the length |
| Preparation.SortItems | PythonModule/include/FPGrowth.h:191-194 | a transaction is sorted by ascending index, as a permutation |
| Preparation.CompareTransactions | PythonModule/include/FPGrowth.h:196-217 | the comparator loop computes the transaction order |
| Preparation.TransLessIrreflexive | PythonModule/include/FPGrowth.h:210-211 | equal transactions compare false |
| Preparation.TransLessTransitive | PythonModule/include/FPGrowth.h:196-217 | the order is transitive |
| Preparation.TransLessTotal | PythonModule/include/FPGrowth.h:196-217 | distinct transactions are comparable |
| Preparation.TransLessIsStrictWeak | PythonModule/include/FPGrowth.h:196-217 | the comparator is a strict weak order, as `std::sort` needs |
| Preparation.ExtensionBeforePrefix | PythonModule/include/FPGrowth.h:213-214 | a transaction comes before its proper prefixes |
| Preparation.FirstDifferenceDecides | PythonModule/include/FPGrowth.h:199-207 | at the first difference the smaller index decides |
| Preparation.OrderDatabase | PythonModule/include/FPGrowth.h:196-219 | the sorted and reversed database is a permutation with no transaction before an earlier one |
| Building.DistinctTableSize | PythonModule/include/FPGrowth.h:125 | a table with distinct items has as many items as entries |
| Building.FewBelow | PythonModule/include/FPGrowth.h:125 | a set of values below n has at most n elements |
| Building.TableSize | PythonModule/include/FPGrowth.h:125 | `m_maxItemCnt` equals the number of ranked items and fits in the item range |
| Building.CountPermutation | PythonModule/include/FPGrowth.h:196-219 | reordering the database keeps every item's count |
| Building.IndexTransactionSound | PythonModule/include/FPGrowth.h:191-194 | a rewritten transaction is ascending, holds indices below the item count, and holds index i as often as the original held item i |
| Building.IndexTransactionIncreasing | PythonModule/include/FPGrowth.h:191-194 | a transaction without repeated items becomes a strictly increasing index sequence |
| Building.IndexAll | PythonModule/include/FPGrowth.h:191-194 | rewriting keeps the number of transactions |
| Building.IndexAllCounts | PythonModule/include/FPGrowth.h:191-194 | index i occurs as often as its item did |
| Building.IndexedDatabaseSound | PythonModule/include/FPGrowth.h:191-219 | the tree's database has one transaction per reduced transaction, each ascending with indices in range, and index i occurs exactly its support many times |
| Building.RearrangedEntries | PythonModule/include/FPGrowth.h:196-219 | reordering keeps each transaction ascending and in range |
| Building.RearrangedIncreasing | PythonModule/include/FPGrowth.h:191-219 | the reordered database of transactions without repeated items holds strictly increasing index sequences only |
| Building.InsertAllOrdered | PythonModule/include/FPGrowth.h:231-232 | inserting strictly increasing transactions into an ordered tree keeps every parent's id below its children's |
| Building.InsertAll | PythonModule/include/FPGrowth.h:231-232 | inserting all transactions keeps the tree well linked, adds one to the root support per transaction, and keeps the headers' items and supports |
| Building.InsertDatabase | PythonModule/include/FPGrowth.h:231-232 | the `Add` loop produces the tree of all insertions |
| Building.PrepareDatabase | PythonModule/include/FPGrowth.h:104-223 | reduction facts; a ranking by non-increasing support; a database of ascending index transactions in reversed order whose index counts are the ranked supports; strictly ascending when no input transaction repeats an item |
| Building.MakeTree | PythonModule/include/FPGrowth.h:143-232 | fresh `idx2Id`/`id2Item` with `id2Item[i]` the i-th ranked item and `idx2Id[i] = i`; the tree is the empty ranked tree with every transaction inserted, and it is ordered when every transaction is strictly ascending |
| FPTrees.Bump | PythonModule/include/FPTree.h:94 | only the current node's (or root's) support rises, by exactly `support` |
| FPTrees.Grow | PythonModule/include/FPTree.h:106-122 | the growing loop appends one node per remaining id, keeps old nodes and the headers' items and supports, and keeps the root |
| FPTrees.Walk | PythonModule/include/FPTree.h:92-103 | an insertion adds at most one node per id and keeps the headers' items and supports |
| FPTrees.End | PythonModule/include/FPTree.h:92-103 | the walk stops at a path end |
| FPTrees.Walked | PythonModule/include/FPTree.h:92-103 | the descent changes only supports |
| FPTrees.WalkSplits | PythonModule/include/FPTree.h:92-122 | an insertion is the descent over the reused prefix followed by growing the rest |
| FPTrees.BumpWellLinked | PythonModule/include/FPTree.h:94 | raising a support keeps the tree well linked |
| FPTrees.ReusedYounger | PythonModule/include/FPTree.h:92-103 | reused nodes exist and are younger than the node they continue |
| FPTrees.WalkedSupports | PythonModule/include/FPTree.h:92-103 | the root (if current) and exactly the reused nodes gain `support` |
| FPTrees.GrowStep | PythonModule/include/FPTree.h:108-116 | one allocation adds exactly one node |
| FPTrees.GrowUnfolds | PythonModule/include/FPTree.h:106-122 | growing is one allocation followed by growing the rest from the new node |
| FPTrees.GrowNodes | PythonModule/include/FPTree.h:108-111 | each new node has the id, the passed support and the previous path node as parent |
| FPTrees.GrowSuccs | PythonModule/include/FPTree.h:112 | each new node's `succ` is its list's previous head |
| FPTrees.GrowHeads | PythonModule/include/FPTree.h:116 | each header list starts at the newest node with that id, or is unchanged |
| FPTrees.GrowWellLinked | PythonModule/include/FPTree.h:106-122 | growing keeps the tree well linked |
| FPTrees.WalkedWellLinked | PythonModule/include/FPTree.h:92-103 | the descent keeps the tree well linked |
| FPTrees.ReusedChain | PythonModule/include/FPTree.h:99-102 | a node is reused only when it heads its item's list and its parent is the current node |
| FPTrees.ReusedEnd | PythonModule/include/FPTree.h:102 | the descent ends at the last reused node, or where it started |
| FPTrees.ReusedStop | PythonModule/include/FPTree.h:101 | the descent stops when the list is empty or its head's parent is not the current node |
| FPTrees.InsertedRootSupport | PythonModule/include/FPTree.h:94 | each `Add` raises the root support by exactly `support` |
| FPTrees.InsertedOldNodes | PythonModule/include/FPTree.h:92-122 | existing nodes keep id, parent and succ; exactly the reused ones gain `support` |
| FPTrees.InsertedNodeCount | PythonModule/include/FPTree.h:106-122 | nodes allocated = path length minus reused prefix |
| FPTrees.InsertedFreshNodes | PythonModule/include/FPTree.h:106-116 | the new nodes carry the remaining ids, the support, the previous node as parent and the old list head as succ, and become the list heads |
| FPTrees.InsertedEmptyPath | PythonModule/include/FPTree.h:95 | an empty path changes only the root support |
| FPTrees.InsertedWellLinked | PythonModule/include/FPTree.h:80-122 | insertion keeps the tree well linked |
| FPTrees.OrderedOld | PythonModule/include/FPTree.h:92-103 | old nodes keep their ancestors' ids larger than their own |
| FPTrees.OrderedFirstFresh | PythonModule/include/FPTree.h:106-116 | the first new node of an ascending path respects the order |
| FPTrees.OrderedFresh | PythonModule/include/FPTree.h:106-116 | later new nodes respect the order |
| FPTrees.InsertedOrdered | PythonModule/include/FPTree.h:125-157 | inserting an ascending path keeps every parent's id smaller than its children's |
| FPTrees.FPTree.Empty | PythonModule/include/FPTree.h:30-37 | the default tree has no items, nodes or tables |
| FPTrees.FPTree.WithCapacity | PythonModule/include/FPTree.h:39-49 | `cnt` is the item count, with that many header slots and the given tables |
| FPTrees.FPTree.FromRanking | PythonModule/include/FPTree.h:51-73 | for each idx: `id2Item[idx]` is F's item, `idx2Id[idx] = idx`, header idx holds item idx, F's support and an empty list; `cnt = |F|`; the rest of the tables is untouched |
| FPTrees.FPTree.AddIds | PythonModule/include/FPTree.h:125-158 | the id-path `Add` yields the insertion of the path |
| FPTrees.FPTree.Add | PythonModule/include/FPTree.h:80-123 | the transaction `Add` yields the insertion of the path translated through `idx2Id` |
| FPTrees.FPTree.AddSupport | PythonModule/include/FPTree.h:94 | raises exactly one support |
| FPTrees.FPTree.Descend | PythonModule/include/FPTree.h:92-103 | the first loop either finishes the insertion or leaves exactly the growth of the rest to do |
| FPTrees.FPTree.Extend | PythonModule/include/FPTree.h:106-122 | the second loop grows the remaining path |
| Projection.Chain | PythonModule/include/FPGrowth.h:296 | the header list visits nodes of the pool |
| Projection.Share | PythonModule/include/FPGrowth.h:298-300 | a node's contribution is non-negative |
| Projection.ShareCounts | PythonModule/include/FPGrowth.h:298-300 | a node adds its support once per occurrence of the item above it |
| Projection.ChainStart | PythonModule/include/FPGrowth.h:296 | the list starts at the header |
| Projection.ChainLink | PythonModule/include/FPGrowth.h:296 | consecutive list nodes are linked by `succ`, ending in null |
| Projection.PathBelow | PythonModule/include/FPGrowth.h:298 | in an ordered tree, the ancestors' ids fall strictly and stay below the node's |
| Projection.ChainOfItem | PythonModule/include/FPGrowth.h:296 | every node of item id's list has id `id` |
| Projection.OrderedChainBelow | PythonModule/include/FPGrowth.h:296-302 | every ancestor visited lies below `id`, so `m_pSubs[pAnc->id]` is in range |
| Projection.AncestorsBelowAt | PythonModule/include/FPGrowth.h:298 | one node's ancestors are strictly decreasing and below `id` |
| Projection.CondStep | PythonModule/include/FPGrowth.h:296-302 | one more node adds its share to the conditional sums |
| Projection.PathStep | PythonModule/include/FPGrowth.h:298 | one step up the parent chain |
| Projection.ShareStep | PythonModule/include/FPGrowth.h:300 | one ancestor adds the node's support to its own slot |
| Projection.AddToAncestors | PythonModule/include/FPGrowth.h:298-301 | the inner loop adds the node's support to each ancestor's slot and leaves slots from `id` on untouched |
| Projection.ClearSums | PythonModule/include/FPGrowth.h:292 | the `memset` zeroes the first `id` slots only |
| Projection.AddNode | PythonModule/include/FPGrowth.h:298-301 | one node keeps the tally invariant |
| Projection.ChainStep | PythonModule/include/FPGrowth.h:296 | one step along the header list |
| Projection.Tally | PythonModule/include/FPGrowth.h:292-302 | each slot below `id` ends as that item's conditional support: node supports summed over item id's list |
| Projection.SumChain | PythonModule/include/FPGrowth.h:296-302 | the outer loop sums over the whole list |
| Projection.CondSums | PythonModule/include/FPGrowth.h:292-302 | there is one conditional support per item below `id` |
| Projection.Kept | PythonModule/include/FPGrowth.h:307-322 | the survivors are positions of the sums |
| Projection.KeptPrefix | PythonModule/include/FPGrowth.h:307-322 | survivors of a prefix are a prefix of the survivors |
| Projection.KeptIncreasing | PythonModule/include/FPGrowth.h:316-321 | survivors keep their original order |
| Projection.KeptExactly | PythonModule/include/FPGrowth.h:309-314 | an item survives exactly when its sum is at least `minSupport` |
| Projection.Rank | PythonModule/include/FPGrowth.h:321 | an item's new number is at most its old one |
| Projection.RankFinds | PythonModule/include/FPGrowth.h:321 | a survivor's new number locates it among the survivors |
| Projection.RankTable | PythonModule/include/FPGrowth.h:307-322 | one entry per item |
| Projection.RankTableFits | PythonModule/include/FPGrowth.h:307-322 | an entry is `SUPP_MAX` exactly for dropped items; survivors are numbered 0..n-1 in order |
| Projection.RankRises | PythonModule/include/FPGrowth.h:321 | new numbers increase with old ones |
| Projection.KeptEmpty | PythonModule/include/FPGrowth.h:324 | nothing survives exactly when every sum is below `minSupport` |
| Projection.ProjectionBase | PythonModule/include/FPGrowth.h:316-320 | resetting the headers leaves the node pool alone |
| Projection.RenumberOne | PythonModule/include/FPGrowth.h:309-321 | one item is either invalidated or renumbered, with its header set |
| Projection.Renumber | PythonModule/include/FPGrowth.h:307-322 | the loop returns the survivor count, writes the rank table into `m_pSubs` and sets the survivors' headers (item, sum, empty list) |
| Projection.ProjPath | PythonModule/include/FPGrowth.h:333-338 | the projected path has only renumbered survivors |
| Projection.ProjPathStep | PythonModule/include/FPGrowth.h:336-337 | each valid ancestor is written in front |
| Projection.ProjPathAbove | PythonModule/include/FPGrowth.h:334-338 | bounds carry over to the projected path |
| Projection.ProjPathIncreasing | PythonModule/include/FPGrowth.h:333-340 | the projected path is ascending, as `Add` needs |
| Projection.RankTableDecodes | PythonModule/include/FPGrowth.h:312-321 | the rank table maps survivors to their new numbers |
| Projection.ProjPathMembers | PythonModule/include/FPGrowth.h:333-338 | new number x is on the path exactly when survivor x is an ancestor |
| Projection.ProjPathExactly | PythonModule/include/FPGrowth.h:333-338 | the projected path holds exactly the surviving ancestors, renumbered |
| Projection.CollectPath | PythonModule/include/FPGrowth.h:333-338 | the buffer's tail `d..id` holds the projected path |
| Projection.BaseKeepsShape | PythonModule/include/FPGrowth.h:316-320 | resetting headers keeps the destination well linked and ordered |
| Projection.BaseWithoutSurvivors | PythonModule/include/FPGrowth.h:324 | with no survivors no header is written |
| Projection.Rebuilt | PythonModule/include/FPGrowth.h:331-341 | the rebuilt tree stays linked |
| Projection.StageStep | PythonModule/include/FPGrowth.h:331-341 | one `Add` of a projected path keeps the rebuild invariant |
| Projection.RebuildOne | PythonModule/include/FPGrowth.h:333-340 | one node's path is added with the node's support |
| Projection.Rebuild | PythonModule/include/FPGrowth.h:331-341 | the second loop adds every projected path, keeping the destination ordered |
| Projection.Grown | PythonModule/include/FPGrowth.h:326-341 | `cnt = n`, root support reset, then all paths added, giving the projection |
| Projection.Project | PythonModule/include/FPGrowth.h:290-344 | returns true iff some conditional support reaches `minSupport`; `m_pSubs` holds the rank table; on false the destination is unchanged, on true it has `cnt` survivors and is the projection |
| Patterns.Pack | PythonModule/include/FPGrowth.h:420 | the id is the low word and the support the high word |
| Patterns.Packed | PythonModule/include/FPGrowth.h:419-420 | each entry decodes to its id and support |
| Patterns.ExpandCount | PythonModule/include/FPGrowth.h:399-407 | one `pp` call records 2^(size-pos-1) patterns when the base is long enough |
| Patterns.FanCount | PythonModule/include/FPGrowth.h:424-425 | the `pp` loop records 2^n - 1 patterns, one per non-empty subset |
| Patterns.ExpandSound | PythonModule/include/FPGrowth.h:399-407 | every pattern `pp` records is the base plus an ascending selection of the extensions, at least `minLen` long, with support s |
| Patterns.ExpandCases | PythonModule/include/FPGrowth.h:401-406 | a record comes from a recursive call or is the pattern ending at `pos` |
| Patterns.FanSound | PythonModule/include/FPGrowth.h:424-425 | every record of the loop extends the base by an ascending selection |
| Patterns.ExpandComplete | PythonModule/include/FPGrowth.h:399-407 | every ascending selection long enough is recorded |
| Patterns.ExpandRecordsOwn | PythonModule/include/FPGrowth.h:405-406 | the pattern ending at `pos` is recorded when long enough |
| Patterns.ExpandRecordsFan | PythonModule/include/FPGrowth.h:402-403 | the recursive calls' records are kept |
| Patterns.FanReaches | PythonModule/include/FPGrowth.h:424-425 | each loop iteration's records are in the result |
| Patterns.FanExactly | PythonModule/include/FPGrowth.h:424-425 | the expansion records exactly the base plus each non-empty ascending selection of at least `minLen` |
| Patterns.FanLengths | PythonModule/include/FPGrowth.h:424-425 | each expanded record starts with the base, is longer, at most base plus all extensions, and carries s |
| Patterns.RecordedPassGate | PythonModule/include/FPGrowth.h:415-433 | nothing is recorded when the length gate fails; every record passes the gate and has the last pushed support |
| Patterns.RecordedUnpacks | PythonModule/include/FPGrowth.h:431-433 | without expansion exactly one record, pushed items packed with their supports, then extensions with support 0 |
| Mining.Pigeonhole | PythonModule/include/FPGrowth.h:378 | distinct ids below n number at most n |
| Mining.DataObjs.constructor | PythonModule/include/FPGrowth.h:711-726 | `Init` allocates fresh zeroed buffers of `elements` entries; no pattern is open |
| Mining.DataObjs.Room | PythonModule/include/FPGrowth.h:378 | a new distinct item always fits: `lastIDCnt + perfExtIDCnt < maxItemCnt` |
| Mining.DataObjs.Push | PythonModule/include/FPGrowth.h:373-375 | the item and support are pushed, marked added, and nothing else changes |
| Mining.DataObjs.Append | PythonModule/include/FPGrowth.h:394-395 | the item is appended to the perfect extensions and marked |
| Mining.DataObjs.WritePushed | PythonModule/include/FPGrowth.h:419-420 | the base's first `lastIDCnt` entries are the pushed ids packed with supports |
| Mining.DataObjs.WriteExtensions | PythonModule/include/FPGrowth.h:431-432 | the extensions follow with support 0, the pushed part untouched |
| Mining.DataObjs.PopTop | PythonModule/include/FPGrowth.h:472-473 | pops the top item and support and clears its flag |
| Mining.DataObjs.DropExtensions | PythonModule/include/FPGrowth.h:475-477 | clears all extensions and their flags |
| Mining.Pattern.constructor | PythonModule/include/FPGrowth.h:141 | a new pattern list is empty |
| Mining.Pattern.AddPattern | PythonModule/include/FPGrowth.h:406 | appends one record: the support and the first `len` base entries |
| Mining.NewPatterns | PythonModule/include/FPGrowth.h:141 | `n` fresh, empty, distinct pattern lists |
| Mining.FPGrowth.constructor | PythonModule/include/FPGrowth.h:62-242 | after the reduction fixpoint the tree holds every reduced transaction as an ascending index path: root support = number of transactions, header i has item i with support = count of the i-th ranked item; the tables agree with the ranking; every pattern list is empty; when no transaction repeats an item, every path is strictly ascending and the tree is ordered |
| Mining.FPGrowth.BeginPattern | PythonModule/include/FPGrowth.h:346-359 | opens a pattern, clearing stack and extensions, unless one is already open |
| Mining.FPGrowth.AddPatternElement | PythonModule/include/FPGrowth.h:361-385 | pushes the item with its support exactly when the support is frequent, a pattern is open and the item is not yet in it; always returns true |
| Mining.FPGrowth.AddPerfectExt | PythonModule/include/FPGrowth.h:387-397 | appends the item exactly under the same three conditions |
| Mining.FPGrowth.PP | PythonModule/include/FPGrowth.h:399-407 | the recursion appends the expansion records from `pos` and leaves the base below `basePos` intact |
| Mining.FPGrowth.ExpandAll | PythonModule/include/FPGrowth.h:424-425 | the loop appends the expansion of all extensions over the packed base |
| Mining.FPGrowth.RecordLocal | PythonModule/include/FPGrowth.h:414-434 | appends exactly the records the length gate and the build mode call for |
| Mining.FPGrowth.RecordExpanded | PythonModule/include/FPGrowth.h:417-428 | expansion mode: the expansion of the extensions, then the pushed pattern if it alone passes the gate |
| Mining.FPGrowth.RecordFlat | PythonModule/include/FPGrowth.h:431-433 | non-expansion mode: one record of pushed items and extensions with the last support |
| Mining.FPGrowth.EndLocalPattern | PythonModule/include/FPGrowth.h:409-479 | with a pattern open: records it, pops the top item and drops the extensions; otherwise nothing changes |
| Mining.FPGrowth.EndPattern | PythonModule/include/FPGrowth.h:481-490 | closes the pattern exactly when it is open and its first item is `item`; the counters are unchanged |
| Filtering.KeptOf | PythonModule/include/FPGrowth.h:750-767 | never keeps more patterns than the list has |
| Filtering.KeptOfMembers | PythonModule/include/FPGrowth.h:757-766 | a pattern is kept from a list exactly when it is in the list and passes the filter |
| Filtering.CollectedMembers | PythonModule/include/FPGrowth.h:748-770 | the result holds exactly the recorded patterns with length at most `maxC`, some item on the window grid, and at least `minPatternLength` distinct windows |
| Filtering.CollectedAtMostTotal | PythonModule/include/FPGrowth.h:772-779 | the filter keeps at most the `cnt` recorded patterns |
| Filtering.AnyOnGrid | PythonModule/include/FPGrowth.h:759 | `any_of` is true exactly when some item is divisible by `winLen` |
| Filtering.WindowSet | PythonModule/include/FPGrowth.h:761-762 | the set is exactly the windows `item / winLen` |
| Filtering.RecordsOf | PythonModule/include/FPGrowth.h:748-750 | the i-th list is pattern list i |
| Filtering.PostProcessing | PythonModule/include/FPGrowth.h:742-780 | the loops produce the filtered patterns, last list first |

## Left out

- Floating-point statistics: `np.percentile`, `binom.isf` and the power `(rate_ref*binsize)**k` are parameters or real arithmetic. `binom.isf` is an uninterpreted function, and its bound `isf <= n_bins` and its monotonicity are hypotheses of the lemmas that need them.
- Loading with `np.load`, `mkdirp`, and the YAML and `np.save` driver under `__main__`: the loader is a function parameter.
- `print` calls, and the quantities unit conversion of `binsize` stored in each job.
- rgutils.py:
  - neo and elephant loading;
  - `SNR_kelly`;
  - `shift_spiketrain`;
  - trial concatenation;
  - synchrofact removal.
- `growthTop` and `growth` (FPGrowth.h:493-605), the recursive driver that calls `project` and the bookkeeping, are not modelled. Each step they call is modelled, but not the recursion that combines them.
- OpenMP and the per-thread `DataObjs` and memory pools: one thread is modelled.
- Closed-set detection, `ClosedDetection` and the non-`ALL_PATTERN` branch of `endLocalPattern`. `ClosedDetect.h` accepts every item under `ALL_PATTERN`.
- Memory.h, FrequencyRef.h and Pattern.h are not part of this model:
  - `Alloc` is "append a node";
  - `ItemRef` comparison is by index;
  - `FrequencyRef::item()` is the first-seen number;
  - `Pattern::AddPattern` is "append a record".
- FIMModule.cpp (Python C-API marshalling), main.cpp (command line and file reading), SigTerm.h (signal handling), timers, memory reports, `PrintTree`, the log lines, and the `Reduction: cnt -> n` message of `PostProcessing`.
- `Stream` stands for `std::cout`: it records what is written.
- Fixed widths are not modelled for sums:
  - supports and counts are unbounded, so a `uint32_t` support sum that overflows is not modelled;
  - items are `uint32_t`, which is the `FPGrowth` constructor's precondition, and pushed supports are below 2^32.
- `Mining.FPGrowth.constructor`: claims that the tree is `Ordered` only for input whose transactions repeat no item. A transaction such as `[5, 5]` becomes the index path `[i, i]`, and inserting it gives a node whose parent has the same id, so `project` would add to `m_pSubs[id]`, which the `memset` at FPGrowth.h:292 does not clear. The model states the tree for every input as the insertion of every transaction into the ranked header table.
- `FrequencyRef::operator>`, used to sort each transaction at FPGrowth.h:193, is taken to put the smaller index first, so that transactions become ascending index paths. FrequencyRef.h is not part of this model.
- `Preparation.Ranked`: `std::sort` is not stable, so the order among items of equal support is one that the sort may give (the stable one), not the only possible one. The contract states only the permutation and the support order.
- `Preparation.CollectItems`: `F` is a hash map, so its iteration order is unspecified. The model iterates in first-seen order.
- `Mining.FPGrowth.AddPatternElement`: the `ERROR: lastIDCnt >= maxItemCnt` log line is not modelled. `Mining.DataObjs.Room` shows that the counter stays in range.
- Preconditions that exclude undefined behaviour in the source:
  - `winLen > 0` in `PostProcessing`;
  - item ids in range of the id-to-item table;
  - `lastIDCnt > 0` when `endLocalPattern` reads `m_pSupports[m_lastIDCnt - 1]` for a pattern that passes the gate;
  - `maxItemCnt > 0` when `EndPattern` reads `m_pLastID[0]`;
  - `id < SUPP_MAX` in `project`, so that ranks never collide with the marker.
- `Occurrences.EstimateNumberOccurrences`, `Occurrences.EstimateSession`, `Occurrences.EstimateEpoch`, `Occurrences.GrowPhase` and `Occurrences.EstimateContext` require `abs_min_spikes >= 0`. The value of scipy's `binom` for a negative size is not modelled. A size of 0 is accepted, as in the source.
- `Projection.Project`: the destination's node pool is append-only, so nodes of earlier projections stay in the pool, unreachable from the headers. The source reuses the memory through `PushState`/`PopState`.
