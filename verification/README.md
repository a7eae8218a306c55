# EBTEL-2fluid: DEM shoulder analysis, run configuration and loop results bookkeeping

This project models three pieces of EBTEL-2fluid, the two-fluid zero-dimensional coronal
loop model, and proves properties of each.

- **DEM shoulder analysis** (`DemAnalysis`, file `dem_analysis.dfy`).
  - `find_temp_bounds` finds the peak of a log-DEM curve and sets a threshold `delta`
    below it.
  - It searches the cool slice `dem[0:i_max]` and the hot slice `dem[i_max:-1]` for
    samples above the threshold.
  - It then walks each bound toward the peak while the sample under it is infinite.
  - `dem_shoulder_compare_fit` turns the bounds into two secant slopes.
  - `dem_shoulder_compare_integrate` turns them into a trapezoid-rule ratio.
  - A log-DEM sample is `Finite(v)`, `PosInf` or `NegInf`. numpy's comparisons and
    Python's negative indices and slices are written out.
  - The exceptions the search and the metrics raise (IndexError, including reads of
    `temp` past its end, and the ValueError of an empty array) and their inf/nan results
    are error values.
  - The walk loop is a method proved equal to the functional search.
- **Run configuration generator** (`ConfigDict` and `Configure`, files
  `config_dict.dfy` and `configure.dfy`).
  - The configuration dictionary is an insertion-ordered map.
  - Its XML text is a function, and `print_xml_config` is a method that builds the text
    write by write and is proved equal to it.
  - The `Configurer` class keeps the dictionary, `nmc_list` and `t_wait` as fields that
    its methods update:
    - `path_builder` and `time_arrays`;
    - `calc_nmc` and `print_job_array_config`;
    - `vary_wait_time`.
  - Each method is proved against a specification function. Lemmas about those
    functions state what the sweep, the job array and the XML text guarantee.
- **Results bookkeeping of the loop evolver** (`LoopResults`, file `loop_results.dfy`).
  - The class `Loop` holds seven parallel result vectors, pre-sized to
    `N = ceil(total_time / tau)`.
  - `SaveResults` overwrites row `i` while `i < N` and appends once `i >= N`.
  - `EvolveLoop` saves rows 1, 2, … and sets `excess`.
  - `PrintToFile` pops `excess` rows.
  - The adaptive solver's step size rides on the end of the state vector and is popped
    off again.
  - The physics (heating, temperatures, derivatives, the solvers' arithmetic, the
    initial state) enters as function values in a `Physics` parameter.

Supporting modules:

- `Outcomes`: the `Option` and `Result` types.
- `Numerics`:
  - ceiling and truncation of reals;
  - decimal text of integers, with its injectivity;
  - the least-multiple property of a ceiling quotient.
- `Sequences`: flattening and slicing lemmas.

The cool bound of `find_temp_bounds` is `np.where(dem_cool > dem_bound)[0][0] - 1`, with
no clamp (`analysis/routines/Python/ebtel2fl_dem_analysis.py:39`).

- On `[22, 24, 27, 26, 23, 21]` with `delta = 2` no cool sample is above the threshold,
  so line 39 raises IndexError. `DemAnalysis.NoCoolSampleAboveFails` proves this.
- When the first cool sample is above the threshold, the cool bound is `-1`. See Findings.

## Model

| member | source | states |
|---|---|---|
| DemAnalysis.Threshold | analysis/routines/Python/ebtel2fl_dem_analysis.py:29 | `dem_max - delta` is infinite exactly when the peak is; a finite peak lies above it exactly when `delta > 0` |
| DemAnalysis.ArgMaxIn | analysis/routines/Python/ebtel2fl_dem_analysis.py:21-24 | `np.argmax`: no sample exceeds the one at the result, and every sample before it is strictly smaller (the first maximum) |
| DemAnalysis.FirstAboveFrom | analysis/routines/Python/ebtel2fl_dem_analysis.py:39 | `np.where(s > t)[0][0]`: the first index above the threshold, with none above before it; `None` exactly when no sample is above |
| DemAnalysis.LastAboveBefore | analysis/routines/Python/ebtel2fl_dem_analysis.py:38 | `np.where(s > t)[0][-1]`: the last index above the threshold, with none above after it; `None` exactly when no sample is above |
| DemAnalysis.WalkCool | analysis/routines/Python/ebtel2fl_dem_analysis.py:46-51 | the cool walk stops on the first finite sample at or after its start, having passed only infinite ones; it fails with IndexError only by running off the slice |
| DemAnalysis.WalkHot | analysis/routines/Python/ebtel2fl_dem_analysis.py:53-58 | the hot walk stops on the first finite sample at or before its start, having passed only infinite ones; it fails with IndexError only by running off the slice |
| DemAnalysis.WalkToFinite | analysis/routines/Python/ebtel2fl_dem_analysis.py:45-58 | the interleaved flag loop always ends, and returns what the two independent walks and the read of `temp_hot` at the hot bound return, error included |
| DemAnalysis.FindTempBounds | analysis/routines/Python/ebtel2fl_dem_analysis.py:11-61 | `find_temp_bounds` step by step, reads of `temp` included, equals the search as written (`TempBoundsAt`), with the hot index made absolute |
| DemAnalysis.TemperatureReads | analysis/routines/Python/ebtel2fl_dem_analysis.py:25-57 | the reads `temp[i_max]` and `temp_hot[i_hot]` change the result only by raising IndexError, exactly when the hot bound is not below the last index of `temp`; a `temp` as long as `dem` never changes it |
| DemAnalysis.ShortTemperatureFails | analysis/routines/Python/ebtel2fl_dem_analysis.py:25-57 | with `dem = [0, 4, 5, 4, 0, 0]`, `temp = [1, 2, 3, 4, 5]`, `delta = 2` the bounds on `dem` alone are `(0, 2, 4)`, but `temp_hot[2]` raises IndexError, and so do both metrics |
| DemAnalysis.FoundImpliesFinitePeak | analysis/routines/Python/ebtel2fl_dem_analysis.py:21-38 | once the hot search finds a sample above the threshold, the peak is finite and the curve holds no `+inf` |
| DemAnalysis.SearchFound | analysis/routines/Python/ebtel2fl_dem_analysis.py:21-61 | a successful search has the argmax as its peak, and both searches succeeded with walks ending at the returned bounds |
| DemAnalysis.TempBoundsFound | analysis/routines/Python/ebtel2fl_dem_analysis.py:21-61 | returned bounds satisfy `-1 <= i_cool < i_max <= i_hot <= len-2`; each walk moves at most one step and only over an infinite sample; the samples at the peak, at `i_hot` and at a non-negative `i_cool` are finite |
| DemAnalysis.TempBoundsOutside | analysis/routines/Python/ebtel2fl_dem_analysis.py:29-39 | no sample before the cool bound, nor after the hot bound except the last, is above the threshold |
| DemAnalysis.TempBoundsFails | analysis/routines/Python/ebtel2fl_dem_analysis.py:32-58 | the search raises IndexError exactly when the cool slice has no sample above the threshold, the hot slice has none, or its last is the truncated hot slice's end; a peak at index 0 or one of the last two always fails |
| DemAnalysis.NoCoolSampleAboveFails | analysis/routines/Python/ebtel2fl_dem_analysis.py:34-39 | on `[22, 24, 27, 26, 23, 21]` with `delta = 2` the hot search succeeds but the cool `np.where` is empty, so line 39 raises IndexError; the corrected search fails alike |
| DemAnalysis.CorrectedOnlyClampsCool | analysis/routines/Python/ebtel2fl_dem_analysis.py:39 | the corrected search fails on the same curves as the code and otherwise differs only by replacing a `-1` cool bound with 0 |
| DemAnalysis.CorrectedTempBoundsFound | analysis/routines/Python/ebtel2fl_dem_analysis.py:11-61 | corrected bounds satisfy `0 <= i_cool < i_max <= i_hot <= len-2`, lie on finite samples, and the peak is the maximum with nothing above the threshold outside the bounds |
| DemAnalysis.SearchShiftInvariant | analysis/routines/Python/ebtel2fl_dem_analysis.py:21-39 | adding a constant to every log-DEM sample leaves the bounds and every failure unchanged, because the threshold moves with the peak |
| DemAnalysis.ShiftPieces | analysis/routines/Python/ebtel2fl_dem_analysis.py:21-35 | shifting the curve shifts the threshold and both slices and keeps the argmax |
| DemAnalysis.CorrectedFitSlopeSigns | analysis/routines/Python/ebtel2fl_dem_analysis.py:78-80 | with strictly increasing temperatures and corrected bounds, `a_hot <= 0 <= a_cool`; a hot bound on the peak gives a zero division |
| DemAnalysis.TrapzSplit | analysis/routines/Python/ebtel2fl_dem_analysis.py:101-103 | the trapezoid sum splits at any shared sample into the sums of the two parts |
| DemAnalysis.TrapzNonNegative | analysis/routines/Python/ebtel2fl_dem_analysis.py:101-103 | non-negative samples over non-decreasing abscissae have a non-negative trapezoid sum |
| DemAnalysis.TotalSplitsAtPeak | analysis/routines/Python/ebtel2fl_dem_analysis.py:101-103 | the total integral is the cool-to-peak integral plus the hot integral `dem[i_max:i_hot]` |
| DemAnalysis.HotAtMostTotal | analysis/routines/Python/ebtel2fl_dem_analysis.py:101-103 | for non-negative samples and increasing temperatures, `0 <= hot_shoulder <= total_shoulder` |
| DemAnalysis.FloatTrapzFinite | analysis/routines/Python/ebtel2fl_dem_analysis.py:101-103 | on finite samples the IEEE trapezoid sum of `np.trapz` is the real one; a finite sum over two or more samples means every sample is finite |
| DemAnalysis.TrapzDownToMinusInf | analysis/routines/Python/ebtel2fl_dem_analysis.py:101-103 | over increasing abscissae, samples that are finite or `-inf` never sum to `+inf` or nan, and one `-inf` among two or more samples makes the sum `-inf` |
| DemAnalysis.StrengthInUnitInterval | analysis/routines/Python/ebtel2fl_dem_analysis.py:101-105 | for non-negative finite samples (infinite ones allowed), increasing temperatures and bounds inside the curve, any returned `hot_shoulder_strength` lies in `[0, 1]` |
| DemAnalysis.StrengthOverMinusInfTotal | analysis/routines/Python/ebtel2fl_dem_analysis.py:101-105 | with a `-inf` sample (an empty DEM bin) in `dem[i_cool:i_hot]`, no `+inf` there and a finite hot slice, the strength is 0 (a finite integral over a `-inf` total); a total slice of one sample divides by zero instead |
| DemAnalysis.EmptyBinStrength | analysis/routines/Python/ebtel2fl_dem_analysis.py:87-107 | on `dem = [4, -inf, 5, 4, 0, 0]`, `temp = [1, ..., 6]`, `delta = 2` the cool walk steps over `-inf` to the bounds `(0, 2, 4)`; the hot integral is 4.5, the total `-inf` and the strength 0 |
| DemAnalysis.FitSlopeSigns | analysis/routines/Python/ebtel2fl_dem_analysis.py:63-83 | `dem_shoulder_compare_fit` over increasing temperatures on any curve: it fails with the bound search's exception; a hot bound on the peak divides by zero; any returned `a_hot` is `<= 0`; with `i_cool >= 0` and `i_hot > i_max` it returns an `a_cool >= 0` |
| DemAnalysis.IntegrateInUnitInterval | analysis/routines/Python/ebtel2fl_dem_analysis.py:87-107 | `dem_shoulder_compare_integrate` over increasing temperatures on any curve whose finite samples are non-negative: any returned strength lies in `[0, 1]`; an `i_cool` of `-1` never returns one (its total slice is empty) |
| DemAnalysis.CoolIndexWraps | analysis/routines/Python/ebtel2fl_dem_analysis.py:39 | on a curve whose first sample is above the threshold, `i_cool` is `-1`: the fit reads the last sample (cool slope `-2`) and the integral slice `dem[-1:i_hot]` is empty; corrected, `i_cool = 0`, the cool slope is `1` and the strength `0.5` |
| ConfigDict.SetWellFormed | bin/ebtel2fl_configure.py:153-154 | `d[key] = v` keeps keys distinct and matching the entries; an existing key keeps its place and a new key goes last |
| ConfigDict.ElementOfKey | bin/ebtel2fl_configure.py:62-91 | the XML text is the header, then exactly one element per key in dictionary order, then the footer |
| ConfigDict.XmlFrame | bin/ebtel2fl_configure.py:58-94 | the text starts with `<?xml version="1.0" ?>\n<input>\n` and ends with `</input>` with no newline after it |
| ConfigDict.ListBody | bin/ebtel2fl_configure.py:69-84 | a list entry is written as a newline, then `\t\t<key{i}>v_i</key{i}>\n` for each item in order, then a tab |
| ConfigDict.EmptyListBody | bin/ebtel2fl_configure.py:69-91 | an empty list entry is written as `\t<key>\n\t</key>\n` |
| ConfigDict.SetTwice | bin/ebtel2fl_configure.py:141 | setting a key twice equals setting it once to the second value |
| ConfigDict.XmlAfterAdd | bin/ebtel2fl_configure.py:62-91 | adding a new key appends its element just before `</input>`; the rest of the text is unchanged |
| ConfigDict.XmlAfterUpdate | bin/ebtel2fl_configure.py:62-91 | updating an existing key changes only that key's element, in place |
| Configure.PathBuilder | bin/ebtel2fl_configure.py:35-43 | `path_builder` fails only with TypeError or with a KeyError naming one of the keys it reads that is missing |
| Configure.PathsShareStem | bin/ebtel2fl_configure.py:36-42 | `data_path` and `config_path` are `root + heat_species + '_heating_runs/alpha' + ('uniform' or str(abs(alpha))) + '/'` followed by `data/` and `config/` respectively |
| Configure.ReadTimesOrder | bin/ebtel2fl_configure.py:153 | `time_arrays` raises KeyError for a missing `total_time`, then for a missing `t_pulse_half`, then TypeError for a non-numeric `t_pulse_half` or `total_time`; otherwise it reads the total and the pulse width `2 * t_pulse_half` |
| Configure.RunNamesCollide | bin/ebtel2fl_configure.py:124-143 | two wait times get the same `fn % tn` run name exactly when they truncate to the same integer |
| Configure.EventTimesSpacing | bin/ebtel2fl_configure.py:156-158 | both arrays have `num_events` entries; starts begin at 0 and are one period apart; each event lasts `2*t_pulse_half`; with `ti >= 0` no event ends after the next starts |
| Configure.EventsSpanTotalTime | bin/ebtel2fl_configure.py:153 | for positive total and period, `num_events` periods cover `total_time`, one fewer does not, and the last event starts before `total_time` |
| Configure.FillEventTimes | bin/ebtel2fl_configure.py:154-158 | the fill loop produces exactly the start and end arrays `i * period` and `i * period + 2*t_pulse_half` |
| Configure.CalcNmcIsLeast | bin/ebtel2fl_configure.py:146-148 | for an integer `mc >= 0` and `num_events > 0`, `calc_nmc` is the least `n >= 0` with `n * num_events >= mc` |
| Configure.RunCountOfMc | bin/ebtel2fl_configure.py:28-32 | after `time_arrays`, a wait time gets 1 run when `mc` is False or not given; `mc = None` raises TypeError in `calc_nmc`; a numeric `mc` gives a count or ZeroDivisionError |
| Configure.JobArrayOf | bin/ebtel2fl_configure.py:100-111 | `print_job_array_config` succeeds exactly when the rows and the file name can be built; any failure is ValueError |
| Configure.JobRowsLength | bin/ebtel2fl_configure.py:102-108 | the flattened job-array list has one row per run: its length is the sum of the run counts |
| Configure.JobRowAt | bin/ebtel2fl_configure.py:102-108 | row `sum(nmc_list[:i]) + j` of the list is `[t_wait[i], j]`, so the list is the blocks in order of `i` with `j = 0, 1, …` |
| Configure.SweepStepFacts | bin/ebtel2fl_configure.py:131-143 | a wait time that raises nothing appends exactly one count to `nmc_list`, 1 when `mc` is False or not given, plus exactly that many runs |
| Configure.SweepingStops | bin/ebtel2fl_configure.py:119-143 | once a wait time raises, the sweep goes no further |
| Configure.SweepCounts | bin/ebtel2fl_configure.py:119-135 | a sweep that raises nothing appends one count per wait time, keeps the earlier counts, and appends only 1s when `mc` is False or not given |
| Configure.SweepRuns | bin/ebtel2fl_configure.py:119-143 | the runs a sweep configures are those of the job-array rows built from its wait times and new counts, in order |
| Configure.JobArrayListsEveryRun | bin/ebtel2fl_configure.py:100-143 | after a sweep from a fresh configurer, the job-array rows name exactly the runs configured, in order, and their number is the sum of `nmc_list` |
| Configure.WriteItems | bin/ebtel2fl_configure.py:75-82 | the item loop writes exactly the item lines of the list in order |
| Configure.WriteElement | bin/ebtel2fl_configure.py:64-91 | one key's writes produce exactly its element |
| Configure.Configurer.constructor | bin/ebtel2fl_configure.py:13-32 | `__init__` on a dictionary `path_builder` accepts: keeps the dictionary, builds the paths, stores `Hn`, `delta_q` and `mc` as given (`mc` False when absent) and starts with an empty `nmc_list` |
| Configure.Configurer.Init | bin/ebtel2fl_configure.py:13-32 | `__init__` on any dictionary: fails exactly when `path_builder` raises, with its exception; otherwise a new configurer as the constructor makes it |
| Configure.Configurer.PrintXmlConfig | bin/ebtel2fl_configure.py:58-94 | the writes of `print_xml_config` produce exactly `XmlConfig` of the dictionary |
| Configure.Configurer.TimeArrays | bin/ebtel2fl_configure.py:151-158 | `time_arrays` changes the dictionary and raises exactly as `TimeArraysEffect` says: `num_events` stored before a negative count raises ValueError; a zero period raises OverflowError (ValueError for a zero total) |
| Configure.Configurer.CountEvents | bin/ebtel2fl_configure.py:153-158 | storing `num_events` and then the arrays yields `EventsEffect` |
| Configure.Configurer.StoreEvents | bin/ebtel2fl_configure.py:154-158 | the dictionary gains the start array, then the end array, as `WithEvents` says |
| Configure.Configurer.CalcNmc | bin/ebtel2fl_configure.py:146-148 | `calc_nmc` returns `CalcNmcOf`: KeyError without `num_events`, TypeError for `mc = None` or a non-numeric operand, ZeroDivisionError for zero events |
| Configure.Configurer.PrintJobArrayConfig | bin/ebtel2fl_configure.py:100-111 | the nested append loops build exactly `JobArrayOf` of the current `t_wait`, `nmc_list` and dictionary |
| Configure.Configurer.ArrangeWaitTime | bin/ebtel2fl_configure.py:121-134 | `time_arrays` followed by the run count gives `ArrangeStep` |
| Configure.Configurer.NameRuns | bin/ebtel2fl_configure.py:137-143 | runs `0 … num_runs-1` are named in order, and `output_file` ends up holding the last run's output file |
| Configure.Configurer.NameRun | bin/ebtel2fl_configure.py:141-143 | run `j` gets `config_path + fn%tn + '/' + fn%tn + '_' + str(j) + '.xml'` and `data_path + … + '_' + str(j)`, and `output_file` is set to the latter |
| Configure.Configurer.ConfigureWaitTime | bin/ebtel2fl_configure.py:121-143 | one pass of the loop updates the dictionary, `nmc_list` and the runs exactly as `SweepStep` says |
| Configure.Configurer.VaryWaitTime | bin/ebtel2fl_configure.py:114-143 | `vary_wait_time` sets `t_wait` and updates the state as `Sweeping` says, stopping at the first exception |
| LoopResults.Sized | source/loop.cpp:70-76 | after the seven resizes the vectors are aligned with `N` entries |
| LoopResults.PutFacts | source/loop.cpp:256-275 | saving into one vector appends one entry when `i >= N`, and otherwise overwrites index `i`; no other entry changes |
| LoopResults.PutAtIndex | source/loop.cpp:256-275 | with `max(N, i)` entries, saving at `i` lands at index `i` either way and leaves `max(N, i+1)` entries |
| LoopResults.SavedRows | source/loop.cpp:256-275 | `SaveResults` keeps the seven vectors aligned, puts the whole row in one place, and keeps every other row |
| LoopResults.TrimmedRows | source/loop.cpp:189-198 | popping `m` entries from every vector keeps them aligned and keeps the rows before the cut |
| LoopResults.EulerStep | source/loop.cpp:377-388 | the Euler state has the same length as the input state |
| LoopResults.StepFacts | source/loop.cpp:142-158 | every solver branch keeps three state entries; only `rka4` changes the step size; an adaptive solver whose steps are all at least `m` returns at least `m`, and one that keeps the step's sign returns a positive step for a positive one |
| LoopResults.FixedRunTimes | source/loop.cpp:136-175 | with a fixed-step solver every pass keeps the step size `tau` and pass `k` starts at time `(k+1)*tau` |
| LoopResults.NegativeStepNeverEnds | source/loop.cpp:134-183 | with a negative `tau` below `total_time`, and a fixed step or an adaptive solver that keeps the step's sign, the time of every pass is below `total_time`, so the loop never ends |
| LoopResults.RunReaches | source/loop.cpp:136-175 | when every step size is at least some `m > 0` (a fixed `tau >= m`, or an adaptive solver bounded below by `m`) the run's time reaches any `total_time` after finitely many passes, so the loop ends |
| LoopResults.SaveRow | source/loop.cpp:171-174 | saving pass `i`'s row at index `i` extends the rows that hold the run's states by one and keeps row 0 and the later rows |
| LoopResults.FixedStepRows | source/loop.cpp:134-183 | with a fixed step, the first `i` with `i*tau >= total_time` is `max(ceil(total_time/tau), 1)` |
| LoopResults.FixedStepCount | source/loop.cpp:134-183 | `FixedStepRows` for times accumulated step by step as `time += tau` |
| LoopResults.SaveTime | source/loop.cpp:171-174 | saving row `i` at a time below the total and after row `i-1` keeps the saved times increasing and below the total |
| LoopResults.SaveFixedTime | source/loop.cpp:171-174 | saving row `i` at `i*tau` keeps the rows at `tau, 2tau, …` |
| LoopResults.SaveHeat | source/loop.cpp:248-251 | saving row `i` keeps each row's heat equal to the heating at its time |
| LoopResults.Loop.constructor | source/loop.cpp:43-76 | `N = ceil(total_time/tau)`, and all seven vectors hold `N` zeros |
| LoopResults.Loop.SaveResults | source/loop.cpp:248-276 | the results become `Saved(old, i, N, row)` for the row observed at time `t`; nothing else changes |
| LoopResults.Loop.InitialConditions | source/loop.cpp:124-131 | the state is the three initial entries and row 0 is saved at time 0 |
| LoopResults.Loop.EulerSolver | source/loop.cpp:377-388 | the element-wise loop returns exactly `EulerStep` of the state and its derivatives |
| LoopResults.Loop.Advance | source/loop.cpp:142-158 | the solver branch yields `Step`: for `rka4` the helper `Loop.Rka4Solver` returns the new state with the step size appended (as `RKA4Solver` does at lines 463-464 and 478-480), and `Advance` takes that last entry as `tau` and pops it, leaving the three-entry state |
| LoopResults.Loop.Pass | source/loop.cpp:142-174 | one pass with a positive step size steps the state, saves row `i` at the current time and keeps the loop's invariant `Evolving` (times, heats, row contents, the run's state) for the next pass, whose step size is again positive |
| LoopResults.Loop.Passes | source/loop.cpp:136-175 | on a run whose time reaches `total_time` after some number of passes, the loop ends at the first time at or past `total_time`, with `Evolving` holding for the rows saved; with `total_time <= tau` the body never runs |
| LoopResults.Loop.EvolveLoop | source/loop.cpp:134-183 | rows are saved at consecutive indices from 1; afterwards each vector holds `max(N, i)` entries and `excess = max(N - i, 0)`; the saved times increase and stay below `total_time`; each heat is the heating at its time; with a fixed positive step, `i = max(N, 1)` and `excess = 0`; with a negative `tau` (at or above `total_time`, the only case where the loop ends) `i = 1` and `excess = max(N - 1, 0)`; row `k >= 1` holds the state after `k` solver steps, observed at the time pass `k` started from; the final state is the last one saved; row 0 and the unused rows keep their values |
| LoopResults.Loop.PrintToFile | source/loop.cpp:185-198 | exactly `excess` trailing entries are popped from every vector; after `EvolveLoop` each vector holds exactly the rows saved |

## Left out

- Plotting (`plot_ebtel_dem_compare`) and its file reading are not modelled: they are presentation and I/O.
- DemAnalysis.FindTempBounds: the values `temp_dem_max`, `temp_cool`, `temp_bound_cool` and `temp_bound_hot` are not kept, because they never reach the result. The reads that can fail are modelled: `temp[i_max]` and `temp_hot[i_hot]` raise IndexError on a short `temp`. The read of `temp_cool`, a slice of `dem`, is at an index the walk has just read, so it cannot fail.
- IEEE rounding is not modelled, and nan only inside `np.trapz`:
  - samples are reals or ±inf;
  - `np.trapz` sums infinite samples in IEEE arithmetic (`DemAnalysis.FloatTrapz`), and a finite integral over an infinite total gives the strength 0, without the sign of numpy's `-0.0`;
  - the inf or nan results of the two metrics are error values (`NonFinite`, `ZeroDivision`) rather than floats;
  - `np.trapz` on slices of unequal length is `ShapeMismatch`.
- `str()` of a float is a function parameter `fmt`: Python's shortest round-trip float text is not modelled.
- Configure.AsStr: a list-valued `loop_length` raises TypeError in the model, although Python's `str()` of a list succeeds and names the files (`bin/ebtel2fl_configure.py` lines 43 and 109). A list-valued `num_events` or `total_time` also raises TypeError; numpy's element-wise arithmetic is not modelled.
- `print_xml_config` returns the text; opening, writing and closing the file are not modelled. The same holds for `np.savetxt` in `print_job_array_config`, which returns the file name and rows.
- `os.makedirs` in `vary_wait_time` is not modelled. The per-run XML text is not collected: each run's `output_file` entry is, and `ConfigDict.XmlConfig` gives its text.
- `amp_arrays`, `distribution_bounds` and `power_law_dist` are not modelled: they use random numbers, fractional powers and logs.
  - `vary_wait_time`'s call to `amp_arrays` is therefore omitted. So is the KeyError or AttributeError it can raise when `Hn`, `delta_q` or amplitude keys are missing.
- `np.arange(tn_a, tn_b + delta_tn, delta_tn)` with a float step is not modelled: `VaryWaitTime` takes the wait times as a sequence.
- `loop.cpp` physics is not modelled: `CalculateDerivs`, the RK4 and RKA4 arithmetic and step-size control, `CalculateC1`, thermal conduction, collision frequency, the abundance correction and the iteration in `CalculateInitialConditions`. These enter as the function values of `LoopResults.Physics`.
- tinyxml2 parsing in the `Loop` constructor, the `Heater`, `CRadiation` and `Dem` classes, `dem->CalculateDEM` and the `ofstream` output of `PrintToFile` are not modelled. The heater, `CRadiation` and `Dem` sources are not part of this model.
- The console messages of `RKA4Solver` are not modelled.
- LoopResults.Loop.EvolveLoop: requires that the run's time reaches `total_time` after some number of passes, which is exactly when the source loop ends (`LoopResults.RunReaches` gives sufficient conditions). For `rka4` it also requires the solver to keep the sign of the step size (`LoopResults.StepKeepsSign`), as `RKA4Solver` does: every retry scales the step by a positive factor. The model does not capture how far one call can shrink the step: each of up to 100 retries may divide the previous retry's step by 1.1, and the result is capped at 4 times the last retry's step (source/loop.cpp lines 440-478).
- LoopResults.Loop.EvolveLoop: time is accumulated in exact real arithmetic. With floating-point accumulation of `time += tau` the fixed-step row count can differ from `ceil(total_time/tau)` by rounding.
- LoopResults.Loop.PrintToFile: `excess` is read uninitialised in the source when `EvolveLoop` was not run. The model requires `0 <= excess <= |time|`, which `EvolveLoop` establishes.
- LoopResults.Loop.constructor: requires `tau != 0`, because the quotient is then infinite or NaN and its `int` conversion is undefined. It also requires `N >= 0`, because `resize` of a negative size throws in C++. The `int` conversion of very large quotients is not modelled.
- LoopResults.Loop.EvolveLoop: requires `tau != 0`, as the constructor does. A negative `tau` below `total_time` is excluded by the requirement that the run ends, because the source loop then never ends (`LoopResults.NegativeStepNeverEnds`). With `total_time <= tau < 0` the loop body never runs, and `EvolveLoop` leaves one row and `excess = N - 1` (for `tau = -1`, `total_time = -3`: `N = 3`, `excess = 2`).
- Configure.Configurer.constructor: requires `path_builder` to succeed. `Configure.Configurer.Init` models `__init__` on every dictionary, returning the exception `path_builder` raises.
- A list or array passed as `mc` is not modelled: `Configure.McArg` holds a scalar or None.
- Configure.Configurer.constructor: `configDictionary` is a value. `__init__` keeps the caller's dictionary by reference, and `time_arrays` and `vary_wait_time` then change it in place, where the caller sees the changes (`bin/ebtel2fl_configure.py` lines 14, 141 and 153-158). The model does not capture this aliasing.

## Findings

| source | as written | input that shows it | evidently intended | confidence | as-written member | corrected member |
|---|---|---|---|---|---|---|
| analysis/routines/Python/ebtel2fl_dem_analysis.py:39 | `i_dem_cool = np.where(dem_cool > dem_bound)[0][0] - 1` is `-1` when the first sample is already above the threshold. Python then reads `dem[-1]`, the last sample, as the cool bound in the fit, and `dem[-1:i_hot]` is empty in the integral | `dem = [5, 6, 5, 0, 0]`, `temp = [1, 2, 3, 4, 5]`, `delta = 2`: bounds `(-1, 1, 3)`, cool slope `-2` (negative, although the peak is the maximum), integral total 0 | the cool bound clamped at index 0, giving bounds `(0, 1, 3)`, a non-negative cool slope, and a strength in `[0, 1]` | not executed | DemAnalysis.CoolIndexWraps | DemAnalysis.CorrectedTempBoundsFound |
