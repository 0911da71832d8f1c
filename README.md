# Z-score streaming anomaly detector

A Dafny model of the streaming pipeline inside
`sandaruwan_anomlies_by_z_scores.py`. An animation timer drives the script
once per tick. On each tick it:

1. takes one random value;
2. clears the display buffers whenever the number of completed ticks is a
   positive multiple of 100, and moves the visible x-range to the next
   100 ticks;
3. appends the value to the full, never-truncated history;
4. computes the value's z-score against the mean and population standard
   deviation of that whole history, which already includes the value;
5. labels the value an anomaly when the z-score is above 0.9 or below
   -0.9, with the z-score taken as 0 when the deviation is 0;
6. appends `(tick, value)` to the anomaly buffers or to the normal
   buffers;
7. counts the tick.

The project has three modules:

- `Statistics` (Statistics.dfy) defines the sum, the mean, the sum of squared
  deviations and the population variance of a history, over `real`. It proves
  that the variance is zero exactly when all values are equal, and that the
  mean stays within the range of the values.
- `Classifier` (Classifier.dfy) models the threshold, the z-score and the
  two-sided test.
  - `CheckAnomaly` is the script's test as written.
  - `IsAnomaly` is an equivalent test without square roots: the variance is
    positive and the squared deviation exceeds 0.81 times the variance.
  - The two are proved to agree for every standard deviation.
  - The test is proved symmetric and strict, and it never flags a history
    whose values are all equal, including a history of one value.
- `Pipeline` (Pipeline.dfy) models the module-level state as the class
  `Pipeline`, with methods `GenerateData` and `UpdatePlot`.
  - Its invariant `Valid` says the buffers are a function of the history:
    after `n` ticks, the normal and anomaly x-lists are exactly the ticks of
    the current window `[WindowStartAfter(n), n)` with that label
    (`TicksWhere`), and the y-lists hold the values of those ticks.
  - From that invariant the module proves that the reset rule holds, that
    every tick of the window appears in exactly one x-list, and that each
    x-list is strictly increasing and paired with its y-list.
  - A concrete run, 10, 10, 10 and then 100, plots ticks 0-2 as normal and
    tick 3 as an anomaly.

The x-coordinate of a point (lines 123 and 128) and the reset check
(line 73) both read `len(data_round)` before line 133 appends to it. The
code therefore uses one consistent 0-based tick counter, and the model's
`rounds` field is that counter. The integers stored in `data_round` are
never read, so they are not modelled.

The mean and standard deviation are recomputed from the whole history on
each tick (lines 91 and 94); the model does the same and keeps no running
sums.

## Model

| member | source | states |
|---|---|---|
| Statistics.SumSqDevNonNegative | sandaruwan_anomlies_by_z_scores.py:94 | the sum of squared deviations from any centre is never negative |
| Statistics.VarianceNonNegative | sandaruwan_anomlies_by_z_scores.py:94 | the population variance of a non-empty history is never negative |
| Statistics.SumSqDevZeroIff | sandaruwan_anomlies_by_z_scores.py:94-98 | the squared deviations from mu sum to zero iff every value equals mu |
| Statistics.SumOfConstant | sandaruwan_anomlies_by_z_scores.py:91 | a history whose values all equal c sums to its length times c |
| Statistics.MeanOfAllEqual | sandaruwan_anomlies_by_z_scores.py:91 | the mean of an all-equal history is that common value |
| Statistics.VarianceZeroIffAllEqual | sandaruwan_anomlies_by_z_scores.py:94-99 | the population deviation is zero, so the guard fires, exactly when all values in the history are equal |
| Statistics.SumWithin | sandaruwan_anomlies_by_z_scores.py:83-91 | values within [lo, hi] give a sum within [n*lo, n*hi] |
| Statistics.MeanWithin | sandaruwan_anomlies_by_z_scores.py:83-91 | the mean of values drawn from [lo, hi] lies in [lo, hi] |
| Classifier.ZScore | sandaruwan_anomlies_by_z_scores.py:89-101 | the z-score is 0 when the variance is 0, and otherwise z times sd equals the deviation x - mean |
| Classifier.CheckAnomaly | sandaruwan_anomlies_by_z_scores.py:103-112 | the two-sided test on the z-score holds iff the square-root-free test IsAnomaly holds, and never on a zero-variance history |
| Classifier.SquaredTestAgrees | sandaruwan_anomlies_by_z_scores.py:98-111 | for every standard deviation of the history, z > 0.9 or z < -0.9 iff the variance is positive and (x - mean)^2 > 0.81 * variance |
| Classifier.CheckAnomalySymmetric | sandaruwan_anomlies_by_z_scores.py:109-111 | two values equally far above and below the mean get the same label |
| Classifier.BoundaryIsNormal | sandaruwan_anomlies_by_z_scores.py:109-111 | a value exactly 0.9 deviations from the mean is normal, because the comparisons are strict |
| Classifier.AllEqualNeverFlagged | sandaruwan_anomlies_by_z_scores.py:98-99 | no value is flagged against a history of equal values |
| Classifier.FirstValueNeverFlagged | sandaruwan_anomlies_by_z_scores.py:85-99 | the first value, tested against the history holding only itself, is normal |
| Pipeline.WindowStartAfter | sandaruwan_anomlies_by_z_scores.py:73-79 | after n ticks the window start is a multiple of 100, at most n, and for n > 0 the window [w, w + 100) contains tick n - 1 |
| Pipeline.WindowStartStep | sandaruwan_anomlies_by_z_scores.py:73-79 | a tick moves the window start to n exactly when n is a positive multiple of 100, and leaves it unchanged otherwise |
| Pipeline.TicksWhereRange | sandaruwan_anomlies_by_z_scores.py:123-128 | the specified x-list holds only ticks of [lo, hi) |
| Pipeline.TicksWhereIncreasing | sandaruwan_anomlies_by_z_scores.py:123-133 | the specified x-list is strictly increasing |
| Pipeline.TicksWhereMembers | sandaruwan_anomlies_by_z_scores.py:121-130 | a tick of [lo, hi) is in the x-list of a label iff that tick received that label |
| Pipeline.TicksWhereStable | sandaruwan_anomlies_by_z_scores.py:117-121 | a tick's label depends only on the history up to and including that tick, so later values do not relabel it |
| Pipeline.TicksPartition | sandaruwan_anomlies_by_z_scores.py:122-130 | the two x-lists together hold hi - lo ticks, and each tick of [lo, hi) is in exactly one of them |
| Pipeline.FlaggedLast | sandaruwan_anomlies_by_z_scores.py:85-121 | the newest tick's label is its value tested against the whole history, which includes it |
| Pipeline.TicksAppend | sandaruwan_anomlies_by_z_scores.py:122-130 | a new value adds its tick, and nothing else, at the end of the x-list of its label |
| Pipeline.TicksStep | sandaruwan_anomlies_by_z_scores.py:73-133 | one tick either restarts the window's x-list or keeps it, and then appends tick n to the list of its label |
| Pipeline.PlottedAppend | sandaruwan_anomlies_by_z_scores.py:122-130 | appending (n, v) keeps each y-list the same length as its x-list and equal to the history at its x-values |
| Pipeline.StepConsistent | sandaruwan_anomlies_by_z_scores.py:115-133 | one full tick (optional reset, then append to the buffer of the label) preserves the buffers-as-function-of-history invariant |
| Pipeline.Pipeline.constructor | sandaruwan_anomlies_by_z_scores.py:42-58 | all lists start empty, the tick count is 0, and the window starts at 0 |
| Pipeline.Pipeline.GenerateData | sandaruwan_anomlies_by_z_scores.py:71-86 | the history grows by exactly the new value; the four buffers are cleared and the window moves to [n, n + 100) iff n is a positive multiple of 100, and otherwise they are unchanged; the value is returned |
| Pipeline.Pipeline.UpdatePlot | sandaruwan_anomlies_by_z_scores.py:115-134 | keeps Valid; the history gains v; the count grows by one; (n, v) goes to the anomaly pair iff v is flagged against the history including v, and to the normal pair otherwise, after the reset if due |
| Pipeline.WindowHoldsEachTickOnce | sandaruwan_anomlies_by_z_scores.py:73-133 | in every state the window spans at most 100 ticks, and each of its ticks is plotted exactly once |
| Pipeline.BuffersOrderedAndPaired | sandaruwan_anomlies_by_z_scores.py:122-133 | in every state each x-list is strictly increasing and within [windowStart, count), and each y-list has its x-list's length and holds the history value at each x |
| Pipeline.ResetAfterHundredTicks | sandaruwan_anomlies_by_z_scores.py:73-79 | after 101 ticks the window starts at 100 and holds only tick 100 |
| Pipeline.FourValueStatistics | sandaruwan_anomlies_by_z_scores.py:89-112 | the history 10, 10, 10, 100 has mean 32.5 and variance 1518.75, and 100 is flagged against it |
| Pipeline.FirstTen | sandaruwan_anomlies_by_z_scores.py:115-134 | a fresh pipeline fed 10 plots tick 0 as normal |
| Pipeline.SecondTen | sandaruwan_anomlies_by_z_scores.py:115-134 | fed 10 again, it plots tick 1 as normal |
| Pipeline.ThirdTen | sandaruwan_anomlies_by_z_scores.py:115-134 | fed 10 a third time, it plots tick 2 as normal |
| Pipeline.FourValueScenario | sandaruwan_anomlies_by_z_scores.py:115-134 | feeding 10, 10, 10, 100 yields normal points (0,10), (1,10), (2,10) and the single anomaly (3,100) |

## Left out

- The matplotlib figure, axes, plot objects, `init`, `set_data`, `plt.draw`, the y-limits, the title, the legend and the grid (lines 31-39, 51-52, 61-68, 125, 130, 140 onwards) are rendering only. The x-axis call at line 79 is kept as the `windowStart` field, which is the lower bound of the visible range `[windowStart, windowStart + 100)`.
- `animation.FuncAnimation` and its 300 ms timer (line 137) are an external driver. One tick is one call of `UpdatePlot`.
- `np.random.uniform(0, 100)` (line 83) is a random source. The value is a parameter of `GenerateData` and `UpdatePlot`, and any real is accepted, which includes the generator's range. `MeanWithin` gives the consequence of the range for the mean.
- Pipeline.Pipeline.UpdatePlot: labels the value with `IsAnomaly` rather than by calling `CheckAnomaly` on a computed standard deviation. The deviation is a square root, which Dafny's reals lack. `CheckAnomaly` agrees with `IsAnomaly` for every value that squares to the variance, so the labels are the same.
- Floating-point behaviour of `np.mean` and `np.std` is not modelled. This includes rounding and the exact float comparison `std_dev == 0`. The statistics are exact over `real`, so a deviation that float rounding makes tiny but non-zero is not modelled.
- The integers appended to `data_round` (line 133) are never read. Only the count is modelled, as `rounds`.
- `np.mean` of an empty history cannot happen, because the value is appended before the statistics are computed. `Mean` and `Variance` therefore require a non-empty history.
