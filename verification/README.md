# ECG classification pipeline (CinC 2021) — a Dafny model of its core

The repository trains a 12-lead ECG classifier for the PhysioNet/CinC
Challenge 2021. This project models the deterministic core behind that
training in Dafny and proves properties of the model:

- **Dataset** (`dataset.py`):
  - the train/test split: ratio check, cache file names and cache choice,
    candidate filtering per tranche, the shuffle-and-retry partition, the
    validity test, and selecting the records for training or validation;
  - the post-filter of the record list;
  - class weights;
  - label rows;
  - the 2-d to 3-d reshaping of an item;
  - `to(leads)`.
- **Utilities** (`utils/misc.py`): `mask_to_intervals`,
  `masks_to_waveforms`, `nildent`, `list_sum` and `ms2samples`.
- **Signal utilities** (`torch_ecg_bak/torch_ecg/utils/misc.py`):
  `ensure_siglen`, `ensure_lead_fmt`, `get_mask`, `str2bool` and
  `diff_with_step`.
- **Network utilities** (`utils/utils_nn.py`): `extend_predictions`,
  `compute_output_shape` with its four wrappers, and
  `compute_receptive_field`.
- **Trainer** (`official_phase_legacy/trainer.py`):
  - the choice of optimizer, scheduler and loss;
  - flooding;
  - the per-epoch scheduler step;
  - best-model tracking and early stopping;
  - the rolling checkpoint queue;
  - the final save;
  - the augmentation flag around `evaluate`, for a dataset that provides
    one (the repository's own `CINC2021` does not; see Left out).

## How Python is modelled

- **Errors.** Python exceptions are `Err` values of a `Result` type
  (module `Wrappers`). Each exception class is a constructor of `Error`:
  `AssertionError`, `ValueError`, `KeyError`, `IndexError`,
  `NotImplementedError`, `ZeroDivisionError`, `RuntimeError` and
  `UnboundLocalError`.
- **Arrays.** numpy arrays are sequences. A 2-d array is a `Grid.Array`
  whose rows all have the same length.
- **Lowercasing.** `str.lower()` is modelled on the characters it turns into
  ASCII ones (`PyCore.Lower`): `A`-`Z`, and U+212A KELVIN SIGN, which lowers
  to `k`.
- **Division.**
  - Python's `//` is `PyCore.FloorDiv`.
  - `int()` of a quotient is `PyCore.TruncDiv`.
- **Lookups.** `list.index` is `PyCore.IndexOf`, the first occurrence.
- **Floating point.** Metrics and losses are `real`.
- **Files and the database reader.** These become parameters:
  - a `Reader` function gives each record's labels, length and exceptional
    flag, and whether its data file exists;
  - the shuffle is a caller-supplied sequence of orderings, one per attempt;
  - file existence for the cache choice is a set of booleans.

Modules follow the source files:

| module | file |
|---|---|
| `PyCore` | Python/numpy primitives |
| `Grid` | 2-d arrays |
| `Intervals`, `Waveforms`, `TextUtils` | `utils/misc.py` |
| `SignalMisc` | `torch_ecg_bak/torch_ecg/utils/misc.py` |
| `UtilsNN` | `utils/utils_nn.py` |
| `Records`, `TrainTestSplit` | `dataset.py` |
| `Trainer`, `Evaluator` | `official_phase_legacy/trainer.py` |

## Model

| member | source | states |
|---|---|---|
| PyCore.Lower | utils/misc.py:751-756 | lowercasing keeps the length and maps each character independently; it changes only `A`-`Z` and the Kelvin sign, which becomes `k` |
| PyCore.LowerIdempotent | utils/misc.py:751-756 | lowercasing twice is the same as lowercasing once |
| PyCore.FloorDiv | utils/misc.py:349 | Python's `//` rounds toward minus infinity: the remainder has the sign of the divisor and is smaller than it in magnitude |
| PyCore.TruncDiv | dataset.py:290 | `int()` of a quotient rounds toward zero on both signs |
| PyCore.IndexOf | dataset.py:217 | `list.index` returns a position holding the element, and no earlier position holds it |
| PyCore.FilterCount | dataset.py:116-121 | a list comprehension with a condition keeps exactly the occurrences that satisfy it |
| PyCore.NatToStringRoundTrip | dataset.py:294-301 | the decimal rendering used in file names reads back to the same number |
| PyCore.IntToStringInjective | utils/misc.py:740-743 | two integers with the same decimal rendering are equal |
| Grid.Transpose | torch_ecg_bak/torch_ecg/utils/misc.py:690-693 | transposing swaps the shape and moves cell (i, j) to (j, i) |
| Grid.TransposeInvolution | torch_ecg_bak/torch_ecg/utils/misc.py:707-708 | transposing back restores the array |
| Intervals.Positions | utils/misc.py:808 | `np.where(mask == v)` lists, in increasing order, exactly the indices holding `v` |
| Intervals.RunsCover | utils/misc.py:806-820 | the runs built from ascending positions cover exactly those positions |
| Intervals.RunsUnextendable | utils/misc.py:806-820 | no run can be extended by a neighbouring position |
| Intervals.IntervalsHoldValue | utils/misc.py:779-825 | every index inside a returned interval holds the value |
| Intervals.IntervalsMaximal | utils/misc.py:779-825 | the indices just before and just after each interval do not hold the value |
| Intervals.IntervalsAscending | utils/misc.py:779-825 | intervals are non-empty, in increasing order, and separated by at least one index |
| Intervals.IntervalsCoverValue | utils/misc.py:779-825 | every index holding the value lies in some interval |
| Intervals.MaskIntervalsAreMaximalRuns | utils/misc.py:779-825 | the intervals are exactly the maximal runs of the value |
| Intervals.AbsentValueHasNoIntervals | utils/misc.py:779-825 | a value absent from the mask gives no intervals |
| Intervals.MaskToIntervalsForKeys | utils/misc.py:798-803 | the result has one key per requested value (all distinct values when none are given), each mapped to that value's intervals |
| Intervals.AccumulateDistinct | utils/misc.py:806-823 | accumulating over distinct values gives each value its own intervals |
| Waveforms.SpansToWaves | utils/misc.py:764-774 | each interval becomes a wave with that onset and offset and the lowered class name |
| Waveforms.ChannelWavesFromRuns | utils/misc.py:749-774 | every wave of a channel comes from a maximal run of a P/QRS/T class in that channel |
| Waveforms.ChannelWavesCoverRuns | utils/misc.py:749-774 | every maximal run of a P/QRS/T class value in a channel becomes a wave of that channel |
| Waveforms.Insert | utils/misc.py:775 | inserting into an onset-sorted list keeps it sorted and adds exactly the new wave |
| Waveforms.SortByOnset | utils/misc.py:775 | sorting by onset gives a sorted permutation of the waves |
| Waveforms.DefaultLeadNamesDistinct | utils/misc.py:740-742 | the default names `lead_1` … `lead_n` are pairwise different |
| Waveforms.MasksToWaveforms | utils/misc.py:725-776 | masks with more than two dimensions raise `ValueError`; a lead-name count that differs from the channel count raises `AssertionError`; otherwise the keys are exactly the lead names |
| Waveforms.LeadWavesDistinct | utils/misc.py:747-775 | with distinct lead names, each lead gets the sorted waves of its own channel only |
| Waveforms.WavesAreSortedClassRuns | utils/misc.py:689-776 | every lead's list is sorted by onset, and a wave is in it exactly when it is a maximal run of a P/QRS/T class in that lead's channel |
| Waveforms.OneDimensionalMaskIsLeadOne | utils/misc.py:725-726 | a 1-d mask is a single channel named `lead_1` |
| TextUtils.SplitJoin | utils/misc.py:834-836 | splitting joined lines gives the lines back when the last one is not empty |
| TextUtils.SplitJoinNewline | utils/misc.py:834-836 | splitting joined lines followed by a newline gives the lines back |
| TextUtils.NildentKeepsTrailingNewline | utils/misc.py:834-836 | when the text ends with a newline, so does the result |
| TextUtils.NildentKeepsLines | utils/misc.py:828-837 | when the last stripped line is not empty, the result's lines are the stripped input lines, and the trailing newline is kept exactly |
| TextUtils.NildentDropsBlankLastLine | utils/misc.py:834-836 | for `"a\n "`, the result has one line fewer than the input and gains a trailing newline the input did not have |
| TextUtils.NildentKeepingLinesKeepsLines | utils/misc.py:828-833 | the corrected `nildent` keeps every line, stripped, and keeps the trailing newline |
| TextUtils.NildentKeepingLinesAgrees | utils/misc.py:834-836 | the corrected and as-written `nildent` agree exactly when the text ends with a newline, has no lines, or its last stripped line is not empty |
| TextUtils.ListSum | utils/misc.py:840-855 | concatenation has the total length of its parts |
| TextUtils.ListSumContains | utils/misc.py:854 | an element is in the concatenation if and only if it is in one of the parts |
| TextUtils.ListSumPlacesElement | utils/misc.py:854 | element `i` of part `j` sits after all the earlier parts |
| TextUtils.ListSumAppend | utils/misc.py:854 | concatenating two lists of parts is the concatenation of their sums |
| TextUtils.Ms2Samples | utils/misc.py:332-350 | the sample count is the largest whole number not above `t * fs / 1000` |
| TextUtils.Ms2SamplesExactAndMonotone | utils/misc.py:349 | whole seconds convert exactly, and longer durations never give fewer samples |
| SignalMisc.WindowLeads | torch_ecg_bak/torch_ecg/utils/misc.py:695-705 | every lead is cropped or padded to the target length, independently of the others |
| SignalMisc.EnsureSiglen | torch_ecg_bak/torch_ecg/utils/misc.py:666-710 | the signal gets the target length along the time axis and keeps its leads, for either layout |
| SignalMisc.CropIsCentral | torch_ecg_bak/torch_ecg/utils/misc.py:697-700 | a long lead yields the contiguous window that starts after half the excess |
| SignalMisc.CropIsBalanced | torch_ecg_bak/torch_ecg/utils/misc.py:697-700 | the samples dropped on the left and on the right differ by at most one |
| SignalMisc.PadIsSymmetric | torch_ecg_bak/torch_ecg/utils/misc.py:701-705 | a short lead is kept whole, with zeros on both sides whose counts differ by at most one |
| SignalMisc.WindowExactLengthIsIdentity | torch_ecg_bak/torch_ecg/utils/misc.py:690-710 | a signal already of the target length is returned unchanged |
| SignalMisc.LeadLastWindowsEachLead | torch_ecg_bak/torch_ecg/utils/misc.py:690-708 | in lead-last layout, each lead column is windowed exactly as in lead-first layout |
| SignalMisc.EnsureLeadFmt | torch_ecg_bak/torch_ecg/utils/misc.py:634-663 | a square or mismatched signal raises `ValueError`; otherwise the result is the input or its transpose, with the leads on the requested axis |
| SignalMisc.LeadFmtRoundTrip | torch_ecg_bak/torch_ecg/utils/misc.py:654-663 | converting to lead-last and back to lead-first restores the signal |
| SignalMisc.MaskRowCovers | torch_ecg_bak/torch_ecg/utils/misc.py:367-376 | a mask cell is 1 exactly when some interval paints it |
| SignalMisc.CriticalRowIsUnion | torch_ecg_bak/torch_ecg/utils/misc.py:367-376 | a mask cell is 1 exactly when it lies within the biased window of some critical point |
| SignalMisc.GetMask | torch_ecg_bak/torch_ecg/utils/misc.py:343-376 | an empty shape with critical points raises `IndexError`; otherwise any format but `mask` and `intervals` raises `UnboundLocalError`; the intervals clip each critical point's window to the last axis, and an empty shape gives the 0-d zero mask or no intervals |
| SignalMisc.KelvinSignFormatIsMask | torch_ecg_bak/torch_ecg/utils/misc.py:367-376 | a format whose Python lower case is `mask` only through the Kelvin sign (`"MAS\u212a"`) still returns the mask |
| SignalMisc.MaskIsUnionOfIntervals | torch_ecg_bak/torch_ecg/utils/misc.py:367-376 | every row of the mask marks exactly the union of the returned intervals |
| SignalMisc.Str2Bool | torch_ecg_bak/torch_ecg/utils/misc.py:247-274 | booleans pass through; a string is true or false exactly when it is one of the listed words; anything else raises `ValueError` |
| SignalMisc.Str2BoolIgnoresCase | torch_ecg_bak/torch_ecg/utils/misc.py:266-274 | the word test does not depend on case |
| SignalMisc.DiffWithStep | torch_ecg_bak/torch_ecg/utils/misc.py:277-298 | a step not shorter than the array raises `ValueError`; otherwise entry `n` is `a[n+step] - a[n]` |
| SignalMisc.DiffWithStepTelescopes | torch_ecg_bak/torch_ecg/utils/misc.py:295-298 | two differences with step `s` add up to one difference with step `2s` |
| UtilsNN.ExtendPredictions | utils/utils_nn.py:38-79 | fails with `AssertionError` exactly when the column count or the class inclusion is wrong; a 1-d input gives a 1-d result of the extended width |
| UtilsNN.FillTakesSourceColumns | utils/utils_nn.py:70-74 | each extended column holds the prediction column of a class placed there, or zeros when no class is placed there |
| UtilsNN.ExtendPredictionsMovesColumns | utils/utils_nn.py:38-79 | with distinct classes, each class's column moves to that class's position among the extended classes, and every other column is zero |
| UtilsNN.LayerKindOf | utils/utils_nn.py:147-174 | the layer type is recognised after lowercasing and removing underscores |
| UtilsNN.Expand | utils/utils_nn.py:207-250 | a scalar parameter is repeated for every dimension; a list must have one entry per dimension, else `ValueError` |
| UtilsNN.PooledSize | utils/utils_nn.py:274-280 | the convolution/pooling size formula raises `ZeroDivisionError` exactly for a zero stride |
| UtilsNN.PooledSizeBounds | utils/utils_nn.py:274-280 | the output size is the floor of `(input + 2·padding − dilation·(kernel−1) − 1) / stride + 1` |
| UtilsNN.SpatialSizes | utils/utils_nn.py:257-280 | every spatial dimension follows its formula, and a zero stride outside deconvolution raises `ZeroDivisionError` |
| UtilsNN.ComputeOutputShape | utils/utils_nn.py:83-286 | an unknown layer type is an `AssertionError`; otherwise the shape is that of the recognised kind |
| UtilsNN.ShapeOfKind | utils/utils_nn.py:175-284 | the output keeps the batch size and the rank, and puts the output channels first or last |
| UtilsNN.UnknownSpatialShape | utils/utils_nn.py:185-205 | unknown spatial sizes stay unknown, and only the channel count is set |
| UtilsNN.ComputeOutputShapeSucceeds | utils/utils_nn.py:252-284 | with known sizes and valid parameters, every spatial size follows its formula and the channels sit on the requested axis |
| UtilsNN.PoolingKeepsChannels | utils/utils_nn.py:338-424 | max and average pooling keep the channel count |
| UtilsNN.SamePaddingKeepsLength | utils/utils_nn.py:274-280 | stride 1 with "same" padding keeps the length |
| UtilsNN.DeconvUndoesConv | utils/utils_nn.py:257-280 | a deconvolution with the same parameters, and output padding equal to the remainder the convolution dropped, restores the input length |
| UtilsNN.FieldSumIsRecurrence | utils/utils_nn.py:573-576 | the layer-by-layer loop computes the closed-form sum of the receptive field |
| UtilsNN.ReceptiveField | utils/utils_nn.py:502-579 | lists of different lengths are an `AssertionError`; otherwise the field is what the layer-by-layer recurrence computes, capped at the input length |
| UtilsNN.MultiScopicFieldScopeOne | utils/utils_nn.py:550-551 | the first multi-scopic branch has the documented receptive field 90 |
| UtilsNN.MultiScopicFieldScopeTwo | utils/utils_nn.py:552-553 | the second branch has the documented receptive field 484 |
| UtilsNN.MultiScopicFieldScopeThree | utils/utils_nn.py:554-555 | the third branch has the documented receptive field 1984 |
| Records.PostFilter | dataset.py:116-121 | every kept record is neither exceptional nor missing its data file |
| Records.PostFilterKeepsUsable | dataset.py:116-121 | each usable record keeps its multiplicity, and every other record is dropped |
| Records.LabelRowDecodes | dataset.py:537-542 | the classes flagged 1 in a label row are exactly the listed classes among the record's labels |
| Records.LoadItem | dataset.py:528-544 | every window of a record gets the same label row |
| Records.LoadItemWindowDecodes | dataset.py:536-544 | the label row of every window flags exactly the record's scored labels that are among the classes |
| Records.ClassWeights | dataset.py:102-107 | a class without a weight is a `KeyError`; more classes than weights is an `IndexError`; a count mismatch in the view is an error; otherwise entry `i` is the weight of class `i` |
| Records.To | dataset.py:214-219 | a lead not among the current leads is a `ValueError`; otherwise each new lead's signal is the old signal of that lead |
| Records.ToRoundTrip | dataset.py:214-219 | re-selecting the previous leads after a reordering restores the signals |
| TrainTestSplit.CheckRatio | dataset.py:290-292 | the ratio is accepted exactly when the truncated train percentage lies strictly between 0 and 100 |
| TrainTestSplit.CheckRatioAcceptsExactly | dataset.py:290-292 | the ratio check succeeds exactly for the ratios the split accepts |
| TrainTestSplit.TrainFileNameInjective | dataset.py:294-301 | different percentages, siglens or special-class settings give different train cache names |
| TrainTestSplit.TrainTestNamesDiffer | dataset.py:294-301 | a train cache name never equals a test cache name |
| TrainTestSplit.CacheChoice | dataset.py:303-315 | recomputing happens exactly when forced or when neither location holds both files; the database copy is preferred |
| TrainTestSplit.EligibleMeans | dataset.py:323-342 | a record is a candidate exactly when it is not exceptional, has a tranche class, and is long enough within the tolerance |
| TrainTestSplit.CandidatesExactly | dataset.py:323-342 | the candidates keep every eligible record with its multiplicity and nothing else |
| TrainTestSplit.SplitIndexBounds | dataset.py:350 | the split index never exceeds the tranche size, and is below it for a non-empty tranche |
| TrainTestSplit.Partition | dataset.py:350-353 | train is a prefix of the shuffled tranche at the split index, and train followed by test is the whole tranche |
| TrainTestSplit.PartitionRedistributes | dataset.py:350-353 | train and test together are a permutation of the candidates |
| TrainTestSplit.PartitionDisjoint | dataset.py:350-353 | no record lands in both train and test |
| TrainTestSplit.SplitValidIffBothSidesCover | dataset.py:424-432 | a split is valid exactly when each side carries every tranche class |
| TrainTestSplit.ValidSplitHasBothSides | dataset.py:424-432 | a valid split with at least one class has a non-empty train side and a non-empty test side |
| TrainTestSplit.SplitTranche | dataset.py:347-356 | a returned split is the first valid partition among the shuffles tried, and every earlier one was invalid |
| TrainTestSplit.EmptyTrancheNeverSplits | dataset.py:347-356 | a tranche without candidates can never yield a valid split |
| TrainTestSplit.SplitTranches | dataset.py:347-356 | on success every tranche has a valid split that is a permutation of its candidates; on failure some tranche rejected every shuffle |
| TrainTestSplit.Gather | dataset.py:391-399 | the records of every requested tranche are concatenated, and a missing tranche is a `KeyError` |
| TrainTestSplit.SelectRecords | dataset.py:391-399 | `"all"` gives the train records then the test records; `True` gives train only; anything else gives test only |
| TrainTestSplit.AllIsTrainThenTest | dataset.py:391-396 | the records for `"all"` are the training records followed by the validation records |
| TrainTestSplit.SelectedForTraining | dataset.py:391-397 | a record is selected for training exactly when the train set of one of the requested tranches holds it |
| Trainer.OptimizerFor | official_phase_legacy/trainer.py:222-248 | a name is accepted exactly when its lowercase form is one of the four optimizer names, and the chosen optimizer carries that name; any other name raises `NotImplementedError` |
| Trainer.OptimizerNameRoundTrip | official_phase_legacy/trainer.py:222-248 | every optimizer is selected by its canonical name |
| Trainer.AmsgradExactly | official_phase_legacy/trainer.py:229-237 | AMSGrad is on exactly for `adamw_amsgrad`, in any case |
| Trainer.SchedulerFor | official_phase_legacy/trainer.py:251-272 | no name gives no scheduler; an unknown name raises `NotImplementedError`; a known name picks the scheduler it is an alias of |
| Trainer.SchedulerAliasRoundTrip | official_phase_legacy/trainer.py:259-263 | every alias selects its scheduler |
| Trainer.LossFor | official_phase_legacy/trainer.py:274-281 | only the two loss names, matched exactly, are accepted, and each selects the loss of that name |
| Trainer.Setup | official_phase_legacy/trainer.py:222-281 | setup succeeds exactly when all three choices do, and reports the optimizer's error before the scheduler's, and the scheduler's before the loss's; every failure is a `NotImplementedError` |
| Trainer.SchedulerCallMatchesScheduler | official_phase_legacy/trainer.py:385-395 | `ReduceLROnPlateau` is stepped with the challenge metric, the other schedulers without it, and no call is made without a scheduler |
| Trainer.BackpropValue | official_phase_legacy/trainer.py:315-323 | with flooding on, the backpropagated value reflects the loss about the flooding level and is never below that level or the loss; with flooding off it is the loss |
| Trainer.TrainEpoch | official_phase_legacy/trainer.py:303-324 | the epoch loss is the sum of the batch losses, which is unaffected by flooding, and each batch backpropagates its flooded value |
| Trainer.Checkpoint | official_phase_legacy/trainer.py:484-491 | the newest checkpoint is appended, and only the oldest one is ever dropped |
| Trainer.Step | official_phase_legacy/trainer.py:430-491 | the best metric never decreases and changes only on a strict improvement, which resets both best epochs; otherwise the best epoch is kept; with early stopping, a metric within `min_delta` of the best moves the pseudo-best epoch to this epoch; training stops exactly when early stopping is on, the metric falls more than `min_delta` below the best and the patience is used up; in every other case the pseudo-best epoch is kept; a stopped epoch saves no checkpoint |
| Trainer.RunEpochs | official_phase_legacy/trainer.py:300-448 | every epoch runs unless early stopping fires, and stopping fires only when patience has run out |
| Trainer.RunWithoutEarlyStopping | official_phase_legacy/trainer.py:436 | without early stopping, every epoch runs |
| Trainer.RunTracksBest | official_phase_legacy/trainer.py:430-441 | the best metric exists exactly when an epoch ran; it is the maximum over the epochs run, reached first at the best epoch, and the pseudo-best epoch lies between it and the last epoch |
| Trainer.RunCheckpoints | official_phase_legacy/trainer.py:484-487 | the saved checkpoints are the most recent completed epochs, as many as the limit allows |
| Trainer.RunKeepsAtMost | official_phase_legacy/trainer.py:486-487 | with a positive limit, at most that many checkpoints are kept |
| Trainer.FinalSaveIffTrained | official_phase_legacy/trainer.py:494-511 | the best model is saved exactly when at least one epoch was evaluated; the epoch it records ran and has the largest metric, and the file is the configured name exactly when one is set |
| Evaluator.EvaluateAsWritten | official_phase_legacy/trainer.py:563-654 | the scores are passed through; on return the flag is restored, but after an exception it is left off |
| Evaluator.AsWrittenLosesFlagOnError | official_phase_legacy/trainer.py:651-652 | an exception during an evaluation with augmentation on leaves augmentation off |
| Evaluator.EvaluateScoped | official_phase_legacy/trainer.py:564-565 | the corrected evaluation restores the flag on every path |
| Evaluator.ScopedAgreesOnReturn | official_phase_legacy/trainer.py:651-654 | the corrected and as-written evaluations differ only in the flag, and only after an exception |

## Left out

- **Floating point.** Metrics, losses, signals and weights are exact reals.
  NaN, infinities and rounding are not modelled. `best_challenge_metric =
  -np.inf` is `None`.
- **Output sizes.** `compute_output_shape` computes
  `floor((i + 2·p − minus_term) / s + 1)` through a float division. The
  model uses exact floor division, so float rounding of very large sizes is
  not modelled.
- **`train_ratio`.** It is an exact fraction `num/den`, not a float, so the
  float rounding in `int(train_ratio * 100)` is not modelled.
- **Randomness.** `shuffle` is replaced by a caller-supplied sequence of
  orderings, one per attempt. The source's `while not is_valid` loop has no
  bound; the model stops when the supplied orderings run out
  (`TrainTestSplit.SplitTranche` returns `None`).
- **Files.**
  - JSON cache reading and writing, `os.path.isfile`, and the record
    reader's disk access are parameters.
  - Paths are reduced to the file names of the train/test cache, and the
    checkpoint paths to their epoch numbers. `save_prefix` and
    `get_date_str` are left out.
- **Console and logging.** `print`, `time.sleep`, `tqdm`, the logger and
  the tensorboard writer produce no modelled state.
- **PyTorch.**
  - The model's forward pass is left out, and so are the mathematics of the
    optimizers and schedulers (only which one is built and how it is
    stepped is modelled).
  - Also left out: the loss values, `DataParallel` unwrapping, `state_dict`
    and `torch.save`.
  - `evaluate` is modelled only for its augmentation flag. The inference
    loop and the scoring (`evaluate_scores`) are the parameter `batches`.
- **`remove_spikes_naive` and the preprocessing pipeline** in
  `FastDataReader.__getitem__` are outside this model. The signal reaching
  `ensure_siglen` is a parameter.
- **The `tolerance` argument of `ensure_siglen`.** The version with a
  tolerance lives in `utils/utils_signal.py`, which is not part of this
  model. `SignalMisc.EnsureSiglen` models the `torch_ecg_bak` version,
  which has no tolerance.
- **`Waveforms`.**
  - The `peak` (always NaN) and `duration` fields of `ECGWaveForm` are not
    modelled.
  - The `fs` argument only enters `duration`, so it is dropped.
- **Tranche classes.** The choice of `tranche_classes` and `all_classes`
  in `CINC2021.__init__` from the configuration is an input.
- **`burnin_schedule`.** It is defined but never passed to a scheduler.
- **Lowercasing.** `PyCore.Lower` changes only `A`-`Z` and U+212A KELVIN
  SIGN. Every other character Python lowers becomes a non-ASCII character,
  or a pair of characters for U+0130. The source only compares lowered
  names with ASCII literals, and the model keeps those characters
  unchanged, so the comparisons agree with Python's. Only the length of
  the lowered string differs, for U+0130, and the source never uses it.
- **`__DEBUG__` sampling** of 1% of the records is not modelled.
- **Evaluator.EvaluateAsWritten:** `use_augmentation`,
  `disable_data_augmentation` and `enable_data_augmentation` belong to a
  dataset interface that the repository's `CINC2021` (`dataset.py`) does not
  define. As shipped, `evaluate` therefore raises `AttributeError` at
  `trainer.py` line 564, and `train` does so at line 136 when `debug` is set.
  The `Evaluator` model, and the `Trainer` steps that call `evaluate`,
  assume a dataset that has the flag, so that `evaluate` returns.
- **SignalMisc.GetMask:** sizes are `nat`, so negative sizes are not
  modelled. With a negative last size, `np.zeros` raises `ValueError`, and
  the `intervals` format returns windows that end before they start.
- **Trainer.RunTracksBest:** says nothing about `best_state_dict` and
  `best_eval_res`. They are copied at the same moments as the best metric,
  and they are not modelled.

Where the code differs from its own description, the model follows the code:

- the split index truncates (`int(len * train_ratio)`); it does not round;
- the validity test calls `get_labels(rec, fmt="a")` with the reader's
  defaults, where candidate filtering calls it with `scored_only=True`. The
  reader is not part of this model, so the two calls are separate oracles:
  `RecordInfo.labels` and `RecordInfo.scoredLabels`;
- records whose data file is missing are dropped only by the post-filter,
  after the split;
- `evaluate` does not restore the augmentation flag when the evaluation
  raises (see Findings).

## Findings

| source | as written | input that shows it | evidently intended | confidence | as-written member | corrected member |
|---|---|---|---|---|---|---|
| utils/misc.py:834-836 | `"\n".join(lstripped lines)` plus a newline when the text ends with one; `splitlines` of a text whose last line is blank-but-not-empty yields that line, which lstrip empties and `join` then turns into a trailing newline | `"a\n "` gives `"a\n"`: two lines become one, and a newline appears that the input did not end with | keep all lines, including empty ones, as the docstring says | medium, not executed | TextUtils.NildentDropsBlankLastLine | TextUtils.NildentKeepingLinesKeepsLines |
| official_phase_legacy/trainer.py:564-565, 651-652 | augmentation is disabled, and re-enabled only after the batches return normally | a dataset that provides the augmentation interface (the repository's `CINC2021` does not, so with it the call fails earlier, at line 564), with `use_augmentation == True`, and an exception raised inside the evaluation loop: the flag is off after the call. No caller in `trainer.py` catches that exception and keeps training, so the harm needs an outside caller | the previous flag restored on every path (`try`/`finally`) | low, not executed | Evaluator.AsWrittenLosesFlagOnError | Evaluator.EvaluateScoped |
