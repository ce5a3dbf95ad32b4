/** The augmentation flag around `evaluate` in
    `official_phase_legacy/trainer.py`.  The dataset's `use_augmentation` is
    switched off before the evaluation batches are run and switched back on
    afterwards if it was on before.  The flag belongs to a dataset interface
    that the repository's `CINC2021` does not define; the model is of a
    dataset that has it.  The batches themselves (inference and scoring) are
    a parameter: the seven scores, or the exception they raise. */
module Evaluator {
  import opened Wrappers

  /** `(auroc, auprc, accuracy, f_measure, f_beta_measure, g_beta_measure, challenge_metric)` */
  datatype Scores = Scores(auroc: real, auprc: real, accuracy: real, fMeasure: real,
                           fBetaMeasure: real, gBetaMeasure: real, challengeMetric: real)

  /** The dataset's augmentation flag after the call, and what the call returns. */
  datatype Outcome = Outcome(augmentation: bool, result: Result<Scores>)

  /** `evaluate` as written: `disable_data_augmentation()`, the batches, and
      `enable_data_augmentation()` only when the batches returned and the flag
      had been on.  There is no `try`/`finally`, so an exception leaves the
      flag off. */
  function EvaluateAsWritten(previous: bool, batches: Result<Scores>): (o: Outcome)
    ensures o.result == batches
    ensures batches.Ok? ==> o.augmentation == previous
    ensures batches.Err? ==> !o.augmentation
  {
    var flag := false;
    match batches
    case Err(e) => Outcome(flag, Err(e))
    case Ok(scores) =>
      var flag' := if previous then true else flag;
      Outcome(flag', Ok(scores))
  }

  /** When the batches raise during an evaluation with augmentation on, the
      dataset is left with augmentation off after the call. */
  lemma AsWrittenLosesFlagOnError(e: Error)
    ensures EvaluateAsWritten(true, Err(e)).augmentation != true
  {
  }

  /** The evaluation with the restoration in a `finally`: the flag is put back
      on every path. */
  function EvaluateScoped(previous: bool, batches: Result<Scores>): (o: Outcome)
    ensures o.result == batches
    ensures o.augmentation == previous
  {
    var flag := false;
    var flag' := if previous then true else flag;
    Outcome(flag', batches)
  }

  /** The scoped evaluation differs from the one as written only on the
      exception path, and only in the flag. */
  lemma ScopedAgreesOnReturn(previous: bool, batches: Result<Scores>)
    ensures EvaluateScoped(previous, batches).result == EvaluateAsWritten(previous, batches).result
    ensures batches.Ok? ==> EvaluateScoped(previous, batches) == EvaluateAsWritten(previous, batches)
    ensures batches.Err? && !previous ==> EvaluateScoped(previous, batches) == EvaluateAsWritten(previous, batches)
  {
  }
}
