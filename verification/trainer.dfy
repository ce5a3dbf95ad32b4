/** The bookkeeping of `train` in `official_phase_legacy/trainer.py`: which
    optimizer, learning-rate scheduler and loss a configuration selects, the
    flooding of the loss, when the scheduler steps, and the per-epoch record
    of the best challenge metric, early stopping and the checkpoint queue.
    Metric and loss values are only compared and added, so they are `real`s;
    the initial best metric `-np.inf` is `None`.  A checkpoint path is
    represented by the 1-based epoch it was written after. */
module Trainer {
  import opened Wrappers
  import opened PyCore

  // ---------------------------------------------------------------------------
  // Optimizer, scheduler and loss selection
  // ---------------------------------------------------------------------------

  datatype Optimizer = Adam | AdamW(amsgrad: bool) | SGD

  /** The lower-case name that selects each optimizer. */
  function OptimizerName(o: Optimizer): string {
    match o
    case Adam => "adam"
    case AdamW(amsgrad) => if amsgrad then "adamw_amsgrad" else "adamw"
    case SGD => "sgd"
  }

  const OptimizerNames: set<string> := {"adam", "adamw", "adamw_amsgrad", "sgd"}

  /** `config.train_optimizer`, matched after lower-casing; AMSGrad is on iff
      the lower-cased name ends with "amsgrad". */
  function OptimizerFor(name: string): (r: Result<Optimizer>)
    ensures r.Ok? <==> Lower(name) in OptimizerNames
    ensures r.Ok? ==> OptimizerName(r.value) == Lower(name)
    ensures r.Err? ==> r.error.NotImplementedError?
  {
    var n := Lower(name);
    if n == "adam" then Ok(Adam)
    else if n == "adamw" || n == "adamw_amsgrad" then Ok(AdamW(EndsWith(n, "amsgrad")))
    else if n == "sgd" then Ok(SGD)
    else Err(NotImplementedError("optimizer `" + name + "` not implemented!"))
  }

  /** Every optimizer is selected by its own name. */
  lemma OptimizerNameRoundTrip(o: Optimizer)
    ensures OptimizerFor(OptimizerName(o)) == Ok(o)
  {
    var n := OptimizerName(o);
    NamesAreLowercase(n);
    LowerOfLowercase(n);
    OptimizerNameInjective(OptimizerFor(n).value, o);
  }

  lemma NamesAreLowercase(n: string)
    requires n in OptimizerNames || n in SchedulerNames
    ensures forall i :: 0 <= i < |n| ==> !LowersToAscii(n[i])
  {
  }

  lemma OptimizerNameInjective(a: Optimizer, b: Optimizer)
    requires OptimizerName(a) == OptimizerName(b)
    ensures a == b
  {
    var sa, sb := OptimizerName(a), OptimizerName(b);
    assert |sa| == |sb|;
    assert sa[0] == sb[0];
    if |sa| > 5 {
      assert sa[5] == sb[5];
    }
  }

  /** The selection ignores case. */
  lemma OptimizerForIgnoresCase(a: string, b: string)
    requires Lower(a) == Lower(b)
    ensures OptimizerFor(a).Ok? == OptimizerFor(b).Ok?
    ensures OptimizerFor(a).Ok? ==> OptimizerFor(a).value == OptimizerFor(b).value
  {
  }

  /** AMSGrad is switched on exactly by the name "adamw_amsgrad", in any case. */
  lemma AmsgradExactly(name: string)
    ensures OptimizerFor(name) == Ok(AdamW(true)) <==> Lower(name) == "adamw_amsgrad"
  {
    var n := Lower(name);
    if n == "adamw" {
      assert !EndsWith(n, "amsgrad");
    } else if n == "adamw_amsgrad" {
      assert n[|n| - 7..] == "amsgrad";
    }
  }

  datatype Scheduler = Plateau | StepLR | OneCycle

  /** The lower-case names that select each scheduler. */
  function SchedulerAliases(s: Scheduler): set<string> {
    match s
    case Plateau => {"plateau"}
    case StepLR => {"step"}
    case OneCycle => {"one_cycle", "onecycle"}
  }

  const SchedulerNames: set<string> := {"plateau", "step", "one_cycle", "onecycle"}

  /** `config.lr_scheduler`: `None` gives no scheduler, a name is matched
      after lower-casing. */
  function SchedulerFor(name: Option<string>): (r: Result<Option<Scheduler>>)
    ensures r == Ok(None) <==> name.None?
    ensures r.Err? <==> name.Some? && Lower(name.value) !in SchedulerNames
    ensures r.Ok? && r.value.Some? ==> Lower(name.value) in SchedulerAliases(r.value.value)
    ensures r.Err? ==> r.error.NotImplementedError?
  {
    match name
    case None => Ok(None)
    case Some(s) =>
      var n := Lower(s);
      if n == "plateau" then Ok(Some(Plateau))
      else if n == "step" then Ok(Some(StepLR))
      else if n == "one_cycle" || n == "onecycle" then Ok(Some(OneCycle))
      else Err(NotImplementedError("lr scheduler `" + n + "` not implemented for training"))
  }

  /** Every alias of a scheduler selects it. */
  lemma SchedulerAliasRoundTrip(s: Scheduler, alias: string)
    requires alias in SchedulerAliases(s)
    ensures SchedulerFor(Some(alias)) == Ok(Some(s))
  {
    NamesAreLowercase(alias);
    LowerOfLowercase(alias);
  }

  datatype Loss = BCEWithLogits | BCEWithLogitsWithClassWeight

  function LossName(l: Loss): string {
    match l
    case BCEWithLogits => "BCEWithLogitsLoss"
    case BCEWithLogitsWithClassWeight => "BCEWithLogitsWithClassWeightLoss"
  }

  /** `config.loss`, matched exactly: case matters here. */
  function LossFor(name: string): (r: Result<Loss>)
    ensures r.Ok? <==> name == "BCEWithLogitsLoss" || name == "BCEWithLogitsWithClassWeightLoss"
    ensures r.Ok? ==> LossName(r.value) == name
    ensures r.Err? ==> r.error.NotImplementedError?
  {
    if name == "BCEWithLogitsLoss" then Ok(BCEWithLogits)
    else if name == "BCEWithLogitsWithClassWeightLoss" then Ok(BCEWithLogitsWithClassWeight)
    else Err(NotImplementedError("loss `" + name + "` not implemented!"))
  }

  lemma LossNameRoundTrip(l: Loss)
    ensures LossFor(LossName(l)) == Ok(l)
  {
  }

  /** Unlike the optimizer and scheduler names, a lower-cased loss name is refused. */
  lemma LossIsCaseSensitive()
    ensures LossFor("bcewithlogitsloss").Err?
  {
  }

  datatype Components = Components(optimizer: Optimizer, scheduler: Option<Scheduler>, loss: Loss)

  /** The three selections in the order `train` makes them: the first unknown
      name is the one reported. */
  function Setup(optimizer: string, scheduler: Option<string>, loss: string): (r: Result<Components>)
    ensures r.Ok? <==> OptimizerFor(optimizer).Ok? && SchedulerFor(scheduler).Ok? && LossFor(loss).Ok?
    ensures r.Ok? ==> r.value == Components(OptimizerFor(optimizer).value, SchedulerFor(scheduler).value,
                                            LossFor(loss).value)
    ensures OptimizerFor(optimizer).Err? ==> r == Err(OptimizerFor(optimizer).error)
    ensures OptimizerFor(optimizer).Ok? && SchedulerFor(scheduler).Err? ==> r == Err(SchedulerFor(scheduler).error)
    ensures r.Err? ==> r.error.NotImplementedError?
  {
    var o :- OptimizerFor(optimizer);
    var s :- SchedulerFor(scheduler);
    var l :- LossFor(loss);
    Ok(Components(o, s, l))
  }

  // ---------------------------------------------------------------------------
  // Scheduler stepping at the end of an epoch
  // ---------------------------------------------------------------------------

  datatype SchedulerCall = NoCall | StepOnMetric(metric: real) | StepPlain

  /** The end-of-epoch dispatch, again on the configured name: the plateau
      scheduler is given the challenge metric `eval_res[6]`. */
  function EpochSchedulerCall(name: Option<string>, metric: real): SchedulerCall {
    match name
    case None => NoCall
    case Some(s) =>
      var n := Lower(s);
      if n == "plateau" then StepOnMetric(metric)
      else if n == "step" then StepPlain
      else if n == "one_cycle" || n == "onecycle" then StepPlain
      else NoCall
  }

  /** For a configuration `Setup` accepted, the scheduler steps once per epoch
      exactly when there is one, and on the metric exactly when it is the
      plateau scheduler. */
  lemma SchedulerCallMatchesScheduler(name: Option<string>, metric: real)
    requires SchedulerFor(name).Ok?
    ensures EpochSchedulerCall(name, metric) == NoCall <==> SchedulerFor(name).value.None?
    ensures EpochSchedulerCall(name, metric) == StepOnMetric(metric) <==> SchedulerFor(name).value == Some(Plateau)
    ensures EpochSchedulerCall(name, metric) == StepPlain <==>
              SchedulerFor(name).value in {Some(StepLR), Some(OneCycle)}
  {
  }

  // ---------------------------------------------------------------------------
  // Flooding
  // ---------------------------------------------------------------------------

  function Abs(x: real): real { if x < 0.0 then -x else x }

  /** The value back-propagated for a batch loss: `|loss - level| + level`
      when a positive flooding level is configured, the loss otherwise. */
  function BackpropValue(loss: real, level: real): (v: real)
    ensures v >= loss
    ensures level > 0.0 ==> v >= level
    ensures level > 0.0 && loss >= level ==> v == loss
    ensures level > 0.0 && loss < level ==> v - level == level - loss
    ensures level <= 0.0 ==> v == loss
  {
    if level > 0.0 then Abs(loss - level) + level else loss
  }

  function SumReal(xs: seq<real>): real {
    if |xs| == 0 then 0.0 else SumReal(xs[..|xs| - 1]) + xs[|xs| - 1]
  }

  /** One epoch's batches: `epoch_loss` adds up the raw batch losses whatever
      the flooding level, while each batch back-propagates its flooded value. */
  method TrainEpoch(losses: seq<real>, level: real) returns (epochLoss: real, backprops: seq<real>)
    ensures epochLoss == SumReal(losses)
    ensures |backprops| == |losses|
    ensures forall i :: 0 <= i < |losses| ==> backprops[i] == BackpropValue(losses[i], level)
  {
    epochLoss, backprops := 0.0, [];
    var i := 0;
    while i < |losses|
      invariant 0 <= i <= |losses|
      invariant epochLoss == SumReal(losses[..i])
      invariant |backprops| == i
      invariant forall j :: 0 <= j < i ==> backprops[j] == BackpropValue(losses[j], level)
    {
      assert losses[..i + 1][..i] == losses[..i];
      epochLoss := epochLoss + losses[i];
      backprops := backprops + [BackpropValue(losses[i], level)];
      i := i + 1;
    }
    assert losses[..i] == losses;
  }

  // ---------------------------------------------------------------------------
  // Best metric, early stopping and the checkpoint queue
  // ---------------------------------------------------------------------------

  datatype EarlyStopping = EarlyStopping(minDelta: real, patience: int)

  /** `config.early_stopping` (absent when falsy) and `config.keep_checkpoint_max`. */
  datatype Config = Config(earlyStopping: Option<EarlyStopping>, keepCheckpointMax: int)

  /** The loop's variables after `epochs` evaluated epochs.  `stopped` means
      the last of them triggered early stopping. */
  datatype TrainState = TrainState(
    epochs: nat,
    best: Option<real>,       // `best_challenge_metric`, `None` for `-np.inf`
    bestEpoch: int,           // `best_epoch`, 1-based, -1 before any
    pseudoBestEpoch: int,     // `pseudo_best_epoch`, 1-based, -1 before any
    saved: seq<nat>,          // `saved_models`, oldest first
    stopped: bool)

  const Initial: TrainState := TrainState(0, None, -1, -1, [], false)

  /** `eval_res[6] > best_challenge_metric`. */
  predicate Improves(best: Option<real>, metric: real) {
    best.None? || metric > best.value
  }

  /** Appending the new path and, when `len > keep_checkpoint_max > 0`,
      dropping the oldest. */
  function Checkpoint(saved: seq<nat>, epoch: nat, keep: int): (r: seq<nat>)
    ensures |r| > 0 && r[|r| - 1] == epoch
    ensures r == saved + [epoch] || r == (saved + [epoch])[1..]
    ensures keep > 0 && |saved| <= keep ==> |r| <= keep
  {
    var q := saved + [epoch];
    if |q| > keep > 0 then q[1..] else q
  }

  /** One epoch whose challenge metric is `metric`. */
  function Step(cfg: Config, st: TrainState, metric: real): (r: TrainState)
    requires !st.stopped
    ensures r.epochs == st.epochs + 1
    ensures st.best.Some? ==> r.best.Some? && r.best.value >= st.best.value
    ensures r.best != st.best ==> Improves(st.best, metric) && r.best == Some(metric)
    ensures Improves(st.best, metric) ==>
              r.best == Some(metric) && r.bestEpoch == r.pseudoBestEpoch == st.epochs + 1
    ensures !Improves(st.best, metric) ==> r.best == st.best && r.bestEpoch == st.bestEpoch
    ensures r.stopped <==>
              && cfg.earlyStopping.Some? && !Improves(st.best, metric)
              && metric < st.best.value - cfg.earlyStopping.value.minDelta
              && st.epochs - st.pseudoBestEpoch >= cfg.earlyStopping.value.patience
    ensures cfg.earlyStopping.Some? && !Improves(st.best, metric)
              && metric >= st.best.value - cfg.earlyStopping.value.minDelta ==>
              r.pseudoBestEpoch == st.epochs + 1
    ensures !Improves(st.best, metric)
              && !(cfg.earlyStopping.Some? && metric >= st.best.value - cfg.earlyStopping.value.minDelta) ==>
              r.pseudoBestEpoch == st.pseudoBestEpoch
    ensures r.stopped ==> r.saved == st.saved
    ensures !r.stopped ==> r.saved == Checkpoint(st.saved, st.epochs + 1, cfg.keepCheckpointMax)
  {
    var epoch := st.epochs + 1;
    if Improves(st.best, metric) then
      st.(epochs := epoch, best := Some(metric), bestEpoch := epoch, pseudoBestEpoch := epoch,
          saved := Checkpoint(st.saved, epoch, cfg.keepCheckpointMax))
    else if cfg.earlyStopping.Some? then
      var es := cfg.earlyStopping.value;
      if metric >= st.best.value - es.minDelta then
        st.(epochs := epoch, pseudoBestEpoch := epoch,
            saved := Checkpoint(st.saved, epoch, cfg.keepCheckpointMax))
      else if st.epochs - st.pseudoBestEpoch >= es.patience then
        st.(epochs := epoch, stopped := true)
      else
        st.(epochs := epoch, saved := Checkpoint(st.saved, epoch, cfg.keepCheckpointMax))
    else
      st.(epochs := epoch, saved := Checkpoint(st.saved, epoch, cfg.keepCheckpointMax))
  }

  /** The loop over the epochs' challenge metrics, leaving it at the first
      early stop. */
  function Run(cfg: Config, metrics: seq<real>): (st: TrainState)
    ensures st.epochs <= |metrics|
  {
    if |metrics| == 0 then Initial
    else
      var prev := Run(cfg, metrics[..|metrics| - 1]);
      if prev.stopped then prev else Step(cfg, prev, metrics[|metrics| - 1])
  }

  /** The loop runs every epoch unless it stopped early, and a stop happens
      only at an epoch that met the stopping rule. */
  lemma {:induction false} RunEpochs(cfg: Config, metrics: seq<real>)
    ensures var st := Run(cfg, metrics);
            && (!st.stopped ==> st.epochs == |metrics|)
            && (|metrics| > 0 ==> st.epochs > 0)
            && (st.stopped ==>
                  && cfg.earlyStopping.Some? && st.epochs > 0
                  && Run(cfg, metrics[..st.epochs - 1]).best.Some?
                  && metrics[st.epochs - 1] < Run(cfg, metrics[..st.epochs - 1]).best.value
                                                - cfg.earlyStopping.value.minDelta
                  && st.epochs - 1 - Run(cfg, metrics[..st.epochs - 1]).pseudoBestEpoch
                       >= cfg.earlyStopping.value.patience)
  {
    if |metrics| > 0 {
      var p := metrics[..|metrics| - 1];
      RunEpochs(cfg, p);
      var prev := Run(cfg, p);
      if prev.stopped {
        assert metrics[..prev.epochs - 1] == p[..prev.epochs - 1];
        assert metrics[prev.epochs - 1] == p[prev.epochs - 1];
      } else {
        assert prev.epochs == |p|;
        assert metrics[..|p|] == p;
      }
    }
  }

  /** Without early stopping every epoch runs. */
  lemma {:induction false} RunWithoutEarlyStopping(cfg: Config, metrics: seq<real>)
    requires cfg.earlyStopping.None?
    ensures !Run(cfg, metrics).stopped && Run(cfg, metrics).epochs == |metrics|
  {
    if |metrics| > 0 {
      RunWithoutEarlyStopping(cfg, metrics[..|metrics| - 1]);
    }
  }

  /** The best metric is the largest of the epochs run, `best_epoch` is where
      it first occurred, and the pseudo-best epoch lies between it and the
      last epoch. */
  lemma {:induction false} RunTracksBest(cfg: Config, metrics: seq<real>)
    ensures var st := Run(cfg, metrics);
            && (st.best.None? <==> st.epochs == 0)
            && (st.best.Some? ==>
                  && 1 <= st.bestEpoch <= st.pseudoBestEpoch <= st.epochs
                  && st.best.value == metrics[st.bestEpoch - 1]
                  && (forall j :: 0 <= j < st.epochs ==> metrics[j] <= st.best.value)
                  && (forall j :: 0 <= j < st.bestEpoch - 1 ==> metrics[j] < st.best.value))
  {
    if |metrics| > 0 {
      var n := |metrics|;
      var p := metrics[..n - 1];
      RunTracksBest(cfg, p);
      var prev := Run(cfg, p);
      assert forall j :: 0 <= j < n - 1 ==> metrics[j] == p[j];
      if !prev.stopped {
        assert prev.epochs == n - 1 by { RunEpochs(cfg, p); }
      }
    }
  }

  /** The epochs `lo+1 .. hi`, in order. */
  function EpochRange(lo: nat, hi: nat): (r: seq<nat>)
    requires lo <= hi
    ensures |r| == hi - lo
    ensures forall i :: 0 <= i < |r| ==> r[i] == lo + 1 + i
  {
    seq(hi - lo, i requires 0 <= i < hi - lo => lo + 1 + i)
  }

  /** How many of `completed` checkpoints the queue keeps. */
  function Kept(completed: nat, keep: int): nat {
    if keep > 0 then Min(completed, keep) else completed
  }

  /** The epochs that wrote a checkpoint: all but the one that stopped early. */
  function Completed(st: TrainState): nat {
    if st.stopped && st.epochs > 0 then st.epochs - 1 else st.epochs
  }

  lemma CheckpointOfRange(lo: nat, hi: nat, keep: int)
    requires lo <= hi && lo == hi - Kept(hi, keep)
    ensures Checkpoint(EpochRange(lo, hi), hi + 1, keep) == EpochRange(hi + 1 - Kept(hi + 1, keep), hi + 1)
  {
    var q := EpochRange(lo, hi) + [hi + 1];
    var lo' := hi + 1 - Kept(hi + 1, keep);
    if |q| > keep > 0 {
      assert lo' == lo + 1;
      assert q[1..] == EpochRange(lo', hi + 1);
    } else {
      assert lo' == lo;
      assert q == EpochRange(lo', hi + 1);
    }
  }

  /** The checkpoint queue holds the most recent checkpointed epochs, in order:
      all of them when `keep_checkpoint_max <= 0`, otherwise at most that many. */
  lemma {:induction false} RunCheckpoints(cfg: Config, metrics: seq<real>)
    ensures var st := Run(cfg, metrics);
            var done := Completed(st);
            st.saved == EpochRange(done - Kept(done, cfg.keepCheckpointMax), done)
  {
    if |metrics| > 0 {
      var p := metrics[..|metrics| - 1];
      RunCheckpoints(cfg, p);
      var prev := Run(cfg, p);
      if !prev.stopped {
        var done := prev.epochs;
        CheckpointOfRange(done - Kept(done, cfg.keepCheckpointMax), done, cfg.keepCheckpointMax);
      }
    }
  }

  /** With a positive `keep_checkpoint_max` the queue never grows past it. */
  lemma RunKeepsAtMost(cfg: Config, metrics: seq<real>)
    requires cfg.keepCheckpointMax > 0
    ensures |Run(cfg, metrics).saved| <= cfg.keepCheckpointMax
  {
    RunCheckpoints(cfg, metrics);
  }

  // ---------------------------------------------------------------------------
  // The final save
  // ---------------------------------------------------------------------------

  /** The best model's file: `config.final_model_name` when it is set, a name
      built from the prefix, date and scores otherwise. */
  datatype FinalFile = Named(name: string) | Generated

  datatype FinalSave = FinalSave(file: FinalFile, epoch: int)

  /** After the loop, the best model is written iff `best_challenge_metric > -np.inf`. */
  function FinalSaveOf(finalModelName: Option<string>, st: TrainState): Option<FinalSave> {
    if st.best.None? then None
    else
      var file := if finalModelName.Some? && finalModelName.value != "" then Named(finalModelName.value)
                  else Generated;
      Some(FinalSave(file, st.bestEpoch))
  }

  /** The best model is saved exactly when at least one epoch was run, and it
      is the model of the first epoch reaching the best metric. */
  lemma FinalSaveIffTrained(cfg: Config, metrics: seq<real>, finalModelName: Option<string>)
    ensures var st := Run(cfg, metrics);
            var save := FinalSaveOf(finalModelName, st);
            && (save.Some? <==> |metrics| > 0)
            && (save.Some? ==>
                  && 1 <= save.value.epoch <= st.epochs
                  && (forall j :: 0 <= j < st.epochs ==> metrics[j] <= metrics[save.value.epoch - 1])
                  && (save.value.file.Named? <==> finalModelName.Some? && finalModelName.value != ""))
  {
    RunEpochs(cfg, metrics);
    RunTracksBest(cfg, metrics);
  }
}
