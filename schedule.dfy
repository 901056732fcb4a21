/** The step and epoch schedule of `run_lora_training`: how many epochs run,
    when `global_step` advances, when step and epoch checkpoints are saved,
    when validation images are generated, and where the loop stops.

    The numerical work of a micro-batch is left out. What remains is a
    sequence of observable events. That the accelerator syncs gradients
    after every `gradient_accumulation_steps` micro-batches and at the last
    micro-batch of each epoch is library behaviour; the model takes it as
    given. */
module Schedule {
  import opened Wrappers
  import opened TrainingChecks

  /** The fields of the training configuration the schedule reads, with
      `numBatches` the length of the data loader. */
  datatype TrainConfig = TrainConfig(
    numBatches: nat,
    accumulationSteps: nat,
    maxTrainSteps: nat,
    saveEveryNSteps: Option<int>,
    saveEveryNEpochs: Option<int>,
    numValidationPrompts: nat,
    validateEveryNEpochs: int,
    predictionType: Option<string>,
    schedulerPredictionType: string)

  /** Why a run stops with an exception. */
  datatype Crash = ZeroDivision | UnknownPredictionType(predictionType: string)

  /** What a run observably does. */
  datatype Event =
    | Synced(step: nat)          // `global_step` reaches `step`
    | SavedStep(step: nat)       // `_save_checkpoint(idx=step, prefix="step")`
    | SavedEpoch(epoch: nat)     // `_save_checkpoint(idx=epoch, prefix="epoch")`
    | Validated(epoch: nat)      // `_generate_validation_images(epoch=epoch)`

  /** The events of (part of) a run, and the exception it stops with, if
      any. */
  datatype Run = Run(events: seq<Event>, stop: Option<Crash>)

  /** Nothing happens. */
  const Done := Run([], None)

  /** Run `a`, then `b` unless `a` raised. */
  function Then(a: Run, b: Run): Run {
    if a.stop.Some? then a else Run(a.events + b.events, b.stop)
  }

  /** `math.ceil(a / b)`. */
  function CeilDiv(a: nat, b: nat): nat
    requires b > 0
  {
    (a + b - 1) / b
  }

  /** `CeilDiv(a, b)` is the least `r` with `r * b >= a`. */
  lemma CeilDivBounds(a: nat, b: nat)
    requires b > 0
    ensures CeilDiv(a, b) * b >= a
    ensures CeilDiv(a, b) > 0 ==> (CeilDiv(a, b) - 1) * b < a
  {
    var r := CeilDiv(a, b);
    assert a + b - 1 == r * b + (a + b - 1) % b;
    assert (r - 1) * b == r * b - b;
  }

  /** `num_steps_per_epoch`; zero when a division by zero is raised. */
  function StepsPerEpoch(c: TrainConfig): nat {
    if c.accumulationSteps == 0 then 0 else CeilDiv(c.numBatches, c.accumulationSteps)
  }

  /** `num_train_epochs`. */
  function NumEpochs(c: TrainConfig): nat {
    if StepsPerEpoch(c) == 0 then 0 else CeilDiv(c.maxTrainSteps, StepsPerEpoch(c))
  }

  /** The value of `global_step` when epoch `e` (from 0) ends. */
  function EpochEndStep(c: TrainConfig, e: nat): nat {
    if (e + 1) * StepsPerEpoch(c) <= c.maxTrainSteps then (e + 1) * StepsPerEpoch(c) else c.maxTrainSteps
  }

  /** The test `x % cadence == 0` guarding `event`. Python's `%` raises for
      a zero divisor; for any other divisor, negative ones included, its
      remainder is zero exactly when Dafny's is. */
  function Cadence(x: nat, cadence: int, event: Event): Run {
    if cadence == 0 then Run([], Some(ZeroDivision))
    else if x % cadence == 0 then Run([event], None)
    else Done
  }

  /** The sync that makes `global_step` equal to `g`, and what follows it. */
  function StepRun(c: TrainConfig, g: nat): Run {
    Then(Run([Synced(g)], None), match c.saveEveryNSteps
      case None => Done
      case Some(n) => Cadence(g, n, SavedStep(g)))
  }

  /** The syncs that bring `global_step` to `lo`, ..., `hi - 1`, up to the
      first exception. */
  function StepsRun(c: TrainConfig, lo: nat, hi: nat): Run
    decreases hi - lo
  {
    if lo >= hi then Done else Then(StepRun(c, lo), StepsRun(c, lo + 1, hi))
  }

  /** The end of the epoch numbered `k` (from 1): the epoch checkpoint, then
      validation when there are prompts. */
  function EpochEnd(c: TrainConfig, k: nat): Run {
    Then(
      match c.saveEveryNEpochs
        case None => Done
        case Some(n) => Cadence(k, n, SavedEpoch(k)),
      if c.numValidationPrompts > 0 then Cadence(k, c.validateEveryNEpochs, Validated(k)) else Done)
  }

  /** The value of `global_step` when epoch `e` (from 0) starts. */
  function StartStep(c: TrainConfig, e: nat): nat {
    if e == 0 then 0 else EpochEndStep(c, e - 1)
  }

  /** Epoch `e` (from 0): its syncs, then its end. */
  function EpochRun(c: TrainConfig, e: nat): Run {
    Then(StepsRun(c, e * StepsPerEpoch(c) + 1, EpochEndStep(c, e) + 1), EpochEnd(c, e + 1))
  }

  /** Epochs `e`, ..., `NumEpochs(c) - 1`, up to the first exception. */
  function EpochsRun(c: TrainConfig, e: nat): Run
    decreases NumEpochs(c) - e
  {
    if e >= NumEpochs(c) then Done else Then(EpochRun(c, e), EpochsRun(c, e + 1))
  }

  /** What a run does, up to its first exception, when the prediction-type
      check of every micro-batch gives `target`: computing the epoch count
      can divide by zero, and every micro-batch raises for an unknown
      prediction type. */
  function TraceWith(c: TrainConfig, target: Result<Target, string>): Run {
    if StepsPerEpoch(c) == 0 then Run([], Some(ZeroDivision))
    else if NumEpochs(c) >= 1 && target.Err? then Run([], Some(UnknownPredictionType(target.error)))
    else EpochsRun(c, 0)
  }

  /** What a run does. The prediction type the scheduler is registered with
      is fixed for the run, so every micro-batch's check has one outcome. */
  function Trace(c: TrainConfig): Run {
    TraceWith(c, PredictionTarget(c.predictionType, c.schedulerPredictionType))
  }

  /** `Then` is associative. */
  lemma ThenAssoc(a: Run, b: Run, d: Run)
    ensures Then(Then(a, b), d) == Then(a, Then(b, d))
  {
    if a.stop.None? && b.stop.None? {
      assert (a.events + b.events) + d.events == a.events + (b.events + d.events);
    }
  }

  /** `Done` does nothing, before or after. */
  lemma ThenUnits(a: Run)
    ensures Then(a, Done) == a && Then(Done, a) == a
  {
    assert a.events + [] == a.events;
    assert [] + a.events == a.events;
  }

  /** The syncs from `lo` to `hi` are those from `lo` to `mid`, then those
      from `mid` to `hi` unless one of the first raised. */
  lemma {:induction false} StepsSplit(c: TrainConfig, lo: nat, mid: nat, hi: nat)
    requires lo <= mid <= hi
    ensures StepsRun(c, lo, hi) == Then(StepsRun(c, lo, mid), StepsRun(c, mid, hi))
    decreases mid - lo
  {
    if lo < mid {
      StepsSplit(c, lo + 1, mid, hi);
      ThenAssoc(StepRun(c, lo), StepsRun(c, lo + 1, mid), StepsRun(c, mid, hi));
    } else {
      ThenUnits(StepsRun(c, mid, hi));
    }
  }

  /** One more sync extends the syncs of an epoch unless they raised. */
  lemma StepsSnoc(c: TrainConfig, lo: nat, g: nat)
    requires lo <= g
    ensures StepsRun(c, lo, g + 1) == Then(StepsRun(c, lo, g), StepRun(c, g))
  {
    StepsSplit(c, lo, g, g + 1);
    ThenUnits(StepRun(c, g));
  }

  /** The gradient syncs among the first `b` of the `n` micro-batches of an
      epoch: micro-batch `i` (from 1) syncs when `i` is a multiple of `acc`
      or the last one. */
  function SyncsAfter(n: nat, acc: nat, b: nat): nat
    requires acc > 0
  {
    if b == 0 then 0 else SyncsAfter(n, acc, b - 1) + (if b % acc == 0 || b == n then 1 else 0)
  }

  lemma {:induction false} MulMono(a: nat, b: nat, d: nat)
    ensures a <= b ==> a * d <= b * d
  {
    if a < b {
      MulMono(a, b - 1, d);
      assert (b - 1) * d + d == b * d;
    }
  }

  lemma DivModUnique(x: nat, d: nat, q: nat, r: nat)
    requires d > 0 && r < d && x == q * d + r
    ensures x / d == q && x % d == r
  {
    var q0, r0 := x / d, x % d;
    assert x == q0 * d + r0;
    MulMono(q0 + 1, q, d);
    MulMono(q + 1, q0, d);
    assert (q0 + 1) * d == q0 * d + d;
    assert (q + 1) * d == q * d + d;
    assert q0 == q;
  }

  /** Before the last micro-batch, one sync per `acc` micro-batches. */
  lemma {:induction false} SyncsBefore(n: nat, acc: nat, b: nat)
    requires acc > 0 && b < n
    ensures SyncsAfter(n, acc, b) == b / acc
  {
    if b > 0 {
      SyncsBefore(n, acc, b - 1);
      var q, r := (b - 1) / acc, (b - 1) % acc;
      if r + 1 == acc {
        DivModUnique(b, acc, q + 1, 0);
      } else {
        DivModUnique(b, acc, q, r + 1);
      }
    }
  }

  /** An epoch syncs `num_steps_per_epoch` times. */
  lemma SyncsTotal(n: nat, acc: nat)
    requires acc > 0
    ensures SyncsAfter(n, acc, n) == CeilDiv(n, acc)
  {
    if n == 0 {
      DivModUnique(acc - 1, acc, 0, acc - 1);
    } else {
      SyncsBefore(n, acc, n - 1);
      var q, r := (n - 1) / acc, (n - 1) % acc;
      DivModUnique(n - 1 + acc, acc, q + 1, r);
    }
  }

  lemma DivMono(x: nat, y: nat, d: nat)
    requires d > 0 && x <= y
    ensures x / d <= y / d
  {
    MulMono(y / d + 1, x / d, d);
    assert (y / d + 1) * d == y / d * d + d;
  }

  /** Before the last micro-batch there have been fewer syncs than
      `num_steps_per_epoch`. */
  lemma SyncBound(n: nat, acc: nat, b: nat)
    requires acc > 0 && b < n
    ensures SyncsAfter(n, acc, b) < CeilDiv(n, acc)
  {
    SyncsBefore(n, acc, b);
    SyncsTotal(n, acc);
    SyncsBefore(n, acc, n - 1);
    DivMono(b, n - 1, acc);
  }

  /** Every epoch that runs starts below `max_train_steps`; all but the
      last end after `num_steps_per_epoch` more steps, the last one at
      `max_train_steps`. */
  lemma EpochBounds(c: TrainConfig, e: nat)
    requires StepsPerEpoch(c) > 0 && e < NumEpochs(c)
    ensures e * StepsPerEpoch(c) < c.maxTrainSteps
    ensures e * StepsPerEpoch(c) < EpochEndStep(c, e) <= (e + 1) * StepsPerEpoch(c)
    ensures e + 1 < NumEpochs(c) ==> EpochEndStep(c, e) == (e + 1) * StepsPerEpoch(c)
    ensures e + 1 == NumEpochs(c) ==> EpochEndStep(c, e) == c.maxTrainSteps
  {
    var spe, last := StepsPerEpoch(c), NumEpochs(c) - 1;
    MulMono(e, last, spe);
    MulMono(e + 1, last, spe);
    assert (e + 1) * spe == e * spe + spe;
  }

  /** Epoch `e` starts where the previous one ended and runs the syncs up to
      its end step, which is one full epoch of steps later or
      `max_train_steps`. */
  lemma EpochStart(c: TrainConfig, e: nat)
    requires StepsPerEpoch(c) > 0 && e < NumEpochs(c)
    ensures StartStep(c, e) == e * StepsPerEpoch(c)
    ensures StartStep(c, e) < EpochEndStep(c, e) <= c.maxTrainSteps
    ensures EpochEndStep(c, e) <= StartStep(c, e) + StepsPerEpoch(c)
    ensures EpochEndStep(c, e) < c.maxTrainSteps ==> EpochEndStep(c, e) == StartStep(c, e) + StepsPerEpoch(c)
  {
    EpochBounds(c, e);
    if e > 0 {
      EpochBounds(c, e - 1);
    }
    assert (e + 1) * StepsPerEpoch(c) == e * StepsPerEpoch(c) + StepsPerEpoch(c);
  }


  /** The `if accelerator.sync_gradients:` block once `global_step` has
      become `step`: the step checkpoint when it is due. */
  method AfterSync(c: TrainConfig, step: nat) returns (r: Run)
    ensures r == StepRun(c, step)
  {
    r := Run([Synced(step)], None);
    if c.saveEveryNSteps.Some? {
      var n := c.saveEveryNSteps.value;
      if n == 0 {
        return r.(stop := Some(ZeroDivision));
      }
      if step % n == 0 {
        r := r.(events := r.events + [SavedStep(step)]);
      }
    }
  }

  /** The body of the micro-batch loop for the micro-batch after the first
      `b`, with `global_step == g`: the prediction-type check, then the
      sync and what follows it. */
  method MicroBatch(c: TrainConfig, target: Result<Target, string>, g: nat, b: nat)
    returns (r: Run, globalStep: nat)
    requires c.accumulationSteps > 0 && b < c.numBatches
    ensures target.Err? ==> globalStep == g && r == Run([], Some(UnknownPredictionType(target.error)))
    ensures target.Ok? && ((b + 1) % c.accumulationSteps == 0 || b + 1 == c.numBatches) ==>
      globalStep == g + 1 && r == StepRun(c, g + 1)
    ensures target.Ok? && !((b + 1) % c.accumulationSteps == 0 || b + 1 == c.numBatches) ==>
      globalStep == g && r == Done
  {
    if target.Err? {
      return Run([], Some(UnknownPredictionType(target.error))), g;
    }
    r, globalStep := Done, g;
    if (b + 1) % c.accumulationSteps == 0 || b + 1 == c.numBatches {
      globalStep := g + 1;
      r := AfterSync(c, globalStep);
    }
  }

  /** One pass of the micro-batch loop over an epoch that starts at
      `global_step == startStep` and, as `EpochStart` shows for every epoch
      that runs, ends at `global_step == lastStep`: one full epoch of steps
      later or at `max_train_steps`. */
  method RunEpoch(c: TrainConfig, target: Result<Target, string>, startStep: nat, ghost lastStep: nat)
    returns (out: Run, globalStep: nat)
    requires c.accumulationSteps > 0
    requires startStep < lastStep <= c.maxTrainSteps
    requires lastStep <= startStep + CeilDiv(c.numBatches, c.accumulationSteps)
    requires lastStep < c.maxTrainSteps ==> lastStep == startStep + CeilDiv(c.numBatches, c.accumulationSteps)
    ensures globalStep <= c.maxTrainSteps
    ensures out.stop.None? ==> globalStep == lastStep
    ensures target.Ok? ==> out == StepsRun(c, startStep + 1, lastStep + 1)
    ensures target.Err? ==> out == Run([], Some(UnknownPredictionType(target.error)))
  {
    var acc := c.accumulationSteps;
    out, globalStep := Done, startStep;
    var batch := 0;
    // The loop also stops at an exception and, with the `break` of the
    // source, once `global_step` reaches `max_train_steps`.
    while batch < c.numBatches && out.stop.None? && globalStep < c.maxTrainSteps
      invariant batch <= c.numBatches
      invariant target.Ok? ==> globalStep == startStep + SyncsAfter(c.numBatches, acc, batch)
      invariant globalStep <= lastStep
      invariant target.Ok? && batch < c.numBatches && globalStep < c.maxTrainSteps ==> globalStep < lastStep
      invariant target.Ok? ==> out == StepsRun(c, startStep + 1, globalStep + 1)
      invariant target.Err? ==> globalStep == startStep
      invariant target.Err? ==> out == if batch == 0 then Done else Run([], Some(UnknownPredictionType(target.error)))
    {
      if batch + 1 < c.numBatches {
        SyncBound(c.numBatches, acc, batch + 1);
      }
      var r, step := MicroBatch(c, target, globalStep, batch);
      if step > globalStep {
        StepsSnoc(c, startStep + 1, step);
      } else {
        ThenUnits(out);
      }
      out, globalStep := Then(out, r), step;
      batch := batch + 1;
    }
    if out.stop.Some? && target.Ok? {
      StepsSplit(c, startStep + 1, globalStep + 1, lastStep + 1);
    } else if batch == c.numBatches {
      SyncsTotal(c.numBatches, acc);
    }
  }

  /** A test `x % cadence == 0` guarding `event`. */
  method CadenceCheck(x: nat, cadence: int, event: Event) returns (r: Run)
    ensures r == Cadence(x, cadence, event)
  {
    if cadence == 0 {
      return Run([], Some(ZeroDivision));
    }
    r := if x % cadence == 0 then Run([event], None) else Done;
  }

  /** The end of the epoch numbered `k` (from 1): the epoch checkpoint when
      it is due, then validation when there are prompts and it is due. */
  method FinishEpoch(c: TrainConfig, k: nat) returns (r: Run)
    ensures r == EpochEnd(c, k)
  {
    r := Done;
    if c.saveEveryNEpochs.Some? {
      r := CadenceCheck(k, c.saveEveryNEpochs.value, SavedEpoch(k));
      if r.stop.Some? {
        return;
      }
    }
    if c.numValidationPrompts > 0 {
      var more := CadenceCheck(k, c.validateEveryNEpochs, Validated(k));
      r := Run(r.events + more.events, more.stop);
    } else {
      ThenUnits(r);
    }
  }

  /** One iteration of the epoch loop: epoch `e` (from 0). */
  method Epoch(c: TrainConfig, target: Result<Target, string>, e: nat, g: nat) returns (out: Run, globalStep: nat)
    requires StepsPerEpoch(c) > 0 && e < NumEpochs(c)
    requires g == StartStep(c, e)
    ensures globalStep <= c.maxTrainSteps
    ensures out.stop.None? ==> globalStep == EpochEndStep(c, e)
    ensures target.Ok? ==> out == EpochRun(c, e)
    ensures target.Err? ==> out == Run([], Some(UnknownPredictionType(target.error)))
  {
    EpochStart(c, e);
    out, globalStep := RunEpoch(c, target, g, EpochEndStep(c, e));
    if out.stop.Some? {
      return;
    }
    var finish := FinishEpoch(c, e + 1);
    out := Then(out, finish);
  }

  /** The epoch loop of `run_lora_training`, once the epoch count is known. */
  method EpochLoop(c: TrainConfig, target: Result<Target, string>, numEpochs: nat) returns (trace: Run, globalStep: nat)
    requires StepsPerEpoch(c) > 0 && numEpochs == NumEpochs(c)
    ensures trace == TraceWith(c, target)
    ensures globalStep <= c.maxTrainSteps
    ensures trace.stop.None? ==> globalStep == c.maxTrainSteps
  {
    ghost var valid := target.Ok? || numEpochs == 0;
    ThenUnits(EpochsRun(c, 0));
    trace, globalStep := Done, 0;
    var epoch := 0;
    while epoch < numEpochs
      invariant epoch <= numEpochs
      invariant globalStep == StartStep(c, epoch)
      invariant trace.stop.None?
      invariant valid ==> TraceWith(c, target) == Then(trace, EpochsRun(c, epoch))
      invariant !valid ==> epoch == 0 && trace == Done
    {
      var events;
      events, globalStep := Epoch(c, target, epoch, globalStep);
      ThenAssoc(trace, events, EpochsRun(c, epoch + 1));
      trace := Then(trace, events);
      if trace.stop.Some? {
        if !valid {
          ThenUnits(events);
        }
        return;
      }
      epoch := epoch + 1;
    }
    ThenUnits(trace);
    if numEpochs > 0 {
      EpochBounds(c, numEpochs - 1);
    } else {
      CeilDivBounds(c.maxTrainSteps, StepsPerEpoch(c));
    }
  }

  /** The schedule of `run_lora_training`, from the computation of the
      epoch count to the end of the epoch loop. It does exactly what
      `Trace(c)` says, and a run that raises nothing stops at
      `max_train_steps`. */
  method RunLoraTraining(c: TrainConfig) returns (trace: Run, globalStep: nat)
    ensures trace == Trace(c)
    ensures globalStep <= c.maxTrainSteps
    ensures trace.stop.None? ==> globalStep == c.maxTrainSteps
  {
    // `math.ceil(len(data_loader) / gradient_accumulation_steps)`, then
    // `math.ceil(max_train_steps / num_steps_per_epoch)`: either division
    // can be by zero.
    if c.accumulationSteps == 0 || CeilDiv(c.numBatches, c.accumulationSteps) == 0 {
      return Run([], Some(ZeroDivision)), 0;
    }
    var numEpochs := CeilDiv(c.maxTrainSteps, CeilDiv(c.numBatches, c.accumulationSteps));
    // The prediction type the scheduler is registered with is the same at
    // every micro-batch, so the check has the same outcome at each.
    var target := PredictionTarget(c.predictionType, c.schedulerPredictionType);
    trace, globalStep := EpochLoop(c, target, numEpochs);
  }
}
