/** What the schedule of `run_lora_training` does, stated independently of
    how the loops compute it: which exception a run stops with, if any,
    and, for a run that raises nothing, exactly which syncs, checkpoints
    and validations happen. */
module ScheduleFacts {
  import opened Wrappers
  import opened TrainingChecks
  import opened Schedule

  /** The kinds of event a run produces. */
  datatype Kind = Syncs | StepCheckpoints | EpochCheckpoints | Validations

  predicate IsOfKind(e: Event, k: Kind) {
    match k
    case Syncs => e.Synced?
    case StepCheckpoints => e.SavedStep?
    case EpochCheckpoints => e.SavedEpoch?
    case Validations => e.Validated?
  }

  /** The step of a sync or step checkpoint, the epoch number of an epoch
      checkpoint or validation. */
  function Number(e: Event): nat {
    match e
    case Synced(g) => g
    case SavedStep(g) => g
    case SavedEpoch(k) => k
    case Validated(k) => k
  }

  /** The numbers of the events of kind `k` in `t`, in order. */
  function Numbers(t: seq<Event>, k: Kind): seq<nat> {
    if t == [] then [] else (if IsOfKind(t[0], k) then [Number(t[0])] else []) + Numbers(t[1..], k)
  }

  /** `lo, lo + 1, ..., hi - 1`. */
  function Range(lo: nat, hi: nat): seq<nat>
    decreases hi - lo
  {
    if lo >= hi then [] else [lo] + Range(lo + 1, hi)
  }

  /** The multiples of `n` among `lo, ..., hi - 1`, in order; none for a
      zero `n`. */
  function Multiples(lo: nat, hi: nat, n: int): seq<nat>
    decreases hi - lo
  {
    if lo >= hi then [] else (if n != 0 && lo % n == 0 then [lo] else []) + Multiples(lo + 1, hi, n)
  }

  lemma {:induction false} NumbersConcat(a: seq<Event>, b: seq<Event>, k: Kind)
    ensures Numbers(a + b, k) == Numbers(a, k) + Numbers(b, k)
  {
    if a == [] {
      assert a + b == b;
    } else {
      assert (a + b)[0] == a[0];
      assert (a + b)[1..] == a[1..] + b;
      NumbersConcat(a[1..], b, k);
    }
  }

  lemma NumbersOne(e: Event, k: Kind)
    ensures Numbers([e], k) == if IsOfKind(e, k) then [Number(e)] else []
  {
    assert [e][1..] == [];
  }

  lemma {:induction false} RangeSplit(lo: nat, mid: nat, hi: nat)
    requires lo <= mid <= hi
    ensures Range(lo, hi) == Range(lo, mid) + Range(mid, hi)
    decreases mid - lo
  {
    if lo < mid {
      RangeSplit(lo + 1, mid, hi);
    }
  }

  lemma {:induction false} MultiplesSplit(lo: nat, mid: nat, hi: nat, n: int)
    requires lo <= mid <= hi
    ensures Multiples(lo, hi, n) == Multiples(lo, mid, n) + Multiples(mid, hi, n)
    decreases mid - lo
  {
    if lo < mid {
      MultiplesSplit(lo + 1, mid, hi, n);
    }
  }

  /** `Multiples` holds exactly the multiples in range. */
  lemma {:induction false} MultiplesMembers(lo: nat, hi: nat, n: int, x: nat)
    ensures x in Multiples(lo, hi, n) <==> lo <= x < hi && n != 0 && x % n == 0
    decreases hi - lo
  {
    if lo < hi {
      MultiplesMembers(lo + 1, hi, n, x);
    }
  }

  /** `global_step % save_every_n_steps == 0`, with a step cadence set. */
  predicate StepSaved(c: TrainConfig, g: nat) {
    c.saveEveryNSteps.Some? && c.saveEveryNSteps.value != 0 && g % c.saveEveryNSteps.value == 0
  }

  /** `(epoch + 1) % save_every_n_epochs == 0` for the epoch numbered `k`
      from 1, with an epoch cadence set. */
  predicate EpochSaved(c: TrainConfig, k: nat) {
    c.saveEveryNEpochs.Some? && c.saveEveryNEpochs.value != 0 && k % c.saveEveryNEpochs.value == 0
  }

  /** `len(validation_prompts) > 0 and (epoch + 1) % validate_every_n_epochs == 0`. */
  predicate ValidatedAt(c: TrainConfig, k: nat) {
    c.numValidationPrompts > 0 && c.validateEveryNEpochs != 0 && k % c.validateEveryNEpochs == 0
  }

  /** The numbers of the events of kind `k` that are due in a part of a
      run covering the syncs to `lo`, ..., `hi - 1` and the ends of the
      epochs numbered `ka`, ..., `kb - 1` (from 1): every sync, the step
      checkpoints at the multiples of `save_every_n_steps`, and the epoch
      checkpoints and validations at the multiples of their cadences. */
  function Due(c: TrainConfig, k: Kind, lo: nat, hi: nat, ka: nat, kb: nat): seq<nat> {
    match k
    case Syncs => Range(lo, hi)
    case StepCheckpoints => if c.saveEveryNSteps.Some? then Multiples(lo, hi, c.saveEveryNSteps.value) else []
    case EpochCheckpoints => if c.saveEveryNEpochs.Some? then Multiples(ka, kb, c.saveEveryNEpochs.value) else []
    case Validations => if c.numValidationPrompts > 0 then Multiples(ka, kb, c.validateEveryNEpochs) else []
  }

  /** `t` holds exactly the events of kind `k` that are due, in order. */
  ghost predicate Covers(c: TrainConfig, t: seq<Event>, k: Kind, lo: nat, hi: nat, ka: nat, kb: nat) {
    Numbers(t, k) == Due(c, k, lo, hi, ka, kb)
  }

  lemma DueSplit(c: TrainConfig, k: Kind, lo: nat, mid: nat, hi: nat, ka: nat, kmid: nat, kb: nat)
    requires lo <= mid <= hi && ka <= kmid <= kb
    ensures Due(c, k, lo, hi, ka, kb) == Due(c, k, lo, mid, ka, kmid) + Due(c, k, mid, hi, kmid, kb)
  {
    match k
    case Syncs => RangeSplit(lo, mid, hi);
    case StepCheckpoints =>
      if c.saveEveryNSteps.Some? {
        MultiplesSplit(lo, mid, hi, c.saveEveryNSteps.value);
      } else {
        var none: seq<nat> := [];
        assert none + none == none;
      }
    case EpochCheckpoints =>
      if c.saveEveryNEpochs.Some? {
        MultiplesSplit(ka, kmid, kb, c.saveEveryNEpochs.value);
      } else {
        var none: seq<nat> := [];
        assert none + none == none;
      }
    case Validations =>
      if c.numValidationPrompts > 0 {
        MultiplesSplit(ka, kmid, kb, c.validateEveryNEpochs);
      } else {
        var none: seq<nat> := [];
        assert none + none == none;
      }
  }

  /** When `Then(a, b)` raises nothing, neither part does. */
  lemma ThenNoStop(a: Run, b: Run)
    requires Then(a, b).stop.None?
    ensures a.stop.None? && b.stop.None?
  {
  }

  /** Two parts that raise nothing cover consecutive ranges together. */
  lemma CoversThen(c: TrainConfig, a: Run, b: Run, k: Kind, lo: nat, mid: nat, hi: nat, ka: nat, kmid: nat, kb: nat)
    requires lo <= mid <= hi && ka <= kmid <= kb
    requires a.stop.None? && Covers(c, a.events, k, lo, mid, ka, kmid) && Covers(c, b.events, k, mid, hi, kmid, kb)
    ensures Covers(c, Then(a, b).events, k, lo, hi, ka, kb)
  {
    NumbersConcat(a.events, b.events, k);
    DueSplit(c, k, lo, mid, hi, ka, kmid, kb);
  }

  /** A sync that raises nothing, and the step checkpoint when it is due. */
  lemma StepShape(c: TrainConfig, g: nat)
    requires StepRun(c, g).stop.None?
    ensures StepRun(c, g).events == [Synced(g)] + (if StepSaved(c, g) then [SavedStep(g)] else [])
  {
    assert [Synced(g)] + [] == [Synced(g)];
  }

  lemma CoversStep(c: TrainConfig, g: nat, k: Kind, j: nat)
    requires StepRun(c, g).stop.None?
    ensures Covers(c, StepRun(c, g).events, k, g, g + 1, j, j)
  {
    StepShape(c, g);
    var more: seq<Event> := if StepSaved(c, g) then [SavedStep(g)] else [];
    NumbersConcat([Synced(g)], more, k);
    NumbersOne(Synced(g), k);
    if StepSaved(c, g) {
      NumbersOne(SavedStep(g), k);
    }
    assert Range(g + 1, g + 1) == [];
    assert Multiples(g + 1, g + 1, if c.saveEveryNSteps.Some? then c.saveEveryNSteps.value else 0) == [];
  }

  /** The syncs from `lo` to `hi`, when none of them raises. */
  lemma {:induction false} CoversSteps(c: TrainConfig, lo: nat, hi: nat, k: Kind, j: nat)
    requires lo <= hi && StepsRun(c, lo, hi).stop.None?
    ensures Covers(c, StepsRun(c, lo, hi).events, k, lo, hi, j, j)
    decreases hi - lo
  {
    if lo < hi {
      assert StepsRun(c, lo, hi) == Then(StepRun(c, lo), StepsRun(c, lo + 1, hi));
      ThenNoStop(StepRun(c, lo), StepsRun(c, lo + 1, hi));
      CoversStep(c, lo, k, j);
      CoversSteps(c, lo + 1, hi, k, j);
      CoversThen(c, StepRun(c, lo), StepsRun(c, lo + 1, hi), k, lo, lo + 1, hi, j, j, j);
    } else {
      assert Range(lo, lo) == [];
    }
  }

  /** The end of an epoch that raises nothing: the epoch checkpoint and the
      validation when each is due. */
  lemma EndShape(c: TrainConfig, j: nat)
    requires EpochEnd(c, j).stop.None?
    ensures EpochEnd(c, j).events ==
      (if EpochSaved(c, j) then [SavedEpoch(j)] else []) + (if ValidatedAt(c, j) then [Validated(j)] else [])
  {
    assert [SavedEpoch(j)] + [] == [SavedEpoch(j)];
    assert [] + [Validated(j)] == [Validated(j)];
  }

  /** The end of the epoch numbered `j`, when it raises nothing. */
  lemma CoversEnd(c: TrainConfig, j: nat, s: nat, k: Kind)
    requires EpochEnd(c, j).stop.None?
    ensures Covers(c, EpochEnd(c, j).events, k, s, s, j, j + 1)
  {
    EndShape(c, j);
    var saving: seq<Event> := if EpochSaved(c, j) then [SavedEpoch(j)] else [];
    var validation: seq<Event> := if ValidatedAt(c, j) then [Validated(j)] else [];
    NumbersConcat(saving, validation, k);
    if EpochSaved(c, j) {
      NumbersOne(SavedEpoch(j), k);
    }
    if ValidatedAt(c, j) {
      NumbersOne(Validated(j), k);
    }
    assert Range(s, s) == [];
    assert Multiples(s, s, if c.saveEveryNSteps.Some? then c.saveEveryNSteps.value else 0) == [];
    assert Multiples(j + 1, j + 1, if c.saveEveryNEpochs.Some? then c.saveEveryNEpochs.value else 0) == [];
    assert Multiples(j + 1, j + 1, c.validateEveryNEpochs) == [];
  }

  /** Epoch `e` (from 0), when it raises nothing. */
  lemma CoversEpoch(c: TrainConfig, e: nat, k: Kind)
    requires StepsPerEpoch(c) > 0 && e < NumEpochs(c)
    requires EpochRun(c, e).stop.None?
    ensures Covers(c, EpochRun(c, e).events, k, StartStep(c, e) + 1, EpochEndStep(c, e) + 1, e + 1, e + 2)
  {
    EpochStart(c, e);
    var lo, hi := StartStep(c, e) + 1, EpochEndStep(c, e) + 1;
    assert EpochRun(c, e) == Then(StepsRun(c, lo, hi), EpochEnd(c, e + 1));
    ThenNoStop(StepsRun(c, lo, hi), EpochEnd(c, e + 1));
    CoversSteps(c, lo, hi, k, e + 1);
    CoversEnd(c, e + 1, hi, k);
    CoversThen(c, StepsRun(c, lo, hi), EpochEnd(c, e + 1), k, lo, hi, hi, e + 1, e + 1, e + 2);
  }

  /** Where the last epoch ends. */
  lemma LastEpochEnd(c: TrainConfig)
    requires StepsPerEpoch(c) > 0
    ensures StartStep(c, NumEpochs(c)) == c.maxTrainSteps
  {
    if NumEpochs(c) > 0 {
      EpochBounds(c, NumEpochs(c) - 1);
    } else {
      CeilDivBounds(c.maxTrainSteps, StepsPerEpoch(c));
    }
  }

  /** Epochs `e`, ..., `NumEpochs(c) - 1`, when none of them raises. */
  lemma {:induction false} CoversEpochs(c: TrainConfig, e: nat, k: Kind)
    requires StepsPerEpoch(c) > 0 && e <= NumEpochs(c)
    requires EpochsRun(c, e).stop.None?
    ensures Covers(c, EpochsRun(c, e).events, k, StartStep(c, e) + 1, c.maxTrainSteps + 1, e + 1, NumEpochs(c) + 1)
    decreases NumEpochs(c) - e
  {
    if e < NumEpochs(c) {
      assert EpochsRun(c, e) == Then(EpochRun(c, e), EpochsRun(c, e + 1));
      ThenNoStop(EpochRun(c, e), EpochsRun(c, e + 1));
      CoversEpoch(c, e, k);
      CoversEpochs(c, e + 1, k);
      CoversThen(c, EpochRun(c, e), EpochsRun(c, e + 1), k,
        StartStep(c, e) + 1, EpochEndStep(c, e) + 1, c.maxTrainSteps + 1, e + 1, e + 2, NumEpochs(c) + 1);
    } else {
      LastEpochEnd(c);
      assert Range(c.maxTrainSteps + 1, c.maxTrainSteps + 1) == [];
    }
  }

  /** A run that raises nothing holds exactly the events due over all of
      it, in order: syncs to `global_step` 1, ..., `max_train_steps`, and
      the checkpoints and validations due among them and at the ends of the
      epochs, numbered 1 to `num_train_epochs`. */
  lemma TraceEvents(c: TrainConfig, k: Kind)
    requires Trace(c).stop.None?
    ensures Covers(c, Trace(c).events, k, 1, c.maxTrainSteps + 1, 1, NumEpochs(c) + 1)
  {
    CoversEpochs(c, 0, k);
  }

  /** An event of some kind occurs exactly when its number does among the
      numbers of that kind. */
  lemma {:induction false} NumbersMembers(t: seq<Event>, e: Event, k: Kind)
    requires IsOfKind(e, k)
    ensures e in t <==> Number(e) in Numbers(t, k)
  {
    if t != [] {
      NumbersMembers(t[1..], e, k);
      assert t == [t[0]] + t[1..];
    }
  }

  /** A run that raises nothing syncs exactly at `global_step` 1, ...,
      `max_train_steps`, in that order; saves a step checkpoint exactly at
      the steps that are multiples of `save_every_n_steps`; and, at the end
      of the epoch numbered `j` from 1 to `num_train_epochs`, saves an epoch
      checkpoint exactly when `j` is a multiple of `save_every_n_epochs`
      and validates exactly when there are prompts and `j` is a multiple of
      `validate_every_n_epochs`. */
  lemma TraceSchedule(c: TrainConfig)
    requires Trace(c).stop.None?
    ensures Numbers(Trace(c).events, Syncs) == Range(1, c.maxTrainSteps + 1)
    ensures forall g: nat :: SavedStep(g) in Trace(c).events <==> 1 <= g <= c.maxTrainSteps && StepSaved(c, g)
    ensures forall j: nat :: SavedEpoch(j) in Trace(c).events <==> 1 <= j <= NumEpochs(c) && EpochSaved(c, j)
    ensures forall j: nat :: Validated(j) in Trace(c).events <==> 1 <= j <= NumEpochs(c) && ValidatedAt(c, j)
  {
    var t := Trace(c).events;
    TraceEvents(c, Syncs);
    TraceEvents(c, StepCheckpoints);
    TraceEvents(c, EpochCheckpoints);
    TraceEvents(c, Validations);
    forall g: nat ensures SavedStep(g) in t <==> 1 <= g <= c.maxTrainSteps && StepSaved(c, g) {
      NumbersMembers(t, SavedStep(g), StepCheckpoints);
      if c.saveEveryNSteps.Some? {
        MultiplesMembers(1, c.maxTrainSteps + 1, c.saveEveryNSteps.value, g);
      }
    }
    forall j: nat ensures SavedEpoch(j) in t <==> 1 <= j <= NumEpochs(c) && EpochSaved(c, j) {
      NumbersMembers(t, SavedEpoch(j), EpochCheckpoints);
      if c.saveEveryNEpochs.Some? {
        MultiplesMembers(1, NumEpochs(c) + 1, c.saveEveryNEpochs.value, j);
      }
    }
    forall j: nat ensures Validated(j) in t <==> 1 <= j <= NumEpochs(c) && ValidatedAt(c, j) {
      NumbersMembers(t, Validated(j), Validations);
      if c.numValidationPrompts > 0 {
        MultiplesMembers(1, NumEpochs(c) + 1, c.validateEveryNEpochs, j);
      }
    }
  }

  /** Whether the end of an epoch divides by zero. */
  predicate EndRaises(c: TrainConfig) {
    c.saveEveryNEpochs == Some(0) || (c.numValidationPrompts > 0 && c.validateEveryNEpochs == 0)
  }

  /** The exception a run stops with, read off the configuration: a zero
      `num_steps_per_epoch`; otherwise, when at least one epoch runs, an
      unknown prediction type at the first micro-batch, a zero step cadence
      at the first sync, or a zero epoch or validation cadence at the end
      of the first epoch. */
  function ExpectedStop(c: TrainConfig): Option<Crash> {
    var target := PredictionTarget(c.predictionType, c.schedulerPredictionType);
    if StepsPerEpoch(c) == 0 then Some(ZeroDivision)
    else if NumEpochs(c) == 0 then None
    else if target.Err? then Some(UnknownPredictionType(target.error))
    else if c.saveEveryNSteps == Some(0) || EndRaises(c) then Some(ZeroDivision)
    else None
  }

  lemma {:induction false} StepsStop(c: TrainConfig, lo: nat, hi: nat)
    ensures StepsRun(c, lo, hi).stop == if lo < hi && c.saveEveryNSteps == Some(0) then Some(ZeroDivision) else None
    decreases hi - lo
  {
    if lo < hi {
      StepsStop(c, lo + 1, hi);
    }
  }

  lemma EpochStop(c: TrainConfig, e: nat)
    requires StepsPerEpoch(c) > 0 && e < NumEpochs(c)
    ensures EpochRun(c, e).stop == if c.saveEveryNSteps == Some(0) || EndRaises(c) then Some(ZeroDivision) else None
  {
    EpochStart(c, e);
    StepsStop(c, e * StepsPerEpoch(c) + 1, EpochEndStep(c, e) + 1);
  }

  lemma {:induction false} EpochsStop(c: TrainConfig, e: nat)
    requires StepsPerEpoch(c) > 0
    ensures EpochsRun(c, e).stop == if e < NumEpochs(c) && (c.saveEveryNSteps == Some(0) || EndRaises(c)) then Some(ZeroDivision) else None
    decreases NumEpochs(c) - e
  {
    if e < NumEpochs(c) {
      EpochStop(c, e);
      EpochsStop(c, e + 1);
    }
  }

  /** A run stops with exactly the exception `ExpectedStop` names, and with
      none when it names none. */
  lemma TraceStop(c: TrainConfig)
    ensures Trace(c).stop == ExpectedStop(c)
  {
    if StepsPerEpoch(c) > 0 {
      EpochsStop(c, 0);
    }
  }
}
