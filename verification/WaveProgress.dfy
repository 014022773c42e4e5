/**
 A wave always comes to an end when dispatches do: no reachable state is stuck before the
 close, and no run is longer than a bound fixed by the number of tasks.
 */
module WaveProgress {
  import opened Ids
  import opened WaveLedgers
  import opened WaveExecution
  import opened WaveInvariant
  import opened WaveTheorems

  // ---- every step uses up work ----

  /** Worker actions still possible on one task. */
  function TaskWork(s: Run, t: Id): nat {
    match Fut(s, t)
    case None => 4
    case Some(Queued) => 3
    case Some(Picked) => 2
    case Some(Dispatching) => 1
    case Some(_) => 0
  }

  function Work(s: Run, ids: seq<Id>): nat {
    if ids == [] then 0 else Work(s, ids[..|ids| - 1]) + TaskWork(s, ids[|ids| - 1])
  }

  lemma {:induction false} WorkShrinks(s: Run, s': Run, ids: seq<Id>, t: Id)
    requires forall u :: u in ids ==> TaskWork(s', u) <= TaskWork(s, u)
    ensures Work(s', ids) <= Work(s, ids)
    ensures t in ids && TaskWork(s', t) < TaskWork(s, t) ==> Work(s', ids) < Work(s, ids)
  {
    if ids != [] {
      var n := |ids| - 1;
      assert ids == ids[..n] + [ids[n]];
      WorkShrinks(s, s', ids[..n], t);
    }
  }

  function StageRank(stage: TimeoutStage): nat {
    match stage
    case AskDone => 3
    case TryCancel => 2
    case AskPending => 1
    case MarkTimedOut => 0
  }

  /** Main-thread actions still possible, apart from submitting and collecting. */
  function PhaseWork(phase: Phase, n: nat): int {
    match phase
    case Submitting(_) => 5 * n + 18
    case Collecting => 5 * n + 17
    case TimingOut(i, stage) => 4 * (n - i) + StageRank(stage) + n + 12
    case Joining => n + 10
    case CleaningUp(orphans) => |orphans| + 9
    case FinishingOrphans(orphans, _, done) => |orphans| - done + 5
    case ShuttingDown => 3
    case Closing => 2
    case Closed(_) => 0
  }

  function Measure(c: Config, s: Run): int {
    Work(s, c.ids) + (|c.ids| - |s.collected|) + PhaseWork(s.phase, |c.ids|)
  }

  lemma {:induction false} SelectLength(ids: seq<Id>, entries: map<Id, Entry>, s: Status)
    ensures |Select(ids, entries, s)| <= |ids|
  {
    if ids != [] { SelectLength(ids[..|ids| - 1], entries, s); }
  }

  /** The worker or submit step that moves task `t` one state on. */
  ghost predicate Moves(c: Config, s: Run, step: Step, t: Id) {
    match step
    case Submit => s.phase.Submitting? && s.phase.next < |c.ids| && t == c.ids[s.phase.next] && t !in s.futures
    case Pick(u) => t == u
    case StartTask(u) => t == u
    case Complete(u, _) => t == u
    case _ => false
  }

  lemma StepShrinksWork(c: Config, s: Run, step: Step, t: Id)
    requires Enabled(c, s, step)
    requires step.Submit? ==> Moves(c, s, step, t)
    ensures Work(Apply(c, s, step), c.ids) <= Work(s, c.ids)
    ensures Moves(c, s, step, t) && t in c.ids ==> Work(Apply(c, s, step), c.ids) < Work(s, c.ids)
  {
    WorkShrinks(s, Apply(c, s, step), c.ids, t);
  }

  /** Steps that move the main thread to a later position. */
  predicate MovesMain(step: Step) {
    Quiet(step) || step.TimeoutAction? || step.FinishOrphan? || step.Shutdown?
  }

  lemma JoinShrinksPhase(c: Config, s: Run)
    requires Enabled(c, s, Join)
    ensures PhaseWork(Apply(c, s, Join).phase, |c.ids|) < PhaseWork(s.phase, |c.ids|)
  {
    SelectLength(c.ids, s.ledger.entries, Running);
  }

  lemma QuietStepShrinksPhase(c: Config, s: Run, step: Step)
    requires Enabled(c, s, step) && Quiet(step) && !step.Join?
    ensures PhaseWork(Apply(c, s, step).phase, |c.ids|) < PhaseWork(s.phase, |c.ids|)
  {}

  lemma TimeoutShrinksPhase(c: Config, s: Run)
    requires Enabled(c, s, TimeoutAction)
    ensures PhaseWork(Apply(c, s, TimeoutAction).phase, |c.ids|) < PhaseWork(s.phase, |c.ids|)
  {}

  lemma MainStepShrinksPhase(c: Config, s: Run, step: Step)
    requires Enabled(c, s, step) && MovesMain(step)
    ensures PhaseWork(Apply(c, s, step).phase, |c.ids|) < PhaseWork(s.phase, |c.ids|)
  {
    if step.Join? {
      JoinShrinksPhase(c, s);
    } else if Quiet(step) {
      QuietStepShrinksPhase(c, s, step);
    } else if step.TimeoutAction? {
      TimeoutShrinksPhase(c, s);
    }
  }

  lemma OtherStepKeepsPhase(c: Config, s: Run, step: Step)
    requires Enabled(c, s, step) && !MovesMain(step)
    ensures PhaseWork(Apply(c, s, step).phase, |c.ids|) == PhaseWork(s.phase, |c.ids|)
  {}

  lemma StepCollects(c: Config, s: Run, step: Step)
    requires Enabled(c, s, step)
    ensures |Apply(c, s, step).collected| == |s.collected| + if step.Collect? then 1 else 0
  {}

  lemma StepShrinksMeasure(c: Config, s: Run, step: Step)
    requires Inv(c, s) && Enabled(c, s, step)
    ensures Measure(c, Apply(c, s, step)) < Measure(c, s)
  {
    if MovesMain(step) { MainStepShrinksPhase(c, s, step); } else { OtherStepKeepsPhase(c, s, step); }
    StepCollects(c, s, step);
    var t: Id := if step.Submit? then c.ids[s.phase.next]
                 else if step.Pick? || step.StartTask? || step.Complete? then step.t
                 else "";
    if step.Submit? { SubmitInv(c, s); }
    StepShrinksWork(c, s, step, t);
    if Moves(c, s, step, t) { assert t in Elements(c.ids); }
  }

  lemma {:induction false} MeasureFalls(c: Config, tr: seq<Run>, n: nat)
    requires Execution(c, tr) && n < |tr|
    ensures Measure(c, tr[n]) + n <= Measure(c, Init(c))
  {
    if n > 0 {
      MeasureFalls(c, tr, n - 1);
      MeasureFallsAt(c, tr, n);
    }
  }

  lemma NextShrinksMeasure(c: Config, s: Run, s': Run)
    requires Inv(c, s) && Next(c, s, s')
    ensures Measure(c, s') < Measure(c, s)
  {
    var step :| Enabled(c, s, step) && s' == Apply(c, s, step);
    StepShrinksMeasure(c, s, step);
  }

  lemma MeasureFallsAt(c: Config, tr: seq<Run>, n: nat)
    requires Execution(c, tr) && 0 < n < |tr|
    ensures Measure(c, tr[n]) < Measure(c, tr[n - 1])
  {
    ExecutionInv(c, tr, n - 1);
    assert StepAt(c, tr, n);
    NextShrinksMeasure(c, tr[n - 1], tr[n]);
  }

  lemma {:induction false} InitialWork(c: Config, ids: seq<Id>)
    ensures Work(Init(c), ids) == 4 * |ids|
  {
    if ids != [] { InitialWork(c, ids[..|ids| - 1]); }
  }

  /** No run of a wave of n tasks takes more than 10n + 18 steps. */
  lemma RunsAreBounded(c: Config, tr: seq<Run>)
    requires Execution(c, tr)
    ensures |tr| <= 10 * |c.ids| + 19
  {
    var n := |tr| - 1;
    MeasureFalls(c, tr, n);
    InitialWork(c, c.ids);
    ExecutionInv(c, tr, n);
    MeasureIsNatural(c, tr[n]);
  }

  lemma MeasureIsNatural(c: Config, s: Run)
    requires Core(c, s) && KnownIds(c, s) && PhaseOk(c, s)
    ensures Measure(c, s) >= 0
  {
    SubsetSize(s.collected, Elements(c.ids));
    ElementsSize(c.ids);
  }

  // ---- no reachable state is stuck before the close ----

  ghost predicate CanStep(c: Config, s: Run) {
    exists step :: Enabled(c, s, step)
  }

  /** A task that a worker has not finished: some worker can take a step. */
  lemma WorkerCanStep(c: Config, s: Run, t: Id)
    requires Core(c, s) && t in s.futures && !IsDone(s.futures[t])
    ensures CanStep(c, s)
  {
    if u :| u in Busy(s) {
      if s.futures[u].Picked? {
        assert Enabled(c, s, StartTask(u));
      } else {
        assert Enabled(c, s, Complete(u, Returned(Other)));
      }
    } else {
      assert t !in Busy(s) && |Busy(s)| == 0;
      assert Enabled(c, s, Pick(t));
    }
  }

  lemma CollectingCanStep(c: Config, s: Run)
    requires Core(c, s) && AllTasks(s) && KnownIds(c, s) && PhaseOk(c, s) && s.phase.Collecting?
    ensures CanStep(c, s)
  {
    if s.collected == Elements(c.ids) {
      assert Enabled(c, s, EndCollecting);
    } else {
      var t :| t in Elements(c.ids) && t !in s.collected;
      assert TaskOk(s, t);
      if IsDone(s.futures[t]) {
        assert Enabled(c, s, Collect(t));
      } else {
        WorkerCanStep(c, s, t);
      }
    }
  }

  lemma MainCanStep(c: Config, s: Run)
    requires Core(c, s) && KnownIds(c, s) && PhaseOk(c, s) && !s.phase.Collecting? && !s.phase.Closed?
    ensures CanStep(c, s)
  {
    match s.phase
    case Submitting(n) => assert Enabled(c, s, if n < |c.ids| then Submit else BeginCollecting);
    case TimingOut(i, stage) => assert Enabled(c, s, if i < |c.ids| then TimeoutAction else EndTimeout);
    case Joining => assert Enabled(c, s, Join);
    case CleaningUp(_) => assert Enabled(c, s, CleanupRaised);
    case FinishingOrphans(orphans, _, done) =>
      assert Enabled(c, s, if done < |orphans| then FinishOrphan else EndOrphans);
    case ShuttingDown => assert Enabled(c, s, Shutdown);
    case Closing => assert Enabled(c, s, Close);
  }

  /** Every run can be carried on until the wave is closed. */
  lemma RunsUntilClosed(c: Config, tr: seq<Run>)
    requires Execution(c, tr) && !tr[|tr| - 1].phase.Closed?
    ensures exists s :: Execution(c, tr + [s])
  {
    var n := |tr| - 1;
    ExecutionInv(c, tr, n);
    if tr[n].phase.Collecting? { CollectingCanStep(c, tr[n]); } else { MainCanStep(c, tr[n]); }
    var step :| Enabled(c, tr[n], step);
    ExtendRun(c, tr, step);
  }

  lemma ExtendRun(c: Config, tr: seq<Run>, step: Step)
    requires Execution(c, tr) && Enabled(c, tr[|tr| - 1], step)
    ensures Execution(c, tr + [Apply(c, tr[|tr| - 1], step)])
  {
    var tr' := tr + [Apply(c, tr[|tr| - 1], step)];
    forall i | 0 < i < |tr'| ensures StepAt(c, tr', i) {
      if i < |tr| {
        assert StepAt(c, tr, i);
        assert tr'[i - 1] == tr[i - 1] && tr'[i] == tr[i];
      } else {
        assert Next(c, tr'[i - 1], tr'[i]);
      }
    }
  }
}
