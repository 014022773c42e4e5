/**
 Which returned waves have a summary that their own validator accepts.  A wave that timed out
 with nothing running at the join keeps the cleanup status "required" and is refused.
 */
module WaveEndings {
  import opened Ids
  import opened Text
  import opened WaveLedgers
  import opened WaveExecution
  import opened WaveInvariant
  import opened WaveTheorems
  import opened WaveReach
  import opened WaveSummary

  // ---- what was running at the join ----

  ghost predicate RunsAtJoin(c: Config, s: Run) {
    s.phase.Joining? && Active(c, s) != []
  }

  /** At some time up to `n` the main thread stood at the join with a task running. */
  ghost predicate JoinedRunning(c: Config, tr: seq<Run>, n: nat)
    requires n < |tr|
  {
    exists i :: 0 <= i <= n && RunsAtJoin(c, tr[i])
  }

  /** What the main thread's position says about the tasks that ran at the join. */
  ghost predicate JoinOk(c: Config, s: Run, joined: bool) {
    match s.phase
    case Submitting(_) => !joined
    case Collecting => !joined
    case TimingOut(_, _) => !joined
    case Joining => (joined <==> Active(c, s) != []) && (s.timedOut ==> s.cleanup == Required)
    case CleaningUp(_) => joined && Active(c, s) != []
    case FinishingOrphans(_, _, _) => joined
    case _ => AfterCleanup(c, s, joined)
  }

  ghost predicate AfterCleanup(c: Config, s: Run, joined: bool) {
    s.timedOut ==> if !joined then s.cleanup == Required else Active(c, s) == [] ==> s.cleanup == Passed
  }

  /** From the join on no worker can start a task any more, so workers leave the ledger alone. */
  lemma WorkersAreDone(c: Config, s: Run, step: Step)
    requires Inv(c, s) && Enabled(c, s, step) && (step.Pick? || step.StartTask? || step.Complete?)
    requires Settled(c, s)
    ensures Apply(c, s, step).ledger == s.ledger
  {
    assert step.t in s.ledger.entries && step.t in Elements(c.ids);
    assert !CanStart(s.ledger, step.t);
  }

  predicate SettledPhase(phase: Phase) {
    !phase.Submitting? && !phase.Collecting? && !phase.TimingOut?
  }

  lemma WorkerKeepsJoin(c: Config, s: Run, step: Step, joined: bool)
    requires Inv(c, s) && Enabled(c, s, step) && (step.Pick? || step.StartTask? || step.Complete?)
    requires JoinOk(c, s, joined)
    ensures JoinOk(c, Apply(c, s, step), joined || RunsAtJoin(c, Apply(c, s, step)))
  {
    if SettledPhase(s.phase) { WorkersAreDone(c, s, step); }
  }

  /** The main thread's steps that end before the join. */
  predicate BeforeJoin(step: Step) {
    step.Submit? || step.BeginCollecting? || step.Collect? || step.Timeout? || step.TimeoutAction?
  }

  lemma EarlyKeepsJoin(c: Config, s: Run, step: Step, joined: bool)
    requires Enabled(c, s, step) && BeforeJoin(step) && JoinOk(c, s, joined)
    ensures JoinOk(c, Apply(c, s, step), joined) && !Apply(c, s, step).phase.Joining?
  {}

  predicate AroundJoin(step: Step) {
    step.EndCollecting? || step.EndTimeout? || step.Join?
  }

  lemma JoinKeepsJoin(c: Config, s: Run, step: Step, joined: bool)
    requires Enabled(c, s, step) && AroundJoin(step) && JoinOk(c, s, joined)
    requires step.EndCollecting? ==> !s.timedOut
    ensures JoinOk(c, Apply(c, s, step), joined || RunsAtJoin(c, Apply(c, s, step)))
  {}

  predicate AfterJoin(step: Step) {
    step.CleanupRaised? || step.CleanupReturned? || step.FinishOrphan? || step.EndOrphans?
    || step.Shutdown? || step.Close?
  }

  /** An orphan that is still to be finished is running. */
  lemma OrphanRuns(c: Config, s: Run)
    requires Inv(c, s) && s.phase.FinishingOrphans? && s.phase.done < |s.phase.orphans|
    ensures Active(c, s) != []
  {
    var t := s.phase.orphans[s.phase.done];
    SelectMembers(c.ids, s.ledger.entries, Running);
    assert t in Elements(c.ids) && t in Active(c, s);
  }

  lemma LateKeepsJoin(c: Config, s: Run, step: Step, joined: bool)
    requires Enabled(c, s, step) && AfterJoin(step) && JoinOk(c, s, joined)
    requires step.CleanupRaised? ==> Active(c, s) != []
    ensures JoinOk(c, Apply(c, s, step), joined) && !Apply(c, s, step).phase.Joining?
  {}

  lemma StepKeepsJoin(c: Config, s: Run, step: Step, joined: bool)
    requires Inv(c, s) && Enabled(c, s, step) && JoinOk(c, s, joined)
    ensures JoinOk(c, Apply(c, s, step), joined || RunsAtJoin(c, Apply(c, s, step)))
  {
    if BeforeJoin(step) {
      EarlyKeepsJoin(c, s, step, joined);
    } else if AroundJoin(step) {
      JoinKeepsJoin(c, s, step, joined);
    } else if AfterJoin(step) {
      if step.CleanupRaised? && s.phase.FinishingOrphans? { OrphanRuns(c, s); }
      LateKeepsJoin(c, s, step, joined);
    } else {
      WorkerKeepsJoin(c, s, step, joined);
    }
  }

  lemma NextKeepsJoin(c: Config, s: Run, s': Run, joined: bool)
    requires Inv(c, s) && Next(c, s, s') && JoinOk(c, s, joined)
    ensures JoinOk(c, s', joined || RunsAtJoin(c, s'))
  {
    var step :| Enabled(c, s, step) && s' == Apply(c, s, step);
    StepKeepsJoin(c, s, step, joined);
  }

  lemma JoinAt(c: Config, tr: seq<Run>, n: nat, joined: bool)
    requires Execution(c, tr) && 0 < n < |tr| && JoinOk(c, tr[n - 1], joined)
    ensures JoinOk(c, tr[n], joined || RunsAtJoin(c, tr[n]))
  {
    ExecutionInv(c, tr, n - 1);
    assert StepAt(c, tr, n);
    NextKeepsJoin(c, tr[n - 1], tr[n], joined);
  }

  lemma JoinedNext(c: Config, tr: seq<Run>, n: nat)
    requires 0 < n < |tr|
    ensures JoinedRunning(c, tr, n) == (JoinedRunning(c, tr, n - 1) || RunsAtJoin(c, tr[n]))
  {}

  lemma JoinedFirst(c: Config, tr: seq<Run>)
    requires tr != [] && tr[0] == Init(c)
    ensures JoinOk(c, tr[0], JoinedRunning(c, tr, 0))
  {
    assert !RunsAtJoin(c, tr[0]);
  }

  lemma {:induction false} JoinDecides(c: Config, tr: seq<Run>, n: nat)
    requires Execution(c, tr) && n < |tr|
    ensures JoinOk(c, tr[n], JoinedRunning(c, tr, n))
  {
    if n == 0 {
      JoinedFirst(c, tr);
    } else {
      JoinDecides(c, tr, n - 1);
      JoinAt(c, tr, n, JoinedRunning(c, tr, n - 1));
      JoinedNext(c, tr, n);
    }
  }

  lemma TerminalMeansIdle(c: Config, s: Run)
    requires AllTerminal(s.ledger)
    ensures Active(c, s) == []
  {
    NobodyRuns(c, s);
  }

  /**
   A returned wave has finished its cleanup exactly if it did not time out, or had a task
   running at the join: a cleanup that fails, or is missing, leaves that task running, and then
   nothing is returned.
   */
  lemma ReturnedCleanupIff(c: Config, tr: seq<Run>, n: nat)
    requires Execution(c, tr) && n < |tr| && tr[n].phase == Closed(true)
    ensures tr[n].cleanup in {NotRequired, Passed} <==> !tr[n].timedOut || JoinedRunning(c, tr, n)
  {
    ExecutionInv(c, tr, n);
    TerminalMeansIdle(c, tr[n]);
    JoinDecides(c, tr, n);
  }

  // ---- the summary of every returned wave ----

  lemma ReturnedStatuses(c: Config, s: Run)
    requires Core(c, s) && AllTerminal(s.ledger)
    ensures |ResultOf(s).statuses| == |c.ids| && 0 < |c.ids|
    ensures forall t :: t in ResultOf(s).statuses ==> Terminal(ResultOf(s).statuses[t])
  {
    ElementsSize(c.ids);
    var statuses := ResultOf(s).statuses;
    assert statuses.Keys == Elements(c.ids) && |statuses| == |statuses.Keys|;
  }

  /** The summary that a wave in this state would hand over. */
  ghost function SummaryAt(s: Run, waveId: string, started: string, ended: string, planned: int): Summary {
    ExecutionSummary(waveId, started, ended, ResultOf(s), planned)
  }

  /**
   The summary of a returned wave is accepted exactly if the wave id is not blank, the wave did
   not time out or had a task running at the join, and the planned parallelism is positive and
   lies between the reported parallelism and the task count.
   */
  lemma ReturnedSummaryAcceptedIff(
    c: Config, tr: seq<Run>, n: nat, waveId: string, started: string, ended: string, planned: int, iso: string -> bool)
    requires Execution(c, tr) && n < |tr| && tr[n].phase == Closed(true)
    requires !Blank(started) && iso(started) && !Blank(ended) && iso(ended)
    ensures Acceptable(SummaryAt(tr[n], waveId, started, ended, planned), iso) <==>
      && !Blank(waveId) && (!tr[n].timedOut || JoinedRunning(c, tr, n))
      && 0 < planned && tr[n].ledger.maxActive <= planned <= |c.ids|
  {
    ExecutionInv(c, tr, n);
    ReturnedStatuses(c, tr[n]);
    ReturnedCleanupIff(c, tr, n);
    SummaryAcceptedIff(waveId, started, ended, ResultOf(tr[n]), planned, iso);
  }

  // ---- the summaries of every run of a wave ----

  /** A returned wave that did not time out. */
  ghost predicate CleanEnd(c: Config, s: Run) {
    Reachable(c, s) && s.phase == Closed(true) && !s.timedOut
  }

  lemma ReachableSummaryIff(
    c: Config, s: Run, waveId: string, started: string, ended: string, planned: int, iso: string -> bool)
    requires CleanEnd(c, s) && !Blank(started) && iso(started) && !Blank(ended) && iso(ended)
    ensures s.ledger.maxActive <= |c.ids| && 0 < |c.ids|
    ensures Acceptable(SummaryAt(s, waveId, started, ended, planned), iso) <==>
      !Blank(waveId) && 0 < planned && s.ledger.maxActive <= planned <= |c.ids|
  {
    var tr :| Execution(c, tr) && tr[|tr| - 1] == s;
    PeakOverRun(c, tr, |tr| - 1);
    ReturnedSummaryAcceptedIff(c, tr, |tr| - 1, waveId, started, ended, planned, iso);
  }

  /**
   Every run that does not time out has an accepted summary exactly if the wave id is not blank
   and the planned parallelism is the task count.
   */
  lemma CleanSummariesAcceptedIff(
    c: Config, waveId: string, started: string, ended: string, planned: int, iso: string -> bool)
    requires ValidConfig(c) && !Blank(started) && iso(started) && !Blank(ended) && iso(ended)
    ensures (forall s :: CleanEnd(c, s) ==> Acceptable(SummaryAt(s, waveId, started, ended, planned), iso)) <==>
      !Blank(waveId) && planned == |c.ids|
  {
    forall s | CleanEnd(c, s)
      ensures s.ledger.maxActive <= |c.ids| && 0 < |c.ids|
      ensures Acceptable(SummaryAt(s, waveId, started, ended, planned), iso) <==>
        !Blank(waveId) && 0 < planned && s.ledger.maxActive <= planned <= |c.ids|
    {
      ReachableSummaryIff(c, s, waveId, started, ended, planned, iso);
    }
    var full := CleanCloseExists(c);
  }

  /** Without a configured timeout no run times out. */
  lemma {:induction false} NoTimeout(c: Config, tr: seq<Run>, n: nat)
    requires Execution(c, tr) && n < |tr| && !c.hasTimeout
    ensures !tr[n].timedOut
  {
    if n > 0 {
      NoTimeout(c, tr, n - 1);
      assert StepAt(c, tr, n);
      var step :| Enabled(c, tr[n - 1], step) && tr[n] == Apply(c, tr[n - 1], step);
      TimesOutOnlyIfSet(c, tr[n - 1], step);
    }
  }

  lemma TimesOutOnlyIfSet(c: Config, s: Run, step: Step)
    requires Enabled(c, s, step) && !c.hasTimeout && !s.timedOut
    ensures !Apply(c, s, step).timedOut
  {}

  ghost predicate ReturnedEnd(c: Config, s: Run) {
    Reachable(c, s) && s.phase == Closed(true)
  }

  /** A wave with a timeout can return before any worker starts, and its summary is then refused. */
  lemma IdleTimeoutIsRefused(
    c: Config, waveId: string, started: string, ended: string, planned: int, iso: string -> bool) returns (s: Run)
    requires ValidConfig(c) && c.hasTimeout
    ensures ReturnedEnd(c, s) && s.timedOut
    ensures !Acceptable(SummaryAt(s, waveId, started, ended, planned), iso)
  {
    s := IdleTimeoutReturns(c);
    assert Get(SummaryAt(s, waveId, started, ended, planned), CleanupState) == Str("required");
  }

  lemma ReturnedIsClean(c: Config, s: Run)
    requires ReturnedEnd(c, s) && !c.hasTimeout
    ensures CleanEnd(c, s)
  {
    var tr :| Execution(c, tr) && tr[|tr| - 1] == s;
    NoTimeout(c, tr, |tr| - 1);
  }

  /**
   Every returned run has an accepted summary exactly if the wave id is not blank, the planned
   parallelism is the task count, and no timeout is set.
   */
  lemma ReturnedSummariesAcceptedIff(
    c: Config, waveId: string, started: string, ended: string, planned: int, iso: string -> bool)
    requires ValidConfig(c) && !Blank(started) && iso(started) && !Blank(ended) && iso(ended)
    ensures (forall s :: ReturnedEnd(c, s) ==> Acceptable(SummaryAt(s, waveId, started, ended, planned), iso)) <==>
      !Blank(waveId) && planned == |c.ids| && !c.hasTimeout
  {
    CleanSummariesAcceptedIff(c, waveId, started, ended, planned, iso);
    assert forall s :: CleanEnd(c, s) ==> ReturnedEnd(c, s);
    if c.hasTimeout {
      var idle := IdleTimeoutIsRefused(c, waveId, started, ended, planned, iso);
    } else {
      forall s | ReturnedEnd(c, s) ensures CleanEnd(c, s) { ReturnedIsClean(c, s); }
    }
  }

  /** A wave named " " is started by the ledger, can run to a clean end, and is then refused. */
  lemma BlankWaveIdIsRefused(c: Config, started: string, ended: string, iso: string -> bool) returns (s: Run)
    requires ValidConfig(c) && !Blank(started) && iso(started) && !Blank(ended) && iso(ended)
    ensures Creatable(" ", c.ids) && CleanEnd(c, s)
    ensures !Acceptable(SummaryAt(s, " ", started, ended, |c.ids|), iso)
    ensures Acceptable(SummaryAt(s, "w", started, ended, |c.ids|), iso)
  {
    s := CleanCloseExists(c);
    assert Blank(" ") && !Blank("w");
    ReachableSummaryIff(c, s, " ", started, ended, |c.ids|, iso);
    ReachableSummaryIff(c, s, "w", started, ended, |c.ids|, iso);
  }
}
