/** Every step of every interleaving keeps the wave's invariant. */
module WaveInvariant {
  import opened Ids
  import opened Options
  import opened WaveLedgers
  import opened WaveExecution

  // ---- frames ----

  ghost predicate SameTask(s: Run, s': Run, t: Id)
    requires t in s.ledger.entries && t in s'.ledger.entries
  {
    && Fut(s', t) == Fut(s, t)
    && s'.ledger.entries[t] == s.ledger.entries[t]
    && (t in s'.dispatched <==> t in s.dispatched)
    && (t in s'.collected <==> t in s.collected)
    && (t in s'.closedPending <==> t in s.closedPending)
  }

  lemma TaskFrame(s: Run, s': Run, t: Id)
    requires t in s.ledger.entries && t in s'.ledger.entries
    requires TaskOk(s, t) && SameTask(s, s', t) && (s.timedOut ==> s'.timedOut)
    ensures TaskOk(s', t)
  {}

  /** A step that touches only task `t` keeps all tasks in order if it keeps `t` in order. */
  lemma OnlyTask(s: Run, s': Run, t: Id)
    requires AllTasks(s) && s'.ledger.entries.Keys == s.ledger.entries.Keys
    requires forall u :: u in s.ledger.entries && u != t ==> SameTask(s, s', u)
    requires s.timedOut ==> s'.timedOut
    requires t in s'.ledger.entries ==> TaskOk(s', t)
    ensures AllTasks(s')
  {
    forall u | u in s'.ledger.entries ensures TaskOk(s', u) {
      if u != t { TaskFrame(s, s', u); }
    }
  }

  lemma NoTask(s: Run, s': Run)
    requires AllTasks(s) && s'.ledger == s.ledger && s'.futures == s.futures
    requires s'.dispatched == s.dispatched && s'.collected == s.collected && s'.closedPending == s.closedPending
    requires s.timedOut ==> s'.timedOut
    ensures AllTasks(s')
  {
    forall u | u in s'.ledger.entries ensures TaskOk(s', u) {
      TaskFrame(s, s', u);
    }
  }

  /** What workers may do to an entry: nothing, or take it from pending to running. */
  ghost predicate WorkerMove(s: Run, s': Run) {
    && s'.ledger.entries.Keys == s.ledger.entries.Keys
    && forall t :: t in s.ledger.entries ==>
         StatusOf(s', t) == StatusOf(s, t) || (StatusOf(s, t) == Pending && StatusOf(s', t) == Running)
  }

  ghost predicate SameCancelled(s: Run, s': Run) {
    && s'.futures.Keys == s.futures.Keys
    && forall t :: t in s.futures ==> (s'.futures[t].CancelledFuture? <==> s.futures[t].CancelledFuture?)
  }

  /** Worker steps leave the main thread where it stands. */
  lemma PhaseFrame(c: Config, s: Run, s': Run)
    requires forall t :: t in c.ids ==> t in s.ledger.entries
    requires PhaseOk(c, s) && s'.phase == s.phase && s'.timedOut == s.timedOut && s'.cleanup == s.cleanup
    requires s'.collected == s.collected && WorkerMove(s, s') && SameCancelled(s, s')
    ensures PhaseOk(c, s')
  {}

  // ---- worker steps ----

  lemma InitInv(c: Config)
    requires ValidConfig(c)
    ensures Inv(c, Init(c))
  {
    var s := Init(c);
    InitiallyConsistent(c.ids);
    assert Busy(s) == {};
    assert s.futures.Keys == Elements(c.ids[..0]);
  }

  lemma PickCore(c: Config, s: Run, t: Id)
    requires Core(c, s) && PoolOk(c, s) && Enabled(c, s, Pick(t))
    ensures Core(c, Apply(c, s, Pick(t))) && PoolOk(c, Apply(c, s, Pick(t)))
  {
    assert Busy(Apply(c, s, Pick(t))) == Busy(s) + {t};
  }

  lemma PickTasks(c: Config, s: Run, t: Id)
    requires AllTasks(s) && Enabled(c, s, Pick(t)) && t in s.ledger.entries
    ensures AllTasks(Apply(c, s, Pick(t)))
  {
    assert TaskOk(s, t);
    OnlyTask(s, Apply(c, s, Pick(t)), t);
  }

  lemma StartCore(c: Config, s: Run, t: Id)
    requires Core(c, s) && Enabled(c, s, StartTask(t)) && TaskOk(s, t)
    ensures Core(c, Apply(c, s, StartTask(t)))
  {
    if CanStart(s.ledger, t) {
      StartKeepsConsistent(s.ledger, t);
    }
  }

  lemma StartTasks(c: Config, s: Run, t: Id)
    requires AllTasks(s) && Enabled(c, s, StartTask(t)) && t in s.ledger.entries
    ensures AllTasks(Apply(c, s, StartTask(t)))
  {
    assert TaskOk(s, t);
    OnlyTask(s, Apply(c, s, StartTask(t)), t);
  }

  lemma CompleteTasks(c: Config, s: Run, t: Id, o: Outcome)
    requires AllTasks(s) && Enabled(c, s, Complete(t, o)) && t in s.ledger.entries
    ensures AllTasks(Apply(c, s, Complete(t, o)))
  {
    assert TaskOk(s, t);
    OnlyTask(s, Apply(c, s, Complete(t, o)), t);
  }

  /** Only picking occupies a worker. */
  lemma PoolKeeps(c: Config, s: Run, step: Step)
    requires PoolOk(c, s) && Enabled(c, s, step) && !step.Pick?
    requires step.Submit? ==> c.ids[s.phase.next] !in s.futures
    ensures PoolOk(c, Apply(c, s, step))
  {
    assert Busy(Apply(c, s, step)) <= Busy(s);
    SubsetSize(Busy(Apply(c, s, step)), Busy(s));
  }

  // ---- main-thread steps ----

  lemma NewId(ids: seq<Id>, n: nat)
    requires Distinct(ids) && n < |ids|
    ensures ids[n] !in Elements(ids[..n]) && ids[n] in Elements(ids)
    ensures Elements(ids[..n + 1]) == Elements(ids[..n]) + {ids[n]}
  {
    assert ids[..n + 1] == ids[..n] + [ids[n]];
  }

  lemma CollectCore(c: Config, s: Run, t: Id)
    requires Core(c, s) && Enabled(c, s, Collect(t))
    ensures Core(c, Apply(c, s, Collect(t)))
  {
    var e := Recorded(s.futures[t].outcome);
    RecordedIsTerminal(s.futures[t].outcome);
    FinishKeepsConsistent(s.ledger, t, e.status, e.error);
  }

  lemma CollectTasks(c: Config, s: Run, t: Id)
    requires AllTasks(s) && Enabled(c, s, Collect(t)) && t in s.ledger.entries && !s.timedOut
    ensures AllTasks(Apply(c, s, Collect(t)))
  {
    RecordedIsTerminal(s.futures[t].outcome);
    assert TaskOk(s, t);
    OnlyTask(s, Apply(c, s, Collect(t)), t);
  }

  ghost predicate KnownIds(c: Config, s: Run) {
    forall t :: t in c.ids ==> t in s.ledger.entries
  }

  lemma SubmitInv(c: Config, s: Run)
    requires Core(c, s) && KnownIds(c, s) && PhaseOk(c, s) && Enabled(c, s, Submit)
    ensures c.ids[s.phase.next] !in s.futures
    ensures Core(c, Apply(c, s, Submit)) && PhaseOk(c, Apply(c, s, Submit))
  {
    NewId(c.ids, s.phase.next);
    assert Apply(c, s, Submit).futures.Keys == s.futures.Keys + {c.ids[s.phase.next]};
  }

  lemma SubmitTasks(c: Config, s: Run)
    requires AllTasks(s) && KnownIds(c, s) && Enabled(c, s, Submit) && c.ids[s.phase.next] !in s.futures
    ensures AllTasks(Apply(c, s, Submit))
  {
    var t := c.ids[s.phase.next];
    assert TaskOk(s, t);
    OnlyTask(s, Apply(c, s, Submit), t);
  }

  lemma CollectPhase(c: Config, s: Run, t: Id)
    requires KnownIds(c, s) && PhaseOk(c, s) && Enabled(c, s, Collect(t))
    ensures KnownIds(c, Apply(c, s, Collect(t))) && PhaseOk(c, Apply(c, s, Collect(t)))
  {}

  /** Steps of the main thread that move only its own position. */
  predicate Quiet(step: Step) {
    step.BeginCollecting? || step.EndCollecting? || step.Timeout? || step.EndTimeout? || step.Join?
    || step.CleanupRaised? || step.CleanupReturned? || step.EndOrphans? || step.Close?
  }

  lemma QuietKeeps(c: Config, s: Run, step: Step)
    requires Core(c, s) && AllTasks(s) && Enabled(c, s, step) && Quiet(step)
    ensures Core(c, Apply(c, s, step)) && AllTasks(Apply(c, s, step))
    ensures Apply(c, s, step).ledger == s.ledger
  {
    NoTask(s, Apply(c, s, step));
  }

  /** Once everything is collected, every entry is terminal. */
  lemma CollectedIsTerminal(c: Config, s: Run)
    requires AllTasks(s) && KnownIds(c, s) && s.ledger.entries.Keys == Elements(c.ids)
    requires s.collected == Elements(c.ids) && !s.timedOut
    ensures AllTerminal(s.ledger)
  {
    forall t | t in s.ledger.entries ensures Terminal(StatusOf(s, t)) {
      assert TaskOk(s, t);
      if FinishedFuture(s, t) { RecordedIsTerminal(s.futures[t].outcome); }
    }
  }

  lemma AllTerminalIsSettled(c: Config, s: Run)
    requires KnownIds(c, s) && AllTerminal(s.ledger)
    ensures NoPending(s, c.ids, |c.ids|)
  {}

  lemma EndCollectingPhase(c: Config, s: Run)
    requires Core(c, s) && AllTasks(s) && KnownIds(c, s) && PhaseOk(c, s) && Enabled(c, s, EndCollecting)
    ensures PhaseOk(c, Apply(c, s, EndCollecting))
  {
    CollectedIsTerminal(c, s);
    AllTerminalIsSettled(c, s);
  }

  lemma NoElements(ids: seq<Id>)
    ensures Elements(ids) == {} <==> ids == []
  {
    if ids != [] { assert ids[0] in Elements(ids); }
  }

  lemma NobodyRuns(c: Config, s: Run)
    requires WithStatus(s.ledger.entries, Running) == {}
    ensures Active(c, s) == []
  {
    SelectMembers(c.ids, s.ledger.entries, Running);
    assert Elements(Active(c, s)) <= WithStatus(s.ledger.entries, Running);
    NoElements(Active(c, s));
  }

  /** Without a timeout nothing is running at the join. */
  lemma CleanJoinIsIdle(c: Config, s: Run)
    requires Core(c, s) && AllTasks(s) && KnownIds(c, s) && s.collected == Elements(c.ids) && !s.timedOut
    ensures Active(c, s) == []
  {
    CollectedIsTerminal(c, s);
    NobodyRuns(c, s);
  }

  lemma JoinPhase(c: Config, s: Run)
    requires Core(c, s) && AllTasks(s) && KnownIds(c, s) && PhaseOk(c, s) && Enabled(c, s, Join)
    ensures PhaseOk(c, Apply(c, s, Join))
  {
    if s.timedOut {
      SelectMembers(c.ids, s.ledger.entries, Running);
    } else {
      CleanJoinIsIdle(c, s);
    }
  }

  lemma ClosePhase(c: Config, s: Run)
    requires Core(c, s) && AllTasks(s) && KnownIds(c, s) && PhaseOk(c, s) && Enabled(c, s, Close)
    ensures PhaseOk(c, Apply(c, s, Close))
  {
    if !s.timedOut { CollectedIsTerminal(c, s); }
  }

  lemma OtherQuietPhase(c: Config, s: Run, step: Step)
    requires KnownIds(c, s) && PhaseOk(c, s) && Enabled(c, s, step)
    requires step.BeginCollecting? || step.Timeout? || step.EndTimeout?
      || step.CleanupRaised? || step.CleanupReturned? || step.EndOrphans?
    ensures PhaseOk(c, Apply(c, s, step))
  {
    assert c.ids[..|c.ids|] == c.ids;
  }

  // ---- the timeout loop ----

  lemma PendingIsNotDispatched(s: Run, t: Id)
    requires t in s.ledger.entries && TaskOk(s, t) && StatusOf(s, t) == Pending
    ensures t !in s.dispatched && t !in s.collected && !FinishedFuture(s, t)
  {
    if FinishedFuture(s, t) { RecordedIsTerminal(s.futures[t].outcome); }
  }

  lemma TimeoutCore(c: Config, s: Run)
    requires Core(c, s) && Enabled(c, s, TimeoutAction)
    ensures Core(c, Apply(c, s, TimeoutAction))
  {
    if s.phase.stage.MarkTimedOut? {
      FinishKeepsConsistent(s.ledger, c.ids[s.phase.next], TimedOut, None);
    }
  }

  lemma TimeoutTasks(c: Config, s: Run)
    requires AllTasks(s) && KnownIds(c, s) && Enabled(c, s, TimeoutAction) && s.timedOut
    ensures AllTasks(Apply(c, s, TimeoutAction))
  {
    var t := c.ids[s.phase.next];
    assert TaskOk(s, t);
    if StatusOf(s, t) == Pending { PendingIsNotDispatched(s, t); }
    if FinishedFuture(s, t) { RecordedIsTerminal(s.futures[t].outcome); }
    OnlyTask(s, Apply(c, s, TimeoutAction), t);
  }

  lemma TimeoutMarks(c: Config, s: Run)
    requires KnownIds(c, s) && Distinct(c.ids) && PhaseOk(c, s)
    requires Enabled(c, s, TimeoutAction) && s.phase.stage.MarkTimedOut?
    ensures KnownIds(c, Apply(c, s, TimeoutAction)) && PhaseOk(c, Apply(c, s, TimeoutAction))
  {}

  /** A future that is done has left pending before the timeout loop asks. */
  lemma DoneIsNotPending(s: Run, t: Id)
    requires t in s.ledger.entries && TaskOk(s, t) && FinishedFuture(s, t)
    ensures StatusOf(s, t) != Pending
  {
    if StatusOf(s, t) == Pending { PendingIsNotDispatched(s, t); }
  }

  /** The question asked before the cancel attempt. */
  lemma TimeoutAsksDone(c: Config, s: Run)
    requires AllTasks(s) && KnownIds(c, s) && Distinct(c.ids) && PhaseOk(c, s)
    requires Enabled(c, s, TimeoutAction) && s.phase.stage.AskDone?
    ensures KnownIds(c, Apply(c, s, TimeoutAction)) && PhaseOk(c, Apply(c, s, TimeoutAction))
  {
    var t := c.ids[s.phase.next];
    assert t in Elements(c.ids) && TaskOk(s, t);
    if FinishedFuture(s, t) { DoneIsNotPending(s, t); }
  }

  lemma TimeoutCancels(c: Config, s: Run)
    requires KnownIds(c, s) && Distinct(c.ids) && PhaseOk(c, s)
    requires Enabled(c, s, TimeoutAction) && (s.phase.stage.TryCancel? || s.phase.stage.AskPending?)
    ensures KnownIds(c, Apply(c, s, TimeoutAction)) && PhaseOk(c, Apply(c, s, TimeoutAction))
  {
    assert c.ids[s.phase.next] in Elements(c.ids);
  }

  // ---- cleanup and shutdown ----

  lemma OrphanCore(c: Config, s: Run)
    requires Core(c, s) && Enabled(c, s, FinishOrphan)
    ensures Core(c, Apply(c, s, FinishOrphan))
  {
    var t := s.phase.orphans[s.phase.done];
    if t in s.phase.cleaned && Terminal(s.phase.cleaned[t]) {
      FinishKeepsConsistent(s.ledger, t, s.phase.cleaned[t], None);
    }
  }

  lemma OrphanTasks(c: Config, s: Run)
    requires AllTasks(s) && Enabled(c, s, FinishOrphan) && s.timedOut
    requires StatusOf(s, s.phase.orphans[s.phase.done]) == Running
    ensures AllTasks(Apply(c, s, FinishOrphan))
  {
    var t := s.phase.orphans[s.phase.done];
    assert TaskOk(s, t);
    if FinishedFuture(s, t) { RecordedIsTerminal(s.futures[t].outcome); }
    OnlyTask(s, Apply(c, s, FinishOrphan), t);
  }

  lemma OrphanPhase(c: Config, s: Run)
    requires KnownIds(c, s) && PhaseOk(c, s) && Enabled(c, s, FinishOrphan)
    ensures KnownIds(c, Apply(c, s, FinishOrphan)) && PhaseOk(c, Apply(c, s, FinishOrphan))
  {}

  lemma ShutdownInv(c: Config, s: Run)
    requires Core(c, s) && AllTasks(s) && KnownIds(c, s) && PhaseOk(c, s) && Enabled(c, s, Shutdown)
    ensures Core(c, Apply(c, s, Shutdown)) && AllTasks(Apply(c, s, Shutdown)) && PhaseOk(c, Apply(c, s, Shutdown))
  {
    var s' := Apply(c, s, Shutdown);
    forall t | t in s'.ledger.entries ensures TaskOk(s', t) {
      assert TaskOk(s, t);
    }
  }

  // ---- every step ----

  lemma WorkerPhase(c: Config, s: Run, step: Step)
    requires KnownIds(c, s) && PhaseOk(c, s) && Enabled(c, s, step)
    requires step.Pick? || step.StartTask? || step.Complete?
    ensures KnownIds(c, Apply(c, s, step)) && PhaseOk(c, Apply(c, s, step))
  {
    PhaseFrame(c, s, Apply(c, s, step));
  }

  lemma WorkerInv(c: Config, s: Run, step: Step)
    requires Core(c, s) && AllTasks(s) && PoolOk(c, s) && Enabled(c, s, step)
    requires step.Pick? || step.StartTask? || step.Complete?
    ensures Core(c, Apply(c, s, step)) && AllTasks(Apply(c, s, step)) && PoolOk(c, Apply(c, s, step))
  {
    assert step.t in s.ledger.entries;
    match step
    case Pick(t) => PickCore(c, s, t); PickTasks(c, s, t);
    case StartTask(t) =>
      assert TaskOk(s, t);
      StartCore(c, s, t); StartTasks(c, s, t); PoolKeeps(c, s, step);
    case Complete(t, o) => CompleteTasks(c, s, t, o); PoolKeeps(c, s, step);
  }

  lemma QuietPhase(c: Config, s: Run, step: Step)
    requires Core(c, s) && AllTasks(s) && KnownIds(c, s) && PhaseOk(c, s) && Enabled(c, s, step) && Quiet(step)
    ensures PhaseOk(c, Apply(c, s, step))
  {
    match step
    case EndCollecting => EndCollectingPhase(c, s);
    case Join => JoinPhase(c, s);
    case Close => ClosePhase(c, s);
    case _ => OtherQuietPhase(c, s, step);
  }

  /** The main thread's steps that touch a task. */
  predicate TouchesTask(step: Step) {
    step.Submit? || step.Collect? || step.TimeoutAction? || step.FinishOrphan? || step.Shutdown?
  }

  lemma MainTasks(c: Config, s: Run, step: Step)
    requires Core(c, s) && AllTasks(s) && KnownIds(c, s) && PhaseOk(c, s) && Enabled(c, s, step) && TouchesTask(step)
    ensures Core(c, Apply(c, s, step)) && AllTasks(Apply(c, s, step))
  {
    match step
    case Submit => SubmitInv(c, s); SubmitTasks(c, s);
    case Collect(t) => CollectCore(c, s, t); CollectTasks(c, s, t);
    case TimeoutAction => TimeoutCore(c, s); TimeoutTasks(c, s);
    case FinishOrphan => OrphanCore(c, s); OrphanTasks(c, s);
    case Shutdown => ShutdownInv(c, s);
  }

  lemma MainPhase(c: Config, s: Run, step: Step)
    requires Core(c, s) && AllTasks(s) && KnownIds(c, s) && PhaseOk(c, s) && Enabled(c, s, step) && TouchesTask(step)
    ensures KnownIds(c, Apply(c, s, step)) && PhaseOk(c, Apply(c, s, step))
  {
    match step
    case Submit => SubmitInv(c, s);
    case Collect(t) => CollectPhase(c, s, t);
    case TimeoutAction =>
      if s.phase.stage.MarkTimedOut? { TimeoutMarks(c, s); }
      else if s.phase.stage.AskDone? { TimeoutAsksDone(c, s); }
      else { TimeoutCancels(c, s); }
    case FinishOrphan => OrphanPhase(c, s);
    case Shutdown => ShutdownInv(c, s);
  }

  lemma MainPool(c: Config, s: Run, step: Step)
    requires Core(c, s) && PoolOk(c, s) && KnownIds(c, s) && PhaseOk(c, s) && Enabled(c, s, step) && TouchesTask(step)
    ensures PoolOk(c, Apply(c, s, step))
  {
    if step.Submit? { SubmitInv(c, s); }
    PoolKeeps(c, s, step);
  }

  /** Every step of every thread keeps the invariant. */
  lemma StepInv(c: Config, s: Run, step: Step)
    requires Inv(c, s) && Enabled(c, s, step)
    ensures Inv(c, Apply(c, s, step))
  {
    if step.Pick? || step.StartTask? || step.Complete? {
      WorkerInv(c, s, step);
      WorkerPhase(c, s, step);
    } else if Quiet(step) {
      QuietKeeps(c, s, step);
      QuietPhase(c, s, step);
      PoolKeeps(c, s, step);
    } else {
      MainTasks(c, s, step);
      MainPhase(c, s, step);
      MainPool(c, s, step);
    }
  }

  // ---- the main thread's own calls of `finish` ----

  /** The ledger accepts every `finish` that the main thread comes to make. */
  lemma MainFinishesAreAccepted(c: Config, s: Run)
    requires Inv(c, s)
    ensures s.phase.Collecting? ==>
      forall t :: t in s.futures && IsDone(s.futures[t]) && t !in s.collected ==>
        s.futures[t].Done? && CanFinish(s.ledger, t)
    ensures s.phase.TimingOut? && s.phase.stage.MarkTimedOut? ==> CanFinish(s.ledger, c.ids[s.phase.next])
    ensures s.phase.FinishingOrphans? && s.phase.done < |s.phase.orphans| ==>
      CanFinish(s.ledger, s.phase.orphans[s.phase.done])
  {
    if s.phase.Collecting? {
      forall t | t in s.futures && IsDone(s.futures[t]) && t !in s.collected
        ensures s.futures[t].Done? && CanFinish(s.ledger, t)
      {
        assert t in Elements(c.ids) && TaskOk(s, t);
      }
    }
  }
}
