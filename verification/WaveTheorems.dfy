/** What holds of whole runs of a wave, in every interleaving. */
module WaveTheorems {
  import opened Ids
  import opened Numbers
  import opened Options
  import opened WaveLedgers
  import opened WaveExecution
  import opened WaveInvariant

  ghost predicate Next(c: Config, s: Run, s': Run) {
    exists step :: Enabled(c, s, step) && s' == Apply(c, s, step)
  }

  /** Entry `i` of a run follows from its predecessor by one enabled step. */
  ghost predicate StepAt(c: Config, tr: seq<Run>, i: nat)
    requires 0 < i < |tr|
  {
    Next(c, tr[i - 1], tr[i])
  }

  /** A finite run: its states from the initial one on, in order. */
  ghost predicate Execution(c: Config, tr: seq<Run>) {
    && ValidConfig(c) && tr != [] && tr[0] == Init(c)
    && forall i {:trigger StepAt(c, tr, i)} :: 0 < i < |tr| ==> StepAt(c, tr, i)
  }

  lemma {:induction false} ExecutionInv(c: Config, tr: seq<Run>, i: nat)
    requires Execution(c, tr) && i < |tr|
    ensures Inv(c, tr[i])
  {
    if i == 0 {
      InitInv(c);
    } else {
      ExecutionInv(c, tr, i - 1);
      InvAt(c, tr, i);
    }
  }

  lemma InvAt(c: Config, tr: seq<Run>, i: nat)
    requires 0 < i < |tr| && StepAt(c, tr, i) && Inv(c, tr[i - 1])
    ensures Inv(c, tr[i])
  {
    var step :| Enabled(c, tr[i - 1], step) && tr[i] == Apply(c, tr[i - 1], step);
    StepInv(c, tr[i - 1], step);
  }

  // ---- what one step does to the ledger and the history ----

  /** The peak follows the running count, and terminal entries stay. */
  ghost predicate LedgerAdvances(s: Run, s': Run) {
    && s'.ledger.maxActive == Max(s.ledger.maxActive, s'.ledger.active)
    && (forall t :: t in s.ledger.entries ==> t in s'.ledger.entries)
    && (forall t :: t in s.ledger.entries && Terminal(StatusOf(s, t)) ==> s'.ledger.entries[t] == s.ledger.entries[t])
  }

  ghost predicate HistoryAdvances(s: Run, s': Run) {
    && s.dispatched <= s'.dispatched && s.closedPending <= s'.closedPending
    && (forall t :: t in s'.closedPending && t !in s.closedPending ==> t in s.ledger.entries)
    && (s.timedOut ==> s'.timedOut)
  }

  lemma StepPeak(c: Config, s: Run, step: Step)
    requires Consistent(s.ledger) && Enabled(c, s, step)
    ensures Apply(c, s, step).ledger.maxActive == Max(s.ledger.maxActive, Apply(c, s, step).ledger.active)
  {}

  lemma StepKeepsTerminal(c: Config, s: Run, step: Step, t: Id)
    requires Enabled(c, s, step) && t in s.ledger.entries
    ensures t in Apply(c, s, step).ledger.entries
    ensures Terminal(StatusOf(s, t)) ==> Apply(c, s, step).ledger.entries[t] == s.ledger.entries[t]
  {}

  lemma StepLedger(c: Config, s: Run, step: Step)
    requires Consistent(s.ledger) && Enabled(c, s, step)
    ensures LedgerAdvances(s, Apply(c, s, step))
  {
    StepPeak(c, s, step);
    forall t | t in s.ledger.entries
      ensures t in Apply(c, s, step).ledger.entries
      ensures Terminal(StatusOf(s, t)) ==> Apply(c, s, step).ledger.entries[t] == s.ledger.entries[t]
    {
      StepKeepsTerminal(c, s, step, t);
    }
  }

  lemma StepHistory(c: Config, s: Run, step: Step)
    requires Enabled(c, s, step)
    ensures HistoryAdvances(s, Apply(c, s, step))
  {}

  lemma AdvancesAt(c: Config, tr: seq<Run>, i: nat)
    requires Execution(c, tr) && 0 < i < |tr|
    ensures LedgerAdvances(tr[i - 1], tr[i]) && HistoryAdvances(tr[i - 1], tr[i])
  {
    ExecutionInv(c, tr, i - 1);
    assert StepAt(c, tr, i);
    var step :| Enabled(c, tr[i - 1], step) && tr[i] == Apply(c, tr[i - 1], step);
    StepLedger(c, tr[i - 1], step);
    StepHistory(c, tr[i - 1], step);
  }

  lemma LedgerAt(c: Config, tr: seq<Run>, i: nat)
    requires Execution(c, tr) && i < |tr|
    ensures tr[i].ledger.active == |WithStatus(tr[i].ledger.entries, Running)|
    ensures tr[i].ledger.maxActive <= |c.ids|
    ensures i == 0 ==> tr[i].ledger.maxActive == tr[i].ledger.active
  {
    ExecutionInv(c, tr, i);
    ElementsSize(c.ids);
    assert |tr[i].ledger.entries| == |tr[i].ledger.entries.Keys|;
    if i == 0 {
      assert WithStatus(tr[0].ledger.entries, Running) == {};
    }
  }

  /** `_max_active` is the peak over the whole run of the number of running entries. */
  lemma {:induction false} PeakOverRun(c: Config, tr: seq<Run>, n: nat)
    requires Execution(c, tr) && n < |tr|
    ensures tr[n].ledger.maxActive <= |c.ids|
    ensures forall i :: 0 <= i <= n ==> |WithStatus(tr[i].ledger.entries, Running)| <= tr[n].ledger.maxActive
    ensures exists i :: 0 <= i <= n && |WithStatus(tr[i].ledger.entries, Running)| == tr[n].ledger.maxActive
  {
    LedgerAt(c, tr, n);
    if n > 0 {
      PeakOverRun(c, tr, n - 1);
      AdvancesAt(c, tr, n);
    }
  }

  /** A terminal entry never changes again. */
  lemma {:induction false} TerminalForever(c: Config, tr: seq<Run>, i: nat, j: nat, t: Id)
    requires Execution(c, tr) && i <= j < |tr| && t in tr[i].ledger.entries && Terminal(StatusOf(tr[i], t))
    ensures t in tr[j].ledger.entries && tr[j].ledger.entries[t] == tr[i].ledger.entries[t]
    decreases j
  {
    if i < j {
      TerminalForever(c, tr, i, j - 1, t);
      AdvancesAt(c, tr, j);
    }
  }

  lemma {:induction false} HistoryGrows(c: Config, tr: seq<Run>, i: nat, j: nat)
    requires Execution(c, tr) && i <= j < |tr|
    ensures tr[i].dispatched <= tr[j].dispatched && tr[i].closedPending <= tr[j].closedPending
    ensures tr[i].timedOut ==> tr[j].timedOut
    decreases j
  {
    if i < j {
      HistoryGrows(c, tr, i, j - 1);
      AdvancesAt(c, tr, j);
    }
  }

  lemma {:induction false} ClosedIsKnown(c: Config, tr: seq<Run>, i: nat)
    requires Execution(c, tr) && i < |tr|
    ensures forall t :: t in tr[i].closedPending ==> t in tr[i].ledger.entries
  {
    if i > 0 {
      ClosedIsKnown(c, tr, i - 1);
      AdvancesAt(c, tr, i);
    }
  }

  lemma DispatchingIsLogged(c: Config, s: Run, t: Id)
    requires Core(c, s) && AllTasks(s)
    ensures Fut(s, t) == Some(Dispatching) ==> t in s.dispatched
    ensures t in s.closedPending && t in s.ledger.entries ==> t !in s.dispatched
  {
    if t in s.ledger.entries { assert TaskOk(s, t); }
  }

  /** No task is dispatched twice, and one closed while pending is never dispatched, then or later. */
  lemma DispatchedAtMostOnce(c: Config, tr: seq<Run>, i: nat, j: nat, t: Id)
    requires Execution(c, tr) && i <= j < |tr|
    ensures Distinct(tr[j].dispatched)
    ensures Fut(tr[i], t) == Some(Dispatching) ==> t in tr[j].dispatched
    ensures t in tr[i].closedPending ==> t !in tr[j].dispatched && Fut(tr[j], t) != Some(Dispatching)
  {
    HistoryGrows(c, tr, i, j);
    ClosedIsKnown(c, tr, j);
    ExecutionInv(c, tr, i);
    DispatchingIsLogged(c, tr[i], t);
    ExecutionInv(c, tr, j);
    DispatchingIsLogged(c, tr[j], t);
  }

  // ---- who writes the ledger ----

  /** How a step may change the entry of task `t`. */
  ghost predicate Writes(c: Config, s: Run, step: Step, t: Id, e: Entry)
    requires t in s.ledger.entries
  {
    match step
    case StartTask(u) => u == t && StatusOf(s, t) == Pending && e == s.ledger.entries[t].(status := Running)
    case Collect(u) => u == t && FinishedFuture(s, t) && e == Recorded(s.futures[t].outcome)
    case TimeoutAction =>
      && s.phase.TimingOut? && s.phase.next < |c.ids| && c.ids[s.phase.next] == t
      && e == Entry(TimedOut, None)
    case FinishOrphan =>
      && s.phase.FinishingOrphans? && s.phase.done < |s.phase.orphans| && s.phase.orphans[s.phase.done] == t
      && t in s.phase.cleaned && e == Entry(s.phase.cleaned[t], None)
    case _ => false
  }

  /**
   Only four kinds of step change an entry: a worker starting a pending task, the collection of
   its own outcome, the timeout loop, and the status that the cleanup returned for it.
   */
  lemma EntryWriters(c: Config, s: Run, step: Step, t: Id)
    requires Enabled(c, s, step) && t in s.ledger.entries
    ensures var s' := Apply(c, s, step);
      t in s'.ledger.entries &&
      (s'.ledger.entries[t] == s.ledger.entries[t] || Writes(c, s, step, t, s'.ledger.entries[t]))
  {}

  /** A terminal status that the cleanup returned for a running orphan is written. */
  lemma CleanupIsWritten(c: Config, s: Run)
    requires Inv(c, s) && Enabled(c, s, FinishOrphan)
    ensures var t := s.phase.orphans[s.phase.done];
      t in s.phase.cleaned && Terminal(s.phase.cleaned[t]) ==>
        Apply(c, s, FinishOrphan).ledger.entries[t] == Entry(s.phase.cleaned[t], None)
  {}

  // ---- concurrency ----

  function InDispatch(s: Run): set<Id> {
    set t | t in s.futures && s.futures[t].Dispatching?
  }

  /** While no timeout has fired, everything inside `dispatch` runs in the ledger and fits the pool. */
  lemma DispatchFitsPool(c: Config, s: Run)
    requires Inv(c, s)
    ensures |InDispatch(s)| <= Workers(c) <= c.maxParallel && Workers(c) <= |c.ids|
    ensures !s.timedOut ==> InDispatch(s) <= WithStatus(s.ledger.entries, Running)
    ensures !s.timedOut ==> |InDispatch(s)| <= s.ledger.active
  {
    assert InDispatch(s) <= Busy(s);
    SubsetSize(InDispatch(s), Busy(s));
    forall t | t in InDispatch(s) && !s.timedOut ensures t in WithStatus(s.ledger.entries, Running) {
      assert TaskOk(s, t);
    }
    if !s.timedOut { SubsetSize(InDispatch(s), WithStatus(s.ledger.entries, Running)); }
  }

  /** Without a timeout the reported parallelism bounds the true peak concurrency, and is at most n. */
  lemma ReportedParallelismBoundsPeak(c: Config, tr: seq<Run>, i: nat, n: nat)
    requires Execution(c, tr) && i <= n < |tr| && !tr[n].timedOut
    ensures |InDispatch(tr[i])| <= tr[n].ledger.maxActive <= |c.ids|
    ensures |InDispatch(tr[i])| <= Workers(c)
  {
    ExecutionInv(c, tr, i);
    HistoryGrows(c, tr, i, n);
    DispatchFitsPool(c, tr[i]);
    PeakOverRun(c, tr, n);
  }

  // ---- how a run without a timeout ends ----

  /** What the closed wave reports. */
  datatype WaveResult = WaveResult(
    passed: bool, statuses: map<Id, Status>, errors: map<Id, string>, actualParallelism: int, cleanup: CleanupStatus)

  function ResultOf(s: Run): WaveResult {
    var entries := s.ledger.entries;
    WaveResult(
      forall t :: t in entries ==> entries[t].status == Completed,
      map t | t in entries :: entries[t].status,
      map t | t in entries && entries[t].error.Some? && entries[t].error.value != "" :: entries[t].error.value,
      s.ledger.maxActive, s.cleanup)
  }

  /** The task was dispatched, its dispatch ended with an outcome, and the ledger holds just that. */
  ghost predicate RecordsDispatch(s: Run, t: Id) {
    && t in s.ledger.entries && t in s.dispatched && FinishedFuture(s, t)
    && s.ledger.entries[t] == Recorded(s.futures[t].outcome)
  }

  /** Without a timeout a closed wave never raised `WaveJoinError`, and records every dispatch. */
  lemma CleanRunRecordsOutcomes(c: Config, tr: seq<Run>, n: nat)
    requires Execution(c, tr) && n < |tr| && tr[n].phase.Closed? && !tr[n].timedOut
    ensures tr[n].phase.returned && tr[n].cleanup == NotRequired
    ensures tr[n].ledger.entries.Keys == Elements(c.ids)
    ensures forall t :: t in c.ids ==> RecordsDispatch(tr[n], t)
    ensures Distinct(tr[n].dispatched)
  {
    var s := tr[n];
    ExecutionInv(c, tr, n);
    forall t | t in c.ids ensures RecordsDispatch(s, t) {
      assert t in Elements(c.ids) && t in s.ledger.entries && t in s.collected;
      assert TaskOk(s, t);
    }
  }

  /** After a returned result nothing is ever dispatched again: every later start is refused. */
  lemma ReturnedIsFinal(c: Config, tr: seq<Run>, i: nat, j: nat, t: Id)
    requires Execution(c, tr) && i <= j < |tr| && tr[i].phase == Closed(true) && t in c.ids
    ensures !CanStart(tr[j].ledger, t) && !CanFinish(tr[j].ledger, t)
    ensures t in tr[i].ledger.entries && t in tr[j].ledger.entries
    ensures tr[j].ledger.entries[t] == tr[i].ledger.entries[t]
  {
    ExecutionInv(c, tr, i);
    assert t in tr[i].ledger.entries && Terminal(StatusOf(tr[i], t));
    TerminalForever(c, tr, i, j, t);
  }
}
