/**
 One wave under `execute_wave`, as a transition system.  Pool workers pick up a task, start it
 in the ledger and dispatch it; the main thread submits, collects, times out, cleans up and
 closes.  Every step below is one atomic action of one thread, and steps interleave freely.
 */
module WaveExecution {
  import opened Ids
  import opened Options
  import opened WaveLedgers

  /** What a worker's `dispatch` hands back. */
  datatype WorkerValue =
    | Mapping(status: Option<string>, error: Option<string>)
    | Text(text: string)
    | Other

  datatype Outcome = Returned(value: WorkerValue) | Raised(kind: string, message: string)

  datatype Future = Queued | Picked | Dispatching | Done(outcome: Outcome) | CancelledFuture

  datatype CleanupStatus = NotRequired | Required | Passed | CleanupFailed

  /** Where the main thread stands. */
  datatype Phase =
    | Submitting(next: nat)
    | Collecting
    | TimingOut(next: nat, stage: TimeoutStage)
    | Joining
    | CleaningUp(orphans: seq<Id>)
    | FinishingOrphans(orphans: seq<Id>, cleaned: map<Id, Status>, done: nat)
    | ShuttingDown
    | Closing
    | Closed(returned: bool)  // otherwise WaveJoinError was raised

  /** The separate actions of the timeout loop on one future. */
  datatype TimeoutStage = AskDone | TryCancel | AskPending | MarkTimedOut

  datatype Config = Config(ids: seq<Id>, maxParallel: nat, hasTimeout: bool, hasCleanup: bool)

  /** `dispatched` and `closedPending` only record history. */
  datatype Run = Run(
    ledger: Ledger, futures: map<Id, Future>, collected: set<Id>, phase: Phase, cleanup: CleanupStatus,
    timedOut: bool, dispatched: seq<Id>, closedPending: set<Id>)

  datatype Step =
    | Submit | BeginCollecting
    | Pick(t: Id) | StartTask(t: Id) | Complete(t: Id, outcome: Outcome)
    | Collect(t: Id) | EndCollecting | Timeout | TimeoutAction | EndTimeout
    | Join | CleanupRaised | CleanupReturned(cleaned: map<Id, Status>) | FinishOrphan | EndOrphans
    | Shutdown | Close

  // ---- outcomes ----

  function LowerChar(c: char): char {
    if 'A' <= c <= 'Z' then c + ' ' else c
  }

  function Lower(s: string): string {
    seq(|s|, i requires 0 <= i < |s| => LowerChar(s[i]))
  }

  function Alias(s: string): string {
    if s == "done" || s == "passed" || s == "success" then "completed"
    else if s == "error" then "failed"
    else s
  }

  function ParseTerminal(s: string): Option<Status> {
    if s == "completed" then Some(Completed)
    else if s == "failed" then Some(Failed)
    else if s == "timed_out" then Some(TimedOut)
    else if s == "cancelled" then Some(Cancelled)
    else None
  }

  /** `_normalize_outcome`; an error is the status text that is not terminal. */
  function NormalizeOutcome(v: WorkerValue): Result<(Status, Option<string>), string> {
    var text := match v
      case Mapping(status, _) => (match status case Some(s) => s case None => "completed")
      case Text(s) => s
      case Other => "completed";
    match ParseTerminal(Alias(Lower(text)))
    case Some(status) => Ok((status, if v.Mapping? then v.error else None))
    case None => Err(text)
  }

  /** The ledger entry that collecting an outcome writes. */
  function Recorded(o: Outcome): Entry {
    match o
    case Raised(kind, message) => Entry(Failed, Some(kind + ": " + message))
    case Returned(v) =>
      match NormalizeOutcome(v)
      case Ok((status, error)) => Entry(status, error)
      case Err(text) => Entry(Failed, Some("WaveExecutionError: worker returned non-terminal status " + text))
  }

  lemma RecordedIsTerminal(o: Outcome)
    ensures Terminal(Recorded(o).status)
  {}

  // ---- the transition system ----

  ghost predicate ValidConfig(c: Config) {
    c.ids != [] && Distinct(c.ids) && c.maxParallel >= 1
  }

  function Workers(c: Config): nat {
    if c.maxParallel <= |c.ids| then c.maxParallel else |c.ids|
  }

  function Init(c: Config): Run {
    Run(Ledger(AllPending(c.ids), 0, 0), map[], {}, Submitting(0), NotRequired, false, [], {})
  }

  /** Tasks that occupy a pool worker. */
  function Busy(s: Run): set<Id> {
    set t | t in s.futures && (s.futures[t].Picked? || s.futures[t].Dispatching?)
  }

  predicate IsDone(f: Future) {
    f.Done? || f.CancelledFuture?
  }

  function Fut(s: Run, t: Id): Option<Future> {
    if t in s.futures then Some(s.futures[t]) else None
  }

  predicate FinishedFuture(s: Run, t: Id) {
    t in s.futures && s.futures[t].Done?
  }

  predicate Enabled(c: Config, s: Run, step: Step) {
    match step
    case Submit => s.phase.Submitting? && s.phase.next < |c.ids|
    case BeginCollecting => s.phase == Submitting(|c.ids|)
    case Pick(t) => Fut(s, t) == Some(Queued) && |Busy(s)| < Workers(c)
    case StartTask(t) => Fut(s, t) == Some(Picked)
    case Complete(t, _) => Fut(s, t) == Some(Dispatching)
    case Collect(t) => s.phase.Collecting? && FinishedFuture(s, t) && t !in s.collected && CanFinish(s.ledger, t)
    case EndCollecting => s.phase.Collecting? && s.collected == Elements(c.ids)
    case Timeout => s.phase.Collecting? && c.hasTimeout && s.collected != Elements(c.ids)
    case TimeoutAction =>
      && s.phase.TimingOut? && s.phase.next < |c.ids|
      && (s.phase.stage.MarkTimedOut? ==> CanFinish(s.ledger, c.ids[s.phase.next]))
    case EndTimeout => s.phase == TimingOut(|c.ids|, AskDone)
    case Join => s.phase.Joining?
    case CleanupRaised =>
      s.phase.CleaningUp? || (s.phase.FinishingOrphans? && s.phase.done < |s.phase.orphans|)
    case CleanupReturned(_) => s.phase.CleaningUp?
    case FinishOrphan =>
      && s.phase.FinishingOrphans? && s.phase.done < |s.phase.orphans|
      && CanFinish(s.ledger, s.phase.orphans[s.phase.done])
    case EndOrphans => s.phase.FinishingOrphans? && s.phase.done == |s.phase.orphans|
    case Shutdown => s.phase.ShuttingDown?
    case Close => s.phase.Closing?
  }

  function Active(c: Config, s: Run): seq<Id> {
    Select(c.ids, s.ledger.entries, Running)
  }

  /** One action of the timeout loop on future `i`. */
  function TimeoutApply(c: Config, s: Run): Run
    requires Enabled(c, s, TimeoutAction)
  {
    var i := s.phase.next;
    var t := c.ids[i];
    match s.phase.stage
    case AskDone =>
      var done := t in s.futures && IsDone(s.futures[t]);
      s.(phase := if done then TimingOut(i + 1, AskDone) else TimingOut(i, TryCancel))
    case TryCancel =>
      s.(phase := TimingOut(i, AskPending),
         futures := if Fut(s, t) == Some(Queued) then s.futures[t := CancelledFuture] else s.futures)
    case AskPending =>
      s.(phase := if CanStart(s.ledger, t) then TimingOut(i, MarkTimedOut) else TimingOut(i + 1, AskDone))
    case MarkTimedOut =>
      s.(phase := TimingOut(i + 1, AskDone),
         ledger := Finished(s.ledger, t, TimedOut, None),
         closedPending := if CanStart(s.ledger, t) then s.closedPending + {t} else s.closedPending)
  }

  function FinishOrphanApply(s: Run): Run
    requires s.phase.FinishingOrphans? && s.phase.done < |s.phase.orphans|
    requires CanFinish(s.ledger, s.phase.orphans[s.phase.done])
  {
    var t := s.phase.orphans[s.phase.done];
    var next := FinishingOrphans(s.phase.orphans, s.phase.cleaned, s.phase.done + 1);
    if t in s.phase.cleaned && Terminal(s.phase.cleaned[t]) then
      s.(phase := next, ledger := Finished(s.ledger, t, s.phase.cleaned[t], None))
    else
      s.(phase := next)
  }

  function Apply(c: Config, s: Run, step: Step): Run
    requires Enabled(c, s, step)
  {
    match step
    case Submit => s.(futures := s.futures[c.ids[s.phase.next] := Queued], phase := Submitting(s.phase.next + 1))
    case BeginCollecting => s.(phase := Collecting)
    case Pick(t) => s.(futures := s.futures[t := Picked])
    case StartTask(t) =>
      if CanStart(s.ledger, t) then
        s.(futures := s.futures[t := Dispatching], ledger := Started(s.ledger, t), dispatched := s.dispatched + [t])
      else
        s.(futures := s.futures[t := Done(Raised("WaveExecutionError", "task cannot start"))])
    case Complete(t, outcome) => s.(futures := s.futures[t := Done(outcome)])
    case Collect(t) =>
      RecordedIsTerminal(s.futures[t].outcome);
      var e := Recorded(s.futures[t].outcome);
      s.(ledger := Finished(s.ledger, t, e.status, e.error), collected := s.collected + {t})
    case EndCollecting => s.(phase := Joining)
    case Timeout => s.(phase := TimingOut(0, AskDone), timedOut := true)
    case TimeoutAction => TimeoutApply(c, s)
    case EndTimeout => s.(phase := Joining, cleanup := Required)
    case Join =>
      var orphans := Active(c, s);
      s.(phase := if orphans != [] && c.hasCleanup then CleaningUp(orphans) else ShuttingDown)
    case CleanupRaised => s.(phase := ShuttingDown, cleanup := CleanupFailed)
    case CleanupReturned(cleaned) => s.(phase := FinishingOrphans(s.phase.orphans, cleaned, 0))
    case FinishOrphan => FinishOrphanApply(s)
    case EndOrphans =>
      s.(phase := ShuttingDown, cleanup := if Active(c, s) == [] then Passed else CleanupFailed)
    case Shutdown =>
      s.(phase := Closing,
         futures := map t | t in s.futures :: if s.futures[t].Queued? then CancelledFuture else s.futures[t])
    case Close => s.(phase := Closed(AllTerminal(s.ledger)))
  }

  // ---- the invariant ----

  function StatusOf(s: Run, t: Id): Status
    requires t in s.ledger.entries
  {
    s.ledger.entries[t].status
  }

  /** A task nobody has dispatched: still pending, or closed while pending by the timeout. */
  ghost predicate NotDispatched(s: Run, t: Id)
    requires t in s.ledger.entries
  {
    t !in s.dispatched && t !in s.collected && (StatusOf(s, t) == Pending || t in s.closedPending)
  }

  /** A dispatched task runs in the ledger, unless the timeout or the cleanup has closed it. */
  ghost predicate RunsInLedger(s: Run, t: Id)
    requires t in s.ledger.entries
  {
    t in s.dispatched && (StatusOf(s, t) == Running || (s.timedOut && Terminal(StatusOf(s, t))))
  }

  ghost predicate TaskOk(s: Run, t: Id)
    requires t in s.ledger.entries
  {
    && (t in s.closedPending ==> s.timedOut && t !in s.dispatched && StatusOf(s, t) == TimedOut)
    && match Fut(s, t)
       case None => NotDispatched(s, t)
       case Some(Queued) => NotDispatched(s, t)
       case Some(Picked) => NotDispatched(s, t)
       case Some(CancelledFuture) => NotDispatched(s, t)
       case Some(Dispatching) => RunsInLedger(s, t) && t !in s.collected
       case Some(Done(o)) =>
         if t in s.collected then t in s.dispatched && s.ledger.entries[t] == Recorded(o)
         else if t in s.dispatched then RunsInLedger(s, t)
         else t in s.closedPending
  }

  ghost predicate NoCancelled(s: Run) {
    forall t :: t in s.futures ==> !s.futures[t].CancelledFuture?
  }

  ghost predicate NoPending(s: Run, ids: seq<Id>, n: nat)
    requires n <= |ids| && forall t :: t in ids ==> t in s.ledger.entries
  {
    forall j :: 0 <= j < n ==> StatusOf(s, ids[j]) != Pending
  }

  ghost predicate OrphansRun(s: Run, orphans: seq<Id>, done: nat) {
    && Distinct(orphans) && done <= |orphans|
    && (forall j :: done <= j < |orphans| ==> orphans[j] in s.ledger.entries && StatusOf(s, orphans[j]) == Running)
  }

  /** After the collection or the timeout loop no entry is pending. */
  ghost predicate Settled(c: Config, s: Run)
    requires forall t :: t in c.ids ==> t in s.ledger.entries
  {
    (s.timedOut || s.collected == Elements(c.ids)) && NoPending(s, c.ids, |c.ids|)
  }

  ghost predicate PhaseOk(c: Config, s: Run)
    requires forall t :: t in c.ids ==> t in s.ledger.entries
  {
    match s.phase
    case Submitting(n) =>
      && n <= |c.ids| && s.futures.Keys == Elements(c.ids[..n])
      && !s.timedOut && NoCancelled(s) && s.cleanup == NotRequired
    case Collecting =>
      s.futures.Keys == Elements(c.ids) && !s.timedOut && NoCancelled(s) && s.cleanup == NotRequired
    case TimingOut(i, stage) =>
      && s.futures.Keys == Elements(c.ids) && s.timedOut && i <= |c.ids| && (i == |c.ids| ==> stage.AskDone?)
      && NoPending(s, c.ids, i)
      && (forall t :: t in c.ids && s.futures[t].CancelledFuture? && StatusOf(s, t) == Pending ==>
            i < |c.ids| && t == c.ids[i] && (stage.AskPending? || stage.MarkTimedOut?))
      && (stage.MarkTimedOut? ==> !Terminal(StatusOf(s, c.ids[i])))
    case Joining => Settled(c, s) && (!s.timedOut ==> s.cleanup == NotRequired)
    case CleaningUp(orphans) => Settled(c, s) && s.timedOut && OrphansRun(s, orphans, 0)
    case FinishingOrphans(orphans, _, done) => Settled(c, s) && s.timedOut && OrphansRun(s, orphans, done)
    case ShuttingDown => Settled(c, s) && (!s.timedOut ==> s.cleanup == NotRequired)
    case Closing => Settled(c, s) && (!s.timedOut ==> s.cleanup == NotRequired)
    case Closed(returned) =>
      && Settled(c, s) && (!s.timedOut ==> s.cleanup == NotRequired)
      && (returned ==> AllTerminal(s.ledger)) && (!s.timedOut ==> returned)
  }

  /** The parts that no single task decides. */
  ghost predicate Core(c: Config, s: Run) {
    && ValidConfig(c)
    && s.ledger.entries.Keys == Elements(c.ids) && Consistent(s.ledger)
    && s.futures.Keys <= Elements(c.ids) && s.collected <= Elements(c.ids)
    && Distinct(s.dispatched)
  }

  /** The pool never runs more workers than it has. */
  ghost predicate PoolOk(c: Config, s: Run) {
    |Busy(s)| <= Workers(c)
  }

  ghost predicate AllTasks(s: Run) {
    forall t :: t in s.ledger.entries ==> TaskOk(s, t)
  }

  ghost predicate Inv(c: Config, s: Run) {
    && Core(c, s)
    && PoolOk(c, s)
    && AllTasks(s)
    && (forall t :: t in c.ids ==> t in s.ledger.entries)
    && PhaseOk(c, s)
  }
}
