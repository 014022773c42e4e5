/** The telemetry summary of a closed wave and the validator that accepts or refuses it. */
module WaveSummary {
  import opened Ids
  import opened Options
  import opened Text
  import opened WaveLedgers
  import opened WaveExecution
  import opened WaveTheorems

  /** A value of the summary object; `Junk` stands for every other type. */
  datatype Value =
    | Str(text: string) | Num(n: int) | Flag(b: bool) | Float(x: real) | Obj(statuses: map<Id, string>) | Junk

  datatype Field =
    | WaveId | StartedAt | EndedAt | TaskCount | PlannedParallelism | ActualParallelism
    | TaskStatuses | CleanupState | WaitMs | TaskWaitMs

  /** The object's entries; an absent key is a missing field. */
  type Summary = map<Field, Value>

  datatype SummaryError =
    | MissingField(field: Field)
    | NotText(field: Field)
    | NotTimestamp(field: Field)
    | NotCount(field: Field)
    | NotPositive(field: Field)
    | ActualOverTasks | PlannedOverTasks | ActualOverPlanned
    | StatusesNotObject | StatusesCount | NonTerminalStatuses
    | CleanupIncomplete

  function Get(m: Summary, field: Field): Value {
    if field in m then m[field] else Junk
  }

  predicate IsText(v: Value) {
    v.Str? && !Blank(v.text)
  }

  predicate IsCount(v: Value) {
    v.Num? && v.n >= 0
  }

  /** Python's `isinstance(v, int)`, which holds of booleans too. */
  function AsInt(v: Value): Option<int> {
    match v
    case Num(n) => Some(n)
    case Flag(b) => Some(if b then 1 else 0)
    case _ => None
  }

  /** Python's `v == 0`, which holds of `False` and `0.0` too. */
  predicate IsZero(v: Value) {
    AsInt(v) == Some(0) || v == Float(0.0)
  }

  predicate Exceeds(a: Value, b: Value) {
    AsInt(a).Some? && AsInt(b).Some? && AsInt(a).value > AsInt(b).value
  }

  const REQUIRED := [WaveId, StartedAt, EndedAt, TaskCount, PlannedParallelism, ActualParallelism]
  const TEXTS := [WaveId, StartedAt, EndedAt]
  const TIMES := [StartedAt, EndedAt]
  const COUNTS := [TaskCount, PlannedParallelism, ActualParallelism]
  const POSITIVES := [TaskCount, PlannedParallelism]
  const WAITS := [WaitMs, TaskWaitMs]

  predicate TerminalText(s: string) {
    ParseTerminal(s).Some?
  }

  /** The summaries the validator accepts; `iso` decides ISO-8601 timestamps. */
  ghost predicate Acceptable(m: Summary, iso: string -> bool) {
    && (forall f :: f in TEXTS ==> IsText(Get(m, f)))
    && (forall f :: f in TIMES ==> IsText(Get(m, f)) && iso(Get(m, f).text))
    && (forall f :: f in COUNTS ==> IsCount(Get(m, f)))
    && (forall f :: f in WAITS && f in m ==> IsCount(m[f]))
    && (var tasks, planned, actual :=
          Get(m, TaskCount), Get(m, PlannedParallelism), Get(m, ActualParallelism);
        tasks.Num? && planned.Num? && actual.Num? && actual.n <= planned.n <= tasks.n && 0 < planned.n
        && Get(m, TaskStatuses).Obj? && |Get(m, TaskStatuses).statuses| == tasks.n)
    && (forall t :: t in Get(m, TaskStatuses).statuses ==> TerminalText(Get(m, TaskStatuses).statuses[t]))
    && Get(m, CleanupState) in {Str("not_required"), Str("passed")}
  }

  /** What each error says about the summary. */
  ghost predicate Fault(m: Summary, iso: string -> bool, e: SummaryError) {
    match e
    case MissingField(f) => f in REQUIRED && f !in m
    case NotText(f) => f in TEXTS && !IsText(Get(m, f))
    case NotTimestamp(f) => f in TIMES && IsText(Get(m, f)) && !iso(Get(m, f).text)
    case NotCount(f) => (f in COUNTS && !IsCount(Get(m, f))) || (f in WAITS && f in m && !IsCount(m[f]))
    case _ => WholeFault(m, e)
  }

  /** The faults that need no timestamp reader. */
  ghost predicate WholeFault(m: Summary, e: SummaryError) {
    match e
    case NotPositive(f) => f in POSITIVES && IsZero(Get(m, f))
    case ActualOverTasks => Exceeds(Get(m, ActualParallelism), Get(m, TaskCount))
    case PlannedOverTasks => Exceeds(Get(m, PlannedParallelism), Get(m, TaskCount))
    case ActualOverPlanned => Exceeds(Get(m, ActualParallelism), Get(m, PlannedParallelism))
    case StatusesNotObject => !Get(m, TaskStatuses).Obj?
    case StatusesCount => MiscountedStatuses(m)
    case NonTerminalStatuses => UnfinishedStatus(m)
    case CleanupIncomplete => Get(m, CleanupState) !in {Str("not_required"), Str("passed")}
    case _ => false
  }

  predicate MiscountedStatuses(m: Summary) {
    var statuses, count := Get(m, TaskStatuses), AsInt(Get(m, TaskCount));
    statuses.Obj? && count.Some? && |statuses.statuses| != count.value
  }

  predicate UnfinishedStatus(m: Summary) {
    var statuses := Get(m, TaskStatuses);
    statuses.Obj? && exists t :: t in statuses.statuses && !TerminalText(statuses.statuses[t])
  }

  /** Run a check on each field of a list and collect the errors, in order. */
  method CheckEach(fields: seq<Field>, bad: Field -> bool, error: Field -> SummaryError)
    returns (errors: seq<SummaryError>)
    ensures forall e :: e in errors <==> exists f :: f in fields && bad(f) && e == error(f)
  {
    errors := [];
    for i := 0 to |fields|
      invariant forall e :: e in errors <==> exists f :: f in fields[..i] && bad(f) && e == error(f)
    {
      assert fields[..i + 1] == fields[..i] + [fields[i]];
      if bad(fields[i]) {
        errors := errors + [error(fields[i])];
      }
    }
    assert fields[..|fields|] == fields;
  }

  /** The cross-field checks. */
  function RelationErrors(m: Summary): (errors: seq<SummaryError>)
    ensures forall e :: e in errors <==>
      (e.ActualOverTasks? || e.PlannedOverTasks? || e.ActualOverPlanned?) && WholeFault(m, e)
  {
    var tasks, planned, actual :=
      Get(m, TaskCount), Get(m, PlannedParallelism), Get(m, ActualParallelism);
    (if Exceeds(actual, tasks) then [ActualOverTasks] else [])
    + (if Exceeds(planned, tasks) then [PlannedOverTasks] else [])
    + (if Exceeds(actual, planned) then [ActualOverPlanned] else [])
  }

  function StatusErrors(m: Summary): (errors: seq<SummaryError>)
    ensures forall e :: e in errors <==>
      (e.StatusesNotObject? || e.StatusesCount? || e.NonTerminalStatuses?) && WholeFault(m, e)
  {
    if !Get(m, TaskStatuses).Obj? then [StatusesNotObject]
    else
      (if MiscountedStatuses(m) then [StatusesCount] else [])
      + (if UnfinishedStatus(m) then [NonTerminalStatuses] else [])
  }

  /** A summary is acceptable exactly if it has no fault. */
  lemma FaultlessIffAcceptable(m: Summary, iso: string -> bool)
    ensures Acceptable(m, iso) <==> forall e :: !Fault(m, iso, e)
  {
    FieldLists();
    if forall e :: !Fault(m, iso, e) {
      forall f { FaultsOf(m, iso, f); }
      NoFaultRelates(m, iso);
    }
  }

  /** The checks that fields are there, are text, and are timestamps. */
  method TextErrors(m: Summary, iso: string -> bool) returns (errors: seq<SummaryError>)
    ensures forall e :: e in errors <==> (e.MissingField? || e.NotText? || e.NotTimestamp?) && Fault(m, iso, e)
  {
    var missing := CheckEach(REQUIRED, f => f !in m, f => MissingField(f));
    var texts := CheckEach(TEXTS, f => !IsText(Get(m, f)), f => NotText(f));
    var times := CheckEach(TIMES, f => IsText(Get(m, f)) && !iso(Get(m, f).text), f => NotTimestamp(f));
    errors := missing + texts + times;
  }

  /** The checks on single counts. */
  method CountErrors(m: Summary) returns (errors: seq<SummaryError>)
    ensures forall e :: e in errors <==>
      (e.NotCount? && e.field in COUNTS && !IsCount(Get(m, e.field))) || (e.NotPositive? && WholeFault(m, e))
  {
    var counts := CheckEach(COUNTS, f => !IsCount(Get(m, f)), f => NotCount(f));
    var zeros := CheckEach(POSITIVES, f => IsZero(Get(m, f)), f => NotPositive(f));
    errors := counts + zeros;
  }

  /** The check on the cleanup status, and those on the waiting times. */
  method ClosingErrors(m: Summary) returns (errors: seq<SummaryError>)
    ensures forall e :: e in errors <==>
      (e.NotCount? && e.field in WAITS && e.field in m && !IsCount(m[e.field]))
      || (e.CleanupIncomplete? && WholeFault(m, e))
  {
    var cleanup := if Get(m, CleanupState) in {Str("not_required"), Str("passed")} then [] else [CleanupIncomplete];
    var waits := CheckEach(WAITS, f => f in m && !IsCount(m[f]), f => NotCount(f));
    errors := cleanup + waits;
  }

  /** `validate_execution_summary`: the errors are exactly the faults. */
  method ValidateExecutionSummary(m: Summary, iso: string -> bool) returns (errors: seq<SummaryError>)
    ensures forall e :: e in errors <==> Fault(m, iso, e)
    ensures errors == [] <==> Acceptable(m, iso)
  {
    var texts := TextErrors(m, iso);
    var counts := CountErrors(m);
    var closing := ClosingErrors(m);
    errors := texts + counts + RelationErrors(m) + StatusErrors(m) + closing;
    FaultlessIffAcceptable(m, iso);
    NoErrorsIff(errors);
  }

  lemma NoErrorsIff(errors: seq<SummaryError>)
    ensures errors == [] <==> forall e :: e !in errors
  {
    if errors != [] { assert errors[0] in errors; }
  }

  /** The faults that concern one field. */
  lemma FaultsOf(m: Summary, iso: string -> bool, f: Field)
    requires forall e :: !Fault(m, iso, e)
    ensures f in TEXTS ==> IsText(Get(m, f))
    ensures f in TIMES && IsText(Get(m, f)) ==> iso(Get(m, f).text)
    ensures f in COUNTS ==> IsCount(Get(m, f))
    ensures f in WAITS && f in m ==> IsCount(m[f])
    ensures f in POSITIVES ==> !IsZero(Get(m, f))
  {
    assert !Fault(m, iso, NotText(f)) && !Fault(m, iso, NotTimestamp(f));
    assert !Fault(m, iso, NotCount(f)) && !Fault(m, iso, NotPositive(f));
  }

  /** The faults that relate fields. */
  lemma NoFaultRelates(m: Summary, iso: string -> bool)
    requires forall e :: !Fault(m, iso, e)
    ensures !Exceeds(Get(m, ActualParallelism), Get(m, PlannedParallelism))
    ensures !Exceeds(Get(m, PlannedParallelism), Get(m, TaskCount))
    ensures Get(m, TaskStatuses).Obj? && !MiscountedStatuses(m) && !UnfinishedStatus(m)
    ensures Get(m, CleanupState) in {Str("not_required"), Str("passed")}
  {
    assert !Fault(m, iso, ActualOverPlanned) && !Fault(m, iso, PlannedOverTasks);
    assert !Fault(m, iso, StatusesNotObject) && !Fault(m, iso, StatusesCount);
    assert !Fault(m, iso, NonTerminalStatuses) && !Fault(m, iso, CleanupIncomplete);
  }

  lemma FieldLists()
    ensures forall f :: f in TIMES ==> f in TEXTS
    ensures forall f :: f in REQUIRED <==> f in TEXTS || f in COUNTS
    ensures TaskCount in COUNTS && PlannedParallelism in COUNTS && ActualParallelism in COUNTS
    ensures TaskCount in POSITIVES && PlannedParallelism in POSITIVES
    ensures forall f :: f in POSITIVES ==> f == TaskCount || f == PlannedParallelism
    ensures forall f :: f in COUNTS ==> f == TaskCount || f == PlannedParallelism || f == ActualParallelism
  {
    assert TEXTS[0] == WaveId && TEXTS[1] == StartedAt && TEXTS[2] == EndedAt;
    assert COUNTS[0] == TaskCount && COUNTS[1] == PlannedParallelism && COUNTS[2] == ActualParallelism;
    assert REQUIRED == TEXTS + COUNTS;
    assert TIMES == TEXTS[1..];
    assert POSITIVES[0] == TaskCount && POSITIVES[1] == PlannedParallelism;
  }

  // ---- the summary of a wave ----

  function StatusText(s: Status): string {
    match s
    case Pending => "pending"
    case Running => "running"
    case Completed => "completed"
    case Failed => "failed"
    case TimedOut => "timed_out"
    case Cancelled => "cancelled"
  }

  function CleanupText(s: CleanupStatus): string {
    match s
    case NotRequired => "not_required"
    case Required => "required"
    case Passed => "passed"
    case CleanupFailed => "failed"
  }

  lemma StatusTextRoundTrip(s: Status)
    ensures ParseTerminal(StatusText(s)) == if Terminal(s) then Some(s) else None
  {}

  function Texts(statuses: map<Id, Status>): map<Id, string> {
    map t | t in statuses :: StatusText(statuses[t])
  }

  lemma StatusTexts(r: WaveResult)
    requires forall t :: t in r.statuses ==> Terminal(r.statuses[t])
    ensures |Texts(r.statuses)| == |r.statuses|
    ensures forall t :: t in Texts(r.statuses) ==> TerminalText(Texts(r.statuses)[t])
  {
    var texts := Texts(r.statuses);
    assert texts.Keys == r.statuses.Keys;
    assert |texts| == |texts.Keys| && |r.statuses| == |r.statuses.Keys|;
    forall t | t in texts ensures TerminalText(texts[t]) { StatusTextRoundTrip(r.statuses[t]); }
  }

  /** `execution_summary`, with no waiting time. */
  function ExecutionSummary(waveId: string, started: string, ended: string, r: WaveResult, planned: int): Summary {
    map[
      WaveId := Str(waveId), StartedAt := Str(started), EndedAt := Str(ended),
      TaskCount := Num(|r.statuses|), PlannedParallelism := Num(planned),
      ActualParallelism := Num(r.actualParallelism),
      TaskStatuses := Obj(Texts(r.statuses)),
      CleanupState := Str(CleanupText(r.cleanup)), WaitMs := Num(0), TaskWaitMs := Num(0)
    ]
  }

  /**
   The summary of a run that did not time out, with the task count as planned parallelism, is
   accepted exactly when the wave id is not blank.  The ledger refuses only the empty id, so an
   id of spaces runs to the end and is then refused here.
   */
  lemma CleanSummaryAccepted(
    c: Config, tr: seq<Run>, n: nat, waveId: string, started: string, ended: string, iso: string -> bool)
    requires Execution(c, tr) && n < |tr| && tr[n].phase.Closed? && !tr[n].timedOut
    requires !Blank(started) && iso(started) && !Blank(ended) && iso(ended)
    ensures Acceptable(ExecutionSummary(waveId, started, ended, ResultOf(tr[n]), |c.ids|), iso) <==> !Blank(waveId)
  {
    CleanRunRecordsOutcomes(c, tr, n);
    PeakOverRun(c, tr, n);
    CleanResult(c, tr[n]);
    SummaryAcceptedIff(waveId, started, ended, ResultOf(tr[n]), |c.ids|, iso);
  }

  lemma CleanResult(c: Config, s: Run)
    requires Distinct(c.ids) && s.ledger.entries.Keys == Elements(c.ids)
    requires forall t :: t in c.ids ==> RecordsDispatch(s, t)
    ensures |ResultOf(s).statuses| == |c.ids|
    ensures forall t :: t in ResultOf(s).statuses ==> Terminal(ResultOf(s).statuses[t])
  {
    ElementsSize(c.ids);
    var statuses := ResultOf(s).statuses;
    assert statuses.Keys == Elements(c.ids) && |statuses| == |statuses.Keys|;
    forall t | t in statuses ensures Terminal(statuses[t]) {
      assert RecordsDispatch(s, t);
      RecordedIsTerminal(s.futures[t].outcome);
    }
  }

  /** Of a finished wave, the wave id, the cleanup status and the planned parallelism are left to decide. */
  lemma SummaryAcceptedIff(
    waveId: string, started: string, ended: string, r: WaveResult, planned: int, iso: string -> bool)
    requires !Blank(started) && iso(started) && !Blank(ended) && iso(ended)
    requires forall t :: t in r.statuses ==> Terminal(r.statuses[t])
    requires 0 <= r.actualParallelism && 0 < |r.statuses|
    ensures Acceptable(ExecutionSummary(waveId, started, ended, r, planned), iso) <==>
      && !Blank(waveId) && r.cleanup in {NotRequired, Passed}
      && r.actualParallelism <= planned <= |r.statuses| && 0 < planned
  {
    StatusTexts(r);
    CleanupTexts(r.cleanup);
    FieldsDecide(ExecutionSummary(waveId, started, ended, r, planned), iso);
  }

  lemma CleanupTexts(s: CleanupStatus)
    ensures Str(CleanupText(s)) in {Str("not_required"), Str("passed")} <==> s in {NotRequired, Passed}
  {}

  /** With well-formed values elsewhere, these fields are left to decide. */
  lemma FieldsDecide(m: Summary, iso: string -> bool)
    requires Get(m, WaveId).Str?
    requires forall f :: f in TIMES ==> IsText(Get(m, f)) && iso(Get(m, f).text)
    requires Get(m, TaskCount).Num? && Get(m, PlannedParallelism).Num? && Get(m, ActualParallelism).Num?
    requires 0 <= Get(m, ActualParallelism).n && 0 < Get(m, TaskCount).n
    requires Get(m, TaskStatuses).Obj? && |Get(m, TaskStatuses).statuses| == Get(m, TaskCount).n
    requires forall t :: t in Get(m, TaskStatuses).statuses ==> TerminalText(Get(m, TaskStatuses).statuses[t])
    requires forall f :: f in WAITS ==> IsCount(Get(m, f))
    ensures Acceptable(m, iso) <==>
      && !Blank(Get(m, WaveId).text) && Get(m, CleanupState) in {Str("not_required"), Str("passed")}
      && Get(m, ActualParallelism).n <= Get(m, PlannedParallelism).n <= Get(m, TaskCount).n
      && 0 < Get(m, PlannedParallelism).n
  {
    assert TEXTS[0] == WaveId && TEXTS == [WaveId] + TIMES;
    FieldLists();
  }

  /** Every field of a wave's summary reports what it is named for, and its status texts read back. */
  lemma SummaryTells(waveId: string, started: string, ended: string, r: WaveResult, planned: int)
    ensures var m := ExecutionSummary(waveId, started, ended, r, planned);
      && Get(m, WaveId) == Str(waveId) && Get(m, StartedAt) == Str(started) && Get(m, EndedAt) == Str(ended)
      && Get(m, TaskCount) == Num(|r.statuses|) && Get(m, PlannedParallelism) == Num(planned)
      && Get(m, ActualParallelism) == Num(r.actualParallelism)
      && Get(m, TaskStatuses).Obj? && Get(m, TaskStatuses).statuses.Keys == r.statuses.Keys
      && forall t :: t in r.statuses && Terminal(r.statuses[t]) ==>
           ParseTerminal(Get(m, TaskStatuses).statuses[t]) == Some(r.statuses[t])
  {
    forall t | t in r.statuses { StatusTextRoundTrip(r.statuses[t]); }
  }

  /** A boolean counts as 0 or 1 where only the type is asked for, and never as a well-formed count. */
  lemma BooleansCount(m: Summary, iso: string -> bool, b: bool)
    requires Get(m, TaskCount) == Flag(b)
    ensures Fault(m, iso, NotPositive(TaskCount)) <==> !b
    ensures Fault(m, iso, NotCount(TaskCount))
    ensures Get(m, PlannedParallelism).Num? ==>
      (Fault(m, iso, PlannedOverTasks) <==> Get(m, PlannedParallelism).n > if b then 1 else 0)
  {
    FieldLists();
  }
}
