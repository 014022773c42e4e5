/**
 A Loop session: a persisted record that advances along the continuation graph declared by
 command manifests, can be paused and resumed, and accounts for the time of each phase.
 Times are integer microseconds.
 */
module LoopSession {
  import opened Numbers
  import opened Options

  datatype Continuation = Continuation(
    sameSession: bool, stopConditions: seq<string>, onConditions: map<string, string>, onPass: Option<string>)

  /** The valid command manifests, by command; a command may declare no continuation. */
  type Manifests = map<string, Option<Continuation>>

  datatype Timing = Timing(elapsed: int, active: int, wait: int, blocked: int, tool: int, verification: int)

  datatype StepRecord = StepRecord(
    command: string, status: string, condition: string, evidence: string, at: int,
    nextCommand: Option<string>, stopReason: string, phase: string, timing: Timing)

  datatype SessionStatus = Active | Stopped | Completed

  datatype Session = Session(
    changeId: string, status: SessionStatus, entryCommand: string, currentCommand: string, expectedCommand: string,
    startedAt: int, updatedAt: int, phase: string, phaseStartedAt: int, pauseStartedAt: Option<int>,
    waitMs: int, blockedMs: int, stopReason: string, steps: seq<StepRecord>)

  datatype LoopError =
    | NotEnabled | InvalidChangeId | InvalidCommand | InvalidSessionId
    | NoManifest(command: string) | NoContinuation | SessionExists | SessionMissing
    | CommandDrift | NotActive(status: SessionStatus) | UnexpectedCommand | PhasePaused
    | BadStatus | UnknownCondition | NextNotSameSession | AlreadyPaused | NotPaused

  // ---- names ----

  predicate LowerOrDigit(c: char) {
    'a' <= c <= 'z' || '0' <= c <= '9'
  }

  predicate NameChars(s: string) {
    forall i :: 0 <= i < |s| ==> LowerOrDigit(s[i]) || s[i] == '-'
  }

  predicate SafeCommand(s: string) {
    |s| > 3 && s[..3] == "cc-" && NameChars(s[3..])
  }

  predicate SafeSessionId(s: string) {
    8 <= |s| <= 64 && LowerOrDigit(s[0]) && NameChars(s)
  }

  /** What `secrets.token_hex(8)` yields. */
  predicate IsToken(s: string) {
    |s| == 16 && forall i :: 0 <= i < |s| ==> LowerOrDigit(s[i])
  }

  function ChosenId(sessionId: string, token: string): string {
    if sessionId != "" then sessionId else "loop-" + token
  }

  lemma GeneratedIsSafe(token: string)
    requires IsToken(token)
    ensures SafeSessionId(ChosenId("", token))
  {}

  /** Lower-case words joined by single hyphens. */
  predicate SafeChangeId(s: string) {
    && s != [] && NameChars(s) && s[0] != '-' && s[|s| - 1] != '-'
    && forall i :: 0 <= i < |s| - 1 ==> !(s[i] == '-' && s[i + 1] == '-')
  }

  function PhaseFor(command: string): string {
    if command == "cc-propose" then "propose"
    else if command == "cc-review" then "review"
    else if command == "cc-fix" then "fix"
    else if command == "cc-test" then "test"
    else if command == "cc-archive" then "archive"
    else "apply"
  }

  // ---- time ----

  /** Whole milliseconds from `started` to `ended`, never negative. */
  function ElapsedMs(started: int, ended: int): int {
    if ended <= started then 0 else (ended - started) / 1000
  }

  function PhaseTiming(s: Session, endedAt: int, blocked: bool, toolMs: int, verificationMs: int): Timing {
    var elapsed := ElapsedMs(s.phaseStartedAt, endedAt);
    var wait := Max(0, s.waitMs);
    var blockedMs := if blocked then elapsed else Max(0, s.blockedMs);
    var active := Max(0, elapsed - wait - blockedMs);
    Timing(elapsed, active, wait, blockedMs, Min(active, Max(0, toolMs)), Min(active, Max(0, verificationMs)))
  }

  // ---- where a step leads ----

  datatype Decision = Continue(next: string) | Stop(reason: string)

  /** The continuation that a manifest declares for a step's outcome. */
  function Route(continuation: Option<Continuation>, status: string, condition: string): Result<Decision, LoopError> {
    if status != "passed" then Ok(Stop("command_status_" + status))
    else if continuation.None? then Ok(Stop("continuation_complete"))
    else if condition != "" then
      if condition in continuation.value.stopConditions then Ok(Stop(condition))
      else if condition in continuation.value.onConditions then
        var next := continuation.value.onConditions[condition];
        if SafeCommand(next) then Ok(Continue(next)) else Err(InvalidCommand)
      else Err(UnknownCondition)
    else
      match continuation.value.onPass
      case Some(next) => if SafeCommand(next) then Ok(Continue(next)) else Err(InvalidCommand)
      case None => Ok(Stop("continuation_complete"))
  }

  /** The next command must have a manifest, and one with a continuation must allow the same session. */
  function Admit(m: Manifests, d: Decision): Result<Decision, LoopError> {
    if d.Stop? then Ok(d)
    else if d.next !in m then Err(NoManifest(d.next))
    else if m[d.next].Some? && !m[d.next].value.sameSession then Err(NextNotSameSession)
    else Ok(d)
  }

  function Decide(m: Manifests, command: string, status: string, condition: string): Result<Decision, LoopError> {
    if command !in m then Err(NoManifest(command))
    else
      var route := Route(m[command], status, condition);
      if route.Err? then route else Admit(m, route.value)
  }

  // ---- the stored session ----

  /** The checks of `_load_state` on a stored session. */
  function Loaded(s: Session): Result<Session, LoopError> {
    if s.status != Active then Ok(s)
    else
      var expected := if s.steps == [] then Some(s.entryCommand) else s.steps[|s.steps| - 1].nextCommand;
      if expected == Some(s.expectedCommand) then Ok(s) else Err(CommandDrift)
  }

  /** What a caller reports, and the readings of the clock that the runtime takes on the way. */
  datatype StepInput = StepInput(
    command: string, status: string, condition: string, evidence: string,
    at: int, nextPhaseAt: int, updatedAt: int, toolMs: int, verificationMs: int)

  /** The first check that refuses a step, if any. */
  function Refusal(m: Manifests, s: Session, input: StepInput): Option<LoopError> {
    if Loaded(s).Err? then Some(CommandDrift)
    else if s.status != Active then Some(NotActive(s.status))
    else if !SafeCommand(input.command) then Some(InvalidCommand)
    else if input.command != s.expectedCommand then Some(UnexpectedCommand)
    else if s.pauseStartedAt.Some? then Some(PhasePaused)
    else if input.status !in {"passed", "blocked", "partial"} then Some(BadStatus)
    else
      match Decide(m, input.command, input.status, input.condition)
      case Err(e) => Some(e)
      case Ok(_) => None
  }

  function NewStep(s: Session, input: StepInput, d: Decision): StepRecord {
    StepRecord(
      input.command, input.status, input.condition, input.evidence, input.at,
      if d.Continue? then Some(d.next) else None, if d.Stop? then d.reason else "", s.phase,
      PhaseTiming(s, input.at, input.status == "blocked", input.toolMs, input.verificationMs))
  }

  /** The session after an accepted step. */
  function Advanced(s: Session, input: StepInput, d: Decision): Session {
    var steps := s.steps + [NewStep(s, input, d)];
    match d
    case Continue(next) =>
      s.(currentCommand := next, expectedCommand := next, steps := steps, phase := PhaseFor(next),
         phaseStartedAt := input.nextPhaseAt, pauseStartedAt := None, waitMs := 0, blockedMs := 0,
         updatedAt := input.updatedAt)
    case Stop(reason) =>
      s.(status := if reason == "continuation_complete" then Completed else Stopped,
         currentCommand := input.command, expectedCommand := "", stopReason := reason, steps := steps,
         updatedAt := input.updatedAt)
  }

  function Initial(changeId: string, command: string, now: int): Session {
    Session(changeId, Active, command, command, command, now, now, PhaseFor(command), now, None, 0, 0, "", [])
  }

  predicate CanPause(s: Session) {
    Loaded(s).Ok? && s.status == Active && s.pauseStartedAt.None?
  }

  function Paused(s: Session, now: int): Session {
    s.(pauseStartedAt := Some(now), updatedAt := now)
  }

  predicate CanResume(s: Session) {
    Loaded(s).Ok? && s.status == Active && s.pauseStartedAt.Some?
  }

  function Resumed(s: Session, now: int): Session
    requires s.pauseStartedAt.Some?
  {
    s.(waitMs := Max(0, s.waitMs) + ElapsedMs(s.pauseStartedAt.value, now), pauseStartedAt := None, updatedAt := now)
  }
}
