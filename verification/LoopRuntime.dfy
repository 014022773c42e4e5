/** The runtime's entry points over the stored session files. */
module LoopRuntimes {
  import opened Numbers
  import opened Options
  import opened LoopSession
  import opened LoopHistory

  /** The session files of a project. */
  class LoopRuntime {
    const manifests: Manifests
    var sessions: map<string, Session>

    /** Every stored session has a sound history; no method can break this. */
    ghost predicate Valid()
      reads this
    {
      forall id :: id in sessions ==> SoundHistory(manifests, sessions[id])
    }

    constructor (manifests: Manifests)
      ensures this.manifests == manifests && sessions == map[] && Valid()
    {
      this.manifests := manifests;
      sessions := map[];
    }

    /** An empty `sessionId` asks for a generated one, made from the random `token`. */
    method StartSession(
      enabled: bool, changeId: string, command: string, sessionId: string, token: string, now: int)
      returns (r: Result<Session, LoopError>, id: string)
      requires Valid() && IsToken(token)
      modifies this
      ensures Valid() && id == ChosenId(sessionId, token)
      ensures r.Ok? <==>
        enabled && SafeChangeId(changeId) && SafeCommand(command) && command in manifests
        && manifests[command].Some? && SafeSessionId(id) && id !in old(sessions)
      ensures r.Ok? ==> r.value == Initial(changeId, command, now) && sessions == old(sessions)[id := r.value]
      ensures r.Err? ==> sessions == old(sessions)
      ensures r.Err? && r.error == InvalidSessionId ==> sessionId != ""
    {
      id := ChosenId(sessionId, token);
      if !enabled { return Err(NotEnabled), id; }
      if !SafeChangeId(changeId) { return Err(InvalidChangeId), id; }
      if !SafeCommand(command) { return Err(InvalidCommand), id; }
      if command !in manifests { return Err(NoManifest(command)), id; }
      if manifests[command].None? { return Err(NoContinuation), id; }
      if sessionId == "" { GeneratedIsSafe(token); }
      if !SafeSessionId(id) { return Err(InvalidSessionId), id; }
      if id in sessions { return Err(SessionExists), id; }
      var state := Initial(changeId, command, now);
      InitialIsSound(manifests, changeId, command, now);
      sessions := sessions[id := state];
      r := Ok(state);
    }

    /** `_load_state` */
    function LoadState(sessionId: string): Result<Session, LoopError>
      reads this
    {
      if !SafeSessionId(sessionId) then Err(InvalidSessionId)
      else if sessionId !in sessions then Err(SessionMissing)
      else Loaded(sessions[sessionId])
    }

    method RecordStep(enabled: bool, sessionId: string, input: StepInput) returns (r: Result<Session, LoopError>)
      requires Valid()
      modifies this
      ensures Valid()
      ensures r.Ok? <==>
        enabled && SafeSessionId(sessionId) && sessionId in old(sessions)
        && Refusal(manifests, old(sessions)[sessionId], input) == None
      ensures r.Ok? ==>
        && Decide(manifests, input.command, input.status, input.condition).Ok?
        && r.value == Advanced(
             old(sessions)[sessionId], input, Decide(manifests, input.command, input.status, input.condition).value)
        && sessions == old(sessions)[sessionId := r.value]
      ensures r.Err? ==> sessions == old(sessions)
      ensures r.Err? && enabled && SafeSessionId(sessionId) && sessionId in sessions ==>
        Refusal(manifests, sessions[sessionId], input) == Some(r.error)
    {
      if !enabled { return Err(NotEnabled); }
      var loaded := LoadState(sessionId);
      if loaded.Err? { return loaded; }
      var state := loaded.value;
      if state.status != Active { return Err(NotActive(state.status)); }
      if !SafeCommand(input.command) { return Err(InvalidCommand); }
      if input.command != state.expectedCommand { return Err(UnexpectedCommand); }
      if state.pauseStartedAt.Some? { return Err(PhasePaused); }
      if input.status !in {"passed", "blocked", "partial"} { return Err(BadStatus); }
      var decision := Decide(manifests, input.command, input.status, input.condition);
      if decision.Err? { return Err(decision.error); }
      StepKeepsSound(manifests, state, input);
      var step := NewStep(state, input, decision.value);
      if decision.value.Continue? {
        var next := decision.value.next;
        state := state.(currentCommand := next, expectedCommand := next, status := Active);
        state := state.(steps := state.steps + [step]);
        state := state.(phase := PhaseFor(next), phaseStartedAt := input.nextPhaseAt, pauseStartedAt := None);
        state := state.(waitMs := 0, blockedMs := 0);
      } else {
        var reason := decision.value.reason;
        state := state.(status := if reason == "continuation_complete" then Completed else Stopped);
        state := state.(currentCommand := input.command, expectedCommand := "", stopReason := reason);
        state := state.(steps := state.steps + [step]);
      }
      state := state.(updatedAt := input.updatedAt);
      sessions := sessions[sessionId := state];
      r := Ok(state);
    }

    method PauseSession(enabled: bool, sessionId: string, now: int) returns (r: Result<Session, LoopError>)
      requires Valid()
      modifies this
      ensures Valid()
      ensures r.Ok? <==>
        enabled && SafeSessionId(sessionId) && sessionId in old(sessions) && CanPause(old(sessions)[sessionId])
      ensures r.Ok? ==>
        r.value == Paused(old(sessions)[sessionId], now) && sessions == old(sessions)[sessionId := r.value]
      ensures r.Err? ==> sessions == old(sessions)
      ensures r.Err? && enabled && SafeSessionId(sessionId) && sessionId in sessions ==>
        r.error == if sessions[sessionId].status != Active then NotActive(sessions[sessionId].status) else AlreadyPaused
    {
      if !enabled { return Err(NotEnabled); }
      var loaded := LoadState(sessionId);
      if loaded.Err? { return loaded; }
      var state := loaded.value;
      if state.status != Active { return Err(NotActive(state.status)); }
      if state.pauseStartedAt.Some? { return Err(AlreadyPaused); }
      state := state.(pauseStartedAt := Some(now), updatedAt := now);
      sessions := sessions[sessionId := state];
      r := Ok(state);
    }

    method ResumeSession(enabled: bool, sessionId: string, now: int) returns (r: Result<Session, LoopError>)
      requires Valid()
      modifies this
      ensures Valid()
      ensures r.Ok? <==>
        enabled && SafeSessionId(sessionId) && sessionId in old(sessions) && CanResume(old(sessions)[sessionId])
      ensures r.Ok? ==>
        r.value == Resumed(old(sessions)[sessionId], now) && sessions == old(sessions)[sessionId := r.value]
      ensures r.Err? ==> sessions == old(sessions)
      ensures r.Err? && enabled && SafeSessionId(sessionId) && sessionId in sessions ==>
        r.error == if sessions[sessionId].status != Active then NotActive(sessions[sessionId].status) else NotPaused
    {
      if !enabled { return Err(NotEnabled); }
      var loaded := LoadState(sessionId);
      if loaded.Err? { return loaded; }
      var state := loaded.value;
      if state.status != Active { return Err(NotActive(state.status)); }
      if state.pauseStartedAt.None? { return Err(NotPaused); }
      state := state.(waitMs := Max(0, state.waitMs) + ElapsedMs(state.pauseStartedAt.value, now));
      state := state.(pauseStartedAt := None, updatedAt := now);
      sessions := sessions[sessionId := state];
      r := Ok(state);
    }
  }
}
