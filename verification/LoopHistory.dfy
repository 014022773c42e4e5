/** What every reachable Loop session satisfies, and how its phase times add up. */
module LoopHistory {
  import opened Options
  import opened LoopSession

  // ---- the history is a path in the continuation graph ----

  /** `next` is what the manifest of `command` declares for a pass, or for the reported condition. */
  ghost predicate Declared(m: Manifests, command: string, condition: string, next: string) {
    && command in m && m[command].Some?
    && (if condition == "" then m[command].value.onPass == Some(next)
        else condition in m[command].value.onConditions && m[command].value.onConditions[condition] == next)
    && next in m && (m[next].Some? ==> m[next].value.sameSession)
  }

  /** A step that was passed and carries on to a declared command. */
  ghost predicate CarriesOn(m: Manifests, step: StepRecord) {
    && step.status == "passed" && step.nextCommand.Some? && step.stopReason == ""
    && Declared(m, step.command, step.condition, step.nextCommand.value)
  }

  ghost predicate LeadsTo(m: Manifests, step: StepRecord, next: StepRecord) {
    CarriesOn(m, step) && step.nextCommand == Some(next.command)
  }

  ghost predicate Path(m: Manifests, entry: string, steps: seq<StepRecord>) {
    && (steps != [] ==> steps[0].command == entry)
    && forall i, j :: 0 <= i && j == i + 1 < |steps| ==> LeadsTo(m, steps[i], steps[j])
  }

  /** The last step ends the session, and the session says so in its own words. */
  ghost predicate EndsWith(s: Session, last: StepRecord) {
    && last.nextCommand == None && s.expectedCommand == ""
    && s.currentCommand == last.command && s.stopReason == last.stopReason
  }

  ghost predicate SoundHistory(m: Manifests, s: Session) {
    && Loaded(s).Ok?
    && s.entryCommand in m && Path(m, s.entryCommand, s.steps)
    && (forall i :: 0 <= i < |s.steps| ==> s.steps[i].phase == PhaseFor(s.steps[i].command))
    && match s.status
       case Active =>
         && s.expectedCommand in m && s.currentCommand == s.expectedCommand && s.phase == PhaseFor(s.expectedCommand)
         && s.stopReason == "" && (s.steps != [] ==> CarriesOn(m, s.steps[|s.steps| - 1]))
       case Stopped =>
         s.steps != [] && EndsWith(s, s.steps[|s.steps| - 1]) && s.stopReason != "continuation_complete"
       case Completed =>
         && s.steps != [] && EndsWith(s, s.steps[|s.steps| - 1]) && s.stopReason == "continuation_complete"
         && s.steps[|s.steps| - 1].status == "passed"
  }

  lemma InitialIsSound(m: Manifests, changeId: string, command: string, now: int)
    requires command in m
    ensures SoundHistory(m, Initial(changeId, command, now))
  {}

  lemma DecisionIsDeclared(m: Manifests, command: string, status: string, condition: string)
    requires Decide(m, command, status, condition).Ok?
    ensures var d := Decide(m, command, status, condition).value;
      && (d.Continue? ==> status == "passed" && Declared(m, command, condition, d.next))
      && (d == Stop("continuation_complete") ==> status == "passed")
  {
    if status != "passed" {
      assert ("command_status_" + status)[2] == 'm' && "continuation_complete"[2] == 'n';
    }
  }

  /** An accepted step keeps the history sound. */
  lemma StepKeepsSound(m: Manifests, s: Session, input: StepInput)
    requires SoundHistory(m, s) && Refusal(m, s, input) == None
    ensures SoundHistory(m, Advanced(s, input, Decide(m, input.command, input.status, input.condition).value))
  {
    DecisionIsDeclared(m, input.command, input.status, input.condition);
    var d := Decide(m, input.command, input.status, input.condition).value;
    PathAppend(m, s.entryCommand, s.steps, NewStep(s, input, d));
  }

  lemma PathAppend(m: Manifests, entry: string, steps: seq<StepRecord>, step: StepRecord)
    requires Path(m, entry, steps) && (steps == [] ==> step.command == entry)
    requires steps != [] ==> LeadsTo(m, steps[|steps| - 1], step)
    ensures Path(m, entry, steps + [step])
  {
    var all := steps + [step];
    forall i, j | 0 <= i && j == i + 1 < |all|
      ensures LeadsTo(m, all[i], all[j])
    {
      if j < |steps| {
        assert all[i] == steps[i] && all[j] == steps[j];
      } else {
        assert all[i] == steps[|steps| - 1] && all[j] == step;
      }
    }
  }

  // ---- runs of one session ----

  datatype Event = Record(input: StepInput) | Pause(at: int) | Resume(at: int)

  /** The stored session after a request; a refused request leaves it as it is. */
  function After(m: Manifests, s: Session, e: Event): Session {
    match e
    case Record(input) =>
      if Refusal(m, s, input).Some? then s
      else Advanced(s, input, Decide(m, input.command, input.status, input.condition).value)
    case Pause(at) => if CanPause(s) then Paused(s, at) else s
    case Resume(at) => if CanResume(s) then Resumed(s, at) else s
  }

  function AfterAll(m: Manifests, s: Session, events: seq<Event>): Session {
    if events == [] then s else After(m, AfterAll(m, s, events[..|events| - 1]), events[|events| - 1])
  }

  lemma {:induction false} EveryReachableIsSound(m: Manifests, s: Session, events: seq<Event>)
    requires SoundHistory(m, s)
    ensures SoundHistory(m, AfterAll(m, s, events))
  {
    if events != [] {
      var front := AfterAll(m, s, events[..|events| - 1]);
      EveryReachableIsSound(m, s, events[..|events| - 1]);
      var e := events[|events| - 1];
      if e.Record? && Refusal(m, front, e.input) == None { StepKeepsSound(m, front, e.input); }
    }
  }

  /** Whatever is requested of a started session, it loads: "expected command drift" is never reported. */
  lemma ReachableIsLoadable(m: Manifests, changeId: string, command: string, now: int, events: seq<Event>)
    requires command in m
    ensures var s := AfterAll(m, Initial(changeId, command, now), events); Loaded(s) == Ok(s)
  {
    InitialIsSound(m, changeId, command, now);
    EveryReachableIsSound(m, Initial(changeId, command, now), events);
  }

  /** Nothing moves a stopped or completed session, and recorded steps are never rewritten. */
  lemma {:induction false} HistoryIsAppendOnly(m: Manifests, s: Session, events: seq<Event>)
    ensures s.steps <= AfterAll(m, s, events).steps
    ensures s.status != Active ==> AfterAll(m, s, events) == s
  {
    if events != [] {
      HistoryIsAppendOnly(m, s, events[..|events| - 1]);
    }
  }

  // ---- phase times ----

  /** The event's clock readings do not go back behind the session's last write. */
  predicate Timely(s: Session, e: Event) {
    match e
    case Record(input) => s.updatedAt <= input.at <= input.nextPhaseAt <= input.updatedAt
    case Pause(at) => s.updatedAt <= at
    case Resume(at) => s.updatedAt <= at
  }

  ghost predicate AllTimely(m: Manifests, s: Session, events: seq<Event>) {
    forall i :: 0 <= i < |events| ==> Timely(AfterAll(m, s, events[..i]), events[i])
  }

  /** A recorded phase: blocked time is all of it or none, and the rest is active plus waiting. */
  ghost predicate AddsUp(step: StepRecord) {
    var t := step.timing;
    && t.elapsed >= 0 && t.wait >= 0
    && (if step.status == "blocked" then t.active == 0 && t.blocked == t.elapsed
        else t.blocked == 0 && t.elapsed == t.active + t.wait)
    && 0 <= t.tool <= t.active && 0 <= t.verification <= t.active
  }

  /** The waits of the current phase fit into the time since it started. */
  ghost predicate Timed(s: Session) {
    && s.phaseStartedAt <= s.updatedAt && s.waitMs >= 0 && s.blockedMs == 0
    && (match s.pauseStartedAt
        case None => 1000 * s.waitMs <= s.updatedAt - s.phaseStartedAt
        case Some(p) => s.phaseStartedAt <= p <= s.updatedAt && 1000 * s.waitMs <= p - s.phaseStartedAt)
    && forall i :: 0 <= i < |s.steps| ==> AddsUp(s.steps[i])
  }

  lemma TimingAddsUp(s: Session, input: StepInput, d: Decision)
    requires Timed(s) && s.pauseStartedAt.None? && s.updatedAt <= input.at
    ensures AddsUp(NewStep(s, input, d))
  {
    assert s.waitMs <= ElapsedMs(s.phaseStartedAt, input.at);
  }

  lemma EventKeepsTimed(m: Manifests, s: Session, e: Event)
    requires Timed(s) && Timely(s, e)
    ensures Timed(After(m, s, e))
  {
    if e.Record? && Refusal(m, s, e.input) == None {
      TimingAddsUp(s, e.input, Decide(m, e.input.command, e.input.status, e.input.condition).value);
    }
  }

  /** With a monotone clock the recorded times of every phase add up, over any pauses and resumes. */
  lemma {:induction false} PhaseTimesAddUp(m: Manifests, s: Session, events: seq<Event>)
    requires Timed(s) && AllTimely(m, s, events)
    ensures Timed(AfterAll(m, s, events))
  {
    if events != [] {
      var n := |events| - 1;
      forall i | 0 <= i < n ensures Timely(AfterAll(m, s, events[..n][..i]), events[..n][i]) {
        assert events[..n][..i] == events[..i];
      }
      PhaseTimesAddUp(m, s, events[..n]);
      EventKeepsTimed(m, AfterAll(m, s, events[..n]), events[n]);
    }
  }

  lemma InitialIsTimed(changeId: string, command: string, now: int)
    ensures Timed(Initial(changeId, command, now))
  {}

  /** Of a started session, whatever timely requests follow, every recorded phase adds up. */
  lemma StartedPhasesAddUp(
    m: Manifests, changeId: string, command: string, now: int, events: seq<Event>, i: nat)
    requires AllTimely(m, Initial(changeId, command, now), events)
    requires i < |AfterAll(m, Initial(changeId, command, now), events).steps|
    ensures AddsUp(AfterAll(m, Initial(changeId, command, now), events).steps[i])
  {
    InitialIsTimed(changeId, command, now);
    PhaseTimesAddUp(m, Initial(changeId, command, now), events);
  }

  // ---- recorded waits are the pauses ----

  /** A pause and the resume after it, for each pair of clock readings. */
  function PauseEvents(pauses: seq<(int, int)>): seq<Event> {
    if pauses == [] then []
    else
      var n := |pauses| - 1;
      PauseEvents(pauses[..n]) + [Pause(pauses[n].0), Resume(pauses[n].1)]
  }

  function TotalWait(pauses: seq<(int, int)>): int {
    if pauses == [] then 0
    else
      var n := |pauses| - 1;
      TotalWait(pauses[..n]) + ElapsedMs(pauses[n].0, pauses[n].1)
  }

  /** Pausing and resuming adds up the floored waits and moves nothing else but `updatedAt`. */
  lemma {:induction false} PausesAddUp(m: Manifests, s: Session, pauses: seq<(int, int)>)
    requires Loaded(s).Ok? && s.status == Active && s.pauseStartedAt.None? && s.waitMs >= 0
    ensures TotalWait(pauses) >= 0
    ensures var after := AfterAll(m, s, PauseEvents(pauses));
      after == s.(waitMs := s.waitMs + TotalWait(pauses), updatedAt := after.updatedAt)
  {
    if pauses != [] {
      var n := |pauses| - 1;
      var (p, r) := pauses[n];
      var front := PauseEvents(pauses[..n]);
      PausesAddUp(m, s, pauses[..n]);
      assert front + [Pause(p), Resume(r)] == front + [Pause(p)] + [Resume(r)];
      AfterOneMore(m, s, front, Pause(p));
      AfterOneMore(m, s, front + [Pause(p)], Resume(r));
    }
  }

  lemma AfterOneMore(m: Manifests, s: Session, events: seq<Event>, e: Event)
    ensures AfterAll(m, s, events + [e]) == After(m, AfterAll(m, s, events), e)
  {
    assert (events + [e])[..|events|] == events;
  }

  /** A session at the start of a phase. */
  predicate FreshPhase(s: Session) {
    Loaded(s).Ok? && s.status == Active && s.pauseStartedAt.None? && s.waitMs == 0
  }

  /** Every phase starts fresh: the first one, and each one that an accepted step leads to. */
  lemma PhasesStartFresh(m: Manifests, s: Session, input: StepInput, changeId: string, command: string, now: int)
    ensures FreshPhase(Initial(changeId, command, now)) && Initial(changeId, command, now).phaseStartedAt == now
    ensures Refusal(m, s, input) == None ==>
      var d := Decide(m, input.command, input.status, input.condition).value;
      d.Continue? ==> FreshPhase(Advanced(s, input, d)) && Advanced(s, input, d).phaseStartedAt == input.nextPhaseAt
  {}

  /** The step that ends a phase records exactly the waits and the time since the phase started. */
  lemma RecordedWaitIsTotal(m: Manifests, s: Session, pauses: seq<(int, int)>, input: StepInput, d: Decision)
    requires FreshPhase(s)
    ensures var t := NewStep(AfterAll(m, s, PauseEvents(pauses)), input, d).timing;
      t.wait == TotalWait(pauses) && t.elapsed == ElapsedMs(s.phaseStartedAt, input.at)
  {
    PausesAddUp(m, s, pauses);
  }
}
