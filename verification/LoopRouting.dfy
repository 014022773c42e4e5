/** Where a step leads and why it is refused, said of the manifests themselves. */
module LoopRouting {
  import opened Options
  import opened Text
  import opened LoopSession
  import opened LoopHistory

  // ---- decisions ----

  /** The manifest has a continuation, and names `next` for a pass with this condition. */
  ghost predicate Names(m: Manifests, command: string, condition: string, next: string) {
    && command in m && m[command].Some? && (condition == "" || condition !in m[command].value.stopConditions)
    && if condition == "" then m[command].value.onPass == Some(next)
       else condition in m[command].value.onConditions && m[command].value.onConditions[condition] == next
  }

  /** A session goes on to `next` exactly after a pass whose manifest declares that command for it. */
  lemma ContinueIff(m: Manifests, command: string, status: string, condition: string, next: string)
    ensures Decide(m, command, status, condition) == Ok(Continue(next)) <==>
      && status == "passed" && SafeCommand(next) && Declared(m, command, condition, next)
      && (condition == "" || condition !in m[command].value.stopConditions)
  {}

  /** The reasons for which a session stops after a step. */
  ghost predicate StopsFor(m: Manifests, command: string, status: string, condition: string, reason: string) {
    command in m &&
    if status != "passed" then reason == "command_status_" + status
    else if m[command].None? then reason == "continuation_complete"
    else if condition != "" then condition in m[command].value.stopConditions && reason == condition
    else m[command].value.onPass.None? && reason == "continuation_complete"
  }

  lemma StopIff(m: Manifests, command: string, status: string, condition: string, reason: string)
    ensures Decide(m, command, status, condition) == Ok(Stop(reason)) <==>
      StopsFor(m, command, status, condition, reason)
  {}

  /** A command has no manifest: the reported one, or the one that its manifest names next. */
  lemma NoManifestIff(m: Manifests, command: string, status: string, condition: string, missing: string)
    ensures Decide(m, command, status, condition) == Err(NoManifest(missing)) <==>
      missing !in m &&
      (command == missing || (status == "passed" && Names(m, command, condition, missing) && SafeCommand(missing)))
  {}

  /** The condition is neither a stop condition nor one with a command of its own. */
  lemma UnknownConditionIff(m: Manifests, command: string, status: string, condition: string)
    ensures Decide(m, command, status, condition) == Err(UnknownCondition) <==>
      && command in m && status == "passed" && m[command].Some? && condition != ""
      && condition !in m[command].value.stopConditions && condition !in m[command].value.onConditions
  {}

  /** The manifest names something that is not a command. */
  lemma InvalidCommandIff(m: Manifests, command: string, status: string, condition: string)
    ensures Decide(m, command, status, condition) == Err(InvalidCommand) <==>
      status == "passed" && exists next :: Names(m, command, condition, next) && !SafeCommand(next)
  {
    if Decide(m, command, status, condition) == Err(InvalidCommand) {
      var next := if condition == "" then m[command].value.onPass.value else m[command].value.onConditions[condition];
      assert Names(m, command, condition, next) && !SafeCommand(next);
    }
  }

  /** The next command exists, but does not go on in the same session. */
  lemma NotSameSessionIff(m: Manifests, command: string, status: string, condition: string)
    ensures Decide(m, command, status, condition) == Err(NextNotSameSession) <==>
      status == "passed" && exists next ::
        && Names(m, command, condition, next) && SafeCommand(next)
        && next in m && m[next].Some? && !m[next].value.sameSession
  {
    if Decide(m, command, status, condition) == Err(NextNotSameSession) {
      var next := if condition == "" then m[command].value.onPass.value else m[command].value.onConditions[condition];
      assert Names(m, command, condition, next) && SafeCommand(next);
    }
  }

  lemma NoOtherRefusal(m: Manifests, command: string, status: string, condition: string)
    ensures var d := Decide(m, command, status, condition);
      d.Err? ==> d.error.NoManifest? || d.error in {UnknownCondition, InvalidCommand, NextNotSameSession}
  {}

  // ---- steps ----

  /**
   A step of a loadable session is accepted exactly if the session is active and not paused, the
   command is the expected one, the status is known, and the manifests decide where it leads.
   */
  lemma AcceptedIff(m: Manifests, s: Session, input: StepInput)
    requires Loaded(s).Ok?
    ensures Refusal(m, s, input) == None <==>
      && s.status == Active && s.pauseStartedAt.None?
      && input.command == s.expectedCommand && SafeCommand(input.command)
      && (input.status == "passed" || input.status == "blocked" || input.status == "partial")
      && exists d :: Decide(m, input.command, input.status, input.condition) == Ok(d)
  {
    var decision := Decide(m, input.command, input.status, input.condition);
    assert decision.Ok? ==> decision == Ok(decision.value);
  }

  /** A started session belongs to its change, begins with the given command at that time, and has no steps. */
  lemma StartIsRecorded(changeId: string, command: string, now: int)
    ensures var s := Initial(changeId, command, now);
      && s.changeId == changeId && s.entryCommand == command && s.startedAt == now && s.updatedAt == now
      && s.phaseStartedAt == now && s.steps == [] && s.status == Active && s.expectedCommand == command
  {}

  /** Which of the failing checks a refused step is told of. */
  lemma RefusalNamesFirst(m: Manifests, s: Session, input: StepInput)
    requires Loaded(s).Ok?
    ensures s.status != Active ==> Refusal(m, s, input) == Some(NotActive(s.status))
    ensures s.status == Active && input.command != s.expectedCommand ==>
      Refusal(m, s, input) == Some(if SafeCommand(input.command) then UnexpectedCommand else InvalidCommand)
    ensures s.status == Active && input.command == s.expectedCommand && SafeCommand(input.command) ==>
      && (s.pauseStartedAt.Some? ==> Refusal(m, s, input) == Some(PhasePaused))
      && (s.pauseStartedAt.None? && input.status !in {"passed", "blocked", "partial"} ==>
            Refusal(m, s, input) == Some(BadStatus))
      && (s.pauseStartedAt.None? && input.status in {"passed", "blocked", "partial"} ==>
            forall e :: Decide(m, input.command, input.status, input.condition) == Err(e) ==>
              Refusal(m, s, input) == Some(e))
  {}

  /** What an accepted step leaves behind: one more record, of just this step. */
  lemma StepIsRecorded(m: Manifests, s: Session, input: StepInput, d: Decision)
    ensures var after := Advanced(s, input, d);
      && after.steps[..|s.steps|] == s.steps && |after.steps| == |s.steps| + 1
      && var step := after.steps[|s.steps|];
         && step.command == input.command && step.status == input.status && step.condition == input.condition
         && step.evidence == input.evidence && step.at == input.at && step.phase == s.phase
         && (d.Continue? ==> step.nextCommand == Some(d.next) && step.stopReason == "")
         && (d.Stop? ==> step.nextCommand == None && step.stopReason == d.reason)
    ensures var after := Advanced(s, input, d);
      && after.changeId == s.changeId && after.entryCommand == s.entryCommand && after.startedAt == s.startedAt
      && after.updatedAt == input.updatedAt
  {}

  // ---- phases and times ----

  /** The five commands with a phase of their own; every other command belongs to "apply". */
  ghost predicate OwnPhase(phase: string) {
    phase == "propose" || phase == "review" || phase == "fix" || phase == "test" || phase == "archive"
  }

  lemma PhaseIsNamed(command: string, phase: string)
    ensures OwnPhase(phase) ==> (PhaseFor(command) == phase <==> command == "cc-" + phase)
    ensures PhaseFor(command) == "apply" || OwnPhase(PhaseFor(command))
  {
    assert "cc-" + "propose" == "cc-propose" && "cc-" + "review" == "cc-review" && "cc-" + "fix" == "cc-fix";
    assert "cc-" + "test" == "cc-test" && "cc-" + "archive" == "cc-archive";
  }

  /** A span of time is cut down to whole milliseconds, and never negative. */
  lemma ElapsedIsFloor(started: int, ended: int)
    ensures ended >= started ==>
      1000 * ElapsedMs(started, ended) <= ended - started < 1000 * ElapsedMs(started, ended) + 1000
    ensures ended < started ==> ElapsedMs(started, ended) == 0
  {}

  /** A reported duration is recorded as it is, within 0 and the active time. */
  ghost predicate Capped(recorded: int, reported: int, active: int) {
    if reported < 0 then recorded == 0 else if reported > active then recorded == active else recorded == reported
  }

  lemma DurationsAreCapped(s: Session, input: StepInput, d: Decision)
    ensures var t := NewStep(s, input, d).timing;
      Capped(t.tool, input.toolMs, t.active) && Capped(t.verification, input.verificationMs, t.active)
  {}

  // ---- names ----

  /** The letters and digits of names, one by one. */
  lemma LowerOrDigitIff(c: char)
    ensures LowerOrDigit(c) <==> c in "abcdefghijklmnopqrstuvwxyz0123456789"
  {
    var letters, digits := "abcdefghijklmnopqrstuvwxyz", "0123456789";
    assert "abcdefghijklmnopqrstuvwxyz0123456789" == letters + digits;
    assert forall i :: 0 <= i < 26 ==> letters[i] as int == 'a' as int + i;
    assert forall i :: 0 <= i < 10 ==> digits[i] as int == '0' as int + i;
    if 'a' <= c <= 'z' { assert letters[c as int - 'a' as int] == c; }
    if '0' <= c <= '9' { assert digits[c as int - '0' as int] == c; }
  }

  lemma CommandIff(s: string)
    ensures SafeCommand(s) <==> exists tail :: tail != "" && NameChars(tail) && s == "cc-" + tail
  {
    if SafeCommand(s) {
      assert s == "cc-" + s[3..];
    }
    if tail :| tail != "" && NameChars(tail) && s == "cc-" + tail {
      assert s[..3] == "cc-" && s[3..] == tail;
    }
  }

  lemma SessionIdIff(s: string)
    ensures SafeSessionId(s) <==>
      exists c, tail :: LowerOrDigit(c) && NameChars(tail) && 7 <= |tail| <= 63 && s == [c] + tail
  {
    if SafeSessionId(s) {
      assert NameChars(s[1..]) && s == [s[0]] + s[1..];
    }
    if c, tail :| LowerOrDigit(c) && NameChars(tail) && 7 <= |tail| <= 63 && s == [c] + tail {
      assert forall i :: 1 <= i < |s| ==> s[i] == tail[i - 1];
    }
  }

  predicate Word(s: string) {
    s != [] && forall i :: 0 <= i < |s| ==> LowerOrDigit(s[i])
  }

  /** Words joined by single hyphens. */
  ghost predicate Hyphenated(s: string, words: Parts) {
    words != [] && s == Join(words, '-') && forall i :: 0 <= i < |words| ==> Word(words[i])
  }

  /** Neither end is a hyphen, and no two hyphens stand together. */
  predicate Tidy(s: string) {
    && s != [] && s[0] != '-' && s[|s| - 1] != '-'
    && forall i :: 0 <= i < |s| - 1 ==> !(s[i] == '-' && s[i + 1] == '-')
  }

  predicate NoEmptyPart(parts: Parts) {
    forall i :: 0 <= i < |parts| ==> parts[i] != []
  }

  lemma {:induction false} TidyIffNoEmptyPart(s: string)
    ensures Tidy(s) <==> NoEmptyPart(Split(s, '-'))
    ensures s != [] && s[0] != '-' ==> Split(s, '-')[0] != []
    decreases |s|
  {
    if s == [] {
      assert Split(s, '-')[0] == [];
    } else if s[0] == '-' {
      assert Split(s, '-')[0] == [];
    } else if |s| > 1 && s[1] == '-' {
      TidyIffNoEmptyPart(s[2..]);
      TidyAfterHyphen(s);
      var rest := Split(s[2..], '-');
      assert s[1..][1..] == s[2..] && Split(s[1..], '-') == [""] + rest;
      assert [s[0]] + "" == [s[0]] && ([""] + rest)[1..] == rest;
      assert Split(s, '-') == [[s[0]]] + rest;
      FrontPart([s[0]], Split(s[2..], '-'));
    } else if |s| > 1 {
      TidyIffNoEmptyPart(s[1..]);
      TidyAfterLetter(s);
      var rest := Split(s[1..], '-');
      assert Split(s, '-') == [[s[0]] + rest[0]] + rest[1..];
      FrontPart([s[0]] + rest[0], rest[1..]);
      FrontPart(rest[0], rest[1..]);
      assert rest == [rest[0]] + rest[1..];
    } else {
      assert s == [s[0]] && Split(s[1..], '-') == [""];
    }
  }

  lemma FrontPart(first: string, rest: Parts)
    ensures NoEmptyPart([first] + rest) <==> first != [] && NoEmptyPart(rest)
  {
    assert forall i :: 0 <= i < |rest| ==> ([first] + rest)[i + 1] == rest[i];
    if NoEmptyPart([first] + rest) { assert ([first] + rest)[0] == first; }
  }

  lemma TidyAfterHyphen(s: string)
    requires |s| > 1 && s[0] != '-' && s[1] == '-'
    ensures Tidy(s) <==> Tidy(s[2..])
  {
    assert forall i :: 2 <= i < |s| ==> s[i] == s[2..][i - 2];
  }

  lemma TidyAfterLetter(s: string)
    requires |s| > 1 && s[0] != '-' && s[1] != '-'
    ensures Tidy(s) <==> Tidy(s[1..])
  {
    assert forall i :: 1 <= i < |s| ==> s[i] == s[1..][i - 1];
  }

  /** A change id is one or more words of lower-case letters and digits, joined by single hyphens. */
  lemma ChangeIdIff(s: string)
    ensures SafeChangeId(s) <==> exists words :: Hyphenated(s, words)
  {
    TidyIffNoEmptyPart(s);
    JoinSplit(s, '-');
    SplitParts(s, '-');
    if SafeChangeId(s) {
      forall i | 0 <= i < |Split(s, '-')| ensures Word(Split(s, '-')[i]) { PartIsWord(s, Split(s, '-')[i]); }
      assert Hyphenated(s, Split(s, '-'));
    }
    if words :| Hyphenated(s, words) {
      forall i | 0 <= i < |words| ensures '-' !in words[i] { assert Word(words[i]); }
      SplitJoin(words, '-');
      WordsMakeName(words);
    }
  }

  lemma PartIsWord(s: string, part: string)
    requires NameChars(s) && part != [] && '-' !in part && forall c :: c in part ==> c in s
    ensures Word(part)
  {
    forall i | 0 <= i < |part| ensures LowerOrDigit(part[i]) {
      assert part[i] in part;
      var j :| 0 <= j < |s| && s[j] == part[i];
    }
  }

  lemma {:induction false} WordsMakeName(words: Parts)
    requires forall i :: 0 <= i < |words| ==> Word(words[i])
    ensures NameChars(Join(words, '-'))
  {
    if |words| > 1 {
      WordsMakeName(words[1..]);
      assert Word(words[0]);
      assert Join(words, '-') == words[0] + ("-" + Join(words[1..], '-'));
    } else if |words| == 1 {
      assert Word(words[0]);
    }
  }
}
