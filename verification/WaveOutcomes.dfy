/** What a wave reports for each way a dispatch can end, said of the outcome itself. */
module WaveOutcomes {
  import opened Ids
  import opened Options
  import opened WaveLedgers
  import opened WaveExecution
  import opened WaveTheorems

  // ---- status texts ----

  /** `text` is the lower-case word `word`, up to the case of ASCII letters. */
  ghost predicate Spells(text: string, word: string) {
    && |text| == |word|
    && forall i :: 0 <= i < |text| ==> SameLetter(text[i], word[i])
  }

  predicate SameLetter(c: char, d: char) {
    if 'A' <= c <= 'Z' then d as int == c as int + 32 else c == d
  }

  lemma SpellsIffLower(text: string, word: string)
    ensures Spells(text, word) <==> Lower(text) == word
  {
    assert Spells(text, word) ==> Lower(text) == word by {
      if Spells(text, word) {
        forall i | 0 <= i < |text| ensures Lower(text)[i] == word[i] { assert SameLetter(text[i], word[i]); }
      }
    }
    if Lower(text) == word {
      forall i | 0 <= i < |text| ensures SameLetter(text[i], word[i]) { assert Lower(text)[i] == word[i]; }
    }
  }

  ghost predicate SaysCompleted(text: string) {
    Spells(text, "completed") || Spells(text, "done") || Spells(text, "passed") || Spells(text, "success")
  }

  ghost predicate SaysFailed(text: string) {
    Spells(text, "failed") || Spells(text, "error")
  }

  /** The status text that a worker hands back, if it hands back one. */
  function Given(v: WorkerValue): Option<string> {
    match v
    case Mapping(status, _) => status
    case Text(text) => Some(text)
    case Other => None
  }

  /** The text is one that the executor knows. */
  ghost predicate Known(text: string) {
    SaysCompleted(text) || SaysFailed(text) || Spells(text, "timed_out") || Spells(text, "cancelled")
  }

  lemma AllSpellings(text: string)
    ensures SaysCompleted(text) <==> Lower(text) in {"completed", "done", "passed", "success"}
    ensures SaysFailed(text) <==> Lower(text) in {"failed", "error"}
    ensures Spells(text, "timed_out") <==> Lower(text) == "timed_out"
    ensures Spells(text, "cancelled") <==> Lower(text) == "cancelled"
  {
    SpellsIffLower(text, "completed");
    SpellsIffLower(text, "done");
    SpellsIffLower(text, "passed");
    SpellsIffLower(text, "success");
    SpellsIffLower(text, "failed");
    SpellsIffLower(text, "error");
    SpellsIffLower(text, "timed_out");
    SpellsIffLower(text, "cancelled");
  }

  // ---- what is recorded ----

  /** A returned value counts as this terminal status. */
  ghost predicate CountsAs(v: WorkerValue, s: Status) {
    match Given(v)
    case None => s == Completed
    case Some(text) =>
      match s
      case Completed => SaysCompleted(text)
      case TimedOut => Spells(text, "timed_out")
      case Cancelled => Spells(text, "cancelled")
      case Failed => SaysFailed(text) || !Known(text)
      case _ => false
  }

  /** The worker's own error note, where it gave a known status. */
  ghost predicate OwnError(v: WorkerValue, error: Option<string>) {
    error == if v.Mapping? then v.error else None
  }

  ghost predicate EntryTells(o: Outcome, e: Entry) {
    match o
    case Raised(kind, message) => e == Entry(Failed, Some(kind + ": " + message))
    case Returned(v) =>
      && CountsAs(v, e.status)
      && (Given(v).None? || Known(Given(v).value) ==> OwnError(v, e.error))
      && (Given(v).Some? && !Known(Given(v).value) ==> e.error.Some? && e.error.value != "")
  }

  lemma RecordedTells(o: Outcome)
    ensures EntryTells(o, Recorded(o))
  {
    if o.Returned? {
      if Given(o.value).Some? { AllSpellings(Given(o.value).value); } else { DefaultIsCompleted(o.value); }
    }
  }

  lemma DefaultIsCompleted(v: WorkerValue)
    requires Given(v).None?
    ensures NormalizeOutcome(v) == Ok((Completed, if v.Mapping? then v.error else None))
  {
    assert Lower("completed") == "completed";
  }

  // ---- what a closed wave reports ----

  /** The reported status and error of one task agree with how its dispatch ended. */
  ghost predicate ReportTells(r: WaveResult, t: Id, o: Outcome) {
    && t in r.statuses
    && match o
       case Raised(kind, message) => r.statuses[t] == Failed && t in r.errors && r.errors[t] == kind + ": " + message
       case Returned(v) =>
         && CountsAs(v, r.statuses[t])
         && (Given(v).Some? && !Known(Given(v).value) ==> t in r.errors)
         && (Given(v).None? || Known(Given(v).value) ==>
               var note := if v.Mapping? then v.error else None;
               (t in r.errors <==> note.Some? && note.value != "") && (t in r.errors ==> Some(r.errors[t]) == note))
  }

  /** Without a timeout a closed wave reports every task as its dispatch ended, and no other task. */
  lemma CleanRunReports(c: Config, tr: seq<Run>, n: nat)
    requires Execution(c, tr) && n < |tr| && tr[n].phase.Closed? && !tr[n].timedOut
    ensures forall t :: t in ResultOf(tr[n]).statuses <==> t in c.ids
    ensures forall t :: t in ResultOf(tr[n]).errors ==> t in c.ids
    ensures forall t :: t in c.ids ==>
      FinishedFuture(tr[n], t) && ReportTells(ResultOf(tr[n]), t, tr[n].futures[t].outcome)
  {
    CleanRunRecordsOutcomes(c, tr, n);
    forall t ensures t in tr[n].ledger.entries <==> t in c.ids {
      assert t in tr[n].ledger.entries <==> t in Elements(c.ids);
    }
    forall t | t in c.ids
      ensures FinishedFuture(tr[n], t) && ReportTells(ResultOf(tr[n]), t, tr[n].futures[t].outcome)
    {
      ReportOfEntry(tr[n], t);
    }
  }

  lemma ReportOfEntry(s: Run, t: Id)
    requires RecordsDispatch(s, t)
    ensures ReportTells(ResultOf(s), t, s.futures[t].outcome)
  {
    var o := s.futures[t].outcome;
    RecordedTells(o);
    if o.Raised? { assert (o.kind + ": " + o.message)[|o.kind|] == ':'; }
  }

  /** A dispatch that returned and gave a text for completed, or none. */
  ghost predicate EndedWell(s: Run, t: Id) {
    FinishedFuture(s, t) && s.futures[t].outcome.Returned? &&
    var given := Given(s.futures[t].outcome.value);
    given.None? || SaysCompleted(given.value)
  }

  /** Such a wave reports "passed" exactly if every dispatch returned a text for completed, or none. */
  lemma CleanRunPassesIff(c: Config, tr: seq<Run>, n: nat)
    requires Execution(c, tr) && n < |tr| && tr[n].phase.Closed? && !tr[n].timedOut
    ensures ResultOf(tr[n]).passed <==> forall t :: t in c.ids ==> EndedWell(tr[n], t)
  {
    CleanRunReports(c, tr, n);
    PassedIffCompleted(tr[n]);
    forall t | t in c.ids ensures EndedWell(tr[n], t) <==> ResultOf(tr[n]).statuses[t] == Completed {
      assert ReportTells(ResultOf(tr[n]), t, tr[n].futures[t].outcome);
      var o := tr[n].futures[t].outcome;
      if o.Returned? { CompletedIff(o.value, ResultOf(tr[n]).statuses[t]); }
    }
  }

  lemma PassedIffCompleted(s: Run)
    ensures ResultOf(s).passed <==> forall t :: t in ResultOf(s).statuses ==> ResultOf(s).statuses[t] == Completed
  {
    var r := ResultOf(s);
    forall t ensures t in s.ledger.entries <==> t in r.statuses
      ensures t in r.statuses ==> r.statuses[t] == s.ledger.entries[t].status
    {
    }
  }

  lemma CompletedIff(v: WorkerValue, s: Status)
    requires CountsAs(v, s)
    ensures s == Completed <==> Given(v).None? || SaysCompleted(Given(v).value)
  {
    if Given(v).Some? { AllSpellings(Given(v).value); }
  }
}
