/** Runs built step by step: how a wave reaches its extreme and its ordinary ends. */
module WaveReach {
  import opened Ids
  import opened Options
  import opened WaveLedgers
  import opened WaveExecution
  import opened WaveInvariant
  import opened WaveTheorems
  import opened WaveProgress

  /** Some run of the wave ends in this state. */
  ghost predicate Reachable(c: Config, s: Run) {
    exists tr :: Execution(c, tr) && tr[|tr| - 1] == s
  }

  lemma ReachInit(c: Config)
    requires ValidConfig(c)
    ensures Reachable(c, Init(c))
  {
    assert Execution(c, [Init(c)]) && [Init(c)][|[Init(c)]| - 1] == Init(c);
  }

  lemma ReachMore(c: Config, s: Run, step: Step)
    requires Reachable(c, s) && Enabled(c, s, step)
    ensures Reachable(c, Apply(c, s, step))
  {
    var tr :| Execution(c, tr) && tr[|tr| - 1] == s;
    ExtendRun(c, tr, step);
    var tr' := tr + [Apply(c, s, step)];
    assert Execution(c, tr') && tr'[|tr'| - 1] == Apply(c, s, step);
  }

  lemma ReachableInv(c: Config, s: Run)
    requires Reachable(c, s)
    ensures Inv(c, s)
  {
    var tr :| Execution(c, tr) && tr[|tr| - 1] == s;
    ExecutionInv(c, tr, |tr| - 1);
  }

  // ---- every task submitted ----

  /** The first `k` tasks are queued and nothing has started. */
  ghost predicate Submitted(c: Config, s: Run, k: nat)
    requires k <= |c.ids|
  {
    && Reachable(c, s) && s.phase == Submitting(k) && !s.timedOut && s.ledger == Ledger(AllPending(c.ids), 0, 0)
    && s.collected == {} && s.futures.Keys == Elements(c.ids[..k])
    && forall t :: t in s.futures ==> s.futures[t] == Queued
  }

  lemma {:induction false} SubmitFirst(c: Config, k: nat) returns (s: Run)
    requires ValidConfig(c) && k <= |c.ids|
    ensures Submitted(c, s, k)
  {
    if k == 0 {
      s := Init(c);
      ReachInit(c);
    } else {
      var s0 := SubmitFirst(c, k - 1);
      NewId(c.ids, k - 1);
      ReachMore(c, s0, Submit);
      s := Apply(c, s0, Submit);
    }
  }

  // ---- every task dispatched before any outcome is collected ----

  /** The first `k` tasks have been dispatched and are done, the others are queued, none is collected. */
  ghost predicate Piled(c: Config, s: Run, k: nat) {
    && Reachable(c, s) && s.phase == Submitting(|c.ids|) && !s.timedOut && s.futures.Keys == Elements(c.ids)
    && (forall i :: 0 <= i < |c.ids| ==> c.ids[i] in s.futures)
    && (forall i :: 0 <= i < |c.ids| ==> if i < k then s.futures[c.ids[i]].Done? else s.futures[c.ids[i]] == Queued)
    && (forall i :: k <= i < |c.ids| ==> CanStart(s.ledger, c.ids[i]))
    && s.ledger.active == k && s.ledger.maxActive == k && s.collected == {}
  }

  /** A worker takes one queued task through its dispatch. */
  lemma RunTask(c: Config, s: Run, t: Id) returns (s': Run)
    requires ValidConfig(c) && Reachable(c, s) && Fut(s, t) == Some(Queued) && CanStart(s.ledger, t)
    requires Busy(s) == {}
    ensures Reachable(c, s') && s'.phase == s.phase && s'.timedOut == s.timedOut && s'.collected == s.collected
    ensures s'.futures == s.futures[t := Done(Returned(Other))] && s'.ledger == Started(s.ledger, t)
  {
    ReachMore(c, s, Pick(t));
    var s1 := Apply(c, s, Pick(t));
    ReachMore(c, s1, StartTask(t));
    var s2 := Apply(c, s1, StartTask(t));
    ReachMore(c, s2, Complete(t, Returned(Other)));
    s' := Apply(c, s2, Complete(t, Returned(Other)));
  }

  lemma {:induction false} PileUp(c: Config, k: nat) returns (s: Run)
    requires ValidConfig(c) && k <= |c.ids|
    ensures Piled(c, s, k)
  {
    if k == 0 {
      s := SubmitFirst(c, |c.ids|);
      TakeAll(c.ids);
      assert forall i :: 0 <= i < |c.ids| ==> c.ids[i] in Elements(c.ids);
    } else {
      var s0 := PileUp(c, k - 1);
      NobodyIsBusy(c, s0, k - 1);
      s := RunTask(c, s0, c.ids[k - 1]);
      PileOne(c, s0, s, k - 1);
    }
  }

  lemma NobodyIsBusy(c: Config, s: Run, k: nat)
    requires Piled(c, s, k)
    ensures Busy(s) == {}
  {
    forall t | t in s.futures ensures s.futures[t].Done? || s.futures[t] == Queued {
      assert t in Elements(c.ids);
    }
  }

  lemma PileOne(c: Config, s: Run, s': Run, k: nat)
    requires Distinct(c.ids) && Piled(c, s, k) && k < |c.ids| && Reachable(c, s')
    requires s'.phase == s.phase && s'.timedOut == s.timedOut && s'.collected == s.collected
    requires s'.futures == s.futures[c.ids[k] := Done(Returned(Other))] && s'.ledger == Started(s.ledger, c.ids[k])
    ensures Piled(c, s', k + 1)
  {}

  // ---- every outcome collected ----

  ghost predicate Gathered(c: Config, s: Run, k: nat)
    requires k <= |c.ids|
  {
    && Reachable(c, s) && s.phase == Collecting && !s.timedOut && s.collected == Elements(c.ids[..k])
    && s.ledger.maxActive == |c.ids|
    && forall i :: 0 <= i < |c.ids| ==> FinishedFuture(s, c.ids[i])
  }

  lemma GatherNone(c: Config) returns (s: Run)
    requires ValidConfig(c)
    ensures Gathered(c, s, 0)
  {
    var s0 := PileUp(c, |c.ids|);
    ReachMore(c, s0, BeginCollecting);
    s := Apply(c, s0, BeginCollecting);
  }

  lemma GatherOne(c: Config, s: Run, k: nat) returns (s': Run)
    requires ValidConfig(c) && k < |c.ids| && Gathered(c, s, k)
    ensures Gathered(c, s', k + 1)
  {
    var t := c.ids[k];
    ReachableInv(c, s);
    NewId(c.ids, k);
    MainFinishesAreAccepted(c, s);
    ReachMore(c, s, Collect(t));
    s' := Apply(c, s, Collect(t));
  }

  lemma {:induction false} Gather(c: Config, k: nat) returns (s: Run)
    requires ValidConfig(c) && k <= |c.ids|
    ensures Gathered(c, s, k)
  {
    if k == 0 {
      s := GatherNone(c);
    } else {
      var s0 := Gather(c, k - 1);
      s := GatherOne(c, s0, k - 1);
    }
  }

  // ---- closing ----

  /** From the join on with nothing running, the main thread goes straight to the close. */
  lemma CloseFromJoin(c: Config, s: Run) returns (s': Run)
    requires Reachable(c, s) && s.phase == Joining && Active(c, s) == []
    ensures Reachable(c, s') && s'.phase == Closed(AllTerminal(s.ledger))
    ensures s'.ledger == s.ledger && s'.timedOut == s.timedOut && s'.cleanup == s.cleanup
  {
    ReachMore(c, s, Join);
    var s1 := Apply(c, s, Join);
    ReachMore(c, s1, Shutdown);
    var s2 := Apply(c, s1, Shutdown);
    ReachMore(c, s2, Close);
    s' := Apply(c, s2, Close);
  }

  lemma JoinClean(c: Config) returns (s: Run)
    requires ValidConfig(c)
    ensures Reachable(c, s) && s.phase == Joining && !s.timedOut && s.ledger.maxActive == |c.ids|
    ensures AllTerminal(s.ledger)
  {
    var s0 := Gather(c, |c.ids|);
    TakeAll(c.ids);
    ReachableInv(c, s0);
    CollectedIsTerminal(c, s0);
    ReachMore(c, s0, EndCollecting);
    s := Apply(c, s0, EndCollecting);
  }

  /** Every wave can run to its close without a timeout, and report all its tasks as running at once. */
  lemma CleanCloseExists(c: Config) returns (s: Run)
    requires ValidConfig(c)
    ensures Reachable(c, s) && s.phase == Closed(true) && !s.timedOut && s.ledger.maxActive == |c.ids|
  {
    var s0 := JoinClean(c);
    NobodyRuns(c, s0);
    s := CloseFromJoin(c, s0);
  }

  // ---- a timeout before any worker starts ----

  /** The timeout loop has closed the first `i` tasks, none of which was ever picked up. */
  ghost predicate Dropped(c: Config, s: Run, i: nat) {
    && Reachable(c, s) && s.phase == TimingOut(i, AskDone) && s.timedOut && s.ledger.active == 0
    && forall j :: i <= j < |c.ids| ==> Fut(s, c.ids[j]) == Some(Queued) && CanStart(s.ledger, c.ids[j])
  }

  lemma StartDropping(c: Config) returns (s: Run)
    requires ValidConfig(c) && c.hasTimeout
    ensures Dropped(c, s, 0)
  {
    var s0 := PileUp(c, 0);
    ReachMore(c, s0, BeginCollecting);
    var s1 := Apply(c, s0, BeginCollecting);
    assert c.ids[0] in Elements(c.ids);
    ReachMore(c, s1, Timeout);
    s := Apply(c, s1, Timeout);
  }

  lemma DropOne(c: Config, s: Run, i: nat) returns (s': Run)
    requires ValidConfig(c) && i < |c.ids| && Dropped(c, s, i)
    ensures Dropped(c, s', i + 1)
  {
    ReachMore(c, s, TimeoutAction);
    var s1 := Apply(c, s, TimeoutAction);
    ReachMore(c, s1, TimeoutAction);
    var s2 := Apply(c, s1, TimeoutAction);
    ReachMore(c, s2, TimeoutAction);
    var s3 := Apply(c, s2, TimeoutAction);
    ReachMore(c, s3, TimeoutAction);
    s' := Apply(c, s3, TimeoutAction);
  }

  lemma {:induction false} Drop(c: Config, i: nat) returns (s: Run)
    requires ValidConfig(c) && c.hasTimeout && i <= |c.ids|
    ensures Dropped(c, s, i)
  {
    if i == 0 {
      s := StartDropping(c);
    } else {
      var s0 := Drop(c, i - 1);
      s := DropOne(c, s0, i - 1);
    }
  }

  /** With a timeout configured, a wave can time out, have nothing running at the join, and return. */
  lemma IdleTimeoutReturns(c: Config) returns (s: Run)
    requires ValidConfig(c) && c.hasTimeout
    ensures Reachable(c, s) && s.phase == Closed(true) && s.timedOut && s.cleanup == Required
  {
    var s0 := Drop(c, |c.ids|);
    ReachMore(c, s0, EndTimeout);
    var s1 := Apply(c, s0, EndTimeout);
    ReachableInv(c, s1);
    NobodyRuns(c, s1);
    SettledAndIdle(c, s1);
    s := CloseFromJoin(c, s1);
  }

  lemma SettledAndIdle(c: Config, s: Run)
    requires Inv(c, s) && Settled(c, s) && WithStatus(s.ledger.entries, Running) == {}
    ensures AllTerminal(s.ledger)
  {
    forall t | t in s.ledger.entries ensures Terminal(StatusOf(s, t)) {
      assert t in Elements(c.ids);
      assert t !in WithStatus(s.ledger.entries, Running);
    }
  }
}
