/**
 The ledger counts a task as running until its outcome is collected, so the reported
 parallelism can exceed `max_parallel`: it stays within that bound in every run exactly when
 there are no more tasks than the bound allows.
 */
module WaveOvershoot {
  import opened WaveExecution
  import opened WaveTheorems
  import opened WaveReach

  lemma ReachableBound(c: Config, s: Run)
    requires Reachable(c, s)
    ensures s.ledger.maxActive <= |c.ids|
  {
    var tr :| Execution(c, tr) && tr[|tr| - 1] == s;
    PeakOverRun(c, tr, |tr| - 1);
  }

  /** However few workers there are, some run reports all tasks as running at once. */
  lemma AllTasksCanCount(c: Config) returns (s: Run)
    requires ValidConfig(c)
    ensures Reachable(c, s) && s.ledger.maxActive == |c.ids|
  {
    s := PileUp(c, |c.ids|);
  }

  /** Every run reports at most `max_parallel` exactly when there are at most that many tasks. */
  lemma ReportFitsPoolIff(c: Config)
    requires ValidConfig(c)
    ensures (forall s :: Reachable(c, s) ==> s.ledger.maxActive <= c.maxParallel) <==> |c.ids| <= c.maxParallel
  {
    forall s | Reachable(c, s) ensures s.ledger.maxActive <= |c.ids| { ReachableBound(c, s); }
    var peak := AllTasksCanCount(c);
  }

  const PAIR := Config(["a", "b"], 1, false, false)

  /** Two tasks on one worker: a reported peak of two. */
  lemma ReportedParallelismCanExceedPool() returns (s: Run)
    ensures Reachable(PAIR, s) && PAIR.maxParallel == 1 && s.ledger.maxActive == 2
  {
    assert PAIR.ids[0] != PAIR.ids[1];
    s := AllTasksCanCount(PAIR);
  }
}
