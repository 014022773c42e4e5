/**
 The ledger of one wave: the status of every expected task, how many run, and the peak.
 `Ledger` and its functions are the specification; the class is the object that workers and
 the collector share.  Each method runs under the object's lock, so it is one atomic step.
 */
module WaveLedgers {
  import opened Ids
  import opened Numbers
  import opened Options

  datatype Status = Pending | Running | Completed | Failed | TimedOut | Cancelled

  predicate Terminal(s: Status) {
    s.Completed? || s.Failed? || s.TimedOut? || s.Cancelled?
  }

  datatype Entry = Entry(status: Status, error: Option<string>)

  datatype Ledger = Ledger(entries: map<Id, Entry>, active: int, maxActive: int)

  datatype LedgerError =
    | EmptyWaveId
    | BadTaskIds
    | UnknownTask(id: Id)
    | NotTerminal(status: Status)
    | CannotStart(id: Id, from: Status)
    | CannotFinish(id: Id, from: Status)

  function WithStatus(entries: map<Id, Entry>, s: Status): set<Id> {
    set x | x in entries && entries[x].status == s
  }

  function AllPending(ids: seq<Id>): map<Id, Entry> {
    map x | x in ids :: Entry(Pending, None)
  }

  predicate CanStart(l: Ledger, id: Id) {
    id in l.entries && l.entries[id].status == Pending
  }

  predicate CanFinish(l: Ledger, id: Id) {
    id in l.entries && !Terminal(l.entries[id].status)
  }

  function Started(l: Ledger, id: Id): Ledger
    requires CanStart(l, id)
  {
    Ledger(l.entries[id := l.entries[id].(status := Running)], l.active + 1, Max(l.maxActive, l.active + 1))
  }

  function Finished(l: Ledger, id: Id, status: Status, error: Option<string>): Ledger
    requires CanFinish(l, id) && Terminal(status)
  {
    var wasRunning := l.entries[id].status == Running;
    Ledger(l.entries[id := Entry(status, error)], if wasRunning then l.active - 1 else l.active, l.maxActive)
  }

  predicate AllTerminal(l: Ledger) {
    forall x :: x in l.entries ==> Terminal(l.entries[x].status)
  }

  /** The running count is the number of running entries, and the peak bounds it. */
  ghost predicate Consistent(l: Ledger) {
    && l.active == |WithStatus(l.entries, Running)|
    && l.active <= l.maxActive <= |l.entries|
  }

  lemma InitiallyConsistent(ids: seq<Id>)
    ensures Consistent(Ledger(AllPending(ids), 0, 0))
  {
    assert WithStatus(AllPending(ids), Running) == {};
  }

  lemma RunningAtMostAll(entries: map<Id, Entry>)
    ensures |WithStatus(entries, Running)| <= |entries|
  {
    assert WithStatus(entries, Running) <= entries.Keys;
    SubsetSize(WithStatus(entries, Running), entries.Keys);
  }

  lemma StartKeepsConsistent(l: Ledger, id: Id)
    requires Consistent(l) && CanStart(l, id)
    ensures Consistent(Started(l, id)) && Started(l, id).entries.Keys == l.entries.Keys
  {
    var l' := Started(l, id);
    assert l'.entries.Keys == l.entries.Keys;
    assert |l'.entries| == |l'.entries.Keys| && |l.entries| == |l.entries.Keys|;
    assert WithStatus(l'.entries, Running) == WithStatus(l.entries, Running) + {id};
    RunningAtMostAll(l'.entries);
  }

  lemma FinishKeepsConsistent(l: Ledger, id: Id, status: Status, error: Option<string>)
    requires Consistent(l) && CanFinish(l, id) && Terminal(status)
    ensures Consistent(Finished(l, id, status, error)) && Finished(l, id, status, error).entries.Keys == l.entries.Keys
  {
    var l' := Finished(l, id, status, error);
    assert l'.entries.Keys == l.entries.Keys;
    assert |l'.entries| == |l'.entries.Keys| && |l.entries| == |l.entries.Keys|;
    assert WithStatus(l'.entries, Running) == WithStatus(l.entries, Running) - {id};
  }

  /** What `__post_init__` accepts. */
  ghost predicate Creatable(waveId: string, taskIds: seq<Id>) {
    waveId != "" && taskIds != [] && Distinct(taskIds)
  }

  /** The shared object; its times are not part of this model. */
  class WaveLedger {
    const waveId: string
    const taskIds: seq<Id>
    var entries: map<Id, Entry>
    var activeCount: int
    var maxActive: int

    ghost predicate Valid()
      reads this
    {
      Creatable(waveId, taskIds) && entries.Keys == Elements(taskIds) && Consistent(State())
    }

    ghost function State(): Ledger
      reads this
    {
      Ledger(entries, activeCount, maxActive)
    }

    constructor (waveId: string, taskIds: seq<Id>)
      requires Creatable(waveId, taskIds)
      ensures Valid() && State() == Ledger(AllPending(taskIds), 0, 0)
      ensures this.waveId == waveId && this.taskIds == taskIds
    {
      this.waveId := waveId;
      this.taskIds := taskIds;
      entries := AllPending(taskIds);
      activeCount := 0;
      maxActive := 0;
      new;
      InitiallyConsistent(taskIds);
    }

    /** `__post_init__`: the checks that precede construction. */
    static method Create(waveId: string, taskIds: seq<Id>) returns (r: Result<WaveLedger, LedgerError>)
      ensures r.Ok? <==> Creatable(waveId, taskIds)
      ensures r.Ok? ==> fresh(r.value) && r.value.Valid() && r.value.State() == Ledger(AllPending(taskIds), 0, 0)
      ensures r.Ok? ==> r.value.waveId == waveId && r.value.taskIds == taskIds
      ensures r.Err? ==> r.error == if waveId == "" then EmptyWaveId else BadTaskIds
    {
      if waveId == "" {
        return Err(EmptyWaveId);
      }
      ElementsSize(taskIds);
      if taskIds == [] || |Elements(taskIds)| != |taskIds| {
        return Err(BadTaskIds);
      }
      var ledger := new WaveLedger(waveId, taskIds);
      r := Ok(ledger);
    }

    /** The ids with a given status, in task order. */
    function IdsWithStatus(s: Status): (r: seq<Id>)
      reads this
    {
      Select(taskIds, entries, s)
    }

    method Start(taskId: Id) returns (r: Result<(), LedgerError>)
      requires Valid()
      modifies this
      ensures Valid()
      ensures r.Ok? <==> CanStart(old(State()), taskId)
      ensures r.Err? ==>
        r.error == if taskId in entries then CannotStart(taskId, entries[taskId].status) else UnknownTask(taskId)
      ensures State() == if r.Ok? then Started(old(State()), taskId) else old(State())
    {
      if taskId !in entries {
        return Err(UnknownTask(taskId));
      }
      var entry := entries[taskId];
      if entry.status != Pending {
        return Err(CannotStart(taskId, entry.status));
      }
      StartKeepsConsistent(State(), taskId);
      entries := entries[taskId := entry.(status := Running)];
      activeCount := activeCount + 1;
      maxActive := Max(maxActive, activeCount);
      r := Ok(());
    }

    method Finish(taskId: Id, status: Status, error: Option<string>) returns (r: Result<(), LedgerError>)
      requires Valid()
      modifies this
      ensures Valid()
      ensures r.Ok? <==> Terminal(status) && CanFinish(old(State()), taskId)
      ensures r.Err? ==>
        r.error == if taskId !in entries then UnknownTask(taskId)
                   else if !Terminal(status) then NotTerminal(status)
                   else CannotFinish(taskId, entries[taskId].status)
      ensures State() == if r.Ok? then Finished(old(State()), taskId, status, error) else old(State())
    {
      if taskId !in entries {
        return Err(UnknownTask(taskId));
      }
      if !Terminal(status) {
        return Err(NotTerminal(status));
      }
      var entry := entries[taskId];
      if entry.status != Running && entry.status != Pending {
        return Err(CannotFinish(taskId, entry.status));
      }
      FinishKeepsConsistent(State(), taskId, status, error);
      if entry.status == Running {
        activeCount := activeCount - 1;
      }
      entries := entries[taskId := Entry(status, error)];
      r := Ok(());
    }

    /** `cleanup_pending`: close every pending task and leave the others alone. */
    method CleanupPending(status: Status) returns (r: Result<(), LedgerError>)
      requires Valid()
      modifies this
      ensures Valid()
      ensures r.Ok? <==> Terminal(status)
      ensures r.Err? ==> State() == old(State()) && r.error == NotTerminal(status)
      ensures r.Ok? ==> activeCount == old(activeCount) && maxActive == old(maxActive)
      ensures r.Ok? ==> forall x :: x in entries ==>
        entries[x] == if old(entries)[x].status == Pending then Entry(status, None) else old(entries)[x]
    {
      if !Terminal(status) {
        return Err(NotTerminal(status));
      }
      var pending := IdsWithStatus(Pending);
      SelectMembers(taskIds, entries, Pending);
      for i := 0 to |pending|
        invariant Valid() && activeCount == old(activeCount) && maxActive == old(maxActive)
        invariant ClosedUpTo(old(entries), entries, pending, i, status)
      {
        CloseNext(old(entries), entries, pending, i, status);
        r := Finish(pending[i], status, None);
      }
      r := Ok(());
    }
  }

  /** The first `n` of `pending` are closed, everything else is as before. */
  ghost predicate ClosedUpTo(before: map<Id, Entry>, now: map<Id, Entry>, pending: seq<Id>, n: nat, status: Status)
    requires n <= |pending|
  {
    && now.Keys == before.Keys
    && forall x :: x in before ==> now[x] == if x in pending[..n] then Entry(status, None) else before[x]
  }

  lemma CloseNext(before: map<Id, Entry>, now: map<Id, Entry>, pending: seq<Id>, n: nat, status: Status)
    requires n < |pending| && Distinct(pending) && pending[n] in before && ClosedUpTo(before, now, pending, n, status)
    ensures now[pending[n]] == before[pending[n]]
    ensures ClosedUpTo(before, now[pending[n] := Entry(status, None)], pending, n + 1, status)
  {
    assert pending[..n + 1] == pending[..n] + [pending[n]];
  }

  function Select(ids: seq<Id>, entries: map<Id, Entry>, s: Status): seq<Id> {
    if ids == [] then []
    else
      var n := |ids| - 1;
      Select(ids[..n], entries, s) + if ids[n] in entries && entries[ids[n]].status == s then [ids[n]] else []
  }

  lemma {:induction false} SelectMembers(ids: seq<Id>, entries: map<Id, Entry>, s: Status)
    ensures forall x :: x in Select(ids, entries, s) <==> x in ids && x in entries && entries[x].status == s
    ensures Distinct(ids) ==> Distinct(Select(ids, entries, s))
  {
    if ids != [] {
      var n := |ids| - 1;
      SelectMembers(ids[..n], entries, s);
      assert ids == ids[..n] + [ids[n]];
    }
  }

  lemma {:induction false} SubsetSize<T>(a: set<T>, b: set<T>)
    requires a <= b
    ensures |a| <= |b|
  {
    if a != {} {
      var x :| x in a;
      SubsetSize(a - {x}, b - {x});
    }
  }

  /** `len(set(ids)) == len(ids)` says that no id repeats. */
  lemma {:induction false} ElementsSize(s: seq<Id>)
    ensures |Elements(s)| <= |s|
    ensures |Elements(s)| == |s| <==> Distinct(s)
  {
    if s != [] {
      var n := |s| - 1;
      ElementsSize(s[..n]);
      assert s == s[..n] + [s[n]];
      assert Elements(s) == Elements(s[..n]) + {s[n]};
      if s[n] in s[..n] {
        assert Elements(s) == Elements(s[..n]);
      }
    }
  }
}
