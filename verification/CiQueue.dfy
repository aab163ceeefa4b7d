/** The CI report queue: lock-held regions as atomic steps, the parallel limit, and stop requests that race
    with workers. */
module CiQueue {
  import opened Options

  datatype Status = Pending | Queued | Running | Success | Failed | Stopped

  predicate Live(status: Status) { status.Pending? || status.Queued? || status.Running? }

  datatype Record = Record(status: Status, createdAt: int)

  /** Where a worker that holds a record stands: claimed but not yet in `_run_check`, preparing the workspace,
      running the enforcement, reporting the result, or about to release the record. */
  datatype Phase = Claimed | Preparing | Enforcing | Reporting | Leaving

  datatype Worker = Worker(task: string, phase: Phase)

  datatype State = State(tasks: map<string, Record>, active: set<string>, stopRequested: set<string>,
                         workers: map<nat, Worker>)

  /** What a step reads from outside the process: stored record summaries, and the live in-flight markers. */
  datatype Outside = Outside(summaries: map<string, Record>, markers: bool, live: set<string>)

  /** Stored summaries overlaid with the in-memory records. */
  function Records(s: State, outside: Outside): map<string, Record> { outside.summaries + s.tasks }

  predicate CountsAsActive(s: State, outside: Outside, id: string, record: Record) {
    id in s.active || (record.status == Running && (!outside.markers || id in outside.live))
  }

  function ActiveIds(s: State, outside: Outside, exclude: Option<string>): set<string> {
    set id | id in Records(s, outside) && exclude != Some(id) && CountsAsActive(s, outside, id, Records(s, outside)[id])
  }

  predicate LimitReached(limit: int, s: State, outside: Outside, exclude: Option<string>) {
    limit > 0 && |ActiveIds(s, outside, exclude)| >= limit
  }

  function SetStatus(s: State, id: string, status: Status): State
    requires id in s.tasks
  {
    s.(tasks := s.tasks[id := s.tasks[id].(status := status)])
  }

  /** `_mark_ci_check_claimed`, plus the worker that now holds the record. */
  function MarkClaimed(s: State, id: string, record: Record, worker: nat): State {
    State(s.tasks[id := record.(status := Running)], s.active + {id}, s.stopRequested,
          s.workers[worker := Worker(id, Claimed)])
  }

  function Move(s: State, worker: nat, phase: Phase): State
    requires worker in s.workers
  {
    s.(workers := s.workers[worker := s.workers[worker].(phase := phase)])
  }

  datatype Step =
    | Submit(id: string, createdAt: int)
    | Load(id: string, record: Record)
    | Claim(id: string, outside: Outside, worker: nat)
    | ClaimNext(chosen: Option<string>, outside: Outside, worker: nat)
    | Stop(id: string)
    | Enter(worker: nat)
    | Prepared(worker: nat)
    | Finish(worker: nat, passed: bool)
    | Reported(worker: nat)
    | Raise(worker: nat)
    | Abandon(worker: nat)
    | Leave(worker: nat)
    | Sweep(id: string, live: set<string>)

  predicate Waiting(record: Record) { record.status == Pending || record.status == Queued }

  /** The oldest waiting record, when the limit leaves room and there is one. */
  ghost predicate Chooses(limit: int, s: State, outside: Outside, chosen: Option<string>) {
    var records := Records(s, outside);
    match chosen
    case None => LimitReached(limit, s, outside, None) || forall id :: id in records ==> !Waiting(records[id])
    case Some(id) =>
      && !LimitReached(limit, s, outside, None)
      && id in records && Waiting(records[id])
      && forall other ::
           other in records && Waiting(records[other]) ==> records[id].createdAt <= records[other].createdAt
  }

  /** Of the first `n` listed records: none waits, or `chosen` is the first of those that have waited longest. */
  ghost predicate FirstOfOldest(records: map<string, Record>, listed: seq<string>, n: nat, chosen: Option<string>)
    requires n <= |listed| && forall k :: 0 <= k < |listed| ==> listed[k] in records
  {
    match chosen
    case None => forall j :: 0 <= j < n ==> !Waiting(records[listed[j]])
    case Some(id) => exists k :: 0 <= k < n && listed[k] == id && IsOldest(records, listed, n, k)
  }

  ghost predicate IsOldest(records: map<string, Record>, listed: seq<string>, n: nat, k: nat)
    requires k < n <= |listed| && forall j :: 0 <= j < |listed| ==> listed[j] in records
  {
    var first := records[listed[k]];
    && Waiting(first)
    && (forall j :: 0 <= j < k && Waiting(records[listed[j]]) ==> first.createdAt < records[listed[j]].createdAt)
    && (forall j :: k <= j < n && Waiting(records[listed[j]]) ==> first.createdAt <= records[listed[j]].createdAt)
  }

  ghost predicate Enabled(limit: int, s: State, step: Step) {
    match step
    case Submit(id, _) => id !in s.tasks
    case Load(id, record) => id !in s.tasks && Live(record.status)
    case Claim(id, _, worker) => id in s.tasks && worker !in s.workers
    case ClaimNext(chosen, outside, worker) => worker !in s.workers && Chooses(limit, s, outside, chosen)
    case Stop(id) => id in s.tasks
    case Enter(worker) => worker in s.workers && s.workers[worker].phase == Claimed && s.workers[worker].task in s.tasks
    case Prepared(worker) => worker in s.workers && s.workers[worker].phase == Preparing
    case Finish(worker, _) =>
      worker in s.workers && s.workers[worker].phase == Enforcing && s.workers[worker].task in s.tasks
    case Reported(worker) => worker in s.workers && s.workers[worker].phase == Reporting
    case Raise(worker) => worker in s.workers && s.workers[worker].phase != Leaving && s.workers[worker].task in s.tasks
    case Abandon(worker) => worker in s.workers
    case Leave(worker) => worker in s.workers && s.workers[worker].phase == Leaving
    case Sweep(id, _) => id in s.tasks
  }

  function After(limit: int, s: State, step: Step): State
    requires Enabled(limit, s, step)
  {
    match step
    case Submit(id, createdAt) => s.(tasks := s.tasks[id := Record(Queued, createdAt)])
    case Load(id, record) => s.(tasks := s.tasks[id := record])
    case Claim(id, outside, worker) =>
      if !Live(s.tasks[id].status) then s
      else if LimitReached(limit, s, outside, Some(id)) then SetStatus(s, id, Pending)
      else MarkClaimed(s, id, s.tasks[id], worker)
    case ClaimNext(chosen, outside, worker) =>
      if chosen == None then s else MarkClaimed(s, chosen.value, Records(s, outside)[chosen.value], worker)
    case Stop(id) =>
      if !Live(s.tasks[id].status) then s
      else SetStatus(s, id, Stopped).(stopRequested := s.stopRequested + {id}, active := s.active - {id})
    case Enter(worker) =>
      var id := s.workers[worker].task;
      if id in s.stopRequested then Move(s, worker, Leaving) else Move(SetStatus(s, id, Running), worker, Preparing)
    case Prepared(worker) =>
      if s.workers[worker].task in s.stopRequested then Move(s, worker, Leaving) else Move(s, worker, Enforcing)
    case Finish(worker, passed) =>
      var id := s.workers[worker].task;
      if id in s.stopRequested then Move(s, worker, Leaving)
      else Move(SetStatus(s, id, if passed then Success else Failed), worker, Reporting)
    case Reported(worker) => Move(s, worker, Leaving)
    case Raise(worker) =>
      var id := s.workers[worker].task;
      if id in s.stopRequested then Move(s, worker, Leaving) else Move(SetStatus(s, id, Failed), worker, Leaving)
    case Abandon(worker) => Move(s, worker, Leaving)
    case Leave(worker) =>
      var id := s.workers[worker].task;
      State(s.tasks, s.active - {id}, s.stopRequested - {id}, s.workers - {worker})
    case Sweep(id, live) =>
      if s.tasks[id].status == Running && id !in s.active && id !in live then SetStatus(s, id, Failed) else s
  }

  // ---- the service ----

  lemma ListedOneMore(records: map<string, Record>, listed: seq<string>, n: nat, chosen: Option<string>)
    requires n < |listed| && (forall k :: 0 <= k < |listed| ==> listed[k] in records)
    requires FirstOfOldest(records, listed, n, chosen)
    ensures chosen.Some? ==> chosen.value in records
    ensures var next := records[listed[n]];
      var older := Waiting(next) && (chosen == None || next.createdAt < records[chosen.value].createdAt);
      FirstOfOldest(records, listed, n + 1, if older then Some(listed[n]) else chosen)
  {
    var next := records[listed[n]];
    if Waiting(next) && (chosen == None || next.createdAt < records[chosen.value].createdAt) {
      assert IsOldest(records, listed, n + 1, n);
    } else if chosen.Some? {
      var k :| 0 <= k < n && listed[k] == chosen.value && IsOldest(records, listed, n, k);
      assert IsOldest(records, listed, n + 1, k);
    }
  }

  lemma OldestOfAll(records: map<string, Record>, listed: seq<string>, chosen: Option<string>)
    requires forall id :: id in listed <==> id in records
    requires FirstOfOldest(records, listed, |listed|, chosen)
    ensures chosen == None ==> forall id :: id in records ==> !Waiting(records[id])
    ensures chosen.Some? ==> chosen.value in records && Waiting(records[chosen.value])
    ensures chosen.Some? ==> forall other ::
      other in records && Waiting(records[other]) ==> records[chosen.value].createdAt <= records[other].createdAt
  {
    forall other | other in records
      ensures chosen == None ==> !Waiting(records[other])
      ensures chosen.Some? && Waiting(records[other]) ==> records[chosen.value].createdAt <= records[other].createdAt
    {
      var j :| 0 <= j < |listed| && listed[j] == other;
    }
  }


  class ApiTriggerService {
    const limit: int
    var tasks: map<string, Record>
    var active: set<string>
    var stopRequested: set<string>
    ghost var workers: map<nat, Worker>

    ghost function Snapshot(): State
      reads this
    {
      State(tasks, active, stopRequested, workers)
    }

    constructor (limit: int)
      ensures this.limit == limit && Snapshot() == State(map[], {}, {}, map[])
    {
      this.limit, tasks, active, stopRequested, workers := limit, map[], {}, {}, map[];
    }

    method Submit(id: string, createdAt: int)
      requires id !in tasks
      modifies this
      ensures Snapshot() == After(limit, old(Snapshot()), Step.Submit(id, createdAt))
    {
      tasks := tasks[id := Record(Queued, createdAt)];
    }

    /** `_active_ci_check_count_locked`. */
    method ActiveCount(outside: Outside, exclude: Option<string>) returns (count: nat)
      ensures count == |ActiveIds(Snapshot(), outside, exclude)|
    {
      var records := outside.summaries + tasks;
      var activeIds: set<string> := {};
      var rest := records.Keys;
      while rest != {}
        invariant rest <= records.Keys
        invariant activeIds == set id |
            id in records.Keys - rest && exclude != Some(id) && CountsAsActive(Snapshot(), outside, id, records[id])
        decreases rest
      {
        var id :| id in rest;
        rest := rest - {id};
        if exclude == Some(id) { continue; }
        if id in active {
          activeIds := activeIds + {id};
          continue;
        }
        if records[id].status != Running { continue; }
        if !outside.markers || id in outside.live { activeIds := activeIds + {id}; }
      }
      assert activeIds == ActiveIds(Snapshot(), outside, exclude);
      count := |activeIds|;
    }

    method ReportLimitReached(outside: Outside, exclude: Option<string>) returns (reached: bool)
      ensures reached == LimitReached(limit, Snapshot(), outside, exclude)
    {
      if limit <= 0 { return false; }
      var count := ActiveCount(outside, exclude);
      reached := count >= limit;
    }

    method ClaimCiCheck(id: string, outside: Outside, ghost worker: nat) returns (claimed: bool)
      requires id in tasks && worker !in workers
      modifies this
      ensures Snapshot() == After(limit, old(Snapshot()), Claim(id, outside, worker))
      ensures claimed == (Live(old(tasks)[id].status) && !LimitReached(limit, old(Snapshot()), outside, Some(id)))
    {
      if !Live(tasks[id].status) { return false; }
      var reached := ReportLimitReached(outside, Some(id));
      if reached {
        tasks := tasks[id := tasks[id].(status := Pending)];
        return false;
      }
      tasks := tasks[id := tasks[id].(status := Running)];
      active := active + {id};
      workers := workers[worker := Worker(id, Claimed)];
      claimed := true;
    }

    method ClaimNextPending(outside: Outside, listed: seq<string>, ghost worker: nat) returns (chosen: Option<string>)
      requires worker !in workers
      requires forall id :: id in listed <==> id in Records(Snapshot(), outside)
      modifies this
      ensures Chooses(limit, old(Snapshot()), outside, chosen)
      ensures chosen.Some? ==> FirstOfOldest(Records(old(Snapshot()), outside), listed, |listed|, chosen)
      ensures Snapshot() == After(limit, old(Snapshot()), ClaimNext(chosen, outside, worker))
    {
      chosen := None;
      var reached := ReportLimitReached(outside, None);
      if reached { return; }
      var records := outside.summaries + tasks;
      assert forall k :: 0 <= k < |listed| ==> listed[k] in listed;
      for i := 0 to |listed|
        invariant Snapshot() == old(Snapshot())
        invariant FirstOfOldest(records, listed, i, chosen)
      {
        var id := listed[i];
        ListedOneMore(records, listed, i, chosen);
        if Waiting(records[id]) && (chosen == None || records[id].createdAt < records[chosen.value].createdAt) {
          chosen := Some(id);
        }
      }
      OldestOfAll(records, listed, chosen);
      if chosen == None { return; }
      tasks := tasks[chosen.value := records[chosen.value].(status := Running)];
      active := active + {chosen.value};
      workers := workers[worker := Worker(chosen.value, Claimed)];
    }

    /** The lock-held part of `stop_ci_task`; refused on a record that is no longer live. */
    method StopCiTask(id: string) returns (ok: bool)
      requires id in tasks
      modifies this
      ensures Snapshot() == After(limit, old(Snapshot()), Stop(id))
      ensures ok == Live(old(tasks)[id].status)
    {
      if !Live(tasks[id].status) { return false; }
      stopRequested := stopRequested + {id};
      tasks := tasks[id := tasks[id].(status := Stopped)];
      active := active - {id};
      ok := true;
    }

    /** The entry of `_run_check`: the stop check and the move to running. */
    method EnterRunCheck(id: string, ghost worker: nat) returns (proceed: bool)
      requires worker in workers && workers[worker] == Worker(id, Claimed) && id in tasks
      modifies this
      ensures Snapshot() == After(limit, old(Snapshot()), Enter(worker))
      ensures proceed == (id !in stopRequested)
    {
      if id in stopRequested {
        workers := workers[worker := Worker(id, Leaving)];
        return false;
      }
      tasks := tasks[id := tasks[id].(status := Running)];
      workers := workers[worker := Worker(id, Preparing)];
      proceed := true;
    }

    /** The second stop check, after the workspace was prepared. */
    method CheckAfterPrepare(id: string, ghost worker: nat) returns (proceed: bool)
      requires worker in workers && workers[worker] == Worker(id, Preparing)
      modifies `workers
      ensures Snapshot() == After(limit, old(Snapshot()), Prepared(worker))
      ensures proceed == (id !in stopRequested)
    {
      proceed := id !in stopRequested;
      workers := workers[worker := Worker(id, if proceed then Enforcing else Leaving)];
    }

    /** The lock-held completion: a recorded stop wins over the result. */
    method Complete(id: string, passed: bool, ghost worker: nat)
      requires worker in workers && workers[worker] == Worker(id, Enforcing) && id in tasks
      modifies this
      ensures Snapshot() == After(limit, old(Snapshot()), Finish(worker, passed))
    {
      if id in stopRequested {
        workers := workers[worker := Worker(id, Leaving)];
        return;
      }
      tasks := tasks[id := tasks[id].(status := if passed then Success else Failed)];
      workers := workers[worker := Worker(id, Reporting)];
    }

    /** The lock-held part of the exception handler. */
    method FailUnexpectedly(id: string, ghost worker: nat)
      requires worker in workers && workers[worker].task == id && workers[worker].phase != Leaving && id in tasks
      modifies this
      ensures Snapshot() == After(limit, old(Snapshot()), Raise(worker))
    {
      if id !in stopRequested { tasks := tasks[id := tasks[id].(status := Failed)]; }
      workers := workers[worker := Worker(id, Leaving)];
    }

    /** The `finally` block. */
    method Release(id: string, ghost worker: nat)
      requires worker in workers && workers[worker] == Worker(id, Leaving)
      modifies this
      ensures Snapshot() == After(limit, old(Snapshot()), Leave(worker))
    {
      active := active - {id};
      stopRequested := stopRequested - {id};
      workers := workers - {worker};
    }

    method MarkOrphanInterrupted(id: string, live: set<string>)
      requires id in tasks
      modifies this
      ensures Snapshot() == After(limit, old(Snapshot()), Sweep(id, live))
    {
      if tasks[id].status != Running { return; }
      if id in active { return; }
      if id in live { return; }
      tasks := tasks[id := tasks[id].(status := Failed)];
    }
  }

  // ---- every interleaving ----

  /** `states` is a run of `steps` from a fresh service. */
  ghost predicate IsRun(limit: int, states: seq<State>, steps: seq<Step>) {
    && |states| == |steps| + 1 && states[0] == State(map[], {}, {}, map[])
    && Follows(limit, states, steps)
  }

  ghost predicate Follows(limit: int, states: seq<State>, steps: seq<Step>) {
    && |states| == |steps| + 1
    && forall i ::
         0 <= i < |steps| ==> Enabled(limit, states[i], steps[i]) && states[i + 1] == After(limit, states[i], steps[i])
  }

  ghost predicate Invariant(limit: int, s: State) {
    && s.active <= s.tasks.Keys
    && (limit > 0 ==> |s.active| <= limit)
    && (forall id :: id in s.stopRequested ==> id in s.tasks && s.tasks[id].status == Stopped)
  }

  lemma SubsetCardinality<T>(a: set<T>, b: set<T>)
    requires a <= b
    ensures |a| <= |b|
  {
    if a != b {
      assert |b| == |a| + |b - a| by { assert b == a + (b - a); }
    }
  }

  lemma ClaimWithinLimit(limit: int, s: State, outside: Outside, id: string, exclude: Option<string>)
    requires Invariant(limit, s) && exclude in {None, Some(id)}
    requires !LimitReached(limit, s, outside, exclude) && limit > 0
    ensures |s.active + {id}| <= limit
  {
    var others := s.active - {id};
    assert others <= ActiveIds(s, outside, exclude);
    SubsetCardinality(others, ActiveIds(s, outside, exclude));
    assert s.active + {id} == others + {id};
    assert |others + {id}| == |others| + 1;
  }

  lemma WorkerStepKeepsInvariant(limit: int, s: State, step: Step)
    requires Invariant(limit, s) && Enabled(limit, s, step)
    requires step.Enter? || step.Prepared? || step.Finish? || step.Reported? || step.Raise? || step.Abandon?
          || step.Leave?
    ensures Invariant(limit, After(limit, s, step))
  {
    if step.Leave? { SubsetCardinality(s.active - {s.workers[step.worker].task}, s.active); }
  }

  lemma ClaimKeepsInvariant(limit: int, s: State, step: Step)
    requires Invariant(limit, s) && Enabled(limit, s, step) && step.Claim?
    ensures Invariant(limit, After(limit, s, step))
  {
    hide LimitReached, ActiveIds;
    if limit > 0 && Live(s.tasks[step.id].status) && !LimitReached(limit, s, step.outside, Some(step.id)) {
      ClaimWithinLimit(limit, s, step.outside, step.id, Some(step.id));
    }
  }

  lemma ClaimNextKeepsInvariant(limit: int, s: State, step: Step)
    requires Invariant(limit, s) && Enabled(limit, s, step) && step.ClaimNext?
    ensures Invariant(limit, After(limit, s, step))
  {
    hide LimitReached, ActiveIds;
    if limit > 0 && step.chosen.Some? { ClaimWithinLimit(limit, s, step.outside, step.chosen.value, None); }
  }

  lemma StepKeepsInvariant(limit: int, s: State, step: Step)
    requires Invariant(limit, s) && Enabled(limit, s, step)
    ensures Invariant(limit, After(limit, s, step))
  {
    if step.Claim? {
      ClaimKeepsInvariant(limit, s, step);
    } else if step.ClaimNext? {
      ClaimNextKeepsInvariant(limit, s, step);
    } else if step.Stop? {
      SubsetCardinality(s.active - {step.id}, s.active);
    } else if step.Submit? || step.Load? || step.Sweep? {
    } else {
      WorkerStepKeepsInvariant(limit, s, step);
    }
  }

  lemma {:induction false} InvariantHolds(limit: int, states: seq<State>, steps: seq<Step>, i: nat)
    requires IsRun(limit, states, steps) && i < |states|
    ensures Invariant(limit, states[i])
  {
    if i > 0 {
      InvariantHolds(limit, states, steps, i - 1);
      StepKeepsInvariant(limit, states[i - 1], steps[i - 1]);
    }
  }

  /** In every interleaving the active set stays within a positive limit, and a record whose stop request is
      on file is stopped: no completion, failure, claim or sweep has moved it, however many workers hold it. */
  lemma QueueIsSafe(limit: int, states: seq<State>, steps: seq<Step>, i: nat)
    requires IsRun(limit, states, steps) && i < |states|
    ensures limit > 0 ==> |states[i].active| <= limit
    ensures forall id ::
      id in states[i].stopRequested ==> id in states[i].tasks && states[i].tasks[id].status == Stopped
  {
    InvariantHolds(limit, states, steps, i);
  }

  // ---- what each step records ----

  /** The record as this process sees it: its own, or else the stored summary. */
  function Seen(s: State, outside: Outside, id: string): Option<Record> {
    if id in s.tasks then Some(s.tasks[id]) else if id in outside.summaries then Some(outside.summaries[id]) else None
  }

  /** A record that takes up a place: it is active here, or it runs and nothing says that its runner is gone. */
  predicate TakesPlace(s: State, outside: Outside, id: string) {
    && Seen(s, outside, id).Some?
    && (id in s.active
        || (Seen(s, outside, id).value.status == Running && (outside.markers ==> id in outside.live)))
  }

  /** The records that take up a place, without the excluded one, are as many as a positive limit allows. */
  ghost predicate Crowded(limit: int, s: State, outside: Outside, exclude: Option<string>) {
    limit > 0 && exists places: set<string> :: |places| == limit && AllTakePlace(s, outside, exclude, places)
  }

  ghost predicate AllTakePlace(s: State, outside: Outside, exclude: Option<string>, places: set<string>) {
    forall id :: id in places ==> TakesPlace(s, outside, id) && exclude != Some(id)
  }

  lemma {:induction false} SubsetOfSize<T>(s: set<T>, n: nat) returns (part: set<T>)
    requires n <= |s|
    ensures part <= s && |part| == n
    decreases |s|
  {
    if n == |s| {
      part := s;
    } else {
      var x :| x in s;
      part := SubsetOfSize(s - {x}, n);
    }
  }

  lemma LimitIsCrowded(limit: int, s: State, outside: Outside, exclude: Option<string>)
    ensures LimitReached(limit, s, outside, exclude) <==> Crowded(limit, s, outside, exclude)
  {
    var ids := ActiveIds(s, outside, exclude);
    assert forall id :: id in ids <==> TakesPlace(s, outside, id) && exclude != Some(id);
    if LimitReached(limit, s, outside, exclude) {
      var places := SubsetOfSize(ids, limit);
      assert AllTakePlace(s, outside, exclude, places);
    }
    if Crowded(limit, s, outside, exclude) {
      var places :| |places| == limit && AllTakePlace(s, outside, exclude, places);
      SubsetCardinality(places, ids);
    }
  }

  /** A claim succeeds exactly on a record that waits or runs, while the others leave a place; without a place the
      record is marked pending, and otherwise nothing happens. */
  lemma ClaimRecords(limit: int, s: State, id: string, outside: Outside, worker: nat)
    requires id in s.tasks && worker !in s.workers
    ensures var t := After(limit, s, Claim(id, outside, worker));
      if s.tasks[id].status !in {Pending, Queued, Running} then t == s
      else if Crowded(limit, s, outside, Some(id)) then
        t == State(s.tasks[id := Record(Pending, s.tasks[id].createdAt)], s.active, s.stopRequested, s.workers)
      else
        t == State(s.tasks[id := Record(Running, s.tasks[id].createdAt)], s.active + {id}, s.stopRequested,
                   s.workers[worker := Worker(id, Claimed)])
  {
    hide LimitReached, Crowded;
    LimitIsCrowded(limit, s, outside, Some(id));
  }

  /** The drain takes nothing exactly when there is no place or nothing waits; otherwise it claims a waiting record that
      none is older than. */
  lemma DrainTakes(limit: int, s: State, outside: Outside, chosen: Option<string>, worker: nat)
    requires Enabled(limit, s, ClaimNext(chosen, outside, worker))
    ensures chosen == None <==> Crowded(limit, s, outside, None) || forall id ::
      Seen(s, outside, id).Some? ==> Seen(s, outside, id).value.status !in {Pending, Queued}
    ensures chosen == None ==> After(limit, s, ClaimNext(chosen, outside, worker)) == s
    ensures chosen.Some? ==>
      && var id := chosen.value;
      && Seen(s, outside, id).Some? && Seen(s, outside, id).value.status in {Pending, Queued}
      && (forall other :: Seen(s, outside, other).Some? && Seen(s, outside, other).value.status in {Pending, Queued} ==>
            Seen(s, outside, id).value.createdAt <= Seen(s, outside, other).value.createdAt)
      && After(limit, s, ClaimNext(chosen, outside, worker))
           == State(s.tasks[id := Record(Running, Seen(s, outside, id).value.createdAt)], s.active + {id},
                    s.stopRequested, s.workers[worker := Worker(id, Claimed)])
  {
    hide LimitReached, Crowded;
    LimitIsCrowded(limit, s, outside, None);
    forall id
      ensures id in Records(s, outside) <==> Seen(s, outside, id).Some?
      ensures id in Records(s, outside) ==> Records(s, outside)[id] == Seen(s, outside, id).value
    {
    }
  }

  /** The record takes this status in the step. */
  predicate TurnsTo(s: State, t: State, id: string, status: Status) {
    id in t.tasks && t.tasks[id].status == status && !(id in s.tasks && s.tasks[id].status == status)
  }

  /** A worker in this phase holds the record, and no stop is on file for it. */
  predicate Unstopped(s: State, worker: nat, id: string, phases: set<Phase>) {
    Holder(s, worker, id) && s.workers[worker].phase in phases && id !in s.stopRequested
  }

  /** Which step a new status tells of. */
  ghost predicate Tells(limit: int, s: State, step: Step, id: string, status: Status) {
    match status
    case Success => step.Finish? && step.passed && Unstopped(s, step.worker, id, {Enforcing})
    case Failed =>
      || (step.Finish? && !step.passed && Unstopped(s, step.worker, id, {Enforcing}))
      || (step.Raise? && Unstopped(s, step.worker, id, {Claimed, Preparing, Enforcing, Reporting}))
      || (step.Sweep? && step.id == id && id in s.tasks && s.tasks[id].status == Running
          && id !in s.active && id !in step.live)
    case Stopped => step == Stop(id) && id in s.tasks && s.tasks[id].status in {Pending, Queued, Running}
    case Pending =>
      || (step.Claim? && step.id == id && Crowded(limit, s, step.outside, Some(id)))
      || (step.Load? && step.id == id)
    case Queued => (step.Submit? || step.Load?) && step.id == id
    case Running =>
      || (step.Claim? && step.id == id && !Crowded(limit, s, step.outside, Some(id)))
      || (step.ClaimNext? && step.chosen == Some(id) && !Crowded(limit, s, step.outside, None))
      || (step.Enter? && Unstopped(s, step.worker, id, {Claimed}))
      || (step.Load? && step.id == id)
  }

  /** In every run a record's new status tells what happened to it: success only a worker that holds it and finishes
      with a pass, failure only a failed or broken check or the sweep of an orphan, and so on. */
  lemma StatusTells(limit: int, states: seq<State>, steps: seq<Step>, i: nat, id: string, status: Status)
    requires Follows(limit, states, steps) && i < |steps| && TurnsTo(states[i], states[i + 1], id, status)
    ensures Tells(limit, states[i], steps[i], id, status)
  {
    var s, step := states[i], steps[i];
    if step.Claim? { LimitIsCrowded(limit, s, step.outside, Some(id)); }
    if step.ClaimNext? { LimitIsCrowded(limit, s, step.outside, None); }
    hide LimitReached, Crowded;
  }

  /** Conversely, unless a stop is on file, a finish records success exactly when the check passed and failure
      otherwise, and an exception records failure; with a stop on file neither changes any record. */
  lemma WorkerRecords(limit: int, s: State, step: Step, id: string)
    requires step.Finish? || step.Raise?
    requires Enabled(limit, s, step) && Holder(s, step.worker, id)
    ensures var t := After(limit, s, step);
      if id in s.stopRequested then t.tasks == s.tasks
      else
        var status := if step.Finish? && step.passed then Success else Failed;
        t.tasks == s.tasks[id := Record(status, s.tasks[id].createdAt)]
  {
  }

  /** With a stop on file a worker's next look at it, its result and its exception only send it on its way out, and a
      worker that leaves gives the place and the stop request back. */
  lemma StopEndsWork(limit: int, s: State, step: Step, id: string)
    requires step.Enter? || step.Prepared? || step.Finish? || step.Raise? || step.Leave?
    requires Enabled(limit, s, step) && Holder(s, step.worker, id)
    ensures !step.Leave? && id in s.stopRequested ==>
      After(limit, s, step) == s.(workers := s.workers[step.worker := Worker(id, Leaving)])
    ensures step.Leave? ==>
      After(limit, s, step) == State(s.tasks, s.active - {id}, s.stopRequested - {id}, s.workers - {step.worker})
  {
  }

  /** A stop of a record that waits or runs is recorded and frees its place; a sweep fails a record that runs without a
      runner; on all other records neither has an effect. */
  lemma StopAndSweep(limit: int, s: State, id: string, live: set<string>)
    requires id in s.tasks
    ensures var t := After(limit, s, Stop(id));
      if s.tasks[id].status in {Pending, Queued, Running} then
        t == State(s.tasks[id := Record(Stopped, s.tasks[id].createdAt)], s.active - {id}, s.stopRequested + {id},
                   s.workers)
      else t == s
    ensures var t := After(limit, s, Sweep(id, live));
      if s.tasks[id].status == Running && id !in s.active + live then
        t == s.(tasks := s.tasks[id := Record(Failed, s.tasks[id].createdAt)])
      else t == s
  {
  }

  /** With nobody interfering, a claimed record goes through all its phases to the result of its check, and leaves
      neither a place taken nor a stop nor a worker behind. */
  lemma RunsThrough(limit: int, s: State, id: string, outside: Outside, w: nat, passed: bool)
    requires id in s.tasks && s.tasks[id].status in {Pending, Queued, Running} && id !in s.stopRequested
    requires w !in s.workers && !Crowded(limit, s, outside, Some(id))
    ensures var steps := [Claim(id, outside, w), Enter(w), Prepared(w), Finish(w, passed), Reported(w), Leave(w)];
      && AllEnabled(limit, s, steps)
      && Final(limit, s, steps) == State(
           s.tasks[id := Record(if passed then Success else Failed, s.tasks[id].createdAt)], s.active - {id},
           s.stopRequested, s.workers)
  {
    ClaimRecords(limit, s, id, outside, w);
    hide Crowded, After, Enabled;
    var result := if passed then Success else Failed;
    WorkerStarts(limit, s, id, w);
    WorkerEnds(limit, s, id, w, passed);
    WorkerLeaves(limit, s, id, w, result);
    var end := State(s.tasks[id := Record(result, s.tasks[id].createdAt)], s.active - {id}, s.stopRequested, s.workers);
    FinalOfSix(limit, s, Held(s, id, w, Running, Claimed), Held(s, id, w, Running, Preparing),
               Held(s, id, w, Running, Enforcing), Held(s, id, w, result, Reporting),
               Held(s, id, w, result, Leaving), end,
               [Claim(id, outside, w), Enter(w), Prepared(w), Finish(w, passed), Reported(w), Leave(w)]);
  }

  /** The state with the record held by one more worker. */
  function Held(s: State, id: string, w: nat, status: Status, phase: Phase): State
    requires id in s.tasks
  {
    State(s.tasks[id := Record(status, s.tasks[id].createdAt)], s.active + {id}, s.stopRequested,
          s.workers[w := Worker(id, phase)])
  }

  lemma WorkerStarts(limit: int, s: State, id: string, w: nat)
    requires id in s.tasks && w !in s.workers && id !in s.stopRequested
    ensures var claimed, preparing := Held(s, id, w, Running, Claimed), Held(s, id, w, Running, Preparing);
      && Enabled(limit, claimed, Enter(w)) && After(limit, claimed, Enter(w)) == preparing
      && Enabled(limit, preparing, Prepared(w))
      && After(limit, preparing, Prepared(w)) == Held(s, id, w, Running, Enforcing)
  {
  }

  lemma WorkerEnds(limit: int, s: State, id: string, w: nat, passed: bool)
    requires id in s.tasks && w !in s.workers && id !in s.stopRequested
    ensures var result := if passed then Success else Failed;
      var enforcing, reporting := Held(s, id, w, Running, Enforcing), Held(s, id, w, result, Reporting);
      && Enabled(limit, enforcing, Finish(w, passed)) && After(limit, enforcing, Finish(w, passed)) == reporting
      && Enabled(limit, reporting, Reported(w))
      && After(limit, reporting, Reported(w)) == Held(s, id, w, result, Leaving)
  {
  }

  lemma WorkerLeaves(limit: int, s: State, id: string, w: nat, result: Status)
    requires id in s.tasks && w !in s.workers && id !in s.stopRequested
    ensures var leaving := Held(s, id, w, result, Leaving);
      && Enabled(limit, leaving, Leave(w))
      && After(limit, leaving, Leave(w))
           == State(s.tasks[id := Record(result, s.tasks[id].createdAt)], s.active - {id}, s.stopRequested, s.workers)
  {
    assert s.workers[w := Worker(id, Leaving)] - {w} == s.workers;
    assert (s.active + {id}) - {id} == s.active - {id} && s.stopRequested - {id} == s.stopRequested;
  }

  lemma FinalOfSix(limit: int, s: State, s1: State, s2: State, s3: State, s4: State, s5: State, s6: State,
                   steps: seq<Step>)
    requires |steps| == 6
    requires Enabled(limit, s, steps[0]) && s1 == After(limit, s, steps[0])
    requires Enabled(limit, s1, steps[1]) && s2 == After(limit, s1, steps[1])
    requires Enabled(limit, s2, steps[2]) && s3 == After(limit, s2, steps[2])
    requires Enabled(limit, s3, steps[3]) && s4 == After(limit, s3, steps[3])
    requires Enabled(limit, s4, steps[4]) && s5 == After(limit, s4, steps[4])
    requires Enabled(limit, s5, steps[5]) && s6 == After(limit, s5, steps[5])
    ensures AllEnabled(limit, s, steps) && Final(limit, s, steps) == s6
  {
    hide Enabled, After;
    assert forall k :: 0 <= k < 5 ==> steps[k..][1..] == steps[k + 1..];
    OneStep(limit, s5, steps[5..], s6);
    OneStep(limit, s4, steps[4..], s5);
    OneStep(limit, s3, steps[3..], s4);
    OneStep(limit, s2, steps[2..], s3);
    OneStep(limit, s1, steps[1..], s2);
    OneStep(limit, s, steps[0..], s1);
    assert steps[0..] == steps;
  }

  lemma OneStep(limit: int, s: State, steps: seq<Step>, next: State)
    requires steps != [] && Enabled(limit, s, steps[0]) && next == After(limit, s, steps[0])
    ensures AllEnabled(limit, next, steps[1..]) ==>
      AllEnabled(limit, s, steps) && Final(limit, s, steps) == Final(limit, next, steps[1..])
    ensures |steps| == 1 ==> AllEnabled(limit, s, steps) && Final(limit, s, steps) == next
  {
    hide Enabled, After;
    if |steps| == 1 { assert steps[1..] == []; }
  }

  // ---- when a stop sticks ----

  predicate Holder(s: State, worker: nat, id: string) {
    worker in s.workers && s.workers[worker].task == id
  }

  ghost predicate SoleHolder(s: State, id: string) {
    forall v, w :: Holder(s, v, id) && Holder(s, w, id) ==> v == w
  }

  ghost predicate AllLeaving(s: State, id: string) {
    forall w :: Holder(s, w, id) ==> s.workers[w].phase == Leaving
  }

  /** Stopped, and nobody is left who could change that: the holders are all on their way out, or there is
      at most one and the stop request is still on file. */
  ghost predicate Settled(s: State, id: string) {
    && id in s.tasks && s.tasks[id].status == Stopped
    && (AllLeaving(s, id) || (id in s.stopRequested && SoleHolder(s, id)))
  }

  lemma SettledStays(limit: int, s: State, step: Step, id: string)
    requires Settled(s, id) && Enabled(limit, s, step)
    ensures Settled(After(limit, s, step), id)
  {
    hide LimitReached;
    var t := After(limit, s, step);
    assert id in t.tasks && t.tasks[id].status == Stopped;
    if AllLeaving(s, id) {
      assert AllLeaving(t, id);
    } else {
      var w :| Holder(s, w, id) && s.workers[w].phase != Leaving;
      if step.Leave? {
        var v := step.worker;
        assert Holder(s, v, id) ==> v == w;
      }
      assert forall w :: Holder(t, w, id) ==> Holder(s, w, id);
      assert id in t.stopRequested && SoleHolder(t, id);
    }
  }

  lemma {:induction false} SettledForever(limit: int, states: seq<State>, steps: seq<Step>, id: string, i: nat)
    requires Follows(limit, states, steps) && Settled(states[0], id) && i < |states|
    ensures Settled(states[i], id)
  {
    if i > 0 {
      SettledForever(limit, states, steps, id, i - 1);
      SettledStays(limit, states[i - 1], steps[i - 1], id);
    }
  }

  /** Some continuation moves the record out of `stopped`. */
  ghost predicate CanLeaveStopped(limit: int, s: State, id: string) {
    exists states, steps :: Follows(limit, states, steps) && states[0] == s && MovedOn(states[|steps|], id)
  }

  ghost predicate MovedOn(s: State, id: string) {
    id in s.tasks && s.tasks[id].status != Stopped
  }

  /** A second holder that is not on its way out, next to any other. */
  ghost predicate Contested(s: State, id: string) {
    exists v, w :: v != w && Holder(s, v, id) && Holder(s, w, id) && s.workers[w].phase != Leaving
  }

  /** The steps by which the first holder's release clears the stop request and the second one then goes on. */
  function EscapeSteps(s: State, v: nat, w: nat): seq<Step>
    requires w in s.workers
  {
    [Abandon(v), Leave(v)] +
    match s.workers[w].phase
    case Claimed => [Enter(w)]
    case Preparing => [Prepared(w), Finish(w, true)]
    case Enforcing => [Finish(w, true)]
    case _ => [Raise(w)]
  }

  ghost function Trace(limit: int, s: State, steps: seq<Step>): (states: seq<State>)
    decreases |steps|
    ensures |states| > 0 && states[0] == s
  {
    if steps == [] || !Enabled(limit, s, steps[0]) then [s]
    else [s] + Trace(limit, After(limit, s, steps[0]), steps[1..])
  }

  ghost predicate AllEnabled(limit: int, s: State, steps: seq<Step>)
    decreases |steps|
  {
    steps == [] || (Enabled(limit, s, steps[0]) && AllEnabled(limit, After(limit, s, steps[0]), steps[1..]))
  }

  ghost function Final(limit: int, s: State, steps: seq<Step>): State
    requires AllEnabled(limit, s, steps)
    decreases |steps|
  {
    if steps == [] then s else Final(limit, After(limit, s, steps[0]), steps[1..])
  }

  lemma {:induction false} TraceFollows(limit: int, s: State, steps: seq<Step>)
    requires AllEnabled(limit, s, steps)
    ensures var states := Trace(limit, s, steps);
      Follows(limit, states, steps) && states[0] == s && states[|steps|] == Final(limit, s, steps)
    decreases |steps|
  {
    if steps != [] {
      hide After, Enabled;
      var next := After(limit, s, steps[0]);
      TraceFollows(limit, next, steps[1..]);
      var states, rest := Trace(limit, s, steps), Trace(limit, next, steps[1..]);
      assert states == [s] + rest;
      forall i | 0 <= i < |steps|
        ensures Enabled(limit, states[i], steps[i]) && states[i + 1] == After(limit, states[i], steps[i])
      {
        if i > 0 { assert states[i] == rest[i - 1] && steps[i] == steps[1..][i - 1] && states[i + 1] == rest[i]; }
      }
    }
  }

  lemma EscapeWorks(limit: int, s: State, id: string, v: nat, w: nat)
    requires id in s.tasks && v != w && Holder(s, v, id) && Holder(s, w, id) && s.workers[w].phase != Leaving
    ensures AllEnabled(limit, s, EscapeSteps(s, v, w))
    ensures MovedOn(Final(limit, s, EscapeSteps(s, v, w)), id)
  {
    var steps := EscapeSteps(s, v, w);
    var s1 := After(limit, s, Abandon(v));
    var s2 := After(limit, s1, Leave(v));
    assert id !in s2.stopRequested && s2.workers[w] == s.workers[w] && id in s2.tasks;
    assert steps[0] == Abandon(v) && steps[1] == Leave(v);
    var tail := steps[2..];
    assert steps[1..][1..] == tail && steps[1..][0] == Leave(v);
    TailEscapes(limit, s2, id, w, tail);
    UnfoldTwo(limit, s, steps);
  }

  lemma UnfoldTwo(limit: int, s: State, steps: seq<Step>)
    requires |steps| >= 2 && Enabled(limit, s, steps[0])
    requires Enabled(limit, After(limit, s, steps[0]), steps[1])
    requires AllEnabled(limit, After(limit, After(limit, s, steps[0]), steps[1]), steps[2..])
    ensures AllEnabled(limit, s, steps)
    ensures Final(limit, s, steps) == Final(limit, After(limit, After(limit, s, steps[0]), steps[1]), steps[2..])
  {
    hide After, Enabled;
    assert steps[1..][0] == steps[1] && steps[1..][1..] == steps[2..];
  }

  lemma TailEscapes(limit: int, s: State, id: string, w: nat, tail: seq<Step>)
    requires Holder(s, w, id) && id in s.tasks && id !in s.stopRequested
    requires tail == match s.workers[w].phase
                     case Claimed => [Enter(w)]
                     case Preparing => [Prepared(w), Finish(w, true)]
                     case Enforcing => [Finish(w, true)]
                     case _ => [Raise(w)]
    requires s.workers[w].phase != Leaving
    ensures AllEnabled(limit, s, tail) && MovedOn(Final(limit, s, tail), id)
  {
    var next := After(limit, s, tail[0]);
    if s.workers[w].phase == Preparing {
      assert tail[1..] == [Finish(w, true)];
      var last := After(limit, next, Finish(w, true));
      assert tail[1..][1..] == [];
      assert AllEnabled(limit, last, []) && AllEnabled(limit, next, tail[1..]);
      assert Final(limit, next, tail[1..]) == last;
    } else {
      assert tail[1..] == [];
      assert AllEnabled(limit, next, []);
    }
  }

  /** Right after an accepted stop: the record can come back from `stopped` if and only if, at that moment, two
      workers hold it and one of them is not on its way out. */
  lemma StopSticksIff(limit: int, s: State, id: string)
    requires Invariant(limit, s) && id in s.tasks && Live(s.tasks[id].status)
    ensures CanLeaveStopped(limit, After(limit, s, Stop(id)), id) <==> Contested(s, id)
  {
    var t := After(limit, s, Stop(id));
    if Contested(s, id) {
      var v, w :| v != w && Holder(s, v, id) && Holder(s, w, id) && s.workers[w].phase != Leaving;
      assert Holder(t, v, id) && Holder(t, w, id);
      EscapeWorks(limit, t, id, v, w);
      TraceFollows(limit, t, EscapeSteps(t, v, w));
    } else {
      assert Settled(t, id) by {
        if !AllLeaving(t, id) {
          var w :| Holder(t, w, id) && t.workers[w].phase != Leaving;
          forall v | Holder(t, v, id) ensures v == w { assert Holder(s, v, id) && Holder(s, w, id); }
          assert SoleHolder(t, id);
        }
      }
      if CanLeaveStopped(limit, t, id) {
        var states, steps :| Follows(limit, states, steps) && states[0] == t && MovedOn(states[|steps|], id);
        SettledForever(limit, states, steps, id, |steps|);
      }
    }
  }

  lemma OnlyRecord(s: State, outside: Outside, id: string)
    requires outside.summaries == map[] && s.tasks.Keys == {id}
    ensures ActiveIds(s, outside, Some(id)) == {} && !LimitReached(1, s, outside, Some(id))
  {
  }

  ghost predicate LiveAndContested(s: State, id: string) {
    id in s.tasks && Live(s.tasks[id].status) && Contested(s, id)
  }

  /** Two workers really can hold one record, even with a limit of one: a claim leaves the record's own id out
      of the count and takes a running record. */
  lemma DoubleClaimReachable(id: string, outside: Outside)
    requires outside.summaries == map[]
    ensures exists states, steps :: IsRun(1, states, steps) && LiveAndContested(states[|steps|], id)
  {
    hide ActiveIds, LimitReached;
    var s0 := State(map[], {}, {}, map[]);
    var steps := [Submit(id, 0), Claim(id, outside, 0), Claim(id, outside, 1)];
    var s1 := After(1, s0, steps[0]);
    OnlyRecord(s1, outside, id);
    var s2 := After(1, s1, steps[1]);
    OnlyRecord(s2, outside, id);
    var s3 := After(1, s2, steps[2]);
    var states := [s0, s1, s2, s3];
    assert Follows(1, states, steps);
    assert Holder(s3, 0, id) && Holder(s3, 1, id) && s3.workers[1].phase != Leaving;
    assert IsRun(1, states, steps) && LiveAndContested(states[|steps|], id);
  }

  /** A stop of the live record is accepted, and yet some continuation moves the record out of `stopped`. */
  ghost predicate StopCanBeLost(limit: int, s: State, id: string) {
    id in s.tasks && Live(s.tasks[id].status) && CanLeaveStopped(limit, After(limit, s, Stop(id)), id)
  }

  /** So a run of the service under a limit of one reaches a live record whose accepted stop can be lost. */
  lemma LostStopReachable(id: string, outside: Outside)
    requires outside.summaries == map[]
    ensures exists states, steps :: IsRun(1, states, steps) && StopCanBeLost(1, states[|steps|], id)
  {
    hide Contested, Invariant, After, CanLeaveStopped;
    DoubleClaimReachable(id, outside);
    var states, steps :| IsRun(1, states, steps) && LiveAndContested(states[|steps|], id);
    InvariantHolds(1, states, steps, |steps|);
    StopSticksIff(1, states[|steps|], id);
    assert StopCanBeLost(1, states[|steps|], id);
  }
}
