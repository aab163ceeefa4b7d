/** Workflow retention: which identities may be pruned, and why a run of assignments, reruns and status
    changes never lets it pick an identity that live work still holds. */
module Retention {
  import opened Options
  import opened Ordering
  import opened Text
  import opened Identifiers
  import opened Batches
  import opened StableBatches
  import opened CleanRerun
  import opened TaskModels

  /** A repository task: its status, COALESCE(finished_at, updated_at), and its class rows. */
  datatype Task = Task(status: string, stamp: int, rows: seq<ClassRow>)

  datatype Identity = Identity(taskId: int, runId: string, unitId: string)

  datatype Db = Db(tasks: map<int, Task>, supersessions: seq<Supersession>, operations: set<Identity>)

  predicate Finished(status: string) { status in TERMINAL_REPO_STATUSES || status == "STOPPED" }

  /** `_parse_batch_key`: two nonempty parts, or nothing. */
  function ParseBatchKey(row: ClassRow): Option<(string, string)> {
    var parts := Split(KeyText(row), '/');
    if |parts| != 2 || parts[0] == "" || parts[1] == "" then None else Some((parts[0], parts[1]))
  }

  /** A key gives an identity exactly when it is two nonempty parts around its only slash. */
  lemma ParsedExactly(row: ClassRow, run: string, unit: string)
    ensures ParseBatchKey(row) == Some((run, unit)) <==>
      run != "" && unit != "" && '/' !in run && '/' !in unit && row.batchKey == Some(run + "/" + unit)
  {
    var key := KeyText(row);
    if ParseBatchKey(row) == Some((run, unit)) {
      JoinSplit(key, '/');
      var parts := Split(key, '/');
      assert parts == [run, unit] && parts[1..] == [unit];
      assert Join(parts, '/') == run + ['/'] + Join([unit], '/');
    }
    if '/' !in run && '/' !in unit && row.batchKey == Some(run + "/" + unit) {
      SplitAfterSeparator(run, unit, '/');
      SplitNoSeparator(unit, '/');
    }
  }

  function TerminalIds(db: Db, cutoff: int): set<int> {
    set t | t in db.tasks && Finished(db.tasks[t].status) && db.tasks[t].stamp <= cutoff
  }

  /** An identity some row of the task carries now. */
  ghost predicate Holds(task: Task, runId: string, unitId: string) {
    exists i :: 0 <= i < |task.rows| && ParseBatchKey(task.rows[i]) == Some((runId, unitId))
  }

  /** An old identity of some audit row that is at least as old as the cutoff. */
  ghost predicate SupersededBy(db: Db, cutoff: int, id: Identity) {
    exists k :: 0 <= k < |db.supersessions| && Supersedes(db.supersessions[k], cutoff, id)
  }

  predicate Supersedes(s: Supersession, cutoff: int, id: Identity) {
    s.requestedAt <= cutoff && s.taskId == id.taskId && s.oldRun == Some(id.runId) && id.unitId in s.oldUnits
  }

  /** What the selection takes, for a given list of finished tasks. */
  ghost predicate Selects(db: Db, cutoff: int, taskIds: set<int>, id: Identity) {
    || (&& id.taskId in taskIds
        && (id in db.operations || (id.taskId in db.tasks && Holds(db.tasks[id.taskId], id.runId, id.unitId))))
    || SupersededBy(db, cutoff, id)
  }

  method RowIdentities(taskId: int, rows: seq<ClassRow>) returns (found: set<Identity>)
    ensures forall id :: id in found <==>
      id.taskId == taskId && exists i :: 0 <= i < |rows| && ParseBatchKey(rows[i]) == Some((id.runId, id.unitId))
  {
    found := {};
    for i := 0 to |rows|
      invariant forall id :: id in found <==>
        id.taskId == taskId && exists j :: 0 <= j < i && ParseBatchKey(rows[j]) == Some((id.runId, id.unitId))
    {
      var parsed := ParseBatchKey(rows[i]);
      if parsed.Some? { found := found + {Identity(taskId, parsed.value.0, parsed.value.1)}; }
    }
  }

  /** Python's order on the triples. */
  predicate IdentityLeq(a: Identity, b: Identity) {
    if a.taskId != b.taskId then a.taskId < b.taskId
    else if a.runId != b.runId then StrLeq(a.runId, b.runId)
    else StrLeq(a.unitId, b.unitId)
  }

  /** By task, then by run, then by unit. */
  predicate InIdentityOrder(a: Identity, b: Identity) {
    && a.taskId <= b.taskId && (a.taskId == b.taskId ==> StrLeq(a.runId, b.runId))
    && (a.taskId == b.taskId && a.runId == b.runId ==> StrLeq(a.unitId, b.unitId))
  }

  lemma IdentityOrders(a: Identity, b: Identity)
    requires IdentityLeq(a, b)
    ensures InIdentityOrder(a, b)
  {
    StrLeqTotal();
    hide StrLeq;
  }

  lemma IdentityLeqTotal()
    ensures TotalOrder(IdentityLeq)
  {
    StrLeqTotal();
    hide StrLeq;
  }

  /** The nested loops of the selection: operations and rows of the finished tasks, then superseded identities. */
  method EligibleIdentities(db: Db, cutoff: int, taskIds: seq<int>) returns (r: seq<Identity>)
    requires forall t :: t in taskIds ==> t in db.tasks
    ensures Distinct(r) && forall i, j :: 0 <= i < j < |r| ==> InIdentityOrder(r[i], r[j])
    ensures forall id :: id in r <==> Selects(db, cutoff, Elements(taskIds), id)
  {
    hide ParseBatchKey, Supersedes, IdentityLeq;
    var found: set<Identity> := {};
    for n := 0 to |taskIds|
      invariant forall id :: id in found <==>
        id.taskId in taskIds[..n] && (id in db.operations || Holds(db.tasks[id.taskId], id.runId, id.unitId))
    {
      var taskId := taskIds[n];
      assert taskIds[..n + 1] == taskIds[..n] + [taskId];
      var operations := set id | id in db.operations && id.taskId == taskId;
      var rows := RowIdentities(taskId, db.tasks[taskId].rows);
      assert forall id :: id in rows <==> id.taskId == taskId && Holds(db.tasks[taskId], id.runId, id.unitId);
      found := found + operations + rows;
    }
    assert taskIds[..|taskIds|] == taskIds;
    ghost var byTask := found;
    for k := 0 to |db.supersessions|
      invariant forall id :: id in found <==>
        id in byTask || exists j :: 0 <= j < k && Supersedes(db.supersessions[j], cutoff, id)
    {
      var units := SupersededUnits(db.supersessions[k], cutoff);
      found := found + units;
    }
    IdentityLeqTotal();
    r := SortedElements(IdentityLeq, found);
    forall i, j | 0 <= i < j < |r| ensures InIdentityOrder(r[i], r[j]) { IdentityOrders(r[i], r[j]); }
  }

  /** What stands in the database for pruning an identity at a moment: its task ended then and holds it or has an
      operation of it, or it was replaced then. */
  ghost predicate ReleasedAt(db: Db, id: Identity, moment: int) {
    || (&& id.taskId in db.tasks && HasEnded(db.tasks[id.taskId].status) && db.tasks[id.taskId].stamp == moment
        && (id in db.operations || Holds(db.tasks[id.taskId], id.runId, id.unitId)))
    || exists k :: 0 <= k < |db.supersessions| && ReplacedAt(db.supersessions[k], id, moment)
  }

  predicate ReplacedAt(s: Supersession, id: Identity, moment: int) {
    s.requestedAt == moment && s.taskId == id.taskId && s.oldRun == Some(id.runId) && id.unitId in s.oldUnits
  }

  /** The selection takes an identity exactly when it was released at the cutoff or before. */
  lemma SelectedExactly(db: Db, cutoff: int, id: Identity)
    ensures Selects(db, cutoff, TerminalIds(db, cutoff), id) <==>
      exists moment :: moment <= cutoff && ReleasedAt(db, id, moment)
  {
    hide Holds;
    if Selects(db, cutoff, TerminalIds(db, cutoff), id) {
      if SupersededBy(db, cutoff, id) {
        var k :| 0 <= k < |db.supersessions| && Supersedes(db.supersessions[k], cutoff, id);
        assert ReplacedAt(db.supersessions[k], id, db.supersessions[k].requestedAt);
        assert ReleasedAt(db, id, db.supersessions[k].requestedAt);
      } else {
        EndedIs(db.tasks[id.taskId].status);
        assert ReleasedAt(db, id, db.tasks[id.taskId].stamp);
      }
    }
    if moment :| moment <= cutoff && ReleasedAt(db, id, moment) {
      if k :| 0 <= k < |db.supersessions| && ReplacedAt(db.supersessions[k], id, moment) {
        assert Supersedes(db.supersessions[k], cutoff, id);
      } else {
        EndedIs(db.tasks[id.taskId].status);
      }
    }
  }

  method SupersededUnits(s: Supersession, cutoff: int) returns (found: set<Identity>)
    ensures forall id :: id in found <==> Supersedes(s, cutoff, id)
  {
    found := {};
    if s.oldRun.Some? && s.requestedAt <= cutoff {
      for i := 0 to |s.oldUnits|
        invariant forall id :: id in found <==> Supersedes(s, cutoff, id) && id.unitId in s.oldUnits[..i]
      {
        assert s.oldUnits[..i + 1] == s.oldUnits[..i] + [s.oldUnits[i]];
        found := found + {Identity(s.taskId, s.oldRun.value, s.oldUnits[i])};
      }
      assert s.oldUnits[..|s.oldUnits|] == s.oldUnits;
    }
  }

  // ---- whole runs ----

  datatype Step =
    | AddTask(id: int, task: Task)
    | Ensure(id: int, requested: seq<string>, size: int, requestedRun: Option<string>, freshRun: string,
             digest: Digester)
    | Rerun(id: int, newRun: string, chunk: nat, digest: Digester, requeue: set<string>, byClass: map<int, string>,
            now: int)
    | SetStatus(id: int, status: string, stamp: int, classStatuses: seq<string>)
    | Operation(identity: Identity)

  /** The database and, as a ghost, every run id ever written. */
  datatype State = State(db: Db, runs: set<string>)

  /** When a step may happen: reruns need a stopped or finished task and a readable row set, and a run id
      that is written for the first time has never been used before. */
  ghost predicate Enabled(s: State, step: Step) {
    match step
    case AddTask(id, task) => id !in s.db.tasks && NoneKeyed(task.rows)
    case Ensure(id, requested, size, requestedRun, freshRun, digest) =>
      && id in s.db.tasks && |s.db.tasks[id].rows| < ROW_LIMIT
      && (NoneKeyed(s.db.tasks[id].rows) ==> RunToAssign(requestedRun, freshRun) !in s.runs)
    case Rerun(id, newRun, chunk, digest, requeue, byClass, now) =>
      && id in s.db.tasks && Finished(s.db.tasks[id].status)
      && |s.db.tasks[id].rows| < ROW_LIMIT && chunk >= 1
      && (forall i ::
           0 <= i < |s.db.tasks[id].rows| ==> s.db.tasks[id].rows[i].id in byClass && Readable(s.db.tasks[id].rows[i]))
      && IsIdentifier(newRun) && newRun !in s.runs
    case SetStatus(id, status, stamp, classStatuses) =>
      id in s.db.tasks && |classStatuses| == |s.db.tasks[id].rows|
    case Operation(identity) => true
  }

  ghost function After(s: State, step: Step): State
    requires Enabled(s, step)
  {
    var db := s.db;
    match step
    case AddTask(id, task) => State(db.(tasks := db.tasks[id := task]), s.runs)
    case Ensure(id, requested, size, requestedRun, freshRun, digest) =>
      var task := db.tasks[id];
      var rows := Ensured(task.rows, requested, size, requestedRun, freshRun, digest).0;
      State(db.(tasks := db.tasks[id := task.(rows := rows)]), s.runs + {RunToAssign(requestedRun, freshRun)})
    case Rerun(id, newRun, chunk, digest, requeue, byClass, now) =>
      var task := db.tasks[id];
      var rows := RerunRows(task.rows, newRun, chunk, digest, requeue);
      State(Db(db.tasks[id := Task("QUEUED", now, rows)],
               db.supersessions + Supersessions(id, task.rows, newRun, byClass, now), db.operations),
            s.runs + {newRun})
    case SetStatus(id, status, stamp, classStatuses) =>
      var task := db.tasks[id];
      var rows := seq(|task.rows|, i requires 0 <= i < |task.rows| => task.rows[i].(status := classStatuses[i]));
      State(db.(tasks := db.tasks[id := Task(status, stamp, rows)]), s.runs)
    case Operation(identity) => State(db.(operations := db.operations + {identity}), s.runs)
  }

  ghost predicate Initial(s: State) {
    s.db.supersessions == [] && forall t :: t in s.db.tasks ==> RunsWithin(s.db.tasks[t].rows, s.runs)
  }

  /** A run of the system: enabled steps from an initial state. */
  ghost predicate IsRun(states: seq<State>, steps: seq<Step>) {
    && |states| == |steps| + 1 && Initial(states[0])
    && forall i :: 0 <= i < |steps| ==> Enabled(states[i], steps[i]) && states[i + 1] == After(states[i], steps[i])
  }

  ghost predicate RunsWithin(rows: seq<ClassRow>, runs: set<string>) {
    forall i :: 0 <= i < |rows| ==> ParseBatchKey(rows[i]).Some? ==> ParseBatchKey(rows[i]).value.0 in runs
  }

  /** No run named as replaced for task `t` is still carried by one of `rows`. */
  ghost predicate NotReplaced(t: int, rows: seq<ClassRow>, supersessions: seq<Supersession>) {
    forall i, k ::
      0 <= i < |rows| && 0 <= k < |supersessions| && supersessions[k].taskId == t && ParseBatchKey(rows[i]).Some?
      ==> supersessions[k].oldRun != Some(ParseBatchKey(rows[i]).value.0)
  }

  ghost predicate OldRunsWithin(supersessions: seq<Supersession>, runs: set<string>) {
    forall k :: 0 <= k < |supersessions| ==> supersessions[k].oldRun.Some? ==> supersessions[k].oldRun.value in runs
  }

  ghost predicate Invariant(s: State) {
    && OldRunsWithin(s.db.supersessions, s.runs)
    && forall t :: t in s.db.tasks ==>
         RunsWithin(s.db.tasks[t].rows, s.runs) && NotReplaced(t, s.db.tasks[t].rows, s.db.supersessions)
  }

  lemma ParseSameKey(a: ClassRow, b: ClassRow)
    requires a.batchKey == b.batchKey
    ensures ParseBatchKey(a) == ParseBatchKey(b)
  {
  }

  lemma UnkeyedParsesToNothing(row: ClassRow)
    requires !Keyed(row)
    ensures ParseBatchKey(row) == None
  {
    SplitNoSeparator("", '/');
  }

  /** Freshly keyed rows carry the new run and nothing else. */
  lemma RekeyedParse(rows: seq<ClassRow>, run: string, size: nat, digest: Digester, i: nat)
    requires size >= 1 && |rows| < ROW_LIMIT && IsIdentifier(run) && i < |rows|
    ensures |Rekeyed(rows, run, size, digest)| == |rows|
    ensures ParseBatchKey(Rekeyed(rows, run, size, digest)[i]).Some?
    ensures ParseBatchKey(Rekeyed(rows, run, size, digest)[i]).value.0 == run
  {
    RekeyedRows(rows, run, size, digest);
    RekeyedGroups(rows, run, size, digest);
    var k := GroupedRow(Rekeyed(rows, run, size, digest), run, KeyUnits(Partition(rows, size, 1, digest), run), i);
  }

  /** The runs that a rerun names as replaced were carried by the task's rows. */
  lemma ReplacedWereHeld(taskId: int, rows: seq<ClassRow>, newRun: string, byClass: map<int, string>, now: int,
                         runs: set<string>)
    requires forall i :: 0 <= i < |rows| ==> rows[i].id in byClass
    requires RunsWithin(rows, runs)
    ensures OldRunsWithin(Supersessions(taskId, rows, newRun, byClass, now), runs)
    ensures forall k :: 0 <= k < |Supersessions(taskId, rows, newRun, byClass, now)| ==>
      Supersessions(taskId, rows, newRun, byClass, now)[k].taskId == taskId
  {
    RunsListed(rows);
    KnownSupersessionsAre(taskId, rows, RunsOf(rows), newRun, byClass, now);
    var s := Supersessions(taskId, rows, newRun, byClass, now);
    forall k | 0 <= k < |s| && s[k].oldRun.Some? ensures s[k].oldRun.value in runs {
      var run := RunsOf(rows)[k];
      var i :| 0 <= i < |rows| && OldRun(rows[i]) == Some(run);
      OldRunParses(rows[i]);
    }
  }

  lemma OldRunParses(row: ClassRow)
    requires OldRun(row).Some?
    ensures ParseBatchKey(row).Some? && ParseBatchKey(row).value.0 == OldRun(row).value
  {
    WellFormedParts(row);
  }

  /** Rows that a call keys for the first time parse to its run. */
  lemma EnsuredParse(s: State, step: Step)
    requires step.Ensure? && Enabled(s, step)
    ensures var rows := s.db.tasks[step.id].rows;
      var rows' := Ensured(rows, step.requested, step.size, step.requestedRun, step.freshRun, step.digest).0;
      rows' != rows ==> forall i :: 0 <= i < |rows'| && ParseBatchKey(rows'[i]).Some? ==>
        ParseBatchKey(rows'[i]).value.0 == RunToAssign(step.requestedRun, step.freshRun)
  {
    hide ParseBatchKey, IsIdentifier;
    var rows := s.db.tasks[step.id].rows;
    var rows' := Ensured(rows, step.requested, step.size, step.requestedRun, step.freshRun, step.digest).0;
    var run := RunToAssign(step.requestedRun, step.freshRun);
    forall i | 0 <= i < |rows'| && ParseBatchKey(rows'[i]).Some? && rows' != rows
      ensures ParseBatchKey(rows'[i]).value.0 == run
    {
      RekeyedRows(rows, run, step.size, step.digest);
      RekeyedParse(rows, run, step.size, step.digest, i);
    }
  }

  lemma EnsureKeepsInvariant(s: State, step: Step)
    requires Invariant(s) && step.Ensure? && Enabled(s, step)
    ensures Invariant(After(s, step))
  {
    hide Ensured, ParseBatchKey, RunToAssign;
    var rows := s.db.tasks[step.id].rows;
    var rows' := Ensured(rows, step.requested, step.size, step.requestedRun, step.freshRun, step.digest).0;
    var run := RunToAssign(step.requestedRun, step.freshRun);
    var s' := After(s, step);
    EnsuredParse(s, step);
    if rows' != rows { assert run !in s.runs by { assert NoneKeyed(rows) by { OnlyUnkeyedChange(s, step); } } }
    forall t | t in s'.db.tasks
      ensures RunsWithin(s'.db.tasks[t].rows, s'.runs) && NotReplaced(t, s'.db.tasks[t].rows, s'.db.supersessions)
    {
      assert t in s.db.tasks;
    }
  }

  lemma OnlyUnkeyedChange(s: State, step: Step)
    requires step.Ensure? && Enabled(s, step)
    requires var rows := s.db.tasks[step.id].rows;
      Ensured(rows, step.requested, step.size, step.requestedRun, step.freshRun, step.digest).0 != rows
    ensures NoneKeyed(s.db.tasks[step.id].rows)
  {
  }

  /** After a rerun every row parses, and to the new run. */
  lemma RerunParse(rows: seq<ClassRow>, newRun: string, size: nat, digest: Digester, requeue: set<string>)
    requires size >= 1 && |rows| < ROW_LIMIT && IsIdentifier(newRun)
    ensures var rows' := RerunRows(rows, newRun, size, digest, requeue);
      forall i :: 0 <= i < |rows'| ==> ParseBatchKey(rows'[i]).Some? && ParseBatchKey(rows'[i]).value.0 == newRun
  {
    hide ParseBatchKey, IsIdentifier;
    var plain := Requeued(rows, requeue);
    var rows' := RerunRows(rows, newRun, size, digest, requeue);
    RekeyedRows(plain, newRun, size, digest);
    forall i | 0 <= i < |rows'| ensures ParseBatchKey(rows'[i]).Some? && ParseBatchKey(rows'[i]).value.0 == newRun {
      RekeyedParse(plain, newRun, size, digest, i);
    }
  }

  lemma RerunKeepsInvariant(s: State, step: Step)
    requires Invariant(s) && step.Rerun? && Enabled(s, step)
    ensures Invariant(After(s, step))
  {
    hide ParseBatchKey, RerunRows, Supersessions, IsIdentifier;
    var rows := s.db.tasks[step.id].rows;
    ReplacedWereHeld(step.id, rows, step.newRun, step.byClass, step.now, s.runs);
    RerunParse(rows, step.newRun, step.chunk, step.digest, step.requeue);
    var s' := After(s, step);
    assert OldRunsWithin(s'.db.supersessions, s.runs);
    forall t | t in s'.db.tasks
      ensures RunsWithin(s'.db.tasks[t].rows, s'.runs) && NotReplaced(t, s'.db.tasks[t].rows, s'.db.supersessions)
    {
      assert t in s.db.tasks;
    }
  }

  lemma StepKeepsInvariant(s: State, step: Step)
    requires Invariant(s) && Enabled(s, step)
    ensures Invariant(After(s, step))
  {
    match step
    case Ensure(_, _, _, _, _, _) => EnsureKeepsInvariant(s, step);
    case Rerun(_, _, _, _, _, _, _) => RerunKeepsInvariant(s, step);
    case AddTask(id, task) =>
      forall i | 0 <= i < |task.rows|
        ensures ParseBatchKey(task.rows[i]) == None
      {
        UnkeyedParsesToNothing(task.rows[i]);
      }
    case SetStatus(id, _, _, _) =>
      var rows, rows' := s.db.tasks[id].rows, After(s, step).db.tasks[id].rows;
      forall i | 0 <= i < |rows|
        ensures ParseBatchKey(rows'[i]) == ParseBatchKey(rows[i])
      {
        ParseSameKey(rows[i], rows'[i]);
      }
    case Operation(_) =>
  }

  lemma {:induction false} InvariantHolds(states: seq<State>, steps: seq<Step>, i: nat)
    requires IsRun(states, steps) && i < |states|
    ensures Invariant(states[i])
  {
    if i > 0 {
      InvariantHolds(states, steps, i - 1);
      StepKeepsInvariant(states[i - 1], steps[i - 1]);
    }
  }

  /** A selection that reaches live work. */
  ghost predicate TouchesLive(db: Db, cutoff: int, taskIds: set<int>) {
    exists id: Identity :: Selects(db, cutoff, taskIds, id) && HeldLive(db, id)
  }

  ghost predicate HeldLive(db: Db, id: Identity) {
    id.taskId in db.tasks && !Finished(db.tasks[id.taskId].status) && Holds(db.tasks[id.taskId], id.runId, id.unitId)
  }

  /** Over every run, the selection made with the finished tasks of the same moment never takes an identity
      that a task neither finished nor stopped currently holds. */
  lemma RetentionSparesLiveWork(states: seq<State>, steps: seq<Step>, i: nat, cutoff: int)
    requires IsRun(states, steps) && i < |states|
    ensures !TouchesLive(states[i].db, cutoff, TerminalIds(states[i].db, cutoff))
  {
    InvariantHolds(states, steps, i);
    StaleListTouchesLive(states[i], cutoff, TerminalIds(states[i].db, cutoff));
  }

  ghost predicate LiveWithKey(task: Task) {
    !Finished(task.status) && exists i :: 0 <= i < |task.rows| && ParseBatchKey(task.rows[i]).Some?
  }

  /** Whatever tasks are listed, the selection reaches live work exactly when a listed task is live and holds a key. */
  lemma StaleListTouchesLive(s: State, cutoff: int, taskIds: set<int>)
    requires Invariant(s)
    ensures TouchesLive(s.db, cutoff, taskIds) <==>
      exists t :: t in taskIds && t in s.db.tasks && LiveWithKey(s.db.tasks[t])
  {
    hide ParseBatchKey, Finished;
    if TouchesLive(s.db, cutoff, taskIds) {
      var id: Identity :| Selects(s.db, cutoff, taskIds, id) && HeldLive(s.db, id);
      var rows := s.db.tasks[id.taskId].rows;
      var i :| 0 <= i < |rows| && ParseBatchKey(rows[i]) == Some((id.runId, id.unitId));
      assert !SupersededBy(s.db, cutoff, id);
    }
    if t :| t in taskIds && t in s.db.tasks && LiveWithKey(s.db.tasks[t]) {
      var i :| 0 <= i < |s.db.tasks[t].rows| && ParseBatchKey(s.db.tasks[t].rows[i]).Some?;
      var key := ParseBatchKey(s.db.tasks[t].rows[i]).value;
      var id := Identity(t, key.0, key.1);
      assert Holds(s.db.tasks[t], key.0, key.1);
      assert Selects(s.db, cutoff, taskIds, id) && HeldLive(s.db, id);
    }
  }

  /** The list of finished tasks is read in a separate transaction. With the list of an earlier moment of the run the
      selection reaches live work exactly when a task of that list has left its finished state since and holds a key. */
  lemma StaleListInRun(states: seq<State>, steps: seq<Step>, i: nat, j: nat, cutoff: int)
    requires IsRun(states, steps) && i <= j < |states|
    ensures TouchesLive(states[j].db, cutoff, TerminalIds(states[i].db, cutoff)) <==>
      exists t ::
        t in TerminalIds(states[i].db, cutoff) && t in states[j].db.tasks && LiveWithKey(states[j].db.tasks[t])
  {
    InvariantHolds(states, steps, j);
    StaleListTouchesLive(states[j], cutoff, TerminalIds(states[i].db, cutoff));
  }

  /** The selection at moment `j`, with the list of moment `i`, reaches live work. */
  ghost predicate StaleHit(states: seq<State>, i: nat, j: nat) {
    i <= j < |states| && TouchesLive(states[j].db, 0, TerminalIds(states[i].db, 0))
  }

  /** A rerun makes its task live again, holding keys. */
  lemma RerunRevives(s: State, step: Step)
    requires step.Rerun? && Enabled(s, step) && s.db.tasks[step.id].rows != []
    ensures step.id in After(s, step).db.tasks && LiveWithKey(After(s, step).db.tasks[step.id])
  {
    hide ParseBatchKey, RerunRows, Supersessions, IsIdentifier, Readable;
    var rows := s.db.tasks[step.id].rows;
    RerunRowCount(rows, step.newRun, step.chunk, step.digest, step.requeue);
    RerunParse(rows, step.newRun, step.chunk, step.digest, step.requeue);
    assert ParseBatchKey(After(s, step).db.tasks[step.id].rows[0]).Some?;
  }

  function UnkeyedRow(): ClassRow { ClassRow(1, "A", "", "PASS", None) }

  lemma UnkeyedRowIs()
    ensures Readable(UnkeyedRow()) && !Keyed(UnkeyedRow()) && IsIdentifier("r")
  {
  }

  /** It happens: a completed task is listed, then rerun, and the selection takes the identity it has just
      been given. */
  lemma StaleListReachable(digest: Digester)
    ensures exists states: seq<State>, steps: seq<Step> :: IsRun(states, steps) && StaleHit(states, 1, 2)
  {
    hide UnkeyedRow, Readable, Keyed, IsIdentifier, RerunRows, Supersessions, LiveWithKey, TouchesLive;
    UnkeyedRowIs();
    var s0 := State(Db(map[], [], {}), {});
    var add := AddTask(1, Task("COMPLETED", 0, [UnkeyedRow()]));
    var rerun := Rerun(1, "r", 1, digest, {}, map[UnkeyedRow().id := "u"], 0);
    var s1 := After(s0, add);
    var s2 := After(s1, rerun);
    var states, steps := [s0, s1, s2], [add, rerun];
    assert IsRun(states, steps);
    RerunRevives(s1, rerun);
    StaleListInRun(states, steps, 1, 2, 0);
    assert 1 in TerminalIds(s1.db, 0);
    assert StaleHit(states, 1, 2);
  }
}
