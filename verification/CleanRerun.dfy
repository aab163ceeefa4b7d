/** The clean rerun: every class row of a stopped or finished task gets a new identity under a fresh run,
    the identities it replaces are recorded, and unfinished rows go back to the queue. */
module CleanRerun {
  import opened Options
  import opened Ordering
  import opened Text
  import opened Identifiers
  import opened Batches
  import opened StableBatches
  import opened TaskModels

  // ---- statuses ----

  function RequeueStatuses(forceFailed: bool, forceAll: bool): set<string> {
    ORDINARY_REQUEUE
    + (if forceFailed then TERMINAL_CLASS_STATUSES - {"PASS", "CANCELLED"} else {})
    + (if forceAll then TERMINAL_CLASS_STATUSES else {})
  }

  /** The two notions of a finished class, that of the generation batches and that of the task model, share three
      statuses; "SKIPPED" is known to the first only, and seven others to the second only. */
  lemma FinishedTwice(status: string)
    ensures TerminalStatus(status) && status in TERMINAL_CLASS_STATUSES <==> status in {"PASS", "FAIL", "MUTATION_FAIL"}
    ensures TerminalStatus(status) && status !in TERMINAL_CLASS_STATUSES <==> status == "SKIPPED"
    ensures !TerminalStatus(status) && status in TERMINAL_CLASS_STATUSES <==>
      status in {"BUDGET_EXCEEDED", "PROVIDER_ERROR", "PROVIDER_RATE_LIMITED", "PUSH_FAILED", "UNSAFE_DIFF",
                 "LLM_STALLED", "CANCELLED"}
  {
  }

  // ---- prior identities ----

  predicate Missing(row: ClassRow) { row.batchKey == None || Blank(row.batchKey.value) }

  predicate Readable(row: ClassRow) { Missing(row) || WellFormedKey(row) }

  predicate HeldBy(row: ClassRow, run: string) {
    !Missing(row) && WellFormedKey(row) && Split(KeyText(row), '/')[0] == run
  }

  function MissingIds(rows: seq<ClassRow>): seq<int> {
    if rows == [] then []
    else
      var last := rows[|rows| - 1];
      MissingIds(rows[..|rows| - 1]) + (if Missing(last) then [last.id] else [])
  }

  function ClassesOf(rows: seq<ClassRow>, run: string): seq<int> {
    if rows == [] then []
    else
      var last := rows[|rows| - 1];
      ClassesOf(rows[..|rows| - 1], run) + (if HeldBy(last, run) then [last.id] else [])
  }

  function AddNew<T(==)>(s: seq<T>, x: T): seq<T> {
    if x in s then s else s + [x]
  }

  /** The unit ids under `run`, each once, in order of first appearance. */
  function UnitsOf(rows: seq<ClassRow>, run: string): seq<string> {
    if rows == [] then []
    else
      var last := rows[|rows| - 1];
      var before := UnitsOf(rows[..|rows| - 1], run);
      if HeldBy(last, run) then AddNew(before, Split(KeyText(last), '/')[1]) else before
  }

  /** The runs that hold rows, each once, in order of first appearance. */
  function RunsOf(rows: seq<ClassRow>): seq<string> {
    if rows == [] then []
    else
      var last := rows[|rows| - 1];
      var before := RunsOf(rows[..|rows| - 1]);
      if !Missing(last) && WellFormedKey(last) then AddNew(before, Split(KeyText(last), '/')[0]) else before
  }

  /** How many rows carry exactly this key. */
  function CountOf(rows: seq<ClassRow>, key: string): nat {
    if rows == [] then 0
    else
      var last := rows[|rows| - 1];
      CountOf(rows[..|rows| - 1], key) + (if !Missing(last) && last.batchKey == Some(key) then 1 else 0)
  }

  datatype Group = Group(unitIds: seq<string>, classIds: seq<int>)

  /** The bookkeeping of the first `n` rows. */
  ghost predicate Collected(rows: seq<ClassRow>, runs: seq<string>, known: map<string, Group>, missing: seq<int>,
                            counts: map<string, nat>) {
    && runs == RunsOf(rows) && missing == MissingIds(rows)
    && Grouped(rows, runs, known)
    && (forall key :: (if key in counts then counts[key] else 0) == CountOf(rows, key))
  }

  /** Every run that holds rows has its group, and no other run has one. */
  ghost predicate Grouped(rows: seq<ClassRow>, runs: seq<string>, known: map<string, Group>) {
    && (forall run :: run in known <==> run in runs)
    && (forall run :: run in known ==> known[run] == Group(UnitsOf(rows, run), ClassesOf(rows, run)))
    && (forall run :: run !in known ==> UnitsOf(rows, run) == [] && ClassesOf(rows, run) == [])
  }

  lemma CollectNothing()
    ensures Collected([], [], map[], [], map[])
  {
  }

  lemma CollectMissing(rows: seq<ClassRow>, row: ClassRow, runs: seq<string>, known: map<string, Group>,
                       missing: seq<int>, counts: map<string, nat>)
    requires Collected(rows, runs, known, missing, counts) && Missing(row)
    ensures Collected(rows + [row], runs, known, missing + [row.id], counts)
  {
    hide Missing, WellFormedKey, Split;
    assert (rows + [row])[..|rows|] == rows;
  }

  lemma OtherRun(rows: seq<ClassRow>, row: ClassRow, run: string)
    requires !HeldBy(row, run)
    ensures UnitsOf(rows + [row], run) == UnitsOf(rows, run) && ClassesOf(rows + [row], run) == ClassesOf(rows, run)
  {
    assert (rows + [row])[..|rows|] == rows;
    assert ClassesOf(rows, run) + [] == ClassesOf(rows, run);
  }

  lemma CollectKnown(rows: seq<ClassRow>, row: ClassRow, runs: seq<string>, known: map<string, Group>,
                     missing: seq<int>, counts: map<string, nat>)
    requires Collected(rows, runs, known, missing, counts) && !Missing(row) && WellFormedKey(row)
    ensures var parts, key := Split(KeyText(row), '/'), KeyText(row);
      |parts| == 2 &&
      var group := if parts[0] in known then known[parts[0]] else Group([], []);
      Collected(rows + [row], AddNew(runs, parts[0]),
                known[parts[0] := Group(AddNew(group.unitIds, parts[1]), group.classIds + [row.id])], missing,
                counts[key := (if key in counts then counts[key] else 0) + 1])
  {
    WellFormedParts(row);
    WellFormedKeyIs(row);
    hide Missing, WellFormedKey, Split, BatchKey, Grouped;
    var all := rows + [row];
    assert all[..|rows|] == rows && all[|rows|] == row;
    assert missing + [] == missing;
    GroupKnown(rows, row, runs, known);
    forall key ensures CountOf(all, key) == CountOf(rows, key) + (if key == KeyText(row) then 1 else 0) { }
  }

  lemma GroupKnown(rows: seq<ClassRow>, row: ClassRow, runs: seq<string>, known: map<string, Group>)
    requires Grouped(rows, runs, known) && !Missing(row) && WellFormedKey(row) && |Split(KeyText(row), '/')| == 2
    ensures var parts := Split(KeyText(row), '/');
      var group := if parts[0] in known then known[parts[0]] else Group([], []);
      Grouped(rows + [row], AddNew(runs, parts[0]),
              known[parts[0] := Group(AddNew(group.unitIds, parts[1]), group.classIds + [row.id])])
  {
    hide Missing, WellFormedKey, Split;
    var all := rows + [row];
    assert all[..|rows|] == rows && all[|rows|] == row;
    var run := Split(KeyText(row), '/')[0];
    forall r ensures r != run ==> UnitsOf(all, r) == UnitsOf(rows, r) && ClassesOf(all, r) == ClassesOf(rows, r) {
      if r != run { OtherRun(rows, row, r); }
    }
  }

  method PriorIdentities(rows: seq<ClassRow>)
      returns (ok: bool, runs: seq<string>, known: map<string, Group>, missing: seq<int>, counts: map<string, nat>)
    ensures ok <==> forall i :: 0 <= i < |rows| ==> Readable(rows[i])
    ensures ok ==> Collected(rows, runs, known, missing, counts)
  {
    ok, runs, known, missing, counts := true, [], map[], [], map[];
    hide Missing, WellFormedKey, Split, Collected;
    CollectNothing();
    for i := 0 to |rows|
      invariant ok && forall j :: 0 <= j < i ==> Readable(rows[j])
      invariant Collected(rows[..i], runs, known, missing, counts)
    {
      var row := rows[i];
      assert rows[..i + 1] == rows[..i] + [row];
      if Missing(row) {
        CollectMissing(rows[..i], row, runs, known, missing, counts);
        missing := missing + [row.id];
      } else if !WellFormedKey(row) {
        ok := false;
        return;
      } else {
        WellFormedParts(row);
        CollectKnown(rows[..i], row, runs, known, missing, counts);
        var parts := Split(KeyText(row), '/');
        var key := KeyText(row);
        var group := if parts[0] in known then known[parts[0]] else Group([], []);
        runs := AddNew(runs, parts[0]);
        known := known[parts[0] := Group(AddNew(group.unitIds, parts[1]), group.classIds + [row.id])];
        counts := counts[key := (if key in counts then counts[key] else 0) + 1];
      }
    }
    assert rows[..|rows|] == rows;
  }

  /** The largest number of rows that share a key, or 0. */
  ghost predicate IsLargestCount(rows: seq<ClassRow>, m: nat) {
    && (forall key :: CountOf(rows, key) <= m)
    && (m > 0 ==> exists key :: CountOf(rows, key) == m)
  }

  function Carrying(rows: seq<ClassRow>, key: string): set<nat> {
    set i | 0 <= i < |rows| && rows[i].batchKey == Some(key)
  }

  /** The count of a key is the number of rows that carry it; blank keys do not count. */
  lemma {:induction false} CountOfKey(rows: seq<ClassRow>, key: string)
    ensures CountOf(rows, key) == if Blank(key) then 0 else |Carrying(rows, key)|
  {
    hide Blank;
    if rows == [] {
      assert Carrying(rows, key) == {};
    } else {
      var n: nat := |rows| - 1;
      CountOfKey(rows[..n], key);
      assert Carrying(rows, key) == Carrying(rows[..n], key) + if rows[n].batchKey == Some(key) then {n} else {};
    }
  }

  method LargestCount(counts: map<string, nat>, ghost rows: seq<ClassRow>) returns (m: nat)
    requires forall key :: (if key in counts then counts[key] else 0) == CountOf(rows, key)
    ensures IsLargestCount(rows, m)
  {
    m := 0;
    var rest := counts.Keys;
    while rest != {}
      invariant rest <= counts.Keys
      invariant forall key :: key in counts && key !in rest ==> counts[key] <= m
      invariant m > 0 ==> exists key :: key in counts && counts[key] == m
      decreases rest
    {
      var key :| key in rest;
      if counts[key] > m { m := counts[key]; }
      rest := rest - {key};
    }
    if m > 0 {
      var key :| key in counts && counts[key] == m;
      assert CountOf(rows, key) == m;
    }
  }

  /** The first of these that is not zero, raised to 1: the configured chunk size, the older setting, the
      inferred size, the default. */
  function BatchSize(perAgentRun: Option<int>, perRun: Option<int>, inferred: nat, default: int): (size: nat)
    ensures size >= 1
  {
    var configured := if perAgentRun.Some? && perAgentRun.value != 0 then perAgentRun.value
                      else if perRun.Some? then perRun.value else 0;
    var chosen := if configured != 0 then configured else if inferred != 0 then inferred else default;
    if chosen < 1 then 1 else chosen
  }

  /** The chunk size is the first of four that is neither missing nor zero, and 1 if that one is negative: the
      configured size, the older setting, the largest number of rows that shared a key, and the default. */
  lemma BatchSizePreference(perAgentRun: Option<int>, perRun: Option<int>, inferred: nat, default: int, n: int)
    requires n > 0
    ensures BatchSize(Some(n), perRun, inferred, default) == n
    ensures BatchSize(Some(-n), perRun, inferred, default) == 1
    ensures perAgentRun in {None, Some(0)} ==> BatchSize(perAgentRun, Some(n), inferred, default) == n
    ensures perAgentRun in {None, Some(0)} ==> BatchSize(perAgentRun, Some(-n), inferred, default) == 1
    ensures perAgentRun in {None, Some(0)} && perRun in {None, Some(0)} ==>
      && (inferred > 0 ==> BatchSize(perAgentRun, perRun, inferred, default) == inferred)
      && BatchSize(perAgentRun, perRun, 0, n) == n
      && BatchSize(perAgentRun, perRun, 0, 1 - n) == 1
  {
  }

  // ---- the new partition ----

  /** The id of the chunk that holds row `i`. */
  function UnitAt(rows: seq<ClassRow>, size: nat, index: nat, digest: Digester, i: nat): string
    requires size >= 1 && i < |rows|
    decreases |rows|
  {
    var n := ChunkLength(rows, size);
    if i < n then UnitId(index, digest(Targets(rows[..n]))) else UnitAt(rows[n..], size, index + 1, digest, i - n)
  }

  /** Chunks are named by targets alone. */
  lemma {:induction false} UnitAtByTargets(a: seq<ClassRow>, b: seq<ClassRow>, size: nat, index: nat, digest: Digester,
                                           i: nat)
    requires size >= 1 && i < |a| && Targets(a) == Targets(b)
    ensures |a| == |b| && UnitAt(a, size, index, digest, i) == UnitAt(b, size, index, digest, i)
    decreases |a|
  {
    var n := ChunkLength(a, size);
    assert |Targets(a)| == |Targets(b)|;
    assert Targets(a[..n]) == Targets(a)[..n] == Targets(b[..n]);
    assert Targets(a[n..]) == Targets(a)[n..] == Targets(b[n..]);
    if i >= n { UnitAtByTargets(a[n..], b[n..], size, index + 1, digest, i - n); }
  }

  lemma KeyedHead(head: WorkUnit, rest: seq<WorkUnit>, run: string)
    ensures RowsOf(KeyUnits([head] + rest, run))
         == WithKey(head.rows, BatchKey(run, head.id)) + RowsOf(KeyUnits(rest, run))
  {
    assert KeyUnits([head] + rest, run) == [KeyUnit(head, run)] + KeyUnits(rest, run);
    RowsOfConcat([KeyUnit(head, run)], KeyUnits(rest, run));
    RowsOfOne(KeyUnit(head, run));
  }

  /** Each rekeyed row carries the key of its chunk. */
  lemma {:induction false} KeyedRowAt(rows: seq<ClassRow>, run: string, size: nat, index: nat, digest: Digester, i: nat)
    requires size >= 1 && i < |rows|
    ensures var keyed := RowsOf(KeyUnits(Partition(rows, size, index, digest), run));
      |keyed| == |rows| && keyed[i] == rows[i].(batchKey := Some(BatchKey(run, UnitAt(rows, size, index, digest, i))))
    decreases |rows|
  {
    PartitionRows(rows, size, index, digest);
    KeyUnitsRows(Partition(rows, size, index, digest), run);
    PartitionUnfold(rows, size, index, digest);
    UnitAtUnfold(rows, size, index, digest, i);
    hide Partition, UnitId, UnitAt, RowsOf, KeyUnits, Targets;
    var n := ChunkLength(rows, size);
    var head := WorkUnit(UnitId(index, digest(Targets(rows[..n]))), rows[..n]);
    KeyedHead(head, Partition(rows[n..], size, index + 1, digest), run);
    if i >= n { KeyedRowAt(rows[n..], run, size, index + 1, digest, i - n); }
  }

  method PartitionByClass(rows: seq<ClassRow>, size: nat, digest: Digester)
      returns (byClass: map<int, string>, unitIds: seq<string>)
    requires size >= 1 && Distinct(Ids(rows))
    ensures ByClass(rows, size, digest, |rows|, byClass)
    ensures |unitIds| == |Partition(rows, size, 1, digest)|
    ensures forall k :: 0 <= k < |unitIds| ==> unitIds[k] == Partition(rows, size, 1, digest)[k].id
  {
    byClass, unitIds := map[], [];
    var start, index := 0, 1;
    assert rows[0..] == rows;
    while start < |rows|
      invariant start <= |rows| && ByClass(rows, size, digest, start, byClass)
      invariant PartitionedTo(rows, size, digest, start, index, unitIds)
      decreases |rows| - start
    {
      hide *;
      var end := if start + size < |rows| then start + size else |rows|;
      var members := rows[start..end];
      var unitId := UnitId(index, digest(Targets(members)));
      PartitionStep(rows, size, digest, start, end, index, unitIds);
      unitIds := unitIds + [unitId];
      byClass := AddMembers(rows, start, end, size, digest, byClass, unitId);
      start, index := end, index + 1;
    }
    assert rows[start..] == [];
  }

  /** The first `end` rows are entered under their chunk's id. */
  ghost predicate ByClass(rows: seq<ClassRow>, size: nat, digest: Digester, end: nat, byClass: map<int, string>)
    requires size >= 1 && end <= |rows|
  {
    forall i :: 0 <= i < end ==> rows[i].id in byClass && byClass[rows[i].id] == UnitAt(rows, size, 1, digest, i)
  }

  /** The chunks before `start` are listed, and the rest of the partition is that of the remaining rows. */
  ghost predicate PartitionedTo(rows: seq<ClassRow>, size: nat, digest: Digester, start: nat, index: nat,
                                unitIds: seq<string>)
    requires size >= 1 && start <= |rows|
  {
    var units, rest := Partition(rows, size, 1, digest), Partition(rows[start..], size, index, digest);
    && |units| == |unitIds| + |rest|
    && (forall k :: 0 <= k < |unitIds| ==> units[k].id == unitIds[k])
    && units[|unitIds|..] == rest
    && Placed(rows, size, digest, start, index)
  }

  lemma PartitionStep(rows: seq<ClassRow>, size: nat, digest: Digester, start: nat, end: nat, index: nat,
                      unitIds: seq<string>)
    requires size >= 1 && start < |rows| && end == (if start + size < |rows| then start + size else |rows|)
    requires PartitionedTo(rows, size, digest, start, index, unitIds)
    ensures var unitId := UnitId(index, digest(Targets(rows[start..end])));
      && PartitionedTo(rows, size, digest, end, index + 1, unitIds + [unitId])
      && forall i :: start <= i < end ==> UnitAt(rows, size, 1, digest, i) == unitId
  {
    hide Partition, UnitId, UnitAt, Placed;
    var rest := rows[start..];
    var n := ChunkLength(rest, size);
    assert n == end - start && rest[..n] == rows[start..end] && rest[n..] == rows[end..];
    PartitionUnfold(rest, size, index, digest);
    var units := Partition(rows, size, 1, digest);
    var head := Partition(rest, size, index, digest)[0];
    assert units[|unitIds|] == units[|unitIds|..][0] == head;
    assert units[|unitIds| + 1..] == units[|unitIds|..][1..];
    PlacedStep(rows, size, digest, start, end, index);
  }

  /** The rows from `start` on lie where the partition of the remaining rows puts them. */
  ghost predicate Placed(rows: seq<ClassRow>, size: nat, digest: Digester, start: nat, index: nat)
    requires size >= 1 && start <= |rows|
  {
    forall i ::
      start <= i < |rows| ==> UnitAt(rows, size, 1, digest, i) == UnitAt(rows[start..], size, index, digest, i - start)
  }

  lemma PlacedStep(rows: seq<ClassRow>, size: nat, digest: Digester, start: nat, end: nat, index: nat)
    requires size >= 1 && start < |rows| && end == (if start + size < |rows| then start + size else |rows|)
    requires Placed(rows, size, digest, start, index)
    ensures Placed(rows, size, digest, end, index + 1)
    ensures forall i :: start <= i < end ==>
      UnitAt(rows, size, 1, digest, i) == UnitId(index, digest(Targets(rows[start..end])))
  {
    hide UnitId, UnitAt;
    var rest := rows[start..];
    var n := ChunkLength(rest, size);
    assert n == end - start && rest[..n] == rows[start..end] && rest[n..] == rows[end..];
    forall i | start <= i < |rows|
      ensures UnitAt(rows, size, 1, digest, i)
           == if i < end then UnitId(index, digest(Targets(rows[start..end])))
              else UnitAt(rows[end..], size, index + 1, digest, i - end)
    {
      UnitAtUnfold(rest, size, index, digest, i - start);
    }
  }

  lemma UnitAtUnfold(rows: seq<ClassRow>, size: nat, index: nat, digest: Digester, i: nat)
    requires size >= 1 && i < |rows|
    ensures var n := ChunkLength(rows, size);
      UnitAt(rows, size, index, digest, i)
        == if i < n then UnitId(index, digest(Targets(rows[..n])))
           else UnitAt(rows[n..], size, index + 1, digest, i - n)
  {
  }

  method AddMembers(rows: seq<ClassRow>, start: nat, end: nat, size: nat, digest: Digester, byClass0: map<int, string>,
                    unitId: string)
      returns (byClass: map<int, string>)
    requires size >= 1 && start <= end <= |rows| && Distinct(Ids(rows))
    requires ByClass(rows, size, digest, start, byClass0)
    requires forall i :: start <= i < end ==> UnitAt(rows, size, 1, digest, i) == unitId
    ensures ByClass(rows, size, digest, end, byClass)
  {
    byClass := byClass0;
    for j := start to end
      invariant ByClass(rows, size, digest, j, byClass)
    {
      assert forall i :: 0 <= i < j ==> Ids(rows)[i] != Ids(rows)[j];
      byClass := byClass[rows[j].id := unitId];
    }
  }

  // ---- the rerun's effect, as a function of the rows ----

  function Requeued(rows: seq<ClassRow>, requeue: set<string>): (r: seq<ClassRow>)
    ensures |r| == |rows|
    ensures forall i ::
      0 <= i < |rows| ==> r[i] == rows[i].(status := if rows[i].status in requeue then "QUEUED" else rows[i].status)
  {
    seq(|rows|, i requires 0 <= i < |rows| =>
      rows[i].(status := if rows[i].status in requeue then "QUEUED" else rows[i].status))
  }

  lemma RequeuedTargets(rows: seq<ClassRow>, requeue: set<string>)
    ensures Targets(Requeued(rows, requeue)) == Targets(rows) && Ids(Requeued(rows, requeue)) == Ids(rows)
  {
  }

  /** All rows, requeued where the policy says so, under the new run's keys. */
  function RerunRows(rows: seq<ClassRow>, run: string, size: nat, digest: Digester, requeue: set<string>): seq<ClassRow>
    requires size >= 1
  {
    Rekeyed(Requeued(rows, requeue), run, size, digest)
  }

  lemma RerunRowAt(rows: seq<ClassRow>, run: string, size: nat, digest: Digester, requeue: set<string>, i: nat)
    requires size >= 1 && i < |rows|
    ensures |RerunRows(rows, run, size, digest, requeue)| == |rows|
    ensures RerunRows(rows, run, size, digest, requeue)[i]
         == Requeued(rows, requeue)[i].(batchKey := Some(BatchKey(run, UnitAt(rows, size, 1, digest, i))))
  {
    RequeuedTargets(rows, requeue);
    UnitAtByTargets(rows, Requeued(rows, requeue), size, 1, digest, i);
    KeyedRowAt(Requeued(rows, requeue), run, size, 1, digest, i);
  }

  lemma RerunRowsAre(rows: seq<ClassRow>, run: string, size: nat, digest: Digester, byClass: map<int, string>,
                     requeue: set<string>)
    requires size >= 1 && ByClass(rows, size, digest, |rows|, byClass)
    ensures |RerunRows(rows, run, size, digest, requeue)| == |rows|
    ensures forall i :: 0 <= i < |rows| ==> rows[i].id in byClass
    ensures forall i :: 0 <= i < |rows| ==>
      RerunRows(rows, run, size, digest, requeue)[i]
           == rows[i].(batchKey := Some(BatchKey(run, byClass[rows[i].id])),
                       status := if rows[i].status in requeue then "QUEUED" else rows[i].status)
  {
    hide UnitAt, BatchKey, RerunRows;
    forall i | 0 <= i < |rows|
      ensures |RerunRows(rows, run, size, digest, requeue)| == |rows|
      ensures RerunRows(rows, run, size, digest, requeue)[i]
           == Requeued(rows, requeue)[i].(batchKey := Some(BatchKey(run, byClass[rows[i].id])))
    {
      RerunRowAt(rows, run, size, digest, requeue, i);
    }
    RerunRowCount(rows, run, size, digest, requeue);
  }

  lemma RerunRowCount(rows: seq<ClassRow>, run: string, size: nat, digest: Digester, requeue: set<string>)
    requires size >= 1
    ensures |RerunRows(rows, run, size, digest, requeue)| == |rows|
  {
    RekeyedRows(Requeued(rows, requeue), run, size, digest);
  }

  /** A rerun queues unfinished classes again, failed ones when either force is given, passed and cancelled ones only
      when all are forced; every other status stays. */
  lemma RerunStatus(rows: seq<ClassRow>, run: string, size: nat, digest: Digester, forceFailed: bool, forceAll: bool,
                    i: nat)
    requires size >= 1 && i < |rows|
    ensures |RerunRows(rows, run, size, digest, RequeueStatuses(forceFailed, forceAll))| == |rows|
    ensures var before := rows[i].status;
      var after := RerunRows(rows, run, size, digest, RequeueStatuses(forceFailed, forceAll))[i].status;
      after == (if before in {"CREATED", "PENDING", "QUEUED", "RUNNING", "STOPPED"} then "QUEUED"
                else if before in {"PASS", "CANCELLED"} then if forceAll then "QUEUED" else before
                else if before in {"FAIL", "MUTATION_FAIL", "BUDGET_EXCEEDED", "PROVIDER_ERROR",
                                   "PROVIDER_RATE_LIMITED", "PUSH_FAILED", "UNSAFE_DIFF", "LLM_STALLED"}
                     then if forceFailed || forceAll then "QUEUED" else before
                else before)
  {
    hide RerunRows, UnitAt;
    RerunRowAt(rows, run, size, digest, RequeueStatuses(forceFailed, forceAll), i);
    hide Requeued;
    RequeuedByForce(rows[i].status, forceFailed, forceAll);
  }

  lemma RequeuedByForce(status: string, forceFailed: bool, forceAll: bool)
    ensures status in RequeueStatuses(forceFailed, forceAll) <==>
      || status in {"CREATED", "PENDING", "QUEUED", "RUNNING", "STOPPED"}
      || (status in {"PASS", "CANCELLED"} && forceAll)
      || (status in {"FAIL", "MUTATION_FAIL", "BUDGET_EXCEEDED", "PROVIDER_ERROR", "PROVIDER_RATE_LIMITED",
                     "PUSH_FAILED", "UNSAFE_DIFF", "LLM_STALLED"} && (forceFailed || forceAll))
  {
  }

  function CountStatus(rows: seq<ClassRow>, statuses: set<string>): nat {
    if rows == [] then 0
    else CountStatus(rows[..|rows| - 1], statuses) + (if rows[|rows| - 1].status in statuses then 1 else 0)
  }

  /** The unit ids that the given classes get, each once. */
  function NewUnits(byClass: map<int, string>, ids: seq<int>): seq<string>
    requires forall id :: id in ids ==> id in byClass
  {
    if ids == [] then []
    else
      var last := ids[|ids| - 1];
      assert last in ids;
      AddNew(NewUnits(byClass, ids[..|ids| - 1]), byClass[last])
  }

  /** One audit row: which classes moved from which old run (None: they had no identity) to the new run. */
  datatype Supersession = Supersession(taskId: int, oldRun: Option<string>, newRun: string, oldUnits: seq<string>,
                                       newUnits: seq<string>, classIds: seq<int>, requestedAt: int)

  function KnownSupersessions(taskId: int, rows: seq<ClassRow>, runs: seq<string>, newRun: string,
                              byClass: map<int, string>, now: int): seq<Supersession>
    requires forall i :: 0 <= i < |rows| ==> rows[i].id in byClass
  {
    if runs == [] then []
    else
      var run := runs[|runs| - 1];
      ClassesListed(rows, run);
      KnownSupersessions(taskId, rows, runs[..|runs| - 1], newRun, byClass, now)
        + [Supersession(taskId, Some(run), newRun, UnitsOf(rows, run), NewUnits(byClass, ClassesOf(rows, run)),
                        ClassesOf(rows, run), now)]
  }

  /** One row per old run, in order of first appearance, and one for the classes without identity if there are any. */
  function Supersessions(taskId: int, rows: seq<ClassRow>, newRun: string, byClass: map<int, string>,
                         now: int): seq<Supersession>
    requires forall i :: 0 <= i < |rows| ==> rows[i].id in byClass
  {
    MissingListed(rows);
    KnownSupersessions(taskId, rows, RunsOf(rows), newRun, byClass, now)
      + (if MissingIds(rows) == [] then []
         else [Supersession(taskId, None, newRun, [], NewUnits(byClass, MissingIds(rows)), MissingIds(rows), now)])
  }

  lemma {:induction false} ClassesListed(rows: seq<ClassRow>, run: string)
    ensures forall id ::
      id in ClassesOf(rows, run) <==> exists i :: 0 <= i < |rows| && rows[i].id == id && HeldBy(rows[i], run)
  {
    if rows != [] {
      var n := |rows| - 1;
      hide HeldBy;
      ClassesListed(rows[..n], run);
      forall id
        ensures id in ClassesOf(rows, run) <==> exists i :: 0 <= i < |rows| && rows[i].id == id && HeldBy(rows[i], run)
      {
        if id in ClassesOf(rows[..n], run) {
          var i :| 0 <= i < n && rows[..n][i].id == id && HeldBy(rows[..n][i], run);
          assert rows[i].id == id && HeldBy(rows[i], run);
        }
        if i :| 0 <= i < |rows| && rows[i].id == id && HeldBy(rows[i], run) {
          if i < n { assert rows[..n][i].id == id && HeldBy(rows[..n][i], run); }
        }
      }
    }
  }

  lemma {:induction false} MissingListed(rows: seq<ClassRow>)
    ensures forall id :: id in MissingIds(rows) <==> exists i :: 0 <= i < |rows| && rows[i].id == id && Missing(rows[i])
  {
    if rows != [] {
      var n := |rows| - 1;
      hide Missing;
      MissingListed(rows[..n]);
      forall id
        ensures id in MissingIds(rows) <==> exists i :: 0 <= i < |rows| && rows[i].id == id && Missing(rows[i])
      {
        if id in MissingIds(rows[..n]) {
          var i :| 0 <= i < n && rows[..n][i].id == id && Missing(rows[..n][i]);
          assert rows[i].id == id && Missing(rows[i]);
        }
        if i :| 0 <= i < |rows| && rows[i].id == id && Missing(rows[i]) {
          if i < n { assert rows[..n][i].id == id && Missing(rows[..n][i]); }
        }
      }
    }
  }

  // ---- conservation ----

  /** The old run a row belongs to; None when it has no identity. */
  function OldRun(row: ClassRow): Option<string> {
    if Missing(row) || !WellFormedKey(row) then None else Some(Split(KeyText(row), '/')[0])
  }

  /** The row stands under this run and unit. */
  predicate HasIdentity(row: ClassRow, run: string, unit: string) {
    IsIdentifier(run) && IsIdentifier(unit) && row.batchKey == Some(run + "/" + unit)
  }

  /** What a key says: nothing when there is none or it is blank, otherwise a run and a unit with a slash
      between them. */
  lemma ReadableExactly(row: ClassRow)
    ensures Readable(row) <==>
      row.batchKey == None || Blank(row.batchKey.value) || exists run, unit :: HasIdentity(row, run, unit)
    ensures row.batchKey == None || Blank(row.batchKey.value) ==> OldRun(row) == OldUnit(row) == None
    ensures forall run, unit :: HasIdentity(row, run, unit) ==> OldRun(row) == Some(run) && OldUnit(row) == Some(unit)
  {
    hide IsIdentifier, Split, Blank;
    forall run, unit | HasIdentity(row, run, unit)
      ensures WellFormedKey(row) && !Missing(row) && OldRun(row) == Some(run) && OldUnit(row) == Some(unit)
    {
      SplitBatchKey(run, unit);
      SlashIsInk(run, unit);
    }
    if WellFormedKey(row) {
      WellFormedParts(row);
      WellFormedKeyIs(row);
      assert HasIdentity(row, Split(KeyText(row), '/')[0], Split(KeyText(row), '/')[1]) || row.batchKey == None;
    }
  }

  lemma SlashIsInk(run: string, unit: string)
    ensures !Blank(run + "/" + unit)
  {
    assert (run + "/" + unit)[|run|] == '/' && !IsSpace('/');
  }

  lemma RunsSnoc(rows: seq<ClassRow>)
    requires rows != []
    ensures var before, old_ := RunsOf(rows[..|rows| - 1]), OldRun(rows[|rows| - 1]);
      RunsOf(rows) == if old_.Some? then AddNew(before, old_.value) else before
  {
  }

  lemma AddNewDistinct<T>(s: seq<T>, x: T)
    requires Distinct(s)
    ensures Distinct(AddNew(s, x))
  {
  }

  lemma {:induction false} RunsListed(rows: seq<ClassRow>)
    ensures Distinct(RunsOf(rows))
    ensures forall run :: run in RunsOf(rows) <==> exists i :: 0 <= i < |rows| && OldRun(rows[i]) == Some(run)
  {
    if rows != [] {
      var n := |rows| - 1;
      hide OldRun, RunsOf, Distinct;
      RunsSnoc(rows);
      RunsListed(rows[..n]);
      if OldRun(rows[n]).Some? { AddNewDistinct(RunsOf(rows[..n]), OldRun(rows[n]).value); }
      forall run ensures run in RunsOf(rows) <==> exists i :: 0 <= i < |rows| && OldRun(rows[i]) == Some(run) {
        HeldBefore(rows, run);
      }
    }
  }

  lemma HeldBefore(rows: seq<ClassRow>, run: string)
    requires rows != []
    ensures var front := rows[..|rows| - 1];
      (exists i :: 0 <= i < |rows| && OldRun(rows[i]) == Some(run))
      <==> (exists i :: 0 <= i < |front| && OldRun(front[i]) == Some(run)) || OldRun(rows[|rows| - 1]) == Some(run)
  {
    hide OldRun;
    var front := rows[..|rows| - 1];
    if i :| 0 <= i < |front| && OldRun(front[i]) == Some(run) { assert OldRun(rows[i]) == Some(run); }
    if i :| 0 <= i < |rows| && OldRun(rows[i]) == Some(run) { assert i < |front| ==> front[i] == rows[i]; }
  }

  /** What one audit row stands for: exactly the classes of its old run. */
  ghost predicate RecordsRun(s: Supersession, rows: seq<ClassRow>) {
    forall id :: id in s.classIds <==> exists i :: 0 <= i < |rows| && rows[i].id == id && OldRun(rows[i]) == s.oldRun
  }

  lemma {:induction false} KnownSupersessionsAre(taskId: int, rows: seq<ClassRow>, runs: seq<string>, newRun: string,
                                                 byClass: map<int, string>, now: int)
    requires forall i :: 0 <= i < |rows| ==> rows[i].id in byClass
    ensures var s := KnownSupersessions(taskId, rows, runs, newRun, byClass, now);
      |s| == |runs| && forall k :: 0 <= k < |s| ==>
        s[k].oldRun == Some(runs[k]) && s[k].newRun == newRun && s[k].taskId == taskId && s[k].requestedAt == now
        && s[k].classIds == ClassesOf(rows, runs[k]) && s[k].oldUnits == UnitsOf(rows, runs[k])
  {
    if runs != [] { KnownSupersessionsAre(taskId, rows, runs[..|runs| - 1], newRun, byClass, now); }
  }

  /** Every class of the task is recorded in exactly one audit row, that of its old run; nothing else is
      recorded; and every audit row names the new run. */
  lemma EachClassRecordedOnce(taskId: int, rows: seq<ClassRow>, newRun: string, byClass: map<int, string>, now: int)
    requires forall i :: 0 <= i < |rows| ==> rows[i].id in byClass
    requires forall i :: 0 <= i < |rows| ==> Readable(rows[i])
    requires Distinct(Ids(rows))
    ensures var s := Supersessions(taskId, rows, newRun, byClass, now);
      && (forall k :: 0 <= k < |s| ==> RecordsRun(s[k], rows) && s[k].newRun == newRun)
      && (forall j, k :: 0 <= j < k < |s| ==> s[j].oldRun != s[k].oldRun)
      && (forall i :: 0 <= i < |rows| ==> Recorded(s, rows[i]))
  {
    hide *;
    var s := Supersessions(taskId, rows, newRun, byClass, now);
    AuditRowsDiffer(taskId, rows, newRun, byClass, now);
    forall k | 0 <= k < |s| ensures RecordsRun(s[k], rows) && s[k].newRun == newRun {
      AuditRowRecords(taskId, rows, newRun, byClass, now, k);
    }
    forall i | 0 <= i < |rows| ensures Recorded(s, rows[i]) {
      ClassIsRecorded(taskId, rows, newRun, byClass, now, i);
    }
  }

  /** Some audit row stands for the row's old run. */
  ghost predicate Recorded(s: seq<Supersession>, row: ClassRow) {
    exists k :: 0 <= k < |s| && s[k].oldRun == OldRun(row)
  }

  lemma AuditRowsDiffer(taskId: int, rows: seq<ClassRow>, newRun: string, byClass: map<int, string>, now: int)
    requires forall i :: 0 <= i < |rows| ==> rows[i].id in byClass
    ensures var s := Supersessions(taskId, rows, newRun, byClass, now);
      forall j, k :: 0 <= j < k < |s| ==> s[j].oldRun != s[k].oldRun
  {
    hide KnownSupersessions, RunsOf, MissingIds;
    RunsListed(rows);
    MissingListed(rows);
    KnownSupersessionsAre(taskId, rows, RunsOf(rows), newRun, byClass, now);
  }

  lemma ClassIsRecorded(taskId: int, rows: seq<ClassRow>, newRun: string, byClass: map<int, string>, now: int, i: nat)
    requires forall i :: 0 <= i < |rows| ==> rows[i].id in byClass
    requires forall i :: 0 <= i < |rows| ==> Readable(rows[i])
    requires i < |rows|
    ensures Recorded(Supersessions(taskId, rows, newRun, byClass, now), rows[i])
  {
    hide Missing, WellFormedKey, Split, KnownSupersessions, RunsOf, MissingIds, OldRun;
    var runs, s := RunsOf(rows), Supersessions(taskId, rows, newRun, byClass, now);
    RunsListed(rows);
    MissingListed(rows);
    KnownSupersessionsAre(taskId, rows, runs, newRun, byClass, now);
    if OldRun(rows[i]).Some? {
      assert OldRun(rows[i]).value in runs;
      var k :| 0 <= k < |runs| && runs[k] == OldRun(rows[i]).value;
      assert s[k].oldRun == OldRun(rows[i]);
    } else {
      MissingIsNoRun(rows);
      assert rows[i].id in MissingIds(rows);
      assert s[|runs|].oldRun == None;
    }
  }

  lemma AuditRowRecords(taskId: int, rows: seq<ClassRow>, newRun: string, byClass: map<int, string>, now: int, k: nat)
    requires forall i :: 0 <= i < |rows| ==> rows[i].id in byClass
    requires forall i :: 0 <= i < |rows| ==> Readable(rows[i])
    requires k < |Supersessions(taskId, rows, newRun, byClass, now)|
    ensures var s := Supersessions(taskId, rows, newRun, byClass, now); RecordsRun(s[k], rows) && s[k].newRun == newRun
  {
    hide Missing, WellFormedKey, Split, KnownSupersessions, RunsOf, MissingIds;
    var runs := RunsOf(rows);
    MissingListed(rows);
    KnownSupersessionsAre(taskId, rows, runs, newRun, byClass, now);
    if k < |runs| {
      ClassesListed(rows, runs[k]);
      HeldIsOldRun(rows, runs[k]);
    } else {
      MissingIsNoRun(rows);
    }
  }

  function OldUnit(row: ClassRow): Option<string> {
    if Missing(row) || !WellFormedKey(row) then None
    else
      WellFormedParts(row);
      Some(Split(KeyText(row), '/')[1])
  }

  lemma {:induction false} NewUnitsListed(byClass: map<int, string>, ids: seq<int>)
    requires forall id :: id in ids ==> id in byClass
    ensures forall u :: u in NewUnits(byClass, ids) <==> exists id :: id in ids && byClass[id] == u
  {
    if ids != [] {
      var front, last := ids[..|ids| - 1], ids[|ids| - 1];
      assert last in ids && forall id :: id in ids <==> id in front || id == last;
      NewUnitsListed(byClass, front);
    }
  }

  lemma {:induction false} UnitsListed(rows: seq<ClassRow>, run: string)
    ensures forall u :: u in UnitsOf(rows, run) <==> exists i :: 0 <= i < |rows| && HadUnit(rows[i], Some(run), u)
  {
    if rows != [] {
      var n := |rows| - 1;
      UnitsListed(rows[..n], run);
      UnitsOfLast(rows, run);
      hide UnitsOf, HadUnit;
      forall u ensures u in UnitsOf(rows, run) <==> exists i :: 0 <= i < |rows| && HadUnit(rows[i], Some(run), u) {
        if i :| 0 <= i < n && HadUnit(rows[..n][i], Some(run), u) { assert HadUnit(rows[i], Some(run), u); }
        if i :| 0 <= i < |rows| && HadUnit(rows[i], Some(run), u) { assert i < n ==> rows[..n][i] == rows[i]; }
      }
    }
  }

  lemma UnitsOfLast(rows: seq<ClassRow>, run: string)
    requires rows != []
    ensures forall u ::
      u in UnitsOf(rows, run) <==> (u in UnitsOf(rows[..|rows| - 1], run) || HadUnit(rows[|rows| - 1], Some(run), u))
  {
    hide Missing, WellFormedKey, Split;
  }

  /** The row was filed under this run and unit before the rerun. */
  predicate HadUnit(row: ClassRow, run: Option<string>, unit: string) {
    OldRun(row) == run && OldUnit(row) == Some(unit)
  }

  lemma BatchKeyUnit(run: string, a: string, b: string)
    ensures BatchKey(run, a) == BatchKey(run, b) <==> a == b
  {
    assert BatchKey(run, a)[|run| + 1..] == a && BatchKey(run, b)[|run| + 1..] == b;
  }

  /** An audit row's old units are exactly those its classes had, its new units exactly those they carry afterwards. */
  lemma AuditNamesUnits(taskId: int, rows: seq<ClassRow>, newRun: string, size: nat, digest: Digester,
                        byClass: map<int, string>, requeue: set<string>, now: int, k: nat, unit: string)
    requires size >= 1 && ByClass(rows, size, digest, |rows|, byClass)
    requires forall i :: 0 <= i < |rows| ==> Readable(rows[i])
    requires k < |Supersessions(taskId, rows, newRun, byClass, now)|
    ensures var s := Supersessions(taskId, rows, newRun, byClass, now)[k];
      var rows' := RerunRows(rows, newRun, size, digest, requeue);
      && |rows'| == |rows|
      && (unit in s.oldUnits <==> exists i :: 0 <= i < |rows| && HadUnit(rows[i], s.oldRun, unit))
      && (unit in s.newUnits <==> exists i ::
           0 <= i < |rows| && OldRun(rows[i]) == s.oldRun && rows'[i].batchKey == Some(BatchKey(newRun, unit)))
  {
    var s := Supersessions(taskId, rows, newRun, byClass, now)[k];
    var rows' := RerunRows(rows, newRun, size, digest, requeue);
    RerunRowsAre(rows, newRun, size, digest, byClass, requeue);
    AuditRowRecords(taskId, rows, newRun, byClass, now, k);
    AuditRowUnits(taskId, rows, newRun, byClass, now, k, unit);
    hide Supersessions, RerunRows, ByClass, OldRun, OldUnit, BatchKey;
    forall i | 0 <= i < |rows|
      ensures rows'[i].batchKey == Some(BatchKey(newRun, unit)) <==> byClass[rows[i].id] == unit
    {
      BatchKeyUnit(newRun, byClass[rows[i].id], unit);
    }
    if i :| 0 <= i < |rows| && OldRun(rows[i]) == s.oldRun && rows'[i].batchKey == Some(BatchKey(newRun, unit)) {
      assert rows[i].id in s.classIds;
    }
    if unit in s.newUnits {
      var id :| id in s.classIds && byClass[id] == unit;
      var i :| 0 <= i < |rows| && rows[i].id == id && OldRun(rows[i]) == s.oldRun;
      assert rows'[i].batchKey == Some(BatchKey(newRun, unit));
    }
  }

  lemma AuditRowUnits(taskId: int, rows: seq<ClassRow>, newRun: string, byClass: map<int, string>, now: int, k: nat,
                      unit: string)
    requires forall i :: 0 <= i < |rows| ==> rows[i].id in byClass
    requires forall i :: 0 <= i < |rows| ==> Readable(rows[i])
    requires k < |Supersessions(taskId, rows, newRun, byClass, now)|
    ensures var s := Supersessions(taskId, rows, newRun, byClass, now)[k];
      && (forall id :: id in s.classIds ==> id in byClass)
      && (unit in s.newUnits <==> exists id :: id in s.classIds && byClass[id] == unit)
      && (unit in s.oldUnits <==> exists i :: 0 <= i < |rows| && HadUnit(rows[i], s.oldRun, unit))
  {
    hide Missing, WellFormedKey, Split, KnownSupersessions, RunsOf, MissingIds, UnitsOf, ClassesOf, HeldBy, NewUnits;
    var runs := RunsOf(rows);
    MissingListed(rows);
    KnownSupersessionsAre(taskId, rows, runs, newRun, byClass, now);
    if k < |runs| {
      KnownUnitsAre(taskId, rows, runs, newRun, byClass, now, k);
      ClassesListed(rows, runs[k]);
      UnitsListed(rows, runs[k]);
      NewUnitsListed(byClass, ClassesOf(rows, runs[k]));
    } else {
      NewUnitsListed(byClass, MissingIds(rows));
    }
  }

  lemma {:induction false} KnownUnitsAre(taskId: int, rows: seq<ClassRow>, runs: seq<string>, newRun: string,
                                         byClass: map<int, string>, now: int, k: nat)
    requires forall i :: 0 <= i < |rows| ==> rows[i].id in byClass
    requires k < |runs| == |KnownSupersessions(taskId, rows, runs, newRun, byClass, now)|
    ensures forall id :: id in ClassesOf(rows, runs[k]) ==> id in byClass
    ensures KnownSupersessions(taskId, rows, runs, newRun, byClass, now)[k].newUnits
         == NewUnits(byClass, ClassesOf(rows, runs[k]))
  {
    hide ClassesOf, UnitsOf, NewUnits, HeldBy;
    var front := runs[..|runs| - 1];
    ClassesListed(rows, runs[k]);
    KnownSupersessionsAre(taskId, rows, front, newRun, byClass, now);
    if k < |front| { KnownUnitsAre(taskId, rows, front, newRun, byClass, now, k); }
  }

  lemma HeldIsOldRun(rows: seq<ClassRow>, run: string)
    ensures forall i :: 0 <= i < |rows| ==> (HeldBy(rows[i], run) <==> OldRun(rows[i]) == Some(run))
  {
  }

  lemma MissingIsNoRun(rows: seq<ClassRow>)
    requires forall i :: 0 <= i < |rows| ==> Readable(rows[i])
    ensures forall i :: 0 <= i < |rows| ==> (Missing(rows[i]) <==> OldRun(rows[i]) == None)
  {
  }

  /** With distinct class ids no class is listed twice within an audit row either. */
  lemma {:induction false} ClassesDistinct(rows: seq<ClassRow>, run: string)
    requires Distinct(Ids(rows))
    ensures Distinct(ClassesOf(rows, run))
  {
    if rows != [] {
      var front, last := rows[..|rows| - 1], rows[|rows| - 1];
      assert Ids(front) == Ids(rows)[..|front|];
      ClassesDistinct(front, run);
      ClassesListed(front, run);
      forall i | 0 <= i < |front| ensures front[i].id != last.id {
        assert Ids(rows)[i] != Ids(rows)[|front|];
      }
      AppendDistinct(ClassesOf(front, run), last.id);
    }
  }

  lemma AppendDistinct<T>(s: seq<T>, x: T)
    ensures Distinct(s) && x !in s ==> Distinct(s + [x])
  {
  }

  // ---- in what order ----

  /** `x` occurs, and before `y` does. */
  ghost predicate Before<T(!new)>(values: seq<Option<T>>, x: T, y: T) {
    exists i :: 0 <= i < |values| && values[i] == Some(x) && Some(y) !in values[..i + 1]
  }

  /** `order` lists the values that occur, each once, in order of first appearance. */
  ghost predicate InOrderOfFirst<T(!new)>(order: seq<T>, values: seq<Option<T>>) {
    && Distinct(order) && (forall x :: x in order <==> Some(x) in values)
    && forall a, b :: 0 <= a < b < |order| ==> Before(values, order[a], order[b])
  }

  lemma BeforeStays<T(!new)>(values: seq<Option<T>>, v: Option<T>, x: T, y: T)
    requires Before(values, x, y)
    ensures Before(values + [v], x, y)
  {
    var i :| 0 <= i < |values| && values[i] == Some(x) && Some(y) !in values[..i + 1];
    assert (values + [v])[..i + 1] == values[..i + 1] && (values + [v])[i] == Some(x);
  }

  lemma NewComesLast<T(!new)>(values: seq<Option<T>>, x: T, y: T)
    requires Some(x) in values && Some(y) !in values
    ensures Before(values + [Some(y)], x, y)
  {
    var i :| 0 <= i < |values| && values[i] == Some(x);
    assert (values + [Some(y)])[..i + 1] == values[..i + 1] && (values + [Some(y)])[i] == Some(x);
  }

  lemma AddNewInOrder<T(!new)>(order: seq<T>, values: seq<Option<T>>, v: Option<T>)
    requires InOrderOfFirst(order, values)
    ensures InOrderOfFirst(if v.Some? then AddNew(order, v.value) else order, values + [v])
  {
    var next := if v.Some? then AddNew(order, v.value) else order;
    if v.Some? { AddNewDistinct(order, v.value); }
    forall a, b | 0 <= a < b < |next| ensures Before(values + [v], next[a], next[b]) {
      if b < |order| {
        BeforeStays(values, v, order[a], order[b]);
      } else {
        assert order[a] in order;
        NewComesLast(values, order[a], v.value);
      }
    }
    forall x ensures x in next <==> Some(x) in values + [v] { }
  }

  function OldRuns(rows: seq<ClassRow>): (r: seq<Option<string>>)
    ensures |r| == |rows|
  {
    seq(|rows|, i requires 0 <= i < |rows| => OldRun(rows[i]))
  }

  function OldUnitsUnder(rows: seq<ClassRow>, run: string): (r: seq<Option<string>>)
    ensures |r| == |rows|
  {
    seq(|rows|, i requires 0 <= i < |rows| => if OldRun(rows[i]) == Some(run) then OldUnit(rows[i]) else None)
  }

  lemma {:induction false} RunsInOrder(rows: seq<ClassRow>)
    ensures InOrderOfFirst(RunsOf(rows), OldRuns(rows))
  {
    hide OldRun, RunsOf, InOrderOfFirst;
    if rows == [] {
      NothingInOrder();
    } else {
      var n := |rows| - 1;
      RunsInOrder(rows[..n]);
      RunsSnoc(rows);
      AddNewInOrder(RunsOf(rows[..n]), OldRuns(rows[..n]), OldRun(rows[n]));
      assert OldRuns(rows) == OldRuns(rows[..n]) + [OldRun(rows[n])];
    }
  }

  lemma NothingInOrder()
    ensures RunsOf([]) == [] && InOrderOfFirst<string>([], [])
    ensures forall run :: UnitsOf([], run) == []
  {
  }

  lemma UnitsSnoc(rows: seq<ClassRow>, run: string)
    requires rows != []
    ensures var before, last := UnitsOf(rows[..|rows| - 1], run), rows[|rows| - 1];
      UnitsOf(rows, run)
        == if OldRun(last) == Some(run) && OldUnit(last).Some? then AddNew(before, OldUnit(last).value) else before
  {
    hide Split, Missing;
  }

  lemma {:induction false} OldUnitsInOrder(rows: seq<ClassRow>, run: string)
    ensures InOrderOfFirst(UnitsOf(rows, run), OldUnitsUnder(rows, run))
  {
    hide OldRun, OldUnit, UnitsOf, InOrderOfFirst;
    if rows == [] {
      NothingInOrder();
    } else {
      var n := |rows| - 1;
      OldUnitsInOrder(rows[..n], run);
      UnitsSnoc(rows, run);
      var v := if OldRun(rows[n]) == Some(run) then OldUnit(rows[n]) else None;
      AddNewInOrder(UnitsOf(rows[..n], run), OldUnitsUnder(rows[..n], run), v);
      assert OldUnitsUnder(rows, run) == OldUnitsUnder(rows[..n], run) + [v];
    }
  }

  /** The units the listed classes carry afterwards. */
  function UnitsAfter(byClass: map<int, string>, ids: seq<int>): (r: seq<Option<string>>) {
    seq(|ids|, i requires 0 <= i < |ids| => if ids[i] in byClass then Some(byClass[ids[i]]) else None)
  }

  lemma {:induction false} NewUnitsInOrder(byClass: map<int, string>, ids: seq<int>)
    requires forall id :: id in ids ==> id in byClass
    ensures InOrderOfFirst(NewUnits(byClass, ids), UnitsAfter(byClass, ids))
  {
    hide InOrderOfFirst;
    if ids == [] {
      NothingInOrder();
    } else {
      var n := |ids| - 1;
      var last := ids[n];
      assert last in ids;
      NewUnitsInOrder(byClass, ids[..n]);
      AddNewInOrder(NewUnits(byClass, ids[..n]), UnitsAfter(byClass, ids[..n]), Some(byClass[last]));
      assert UnitsAfter(byClass, ids) == UnitsAfter(byClass, ids[..n]) + [Some(byClass[last])];
    }
  }

  /** The ids of the rows under one old run, in row order; those without identity have the run None. */
  function IdsUnder(rows: seq<ClassRow>, oldRun: Option<string>): seq<int> {
    if rows == [] then []
    else (if OldRun(rows[0]) == oldRun then [rows[0].id] else []) + IdsUnder(rows[1..], oldRun)
  }

  lemma IdsUnderHead(rows: seq<ClassRow>, oldRun: Option<string>)
    ensures rows == [] ==> IdsUnder(rows, oldRun) == []
    ensures rows != [] ==>
      IdsUnder(rows, oldRun) == (if OldRun(rows[0]) == oldRun then [rows[0].id] else []) + IdsUnder(rows[1..], oldRun)
  {
  }

  lemma {:induction false} IdsUnderSnoc(rows: seq<ClassRow>, row: ClassRow, oldRun: Option<string>)
    ensures IdsUnder(rows + [row], oldRun) == IdsUnder(rows, oldRun) + if OldRun(row) == oldRun then [row.id] else []
  {
    hide OldRun, IdsUnder;
    IdsUnderHead(rows, oldRun);
    IdsUnderHead(rows + [row], oldRun);
    if rows == [] {
      assert ([] + [row])[1..] == [];
      IdsUnderHead([], oldRun);
    } else {
      assert (rows + [row])[1..] == rows[1..] + [row];
      IdsUnderSnoc(rows[1..], row, oldRun);
    }
  }

  lemma {:induction false} ClassesInOrder(rows: seq<ClassRow>, run: string)
    ensures ClassesOf(rows, run) == IdsUnder(rows, Some(run))
  {
    if rows != [] {
      var n := |rows| - 1;
      HeldIsOldRun(rows, run);
      hide HeldBy, OldRun;
      ClassesInOrder(rows[..n], run);
      IdsUnderSnoc(rows[..n], rows[n], Some(run));
      assert rows == rows[..n] + [rows[n]];
    }
  }

  lemma {:induction false} MissingInOrder(rows: seq<ClassRow>)
    requires forall i :: 0 <= i < |rows| ==> Readable(rows[i])
    ensures MissingIds(rows) == IdsUnder(rows, None)
  {
    if rows != [] {
      var n := |rows| - 1;
      MissingIsNoRun(rows);
      hide Missing, OldRun, Readable;
      MissingInOrder(rows[..n]);
      IdsUnderSnoc(rows[..n], rows[n], None);
      assert rows == rows[..n] + [rows[n]];
    }
  }

  /** What the audit row of one old run holds: the classes in row order, and old and new units in the order in which
      these classes first show them. */
  ghost predicate IsAuditRow(s: Supersession, taskId: int, rows: seq<ClassRow>, newRun: string,
                             byClass: map<int, string>, now: int, oldRun: Option<string>) {
    && s.taskId == taskId && s.oldRun == oldRun && s.newRun == newRun && s.requestedAt == now
    && s.classIds == IdsUnder(rows, oldRun)
    && (if oldRun == None then s.oldUnits == [] else InOrderOfFirst(s.oldUnits, OldUnitsUnder(rows, oldRun.value)))
    && (forall id :: id in s.classIds ==> id in byClass)
    && InOrderOfFirst(s.newUnits, UnitsAfter(byClass, s.classIds))
  }

  /** The audit rows come in the order in which the old runs first appear, the one for classes without identity last. */
  lemma AuditInOrder(taskId: int, rows: seq<ClassRow>, newRun: string, byClass: map<int, string>, now: int)
      returns (runs: seq<string>)
    requires forall i :: 0 <= i < |rows| ==> rows[i].id in byClass && Readable(rows[i])
    ensures InOrderOfFirst(runs, OldRuns(rows))
    ensures var s := Supersessions(taskId, rows, newRun, byClass, now);
      && |s| == |runs| + (if IdsUnder(rows, None) == [] then 0 else 1)
      && forall k :: 0 <= k < |s| ==>
           IsAuditRow(s[k], taskId, rows, newRun, byClass, now, if k < |runs| then Some(runs[k]) else None)
  {
    runs := RunsOf(rows);
    RunsInOrder(rows);
    MissingInOrder(rows);
    MissingListed(rows);
    KnownSupersessionsAre(taskId, rows, runs, newRun, byClass, now);
    var s := Supersessions(taskId, rows, newRun, byClass, now);
    hide KnownSupersessions, RunsOf, MissingIds, Missing, Readable, InOrderOfFirst, IdsUnder, NewUnits, OldUnitsUnder;
    forall k | 0 <= k < |runs| ensures IsAuditRow(s[k], taskId, rows, newRun, byClass, now, Some(runs[k])) {
      KnownUnitsAre(taskId, rows, runs, newRun, byClass, now, k);
      ClassesInOrder(rows, runs[k]);
      OldUnitsInOrder(rows, runs[k]);
      NewUnitsInOrder(byClass, s[k].classIds);
    }
    NewUnitsInOrder(byClass, MissingIds(rows));
  }

  // ---- the counters ----

  /** A status that is neither terminal nor one of the non-failures: unknown to the task model. */
  function CountStray(rows: seq<ClassRow>): nat {
    if rows == [] then 0
    else
      var known := rows[|rows| - 1].status in TERMINAL_CLASS_STATUSES + NON_FAILURE;
      CountStray(rows[..|rows| - 1]) + (if known then 0 else 1)
  }

  function CountFailed(rows: seq<ClassRow>): nat {
    if rows == [] then 0
    else CountFailed(rows[..|rows| - 1]) + (if rows[|rows| - 1].status !in NON_FAILURE then 1 else 0)
  }

  /** Passed and failed add up to completed, except that unknown statuses are counted as failed only. */
  lemma {:induction false} PassedPlusFailed(rows: seq<ClassRow>)
    ensures CountStatus(rows, {"PASS"}) + CountFailed(rows)
         == CountStatus(rows, TERMINAL_CLASS_STATUSES) + CountStray(rows)
  {
    if rows != [] { PassedPlusFailed(rows[..|rows| - 1]); }
  }

  lemma {:induction false} NoStrays(rows: seq<ClassRow>)
    ensures CountStray(rows) == 0 <==> forall i :: 0 <= i < |rows| ==> rows[i].status in CLASS_STATUSES
  {
    if rows != [] {
      var n := |rows| - 1;
      NoStrays(rows[..n]);
      assert TERMINAL_CLASS_STATUSES + NON_FAILURE == CLASS_STATUSES;
      assert forall i :: 0 <= i < n ==> rows[..n][i] == rows[i];
    }
  }

  /** The stored counters are consistent exactly when every row has a status the task model knows. */
  lemma CountersConsistent(rows: seq<ClassRow>)
    ensures CountStatus(rows, {"PASS"}) + CountFailed(rows) == CountStatus(rows, TERMINAL_CLASS_STATUSES)
       <==> forall i :: 0 <= i < |rows| ==> rows[i].status in CLASS_STATUSES
  {
    PassedPlusFailed(rows);
    NoStrays(rows);
  }

  // ---- the transaction ----

  datatype TaskRow = TaskRow(status: string, finishedAt: Option<int>, updatedAt: int, resumeCount: int, completed: nat,
                             passed: nat, failed: nat)

  /** The task row after the rerun: queued again, with counters recounted over the rewritten rows. */
  function QueuedTask(task: TaskRow, rows: seq<ClassRow>, now: int): TaskRow {
    TaskRow("QUEUED", None, now, task.resumeCount + 1,
            CountStatus(rows, TERMINAL_CLASS_STATUSES), CountStatus(rows, {"PASS"}), CountFailed(rows))
  }

  /** The positions of the rows with one of the statuses. */
  function Having(rows: seq<ClassRow>, statuses: set<string>): set<nat> {
    set i | 0 <= i < |rows| && rows[i].status in statuses
  }

  lemma {:induction false} CountIsHaving(rows: seq<ClassRow>, statuses: set<string>)
    ensures CountStatus(rows, statuses) == |Having(rows, statuses)|
  {
    if rows == [] {
      assert Having(rows, statuses) == {};
    } else {
      var n: nat := |rows| - 1;
      CountIsHaving(rows[..n], statuses);
      assert Having(rows, statuses) == Having(rows[..n], statuses) + if rows[n].status in statuses then {n} else {};
    }
  }

  lemma {:induction false} FailedIsRest(rows: seq<ClassRow>)
    ensures CountFailed(rows) + CountStatus(rows, NON_FAILURE) == |rows|
  {
    if rows != [] { FailedIsRest(rows[..|rows| - 1]); }
  }

  /** After the rerun the task is queued and unfinished, resumed once more, and its counters are the numbers of its rows
      that are over, that passed, and that are neither passed nor still to be worked on. */
  lemma QueuedTaskCounts(task: TaskRow, rows: seq<ClassRow>, now: int)
    ensures var queued := QueuedTask(task, rows, now);
      && queued.status == "QUEUED" && queued.finishedAt == None && queued.updatedAt == now
      && queued.resumeCount == task.resumeCount + 1
      && queued.completed == |Having(rows, {"PASS", "FAIL", "MUTATION_FAIL", "BUDGET_EXCEEDED", "PROVIDER_ERROR",
                                            "PROVIDER_RATE_LIMITED", "PUSH_FAILED", "UNSAFE_DIFF", "LLM_STALLED",
                                            "CANCELLED"})|
      && queued.passed == |Having(rows, {"PASS"})|
      && queued.failed == |rows| - |Having(rows, {"PASS", "CREATED", "PENDING", "QUEUED", "RUNNING", "STOPPED",
                                                  "GENERATED"})|
  {
    hide Having, CountStatus;
    CountIsHaving(rows, TERMINAL_CLASS_STATUSES);
    CountIsHaving(rows, {"PASS"});
    CountIsHaving(rows, NON_FAILURE);
    FailedIsRest(rows);
  }

  /** The statuses of a task that has ended. */
  predicate HasEnded(status: string) {
    status in {"STOPPED", "COMPLETED", "FAILED", "CANCELLED", "POISONED", "BUDGET_EXCEEDED"}
  }

  lemma EndedIs(status: string)
    ensures HasEnded(status) <==> status == "STOPPED" || status in TERMINAL_REPO_STATUSES
  {
  }

  datatype RerunRequest = RerunRequest(taskId: int, confirmTaskId: int, reason: string, forceFailed: bool,
                                       forceAll: bool, perAgentRun: Option<int>, perRun: Option<int>, defaultSize: int)

  ghost predicate Served(request: RerunRequest, task: TaskRow, rows: seq<ClassRow>, durable: bool, activeLease: bool) {
    && !Blank(request.reason) && request.confirmTaskId == request.taskId
    && durable && HasEnded(task.status) && !activeLease && rows != []
    && forall i :: 0 <= i < |rows| ==> Readable(rows[i])
  }

  /** A rerun is refused exactly without a reason, without the right confirmation, for a task that is not
      durable, has not ended or is still leased, without rows, and with a row whose key is neither blank nor two
      identifiers. */
  lemma RefusedExactly(request: RerunRequest, task: TaskRow, rows: seq<ClassRow>, durable: bool, activeLease: bool)
    ensures !Served(request, task, rows, durable, activeLease) <==>
      || (forall i :: 0 <= i < |request.reason| ==> IsSpace(request.reason[i]))
      || request.confirmTaskId != request.taskId || !durable || activeLease || rows == []
      || task.status !in {"STOPPED", "COMPLETED", "FAILED", "CANCELLED", "POISONED", "BUDGET_EXCEEDED"}
      || exists i :: 0 <= i < |rows| && !Readable(rows[i])
  {
  }

  /** The first `i` rows are rewritten, the others as they were. */
  ghost predicate Rewriting(now: seq<ClassRow>, before: seq<ClassRow>, target: seq<ClassRow>, i: nat) {
    && i <= |now| == |before| == |target|
    && (forall j :: 0 <= j < i ==> now[j] == target[j]) && forall j :: i <= j < |now| ==> now[j] == before[j]
  }

  lemma RewriteStep(now: seq<ClassRow>, before: seq<ClassRow>, target: seq<ClassRow>, i: nat)
    requires Rewriting(now, before, target, i) && i < |now|
    ensures now[i] == before[i] && Rewriting(now[i := target[i]], before, target, i + 1)
  {
  }

  class TaskStore {
    var task: TaskRow
    var rows: seq<ClassRow>
    var supersessions: seq<Supersession>

    constructor (task: TaskRow, rows: seq<ClassRow>)
      ensures this.task == task && this.rows == rows && supersessions == []
    {
      this.task, this.rows, this.supersessions := task, rows, [];
    }

    static method Rewrite(row: ClassRow, batchKey: string, requeue: set<string>) returns (r: ClassRow)
      ensures r == row.(batchKey := Some(batchKey), status := if row.status in requeue then "QUEUED" else row.status)
    {
      if row.status in requeue {
        r := row.(batchKey := Some(batchKey), status := "QUEUED");
      } else {
        r := row.(batchKey := Some(batchKey));
      }
    }

    /** Rewrites every row's key, and its status when the policy requeues it; returns the resulting statuses. */
    method ReplaceKeysAndRequeue(newRun: string, size: nat, digest: Digester, byClass: map<int, string>,
                                 requeue: set<string>)
        returns (statuses: seq<string>)
      requires size >= 1 && ByClass(rows, size, digest, |rows|, byClass)
      modifies `rows
      ensures rows == RerunRows(old(rows), newRun, size, digest, requeue)
      ensures |statuses| == |rows| && forall i :: 0 <= i < |rows| ==> statuses[i] == rows[i].status
    {
      statuses := [];
      RerunRowsAre(rows, newRun, size, digest, byClass, requeue);
      ghost var target := RerunRows(rows, newRun, size, digest, requeue);
      ghost var before := rows;
      hide RerunRows, ByClass, BatchKey;
      for i := 0 to |rows|
        invariant Rewriting(rows, before, target, i)
        invariant |statuses| == i && forall j :: 0 <= j < i ==> statuses[j] == target[j].status
      {
        RewriteStep(rows, before, target, i);
        var row := Rewrite(rows[i], BatchKey(newRun, byClass[rows[i].id]), requeue);
        statuses := statuses + [row.status];
        rows := rows[i := row];
      }
    }

    /** One audit row per old run in order of appearance, then one for classes without identity. */
    method InsertSupersessions(taskId: int, ghost before: seq<ClassRow>, runs: seq<string>, known: map<string, Group>,
                               missing: seq<int>, newRun: string, byClass: map<int, string>, now: int)
      requires forall i :: 0 <= i < |before| ==> before[i].id in byClass
      requires runs == RunsOf(before) && missing == MissingIds(before)
      requires forall run ::
        run in runs ==> run in known && known[run] == Group(UnitsOf(before, run), ClassesOf(before, run))
      modifies `supersessions
      ensures supersessions == old(supersessions) + Supersessions(taskId, before, newRun, byClass, now)
    {
      ghost var start := supersessions;
      MissingListed(before);
      hide RunsOf, MissingIds, UnitsOf, ClassesOf, HeldBy, Missing;
      for k := 0 to |runs|
        invariant supersessions == start + KnownSupersessions(taskId, before, runs[..k], newRun, byClass, now)
      {
        var group := known[runs[k]];
        ClassesListed(before, runs[k]);
        assert runs[..k + 1][..k] == runs[..k];
        supersessions := supersessions
          + [Supersession(taskId, Some(runs[k]), newRun, group.unitIds, NewUnits(byClass, group.classIds),
                          group.classIds, now)];
      }
      assert runs[..|runs|] == runs;
      if missing != [] {
        supersessions := supersessions
          + [Supersession(taskId, None, newRun, [], NewUnits(byClass, missing), missing, now)];
      }
    }

    method QueueTask(statuses: seq<string>, now: int)
      requires |statuses| == |rows| && forall i :: 0 <= i < |rows| ==> statuses[i] == rows[i].status
      modifies `task
      ensures task == QueuedTask(old(task), rows, now)
    {
      var completed, passed, failed := 0, 0, 0;
      for i := 0 to |statuses|
        invariant completed == CountStatus(rows[..i], TERMINAL_CLASS_STATUSES)
        invariant passed == CountStatus(rows[..i], {"PASS"}) && failed == CountFailed(rows[..i])
      {
        assert rows[..i + 1][..i] == rows[..i];
        completed := completed + if statuses[i] in TERMINAL_CLASS_STATUSES then 1 else 0;
        passed := passed + if statuses[i] == "PASS" then 1 else 0;
        failed := failed + if statuses[i] !in NON_FAILURE then 1 else 0;
      }
      assert rows[..|rows|] == rows;
      task := TaskRow("QUEUED", None, now, task.resumeCount + 1, completed, passed, failed);
    }

    /** The whole transaction: refused without any change, or carried out on task, rows and audit table together. */
    method CleanRerunGeneration(request: RerunRequest, durable: bool, activeLease: bool, newRun: string,
                                digest: Digester, now: int)
        returns (ok: bool, ghost size: nat, ghost byClass: map<int, string>)
      requires Distinct(Ids(rows)) && IsIdentifier(newRun)
      modifies this
      ensures ok <==> Served(request, old(task), old(rows), durable, activeLease)
      ensures !ok ==> task == old(task) && rows == old(rows) && supersessions == old(supersessions)
      ensures ok ==>
        && size >= 1 && ByClass(old(rows), size, digest, |old(rows)|, byClass)
        && (exists largest: nat :: IsLargestCount(old(rows), largest)
              && size == BatchSize(request.perAgentRun, request.perRun, largest, request.defaultSize))
        && rows == RerunRows(old(rows), newRun, size, digest, RequeueStatuses(request.forceFailed, request.forceAll))
        && supersessions == old(supersessions) + Supersessions(request.taskId, old(rows), newRun, byClass, now)
        && task == QueuedTask(old(task), rows, now)
    {
      hide Supersessions, RerunRows, UnitAt, Partition, QueuedTask, RunsOf, MissingIds, UnitsOf, ClassesOf, CountOf;
      EndedIs(task.status);
      hide BatchSize, RequeueStatuses, Blank, HasEnded;
      size, byClass := 1, map[];
      if Blank(request.reason) || request.confirmTaskId != request.taskId { return false, size, byClass; }
      if !durable { return false, size, byClass; }
      if task.status != "STOPPED" && task.status !in TERMINAL_REPO_STATUSES { return false, size, byClass; }
      if activeLease { return false, size, byClass; }
      if rows == [] { return false, size, byClass; }
      var readable, runs, known, missing, counts := PriorIdentities(rows);
      if !readable { return false, size, byClass; }
      var largest := LargestCount(counts, rows);
      var batchSize := BatchSize(request.perAgentRun, request.perRun, largest, request.defaultSize);
      ghost var before := rows;
      var unitByClass, unitIds := PartitionByClass(rows, batchSize, digest);
      var statuses := ReplaceKeysAndRequeue(newRun, batchSize, digest, unitByClass,
                                            RequeueStatuses(request.forceFailed, request.forceAll));
      InsertSupersessions(request.taskId, before, runs, known, missing, newRun, unitByClass, now);
      QueueTask(statuses, now);
      size, byClass := batchSize, unitByClass;
      ok := true;
    }
  }

  /** It happens: "SKIPPED" ends a class for the generation batches (uta/testgen/batches.py:18), but the task model
      does not know it; a rerun leaves such a row alone and counts it as failed without counting it as completed. */
  lemma SkippedIsMiscounted(task: TaskRow, row: ClassRow, run: string, size: nat, digest: Digester, forceFailed: bool,
                            forceAll: bool, now: int)
    requires size >= 1 && row.status == "SKIPPED"
    ensures var requeue := RequeueStatuses(forceFailed, forceAll);
      var queued := QueuedTask(task, RerunRows([row], run, size, digest, requeue), now);
      queued.completed == 0 && queued.passed == 0 && queued.failed == 1
  {
    hide RerunRows, UnitAt, RequeueStatuses, CountStatus, CountFailed;
    var requeue := RequeueStatuses(forceFailed, forceAll);
    RequeuedByForce(row.status, forceFailed, forceAll);
    RerunRowAt([row], run, size, digest, requeue, 0);
    CountOne(RerunRows([row], run, size, digest, requeue));
  }

  lemma CountOne(rows: seq<ClassRow>)
    requires |rows| == 1 && rows[0].status == "SKIPPED"
    ensures CountStatus(rows, TERMINAL_CLASS_STATUSES) == 0
    ensures CountStatus(rows, {"PASS"}) == 0 && CountFailed(rows) == 1
  {
    assert rows[..0] == [];
  }

  // ---- what the rerun achieves ----

  /** Whatever state the keys were in, mixed, missing or non-contiguous, after a rerun the rows carry exactly the
      rerun's partition under the new run: a call with the full list, any batch size and no other run is
      accepted, returns that partition and writes nothing; it is refused only when targets repeat. */
  lemma RerunIsAccepted(rows: seq<ClassRow>, newRun: string, size: nat, digest: Digester, requeue: set<string>,
                        laterSize: int, requestedRun: Option<string>, freshRun: string, laterDigest: Digester)
    requires rows != [] && |rows| < ROW_LIMIT && size >= 1 && laterSize >= 1 && IsIdentifier(newRun)
    requires requestedRun in {None, Some(newRun)}
    ensures var rows' := RerunRows(rows, newRun, size, digest, requeue);
      Ensured(rows', Targets(rows), laterSize, requestedRun, freshRun, laterDigest)
        == (rows', if Distinct(Targets(rows))
                   then Accepted(BatchesOf(newRun, KeyUnits(Partition(Requeued(rows, requeue), size, 1, digest),
                                                            newRun)))
                   else Refused)
  {
    var plain := Requeued(rows, requeue);
    RequeuedTargets(rows, requeue);
    RekeyedRows(plain, newRun, size, digest);
    RekeyedGroups(plain, newRun, size, digest);
    var rows' := RerunRows(rows, newRun, size, digest, requeue);
    if Distinct(Targets(rows)) {
      StoredGroupingIsStable(rows', newRun, KeyUnits(Partition(plain, size, 1, digest), newRun), laterSize,
                             requestedRun, freshRun, laterDigest);
    } else {
      ElementsCount(Targets(rows));
    }
  }

  /** ... and that partition is a lossless chunking of the full target list. */
  lemma RerunIsChunking(rows: seq<ClassRow>, newRun: string, size: nat, digest: Digester, requeue: set<string>)
    requires |rows| < ROW_LIMIT && size >= 1 && IsIdentifier(newRun)
    ensures IsChunking(Targets(rows), size, newRun, digest,
                       BatchesOf(newRun, KeyUnits(Partition(Requeued(rows, requeue), size, 1, digest), newRun)))
  {
    RequeuedTargets(rows, requeue);
    RekeyedChunking(Requeued(rows, requeue), newRun, size, digest);
  }
}
