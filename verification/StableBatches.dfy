/** Assign once, then reconstruct: the operation on a task's class rows, what it does over repeated
    calls, and the adapter that widens a resume's subset to the full list. */
module StableBatches {
  import opened Options
  import opened Ordering
  import opened Identifiers
  import opened Batches

  ghost function Reconstructed(rows: seq<ClassRow>): (r: Outcome)
    ensures IsReconstruction(rows, r)
  {
    if exists run, units :: IsGrouping(rows, run, units) then
      var run, units :| IsGrouping(rows, run, units);
      Accepted(BatchesOf(run, units))
    else Refused
  }

  predicate NoneKeyed(rows: seq<ClassRow>) { forall i :: 0 <= i < |rows| ==> !Keyed(rows[i]) }
  predicate AllKeyed(rows: seq<ClassRow>) { forall i :: 0 <= i < |rows| ==> Keyed(rows[i]) }

  /** The run a first assignment writes: the requested one, or a fresh one when none (or "") is given. */
  function RunToAssign(requestedRun: Option<string>, freshRun: string): string {
    if requestedRun.Some? && requestedRun.value != "" then requestedRun.value else freshRun
  }

  /** The rows a call works on once the request is acceptable: as stored, or keyed for the first time. */
  function Assigned(rows: seq<ClassRow>, size: nat, run: string, digest: Digester): seq<ClassRow>
    requires size >= 1
  {
    if NoneKeyed(rows) then Rekeyed(rows, run, size, digest) else rows
  }

  predicate Acceptable(rows: seq<ClassRow>, requested: seq<string>, size: int, run: string) {
    && |Elements(requested)| == |requested| && size >= 1 && Targets(rows) == requested
    && (rows != [] ==> AllKeyed(rows) || (NoneKeyed(rows) && IsIdentifier(run)))
  }

  /** The transaction: new rows and result; a refusal rolls back. */
  ghost function Ensured(rows: seq<ClassRow>, requested: seq<string>, size: int, requestedRun: Option<string>,
                         freshRun: string, digest: Digester): (seq<ClassRow>, Outcome)
  {
    if !Acceptable(rows, requested, size, RunToAssign(requestedRun, freshRun)) then (rows, Refused)
    else if rows == [] then (rows, Accepted([]))
    else
      var rows' := Assigned(rows, size, RunToAssign(requestedRun, freshRun), digest);
      var r := Reconstructed(rows');
      var otherRun := requestedRun.Some? && r.Accepted? && r.batches != [] && r.batches[0].runId != requestedRun.value;
      if r.Refused? || otherRun then (rows, Refused)
      else (rows', r)
  }

  class ClassTasks {
    var rows: seq<ClassRow>

    constructor (rows: seq<ClassRow>)
      ensures this.rows == rows
    {
      this.rows := rows;
    }

    /** The keying loop: one chunk of rows is updated after the other. */
    method AssignKeys(run: string, size: nat, digest: Digester)
      requires size >= 1
      modifies this
      ensures rows == Rekeyed(old(rows), run, size, digest)
    {
      var start, index := 0, 1;
      ghost var done: seq<WorkUnit> := [];
      assert rows[0..] == rows;
      while start < |rows|
        invariant KeyingTo(old(rows), rows, start, index, done, run, size, digest)
        decreases |rows| - start
      {
        var end := if start + size < |rows| then start + size else |rows|;
        var members := rows[start..end];
        var unitId := UnitId(index, digest(Targets(members)));
        KeyingStep(old(rows), rows, start, end, index, done, run, size, digest);
        done := done + [WorkUnit(unitId, members)];
        rows := rows[..start] + WithKey(members, BatchKey(run, unitId)) + rows[end..];
        start, index := end, index + 1;
      }
      KeyingDone(old(rows), rows, start, index, done, run, size, digest);
    }

    method EnsureStableGenerationBatches(requested: seq<string>, size: int, requestedRun: Option<string>,
                                         freshRun: string, digest: Digester) returns (r: Outcome)
      modifies this
      ensures (rows, r) == Ensured(old(rows), requested, size, requestedRun, freshRun, digest)
    {
      if |Elements(requested)| != |requested| { return Refused; }
      if size < 1 { return Refused; }
      if Targets(rows) != requested { return Refused; }
      if rows == [] { return Accepted([]); }
      if !NoneKeyed(rows) && !AllKeyed(rows) { return Refused; }
      var stored := rows;
      if NoneKeyed(rows) {
        var runId := RunToAssign(requestedRun, freshRun);
        if !IsIdentifier(runId) { return Refused; }
        AssignKeys(runId, size, digest);
        RekeyedRows(stored, runId, size, digest);
      }
      OneNotBoth(stored);
      r := Reconstruct(rows);
      ReconstructionUnique(rows, r, Reconstructed(rows));
      if r.Refused? {
        rows := stored;
        return;
      }
      if requestedRun.Some? && r.batches != [] && r.batches[0].runId != requestedRun.value {
        rows := stored;
        return Refused;
      }
    }
  }

  /** The loop's knowledge: the rows before `start` carry the keys of the units `done`, the rest are untouched. */
  ghost predicate KeyingTo(before: seq<ClassRow>, now: seq<ClassRow>, start: nat, index: nat, done: seq<WorkUnit>,
                           run: string, size: nat, digest: Digester)
    requires size >= 1
  {
    && start <= |before| == |now|
    && now[..start] == RowsOf(KeyUnits(done, run)) && now[start..] == before[start..]
    && done + Partition(before[start..], size, index, digest) == Partition(before, size, 1, digest)
  }

  lemma KeyingStep(before: seq<ClassRow>, now: seq<ClassRow>, start: nat, end: nat, index: nat, done: seq<WorkUnit>,
                   run: string, size: nat, digest: Digester)
    requires size >= 1 && KeyingTo(before, now, start, index, done, run, size, digest)
    requires start < |now| && end == (if start + size < |now| then start + size else |now|)
    ensures var members := now[start..end];
      var unitId := UnitId(index, digest(Targets(members)));
      KeyingTo(before, now[..start] + WithKey(members, BatchKey(run, unitId)) + now[end..], end, index + 1,
               done + [WorkUnit(unitId, members)], run, size, digest)
  {
    hide Partition, UnitId, RowsOf;
    var rest, members := before[start..], now[start..end];
    var unit := WorkUnit(UnitId(index, digest(Targets(members))), members);
    assert members == now[start..][..end - start] == rest[..end - start];
    assert before[end..] == rest[end - start..] && now[end..] == now[start..][end - start..];
    KeyOneMore(done, unit, run);
    var next := now[..start] + WithKey(members, BatchKey(run, unit.id)) + now[end..];
    KeyedSlices(now[..start], WithKey(members, BatchKey(run, unit.id)), now[end..], start, end);
    PartitionUnfold(rest, size, index, digest);
    assert done + ([unit] + Partition(before[end..], size, index + 1, digest))
        == (done + [unit]) + Partition(before[end..], size, index + 1, digest);
  }

  lemma KeyedSlices<T>(a: seq<T>, b: seq<T>, c: seq<T>, start: nat, end: nat)
    requires |a| == start && |a| + |b| == end
    ensures (a + b + c)[..end] == a + b && (a + b + c)[end..] == c
  {
  }

  lemma KeyingDone(before: seq<ClassRow>, now: seq<ClassRow>, start: nat, index: nat, done: seq<WorkUnit>, run: string,
                   size: nat, digest: Digester)
    requires size >= 1 && KeyingTo(before, now, start, index, done, run, size, digest) && start >= |now|
    ensures now == Rekeyed(before, run, size, digest)
  {
    assert before[start..] == [] && now[..start] == now;
    assert done + [] == done;
  }

  lemma OneNotBoth(rows: seq<ClassRow>)
    requires rows != []
    ensures !(NoneKeyed(rows) && AllKeyed(rows))
  {
    assert Keyed(rows[0]) || !Keyed(rows[0]);
  }

  lemma KeyOneMore(done: seq<WorkUnit>, unit: WorkUnit, run: string)
    ensures RowsOf(KeyUnits(done + [unit], run))
         == RowsOf(KeyUnits(done, run)) + WithKey(unit.rows, BatchKey(run, unit.id))
  {
    assert KeyUnits(done + [unit], run)[..|done|] == KeyUnits(done, run);
  }

  // ---- what it does over repeated calls ----

  lemma ReconstructedGrouping(rows: seq<ClassRow>, run: string, units: seq<WorkUnit>)
    requires rows != [] && IsGrouping(rows, run, units)
    ensures Reconstructed(rows) == Accepted(BatchesOf(run, units))
  {
    ReconstructionUnique(rows, Reconstructed(rows), Accepted(BatchesOf(run, units)));
  }

  /** All members of all batches, in order. */
  function Members(batches: seq<Batch>): seq<string> {
    if batches == [] then [] else Members(batches[..|batches| - 1]) + batches[|batches| - 1].targetIds
  }

  lemma {:induction false} MembersOfBatches(run: string, units: seq<WorkUnit>)
    ensures Members(BatchesOf(run, units)) == Targets(RowsOf(units))
  {
    if units != [] {
      var init := units[..|units| - 1];
      MembersOfBatches(run, init);
      assert BatchesOf(run, units)[..|units| - 1] == BatchesOf(run, init);
    }
  }

  function MemberIds(batches: seq<Batch>): seq<int> {
    if batches == [] then [] else MemberIds(batches[..|batches| - 1]) + batches[|batches| - 1].classIds
  }

  lemma {:induction false} MemberIdsOfBatches(run: string, units: seq<WorkUnit>)
    ensures MemberIds(BatchesOf(run, units)) == Ids(RowsOf(units))
  {
    if units != [] {
      var init := units[..|units| - 1];
      MemberIdsOfBatches(run, init);
      assert BatchesOf(run, units)[..|units| - 1] == BatchesOf(run, init);
    }
  }

  /** Row `row` is a member of the batch and carries its key, the run and the unit with a slash between them. */
  predicate MemberOf(row: ClassRow, batch: Batch) {
    && |batch.targetIds| == |batch.classIds| && row.batchKey == Some(batch.runId + "/" + batch.unitId)
    && exists j :: 0 <= j < |batch.classIds| && batch.classIds[j] == row.id && batch.targetIds[j] == Target(row)
  }

  /** Accepted keys mean: all the rows, in order, in nonempty batches of one run, each row in a batch whose key it
      carries, and no unit twice. */
  lemma AcceptedHoldsRows(rows: seq<ClassRow>, batches: seq<Batch>)
    requires IsReconstruction(rows, Accepted(batches))
    ensures Members(batches) == Targets(rows) && MemberIds(batches) == Ids(rows)
    ensures forall k :: 0 <= k < |batches| ==> batches[k].classIds != []
    ensures forall j, k :: 0 <= j < k < |batches| ==>
      batches[j].runId == batches[k].runId && batches[j].unitId != batches[k].unitId
    ensures forall i :: 0 <= i < |rows| ==> exists k :: 0 <= k < |batches| && MemberOf(rows[i], batches[k])
  {
    var run, units :| IsGrouping(rows, run, units) && batches == BatchesOf(run, units);
    MembersOfBatches(run, units);
    MemberIdsOfBatches(run, units);
    hide IsIdentifier, Target;
    forall k | 0 <= k < |batches| ensures batches[k].classIds != [] { assert UnitKeyed(units[k], run); }
    forall i | 0 <= i < |rows| ensures exists k :: 0 <= k < |batches| && MemberOf(rows[i], batches[k]) {
      var k, j := RowInUnit(units, i);
      assert UnitKeyed(units[k], run);
      assert batches[k].classIds[j] == rows[i].id && batches[k].targetIds[j] == Target(rows[i]);
      assert MemberOf(rows[i], batches[k]);
    }
  }

  /** A chunking of `requested` into `batches`: nothing lost, added or reordered; every unit but the last
      holds exactly `size` targets; units are named by their number, from 1, and the digest of their targets, and
      their ids are distinct; one run throughout. */
  ghost predicate IsChunking(requested: seq<string>, size: int, run: string, digest: Digester, batches: seq<Batch>) {
    && Members(batches) == requested
    && (forall k :: 0 <= k < |batches| ==>
          && batches[k].targetIds != [] && batches[k].runId == run
          && batches[k].unitId == UnitId(k + 1, digest(batches[k].targetIds))
          && (k < |batches| - 1 ==> |batches[k].targetIds| == size))
    && (forall i, j :: 0 <= i < j < |batches| ==> batches[i].unitId != batches[j].unitId)
  }

  /** A first assignment is a lossless chunking of the requested list, and it changes keys only. */
  lemma FirstAssignment(rows: seq<ClassRow>, requested: seq<string>, size: int, requestedRun: Option<string>,
                        freshRun: string, digest: Digester)
    requires rows != [] && |rows| < ROW_LIMIT && NoneKeyed(rows) && size >= 1
    requires Targets(rows) == requested && Distinct(requested)
    requires requestedRun != Some("") && IsIdentifier(RunToAssign(requestedRun, freshRun))
    ensures var run := RunToAssign(requestedRun, freshRun);
      var (rows', r) := Ensured(rows, requested, size, requestedRun, freshRun, digest);
      && r.Accepted? && IsChunking(requested, size, run, digest, r.batches)
      && r.batches == BatchesOf(run, KeyUnits(Partition(rows, size, 1, digest), run))
      && rows' == Rekeyed(rows, run, size, digest)
  {
    var run := RunToAssign(requestedRun, freshRun);
    RekeyedChunking(rows, run, size, digest);
    RekeyedRows(rows, run, size, digest);
    RekeyedGroups(rows, run, size, digest);
    hide *;
    var units := KeyUnits(Partition(rows, size, 1, digest), run);
    ReconstructedGrouping(Rekeyed(rows, run, size, digest), run, units);
    RunOfBatches(run, units);
    FirstAccepted(rows, requested, size, requestedRun, freshRun, digest, BatchesOf(run, units));
  }

  lemma RunOfBatches(run: string, units: seq<WorkUnit>)
    ensures BatchesOf(run, units) != [] ==> BatchesOf(run, units)[0].runId == run
  {
  }

  /** Unkeyed rows pass the checks, and the stored keys are what the reconstruction is given. */
  lemma FirstAccepted(rows: seq<ClassRow>, requested: seq<string>, size: int, requestedRun: Option<string>,
                      freshRun: string, digest: Digester, batches: seq<Batch>)
    requires rows != [] && NoneKeyed(rows) && size >= 1 && Targets(rows) == requested && Distinct(requested)
    requires requestedRun != Some("") && IsIdentifier(RunToAssign(requestedRun, freshRun))
    requires Reconstructed(Rekeyed(rows, RunToAssign(requestedRun, freshRun), size, digest)) == Accepted(batches)
    requires batches != [] ==> batches[0].runId == RunToAssign(requestedRun, freshRun)
    ensures Ensured(rows, requested, size, requestedRun, freshRun, digest)
         == (Rekeyed(rows, RunToAssign(requestedRun, freshRun), size, digest), Accepted(batches))
  {
    hide Rekeyed, Reconstructed, IsIdentifier;
    ElementsCount(requested);
    OneNotBoth(rows);
  }

  lemma RekeyedChunking(rows: seq<ClassRow>, run: string, size: nat, digest: Digester)
    requires size >= 1 && |rows| < ROW_LIMIT && IsIdentifier(run)
    ensures IsChunking(Targets(rows), size, run, digest,
                       BatchesOf(run, KeyUnits(Partition(rows, size, 1, digest), run)))
  {
    var plain := Partition(rows, size, 1, digest);
    var units := KeyUnits(plain, run);
    var batches := BatchesOf(run, units);
    RekeyedRows(rows, run, size, digest);
    MembersOfBatches(run, units);
    PartitionDistinct(rows, size, 1, digest);
    hide Partition, UnitId, IsIdentifier, Targets, Ids, Members, KeyUnit;
    forall k | 0 <= k < |batches|
      ensures batches[k].targetIds != [] && batches[k].runId == run && batches[k].unitId == plain[k].id
      ensures batches[k].unitId == UnitId(k + 1, digest(batches[k].targetIds))
      ensures k < |batches| - 1 ==> |batches[k].targetIds| == size
    {
      ChunkBatch(rows, run, size, digest, k);
    }
  }

  lemma ChunkBatch(rows: seq<ClassRow>, run: string, size: nat, digest: Digester, k: nat)
    requires size >= 1 && |rows| < ROW_LIMIT && k < |Partition(rows, size, 1, digest)|
    ensures var plain := Partition(rows, size, 1, digest);
      var batch := BatchesOf(run, KeyUnits(plain, run))[k];
      && batch.targetIds != [] && batch.runId == run && batch.unitId == plain[k].id
      && batch.unitId == UnitId(k + 1, digest(batch.targetIds)) && (k < |plain| - 1 ==> |batch.targetIds| == size)
  {
    PartitionUnit(rows, size, 1, digest, k);
    var unit := Partition(rows, size, 1, digest)[k];
    hide Partition, UnitId, IsIdentifier;
    assert Targets(WithKey(unit.rows, BatchKey(run, unit.id))) == Targets(unit.rows);
  }

  /** Rows that carry a grouping are all keyed. */
  lemma GroupedRowsKeyed(rows: seq<ClassRow>, run: string, units: seq<WorkUnit>)
    requires IsGrouping(rows, run, units)
    ensures AllKeyed(rows)
  {
    forall i | 0 <= i < |rows| ensures Keyed(rows[i]) { var k := GroupedRow(rows, run, units, i); }
  }

  /** The list names every row in order, by its target id or, where there is none, by its class name. */
  predicate NamesRows(rows: seq<ClassRow>, names: seq<string>) {
    && |names| == |rows|
    && forall i :: 0 <= i < |rows| ==>
         if |rows[i].targetId| > 0 then names[i] == rows[i].targetId else names[i] == rows[i].classFqn
  }

  lemma NamesAreTargets(rows: seq<ClassRow>, names: seq<string>)
    ensures NamesRows(rows, names) <==> Targets(rows) == names
  {
  }

  /** No key yet, and a run to assign: the one asked for, or the fresh one. */
  predicate Assignable(rows: seq<ClassRow>, requestedRun: Option<string>, freshRun: string) {
    && (forall i :: 0 <= i < |rows| ==> rows[i].batchKey in {None, Some("")})
    && requestedRun != Some("") && IsIdentifier(if requestedRun.Some? then requestedRun.value else freshRun)
  }

  /** Keys that describe contiguous units of one run, which is the run asked for if one is. */
  ghost predicate StoredFor(rows: seq<ClassRow>, requestedRun: Option<string>) {
    exists run, units :: IsGrouping(rows, run, units) && requestedRun in {None, Some(run)}
  }

  /** When a call is accepted, for every stored state and every request; a refusal changes no row, and a first
      assignment is made under the run asked for, or the fresh one. */
  lemma AcceptedExactly(rows: seq<ClassRow>, requested: seq<string>, size: int, requestedRun: Option<string>,
                        freshRun: string, digest: Digester)
    requires |rows| < ROW_LIMIT
    ensures var (rows', r) := Ensured(rows, requested, size, requestedRun, freshRun, digest);
      && (r.Accepted? <==>
            && Distinct(requested) && size >= 1 && NamesRows(rows, requested)
            && (rows == [] || Assignable(rows, requestedRun, freshRun) || StoredFor(rows, requestedRun)))
      && (r.Refused? ==> rows' == rows)
      && (r.Accepted? && rows != [] && Assignable(rows, requestedRun, freshRun) ==>
            IsChunking(requested, size, if requestedRun.Some? then requestedRun.value else freshRun, digest, r.batches))
  {
    NamesAreTargets(rows, requested);
    ElementsCount(requested);
    if rows != [] && Distinct(requested) && size >= 1 && NamesRows(rows, requested) {
      hide IsIdentifier, IsChunking;
      if Assignable(rows, requestedRun, freshRun) {
        assert NoneKeyed(rows);
        FirstAssignment(rows, requested, size, requestedRun, freshRun, digest);
      } else if StoredFor(rows, requestedRun) {
        var run, units :| IsGrouping(rows, run, units) && requestedRun in {None, Some(run)};
        StoredGroupingIsStable(rows, run, units, size, requestedRun, freshRun, digest);
      } else {
        NotAcceptable(rows, requested, size, requestedRun, freshRun, digest);
      }
    }
  }

  lemma NotAcceptable(rows: seq<ClassRow>, requested: seq<string>, size: int, requestedRun: Option<string>,
                      freshRun: string, digest: Digester)
    requires 0 < |rows| < ROW_LIMIT && size >= 1
    requires !Assignable(rows, requestedRun, freshRun) && !StoredFor(rows, requestedRun)
    ensures Ensured(rows, requested, size, requestedRun, freshRun, digest).1.Refused?
  {
    if NoneKeyed(rows) {
      NotAssigned(rows, requested, size, requestedRun, freshRun, digest);
    } else {
      NotStored(rows, requested, size, requestedRun, freshRun, digest);
    }
  }

  lemma UnkeyedIs(rows: seq<ClassRow>)
    ensures NoneKeyed(rows) <==> forall i :: 0 <= i < |rows| ==> rows[i].batchKey in {None, Some("")}
  {
    forall i | 0 <= i < |rows| ensures Keyed(rows[i]) <==> rows[i].batchKey !in {None, Some("")} { }
  }

  lemma NotAssigned(rows: seq<ClassRow>, requested: seq<string>, size: int, requestedRun: Option<string>,
                    freshRun: string, digest: Digester)
    requires 0 < |rows| < ROW_LIMIT && size >= 1 && NoneKeyed(rows) && !Assignable(rows, requestedRun, freshRun)
    ensures Ensured(rows, requested, size, requestedRun, freshRun, digest).1.Refused?
  {
    hide IsIdentifier, Rekeyed, Partition, KeyUnits, BatchesOf, IsGrouping;
    var run := RunToAssign(requestedRun, freshRun);
    OneNotBoth(rows);
    if IsIdentifier(run) {
      UnkeyedIs(rows);
      assert requestedRun == Some("");
      RekeyedGroups(rows, run, size, digest);
      var units := KeyUnits(Partition(rows, size, 1, digest), run);
      RekeyedRows(rows, run, size, digest);
      ReconstructedGrouping(Rekeyed(rows, run, size, digest), run, units);
      PartitionCount(rows, size, 1, digest);
      RunOfBatches(run, units);
      assert !IsIdentifier("") by { IdentifierGrows("", 'a'); }
    }
  }

  lemma NotStored(rows: seq<ClassRow>, requested: seq<string>, size: int, requestedRun: Option<string>,
                  freshRun: string, digest: Digester)
    requires rows != [] && size >= 1 && !NoneKeyed(rows) && !StoredFor(rows, requestedRun)
    ensures Ensured(rows, requested, size, requestedRun, freshRun, digest).1.Refused?
  {
    var r := Reconstructed(rows);
    hide Reconstructed, IsIdentifier, Rekeyed;
    if r.Accepted? {
      var stored, units :| IsGrouping(rows, stored, units) && r.batches == BatchesOf(stored, units);
      RowsOfNonempty(units, stored);
      RunOfBatches(stored, units);
      assert units != [];
    }
  }

  /** On rows that carry a grouping every call with the full list returns that grouping and writes nothing,
      whatever batch size it asks for, unless it names another run. */
  lemma StoredGroupingIsStable(rows: seq<ClassRow>, run: string, units: seq<WorkUnit>, size: int,
                               requestedRun: Option<string>, freshRun: string, digest: Digester)
    requires rows != [] && IsGrouping(rows, run, units) && Distinct(Targets(rows)) && size >= 1
    ensures Ensured(rows, Targets(rows), size, requestedRun, freshRun, digest)
         == (rows, if requestedRun in {None, Some(run)} then Accepted(BatchesOf(run, units)) else Refused)
  {
    GroupedRowsKeyed(rows, run, units);
    OneNotBoth(rows);
    ElementsCount(Targets(rows));
    ReconstructedGrouping(rows, run, units);
    RowsOfNonempty(units, run);
    assert units != [];
    RunOfBatches(run, units);
    hide IsGrouping, Reconstructed, IsIdentifier, Rekeyed, Partition, Targets, Distinct, NoneKeyed, AllKeyed;
  }

  /** An accepted call leaves rows that carry a grouping whose batches are its result. */
  lemma AcceptedIsGrouped(rows: seq<ClassRow>, requested: seq<string>, size: int, requestedRun: Option<string>,
                          freshRun: string, digest: Digester) returns (run: string, units: seq<WorkUnit>)
    requires rows != []
    requires Ensured(rows, requested, size, requestedRun, freshRun, digest).1.Accepted?
    ensures var (rows', r) := Ensured(rows, requested, size, requestedRun, freshRun, digest);
      && rows' != [] && IsGrouping(rows', run, units) && r == Accepted(BatchesOf(run, units))
      && Targets(rows') == Targets(rows) == requested && Distinct(requested)
  {
    var (rows', r) := Ensured(rows, requested, size, requestedRun, freshRun, digest);
    ElementsCount(requested);
    if NoneKeyed(rows) { RekeyedRows(rows, RunToAssign(requestedRun, freshRun), size, digest); }
    run, units :| IsGrouping(rows', run, units) && r.batches == BatchesOf(run, units);
  }

  /** After one accepted call every later call with the same full list, any batch size and no other run
      returns the same batches and writes nothing. */
  lemma LaterCallsAgree(rows: seq<ClassRow>, requested: seq<string>, size: int, requestedRun: Option<string>,
                        freshRun: string, digest: Digester, laterSize: int, laterFresh: string, laterDigest: Digester)
    requires laterSize >= 1
    requires Ensured(rows, requested, size, requestedRun, freshRun, digest).1.Accepted?
    ensures var (rows', r) := Ensured(rows, requested, size, requestedRun, freshRun, digest);
      Ensured(rows', requested, laterSize, None, laterFresh, laterDigest) == (rows', r)
  {
    if rows != [] {
      var run, units := AcceptedIsGrouped(rows, requested, size, requestedRun, freshRun, digest);
      var rows' := Ensured(rows, requested, size, requestedRun, freshRun, digest).0;
      StoredGroupingIsStable(rows', run, units, laterSize, None, laterFresh, laterDigest);
    }
  }

  // ---- the adapter ----

  /** The targets of `persisted` that are asked for, in stored order. */
  function Selected(persisted: seq<string>, wanted: set<string>): seq<string> {
    if persisted == [] then []
    else (if persisted[0] in wanted then [persisted[0]] else []) + Selected(persisted[1..], wanted)
  }

  /** A subset in stored order is widened to the full stored list; anything else is passed on as it is. */
  function Effective(persisted: seq<string>, requested: seq<string>): seq<string> {
    if requested != [] && Selected(persisted, Elements(requested)) == requested then persisted else requested
  }

  /** `part` is what is left of `whole` after striking out some entries. */
  ghost predicate Subsequence(part: seq<string>, whole: seq<string>) {
    if part == [] then true
    else if whole == [] then false
    else (part[0] == whole[0] && Subsequence(part[1..], whole[1..])) || Subsequence(part, whole[1..])
  }

  lemma {:induction false} SubsequenceMembers(part: seq<string>, whole: seq<string>)
    requires Subsequence(part, whole)
    ensures forall x :: x in part ==> x in whole
  {
    if part != [] && whole != [] {
      assert part == [part[0]] + part[1..] && whole == [whole[0]] + whole[1..];
      if part[0] == whole[0] && Subsequence(part[1..], whole[1..]) {
        SubsequenceMembers(part[1..], whole[1..]);
      } else {
        SubsequenceMembers(part, whole[1..]);
      }
    }
  }

  lemma {:induction false} SelectedIsSubsequence(persisted: seq<string>, wanted: set<string>)
    ensures Subsequence(Selected(persisted, wanted), persisted)
  {
    if persisted != [] {
      SelectedIsSubsequence(persisted[1..], wanted);
      var s := Selected(persisted, wanted);
      if persisted[0] in wanted {
        assert s[1..] == Selected(persisted[1..], wanted);
        assert Subsequence(s[1..], persisted[1..]);
      } else {
        assert s == Selected(persisted[1..], wanted);
        assert Subsequence(s, persisted[1..]);
      }
    }
  }

  lemma {:induction false} SelectedIgnores(persisted: seq<string>, wanted: set<string>, x: string)
    requires x !in persisted
    ensures Selected(persisted, wanted + {x}) == Selected(persisted, wanted)
  {
    if persisted != [] { SelectedIgnores(persisted[1..], wanted, x); }
  }

  lemma {:induction false} SubsequenceIsSelected(part: seq<string>, persisted: seq<string>)
    requires Subsequence(part, persisted) && Distinct(persisted)
    ensures Selected(persisted, Elements(part)) == part
  {
    if persisted != [] {
      var p, rest := persisted[0], persisted[1..];
      forall i, j | 0 <= i < j < |rest| ensures rest[i] != rest[j] { assert persisted[i + 1] != persisted[j + 1]; }
      assert p !in rest;
      if part != [] && part[0] == p && Subsequence(part[1..], rest) {
        SubsequenceMembers(part[1..], rest);
        SubsequenceIsSelected(part[1..], rest);
        assert Elements(part) == Elements(part[1..]) + {p};
        SelectedIgnores(rest, Elements(part[1..]), p);
        assert part == [p] + part[1..];
      } else {
        if part == [] { assert Subsequence(part, rest); }
        SubsequenceMembers(part, rest);
        SubsequenceIsSelected(part, rest);
      }
    }
  }

  /** The filter-and-compare test recognises exactly the order-preserving subsets. */
  lemma SelectionRecognises(part: seq<string>, persisted: seq<string>)
    requires Distinct(persisted)
    ensures Selected(persisted, Elements(part)) == part <==> Subsequence(part, persisted)
  {
    SelectedIsSubsequence(persisted, Elements(part));
    if Subsequence(part, persisted) { SubsequenceIsSelected(part, persisted); }
  }

  /** Through the adapter, on rows that carry a grouping, a request is served exactly when it is a nonempty
      subsequence of the stored list and names no other run, and then with the stored batches and without a write;
      reordered requests, requests with unknown targets and empty requests are refused. */
  lemma AdapterOnStored(rows: seq<ClassRow>, run: string, units: seq<WorkUnit>, requested: seq<string>, size: int,
                        requestedRun: Option<string>, freshRun: string, digest: Digester)
    requires rows != [] && IsGrouping(rows, run, units) && Distinct(Targets(rows)) && size >= 1
    ensures Ensured(rows, Effective(Targets(rows), requested), size, requestedRun, freshRun, digest)
         == (rows, if requested != [] && Subsequence(requested, Targets(rows)) && requestedRun in {None, Some(run)}
                   then Accepted(BatchesOf(run, units)) else Refused)
  {
    var persisted := Targets(rows);
    SelectionRecognises(requested, persisted);
    if requested != [] && Subsequence(requested, persisted) {
      StoredGroupingIsStable(rows, run, units, size, requestedRun, freshRun, digest);
    } else {
      SubsequenceSelf(persisted);
      assert Effective(persisted, requested) == requested != persisted;
    }
  }

  lemma {:induction false} SubsequenceSelf(s: seq<string>)
    ensures Subsequence(s, s)
  {
    if s != [] { SubsequenceSelf(s[1..]); }
  }

  /** Before the first assignment the adapter also serves any nonempty subsequence, by assigning the full list. */
  lemma AdapterFirstAssignment(rows: seq<ClassRow>, requested: seq<string>, size: int, requestedRun: Option<string>,
                               freshRun: string, digest: Digester)
    requires rows != [] && |rows| < ROW_LIMIT && NoneKeyed(rows) && size >= 1 && Distinct(Targets(rows))
    requires requestedRun != Some("") && IsIdentifier(RunToAssign(requestedRun, freshRun))
    requires requested != [] && Subsequence(requested, Targets(rows))
    ensures var run := RunToAssign(requestedRun, freshRun);
      var (rows', r) := Ensured(rows, Effective(Targets(rows), requested), size, requestedRun, freshRun, digest);
      && r.Accepted? && IsChunking(Targets(rows), size, run, digest, r.batches)
      && rows' == Rekeyed(rows, run, size, digest)
  {
    SubsequenceIsSelected(requested, Targets(rows));
    FirstAssignment(rows, Targets(rows), size, requestedRun, freshRun, digest);
  }

  // ---- picking the next unit ----

  predicate TerminalStatus(status: string) {
    status in {"PASS", "FAIL", "MUTATION_FAIL", "SKIPPED"}
  }

  /** Some row listed in the batch has not reached a terminal status (a missing row counts as unfinished). */
  ghost predicate Unfinished(rows: seq<ClassRow>, batch: Batch) {
    exists id ::
      id in batch.classIds && forall i :: 0 <= i < |rows| && rows[i].id == id ==> !TerminalStatus(rows[i].status)
  }

  /** A batch is unfinished exactly when one of its members has no row any more or a row with any status but these
      four. */
  lemma UnfinishedExactly(rows: seq<ClassRow>, batch: Batch)
    requires Distinct(Ids(rows))
    ensures Unfinished(rows, batch) <==>
      exists id :: id in batch.classIds && (id in Ids(rows) ==> exists i :: 0 <= i < |rows| && StillOpen(rows[i], id))
  {
    forall id | id in batch.classIds
      ensures (forall i :: 0 <= i < |rows| && rows[i].id == id ==> !TerminalStatus(rows[i].status))
         <==> (id in Ids(rows) ==> exists i :: 0 <= i < |rows| && StillOpen(rows[i], id))
    {
      if id in Ids(rows) {
        var k :| 0 <= k < |rows| && Ids(rows)[k] == id;
        forall i | 0 <= i < |rows| && rows[i].id == id ensures i == k { assert Ids(rows)[i] == Ids(rows)[k]; }
        assert StillOpen(rows[k], id) <==> !TerminalStatus(rows[k].status);
      } else {
        forall i | 0 <= i < |rows| ensures rows[i].id != id { assert Ids(rows)[i] in Ids(rows); }
      }
    }
  }

  predicate StillOpen(row: ClassRow, id: int) {
    row.id == id && row.status != "PASS" && row.status != "FAIL" && row.status != "MUTATION_FAIL"
    && row.status != "SKIPPED"
  }

  ghost predicate IsFirstUnfinished(rows: seq<ClassRow>, batches: seq<Batch>, k: nat) {
    && k < |batches| && Unfinished(rows, batches[k])
    && forall j :: 0 <= j < k ==> !Unfinished(rows, batches[j])
  }

  /** The status table the source builds; ids are primary keys, so no entry is overwritten. */
  method Statuses(rows: seq<ClassRow>) returns (statuses: map<int, string>)
    requires Distinct(Ids(rows))
    ensures forall id :: id in statuses <==> id in Ids(rows)
    ensures forall i :: 0 <= i < |rows| ==> rows[i].id in statuses && statuses[rows[i].id] == rows[i].status
  {
    statuses := map[];
    for n := 0 to |rows|
      invariant forall id :: id in statuses <==> exists i :: 0 <= i < n && rows[i].id == id
      invariant forall i :: 0 <= i < n ==> rows[i].id in statuses && statuses[rows[i].id] == rows[i].status
    {
      assert forall i :: 0 <= i < n ==> Ids(rows)[i] != Ids(rows)[n];
      statuses := statuses[rows[n].id := rows[n].status];
    }
    forall id ensures id in statuses <==> id in Ids(rows) {
      if id in Ids(rows) { var i :| 0 <= i < |rows| && Ids(rows)[i] == id; assert rows[i].id == id; }
      if id in statuses { var i :| 0 <= i < |rows| && rows[i].id == id; assert Ids(rows)[i] == id; }
    }
  }

  /** A batch and the task it belongs to. */
  datatype TaskBatch = TaskBatch(taskId: int, batch: Batch)

  datatype Choice = CrossesTasks | AllFinished | Next(batch: TaskBatch)

  function BatchesIn(batches: seq<TaskBatch>): (r: seq<Batch>)
    ensures |r| == |batches| && forall k :: 0 <= k < |batches| ==> r[k] == batches[k].batch
  {
    seq(|batches|, k requires 0 <= k < |batches| => batches[k].batch)
  }

  function ClassRowsOf(tasks: map<int, seq<ClassRow>>, batches: seq<TaskBatch>): seq<ClassRow> {
    if batches != [] && batches[0].taskId in tasks then tasks[batches[0].taskId] else []
  }

  lemma OneTask(batches: seq<TaskBatch>)
    ensures var ids := set b | b in batches :: b.taskId;
      |ids| <= 1 <==> forall i, j :: 0 <= i < |batches| && 0 <= j < |batches| ==> batches[i].taskId == batches[j].taskId
  {
    var ids := set b | b in batches :: b.taskId;
    if i, j :| 0 <= i < |batches| && 0 <= j < |batches| && batches[i].taskId != batches[j].taskId {
      assert batches[i].taskId in ids && batches[j].taskId in ids;
      assert {batches[i].taskId, batches[j].taskId} <= ids;
      AtLeastTwo(ids, batches[i].taskId, batches[j].taskId);
    } else if batches != [] {
      assert batches[0].taskId in ids;
      assert ids == {batches[0].taskId};
    } else {
      assert ids == {};
    }
  }

  lemma AtLeastTwo(s: set<int>, a: int, b: int)
    requires a in s && b in s && a != b
    ensures |s| >= 2
  {
    assert |s - {a}| == |s| - 1 && b in s - {a};
  }

  /** Position `k` holds the first batch with an unfinished member. */
  ghost predicate IsNext(tasks: map<int, seq<ClassRow>>, batches: seq<TaskBatch>, k: nat) {
    IsFirstUnfinished(ClassRowsOf(tasks, batches), BatchesIn(batches), k)
  }

  /** Batches of different tasks are refused; otherwise the first one with an unfinished member, or none when all
      are finished. */
  method FirstNonTerminalBatch(tasks: map<int, seq<ClassRow>>, batches: seq<TaskBatch>) returns (r: Choice)
    requires forall t :: t in tasks ==> Distinct(Ids(tasks[t]))
    ensures r == CrossesTasks <==>
      exists i, j :: 0 <= i < |batches| && 0 <= j < |batches| && batches[i].taskId != batches[j].taskId
    ensures r == AllFinished ==>
      forall k :: 0 <= k < |batches| ==> !Unfinished(ClassRowsOf(tasks, batches), batches[k].batch)
    ensures r.Next? ==> exists k: nat :: k < |batches| && r.batch == batches[k] && IsNext(tasks, batches, k)
  {
    var ids := set b | b in batches :: b.taskId;
    OneTask(batches);
    if |ids| > 1 { return CrossesTasks; }
    var rows := if batches != [] && batches[0].taskId in tasks then tasks[batches[0].taskId] else [];
    var k := FirstUnfinished(rows, BatchesIn(batches));
    r := if k == |batches| then AllFinished else Next(batches[k]);
  }

  /** The position of the first batch with an unfinished member, or the number of batches. */
  method FirstUnfinished(rows: seq<ClassRow>, batches: seq<Batch>) returns (r: nat)
    requires Distinct(Ids(rows))
    ensures r <= |batches| && forall k :: 0 <= k < r ==> !Unfinished(rows, batches[k])
    ensures r < |batches| ==> Unfinished(rows, batches[r])
  {
    var statuses := Statuses(rows);
    for k := 0 to |batches|
      invariant forall j :: 0 <= j < k ==> !Unfinished(rows, batches[j])
    {
      var ids := batches[k].classIds;
      for j := 0 to |ids|
        invariant forall l :: 0 <= l < j ==> ids[l] in statuses && TerminalStatus(statuses[ids[l]])
      {
        if ids[j] !in statuses || !TerminalStatus(statuses[ids[j]]) {
          var id := ids[j];
          assert id in batches[k].classIds;
          forall i | 0 <= i < |rows| && rows[i].id == id ensures !TerminalStatus(rows[i].status) { }
          assert Unfinished(rows, batches[k]);
          return k;
        }
      }
      forall id | id in ids ensures exists i :: 0 <= i < |rows| && rows[i].id == id && TerminalStatus(rows[i].status) {
        assert id in Ids(rows);
        var i :| 0 <= i < |rows| && Ids(rows)[i] == id;
        assert rows[i].id == id;
      }
    }
    r := |batches|;
  }
}
