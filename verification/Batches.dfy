/** Stable, persisted units of work: targets are chunked once into units whose identity is written to
    the class rows, and every later call reconstructs the same units from the rows alone. */
module Batches {
  import opened Options
  import opened Text
  import opened Identifiers

  /** A class row of one repository task; rows are kept in (priority, id) order. */
  datatype ClassRow = ClassRow(id: int, targetId: string, classFqn: string, status: string, batchKey: Option<string>)

  function Target(row: ClassRow): string {
    if row.targetId != "" then row.targetId else row.classFqn
  }

  function Targets(rows: seq<ClassRow>): (r: seq<string>)
    ensures |r| == |rows| && forall i :: 0 <= i < |rows| ==> r[i] == Target(rows[i])
  {
    seq(|rows|, i requires 0 <= i < |rows| => Target(rows[i]))
  }

  function Ids(rows: seq<ClassRow>): (r: seq<int>)
    ensures |r| == |rows| && forall i :: 0 <= i < |rows| ==> r[i] == rows[i].id
  {
    seq(|rows|, i requires 0 <= i < |rows| => rows[i].id)
  }

  predicate Keyed(row: ClassRow) {
    row.batchKey.Some? && row.batchKey.value != ""
  }

  /** One checkpoint lineage and its original, ordered membership. */
  datatype Batch = Batch(runId: string, unitId: string, targetIds: seq<string>, classIds: seq<int>)

  /** Every refusal is one exception type in the source; the message is not modelled. */
  datatype Outcome = Accepted(batches: seq<Batch>) | Refused

  // ---- units and groupings ----

  /** A unit id and the rows it holds. */
  datatype WorkUnit = WorkUnit(id: string, rows: seq<ClassRow>)

  function RowsOf(units: seq<WorkUnit>): seq<ClassRow> {
    if units == [] then [] else RowsOf(units[..|units| - 1]) + units[|units| - 1].rows
  }

  ghost predicate UnitKeyed(unit: WorkUnit, run: string) {
    && unit.rows != [] && IsIdentifier(unit.id)
    && forall j :: 0 <= j < |unit.rows| ==> unit.rows[j].batchKey == Some(BatchKey(run, unit.id))
  }

  ghost predicate DistinctUnits(units: seq<WorkUnit>) {
    forall i, j :: 0 <= i < j < |units| ==> units[i].id != units[j].id
  }

  /** The stored keys say exactly this: the rows, in order, fall into nonempty contiguous units of one
      run, each row carrying its unit's key, and no unit id comes back. */
  ghost predicate IsGrouping(rows: seq<ClassRow>, run: string, units: seq<WorkUnit>) {
    && RowsOf(units) == rows && IsIdentifier(run)
    && (forall k :: 0 <= k < |units| ==> UnitKeyed(units[k], run))
    && DistinctUnits(units)
  }

  function BatchOf(run: string, unit: WorkUnit): Batch {
    Batch(run, unit.id, Targets(unit.rows), Ids(unit.rows))
  }

  function BatchesOf(run: string, units: seq<WorkUnit>): (r: seq<Batch>)
    ensures |r| == |units| && forall k :: 0 <= k < |units| ==> r[k] == BatchOf(run, units[k])
  {
    seq(|units|, k requires 0 <= k < |units| => BatchOf(run, units[k]))
  }

  lemma RowsOfOne(unit: WorkUnit)
    ensures RowsOf([unit]) == unit.rows
  {
    assert [unit][..0] == [];
  }

  lemma RowsOfSnoc(units: seq<WorkUnit>, unit: WorkUnit)
    ensures RowsOf(units + [unit]) == RowsOf(units) + unit.rows
  {
    assert (units + [unit])[..|units|] == units;
  }

  lemma {:induction false} RowInUnit(units: seq<WorkUnit>, i: nat) returns (k: nat, j: nat)
    requires i < |RowsOf(units)|
    ensures k < |units| && j < |units[k].rows| && RowsOf(units)[i] == units[k].rows[j]
  {
    var init, last := units[..|units| - 1], units[|units| - 1];
    if i < |RowsOf(init)| {
      k, j := RowInUnit(init, i);
    } else {
      k, j := |units| - 1, i - |RowsOf(init)|;
    }
  }

  /** Rows between two rows of one unit belong to that unit. */
  lemma {:induction false} UnitsContiguous(rows: seq<ClassRow>, run: string, units: seq<WorkUnit>, a: nat, m: nat,
                                           b: nat)
    requires IsGrouping(rows, run, units)
    requires a <= m <= b < |rows| && rows[a].batchKey == rows[b].batchKey
    ensures rows[m].batchKey == rows[a].batchKey
    decreases |units|
  {
    var init, last := units[..|units| - 1], units[|units| - 1];
    var start := |RowsOf(init)|;
    assert rows == RowsOf(init) + last.rows;
    if b < start {
      assert IsGrouping(RowsOf(init), run, init);
      UnitsContiguous(RowsOf(init), run, init, a, m, b);
    } else if a < start {
      var k, j := RowInUnit(init, a);
      assert rows[a] == init[k].rows[j] && rows[b] == last.rows[b - start];
      assert units[k] == init[k] && UnitKeyed(units[k], run);
      assert units[k].id != units[|units| - 1].id;
      BatchKeyInjective(run, units[k].id, run, last.id);
    } else {
      assert rows[a] == last.rows[a - start] && rows[m] == last.rows[m - start];
    }
  }

  lemma {:induction false} RowsOfNonempty(units: seq<WorkUnit>, run: string)
    requires forall k :: 0 <= k < |units| ==> UnitKeyed(units[k], run)
    ensures |RowsOf(units)| >= |units|
  {
    if units != [] { RowsOfNonempty(units[..|units| - 1], run); }
  }

  /** The stored keys determine the grouping. */
  lemma {:induction false} GroupingUnique(rows: seq<ClassRow>, run1: string, units1: seq<WorkUnit>, run2: string,
                                          units2: seq<WorkUnit>)
    requires rows != [] && IsGrouping(rows, run1, units1) && IsGrouping(rows, run2, units2)
    ensures run1 == run2 && units1 == units2
    decreases |rows|
  {
    NonemptyGrouping(rows, run1, units1);
    NonemptyGrouping(rows, run2, units2);
    FrontGrouping(rows, run1, units1);
    FrontGrouping(rows, run2, units2);
    var last1, last2 := units1[|units1| - 1], units2[|units2| - 1];
    SameLastUnit(rows, run1, last1, run2, last2);
    LastUnitNoLonger(rows, run1, units1, units2);
    LastUnitNoLonger(rows, run1, units2, units1);
    hide *;
    assert last1 == last2;
    var front := rows[..|rows| - |last1.rows|];
    if front != [] {
      GroupingUnique(front, run1, units1[..|units1| - 1], run2, units2[..|units2| - 1]);
    } else {
      NonemptyGrouping(front, run1, units1[..|units1| - 1]);
      NonemptyGrouping(front, run2, units2[..|units2| - 1]);
    }
  }

  lemma NonemptyGrouping(rows: seq<ClassRow>, run: string, units: seq<WorkUnit>)
    requires IsGrouping(rows, run, units)
    ensures units == [] <==> rows == []
  {
    RowsOfNonempty(units, run);
  }

  lemma SameLastUnit(rows: seq<ClassRow>, run1: string, last1: WorkUnit, run2: string, last2: WorkUnit)
    requires rows != [] && UnitKeyed(last1, run1) && UnitKeyed(last2, run2) && last1.rows != [] && last2.rows != []
    requires IsIdentifier(run1) && IsIdentifier(run2) && IsIdentifier(last1.id) && IsIdentifier(last2.id)
    requires rows[|rows| - 1] == last1.rows[|last1.rows| - 1] == last2.rows[|last2.rows| - 1]
    ensures run1 == run2 && last1.id == last2.id
  {
    hide IsIdentifier;
    BatchKeyInjective(run1, last1.id, run2, last2.id);
  }

  /** Without its last unit a grouping is one of the rows before it. */
  lemma FrontGrouping(rows: seq<ClassRow>, run: string, units: seq<WorkUnit>)
    requires units != [] && IsGrouping(rows, run, units)
    ensures var last := units[|units| - 1];
      && UnitKeyed(last, run) && last.rows != [] && |last.rows| <= |rows|
      && last.rows == rows[|rows| - |last.rows|..] && rows[|rows| - 1] == last.rows[|last.rows| - 1]
      && IsGrouping(rows[..|rows| - |last.rows|], run, units[..|units| - 1])
      && units == units[..|units| - 1] + [last]
  {
    var init, last := units[..|units| - 1], units[|units| - 1];
    assert UnitKeyed(last, run);
    assert rows == RowsOf(init) + last.rows;
    assert rows[..|rows| - |last.rows|] == RowsOf(init);
  }

  lemma LastUnitNoLonger(rows: seq<ClassRow>, run: string, units1: seq<WorkUnit>, units2: seq<WorkUnit>)
    requires units1 != [] && units2 != []
    requires IsGrouping(rows, run, units1) && IsGrouping(rows, run, units2)
    requires units1[|units1| - 1].id == units2[|units2| - 1].id
    ensures |units2[|units2| - 1].rows| <= |units1[|units1| - 1].rows|
  {
    var init1, last1, last2 := units1[..|units1| - 1], units1[|units1| - 1], units2[|units2| - 1];
    if |last2.rows| > |last1.rows| {
      var i := |rows| - |last1.rows| - 1;
      assert rows[i] == RowsOf(init1)[i];
      var k, j := RowInUnit(init1, i);
      assert units1[k] == init1[k] && UnitKeyed(units1[k], run);
      assert rows[i] == last2.rows[i - (|rows| - |last2.rows|)] && UnitKeyed(last2, run);
      assert units1[k].id != units1[|units1| - 1].id;
      BatchKeyInjective(run, units1[k].id, run, last1.id);
    }
  }

  // ---- reconstruction ----

  /** `r` is what the stored keys of `rows` say: their batches, or a refusal when they say nothing coherent. */
  ghost predicate IsReconstruction(rows: seq<ClassRow>, r: Outcome) {
    match r
    case Accepted(batches) => exists run, units :: IsGrouping(rows, run, units) && batches == BatchesOf(run, units)
    case Refused => forall run, units :: !IsGrouping(rows, run, units)
  }

  lemma ReconstructionUnique(rows: seq<ClassRow>, r1: Outcome, r2: Outcome)
    requires rows != [] && IsReconstruction(rows, r1) && IsReconstruction(rows, r2)
    ensures r1 == r2
  {
    if r1.Accepted? && r2.Accepted? {
      var run1, units1 :| IsGrouping(rows, run1, units1) && r1.batches == BatchesOf(run1, units1);
      var run2, units2 :| IsGrouping(rows, run2, units2) && r2.batches == BatchesOf(run2, units2);
      GroupingUnique(rows, run1, units1, run2, units2);
    }
  }

  function KeyText(row: ClassRow): string {
    if row.batchKey.Some? then row.batchKey.value else ""
  }

  predicate WellFormedKey(row: ClassRow) {
    var parts := Split(KeyText(row), '/');
    |parts| == 2 && IsIdentifier(parts[0]) && IsIdentifier(parts[1])
  }

  /** In any grouping every row's key splits into the run and its unit's id. */
  lemma GroupedRow(rows: seq<ClassRow>, run: string, units: seq<WorkUnit>, i: nat) returns (k: nat)
    requires IsGrouping(rows, run, units) && i < |rows|
    ensures k < |units| && rows[i].batchKey == Some(BatchKey(run, units[k].id))
    ensures IsIdentifier(run) && IsIdentifier(units[k].id)
    ensures WellFormedKey(rows[i]) && Split(KeyText(rows[i]), '/') == [run, units[k].id]
  {
    var j;
    k, j := RowInUnit(units, i);
    assert UnitKeyed(units[k], run);
    SplitBatchKey(run, units[k].id);
  }

  lemma MalformedHasNoGrouping(rows: seq<ClassRow>, i: nat)
    requires i < |rows| && !WellFormedKey(rows[i])
    ensures forall run, units :: !IsGrouping(rows, run, units)
  {
    forall run, units ensures !IsGrouping(rows, run, units) {
      if IsGrouping(rows, run, units) { var k := GroupedRow(rows, run, units, i); }
    }
  }

  lemma TwoRunsHaveNoGrouping(rows: seq<ClassRow>, i: nat, j: nat)
    requires i < |rows| && j < |rows| && WellFormedKey(rows[i]) && WellFormedKey(rows[j])
    requires Split(KeyText(rows[i]), '/')[0] != Split(KeyText(rows[j]), '/')[0]
    ensures forall run, units :: !IsGrouping(rows, run, units)
  {
    forall run, units ensures !IsGrouping(rows, run, units) {
      if IsGrouping(rows, run, units) {
        var k := GroupedRow(rows, run, units, i);
        var l := GroupedRow(rows, run, units, j);
      }
    }
  }

  lemma ReturningUnitHasNoGrouping(rows: seq<ClassRow>, a: nat, m: nat, b: nat)
    requires a <= m <= b < |rows|
    requires rows[a].batchKey == rows[b].batchKey != rows[m].batchKey
    ensures forall run, units :: !IsGrouping(rows, run, units)
  {
    forall run, units ensures !IsGrouping(rows, run, units) {
      if IsGrouping(rows, run, units) { UnitsContiguous(rows, run, units, a, m, b); }
    }
  }

  function AddRow(units: seq<WorkUnit>, row: ClassRow): seq<WorkUnit>
    requires units != []
  {
    var last := units[|units| - 1];
    units[..|units| - 1] + [WorkUnit(last.id, last.rows + [row])]
  }

  lemma AddRowGroups(rows: seq<ClassRow>, run: string, units: seq<WorkUnit>, row: ClassRow)
    requires units != [] && IsGrouping(rows, run, units)
    requires row.batchKey == Some(BatchKey(run, units[|units| - 1].id))
    ensures IsGrouping(rows + [row], run, AddRow(units, row))
  {
    var init, last := units[..|units| - 1], units[|units| - 1];
    var units' := AddRow(units, row);
    assert units'[..|units'| - 1] == init;
    assert rows + [row] == RowsOf(init) + (last.rows + [row]);
    forall k | 0 <= k < |units'| ensures UnitKeyed(units'[k], run) {
      assert UnitKeyed(units[k], run);
    }
  }

  lemma NewUnitGroups(rows: seq<ClassRow>, run: string, units: seq<WorkUnit>, id: string, row: ClassRow)
    requires IsGrouping(rows, run, units) && IsIdentifier(id)
    requires row.batchKey == Some(BatchKey(run, id))
    requires forall k :: 0 <= k < |units| ==> units[k].id != id
    ensures IsGrouping(rows + [row], run, units + [WorkUnit(id, [row])])
  {
    hide IsIdentifier, BatchKey, RowsOf;
    var units' := units + [WorkUnit(id, [row])];
    RowsOfSnoc(units, WorkUnit(id, [row]));
    forall k | 0 <= k < |units'| ensures UnitKeyed(units'[k], run) {
      if k < |units| { assert UnitKeyed(units[k], run); }
    }
  }

  lemma WellFormedKeyIs(row: ClassRow)
    requires WellFormedKey(row)
    ensures var parts := Split(KeyText(row), '/');
      row.batchKey == Some(BatchKey(parts[0], parts[1]))
  {
    var parts := Split(KeyText(row), '/');
    JoinSplit(KeyText(row), '/');
    assert parts == [parts[0], parts[1]];
    assert Join(parts, '/') == parts[0] + ['/'] + Join(parts[1..], '/') && parts[1..] == [parts[1]];
    if row.batchKey == None {
      SplitNoSeparator("", '/');
    }
  }

  lemma {:induction false} UnitRowPosition(units: seq<WorkUnit>, k: nat, j: nat) returns (i: nat)
    requires k < |units| && j < |units[k].rows|
    ensures i < |RowsOf(units)| && RowsOf(units)[i] == units[k].rows[j]
  {
    var init, last := units[..|units| - 1], units[|units| - 1];
    if k < |units| - 1 {
      i := UnitRowPosition(init, k, j);
    } else {
      i := |RowsOf(init)| + j;
    }
  }

  /** The units that the two dictionaries of the reconstruction loop stand for. */
  ghost function UnitsFrom(order: seq<string>, members: map<string, seq<ClassRow>>): (r: seq<WorkUnit>)
    requires forall k :: 0 <= k < |order| ==> order[k] in members
    ensures |r| == |order| && forall k :: 0 <= k < |order| ==> r[k] == WorkUnit(order[k], members[order[k]])
  {
    seq(|order|, k requires 0 <= k < |order| => WorkUnit(order[k], members[order[k]]))
  }

  /** The closed units are all but the last. */
  ghost predicate ClosedAre(order: seq<string>, closed: set<string>) {
    forall u :: u in closed <==> exists k :: 0 <= k < |order| - 1 && order[k] == u
  }

  ghost predicate Rebuilding(rows: seq<ClassRow>, run: Option<string>, order: seq<string>,
                             members: map<string, seq<ClassRow>>, closed: set<string>, previous: Option<string>)
  {
    && (forall k :: 0 <= k < |order| ==> order[k] in members)
    && (rows == [] ==> run == None && order == [] && previous == None && closed == {})
    && (rows != [] ==>
          && run.Some? && order != [] && previous == Some(order[|order| - 1])
          && IsGrouping(rows, run.value, UnitsFrom(order, members))
          && ClosedAre(order, closed))
  }

  /** A row of the unit that is being filled. */
  lemma RebuildSameUnit(rows: seq<ClassRow>, run: string, order: seq<string>, members: map<string, seq<ClassRow>>,
                        closed: set<string>, row: ClassRow)
    requires rows != [] && order != []
    requires Rebuilding(rows, Some(run), order, members, closed, Some(order[|order| - 1]))
    requires row.batchKey == Some(BatchKey(run, order[|order| - 1]))
    ensures var id := order[|order| - 1];
      Rebuilding(rows + [row], Some(run), order, members[id := members[id] + [row]], closed, Some(id))
  {
    var id := order[|order| - 1];
    var units := UnitsFrom(order, members);
    AddRowGroups(rows, run, units, row);
    assert forall k :: 0 <= k < |order| - 1 ==> units[k].id != units[|order| - 1].id;
    assert UnitsFrom(order, members[id := members[id] + [row]]) == AddRow(units, row);
  }

  /** The first row of a unit not seen before. */
  lemma RebuildNewUnit(rows: seq<ClassRow>, run: string, order: seq<string>, members: map<string, seq<ClassRow>>,
                       closed: set<string>, previous: Option<string>, id: string, row: ClassRow)
    requires Rebuilding(rows, if rows == [] then None else Some(run), order, members, closed, previous)
    requires IsIdentifier(run) && IsIdentifier(id) && row.batchKey == Some(BatchKey(run, id))
    requires Some(id) != previous && id !in closed
    ensures Rebuilding(rows + [row], Some(run), order + [id], members[id := [row]], Close(closed, previous), Some(id))
  {
    hide IsIdentifier, BatchKey, Close, ClosedAre, IsGrouping, UnitsFrom;
    var units := UnitsFrom(order, members);
    if rows == [] {
      NoUnits(run);
      NoneClosed();
    }
    NotClosed(order, closed, id);
    NewUnitGroups(rows, run, units, id, row);
    UnitsFromNew(order, members, id, row);
    ClosedGrows(order, closed, previous, id);
  }

  lemma UnitsFromNew(order: seq<string>, members: map<string, seq<ClassRow>>, id: string, row: ClassRow)
    requires forall k :: 0 <= k < |order| ==> order[k] in members && order[k] != id
    ensures forall k :: 0 <= k < |order + [id]| ==> (order + [id])[k] in members[id := [row]]
    ensures UnitsFrom(order + [id], members[id := [row]]) == UnitsFrom(order, members) + [WorkUnit(id, [row])]
  {
  }

  lemma NoneClosed()
    ensures ClosedAre([], {})
  {
  }

  lemma NoUnits(run: string)
    requires IsIdentifier(run)
    ensures IsGrouping([], run, [])
  {
  }

  function Close(closed: set<string>, previous: Option<string>): set<string> {
    if previous.Some? then closed + {previous.value} else closed
  }

  /** Moving on to a new unit closes the one before it. */
  lemma ClosedGrows(order: seq<string>, closed: set<string>, previous: Option<string>, id: string)
    requires if order == [] then previous == None else previous == Some(order[|order| - 1])
    requires ClosedAre(order, closed)
    ensures ClosedAre(order + [id], Close(closed, previous))
  {
    var closed' := Close(closed, previous);
    var order' := order + [id];
    forall u ensures u in closed' <==> exists k :: 0 <= k < |order'| - 1 && order'[k] == u {
      if u in closed {
        var k :| 0 <= k < |order| - 1 && order[k] == u;
        assert order'[k] == u;
      } else if previous == Some(u) {
        assert order'[|order| - 1] == u;
      }
    }
  }

  lemma NotClosed(order: seq<string>, closed: set<string>, id: string)
    requires ClosedAre(order, closed) && id !in closed && (order == [] || order[|order| - 1] != id)
    ensures forall k :: 0 <= k < |order| ==> order[k] != id
  {
  }

  /** A row of a unit that was left before. */
  lemma RebuildReturningUnit(rows: seq<ClassRow>, i: nat, run: string, order: seq<string>,
                             members: map<string, seq<ClassRow>>, closed: set<string>, previous: Option<string>,
                             id: string)
    requires 0 < i < |rows| && Rebuilding(rows[..i], Some(run), order, members, closed, previous)
    requires IsIdentifier(id) && rows[i].batchKey == Some(BatchKey(run, id))
    requires Some(id) != previous && id in closed
    ensures forall r, units :: !IsGrouping(rows, r, units)
  {
    var units := UnitsFrom(order, members);
    var k :| 0 <= k < |order| - 1 && order[k] == id;
    var n := |order| - 1;
    assert UnitKeyed(units[k], run) && UnitKeyed(units[n], run);
    var a := UnitRowPosition(units, k, 0);
    var m := UnitRowPosition(units, n, 0);
    assert rows[a] == rows[..i][a] && rows[m] == rows[..i][m];
    if rows[m].batchKey == rows[i].batchKey { BatchKeyInjective(run, order[n], run, id); }
    if a <= m {
      ReturningUnitHasNoGrouping(rows, a, m, i);
    } else {
      UnitsInOrder(units, run, k, n, a, m);
    }
  }

  /** Earlier units hold earlier rows. */
  lemma {:induction false} UnitsInOrder(units: seq<WorkUnit>, run: string, k: nat, n: nat, a: nat, m: nat)
    requires k < n == |units| - 1 && a < |RowsOf(units)| && m < |RowsOf(units)|
    requires forall l :: 0 <= l < |units| ==> UnitKeyed(units[l], run)
    requires IsIdentifier(run) && DistinctUnits(units)
    requires RowsOf(units)[a].batchKey == Some(BatchKey(run, units[k].id))
    requires RowsOf(units)[m].batchKey == Some(BatchKey(run, units[n].id))
    ensures a < m
  {
    var init := units[..n];
    var l, j := RowInUnit(units, a);
    if a >= |RowsOf(init)| {
      assert RowsOf(units)[a] == units[n].rows[a - |RowsOf(init)|];
      assert UnitKeyed(units[n], run);
      assert units[k].id != units[n].id && UnitKeyed(units[k], run);
      BatchKeyInjective(run, units[k].id, run, units[n].id);
    } else if m < |RowsOf(init)| {
      var l2, j2 := RowInUnit(init, m);
      assert units[l2] == init[l2] && UnitKeyed(units[l2], run) && UnitKeyed(units[n], run);
      assert units[l2].id != units[n].id;
      BatchKeyInjective(run, units[l2].id, run, units[n].id);
    }
  }

  /** The reconstruction loop: it accepts exactly the keys that describe a grouping, and returns that grouping. */
  method Reconstruct(rows: seq<ClassRow>) returns (r: Outcome)
    requires rows != []
    ensures IsReconstruction(rows, r)
  {
    var runId: Option<string> := None;
    var order: seq<string> := [];
    var members: map<string, seq<ClassRow>> := map[];
    var closed: set<string> := {};
    var previous: Option<string> := None;
    hide IsGrouping, Split, WellFormedKey, IsIdentifier;
    for i := 0 to |rows|
      invariant Rebuilding(rows[..i], runId, order, members, closed, previous)
      invariant i > 0 ==> runId.Some? && WellFormedKey(rows[0]) && Split(KeyText(rows[0]), '/')[0] == runId.value
    {
      var row := rows[i];
      assert rows[..i + 1] == rows[..i] + [row];
      var parts := Split(KeyText(row), '/');
      if !WellFormedKey(row) {
        MalformedHasNoGrouping(rows, i);
        return Refused;
      }
      WellFormedParts(row);
      WellFormedKeyIs(row);
      var rowRun, unitId := parts[0], parts[1];
      if runId == None {
        runId := Some(rowRun);
      } else if Some(rowRun) != runId {
        TwoRunsHaveNoGrouping(rows, 0, i);
        return Refused;
      }
      if Some(unitId) != previous {
        if unitId in closed {
          RebuildReturningUnit(rows, i, rowRun, order, members, closed, previous, unitId);
          return Refused;
        }
        RebuildNewUnit(rows[..i], rowRun, order, members, closed, previous, unitId, row);
        if previous.Some? { closed := closed + {previous.value}; }
        order := order + [unitId];
        members := members[unitId := [row]];
        previous := Some(unitId);
      } else {
        RebuildSameUnit(rows[..i], rowRun, order, members, closed, row);
        members := members[unitId := members[unitId] + [row]];
      }
    }
    assert rows[..|rows|] == rows;
    var batches := seq(|order|, k requires 0 <= k < |order| && order[k] in members =>
      BatchOf(runId.value, WorkUnit(order[k], members[order[k]])));
    assert batches == BatchesOf(runId.value, UnitsFrom(order, members));
    r := Accepted(batches);
  }

  lemma WellFormedParts(row: ClassRow)
    requires WellFormedKey(row)
    ensures var parts := Split(KeyText(row), '/'); |parts| == 2 && IsIdentifier(parts[0]) && IsIdentifier(parts[1])
  {
  }

  // ---- chunking ----

  /** The digest of a unit's member list; a hexadecimal hash prefix in the source, any such function here. */
  type Digester = f: seq<string> -> string | forall members :: IsDigest(f(members))
    witness (members: seq<string>) => "000000000000"

  function ChunkLength(rows: seq<ClassRow>, size: nat): (n: nat)
    requires size >= 1
    ensures n <= |rows| && (rows != [] ==> n >= 1)
  {
    if size < |rows| then size else |rows|
  }

  /** Consecutive chunks of `size` rows, numbered from `index`, each named by its number and members. */
  function Partition(rows: seq<ClassRow>, size: nat, index: nat, digest: Digester): seq<WorkUnit>
    requires size >= 1
    decreases |rows|
  {
    if rows == [] then []
    else
      var n := ChunkLength(rows, size);
      [WorkUnit(UnitId(index, digest(Targets(rows[..n]))), rows[..n])] + Partition(rows[n..], size, index + 1, digest)
  }

  function WithKey(rows: seq<ClassRow>, key: string): (r: seq<ClassRow>)
    ensures |r| == |rows| && forall i :: 0 <= i < |rows| ==> r[i] == rows[i].(batchKey := Some(key))
  {
    seq(|rows|, i requires 0 <= i < |rows| => rows[i].(batchKey := Some(key)))
  }

  function KeyUnit(unit: WorkUnit, run: string): WorkUnit {
    WorkUnit(unit.id, WithKey(unit.rows, BatchKey(run, unit.id)))
  }

  function KeyUnits(units: seq<WorkUnit>, run: string): (r: seq<WorkUnit>)
    ensures |r| == |units| && forall k :: 0 <= k < |units| ==> r[k] == KeyUnit(units[k], run)
  {
    seq(|units|, k requires 0 <= k < |units| => KeyUnit(units[k], run))
  }

  lemma {:induction false} RowsOfConcat(a: seq<WorkUnit>, b: seq<WorkUnit>)
    ensures RowsOf(a + b) == RowsOf(a) + RowsOf(b)
    decreases |b|
  {
    if b == [] {
      assert a + b == a;
    } else {
      assert (a + b)[..|a + b| - 1] == a + b[..|b| - 1];
      RowsOfConcat(a, b[..|b| - 1]);
    }
  }

  lemma PartitionUnfold(rows: seq<ClassRow>, size: nat, index: nat, digest: Digester)
    requires size >= 1 && rows != []
    ensures var n := ChunkLength(rows, size);
      Partition(rows, size, index, digest)
        == [WorkUnit(UnitId(index, digest(Targets(rows[..n]))), rows[..n])]
           + Partition(rows[n..], size, index + 1, digest)
  {
  }

  lemma PartitionEmpty(size: nat, index: nat, digest: Digester)
    requires size >= 1
    ensures RowsOf(Partition([], size, index, digest)) == []
  {
  }

  /** Chunking is lossless. */
  lemma {:induction false} PartitionRows(rows: seq<ClassRow>, size: nat, index: nat, digest: Digester)
    requires size >= 1
    ensures RowsOf(Partition(rows, size, index, digest)) == rows
    decreases |rows|
  {
    hide Partition, UnitId, RowsOf;
    if rows == [] {
      PartitionEmpty(size, index, digest);
    } else {
      PartitionUnfold(rows, size, index, digest);
      var n := ChunkLength(rows, size);
      var head := WorkUnit(UnitId(index, digest(Targets(rows[..n]))), rows[..n]);
      PartitionRows(rows[n..], size, index + 1, digest);
      RowsOfConcat([head], Partition(rows[n..], size, index + 1, digest));
      RowsOfOne(head);
      assert rows == rows[..n] + rows[n..];
    }
  }

  /** A unit with a safe id that carries its number; unless it is the last it holds exactly `size` rows. */
  ghost predicate IsChunk(unit: WorkUnit, number: nat, size: nat, last: bool, digest: Digester) {
    && unit.rows != [] && IsIdentifier(unit.id)
    && unit.id == UnitId(number, digest(Targets(unit.rows)))
    && (!last ==> |unit.rows| == size)
  }

  lemma {:induction false} PartitionCount(rows: seq<ClassRow>, size: nat, index: nat, digest: Digester)
    requires size >= 1
    ensures |Partition(rows, size, index, digest)| <= |rows|
    ensures rows != [] ==> Partition(rows, size, index, digest) != []
    decreases |rows|
  {
    if rows != [] { PartitionCount(rows[ChunkLength(rows, size)..], size, index + 1, digest); }
  }

  lemma {:induction false} PartitionUnit(rows: seq<ClassRow>, size: nat, index: nat, digest: Digester, k: nat)
    requires size >= 1 && index + |rows| <= ROW_LIMIT && k < |Partition(rows, size, index, digest)|
    ensures IsChunk(Partition(rows, size, index, digest)[k], index + k, size,
                    k == |Partition(rows, size, index, digest)| - 1, digest)
    decreases |rows|
  {
    hide Partition, UnitId, IsIdentifier;
    PartitionCount(rows, size, index, digest);
    PartitionUnfold(rows, size, index, digest);
    var n := ChunkLength(rows, size);
    var rest := Partition(rows[n..], size, index + 1, digest);
    PartitionCount(rows[n..], size, index + 1, digest);
    if k == 0 {
      UnitIdIsIdentifier(index, digest(Targets(rows[..n])));
      assert rest != [] ==> n == size;
    } else {
      PartitionUnit(rows[n..], size, index + 1, digest, k - 1);
      assert Partition(rows, size, index, digest)[k] == rest[k - 1];
    }
  }

  lemma PartitionDistinct(rows: seq<ClassRow>, size: nat, index: nat, digest: Digester)
    requires size >= 1 && index + |rows| <= ROW_LIMIT
    ensures DistinctUnits(Partition(rows, size, index, digest))
  {
    hide Partition, UnitId, IsIdentifier;
    var units := Partition(rows, size, index, digest);
    forall i, j | 0 <= i < j < |units| ensures units[i].id != units[j].id {
      PartitionUnit(rows, size, index, digest, i);
      PartitionUnit(rows, size, index, digest, j);
      if units[i].id == units[j].id {
        UnitIdInjective(index + i, index + j, digest(Targets(units[i].rows)), digest(Targets(units[j].rows)));
      }
    }
  }

  /** The rows with every key replaced by its chunk's key under `run`. */
  function Rekeyed(rows: seq<ClassRow>, run: string, size: nat, digest: Digester): seq<ClassRow>
    requires size >= 1
  {
    RowsOf(KeyUnits(Partition(rows, size, 1, digest), run))
  }

  /** Keying units changes keys only. */
  lemma {:induction false} KeyUnitsRows(units: seq<WorkUnit>, run: string)
    ensures var rows, keyed := RowsOf(units), RowsOf(KeyUnits(units, run));
      |keyed| == |rows| && forall i :: 0 <= i < |rows| ==> keyed[i] == rows[i].(batchKey := keyed[i].batchKey)
    decreases |units|
  {
    if units != [] {
      var init := units[..|units| - 1];
      KeyUnitsRows(init, run);
      assert KeyUnits(units, run)[..|units| - 1] == KeyUnits(init, run);
    }
  }

  lemma RekeyedRows(rows: seq<ClassRow>, run: string, size: nat, digest: Digester)
    requires size >= 1
    ensures var keyed := Rekeyed(rows, run, size, digest);
      && |keyed| == |rows|
      && (forall i :: 0 <= i < |rows| ==> keyed[i] == rows[i].(batchKey := keyed[i].batchKey))
      && Targets(keyed) == Targets(rows) && Ids(keyed) == Ids(rows)
  {
    PartitionRows(rows, size, 1, digest);
    KeyUnitsRows(Partition(rows, size, 1, digest), run);
  }

  /** Whatever keys the rows had before, the new keys describe exactly the chunks. */
  lemma RekeyedGroups(rows: seq<ClassRow>, run: string, size: nat, digest: Digester)
    requires size >= 1 && |rows| < ROW_LIMIT && IsIdentifier(run)
    ensures var units := KeyUnits(Partition(rows, size, 1, digest), run);
      IsGrouping(Rekeyed(rows, run, size, digest), run, units)
  {
    var plain := Partition(rows, size, 1, digest);
    PartitionDistinct(rows, size, 1, digest);
    hide Partition, UnitId, IsIdentifier;
    var units := KeyUnits(plain, run);
    forall k | 0 <= k < |units| ensures UnitKeyed(units[k], run) {
      PartitionUnit(rows, size, 1, digest, k);
    }
  }
}
