/** The transactional event ledger of a task: bounded progress, terminal events, pruning, and a paging reader. */
module ProgressLedger {
  import opened Options
  import opened TaskModels

  datatype Kind = AgentProgress | ProgressTruncated | TaskTerminal(status: string) | Note(name: string)

  datatype Event = Event(id: nat, taskId: int, kind: Kind, size: nat, createdAt: int)

  /** The counters a task row carries. */
  datatype TaskInfo = TaskInfo(status: string, count: nat, bytes: nat, truncated: bool)

  /** Task rows, events in ascending id order, and the next id; ids are never reused. */
  datatype Db = Db(tasks: map<int, TaskInfo>, events: seq<Event>, nextId: nat)

  // ---- admission ----

  /** One entry of a batch: a request for the truncation marker, or a payload of some serialized size. */
  datatype Entry = MarkerRequest | Payload(size: nat)

  function Sizes(batch: seq<Entry>): seq<nat> {
    if batch == [] then []
    else Sizes(batch[..|batch| - 1]) + (match batch[|batch| - 1] case MarkerRequest => [] case Payload(n) => [n])
  }

  predicate AsksMarker(batch: seq<Entry>) { MarkerRequest in batch }

  function Sum(sizes: seq<nat>): nat {
    if sizes == [] then 0 else Sum(sizes[..|sizes| - 1]) + sizes[|sizes| - 1]
  }

  function Cap(n: int): nat { if n < 0 then 0 else n }

  /** The first `k` payloads fit on top of what is used. */
  predicate Fits(sizes: seq<nat>, k: nat, rows: nat, bytes: nat, maxRows: nat, maxBytes: nat) {
    k <= |sizes| && rows + k <= maxRows && bytes + Sum(sizes[..k]) <= maxBytes
  }

  /** `k` is the length of the longest nonempty fitting prefix, or 0. */
  ghost predicate LongestFit(sizes: seq<nat>, k: nat, rows: nat, bytes: nat, maxRows: nat, maxBytes: nat) {
    && k <= |sizes|
    && (k > 0 ==> Fits(sizes, k, rows, bytes, maxRows, maxBytes))
    && forall j :: k < j <= |sizes| ==> !Fits(sizes, j, rows, bytes, maxRows, maxBytes)
  }

  lemma {:induction false} SumMonotone(sizes: seq<nat>, i: nat, j: nat)
    requires i <= j <= |sizes|
    ensures Sum(sizes[..i]) <= Sum(sizes[..j])
    decreases j
  {
    if i < j {
      assert sizes[..j][..j - 1] == sizes[..j - 1];
      SumMonotone(sizes, i, j - 1);
    }
  }

  lemma LongestFitUnique(sizes: seq<nat>, j: nat, k: nat, rows: nat, bytes: nat, maxRows: nat, maxBytes: nat)
    requires LongestFit(sizes, j, rows, bytes, maxRows, maxBytes)
    requires LongestFit(sizes, k, rows, bytes, maxRows, maxBytes)
    ensures j == k
  {
  }

  /** The admission loop: it stops at the first payload that does not fit, which is where the longest prefix ends. */
  method Admit(sizes: seq<nat>, usedRows: nat, usedBytes: nat, maxRows: nat, maxBytes: nat)
      returns (k: nat, admittedBytes: nat)
    ensures k <= |sizes| && LongestFit(sizes, k, usedRows, usedBytes, maxRows, maxBytes)
    ensures admittedBytes == Sum(sizes[..k])
  {
    k, admittedBytes := 0, 0;
    while k < |sizes|
      invariant k <= |sizes| && admittedBytes == Sum(sizes[..k])
      invariant k > 0 ==> Fits(sizes, k, usedRows, usedBytes, maxRows, maxBytes)
    {
      assert sizes[..k + 1][..k] == sizes[..k];
      if usedRows + k + 1 > maxRows || usedBytes + admittedBytes + sizes[k] > maxBytes {
        forall j | k < j <= |sizes| ensures !Fits(sizes, j, usedRows, usedBytes, maxRows, maxBytes) {
          SumMonotone(sizes, k + 1, j);
        }
        return;
      }
      k, admittedBytes := k + 1, admittedBytes + sizes[k];
    }
  }

  ghost function LongestPrefix(sizes: seq<nat>, rows: nat, bytes: nat, maxRows: nat, maxBytes: nat): (k: nat)
    ensures k <= |sizes| && LongestFit(sizes, k, rows, bytes, maxRows, maxBytes)
  {
    LongestFitExists(sizes, rows, bytes, maxRows, maxBytes, |sizes|);
    var k: nat :| LongestFit(sizes, k, rows, bytes, maxRows, maxBytes);
    k
  }

  lemma {:induction false} LongestFitExists(sizes: seq<nat>, rows: nat, bytes: nat, maxRows: nat, maxBytes: nat,
                                            top: nat)
    requires top <= |sizes| && forall j :: top < j <= |sizes| ==> !Fits(sizes, j, rows, bytes, maxRows, maxBytes)
    ensures exists k: nat :: LongestFit(sizes, k, rows, bytes, maxRows, maxBytes)
    decreases top
  {
    if top == 0 || Fits(sizes, top, rows, bytes, maxRows, maxBytes) {
      assert LongestFit(sizes, top, rows, bytes, maxRows, maxBytes);
    } else {
      LongestFitExists(sizes, rows, bytes, maxRows, maxBytes, top - 1);
    }
  }

  function ProgressEvents(taskId: int, sizes: seq<nat>, firstId: nat, now: int): (r: seq<Event>)
    ensures |r| == |sizes| && forall i ::
      0 <= i < |sizes| ==> r[i] == Event(firstId + i, taskId, AgentProgress, sizes[i], now)
  {
    seq(|sizes|, i requires 0 <= i < |sizes| => Event(firstId + i, taskId, AgentProgress, sizes[i], now))
  }

  /** The rows a batch inserts, and whether it left something out or asked for the marker. */
  ghost function AppendedEvents(db: Db, taskId: int, batch: seq<Entry>, maxRows: nat, maxBytes: nat,
                                now: int): (seq<Event>, bool)
    requires taskId in db.tasks
  {
    var task := db.tasks[taskId];
    var sizes := Sizes(batch);
    var k := LongestPrefix(sizes, task.count, task.bytes, maxRows, maxBytes);
    var truncated := AsksMarker(batch) || k < |sizes|;
    var rows := ProgressEvents(taskId, sizes[..k], db.nextId, now);
    (rows + (if truncated && !task.truncated then [Event(db.nextId + k, taskId, ProgressTruncated, 0, now)] else []),
     truncated)
  }

  ghost function AfterAppend(db: Db, taskId: int, batch: seq<Entry>, maxEvents: int, maxBytes: int, now: int): Db
    requires taskId in db.tasks
  {
    var task := db.tasks[taskId];
    var sizes := Sizes(batch);
    var k := LongestPrefix(sizes, task.count, task.bytes, Cap(maxEvents), Cap(maxBytes));
    var (rows, truncated) := AppendedEvents(db, taskId, batch, Cap(maxEvents), Cap(maxBytes), now);
    Db(db.tasks[taskId := TaskInfo(task.status, task.count + k, task.bytes + Sum(sizes[..k]),
                                   task.truncated || truncated)],
       db.events + rows, db.nextId + |rows|)
  }

  // ---- finishing ----

  /** ASCII `str.upper`. */
  function Upper(s: string): (r: string)
    ensures |r| == |s|
    ensures forall i :: 0 <= i < |s| && 'a' <= s[i] <= 'z' ==> r[i] as int - 'A' as int == s[i] as int - 'a' as int
    ensures forall i :: 0 <= i < |s| && !('a' <= s[i] <= 'z') ==> r[i] == s[i]
  {
    seq(|s|, i requires 0 <= i < |s| => if 'a' <= s[i] <= 'z' then (s[i] as int - 32) as char else s[i])
  }

  /** The latest terminal event of the task, searching from the end. */
  function LatestTerminal(events: seq<Event>, taskId: int): Option<Event> {
    if events == [] then None
    else
      var last := events[|events| - 1];
      if last.taskId == taskId && last.kind.TaskTerminal? then Some(last)
      else LatestTerminal(events[..|events| - 1], taskId)
  }

  function NoteEvents(taskId: int, names: seq<string>, firstId: nat, now: int): (r: seq<Event>)
    ensures |r| == |names| && forall i ::
      0 <= i < |names| ==> r[i] == Event(firstId + i, taskId, Note(names[i]), 0, now)
  {
    seq(|names|, i requires 0 <= i < |names| => Event(firstId + i, taskId, Note(names[i]), 0, now))
  }

  /** The terminal event that already closes a task whose stored status is the requested one. */
  function PriorTerminal(db: Db, taskId: int, status: string): Option<Event>
    requires taskId in db.tasks
  {
    if Upper(db.tasks[taskId].status) == status then LatestTerminal(db.events, taskId) else None
  }

  function AfterFinish(db: Db, taskId: int, status: string, summaries: seq<string>, now: int): Db
    requires taskId in db.tasks
  {
    var tasks := db.tasks[taskId := db.tasks[taskId].(status := status)];
    if PriorTerminal(db, taskId, status).Some? then db.(tasks := tasks)
    else
      var rows := NoteEvents(taskId, summaries, db.nextId, now)
        + [Event(db.nextId + |summaries|, taskId, TaskTerminal(status), 0, now)];
      Db(tasks, db.events + rows, db.nextId + |rows|)
  }

  function FinishId(db: Db, taskId: int, status: string, summaries: seq<string>): nat
    requires taskId in db.tasks
  {
    var prior := PriorTerminal(db, taskId, status);
    if prior.Some? then prior.value.id else db.nextId + |summaries|
  }

  // ---- pruning and paging ----

  function Kept(events: seq<Event>, before: int): seq<Event> {
    if events == [] then []
    else
      var last := events[|events| - 1];
      Kept(events[..|events| - 1], before)
        + (if last.kind == AgentProgress && last.createdAt <= before then [] else [last])
  }

  function Newer(events: seq<Event>, taskId: int, cursor: int): seq<Event> {
    if events == [] then []
    else
      var last := events[|events| - 1];
      Newer(events[..|events| - 1], taskId, cursor) + (if last.taskId == taskId && last.id > cursor then [last] else [])
  }

  function Clamp(limit: int): nat { if limit < 1 then 1 else if limit > 5000 then 5000 else limit }

  function Page(events: seq<Event>, taskId: int, afterId: int, limit: int): seq<Event> {
    var newer := Newer(events, taskId, if afterId < 0 then 0 else afterId);
    if |newer| <= Clamp(limit) then newer else newer[..Clamp(limit)]
  }

  // ---- the store ----

  class ProgressStore {
    var tasks: map<int, TaskInfo>
    var events: seq<Event>
    var nextId: nat

    ghost function Snapshot(): Db
      reads this
    {
      Db(tasks, events, nextId)
    }

    constructor ()
      ensures Snapshot() == Db(map[], [], 1)
    {
      tasks, events, nextId := map[], [], 1;
    }

    method Prepare(batch: seq<Entry>) returns (sizes: seq<nat>, markerRequested: bool)
      ensures sizes == Sizes(batch) && markerRequested == AsksMarker(batch)
    {
      sizes, markerRequested := [], false;
      for i := 0 to |batch|
        invariant sizes == Sizes(batch[..i]) && markerRequested == (MarkerRequest in batch[..i])
      {
        assert batch[..i + 1][..i] == batch[..i] && batch[..i + 1] == batch[..i] + [batch[i]];
        match batch[i] {
          case MarkerRequest => markerRequested := true;
          case Payload(n) => sizes := sizes + [n];
        }
      }
      assert batch[..|batch|] == batch;
    }

    /** Returns None for an unknown task, else the admitted count and bytes and the truncation flag. */
    method AppendProgressEventBatch(taskId: int, batch: seq<Entry>, maxEvents: int, maxSerializedBytes: int, now: int)
        returns (r: Option<(nat, nat, bool)>)
      modifies this
      ensures taskId !in old(tasks) ==> r == None && Snapshot() == old(Snapshot())
      ensures taskId in old(tasks) ==>
        && Snapshot() == AfterAppend(old(Snapshot()), taskId, batch, maxEvents, maxSerializedBytes, now)
        && r.Some? && r.value.0 == tasks[taskId].count - old(tasks)[taskId].count
        && r.value.1 == tasks[taskId].bytes - old(tasks)[taskId].bytes
        && r.value.2 == AppendedEvents(old(Snapshot()), taskId, batch, Cap(maxEvents), Cap(maxSerializedBytes), now).1
    {
      hide LongestFit, Sizes, Sum, AsksMarker, LongestPrefix;
      var sizes, markerRequested := Prepare(batch);
      if taskId !in tasks { return None; }
      var task := tasks[taskId];
      var k, admittedBytes := Admit(sizes, task.count, task.bytes, Cap(maxEvents), Cap(maxSerializedBytes));
      ghost var longest := LongestPrefix(sizes, task.count, task.bytes, Cap(maxEvents), Cap(maxSerializedBytes));
      LongestFitUnique(sizes, k, longest, task.count, task.bytes, Cap(maxEvents), Cap(maxSerializedBytes));
      var dropped := k < |sizes|;
      ghost var stored, first := events, nextId;
      for i := 0 to k
        invariant tasks == old(tasks) && nextId == first + i
        invariant events == stored + ProgressEvents(taskId, sizes[..i], first, now)
      {
        events := events + [Event(nextId, taskId, AgentProgress, sizes[i], now)];
        nextId := nextId + 1;
        assert ProgressEvents(taskId, sizes[..i + 1], first, now)
            == ProgressEvents(taskId, sizes[..i], first, now)
               + [Event(first + i, taskId, AgentProgress, sizes[i], now)];
      }
      var truncated := markerRequested || dropped;
      var wonMarker := truncated && !task.truncated;
      if wonMarker {
        events := events + [Event(nextId, taskId, ProgressTruncated, 0, now)];
        nextId := nextId + 1;
      }
      tasks := tasks[taskId := TaskInfo(task.status, task.count + k, task.bytes + admittedBytes,
                                        task.truncated || wonMarker)];
      r := Some((k, admittedBytes, truncated));
      ghost var rows := AppendedEvents(old(Snapshot()), taskId, batch, Cap(maxEvents), Cap(maxSerializedBytes), now).0;
      assert events == stored + rows;
    }

    /** Returns the id of the terminal event, or None for an unknown task or a status that is not terminal. */
    method FinishTaskWithTerminalEvent(taskId: int, status: string, summaries: seq<string>, now: int)
        returns (id: Option<nat>)
      modifies this
      ensures id == None <==> taskId !in old(tasks) || Upper(status) !in TERMINAL_REPO_STATUSES
      ensures id == None ==> Snapshot() == old(Snapshot())
      ensures id.Some? ==>
        && Snapshot() == AfterFinish(old(Snapshot()), taskId, Upper(status), summaries, now)
        && id.value == FinishId(old(Snapshot()), taskId, Upper(status), summaries)
    {
      var terminalStatus := Upper(status);
      if terminalStatus !in TERMINAL_REPO_STATUSES || taskId !in tasks { return None; }
      var prior: Option<Event> := None;
      if Upper(tasks[taskId].status) == terminalStatus { prior := LatestTerminal(events, taskId); }
      tasks := tasks[taskId := tasks[taskId].(status := terminalStatus)];
      if prior.Some? { return Some(prior.value.id); }
      ghost var stored, first, updated := events, nextId, tasks;
      for i := 0 to |summaries|
        invariant tasks == updated
        invariant nextId == first + i && events == stored + NoteEvents(taskId, summaries[..i], first, now)
      {
        events := events + [Event(nextId, taskId, Note(summaries[i]), 0, now)];
        nextId := nextId + 1;
        assert NoteEvents(taskId, summaries[..i + 1], first, now)
            == NoteEvents(taskId, summaries[..i], first, now) + [Event(first + i, taskId, Note(summaries[i]), 0, now)];
      }
      assert summaries[..|summaries|] == summaries;
      id := Some(nextId);
      events := events + [Event(nextId, taskId, TaskTerminal(terminalStatus), 0, now)];
      nextId := nextId + 1;
      assert events
          == stored + (NoteEvents(taskId, summaries, first, now)
                       + [Event(first + |summaries|, taskId, TaskTerminal(terminalStatus), 0, now)]);
    }

    method PruneProgressEvents(before: int) returns (deleted: nat)
      modifies `events
      ensures events == Kept(old(events), before) && deleted == |old(events)| - |events|
    {
      KeptShorter(events, before);
      deleted := |events| - |Kept(events, before)|;
      events := Kept(events, before);
    }
  }

  lemma {:induction false} KeptShorter(events: seq<Event>, before: int)
    ensures |Kept(events, before)| <= |events|
  {
    if events != [] { KeptShorter(events[..|events| - 1], before); }
  }

  // ---- what the transactions record ----

  lemma {:induction false} SizesConcat(a: seq<Entry>, b: seq<Entry>)
    ensures Sizes(a + b) == Sizes(a) + Sizes(b)
    decreases |b|
  {
    if b == [] {
      assert a + b == a;
    } else {
      assert (a + b)[..|a + b| - 1] == a + b[..|b| - 1];
      SizesConcat(a, b[..|b| - 1]);
    }
  }

  /** The payloads are considered in their order, and the requests for the marker stand for no event. */
  lemma SizesOfBatch(a: seq<Entry>, n: nat, b: seq<Entry>)
    ensures Sizes([]) == []
    ensures Sizes(a + [Payload(n)] + b) == Sizes(a) + [n] + Sizes(b)
    ensures Sizes(a + [MarkerRequest] + b) == Sizes(a) + Sizes(b)
  {
    SizesConcat(a + [Payload(n)], b);
    SizesConcat(a, [Payload(n)]);
    SizesConcat(a + [MarkerRequest], b);
    SizesConcat(a, [MarkerRequest]);
    assert [Payload(n)][..0] == [] && [MarkerRequest][..0] == [];
  }

  /** A batch adds, under consecutive new ids, one event for each payload of the longest prefix that fits, and
      the marker if it asked for it or lost a payload and the task has none yet; the task row counts exactly
      what was added. */
  lemma AppendRecords(db: Db, taskId: int, batch: seq<Entry>, maxEvents: int, maxBytes: int, now: int) returns (k: nat)
    requires taskId in db.tasks
    ensures var task, sizes := db.tasks[taskId], Sizes(batch);
      var maxRows, maxSize := if maxEvents > 0 then maxEvents else 0, if maxBytes > 0 then maxBytes else 0;
      var db' := AfterAppend(db, taskId, batch, maxEvents, maxBytes, now);
      && LongestFit(sizes, k, task.count, task.bytes, maxRows, maxSize)
      && var lost := k < |sizes| || MarkerRequest in batch;
      && var marked: nat := if lost && !task.truncated then 1 else 0;
      && db'.tasks == db.tasks[taskId := TaskInfo(task.status, task.count + k, task.bytes + Sum(sizes[..k]),
                                                  task.truncated || lost)]
      && |db'.events| == |db.events| + k + marked && db.events <= db'.events && db'.nextId == db.nextId + k + marked
      && (forall i :: 0 <= i < k ==>
            db'.events[|db.events| + i] == Event(db.nextId + i, taskId, AgentProgress, sizes[i], now))
      && (marked == 1 ==> db'.events[|db.events| + k] == Event(db.nextId + k, taskId, ProgressTruncated, 0, now))
  {
    var task, sizes := db.tasks[taskId], Sizes(batch);
    k := LongestPrefix(sizes, task.count, task.bytes, Cap(maxEvents), Cap(maxBytes));
    hide LongestPrefix, LongestFit, Sizes, Sum;
  }

  /** With room for all its payloads a batch is admitted whole. */
  lemma RoomyBatch(sizes: seq<nat>, k: nat, rows: nat, bytes: nat, maxRows: nat, maxBytes: nat)
    requires LongestFit(sizes, k, rows, bytes, maxRows, maxBytes)
    requires rows + |sizes| <= maxRows && bytes + Sum(sizes) <= maxBytes
    ensures k == |sizes|
  {
    assert sizes[..|sizes|] == sizes;
    assert Fits(sizes, |sizes|, rows, bytes, maxRows, maxBytes);
  }

  /** The task stands in the status, whatever its case, and has a terminal event. */
  predicate AlreadyClosed(db: Db, taskId: int, status: string)
    requires taskId in db.tasks
  {
    && Upper(db.tasks[taskId].status) == status
    && exists e :: e in db.events && e.taskId == taskId && e.kind.TaskTerminal?
  }

  lemma {:induction false} LatestTerminalIs(events: seq<Event>, taskId: int)
    ensures LatestTerminal(events, taskId) == None <==>
      forall e :: e in events ==> e.taskId != taskId || !e.kind.TaskTerminal?
    ensures LatestTerminal(events, taskId).Some? ==>
      var last := LatestTerminal(events, taskId).value;
      exists i :: 0 <= i < |events| && events[i] == last && IsLastTerminal(events, i, taskId)
  {
    if events != [] {
      var n := |events| - 1;
      var front, e := events[..n], events[n];
      assert events == front + [e];
      LatestTerminalIs(front, taskId);
      if e.taskId == taskId && e.kind.TaskTerminal? {
        assert IsLastTerminal(events, n, taskId);
      } else if LatestTerminal(front, taskId).Some? {
        var i :| 0 <= i < n && front[i] == LatestTerminal(front, taskId).value && IsLastTerminal(front, i, taskId);
        assert events[i] == front[i] && IsLastTerminal(events, i, taskId);
      }
    }
  }

  predicate IsLastTerminal(events: seq<Event>, i: nat, taskId: int)
    requires i < |events|
  {
    && events[i].taskId == taskId && events[i].kind.TaskTerminal?
    && forall j :: i < j < |events| ==> events[j].taskId != taskId || !events[j].kind.TaskTerminal?
  }

  lemma ClosedHasPrior(db: Db, taskId: int, status: string)
    requires taskId in db.tasks
    ensures AlreadyClosed(db, taskId, status) <==> PriorTerminal(db, taskId, status).Some?
  {
    hide Upper;
    LatestTerminalIs(db.events, taskId);
  }

  /** A finish of a task that is not closed with the status yet adds its notes in order and then the terminal event,
      whose id it returns. */
  lemma FinishRecords(db: Db, taskId: int, status: string, notes: seq<string>, now: int)
    requires taskId in db.tasks && !AlreadyClosed(db, taskId, status)
    ensures var db' := AfterFinish(db, taskId, status, notes, now);
      && db'.tasks == db.tasks[taskId := db.tasks[taskId].(status := status)]
      && |db'.events| == |db.events| + |notes| + 1 && db.events <= db'.events
      && (forall i :: 0 <= i < |notes| ==>
            db'.events[|db.events| + i] == Event(db.nextId + i, taskId, Note(notes[i]), 0, now))
      && db'.events[|db.events| + |notes|] == Event(db.nextId + |notes|, taskId, TaskTerminal(status), 0, now)
      && db'.nextId == db.nextId + |notes| + 1
    ensures FinishId(db, taskId, status, notes) == db.nextId + |notes|
  {
    ClosedHasPrior(db, taskId, status);
    hide AlreadyClosed, PriorTerminal;
  }

  /** A finish of a task that is closed with the status adds nothing and returns the id of its latest terminal event. */
  lemma FinishRepeats(db: Db, taskId: int, status: string, notes: seq<string>, now: int)
    requires taskId in db.tasks && AlreadyClosed(db, taskId, status)
    ensures AfterFinish(db, taskId, status, notes, now)
         == db.(tasks := db.tasks[taskId := db.tasks[taskId].(status := status)])
    ensures exists i ::
      && 0 <= i < |db.events| && IsLastTerminal(db.events, i, taskId)
      && db.events[i].id == FinishId(db, taskId, status, notes)
  {
    ClosedHasPrior(db, taskId, status);
    LatestTerminalIs(db.events, taskId);
    hide AlreadyClosed, LatestTerminal, IsLastTerminal;
  }

  /** A page holds, oldest first, as many of the task's newer events as a limit between 1 and 5000 allows, or all. */
  lemma PageLength(events: seq<Event>, taskId: int, afterId: int, limit: int)
    ensures var cursor := if afterId > 0 then afterId else 0;
      var newer, page := Newer(events, taskId, cursor), Page(events, taskId, afterId, limit);
      && page <= newer
      && (page == newer || |page| == if limit < 1 then 1 else if limit > 5000 then 5000 else limit)
      && (limit <= 0 ==> |page| <= 1) && (limit > 0 ==> |page| <= limit) && |page| <= 5000
  {
  }

  /** Newer events are the task's own with a larger id, in their order. */
  lemma {:induction false} NewerSnoc(events: seq<Event>, e: Event, taskId: int, cursor: int)
    ensures Newer([], taskId, cursor) == []
    ensures Newer(events + [e], taskId, cursor)
         == Newer(events, taskId, cursor) + if e.taskId == taskId && e.id > cursor then [e] else []
  {
    assert (events + [e])[..|events|] == events;
  }
}
