/** Whole runs of the event ledger: appends under fixed caps, finishes, requeues, notes, prunes, and one reader
    that pages through a task's events. */
module LedgerRuns {
  import opened Options
  import opened TaskModels
  import opened ProgressLedger

  /** The database; as history every event ever inserted and the tasks some batch left something out for or
      asked the marker for; and the reader's cursor with what it has been given so far. */
  datatype World = World(db: Db, log: seq<Event>, wanted: set<int>, cursor: int, seen: seq<Event>)

  datatype Step =
    | AddTask(taskId: int, status: string)
    | Append(taskId: int, batch: seq<Entry>, now: int)
    | Finish(taskId: int, status: string, summaries: seq<string>, now: int)
    | Requeue(taskId: int, status: string)
    | AddNote(taskId: int, name: string, now: int)
    | Prune(before: int)
    | Read(limit: int)

  /** The fixed caps, and the task the reader follows. */
  datatype Setup = Setup(maxEvents: int, maxBytes: int, reader: int)

  predicate Terminal(status: string) { Upper(status) in TERMINAL_REPO_STATUSES }

  ghost predicate Enabled(w: World, step: Step) {
    match step
    case AddTask(t, status) => t !in w.db.tasks && !Terminal(status)
    case Append(t, _, _) => t in w.db.tasks
    case Finish(t, status, _, _) => t in w.db.tasks && Terminal(status)
    case Requeue(t, status) => t in w.db.tasks && !Terminal(status)
    case AddNote(t, _, _) => t in w.db.tasks
    case Prune(_) => true
    case Read(_) => true
  }

  /** The rows a step inserts. */
  ghost function Inserted(setup: Setup, w: World, step: Step): seq<Event>
    requires Enabled(w, step)
  {
    match step
    case Append(t, batch, now) => AppendedEvents(w.db, t, batch, Cap(setup.maxEvents), Cap(setup.maxBytes), now).0
    case Finish(t, status, summaries, now) =>
      var closing := [Event(w.db.nextId + |summaries|, t, TaskTerminal(Upper(status)), 0, now)];
      if PriorTerminal(w.db, t, Upper(status)).Some? then [] else NoteEvents(t, summaries, w.db.nextId, now) + closing
    case AddNote(t, name, now) => [Event(w.db.nextId, t, Note(name), 0, now)]
    case _ => []
  }

  ghost function After(setup: Setup, w: World, step: Step): World
    requires Enabled(w, step)
  {
    var log := w.log + Inserted(setup, w, step);
    match step
    case AddTask(t, status) => w.(db := w.db.(tasks := w.db.tasks[t := TaskInfo(status, 0, 0, false)]), log := log)
    case Append(t, batch, now) =>
      World(AfterAppend(w.db, t, batch, setup.maxEvents, setup.maxBytes, now), log,
            if AppendedEvents(w.db, t, batch, Cap(setup.maxEvents), Cap(setup.maxBytes), now).1 then w.wanted + {t}
            else w.wanted,
            w.cursor, w.seen)
    case Finish(t, status, summaries, now) => w.(db := AfterFinish(w.db, t, Upper(status), summaries, now), log := log)
    case Requeue(t, status) => w.(db := w.db.(tasks := w.db.tasks[t := w.db.tasks[t].(status := status)]), log := log)
    case AddNote(t, name, now) =>
      w.(db := Db(w.db.tasks, w.db.events + Inserted(setup, w, step), w.db.nextId + 1), log := log)
    case Prune(before) => w.(db := w.db.(events := Kept(w.db.events, before)), log := log)
    case Read(limit) =>
      var rows := Page(w.db.events, setup.reader, w.cursor, limit);
      w.(cursor := if rows == [] then w.cursor else rows[|rows| - 1].id, seen := w.seen + rows, log := log)
  }

  ghost predicate IsRun(setup: Setup, worlds: seq<World>, steps: seq<Step>) {
    && |worlds| == |steps| + 1 && worlds[0] == World(Db(map[], [], 1), [], {}, 0, [])
    && forall i ::
         0 <= i < |steps| ==> Enabled(worlds[i], steps[i]) && worlds[i + 1] == After(setup, worlds[i], steps[i])
  }

  // ---- tallies ----

  datatype Totals = Totals(count: nat, bytes: nat, markers: nat)

  /** The progress events of a task, their bytes, and its truncation markers. */
  function Tally(events: seq<Event>, t: int): Totals {
    if events == [] then Totals(0, 0, 0)
    else
      var front, e := Tally(events[..|events| - 1], t), events[|events| - 1];
      if e.taskId != t then front
      else if e.kind == AgentProgress then Totals(front.count + 1, front.bytes + e.size, front.markers)
      else if e.kind == ProgressTruncated then Totals(front.count, front.bytes, front.markers + 1)
      else front
  }

  lemma {:induction false} TallyConcat(a: seq<Event>, b: seq<Event>, t: int)
    ensures Tally(a + b, t) == Totals(Tally(a, t).count + Tally(b, t).count, Tally(a, t).bytes + Tally(b, t).bytes,
                                      Tally(a, t).markers + Tally(b, t).markers)
    decreases |b|
  {
    if b == [] {
      assert a + b == a;
    } else {
      assert (a + b)[..|a + b| - 1] == a + b[..|b| - 1];
      TallyConcat(a, b[..|b| - 1], t);
    }
  }

  lemma {:induction false} TallyProgress(taskId: int, sizes: seq<nat>, firstId: nat, now: int, t: int)
    ensures Tally(ProgressEvents(taskId, sizes, firstId, now), t)
         == if t == taskId then Totals(|sizes|, Sum(sizes), 0) else Totals(0, 0, 0)
  {
    if sizes != [] {
      var n := |sizes| - 1;
      assert ProgressEvents(taskId, sizes, firstId, now)[..n] == ProgressEvents(taskId, sizes[..n], firstId, now);
      TallyProgress(taskId, sizes[..n], firstId, now, t);
    }
  }

  lemma {:induction false} TallyQuiet(events: seq<Event>, t: int)
    requires forall i :: 0 <= i < |events| ==> events[i].kind.Note? || events[i].kind.TaskTerminal?
    ensures Tally(events, t) == Totals(0, 0, 0)
  {
    if events != [] { TallyQuiet(events[..|events| - 1], t); }
  }

  lemma KeptStep(events: seq<Event>, before: int)
    requires events != []
    ensures var front, last := events[..|events| - 1], events[|events| - 1];
      if last.kind == AgentProgress && last.createdAt <= before then Kept(events, before) == Kept(front, before)
      else
        var kept := Kept(events, before);
        kept != [] && kept[..|kept| - 1] == Kept(front, before) && kept[|kept| - 1] == last
  {
  }

  /** Pruning takes progress events only: the markers stay ... */
  lemma {:induction false} KeptMarkers(events: seq<Event>, before: int, t: int)
    ensures Tally(Kept(events, before), t).markers == Tally(events, t).markers
  {
    hide Kept;
    if events == [] {
      KeptNothing(before);
    } else {
      KeptMarkers(events[..|events| - 1], before, t);
      KeptStep(events, before);
    }
  }

  /** ... and so does the latest terminal event. */
  lemma {:induction false} KeptLatest(events: seq<Event>, before: int, t: int)
    ensures LatestTerminal(Kept(events, before), t) == LatestTerminal(events, t)
  {
    hide Kept;
    if events == [] {
      KeptNothing(before);
    } else {
      KeptLatest(events[..|events| - 1], before, t);
      KeptStep(events, before);
    }
  }

  lemma KeptNothing(before: int)
    ensures Kept([], before) == []
  {
  }

  lemma {:induction false} KeptMembers(events: seq<Event>, before: int)
    ensures forall e ::
      e in Kept(events, before) <==> e in events && !(e.kind == AgentProgress && e.createdAt <= before)
  {
    if events != [] {
      var front, last := events[..|events| - 1], events[|events| - 1];
      KeptMembers(front, before);
      assert events == front + [last];
    }
  }

  // ---- the budget ----

  /** A task's counters are within the caps and equal to the totals of everything ever inserted for it, and it
      has one marker row if something was ever left out or asked for, none otherwise. */
  ghost predicate Budgeted(setup: Setup, w: World, t: int) {
    var inserted := Tally(w.log, t);
    && inserted.markers == Tally(w.db.events, t).markers == (if t in w.wanted then 1 else 0)
    && (t in w.db.tasks ==>
          var task := w.db.tasks[t];
          && task.count == inserted.count <= Cap(setup.maxEvents)
          && task.bytes == inserted.bytes <= Cap(setup.maxBytes)
          && (task.truncated <==> t in w.wanted))
    && (t !in w.db.tasks ==> inserted.count == 0 && inserted.bytes == 0 && t !in w.wanted)
  }

  /** What a batch adds to a task's totals. */
  lemma AppendedTally(db: Db, taskId: int, batch: seq<Entry>, maxRows: nat, maxBytes: nat, now: int, t: int)
    requires taskId in db.tasks
    ensures var task, sizes := db.tasks[taskId], Sizes(batch);
      var k := LongestPrefix(sizes, task.count, task.bytes, maxRows, maxBytes);
      var (rows, truncated) := AppendedEvents(db, taskId, batch, maxRows, maxBytes, now);
      && k <= |sizes|
      && var mark := if truncated && !task.truncated then 1 else 0;
      && Tally(rows, t) == (if t == taskId then Totals(k, Sum(sizes[..k]), mark) else Totals(0, 0, 0))
      && (task.count <= maxRows && task.bytes <= maxBytes ==>
            task.count + k <= maxRows && task.bytes + Sum(sizes[..k]) <= maxBytes)
  {
    var task, sizes := db.tasks[taskId], Sizes(batch);
    var k := LongestPrefix(sizes, task.count, task.bytes, maxRows, maxBytes);
    var (rows, truncated) := AppendedEvents(db, taskId, batch, maxRows, maxBytes, now);
    var progress := ProgressEvents(taskId, sizes[..k], db.nextId, now);
    var marker :=
      if truncated && !task.truncated then [Event(db.nextId + k, taskId, ProgressTruncated, 0, now)] else [];
    assert rows == progress + marker;
    hide LongestPrefix, AppendedEvents, Tally;
    TallyConcat(progress, marker, t);
    TallyProgress(taskId, sizes[..k], db.nextId, now, t);
    OneMarker(marker, t);
    assert sizes[..0] == [];
  }

  lemma OneMarker(marker: seq<Event>, t: int)
    requires marker == [] || (|marker| == 1 && marker[0].kind == ProgressTruncated)
    ensures Tally(marker, t) == if marker != [] && marker[0].taskId == t then Totals(0, 0, 1) else Totals(0, 0, 0)
  {
    if marker != [] { assert marker[..0] == []; }
  }

  lemma AppendKeepsBudget(setup: Setup, w: World, step: Step, t: int)
    requires step.Append? && Enabled(w, step) && Budgeted(setup, w, t) && Budgeted(setup, w, step.taskId)
    ensures Budgeted(setup, After(setup, w, step), t)
  {
    hide LongestPrefix, AppendedEvents, Tally, Sum, Sizes;
    var rows := Inserted(setup, w, step);
    AppendedTally(w.db, step.taskId, step.batch, Cap(setup.maxEvents), Cap(setup.maxBytes), step.now, t);
    AppendedTally(w.db, step.taskId, step.batch, Cap(setup.maxEvents), Cap(setup.maxBytes), step.now, step.taskId);
    TallyConcat(w.log, rows, t);
    TallyConcat(w.db.events, rows, t);
  }

  /** Every other step inserts neither progress nor markers and leaves the counters alone. */
  lemma QuietStep(setup: Setup, w: World, step: Step, t: int)
    requires !step.Append? && Enabled(w, step)
    ensures var w', rows := After(setup, w, step), Inserted(setup, w, step);
      && Tally(rows, t) == Totals(0, 0, 0) && w'.wanted == w.wanted && w'.log == w.log + rows
      && w'.db.events == (if step.Prune? then Kept(w.db.events, step.before) else w.db.events + rows)
      && (t in w'.db.tasks <==> t in w.db.tasks || (step.AddTask? && t == step.taskId))
      && (t in w.db.tasks ==> w'.db.tasks[t].(status := w.db.tasks[t].status) == w.db.tasks[t])
      && (step.AddTask? && t == step.taskId ==> w'.db.tasks[t] == TaskInfo(step.status, 0, 0, false))
  {
    TallyQuiet(Inserted(setup, w, step), t);
    assert w.db.events + [] == w.db.events;
  }

  lemma StepKeepsBudget(setup: Setup, w: World, step: Step, t: int)
    requires Enabled(w, step) && forall u :: Budgeted(setup, w, u)
    ensures Budgeted(setup, After(setup, w, step), t)
  {
    assert Budgeted(setup, w, t);
    if step.Append? {
      assert Budgeted(setup, w, step.taskId);
      AppendKeepsBudget(setup, w, step, t);
    } else {
      hide Tally, After, Inserted;
      var rows := Inserted(setup, w, step);
      QuietStep(setup, w, step, t);
      TallyConcat(w.log, rows, t);
      TallyConcat(w.db.events, rows, t);
      if step.Prune? { KeptMarkers(w.db.events, step.before, t); }
    }
  }

  // ---- terminal events ----

  /** A task in a terminal status has a latest terminal event, and that event carries the status. */
  ghost predicate Closed(w: World, t: int) {
    t in w.db.tasks && Terminal(w.db.tasks[t].status) ==>
      var last := LatestTerminal(w.db.events, t);
      last.Some? && last.value.kind == TaskTerminal(Upper(w.db.tasks[t].status))
  }

  lemma {:induction false} LatestAfter(a: seq<Event>, b: seq<Event>, t: int)
    ensures LatestTerminal(a + b, t)
         == (var last := LatestTerminal(b, t); if last.Some? then last else LatestTerminal(a, t))
    decreases |b|
  {
    if b == [] {
      assert a + b == a;
    } else {
      assert (a + b)[..|a + b| - 1] == a + b[..|b| - 1];
      LatestAfter(a, b[..|b| - 1], t);
    }
  }

  lemma {:induction false} NoTerminal(events: seq<Event>, t: int)
    requires forall i :: 0 <= i < |events| ==> events[i].taskId != t || !events[i].kind.TaskTerminal?
    ensures LatestTerminal(events, t) == None
  {
    if events != [] { NoTerminal(events[..|events| - 1], t); }
  }

  lemma UpperTwice(s: string)
    ensures Upper(Upper(s)) == Upper(s)
  {
  }

  lemma StepKeepsClosed(setup: Setup, w: World, step: Step, t: int)
    requires Enabled(w, step) && Closed(w, t)
    ensures Closed(After(setup, w, step), t)
  {
    hide LatestTerminal, Upper, AppendedEvents, LongestPrefix;
    if step.Finish? && step.taskId == t {
      FinishCloses(setup, w, step);
      FinishKind(setup, w, step);
    } else if step.Prune? {
      KeptLatest(w.db.events, step.before, t);
    } else {
      InsertsNoTerminal(setup, w, step, t);
      LatestAfter(w.db.events, Inserted(setup, w, step), t);
      assert w.db.events + [] == w.db.events;
    }
  }

  lemma FinishKind(setup: Setup, w: World, step: Step)
    requires step.Finish? && Enabled(w, step) && Closed(w, step.taskId)
    ensures var last := LatestTerminal(After(setup, w, step).db.events, step.taskId);
      last.Some? && last.value.kind == TaskTerminal(Upper(Upper(step.status)))
  {
    UpperTwice(step.status);
    hide Upper;
    var rows := Inserted(setup, w, step);
    if rows != [] {
      LatestAfter(w.db.events, rows, step.taskId);
      assert rows[|rows| - 1]
          == Event(w.db.nextId + |step.summaries|, step.taskId, TaskTerminal(Upper(step.status)), 0, step.now);
    }
  }

  /** Task `t` stands in this terminal status, closed by the event with this id. */
  ghost predicate ClosedBy(w: World, t: int, status: string, id: nat) {
    && t in w.db.tasks && w.db.tasks[t].status == status && Upper(status) == status
    && LatestTerminal(w.db.events, t).Some? && LatestTerminal(w.db.events, t).value.id == id
  }

  /** The step does not take the task out of this status. */
  predicate Respects(step: Step, t: int, status: string) {
    && (step.Requeue? ==> step.taskId != t)
    && (step.Finish? ==> step.taskId != t || Upper(step.status) == status)
  }

  /** The id that a finish step returns. */
  ghost function ReturnedId(w: World, step: Step): nat
    requires step.Finish? && Enabled(w, step)
  {
    FinishId(w.db, step.taskId, Upper(step.status), step.summaries)
  }

  lemma FinishCloses(setup: Setup, w: World, step: Step)
    requires step.Finish? && Enabled(w, step)
    ensures ClosedBy(After(setup, w, step), step.taskId, Upper(step.status), ReturnedId(w, step))
  {
    UpperTwice(step.status);
    hide Upper;
    var rows := Inserted(setup, w, step);
    if rows != [] {
      LatestAfter(w.db.events, rows, step.taskId);
      assert rows[|rows| - 1]
          == Event(w.db.nextId + |step.summaries|, step.taskId, TaskTerminal(Upper(step.status)), 0, step.now);
    }
  }

  /** A finish with the status the task already stands in changes nothing and returns the id of the closing event. */
  lemma FinishAgain(setup: Setup, w: World, step: Step, id: nat)
    requires step.Finish? && Enabled(w, step) && ClosedBy(w, step.taskId, Upper(step.status), id)
    ensures After(setup, w, step) == w && Inserted(setup, w, step) == [] && ReturnedId(w, step) == id
  {
    hide Upper, LatestTerminal;
    assert w.db.tasks[step.taskId := w.db.tasks[step.taskId].(status := Upper(step.status))] == w.db.tasks;
    assert w.log + [] == w.log;
  }

  lemma StepKeepsClosedBy(setup: Setup, w: World, step: Step, t: int, status: string, id: nat)
    requires Enabled(w, step) && ClosedBy(w, t, status, id) && Respects(step, t, status)
    ensures ClosedBy(After(setup, w, step), t, status, id)
  {
    hide Upper, LatestTerminal, AppendedEvents, LongestPrefix;
    if step.Finish? && step.taskId == t {
      FinishAgain(setup, w, step, id);
    } else if step.Prune? {
      KeptLatest(w.db.events, step.before, t);
    } else {
      var rows := Inserted(setup, w, step);
      InsertsNoTerminal(setup, w, step, t);
      LatestAfter(w.db.events, rows, t);
      assert w.db.events + [] == w.db.events;
    }
  }

  lemma InsertsNoTerminal(setup: Setup, w: World, step: Step, t: int)
    requires Enabled(w, step) && !(step.Finish? && step.taskId == t)
    ensures LatestTerminal(Inserted(setup, w, step), t) == None
  {
    hide Upper, LatestTerminal, LongestPrefix;
    NoTerminal(Inserted(setup, w, step), t);
  }

  /** A finished task stays closed by the same event while nothing takes it out of its status. */
  lemma {:induction false} StaysClosedBy(setup: Setup, worlds: seq<World>, steps: seq<Step>, i: nat, j: nat, id: nat)
    requires IsRun(setup, worlds, steps) && i < j <= |steps|
    requires steps[i].Finish? && id == ReturnedId(worlds[i], steps[i])
    requires forall k :: i < k < j ==> Respects(steps[k], steps[i].taskId, Upper(steps[i].status))
    ensures ClosedBy(worlds[j], steps[i].taskId, Upper(steps[i].status), id)
  {
    hide ClosedBy, Respects, After;
    if j == i + 1 {
      FinishCloses(setup, worlds[i], steps[i]);
    } else {
      StaysClosedBy(setup, worlds, steps, i, j - 1, id);
      StepKeepsClosedBy(setup, worlds[j - 1], steps[j - 1], steps[i].taskId, Upper(steps[i].status), id);
    }
  }

  /** Across a run, a finish with the same status, however much later, returns the same id, adds no event and changes
      nothing, as long as nothing in between takes the task out of that status. */
  lemma RepeatedFinish(setup: Setup, worlds: seq<World>, steps: seq<Step>, i: nat, j: nat)
    requires IsRun(setup, worlds, steps) && i < j < |steps| && steps[i].Finish? && steps[j].Finish?
    requires steps[j].taskId == steps[i].taskId && Upper(steps[j].status) == Upper(steps[i].status)
    requires forall k :: i < k < j ==> Respects(steps[k], steps[i].taskId, Upper(steps[i].status))
    ensures Inserted(setup, worlds[j], steps[j]) == [] && worlds[j + 1] == worlds[j]
    ensures ReturnedId(worlds[j], steps[j]) == ReturnedId(worlds[i], steps[i])
  {
    hide ClosedBy, Respects, After, Inserted, Upper;
    var id := ReturnedId(worlds[i], steps[i]);
    StaysClosedBy(setup, worlds, steps, i, j, id);
    FinishAgain(setup, worlds[j], steps[j], id);
  }

  // ---- the reader ----

  ghost predicate Ascending(events: seq<Event>) {
    forall i, j :: 0 <= i < j < |events| ==> events[i].id < events[j].id
  }

  /** Ids ascend in the table and in the history, and only progress events ever disappear. */
  ghost predicate Filed(w: World) {
    && Ascending(w.db.events) && Ascending(w.log) && w.db.nextId >= 1
    && (forall e :: e in w.db.events ==> e in w.log)
    && (forall e :: e in w.log ==> 1 <= e.id < w.db.nextId && (e.kind != AgentProgress ==> e in w.db.events))
  }

  /** The reader has been given, once each and in order, every surviving event of its task up to its cursor. */
  ghost predicate ReadUpTo(setup: Setup, w: World) {
    && 0 <= w.cursor < w.db.nextId && Ascending(w.seen)
    && (forall e :: e in w.seen ==> e in w.log && e.taskId == setup.reader && e.id <= w.cursor)
    && (forall e :: e in w.db.events && e.taskId == setup.reader && e.id <= w.cursor ==> e in w.seen)
  }

  lemma AppendAscending(a: seq<Event>, b: seq<Event>, bound: nat)
    requires Ascending(a) && Ascending(b)
    requires (forall e :: e in a ==> e.id < bound) && (forall e :: e in b ==> bound <= e.id)
    ensures Ascending(a + b)
  {
    forall i, j | 0 <= i < j < |a + b| ensures (a + b)[i].id < (a + b)[j].id {
      if i < |a| { assert (a + b)[i] in a; }
      if j >= |a| { assert (a + b)[j] in b; }
    }
  }

  lemma InsertedIds(setup: Setup, w: World, step: Step)
    requires Enabled(w, step)
    ensures var rows := Inserted(setup, w, step);
      forall i :: 0 <= i < |rows| ==> rows[i].id == w.db.nextId + i
    ensures After(setup, w, step).db.nextId == w.db.nextId + |Inserted(setup, w, step)|
    ensures !step.Prune? ==> After(setup, w, step).db.events == w.db.events + Inserted(setup, w, step)
  {
    assert w.db.events + [] == w.db.events;
  }

  lemma {:induction false} KeptAscending(events: seq<Event>, before: int)
    requires Ascending(events)
    ensures Ascending(Kept(events, before))
  {
    if events != [] {
      var front, last := events[..|events| - 1], events[|events| - 1];
      KeptAscending(front, before);
      KeptMembers(front, before);
      var tail: seq<Event> := if last.kind == AgentProgress && last.createdAt <= before then [] else [last];
      AppendAscending(Kept(front, before), tail, last.id);
    }
  }

  lemma StepKeepsFiled(setup: Setup, w: World, step: Step)
    requires Enabled(w, step) && Filed(w)
    ensures Filed(After(setup, w, step))
  {
    var rows := Inserted(setup, w, step);
    InsertedIds(setup, w, step);
    if step.Prune? {
      KeptMembers(w.db.events, step.before);
      KeptAscending(w.db.events, step.before);
      assert w.log + [] == w.log;
    } else {
      assert forall e :: e in rows ==> w.db.nextId <= e.id < w.db.nextId + |rows|;
      AppendAscending(w.log, rows, w.db.nextId);
      AppendAscending(w.db.events, rows, w.db.nextId);
    }
  }

  lemma {:induction false} NewerEvents(events: seq<Event>, t: int, cursor: int)
    requires Ascending(events)
    ensures Ascending(Newer(events, t, cursor))
    ensures forall e :: e in Newer(events, t, cursor) <==> e in events && e.taskId == t && e.id > cursor
  {
    if events != [] {
      var front, last := events[..|events| - 1], events[|events| - 1];
      NewerEvents(front, t, cursor);
      assert events == front + [last];
      var tail: seq<Event> := if last.taskId == t && last.id > cursor then [last] else [];
      assert forall e :: e in front ==> e.id < last.id;
      AppendAscending(Newer(front, t, cursor), tail, last.id);
    }
  }

  /** A page holds exactly the task's events between the old cursor and its own last id, ascending; a page
      that is not full holds all of them. */
  lemma PageIs(events: seq<Event>, t: int, cursor: nat, limit: int)
    requires Ascending(events)
    ensures var rows := Page(events, t, cursor, limit);
      && Ascending(rows) && (forall e :: e in rows ==> e in events && e.taskId == t && e.id > cursor)
      && (rows != [] ==> forall e :: e in rows ==> e.id <= rows[|rows| - 1].id)
      && (forall e ::
           e in events && e.taskId == t && e.id > cursor && rows != [] && e.id <= rows[|rows| - 1].id ==> e in rows)
      && (|rows| < Clamp(limit) ==> forall e :: e in events && e.taskId == t && e.id > cursor ==> e in rows)
  {
    var newer := Newer(events, t, cursor);
    NewerEvents(events, t, cursor);
    hide Newer;
    PrefixUpTo(newer, if |newer| <= Clamp(limit) then |newer| else Clamp(limit));
    assert newer[..|newer|] == newer;
  }

  /** The first `k` of ascending events are those up to the last of them. */
  lemma PrefixUpTo(newer: seq<Event>, k: nat)
    requires Ascending(newer) && k <= |newer|
    ensures Ascending(newer[..k])
    ensures forall e :: e in newer[..k] ==> e in newer
    ensures k > 0 ==> forall e :: e in newer ==> (e in newer[..k] <==> e.id <= newer[k - 1].id)
  {
    forall e | k > 0 && e in newer ensures e in newer[..k] <==> e.id <= newer[k - 1].id {
      var i :| 0 <= i < |newer| && newer[i] == e;
      if i < k { assert newer[..k][i] == e; }
      if e in newer[..k] {
        var j :| 0 <= j < k && newer[j] == e;
      }
    }
  }

  lemma ReadKeepsReadUpTo(setup: Setup, w: World, step: Step)
    requires step.Read? && Filed(w) && ReadUpTo(setup, w)
    ensures ReadUpTo(setup, After(setup, w, step))
    ensures |After(setup, w, step).seen| < |w.seen| + Clamp(step.limit) ==>
      forall e :: e in w.db.events && e.taskId == setup.reader ==> e.id <= After(setup, w, step).cursor
  {
    var rows := Page(w.db.events, setup.reader, w.cursor, step.limit);
    PageIs(w.db.events, setup.reader, w.cursor, step.limit);
    hide Page;
    AppendAscending(w.seen, rows, w.cursor + 1);
    if rows != [] { assert rows[|rows| - 1] in rows; }
    assert w.log + [] == w.log;
  }

  lemma StepKeepsReadUpTo(setup: Setup, w: World, step: Step)
    requires Enabled(w, step) && Filed(w) && ReadUpTo(setup, w)
    ensures ReadUpTo(setup, After(setup, w, step))
  {
    if step.Read? {
      ReadKeepsReadUpTo(setup, w, step);
    } else if step.Prune? {
      KeptMembers(w.db.events, step.before);
      assert w.log + [] == w.log;
    } else {
      InsertedIds(setup, w, step);
      var rows := Inserted(setup, w, step);
      assert forall e :: e in rows ==> w.db.nextId <= e.id;
    }
  }

  // ---- every run ----

  ghost predicate Invariant(setup: Setup, w: World) {
    && (forall t :: Budgeted(setup, w, t)) && (forall t :: Closed(w, t))
    && Filed(w) && ReadUpTo(setup, w)
  }

  lemma {:induction false} InvariantHolds(setup: Setup, worlds: seq<World>, steps: seq<Step>, i: nat)
    requires IsRun(setup, worlds, steps) && i < |worlds|
    ensures Invariant(setup, worlds[i])
  {
    if i > 0 {
      InvariantHolds(setup, worlds, steps, i - 1);
      var w, step := worlds[i - 1], steps[i - 1];
      hide Budgeted, Closed, Filed, ReadUpTo, After, Enabled;
      forall t ensures Budgeted(setup, worlds[i], t) && Closed(worlds[i], t) {
        StepKeepsBudget(setup, w, step, t);
        assert Closed(w, t);
        StepKeepsClosed(setup, w, step, t);
      }
      StepKeepsFiled(setup, w, step);
      StepKeepsReadUpTo(setup, w, step);
    }
  }

  /** Progress stays within its budget: counters equal to what was inserted, never over the caps, and exactly one
      truncation marker survives if any batch ever dropped an event or asked for it, none otherwise. */
  lemma LedgerIsBudgeted(setup: Setup, worlds: seq<World>, steps: seq<Step>, i: nat, t: int)
    requires IsRun(setup, worlds, steps) && i < |worlds| && t in worlds[i].db.tasks
    ensures var w := worlds[i]; var task, inserted := w.db.tasks[t], Tally(w.log, t);
      && task.count == inserted.count && task.count <= (if setup.maxEvents > 0 then setup.maxEvents else 0)
      && task.bytes == inserted.bytes && task.bytes <= (if setup.maxBytes > 0 then setup.maxBytes else 0)
      && Tally(w.db.events, t).markers == if t in w.wanted then 1 else 0
  {
    InvariantHolds(setup, worlds, steps, i);
    assert Budgeted(setup, worlds[i], t);
  }

  /** A task in a terminal status always has a latest terminal event that carries that status. */
  lemma TerminalTasksAreClosed(setup: Setup, worlds: seq<World>, steps: seq<Step>, i: nat, t: int)
    requires IsRun(setup, worlds, steps) && i < |worlds|
    requires t in worlds[i].db.tasks && Terminal(worlds[i].db.tasks[t].status)
    ensures var last := LatestTerminal(worlds[i].db.events, t);
      last.Some? && last.value.kind == TaskTerminal(Upper(worlds[i].db.tasks[t].status))
  {
    InvariantHolds(setup, worlds, steps, i);
    assert Closed(worlds[i], t);
  }

  /** The reader gets every surviving event of its task up to its cursor exactly once and in order, and never
      misses one that is not progress: in particular no terminal event. */
  lemma ReaderMissesNothing(setup: Setup, worlds: seq<World>, steps: seq<Step>, i: nat, e: Event)
    requires IsRun(setup, worlds, steps) && i < |worlds|
    requires e.taskId == setup.reader && e.id <= worlds[i].cursor
    ensures Ascending(worlds[i].seen)
    ensures e in worlds[i].db.events ==> e in worlds[i].seen
    ensures e in worlds[i].log && e.kind != AgentProgress ==> e in worlds[i].seen
  {
    InvariantHolds(setup, worlds, steps, i);
  }

  /** A page that comes back short means the reader has caught up. */
  lemma ShortPageMeansCaughtUp(setup: Setup, worlds: seq<World>, steps: seq<Step>, i: nat, e: Event)
    requires IsRun(setup, worlds, steps) && i < |steps| && steps[i].Read?
    requires |worlds[i + 1].seen| < |worlds[i].seen| + Clamp(steps[i].limit)
    requires e in worlds[i + 1].db.events && e.taskId == setup.reader
    ensures e in worlds[i + 1].seen
  {
    InvariantHolds(setup, worlds, steps, i);
    InvariantHolds(setup, worlds, steps, i + 1);
    ReadKeepsReadUpTo(setup, worlds[i], steps[i]);
  }
}
