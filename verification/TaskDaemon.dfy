/** The task daemon: a pool of worker processes, delayed retries, and a shutdown request that may arrive
    between any two looks at the flag. */
module TaskDaemon {
  import opened Options

  const TRANSIENT_MAX_RETRIES: nat := 3

  datatype Policy = BudgetAbort | Transient | InternalRetryOnce | Permanent

  /** A child's exit: its return code, the class of its error, and when it is handled. */
  datatype Exit = Exit(code: int, policy: Policy, at: int)

  datatype Retry = Retry(after: int, count: nat)

  /** The pool (task and retry count of each running child), the pending retries, the shutdown flag and, as
      history, how many children each task got since it was last acquired. */
  datatype State = State(pool: map<int, nat>, pending: map<int, Retry>, shutdown: bool, launches: map<int, nat>)

  /** What one iteration reads from outside: exits, the clock, offered tasks, live foreign workers, tasks whose
      runtime is misconfigured, the cost cap, and whether a signal has arrived by each look at the flag. */
  datatype Inputs = Inputs(exits: map<int, Exit>, now: int, offers: seq<int>, live: set<int>, broken: set<int>,
                           capReached: bool, signal1: bool, signal2: bool, signal3: bool, signal4: bool)

  function BackoffSeconds(retryCount: nat): int {
    if retryCount == 0 then 30 else if retryCount == 1 then 60 else 120
  }

  /** The retry a failed child gets, if any. */
  function RetryAfter(retryCount: nat, exit: Exit): Option<Retry> {
    if exit.code == 0 then None
    else match exit.policy
      case BudgetAbort => None
      case Transient =>
        if retryCount >= TRANSIENT_MAX_RETRIES then None
        else Some(Retry(exit.at + BackoffSeconds(retryCount), retryCount + 1))
      case InternalRetryOnce => if retryCount < 1 then Some(Retry(exit.at, 1)) else None
      case Permanent => None
  }

  /** Every exited child leaves the pool, and those with a retry left become pending. */
  function Reaped(s: State, exits: map<int, Exit>): State {
    s.(pool := map id | id in s.pool && id !in exits :: s.pool[id],
       pending := s.pending + map id | id in s.pool && id in exits && RetryAfter(s.pool[id], exits[id]).Some? ::
         RetryAfter(s.pool[id], exits[id]).value)
  }

  /** A child is started unless the task's runtime is misconfigured. */
  function Launched(s: State, id: int, retryCount: nat, broken: set<int>): State {
    if id in broken then s
    else s.(pool := s.pool[id := retryCount], launches := s.launches[id := LaunchCount(s, id) + 1])
  }

  /** A newly acquired task starts its launch count afresh. */
  function Acquired(s: State, id: int, broken: set<int>): State {
    Launched(s.(launches := s.launches[id := 0]), id, 0, broken)
  }

  function LaunchCount(s: State, id: int): nat { if id in s.launches then s.launches[id] else 0 }

  predicate Ready(s: State, id: int, now: int) {
    id in s.pending && now >= s.pending[id].after
  }

  /** What becomes of task `id` when exactly the retries `promoted` are taken up, those of broken tasks in vain. */
  predicate PromotedAt(s: State, broken: set<int>, promoted: set<int>, t: State, id: int) {
    var started := id in promoted && id !in broken;
    && (id in t.pending <==> id in s.pending && id !in promoted)
    && (id in t.pending ==> t.pending[id] == s.pending[id])
    && (id in t.pool <==> id in s.pool || started)
    && var count := if started && id in s.pending then s.pending[id].count else if id in s.pool then s.pool[id] else 0;
    && (id in t.pool ==> t.pool[id] == count)
    && LaunchCount(t, id) == LaunchCount(s, id) + (if started then 1 else 0)
  }

  ghost predicate PromotesSet(maxSlots: int, s: State, now: int, broken: set<int>, promoted: set<int>, t: State) {
    && (forall id :: id in promoted ==> Ready(s, id, now))
    && (forall id :: PromotedAt(s, broken, promoted, t, id))
    && t.shutdown == s.shutdown
    && (|t.pool| <= maxSlots || t.pool == s.pool)
  }

  /** As many ready retries as there are slots: a ready one is left waiting only when the pool is full. */
  ghost predicate Promotes(maxSlots: int, s: State, now: int, broken: set<int>, t: State) {
    exists promoted :: PromotesSet(maxSlots, s, now, broken, promoted, t) && NoneLeft(maxSlots, s, now, promoted, t)
  }

  ghost predicate NoneLeft(maxSlots: int, s: State, now: int, promoted: set<int>, t: State) {
    forall id :: Ready(s, id, now) && id !in promoted ==> |t.pool| >= maxSlots
  }

  /** The acquisition loop over what the queue offers; excluded tasks are never handed out. */
  function AcquireAll(maxSlots: int, s: State, offers: seq<int>, live: set<int>, broken: set<int>): State
    decreases |offers|
  {
    if |s.pool| >= maxSlots || offers == [] then s
    else if offers[0] in s.pool.Keys + s.pending.Keys + live then AcquireAll(maxSlots, s, offers[1..], live, broken)
    else AcquireAll(maxSlots, Acquired(s, offers[0], broken), offers[1..], live, broken)
  }

  function Signalled(s: State, arrived: bool): State { s.(shutdown := s.shutdown || arrived) }

  /** One pass of the main loop, and whether the daemon returned in it. */
  ghost predicate Iterates(maxSlots: int, once: bool, s: State, inp: Inputs, t: State, returned: bool) {
    var s1 := Signalled(Reaped(s, inp.exits), inp.signal1);
    if s1.shutdown && s1.pool == map[] then t == s1 && returned
    else
      exists p :: PassFrom(maxSlots, s1, inp, p, t) && returned == (once && t.pool == map[] && t.pending == map[])
  }

  /** The pass after the drain check: `p` is the state after promotion. */
  ghost predicate PassFrom(maxSlots: int, s1: State, inp: Inputs, p: State, t: State) {
    var s2 := Signalled(s1, inp.signal2);
    && (if s2.shutdown then p == s2 else Promotes(maxSlots, s2, inp.now, inp.broken, p))
    && var s3 := Signalled(p, inp.signal3);
       var a := if s3.shutdown || inp.capReached then s3
                else AcquireAll(maxSlots, s3, inp.offers, inp.live, inp.broken);
       t == Signalled(a, inp.signal4)
  }

  class Daemon {
    const maxSlots: int
    var pool: map<int, nat>
    var pendingRetries: map<int, Retry>
    var shutdownRequested: bool
    ghost var launches: map<int, nat>

    ghost function Snapshot(): State
      reads this
    {
      State(pool, pendingRetries, shutdownRequested, launches)
    }

    constructor (maxSlots: int)
      ensures this.maxSlots == maxSlots && Snapshot() == State(map[], map[], false, map[])
    {
      this.maxSlots, pool, pendingRetries, shutdownRequested, launches := maxSlots, map[], map[], false, map[];
    }

    /** The signal handler, as seen by the next look at the flag. */
    method Signal(arrived: bool)
      modifies `shutdownRequested
      ensures Snapshot() == Signalled(old(Snapshot()), arrived)
    {
      if arrived { shutdownRequested := true; }
    }

    method Launch(id: int, retryCount: nat, broken: set<int>)
      modifies `pool, `launches
      ensures Snapshot() == Launched(old(Snapshot()), id, retryCount, broken)
    {
      if id in broken { return; }
      pool := pool[id := retryCount];
      launches := launches[id := (if id in launches then launches[id] else 0) + 1];
    }

    method QueueRetry(id: int, retry: Retry)
      modifies `pendingRetries
      ensures pendingRetries == old(pendingRetries)[id := retry]
    {
      pendingRetries := pendingRetries[id := retry];
    }

    method ReapFinished(exits: map<int, Exit>)
      modifies `pool, `pendingRetries
      ensures Snapshot() == Reaped(old(Snapshot()), exits)
    {
      hide ReapedAt;
      ghost var s := Snapshot();
      var rest := pool.Keys;
      ReapNone(s, exits);
      while rest != {}
        invariant rest <= s.pool.Keys && launches == s.launches && shutdownRequested == s.shutdown
        invariant forall id :: ReapedAt(s, exits, rest, pool, pendingRetries, id)
        decreases rest
      {
        var id := Pick(rest);
        ghost var oldPool, oldPending, oldRest := pool, pendingRetries, rest;
        StillThere(s, exits, rest, pool, pendingRetries, id);
        rest := rest - {id};
        if id in exits {
          var retryCount, exit := pool[id], exits[id];
          pool := pool - {id};
          if exit.code != 0 {
            if exit.policy == BudgetAbort {
            } else if exit.policy == Transient && retryCount < TRANSIENT_MAX_RETRIES {
              QueueRetry(id, Retry(exit.at + BackoffSeconds(retryCount), retryCount + 1));
            } else if exit.policy == InternalRetryOnce && retryCount < 1 {
              QueueRetry(id, Retry(exit.at, 1));
            }
          }
        }
        ReapOne(s, exits, oldRest, oldPool, oldPending, id, pool, pendingRetries);
      }
      ReapedAll(s, exits, pool, pendingRetries);
    }

    method PromoteReadyRetries(now: int, broken: set<int>)
      requires pool.Keys !! pendingRetries.Keys
      modifies `pool, `pendingRetries, `launches
      ensures Promotes(maxSlots, old(Snapshot()), now, broken, Snapshot())
    {
      hide PromotesSet, Launched;
      ghost var s := Snapshot();
      ghost var promoted: set<int> := {};
      PromoteNone(maxSlots, s, now, broken);
      var rest := pendingRetries.Keys;
      while rest != {}
        invariant rest <= s.pending.Keys && promoted <= s.pending.Keys - rest
        invariant PromotesSet(maxSlots, s, now, broken, promoted, Snapshot())
        invariant forall id :: Ready(s, id, now) && id !in promoted && id !in rest ==> |pool| >= maxSlots
        decreases rest
      {
        var id := Pick(rest);
        rest := rest - {id};
        ghost var before := Snapshot();
        PromotedAtAll(maxSlots, s, now, broken, promoted, before, id);
        if now >= pendingRetries[id].after && |pool| < maxSlots {
          var count := pendingRetries[id].count;
          pendingRetries := pendingRetries - {id};
          Launch(id, count, broken);
          PromoteOne(maxSlots, s, now, broken, promoted, before, id);
          promoted := promoted + {id};
        }
      }
      assert NoneLeft(maxSlots, s, now, promoted, Snapshot());
    }

    method AcquireTasks(offers: seq<int>, live: set<int>, broken: set<int>)
      modifies `pool, `launches
      ensures Snapshot() == AcquireAll(maxSlots, old(Snapshot()), offers, live, broken)
    {
      ghost var s := Snapshot();
      var i := 0;
      while |pool| < maxSlots && i < |offers|
        invariant 0 <= i <= |offers|
        invariant AcquireAll(maxSlots, s, offers, live, broken)
               == AcquireAll(maxSlots, Snapshot(), offers[i..], live, broken)
        decreases |offers| - i
      {
        assert offers[i..][0] == offers[i] && offers[i..][1..] == offers[i + 1..];
        var id := offers[i];
        i := i + 1;
        if id !in pool.Keys + pendingRetries.Keys + live {
          launches := launches[id := 0];
          Launch(id, 0, broken);
        }
      }
    }

    /** One iteration of the main loop. */
    method Iterate(once: bool, inp: Inputs) returns (returned: bool)
      requires pool.Keys !! pendingRetries.Keys
      modifies this
      ensures Iterates(maxSlots, once, old(Snapshot()), inp, Snapshot(), returned)
    {
      ReapFinished(inp.exits);
      Signal(inp.signal1);
      ghost var s1 := Snapshot();
      if shutdownRequested && pool == map[] { return true; }
      Signal(inp.signal2);
      if !shutdownRequested { PromoteReadyRetries(inp.now, inp.broken); }
      ghost var p := Snapshot();
      Signal(inp.signal3);
      if !shutdownRequested && !inp.capReached { AcquireTasks(inp.offers, inp.live, inp.broken); }
      Signal(inp.signal4);
      returned := once && pool == map[] && pendingRetries == map[];
      assert PassFrom(maxSlots, s1, inp, p, Snapshot());
    }
  }

  /** One more retry leaves the waiting list. */
  lemma PromoteOne(maxSlots: int, s: State, now: int, broken: set<int>, promoted: set<int>, before: State, id: int)
    requires s.pool.Keys !! s.pending.Keys
    requires PromotesSet(maxSlots, s, now, broken, promoted, before)
    requires Ready(s, id, now) && id !in promoted && |before.pool| < maxSlots
    ensures id in before.pending && before.pending[id] == s.pending[id]
    ensures PromotesSet(maxSlots, s, now, broken, promoted + {id},
                        Launched(before.(pending := before.pending - {id}), id, s.pending[id].count, broken))
  {
    var t := Launched(before.(pending := before.pending - {id}), id, s.pending[id].count, broken);
    assert PromotedAt(s, broken, promoted, before, id);
    forall x ensures PromotedAt(s, broken, promoted + {id}, t, x) {
      assert PromotedAt(s, broken, promoted, before, x);
    }
    PoolGrowsByOne(before, t, id);
  }

  lemma PromoteNone(maxSlots: int, s: State, now: int, broken: set<int>)
    ensures PromotesSet(maxSlots, s, now, broken, {}, s)
  {
  }

  lemma PromotedAtAll(maxSlots: int, s: State, now: int, broken: set<int>, promoted: set<int>, t: State, id: int)
    requires PromotesSet(maxSlots, s, now, broken, promoted, t)
    ensures PromotedAt(s, broken, promoted, t, id)
  {
  }

  /** Task `id` while the children in `rest` are still to be looked at. */
  ghost predicate ReapedAt(s: State, exits: map<int, Exit>, rest: set<int>, pool: map<int, nat>,
                           pending: map<int, Retry>, id: int) {
    var gone := id in s.pool && id !in rest && id in exits;
    var retry := if gone then RetryAfter(s.pool[id], exits[id]) else None;
    && (id in pool <==> id in s.pool && !gone)
    && (id in pool ==> pool[id] == s.pool[id])
    && (id in pending <==> id in s.pending || retry.Some?)
    && (retry.Some? ==> pending[id] == retry.value)
    && (id in pending && retry == None ==> id in s.pending && pending[id] == s.pending[id])
  }

  lemma ReapNone(s: State, exits: map<int, Exit>)
    ensures forall id :: ReapedAt(s, exits, s.pool.Keys, s.pool, s.pending, id)
  {
  }

  lemma StillThere(s: State, exits: map<int, Exit>, rest: set<int>, pool: map<int, nat>, pending: map<int, Retry>,
                   id: int)
    requires id in rest && rest <= s.pool.Keys && ReapedAt(s, exits, rest, pool, pending, id)
    ensures id in pool && pool[id] == s.pool[id]
  {
  }

  lemma ReapOne(s: State, exits: map<int, Exit>, rest: set<int>, pool: map<int, nat>, pending: map<int, Retry>, id: int,
                pool': map<int, nat>, pending': map<int, Retry>)
    requires id in rest && rest <= s.pool.Keys && forall x :: ReapedAt(s, exits, rest, pool, pending, x)
    requires pool' == if id in exits then pool - {id} else pool
    requires pending' == if id in exits && RetryAfter(s.pool[id], exits[id]).Some?
                         then pending[id := RetryAfter(s.pool[id], exits[id]).value] else pending
    ensures forall x :: ReapedAt(s, exits, rest - {id}, pool', pending', x)
  {
    forall x ensures ReapedAt(s, exits, rest - {id}, pool', pending', x) {
      assert ReapedAt(s, exits, rest, pool, pending, x);
    }
  }

  lemma ReapedAll(s: State, exits: map<int, Exit>, pool: map<int, nat>, pending: map<int, Retry>)
    requires forall id :: ReapedAt(s, exits, {}, pool, pending, id)
    ensures s.(pool := pool, pending := pending) == Reaped(s, exits)
  {
    var t := Reaped(s, exits);
    forall id ensures id in pool <==> id in t.pool { assert ReapedAt(s, exits, {}, pool, pending, id); }
    forall id ensures id in pending <==> id in t.pending { assert ReapedAt(s, exits, {}, pool, pending, id); }
    forall id | id in pool ensures pool[id] == t.pool[id] { assert ReapedAt(s, exits, {}, pool, pending, id); }
    forall id | id in pending ensures pending[id] == t.pending[id] { assert ReapedAt(s, exits, {}, pool, pending, id); }
  }

  lemma SubsetSize<T>(a: set<T>, b: set<T>)
    requires a <= b
    ensures |a| <= |b|
  {
    assert b == a + (b - a);
  }

  lemma PoolGrowsByOne(s: State, t: State, id: int)
    requires t.pool.Keys <= s.pool.Keys + {id}
    ensures |t.pool| <= |s.pool| + 1
  {
    assert |t.pool| == |t.pool.Keys| && |s.pool| == |s.pool.Keys|;
    SubsetSize(t.pool.Keys, s.pool.Keys + {id});
  }

  // ---- every run ----

  function Slots(maxSlots: int): nat { if maxSlots < 0 then 0 else maxSlots }

  /** A task is running or waiting but not both, and its retry count tells how many children it got. */
  predicate TaskOk(s: State, id: int) {
    && !(id in s.pool && id in s.pending)
    && (id in s.pool ==> s.pool[id] <= TRANSIENT_MAX_RETRIES && LaunchCount(s, id) == s.pool[id] + 1)
    && (id in s.pending ==>
          1 <= s.pending[id].count <= TRANSIENT_MAX_RETRIES && LaunchCount(s, id) == s.pending[id].count)
    && LaunchCount(s, id) <= TRANSIENT_MAX_RETRIES + 1
  }

  ghost predicate Invariant(maxSlots: int, s: State) {
    |s.pool| <= Slots(maxSlots) && forall id :: TaskOk(s, id)
  }

  lemma ReapKeepsInvariant(maxSlots: int, s: State, exits: map<int, Exit>)
    requires Invariant(maxSlots, s)
    ensures Invariant(maxSlots, Reaped(s, exits))
  {
    var t := Reaped(s, exits);
    assert t.pool.Keys <= s.pool.Keys;
    SubsetSize(t.pool.Keys, s.pool.Keys);
    assert |t.pool| == |t.pool.Keys| && |s.pool| == |s.pool.Keys|;
    forall id ensures TaskOk(t, id) {
      assert TaskOk(s, id);
    }
  }

  lemma PromotesKeepsInvariant(maxSlots: int, s: State, now: int, broken: set<int>, t: State)
    requires Invariant(maxSlots, s) && Promotes(maxSlots, s, now, broken, t)
    ensures Invariant(maxSlots, t)
  {
    var promoted :| PromotesSet(maxSlots, s, now, broken, promoted, t);
    forall id ensures TaskOk(t, id) {
      assert TaskOk(s, id) && PromotedAt(s, broken, promoted, t, id);
      assert id in promoted ==> Ready(s, id, now);
    }
  }

  lemma {:induction false} AcquireKeepsInvariant(maxSlots: int, s: State, offers: seq<int>, live: set<int>,
                                                 broken: set<int>)
    requires Invariant(maxSlots, s)
    ensures Invariant(maxSlots, AcquireAll(maxSlots, s, offers, live, broken))
    ensures AcquireAll(maxSlots, s, offers, live, broken).shutdown == s.shutdown
    decreases |offers|
  {
    if |s.pool| < maxSlots && offers != [] {
      var id := offers[0];
      if id in s.pool.Keys + s.pending.Keys + live {
        AcquireKeepsInvariant(maxSlots, s, offers[1..], live, broken);
      } else {
        var t := Acquired(s, id, broken);
        AcquireOneKeepsInvariant(maxSlots, s, id, broken);
        AcquireKeepsInvariant(maxSlots, t, offers[1..], live, broken);
      }
    }
  }

  lemma AcquireOneKeepsInvariant(maxSlots: int, s: State, id: int, broken: set<int>)
    requires Invariant(maxSlots, s) && |s.pool| < maxSlots && id !in s.pool && id !in s.pending
    ensures Invariant(maxSlots, Acquired(s, id, broken))
  {
    var t := Acquired(s, id, broken);
    PoolGrowsByOne(s, t, id);
    forall x ensures TaskOk(t, x) { assert TaskOk(s, x); }
  }

  lemma IterationKeepsInvariant(maxSlots: int, once: bool, s: State, inp: Inputs, t: State, returned: bool)
    requires Invariant(maxSlots, s) && Iterates(maxSlots, once, s, inp, t, returned)
    ensures Invariant(maxSlots, t)
  {
    ReapKeepsInvariant(maxSlots, s, inp.exits);
    var s1 := Signalled(Reaped(s, inp.exits), inp.signal1);
    SignalKeepsInvariant(maxSlots, Reaped(s, inp.exits), inp.signal1);
    if !(s1.shutdown && s1.pool == map[]) {
      var p :| PassFrom(maxSlots, s1, inp, p, t);
      var s2 := Signalled(s1, inp.signal2);
      SignalKeepsInvariant(maxSlots, s1, inp.signal2);
      hide Invariant, Promotes;
      if !s2.shutdown { PromotesKeepsInvariant(maxSlots, s2, inp.now, inp.broken, p); }
      var s3 := Signalled(p, inp.signal3);
      SignalKeepsInvariant(maxSlots, p, inp.signal3);
      AcquireKeepsInvariant(maxSlots, s3, inp.offers, inp.live, inp.broken);
      SignalKeepsInvariant(maxSlots, s3, inp.signal4);
      SignalKeepsInvariant(maxSlots, AcquireAll(maxSlots, s3, inp.offers, inp.live, inp.broken), inp.signal4);
    }
  }

  lemma SignalKeepsInvariant(maxSlots: int, s: State, arrived: bool)
    requires Invariant(maxSlots, s)
    ensures Invariant(maxSlots, Signalled(s, arrived))
  {
    forall id ensures TaskOk(Signalled(s, arrived), id) { assert TaskOk(s, id); }
  }

  /** A run of the daemon: passes of the main loop, the last of which may have returned. */
  ghost predicate IsRun(maxSlots: int, once: bool, states: seq<State>, inputs: seq<Inputs>, returned: bool) {
    && |states| == |inputs| + 1 && states[0] == State(map[], map[], false, map[])
    && forall i ::
      0 <= i < |inputs| ==> Iterates(maxSlots, once, states[i], inputs[i], states[i + 1], returned && i == |inputs| - 1)
  }

  lemma FreshIsOk(maxSlots: int)
    ensures Invariant(maxSlots, State(map[], map[], false, map[]))
  {
  }

  lemma {:induction false} InvariantHolds(maxSlots: int, once: bool, states: seq<State>, inputs: seq<Inputs>,
                                          returned: bool, i: nat)
    requires IsRun(maxSlots, once, states, inputs, returned) && i < |states|
    ensures Invariant(maxSlots, states[i])
  {
    hide Iterates, Invariant;
    if i == 0 {
      FreshIsOk(maxSlots);
    } else {
      InvariantHolds(maxSlots, once, states, inputs, returned, i - 1);
      IterationKeepsInvariant(maxSlots, once, states[i - 1], inputs[i - 1], states[i],
                              returned && i - 1 == |inputs| - 1);
    }
  }

  /** Over every run: the pool keeps to its slots and away from the waiting retries, and no task gets more than
      four children between two acquisitions. */
  lemma DaemonIsSafe(maxSlots: int, once: bool, states: seq<State>, inputs: seq<Inputs>, returned: bool, i: nat,
                     id: int)
    requires IsRun(maxSlots, once, states, inputs, returned) && i < |states|
    ensures |states[i].pool| <= Slots(maxSlots) && states[i].pool.Keys !! states[i].pending.Keys
    ensures id in states[i].pool ==> states[i].pool[id] <= 3
    ensures LaunchCount(states[i], id) <= 4
  {
    InvariantHolds(maxSlots, once, states, inputs, returned, i);
    assert TaskOk(states[i], id);
    forall x | x in states[i].pool ensures x !in states[i].pending { assert TaskOk(states[i], x); }
  }

  /** A pass begun after the shutdown request starts no child and drops no pending retry; it only takes exited
      children out of the pool, and it returns exactly when none is left. */
  lemma DrainingPass(maxSlots: int, once: bool, s: State, inp: Inputs, t: State, returned: bool)
    requires s.shutdown && Iterates(maxSlots, once, s, inp, t, returned)
    ensures t.shutdown && t.launches == s.launches
    ensures t.pool == map id | id in s.pool && id !in inp.exits :: s.pool[id]
    ensures forall id :: id in s.pending ==> id in t.pending
    ensures returned <==> t.pool == map[]
  {
    var s1 := Signalled(Reaped(s, inp.exits), inp.signal1);
    if !(s1.shutdown && s1.pool == map[]) {
      var p :| PassFrom(maxSlots, s1, inp, p, t);
    }
  }

  /** What has happened between `s` and `t` when the daemon was only draining: nothing was launched, and every child
      that is left was there before, with its retry count. */
  ghost predicate Drained(s: State, t: State) {
    && t.shutdown && t.launches == s.launches
    && (forall id :: id in t.pool ==> id in s.pool && t.pool[id] == s.pool[id])
    && (forall id :: id in s.pending ==> id in t.pending)
  }

  /** From the first moment of a run with a shutdown request on, nothing is launched, no pending retry is dropped, the
      children that are left are those that have not exited in any pass since, and the daemon returns with the first
      pass that leaves none. */
  lemma {:induction false} ShutdownOnlyDrains(maxSlots: int, once: bool, states: seq<State>, inputs: seq<Inputs>,
                                              returned: bool, i: nat, j: nat)
    requires IsRun(maxSlots, once, states, inputs, returned) && i <= j < |states| && states[i].shutdown
    ensures Drained(states[i], states[j])
    ensures forall id ::
      id in states[j].pool <==> id in states[i].pool && forall k :: i <= k < j ==> id !in inputs[k].exits
    ensures i < j ==> (states[j].pool == map[] <==> returned && j == |inputs|)
  {
    hide Iterates;
    if i < j {
      ShutdownOnlyDrains(maxSlots, once, states, inputs, returned, i, j - 1);
      DrainingPass(maxSlots, once, states[j - 1], inputs[j - 1], states[j], returned && j - 1 == |inputs| - 1);
    }
  }

  /** Whenever a run of the daemon ends in a return, no child is running. */
  lemma ReturnsWithEmptyPool(maxSlots: int, once: bool, states: seq<State>, inputs: seq<Inputs>, returned: bool)
    requires IsRun(maxSlots, once, states, inputs, returned) && returned
    ensures states[|inputs|].pool == map[]
  {
    hide Iterates;
    var n := |inputs|;
    if n > 0 { ReturningPass(maxSlots, once, states[n - 1], inputs[n - 1], states[n]); }
  }

  lemma ReturningPass(maxSlots: int, once: bool, s: State, inp: Inputs, t: State)
    requires Iterates(maxSlots, once, s, inp, t, true)
    ensures t.pool == map[]
  {
    var s1 := Signalled(Reaped(s, inp.exits), inp.signal1);
    assert !(s1.shutdown && s1.pool == map[]) ==> once && t.pool == map[];
  }

  /** No ready retry is passed over while a slot is free: after a pass that was not cut short by a shutdown,
      every retry that was ready has been taken up or the pool is full. */
  lemma ReadyRetriesAreTaken(maxSlots: int, once: bool, s: State, inp: Inputs, t: State, id: int)
    requires Invariant(maxSlots, s) && Iterates(maxSlots, once, s, inp, t, false) && !t.shutdown
    requires Ready(Reaped(s, inp.exits), id, inp.now)
    ensures id !in t.pending || |t.pool| >= maxSlots
  {
    var s1 := Signalled(Reaped(s, inp.exits), inp.signal1);
    var p :| PassFrom(maxSlots, s1, inp, p, t);
    var s2, s3 := Signalled(s1, inp.signal2), Signalled(p, inp.signal3);
    AcquireOnlyAdds(maxSlots, s3, inp.offers, inp.live, inp.broken);
    var promoted :|
      PromotesSet(maxSlots, s2, inp.now, inp.broken, promoted, p) && NoneLeft(maxSlots, s2, inp.now, promoted, p);
    assert Ready(s2, id, inp.now) && PromotedAt(s2, inp.broken, promoted, p, id);
  }

  lemma {:induction false} AcquireOnlyAdds(maxSlots: int, s: State, offers: seq<int>, live: set<int>, broken: set<int>)
    ensures var t := AcquireAll(maxSlots, s, offers, live, broken);
      |s.pool| <= |t.pool| && t.pending == s.pending && t.shutdown == s.shutdown
    decreases |offers|
  {
    if |s.pool| < maxSlots && offers != [] {
      var id := offers[0];
      if id in s.pool.Keys + s.pending.Keys + live {
        AcquireOnlyAdds(maxSlots, s, offers[1..], live, broken);
      } else {
        AcquiredAdds(s, id, broken);
        hide Acquired;
        AcquireOnlyAdds(maxSlots, Acquired(s, id, broken), offers[1..], live, broken);
      }
    }
  }

  lemma AcquiredAdds(s: State, id: int, broken: set<int>)
    ensures var t := Acquired(s, id, broken); |s.pool| <= |t.pool| && t.pending == s.pending && t.shutdown == s.shutdown
  {
    var t := Acquired(s, id, broken);
    assert s.pool.Keys <= t.pool.Keys;
    SubsetSize(s.pool.Keys, t.pool.Keys);
    assert |t.pool| == |t.pool.Keys| && |s.pool| == |s.pool.Keys|;
  }

  // ---- what a pass does to each task ----

  lemma AcquiredOne(s: State, task: int, broken: set<int>, id: int)
    ensures var t := Acquired(s, task, broken);
      && t.pending == s.pending
      && (id in t.pool <==> id in s.pool || (id == task && id !in broken))
      && (id in t.pool ==> t.pool[id] == if id == task && id !in broken then 0 else s.pool[id])
  {
  }

  lemma {:induction false} AcquireTakes(maxSlots: int, s: State, offers: seq<int>, live: set<int>, broken: set<int>,
                                        id: int)
    ensures var t := AcquireAll(maxSlots, s, offers, live, broken);
      && t.pending == s.pending && (id in s.pool ==> id in t.pool && t.pool[id] == s.pool[id])
      && (id in t.pool && id !in s.pool ==>
            id in offers && id !in s.pending && id !in live && id !in broken && t.pool[id] == 0)
      && (id in offers && id !in s.pool && id !in s.pending && id !in live && id !in broken ==>
            id in t.pool || |t.pool| >= maxSlots)
    decreases |offers|
  {
    if |s.pool| < maxSlots && offers != [] {
      var task := offers[0];
      assert offers == [task] + offers[1..];
      if task in s.pool.Keys + s.pending.Keys + live {
        AcquireTakes(maxSlots, s, offers[1..], live, broken, id);
      } else {
        AcquiredOne(s, task, broken, id);
        hide Acquired;
        AcquireTakes(maxSlots, Acquired(s, task, broken), offers[1..], live, broken, id);
      }
    }
  }

  lemma {:induction false} AcquireInOrder(maxSlots: int, s: State, offers: seq<int>, live: set<int>, broken: set<int>,
                                          i: nat, j: nat)
    requires i < j < |offers| && offers[j] !in s.pool && forall k :: 0 <= k < i ==> offers[k] != offers[j]
    requires offers[i] !in s.pending && offers[i] !in live && offers[i] !in broken
    requires offers[j] in AcquireAll(maxSlots, s, offers, live, broken).pool
    ensures offers[i] in AcquireAll(maxSlots, s, offers, live, broken).pool
    decreases |offers|
  {
    hide *;
    var id, later := offers[i], offers[j];
    if id in s.pool {
      AcquireTakes(maxSlots, s, offers, live, broken, id);
    } else {
      var next := AcquireFirst(maxSlots, s, offers, live, broken, id, later, i == 0);
      var rest := offers[1..];
      if i == 0 {
        AcquireTakes(maxSlots, next, rest, live, broken, id);
      } else {
        assert rest[i - 1] == id && rest[j - 1] == later;
        assert forall k :: 0 <= k < i - 1 ==> rest[k] == offers[k + 1];
        AcquireInOrder(maxSlots, next, rest, live, broken, i - 1, j - 1);
      }
      assert id in AcquireAll(maxSlots, next, rest, live, broken).pool;
    }
  }

  /** The first offer of an acquisition that takes `later` in the end. */
  lemma AcquireFirst(maxSlots: int, s: State, offers: seq<int>, live: set<int>, broken: set<int>, id: int, later: int,
                     first: bool) returns (next: State)
    requires offers != [] && later !in s.pool && later in AcquireAll(maxSlots, s, offers, live, broken).pool
    requires id !in s.pool && id !in s.pending && id !in live && id !in broken && (first ==> offers[0] == id)
    ensures AcquireAll(maxSlots, s, offers, live, broken) == AcquireAll(maxSlots, next, offers[1..], live, broken)
    ensures next.pending == s.pending && (first ==> id in next.pool) && (offers[0] != later ==> later !in next.pool)
  {
    var task := offers[0];
    next := if task in s.pool.Keys + s.pending.Keys + live then s else Acquired(s, task, broken);
    AcquiredOne(s, task, broken, id);
    AcquiredOne(s, task, broken, later);
    hide Acquired;
  }

  /** A pass as seen from one task: reaping leads to `r`, promotion of the set `promoted` to `q`, acquisition to `t`. */
  ghost predicate Stages(maxSlots: int, s: State, inp: Inputs, r: State, promoted: set<int>, q: State, t: State,
                         id: int) {
    && r == Reaped(s, inp.exits) && PromotedAt(r, inp.broken, promoted, q, id)
    && (id in promoted ==> Ready(r, id, inp.now) && !s.shutdown && !inp.signal1 && !inp.signal2)
    && (!t.shutdown && Ready(r, id, inp.now) && id !in promoted ==> |q.pool| >= maxSlots)
    && (!t.shutdown ==> !q.shutdown) && (s.shutdown || inp.signal1 || inp.signal2 || inp.signal3 ==> q.shutdown)
    && var a := if q.shutdown || inp.capReached then q else AcquireAll(maxSlots, q, inp.offers, inp.live, inp.broken);
       t.pool == a.pool && t.pending == a.pending && |q.pool| <= |t.pool|
  }

  lemma PassStages(maxSlots: int, once: bool, s: State, inp: Inputs, t: State, returned: bool, id: int)
      returns (r: State, promoted: set<int>, q: State)
    requires Iterates(maxSlots, once, s, inp, t, returned)
    ensures Stages(maxSlots, s, inp, r, promoted, q, t, id)
    ensures forall other :: Stages(maxSlots, s, inp, r, promoted, q, t, other)
  {
    hide AcquireAll, Reaped, PassFrom, Stages;
    r := Reaped(s, inp.exits);
    var s1 := Signalled(r, inp.signal1);
    if s1.shutdown && s1.pool == map[] {
      promoted, q := {}, s1;
      forall other ensures Stages(maxSlots, s, inp, r, promoted, q, t, other) {
        ReturningStages(maxSlots, s, inp, s1, other);
      }
    } else {
      var p :| PassFrom(maxSlots, s1, inp, p, t);
      q := Signalled(p, inp.signal3);
      promoted := StagesFrom(maxSlots, s, inp, p, t);
    }
  }

  lemma ReturningStages(maxSlots: int, s: State, inp: Inputs, s1: State, id: int)
    requires s1 == Signalled(Reaped(s, inp.exits), inp.signal1) && s1.shutdown
    ensures Stages(maxSlots, s, inp, Reaped(s, inp.exits), {}, s1, s1, id)
  {
    hide AcquireAll, Reaped;
  }

  lemma StagesFrom(maxSlots: int, s: State, inp: Inputs, p: State, t: State) returns (promoted: set<int>)
    requires PassFrom(maxSlots, Signalled(Reaped(s, inp.exits), inp.signal1), inp, p, t)
    ensures forall id :: Stages(maxSlots, s, inp, Reaped(s, inp.exits), promoted, Signalled(p, inp.signal3), t, id)
  {
    var q := Signalled(p, inp.signal3);
    var s2 := Signalled(Signalled(Reaped(s, inp.exits), inp.signal1), inp.signal2);
    AcquireOnlyAdds(maxSlots, q, inp.offers, inp.live, inp.broken);
    ReapedFlag(s, inp.exits);
    hide Reaped, AcquireAll;
    promoted := {};
    if !s2.shutdown {
      promoted :|
        PromotesSet(maxSlots, s2, inp.now, inp.broken, promoted, p) && NoneLeft(maxSlots, s2, inp.now, promoted, p);
    }
    forall id ensures Stages(maxSlots, s, inp, Reaped(s, inp.exits), promoted, q, t, id) {
      assert !s2.shutdown ==> PromotedAt(s2, inp.broken, promoted, p, id);
    }
  }

  lemma ReapedFlag(s: State, exits: map<int, Exit>)
    ensures Reaped(s, exits).shutdown == s.shutdown
  {
  }

  /** Every task that is offered, not running, not waiting for a retry, not run elsewhere and not misconfigured
      is started afresh in a pass without a shutdown or a reached cap, unless the pool is full in the end. */
  lemma OffersTaken(maxSlots: int, once: bool, s: State, inp: Inputs, t: State, returned: bool, id: int)
    requires Iterates(maxSlots, once, s, inp, t, returned) && !t.shutdown && !inp.capReached
    requires id in inp.offers && Startable(s, inp, id)
    ensures (id in t.pool && t.pool[id] == 0) || |t.pool| >= maxSlots
  {
    var r, promoted, q := PassStages(maxSlots, once, s, inp, t, returned, id);
    AcquireTakes(maxSlots, q, inp.offers, inp.live, inp.broken, id);
  }

  /** What waits for a retry stays as it is, or is taken up: not before its time, not after a shutdown, with its own
      count, and in vain only if the task is misconfigured. */
  ghost predicate WaitsOrRuns(s: State, inp: Inputs, t: State, id: int, retry: Retry) {
    if id in t.pending then t.pending[id] == retry && id !in t.pool
    else
      && inp.now >= retry.after && !s.shutdown && !inp.signal1 && !inp.signal2
      && if id in inp.broken then id !in t.pool else id in t.pool && t.pool[id] == retry.count
  }

  lemma RetryKept(maxSlots: int, once: bool, s: State, inp: Inputs, t: State, returned: bool, id: int)
    requires Invariant(maxSlots, s) && Iterates(maxSlots, once, s, inp, t, returned)
    requires id in Reaped(s, inp.exits).pending && id !in Reaped(s, inp.exits).pool
    ensures WaitsOrRuns(s, inp, t, id, Reaped(s, inp.exits).pending[id])
  {
    var r, promoted, q := PassStages(maxSlots, once, s, inp, t, returned, id);
    AcquireTakes(maxSlots, q, inp.offers, inp.live, inp.broken, id);
    hide AcquireAll, Reaped;
    assert id in q.pending || id in promoted;
  }

  /** A pass leaves a child that has not exited alone, and keeps or takes up a retry that was waiting. */
  lemma OthersKept(maxSlots: int, once: bool, s: State, inp: Inputs, t: State, returned: bool, id: int)
    requires Invariant(maxSlots, s) && Iterates(maxSlots, once, s, inp, t, returned)
    ensures id in s.pool && id !in inp.exits ==> id in t.pool && t.pool[id] == s.pool[id] && id !in t.pending
    ensures id in s.pending ==> WaitsOrRuns(s, inp, t, id, s.pending[id])
  {
    assert TaskOk(s, id);
    ReapedOther(s, inp.exits, id);
    hide Reaped, Iterates, Invariant, TaskOk, WaitsOrRuns;
    if id in s.pool && id !in inp.exits { ChildKept(maxSlots, once, s, inp, t, returned, id); }
    if id in s.pending { RetryKept(maxSlots, once, s, inp, t, returned, id); }
  }

  lemma ReapedOther(s: State, exits: map<int, Exit>, id: int)
    requires TaskOk(s, id)
    ensures var r := Reaped(s, exits);
      && (id in s.pool && id !in exits ==> id in r.pool && r.pool[id] == s.pool[id] && id !in r.pending)
      && (id in s.pending ==> id in r.pending && r.pending[id] == s.pending[id] && id !in r.pool)
  {
  }

  lemma ChildKept(maxSlots: int, once: bool, s: State, inp: Inputs, t: State, returned: bool, id: int)
    requires Iterates(maxSlots, once, s, inp, t, returned)
    requires var r := Reaped(s, inp.exits); id in r.pool && r.pool[id] == s.pool[id] && id !in r.pending && id in s.pool
    ensures id in t.pool && t.pool[id] == s.pool[id] && id !in t.pending
  {
    var r, promoted, q := PassStages(maxSlots, once, s, inp, t, returned, id);
    AcquireTakes(maxSlots, q, inp.offers, inp.live, inp.broken, id);
    hide AcquireAll, Reaped, Iterates;
  }

  /** The retry an exit earns: a transient error three times, after 30, 60 and 120 seconds; an internal error once, at
      once; anything else never. */
  predicate Earns(count: nat, exit: Exit, retry: Retry) {
    && exit.code != 0
    && ((exit.policy == Transient && count == 0 && retry == Retry(exit.at + 30, 1))
        || (exit.policy == Transient && count == 1 && retry == Retry(exit.at + 60, 2))
        || (exit.policy == Transient && count == 2 && retry == Retry(exit.at + 120, 3))
        || (exit.policy == InternalRetryOnce && count == 0 && retry == Retry(exit.at, 1)))
  }

  lemma EarnsIs(count: nat, exit: Exit, retry: Retry)
    ensures Earns(count, exit, retry) <==> RetryAfter(count, exit) == Some(retry)
  {
  }

  /** What becomes of an exited child: the retry its exit earns, waiting or taken up already; or, when it earns none,
      nothing, unless the queue offers the task again. */
  lemma ExitedChild(maxSlots: int, once: bool, s: State, inp: Inputs, t: State, returned: bool, id: int, retry: Retry)
    requires Invariant(maxSlots, s) && Iterates(maxSlots, once, s, inp, t, returned)
    requires id in s.pool && id in inp.exits
    ensures Earns(s.pool[id], inp.exits[id], retry) ==> WaitsOrRuns(s, inp, t, id, retry)
    ensures (forall any :: !Earns(s.pool[id], inp.exits[id], any)) ==>
      id !in t.pending && (id in t.pool ==> id in inp.offers && t.pool[id] == 0)
  {
    assert TaskOk(s, id);
    var count, exit := s.pool[id], inp.exits[id];
    var earned := RetryAfter(count, exit);
    EarnsIs(count, exit, retry);
    if earned.Some? {
      EarnsIs(count, exit, earned.value);
      hide Iterates, RetryAfter, Earns, WaitsOrRuns;
      RetryKept(maxSlots, once, s, inp, t, returned, id);
    } else {
      var r, promoted, q := PassStages(maxSlots, once, s, inp, t, returned, id);
      AcquireTakes(maxSlots, q, inp.offers, inp.live, inp.broken, id);
    }
  }

  /** Whatever newly stands in the pool was offered, and then neither waited for a retry nor ran elsewhere, and
      there was neither a shutdown nor a reached cap; or it is a retry whose time had come. Nothing
      misconfigured gets there. */
  lemma NewChildren(maxSlots: int, once: bool, s: State, inp: Inputs, t: State, returned: bool, id: int)
    requires Invariant(maxSlots, s) && Iterates(maxSlots, once, s, inp, t, returned)
    requires id in t.pool && (id !in s.pool || id in inp.exits)
    ensures id !in inp.broken && id !in t.pending
    ensures
      || (&& id in inp.offers && id !in inp.live && id !in s.pending && t.pool[id] == 0
          && !inp.capReached && !s.shutdown && !inp.signal1 && !inp.signal2 && !inp.signal3)
      || (id in s.pending && inp.now >= s.pending[id].after && t.pool[id] == s.pending[id].count)
      || (exists retry :: id in s.pool && Earns(s.pool[id], inp.exits[id], retry) && inp.now >= retry.after
            && t.pool[id] == retry.count)
  {
    assert TaskOk(s, id);
    var r, promoted, q := PassStages(maxSlots, once, s, inp, t, returned, id);
    AcquireTakes(maxSlots, q, inp.offers, inp.live, inp.broken, id);
    if id in s.pending {
      RetryKept(maxSlots, once, s, inp, t, returned, id);
    } else if id in s.pool && RetryAfter(s.pool[id], inp.exits[id]).Some? {
      assert Earns(s.pool[id], inp.exits[id], RetryAfter(s.pool[id], inp.exits[id]).value);
      RetryKept(maxSlots, once, s, inp, t, returned, id);
    }
  }

  /** The queue's offers are taken in order: a task that is started has no earlier offer left behind that could
      have been started. */
  lemma OffersInOrder(maxSlots: int, once: bool, s: State, inp: Inputs, t: State, returned: bool, i: nat, j: nat)
    requires Iterates(maxSlots, once, s, inp, t, returned) && i < j < |inp.offers|
    requires Startable(s, inp, inp.offers[i]) && Startable(s, inp, inp.offers[j])
    requires inp.offers[j] in t.pool && forall k :: 0 <= k < i ==> inp.offers[k] != inp.offers[j]
    ensures inp.offers[i] in t.pool
  {
    var r, promoted, q := PassStages(maxSlots, once, s, inp, t, returned, inp.offers[i]);
    StillStartable(maxSlots, s, inp, r, promoted, q, t, inp.offers[i]);
    StillStartable(maxSlots, s, inp, r, promoted, q, t, inp.offers[j]);
    hide *;
    AcquireInOrder(maxSlots, q, inp.offers, inp.live, inp.broken, i, j);
  }

  /** Neither running nor waiting nor run elsewhere nor misconfigured. */
  predicate Startable(s: State, inp: Inputs, id: int) {
    id !in s.pool && id !in s.pending && id !in inp.live && id !in inp.broken
  }

  lemma StillStartable(maxSlots: int, s: State, inp: Inputs, r: State, promoted: set<int>, q: State, t: State, id: int)
    requires Stages(maxSlots, s, inp, r, promoted, q, t, id) && Startable(s, inp, id)
    ensures Startable(q, inp, id)
    ensures id in t.pool ==> t.pool == AcquireAll(maxSlots, q, inp.offers, inp.live, inp.broken).pool
  {
    hide AcquireAll;
  }

  /** A pass returns exactly when it ends with no child and a shutdown had been requested before its drain check, or the
      daemon runs once and nothing waits for a retry either; and a signal is never forgotten. */
  lemma ReturnsExactly(maxSlots: int, once: bool, s: State, inp: Inputs, t: State, returned: bool)
    requires Iterates(maxSlots, once, s, inp, t, returned)
    ensures returned <==> t.pool == map[] && (s.shutdown || inp.signal1 || (once && t.pending == map[]))
    ensures s.shutdown || inp.signal1 ==> t.shutdown
    ensures !s.shutdown && !inp.signal1 ==> (t.shutdown <==> inp.signal2 || inp.signal3 || inp.signal4)
  {
    ReapedFlag(s, inp.exits);
    var s1 := Signalled(Reaped(s, inp.exits), inp.signal1);
    hide Reaped, AcquireAll, Promotes;
    if !(s1.shutdown && s1.pool == map[]) {
      var p :| PassFrom(maxSlots, s1, inp, p, t);
      var s2, q := Signalled(s1, inp.signal2), Signalled(p, inp.signal3);
      AcquireOnlyAdds(maxSlots, q, inp.offers, inp.live, inp.broken);
      if !s2.shutdown { PromotesFlag(maxSlots, s2, inp.now, inp.broken, p); }
    }
  }

  lemma PromotesFlag(maxSlots: int, s: State, now: int, broken: set<int>, t: State)
    requires Promotes(maxSlots, s, now, broken, t)
    ensures t.shutdown == s.shutdown
  {
  }
}
