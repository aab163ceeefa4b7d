/** Tarjan's strongly-connected-components search, proved to list exactly the components. */
module Components {
  import opened Ordering
  import opened Graphs

  /** What the search knows between steps: discovery numbers, the nodes on the stack (numbered but
      not yet assigned to a component), and the nodes whose call is still open. */
  datatype Env<V> = Env(index: map<V, nat>, stacked: set<V>, counter: nat, open: set<V>)

  ghost predicate Done<V(!new)>(e: Env<V>, v: V) {
    v in e.index && v !in e.stacked
  }

  ghost predicate Numbered<V(!new)>(g: Graph<V>, e: Env<V>) {
    && e.index.Keys <= g.Keys
    && e.open <= e.stacked <= e.index.Keys
    && (forall v :: v in e.index ==> e.index[v] < e.counter)
    && (forall v, w :: v in e.index && w in e.index && e.index[v] == e.index[w] ==> v == w)
  }

  /** Nothing leaves a closed node except to numbered nodes, nor a finished component at all. */
  ghost predicate Explored<V(!new)>(g: Graph<V>, e: Env<V>)
    requires Numbered(g, e)
  {
    && (forall v, w :: v in e.index && v !in e.open && w in g[v] ==> w in e.index)
    && (forall v, w :: Done(e, v) && w in g[v] ==> Done(e, w))
  }

  /** `y` reaches an open node that is no higher on the stack. */
  ghost predicate Anchored<V(!new)>(g: Graph<V>, e: Env<V>, y: V)
    requires Numbered(g, e) && y in e.index
  {
    exists x :: x in e.open && e.index[x] <= e.index[y] && Reach(g, y, x)
  }

  ghost predicate Linked<V(!new)>(g: Graph<V>, e: Env<V>)
    requires Numbered(g, e)
  {
    && (forall x, y :: x in e.open && y in e.stacked && e.index[x] <= e.index[y] ==> Reach(g, x, y))
    && (forall y {:trigger Anchored(g, e, y)} :: y in e.stacked ==> Anchored(g, e, y))
  }

  ghost predicate Invariant<V(!new)>(g: Graph<V>, e: Env<V>) {
    Numbered(g, e) && Explored(g, e) && Linked(g, e)
  }

  function Push<V>(e: Env<V>, node: V): Env<V> {
    Env(e.index[node := e.counter], e.stacked + {node}, e.counter + 1, e.open + {node})
  }

  lemma PushKeepsInvariant<V(!new)>(g: Graph<V>, e: Env<V>, node: V)
    requires Invariant(g, e) && node in g && node !in e.index
    requires forall x :: x in e.open ==> Reach(g, x, node)
    ensures Invariant(g, Push(e, node))
    ensures forall v :: Done(Push(e, node), v) <==> Done(e, v)
  {
    var f := Push(e, node);
    ReachSelf(g, node);
    assert forall v :: Done(f, v) <==> Done(e, v);
    assert Numbered(g, f);
    assert Explored(g, f) by {
      forall v, w | v in f.index && v !in f.open && w in g[v] ensures w in f.index {
        assert v in e.index && v !in e.open;
      }
      forall v, w | Done(f, v) && w in g[v] ensures Done(f, w) { assert Done(e, v); assert Done(e, w); }
    }
    assert Linked(g, f) by {
      forall x, y | x in f.open && y in f.stacked && f.index[x] <= f.index[y] ensures Reach(g, x, y) {
        if y != node { assert x in e.open && y in e.stacked && e.index[x] <= e.index[y]; }
      }
      assert Anchored(g, f, node);
      forall y | y in e.stacked ensures Anchored(g, f, y) {
        assert Anchored(g, e, y);
        var x :| x in e.open && e.index[x] <= e.index[y] && Reach(g, y, x);
        assert x in f.open && f.index[x] <= f.index[y];
      }
    }
  }

  /** Every step from a stacked node outside `base` into `base` lands at number `low` or later. */
  ghost predicate StepsAtOrAbove<V(!new)>(g: Graph<V>, e: Env<V>, base: set<V>, low: nat)
    requires Numbered(g, e)
  {
    forall y, w :: y in e.stacked && y !in base && w in g[y] && w in base && w in e.index ==> low <= e.index[w]
  }

  /** `low` is the number of some node of `stacked` that `node` reaches. */
  ghost predicate LowWitness<V(!new)>(g: Graph<V>, e: Env<V>, stacked: set<V>, node: V, low: nat) {
    exists z :: z in stacked && z in e.index && e.index[z] == low && Reach(g, node, z)
  }

  /** `node` is open, and `base` is the part of the stack below it. */
  ghost predicate OpenAbove<V(!new)>(g: Graph<V>, e: Env<V>, base: set<V>, node: V)
    requires Numbered(g, e)
  {
    && node in e.open && node !in base && base <= e.stacked
    && e.open <= base + {node}
    && (forall y :: y in base ==> e.index[y] < e.index[node])
    && (forall y :: y in e.stacked && y !in base ==> e.index[node] <= e.index[y])
  }

  function CloseOpen<V>(e: Env<V>, node: V): Env<V> {
    e.(open := e.open - {node})
  }

  lemma LowReachesOpenBelow<V(!new)>(g: Graph<V>, e: Env<V>, base: set<V>, node: V, low: nat) returns (b: V)
    requires Numbered(g, e) && Linked(g, e) && OpenAbove(g, e, base, node)
    requires low < e.index[node] && LowWitness(g, e, base + {node}, node, low)
    ensures b in e.open && b != node && e.index[b] <= e.index[node] && Reach(g, node, b)
  {
    var z :| z in base + {node} && z in e.index && e.index[z] == low && Reach(g, node, z);
    assert Anchored(g, e, z);
    b :| b in e.open && e.index[b] <= e.index[z] && Reach(g, z, b);
    ReachTransitive(g, node, z, b);
  }

  /** Closing a call whose node is not the root of its component keeps the invariant: the nodes it
      leaves on the stack are anchored further down. */
  lemma CloseKeepsInvariant<V(!new)>(g: Graph<V>, e: Env<V>, base: set<V>, node: V, low: nat)
    requires Invariant(g, e) && OpenAbove(g, e, base, node)
    requires forall w :: w in g[node] ==> w in e.index
    requires low < e.index[node] && LowWitness(g, e, base + {node}, node, low)
    ensures Invariant(g, CloseOpen(e, node))
  {
    var f := CloseOpen(e, node);
    var b := LowReachesOpenBelow(g, e, base, node, low);
    assert node in e.open && Numbered(g, f);
    assert Explored(g, f) by {
      forall v, w | Done(f, v) && w in g[v] ensures Done(f, w) { assert Done(e, v); assert Done(e, w); }
    }
    assert Linked(g, f) by {
      forall x, y | x in f.open && y in f.stacked && f.index[x] <= f.index[y] ensures Reach(g, x, y) {
        assert x in e.open && y in e.stacked;
      }
      forall y | y in f.stacked ensures Anchored(g, f, y) {
        assert Anchored(g, e, y);
        CloseAnchors(g, e, node, b, y);
      }
    }
  }

  lemma CloseAnchors<V(!new)>(g: Graph<V>, e: Env<V>, node: V, b: V, y: V)
    requires Numbered(g, e) && Numbered(g, CloseOpen(e, node))
    requires y in e.stacked && Anchored(g, e, y)
    requires node in e.open && b in e.open && b != node && e.index[b] <= e.index[node] && Reach(g, node, b)
    ensures Anchored(g, CloseOpen(e, node), y)
  {
    var f := CloseOpen(e, node);
    var x :| x in e.open && e.index[x] <= e.index[y] && Reach(g, y, x);
    if x == node {
      ReachTransitive(g, y, node, b);
      assert b in f.open && f.index[b] <= f.index[y];
    } else {
      assert x in f.open && f.index[x] <= f.index[y];
    }
  }

  lemma MutualWithRoot<V(!new)>(g: Graph<V>, e: Env<V>, base: set<V>, node: V, y: V)
    requires Invariant(g, e) && OpenAbove(g, e, base, node)
    requires y in e.stacked && y !in base
    ensures y in Component(g, node)
  {
    assert Reach(g, node, y);
    assert Anchored(g, e, y);
    var x :| x in e.open && e.index[x] <= e.index[y] && Reach(g, y, x);
    if x != node {
      assert Reach(g, x, node);
      ReachTransitive(g, y, x, node);
    }
  }

  /** When nothing at or above `node` steps below it, those nodes with the finished ones are closed under edges. */
  lemma RootIsClosed<V(!new)>(g: Graph<V>, e: Env<V>, base: set<V>, node: V, v: V, w: V)
    requires Closed(g) && Invariant(g, e) && OpenAbove(g, e, base, node)
    requires forall x :: x in g[node] ==> x in e.index
    requires StepsAtOrAbove(g, e, base, e.index[node])
    requires Done(e, v) || v in e.stacked - base
    requires w in g[v]
    ensures Done(e, w) || (w in e.stacked - base && !Done(e, v))
  {
    if Done(e, v) {
      assert Done(e, w);
    } else {
      assert w in e.index;
      assert w !in base;
    }
  }

  /** ... and those nodes are exactly one strongly connected component. */
  lemma RootClosesComponent<V(!new)>(g: Graph<V>, e: Env<V>, base: set<V>, node: V)
    requires Closed(g) && Invariant(g, e) && OpenAbove(g, e, base, node)
    requires forall x :: x in g[node] ==> x in e.index
    requires StepsAtOrAbove(g, e, base, e.index[node])
    ensures e.stacked - base == Component(g, node)
  {
    var c := e.stacked - base;
    forall y | y in c ensures y in Component(g, node) { MutualWithRoot(g, e, base, node, y); }
    var done := set v | v in g.Keys && Done(e, v);
    forall v, w | v in done + c && v in g && w in g[v] ensures w in done + c {
      RootIsClosed(g, e, base, node, v, w);
    }
    forall v, w | v in done && v in g && w in g[v] ensures w in done {
      RootIsClosed(g, e, base, node, v, w);
    }
    forall u | u in Component(g, node) ensures u in c {
      ReachStaysInside(g, done + c, node, u);
      if u in done { ReachStaysInside(g, done, u, node); }
    }
  }

  function Pop<V>(e: Env<V>, base: set<V>, node: V): Env<V> {
    e.(stacked := base, open := e.open - {node})
  }

  /** Taking the finished component off the stack keeps the invariant. */
  lemma PopKeepsInvariant<V(!new)>(g: Graph<V>, e: Env<V>, base: set<V>, node: V)
    requires Closed(g) && Invariant(g, e) && OpenAbove(g, e, base, node)
    requires forall x :: x in g[node] ==> x in e.index
    requires StepsAtOrAbove(g, e, base, e.index[node])
    ensures Invariant(g, Pop(e, base, node))
    ensures forall v :: Done(Pop(e, base, node), v) <==> Done(e, v) || v in e.stacked - base
  {
    var f := Pop(e, base, node);
    forall v ensures Done(f, v) <==> Done(e, v) || v in e.stacked - base { }
    forall v, w | Done(f, v) && w in g[v] ensures Done(f, w) {
      RootIsClosed(g, e, base, node, v, w);
    }
    assert Explored(g, f);
    forall x, y | x in f.open && y in f.stacked && f.index[x] <= f.index[y] ensures Reach(g, x, y) {
      assert x in e.open && y in e.stacked;
    }
    forall y | y in f.stacked ensures Anchored(g, f, y) {
      assert Anchored(g, e, y);
      var x :| x in e.open && e.index[x] <= e.index[y] && Reach(g, y, x);
      assert x in f.open && f.index[x] <= f.index[y];
    }
  }

  /** Since `p`, nodes were only added: numbered from `p.counter` on, above everything on `p`'s stack. */
  ghost predicate Grown<V(!new)>(p: Env<V>, e: Env<V>) {
    && p.counter <= e.counter
    && (forall v :: v in p.index ==> v in e.index && e.index[v] == p.index[v] && (v in e.stacked <==> v in p.stacked))
    && (forall v :: v in e.index && v !in p.index ==> p.counter <= e.index[v])
  }

  /** What the call on `node`, entered from `e0`, knows while it walks its neighbours,
      of which `walked` are behind it. */
  ghost predicate Walking<V(!new)>(g: Graph<V>, e0: Env<V>, e: Env<V>, node: V, low: nat, walked: set<V>) {
    && Invariant(g, e) && OpenAbove(g, e, e0.stacked, node) && Grown(e0, e)
    && node in g && node !in e0.index && e.open == e0.open + {node} && e0.open <= e0.stacked <= e0.index.Keys
    && low <= e.index[node] == e0.counter < e.counter
    && LowWitness(g, e, e0.stacked + {node}, node, low)
    && (forall y, w ::
         y in e.stacked && y !in e0.stacked && y != node && w in g[y] && w in e0.stacked ==> low <= e.index[w])
    && (forall w :: w in walked ==> w in e.index && (w in e0.stacked ==> low <= e.index[w]))
  }

  ghost predicate ReachedFrom<V(!new)>(g: Graph<V>, open: set<V>, node: V) {
    forall x :: x in open ==> Reach(g, x, node)
  }

  lemma StartWalking<V(!new)>(g: Graph<V>, e: Env<V>, node: V)
    requires Invariant(g, e) && node in g && node !in e.index
    requires ReachedFrom(g, e.open, node)
    ensures Walking(g, e, Push(e, node), node, e.counter, {})
    ensures forall v :: Done(Push(e, node), v) <==> Done(e, v)
  {
    PushKeepsInvariant(g, e, node);
    ReachSelf(g, node);
    assert LowWitness(g, Push(e, node), e.stacked + {node}, node, e.counter);
  }

  /** The neighbour was already numbered. */
  lemma WalkNumbered<V(!new)>(g: Graph<V>, e0: Env<V>, e: Env<V>, node: V, low: nat, walked: set<V>, w: V)
    requires Closed(g) && Walking(g, e0, e, node, low, walked)
    requires w in g[node] && w in e.index
    ensures w in e.stacked ==>
      Walking(g, e0, e, node, if e.index[w] < low then e.index[w] else low, walked + {w})
    ensures w !in e.stacked ==> Walking(g, e0, e, node, low, walked + {w})
  {
    if w in e.stacked && e.index[w] < low {
      assert w in e0.stacked;
      ReachEdge(g, node, w);
      assert LowWitness(g, e, e0.stacked + {node}, node, e.index[w]);
    }
  }

  /** What a finished call on `w`, entered from `p`, hands back in `e`. */
  ghost predicate Returned<V(!new)>(g: Graph<V>, p: Env<V>, e: Env<V>, w: V, low: nat) {
    && Invariant(g, e) && e.open == p.open && Grown(p, e)
    && w in e.index && w !in p.index && e.index[w] == p.counter < e.counter && low <= p.counter
    && StepsAtOrAbove(g, e, p.stacked, low)
    && (low < p.counter ==> LowWitness(g, e, p.stacked, w, low))
  }

  lemma OpenReachNeighbour<V(!new)>(g: Graph<V>, e0: Env<V>, e: Env<V>, node: V, low: nat, walked: set<V>, w: V)
    requires Closed(g) && Walking(g, e0, e, node, low, walked) && w in g[node]
    ensures ReachedFrom(g, e.open, w)
  {
    ReachEdge(g, node, w);
    forall x | x in e.open ensures Reach(g, x, w) {
      assert Reach(g, x, node);
      ReachTransitive(g, x, node, w);
    }
  }

  /** The neighbour was new and its call, entered from `p`, has returned. */
  lemma WalkReturned<V(!new)>(g: Graph<V>, e0: Env<V>, p: Env<V>, e: Env<V>, node: V, low: nat, walked: set<V>, w: V,
                              lowW: nat)
    requires Closed(g) && Walking(g, e0, p, node, low, walked)
    requires w in g[node] && Returned(g, p, e, w, lowW)
    ensures Walking(g, e0, e, node, if lowW < low then lowW else low, walked + {w})
  {
    hide Reach, LowWitness, Explored, Linked, Closed;
    var low' := if lowW < low then lowW else low;
    var base := e0.stacked;
    assert OpenAbove(g, e, base, node);
    ReturnedWitness(g, e0, p, e, node, low, walked, w, lowW);
    forall y, x | y in e.stacked && y !in base && y != node && x in g[y] && x in base ensures low' <= e.index[x] {
      if y !in p.stacked { assert x in p.stacked; }
    }
  }

  /** The lower of the two low numbers still has its witness. */
  lemma ReturnedWitness<V(!new)>(g: Graph<V>, e0: Env<V>, p: Env<V>, e: Env<V>, node: V, low: nat, walked: set<V>, w: V,
                                 lowW: nat)
    requires Closed(g) && Walking(g, e0, p, node, low, walked)
    requires w in g[node] && Returned(g, p, e, w, lowW)
    ensures LowWitness(g, e, e0.stacked + {node}, node, if lowW < low then lowW else low)
  {
    hide Reach, Explored, Linked;
    var base := e0.stacked;
    if lowW < low {
      var z :| z in p.stacked && z in e.index && e.index[z] == lowW && Reach(g, w, z);
      ReachEdge(g, node, w);
      ReachTransitive(g, node, w, z);
      assert z in base;
    } else {
      var z :| z in base + {node} && z in p.index && p.index[z] == low && Reach(g, node, z);
      assert z in e.index && e.index[z] == low;
    }
  }

  lemma LowAtMostIndex<V(!new)>(g: Graph<V>, e0: Env<V>, e: Env<V>, node: V, low: nat)
    requires node in g && node in e.index && Walking(g, e0, e, node, low, g[node])
    ensures low <= e.index[node]
  {
  }

  lemma EndOfWalk<V(!new)>(g: Graph<V>, e0: Env<V>, e: Env<V>, node: V, low: nat)
    requires node in g && Walking(g, e0, e, node, low, g[node])
    ensures StepsAtOrAbove(g, e, e0.stacked, low)
    ensures low < e.index[node] ==> LowWitness(g, e, e0.stacked, node, low)
  {
    if low < e.index[node] {
      var z :| z in e0.stacked + {node} && z in e.index && e.index[z] == low && Reach(g, node, z);
      assert z in e0.stacked;
    }
  }

  lemma ReturnedInvariant<V(!new)>(g: Graph<V>, p: Env<V>, e: Env<V>, w: V, low: nat)
    requires Returned(g, p, e, w, low)
    ensures Invariant(g, e)
  {
  }

  lemma KeysGrow<V(!new)>(g: Graph<V>, p: Env<V>, e: Env<V>, w: V, low: nat)
    requires Returned(g, p, e, w, low)
    ensures p.index.Keys + {w} <= e.index.Keys
  {
  }

  /** The node is not a root: it stays on the stack. */
  lemma ReturnOpen<V(!new)>(g: Graph<V>, e0: Env<V>, e: Env<V>, node: V, low: nat)
    requires node in g && Walking(g, e0, e, node, low, g[node]) && low < e.index[node]
    ensures Returned(g, e0, CloseOpen(e, node), node, low)
    ensures forall v :: Done(CloseOpen(e, node), v) <==> Done(e, v)
  {
    EndOfWalk(g, e0, e, node, low);
    CloseKeepsInvariant(g, e, e0.stacked, node, low);
  }

  /** The node is a root: everything from it upwards is one component and leaves the stack. */
  lemma ReturnRoot<V(!new)>(g: Graph<V>, e0: Env<V>, e: Env<V>, node: V)
    requires Closed(g) && node in g && node in e.index && Walking(g, e0, e, node, e.index[node], g[node])
    ensures Returned(g, e0, Pop(e, e0.stacked, node), node, e.index[node])
    ensures e.stacked - e0.stacked == Component(g, node)
    ensures node in e.stacked - e0.stacked
    ensures forall v :: Done(Pop(e, e0.stacked, node), v) <==> Done(e, v) || v in e.stacked - e0.stacked
  {
    EndOfWalk(g, e0, e, node, e.index[node]);
    PopKeepsInvariant(g, e, e0.stacked, node);
    RootClosesComponent(g, e, e0.stacked, node);
  }

  // ---- the report ----

  /** `c` is a strongly connected component with two or more members. */
  ghost predicate IsComponent<V(!new)>(g: Graph<V>, c: set<V>) {
    |c| > 1 && exists v :: v in g && c == Component(g, v)
  }

  ghost predicate IsFinished<V(!new)>(g: Graph<V>, e: Env<V>, c: set<V>) {
    |c| > 1 && exists v :: Done(e, v) && c == Component(g, v)
  }

  /** `cycles` lists each set of `seen` exactly once, in ascending order, and nothing else. */
  ghost predicate ListsAll<V(!new)>(leq: (V, V) -> bool, seen: set<set<V>>, cycles: seq<seq<V>>) {
    && Distinct(cycles)
    && (forall i :: 0 <= i < |cycles| ==> Elements(cycles[i]) in seen && Lists(leq, Elements(cycles[i]), cycles[i]))
    && (forall c {:trigger c in seen} :: c in seen ==> exists i :: 0 <= i < |cycles| && Elements(cycles[i]) == c)
  }

  /** `seen` holds exactly the finished components with two or more members, and `cycles` lists them. */
  ghost predicate Reported<V(!new)>(leq: (V, V) -> bool, g: Graph<V>, e: Env<V>, seen: set<set<V>>,
                                    cycles: seq<seq<V>>) {
    && (forall c :: c in seen <==> IsFinished(g, e, c))
    && ListsAll(leq, seen, cycles)
  }

  lemma FinishedAfterPop<V(!new)>(g: Graph<V>, e: Env<V>, f: Env<V>, node: V, comp: set<V>, c: set<V>)
    requires comp == Component(g, node) && node in comp
    requires forall v :: Done(f, v) <==> Done(e, v) || v in comp
    ensures IsFinished(g, f, c) <==> IsFinished(g, e, c) || (|c| > 1 && c == comp)
  {
    if IsFinished(g, f, c) {
      var v :| Done(f, v) && c == Component(g, v);
      if v in comp { ComponentOfMember(g, node, v); }
    }
    if IsFinished(g, e, c) {
      var v :| Done(e, v) && c == Component(g, v);
      assert Done(f, v);
    }
    if |c| > 1 && c == comp { assert Done(f, node); }
  }

  lemma NotFinishedBefore<V(!new)>(g: Graph<V>, e: Env<V>, node: V, comp: set<V>)
    requires comp == Component(g, node) && node in comp
    requires forall v :: v in comp ==> !Done(e, v)
    ensures !IsFinished(g, e, comp)
  {
    forall v | Done(e, v) ensures comp != Component(g, v) {
      if node in Component(g, v) { ComponentHoldsOrigin(g, v, node); }
    }
  }

  lemma ReportSame<V(!new)>(leq: (V, V) -> bool, g: Graph<V>, e: Env<V>, f: Env<V>, seen: set<set<V>>,
                            cycles: seq<seq<V>>)
    requires Reported(leq, g, e, seen, cycles)
    requires forall v :: Done(f, v) <==> Done(e, v)
    ensures Reported(leq, g, f, seen, cycles)
  {
    forall c ensures IsFinished(g, f, c) <==> IsFinished(g, e, c) {
      if IsFinished(g, f, c) { var v :| Done(f, v) && c == Component(g, v); assert Done(e, v); }
      if IsFinished(g, e, c) { var v :| Done(e, v) && c == Component(g, v); assert Done(f, v); }
    }
  }

  lemma AppendListed<V(!new)>(leq: (V, V) -> bool, seen: set<set<V>>, cycles: seq<seq<V>>, comp: set<V>, listed: seq<V>)
    requires ListsAll(leq, seen, cycles)
    requires comp !in seen && Lists(leq, comp, listed)
    ensures ListsAll(leq, seen + {comp}, cycles + [listed])
  {
    assert Elements(listed) == comp;
    var seen', cycles' := seen + {comp}, cycles + [listed];
    forall i | 0 <= i < |cycles'|
      ensures Elements(cycles'[i]) in seen' && Lists(leq, Elements(cycles'[i]), cycles'[i])
    {
      if i < |cycles| { assert cycles'[i] == cycles[i]; }
    }
    forall i | 0 <= i < |cycles| ensures cycles[i] != listed {
      assert Elements(cycles[i]) in seen;
    }
    forall c | c in seen' ensures exists i :: 0 <= i < |cycles'| && Elements(cycles'[i]) == c {
      if c in seen {
        var i :| 0 <= i < |cycles| && Elements(cycles[i]) == c;
        assert cycles'[i] == cycles[i];
      } else {
        assert cycles'[|cycles|] == listed;
      }
    }
  }

  /** Recording the popped component keeps the report exact. */
  lemma ReportPopped<V(!new)>(leq: (V, V) -> bool, g: Graph<V>, e: Env<V>, f: Env<V>, node: V, comp: set<V>,
                              seen: set<set<V>>, cycles: seq<seq<V>>, listed: seq<V>)
    requires Reported(leq, g, e, seen, cycles)
    requires comp == Component(g, node) && node in comp
    requires forall v :: v in comp ==> !Done(e, v)
    requires forall v :: Done(f, v) <==> Done(e, v) || v in comp
    requires Lists(leq, comp, listed)
    ensures |comp| > 1 ==> comp !in seen && Reported(leq, g, f, seen + {comp}, cycles + [listed])
    ensures |comp| <= 1 ==> Reported(leq, g, f, seen, cycles)
  {
    NotFinishedBefore(g, e, node, comp);
    forall c ensures IsFinished(g, f, c) <==> IsFinished(g, e, c) || (|c| > 1 && c == comp) {
      FinishedAfterPop(g, e, f, node, comp, c);
    }
    if |comp| > 1 { AppendListed(leq, seen, cycles, comp, listed); }
  }

  // ---- the search ----

  ghost predicate Extends<V>(s: seq<V>, t: seq<V>) { s <= t }

  /** The stack holds the stacked nodes in the order of their numbers. */
  ghost predicate OrderedStack<V(!new)>(stack: seq<V>, stacked: set<V>, index: map<V, nat>) {
    && (forall v :: v in stack <==> v in stacked)
    && (forall v :: v in stack ==> v in index)
    && (forall i, j :: 0 <= i < j < |stack| ==> index[stack[i]] < index[stack[j]])
  }

  lemma OrderedElements<V(!new)>(stack: seq<V>, stacked: set<V>, index: map<V, nat>)
    requires OrderedStack(stack, stacked, index)
    ensures Elements(stack) == stacked && Distinct(stack)
    ensures stack != [] ==> stack[|stack| - 1] in stacked
  {
    if stack != [] { assert stack[|stack| - 1] in stack; }
  }

  lemma MemberPopped<V(!new)>(component: seq<V>, before: set<V>, stacked: set<V>, member: V)
    requires Distinct(component) && Elements(component) == before - stacked && member in stacked && stacked <= before
    ensures Distinct(component + [member]) && Elements(component + [member]) == before - (stacked - {member})
  {
    assert member !in Elements(component);
    assert Elements(component + [member]) == Elements(component) + {member};
  }

  lemma PushOrdered<V(!new)>(stack: seq<V>, stacked: set<V>, index: map<V, nat>, node: V, number: nat)
    requires OrderedStack(stack, stacked, index) && node !in index
    requires forall v :: v in stacked && v in index ==> index[v] < number
    ensures OrderedStack(stack + [node], stacked + {node}, index[node := number])
  {
    assert forall i :: 0 <= i < |stack| ==> stack[i] in stack;
  }

  lemma PopOrdered<V(!new)>(stack: seq<V>, stacked: set<V>, index: map<V, nat>)
    requires OrderedStack(stack, stacked, index) && stack != []
    ensures OrderedStack(stack[..|stack| - 1], stacked - {stack[|stack| - 1]}, index)
  {
    var top := stack[|stack| - 1];
    forall v ensures v in stack[..|stack| - 1] <==> v in stacked && v != top {
      if v in stacked && v != top {
        var i :| 0 <= i < |stack| && stack[i] == v;
        assert stack[..|stack| - 1][i] == v;
      }
      if v in stack[..|stack| - 1] {
        var i :| 0 <= i < |stack| - 1 && stack[i] == v;
      }
    }
  }


  /** Holds the variables that the nested `strongconnect` shares with `find_cycles`. */
  class ComponentSearch<V(!new, ==)> {
    const graph: Graph<V>
    const leq: (V, V) -> bool
    var index: map<V, nat>
    var low: map<V, nat>
    var stack: seq<V>
    var onStack: set<V>
    var counter: nat
    var seen: set<set<V>>
    var cycles: seq<seq<V>>
    ghost var open: set<V>

    ghost function State(): Env<V>
      reads `index, `onStack, `counter, `open
    {
      Env(index, onStack, counter, open)
    }

    /** The stack lists the stacked nodes in the order they were numbered. */
    ghost predicate StackInOrder()
      reads `stack, `onStack, `index
    {
      OrderedStack(stack, onStack, index)
    }

    ghost predicate Valid()
      reads `stack, `onStack, `index, `counter, `open, `seen, `cycles
    {
      && Closed(graph) && TotalOrder(leq)
      && StackInOrder()
      && Invariant(graph, State())
      && Reported(leq, graph, State(), seen, cycles)
    }

    constructor (graph: Graph<V>, leq: (V, V) -> bool)
      requires Closed(graph) && TotalOrder(leq)
      ensures Valid() && index == map[] && this.graph == graph && this.leq == leq
      ensures open == {} && onStack == {}
    {
      this.graph, this.leq := graph, leq;
      index, low, stack, onStack, counter := map[], map[], [], {}, 0;
      seen, cycles, open := {}, [], {};
    }

    /** Pops the stack down to and including `node`. */
    method PopComponent(node: V, ghost base: seq<V>) returns (component: seq<V>)
      requires StackInOrder() && base + [node] <= stack
      modifies this`stack, this`onStack
      ensures stack == base && StackInOrder()
      ensures Distinct(component)
      ensures Elements(component) == old(onStack) - onStack
      ensures onStack == Elements(base)
    {
      hide OrderedStack;
      component := [];
      OrderedElements(stack, onStack, index);
      assert stack[|base|] == node;
      while true
        invariant |base| < |stack| <= |old(stack)| && stack == old(stack)[..|stack|]
        invariant StackInOrder()
        invariant onStack <= old(onStack)
        invariant Distinct(component) && Elements(component) == old(onStack) - onStack
        decreases |stack|
      {
        var member := stack[|stack| - 1];
        OrderedElements(stack, onStack, index);
        MemberPopped(component, old(onStack), onStack, member);
        PopOrdered(stack, onStack, index);
        stack := stack[..|stack| - 1];
        onStack := onStack - {member};
        component := component + [member];
        if member == node {
          assert old(stack)[|stack|] == old(stack)[|base|];
          break;
        }
      }
      OrderedElements(stack, onStack, index);
    }

    /** Numbers `node` and opens its call. */
    method Enter(node: V)
      requires Valid() && node in graph && node !in index
      requires ReachedFrom(graph, open, node)
      modifies this
      ensures Valid() && State() == Push(old(State()), node)
      ensures node in low && Walking(graph, old(State()), State(), node, low[node], {})
      ensures stack == old(stack) + [node]
      ensures low == old(low)[node := old(counter)]
    {
      ghost var e0 := State();
      PushOrdered(stack, onStack, index, node, counter);
      hide OrderedStack, Invariant, Reported, Walking, Returned, Reach, Closed, TotalOrder;
      StartWalking(graph, e0, node);
      ReportSame(leq, graph, e0, Push(e0, node), seen, cycles);
      index, low := index[node := counter], low[node := counter];
      counter := counter + 1;
      stack := stack + [node];
      onStack := onStack + {node};
      open := open + {node};
      assert State() == Push(e0, node);
    }

    lemma WalkFacts(e0: Env<V>, node: V, bound: nat, walked: set<V>, neighbour: V)
      requires Valid() && node in graph && neighbour in graph[node]
      requires Walking(graph, e0, State(), node, bound, walked)
      ensures Closed(graph) && neighbour in graph && node in index
    {
    }

    lemma StateFields()
      ensures State() == Env(index, onStack, counter, open)
    {
    }

    /** `low[node] = min(low[node], bound)`. */
    method Lower(node: V, bound: nat)
      requires node in low
      modifies `low
      ensures low == old(low)[node := if bound < old(low)[node] then bound else old(low)[node]]
    {
      low := low[node := if bound < low[node] then bound else low[node]];
    }

    /** Searches a new neighbour of the open `node` and takes over its low number. */
    method VisitNew(node: V, neighbour: V, ghost e0: Env<V>, ghost walked: set<V>)
      requires Valid() && node in graph && neighbour in graph[node] && neighbour !in index
      requires node in low && Walking(graph, e0, State(), node, low[node], walked)
      modifies this
      ensures Valid() && Extends(old(stack), stack)
      ensures node in low && Walking(graph, e0, State(), node, low[node], walked + {neighbour})
      ensures old(index).Keys <= index.Keys
      ensures forall v :: v in old(low) && v in old(index) && v != node ==> v in low && low[v] == old(low)[v]
      decreases graph.Keys - index.Keys, 1
    {
      hide *;
      ghost var p := State();
      StateFields();
      WalkFacts(e0, node, low[node], walked, neighbour);
      OpenReachNeighbour(graph, e0, p, node, low[node], walked, neighbour);
      StrongConnect(neighbour);
      WalkReturned(graph, e0, p, State(), node, low[node], walked, neighbour, low[neighbour]);
      KeysGrow(graph, p, State(), neighbour, low[neighbour]);
      StateFields();
      Lower(node, low[neighbour]);
    }

    /** Takes the number of a neighbour that is still on the stack into account. */
    method VisitNumbered(node: V, neighbour: V, ghost e0: Env<V>, ghost walked: set<V>)
      requires Valid() && node in graph && neighbour in graph[node] && neighbour in index
      requires node in low && Walking(graph, e0, State(), node, low[node], walked)
      modifies `low
      ensures Valid()
      ensures node in low && Walking(graph, e0, State(), node, low[node], walked + {neighbour})
      ensures forall v :: v in old(low) && v in old(index) && v != node ==> v in low && low[v] == old(low)[v]
    {
      hide *;
      StateFields();
      WalkFacts(e0, node, low[node], walked, neighbour);
      WalkNumbered(graph, e0, State(), node, low[node], walked, neighbour);
      if neighbour in onStack { Lower(node, index[neighbour]); }
    }

    /** Reports a popped component if it has two or more members. */
    method Report(node: V, component: seq<V>, ghost e: Env<V>)
      requires Closed(graph) && TotalOrder(leq) && Reported(leq, graph, e, seen, cycles)
      requires Distinct(component) && node in component && Elements(component) == Component(graph, node)
      requires forall v :: v in component ==> !Done(e, v)
      requires forall v :: Done(State(), v) <==> Done(e, v) || v in component
      modifies `seen, `cycles
      ensures Reported(leq, graph, State(), seen, cycles)
    {
      SortLists(leq, component, Elements(component));
      ElementsCount(component);
      ReportPopped(leq, graph, e, State(), node, Elements(component), seen, cycles, Sort(leq, component));
      hide Reported;
      if |component| > 1 {
        var key := Elements(component);
        if key !in seen {
          seen := seen + {key};
          cycles := cycles + [Sort(leq, component)];
        }
      }
    }

    /** Pops the component whose root is `node` and, if it has two or more members, reports it. */
    method CloseComponent(node: V, ghost e0: Env<V>, ghost base: seq<V>)
      requires Valid() && node in graph && node in index
      requires Walking(graph, e0, State(), node, index[node], graph[node])
      requires base + [node] <= stack && Elements(base) == e0.stacked
      modifies `stack, `onStack, `seen, `cycles, `open
      ensures Valid() && stack == base
      ensures Returned(graph, e0, State(), node, index[node])
    {
      hide Invariant, Reported, Walking, Returned, Reach, Closed, TotalOrder, Component;
      ghost var e := State();
      ReturnRoot(graph, e0, e, node);
      var component := PopComponent(node, base);
      open := open - {node};
      assert State() == Pop(e, e0.stacked, node);
      assert forall v :: v in component <==> v in Elements(component);
      ReturnedInvariant(graph, e0, State(), node, index[node]);
      Report(node, component, e);
    }

    /** Ends the call on a `node` that is not the root of its component. */
    ghost method CloseCall(node: V, e0: Env<V>)
      requires Valid() && node in graph
      requires node in low && node in index && low[node] < index[node]
      requires Walking(graph, e0, State(), node, low[node], graph[node])
      modifies `open
      ensures Valid()
      ensures Returned(graph, e0, State(), node, low[node])
    {
      hide Invariant, Reported, Walking, Returned, Reach, Closed, TotalOrder;
      ghost var e := State();
      ReturnOpen(graph, e0, e, node, low[node]);
      ReportSame(leq, graph, e, CloseOpen(e, node), seen, cycles);
      open := open - {node};
      assert State() == CloseOpen(e, node);
    }

    /** The recursive search from `node`. */
    method StrongConnect(node: V)
      requires Valid() && node in graph && node !in index
      requires ReachedFrom(graph, open, node)
      modifies this
      ensures Valid() && node in low
      ensures Returned(graph, old(State()), State(), node, low[node])
      ensures Extends(old(stack), stack)
      ensures forall v :: v in old(low) && v in old(index) ==> v in low && low[v] == old(low)[v]
      decreases graph.Keys - index.Keys, 0
    {
      ghost var e0, base := State(), stack;
      hide Invariant, Reported, Walking, Returned, Reach, Closed, TotalOrder;
      Enter(node);

      var neighbours := SortedElements(leq, graph[node]);
      assert Elements(neighbours[..0]) == {};
      for k := 0 to |neighbours|
        invariant Valid() && Extends(base + [node], stack)
        invariant node in low && Walking(graph, e0, State(), node, low[node], Elements(neighbours[..k]))
        invariant node in index && old(index).Keys <= index.Keys
        invariant forall v :: v in old(low) && v in old(index) ==> v in low && low[v] == old(low)[v]
      {
        assert Elements(neighbours[..k + 1]) == Elements(neighbours[..k]) + {neighbours[k]};
        if neighbours[k] !in index {
          VisitNew(node, neighbours[k], e0, Elements(neighbours[..k]));
        } else {
          VisitNumbered(node, neighbours[k], e0, Elements(neighbours[..k]));
        }
      }
      assert neighbours[..|neighbours|] == neighbours;
      assert Elements(neighbours) == graph[node];
      LowAtMostIndex(graph, e0, State(), node, low[node]);
      if low[node] == index[node] {
        CloseComponent(node, e0, base);
      } else {
        CloseCall(node, e0);
      }
    }

    /** With no call open nothing is left on the stack, so the numbered nodes are all finished. */
    lemma NothingOpen()
      requires Valid() && open == {}
      ensures onStack == {} && forall v :: Done(State(), v) <==> v in index
    {
      assert forall v :: v in State().stacked ==> Anchored(graph, State(), v);
    }

    /** The loop over all nodes: afterwards every component has been finished. */
    method SearchAll()
      requires Valid() && open == {}
      modifies this
      ensures Valid() && open == {} && index.Keys == graph.Keys
    {
      var nodes := SortedElements(leq, graph.Keys);
      for k := 0 to |nodes|
        invariant Valid() && open == {}
        invariant Elements(nodes[..k]) <= index.Keys
      {
        assert Elements(nodes[..k + 1]) == Elements(nodes[..k]) + {nodes[k]};
        if nodes[k] !in index {
          ghost var p := State();
          assert ReachedFrom(graph, open, nodes[k]);
          StrongConnect(nodes[k]);
          ReturnedKeys(p, nodes[k], low[nodes[k]]);
        }
      }
      assert nodes[..|nodes|] == nodes;
      assert Elements(nodes) == graph.Keys;
    }

    lemma ReturnedKeys(p: Env<V>, node: V, bound: nat)
      requires Returned(graph, p, State(), node, bound)
      ensures p.index.Keys + {node} <= index.Keys && open == p.open
    {
    }

    /** The finished components with two or more members are exactly the graph's. */
    lemma AllReported()
      requires Valid() && open == {} && index.Keys == graph.Keys
      ensures forall c :: c in seen <==> IsComponent(graph, c)
      ensures ListsAll(leq, seen, cycles)
    {
      NothingOpen();
      forall c ensures c in seen <==> IsComponent(graph, c) {
        if IsFinished(graph, State(), c) {
          var v :| Done(State(), v) && c == Component(graph, v);
          assert v in graph;
        }
        if IsComponent(graph, c) {
          var v :| v in graph && c == Component(graph, v);
          assert Done(State(), v);
        }
      }
    }
  }
}
