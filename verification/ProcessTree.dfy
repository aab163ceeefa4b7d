/** The descendants of a process, found by sweeping a process table until nothing changes. */
module ProcessTree {

  /** The pids of a table of `pid -> parent pid` rows that hang below `root`, `root` included: the parent chain
      of `pid` reaches `root` through rows of the table. */
  ghost predicate IsChain(parents: map<int, int>, chain: seq<int>) {
    && chain != []
    && forall i :: 0 <= i < |chain| - 1 ==> chain[i] in parents && parents[chain[i]] == chain[i + 1]
  }

  ghost predicate Descends(parents: map<int, int>, root: int, pid: int) {
    exists chain :: IsChain(parents, chain) && chain[0] == pid && chain[|chain| - 1] == root
  }

  /** Holds the root and every child of its members. */
  ghost predicate ClosedDown(parents: map<int, int>, root: int, s: set<int>) {
    root in s && forall pid :: pid in parents && parents[pid] in s ==> pid in s
  }

  lemma {:induction false} ChainInside(parents: map<int, int>, root: int, s: set<int>, chain: seq<int>)
    requires ClosedDown(parents, root, s) && IsChain(parents, chain) && chain[|chain| - 1] == root
    ensures chain[0] in s
  {
    if |chain| > 1 {
      var rest := chain[1..];
      forall i | 0 <= i < |rest| - 1 ensures rest[i] in parents && parents[rest[i]] == rest[i + 1] {
        assert chain[i + 1] in parents && parents[chain[i + 1]] == chain[i + 1 + 1];
      }
      ChainInside(parents, root, s, rest);
      var pid := chain[0];
      assert pid in parents && parents[pid] == chain[0 + 1] == rest[0];
      assert parents[pid] in s;
    }
  }

  /** A descendant is in every closed set. */
  lemma DescendantInside(parents: map<int, int>, root: int, s: set<int>, pid: int)
    requires ClosedDown(parents, root, s) && Descends(parents, root, pid)
    ensures pid in s
  {
    var chain :| IsChain(parents, chain) && chain[0] == pid && chain[|chain| - 1] == root;
    ChainInside(parents, root, s, chain);
  }

  lemma ChildDescends(parents: map<int, int>, root: int, pid: int)
    requires pid in parents && Descends(parents, root, parents[pid])
    ensures Descends(parents, root, pid)
  {
    var chain :| IsChain(parents, chain) && chain[0] == parents[pid] && chain[|chain| - 1] == root;
    var longer := [pid] + chain;
    assert IsChain(parents, longer) && longer[0] == pid && longer[|longer| - 1] == root;
  }

  lemma RootDescends(parents: map<int, int>, root: int)
    ensures Descends(parents, root, root)
  {
    assert IsChain(parents, [root]) && [root][0] == root;
  }

  /** Sweeps the rows, in the given order, until a sweep adds nothing. Whatever the order, the result is exactly
      the set of descendants: the least set that holds the root and is closed under children. */
  method Descendants(parents: map<int, int>, order: seq<int>, root: int) returns (descendants: set<int>)
    requires forall pid :: pid in order <==> pid in parents
    ensures forall pid :: pid in descendants <==> Descends(parents, root, pid)
    ensures ClosedDown(parents, root, descendants)
    ensures forall s :: ClosedDown(parents, root, s) ==> descendants <= s
  {
    descendants := {root};
    RootDescends(parents, root);
    var changed := true;
    while changed
      invariant root in descendants && descendants <= parents.Keys + {root}
      invariant forall pid :: pid in descendants ==> Descends(parents, root, pid)
      invariant !changed ==> ClosedDown(parents, root, descendants)
      decreases parents.Keys + {root} - descendants, changed
    {
      changed := false;
      ghost var before := descendants;
      for i := 0 to |order|
        invariant before <= descendants <= parents.Keys + {root}
        invariant forall pid :: pid in descendants ==> Descends(parents, root, pid)
        invariant changed <==> descendants != before
        invariant !changed ==> forall j ::
          0 <= j < i && order[j] in parents && parents[order[j]] in descendants ==> order[j] in descendants
      {
        var pid := order[i];
        assert pid in order;
        if parents[pid] in descendants && pid !in descendants {
          ChildDescends(parents, root, pid);
          descendants := descendants + {pid};
          changed := true;
        }
      }
      if changed { assert parents.Keys + {root} - descendants < parents.Keys + {root} - before; }
    }
    forall pid | Descends(parents, root, pid) ensures pid in descendants {
      DescendantInside(parents, root, descendants, pid);
    }
    forall s | ClosedDown(parents, root, s) ensures descendants <= s {
      forall pid | pid in descendants ensures pid in s { DescendantInside(parents, root, s, pid); }
    }
  }
}
