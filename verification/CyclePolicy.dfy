/** The cycle gate: components at two depths, minus the recorded exceptions, and how the
    components of a deeper prefix graph project onto a shallower one. */
module CyclePolicy {
  import opened Ordering
  import opened Text
  import opened Graphs
  import opened PackageCycles

  const CYCLE_DEPTHS: seq<int> := [2, 3]

  function CycleKey(members: seq<string>): seq<string> {
    Sort(StrLeq, members)
  }

  /** A recorded exception covers a component when its members, sorted, are the component's listing. */
  ghost predicate Approved(exceptions: seq<seq<string>>, cycle: seq<string>) {
    exists members :: members in exceptions && CycleKey(members) == cycle
  }

  /** `cycle` is reported at one of the judged depths. */
  ghost predicate CycleAtSome(edges: seq<ImportEdge>, depths: seq<int>, cycle: seq<string>) {
    exists depth :: depth in depths && CycleAt(edges, depth, cycle)
  }

  ghost predicate CycleAt(edges: seq<ImportEdge>, depth: int, cycle: seq<string>) {
    exists report :: CyclesAt(edges, depth, report) && cycle in report
  }

  lemma CycleAtIsReported(edges: seq<ImportEdge>, depth: int, report: seq<seq<string>>)
    requires CyclesAt(edges, depth, report)
    ensures forall c :: CycleAt(edges, depth, c) <==> c in report
  {
    forall c | CycleAt(edges, depth, c) ensures c in report {
      var other :| CyclesAt(edges, depth, other) && c in other;
      CyclesAtUnique(edges, depth, report, other);
    }
  }

  /** A reported cycle is already its own key. */
  lemma KeyOfReported(edges: seq<ImportEdge>, depth: int, report: seq<seq<string>>, cycle: seq<string>)
    requires CyclesAt(edges, depth, report) && cycle in report
    ensures CycleKey(cycle) == cycle
  {
    StrLeqTotal();
    SortLists(StrLeq, cycle, Elements(cycle));
    ListsUnique(StrLeq, Elements(cycle), cycle, Sort(StrLeq, cycle));
  }

  method UnapprovedCycles(edges: seq<ImportEdge>, depths: seq<int>, exceptions: seq<seq<string>>)
      returns (report: seq<seq<string>>)
    ensures Sorted(ListLeq, report) && Distinct(report)
    ensures forall c :: c in report <==> CycleAtSome(edges, depths, c) && !Approved(exceptions, c)
  {
    var approved := set members | members in exceptions :: CycleKey(members);
    var found: seq<seq<string>> := [];
    var seen: set<seq<string>> := {};
    for k := 0 to |depths|
      invariant Distinct(found) && Elements(found) == seen
      invariant forall c :: c in found <==> CycleAtSome(edges, depths[..k], c) && c !in approved
    {
      var cycles := FindCycles(edges, depths[k]);
      found, seen := AddLevel(edges, depths[k], cycles, approved, found, seen);
      CycleAtIsReported(edges, depths[k], cycles);
      forall c ensures CycleAtSome(edges, depths[..k + 1], c) <==> CycleAtSome(edges, depths[..k], c) || c in cycles {
        assert depths[..k + 1] == depths[..k] + [depths[k]];
      }
    }
    assert depths[..|depths|] == depths;
    ListLeqTotal();
    SortLists(ListLeq, found, seen);
    report := Sort(ListLeq, found);
  }

  lemma MembersOf<T(!new)>(s: seq<T>)
    ensures forall x :: x in Elements(s) <==> x in s
  {
  }

  lemma AppendNew<T(!new)>(s: seq<T>, x: T)
    requires Distinct(s) && x !in s
    ensures Distinct(s + [x]) && Elements(s + [x]) == Elements(s) + {x}
  {
  }

  /** The inner loop over one depth's cycles. */
  method AddLevel(edges: seq<ImportEdge>, depth: int, cycles: seq<seq<string>>, approved: set<seq<string>>,
                  found0: seq<seq<string>>, seen0: set<seq<string>>)
      returns (found: seq<seq<string>>, seen: set<seq<string>>)
    requires CyclesAt(edges, depth, cycles)
    requires Distinct(found0) && Elements(found0) == seen0
    ensures Distinct(found) && Elements(found) == seen
    ensures forall c :: c in found <==> c in found0 || (c in cycles && c !in approved)
  {
    hide *;
    found, seen := found0, seen0;
    for i := 0 to |cycles|
      invariant Distinct(found) && Elements(found) == seen
      invariant forall c :: c in found <==> c in found0 || (c in cycles[..i] && c !in approved)
    {
      var cycle := cycles[i];
      var key := CycleKey(cycle);
      KeyOfReported(edges, depth, cycles, cycle);
      assert cycles[..i + 1] == cycles[..i] + [cycle];
      MembersOf(found);
      if key !in approved && key !in seen {
        seen := seen + {key};
        AppendNew(found, key);
        found := found + [key];
      }
    }
    assert cycles[..|cycles|] == cycles;
  }

  lemma GateSilent(edges: seq<ImportEdge>, exceptions: seq<seq<string>>, report: seq<seq<string>>)
    requires forall c :: c in report <==> CycleAtSome(edges, CYCLE_DEPTHS, c) && !Approved(exceptions, c)
    ensures forall c :: CycleAtSome(edges, CYCLE_DEPTHS, c) <==> CycleAt(edges, 2, c) || CycleAt(edges, 3, c)
    ensures report == [] <==> forall depth, c :: depth in {2, 3} && CycleAt(edges, depth, c) ==> Approved(exceptions, c)
  {
    hide CycleAt, Approved;
    assert forall depth :: depth in CYCLE_DEPTHS <==> depth in {2, 3};
    if report == [] {
      forall depth, c | depth in {2, 3} && CycleAt(edges, depth, c) ensures Approved(exceptions, c) {
        assert CycleAtSome(edges, CYCLE_DEPTHS, c);
        assert c !in report;
      }
    } else {
      var c := report[0];
      assert c in report;
      var depth :| depth in CYCLE_DEPTHS && CycleAt(edges, depth, c);
      assert !Approved(exceptions, c);
    }
  }

  /** The gate: it reports the components at depths 2 and 3 that are not recorded exceptions, and is silent exactly
      when all of them are. */
  method RunGate(edges: seq<ImportEdge>, exceptions: seq<seq<string>>) returns (report: seq<seq<string>>)
    ensures Sorted(ListLeq, report) && Distinct(report)
    ensures forall c :: c in report <==> (CycleAt(edges, 2, c) || CycleAt(edges, 3, c)) && !Approved(exceptions, c)
    ensures report == [] <==> forall depth, c :: depth in {2, 3} && CycleAt(edges, depth, c) ==> Approved(exceptions, c)
  {
    hide CycleAt, Approved;
    report := UnapprovedCycles(edges, CYCLE_DEPTHS, exceptions);
    GateSilent(edges, exceptions, report);
  }

  /** An exception covers a reported component exactly when it names its members, in any order. */
  lemma ApprovedInAnyOrder(edges: seq<ImportEdge>, depth: int, report: seq<seq<string>>, cycle: seq<string>,
                           exceptions: seq<seq<string>>)
    requires CyclesAt(edges, depth, report) && cycle in report
    ensures Approved(exceptions, cycle) <==> exists members ::
      members in exceptions && multiset(members) == multiset(cycle)
  {
    KeyOfReported(edges, depth, report, cycle);
    hide Sort;
    forall members | members in exceptions && multiset(members) == multiset(cycle)
      ensures CycleKey(members) == cycle
    {
      SortOfPermutation(members, cycle);
    }
  }

  lemma SortOfPermutation(a: seq<string>, b: seq<string>)
    requires multiset(a) == multiset(b)
    ensures Sort(StrLeq, a) == Sort(StrLeq, b)
  {
    StrLeqTotal();
    SortSorted(StrLeq, a);
    SortSorted(StrLeq, b);
    SortedUnique(StrLeq, Sort(StrLeq, a), Sort(StrLeq, b));
  }

  // ---- projection between depths ----

  /** Cutting a prefix further is cutting the name. */
  lemma PrefixOfPrefix(name: string, shallow: nat, deep: nat)
    requires shallow <= deep
    ensures Prefix(Prefix(name, deep), shallow) == Prefix(name, shallow)
  {
    var parts := Split(name, '.');
    var kept := Take(parts, deep);
    if deep > 0 {
      SplitJoin(kept, '.');
      assert Take(kept, shallow) == Take(parts, shallow);
    } else {
      assert kept == [] && Join(kept, '.') == "";
      assert Take(Split("", '.'), 0) == [];
    }
  }

  /** An arc between deep prefixes stays inside one shallow prefix or is an arc between the shallow ones. */
  lemma ArcProjects(edges: seq<ImportEdge>, shallow: nat, deep: nat, a: string, b: string)
    requires shallow <= deep && Arc(edges, deep, a, b)
    ensures Prefix(a, shallow) == Prefix(b, shallow) || Arc(edges, shallow, Prefix(a, shallow), Prefix(b, shallow))
  {
    var e :| e in edges && Judged(e) && Prefix(e.importer, deep) == a && Prefix(e.imported, deep) == b;
    PrefixOfPrefix(e.importer, shallow, deep);
    PrefixOfPrefix(e.imported, shallow, deep);
  }

  lemma {:induction false} PathProjects(edges: seq<ImportEdge>, shallow: nat, deep: nat, coarse: Graph<string>,
                                        fine: Graph<string>, p: seq<string>)
    requires shallow <= deep
    requires IsPrefixGraph(edges, shallow, coarse) && IsPrefixGraph(edges, deep, fine)
    requires IsPath(fine, p)
    ensures var a, b := Prefix(p[0], shallow), Prefix(p[|p| - 1], shallow);
            a == b || Reach(coarse, a, b)
    decreases |p|
  {
    hide Prefix;
    if |p| > 1 {
      var a, m, b := Prefix(p[0], shallow), Prefix(p[1], shallow), Prefix(p[|p| - 1], shallow);
      assert p[1] in fine[p[0]];
      ArcProjects(edges, shallow, deep, p[0], p[1]);
      assert IsPath(fine, p[1..]);
      PathProjects(edges, shallow, deep, coarse, fine, p[1..]);
      if a != m {
        PrefixGraphClosed(edges, shallow, coarse);
        assert ArcEnd(edges, shallow, a);
        ReachEdge(coarse, a, m);
        if m != b { ReachTransitive(coarse, a, m, b); }
      }
    }
  }

  /** A module cycle that crosses packages forces the packages it crosses into one reported component. */
  lemma CrossingCycleIsReported(edges: seq<ImportEdge>, shallow: nat, deep: nat, reportDeep: seq<seq<string>>,
                                reportShallow: seq<seq<string>>, cycle: seq<string>, a: string, b: string)
    requires shallow <= deep
    requires CyclesAt(edges, deep, reportDeep) && CyclesAt(edges, shallow, reportShallow)
    requires cycle in reportDeep && a in cycle && b in cycle
    requires Prefix(a, shallow) != Prefix(b, shallow)
    ensures exists r :: r in reportShallow && Prefix(a, shallow) in r && Prefix(b, shallow) in r
  {
    var fine :| IsPrefixGraph(edges, deep, fine) && IsCycleReport(fine, reportDeep);
    var coarse :| IsPrefixGraph(edges, shallow, coarse) && IsCycleReport(coarse, reportShallow);
    ReportedTogether(fine, reportDeep, a, b);
    var p :| IsPath(fine, p) && p[0] == a && p[|p| - 1] == b;
    var q :| IsPath(fine, q) && q[0] == b && q[|q| - 1] == a;
    PathProjects(edges, shallow, deep, coarse, fine, p);
    PathProjects(edges, shallow, deep, coarse, fine, q);
    ReportedTogether(coarse, reportShallow, Prefix(a, shallow), Prefix(b, shallow));
  }

  /** With no component at the shallow depth, every deep component lies inside one shallow package. */
  lemma NoPackageCycleConfinesModules(edges: seq<ImportEdge>, shallow: nat, deep: nat, reportDeep: seq<seq<string>>,
                                      cycle: seq<string>, a: string, b: string)
    requires shallow <= deep
    requires CyclesAt(edges, shallow, []) && CyclesAt(edges, deep, reportDeep)
    requires cycle in reportDeep && a in cycle && b in cycle
    ensures Prefix(a, shallow) == Prefix(b, shallow)
  {
    if Prefix(a, shallow) != Prefix(b, shallow) {
      CrossingCycleIsReported(edges, shallow, deep, reportDeep, [], cycle, a, b);
    }
  }
}
