/** The package-cycle detector: import edges are folded to dotted prefixes, and the
    strongly connected components of the prefix graph are found with Tarjan's algorithm. */
module PackageCycles {
  import opened Ordering
  import opened Text
  import opened Graphs
  import opened Components

  datatype Kind = Eager | Lazy | TypeOnly
  datatype Origin = Internal | AgentCore | ThirdParty | Stdlib

  datatype ImportEdge = ImportEdge(importer: string, imported: string, kind: Kind, origin: Origin, unresolved: bool)

  predicate Judged(edge: ImportEdge) {
    !edge.kind.TypeOnly? && edge.origin.Internal? && !edge.unresolved
  }

  /** Python's `parts[:depth]`: a negative depth counts from the end. */
  function Take<T>(parts: seq<T>, depth: int): seq<T> {
    if depth < 0 then
      (if |parts| + depth < 0 then [] else parts[..|parts| + depth])
    else if depth < |parts| then parts[..depth]
    else parts
  }

  function Prefix(name: string, depth: int): string {
    Join(Take(Split(name, '.'), depth), '.')
  }

  /** The arcs of the prefix graph: judged edges whose two prefixes differ. */
  ghost predicate Arc(edges: seq<ImportEdge>, depth: int, a: string, b: string) {
    a != b && exists e :: e in edges && Judged(e) && Prefix(e.importer, depth) == a && Prefix(e.imported, depth) == b
  }

  /** `g` is the prefix graph of `edges`: its nodes are the ends of arcs, its edges the arcs. */
  ghost predicate IsPrefixGraph(edges: seq<ImportEdge>, depth: int, g: Graph<string>) {
    && (forall a :: a in g <==> ArcEnd(edges, depth, a))
    && (forall a, b :: a in g ==> (b in g[a] <==> Arc(edges, depth, a, b)))
  }

  lemma PrefixGraphClosed(edges: seq<ImportEdge>, depth: int, g: Graph<string>)
    requires IsPrefixGraph(edges, depth, g)
    ensures Closed(g)
  {
    forall v, w | v in g && w in g[v] ensures w in g { assert Arc(edges, depth, v, w); }
  }

  lemma ArcOfLonger(edges: seq<ImportEdge>, i: nat, depth: int, a: string, b: string)
    requires i < |edges|
    ensures Arc(edges[..i + 1], depth, a, b) <==>
      Arc(edges[..i], depth, a, b)
      || (Judged(edges[i]) && a == Prefix(edges[i].importer, depth) && b == Prefix(edges[i].imported, depth) && a != b)
  {
    assert edges[..i + 1] == edges[..i] + [edges[i]];
  }

  lemma JudgedEdgeAdds(edges: seq<ImportEdge>, i: nat, depth: int)
    requires i < |edges| && Judged(edges[i])
    requires Prefix(edges[i].importer, depth) != Prefix(edges[i].imported, depth)
    ensures Adds(edges[..i], edges[..i + 1], depth, Prefix(edges[i].importer, depth), Prefix(edges[i].imported, depth))
  {
    hide Arc, Prefix;
    var source, target := Prefix(edges[i].importer, depth), Prefix(edges[i].imported, depth);
    var old_, new_ := edges[..i], edges[..i + 1];
    forall a, b ensures Arc(new_, depth, a, b) <==> Arc(old_, depth, a, b) || (a == source && b == target) {
      ArcOfLonger(edges, i, depth, a, b);
    }
    assert Adds(old_, new_, depth, source, target);
  }

  ghost predicate ArcEnd(edges: seq<ImportEdge>, depth: int, a: string) {
    exists b :: Arc(edges, depth, a, b) || Arc(edges, depth, b, a)
  }

  /** `new_` has the arcs of `old_` and the arc from `source` to `target`. */
  ghost predicate Adds(old_: seq<ImportEdge>, new_: seq<ImportEdge>, depth: int, source: string, target: string) {
    forall a, b {:trigger Arc(new_, depth, a, b)} ::
      Arc(new_, depth, a, b) <==> Arc(old_, depth, a, b) || (a == source && b == target)
  }

  lemma AddArc(old_: seq<ImportEdge>, new_: seq<ImportEdge>, depth: int, before: Graph<string>, source: string,
               target: string, after: Graph<string>)
    requires IsPrefixGraph(old_, depth, before) && source != target
    requires Adds(old_, new_, depth, source, target)
    requires var g := before[source := (if source in before then before[source] else {}) + {target}];
             after == g[target := if target in g then g[target] else {}]
    ensures IsPrefixGraph(new_, depth, after)
  {
    hide Arc, ArcEnd;
    forall a ensures a in after <==> ArcEnd(new_, depth, a) {
      ArcEndGrows(old_, new_, depth, source, target, a);
    }
    forall a, b | a in after ensures b in after[a] <==> Arc(new_, depth, a, b) {
      if a !in before { NoArcFrom(old_, depth, before, a, b); }
    }
  }

  lemma ArcEndGrows(old_: seq<ImportEdge>, new_: seq<ImportEdge>, depth: int, source: string, target: string, a: string)
    requires Adds(old_, new_, depth, source, target)
    ensures ArcEnd(new_, depth, a) <==> ArcEnd(old_, depth, a) || a in {source, target}
  {
    hide Arc;
    assert Arc(new_, depth, source, target);
    if ArcEnd(old_, depth, a) {
      var b :| Arc(old_, depth, a, b) || Arc(old_, depth, b, a);
      assert Arc(new_, depth, a, b) || Arc(new_, depth, b, a);
    }
  }

  lemma NoArcFrom(edges: seq<ImportEdge>, depth: int, g: Graph<string>, a: string, b: string)
    requires IsPrefixGraph(edges, depth, g) && a !in g
    ensures !Arc(edges, depth, a, b)
  {
    hide Arc;
    assert !ArcEnd(edges, depth, a);
  }

  lemma SameArcs(old_: seq<ImportEdge>, new_: seq<ImportEdge>, depth: int, g: Graph<string>)
    requires IsPrefixGraph(old_, depth, g)
    requires forall a, b :: Arc(new_, depth, a, b) <==> Arc(old_, depth, a, b)
    ensures IsPrefixGraph(new_, depth, g)
  {
    forall a ensures ArcEnd(new_, depth, a) <==> ArcEnd(old_, depth, a) {
      if ArcEnd(old_, depth, a) {
        var b :| Arc(old_, depth, a, b) || Arc(old_, depth, b, a);
        assert Arc(new_, depth, a, b) || Arc(new_, depth, b, a);
      }
      if ArcEnd(new_, depth, a) {
        var b :| Arc(new_, depth, a, b) || Arc(new_, depth, b, a);
        assert Arc(old_, depth, a, b) || Arc(old_, depth, b, a);
      }
    }
  }

  method BuildGraph(edges: seq<ImportEdge>, depth: int) returns (graph: Graph<string>)
    ensures IsPrefixGraph(edges, depth, graph)
  {
    graph := map[];
    for i := 0 to |edges|
      invariant IsPrefixGraph(edges[..i], depth, graph)
    {
      graph := AddEdge(edges, i, depth, graph);
    }
    assert edges[..|edges|] == edges;
  }

  /** The loop body: one more edge is folded into the graph. */
  method AddEdge(edges: seq<ImportEdge>, i: nat, depth: int, before: Graph<string>) returns (graph: Graph<string>)
    requires i < |edges| && IsPrefixGraph(edges[..i], depth, before)
    ensures IsPrefixGraph(edges[..i + 1], depth, graph)
  {
    hide *;
    var edge := edges[i];
    graph := before;
    if Judged(edge) {
      var source := Prefix(edge.importer, depth);
      var target := Prefix(edge.imported, depth);
      if source != target {
        JudgedEdgeAdds(edges, i, depth);
        graph := graph[source := (if source in graph then graph[source] else {}) + {target}];
        graph := graph[target := if target in graph then graph[target] else {}];
        AddArc(edges[..i], edges[..i + 1], depth, before, source, target, graph);
        return;
      }
    }
    forall a, b ensures Arc(edges[..i + 1], depth, a, b) <==> Arc(edges[..i], depth, a, b) {
      ArcOfLonger(edges, i, depth, a, b);
    }
    SameArcs(edges[..i], edges[..i + 1], depth, before);
  }

  // ---- find_cycles ----

  /** The report for a graph: every component with two or more members, each listed once in ascending
      order, the lists themselves ascending. */
  ghost predicate IsCycleReport(g: Graph<string>, report: seq<seq<string>>) {
    && Sorted(ListLeq, report) && Distinct(report)
    && (forall r :: r in report <==> IsComponent(g, Elements(r)) && Lists(StrLeq, Elements(r), r))
  }

  lemma ReportIsListing(g: Graph<string>, seen: set<set<string>>, cycles: seq<seq<string>>)
    requires forall c :: c in seen <==> IsComponent(g, c)
    requires ListsAll(StrLeq, seen, cycles)
    ensures forall r :: r in cycles <==> IsComponent(g, Elements(r)) && Lists(StrLeq, Elements(r), r)
  {
    StrLeqTotal();
    forall r | IsComponent(g, Elements(r)) && Lists(StrLeq, Elements(r), r) ensures r in cycles {
      assert Elements(r) in seen;
      var i :| 0 <= i < |cycles| && Elements(cycles[i]) == Elements(r);
      ListsUnique(StrLeq, Elements(r), r, cycles[i]);
    }
  }

  lemma PrefixGraphUnique(edges: seq<ImportEdge>, depth: int, g1: Graph<string>, g2: Graph<string>)
    requires IsPrefixGraph(edges, depth, g1) && IsPrefixGraph(edges, depth, g2)
    ensures g1 == g2
  {
    forall a | a in g1 ensures a in g2 && g1[a] == g2[a] {
      assert ArcEnd(edges, depth, a);
      forall b ensures b in g1[a] <==> b in g2[a] { }
    }
    forall a | a in g2 ensures a in g1 { assert ArcEnd(edges, depth, a); }
  }

  /** What `find_cycles` owes for a list of edges and a depth; the graph is determined by them. */
  ghost predicate CyclesAt(edges: seq<ImportEdge>, depth: int, report: seq<seq<string>>) {
    exists g :: IsPrefixGraph(edges, depth, g) && IsCycleReport(g, report)
  }

  method FindCycles(edges: seq<ImportEdge>, depth: int) returns (report: seq<seq<string>>)
    ensures CyclesAt(edges, depth, report)
  {
    StrLeqTotal();
    ListLeqTotal();
    var g := BuildGraph(edges, depth);
    PrefixGraphClosed(edges, depth, g);
    var search := new ComponentSearch(g, StrLeq);
    search.SearchAll();
    search.AllReported();
    ReportIsListing(g, search.seen, search.cycles);
    SortLists(ListLeq, search.cycles, Elements(search.cycles));
    report := Sort(ListLeq, search.cycles);
  }

  /** The report is determined by the edges and the depth. */
  lemma CyclesAtUnique(edges: seq<ImportEdge>, depth: int, r1: seq<seq<string>>, r2: seq<seq<string>>)
    requires CyclesAt(edges, depth, r1) && CyclesAt(edges, depth, r2)
    ensures r1 == r2
  {
    var g1 :| IsPrefixGraph(edges, depth, g1) && IsCycleReport(g1, r1);
    var g2 :| IsPrefixGraph(edges, depth, g2) && IsCycleReport(g2, r2);
    PrefixGraphUnique(edges, depth, g1, g2);
    ListLeqTotal();
    ListsUnique(ListLeq, Elements(r1), r1, r2);
  }

  /** Two different nodes share a reported cycle exactly when each reaches the other. */
  lemma ReportedTogether(g: Graph<string>, report: seq<seq<string>>, a: string, b: string)
    requires IsCycleReport(g, report) && a != b
    ensures (exists r :: r in report && a in r && b in r) <==> Reach(g, a, b) && Reach(g, b, a)
  {
    StrLeqTotal();
    if r :| r in report && a in r && b in r {
      assert a in Elements(r) && b in Elements(r);
      var v :| v in g && Elements(r) == Component(g, v);
      ReachTransitive(g, a, v, b);
      ReachTransitive(g, b, v, a);
    }
    if Reach(g, a, b) && Reach(g, b, a) {
      ReachEnds(g, a, b);
      ReachSelf(g, a);
      var c := Component(g, a);
      assert {a, b} <= c;
      TwoMembers(c, a, b);
      var r := ListingOf(c);
      assert Elements(r) == c;
      assert r in report && a in r && b in r;
    }
  }

  lemma TwoMembers<T>(s: set<T>, a: T, b: T)
    requires a in s && b in s && a != b
    ensures |s| > 1
  {
    assert |s - {a}| + 1 == |s| && b in s - {a};
  }

  lemma {:induction false} ListingOf(c: set<string>) returns (r: seq<string>)
    ensures Lists(StrLeq, c, r)
    decreases |c|
  {
    StrLeqTotal();
    var unordered := Enumerate(c);
    SortLists(StrLeq, unordered, c);
    r := Sort(StrLeq, unordered);
  }

  lemma {:induction false} Enumerate(c: set<string>) returns (r: seq<string>)
    ensures Distinct(r) && forall x :: x in r <==> x in c
    decreases |c|
  {
    if c == {} {
      r := [];
    } else {
      var x :| x in c;
      var rest := Enumerate(c - {x});
      assert x !in rest;
      r := rest + [x];
    }
  }

  /** Reported cycles are pairwise disjoint. */
  lemma ReportDisjoint(g: Graph<string>, report: seq<seq<string>>, i: nat, j: nat, x: string)
    requires IsCycleReport(g, report)
    requires i < |report| && j < |report| && i != j
    ensures !(x in report[i] && x in report[j])
  {
    if x in report[i] && x in report[j] {
      StrLeqTotal();
      var r, q := report[i], report[j];
      assert r in report && q in report;
      assert x in Elements(r) && x in Elements(q);
      var v :| v in g && Elements(r) == Component(g, v);
      var w :| w in g && Elements(q) == Component(g, w);
      ComponentOfMember(g, v, x);
      ComponentOfMember(g, w, x);
      ListsUnique(StrLeq, Elements(r), r, q);
      assert false;
    }
  }

  // ---- what a report says of module names ----

  /** The parts of a module's dotted name. */
  predicate IsModule(parts: seq<string>) {
    parts != [] && forall i :: 0 <= i < |parts| ==> '.' !in parts[i]
  }

  /** A depth keeps the first parts of a name, or all when there are no more; a negative one drops parts at the end. */
  lemma GroupOfModule(parts: seq<string>, depth: int, kept: nat)
    requires IsModule(parts)
    requires depth >= 0 ==> kept == if depth < |parts| then depth else |parts|
    requires depth < 0 ==> kept == if |parts| + depth > 0 then |parts| + depth else 0
    ensures Prefix(Join(parts, '.'), depth) == Join(parts[..kept], '.')
  {
    SplitJoin(parts, '.');
    assert parts[..|parts|] == parts;
  }

  /** The group of a module at a depth: its first `depth` parts, or all of them. */
  function Group(parts: seq<string>, depth: nat): string {
    Join(parts[..if depth < |parts| then depth else |parts|], '.')
  }

  /** Import `i` counts and leads from group `a` to group `b`. */
  predicate Joins(edges: seq<ImportEdge>, from: seq<seq<string>>, to: seq<seq<string>>, i: nat, depth: nat, a: string,
                  b: string)
    requires i < |edges| == |from| == |to|
  {
    && edges[i].kind in {Eager, Lazy} && edges[i].origin == Internal && !edges[i].unresolved
    && a == Group(from[i], depth) && b == Group(to[i], depth)
  }

  /** The modules' names as the edges carry them. */
  ghost predicate NamedBy(edges: seq<ImportEdge>, from: seq<seq<string>>, to: seq<seq<string>>) {
    && |from| == |to| == |edges|
    && (forall i :: 0 <= i < |edges| ==> IsModule(from[i]) && edges[i].importer == Join(from[i], '.'))
    && (forall i :: 0 <= i < |edges| ==> IsModule(to[i]) && edges[i].imported == Join(to[i], '.'))
  }

  ghost predicate Joined(edges: seq<ImportEdge>, from: seq<seq<string>>, to: seq<seq<string>>, depth: nat, a: string,
                         b: string)
    requires |edges| == |from| == |to|
  {
    a != b && exists i :: 0 <= i < |edges| && Joins(edges, from, to, i, depth, a, b)
  }

  lemma ArcOfModules(edges: seq<ImportEdge>, from: seq<seq<string>>, to: seq<seq<string>>, depth: nat, a: string,
                     b: string)
    requires NamedBy(edges, from, to)
    ensures Arc(edges, depth, a, b) <==> Joined(edges, from, to, depth, a, b)
  {
    hide Prefix, Group;
    forall i | 0 <= i < |edges|
      ensures Prefix(edges[i].importer, depth) == Group(from[i], depth)
      ensures Prefix(edges[i].imported, depth) == Group(to[i], depth)
    {
      GroupIsPrefix(from[i], depth);
      GroupIsPrefix(to[i], depth);
    }
    if Arc(edges, depth, a, b) {
      var e :| e in edges && Judged(e) && Prefix(e.importer, depth) == a && Prefix(e.imported, depth) == b;
      var i :| 0 <= i < |edges| && edges[i] == e;
      assert e.kind in {Eager, Lazy};
      assert Joins(edges, from, to, i, depth, a, b);
    }
  }

  /** The graph joins two different groups exactly when a module of the first imports one of the second, eagerly or
      lazily, and its nodes are the groups that are joined. */
  lemma GraphOfModules(edges: seq<ImportEdge>, depth: nat, g: Graph<string>, from: seq<seq<string>>,
                       to: seq<seq<string>>, a: string)
    requires IsPrefixGraph(edges, depth, g) && NamedBy(edges, from, to)
    ensures a in g <==> exists b :: Joined(edges, from, to, depth, a, b) || Joined(edges, from, to, depth, b, a)
    ensures a in g ==> forall b :: b in g[a] <==> Joined(edges, from, to, depth, a, b)
  {
    assert |edges| == |from| == |to|;
    hide Arc, Joined, NamedBy;
    forall b
      ensures Arc(edges, depth, a, b) <==> Joined(edges, from, to, depth, a, b)
      ensures Arc(edges, depth, b, a) <==> Joined(edges, from, to, depth, b, a)
    {
      ArcOfModules(edges, from, to, depth, a, b);
      ArcOfModules(edges, from, to, depth, b, a);
    }
  }

  lemma GroupIsPrefix(parts: seq<string>, depth: nat)
    requires IsModule(parts)
    ensures Prefix(Join(parts, '.'), depth) == Group(parts, depth)
  {
    GroupOfModule(parts, depth, if depth < |parts| then depth else |parts|);
  }

  /** An import of one module by another, by their parts. */
  function Import(from: seq<string>, to: seq<string>, kind: Kind): ImportEdge {
    ImportEdge(Join(from, '.'), Join(to, '.'), kind, Internal, false)
  }

  /** Modules of the group `group`: its parts and, when those are as many as the depth, any further ones. */
  predicate InGroup(parts: seq<string>, group: seq<string>, depth: nat) {
    IsModule(parts) && group <= parts && |group| <= depth && (parts == group || |group| == depth)
  }

  lemma InGroupIs(parts: seq<string>, group: seq<string>, depth: nat)
    requires InGroup(parts, group, depth)
    ensures Prefix(Join(parts, '.'), depth) == Join(group, '.')
  {
    GroupOfModule(parts, depth, |group|);
    assert parts[..|group|] == group;
  }

  lemma JoinTells(a: seq<string>, b: seq<string>)
    requires IsModule(a) && IsModule(b) && a != b
    ensures Join(a, '.') != Join(b, '.')
  {
    SplitJoin(a, '.');
    SplitJoin(b, '.');
  }

  lemma GroupsDiffer(p: seq<string>, q: seq<string>, a: seq<string>, b: seq<string>, depth: nat)
    requires InGroup(p, a, depth) && InGroup(q, b, depth) && a != b
    ensures Join(a, '.') != Join(b, '.')
  {
    assert forall i :: 0 <= i < |a| ==> a[i] == p[i];
    assert forall i :: 0 <= i < |b| ==> b[i] == q[i];
    JoinTells(a, b);
  }

  /** Modules of two groups that import each other put the two groups into one reported cycle, whether the imports are
      eager or lazy and whatever else is imported. */
  lemma MutualImportsReported(edges: seq<ImportEdge>, depth: nat, report: seq<seq<string>>, a: seq<string>,
                              b: seq<string>, there: (seq<string>, seq<string>), back: (seq<string>, seq<string>),
                              k1: Kind, k2: Kind)
    requires CyclesAt(edges, depth, report) && a != b && k1 in {Eager, Lazy} && k2 in {Eager, Lazy}
    requires InGroup(there.0, a, depth) && InGroup(there.1, b, depth) && Import(there.0, there.1, k1) in edges
    requires InGroup(back.0, b, depth) && InGroup(back.1, a, depth) && Import(back.0, back.1, k2) in edges
    ensures exists r :: r in report && Join(a, '.') in r && Join(b, '.') in r
  {
    var x, y := Join(a, '.'), Join(b, '.');
    GroupsDiffer(there.0, there.1, a, b, depth);
    ImportEnds(there.0, there.1, k1, a, b, depth);
    ImportEnds(back.0, back.1, k2, b, a, depth);
    hide Prefix, InGroup, Join, Split;
    assert Arc(edges, depth, x, y) && Arc(edges, depth, y, x);
    var g :| IsPrefixGraph(edges, depth, g) && IsCycleReport(g, report);
    assert ArcEnd(edges, depth, x) && ArcEnd(edges, depth, y);
    PrefixGraphClosed(edges, depth, g);
    ReachEdge(g, x, y);
    ReachEdge(g, y, x);
    ReportedTogether(g, report, x, y);
  }

  /** With no other import that is all there is to report. */
  lemma MutualImportsAlone(depth: nat, report: seq<seq<string>>, a: seq<string>, b: seq<string>,
                           there: (seq<string>, seq<string>), back: (seq<string>, seq<string>), k1: Kind, k2: Kind)
    requires CyclesAt([Import(there.0, there.1, k1), Import(back.0, back.1, k2)], depth, report)
    requires a != b && k1 in {Eager, Lazy} && k2 in {Eager, Lazy}
    requires InGroup(there.0, a, depth) && InGroup(there.1, b, depth)
    requires InGroup(back.0, b, depth) && InGroup(back.1, a, depth)
    ensures |report| == 1 && Elements(report[0]) == {Join(a, '.'), Join(b, '.')}
    ensures Lists(StrLeq, Elements(report[0]), report[0])
  {
    hide CyclesAt, InGroup, Import, Lists;
    var e1, e2 := Import(there.0, there.1, k1), Import(back.0, back.1, k2);
    assert e1 in [e1, e2] && e2 in [e1, e2];
    MutualImportsReported([e1, e2], depth, report, a, b, there, back, k1, k2);
    GroupsDiffer(there.0, there.1, a, b, depth);
    ImportEnds(there.0, there.1, k1, a, b, depth);
    ImportEnds(back.0, back.1, k2, b, a, depth);
    hide *;
    OnlyOneCycle([e1, e2], depth, report, Join(a, '.'), Join(b, '.'));
  }

  lemma ImportEnds(p: seq<string>, q: seq<string>, kind: Kind, a: seq<string>, b: seq<string>, depth: nat)
    requires InGroup(p, a, depth) && InGroup(q, b, depth)
    ensures Prefix(Import(p, q, kind).importer, depth) == Join(a, '.')
    ensures Prefix(Import(p, q, kind).imported, depth) == Join(b, '.')
  {
    InGroupIs(p, a, depth);
    InGroupIs(q, b, depth);
  }

  lemma OnlyOneCycle(edges: seq<ImportEdge>, depth: nat, report: seq<seq<string>>, x: string, y: string)
    requires CyclesAt(edges, depth, report) && x != y && exists r :: r in report && x in r && y in r
    requires forall e :: e in edges ==> Prefix(e.importer, depth) in {x, y} && Prefix(e.imported, depth) in {x, y}
    ensures |report| == 1 && Elements(report[0]) == {x, y} && Lists(StrLeq, Elements(report[0]), report[0])
  {
    hide Prefix;
    var g :| IsPrefixGraph(edges, depth, g) && IsCycleReport(g, report);
    hide IsPrefixGraph, IsComponent, Lists;
    forall q | q in report ensures Elements(q) == {x, y} { OnlyEnds(edges, depth, g, Elements(q), x, y); }
    hide *;
    assert report[0] in report;
    if |report| > 1 {
      assert report[1] in report;
      assert x in Elements(report[0]) && x in Elements(report[1]);
      ReportDisjoint(g, report, 0, 1, x);
    }
  }

  lemma OnlyEnds(edges: seq<ImportEdge>, depth: nat, g: Graph<string>, c: set<string>, x: string, y: string)
    requires IsPrefixGraph(edges, depth, g) && IsComponent(g, c)
    requires forall e :: e in edges ==> Prefix(e.importer, depth) in {x, y} && Prefix(e.imported, depth) in {x, y}
    ensures c == {x, y}
  {
    hide Prefix, Reach;
    forall u | u in g ensures u in {x, y} {
      assert ArcEnd(edges, depth, u);
    }
    assert c <= {x, y};
    if x !in c { AtMostOne(c, y); }
    if y !in c { AtMostOne(c, x); }
  }

  lemma AtMostOne<T>(s: set<T>, x: T)
    requires s <= {x}
    ensures |s| <= 1
  {
    if s != {} { assert s == {x}; }
  }

  /** A type-only import, one that leads outside and one that was not resolved change nothing. */
  lemma OthersIgnored(before: seq<ImportEdge>, e: ImportEdge, after: seq<ImportEdge>, depth: int,
                      report: seq<seq<string>>)
    requires e.kind == TypeOnly || e.origin != Internal || e.unresolved
    ensures CyclesAt(before + [e] + after, depth, report) <==> CyclesAt(before + after, depth, report)
  {
    var all, rest := before + [e] + after, before + after;
    forall x | Judged(x) ensures x in all <==> x in rest { }
    forall a, b ensures Arc(all, depth, a, b) <==> Arc(rest, depth, a, b) { }
    forall g | IsPrefixGraph(all, depth, g) ensures IsPrefixGraph(rest, depth, g) { SameArcs(all, rest, depth, g); }
    forall g | IsPrefixGraph(rest, depth, g) ensures IsPrefixGraph(all, depth, g) { SameArcs(rest, all, depth, g); }
  }
}
