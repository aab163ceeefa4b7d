/** Directed graphs, reachability, and strongly connected components. */
module Graphs {

  type Graph<V(==)> = map<V, set<V>>

  ghost predicate Closed<V(!new)>(g: Graph<V>) {
    forall v :: v in g ==> g[v] <= g.Keys
  }

  ghost predicate IsPath<V(!new)>(g: Graph<V>, p: seq<V>) {
    && |p| > 0
    && (forall i :: 0 <= i < |p| ==> p[i] in g)
    && (forall i :: 0 <= i < |p| - 1 ==> p[i + 1] in g[p[i]])
  }

  ghost predicate Reach<V(!new)>(g: Graph<V>, a: V, b: V) {
    exists p :: IsPath(g, p) && p[0] == a && p[|p| - 1] == b
  }

  lemma ReachEnds<V(!new)>(g: Graph<V>, a: V, b: V)
    requires Reach(g, a, b)
    ensures a in g && b in g
  {
    var p :| IsPath(g, p) && p[0] == a && p[|p| - 1] == b;
  }

  lemma ReachSelf<V(!new)>(g: Graph<V>, a: V)
    requires a in g
    ensures Reach(g, a, a)
  {
    assert IsPath(g, [a]) && [a][0] == a;
  }

  lemma ReachEdge<V(!new)>(g: Graph<V>, a: V, b: V)
    requires Closed(g) && a in g && b in g[a]
    ensures Reach(g, a, b)
  {
    var p := [a, b];
    assert IsPath(g, p) && p[0] == a && p[|p| - 1] == b;
  }

  lemma ReachTransitive<V(!new)>(g: Graph<V>, a: V, b: V, c: V)
    requires Reach(g, a, b) && Reach(g, b, c)
    ensures Reach(g, a, c)
  {
    var p :| IsPath(g, p) && p[0] == a && p[|p| - 1] == b;
    var q :| IsPath(g, q) && q[0] == b && q[|q| - 1] == c;
    var r := p + q[1..];
    forall i | 0 <= i < |r| - 1 ensures r[i + 1] in g[r[i]] {
      if i >= |p| - 1 { assert r[i + 1] == q[i - |p| + 2] && r[i] == q[i - |p| + 1]; }
    }
    assert IsPath(g, r) && r[0] == a && r[|r| - 1] == c;
  }

  /** A path that starts in a set closed under edges ends in it. */
  lemma {:induction false} PathStaysInside<V(!new)>(g: Graph<V>, s: set<V>, p: seq<V>)
    requires IsPath(g, p) && p[0] in s
    requires forall v, w :: v in s && v in g && w in g[v] ==> w in s
    ensures p[|p| - 1] in s
  {
    if |p| > 1 {
      assert p[1] in g[p[0]];
      PathStaysInside(g, s, p[1..]);
    }
  }

  lemma ReachStaysInside<V(!new)>(g: Graph<V>, s: set<V>, a: V, b: V)
    requires a in s && Reach(g, a, b)
    requires forall v, w :: v in s && v in g && w in g[v] ==> w in s
    ensures b in s
  {
    var p :| IsPath(g, p) && p[0] == a && p[|p| - 1] == b;
    PathStaysInside(g, s, p);
  }

  /** The strongly connected component of `v`: everything mutually reachable with it. */
  ghost function Component<V(!new)>(g: Graph<V>, v: V): set<V> {
    set u | u in g.Keys && Reach(g, v, u) && Reach(g, u, v)
  }

  lemma ComponentOfMember<V(!new)>(g: Graph<V>, v: V, u: V)
    requires u in Component(g, v)
    ensures Component(g, u) == Component(g, v)
  {
    forall x | x in g.Keys
      ensures x in Component(g, u) <==> x in Component(g, v)
    {
      if x in Component(g, u) {
        ReachTransitive(g, v, u, x);
        ReachTransitive(g, x, u, v);
      }
      if x in Component(g, v) {
        ReachTransitive(g, u, v, x);
        ReachTransitive(g, x, v, u);
      }
    }
  }

  lemma ComponentHoldsOrigin<V(!new)>(g: Graph<V>, v: V, u: V)
    requires u in Component(g, v)
    ensures v in Component(g, v)
  {
    ReachTransitive(g, v, u, v);
    ReachEnds(g, v, v);
  }
}
