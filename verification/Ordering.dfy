/** Total orders, their lexicographic extension, and sorting, as Python's `sorted`
    uses them on strings and on lists of strings. */
module Ordering {

  ghost predicate TotalOrder<T(!new)>(leq: (T, T) -> bool) {
    && (forall a, b :: leq(a, b) || leq(b, a))
    && (forall a, b :: leq(a, b) && leq(b, a) ==> a == b)
    && (forall a, b, c :: leq(a, b) && leq(b, c) ==> leq(a, c))
  }

  /** Lexicographic order: the first difference decides, and a proper prefix comes first. */
  predicate LexLeq<T(==)>(leq: (T, T) -> bool, a: seq<T>, b: seq<T>) {
    if a == [] then true
    else if b == [] then false
    else if a[0] == b[0] then LexLeq(leq, a[1..], b[1..])
    else leq(a[0], b[0])
  }

  predicate CharLeq(a: char, b: char) { a <= b }

  predicate StrLeq(a: string, b: string) { LexLeq(CharLeq, a, b) }

  predicate ListLeq(a: seq<string>, b: seq<string>) { LexLeq(StrLeq, a, b) }

  lemma {:induction false} LexTotal<T(!new)>(leq: (T, T) -> bool, a: seq<T>, b: seq<T>)
    requires TotalOrder(leq)
    ensures LexLeq(leq, a, b) || LexLeq(leq, b, a)
  {
    if a != [] && b != [] && a[0] == b[0] { LexTotal(leq, a[1..], b[1..]); }
  }

  lemma {:induction false} LexAntisymmetric<T(!new)>(leq: (T, T) -> bool, a: seq<T>, b: seq<T>)
    requires TotalOrder(leq)
    requires LexLeq(leq, a, b) && LexLeq(leq, b, a)
    ensures a == b
  {
    if a != [] && b != [] {
      LexAntisymmetric(leq, a[1..], b[1..]);
      assert a == [a[0]] + a[1..] && b == [b[0]] + b[1..];
    }
  }

  lemma {:induction false} LexTransitive<T(!new)>(leq: (T, T) -> bool, a: seq<T>, b: seq<T>, c: seq<T>)
    requires TotalOrder(leq)
    requires LexLeq(leq, a, b) && LexLeq(leq, b, c)
    ensures LexLeq(leq, a, c)
  {
    if a != [] && b != [] && c != [] && a[0] == b[0] && b[0] == c[0] {
      LexTransitive(leq, a[1..], b[1..], c[1..]);
    }
  }

  lemma StrLeqTotal()
    ensures TotalOrder(StrLeq)
  {
    assert TotalOrder(CharLeq);
    forall a, b ensures StrLeq(a, b) || StrLeq(b, a) { LexTotal(CharLeq, a, b); }
    forall a, b | StrLeq(a, b) && StrLeq(b, a) ensures a == b { LexAntisymmetric(CharLeq, a, b); }
    forall a, b, c | StrLeq(a, b) && StrLeq(b, c) ensures StrLeq(a, c) { LexTransitive(CharLeq, a, b, c); }
  }

  lemma ListLeqTotal()
    ensures TotalOrder(ListLeq)
  {
    StrLeqTotal();
    forall a, b ensures ListLeq(a, b) || ListLeq(b, a) { LexTotal(StrLeq, a, b); }
    forall a, b | ListLeq(a, b) && ListLeq(b, a) ensures a == b { LexAntisymmetric(StrLeq, a, b); }
    forall a, b, c | ListLeq(a, b) && ListLeq(b, c) ensures ListLeq(a, c) { LexTransitive(StrLeq, a, b, c); }
  }

  // ---- sorting ----

  ghost predicate Sorted<T>(leq: (T, T) -> bool, s: seq<T>) {
    forall i, j :: 0 <= i < j < |s| ==> leq(s[i], s[j])
  }

  ghost predicate Distinct<T>(s: seq<T>) {
    forall i, j :: 0 <= i < j < |s| ==> s[i] != s[j]
  }

  function Elements<T>(s: seq<T>): set<T> {
    set x | x in s
  }

  /** A list is free of duplicates exactly when it is as long as its set of elements is large. */
  lemma {:induction false} ElementsCount<T>(s: seq<T>)
    ensures |Elements(s)| <= |s|
    ensures |Elements(s)| == |s| <==> Distinct(s)
  {
    if s != [] {
      var tail := s[1..];
      ElementsCount(tail);
      assert Elements(s) == Elements(tail) + {s[0]};
      if s[0] in tail {
        assert Elements(s) == Elements(tail);
        var j :| 0 <= j < |tail| && tail[j] == s[0];
        assert s[j + 1] == s[0];
      } else {
        forall i, j | 0 <= i < j < |tail| ensures s[i + 1] == tail[i] && s[j + 1] == tail[j] { }
        assert Distinct(tail) ==> Distinct(s);
        if Distinct(s) {
          forall i, j | 0 <= i < j < |tail| ensures tail[i] != tail[j] { assert s[i + 1] != s[j + 1]; }
        }
      }
    }
  }

  /** `r` lists exactly the elements of `s`, each once, in ascending order. */
  ghost predicate Lists<T(!new)>(leq: (T, T) -> bool, s: set<T>, r: seq<T>) {
    && Sorted(leq, r)
    && Distinct(r)
    && (forall x :: x in r <==> x in s)
  }

  lemma {:induction false} ListsUnique<T(!new)>(leq: (T, T) -> bool, s: set<T>, r1: seq<T>, r2: seq<T>)
    requires TotalOrder(leq)
    requires Lists(leq, s, r1) && Lists(leq, s, r2)
    ensures r1 == r2
    decreases |r1|
  {
    assert r2 != [] ==> r2[0] in s;
    if r1 != [] {
      assert r1[0] in s && r1[0] in r2;
      assert r2[0] in s && r2[0] in r1;
      assert r1[0] == r2[0];
      var t := s - {r1[0]};
      assert Lists(leq, t, r1[1..]) && Lists(leq, t, r2[1..]) by {
        forall x ensures x in r1[1..] <==> x in t { }
        forall x ensures x in r2[1..] <==> x in t { }
      }
      ListsUnique(leq, t, r1[1..], r2[1..]);
      assert r1 == [r1[0]] + r1[1..] && r2 == [r2[0]] + r2[1..];
    }
  }

  function Insert<T>(leq: (T, T) -> bool, x: T, s: seq<T>): (r: seq<T>)
    ensures multiset(r) == multiset(s) + multiset{x}
  {
    if s == [] then [x]
    else if leq(x, s[0]) then [x] + s
    else
      assert s == [s[0]] + s[1..];
      [s[0]] + Insert(leq, x, s[1..])
  }

  function Sort<T>(leq: (T, T) -> bool, s: seq<T>): (r: seq<T>)
    ensures multiset(r) == multiset(s)
  {
    if s == [] then []
    else
      assert s == [s[0]] + s[1..];
      Insert(leq, s[0], Sort(leq, s[1..]))
  }

  lemma {:induction false} InsertSorted<T(!new)>(leq: (T, T) -> bool, x: T, s: seq<T>)
    requires TotalOrder(leq) && Sorted(leq, s)
    ensures Sorted(leq, Insert(leq, x, s))
  {
    if s != [] && !leq(x, s[0]) {
      InsertSorted(leq, x, s[1..]);
      var r := Insert(leq, x, s[1..]);
      forall k | 0 <= k < |r| ensures leq(s[0], r[k]) {
        assert r[k] in multiset(r);
        assert r[k] == x || r[k] in s[1..];
      }
    }
  }

  lemma {:induction false} SortSorted<T(!new)>(leq: (T, T) -> bool, s: seq<T>)
    requires TotalOrder(leq)
    ensures Sorted(leq, Sort(leq, s))
  {
    if s != [] {
      SortSorted(leq, s[1..]);
      InsertSorted(leq, s[0], Sort(leq, s[1..]));
    }
  }

  lemma DistinctIsMultisetSmall<T>(s: seq<T>)
    ensures Distinct(s) <==> forall x :: x in s ==> multiset(s)[x] == 1
  {
    if Distinct(s) {
      forall x | x in s ensures multiset(s)[x] == 1 { DistinctCount(s, x); }
    } else {
      var i, j :| 0 <= i < j < |s| && s[i] == s[j];
      assert s == s[..i] + [s[i]] + s[i+1..j] + [s[j]] + s[j+1..];
      assert multiset(s)[s[i]] >= 2;
    }
  }

  lemma {:induction false} DistinctCount<T>(s: seq<T>, x: T)
    requires Distinct(s) && x in s
    ensures multiset(s)[x] == 1
  {
    var i :| 0 <= i < |s| && s[i] == x;
    assert s == s[..i] + [x] + s[i+1..];
    assert x !in s[..i] && x !in s[i+1..];
  }

  /** Sorting a duplicate-free list gives the one ascending listing of its elements. */
  lemma SortLists<T(!new)>(leq: (T, T) -> bool, s: seq<T>, elements: set<T>)
    requires TotalOrder(leq) && Distinct(s)
    requires forall x :: x in s <==> x in elements
    ensures Lists(leq, elements, Sort(leq, s))
  {
    SortSorted(leq, s);
    var r := Sort(leq, s);
    DistinctIsMultisetSmall(s);
    forall x ensures x in r <==> x in s {
      assert x in r <==> x in multiset(r);
      assert x in s <==> x in multiset(s);
    }
    DistinctIsMultisetSmall(r);
  }

  lemma HeadLeast<T(!new)>(leq: (T, T) -> bool, a: seq<T>, b: seq<T>)
    requires TotalOrder(leq) && Sorted(leq, a) && a != [] && b != [] && b[0] in multiset(a)
    ensures leq(a[0], b[0])
  {
    var j :| 0 <= j < |a| && a[j] == b[0];
    if j > 0 { assert leq(a[0], a[j]); }
  }

  lemma TailMultiset<T>(a: seq<T>)
    requires a != []
    ensures multiset(a) == multiset{a[0]} + multiset(a[1..]) && a == [a[0]] + a[1..]
  {
    assert a == [a[0]] + a[1..];
  }

  /** Ascending lists with the same elements, counted with repetition, are the same. */
  lemma {:induction false} SortedUnique<T(!new)>(leq: (T, T) -> bool, a: seq<T>, b: seq<T>)
    requires TotalOrder(leq) && Sorted(leq, a) && Sorted(leq, b) && multiset(a) == multiset(b)
    ensures a == b
  {
    assert |a| == |multiset(a)| == |multiset(b)| == |b|;
    if a != [] {
      assert a[0] in multiset(a) && b[0] in multiset(b);
      HeadLeast(leq, a, b);
      HeadLeast(leq, b, a);
      TailMultiset(a);
      TailMultiset(b);
      assert a[0] == b[0];
      assert multiset(a[1..]) == multiset(a) - multiset{a[0]};
      assert multiset(b[1..]) == multiset(b) - multiset{a[0]};
      SortedUnique(leq, a[1..], b[1..]);
    }
  }

  lemma {:induction false} LexIsDictionary<T(!new)>(leq: (T, T) -> bool, p: seq<T>, c: T, s: seq<T>, d: T, t: seq<T>)
    requires c != d
    ensures LexLeq(leq, p, p + s) && (LexLeq(leq, p + s, p) ==> s == [])
    ensures LexLeq(leq, p + [c] + s, p + [d] + t) <==> leq(c, d)
  {
    if p != [] {
      assert (p + s)[1..] == p[1..] + s;
      assert (p + [c] + s)[1..] == p[1..] + [c] + s && (p + [d] + t)[1..] == p[1..] + [d] + t;
      LexIsDictionary(leq, p[1..], c, s, d, t);
    }
  }

  /** Strings are ordered as in a dictionary: the first difference decides by code point, and a prefix comes first. */
  lemma StrLeqIsDictionary(p: string, c: char, s: string, d: char, t: string)
    requires c < d
    ensures StrLeq(p, p + s)
    ensures StrLeq(p + [c] + s, p + [d] + t) && !StrLeq(p + [d] + t, p + [c] + s)
  {
    LexIsDictionary(CharLeq, p, c, s, d, t);
    LexIsDictionary(CharLeq, p, d, t, c, s);
  }

  /** So are lists of strings, by the order of strings. */
  lemma ListLeqIsDictionary(p: seq<string>, c: string, s: seq<string>, d: string, t: seq<string>)
    requires c != d && StrLeq(c, d)
    ensures ListLeq(p, p + s)
    ensures ListLeq(p + [c] + s, p + [d] + t) && !ListLeq(p + [d] + t, p + [c] + s)
  {
    StrLeqTotal();
    LexIsDictionary(StrLeq, p, c, s, d, t);
    LexIsDictionary(StrLeq, p, d, t, c, s);
  }

  /** Sorting a set: its ascending listing. */
  method SortedElements<T(!new, ==)>(leq: (T, T) -> bool, s: set<T>) returns (r: seq<T>)
    requires TotalOrder(leq)
    ensures Lists(leq, s, r)
  {
    var rest := s;
    var out: seq<T> := [];
    while rest != {}
      invariant rest <= s
      invariant Distinct(out)
      invariant forall x :: x in out <==> x in s - rest
      decreases |rest|
    {
      var x :| x in rest;
      assert x !in out;
      out := out + [x];
      rest := rest - {x};
    }
    SortLists(leq, out, s);
    r := Sort(leq, out);
  }
}
