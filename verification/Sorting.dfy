/**
 * Python's stable sort. `list.sort` and `sorted` are library code; what the
 * program relies on is that the result is ordered, keeps every element, and
 * keeps tied elements in their input order. `Unique` shows that those facts
 * leave a single possible result, so the insertion sort below stands for any
 * stable sort.
 */
module Sorting {
  import opened Prelude

  ghost predicate TotalPreorder<T(!new)>(leq: (T, T) -> bool) {
    && (forall x, y :: leq(x, y) || leq(y, x))
    && (forall x, y, z :: leq(x, y) && leq(y, z) ==> leq(x, z))
  }

  ghost predicate Sorted<T(!new)>(s: seq<T>, leq: (T, T) -> bool) {
    forall i, j | 0 <= i < j < |s| :: leq(s[i], s[j])
  }

  function Insert<T>(x: T, s: seq<T>, leq: (T, T) -> bool): (r: seq<T>)
    ensures multiset(r) == multiset([x] + s)
  {
    if s == [] || leq(x, s[0]) then [x] + s
    else
      assert s == [s[0]] + s[1..];
      [s[0]] + Insert(x, s[1..], leq)
  }

  function StableSort<T>(s: seq<T>, leq: (T, T) -> bool): (r: seq<T>)
    ensures multiset(r) == multiset(s)
    ensures |r| == |s|
  {
    if s == [] then []
    else
      assert s == [s[0]] + s[1..];
      var r := Insert(s[0], StableSort(s[1..], leq), leq);
      assert |multiset(r)| == |multiset(s)|;
      r
  }

  /** The elements of `s` that tie with `z`, in order. */
  function Ties<T>(s: seq<T>, z: T, leq: (T, T) -> bool): seq<T> {
    Filter(s, y => leq(y, z) && leq(z, y))
  }

  lemma TiesAre<T(!new)>(s: seq<T>, z: T, leq: (T, T) -> bool, p: T -> bool)
    requires forall y | y in s :: p(y) <==> leq(y, z) && leq(z, y)
    ensures Ties(s, z, leq) == Filter(s, p)
  {
    FilterSame(s, y => leq(y, z) && leq(z, y), p);
  }

  lemma {:induction false} InsertSorted<T(!new)>(x: T, s: seq<T>, leq: (T, T) -> bool)
    requires TotalPreorder(leq) && Sorted(s, leq)
    ensures Sorted(Insert(x, s, leq), leq)
  {
    if s != [] && !leq(x, s[0]) {
      InsertSorted(x, s[1..], leq);
      var t := Insert(x, s[1..], leq);
      forall y | y in t
        ensures leq(s[0], y)
      {
        assert y in multiset(t);
        assert y in [x] + s[1..];
      }
    }
  }

  lemma {:induction false} SortSorted<T(!new)>(s: seq<T>, leq: (T, T) -> bool)
    requires TotalPreorder(leq)
    ensures Sorted(StableSort(s, leq), leq)
  {
    if s != [] {
      SortSorted(s[1..], leq);
      InsertSorted(s[0], StableSort(s[1..], leq), leq);
    }
  }

  lemma {:induction false} InsertTies<T(!new)>(x: T, s: seq<T>, z: T, leq: (T, T) -> bool)
    requires TotalPreorder(leq)
    ensures Ties(Insert(x, s, leq), z, leq) == Ties([x] + s, z, leq)
  {
    if s != [] && !leq(x, s[0]) {
      var p := y => leq(y, z) && leq(z, y);
      InsertTies(x, s[1..], z, leq);
      FilterConcat([s[0]], Insert(x, s[1..], leq), p);
      FilterConcat([s[0]], [x] + s[1..], p);
      FilterConcat([x], s, p);
      assert s == [s[0]] + s[1..];
      FilterConcat([s[0]], s[1..], p);
      FilterConcat([x], s[1..], p);
      assert !(p(x) && p(s[0]));
    }
  }

  /** Stability: tied elements keep their input order. */
  lemma {:induction false} SortStable<T(!new)>(s: seq<T>, z: T, leq: (T, T) -> bool)
    requires TotalPreorder(leq)
    ensures Ties(StableSort(s, leq), z, leq) == Ties(s, z, leq)
  {
    if s != [] {
      var p := y => leq(y, z) && leq(z, y);
      var t := StableSort(s[1..], leq);
      SortStable(s[1..], z, leq);
      InsertTies(s[0], t, z, leq);
      FilterConcat([s[0]], t, p);
      FilterConcat([s[0]], s[1..], p);
      assert s == [s[0]] + s[1..];
    }
  }

  /** An ordered list is left alone. */
  lemma {:induction false} SortedIsFixed<T(!new)>(s: seq<T>, leq: (T, T) -> bool)
    requires Sorted(s, leq)
    ensures StableSort(s, leq) == s
  {
    if s != [] {
      SortedIsFixed(s[1..], leq);
      assert |s| > 1 ==> leq(s[0], s[1]);
    }
  }

  lemma HeadTies<T(!new)>(s: seq<T>, t: seq<T>, leq: (T, T) -> bool)
    requires TotalPreorder(leq) && Sorted(s, leq) && Sorted(t, leq)
    requires s != [] && forall z :: Ties(s, z, leq) == Ties(t, z, leq)
    ensures t != [] && s[0] == t[0]
  {
    var a := s[0];
    assert leq(a, a) && a in Ties(s, a, leq) && a in Ties(t, a, leq);
    var b := t[0];
    assert leq(b, b) && b in Ties(t, b, leq) && b in Ties(s, b, leq);
    assert leq(a, b) && leq(b, a);
    assert Ties(s, a, leq)[0] == a && Ties(t, a, leq)[0] == b;
  }

  /** Order and stability determine the result: at most one list has both. */
  lemma {:induction false} Unique<T(!new)>(s: seq<T>, t: seq<T>, leq: (T, T) -> bool)
    requires TotalPreorder(leq) && Sorted(s, leq) && Sorted(t, leq)
    requires forall z :: Ties(s, z, leq) == Ties(t, z, leq)
    ensures s == t
  {
    if s == [] {
      if t != [] { HeadTies(t, s, leq); }
    } else {
      HeadTies(s, t, leq);
      forall z
        ensures Ties(s[1..], z, leq) == Ties(t[1..], z, leq)
      {
        var p := y => leq(y, z) && leq(z, y);
        assert Ties(s, z, leq) == Filter(s, p) && Ties(t, z, leq) == Filter(t, p);
        assert Ties(s, z, leq) == Ties(t, z, leq);
        if p(s[0]) {
          assert Filter(s[1..], p) == Filter(s, p)[1..];
          assert Filter(t[1..], p) == Filter(t, p)[1..];
        }
        assert Filter(s[1..], p) == Filter(t[1..], p);
      }
      Unique(s[1..], t[1..], leq);
      assert s == [s[0]] + s[1..] && t == [t[0]] + t[1..];
    }
  }

  ghost predicate AntisymmetricOn<T(!new)>(s: seq<T>, leq: (T, T) -> bool) {
    forall x, y | x in s && y in s && leq(x, y) && leq(y, x) :: x == y
  }

  lemma LeastFirst<T(!new)>(s: seq<T>, t: seq<T>, leq: (T, T) -> bool)
    requires TotalPreorder(leq) && Sorted(s, leq) && Sorted(t, leq)
    requires s != [] && multiset(s) == multiset(t) && AntisymmetricOn(s, leq)
    ensures t != [] && s[0] == t[0]
    ensures multiset(s[1..]) == multiset(t[1..])
  {
    assert s[0] in multiset(t) && s[0] in t;
    assert t[0] in multiset(s) && t[0] in s;
    var i :| 0 <= i < |t| && t[i] == s[0];
    var j :| 0 <= j < |s| && s[j] == t[0];
    assert leq(t[0], t[0]) && leq(s[0], s[0]);
    assert s[0] == t[0];
    assert s == [s[0]] + s[1..] && t == [t[0]] + t[1..];
    assert multiset(s[1..]) == multiset(s) - multiset{s[0]};
    assert multiset(t[1..]) == multiset(t) - multiset{t[0]};
  }

  /** With no two different elements tied, the input order does not matter. */
  lemma {:induction false} PermutationUnique<T(!new)>(s: seq<T>, t: seq<T>, leq: (T, T) -> bool)
    requires TotalPreorder(leq) && Sorted(s, leq) && Sorted(t, leq)
    requires multiset(s) == multiset(t) && AntisymmetricOn(s, leq)
    ensures s == t
  {
    if s == [] {
      assert |multiset(t)| == 0;
    } else {
      LeastFirst(s, t, leq);
      PermutationUnique(s[1..], t[1..], leq);
      assert s == [s[0]] + s[1..] && t == [t[0]] + t[1..];
    }
  }

  lemma SortPermutation<T(!new)>(s: seq<T>, t: seq<T>, leq: (T, T) -> bool)
    requires TotalPreorder(leq) && multiset(s) == multiset(t) && AntisymmetricOn(s, leq)
    ensures StableSort(s, leq) == StableSort(t, leq)
  {
    SortSorted(s, leq);
    SortSorted(t, leq);
    var a := StableSort(s, leq);
    forall x | x in a
      ensures x in s
    {
      assert x in multiset(a);
    }
    PermutationUnique(a, StableSort(t, leq), leq);
  }

  /** The first element of the input comes first among those it ties with. */
  lemma FirstLeadsTies<T(!new)>(s: seq<T>, z: T, leq: (T, T) -> bool)
    requires TotalPreorder(leq) && s != [] && leq(s[0], z) && leq(z, s[0])
    ensures Ties(StableSort(s, leq), z, leq) != [] && Ties(StableSort(s, leq), z, leq)[0] == s[0]
  {
    SortStable(s, z, leq);
  }
}
