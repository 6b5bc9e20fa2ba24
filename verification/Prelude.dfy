/** Small datatypes and sequence operations shared by the other modules. */
module Prelude {

  datatype Option<+T> = None | Some(value: T)

  datatype Result<+T> = Ok(value: T) | Err(message: string)

  /** The elements of `s` satisfying `p`, in their original order. */
  function Filter<T>(s: seq<T>, p: T -> bool): (r: seq<T>)
    ensures forall x | x in r :: x in s && p(x)
    ensures forall x | x in s && p(x) :: x in r
    ensures |r| <= |s|
  {
    if s == [] then []
    else if p(s[0]) then [s[0]] + Filter(s[1..], p)
    else Filter(s[1..], p)
  }

  lemma {:induction false} FilterConcat<T>(a: seq<T>, b: seq<T>, p: T -> bool)
    ensures Filter(a + b, p) == Filter(a, p) + Filter(b, p)
  {
    if a == [] {
      assert a + b == b;
    } else {
      assert (a + b)[1..] == a[1..] + b;
      FilterConcat(a[1..], b, p);
    }
  }

  lemma FilterMultiset<T(!new)>(a: seq<T>, b: seq<T>, p: T -> bool)
    requires multiset(a) == multiset(b)
    ensures multiset(Filter(a, p)) == multiset(Filter(b, p))
  {
    forall x
      ensures multiset(Filter(a, p))[x] == multiset(Filter(b, p))[x]
    {
      FilterCount(a, p, x);
      FilterCount(b, p, x);
    }
  }

  lemma {:induction false} FilterCount<T>(a: seq<T>, p: T -> bool, x: T)
    ensures multiset(Filter(a, p))[x] == if p(x) then multiset(a)[x] else 0
  {
    if a != [] {
      assert a == [a[0]] + a[1..];
      FilterCount(a[1..], p, x);
    }
  }

  lemma {:induction false} FilterNone<T>(s: seq<T>, p: T -> bool)
    requires forall x | x in s :: !p(x)
    ensures Filter(s, p) == []
  {
    if s != [] {
      assert s[0] in s;
      FilterNone(s[1..], p);
    }
  }

  lemma {:induction false} FilterSame<T>(s: seq<T>, p: T -> bool, q: T -> bool)
    requires forall x | x in s :: p(x) == q(x)
    ensures Filter(s, p) == Filter(s, q)
  {
    if s != [] {
      assert s[0] in s;
      FilterSame(s[1..], p, q);
    }
  }

  lemma FrontLast<T>(s: seq<T>, front: seq<T>, last: T)
    requires s != [] && front == s[..|s| - 1] && last == s[|s| - 1]
    ensures front + [last] == s
  {}

  lemma SnocParts<T>(s: seq<T>, x: T)
    ensures var more := s + [x];
            more != [] && more[..|more| - 1] == s && more[|more| - 1] == x
  {}

  /** No element occurs twice. */
  ghost predicate Distinct<T>(s: seq<T>) {
    forall i, j | 0 <= i < j < |s| :: s[i] != s[j]
  }

  /** All of the pieces, end to end: Python's `"".join(parts)`. */
  function Concat<T>(parts: seq<seq<T>>): (r: seq<T>) {
    if parts == [] then [] else parts[0] + Concat(parts[1..])
  }

  lemma {:induction false} ConcatAppend<T>(a: seq<seq<T>>, b: seq<seq<T>>)
    ensures Concat(a + b) == Concat(a) + Concat(b)
  {
    if a == [] {
      assert a + b == b;
    } else {
      assert (a + b)[1..] == a[1..] + b;
      ConcatAppend(a[1..], b);
    }
  }

  /** Where the first element of a list stands in a permutation of it. */
  lemma PermutationSplit<T(!new)>(a: seq<T>, b: seq<T>) returns (i: nat)
    requires a != [] && multiset(a) == multiset(b)
    ensures i < |b| && b == b[..i] + [a[0]] + b[i + 1..]
    ensures multiset(a[1..]) == multiset(b[..i] + b[i + 1..])
  {
    assert a[0] in multiset(b);
    i :| 0 <= i < |b| && b[i] == a[0];
    assert b == b[..i] + [a[0]] + b[i + 1..];
    assert a == [a[0]] + a[1..];
    assert multiset(a[1..]) == multiset(a) - multiset{a[0]};
    assert multiset(b) == multiset(b[..i]) + multiset{a[0]} + multiset(b[i + 1..]);
    assert multiset(b[..i] + b[i + 1..]) == multiset(b) - multiset{a[0]};
  }

  /** If equal keys go with equal values, permuting the keys permutes the values. */
  lemma {:induction false} PairedPermutation<K(!new), T(!new)>(ks: seq<K>, vs: seq<T>, ks': seq<K>, vs': seq<T>)
    requires |ks| == |vs| && |ks'| == |vs'| && multiset(ks) == multiset(ks')
    requires forall i, j | 0 <= i < |ks| && 0 <= j < |ks'| && ks[i] == ks'[j] :: vs[i] == vs'[j]
    ensures multiset(vs) == multiset(vs')
  {
    if ks == [] {
      assert |multiset(ks')| == 0;
      assert ks' == [] && vs == [] && vs' == [];
    } else {
      var i := PermutationSplit(ks, ks');
      var ks1, vs1 := ks'[..i] + ks'[i + 1..], vs'[..i] + vs'[i + 1..];
      assert ks'[i] == ks[0];
      PairedPermutation(ks[1..], vs[1..], ks1, vs1);
      assert vs == [vs[0]] + vs[1..];
      assert vs' == vs'[..i] + [vs'[i]] + vs'[i + 1..];
    }
  }

  /** The first `n` elements replaced by what `f` makes of them and their partners. */
  function UpdateEach<A, B>(xs: seq<A>, ys: seq<B>, n: nat, f: (A, B) -> A): (r: seq<A>)
    requires n <= |xs| == |ys|
    ensures |r| == |xs|
  {
    if n == 0 then xs else UpdateEach(xs, ys, n - 1, f)[n - 1 := f(xs[n - 1], ys[n - 1])]
  }

  lemma {:induction false} UpdateEachAt<A, B>(xs: seq<A>, ys: seq<B>, n: nat, f: (A, B) -> A, i: nat)
    requires n <= |xs| == |ys| && i < |xs|
    ensures UpdateEach(xs, ys, n, f)[i] == if i < n then f(xs[i], ys[i]) else xs[i]
  {
    if n > 0 {
      UpdateEachAt(xs, ys, n - 1, f, i);
    }
  }
}
