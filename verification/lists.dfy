/**
 * `Array.prototype.filter` and the subsequence relation it establishes.
 * Every list page of the front end builds its visible rows by chaining
 * filters; the lemmas here are what those pages' contracts rest on.
 */
module Lists {

  /** `a` is `b` with some elements removed, the rest kept in order. */
  predicate IsSubsequence<T(==)>(a: seq<T>, b: seq<T>)
    decreases |b|
  {
    if a == [] then true
    else if b == [] then false
    else (a[0] == b[0] && IsSubsequence(a[1..], b[1..])) || IsSubsequence(a, b[1..])
  }

  lemma {:induction false} SubsequenceRefl<T>(a: seq<T>)
    ensures IsSubsequence(a, a)
  {
    if a != [] {
      SubsequenceRefl(a[1..]);
    }
  }

  lemma {:induction false} SubsequenceTrans<T>(a: seq<T>, b: seq<T>, c: seq<T>)
    requires IsSubsequence(a, b) && IsSubsequence(b, c)
    ensures IsSubsequence(a, c)
    decreases |c|
  {
    if a != [] {
      assert b != [] && c != [];
      if IsSubsequence(b, c[1..]) {
        SubsequenceTrans(a, b, c[1..]);
      } else if a[0] == b[0] && IsSubsequence(a[1..], b[1..]) {
        SubsequenceTrans(a[1..], b[1..], c[1..]);
      } else {
        SubsequenceTrans(a, b[1..], c[1..]);
      }
    }
  }

  lemma {:induction false} SubsequenceMembers<T>(a: seq<T>, b: seq<T>)
    requires IsSubsequence(a, b)
    ensures forall x :: x in a ==> x in b
    ensures |a| <= |b|
    decreases |b|
  {
    if a != [] {
      if a[0] == b[0] && IsSubsequence(a[1..], b[1..]) {
        SubsequenceMembers(a[1..], b[1..]);
        assert a == [a[0]] + a[1..];
      } else {
        SubsequenceMembers(a, b[1..]);
      }
    }
  }

  /** Two positions of a subsequence come from two positions of the
      original list, in the same order. */
  lemma {:induction false} SubsequenceIndices<T>(a: seq<T>, b: seq<T>, i: nat, j: nat)
    requires IsSubsequence(a, b) && i < j < |a|
    ensures exists k, l :: 0 <= k < l < |b| && b[k] == a[i] && b[l] == a[j]
    decreases |b|
  {
    if a[0] == b[0] && IsSubsequence(a[1..], b[1..]) {
      if i == 0 {
        SubsequenceMembers(a[1..], b[1..]);
        assert a[j] == a[1..][j - 1];
        assert a[j] in a[1..];
        assert a[j] in b[1..];
        var l :| 0 <= l < |b[1..]| && b[1..][l] == a[j];
        assert b[0] == a[0] && b[l + 1] == a[j];
      } else {
        SubsequenceIndices(a[1..], b[1..], i - 1, j - 1);
        var k, l :| 0 <= k < l < |b[1..]| && b[1..][k] == a[1..][i - 1] && b[1..][l] == a[1..][j - 1];
        assert b[k + 1] == a[i] && b[l + 1] == a[j];
      }
    } else {
      SubsequenceIndices(a, b[1..], i, j);
      var k, l :| 0 <= k < l < |b[1..]| && b[1..][k] == a[i] && b[1..][l] == a[j];
      assert b[k + 1] == a[i] && b[l + 1] == a[j];
    }
  }

  /** `xs.filter(p)` */
  function Filter<T>(xs: seq<T>, p: T -> bool): (r: seq<T>)
    ensures |r| <= |xs|
    ensures forall i :: 0 <= i < |r| ==> p(r[i])
    ensures forall x :: x in r ==> x in xs
  {
    if xs == [] then []
    else if p(xs[0]) then [xs[0]] + Filter(xs[1..], p)
    else Filter(xs[1..], p)
  }

  /** Filtering a list with a given head. */
  lemma FilterCons<T>(h: T, rest: seq<T>, p: T -> bool)
    ensures Filter([h] + rest, p) == (if p(h) then [h] else []) + Filter(rest, p)
  {
    assert ([h] + rest)[1..] == rest;
  }

  /** The filtered list is a subsequence of the input that keeps every
      element the predicate accepts and drops every element it rejects. */
  lemma {:induction false} FilterSpec<T>(xs: seq<T>, p: T -> bool)
    ensures IsSubsequence(Filter(xs, p), xs)
    ensures forall x :: x in xs && p(x) ==> x in Filter(xs, p)
    ensures forall x :: x in xs && !p(x) ==> x !in Filter(xs, p)
  {
    if xs != [] {
      FilterSpec(xs[1..], p);
      if p(xs[0]) {
        assert Filter(xs, p)[1..] == Filter(xs[1..], p);
      }
    }
  }

  /** What holds of every element holds of every kept one. */
  lemma {:induction false} FilterKeeps<T>(xs: seq<T>, p: T -> bool, q: T -> bool)
    requires forall i :: 0 <= i < |xs| ==> q(xs[i])
    ensures forall i :: 0 <= i < |Filter(xs, p)| ==> q(Filter(xs, p)[i])
  {
    if xs != [] {
      FilterKeeps(xs[1..], p, q);
    }
  }

  /** A predicate that accepts everything keeps the whole list. */
  lemma {:induction false} FilterAll<T>(xs: seq<T>, p: T -> bool)
    requires forall x :: x in xs ==> p(x)
    ensures Filter(xs, p) == xs
  {
    if xs != [] {
      FilterAll(xs[1..], p);
      assert [xs[0]] + xs[1..] == xs;
    }
  }

  /** Filtering distributes over concatenation. */
  lemma {:induction false} FilterAppend<T>(a: seq<T>, b: seq<T>, p: T -> bool)
    ensures Filter(a + b, p) == Filter(a, p) + Filter(b, p)
  {
    if a == [] {
      assert a + b == b;
    } else {
      assert (a + b)[0] == a[0] && (a + b)[1..] == a[1..] + b;
      FilterAppend(a[1..], b, p);
    }
  }

  /** Two filters in a row keep what both predicates accept. */
  lemma {:induction false} FilterFilter<T>(xs: seq<T>, p: T -> bool, q: T -> bool, pq: T -> bool)
    requires forall x :: pq(x) == (p(x) && q(x))
    ensures Filter(Filter(xs, p), q) == Filter(xs, pq)
  {
    if xs != [] {
      FilterFilter(xs[1..], p, q, pq);
      if p(xs[0]) {
        assert Filter(xs, p) == [xs[0]] + Filter(xs[1..], p);
        assert Filter(xs, p)[1..] == Filter(xs[1..], p);
      }
    }
  }

  /** Number of elements accepted by `p`. */
  function CountWhere<T>(xs: seq<T>, p: T -> bool): nat {
    if xs == [] then 0 else (if p(xs[0]) then 1 else 0) + CountWhere(xs[1..], p)
  }

  lemma {:induction false} FilterLength<T>(xs: seq<T>, p: T -> bool)
    ensures |Filter(xs, p)| == CountWhere(xs, p)
  {
    if xs != [] {
      FilterLength(xs[1..], p);
    }
  }

  /** Counting over a list extended at the end, as a `forEach` does. */
  lemma {:induction false} CountWhereSnoc<T>(xs: seq<T>, x: T, p: T -> bool)
    ensures CountWhere(xs + [x], p) == CountWhere(xs, p) + (if p(x) then 1 else 0)
  {
    if xs != [] {
      assert (xs + [x])[1..] == xs[1..] + [x];
      CountWhereSnoc(xs[1..], x, p);
    }
  }

  /** Only an element the predicate accepts can be counted. */
  lemma {:induction false} CountWherePositive<T>(xs: seq<T>, p: T -> bool)
    ensures CountWhere(xs, p) > 0 <==> exists i :: 0 <= i < |xs| && p(xs[i])
  {
    if xs != [] {
      CountWherePositive(xs[1..], p);
      if CountWhere(xs[1..], p) > 0 {
        var i :| 0 <= i < |xs[1..]| && p(xs[1..][i]);
        assert p(xs[i + 1]);
      }
      if exists i :: 0 <= i < |xs| && p(xs[i]) {
        var i :| 0 <= i < |xs| && p(xs[i]);
        if i > 0 {
          assert p(xs[1..][i - 1]);
        }
      }
    }
  }

  /** Predicates that agree on every element count the same. */
  lemma {:induction false} CountWhereEquiv<T>(xs: seq<T>, p: T -> bool, q: T -> bool)
    requires forall x :: p(x) == q(x)
    ensures CountWhere(xs, p) == CountWhere(xs, q)
  {
    if xs != [] {
      CountWhereEquiv(xs[1..], p, q);
    }
  }

  lemma {:induction false} CountWhereBound<T>(xs: seq<T>, p: T -> bool)
    ensures CountWhere(xs, p) <= |xs|
  {
    if xs != [] {
      CountWhereBound(xs[1..], p);
    }
  }

  lemma MapAppend<T, U>(a: seq<T>, b: seq<T>, f: T -> U)
    ensures Map(a + b, f) == Map(a, f) + Map(b, f)
  {
  }

  /** No element twice. */
  predicate Distinct<T(==)>(s: seq<T>) {
    forall i, j :: 0 <= i < j < |s| ==> s[i] != s[j]
  }

  lemma DistinctCons<T>(h: T, r: seq<T>)
    requires Distinct(r) && h !in r
    ensures Distinct([h] + r)
  {
    var s := [h] + r;
    forall i, j | 0 <= i < j < |s|
      ensures s[i] != s[j]
    {
      assert s[j] == r[j - 1];
      if i > 0 {
        assert s[i] == r[i - 1];
      }
    }
  }

  /** A list starting with `h` keeps `h` in front of any subsequence of
      the rest. */
  lemma SubsequenceCons<T>(h: T, a: seq<T>, b: seq<T>)
    requires IsSubsequence(a, b)
    ensures IsSubsequence([h] + a, [h] + b)
  {
    assert ([h] + a)[1..] == a && ([h] + b)[1..] == b;
  }

  /** `[...new Set(xs)]`: each element once, keeping the order of the list
      (the first occurrence of each). */
  function Dedup<T(==,!new)>(xs: seq<T>): (r: seq<T>)
    ensures forall x :: x in r <==> x in xs
    ensures Distinct(r)
    ensures IsSubsequence(r, xs)
    decreases |xs|
  {
    if xs == [] then []
    else
      var p := (x: T) => x != xs[0];
      var rest := Filter(xs[1..], p);
      FilterSpec(xs[1..], p);
      var r := Dedup(rest);
      assert xs[0] !in r;
      DistinctCons(xs[0], r);
      SubsequenceTrans(r, rest, xs[1..]);
      SubsequenceCons(xs[0], r, xs[1..]);
      assert xs == [xs[0]] + xs[1..];
      [xs[0]] + r
  }

  /** A permutation of a list without repetitions has none either. */
  lemma {:induction false} DistinctPermutation<T>(a: seq<T>, b: seq<T>)
    requires multiset(a) == multiset(b) && Distinct(b)
    ensures Distinct(a)
  {
    forall i, j | 0 <= i < j < |a|
      ensures a[i] != a[j]
    {
      if a[i] == a[j] {
        MultiplicityOfTwo(a, i, j);
        MultiplicityOfDistinct(b, a[i]);
        assert false;
      }
    }
  }

  lemma MultiplicityOfTwo<T>(a: seq<T>, i: nat, j: nat)
    requires i < j < |a| && a[i] == a[j]
    ensures multiset(a)[a[i]] >= 2
  {
    assert a == a[..i] + [a[i]] + a[i + 1..j] + [a[j]] + a[j + 1..];
  }

  lemma {:induction false} MultiplicityOfDistinct<T>(b: seq<T>, x: T)
    requires Distinct(b)
    ensures multiset(b)[x] <= 1
  {
    if b != [] {
      assert Distinct(b[1..]) by {
        forall i, j | 0 <= i < j < |b[1..]| ensures b[1..][i] != b[1..][j] {
          assert b[1..][i] == b[i + 1] && b[1..][j] == b[j + 1];
        }
      }
      MultiplicityOfDistinct(b[1..], x);
      assert b == [b[0]] + b[1..];
      if x == b[0] {
        forall k | 0 <= k < |b[1..]|
          ensures b[1..][k] != x
        {
          assert b[1..][k] == b[k + 1];
        }
      }
    }
  }

  /** `xs.map(f)` */
  function Map<T, U>(xs: seq<T>, f: T -> U): (r: seq<U>)
    ensures |r| == |xs|
    ensures forall i :: 0 <= i < |xs| ==> r[i] == f(xs[i])
  {
    seq(|xs|, i requires 0 <= i < |xs| => f(xs[i]))
  }
}
