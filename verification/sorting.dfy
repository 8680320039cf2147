/**
 * `Array.prototype.sort` with the comparators the list pages use:
 *
 *     if (A < B) return direction === "asc" ? -1 : 1;
 *     if (A > B) return direction === "asc" ? 1 : -1;
 *     return 0;
 *
 * and the numeric `(a || 0) - (b || 0)`. JavaScript's sort is stable; the
 * model is a stable insertion sort. Keys are strings compared
 * lexicographically (JavaScript `<` on strings, and `localeCompare` taken as
 * the same order) or numbers.
 */
module Sorting {
  import opened Common
  import opened Lists

  datatype Key = Text(s: string) | Num(n: real)

  /** Lexicographic `a <= b` on strings. */
  predicate StrLe(a: string, b: string) {
    a == [] || (b != [] && (a[0] < b[0] || (a[0] == b[0] && StrLe(a[1..], b[1..]))))
  }

  lemma {:induction false} StrLeRefl(a: string)
    ensures StrLe(a, a)
  {
    if a != [] {
      StrLeRefl(a[1..]);
    }
  }

  lemma {:induction false} StrLeTotal(a: string, b: string)
    ensures StrLe(a, b) || StrLe(b, a)
  {
    if a != [] && b != [] && a[0] == b[0] {
      StrLeTotal(a[1..], b[1..]);
    }
  }

  lemma {:induction false} StrLeTrans(a: string, b: string, c: string)
    requires StrLe(a, b) && StrLe(b, c)
    ensures StrLe(a, c)
  {
    if a != [] && b != [] && c != [] && a[0] == b[0] && b[0] == c[0] {
      StrLeTrans(a[1..], b[1..], c[1..]);
    }
  }

  lemma {:induction false} StrLeAntisym(a: string, b: string)
    requires StrLe(a, b) && StrLe(b, a)
    ensures a == b
  {
    if a != [] && b != [] {
      StrLeAntisym(a[1..], b[1..]);
      assert a == [a[0]] + a[1..] && b == [b[0]] + b[1..];
    }
  }

  /** The order on keys: numbers by value, strings lexicographically
      (a list never mixes the two; numbers are put first to make it total). */
  predicate KeyLe(a: Key, b: Key) {
    match (a, b)
    case (Num(x), Num(y)) => x <= y
    case (Text(x), Text(y)) => StrLe(x, y)
    case (Num(_), Text(_)) => true
    case (Text(_), Num(_)) => false
  }

  lemma KeyLeTotal(a: Key, b: Key)
    ensures KeyLe(a, b) || KeyLe(b, a)
  {
    if a.Text? && b.Text? {
      StrLeTotal(a.s, b.s);
    }
  }

  lemma KeyLeRefl(a: Key)
    ensures KeyLe(a, a)
  {
    if a.Text? {
      StrLeRefl(a.s);
    }
  }

  lemma KeyLeTrans(a: Key, b: Key, c: Key)
    requires KeyLe(a, b) && KeyLe(b, c)
    ensures KeyLe(a, c)
  {
    if a.Text? && b.Text? && c.Text? {
      StrLeTrans(a.s, b.s, c.s);
    }
  }

  /** `a` may come before `b` in the requested direction. */
  predicate Precedes(a: Key, b: Key, asc: bool) {
    if asc then KeyLe(a, b) else KeyLe(b, a)
  }

  lemma PrecedesTrans(a: Key, b: Key, c: Key, asc: bool)
    requires Precedes(a, b, asc) && Precedes(b, c, asc)
    ensures Precedes(a, c, asc)
  {
    if asc {
      KeyLeTrans(a, b, c);
    } else {
      KeyLeTrans(c, b, a);
    }
  }

  /** Every pair of elements is in order: non-decreasing keys for an ascending
      sort, non-increasing for a descending one. */
  ghost predicate SortedBy<T>(s: seq<T>, key: T -> Key, asc: bool) {
    forall i, j :: 0 <= i < j < |s| ==> Precedes(key(s[i]), key(s[j]), asc)
  }

  /** An element that may precede every element of a sorted sequence may
      go in front of it. */
  lemma ConsSorted<T>(h: T, s: seq<T>, key: T -> Key, asc: bool)
    requires SortedBy(s, key, asc)
    requires forall j :: 0 <= j < |s| ==> Precedes(key(h), key(s[j]), asc)
    ensures SortedBy([h] + s, key, asc)
  {
    var r := [h] + s;
    forall i, j | 0 <= i < j < |r|
      ensures Precedes(key(r[i]), key(r[j]), asc)
    {
      assert r[j] == s[j - 1];
      if i > 0 {
        assert r[i] == s[i - 1];
      }
    }
  }

  /** What may precede the head of a sorted sequence may precede it all. */
  lemma PrecedesHead<T>(x: T, s: seq<T>, key: T -> Key, asc: bool)
    requires SortedBy(s, key, asc) && s != [] && Precedes(key(x), key(s[0]), asc)
    ensures forall j :: 0 <= j < |s| ==> Precedes(key(x), key(s[j]), asc)
  {
    forall j | 0 <= j < |s| ensures Precedes(key(x), key(s[j]), asc) {
      if j > 0 {
        PrecedesTrans(key(x), key(s[0]), key(s[j]), asc);
      }
    }
  }

  /** The head of a sorted sequence may precede what inserting into its tail
      gives, when it may precede the inserted element. */
  lemma HeadPrecedesRest<T>(s: seq<T>, x: T, rest: seq<T>, key: T -> Key, asc: bool)
    requires s != [] && SortedBy(s, key, asc) && Precedes(key(s[0]), key(x), asc)
    requires multiset(rest) == multiset(s[1..]) + multiset{x}
    ensures forall j :: 0 <= j < |rest| ==> Precedes(key(s[0]), key(rest[j]), asc)
  {
    forall j | 0 <= j < |rest| ensures Precedes(key(s[0]), key(rest[j]), asc) {
      var y := rest[j];
      assert y in multiset(rest);
      if y != x {
        assert y in multiset(s[1..]);
        var k :| 0 <= k < |s[1..]| && s[1..][k] == y;
        assert s[k + 1] == y;
      }
    }
  }

  /** Inserts `x` before the first element it may precede. */
  function Insert<T>(x: T, s: seq<T>, key: T -> Key, asc: bool): (r: seq<T>)
    requires SortedBy(s, key, asc)
    ensures multiset(r) == multiset(s) + multiset{x}
    ensures SortedBy(r, key, asc)
  {
    if s == [] then [x]
    else if Precedes(key(x), key(s[0]), asc) then
      PrecedesHead(x, s, key, asc);
      ConsSorted(x, s, key, asc);
      [x] + s
    else
      KeyLeTotal(key(x), key(s[0]));
      assert s == [s[0]] + s[1..];
      var rest := Insert(x, s[1..], key, asc);
      HeadPrecedesRest(s, x, rest, key, asc);
      ConsSorted(s[0], rest, key, asc);
      [s[0]] + rest
  }

  /** The sorted copy: a permutation of `s`, ordered by `key` in the given
      direction. */
  function SortBy<T>(s: seq<T>, key: T -> Key, asc: bool): (r: seq<T>)
    ensures multiset(r) == multiset(s)
    ensures |r| == |s|
    ensures SortedBy(r, key, asc)
  {
    if s == [] then []
    else
      assert s == [s[0]] + s[1..];
      Insert(s[0], SortBy(s[1..], key, asc), key, asc)
  }

  /** When every key is the same the sort moves nothing (stability). */
  lemma {:induction false} SortByEqualKeys<T>(s: seq<T>, key: T -> Key, asc: bool)
    requires forall i :: 0 <= i < |s| ==> key(s[i]) == key(s[0])
    ensures SortBy(s, key, asc) == s
  {
    if s != [] {
      var t := s[1..];
      assert forall i :: 0 <= i < |t| ==> key(t[i]) == key(t[0]) by {
        if t != [] {
          assert key(t[0]) == key(s[0]);
        }
      }
      SortByEqualKeys(t, key, asc);
      if t != [] {
        KeyLeRefl(key(s[0]));
        assert key(t[0]) == key(s[0]);
      }
      assert [s[0]] + t == s;
    }
  }

  /** The elements whose key is `k`. */
  function WithKey<T>(key: T -> Key, k: Key): T -> bool {
    x => key(x) == k
  }

  /** Inserting `x` puts it before every element of its own key already
      there: among the elements with a given key, `x` comes first. */
  lemma {:induction false} FilterInsert<T>(x: T, t: seq<T>, key: T -> Key, asc: bool, k: Key)
    requires SortedBy(t, key, asc)
    ensures Filter(Insert(x, t, key, asc), WithKey(key, k)) ==
      (if key(x) == k then [x] else []) + Filter(t, WithKey(key, k))
  {
    var p := WithKey(key, k);
    if t == [] || Precedes(key(x), key(t[0]), asc) {
      InsertFront(x, t, key, asc);
      FilterCons(x, t, p);
    } else {
      KeyLeRefl(key(x));
      InsertSkips(x, t, key, asc);
      FilterInsert(x, t[1..], key, asc, k);
      SkipStep(t[0], x, Insert(x, t[1..], key, asc), t[1..], p);
    }
  }

  /** Filtering past a head that the element was inserted after. */
  lemma SkipStep<T>(h: T, x: T, rest: seq<T>, tail: seq<T>, p: T -> bool)
    requires !(p(h) && p(x))
    requires Filter(rest, p) == (if p(x) then [x] else []) + Filter(tail, p)
    ensures Filter([h] + rest, p) == (if p(x) then [x] else []) + Filter([h] + tail, p)
  {
    FilterCons(h, rest, p);
    FilterCons(h, tail, p);
  }

  /** An element that may precede the head is inserted in front. */
  lemma InsertFront<T>(x: T, t: seq<T>, key: T -> Key, asc: bool)
    requires SortedBy(t, key, asc) && (t == [] || Precedes(key(x), key(t[0]), asc))
    ensures Insert(x, t, key, asc) == [x] + t
  {
  }

  /** An element that may not precede the head is inserted after it. */
  lemma InsertSkips<T>(x: T, t: seq<T>, key: T -> Key, asc: bool)
    requires SortedBy(t, key, asc) && t != [] && !Precedes(key(x), key(t[0]), asc)
    ensures SortedBy(t[1..], key, asc)
    ensures Insert(x, t, key, asc) == [t[0]] + Insert(x, t[1..], key, asc)
    ensures t == [t[0]] + t[1..]
  {
    SortedTail(t, key, asc);
  }

  /** The tail of a sorted sequence is sorted. */
  lemma SortedTail<T>(t: seq<T>, key: T -> Key, asc: bool)
    requires SortedBy(t, key, asc) && t != []
    ensures SortedBy(t[1..], key, asc)
  {
    forall i, j | 0 <= i < j < |t| - 1
      ensures Precedes(key(t[1..][i]), key(t[1..][j]), asc)
    {
      assert t[1..][i] == t[i + 1] && t[1..][j] == t[j + 1];
    }
  }

  /** The sort is stable: for every key, the elements with that key come
      out in the order they went in. */
  lemma {:induction false} SortByStable<T>(s: seq<T>, key: T -> Key, asc: bool, k: Key)
    ensures Filter(SortBy(s, key, asc), WithKey(key, k)) == Filter(s, WithKey(key, k))
  {
    if s != [] {
      SortByStable(s[1..], key, asc, k);
      FilterInsert(s[0], SortBy(s[1..], key, asc), key, asc, k);
    }
  }

  // ---------------------------------------------------------------------------
  // `[...new Set(xs)].sort()`
  // ---------------------------------------------------------------------------

  /** Strictly increasing: sorted and without repetitions. */
  predicate StrictlySorted(s: seq<string>) {
    forall i, j :: 0 <= i < j < |s| ==> StrLe(s[i], s[j]) && s[i] != s[j]
  }

  /** Adds `x` to a strictly sorted list unless it is already there. */
  function InsertUnique(x: string, s: seq<string>): (r: seq<string>)
    requires StrictlySorted(s)
    ensures StrictlySorted(r)
    ensures forall y :: y in r <==> y == x || y in s
  {
    if s == [] then [x]
    else if x == s[0] then s
    else if StrLe(x, s[0]) then
      BelowHead(x, s);
      [x] + s
    else
      StrLeTotal(x, s[0]);
      assert s == [s[0]] + s[1..];
      var rest := InsertUnique(x, s[1..]);
      assert forall j :: 0 <= j < |rest| ==> rest[j] in rest;
      [s[0]] + rest
  }

  /** A string below the head of a strictly sorted list, and not its head,
      is below every element and equal to none. */
  lemma BelowHead(x: string, s: seq<string>)
    requires StrictlySorted(s) && s != [] && x != s[0] && StrLe(x, s[0])
    ensures forall j :: 0 <= j < |s| ==> StrLe(x, s[j]) && x != s[j]
  {
    forall j | 0 <= j < |s| ensures StrLe(x, s[j]) && x != s[j] {
      if j > 0 {
        StrLeTrans(x, s[0], s[j]);
        if x == s[j] {
          StrLeAntisym(s[0], s[j]);
        }
      }
    }
  }

  /** The distinct strings of `xs`, sorted. */
  function SortedSet(xs: seq<string>): (r: seq<string>)
    ensures StrictlySorted(r)
    ensures forall y :: y in r <==> y in xs
    ensures |r| <= |xs|
  {
    if xs == [] then []
    else
      var rest := SortedSet(xs[1..]);
      var r := InsertUnique(xs[0], rest);
      assert forall y :: y in xs <==> y == xs[0] || y in xs[1..] by {
        assert xs == [xs[0]] + xs[1..];
      }
      DistinctBound(r, xs);
      r
  }

  /** A list without repetitions is no longer than any list holding all its
      elements. */
  lemma DistinctBound(r: seq<string>, xs: seq<string>)
    requires StrictlySorted(r)
    requires forall y :: y in r ==> y in xs
    ensures |r| <= |xs|
  {
    var rs := set y | y in r;
    var xset := set y | y in xs;
    assert rs <= xset;
    DistinctCard(r);
    SetCardBound(xs);
    assert |rs| <= |xset| by {
      SubsetCard(rs, xset);
    }
  }

  lemma {:induction false} DistinctCard(r: seq<string>)
    requires StrictlySorted(r)
    ensures |set y | y in r| == |r|
  {
    if r != [] {
      DistinctCard(r[1..]);
      SetOfCons(r);
      HeadNotInTail(r);
    }
  }

  lemma SetOfCons(r: seq<string>)
    requires r != []
    ensures (set y | y in r) == {r[0]} + (set y | y in r[1..])
  {
    assert r == [r[0]] + r[1..];
  }

  lemma HeadNotInTail(r: seq<string>)
    requires r != [] && StrictlySorted(r)
    ensures r[0] !in r[1..]
  {
    forall k | 0 <= k < |r| - 1 ensures r[1..][k] != r[0] {
      assert r[1..][k] == r[k + 1];
    }
  }

  lemma {:induction false} SetCardBound(xs: seq<string>)
    ensures |set y | y in xs| <= |xs|
  {
    if xs != [] {
      SetCardBound(xs[1..]);
      SetOfCons(xs);
    }
  }

  lemma {:induction false} SubsetCard(a: set<string>, b: set<string>)
    requires a <= b
    ensures |a| <= |b|
  {
    if a != {} {
      var x :| x in a;
      SubsetCard(a - {x}, b - {x});
    }
  }

  // ---------------------------------------------------------------------------
  // Sort criteria strings `field_direction`
  // ---------------------------------------------------------------------------

  /** What the nav bars emit: `${field}_${direction}`. */
  function Criteria(field: string, direction: string): string {
    field + "_" + direction
  }

  /** What the list pages read back: `const [field, direction] =
      criteria.split('_')`, the sort being ascending exactly when the second
      piece is 'asc' (a missing piece sorts descending). */
  function ParseCriteria(criteria: string): (r: (string, bool)) {
    var parts := Split(criteria, '_');
    (parts[0], |parts| > 1 && parts[1] == "asc")
  }

  /** Splitting the emitted criteria gives back the field and the direction
      when neither holds '_'. */
  lemma CriteriaRoundTrip(field: string, direction: string)
    requires '_' !in field && '_' !in direction
    ensures Split(Criteria(field, direction), '_') == [field, direction]
    ensures ParseCriteria(Criteria(field, direction)) == (field, direction == "asc")
  {
    SplitAppend(field, direction, '_');
    SplitNoSep(direction, '_');
  }
}
