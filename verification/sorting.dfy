/** A stable sort by a string-valued key, the behaviour of Python's
    `sorted(xs, key=...)` when every key is a string. Stability is stated
    through `Filter`: for every key value, the elements carrying it appear
    in the same order before and after sorting. */
module Sorting {
  import opened Strings

  ghost predicate Sorted<T>(key: T -> string, s: seq<T>) {
    forall i, j | 0 <= i < j < |s| :: LexLe(key(s[i]), key(s[j]))
  }

  /** The elements of `s` whose key is `k`, in their order in `s`. */
  ghost function Filter<T>(key: T -> string, s: seq<T>, k: string): seq<T> {
    if |s| == 0 then []
    else (if key(s[0]) == k then [s[0]] else []) + Filter(key, s[1..], k)
  }

  lemma {:induction false} FilterAppend<T>(key: T -> string, a: seq<T>, b: seq<T>, k: string)
    ensures Filter(key, a + b, k) == Filter(key, a, k) + Filter(key, b, k)
    decreases |a|
  {
    if |a| == 0 {
      assert a + b == b;
    } else {
      var h := if key(a[0]) == k then [a[0]] else [];
      assert (a + b)[0] == a[0];
      assert (a + b)[1..] == a[1..] + b;
      assert Filter(key, a + b, k) == h + Filter(key, a[1..] + b, k);
      assert Filter(key, a, k) == h + Filter(key, a[1..], k);
      FilterAppend(key, a[1..], b, k);
      assert h + (Filter(key, a[1..], k) + Filter(key, b, k))
          == (h + Filter(key, a[1..], k)) + Filter(key, b, k);
    }
  }

  /** Every element of a filter carries the filtered key and comes from `s`. */
  lemma {:induction false} FilterElements<T>(key: T -> string, s: seq<T>, k: string)
    ensures forall x | x in Filter(key, s, k) :: key(x) == k && x in s
    decreases |s|
  {
    if |s| > 0 {
      FilterElements(key, s[1..], k);
    }
  }

  lemma SortedTail<T>(key: T -> string, s: seq<T>)
    requires Sorted(key, s) && |s| > 0
    ensures Sorted(key, s[1..])
  {
  }

  /** A smallest element may be put in front of a sorted sequence. */
  lemma PrependSmallest<T>(key: T -> string, y: T, t: seq<T>)
    requires Sorted(key, t)
    requires forall x | x in t :: LexLe(key(y), key(x))
    ensures Sorted(key, [y] + t)
  {
    forall i, j | 0 <= i < j < |[y] + t|
      ensures LexLe(key(([y] + t)[i]), key(([y] + t)[j]))
    {
      if i > 0 {
        assert ([y] + t)[i] == t[i - 1];
      }
      assert ([y] + t)[j] == t[j - 1];
      assert t[j - 1] in t;
    }
  }

  /** Inserts `x` into sorted `s` in front of the first element whose key is
      not smaller, so that `x` precedes the elements with an equal key. */
  function Insert<T>(key: T -> string, x: T, s: seq<T>): (r: seq<T>)
    requires Sorted(key, s)
    ensures Sorted(key, r)
    ensures multiset(r) == multiset(s) + multiset{x}
  {
    if |s| == 0 then [x]
    else if LexLe(key(x), key(s[0])) then
      InsertInFront(key, x, s);
      [x] + s
    else
      SortedTail(key, s);
      var t := Insert(key, x, s[1..]);
      InsertBehind(key, x, s, t);
      [s[0]] + t
  }

  /** `x` no larger than the head of sorted `s` may go in front of it. */
  lemma InsertInFront<T>(key: T -> string, x: T, s: seq<T>)
    requires Sorted(key, s) && |s| > 0 && LexLe(key(x), key(s[0]))
    ensures Sorted(key, [x] + s)
  {
    forall y | y in s ensures LexLe(key(x), key(y)) {
      var j :| 0 <= j < |s| && s[j] == y;
      if j > 0 { LexLeTransitive(key(x), key(s[0]), key(s[j])); }
    }
    PrependSmallest(key, x, s);
  }

  /** When `x` is larger than the head of sorted `s`, the head stays in front
      of the sorted insertion `t` of `x` into the rest. */
  lemma InsertBehind<T>(key: T -> string, x: T, s: seq<T>, t: seq<T>)
    requires Sorted(key, s) && |s| > 0 && !LexLe(key(x), key(s[0]))
    requires Sorted(key, t) && multiset(t) == multiset(s[1..]) + multiset{x}
    ensures Sorted(key, [s[0]] + t)
    ensures multiset([s[0]] + t) == multiset(s) + multiset{x}
  {
    LexLeTotal(key(x), key(s[0]));
    assert s == [s[0]] + s[1..];
    forall y | y in t ensures LexLe(key(s[0]), key(y)) {
      assert y in multiset(t);
      if y != x {
        assert y in multiset(s[1..]);
        var j :| 0 <= j < |s[1..]| && s[1..][j] == y;
        assert s[j + 1] == y;
      }
    }
    PrependSmallest(key, s[0], t);
  }

  /** Insertion sort; stable because each element is inserted in front of
      the equal-keyed elements that followed it in the input. */
  function StableSort<T>(key: T -> string, s: seq<T>): (r: seq<T>)
    ensures Sorted(key, r)
    ensures multiset(r) == multiset(s)
    ensures |r| == |s|
  {
    if |s| == 0 then []
    else
      assert s == [s[0]] + s[1..];
      var r := Insert(key, s[0], StableSort(key, s[1..]));
      assert |r| == |multiset(r)|;
      r
  }

  lemma {:induction false} InsertFilter<T>(key: T -> string, x: T, s: seq<T>, k: string)
    requires Sorted(key, s)
    ensures Filter(key, Insert(key, x, s), k) == Filter(key, [x], k) + Filter(key, s, k)
    decreases |s|
  {
    if |s| == 0 {
      assert Insert(key, x, s) == [x] + s;
      FilterAppend(key, [x], s, k);
    } else if LexLe(key(x), key(s[0])) {
      assert Insert(key, x, s) == [x] + s;
      FilterAppend(key, [x], s, k);
    } else {
      SortedTail(key, s);
      var t := Insert(key, x, s[1..]);
      assert Insert(key, x, s) == [s[0]] + t;
      InsertFilter(key, x, s[1..], k);
      LexLeReflexive(key(x));
      assert key(x) != key(s[0]);
      FilterAppend(key, [s[0]], t, k);
      FilterAppend(key, [s[0]], s[1..], k);
      assert s == [s[0]] + s[1..];
    }
  }

  /** Two elements out of order are swapped. */
  lemma SortTwo<T>(key: T -> string, a: T, b: T)
    requires !LexLe(key(a), key(b))
    ensures StableSort(key, [a, b]) == [b, a]
  {
    assert [a, b][1..] == [b];
    assert [b][1..] == [];
    assert StableSort(key, [b]) == [b];
    assert Insert(key, a, [b]) == [b] + Insert(key, a, []);
  }

  /** Stability: for every key, the sort keeps the input order of the
      elements that carry it. */
  lemma {:induction false} StableSortKeepsOrder<T>(key: T -> string, s: seq<T>)
    ensures forall k :: Filter(key, StableSort(key, s), k) == Filter(key, s, k)
    decreases |s|
  {
    if |s| > 0 {
      StableSortKeepsOrder(key, s[1..]);
      forall k ensures Filter(key, StableSort(key, s), k) == Filter(key, s, k) {
        InsertFilter(key, s[0], StableSort(key, s[1..]), k);
      }
    }
  }

  /** Two sorted sequences with the same per-key filters start with the same element. */
  lemma {:induction false} SortedHeadsAgree<T>(key: T -> string, a: seq<T>, b: seq<T>)
    requires Sorted(key, a) && Sorted(key, b) && |a| > 0 && |b| > 0
    requires forall k :: Filter(key, a, k) == Filter(key, b, k)
    ensures a[0] == b[0]
  {
    var ka := key(a[0]);
    var kb := key(b[0]);
    assert Filter(key, a, ka) == Filter(key, b, ka);
    assert Filter(key, a, kb) == Filter(key, b, kb);
    // a holds an element with key kb and b one with key ka, and both start smallest.
    assert LexLe(ka, kb) by {
      FilterElements(key, a, kb);
      var y := Filter(key, a, kb)[0];
      assert y in Filter(key, a, kb);
      var j :| 0 <= j < |a| && a[j] == y;
      if j == 0 { LexLeReflexive(ka); }
    }
    assert LexLe(kb, ka) by {
      FilterElements(key, b, ka);
      var y := Filter(key, b, ka)[0];
      assert y in Filter(key, b, ka);
      var j :| 0 <= j < |b| && b[j] == y;
      if j == 0 { LexLeReflexive(kb); }
    }
    LexLeAntisymmetric(ka, kb);
    assert Filter(key, a, ka)[0] == a[0];
    assert Filter(key, b, ka)[0] == b[0];
  }

  /** Equal filters with an equal head leave equal filters on the tails. */
  lemma FilterTailsAgree<T>(key: T -> string, a: seq<T>, b: seq<T>)
    requires |a| > 0 && |b| > 0 && a[0] == b[0]
    requires forall k :: Filter(key, a, k) == Filter(key, b, k)
    ensures forall k :: Filter(key, a[1..], k) == Filter(key, b[1..], k)
  {
    forall k ensures Filter(key, a[1..], k) == Filter(key, b[1..], k) {
      var head := if key(a[0]) == k then [a[0]] else [];
      assert Filter(key, a, k) == head + Filter(key, a[1..], k);
      assert Filter(key, b, k) == head + Filter(key, b[1..], k);
      assert Filter(key, a[1..], k) == (head + Filter(key, a[1..], k))[|head|..];
      assert Filter(key, b[1..], k) == (head + Filter(key, b[1..], k))[|head|..];
    }
  }

  /** A sorted sequence is determined by the order it keeps within each key:
      sortedness plus stability pin down the result of any stable sort. */
  lemma {:induction false} SortedUnique<T>(key: T -> string, a: seq<T>, b: seq<T>)
    requires Sorted(key, a) && Sorted(key, b)
    requires forall k :: Filter(key, a, k) == Filter(key, b, k)
    ensures a == b
    decreases |a|
  {
    if |a| == 0 {
      assert Filter(key, a, if |b| > 0 then key(b[0]) else []) == [];
    } else {
      assert Filter(key, a, key(a[0])) != [];
      assert Filter(key, a, key(a[0])) == Filter(key, b, key(a[0]));
      SortedHeadsAgree(key, a, b);
      FilterTailsAgree(key, a, b);
      SortedTail(key, a);
      SortedTail(key, b);
      SortedUnique(key, a[1..], b[1..]);
      assert a == [a[0]] + a[1..];
      assert b == [b[0]] + b[1..];
    }
  }

  /** Sorting a suffix first changes nothing: `sorted(a + sorted(b))` equals
      `sorted(a + b)`. */
  lemma SortAfterSortedSuffix<T>(key: T -> string, a: seq<T>, b: seq<T>)
    ensures StableSort(key, a + StableSort(key, b)) == StableSort(key, a + b)
  {
    var lhs := StableSort(key, a + StableSort(key, b));
    var rhs := StableSort(key, a + b);
    StableSortKeepsOrder(key, a + StableSort(key, b));
    StableSortKeepsOrder(key, a + b);
    StableSortKeepsOrder(key, b);
    forall k ensures Filter(key, lhs, k) == Filter(key, rhs, k) {
      FilterAppend(key, a, StableSort(key, b), k);
      FilterAppend(key, a, b, k);
    }
    SortedUnique(key, lhs, rhs);
  }
}
