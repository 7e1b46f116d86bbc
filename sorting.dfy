/** The stable sort of `Array.prototype.sort`, as a functional insertion
    sort over an ordering `le` ("may come before"). */
module Sorting {

  /** `le` is total and transitive: a comparator that sorts consistently. */
  ghost predicate TotalPreorder<T(!new)>(le: (T, T) -> bool) {
    (forall a, b :: le(a, b) || le(b, a)) &&
    (forall a, b, c :: le(a, b) && le(b, c) ==> le(a, c))
  }

  predicate Sorted<T>(s: seq<T>, le: (T, T) -> bool) {
    forall i, j :: 0 <= i < j < |s| ==> le(s[i], s[j])
  }

  /** Puts `x` in front of the first element it may precede; everything it
      passes over sorts strictly before it, so the insertion is stable. */
  function Insert<T>(x: T, s: seq<T>, le: (T, T) -> bool): (r: seq<T>)
    ensures multiset(r) == multiset(s) + multiset{x}
    ensures |r| == |s| + 1
  {
    if s == [] || le(x, s[0]) then [x] + s
    else
      assert s == [s[0]] + s[1..];
      [s[0]] + Insert(x, s[1..], le)
  }

  function InsertionSort<T>(s: seq<T>, le: (T, T) -> bool): (r: seq<T>)
    ensures multiset(r) == multiset(s)
    ensures |r| == |s|
  {
    if s == [] then []
    else
      assert s == [s[0]] + s[1..];
      Insert(s[0], InsertionSort(s[1..], le), le)
  }

  lemma {:induction false} InsertSorted<T(!new)>(x: T, s: seq<T>, le: (T, T) -> bool)
    requires TotalPreorder(le)
    requires Sorted(s, le)
    ensures Sorted(Insert(x, s, le), le)
  {
    if s != [] && !le(x, s[0]) {
      InsertSorted(x, s[1..], le);
      var r := Insert(x, s, le);
      var t := Insert(x, s[1..], le);
      assert r == [s[0]] + t;
      assert le(s[0], x);
      forall j | 0 < j < |r| ensures le(s[0], r[j]) {
        var e := r[j];
        assert e in multiset(t);
        assert e in multiset(s[1..]) || e == x;
        if e != x {
          assert e in s[1..];
          var k :| 0 <= k < |s[1..]| && s[1..][k] == e;
          assert s[k + 1] == e;
        }
      }
    }
  }

  /** The result of the sort is ordered by `le` (and, by the contract of
      `InsertionSort`, is a permutation of the input). */
  lemma {:induction false} InsertionSortSorted<T(!new)>(s: seq<T>, le: (T, T) -> bool)
    requires TotalPreorder(le)
    ensures Sorted(InsertionSort(s, le), le)
  {
    if s != [] {
      InsertionSortSorted(s[1..], le);
      InsertSorted(s[0], InsertionSort(s[1..], le), le);
    }
  }

  /** Sorting an already sorted sequence leaves it unchanged. */
  lemma {:induction false} InsertionSortOfSorted<T>(s: seq<T>, le: (T, T) -> bool)
    requires Sorted(s, le)
    ensures InsertionSort(s, le) == s
  {
    if s != [] {
      assert Sorted(s[1..], le);
      InsertionSortOfSorted(s[1..], le);
      if |s| > 1 {
        assert le(s[0], s[1..][0]);
      }
      assert s == [s[0]] + s[1..];
    }
  }

  /** The elements of `s` that `le` ranks level with `x`, in their order in `s`. */
  function Equivalents<T>(s: seq<T>, x: T, le: (T, T) -> bool): seq<T> {
    if s == [] then []
    else (if le(s[0], x) && le(x, s[0]) then [s[0]] else []) + Equivalents(s[1..], x, le)
  }

  lemma {:induction false} InsertEquivalents<T(!new)>(y: T, t: seq<T>, x: T, le: (T, T) -> bool)
    requires TotalPreorder(le)
    ensures Equivalents(Insert(y, t, le), x, le)
         == (if le(y, x) && le(x, y) then [y] else []) + Equivalents(t, x, le)
  {
    var r := Insert(y, t, le);
    if t != [] && !le(y, t[0]) {
      InsertEquivalents(y, t[1..], x, le);
      assert r[0] == t[0] && r[1..] == Insert(y, t[1..], le);
      var skipped := !(le(t[0], x) && le(x, t[0]));
      if le(y, x) && le(x, y) {
        assert skipped;
      }
      assert Equivalents(r, x, le) == (if skipped then [] else [t[0]]) + Equivalents(r[1..], x, le);
      assert Equivalents(t, x, le) == (if skipped then [] else [t[0]]) + Equivalents(t[1..], x, le);
    } else {
      assert r[0] == y && r[1..] == t;
    }
  }

  /** The sort is stable: elements ranked level with one another keep their
      relative order. */
  lemma {:induction false} InsertionSortStable<T(!new)>(s: seq<T>, x: T, le: (T, T) -> bool)
    requires TotalPreorder(le)
    ensures Equivalents(InsertionSort(s, le), x, le) == Equivalents(s, x, le)
  {
    if s != [] {
      InsertionSortStable(s[1..], x, le);
      InsertEquivalents(s[0], InsertionSort(s[1..], le), x, le);
    }
  }
}
