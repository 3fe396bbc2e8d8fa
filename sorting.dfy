/** Python's `sorted(xs, key=...)` is a stable sort. A stable sort's output is
    unique, so it is modelled here by a stable insertion sort on a "less than
    or equal" relation derived from the key. */
module Sorting {

  ghost predicate TotalPreorder<T(!new)>(le: (T, T) -> bool) {
    && (forall a, b :: le(a, b) || le(b, a))
    && (forall a, b, c :: le(a, b) && le(b, c) ==> le(a, c))
  }

  ghost predicate SortedBy<T>(s: seq<T>, le: (T, T) -> bool) {
    forall i, j :: 0 <= i < j < |s| ==> le(s[i], s[j])
  }

  /** Puts `x` in front of the first element it does not exceed, that is, after
      every element strictly smaller than it and before every element equal to it. */
  function Insert<T>(x: T, t: seq<T>, le: (T, T) -> bool): (r: seq<T>)
    ensures multiset(r) == multiset(t) + multiset{x}
    ensures |r| == |t| + 1
  {
    if t == [] || le(x, t[0]) then [x] + t
    else
      assert t == [t[0]] + t[1..];
      [t[0]] + Insert(x, t[1..], le)
  }

  /** Stable sort: earlier elements are inserted after later, equal ones are seen. */
  function SortBy<T>(s: seq<T>, le: (T, T) -> bool): (r: seq<T>)
    ensures multiset(r) == multiset(s)
    ensures |r| == |s|
  {
    if s == [] then []
    else
      assert s == [s[0]] + s[1..];
      Insert(s[0], SortBy(s[1..], le), le)
  }

  lemma {:induction false} InsertSorted<T(!new)>(x: T, t: seq<T>, le: (T, T) -> bool)
    requires TotalPreorder(le)
    requires SortedBy(t, le)
    ensures SortedBy(Insert(x, t, le), le)
    decreases |t|
  {
    if t == [] || le(x, t[0]) {
    } else {
      var rest := Insert(x, t[1..], le);
      InsertSorted(x, t[1..], le);
      assert le(t[0], x);
      InsertMembers(x, t[1..], le);
      forall y | y in rest ensures le(t[0], y) {
        if y != x {
          var k :| 0 <= k < |t[1..]| && t[1..][k] == y;
          assert t[k + 1] == y;
        }
      }
      var r := [t[0]] + rest;
      forall i, j | 0 <= i < j < |r| ensures le(r[i], r[j]) {
        if i == 0 {
          assert r[j] == rest[j - 1];
          assert r[j] in rest;
        } else {
          assert r[i] == rest[i - 1] && r[j] == rest[j - 1];
        }
      }
    }
  }

  /** The stable insertion sort produces a sorted sequence. */
  lemma {:induction false} SortBySorted<T(!new)>(s: seq<T>, le: (T, T) -> bool)
    requires TotalPreorder(le)
    ensures SortedBy(SortBy(s, le), le)
    decreases |s|
  {
    if s != [] {
      SortBySorted(s[1..], le);
      InsertSorted(s[0], SortBy(s[1..], le), le);
    }
  }

  /** No two elements share a key. */
  ghost predicate DistinctBy<T, K>(s: seq<T>, key: T -> K) {
    forall i, j :: 0 <= i < j < |s| ==> key(s[i]) != key(s[j])
  }

  /** What `Insert` returns holds the inserted element and those it was given. */
  lemma InsertMembers<T>(x: T, t: seq<T>, le: (T, T) -> bool)
    ensures forall y :: y in Insert(x, t, le) ==> y == x || y in t
  {
    forall y | y in Insert(x, t, le) ensures y == x || y in t {
      assert y in multiset(Insert(x, t, le));
    }
  }

  lemma {:induction false} InsertDistinct<T, K>(x: T, t: seq<T>, le: (T, T) -> bool, key: T -> K)
    requires DistinctBy(t, key) && forall y :: y in t ==> key(y) != key(x)
    ensures DistinctBy(Insert(x, t, le), key)
    decreases |t|
  {
    if !(t == [] || le(x, t[0])) {
      assert forall y :: y in t[1..] ==> y in t;
      InsertDistinct(x, t[1..], le, key);
      var rest := Insert(x, t[1..], le);
      InsertMembers(x, t[1..], le);
      forall y | y in rest ensures key(y) != key(t[0]) {
        if y != x {
          var k :| 0 <= k < |t[1..]| && t[1..][k] == y;
          assert t[k + 1] == y;
        }
      }
      var r := [t[0]] + rest;
      forall i, j | 0 <= i < j < |r| ensures key(r[i]) != key(r[j]) {
        if i == 0 {
          assert r[j] == rest[j - 1];
        } else {
          assert r[i] == rest[i - 1] && r[j] == rest[j - 1];
        }
      }
    }
  }

  /** Sorting keeps keys distinct, since it only permutes. */
  lemma {:induction false} SortByDistinct<T, K>(s: seq<T>, le: (T, T) -> bool, key: T -> K)
    requires DistinctBy(s, key)
    ensures DistinctBy(SortBy(s, le), key)
    decreases |s|
  {
    if s != [] {
      SortByDistinct(s[1..], le, key);
      var r := SortBy(s[1..], le);
      forall y | y in r ensures key(y) != key(s[0]) {
        assert y in multiset(s[1..]);
        var k :| 0 <= k < |s[1..]| && s[1..][k] == y;
        assert s[k + 1] == y;
      }
      InsertDistinct(s[0], r, le, key);
    }
  }

  /** The sort only consults the order on the elements it is given. */
  lemma {:induction false} SortByCongruent<T>(s: seq<T>, le1: (T, T) -> bool, le2: (T, T) -> bool)
    requires forall a, b :: a in s && b in s ==> le1(a, b) == le2(a, b)
    ensures SortBy(s, le1) == SortBy(s, le2)
    decreases |s|
  {
    if s != [] {
      var tail := s[1..];
      assert forall a :: a in tail ==> a in s;
      SortByCongruent(tail, le1, le2);
      var t := SortBy(tail, le1);
      forall b | b in t
        ensures b in s
      {
        assert b in multiset(t);
        assert b in multiset(tail);
      }
      InsertCongruent(s[0], t, le1, le2);
    }
  }

  lemma {:induction false} InsertCongruent<T>(x: T, t: seq<T>, le1: (T, T) -> bool, le2: (T, T) -> bool)
    requires forall b :: b in t ==> le1(x, b) == le2(x, b)
    ensures Insert(x, t, le1) == Insert(x, t, le2)
    decreases |t|
  {
    if t != [] && !le1(x, t[0]) {
      assert forall b :: b in t[1..] ==> b in t;
      InsertCongruent(x, t[1..], le1, le2);
    }
  }

  /** The elements the order ranks equal to `y`, in sequence order. */
  function Equivalents<T>(s: seq<T>, y: T, le: (T, T) -> bool): (r: seq<T>)
    ensures forall z :: z in r ==> z in s && le(z, y) && le(y, z)
    decreases |s|
  {
    if s == [] then []
    else (if le(s[0], y) && le(y, s[0]) then [s[0]] else []) + Equivalents(s[1..], y, le)
  }

  /** Inserting `x` puts it ahead of every element it ranks equal to: every
      element `Insert` passes over is strictly smaller than `x`. */
  lemma {:induction false} InsertEquivalents<T(!new)>(x: T, t: seq<T>, y: T, le: (T, T) -> bool)
    requires TotalPreorder(le)
    ensures Equivalents(Insert(x, t, le), y, le) == Equivalents([x], y, le) + Equivalents(t, y, le)
    decreases |t|
  {
    if t == [] || le(x, t[0]) {
      assert ([x] + t)[1..] == t;
    } else {
      InsertEquivalents(x, t[1..], y, le);
      var rest := Insert(x, t[1..], le);
      assert ([t[0]] + rest)[1..] == rest;
      assert le(t[0], x);
    }
  }

  /** `sorted` is stable: the elements of each class the order ranks equal
      come out in the order they went in. */
  lemma {:induction false} SortByStable<T(!new)>(s: seq<T>, y: T, le: (T, T) -> bool)
    requires TotalPreorder(le)
    ensures Equivalents(SortBy(s, le), y, le) == Equivalents(s, y, le)
    decreases |s|
  {
    if s != [] {
      SortByStable(s[1..], y, le);
      InsertEquivalents(s[0], SortBy(s[1..], le), y, le);
      EquivalentsCons(s, y, le);
    }
  }

  lemma EquivalentsCons<T>(s: seq<T>, y: T, le: (T, T) -> bool)
    requires s != []
    ensures Equivalents(s, y, le) == Equivalents([s[0]], y, le) + Equivalents(s[1..], y, le)
  {
    assert [s[0]][1..] == [];
  }
}
