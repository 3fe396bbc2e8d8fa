/** `sorted(list(set(xs)))` on strings: the distinct elements in increasing
    order, used for merged dependency lists and for the JSON statistics. */
module SortedSets {
  import opened Strings
  import opened Sorting

  /** No element repeats and each one is below the next. */
  predicate StrictlySorted(s: seq<string>) {
    forall i, j :: 0 <= i < j < |s| ==> StrLe(s[i], s[j]) && s[i] != s[j]
  }

  lemma StrLeTotalPreorder()
    ensures TotalPreorder(StrLe)
  {
    forall a, b ensures StrLe(a, b) || StrLe(b, a) {
      StrLeTotal(a, b);
    }
    forall a, b, c | StrLe(a, b) && StrLe(b, c) ensures StrLe(a, c) {
      StrLeTrans(a, b, c);
    }
  }

  /** Drops each element equal to the one before it. */
  function DropRepeats(s: seq<string>): (r: seq<string>)
    ensures forall x :: x in r <==> x in s
    decreases |s|
  {
    if |s| <= 1 then s
    else
      var d := DropRepeats(s[..|s| - 1]);
      assert s == s[..|s| - 1] + [s[|s| - 1]];
      assert s[|s| - 2] in s[..|s| - 1];
      if s[|s| - 1] == s[|s| - 2] then d else d + [s[|s| - 1]]
  }

  lemma {:induction false} DropRepeatsStrict(s: seq<string>)
    requires SortedBy(s, StrLe)
    ensures StrictlySorted(DropRepeats(s))
    ensures |s| > 0 ==> |DropRepeats(s)| > 0 && DropRepeats(s)[|DropRepeats(s)| - 1] == s[|s| - 1]
    decreases |s|
  {
    if |s| > 1 {
      var p := s[..|s| - 1];
      assert SortedBy(p, StrLe);
      DropRepeatsStrict(p);
      var d := DropRepeats(p);
      var x := s[|s| - 1];
      if x != s[|s| - 2] {
        var r := d + [x];
        forall i, j | 0 <= i < j < |r| ensures StrLe(r[i], r[j]) && r[i] != r[j] {
          if j == |r| - 1 {
            assert r[i] in p;
            var k :| 0 <= k < |p| && p[k] == r[i];
            assert StrLe(s[k], x);
            if r[i] == x {
              if k < |s| - 2 {
                assert StrLe(s[k], s[|s| - 2]);
              }
              StrLeAntisym(x, s[|s| - 2]);
            }
          } else {
            assert r[i] == d[i] && r[j] == d[j];
          }
        }
      }
    }
  }

  /** `sorted(list(set(xs)))`. */
  function SortedUnique(xs: seq<string>): seq<string> {
    DropRepeats(SortBy(xs, StrLe))
  }

  /** The result is strictly increasing and holds exactly the elements of `xs`. */
  lemma SortedUniqueSpec(xs: seq<string>)
    ensures StrictlySorted(SortedUnique(xs))
    ensures forall x :: x in SortedUnique(xs) <==> x in xs
  {
    StrLeTotalPreorder();
    SortBySorted(xs, StrLe);
    DropRepeatsStrict(SortBy(xs, StrLe));
    forall x ensures x in SortBy(xs, StrLe) <==> x in xs {
      assert x in SortBy(xs, StrLe) <==> x in multiset(SortBy(xs, StrLe));
    }
  }

  lemma HeadIn(b: seq<string>)
    ensures b != [] ==> b[0] in b
  {
  }

  /** Two strictly increasing sequences with the same elements are equal, so
      `SortedUnique` is what Python's `sorted(list(set(xs)))` computes, however
      the set happens to be listed. */
  lemma {:induction false} StrictlySortedUnique(a: seq<string>, b: seq<string>)
    requires StrictlySorted(a) && StrictlySorted(b)
    requires forall x :: x in a <==> x in b
    ensures a == b
    decreases |a|
  {
    if a != [] {
      assert b != [] by {
        assert a[0] in b;
      }
      StrLeTotal(a[0], a[0]);
      StrLeTotal(b[0], b[0]);
      assert StrLe(a[0], b[0]) by {
        assert b[0] in b;
        var k :| 0 <= k < |a| && a[k] == b[0];
      }
      assert StrLe(b[0], a[0]) by {
        assert a[0] in a;
        var k :| 0 <= k < |b| && b[k] == a[0];
      }
      StrLeAntisym(a[0], b[0]);
      forall x ensures x in a[1..] <==> x in b[1..] {
        if x in a[1..] {
          var k :| 1 <= k < |a| && a[k] == x;
          assert x != a[0];
          assert x in a;
          var q :| 0 <= q < |b| && b[q] == x;
          assert q != 0;
        }
        if x in b[1..] {
          var k :| 1 <= k < |b| && b[k] == x;
          assert x != b[0];
          assert x in b;
          var q :| 0 <= q < |a| && a[q] == x;
          assert q != 0;
        }
      }
      StrictlySortedUnique(a[1..], b[1..]);
      assert a == [a[0]] + a[1..] && b == [b[0]] + b[1..];
    } else {
      HeadIn(b);
    }
  }
}
