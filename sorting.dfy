// Python's `sorted` on strings and on records keyed by a string: the
// lexicographic order of code points, and a stable insertion sort.
module Sorting {
  import opened Seqs

  /** `a <= b` on Python strings: compare code point by code point, a prefix comes first. */
  predicate LessEq(a: string, b: string)
    decreases |a|
  {
    |a| == 0 || (|b| > 0 && (a[0] < b[0] || (a[0] == b[0] && LessEq(a[1..], b[1..]))))
  }

  lemma {:induction false} LessEqReflexive(a: string)
    ensures LessEq(a, a)
    decreases |a|
  {
    if |a| > 0 {
      LessEqReflexive(a[1..]);
    }
  }

  lemma {:induction false} LessEqTotal(a: string, b: string)
    ensures LessEq(a, b) || LessEq(b, a)
    decreases |a|
  {
    if |a| > 0 && |b| > 0 && a[0] == b[0] {
      LessEqTotal(a[1..], b[1..]);
    }
  }

  lemma {:induction false} LessEqTransitive(a: string, b: string, c: string)
    requires LessEq(a, b) && LessEq(b, c)
    ensures LessEq(a, c)
    decreases |a|
  {
    if |a| > 0 && a[0] == b[0] && b[0] == c[0] {
      LessEqTransitive(a[1..], b[1..], c[1..]);
    }
  }

  lemma {:induction false} LessEqAntisymmetric(a: string, b: string)
    requires LessEq(a, b) && LessEq(b, a)
    ensures a == b
    decreases |a|
  {
    if |a| > 0 {
      LessEqAntisymmetric(a[1..], b[1..]);
      assert a == [a[0]] + a[1..] && b == [b[0]] + b[1..];
    }
  }

  /** `r` is in ascending order of `key`. */
  predicate SortedBy<T>(r: seq<T>, key: T -> string) {
    forall i, j :: 0 <= i < j < |r| ==> LessEq(key(r[i]), key(r[j]))
  }

  /** Insert `x` before the first element whose key is not smaller than its own. */
  function InsertBy<T>(x: T, s: seq<T>, key: T -> string): seq<T> {
    if s == [] then [x]
    else if LessEq(key(x), key(s[0])) then [x] + s
    else [s[0]] + InsertBy(x, s[1..], key)
  }

  /** `sorted(s, key=key)`: an element is inserted before the equal-keyed ones that follow it in `s`, which keeps ties in input order. */
  function SortBy<T>(s: seq<T>, key: T -> string): seq<T> {
    if s == [] then [] else InsertBy(s[0], SortBy(s[1..], key), key)
  }

  lemma {:induction false} InsertBySpec<T>(x: T, s: seq<T>, key: T -> string)
    requires SortedBy(s, key)
    ensures multiset(InsertBy(x, s, key)) == multiset(s) + multiset{x}
    ensures SortedBy(InsertBy(x, s, key), key)
  {
    if s == [] {
    } else if LessEq(key(x), key(s[0])) {
      var r := [x] + s;
      forall i, j | 0 <= i < j < |r| ensures LessEq(key(r[i]), key(r[j])) {
        if i == 0 && j > 1 {
          assert r[j] == s[j - 1];
          LessEqTransitive(key(x), key(s[0]), key(r[j]));
        }
      }
    } else {
      LessEqTotal(key(x), key(s[0]));
      var t := InsertBy(x, s[1..], key);
      InsertBySpec(x, s[1..], key);
      assert s == [s[0]] + s[1..];
      var r := [s[0]] + t;
      forall i, j | 0 <= i < j < |r| ensures LessEq(key(r[i]), key(r[j])) {
        if i == 0 {
          var y := r[j];
          assert y in multiset(t);
          if y != x {
            assert y in multiset(s[1..]);
            var k :| 0 <= k < |s[1..]| && s[1..][k] == y;
            assert s[k + 1] == y;
          }
        }
      }
    }
  }

  /** `SortBy` returns a permutation of its input in ascending key order. */
  lemma {:induction false} SortBySpec<T>(s: seq<T>, key: T -> string)
    ensures multiset(SortBy(s, key)) == multiset(s)
    ensures SortedBy(SortBy(s, key), key)
  {
    if s != [] {
      SortBySpec(s[1..], key);
      InsertBySpec(s[0], SortBy(s[1..], key), key);
      assert s == [s[0]] + s[1..];
    }
  }

  /** Sorting keeps the elements and their number. */
  lemma SortByMembers<T>(s: seq<T>, key: T -> string)
    ensures |SortBy(s, key)| == |s|
    ensures forall x :: x in SortBy(s, key) <==> x in s
  {
    SortBySpec(s, key);
    assert |multiset(SortBy(s, key))| == |multiset(s)|;
    forall x ensures x in SortBy(s, key) <==> x in s {
      assert x in SortBy(s, key) <==> x in multiset(SortBy(s, key));
      assert x in s <==> x in multiset(s);
    }
  }

  /** A sequence is duplicate-free exactly when no element has multiplicity above one. */
  lemma {:induction false} NoDupMultiset<T>(s: seq<T>)
    ensures NoDup(s) <==> forall x :: multiset(s)[x] <= 1
  {
    if s != [] {
      NoDupMultiset(s[1..]);
      assert s == [s[0]] + s[1..];
      if NoDup(s) {
        assert s[0] !in s[1..];
        assert multiset(s[1..])[s[0]] == 0;
      } else {
        var i, j :| 0 <= i < j < |s| && s[i] == s[j];
        if i == 0 {
          assert s[j] == s[1..][j - 1];
          assert multiset(s)[s[0]] >= 2;
        } else {
          assert s[1..][i - 1] == s[1..][j - 1];
          assert !NoDup(s[1..]);
          var x :| multiset(s[1..])[x] > 1;
          assert multiset(s)[x] == multiset([s[0]])[x] + multiset(s[1..])[x];
        }
      }
    }
  }

  /** Sorting a duplicate-free sequence leaves it duplicate-free. */
  lemma SortByNoDup<T>(s: seq<T>, key: T -> string)
    requires NoDup(s)
    ensures NoDup(SortBy(s, key))
  {
    SortBySpec(s, key);
    NoDupMultiset(s);
    NoDupMultiset(SortBy(s, key));
  }
}
