/** Duplicate-free sequences and first-occurrence de-duplication. */
module Seqs {

  predicate NoDup<T(==)>(s: seq<T>) {
    forall i, j :: 0 <= i < j < |s| ==> s[i] != s[j]
  }

  /** The prefix one element longer. */
  lemma PrefixSnoc<T>(s: seq<T>, i: int)
    requires 0 <= i < |s|
    ensures s[..i + 1] == s[..i] + [s[i]] && s[..i + 1][..i] == s[..i]
  {
  }

  lemma ConcatAssoc<T>(a: seq<T>, b: seq<T>, c: seq<T>)
    ensures (a + b) + c == a + (b + c)
  {
  }

  /** The contributions `f(x)` of the elements of `xs`, concatenated in order. */
  function FlatMap<T, U>(xs: seq<T>, f: T -> seq<U>): seq<U>
    decreases |xs|
  {
    if xs == [] then [] else FlatMap(xs[..|xs| - 1], f) + f(xs[|xs| - 1])
  }

  lemma FlatMapSnoc<T, U>(xs: seq<T>, f: T -> seq<U>, i: nat)
    requires i < |xs|
    ensures FlatMap(xs[..i + 1], f) == FlatMap(xs[..i], f) + f(xs[i])
  {
    assert xs[..i + 1][..i] == xs[..i];
  }

  /** An element of the concatenation comes from the contribution of some element of `xs`. */
  lemma {:induction false} FlatMapMembers<T, U>(xs: seq<T>, f: T -> seq<U>, y: U)
    ensures y in FlatMap(xs, f) <==> exists i :: 0 <= i < |xs| && y in f(xs[i])
    decreases |xs|
  {
    if xs != [] {
      var n := |xs| - 1;
      var init := xs[..n];
      FlatMapMembers(init, f, y);
      if y in FlatMap(init, f) {
        var i :| 0 <= i < |init| && y in f(init[i]);
        assert xs[i] == init[i];
      }
      if exists i :: 0 <= i < |xs| && y in f(xs[i]) {
        var i :| 0 <= i < |xs| && y in f(xs[i]);
        if i < n {
          assert init[i] == xs[i];
        }
      }
    }
  }

  /** The index of the first occurrence of `x` in `s`. */
  function FirstIndex<T(==)>(s: seq<T>, x: T): (k: nat)
    requires x in s
    ensures k < |s| && s[k] == x && x !in s[..k]
  {
    if s[0] == x then 0 else 1 + FirstIndex(s[1..], x)
  }

  /**
   * `s` without repeats, each element kept where it first occurs: the list an
   * "append unless already present" loop builds.
   */
  function Dedup<T(==)>(s: seq<T>): seq<T> {
    if s == [] then []
    else
      var d := Dedup(s[..|s| - 1]);
      if s[|s| - 1] in d then d else d + [s[|s| - 1]]
  }

  /** One step of the "append unless present" loop. */
  lemma DedupSnoc<T>(s: seq<T>, x: T)
    ensures Dedup(s + [x]) == if x in Dedup(s) then Dedup(s) else Dedup(s) + [x]
  {
    assert (s + [x])[..|s|] == s;
  }

  /** De-duplication keeps exactly the elements of `s`, each once. */
  lemma {:induction false} DedupSpec<T>(s: seq<T>)
    ensures NoDup(Dedup(s))
    ensures forall x :: x in Dedup(s) ==> x in s
    ensures forall x :: x in s ==> x in Dedup(s)
  {
    if s != [] {
      var init := s[..|s| - 1];
      DedupSpec(init);
      assert s == init + [s[|s| - 1]];
    }
  }

  /** The first element of `s` is the first element of its de-duplication. */
  lemma {:induction false} DedupHead<T>(s: seq<T>)
    requires s != []
    ensures Dedup(s) != [] && Dedup(s)[0] == s[0]
  {
    if |s| > 1 {
      var init := s[..|s| - 1];
      DedupHead(init);
      assert init[0] == s[0];
    }
  }

  /** A sequence that has no repeats is its own de-duplication. */
  lemma {:induction false} DedupNoDup<T>(s: seq<T>)
    requires NoDup(s)
    ensures Dedup(s) == s
  {
    if s != [] {
      var init := s[..|s| - 1];
      assert NoDup(init);
      DedupNoDup(init);
      assert s[|s| - 1] !in init;
      assert s == init + [s[|s| - 1]];
    }
  }

  /** The first occurrence of an element does not move when something is appended. */
  lemma FirstIndexSnoc<T>(s: seq<T>, x: T, y: T)
    requires y in s
    ensures FirstIndex(s + [x], y) == FirstIndex(s, y)
  {
    var k := FirstIndex(s, y);
    assert (s + [x])[..k] == s[..k];
    FirstIndexUnique(s + [x], y, k);
  }

  /** Any occurrence of `y` not preceded by another one is its first. */
  lemma FirstIndexUnique<T>(s: seq<T>, y: T, k: nat)
    requires k < |s| && s[k] == y && y !in s[..k]
    ensures FirstIndex(s, y) == k
  {
    assert forall j :: 0 <= j < k ==> s[j] != y by {
      forall j | 0 <= j < k ensures s[j] != y {
        assert s[..k][j] == s[j];
      }
    }
    var f := FirstIndex(s, y);
    assert forall j :: 0 <= j < f ==> s[j] != y by {
      forall j | 0 <= j < f ensures s[j] != y {
        assert s[..f][j] == s[j];
      }
    }
  }

  /** De-duplication lists the elements in the order in which they first occur in `s`. */
  lemma {:induction false} DedupOrder<T>(s: seq<T>)
    ensures forall i, j :: 0 <= i < j < |Dedup(s)| ==>
      Dedup(s)[i] in s && Dedup(s)[j] in s &&
      FirstIndex(s, Dedup(s)[i]) < FirstIndex(s, Dedup(s)[j])
  {
    if s != [] {
      var init := s[..|s| - 1];
      var x := s[|s| - 1];
      assert s == init + [x];
      DedupOrder(init);
      DedupSpec(init);
      DedupSpec(s);
      var d := Dedup(init);
      var D := Dedup(s);
      forall y | y in d ensures y in init && FirstIndex(s, y) == FirstIndex(init, y) {
        assert y in Dedup(init);
        assert y in init;
        FirstIndexSnoc(init, x, y);
      }
      if x in d {
        assert D == d;
        forall i, j | 0 <= i < j < |D|
          ensures D[i] in s && D[j] in s && FirstIndex(s, D[i]) < FirstIndex(s, D[j])
        {
          assert D[i] == d[i] && D[j] == d[j];
          assert d[i] in d && d[j] in d;
        }
      } else {
        assert D == d + [x];
        assert x !in init;
        FirstIndexUnique(s, x, |init|);
        forall i, j | 0 <= i < j < |D|
          ensures D[i] in s && D[j] in s && FirstIndex(s, D[i]) < FirstIndex(s, D[j])
        {
          assert D[i] == d[i] && d[i] in d;
          if j == |d| {
            assert FirstIndex(s, D[i]) == FirstIndex(init, d[i]) < |init|;
          } else {
            assert D[j] == d[j] && d[j] in d;
          }
        }
      }
    } else {
      assert Dedup(s) == [];
    }
  }
}
