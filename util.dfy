/** Sequence helpers used by the tile builders: the Fisher–Yates `shuffle` and `sample`
    of app.js, plus the "pairwise distinct under a key" predicate the builders promise. */
module Util {

  function Min(a: int, b: int): int { if a <= b then a else b }

  /** No two positions of `s` agree on `f`: the de-duplication invariant, stated once
      for tiles (by their `colorId:emoji` key) and for colours (by their id). */
  ghost predicate DistinctBy<T, K>(s: seq<T>, f: T -> K) {
    forall i, j :: 0 <= i < j < |s| ==> f(s[i]) != f(s[j])
  }

  /** Fisher–Yates over a copy of `arr` (`arr.slice()`), swapping cell `i` with a
      random cell `j` in `[0, i]` for `i` from the last index down to 1. `Math.random`
      is a nondeterministic choice of `j`, so the contract holds for every outcome.
      The argument is a value: the caller's sequence cannot change. */
  method Shuffle<T>(arr: seq<T>) returns (r: seq<T>)
    ensures |r| == |arr|
    ensures multiset(r) == multiset(arr)
  {
    var a := new T[|arr|](k requires 0 <= k < |arr| => arr[k]);
    assert a[..] == arr;
    var i := a.Length - 1;
    while i > 0
      invariant -1 <= i < a.Length
      invariant multiset(a[..]) == multiset(arr)
    {
      var j :| 0 <= j <= i;  // Math.floor(Math.random() * (i + 1))
      a[i], a[j] := a[j], a[i];
      i := i - 1;
    }
    r := a[..];
  }

  /** `sample(arr, n)`, that is `shuffle(arr).slice(0, n)`, also written out at lines
      160 and 177: `min(n, |arr|)` elements drawn without replacement, and all of
      them, in some order, when there are at most `n`. */
  method Sample<T>(arr: seq<T>, n: nat) returns (r: seq<T>)
    ensures |r| == Min(n, |arr|)
    ensures multiset(r) <= multiset(arr)
    ensures |arr| <= n ==> multiset(r) == multiset(arr)
  {
    var shuffled := Shuffle(arr);
    r := shuffled[..Min(n, |arr|)];
    PrefixSubMultiset(shuffled, |r|);
    if |arr| <= n { assert r == shuffled; }
  }

  /** A prefix of `s` is a sub-multiset of it. */
  lemma PrefixSubMultiset<T>(s: seq<T>, k: nat)
    requires k <= |s|
    ensures multiset(s[..k]) <= multiset(s)
  {
    assert s == s[..k] + s[k..];
  }

  /** In a sequence that is distinct under `f`, every value occurs at most once. */
  lemma {:induction false} DistinctByCount<T, K>(s: seq<T>, f: T -> K, x: T)
    requires DistinctBy(s, f)
    ensures multiset(s)[x] <= 1
  {
    if s != [] {
      var t := s[1..];
      assert s == [s[0]] + t;
      assert DistinctBy(t, f) by {
        forall i, j | 0 <= i < j < |t| ensures f(t[i]) != f(t[j]) {
          assert t[i] == s[i + 1] && t[j] == s[j + 1];
        }
      }
      DistinctByCount(t, f, x);
      if s[0] == x {
        forall k | 0 <= k < |t| ensures t[k] != x {
          assert f(s[0]) != f(s[k + 1]);
        }
        assert multiset(t)[x] == 0;
      }
    }
  }

  /** A value that occurs at most once cannot sit at two positions. */
  lemma AtMostOncePositions<T>(s: seq<T>, i: nat, j: nat)
    requires i < j < |s| && multiset(s)[s[i]] <= 1
    ensures s[i] != s[j]
  {
    assert s == s[..j] + s[j..];
    assert s[i] in s[..j];
  }

  /** Distinctness under `f` survives taking any sub-multiset, so it survives
      shuffling, truncation and sampling. */
  lemma DistinctBySubMultiset<T, K>(a: seq<T>, b: seq<T>, f: T -> K)
    requires DistinctBy(a, f)
    requires multiset(b) <= multiset(a)
    ensures DistinctBy(b, f)
  {
    forall i, j | 0 <= i < j < |b| ensures f(b[i]) != f(b[j]) {
      DistinctByCount(a, f, b[i]);
      AtMostOncePositions(b, i, j);
      assert b[i] in multiset(a) && b[j] in multiset(a);
      var p :| 0 <= p < |a| && a[p] == b[i];
      var q :| 0 <= q < |a| && a[q] == b[j];
      if p < q { assert f(a[p]) != f(a[q]); } else { assert f(a[q]) != f(a[p]); }
    }
  }

  /** Two distinct-under-`f` sequences whose values never agree on `f` concatenate
      to a distinct one. */
  lemma DistinctByConcat<T, K>(a: seq<T>, b: seq<T>, f: T -> K)
    requires DistinctBy(a, f) && DistinctBy(b, f)
    requires forall x, y :: x in a && y in b ==> f(x) != f(y)
    ensures DistinctBy(a + b, f)
  {
    var s := a + b;
    forall i, j | 0 <= i < j < |s| ensures f(s[i]) != f(s[j]) {
      if j < |a| {
        assert s[i] == a[i] && s[j] == a[j];
      } else if i >= |a| {
        assert s[i] == b[i - |a|] && s[j] == b[j - |a|];
      } else {
        assert s[i] in a && s[j] in b;
      }
    }
  }

  /** Dropping the last element keeps distinctness, and the last element differs
      under `f` from every element before it. */
  lemma DistinctBySnoc<T, K>(s: seq<T>, f: T -> K)
    requires s != [] && DistinctBy(s, f)
    ensures DistinctBy(s[..|s| - 1], f)
    ensures forall x :: x in s[..|s| - 1] ==> f(x) != f(s[|s| - 1])
  {
    var init := s[..|s| - 1];
    forall x | x in init ensures f(x) != f(s[|s| - 1]) {
      var i :| 0 <= i < |init| && init[i] == x;
      assert f(s[i]) != f(s[|s| - 1]);
    }
  }
}
