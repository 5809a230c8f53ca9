/** Sequence helpers: the LINQ `Where`, `Sum`, `Select` and ordering facts the model relies on. */
module Seqs {
  import opened Results
  import Int32

  /** The elements of `s` that satisfy `keep`, in their original order (LINQ `Where`). */
  function Filter<T>(s: seq<T>, keep: T -> bool): (r: seq<T>)
    ensures |r| <= |s|
    ensures forall x :: x in r ==> x in s && keep(x)
    ensures forall x :: x in s && keep(x) ==> x in r
  {
    if |s| == 0 then []
    else (if keep(s[0]) then [s[0]] else []) + Filter(s[1..], keep)
  }

  /** The first element of `s` that satisfies `keep` (LINQ `FirstOrDefault`). */
  function First<T>(s: seq<T>, keep: T -> bool): (r: Option<T>)
    ensures r.Some? ==> r.value in s && keep(r.value)
    ensures r.None? ==> forall x :: x in s ==> !keep(x)
  {
    if |s| == 0 then None
    else if keep(s[0]) then Some(s[0])
    else First(s[1..], keep)
  }

  /** Appending the only kept element makes it the first one found. */
  lemma {:induction false} FirstAppend<T>(s: seq<T>, x: T, keep: T -> bool)
    requires forall y :: y in s ==> !keep(y)
    requires keep(x)
    ensures First(s + [x], keep) == Some(x)
  {
    if |s| > 0 {
      assert (s + [x])[1..] == s[1..] + [x];
      FirstAppend(s[1..], x, keep);
    }
  }

  /** The sum of `f` over `s` (LINQ `Sum`). */
  function Sum<T>(s: seq<T>, f: T -> int): int
  {
    if |s| == 0 then 0 else f(s[0]) + Sum(s[1..], f)
  }

  /** `s` with `f` applied to every element (LINQ `Select`). */
  function Map<T, U>(s: seq<T>, f: T -> U): (r: seq<U>)
    ensures |r| == |s|
    ensures forall i :: 0 <= i < |s| ==> r[i] == f(s[i])
  {
    seq(|s|, i requires 0 <= i < |s| => f(s[i]))
  }

  function Reverse<T>(s: seq<T>): (r: seq<T>)
    ensures |r| == |s|
    ensures forall i :: 0 <= i < |s| ==> r[i] == s[|s| - 1 - i]
  {
    seq(|s|, i requires 0 <= i < |s| => s[|s| - 1 - i])
  }

  /** `key` strictly increases along `s`; in particular no key occurs twice. */
  ghost predicate Increasing<T>(s: seq<T>, key: T -> int) {
    forall i, j :: 0 <= i < j < |s| ==> key(s[i]) < key(s[j])
  }

  /** `key` strictly decreases along `s` ("newest first"). */
  ghost predicate Decreasing<T>(s: seq<T>, key: T -> int) {
    forall i, j :: 0 <= i < j < |s| ==> key(s[i]) > key(s[j])
  }

  lemma {:induction false} SumConcat<T>(a: seq<T>, b: seq<T>, f: T -> int)
    ensures Sum(a + b, f) == Sum(a, f) + Sum(b, f)
    decreases |a|
  {
    if |a| == 0 {
      assert a + b == b;
    } else {
      assert (a + b)[1..] == a[1..] + b;
      SumConcat(a[1..], b, f);
    }
  }

  lemma {:induction false} FilterConcat<T>(a: seq<T>, b: seq<T>, keep: T -> bool)
    ensures Filter(a + b, keep) == Filter(a, keep) + Filter(b, keep)
    decreases |a|
  {
    if |a| == 0 {
      assert a + b == b;
    } else {
      assert (a + b)[1..] == a[1..] + b;
      FilterConcat(a[1..], b, keep);
    }
  }

  /**
   * LINQ `Sum` over `int`: the values are added left to right from `acc`, and
   * every partial sum is checked against the 32-bit range. `None` is the
   * `OverflowException` thrown at the first partial sum outside it.
   */
  function CheckedSum<T>(s: seq<T>, f: T -> int, acc: int): (r: Option<int>)
    requires Int32.InRange(acc)
    ensures r.Some? ==> r.value == acc + Sum(s, f) && Int32.InRange(r.value)
    decreases |s|
  {
    if |s| == 0 then Some(acc)
    else
      var next := acc + f(s[0]);
      if Int32.InRange(next) then CheckedSum(s[1..], f, next) else None
  }

  /** Over non-negative values the partial sums only grow, so the sum fails exactly when the total passes `int.MaxValue`. */
  lemma {:induction false} CheckedSumNonNegative<T>(s: seq<T>, f: T -> int, acc: int)
    requires Int32.InRange(acc) && acc >= 0
    requires forall x :: x in s ==> f(x) >= 0
    ensures CheckedSum(s, f, acc).Some? <==> acc + Sum(s, f) <= Int32.MaxInt32
    decreases |s|
  {
    if |s| > 0 {
      assert forall x :: x in s[1..] ==> x in s;
      SumNonNegative(s[1..], f);
      if Int32.InRange(acc + f(s[0])) {
        CheckedSumNonNegative(s[1..], f, acc + f(s[0]));
      }
    }
  }

  /** The values themselves, as the selector of a sum over plain integers. */
  function Identity(x: int): int { x }

  /** A partial sum out of range fails the sum even when the total is back in range. */
  lemma PartialSumOverflow()
    ensures Int32.InRange(Sum([Int32.MaxInt32, 1, -1], Identity))
    ensures CheckedSum([Int32.MaxInt32, 1, -1], Identity, 0) == None
  {
    var s := [Int32.MaxInt32, 1, -1];
    assert s[1..] == [1, -1] && s[1..][1..] == [-1] && s[1..][1..][1..] == [];
    assert Sum(s[1..][1..], Identity) == -1;
    assert Sum(s, Identity) == Int32.MaxInt32 + Sum(s[1..], Identity) == Int32.MaxInt32;
  }

  /** Every element that `f` maps to a non-negative value contributes non-negatively. */
  lemma {:induction false} SumNonNegative<T>(s: seq<T>, f: T -> int)
    requires forall x :: x in s ==> f(x) >= 0
    ensures Sum(s, f) >= 0
    decreases |s|
  {
    if |s| > 0 {
      assert forall x :: x in s[1..] ==> x in s;
      SumNonNegative(s[1..], f);
    }
  }

  /** Filtering by a condition that implies an earlier filter's condition ignores the earlier one. */
  lemma {:induction false} FilterFilter<T>(s: seq<T>, p: T -> bool, q: T -> bool)
    requires forall x :: q(x) ==> p(x)
    ensures Filter(Filter(s, p), q) == Filter(s, q)
    decreases |s|
  {
    if |s| > 0 {
      FilterFilter(s[1..], p, q);
      if p(s[0]) {
        assert Filter(s, p) == [s[0]] + Filter(s[1..], p);
        FilterConcat([s[0]], Filter(s[1..], p), q);
        assert Filter([s[0]], q) == (if q(s[0]) then [s[0]] else []) + Filter([s[0]][1..], q);
      } else {
        assert Filter(s, p) == Filter(s[1..], p);
      }
    }
  }

  /** A filter that keeps everything is the identity. */
  lemma {:induction false} FilterAll<T>(s: seq<T>, keep: T -> bool)
    requires forall x :: x in s ==> keep(x)
    ensures Filter(s, keep) == s
    decreases |s|
  {
    if |s| > 0 {
      assert forall x :: x in s[1..] ==> x in s;
      FilterAll(s[1..], keep);
      assert s == [s[0]] + s[1..];
    }
  }

  /** A filter that keeps nothing yields the empty sequence. */
  lemma FilterNone<T>(s: seq<T>, keep: T -> bool)
    requires forall x :: x in s ==> !keep(x)
    ensures Filter(s, keep) == []
  {
  }

  /** Removing elements preserves a strictly increasing key. */
  lemma {:induction false} FilterIncreasing<T>(s: seq<T>, keep: T -> bool, key: T -> int)
    requires Increasing(s, key)
    ensures Increasing(Filter(s, keep), key)
    decreases |s|
  {
    if |s| > 0 {
      var tail := Filter(s[1..], keep);
      FilterIncreasing(s[1..], keep, key);
      forall x | x in tail ensures key(s[0]) < key(x) {
        var k :| 0 <= k < |s[1..]| && s[1..][k] == x;
        assert s[k + 1] == x;
      }
      if keep(s[0]) {
        assert Filter(s, keep) == [s[0]] + tail;
        ConsIncreasing(s[0], tail, key);
      } else {
        assert Filter(s, keep) == tail;
      }
    }
  }

  /** An element below everything in an increasing sequence can go in front of it. */
  lemma ConsIncreasing<T>(h: T, tail: seq<T>, key: T -> int)
    requires Increasing(tail, key)
    requires forall x :: x in tail ==> key(h) < key(x)
    ensures Increasing([h] + tail, key)
  {
    var r := [h] + tail;
    forall i, j | 0 <= i < j < |r| ensures key(r[i]) < key(r[j]) {
      if i == 0 {
        assert r[j] == tail[j - 1];
        assert r[j] in tail;
      } else {
        assert r[i] == tail[i - 1] && r[j] == tail[j - 1];
      }
    }
  }

  /** Reversing turns a strictly increasing key into a strictly decreasing one. */
  lemma ReverseDecreasing<T>(s: seq<T>, key: T -> int)
    requires Increasing(s, key)
    ensures Decreasing(Reverse(s), key)
  {
    var r := Reverse(s);
    forall i, j | 0 <= i < j < |r| ensures key(r[i]) > key(r[j]) {
      assert r[i] == s[|s| - 1 - i] && r[j] == s[|s| - 1 - j];
    }
  }
}
