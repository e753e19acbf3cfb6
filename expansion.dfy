/** The shape of the generator's output: every announcement time repeated by
    its order count, in announcement order, as the nested loops that fill the
    ImmutableList.Builder produce it. */
module Expansion {

  function Max0(k: int): nat {
    if k > 0 then k else 0
  }

  predicate NonDecreasing(s: seq<int>) {
    forall i, j :: 0 <= i < j < |s| ==> s[i] <= s[j]
  }

  predicate StrictlyIncreasing(s: seq<int>) {
    forall i, j :: 0 <= i < j < |s| ==> s[i] < s[j]
  }

  /** Every element of s lies in [0, length). */
  predicate InHorizon(s: seq<int>, length: int) {
    forall i :: 0 <= i < |s| ==> 0 <= s[i] < length
  }

  /** What `for (j = 0; j < k; j++) add(t)` appends: k copies of t, none when k <= 0. */
  function Repeat(t: int, k: int): (r: seq<int>)
    ensures |r| == Max0(k)
    ensures forall i :: 0 <= i < |r| ==> r[i] == t
    decreases k
  {
    if k <= 0 then [] else Repeat(t, k - 1) + [t]
  }

  /** n copies of k, as java.util.Collections.nCopies(n, k). */
  function Uniform(n: nat, k: int): (r: seq<int>)
    ensures |r| == n
    ensures forall i :: 0 <= i < n ==> r[i] == k
  {
    if n == 0 then [] else Uniform(n - 1, k) + [k]
  }

  /** The number of orders a list of counts yields: a negative count yields none. */
  function TotalOrders(counts: seq<int>): nat {
    if counts == [] then 0
    else TotalOrders(counts[..|counts| - 1]) + Max0(counts[|counts| - 1])
  }

  /** The ordered concatenation of times[i] repeated counts[i] times. */
  function Expand(times: seq<int>, counts: seq<int>): (r: seq<int>)
    requires |times| == |counts|
    ensures |r| == TotalOrders(counts)
    ensures forall i :: 0 <= i < |r| ==> r[i] in times
    decreases |times|
  {
    if times == [] then []
    else
      var n := |times| - 1;
      Expand(times[..n], counts[..n]) + Repeat(times[n], counts[n])
  }

  /** Expanding one more announcement appends its repeats. */
  lemma ExpandSnoc(times: seq<int>, counts: seq<int>, k: nat)
    requires |times| == |counts| && k < |times|
    ensures Expand(times[..k + 1], counts[..k + 1]) == Expand(times[..k], counts[..k]) + Repeat(times[k], counts[k])
  {
    assert times[..k + 1][..k] == times[..k] && counts[..k + 1][..k] == counts[..k];
  }

  lemma {:induction false} TotalOrdersUniform(n: nat, k: int)
    ensures TotalOrders(Uniform(n, k)) == n * Max0(k)
  {
    if n > 0 {
      var m := Max0(k);
      TotalOrdersUniform(n - 1, k);
      assert Uniform(n, k)[..n - 1] == Uniform(n - 1, k);
      assert TotalOrders(Uniform(n, k)) == (n - 1) * m + m;
      assert (n - 1) * m + m == n * m;
    }
  }

  /** How often v occurs in s. */
  function Occurrences(s: seq<int>, v: int): nat {
    if s == [] then 0
    else Occurrences(s[..|s| - 1], v) + (if s[|s| - 1] == v then 1 else 0)
  }

  lemma {:induction false} OccurrencesIsMultiplicity(s: seq<int>, v: int)
    ensures Occurrences(s, v) == multiset(s)[v]
  {
    if s != [] {
      var n := |s| - 1;
      OccurrencesIsMultiplicity(s[..n], v);
      assert s == s[..n] + [s[n]];
      assert multiset(s) == multiset(s[..n]) + multiset{s[n]};
    }
  }

  lemma {:induction false} TotalOrdersByOccurrences(counts: seq<int>, f: int)
    requires forall i :: 0 <= i < |counts| ==> counts[i] == f || counts[i] == f + 1
    ensures TotalOrders(counts) == Max0(f) * Occurrences(counts, f) + Max0(f + 1) * Occurrences(counts, f + 1)
  {
    if counts != [] {
      var n := |counts| - 1;
      var init := counts[..n];
      TotalOrdersByOccurrences(init, f);
      var a, b := Occurrences(init, f), Occurrences(init, f + 1);
      var lo, hi := Max0(f), Max0(f + 1);
      if counts[n] == f {
        MulSucc(lo, a);
      } else {
        MulSucc(hi, b);
      }
    }
  }

  /** When every count is f or f + 1, the number of orders depends only on how
      many of each there are, so it survives any reordering of the counts. */
  lemma TotalOrdersOfTwoValues(counts: seq<int>, f: int)
    requires forall i :: 0 <= i < |counts| ==> counts[i] == f || counts[i] == f + 1
    ensures TotalOrders(counts) == Max0(f) * multiset(counts)[f] + Max0(f + 1) * multiset(counts)[f + 1]
  {
    TotalOrdersByOccurrences(counts, f);
    OccurrencesIsMultiplicity(counts, f);
    OccurrencesIsMultiplicity(counts, f + 1);
  }

  lemma MulSucc(x: int, a: int)
    ensures x * (a + 1) == x * a + x
  {
  }

  lemma {:induction false} UniformMultiplicity(n: nat, k: int)
    ensures multiset(Uniform(n, k)) == multiset{}[k := n]
  {
    if n > 0 {
      UniformMultiplicity(n - 1, k);
      assert Uniform(n, k) == Uniform(n - 1, k) + [k];
    }
  }

  /** fl copies of f followed by cl copies of f + 1. */
  lemma TwoValueList(f: int, fl: nat, cl: nat)
    ensures var c := Uniform(fl, f) + Uniform(cl, f + 1);
      && |c| == fl + cl
      && (forall i :: 0 <= i < fl + cl ==> c[i] == if i < fl then f else f + 1)
      && multiset(c)[f] == fl && multiset(c)[f + 1] == cl
  {
    var lo, hi := Uniform(fl, f), Uniform(cl, f + 1);
    UniformMultiplicity(fl, f);
    UniformMultiplicity(cl, f + 1);
    assert multiset(lo + hi) == multiset(lo) + multiset(hi);
  }

  /** Any arrangement of fl copies of f and cl copies of f + 1 yields the same
      number of orders. */
  lemma TwoValueTotal(counts: seq<int>, f: int, fl: nat, cl: nat)
    requires multiset(counts) == multiset(Uniform(fl, f) + Uniform(cl, f + 1))
    ensures |counts| == fl + cl
    ensures forall i :: 0 <= i < |counts| ==> counts[i] == f || counts[i] == f + 1
    ensures TotalOrders(counts) == Max0(f) * fl + Max0(f + 1) * cl
  {
    var base := Uniform(fl, f) + Uniform(cl, f + 1);
    TwoValueList(f, fl, cl);
    assert |counts| == |multiset(counts)| == |multiset(base)| == fl + cl;
    forall i | 0 <= i < |counts| ensures counts[i] == f || counts[i] == f + 1 {
      assert counts[i] in multiset(base);
    }
    TotalOrdersOfTwoValues(counts, f);
  }

  lemma {:induction false} RepeatMultiplicity(t: int, k: int, y: int)
    ensures multiset(Repeat(t, k))[y] == if y == t then Max0(k) else 0
    decreases k
  {
    if k > 0 {
      RepeatMultiplicity(t, k - 1, y);
      assert multiset(Repeat(t, k)) == multiset(Repeat(t, k - 1)) + multiset{t};
    }
  }

  /** The occurrences of x in an expansion: those before the last
      announcement plus those in its repeats. */
  lemma ExpandLastMultiplicity(times: seq<int>, counts: seq<int>, x: int)
    requires |times| == |counts| && times != []
    ensures var n := |times| - 1;
      multiset(Expand(times, counts))[x]
        == multiset(Expand(times[..n], counts[..n]))[x] + multiset(Repeat(times[n], counts[n]))[x]
  {
    var n := |times| - 1;
    var init, tail := Expand(times[..n], counts[..n]), Repeat(times[n], counts[n]);
    assert Expand(times, counts) == init + tail;
    assert multiset(init + tail) == multiset(init) + multiset(tail);
  }

  /** With strictly increasing times, each time occurs in the expansion exactly
      as often as its count says. */
  lemma {:induction false} ExpandMultiplicity(times: seq<int>, counts: seq<int>, i: int)
    requires |times| == |counts| && StrictlyIncreasing(times)
    requires 0 <= i < |times|
    ensures multiset(Expand(times, counts))[times[i]] == Max0(counts[i])
    decreases |times|
  {
    var n, x := |times| - 1, times[i];
    ExpandLastMultiplicity(times, counts, x);
    RepeatMultiplicity(times[n], counts[n], x);
    if i < n {
      StrictlyIncreasingPrefix(times, n);
      assert times[..n][i] == x && counts[..n][i] == counts[i];
      ExpandMultiplicity(times[..n], counts[..n], i);
    } else {
      LastTimeNotBefore(times, counts);
    }
  }

  lemma StrictlyIncreasingPrefix(s: seq<int>, k: nat)
    requires StrictlyIncreasing(s) && k <= |s|
    ensures StrictlyIncreasing(s[..k])
  {
  }

  /** With strictly increasing times, the last time does not occur in the
      expansion of the announcements before it. */
  lemma LastTimeNotBefore(times: seq<int>, counts: seq<int>)
    requires |times| == |counts| && StrictlyIncreasing(times) && times != []
    ensures var n := |times| - 1;
      multiset(Expand(times[..n], counts[..n]))[times[n]] == 0
  {
    var n := |times| - 1;
    assert times[n] !in times[..n];
    assert times[n] !in Expand(times[..n], counts[..n]);
  }

  /** Expanding a non-decreasing list of times gives a non-decreasing list. */
  lemma {:induction false} ExpandNonDecreasing(times: seq<int>, counts: seq<int>)
    requires |times| == |counts| && NonDecreasing(times)
    ensures NonDecreasing(Expand(times, counts))
    decreases |times|
  {
    if times != [] {
      var n := |times| - 1;
      var init := Expand(times[..n], counts[..n]);
      var tail := Repeat(times[n], counts[n]);
      ExpandNonDecreasing(times[..n], counts[..n]);
      forall i | 0 <= i < |init| ensures init[i] <= times[n] {
        assert init[i] in times[..n];
      }
      assert Expand(times, counts) == init + tail;
    }
  }

  /** Expanding times that lie in [0, length) gives times that lie there too. */
  lemma ExpandInHorizon(times: seq<int>, counts: seq<int>, length: int)
    requires |times| == |counts| && InHorizon(times, length)
    ensures InHorizon(Expand(times, counts), length)
  {
    var r := Expand(times, counts);
    forall i | 0 <= i < |r| ensures 0 <= r[i] < length {
      assert r[i] in times;
    }
  }
}
