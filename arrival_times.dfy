/** The arrival-time generator of rinde.sim.pdptw.generator: announcements of a
    discretised Poisson process over a scenario of `length` minutes, each
    expanded into one or more orders. The random source is replaced by its
    draws: the exponential samples (in hours) for the announcement gaps, and
    the raw draws of the shuffle, which it reduces modulo the current bound. */
module ArrivalTimes {
  import opened Rounding
  import opened Expansion

  datatype Option<T> = None | Some(value: T)

  predicate NonNegative(samples: seq<real>) {
    forall i :: 0 <= i < |samples| ==> samples[i] >= 0.0
  }

  /** One inter-arrival gap in whole minutes: an exponential sample in hours,
      times sixty, rounded half-down. */
  function Gap(sample: real): (nt: int)
    ensures sample >= 0.0 ==> nt >= 0
  {
    RoundHalfDown(sample * 60.0)
  }

  // ---------------------------------------------------------------------------
  // Announcement sampler
  // ---------------------------------------------------------------------------

  /** The sampler loop run from the state (times, sum) on the remaining samples.
      None means that the samples ran out while the loop still wanted another.
      The loop only ever adds announcements to the ones it has. */
  function SampleFrom(length: int, samples: seq<real>, times: seq<int>, sum: int): (r: Option<seq<int>>)
    ensures r.Some? ==> times <= r.value
    decreases |samples|
  {
    if sum >= length then Some(times)
    else if samples == [] then None
    else
      var nt := Gap(samples[0]);
      if nt > 0 || times == [] then
        if sum + nt < length then SampleFrom(length, samples[1..], times + [sum + nt], sum + nt)
        else if times == [] then SampleFrom(length, samples[1..], times, 0)
        else Some(times)
      else SampleFrom(length, samples[1..], times, sum)
  }

  /** The announcement times the sampler produces from the given samples:
      strictly increasing times in [0, length), at least one when length > 0
      and none when length <= 0. */
  function Announcements(length: int, samples: seq<real>): (r: Option<seq<int>>)
    ensures NonNegative(samples) && r.Some? ==>
      && InHorizon(r.value, length)
      && StrictlyIncreasing(r.value)
      && (length > 0 ==> r.value != [])
    ensures length <= 0 ==> r == Some([])
  {
    if NonNegative(samples) then
      SampleFromKeepsState(length, samples, [], 0);
      SampleFrom(length, samples, [], 0)
    else
      SampleFrom(length, samples, [], 0)
  }

  /** The sampler's loop invariant: sum is 0 before the first announcement and
      the last announcement afterwards; announcements are strictly increasing
      and inside the horizon. */
  predicate SamplerState(length: int, times: seq<int>, sum: int) {
    && (if times == [] then sum == 0 else sum == times[|times| - 1])
    && InHorizon(times, length)
    && StrictlyIncreasing(times)
  }

  /** Whatever the samples, the sampler keeps its invariant, only extends the
      announcements it has, and ends with at least one when length > 0. */
  lemma {:induction false} SampleFromKeepsState(length: int, samples: seq<real>, times: seq<int>, sum: int)
    requires NonNegative(samples) && SamplerState(length, times, sum)
    ensures var r := SampleFrom(length, samples, times, sum);
      r.Some? ==>
        && InHorizon(r.value, length)
        && StrictlyIncreasing(r.value)
        && times <= r.value
        && (length > 0 ==> r.value != [])
    decreases |samples|
  {
    if sum < length && samples != [] {
      var nt := Gap(samples[0]);
      assert NonNegative(samples[1..]);
      if nt > 0 || times == [] {
        if sum + nt < length {
          var times' := times + [sum + nt];
          assert SamplerState(length, times', sum + nt);
          SampleFromKeepsState(length, samples[1..], times', sum + nt);
        } else if times == [] {
          SampleFromKeepsState(length, samples[1..], times, 0);
        }
      } else {
        SampleFromKeepsState(length, samples[1..], times, sum);
      }
    }
  }

  /** A first announcement that already reaches the horizon is dropped and the
      sampler starts over from 0 with the next sample. */
  lemma RetryOnFirstOverflow(length: int, samples: seq<real>)
    requires samples != [] && 0 < length <= Gap(samples[0])
    ensures Announcements(length, samples) == Announcements(length, samples[1..])
  {
  }

  /** A gap shorter than the time unit is ignored once there is an
      announcement: the sample is consumed and the state is kept. */
  lemma SkipZeroGap(length: int, samples: seq<real>, times: seq<int>, sum: int)
    requires samples != [] && times != [] && sum < length && Gap(samples[0]) == 0
    ensures SampleFrom(length, samples, times, sum) == SampleFrom(length, samples[1..], times, sum)
  {
  }

  /** A zero gap that is the first value is not ignored: it becomes an
      announcement at time 0. */
  lemma FirstZeroGap(length: int, samples: seq<real>)
    requires samples != [] && 0 < length && Gap(samples[0]) == 0
    ensures Announcements(length, samples) == SampleFrom(length, samples[1..], [0], 0)
  {
    assert [] + [0] == [0];
  }

  // ---------------------------------------------------------------------------
  // Order-count allocator
  // ---------------------------------------------------------------------------

  /** The fraction of announcements that get the ceiling count. */
  function Ratio(opa: real): (r: real)
    ensures 0.0 <= r < 1.0
    ensures r == 0.0 <==> IsMathematicalInteger(opa)
  {
    opa - Floor(opa) as real
  }

  /** floorTimes: (1 - ratio) * n rounded half-down; all n announcements when
      the mean is whole. */
  function FloorTimes(n: nat, opa: real): (r: nat)
    ensures r <= n
    ensures IsMathematicalInteger(opa) ==> r == n
  {
    ScaledIsProduct(1.0 - Ratio(opa), n);
    RoundHalfDown(Scaled(1.0 - Ratio(opa), n))
  }

  /** ceilTimes: ratio * n rounded half-up; none when the mean is whole. */
  function CeilTimes(n: nat, opa: real): (r: nat)
    ensures r <= n
    ensures IsMathematicalInteger(opa) ==> r == 0
  {
    ScaledIsProduct(Ratio(opa), n);
    RoundHalfUp(Scaled(Ratio(opa), n))
  }

  /** The state check of the fractional branch never fails over exact reals:
      the half-down and the half-up counts add up to the number of
      announcements, whatever that number and the mean. */
  lemma SplitIsExact(n: nat, opa: real)
    ensures FloorTimes(n, opa) + CeilTimes(n, opa) == n
  {
    ScaledComplement(Ratio(opa), n);
    ComplementaryRounding(n, Scaled(Ratio(opa), n));
  }

  /** For a non-integral mean the ceiling is one above the floor. */
  lemma CeilingIsFloorPlusOne(opa: real)
    requires !IsMathematicalInteger(opa)
    ensures Ceiling(opa) == Floor(opa) + 1
  {
  }

  /** The order counts before the shuffle: floorTimes copies of the floor
      followed by ceilTimes copies of the ceiling. */
  function CountList(n: nat, opa: real): (r: seq<int>)
    ensures |r| == n
    ensures forall i :: 0 <= i < |r| ==> r[i] == Floor(opa) || r[i] == Ceiling(opa)
  {
    SplitIsExact(n, opa);
    Uniform(FloorTimes(n, opa), Floor(opa)) + Uniform(CeilTimes(n, opa), Ceiling(opa))
  }

  /** For a non-integral mean the count list has one count per announcement,
      floorTimes of them the floor and ceilTimes of them the floor plus one. */
  lemma CountListFacts(n: nat, opa: real)
    requires !IsMathematicalInteger(opa)
    ensures |CountList(n, opa)| == n
    ensures forall i :: 0 <= i < n ==> CountList(n, opa)[i] == if i < FloorTimes(n, opa) then Floor(opa) else Floor(opa) + 1
    ensures multiset(CountList(n, opa))[Floor(opa)] == FloorTimes(n, opa)
    ensures multiset(CountList(n, opa))[Floor(opa) + 1] == CeilTimes(n, opa)
  {
    var f, fl, cl := Floor(opa), FloorTimes(n, opa), CeilTimes(n, opa);
    SplitIsExact(n, opa);
    CeilingIsFloorPlusOne(opa);
    assert CountList(n, opa) == Uniform(fl, f) + Uniform(cl, f + 1);
    TwoValueList(f, fl, cl);
  }

  /** The counts the generator may assign to n announcements for a mean of opa
      orders: opa each when opa is whole, otherwise any arrangement of the
      count list. */
  ghost predicate IsOrderCountAssignment(opa: real, n: nat, counts: seq<int>): (b: bool)
    ensures b ==> |counts| == n
  {
    if IsMathematicalInteger(opa) then counts == Uniform(n, Floor(opa))
    else
      assert |multiset(counts)| == |counts| && |multiset(CountList(n, opa))| == n;
      multiset(counts) == multiset(CountList(n, opa))
  }

  /** A whole mean gives every announcement exactly opa orders. */
  lemma IntegralCountFacts(opa: real, n: nat, counts: seq<int>)
    requires IsMathematicalInteger(opa) && IsOrderCountAssignment(opa, n, counts)
    ensures |counts| == n
    ensures forall i :: 0 <= i < n ==> counts[i] == Floor(opa) == Ceiling(opa)
    ensures TotalOrders(counts) == n * Max0(Floor(opa))
  {
    TotalOrdersUniform(n, Floor(opa));
  }

  /** A fractional mean gives every announcement the floor or the ceiling of
      the mean, and the number of orders is fixed by floorTimes and ceilTimes
      whatever order the shuffle chose. */
  lemma FractionalCountFacts(opa: real, n: nat, counts: seq<int>)
    requires !IsMathematicalInteger(opa) && IsOrderCountAssignment(opa, n, counts)
    ensures |counts| == n
    ensures forall i :: 0 <= i < n ==> counts[i] == Floor(opa) || counts[i] == Ceiling(opa)
    ensures TotalOrders(counts) == Max0(Floor(opa)) * FloorTimes(n, opa) + Max0(Ceiling(opa)) * CeilTimes(n, opa)
  {
    var f := Floor(opa);
    AssignmentIsTwoValued(opa, n, counts);
    SplitIsExact(n, opa);
    CeilingIsFloorPlusOne(opa);
    forall i | 0 <= i < n ensures counts[i] == f || counts[i] == Ceiling(opa) {
      assert counts[i] == f || counts[i] == f + 1;
    }
  }

  /** For a fractional mean, an assignment is an arrangement of floorTimes
      copies of the floor and ceilTimes copies of the floor plus one. */
  lemma AssignmentIsTwoValued(opa: real, n: nat, counts: seq<int>)
    requires !IsMathematicalInteger(opa) && IsOrderCountAssignment(opa, n, counts)
    ensures |counts| == FloorTimes(n, opa) + CeilTimes(n, opa)
    ensures forall i :: 0 <= i < |counts| ==> counts[i] == Floor(opa) || counts[i] == Floor(opa) + 1
    ensures TotalOrders(counts) == Max0(Floor(opa)) * FloorTimes(n, opa) + Max0(Floor(opa) + 1) * CeilTimes(n, opa)
  {
    var f, fl, cl := Floor(opa), FloorTimes(n, opa), CeilTimes(n, opa);
    CeilingIsFloorPlusOne(opa);
    assert multiset(counts) == multiset(Uniform(fl, f) + Uniform(cl, f + 1)) by {
      assert CountList(n, opa) == Uniform(fl, f) + Uniform(cl, f + 1);
    }
    TwoValueTotal(counts, f, fl, cl);
  }

  /** floorTimes is the integer nearest to (1 - ratio) * n. */
  lemma FloorTimesNearest(n: nat, opa: real)
    ensures -0.5 <= FloorTimes(n, opa) as real - (1.0 - Ratio(opa)) * n as real <= 0.5
  {
    ScaledIsProduct(1.0 - Ratio(opa), n);
  }

  /** ceilTimes is the integer nearest to ratio * n: the share of
      announcements given the ceiling is as close to the ratio as a whole
      number of announcements allows. */
  lemma CeilTimesNearest(n: nat, opa: real)
    ensures -0.5 <= CeilTimes(n, opa) as real - Ratio(opa) * n as real <= 0.5
  {
    ScaledIsProduct(Ratio(opa), n);
  }

  /** With a fractional, non-negative mean, the total number of orders over n
      announcements is the integer nearest to opa * n, whatever the shuffle. */
  lemma TotalNearMean(opa: real, n: nat, counts: seq<int>)
    requires !IsMathematicalInteger(opa) && Floor(opa) >= 0 && IsOrderCountAssignment(opa, n, counts)
    ensures -0.5 <= TotalOrders(counts) as real - opa * n as real <= 0.5
  {
    FractionalTotal(opa, n, counts);
    SplitNearMean(opa, n, TotalOrders(counts));
  }

  /** floor * floorTimes + (floor + 1) * ceilTimes is within one half of opa * n. */
  lemma SplitNearMean(opa: real, n: nat, total: int)
    requires total == Floor(opa) * FloorTimes(n, opa) + (Floor(opa) + 1) * CeilTimes(n, opa)
    ensures -0.5 <= total as real - opa * n as real <= 0.5
  {
    SplitIsExact(n, opa);
    CeilTimesNearest(n, opa);
    NearestOfSplit(Floor(opa), FloorTimes(n, opa), CeilTimes(n, opa), Ratio(opa), opa, n, total);
  }

  /** With a fractional, non-negative mean, the total is floor * floorTimes +
      (floor + 1) * ceilTimes. */
  lemma FractionalTotal(opa: real, n: nat, counts: seq<int>)
    requires !IsMathematicalInteger(opa) && Floor(opa) >= 0 && IsOrderCountAssignment(opa, n, counts)
    ensures TotalOrders(counts) == Floor(opa) * FloorTimes(n, opa) + (Floor(opa) + 1) * CeilTimes(n, opa)
  {
    FractionalCountFacts(opa, n, counts);
    CeilingIsFloorPlusOne(opa);
  }

  /** fl announcements with f orders and cl with f + 1, n in all: if cl is
      within one half of r * n, the total is within one half of (f + r) * n. */
  lemma NearestOfSplit(f: int, fl: nat, cl: nat, r: real, mean: real, n: nat, total: int)
    requires n == fl + cl && mean == f as real + r && total == f * fl + (f + 1) * cl
    requires -0.5 <= cl as real - r * n as real <= 0.5
    ensures -0.5 <= total as real - mean * n as real <= 0.5
  {
    assert total == f * n + cl;
    assert mean * n as real == (f * n) as real + r * n as real;
  }

  /** Swaps two elements of an array. */
  method Swap(a: array<int>, i: nat, j: nat)
    requires i < a.Length && j < a.Length
    modifies a
    ensures a[..] == old(a[..])[i := old(a[j])][j := old(a[i])]
    ensures multiset(a[..]) == old(multiset(a[..]))
  {
    a[i], a[j] := a[j], a[i];
  }

  /** The swap loop of java.util.Collections.shuffle on a random-access list:
      for i from the size down to 2, swap element i - 1 with a drawn index in
      [0, i). rnd(k) is the k-th draw of the random source; whatever it draws,
      the result is a permutation of the list. */
  method Shuffle(a: array<int>, rnd: nat -> nat)
    modifies a
    ensures multiset(a[..]) == old(multiset(a[..]))
  {
    var i := a.Length;
    while i > 1
      invariant 0 <= i <= a.Length
      invariant multiset(a[..]) == old(multiset(a[..]))
    {
      Swap(a, i - 1, rnd(a.Length - i) % i);
      i := i - 1;
    }
  }

  // ---------------------------------------------------------------------------
  // The generator
  // ---------------------------------------------------------------------------

  class PoissonProcessArrivalTimes {
    /** Scenario length in minutes. */
    const length: int
    /** Global announcement intensity, in announcements per hour. */
    const gai: real
    /** Orders per announcement. */
    const opa: real

    constructor (scenarioLength: int, globalAnnouncementIntensity: real, ordersPerAnnouncement: real)
      ensures length == scenarioLength
      ensures gai == globalAnnouncementIntensity
      ensures opa == ordersPerAnnouncement
    {
      length := scenarioLength;
      gai := globalAnnouncementIntensity;
      opa := ordersPerAnnouncement;
    }

    /** The announcement sampler: strictly increasing times in [0, length),
        at least one when length > 0 and none when length <= 0. */
    method SampleAnnouncements(samples: seq<real>) returns (r: Option<seq<int>>)
      requires NonNegative(samples)
      ensures r == Announcements(length, samples)
      ensures r.Some? ==> InHorizon(r.value, length) && StrictlyIncreasing(r.value)
      ensures r.Some? && length > 0 ==> r.value != []
      ensures length <= 0 ==> r == Some([])
    {
      SampleFromKeepsState(length, samples, [], 0);
      var sum := 0;
      var arrivalTimes: seq<int> := [];
      var k := 0;
      while sum < length
        invariant 0 <= k <= |samples|
        invariant SamplerState(length, arrivalTimes, sum)
        invariant SampleFrom(length, samples[k..], arrivalTimes, sum) == Announcements(length, samples)
        decreases |samples| - k
      {
        if k == |samples| {
          return None;
        }
        assert samples[k..][1..] == samples[k + 1..];
        var nt := Gap(samples[k]);
        k := k + 1;
        if nt > 0 || arrivalTimes == [] {
          sum := sum + nt;
          if sum < length {
            arrivalTimes := arrivalTimes + [sum];
          } else if arrivalTimes == [] {
            sum := 0;
          } else {
            break;
          }
        }
      }
      r := Some(arrivalTimes);
    }

    /** The integral branch: every announcement is added opa times. */
    method RepeatEach(times: seq<int>) returns (out: seq<int>)
      requires IsMathematicalInteger(opa)
      ensures out == Expand(times, Uniform(|times|, Floor(opa)))
    {
      ghost var counts := Uniform(|times|, Floor(opa));
      out := [];
      var k := 0;
      while k < |times|
        invariant 0 <= k <= |times|
        invariant out == Expand(times[..k], counts[..k])
      {
        var i := 0;
        while (i as real) < opa
          invariant 0 <= i <= Max0(Floor(opa))
          invariant out == Expand(times[..k], counts[..k]) + Repeat(times[k], i)
          decreases Floor(opa) - i
        {
          out := out + [times[k]];
          i := i + 1;
        }
        assert Repeat(times[k], i) == Repeat(times[k], counts[k]);
        ExpandSnoc(times, counts, k);
        k := k + 1;
      }
      assert times[..k] == times && counts[..k] == counts;
    }

    /** The nested loops of the fractional branch: announcement i is added
        counts[i] times, in announcement order. */
    method ExpandCounts(times: seq<int>, counts: array<int>) returns (out: seq<int>)
      requires counts.Length == |times|
      ensures out == Expand(times, counts[..])
    {
      out := [];
      var i := 0;
      while i < |times|
        invariant 0 <= i <= |times|
        invariant out == Expand(times[..i], counts[..i])
      {
        var j := 0;
        while j < counts[i]
          invariant 0 <= j <= Max0(counts[i])
          invariant out == Expand(times[..i], counts[..i]) + Repeat(times[i], j)
        {
          out := out + [times[i]];
          j := j + 1;
        }
        assert Repeat(times[i], j) == Repeat(times[i], counts[i]);
        ExpandSnoc(times, counts[..], i);
        i := i + 1;
      }
      assert times[..i] == times && counts[..i] == counts[..];
    }

    /** Arrival times of all orders: the announcements, each repeated by the
        order count assigned to it. The result is non-decreasing and inside
        the horizon, and each announcement occurs exactly as often as its
        count says. counts is the order-count assignment the call made. */
    method Generate(samples: seq<real>, rnd: nat -> nat) returns (r: Option<seq<int>>, ghost counts: seq<int>)
      requires NonNegative(samples)
      ensures r.None? <==> Announcements(length, samples).None?
      ensures r.Some? ==>
        var times := Announcements(length, samples).value;
        && IsOrderCountAssignment(opa, |times|, counts)
        && |counts| == |times|
        && r.value == Expand(times, counts)
        && InHorizon(r.value, length)
        && NonDecreasing(r.value)
        && (forall i :: 0 <= i < |times| ==> multiset(r.value)[times[i]] == Max0(counts[i]))
        && (forall i :: 0 <= i < |counts| ==> counts[i] == Floor(opa) || counts[i] == Ceiling(opa))
        && |r.value| == if IsMathematicalInteger(opa) then |times| * Max0(Floor(opa))
                        else Max0(Floor(opa)) * FloorTimes(|times|, opa) + Max0(Ceiling(opa)) * CeilTimes(|times|, opa)
    {
      var announced := SampleAnnouncements(samples);
      if announced.None? {
        return None, [];
      }
      var arrivalTimes := announced.value;
      var out;
      if IsMathematicalInteger(opa) {
        out := RepeatEach(arrivalTimes);
        counts := Uniform(|arrivalTimes|, Floor(opa));
        IntegralCountFacts(opa, |arrivalTimes|, counts);
      } else {
        out, counts := Allocate(arrivalTimes, rnd);
        FractionalCountFacts(opa, |arrivalTimes|, counts);
      }
      OutputFacts(arrivalTimes, counts);
      r := Some(out);
    }

    /** The fractional branch: floorTimes announcements, chosen by the shuffle,
        get the floor of opa orders and the other ceilTimes the ceiling. */
    method Allocate(times: seq<int>, rnd: nat -> nat) returns (out: seq<int>, ghost counts: seq<int>)
      requires !IsMathematicalInteger(opa)
      ensures IsOrderCountAssignment(opa, |times|, counts)
      ensures |counts| == |times| && out == Expand(times, counts)
    {
      var orderCountList := NewCountList(|times|);
      Shuffle(orderCountList, rnd);
      counts := orderCountList[..];
      out := ExpandCounts(times, orderCountList);
    }

    /** The order-count list before the shuffle, after the state check that
        floorTimes and ceilTimes add up to the number of announcements. */
    method NewCountList(n: nat) returns (orderCountList: array<int>)
      requires !IsMathematicalInteger(opa)
      ensures fresh(orderCountList) && orderCountList.Length == n
      ensures orderCountList[..] == CountList(n, opa)
    {
      var floor := Floor(opa);
      var ceiling := Ceiling(opa);
      var floorTimes := FloorTimes(n, opa);
      var ceilTimes := CeilTimes(n, opa);
      SplitIsExact(n, opa);
      assert floorTimes + ceilTimes == n;

      orderCountList := new int[n](i => if i < floorTimes then floor else ceiling);
      CountListFacts(n, opa);
      CeilingIsFloorPlusOne(opa);
      assert orderCountList[..] == CountList(n, opa);
    }

    lemma OutputFacts(times: seq<int>, counts: seq<int>)
      requires |times| == |counts|
      requires InHorizon(times, length) && StrictlyIncreasing(times)
      ensures InHorizon(Expand(times, counts), length)
      ensures NonDecreasing(Expand(times, counts))
      ensures forall i :: 0 <= i < |times| ==> multiset(Expand(times, counts))[times[i]] == Max0(counts[i])
    {
      ExpandInHorizon(times, counts, length);
      ExpandNonDecreasing(times, counts);
      forall i | 0 <= i < |times| ensures multiset(Expand(times, counts))[times[i]] == Max0(counts[i]) {
        ExpandMultiplicity(times, counts, i);
      }
    }

    method GetScenarioLength() returns (r: int)
      ensures r == length
    {
      r := length;
    }

    method GetOrdersPerAnnouncement() returns (r: real)
      ensures r == opa
    {
      r := opa;
    }

    method GetGlobalAnnouncementIntensity() returns (r: real)
      ensures r == gai
    {
      r := gai;
    }
  }
}
