/** The arrival histogram of frame_generators.cpp: how many one-second intervals saw 0, 1, 2, ... frames. */
module Histogram {
  /** When the first `n` interarrival times have passed. */
  function Total(points: seq<real>, n: nat): real
    requires n <= |points|
  {
    if n == 0 then 0.0 else Total(points, n - 1) + points[n - 1]
  }

  /** Interval `j` is what lies after `j - 1` and not after `j`; the first one also has time 0. */
  predicate InInterval(t: real, j: nat) {
    t <= j as real && (j == 1 || t > j as real - 1.0)
  }

  /** How many of the first `n` frames arrive in interval `j`. */
  function Arrivals(points: seq<real>, n: nat, j: nat): nat
    requires n <= |points|
  {
    if n == 0 then 0 else Arrivals(points, n - 1, j) + if InInterval(Total(points, n), j) then 1 else 0
  }

  /** How many of the intervals 1 to `last` have `k` of the first `n` arrivals. */
  function Intervals(points: seq<real>, n: nat, last: nat, k: nat): nat
    requires n <= |points|
  {
    if last == 0 then 0
    else Intervals(points, n, last - 1, k) + if Arrivals(points, n, last) == k then 1 else 0
  }

  /** Slot `k` is the number of intervals with `k` arrivals, and no interval has more than there are slots for. */
  ghost predicate Counts(pmf: seq<nat>, points: seq<real>, n: nat, last: nat)
    requires n <= |points|
  {
    forall k: nat :: Intervals(points, n, last, k) == Slot(pmf, k)
  }

  function Slot(pmf: seq<nat>, k: nat): nat {
    if k < |pmf| then pmf[k] else 0
  }

  function Sum(pmf: seq<nat>): nat {
    if pmf == [] then 0 else Sum(pmf[..|pmf| - 1]) + pmf[|pmf| - 1]
  }

  /** Each slot times its index. */
  function Weighted(pmf: seq<nat>): nat {
    if pmf == [] then 0 else Weighted(pmf[..|pmf| - 1]) + (|pmf| - 1) * pmf[|pmf| - 1]
  }

  /** A time is in at most one interval, and that is the first it does not lie after. */
  lemma OneInterval(t: real, i: nat, j: nat)
    requires t >= 0.0 && i > 0 && j > 0 && InInterval(t, i)
    ensures InInterval(t, j) <==> i == j
    ensures t <= j as real <==> i <= j
  {
    if i < j {
      assert i as real <= (j - 1) as real == j as real - 1.0;
    } else if j < i {
      assert j as real <= (i - 1) as real == i as real - 1.0;
    }
  }

  lemma {:induction false} TotalsIncrease(points: seq<real>, i: nat, n: nat)
    requires i <= n <= |points| && forall p :: p in points ==> p >= 0.0
    ensures Total(points, i) <= Total(points, n)
  {
    if i < n {
      assert points[n - 1] in points;
      TotalsIncrease(points, i, n - 1);
    }
  }

  /** Nothing has arrived yet in an interval that starts at or after the latest arrival. */
  lemma {:induction false} NoneYet(points: seq<real>, n: nat, j: nat)
    requires n <= |points| && (forall p :: p in points ==> p >= 0.0) && j > 1 && Total(points, n) <= j as real - 1.0
    ensures Arrivals(points, n, j) == 0
  {
    if n > 0 {
      TotalsIncrease(points, n - 1, n);
      NoneYet(points, n - 1, j);
    }
  }

  /** An arrival after interval `last` leaves the count of the intervals up to it as it was. */
  lemma {:induction false} LaterArrival(points: seq<real>, n: nat, last: nat, k: nat)
    requires n < |points| && (last == 0 || Total(points, n + 1) > last as real)
    ensures Intervals(points, n + 1, last, k) == Intervals(points, n, last, k)
  {
    if last > 0 {
      LaterArrival(points, n, last - 1, k);
    }
  }

  lemma CountsAfterArrival(pmf: seq<nat>, points: seq<real>, n: nat, last: nat)
    requires n < |points| && (last == 0 || Total(points, n + 1) > last as real) && Counts(pmf, points, n, last)
    ensures Counts(pmf, points, n + 1, last)
  {
    forall k: nat
      ensures Intervals(points, n + 1, last, k) == Slot(pmf, k)
    {
      LaterArrival(points, n, last, k);
    }
  }

  lemma {:induction false} SumAfterIncrement(pmf: seq<nat>, k: nat)
    requires k < |pmf|
    ensures Sum(pmf[k := pmf[k] + 1]) == Sum(pmf) + 1
    ensures Weighted(pmf[k := pmf[k] + 1]) == Weighted(pmf) + k
  {
    var n := |pmf| - 1;
    var after := pmf[k := pmf[k] + 1];
    if k == n {
      assert after[..n] == pmf[..n];
      assert n * (pmf[n] + 1) == n * pmf[n] + n;
    } else {
      assert after[..n] == pmf[..n][k := pmf[k] + 1];
      SumAfterIncrement(pmf[..n], k);
    }
  }

  lemma {:induction false} SumAfterResize(pmf: seq<nat>, zeros: seq<nat>)
    requires forall z :: z in zeros ==> z == 0
    ensures Sum(pmf + zeros) == Sum(pmf) && Weighted(pmf + zeros) == Weighted(pmf)
  {
    if zeros == [] {
      assert pmf + zeros == pmf;
    } else {
      var front, all := zeros[..|zeros| - 1], pmf + zeros;
      assert zeros[|zeros| - 1] in zeros && all[..|all| - 1] == pmf + front;
      assert forall z :: z in front ==> z in zeros;
      SumAfterResize(pmf, front);
      assert (|all| - 1) * all[|all| - 1] == 0;
    }
  }

  /** Makes room for `frames` if need be, and counts one interval more that had so many. */
  method CountInterval(pmf: seq<nat>, frames: nat) returns (counted: seq<nat>)
    requires |pmf| > 0
    ensures |counted| >= |pmf| && frames < |counted|
    ensures forall k: nat :: Slot(counted, k) == Slot(pmf, k) + if k == frames then 1 else 0
    ensures Sum(counted) == Sum(pmf) + 1 && Weighted(counted) == Weighted(pmf) + frames
  {
    counted := pmf;
    if frames > |counted| - 1 {
      var zeros: seq<nat> := seq(frames + 1 - |counted|, i => 0);
      SumAfterResize(counted, zeros);
      counted := counted + zeros;
    }
    SumAfterIncrement(counted, frames);
    counted := counted[frames := counted[frames] + 1];
  }

  /** The histogram up to the last interval reached. */
  method CapturePmf(processPoints: seq<real>) returns (capturePmf: seq<nat>, interval: nat)
    requires forall p :: p in processPoints ==> p >= 0.0
    ensures interval > 0 && InInterval(Total(processPoints, |processPoints|), interval)
    ensures Counts(capturePmf, processPoints, |processPoints|, interval)
    ensures Sum(capturePmf) == interval && Weighted(capturePmf) == |processPoints|
  {
    var framesInInterval := 0;
    var totalTime := 0.0;
    interval := 1;
    capturePmf := [0];

    for i := 0 to |processPoints|
      invariant interval > 0 && totalTime == Total(processPoints, i) >= 0.0 && InInterval(totalTime, interval)
      invariant framesInInterval == Arrivals(processPoints, i, interval)
      invariant Counts(capturePmf, processPoints, i, interval - 1)
      invariant |capturePmf| > 0 && Sum(capturePmf) == interval - 1 && Weighted(capturePmf) + framesInInterval == i
    {
      assert processPoints[i] in processPoints;
      totalTime := totalTime + processPoints[i];
      while totalTime > interval as real
        invariant interval > 0 && Total(processPoints, i) <= interval as real
        invariant interval == 1 || totalTime > interval as real - 1.0
        invariant framesInInterval == Arrivals(processPoints, i, interval)
        invariant Counts(capturePmf, processPoints, i, interval - 1)
        invariant |capturePmf| > 0 && Sum(capturePmf) == interval - 1 && Weighted(capturePmf) + framesInInterval == i
        decreases totalTime.Floor - interval
      {
        capturePmf := CountInterval(capturePmf, framesInInterval);
        framesInInterval := 0;
        interval := interval + 1;
        NoneYet(processPoints, i, interval);
      }
      CountsAfterArrival(capturePmf, processPoints, i, interval - 1);
      framesInInterval := framesInInterval + 1;
    }
    capturePmf := CountInterval(capturePmf, framesInInterval);
  }
}
