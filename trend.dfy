/**
 * The numbers `plot_graph` computes before it draws: the exponentially
 * weighted moving average pandas gives for `ewm(alpha=0.3, adjust=False)`,
 * the means of the raw and smoothed columns, and the peak with the index of
 * its first occurrence.  Reals stand for Python floats.
 */
module Trend {

  /** The smoothing factor passed to `ewm`. */
  const ALPHA: real := 0.3

  /** One step of the average: the new value weighted by ALPHA, the previous average by the rest. */
  function Smooth(previous: real, x: real): real {
    ALPHA * x + (1.0 - ALPHA) * previous
  }

  /** `s` is the adjust=False average of `raw`: seeded with the first value, then one Smooth step per value. */
  ghost predicate IsEwma(raw: seq<real>, s: seq<real>) {
    && |s| == |raw|
    && (|raw| > 0 ==> s[0] == raw[0])
    && forall i :: 0 < i < |raw| ==> s[i] == Smooth(s[i - 1], raw[i])
  }

  /** `raw.ewm(alpha=0.3, adjust=False).mean()`, computed front to back. */
  function Ewma(raw: seq<real>): (s: seq<real>)
    ensures |s| == |raw|
    ensures |raw| > 0 ==> s[0] == raw[0]
  {
    if |raw| <= 1 then raw
    else
      var p := Ewma(raw[..|raw| - 1]);
      p + [Smooth(p[|p| - 1], raw[|raw| - 1])]
  }

  /** Ewma satisfies the recurrence pandas documents for adjust=False. */
  lemma {:induction false} EwmaRecurrence(raw: seq<real>)
    ensures IsEwma(raw, Ewma(raw))
  {
    if |raw| > 1 {
      var n := |raw|;
      var p := raw[..n - 1];
      EwmaRecurrence(p);
      var s := Ewma(raw);
      assert s[..n - 1] == Ewma(p);
      forall i | 0 < i < n ensures s[i] == Smooth(s[i - 1], raw[i]) {
        if i < n - 1 {
          assert s[i] == Ewma(p)[i] && s[i - 1] == Ewma(p)[i - 1] && raw[i] == p[i];
        }
      }
    }
  }

  /** The recurrence leaves no choice: any sequence satisfying it is Ewma. */
  lemma {:induction false} EwmaUnique(raw: seq<real>, s: seq<real>)
    requires IsEwma(raw, s)
    ensures s == Ewma(raw)
  {
    if |raw| > 1 {
      var n := |raw|;
      var p := raw[..n - 1];
      assert IsEwma(p, s[..n - 1]) by {
        forall i | 0 < i < n - 1 ensures s[..n - 1][i] == Smooth(s[..n - 1][i - 1], p[i]) {
          assert s[i] == Smooth(s[i - 1], raw[i]);
        }
      }
      EwmaUnique(p, s[..n - 1]);
      assert s == s[..n - 1] + [s[n - 1]];
    }
  }

  /** Each smoothed value lies between the raw value at that point and the previous smoothed value. */
  lemma EwmaBetween(raw: seq<real>, i: nat)
    requires 0 < i < |raw|
    ensures var s := Ewma(raw);
            (raw[i] <= s[i] <= s[i - 1]) || (s[i - 1] <= s[i] <= raw[i])
  {
    EwmaRecurrence(raw);
  }

  // ---------------------------------------------------------------- max, min, idxmax

  /** `Series.max()` of a non-empty column. */
  function Max(xs: seq<real>): (m: real)
    requires |xs| > 0
    ensures exists i :: 0 <= i < |xs| && xs[i] == m
    ensures forall i :: 0 <= i < |xs| ==> xs[i] <= m
  {
    if |xs| == 1 then xs[0]
    else
      var m := Max(xs[1..]);
      assert forall i :: 1 <= i < |xs| ==> xs[i] == xs[1..][i - 1];
      if xs[0] >= m then xs[0] else m
  }

  /** `Series.min()` of a non-empty column. */
  function Min(xs: seq<real>): (m: real)
    requires |xs| > 0
    ensures exists i :: 0 <= i < |xs| && xs[i] == m
    ensures forall i :: 0 <= i < |xs| ==> m <= xs[i]
  {
    if |xs| == 1 then xs[0]
    else
      var m := Min(xs[1..]);
      assert forall i :: 1 <= i < |xs| ==> xs[i] == xs[1..][i - 1];
      if xs[0] <= m then xs[0] else m
  }

  /**
   * `Series.idxmax()` on the default index 0..n-1: the first position holding
   * the largest value.
   */
  function IdxMax(xs: seq<real>): (k: nat)
    requires |xs| > 0
    ensures k < |xs|
    ensures forall i :: 0 <= i < |xs| ==> xs[i] <= xs[k]
    ensures forall j :: 0 <= j < k ==> xs[j] < xs[k]
  {
    if |xs| == 1 then 0
    else
      var k := IdxMax(xs[1..]);
      assert forall i :: 1 <= i < |xs| ==> xs[i] == xs[1..][i - 1];
      if xs[0] >= xs[k + 1] then 0 else k + 1
  }

  /** The value idxmax points at is the value max returns. */
  lemma IdxMaxIsMax(xs: seq<real>)
    requires |xs| > 0
    ensures xs[IdxMax(xs)] == Max(xs)
  {
    var k := IdxMax(xs);
    var i :| 0 <= i < |xs| && xs[i] == Max(xs);
    assert xs[i] <= xs[k];
  }

  // ---------------------------------------------------------------- means

  function Sum(xs: seq<real>): real {
    if xs == [] then 0.0 else Sum(xs[..|xs| - 1]) + xs[|xs| - 1]
  }

  /** `Series.mean()` of a non-empty column: it lies between the smallest and the largest value. */
  function Mean(xs: seq<real>): (m: real)
    requires |xs| > 0
    ensures Min(xs) <= m <= Max(xs)
  {
    AverageWithin(xs, Min(xs), Max(xs));
    Sum(xs) / |xs| as real
  }

  /** The total divided by the count of values that lie in [lo, hi] lies in [lo, hi]. */
  lemma AverageWithin(xs: seq<real>, lo: real, hi: real)
    requires |xs| > 0
    requires forall i :: 0 <= i < |xs| ==> lo <= xs[i] <= hi
    ensures lo <= Sum(xs) / |xs| as real <= hi
  {
    SumBounds(xs, lo, hi);
    QuotientBounds(Sum(xs), |xs| as real, lo, hi);
  }

  /** A column whose values lie in [lo, hi] sums to between n*lo and n*hi. */
  lemma {:induction false} SumBounds(xs: seq<real>, lo: real, hi: real)
    requires forall i :: 0 <= i < |xs| ==> lo <= xs[i] <= hi
    ensures |xs| as real * lo <= Sum(xs) <= |xs| as real * hi
  {
    if xs != [] {
      var n := |xs|;
      SumBounds(xs[..n - 1], lo, hi);
      assert (n - 1) as real * lo + lo == n as real * lo;
      assert (n - 1) as real * hi + hi == n as real * hi;
    }
  }

  lemma QuotientBounds(sum: real, n: real, lo: real, hi: real)
    requires n > 0.0 && n * lo <= sum <= n * hi
    ensures lo <= sum / n <= hi
  {
    assert (sum / n) * n == sum;
  }

  /** The mean of values that lie in [lo, hi] lies in [lo, hi]. */
  lemma MeanWithin(xs: seq<real>, lo: real, hi: real)
    requires |xs| > 0
    requires forall i :: 0 <= i < |xs| ==> lo <= xs[i] <= hi
    ensures lo <= Mean(xs) <= hi
  {
    AverageWithin(xs, lo, hi);
  }

  /** Averaging values that lie in [lo, hi] gives values in [lo, hi]. */
  lemma {:induction false} EwmaWithin(raw: seq<real>, lo: real, hi: real)
    requires forall i :: 0 <= i < |raw| ==> lo <= raw[i] <= hi
    ensures forall i :: 0 <= i < |raw| ==> lo <= Ewma(raw)[i] <= hi
  {
    if |raw| > 1 {
      var p := raw[..|raw| - 1];
      EwmaWithin(p, lo, hi);
      assert raw[|raw| - 1] == raw[|raw| - 1];
    }
  }

  /** Every smoothed value lies within the range of the raw values. */
  lemma EwmaWithinRange(raw: seq<real>)
    requires |raw| > 0
    ensures forall i :: 0 <= i < |raw| ==> Min(raw) <= Ewma(raw)[i] <= Max(raw)
  {
    EwmaWithin(raw, Min(raw), Max(raw));
  }

  /** The mean of the smoothed column lies within the range of the raw values. */
  lemma SmoothedMeanWithin(raw: seq<real>)
    requires |raw| > 0
    ensures Min(raw) <= Mean(Ewma(raw)) <= Max(raw)
  {
    EwmaWithinRange(raw);
    MeanWithin(Ewma(raw), Min(raw), Max(raw));
  }

  // ---------------------------------------------------------------- plot_graph's numbers

  /** What `plot_graph` computes and then plots and prints. */
  datatype Summary = Summary(
    smoothed: seq<real>,    // df["CPU_MME"]
    smoothedMean: real,     // media_mme
    rawMean: real,          // media_cpu_bruta
    peak: real,             // max_cpu
    peakIndex: nat,         // max_index
    peakTime: real          // df["Tempo (s)"][max_index], where the peak is marked
  )

  /**
   * The numeric part of `plot_graph(cpu_data, timestamps)`.  pandas builds
   * the frame only from columns of equal length, and the caller always
   * passes two such lists; an empty series is excluded (see `Sampling.Run`).
   */
  function Summarize(cpu: seq<real>, timestamps: seq<real>): (r: Summary)
    requires |cpu| > 0 && |timestamps| == |cpu|
    ensures IsEwma(cpu, r.smoothed)
    ensures r.rawMean == Mean(cpu) && r.smoothedMean == Mean(r.smoothed)
    ensures Min(cpu) <= r.rawMean <= Max(cpu) && Min(cpu) <= r.smoothedMean <= Max(cpu)
    ensures r.peakIndex < |cpu| && r.peak == cpu[r.peakIndex] && r.peakTime == timestamps[r.peakIndex]
    ensures forall i :: 0 <= i < |cpu| ==> cpu[i] <= r.peak
    ensures forall j :: 0 <= j < r.peakIndex ==> cpu[j] < r.peak
  {
    var smoothed := Ewma(cpu);
    EwmaRecurrence(cpu);
    SmoothedMeanWithin(cpu);
    var k := IdxMax(cpu);
    IdxMaxIsMax(cpu);
    Summary(smoothed, Mean(smoothed), Mean(cpu), Max(cpu), k, timestamps[k])
  }

  /** The series 10, 20, 10, 40, 10 is smoothed to 10, 13, 12.1, 20.47, 17.329. */
  lemma EwmaExample()
    ensures Ewma([10.0, 20.0, 10.0, 40.0, 10.0]) == [10.0, 13.0, 12.1, 20.47, 17.329]
  {
    var raw, s := [10.0, 20.0, 10.0, 40.0, 10.0], [10.0, 13.0, 12.1, 20.47, 17.329];
    assert s[1] == Smooth(s[0], raw[1]);
    assert s[2] == Smooth(s[1], raw[2]);
    assert s[3] == Smooth(s[2], raw[3]);
    assert s[4] == Smooth(s[3], raw[4]);
    assert IsEwma(raw, s);
    EwmaUnique(raw, s);
  }

  /** The series 10, 20, 10, 40, 10 has mean 18. */
  lemma MeanExample()
    ensures Mean([10.0, 20.0, 10.0, 40.0, 10.0]) == 18.0
  {
    var raw := [10.0, 20.0, 10.0, 40.0, 10.0];
    var a1, a2, a3, a4 := [10.0], [10.0, 20.0], [10.0, 20.0, 10.0], [10.0, 20.0, 10.0, 40.0];
    assert a1[..0] == [] && a2[..1] == a1 && a3[..2] == a2 && a4[..3] == a3 && raw[..4] == a4;
    assert Sum(a1) == 10.0;
    assert Sum(a2) == 30.0;
    assert Sum(a3) == 40.0;
    assert Sum(a4) == 80.0;
    assert Sum(raw) == 90.0;
  }

  /** The series 10, 20, 10, 40, 10 peaks at 40, first reached at index 3. */
  lemma PeakExample()
    ensures Max([10.0, 20.0, 10.0, 40.0, 10.0]) == 40.0
    ensures IdxMax([10.0, 20.0, 10.0, 40.0, 10.0]) == 3
  {
    var raw := [10.0, 20.0, 10.0, 40.0, 10.0];
    assert raw[3] == 40.0;
  }
}
