/**
 * `main(pid)`: poll the process's %CPU for DURATION seconds, one probe per
 * SAMPLE_INTERVAL, keep the readings with the time they were taken, then
 * summarise them.
 *
 * The monotonic clock `time.perf_counter()` is an oracle `clock`: `clock(n)`
 * is what its n-th call returns (counting from 0), and the readings never go
 * down.  The probe is an oracle `probe`: `probe(k)` is the text the k-th run
 * of `adb shell top` printed.  `time.sleep` leaves no mark on the oracle; the
 * loop's own record says when and for how long it asked to sleep, and the
 * timing results assume the clock honoured those requests.
 */
module Sampling {
  import opened Wrappers
  import opened PyText
  import opened CpuExtractor
  import opened Trend

  /** Length of the observation window, in seconds. */
  const DURATION: real := 120.0

  /** Target time from the start of one iteration to the start of the next, in seconds. */
  const SAMPLE_INTERVAL: real := 0.4

  /** What one pass through the `while` body saw and did. */
  datatype Iteration = Iteration(
    guardElapsed: real,   // perf_counter() - start_time, read by the loop condition
    loopStart: real,      // loop_start
    cpu: Option<real>,    // get_cpu_usage(pid)
    elapsed: real,        // elapsed_time
    loopDuration: real,   // loop_duration
    sleep: Option<real>   // the argument of time.sleep, when it was called
  )

  /** Call i of the clock returned no more than call j. */
  predicate NoLater(clock: nat -> real, i: nat, j: nat) {
    clock(i) <= clock(j)
  }

  /** `time.perf_counter()` never goes back. */
  ghost predicate Monotone(clock: nat -> real) {
    forall i: nat, j: nat :: i <= j ==> NoLater(clock, i, j)
  }

  /**
   * The clock readings and the sleep of iteration `k`.  Call 0 of the clock
   * is `start_time`; iteration k makes calls 4k+1 (the loop condition),
   * 4k+2 (`loop_start`), 4k+3 (`elapsed_time`) and 4k+4 (`loop_duration`),
   * and probes between calls 4k+2 and 4k+3.
   */
  function IsTimed(clock: nat -> real, k: nat, it: Iteration): (b: bool)
    ensures b ==> it.guardElapsed < DURATION
    ensures b ==> (it.sleep.Some? <==> it.loopDuration < SAMPLE_INTERVAL)
    ensures b && it.sleep.Some? ==> it.loopDuration + it.sleep.value == SAMPLE_INTERVAL
  {
    && it.guardElapsed == clock(4 * k + 1) - clock(0)
    && it.guardElapsed < DURATION
    && it.loopStart == clock(4 * k + 2)
    && it.elapsed == clock(4 * k + 3) - clock(0)
    && it.loopDuration == clock(4 * k + 4) - it.loopStart
    && it.sleep == (if SAMPLE_INTERVAL - it.loopDuration > 0.0 then Some(SAMPLE_INTERVAL - it.loopDuration) else None)
  }

  predicate IsTimedTrace(clock: nat -> real, trace: seq<Iteration>) {
    forall k :: 0 <= k < |trace| ==> IsTimed(clock, k, trace[k])
  }

  /** Iteration k kept what `get_cpu_usage` makes of the k-th probe output. */
  predicate ReadAt(pid: string, probe: nat -> string, trace: seq<Iteration>, k: nat)
    requires k < |trace|
  {
    trace[k].cpu == CpuUsage(probe(k), pid)
  }

  predicate ReadsProbe(pid: string, probe: nat -> string, trace: seq<Iteration>) {
    forall k: nat :: k < |trace| ==> ReadAt(pid, probe, trace, k)
  }

  /** `cpu_data` after the iterations of `trace`: the readings that were not `None`, in order. */
  function Readings(trace: seq<Iteration>): (xs: seq<real>)
    ensures |xs| <= |trace|
  {
    if trace == [] then []
    else
      var previous, last := Readings(trace[..|trace| - 1]), trace[|trace| - 1];
      if last.cpu.Some? then previous + [last.cpu.value] else previous
  }

  /** `timestamps` after the iterations of `trace`: the elapsed time of each iteration that kept a reading. */
  function Stamps(trace: seq<Iteration>): (ts: seq<real>)
    ensures |ts| == |Readings(trace)|
  {
    if trace == [] then []
    else
      var previous, last := Stamps(trace[..|trace| - 1]), trace[|trace| - 1];
      if last.cpu.Some? then previous + [last.elapsed] else previous
  }

  /** Every requested sleep lasted at least as long as requested. */
  ghost predicate SleepsHonoured(clock: nat -> real, trace: seq<Iteration>) {
    forall k :: 0 <= k < |trace| && trace[k].sleep.Some? ==>
      clock(4 * k + 5) >= clock(4 * k + 4) + trace[k].sleep.value
  }

  /**
   * The `while` loop of `main`: it runs while less than DURATION has passed
   * since `start_time`, appends to both lists exactly when the probe gave a
   * reading, and sleeps off what is left of SAMPLE_INTERVAL.
   */
  method Collect(pid: string, probe: nat -> string, clock: nat -> real)
    returns (cpuData: seq<real>, timestamps: seq<real>, trace: seq<Iteration>)
    requires Monotone(clock)
    requires exists h: nat :: clock(h) - clock(0) >= DURATION
    ensures IsTimedTrace(clock, trace) && ReadsProbe(pid, probe, trace)
    ensures clock(4 * |trace| + 1) - clock(0) >= DURATION
    ensures cpuData == Readings(trace) && timestamps == Stamps(trace)
    ensures |cpuData| == |timestamps| <= |trace|
    ensures Within(timestamps, 0.0, clock(4 * |trace|) - clock(0)) && Ordered(timestamps)
    ensures SleepsHonoured(clock, trace) ==> |trace| as real * SAMPLE_INTERVAL <= DURATION
  {
    var n: nat := 0;  // calls of perf_counter() so far
    var startTime := clock(n);
    n := n + 1;
    cpuData, timestamps, trace := [], [], [];
    ghost var h: nat :| clock(h) - clock(0) >= DURATION;
    while clock(n) - startTime < DURATION
      invariant n == 4 * |trace| + 1
      invariant IsTimedTrace(clock, trace) && ReadsProbe(pid, probe, trace)
      invariant cpuData == Readings(trace) && timestamps == Stamps(trace)
      decreases h - n
    {
      assert n < h by {
        assert h <= n ==> NoLater(clock, h, n);
      }
      var it;
      it, n := Pass(pid, probe, clock, |trace|, n, clock(n) - startTime);
      if it.cpu.Some? {
        cpuData := cpuData + [it.cpu.value];
        timestamps := timestamps + [it.elapsed];
      }
      ExtendTimed(clock, trace, it);
      ExtendReads(pid, probe, trace, it);
      ExtendLists(trace, it);
      trace := trace + [it];
    }
    StampsOrdered(clock, trace);
    if SleepsHonoured(clock, trace) {
      IterationCount(clock, trace);
    }
  }

  /**
   * One pass through the `while` body, the k-th, which starts after `n`
   * calls of the clock and after the loop condition read `guardElapsed`:
   * take `loop_start`, probe, then finish the pass.
   */
  method Pass(pid: string, probe: nat -> string, clock: nat -> real, k: nat, n: nat, guardElapsed: real)
    returns (it: Iteration, n': nat)
    requires n == 4 * k + 1 && guardElapsed == clock(n) - clock(0) && guardElapsed < DURATION
    ensures it.cpu == CpuUsage(probe(k), pid)
    ensures IsTimed(clock, k, it)
    ensures n' == n + 4
  {
    n' := n + 1;
    var loopStart := clock(n');
    n' := n' + 1;
    var cpu := GetCpuUsage(probe(k), pid);
    it, n' := FinishPass(clock, k, n', guardElapsed, loopStart, cpu);
  }

  /**
   * The rest of the k-th pass through the `while` body once the loop
   * condition has read `guardElapsed`, `loop_start` has been taken and the
   * probe has returned `cpu`: take `elapsed_time`, take the clock again for
   * `loop_duration`, and work out how long to sleep.
   */
  method FinishPass(clock: nat -> real, k: nat, n: nat, guardElapsed: real, loopStart: real, cpu: Option<real>)
    returns (it: Iteration, n': nat)
    requires guardElapsed == clock(4 * k + 1) - clock(0) && guardElapsed < DURATION
    requires loopStart == clock(4 * k + 2) && n == 4 * k + 3
    ensures IsTimed(clock, k, it) && it.cpu == cpu
    ensures n' == n + 2
  {
    var elapsedTime := clock(n) - clock(0);
    n' := n + 1;
    var loopDuration := clock(n') - loopStart;
    n' := n' + 1;
    var remainingTime := SAMPLE_INTERVAL - loopDuration;
    var sleep := if remainingTime > 0.0 then Some(remainingTime) else None;
    it := Iteration(guardElapsed, loopStart, cpu, elapsedTime, loopDuration, sleep);
  }

  /**
   * `main(pid)`: the sampling loop, then `plot_graph` on what it collected.
   * `None` stands for the exception pandas raises when asked for the
   * `idxmax` of an empty column, so no chart is produced.
   */
  method Run(pid: string, probe: nat -> string, clock: nat -> real)
    returns (cpuData: seq<real>, timestamps: seq<real>, trace: seq<Iteration>, report: Option<Summary>)
    requires Monotone(clock)
    requires exists h: nat :: clock(h) - clock(0) >= DURATION
    ensures IsTimedTrace(clock, trace) && ReadsProbe(pid, probe, trace)
    ensures cpuData == Readings(trace) && timestamps == Stamps(trace)
    ensures report.None? <==> cpuData == []
    ensures report.Some? ==> report.value == Summarize(cpuData, timestamps)
  {
    cpuData, timestamps, trace := Collect(pid, probe, clock);
    report := if cpuData == [] then None else Some(Summarize(cpuData, timestamps));
  }

  // ---------------------------------------------------------------- the two lists

  /** An iteration timed as the k-th extends a timed trace of k iterations. */
  lemma ExtendTimed(clock: nat -> real, trace: seq<Iteration>, it: Iteration)
    requires IsTimedTrace(clock, trace) && IsTimed(clock, |trace|, it)
    ensures IsTimedTrace(clock, trace + [it])
  {
    var t := trace + [it];
    forall k | 0 <= k < |t| ensures IsTimed(clock, k, t[k]) {
      if k < |trace| { assert t[k] == trace[k]; }
    }
  }

  /** An iteration that read the k-th probe output extends a trace of k iterations that read theirs. */
  lemma ExtendReads(pid: string, probe: nat -> string, trace: seq<Iteration>, it: Iteration)
    requires ReadsProbe(pid, probe, trace) && it.cpu == CpuUsage(probe(|trace|), pid)
    ensures ReadsProbe(pid, probe, trace + [it])
  {
    var t := trace + [it];
    forall k: nat | k < |t| ensures ReadAt(pid, probe, t, k) {
      if k < |trace| {
        assert ReadAt(pid, probe, trace, k);
        assert t[k] == trace[k];
      } else {
        assert t[k] == it;
      }
    }
  }

  /** One more iteration appends its reading and its elapsed time exactly when it has a reading. */
  lemma ExtendLists(trace: seq<Iteration>, it: Iteration)
    ensures Readings(trace + [it]) == if it.cpu.Some? then Readings(trace) + [it.cpu.value] else Readings(trace)
    ensures Stamps(trace + [it]) == if it.cpu.Some? then Stamps(trace) + [it.elapsed] else Stamps(trace)
  {
    assert (trace + [it])[..|trace|] == trace;
  }

  /** Entry i of both lists comes from one iteration: its reading and its elapsed time. */
  lemma {:induction false} SamplePairing(trace: seq<Iteration>, i: nat)
    requires i < |Readings(trace)|
    ensures exists k :: 0 <= k < |trace| && trace[k].cpu == Some(Readings(trace)[i]) && trace[k].elapsed == Stamps(trace)[i]
  {
    var n := |trace|;
    var p := trace[..n - 1];
    if i < |Readings(p)| {
      SamplePairing(p, i);
      var k :| 0 <= k < |p| && p[k].cpu == Some(Readings(p)[i]) && p[k].elapsed == Stamps(p)[i];
      assert trace[k] == p[k];
    } else {
      assert trace[n - 1].cpu == Some(Readings(trace)[i]);
    }
  }

  /** Later iterations only append: the lists after the first k iterations are prefixes of the final ones. */
  lemma {:induction false} AppendOnly(trace: seq<Iteration>, k: nat)
    requires k <= |trace|
    ensures Readings(trace[..k]) <= Readings(trace)
    ensures Stamps(trace[..k]) <= Stamps(trace)
  {
    if k < |trace| {
      var p := trace[..|trace| - 1];
      assert p[..k] == trace[..k];
      AppendOnly(p, k);
    } else {
      assert trace[..k] == trace;
    }
  }

  // ---------------------------------------------------------------- time

  lemma TimedPrefix(clock: nat -> real, trace: seq<Iteration>, m: nat)
    requires IsTimedTrace(clock, trace) && m <= |trace|
    ensures IsTimedTrace(clock, trace[..m])
  {
    forall k | 0 <= k < m ensures IsTimed(clock, k, trace[..m][k]) {
      assert trace[..m][k] == trace[k];
    }
  }

  /** Every entry of `ts` lies in `[lo, hi]`. */
  predicate Within(ts: seq<real>, lo: real, hi: real) {
    forall i :: 0 <= i < |ts| ==> lo <= ts[i] <= hi
  }

  /** `ts` never goes down. */
  predicate Ordered(ts: seq<real>) {
    forall i, j :: 0 <= i <= j < |ts| ==> ts[i] <= ts[j]
  }

  /** Appending a value no smaller than an upper bound of an ordered list keeps it ordered. */
  lemma AppendOrdered(ts: seq<real>, lo: real, hi: real, x: real)
    requires Ordered(ts) && Within(ts, lo, hi) && hi <= x
    ensures Ordered(ts + [x])
  {
    var ts' := ts + [x];
    forall i, j | 0 <= i <= j < |ts'| ensures ts'[i] <= ts'[j] {
      if j < |ts| {
        assert ts'[i] == ts[i] && ts'[j] == ts[j];
      } else if i < |ts| {
        assert ts'[i] == ts[i];
      }
    }
  }

  /**
   * With a clock that never goes back, the kept timestamps are non-negative,
   * in non-decreasing order, and taken no later than the start of the
   * iteration after the last.
   */
  lemma {:induction false} StampsOrdered(clock: nat -> real, trace: seq<Iteration>)
    requires Monotone(clock) && IsTimedTrace(clock, trace)
    ensures Within(Stamps(trace), 0.0, clock(4 * |trace|) - clock(0))
    ensures Ordered(Stamps(trace))
  {
    if trace != [] {
      var n := |trace|;
      var p := trace[..n - 1];
      TimedPrefix(clock, trace, n - 1);
      StampsOrdered(clock, p);
      var last := trace[n - 1];
      assert IsTimed(clock, n - 1, last);
      assert NoLater(clock, 0, 4 * (n - 1)) && NoLater(clock, 4 * (n - 1), 4 * n - 1) && NoLater(clock, 4 * n - 1, 4 * n);
      var ps := Stamps(p);
      var hi := clock(4 * (n - 1)) - clock(0);
      if last.cpu.Some? {
        assert Stamps(trace) == ps + [last.elapsed];
        AppendOrdered(ps, 0.0, hi, last.elapsed);
      } else {
        assert Stamps(trace) == ps;
      }
    }
  }

  /**
   * Each iteration's clock readings come in program order: the loop
   * condition, `loop_start`, the probe, `elapsed_time`, `loop_duration`.  So a
   * sample is stamped after its probe started, and `loop_duration` is never
   * negative.
   */
  lemma IterationInOrder(clock: nat -> real, trace: seq<Iteration>, k: nat)
    requires Monotone(clock) && IsTimedTrace(clock, trace) && k < |trace|
    ensures var it := trace[k];
            0.0 <= it.guardElapsed && clock(0) + it.guardElapsed <= it.loopStart <= clock(0) + it.elapsed &&
            0.0 <= it.loopDuration && it.loopStart + it.loopDuration >= clock(0) + it.elapsed
  {
    assert IsTimed(clock, k, trace[k]);
    assert NoLater(clock, 0, 4 * k + 1) && NoLater(clock, 4 * k + 1, 4 * k + 2);
    assert NoLater(clock, 4 * k + 2, 4 * k + 3) && NoLater(clock, 4 * k + 3, 4 * k + 4);
  }

  /**
   * Drift correction: when every requested sleep is honoured, every iteration
   * lasts at least SAMPLE_INTERVAL from its `loop_start` to the next reading
   * of the clock, whether it slept or its work already took that long.
   */
  lemma IterationLasts(clock: nat -> real, trace: seq<Iteration>, k: nat)
    requires Monotone(clock) && IsTimedTrace(clock, trace) && SleepsHonoured(clock, trace)
    requires k < |trace|
    ensures clock(4 * k + 5) - trace[k].loopStart >= SAMPLE_INTERVAL
  {
    assert IsTimed(clock, k, trace[k]);
    assert NoLater(clock, 4 * k + 4, 4 * k + 5);
  }

  /** Consecutive iterations start at least SAMPLE_INTERVAL apart. */
  lemma Cadence(clock: nat -> real, trace: seq<Iteration>, k: nat)
    requires Monotone(clock) && IsTimedTrace(clock, trace) && SleepsHonoured(clock, trace)
    requires k + 1 < |trace|
    ensures trace[k + 1].loopStart - trace[k].loopStart >= SAMPLE_INTERVAL
  {
    IterationLasts(clock, trace, k);
    assert IsTimed(clock, k + 1, trace[k + 1]);
    assert NoLater(clock, 4 * k + 5, 4 * (k + 1) + 2);
  }

  /** The loop condition of iteration k reads at least k intervals after the start. */
  lemma {:induction false} GuardAfterIntervals(clock: nat -> real, trace: seq<Iteration>, k: nat)
    requires Monotone(clock) && IsTimedTrace(clock, trace) && SleepsHonoured(clock, trace)
    requires k <= |trace|
    ensures clock(4 * k + 1) - clock(0) >= k as real * SAMPLE_INTERVAL
  {
    if k == 0 {
      assert NoLater(clock, 0, 1);
    } else {
      GuardAfterIntervals(clock, trace, k - 1);
      IterationLasts(clock, trace, k - 1);
      assert IsTimed(clock, k - 1, trace[k - 1]);
      assert NoLater(clock, 4 * (k - 1) + 1, 4 * (k - 1) + 2);
    }
  }

  /**
   * When sleeps are honoured the loop runs at most DURATION / SAMPLE_INTERVAL
   * (300) times, so at most that many samples are kept.
   */
  lemma IterationCount(clock: nat -> real, trace: seq<Iteration>)
    requires Monotone(clock) && IsTimedTrace(clock, trace) && SleepsHonoured(clock, trace)
    ensures |trace| as real * SAMPLE_INTERVAL <= DURATION
    ensures |Readings(trace)| <= 300
  {
    if trace != [] {
      var k := |trace| - 1;
      GuardAfterIntervals(clock, trace, k);
      assert IsTimed(clock, k, trace[k]);
    }
  }
}
