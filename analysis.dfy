/**
 * analyze_plot_info: the vertical velocity classes, the 5-point depth
 * smoothing and speed of every entry, and the rolling one-, two- and
 * three-minute depth windows.
 */
module Analysis {
  import opened Common
  import opened PlotData
  import Densify

  /** velocity(): the class of a vertical speed in mm/s (negative = ascending). */
  function VelocityOf(speed: int): (v: Velocity)
    ensures v == Stable <==> -25 <= speed < 25
    ensures v == Crazy <==> speed < -304 || speed >= 507
    ensures v == Fast <==> (-304 <= speed < -152 || 304 <= speed < 507)
    ensures v == Moderate <==> (-152 <= speed < -76 || 152 <= speed < 304)
    ensures v == Slow <==> (-76 <= speed < -25 || 25 <= speed < 152)
  {
    if speed < -304 then Crazy
    else if speed < -152 then Fast
    else if speed < -76 then Moderate
    else if speed < -25 then Slow
    else if speed < 25 then Stable
    else if speed < 152 then Slow
    else if speed < 304 then Moderate
    else if speed < 507 then Fast
    else Crazy
  }

  /** The class never falls as the speed moves away from the stable band, either way. */
  lemma VelocityMonotone(a: int, b: int)
    ensures -25 <= a <= b ==> Rank(VelocityOf(a)) <= Rank(VelocityOf(b))
    ensures a <= b < 25 ==> Rank(VelocityOf(a)) >= Rank(VelocityOf(b))
  {
  }

  /** Ascents are judged more strictly than descents: -200 mm/s is fast, +200 only moderate. */
  lemma VelocityExamples()
    ensures VelocityOf(-200) == Fast && VelocityOf(200) == Moderate
    ensures VelocityOf(-26) == Slow && VelocityOf(-25) == Stable && VelocityOf(24) == Stable && VelocityOf(507) == Crazy
  {
  }

  // ----- smoothing and speed -----

  /** The 5-point triangular smooth of the depth at entry i, rounded as (sum + 4) / 9 in C. */
  function Smoothed5(s: seq<PlotEntry>, i: nat): int
    requires 2 <= i && i + 2 < |s|
  {
    TruncDiv(s[i - 2].depth + 2 * s[i - 1].depth + 3 * s[i].depth + 2 * s[i + 1].depth + s[i + 2].depth + 4, 9)
  }

  /**
   * The look-back for a short step: from entry p = i - 2, walk back while
   * p > 0 and entry p is less than 15 s before entry i.
   */
  function Lookback(s: seq<PlotEntry>, i: nat, p: nat): (q: nat)
    requires p < i < |s|
    ensures q <= p
  {
    if p > 0 && s[i].sec - s[p].sec < 15 then Lookback(s, i, p - 1) else p
  }

  /** The look-back stops at the first entry, or at the latest one at least 15 s before entry i. */
  lemma {:induction false} LookbackStops(s: seq<PlotEntry>, i: nat, p: nat)
    requires p < i < |s|
    ensures var q := Lookback(s, i, p);
      (q == 0 || s[i].sec - s[q].sec >= 15) && (forall k :: q < k <= p ==> s[i].sec - s[k].sec < 15)
  {
    if p > 0 && s[i].sec - s[p].sec < 15 {
      LookbackStops(s, i, p - 1);
    }
  }

  /** The speed over the step into entry i (0 when the step has no duration). */
  function StepSpeed(s: seq<PlotEntry>, i: nat): int
    requires 1 <= i < |s|
  {
    if s[i].sec - s[i - 1].sec != 0 then TruncDiv(s[i].depth - s[i - 1].depth, s[i].sec - s[i - 1].sec) else 0
  }

  /** The look-back is used for a short step (under 15 s) that is not fast or crazy. */
  predicate LooksBack(s: seq<PlotEntry>, i: nat)
    requires 2 <= i < |s|
  {
    s[i].sec - s[i - 1].sec != 0 && s[i].sec - s[i - 1].sec < 15 && Rank(VelocityOf(StepSpeed(s, i))) < Rank(Fast)
  }

  /**
   * The look-back never divides by zero.  C leaves a zero divisor
   * undefined; entries sorted by time never produce one
   * (SortedHasNoZeroLookback).
   */
  predicate NoZeroLookback(s: seq<PlotEntry>) {
    forall i :: 2 <= i < |s| ==> LookbackNonzero(s, i)
  }

  predicate LookbackNonzero(s: seq<PlotEntry>, i: nat)
    requires 2 <= i < |s|
  {
    LooksBack(s, i) ==> s[i].sec != s[Lookback(s, i, i - 2)].sec
  }

  lemma SortedHasNoZeroLookback(s: seq<PlotEntry>)
    requires SortedBySec(s)
    ensures NoZeroLookback(s)
  {
    forall i | 2 <= i < |s|
      ensures LookbackNonzero(s, i)
    {
      if LooksBack(s, i) {
        var q := Lookback(s, i, i - 2);
        assert s[q].sec <= s[i - 1].sec < s[i].sec;
      }
    }
  }

  /**
   * The series populate_plot_entries builds has no zero look-back either,
   * although its two trailing entries can lie before the entries inserted
   * after a cut-off: the entries before them are sorted and start at time
   * 0, and the trailing ones lie after time 0.
   */
  lemma DensifiedHasNoZeroLookback(samples: seq<Sample>, maxtime: nat, interp: Densify.Interp)
    requires Densify.SensorsInRange(samples)
    ensures NoZeroLookback(Densify.Densified(samples, maxtime, interp))
  {
    var d := Densify.Densified(samples, maxtime, interp);
    var r := Densify.Run(samples, 0, Densify.Init, maxtime, interp);
    Densify.DensifiedSteps(samples, maxtime, interp);
    Densify.DensifiedTrailing(samples, maxtime, interp);
    Densify.DensifiedOfRun(samples, maxtime, interp, r);
    Densify.RunExtends(samples, 0, Densify.Init, maxtime, interp);
    assert d[0] == r.entries[..2][0] == ZeroEntry;
    var n := |d| - 2;
    var p := d[..n];
    forall i | 2 <= i < |d|
      ensures LookbackNonzero(d, i)
    {
      if LooksBack(d, i) {
        LookbackStops(d, i, i - 2);
        if i < n {
          assert p[0].sec <= p[i - 1].sec <= p[i].sec;
        }
      }
    }
  }

  /** The velocity of entry i: the step's class, refined over the look-back for short gentle steps. */
  function StepVelocity(s: seq<PlotEntry>, i: nat): Velocity
    requires 2 <= i < |s| && NoZeroLookback(s)
  {
    if s[i].sec - s[i - 1].sec == 0 then Stable
    else if LooksBack(s, i) then
      assert LookbackNonzero(s, i);
      var p := Lookback(s, i, i - 2);
      VelocityOf(TruncDiv(s[i].depth - s[p].depth, s[i].sec - s[p].sec))
    else VelocityOf(StepSpeed(s, i))
  }

  /**
   * Entry i after the first loop of analyze_plot_info: smoothed depth (not
   * for the first two and last two entries), speed and velocity; the first
   * two entries are left alone.
   */
  function SmoothedEntry(s: seq<PlotEntry>, i: nat): (e: PlotEntry)
    requires i < |s| && NoZeroLookback(s)
    ensures e.sec == s[i].sec && e.depth == s[i].depth && e.windows == s[i].windows && e.cyl == s[i].cyl
    ensures i < 2 ==> e == s[i]
    ensures 2 <= i ==> e.speed == StepSpeed(s, i) && e.velocity == StepVelocity(s, i)
    ensures 2 <= i && i + 2 < |s| ==> e.smoothed == Smoothed5(s, i)
    ensures !(2 <= i && i + 2 < |s|) ==> e.smoothed == s[i].smoothed
  {
    if i < 2 then s[i]
    else
      var e1 := if i + 2 < |s| then s[i].(smoothed := Smoothed5(s, i)) else s[i];
      e1.(speed := StepSpeed(s, i), velocity := StepVelocity(s, i))
  }

  /** A zero-duration step is stable with speed 0. */
  lemma ZeroStepStable(s: seq<PlotEntry>, i: nat)
    requires 2 <= i < |s| && NoZeroLookback(s) && s[i].sec == s[i - 1].sec
    ensures SmoothedEntry(s, i).velocity == Stable && SmoothedEntry(s, i).speed == 0
  {
  }

  /** A step of 15 s or more, or one already fast, keeps the class of its own speed. */
  lemma LongStepKeepsOwnClass(s: seq<PlotEntry>, i: nat)
    requires 2 <= i < |s| && NoZeroLookback(s) && s[i].sec != s[i - 1].sec
    requires s[i].sec - s[i - 1].sec >= 15 || Rank(VelocityOf(StepSpeed(s, i))) >= Rank(Fast)
    ensures SmoothedEntry(s, i).velocity == VelocityOf(SmoothedEntry(s, i).speed)
  {
  }

  /** Smoothing a constant depth gives the same depth back. */
  lemma SmoothFlat(s: seq<PlotEntry>, i: nat, d: nat)
    requires 2 <= i && i + 2 < |s|
    requires forall k :: i - 2 <= k <= i + 2 ==> s[k].depth == d
    ensures Smoothed5(s, i) == d
  {
    assert s[i - 2].depth + 2 * s[i - 1].depth + 3 * s[i].depth + 2 * s[i + 1].depth + s[i + 2].depth + 4 == 9 * d + 4;
  }

  // ----- the rolling windows -----

  /** The window half-width of analyze_plot_info_minmax_minute for index 0, 1 or 2. */
  function WindowSeconds(index: nat): int {
    90 * (index + 1)
  }

  /** Going back from p: the first entry of the run, the earliest reachable one not before time - seconds. */
  function RunStart(s: seq<PlotEntry>, p: nat, limit: int): (lo: nat)
    requires p < |s|
    ensures lo <= p
  {
    if p > 0 && s[p - 1].sec >= limit then RunStart(s, p - 1, limit) else p
  }

  lemma {:induction false} RunStartStops(s: seq<PlotEntry>, p: nat, limit: int)
    requires p < |s|
    ensures var lo := RunStart(s, p, limit);
      (lo == 0 || s[lo - 1].sec < limit) && (forall k :: lo <= k < p ==> s[k].sec >= limit)
  {
    if p > 0 && s[p - 1].sec >= limit {
      RunStartStops(s, p - 1, limit);
    }
  }

  /** Going forward from lo: one past the last entry of the run, the first later entry past time + seconds. */
  function RunEnd(s: seq<PlotEntry>, q: nat, limit: int): (hi: nat)
    requires q <= |s|
    ensures q <= hi <= |s|
    decreases |s| - q
  {
    if q < |s| && s[q].sec <= limit then RunEnd(s, q + 1, limit) else q
  }

  lemma {:induction false} RunEndStops(s: seq<PlotEntry>, q: nat, limit: int)
    requires q <= |s|
    ensures var hi := RunEnd(s, q, limit);
      (hi == |s| || s[hi].sec > limit) && (forall k :: q <= k < hi ==> s[k].sec <= limit)
    decreases |s| - q
  {
    if q < |s| && s[q].sec <= limit {
      RunEndStops(s, q + 1, limit);
    }
  }

  /** The first index of a strictly smallest depth in s[lo..hi], scanning from best. */
  function ArgMin(s: seq<PlotEntry>, best: nat, q: nat, hi: nat): (m: nat)
    requires best < q <= hi <= |s|
    ensures best <= m < hi && (m == best || q <= m)
    decreases hi - q
  {
    if q == hi then best
    else if s[q].depth < s[best].depth then ArgMin(s, q, q + 1, hi)
    else ArgMin(s, best, q + 1, hi)
  }

  lemma {:induction false} ArgMinIsFirstMinimum(s: seq<PlotEntry>, best: nat, q: nat, hi: nat)
    requires best < q <= hi <= |s|
    ensures var m := ArgMin(s, best, q, hi);
      s[m].depth <= s[best].depth &&
      (forall k :: q <= k < hi ==> s[m].depth <= s[k].depth) &&
      (forall k :: q <= k < m ==> s[k].depth > s[m].depth) &&
      (m != best ==> s[m].depth < s[best].depth)
    decreases hi - q
  {
    if q < hi {
      if s[q].depth < s[best].depth {
        ArgMinIsFirstMinimum(s, q, q + 1, hi);
      } else {
        ArgMinIsFirstMinimum(s, best, q + 1, hi);
      }
    }
  }

  /** The first index of a strictly largest depth in s[lo..hi], scanning from best. */
  function ArgMax(s: seq<PlotEntry>, best: nat, q: nat, hi: nat): (m: nat)
    requires best < q <= hi <= |s|
    ensures best <= m < hi && (m == best || q <= m)
    decreases hi - q
  {
    if q == hi then best
    else if s[q].depth > s[best].depth then ArgMax(s, q, q + 1, hi)
    else ArgMax(s, best, q + 1, hi)
  }

  lemma {:induction false} ArgMaxIsFirstMaximum(s: seq<PlotEntry>, best: nat, q: nat, hi: nat)
    requires best < q <= hi <= |s|
    ensures var m := ArgMax(s, best, q, hi);
      s[m].depth >= s[best].depth &&
      (forall k :: q <= k < hi ==> s[m].depth >= s[k].depth) &&
      (forall k :: q <= k < m ==> s[k].depth < s[m].depth) &&
      (m != best ==> s[m].depth > s[best].depth)
    decreases hi - q
  {
    if q < hi {
      if s[q].depth > s[best].depth {
        ArgMaxIsFirstMaximum(s, q, q + 1, hi);
      } else {
        ArgMaxIsFirstMaximum(s, best, q + 1, hi);
      }
    }
  }

  function DepthSum(s: seq<PlotEntry>, lo: nat, hi: nat): int
    requires lo <= hi <= |s|
    decreases hi - lo
  {
    if lo == hi then 0 else DepthSum(s, lo, hi - 1) + s[hi - 1].depth
  }

  /** The run of entries window index covers around entry i: s[lo..hi]. */
  function RunLo(s: seq<PlotEntry>, i: nat, index: nat): (lo: nat)
    requires i < |s|
    ensures lo <= i
  {
    RunStart(s, i, s[i].sec - WindowSeconds(index))
  }

  function RunHi(s: seq<PlotEntry>, i: nat, index: nat): (hi: nat)
    requires i < |s|
    ensures RunLo(s, i, index) < hi <= |s|
  {
    RunEnd(s, RunLo(s, i, index) + 1, s[i].sec + WindowSeconds(index))
  }

  /** The window over the run s[lo..hi]. */
  function WindowOf(s: seq<PlotEntry>, lo: nat, hi: nat): Window
    requires lo < hi <= |s|
  {
    var n := hi - lo;
    Window(ArgMin(s, lo, lo + 1, hi), ArgMax(s, lo, lo + 1, hi), TruncDiv(DepthSum(s, lo, hi) + n / 2, n))
  }

  /** analyze_plot_info_minmax_minute: first argmin, first argmax and rounded mean depth of the run. */
  function MinMaxWindow(s: seq<PlotEntry>, i: nat, index: nat): Window
    requires i < |s|
  {
    WindowOf(s, RunLo(s, i, index), RunHi(s, i, index))
  }

  /**
   * Over entries sorted by time the run is exactly the maximal stretch of
   * entries within time +- seconds of entry i, and contains entry i.
   */
  lemma RunIsWindow(s: seq<PlotEntry>, i: nat, index: nat)
    requires i < |s| && SortedBySec(s)
    ensures var lo, hi := RunLo(s, i, index), RunHi(s, i, index);
      lo <= i < hi &&
      (forall k :: lo <= k < hi ==> s[i].sec - WindowSeconds(index) <= s[k].sec <= s[i].sec + WindowSeconds(index)) &&
      (lo == 0 || s[lo - 1].sec < s[i].sec - WindowSeconds(index)) &&
      (hi == |s| || s[hi].sec > s[i].sec + WindowSeconds(index))
  {
    var lo, hi := RunLo(s, i, index), RunHi(s, i, index);
    var time := s[i].sec;
    RunStartStops(s, i, time - WindowSeconds(index));
    RunEndStops(s, lo + 1, time + WindowSeconds(index));
    assert forall k :: lo <= k <= i ==> s[k].sec <= time;
  }

  /**
   * The window's min and max are the first strict argmin and argmax of the
   * depth over its run.
   */
  lemma WindowExtremes(s: seq<PlotEntry>, i: nat, index: nat)
    requires i < |s|
    ensures var lo, hi := RunLo(s, i, index), RunHi(s, i, index); var w := MinMaxWindow(s, i, index);
      lo <= w.min < hi && lo <= w.max < hi &&
      (forall k :: lo <= k < hi ==> s[w.min].depth <= s[k].depth <= s[w.max].depth) &&
      (forall k :: lo <= k < w.min ==> s[k].depth > s[w.min].depth) &&
      (forall k :: lo <= k < w.max ==> s[k].depth < s[w.max].depth)
  {
    var lo, hi := RunLo(s, i, index), RunHi(s, i, index);
    ArgMinIsFirstMinimum(s, lo, lo + 1, hi);
    ArgMaxIsFirstMaximum(s, lo, lo + 1, hi);
  }

  /** With non-negative depths the rounded mean lies between the run's minimum and maximum depth. */
  lemma WindowAverage(s: seq<PlotEntry>, i: nat, index: nat)
    requires i < |s|
    requires forall k :: 0 <= k < |s| ==> s[k].depth >= 0
    ensures var w := MinMaxWindow(s, i, index); s[w.min].depth <= w.avg <= s[w.max].depth
  {
    var lo, hi := RunLo(s, i, index), RunHi(s, i, index);
    var w := MinMaxWindow(s, i, index);
    WindowExtremes(s, i, index);
    SumBounds(s, lo, hi, s[w.min].depth, s[w.max].depth);
    RoundedMeanBounds(DepthSum(s, lo, hi), hi - lo, s[w.min].depth, s[w.max].depth);
  }

  /** (sum + n/2) / n stays within [a, b] when sum is n values in [a, b]. */
  lemma RoundedMeanBounds(sum: int, n: int, a: nat, b: int)
    requires n > 0 && n * a <= sum <= n * b
    ensures a <= TruncDiv(sum + n / 2, n) <= b
  {
    MulNonneg(n, a);
    TruncDivNonneg(sum + n / 2, n);
    var q := (sum + n / 2) / n;
    DivBounds(sum + n / 2, n);
    assert q * n <= sum + n / 2 < (q + 1) * n;
    assert a * n == n * a && (b + 1) * n == n * b + n;
    if q < a {
      MulMonotone(q + 1, a, n);
    }
    if q > b {
      MulMonotone(b + 1, q, n);
    }
  }

  lemma {:induction false} SumBounds(s: seq<PlotEntry>, lo: nat, hi: nat, a: int, b: int)
    requires lo <= hi <= |s|
    requires forall k :: lo <= k < hi ==> a <= s[k].depth <= b
    ensures (hi - lo) * a <= DepthSum(s, lo, hi) <= (hi - lo) * b
    decreases hi - lo
  {
    if lo < hi {
      SumBounds(s, lo, hi - 1, a, b);
      assert (hi - lo) * a == (hi - 1 - lo) * a + a;
      assert (hi - lo) * b == (hi - 1 - lo) * b + b;
    }
  }

  /** The entries after analyze_plot_info: each smoothed entry with its three windows. */
  function Analyzed(s: seq<PlotEntry>): (r: seq<PlotEntry>)
    requires NoZeroLookback(s)
    ensures |r| == |s|
  {
    seq(|s|, k requires 0 <= k < |s| =>
      SmoothedEntry(s, k).(windows := [MinMaxWindow(s, k, 0), MinMaxWindow(s, k, 1), MinMaxWindow(s, k, 2)]))
  }

  // ----- the imperative passes -----

  /**
   * analyze_plot_info over the first nr entries: smoothing, speed and
   * velocity for every entry, then the three windows of every entry.
   */
  method AnalyzePlotInfo(entry: array<PlotEntry>, nr: nat)
    requires nr <= entry.Length && NoZeroLookback(entry[..nr])
    modifies entry
    ensures entry[..nr] == Analyzed(old(entry[..nr]))
    ensures entry[nr..] == old(entry[nr..])
  {
    ghost var s := entry[..nr];
    SmoothAll(entry, nr, s);
    MinMaxAll(entry, nr, s);
    assert entry[..nr] == Analyzed(s);
  }

  /** The first loop of analyze_plot_info. */
  method SmoothAll(entry: array<PlotEntry>, nr: nat, ghost s: seq<PlotEntry>)
    requires nr <= entry.Length && s == entry[..nr] && NoZeroLookback(s)
    modifies entry
    ensures forall k :: 0 <= k < nr ==> entry[k] == SmoothedEntry(s, k)
    ensures forall k :: nr <= k < entry.Length ==> entry[k] == old(entry[k])
  {
    var i := 2;
    while i < nr
      invariant 2 <= i && (nr >= 2 ==> i <= nr)
      invariant forall k :: 0 <= k < nr ==> entry[k] == if 2 <= k < i then SmoothedEntry(s, k) else s[k]
      invariant forall k :: nr <= k < entry.Length ==> entry[k] == old(entry[k])
      decreases nr - i
    {
      SmoothOne(entry, nr, s, i);
      i := i + 1;
    }
  }

  /** The second loop of analyze_plot_info. */
  method MinMaxAll(entry: array<PlotEntry>, nr: nat, ghost s: seq<PlotEntry>)
    requires nr <= entry.Length && |s| == nr && NoZeroLookback(s)
    requires forall k :: 0 <= k < nr ==> entry[k] == SmoothedEntry(s, k)
    modifies entry
    ensures forall k :: 0 <= k < nr ==> entry[k] == Analyzed(s)[k]
    ensures forall k :: nr <= k < entry.Length ==> entry[k] == old(entry[k])
  {
    var i := 0;
    while i < nr
      invariant 0 <= i <= nr
      invariant forall k :: 0 <= k < i ==> entry[k] == Analyzed(s)[k]
      invariant forall k :: i <= k < nr ==> entry[k] == SmoothedEntry(s, k)
      invariant forall k :: nr <= k < entry.Length ==> entry[k] == old(entry[k])
      decreases nr - i
    {
      MinMaxEntry(entry, nr, s, i);
      i := i + 1;
    }
  }

  /** The first loop's body for entry i. */
  method SmoothOne(entry: array<PlotEntry>, nr: nat, ghost s: seq<PlotEntry>, i: nat)
    requires nr <= entry.Length && |s| == nr && 2 <= i < nr && NoZeroLookback(s)
    requires forall k :: 0 <= k < nr ==> entry[k].sec == s[k].sec && entry[k].depth == s[k].depth
    requires entry[i] == s[i]
    modifies entry
    ensures entry[i] == SmoothedEntry(s, i)
    ensures forall k :: 0 <= k < entry.Length && k != i ==> entry[k] == old(entry[k])
  {
    var e := entry[i];
    if i < nr - 2 {
      var depth := entry[i - 2].depth + 2 * entry[i - 1].depth + 3 * e.depth + 2 * entry[i + 1].depth + entry[i + 2].depth;
      e := e.(smoothed := TruncDiv(depth + 4, 9));
    }
    var speed, v := EntryVelocity(entry, nr, s, i);
    entry[i] := e.(speed := speed, velocity := v);
  }

  /** The speed and velocity the first loop gives entry i. */
  method EntryVelocity(entry: array<PlotEntry>, nr: nat, ghost s: seq<PlotEntry>, i: nat) returns (speed: int, v: Velocity)
    requires nr <= entry.Length && |s| == nr && 2 <= i < nr && NoZeroLookback(s)
    requires forall k :: 0 <= k < nr ==> entry[k].sec == s[k].sec && entry[k].depth == s[k].depth
    ensures speed == StepSpeed(s, i) && v == StepVelocity(s, i)
  {
    var dt := entry[i].sec - entry[i - 1].sec;
    if dt != 0 {
      speed := TruncDiv(entry[i].depth - entry[i - 1].depth, dt);
      v := VelocityOf(speed);
      if dt < 15 && Rank(v) < Rank(Fast) {
        assert LooksBack(s, i) && LookbackNonzero(s, i);
        var past := LookbackIndex(entry, nr, s, i);
        v := VelocityOf(TruncDiv(entry[i].depth - entry[past].depth, entry[i].sec - entry[past].sec));
      }
    } else {
      v, speed := Stable, 0;
    }
  }

  /** The look-back walk of the first loop. */
  method LookbackIndex(entry: array<PlotEntry>, nr: nat, ghost s: seq<PlotEntry>, i: nat) returns (past: nat)
    requires nr <= entry.Length && |s| == nr && 2 <= i < nr
    requires forall k :: 0 <= k < nr ==> entry[k].sec == s[k].sec
    ensures past == Lookback(s, i, i - 2)
  {
    past := i - 2;
    while past > 0 && entry[i].sec - entry[past].sec < 15
      invariant 0 <= past <= i - 2
      invariant Lookback(s, i, past) == Lookback(s, i, i - 2)
      decreases past
    {
      past := past - 1;
    }
  }

  /** The three windows of entry i. */
  method MinMaxEntry(entry: array<PlotEntry>, nr: nat, ghost s: seq<PlotEntry>, i: nat)
    requires nr <= entry.Length && |s| == nr && i < nr && NoZeroLookback(s)
    requires forall k :: 0 <= k < nr ==> entry[k].sec == s[k].sec && entry[k].depth == s[k].depth
    requires entry[i] == SmoothedEntry(s, i)
    modifies entry
    ensures entry[i] == Analyzed(s)[i]
    ensures forall k :: 0 <= k < entry.Length && k != i ==> entry[k] == old(entry[k])
  {
    var w0 := MinMaxMinute(entry, nr, s, i, 0);
    var w1 := MinMaxMinute(entry, nr, s, i, 1);
    var w2 := MinMaxMinute(entry, nr, s, i, 2);
    entry[i] := entry[i].(windows := [w0, w1, w2]);
  }

  /** analyze_plot_info_minmax_minute: the two scans, reading only times and depths. */
  method MinMaxMinute(entry: array<PlotEntry>, nr: nat, ghost s: seq<PlotEntry>, i: nat, index: nat)
      returns (w: Window)
    requires nr <= entry.Length && |s| == nr && i < nr
    requires forall k :: 0 <= k < nr ==> entry[k].sec == s[k].sec && entry[k].depth == s[k].depth
    ensures w == MinMaxWindow(s, i, index)
  {
    var time := entry[i].sec;
    var seconds := 90 * (index + 1);
    var lo := GoBack(entry, nr, s, i, time - seconds);
    w := GoForward(entry, nr, s, lo, time + seconds);
  }

  /** The backward walk: the first entry of the run. */
  method GoBack(entry: array<PlotEntry>, nr: nat, ghost s: seq<PlotEntry>, i: nat, limit: int) returns (p: nat)
    requires nr <= entry.Length && |s| == nr && i < nr
    requires forall k :: 0 <= k < nr ==> entry[k].sec == s[k].sec
    ensures p == RunStart(s, i, limit)
  {
    p := i;
    while p > 0
      invariant 0 <= p <= i
      invariant RunStart(s, p, limit) == RunStart(s, i, limit)
      decreases p
    {
      if entry[p - 1].sec < limit {
        break;
      }
      p := p - 1;
    }
  }

  /** The forward walk from the run's first entry lo: argmin, argmax and rounded mean. */
  method GoForward(entry: array<PlotEntry>, nr: nat, ghost s: seq<PlotEntry>, lo: nat, limit: int) returns (w: Window)
    requires nr <= entry.Length && |s| == nr && lo < nr
    requires forall k :: 0 <= k < nr ==> entry[k].sec == s[k].sec && entry[k].depth == s[k].depth
    ensures w == WindowOf(s, lo, RunEnd(s, lo + 1, limit))
  {
    ghost var hi := RunEnd(s, lo + 1, limit);
    var min: nat, max: nat := lo, lo;
    var avg := entry[lo].depth;
    var n := 1;
    var p := lo + 1;
    while p < nr
      invariant lo < p <= hi && n == p - lo
      invariant lo <= min < p && lo <= max < p
      invariant RunEnd(s, p, limit) == hi
      invariant ArgMin(s, min, p, hi) == ArgMin(s, lo, lo + 1, hi)
      invariant ArgMax(s, max, p, hi) == ArgMax(s, lo, lo + 1, hi)
      invariant avg == DepthSum(s, lo, p)
      decreases nr - p
    {
      var depth := entry[p].depth;
      if entry[p].sec > limit {
        break;
      }
      assert DepthSum(s, lo, p + 1) == DepthSum(s, lo, p) + depth;
      avg := avg + depth;
      n := n + 1;
      if depth < entry[min].depth {
        min := p;
      }
      if depth > entry[max].depth {
        max := p;
      }
      p := p + 1;
    }
    w := Window(min, max, TruncDiv(avg + n / 2, n));
  }
}
