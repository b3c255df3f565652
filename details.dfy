/**
 * The entry lookup behind the hover details (get_plot_details) and the
 * integer statistics compare_samples gathers between two plot entries
 * for the ruler.
 */
module Details {
  import opened Common
  import opened PlotData

  /**
   * get_plot_details: the entry whose details are shown for time, the
   * first at or after it, else the last one; none when there are no
   * entries.
   */
  method PlotDetailsEntry(s: seq<PlotEntry>, time: int) returns (r: Option<nat>)
    ensures r.None? <==> s == []
    ensures r.Some? ==> r.value < |s| && forall k :: 0 <= k < r.value ==> s[k].sec < time
    ensures r.Some? && (exists k :: 0 <= k < |s| && s[k].sec >= time) ==> s[r.value].sec >= time
    ensures r.Some? && (forall k :: 0 <= k < |s| ==> s[k].sec < time) ==> r.value == |s| - 1
  {
    r := None;
    var i := 0;
    while i < |s|
      invariant 0 <= i <= |s|
      invariant forall k :: 0 <= k < i ==> s[k].sec < time
      invariant r.None? <==> i == 0
      invariant r.Some? ==> r.value == i - 1
      decreases |s| - i
    {
      r := Some(i);
      if s[i].sec >= time {
        return;
      }
      i := i + 1;
    }
  }

  /** The statistics of compare_samples that are not text. */
  datatype Comparison = Comparison(
    deltaTime: nat,
    deltaDepth: nat,
    avgDepth: int,
    avgSpeed: int,
    maxAscSpeed: int,
    maxDescSpeed: int,
    minDepth: int,
    maxDepth: int,
    gasUsed: bool,
    cylUsed: seq<bool>)

  /** The time entry j of the walk from st adds to the weighted sums: none for st itself. */
  function Weight(s: seq<PlotEntry>, st: nat, j: nat): int
    requires st <= j < |s|
  {
    if j == st then 0 else s[j].sec - s[j - 1].sec
  }

  /** The time-weighted depth sum over entries st..e-1. */
  function WeightedDepth(s: seq<PlotEntry>, st: nat, e: nat): int
    requires st <= e <= |s|
    decreases e - st
  {
    if e == st then 0 else WeightedDepth(s, st, e - 1) + s[e - 1].depth * Weight(s, st, e - 1)
  }

  /** The speed of an entry as summed: its magnitude when sum is set. */
  function SpeedTerm(e: PlotEntry, sum: bool): int {
    if sum then Abs(e.speed) else e.speed
  }

  /** The time-weighted speed sum over entries st..e-1. */
  function WeightedSpeed(s: seq<PlotEntry>, st: nat, e: nat, sum: bool): int
    requires st <= e <= |s|
    decreases e - st
  {
    if e == st then 0 else WeightedSpeed(s, st, e - 1, sum) + SpeedTerm(s[e - 1], sum) * Weight(s, st, e - 1)
  }

  /** Whether cylinder c is in use at one of the entries st..e-1. */
  predicate CylinderSeen(s: seq<PlotEntry>, st: nat, e: nat, c: nat)
    requires st <= e <= |s| && AllWellFormed(s) && c < MaxCylinders
  {
    exists j :: st <= j < e && s[j].cyl[c].usage != NotInUse
  }

  /** Depths are C ints: none exceeds INT_MAX, the start value of the minimum. */
  predicate IntDepths(s: seq<PlotEntry>) {
    forall k :: 0 <= k < |s| ==> s[k].depth <= IntMax
  }

  /** The entry indices compare_samples walks between: earlier first, as entries are laid out. */
  predicate Ordered(s: seq<PlotEntry>, e1: nat, e2: nat)
    requires e1 < |s| && e2 < |s|
  {
    (s[e1].sec < s[e2].sec ==> e1 < e2) && (s[e2].sec < s[e1].sec ==> e2 < e1)
  }

  /**
   * compare_samples on entries e1 and e2 of s (None for a null entry):
   * nothing for a missing entry or two entries at the same time;
   * otherwise, over the entries from the earlier to the later one, the
   * time-weighted mean depth and speed, the extreme speeds and depths and
   * the cylinders in use.
   */
  method CompareSamples(s: seq<PlotEntry>, e1: Option<nat>, e2: Option<nat>, sum: bool) returns (r: Option<Comparison>)
    requires AllWellFormed(s) && IntDepths(s)
    requires e1.Some? ==> e1.value < |s|
    requires e2.Some? ==> e2.value < |s|
    requires e1.Some? && e2.Some? ==> Ordered(s, e1.value, e2.value)
    ensures r.None? <==> e1.None? || e2.None? || s[e1.value].sec == s[e2.value].sec
    ensures r.Some? ==>
      var st := if s[e1.value].sec < s[e2.value].sec then e1.value else e2.value;
      var sp := if s[e1.value].sec < s[e2.value].sec then e2.value else e1.value;
      var c := r.value;
      st < sp &&
      c.deltaTime == Abs(s[sp].sec - s[st].sec) && c.deltaDepth == Abs(s[sp].depth - s[st].depth) &&
      c.avgDepth == TruncDiv(WeightedDepth(s, st, sp + 1), s[sp].sec - s[st].sec) &&
      c.avgSpeed == TruncDiv(WeightedSpeed(s, st, sp + 1, sum), s[sp].sec - s[st].sec) &&
      RangeStats(s, st, sp + 1, c)
  {
    if e1.None? || e2.None? {
      return None;
    }
    var st, sp;
    if s[e1.value].sec < s[e2.value].sec {
      st, sp := e1.value, e2.value;
    } else if s[e1.value].sec > s[e2.value].sec {
      st, sp := e2.value, e1.value;
    } else {
      return None;
    }
    var c := Walk(s, st, sp, sum);
    c := c.(
      avgDepth := TruncDiv(c.avgDepth, s[sp].sec - s[st].sec),
      avgSpeed := TruncDiv(c.avgSpeed, s[sp].sec - s[st].sec));
    r := Some(c);
  }

  /** The smallest depth of entries st..e-1, attained by one of them. */
  predicate LeastDepth(s: seq<PlotEntry>, st: nat, e: nat, v: int)
    requires st <= e <= |s|
  {
    (forall j :: st <= j < e ==> v <= s[j].depth) && (exists j :: st <= j < e && v == s[j].depth)
  }

  /** The greatest depth of entries st..e-1, or 0 when none is deeper than the surface. */
  predicate DeepestOrZero(s: seq<PlotEntry>, st: nat, e: nat, v: int)
    requires st <= e <= |s|
  {
    v >= 0 && (forall j :: st <= j < e ==> s[j].depth <= v) &&
    (v == 0 || exists j :: st <= j < e && v == s[j].depth)
  }

  /** The most negative speed (fastest ascent) of entries st..e-1, or 0 when none is negative. */
  predicate FastestAscentOrZero(s: seq<PlotEntry>, st: nat, e: nat, v: int)
    requires st <= e <= |s|
  {
    v <= 0 && (forall j :: st <= j < e ==> v <= s[j].speed) &&
    (v == 0 || exists j :: st <= j < e && v == s[j].speed)
  }

  /** The greatest speed (fastest descent) of entries st..e-1, or 0 when none is positive. */
  predicate FastestDescentOrZero(s: seq<PlotEntry>, st: nat, e: nat, v: int)
    requires st <= e <= |s|
  {
    v >= 0 && (forall j :: st <= j < e ==> s[j].speed <= v) &&
    (v == 0 || exists j :: st <= j < e && v == s[j].speed)
  }

  /** The cylinder flags of entries st..e-1, and whether any is set. */
  predicate CylindersOf(s: seq<PlotEntry>, st: nat, e: nat, used: seq<bool>, gas: bool)
    requires st <= e <= |s| && AllWellFormed(s)
  {
    |used| == MaxCylinders &&
    (forall k :: 0 <= k < MaxCylinders ==> (used[k] <==> CylinderSeen(s, st, e, k))) &&
    (gas <==> exists k :: 0 <= k < MaxCylinders && used[k])
  }

  /**
   * The extremes compare_samples reports for entries st..e-1: the smallest
   * depth, the deepest depth or 0, the fastest ascent (most negative speed)
   * or 0, the fastest descent or 0, and which cylinders are in use.
   */
  predicate RangeStats(s: seq<PlotEntry>, st: nat, e: nat, c: Comparison)
    requires st < e <= |s| && AllWellFormed(s)
  {
    LeastDepth(s, st, e, c.minDepth) && DeepestOrZero(s, st, e, c.maxDepth) &&
    FastestAscentOrZero(s, st, e, c.maxAscSpeed) && FastestDescentOrZero(s, st, e, c.maxDescSpeed) &&
    CylindersOf(s, st, e, c.cylUsed, c.gasUsed)
  }

  /** Before the first entry: the sums are empty, the extremes at their start values. */
  predicate Initial(c: Comparison) {
    c.avgDepth == 0 && c.avgSpeed == 0 &&
    c.minDepth == IntMax && c.maxDepth == 0 && c.maxAscSpeed == 0 && c.maxDescSpeed == 0 &&
    c.cylUsed == [false, false, false, false, false, false, false, false] && !c.gasUsed
  }

  /** The statistics after walking entries st..e-1. */
  predicate Walked(s: seq<PlotEntry>, st: nat, e: nat, sum: bool, c: Comparison)
    requires st <= e <= |s| && AllWellFormed(s)
  {
    c.avgDepth == WeightedDepth(s, st, e) && c.avgSpeed == WeightedSpeed(s, st, e, sum) &&
    (if e == st then Initial(c) else RangeStats(s, st, e, c))
  }

  /**
   * The walk of compare_samples from entry st to entry sp inclusive; avgDepth
   * and avgSpeed still hold the weighted sums.
   */
  method Walk(s: seq<PlotEntry>, st: nat, sp: nat, sum: bool) returns (c: Comparison)
    requires st < sp < |s| && AllWellFormed(s) && IntDepths(s)
    ensures c.deltaTime == Abs(s[sp].sec - s[st].sec) && c.deltaDepth == Abs(s[sp].depth - s[st].depth)
    ensures Walked(s, st, sp + 1, sum, c)
  {
    c := Comparison(Abs(s[st].sec - s[sp].sec), Abs(s[st].depth - s[sp].depth), 0, 0, 0, 0, IntMax, 0,
      false, [false, false, false, false, false, false, false, false]);
    var lastSec := s[st].sec;
    var data := st;
    var count := 0;
    while data != sp
      invariant 0 <= count <= sp - st + 1 && data == if count == 0 then st else st + count - 1
      invariant lastSec == s[data].sec
      invariant c.deltaTime == Abs(s[sp].sec - s[st].sec) && c.deltaDepth == Abs(s[sp].depth - s[st].depth)
      invariant Walked(s, st, if count == 0 then st else data + 1, sum, c)
      decreases sp - st + 1 - count
    {
      data := st + count;
      c := Visit(s, st, data, lastSec, sum, c);
      count := count + 1;
      lastSec := s[data].sec;
    }
  }

  /** One step of the walk: entry j after the first j - st entries. */
  method Visit(s: seq<PlotEntry>, st: nat, j: nat, lastSec: int, sum: bool, c0: Comparison) returns (c: Comparison)
    requires st <= j < |s| && AllWellFormed(s) && IntDepths(s)
    requires lastSec == s[if j == st then st else j - 1].sec
    requires Walked(s, st, j, sum, c0)
    ensures c.deltaTime == c0.deltaTime && c.deltaDepth == c0.deltaDepth
    ensures Walked(s, st, j + 1, sum, c)
  {
    var data := s[j];
    var dt := data.sec - lastSec;
    assert dt == Weight(s, st, j);
    c := c0;
    if sum {
      c := c.(avgSpeed := c.avgSpeed + Abs(data.speed) * dt);
    } else {
      c := c.(avgSpeed := c.avgSpeed + data.speed * dt);
    }
    c := c.(avgDepth := c.avgDepth + data.depth * dt);
    c := UpdateExtremes(c, data);
    WalkedStep(s, st, j, sum, c0, c);
  }

  /** Adding entry j to the sums and the extremes walks one entry further. */
  lemma WalkedStep(s: seq<PlotEntry>, st: nat, j: nat, sum: bool, c0: Comparison, c: Comparison)
    requires st <= j < |s| && AllWellFormed(s) && IntDepths(s)
    requires Walked(s, st, j, sum, c0)
    requires c.avgDepth == c0.avgDepth + s[j].depth * Weight(s, st, j)
    requires c.avgSpeed == c0.avgSpeed + SpeedTerm(s[j], sum) * Weight(s, st, j)
    requires c.maxDescSpeed == if s[j].speed > c0.maxDescSpeed then s[j].speed else c0.maxDescSpeed
    requires c.maxAscSpeed == if s[j].speed < c0.maxAscSpeed then s[j].speed else c0.maxAscSpeed
    requires c.minDepth == if s[j].depth < c0.minDepth then s[j].depth else c0.minDepth
    requires c.maxDepth == if s[j].depth > c0.maxDepth then s[j].depth else c0.maxDepth
    requires |c.cylUsed| == MaxCylinders
    requires forall k :: 0 <= k < MaxCylinders ==> (c.cylUsed[k] <==> c0.cylUsed[k] || s[j].cyl[k].usage != NotInUse)
    requires c.gasUsed <==> exists k :: 0 <= k < MaxCylinders && c.cylUsed[k]
    ensures Walked(s, st, j + 1, sum, c)
  {
    LeastDepthStep(s, st, j, c0.minDepth, c.minDepth);
    DeepestStep(s, st, j, c0.maxDepth, c.maxDepth);
    AscentStep(s, st, j, c0.maxAscSpeed, c.maxAscSpeed);
    DescentStep(s, st, j, c0.maxDescSpeed, c.maxDescSpeed);
    CylindersStep(s, st, j, c0.cylUsed, c.cylUsed, c.gasUsed);
  }

  /** The comparisons of one step: each extreme moves to the entry's value when it is beyond it. */
  method UpdateExtremes(c0: Comparison, data: PlotEntry) returns (c: Comparison)
    requires WellFormed(data) && |c0.cylUsed| == MaxCylinders
    requires c0.gasUsed <==> exists k :: 0 <= k < MaxCylinders && c0.cylUsed[k]
    ensures c.deltaTime == c0.deltaTime && c.deltaDepth == c0.deltaDepth
    ensures c.avgDepth == c0.avgDepth && c.avgSpeed == c0.avgSpeed
    ensures c.maxDescSpeed == if data.speed > c0.maxDescSpeed then data.speed else c0.maxDescSpeed
    ensures c.maxAscSpeed == if data.speed < c0.maxAscSpeed then data.speed else c0.maxAscSpeed
    ensures c.minDepth == if data.depth < c0.minDepth then data.depth else c0.minDepth
    ensures c.maxDepth == if data.depth > c0.maxDepth then data.depth else c0.maxDepth
    ensures |c.cylUsed| == MaxCylinders
    ensures forall k :: 0 <= k < MaxCylinders ==> (c.cylUsed[k] <==> c0.cylUsed[k] || data.cyl[k].usage != NotInUse)
    ensures c.gasUsed <==> exists k :: 0 <= k < MaxCylinders && c.cylUsed[k]
  {
    c := c0;
    if data.speed > c.maxDescSpeed {
      c := c.(maxDescSpeed := data.speed);
    }
    if data.speed < c.maxAscSpeed {
      c := c.(maxAscSpeed := data.speed);
    }
    if data.depth < c.minDepth {
      c := c.(minDepth := data.depth);
    }
    if data.depth > c.maxDepth {
      c := c.(maxDepth := data.depth);
    }
    var used, gas := MarkCylinders(data, c.cylUsed, c.gasUsed);
    c := c.(cylUsed := used, gasUsed := gas);
  }

  lemma LeastDepthStep(s: seq<PlotEntry>, st: nat, j: nat, v0: int, v: int)
    requires st <= j < |s|
    requires j == st ==> s[j].depth <= v0
    requires j > st ==> LeastDepth(s, st, j, v0)
    requires v == if s[j].depth < v0 then s[j].depth else v0
    ensures LeastDepth(s, st, j + 1, v)
  {
    if v == s[j].depth {
      assert st <= j < j + 1 && v == s[j].depth;
    } else {
      var i :| st <= i < j && v0 == s[i].depth;
      assert st <= i < j + 1 && v == s[i].depth;
    }
  }

  lemma DeepestStep(s: seq<PlotEntry>, st: nat, j: nat, v0: int, v: int)
    requires st <= j < |s|
    requires j == st ==> v0 == 0
    requires j > st ==> DeepestOrZero(s, st, j, v0)
    requires v == if s[j].depth > v0 then s[j].depth else v0
    ensures DeepestOrZero(s, st, j + 1, v)
  {
    if v != 0 {
      if v == s[j].depth {
        assert st <= j < j + 1 && v == s[j].depth;
      } else {
        var i :| st <= i < j && v0 == s[i].depth;
        assert st <= i < j + 1 && v == s[i].depth;
      }
    }
  }

  lemma AscentStep(s: seq<PlotEntry>, st: nat, j: nat, v0: int, v: int)
    requires st <= j < |s|
    requires j == st ==> v0 == 0
    requires j > st ==> FastestAscentOrZero(s, st, j, v0)
    requires v == if s[j].speed < v0 then s[j].speed else v0
    ensures FastestAscentOrZero(s, st, j + 1, v)
  {
    if v != 0 {
      if v == s[j].speed {
        assert st <= j < j + 1 && v == s[j].speed;
      } else {
        var i :| st <= i < j && v0 == s[i].speed;
        assert st <= i < j + 1 && v == s[i].speed;
      }
    }
  }

  lemma DescentStep(s: seq<PlotEntry>, st: nat, j: nat, v0: int, v: int)
    requires st <= j < |s|
    requires j == st ==> v0 == 0
    requires j > st ==> FastestDescentOrZero(s, st, j, v0)
    requires v == if s[j].speed > v0 then s[j].speed else v0
    ensures FastestDescentOrZero(s, st, j + 1, v)
  {
    if v != 0 {
      if v == s[j].speed {
        assert st <= j < j + 1 && v == s[j].speed;
      } else {
        var i :| st <= i < j && v0 == s[i].speed;
        assert st <= i < j + 1 && v == s[i].speed;
      }
    }
  }

  lemma CylindersStep(s: seq<PlotEntry>, st: nat, j: nat, used0: seq<bool>, used: seq<bool>, gas: bool)
    requires st <= j < |s| && AllWellFormed(s) && |used0| == MaxCylinders && |used| == MaxCylinders
    requires j == st ==> used0 == [false, false, false, false, false, false, false, false]
    requires j > st ==> forall k :: 0 <= k < MaxCylinders ==> (used0[k] <==> CylinderSeen(s, st, j, k))
    requires forall k :: 0 <= k < MaxCylinders ==> (used[k] <==> used0[k] || s[j].cyl[k].usage != NotInUse)
    requires gas <==> exists k :: 0 <= k < MaxCylinders && used[k]
    ensures CylindersOf(s, st, j + 1, used, gas)
  {
    forall k | 0 <= k < MaxCylinders
      ensures used[k] <==> CylinderSeen(s, st, j + 1, k)
    {
      if s[j].cyl[k].usage != NotInUse {
        assert CylinderSeen(s, st, j + 1, k);
      } else if j > st {
        assert CylinderSeen(s, st, j + 1, k) <==> CylinderSeen(s, st, j, k);
      } else {
        assert !CylinderSeen(s, st, j + 1, k);
      }
    }
  }

  /** The inner loop over the cylinder slots of one entry. */
  method MarkCylinders(e: PlotEntry, used0: seq<bool>, gas0: bool) returns (used: seq<bool>, gas: bool)
    requires WellFormed(e) && |used0| == MaxCylinders
    requires gas0 <==> exists k :: 0 <= k < MaxCylinders && used0[k]
    ensures |used| == MaxCylinders
    ensures forall k :: 0 <= k < MaxCylinders ==> (used[k] <==> used0[k] || e.cyl[k].usage != NotInUse)
    ensures gas <==> exists k :: 0 <= k < MaxCylinders && used[k]
  {
    used, gas := used0, gas0;
    var c := 0;
    while c < MaxCylinders
      invariant 0 <= c <= MaxCylinders && |used| == MaxCylinders
      invariant forall k :: 0 <= k < MaxCylinders ==> (used[k] <==> used0[k] || (k < c && e.cyl[k].usage != NotInUse))
      invariant gas <==> exists k :: 0 <= k < MaxCylinders && used[k]
      decreases MaxCylinders - c
    {
      if e.cyl[c].usage != NotInUse {
        used := used[c := true];
        gas := true;
      }
      c := c + 1;
    }
  }

  /**
   * Over entries in time order with non-negative depths, the time-weighted
   * mean depth lies between the smallest and the largest depth of the range.
   */
  lemma AverageDepthBetween(s: seq<PlotEntry>, st: nat, sp: nat, lo: nat, hi: int)
    requires st < sp < |s| && s[st].sec < s[sp].sec
    requires forall j :: st < j <= sp ==> s[j - 1].sec <= s[j].sec
    requires forall j :: st <= j <= sp ==> lo <= s[j].depth <= hi
    ensures lo <= TruncDiv(WeightedDepth(s, st, sp + 1), s[sp].sec - s[st].sec) <= hi
  {
    var dt := s[sp].sec - s[st].sec;
    WeightedDepthBounds(s, st, sp, lo, hi);
    assert (hi + 1) * dt == hi * dt + dt;
    Quotient(WeightedDepth(s, st, sp + 1), dt, lo, hi);
  }

  lemma {:induction false} WeightedDepthBounds(s: seq<PlotEntry>, st: nat, last: nat, lo: int, hi: int)
    requires st <= last < |s|
    requires forall j :: st < j <= last ==> s[j - 1].sec <= s[j].sec
    requires forall j :: st <= j <= last ==> lo <= s[j].depth <= hi
    ensures lo * (s[last].sec - s[st].sec) <= WeightedDepth(s, st, last + 1) <= hi * (s[last].sec - s[st].sec)
    decreases last - st
  {
    if last == st {
      assert WeightedDepth(s, st, last + 1) == s[st].depth * 0;
    } else {
      WeightedDepthBounds(s, st, last - 1, lo, hi);
      assert WeightedDepth(s, st, last + 1) == WeightedDepth(s, st, last) + s[last].depth * (s[last].sec - s[last - 1].sec);
      WeightedStep(lo, hi, s[last].sec - s[st].sec, s[last - 1].sec - s[st].sec, s[last].sec - s[last - 1].sec,
        s[last].depth, WeightedDepth(s, st, last));
    }
  }

  /** Adding d * w with lo <= d <= hi to a sum between lo * b and hi * b. */
  lemma WeightedStep(lo: int, hi: int, a: int, b: int, w: int, d: int, sum: int)
    requires lo * b <= sum <= hi * b && a == b + w && w >= 0 && lo <= d <= hi
    ensures lo * a <= sum + d * w <= hi * a
  {
    if w > 0 {
      MulMonotone(lo, d, w);
      MulMonotone(d, hi, w);
    }
    assert lo * a == lo * b + lo * w;
    assert hi * a == hi * b + hi * w;
  }
}
