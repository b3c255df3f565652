/**
 * The pressure-segment machinery of the profile: the pr_track list (a
 * sequence of segment records here), the pressure-time integration rule and
 * the pass that shares a missing pressure drop over a chain of segments in
 * proportion to their pressure-time.
 */
module Segments {
  import opened Common
  import opened PlotData

  /**
   * One stretch of a cylinder's use (pr_track_t): its start and end tank
   * pressure (0 = unknown), its start and end time, and the pressure-time
   * integral accumulated over it.
   */
  datatype Segment = Segment(start: int, end: int, tStart: int, tEnd: int, pressureTime: int, usage: Usage)

  /** pr_track_alloc: a segment that begins at tStart with pressure start and nothing measured yet. */
  function PrTrackAlloc(start: int, tStart: int, usage: Usage): (t: Segment)
    ensures t.start == start && t.tStart == tStart && t.usage == usage
    ensures t.end == 0 && t.tEnd == tStart && t.pressureTime == 0
  {
    Segment(start, 0, tStart, tStart, 0, usage)
  }

  /** list_last: the tail of the list, None for an empty list. */
  function ListLast(list: seq<Segment>): (r: Option<Segment>)
    ensures r.None? <==> list == []
    ensures r.Some? ==> r.value == list[|list| - 1]
  {
    if list == [] then None else Some(list[|list| - 1])
  }

  /** list_add: the element is linked after the tail, or becomes the list. */
  function ListAdd(list: seq<Segment>, element: Segment): (r: seq<Segment>)
    ensures |r| == |list| + 1 && r[..|list|] == list
  {
    list + [element]
  }

  /** After list_add the element is the new tail and the earlier nodes are as they were. */
  lemma ListAddLast(list: seq<Segment>, element: Segment)
    ensures ListLast(ListAdd(list, element)) == Some(element)
    ensures forall k :: 0 <= k < |list| ==> ListAdd(list, element)[k] == list[k]
  {
  }

  /** The external depth_to_mbar(depth, dive) for the dive at hand. */
  type DepthToMbar = int -> int

  /** The depth pressure_time integrates at for each usage, or None when the step counts as zero. */
  function IntegrationDepth(a: PlotEntry, b: PlotEntry, usage: Usage): (d: Option<int>)
    ensures usage == OC ==>
      (d.None? <==> TruncDiv(a.depth + b.depth, 2) <= SurfaceThreshold)
    ensures d.Some? && usage == OC ==> d.value == TruncDiv(a.depth + b.depth, 2)
    ensures usage == CCRO2 ==> d == Some(50)
    ensures usage == CCRDiluent && b.depth > a.depth ==>
      (d.None? <==> TruncDiv(a.depth + b.depth, 2) <= SurfaceThreshold)
    ensures usage == CCRDiluent && b.depth > a.depth && d.Some? ==> d.value == TruncDiv(a.depth + b.depth, 2)
    ensures usage == CCRDiluent && b.depth <= a.depth ==> d == Some(0)
    ensures usage == NotInUse ==> d == Some(0)
  {
    var mean := TruncDiv(a.depth + b.depth, 2);
    match usage
    case OC => if mean <= SurfaceThreshold then None else Some(mean)
    case CCRO2 => Some(50)
    case CCRDiluent =>
      if b.depth > a.depth then (if mean <= SurfaceThreshold then None else Some(mean)) else Some(0)
    case NotInUse => Some(0)
  }

  /**
   * pressure_time: the pressure-time of the step from a to b, the
   * (external) absolute pressure at the integration depth times the
   * duration.  Open circuit integrates at the mean depth and counts nothing
   * near the surface; the oxygen cylinder of a rebreather at a fixed 5 % of a
   * bar; the diluent only while descending.
   */
  function PressureTime(a: PlotEntry, b: PlotEntry, usage: Usage, depthToMbar: DepthToMbar): (r: int)
    ensures IntegrationDepth(a, b, usage).None? ==> r == 0
    ensures IntegrationDepth(a, b, usage).Some? ==>
      r == depthToMbar(IntegrationDepth(a, b, usage).value) * (b.sec - a.sec)
  {
    match IntegrationDepth(a, b, usage)
    case None => 0
    case Some(depth) => depthToMbar(depth) * (b.sec - a.sec)
  }

  /** A step of no duration adds no pressure-time, whatever the usage. */
  lemma {:induction false} PressureTimeZeroDuration(a: PlotEntry, b: PlotEntry, usage: Usage, depthToMbar: DepthToMbar)
    requires a.sec == b.sec
    ensures PressureTime(a, b, usage, depthToMbar) == 0
  {
    var d := IntegrationDepth(a, b, usage);
    if d.Some? {
      assert b.sec - a.sec == 0;
      assert depthToMbar(d.value) * 0 == 0;
    }
  }

  /** With a non-negative pressure law and time moving forward, pressure-time is never negative. */
  lemma PressureTimeNonneg(a: PlotEntry, b: PlotEntry, usage: Usage, depthToMbar: DepthToMbar)
    requires a.sec <= b.sec
    requires forall d :: depthToMbar(d) >= 0
    ensures PressureTime(a, b, usage, depthToMbar) >= 0
  {
    var d := IntegrationDepth(a, b, usage);
    if d.Some? {
      MulNonneg(depthToMbar(d.value), b.sec - a.sec);
    }
  }

  /**
   * As written, a diluent step that does not descend and a step of an unused
   * slot are integrated at depth 0, so they add the surface pressure times
   * the duration rather than nothing.
   */
  lemma ShallowDiluentCountsSurface(a: PlotEntry, b: PlotEntry, depthToMbar: DepthToMbar)
    requires b.depth <= a.depth
    ensures PressureTime(a, b, CCRDiluent, depthToMbar) == depthToMbar(0) * (b.sec - a.sec)
    ensures PressureTime(a, b, NotInUse, depthToMbar) == depthToMbar(0) * (b.sec - a.sec)
  {
  }

  // ----- fill_missing_segment_pressures, specified chain by chain -----

  /**
   * The last segment of the chain that begins at l: the first segment from l
   * on with a known end pressure, or the last segment of the list.
   */
  function ChainEnd(s: seq<Segment>, l: nat): (t: nat)
    requires l < |s|
    ensures l <= t < |s|
    ensures s[t].end != 0 || t == |s| - 1
    ensures forall k :: l <= k < t ==> s[k].end == 0
    decreases |s| - l
  {
    if s[l].end != 0 || l == |s| - 1 then l else ChainEnd(s, l + 1)
  }

  /** Sum of the pressure-times of s[l..k]. */
  function PtSum(s: seq<Segment>, l: nat, k: nat): int
    requires l <= k <= |s|
    decreases k - l
  {
    if k == l then 0 else PtSum(s, l, k - 1) + s[k - 1].pressureTime
  }

  /** The pressure the chain ends at: its last known end, or else its own start. */
  function ChainEndPressure(s: seq<Segment>, l: nat): (e: int)
    requires l < |s|
    ensures s[ChainEnd(s, l)].end != 0 ==> e == s[ChainEnd(s, l)].end
    ensures s[ChainEnd(s, l)].end == 0 ==> e == s[l].start
  {
    var t := ChainEnd(s, l);
    if s[t].end != 0 then s[t].end else s[l].start
  }

  /** The pressure the chain starts at: its start, or its end pressure when the start is unknown. */
  function ChainStartPressure(s: seq<Segment>, l: nat): (p: int)
    requires l < |s|
    ensures s[l].start != 0 ==> p == s[l].start
    ensures s[l].start == 0 ==> p == ChainEndPressure(s, l)
  {
    if s[l].start != 0 then s[l].start else ChainEndPressure(s, l)
  }

  /**
   * The pressure reached after pressure-time pt of a chain of total sum that
   * drops from start to end: start - (start - end) * pt / sum evaluated
   * exactly and truncated toward zero like the C conversion to int, or start
   * when the sum is zero.
   */
  function Share(start: int, end: int, pt: int, sum: int): (p: int)
    ensures sum == 0 ==> p == start
  {
    if sum != 0 then TruncDiv(start * sum - (start - end) * pt, sum) else start
  }

  /** Segment k of the chain at l after the fill. */
  function FilledAt(s: seq<Segment>, l: nat, k: nat): (g: Segment)
    requires l < |s| && l <= k <= ChainEnd(s, l)
  {
    var t := ChainEnd(s, l);
    var S := ChainStartPressure(s, l);
    var E := ChainEndPressure(s, l);
    var sum := PtSum(s, l, t + 1);
    s[k].(start := if k == l then S else Share(S, E, PtSum(s, l, k), sum),
          end := Share(S, E, PtSum(s, l, k + 1), sum))
  }

  /** The list after the chain at l has been filled in; nothing outside the chain changes. */
  function FillChain(s: seq<Segment>, l: nat): (r: seq<Segment>)
    requires l < |s|
    ensures |r| == |s|
  {
    seq(|s|, k requires 0 <= k < |s| => if l <= k <= ChainEnd(s, l) then FilledAt(s, l, k) else s[k])
  }

  /** fill_missing_segment_pressures from segment l on: every chain in turn. */
  function Filled(s: seq<Segment>, l: nat): (r: seq<Segment>)
    ensures |r| == |s|
    decreases |s| - l
  {
    if l >= |s| then s else Filled(FillChain(s, l), ChainEnd(s, l) + 1)
  }

  /**
   * fill_missing_segment_pressures, on the list nodes held in an array:
   * rewrites the nodes in place, one chain after another.
   */
  method FillMissingSegmentPressures(a: array<Segment>)
    modifies a
    ensures a[..] == Filled(old(a[..]), 0)
  {
    var l := 0;
    ghost var orig := a[..];
    while l < a.Length
      invariant 0 <= l <= a.Length
      invariant Filled(a[..], l) == Filled(orig, 0)
      decreases a.Length - l
    {
      ghost var s := a[..];
      var t := FillOneChain(a, l);
      FilledStep(s, l);
      l := t + 1;
    }
  }

  /** Filling from l on is filling the chain at l, then going on after it. */
  lemma FilledStep(s: seq<Segment>, l: nat)
    requires l < |s|
    ensures Filled(s, l) == Filled(FillChain(s, l), ChainEnd(s, l) + 1)
  {
  }

  /** One pass of the outer loop: the chain at l is filled; returns its last index. */
  method FillOneChain(a: array<Segment>, l: nat) returns (t: nat)
    requires l < a.Length
    modifies a
    ensures t == ChainEnd(old(a[..]), l)
    ensures a[..] == FillChain(old(a[..]), l)
  {
    ghost var s := a[..];
    var start := a[l].start;
    var end := 0;
    var ptSum := 0;
    t := l;
    while true
      invariant l <= t < a.Length
      invariant ChainEnd(s, l) == ChainEnd(s, t)
      invariant ptSum == PtSum(s, l, t)
      invariant a[..] == s
      decreases a.Length - t
    {
      ptSum := ptSum + a[t].pressureTime;
      end := a[t].end;
      if end != 0 {
        break;
      }
      end := start;
      if t + 1 == a.Length {
        break;
      }
      t := t + 1;
    }
    assert t == ChainEnd(s, l);
    assert ptSum == PtSum(s, l, t + 1);
    if start == 0 {
      start := end;
    }
    assert start == ChainStartPressure(s, l) && end == ChainEndPressure(s, l);
    a[l] := a[l].(start := start);
    a[t] := a[t].(end := end);
    DistributeChain(a, s, l, t, start, end, ptSum);
  }

  /**
   * The state of the nodes while the second loop of a chain is at segment
   * cur: the segments before cur are final, cur has its start, and the rest
   * are as they were except the early store of the chain's end pressure.
   */
  ghost predicate Distributing(a: seq<Segment>, s: seq<Segment>, l: nat, t: nat, cur: nat, end: int)
    requires |s| == |a| && l < |s| && t == ChainEnd(s, l)
  {
    l <= cur <= t &&
    (forall k :: 0 <= k < l ==> a[k] == s[k]) &&
    (forall k :: l <= k < cur ==> a[k] == FilledAt(s, l, k)) &&
    a[cur] == s[cur].(start := FilledAt(s, l, cur).start, end := a[cur].end) &&
    (forall k :: cur < k < |a| && k != t ==> a[k] == s[k]) &&
    (cur < t ==> a[t] == s[t].(end := end))
  }

  /**
   * The second loop of a chain: walks l..t handing out the pressures; each
   * segment's end is the pressure at its accumulated pressure-time and the
   * next segment starts there.
   */
  method DistributeChain(a: array<Segment>, ghost s: seq<Segment>, l: nat, t: nat, start: int, end: int, ptSum: int)
    requires |s| == a.Length && l < |s| && t == ChainEnd(s, l)
    requires start == ChainStartPressure(s, l) && end == ChainEndPressure(s, l)
    requires ptSum == PtSum(s, l, t + 1)
    requires forall k :: 0 <= k < a.Length && k != l && k != t ==> a[k] == s[k]
    requires a[l] == s[l].(start := start, end := a[l].end)
    requires t != l ==> a[t] == s[t].(end := end)
    modifies a
    ensures a[..] == FillChain(s, l)
  {
    var cur := l;
    var pt := 0;
    var done := false;
    while !done
      invariant !done ==> Distributing(a[..], s, l, t, cur, end) && pt == PtSum(s, l, cur)
      invariant done ==> a[..] == FillChain(s, l)
      decreases t - cur, !done
    {
      cur, pt, done := DistributeStep(a, s, l, t, cur, start, end, pt, ptSum);
    }
  }

  /** One pass of the second loop: segment cur gets its end pressure and the next one its start. */
  method DistributeStep(a: array<Segment>, ghost s: seq<Segment>, l: nat, t: nat, cur: nat,
                        start: int, end: int, pt: int, ptSum: int)
      returns (next: nat, pt': int, done: bool)
    requires |s| == a.Length && l < |s| && t == ChainEnd(s, l)
    requires start == ChainStartPressure(s, l) && end == ChainEndPressure(s, l)
    requires ptSum == PtSum(s, l, t + 1)
    requires Distributing(a[..], s, l, t, cur, end) && pt == PtSum(s, l, cur)
    modifies a
    ensures done ==> a[..] == FillChain(s, l) && next == cur
    ensures !done ==> next == cur + 1 && Distributing(a[..], s, l, t, next, end) && pt' == PtSum(s, l, next)
  {
    pt' := pt + a[cur].pressureTime;
    var pressure := start;
    if ptSum != 0 {
      pressure := TruncDiv(start * ptSum - (start - end) * pt', ptSum);
    }
    assert pressure == Share(start, end, PtSum(s, l, cur + 1), ptSum);
    a[cur] := a[cur].(end := pressure);
    if cur == t {
      next, done := cur, true;
      assert forall k :: 0 <= k < a.Length ==> a[k] == FillChain(s, l)[k];
    } else {
      next, done := cur + 1, false;
      a[next] := a[next].(start := pressure);
    }
  }

  // ----- what the fill promises about a chain -----

  /** The first segment of a chain starts at the chain's start pressure. */
  lemma ChainFirstStart(s: seq<Segment>, l: nat)
    requires l < |s|
    ensures FillChain(s, l)[l].start == ChainStartPressure(s, l)
  {
  }

  /** Inside a chain each segment starts where its predecessor ends. */
  lemma ChainContinuous(s: seq<Segment>, l: nat, k: nat)
    requires l < |s| && l < k <= ChainEnd(s, l)
    ensures FillChain(s, l)[k].start == FillChain(s, l)[k - 1].end
  {
  }

  /** With a nonzero pressure-time sum the chain's last segment ends at the chain's end pressure. */
  lemma ChainLastEnd(s: seq<Segment>, l: nat)
    requires l < |s|
    requires PtSum(s, l, ChainEnd(s, l) + 1) != 0
    ensures FillChain(s, l)[ChainEnd(s, l)].end == ChainEndPressure(s, l)
  {
    var t := ChainEnd(s, l);
    var S := ChainStartPressure(s, l);
    var E := ChainEndPressure(s, l);
    var sum := PtSum(s, l, t + 1);
    assert S * sum - (S - E) * sum == E * sum;
    TruncDivExact(E, sum);
  }

  /**
   * With a zero pressure-time sum every segment of the chain ends at the
   * chain's start pressure, the last one included (its known end pressure is
   * overwritten).
   */
  lemma ChainZeroSum(s: seq<Segment>, l: nat, k: nat)
    requires l < |s| && l <= k <= ChainEnd(s, l)
    requires PtSum(s, l, ChainEnd(s, l) + 1) == 0
    ensures FillChain(s, l)[k].end == ChainStartPressure(s, l)
    ensures FillChain(s, l)[k].start == ChainStartPressure(s, l)
  {
  }

  /** The fill rewrites pressures only: times, pressure-time and usage stay as they were. */
  lemma ChainKeepsTimes(s: seq<Segment>, l: nat, k: nat)
    requires l < |s| && k < |s|
    ensures FillChain(s, l)[k].tStart == s[k].tStart && FillChain(s, l)[k].tEnd == s[k].tEnd
    ensures FillChain(s, l)[k].pressureTime == s[k].pressureTime && FillChain(s, l)[k].usage == s[k].usage
  {
  }

  lemma TruncDivExact(x: int, d: int)
    requires d != 0
    ensures TruncDiv(x * d, d) == x
  {
    AbsMul(x, d);
    assert Abs(x * d) / Abs(d) == Abs(x) by {
      MulDiv(Abs(x), Abs(d));
    }
  }

  lemma AbsMul(x: int, d: int)
    ensures Abs(x * d) == Abs(x) * Abs(d)
  {
    if x < 0 && d < 0 {
      assert x * d == (-x) * (-d);
    } else if x < 0 {
      assert x * d == -((-x) * d);
    } else if d < 0 {
      assert x * d == -(x * (-d));
    }
  }

  lemma MulDiv(x: nat, d: nat)
    requires d > 0
    ensures (x * d) / d == x
  {
    var q := (x * d) / d;
    DivBounds(x * d, d);
    if q < x {
      MulMonotone(q + 1, x, d);
    } else if q > x {
      MulMonotone(x + 1, q, d);
    }
  }

  /** Pressure-times of s[l..k] that are all non-negative give a sum that grows with k. */
  lemma {:induction false} PtSumMonotone(s: seq<Segment>, l: nat, j: nat, k: nat)
    requires l <= j <= k <= |s|
    requires forall m :: l <= m < k ==> s[m].pressureTime >= 0
    ensures 0 <= PtSum(s, l, j) <= PtSum(s, l, k)
    decreases k - l
  {
    if k > l {
      if j == k {
        PtSumMonotone(s, l, k - 1, k - 1);
      } else {
        PtSumMonotone(s, l, j, k - 1);
      }
    }
  }

  /** The pressure at pressure-time pt, for 0 <= pt <= sum, lies between the chain's end and start pressure and falls as pt grows. */
  lemma ShareMonotone(S: int, E: int, p1: int, p2: int, sum: int)
    requires E <= S && 0 <= p1 <= p2 <= sum && sum > 0
    ensures E <= Share(S, E, p2, sum) <= Share(S, E, p1, sum) <= S
  {
    var n0 := S * sum;
    var n1 := S * sum - (S - E) * p1;
    var n2 := S * sum - (S - E) * p2;
    var nE := S * sum - (S - E) * sum;
    MulLe(p1, p2, S - E);
    MulLe(p2, sum, S - E);
    MulNonneg(S - E, p1);
    assert nE <= n2 <= n1 <= n0;
    assert nE == E * sum;
    TruncDivMonotone(nE, n2, sum);
    TruncDivMonotone(n2, n1, sum);
    TruncDivMonotone(n1, n0, sum);
    TruncDivExact(E, sum);
    TruncDivExact(S, sum);
  }

  /**
   * A chain that drops (start >= end) over non-negative pressure-times has
   * ends that never rise and stay between the chain's end and start pressure.
   */
  lemma ChainNonIncreasing(s: seq<Segment>, l: nat, k: nat)
    requires l < |s| && l <= k < ChainEnd(s, l)
    requires ChainEndPressure(s, l) <= ChainStartPressure(s, l)
    requires forall m :: l <= m <= ChainEnd(s, l) ==> s[m].pressureTime >= 0
    ensures FillChain(s, l)[k + 1].end <= FillChain(s, l)[k].end
    ensures ChainEndPressure(s, l) <= FillChain(s, l)[k + 1].end
    ensures FillChain(s, l)[k].end <= ChainStartPressure(s, l)
  {
    var t := ChainEnd(s, l);
    var sum := PtSum(s, l, t + 1);
    PtSumMonotone(s, l, k + 1, k + 2);
    PtSumMonotone(s, l, k + 2, t + 1);
    if sum != 0 {
      ShareMonotone(ChainStartPressure(s, l), ChainEndPressure(s, l), PtSum(s, l, k + 1), PtSum(s, l, k + 2), sum);
    }
  }

  // ----- the whole list -----

  /** Later chains never touch the segments before them. */
  lemma {:induction false} FilledKeepsPrefix(s: seq<Segment>, l: nat, k: nat)
    requires k < l && k < |s|
    ensures Filled(s, l)[k] == s[k]
    decreases |s| - l
  {
    if l < |s| {
      FilledKeepsPrefix(FillChain(s, l), ChainEnd(s, l) + 1, k);
    }
  }

  /** Every segment of the chain at l ends up as that chain's fill made it. */
  lemma FilledChain(s: seq<Segment>, l: nat, k: nat)
    requires l < |s| && l <= k <= ChainEnd(s, l)
    ensures Filled(s, l)[k] == FilledAt(s, l, k)
  {
    FilledKeepsPrefix(FillChain(s, l), ChainEnd(s, l) + 1, k);
  }
}
