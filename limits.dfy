/**
 * calculate_max_limits: the depth, time, pressure and temperature ranges
 * of a dive over the samples of all its dive computers, from which the
 * plot is scaled.
 */
module PlotLimits {
  import opened Common
  import opened PlotData

  /** The fields of plot_info that calculate_max_limits fills in. */
  datatype Limits = Limits(maxdepth: int, maxtime: int, maxpressure: int, minpressure: int, mintemp: int, maxtemp: int)

  /** An unsigned int stored into an int. */
  function Signed(u: nat): (x: int)
    requires u < 0x1_0000_0000
    ensures Unsigned(x) == u
    ensures u <= IntMax ==> x == u
  {
    if u > IntMax then u - 0x1_0000_0000 else u
  }

  // ----- the manual cylinder pressures -----

  /**
   * The first loop from cylinder c on: `mbar > maxpressure` compares as
   * unsigned, and the unsigned mbar is stored back into the int.
   */
  function CylinderMax(cyls: seq<CylinderInfo>, c: nat, mp: int): int
    requires c <= |cyls|
    decreases |cyls| - c
  {
    if c == |cyls| then mp
    else
      var mbar := Unsigned(cyls[c].start);
      CylinderMax(cyls, c + 1, if mbar > Unsigned(mp) then Signed(mbar) else mp)
  }

  /**
   * For any int start pressures the first loop keeps the largest value as
   * unsigned: the result is the initial value or one of the start
   * pressures, and no start pressure is above it once both are read as
   * unsigned.
   */
  lemma {:induction false} CylinderMaxIsUnsignedMaximum(cyls: seq<CylinderInfo>, c: nat, mp: int)
    requires c <= |cyls| && -0x8000_0000 <= mp <= IntMax
    requires forall k :: 0 <= k < |cyls| ==> -0x8000_0000 <= cyls[k].start <= IntMax
    ensures var r := CylinderMax(cyls, c, mp);
      Unsigned(r) >= Unsigned(mp) && (forall k :: c <= k < |cyls| ==> Unsigned(r) >= Unsigned(cyls[k].start)) &&
      (r == mp || exists k :: c <= k < |cyls| && r == cyls[k].start)
    decreases |cyls| - c
  {
    if c < |cyls| {
      var mbar := Unsigned(cyls[c].start);
      assert Signed(mbar) == cyls[c].start by {
        assert Wrap32(cyls[c].start) == cyls[c].start;
      }
      var next := if mbar > Unsigned(mp) then Signed(mbar) else mp;
      CylinderMaxIsUnsignedMaximum(cyls, c + 1, next);
    }
  }

  /** Once the maximum is -1, which is ~0u as unsigned, no later cylinder changes it. */
  lemma {:induction false} MinusOnePinsCylinderMax(cyls: seq<CylinderInfo>, c: nat)
    requires c <= |cyls|
    ensures CylinderMax(cyls, c, -1) == -1
    decreases |cyls| - c
  {
    if c < |cyls| {
      MinusOnePinsCylinderMax(cyls, c + 1);
    }
  }

  /**
   * A manual start pressure of -1 on the first cylinder is above 0 as
   * unsigned, so it becomes the maximum, and 200000 mbar on the next one
   * no longer counts.
   */
  lemma NegativeStartPinsMaximum(a: CylinderInfo, b: CylinderInfo)
    requires a.start == -1 && b.start == 200000
    ensures CylinderMax([a, b], 0, 0) == -1
  {
    MinusOnePinsCylinderMax([a, b], 1);
  }

  /**
   * With start pressures between 0 and the largest int, the first loop
   * yields the largest of the initial value and the cylinders' manual start
   * pressures.
   */
  lemma {:induction false} CylinderMaxIsMaximum(cyls: seq<CylinderInfo>, c: nat, mp: int)
    requires c <= |cyls| && 0 <= mp <= IntMax
    requires forall k :: 0 <= k < |cyls| ==> 0 <= cyls[k].start <= IntMax
    ensures var r := CylinderMax(cyls, c, mp);
      r >= mp && (forall k :: c <= k < |cyls| ==> r >= cyls[k].start) &&
      (r == mp || exists k :: c <= k < |cyls| && r == cyls[k].start)
    decreases |cyls| - c
  {
    if c < |cyls| {
      var mbar := Unsigned(cyls[c].start);
      assert mbar == cyls[c].start;
      var next := if mbar > Unsigned(mp) then Signed(mbar) else mp;
      CylinderMaxIsMaximum(cyls, c + 1, next);
    }
  }

  // ----- the samples -----

  /** The time of a sample counts when it or the sample before it is below the surface. */
  predicate Underwater(s: Sample, lastdepth: int) {
    s.depth > SurfaceThreshold || lastdepth > SurfaceThreshold
  }

  /**
   * One sample.  The temperature test `!mintemp && temperature < mintemp`
   * only ever fires while the minimum is still 0, and then only for a
   * negative temperature (see MinTempQuirk).
   */
  function SampleStep(l: Limits, s: Sample, lastdepth: int): (r: Limits)
    ensures r.maxdepth == Max(l.maxdepth, s.depth) && r.maxtemp == Max(l.maxtemp, s.temperature)
    ensures r.maxpressure == Max(l.maxpressure, s.cylinderPressure)
    ensures r.minpressure == if s.cylinderPressure != 0 then Min(l.minpressure, s.cylinderPressure) else l.minpressure
    ensures r.maxtime == if Underwater(s, lastdepth) then Max(l.maxtime, s.time) else l.maxtime
    ensures r.mintemp == if l.mintemp == 0 && s.temperature < 0 then s.temperature else l.mintemp
  {
    var l1 := if l.mintemp == 0 && s.temperature < l.mintemp then l.(mintemp := s.temperature) else l;
    var l2 := if s.temperature > l1.maxtemp then l1.(maxtemp := s.temperature) else l1;
    var p := s.cylinderPressure;
    var l3 := if p != 0 && p < l2.minpressure then l2.(minpressure := p) else l2;
    var l4 := if p > l3.maxpressure then l3.(maxpressure := p) else l3;
    var l5 := if s.depth > l4.maxdepth then l4.(maxdepth := s.depth) else l4;
    if Underwater(s, lastdepth) && s.time > l5.maxtime then l5.(maxtime := s.time) else l5
  }

  /** The depth of the previous sample of the same computer, 0 for its first. */
  function LastDepth(dc: seq<Sample>, j: nat): int
    requires j <= |dc|
  {
    if j == 0 then 0 else dc[j - 1].depth
  }

  /** The samples dc[j..] of one dive computer. */
  function ScanComputer(l: Limits, dc: seq<Sample>, j: nat): Limits
    requires j <= |dc|
    decreases |dc| - j
  {
    if j == |dc| then l else ScanComputer(SampleStep(l, dc[j], LastDepth(dc, j)), dc, j + 1)
  }

  /** The dive computers dcs[d..], in list order. */
  function ScanComputers(l: Limits, dcs: seq<seq<Sample>>, d: nat): Limits
    requires d <= |dcs|
    decreases |dcs| - d
  {
    if d == |dcs| then l else ScanComputers(ScanComputer(l, dcs[d], 0), dcs, d + 1)
  }

  /** The state before the samples: the dive's own maxima and the cylinder pressures. */
  function InitialLimits(maxdepth: int, mintemp: int, maxtemp: int, cyls: seq<CylinderInfo>): Limits {
    Limits(maxdepth, 0, CylinderMax(cyls, 0, 0), IntMax, mintemp, maxtemp)
  }

  /** What calculate_max_limits leaves in the plot info. */
  function MaxLimits(maxdepth: int, mintemp: int, maxtemp: int, cyls: seq<CylinderInfo>, dcs: seq<seq<Sample>>): Limits {
    var l := ScanComputers(InitialLimits(maxdepth, mintemp, maxtemp, cyls), dcs, 0);
    if l.minpressure > l.maxpressure then l.(minpressure := 0) else l
  }

  // ----- properties -----

  /** r carries on from l: maxima grow, the minimum pressure shrinks, a nonzero minimum temperature stays. */
  predicate Extends(r: Limits, l: Limits) {
    r.maxdepth >= l.maxdepth && r.maxtime >= l.maxtime && r.maxpressure >= l.maxpressure &&
    r.minpressure <= l.minpressure && r.maxtemp >= l.maxtemp && (l.mintemp != 0 ==> r.mintemp == l.mintemp)
  }

  /** r accounts for sample s (whose predecessor had depth lastdepth). */
  predicate Covers(r: Limits, s: Sample, lastdepth: int) {
    r.maxdepth >= s.depth && r.maxpressure >= s.cylinderPressure && r.maxtemp >= s.temperature &&
    (s.cylinderPressure != 0 ==> r.minpressure <= s.cylinderPressure) &&
    (Underwater(s, lastdepth) ==> r.maxtime >= s.time)
  }

  lemma {:induction false} ScanComputerCovers(l: Limits, dc: seq<Sample>, j: nat)
    requires j <= |dc|
    ensures var r := ScanComputer(l, dc, j);
      Extends(r, l) && (forall k :: j <= k < |dc| ==> Covers(r, dc[k], LastDepth(dc, k))) &&
      (r.maxdepth == l.maxdepth || exists k :: j <= k < |dc| && r.maxdepth == dc[k].depth) &&
      ((forall k :: j <= k < |dc| ==> dc[k].temperature >= 0) ==> r.mintemp == l.mintemp)
    decreases |dc| - j
  {
    if j < |dc| {
      var l1 := SampleStep(l, dc[j], LastDepth(dc, j));
      ScanComputerCovers(l1, dc, j + 1);
    }
  }

  lemma {:induction false} ScanComputersCovers(l: Limits, dcs: seq<seq<Sample>>, d: nat)
    requires d <= |dcs|
    ensures var r := ScanComputers(l, dcs, d);
      Extends(r, l) &&
      (forall e, k :: d <= e < |dcs| && 0 <= k < |dcs[e]| ==> Covers(r, dcs[e][k], LastDepth(dcs[e], k))) &&
      (r.maxdepth == l.maxdepth || exists e, k :: d <= e < |dcs| && 0 <= k < |dcs[e]| && r.maxdepth == dcs[e][k].depth) &&
      ((forall e, k :: d <= e < |dcs| && 0 <= k < |dcs[e]| ==> dcs[e][k].temperature >= 0) ==> r.mintemp == l.mintemp)
    decreases |dcs| - d
  {
    if d < |dcs| {
      var l1 := ScanComputer(l, dcs[d], 0);
      ScanComputerCovers(l, dcs[d], 0);
      ScanComputersCovers(l1, dcs, d + 1);
    }
  }

  /**
   * The depth limit is the largest of the dive's maximum depth and every
   * sample depth of every computer, and is one of them.
   */
  lemma MaxDepthIsMaximum(maxdepth: int, mintemp: int, maxtemp: int, cyls: seq<CylinderInfo>, dcs: seq<seq<Sample>>)
    ensures var r := MaxLimits(maxdepth, mintemp, maxtemp, cyls, dcs);
      r.maxdepth >= maxdepth &&
      (forall e, k :: 0 <= e < |dcs| && 0 <= k < |dcs[e]| ==> r.maxdepth >= dcs[e][k].depth) &&
      (r.maxdepth == maxdepth || exists e, k :: 0 <= e < |dcs| && 0 <= k < |dcs[e]| && r.maxdepth == dcs[e][k].depth)
  {
    ScanComputersCovers(InitialLimits(maxdepth, mintemp, maxtemp, cyls), dcs, 0);
  }

  /**
   * The time limit is at least the time of every sample taken below the
   * surface threshold or right after one, and never negative.
   */
  lemma MaxTimeCoversDive(maxdepth: int, mintemp: int, maxtemp: int, cyls: seq<CylinderInfo>, dcs: seq<seq<Sample>>)
    ensures var r := MaxLimits(maxdepth, mintemp, maxtemp, cyls, dcs);
      r.maxtime >= 0 &&
      forall e, k :: 0 <= e < |dcs| && 0 <= k < |dcs[e]| && Underwater(dcs[e][k], LastDepth(dcs[e], k)) ==>
        r.maxtime >= dcs[e][k].time
  {
    ScanComputersCovers(InitialLimits(maxdepth, mintemp, maxtemp, cyls), dcs, 0);
  }

  /** The maximum temperature bounds the dive's own and every sample's temperature. */
  lemma MaxTempCoversDive(maxdepth: int, mintemp: int, maxtemp: int, cyls: seq<CylinderInfo>, dcs: seq<seq<Sample>>)
    ensures var r := MaxLimits(maxdepth, mintemp, maxtemp, cyls, dcs);
      r.maxtemp >= maxtemp &&
      forall e, k :: 0 <= e < |dcs| && 0 <= k < |dcs[e]| ==> r.maxtemp >= dcs[e][k].temperature
  {
    ScanComputersCovers(InitialLimits(maxdepth, mintemp, maxtemp, cyls), dcs, 0);
  }

  /**
   * With manual start pressures between 0 and the largest int, the pressure range spans
   * every manual start pressure and every sample pressure; the minimum is
   * at most every nonzero sample pressure and at most the maximum, or it
   * is 0.
   */
  lemma PressureRange(maxdepth: int, mintemp: int, maxtemp: int, cyls: seq<CylinderInfo>, dcs: seq<seq<Sample>>)
    requires forall k :: 0 <= k < |cyls| ==> 0 <= cyls[k].start <= IntMax
    ensures var r := MaxLimits(maxdepth, mintemp, maxtemp, cyls, dcs);
      r.maxpressure >= 0 && (forall k :: 0 <= k < |cyls| ==> r.maxpressure >= cyls[k].start) &&
      (forall e, k :: 0 <= e < |dcs| && 0 <= k < |dcs[e]| ==> r.maxpressure >= dcs[e][k].cylinderPressure) &&
      r.minpressure <= r.maxpressure &&
      (r.minpressure == 0 || forall e, k :: 0 <= e < |dcs| && 0 <= k < |dcs[e]| && dcs[e][k].cylinderPressure != 0 ==>
        r.minpressure <= dcs[e][k].cylinderPressure)
  {
    CylinderMaxIsMaximum(cyls, 0, 0);
    ScanComputersCovers(InitialLimits(maxdepth, mintemp, maxtemp, cyls), dcs, 0);
  }

  /**
   * The minimum-temperature test of the source never lowers a nonzero
   * minimum and ignores every temperature that is not negative: with a
   * known dive minimum, or with no negative sample, the dive's own value
   * is kept.
   */
  lemma MinTempQuirk(maxdepth: int, mintemp: int, maxtemp: int, cyls: seq<CylinderInfo>, dcs: seq<seq<Sample>>)
    ensures var r := MaxLimits(maxdepth, mintemp, maxtemp, cyls, dcs);
      (mintemp != 0 ==> r.mintemp == mintemp) &&
      ((forall e, k :: 0 <= e < |dcs| && 0 <= k < |dcs[e]| ==> dcs[e][k].temperature >= 0) ==> r.mintemp == mintemp)
  {
    ScanComputersCovers(InitialLimits(maxdepth, mintemp, maxtemp, cyls), dcs, 0);
  }

  /** A colder sample than a known minimum does not lower it. */
  lemma MinTempQuirkExample()
    ensures MaxLimits(0, 280000, 300000, [], [[Sample(10, 1000, 270000, 0, 0, 0, 0, 0, false, 0, 0)]]).mintemp == 280000
  {
  }

  // ----- the imperative version -----

  /**
   * calculate_max_limits for a dive with maximum depth maxdepth and
   * temperature range mintemp..maxtemp, cylinders cyls and the sample lists
   * of its dive computers dcs, from the one plotted on through the list.
   */
  method CalculateMaxLimits(maxdepth: int, mintemp: int, maxtemp: int, cyls: seq<CylinderInfo>, dcs: seq<seq<Sample>>)
      returns (pi: Limits)
    ensures pi == MaxLimits(maxdepth, mintemp, maxtemp, cyls, dcs)
  {
    var maxpressure := 0;
    var c := 0;
    while c < |cyls|
      invariant 0 <= c <= |cyls|
      invariant CylinderMax(cyls, c, maxpressure) == CylinderMax(cyls, 0, 0)
      decreases |cyls| - c
    {
      var mbar := Unsigned(cyls[c].start);
      if mbar > Unsigned(maxpressure) {
        maxpressure := Signed(mbar);
      }
      c := c + 1;
    }
    var l := Limits(maxdepth, 0, maxpressure, IntMax, mintemp, maxtemp);
    var d := 0;
    while d < |dcs|
      invariant 0 <= d <= |dcs|
      invariant ScanComputers(l, dcs, d) == ScanComputers(InitialLimits(maxdepth, mintemp, maxtemp, cyls), dcs, 0)
      decreases |dcs| - d
    {
      l := ScanSamples(l, dcs[d]);
      d := d + 1;
    }
    if l.minpressure > l.maxpressure {
      l := l.(minpressure := 0);
    }
    pi := l;
  }

  /** The inner loop over the samples of one dive computer. */
  method ScanSamples(l0: Limits, dc: seq<Sample>) returns (l: Limits)
    ensures l == ScanComputer(l0, dc, 0)
  {
    l := l0;
    var lastdepth := 0;
    var j := 0;
    while j < |dc|
      invariant 0 <= j <= |dc| && lastdepth == LastDepth(dc, j)
      invariant ScanComputer(l, dc, j) == ScanComputer(l0, dc, 0)
      decreases |dc| - j
    {
      var s := dc[j];
      var depth, pressure, temperature := s.depth, s.cylinderPressure, s.temperature;
      if l.mintemp == 0 && temperature < l.mintemp {
        l := l.(mintemp := temperature);
      }
      if temperature > l.maxtemp {
        l := l.(maxtemp := temperature);
      }
      if pressure != 0 && pressure < l.minpressure {
        l := l.(minpressure := pressure);
      }
      if pressure > l.maxpressure {
        l := l.(maxpressure := pressure);
      }
      if depth > l.maxdepth {
        l := l.(maxdepth := depth);
      }
      if (depth > SurfaceThreshold || lastdepth > SurfaceThreshold) && s.time > l.maxtime {
        l := l.(maxtime := s.time);
      }
      lastdepth := depth;
      j := j + 1;
    }
  }
}
