/**
 * Seeding tank pressures before the fill: the manual start and end
 * pressures of each cylinder (populate_cylinder_pressure_data,
 * setup_gas_sensor_pressure) and the per-cylinder segment tracking of
 * populate_pressure_information.
 */
module PressureSetup {
  import opened Common
  import opened PlotData
  import opened Segments

  /** Slot idx of entry k is in use. */
  predicate InUse(s: seq<PlotEntry>, k: nat, idx: nat)
    requires AllWellFormed(s) && k < |s| && idx < MaxCylinders
  {
    s[k].cyl[idx].usage != NotInUse
  }

  /** Some entry has a sensor pressure for slot idx while the slot is in use. */
  predicate HasReading(s: seq<PlotEntry>, idx: nat)
    requires AllWellFormed(s) && idx < MaxCylinders
  {
    exists k :: 0 <= k < |s| && InUse(s, k, idx) && s[k].cyl[idx].sensor != 0
  }

  /** The first entry from j on whose slot idx is in use. */
  function FirstInUse(s: seq<PlotEntry>, idx: nat, j: nat): (r: Option<nat>)
    requires AllWellFormed(s) && idx < MaxCylinders
    ensures r.Some? ==> j <= r.value < |s| && InUse(s, r.value, idx)
    ensures r.Some? ==> forall k :: j <= k < r.value ==> !InUse(s, k, idx)
    ensures r.None? ==> forall k :: j <= k < |s| ==> !InUse(s, k, idx)
    decreases |s| - j
  {
    if j >= |s| then None else if InUse(s, j, idx) then Some(j) else FirstInUse(s, idx, j + 1)
  }

  /** The last entry before n whose slot idx is in use. */
  function LastInUse(s: seq<PlotEntry>, idx: nat, n: nat): (r: Option<nat>)
    requires AllWellFormed(s) && idx < MaxCylinders && n <= |s|
    ensures r.Some? ==> r.value < n && InUse(s, r.value, idx)
    ensures r.Some? ==> forall k :: r.value < k < n ==> !InUse(s, k, idx)
    ensures r.None? ==> forall k :: 0 <= k < n ==> !InUse(s, k, idx)
  {
    if n == 0 then None else if InUse(s, n - 1, idx) then Some(n - 1) else LastInUse(s, idx, n - 1)
  }

  /** The sensor pressure of slot idx of entry k set to p. */
  function SetSensor(s: seq<PlotEntry>, k: nat, idx: nat, p: int): (r: seq<PlotEntry>)
    requires AllWellFormed(s) && k < |s| && idx < MaxCylinders
    ensures |r| == |s| && AllWellFormed(r)
    ensures r[k] == s[k].(cyl := s[k].cyl[idx := s[k].cyl[idx].(sensor := p)])
    ensures forall m :: 0 <= m < |s| && m != k ==> r[m] == s[m]
  {
    s[k := s[k].(cyl := s[k].cyl[idx := s[k].cyl[idx].(sensor := p)])]
  }

  /**
   * populate_cylinder_pressure_data on the entries s: when no in-use entry
   * of slot idx has a sensor pressure, the first in-use entry gets start and
   * then the last in-use entry gets end.
   */
  function Seeded(s: seq<PlotEntry>, idx: nat, start: int, end: int): (r: seq<PlotEntry>)
    requires AllWellFormed(s) && idx < MaxCylinders
    ensures |r| == |s| && AllWellFormed(r)
  {
    if HasReading(s, idx) then s
    else match FirstInUse(s, idx, 0)
      case None => s
      case Some(f) =>
        var s1 := SetSensor(s, f, idx, start);
        match LastInUse(s1, idx, |s1|)
        case None => s1
        case Some(l) => SetSensor(s1, l, idx, end)
  }

  /** populate_cylinder_pressure_data for cylinder idx over the first nr entries. */
  method PopulateCylinderPressureData(entry: array<PlotEntry>, nr: nat, idx: nat, start: int, end: int)
    requires nr <= entry.Length && AllWellFormed(entry[..nr]) && idx < MaxCylinders
    modifies entry
    ensures entry[..nr] == Seeded(old(entry[..nr]), idx, start, end)
    ensures entry[nr..] == old(entry[nr..])
  {
    ghost var s := entry[..nr];
    var found := FindReading(entry, nr, idx);
    if found {
      return;
    }
    var i := FindFirstInUse(entry, nr, idx);
    if i == nr {
      return;
    }
    assert entry[i] == s[i];
    entry[i] := entry[i].(cyl := entry[i].cyl[idx := entry[i].cyl[idx].(sensor := start)]);
    ghost var s1 := entry[..nr];
    assert s1 == SetSensor(s, i, idx, start);
    assert InUse(s1, i, idx);
    var l := FindLastInUse(entry, nr, idx);
    assert entry[l] == s1[l];
    entry[l] := entry[l].(cyl := entry[l].cyl[idx := entry[l].cyl[idx].(sensor := end)]);
    assert entry[..nr] == SetSensor(s1, l, idx, end);
  }

  /** The first loop: whether an in-use slot idx already has a sensor pressure. */
  method FindReading(entry: array<PlotEntry>, nr: nat, idx: nat) returns (found: bool)
    requires nr <= entry.Length && AllWellFormed(entry[..nr]) && idx < MaxCylinders
    ensures found == HasReading(entry[..nr], idx)
  {
    ghost var s := entry[..nr];
    var i := 0;
    while i < nr
      invariant 0 <= i <= nr
      invariant forall k :: 0 <= k < i ==> !(InUse(s, k, idx) && s[k].cyl[idx].sensor != 0)
      decreases nr - i
    {
      assert entry[i] == s[i];
      if entry[i].cyl[idx].usage != NotInUse && entry[i].cyl[idx].sensor != 0 {
        return true;
      }
      i := i + 1;
    }
    return false;
  }

  /** The second loop: the first entry whose slot idx is in use, nr if none. */
  method FindFirstInUse(entry: array<PlotEntry>, nr: nat, idx: nat) returns (i: nat)
    requires nr <= entry.Length && AllWellFormed(entry[..nr]) && idx < MaxCylinders
    ensures i <= nr
    ensures i == nr <==> FirstInUse(entry[..nr], idx, 0).None?
    ensures i < nr ==> FirstInUse(entry[..nr], idx, 0) == Some(i)
  {
    ghost var s := entry[..nr];
    i := 0;
    while i < nr && entry[i].cyl[idx].usage == NotInUse
      invariant 0 <= i <= nr
      invariant FirstInUse(s, idx, i) == FirstInUse(s, idx, 0)
      decreases nr - i
    {
      assert entry[i] == s[i];
      i := i + 1;
    }
    if i < nr {
      assert entry[i] == s[i];
    }
  }

  /** The third loop: the last entry whose slot idx is in use, given that one is. */
  method FindLastInUse(entry: array<PlotEntry>, nr: nat, idx: nat) returns (l: nat)
    requires nr <= entry.Length && AllWellFormed(entry[..nr]) && idx < MaxCylinders
    requires LastInUse(entry[..nr], idx, nr).Some?
    ensures LastInUse(entry[..nr], idx, nr) == Some(l)
  {
    ghost var s := entry[..nr];
    var i := nr;
    while i > 0 && entry[i - 1].cyl[idx].usage == NotInUse
      invariant 0 <= i <= nr
      invariant LastInUse(s, idx, i) == LastInUse(s, idx, nr)
      decreases i
    {
      assert entry[i - 1] == s[i - 1];
      i := i - 1;
    }
    assert i > 0;
    assert entry[i - 1] == s[i - 1];
    l := i - 1;
  }

  /** Writing a sensor pressure keeps every slot's usage. */
  lemma SetSensorKeepsUsage(s: seq<PlotEntry>, k: nat, idx: nat, p: int)
    requires AllWellFormed(s) && k < |s| && idx < MaxCylinders
    ensures forall m, c :: 0 <= m < |s| && 0 <= c < MaxCylinders ==>
      SetSensor(s, k, idx, p)[m].cyl[c].usage == s[m].cyl[c].usage
  {
  }

  /**
   * populate_cylinder_pressure_data changes nothing when the slot already
   * has a reading; otherwise it changes only the sensor pressure of the
   * first and last in-use entries, to start and end, end winning when they
   * are the same entry.
   */
  lemma SeededChangesOnlyEnds(s: seq<PlotEntry>, idx: nat, start: int, end: int)
    requires AllWellFormed(s) && idx < MaxCylinders
    ensures HasReading(s, idx) ==> Seeded(s, idx, start, end) == s
    ensures FirstInUse(s, idx, 0).None? ==> Seeded(s, idx, start, end) == s
    ensures !HasReading(s, idx) && FirstInUse(s, idx, 0).Some? ==>
      var f := FirstInUse(s, idx, 0).value;
      var l := LastInUse(s, idx, |s|).value;
      var r := Seeded(s, idx, start, end);
      LastInUse(s, idx, |s|).Some? && f <= l &&
      r[l] == s[l].(cyl := s[l].cyl[idx := s[l].cyl[idx].(sensor := end)]) &&
      (f < l ==> r[f] == s[f].(cyl := s[f].cyl[idx := s[f].cyl[idx].(sensor := start)])) &&
      (forall k :: 0 <= k < |s| && k != f && k != l ==> r[k] == s[k])
  {
    if !HasReading(s, idx) && FirstInUse(s, idx, 0).Some? {
      var f := FirstInUse(s, idx, 0).value;
      var s1 := SetSensor(s, f, idx, start);
      SetSensorKeepsUsage(s, f, idx, start);
      LastInUseSame(s, s1, idx, |s|);
      var l := LastInUse(s, idx, |s|).value;
      assert f <= l;
      if f == l {
        assert s1[l].cyl[idx := s1[l].cyl[idx].(sensor := end)] == s[l].cyl[idx := s[l].cyl[idx].(sensor := end)];
      }
    }
  }

  /** Sequences with the same usages have the same last in-use entry. */
  lemma {:induction false} LastInUseSame(s: seq<PlotEntry>, t: seq<PlotEntry>, idx: nat, n: nat)
    requires AllWellFormed(s) && AllWellFormed(t) && |s| == |t| && idx < MaxCylinders && n <= |s|
    requires forall m :: 0 <= m < |s| ==> t[m].cyl[idx].usage == s[m].cyl[idx].usage
    ensures LastInUse(t, idx, n) == LastInUse(s, idx, n)
  {
    if n > 0 {
      assert InUse(t, n - 1, idx) == InUse(s, n - 1, idx);
      LastInUseSame(s, t, idx, n - 1);
    }
  }

  /** Seeding never overwrites a sensor pressure and never changes a usage. */
  lemma SeededKeepsReadings(s: seq<PlotEntry>, idx: nat, start: int, end: int)
    requires AllWellFormed(s) && idx < MaxCylinders
    ensures forall k, c :: 0 <= k < |s| && 0 <= c < MaxCylinders ==>
      Seeded(s, idx, start, end)[k].cyl[c].usage == s[k].cyl[c].usage &&
      (s[k].cyl[c].sensor != 0 && s[k].cyl[c].usage != NotInUse ==> Seeded(s, idx, start, end)[k].cyl[c] == s[k].cyl[c])
  {
    SeededChangesOnlyEnds(s, idx, start, end);
  }

  /** The pressure a cylinder is seeded with: the manual value, else the one from the samples. */
  function StartPressure(cyl: CylinderInfo): (p: int)
    ensures cyl.start != 0 ==> p == cyl.start
    ensures cyl.start == 0 ==> p == cyl.sampleStart
  {
    if cyl.start != 0 then cyl.start else cyl.sampleStart
  }

  function EndPressure(cyl: CylinderInfo): (p: int)
    ensures cyl.end != 0 ==> p == cyl.end
    ensures cyl.end == 0 ==> p == cyl.sampleEnd
  {
    if cyl.end != 0 then cyl.end else cyl.sampleEnd
  }

  /** setup_gas_sensor_pressure from cylinder i on: every cylinder with both pressures is seeded. */
  function SetupFrom(s: seq<PlotEntry>, cyls: seq<CylinderInfo>, i: nat): (r: seq<PlotEntry>)
    requires AllWellFormed(s) && |cyls| == MaxCylinders && i <= MaxCylinders
    ensures |r| == |s| && AllWellFormed(r)
    decreases MaxCylinders - i
  {
    if i == MaxCylinders then s
    else
      var start := StartPressure(cyls[i]);
      var end := EndPressure(cyls[i]);
      var next := if start == 0 || end == 0 then s else Seeded(s, i, start, end);
      SetupFrom(next, cyls, i + 1)
  }

  /**
   * setup_gas_sensor_pressure over the first nr entries.  Its walk over the
   * other dive computers calls a helper with an empty body and so changes
   * nothing.
   */
  method SetupGasSensorPressure(entry: array<PlotEntry>, nr: nat, cyls: seq<CylinderInfo>)
    requires nr <= entry.Length && AllWellFormed(entry[..nr]) && |cyls| == MaxCylinders
    modifies entry
    ensures entry[..nr] == SetupFrom(old(entry[..nr]), cyls, 0)
    ensures entry[nr..] == old(entry[nr..])
  {
    var i := 0;
    while i < MaxCylinders
      invariant 0 <= i <= MaxCylinders && AllWellFormed(entry[..nr])
      invariant SetupFrom(entry[..nr], cyls, i) == SetupFrom(old(entry[..nr]), cyls, 0)
      invariant entry[nr..] == old(entry[nr..])
      decreases MaxCylinders - i
    {
      var start := if cyls[i].start != 0 then cyls[i].start else cyls[i].sampleStart;
      var end := if cyls[i].end != 0 then cyls[i].end else cyls[i].sampleEnd;
      if start != 0 && end != 0 {
        PopulateCylinderPressureData(entry, nr, i, start, end);
      }
      i := i + 1;
    }
  }

  /** Reading slots, and every usage, survive the whole setup. */
  lemma {:induction false} SetupKeepsReadings(s: seq<PlotEntry>, cyls: seq<CylinderInfo>, i: nat)
    requires AllWellFormed(s) && |cyls| == MaxCylinders && i <= MaxCylinders
    ensures forall k, c :: 0 <= k < |s| && 0 <= c < MaxCylinders ==>
      SetupFrom(s, cyls, i)[k].cyl[c].usage == s[k].cyl[c].usage &&
      (s[k].cyl[c].sensor != 0 && s[k].cyl[c].usage != NotInUse ==> SetupFrom(s, cyls, i)[k].cyl[c] == s[k].cyl[c])
    decreases MaxCylinders - i
  {
    if i < MaxCylinders {
      var start := StartPressure(cyls[i]);
      var end := EndPressure(cyls[i]);
      var next := if start == 0 || end == 0 then s else Seeded(s, i, start, end);
      if !(start == 0 || end == 0) {
        SeededKeepsReadings(s, i, start, end);
      }
      SetupKeepsReadings(next, cyls, i + 1);
    }
  }

  // ----- populate_pressure_information -----

  /**
   * The segment list populate_pressure_information builds for cylinder c
   * over the first n entries.  Its flag first_segment_entry is set on every
   * path and never cleared, so every in-use entry opens a new segment of no
   * duration with that entry's sensor pressure, and the integration and
   * continuity code after it is never reached.
   */
  function Track(s: seq<PlotEntry>, c: nat, n: nat): (t: seq<Segment>)
    requires AllWellFormed(s) && c < MaxCylinders && n <= |s|
  {
    if n == 0 then []
    else
      var e := s[n - 1];
      if e.cyl[c].usage == NotInUse then Track(s, c, n - 1)
      else ListAdd(Track(s, c, n - 1), PrTrackAlloc(e.cyl[c].sensor, e.sec, e.cyl[c].usage))
  }

  /** Number of entries before n whose slot c is in use. */
  function InUseCount(s: seq<PlotEntry>, c: nat, n: nat): nat
    requires AllWellFormed(s) && c < MaxCylinders && n <= |s|
  {
    if n == 0 then 0 else InUseCount(s, c, n - 1) + (if s[n - 1].cyl[c].usage == NotInUse then 0 else 1)
  }

  /**
   * Every tracked segment is a point segment: it starts and ends at one
   * entry's time, has no pressure-time and no end pressure, and there is one
   * per in-use entry.
   */
  lemma {:induction false} TrackPointSegments(s: seq<PlotEntry>, c: nat, n: nat)
    requires AllWellFormed(s) && c < MaxCylinders && n <= |s|
    ensures |Track(s, c, n)| == InUseCount(s, c, n)
    ensures forall j :: 0 <= j < |Track(s, c, n)| ==>
      var g := Track(s, c, n)[j]; g.tStart == g.tEnd && g.pressureTime == 0 && g.end == 0 && g.usage != NotInUse
  {
    if n > 0 {
      TrackPointSegments(s, c, n - 1);
    }
  }

  /**
   * populate_pressure_information over the first nr entries: it builds the
   * segment list of every cylinder and changes no entry (the fill that would
   * use the lists is never called, because missing_pr is never set).
   */
  method PopulatePressureInformation(entry: array<PlotEntry>, nr: nat) returns (tracks: seq<seq<Segment>>)
    requires nr <= entry.Length && AllWellFormed(entry[..nr])
    ensures |tracks| == MaxCylinders
    ensures forall c :: 0 <= c < MaxCylinders ==> tracks[c] == Track(entry[..nr], c, nr)
  {
    tracks := [];
    var c := 0;
    while c < MaxCylinders
      invariant 0 <= c <= MaxCylinders && |tracks| == c
      invariant forall k :: 0 <= k < c ==> tracks[k] == Track(entry[..nr], k, nr)
      decreases MaxCylinders - c
    {
      var track: seq<Segment> := [];
      var i := 0;
      while i < nr
        invariant 0 <= i <= nr && track == Track(entry[..nr], c, i)
        decreases nr - i
      {
        var e := entry[i];
        assert e == entry[..nr][i];
        if e.cyl[c].usage != NotInUse {
          var current := PrTrackAlloc(e.cyl[c].sensor, e.sec, e.cyl[c].usage);
          track := ListAdd(track, current);
        }
        i := i + 1;
      }
      tracks := tracks + [track];
      c := c + 1;
    }
  }
}
