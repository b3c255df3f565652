/**
 * Tank pressures per plot entry: the interpolation data of a segment
 * (get_pr_interpolate_data), the pass that fills every entry without a
 * sensor reading (fill_missing_tank_pressures), the seeding of manual start
 * and end pressures (populate_cylinder_pressure_data,
 * setup_gas_sensor_pressure) and the segment tracking of
 * populate_pressure_information.
 */
module TankPressure {
  import opened Common
  import opened PlotData
  import opened Segments

  /** pr_interpolate_t: the pressures around an entry and the pressure-time up to it and in total. */
  datatype Interpolation = Interpolation(start: int, end: int, accPressureTime: int, pressureTime: int)

  /** Slot c of entry i replaced. */
  function SetSlot(s: seq<PlotEntry>, i: nat, c: nat, slot: CylState): (r: seq<PlotEntry>)
    requires i < |s| && c < |s[i].cyl|
    ensures |r| == |s| && r[i] == s[i].(cyl := s[i].cyl[c := slot])
    ensures r[i].cyl[c] == slot
    ensures forall k :: 0 <= k < |s| && k != i ==> r[k] == s[k]
  {
    s[i := s[i].(cyl := s[i].cyl[c := slot])]
  }

  // ----- get_pr_interpolate_data -----

  /** The outcome of looking at one entry: carry on with the data, or stop with it. */
  datatype Scan = Continue(ip: Interpolation) | Stop(ip: Interpolation)

  /**
   * What get_pr_interpolate_data does with entry i of the plot, slot c, for
   * the entry cur being interpolated: entries before the segment are
   * skipped, the segment's first entry resets the data (taking its sensor
   * reading as the start), readings before cur restart the accumulation,
   * pressure-time up to cur accumulates into both sums, later entries into
   * the total only, and the first reading after cur ends the scan as the end
   * pressure; the entry at the segment's end adds its pressure-time and ends
   * the scan.
   */
  function InterpStep(seg: Segment, e: PlotEntry, i: nat, cur: nat, c: nat, ip: Interpolation): (r: Scan)
    requires c < |e.cyl|
  {
    var sensor := e.cyl[c].sensor;
    var ptime := e.cyl[c].pressureTime;
    if e.sec < seg.tStart then Continue(ip)
    else if e.sec >= seg.tEnd then Stop(ip.(pressureTime := ip.pressureTime + ptime))
    else if e.sec == seg.tStart then
      Continue(ip.(accPressureTime := 0, pressureTime := 0, start := if sensor != 0 then sensor else ip.start))
    else if i < cur then
      if sensor != 0 then Continue(ip.(start := sensor, accPressureTime := 0, pressureTime := 0))
      else Continue(ip.(accPressureTime := ip.accPressureTime + ptime, pressureTime := ip.pressureTime + ptime))
    else if i == cur then
      Continue(ip.(accPressureTime := ip.accPressureTime + ptime, pressureTime := ip.pressureTime + ptime))
    else if sensor != 0 then Stop(ip.(pressureTime := ip.pressureTime + ptime, end := sensor))
    else Continue(ip.(pressureTime := ip.pressureTime + ptime))
  }

  /** The scan from entry i on, with the data gathered so far. */
  function InterpFrom(seg: Segment, s: seq<PlotEntry>, cur: nat, c: nat, i: nat, ip: Interpolation): Interpolation
    requires AllWellFormed(s) && c < MaxCylinders
    decreases |s| - i
  {
    if i >= |s| then ip
    else match InterpStep(seg, s[i], i, cur, c, ip)
      case Stop(r) => r
      case Continue(r) => InterpFrom(seg, s, cur, c, i + 1, r)
  }

  /** get_pr_interpolate_data on the entries s, starting from the segment's own pressures. */
  function InterpolateData(seg: Segment, s: seq<PlotEntry>, cur: nat, c: nat): Interpolation
    requires AllWellFormed(s) && c < MaxCylinders
  {
    InterpFrom(seg, s, cur, c, 0, Interpolation(seg.start, seg.end, 0, 0))
  }

  /** get_pr_interpolate_data over the first nr entries of the plot. */
  method GetPrInterpolateData(seg: Segment, entry: array<PlotEntry>, nr: nat, cur: nat, c: nat)
      returns (ip: Interpolation)
    requires nr <= entry.Length && AllWellFormed(entry[..nr]) && c < MaxCylinders
    ensures ip == InterpolateData(seg, entry[..nr], cur, c)
  {
    ghost var s := entry[..nr];
    ip := Interpolation(seg.start, seg.end, 0, 0);
    var i := 0;
    while i < nr
      invariant 0 <= i <= nr
      invariant InterpFrom(seg, s, cur, c, i, ip) == InterpolateData(seg, s, cur, c)
      decreases nr - i
    {
      var e := entry[i];
      assert e == s[i];
      var sensor := e.cyl[c].sensor;
      var ptime := e.cyl[c].pressureTime;
      if e.sec < seg.tStart {
        i := i + 1;
        continue;
      }
      if e.sec >= seg.tEnd {
        ip := ip.(pressureTime := ip.pressureTime + ptime);
        return;
      }
      if e.sec == seg.tStart {
        ip := ip.(accPressureTime := 0, pressureTime := 0);
        if sensor != 0 {
          ip := ip.(start := sensor);
        }
        i := i + 1;
        continue;
      }
      if i < cur {
        if sensor != 0 {
          ip := ip.(start := sensor, accPressureTime := 0, pressureTime := 0);
        } else {
          ip := ip.(accPressureTime := ip.accPressureTime + ptime, pressureTime := ip.pressureTime + ptime);
        }
        i := i + 1;
        continue;
      }
      if i == cur {
        ip := ip.(accPressureTime := ip.accPressureTime + ptime, pressureTime := ip.pressureTime + ptime);
        i := i + 1;
        continue;
      }
      ip := ip.(pressureTime := ip.pressureTime + ptime);
      if sensor != 0 {
        ip := ip.(end := sensor);
        return;
      }
      i := i + 1;
    }
  }

  /** Slot c of every entry has a non-negative pressure-time. */
  predicate PressureTimesNonneg(s: seq<PlotEntry>, c: nat)
    requires AllWellFormed(s) && c < MaxCylinders
  {
    forall k :: 0 <= k < |s| ==> s[k].cyl[c].pressureTime >= 0
  }

  /** With non-negative pressure-times the accumulated part never exceeds the total. */
  lemma {:induction false} InterpFromBounded(seg: Segment, s: seq<PlotEntry>, cur: nat, c: nat, i: nat, ip: Interpolation)
    requires AllWellFormed(s) && c < MaxCylinders && PressureTimesNonneg(s, c)
    requires 0 <= ip.accPressureTime <= ip.pressureTime
    ensures var r := InterpFrom(seg, s, cur, c, i, ip); 0 <= r.accPressureTime <= r.pressureTime
    decreases |s| - i
  {
    if i < |s| {
      match InterpStep(seg, s[i], i, cur, c, ip)
      case Stop(r) =>
      case Continue(r) => InterpFromBounded(seg, s, cur, c, i + 1, r);
    }
  }

  /** The pressure-time up to the entry lies between 0 and the segment's total. */
  lemma InterpolateDataBounded(seg: Segment, s: seq<PlotEntry>, cur: nat, c: nat)
    requires AllWellFormed(s) && c < MaxCylinders && PressureTimesNonneg(s, c)
    ensures var r := InterpolateData(seg, s, cur, c); 0 <= r.accPressureTime <= r.pressureTime
  {
    InterpFromBounded(seg, s, cur, c, 0, Interpolation(seg.start, seg.end, 0, 0));
  }

  /**
   * The interpolated pressure start + (end - start) / pt * acc + 0.5,
   * evaluated exactly and converted to int by truncation toward zero.
   */
  function InterpolatedPressure(ip: Interpolation): int
    requires ip.pressureTime != 0
  {
    var pt := ip.pressureTime;
    TruncDiv(2 * ip.start * pt + 2 * (ip.end - ip.start) * ip.accPressureTime + pt, 2 * pt)
  }

  /**
   * Between non-negative pressures the interpolation rounds to the nearest
   * pressure on the line from start to end: it lies between the two, gives
   * start with nothing accumulated and end with everything accumulated.
   */
  lemma InterpolatedBetween(ip: Interpolation)
    requires ip.start >= 0 && ip.end >= 0
    requires 0 <= ip.accPressureTime <= ip.pressureTime && ip.pressureTime > 0
    ensures Min(ip.start, ip.end) <= InterpolatedPressure(ip) <= Max(ip.start, ip.end)
    ensures ip.accPressureTime == 0 ==> InterpolatedPressure(ip) == ip.start
    ensures ip.accPressureTime == ip.pressureTime ==> InterpolatedPressure(ip) == ip.end
  {
    if ip.start <= ip.end {
      RisingLine(ip.start, ip.end, ip.accPressureTime, ip.pressureTime);
    } else {
      FallingLine(ip.start, ip.end, ip.accPressureTime, ip.pressureTime);
    }
  }

  /** The interpolation numerator, for a rising line from st to en. */
  lemma RisingLine(st: nat, en: nat, acc: int, pt: int)
    requires st <= en && 0 <= acc <= pt && pt > 0
    ensures var q := TruncDiv(2 * st * pt + 2 * (en - st) * acc + pt, 2 * pt);
      st <= q <= en && (acc == 0 ==> q == st) && (acc == pt ==> q == en)
  {
    var n := 2 * st * pt + 2 * (en - st) * acc + pt;
    NumeratorForms(st, en, acc, pt);
    MulNonneg(en - st, acc);
    MulNonneg(en - st, pt - acc);
    Doubled(st, pt);
    Doubled(en, pt);
    Quotient(n, 2 * pt, st, en);
    if acc == 0 {
      Quotient(n, 2 * pt, st, st);
    }
    if acc == pt {
      Quotient(n, 2 * pt, en, en);
    }
  }

  /** The interpolation numerator, for a falling line from st down to en. */
  lemma FallingLine(st: nat, en: nat, acc: int, pt: int)
    requires en < st && 0 <= acc <= pt && pt > 0
    ensures var q := TruncDiv(2 * st * pt + 2 * (en - st) * acc + pt, 2 * pt);
      en <= q <= st && (acc == 0 ==> q == st) && (acc == pt ==> q == en)
  {
    var n := 2 * st * pt + 2 * (en - st) * acc + pt;
    NumeratorForms(st, en, acc, pt);
    MulNonneg(st - en, acc);
    MulNonneg(st - en, pt - acc);
    Doubled(st, pt);
    Doubled(en, pt);
    Quotient(n, 2 * pt, en, st);
    if acc == 0 {
      Quotient(n, 2 * pt, st, st);
    }
    if acc == pt {
      Quotient(n, 2 * pt, en, en);
    }
  }

  /** The interpolation numerator seen from either end of the line. */
  lemma NumeratorForms(st: int, en: int, acc: int, pt: int)
    ensures 2 * st * pt + 2 * (en - st) * acc + pt == 2 * st * pt - 2 * (st - en) * acc + pt
    ensures 2 * st * pt + 2 * (en - st) * acc + pt == 2 * en * pt - 2 * (en - st) * (pt - acc) + pt
    ensures 2 * st * pt + 2 * (en - st) * acc + pt == 2 * en * pt + 2 * (st - en) * (pt - acc) + pt
  {
  }

  /** k whole steps of 2 * pt, and one more. */
  lemma Doubled(k: int, pt: int)
    ensures k * (2 * pt) == 2 * k * pt && (k + 1) * (2 * pt) == 2 * k * pt + 2 * pt
  {
  }

  // ----- fill_missing_tank_pressures -----

  /** The first segment from j on that does not end before sec (the segment lookup loop). */
  function SegmentFrom(track: seq<Segment>, sec: int, j: nat): (r: Option<nat>)
    ensures r.Some? ==> j <= r.value < |track| && track[r.value].tEnd >= sec
    ensures r.Some? ==> forall m :: j <= m < r.value ==> track[m].tEnd < sec
    ensures r.None? ==> forall m :: j <= m < |track| ==> track[m].tEnd < sec
    decreases |track| - j
  {
    if j >= |track| then None
    else if track[j].tEnd >= sec then Some(j)
    else SegmentFrom(track, sec, j + 1)
  }

  /** The plot entries and the running pressure of every cylinder (cur_pr). */
  datatype TState = TState(entries: seq<PlotEntry>, cur: seq<int>)

  predicate TGood(st: TState) {
    AllWellFormed(st.entries) && |st.cur| == MaxCylinders
  }

  /**
   * fill_missing_tank_pressures at entry i, cylinder c: a sensor reading
   * becomes the running pressure; without one, an entry with no segment or a
   * segment of no pressure-time gets the running pressure as its sensor
   * pressure, and otherwise the running pressure is re-interpolated (when the
   * interpolation has pressure-time) and stored as the interpolated pressure.
   */
  function TankStep(st: TState, tracks: seq<seq<Segment>>, i: nat, c: nat): (r: TState)
    requires TGood(st) && |tracks| == MaxCylinders && i < |st.entries| && c < MaxCylinders
    ensures TGood(r) && |r.entries| == |st.entries|
  {
    var slot := st.entries[i].cyl[c];
    if slot.usage == NotInUse then st
    else if slot.sensor != 0 then st.(cur := st.cur[c := slot.sensor])
    else
      var seg := SegmentFrom(tracks[c], st.entries[i].sec, 0);
      if seg.None? || tracks[c][seg.value].pressureTime == 0 then
        st.(entries := SetSlot(st.entries, i, c, slot.(sensor := st.cur[c])))
      else
        var ip := InterpolateData(tracks[c][seg.value], st.entries, i, c);
        var p := if ip.pressureTime != 0 then InterpolatedPressure(ip) else st.cur[c];
        TState(SetSlot(st.entries, i, c, slot.(interpolated := p)), st.cur[c := p])
  }

  /** The passes from entry i, cylinder c on: the rest of entry i, then every later entry. */
  function TankFrom(st: TState, tracks: seq<seq<Segment>>, i: nat, c: nat): (r: TState)
    requires TGood(st) && |tracks| == MaxCylinders && c <= MaxCylinders
    ensures TGood(r) && |r.entries| == |st.entries|
    decreases |st.entries| - i, MaxCylinders - c
  {
    if i >= |st.entries| then st
    else if c == MaxCylinders then TankFrom(st, tracks, i + 1, 0)
    else TankFrom(TankStep(st, tracks, i, c), tracks, i, c + 1)
  }

  /** Every cylinder's track after fill_missing_segment_pressures. */
  function FilledTracks(tracks: seq<seq<Segment>>): (r: seq<seq<Segment>>)
    requires |tracks| == MaxCylinders
    ensures |r| == MaxCylinders
    ensures forall c :: 0 <= c < MaxCylinders ==> r[c] == Filled(tracks[c], 0)
  {
    seq(MaxCylinders, c requires 0 <= c < MaxCylinders => Filled(tracks[c], 0))
  }

  /**
   * The running pressures at the start: the filled track's first start for a
   * cylinder with a track, the given (in C uninitialised) value otherwise.
   */
  function InitialCur(filled: seq<seq<Segment>>, curPr0: seq<int>): (r: seq<int>)
    requires |filled| == MaxCylinders && |curPr0| == MaxCylinders
    ensures |r| == MaxCylinders
    ensures forall c :: 0 <= c < MaxCylinders ==> r[c] == (if filled[c] == [] then curPr0[c] else filled[c][0].start)
  {
    seq(MaxCylinders, c requires 0 <= c < MaxCylinders => if filled[c] == [] then curPr0[c] else filled[c][0].start)
  }

  /** fill_missing_tank_pressures on the entries s: the passes above from entry 1 on. */
  function FillTank(s: seq<PlotEntry>, tracks: seq<seq<Segment>>, curPr0: seq<int>): (r: seq<PlotEntry>)
    requires AllWellFormed(s) && |tracks| == MaxCylinders && |curPr0| == MaxCylinders
    ensures |r| == |s| && AllWellFormed(r)
  {
    var filled := FilledTracks(tracks);
    TankFrom(TState(s, InitialCur(filled, curPr0)), filled, 1, 0).entries
  }

  /** A track run through fill_missing_segment_pressures on a fresh array of its nodes. */
  method FillTrack(track: seq<Segment>) returns (r: seq<Segment>)
    ensures r == Filled(track, 0)
  {
    var a := new Segment[|track|];
    var k := 0;
    while k < |track|
      invariant 0 <= k <= |track| && a[..k] == track[..k]
      decreases |track| - k
    {
      a[k] := track[k];
      assert a[..k + 1] == a[..k] + [track[k]];
      k := k + 1;
    }
    assert a[..] == track;
    FillMissingSegmentPressures(a);
    r := a[..];
  }

  /**
   * fill_missing_tank_pressures over the first nr entries.  tracks holds
   * every cylinder's segment list (empty = no list) and curPr0 the contents
   * of cur_pr for cylinders without one, which C leaves uninitialised.
   */
  method FillMissingTankPressures(entry: array<PlotEntry>, nr: nat, tracks: seq<seq<Segment>>, curPr0: seq<int>)
    requires nr <= entry.Length && AllWellFormed(entry[..nr])
    requires |tracks| == MaxCylinders && |curPr0| == MaxCylinders
    modifies entry
    ensures entry[..nr] == FillTank(old(entry[..nr]), tracks, curPr0)
    ensures entry[nr..] == old(entry[nr..])
  {
    var filled: seq<seq<Segment>> := [];
    var c := 0;
    while c < MaxCylinders
      invariant 0 <= c <= MaxCylinders && |filled| == c
      invariant forall k :: 0 <= k < c ==> filled[k] == Filled(tracks[k], 0)
      invariant entry[..] == old(entry[..])
      decreases MaxCylinders - c
    {
      var t := FillTrack(tracks[c]);
      filled := filled + [t];
      c := c + 1;
    }
    assert filled == FilledTracks(tracks);
    var curPr := new int[MaxCylinders];
    c := 0;
    while c < MaxCylinders
      invariant 0 <= c <= MaxCylinders
      invariant forall k :: 0 <= k < c ==> curPr[k] == InitialCur(filled, curPr0)[k]
      invariant entry[..] == old(entry[..])
      decreases MaxCylinders - c
    {
      if filled[c] == [] {
        curPr[c] := curPr0[c];
      } else {
        curPr[c] := filled[c][0].start;
      }
      c := c + 1;
    }
    assert curPr[..] == InitialCur(filled, curPr0);
    ghost var goal := TankFrom(TState(entry[..nr], curPr[..]), filled, 1, 0);
    var i := 1;
    while i < nr
      invariant 1 <= i && (nr > 0 ==> i <= nr)
      invariant AllWellFormed(entry[..nr])
      invariant TankFrom(TState(entry[..nr], curPr[..]), filled, i, 0) == goal
      invariant entry[nr..] == old(entry[nr..])
      decreases nr - i
    {
      FillRow(entry, nr, curPr, filled, i);
      i := i + 1;
    }
  }

  /** The inner loop over the cylinders of entry i. */
  method FillRow(entry: array<PlotEntry>, nr: nat, curPr: array<int>, tracks: seq<seq<Segment>>, i: nat)
    requires nr <= entry.Length && AllWellFormed(entry[..nr]) && i < nr
    requires curPr.Length == MaxCylinders && |tracks| == MaxCylinders
    modifies entry, curPr
    ensures AllWellFormed(entry[..nr])
    ensures TankFrom(TState(entry[..nr], curPr[..]), tracks, i + 1, 0) == TankFrom(TState(old(entry[..nr]), old(curPr[..])), tracks, i, 0)
    ensures entry[nr..] == old(entry[nr..])
  {
    ghost var goal := TankFrom(TState(entry[..nr], curPr[..]), tracks, i, 0);
    var c := 0;
    while c < MaxCylinders
      invariant 0 <= c <= MaxCylinders
      invariant AllWellFormed(entry[..nr])
      invariant TankFrom(TState(entry[..nr], curPr[..]), tracks, i, c) == goal
      invariant entry[nr..] == old(entry[nr..])
      decreases MaxCylinders - c
    {
      FillCell(entry, nr, curPr, tracks, i, c);
      c := c + 1;
    }
  }

  /** One cylinder of one entry. */
  method FillCell(entry: array<PlotEntry>, nr: nat, curPr: array<int>, tracks: seq<seq<Segment>>, i: nat, c: nat)
    requires nr <= entry.Length && AllWellFormed(entry[..nr]) && i < nr && c < MaxCylinders
    requires curPr.Length == MaxCylinders && |tracks| == MaxCylinders
    modifies entry, curPr
    ensures TState(entry[..nr], curPr[..]) == TankStep(TState(old(entry[..nr]), old(curPr[..])), tracks, i, c)
    ensures entry[nr..] == old(entry[nr..])
  {
    ghost var st := TState(entry[..nr], curPr[..]);
    var e := entry[i];
    assert e == st.entries[i];
    var slot := e.cyl[c];
    if slot.usage == NotInUse {
      return;
    }
    if slot.sensor != 0 {
      curPr[c] := slot.sensor;
      return;
    }
    var seg := FindSegment(tracks[c], e.sec);
    if seg.None? || tracks[c][seg.value].pressureTime == 0 {
      entry[i] := e.(cyl := e.cyl[c := slot.(sensor := curPr[c])]);
      assert entry[..nr] == SetSlot(st.entries, i, c, slot.(sensor := st.cur[c]));
      return;
    }
    var ip := GetPrInterpolateData(tracks[c][seg.value], entry, nr, i, c);
    if ip.pressureTime != 0 {
      var pt := ip.pressureTime;
      curPr[c] := TruncDiv(2 * ip.start * pt + 2 * (ip.end - ip.start) * ip.accPressureTime + pt, 2 * pt);
    }
    entry[i] := e.(cyl := e.cyl[c := slot.(interpolated := curPr[c])]);
    assert entry[..nr] == SetSlot(st.entries, i, c, slot.(interpolated := curPr[c]));
  }

  /** The segment lookup: walks the list while a segment ends before sec. */
  method FindSegment(track: seq<Segment>, sec: int) returns (r: Option<nat>)
    ensures r == SegmentFrom(track, sec, 0)
  {
    var j := 0;
    while j < |track| && track[j].tEnd < sec
      invariant 0 <= j <= |track|
      invariant SegmentFrom(track, sec, j) == SegmentFrom(track, sec, 0)
      decreases |track| - j
    {
      j := j + 1;
    }
    r := if j < |track| then Some(j) else None;
  }

  // ----- what the fill may change -----

  /**
   * now differs from orig only in pressures the fill may write: an entry's
   * other fields, every slot's usage, pressure-time and SAC, and every slot
   * that is unused or has a sensor reading are as they were.
   */
  ghost predicate Kept(orig: seq<PlotEntry>, now: seq<PlotEntry>)
    requires AllWellFormed(orig) && AllWellFormed(now)
  {
    |now| == |orig| && forall k :: 0 <= k < |orig| ==> EntryKept(orig[k], now[k])
  }

  /** One entry of Kept. */
  ghost predicate EntryKept(o: PlotEntry, n: PlotEntry)
    requires WellFormed(o) && WellFormed(n)
  {
    n.(cyl := o.cyl) == o && forall c :: 0 <= c < MaxCylinders ==> SlotKept(o.cyl[c], n.cyl[c])
  }

  /** One slot of Kept: only the pressures of a sensor-less slot in use may differ. */
  ghost predicate SlotKept(o: CylState, n: CylState) {
    n.(sensor := 0, interpolated := 0) == o.(sensor := 0, interpolated := 0) &&
    (o.usage == NotInUse || o.sensor != 0 ==> n == o)
  }

  /** The slots the passes have not reached yet, (i, c) and after, are as they were. */
  ghost predicate Ahead(orig: seq<PlotEntry>, now: seq<PlotEntry>, i: nat, c: nat)
    requires AllWellFormed(orig) && AllWellFormed(now) && |now| == |orig|
  {
    (forall k :: i < k < |orig| ==> now[k] == orig[k]) &&
    (i < |orig| ==> forall d :: c <= d < MaxCylinders ==> now[i].cyl[d] == orig[i].cyl[d])
  }

  /** Writing a new pressure into a sensor-less slot in use that the passes are at keeps both. */
  lemma SetSlotKeeps(orig: seq<PlotEntry>, now: seq<PlotEntry>, i: nat, c: nat, slot: CylState)
    requires AllWellFormed(orig) && AllWellFormed(now) && |now| == |orig| && i < |now| && c < MaxCylinders
    requires Kept(orig, now) && Ahead(orig, now, i, c)
    requires orig[i].cyl[c].usage != NotInUse && orig[i].cyl[c].sensor == 0
    requires slot.(sensor := 0, interpolated := 0) == orig[i].cyl[c].(sensor := 0, interpolated := 0)
    ensures AllWellFormed(SetSlot(now, i, c, slot))
    ensures Kept(orig, SetSlot(now, i, c, slot)) && Ahead(orig, SetSlot(now, i, c, slot), i, c + 1)
  {
    var r := SetSlot(now, i, c, slot);
    assert EntryKept(orig[i], now[i]);
    assert r[i].(cyl := orig[i].cyl) == now[i].(cyl := orig[i].cyl);
    forall d | 0 <= d < MaxCylinders
      ensures SlotKept(orig[i].cyl[d], r[i].cyl[d])
    {
      if d != c {
        assert r[i].cyl[d] == now[i].cyl[d];
      }
    }
    assert EntryKept(orig[i], r[i]);
    forall k | 0 <= k < |orig|
      ensures EntryKept(orig[k], r[k])
    {
      if k != i {
        assert r[k] == now[k];
      }
    }
  }

  /** One step writes at most slot c of entry i, and only a sensor-less slot in use. */
  lemma TankStepKeeps(orig: seq<PlotEntry>, st: TState, tracks: seq<seq<Segment>>, i: nat, c: nat)
    requires TGood(st) && AllWellFormed(orig) && |tracks| == MaxCylinders && i < |st.entries| && c < MaxCylinders
    requires Kept(orig, st.entries) && Ahead(orig, st.entries, i, c)
    ensures Kept(orig, TankStep(st, tracks, i, c).entries)
    ensures Ahead(orig, TankStep(st, tracks, i, c).entries, i, c + 1)
  {
    var slot := st.entries[i].cyl[c];
    assert slot == orig[i].cyl[c];
    if slot.usage != NotInUse && slot.sensor == 0 {
      var seg := SegmentFrom(tracks[c], st.entries[i].sec, 0);
      if seg.None? || tracks[c][seg.value].pressureTime == 0 {
        SetSlotKeeps(orig, st.entries, i, c, slot.(sensor := st.cur[c]));
      } else {
        var ip := InterpolateData(tracks[c][seg.value], st.entries, i, c);
        var p := if ip.pressureTime != 0 then InterpolatedPressure(ip) else st.cur[c];
        SetSlotKeeps(orig, st.entries, i, c, slot.(interpolated := p));
      }
    }
  }

  lemma {:induction false} TankFromKeeps(orig: seq<PlotEntry>, st: TState, tracks: seq<seq<Segment>>, i: nat, c: nat)
    requires TGood(st) && AllWellFormed(orig) && |tracks| == MaxCylinders && c <= MaxCylinders
    requires Kept(orig, st.entries) && Ahead(orig, st.entries, i, c)
    ensures Kept(orig, TankFrom(st, tracks, i, c).entries)
    decreases |st.entries| - i, MaxCylinders - c
  {
    if i < |st.entries| {
      if c == MaxCylinders {
        TankFromKeeps(orig, st, tracks, i + 1, 0);
      } else {
        TankStepKeeps(orig, st, tracks, i, c);
        TankFromKeeps(orig, TankStep(st, tracks, i, c), tracks, i, c + 1);
      }
    }
  }

  /**
   * fill_missing_tank_pressures writes only sensor and interpolated
   * pressures of slots in use that had no sensor reading, from entry 1 on:
   * the first filler, every sensor reading, every unused slot and every
   * other field stay as they were.
   */
  lemma FillTankKeeps(s: seq<PlotEntry>, tracks: seq<seq<Segment>>, curPr0: seq<int>)
    requires AllWellFormed(s) && |tracks| == MaxCylinders && |curPr0| == MaxCylinders
    ensures Kept(s, FillTank(s, tracks, curPr0))
    ensures |s| > 0 ==> FillTank(s, tracks, curPr0)[0] == s[0]
  {
    var filled := FilledTracks(tracks);
    var st := TState(s, InitialCur(filled, curPr0));
    TankFromPrefix(st, filled, 1, 0);
    TankFromKeeps(s, st, filled, 1, 0);
  }

  /** The passes from entry i on leave the entries before i alone. */
  lemma {:induction false} TankFromPrefix(st: TState, tracks: seq<seq<Segment>>, i: nat, c: nat)
    requires TGood(st) && |tracks| == MaxCylinders && c <= MaxCylinders
    ensures forall k :: 0 <= k < i && k < |st.entries| ==> TankFrom(st, tracks, i, c).entries[k] == st.entries[k]
    decreases |st.entries| - i, MaxCylinders - c
  {
    if i < |st.entries| {
      if c == MaxCylinders {
        TankFromPrefix(st, tracks, i + 1, 0);
      } else {
        TankFromPrefix(TankStep(st, tracks, i, c), tracks, i, c + 1);
      }
    }
  }

  /**
   * A re-interpolated pressure, over non-negative pressure-times and
   * between non-negative pressures, lies between the pressures the
   * interpolation found around the entry.
   */
  lemma TankStepInterpolatedBetween(st: TState, tracks: seq<seq<Segment>>, i: nat, c: nat)
    requires TGood(st) && |tracks| == MaxCylinders && i < |st.entries| && c < MaxCylinders
    requires PressureTimesNonneg(st.entries, c)
    requires st.entries[i].cyl[c].usage != NotInUse && st.entries[i].cyl[c].sensor == 0
    requires SegmentFrom(tracks[c], st.entries[i].sec, 0).Some?
    requires tracks[c][SegmentFrom(tracks[c], st.entries[i].sec, 0).value].pressureTime != 0
    requires var ip := InterpolateData(tracks[c][SegmentFrom(tracks[c], st.entries[i].sec, 0).value], st.entries, i, c);
      ip.pressureTime != 0 && ip.start >= 0 && ip.end >= 0
    ensures var ip := InterpolateData(tracks[c][SegmentFrom(tracks[c], st.entries[i].sec, 0).value], st.entries, i, c);
      var p := TankStep(st, tracks, i, c).entries[i].cyl[c].interpolated;
      Min(ip.start, ip.end) <= p <= Max(ip.start, ip.end) && TankStep(st, tracks, i, c).cur[c] == p
  {
    var seg := tracks[c][SegmentFrom(tracks[c], st.entries[i].sec, 0).value];
    InterpolateDataBounded(seg, st.entries, i, c);
    InterpolatedBetween(InterpolateData(seg, st.entries, i, c));
  }
}
