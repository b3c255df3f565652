/**
 * The sample densifier (populate_plot_entries): raw samples are resampled
 * into plot entries at most 10 s apart, framed by two leading fillers and two
 * trailing entries one and two seconds after the last sample.
 *
 * Densified is the specification: a left-to-right run over the samples,
 * where each sample contributes the entries inserted before it (Gap) and its
 * own entry (SampleEntry).  PopulatePlotEntries is the array algorithm of the
 * source, proved to produce exactly Densified.
 */
module Densify {
  import opened Common
  import opened PlotData

  /** The external interpolate(a, b, part, whole) helper. */
  type Interp = (int, int, int, int) -> int

  function ClearSensor(c: CylState): CylState {
    c.(sensor := 0)
  }

  function ClearSensors(c: seq<CylState>): (r: seq<CylState>)
    ensures |r| == |c|
    ensures forall k :: 0 <= k < |c| ==> r[k] == c[k].(sensor := 0)
  {
    seq(|c|, k requires 0 <= k < |c| => ClearSensor(c[k]))
  }

  /**
   * An entry inserted between two samples: a copy of the previous entry at
   * the new time and depth, with every sensor pressure cleared.
   */
  function Inserted(prev: PlotEntry, sec: int, depth: int): (e: PlotEntry)
    ensures e.sec == sec && e.depth == depth && |e.cyl| == |prev.cyl|
    ensures forall k :: 0 <= k < |prev.cyl| ==> e.cyl[k] == prev.cyl[k].(sensor := 0)
    ensures e.(sec := prev.sec, depth := prev.depth, cyl := prev.cyl) == prev
  {
    prev.(sec := sec, depth := depth, cyl := ClearSensors(prev.cyl))
  }

  /** Copying an inserted entry again gives the same result as copying its origin. */
  lemma InsertedOfInserted(p: PlotEntry, s1: int, d1: int, s2: int, d2: int)
    ensures Inserted(Inserted(p, s1, d1), s2, d2) == Inserted(p, s2, d2)
  {
    assert ClearSensors(ClearSensors(p.cyl)) == ClearSensors(p.cyl);
  }

  /** The entry written for a sample at (clamped) time `time`, on a fresh zeroed entry. */
  function SampleEntry(s: Sample, time: int, temperature: int): (e: PlotEntry)
    requires s.sensor < MaxCylinders
    ensures WellFormed(e) && e.sec == time && e.depth == s.depth && e.temperature == temperature
    ensures e.cyl[s.sensor].sensor == s.cylinderPressure
    ensures forall k :: 0 <= k < MaxCylinders && k != s.sensor ==> e.cyl[k] == ZeroCyl
  {
    var cyl := ZeroEntry.cyl[s.sensor := ZeroCyl.(sensor := s.cylinderPressure)];
    PlotEntry(time, s.depth, temperature, s.stopdepth, s.stoptime, s.ndl, s.inDeco, s.cns, s.po2,
              0, 0, Stable, cyl, ZeroEntry.windows)
  }

  predicate SensorsInRange(samples: seq<Sample>) {
    forall j :: 0 <= j < |samples| ==> samples[j].sensor < MaxCylinders
  }

  /** The state of the resampling loop after a prefix of the samples. */
  datatype DState = DState(entries: seq<PlotEntry>, lasttime: int, lastdepth: int, lasttemp: int, hasNdl: bool)

  const Init: DState := DState([ZeroEntry, ZeroEntry], 0, 0, 0, false)

  /** A sample time earlier than the previous one is clamped to the previous one. */
  function ClampedTime(s: Sample, lasttime: int): (t: int)
    ensures t >= lasttime && (t == s.time || t == lasttime)
    ensures s.time >= lasttime ==> t == s.time
  {
    if s.time - lasttime < 0 then lasttime else s.time
  }

  /** Number of entries inserted before a sample `delta` seconds after `lasttime`. */
  function GapCount(lasttime: int, delta: int, maxtime: int): (n: nat)
    requires lasttime <= maxtime
    ensures 10 * n < delta || n == 0
    ensures lasttime + 10 * n <= maxtime
    ensures delta > 0 ==> 10 * (n + 1) >= delta || lasttime + 10 * (n + 1) > maxtime
  {
    if delta <= 0 then 0 else Min((delta - 1) / 10, (maxtime - lasttime) / 10)
  }

  /** The entries inserted, 10 s apart, between the previous entry and sample s. */
  function Gap(st: DState, s: Sample, maxtime: int, interp: Interp): (g: seq<PlotEntry>)
    requires |st.entries| > 0 && st.lasttime <= maxtime
    ensures |g| == GapCount(st.lasttime, ClampedTime(s, st.lasttime) - st.lasttime, maxtime)
    ensures forall j :: 0 <= j < |g| ==> g[j].sec == st.lasttime + 10 * (j + 1)
  {
    GapPrefix(st, s, ClampedTime(s, st.lasttime) - st.lasttime,
              GapCount(st.lasttime, ClampedTime(s, st.lasttime) - st.lasttime, maxtime), interp)
  }

  /** The j-th entry inserted before sample s (j from 0). */
  function GapEntry(st: DState, s: Sample, delta: int, j: nat, interp: Interp): (e: PlotEntry)
    requires |st.entries| > 0
    ensures e.sec == st.lasttime + 10 * (j + 1)
  {
    Inserted(st.entries[|st.entries| - 1], st.lasttime + 10 * (j + 1),
             interp(st.lastdepth, s.depth, 10 * (j + 1), delta))
  }

  /** The first n inserted entries. */
  function GapPrefix(st: DState, s: Sample, delta: int, n: nat, interp: Interp): (g: seq<PlotEntry>)
    requires |st.entries| > 0
    ensures |g| == n
    ensures forall j :: 0 <= j < n ==> g[j] == GapEntry(st, s, delta, j, interp)
  {
    if n == 0 then [] else GapPrefix(st, s, delta, n - 1, interp) + [GapEntry(st, s, delta, n - 1, interp)]
  }

  /** Whether sample s lies past maxtime, which ends the resampling. */
  predicate Stops(st: DState, s: Sample, maxtime: int) {
    ClampedTime(s, st.lasttime) > maxtime
  }

  /** The state after a sample that does not stop the run: its gap, then its own entry. */
  function Step(st: DState, s: Sample, maxtime: int, interp: Interp): (r: DState)
    requires |st.entries| > 0 && st.lasttime <= maxtime && s.sensor < MaxCylinders
    requires !Stops(st, s, maxtime)
    ensures r.lasttime == ClampedTime(s, st.lasttime) && r.lastdepth == s.depth
    ensures r.hasNdl == (st.hasNdl || s.ndl != 0)
  {
    var time := ClampedTime(s, st.lasttime);
    var temp := if s.temperature != 0 then s.temperature else st.lasttemp;
    DState(st.entries + Gap(st, s, maxtime, interp) + [SampleEntry(s, time, temp)],
           time, s.depth, temp, st.hasNdl || s.ndl != 0)
  }

  predicate Good(st: DState, maxtime: int) {
    |st.entries| > 0 && 0 <= st.lasttime <= maxtime
  }

  /** The resampling loop from sample i on. */
  function Run(samples: seq<Sample>, i: nat, st: DState, maxtime: int, interp: Interp): (r: DState)
    requires i <= |samples| && SensorsInRange(samples) && Good(st, maxtime)
    ensures |r.entries| >= |st.entries|
    ensures 0 <= r.lasttime <= maxtime
    decreases |samples| - i
  {
    if i == |samples| then st
    else if Stops(st, samples[i], maxtime) then
      st.(entries := st.entries + Gap(st, samples[i], maxtime, interp))
    else
      Run(samples, i + 1, Step(st, samples[i], maxtime, interp), maxtime, interp)
  }

  lemma RunStops(samples: seq<Sample>, i: nat, st: DState, maxtime: int, interp: Interp)
    requires i < |samples| && SensorsInRange(samples) && Good(st, maxtime)
    requires Stops(st, samples[i], maxtime)
    ensures Run(samples, i, st, maxtime, interp) == st.(entries := st.entries + Gap(st, samples[i], maxtime, interp))
  {
  }

  lemma RunSteps(samples: seq<Sample>, i: nat, st: DState, maxtime: int, interp: Interp)
    requires i < |samples| && SensorsInRange(samples) && Good(st, maxtime)
    requires !Stops(st, samples[i], maxtime)
    ensures Good(Step(st, samples[i], maxtime, interp), maxtime)
    ensures Run(samples, i, st, maxtime, interp) == Run(samples, i + 1, Step(st, samples[i], maxtime, interp), maxtime, interp)
  {
  }

  /** The whole densified series: the run from the two fillers, then two trailing entries. */
  function Densified(samples: seq<Sample>, maxtime: nat, interp: Interp): (d: seq<PlotEntry>)
    requires SensorsInRange(samples)
  {
    var r := Run(samples, 0, Init, maxtime, interp);
    r.entries + Trailers(r.lasttime)
  }

  lemma DensifiedOfRun(samples: seq<Sample>, maxtime: nat, interp: Interp, r: DState)
    requires SensorsInRange(samples) && r == Run(samples, 0, Init, maxtime, interp)
    ensures Densified(samples, maxtime, interp) == r.entries + Trailers(r.lasttime)
    ensures HasNdl(samples, maxtime, interp) == r.hasNdl
  {
  }

  /** A trailing entry: a zeroed entry at the given time. */
  function Trailer(sec: int): (e: PlotEntry)
    ensures e == ZeroEntry.(sec := sec)
  {
    ZeroEntry.(sec := sec)
  }

  /** The two trailing entries, one and two seconds after the last time. */
  function Trailers(lasttime: int): seq<PlotEntry> {
    [Trailer(lasttime + 1), Trailer(lasttime + 2)]
  }

  /** Whether any sample that was used has a no-deco time (pi->has_ndl). */
  function HasNdl(samples: seq<Sample>, maxtime: nat, interp: Interp): bool
    requires SensorsInRange(samples)
  {
    Run(samples, 0, Init, maxtime, interp).hasNdl
  }

  // ---------------------------------------------------------------------
  // The array algorithm.

  /**
   * The inner loop of populate_plot_entries: writes the entries inserted
   * before one sample, stopping at maxtime.
   */
  method FillGap(entry: array<PlotEntry>, idx: nat, ghost st: DState, sample: Sample,
                 lasttime: int, lastdepth: int, delta: int, maxtime: int, interp: Interp)
    returns (next: nat)
    modifies entry
    requires Good(st, maxtime) && idx == |st.entries| && idx <= entry.Length
    requires entry[..idx] == st.entries && lasttime == st.lasttime && lastdepth == st.lastdepth
    requires delta == ClampedTime(sample, st.lasttime) - st.lasttime
    requires idx + GapCount(st.lasttime, delta, maxtime) <= entry.Length
    ensures next == idx + GapCount(st.lasttime, delta, maxtime)
    ensures entry[..next] == st.entries + Gap(st, sample, maxtime, interp)
  {
    var offset := 10;
    ghost var k: nat := 0;
    next := idx;
    while offset < delta
      invariant offset == 10 * (k + 1) && (k == 0 || 10 * k < delta)
      invariant lasttime + 10 * k <= maxtime
      invariant next == idx + k
      invariant entry[..next] == st.entries + GapPrefix(st, sample, delta, k, interp)
    {
      if lasttime + offset > maxtime {
        break;
      }
      GapCountCovers(lasttime, delta, maxtime, k + 1);
      PutGapEntry(entry, next, st, sample, lasttime, lastdepth, offset, delta, k, interp);
      next := next + 1;
      offset := offset + 10;
      k := k + 1;
    }
    GapCountIs(lasttime, delta, maxtime, k);
    GapIsPrefix(st, sample, maxtime, interp, delta, k);
  }

  /** The whole gap is the prefix the inner loop wrote when it stopped after k entries. */
  lemma GapIsPrefix(st: DState, sample: Sample, maxtime: int, interp: Interp, delta: int, k: nat)
    requires |st.entries| > 0 && st.lasttime <= maxtime
    requires delta == ClampedTime(sample, st.lasttime) - st.lasttime && GapCount(st.lasttime, delta, maxtime) == k
    ensures Gap(st, sample, maxtime, interp) == GapPrefix(st, sample, delta, k, interp)
  {
  }

  /** One turn of the inner loop: a copy of the last entry at time lasttime + offset. */
  method PutGapEntry(entry: array<PlotEntry>, next: nat, ghost st: DState, sample: Sample,
                     lasttime: int, lastdepth: int, offset: int, delta: int, ghost k: nat, interp: Interp)
    modifies entry
    requires |st.entries| > 0 && 0 < next < entry.Length && offset == 10 * (k + 1)
    requires lasttime == st.lasttime && lastdepth == st.lastdepth
    requires entry[..next] == st.entries + GapPrefix(st, sample, delta, k, interp)
    ensures entry[..next + 1] == st.entries + GapPrefix(st, sample, delta, k + 1, interp)
  {
    var e := Inserted(entry[next - 1], lasttime + offset, interp(lastdepth, sample.depth, offset, delta));
    NextGapEntry(st, sample, delta, k, interp, entry[..next]);
    Put(entry, next, e);
  }

  /** The entry the inner loop writes next is the next one of Gap: copying the last written one. */
  lemma NextGapEntry(st: DState, sample: Sample, delta: int, k: nat, interp: Interp, written: seq<PlotEntry>)
    requires |st.entries| > 0 && written == st.entries + GapPrefix(st, sample, delta, k, interp)
    ensures Inserted(written[|written| - 1], st.lasttime + 10 * (k + 1), interp(st.lastdepth, sample.depth, 10 * (k + 1), delta))
            == GapEntry(st, sample, delta, k, interp)
  {
    if k > 0 {
      assert written[|written| - 1] == GapEntry(st, sample, delta, k - 1, interp);
      InsertedOfInserted(st.entries[|st.entries| - 1], written[|written| - 1].sec, written[|written| - 1].depth,
                         st.lasttime + 10 * (k + 1), interp(st.lastdepth, sample.depth, 10 * (k + 1), delta));
    }
  }

  /** A gap entry that is written is one that Gap counts. */
  lemma GapCountCovers(lasttime: int, delta: int, maxtime: int, k: nat)
    requires lasttime <= maxtime && lasttime + 10 * k <= maxtime && 10 * k < delta
    ensures k <= GapCount(lasttime, delta, maxtime)
  {
  }

  /** When the inner loop stops after k entries, k is exactly Gap's count. */
  lemma GapCountIs(lasttime: int, delta: int, maxtime: int, k: nat)
    requires lasttime <= maxtime && lasttime + 10 * k <= maxtime && (k == 0 || 10 * k < delta)
    requires 10 * (k + 1) >= delta || lasttime + 10 * (k + 1) > maxtime
    ensures GapCount(lasttime, delta, maxtime) == k
  {
  }

  /** Writes e just after a filled prefix of the array, extending the prefix by e. */
  method Put(entry: array<PlotEntry>, idx: nat, e: PlotEntry)
    modifies entry
    requires idx < entry.Length
    ensures entry[..idx + 1] == old(entry[..idx]) + [e]
  {
    entry[idx] := e;
    assert entry[..idx + 1] == entry[..idx] + [e];
  }

  /**
   * One turn of the outer loop of populate_plot_entries: the entries inserted
   * before sample `sample`, then, unless the sample lies past maxtime, the
   * sample's own entry.  `stop` tells whether the run ends here.
   */
  method DensifySample(entry: array<PlotEntry>, idx: nat, ghost cur: DState, sample: Sample,
                       lasttime: int, lastdepth: int, lasttemp: int, hasNdl: bool,
                       maxtime: int, interp: Interp)
    returns (idx': nat, lasttime': int, lastdepth': int, lasttemp': int, hasNdl': bool,
             stop: bool, ghost cur': DState)
    modifies entry
    requires Good(cur, maxtime) && sample.sensor < MaxCylinders && idx <= entry.Length
    requires cur == DState(entry[..idx], lasttime, lastdepth, lasttemp, hasNdl)
    requires idx + 1 + (maxtime - lasttime) / 10 <= entry.Length
    ensures stop == Stops(cur, sample, maxtime)
    ensures stop ==> cur' == cur.(entries := cur.entries + Gap(cur, sample, maxtime, interp))
    ensures !stop ==> cur' == Step(cur, sample, maxtime, interp) && Good(cur', maxtime)
    ensures !stop ==> idx' + (maxtime - lasttime') / 10 <= idx + 1 + (maxtime - lasttime) / 10
    ensures idx' <= entry.Length && cur' == DState(entry[..idx'], lasttime', lastdepth', lasttemp', hasNdl')
  {
    var time := sample.time;
    var delta := time - lasttime;
    if delta < 0 {
      time := lasttime;
      delta := 0;
    }
    ghost var n := GapCount(lasttime, delta, maxtime);
    idx' := FillGap(entry, idx, cur, sample, lasttime, lastdepth, delta, maxtime, interp);
    lasttime', lastdepth', lasttemp', hasNdl' := lasttime, lastdepth, lasttemp, hasNdl;
    if time > maxtime {
      stop := true;
      cur' := cur.(entries := entry[..idx']);
      return;
    }
    stop := false;
    assert n == 0 || 10 * n < delta;
    RoomLeft(maxtime - time, maxtime - lasttime, n);
    var temp := if sample.temperature != 0 then sample.temperature else lasttemp;
    Put(entry, idx', SampleEntry(sample, time, temp));
    idx' := idx' + 1;
    lasttemp' := temp;
    hasNdl' := hasNdl || sample.ndl != 0;
    lasttime' := time;
    lastdepth' := sample.depth;
    cur' := Step(cur, sample, maxtime, interp);
  }

  /** Writes the two trailing entries after the filled prefix. */
  method AppendTrailers(entry: array<PlotEntry>, idx: nat, lasttime: int)
    modifies entry
    requires idx + 2 <= entry.Length
    ensures entry[..idx + 2] == old(entry[..idx]) + Trailers(lasttime)
  {
    Put(entry, idx, Trailer(lasttime + 1));
    Put(entry, idx + 1, Trailer(lasttime + 2));
  }

  /** Room arithmetic: n steps of 10 s fit in the time the sample consumed. */
  lemma RoomLeft(after: int, before: int, n: nat)
    requires 10 * n <= before - after
    ensures n + after / 10 <= before / 10
  {
    assert (after + 10 * n) / 10 == after / 10 + n;
    DivMonotone2(after + 10 * n, before);
  }

  lemma DivMonotone2(a: int, b: int)
    requires a <= b
    ensures a / 10 <= b / 10
  {
  }

  /**
   * The outer loop of populate_plot_entries, from the two fillers on: it
   * leaves the run's entries in the array and returns its final time and
   * has_ndl flag.
   */
  method Resample(entry: array<PlotEntry>, samples: seq<Sample>, maxtime: nat, interp: Interp)
    returns (idx: nat, lasttime: int, hasNdl: bool)
    modifies entry
    requires SensorsInRange(samples)
    requires entry.Length == |samples| + 5 + maxtime / 10 && entry[..2] == Init.entries
    ensures idx + 2 <= entry.Length
    ensures Run(samples, 0, Init, maxtime, interp) == DState(entry[..idx], lasttime, Run(samples, 0, Init, maxtime, interp).lastdepth,
                                                             Run(samples, 0, Init, maxtime, interp).lasttemp, hasNdl)
  {
    ghost var final := Run(samples, 0, Init, maxtime, interp);
    ghost var cur := Init;
    idx := 2;
    var lastdepth, lasttemp := 0, 0;
    lasttime, hasNdl := 0, false;
    var i := 0;
    while i < |samples|
      invariant 0 <= i <= |samples| && 2 <= idx <= entry.Length
      invariant Good(cur, maxtime) && Run(samples, i, cur, maxtime, interp) == final
      invariant cur == DState(entry[..idx], lasttime, lastdepth, lasttemp, hasNdl)
      invariant idx + (|samples| - i) + 3 + (maxtime - lasttime) / 10 <= entry.Length
    {
      var stop;
      ghost var before := cur;
      idx, lasttime, lastdepth, lasttemp, hasNdl, stop, cur :=
        DensifySample(entry, idx, cur, samples[i], lasttime, lastdepth, lasttemp, hasNdl, maxtime, interp);
      if stop {
        RunStops(samples, i, before, maxtime, interp);
        break;
      }
      RunSteps(samples, i, before, maxtime, interp);
      i := i + 1;
    }
  }

  /**
   * populate_plot_entries: allocates samples + 5 + maxtime/10 entries and
   * fills the first nr of them with the densified series.
   */
  method PopulatePlotEntries(samples: seq<Sample>, maxtime: nat, interp: Interp)
    returns (entry: array<PlotEntry>, nr: nat, hasNdl: bool)
    requires SensorsInRange(samples)
    ensures entry.Length == |samples| + 5 + maxtime / 10
    ensures nr <= entry.Length
    ensures entry[..nr] == Densified(samples, maxtime, interp)
    ensures hasNdl == HasNdl(samples, maxtime, interp)
  {
    // The array is calloc'd in the source; only the two leading fillers are read as zeros.
    entry := new PlotEntry[|samples| + 5 + maxtime / 10];
    Put(entry, 0, ZeroEntry);
    Put(entry, 1, ZeroEntry);
    assert entry[..2] == Init.entries;
    var idx, lasttime;
    idx, lasttime, hasNdl := Resample(entry, samples, maxtime, interp);
    ghost var final := Run(samples, 0, Init, maxtime, interp);
    DensifiedOfRun(samples, maxtime, interp, final);
    ghost var written := entry[..idx];
    assert Densified(samples, maxtime, interp) == written + Trailers(lasttime);
    AppendTrailers(entry, idx, lasttime);
    nr := idx + 2;
  }

  // ---------------------------------------------------------------------
  // Properties of the densified series.

  /** Consecutive entries are in time order and at most 10 s apart. */
  predicate TenSecondSteps(s: seq<PlotEntry>) {
    forall k :: 0 <= k < |s| - 1 ==> s[k].sec <= s[k + 1].sec <= s[k].sec + 10
  }

  lemma TenSecondStepsAppend(a: seq<PlotEntry>, b: seq<PlotEntry>)
    requires TenSecondSteps(a) && TenSecondSteps(b) && |a| > 0 && |b| > 0
    requires a[|a| - 1].sec <= b[0].sec <= a[|a| - 1].sec + 10
    ensures TenSecondSteps(a + b)
  {
    forall k | 0 <= k < |a + b| - 1
      ensures (a + b)[k].sec <= (a + b)[k + 1].sec <= (a + b)[k].sec + 10
    {
      if k < |a| - 1 {
        assert (a + b)[k] == a[k] && (a + b)[k + 1] == a[k + 1];
      } else if k == |a| - 1 {
        assert (a + b)[k] == a[k] && (a + b)[k + 1] == b[0];
      } else {
        assert (a + b)[k] == b[k - |a|] && (a + b)[k + 1] == b[k - |a| + 1];
      }
    }
  }

  /** Steps of at most 10 s imply that the series is sorted by time. */
  lemma {:induction false} TenSecondStepsSorted(s: seq<PlotEntry>)
    requires TenSecondSteps(s)
    ensures SortedBySec(s)
  {
    if |s| > 1 {
      var t := s[..|s| - 1];
      assert TenSecondSteps(t) by {
        forall k | 0 <= k < |t| - 1 ensures t[k].sec <= t[k + 1].sec <= t[k].sec + 10 {
          assert t[k] == s[k] && t[k + 1] == s[k + 1];
        }
      }
      TenSecondStepsSorted(t);
      forall j, k | 0 <= j < k < |s| ensures s[j].sec <= s[k].sec {
        if k < |s| - 1 {
          assert s[j] == t[j] && s[k] == t[k];
        } else if j < |s| - 2 {
          assert s[j] == t[j] && s[k - 1] == t[k - 1];
        }
      }
    }
  }

  /** A run of entries 10 s apart. */
  lemma GapSteps(st: DState, s: Sample, delta: int, n: nat, interp: Interp)
    requires |st.entries| > 0
    ensures TenSecondSteps(GapPrefix(st, s, delta, n, interp))
  {
  }

  /** The state invariant of the run: 10 s steps, ending at lasttime. */
  predicate Stepped(st: DState) {
    |st.entries| > 0 && TenSecondSteps(st.entries) && st.entries[|st.entries| - 1].sec == st.lasttime
  }

  lemma StepKeepsStepped(st: DState, s: Sample, maxtime: int, interp: Interp)
    requires Good(st, maxtime) && s.sensor < MaxCylinders && !Stops(st, s, maxtime) && Stepped(st)
    ensures Stepped(Step(st, s, maxtime, interp))
  {
    var time := ClampedTime(s, st.lasttime);
    var temp := if s.temperature != 0 then s.temperature else st.lasttemp;
    var g := Gap(st, s, maxtime, interp);
    var se := SampleEntry(s, time, temp);
    assert Step(st, s, maxtime, interp).entries == st.entries + g + [se];
    GapSteps(st, s, time - st.lasttime, |g|, interp);
    if |g| == 0 {
      TenSecondStepsAppend(st.entries, [se]);
    } else {
      TenSecondStepsAppend(st.entries, g);
      TenSecondStepsAppend(st.entries + g, [se]);
    }
  }

  /**
   * From the first filler up to the last entry before the trailing ones,
   * entry times never decrease and never jump by more than 10 s.
   */
  lemma {:induction false} RunTenSecondSteps(samples: seq<Sample>, i: nat, st: DState, maxtime: int, interp: Interp)
    requires i <= |samples| && SensorsInRange(samples) && Good(st, maxtime) && Stepped(st)
    ensures TenSecondSteps(Run(samples, i, st, maxtime, interp).entries)
    decreases |samples| - i
  {
    if i < |samples| {
      if Stops(st, samples[i], maxtime) {
        var g := Gap(st, samples[i], maxtime, interp);
        GapSteps(st, samples[i], ClampedTime(samples[i], st.lasttime) - st.lasttime, |g|, interp);
        if |g| > 0 {
          TenSecondStepsAppend(st.entries, g);
        }
      } else {
        StepKeepsStepped(st, samples[i], maxtime, interp);
        RunTenSecondSteps(samples, i + 1, Step(st, samples[i], maxtime, interp), maxtime, interp);
      }
    }
  }

  /** The densified series before its two trailing entries moves forward in steps of at most 10 s. */
  lemma DensifiedSteps(samples: seq<Sample>, maxtime: nat, interp: Interp)
    requires SensorsInRange(samples)
    ensures |Densified(samples, maxtime, interp)| >= 4
    ensures TenSecondSteps(Densified(samples, maxtime, interp)[..|Densified(samples, maxtime, interp)| - 2])
    ensures SortedBySec(Densified(samples, maxtime, interp)[..|Densified(samples, maxtime, interp)| - 2])
  {
    var r := Run(samples, 0, Init, maxtime, interp);
    DensifiedOfRun(samples, maxtime, interp, r);
    var d := Densified(samples, maxtime, interp);
    assert d[..|d| - 2] == r.entries;
    RunTenSecondSteps(samples, 0, Init, maxtime, interp);
    TenSecondStepsSorted(r.entries);
  }

  /** The run only appends: the entries it starts from stay in place. */
  lemma {:induction false} RunExtends(samples: seq<Sample>, i: nat, st: DState, maxtime: int, interp: Interp)
    requires i <= |samples| && SensorsInRange(samples) && Good(st, maxtime)
    ensures Run(samples, i, st, maxtime, interp).entries[..|st.entries|] == st.entries
    decreases |samples| - i
  {
    if i < |samples| && !Stops(st, samples[i], maxtime) {
      var next := Step(st, samples[i], maxtime, interp);
      RunExtends(samples, i + 1, next, maxtime, interp);
      var r := Run(samples, i + 1, next, maxtime, interp);
      assert r.entries[..|st.entries|] == r.entries[..|next.entries|][..|st.entries|];
    }
  }

  /**
   * The run writes at most one entry per sample plus one per 10 s of
   * plot time, which is what the allocation of populate_plot_entries counts on.
   */
  lemma {:induction false} RunLength(samples: seq<Sample>, i: nat, st: DState, maxtime: int, interp: Interp)
    requires i <= |samples| && SensorsInRange(samples) && Good(st, maxtime)
    ensures |Run(samples, i, st, maxtime, interp).entries| <= |st.entries| + (|samples| - i) + (maxtime - st.lasttime) / 10
    decreases |samples| - i
  {
    if i < |samples| {
      var s := samples[i];
      var time := ClampedTime(s, st.lasttime);
      var n := GapCount(st.lasttime, time - st.lasttime, maxtime);
      if !Stops(st, s, maxtime) {
        RoomLeft(maxtime - time, maxtime - st.lasttime, n);
        RunLength(samples, i + 1, Step(st, s, maxtime, interp), maxtime, interp);
      } else {
        RoomLeft(maxtime - (st.lasttime + 10 * n), maxtime - st.lasttime, n);
      }
    }
  }

  /** The densified series never outgrows the samples + 5 + maxtime/10 entries allocated for it. */
  lemma DensifiedLength(samples: seq<Sample>, maxtime: nat, interp: Interp)
    requires SensorsInRange(samples)
    ensures |Densified(samples, maxtime, interp)| <= |samples| + 4 + maxtime / 10
  {
    var r := Run(samples, 0, Init, maxtime, interp);
    DensifiedOfRun(samples, maxtime, interp, r);
    RunLength(samples, 0, Init, maxtime, interp);
  }

  /** Entry k was produced from a sample: it is that sample's entry at its own time and temperature. */
  predicate IsSampleEntry(e: PlotEntry, samples: seq<Sample>) {
    exists j :: 0 <= j < |samples| && samples[j].sensor < MaxCylinders &&
                e == SampleEntry(samples[j], e.sec, e.temperature)
  }

  /** Entry k is an inserted copy of entry k - 1 or the entry of a sample. */
  predicate CopyOrSample(s: seq<PlotEntry>, k: nat, samples: seq<Sample>)
    requires 0 < k < |s|
  {
    s[k] == Inserted(s[k - 1], s[k].sec, s[k].depth) || IsSampleEntry(s[k], samples)
  }

  predicate AllCopyOrSample(s: seq<PlotEntry>, samples: seq<Sample>) {
    forall k :: 2 <= k < |s| ==> CopyOrSample(s, k, samples)
  }

  /** Every inserted entry is a copy of the entry before it. */
  lemma GapCopies(st: DState, s: Sample, delta: int, n: nat, interp: Interp)
    requires |st.entries| > 0
    ensures forall k :: |st.entries| <= k < |st.entries| + n ==>
              var x := st.entries + GapPrefix(st, s, delta, n, interp);
              x[k] == Inserted(x[k - 1], x[k].sec, x[k].depth)
  {
    var x := st.entries + GapPrefix(st, s, delta, n, interp);
    var last := st.entries[|st.entries| - 1];
    forall k | |st.entries| <= k < |st.entries| + n
      ensures x[k] == Inserted(x[k - 1], x[k].sec, x[k].depth)
    {
      var j := k - |st.entries|;
      assert x[k] == GapEntry(st, s, delta, j, interp);
      if j > 0 {
        assert x[k - 1] == GapEntry(st, s, delta, j - 1, interp);
        InsertedOfInserted(last, x[k - 1].sec, x[k - 1].depth, x[k].sec, x[k].depth);
      }
    }
  }

  lemma {:induction false} RunCopies(samples: seq<Sample>, i: nat, st: DState, maxtime: int, interp: Interp)
    requires i <= |samples| && SensorsInRange(samples) && Good(st, maxtime)
    requires AllCopyOrSample(st.entries, samples)
    ensures AllCopyOrSample(Run(samples, i, st, maxtime, interp).entries, samples)
    decreases |samples| - i
  {
    if i < |samples| {
      var s := samples[i];
      var delta := ClampedTime(s, st.lasttime) - st.lasttime;
      var g := Gap(st, s, maxtime, interp);
      var x := st.entries + g;
      GapCopies(st, s, delta, |g|, interp);
      assert AllCopyOrSample(x, samples) by {
        forall k | 2 <= k < |x| ensures CopyOrSample(x, k, samples) {
          if k < |st.entries| {
            assert x[k] == st.entries[k] && x[k - 1] == st.entries[k - 1];
            assert CopyOrSample(st.entries, k, samples);
          }
        }
      }
      if !Stops(st, s, maxtime) {
        var next := Step(st, s, maxtime, interp);
        assert next.entries == x + [next.entries[|x|]];
        assert IsSampleEntry(next.entries[|x|], samples) by {
          assert samples[i].sensor < MaxCylinders;
        }
        assert AllCopyOrSample(next.entries, samples) by {
          forall k | 2 <= k < |next.entries| ensures CopyOrSample(next.entries, k, samples) {
            if k < |x| {
              assert next.entries[k] == x[k] && next.entries[k - 1] == x[k - 1];
              assert CopyOrSample(x, k, samples);
            }
          }
        }
        RunCopies(samples, i + 1, next, maxtime, interp);
      }
    }
  }

  /**
   * After the two zeroed fillers, every entry before the trailing ones is
   * either a copy of the entry before it (same fields except time and depth,
   * sensor pressures cleared) or the entry of one of the samples.
   */
  lemma DensifiedCopies(samples: seq<Sample>, maxtime: nat, interp: Interp)
    requires SensorsInRange(samples)
    ensures var d := Densified(samples, maxtime, interp);
            |d| >= 4 && d[0] == ZeroEntry && d[1] == ZeroEntry &&
            AllCopyOrSample(d[..|d| - 2], samples)
  {
    var r := Run(samples, 0, Init, maxtime, interp);
    DensifiedOfRun(samples, maxtime, interp, r);
    RunExtends(samples, 0, Init, maxtime, interp);
    RunCopies(samples, 0, Init, maxtime, interp);
    var d := Densified(samples, maxtime, interp);
    assert d[..|d| - 2] == r.entries;
    assert r.entries[..2] == Init.entries;
    assert r.entries[0] == r.entries[..2][0];
    assert r.entries[1] == r.entries[..2][1];
  }

  /**
   * A sample whose time lies before the previous sample's gets no inserted
   * entries and is written at the previous time.
   */
  lemma RegressingSampleClamped(st: DState, s: Sample, maxtime: int, interp: Interp)
    requires Good(st, maxtime) && s.sensor < MaxCylinders && s.time < st.lasttime
    ensures !Stops(st, s, maxtime)
    ensures var next := Step(st, s, maxtime, interp);
            |next.entries| == |st.entries| + 1 && next.entries[..|st.entries|] == st.entries &&
            next.entries[|st.entries|].sec == st.lasttime && next.lasttime == st.lasttime
  {
  }

  /** The trailing entries lie one and two seconds after the time of the last sample taken. */
  lemma DensifiedTrailing(samples: seq<Sample>, maxtime: nat, interp: Interp)
    requires SensorsInRange(samples)
    ensures var d := Densified(samples, maxtime, interp);
            var lasttime := Run(samples, 0, Init, maxtime, interp).lasttime;
            |d| >= 4 && 0 <= lasttime <= maxtime &&
            d[|d| - 2] == ZeroEntry.(sec := lasttime + 1) && d[|d| - 1] == ZeroEntry.(sec := lasttime + 2)
  {
    DensifiedOfRun(samples, maxtime, interp, Run(samples, 0, Init, maxtime, interp));
  }

  /**
   * When a sample past maxtime ends the run after inserted entries, those
   * entries lie past lasttime, so the trailing entries go back in time: one
   * sample at 100 s with maxtime 50 gives entries at 10..50 s followed by
   * trailers at 1 and 2 s.
   */
  lemma TrailingAfterCutOffExample()
    ensures var samples := [Sample(100, 5000, 0, 0, 0, 0, 0, 0, false, 0, 0)];
            var d := Densified(samples, 50, (a, b, part, whole) => b);
            |d| == 9 && d[6].sec == 50 && d[7].sec == 1 && d[8].sec == 2
  {
    var samples := [Sample(100, 5000, 0, 0, 0, 0, 0, 0, false, 0, 0)];
    var interp: Interp := (a, b, part, whole) => b;
    assert Stops(Init, samples[0], 50);
    var r := Run(samples, 0, Init, 50, interp);
    assert r == Init.(entries := Init.entries + Gap(Init, samples[0], 50, interp));
    assert GapCount(0, 100, 50) == 5;
    DensifiedOfRun(samples, 50, interp, r);
  }

  // Where each sample lands: an independent account of the state the loop
  // carries into sample j, and the position of that sample's entry.

  /**
   * The index of the first sample at or after from whose time lies past
   * maxtime, or |samples|: the resampling loop stops there.
   */
  function FirstPast(samples: seq<Sample>, maxtime: int, from: nat): (n: nat)
    requires from <= |samples|
    ensures from <= n <= |samples|
    ensures forall k :: from <= k < n ==> samples[k].time <= maxtime
    ensures n < |samples| ==> samples[n].time > maxtime
    decreases |samples| - from
  {
    if from == |samples| || samples[from].time > maxtime then from else FirstPast(samples, maxtime, from + 1)
  }

  /** The samples before j all lie at or before maxtime, so the loop takes each of them. */
  predicate TakenBefore(samples: seq<Sample>, j: nat, maxtime: int)
  {
    j <= |samples| && forall k :: 0 <= k < j ==> samples[k].time <= maxtime
  }

  /** The time carried into sample j: the latest of 0 and the times of the samples before it. */
  function TimeBefore(samples: seq<Sample>, j: nat): (t: int)
    requires j <= |samples|
    ensures t >= 0
  {
    if j == 0 then 0 else Max(TimeBefore(samples, j - 1), samples[j - 1].time)
  }

  /** TimeBefore is the maximum of 0 and the earlier sample times. */
  lemma {:induction false} TimeBeforeIsLatest(samples: seq<Sample>, j: nat)
    requires j <= |samples|
    ensures forall k :: 0 <= k < j ==> samples[k].time <= TimeBefore(samples, j)
    ensures TimeBefore(samples, j) == 0 || exists k :: 0 <= k < j && samples[k].time == TimeBefore(samples, j)
  {
    if j > 0 {
      TimeBeforeIsLatest(samples, j - 1);
      if TimeBefore(samples, j) != samples[j - 1].time && TimeBefore(samples, j) != 0 {
        var k :| 0 <= k < j - 1 && samples[k].time == TimeBefore(samples, j - 1);
      }
    }
  }

  /**
   * The temperature carried into sample j: the last nonzero temperature of
   * the samples before it, or 0 when there is none.
   */
  function TempBefore(samples: seq<Sample>, j: nat): (t: int)
    requires j <= |samples|
  {
    if j == 0 then 0
    else if samples[j - 1].temperature != 0 then samples[j - 1].temperature
    else TempBefore(samples, j - 1)
  }

  /** TempBefore is 0 exactly when no earlier sample has a temperature, else the last one that has. */
  lemma {:induction false} TempBeforeIsLastNonzero(samples: seq<Sample>, j: nat)
    requires j <= |samples|
    ensures TempBefore(samples, j) == 0 <==> forall k :: 0 <= k < j ==> samples[k].temperature == 0
    ensures TempBefore(samples, j) != 0 ==>
              exists k :: 0 <= k < j && samples[k].temperature == TempBefore(samples, j) &&
                          forall m :: k < m < j ==> samples[m].temperature == 0
  {
    if j > 0 {
      TempBeforeIsLastNonzero(samples, j - 1);
      if samples[j - 1].temperature != 0 {
        assert samples[j - 1].temperature == TempBefore(samples, j);
      } else if TempBefore(samples, j) != 0 {
        var k :| 0 <= k < j - 1 && samples[k].temperature == TempBefore(samples, j - 1) &&
                 forall m :: k < m < j - 1 ==> samples[m].temperature == 0;
        assert forall m :: k < m < j ==> samples[m].temperature == 0;
      }
    }
  }

  /**
   * The loop state just before sample j is read, for every j up to the
   * first sample past maxtime.
   */
  function Before(samples: seq<Sample>, j: nat, maxtime: nat, interp: Interp): (st: DState)
    requires SensorsInRange(samples) && TakenBefore(samples, j, maxtime)
    ensures Good(st, maxtime)
    decreases j
  {
    if j == 0 then Init
    else
      var st := Before(samples, j - 1, maxtime, interp);
      assert !Stops(st, samples[j - 1], maxtime);
      Step(st, samples[j - 1], maxtime, interp)
  }

  /** The state before sample j > 0 is the step of sample j - 1 from the state before that one. */
  lemma {:induction false} BeforeStep(samples: seq<Sample>, j: nat, maxtime: nat, interp: Interp)
    requires SensorsInRange(samples) && TakenBefore(samples, j, maxtime) && j > 0
    ensures !Stops(Before(samples, j - 1, maxtime, interp), samples[j - 1], maxtime)
    ensures Before(samples, j, maxtime, interp) ==
            Step(Before(samples, j - 1, maxtime, interp), samples[j - 1], maxtime, interp)
  {
  }

  /** What the loop carries into sample j: the running time, the previous depth and the carried temperature. */
  predicate Carries(samples: seq<Sample>, j: nat, maxtime: nat, interp: Interp)
    requires SensorsInRange(samples) && TakenBefore(samples, j, maxtime)
  {
    var st := Before(samples, j, maxtime, interp);
    st.lasttime == TimeBefore(samples, j) && st.lasttemp == TempBefore(samples, j) &&
    st.lastdepth == if j == 0 then 0 else samples[j - 1].depth
  }

  lemma {:induction false} CarriesStep(samples: seq<Sample>, j: nat, maxtime: nat, interp: Interp)
    requires SensorsInRange(samples) && TakenBefore(samples, j, maxtime) && j > 0
    requires Carries(samples, j - 1, maxtime, interp)
    ensures Carries(samples, j, maxtime, interp)
  {
    BeforeStep(samples, j, maxtime, interp);
  }

  /**
   * The state before sample j carries the latest time so far, the depth of
   * the previous sample (0 before the first) and the last nonzero temperature.
   */
  lemma {:induction false} BeforeFields(samples: seq<Sample>, n: nat, maxtime: nat, interp: Interp)
    requires SensorsInRange(samples) && TakenBefore(samples, n, maxtime)
    ensures forall j: nat :: j <= n ==> Carries(samples, j, maxtime, interp)
    decreases n
  {
    if n > 0 {
      BeforeFields(samples, n - 1, maxtime, interp);
      CarriesStep(samples, n, maxtime, interp);
    }
  }

  /** The position of the entry of sample j: after the entries before it and its inserted ones. */
  function SamplePos(samples: seq<Sample>, j: nat, maxtime: nat, interp: Interp): (p: nat)
    requires SensorsInRange(samples) && j < FirstPast(samples, maxtime, 0)
  {
    var st := Before(samples, j, maxtime, interp);
    |st.entries| + |Gap(st, samples[j], maxtime, interp)|
  }

  lemma {:induction false} RunStep(samples: seq<Sample>, j: nat, maxtime: nat, interp: Interp, r: DState)
    requires SensorsInRange(samples) && TakenBefore(samples, j, maxtime) && j > 0
    requires r == Run(samples, j - 1, Before(samples, j - 1, maxtime, interp), maxtime, interp)
    ensures r == Run(samples, j, Before(samples, j, maxtime, interp), maxtime, interp)
  {
    BeforeStep(samples, j, maxtime, interp);
    RunSteps(samples, j - 1, Before(samples, j - 1, maxtime, interp), maxtime, interp);
  }

  /** Running the loop from the start is running it from the state before any sample j it takes. */
  lemma {:induction false} RunFromBefore(samples: seq<Sample>, n: nat, maxtime: nat, interp: Interp, r: DState)
    requires SensorsInRange(samples) && TakenBefore(samples, n, maxtime)
    requires r == Run(samples, 0, Init, maxtime, interp)
    ensures forall j: nat :: j <= n ==> r == Run(samples, j, Before(samples, j, maxtime, interp), maxtime, interp)
    decreases n
  {
    if n > 0 {
      RunFromBefore(samples, n - 1, maxtime, interp, r);
      RunStep(samples, n, maxtime, interp, r);
    }
  }

  /** After sample j the loop holds the entries before it, its inserted entries and its own entry. */
  lemma {:induction false} BeforeNext(samples: seq<Sample>, j: nat, maxtime: nat, interp: Interp)
    requires SensorsInRange(samples) && j < FirstPast(samples, maxtime, 0)
    ensures var st := Before(samples, j, maxtime, interp);
            Before(samples, j + 1, maxtime, interp).entries ==
              st.entries + Gap(st, samples[j], maxtime, interp) +
              [SampleEntry(samples[j], TimeBefore(samples, j + 1), TempBefore(samples, j + 1))]
  {
    var st := Before(samples, j, maxtime, interp);
    assert Carries(samples, j, maxtime, interp) by {
      BeforeFields(samples, j, maxtime, interp);
    }
    assert !Stops(st, samples[j], maxtime);
    assert Before(samples, j + 1, maxtime, interp) == Step(st, samples[j], maxtime, interp);
    assert ClampedTime(samples[j], st.lasttime) == TimeBefore(samples, j + 1);
  }

  /** Before sample j > 0 the loop holds exactly the entries up to that of sample j - 1. */
  lemma {:induction false} BeforeLength(samples: seq<Sample>, j: nat, maxtime: nat, interp: Interp)
    requires SensorsInRange(samples) && 0 < j <= FirstPast(samples, maxtime, 0)
    ensures |Before(samples, j, maxtime, interp).entries| == SamplePos(samples, j - 1, maxtime, interp) + 1
  {
    BeforeStep(samples, j, maxtime, interp);
  }

  /** The resampled profile starts with the entries the loop holds before any sample it takes. */
  lemma {:induction false} DensifiedExtends(samples: seq<Sample>, n: nat, maxtime: nat, interp: Interp)
    requires SensorsInRange(samples) && TakenBefore(samples, n, maxtime)
    ensures forall k: nat :: k <= n ==>
              var d := Densified(samples, maxtime, interp);
              var st := Before(samples, k, maxtime, interp);
              |st.entries| <= |d| - 2 && d[..|st.entries|] == st.entries
  {
    var r := Run(samples, 0, Init, maxtime, interp);
    DensifiedOfRun(samples, maxtime, interp, r);
    RunFromBefore(samples, n, maxtime, interp, r);
    forall k: nat | k <= n
      ensures var d := Densified(samples, maxtime, interp);
              var st := Before(samples, k, maxtime, interp);
              |st.entries| <= |d| - 2 && d[..|st.entries|] == st.entries
    {
      var st := Before(samples, k, maxtime, interp);
      RunExtends(samples, k, st, maxtime, interp);
      assert Densified(samples, maxtime, interp)[..|st.entries|] == r.entries[..|st.entries|];
    }
  }

  /** The parts of a sequence that starts with pre + g + [e], where e lies at p. */
  lemma {:induction false} PrefixParts<T>(d: seq<T>, pre: seq<T>, g: seq<T>, e: T, p: nat)
    requires p == |pre| + |g| && p < |d| && d[..p + 1] == pre + g + [e]
    ensures d[p] == e && d[|pre|..p] == g
  {
    assert d[p] == (pre + g + [e])[p];
    assert d[|pre|..p] == (pre + g + [e])[|pre|..p];
  }

  /**
   * Every sample before the first one past maxtime has its own entry in the
   * resampled profile, at its clamped time with its carried temperature, and
   * the entries between the previous sample's entry and its own are exactly
   * its inserted entries.
   */
  lemma {:induction false} DensifiedHasSample(samples: seq<Sample>, j: nat, maxtime: nat, interp: Interp)
    requires SensorsInRange(samples) && j < FirstPast(samples, maxtime, 0)
    ensures var d := Densified(samples, maxtime, interp);
            var st := Before(samples, j, maxtime, interp);
            var p := SamplePos(samples, j, maxtime, interp);
            |st.entries| == (if j == 0 then 2 else SamplePos(samples, j - 1, maxtime, interp) + 1) &&
            p < |d| - 2 &&
            d[p] == SampleEntry(samples[j], TimeBefore(samples, j + 1), TempBefore(samples, j + 1)) &&
            d[|st.entries|..p] == Gap(st, samples[j], maxtime, interp)
  {
    if j > 0 {
      BeforeLength(samples, j, maxtime, interp);
    }
    SampleEntryAt(samples, j, maxtime, interp);
  }

  /** The entry of sample j and the inserted entries just before it, in the resampled profile. */
  lemma {:induction false} SampleEntryAt(samples: seq<Sample>, j: nat, maxtime: nat, interp: Interp)
    requires SensorsInRange(samples) && j < FirstPast(samples, maxtime, 0)
    ensures var d := Densified(samples, maxtime, interp);
            var st := Before(samples, j, maxtime, interp);
            var p := SamplePos(samples, j, maxtime, interp);
            p < |d| - 2 &&
            d[p] == SampleEntry(samples[j], TimeBefore(samples, j + 1), TempBefore(samples, j + 1)) &&
            d[|st.entries|..p] == Gap(st, samples[j], maxtime, interp)
  {
    var d := Densified(samples, maxtime, interp);
    var st := Before(samples, j, maxtime, interp);
    var g := Gap(st, samples[j], maxtime, interp);
    var e := SampleEntry(samples[j], TimeBefore(samples, j + 1), TempBefore(samples, j + 1));
    var p := SamplePos(samples, j, maxtime, interp);
    BeforeNext(samples, j, maxtime, interp);
    DensifiedExtends(samples, FirstPast(samples, maxtime, 0), maxtime, interp);
    PrefixParts(d, st.entries, g, e, p);
  }

  /** The entry of sample j > 0 lies after that of sample j - 1. */
  lemma {:induction false} NextSampleLater(samples: seq<Sample>, j: nat, maxtime: nat, interp: Interp)
    requires SensorsInRange(samples) && 0 < j < FirstPast(samples, maxtime, 0)
    ensures SamplePos(samples, j - 1, maxtime, interp) < SamplePos(samples, j, maxtime, interp)
  {
    BeforeLength(samples, j, maxtime, interp);
  }

  /** The entry of sample k lies before that of sample j = k + 1. */
  lemma {:induction false} PrevSampleEarlier(samples: seq<Sample>, k: nat, j: nat, maxtime: nat, interp: Interp)
    requires SensorsInRange(samples) && k + 1 == j && j < FirstPast(samples, maxtime, 0)
    ensures SamplePos(samples, k, maxtime, interp) < SamplePos(samples, j, maxtime, interp)
  {
    NextSampleLater(samples, j, maxtime, interp);
    SamePos(samples, maxtime, interp);
  }

  /** Sample positions at equal indices are equal. */
  lemma {:induction false} SamePos(samples: seq<Sample>, maxtime: nat, interp: Interp)
    requires SensorsInRange(samples)
    ensures forall a: nat, b: nat :: a == b && b < FirstPast(samples, maxtime, 0) ==>
              SamplePos(samples, a, maxtime, interp) == SamplePos(samples, b, maxtime, interp)
  {
  }

  /** The entries of the samples appear in sample order. */
  lemma {:induction false} SamplePositionsIncrease(samples: seq<Sample>, i: nat, j: nat, maxtime: nat, interp: Interp)
    requires SensorsInRange(samples) && i < j < FirstPast(samples, maxtime, 0)
    ensures SamplePos(samples, i, maxtime, interp) < SamplePos(samples, j, maxtime, interp)
    decreases j
  {
    var k := j - 1;
    PrevSampleEarlier(samples, k, j, maxtime, interp);
    if i != k {
      SamplePositionsIncrease(samples, i, k, maxtime, interp);
    }
  }

  /**
   * The loop stops at a sample exactly when it is the first one past
   * maxtime: its clamped time exceeds maxtime just when its own time does.
   */
  lemma {:induction false} StopsAtFirstPast(samples: seq<Sample>, j: nat, maxtime: nat, interp: Interp)
    requires SensorsInRange(samples) && j < |samples| && j <= FirstPast(samples, maxtime, 0)
    ensures Stops(Before(samples, j, maxtime, interp), samples[j], maxtime) <==> j == FirstPast(samples, maxtime, 0)
  {
  }

  /**
   * The run from the start ends in the state before the first sample past
   * maxtime, with that sample's inserted entries added if there is one.
   */
  lemma {:induction false} RunWhole(samples: seq<Sample>, maxtime: nat, interp: Interp)
    requires SensorsInRange(samples)
    ensures var n := FirstPast(samples, maxtime, 0);
            var st := Before(samples, n, maxtime, interp);
            Run(samples, 0, Init, maxtime, interp) ==
              if n < |samples| then st.(entries := st.entries + Gap(st, samples[n], maxtime, interp)) else st
  {
    var n := FirstPast(samples, maxtime, 0);
    var st := Before(samples, n, maxtime, interp);
    var r := Run(samples, 0, Init, maxtime, interp);
    assert r == Run(samples, n, st, maxtime, interp) by {
      RunFromBefore(samples, n, maxtime, interp, r);
    }
    if n < |samples| {
      assert Stops(st, samples[n], maxtime);
      RunStops(samples, n, st, maxtime, interp);
    }
  }

  /**
   * The whole resampled profile: the entries up to the last sample taken,
   * the inserted entries of the sample past maxtime if there is one, and
   * the two trailers.
   */
  lemma {:induction false} DensifiedWhole(samples: seq<Sample>, maxtime: nat, interp: Interp)
    requires SensorsInRange(samples)
    ensures var n := FirstPast(samples, maxtime, 0);
            var st := Before(samples, n, maxtime, interp);
            var tail := if n < |samples| then Gap(st, samples[n], maxtime, interp) else [];
            Densified(samples, maxtime, interp) ==
              st.entries + tail + Trailers(TimeBefore(samples, n))
  {
    var n := FirstPast(samples, maxtime, 0);
    var st := Before(samples, n, maxtime, interp);
    var tail := if n < |samples| then Gap(st, samples[n], maxtime, interp) else [];
    RunWhole(samples, maxtime, interp);
    assert Carries(samples, n, maxtime, interp) by {
      BeforeFields(samples, n, maxtime, interp);
    }
    if n == |samples| {
      assert st.entries + tail == st.entries;
    }
    DensifiedEnds(samples, maxtime, interp, st.entries + tail, TimeBefore(samples, n));
  }

  /** The resampled profile given what the run from the start holds and where it ends. */
  lemma {:induction false} DensifiedEnds(samples: seq<Sample>, maxtime: nat, interp: Interp, e: seq<PlotEntry>, t: int)
    requires SensorsInRange(samples)
    requires Run(samples, 0, Init, maxtime, interp).entries == e && Run(samples, 0, Init, maxtime, interp).lasttime == t
    ensures Densified(samples, maxtime, interp) == e + Trailers(t)
  {
    DensifiedOfRun(samples, maxtime, interp, Run(samples, 0, Init, maxtime, interp));
  }

  /**
   * On samples in time order starting at or after 0, every sample up to
   * maxtime is taken and its entry lies at its own time.
   */
  lemma {:induction false} SortedSampleAtOwnTime(samples: seq<Sample>, j: nat, maxtime: nat, interp: Interp)
    requires SensorsInRange(samples) && j < |samples| && 0 <= samples[0].time
    requires forall a, b :: 0 <= a < b < |samples| ==> samples[a].time <= samples[b].time
    requires samples[j].time <= maxtime
    ensures j < FirstPast(samples, maxtime, 0)
    ensures TimeBefore(samples, j + 1) == samples[j].time
    ensures SamplePos(samples, j, maxtime, interp) < |Densified(samples, maxtime, interp)| - 2
    ensures Densified(samples, maxtime, interp)[SamplePos(samples, j, maxtime, interp)] ==
            SampleEntry(samples[j], samples[j].time, TempBefore(samples, j + 1))
  {
    assert forall k :: 0 <= k <= j ==> samples[k].time <= maxtime;
    var t := TimeBefore(samples, j + 1);
    TimeBeforeIsLatest(samples, j + 1);
    if t == 0 {
      assert samples[0].time <= samples[j].time;
    } else {
      var k :| 0 <= k < j + 1 && samples[k].time == t;
      assert k == j || samples[k].time <= samples[j].time;
    }
    DensifiedHasSample(samples, j, maxtime, interp);
  }
}
