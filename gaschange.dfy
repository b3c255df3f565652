/**
 * The gas-change tracker: gaschange events pick the cylinder that best
 * matches the announced mix, and every plot entry up to the next change is
 * stamped as breathing open-circuit from the cylinder chosen before it
 * (get_next_event, get_cylinder_index, set_cylinder_index and
 * check_gas_change_events).
 *
 * A dive computer's event list is a sequence of events; following ev->next
 * is moving to the next index.
 */
module GasChange {
  import opened Common
  import opened PlotData

  /** Name of the events that announce a gas switch. */
  const GasChangeName: string := "gaschange"

  /** Sample event type of a gas change that also carries helium (SAMPLE_EVENT_GASCHANGE2). */
  const GasChange2Type: int := 25

  // ---------------------------------------------------------------------
  // get_next_event

  /**
   * The first event at or after index `from` whose name is `name`, or None
   * when there is none or the name is empty.
   */
  method GetNextEvent(events: seq<Event>, from: nat, name: string) returns (r: Option<nat>)
    ensures name == [] ==> r == None
    ensures r.Some? ==> from <= r.value < |events| && events[r.value].name == name &&
                        forall k :: from <= k < r.value ==> events[k].name != name
    ensures r.None? && name != [] ==> forall k :: from <= k < |events| ==> events[k].name != name
  {
    if name == [] {
      return None;
    }
    var k := from;
    while k < |events|
      invariant from <= k
      invariant forall m :: from <= m < k && m < |events| ==> events[m].name != name
    {
      if events[k].name == name {
        return Some(k);
      }
      k := k + 1;
    }
    return None;
  }

  /** The gaschange events from index `from` on, in list order (the ones the tracker visits). */
  function GasChanges(events: seq<Event>, from: nat): (r: seq<Event>)
    ensures forall k :: 0 <= k < |r| ==> r[k].name == GasChangeName
    ensures |r| <= |events| - from || from > |events|
    decreases |events| - from
  {
    if from >= |events| then []
    else if events[from].name == GasChangeName then [events[from]] + GasChanges(events, from + 1)
    else GasChanges(events, from + 1)
  }

  /** Skipping events that are not gas changes does not change the sequence of gas changes. */
  lemma {:induction false} GasChangesSkip(events: seq<Event>, from: nat, k: nat)
    requires from <= k <= |events|
    requires forall m :: from <= m < k ==> events[m].name != GasChangeName
    ensures GasChanges(events, from) == GasChanges(events, k)
    decreases k - from
  {
    if from < k {
      GasChangesSkip(events, from + 1, k);
    }
  }

  // ---------------------------------------------------------------------
  // get_cylinder_index

  /** O2 of a gas-change event in permille: the low 16 bits of its value, in percent. */
  function TargetO2(value: int): (r: int)
    ensures r % 10 == 0 && 0 <= r < 655360
  {
    (value % 0x1_0000) * 10
  }

  /** He of a gas-change event in permille: the value shifted right by 16 (an arithmetic shift), in percent. */
  function TargetHe(value: int): (r: int)
    ensures r % 10 == 0
    ensures value >= 0 ==> r >= 0
  {
    (value / 0x1_0000) * 10
  }

  /** Packing o2 and he percentages as he << 16 | o2 decodes back to the same mix in permille. */
  lemma TargetRoundTrip(o2: int, he: int)
    requires 0 <= o2 < 0x1_0000
    ensures TargetO2(he * 0x1_0000 + o2) == o2 * 10
    ensures TargetHe(he * 0x1_0000 + o2) == he * 10
  {
    var v := he * 0x1_0000 + o2;
    assert v / 0x1_0000 == he && v % 0x1_0000 == o2 by {
      DivModUnique(v, he, o2);
    }
  }

  lemma DivModUnique(v: int, q: int, r: int)
    requires 0 <= r < 0x1_0000 && v == q * 0x1_0000 + r
    ensures v / 0x1_0000 == q && v % 0x1_0000 == r
  {
  }

  /** The squared distance between a cylinder's mix and the event's, computed without overflow. */
  function ExactDistance(c: CylinderInfo, ev: Event): int {
    var dO2 := c.o2 - TargetO2(ev.value);
    var dHe := c.he - TargetHe(ev.value);
    if ev.evType == GasChange2Type then dO2 * dO2 + dHe * dHe else dO2 * dO2
  }

  /**
   * The distance get_cylinder_index computes in int: the squares of the o2
   * and he differences (he only for type 25 events) and their sum wrap
   * around 32 bits.  When the exact squared distance fits an int, it is that.
   */
  function Distance(c: CylinderInfo, ev: Event): (d: int)
    ensures -0x8000_0000 <= d <= IntMax
    ensures 0 <= ExactDistance(c, ev) <= IntMax ==> d == ExactDistance(c, ev)
  {
    var dO2 := c.o2 - TargetO2(ev.value);
    var dHe := c.he - TargetHe(ev.value);
    SquareNonneg(dO2);
    SquareNonneg(dHe);
    var sq := Wrap32(dO2 * dO2);
    if ev.evType == GasChange2Type then Wrap32(sq + Wrap32(dHe * dHe)) else sq
  }

  lemma SquareNonneg(x: int)
    ensures x * x >= 0
  {
    if x < 0 {
      assert x * x == (-x) * (-x);
    }
  }

  /**
   * The overflow at work: a plain gas change announcing o2 = 5000 % is
   * 4790 % away from a 21 % cylinder; the square, 2479044100, wraps to a
   * negative int, so that cylinder wins over the INT_MAX starting score
   * although no sane match exists.
   */
  lemma OverflowPicksCylinder(ev: Event)
    requires ev.value == 5000 && ev.evType == 11
    ensures var nodata := CylinderInfo(true, 0, 0, 0, 0, 0, 0);
            var air := CylinderInfo(false, 210, 0, 0, 0, 0, 0);
            var cyls := [nodata, air, nodata, nodata, nodata, nodata, nodata, nodata];
            ExactDistance(air, ev) == 2479044100 && ExactDistance(air, ev) > IntMax &&
            Distance(air, ev) == -1815923196 && BestCylinder(cyls, ev) == 1
  {
    var nodata := CylinderInfo(true, 0, 0, 0, 0, 0, 0);
    var air := CylinderInfo(false, 210, 0, 0, 0, 0, 0);
    var cyls := [nodata, air, nodata, nodata, nodata, nodata, nodata, nodata];
    assert TargetO2(ev.value) == 50000;
    assert Distance(air, ev) == -1815923196;
    BestFromNoData(cyls, ev, 2, 1, -1815923196);
  }

  /** Cylinders without data never change the scan's choice. */
  lemma {:induction false} BestFromNoData(cyls: seq<CylinderInfo>, ev: Event, i: nat, best: nat, score: int)
    requires i <= |cyls| && best < |cyls|
    requires forall k :: i <= k < |cyls| ==> cyls[k].nodata
    ensures BestFrom(cyls, ev, i, best, score) == best
    decreases |cyls| - i
  {
    if i < |cyls| {
      BestFromNoData(cyls, ev, i + 1, best, score);
    }
  }

  /** The loop of get_cylinder_index from cylinder i on, with the running best and score. */
  function BestFrom(cyls: seq<CylinderInfo>, ev: Event, i: nat, best: nat, score: int): (r: nat)
    requires i <= |cyls| && best < |cyls|
    ensures r < |cyls|
    decreases |cyls| - i
  {
    if i == |cyls| then best
    else if cyls[i].nodata || Distance(cyls[i], ev) >= score then BestFrom(cyls, ev, i + 1, best, score)
    else BestFrom(cyls, ev, i + 1, i, Distance(cyls[i], ev))
  }

  /** The cylinder get_cylinder_index settles on. */
  function BestCylinder(cyls: seq<CylinderInfo>, ev: Event): (r: nat)
    requires |cyls| > 0
    ensures r < |cyls|
  {
    BestFrom(cyls, ev, 0, 0, IntMax)
  }

  /** A cylinder can win: it has data and its distance is below the initial score INT_MAX. */
  predicate Candidate(c: CylinderInfo, ev: Event) {
    !c.nodata && Distance(c, ev) < IntMax
  }

  /** The invariant of the scan: best and score describe the first strict minimum among cylinders < i. */
  predicate ScanState(cyls: seq<CylinderInfo>, ev: Event, i: nat, best: nat, score: int) {
    i <= |cyls| && best < |cyls| &&
    (if AnyCandidate(cyls, ev, i) then
       best < i && Candidate(cyls[best], ev) && score == Distance(cyls[best], ev) &&
       (forall k :: 0 <= k < i && !cyls[k].nodata ==> score <= Distance(cyls[k], ev)) &&
       (forall k :: 0 <= k < best && !cyls[k].nodata ==> score < Distance(cyls[k], ev))
     else
       best == 0 && score == IntMax)
  }

  /** The cylinder the scan keeps after looking at cylinder i, and its score. */
  function NextBest(cyls: seq<CylinderInfo>, ev: Event, i: nat, best: nat, score: int): (r: (nat, int))
    requires i < |cyls| && best < |cyls|
    ensures r.0 < |cyls|
  {
    if cyls[i].nodata || Distance(cyls[i], ev) >= score then (best, score) else (i, Distance(cyls[i], ev))
  }

  predicate AnyCandidate(cyls: seq<CylinderInfo>, ev: Event, n: nat)
    requires n <= |cyls|
  {
    exists k :: 0 <= k < n && Candidate(cyls[k], ev)
  }

  lemma ScanStep(cyls: seq<CylinderInfo>, ev: Event, i: nat, best: nat, score: int)
    requires i < |cyls| && ScanState(cyls, ev, i, best, score)
    ensures ScanState(cyls, ev, i + 1, NextBest(cyls, ev, i, best, score).0, NextBest(cyls, ev, i, best, score).1)
  {
    var (b, sc) := NextBest(cyls, ev, i, best, score);
    if AnyCandidate(cyls, ev, i) {
      assert AnyCandidate(cyls, ev, i + 1);
      if b == i {
        assert forall k :: 0 <= k < i && !cyls[k].nodata ==> sc < Distance(cyls[k], ev);
      }
    } else if Candidate(cyls[i], ev) {
      assert AnyCandidate(cyls, ev, i + 1);
      assert b == i;
    } else {
      assert !AnyCandidate(cyls, ev, i + 1) by {
        forall k | 0 <= k < i + 1 ensures !Candidate(cyls[k], ev) {
          if k < i {
            assert !AnyCandidate(cyls, ev, i);
          }
        }
      }
    }
  }

  lemma {:induction false} BestFromCorrect(cyls: seq<CylinderInfo>, ev: Event, i: nat, best: nat, score: int)
    requires ScanState(cyls, ev, i, best, score)
    ensures exists sc :: ScanState(cyls, ev, |cyls|, BestFrom(cyls, ev, i, best, score), sc)
    decreases |cyls| - i
  {
    if i < |cyls| {
      ScanStep(cyls, ev, i, best, score);
      var (b, sc) := NextBest(cyls, ev, i, best, score);
      assert BestFrom(cyls, ev, i, best, score) == BestFrom(cyls, ev, i + 1, b, sc);
      BestFromCorrect(cyls, ev, i + 1, b, sc);
    } else {
      assert ScanState(cyls, ev, |cyls|, BestFrom(cyls, ev, i, best, score), score);
    }
  }

  /**
   * get_cylinder_index picks the lowest-index cylinder with data whose
   * distance to the event's mix is strictly smallest, or cylinder 0 when no
   * cylinder has data with a distance below INT_MAX.
   */
  lemma BestCylinderIsFirstMinimum(cyls: seq<CylinderInfo>, ev: Event)
    requires |cyls| > 0
    ensures var b := BestCylinder(cyls, ev);
            if AnyCandidate(cyls, ev, |cyls|) then
              Candidate(cyls[b], ev) &&
              (forall k :: 0 <= k < |cyls| && !cyls[k].nodata ==> Distance(cyls[b], ev) <= Distance(cyls[k], ev)) &&
              (forall k :: 0 <= k < b && !cyls[k].nodata ==> Distance(cyls[b], ev) < Distance(cyls[k], ev))
            else b == 0
  {
    BestFromCorrect(cyls, ev, 0, 0, IntMax);
  }

  /** get_cylinder_index, the scan over the dive's cylinders. */
  method GetCylinderIndex(cyls: seq<CylinderInfo>, ev: Event) returns (best: nat)
    requires |cyls| == MaxCylinders
    ensures best == BestCylinder(cyls, ev)
  {
    best := 0;
    var score := IntMax;
    var i := 0;
    while i < |cyls|
      invariant i <= |cyls| && best < |cyls|
      invariant BestFrom(cyls, ev, i, best, score) == BestCylinder(cyls, ev)
    {
      var c := cyls[i];
      if !c.nodata {
        var distance := Score(c, ev);
        if distance < score {
          score := distance;
          best := i;
        }
      }
      i := i + 1;
    }
  }

  /** The distance computation in the loop of get_cylinder_index, in int arithmetic. */
  method Score(c: CylinderInfo, ev: Event) returns (distance: int)
    ensures distance == Distance(c, ev)
  {
    var dO2 := c.o2 - TargetO2(ev.value);
    var dHe := c.he - TargetHe(ev.value);
    distance := Wrap32(dO2 * dO2);
    if ev.evType == GasChange2Type {
      distance := Wrap32(distance + Wrap32(dHe * dHe));
    }
  }

  // ---------------------------------------------------------------------
  // set_cylinder_index

  /**
   * One entry stamped as using cylinder c with the given usage: if its usage
   * differs it is set and the cylinder's sensor pressure is cleared.
   */
  function Stamp(e: PlotEntry, c: nat, usage: Usage): (r: PlotEntry)
    requires c < |e.cyl|
    ensures |r.cyl| == |e.cyl| && r.cyl[c].usage == usage
    ensures r.(cyl := e.cyl) == e
    ensures forall k :: 0 <= k < |e.cyl| && k != c ==> r.cyl[k] == e.cyl[k]
    ensures e.cyl[c].usage == usage ==> r == e
    ensures e.cyl[c].usage != usage ==> r.cyl[c] == e.cyl[c].(usage := usage, sensor := 0)
  {
    if e.cyl[c].usage != usage then e.(cyl := e.cyl[c := e.cyl[c].(usage := usage, sensor := 0)]) else e
  }

  /** Stamping twice is stamping once. */
  lemma StampIdempotent(e: PlotEntry, c: nat, usage: Usage)
    requires c < |e.cyl|
    ensures Stamp(Stamp(e, c, usage), c, usage) == Stamp(e, c, usage)
  {
  }

  predicate CylIndexOk(s: seq<PlotEntry>, c: nat) {
    forall k :: 0 <= k < |s| ==> c < |s[k].cyl|
  }

  /**
   * Where set_cylinder_index stops: the first index from i on whose time,
   * compared as unsigned, lies after end; |s| if there is none; i itself
   * when i is already past the entries.
   */
  function RangeEnd(s: seq<PlotEntry>, i: nat, end: int): (j: nat)
    ensures j >= i && (i <= |s| ==> j <= |s|)
    ensures i <= |s| ==> forall k :: i <= k < j ==> Unsigned(s[k].sec) <= Unsigned(end)
    ensures i <= j < |s| ==> Unsigned(s[j].sec) > Unsigned(end)
    decreases |s| - i
  {
    if i >= |s| then i
    else if Unsigned(s[i].sec) > Unsigned(end) then i
    else RangeEnd(s, i + 1, end)
  }

  /** Entries s[i..j] stamped, everything else as it was. */
  function StampRange(s: seq<PlotEntry>, i: nat, j: nat, c: nat, usage: Usage): (r: seq<PlotEntry>)
    requires i <= j <= |s| && CylIndexOk(s, c)
    ensures |r| == |s| && CylIndexOk(r, c)
    ensures forall k :: 0 <= k < |s| ==> r[k] == if i <= k < j then Stamp(s[k], c, usage) else s[k]
  {
    seq(|s|, k requires 0 <= k < |s| => if i <= k < j then Stamp(s[k], c, usage) else s[k])
  }

  /** set_cylinder_index over the first nr entries of the array. */
  method SetCylinderIndex(entry: array<PlotEntry>, nr: nat, i: nat, c: nat, end: int, usage: Usage)
    returns (j: nat)
    modifies entry
    requires nr <= entry.Length && CylIndexOk(entry[..nr], c)
    ensures j == RangeEnd(old(entry[..nr]), i, end)
    ensures entry[..nr] == if j <= nr then StampRange(old(entry[..nr]), i, j, c, usage) else old(entry[..nr])
    ensures entry[nr..] == old(entry[nr..])
  {
    ghost var s := entry[..nr];
    j := i;
    if j >= nr {
      assert j == nr ==> StampRange(s, i, j, c, usage) == s;
      return;
    }
    j := StampLoop(entry, nr, i, c, end, usage);
    ghost var r := StampRange(s, i, j, c, usage);
    assert forall k :: 0 <= k < nr ==> entry[..nr][k] == r[k];
    assert forall k :: 0 <= k < entry.Length - nr ==> entry[nr..][k] == old(entry[nr..])[k];
  }

  /** The loop of set_cylinder_index, entry by entry. */
  method StampLoop(entry: array<PlotEntry>, nr: nat, i: nat, c: nat, end: int, usage: Usage)
    returns (j: nat)
    modifies entry
    requires i < nr <= entry.Length && CylIndexOk(entry[..nr], c)
    ensures j == RangeEnd(old(entry[..nr]), i, end) && i <= j <= nr
    ensures forall k :: 0 <= k < nr ==> entry[k] == if i <= k < j then Stamp(old(entry[k]), c, usage) else old(entry[k])
    ensures forall k :: nr <= k < entry.Length ==> entry[k] == old(entry[k])
  {
    ghost var s := entry[..nr];
    j := i;
    while j < nr
      invariant i <= j <= nr
      invariant RangeEnd(s, j, end) == RangeEnd(s, i, end)
      invariant forall k :: 0 <= k < nr ==> entry[k] == if i <= k < j then Stamp(s[k], c, usage) else s[k]
      invariant forall k :: nr <= k < entry.Length ==> entry[k] == old(entry[k])
    {
      if Unsigned(entry[j].sec) > Unsigned(end) {
        break;
      }
      StampEntry(entry, j, c, usage);
      j := j + 1;
    }
  }

  /** The body of the loop of set_cylinder_index: stamp entry j when its slot c has another usage. */
  method StampEntry(entry: array<PlotEntry>, j: nat, c: nat, usage: Usage)
    requires j < entry.Length && c < |entry[j].cyl|
    modifies entry
    ensures entry[j] == Stamp(old(entry[j]), c, usage)
    ensures forall k :: 0 <= k < entry.Length && k != j ==> entry[k] == old(entry[k])
  {
    var e := entry[j];
    if e.cyl[c].usage != usage {
      entry[j] := Stamp(e, c, usage);
    }
  }

  /** With end = ~0u every remaining entry is stamped: no time compares above it. */
  lemma RangeEndToTheEnd(s: seq<PlotEntry>, i: nat)
    requires i <= |s|
    ensures RangeEnd(s, i, UnsignedMax) == |s|
  {
  }

  /**
   * An entry at exactly the time of a gas change keeps the cylinder used
   * before the change: entries whose times lie between the range start and
   * the change time all fall in the stamped range, and the first entry left
   * for the next cylinder lies strictly after the change.
   */
  lemma AtChangeTimeKeepsPrevious(s: seq<PlotEntry>, i: nat, c: nat, t: int, k: nat)
    requires i <= k < |s| && CylIndexOk(s, c) && 0 <= t < 0x1_0000_0000
    requires forall m :: i <= m <= k ==> 0 <= s[m].sec <= t
    ensures var j := RangeEnd(s, i, t);
            k < j && StampRange(s, i, j, c, OC)[k].cyl[c].usage == OC &&
            (j < |s| ==> s[j].sec < 0 || s[j].sec > t)
  {
  }

  // ---------------------------------------------------------------------
  // check_gas_change_events

  /**
   * The specification of the tracker: starting at entry i with cylinder c,
   * each gas change stamps the entries up to its time with the current
   * cylinder and then switches to its best-matching cylinder; after the
   * last change the rest of the entries get the last cylinder.
   */
  function ApplyChanges(s: seq<PlotEntry>, i: nat, c: nat, changes: seq<Event>, cyls: seq<CylinderInfo>): (r: seq<PlotEntry>)
    requires |cyls| == MaxCylinders && c < MaxCylinders && i <= |s| && AllWellFormed(s)
    ensures |r| == |s| && AllWellFormed(r)
    decreases |changes|
  {
    var t := StampUntil(s, i, c, if changes == [] then UnsignedMax else changes[0].time);
    if changes == [] then t
    else ApplyChanges(t, RangeEnd(s, i, changes[0].time), BestCylinder(cyls, changes[0]), changes[1..], cyls)
  }

  /** One call of set_cylinder_index with usage OC, on values. */
  function StampUntil(s: seq<PlotEntry>, i: nat, c: nat, end: int): (r: seq<PlotEntry>)
    requires c < MaxCylinders && i <= |s| && AllWellFormed(s)
    ensures |r| == |s| && AllWellFormed(r)
  {
    assert CylIndexOk(s, c);
    var r := StampRange(s, i, RangeEnd(s, i, end), c, OC);
    assert forall k :: 0 <= k < |r| ==> r[k] == s[k] || r[k] == Stamp(s[k], c, OC);
    r
  }

  /** check_gas_change_events: the whole series as the tracker leaves it. */
  function GasChangeSpec(s: seq<PlotEntry>, events: seq<Event>, cyls: seq<CylinderInfo>): (r: seq<PlotEntry>)
    requires |cyls| == MaxCylinders && AllWellFormed(s)
    ensures |r| == |s|
    ensures GasChanges(events, 0) == [] ==> r == s
  {
    if GasChanges(events, 0) == [] then s else ApplyChanges(s, 0, 0, GasChanges(events, 0), cyls)
  }

  lemma ApplyChangesCons(s: seq<PlotEntry>, i: nat, c: nat, e: Event, rest: seq<Event>, cyls: seq<CylinderInfo>)
    requires |cyls| == MaxCylinders && c < MaxCylinders && i <= |s| && AllWellFormed(s)
    ensures ApplyChanges(s, i, c, [e] + rest, cyls)
         == ApplyChanges(StampUntil(s, i, c, e.time), RangeEnd(s, i, e.time), BestCylinder(cyls, e), rest, cyls)
  {
    assert ([e] + rest)[1..] == rest;
  }

  // ---------------------------------------------------------------------
  // Which cylinder each entry ends up on

  /**
   * Where the m-th stretch of entries starts when the tracker begins at
   * entry i: stretch 0 starts at i, and stretch m + 1 starts where
   * set_cylinder_index stops for gas change m.  Only entry times matter.
   */
  function StretchStart(s: seq<PlotEntry>, i: nat, changes: seq<Event>, m: nat): (j: nat)
    requires m <= |changes|
    ensures j >= i && (i <= |s| ==> j <= |s|)
    decreases m
  {
    if m == 0 then i else StretchStart(s, RangeEnd(s, i, changes[0].time), changes[1..], m - 1)
  }

  /** Entry k lies in stretch m: from its start to the next stretch's start, or to the end for the last one. */
  predicate InStretch(s: seq<PlotEntry>, i: nat, changes: seq<Event>, m: nat, k: nat)
    requires m <= |changes|
  {
    StretchStart(s, i, changes, m) <= k < if m == |changes| then |s| else StretchStart(s, i, changes, m + 1)
  }

  /** The cylinder of stretch m: c before the first change, then the best match for the change that opened it. */
  function StretchCylinder(cyls: seq<CylinderInfo>, c: nat, changes: seq<Event>, m: nat): (r: nat)
    requires |cyls| == MaxCylinders && c < MaxCylinders && m <= |changes|
    ensures r < MaxCylinders
    ensures m > 0 ==> r == BestCylinder(cyls, changes[m - 1])
  {
    if m == 0 then c else BestCylinder(cyls, changes[m - 1])
  }

  /** Stretches follow each other: each starts no earlier than the one before. */
  lemma {:induction false} StretchStartStep(s: seq<PlotEntry>, i: nat, changes: seq<Event>, m: nat)
    requires m < |changes|
    ensures StretchStart(s, i, changes, m) <= StretchStart(s, i, changes, m + 1)
    decreases m
  {
    if m > 0 {
      StretchStartStep(s, RangeEnd(s, i, changes[0].time), changes[1..], m - 1);
    }
  }

  lemma {:induction false} StretchStartMonotone(s: seq<PlotEntry>, i: nat, changes: seq<Event>, a: nat, b: nat)
    requires a <= b <= |changes|
    ensures StretchStart(s, i, changes, a) <= StretchStart(s, i, changes, b)
    decreases b - a
  {
    if a < b {
      StretchStartStep(s, i, changes, a);
      StretchStartMonotone(s, i, changes, a + 1, b);
    }
  }

  /** Every entry from i on lies in some stretch. */
  lemma {:induction false} StretchCovers(s: seq<PlotEntry>, i: nat, changes: seq<Event>, k: nat)
    requires i <= k < |s|
    ensures exists m: nat :: m <= |changes| && InStretch(s, i, changes, m, k)
    decreases |changes|
  {
    if changes == [] {
      assert InStretch(s, i, changes, 0, k);
    } else {
      var j := RangeEnd(s, i, changes[0].time);
      if k < j {
        assert InStretch(s, i, changes, 0, k);
      } else {
        StretchCovers(s, j, changes[1..], k);
        var m: nat :| m <= |changes[1..]| && InStretch(s, j, changes[1..], m, k);
        assert InStretch(s, i, changes, m + 1, k);
      }
    }
  }

  /** No entry lies in two stretches. */
  lemma StretchUnique(s: seq<PlotEntry>, i: nat, changes: seq<Event>, m1: nat, m2: nat, k: nat)
    requires m1 <= |changes| && m2 <= |changes|
    requires InStretch(s, i, changes, m1, k) && InStretch(s, i, changes, m2, k)
    ensures m1 == m2
  {
    if m1 < m2 {
      StretchStartMonotone(s, i, changes, m1 + 1, m2);
    } else if m2 < m1 {
      StretchStartMonotone(s, i, changes, m2 + 1, m1);
    }
  }

  /** Two series with the same entry times. */
  predicate SameTimes(s: seq<PlotEntry>, t: seq<PlotEntry>) {
    |s| == |t| && forall k :: 0 <= k < |s| ==> s[k].sec == t[k].sec
  }

  lemma {:induction false} RangeEndSameTimes(s: seq<PlotEntry>, t: seq<PlotEntry>, i: nat, end: int)
    requires SameTimes(s, t)
    ensures RangeEnd(s, i, end) == RangeEnd(t, i, end)
    decreases |s| - i
  {
    if i < |s| && Unsigned(s[i].sec) <= Unsigned(end) {
      RangeEndSameTimes(s, t, i + 1, end);
    }
  }

  lemma {:induction false} StretchStartSameTimes(s: seq<PlotEntry>, t: seq<PlotEntry>, i: nat, changes: seq<Event>, m: nat)
    requires SameTimes(s, t) && m <= |changes|
    ensures StretchStart(s, i, changes, m) == StretchStart(t, i, changes, m)
    decreases m
  {
    if m > 0 {
      RangeEndSameTimes(s, t, i, changes[0].time);
      StretchStartSameTimes(s, t, RangeEnd(s, i, changes[0].time), changes[1..], m - 1);
    }
  }

  lemma StampUntilSameTimes(s: seq<PlotEntry>, i: nat, c: nat, end: int)
    requires c < MaxCylinders && i <= |s| && AllWellFormed(s)
    ensures SameTimes(s, StampUntil(s, i, c, end))
  {
    var r := StampUntil(s, i, c, end);
    forall k | 0 <= k < |s| ensures s[k].sec == r[k].sec {
      assert r[k] == s[k] || r[k] == Stamp(s[k], c, OC);
    }
  }

  /** The tracker never touches the entries before its start. */
  lemma {:induction false} ApplyChangesBefore(s: seq<PlotEntry>, i: nat, c: nat, changes: seq<Event>,
                                              cyls: seq<CylinderInfo>, k: nat)
    requires |cyls| == MaxCylinders && c < MaxCylinders && i <= |s| && AllWellFormed(s) && k < i
    ensures ApplyChanges(s, i, c, changes, cyls)[k] == s[k]
    decreases |changes|
  {
    if changes != [] {
      var t := StampUntil(s, i, c, changes[0].time);
      ApplyChangesBefore(t, RangeEnd(s, i, changes[0].time), BestCylinder(cyls, changes[0]), changes[1..], cyls, k);
    }
  }

  /** Stretch m >= 1 from i is stretch m - 1 from where the first change's range ends, on a series with the same times. */
  lemma InLaterStretch(s: seq<PlotEntry>, t: seq<PlotEntry>, i: nat, changes: seq<Event>, m: nat, k: nat)
    requires SameTimes(s, t) && 1 <= m <= |changes| && InStretch(s, i, changes, m, k)
    ensures InStretch(t, RangeEnd(s, i, changes[0].time), changes[1..], m - 1, k)
  {
    var j := RangeEnd(s, i, changes[0].time);
    StretchStartSameTimes(s, t, j, changes[1..], m - 1);
    if m < |changes| {
      StretchStartSameTimes(s, t, j, changes[1..], m);
    }
  }

  /** Every entry of stretch m is stamped once, with the stretch's cylinder. */
  lemma {:induction false} ApplyChangesStretch(s: seq<PlotEntry>, i: nat, c: nat, changes: seq<Event>,
                                               cyls: seq<CylinderInfo>, m: nat, k: nat)
    requires |cyls| == MaxCylinders && c < MaxCylinders && i <= |s| && AllWellFormed(s)
    requires m <= |changes| && InStretch(s, i, changes, m, k)
    ensures ApplyChanges(s, i, c, changes, cyls)[k] == Stamp(s[k], StretchCylinder(cyls, c, changes, m), OC)
    decreases |changes|
  {
    if changes == [] {
      RangeEndToTheEnd(s, i);
    } else {
      var j := RangeEnd(s, i, changes[0].time);
      var t := StampUntil(s, i, c, changes[0].time);
      var c' := BestCylinder(cyls, changes[0]);
      if m == 0 {
        ApplyChangesBefore(t, j, c', changes[1..], cyls, k);
      } else {
        StampUntilSameTimes(s, i, c, changes[0].time);
        InLaterStretch(s, t, i, changes, m, k);
        ApplyChangesStretch(t, j, c', changes[1..], cyls, m - 1, k);
      }
    }
  }

  /**
   * check_gas_change_events, entry by entry: when the dive has a gas
   * change, the entry in stretch m is stamped as breathing open-circuit from
   * cylinder 0 for the first stretch and from the best match for change m
   * after that, and nothing else about it changes (see Stamp).  With
   * StretchCovers and StretchUnique, every entry is stamped exactly once.
   */
  lemma GasChangeSpecStretches(s: seq<PlotEntry>, events: seq<Event>, cyls: seq<CylinderInfo>)
    requires |cyls| == MaxCylinders && AllWellFormed(s)
    ensures var changes := GasChanges(events, 0);
            var r := GasChangeSpec(s, events, cyls);
            changes != [] ==>
              forall m: nat, k: nat :: m <= |changes| && InStretch(s, 0, changes, m, k) ==>
                r[k] == Stamp(s[k], StretchCylinder(cyls, 0, changes, m), OC)
  {
    var changes := GasChanges(events, 0);
    if changes != [] {
      forall m: nat, k: nat | m <= |changes| && InStretch(s, 0, changes, m, k)
        ensures GasChangeSpec(s, events, cyls)[k] == Stamp(s[k], StretchCylinder(cyls, 0, changes, m), OC)
      {
        ApplyChangesStretch(s, 0, 0, changes, cyls, m, k);
      }
    }
  }

  // ----- on a sorted profile -----

  /** Entry times that are non-negative and fit an unsigned int. */
  predicate TimesInRange(s: seq<PlotEntry>) {
    forall k :: 0 <= k < |s| ==> 0 <= s[k].sec < 0x1_0000_0000
  }

  /** Gas changes in time order, at times that fit an unsigned int. */
  predicate ChangesInOrder(changes: seq<Event>) {
    (forall a :: 0 <= a < |changes| ==> 0 <= changes[a].time < 0x1_0000_0000) &&
    (forall a, b :: 0 <= a < b < |changes| ==> changes[a].time <= changes[b].time)
  }

  /** The cylinder breathed at time t: the best match for the last gas change strictly before t, cylinder 0 before any. */
  function CylinderAtTime(cyls: seq<CylinderInfo>, changes: seq<Event>, t: int): (r: nat)
    requires |cyls| == MaxCylinders
    ensures r < MaxCylinders
    ensures (forall a :: 0 <= a < |changes| ==> changes[a].time >= t) ==> r == 0
  {
    if changes == [] then 0
    else if changes[|changes| - 1].time < t then BestCylinder(cyls, changes[|changes| - 1])
    else CylinderAtTime(cyls, changes[..|changes| - 1], t)
  }

  /** Entries that lie before the end of a range do not move it. */
  lemma {:induction false} RangeEndSkip(s: seq<PlotEntry>, a: nat, b: nat, end: int)
    requires a <= b <= |s|
    requires forall k :: a <= k < b ==> Unsigned(s[k].sec) <= Unsigned(end)
    ensures RangeEnd(s, a, end) == RangeEnd(s, b, end)
    decreases b - a
  {
    if a < b {
      RangeEndSkip(s, a + 1, b, end);
    }
  }

  /** With changes in time order, stretch m (m >= 1) starts at the first entry later than change m - 1. */
  lemma {:induction false} OrderedStretchStart(s: seq<PlotEntry>, i: nat, changes: seq<Event>, m: nat)
    requires i <= |s| && 1 <= m <= |changes| && ChangesInOrder(changes)
    requires forall k :: 0 <= k < i ==> Unsigned(s[k].sec) <= Unsigned(changes[0].time)
    ensures StretchStart(s, i, changes, m) == RangeEnd(s, 0, changes[m - 1].time)
    decreases m
  {
    var j := RangeEnd(s, i, changes[0].time);
    RangeEndSkip(s, 0, i, changes[0].time);
    if m > 1 {
      var rest := changes[1..];
      assert ChangesInOrder(rest) by {
        assert forall a :: 0 <= a < |rest| ==> rest[a] == changes[a + 1];
      }
      assert forall k :: 0 <= k < j ==> Unsigned(s[k].sec) <= Unsigned(rest[0].time) by {
        assert changes[0].time <= changes[1].time;
      }
      OrderedStretchStart(s, j, rest, m - 1);
      assert rest[m - 2] == changes[m - 1];
    }
  }

  /** On a sorted profile an entry lies at or after the end of the range up to t exactly when its time is after t. */
  lemma SortedRangeEnd(s: seq<PlotEntry>, t: int, k: nat)
    requires SortedBySec(s) && TimesInRange(s) && 0 <= t < 0x1_0000_0000 && k < |s|
    ensures RangeEnd(s, 0, t) <= k <==> t < s[k].sec
  {
    var j := RangeEnd(s, 0, t);
    if j <= k {
      assert s[j].sec > t;
      assert j == k || s[j].sec <= s[k].sec;
    }
  }

  /**
   * On a sorted profile with gas changes in time order, entry k is in
   * stretch m exactly when change m - 1 (if any) lies strictly before its
   * time and change m (if any) at or after it.
   */
  lemma SortedInStretch(s: seq<PlotEntry>, changes: seq<Event>, m: nat, k: nat)
    requires SortedBySec(s) && TimesInRange(s) && ChangesInOrder(changes)
    requires m <= |changes| && k < |s|
    ensures InStretch(s, 0, changes, m, k) <==>
            (m == 0 || changes[m - 1].time < s[k].sec) && (m == |changes| || s[k].sec <= changes[m].time)
  {
    SortedStretchBound(s, changes, m, k);
    if m < |changes| {
      SortedStretchBound(s, changes, m + 1, k);
    }
  }

  /** On a sorted profile, entry k lies at or after the start of stretch m exactly when change m - 1 is before its time. */
  lemma SortedStretchBound(s: seq<PlotEntry>, changes: seq<Event>, m: nat, k: nat)
    requires SortedBySec(s) && TimesInRange(s) && ChangesInOrder(changes)
    requires m <= |changes| && k < |s|
    ensures StretchStart(s, 0, changes, m) <= k <==> m == 0 || changes[m - 1].time < s[k].sec
  {
    if m > 0 {
      OrderedStretchStart(s, 0, changes, m);
      SortedRangeEnd(s, changes[m - 1].time, k);
    }
  }

  /** The cylinder of a stretch is the cylinder at the time of any entry inside it. */
  lemma {:induction false} CylinderAtTimeOfStretch(cyls: seq<CylinderInfo>, changes: seq<Event>, m: nat, t: int)
    requires |cyls| == MaxCylinders && m <= |changes|
    requires m == 0 || changes[m - 1].time < t
    requires forall a :: m <= a < |changes| ==> t <= changes[a].time
    ensures CylinderAtTime(cyls, changes, t) == StretchCylinder(cyls, 0, changes, m)
    decreases |changes|
  {
    if |changes| > m {
      var front := changes[..|changes| - 1];
      CylinderAtTimeOfStretch(cyls, front, m, t);
      assert m == 0 || front[m - 1] == changes[m - 1];
    }
  }

  /**
   * check_gas_change_events on a sorted profile with gas changes in time
   * order: every entry is stamped with the best match for the last gas
   * change strictly before its time, or with cylinder 0 when there is none;
   * an entry at exactly a change's time still gets the earlier cylinder.
   */
  lemma SortedGasChangeCylinders(s: seq<PlotEntry>, events: seq<Event>, cyls: seq<CylinderInfo>)
    requires |cyls| == MaxCylinders && AllWellFormed(s) && SortedBySec(s) && TimesInRange(s)
    requires ChangesInOrder(GasChanges(events, 0))
    ensures var changes := GasChanges(events, 0);
            var r := GasChangeSpec(s, events, cyls);
            changes != [] ==>
              forall k :: 0 <= k < |s| ==> r[k] == Stamp(s[k], CylinderAtTime(cyls, changes, s[k].sec), OC)
  {
    var changes := GasChanges(events, 0);
    if changes != [] {
      forall k | 0 <= k < |s|
        ensures ApplyChanges(s, 0, 0, changes, cyls)[k] == Stamp(s[k], CylinderAtTime(cyls, changes, s[k].sec), OC)
      {
        SortedEntryCylinder(s, changes, cyls, k);
      }
    }
  }

  /** One entry of a sorted profile ends up on the cylinder at its time. */
  lemma SortedEntryCylinder(s: seq<PlotEntry>, changes: seq<Event>, cyls: seq<CylinderInfo>, k: nat)
    requires |cyls| == MaxCylinders && AllWellFormed(s) && SortedBySec(s) && TimesInRange(s)
    requires ChangesInOrder(changes) && k < |s|
    ensures ApplyChanges(s, 0, 0, changes, cyls)[k] == Stamp(s[k], CylinderAtTime(cyls, changes, s[k].sec), OC)
  {
    StretchCovers(s, 0, changes, k);
    var m: nat :| m <= |changes| && InStretch(s, 0, changes, m, k);
    ApplyChangesStretch(s, 0, 0, changes, cyls, m, k);
    SortedInStretch(s, changes, m, k);
    CylinderAtTimeOfStretch(cyls, changes, m, s[k].sec);
  }

  /**
   * A single gas change at t = 600 s on a sorted profile: entries up to and
   * including 600 s stay on cylinder 0, the later ones move to the change's
   * best match.
   */
  lemma SingleChangeAtSixHundred(s: seq<PlotEntry>, events: seq<Event>, cyls: seq<CylinderInfo>)
    requires |cyls| == MaxCylinders && AllWellFormed(s) && SortedBySec(s) && TimesInRange(s)
    requires |events| == 1 && events[0].name == GasChangeName && events[0].time == 600
    ensures forall k :: 0 <= k < |s| ==>
              GasChangeSpec(s, events, cyls)[k] ==
              Stamp(s[k], if s[k].sec <= 600 then 0 else BestCylinder(cyls, events[0]), OC)
  {
    var changes := GasChanges(events, 0);
    assert changes == [events[0]];
    SortedGasChangeCylinders(s, events, cyls);
  }

  /**
   * One turn of the do-while loop of check_gas_change_events at gas change
   * k: stamp up to its time, pick its cylinder, find the next gas change.
   * The tracker's remaining work is the same before and after.
   */
  method TrackChange(entry: array<PlotEntry>, nr: nat, i: nat, c: nat, events: seq<Event>, k: nat,
                     cyls: seq<CylinderInfo>)
    returns (i': nat, c': nat, next: Option<nat>)
    modifies entry
    requires nr <= entry.Length && |cyls| == MaxCylinders && c < MaxCylinders && i <= nr
    requires AllWellFormed(entry[..nr]) && k < |events| && events[k].name == GasChangeName
    ensures AllWellFormed(entry[..nr]) && i' <= nr && c' < MaxCylinders
    ensures next.Some? ==> k < next.value < |events| && events[next.value].name == GasChangeName
    ensures ApplyChanges(old(entry[..nr]), i, c, GasChanges(events, k), cyls)
         == ApplyChanges(entry[..nr], i', c', if next.Some? then GasChanges(events, next.value) else [], cyls)
    ensures entry[nr..] == old(entry[nr..])
  {
    assert GasChanges(events, k) == [events[k]] + GasChanges(events, k + 1);
    ApplyChangesCons(entry[..nr], i, c, events[k], GasChanges(events, k + 1), cyls);
    i' := SetCylinderIndex(entry, nr, i, c, events[k].time, OC);
    c' := GetCylinderIndex(cyls, events[k]);
    next := GetNextEvent(events, k + 1, GasChangeName);
    if next.None? {
      GasChangesSkip(events, k + 1, |events|);
    } else {
      GasChangesSkip(events, k + 1, next.value);
    }
  }

  /**
   * check_gas_change_events.  The source passes its index i to the first
   * set_cylinder_index call uninitialised; here it starts at entry 0.
   */
  method CheckGasChangeEvents(entry: array<PlotEntry>, nr: nat, events: seq<Event>, cyls: seq<CylinderInfo>)
    modifies entry
    requires nr <= entry.Length && |cyls| == MaxCylinders && AllWellFormed(entry[..nr])
    ensures entry[..nr] == GasChangeSpec(old(entry[..nr]), events, cyls)
    ensures entry[nr..] == old(entry[nr..])
  {
    ghost var final := GasChangeSpec(entry[..nr], events, cyls);
    var ev := GetNextEvent(events, 0, GasChangeName);
    if ev.None? {
      GasChangesSkip(events, 0, |events|);
      return;
    }
    GasChangesSkip(events, 0, ev.value);
    var i: nat, c: nat := 0, 0;
    while ev.Some?
      invariant c < MaxCylinders && i <= nr && AllWellFormed(entry[..nr])
      invariant ev.Some? ==> ev.value < |events| && events[ev.value].name == GasChangeName
      invariant ApplyChanges(entry[..nr], i, c, if ev.Some? then GasChanges(events, ev.value) else [], cyls) == final
      invariant entry[nr..] == old(entry[nr..])
      decreases if ev.Some? then |events| - ev.value else 0
    {
      i, c, ev := TrackChange(entry, nr, i, c, events, ev.value, cyls);
    }
    ghost var before := entry[..nr];
    var _ := SetCylinderIndex(entry, nr, i, c, UnsignedMax, OC);
    assert entry[..nr] == StampUntil(before, i, c, UnsignedMax);
  }
}
