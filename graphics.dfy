/**
 * The integer decisions of the profile view (ProfileGraphicsView): which
 * colour bucket a SAC rate gets, how far apart the time markers are,
 * unlinking an event from a dive computer's list, whether and where an
 * event marker is drawn, the text of a gas label and which entries get a
 * depth label.  The drawing itself is not modelled.
 */
module Graphics {
  import opened Common
  import opened PlotData
  import opened EventNames

  // ---------------------------------------------------------------- SAC colour

  /** The colour get_sac_color picks: the printer colour, or bucket index of the SAC scale. */
  datatype SacColor = SacDefault | SacScale(index: int)

  /**
   * get_sac_color: the difference between sac and avg_sac, shifted by 7000
   * ml/min, in buckets of 2000 ml/min, clamped to the sacColors colours of
   * the scale (SAC_COLORS); printing always uses the default colour.
   */
  function SacColorOf(sac: int, avgSac: int, printer: bool, sacColors: int): (c: SacColor)
    requires sacColors >= 1
    ensures printer <==> c == SacDefault
    ensures c.SacScale? ==> 0 <= c.index < sacColors
  {
    if printer then SacDefault
    else
      var i := TruncDiv(sac - avgSac + 7000, 2000);
      SacScale(if i < 0 then 0 else if i > sacColors - 1 then sacColors - 1 else i)
  }

  /** A higher SAC rate never gets a lower bucket. */
  lemma SacColorMonotone(sac1: int, sac2: int, avgSac: int, sacColors: int)
    requires sacColors >= 1 && sac1 <= sac2
    ensures SacColorOf(sac1, avgSac, false, sacColors).index <= SacColorOf(sac2, avgSac, false, sacColors).index
  {
    TruncDivMonotone(sac1 - avgSac + 7000, sac2 - avgSac + 7000, 2000);
  }

  /**
   * Away from the clamps the bucket is exactly the 2000 ml/min band the
   * shifted difference falls in; everything more than 5000 ml/min below
   * the average lands in bucket 0.
   */
  lemma SacColorBand(sac: int, avgSac: int, sacColors: int)
    requires sacColors >= 1
    ensures var d := sac - avgSac + 7000; var i := SacColorOf(sac, avgSac, false, sacColors).index;
      (d < 2000 ==> i == 0) &&
      (0 <= d < 2000 * sacColors ==> 2000 * i <= d < 2000 * i + 2000)
  {
    var d := sac - avgSac + 7000;
    if d >= 0 {
      TruncDivNonneg(d, 2000);
      var q := d / 2000;
      DivBounds(d, 2000);
      if d < 2000 * sacColors && q > sacColors - 1 {
        MulMonotone(sacColors, q, 2000);
      }
    }
  }

  /** At the average rate the bucket is 3, or the last one of a shorter scale. */
  lemma SacColorOfAverage(avgSac: int, sacColors: int)
    requires sacColors >= 1
    ensures SacColorOf(avgSac, avgSac, false, sacColors).index == Min(3, sacColors - 1)
  {
    TruncDivNonneg(7000, 2000);
  }

  // ------------------------------------------------------------- time markers

  /** The marker spacings plot_depth_profile tries first, in seconds. */
  const Increments: seq<int> := [10, 20, 30, 60, 5 * 60, 10 * 60, 15 * 60, 30 * 60]

  function Pow2(k: nat): (p: nat)
    ensures p >= 1
  {
    if k == 0 then 1 else 2 * Pow2(k - 1)
  }

  /** The n-th spacing tried: the table, then 30 minutes doubled again and again. */
  function Candidate(n: nat): (incr: int)
    ensures incr >= 10
  {
    if n < 7 then Increments[n] else 1800 * Pow2(n - 7)
  }

  /** The spacings tried grow strictly. */
  lemma {:induction false} CandidateIncreasing(m: nat, n: nat)
    requires m < n
    ensures Candidate(m) < Candidate(n)
    decreases n - m
  {
    if m + 1 < n {
      CandidateIncreasing(m, n - 1);
      CandidateIncreasing(n - 1, n);
    } else if n > 7 {
      assert Pow2(n - 7) == 2 * Pow2(m - 7);
    }
  }

  /** More than 12 markers at a positive spacing means the dive is longer than one spacing. */
  lemma ManyMarkers(maxtime: int, incr: int)
    requires incr > 0 && TruncDiv(maxtime, incr) > 12
    ensures maxtime > incr
  {
    TruncDivNonneg(maxtime, incr);
    DivBounds(maxtime, incr);
    MulMonotone(13, maxtime / incr, incr);
  }

  /**
   * The time-marker spacing of plot_depth_profile: the first spacing of
   * the ladder 10 s, 20 s, 30 s, 1, 5, 10, 15, 30 min, 1 h, 2 h, ... that
   * leaves at most 12 markers, hence the smallest one that does.
   */
  method TimeMarkerIncrement(maxtime: int) returns (incr: int)
    ensures incr >= 10 && TruncDiv(maxtime, incr) <= 12
    ensures exists n: nat :: incr == Candidate(n)
    ensures forall n: nat :: Candidate(n) < incr ==> TruncDiv(maxtime, Candidate(n)) > 12
  {
    var i := 0;
    while i < 7 && TruncDiv(maxtime, Increments[i]) > 12
      invariant 0 <= i <= 7
      invariant forall m: nat :: m < i ==> TruncDiv(maxtime, Candidate(m)) > 12
      decreases 7 - i
    {
      i := i + 1;
    }
    incr := Increments[i];
    ghost var n: nat := i;
    while TruncDiv(maxtime, incr) > 12
      invariant incr == Candidate(n) && n >= i
      invariant n > i ==> i == 7
      invariant forall m: nat :: m < n ==> TruncDiv(maxtime, Candidate(m)) > 12
      decreases maxtime - incr
    {
      ManyMarkers(maxtime, incr);
      incr := incr * 2;
      n := n + 1;
    }
    forall m: nat | Candidate(m) < incr
      ensures TruncDiv(maxtime, Candidate(m)) > 12
    {
      if m >= n {
        if m > n {
          CandidateIncreasing(n, m);
        }
        assert false;
      }
    }
  }

  // ------------------------------------------------------------ event removal

  /** The position of the first node of the list that is ev. */
  function FirstIndex(events: seq<Event>, ev: Event): (i: nat)
    requires ev in events
    ensures i < |events| && events[i] == ev
    ensures forall j :: 0 <= j < i ==> events[j] != ev
  {
    if events[0] == ev then 0 else 1 + FirstIndex(events[1..], ev)
  }

  /** The list with its first node ev unlinked. */
  function Unlinked(events: seq<Event>, ev: Event): (r: seq<Event>)
    requires ev in events
    ensures |r| == |events| - 1
  {
    var i := FirstIndex(events, ev);
    events[..i] + events[i + 1..]
  }

  /** No node occurs twice in a linked list. */
  predicate DistinctNodes(events: seq<Event>) {
    forall i, j :: 0 <= i < j < |events| ==> events[i] != events[j]
  }

  /**
   * Unlinking takes out exactly one occurrence of ev and keeps every other
   * node, in order.
   */
  lemma UnlinkedRemovesOne(events: seq<Event>, ev: Event)
    requires ev in events
    ensures multiset(Unlinked(events, ev)) == multiset(events) - multiset{ev}
    ensures forall e :: e in events && e != ev ==> e in Unlinked(events, ev)
  {
    var i := FirstIndex(events, ev);
    assert events == events[..i] + [ev] + events[i + 1..];
    assert multiset(events) == multiset(events[..i]) + multiset{ev} + multiset(events[i + 1..]);
    forall e | e in events && e != ev
      ensures e in Unlinked(events, ev)
    {
      assert e in multiset(events);
    }
  }

  /** In a list without repeated nodes ev is gone after unlinking, and no repeats appear. */
  lemma UnlinkedDistinct(events: seq<Event>, ev: Event)
    requires ev in events && DistinctNodes(events)
    ensures ev !in Unlinked(events, ev) && DistinctNodes(Unlinked(events, ev))
  {
    var i := FirstIndex(events, ev);
    var r := Unlinked(events, ev);
    assert forall k :: 0 <= k < |r| ==> r[k] == events[if k < i then k else k + 1];
  }

  /** A dive computer's event list (current_dc->events). */
  class DiveComputerEvents {
    var events: seq<Event>

    constructor (events: seq<Event>)
      ensures this.events == events
    {
      this.events := events;
    }

    /**
     * The removal of removeEvent: walk the links until the one pointing
     * at ev and bend it past ev.  The event must be on the list: the
     * source's walk does not stop at the end of the list.
     */
    method RemoveEvent(ev: Event)
      requires ev in events
      modifies this
      ensures events == Unlinked(old(events), ev)
    {
      var k := 0;
      while events[k] != ev
        invariant events == old(events)
        invariant 0 <= k <= FirstIndex(events, ev)
        decreases FirstIndex(events, ev) - k
      {
        k := k + 1;
      }
      events := events[..k] + events[k + 1..];
    }
  }

  // ------------------------------------------------------------- event markers

  /**
   * plot_one_event's decisions: no marker when the first table slot with
   * the event's name has plotting off, for a gas change in the first 30
   * seconds (the computer announcing its gas) or without plot entries;
   * otherwise the marker sits at the first entry later than the event, or
   * at the last entry.
   */
  method PlotOneEvent(table: EventTable, ev: Event, s: seq<PlotEntry>) returns (r: Option<nat>)
    requires table.Valid()
    ensures r.None? <==> !PlotEnabled(table.Names(), ev.name) || (ev.time < 30 && ev.name == "gaschange") || s == []
    ensures r.Some? ==> r.value < |s| && forall k :: 0 <= k < r.value ==> s[k].sec <= ev.time
    ensures r.Some? && (exists k :: 0 <= k < |s| && ev.time < s[k].sec) ==> ev.time < s[r.value].sec
    ensures r.Some? && (forall k :: 0 <= k < |s| ==> s[k].sec <= ev.time) ==> r.value == |s| - 1
  {
    ghost var names := table.Names();
    var i := 0;
    while i < table.used
      invariant 0 <= i <= table.used
      invariant FirstEqual(names, ev.name, 0) == FirstEqual(names, ev.name, i)
      decreases table.used - i
    {
      if table.table[i].name == ev.name {
        assert names[i] == table.table[i];
        if table.table[i].plotEv {
          break;
        } else {
          return None;
        }
      }
      assert names[i] == table.table[i];
      i := i + 1;
    }
    if ev.time < 30 && ev.name == "gaschange" {
      return None;
    }
    r := None;
    var j := 0;
    while j < |s|
      invariant 0 <= j <= |s|
      invariant forall k :: 0 <= k < j ==> s[k].sec <= ev.time
      invariant r.None? <==> j == 0
      invariant r.Some? ==> r.value == j - 1
      decreases |s| - j
    {
      r := Some(j);
      if ev.time < s[j].sec {
        return;
      }
      j := j + 1;
    }
  }

  // ---------------------------------------------------------------- gas label

  /** A gas fraction in permille as the percentage the label shows, rounded half up. */
  function Percent(permille: int): int {
    TruncDiv(permille + 5, 10)
  }

  /** For a fraction of at least -5 permille the percentage is the nearest one, halves up. */
  lemma PercentIsNearest(permille: int)
    requires permille >= -5
    ensures -5 <= permille - 10 * Percent(permille) < 5
  {
    TruncDivNonneg(permille + 5, 10);
  }

  /**
   * plot_gas_value's text: "air" for air (is_air is not part of this
   * model and comes in as isAir), "EAN" and the oxygen percentage without
   * helium, else the oxygen and helium percentages around a '/'.
   */
  function GasLabel(o2: int, he: int, isAir: bool): (text: string)
    ensures isAir <==> text == "air"
  {
    if isAir then "air"
    else if he == 0 then "EAN" + IntToString(Percent(o2))
    else
      var a := IntToString(Percent(o2));
      assert (a + "/" + IntToString(Percent(he)))[0] == a[0];
      a + "/" + IntToString(Percent(he))
  }

  /** A nitrox label reads back as "EAN" and the oxygen percentage. */
  lemma NitroxLabelReadsBack(o2: int)
    ensures var text := GasLabel(o2, 0, false);
      |text| > 3 && text[..3] == "EAN" && ParseInt(text[3..]) == Percent(o2)
  {
    var text := GasLabel(o2, 0, false);
    assert text[3..] == IntToString(Percent(o2));
    IntToStringRoundTrip(Percent(o2));
  }

  /** A trimix label has one '/', with the oxygen percentage before it and the helium one after. */
  lemma TrimixLabelReadsBack(o2: int, he: int)
    requires he != 0
    ensures var text := GasLabel(o2, he, false); var k := |IntToString(Percent(o2))|;
      k < |text| && (forall i :: 0 <= i < |text| ==> (text[i] == '/' <==> i == k)) &&
      ParseInt(text[..k]) == Percent(o2) && ParseInt(text[k + 1..]) == Percent(he)
  {
    var a, b := IntToString(Percent(o2)), IntToString(Percent(he));
    var text := GasLabel(o2, he, false);
    var k := |a|;
    assert text == a + "/" + b;
    assert text[..k] == a && text[k + 1..] == b;
    forall i | 0 <= i < |text|
      ensures text[i] == '/' <==> i == k
    {
      if i < k {
        assert text[i] == a[i];
      } else if i > k {
        assert text[i] == b[i - k - 1];
      }
    }
    IntToStringRoundTrip(Percent(o2));
    IntToStringRoundTrip(Percent(he));
  }

  /** Nitrox and trimix labels differ whenever helium or the shown oxygen percentage differs. */
  lemma GasLabelsDistinguish(o2: int, he: int, o2': int, he': int)
    requires GasLabel(o2, he, false) == GasLabel(o2', he', false)
    ensures (he == 0) == (he' == 0) && Percent(o2) == Percent(o2')
    ensures he != 0 ==> Percent(he) == Percent(he')
  {
    var text := GasLabel(o2, he, false);
    if he == 0 && he' == 0 {
      NitroxLabelReadsBack(o2);
      NitroxLabelReadsBack(o2');
    } else if he != 0 && he' != 0 {
      TrimixLabelReadsBack(o2, he);
      TrimixLabelReadsBack(o2', he');
      var k, k' := |IntToString(Percent(o2))|, |IntToString(Percent(o2'))|;
      assert text[k] == '/' && text[k'] == '/';
    } else if he == 0 {
      NitroxLabelReadsBack(o2);
      TrimixLabelReadsBack(o2', he');
    } else {
      TrimixLabelReadsBack(o2, he);
      NitroxLabelReadsBack(o2');
    }
  }

  // ------------------------------------------------------------ depth labels

  /** Entries shallower than this many mm get no depth label. */
  const LabelMinDepth: int := 2000

  /** Whether entry i is the deepest entry of its widest window (entry == entry->max[2]). */
  predicate OwnMax(s: seq<PlotEntry>, i: nat)
    requires i < |s| && AllWellFormed(s)
  {
    s[i].windows[2].max == i
  }

  /** Whether entry i is the shallowest entry of its widest window (entry == entry->min[2]). */
  predicate OwnMin(s: seq<PlotEntry>, i: nat)
    requires i < |s| && AllWellFormed(s)
  {
    s[i].windows[2].min == i
  }

  /** The labels entry i gets: a deep one at its window's maximum, otherwise a shallow one at its minimum. */
  function EntryLabels(s: seq<PlotEntry>, i: nat): seq<(nat, bool)>
    requires i < |s| && AllWellFormed(s)
  {
    if s[i].depth < LabelMinDepth then []
    else (if OwnMax(s, i) then [(i, true)] else []) + (if OwnMin(s, i) && !OwnMax(s, i) then [(i, false)] else [])
  }

  /** The labels of entries 0..n-1, in entry order; true marks a deep label. */
  function DepthLabels(s: seq<PlotEntry>, n: nat): seq<(nat, bool)>
    requires n <= |s| && AllWellFormed(s)
  {
    if n == 0 then [] else DepthLabels(s, n - 1) + EntryLabels(s, n - 1)
  }

  /**
   * plot_text_samples: which entries get a depth label, and whether deep.
   * Its `last` compares the depth in mm with the depth in units of 100 mm
   * and so is back at -1 at the start of every entry: an entry is labelled
   * deep at its window's maximum and shallow at its window's minimum unless
   * it was just labelled deep.
   */
  method TextSamples(s: seq<PlotEntry>) returns (labels: seq<(nat, bool)>)
    requires AllWellFormed(s)
    ensures labels == DepthLabels(s, |s|)
  {
    labels := [];
    var last := -1;
    var i: nat := 0;
    while i < |s|
      invariant 0 <= i <= |s| && last == -1
      invariant labels == DepthLabels(s, i)
      decreases |s| - i
    {
      labels, last := LabelEntry(s, i, labels, last);
      i := i + 1;
    }
  }

  /** The body of the loop of plot_text_samples for entry i; `last` comes in and goes out as -1. */
  method LabelEntry(s: seq<PlotEntry>, i: nat, labels0: seq<(nat, bool)>, last0: int)
    returns (labels: seq<(nat, bool)>, last: int)
    requires i < |s| && AllWellFormed(s) && last0 == -1
    ensures labels == labels0 + EntryLabels(s, i) && last == -1
  {
    labels, last := labels0, last0;
    var entry := s[i];
    if entry.depth < LabelMinDepth {
      return;
    }
    TruncDivNonneg(entry.depth, 100);
    ghost var deep: seq<(nat, bool)> := if OwnMax(s, i) then [(i, true)] else [];
    ghost var shallow: seq<(nat, bool)> := if OwnMin(s, i) && !OwnMax(s, i) then [(i, false)] else [];
    if entry.windows[2].max == i && TruncDiv(entry.depth, 100) != last {
      labels := labels + [(i, true)];
      last := TruncDiv(entry.depth, 100);
    }
    assert labels == labels0 + deep;
    if entry.windows[2].min == i && TruncDiv(entry.depth, 100) != last {
      labels := labels + [(i, false)];
      last := TruncDiv(entry.depth, 100);
    }
    assert labels == (labels0 + deep) + shallow;
    assert EntryLabels(s, i) == deep + shallow;
    assert last == -1 || last == entry.depth / 100 < entry.depth;
    if entry.depth != last {
      last := -1;
    }
  }

  /**
   * Whether entry i is to be labelled (deep or shallow): it is at least
   * 2000 mm deep and, for a deep label, its window's maximum, for a shallow
   * one its window's minimum but not its maximum.
   */
  predicate GetsLabel(s: seq<PlotEntry>, i: nat, deep: bool)
    requires i < |s| && AllWellFormed(s)
  {
    s[i].depth >= LabelMinDepth && (if deep then OwnMax(s, i) else OwnMin(s, i) && !OwnMax(s, i))
  }

  /** The labels among entries 0..n-1 are exactly those of the entries that get one. */
  lemma {:induction false} DepthLabelsExact(s: seq<PlotEntry>, n: nat, i: nat, deep: bool)
    requires n <= |s| && AllWellFormed(s)
    ensures (i, deep) in DepthLabels(s, n) <==> i < n && GetsLabel(s, i, deep)
  {
    if n > 0 {
      DepthLabelsExact(s, n - 1, i, deep);
      EntryLabelsExact(s, n - 1, i, deep);
      InConcat(DepthLabels(s, n - 1), EntryLabels(s, n - 1), (i, deep));
    }
  }

  /** Membership in a concatenation. */
  lemma InConcat<T>(a: seq<T>, b: seq<T>, x: T)
    ensures x in a + b <==> x in a || x in b
  {
  }

  lemma EntryLabelsExact(s: seq<PlotEntry>, j: nat, i: nat, deep: bool)
    requires j < |s| && AllWellFormed(s)
    ensures (i, deep) in EntryLabels(s, j) <==> i == j && GetsLabel(s, i, deep)
  {
  }

  /** Each entry gets at most one label, and the labels follow the entries in order. */
  lemma {:induction false} DepthLabelsOrdered(s: seq<PlotEntry>, n: nat)
    requires n <= |s| && AllWellFormed(s)
    ensures forall a, b :: 0 <= a < b < |DepthLabels(s, n)| ==> DepthLabels(s, n)[a].0 < DepthLabels(s, n)[b].0
    ensures forall a :: 0 <= a < |DepthLabels(s, n)| ==> DepthLabels(s, n)[a].0 < n
  {
    if n > 0 {
      DepthLabelsOrdered(s, n - 1);
      var p, e := DepthLabels(s, n - 1), EntryLabels(s, n - 1);
      assert |e| <= 1;
      assert DepthLabels(s, n) == p + e;
    }
  }
}
