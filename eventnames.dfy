/**
 * The table of event names seen while plotting (ev_namelist, evn_used,
 * evn_allocated): remember_event and clear_events fill and empty it, the
 * profile view's hide and unhide actions switch the plotting of a name
 * off and on again, and plot_one_event consults it.
 */
module EventNames {

  /** One table slot (struct ev_select). */
  datatype EvSelect = EvSelect(name: string, plotEv: bool)

  /** strncmp(name, other, strlen(name)) == 0: name is a prefix of other. */
  predicate IsPrefix(name: string, other: string) {
    |name| <= |other| && other[..|name|] == name
  }

  /** Whether some used slot already holds a name starting with name. */
  predicate KnownIn(names: seq<EvSelect>, name: string) {
    exists i :: 0 <= i < |names| && IsPrefix(name, names[i].name)
  }

  /** The used slots after remember_event(name). */
  function Remembered(names: seq<EvSelect>, name: string): (r: seq<EvSelect>)
    ensures name == [] || KnownIn(names, name) ==> r == names
    ensures name != [] && !KnownIn(names, name) ==> r == names + [EvSelect(name, true)]
  {
    if name == [] || KnownIn(names, name) then names else names + [EvSelect(name, true)]
  }

  /** After remembering a nonempty name it is known, and remembering it again changes nothing. */
  lemma RememberedKnows(names: seq<EvSelect>, name: string)
    ensures name != [] ==> KnownIn(Remembered(names, name), name)
    ensures Remembered(Remembered(names, name), name) == Remembered(names, name)
  {
    if name != [] && !KnownIn(names, name) {
      var r := Remembered(names, name);
      assert IsPrefix(name, r[|names|].name);
    }
  }

  /**
   * Because the comparison only looks at the new name's length, a name that
   * is a prefix of a known one is never added: "gas" after "gaschange".
   */
  lemma PrefixIsNotAdded()
    ensures Remembered([EvSelect("gaschange", true)], "gas") == [EvSelect("gaschange", true)]
    ensures Remembered([EvSelect("gas", true)], "gaschange") == [EvSelect("gas", true), EvSelect("gaschange", true)]
  {
    var known, short := [EvSelect("gaschange", true)], [EvSelect("gas", true)];
    assert IsPrefix("gas", known[0].name);
    assert KnownIn(known, "gas");
    assert !IsPrefix("gaschange", short[0].name);
    assert !KnownIn(short, "gaschange");
  }

  /** The index of the first used slot whose name equals name (strcmp), |names| if none. */
  function FirstEqual(names: seq<EvSelect>, name: string, i: nat): (k: nat)
    requires i <= |names|
    ensures i <= k <= |names|
    ensures k < |names| ==> names[k].name == name
    ensures forall j :: i <= j < k ==> names[j].name != name
    decreases |names| - i
  {
    if i == |names| || names[i].name == name then i else FirstEqual(names, name, i + 1)
  }

  /** The used slots after hiding name: plotting is switched off on the first equal slot only. */
  function Hidden(names: seq<EvSelect>, name: string): (r: seq<EvSelect>)
    ensures |r| == |names|
  {
    var k := FirstEqual(names, name, 0);
    if k < |names| then names[k := names[k].(plotEv := false)] else names
  }

  /** The used slots after unhiding: plotting is on everywhere. */
  function Shown(names: seq<EvSelect>): (r: seq<EvSelect>)
    ensures |r| == |names|
  {
    seq(|names|, k requires 0 <= k < |names| => names[k].(plotEv := true))
  }

  /**
   * The test of plot_one_event: the first slot whose name equals the
   * event's decides; a name without a slot is plotted.
   */
  function PlotEnabled(names: seq<EvSelect>, name: string): (b: bool)
    ensures (exists i :: 0 <= i < |names| && names[i].name == name) || b
  {
    var k := FirstEqual(names, name, 0);
    k == |names| || names[k].plotEv
  }

  /**
   * Hiding a name switches off exactly the first slot holding it, leaves
   * every name and every other flag alone, and stops that name from being
   * plotted.
   */
  lemma HiddenHidesOnlyFirst(names: seq<EvSelect>, name: string)
    ensures var r := Hidden(names, name); var k := FirstEqual(names, name, 0);
      (forall j :: 0 <= j < |names| ==> r[j].name == names[j].name) &&
      (forall j :: 0 <= j < |names| && j != k ==> r[j] == names[j]) &&
      (k < |names| ==> !r[k].plotEv) &&
      ((exists i :: 0 <= i < |names| && names[i].name == name) ==> !PlotEnabled(r, name))
  {
    var r := Hidden(names, name);
    var k := FirstEqual(names, name, 0);
    if exists i :: 0 <= i < |names| && names[i].name == name {
      var i :| 0 <= i < |names| && names[i].name == name;
      assert k <= i;
      FirstEqualSameNames(names, r, name, 0);
    }
  }

  /** FirstEqual only looks at names. */
  lemma {:induction false} FirstEqualSameNames(a: seq<EvSelect>, b: seq<EvSelect>, name: string, i: nat)
    requires |a| == |b| && i <= |a|
    requires forall j :: 0 <= j < |a| ==> a[j].name == b[j].name
    ensures FirstEqual(a, name, i) == FirstEqual(b, name, i)
    decreases |a| - i
  {
    if i < |a| && a[i].name != name {
      FirstEqualSameNames(a, b, name, i + 1);
    }
  }

  /** Unhiding keeps every name and makes every name plotted again. */
  lemma ShownPlotsAll(names: seq<EvSelect>, name: string)
    ensures forall j :: 0 <= j < |names| ==> Shown(names)[j].name == names[j].name
    ensures PlotEnabled(Shown(names), name)
  {
  }

  /** The global table. */
  class EventTable {
    /** Every slot written so far; those at and past used are stale. */
    var table: seq<EvSelect>
    /** evn_used */
    var used: nat
    /** evn_allocated, grown in steps of 10 */
    var allocation: nat

    ghost predicate Valid()
      reads this
    {
      used <= |table| <= allocation && allocation % 10 == 0
    }

    /** The slots in use. */
    function Names(): seq<EvSelect>
      reads this
      requires used <= |table|
    {
      table[..used]
    }

    constructor ()
      ensures Valid() && used == 0 && table == [] && allocation == 0
    {
      table, used, allocation := [], 0, 0;
    }

    /** clear_events: forget every name; the slots and the allocation stay. */
    method Clear()
      requires Valid()
      modifies this
      ensures Valid() && used == 0 && table == old(table) && allocation == old(allocation)
    {
      used := 0;
    }

    /**
     * remember_event: add a nonempty name unless some used slot starts
     * with it; the allocation grows by 10 slots when it is full.  The
     * realloc never fails here.
     */
    method Remember(name: string)
      requires Valid()
      modifies this
      ensures Valid()
      ensures Names() == Remembered(old(Names()), name)
      ensures old(Names()) == Names() ==> table == old(table) && allocation == old(allocation)
      ensures old(Names()) != Names() ==>
        table == (if old(used) < old(|table|) then old(table)[old(used) := EvSelect(name, true)] else old(table) + [EvSelect(name, true)]) &&
        allocation == (if old(used) == old(allocation) then old(allocation) + 10 else old(allocation))
    {
      if name == [] {
        return;
      }
      var i := 0;
      while i < used
        invariant 0 <= i <= used
        invariant table == old(table) && used == old(used) && allocation == old(allocation)
        invariant forall k :: 0 <= k < i ==> !IsPrefix(name, table[k].name)
        decreases used - i
      {
        if IsPrefix(name, table[i].name) {
          assert KnownIn(Names(), name) by { assert Names()[i] == table[i]; }
          return;
        }
        i := i + 1;
      }
      assert !KnownIn(Names(), name) by {
        forall k | 0 <= k < |Names()| ensures !IsPrefix(name, Names()[k].name) {
          assert Names()[k] == table[k];
        }
      }
      if used == allocation {
        allocation := allocation + 10;
      }
      var e := EvSelect(name, true);
      if used < |table| {
        table := table[used := e];
      } else {
        table := table + [e];
      }
      used := used + 1;
    }

    /** The hide action: switch off the first used slot whose name equals name. */
    method Hide(name: string)
      requires Valid()
      modifies this
      ensures Valid() && used == old(used) && allocation == old(allocation)
      ensures Names() == Hidden(old(Names()), name)
      ensures table[used..] == old(table[used..])
    {
      ghost var names := Names();
      var i := 0;
      while i < used
        invariant 0 <= i <= used
        invariant table == old(table) && used == old(used) && allocation == old(allocation)
        invariant forall k :: 0 <= k < i ==> table[k].name != name
        invariant FirstEqual(names, name, 0) == FirstEqual(names, name, i)
        decreases used - i
      {
        if table[i].name == name {
          assert FirstEqual(names, name, i) == i;
          table := table[i := table[i].(plotEv := false)];
          assert Names() == Hidden(names, name);
          return;
        }
        i := i + 1;
      }
      assert FirstEqual(names, name, used) == used;
    }

    /** The unhide action: switch plotting on for every used slot. */
    method UnhideAll()
      requires Valid()
      modifies this
      ensures Valid() && used == old(used) && allocation == old(allocation)
      ensures Names() == Shown(old(Names()))
      ensures table[used..] == old(table[used..])
    {
      var i := 0;
      while i < used
        invariant 0 <= i <= used && |table| == old(|table|)
        invariant used == old(used) && allocation == old(allocation)
        invariant forall k :: 0 <= k < i ==> table[k] == old(table[k]).(plotEv := true)
        invariant forall k :: i <= k < |table| ==> table[k] == old(table[k])
        decreases used - i
      {
        table := table[i := table[i].(plotEv := true)];
        i := i + 1;
      }
    }
  }
}
