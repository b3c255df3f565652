/**
 * The records the profile pipeline works on: raw samples, events, the
 * configured cylinders and the densified plot entries.
 */
module PlotData {
  import opened Common

  /**
   * How a cylinder slot is used at one plot entry (cylinder_segment_use_t).
   * The calloc'd value 0 of a fresh entry is taken to be NotInUse.
   */
  datatype Usage = NotInUse | OC | CCRO2 | CCRDiluent

  /** Vertical velocity class (velocity_t), in the order of its enum. */
  datatype Velocity = Stable | Slow | Moderate | Fast | Crazy

  /** The enum value of a velocity class; the source compares classes by it. */
  function Rank(v: Velocity): (r: nat)
    ensures r <= 4
    ensures v == Stable <==> r == 0
  {
    match v
    case Stable => 0
    case Slow => 1
    case Moderate => 2
    case Fast => 3
    case Crazy => 4
  }

  /**
   * The per-cylinder part of a plot entry: its usage, the sensor pressure
   * (0 = unknown), the interpolated pressure, the pressure-time of the step
   * that ends here and the local SAC rate.
   */
  datatype CylState = CylState(usage: Usage, sensor: int, interpolated: int, pressureTime: int, sac: int)

  const ZeroCyl: CylState := CylState(NotInUse, 0, 0, 0, 0)

  /** One rolling min/max/avg depth window: indices of the min and max entries and the mean. */
  datatype Window = Window(min: nat, max: nat, avg: int)

  /** Number of rolling windows per entry (90, 180 and 270 seconds). */
  const WindowCount: nat := 3

  /**
   * One densified time step (struct plot_data) restricted to its integer
   * fields.  po2 keeps the sample's integer value; the source divides it by
   * 1000 into a double.
   */
  datatype PlotEntry = PlotEntry(
    sec: int,
    depth: int,
    temperature: int,
    stopdepth: int,
    stoptime: int,
    ndl: int,
    inDeco: bool,
    cns: int,
    po2: int,
    smoothed: int,
    speed: int,
    velocity: Velocity,
    cyl: seq<CylState>,
    windows: seq<Window>)

  /** A calloc'd plot entry: every field zero. */
  const ZeroEntry: PlotEntry :=
    PlotEntry(0, 0, 0, 0, 0, 0, false, 0, 0, 0, 0, Stable,
              [ZeroCyl, ZeroCyl, ZeroCyl, ZeroCyl, ZeroCyl, ZeroCyl, ZeroCyl, ZeroCyl],
              [Window(0, 0, 0), Window(0, 0, 0), Window(0, 0, 0)])

  predicate WellFormed(e: PlotEntry) {
    |e.cyl| == MaxCylinders && |e.windows| == WindowCount
  }

  predicate AllWellFormed(s: seq<PlotEntry>) {
    forall k :: 0 <= k < |s| ==> WellFormed(s[k])
  }

  /** Entry times never decrease. */
  predicate SortedBySec(s: seq<PlotEntry>) {
    forall j, k :: 0 <= j < k < |s| ==> s[j].sec <= s[k].sec
  }

  /** One raw dive-computer sample (struct sample). */
  datatype Sample = Sample(
    time: int,
    depth: int,
    temperature: int,
    cylinderPressure: int,
    sensor: nat,
    stopdepth: int,
    stoptime: int,
    ndl: int,
    inDeco: bool,
    cns: int,
    po2: int)

  /**
   * One configured cylinder, as far as the profile code looks at it: the
   * values of the helpers cylinder_nodata, get_o2 and get_he for it (taken as
   * given, so they stand for any implementation of those helpers), and its
   * manual and sample-derived start and end pressures in mbar.
   */
  datatype CylinderInfo = CylinderInfo(
    nodata: bool,
    o2: int,
    he: int,
    start: int,
    end: int,
    sampleStart: int,
    sampleEnd: int)

  /**
   * One event of a dive computer (struct event).  Events are list nodes, so
   * they are objects: two events are the same node only if they are the same
   * reference, and their contents never change.
   */
  class Event {
    const time: int
    const name: string
    const value: int
    const evType: int
    const flags: int

    constructor (time: int, name: string, value: int, evType: int, flags: int)
      ensures this.time == time && this.name == name && this.value == value
      ensures this.evType == evType && this.flags == flags
    {
      this.time := time;
      this.name := name;
      this.value := value;
      this.evType := evType;
      this.flags := flags;
    }
  }
}
