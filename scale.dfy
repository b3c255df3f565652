/**
 * Plot scaling helpers: the time and depth extents a profile is drawn to
 * (get_maxtime, get_maxdepth and the ROUND_UP / DIV_UP macros).
 */
module Scale {
  import opened Common

  /** DIV_UP(x, y) on non-negative operands. */
  function DivUp(x: nat, y: nat): (r: nat)
    requires y > 0
    ensures r * y >= x && (r == 0 || (r - 1) * y < x)
  {
    var q := (x + y - 1) / y;
    DivBounds(x + y - 1, y);
    MulBelow(q, y);
    assert (q + 1) * y == q * y + y;
    q
  }

  lemma MulBelow(r: nat, y: int)
    requires y > 0
    ensures (r - 1) * y == r * y - y
  {
  }

  /** ROUND_UP(x, y): the least multiple of y that is at least x. */
  function RoundUp(x: nat, y: nat): (r: nat)
    requires y > 0
    ensures r == DivUp(x, y) * y && x <= r < x + y
  {
    var q := DivUp(x, y);
    MulBelow(q, y);
    q * y
  }

  /**
   * get_maxtime: the time extent of the plot.  Not zoomed it is at least
   * 30 minutes and leaves 150 s after the dive, on a 5-minute grid; zoomed it
   * leaves a quarter of the dive, at most 150 s, on a 1-minute grid.
   * Both are the least value with these properties.
   */
  function MaxTime(maxtime: nat, zoomed: bool): (r: int)
    ensures zoomed ==> r % 60 == 0
    ensures zoomed ==> maxtime + Min(maxtime / 4, 150) <= r < maxtime + Min(maxtime / 4, 150) + 60
    ensures !zoomed ==> r >= 1800 && r % 300 == 0 && r >= maxtime + 150
    ensures !zoomed ==> r == 1800 || r < maxtime + 150 + 300
  {
    if zoomed then
      if maxtime < 600 then RoundUp(maxtime + maxtime / 4, 60) else RoundUp(maxtime + 150, 60)
    else
      Max(30 * 60, RoundUp(maxtime + 150, 60 * 5))
  }

  lemma MaxTimeExamples()
    ensures MaxTime(1500, false) == 1800
    ensures MaxTime(5400, false) == 5700
    ensures MaxTime(400, true) == 540
  {
  }

  /**
   * get_maxdepth without its partial-pressure term: the depth extent of the
   * plot, on a 10 m grid with at least 3 m below the deepest point, and at
   * least 30 m when not zoomed.
   */
  function MaxDepth(maxdepth: nat, zoomed: bool): (r: int)
    ensures r % 10000 == 0 && r >= maxdepth + 3000
    ensures zoomed ==> r < maxdepth + 13000
    ensures !zoomed ==> r >= 30000 && (r == 30000 || r < maxdepth + 13000)
  {
    if zoomed then RoundUp(maxdepth + 3000, 10000)
    else Max(30000, RoundUp(maxdepth + 3000, 10000))
  }
}
