/**
 * Choosing which dive computer of a dive to plot: nr_dcs counts the
 * computer list, select_dc picks entry dc_number of it, counting a
 * negative number from the end, and resets dc_number when it is past the
 * end of the list.
 */
module DcSelect {
  import opened Common

  /** The index select_dc walks to: a negative number is raised by whole list lengths. */
  function Normalised(x: int, n: nat): (i: int)
    requires n >= 1
    ensures x >= 0 ==> i == x
    ensures x < 0 ==> 0 <= i < n
  {
    if x < 0 then x % n else x
  }

  /**
   * The position of the computer select_dc returns: dc_number itself when
   * it is a position of the list, counted from the end when negative, and
   * the first computer past the end.
   */
  function Selected(x: int, n: nat): (i: nat)
    requires n >= 1
    ensures i < n
    ensures 0 <= x < n ==> i == x
    ensures x >= n ==> i == 0
  {
    var k := Normalised(x, n);
    if k < n then k else 0
  }

  /** -1 is the last computer, -n the first. */
  lemma SelectedFromEnd(x: int, n: nat)
    requires n >= 1 && 0 <= n + x && x < 0
    ensures Selected(x, n) == n + x
  {
    DivModUnique(x, n, -1, n + x);
  }

  /** Any negative number wraps round the list: x - n picks the same computer as x. */
  lemma SelectedWraps(x: int, n: nat)
    requires n >= 1 && x < 0
    ensures Selected(x - n, n) == Selected(x, n)
  {
    DivModUnique(x, n, x / n, x % n);
    DivModUnique(x - n, n, x / n - 1, x % n);
  }

  /** nr_dcs: walk the list from the first computer and count. */
  method NrDcs<T>(dcs: seq<T>) returns (n: nat)
    requires |dcs| >= 1
    ensures n == |dcs|
  {
    n := 1;
    var k := 0;
    while k + 1 < |dcs|
      invariant 0 <= k < |dcs| && n == k + 1
      decreases |dcs| - k
    {
      k := k + 1;
      n := n + 1;
    }
  }

  /** The global dc_number. */
  class DcSelector {
    var dcNumber: int

    constructor (dcNumber: int)
      ensures this.dcNumber == dcNumber
    {
      this.dcNumber := dcNumber;
    }

    /**
     * select_dc over the computer list dcs (never empty: the dive's own
     * computer is its first entry): the position of the computer returned,
     * with dc_number reset to 0 when it pointed past the end.
     */
    method SelectDc<T>(dcs: seq<T>) returns (idx: nat)
      requires |dcs| >= 1
      modifies this
      ensures idx == Selected(old(dcNumber), |dcs|)
      ensures dcNumber == if old(dcNumber) >= |dcs| then 0 else old(dcNumber)
    {
      var x := dcNumber;
      var i := x;
      ghost var laps: nat := 0;
      while i < 0
        invariant i == x + laps * |dcs| && dcNumber == x
        invariant x < 0 ==> i < |dcs|
        invariant x >= 0 ==> i == x
        decreases -i
      {
        var n := NrDcs(dcs);
        i := i + n;
        laps := laps + 1;
      }
      assert i == Normalised(x, |dcs|) by {
        if x < 0 {
          assert (-(laps as int)) * |dcs| == -(laps * |dcs|);
          DivModUnique(x, |dcs|, -(laps as int), i);
        }
      }
      var k := 0;
      while true
        invariant 0 <= k < |dcs| && i == Normalised(x, |dcs|) - k && dcNumber == x
        decreases |dcs| - k
      {
        i := i - 1;
        if i < 0 {
          return k;
        }
        if k + 1 == |dcs| {
          break;
        }
        k := k + 1;
      }
      dcNumber := 0;
      idx := 0;
    }
  }

  /** Dafny's division and remainder are determined by q * n + r with 0 <= r < n. */
  lemma DivModUnique(y: int, n: nat, q: int, r: int)
    requires n >= 1 && 0 <= r < n && y == q * n + r
    ensures y / n == q && y % n == r
  {
    var d := y / n - q;
    assert d * n == r - y % n;
    if d >= 1 {
      assert d * n == (d - 1) * n + n;
      MulNonneg(d - 1, n);
    } else if d <= -1 {
      assert d * n == -((-d - 1) * n) - n;
      MulNonneg(-d - 1, n);
    }
  }
}
