/**
 * Shared helpers: an Option type, the C integer operations the profile code
 * relies on (truncating division, unsigned reinterpretation) and the header
 * constants it uses.
 */
module Common {

  datatype Option<T> = None | Some(value: T)

  /** INT_MAX of a 32-bit int. */
  const IntMax: int := 0x7FFF_FFFF

  /** Number of cylinder slots of a dive and of every plot entry (MAX_CYLINDERS). */
  const MaxCylinders: nat := 8

  /** Depth in mm below which a sample counts as "at the surface" (SURFACE_THRESHOLD). */
  const SurfaceThreshold: int := 750

  function Abs(x: int): (r: nat)
    ensures r == x || r == -x
  {
    if x < 0 then -x else x
  }

  function Min(a: int, b: int): (r: int)
    ensures r <= a && r <= b && (r == a || r == b)
  {
    if a <= b then a else b
  }

  function Max(a: int, b: int): (r: int)
    ensures r >= a && r >= b && (r == a || r == b)
  {
    if a >= b then a else b
  }

  /**
   * The C operator `/` on int: the quotient truncated toward zero.  Its
   * magnitude is the floor of |n|/|d| and a nonzero quotient has the sign of n*d.
   */
  function TruncDiv(n: int, d: int): (q: int)
    requires d != 0
    ensures Abs(q) == Abs(n) / Abs(d)
    ensures q > 0 ==> (n > 0) == (d > 0)
    ensures q < 0 ==> (n > 0) != (d > 0)
  {
    var m := Abs(n) / Abs(d);
    ZeroOver(Abs(n), Abs(d));
    if (n >= 0) == (d > 0) then m else -m
  }

  lemma ZeroOver(a: nat, b: nat)
    requires b > 0
    ensures a / b >= 0 && (a == 0 ==> a / b == 0)
  {
  }

  lemma DivBounds(a: nat, b: int)
    requires b > 0
    ensures (a / b) * b <= a < (a / b + 1) * b
  {
    assert a == (a / b) * b + a % b;
    assert (a / b + 1) * b == (a / b) * b + b;
  }

  lemma MulMonotone(x: int, y: int, d: int)
    requires x <= y && d > 0
    ensures x * d <= y * d
  {
    assert y * d == x * d + (y - x) * d;
  }

  /** Multiplying by a non-negative factor keeps the order. */
  lemma MulLe(x: int, y: int, d: int)
    requires x <= y && d >= 0
    ensures d * x <= d * y
  {
    assert d * y == d * x + d * (y - x);
    MulNonneg(d, y - x);
  }

  lemma MulNonneg(x: int, y: int)
    requires x >= 0 && y >= 0
    ensures x * y >= 0
  {
  }

  /** For a non-negative numerator and positive divisor C and Dafny division agree. */
  lemma TruncDivNonneg(n: int, d: int)
    requires n >= 0 && d > 0
    ensures TruncDiv(n, d) == n / d
  {
  }

  /** Truncating division by a positive divisor is monotone in the numerator. */
  lemma {:induction false} TruncDivMonotone(n1: int, n2: int, d: int)
    requires d > 0 && n1 <= n2
    ensures TruncDiv(n1, d) <= TruncDiv(n2, d)
  {
    if n1 >= 0 {
      DivMonotone(n1, n2, d);
    } else if n2 < 0 {
      DivMonotone(-n2, -n1, d);
    }
  }

  lemma DivMonotone(a: nat, b: nat, d: int)
    requires d > 0 && a <= b
    ensures a / d <= b / d
  {
    DivBounds(a, d);
    DivBounds(b, d);
    if a / d > b / d {
      MulMonotone(b / d + 1, a / d, d);
    }
  }

  /** A numerator within [lo*d, (hi+1)*d) gives a truncated quotient within [lo, hi]. */
  lemma Quotient(n: int, d: int, lo: nat, hi: nat)
    requires d > 0 && lo * d <= n < (hi + 1) * d
    ensures lo <= TruncDiv(n, d) <= hi
  {
    MulNonneg(lo, d);
    TruncDivNonneg(n, d);
    DivBounds(n, d);
    if n / d < lo {
      MulMonotone(n / d + 1, lo, d);
    }
    if n / d > hi {
      MulMonotone(hi + 1, n / d, d);
    }
  }

  /** An int reinterpreted as a 32-bit unsigned value, as C does when comparing with unsigned. */
  function Unsigned(x: int): (r: nat)
    ensures r < 0x1_0000_0000
    ensures 0 <= x < 0x1_0000_0000 ==> r == x
  {
    x % 0x1_0000_0000
  }

  /**
   * The result of an int operation that leaves the 32-bit range, wrapped
   * into it the way two's-complement hardware does.
   */
  function Wrap32(x: int): (r: int)
    ensures -0x8000_0000 <= r <= IntMax
    ensures Unsigned(r) == Unsigned(x)
    ensures -0x8000_0000 <= x <= IntMax ==> r == x
  {
    var u := Unsigned(x);
    if u > IntMax then u - 0x1_0000_0000 else u
  }

  /** ~0u */
  const UnsignedMax: int := 0xFFFF_FFFF

  /** Decimal text of an int, as QString::arg and printf("%d") produce it. */
  function IntToString(n: int): (s: string)
    ensures |s| > 0
    ensures n < 0 <==> s[0] == '-'
    ensures s[0] == '-' || '0' <= s[0] <= '9'
    ensures forall i :: 1 <= i < |s| ==> '0' <= s[i] <= '9'
    decreases Abs(n)
  {
    if n < 0 then "-" + NatToString(-n) else NatToString(n)
  }

  function NatToString(n: nat): (s: string)
    ensures |s| > 0
    ensures forall i :: 0 <= i < |s| ==> '0' <= s[i] <= '9'
  {
    if n < 10 then [Digit(n)] else NatToString(n / 10) + [Digit(n % 10)]
  }

  function Digit(d: nat): (c: char)
    requires d < 10
    ensures '0' <= c <= '9' && c as int - '0' as int == d
  {
    ('0' as int + d) as char
  }

  /** Reads back a decimal produced by NatToString. */
  function ParseNat(s: string): (n: nat)
    requires forall i :: 0 <= i < |s| ==> '0' <= s[i] <= '9'
  {
    if s == [] then 0 else ParseNat(s[..|s| - 1]) * 10 + (s[|s| - 1] as int - '0' as int)
  }

  function ParseInt(s: string): (n: int)
    requires |s| > 0
    requires forall i :: 1 <= i < |s| ==> '0' <= s[i] <= '9'
    requires s[0] == '-' || '0' <= s[0] <= '9'
  {
    if s[0] == '-' then -(ParseNat(s[1..]) as int) else ParseNat(s)
  }

  lemma {:induction false} NatToStringRoundTrip(n: nat)
    ensures ParseNat(NatToString(n)) == n
  {
    if n >= 10 {
      var s := NatToString(n);
      assert s[..|s| - 1] == NatToString(n / 10);
      NatToStringRoundTrip(n / 10);
    }
  }

  /** Printing an int in decimal loses nothing: reading it back gives the same int. */
  lemma IntToStringRoundTrip(n: int)
    ensures ParseInt(IntToString(n)) == n
  {
    if n < 0 {
      assert IntToString(n)[1..] == NatToString(-n);
      NatToStringRoundTrip(-n);
    } else {
      NatToStringRoundTrip(n);
    }
  }
}
