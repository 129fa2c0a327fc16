/**
 * Circular arithmetic on ecliptic longitudes (degrees): the floor modulo
 * used throughout the chart code, the 1-based Sabian degree index, the
 * 8th-harmonic transform and the shortest-arc midpoint ("halfsum").
 *
 * Longitudes are exact reals; the floating-point rounding of the program
 * is not modelled.
 */
module Circle {

  /** `x % 360` on a float with a positive divisor: the floor modulo, so the
      result is never negative, even for a negative `x`. */
  function Mod360(x: real): (r: real)
    ensures 0.0 <= r < 360.0
    ensures ((x - r) / 360.0).Floor as real == (x - r) / 360.0
  {
    var k := (x / 360.0).Floor;
    assert (x - (x - 360.0 * k as real)) / 360.0 == k as real;
    x - 360.0 * k as real
  }

  /** The remainder is the only value in [0, 360) that differs from `x` by a
      whole number of turns. */
  lemma Mod360Unique(x: real, k: int)
    requires 0.0 <= x - 360.0 * k as real < 360.0
    ensures Mod360(x) == x - 360.0 * k as real
  {
    var f := (x / 360.0).Floor;
    assert f as real <= x / 360.0 < f as real + 1.0;
    assert k as real <= x / 360.0 < k as real + 1.0;
    assert f == k;
  }

  /** Shifting by whole turns does not change the remainder. */
  lemma Mod360Periodic(x: real, k: int)
    ensures Mod360(x + 360.0 * k as real) == Mod360(x)
  {
    var f := (x / 360.0).Floor;
    Mod360Unique(x + 360.0 * k as real, f + k);
  }

  /** A value already in [0, 360) is its own remainder. */
  lemma Mod360OfNormal(x: real)
    requires 0.0 <= x < 360.0
    ensures Mod360(x) == x
  {
    Mod360Unique(x, 0);
  }

  /** `get_sabian_degree`: `int(d % 360) + 1`. `int` truncates toward zero,
      which is the floor here because the remainder is never negative. */
  function SabianDegree(d: real): (n: int)
    ensures 1 <= n <= 360
    ensures (n - 1) as real <= Mod360(d) < n as real
  {
    Mod360(d).Floor + 1
  }

  /** The Sabian degree depends only on the position on the circle. */
  lemma {:induction false} SabianDegreePeriodic(d: real, k: int)
    ensures SabianDegree(d + 360.0 * k as real) == SabianDegree(d)
  {
    Mod360Periodic(d, k);
  }

  /** For a longitude in [0, 360) the index is its whole-degree part plus one:
      0 <= d < 1 is degree 1, 359 <= d < 360 is degree 360. */
  lemma SabianDegreeOfNormal(d: real, n: int)
    requires 0.0 <= d < 360.0
    requires (n - 1) as real <= d < n as real
    ensures SabianDegree(d) == n
  {
    Mod360OfNormal(d);
  }

  /** The 8th-harmonic longitude `(x * 8) % 360`. */
  function Harmonic8(x: real): (h: real)
    ensures 0.0 <= h < 360.0
    ensures ((8.0 * x - h) / 360.0).Floor as real == (8.0 * x - h) / 360.0
  {
    Mod360(x * 8.0)
  }

  /** The 8th harmonic repeats every 45 degrees: eight times 45 is a whole turn. */
  lemma {:induction false} Harmonic8Period45(x: real)
    ensures Harmonic8(x + 45.0) == Harmonic8(x)
  {
    assert (x + 45.0) * 8.0 == x * 8.0 + 360.0 * 1 as real;
    Mod360Periodic(x * 8.0, 1);
  }

  /** The Sabian degree of an 8th-harmonic longitude is a valid table index
      and repeats every 45 degrees of the underlying longitude. */
  lemma {:induction false} Harmonic8Degree(x: real)
    ensures 1 <= SabianDegree(Harmonic8(x)) <= 360
    ensures SabianDegree(Harmonic8(x + 45.0)) == SabianDegree(Harmonic8(x))
  {
    Harmonic8Period45(x);
  }

  function Abs(x: real): real {
    if x < 0.0 then -x else x
  }

  /** `calculate_midpoint`: the midpoint on the shorter arc. A difference of
      exactly 180 degrees takes the branch without the half-turn offset. */
  function Midpoint(p1: real, p2: real): (m: real)
    ensures 0.0 <= m < 360.0
  {
    var diff := Abs(p1 - p2);
    var mid := if diff <= 180.0 then (p1 + p2) / 2.0 else (p1 + p2) / 2.0 + 180.0;
    Mod360(mid)
  }

  /** The midpoint does not depend on the order of its arguments. */
  lemma MidpointSymmetric(a: real, b: real)
    ensures Midpoint(a, b) == Midpoint(b, a)
  {
  }

  /** The angular distance between two longitudes, measured along the
      shorter way round the circle: always in [0, 180]. */
  function CircDist(x: real, y: real): (d: real)
    ensures 0.0 <= d <= 180.0
  {
    var r := Mod360(x - y);
    if r <= 180.0 then r else 360.0 - r
  }

  /** The circular distance of two values less than a turn apart, by their
      plain difference. */
  lemma CircDistOfDiff(x: real, y: real)
    requires Abs(x - y) < 360.0
    ensures CircDist(x, y) == if Abs(x - y) <= 180.0 then Abs(x - y) else 360.0 - Abs(x - y)
  {
    if x - y >= 0.0 {
      Mod360OfNormal(x - y);
    } else {
      Mod360Unique(x - y, -1);
    }
  }

  /** The circular distance is symmetric. */
  lemma {:induction false} CircDistSymmetric(x: real, y: real)
    ensures CircDist(x, y) == CircDist(y, x)
  {
    var k := ((x - y) / 360.0).Floor;
    var r := x - y - 360.0 * k as real;
    Mod360Unique(x - y, k);
    if r == 0.0 {
      Mod360Unique(y - x, -k);
    } else {
      Mod360Unique(y - x, -k - 1);
    }
  }

  /** For longitudes in [0, 360), the midpoint lies on the shorter arc between
      them: it is equally far from both ends, and each half is exactly half
      the arc, hence at most 90 degrees. */
  lemma {:induction false} MidpointOnShorterArc(a: real, b: real)
    requires 0.0 <= a < 360.0 && 0.0 <= b < 360.0
    ensures CircDist(a, Midpoint(a, b)) == CircDist(Midpoint(a, b), b) == CircDist(a, b) / 2.0
    ensures CircDist(a, Midpoint(a, b)) <= 90.0
  {
    var m := Midpoint(a, b);
    CircDistOfDiff(a, b);
    if Abs(a - b) <= 180.0 {
      Mod360OfNormal((a + b) / 2.0);
    } else if (a + b) / 2.0 + 180.0 < 360.0 {
      Mod360OfNormal((a + b) / 2.0 + 180.0);
    } else {
      Mod360Unique((a + b) / 2.0 + 180.0, 1);
    }
    CircDistOfDiff(a, m);
    CircDistOfDiff(m, b);
  }

  /** The worked values: an ordinary pair, a pair straddling 0 (the
      midpoint wraps through 0, not 180), and two 180-degree ties. */
  lemma MidpointExamples()
    ensures Midpoint(10.0, 20.0) == 15.0
    ensures Midpoint(350.0, 10.0) == 0.0
    ensures Midpoint(0.0, 180.0) == 90.0
    ensures Midpoint(280.0, 100.0) == 190.0
  {
    Mod360OfNormal(15.0);
    Mod360Unique(360.0, 1);
    Mod360OfNormal(90.0);
    Mod360OfNormal(190.0);
  }

  /** Outside [0, 360) the shorter-arc reading fails: 710 is the point 350,
      whose shorter-arc midpoint with 0 is 355, yet the formula gives 175,
      which is 175 degrees from 0 rather than 5. */
  lemma MidpointOutsideTurn()
    ensures Midpoint(0.0, 710.0) == 175.0
    ensures Mod360(710.0) == 350.0 && Midpoint(0.0, 350.0) == 355.0
    ensures CircDist(0.0, Midpoint(0.0, 710.0)) == 175.0
  {
    Mod360Unique(535.0, 1);
    Mod360Unique(710.0, 1);
    Mod360OfNormal(355.0);
    CircDistOfDiff(0.0, 175.0);
  }
}
