/**
  Numeric building blocks shared by the simulator and the navigation script:
  Python's `round` and float `%`, absolute values, and the trigonometric
  library (numpy's sin, cos, sqrt and arctan2), which is passed around as a
  value because the model does not compute it.
 */
module Numerics {

  function Abs(x: real): (r: real)
    ensures r >= 0.0 && (r == x || r == -x)
  {
    if x < 0.0 then -x else x
  }

  function AbsInt(n: int): (r: int)
    ensures r >= 0 && (r == n || r == -n)
  {
    if n < 0 then -n else n
  }

  /** Python's `min` on integers, as in the obstacle count. */
  function Min(a: int, b: int): (r: int)
    ensures r <= a && r <= b && (r == a || r == b)
  {
    if a <= b then a else b
  }

  /** Python's `min` on floats, as in the nearest-wall distance; Dafny has
      no generic ordering, so the real version is a separate function. */
  function MinReal(a: real, b: real): (r: real)
    ensures r <= a && r <= b && (r == a || r == b)
  {
    if a <= b then a else b
  }

  /** A real number with no fractional part. */
  predicate IsIntegral(x: real) {
    x.Floor as real == x
  }

  /** Python's built-in `round` applied to a float: the nearest integer,
      ties going to the even neighbour. */
  function Round(x: real): int {
    var f := x.Floor;
    var frac := x - f as real;
    if frac < 0.5 then f
    else if frac > 0.5 then f + 1
    else if f % 2 == 0 then f
    else f + 1
  }

  /** Round gives a nearest integer, and the even one on a tie. */
  lemma RoundNearest(x: real)
    ensures Abs(Round(x) as real - x) <= 0.5
    ensures Abs(Round(x) as real - x) == 0.5 ==> Round(x) % 2 == 0
  {
  }

  /** The two properties in RoundNearest single out one integer. */
  lemma RoundUnique(x: real, n: int)
    requires Abs(n as real - x) <= 0.5
    requires Abs(n as real - x) == 0.5 ==> n % 2 == 0
    ensures n == Round(x)
  {
    RoundNearest(x);
    var m := Round(x);
    if n != m {
      assert false;
    }
  }

  /** Rounding half to even is symmetric about zero. */
  lemma RoundNegates(x: real)
    ensures Round(-x) == -Round(x)
  {
    RoundNearest(x);
    var n := Round(x);
    assert Abs(-n as real - -x) == Abs(n as real - x);
    assert n % 2 == 0 ==> (-n) % 2 == 0;
    RoundUnique(-x, -n);
  }

  /** Rounding an integer-valued real gives that integer back. */
  lemma RoundIntegral(n: int)
    ensures Round(n as real) == n
  {
    RoundUnique(n as real, n);
  }

  /** Python's `x % m` on floats for a positive modulus: the result has the
      sign of the modulus and differs from x by a whole number of m. */
  function PyMod(x: real, m: real): (r: real)
    requires m > 0.0
    ensures 0.0 <= r < m
    ensures IsIntegral((x - r) / m)
  {
    var q := (x / m).Floor;
    FloorBounds(x, m, q);
    assert (x - (x - q as real * m)) / m == q as real;
    x - q as real * m
  }

  lemma FloorBounds(x: real, m: real, q: int)
    requires m > 0.0 && q == (x / m).Floor
    ensures q as real * m <= x < q as real * m + m
  {
    var v := x / m;
    assert v * m == x;
    assert q as real <= v < q as real + 1.0;
    MulMonotone(q as real, v, m);
    MulMonotoneStrict(v, q as real + 1.0, m);
    assert x < q as real * m + m;
    assert (q as real + 1.0) * m == q as real * m + m;
  }

  lemma MulMonotone(a: real, b: real, m: real)
    requires m > 0.0 && a <= b
    ensures a * m <= b * m
  {
  }

  lemma MulMonotoneStrict(a: real, b: real, m: real)
    requires m > 0.0 && a < b
    ensures a * m < b * m
  {
  }

  /** A remainder in [0, m) that differs from x by a whole number of m is
      the one Python computes. */
  lemma PyModUnique(x: real, m: real, r: real, k: int)
    requires m > 0.0 && 0.0 <= r < m
    requires x - r == k as real * m
    ensures r == PyMod(x, m)
  {
    var p := PyMod(x, m);
    var j := ((x - p) / m).Floor;
    QuotientTimes(x - p, m, j);
    SameRemainder(x, m, r, k, p, j);
  }

  /** Two remainders in [0, m) of the same x modulo m are equal. */
  lemma SameRemainder(x: real, m: real, r: real, k: int, p: real, j: int)
    requires m > 0.0 && 0.0 <= r < m && 0.0 <= p < m
    requires x - r == k as real * m && x - p == j as real * m
    ensures r == p
  {
    CloseMultiplesEqual(j, k, m, x - p, x - r);
  }

  /** Whole multiples jm and km of m that are less than m apart are the same
      multiple. */
  lemma CloseMultiplesEqual(j: int, k: int, m: real, jm: real, km: real)
    requires m > 0.0 && jm == j as real * m && km == k as real * m
    requires -m < jm - km < m
    ensures j == k
  {
    if j > k {
      MulMonotone(k as real + 1.0, j as real, m);
      MulAdd(k as real, 1.0, m);
    } else if j < k {
      MulMonotone(j as real + 1.0, k as real, m);
      MulAdd(j as real, 1.0, m);
    }
  }

  lemma QuotientTimes(a: real, m: real, j: int)
    requires m > 0.0 && IsIntegral(a / m) && j == (a / m).Floor
    ensures a == j as real * m
  {
    var v := a / m;
    assert v * m == a;
  }

  /** x differs from its remainder by a whole number of m. */
  lemma PyModMultiple(x: real, m: real) returns (j: int)
    requires m > 0.0
    ensures x - PyMod(x, m) == j as real * m
  {
    j := ((x - PyMod(x, m)) / m).Floor;
    QuotientTimes(x - PyMod(x, m), m, j);
  }

  /** Reducing before adding does not change the reduced sum. */
  lemma PyModAddReduced(x: real, d: real, m: real)
    requires m > 0.0
    ensures PyMod(PyMod(x, m) + d, m) == PyMod(x + d, m)
  {
    var p := PyMod(x, m);
    var j := ((x - p) / m).Floor;
    QuotientTimes(x - p, m, j);
    var s := PyMod(p + d, m);
    var i := ((p + d - s) / m).Floor;
    QuotientTimes(p + d - s, m, i);
    MulAdd(i as real, j as real, m);
    assert x + d - s == (i + j) as real * m;
    PyModUnique(x + d, m, s, i + j);
  }

  lemma MulAdd(a: real, b: real, m: real)
    ensures (a + b) * m == a * m + b * m
  {
  }

  /** A value already in [0, m) is its own remainder. */
  lemma PyModOfReduced(x: real, m: real)
    requires m > 0.0 && 0.0 <= x < m
    ensures PyMod(x, m) == x
  {
    PyModUnique(x, m, x, 0);
  }

  /**
    numpy's trigonometry in degrees (the simulator's own sin and cos helpers),
    its square root, and arctan2 converted to degrees. The model never
    evaluates them; it only uses the laws collected in Lawful.
   */
  datatype Trig = Trig(
    sin: real -> real,
    cos: real -> real,
    sqrt: real -> real,
    atan2: (real, real) -> real)

  /** The direction half a turn from `a`. */
  function HalfTurn(a: real): real {
    a + 180.0
  }

  /** The laws of sine and cosine (in degrees) the geometry relies on. */
  ghost predicate Lawful(t: Trig) {
    // sine and cosine stay within [-1, 1]
    && (forall a {:trigger t.sin(a)} :: -1.0 <= t.sin(a) <= 1.0)
    && (forall a {:trigger t.cos(a)} :: -1.0 <= t.cos(a) <= 1.0)
    // half a turn negates both
    && (forall a {:trigger t.sin(HalfTurn(a))} :: t.sin(HalfTurn(a)) == -t.sin(a))
    && (forall a {:trigger t.cos(HalfTurn(a))} :: t.cos(HalfTurn(a)) == -t.cos(a))
    // the values at the first two cardinal angles
    && t.sin(0.0) == 0.0 && t.cos(0.0) == 1.0
    && t.sin(90.0) == 1.0 && t.cos(90.0) == 0.0
  }

  /** Within one turn, sine vanishes only at 0 and 180 degrees and cosine
      only at 90 and 270, so the wall-distance divisions are defined. */
  ghost predicate ZeroLaw(t: Trig) {
    && (forall a {:trigger t.sin(a)} :: 0.0 <= a < 360.0 && a != 0.0 && a != 180.0 ==> t.sin(a) != 0.0)
    && (forall a {:trigger t.cos(a)} :: 0.0 <= a < 360.0 && a != 90.0 && a != 270.0 ==> t.cos(a) != 0.0)
  }

  /** The square root of a non-negative number is its non-negative root. */
  ghost predicate SqrtLaw(t: Trig) {
    forall v {:trigger t.sqrt(v)} :: v >= 0.0 ==> t.sqrt(v) >= 0.0 && t.sqrt(v) * t.sqrt(v) == v
  }

  /** Half a turn negates sine and cosine. */
  lemma HalfTurnNegates(t: Trig, a: real)
    requires Lawful(t)
    ensures t.sin(a + 180.0) == -t.sin(a) && t.cos(a + 180.0) == -t.cos(a)
  {
    assert t.sin(HalfTurn(a)) == -t.sin(a);
    assert t.cos(HalfTurn(a)) == -t.cos(a);
  }

  /** A full turn leaves sine and cosine unchanged. */
  lemma FullTurn(t: Trig, a: real)
    requires Lawful(t)
    ensures t.sin(a + 360.0) == t.sin(a) && t.cos(a + 360.0) == t.cos(a)
  {
    HalfTurnNegates(t, a);
    HalfTurnNegates(t, a + 180.0);
    assert a + 180.0 + 180.0 == a + 360.0;
  }
}
