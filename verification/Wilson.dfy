/** The Wilson score interval over exact reals (src/adequacy_calibration.py, `wilson_interval`).

    The square root is a witness: a nonnegative `root` whose square is the radicand. */
module Wilson {
  import opened Wrappers

  datatype ProportionInterval = ProportionInterval(k: int, n: int, point: real, low: real, high: real)

  function Share(k: int, n: int): real
    requires n > 0
  {
    k as real / n as real
  }

  function Denom(n: int, z: real): real
    requires n > 0
  {
    1.0 + z * z / n as real
  }

  function Centre(k: int, n: int, z: real): real
    requires n > 0 && Denom(n, z) != 0.0
  {
    (Share(k, n) + z * z / (2 * n) as real) / Denom(n, z)
  }

  function Radicand(k: int, n: int, z: real): real
    requires n > 0
  {
    Share(k, n) * (1.0 - Share(k, n)) / n as real + z * z / (4 * n * n) as real
  }

  predicate IsRoot(root: real, x: real) {
    root >= 0.0 && root * root == x
  }

  function MaxReal(x: real, y: real): real {
    if x >= y then x else y
  }

  function MinReal(x: real, y: real): real {
    if x <= y then x else y
  }

  lemma DenomPositive(n: int, z: real)
    requires n > 0
    ensures Denom(n, z) >= 1.0
  {
    assert z * z >= 0.0;
    assert z * z / n as real >= 0.0;
  }

  function Margin(n: int, z: real, root: real): real
    requires n > 0 && Denom(n, z) != 0.0
  {
    z / Denom(n, z) * root
  }

  function WilsonInterval(k: int, n: int, z: real, root: real): Option<ProportionInterval>
    requires n > 0 ==> IsRoot(root, Radicand(k, n, z))
  {
    if n <= 0 then None
    else
      DenomPositive(n, z);
      Some(ProportionInterval(k, n, Share(k, n),
                              MaxReal(0.0, Centre(k, n, z) - Margin(n, z, root)),
                              MinReal(1.0, Centre(k, n, z) + Margin(n, z, root))))
  }

  /** `x` passes the score test: the count is no further from its expectation `n * x` than `z` standard deviations,
      where the deviation is the one that `x` itself predicts. */
  predicate PassesScoreTest(k: int, n: int, z: real, x: real) {
    var off := k as real - n as real * x;
    off * off <= z * z * (n as real * (x * (1.0 - x)))
  }

  lemma SquareOfMultiple(m: real, y: real)
    ensures (m * y) * (m * y) == m * (m * (y * y))
  {
    assert (m * y) * (m * y) == m * (y * (m * y));
    assert y * (m * y) == m * (y * y);
  }

  lemma ProductPositive(x: real, y: real)
    requires x > 0.0 && y > 0.0
    ensures x * y > 0.0
  {
  }

  lemma QuotientUnique(q: real, e: real, t: real)
    requires e > 0.0 && t * e == q
    ensures q / e == t
  {
  }

  lemma LargerSquare(y: real, b: real)
    requires y > b >= 0.0
    ensures y * y > b * b
  {
    ProductPositive(y - b, y + b);
    assert (y - b) * (y + b) == y * y - b * b;
  }

  lemma SquareBound(y: real, b: real)
    requires b >= 0.0
    ensures y * y <= b * b <==> -b <= y <= b
  {
    if -b <= y <= b {
      assert (b - y) * (b + y) >= 0.0;
      assert (b - y) * (b + y) == b * b - y * y;
    } else if y > b {
      LargerSquare(y, b);
    } else {
      LargerSquare(-y, b);
      assert (-y) * (-y) == y * y;
    }
  }

  /** Multiplying an inequality by a positive factor. */
  lemma Scale(f: real, x: real, y: real)
    requires f > 0.0
    ensures f * x <= f * y <==> x <= y
  {
  }

  /** The algebra, with `u` for z*z/n: completing the square turns the score test into a distance bound. */
  lemma CompleteSquare(p: real, u: real, x: real)
    ensures
      var d, b := 1.0 + u, p + u / 2.0;
      (d * x - b) * (d * x - b) - (u * (p * (1.0 - p)) + u * u / 4.0)
      == d * ((p - x) * (p - x) - u * (x * (1.0 - x)))
  {
    var d, b := 1.0 + u, p + u / 2.0;
    var dx := d * x;
    calc {
      (dx - b) * (dx - b);
      dx * dx - 2.0 * (dx * b) + b * b;
    }
    assert b * b == p * p + p * u + u * u / 4.0;
    assert dx * dx == d * (d * (x * x));
    assert dx * b == d * (x * p + x * u / 2.0);
    assert d * (p * p) == p * p + u * (p * p);
    assert b * b - (u * (p * (1.0 - p)) + u * u / 4.0) == d * (p * p);
    assert d * (x * x) == x * x + u * (x * x);
  }

  /** The shared shorthand z*z/n. */
  function Spread(n: int, z: real): real
    requires n > 0
  {
    z * z / n as real
  }

  lemma SpreadFacts(k: int, n: int, z: real, root: real)
    requires n > 0 && IsRoot(root, Radicand(k, n, z))
    ensures
      var u, p := Spread(n, z), Share(k, n);
      && u >= 0.0
      && n as real * u == z * z
      && z * z / (2 * n) as real == u / 2.0
      && (z * root) * (z * root) == u * (p * (1.0 - p)) + u * u / 4.0
  {
    var u, p, m := Spread(n, z), Share(k, n), n as real;
    assert z * z >= 0.0;
    assert m * u == z * z;
    HalfOf(z * z, m);
    assert 4 * n * n > 0;
    var w, e := p * (1.0 - p), (4 * n * n) as real;
    assert e == 4.0 * m * m;
    QuarterOf(z * z, m, e);
    calc {
      (z * root) * (z * root);
      (z * z) * (root * root);
      (z * z) * (w / m + z * z / e);
      { Distribute(z * z, w, m, z * z / e); }
      u * w + u * u / 4.0;
    }
  }

  lemma HalfOf(q: real, m: real)
    requires m > 0.0
    ensures q / (2.0 * m) == q / m / 2.0
  {
    var r := q / m;
    assert r * m == q;
    assert (r / 2.0) * (2.0 * m) == q;
  }

  lemma QuarterOf(q: real, m: real, e: real)
    requires m > 0.0 && e > 0.0 && e == 4.0 * m * m
    ensures q * (q / e) == (q / m) * (q / m) / 4.0
  {
    var r := q / m;
    var v := r / m;
    assert v * m == r && r * m == q;
    QuarterProduct(q, m, r, v, e);
    QuotientUnique(q, e, v / 4.0);
    assert q * (v / 4.0) == (r * m) * v / 4.0 == r * (m * v) / 4.0;
  }

  lemma QuarterProduct(q: real, m: real, r: real, v: real, e: real)
    requires v * m == r && r * m == q && e == 4.0 * m * m
    ensures (v / 4.0) * e == q
  {
    assert (v / 4.0) * (4.0 * m) == r;
    assert (v / 4.0) * (4.0 * m * m) == ((v / 4.0) * (4.0 * m)) * m;
  }

  lemma Distribute(q: real, w: real, m: real, t: real)
    requires m > 0.0
    ensures q * (w / m + t) == (q / m) * w + q * t
  {
    var r, v := q / m, w / m;
    assert r * m == q && v * m == w;
    assert q * v == (r * m) * v == r * (m * v);
  }

  predicate PassesPerTrial(p: real, u: real, x: real) {
    (p - x) * (p - x) <= u * (x * (1.0 - x))
  }

  /** The score test divided by the square of n. */
  lemma ScoreTestPerTrial(k: int, n: int, z: real, x: real)
    requires n > 0
    ensures PassesScoreTest(k, n, z, x) <==> PassesPerTrial(Share(k, n), Spread(n, z), x)
  {
    var p, u, m := Share(k, n), Spread(n, z), n as real;
    var gap, room, off := (p - x) * (p - x), x * (1.0 - x), k as real - n as real * x;
    assert m * p == k as real && m * u == z * z;
    assert off == m * (p - x);
    SquareOfMultiple(m, p - x);
    MoveFactor(m, u, room);
    Scale(m, m * gap, m * (u * room));
    Scale(m, gap, u * room);
  }

  lemma MoveFactor(m: real, u: real, room: real)
    ensures (m * u) * (m * room) == m * (m * (u * room))
  {
    var v := m * room;
    assert (m * u) * v == m * (u * v);
    assert u * v == m * (u * room);
  }

  /** Dividing a bound on d*x - b by d. */
  lemma BoundAroundCentre(d: real, b: real, r: real, x: real)
    requires d > 0.0
    ensures -r <= d * x - b <= r <==> b / d - r / d <= x <= b / d + r / d
  {
    var c, m := b / d, r / d;
    assert d * c == b && d * m == r;
    assert d * (c - m) == b - r && d * (c + m) == b + r;
    Scale(d, c - m, x);
    Scale(d, x, c + m);
  }

  lemma IntervalPerTrial(k: int, n: int, z: real, root: real, x: real)
    requires n > 0 && z >= 0.0 && IsRoot(root, Radicand(k, n, z))
    ensures Denom(n, z) >= 1.0
    ensures Centre(k, n, z) - Margin(n, z, root) <= x <= Centre(k, n, z) + Margin(n, z, root)
            <==> PassesPerTrial(Share(k, n), Spread(n, z), x)
  {
    SpreadFacts(k, n, z, root);
    CentreAndMargin(k, n, z, root);
    ProductNonnegative(z, root);
    SquaredTest(Share(k, n), Spread(n, z), z * root, x);
  }

  lemma CentreAndMargin(k: int, n: int, z: real, root: real)
    requires n > 0 && IsRoot(root, Radicand(k, n, z))
    ensures
      var p, u := Share(k, n), Spread(n, z);
      && Denom(n, z) >= 1.0 && 1.0 + u >= 1.0
      && Centre(k, n, z) == (p + u / 2.0) / (1.0 + u) && Margin(n, z, root) == (z * root) / (1.0 + u)
  {
    DenomPositive(n, z);
    SpreadFacts(k, n, z, root);
    MarginAsQuotient(z, Denom(n, z), root);
  }

  /** The unclamped interval is exactly the set of shares that pass the score test. */
  lemma IntervalIsScoreTest(k: int, n: int, z: real, root: real, x: real)
    requires n > 0 && z >= 0.0 && IsRoot(root, Radicand(k, n, z))
    ensures Denom(n, z) >= 1.0
    ensures Centre(k, n, z) - Margin(n, z, root) <= x <= Centre(k, n, z) + Margin(n, z, root)
            <==> PassesScoreTest(k, n, z, x)
  {
    ScoreTestPerTrial(k, n, z, x);
    IntervalPerTrial(k, n, z, root, x);
  }

  lemma SquaredTest(p: real, u: real, r: real, x: real)
    requires u >= 0.0 && r >= 0.0
    requires r * r == u * (p * (1.0 - p)) + u * u / 4.0
    ensures
      var c, m := (p + u / 2.0) / (1.0 + u), r / (1.0 + u);
      c - m <= x <= c + m <==> PassesPerTrial(p, u, x)
  {
    var d, b := 1.0 + u, p + u / 2.0;
    var excess := (p - x) * (p - x) - u * (x * (1.0 - x));
    CompleteSquare(p, u, x);
    Scale(d, excess, 0.0);
    SquareBound(d * x - b, r);
    BoundAroundCentre(d, b, r, x);
  }

  lemma MarginAsQuotient(z: real, d: real, root: real)
    requires d > 0.0
    ensures z / d * root == (z * root) / d
  {
    var q := z / d;
    assert q * d == z;
    assert (q * root) * d == (q * d) * root;
    QuotientUnique(z * root, d, q * root);
  }

  /** With a possible count, the endpoints themselves pass the test, so they are shares already. */
  lemma EndpointsAreShares(k: int, n: int, z: real, root: real)
    requires 0 <= k <= n && n > 0 && z >= 0.0 && IsRoot(root, Radicand(k, n, z))
    ensures Denom(n, z) >= 1.0
    ensures 0.0 <= Centre(k, n, z) - Margin(n, z, root) <= Share(k, n)
    ensures Share(k, n) <= Centre(k, n, z) + Margin(n, z, root) <= 1.0
  {
    DenomPositive(n, z);
    ShareInUnit(k, n);
    var low, high, p := Centre(k, n, z) - Margin(n, z, root), Centre(k, n, z) + Margin(n, z, root), Share(k, n);
    ObservedPasses(k, n, z);
    IntervalIsScoreTest(k, n, z, root, p);
    IntervalIsScoreTest(k, n, z, root, low);
    IntervalIsScoreTest(k, n, z, root, high);
    assert low <= p <= high;
    PassingIsShare(k, n, z, low);
    PassingIsShare(k, n, z, high);
  }

  lemma ProductNonnegative(x: real, y: real)
    requires x >= 0.0 && y >= 0.0
    ensures x * y >= 0.0
  {
  }

  lemma ObservedPasses(k: int, n: int, z: real)
    requires 0 <= k <= n && n > 0
    ensures PassesScoreTest(k, n, z, Share(k, n))
  {
    ShareInUnit(k, n);
    var p := Share(k, n);
    assert n as real * p == k as real;
    ProductNonnegative(p, 1.0 - p);
    ProductNonnegative(n as real, p * (1.0 - p));
    SquareNonnegative(z);
    ProductNonnegative(z * z, n as real * (p * (1.0 - p)));
  }

  lemma ShareInUnit(k: int, n: int)
    requires 0 <= k <= n && n > 0
    ensures 0.0 <= Share(k, n) <= 1.0
  {
  }

  lemma PassingIsShare(k: int, n: int, z: real, x: real)
    requires 0 <= k <= n && n > 0 && PassesScoreTest(k, n, z, x)
    ensures 0.0 <= x <= 1.0
  {
    ShareInUnit(k, n);
    ScoreTestPerTrial(k, n, z, x);
    var p, u, room := Share(k, n), Spread(n, z), x * (1.0 - x);
    assert z * z >= 0.0 && u >= 0.0;
    if x < 0.0 || x > 1.0 {
      if x < 0.0 { ProductPositive(-x, 1.0 - x); } else { ProductPositive(x, x - 1.0); }
      assert room < 0.0;
      assert u * room <= 0.0;
      if x < 0.0 { LargerSquare(p - x, 0.0); } else { LargerSquare(x - p, 0.0); }
      assert false;
    }
  }

  /** For a possible count the interval holds exactly the shares that pass the score test on the counts, surrounds the
      observed share, which is successes over trials, and neither clamp ever moves an endpoint. */
  lemma WilsonCovers(k: int, n: int, z: real, root: real, x: real)
    requires 0 <= k <= n && n > 0 && z >= 0.0 && IsRoot(root, Radicand(k, n, z))
    ensures
      var i := WilsonInterval(k, n, z, root).value;
      var off := k as real - n as real * x;
      && (i.low <= x <= i.high <==> off * off <= z * z * (n as real * (x * (1.0 - x))))
      && i.k == k && i.n == n && i.point * n as real == k as real
      && 0.0 <= i.low <= i.point <= i.high <= 1.0
      && Denom(n, z) >= 1.0
      && i.low == Centre(k, n, z) - Margin(n, z, root)
      && i.high == Centre(k, n, z) + Margin(n, z, root)
  {
    EndpointsAreShares(k, n, z, root);
    IntervalIsScoreTest(k, n, z, root, x);
  }

  /** Swapping successes and failures reflects the interval about one half. */
  lemma WilsonMirror(k: int, n: int, z: real, root: real)
    requires 0 <= k <= n && n > 0 && z >= 0.0 && IsRoot(root, Radicand(k, n, z))
    ensures IsRoot(root, Radicand(n - k, n, z))
    ensures
      var i, j := WilsonInterval(k, n, z, root).value, WilsonInterval(n - k, n, z, root).value;
      j.low == 1.0 - i.high && j.high == 1.0 - i.low && j.point == 1.0 - i.point
  {
    ShareMirror(k, n);
    EndpointsAreShares(k, n, z, root);
    EndpointsAreShares(n - k, n, z, root);
    CentreMirror(k, n, z);
  }

  lemma ShareMirror(k: int, n: int)
    requires n > 0
    ensures Share(n - k, n) == 1.0 - Share(k, n)
    ensures Share(n - k, n) * (1.0 - Share(n - k, n)) == Share(k, n) * (1.0 - Share(k, n))
  {
    var p := Share(k, n);
    assert p * n as real == k as real;
    QuotientUnique((n - k) as real, n as real, 1.0 - p);
  }

  lemma CentreMirror(k: int, n: int, z: real)
    requires n > 0
    ensures Denom(n, z) >= 1.0
    ensures Centre(n - k, n, z) == 1.0 - Centre(k, n, z)
  {
    DenomPositive(n, z);
    ShareMirror(k, n);
    HalfOf(z * z, n as real);
    var p, u, d, c := Share(k, n), Spread(n, z), Denom(n, z), Centre(k, n, z);
    assert c * d == p + u / 2.0;
    QuotientUnique(1.0 - p + u / 2.0, d, 1.0 - c);
  }

  // ---- with a square root at hand ----

  const DEFAULT_Z := 1.959963984540054

  /** Takes the square root of every number that has one. */
  ghost predicate IsSqrt(sqrt: real -> real) {
    forall x :: x >= 0.0 ==> IsRoot(sqrt(x), x)
  }

  lemma SumNonnegative(x: real, y: real)
    requires x >= 0.0 && y >= 0.0
    ensures x + y >= 0.0
  {
  }

  lemma DivideNonnegative(x: real, y: real)
    requires x >= 0.0 && y > 0.0
    ensures x / y >= 0.0
  {
  }

  lemma RadicandNonnegative(k: int, n: int, z: real)
    requires 0 <= k <= n && n > 0
    ensures Radicand(k, n, z) >= 0.0
  {
    var p := Share(k, n);
    ShareInUnit(k, n);
    ProductNonnegative(p, 1.0 - p);
    DivideNonnegative(p * (1.0 - p), n as real);
    SquareNonnegative(z);
    assert 4 * n * n > 0;
    DivideNonnegative(z * z, (4 * n * n) as real);
    SumNonnegative(p * (1.0 - p) / n as real, z * z / (4 * n * n) as real);
  }

  lemma SquareNonnegative(z: real)
    ensures z * z >= 0.0
  {
  }

  /** The interval for a possible count, at the default confidence: none without trials, and otherwise the shares that
      pass the score test. */
  function DefaultInterval(k: int, n: int, sqrt: real -> real): (i: Option<ProportionInterval>)
    requires 0 <= k <= n && IsSqrt(sqrt)
    ensures i.None? <==> n == 0
    ensures i.Some? ==> IsScoreInterval(i.value, k, n, DEFAULT_Z)
  {
    if n == 0 then None
    else
      RadicandNonnegative(k, n, DEFAULT_Z);
      ScoreInterval(k, n, DEFAULT_Z, sqrt(Radicand(k, n, DEFAULT_Z)));
      WilsonInterval(k, n, DEFAULT_Z, sqrt(Radicand(k, n, DEFAULT_Z)))
  }

  /** What an interval for k successes in n trials promises, on the counts alone. */
  ghost predicate IsScoreInterval(i: ProportionInterval, k: int, n: int, z: real) {
    && i.k == k && i.n == n && i.point * n as real == k as real
    && forall x: real :: i.low <= x <= i.high <==> PassesScoreTest(k, n, z, x)
  }

  lemma ScoreInterval(k: int, n: int, z: real, root: real)
    requires 0 <= k <= n && n > 0 && z >= 0.0 && IsRoot(root, Radicand(k, n, z))
    ensures IsScoreInterval(WilsonInterval(k, n, z, root).value, k, n, z)
  {
    var i := WilsonInterval(k, n, z, root).value;
    WilsonCovers(k, n, z, root, 0.0);
    forall x: real
      ensures i.low <= x <= i.high <==> PassesScoreTest(k, n, z, x)
    {
      WilsonCovers(k, n, z, root, x);
    }
  }
}
