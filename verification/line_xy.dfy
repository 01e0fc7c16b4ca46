/** Lines in the plane in general form a·x + b·y + c = 0. The constructor
    divides all three coefficients by the length of (a, b), so every line
    the source hands out has a unit normal (a, b) and c is the signed
    distance of the origin from the line along that normal. */
module LineXY {
  import opened Errors
  import opened RealSqrt
  import opened Vxy

  /** Coefficients of the general form a·x + b·y + c = 0. */
  datatype Coeffs = Coeffs(a: real, b: real, c: real)

  predicate Unit(l: Coeffs) {
    l.a * l.a + l.b * l.b == 1.0
  }

  /** A line as the source stores it: its normal (a, b) has length 1. */
  type Line = l: Coeffs | Unit(l) witness Coeffs(1.0, 0.0, 0.0)

  /** The value of the left-hand side of the general form at p. */
  function Eval(l: Coeffs, p: Vec2): real {
    l.a * p.x + l.b * p.y + l.c
  }

  predicate OnLine(l: Coeffs, p: Vec2) {
    Eval(l, p) == 0.0
  }

  function Abs(x: real): real {
    if x < 0.0 then -x else x
  }

  /** The tolerance the source uses to call a coefficient zero. */
  const Tol: real := 0.0000000001

  // ------------------------------------------------------------------
  // Real arithmetic the solver needs spelled out

  lemma ScaledEval(l: Coeffs, m: real, p: Vec2)
    requires 0.0 < m
    ensures Eval(Coeffs(l.a / m, l.b / m, l.c / m), p) == Eval(l, p) / m
  {
    var q := Eval(Coeffs(l.a / m, l.b / m, l.c / m), p);
    assert q * m == Eval(l, p);
  }

  lemma QuotientZero(q: real, m: real)
    requires m != 0.0
    ensures q / m == 0.0 <==> q == 0.0
  {
  }

  /** (a/m)·a + (b/m)·b is the length m when m² = a² + b². */
  lemma NormalAgrees(a: real, b: real, m: real)
    requires 0.0 < m && m * m == a * a + b * b
    ensures (a / m) * a + (b / m) * b == m
  {
    var s := (a / m) * a + (b / m) * b;
    assert s * m == a * a + b * b;
    Cancel(s, m, m);
  }

  // ------------------------------------------------------------------
  // Construction

  /** The constructor: divides a, b and c by the length of (a, b). When
      a = b = 0 the division yields NaN coefficients; that degenerate line
      is `None` here. */
  function Make(a: real, b: real, c: real, sqrt: real -> real): (r: Option<Line>)
    requires IsSqrt(sqrt)
    ensures r.None? <==> a == 0.0 && b == 0.0
    ensures r.Some? ==> r.value.a * b == r.value.b * a
    ensures r.Some? ==> 0.0 < r.value.a * a + r.value.b * b
  {
    var n := a * a + b * b;
    SumOfSquares(a, b, n);
    SqrtZeroIff(sqrt, n);
    var mag := sqrt(n);
    if mag == 0.0 then None
    else
      UnitScale(a, b, mag);
      NormalAgrees(a, b, mag);
      assert (a / mag) * b == (b / mag) * a by {
        assert (a / mag) * b * mag == (b / mag) * a * mag;
        Cancel((a / mag) * b, (b / mag) * a, mag);
      }
      Some(Coeffs(a / mag, b / mag, c / mag))
  }

  /** Normalising does not move the line: the same points satisfy the
      given and the stored coefficients. */
  lemma MakeKeepsPoints(a: real, b: real, c: real, sqrt: real -> real, p: Vec2)
    requires IsSqrt(sqrt) && Make(a, b, c, sqrt).Some?
    ensures OnLine(Make(a, b, c, sqrt).value, p) <==> OnLine(Coeffs(a, b, c), p)
  {
    var n := a * a + b * b;
    SumOfSquares(a, b, n);
    SqrtZeroIff(sqrt, n);
    var mag := sqrt(n);
    ScaledEval(Coeffs(a, b, c), mag, p);
    QuotientZero(Eval(Coeffs(a, b, c), p), mag);
  }

  /** Rebuilding a line from its own coefficients gives it back. */
  lemma MakeOfLine(l: Line, sqrt: real -> real)
    requires IsSqrt(sqrt)
    ensures Make(l.a, l.b, l.c, sqrt) == Some(l)
  {
    SqrtOne(sqrt);
    var n := l.a * l.a + l.b * l.b;
    assert Unit(l);
    assert n == 1.0;
    assert sqrt(n) == 1.0;
    var r := Make(l.a, l.b, l.c, sqrt);
    assert r.Some?;
    assert r.value.a == l.a && r.value.b == l.b && r.value.c == l.c;
  }

  /** Negating all coefficients before normalising negates the result. */
  lemma MakeOfNegation(a: real, b: real, c: real, sqrt: real -> real)
    requires IsSqrt(sqrt)
    ensures Make(-a, -b, -c, sqrt).Some? <==> Make(a, b, c, sqrt).Some?
    ensures Make(a, b, c, sqrt).Some? ==>
      var l := Make(a, b, c, sqrt).value;
      Make(-a, -b, -c, sqrt).value == Coeffs(-l.a, -l.b, -l.c)
  {
    assert (-a) * (-a) + (-b) * (-b) == a * a + b * b;
  }

  // ------------------------------------------------------------------
  // Views of a line

  /** `n_vec`: the normal as a one-column Vxy; it has length 1. */
  function NVec(l: Line): (n: Vxy)
    ensures |n| == 1 && SqNorm(n[0]) == 1.0
  {
    [Vec2(l.a, l.b)]
  }

  /** The normal is what the Vxy constructor builds from the list [a, b]. */
  lemma NVecFromList(l: Line)
    ensures FromData(PyList([Scalar(l.a), Scalar(l.b)])) == Ok(NVec(l))
  {
    var n := NVec(l);
    assert Xs(n) == [l.a] && Ys(n) == [l.b];
    ColumnsOfRows(n);
  }

  /** `ABC`: the three coefficients in order. */
  function ABC(l: Line): (r: seq<real>)
    ensures |r| == 3 && r[0] == l.a && r[1] == l.b && r[2] == l.c
  {
    [l.a, l.b, l.c]
  }

  datatype Slope = Infinite | Finite(value: real)

  /** `slope`: infinite when |b| is below the tolerance, else -a/b, the
      rise along the line per unit of x. */
  function SlopeOf(l: Line): (s: Slope)
    ensures s.Infinite? <==> Abs(l.b) < Tol
    ensures s.Finite? ==> l.a + l.b * s.value == 0.0
  {
    if Abs(l.b) < Tol then Infinite else Finite(-l.a / l.b)
  }

  /** A finite slope is the rise over run between any two points of the line. */
  lemma SlopeIsRiseOverRun(l: Line, p: Vec2, q: Vec2)
    requires OnLine(l, p) && OnLine(l, q) && p.x != q.x && SlopeOf(l).Finite?
    ensures SlopeOf(l).value == (q.y - p.y) / (q.x - p.x)
  {
    var s := SlopeOf(l).value;
    var dx := q.x - p.x;
    var dy := q.y - p.y;
    assert l.a * dx + l.b * dy == 0.0;
    assert l.b * (s * dx) == l.b * dy by {
      assert l.b * s == -l.a;
    }
    assert s * dx == dy;
  }

  // ------------------------------------------------------------------
  // Lines through two points

  /** The quarter turn clockwise the source applies to the direction. */
  const Clockwise: Mat2 := Mat2(0.0, 1.0, -1.0, 0.0)

  /** The normal of the line through p and q: q - p turned a quarter clockwise. */
  function NormalThrough(p: Vec2, q: Vec2): Vec2 {
    Apply(Clockwise, Minus(q, p))
  }

  /** The coefficients the source builds for the line through p and q,
      before normalising: both points satisfy them. */
  lemma RawLineThrough(p: Vec2, q: Vec2)
    ensures var ab := NormalThrough(p, q);
      var raw := Coeffs(ab.x, ab.y, -DotOf(p, ab));
      OnLine(raw, p) && OnLine(raw, q) && ab == Vec2(q.y - p.y, p.x - q.x)
  {
  }

  /** The normal of l is perpendicular to the direction p → q and points
      to its right (clockwise of it). */
  predicate NormalToTheRight(l: Coeffs, p: Vec2, q: Vec2) {
    var d := Minus(q, p);
    l.a * d.x + l.b * d.y == 0.0 && 0.0 < l.a * d.y - l.b * d.x
  }

  /** A normal proportional to (dy, -dx) with positive factor is
      perpendicular to (dx, dy) and on its clockwise side. */
  lemma Oriented(ra: real, rb: real, na: real, nb: real, dx: real, dy: real)
    requires na == dy && nb == -dx
    requires ra * nb == rb * na && 0.0 < ra * na + rb * nb
    ensures ra * dx + rb * dy == 0.0 && 0.0 < ra * dy - rb * dx
  {
    assert ra * nb == -(ra * dx);
    assert rb * nb == -(rb * dx);
  }

  /** The unnormalised coefficients of the line through p and q. */
  function RawThrough(p: Vec2, q: Vec2): Coeffs {
    var ab := NormalThrough(p, q);
    Coeffs(ab.x, ab.y, -DotOf(p, ab))
  }

  lemma LineThroughPasses(p: Vec2, q: Vec2, sqrt: real -> real)
    requires IsSqrt(sqrt)
    ensures var raw := RawThrough(p, q);
      var r := Make(raw.a, raw.b, raw.c, sqrt);
      r.Some? ==> OnLine(r.value, p) && OnLine(r.value, q)
  {
    var raw := RawThrough(p, q);
    RawLineThrough(p, q);
    if Make(raw.a, raw.b, raw.c, sqrt).Some? {
      MakeKeepsPoints(raw.a, raw.b, raw.c, sqrt, p);
      MakeKeepsPoints(raw.a, raw.b, raw.c, sqrt, q);
    }
  }

  lemma LineThroughDegenerate(p: Vec2, q: Vec2, sqrt: real -> real)
    requires IsSqrt(sqrt)
    ensures var raw := RawThrough(p, q);
      Make(raw.a, raw.b, raw.c, sqrt).None? <==> p == q
  {
    var raw := RawThrough(p, q);
    RawLineThrough(p, q);
    assert raw.a == 0.0 && raw.b == 0.0 <==> p == q;
  }

  lemma LineThroughOriented(p: Vec2, q: Vec2, sqrt: real -> real)
    requires IsSqrt(sqrt)
    ensures var raw := RawThrough(p, q);
      var r := Make(raw.a, raw.b, raw.c, sqrt);
      r.Some? ==> NormalToTheRight(r.value, p, q)
  {
    var raw := RawThrough(p, q);
    RawLineThrough(p, q);
    var r := Make(raw.a, raw.b, raw.c, sqrt);
    if r.Some? {
      Oriented(r.value.a, r.value.b, raw.a, raw.b, q.x - p.x, q.y - p.y);
    }
  }

  /** The normalised line through two points. */
  function LineThrough(p: Vec2, q: Vec2, sqrt: real -> real): (r: Option<Line>)
    requires IsSqrt(sqrt)
    ensures r.None? <==> p == q
    ensures r.Some? ==> OnLine(r.value, p) && OnLine(r.value, q)
    ensures r.Some? ==> NormalToTheRight(r.value, p, q)
  {
    var raw := RawThrough(p, q);
    LineThroughPasses(p, q, sqrt);
    LineThroughDegenerate(p, q, sqrt);
    LineThroughOriented(p, q, sqrt);
    Make(raw.a, raw.b, raw.c, sqrt)
  }

  /** `from_two_points`: both arguments must hold exactly one point
      (ValueError otherwise). The normal is the direction p1 → p2 turned
      a quarter clockwise; two equal points give the degenerate line. */
  function FromTwoPoints(p1: Vxy, p2: Vxy, sqrt: real -> real): (r: Result<Option<Line>>)
    requires IsSqrt(sqrt)
    ensures r.Err? <==> |p1| != 1 || |p2| != 1
    ensures r.Err? ==> r.error.ValueError?
    ensures r.Ok? ==> (r.value.None? <==> p1[0] == p2[0])
    ensures r.Ok? && r.value.Some? ==> OnLine(r.value.value, p1[0]) && OnLine(r.value.value, p2[0])
    ensures r.Ok? && r.value.Some? ==> NormalToTheRight(r.value.value, p1[0], p2[0])
  {
    if |p1| != 1 || |p2| != 1 then Err(ValueError("Input vectors must be length 1."))
    else Ok(LineThrough(p1[0], p2[0], sqrt))
  }

  /** A third point lies on the line through p1 and p2 exactly when it is
      collinear with them. */
  lemma OnLineThroughIffCollinear(p1: Vec2, p2: Vec2, q: Vec2, sqrt: real -> real)
    requires IsSqrt(sqrt) && p1 != p2
    ensures OnLine(FromTwoPoints([p1], [p2], sqrt).value.value, q)
      <==> CrossOf(Minus(p2, p1), Minus(q, p1)) == 0.0
  {
    var raw := RawThrough(p1, p2);
    MakeKeepsPoints(raw.a, raw.b, raw.c, sqrt, q);
    assert Eval(raw, q) == -CrossOf(Minus(p2, p1), Minus(q, p1));
  }

  // ------------------------------------------------------------------
  // Distances

  /** `dist_from_signed`: a·x + b·y + c for every point; positive on the
      side the normal points to. */
  function DistSigned(l: Line, ps: Vxy): (d: seq<real>)
    ensures |d| == |ps|
    ensures forall i :: 0 <= i < |ps| ==> (d[i] == 0.0 <==> OnLine(l, ps[i]))
  {
    seq(|ps|, i requires 0 <= i < |ps| => Eval(l, ps[i]))
  }

  /** Measured from any point q of the line, the signed distance is the
      offset of the point from q projected onto the normal (a, b). */
  lemma DistSignedFromAnyPointOnLine(l: Line, ps: Vxy, i: nat, q: Vec2)
    requires i < |ps| && OnLine(l, q)
    ensures DistSigned(l, ps)[i] == l.a * (ps[i].x - q.x) + l.b * (ps[i].y - q.y)
  {
  }

  /** The source computes the signed distance as the dot product of the
      points with the normal `n_vec`, plus c. */
  lemma DistSignedIsDotWithNormal(l: Line, ps: Vxy)
    ensures Dot(ps, OfVxy(NVec(l))).Ok?
    ensures var dots := Dot(ps, OfVxy(NVec(l))).value;
      |dots| == |ps| && DistSigned(l, ps) == seq(|ps|, i requires 0 <= i < |ps| => dots[i] + l.c)
  {
    var n := NVec(l);
    var dots := Dot(ps, OfVxy(n)).value;
    assert |dots| == |ps|;
    forall i | 0 <= i < |ps|
      ensures DistSigned(l, ps)[i] == dots[i] + l.c
    {
      assert Pick(n, i) == Vec2(l.a, l.b);
      assert Pick(ps, i) == ps[i];
    }
  }

  /** `dist_from`: the absolute value of the signed distance. */
  function DistFrom(l: Line, ps: Vxy): (d: seq<real>)
    ensures |d| == |ps|
    ensures forall i :: 0 <= i < |ps| ==> 0.0 <= d[i]
    ensures forall i :: 0 <= i < |ps| ==> (d[i] == 0.0 <==> OnLine(l, ps[i]))
    ensures forall i :: 0 <= i < |ps| ==> d[i] == Abs(DistSigned(l, ps)[i])
  {
    var s := DistSigned(l, ps);
    seq(|ps|, i requires 0 <= i < |ps| => Abs(s[i]))
  }

  /** Stepping back from p along the normal by its signed distance lands
      on the line, at exactly that distance from p. */
  lemma FootOfPerpendicular(l: Line, p: Vec2)
    ensures var d := DistSigned(l, [p])[0];
      var foot := Vec2(p.x - d * l.a, p.y - d * l.b);
      OnLine(l, foot) && SqNorm(Minus(p, foot)) == d * d
  {
    var d := Eval(l, p);
    var foot := Vec2(p.x - d * l.a, p.y - d * l.b);
    assert Eval(l, foot) == d - d * (l.a * l.a + l.b * l.b);
    assert SqNorm(Minus(p, foot)) == (d * d) * (l.a * l.a + l.b * l.b);
  }

  /** The projection s of (u, w) onto a unit vector (a, b) is no longer
      than (u, w) itself. */
  lemma ProjectionBound(a: real, b: real, u: real, w: real, s: real)
    requires a * a + b * b == 1.0 && s == a * u + b * w
    ensures s * s <= u * u + w * w
  {
    var gap := a * w - b * u;
    Square(gap, gap * gap);
    assert (a * a + b * b) * (u * u + w * w) == s * s + gap * gap;
  }

  /** Squaring forgets the sign. */
  lemma AbsSquared(x: real)
    ensures Abs(x) * Abs(x) == x * x
  {
  }

  /** No point of the line is closer to p than its reported distance. */
  lemma DistanceIsLowerBound(l: Line, p: Vec2, q: Vec2)
    requires OnLine(l, q)
    ensures var d := DistFrom(l, [p])[0];
      d * d <= SqNorm(Minus(p, q))
  {
    var e := DistSigned(l, [p])[0];
    assert DistFrom(l, [p])[0] == Abs(e);
    AbsSquared(e);
    DistSignedFromAnyPointOnLine(l, [p], 0, q);
    ProjectionBound(l.a, l.b, p.x - q.x, p.y - q.y, e);
  }

  /** The foot of the perpendicular is exactly the reported distance
      from p. */
  lemma DistanceIsAttained(l: Line, p: Vec2)
    ensures var d := DistFrom(l, [p])[0];
      exists f :: OnLine(l, f) && SqNorm(Minus(p, f)) == d * d
  {
    var e := DistSigned(l, [p])[0];
    assert DistFrom(l, [p])[0] == Abs(e);
    AbsSquared(e);
    FootOfPerpendicular(l, p);
    var foot := Vec2(p.x - e * l.a, p.y - e * l.b);
    assert OnLine(l, foot);
  }

  /** The distance the source reports is the perpendicular distance: no
      point of the line is closer to p, and some point of the line is
      exactly that far. */
  lemma DistanceIsMinimal(l: Line, p: Vec2, q: Vec2)
    requires OnLine(l, q)
    ensures var d := DistFrom(l, [p])[0];
      d * d <= SqNorm(Minus(p, q))
    ensures var d := DistFrom(l, [p])[0];
      exists f :: OnLine(l, f) && SqNorm(Minus(p, f)) == d * d
  {
    DistanceIsLowerBound(l, p, q);
    DistanceIsAttained(l, p);
  }

  // ------------------------------------------------------------------
  // Solving for one coordinate

  /** `y_from_x`: the y of the line above each x. A line with b = 0
      divides by zero (infinities or NaN, no exception); that is `None`. */
  function YFromX(l: Line, xs: seq<real>): (r: Option<seq<real>>)
    ensures r.None? <==> l.b == 0.0
    ensures r.Some? ==> |r.value| == |xs|
    ensures r.Some? ==> forall i :: 0 <= i < |xs| ==> OnLine(l, Vec2(xs[i], r.value[i]))
  {
    if l.b == 0.0 then None
    else Some(seq(|xs|, i requires 0 <= i < |xs| => (-l.a * xs[i] - l.c) / l.b))
  }

  /** `x_from_y`: the x of the line beside each y; `None` when a = 0. */
  function XFromY(l: Line, ys: seq<real>): (r: Option<seq<real>>)
    ensures r.None? <==> l.a == 0.0
    ensures r.Some? ==> |r.value| == |ys|
    ensures r.Some? ==> forall i :: 0 <= i < |ys| ==> OnLine(l, Vec2(r.value[i], ys[i]))
  {
    if l.a == 0.0 then None
    else Some(seq(|ys|, i requires 0 <= i < |ys| => (-l.b * ys[i] - l.c) / l.a))
  }

  /** The y the source computes is the only one on the line. */
  lemma YFromXIsUnique(l: Line, p: Vec2)
    requires OnLine(l, p) && l.b != 0.0
    ensures YFromX(l, [p.x]) == Some([p.y])
  {
    var y := YFromX(l, [p.x]).value[0];
    assert l.b * y == l.b * p.y;
    assert YFromX(l, [p.x]).value == [p.y];
  }

  lemma XFromYIsUnique(l: Line, p: Vec2)
    requires OnLine(l, p) && l.a != 0.0
    ensures XFromY(l, [p.y]) == Some([p.x])
  {
    var x := XFromY(l, [p.y]).value[0];
    assert l.a * x == l.a * p.x;
    assert XFromY(l, [p.y]).value == [p.x];
  }

  // ------------------------------------------------------------------
  // Intersection

  /** The source's test for parallel lines: both normals nearly along y,
      both nearly along x, or finite slopes within the tolerance. */
  predicate NearlyParallel(l1: Line, l2: Line) {
    (Abs(l1.a) < Tol && Abs(l2.a) < Tol)
    || (Abs(l1.b) < Tol && Abs(l2.b) < Tol)
    || (SlopeOf(l1).Finite? && SlopeOf(l2).Finite?
        && Abs(SlopeOf(l1).value - SlopeOf(l2).value) < Tol)
  }

  /** `np.cross` of two 3-vectors. */
  function Cross3(u: seq<real>, v: seq<real>): (w: seq<real>)
    requires |u| == 3 && |v| == 3
    ensures |w| == 3
    ensures u[0] * w[0] + u[1] * w[1] + u[2] * w[2] == 0.0
    ensures v[0] * w[0] + v[1] * w[1] + v[2] * w[2] == 0.0
  {
    [u[1] * v[2] - u[2] * v[1], u[2] * v[0] - u[0] * v[2], u[0] * v[1] - u[1] * v[0]]
  }

  /** Two unit normals with a zero cross product have |b| equal. */
  lemma ParallelUnitNormals(l1: Line, l2: Line)
    requires l1.a * l2.b == l1.b * l2.a
    ensures l1.b * l1.b == l2.b * l2.b
  {
    var p := l1.a * l2.b;
    assert p * p == (l1.a * l1.a) * (l2.b * l2.b);
    assert p * p == (l1.b * l1.b) * (l2.a * l2.a);
    assert (1.0 - l1.b * l1.b) * (l2.b * l2.b) == (l1.b * l1.b) * (1.0 - l2.b * l2.b);
  }

  lemma SameSquareSameAbs(x: real, y: real)
    requires x * x == y * y
    ensures Abs(x) == Abs(y)
  {
    SqrtLike(Abs(x), Abs(y));
  }

  lemma SqrtLike(s: real, t: real)
    requires 0.0 <= s && 0.0 <= t && s * s == t * t
    ensures s == t
  {
    if s > t {
      PositiveProduct(s - t, s + t, (s - t) * (s + t));
    } else if s < t {
      PositiveProduct(t - s, t + s, (t - s) * (t + s));
    }
  }

  lemma SameRatio(a1: real, b1: real, a2: real, b2: real)
    requires b1 != 0.0 && b2 != 0.0 && a1 * b2 == b1 * a2
    ensures -a1 / b1 == -a2 / b2
  {
    var s := -a1 / b1;
    assert s * b1 == -a1;
    assert (s * b2) * b1 == -a2 * b1;
  }

  /** A point given by homogeneous coordinates (v0, v1, v2) lies on a
      line when the line's coefficients are orthogonal to them. */
  lemma HomogeneousPoint(l: Coeffs, v0: real, v1: real, v2: real)
    requires v2 != 0.0 && l.a * v0 + l.b * v1 + l.c * v2 == 0.0
    ensures OnLine(l, Vec2(v0 / v2, v1 / v2))
  {
    var x := v0 / v2;
    var y := v1 / v2;
    assert x * v2 == v0 && y * v2 == v1;
    assert Eval(l, Vec2(x, y)) * v2 == l.a * v0 + l.b * v1 + l.c * v2;
  }

  /** Two homogeneous linear equations with non-zero determinant have
      only the zero solution. */
  lemma Cramer(a1: real, b1: real, a2: real, b2: real, u: real, w: real)
    requires a1 * u + b1 * w == 0.0 && a2 * u + b2 * w == 0.0
    requires a1 * b2 - b1 * a2 != 0.0
    ensures u == 0.0 && w == 0.0
  {
    var det := a1 * b2 - b1 * a2;
    assert det * u == b2 * (a1 * u + b1 * w) - b1 * (a2 * u + b2 * w);
    assert det * w == a1 * (a2 * u + b2 * w) - a2 * (a1 * u + b1 * w);
  }

  /** The determinant of the two normals: zero exactly for parallel normals. */
  function Det(l1: Coeffs, l2: Coeffs): real {
    l1.a * l2.b - l1.b * l2.a
  }

  /** Lines the source does not call parallel have normals that are not
      parallel, so the third cross-product component is not zero. */
  lemma NotParallelCross(l1: Line, l2: Line)
    requires !NearlyParallel(l1, l2)
    ensures Det(l1, l2) != 0.0
  {
    if Det(l1, l2) == 0.0 {
      ParallelIfDetZero(l1, l2);
    }
  }

  /** Unit normals with a zero determinant are caught by the parallel
      test: both b are below the tolerance, or the slopes are equal. */
  lemma ParallelIfDetZero(l1: Line, l2: Line)
    requires Det(l1, l2) == 0.0
    ensures NearlyParallel(l1, l2)
  {
    ParallelUnitNormals(l1, l2);
    SameSquareSameAbs(l1.b, l2.b);
    if Abs(l1.b) >= Tol {
      SameRatio(l1.a, l1.b, l2.a, l2.b);
      assert SlopeOf(l1).value == SlopeOf(l2).value;
    }
  }

  /** The point whose homogeneous coordinates are the cross product of the
      two coefficient triples: on both lines. */
  function Meet(l1: Line, l2: Line): (p: Vec2)
    requires Det(l1, l2) != 0.0
    ensures OnLine(l1, p) && OnLine(l2, p)
  {
    var v := Cross3(ABC(l1), ABC(l2));
    assert v[2] == Det(l1, l2);
    HomogeneousPoint(l1, v[0], v[1], v[2]);
    HomogeneousPoint(l2, v[0], v[1], v[2]);
    Vec2(v[0] / v[2], v[1] / v[2])
  }

  /** Lines with non-parallel normals share no point but their meet. */
  lemma MeetIsUnique(l1: Line, l2: Line, q: Vec2)
    requires Det(l1, l2) != 0.0 && OnLine(l1, q) && OnLine(l2, q)
    ensures Meet(l1, l2) == q
  {
    var p := Meet(l1, l2);
    var u := p.x - q.x;
    var w := p.y - q.y;
    assert l1.a * u + l1.b * w == Eval(l1, p) - Eval(l1, q);
    assert l2.a * u + l2.b * w == Eval(l2, p) - Eval(l2, q);
    Cramer(l1.a, l1.b, l2.a, l2.b, u, w);
  }

  /** `intersect_with`: `None` for lines the tolerance test calls parallel,
      otherwise the one common point, as a one-column Vxy. */
  function IntersectWith(l1: Line, l2: Line): (r: Option<Vxy>)
    ensures r.None? <==> NearlyParallel(l1, l2)
    ensures r.Some? ==> |r.value| == 1 && OnLine(l1, r.value[0]) && OnLine(l2, r.value[0])
  {
    if NearlyParallel(l1, l2) then None
    else
      NotParallelCross(l1, l2);
      Some([Meet(l1, l2)])
  }

  /** Exactly parallel lines never intersect, whatever their offsets. */
  lemma ParallelLinesDoNotIntersect(l1: Line, l2: Line)
    requires Det(l1, l2) == 0.0
    ensures IntersectWith(l1, l2).None?
  {
    if !NearlyParallel(l1, l2) {
      NotParallelCross(l1, l2);
    }
  }

  lemma NearlyParallelSymmetric(l1: Line, l2: Line)
    ensures NearlyParallel(l1, l2) <==> NearlyParallel(l2, l1)
  {
    var s1 := SlopeOf(l1);
    var s2 := SlopeOf(l2);
    if s1.Finite? && s2.Finite? {
      assert Abs(s1.value - s2.value) == Abs(s2.value - s1.value);
    }
  }

  /** The order of the two lines does not matter. */
  lemma IntersectSymmetric(l1: Line, l2: Line)
    ensures IntersectWith(l1, l2) == IntersectWith(l2, l1)
  {
    NearlyParallelSymmetric(l1, l2);
    if !NearlyParallel(l1, l2) {
      NotParallelCross(l1, l2);
      NotParallelCross(l2, l1);
      MeetIsUnique(l2, l1, Meet(l1, l2));
    }
  }

  /** Any point on both lines is the point the source returns. */
  lemma IntersectionIsUnique(l1: Line, l2: Line, q: Vec2)
    requires IntersectWith(l1, l2).Some? && OnLine(l1, q) && OnLine(l2, q)
    ensures IntersectWith(l1, l2).value == [q]
  {
    NotParallelCross(l1, l2);
    MeetIsUnique(l1, l2, q);
  }

  // ------------------------------------------------------------------
  // Orientation

  /** `flip_in_place`: negates the three coefficients, so the normal
      reverses and the points of the line stay. */
  function FlipInPlace(l: Line): (r: Line)
    ensures forall p :: OnLine(r, p) <==> OnLine(l, p)
    ensures r.a * l.a + r.b * l.b == -1.0
  {
    assert (-l.a) * (-l.a) + (-l.b) * (-l.b) == l.a * l.a + l.b * l.b;
    Coeffs(-l.a, -l.b, -l.c)
  }

  /** `flip`: rebuilds a copy through the constructor and flips that. */
  function Flip(l: Line, sqrt: real -> real): (r: Line)
    requires IsSqrt(sqrt)
    ensures forall p :: OnLine(r, p) <==> OnLine(l, p)
    ensures r.a * l.a + r.b * l.b == -1.0
  {
    MakeOfLine(l, sqrt);
    FlipInPlace(Make(l.a, l.b, l.c, sqrt).value)
  }

  lemma FlipInvolution(l: Line, sqrt: real -> real)
    requires IsSqrt(sqrt)
    ensures Flip(Flip(l, sqrt), sqrt) == l
  {
    MakeOfLine(l, sqrt);
    MakeOfLine(Flip(l, sqrt), sqrt);
  }

  /** Flipping negates every signed distance and keeps every distance. */
  lemma FlipNegatesSignedDistance(l: Line, ps: Vxy, sqrt: real -> real)
    requires IsSqrt(sqrt)
    ensures forall i :: 0 <= i < |ps| ==>
      DistSigned(Flip(l, sqrt), ps)[i] == -DistSigned(l, ps)[i]
      && DistFrom(Flip(l, sqrt), ps)[i] == DistFrom(l, ps)[i]
  {
    MakeOfLine(l, sqrt);
    var f := Flip(l, sqrt);
    assert f == Coeffs(-l.a, -l.b, -l.c);
    var s := DistSigned(l, ps);
    var t := DistSigned(f, ps);
    forall i | 0 <= i < |ps|
      ensures t[i] == -s[i]
    {
      assert Eval(f, ps[i]) == -Eval(l, ps[i]);
    }
  }

  /** Swapping the two points gives the flipped line. */
  lemma FromTwoPointsSwapped(p1: Vec2, p2: Vec2, sqrt: real -> real)
    requires IsSqrt(sqrt) && p1 != p2
    ensures FromTwoPoints([p2], [p1], sqrt)
      == Ok(Some(Flip(FromTwoPoints([p1], [p2], sqrt).value.value, sqrt)))
  {
    var ab := Apply(Clockwise, Minus(p2, p1));
    var ba := Apply(Clockwise, Minus(p1, p2));
    assert ba == Vec2(-ab.x, -ab.y);
    assert -DotOf(p2, ba) == DotOf(p1, ab) by {
      assert DotOf(p2, ab) == DotOf(p1, ab) + DotOf(Minus(p2, p1), ab);
    }
    MakeOfNegation(ab.x, ab.y, -DotOf(p1, ab), sqrt);
    MakeOfLine(FromTwoPoints([p1], [p2], sqrt).value.value, sqrt);
  }
}
