/** What the two measures of the fluid bench measure: fields whose divergence and pressure error are known. */
module FluidLaws {
  import opened FluidScan
  import opened Reals

  // ---- Which cells a margin leaves -------------------------------------------------------------------------------

  /** Along an axis of n cells, everything up to the margin away from cell i is in the grid. */
  ghost predicate Deep(i: nat, n: nat, margin: nat) {
    forall cell: int | i - margin <= cell <= i + margin :: OnAxis(cell, n)
  }

  predicate OnAxis(cell: int, n: nat) {
    1 <= cell <= n
  }

  lemma DeepIff(i: nat, n: nat, margin: nat)
    ensures Deep(i, n, margin) <==> 1 + margin <= i && i + margin <= n
  {
    if Deep(i, n, margin) {
      assert OnAxis(i - margin, n) && OnAxis(i + margin, n);
    }
  }

  /** The scan takes the cells a margin away from every wall, but every plane of a grid too thin for that. */
  lemma MarginIsDistance(g: Grid, margin: nat, i: nat, j: nat, k: nat)
    ensures InMargin(g, margin, i, j, k)
      <==> && Deep(i, g.width, margin) && Deep(j, g.height, margin)
           && Deep(k, g.depth, if g.depth > 2 * margin then margin else 0)
  {
    DeepIff(i, g.width, margin);
    DeepIff(j, g.height, margin);
    DeepIff(k, g.depth, if g.depth > 2 * margin then margin else 0);
  }

  // ---- Fields given by formulas ----------------------------------------------------------------------------------

  /** The coefficients of a quadratic in the three coordinates without mixed terms. */
  datatype Form = Form(xx: real, yy: real, zz: real, x: real, y: real, z: real, one: real) {
    function At(i: real, j: real, k: real): real {
      xx * (i * i) + yy * (j * j) + zz * (k * k) + x * i + y * j + z * k + one
    }

    predicate Affine() {
      xx == 0.0 && yy == 0.0 && zz == 0.0
    }
  }

  function AtCell(q: Form, i: nat, j: nat, k: nat): real {
    q.At(i as real, j as real, k as real)
  }

  /** The field has the formula's value at every cell, the halo included. */
  ghost predicate Given(g: Grid, field: seq<real>, q: Form) {
    && |field| == g.CellCount()
    && forall i: nat, j: nat, k: nat | i < g.StrideX() && j < g.StrideY() && g.Index(i, j, k) < |field| ::
         field[g.Index(i, j, k)] == AtCell(q, i, j, k)
  }

  /** One step along an axis is one stride of the index. */
  lemma Steps(g: Grid, i: nat, j: nat, k: nat)
    ensures g.Index(i + 1, j, k) == g.Index(i, j, k) + 1
    ensures g.Index(i, j + 1, k) == g.Index(i, j, k) + g.StrideX()
    ensures g.Index(i, j, k + 1) == g.Index(i, j, k) + g.Plane()
  {
    var x, p := g.StrideX(), g.Plane();
    assert (j + 1) * x == j * x + x && (k + 1) * p == k * p + p;
  }

  /** The values of the field at a cell and its six neighbours. */
  lemma GivenAround(g: Grid, field: seq<real>, q: Form, i: nat, j: nat, k: nat)
    requires Given(g, field, q) && InMargin(g, 0, i, j, k)
    ensures var c := g.Index(i, j, k);
      && Nested(g, 0, c) && g.Plane() <= c && c + g.Plane() < |field| && 1 <= g.StrideX() <= g.Plane()
      && field[c] == AtCell(q, i, j, k)
      && field[c - 1] == AtCell(q, i - 1, j, k) && field[c + 1] == AtCell(q, i + 1, j, k)
      && field[c - g.StrideX()] == AtCell(q, i, j - 1, k) && field[c + g.StrideX()] == AtCell(q, i, j + 1, k)
      && field[c - g.Plane()] == AtCell(q, i, j, k - 1) && field[c + g.Plane()] == AtCell(q, i, j, k + 1)
  {
    var c := g.Index(i, j, k);
    assert Nested(g, 0, c);
    NeighboursInGrid(g, c);
    Steps(g, i, j, k);
    Steps(g, i - 1, j, k);
    Steps(g, i, j - 1, k);
    Steps(g, i, j, k - 1);
    hide Nested, AtCell;
    assert i + 1 < g.StrideX() && j + 1 < g.StrideY();
  }

  lemma AffineSlopes(q: Form, i: real, j: real, k: real)
    requires q.Affine()
    ensures q.At(i + 1.0, j, k) - q.At(i - 1.0, j, k) == 2.0 * q.x
    ensures q.At(i, j + 1.0, k) - q.At(i, j - 1.0, k) == 2.0 * q.y
    ensures q.At(i, j, k + 1.0) - q.At(i, j, k - 1.0) == 2.0 * q.z
  {
    assert q.At(i, j, k) == q.x * i + q.y * j + q.z * k + q.one;
  }

  /** The divergence of a velocity that changes evenly is what its three parts change by along their own axes. */
  lemma AffineDivergence(g: Grid, v: Velocity, x: Form, y: Form, z: Form, i: nat, j: nat, k: nat)
    requires Fills(g, v) && Given(g, v.x, x) && Given(g, v.y, y) && Given(g, v.z, z)
    requires x.Affine() && y.Affine() && z.Affine() && InMargin(g, 0, i, j, k)
    ensures Nested(g, 0, g.Index(i, j, k))
    ensures Divergence(g, v, g.Index(i, j, k)) == Abs(x.x + y.y + z.z)
  {
    GivenAround(g, v.x, x, i, j, k);
    GivenAround(g, v.y, y, i, j, k);
    GivenAround(g, v.z, z, i, j, k);
    AffineSlopes(x, i as real, j as real, k as real);
    AffineSlopes(y, i as real, j as real, k as real);
    AffineSlopes(z, i as real, j as real, k as real);
    hide Given, Nested, InMargin, Form.At;
  }

  /** So the worst of such a velocity is that number, and none at all when it neither swells nor shrinks. */
  lemma WorstOfAffine(g: Grid, v: Velocity, x: Form, y: Form, z: Form, margin: nat, worst: real)
    requires Fills(g, v) && Given(g, v.x, x) && Given(g, v.y, y) && Given(g, v.z, z)
    requires x.Affine() && y.Affine() && z.Affine() && IsWorst(g, v, margin, worst)
    requires exists index :: Nested(g, margin, index)
    ensures worst == Abs(x.x + y.y + z.z)
  {
    forall index | Nested(g, margin, index) && Nested(g, 0, index)
      ensures Divergence(g, v, index) == Abs(x.x + y.y + z.z)
    {
      var i: nat, j: nat, k: nat :| InMargin(g, 0, i, j, k) && index == g.Index(i, j, k);
      AffineDivergence(g, v, x, y, z, i, j, k);
    }
    hide Divergence, Given;
  }

  // ---- The pressure error ------------------------------------------------------------------------------------------

  /** None of a cell's neighbours is solid. */
  predicate Open(g: Grid, f: Solve, c: nat)
    requires Covers(g, f) && g.Plane() <= c && c + g.Plane() < g.CellCount()
  {
    && !f.obstacle[c - 1] && !f.obstacle[c + 1]
    && !f.obstacle[c - g.StrideX()] && !f.obstacle[c + g.StrideX()]
    && !f.obstacle[c - g.Plane()] && !f.obstacle[c + g.Plane()]
  }

  lemma SecondDifferences(q: Form, i: real, j: real, k: real)
    ensures q.At(i + 1.0, j, k) + q.At(i - 1.0, j, k) - 2.0 * q.At(i, j, k) == 2.0 * q.xx
    ensures q.At(i, j + 1.0, k) + q.At(i, j - 1.0, k) - 2.0 * q.At(i, j, k) == 2.0 * q.yy
    ensures q.At(i, j, k + 1.0) + q.At(i, j, k - 1.0) - 2.0 * q.At(i, j, k) == 2.0 * q.zz
  {
  }

  /** In the open a quadratic pressure leaves the source and its own curvature, and an even one the source alone. */
  lemma QuadraticError(g: Grid, f: Solve, q: Form, i: nat, j: nat, k: nat)
    requires Covers(g, f) && Given(g, f.pressure, q) && InMargin(g, 0, i, j, k)
    requires g.Plane() <= g.Index(i, j, k) && g.Index(i, j, k) + g.Plane() < g.CellCount()
    requires Open(g, f, g.Index(i, j, k))
    ensures Nested(g, 0, g.Index(i, j, k))
    ensures ErrorAt(g, f, g.Index(i, j, k)) == f.divergence[g.Index(i, j, k)] + 2.0 * (q.xx + q.yy + q.zz)
  {
    GivenAround(g, f.pressure, q, i, j, k);
    SecondDifferences(q, i as real, j as real, k as real);
    hide Given, Nested, InMargin, Form.At;
  }

  /** A cell walled in on all six sides has nothing to balance its source. */
  lemma WalledInError(g: Grid, f: Solve, c: nat)
    requires Covers(g, f) && Nested(g, 0, c) && g.Plane() <= c && c + g.Plane() < g.CellCount()
    requires f.obstacle[c - 1] && f.obstacle[c + 1]
    requires f.obstacle[c - g.StrideX()] && f.obstacle[c + g.StrideX()]
    requires f.obstacle[c - g.Plane()] && f.obstacle[c + g.Plane()]
    ensures ErrorAt(g, f, c) == f.divergence[c]
  {
  }

  /** The two differ in pressure only, and there only inside the solid cells. */
  ghost predicate SameButInside(f: Solve, f': Solve) {
    && f'.obstacle == f.obstacle && f'.divergence == f.divergence && |f'.pressure| == |f.pressure| == |f.obstacle|
    && forall c | 0 <= c < |f.pressure| && !f.obstacle[c] :: f'.pressure[c] == f.pressure[c]
  }

  /** What is inside the solid cells plays no part. */
  lemma SolidPressureIsIgnored(g: Grid, f: Solve, f': Solve, c: nat)
    requires Covers(g, f) && Covers(g, f') && SameButInside(f, f') && Nested(g, 0, c) && c < g.CellCount()
    requires !f.obstacle[c]
    ensures ErrorAt(g, f', c) == ErrorAt(g, f, c)
  {
    NeighboursInGrid(g, c);
  }

  /** The solve with a constant added to its pressure. */
  function Raised(f: Solve, constant: real): Solve {
    f.(pressure := seq(|f.pressure|, c requires 0 <= c < |f.pressure| => f.pressure[c] + constant))
  }

  /** Pressure is told only up to a constant: adding one changes no error. */
  lemma ConstantIsFree(g: Grid, f: Solve, constant: real, c: nat)
    requires Covers(g, f) && Nested(g, 0, c)
    ensures ErrorAt(g, Raised(f, constant), c) == ErrorAt(g, f, c)
  {
    NeighboursInGrid(g, c);
  }

  function Times(scale: real, r: real): real {
    scale * r
  }

  function AllTimes(scale: real, s: seq<real>): (t: seq<real>)
    ensures |t| == |s| && forall c | 0 <= c < |s| :: t[c] == Times(scale, s[c])
  {
    seq(|s|, c requires 0 <= c < |s| => Times(scale, s[c]))
  }

  /** Pressure and source by a factor. */
  function Scaled(f: Solve, scale: real): Solve {
    Solve(f.obstacle, AllTimes(scale, f.pressure), AllTimes(scale, f.divergence))
  }

  lemma ErrorScales(g: Grid, f: Solve, scale: real, c: nat)
    requires Covers(g, f) && Nested(g, 0, c)
    ensures ErrorAt(g, Scaled(f, scale), c) == Times(scale, ErrorAt(g, f, c))
  {
    hide Times, AllTimes;
    NeighboursInGrid(g, c);
    Distribute(scale, f.divergence[c], f.pressure[c], Read(f, c - 1, c), Read(f, c + 1, c),
               Read(f, c - g.StrideX(), c), Read(f, c + g.StrideX(), c), Read(f, c - g.Plane(), c),
               Read(f, c + g.Plane(), c));
  }

  lemma Distribute(s: real, d: real, p: real, a: real, b: real, c: real, e: real, h: real, k: real)
    ensures Times(s, d - 6.0 * p + a + b + c + e + h + k)
         == Times(s, d) - 6.0 * Times(s, p) + Times(s, a) + Times(s, b) + Times(s, c) + Times(s, e) + Times(s, h)
            + Times(s, k)
  {
  }

  lemma SquareScales(scale: real, r: real)
    ensures Square(Times(scale, r)) == Times(Square(scale), Square(r))
  {
    assert scale * r * (scale * r) == scale * scale * (r * r);
  }

  lemma SumScales(a: real, b: real, c: real)
    ensures Times(a, b + c) == Times(a, b) + Times(a, c) && Times(a, 0.0) == 0.0
  {
  }

  lemma {:induction false} SumsScale(g: Grid, f: Solve, scale: real, n: nat)
    requires Covers(g, f) && n <= g.CellCount()
    ensures var sums, scaled := SumsBelow(g, f, n), SumsBelow(g, Scaled(f, scale), n);
      && scaled.residual == Times(Square(scale), sums.residual)
      && scaled.source == Times(Square(scale), sums.source)
  {
    hide Square, Times, ErrorAt, Nested, AllTimes;
    SumScales(Square(scale), 0.0, 0.0);
    if n > 0 {
      SumsScale(g, f, scale, n - 1);
      if Nested(g, 0, n - 1) && !f.obstacle[n - 1] {
        ErrorScales(g, f, scale, n - 1);
        SquareScales(scale, ErrorAt(g, f, n - 1));
        SquareScales(scale, f.divergence[n - 1]);
        var sums := SumsBelow(g, f, n - 1);
        SumScales(Square(scale), sums.residual, Square(ErrorAt(g, f, n - 1)));
        SumScales(Square(scale), sums.source, Square(f.divergence[n - 1]));
      }
    }
  }

  /** The relative residual is relative: it is the same at whatever scale the equation is written. */
  lemma ResidualIsRelative(g: Grid, f: Solve, scale: real, r: real)
    requires Covers(g, f) && scale != 0.0
    ensures IsResidual(SumsBelow(g, Scaled(f, scale), g.CellCount()), r)
      <==> IsResidual(SumsBelow(g, f, g.CellCount()), r)
  {
    SumsScale(g, f, scale, g.CellCount());
    hide Square, SumsBelow, Times, Scaled, Covers;
    SquarePositive(scale);
    var sums := SumsBelow(g, f, g.CellCount());
    RatioScales(Square(scale), sums, r);
  }

  lemma SquarePositive(r: real)
    ensures Square(r) >= 0.0 && (Square(r) == 0.0 <==> r == 0.0)
  {
    if r > 0.0 {
      SquareRisesStrictly(0.0, r);
    } else if r < 0.0 {
      SquareRisesStrictly(0.0, -r);
      assert -r * -r == r * r;
    }
  }

  lemma RatioScales(a: real, sums: Sums, r: real)
    requires a > 0.0
    ensures IsResidual(Sums(Times(a, sums.residual), Times(a, sums.source)), r) <==> IsResidual(sums, r)
  {
    var ratio := Square(r);
    hide Square;
    assert a * sums.source > 0.0 <==> sums.source > 0.0;
    assert ratio * (a * sums.source) == a * (ratio * sums.source);
    var gap := ratio * sums.source - sums.residual;
    assert a * gap == a * (ratio * sums.source) - a * sums.residual;
    assert a * gap == 0.0 <==> gap == 0.0;
  }

  /** The sum of squares is nought exactly when the equation holds at every free cell. */
  lemma {:induction false} NoResidualIffSolved(g: Grid, f: Solve, n: nat)
    requires Covers(g, f) && n <= g.CellCount()
    ensures SumsBelow(g, f, n).residual == 0.0
      <==> forall c: nat | c < n && Nested(g, 0, c) && !f.obstacle[c] :: ErrorAt(g, f, c) == 0.0
  {
    hide ErrorAt, Square;
    if n > 0 {
      NoResidualIffSolved(g, f, n - 1);
      SumsNotNegative(g, f, n - 1);
      if Nested(g, 0, n - 1) && !f.obstacle[n - 1] {
        SquarePositive(ErrorAt(g, f, n - 1));
      }
    }
  }
}
