/** How the fluid bench walks a grid with a one-cell halo: a flat scan that is the nested scan. */
module FluidScan {
  import opened Reals

  /** The grid without its halo. */
  datatype Grid = Grid(width: nat, height: nat, depth: nat) {
    function StrideX(): nat {
      width + 2
    }

    function StrideY(): nat {
      height + 2
    }

    /** The cells of one plane, which is the step from a cell to the one above it. */
    function Plane(): (cells: nat)
      ensures cells >= StrideX()
    {
      StrideFits(StrideX(), StrideY());
      StrideX() * StrideY()
    }

    function CellCount(): nat {
      Plane() * (depth + 2)
    }

    function Index(i: nat, j: nat, k: nat): nat {
      i + j * StrideX() + k * Plane()
    }

    function Column(index: nat): nat {
      index % StrideX()
    }

    function Row(index: nat): nat {
      index / StrideX() % StrideY()
    }

    function PlaneOf(index: nat): nat {
      index / StrideX() / StrideY()
    }
  }

  lemma DivModUnique(n: nat, m: nat, q: nat, r: nat)
    requires r < m && n == q * m + r
    ensures n / m == q && n % m == r
  {
    var d := n / m - q;
    assert d * m == n / m * m - q * m;
    assert d * m == r - n % m;
    assert d >= 1 ==> d * m >= m;
    assert d <= -1 ==> d * m + m <= 0;
  }

  lemma RowFits(x: nat, y: nat, i: nat, j: nat)
    requires i < x && j < y
    ensures i + j * x < x * y
  {
    assert (j + 1) * x <= y * x;
  }

  lemma RowsOf(x: nat, y: nat, i: nat, j: nat, k: nat)
    ensures i + j * x + k * (x * y) == (j + k * y) * x + i
  {
    assert k * (x * y) == k * y * x;
    assert (j + k * y) * x == j * x + k * y * x;
  }

  lemma CoordinatesOf(x: nat, y: nat, i: nat, j: nat, k: nat, index: nat)
    requires i < x && j < y && index == i + j * x + k * (x * y)
    ensures index % x == i && index / x == j + k * y
    ensures (j + k * y) % y == j && (j + k * y) / y == k
  {
    RowsOf(x, y, i, j, k);
    DivModUnique(index, x, j + k * y, i);
    DivModUnique(j + k * y, y, k, j);
  }

  lemma IndexOf(x: nat, y: nat, index: nat, rows: nat)
    requires x > 0 && y > 0 && rows == index / x
    ensures index == index % x + rows % y * x + rows / y * (x * y)
  {
    RowsOf(x, y, index % x, rows % y, rows / y);
    assert index == rows * x + index % x;
    assert rows == rows % y + rows / y * y;
  }

  lemma PlanesOf(p: nat, d: nat, r: nat, k: nat)
    requires r < p
    ensures p <= r + k * p && r + k * p + p < p * (d + 2) <==> 1 <= k <= d
  {
    assert k >= 1 ==> k * p >= p;
    assert k <= d ==> (k + 2) * p <= (d + 2) * p;
    assert k > d ==> (k + 1) * p >= (d + 2) * p;
  }

  /** Coordinates and index determine each other. */
  lemma IndexRoundTrip(g: Grid, i: nat, j: nat, k: nat)
    requires i < g.StrideX() && j < g.StrideY()
    ensures var index := g.Index(i, j, k);
      g.Column(index) == i && g.Row(index) == j && g.PlaneOf(index) == k
  {
    CoordinatesOf(g.StrideX(), g.StrideY(), i, j, k, g.Index(i, j, k));
  }

  lemma CoordinatesRoundTrip(g: Grid, index: nat)
    ensures index == g.Index(g.Column(index), g.Row(index), g.PlaneOf(index))
    ensures g.Column(index) < g.StrideX() && g.Row(index) < g.StrideY()
  {
    IndexOf(g.StrideX(), g.StrideY(), index, index / g.StrideX());
  }

  /** The planes the nested scan covers at a margin: a grid too thin for the margin is covered whole. */
  function LowZ(g: Grid, margin: nat): nat {
    if g.depth > 2 * margin then 1 + margin else 1
  }

  function HighZ(g: Grid, margin: nat): nat {
    if g.depth > 2 * margin then g.depth - margin else g.depth
  }

  predicate InMargin(g: Grid, margin: nat, i: nat, j: nat, k: nat) {
    && 1 + margin <= i && i + margin <= g.width
    && 1 + margin <= j && j + margin <= g.height
    && LowZ(g, margin) <= k <= HighZ(g, margin)
  }

  /** The nested scan at the margin comes to the cell. */
  ghost predicate Nested(g: Grid, margin: nat, index: nat) {
    exists i: nat, j: nat, k: nat :: InMargin(g, margin, i, j, k) && index == g.Index(i, j, k)
  }

  /** The flat scan's range and its test for the halo. */
  predicate Flat(g: Grid, index: nat) {
    g.Plane() <= index && index + g.Plane() < g.CellCount() && !Halo(g, index)
  }

  /** The cell is on the halo of its plane. */
  predicate Halo(g: Grid, index: nat) {
    var i, j := g.Column(index), g.Row(index);
    i == 0 || i > g.width || j == 0 || j > g.height
  }

  lemma PlaneRange(g: Grid, i: nat, j: nat, k: nat)
    requires i < g.StrideX() && j < g.StrideY()
    ensures var index := g.Index(i, j, k);
      g.Plane() <= index && index + g.Plane() < g.CellCount() <==> 1 <= k <= g.depth
  {
    RowFits(g.StrideX(), g.StrideY(), i, j);
    PlanesOf(g.Plane(), g.depth, i + j * g.StrideX(), k);
  }

  /** The flat scan comes to exactly the cells of the triple loop with no margin. */
  lemma FlatIsNested(g: Grid, index: nat)
    ensures Flat(g, index) <==> Nested(g, 0, index)
  {
    if Flat(g, index) {
      FlatComesNested(g, index);
    }
    if i: nat, j: nat, k: nat :| InMargin(g, 0, i, j, k) && index == g.Index(i, j, k) {
      IndexRoundTrip(g, i, j, k);
      PlaneRange(g, i, j, k);
    }
  }

  lemma FlatComesNested(g: Grid, index: nat)
    requires Flat(g, index)
    ensures Nested(g, 0, index)
  {
    var i, j, k := g.Column(index), g.Row(index), g.PlaneOf(index);
    CoordinatesRoundTrip(g, index);
    PlaneRange(g, i, j, k);
    assert InMargin(g, 0, i, j, k);
  }

  /** The triple loop comes to no cell twice. */
  lemma NestedOnceEach(g: Grid, margin: nat, i: nat, j: nat, k: nat, i': nat, j': nat, k': nat)
    requires InMargin(g, margin, i, j, k) && InMargin(g, margin, i', j', k')
    requires g.Index(i, j, k) == g.Index(i', j', k')
    ensures i == i' && j == j' && k == k'
  {
    IndexRoundTrip(g, i, j, k);
    IndexRoundTrip(g, i', j', k');
  }

  /** A wider margin only leaves cells out. */
  lemma MarginShrinks(g: Grid, margin: nat, index: nat)
    requires Nested(g, margin, index)
    ensures Nested(g, 0, index)
  {
    var i: nat, j: nat, k: nat :| InMargin(g, margin, i, j, k) && index == g.Index(i, j, k);
    assert InMargin(g, 0, i, j, k);
  }

  lemma StrideFits(x: nat, y: nat)
    requires y > 0
    ensures x <= x * y
  {
  }

  /** All six neighbours of a cell the scan comes to are cells of the grid. */
  lemma NeighboursInGrid(g: Grid, index: nat)
    requires Nested(g, 0, index)
    ensures g.Plane() <= index && index + g.Plane() < g.CellCount()
    ensures 1 <= g.StrideX() <= g.Plane()
  {
    FlatIsNested(g, index);
  }

  // ---- The largest divergence ---------------------------------------------------------------------------------

  datatype Velocity = Velocity(x: seq<real>, y: seq<real>, z: seq<real>)

  predicate Fills(g: Grid, v: Velocity) {
    |v.x| == |v.y| == |v.z| == g.CellCount()
  }

  /** Half the magnitude of the divergence at a cell. */
  ghost function Divergence(g: Grid, v: Velocity, index: nat): real
    requires Fills(g, v) && Nested(g, 0, index)
  {
    NeighboursInGrid(g, index);
    Abs((v.x[index + 1] - v.x[index - 1] + (v.y[index + g.StrideX()] - v.y[index - g.StrideX()])
         + (v.z[index + g.Plane()] - v.z[index - g.Plane()])) * 0.5)
  }

  /** The value is the largest over the cells of the margin, or nought when there are none. */
  ghost predicate IsWorst(g: Grid, v: Velocity, margin: nat, worst: real)
    requires Fills(g, v)
  {
    && worst >= 0.0
    && (forall index | Nested(g, margin, index) :: Nested(g, 0, index) && Divergence(g, v, index) <= worst)
    && (worst == 0.0 || exists index ::
          Nested(g, margin, index) && Nested(g, 0, index) && Divergence(g, v, index) == worst)
  }

  /** The largest divergence never grows with the margin. */
  lemma WorstNeverGrows(g: Grid, v: Velocity, margin: nat, beyond: real, everywhere: real)
    requires Fills(g, v) && IsWorst(g, v, margin, beyond) && IsWorst(g, v, 0, everywhere)
    ensures 0.0 <= beyond <= everywhere
  {
  }

  /** Cell (i', j', k') comes before cell (i, j, k) in the triple loop. */
  predicate Earlier(i': nat, j': nat, k': nat, i: nat, j: nat, k: nat) {
    k' < k || (k' == k && (j' < j || (j' == j && i' < i)))
  }

  /** The cells seen are cells of the margin, and every cell that comes before (i, j, k) is one of them. */
  ghost predicate SeenUpTo(g: Grid, margin: nat, seen: set<nat>, i: nat, j: nat, k: nat) {
    && (forall index | index in seen :: Nested(g, margin, index))
    && (forall i': nat, j': nat, k': nat | InMargin(g, margin, i', j', k') && Earlier(i', j', k', i, j, k) ::
          g.Index(i', j', k') in seen)
  }

  /** The value is the largest divergence of the cells seen. */
  ghost predicate WorstOf(g: Grid, v: Velocity, seen: set<nat>, worst: real)
    requires Fills(g, v)
  {
    && worst >= 0.0
    && (forall index | index in seen :: Nested(g, 0, index) && Divergence(g, v, index) <= worst)
    && (worst == 0.0 || exists index :: index in seen && Nested(g, 0, index) && Divergence(g, v, index) == worst)
  }

  lemma SeeOne(g: Grid, v: Velocity, margin: nat, seen: set<nat>, worst: real, i: nat, j: nat, k: nat)
    requires Fills(g, v) && WorstOf(g, v, seen, worst) && SeenUpTo(g, margin, seen, i, j, k)
    requires InMargin(g, margin, i, j, k)
    ensures Nested(g, margin, g.Index(i, j, k)) && Nested(g, 0, g.Index(i, j, k))
    ensures var index := g.Index(i, j, k);
      var d := Divergence(g, v, index);
      WorstOf(g, v, seen + {index}, if worst < d then d else worst)
    ensures SeenUpTo(g, margin, seen + {g.Index(i, j, k)}, i + 1, j, k)
  {
    var index := g.Index(i, j, k);
    assert Nested(g, margin, index);
    MarginShrinks(g, margin, index);
  }

  lemma SeenAll(g: Grid, v: Velocity, margin: nat, seen: set<nat>, worst: real, i: nat, j: nat)
    requires Fills(g, v) && WorstOf(g, v, seen, worst) && SeenUpTo(g, margin, seen, i, j, HighZ(g, margin) + 1)
    ensures IsWorst(g, v, margin, worst)
  {
    forall index | Nested(g, margin, index) ensures index in seen {
      var i': nat, j': nat, k': nat :| InMargin(g, margin, i', j', k') && index == g.Index(i', j', k');
      assert Earlier(i', j', k', i, j, HighZ(g, margin) + 1);
    }
  }

  lemma NothingSeen(g: Grid, margin: nat)
    ensures SeenUpTo(g, margin, {}, 0, 0, LowZ(g, margin))
    ensures LowZ(g, margin) <= HighZ(g, margin) + 1
  {
  }

  /** The greatest half-divergence among the cells at least a margin from every wall; nought with no such cell. */
  method WorstDivergenceBeyond(g: Grid, v: Velocity, margin: nat) returns (worst: real)
    requires Fills(g, v)
    ensures IsWorst(g, v, margin, worst)
  {
    worst := 0.0;
    ghost var seen: set<nat> := {};
    NothingSeen(g, margin);
    var k := LowZ(g, margin);
    var highZ := HighZ(g, margin);
    while k <= highZ
      invariant LowZ(g, margin) <= k <= highZ + 1
      invariant WorstOf(g, v, seen, worst) && SeenUpTo(g, margin, seen, 0, 0, k)
      decreases highZ + 1 - k
    {
      worst, seen := WorstOfPlane(g, v, margin, k, worst, seen);
      k := k + 1;
    }
    SeenAll(g, v, margin, seen, worst, 0, 0);
  }

  method WorstOfPlane(g: Grid, v: Velocity, margin: nat, k: nat, start: real, ghost seen: set<nat>)
    returns (worst: real, ghost seen': set<nat>)
    requires Fills(g, v) && LowZ(g, margin) <= k <= HighZ(g, margin)
    requires WorstOf(g, v, seen, start) && SeenUpTo(g, margin, seen, 0, 0, k)
    ensures WorstOf(g, v, seen', worst) && SeenUpTo(g, margin, seen', 0, 0, k + 1)
  {
    worst, seen' := start, seen;
    var j := 1 + margin;
    while j + margin <= g.height
      invariant j >= 1 + margin
      invariant WorstOf(g, v, seen', worst) && SeenUpTo(g, margin, seen', 0, j, k)
      decreases g.height - j
    {
      worst, seen' := WorstOfRow(g, v, margin, j, k, worst, seen');
      j := j + 1;
    }
  }

  method WorstOfRow(g: Grid, v: Velocity, margin: nat, j: nat, k: nat, start: real, ghost seen: set<nat>)
    returns (worst: real, ghost seen': set<nat>)
    requires Fills(g, v) && LowZ(g, margin) <= k <= HighZ(g, margin) && 1 + margin <= j && j + margin <= g.height
    requires WorstOf(g, v, seen, start) && SeenUpTo(g, margin, seen, 0, j, k)
    ensures WorstOf(g, v, seen', worst) && SeenUpTo(g, margin, seen', 0, j + 1, k)
  {
    worst, seen' := start, seen;
    var stepY, stepZ := g.StrideX(), g.Plane();
    var i := 1 + margin;
    while i + margin <= g.width
      invariant i >= 1 + margin
      invariant WorstOf(g, v, seen', worst) && SeenUpTo(g, margin, seen', i, j, k)
      decreases g.width - i
    {
      hide WorstOf, SeenUpTo, Nested;
      SeeOne(g, v, margin, seen', worst, i, j, k);
      var index: nat := i + j * stepY + k * stepZ;
      NeighboursInGrid(g, index);
      var divergence := v.x[index + 1] - v.x[index - 1] + (v.y[index + stepY] - v.y[index - stepY])
                        + (v.z[index + stepZ] - v.z[index - stepZ]);
      var d := Abs(divergence * 0.5);
      worst := if worst < d then d else worst;
      seen' := seen' + {index};
      i := i + 1;
    }
  }

  // ---- The pressure residual ------------------------------------------------------------------------------------

  datatype Solve = Solve(obstacle: seq<bool>, pressure: seq<real>, divergence: seq<real>)

  predicate Covers(g: Grid, f: Solve) {
    |f.obstacle| == |f.pressure| == |f.divergence| == g.CellCount()
  }

  /** A neighbour's pressure, read as the centre's where the neighbour is solid. */
  function Read(f: Solve, neighbour: nat, centre: nat): real
    requires neighbour < |f.obstacle| == |f.pressure| && centre < |f.pressure|
  {
    if f.obstacle[neighbour] then f.pressure[centre] else f.pressure[neighbour]
  }

  /** How far the Poisson equation is from holding at a cell. */
  ghost function ErrorAt(g: Grid, f: Solve, c: nat): real
    requires Covers(g, f) && Nested(g, 0, c)
  {
    NeighboursInGrid(g, c);
    f.divergence[c] - 6.0 * f.pressure[c]
    + Read(f, c - 1, c) + Read(f, c + 1, c)
    + Read(f, c - g.StrideX(), c) + Read(f, c + g.StrideX(), c)
    + Read(f, c - g.Plane(), c) + Read(f, c + g.Plane(), c)
  }

  datatype Sums = Sums(residual: real, source: real)

  /** The squares of the errors and of the source, over the free cells of the nested scan below an index. */
  ghost function SumsBelow(g: Grid, f: Solve, n: nat): Sums
    requires Covers(g, f) && n <= g.CellCount()
  {
    if n == 0 then Sums(0.0, 0.0)
    else
      var before := SumsBelow(g, f, n - 1);
      if Nested(g, 0, n - 1) && !f.obstacle[n - 1] then
        Sums(before.residual + Square(ErrorAt(g, f, n - 1)), before.source + Square(f.divergence[n - 1]))
      else before
  }

  lemma {:induction false} NothingBelow(g: Grid, f: Solve, n: nat)
    requires Covers(g, f) && n <= g.CellCount() && n <= g.Plane()
    ensures SumsBelow(g, f, n) == Sums(0.0, 0.0)
  {
    if n > 0 {
      FlatIsNested(g, n - 1);
      NothingBelow(g, f, n - 1);
    }
  }

  lemma {:induction false} NothingAbove(g: Grid, f: Solve, from: nat, n: nat)
    requires Covers(g, f) && from <= n <= g.CellCount() && from + g.Plane() >= g.CellCount()
    ensures SumsBelow(g, f, n) == SumsBelow(g, f, from)
  {
    if from < n {
      FlatIsNested(g, n - 1);
      NothingAbove(g, f, from, n - 1);
    }
  }

  lemma AddsNothing(g: Grid, f: Solve, index: nat)
    requires Covers(g, f) && index < g.CellCount() && (!Nested(g, 0, index) || f.obstacle[index])
    ensures SumsBelow(g, f, index + 1) == SumsBelow(g, f, index)
  {
  }

  lemma AddsOne(g: Grid, f: Solve, index: nat)
    requires Covers(g, f) && index < g.CellCount() && Nested(g, 0, index) && !f.obstacle[index]
    ensures var sums := SumsBelow(g, f, index);
      SumsBelow(g, f, index + 1)
      == Sums(sums.residual + Square(ErrorAt(g, f, index)), sums.source + Square(f.divergence[index]))
  {
    hide Square;
  }

  method PressureError(g: Grid, f: Solve, index: nat) returns (error: real)
    requires Covers(g, f) && Nested(g, 0, index)
    ensures error == ErrorAt(g, f, index)
  {
    NeighboursInGrid(g, index);
    var offsets := [1, g.StrideX(), g.Plane()];
    var centre := f.pressure[index];
    error := f.divergence[index] - 6.0 * centre;
    for axis := 0 to 3
      invariant axis == 0 ==> error == f.divergence[index] - 6.0 * centre
      invariant axis == 1 ==> error == (f.divergence[index] - 6.0 * centre
                                        + Read(f, index - 1, index) + Read(f, index + 1, index))
      invariant axis == 2 ==> error == (f.divergence[index] - 6.0 * centre
                                        + Read(f, index - 1, index) + Read(f, index + 1, index)
                                        + Read(f, index - g.StrideX(), index) + Read(f, index + g.StrideX(), index))
      invariant axis == 3 ==> error == ErrorAt(g, f, index)
    {
      error := error + if f.obstacle[index - offsets[axis]] then centre else f.pressure[index - offsets[axis]];
      error := error + if f.obstacle[index + offsets[axis]] then centre else f.pressure[index + offsets[axis]];
    }
  }

  lemma {:induction false} SumsNotNegative(g: Grid, f: Solve, n: nat)
    requires Covers(g, f) && n <= g.CellCount()
    ensures SumsBelow(g, f, n).residual >= 0.0 && SumsBelow(g, f, n).source >= 0.0
  {
    if n > 0 {
      SumsNotNegative(g, f, n - 1);
      assert forall r: real :: Square(r) >= 0.0 by {
        forall r: real ensures Square(r) >= 0.0 {
          SquareNotNegative(r);
        }
      }
    }
  }

  lemma SquareNotNegative(r: real)
    ensures Square(r) >= 0.0
  {
  }

  lemma RatioNotNegative(a: real, b: real)
    requires a >= 0.0 && b > 0.0
    ensures a / b >= 0.0 && a / b * b == a
  {
  }

  /** The relative residual is the root of the ratio of the two sums, or nought without a source. */
  predicate IsResidual(sums: Sums, r: real) {
    if sums.source > 0.0 then r >= 0.0 && Square(r) * sums.source == sums.residual else r == 0.0
  }

  function Relative(sums: Sums, root: real -> real): (r: real)
    requires IsRoot(root) && sums.residual >= 0.0
    ensures IsResidual(sums, r)
  {
    if sums.source > 0.0 then
      RatioNotNegative(sums.residual, sums.source);
      root(sums.residual / sums.source)
    else 0.0
  }

  /** The relative residual of the whole grid, by one loop; `root` is the platform's square root. */
  method PressureResidual(g: Grid, f: Solve, root: real -> real) returns (r: real)
    requires Covers(g, f) && IsRoot(root)
    ensures IsResidual(SumsBelow(g, f, g.CellCount()), r)
  {
    var residual, source := 0.0, 0.0;
    var index := g.Plane();
    TwoPlanes(g);
    NothingBelow(g, f, index);
    while index + g.Plane() < g.CellCount()
      invariant g.Plane() <= index && index + g.Plane() <= g.CellCount()
      invariant Sums(residual, source) == SumsBelow(g, f, index)
    {
      FlatIsNested(g, index);
      if Halo(g, index) || f.obstacle[index] {
        AddsNothing(g, f, index);
        index := index + 1;
        continue;
      }
      var error := PressureError(g, f, index);
      AddsOne(g, f, index);
      residual := residual + Square(error);
      source := source + Square(f.divergence[index]);
      index := index + 1;
    }
    hide *;
    NothingAbove(g, f, index, g.CellCount());
    SumsNotNegative(g, f, g.CellCount());
    return Relative(Sums(residual, source), root);
  }

  lemma TwoPlanes(g: Grid)
    ensures 2 * g.Plane() <= g.CellCount()
  {
  }
}
