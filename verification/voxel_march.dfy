/**
 * The crosshair ray's march through the grid, a cell at a time, and what it means geometrically. Coordinates and
 * times are exact reals; INFINITY is the separate time `Never`.
 */
module VoxelMarch {
  import opened Reals
  import opened VoxelGrid
  import opened Wrappers

  type Vector = Triple<real>

  /** How far, in blocks, the ray reaches. */
  const REACH: real := 7.0

  /** A time along the ray; `Never` is where a ray parallel to an axis meets that axis's next boundary. */
  datatype Time = Finite(t: real) | Never

  predicate Before(a: Time, b: Time) {
    a.Finite? && (b.Finite? ==> a.t < b.t)
  }

  function Plus(a: Time, b: Time): Time {
    if a.Finite? && b.Finite? then Finite(a.t + b.t) else Never
  }

  predicate InReach(t: Time) {
    t.Finite? && t.t <= REACH
  }

  function StepOf(d: real): int {
    if d > 0.0 then 1 else -1
  }

  function DeltaOf(d: real): Time {
    if d != 0.0 then Finite(Abs(1.0 / d)) else Never
  }

  function FirstBoundary(o: real, d: real): Time {
    if d != 0.0 then Finite((o.Floor as real + (if d > 0.0 then 1.0 else 0.0) - o) / d) else Never
  }

  /** The axis whose next boundary comes first; a tie goes to the later axis. */
  function NextAxis(tMax: Triple<Time>): Axis {
    if Before(tMax.x, tMax.y) then (if Before(tMax.x, tMax.z) then 0 else 2)
    else (if Before(tMax.y, tMax.z) then 1 else 2)
  }

  /** Where the march stands: its cell, the one before, when it entered and when each axis is next crossed. */
  datatype March = March(cell: Cell, prev: Cell, tMax: Triple<Time>, travel: Time)

  function CellOf(p: Vector): Cell {
    Triple(p.x.Floor, p.y.Floor, p.z.Floor)
  }

  function Start(o: Vector, d: Vector): March {
    March(CellOf(o), CellOf(o), Triple(FirstBoundary(o.x, d.x), FirstBoundary(o.y, d.y), FirstBoundary(o.z, d.z)),
          Finite(0.0))
  }

  function Advance(m: March, d: Vector): March {
    var axis := NextAxis(m.tMax);
    March(Shift(m.cell, axis, StepOf(d.At(axis))), m.cell,
          m.tMax.With(axis, Plus(m.tMax.At(axis), DeltaOf(d.At(axis)))), m.tMax.At(axis))
  }

  /** The march after n steps. The world plays no part in it. */
  function Nth(o: Vector, d: Vector, n: nat): March {
    if n == 0 then Start(o, d) else Advance(Nth(o, d, n - 1), d)
  }

  /** The first n cells of the march are air. */
  ghost predicate AirBefore(w: World, o: Vector, d: Vector, n: nat) {
    forall k: nat | k < n :: !Solid(w, Nth(o, d, k).cell)
  }

  /** The n-th cell of the march is the first solid one, and is entered within reach. */
  ghost predicate HitAt(w: World, o: Vector, d: Vector, n: nat) {
    && InReach(Nth(o, d, n).travel)
    && Solid(w, Nth(o, d, n).cell)
    && AirBefore(w, o, d, n)
  }

  datatype Pick = Pick(target: Cell, place: Cell)

  /** The block the crosshair is on and the cell the ray came from, or nothing. */
  ghost function Picked(w: World, o: Vector, d: Vector): Option<Pick> {
    if exists n: nat :: HitAt(w, o, d, n) then
      var n: nat :| HitAt(w, o, d, n);
      Some(Pick(Nth(o, d, n).cell, Nth(o, d, n).prev))
    else None
  }

  lemma HitDecidesPick(w: World, o: Vector, d: Vector, n: nat)
    requires HitAt(w, o, d, n)
    ensures Picked(w, o, d) == Some(Pick(Nth(o, d, n).cell, Nth(o, d, n).prev))
  {
    var k: nat :| HitAt(w, o, d, k) && Picked(w, o, d) == Some(Pick(Nth(o, d, k).cell, Nth(o, d, k).prev));
    assert k == n;
  }

  lemma NothingTested(w: World, o: Vector, d: Vector)
    ensures AirBefore(w, o, d, 0) && Nth(o, d, 0) == Start(o, d)
  {
  }

  /** One more cell of air, one more step. */
  lemma StepThroughAir(w: World, o: Vector, d: Vector, n: nat)
    requires AirBefore(w, o, d, n) && !Solid(w, Nth(o, d, n).cell)
    ensures AirBefore(w, o, d, n + 1)
    ensures Nth(o, d, n + 1) == Advance(Nth(o, d, n), d)
  {
  }

  // ---- The geometry each axis keeps --------------------------------------------------------------------------

  function Along(o: real, d: real, t: real): real {
    o + t * d
  }

  /** The point of the ray at time t. */
  function PointAt(o: Vector, d: Vector, t: real): Vector {
    Triple(Along(o.x, d.x, t), Along(o.y, d.y, t), Along(o.z, d.z, t))
  }

  predicate Touches1(p: real, c: int) {
    c as real <= p <= c as real + 1.0
  }

  predicate Inside1(p: real, c: int) {
    (c as real) < p < c as real + 1.0
  }

  /** The point is in the cell or on its boundary. */
  predicate Touches(p: Vector, c: Cell) {
    Touches1(p.x, c.x) && Touches1(p.y, c.y) && Touches1(p.z, c.z)
  }

  /** The point is in the cell's interior. */
  predicate Inside(p: Vector, c: Cell) {
    Inside1(p.x, c.x) && Inside1(p.y, c.y) && Inside1(p.z, c.z)
  }

  /** The coordinate of the boundary the axis crosses on leaving cell c. */
  function Exit(d: real, c: int): real {
    c as real + (if d > 0.0 then 1.0 else 0.0)
  }

  /** At time T the axis is in cell c, and tMax is the exact, not earlier time it leaves c. */
  predicate OnAxis(o: real, d: real, c: int, tMax: Time, T: real) {
    && Touches1(Along(o, d, T), c)
    && (d == 0.0 ==> tMax.Never? && c == o.Floor)
    && (d > 0.0 ==> c >= o.Floor)
    && (d < 0.0 ==> c <= o.Floor)
    && (d != 0.0 ==> tMax.Finite? && T <= tMax.t && Along(o, d, tMax.t) == Exit(d, c))
  }

  /** What every step of a march keeps. */
  predicate OnTrack(o: Vector, d: Vector, m: March) {
    match m.travel
    case Finite(T) =>
      && T >= 0.0
      && OnAxis(o.x, d.x, m.cell.x, m.tMax.x, T)
      && OnAxis(o.y, d.y, m.cell.y, m.tMax.y, T)
      && OnAxis(o.z, d.z, m.cell.z, m.tMax.z, T)
    case Never =>
      d == Triple(0.0, 0.0, 0.0) && m.tMax == Triple(Never, Never, Never)
  }

  lemma Reciprocal(d: real)
    requires d != 0.0
    ensures Abs(1.0 / d) * d == StepOf(d) as real
    ensures Abs(1.0 / d) > 0.0
  {
    var q := 1.0 / d;
    assert q * d == 1.0;
    if d > 0.0 {
      assert q > 0.0;
    } else {
      assert q < 0.0;
      assert (-q) * d == -1.0;
    }
  }

  lemma Monotone(d: real, a: real, b: real)
    requires a <= b
    ensures d >= 0.0 ==> a * d <= b * d
    ensures d <= 0.0 ==> a * d >= b * d
  {
    assert (b - a) * d == b * d - a * d;
    if d >= 0.0 { assert (b - a) * d >= 0.0; }
    if d <= 0.0 { assert (b - a) * d <= 0.0; }
  }

  lemma AxisStarts(o: real, d: real)
    ensures OnAxis(o, d, o.Floor, FirstBoundary(o, d), 0.0)
  {
    if d != 0.0 {
      var gap := Exit(d, o.Floor) - o;
      var t := gap / d;
      assert t * d == gap;
      assert FirstBoundary(o, d) == Finite(t);
      if t < 0.0 {
        Monotone(d, t, 0.0);
        assert false;
      }
    }
  }

  /** The axis that is crossed: it enters its neighbour cell at the boundary. */
  lemma AxisCrosses(o: real, d: real, c: int, tMax: Time, T: real)
    requires OnAxis(o, d, c, tMax, T) && tMax.Finite?
    ensures OnAxis(o, d, c + StepOf(d), Plus(tMax, DeltaOf(d)), tMax.t)
  {
    Reciprocal(d);
    var q := Abs(1.0 / d);
    assert (tMax.t + q) * d == tMax.t * d + q * d;
  }

  /** An axis that is not crossed: its own boundary is still ahead. */
  lemma AxisWaits(o: real, d: real, c: int, tMax: Time, T: real, T': real)
    requires OnAxis(o, d, c, tMax, T) && T <= T'
    requires tMax.Finite? ==> T' <= tMax.t
    ensures OnAxis(o, d, c, tMax, T')
  {
    if d != 0.0 {
      Monotone(d, T, T');
      Monotone(d, T', tMax.t);
    }
  }

  lemma NextIsEarliest(tMax: Triple<Time>, a: Axis)
    ensures !Before(tMax.At(a), tMax.At(NextAxis(tMax)))
    ensures a > NextAxis(tMax) ==> Before(tMax.At(NextAxis(tMax)), tMax.At(a))
  {
  }

  lemma AdvanceKeepsTrack(o: Vector, d: Vector, m: March)
    requires OnTrack(o, d, m)
    ensures OnTrack(o, d, Advance(m, d))
    ensures var m' := Advance(m, d); m'.travel.Finite? ==> m.travel.Finite? && m.travel.t <= m'.travel.t
  {
    var axis := NextAxis(m.tMax);
    NextIsEarliest(m.tMax, 0);
    NextIsEarliest(m.tMax, 1);
    NextIsEarliest(m.tMax, 2);
    if m.travel.Finite? && m.tMax.At(axis).Finite? {
      var T, T' := m.travel.t, m.tMax.At(axis).t;
      if axis == 0 {
        AxisCrosses(o.x, d.x, m.cell.x, m.tMax.x, T);
      } else {
        AxisWaits(o.x, d.x, m.cell.x, m.tMax.x, T, T');
      }
      if axis == 1 {
        AxisCrosses(o.y, d.y, m.cell.y, m.tMax.y, T);
      } else {
        AxisWaits(o.y, d.y, m.cell.y, m.tMax.y, T, T');
      }
      if axis == 2 {
        AxisCrosses(o.z, d.z, m.cell.z, m.tMax.z, T);
      } else {
        AxisWaits(o.z, d.z, m.cell.z, m.tMax.z, T, T');
      }
    }
  }

  lemma {:induction false} NthOnTrack(o: Vector, d: Vector, n: nat)
    ensures OnTrack(o, d, Nth(o, d, n))
  {
    if n == 0 {
      AxisStarts(o.x, d.x);
      AxisStarts(o.y, d.y);
      AxisStarts(o.z, d.z);
    } else {
      NthOnTrack(o, d, n - 1);
      AdvanceKeepsTrack(o, d, Nth(o, d, n - 1));
    }
  }

  /** Entry times never fall, so the cells entered within reach come before all the others. */
  lemma {:induction false} TravelRises(o: Vector, d: Vector, k: nat, n: nat)
    requires k <= n && Nth(o, d, n).travel.Finite?
    ensures Nth(o, d, k).travel.Finite? && 0.0 <= Nth(o, d, k).travel.t <= Nth(o, d, n).travel.t
  {
    NthOnTrack(o, d, n);
    if k < n {
      NthOnTrack(o, d, n - 1);
      AdvanceKeepsTrack(o, d, Nth(o, d, n - 1));
      TravelRises(o, d, k, n - 1);
    }
  }

  // ---- What the cells of the march cover ---------------------------------------------------------------------

  /** A point in a cell's interior touches no other cell. */
  lemma InsideIsOnlyTouch(p: Vector, c: Cell, c': Cell)
    requires Inside(p, c) && Touches(p, c')
    ensures c == c'
  {
  }

  /** While the next boundary is ahead, the ray is in the current cell. */
  lemma StaysInCell(o: Vector, d: Vector, m: March, t: real)
    requires OnTrack(o, d, m) && m.travel.Finite? && m.travel.t <= t
    requires forall a: Axis :: m.tMax.At(a).Finite? ==> t <= m.tMax.At(a).t
    ensures Touches(PointAt(o, d, t), m.cell)
  {
    var T := m.travel.t;
    assert m.tMax.x == m.tMax.At(0) && m.tMax.y == m.tMax.At(1) && m.tMax.z == m.tMax.At(2);
    AxisWaits(o.x, d.x, m.cell.x, m.tMax.x, T, t);
    AxisWaits(o.y, d.y, m.cell.y, m.tMax.y, T, t);
    AxisWaits(o.z, d.z, m.cell.z, m.tMax.z, T, t);
  }

  /** Every cell whose interior the ray meets before the n-th entry is one of the first n cells of the march. */
  lemma {:induction false} EarlierCellsAreVisited(o: Vector, d: Vector, n: nat, t: real, c: Cell) returns (k: nat)
    requires t >= 0.0 && Before(Finite(t), Nth(o, d, n).travel)
    requires Inside(PointAt(o, d, t), c)
    ensures k < n && Nth(o, d, k).cell == c && !Before(Finite(t), Nth(o, d, k).travel)
  {
    NthOnTrack(o, d, n);
    var m := Nth(o, d, n - 1);
    NthOnTrack(o, d, n - 1);
    if Before(Finite(t), m.travel) {
      k := EarlierCellsAreVisited(o, d, n - 1, t, c);
    } else {
      forall a: Axis | m.tMax.At(a).Finite? ensures t <= m.tMax.At(a).t {
        NextIsEarliest(m.tMax, a);
      }
      StaysInCell(o, d, m, t);
      InsideIsOnlyTouch(PointAt(o, d, t), c, m.cell);
      k := n - 1;
    }
  }

  /** When the march enters a cell the ray is touching it. */
  lemma EnteredIsTouched(o: Vector, d: Vector, n: nat)
    requires Nth(o, d, n).travel.Finite?
    ensures Touches(PointAt(o, d, Nth(o, d, n).travel.t), Nth(o, d, n).cell)
  {
    NthOnTrack(o, d, n);
  }

  // ---- How long the march is ---------------------------------------------------------------------------------

  function AbsInt(i: int): nat {
    if i < 0 then -i else i
  }

  /** The number of cell boundaries between two cells. */
  function Distance(c: Cell, c': Cell): nat {
    AbsInt(c.x - c'.x) + AbsInt(c.y - c'.y) + AbsInt(c.z - c'.z)
  }

  lemma AdvanceMovesAway(o: Vector, d: Vector, m: March)
    requires OnTrack(o, d, m) && OnTrack(o, d, Advance(m, d)) && Advance(m, d).travel.Finite?
    ensures Distance(Advance(m, d).cell, CellOf(o)) == Distance(m.cell, CellOf(o)) + 1
  {
  }

  /** The n-th cell is exactly n faces away from the first: the march never turns back. */
  lemma {:induction false} NthIsNAway(o: Vector, d: Vector, n: nat)
    requires Nth(o, d, n).travel.Finite?
    ensures Distance(Nth(o, d, n).cell, CellOf(o)) == n
  {
    if n > 0 {
      TravelRises(o, d, n - 1, n);
      NthIsNAway(o, d, n - 1);
      NthOnTrack(o, d, n - 1);
      NthOnTrack(o, d, n);
      AdvanceMovesAway(o, d, Nth(o, d, n - 1));
    }
  }

  function Spread(d: Vector): real {
    Abs(d.x) + Abs(d.y) + Abs(d.z)
  }

  lemma AxisDistance(o: real, d: real, c: int, tMax: Time, T: real)
    requires OnAxis(o, d, c, tMax, T) && 0.0 <= T <= REACH
    ensures AbsInt(c - o.Floor) as real <= 1.0 + REACH * Abs(d)
  {
    Monotone(d, T, REACH);
    Monotone(d, 0.0, T);
  }

  /** At most 4 + 7 (|dx| + |dy| + |dz|) cells are entered within reach, ties and zero components included. */
  lemma CellsTested(o: Vector, d: Vector, n: nat)
    requires InReach(Nth(o, d, n).travel)
    ensures (n + 1) as real <= 4.0 + REACH * Spread(d)
  {
    NthOnTrack(o, d, n);
    NthIsNAway(o, d, n);
    var m := Nth(o, d, n);
    AxisDistance(o.x, d.x, m.cell.x, m.tMax.x, m.travel.t);
    AxisDistance(o.y, d.y, m.cell.y, m.tMax.y, m.travel.t);
    AxisDistance(o.z, d.z, m.cell.z, m.tMax.z, m.travel.t);
  }

  // ---- First hit ---------------------------------------------------------------------------------------------

  /** The ray meets the cell's interior at time t. */
  predicate MeetsAt(o: Vector, d: Vector, t: real, c: Cell) {
    Inside(PointAt(o, d, t), c)
  }

  /** The least n below bound that satisfies nothing earlier: the first solid cell of the march, if there is one. */
  lemma {:induction false} FirstSolidCell(w: World, o: Vector, d: Vector, n: nat) returns (k: nat)
    requires Solid(w, Nth(o, d, n).cell)
    ensures k <= n && Solid(w, Nth(o, d, k).cell)
    ensures AirBefore(w, o, d, k)
  {
    if j: nat :| j < n && Solid(w, Nth(o, d, j).cell) {
      k := FirstSolidCell(w, o, d, j);
    } else {
      k := n;
    }
  }

  /** The march goes past any reach: some entry lies beyond it. */
  lemma MarchLeavesReach(o: Vector, d: Vector) returns (n: nat)
    ensures !InReach(Nth(o, d, n).travel)
  {
    var bound := 4.0 + REACH * Spread(d);
    n := if bound < 0.0 then 0 else bound.Floor + 1;
    if InReach(Nth(o, d, n).travel) {
      CellsTested(o, d, n);
    }
  }

  /** A pick is a solid cell the ray touches within reach, and every interior it meets before that is air. */
  lemma FirstHit(w: World, o: Vector, d: Vector) returns (T: real)
    requires Picked(w, o, d).Some?
    ensures var target := Picked(w, o, d).value.target;
      && 0.0 <= T <= REACH
      && Solid(w, target)
      && Touches(PointAt(o, d, T), target)
      && forall t, c | 0.0 <= t < T && MeetsAt(o, d, t, c) :: !Solid(w, c)
  {
    var n: nat :| HitAt(w, o, d, n);
    HitDecidesPick(w, o, d, n);
    EnteredIsTouched(o, d, n);
    TravelRises(o, d, 0, n);
    T := Nth(o, d, n).travel.t;
    forall t, c | 0.0 <= t < T && MeetsAt(o, d, t, c) ensures !Solid(w, c) {
      var k := EarlierCellsAreVisited(o, d, n, t, c);
    }
  }

  /** With no pick the ray meets no solid cell's interior anywhere within reach. */
  lemma NoHit(w: World, o: Vector, d: Vector, t: real, c: Cell)
    requires Picked(w, o, d).None?
    requires 0.0 <= t <= REACH && MeetsAt(o, d, t, c)
    ensures !Solid(w, c)
  {
    var beyond := MarchLeavesReach(o, d);
    if Solid(w, c) {
      var k := EarlierCellsAreVisited(o, d, beyond, t, c);
      var first := FirstSolidCell(w, o, d, k);
      TravelRises(o, d, first, k);
      assert HitAt(w, o, d, first);
    }
  }

  /** Once the march has left reach through air, there is no pick. */
  lemma NoneWithinReach(w: World, o: Vector, d: Vector, n: nat)
    requires !InReach(Nth(o, d, n).travel)
    requires AirBefore(w, o, d, n)
    ensures Picked(w, o, d).None?
  {
    if k: nat :| HitAt(w, o, d, k) {
      TravelRises(o, d, n, k);
    }
  }
}
