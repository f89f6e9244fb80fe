/** What a pick promises to the two clicks and to the renderer. */
module VoxelPick {
  import opened VoxelGrid
  import opened Wrappers
  import opened VoxelMarch

  /** The march has entered its cell at this time or before. */
  predicate EnteredBy(m: March, time: real) {
    m.travel.Finite? && m.travel.t <= time
  }

  /** There is a pick exactly when the march enters some solid cell within reach. */
  lemma PickIffSolidEntered(w: World, o: Vector, d: Vector)
    ensures Picked(w, o, d).Some?
      <==> exists n: nat :: EnteredBy(Nth(o, d, n), REACH) && Solid(w, Nth(o, d, n).cell)
  {
    if n: nat :| EnteredBy(Nth(o, d, n), REACH) && Solid(w, Nth(o, d, n).cell) {
      var k := FirstSolidCell(w, o, d, n);
      TravelRises(o, d, k, n);
      assert HitAt(w, o, d, k);
    }
  }

  lemma ConsecutiveCellsShareAFace(o: Vector, d: Vector, n: nat)
    requires n > 0
    ensures FaceAdjacent(Nth(o, d, n - 1).cell, Nth(o, d, n).cell)
    ensures Nth(o, d, n).prev == Nth(o, d, n - 1).cell
  {
    var m := Nth(o, d, n - 1);
    var axis := NextAxis(m.tMax);
    assert Nth(o, d, n).cell == Shift(m.cell, axis, StepOf(d.At(axis)));
  }

  lemma CellsNeverRepeat(o: Vector, d: Vector, i: nat, j: nat)
    requires i < j && Nth(o, d, j).travel.Finite?
    ensures Nth(o, d, i).cell != Nth(o, d, j).cell
  {
    TravelRises(o, d, i, j);
    NthIsNAway(o, d, i);
    NthIsNAway(o, d, j);
  }

  /** The face the ray came through looks onto air, unless the eye itself is inside the block it picks. */
  lemma PlaceIsAirNeighbour(w: World, o: Vector, d: Vector)
    requires Picked(w, o, d).Some?
    ensures var pick := Picked(w, o, d).value;
      if Solid(w, CellOf(o)) then pick == Pick(CellOf(o), CellOf(o))
      else FaceAdjacent(pick.place, pick.target) && !Solid(w, pick.place)
  {
    var n: nat :| HitAt(w, o, d, n);
    HitDecidesPick(w, o, d, n);
    assert Nth(o, d, 0).cell == CellOf(o);
    if n > 0 {
      ConsecutiveCellsShareAFace(o, d, n);
    }
  }

  /** What is picked is drawn, unless the eye is inside a block that is not. */
  lemma PickedIsDrawn(w: World, o: Vector, d: Vector)
    requires Picked(w, o, d).Some?
    ensures Drawn(w, Picked(w, o, d).value.target) <==> (Solid(w, CellOf(o)) ==> Drawn(w, CellOf(o)))
  {
    FirstHitIsSolid(w, o, d);
    PlaceIsAirNeighbour(w, o, d);
    ExposedIffAirNeighbour(w, Picked(w, o, d).value.target);
  }

  lemma FirstHitIsSolid(w: World, o: Vector, d: Vector)
    requires Picked(w, o, d).Some?
    ensures Solid(w, Picked(w, o, d).value.target)
  {
    var n: nat :| HitAt(w, o, d, n);
    HitDecidesPick(w, o, d, n);
  }

  /** From an eye in air or in a drawn block, the ray picks the same in the world with the undrawn blocks taken out. */
  lemma CullingKeepsPickOutside(w: World, o: Vector, d: Vector)
    requires Solid(w, CellOf(o)) ==> Drawn(w, CellOf(o))
    ensures Picked(Culled(w), o, d) == Picked(w, o, d)
  {
    var culled := Culled(w);
    assert forall c :: Solid(culled, c) <==> Drawn(w, c);
    if Picked(w, o, d).Some? {
      var n: nat :| HitAt(w, o, d, n);
      HitDecidesPick(w, o, d, n);
      PickedIsDrawn(w, o, d);
      assert HitAt(culled, o, d, n);
      HitDecidesPick(culled, o, d, n);
    } else {
      PickIffSolidEntered(w, o, d);
      PickIffSolidEntered(culled, o, d);
    }
  }

  /** Skipping the undrawn blocks changes what the crosshair is on only when the eye is inside one of them. */
  lemma CullingKeepsPick(w: World, o: Vector, d: Vector)
    ensures Picked(Culled(w), o, d) == Picked(w, o, d) <==> (Solid(w, CellOf(o)) ==> Drawn(w, CellOf(o)))
  {
    if Solid(w, CellOf(o)) ==> Drawn(w, CellOf(o)) {
      CullingKeepsPickOutside(w, o, d);
    } else {
      assert Nth(o, d, 0).cell == CellOf(o);
      PickIffSolidEntered(w, o, d);
      PlaceIsAirNeighbour(w, o, d);
      if Picked(Culled(w), o, d).Some? {
        FirstHitIsSolid(Culled(w), o, d);
      }
    }
  }

  /** The world after a frame's clicks on a pick: a left click breaks the target, then a right click fills the place. */
  function Clicked(w: World, pick: Option<Pick>, kind: BlockKind, left: bool, right: bool): World {
    if pick.None? then w
    else
      var dug := if left then w[pick.value.target := Air] else w;
      if right && pick.value.place in dug && dug[pick.value.place] == Air then dug[pick.value.place := kind] else dug
  }

  /** A left click alone empties the target, whatever it is, and touches no other cell. */
  lemma LeftClickBreaks(w: World, pick: Pick, kind: BlockKind)
    requires pick.target in w
    ensures var w' := Clicked(w, Some(pick), kind, true, false);
      && BlockAt(w', pick.target) == Air && w'.Keys == w.Keys
      && forall c | c != pick.target :: BlockAt(w', c) == BlockAt(w, c)
  {
  }

  /** A right click alone fills the place exactly when it is an empty cell of the chunk, and touches no other cell. */
  lemma RightClickBuilds(w: World, pick: Pick, kind: BlockKind)
    ensures var w' := Clicked(w, Some(pick), kind, false, true);
      && BlockAt(w', pick.place)
         == (if pick.place in w && !Solid(w, pick.place) then kind else BlockAt(w, pick.place))
      && w'.Keys == w.Keys && forall c | c != pick.place :: BlockAt(w', c) == BlockAt(w, c)
  {
  }

  /**
   * Both buttons in one frame: the target is emptied first. So an eye inside the picked block replaces it by one of the
   * chosen kind, and otherwise the two clicks do to their two cells what each does alone.
   */
  lemma BothClicks(w: World, pick: Pick, kind: BlockKind)
    requires pick.target in w
    ensures var w' := Clicked(w, Some(pick), kind, true, true);
      && (if pick.place == pick.target then BlockAt(w', pick.target) == kind
          else && BlockAt(w', pick.target) == Air
               && BlockAt(w', pick.place) == BlockAt(Clicked(w, Some(pick), kind, false, true), pick.place))
      && w'.Keys == w.Keys && forall c | c != pick.target && c != pick.place :: BlockAt(w', c) == BlockAt(w, c)
  {
  }

  /** Without a pick or without a button nothing happens. */
  lemma NoClickNoChange(w: World, pick: Option<Pick>, kind: BlockKind, left: bool, right: bool)
    requires pick.None? || !(left || right)
    ensures Clicked(w, pick, kind, left, right) == w
  {
  }

  /** The march's n-th cell is met first once the solid cells before it have been taken out. */
  ghost predicate NextBehind(w: World, o: Vector, d: Vector, n: nat, k: nat) {
    && n < k && InReach(Nth(o, d, k).travel) && Solid(w, Nth(o, d, k).cell)
    && forall j: nat | n < j < k :: !Solid(w, Nth(o, d, j).cell)
  }

  /** Breaking the target lets the same ray through to whatever solid cell it meets next, and to none nearer. */
  lemma BreakRevealsNext(w: World, o: Vector, d: Vector, kind: BlockKind, n: nat, k: nat)
    requires HitAt(w, o, d, n)
    ensures var broken := Clicked(w, Picked(w, o, d), kind, true, false);
      HitAt(broken, o, d, k) <==> NextBehind(w, o, d, n, k)
  {
    HitDecidesPick(w, o, d, n);
    var target := Nth(o, d, n).cell;
    assert target in w;
    var broken := w[target := Air];
    assert forall c :: Solid(broken, c) <==> Solid(w, c) && c != target;
    forall j: nat | j != n && InReach(Nth(o, d, j).travel) ensures Nth(o, d, j).cell != target {
      if j < n {
        CellsNeverRepeat(o, d, j, n);
      } else {
        CellsNeverRepeat(o, d, n, j);
      }
    }
    if InReach(Nth(o, d, k).travel) {
      forall j: nat | j < k ensures InReach(Nth(o, d, j).travel) {
        TravelRises(o, d, j, k);
      }
    }
  }

  /**
   * A right click from an eye in air puts the new block exactly where the next ray from the same eye lands, and a left
   * click on it gives the old world back; when the place is outside the chunk the click does nothing.
   */
  lemma PlaceThenBreak(w: World, o: Vector, d: Vector, kind: BlockKind)
    requires kind != Air
    requires !Solid(w, CellOf(o)) && Picked(w, o, d).Some?
    ensures var pick := Picked(w, o, d);
      var built := Clicked(w, pick, kind, false, true);
      if pick.value.place in w then
        && Picked(built, o, d).Some? && Picked(built, o, d).value.target == pick.value.place
        && Clicked(built, Picked(built, o, d), kind, true, false) == w
      else built == w
  {
    var n: nat :| HitAt(w, o, d, n);
    HitDecidesPick(w, o, d, n);
    PlaceIsAirNeighbour(w, o, d);
    assert n > 0;
    hide Nth, HitAt, Picked, FaceAdjacent;
    var place := Picked(w, o, d).value.place;
    BuiltIsHit(w, o, d, kind, n);
    if place in w {
      HitDecidesPick(w[place := kind], o, d, n - 1);
      assert w[place := kind][place := Air] == w;
    }
  }

  /** A block built in front of the target is met at the step before the target's. */
  lemma BuiltIsHit(w: World, o: Vector, d: Vector, kind: BlockKind, n: nat)
    requires kind != Air && n > 0 && HitAt(w, o, d, n)
    ensures Nth(o, d, n).prev == Nth(o, d, n - 1).cell && !Solid(w, Nth(o, d, n).prev)
    ensures HitAt(w[Nth(o, d, n).prev := kind], o, d, n - 1)
  {
    var built := w[Nth(o, d, n).prev := kind];
    ConsecutiveCellsShareAFace(o, d, n);
    TravelRises(o, d, n - 1, n);
    hide Advance, NextAxis, FaceAdjacent;
    forall k: nat | k < n - 1 ensures !Solid(built, Nth(o, d, k).cell) {
      CellsNeverRepeat(o, d, k, n - 1);
    }
  }
}
