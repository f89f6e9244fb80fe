/** The sandbox's state: one fixed array of blocks, the eye, and what the crosshair is on this frame. */
module Minecraft {
  import opened Reals
  import opened VoxelGrid
  import opened VoxelMarch
  import opened VoxelPick
  import opened Wrappers

  class Minecraft {
    const blocks: array3<BlockKind>
    var eye: Vector
    var placeKind: BlockKind
    var hasTarget: bool
    var target: Cell
    var place: Cell

    ghost predicate Valid()
      reads this`placeKind
    {
      && blocks.Length0 == WORLD_X && blocks.Length1 == WORLD_Y && blocks.Length2 == WORLD_Z
      && placeKind != Air
    }

    /** The chunk's contents. */
    ghost function World(): (w: World)
      requires Valid()
      reads this`placeKind, blocks
      ensures forall c :: InBounds(c) <==> c in w
      ensures forall c | InBounds(c) :: w[c] == blocks[c.x, c.y, c.z]
    {
      map c | c in Chunk() :: blocks[c.x, c.y, c.z]
    }

    /** What the state says the crosshair is on. */
    function Pick(): Option<Pick>
      reads this
    {
      if hasTarget then Some(VoxelMarch.Pick(target, place)) else None
    }

    /** The kind at a cell, or air outside the chunk. */
    function KindAt(c: Cell): (kind: BlockKind)
      requires Valid()
      reads this`placeKind, blocks
      ensures kind == BlockAt(World(), c)
    {
      if InBounds(c) then blocks[c.x, c.y, c.z] else Air
    }

    predicate BlockExposed(c: Cell)
      requires Valid()
      reads this`placeKind, blocks
      ensures BlockExposed(c) == Exposed(World(), c)
    {
      || KindAt(Shift(c, 0, -1)) == Air || KindAt(Shift(c, 0, 1)) == Air
      || KindAt(Shift(c, 1, -1)) == Air || KindAt(Shift(c, 1, 1)) == Air
      || KindAt(Shift(c, 2, -1)) == Air || KindAt(Shift(c, 2, 1)) == Air
    }

    constructor ()
      ensures Valid() && fresh(blocks) && !hasTarget
      ensures forall c :: !Solid(World(), c)
    {
      blocks := new BlockKind[WORLD_X, WORLD_Y, WORLD_Z]((x, y, z) => Air);
      eye := Triple(0.0, 0.0, 0.0);
      placeKind := Stone;
      hasTarget := false;
      target := Triple(0, 0, 0);
      place := Triple(0, 0, 0);
    }

    /** Each axis's direction, its time per cell, and the time of its first boundary. */
    static method AxisSetup(cell: Cell, o: Vector, d: Vector)
      returns (step: Triple<int>, tDelta: Triple<Time>, tMax: Triple<Time>)
      requires cell == CellOf(o)
      ensures forall a: Axis :: step.At(a) == StepOf(d.At(a)) && tDelta.At(a) == DeltaOf(d.At(a))
      ensures March(cell, cell, tMax, Finite(0.0)) == Start(o, d)
    {
      step := Triple(0, 0, 0);
      tDelta := Triple(Never, Never, Never);
      tMax := Triple(Never, Never, Never);
      for a := 0 to 3
        invariant forall b: Axis | b < a :: step.At(b) == StepOf(d.At(b)) && tDelta.At(b) == DeltaOf(d.At(b))
        invariant forall b: Axis | b < a :: tMax.At(b) == FirstBoundary(o.At(b), d.At(b))
      {
        step := step.With(a, if d.At(a) > 0.0 then 1 else -1);
        tDelta := tDelta.With(a, if d.At(a) != 0.0 then Finite(Abs(1.0 / d.At(a))) else Never);
        var boundary := cell.At(a) as real + (if d.At(a) > 0.0 then 1.0 else 0.0);
        tMax := tMax.With(a, if d.At(a) != 0.0 then Finite((boundary - o.At(a)) / d.At(a)) else Never);
      }
      assert tMax == Triple(tMax.At(0), tMax.At(1), tMax.At(2));
    }

    /** Finds what the crosshair is on, cell by cell along the ray. */
    method Raycast(forward: Vector)
      requires Valid()
      modifies this`hasTarget, this`target, this`place
      ensures Valid() && World() == old(World())
      ensures Pick() == Picked(World(), eye, forward)
      ensures !hasTarget ==> target == old(target) && place == old(place)
    {
      hide Picked, Nth, AirBefore, Spread, Start, FirstBoundary, StepOf, DeltaOf, World;
      hasTarget := false;
      var d, o := forward, eye;
      ghost var w := World();
      NothingTested(w, o, d);
      var cell := Triple(o.x.Floor, o.y.Floor, o.z.Floor);
      var step, tDelta, tMax := AxisSetup(cell, o, d);
      var prev := cell;
      var travel := Finite(0.0);
      ghost var n: nat := 0;
      while InReach(travel)
        invariant !hasTarget && target == old(target) && place == old(place)
        invariant March(cell, prev, tMax, travel) == Nth(o, d, n)
        invariant AirBefore(w, o, d, n)
        decreases (4.0 + REACH * Spread(d)).Floor - n
      {
        CellsTested(o, d, n);
        if KindAt(cell) != Air {
          hasTarget := true;
          target := cell;
          place := prev;
          HitDecidesPick(w, o, d, n);
          return;
        }
        StepThroughAir(w, o, d, n);
        var axis: Axis := if Before(tMax.x, tMax.y) then (if Before(tMax.x, tMax.z) then 0 else 2)
                          else (if Before(tMax.y, tMax.z) then 1 else 2);
        prev := cell;
        cell := cell.With(axis, cell.At(axis) + step.At(axis));
        travel := tMax.At(axis);
        tMax := tMax.With(axis, Plus(tMax.At(axis), tDelta.At(axis)));
        n := n + 1;
      }
      NoneWithinReach(w, o, d, n);
    }

    /** A frame's picking and clicks: the ray, then breaking with the left button, then building with the right. */
    method Aim(forward: Vector, left: bool, right: bool)
      requires Valid()
      modifies this`hasTarget, this`target, this`place, blocks
      ensures Valid()
      ensures Pick() == Picked(old(World()), eye, forward)
      ensures World() == Clicked(old(World()), Pick(), placeKind, left, right)
    {
      hide Picked;
      Raycast(forward);
      if hasTarget {
        FirstHitIsSolid(World(), eye, forward);
      }
      ghost var before := World();
      if hasTarget && left {
        blocks[target.x, target.y, target.z] := Air;
        assert World() == before[target := Air];
      }
      ghost var dug := World();
      if hasTarget && right {
        if InBounds(place) && blocks[place.x, place.y, place.z] == Air {
          blocks[place.x, place.y, place.z] := placeKind;
          assert World() == dug[place := placeKind];
        }
      }
    }

    /** The cells the render pass emits a cube for, in its own order. */
    method DrawnCells() returns (drawn: seq<Cell>)
      requires Valid()
      ensures forall c :: c in drawn <==> Drawn(World(), c)
      ensures forall i, j | 0 <= i < j < |drawn| :: drawn[i] != drawn[j]
    {
      drawn := [];
      for x := 0 to WORLD_X
        invariant forall c :: c in drawn <==> c.x < x && Drawn(World(), c)
        invariant forall i, j | 0 <= i < j < |drawn| :: drawn[i] != drawn[j]
      {
        for y := 0 to WORLD_Y
          invariant forall c :: c in drawn <==> (c.x < x || (c.x == x && c.y < y)) && Drawn(World(), c)
          invariant forall i, j | 0 <= i < j < |drawn| :: drawn[i] != drawn[j]
        {
          for z := 0 to WORLD_Z
            invariant forall c :: c in drawn <==>
              (c.x < x || (c.x == x && (c.y < y || (c.y == y && c.z < z)))) && Drawn(World(), c)
            invariant forall i, j | 0 <= i < j < |drawn| :: drawn[i] != drawn[j]
          {
            var here := Triple(x, y, z);
            if blocks[x, y, z] != Air && BlockExposed(here) {
              drawn := drawn + [here];
            }
          }
        }
      }
    }
  }
}
