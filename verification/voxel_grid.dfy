/** The block world of the voxel sandbox and the rule that says which blocks are drawn. */
module VoxelGrid {
  import opened Wrappers

  /** A three-element array held as a value. */
  datatype Triple<T> = Triple(x: T, y: T, z: T) {
    function At(a: Axis): T {
      if a == 0 then x else if a == 1 then y else z
    }

    function With(a: Axis, v: T): Triple<T> {
      if a == 0 then this.(x := v) else if a == 1 then this.(y := v) else this.(z := v)
    }
  }

  type Cell = Triple<int>

  datatype BlockKind = Air | Grass | Dirt | Stone

  const WORLD_X: nat := 16
  const WORLD_Y: nat := 10
  const WORLD_Z: nat := 16

  /** The kinds of the cells of a chunk; a cell outside the domain is outside the chunk. */
  type World = map<Cell, BlockKind>

  predicate InBounds(c: Cell) {
    0 <= c.x < WORLD_X && 0 <= c.y < WORLD_Y && 0 <= c.z < WORLD_Z
  }

  function BlockAt(w: World, c: Cell): BlockKind {
    if c in w then w[c] else Air
  }

  predicate Solid(w: World, c: Cell) {
    BlockAt(w, c) != Air
  }

  /** The cells of the chunk. */
  ghost function Chunk(): (cells: set<Cell>)
    ensures forall c :: c in cells <==> InBounds(c)
  {
    set x, y, z | 0 <= x < WORLD_X && 0 <= y < WORLD_Y && 0 <= z < WORLD_Z :: Triple(x, y, z)
  }

  /** The cell one step along an axis, forwards or backwards. */
  function Shift(c: Cell, a: Axis, delta: int): Cell {
    c.With(a, c.At(a) + delta)
  }

  /** Two cells that share a face. */
  ghost predicate FaceAdjacent(c: Cell, c': Cell) {
    exists a: Axis, delta | delta == 1 || delta == -1 :: c' == Shift(c, a, delta)
  }

  /** Some face of the cell looks out onto air; the chunk's border counts as air. */
  predicate Exposed(w: World, c: Cell) {
    || BlockAt(w, Shift(c, 0, -1)) == Air || BlockAt(w, Shift(c, 0, 1)) == Air
    || BlockAt(w, Shift(c, 1, -1)) == Air || BlockAt(w, Shift(c, 1, 1)) == Air
    || BlockAt(w, Shift(c, 2, -1)) == Air || BlockAt(w, Shift(c, 2, 1)) == Air
  }

  /** The blocks the render pass emits a cube for. */
  predicate Drawn(w: World, c: Cell) {
    Solid(w, c) && Exposed(w, c)
  }

  /** The world with every block that is not drawn taken out. */
  function Culled(w: World): World {
    map c | c in w :: if Drawn(w, c) then w[c] else Air
  }

  /** A block is walled in exactly when every cell it shares a face with is solid. */
  lemma ExposedIffAirNeighbour(w: World, c: Cell)
    ensures Exposed(w, c) <==> exists neighbour :: FaceAdjacent(neighbour, c) && !Solid(w, neighbour)
  {
    forall a: Axis, delta: int | (delta == 1 || delta == -1) && !Solid(w, Shift(c, a, delta))
      ensures exists neighbour :: FaceAdjacent(neighbour, c) && !Solid(w, neighbour)
    {
      assert c == Shift(Shift(c, a, delta), a, -delta);
      assert FaceAdjacent(Shift(c, a, delta), c);
    }
    if neighbour :| FaceAdjacent(neighbour, c) && !Solid(w, neighbour) {
      var a: Axis, delta :| (delta == 1 || delta == -1) && c == Shift(neighbour, a, delta);
      assert neighbour == Shift(c, a, -delta);
    }
  }

  /** A walk of face-sharing cells. */
  ghost predicate FacePath(path: seq<Cell>) {
    forall i | 0 < i < |path| :: FaceAdjacent(path[i - 1], path[i])
  }

  /** The first solid cell of a walk, if it has one. */
  function FirstSolid(w: World, path: seq<Cell>): (k: nat)
    ensures k <= |path|
    ensures forall i | 0 <= i < k :: !Solid(w, path[i])
    ensures k < |path| ==> Solid(w, path[k])
  {
    if path == [] then 0
    else if Solid(w, path[0]) then 0
    else 1 + FirstSolid(w, path[1..])
  }

  /**
   * Taking the undrawn blocks out leaves where a walk first runs into something unchanged exactly when the walk does
   * not start inside a block that is not drawn; and then what it runs into is drawn.
   */
  lemma {:induction false} CullingKeepsFirstSolid(w: World, path: seq<Cell>)
    requires FacePath(path)
    ensures FirstSolid(Culled(w), path) == FirstSolid(w, path)
            <==> (path != [] && Solid(w, path[0]) ==> Drawn(w, path[0]))
    ensures FirstSolid(Culled(w), path) == FirstSolid(w, path) && FirstSolid(w, path) < |path|
            ==> Drawn(w, path[FirstSolid(w, path)])
  {
    var k, culled := FirstSolid(w, path), Culled(w);
    assert forall c :: Solid(culled, c) <==> Drawn(w, c);
    if 0 < k < |path| {
      ExposedIffAirNeighbour(w, path[k]);
      assert FaceAdjacent(path[k - 1], path[k]) && !Solid(w, path[k - 1]);
    }
    if k == |path| || Drawn(w, path[k]) {
      FirstSolidIsFirst(culled, path, k);
      assert k > 0 ==> !Solid(w, path[0]);
    } else {
      assert k == 0 && !Solid(culled, path[0]);
    }
  }

  lemma FirstSolidIsFirst(w: World, path: seq<Cell>, k: nat)
    requires k <= |path|
    requires forall i | 0 <= i < k :: !Solid(w, path[i])
    requires k < |path| ==> Solid(w, path[k])
    ensures FirstSolid(w, path) == k
  {
  }
}
