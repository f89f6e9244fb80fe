/** What the cost of a split means: the areas of boxes, summed over the items that have to be gone through in them. */
module BvhCost {
  import opened BvhBoxes
  import opened BvhPartition
  import opened BvhTree
  import opened Nearest
  import opened Wrappers

  // ---- Areas -----------------------------------------------------------------------------------------------------

  /** The area of a face across the axis. */
  function Face(box: Box, axis: Axis): real {
    if axis == 0 then Extent(box, 1) * Extent(box, 2)
    else if axis == 1 then Extent(box, 2) * Extent(box, 0)
    else Extent(box, 0) * Extent(box, 1)
  }

  /** The cost area is that of all six faces, or in two dimensions the length of two sides that meet. */
  lemma AreaIsFaces(box: Box)
    requires !IsEmpty(box)
    ensures CostArea(3, Some(box))
         == Face(box, 0) + Face(box, 0) + Face(box, 1) + Face(box, 1) + Face(box, 2) + Face(box, 2)
    ensures CostArea(2, Some(box)) == Extent(box, 0) + Extent(box, 1)
  {
  }

  /** The point with its coordinates moved on by one axis. */
  function Turned(v: Vec): Vec {
    Vec(v.z, v.x, v.y)
  }

  /** The point with its first two coordinates exchanged. */
  function Flipped(v: Vec): Vec {
    Vec(v.y, v.x, v.z)
  }

  /** Which axis is which plays no part in a box's area. */
  lemma AreaIgnoresAxes(box: Box, dimensions: nat)
    ensures CostArea(3, Some(Box(Turned(box.min), Turned(box.max)))) == CostArea(3, Some(box))
    ensures CostArea(dimensions, Some(Box(Flipped(box.min), Flipped(box.max)))) == CostArea(dimensions, Some(box))
  {
    var x, y, z := box.max.x - box.min.x, box.max.y - box.min.y, box.max.z - box.min.z;
    assert x * y == y * x && y * z == z * y && z * x == x * z;
  }

  lemma ProductGrows(a: real, b: real, a': real, b': real)
    requires 0.0 <= a <= a' && 0.0 <= b <= b'
    ensures 0.0 <= a * b <= a' * b'
  {
    assert a * b <= a' * b by {
      assert (a' - a) * b >= 0.0;
    }
    assert a' * b <= a' * b' by {
      assert a' * (b' - b) >= 0.0;
    }
  }

  lemma AreaOfGrows(dimensions: nat, x: real, y: real, z: real, x': real, y': real, z': real)
    requires 0.0 <= x <= x' && 0.0 <= y <= y' && 0.0 <= z <= z'
    ensures 0.0 <= AreaOf(dimensions, x, y, z) <= AreaOf(dimensions, x', y', z')
  {
    ProductGrows(x, y, x', y');
    ProductGrows(y, z, y', z');
    ProductGrows(z, x, z', x');
  }

  /** A box within another costs no more, and no box costs less than nothing. */
  lemma AreaGrows(a: Box, b: Box, dimensions: nat)
    requires Within(a, b) && !IsEmpty(a)
    ensures 0.0 <= CostArea(dimensions, Some(a)) <= CostArea(dimensions, Some(b))
  {
    hide AreaOf;
    AreaOfGrows(dimensions, a.max.x - a.min.x, a.max.y - a.min.y, a.max.z - a.min.z,
                b.max.x - b.min.x, b.max.y - b.min.y, b.max.z - b.min.z);
  }

  // ---- The cost of a boundary is a sum over the items --------------------------------------------------------------

  /** The box is the smallest around the items at these positions. */
  ghost predicate Smallest(items: Items, ids: seq<nat>, ks: set<nat>, box: Box)
    requires AllItems(items, ids)
  {
    HoldsAll(items, ids, ks, box) && forall c | HoldsAll(items, ids, ks, c) :: Within(box, c)
  }

  lemma SmallestUnique(items: Items, ids: seq<nat>, ks: set<nat>, a: Box, b: Box)
    requires AllItems(items, ids) && Smallest(items, ids, ks, a) && Smallest(items, ids, ks, b)
    ensures a == b
  {
    assert Within(a, b) && Within(b, a);
  }

  /** The area of the box around its own side of boundary i, added up over the first n items. */
  function Paid(items: Items, r: Ruler, ids: seq<nat>, i: nat, left: Box, right: Box, n: nat): real
    requires items.Valid() && AllItems(items, ids) && n <= |ids|
  {
    if n == 0 then 0.0
    else
      Paid(items, r, ids, i, left, right, n - 1)
      + CostArea(items.dimensions, Some(if Slot(items, r, ids[n - 1]) < i then left else right))
  }

  /** How many of the first n items are before boundary i. */
  function CountBefore(items: Items, r: Ruler, ids: seq<nat>, i: nat, n: nat): (count: nat)
    requires items.Valid() && AllItems(items, ids) && n <= |ids|
    ensures count <= n
  {
    if n == 0 then 0
    else CountBefore(items, r, ids, i, n - 1) + if Slot(items, r, ids[n - 1]) < i then 1 else 0
  }

  lemma OneMoreItem(a: real, left: nat, b: real, right: nat)
    ensures Weighed(a, left + 1, b, right) == Weighed(a, left, b, right) + a
    ensures Weighed(a, left, b, right + 1) == Weighed(a, left, b, right) + b
  {
  }

  lemma {:induction false} PaidBySides(items: Items, r: Ruler, ids: seq<nat>, i: nat, left: Box, right: Box, n: nat)
    requires items.Valid() && AllItems(items, ids) && n <= |ids|
    ensures var before := CountBefore(items, r, ids, i, n);
      Paid(items, r, ids, i, left, right, n)
      == Weighed(CostArea(items.dimensions, Some(left)), before, CostArea(items.dimensions, Some(right)), n - before)
  {
    hide CostArea, Slot;
    if n > 0 {
      hide Weighed;
      PaidBySides(items, r, ids, i, left, right, n - 1);
      var before := CountBefore(items, r, ids, i, n - 1);
      OneMoreItem(CostArea(items.dimensions, Some(left)), before, CostArea(items.dimensions, Some(right)),
                  n - 1 - before);
    }
  }

  lemma AtOneMore(items: Items, r: Ruler, ids: seq<nat>, lo: nat, hi: nat, n: nat)
    requires items.Valid() && AllItems(items, ids) && n < |ids|
    ensures var fewer, more := At(items, r, ids[..n], lo, hi), At(items, r, ids[..n + 1], lo, hi);
      && more == fewer + (if lo <= Slot(items, r, ids[n]) < hi then {n} else {})
      && n !in fewer
  {
    hide Slot;
    var fewer, more := ids[..n], ids[..n + 1];
    assert forall k: nat | k < n :: fewer[k] == more[k];
    assert more[n] == ids[n];
  }

  lemma {:induction false} CountIsSize(items: Items, r: Ruler, ids: seq<nat>, i: nat, n: nat)
    requires items.Valid() && AllItems(items, ids) && n <= |ids| && i <= BINS
    ensures |At(items, r, ids[..n], 0, i)| == CountBefore(items, r, ids, i, n)
    ensures |At(items, r, ids[..n], i, BINS)| == n - CountBefore(items, r, ids, i, n)
  {
    hide Slot, At;
    if n == 0 {
      NoneAt(items, r, 0, i);
      NoneAt(items, r, i, BINS);
    } else {
      CountIsSize(items, r, ids, i, n - 1);
      AtOneMore(items, r, ids, 0, i, n - 1);
      AtOneMore(items, r, ids, i, BINS, n - 1);
    }
  }

  lemma NoneAt(items: Items, r: Ruler, lo: nat, hi: nat)
    requires items.Valid()
    ensures At(items, r, [], lo, hi) == {}
  {
  }

  lemma CostBySides(items: Items, r: Ruler, ids: seq<nat>, i: nat, left: Box, right: Box)
    requires items.Valid() && AllItems(items, ids) && Splits(Sorted(items, r, ids), i)
    requires Smallest(items, ids, At(items, r, ids, 0, i), left)
    requires Smallest(items, ids, At(items, r, ids, i, BINS), right)
    ensures Cost(items.dimensions, Sorted(items, r, ids), i)
         == Weighed(CostArea(items.dimensions, Some(left)), |At(items, r, ids, 0, i)|,
                    CostArea(items.dimensions, Some(right)), |At(items, r, ids, i, BINS)|)
  {
    var bins := Sorted(items, r, ids);
    LeftGathers(items, r, ids, i);
    RightGathers(items, r, ids, i);
    hide CostArea, Slot, Sorted, At, LeftOf, RightOf, HoldsAll;
    SmallestUnique(items, ids, At(items, r, ids, 0, i), LeftOf(bins, i).box.value, left);
    SmallestUnique(items, ids, At(items, r, ids, i, BINS), RightOf(bins, i).box.value, right);
  }

  /** What boundary i costs is the area of the smallest box around its own side, summed over all the items. */
  lemma CostIsPaid(items: Items, r: Ruler, ids: seq<nat>, i: nat, left: Box, right: Box)
    requires items.Valid() && AllItems(items, ids) && Splits(Sorted(items, r, ids), i)
    requires Smallest(items, ids, At(items, r, ids, 0, i), left)
    requires Smallest(items, ids, At(items, r, ids, i, BINS), right)
    ensures Cost(items.dimensions, Sorted(items, r, ids), i) == Paid(items, r, ids, i, left, right, |ids|)
  {
    CostBySides(items, r, ids, i, left, right);
    assert |Sorted(items, r, ids)| == BINS;
    hide *;
    CountIsSize(items, r, ids, i, |ids|);
    assert ids[..|ids|] == ids;
    PaidBySides(items, r, ids, i, left, right, |ids|);
  }

  // ---- When a run is left whole ----------------------------------------------------------------------------------

  /** The buckets of a run with spread centres are those of the one box around them. */
  lemma OneRuler(items: Items, ids: seq<nat>, a: Box, b: Box, r: Ruler, q: Ruler, split: nat)
    requires items.Valid() && AllItems(items, ids) && Spans(items, ids, a) && Chosen(items, ids, b, q, split)
    requires Widest(a, items.dimensions, r.axis) && Extent(a, r.axis) > 0.0 && r == RulerOf(a, r.axis)
    ensures q == r
  {
    hide HoldsRun, Cheapest, Sorted;
    assert Within(a, b) && Within(b, a);
    assert a == b;
    assert r.axis == q.axis;
  }

  /**
   * A run of at most sixteen items with spread centres is left whole exactly when at every boundary that splits it the
   * node's own area and the areas summed over the items come to no less than the node's area for each item.
   */
  lemma WholeIff(items: Items, area: real, ids: seq<nat>, ids': seq<nat>, left: nat, box: Box, r: Ruler)
    requires items.Valid() && AllItems(items, ids) && AllItems(items, ids') && |ids| <= LEAF_SIZE_FORCED
    requires Partitioned(items, area, ids, ids', left) && !Together(items, ids)
    requires Spans(items, ids, box) && Widest(box, items.dimensions, r.axis) && Extent(box, r.axis) > 0.0
    requires r == RulerOf(box, r.axis)
    ensures left == 0 <==>
      forall i, a, b | WorthTrying(items, r, ids, i, a, b) ::
        area + Paid(items, r, ids, i, a, b, |ids|) >= area * |ids| as real
  {
    var box', r', split :| Chosen(items, ids, box', r', split) && SplitOnce(items, area, ids, ids', left, r', split);
    OneRuler(items, ids, box, box', r, r', split);
    var bins := Sorted(items, r, ids);
    forall i, a, b | WorthTrying(items, r, ids, i, a, b)
      ensures Cost(items.dimensions, bins, split) <= Paid(items, r, ids, i, a, b, |ids|)
      ensures i == split ==> Cost(items.dimensions, bins, split) == Paid(items, r, ids, i, a, b, |ids|)
    {
      CostIsPaid(items, r, ids, i, a, b);
    }
    hide Sorted, Spans, Widest, Cost, Paid, ApartAlong, Slot;
    var a, b := SideBoxes(items, r, ids, split);
    assert WorthTrying(items, r, ids, split, a, b);
  }

  /** Boundary i splits the run, and these are the smallest boxes around its sides. */
  ghost predicate WorthTrying(items: Items, r: Ruler, ids: seq<nat>, i: nat, a: Box, b: Box)
    requires items.Valid() && AllItems(items, ids)
  {
    && Splits(Sorted(items, r, ids), i)
    && Smallest(items, ids, At(items, r, ids, 0, i), a) && Smallest(items, ids, At(items, r, ids, i, BINS), b)
  }

  lemma SideBoxes(items: Items, r: Ruler, ids: seq<nat>, i: nat) returns (a: Box, b: Box)
    requires items.Valid() && AllItems(items, ids) && Splits(Sorted(items, r, ids), i)
    ensures WorthTrying(items, r, ids, i, a, b)
  {
    LeftGathers(items, r, ids, i);
    RightGathers(items, r, ids, i);
    hide Sorted, At, LeftOf, RightOf;
    a, b := LeftOf(Sorted(items, r, ids), i).box.value, RightOf(Sorted(items, r, ids), i).box.value;
  }
}
