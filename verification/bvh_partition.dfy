/** Where the build splits a run of items: buckets along the widest axis, and the boundary of lowest cost. */
module BvhPartition {
  import opened BvhBoxes
  import opened BvhTree
  import opened Nearest
  import opened Wrappers

  const BINS: nat := 16

  /** A leaf this small is not split; one with more than four times as many items is, whatever it costs. */
  const LEAF_SIZE: nat := 4
  const LEAF_SIZE_FORCED: nat := LEAF_SIZE * 4

  function Along(v: Vec, axis: Axis): real {
    if axis == 0 then v.x else if axis == 1 then v.y else v.z
  }

  /** What a tree is built over: the items' boxes and their centres, in two or three dimensions. */
  datatype Items = Items(boxes: seq<Box>, centroids: seq<Vec>, dimensions: nat) {
    predicate Valid() {
      |centroids| == |boxes| && (dimensions == 2 || dimensions == 3)
    }
  }

  // ---- Buckets ---------------------------------------------------------------------------------------------------

  datatype Bin = Bin(box: Option<Box>, count: nat)

  const NO_ITEMS: Bin := Bin(None, 0)

  /** How centroids are sorted into buckets: along which axis, from where, and how many buckets to a unit of length. */
  datatype Ruler = Ruler(axis: Axis, minimum: real, scale: real)

  function BinOf(centroid: real, r: Ruler): (bin: nat)
    ensures bin < BINS
  {
    BinAt(Place(centroid, r))
  }

  /** Where a centroid lies along the axis, in buckets. */
  function Place(centroid: real, r: Ruler): real {
    (centroid - r.minimum) * r.scale
  }

  function BinAt(slot: real): (bin: nat)
    ensures bin < BINS
  {
    if slot < 0.0 then 0 else if slot >= (BINS - 1) as real then BINS - 1 else slot.Floor
  }

  lemma BinAtRises(a: real, b: real)
    requires a <= b
    ensures BinAt(a) <= BinAt(b)
  {
  }

  function Slot(items: Items, r: Ruler, id: nat): (bin: nat)
    requires id < |items.centroids|
    ensures bin < BINS
  {
    BinOf(Along(items.centroids[id], r.axis), r)
  }

  /** An item in an earlier bucket than another comes before it along the axis. */
  lemma BinsRise(a: real, b: real, r: Ruler)
    requires r.scale > 0.0 && BinOf(a, r) < BinOf(b, r)
    ensures a < b
  {
    hide BinAt, Place;
    if b <= a {
      PlaceRises(b, a, r);
      BinAtRises(Place(b, r), Place(a, r));
    }
  }

  lemma PlaceRises(a: real, b: real, r: Ruler)
    requires a <= b && r.scale > 0.0
    ensures Place(a, r) <= Place(b, r)
  {
    var short, long := a - r.minimum, b - r.minimum;
    assert (long - short) * r.scale >= 0.0;
    assert (long - short) * r.scale == long * r.scale - short * r.scale;
  }

  predicate AllItems(items: Items, ids: seq<nat>) {
    forall i | 0 <= i < |ids| :: ids[i] < |items.boxes|
  }

  /** The buckets with the items of a list in them. */
  function Sorted(items: Items, r: Ruler, ids: seq<nat>): (bins: seq<Bin>)
    requires items.Valid() && AllItems(items, ids)
    ensures |bins| == BINS
  {
    if ids == [] then seq(BINS, i => NO_ITEMS)
    else
      var last := ids[|ids| - 1];
      Put(Sorted(items, r, ids[..|ids| - 1]), Slot(items, r, last), items.boxes[last])
  }

  /** One more item in a bucket. */
  function Put(bins: seq<Bin>, slot: nat, box: Box): (bins': seq<Bin>)
    requires slot < |bins|
    ensures |bins'| == |bins|
  {
    bins[slot := Bin(Some(Union(bins[slot].box, box)), bins[slot].count + 1)]
  }

  /** The buckets before boundary i taken together, and those from it on. */
  function LeftOf(bins: seq<Bin>, i: nat): Bin
    requires i <= |bins|
  {
    if i == 0 then NO_ITEMS
    else
      var before := LeftOf(bins, i - 1);
      Bin(Join(before.box, bins[i - 1].box), before.count + bins[i - 1].count)
  }

  function RightOf(bins: seq<Bin>, i: nat): Bin
    requires i <= |bins|
    decreases |bins| - i
  {
    if i == |bins| then NO_ITEMS
    else
      var after := RightOf(bins, i + 1);
      Bin(Join(after.box, bins[i].box), after.count + bins[i].count)
  }

  /** The positions of a list whose items are in the buckets from lo up to hi. */
  function At(items: Items, r: Ruler, ids: seq<nat>, lo: nat, hi: nat): (ks: set<nat>)
    requires items.Valid() && AllItems(items, ids)
  {
    set k: nat | k < |ids| && lo <= Slot(items, r, ids[k]) < hi
  }

  ghost predicate HoldsAll(items: Items, ids: seq<nat>, ks: set<nat>, box: Box)
    requires AllItems(items, ids)
  {
    forall k | k in ks :: k < |ids| && Within(items.boxes[ids[k]], box)
  }

  /** The bucket stands for the items at these positions: how many they are, and the smallest box around them. */
  ghost predicate Gathers(bin: Bin, items: Items, ids: seq<nat>, ks: set<nat>)
    requires AllItems(items, ids)
  {
    && bin.count == |ks| && (bin.box.None? <==> ks == {})
    && (bin.box.Some? ==>
          && HoldsAll(items, ids, ks, bin.box.value)
          && forall c | HoldsAll(items, ids, ks, c) :: Within(bin.box.value, c))
  }

  /** Two buckets that share no item, taken together. */
  lemma JoinGathers(a: Bin, b: Bin, items: Items, ids: seq<nat>, ks: set<nat>, js: set<nat>)
    requires AllItems(items, ids) && ks !! js && Gathers(a, items, ids, ks) && Gathers(b, items, ids, js)
    ensures Gathers(Bin(Join(a.box, b.box), a.count + b.count), items, ids, ks + js)
  {
    if b.box.None? {
      assert ks + js == ks;
    } else if a.box.None? {
      assert ks + js == js;
    } else {
      var box := Join(a.box, b.box).value;
      forall k | k in ks + js ensures k < |ids| && Within(items.boxes[ids[k]], box) {
        WithinTransitive(items.boxes[ids[k]], if k in ks then a.box.value else b.box.value, box);
      }
      forall c | HoldsAll(items, ids, ks + js, c) ensures Within(box, c) {
        assert HoldsAll(items, ids, ks, c) && HoldsAll(items, ids, js, c);
      }
    }
  }

  /** The bucket of one item. */
  lemma OneGathers(items: Items, ids: seq<nat>, k: nat)
    requires AllItems(items, ids) && k < |ids|
    ensures Gathers(Bin(Some(items.boxes[ids[k]]), 1), items, ids, {k})
  {
    forall c | HoldsAll(items, ids, {k}, c) ensures Within(items.boxes[ids[k]], c) {
      assert k in {k};
    }
  }

  /** What stands for items of a list stands for them in a longer one. */
  lemma StillGathers(bin: Bin, items: Items, ids: seq<nat>, ids': seq<nat>, ks: set<nat>)
    requires AllItems(items, ids) && AllItems(items, ids') && ids <= ids' && Gathers(bin, items, ids, ks)
    requires forall k | k in ks :: k < |ids|
    ensures Gathers(bin, items, ids', ks)
  {
    assert forall c :: HoldsAll(items, ids', ks, c) <==> HoldsAll(items, ids, ks, c);
  }

  /** Each bucket stands for the items that fall in it. */
  lemma {:induction false} SortedGathers(items: Items, r: Ruler, ids: seq<nat>, slot: nat)
    requires items.Valid() && AllItems(items, ids) && slot < BINS
    ensures Gathers(Sorted(items, r, ids)[slot], items, ids, At(items, r, ids, slot, slot + 1))
  {
    hide Slot, Gathers;
    var ks := At(items, r, ids, slot, slot + 1);
    if ids == [] {
      NothingGathers(items, ids);
      assert ks == {};
    } else {
      var last, before := |ids| - 1, ids[..|ids| - 1];
      var bin, js := Sorted(items, r, before)[slot], At(items, r, before, slot, slot + 1);
      SortedGathers(items, r, before, slot);
      StillGathers(bin, items, before, ids, js);
      if Slot(items, r, ids[last]) == slot {
        OneGathers(items, ids, last);
        JoinGathers(bin, Bin(Some(items.boxes[ids[last]]), 1), items, ids, js, {last});
        assert ks == js + {last};
      } else {
        assert ks == js;
      }
    }
  }

  lemma NothingGathers(items: Items, ids: seq<nat>)
    requires AllItems(items, ids)
    ensures Gathers(NO_ITEMS, items, ids, {})
  {
  }

  /** The left side of boundary i stands for the items before it. */
  lemma {:induction false} LeftGathers(items: Items, r: Ruler, ids: seq<nat>, i: nat)
    requires items.Valid() && AllItems(items, ids) && i <= BINS
    ensures Gathers(LeftOf(Sorted(items, r, ids), i), items, ids, At(items, r, ids, 0, i))
  {
    hide Slot, Sorted, Gathers, Join;
    var bins := Sorted(items, r, ids);
    if i == 0 {
      NothingGathers(items, ids);
      assert At(items, r, ids, 0, 0) == {};
    } else {
      LeftGathers(items, r, ids, i - 1);
      SortedGathers(items, r, ids, i - 1);
      var ks, js := At(items, r, ids, 0, i - 1), At(items, r, ids, i - 1, i);
      JoinGathers(LeftOf(bins, i - 1), bins[i - 1], items, ids, ks, js);
      assert At(items, r, ids, 0, i) == ks + js;
    }
  }

  /** And its right side for those from it on. */
  lemma {:induction false} RightGathers(items: Items, r: Ruler, ids: seq<nat>, i: nat)
    requires items.Valid() && AllItems(items, ids) && i <= BINS
    ensures Gathers(RightOf(Sorted(items, r, ids), i), items, ids, At(items, r, ids, i, BINS))
    decreases BINS - i
  {
    hide Slot, Sorted, Gathers, Join;
    var bins := Sorted(items, r, ids);
    if i == BINS {
      NothingGathers(items, ids);
      assert At(items, r, ids, BINS, BINS) == {};
    } else {
      RightGathers(items, r, ids, i + 1);
      SortedGathers(items, r, ids, i);
      var ks, js := At(items, r, ids, i + 1, BINS), At(items, r, ids, i, i + 1);
      JoinGathers(RightOf(bins, i + 1), bins[i], items, ids, ks, js);
      assert At(items, r, ids, i, BINS) == ks + js;
    }
  }

  // ---- The boundary of lowest cost -------------------------------------------------------------------------------

  predicate IsEmpty(box: Box) {
    box.min.x > box.max.x || box.min.y > box.max.y || box.min.z > box.max.z
  }

  /** The surface of a box, or in two dimensions half its perimeter. */
  function CostArea(dimensions: nat, box: Option<Box>): real {
    if box.None? || IsEmpty(box.value) then 0.0
    else
      AreaOf(dimensions, box.value.max.x - box.value.min.x, box.value.max.y - box.value.min.y,
             box.value.max.z - box.value.min.z)
  }

  function AreaOf(dimensions: nat, x: real, y: real, z: real): real {
    if dimensions == 3 then 2.0 * (x * y + y * z + z * x) else x + y
  }

  function Weighed(leftArea: real, leftCount: nat, rightArea: real, rightCount: nat): real {
    leftArea * leftCount as real + rightArea * rightCount as real
  }

  /** What a search is expected to pay for the items on the two sides of boundary i. */
  function Cost(dimensions: nat, bins: seq<Bin>, i: nat): real
    requires i <= |bins|
  {
    var left, right := LeftOf(bins, i), RightOf(bins, i);
    Weighed(CostArea(dimensions, left.box), left.count, CostArea(dimensions, right.box), right.count)
  }

  /** Boundary i has items on both sides. */
  predicate Splits(bins: seq<Bin>, i: nat) {
    0 < i < |bins| && LeftOf(bins, i).count > 0 && RightOf(bins, i).count > 0
  }

  /** Boundary `best` splits, and is the first of those of lowest cost among the boundaries below `to` that do. */
  ghost predicate Cheapest(dimensions: nat, bins: seq<Bin>, best: nat, to: nat) {
    && best < to <= |bins| && Splits(bins, best)
    && (forall i | 0 < i < to && Splits(bins, i) :: Cost(dimensions, bins, best) <= Cost(dimensions, bins, i))
    && (forall i | 0 < i < best && Splits(bins, i) :: Cost(dimensions, bins, best) < Cost(dimensions, bins, i))
  }

  ghost predicate NoneSplits(bins: seq<Bin>, to: nat) {
    forall i | 0 < i < to && i < |bins| :: !Splits(bins, i)
  }

  /** The areas and the numbers of items from each boundary on, by one backward loop. */
  method RightSides(dimensions: nat, bins: seq<Bin>) returns (areas: seq<real>, counts: seq<nat>)
    requires |bins| == BINS
    ensures |areas| == |counts| == BINS
    ensures forall i | 0 < i < BINS ::
      areas[i] == CostArea(dimensions, RightOf(bins, i).box) && counts[i] == RightOf(bins, i).count
  {
    areas, counts := seq(BINS, i => 0.0), seq(BINS, i => 0);
    var accumulated: Option<Box>, counted: nat := None, 0;
    var i: nat := BINS - 1;
    while i > 0
      invariant i < BINS && |areas| == |counts| == BINS
      invariant Bin(accumulated, counted) == RightOf(bins, i + 1)
      invariant forall j | i < j < BINS ::
        areas[j] == CostArea(dimensions, RightOf(bins, j).box) && counts[j] == RightOf(bins, j).count
    {
      accumulated := Join(accumulated, bins[i].box);
      counted := counted + bins[i].count;
      areas := areas[i := CostArea(dimensions, accumulated)];
      counts := counts[i := counted];
      i := i - 1;
    }
  }

  /** The boundary of lowest cost, as the first bucket of the right side; nought when none has items on both sides. */
  method FindSplit(dimensions: nat, bins: seq<Bin>) returns (best: nat, bestCost: Option<real>)
    requires |bins| == BINS
    ensures if best == 0 then bestCost == None && NoneSplits(bins, BINS)
            else Cheapest(dimensions, bins, best, BINS) && bestCost == Some(Cost(dimensions, bins, best))
  {
    var areas, counts := RightSides(dimensions, bins);
    best, bestCost := 0, None;
    var accumulated: Option<Box>, counted: nat := None, 0;
    for i := 1 to BINS
      invariant Bin(accumulated, counted) == LeftOf(bins, i - 1)
      invariant if best == 0 then bestCost == None && NoneSplits(bins, i)
                else Cheapest(dimensions, bins, best, i) && bestCost == Some(Cost(dimensions, bins, best))
    {
      hide CostArea, Weighed, Join;
      accumulated := Join(accumulated, bins[i - 1].box);
      counted := counted + bins[i - 1].count;
      if counted == 0 || counts[i] == 0 {
        continue;
      }
      var cost := Weighed(CostArea(dimensions, accumulated), counted, areas[i], counts[i]);
      if bestCost.Some? && cost >= bestCost.value {
        continue;
      }
      best, bestCost := i, Some(cost);
    }
  }

  // ---- Splitting a run in place ----------------------------------------------------------------------------------

  /** Exchanges two entries of a run. */
  method Exchange(order: array<nat>, i: nat, j: nat, ghost first: nat, ghost end: nat)
    requires first <= i < end && first <= j < end && end <= order.Length
    modifies order
    ensures multiset(order[first..end]) == multiset(old(order[first..end]))
    ensures order[i] == old(order[j]) && order[j] == old(order[i])
    ensures forall k | 0 <= k < order.Length && k != i && k != j :: order[k] == old(order[k])
  {
    ghost var run := order[first..end];
    order[i], order[j] := order[j], order[i];
    assert order[first..end] == Swapped(run, i - first, j - first);
  }

  /** Moves the items of the run that are in a bucket before the split to its front, from both ends inwards. */
  method Separate(items: Items, r: Ruler, split: nat, order: array<nat>, first: nat, count: nat) returns (left: nat)
    requires items.Valid() && first + count <= order.Length
    requires forall i | first <= i < first + count :: order[i] < |items.boxes|
    modifies order
    ensures left <= count && multiset(order[first..first + count]) == multiset(old(order[first..first + count]))
    ensures forall i | 0 <= i < order.Length && !(first <= i < first + count) :: order[i] == old(order[i])
    ensures forall i | first <= i < first + count :: order[i] < |items.boxes|
    ensures forall i | first <= i < first + left :: Slot(items, r, order[i]) < split
    ensures forall i | first + left <= i < first + count :: Slot(items, r, order[i]) >= split
  {
    hide Slot;
    ghost var end := first + count;
    var low, high := first, first + count;
    while low < high
      invariant first <= low <= high <= end
      invariant multiset(order[first..end]) == multiset(old(order[first..end]))
      invariant forall i | 0 <= i < order.Length && !(first <= i < end) :: order[i] == old(order[i])
      invariant forall i | first <= i < end :: order[i] < |items.boxes|
      invariant forall i | first <= i < low :: Slot(items, r, order[i]) < split
      invariant forall i | high <= i < end :: Slot(items, r, order[i]) >= split
      decreases high - low
    {
      if Slot(items, r, order[low]) < split {
        low := low + 1;
        continue;
      }
      high := high - 1;
      Exchange(order, low, high, first, end);
    }
    return low - first;
  }

  // ---- The split of a node -----------------------------------------------------------------------------------------

  /** The boxes that hold just the items' centres. */
  function Points(items: Items): seq<Box> {
    seq(|items.centroids|, i requires 0 <= i < |items.centroids| => Box(items.centroids[i], items.centroids[i]))
  }

  function Extent(box: Box, axis: Axis): real {
    Along(box.max, axis) - Along(box.min, axis)
  }

  /** The box is nowhere wider than along this axis, and along no earlier one as wide. */
  ghost predicate Widest(box: Box, dimensions: nat, axis: Axis) {
    && axis < dimensions && (forall a: Axis | a < dimensions :: Extent(box, a) <= Extent(box, axis))
    && forall a: Axis | a < axis :: Extent(box, a) < Extent(box, axis)
  }

  /** The axis along which the box is widest, the first of those. */
  method WidestAxis(box: Box, dimensions: nat) returns (axis: Axis)
    requires dimensions == 2 || dimensions == 3
    ensures Widest(box, dimensions, axis)
  {
    axis := 0;
    for a := 1 to dimensions
      invariant axis < a && forall b: Axis | b < a :: Extent(box, b) <= Extent(box, axis)
      invariant forall b: Axis | b < axis :: Extent(box, b) < Extent(box, axis)
    {
      if Extent(box, a) > Extent(box, axis) {
        axis := a;
      }
    }
  }

  /** Sorts a list of items into buckets. */
  method SortIntoBins(items: Items, r: Ruler, ids: seq<nat>) returns (bins: seq<Bin>)
    requires items.Valid() && AllItems(items, ids)
    ensures bins == Sorted(items, r, ids)
    ensures forall i: nat | i <= BINS ::
      && Gathers(LeftOf(bins, i), items, ids, At(items, r, ids, 0, i))
      && Gathers(RightOf(bins, i), items, ids, At(items, r, ids, i, BINS))
  {
    hide LeftOf, RightOf, At, Gathers, Slot;
    bins := seq(BINS, i => NO_ITEMS);
    for i := 0 to |ids|
      invariant bins == Sorted(items, r, ids[..i])
    {
      assert ids[..i + 1][..i] == ids[..i];
      bins := Put(bins, Slot(items, r, ids[i]), items.boxes[ids[i]]);
    }
    assert ids[..|ids|] == ids;
    forall i: nat | i <= BINS
      ensures Gathers(LeftOf(bins, i), items, ids, At(items, r, ids, 0, i))
      ensures Gathers(RightOf(bins, i), items, ids, At(items, r, ids, i, BINS))
    {
      LeftGathers(items, r, ids, i);
      RightGathers(items, r, ids, i);
    }
  }

  /** A boundary that splits has items in buckets on both sides of it. */
  lemma BothSides(items: Items, r: Ruler, ids: seq<nat>, split: nat)
    requires items.Valid() && AllItems(items, ids) && Splits(Sorted(items, r, ids), split)
    ensures exists i | 0 <= i < |ids| :: Slot(items, r, ids[i]) < split
    ensures exists i | 0 <= i < |ids| :: Slot(items, r, ids[i]) >= split
  {
    LeftGathers(items, r, ids, split);
    RightGathers(items, r, ids, split);
    hide Slot, Sorted;
    var a :| a in At(items, r, ids, 0, split);
    var b :| b in At(items, r, ids, split, BINS);
  }

  /** Every item of the front part comes before every other item of the run along the axis. */
  predicate ApartAlong(items: Items, axis: Axis, front: seq<nat>, back: seq<nat>)
    requires items.Valid() && AllItems(items, front) && AllItems(items, back)
  {
    forall i, j | 0 <= i < |front| && 0 <= j < |back| ::
      Along(items.centroids[front[i]], axis) < Along(items.centroids[back[j]], axis)
  }

  /** The items of a run moved apart at a boundary that splits it: some on each side, and the sides apart. */
  lemma SeparatedRun(items: Items, r: Ruler, split: nat, ids: seq<nat>, ids': seq<nat>, left: nat)
    requires items.Valid() && AllItems(items, ids) && AllItems(items, ids') && multiset(ids) == multiset(ids')
    requires Splits(Sorted(items, r, ids), split) && left <= |ids'| && r.scale > 0.0
    requires forall i | 0 <= i < left :: Slot(items, r, ids'[i]) < split
    requires forall i | left <= i < |ids'| :: Slot(items, r, ids'[i]) >= split
    ensures 0 < left < |ids'| && ApartAlong(items, r.axis, ids'[..left], ids'[left..])
  {
    BothSides(items, r, ids, split);
    hide Slot, Sorted, Splits;
    var i :| 0 <= i < |ids| && Slot(items, r, ids[i]) < split;
    var j :| 0 <= j < |ids| && Slot(items, r, ids[j]) >= split;
    assert ids[i] in multiset(ids') && ids[j] in multiset(ids');
    assert ids[i] in ids' && ids[j] in ids';
    ApartBySlots(items, r, split, ids'[..left], ids'[left..]);
  }

  lemma ApartBySlots(items: Items, r: Ruler, split: nat, front: seq<nat>, back: seq<nat>)
    requires items.Valid() && AllItems(items, front) && AllItems(items, back) && r.scale > 0.0
    requires forall i | 0 <= i < |front| :: Slot(items, r, front[i]) < split
    requires forall i | 0 <= i < |back| :: Slot(items, r, back[i]) >= split
    ensures ApartAlong(items, r.axis, front, back)
  {
    hide BinOf;
    forall i, j | 0 <= i < |front| && 0 <= j < |back|
      ensures Along(items.centroids[front[i]], r.axis) < Along(items.centroids[back[j]], r.axis)
    {
      assert Slot(items, r, front[i]) < Slot(items, r, back[j]);
      BinsRise(Along(items.centroids[front[i]], r.axis), Along(items.centroids[back[j]], r.axis), r);
    }
  }

  /** How many items of a run that no plane splits well go left: half of them when it is too long to be left whole. */
  function Forced(count: nat): (left: nat)
    ensures left == 0 <==> count <= LEAF_SIZE_FORCED
    ensures count > 0 ==> left < count
    ensures count > LEAF_SIZE_FORCED ==> 0 <= count - left - left <= 1
  {
    if count > LEAF_SIZE_FORCED then count / 2 else 0
  }

  /** The items' centres are all in one place. */
  ghost predicate Together(items: Items, ids: seq<nat>)
    requires items.Valid() && AllItems(items, ids)
  {
    forall i, j, axis: Axis | 0 <= i < |ids| && 0 <= j < |ids| && axis < items.dimensions ::
      Along(items.centroids[ids[i]], axis) == Along(items.centroids[ids[j]], axis)
  }

  /** The box is the smallest around the items' centres. */
  ghost predicate Spans(items: Items, ids: seq<nat>, box: Box)
    requires items.Valid() && AllItems(items, ids)
  {
    && HoldsRun(ids, Points(items), 0, |ids|, box)
    && forall c | HoldsRun(ids, Points(items), 0, |ids|, c) :: Within(box, c)
  }

  lemma NoExtentIsTogether(items: Items, ids: seq<nat>, box: Box)
    requires items.Valid() && AllItems(items, ids) && Spans(items, ids, box)
    requires forall axis: Axis | axis < items.dimensions :: Extent(box, axis) <= 0.0
    ensures Together(items, ids)
  {
    forall i, j, axis: Axis | 0 <= i < |ids| && 0 <= j < |ids| && axis < items.dimensions
      ensures Along(items.centroids[ids[i]], axis) == Along(items.centroids[ids[j]], axis)
    {
      assert Within(Points(items)[ids[i]], box) && Within(Points(items)[ids[j]], box);
      assert Extent(box, axis) <= 0.0;
    }
  }

  /** Positions of a first and a last centre along an axis. */
  lemma Outermost(items: Items, ids: seq<nat>, axis: Axis) returns (low: nat, high: nat)
    requires items.Valid() && AllItems(items, ids) && ids != []
    ensures low < |ids| && high < |ids|
    ensures forall i | 0 <= i < |ids| ::
      Along(items.centroids[ids[low]], axis) <= Along(items.centroids[ids[i]], axis)
      <= Along(items.centroids[ids[high]], axis)
  {
    hide Along;
    low, high := 0, 0;
    for n := 1 to |ids|
      invariant low < n && high < n
      invariant forall i | 0 <= i < n ::
        Along(items.centroids[ids[low]], axis) <= Along(items.centroids[ids[i]], axis)
        <= Along(items.centroids[ids[high]], axis)
    {
      if Along(items.centroids[ids[n]], axis) < Along(items.centroids[ids[low]], axis) {
        low := n;
      } else if Along(items.centroids[ids[n]], axis) > Along(items.centroids[ids[high]], axis) {
        high := n;
      }
    }
  }

  function With(v: Vec, axis: Axis, r: real): Vec {
    if axis == 0 then v.(x := r) else if axis == 1 then v.(y := r) else v.(z := r)
  }

  /** The ends of the box are where its outermost centres are. */
  lemma EndsAreMet(items: Items, ids: seq<nat>, box: Box, axis: Axis, low: real, high: real)
    requires items.Valid() && AllItems(items, ids) && Spans(items, ids, box)
    requires forall i | 0 <= i < |ids| :: low <= Along(items.centroids[ids[i]], axis) <= high
    ensures low <= Along(box.min, axis) && Along(box.max, axis) <= high
  {
    var c := Box(With(box.min, axis, low), With(box.max, axis, high));
    forall i | 0 <= i < |ids| ensures Within(Points(items)[ids[i]], c) {
      assert Within(Points(items)[ids[i]], box);
    }
    assert Within(box, c);
  }

  /** The buckets of the outermost centres. */
  lemma EndBins(low: real, high: real, r: Ruler)
    requires low < high && r.minimum == low && r.scale == BINS as real / (high - low)
    ensures BinOf(low, r) == 0 && BinOf(high, r) == BINS - 1
  {
    Rescaled(high - low, BINS as real);
    assert Place(high, r) == BINS as real;
  }

  lemma Rescaled(a: real, b: real)
    requires a > 0.0
    ensures a * (b / a) == b
  {
  }

  /** Whenever the centres are spread out at all, already the first boundary has items on both sides. */
  lemma SpreadSplits(items: Items, ids: seq<nat>, box: Box, r: Ruler)
    requires items.Valid() && AllItems(items, ids) && ids != [] && Spans(items, ids, box)
    requires Extent(box, r.axis) > 0.0
    requires r.minimum == Along(box.min, r.axis) && r.scale == BINS as real / Extent(box, r.axis)
    ensures Splits(Sorted(items, r, ids), 1)
  {
    var low, high := Outermost(items, ids, r.axis);
    var min, max := Along(items.centroids[ids[low]], r.axis), Along(items.centroids[ids[high]], r.axis);
    EndsAreMet(items, ids, box, r.axis, min, max);
    assert Within(Points(items)[ids[low]], box) && Within(Points(items)[ids[high]], box);
    EndBins(min, max, r);
    LeftGathers(items, r, ids, 1);
    RightGathers(items, r, ids, 1);
    hide Sorted, LeftOf, RightOf, Along, BinOf, Spans;
    assert low in At(items, r, ids, 0, 1) && high in At(items, r, ids, 1, BINS);
  }

  /** Centres that are spread out are not all in one place. */
  lemma SpreadIsNotTogether(items: Items, ids: seq<nat>, box: Box, axis: Axis)
    requires items.Valid() && AllItems(items, ids) && ids != [] && Spans(items, ids, box)
    requires axis < items.dimensions && Extent(box, axis) > 0.0
    ensures !Together(items, ids)
  {
    var low, high := Outermost(items, ids, axis);
    var min, max := Along(items.centroids[ids[low]], axis), Along(items.centroids[ids[high]], axis);
    hide Along, Spans;
    EndsAreMet(items, ids, box, axis, min, max);
  }

  /** Sixteen buckets between the first and the last centre. */
  function RulerOf(box: Box, axis: Axis): Ruler
    requires Extent(box, axis) > 0.0
  {
    Ruler(axis, Along(box.min, axis), BINS as real / Extent(box, axis))
  }

  /** The buckets are sixteen equal stretches from the first centre to the last, which falls in the last of them. */
  lemma BucketsAreEqual(box: Box, axis: Axis, centroid: real, bin: nat)
    requires Extent(box, axis) > 0.0 && Along(box.min, axis) <= centroid <= Along(box.max, axis) && bin < 16
    ensures var from, width := centroid - Along(box.min, axis), Extent(box, axis);
      BinOf(centroid, RulerOf(box, axis)) == bin
      <==> bin as real * width <= 16.0 * from && (bin == 15 || 16.0 * from < (bin + 1) as real * width)
  {
    var from, width := centroid - Along(box.min, axis), Extent(box, axis);
    hide Along, Extent, BinAt;
    var slot := Place(centroid, RulerOf(box, axis));
    ScaledBack(from, width);
    assert slot * width == 16.0 * from;
    SlotIsBin(slot, width, from, bin);
  }

  lemma ScaledBack(a: real, b: real)
    requires b > 0.0
    ensures a * (BINS as real / b) * b == 16.0 * a
  {
    var share := BINS as real / b;
    assert share * b == 16.0;
    assert a * share * b == a * (share * b);
  }

  lemma SlotIsBin(slot: real, width: real, from: real, bin: nat)
    requires width > 0.0 && slot * width == 16.0 * from && from >= 0.0 && bin < 16
    ensures BinAt(slot) == bin
      <==> bin as real * width <= 16.0 * from && (bin == 15 || 16.0 * from < (bin + 1) as real * width)
  {
    var low, high := slot - bin as real, slot - (bin + 1) as real;
    assert low * width == slot * width - bin as real * width;
    assert high * width == slot * width - (bin + 1) as real * width;
    SignOfProduct(slot, width);
    SignOfProduct(low, width);
    SignOfProduct(high, width);
  }

  lemma SignOfProduct(a: real, b: real)
    requires b > 0.0
    ensures a >= 0.0 <==> a * b >= 0.0
  {
  }

  /** A run short enough for a leaf, of which a search does not expect to pay less in two parts. */
  predicate NotWorthIt(area: real, cost: real, count: nat) {
    area + cost >= area * count as real && count <= LEAF_SIZE_FORCED
  }

  /** The box around the centres, buckets along its widest axis, and the first boundary of lowest cost. */
  ghost predicate Chosen(items: Items, ids: seq<nat>, box: Box, r: Ruler, split: nat)
    requires items.Valid() && AllItems(items, ids)
  {
    && Spans(items, ids, box) && Widest(box, items.dimensions, r.axis) && Extent(box, r.axis) > 0.0
    && r == RulerOf(box, r.axis)
    && Cheapest(items.dimensions, Sorted(items, r, ids), split, BINS)
  }

  /** The run is moved apart at the chosen boundary, unless that is not worth it. */
  ghost predicate SplitOnce(items: Items, area: real, ids: seq<nat>, ids': seq<nat>, left: nat, r: Ruler, split: nat)
    requires items.Valid() && AllItems(items, ids) && AllItems(items, ids') && left <= |ids'| && split <= BINS
  {
    if NotWorthIt(area, Cost(items.dimensions, Sorted(items, r, ids), split), |ids|) then left == 0 && ids' == ids
    else
      && left > 0 && ApartAlong(items, r.axis, ids'[..left], ids'[left..])
      && (forall i | 0 <= i < left :: Slot(items, r, ids'[i]) < split)
      && (forall i | left <= i < |ids'| :: Slot(items, r, ids'[i]) >= split)
  }

  /** A run whose centres are in one place is halved if it is too long and else left whole; any other is split once. */
  ghost predicate Partitioned(items: Items, area: real, ids: seq<nat>, ids': seq<nat>, left: nat)
    requires items.Valid() && AllItems(items, ids) && AllItems(items, ids')
  {
    && multiset(ids') == multiset(ids) && left < |ids'|
    && if Together(items, ids) then left == Forced(|ids|) && ids' == ids
       else exists box, r, split ::
         Chosen(items, ids, box, r, split) && SplitOnce(items, area, ids, ids', left, r, split)
  }

  lemma PartitionedKeeps(items: Items, area: real, ids: seq<nat>, ids': seq<nat>, left: nat)
    requires items.Valid() && AllItems(items, ids) && AllItems(items, ids')
    requires Partitioned(items, area, ids, ids', left)
    ensures multiset(ids') == multiset(ids) && left < |ids'|
    ensures left == 0 ==> |ids| <= LEAF_SIZE_FORCED && ids' == ids
  {
  }

  /** Where to split a run, and at what cost, if its centres are spread out at all. */
  method ChooseSplit(items: Items, ids: seq<nat>)
    returns (spread: bool, r: Ruler, split: nat, cost: real, ghost box: Box)
    requires items.Valid() && AllItems(items, ids) && ids != []
    ensures (spread <==> !Together(items, ids)) && split < BINS
    ensures spread ==>
      Chosen(items, ids, box, r, split) && cost == Cost(items.dimensions, Sorted(items, r, ids), split)
  {
    hide Along, Slot, Sorted, Splits, LeftOf, RightOf, Gathers, At, Together, Cost, Extent;
    var centroids := LeafBox(ids, Points(items), 0, |ids|);
    var axis := WidestAxis(centroids, items.dimensions);
    var extent := Extent(centroids, axis);
    box, r, split, cost := centroids, Ruler(axis, Along(centroids.min, axis), 0.0), 0, 0.0;
    if extent <= 0.0 {
      NoExtentIsTogether(items, ids, centroids);
      return false, r, split, cost, box;
    }
    r := r.(scale := BINS as real / extent);
    var bins := SortIntoBins(items, r, ids);
    var best;
    split, best := FindSplit(items.dimensions, bins);
    SpreadIsNotTogether(items, ids, centroids, axis);
    SpreadSplits(items, ids, centroids, r);
    spread := split != 0;  // in exact reals it never is nought
    cost := if split == 0 then 0.0 else best.value;
  }

  /** Where to split the items of a node, moving them apart: how many go left, or nought for a leaf. */
  method Partition(items: Items, node: Node, order: array<nat>) returns (left: nat)
    requires items.Valid() && node.count > 0 && node.first + node.count <= order.Length
    requires forall i | node.first <= i < node.first + node.count :: order[i] < |items.boxes|
    modifies order
    ensures AllItems(items, order[node.first..node.first + node.count])
    ensures var first, end := node.first, node.first + node.count;
      Partitioned(items, CostArea(items.dimensions, Some(node.box)), old(order[first..end]), order[first..end], left)
    ensures forall i | 0 <= i < order.Length && !(node.first <= i < node.first + node.count) ::
      order[i] == old(order[i])
  {
    hide Along, Slot, Sorted, Splits, Together, ApartAlong, CostArea, Cost, Extent, Spans, Widest, Cheapest;
    var first, count := node.first, node.count;
    var ids := order[first..first + count];
    var spread, r, split, cost, box := ChooseSplit(items, ids);
    if !spread {
      return Forced(count);
    }
    var area := CostArea(items.dimensions, Some(node.box));
    if NotWorthIt(area, cost, count) {
      assert SplitOnce(items, area, ids, ids, 0, r, split);
      return 0;
    }
    ChosenSplits(items, ids, box, r, split);
    left := Separate(items, r, split, order, first, count);
    SeparatedRun(items, r, split, ids, order[first..first + count], left);
    assert SplitOnce(items, area, ids, order[first..first + count], left, r, split);
  }

  lemma ChosenSplits(items: Items, ids: seq<nat>, box: Box, r: Ruler, split: nat)
    requires items.Valid() && AllItems(items, ids) && Chosen(items, ids, box, r, split)
    ensures Splits(Sorted(items, r, ids), split) && r.scale > 0.0
  {
    hide Sorted, Splits, Extent;
    Rescaled(Extent(box, r.axis), BINS as real);
  }
}
