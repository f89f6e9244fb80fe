/** The hierarchy as a table of nodes, what is under each, and what their boxes have to hold. */
module BvhTree {
  import opened Nearest
  import opened Reals

  /** An inner node has count 0 and its two children at `first`; a leaf's items are a run of the order. */
  datatype Node = Node(box: Box, first: nat, count: nat)

  datatype Bvh = Bvh(nodes: seq<Node>, order: seq<nat>, boxes: seq<Box>)

  /** Children are allocated after their parent, leaf runs lie in the order, and no item is in two places. */
  ghost predicate Shaped(t: Bvh) {
    && (forall n | 0 <= n < |t.nodes| && t.nodes[n].count == 0 :: n < t.nodes[n].first < |t.nodes| - 1)
    && (forall n | 0 <= n < |t.nodes| && t.nodes[n].count > 0 :: t.nodes[n].first + t.nodes[n].count <= |t.order|)
    && (forall i | 0 <= i < |t.order| :: t.order[i] < |t.boxes|)
    && (forall i, j | 0 <= i < j < |t.order| :: t.order[i] != t.order[j])
  }

  ghost predicate Leaf(t: Bvh, n: nat)
    requires n < |t.nodes|
  {
    t.nodes[n].count > 0
  }

  /** The items of a run of the order. */
  ghost function RunIds(t: Bvh, from: nat, to: nat): (ids: set<nat>)
    requires from <= to <= |t.order|
    ensures forall id :: id in ids <==> exists i | from <= i < to :: t.order[i] == id
  {
    set i | from <= i < to :: t.order[i]
  }

  /** The items under a node. */
  ghost function Ids(t: Bvh, n: nat): set<nat>
    requires Shaped(t) && n < |t.nodes|
    decreases |t.nodes| - n
  {
    var node := t.nodes[n];
    if Leaf(t, n) then RunIds(t, node.first, node.first + node.count)
    else Ids(t, node.first) + Ids(t, node.first + 1)
  }

  /** The items under a node in terms of its run, or of its children. */
  lemma IdsUnder(t: Bvh, n: nat)
    requires Shaped(t) && n < |t.nodes|
    ensures var node := t.nodes[n];
      && (Leaf(t, n) ==>
            && Ids(t, n) == RunIds(t, node.first, node.first + node.count)
            && forall i | node.first <= i < node.first + node.count :: t.order[i] in Ids(t, n))
      && (!Leaf(t, n) ==> Ids(t, n) == Ids(t, node.first) + Ids(t, node.first + 1))
  {
  }

  /** A node at the last depth below this is a leaf. */
  const DEPTH_MAX: nat := 48

  /** So this many levels there are at most under the root. */
  const LEVELS_MAX: nat := DEPTH_MAX - 1

  /** How many nodes the stacks of the build and of a search have room for. */
  const STACK_MAX: nat := DEPTH_MAX + 2

  /** How many levels there are under a node. */
  ghost function Height(t: Bvh, n: nat): nat
    requires Shaped(t) && n < |t.nodes|
    decreases |t.nodes| - n
  {
    if Leaf(t, n) then 0
    else
      var left, right := Height(t, t.nodes[n].first), Height(t, t.nodes[n].first + 1);
      1 + if left < right then right else left
  }

  /** The tree is no deeper than the build lets it be. */
  ghost predicate Shallow(t: Bvh)
    requires Shaped(t)
  {
    t.nodes != [] ==> Height(t, 0) <= LEVELS_MAX
  }

  /** The items of the tree. */
  ghost function AllIds(t: Bvh): set<nat>
    requires Shaped(t)
  {
    if t.nodes == [] then {} else Ids(t, 0)
  }

  /** No item is under both children. */
  ghost predicate ChildrenApart(t: Bvh, n: nat)
    requires Shaped(t) && n < |t.nodes|
  {
    !Leaf(t, n) ==> Ids(t, t.nodes[n].first) !! Ids(t, t.nodes[n].first + 1)
  }

  predicate Within(inner: Box, outer: Box) {
    && outer.min.x <= inner.min.x && outer.min.y <= inner.min.y && outer.min.z <= inner.min.z
    && inner.max.x <= outer.max.x && inner.max.y <= outer.max.y && inner.max.z <= outer.max.z
  }

  /** A leaf's box holds its items' boxes and an inner node's its children's. */
  ghost predicate Bounded(t: Bvh, n: nat)
    requires Shaped(t) && n < |t.nodes|
  {
    var node := t.nodes[n];
    if Leaf(t, n) then forall i | node.first <= i < node.first + node.count :: Within(t.boxes[t.order[i]], node.box)
    else Within(t.nodes[node.first].box, node.box) && Within(t.nodes[node.first + 1].box, node.box)
  }

  ghost predicate Valid(t: Bvh) {
    Shaped(t) && forall n | 0 <= n < |t.nodes| :: ChildrenApart(t, n) && Bounded(t, n)
  }

  lemma WithinTransitive(a: Box, b: Box, c: Box)
    requires Within(a, b) && Within(b, c)
    ensures Within(a, c)
  {
  }

  lemma {:induction false} ItemsWithin(t: Bvh, n: nat, id: nat)
    requires Valid(t) && n < |t.nodes| && id in Ids(t, n)
    ensures id < |t.boxes| && Within(t.boxes[id], t.nodes[n].box)
    decreases |t.nodes| - n
  {
    var node := t.nodes[n];
    assert Bounded(t, n);
    if Leaf(t, n) {
      var i :| node.first <= i < node.first + node.count && t.order[i] == id;
    } else {
      var child := if id in Ids(t, node.first) then node.first else node.first + 1;
      ItemsWithin(t, child, id);
      WithinTransitive(t.boxes[id], t.nodes[child].box, node.box);
    }
  }

  lemma AxisIsNoNearer(p: real, min: real, max: real, min': real, max': real)
    requires min <= min' && max' <= max
    ensures OutsideSquared(p, min, max) <= OutsideSquared(p, min', max')
  {
    SquareRises(Outside(p, min, max), Outside(p, min', max'));
  }

  /** A box inside another is no nearer than it. */
  lemma InnerIsNoNearer(inner: Box, outer: Box, point: Vec)
    requires Within(inner, outer)
    ensures DistanceSquared(outer, point) <= DistanceSquared(inner, point)
  {
    AxisIsNoNearer(point.x, outer.min.x, outer.max.x, inner.min.x, inner.max.x);
    AxisIsNoNearer(point.y, outer.min.y, outer.max.y, inner.min.y, inner.max.y);
    AxisIsNoNearer(point.z, outer.min.z, outer.max.z, inner.min.z, inner.max.z);
  }

  /** A distance by which a box inside another is never nearer. */
  ghost predicate Narrowing(dist: Box -> real) {
    forall inner, outer | Within(inner, outer) :: dist(outer) <= dist(inner)
  }

  /** A node's key is a lower bound for every item under it. */
  lemma KeyIsLowerBound(t: Bvh, n: nat, id: nat, dist: Box -> real)
    requires Valid(t) && n < |t.nodes| && id in Ids(t, n) && Narrowing(dist)
    ensures id < |t.boxes| && dist(t.nodes[n].box) <= dist(t.boxes[id])
  {
    ItemsWithin(t, n, id);
  }

  /** The hits of a set of items. */
  ghost function HitsOf(boxes: seq<Box>, dist: Box -> real, ids: set<nat>): (hits: set<Hit>)
    requires forall id | id in ids :: id < |boxes|
    ensures forall h :: h in hits <==> h.id in ids && h == Hit(h.id, dist(boxes[h.id]))
  {
    set id | id in ids :: Hit(id, dist(boxes[id]))
  }

  /** Each item has one hit. */
  lemma {:induction false} HitsCount(boxes: seq<Box>, dist: Box -> real, ids: set<nat>)
    requires forall id | id in ids :: id < |boxes|
    ensures |HitsOf(boxes, dist, ids)| == |ids|
  {
    if ids == {} {
      assert HitsOf(boxes, dist, ids) == {};
    } else {
      var id :| id in ids;
      var rest := ids - {id};
      HitsCount(boxes, dist, rest);
      assert HitsOf(boxes, dist, ids) == HitsOf(boxes, dist, rest) + {Hit(id, dist(boxes[id]))};
    }
  }
}
