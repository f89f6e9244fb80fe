/** The boxes of the hierarchy's nodes: the smallest around what is under them. */
module BvhBoxes {
  import opened BvhTree
  import opened Nearest
  import opened Wrappers

  function Lower(a: real, b: real): real {
    if b < a then b else a
  }

  /** The smallest box around both; None is the empty box. */
  function Union(a: Option<Box>, b: Box): (r: Box)
    ensures Within(b, r) && (a.Some? ==> Within(a.value, r))
    ensures forall c | Within(b, c) && (a.Some? ==> Within(a.value, c)) :: Within(r, c)
  {
    if a.None? then b
    else
      var v := a.value;
      Box(Vec(Lower(v.min.x, b.min.x), Lower(v.min.y, b.min.y), Lower(v.min.z, b.min.z)),
          Vec(Max(v.max.x, b.max.x), Max(v.max.y, b.max.y), Max(v.max.z, b.max.z)))
  }

  /** The smallest box around two that may be empty. */
  function Join(a: Option<Box>, b: Option<Box>): Option<Box> {
    if b.None? then a else Some(Union(a, b.value))
  }

  /** The box holds the boxes of a run of the order. */
  ghost predicate HoldsRun(order: seq<nat>, boxes: seq<Box>, from: nat, to: nat, box: Box)
    requires from <= to <= |order| && forall i | 0 <= i < |order| :: order[i] < |boxes|
  {
    forall i | from <= i < to :: Within(boxes[order[i]], box)
  }

  /** What a node's own box has to hold: its items' boxes, or its children's. */
  ghost predicate Encloses(t: Bvh, n: nat, box: Box)
    requires Shaped(t) && n < |t.nodes|
  {
    var node := t.nodes[n];
    if Leaf(t, n) then HoldsRun(t.order, t.boxes, node.first, node.first + node.count, box)
    else Within(t.nodes[node.first].box, box) && Within(t.nodes[node.first + 1].box, box)
  }

  /** A node's box holds what it has to and is within every other box that does. */
  ghost predicate Fits(t: Bvh, n: nat)
    requires Shaped(t) && n < |t.nodes|
  {
    Encloses(t, n, t.nodes[n].box) && forall c | Encloses(t, n, c) :: Within(t.nodes[n].box, c)
  }

  lemma LeafWithin(t: Bvh, n: nat, c: Box)
    requires Shaped(t) && n < |t.nodes| && Leaf(t, n) && Fits(t, n)
    requires forall id | id in Ids(t, n) :: id < |t.boxes| && Within(t.boxes[id], c)
    ensures Within(t.nodes[n].box, c)
  {
    IdsUnder(t, n);
    hide Ids, RunIds, Within;
    assert Encloses(t, n, c);
  }

  lemma InnerWithin(t: Bvh, n: nat, c: Box)
    requires Shaped(t) && n < |t.nodes| && !Leaf(t, n) && Fits(t, n)
    requires Within(t.nodes[t.nodes[n].first].box, c) && Within(t.nodes[t.nodes[n].first + 1].box, c)
    ensures Within(t.nodes[n].box, c)
  {
    hide Within;
    assert Encloses(t, n, c);
  }

  /** In a tree that fits, each node's box is the smallest around all the items under the node. */
  lemma {:induction false} SmallestAroundItems(t: Bvh, n: nat, c: Box)
    requires Shaped(t) && n < |t.nodes| && (forall m | 0 <= m < |t.nodes| :: Fits(t, m))
    requires forall id | id in Ids(t, n) :: id < |t.boxes| && Within(t.boxes[id], c)
    ensures Within(t.nodes[n].box, c)
    decreases |t.nodes| - n
  {
    hide Fits, Within;
    if Leaf(t, n) {
      LeafWithin(t, n, c);
    } else {
      IdsUnder(t, n);
      hide Ids;
      SmallestAroundItems(t, t.nodes[n].first, c);
      SmallestAroundItems(t, t.nodes[n].first + 1, c);
      InnerWithin(t, n, c);
    }
  }

  /** The smallest box around the items of a leaf. */
  method LeafBox(order: seq<nat>, boxes: seq<Box>, first: nat, count: nat) returns (box: Box)
    requires 0 < count && first + count <= |order| && forall i | 0 <= i < |order| :: order[i] < |boxes|
    ensures HoldsRun(order, boxes, first, first + count, box)
    ensures forall c | HoldsRun(order, boxes, first, first + count, c) :: Within(box, c)
  {
    var sofar: Option<Box> := None;
    for i := first to first + count
      invariant i > first ==> sofar.Some? && HoldsRun(order, boxes, first, i, sofar.value)
      invariant sofar.Some? ==> forall c | HoldsRun(order, boxes, first, i, c) :: Within(sofar.value, c)
      invariant i == first ==> sofar.None?
    {
      ghost var before := sofar;
      sofar := Some(Union(sofar, boxes[order[i]]));
      forall j | first <= j < i ensures Within(boxes[order[j]], sofar.value) {
        WithinTransitive(boxes[order[j]], before.value, sofar.value);
      }
      forall c | HoldsRun(order, boxes, first, i + 1, c) ensures Within(sofar.value, c) {
        assert HoldsRun(order, boxes, first, i, c);
      }
    }
    return sofar.value;
  }
}
