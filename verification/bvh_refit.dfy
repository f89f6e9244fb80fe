/** Refitting the hierarchy after its items have moved: the boxes worked out again, from the last node to the first. */
module BvhRefit {
  import opened BvhBoxes
  import opened BvhTree
  import opened Nearest
  import opened Wrappers

  /** The same tree of the same items, whatever its boxes are. */
  ghost predicate SameButBoxes(a: seq<Node>, b: seq<Node>) {
    |a| == |b| && forall n | 0 <= n < |a| :: a[n].first == b[n].first && a[n].count == b[n].count
  }

  lemma SameRun(t: Bvh, t': Bvh, from: nat, to: nat)
    requires t.order == t'.order && from <= to <= |t.order|
    ensures RunIds(t, from, to) == RunIds(t', from, to)
  {
  }

  lemma {:induction false} SameIds(t: Bvh, t': Bvh, n: nat)
    requires Shaped(t) && Shaped(t') && SameButBoxes(t.nodes, t'.nodes) && t.order == t'.order && n < |t.nodes|
    ensures Ids(t, n) == Ids(t', n)
    decreases |t.nodes| - n
  {
    hide RunIds;
    var first, count := t.nodes[n].first, t.nodes[n].count;
    if Leaf(t, n) {
      SameRun(t, t', first, first + count);
    } else {
      SameIds(t, t', first);
      SameIds(t, t', first + 1);
    }
  }

  lemma {:induction false} SameHeight(t: Bvh, t': Bvh, n: nat)
    requires Shaped(t) && Shaped(t') && SameButBoxes(t.nodes, t'.nodes) && n < |t.nodes|
    ensures Height(t, n) == Height(t', n)
    decreases |t.nodes| - n
  {
    if !Leaf(t, n) {
      SameHeight(t, t', t.nodes[n].first);
      SameHeight(t, t', t.nodes[n].first + 1);
    }
  }

  /** No item is under two children of any node. */
  ghost predicate Apart(t: Bvh)
    requires Shaped(t)
  {
    forall n | 0 <= n < |t.nodes| :: ChildrenApart(t, n)
  }

  /** A tree of items kept apart can be searched again once its boxes fit. */
  lemma FitsIsValid(t: Bvh, t': Bvh)
    requires Shaped(t) && Apart(t) && Shaped(t') && SameButBoxes(t.nodes, t'.nodes) && t.order == t'.order
    requires forall n | 0 <= n < |t'.nodes| :: Fits(t', n)
    ensures Valid(t')
  {
    hide Ids, RunIds;
    forall n | 0 <= n < |t'.nodes| ensures ChildrenApart(t', n) && Bounded(t', n) {
      assert ChildrenApart(t, n) && Fits(t', n);
      if !Leaf(t, n) {
        SameIds(t, t', t.nodes[n].first);
        SameIds(t, t', t.nodes[n].first + 1);
      }
    }
  }

  /** One backward pass fits every node's box, since children come after their parent. */
  method Refit(nodes: array<Node>, nodeCount: nat, order: seq<nat>, boxes: seq<Box>)
    requires nodeCount <= nodes.Length && Shaped(Bvh(nodes[..nodeCount], order, boxes))
    modifies nodes
    ensures SameButBoxes(nodes[..nodeCount], old(nodes[..nodeCount])) && Shaped(Bvh(nodes[..nodeCount], order, boxes))
    ensures forall n | 0 <= n < nodeCount :: Fits(Bvh(nodes[..nodeCount], order, boxes), n)
    ensures Apart(Bvh(old(nodes[..nodeCount]), order, boxes)) ==> Valid(Bvh(nodes[..nodeCount], order, boxes))
    ensures Shallow(Bvh(old(nodes[..nodeCount]), order, boxes)) ==> Shallow(Bvh(nodes[..nodeCount], order, boxes))
    ensures AllIds(Bvh(nodes[..nodeCount], order, boxes)) == AllIds(Bvh(old(nodes[..nodeCount]), order, boxes))
  {
    ghost var start := nodes[..nodeCount];
    var n := nodeCount;
    while n > 0
      invariant 0 <= n <= nodeCount && SameButBoxes(nodes[..nodeCount], start)
      invariant Shaped(Bvh(nodes[..nodeCount], order, boxes))
      invariant forall m | n <= m < nodeCount :: Fits(Bvh(nodes[..nodeCount], order, boxes), m)
    {
      n := n - 1;
      var node := nodes[n];
      ghost var was := Bvh(nodes[..nodeCount], order, boxes);
      var box: Box;
      if node.count > 0 {
        box := LeafBox(order, boxes, node.first, node.count);
      } else {
        box := Union(Some(nodes[node.first].box), nodes[node.first + 1].box);
      }
      Reboxed(was, n, box);
      nodes[n] := node.(box := box);
      assert nodes[..nodeCount] == was.nodes[n := node.(box := box)];
    }
    if start != [] {
      SameIds(Bvh(start, order, boxes), Bvh(nodes[..nodeCount], order, boxes), 0);
      SameHeight(Bvh(start, order, boxes), Bvh(nodes[..nodeCount], order, boxes), 0);
    }
    if Apart(Bvh(start, order, boxes)) {
      FitsIsValid(Bvh(start, order, boxes), Bvh(nodes[..nodeCount], order, boxes));
    }
  }

  /** Giving a node a box that fits it keeps every later node's box fitting. */
  lemma Reboxed(t: Bvh, n: nat, box: Box)
    requires Shaped(t) && n < |t.nodes|
    requires forall m | n < m < |t.nodes| :: Fits(t, m)
    requires Encloses(t, n, box) && forall c | Encloses(t, n, c) :: Within(box, c)
    ensures var t' := t.(nodes := t.nodes[n := t.nodes[n].(box := box)]);
      Shaped(t') && forall m | n <= m < |t.nodes| :: Fits(t', m)
  {
    var t' := t.(nodes := t.nodes[n := t.nodes[n].(box := box)]);
    forall m: nat | n <= m < |t.nodes| ensures Fits(t', m) {
      assert m > n ==> Fits(t, m);
      assert forall c :: Encloses(t', m, c) <==> Encloses(t, m, c);
    }
  }
}
