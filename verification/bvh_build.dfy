/** Building the hierarchy top down: runs of a permutation of the items, split until they are small or deep enough. */
module BvhBuild {
  import opened BvhBoxes
  import opened BvhDecide
  import opened BvhNearest
  import opened BvhPartition
  import opened BvhRefit
  import opened BvhTree
  import opened Nearest
  import opened NearestHeap
  import opened Reals
  import opened Wrappers

  /** A node still to be looked at. */
  datatype Pending = Pending(node: nat, depth: nat)

  /** The tree so far, with what each node is for: its items and its depth. */
  datatype Plan = Plan(t: Bvh, ids: seq<set<nat>>, depths: seq<nat>, pending: seq<Pending>)

  ghost predicate Waits(p: Plan, n: nat) {
    exists i | 0 <= i < |p.pending| :: p.pending[i].node == n
  }

  /** The box is the smallest around the items. */
  ghost predicate Snug(boxes: seq<Box>, ids: set<nat>, box: Box) {
    && (forall id | id in ids :: id < |boxes| && Within(boxes[id], box))
    && forall c | (forall id | id in ids :: id < |boxes| && Within(boxes[id], c)) :: Within(box, c)
  }

  ghost predicate Sized(p: Plan) {
    && |p.ids| == |p.depths| == |p.t.nodes| > 0 && Shaped(p.t)
    && forall i | 0 <= i < |p.pending| :: p.pending[i].node < |p.t.nodes|
  }

  /** A leaf has the items of its run, an inner node those of its children, who share none. */
  ghost predicate IdsAt(p: Plan, n: nat)
    requires Sized(p) && n < |p.t.nodes|
  {
    var node := p.t.nodes[n];
    if Leaf(p.t, n) then p.ids[n] == RunIds(p.t, node.first, node.first + node.count)
    else p.ids[n] == p.ids[node.first] + p.ids[node.first + 1] && p.ids[node.first] !! p.ids[node.first + 1]
  }

  ghost predicate IdsOk(p: Plan)
    requires Sized(p)
  {
    forall n | 0 <= n < |p.t.nodes| :: IdsAt(p, n)
  }

  ghost predicate Disjoint(a: Node, b: Node) {
    a.first + a.count <= b.first || b.first + b.count <= a.first
  }

  /** No two leaves share a stretch of the order. */
  ghost predicate RunsApart(t: Bvh)
    requires Shaped(t)
  {
    forall m, n | 0 <= m < n < |t.nodes| && Leaf(t, m) && Leaf(t, n) :: Disjoint(t.nodes[m], t.nodes[n])
  }

  /** Every node that has been looked at has the smallest box around its items. */
  ghost predicate BoxesOk(p: Plan)
    requires Sized(p)
  {
    forall n | 0 <= n < |p.t.nodes| && !Waits(p, n) :: Snug(p.t.boxes, p.ids[n], p.t.nodes[n].box)
  }

  /** Children are one deeper than their parent, and a leaf that has been looked at is short or as deep as may be. */
  ghost predicate DepthAt(p: Plan, n: nat)
    requires Sized(p) && n < |p.t.nodes|
  {
    var node, depth := p.t.nodes[n], p.depths[n];
    && depth <= LEVELS_MAX
    && (!Leaf(p.t, n) ==> p.depths[node.first] == p.depths[node.first + 1] == depth + 1)
    && (Leaf(p.t, n) && !Waits(p, n) ==> node.count <= LEAF_SIZE_FORCED || depth == LEVELS_MAX)
  }

  ghost predicate DepthsOk(p: Plan)
    requires Sized(p)
  {
    p.depths[0] == 0 && forall n | 0 <= n < |p.t.nodes| :: DepthAt(p, n)
  }

  /** What waits are leaves, each once, and each has at least its depth of others waiting under it. */
  ghost predicate PendingOk(p: Plan)
    requires Sized(p)
  {
    && (forall i | 0 <= i < |p.pending| ::
          var at := p.pending[i]; Leaf(p.t, at.node) && i <= at.depth == p.depths[at.node])
    && (forall i, j | 0 <= i < j < |p.pending| :: p.pending[i].node != p.pending[j].node)
  }

  /** How many more splits the leaves' items allow. */
  ghost function Slack(nodes: seq<Node>): nat {
    if nodes == [] then 0
    else
      var last := nodes[|nodes| - 1];
      Slack(nodes[..|nodes| - 1]) + if last.count > 0 then last.count - 1 else 0
  }

  /** Each split takes one from the slack and adds two nodes. */
  ghost predicate CountOk(p: Plan) {
    2 * Slack(p.t.nodes) + |p.t.nodes| + 1 == 2 * |p.t.boxes|
  }

  ghost predicate Building(p: Plan) {
    && Sized(p) && IdsOk(p) && RunsApart(p.t) && BoxesOk(p) && DepthsOk(p) && PendingOk(p) && CountOk(p)
    && |p.t.order| == |p.t.boxes| && forall id: nat :: id in p.ids[0] <==> id < |p.t.boxes|
  }

  /** What a node's box is before it is looked at. */
  const ANY_BOX: Box := Box(Vec(0.0, 0.0, 0.0), Vec(0.0, 0.0, 0.0))

  ghost function Top(p: Plan): Pending
    requires p.pending != []
  {
    p.pending[|p.pending| - 1]
  }

  // ---- One node is looked at ------------------------------------------------------------------------------------

  /** The node at the top of the pending ones is given its box and stays a leaf. */
  ghost function Settled(p: Plan, box: Box): Plan
    requires Sized(p) && p.pending != []
  {
    var n := p.pending[|p.pending| - 1].node;
    p.(t := p.t.(nodes := p.t.nodes[n := p.t.nodes[n].(box := box)]), pending := p.pending[..|p.pending| - 1])
  }

  /** Or it is split: the order of its run is changed, and two children take the parts of it. */
  ghost function SplitUp(p: Plan, box: Box, order: seq<nat>, left: nat): Plan
    requires Sized(p) && p.pending != []
    requires var node := p.t.nodes[p.pending[|p.pending| - 1].node];
      0 < left < node.count && node.first + node.count <= |order|
  {
    var at, rest := p.pending[|p.pending| - 1], p.pending[..|p.pending| - 1];
    var n, size, node := at.node, |p.t.nodes|, p.t.nodes[at.node];
    var a := Node(ANY_BOX, node.first, left);
    var b := Node(ANY_BOX, node.first + left, node.count - left);
    var t := Bvh(p.t.nodes[n := Node(box, size, 0)] + [a, b], order, p.t.boxes);
    var mid := node.first + left;
    Plan(t,
         p.ids + [RunIds(t, node.first, mid), RunIds(t, mid, node.first + node.count)],
         p.depths + [at.depth + 1, at.depth + 1],
         rest + [Pending(size, at.depth + 1), Pending(size + 1, at.depth + 1)])
  }

  // ---- Rearranging a run ---------------------------------------------------------------------------------------

  /** The run holds the same items in some order, and everything else is where it was. */
  ghost predicate Rearranged(order: seq<nat>, order': seq<nat>, first: nat, end: nat) {
    && |order'| == |order| && first <= end <= |order|
    && (forall i | 0 <= i < |order| && !(first <= i < end) :: order'[i] == order[i])
    && multiset(order'[first..end]) == multiset(order[first..end])
  }

  lemma {:induction false} DistinctCounts(s: seq<nat>, x: nat)
    requires Distinct(s)
    ensures multiset(s)[x] <= 1
  {
    if s != [] {
      var rest, last := s[..|s| - 1], s[|s| - 1];
      DistinctCounts(rest, x);
      assert s == rest + [last];
      assert last in multiset(rest) ==> last in rest;
    }
  }

  lemma CountsDistinct(s: seq<nat>)
    requires forall x :: multiset(s)[x] <= 1
    ensures Distinct(s)
  {
    forall i, j | 0 <= i < j < |s| ensures s[i] != s[j] {
      var rest := s[..i] + s[i + 1..];
      assert s == s[..i] + [s[i]] + s[i + 1..];
      assert multiset(s) == multiset(rest) + multiset{s[i]};
      assert multiset(s)[s[i]] <= 1 && multiset(rest)[s[i]] == 0;
      assert rest[j - 1] == s[j] && s[j] in multiset(rest);
    }
  }

  lemma RearrangedSame(order: seq<nat>, order': seq<nat>, first: nat, end: nat)
    requires Rearranged(order, order', first, end)
    ensures multiset(order') == multiset(order)
  {
    assert order == order[..first] + order[first..end] + order[end..];
    assert order' == order'[..first] + order'[first..end] + order'[end..];
    assert order'[..first] == order[..first] && order'[end..] == order[end..];
  }

  lemma RearrangedDistinct(order: seq<nat>, order': seq<nat>, first: nat, end: nat)
    requires Rearranged(order, order', first, end) && Distinct(order)
    ensures Distinct(order')
  {
    RearrangedSame(order, order', first, end);
    forall x ensures multiset(order')[x] <= 1 {
      DistinctCounts(order, x);
    }
    CountsDistinct(order');
  }

  lemma SameItemsSameSet(s: seq<nat>, s': seq<nat>, x: nat)
    requires multiset(s) == multiset(s')
    ensures x in s <==> x in s'
  {
    assert x in s <==> x in multiset(s);
    assert x in s' <==> x in multiset(s');
  }

  lemma RunIdsAreSlice(t: Bvh, from: nat, to: nat)
    requires from <= to <= |t.order|
    ensures forall id :: id in RunIds(t, from, to) <==> id in t.order[from..to]
  {
    forall i | from <= i < to ensures t.order[i] in t.order[from..to] {
      assert t.order[from..to][i - from] == t.order[i];
    }
  }

  /** The rearranged run has the items it had. */
  lemma RearrangedRunIds(t: Bvh, t': Bvh, first: nat, end: nat)
    requires Rearranged(t.order, t'.order, first, end)
    ensures RunIds(t', first, end) == RunIds(t, first, end)
  {
    RunIdsAreSlice(t, first, end);
    RunIdsAreSlice(t', first, end);
    forall id ensures id in RunIds(t', first, end) <==> id in RunIds(t, first, end) {
      SameItemsSameSet(t.order[first..end], t'.order[first..end], id);
    }
  }

  /** A stretch that does not overlap the run has the items it had. */
  lemma ElsewhereRunIds(t: Bvh, t': Bvh, first: nat, end: nat, from: nat, to: nat)
    requires Rearranged(t.order, t'.order, first, end) && from <= to <= |t.order| && (to <= first || end <= from)
    ensures RunIds(t', from, to) == RunIds(t, from, to)
  {
    assert forall i | from <= i < to :: t'.order[i] == t.order[i];
  }

  /** The tree with its box put into the node on top. */
  ghost function Boxed(p: Plan, box: Box): Bvh
    requires Sized(p) && p.pending != []
  {
    var n := Top(p).node;
    p.t.(nodes := p.t.nodes[n := p.t.nodes[n].(box := box)])
  }

  // ---- A node that stays a leaf ----------------------------------------------------------------------------------

  /** The box is the smallest around the run of the node on top. */
  ghost predicate BoxesTop(p: Plan, box: Box)
    requires Sized(p) && p.pending != [] && Leaf(p.t, Top(p).node)
  {
    var node := p.t.nodes[Top(p).node];
    && HoldsRun(p.t.order, p.t.boxes, node.first, node.first + node.count, box)
    && forall c | HoldsRun(p.t.order, p.t.boxes, node.first, node.first + node.count, c) :: Within(box, c)
  }

  lemma TopIsSnug(p: Plan, box: Box)
    requires Building(p) && p.pending != [] && Leaf(p.t, Top(p).node) && BoxesTop(p, box)
    ensures Snug(p.t.boxes, p.ids[Top(p).node], box)
  {
    var n := Top(p).node;
    var node, ids := p.t.nodes[n], p.ids[n];
    assert IdsAt(p, n);
    forall id | id in ids ensures id < |p.t.boxes| && Within(p.t.boxes[id], box) {
      var i :| node.first <= i < node.first + node.count && p.t.order[i] == id;
    }
    forall c | (forall id | id in ids :: id < |p.t.boxes| && Within(p.t.boxes[id], c)) ensures Within(box, c) {
      assert HoldsRun(p.t.order, p.t.boxes, node.first, node.first + node.count, c) by {
        forall i | node.first <= i < node.first + node.count ensures Within(p.t.boxes[p.t.order[i]], c) {
          assert p.t.order[i] in ids;
        }
      }
    }
  }

  lemma OneLessWaits(p: Plan, n: nat)
    requires Building(p) && p.pending != []
    ensures var p' := p.(pending := p.pending[..|p.pending| - 1]);
      Waits(p', n) <==> Waits(p, n) && n != Top(p).node
  {
    var rest := p.pending[..|p.pending| - 1];
    if Waits(p, n) && n != Top(p).node {
      var i :| 0 <= i < |p.pending| && p.pending[i].node == n;
      assert rest[i].node == n;
    }
    if i :| 0 <= i < |rest| && rest[i].node == n {
      assert p.pending[i].node == n && p.pending[i].node != p.pending[|rest|].node;
    }
  }

  lemma {:induction false} SlackOfSame(a: seq<Node>, b: seq<Node>)
    requires |a| == |b| && forall n | 0 <= n < |a| :: a[n].count == b[n].count
    ensures Slack(a) == Slack(b)
  {
    if a != [] {
      SlackOfSame(a[..|a| - 1], b[..|b| - 1]);
    }
  }

  /** The node on top may be settled: with this box, as a leaf. */
  ghost predicate MaySettle(p: Plan, box: Box) {
    && Building(p) && p.pending != [] && Leaf(p.t, Top(p).node) && BoxesTop(p, box)
    && (p.t.nodes[Top(p).node].count <= LEAF_SIZE_FORCED || Top(p).depth == LEVELS_MAX)
  }

  lemma SameShape(t: Bvh, t': Bvh)
    requires Shaped(t) && SameButBoxes(t.nodes, t'.nodes) && t.order == t'.order && t.boxes == t'.boxes
    ensures Shaped(t') && (RunsApart(t) ==> RunsApart(t')) && Slack(t'.nodes) == Slack(t.nodes)
  {
    SlackOfSame(t.nodes, t'.nodes);
    if RunsApart(t) {
      forall m, n | 0 <= m < n < |t.nodes| && Leaf(t', m) && Leaf(t', n) ensures Disjoint(t'.nodes[m], t'.nodes[n]) {
        assert Leaf(t, m) && Leaf(t, n) && Disjoint(t.nodes[m], t.nodes[n]);
      }
    }
  }

  lemma SettledNodes(p: Plan, box: Box)
    requires Sized(p) && p.pending != []
    ensures var p', n := Settled(p, box), Top(p).node;
      && Sized(p') && SameButBoxes(p.t.nodes, p'.t.nodes)
      && p'.t.nodes[n] == p.t.nodes[n].(box := box)
      && forall m | 0 <= m < |p.t.nodes| && m != n :: p'.t.nodes[m] == p.t.nodes[m]
  {
    hide Slack, RunsApart;
    SameShape(p.t, Settled(p, box).t);
  }

  lemma SettledPending(p: Plan, box: Box)
    requires Sized(p) && p.pending != [] && PendingOk(p) && Sized(Settled(p, box))
    ensures PendingOk(Settled(p, box))
  {
  }

  lemma SettledIds(p: Plan, box: Box, m: nat)
    requires Sized(p) && p.pending != [] && m < |p.t.nodes| && Sized(Settled(p, box)) && IdsAt(p, m)
    ensures IdsAt(Settled(p, box), m)
  {
    var p', node := Settled(p, box), p.t.nodes[m];
    SettledNodes(p, box);
    if Leaf(p.t, m) {
      SameRun(p.t, p'.t, node.first, node.first + node.count);
    }
    hide Shaped, RunIds;
  }

  lemma SettledDepth(p: Plan, box: Box, m: nat)
    requires MaySettle(p, box) && m < |p.t.nodes| && Sized(Settled(p, box))
    ensures DepthAt(Settled(p, box), m)
  {
    SettledNodes(p, box);
    SettledWaits(p, box, m);
    assert DepthAt(p, m) && PendingOk(p);
    assert Top(p).depth == p.depths[Top(p).node];
    hide Building, Shaped, BoxesTop, Waits;
  }

  lemma SettledWaits(p: Plan, box: Box, m: nat)
    requires Building(p) && p.pending != []
    ensures Waits(Settled(p, box), m) <==> Waits(p, m) && m != Top(p).node
  {
    OneLessWaits(p, m);
    hide Building, Shaped;
    assert Waits(Settled(p, box), m) <==> Waits(p.(pending := p.pending[..|p.pending| - 1]), m);
  }

  lemma SettledBox(p: Plan, box: Box, m: nat)
    requires MaySettle(p, box) && m < |p.t.nodes| && Sized(Settled(p, box))
    ensures var p' := Settled(p, box); !Waits(p', m) ==> Snug(p'.t.boxes, p'.ids[m], p'.t.nodes[m].box)
  {
    SettledNodes(p, box);
    SettledWaits(p, box, m);
    TopIsSnug(p, box);
    assert !Waits(p, m) ==> Snug(p.t.boxes, p.ids[m], p.t.nodes[m].box);
    hide Building, Shaped, BoxesTop, Waits, Snug;
  }

  /** A node given its box, and no longer waiting: everything the build keeps is kept. */
  lemma SettledKeeps(p: Plan, box: Box)
    requires MaySettle(p, box)
    ensures Building(Settled(p, box))
  {
    var p' := Settled(p, box);
    SettledNodes(p, box);
    SameShape(p.t, p'.t);
    SettledPending(p, box);
    assert p'.depths[0] == 0;
    hide IdsAt, DepthAt, Snug, Waits, RunIds, CountOk, PendingOk, RunsApart;
    forall m: nat | m < |p.t.nodes|
      ensures IdsAt(p', m) && DepthAt(p', m)
      ensures !Waits(p', m) ==> Snug(p'.t.boxes, p'.ids[m], p'.t.nodes[m].box)
    {
      assert IdsAt(p, m);
      SettledIds(p, box, m);
      SettledDepth(p, box, m);
      SettledBox(p, box, m);
    }
  }

  // ---- A node that is split --------------------------------------------------------------------------------------

  /** The node on top may be split: with this box, its run in this order, so many of its items to the left. */
  ghost predicate MaySplit(p: Plan, box: Box, order: seq<nat>, left: nat) {
    && Building(p) && p.pending != [] && Leaf(p.t, Top(p).node) && BoxesTop(p, box) && Top(p).depth < LEVELS_MAX
    && var node := p.t.nodes[Top(p).node];
       0 < left < node.count && Rearranged(p.t.order, order, node.first, node.first + node.count)
  }

  /** The nodes before and after: two more, and only the one on top changed, from a leaf to their parent. */
  ghost predicate NodesSplit(t: Bvh, t': Bvh, n: nat, left: nat) {
    var size := |t.nodes|;
    && n < size && 0 < left < t.nodes[n].count && |t'.nodes| == size + 2 && t'.boxes == t.boxes
    && (forall m | 0 <= m < size && m != n :: t'.nodes[m] == t.nodes[m])
    && t'.nodes[n].first == size && t'.nodes[n].count == 0
    && t'.nodes[size].first == t.nodes[n].first && t'.nodes[size].count == left
    && t'.nodes[size + 1].first == t.nodes[n].first + left && t'.nodes[size + 1].count == t.nodes[n].count - left
    && Rearranged(t.order, t'.order, t.nodes[n].first, t.nodes[n].first + t.nodes[n].count)
  }

  ghost predicate PlanSplit(p: Plan, p': Plan, left: nat) {
    && Sized(p) && p.pending != [] && NodesSplit(p.t, p'.t, Top(p).node, left)
    && var size, node, last := |p.t.nodes|, p.t.nodes[Top(p).node], |p.pending| - 1;
       && |p'.ids| == |p'.depths| == size + 2 && |p'.pending| == last + 2
       && (forall m | 0 <= m < size :: p'.ids[m] == p.ids[m] && p'.depths[m] == p.depths[m])
       && node.first + node.count <= |p'.t.order|
       && p'.ids[size] == RunIds(p'.t, node.first, node.first + left)
       && p'.ids[size + 1] == RunIds(p'.t, node.first + left, node.first + node.count)
       && p'.depths[size] == p'.depths[size + 1] == Top(p).depth + 1
       && (forall i | 0 <= i < last :: p'.pending[i] == p.pending[i])
       && p'.pending[last] == Pending(size, Top(p).depth + 1)
       && p'.pending[last + 1] == Pending(size + 1, Top(p).depth + 1)
  }

  lemma SplitUpSplits(p: Plan, box: Box, order: seq<nat>, left: nat)
    requires MaySplit(p, box, order, left)
    ensures PlanSplit(p, SplitUp(p, box, order, left), left)
    ensures SplitUp(p, box, order, left).t.nodes[Top(p).node].box == box
  {
    hide IdsOk, RunsApart, BoxesOk, DepthsOk, PendingOk, CountOk, BoxesTop;
  }

  lemma SplitShaped(t: Bvh, t': Bvh, n: nat, left: nat)
    requires Shaped(t) && NodesSplit(t, t', n, left)
    ensures Shaped(t')
  {
    var first, end := t.nodes[n].first, t.nodes[n].first + t.nodes[n].count;
    RearrangedDistinct(t.order, t'.order, first, end);
    RearrangedSame(t.order, t'.order, first, end);
    forall i | 0 <= i < |t'.order| ensures t'.order[i] < |t'.boxes| {
      SameItemsSameSet(t.order, t'.order, t'.order[i]);
    }
    hide Rearranged;
  }

  lemma SplitRuns(t: Bvh, t': Bvh, n: nat, left: nat)
    requires Shaped(t) && RunsApart(t) && NodesSplit(t, t', n, left) && Shaped(t')
    ensures RunsApart(t')
  {
    hide Shaped, Rearranged;
    var size := |t.nodes|;
    forall i, j | 0 <= i < j < |t'.nodes| && Leaf(t', i) && Leaf(t', j) ensures Disjoint(t'.nodes[i], t'.nodes[j]) {
      if i < size {
        assert i != n && Leaf(t, i) && Leaf(t, n);
        if j < size {
          assert Leaf(t, j) && Disjoint(t.nodes[i], t.nodes[j]);
        } else if i < n {
          assert Disjoint(t.nodes[i], t.nodes[n]);
        } else {
          assert Disjoint(t.nodes[n], t.nodes[i]);
        }
      }
    }
  }

  lemma TwoParts(t: Bvh, from: nat, mid: nat, to: nat)
    requires from <= mid <= to <= |t.order| && Distinct(t.order)
    ensures RunIds(t, from, to) == RunIds(t, from, mid) + RunIds(t, mid, to)
    ensures RunIds(t, from, mid) !! RunIds(t, mid, to)
  {
  }

  lemma ShapedIsDistinct(t: Bvh)
    requires Shaped(t)
    ensures Distinct(t.order)
  {
  }

  lemma SplitTopRuns(p: Plan, p': Plan, left: nat)
    requires PlanSplit(p, p', left)
    ensures Sized(p) && p.pending != []
    ensures var n, size := Top(p).node, |p.t.nodes|;
      var first, end := p.t.nodes[n].first, p.t.nodes[n].first + p.t.nodes[n].count;
      && |p'.ids| == size + 2 && p'.ids[n] == p.ids[n] && 0 < left < p.t.nodes[n].count && end <= |p'.t.order|
      && p'.ids[size] == RunIds(p'.t, first, first + left) && p'.ids[size + 1] == RunIds(p'.t, first + left, end)
  {
    hide Shaped, Rearranged, RunIds;
  }

  lemma SplitIdsTop(p: Plan, p': Plan, left: nat)
    requires PlanSplit(p, p', left) && Sized(p') && IdsAt(p, Top(p).node)
    ensures IdsAt(p', Top(p).node)
  {
    hide Shaped, Distinct, RunIds, PlanSplit, NodesSplit, Rearranged;
    TopWasLeaf(p, p', left);
    SplitTop(p, p', left);
    SplitTopRuns(p, p', left);
    SplitRearranges(p, p', left);
    ShapedIsDistinct(p'.t);
    var first, end := p.t.nodes[Top(p).node].first, p.t.nodes[Top(p).node].first + p.t.nodes[Top(p).node].count;
    RearrangedRunIds(p.t, p'.t, first, end);
    TwoParts(p'.t, first, first + left, end);
  }

  lemma SplitSame(p: Plan, p': Plan, left: nat, m: nat)
    requires PlanSplit(p, p', left) && Sized(p') && m < |p.t.nodes| && m != Top(p).node
    ensures p'.t.nodes[m] == p.t.nodes[m] && p'.depths[m] == p.depths[m] && |p.t.nodes| <= |p'.t.nodes|
    ensures forall n | 0 <= n < |p.t.nodes| :: p'.ids[n] == p.ids[n]
  {
    hide Shaped, Rearranged, RunIds;
  }

  lemma LeavesApart(t: Bvh, m: nat, n: nat)
    requires Shaped(t) && RunsApart(t) && m < |t.nodes| && n < |t.nodes| && m != n && Leaf(t, m) && Leaf(t, n)
    ensures Disjoint(t.nodes[m], t.nodes[n])
    ensures t.nodes[m].first + t.nodes[m].count <= |t.order|
  {
    assert Disjoint(t.nodes[if m < n then m else n], t.nodes[if m < n then n else m]);
  }

  lemma SplitRearranges(p: Plan, p': Plan, left: nat)
    requires PlanSplit(p, p', left)
    ensures Sized(p) && p.pending != [] && |p'.t.order| == |p.t.order|
    ensures var node := p.t.nodes[Top(p).node]; Rearranged(p.t.order, p'.t.order, node.first, node.first + node.count)
  {
    hide RunIds, Shaped;
  }

  lemma SizedIsShaped(p: Plan)
    requires Sized(p)
    ensures Shaped(p.t) && (p.pending != [] ==> Top(p).node < |p.t.nodes|)
  {
  }

  lemma RunElsewhere(p: Plan, p': Plan, left: nat, m: nat)
    requires PlanSplit(p, p', left) && Sized(p) && RunsApart(p.t) && m < |p.t.nodes| && m != Top(p).node
    requires Leaf(p.t, m) && Leaf(p.t, Top(p).node)
    ensures var run := p.t.nodes[m];
      && run.first + run.count <= |p.t.order| == |p'.t.order|
      && RunIds(p'.t, run.first, run.first + run.count) == RunIds(p.t, run.first, run.first + run.count)
  {
    hide *;
    TopWasLeaf(p, p', left);
    SizedIsShaped(p);
    var node, run := p.t.nodes[Top(p).node], p.t.nodes[m];
    SplitRearranges(p, p', left);
    LeavesApart(p.t, m, Top(p).node);
    assert run.first + run.count <= node.first || node.first + node.count <= run.first by {
      ApartMeans(run, node);
    }
    ElsewhereRunIds(p.t, p'.t, node.first, node.first + node.count, run.first, run.first + run.count);
  }

  lemma ApartMeans(a: Node, b: Node)
    requires Disjoint(a, b)
    ensures a.first + a.count <= b.first || b.first + b.count <= a.first
  {
  }

  lemma TopWasLeaf(p: Plan, p': Plan, left: nat)
    requires PlanSplit(p, p', left)
    ensures Sized(p) && p.pending != [] && Leaf(p.t, Top(p).node)
  {
    hide Rearranged, RunIds;
  }

  lemma SplitIdsOther(p: Plan, p': Plan, left: nat, m: nat)
    requires PlanSplit(p, p', left) && Sized(p') && RunsApart(p.t) && m < |p.t.nodes| && m != Top(p).node && IdsAt(p, m)
    ensures IdsAt(p', m)
  {
    hide Shaped, Rearranged, RunIds, RunsApart, PlanSplit, NodesSplit, Distinct;
    TopWasLeaf(p, p', left);
    SplitSame(p, p', left, m);
    if Leaf(p.t, m) {
      RunElsewhere(p, p', left, m);
    } else {
      ChildrenAreNodes(p.t, m);
    }
  }

  lemma ChildrenAreNodes(t: Bvh, n: nat)
    requires Shaped(t) && n < |t.nodes| && !Leaf(t, n)
    ensures n < t.nodes[n].first && t.nodes[n].first + 1 < |t.nodes|
  {
  }

  lemma SplitIds(p: Plan, p': Plan, left: nat, m: nat)
    requires PlanSplit(p, p', left) && Sized(p') && RunsApart(p.t) && IdsOk(p) && m < |p'.t.nodes|
    ensures IdsAt(p', m)
  {
    hide Rearranged, RunIds, Shaped, RunsApart;
    if m == Top(p).node {
      assert IdsAt(p, m);
      SplitIdsTop(p, p', left);
    } else if m < |p.t.nodes| {
      assert IdsAt(p, m);
      SplitIdsOther(p, p', left, m);
    }
  }

  lemma SplitWaits(p: Plan, p': Plan, left: nat, m: nat)
    requires PlanSplit(p, p', left) && PendingOk(p) && m < |p'.t.nodes|
    ensures if m < |p.t.nodes| then Waits(p', m) <==> Waits(p, m) && m != Top(p).node else Waits(p', m)
  {
    var last := |p.pending| - 1;
    hide Shaped, Rearranged, RunIds;
    if m >= |p.t.nodes| {
      assert p'.pending[last + (m - |p.t.nodes|)].node == m;
    } else {
      if Waits(p, m) && m != Top(p).node {
        var i :| 0 <= i < |p.pending| && p.pending[i].node == m;
        assert p'.pending[i].node == m;
      }
      if i :| 0 <= i < |p'.pending| && p'.pending[i].node == m {
        assert i < last && p.pending[i].node == m && p.pending[i].node != p.pending[last].node;
      }
    }
  }

  lemma SplitDepths(p: Plan, p': Plan, left: nat, m: nat)
    requires PlanSplit(p, p', left) && Sized(p') && PendingOk(p) && DepthsOk(p) && m < |p'.t.nodes|
    requires Top(p).depth < LEVELS_MAX
    ensures DepthAt(p', m)
  {
    SplitWaits(p, p', left, m);
    assert Top(p).depth == p.depths[Top(p).node];
    assert m < |p.t.nodes| ==> DepthAt(p, m);
    hide Rearranged, RunIds, Waits;
  }

  lemma SplitPending(p: Plan, p': Plan, left: nat)
    requires PlanSplit(p, p', left) && Sized(p') && PendingOk(p)
    ensures PendingOk(p')
  {
    hide Shaped, Rearranged, RunIds;
    var last := |p.pending| - 1;
    assert forall i | 0 <= i < last :: p'.pending[i] == p.pending[i] && p.pending[i].node != p.pending[last].node;
  }

  lemma {:induction false} SlackUpdate(nodes: seq<Node>, n: nat, node: Node)
    requires n < |nodes| && nodes[n].count > 0 && node.count == 0
    ensures Slack(nodes[n := node]) + nodes[n].count - 1 == Slack(nodes)
  {
    var last := |nodes| - 1;
    if n == last {
      assert nodes[n := node][..last] == nodes[..last];
    } else {
      assert nodes[n := node][..last] == nodes[..last][n := node];
      SlackUpdate(nodes[..last], n, node);
    }
  }

  lemma SlackAppend(nodes: seq<Node>, a: Node)
    ensures Slack(nodes + [a]) == Slack(nodes) + if a.count > 0 then a.count - 1 else 0
  {
    assert (nodes + [a])[..|nodes|] == nodes;
  }

  lemma SplitSlack(nodes: seq<Node>, n: nat, node: Node, a: Node, b: Node)
    requires n < |nodes| && node.count == 0 && a.count > 0 && b.count > 0 && a.count + b.count == nodes[n].count
    ensures Slack(nodes[n := node] + [a, b]) + 1 == Slack(nodes)
  {
    SlackUpdate(nodes, n, node);
    SlackAppend(nodes[n := node], a);
    SlackAppend(nodes[n := node] + [a], b);
    assert nodes[n := node] + [a, b] == nodes[n := node] + [a] + [b];
  }

  lemma SplitCount(p: Plan, box: Box, order: seq<nat>, left: nat)
    requires MaySplit(p, box, order, left)
    ensures CountOk(SplitUp(p, box, order, left)) && |p.pending| + 1 <= STACK_MAX
    ensures |p.t.nodes| + 2 < 2 * |p.t.boxes|
    ensures Slack(SplitUp(p, box, order, left).t.nodes) + 1 == Slack(p.t.nodes)
  {
    var p', n, size := SplitUp(p, box, order, left), Top(p).node, |p.t.nodes|;
    SplitUpSplits(p, box, order, left);
    SplitSlack(p.t.nodes, n, p'.t.nodes[n], p'.t.nodes[size], p'.t.nodes[size + 1]);
    assert CountOk(p) && PendingOk(p);
    assert |p.pending| - 1 <= Top(p).depth;
  }

  lemma SplitSized(p: Plan, p': Plan, left: nat)
    requires PlanSplit(p, p', left) && RunsApart(p.t) && PendingOk(p) && DepthsOk(p)
    ensures Sized(p') && RunsApart(p'.t) && PendingOk(p')
    ensures p'.depths[0] == 0 && p'.ids[0] == p.ids[0] && |p'.t.order| == |p.t.order|
  {
    SplitShaped(p.t, p'.t, Top(p).node, left);
    SplitRuns(p.t, p'.t, Top(p).node, left);
    assert Sized(p') && |p'.t.order| == |p.t.order|;
    hide Rearranged, RunIds, RunsApart, Shaped, DepthAt;
    SplitPending(p, p', left);
  }

  lemma SplitBoxes(p: Plan, p': Plan, box: Box, left: nat, m: nat)
    requires PlanSplit(p, p', left) && Building(p) && BoxesTop(p, box) && p'.t.nodes[Top(p).node].box == box
    requires m < |p'.t.nodes|
    ensures !Waits(p', m) ==> Snug(p'.t.boxes, p'.ids[m], p'.t.nodes[m].box)
  {
    SplitWaits(p, p', left, m);
    TopIsSnug(p, box);
    assert m < |p.t.nodes| && !Waits(p, m) ==> Snug(p.t.boxes, p.ids[m], p.t.nodes[m].box);
    hide Building, Snug, Shaped, Rearranged, RunIds, Waits;
  }

  ghost predicate NodeOk(p: Plan, n: nat)
    requires Sized(p) && n < |p.t.nodes|
  {
    IdsAt(p, n) && DepthAt(p, n) && (!Waits(p, n) ==> Snug(p.t.boxes, p.ids[n], p.t.nodes[n].box))
  }

  lemma SplitNode(p: Plan, p': Plan, box: Box, left: nat, m: nat)
    requires Building(p) && PlanSplit(p, p', left) && Sized(p') && BoxesTop(p, box) && Top(p).depth < LEVELS_MAX
    requires p'.t.nodes[Top(p).node].box == box && m < |p'.t.nodes|
    ensures NodeOk(p', m)
  {
    hide IdsAt, DepthAt, Snug, Waits, RunIds, PendingOk, RunsApart, Shaped, CountOk, Rearranged, NodesSplit, PlanSplit;
    SplitIds(p, p', left, m);
    SplitDepths(p, p', left, m);
    SplitBoxes(p, p', box, left, m);
  }

  lemma AllNodesOk(p: Plan)
    requires Sized(p) && RunsApart(p.t) && PendingOk(p) && CountOk(p) && p.depths[0] == 0
    requires |p.t.order| == |p.t.boxes| && forall id: nat :: id in p.ids[0] <==> id < |p.t.boxes|
    requires forall m | 0 <= m < |p.t.nodes| :: NodeOk(p, m)
    ensures Building(p)
  {
    hide IdsAt, DepthAt, Snug, Waits, RunIds, PendingOk, RunsApart, Shaped, CountOk;
    forall m | 0 <= m < |p.t.nodes| ensures IdsAt(p, m) && DepthAt(p, m) {
      assert NodeOk(p, m);
    }
    forall m | 0 <= m < |p.t.nodes| && !Waits(p, m) ensures Snug(p.t.boxes, p.ids[m], p.t.nodes[m].box) {
      assert NodeOk(p, m);
    }
  }

  /** A node that becomes an inner one with two children waiting: everything the build keeps is kept. */
  lemma SplitKeeps(p: Plan, box: Box, order: seq<nat>, left: nat)
    requires MaySplit(p, box, order, left)
    ensures Building(SplitUp(p, box, order, left))
  {
    var p' := SplitUp(p, box, order, left);
    SplitUpSplits(p, box, order, left);
    hide IdsAt, DepthAt, Snug, Waits, RunIds, PendingOk, RunsApart, Shaped, CountOk;
    hide SplitUp, Rearranged, NodesSplit, NodeOk;
    SplitSized(p, p', left);
    SplitCount(p, box, order, left);
    forall m | 0 <= m < |p'.t.nodes| ensures NodeOk(p', m) {
      SplitNode(p, p', box, left, m);
    }
    hide Building;
    AllNodesOk(p');
  }

  // ---- What is decided -------------------------------------------------------------------------------------------

  /** A leaf waits, is at the last depth or is rightly left whole; an inner node's children divide its items. */
  ghost predicate DecidedAt(items: Items, p: Plan, n: nat)
    requires items.Valid() && Sized(p) && n < |p.t.nodes|
  {
    var node := p.t.nodes[n];
    if Leaf(p.t, n) then Waits(p, n) || p.depths[n] == LEVELS_MAX || LeftWhole(items, node.box, p.ids[n])
    else Divided(items, node.box, p.ids[node.first], p.ids[node.first + 1])
  }

  ghost predicate Decided(items: Items, p: Plan)
    requires items.Valid() && Sized(p)
  {
    forall n | 0 <= n < |p.t.nodes| :: DecidedAt(items, p, n)
  }

  /** The node as it was, and so what was decided about it. */
  lemma SameDecision(items: Items, p: Plan, p': Plan, m: nat)
    requires items.Valid() && Sized(p) && Sized(p') && m < |p.t.nodes| <= |p'.t.nodes| && DecidedAt(items, p, m)
    requires p'.t.nodes[m] == p.t.nodes[m] && p'.depths[m] == p.depths[m] && (Waits(p, m) ==> Waits(p', m))
    requires forall n | 0 <= n < |p.t.nodes| :: p'.ids[n] == p.ids[n]
    ensures DecidedAt(items, p', m)
  {
    hide Waits, LeftWhole, Divided, Distinct;
  }

  lemma SettledDecided(items: Items, p: Plan, box: Box)
    requires items.Valid() && MaySettle(p, box) && Decided(items, p) && Sized(Settled(p, box))
    requires Top(p).depth == LEVELS_MAX || LeftWhole(items, box, p.ids[Top(p).node])
    ensures Decided(items, Settled(p, box))
  {
    var p', n := Settled(p, box), Top(p).node;
    SettledNodes(p, box);
    assert PendingOk(p) && Top(p).depth == p.depths[n] && Leaf(p'.t, n);
    assert p'.ids == p.ids && p'.depths == p.depths;
    hide Building, BoxesTop, Waits, LeftWhole, Divided, PendingOk, Shaped, Settled, MaySettle;
    forall m: nat | m < |p.t.nodes| ensures DecidedAt(items, p', m) {
      SettledWaits(p, box, m);
      if m != n {
        SameDecision(items, p, p', m);
      }
    }
  }

  lemma SplitTop(p: Plan, p': Plan, left: nat)
    requires PlanSplit(p, p', left) && Sized(p')
    ensures p.pending != []
    ensures var n, size := Top(p).node, |p.t.nodes|;
      && n < size && |p'.t.nodes| == size + 2 && !Leaf(p'.t, n) && p'.t.nodes[n].first == size
      && Leaf(p'.t, size) && Leaf(p'.t, size + 1)
  {
    hide Shaped, Rearranged, RunIds;
  }

  lemma SplitDecided(items: Items, p: Plan, p': Plan, box: Box, left: nat)
    requires items.Valid() && Building(p) && Decided(items, p) && PlanSplit(p, p', left) && Sized(p')
    requires p'.t.nodes[Top(p).node].box == box
    requires Divided(items, box, p'.ids[|p.t.nodes|], p'.ids[|p.t.nodes| + 1])
    ensures Decided(items, p')
  {
    hide IdsOk, RunsApart, BoxesOk, DepthsOk, CountOk, PendingOk;
    hide Waits, LeftWhole, Divided, Shaped, NodesSplit, PlanSplit;
    SplitTop(p, p', left);
    forall m: nat | m < |p'.t.nodes| ensures DecidedAt(items, p', m) {
      SplitWaits(p, p', left, m);
      if m < |p.t.nodes| && m != Top(p).node {
        SplitSame(p, p', left, m);
        SameDecision(items, p, p', m);
      }
    }
  }

  // ---- The tree that comes out -----------------------------------------------------------------------------------

  lemma {:induction false} IdsAre(p: Plan, n: nat)
    requires Sized(p) && IdsOk(p) && n < |p.t.nodes|
    ensures Ids(p.t, n) == p.ids[n]
    decreases |p.t.nodes| - n
  {
    assert IdsAt(p, n);
    hide RunIds;
    var first := p.t.nodes[n].first;
    if !Leaf(p.t, n) {
      IdsAre(p, first);
      IdsAre(p, first + 1);
    }
  }

  lemma {:induction false} HeightFits(p: Plan, n: nat)
    requires Sized(p) && DepthsOk(p) && n < |p.t.nodes|
    ensures Height(p.t, n) + p.depths[n] <= LEVELS_MAX
    decreases |p.t.nodes| - n
  {
    assert DepthAt(p, n);
    if !Leaf(p.t, n) {
      HeightFits(p, p.t.nodes[n].first);
      HeightFits(p, p.t.nodes[n].first + 1);
    }
  }

  lemma NoneWaits(p: Plan, n: nat)
    requires Building(p) && p.pending == [] && n < |p.t.nodes|
    ensures IdsAt(p, n) && DepthAt(p, n) && !Waits(p, n) && Snug(p.t.boxes, p.ids[n], p.t.nodes[n].box)
  {
  }

  lemma ApartAt(p: Plan, n: nat)
    requires Sized(p) && IdsOk(p) && n < |p.t.nodes|
    ensures ChildrenApart(p.t, n)
  {
    if !Leaf(p.t, n) {
      assert IdsAt(p, n);
      IdsAre(p, p.t.nodes[n].first);
      IdsAre(p, p.t.nodes[n].first + 1);
    }
  }

  /** A node's box, the smallest around its items, is the smallest around its children's boxes too. */
  lemma SnugFits(p: Plan, n: nat)
    requires Building(p) && p.pending == [] && n < |p.t.nodes|
    ensures Fits(p.t, n)
  {
    hide IdsOk, RunsApart, BoxesOk, DepthsOk, PendingOk, CountOk, Snug, Waits, DepthAt, Fits, RunIds;
    NoneWaits(p, n);
    if Leaf(p.t, n) {
      hide Shaped;
      LeafFits(p, n);
    } else {
      var first := p.t.nodes[n].first;
      NoneWaits(p, first);
      NoneWaits(p, first + 1);
      InnerFits(p.t, n, p.ids[first], p.ids[first + 1]);
    }
  }

  lemma LeafFits(p: Plan, n: nat)
    requires Sized(p) && n < |p.t.nodes| && Leaf(p.t, n) && IdsAt(p, n)
    requires Snug(p.t.boxes, p.ids[n], p.t.nodes[n].box)
    ensures Fits(p.t, n)
  {
    var node, ids := p.t.nodes[n], p.ids[n];
    forall i | node.first <= i < node.first + node.count ensures Within(p.t.boxes[p.t.order[i]], node.box) {
      assert p.t.order[i] in ids;
    }
    forall c | Encloses(p.t, n, c) ensures Within(node.box, c) {
      forall id | id in ids ensures id < |p.t.boxes| && Within(p.t.boxes[id], c) {
        var i :| node.first <= i < node.first + node.count && p.t.order[i] == id;
      }
    }
  }

  lemma InnerFits(t: Bvh, n: nat, left: set<nat>, right: set<nat>)
    requires Shaped(t) && n < |t.nodes| && !Leaf(t, n) && Snug(t.boxes, left + right, t.nodes[n].box)
    requires Snug(t.boxes, left, t.nodes[t.nodes[n].first].box)
    requires Snug(t.boxes, right, t.nodes[t.nodes[n].first + 1].box)
    ensures Fits(t, n)
  {
    var a, b := t.nodes[t.nodes[n].first].box, t.nodes[t.nodes[n].first + 1].box;
    forall c | Encloses(t, n, c) ensures Within(t.nodes[n].box, c) {
      forall id | id in left + right ensures id < |t.boxes| && Within(t.boxes[id], c) {
        WithinTransitive(t.boxes[id], if id in left then a else b, c);
      }
    }
  }

  /** A leaf keeps at most sixteen items, unless it is as deep as a tree may be; depths count from the root. */
  ghost predicate LeavesShort(t: Bvh, depths: seq<nat>)
    requires Shaped(t) && |depths| == |t.nodes|
  {
    && (t.nodes != [] ==> depths[0] == 0)
    && (forall n | 0 <= n < |t.nodes| && !Leaf(t, n) ::
          depths[t.nodes[n].first] == depths[t.nodes[n].first + 1] == depths[n] + 1)
    && (forall n | 0 <= n < |t.nodes| && Leaf(t, n) :: t.nodes[n].count <= 16 || depths[n] == LEVELS_MAX)
  }

  /** What a tree built over boxes is: searchable, of all the items, with boxes that fit, shallow and small. */
  ghost predicate Built(t: Bvh) {
    && Valid(t) && Shallow(t) && (forall id: nat :: id in AllIds(t) <==> id < |t.boxes|)
    && (forall n | 0 <= n < |t.nodes| :: Fits(t, n))
    && (t.boxes != [] ==> |t.nodes| < 2 * |t.boxes|)
  }

  /** A leaf above the last depth is rightly left whole, and any other node rightly divided. */
  ghost predicate WellDividedAt(items: Items, t: Bvh, depths: seq<nat>, n: nat)
    requires items.Valid() && Shaped(t) && n < |depths| == |t.nodes|
  {
    var node := t.nodes[n];
    if Leaf(t, n) then depths[n] == LEVELS_MAX || LeftWhole(items, node.box, Ids(t, n))
    else Divided(items, node.box, Ids(t, node.first), Ids(t, node.first + 1))
  }

  ghost predicate WellDivided(items: Items, t: Bvh, depths: seq<nat>)
    requires items.Valid() && Shaped(t) && |depths| == |t.nodes|
  {
    forall n | 0 <= n < |t.nodes| :: WellDividedAt(items, t, depths, n)
  }

  lemma DecidedIsWellDivided(items: Items, p: Plan, n: nat)
    requires items.Valid() && Sized(p) && IdsOk(p) && n < |p.t.nodes| && DecidedAt(items, p, n) && !Waits(p, n)
    ensures WellDividedAt(items, p.t, p.depths, n)
  {
    hide IdsOk, Shaped, Waits, LeftWhole, Divided, RunIds, Ids;
    IdsAre(p, n);
    if !Leaf(p.t, n) {
      ChildrenAreNodes(p.t, n);
      IdsAre(p, p.t.nodes[n].first);
      IdsAre(p, p.t.nodes[n].first + 1);
    }
  }

  lemma FinishedDecided(items: Items, p: Plan)
    requires items.Valid() && Building(p) && p.pending == [] && Decided(items, p)
    ensures WellDivided(items, p.t, p.depths)
  {
    assert IdsOk(p) && forall n :: !Waits(p, n);
    hide Building, IdsOk, Shaped, Waits, DecidedAt, WellDividedAt;
    forall n: nat | n < |p.t.nodes| ensures WellDividedAt(items, p.t, p.depths, n) {
      DecidedIsWellDivided(items, p, n);
    }
  }

  lemma FitsIsBounded(t: Bvh, n: nat)
    requires Shaped(t) && n < |t.nodes| && Fits(t, n)
    ensures Bounded(t, n)
  {
  }

  lemma FinishedNode(p: Plan, n: nat)
    requires Building(p) && p.pending == [] && n < |p.t.nodes|
    ensures Fits(p.t, n) && Bounded(p.t, n) && ChildrenApart(p.t, n) && DepthAt(p, n) && !Waits(p, n)
  {
    NoneWaits(p, n);
    SnugFits(p, n);
    ApartAt(p, n);
    hide IdsOk, RunsApart, BoxesOk, DepthsOk, PendingOk, CountOk, Snug, Waits, DepthAt;
    hide Fits, RunIds, ChildrenApart, Bounded;
    FitsIsBounded(p.t, n);
  }

  lemma FinishedWhole(p: Plan)
    requires Building(p)
    ensures Shallow(p.t) && (forall id: nat :: id in AllIds(p.t) <==> id < |p.t.boxes|)
    ensures |p.t.nodes| < 2 * |p.t.boxes| && p.depths[0] == 0
  {
    IdsAre(p, 0);
    HeightFits(p, 0);
    assert DepthAt(p, 0);
  }

  lemma FinishedLeaves(p: Plan)
    requires Building(p) && p.pending == []
    ensures LeavesShort(p.t, p.depths)
  {
    var t, depths := p.t, p.depths;
    assert depths[0] == 0;
    hide IdsOk, RunsApart, BoxesOk, PendingOk, CountOk;
    forall n | 0 <= n < |t.nodes| && !Leaf(t, n)
      ensures depths[t.nodes[n].first] == depths[t.nodes[n].first + 1] == depths[n] + 1
    {
      assert DepthAt(p, n);
    }
    forall n | 0 <= n < |t.nodes| && Leaf(t, n) ensures t.nodes[n].count <= 16 || depths[n] == LEVELS_MAX {
      assert DepthAt(p, n) && !Waits(p, n);
    }
  }

  lemma FinishedIsBuilt(p: Plan)
    requires Building(p) && p.pending == []
    ensures Built(p.t) && LeavesShort(p.t, p.depths)
  {
    FinishedWhole(p);
    FinishedLeaves(p);
    var t := p.t;
    assert Shaped(t);
    hide Fits, Bounded, ChildrenApart, Ids, AllIds, Height, Shallow, Shaped, LeavesShort;
    forall n: nat | n < |t.nodes| ensures Fits(t, n) && Bounded(t, n) && ChildrenApart(t, n) {
      FinishedNode(p, n);
    }
    hide Building;
  }

  // ---- The build ---------------------------------------------------------------------------------------------------

  ghost predicate Counts(order: seq<nat>) {
    forall i | 0 <= i < |order| :: order[i] == i
  }

  lemma BuildStarts(boxes: seq<Box>, order: seq<nat>, root: Node)
    requires |order| == |boxes| > 0 && Counts(order) && root.first == 0 && root.count == |boxes|
    ensures var t := Bvh([root], order, boxes);
      Building(Plan(t, [RunIds(t, 0, |order|)], [0], [Pending(0, 0)]))
  {
    var t := Bvh([root], order, boxes);
    var p := Plan(t, [RunIds(t, 0, |order|)], [0], [Pending(0, 0)]);
    assert p.pending[0].node == 0;
    assert [root][..0] == [];
    forall id: nat | id < |boxes| ensures id in RunIds(t, 0, |order|) {
      assert t.order[id] == id;
    }
  }

  method SetBox(nodes: array<Node>, n: nat, box: Box, ghost nodeCount: nat)
    requires n < nodeCount <= nodes.Length
    modifies nodes
    ensures nodes[..nodeCount] == old(nodes[..nodeCount])[n := old(nodes[n]).(box := box)]
  {
    nodes[n] := nodes[n].(box := box);
  }

  /** Turns a leaf into the parent of two new leaves that share its run. */
  method AddChildren(nodes: array<Node>, nodeCount: nat, n: nat, left: nat)
    requires n < nodeCount && nodeCount + 2 <= nodes.Length && left < nodes[n].count
    modifies nodes
    ensures var node := old(nodes[n]);
      nodes[..nodeCount + 2] == old(nodes[..nodeCount])[n := Node(node.box, nodeCount, 0)]
        + [Node(ANY_BOX, node.first, left), Node(ANY_BOX, node.first + left, node.count - left)]
  {
    var node := nodes[n];
    nodes[nodeCount] := Node(ANY_BOX, node.first, left);
    nodes[nodeCount + 1] := Node(ANY_BOX, node.first + left, node.count - left);
    nodes[n] := Node(node.box, nodeCount, 0);
  }

  /** How much there is to do: a node waiting, and two for each split the items allow. */
  ghost function Todo(p: Plan): nat {
    2 * Slack(p.t.nodes) + |p.pending|
  }

  /** What the arrays of the build hold. */
  ghost predicate Holding(items: Items, nodes: array<Node>, nodeCount: nat, order: array<nat>, p: Plan)
    reads nodes, order
  {
    && items.Valid() && nodes.Length >= 2 * |items.boxes| && order.Length >= |items.boxes| && nodeCount <= nodes.Length
    && p.t == Bvh(nodes[..nodeCount], order[..|items.boxes|], items.boxes)
  }

  lemma RunRearranged(order: seq<nat>, order': seq<nat>, first: nat, end: nat)
    requires |order'| == |order| && first <= end <= |order|
    requires forall i | 0 <= i < |order| && !(first <= i < end) :: order'[i] == order[i]
    requires multiset(order'[first..end]) == multiset(order[first..end])
    ensures Rearranged(order, order', first, end)
  {
  }

  lemma UnmovedRun(order: seq<nat>, order': seq<nat>, first: nat, end: nat)
    requires |order'| == |order| && first <= end <= |order| && order'[first..end] == order[first..end]
    requires forall i | 0 <= i < |order| && !(first <= i < end) :: order'[i] == order[i]
    ensures order' == order
  {
    assert forall i | first <= i < end :: order'[i] == order'[first..end][i - first];
  }

  /** Moves the items of a run apart, or leaves it whole. */
  method Rearrange(items: Items, node: Node, order: array<nat>) returns (left: nat)
    requires items.Valid() && 0 < node.count && node.first + node.count <= |items.boxes| <= order.Length
    requires forall i | 0 <= i < |items.boxes| :: order[i] < |items.boxes|
    modifies order
    ensures left < node.count
    ensures var n := |items.boxes|;
      && Rearranged(old(order[..n]), order[..n], node.first, node.first + node.count)
      && (left == 0 ==> order[..n] == old(order[..n]) && node.count <= LEAF_SIZE_FORCED)
    ensures var first, end := node.first, node.first + node.count;
      && AllItems(items, old(order[first..end])) && AllItems(items, order[first..end])
      && Partitioned(items, CostArea(items.dimensions, Some(node.box)), old(order[first..end]), order[first..end], left)
  {
    ghost var n, first, end := |items.boxes|, node.first, node.first + node.count;
    ghost var was, area := order[..n], CostArea(items.dimensions, Some(node.box));
    assert AllItems(items, order[first..end]);
    hide Partitioned, CostArea, AllItems, Rearranged;
    left := Partition(items, node, order);
    PartitionedKeeps(items, area, old(order[first..end]), order[first..end], left);
    assert was[first..end] == old(order[first..end]) && order[..n][first..end] == order[first..end];
    RunRearranged(was, order[..n], first, end);
    if left == 0 {
      UnmovedRun(was, order[..n], first, end);
    }
  }

  /** The run of the node on top has been partitioned, and the node may be split accordingly, or else settled. */
  ghost predicate Arranged(items: Items, p: Plan, box: Box, order: seq<nat>, left: nat)
    requires items.Valid() && Sized(p) && p.pending != []
  {
    var node := p.t.nodes[Top(p).node];
    && left < node.count && node.first + node.count <= |order| == |p.t.order|
    && (left == 0 ==> order == p.t.order && MaySettle(p, box))
    && (left > 0 ==> MaySplit(p, box, order, left))
    && AllItems(items, TopRun(p, p.t.order)) && AllItems(items, TopRun(p, order))
    && Partitioned(items, CostArea(items.dimensions, Some(box)), TopRun(p, p.t.order), TopRun(p, order), left)
  }

  /** Moves the items of the node on top apart, so that it may be split, or leaves them, so that it may be settled. */
  method RearrangeTop(items: Items, node: Node, order: array<nat>, ghost p: Plan, ghost box: Box) returns (left: nat)
    requires items.Valid() && Building(p) && p.pending != [] && Sized(p) && Leaf(p.t, Top(p).node) && BoxesTop(p, box)
    requires Top(p).depth < LEVELS_MAX && node == p.t.nodes[Top(p).node].(box := box)
    requires items.boxes == p.t.boxes && |items.boxes| <= order.Length && order[..|items.boxes|] == p.t.order
    modifies order
    ensures Arranged(items, p, box, order[..|items.boxes|], left)
  {
    hide *;
    TopFits(p);
    ghost var n, first, end := |items.boxes|, node.first, node.first + node.count;
    SameSlice(order, n, first, end);
    left := Rearrange(items, node, order);
    SameSlice(order, n, first, end);
    IsArranged(items, p, box, order[..n], left);
  }

  lemma TopFits(p: Plan)
    requires Building(p) && p.pending != []
    ensures Sized(p) && Leaf(p.t, Top(p).node)
    ensures var node := p.t.nodes[Top(p).node];
      0 < node.count && node.first + node.count <= |p.t.order| == |p.t.boxes|
    ensures forall i | 0 <= i < |p.t.order| :: p.t.order[i] < |p.t.boxes|
  {
    PlanFacts(p);
  }

  lemma SameSlice(order: array<nat>, n: nat, first: nat, end: nat)
    requires first <= end <= n <= order.Length
    ensures order[..n][first..end] == order[first..end]
  {
  }

  lemma IsArranged(items: Items, p: Plan, box: Box, order: seq<nat>, left: nat)
    requires items.Valid() && Sized(p) && Building(p) && p.pending != [] && Leaf(p.t, Top(p).node) && BoxesTop(p, box)
    requires Top(p).depth < LEVELS_MAX && |order| == |p.t.order| && left < p.t.nodes[Top(p).node].count
    requires var node := p.t.nodes[Top(p).node];
      && node.first + node.count <= |order| && Rearranged(p.t.order, order, node.first, node.first + node.count)
      && (left == 0 ==> order == p.t.order && node.count <= LEAF_SIZE_FORCED)
      && var was, now := p.t.order[node.first..node.first + node.count], order[node.first..node.first + node.count];
         && AllItems(items, was) && AllItems(items, now)
         && Partitioned(items, CostArea(items.dimensions, Some(box)), was, now, left)
    ensures Arranged(items, p, box, order, left)
  {
    hide Building, Shaped, BoxesTop, Rearranged, Partitioned, CostArea, AllItems;
  }

  /** Splits the node on top, whose items have been moved apart. */
  method SplitInTwo(items: Items, nodes: array<Node>, nodeCount: nat, order: array<nat>, at: Pending, left: nat,
                    ghost p: Plan, ghost box: Box)
    returns (nodeCount': nat, children: seq<Pending>, ghost p': Plan)
    requires p.pending != [] && at == Top(p) && |items.boxes| <= order.Length
    requires MaySplit(p, box, order[..|items.boxes|], left) && items.Valid()
    requires Sized(p) && Sized(SplitUp(p, box, order[..|items.boxes|], left))
    requires at.node < nodeCount <= nodes.Length && left < nodes[at.node].count
    requires Holding(items, nodes, nodeCount, order, p.(t := Boxed(p, box).(order := order[..|items.boxes|])))
    requires Decided(items, SplitUp(p, box, order[..|items.boxes|], left))
    modifies nodes
    ensures Holding(items, nodes, nodeCount', order, p') && Building(p') && Decided(items, p')
    ensures p'.pending == p.pending[..|p.pending| - 1] + children && |p'.pending| <= STACK_MAX
    ensures Todo(p') < Todo(p)
  {
    hide Building, Todo, Shaped, BoxesTop, Rearranged, Decided;
    Split(p, box, order[..|items.boxes|], left);
    p' := SplitUp(p, box, order[..|items.boxes|], left);
    assert nodes[..nodeCount][at.node] == nodes[at.node];
    hide MaySplit, SplitUp, Boxed, Sized;
    AddChildren(nodes, nodeCount, at.node, left);
    nodeCount', children := nodeCount + 2, [Pending(nodeCount, at.depth + 1), Pending(nodeCount + 1, at.depth + 1)];
    assert p'.t.nodes == nodes[..nodeCount'];
  }

  /** Splits the node on top, or leaves it as it is when it is not worth it. */
  method SplitOrLeave(items: Items, nodes: array<Node>, nodeCount: nat, order: array<nat>, at: Pending,
                      ghost p: Plan, ghost box: Box)
    returns (nodeCount': nat, children: seq<Pending>, ghost p': Plan)
    requires Sized(p) && p.pending != [] && at == Top(p) && Leaf(p.t, at.node) && BoxesTop(p, box) && Building(p)
    requires at.depth < LEVELS_MAX && Holding(items, nodes, nodeCount, order, p.(t := Boxed(p, box)))
    requires Decided(items, p) && p.t.nodes[at.node].count > LEAF_SIZE
    modifies nodes, order
    ensures Holding(items, nodes, nodeCount', order, p') && Building(p') && Decided(items, p')
    ensures p'.pending == p.pending[..|p.pending| - 1] + children && |p'.pending| <= STACK_MAX
    ensures Todo(p') < Todo(p)
  {
    PlanFacts(p);
    hide Building, Shaped, Settled, BoxesTop, Rearranged, Todo, Decided, Partitioned, CostArea, AllItems;
    assert nodes[..nodeCount][at.node] == nodes[at.node] == p.t.nodes[at.node].(box := box);
    hide Boxed, Sized;
    var left := RearrangeTop(items, nodes[at.node], order, p, box);
    if left == 0 {
      Settle(p, box);
      SettleDecided(items, p, box);
      return nodeCount, [], Settled(p, box);
    }
    SplitUpDecided(items, p, box, order[..|items.boxes|], left);
    nodeCount', children, p' := SplitInTwo(items, nodes, nodeCount, order, at, left, p, box);
  }

  /** Looks at the node on top: it is boxed, and stays a leaf or is split in two. */
  method LookAt(items: Items, nodes: array<Node>, nodeCount: nat, order: array<nat>, pending: seq<Pending>,
                ghost p: Plan)
    returns (nodeCount': nat, pending': seq<Pending>, ghost p': Plan)
    requires Building(p) && p.pending == pending != [] && Holding(items, nodes, nodeCount, order, p)
    requires Decided(items, p)
    modifies nodes, order
    ensures Building(p') && p'.pending == pending' && Holding(items, nodes, nodeCount', order, p') && Decided(items, p')
    ensures |pending'| <= STACK_MAX && Todo(p') < Todo(p)
  {
    var at := pending[|pending| - 1];
    PlanFacts(p);
    hide Building, Slack, Shaped, Settled, SplitUp, Snug, Decided, Partitioned, AllItems, Distinct;
    var first, count := nodes[at.node].first, nodes[at.node].count;
    nodeCount', pending' := nodeCount, pending[..|pending| - 1];
    var box := LeafBox(order[..|items.boxes|], items.boxes, first, count);
    SetBox(nodes, at.node, box, nodeCount);
    if count <= LEAF_SIZE || at.depth + 1 >= DEPTH_MAX {
      Settle(p, box);
      TopItems(items, p);
      SettleDecided(items, p, box);
      p' := Settled(p, box);
      return;
    }
    var children;
    nodeCount', children, p' := SplitOrLeave(items, nodes, nodeCount, order, at, p, box);
    pending' := pending' + children;
  }

  lemma PlanFacts(p: Plan)
    requires Building(p) && p.pending != []
    ensures Sized(p) && Leaf(p.t, Top(p).node) && |p.pending| - 1 <= Top(p).depth <= LEVELS_MAX
    ensures forall i | 0 <= i < |p.t.order| :: p.t.order[i] < |p.t.boxes|
    ensures var node := p.t.nodes[Top(p).node]; node.first + node.count <= |p.t.order|
  {
    assert PendingOk(p) && DepthAt(p, Top(p).node);
  }

  /** The run of the node on top. */
  ghost function TopRun(p: Plan, order: seq<nat>): seq<nat>
    requires Sized(p) && p.pending != []
    requires var node := p.t.nodes[Top(p).node]; node.first + node.count <= |order|
  {
    var node := p.t.nodes[Top(p).node];
    order[node.first..node.first + node.count]
  }

  lemma TopItems(items: Items, p: Plan)
    requires Building(p) && p.pending != [] && items.Valid() && items.boxes == p.t.boxes
    ensures Sized(p) && Leaf(p.t, Top(p).node) && Distinct(p.t.order)
    ensures var node := p.t.nodes[Top(p).node]; node.first + node.count <= |p.t.order|
    ensures AllItems(items, TopRun(p, p.t.order)) && |TopRun(p, p.t.order)| == p.t.nodes[Top(p).node].count
    ensures var node := p.t.nodes[Top(p).node];
      p.ids[Top(p).node] == RunIds(p.t, node.first, node.first + node.count)
  {
    PlanFacts(p);
    assert IdsAt(p, Top(p).node);
    hide RunIds;
  }

  /** Settling a node that holds few items, is at the last depth or is not worth splitting is a right decision. */
  lemma SettleDecided(items: Items, p: Plan, box: Box)
    requires MaySettle(p, box) && items.Valid() && items.boxes == p.t.boxes && Decided(items, p)
    requires AllItems(items, TopRun(p, p.t.order))
    requires
      || p.t.nodes[Top(p).node].count <= LEAF_SIZE || Top(p).depth == LEVELS_MAX
      || Partitioned(items, CostArea(items.dimensions, Some(box)), TopRun(p, p.t.order), TopRun(p, p.t.order), 0)
    ensures Sized(Settled(p, box)) && Decided(items, Settled(p, box))
  {
    hide Building, Partitioned, CostArea, RunIds, Decided, Shaped, LeftWhole, Settled, BoxesTop;
    TopItems(items, p);
    SettledNodes(p, box);
    var node := p.t.nodes[Top(p).node];
    if Top(p).depth != LEVELS_MAX {
      WholeRun(items, box, p.t, node.first, node.first + node.count);
    }
    SettledDecided(items, p, box);
  }

  lemma SplitUpRuns(p: Plan, box: Box, order: seq<nat>, left: nat)
    requires MaySplit(p, box, order, left)
    ensures Sized(p) && Sized(SplitUp(p, box, order, left)) && PlanSplit(p, SplitUp(p, box, order, left), left)
    ensures var p', node, size := SplitUp(p, box, order, left), p.t.nodes[Top(p).node], |p.t.nodes|;
      var first, end := node.first, node.first + node.count;
      && p'.t.order == order && end <= |order| == |p.t.order| && 0 < left < node.count
      && |p'.ids| == size + 2 && p'.t.nodes[Top(p).node].box == box && Distinct(order)
      && p'.ids[size] == RunIds(p'.t, first, first + left) && p'.ids[size + 1] == RunIds(p'.t, first + left, end)
  {
    SplitKeeps(p, box, order, left);
    SplitUpSplits(p, box, order, left);
    ShapedIsDistinct(SplitUp(p, box, order, left).t);
    hide Building, BoxesTop, Shaped, RunIds;
  }

  /** Splitting a node as its partition says is a right decision. */
  lemma SplitUpDecided(items: Items, p: Plan, box: Box, order: seq<nat>, left: nat)
    requires MaySplit(p, box, order, left) && items.Valid() && items.boxes == p.t.boxes && Decided(items, p)
    requires AllItems(items, TopRun(p, p.t.order)) && AllItems(items, TopRun(p, order))
    requires p.t.nodes[Top(p).node].count > LEAF_SIZE
    requires Partitioned(items, CostArea(items.dimensions, Some(box)), TopRun(p, p.t.order), TopRun(p, order), left)
    ensures Sized(SplitUp(p, box, order, left)) && Decided(items, SplitUp(p, box, order, left))
  {
    hide Building, BoxesTop, Shaped, RunIds, Partitioned, CostArea, Decided, PlanSplit, AllItems, Divided, Rearranged;
    hide SplitUp, Distinct;
    SplitUpRuns(p, box, order, left);
    var p', node := SplitUp(p, box, order, left), p.t.nodes[Top(p).node];
    DividedRun(items, box, TopRun(p, p.t.order), p'.t, node.first, node.first + left, node.first + node.count);
    SplitDecided(items, p, p', box, left);
  }

  lemma Settle(p: Plan, box: Box)
    requires MaySettle(p, box)
    ensures var p' := Settled(p, box);
      && Building(p') && Todo(p') < Todo(p) && p'.t == Boxed(p, box)
      && p'.pending == p.pending[..|p.pending| - 1] && |p'.pending| <= STACK_MAX
  {
    SettledKeeps(p, box);
    SettledNodes(p, box);
    SlackOfSame(p.t.nodes, Settled(p, box).t.nodes);
    assert PendingOk(p) && DepthAt(p, Top(p).node);
    assert |p.pending| - 1 <= Top(p).depth;
  }

  lemma SplitUpIs(p: Plan, box: Box, order: seq<nat>, left: nat)
    requires Sized(p) && p.pending != []
    requires var node := p.t.nodes[Top(p).node]; 0 < left < node.count && node.first + node.count <= |order|
    ensures var p', at, node, size := SplitUp(p, box, order, left), Top(p), p.t.nodes[Top(p).node], |p.t.nodes|;
      && p'.pending == p.pending[..|p.pending| - 1] + [Pending(size, at.depth + 1), Pending(size + 1, at.depth + 1)]
      && p'.t.order == order && p'.t.boxes == p.t.boxes
      && p'.t.nodes == p.t.nodes[at.node := Node(box, size, 0)]
                       + [Node(ANY_BOX, node.first, left), Node(ANY_BOX, node.first + left, node.count - left)]
  {
    hide Shaped, RunIds;
  }

  lemma Split(p: Plan, box: Box, order: seq<nat>, left: nat)
    requires MaySplit(p, box, order, left)
    ensures var at, node, size := Top(p), p.t.nodes[Top(p).node], |p.t.nodes|;
      && Sized(p) && node.first + node.count <= |order| && left < node.count
      && var p' := SplitUp(p, box, order, left);
      && Building(p') && Todo(p') < Todo(p) && |p'.pending| <= STACK_MAX && size + 2 < 2 * |p.t.boxes|
      && p'.pending == p.pending[..|p.pending| - 1] + [Pending(size, at.depth + 1), Pending(size + 1, at.depth + 1)]
      && p'.t.order == order && p'.t.boxes == p.t.boxes
      && p'.t.nodes == p.t.nodes[at.node := Node(box, size, 0)]
                       + [Node(ANY_BOX, node.first, left), Node(ANY_BOX, node.first + left, node.count - left)]
  {
    hide IdsOk, RunsApart, BoxesOk, DepthsOk, PendingOk, CountOk, BoxesTop, Slack, Shaped, SplitUp;
    SplitKeeps(p, box, order, left);
    SplitCount(p, box, order, left);
    SplitUpIs(p, box, order, left);
    hide Building, Rearranged, MaySplit;
  }

  function Centre(box: Box): Vec {
    Vec((box.min.x + box.max.x) * 0.5, (box.min.y + box.max.y) * 0.5, (box.min.z + box.max.z) * 0.5)
  }

  /** The centre is as far from either side of the box, along every axis. */
  lemma CentreIsMiddle(box: Box, axis: Axis)
    ensures Along(Centre(box), axis) - Along(box.min, axis) == Along(box.max, axis) - Along(Centre(box), axis)
  {
  }

  /** What a tree is built over, given the boxes alone. */
  function ItemsOf(boxes: seq<Box>, dimensions: nat): (items: Items)
    ensures |items.centroids| == |items.boxes|
  {
    Items(boxes, seq(|boxes|, i requires 0 <= i < |boxes| => Centre(boxes[i])), dimensions)
  }

  /** At the start the root waits and nothing is decided. */
  lemma StartsUndecided(items: Items, p: Plan)
    requires items.Valid() && Sized(p) && |p.t.nodes| == 1 && p.pending == [Pending(0, 0)] && Leaf(p.t, 0)
    ensures Decided(items, p)
  {
    assert p.pending[0].node == 0;
  }

  /** Puts the items in the order of their ids, with their centres beside them. */
  method Prepare(boxes: seq<Box>, dimensions: nat, order: array<nat>) returns (items: Items)
    requires order.Length >= |boxes| && (dimensions == 2 || dimensions == 3)
    modifies order
    ensures Counts(order[..|boxes|]) && items.Valid() && items == ItemsOf(boxes, dimensions)
  {
    var centroids: seq<Vec> := [];
    for i := 0 to |boxes|
      invariant |centroids| == i && forall j | 0 <= j < i :: order[j] == j && centroids[j] == Centre(boxes[j])
    {
      order[i] := i;
      centroids := centroids + [Centre(boxes[i])];
    }
    return Items(boxes, centroids, dimensions);
  }

  /**
   * Builds the hierarchy over boxes, none included. Its stack of nodes to look at and its table of nodes never run out
   * of room, and what comes out can be searched.
   */
  method Build(boxes: seq<Box>, dimensions: nat, nodes: array<Node>, order: array<nat>)
    returns (nodeCount: nat, ghost depths: seq<nat>)
    requires (dimensions == 2 || dimensions == 3) && order.Length >= |boxes| && nodes.Length >= 2 * |boxes|
    modifies nodes, order
    ensures nodeCount <= nodes.Length
    ensures var t := Bvh(nodes[..nodeCount], order[..|boxes|], boxes);
      && Built(t) && |depths| == nodeCount && LeavesShort(t, depths)
      && WellDivided(ItemsOf(boxes, dimensions), t, depths)
  {
    nodeCount, depths := 0, [];
    var items := Prepare(boxes, dimensions, order);
    if |boxes| == 0 {
      return;
    }
    nodes[0] := Node(ANY_BOX, 0, |boxes|);
    var pending := [Pending(0, 0)];
    nodeCount := 1;
    ghost var t := Bvh(nodes[..1], order[..|boxes|], boxes);
    ghost var p := Plan(t, [RunIds(t, 0, |boxes|)], [0], pending);
    assert nodes[..1] == [nodes[0]];
    BuildStarts(boxes, order[..|boxes|], nodes[0]);
    StartsUndecided(items, p);
    hide Building, Built, LeavesShort, Todo, Slack, Decided, WellDivided, Shaped;
    while |pending| > 0
      invariant p.pending == pending && Building(p) && Holding(items, nodes, nodeCount, order, p) && Decided(items, p)
      invariant |pending| <= STACK_MAX
      decreases Todo(p)
    {
      nodeCount, pending, p := LookAt(items, nodes, nodeCount, order, pending, p);
    }
    FinishedIsBuilt(p);
    FinishedDecided(items, p);
    depths := p.depths;
    assert |depths| == nodeCount by {
      PlanSize(p);
    }
  }

  lemma PlanSize(p: Plan)
    requires Building(p)
    ensures |p.depths| == |p.t.nodes|
  {
  }

  /**
   * For any boxes, any point and any number of them: the hierarchy built over the boxes finds exactly what the linear
   * scan does, entry for entry, with distances where the scan has their squares.
   */
  method BuiltAgreesWithScan(boxes: seq<Box>, dimensions: nat, point: Vec, k: nat, root: real -> real)
    returns (found: seq<Hit>, scanned: seq<Hit>)
    requires (dimensions == 2 || dimensions == 3) && k > 0 && IsRoot(root)
    ensures IsTopK(HitsBelow(boxes, point, |boxes|), k, scanned) && found == Rooted(scanned, root)
  {
    var nodes := new Node[2 * |boxes|](_ => Node(ANY_BOX, 0, 0));
    var order := new nat[|boxes|](_ => 0);
    ghost var depths;
    var nodeCount;
    nodeCount, depths := Build(boxes, dimensions, nodes, order);
    found, scanned := AgreesWithScan(Bvh(nodes[..nodeCount], order[..|boxes|], boxes), point, k, root);
  }

  /** The same after the boxes have moved and the hierarchy has been refitted rather than built again. */
  method RefittedAgreesWithScan(nodes: array<Node>, nodeCount: nat, order: seq<nat>,
                                boxes: seq<Box>, moved: seq<Box>, point: Vec, k: nat, root: real -> real)
    returns (found: seq<Hit>, scanned: seq<Hit>)
    requires nodeCount <= nodes.Length && Built(Bvh(nodes[..nodeCount], order, boxes)) && |moved| == |boxes|
    requires k > 0 && IsRoot(root)
    modifies nodes
    ensures IsTopK(HitsBelow(moved, point, |moved|), k, scanned) && found == Rooted(scanned, root)
  {
    ghost var was := Bvh(nodes[..nodeCount], order, boxes);
    MovedSame(was, moved);
    Refit(nodes, nodeCount, order, moved);
    found, scanned := AgreesWithScan(Bvh(nodes[..nodeCount], order, moved), point, k, root);
  }

  /** Which items are under which nodes does not depend on where the items are. */
  lemma MovedSame(t: Bvh, moved: seq<Box>)
    requires Valid(t) && Shallow(t) && |moved| == |t.boxes|
    ensures var t' := t.(boxes := moved);
      Shaped(t') && Apart(t') && Shallow(t') && AllIds(t') == AllIds(t)
  {
    var t' := t.(boxes := moved);
    assert Shaped(t');
    hide Valid;
    forall n: nat | n < |t.nodes| ensures Ids(t', n) == Ids(t, n) && Height(t', n) == Height(t, n) {
      SameIds(t, t', n);
      SameHeight(t, t', n);
    }
    forall n | 0 <= n < |t.nodes| ensures ChildrenApart(t', n) {
      ValidIsApart(t, n);
    }
  }

  lemma ValidIsApart(t: Bvh, n: nat)
    requires Valid(t) && n < |t.nodes|
    ensures ChildrenApart(t, n)
  {
  }
}
