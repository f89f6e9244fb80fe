/** The nearest query of the hierarchy: depth first, nearer child first, cutting off what cannot beat the worst kept. */
module BvhNearest {
  import opened BvhTree
  import opened Nearest
  import opened NearestHeap
  import opened Reals
  import opened Wrappers

  /** A search of a tree for the k items least in a distance. */
  datatype Query = Query(t: Bvh, dist: Box -> real, k: nat) {
    ghost predicate Valid() {
      BvhTree.Valid(t) && Narrowing(dist) && k > 0
    }
  }

  /** A node still to be visited and its squared distance to the point. */
  datatype Visit = Visit(node: nat, key: real)

  predicate IsVisit(q: Query, v: Visit) {
    v.node < |q.t.nodes| && v.key == q.dist(q.t.nodes[v.node].box)
  }

  /** A visit to a node, keyed by the distance of its box. */
  function VisitOf(q: Query, n: nat): (v: Visit)
    requires n < |q.t.nodes|
    ensures IsVisit(q, v) && v.node == n
  {
    Visit(n, q.dist(q.t.nodes[n].box))
  }

  ghost function StackIds(t: Bvh, stack: seq<Visit>): set<nat>
    requires Shaped(t) && forall v | v in stack :: v.node < |t.nodes|
  {
    if stack == [] then {} else StackIds(t, stack[..|stack| - 1]) + Ids(t, stack[|stack| - 1].node)
  }

  /** The visits name nodes with their keys, no item is under two of them, and each leaves room for its levels. */
  ghost predicate StackOk(q: Query, stack: seq<Visit>)
    requires Shaped(q.t)
    ensures StackOk(q, stack) ==> forall v | v in stack :: v.node < |q.t.nodes|
    ensures StackOk(q, stack) ==> |stack| <= LEVELS_MAX + 1
  {
    stack == [] ||
    var before, last := stack[..|stack| - 1], stack[|stack| - 1];
    && StackOk(q, before)
    && IsVisit(q, last) && |before| + Height(q.t, last.node) <= LEVELS_MAX
    && Ids(q.t, last.node) !! StackIds(q.t, before)
  }

  /** How many nodes there are at and under a node. */
  ghost function Work(t: Bvh, n: nat): nat
    requires Shaped(t) && n < |t.nodes|
    decreases |t.nodes| - n
  {
    if Leaf(t, n) then 1 else 1 + Work(t, t.nodes[n].first) + Work(t, t.nodes[n].first + 1)
  }

  ghost function StackWork(t: Bvh, stack: seq<Visit>): nat
    requires Shaped(t) && forall v | v in stack :: v.node < |t.nodes|
  {
    if stack == [] then 0 else StackWork(t, stack[..|stack| - 1]) + Work(t, stack[|stack| - 1].node)
  }

  lemma Pushed(q: Query, stack: seq<Visit>, v: Visit)
    requires Shaped(q.t) && StackOk(q, stack) && IsVisit(q, v) && |stack| + Height(q.t, v.node) <= LEVELS_MAX
    requires Ids(q.t, v.node) !! StackIds(q.t, stack)
    ensures StackOk(q, stack + [v])
    ensures StackIds(q.t, stack + [v]) == StackIds(q.t, stack) + Ids(q.t, v.node)
    ensures StackWork(q.t, stack + [v]) == StackWork(q.t, stack) + Work(q.t, v.node)
  {
    assert (stack + [v])[..|stack|] == stack;
  }

  // ---- What has been dealt with ---------------------------------------------------------------------------------

  /** The heap holds the k best of the items that have been dealt with, whether offered or cut off. */
  ghost predicate Keeps(q: Query, heap: seq<Hit>, done: set<nat>, best: set<Hit>) {
    && (forall id | id in done :: id < |q.t.boxes|)
    && |heap| <= q.k && IsHeap(heap) && Holds(heap, best) && KBest(HitsOf(q.t.boxes, q.dist, done), q.k, best)
  }

  /** Hits that all come after the worst of k kept ones change nothing. */
  lemma CutOffKeepsKBest(all: set<Hit>, k: nat, best: set<Hit>, worst: Hit, cut: set<Hit>)
    requires KBest(all, k, best) && |best| == k && Worst(best, worst)
    requires forall h | h in cut :: worst.distance < h.distance
    ensures KBest(all + cut, k, best)
  {
    assert |all| <= |all + cut| by {
      assert |(all + cut) - all| == |all + cut| - |all|;
    }
  }

  /** A node farther off than the worst kept can be left out, with everything under it. */
  lemma CutOff(q: Query, heap: seq<Hit>, done: set<nat>, best: set<Hit>, v: Visit)
    requires q.Valid() && Keeps(q, heap, done, best) && IsVisit(q, v)
    requires |heap| == q.k && v.key > heap[0].distance
    ensures Keeps(q, heap, done + Ids(q.t, v.node), best)
  {
    var ids, boxes := Ids(q.t, v.node), q.t.boxes;
    forall id | id in ids ensures id < |boxes| && heap[0].distance < q.dist(boxes[id]) {
      KeyIsLowerBound(q.t, v.node, id, q.dist);
    }
    HoldsEach(heap, best);
    RootIsWorst(heap, best);
    CutOffKeepsKBest(HitsOf(boxes, q.dist, done), q.k, best, heap[0], HitsOf(boxes, q.dist, ids));
    assert HitsOf(boxes, q.dist, done + ids) == HitsOf(boxes, q.dist, done) + HitsOf(boxes, q.dist, ids);
  }

  lemma RunGrows(t: Bvh, n: nat, i: nat)
    requires Shaped(t) && n < |t.nodes| && Leaf(t, n)
    requires t.nodes[n].first <= i < t.nodes[n].first + t.nodes[n].count
    ensures RunIds(t, t.nodes[n].first, i + 1) == RunIds(t, t.nodes[n].first, i) + {t.order[i]}
    ensures t.order[i] !in RunIds(t, t.nodes[n].first, i) && t.order[i] in Ids(t, n)
  {
  }

  /** Offers every item of a leaf. */
  method VisitLeaf(q: Query, n: nat, heap: array<Hit>, count: nat, ghost done: set<nat>, ghost best: set<Hit>)
    returns (count': nat, ghost best': set<Hit>)
    requires q.Valid() && n < |q.t.nodes| && Leaf(q.t, n)
    requires q.k <= heap.Length && count <= q.k && Keeps(q, heap[..count], done, best)
    requires Ids(q.t, n) !! done
    modifies heap
    ensures count' <= q.k && Keeps(q, heap[..count'], done + Ids(q.t, n), best')
  {
    var node := q.t.nodes[n];
    count', best' := count, best;
    ghost var dealt := done;
    for i := node.first to node.first + node.count
      invariant dealt == done + RunIds(q.t, node.first, i)
      invariant count' <= q.k && Keeps(q, heap[..count'], dealt, best')
    {
      RunGrows(q.t, n, i);
      var id := q.t.order[i];
      count', best' := OfferItem(q, id, heap, count', dealt, best');
      dealt := dealt + {id};
    }
    assert dealt == done + Ids(q.t, n);
  }

  /** Offers one item. */
  method OfferItem(q: Query, id: nat, heap: array<Hit>, count: nat, ghost done: set<nat>, ghost best: set<Hit>)
    returns (count': nat, ghost best': set<Hit>)
    requires id < |q.t.boxes| && id !in done
    requires 0 < q.k <= heap.Length && count <= q.k && Keeps(q, heap[..count], done, best)
    modifies heap
    ensures count' <= q.k && Keeps(q, heap[..count'], done + {id}, best')
  {
    var hit := Hit(id, q.dist(q.t.boxes[id]));
    ghost var hits := HitsOf(q.t.boxes, q.dist, done);
    count', best' := Offer(heap, count, q.k, hit, hits, best);
    assert HitsOf(q.t.boxes, q.dist, done + {id}) == hits + {hit};
  }

  /** What a search has come to, beside its stack: what has been dealt with, the best of it, and all there is. */
  datatype Progress = Progress(done: set<nat>, best: set<Hit>, all: set<nat>)

  /** Everything is either dealt with or under a visit still on the stack, and nothing is both. */
  ghost predicate Searching(q: Query, hits: seq<Hit>, stack: seq<Visit>, p: Progress) {
    && Shaped(q.t) && StackOk(q, stack) && Keeps(q, hits, p.done, p.best)
    && p.done !! StackIds(q.t, stack) && p.done + StackIds(q.t, stack) == p.all
  }

  /** The squared distance a candidate must not exceed, none while fewer than k are kept. */
  function Bound(hits: seq<Hit>, k: nat): Option<real> {
    if |hits| < k || hits == [] then None else Some(hits[0].distance)
  }

  predicate InBound(key: real, bound: Option<real>) {
    bound.Some? ==> key <= bound.value
  }

  /** A node within the bound goes onto the stack. */
  lemma PushKeepsSearching(q: Query, hits: seq<Hit>, stack: seq<Visit>, p: Progress, v: Visit)
    requires Searching(q, hits, stack, p) && IsVisit(q, v) && Ids(q.t, v.node) !! p.all
    requires |stack| + Height(q.t, v.node) <= LEVELS_MAX
    ensures Searching(q, hits, stack + [v], p.(all := p.all + Ids(q.t, v.node)))
    ensures StackWork(q.t, stack + [v]) == StackWork(q.t, stack) + Work(q.t, v.node)
  {
    Pushed(q, stack, v);
  }

  /** A node beyond it is dealt with there and then. */
  lemma CutKeepsSearching(q: Query, hits: seq<Hit>, stack: seq<Visit>, p: Progress, v: Visit)
    requires q.Valid() && Searching(q, hits, stack, p) && IsVisit(q, v) && Ids(q.t, v.node) !! p.all
    requires !InBound(v.key, Bound(hits, q.k))
    ensures Searching(q, hits, stack, p.(done := p.done + Ids(q.t, v.node), all := p.all + Ids(q.t, v.node)))
  {
    CutOff(q, hits, p.done, p.best, v);
  }

  /** Pushes a node that is in bound and leaves out one that is not. */
  method PushOrCut(q: Query, bound: Option<real>, stack: seq<Visit>, v: Visit, ghost hits: seq<Hit>, ghost p: Progress)
    returns (stack': seq<Visit>, ghost p': Progress)
    requires q.Valid() && bound == Bound(hits, q.k)
    requires Searching(q, hits, stack, p) && IsVisit(q, v) && Ids(q.t, v.node) !! p.all
    requires |stack| + Height(q.t, v.node) <= LEVELS_MAX
    ensures Searching(q, hits, stack', p') && p'.best == p.best && p'.all == p.all + Ids(q.t, v.node)
    ensures |stack'| <= |stack| + 1 <= STACK_MAX
    ensures StackWork(q.t, stack') <= StackWork(q.t, stack) + Work(q.t, v.node)
  {
    if InBound(v.key, bound) {
      PushKeepsSearching(q, hits, stack, p, v);
      return stack + [v], p.(all := p.all + Ids(q.t, v.node));
    }
    CutKeepsSearching(q, hits, stack, p, v);
    return stack, p.(done := p.done + Ids(q.t, v.node), all := p.all + Ids(q.t, v.node));
  }

  /** The children of an inner node, pushed so that the nearer one is visited first; there is room for both. */
  method PushChildren(q: Query, n: nat, bound: Option<real>, stack: seq<Visit>, ghost hits: seq<Hit>, ghost p: Progress)
    returns (stack': seq<Visit>, ghost p': Progress)
    requires q.Valid() && bound == Bound(hits, q.k) && n < |q.t.nodes| && !Leaf(q.t, n)
    requires Searching(q, hits, stack, p) && Ids(q.t, n) !! p.all && |stack| + Height(q.t, n) <= LEVELS_MAX
    ensures Searching(q, hits, stack', p') && p'.best == p.best && p'.all == p.all + Ids(q.t, n)
    ensures |stack'| <= |stack| + 2 <= STACK_MAX
    ensures StackWork(q.t, stack') < StackWork(q.t, stack) + Work(q.t, n)
  {
    hide Searching, Ids, StackWork, Work;
    var left, right := q.t.nodes[n].first, q.t.nodes[n].first + 1;
    var a, b := VisitOf(q, left), VisitOf(q, right);
    ChildrenSplit(q.t, n, left, right, p.all);
    ChildrenSplit(q.t, n, right, left, p.all);
    if InBound(a.key, bound) && InBound(b.key, bound) && a.key < b.key {
      stack', p' := PushPair(q, bound, stack, b, a, hits, p);
    } else {
      stack', p' := PushPair(q, bound, stack, a, b, hits, p);
    }
  }

  /** Two visits with no item in common, the second to be popped first. */
  method PushPair(q: Query, bound: Option<real>, stack: seq<Visit>, first: Visit, last: Visit,
                  ghost hits: seq<Hit>, ghost p: Progress)
    returns (stack': seq<Visit>, ghost p': Progress)
    requires q.Valid() && bound == Bound(hits, q.k)
    requires Searching(q, hits, stack, p) && IsVisit(q, first) && IsVisit(q, last)
    requires |stack| + 1 + Height(q.t, first.node) <= LEVELS_MAX && |stack| + 1 + Height(q.t, last.node) <= LEVELS_MAX
    requires Ids(q.t, first.node) !! p.all && Ids(q.t, last.node) !! p.all + Ids(q.t, first.node)
    ensures Searching(q, hits, stack', p')
    ensures p'.best == p.best && p'.all == p.all + Ids(q.t, first.node) + Ids(q.t, last.node)
    ensures |stack'| <= |stack| + 2 <= STACK_MAX
    ensures StackWork(q.t, stack') <= StackWork(q.t, stack) + Work(q.t, first.node) + Work(q.t, last.node)
  {
    hide Searching, Ids, StackWork, Work, Height;
    stack', p' := PushOrCut(q, bound, stack, first, hits, p);
    stack', p' := PushOrCut(q, bound, stack', last, hits, p');
  }

  /** What is under a node is under one or the other of its children, and not under both. */
  lemma ChildrenSplit(t: Bvh, n: nat, a: nat, b: nat, all: set<nat>)
    requires Valid(t) && n < |t.nodes| && !Leaf(t, n) && Ids(t, n) !! all
    requires var first := t.nodes[n].first; (a == first && b == first + 1) || (a == first + 1 && b == first)
    ensures Ids(t, a) !! all && Ids(t, b) !! all + Ids(t, a)
    ensures all + Ids(t, a) + Ids(t, b) == all + Ids(t, n)
    ensures Work(t, n) == 1 + Work(t, a) + Work(t, b)
    ensures 1 + Height(t, a) <= Height(t, n)
  {
    hide *;
    ValidIsShaped(t);
    InnerNode(t, n);
    var whole, first, second := Ids(t, n), Ids(t, t.nodes[n].first), Ids(t, t.nodes[n].first + 1);
    if a == t.nodes[n].first {
      SplitSet(whole, first, second, all);
    } else {
      assert whole == second + first;
      SplitSet(whole, second, first, all);
    }
  }

  lemma ValidIsShaped(t: Bvh)
    requires Valid(t)
    ensures Shaped(t)
  {
  }

  /** An inner node in terms of its children. */
  lemma InnerNode(t: Bvh, n: nat)
    requires Valid(t) && n < |t.nodes| && !Leaf(t, n)
    ensures var first := t.nodes[n].first;
      && first + 1 < |t.nodes|
      && Ids(t, n) == Ids(t, first) + Ids(t, first + 1) && Ids(t, first) !! Ids(t, first + 1)
      && Work(t, n) == 1 + Work(t, first) + Work(t, first + 1)
      && Height(t, n) >= 1 + Height(t, first) && Height(t, n) >= 1 + Height(t, first + 1)
  {
    assert ChildrenApart(t, n);
  }

  lemma SplitSet(whole: set<nat>, a: set<nat>, b: set<nat>, all: set<nat>)
    requires whole == a + b && a !! b && whole !! all
    ensures a !! all && b !! all + a && all + a + b == all + whole
  {
  }

  lemma PopKeepsSearching(q: Query, hits: seq<Hit>, stack: seq<Visit>, p: Progress)
    requires Searching(q, hits, stack, p) && stack != []
    ensures var rest, v := stack[..|stack| - 1], stack[|stack| - 1];
      && IsVisit(q, v) && Ids(q.t, v.node) <= p.all && Ids(q.t, v.node) !! p.done
      && |rest| + Height(q.t, v.node) <= LEVELS_MAX
      && Searching(q, hits, rest, p.(all := p.all - Ids(q.t, v.node)))
      && StackWork(q.t, stack) == StackWork(q.t, rest) + Work(q.t, v.node)
  {
  }

  lemma LeafKeepsSearching(q: Query, hits: seq<Hit>, stack: seq<Visit>, p: Progress,
                           hits': seq<Hit>, best': set<Hit>, ids: set<nat>)
    requires Searching(q, hits, stack, p) && ids !! p.all
    requires Keeps(q, hits', p.done + ids, best')
    ensures Searching(q, hits', stack, Progress(p.done + ids, best', p.all + ids))
  {
  }

  /** Visits one node: cut off, searched as a leaf, or replaced by its children. */
  method VisitNode(q: Query, heap: array<Hit>, count: nat, stack: seq<Visit>, v: Visit, ghost p: Progress)
    returns (count': nat, stack': seq<Visit>, ghost p': Progress)
    requires q.Valid() && IsVisit(q, v) && q.k <= heap.Length && count <= q.k
    requires Searching(q, heap[..count], stack, p) && Ids(q.t, v.node) !! p.all
    requires |stack| + Height(q.t, v.node) <= LEVELS_MAX
    modifies heap
    ensures count' <= q.k && Searching(q, heap[..count'], stack', p') && p'.all == p.all + Ids(q.t, v.node)
    ensures StackWork(q.t, stack') < StackWork(q.t, stack) + Work(q.t, v.node)
  {
    ghost var ids := Ids(q.t, v.node);
    count', stack', p' := count, stack, p.(done := p.done + ids, all := p.all + ids);
    ghost var hits := heap[..count];
    var bound := if count < q.k then None else Some(heap[0].distance);
    if !InBound(v.key, bound) {
      CutKeepsSearching(q, hits, stack, p, v);
      return;
    }
    if q.t.nodes[v.node].count > 0 {
      ghost var best';
      count', best' := VisitLeaf(q, v.node, heap, count, p.done, p.best);
      LeafKeepsSearching(q, hits, stack, p, heap[..count'], best', ids);
      p' := Progress(p.done + ids, best', p.all + ids);
      return;
    }
    stack', p' := PushChildren(q, v.node, bound, stack, hits, p);
  }

  lemma SearchStarts(q: Query, root: Visit)
    requires Shaped(q.t) && IsVisit(q, root) && Height(q.t, root.node) <= LEVELS_MAX
    ensures Searching(q, [], [root], Progress({}, {}, Ids(q.t, root.node)))
  {
    assert HitsOf(q.t.boxes, q.dist, {}) == {};
    var stack: seq<Visit> := [];
    Pushed(q, stack, root);
    assert stack + [root] == [root];
  }

  lemma SearchEnds(q: Query, hits: seq<Hit>, p: Progress, sorted: seq<Hit>)
    requires Searching(q, hits, [], p) && Holds(sorted, p.best) && Ascending(sorted)
    ensures (forall id | id in p.all :: id < |q.t.boxes|) && IsTopK(HitsOf(q.t.boxes, q.dist, p.all), q.k, sorted)
  {
    assert p.done == p.all;
    HoldsEach(sorted, p.best);
  }

  /** Takes the last visit off the stack and performs it. */
  method VisitLast(q: Query, heap: array<Hit>, count: nat, stack: seq<Visit>, ghost p: Progress)
    returns (count': nat, stack': seq<Visit>, ghost p': Progress)
    requires q.Valid() && q.k <= heap.Length && count <= q.k && |stack| > 0
    requires Searching(q, heap[..count], stack, p)
    modifies heap
    ensures count' <= q.k && Searching(q, heap[..count'], stack', p') && p'.all == p.all
    ensures StackWork(q.t, stack') < StackWork(q.t, stack)
  {
    PopKeepsSearching(q, heap[..count], stack, p);
    var v := stack[|stack| - 1];
    ghost var rest := p.(all := p.all - Ids(q.t, v.node));
    assert rest.all + Ids(q.t, v.node) == p.all;
    count', stack', p' := VisitNode(q, heap, count, stack[..|stack| - 1], v, rest);
  }

  /** Searches the tree from a node down, leaving the k nearest on the heap; the stack never outgrows its room. */
  method Search(q: Query, root: Visit, heap: array<Hit>) returns (count: nat, ghost p: Progress)
    requires q.Valid() && q.k <= heap.Length && IsVisit(q, root) && Height(q.t, root.node) <= LEVELS_MAX
    modifies heap
    ensures count <= q.k && Searching(q, heap[..count], [], p) && p.all == Ids(q.t, root.node)
  {
    var stack := [root];
    SearchStarts(q, root);
    count, p := 0, Progress({}, {}, Ids(q.t, root.node));
    assert heap[..0] == [];
    while |stack| > 0
      invariant count <= q.k && Searching(q, heap[..count], stack, p) && p.all == Ids(q.t, root.node)
      invariant |stack| <= STACK_MAX
      decreases StackWork(q.t, stack)
    {
      count, stack, p := VisitLast(q, heap, count, stack, p);
    }
  }

  // ---- The query ------------------------------------------------------------------------------------------------

  /** The distance of a box from a point, and the order of the boxes by it. */
  function Distance(point: Vec, root: real -> real): Box -> real {
    box => root(DistanceSquared(box, point))
  }

  function Squared(point: Vec): Box -> real {
    box => DistanceSquared(box, point)
  }

  lemma SquaredNarrows(point: Vec)
    ensures Narrowing(Squared(point))
  {
    forall inner, outer | Within(inner, outer) ensures DistanceSquared(outer, point) <= DistanceSquared(inner, point) {
      InnerIsNoNearer(inner, outer, point);
    }
  }

  lemma NothingFound(t: Bvh, dist: Box -> real, k: nat)
    requires Valid(t) && (k == 0 || t.nodes == [])
    ensures (forall id | id in AllIds(t) :: id < |t.boxes|) && IsTopK(HitsOf(t.boxes, dist, AllIds(t)), k, [])
  {
    forall id | id in AllIds(t) ensures id < |t.boxes| {
      ItemsWithin(t, 0, id);
    }
    assert Elements([]) == {};
    if t.nodes == [] {
      assert HitsOf(t.boxes, dist, AllIds(t)) == {};
    }
  }

  /** The k first by squared distance are the k first by distance. */
  lemma RootedIsTopK(boxes: seq<Box>, point: Vec, ids: set<nat>, k: nat, squared: seq<Hit>, root: real -> real)
    requires (forall id | id in ids :: id < |boxes|) && IsRoot(root)
    requires IsTopK(HitsOf(boxes, Squared(point), ids), k, squared)
    ensures IsTopK(HitsOf(boxes, Distance(point, root), ids), k, Rooted(squared, root))
  {
    var all, all' := HitsOf(boxes, Squared(point), ids), HitsOf(boxes, Distance(point, root), ids);
    var rooted := Rooted(squared, root);
    assert forall i | 0 <= i < |squared| :: squared[i] in Elements(squared);
    forall id | id in ids ensures DistanceSquared(boxes[id], point) >= 0.0 {
      DistanceNotNegative(boxes[id], point);
    }
    RootedAscends(squared, root);
    HitsCount(boxes, Squared(point), ids);
    HitsCount(boxes, Distance(point, root), ids);
    ElementsCount(squared);
    ElementsCount(rooted);
    assert Elements(rooted) <= all';
    forall u, o | u in all' && u !in Elements(rooted) && o in Elements(rooted) ensures Before(o, u) {
      var i :| 0 <= i < |rooted| && rooted[i] == o;
      var u' := Hit(u.id, DistanceSquared(boxes[u.id], point));
      forall j | 0 <= j < |squared| ensures squared[j] != u' {
        assert rooted[j] in Elements(rooted);
      }
      assert u' in all && Before(squared[i], u');
      RootRises(root, squared[i].distance, u'.distance);
    }
  }

  /** The k items nearest a point, closest first, ties by id, with their distances; `root` is the platform's. */
  method NearestItems(t: Bvh, point: Vec, k: nat, root: real -> real, out: array<Hit>)
    returns (count: nat, ghost squared: seq<Hit>)
    requires Valid(t) && Shallow(t) && k <= out.Length && IsRoot(root)
    modifies out
    ensures count <= k && (forall id | id in AllIds(t) :: id < |t.boxes|)
    ensures IsTopK(HitsOf(t.boxes, Squared(point), AllIds(t)), k, squared) && out[..count] == Rooted(squared, root)
    ensures IsTopK(HitsOf(t.boxes, Distance(point, root), AllIds(t)), k, out[..count])
  {
    if k == 0 || |t.nodes| == 0 {
      NothingFound(t, Squared(point), k);
      NothingFound(t, Distance(point, root), k);
      return 0, [];
    }
    SquaredNarrows(point);
    var q := Query(t, Squared(point), k);
    ghost var p;
    count, p := Search(q, VisitOf(q, 0), out);
    ghost var hits := out[..count];
    BestNotNegative(q, point, p);
    squared := Finish(out, count, p.best, root);
    SearchEnds(q, hits, p, squared);
    RootedIsTopK(t.boxes, point, AllIds(t), k, squared, root);
  }

  lemma BestNotNegative(q: Query, point: Vec, p: Progress)
    requires (forall id | id in p.done :: id < |q.t.boxes|) && q.dist == Squared(point)
    requires p.best <= HitsOf(q.t.boxes, q.dist, p.done)
    ensures forall h | h in p.best :: h.distance >= 0.0
  {
    forall h | h in p.best ensures h.distance >= 0.0 {
      DistanceNotNegative(q.t.boxes[h.id], point);
    }
  }

  /**
   * The hierarchy over all the boxes and the linear scan it is measured against: both leave the k first boxes, the
   * search with the roots of the scan's distances and otherwise the same, entry for entry.
   */
  method AgreesWithScan(t: Bvh, point: Vec, k: nat, root: real -> real) returns (found: seq<Hit>, scanned: seq<Hit>)
    requires Valid(t) && Shallow(t) && k > 0 && IsRoot(root)
    requires forall id: nat :: id in AllIds(t) <==> id < |t.boxes|
    ensures IsTopK(HitsBelow(t.boxes, point, |t.boxes|), k, scanned)
    ensures IsTopK(HitsOf(t.boxes, Distance(point, root), AllIds(t)), k, found)
    ensures found == Rooted(scanned, root)
  {
    var out, out' := new Hit[k](_ => Hit(0, 0.0)), new Hit[k](_ => Hit(0, 0.0));
    ghost var squared;
    var count;
    count, squared := NearestItems(t, point, k, root, out);
    var kept := ScanNearest(t.boxes, point, k, out');
    found, scanned := out[..count], out'[..kept];
    HitsOfAll(t.boxes, point, AllIds(t));
    TopKUnique(HitsBelow(t.boxes, point, |t.boxes|), k, squared, scanned);
  }

  lemma HitsOfAll(boxes: seq<Box>, point: Vec, ids: set<nat>)
    requires forall id: nat :: id in ids <==> id < |boxes|
    ensures HitsOf(boxes, Squared(point), ids) == HitsBelow(boxes, point, |boxes|)
  {
  }
}
