/** What the build decides about a node, in terms of the sets of items under it rather than of where they lie. */
module BvhDecide {
  import opened BvhPartition
  import opened BvhTree
  import opened Nearest
  import opened Wrappers

  ghost predicate Distinct(s: seq<nat>) {
    forall i, j | 0 <= i < j < |s| :: s[i] != s[j]
  }

  /** The run holds the items of the set, each once. */
  ghost predicate Lists(run: seq<nat>, ids: set<nat>) {
    Distinct(run) && (forall i | 0 <= i < |run| :: run[i] in ids) && forall id | id in ids :: id in run
  }

  /** A node with this box over these items is left a leaf: they are few, or splitting them is not worth it. */
  ghost predicate LeftWhole(items: Items, box: Box, ids: set<nat>)
    requires items.Valid()
  {
    exists run | Lists(run, ids) && AllItems(items, run) ::
      |run| <= LEAF_SIZE || Partitioned(items, CostArea(items.dimensions, Some(box)), run, run, 0)
  }

  /** A node with this box is split into these two: its more than few items partitioned, the front part and the rest. */
  ghost predicate Divided(items: Items, box: Box, left: set<nat>, right: set<nat>)
    requires items.Valid()
  {
    exists run, run', k: nat :: DividedAs(items, box, left, right, run, run', k)
  }

  ghost predicate DividedAs(items: Items, box: Box, left: set<nat>, right: set<nat>,
                            run: seq<nat>, run': seq<nat>, k: nat)
    requires items.Valid()
  {
    && AllItems(items, run) && AllItems(items, run') && 0 < k < |run'| && |run| > LEAF_SIZE
    && Lists(run'[..k], left) && Lists(run'[k..], right)
    && Partitioned(items, CostArea(items.dimensions, Some(box)), run, run', k)
  }

  /** A stretch of the order lists the items of it. */
  lemma RunLists(t: Bvh, from: nat, to: nat)
    requires Distinct(t.order) && from <= to <= |t.order|
    ensures Lists(t.order[from..to], RunIds(t, from, to))
  {
    var run := t.order[from..to];
    forall id | id in RunIds(t, from, to) ensures id in run {
      var i :| from <= i < to && t.order[i] == id;
      assert run[i - from] == id;
    }
  }

  lemma WholeRun(items: Items, box: Box, t: Bvh, from: nat, to: nat)
    requires items.Valid() && Distinct(t.order) && from <= to <= |t.order| && AllItems(items, t.order[from..to])
    requires to - from <= LEAF_SIZE
          || Partitioned(items, CostArea(items.dimensions, Some(box)), t.order[from..to], t.order[from..to], 0)
    ensures LeftWhole(items, box, RunIds(t, from, to))
  {
    hide Partitioned, CostArea, RunIds;
    RunLists(t, from, to);
  }

  lemma DividedRun(items: Items, box: Box, was: seq<nat>, t: Bvh, from: nat, mid: nat, to: nat)
    requires items.Valid() && Distinct(t.order) && from < mid < to <= |t.order|
    requires AllItems(items, was) && AllItems(items, t.order[from..to]) && |was| > LEAF_SIZE
    requires Partitioned(items, CostArea(items.dimensions, Some(box)), was, t.order[from..to], mid - from)
    ensures Divided(items, box, RunIds(t, from, mid), RunIds(t, mid, to))
  {
    hide Partitioned, CostArea, RunIds, Lists;
    var run := t.order[from..to];
    RunLists(t, from, mid);
    RunLists(t, mid, to);
    assert run[..mid - from] == t.order[from..mid] && run[mid - from..] == t.order[mid..to];
    assert DividedAs(items, box, RunIds(t, from, mid), RunIds(t, mid, to), was, run, mid - from);
  }
}
