/** The heap of the hits kept so far, at most k: its first is the next to give way, its sorted form the answer. */
module NearestHeap {
  import opened Nearest
  import opened Reals
  import opened Wrappers

  predicate IsChild(p: nat, c: nat) {
    c == 2 * p + 1 || c == 2 * p + 2
  }

  /** No entry comes before one of its children. */
  ghost predicate IsHeap(heap: seq<Hit>) {
    forall p: nat, c: nat | IsChild(p, c) && c < |heap| :: !Before(heap[p], heap[c])
  }

  lemma NotBeforeTransitive(a: Hit, b: Hit, c: Hit)
    requires !Before(a, b) && !Before(b, c)
    ensures !Before(a, c)
  {
  }

  lemma {:induction false} RootIsLast(heap: seq<Hit>, i: nat)
    requires IsHeap(heap) && i < |heap|
    ensures !Before(heap[0], heap[i])
  {
    if i > 0 {
      var p := (i - 1) / 2;
      assert IsChild(p, i);
      RootIsLast(heap, p);
      NotBeforeTransitive(heap[0], heap[p], heap[i]);
    }
  }

  // ---- Sinking ---------------------------------------------------------------------------------------------------

  /** A heap but for the entry at `at`, which may come before its children; those do not come after its parent. */
  ghost predicate HeapButDown(heap: seq<Hit>, at: nat) {
    && (forall p: nat, c: nat | IsChild(p, c) && c < |heap| && p != at :: !Before(heap[p], heap[c]))
    && (forall g: nat, c: nat | IsChild(g, at) && IsChild(at, c) && c < |heap| :: !Before(heap[g], heap[c]))
  }

  /** Exchanging the entry with its worst child moves the one possible fault down. */
  lemma SinkOne(heap: seq<Hit>, at: nat, child: nat)
    requires HeapButDown(heap, at)
    requires child < |heap| && IsChild(at, child) && Before(heap[at], heap[child])
    requires forall c: nat | IsChild(at, c) && c < |heap| :: !Before(heap[child], heap[c])
    ensures HeapButDown(Swapped(heap, at, child), child)
  {
    var r := Swapped(heap, at, child);
    forall p: nat, c: nat | IsChild(p, c) && c < |r| && p != child ensures !Before(r[p], r[c]) {
      if p == at {
        assert !Before(heap[child], heap[c]);
      } else if c == at {
        assert IsChild(p, at) && IsChild(at, child);
      }
    }
    forall g: nat, c: nat | IsChild(g, child) && IsChild(child, c) && c < |r| ensures !Before(r[g], r[c]) {
      assert g == at && !Before(heap[child], heap[c]);
    }
  }

  lemma NothingToSink(heap: seq<Hit>, at: nat)
    requires HeapButDown(heap, at)
    requires forall c: nat | IsChild(at, c) && c < |heap| :: !Before(heap[at], heap[c])
    ensures IsHeap(heap)
  {
  }

  /** Lets an entry sink below every child it comes before, within the first `count` entries. */
  method SiftDown(heap: array<Hit>, count: nat, start: nat)
    requires start < count <= heap.Length
    requires HeapButDown(heap[..count], start)
    modifies heap
    ensures IsHeap(heap[..count]) && multiset(heap[..count]) == multiset(old(heap[..count]))
    ensures heap[count..] == old(heap[count..])
  {
    var at := start;
    while true
      invariant at < count
      invariant HeapButDown(heap[..count], at)
      invariant multiset(heap[..count]) == multiset(old(heap[..count]))
      invariant heap[count..] == old(heap[count..])
      decreases count - at
    {
      ghost var was := heap[..count];
      var worst := WorstOfThree(heap, count, at);
      if worst == at {
        NothingToSink(was, at);
        return;
      }
      SinkOne(was, at, worst);
      heap[at], heap[worst] := heap[worst], heap[at];
      assert heap[..count] == Swapped(was, at, worst);
      at := worst;
    }
  }

  /** The last in order of an entry and its children. */
  method WorstOfThree(heap: array<Hit>, count: nat, at: nat) returns (worst: nat)
    requires at < count <= heap.Length
    ensures worst == at || (IsChild(at, worst) && worst < count && Before(heap[at], heap[worst]))
    ensures forall c: nat | IsChild(at, c) && c < count :: !Before(heap[worst], heap[c])
  {
    var left := 2 * at + 1;
    var right := left + 1;
    worst := at;
    if left < count && Before(heap[worst], heap[left]) {
      worst := left;
    }
    if right < count && Before(heap[worst], heap[right]) {
      worst := right;
    }
  }

  // ---- Rising ----------------------------------------------------------------------------------------------------

  /** A heap but for the entry at `at`, which its parent may come before. */
  ghost predicate HeapButUp(heap: seq<Hit>, at: nat) {
    && (forall p: nat, c: nat | IsChild(p, c) && c < |heap| && c != at :: !Before(heap[p], heap[c]))
    && (forall g: nat, c: nat | IsChild(g, at) && IsChild(at, c) && c < |heap| :: !Before(heap[g], heap[c]))
  }

  lemma RiseOne(heap: seq<Hit>, parent: nat, at: nat)
    requires at < |heap| && IsChild(parent, at) && HeapButUp(heap, at) && Before(heap[parent], heap[at])
    ensures HeapButUp(Swapped(heap, parent, at), parent)
  {
    var r := Swapped(heap, parent, at);
    forall p: nat, c: nat | IsChild(p, c) && c < |r| && c != parent ensures !Before(r[p], r[c]) {
      if p == parent && c != at {
        assert !Before(heap[parent], heap[c]);
        NotBeforeTransitive(heap[at], heap[parent], heap[c]);
      } else if p == at {
        assert IsChild(parent, at) && IsChild(at, c);
      }
    }
    forall g: nat, c: nat | IsChild(g, parent) && IsChild(parent, c) && c < |r| ensures !Before(r[g], r[c]) {
      assert !Before(heap[g], heap[parent]);
      if c != at {
        NotBeforeTransitive(heap[g], heap[parent], heap[c]);
      }
    }
  }

  /** Lets the last of the first `count` entries rise past every parent that comes before it. */
  method SiftUp(heap: array<Hit>, count: nat)
    requires 0 < count <= heap.Length
    requires IsHeap(heap[..count - 1])
    modifies heap
    ensures IsHeap(heap[..count]) && multiset(heap[..count]) == multiset(old(heap[..count]))
    ensures heap[count..] == old(heap[count..])
  {
    var at := count - 1;
    assert heap[..count - 1] == heap[..count][..count - 1];
    LastMayRise(heap[..count]);
    while at > 0
      invariant 0 <= at < count
      invariant HeapButUp(heap[..count], at)
      invariant multiset(heap[..count]) == multiset(old(heap[..count]))
      invariant heap[count..] == old(heap[count..])
    {
      ghost var was := heap[..count];
      var parent := (at - 1) / 2;
      assert IsChild(parent, at);
      if !Before(heap[parent], heap[at]) {
        NothingToRise(was, at);
        return;
      }
      RiseOne(was, parent, at);
      heap[parent], heap[at] := heap[at], heap[parent];
      assert heap[..count] == Swapped(was, parent, at);
      at := parent;
    }
    NothingToRise(heap[..count], 0);
  }

  lemma LastMayRise(heap: seq<Hit>)
    requires heap != [] && IsHeap(heap[..|heap| - 1])
    ensures HeapButUp(heap, |heap| - 1)
  {
    var before := heap[..|heap| - 1];
    assert forall i | 0 <= i < |before| :: before[i] == heap[i];
  }

  lemma NothingToRise(heap: seq<Hit>, at: nat)
    requires at < |heap| && HeapButUp(heap, at)
    requires at > 0 ==> !Before(heap[(at - 1) / 2], heap[at])
    ensures IsHeap(heap)
  {
  }

  // ---- Offering and finishing ------------------------------------------------------------------------------------

  /** The entries are the hits of the set, each once. */
  ghost predicate Holds(heap: seq<Hit>, best: set<Hit>) {
    multiset(heap) == multiset(best)
  }

  lemma HoldsEach(heap: seq<Hit>, best: set<Hit>)
    requires Holds(heap, best)
    ensures |heap| == |best| && Elements(heap) == best
    ensures forall i, j | 0 <= i < j < |heap| :: heap[i] != heap[j]
  {
    assert |multiset(heap)| == |multiset(best)|;
    assert forall h :: h in heap <==> h in multiset(heap);
    forall i, j | 0 <= i < j < |heap| ensures heap[i] != heap[j] {
      var rest := heap[..i] + heap[i + 1..];
      assert heap == heap[..i] + [heap[i]] + heap[i + 1..];
      assert multiset(heap) == multiset(rest) + multiset{heap[i]};
      assert multiset(best)[heap[i]] <= 1;
      assert multiset(rest)[heap[i]] == 0;
      assert rest[j - 1] == heap[j] && heap[j] in multiset(rest);
    }
  }

  lemma RootIsWorst(heap: seq<Hit>, best: set<Hit>)
    requires IsHeap(heap) && Holds(heap, best) && heap != []
    ensures Worst(best, heap[0])
  {
    HoldsEach(heap, best);
    assert heap[0] in Elements(heap);
    forall b | b in best ensures b == heap[0] || Before(b, heap[0]) {
      assert b in Elements(heap);
      var i :| 0 <= i < |heap| && heap[i] == b;
      RootIsLast(heap, i);
    }
  }

  /** Offers a candidate to the k best of what has been offered so far. */
  method Offer(heap: array<Hit>, count: nat, k: nat, hit: Hit, ghost all: set<Hit>, ghost best: set<Hit>)
    returns (count': nat, ghost best': set<Hit>)
    requires 0 < k <= heap.Length && count <= k && hit !in all
    requires IsHeap(heap[..count]) && Holds(heap[..count], best) && KBest(all, k, best)
    modifies heap
    ensures count' <= k
    ensures IsHeap(heap[..count']) && Holds(heap[..count'], best') && KBest(all + {hit}, k, best')
  {
    ghost var was := heap[..count];
    HoldsEach(was, best);
    if count < k {
      OfferJoins(all, k, best, hit);
      SetAsMultiset(best, hit);
      heap[count] := hit;
      assert heap[..count + 1] == was + [hit] && heap[..count] == was;
      SiftUp(heap, count + 1);
      return count + 1, best + {hit};
    }
    RootIsWorst(was, best);
    OfferReplacesWorst(all, k, best, hit, was[0]);
    if !Before(hit, heap[0]) {
      return count, best;
    }
    ReplaceRoot(heap, count, hit, best);
    return count, best - {was[0]} + {hit};
  }

  method ReplaceRoot(heap: array<Hit>, count: nat, hit: Hit, ghost best: set<Hit>)
    requires 0 < count <= heap.Length && hit !in best
    requires IsHeap(heap[..count]) && Holds(heap[..count], best)
    modifies heap
    ensures IsHeap(heap[..count]) && Holds(heap[..count], best - {old(heap[0])} + {hit})
  {
    ghost var was := heap[..count];
    ReplacedRoot(was, hit);
    ReplacedContents(was, best, hit);
    heap[0] := hit;
    assert heap[..count] == was[0 := hit];
    SiftDown(heap, count, 0);
  }

  lemma SetAsMultiset(s: set<Hit>, x: Hit)
    ensures x in s ==> multiset(s) == multiset(s - {x}) + multiset{x}
    ensures x !in s ==> multiset(s + {x}) == multiset(s) + multiset{x}
  {
    assert forall y | y in s :: multiset(s)[y] == 1;
  }

  lemma Cancel(a: multiset<Hit>, b: multiset<Hit>, c: multiset<Hit>)
    requires a + c == b + c
    ensures a == b
  {
    forall x ensures a[x] == b[x] {
      assert (a + c)[x] == (b + c)[x];
    }
  }

  lemma ReplacedContents(heap: seq<Hit>, best: set<Hit>, hit: Hit)
    requires Holds(heap, best) && heap != [] && hit !in best
    ensures Holds(heap[0 := hit], best - {heap[0]} + {hit})
  {
    HoldsEach(heap, best);
    var root, rest := heap[0], heap[1..];
    assert root in Elements(heap);
    SetAsMultiset(best, root);
    SetAsMultiset(best - {root}, hit);
    assert heap == [root] + rest && heap[0 := hit] == [hit] + rest;
    Cancel(multiset(rest), multiset(best - {root}), multiset{root});
  }

  lemma ReplacedRoot(heap: seq<Hit>, hit: Hit)
    requires IsHeap(heap) && heap != []
    ensures HeapButDown(heap[0 := hit], 0)
  {
  }

  /** Later entries do not come before earlier ones. */
  ghost predicate Sorted(hits: seq<Hit>) {
    forall i, j | 0 <= i < j < |hits| :: !Before(hits[j], hits[i])
  }

  /** Nothing of the first part comes after anything of the second. */
  ghost predicate Split(first: seq<Hit>, second: seq<Hit>) {
    forall a, b | a in first && b in second :: !Before(b, a)
  }

  lemma TakeRoot(heap: seq<Hit>, done: seq<Hit>)
    requires IsHeap(heap) && |heap| > 1 && Sorted(done) && Split(heap, done)
    ensures var rest := heap[0 := heap[|heap| - 1]][..|heap| - 1];
      && HeapButDown(rest, 0)
      && Sorted([heap[0]] + done) && Split(rest, [heap[0]] + done)
  {
    var rest := heap[0 := heap[|heap| - 1]][..|heap| - 1];
    assert forall i | 0 < i < |rest| :: rest[i] == heap[i];
    forall i | 0 <= i < |heap| ensures !Before(heap[0], heap[i]) {
      RootIsLast(heap, i);
    }
    forall a, b | a in rest && b in [heap[0]] + done ensures !Before(b, a) {
      var i :| 0 <= i < |rest| && rest[i] == a;
      assert a in heap;
    }
    assert heap[0] in heap;
  }

  lemma SplitIsAboutContents(first: seq<Hit>, first': seq<Hit>, second: seq<Hit>)
    requires Split(first, second) && multiset(first) == multiset(first')
    ensures Split(first', second)
  {
    forall a, b | a in first' && b in second ensures !Before(b, a) {
      assert a in multiset(first');
      assert a in first;
    }
  }

  /** The hits with their squared distances turned into distances. */
  function Rooted(hits: seq<Hit>, root: real -> real): seq<Hit> {
    seq(|hits|, i requires 0 <= i < |hits| => Hit(hits[i].id, root(hits[i].distance)))
  }

  lemma RootedAscends(hits: seq<Hit>, root: real -> real)
    requires IsRoot(root) && Ascending(hits) && forall i | 0 <= i < |hits| :: hits[i].distance >= 0.0
    ensures Ascending(Rooted(hits, root))
  {
    var rooted := Rooted(hits, root);
    forall i, j | 0 <= i < j < |hits| ensures Before(rooted[i], rooted[j]) {
      RootRises(root, hits[i].distance, hits[j].distance);
    }
  }

  /** Heap order to ascending order, and squared distances to distances, in place. */
  method Finish(heap: array<Hit>, count: nat, ghost best: set<Hit>, root: real -> real) returns (ghost sorted: seq<Hit>)
    requires count <= heap.Length && IsHeap(heap[..count]) && Holds(heap[..count], best)
    requires IsRoot(root) && forall h | h in best :: h.distance >= 0.0
    modifies heap
    ensures Holds(sorted, best) && Ascending(sorted)
    ensures heap[..count] == Rooted(sorted, root) && Ascending(heap[..count])
  {
    SortHeap(heap, count, best);
    sorted := heap[..count];
    for i := 0 to count
      invariant forall j | 0 <= j < i :: heap[j] == Rooted(sorted, root)[j]
      invariant forall j | i <= j < count :: heap[j] == sorted[j]
    {
      heap[i] := heap[i].(distance := root(heap[i].distance));
    }
    assert heap[..count] == Rooted(sorted, root);
    forall i | 0 <= i < |sorted| ensures sorted[i].distance >= 0.0 {
      HoldsEach(sorted, best);
      assert sorted[i] in Elements(sorted);
    }
    RootedAscends(sorted, root);
  }

  /** Heap order to ascending order, in place. */
  method SortHeap(heap: array<Hit>, count: nat, ghost best: set<Hit>)
    requires count <= heap.Length && IsHeap(heap[..count]) && Holds(heap[..count], best)
    modifies heap
    ensures Holds(heap[..count], best) && Ascending(heap[..count])
  {
    var end := count;
    assert heap[count..count] == [];
    while end > 1
      invariant 0 <= end <= count && (count > 0 ==> end > 0)
      invariant IsHeap(heap[..end]) && Sorted(heap[end..count]) && Split(heap[..end], heap[end..count])
      invariant multiset(heap[..end]) + multiset(heap[end..count]) == multiset(best)
    {
      end := TakeWorst(heap, count, end);
    }
    assert heap[..count] == heap[..end] + heap[end..count];
    assert Sorted(heap[..count]) by {
      SortedTogether(heap[..end], heap[end..count]);
    }
    HoldsEach(heap[..count], best);
    SortedApart(heap[..count]);
  }

  /** Moves the root behind the heap that is left. */
  method TakeWorst(heap: array<Hit>, count: nat, end: nat) returns (end': nat)
    requires 1 < end <= count <= heap.Length
    requires IsHeap(heap[..end]) && Sorted(heap[end..count]) && Split(heap[..end], heap[end..count])
    modifies heap
    ensures end' == end - 1
    ensures IsHeap(heap[..end']) && Sorted(heap[end'..count]) && Split(heap[..end'], heap[end'..count])
    ensures multiset(heap[..end']) + multiset(heap[end'..count])
         == multiset(old(heap[..end])) + multiset(old(heap[end..count]))
  {
    ghost var was, done := heap[..end], heap[end..count];
    TakeRoot(was, done);
    RootMovesBehind(was, done);
    end' := SwapRoot(heap, count, end);
    ghost var rest := heap[..end'];
    SiftDownBefore(heap, count, end');
    SplitIsAboutContents(rest, heap[..end'], [was[0]] + done);
  }

  method SwapRoot(heap: array<Hit>, count: nat, end: nat) returns (end': nat)
    requires 1 < end <= count <= heap.Length
    modifies heap
    ensures end' == end - 1
    ensures heap[..end'] == old(heap[..end])[0 := old(heap[..end])[end']][..end']
    ensures heap[end'..count] == [old(heap[0])] + old(heap[end..count])
  {
    end' := end - 1;
    heap[0], heap[end'] := heap[end'], heap[0];
  }

  lemma RootMovesBehind(heap: seq<Hit>, done: seq<Hit>)
    requires |heap| > 1
    ensures multiset(heap[0 := heap[|heap| - 1]][..|heap| - 1]) + multiset([heap[0]] + done)
         == multiset(heap) + multiset(done)
  {
    var rest := heap[0 := heap[|heap| - 1]][..|heap| - 1];
    assert Swapped(heap, 0, |heap| - 1) == rest + [heap[0]];
  }

  /** Sinking the root leaves what is already behind the heap alone. */
  method SiftDownBefore(heap: array<Hit>, count: nat, end: nat)
    requires 0 < end <= count <= heap.Length && HeapButDown(heap[..end], 0)
    modifies heap
    ensures IsHeap(heap[..end]) && multiset(heap[..end]) == multiset(old(heap[..end]))
    ensures heap[end..count] == old(heap[end..count])
  {
    ghost var behind := heap[end..];
    assert heap[end..count] == behind[..count - end];
    SiftDown(heap, end, 0);
    assert heap[end..count] == heap[end..][..count - end];
  }

  lemma SortedTogether(first: seq<Hit>, second: seq<Hit>)
    requires |first| <= 1 && Sorted(second) && Split(first, second)
    ensures Sorted(first + second)
  {
    assert forall j | 0 <= j < |second| :: second[j] in second;
    assert forall i | 0 <= i < |first| :: first[i] in first;
  }

  lemma SortedApart(hits: seq<Hit>)
    requires Sorted(hits) && forall i, j | 0 <= i < j < |hits| :: hits[i] != hits[j]
    ensures Ascending(hits)
  {
  }
}
