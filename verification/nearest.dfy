/** Which k boxes are nearest a point, and the linear scan that finds them by insertion into a sorted prefix. */
module Nearest {
  import opened Reals

  datatype Vec = Vec(x: real, y: real, z: real)

  datatype Box = Box(min: Vec, max: Vec)

  datatype Hit = Hit(id: nat, distance: real)

  function Max(a: real, b: real): real {
    if a < b then b else a
  }

  /** How far a coordinate is outside an interval. */
  function Outside(p: real, min: real, max: real): real {
    Max(Max(min - p, p - max), 0.0)
  }

  function OutsideSquared(p: real, min: real, max: real): real {
    Outside(p, min, max) * Outside(p, min, max)
  }

  /** The square of a point's distance to a box; nought inside it. */
  function DistanceSquared(box: Box, point: Vec): real {
    OutsideSquared(point.x, box.min.x, box.max.x) + OutsideSquared(point.y, box.min.y, box.max.y)
    + OutsideSquared(point.z, box.min.z, box.max.z)
  }

  /** The square of the distance between two points. */
  function SquareBetween(a: Vec, b: Vec): real {
    Square(a.x - b.x) + Square(a.y - b.y) + Square(a.z - b.z)
  }

  predicate InBox(q: Vec, box: Box) {
    && box.min.x <= q.x <= box.max.x
    && box.min.y <= q.y <= box.max.y
    && box.min.z <= q.z <= box.max.z
  }

  lemma AxisIsLeast(p: real, min: real, max: real, q: real)
    requires min <= q <= max
    ensures OutsideSquared(p, min, max) <= Square(p - q)
  {
    var gap := if p < q then q - p else p - q;
    assert gap * gap == Square(p - q);
    SquareRises(Outside(p, min, max), gap);
  }

  lemma DistanceNotNegative(box: Box, point: Vec)
    ensures DistanceSquared(box, point) >= 0.0
  {
    SquareRises(0.0, Outside(point.x, box.min.x, box.max.x));
    SquareRises(0.0, Outside(point.y, box.min.y, box.max.y));
    SquareRises(0.0, Outside(point.z, box.min.z, box.max.z));
  }

  /** No point of the box is nearer than the box is, and one is as near. */
  lemma DistanceIsLeast(box: Box, p: Vec, q: Vec) returns (nearest: Vec)
    requires InBox(q, box)
    ensures DistanceSquared(box, p) <= SquareBetween(p, q)
    ensures InBox(nearest, box) && SquareBetween(p, nearest) == DistanceSquared(box, p)
  {
    AxisIsLeast(p.x, box.min.x, box.max.x, q.x);
    AxisIsLeast(p.y, box.min.y, box.max.y, q.y);
    AxisIsLeast(p.z, box.min.z, box.max.z, q.z);
    nearest := Vec(Clamped(p.x, box.min.x, box.max.x), Clamped(p.y, box.min.y, box.max.y),
                   Clamped(p.z, box.min.z, box.max.z));
    ClampedIsNearest(p.x, box.min.x, box.max.x);
    ClampedIsNearest(p.y, box.min.y, box.max.y);
    ClampedIsNearest(p.z, box.min.z, box.max.z);
  }

  /** The coordinate brought within an interval. */
  function Clamped(p: real, min: real, max: real): real {
    if p < min then min else if p > max then max else p
  }

  lemma ClampedIsNearest(p: real, min: real, max: real)
    requires min <= max
    ensures min <= Clamped(p, min, max) <= max && Square(p - Clamped(p, min, max)) == OutsideSquared(p, min, max)
  {
    var gap, short := p - Clamped(p, min, max), Outside(p, min, max);
    assert gap == short || gap == -short;
  }

  /** Nearer first; at the same distance the smaller id first. */
  predicate Before(a: Hit, b: Hit) {
    a.distance < b.distance || (a.distance == b.distance && a.id < b.id)
  }

  predicate Ascending(hits: seq<Hit>) {
    forall i, j | 0 <= i < j < |hits| :: Before(hits[i], hits[j])
  }

  function Min(a: nat, b: nat): nat {
    if a < b then a else b
  }

  /** The k hits of a set that come first, fewer if it has fewer. */
  ghost predicate KBest(all: set<Hit>, k: nat, best: set<Hit>) {
    && best <= all && |best| == Min(k, |all|)
    && forall u, o | u in all && u !in best && o in best :: Before(o, u)
  }

  ghost function Elements(hits: seq<Hit>): set<Hit> {
    set h | h in hits
  }

  /** The first k of the set, in order. */
  ghost predicate IsTopK(all: set<Hit>, k: nat, hits: seq<Hit>) {
    Ascending(hits) && KBest(all, k, Elements(hits))
  }

  lemma SubsetOfSameSize<T>(a: set<T>, b: set<T>)
    requires a <= b && |a| == |b|
    ensures a == b
  {
    assert |b - a| == |b| - |a|;
  }

  lemma KBestUnique(all: set<Hit>, k: nat, best: set<Hit>, best': set<Hit>)
    requires KBest(all, k, best) && KBest(all, k, best')
    ensures best == best'
  {
    if best <= best' {
      SubsetOfSameSize(best, best');
    } else {
      assert best' <= best;
      SubsetOfSameSize(best', best);
    }
  }

  lemma {:induction false} AscendingUnique(a: seq<Hit>, b: seq<Hit>)
    requires Ascending(a) && Ascending(b) && Elements(a) == Elements(b)
    ensures a == b
  {
    ElementsCount(a);
    ElementsCount(b);
    if a != [] {
      assert a[0] in Elements(b);
      assert b != [] && b[0] in Elements(a);
      assert a[0] == b[0];
      var a', b' := a[1..], b[1..];
      assert forall h :: h in a' <==> h in a && h != a[0];
      assert forall h :: h in b' <==> h in b && h != b[0];
      assert Elements(a') == Elements(a) - {a[0]} && Elements(b') == Elements(b) - {b[0]};
      AscendingUnique(a', b');
      assert a == [a[0]] + a' && b == [b[0]] + b';
    }
  }

  /** There is only one answer, so two searches that both find the first k agree in every entry. */
  lemma TopKUnique(all: set<Hit>, k: nat, a: seq<Hit>, b: seq<Hit>)
    requires IsTopK(all, k, a) && IsTopK(all, k, b)
    ensures a == b
  {
    KBestUnique(all, k, Elements(a), Elements(b));
    AscendingUnique(a, b);
  }

  /** The first k are the first entries of the whole set in order, the stable sort by distance of ascending ids. */
  lemma TopKIsPrefixOfSort(all: set<Hit>, k: nat, hits: seq<Hit>, sorted: seq<Hit>)
    requires IsTopK(all, k, hits) && IsTopK(all, |all|, sorted)
    ensures |sorted| == |all| && hits == sorted[..Min(k, |all|)]
  {
    ElementsCount(sorted);
    SubsetOfSameSize(Elements(sorted), all);
    var first := sorted[..Min(k, |all|)];
    ElementsCount(first);
    assert forall i | 0 <= i < |first| :: first[i] == sorted[i];
    forall u, o | u in all && u !in Elements(first) && o in Elements(first) ensures Before(o, u) {
      var i :| 0 <= i < |sorted| && sorted[i] == u;
      var j :| 0 <= j < |first| && sorted[j] == o;
      assert i < |first| ==> u in Elements(first);
    }
    TopKUnique(all, k, hits, first);
  }

  lemma {:induction false} ElementsCount(hits: seq<Hit>)
    requires Ascending(hits)
    ensures |Elements(hits)| == |hits|
  {
    if hits != [] {
      var before, last := hits[..|hits| - 1], hits[|hits| - 1];
      ElementsCount(before);
      assert Elements(hits) == Elements(before) + {last};
      assert last !in before;
    } else {
      assert Elements(hits) == {};
    }
  }

  // ---- The scan ------------------------------------------------------------------------------------------------

  function HitOf(boxes: seq<Box>, point: Vec, id: nat): Hit
    requires id < |boxes|
  {
    Hit(id, DistanceSquared(boxes[id], point))
  }

  ghost function HitsBelow(boxes: seq<Box>, point: Vec, n: nat): (hits: set<Hit>)
    requires n <= |boxes|
    ensures |hits| == n
    ensures forall h :: h in hits <==> h.id < n && h == HitOf(boxes, point, h.id)
  {
    if n == 0 then {} else HitsBelow(boxes, point, n - 1) + {HitOf(boxes, point, n - 1)}
  }

  /** A hit's distance is the least square of one from the point to a point of its own box; each box has one hit. */
  lemma HitsMeasureBoxes(boxes: seq<Box>, p: Vec, n: nat, id: nat, q: Vec) returns (nearest: Vec)
    requires id < n <= |boxes| && InBox(q, boxes[id])
    ensures var h := HitOf(boxes, p, id);
      && h.id == id && h in HitsBelow(boxes, p, n) && h.distance <= SquareBetween(p, q)
      && InBox(nearest, boxes[id]) && SquareBetween(p, nearest) == h.distance
  {
    nearest := DistanceIsLeast(boxes[id], p, q);
  }

  /** The sorted prefix with a hit put in at its place, and the last one dropped when there are more than k. */
  function Inserted(hits: seq<Hit>, at: nat, hit: Hit, k: nat): seq<Hit>
    requires at <= |hits|
  {
    (hits[..at] + [hit] + hits[at..])[..Min(k, |hits| + 1)]
  }

  /** A candidate joins the best while there are fewer than k. */
  lemma OfferJoins(all: set<Hit>, k: nat, best: set<Hit>, hit: Hit)
    requires KBest(all, k, best) && hit !in all && |best| < k
    ensures KBest(all + {hit}, k, best + {hit})
  {
    SubsetOfSameSize(best, all);
  }

  ghost predicate Worst(best: set<Hit>, worst: Hit) {
    worst in best && forall b | b in best :: b == worst || Before(b, worst)
  }

  /** After that it takes the place of the worst if it comes before it, whatever order candidates come in. */
  lemma OfferReplacesWorst(all: set<Hit>, k: nat, best: set<Hit>, hit: Hit, worst: Hit)
    requires KBest(all, k, best) && hit !in all && |best| == k && Worst(best, worst)
    ensures KBest(all + {hit}, k, if Before(hit, worst) then best - {worst} + {hit} else best)
  {
    var best' := if Before(hit, worst) then best - {worst} + {hit} else best;
    assert hit.id != worst.id || hit.distance != worst.distance;
    forall u, o | u in all + {hit} && u !in best' && o in best' ensures Before(o, u) {
      if u != hit && u != worst && o == hit {
        assert Before(hit, worst) && Before(worst, u);
      }
    }
  }

  lemma InsertSorts(hits: seq<Hit>, at: nat, hit: Hit, k: nat)
    requires Ascending(hits) && at <= |hits| <= k && k > 0
    requires forall i | 0 <= i < at :: Before(hits[i], hit)
    requires forall i | at <= i < |hits| :: Before(hit, hits[i])
    requires at < k
    ensures Ascending(Inserted(hits, at, hit, k))
    ensures Elements(Inserted(hits, at, hit, k))
         == Elements(hits) + {hit} - if |hits| == k then {hits[k - 1]} else {}
  {
    var whole := hits[..at] + [hit] + hits[at..];
    assert Ascending(whole);
    var result := Inserted(hits, at, hit, k);
    assert forall h :: h in whole <==> h in hits || h == hit by {
      assert hits == hits[..at] + hits[at..];
    }
    if |hits| == k {
      assert whole[k] == hits[k - 1] && whole == result + [hits[k - 1]];
      assert hits[k - 1] !in result;
    } else {
      assert whole == result;
    }
  }

  lemma PlaceIsByOrder(all: set<Hit>, hits: seq<Hit>, at: nat, hit: Hit)
    requires Elements(hits) <= all && at <= |hits|
    requires forall u | u in all :: u.id < hit.id
    requires forall i | 0 <= i < at :: hits[i].distance <= hit.distance
    requires forall i | at <= i < |hits| :: hits[i].distance > hit.distance
    ensures forall i | 0 <= i < at :: Before(hits[i], hit)
    ensures forall i | at <= i < |hits| :: Before(hit, hits[i])
  {
    assert forall i | 0 <= i < |hits| :: hits[i] in Elements(hits);
  }

  /** The last of the sorted prefix is the worst kept. */
  lemma LastIsWorst(hits: seq<Hit>)
    requires Ascending(hits) && hits != []
    ensures Worst(Elements(hits), hits[|hits| - 1])
  {
  }

  lemma InsertWithRoom(all: set<Hit>, k: nat, hits: seq<Hit>, at: nat, hit: Hit)
    requires IsTopK(all, k, hits) && at <= |hits| < k && hit !in all
    requires forall i | 0 <= i < at :: Before(hits[i], hit)
    requires forall i | at <= i < |hits| :: Before(hit, hits[i])
    ensures IsTopK(all + {hit}, k, Inserted(hits, at, hit, k))
  {
    ElementsCount(hits);
    OfferJoins(all, k, Elements(hits), hit);
    InsertSorts(hits, at, hit, k);
  }

  lemma InsertWhenFull(all: set<Hit>, k: nat, hits: seq<Hit>, at: nat, hit: Hit)
    requires IsTopK(all, k, hits) && at <= |hits| == k && k > 0 && hit !in all
    requires forall i | 0 <= i < at :: Before(hits[i], hit)
    requires forall i | at <= i < |hits| :: Before(hit, hits[i])
    ensures IsTopK(all + {hit}, k, if at < k then Inserted(hits, at, hit, k) else hits)
  {
    ElementsCount(hits);
    LastIsWorst(hits);
    var best, worst := Elements(hits), hits[k - 1];
    OfferReplacesWorst(all, k, best, hit, worst);
    if at < k {
      InsertSorts(hits, at, hit, k);
      assert best + {hit} - {worst} == best - {worst} + {hit};
    }
  }

  /** Inserting the next id, after every hit no farther than it, keeps the prefix the first k of what was scanned. */
  lemma InsertKeepsTopK(all: set<Hit>, k: nat, hits: seq<Hit>, at: nat, hit: Hit)
    requires IsTopK(all, k, hits) && k > 0 && at <= |hits|
    requires forall u | u in all :: u.id < hit.id
    requires forall i | 0 <= i < at :: hits[i].distance <= hit.distance
    requires forall i | at <= i < |hits| :: hits[i].distance > hit.distance
    ensures IsTopK(all + {hit}, k, if at < k then Inserted(hits, at, hit, k) else hits)
  {
    ElementsCount(hits);
    PlaceIsByOrder(all, hits, at, hit);
    if |hits| < k {
      InsertWithRoom(all, k, hits, at, hit);
    } else {
      InsertWhenFull(all, k, hits, at, hit);
    }
  }

  /** Shifts the farther hits of a sorted prefix up by one, into a free slot at its end, and puts the hit in the gap. */
  method ShiftIn(out: array<Hit>, kept: nat, hit: Hit) returns (ghost at: nat)
    requires 0 < kept <= out.Length && Ascending(out[..kept - 1])
    modifies out
    ensures at < kept
    ensures out[..kept] == Inserted(old(out[..kept - 1]), at, hit, kept)
    ensures forall j | 0 <= j < at :: old(out[j]).distance <= hit.distance
    ensures forall j | at <= j < kept - 1 :: old(out[j]).distance > hit.distance
  {
    ghost var hits := out[..kept - 1];
    var i := kept - 1;
    while i > 0 && out[i - 1].distance > hit.distance
      invariant 0 <= i < kept
      invariant forall j | 0 <= j < i :: out[j] == hits[j]
      invariant forall j | i < j < kept :: out[j] == hits[j - 1]
      invariant forall j | i <= j < kept - 1 :: hits[j].distance > hit.distance
    {
      out[i] := out[i - 1];
      i := i - 1;
    }
    out[i] := hit;
    at := i;
    assert forall j | 0 <= j < at :: j == at - 1 || Before(hits[j], hits[at - 1]);
    assert out[..kept] == hits[..at] + [hit] + hits[at..];
  }

  lemma InsertedWithoutLast(hits: seq<Hit>, at: nat, hit: Hit, k: nat)
    requires at < k == |hits|
    ensures Inserted(hits[..k - 1], at, hit, k) == Inserted(hits, at, hit, k)
  {
  }

  /** The first k of the first n boxes. */
  ghost predicate Scanned(boxes: seq<Box>, point: Vec, n: nat, k: nat, hits: seq<Hit>)
    requires n <= |boxes|
  {
    IsTopK(HitsBelow(boxes, point, n), k, hits)
  }

  lemma NothingScanned(boxes: seq<Box>, point: Vec, k: nat)
    ensures Scanned(boxes, point, 0, k, [])
  {
    assert Elements([]) == {};
  }

  lemma AllScanned(boxes: seq<Box>, point: Vec, k: nat, hits: seq<Hit>)
    requires Scanned(boxes, point, |boxes|, k, hits)
    ensures IsTopK(HitsBelow(boxes, point, |boxes|), k, hits)
  {
  }

  lemma ScanOneMore(boxes: seq<Box>, point: Vec, n: nat, k: nat, hits: seq<Hit>, at: nat)
    requires n < |boxes| && k > 0 && Scanned(boxes, point, n, k, hits) && at <= |hits|
    requires forall i | 0 <= i < at :: hits[i].distance <= HitOf(boxes, point, n).distance
    requires forall i | at <= i < |hits| :: hits[i].distance > HitOf(boxes, point, n).distance
    ensures Scanned(boxes, point, n + 1, k, if at < k then Inserted(hits, at, HitOf(boxes, point, n), k) else hits)
  {
    InsertKeepsTopK(HitsBelow(boxes, point, n), k, hits, at, HitOf(boxes, point, n));
  }

  lemma ScannedIsSorted(boxes: seq<Box>, point: Vec, n: nat, k: nat, hits: seq<Hit>)
    requires n <= |boxes| && Scanned(boxes, point, n, k, hits)
    ensures Ascending(hits) && |hits| == Min(k, n)
    ensures forall i, j | 0 <= i <= j < |hits| :: hits[i].distance <= hits[j].distance
  {
    ElementsCount(hits);
  }

  /** One candidate of the scan: it is passed over, or put in its place in the sorted prefix. */
  method Consider(out: array<Hit>, kept: nat, k: nat, hit: Hit) returns (kept': nat, ghost at: nat)
    requires k > 0 && kept <= k <= out.Length && Ascending(out[..kept])
    modifies out
    ensures kept' == Min(k, kept + 1) && at <= kept
    ensures forall j | 0 <= j < at :: old(out[j]).distance <= hit.distance
    ensures forall j | at <= j < kept :: old(out[j]).distance > hit.distance
    ensures out[..kept'] == if at < k then Inserted(old(out[..kept]), at, hit, k) else old(out[..kept])
  {
    ghost var hits := out[..kept];
    if kept == k && hit.distance >= out[k - 1].distance {
      assert forall j | 0 <= j < k :: j == k - 1 || Before(hits[j], hits[k - 1]);
      return kept, k;
    }
    kept' := if kept < k then kept + 1 else kept;
    assert out[..kept' - 1] == hits[..kept' - 1];
    at := ShiftIn(out, kept', hit);
    if kept == k {
      InsertedWithoutLast(hits, at, hit, k);
    }
  }

  /** Goes over all boxes once and leaves the first k hits, in order, in the prefix. */
  method ScanNearest(boxes: seq<Box>, point: Vec, k: nat, out: array<Hit>) returns (kept: nat)
    requires k > 0 && out.Length >= k
    modifies out
    ensures kept == Min(k, |boxes|)
    ensures IsTopK(HitsBelow(boxes, point, |boxes|), k, out[..kept])
  {
    hide Scanned, DistanceSquared, Inserted, Ascending;
    kept := 0;
    NothingScanned(boxes, point, k);
    assert out[..0] == [];
    for i := 0 to |boxes|
      invariant kept == Min(k, i)
      invariant Scanned(boxes, point, i, k, out[..kept])
    {
      var hit := Hit(i, DistanceSquared(boxes[i], point));
      ghost var hits, at := out[..kept], 0;
      ScannedIsSorted(boxes, point, i, k, hits);
      kept, at := Consider(out, kept, k, hit);
      ScanOneMore(boxes, point, i, k, hits, at);
    }
    AllScanned(boxes, point, k, out[..kept]);
  }
}
