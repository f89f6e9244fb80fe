/** The herd's trail as the scene keeps it: one fixed ring of marks behind a timer. */
module TrailRing {
  import opened FixedStep
  import opened TrailHistory
  import opened Wrappers

  const EMIT_INTERVAL: real := 0.05

  class Showcase {
    const trail: array<Mark>
    var trailNext: nat
    var trailTimer: real
    var emitTimer: real
    var elapsed: real

    /** Everything that has been dropped so far, of which the ring holds the newest. */
    ghost var history: History

    ghost predicate Valid()
      reads this, trail
    {
      && trail.Length == MARK_COUNT
      && trailNext == SlotOf(|history.drops|)
      && trailTimer == history.timer >= 0.0 && elapsed == history.elapsed
      && emitTimer >= 0.0
      && RingHolds(trail[..], history.drops)
    }

    constructor ()
      ensures Valid() && fresh(trail) && history == START && emitTimer == 0.0
    {
      trail := new Mark[MARK_COUNT](_ => Mark(Spot(0.0, 0.0), 0.0));
      trailNext, trailTimer, emitTimer, elapsed := 0, 0.0, 0.0, 0.0;
      history := START;
    }

    /** One frame of the scene: both timers are fed, and each trail firing marks the ground under the balls. */
    method Update(delta: real, bodies: seq<Option<Spot>>) returns (bursts: nat)
      requires Valid() && delta >= 0.0 && |bodies| == BALL_COUNT
      modifies this, trail
      ensures Valid()
      ensures history == Updated(old(history), Frame(delta, bodies))
      ensures bursts == ((old(emitTimer) + delta) / EMIT_INTERVAL).Floor
      ensures emitTimer == old(emitTimer) + delta - bursts as real * EMIT_INTERVAL && emitTimer < EMIT_INTERVAL
    {
      elapsed := elapsed + delta;
      bursts, emitTimer := Drain(emitTimer + delta, EMIT_INTERVAL);
      trailTimer := trailTimer + delta;
      history := history.(timer := history.timer + delta, elapsed := history.elapsed + delta);
      ghost var due := history;
      while trailTimer >= INTERVAL
        invariant Valid() && emitTimer == old(emitTimer) + delta - bursts as real * EMIT_INTERVAL
        invariant emitTimer < EMIT_INTERVAL
        invariant FireAll(history, bodies) == FireAll(due, bodies)
        decreases (trailTimer / INTERVAL).Floor
      {
        Fire(bodies);
      }
    }

    /** One firing of the trail timer. */
    method Fire(bodies: seq<Option<Spot>>)
      requires Valid() && trailTimer >= INTERVAL && |bodies| == BALL_COUNT
      modifies this`trailTimer, this`trailNext, this`history, trail
      ensures Valid() && history == FireOnce(old(history), bodies)
    {
      trailTimer := trailTimer - INTERVAL;
      history := history.(timer := history.timer - INTERVAL);
      ghost var start := history;
      assert Dropped(bodies[..0], start.elapsed, start.fired) == [];
      hide RingHolds, Dropped, SlotOf;
      for i := 0 to BALL_COUNT
        invariant Valid()
        invariant history == start.(drops := start.drops + Dropped(bodies[..i], start.elapsed, start.fired))
      {
        DroppedGrows(bodies, i, start.elapsed, start.fired);
        if Marks(bodies[i]) {
          Push(bodies[i].value);
        }
      }
      assert bodies[..BALL_COUNT] == bodies;
      history := history.(fired := history.fired + 1);
    }

    /** Puts a mark into the next slot, over the oldest one. */
    method Push(at: Spot)
      requires Valid()
      modifies this`trailNext, this`history, trail
      ensures Valid()
      ensures history == old(history).(drops := old(history).drops + [Drop(Mark(at, elapsed), old(history).fired)])
    {
      var mark := Mark(at, elapsed);
      RingTakes(trail[..], history.drops, Drop(mark, history.fired));
      trail[trailNext] := mark;
      trailNext := (trailNext + 1) % MARK_COUNT;
      history := history.(drops := history.drops + [Drop(mark, history.fired)]);
    }

    /**
     * The marks the draw pass stamps: used slots whose mark is younger than its lifetime, in slot order. When no frame
     * was longer than 0.48 seconds, each live mark of the whole history is stamped, and stamped once.
     */
    method DrawTrails() returns (drawn: seq<Mark>, ghost slots: seq<nat>, ghost whose: seq<nat>)
      requires Valid()
      ensures |slots| == |drawn|
      ensures forall i | 0 <= i < |slots| :: slots[i] < MARK_COUNT && drawn[i] == trail[slots[i]]
      ensures forall i, j | 0 <= i < j < |slots| :: slots[i] < slots[j]
      ensures forall j: nat :: j in slots <==> j < MARK_COUNT && Stamped(trail[j], elapsed)
      ensures Paced(history, 0.48) ==> ListsLive(history, drawn, whose)
    {
      drawn, slots := [], [];
      for i := 0 to MARK_COUNT
        invariant |slots| == |drawn| && (forall n | 0 <= n < |slots| :: slots[n] < i && drawn[n] == trail[slots[n]])
        invariant forall m, n | 0 <= m < n < |slots| :: slots[m] < slots[n]
        invariant forall j: nat :: j in slots <==> j < i && Stamped(trail[j], elapsed)
      {
        var mark := trail[i];
        if mark.born <= 0.0 || elapsed - mark.born >= LIFETIME {
          continue;
        }
        drawn, slots := drawn + [mark], slots + [i];
      }
      whose := [];
      if Paced(history, 0.48) {
        whose := SlotsListLive(trail[..], history, drawn, slots);
      }
    }
  }

  lemma DroppedGrows(bodies: seq<Option<Spot>>, i: nat, born: real, firing: nat)
    requires i < |bodies|
    ensures Dropped(bodies[..i + 1], born, firing)
         == Dropped(bodies[..i], born, firing)
            + if Marks(bodies[i]) then [Drop(Mark(bodies[i].value, born), firing)] else []
  {
    assert bodies[..i + 1][..i] == bodies[..i];
  }

  /** The slot of the ring the k-th drop goes to. */
  function SlotOf(k: nat): (slot: nat)
    ensures slot < MARK_COUNT
  {
    k % MARK_COUNT
  }

  /** Slot i holds the newest drop whose number is i modulo the ring's size; a slot never used was born at nought. */
  ghost predicate RingHolds(ring: seq<Mark>, drops: seq<Drop>) {
    && |ring| == MARK_COUNT
    && (forall k | 0 <= k < |drops| && |drops| - k <= MARK_COUNT :: ring[SlotOf(k)] == drops[k].mark)
    && (forall i | |drops| <= i < MARK_COUNT :: ring[i].born == 0.0)
  }

  lemma RingTakes(ring: seq<Mark>, drops: seq<Drop>, drop: Drop)
    requires RingHolds(ring, drops)
    ensures RingHolds(ring[SlotOf(|drops|) := drop.mark], drops + [drop])
  {
    var slot, ring', drops' := SlotOf(|drops|), ring[SlotOf(|drops|) := drop.mark], drops + [drop];
    forall k | 0 <= k < |drops'| && |drops'| - k <= MARK_COUNT ensures ring'[SlotOf(k)] == drops'[k].mark {
      if k < |drops| && SlotOf(k) == slot {
        SameSlot(k, |drops|);
      }
    }
    if |drops| < MARK_COUNT {
      SmallSlot(|drops|);
    }
  }

  lemma SmallSlot(k: nat)
    requires k < MARK_COUNT
    ensures SlotOf(k) == k
  {
  }

  lemma SameSlot(a: nat, b: nat)
    requires SlotOf(a) == SlotOf(b) && a - b < MARK_COUNT && b - a < MARK_COUNT
    ensures a == b
  {
    var x, y := a / MARK_COUNT, b / MARK_COUNT;
    assert a - b == MARK_COUNT * (x - y);
  }

  /** The draw pass's test of a slot's mark. */
  predicate Stamped(mark: Mark, now: real) {
    mark.born > 0.0 && Live(mark, now)
  }

  /** The list runs through the live marks of the history, each drop's once. */
  ghost predicate ListsLive(h: History, drawn: seq<Mark>, whose: seq<nat>) {
    && |whose| == |drawn|
    && (forall i | 0 <= i < |whose| :: whose[i] < |h.drops| && drawn[i] == h.drops[whose[i]].mark)
    && (forall i, j | 0 <= i < j < |whose| :: whose[i] != whose[j])
    && (forall k: nat :: k in whose <==> k < |h.drops| && Live(h.drops[k].mark, h.elapsed))
  }

  /** The slots of the ring that are stamped are exactly the slots of the live marks of the whole history. */
  lemma RingShowsLive(ring: seq<Mark>, h: History, j: nat)
    requires RingHolds(ring, h.drops) && Paced(h, 0.48) && j < MARK_COUNT
    ensures Stamped(ring[j], h.elapsed)
      <==> j < |h.drops| && Live(h.drops[NewestIn(j, |h.drops|)].mark, h.elapsed)
    ensures j < |h.drops| ==> ring[j] == h.drops[NewestIn(j, |h.drops|)].mark
  {
    if j < |h.drops| {
      assert ring[SlotOf(NewestIn(j, |h.drops|))] == h.drops[NewestIn(j, |h.drops|)].mark;
    }
  }

  /** A live mark is the newest of its slot. */
  lemma LiveIsNewest(h: History, k: nat)
    requires Paced(h, 0.48) && k < |h.drops| && Live(h.drops[k].mark, h.elapsed)
    ensures SlotOf(k) < |h.drops| && NewestIn(SlotOf(k), |h.drops|) == k
  {
    LiveMarksAreKept(h, 0.48, k);
    var newest := NewestIn(SlotOf(k), |h.drops|);
    hide *;
    SameSlot(newest, k);
  }

  /** The slot's newest drop is live, and this is its mark. */
  ghost predicate ShowsLive(h: History, mark: Mark, j: nat) {
    && j < MARK_COUNT && j < |h.drops|
    && mark == h.drops[NewestIn(j, |h.drops|)].mark && Live(mark, h.elapsed)
  }

  lemma StampedShowsLive(ring: seq<Mark>, h: History, j: nat)
    requires RingHolds(ring, h.drops) && Paced(h, 0.48) && j < MARK_COUNT && Stamped(ring[j], h.elapsed)
    ensures ShowsLive(h, ring[j], j)
  {
    hide RingHolds, Paced;
    RingShowsLive(ring, h, j);
  }

  lemma LiveIsStamped(ring: seq<Mark>, h: History, k: nat)
    requires RingHolds(ring, h.drops) && Paced(h, 0.48) && k < |h.drops| && Live(h.drops[k].mark, h.elapsed)
    ensures var j := SlotOf(k); j < |ring| && j < |h.drops| && NewestIn(j, |h.drops|) == k && Stamped(ring[j], h.elapsed)
  {
    assert |ring| == MARK_COUNT;
    hide RingHolds, Paced, Stamped, Live, SlotOf, NewestIn;
    LiveIsNewest(h, k);
    RingShowsLive(ring, h, SlotOf(k));
  }

  /** The drop a shown slot shows. */
  ghost function Shown(h: History, j: nat): (k: nat)
    ensures j < MARK_COUNT && j < |h.drops| ==> k < |h.drops| && k == NewestIn(j, |h.drops|) && SlotOf(k) == j
  {
    if j < MARK_COUNT && j < |h.drops| then NewestIn(j, |h.drops|) else 0
  }

  lemma SlotsListLive(ring: seq<Mark>, h: History, drawn: seq<Mark>, slots: seq<nat>) returns (whose: seq<nat>)
    requires RingHolds(ring, h.drops) && Paced(h, 0.48)
    requires |slots| == |drawn| && forall i | 0 <= i < |slots| :: slots[i] < MARK_COUNT && drawn[i] == ring[slots[i]]
    requires forall i, j | 0 <= i < j < |slots| :: slots[i] < slots[j]
    requires forall j: nat :: j in slots <==> j < MARK_COUNT && Stamped(ring[j], h.elapsed)
    ensures ListsLive(h, drawn, whose)
  {
    assert |ring| == MARK_COUNT;
    hide RingHolds, Paced, Stamped, NewestIn, SlotOf, Shown, Live;
    whose := seq(|slots|, i requires 0 <= i < |slots| => Shown(h, slots[i]));
    forall i | 0 <= i < |slots|
      ensures whose[i] < |h.drops| && drawn[i] == h.drops[whose[i]].mark && SlotOf(whose[i]) == slots[i]
      ensures Live(drawn[i], h.elapsed)
    {
      assert slots[i] in slots;
      StampedShowsLive(ring, h, slots[i]);
    }
    forall k: nat | k < |h.drops| && Live(h.drops[k].mark, h.elapsed) ensures k in whose {
      LiveIsStamped(ring, h, k);
      assert SlotOf(k) in slots;
      var i :| 0 <= i < |slots| && slots[i] == SlotOf(k);
      assert whose[i] == k;
    }
  }

  /** The newest of n drops that went to slot j. */
  function NewestIn(j: nat, n: nat): (k: nat)
    requires j < MARK_COUNT && j < n
    ensures k < n && n - k <= MARK_COUNT && SlotOf(k) == j
  {
    j + (n - 1 - j) / MARK_COUNT * MARK_COUNT
  }
}
