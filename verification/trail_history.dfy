/** The marks the herd drops on a timer, as a growing history; the ring keeps the newest of them. */
module TrailHistory {
  import opened Reals
  import opened Wrappers

  const MARK_COUNT: nat := 96
  const BALL_COUNT: nat := 6
  const INTERVAL: real := 0.28
  const LIFETIME: real := 4.0

  /** How far from the water a ball has to be to leave a mark. */
  const FIRM_BANK: real := 7.9

  /** Where a ball is on the ground. */
  datatype Spot = Spot(x: real, z: real)

  datatype Mark = Mark(at: Spot, born: real)

  /** A mark and the firing of the timer, counted from zero, that dropped it. */
  datatype Drop = Drop(mark: Mark, firing: nat)

  datatype History = History(drops: seq<Drop>, timer: real, elapsed: real, fired: nat)

  const START: History := History([], 0.0, 0.0, 0)

  /** The ball exists and is on firm bank, off the water's edge. */
  predicate Marks(body: Option<Spot>) {
    body.Some? && Abs(body.value.z) >= FIRM_BANK
  }

  /** The marks one firing drops, ball by ball. */
  function Dropped(bodies: seq<Option<Spot>>, born: real, firing: nat): (drops: seq<Drop>)
    ensures |drops| <= |bodies|
    ensures forall i | 0 <= i < |drops| :: drops[i].firing == firing && drops[i].mark.born == born
    ensures (forall i | 0 <= i < |bodies| :: Marks(bodies[i])) ==> |drops| == |bodies|
  {
    if bodies == [] then []
    else
      var rest, last := Dropped(bodies[..|bodies| - 1], born, firing), bodies[|bodies| - 1];
      if Marks(last) then rest + [Drop(Mark(last.value, born), firing)] else rest
  }

  function FireOnce(h: History, bodies: seq<Option<Spot>>): History {
    History(h.drops + Dropped(bodies, h.elapsed, h.fired), h.timer - INTERVAL, h.elapsed, h.fired + 1)
  }

  /** Fires while an interval is due. */
  function FireAll(h: History, bodies: seq<Option<Spot>>): History
    decreases (h.timer / INTERVAL).Floor
  {
    if h.timer >= INTERVAL then FireAll(FireOnce(h, bodies), bodies) else h
  }

  datatype Frame = Frame(delta: real, bodies: seq<Option<Spot>>)

  function Updated(h: History, f: Frame): History {
    FireAll(h.(timer := h.timer + f.delta, elapsed := h.elapsed + f.delta), f.bodies)
  }

  function UpdatedAll(frames: seq<Frame>): History {
    if frames == [] then START else Updated(UpdatedAll(frames[..|frames| - 1]), frames[|frames| - 1])
  }

  /** The frames are no longer than the limit, and name the six balls. */
  predicate Within(frames: seq<Frame>, limit: real) {
    forall i | 0 <= i < |frames| :: 0.0 <= frames[i].delta <= limit && |frames[i].bodies| == BALL_COUNT
  }

  // ---- What the timing keeps -----------------------------------------------------------------------------------

  /** The start of a firing's due time. */
  function Due(firing: int): real {
    INTERVAL * (firing + 1) as real
  }

  /** Every drop is born in the first frame that reaches its firing's due time. */
  ghost predicate BornOnTime(h: History, limit: real) {
    forall k | 0 <= k < |h.drops| ::
      h.drops[k].firing < h.fired && Due(h.drops[k].firing) <= h.drops[k].mark.born <= h.elapsed
      && h.drops[k].mark.born < Due(h.drops[k].firing) + limit
  }

  /** At most six drops to a firing, firings in order. */
  ghost predicate SixToAFiring(h: History) {
    && (forall p | 0 <= p < |h.drops| ::
          h.drops[p].firing < h.fired && |h.drops| - p <= BALL_COUNT * (h.fired - h.drops[p].firing))
    && (forall p, q | 0 <= p < q < |h.drops| :: q - p < BALL_COUNT * (h.drops[q].firing + 1 - h.drops[p].firing))
  }

  ghost predicate Paced(h: History, limit: real) {
    h.elapsed == INTERVAL * h.fired as real + h.timer && h.timer >= 0.0 && BornOnTime(h, limit) && SixToAFiring(h)
  }

  lemma FireOnceKeepsPace(h: History, bodies: seq<Option<Spot>>, limit: real)
    requires Paced(h, limit) && h.timer >= INTERVAL && |bodies| == BALL_COUNT
    requires h.elapsed < Due(h.fired) + limit
    ensures Paced(FireOnce(h, bodies), limit)
  {
    var h' := FireOnce(h, bodies);
    var held := |h.drops|;
    assert forall k | 0 <= k < held :: h'.drops[k] == h.drops[k];
    assert forall k | held <= k < |h'.drops| :: h'.drops[k].firing == h.fired && h'.drops[k].mark.born == h.elapsed;
  }

  lemma {:induction false} FireAllKeepsPace(h: History, bodies: seq<Option<Spot>>, limit: real)
    requires Paced(h, limit) && |bodies| == BALL_COUNT
    requires h.elapsed < Due(h.fired) + limit
    ensures Paced(FireAll(h, bodies), limit) && FireAll(h, bodies).timer < INTERVAL
    ensures FireAll(h, bodies).elapsed == h.elapsed
    ensures h.drops <= FireAll(h, bodies).drops
    decreases (h.timer / INTERVAL).Floor
  {
    if h.timer >= INTERVAL {
      FireOnceKeepsPace(h, bodies, limit);
      FireAllKeepsPace(FireOnce(h, bodies), bodies, limit);
    }
  }

  /** Before its firings a frame only lets time pass, too little for the next firing to be a frame late. */
  lemma FrameStarts(h: History, f: Frame, limit: real)
    requires Paced(h, limit) && h.timer < INTERVAL && 0.0 <= f.delta <= limit
    ensures var due := h.(timer := h.timer + f.delta, elapsed := h.elapsed + f.delta);
      Paced(due, limit) && due.elapsed < Due(due.fired) + limit
  {
  }

  lemma FrameKeepsPace(h: History, f: Frame, limit: real)
    requires Paced(h, limit) && h.timer < INTERVAL && 0.0 <= f.delta <= limit && |f.bodies| == BALL_COUNT
    ensures Paced(Updated(h, f), limit) && Updated(h, f).timer < INTERVAL
    ensures Updated(h, f).elapsed == h.elapsed + f.delta && h.drops <= Updated(h, f).drops
  {
    hide Paced, FireAll;
    FrameStarts(h, f, limit);
    FireAllKeepsPace(h.(timer := h.timer + f.delta, elapsed := h.elapsed + f.delta), f.bodies, limit);
  }

  lemma {:induction false} RunsKeepPace(frames: seq<Frame>, limit: real)
    requires Within(frames, limit)
    ensures Paced(UpdatedAll(frames), limit) && UpdatedAll(frames).timer < INTERVAL
  {
    if frames != [] {
      hide Paced, Updated;
      RunsKeepPace(frames[..|frames| - 1], limit);
      FrameKeepsPace(UpdatedAll(frames[..|frames| - 1]), frames[|frames| - 1], limit);
    }
  }

  // ---- Where the marks lie ---------------------------------------------------------------------------------------

  /** The ball is on the ground at the mark, no nearer to the river's middle than the firm bank on either side. */
  predicate BallAt(body: Option<Spot>, at: Spot) {
    body == Some(at) && (at.z >= 7.9 || at.z <= -7.9)
  }

  /** The drops lie one under each of the balls named, in their order, and those are all the balls on firm bank. */
  ghost predicate LieUnder(bodies: seq<Option<Spot>>, drops: seq<Drop>, whose: seq<nat>) {
    && |whose| == |drops|
    && (forall i | 0 <= i < |drops| :: whose[i] < |bodies| && BallAt(bodies[whose[i]], drops[i].mark.at))
    && (forall i, j | 0 <= i < j < |drops| :: whose[i] < whose[j])
    && (forall b: nat | b < |bodies| && bodies[b].Some? && BallAt(bodies[b], bodies[b].value) :: b in whose)
  }

  lemma OneBallMore(before: seq<Option<Spot>>, body: Option<Spot>, drops: seq<Drop>, whose: seq<nat>)
    requires LieUnder(before, drops, whose)
    ensures !Marks(body) ==> LieUnder(before + [body], drops, whose)
    ensures forall d: Drop | body.Some? && Marks(body) && d.mark.at == body.value ::
      LieUnder(before + [body], drops + [d], whose + [|before|])
  {
    var bodies := before + [body];
    assert forall b | 0 <= b < |before| :: bodies[b] == before[b];
    if Marks(body) {
      var whose' := whose + [|before|];
      assert whose'[|whose|] == |before|;
      forall b: nat | b < |bodies| && bodies[b].Some? && BallAt(bodies[b], bodies[b].value) ensures b in whose' {
        assert b < |before| ==> b in whose;
      }
    }
  }

  /** A firing drops one mark under each ball on firm bank, on either side, in the order of the balls. */
  lemma {:induction false} MarksLieUnderBalls(bodies: seq<Option<Spot>>, born: real, firing: nat)
    returns (whose: seq<nat>)
    ensures LieUnder(bodies, Dropped(bodies, born, firing), whose)
  {
    if bodies == [] {
      whose := [];
    } else {
      hide LieUnder;
      var before, last := bodies[..|bodies| - 1], bodies[|bodies| - 1];
      whose := MarksLieUnderBalls(before, born, firing);
      OneBallMore(before, last, Dropped(before, born, firing), whose);
      assert before + [last] == bodies;
      if Marks(last) {
        whose := whose + [|before|];
      }
    }
  }

  /** The mark lies where some ball was in the frame that dropped it, and was born at the end of that frame's time. */
  ghost predicate WasBall(frames: seq<Frame>, mark: Mark) {
    exists n: nat, b: nat | n < |frames| && b < |frames[n].bodies| ::
      BallAt(frames[n].bodies[b], mark.at) && mark.born == UpdatedAll(frames[..n + 1]).elapsed
  }

  /** Every drop from the k-th on is under one of these balls, born now. */
  ghost predicate DropsNow(h: History, k: nat, bodies: seq<Option<Spot>>) {
    forall d | k <= d < |h.drops| ::
      && h.drops[d].mark.born == h.elapsed
      && exists b | 0 <= b < |bodies| :: BallAt(bodies[b], h.drops[d].mark.at)
  }

  lemma FireOnceDrops(h: History, k: nat, bodies: seq<Option<Spot>>)
    requires DropsNow(h, k, bodies)
    ensures DropsNow(FireOnce(h, bodies), k, bodies) && h.drops <= FireOnce(h, bodies).drops
  {
    var whose := MarksLieUnderBalls(bodies, h.elapsed, h.fired);
    var drops, h' := Dropped(bodies, h.elapsed, h.fired), FireOnce(h, bodies);
    forall d | k <= d < |h'.drops|
      ensures h'.drops[d].mark.born == h'.elapsed
      ensures exists b | 0 <= b < |bodies| :: BallAt(bodies[b], h'.drops[d].mark.at)
    {
      if d >= |h.drops| {
        assert h'.drops[d] == drops[d - |h.drops|];
        assert BallAt(bodies[whose[d - |h.drops|]], h'.drops[d].mark.at);
      }
    }
  }

  lemma {:induction false} FireAllDrops(h: History, k: nat, bodies: seq<Option<Spot>>)
    requires DropsNow(h, k, bodies)
    ensures DropsNow(FireAll(h, bodies), k, bodies) && h.drops <= FireAll(h, bodies).drops
    ensures FireAll(h, bodies).elapsed == h.elapsed
    decreases (h.timer / INTERVAL).Floor
  {
    hide DropsNow;
    if h.timer >= INTERVAL {
      FireOnceDrops(h, k, bodies);
      FireAllDrops(FireOnce(h, bodies), k, bodies);
    }
  }

  lemma FrameDrops(h: History, f: Frame)
    ensures DropsNow(Updated(h, f), |h.drops|, f.bodies) && h.drops <= Updated(h, f).drops
    ensures Updated(h, f).elapsed == h.elapsed + f.delta
  {
    FireAllDrops(h.(timer := h.timer + f.delta, elapsed := h.elapsed + f.delta), |h.drops|, f.bodies);
  }

  /** In every run, each mark there ever was lies where a ball was on firm bank when it was dropped. */
  lemma {:induction false} EveryMarkWasABall(frames: seq<Frame>, k: nat)
    requires k < |UpdatedAll(frames).drops|
    ensures WasBall(frames, UpdatedAll(frames).drops[k].mark)
  {
    hide Updated, DropsNow, BallAt;
    if frames != [] {
      var before, f := frames[..|frames| - 1], frames[|frames| - 1];
      var h, h' := UpdatedAll(before), UpdatedAll(frames);
      FrameDrops(h, f);
      if k < |h.drops| {
        EveryMarkWasABall(before, k);
        EarlierBall(before, f, h.drops[k].mark);
        assert before + [f] == frames;
      } else {
        LatestBall(frames, h', |h.drops|, k);
      }
    }
  }

  lemma EarlierBall(before: seq<Frame>, f: Frame, mark: Mark)
    requires WasBall(before, mark)
    ensures WasBall(before + [f], mark)
  {
    hide UpdatedAll, BallAt;
    var n: nat, b: nat :| n < |before| && b < |before[n].bodies|
                       && BallAt(before[n].bodies[b], mark.at) && mark.born == UpdatedAll(before[..n + 1]).elapsed;
    assert (before + [f])[n] == before[n] && (before + [f])[..n + 1] == before[..n + 1];
  }

  lemma LatestBall(frames: seq<Frame>, h: History, k: nat, d: nat)
    requires frames != [] && h == UpdatedAll(frames) && DropsNow(h, k, frames[|frames| - 1].bodies)
    requires k <= d < |h.drops|
    ensures WasBall(frames, h.drops[d].mark)
  {
    hide UpdatedAll, BallAt;
    var bodies := frames[|frames| - 1].bodies;
    var b: nat :| b < |bodies| && BallAt(bodies[b], h.drops[d].mark.at);
    assert frames[..|frames|] == frames;
  }

  // ---- No live mark is overwritten -----------------------------------------------------------------------------

  /** A mark is still to be seen. */
  predicate Live(mark: Mark, now: real) {
    now - mark.born < LIFETIME
  }

  /** That is for its first four seconds. */
  lemma LiveForFourSeconds(mark: Mark, age: real)
    ensures Live(mark, mark.born + age) <==> age < 4.0
  {
  }

  /** Whenever the ring came round to a slot, the mark in it had had its whole life. */
  ghost predicate NoneOverwrittenLive(h: History) {
    forall q | MARK_COUNT <= q < |h.drops| :: !Live(h.drops[q - MARK_COUNT].mark, h.drops[q].mark.born)
  }

  /** The reused slot's mark is from at least sixteen firings ago. */
  lemma PacedOverwritesNoneLive(h: History, limit: real)
    requires Paced(h, limit) && limit <= 0.48
    ensures NoneOverwrittenLive(h)
  {
    forall q | MARK_COUNT <= q < |h.drops| ensures !Live(h.drops[q - MARK_COUNT].mark, h.drops[q].mark.born) {
      var older, newer := h.drops[q - MARK_COUNT], h.drops[q];
      assert newer.firing - older.firing >= 16;
      assert Due(newer.firing) - Due(older.firing) >= 4.48;
    }
  }

  lemma OverwrittenIsOver(h: History, k: nat)
    requires NoneOverwrittenLive(h) && k + MARK_COUNT < |h.drops|
    ensures h.drops[k].mark.born + LIFETIME <= h.drops[k + MARK_COUNT].mark.born
  {
    var q := k + MARK_COUNT;
    assert !Live(h.drops[q - MARK_COUNT].mark, h.drops[q].mark.born);
  }

  /** So every live mark there ever was is among the newest ninety-six. */
  lemma LiveMarksAreKept(h: History, limit: real, k: nat)
    requires Paced(h, limit) && limit <= 0.48
    requires k < |h.drops| && Live(h.drops[k].mark, h.elapsed)
    ensures |h.drops| - k <= MARK_COUNT
  {
    PacedOverwritesNoneLive(h, limit);
    var q := k + MARK_COUNT;
    if q < |h.drops| {
      OverwrittenIsOver(h, k);
    }
  }

  // ---- The frame limit is exact --------------------------------------------------------------------------------

  lemma {:induction false} FireAllDropsNow(h: History, bodies: seq<Option<Spot>>)
    ensures h.drops <= FireAll(h, bodies).drops
    ensures forall k | |h.drops| <= k < |FireAll(h, bodies).drops| :: FireAll(h, bodies).drops[k].mark.born == h.elapsed
    decreases (h.timer / INTERVAL).Floor
  {
    if h.timer >= INTERVAL {
      FireAllDropsNow(FireOnce(h, bodies), bodies);
    }
  }

  /** Six balls, all on firm bank. */
  const HERD: seq<Option<Spot>> := [
    Some(Spot(0.0, 8.0)), Some(Spot(1.0, 8.0)), Some(Spot(2.0, 8.0)),
    Some(Spot(3.0, 8.0)), Some(Spot(4.0, 8.0)), Some(Spot(5.0, 8.0))
  ]

  /** Each firing has dropped a mark for each of the six balls. */
  predicate Full(h: History) {
    |h.drops| == BALL_COUNT * h.fired
  }

  lemma {:induction false} FireAllStaysFull(h: History)
    requires Full(h)
    ensures Full(FireAll(h, HERD))
    decreases (h.timer / INTERVAL).Floor
  {
    if h.timer >= INTERVAL {
      assert Abs(8.0) >= FIRM_BANK;
      FireAllStaysFull(FireOnce(h, HERD));
    }
  }

  /** Frames of the given lengths with the whole herd on firm bank. */
  function HerdFrames(deltas: seq<real>): seq<Frame> {
    seq(|deltas|, i requires 0 <= i < |deltas| => Frame(deltas[i], HERD))
  }

  function After(deltas: seq<real>): History {
    UpdatedAll(HerdFrames(deltas))
  }

  lemma HerdFrame(h: History, delta: real)
    requires Full(h)
    ensures var h' := Updated(h, Frame(delta, HERD));
      Full(h') && forall k | |h.drops| <= k < |h'.drops| :: h'.drops[k].mark.born == h.elapsed + delta
  {
    hide FireAll;
    var due := h.(timer := h.timer + delta, elapsed := h.elapsed + delta);
    FireAllStaysFull(due);
    FireAllDropsNow(due, HERD);
  }

  lemma HerdFramesAppend(deltas: seq<real>, delta: real)
    ensures HerdFrames(deltas + [delta]) == HerdFrames(deltas) + [Frame(delta, HERD)]
  {
  }

  /** The history after one more frame of the whole herd. */
  lemma OneMoreFrame(deltas: seq<real>, delta: real, limit: real)
    requires Within(HerdFrames(deltas + [delta]), limit)
    requires Full(After(deltas))
    ensures var h, h' := After(deltas), After(deltas + [delta]);
      && Full(h') && Paced(h', limit) && h'.timer < INTERVAL && h'.elapsed == h.elapsed + delta
      && h.drops <= h'.drops
      && forall k | |h.drops| <= k < |h'.drops| :: h'.drops[k].mark.born == h'.elapsed
  {
    hide Full, Paced, Updated;
    var before, f := HerdFrames(deltas), Frame(delta, HERD);
    HerdFramesAppend(deltas, delta);
    assert (before + [f])[..|before|] == before && (before + [f])[|before|] == f;
    assert forall i | 0 <= i < |before| :: (before + [f])[i] == before[i];
    RunsKeepPace(before, limit);
    FrameKeepsPace(UpdatedAll(before), f, limit);
    HerdFrame(UpdatedAll(before), delta);
  }

  function Repeated(delta: real, n: nat): seq<real> {
    seq(n, i => delta)
  }

  lemma WithinOneMore(deltas: seq<real>, delta: real, limit: real)
    requires Within(HerdFrames(deltas), limit) && 0.0 <= delta <= limit
    ensures Within(HerdFrames(deltas + [delta]), limit)
  {
    var shorter, longer := HerdFrames(deltas), HerdFrames(deltas + [delta]);
    assert forall i | 0 <= i < |deltas| :: longer[i] == shorter[i];
  }

  /** Ten frames and more of one length: time adds up and what was dropped stays. */
  lemma {:induction false} SteadyFrames(deltas: seq<real>, delta: real, n: nat, limit: real)
    requires Within(HerdFrames(deltas), limit) && 0.0 <= delta <= limit
    requires Full(After(deltas)) && Paced(After(deltas), limit) && After(deltas).timer < INTERVAL
    ensures var h, h' := After(deltas), After(deltas + Repeated(delta, n));
      && Within(HerdFrames(deltas + Repeated(delta, n)), limit)
      && Full(h') && Paced(h', limit) && h'.timer < INTERVAL
      && h'.elapsed == h.elapsed + n as real * delta && h.drops <= h'.drops
  {
    hide Paced, Full, UpdatedAll;
    if n == 0 {
      assert deltas + Repeated(delta, 0) == deltas;
    } else {
      SteadyFrames(deltas, delta, n - 1, limit);
      var before := deltas + Repeated(delta, n - 1);
      assert before + [delta] == deltas + Repeated(delta, n);
      WithinOneMore(before, delta, limit);
      assert (n - 1) as real * delta + delta == n as real * delta;
      OneMoreFrame(before, delta, limit);
    }
  }

  /** With frames any longer than 0.48 seconds, a mark can be overwritten before its time. */
  lemma LongFramesOverwrite(limit: real)
    requires limit > 0.48
    ensures exists frames :: Within(frames, limit) && !NoneOverwrittenLive(UpdatedAll(frames))
  {
    var e := if limit > 0.5 then 0.02 else limit - 0.48;
    var bound := 0.48 + e;
    var short, long, steady := 0.28 - e / 2.0, 0.48 + e, 0.4 - e / 20.0;
    assert HerdFrames([]) == [];
    OneMoreFrame([], short, bound);
    assert [] + [short] == [short];
    OneMoreFrame([short], long, bound);
    var two := [short] + [long];
    var h2 := After(two);
    assert h2.elapsed == 0.76 + e / 2.0 && h2.fired == 2;
    SteadyFrames(two, steady, 9, bound);
    var eleven := two + Repeated(steady, 9);
    var h11 := After(eleven);
    assert h11.elapsed == 4.36 + e / 20.0 && h11.fired == 15;
    OneMoreFrame(eleven, steady, bound);
    var h12 := After(eleven + [steady]);
    assert h12.elapsed == 4.76 && h12.fired == 17;
    assert h12.drops[0] == h2.drops[0] && h12.drops[0].mark.born == 0.76 + e / 2.0;
    assert h12.drops[96].mark.born == 4.76;
    assert !NoneOverwrittenLive(h12);
    assert Within(HerdFrames(eleven + [steady]), limit);
  }

  /** The ring never overwrites a live mark, whatever the balls do, exactly when frames last at most 0.48 seconds. */
  lemma RingSafeIffShortFrames(limit: real)
    ensures (forall frames | Within(frames, limit) :: NoneOverwrittenLive(UpdatedAll(frames))) <==> limit <= 0.48
  {
    if limit <= 0.48 {
      forall frames | Within(frames, limit) ensures NoneOverwrittenLive(UpdatedAll(frames)) {
        RunsKeepPace(frames, limit);
        PacedOverwritesNoneLive(UpdatedAll(frames), limit);
      }
    } else {
      LongFramesOverwrite(limit);
    }
  }
}
