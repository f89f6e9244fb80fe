/** A timer that is fed frame times and fires once for every whole interval, carrying the remainder over. */
module FixedStep {

  /** Feeds the timer and fires while a whole interval is due; the loops of the particle and the trail timer. */
  method Drain(timer: real, interval: real) returns (fired: nat, rest: real)
    requires interval > 0.0 && timer >= 0.0
    ensures fired == (timer / interval).Floor
    ensures rest == timer - fired as real * interval && 0.0 <= rest < interval
  {
    fired, rest := 0, timer;
    while rest >= interval
      invariant rest == timer - fired as real * interval && rest >= 0.0
      decreases (rest / interval).Floor
    {
      LessByOne(rest, interval);
      NotNegative(rest, interval);
      rest := rest - interval;
      fired := fired + 1;
    }
    WholeIntervals(timer, interval, fired);
  }

  lemma SameSign(a: real, i: real)
    requires i > 0.0
    ensures a > 0.0 <==> a * i > 0.0
    ensures a < 0.0 <==> a * i < 0.0
    ensures a == 0.0 <==> a * i == 0.0
  {
  }

  /** The whole number of intervals in a time is the one that leaves a remainder within the interval. */
  lemma WholeIntervals(time: real, interval: real, n: int)
    requires interval > 0.0
    ensures 0.0 <= time - n as real * interval < interval <==> (time / interval).Floor == n
  {
    var q, m := time / interval, n as real;
    var rest := time - m * interval;
    var share, over := q - m, q - m - 1.0;
    assert q * interval == time;
    assert share * interval == rest;
    assert over * interval == rest - interval;
    SameSign(share, interval);
    SameSign(over, interval);
    assert 0.0 <= rest < interval <==> 0.0 <= share < 1.0;
    assert q.Floor == n <==> m <= q < m + 1.0;
  }

  lemma LessByOne(time: real, interval: real)
    requires interval > 0.0
    ensures ((time - interval) / interval).Floor == (time / interval).Floor - 1
  {
    var n := (time / interval).Floor;
    WholeIntervals(time, interval, n);
    WholeIntervals(time - interval, interval, n - 1);
  }

  lemma NotNegative(time: real, interval: real)
    requires interval > 0.0 && time >= 0.0
    ensures (time / interval).Floor >= 0
  {
    SameSign(time / interval, interval);
  }

  predicate NoneNegative(deltas: seq<real>) {
    forall i | 0 <= i < |deltas| :: deltas[i] >= 0.0
  }

  /** Firing for what is due now on top of what has fired before is firing for the whole. */
  lemma CarriesOver(total: real, delta: real, interval: real, fired: nat, timer: real)
    requires interval > 0.0 && timer >= 0.0 && delta >= 0.0 && timer == total - fired as real * interval
    ensures var now := ((timer + delta) / interval).Floor;
      && now >= 0
      && ((total + delta) / interval).Floor == fired + now
      && timer + delta - now as real * interval == total + delta - (fired + now) as real * interval
      && 0.0 <= timer + delta - now as real * interval < interval
  {
    var now := ((timer + delta) / interval).Floor;
    NotNegative(timer + delta, interval);
    WholeIntervals(timer + delta, interval, now);
    assert (fired + now) as real * interval == fired as real * interval + now as real * interval;
    WholeIntervals(total + delta, interval, fired + now);
  }

  function Sum(deltas: seq<real>): real {
    if deltas == [] then 0.0 else Sum(deltas[..|deltas| - 1]) + deltas[|deltas| - 1]
  }

  datatype Timer = Timer(fired: int, rest: real)

  /** One frame: what Drain does to the timer. */
  function Frame(t: Timer, delta: real, interval: real): Timer
    requires interval > 0.0
  {
    var now := ((t.rest + delta) / interval).Floor;
    Timer(t.fired + now, t.rest + delta - now as real * interval)
  }

  /** The timer after a run of frames from zero, and how often it has fired in all. */
  function Fed(deltas: seq<real>, interval: real): Timer
    requires interval > 0.0
  {
    if deltas == [] then Timer(0, 0.0)
    else Frame(Fed(deltas[..|deltas| - 1], interval), deltas[|deltas| - 1], interval)
  }

  /** The timer has fired once for each whole interval in the total and keeps what is left over. */
  ghost predicate Exact(t: Timer, total: real, interval: real)
    requires interval > 0.0
  {
    && t.fired == (total / interval).Floor && t.fired >= 0
    && t.rest == total - t.fired as real * interval && 0.0 <= t.rest < interval
  }

  lemma FrameKeepsExact(t: Timer, total: real, delta: real, interval: real)
    requires interval > 0.0 && delta >= 0.0 && Exact(t, total, interval)
    ensures Exact(Frame(t, delta, interval), total + delta, interval)
  {
    CarriesOver(total, delta, interval, t.fired, t.rest);
  }

  /** However the same total time is split into frames, the timer ends exact for the total. */
  lemma {:induction false} SplitDoesNotMatter(deltas: seq<real>, interval: real)
    requires interval > 0.0 && NoneNegative(deltas)
    ensures Exact(Fed(deltas, interval), Sum(deltas), interval)
  {
    if deltas == [] {
      WholeIntervals(0.0, interval, 0);
    } else {
      hide Exact, Frame;
      var before, d := deltas[..|deltas| - 1], deltas[|deltas| - 1];
      SplitDoesNotMatter(before, interval);
      FrameKeepsExact(Fed(before, interval), Sum(before), d, interval);
    }
  }
}
