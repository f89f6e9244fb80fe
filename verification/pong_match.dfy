/** Whole games of pong: any sequence of ticks, with the paddles anywhere they may be at each. */
module PongMatch {
  import opened PongRules
  import opened Reals

  datatype Tick = Tick(dt: real, paddles: seq<Paddle>)

  datatype Game = Game(ball: Ball, left: nat, right: nat, serves: nat)

  /** The server's first serve, toward the first peer. */
  const OPENING: Game := Game(Serve(-1.0), 0, 0, 1)

  function Played(g: Game, t: Tick): Game {
    var ball, outcome := Ticked(g.ball, t.paddles, t.dt), TickOutcome(g.ball, t.paddles, t.dt);
    match outcome
    case Play => g.(ball := ball)
    case LeftScores => g.(ball := ball, left := g.left + 1, serves := g.serves + 1)
    case RightScores => g.(ball := ball, right := g.right + 1, serves := g.serves + 1)
  }

  function PlayedAll(g: Game, ticks: seq<Tick>): Game {
    if ticks == [] then g else Played(PlayedAll(g, ticks[..|ticks| - 1]), ticks[|ticks| - 1])
  }

  /** Every tick's paddles stand where paddles can. */
  predicate Fair(ticks: seq<Tick>) {
    forall i | 0 <= i < |ticks| :: AllStanding(ticks[i].paddles)
  }

  /**
   * In every game the ball stays in the court at its usual speed, every serve but the first follows a point, and after
   * a tick no paddle it overlaps is still being closed on.
   */
  lemma {:induction false} GamesKeepCourt(ticks: seq<Tick>)
    requires Fair(ticks)
    ensures var g := PlayedAll(OPENING, ticks); InCourt(g.ball) && g.left + g.right == g.serves - 1
    ensures ticks != [] ==> NoneHit(PlayedAll(OPENING, ticks).ball, ticks[|ticks| - 1].paddles)
  {
    if ticks != [] {
      GamesKeepCourt(ticks[..|ticks| - 1]);
      var g, t := PlayedAll(OPENING, ticks[..|ticks| - 1]), ticks[|ticks| - 1];
      TickKeepsCourt(g.ball, t.paddles, t.dt);
    }
  }

  /** After a point the ball is in the middle, on its way to the end of whoever scored it. */
  lemma ScorerIsServed(g: Game, t: Tick)
    requires AllStanding(t.paddles)
    ensures var g' := Played(g, t);
      && (g'.left > g.left ==> g'.ball.x == 0.0 && g'.ball.y == 0.0 && g'.ball.vx < 0.0)
      && (g'.right > g.right ==> g'.ball.x == 0.0 && g'.ball.y == 0.0 && g'.ball.vx > 0.0)
      && (g'.serves > g.serves <==> Abs(Brought(g.ball, t.paddles, t.dt).x) > COURT_HALF_WIDTH)
  {
  }

  // ---- No passing a paddle -------------------------------------------------------------------------------------

  /** The ball after the first i ticks. */
  function BallAt(b: Ball, ticks: seq<Tick>, i: nat): Ball
    requires i <= |ticks|
  {
    if i == 0 then b else Ticked(BallAt(b, ticks, i - 1), ticks[i - 1].paddles, ticks[i - 1].dt)
  }

  lemma {:induction false} GameBallAt(g: Game, ticks: seq<Tick>, i: nat)
    requires i <= |ticks|
    ensures PlayedAll(g, ticks[..i]).ball == BallAt(g.ball, ticks, i)
  {
    if i > 0 {
      assert ticks[..i][..i - 1] == ticks[..i - 1];
      GameBallAt(g, ticks, i - 1);
    }
  }

  /** Frames short enough that a tick's travel is less than a paddle band's width. */
  predicate Short(ticks: seq<Tick>) {
    forall i | 0 <= i < |ticks| :: 0.0 <= ticks[i].dt && 208.0 * ticks[i].dt < BAND_INNER - BAND_OUTER
  }

  lemma {:induction false} BallStaysInCourt(b: Ball, ticks: seq<Tick>, i: nat)
    requires InCourt(b) && Fair(ticks) && i <= |ticks|
    ensures InCourt(BallAt(b, ticks, i))
  {
    if i > 0 {
      BallStaysInCourt(b, ticks, i - 1);
      TickKeepsCourt(BallAt(b, ticks, i - 1), ticks[i - 1].paddles, ticks[i - 1].dt);
    }
  }

  /** No paddle on that side is level with the ball while the ball is in the paddle's band. */
  predicate LeftUncovered(b: Ball, paddles: seq<Paddle>) {
    forall k | 0 <= k < |paddles| :: paddles[k].x < 0.0 && OverlapsX(b, paddles[k]) ==> !OverlapsY(b, paddles[k])
  }

  predicate RightUncovered(b: Ball, paddles: seq<Paddle>) {
    forall k | 0 <= k < |paddles| :: paddles[k].x > 0.0 && OverlapsX(b, paddles[k]) ==> !OverlapsY(b, paddles[k])
  }

  /** A tick that ends behind the left band's inner edge: what turns the ball and what does not. */
  lemma TickOnTheLeft(b: Ball, t: Tick)
    requires InCourt(b) && AllStanding(t.paddles) && t.dt >= 0.0
    requires Brought(b, t.paddles, t.dt).x < BAND_INNER
    ensures var m, s := Moved(b, t.dt), Brought(b, t.paddles, t.dt);
      && s.x == m.x && s.y == m.y
      && (b.vx > 0.0 ==> s.vx > 0.0 && s.x >= b.x)
      && (b.vx < 0.0 ==> s.x == b.x - 208.0 * t.dt)
      && (b.vx < 0.0 && s.vx < 0.0 ==> LeftUncovered(s, t.paddles))
  {
    var m := Moved(b, t.dt);
    StrikesKeep(m, t.paddles);
    StrikesTurnOnce(m, t.paddles);
    assert forall i | 0 <= i < |t.paddles| :: Standing(t.paddles[i]);
    if b.vx > 0.0 {
      assert b.vx * t.dt >= 0.0;
    }
  }

  /** A ball on its way back from the left end does not go out there before it is back in front of the paddles. */
  lemma {:induction false} ReturningBallStaysIn(b: Ball, ticks: seq<Tick>, from: nat, e: nat)
    requires InCourt(b) && Fair(ticks) && Short(ticks)
    requires from < e <= |ticks|
    requires BallAt(b, ticks, from).vx > 0.0
    requires forall i | from < i < e :: BallAt(b, ticks, i).x < BAND_INNER
    ensures TickOutcome(BallAt(b, ticks, e - 1), ticks[e - 1].paddles, ticks[e - 1].dt) != RightScores
    decreases e - from
  {
    BallStaysInCourt(b, ticks, from);
    var now, t := BallAt(b, ticks, from), ticks[from];
    StrikesKeep(Moved(now, t.dt), t.paddles);
    assert now.vx * t.dt >= 0.0;
    if from + 1 < e {
      assert BallAt(b, ticks, from + 1).x < BAND_INNER;
      TickOnTheLeft(now, t);
      ReturningBallStaysIn(b, ticks, from + 1, e);
    }
  }

  lemma TickTravel(b: Ball, t: Tick)
    requires InCourt(b) && b.vx < 0.0 && t.dt >= 0.0
    ensures Brought(b, t.paddles, t.dt).x == b.x - 208.0 * t.dt
  {
    StrikesKeep(Moved(b, t.dt), t.paddles);
  }

  /** A tick after which the ball is still going left behind the band's inner edge met no left paddle level with it. */
  lemma KeptGoingLeft(b: Ball, t: Tick)
    requires InCourt(b) && b.vx < 0.0 && AllStanding(t.paddles) && t.dt >= 0.0
    requires Ticked(b, t.paddles, t.dt).x < BAND_INNER && Ticked(b, t.paddles, t.dt).vx < 0.0
    ensures LeftUncovered(Ticked(b, t.paddles, t.dt), t.paddles)
  {
    TickTravel(b, t);
    TickOnTheLeft(b, t);
  }

  /** Between the two ticks the ball is behind the band's inner edge. */
  ghost predicate BehindLeft(b: Ball, ticks: seq<Tick>, s: nat, e: nat)
    requires e <= |ticks|
  {
    forall i | s < i < e :: BallAt(b, ticks, i).x < BAND_INNER
  }

  ghost predicate BehindRight(b: Ball, ticks: seq<Tick>, s: nat, e: nat)
    requires e <= |ticks|
  {
    forall i | s < i < e :: BallAt(b, ticks, i).x > -BAND_INNER
  }

  /** The ball leaves the front of the left paddles after tick s and goes out at that end in tick e. */
  ghost predicate GoesOutLeft(b: Ball, ticks: seq<Tick>, s: nat, e: nat) {
    && s < e <= |ticks|
    && BallAt(b, ticks, s).x >= BAND_INNER
    && BehindLeft(b, ticks, s, e)
    && TickOutcome(BallAt(b, ticks, e - 1), ticks[e - 1].paddles, ticks[e - 1].dt) == RightScores
  }

  lemma GoesLeftThroughout(b: Ball, ticks: seq<Tick>, s: nat, e: nat, i: nat)
    requires InCourt(b) && Fair(ticks) && Short(ticks)
    requires GoesOutLeft(b, ticks, s, e) && s <= i < e
    ensures InCourt(BallAt(b, ticks, i)) && BallAt(b, ticks, i).vx < 0.0
  {
    BallStaysInCourt(b, ticks, i);
    if BallAt(b, ticks, i).vx > 0.0 {
      ReturningBallStaysIn(b, ticks, i, e);
    }
  }

  lemma EntersBand(b: Ball, ticks: seq<Tick>, s: nat, e: nat)
    requires InCourt(b) && Fair(ticks) && Short(ticks)
    requires GoesOutLeft(b, ticks, s, e)
    ensures s + 1 < e && BAND_OUTER < BallAt(b, ticks, s + 1).x < BAND_INNER
  {
    GoesLeftThroughout(b, ticks, s, e, s);
    TickTravel(BallAt(b, ticks, s), ticks[s]);
  }

  lemma UncoveredWithin(b: Ball, ticks: seq<Tick>, s: nat, e: nat, i: nat)
    requires InCourt(b) && Fair(ticks) && Short(ticks)
    requires GoesOutLeft(b, ticks, s, e) && s < i < e
    ensures LeftUncovered(BallAt(b, ticks, i), ticks[i - 1].paddles)
  {
    GoesLeftThroughout(b, ticks, s, e, i - 1);
    GoesLeftThroughout(b, ticks, s, e, i);
    KeptGoingLeft(BallAt(b, ticks, i - 1), ticks[i - 1]);
  }

  /**
   * With ticks short enough, a ball that goes out on the left has been inside the left paddles' band since it was last
   * in front of it, and at none of those ticks was any left paddle level with it.
   */
  lemma NoPassingLeft(b: Ball, ticks: seq<Tick>, s: nat, e: nat)
    requires InCourt(b) && Fair(ticks) && Short(ticks)
    requires GoesOutLeft(b, ticks, s, e)
    ensures exists i | s < i < e :: BAND_OUTER < BallAt(b, ticks, i).x < BAND_INNER
    ensures forall i | s < i < e :: LeftUncovered(BallAt(b, ticks, i), ticks[i - 1].paddles)
  {
    EntersBand(b, ticks, s, e);
    forall i: nat | s < i < e ensures LeftUncovered(BallAt(b, ticks, i), ticks[i - 1].paddles) {
      UncoveredWithin(b, ticks, s, e, i);
    }
  }

  function MirrorTicks(ticks: seq<Tick>): (mirrored: seq<Tick>)
    ensures |mirrored| == |ticks|
    ensures Fair(ticks) ==> Fair(mirrored)
    ensures Short(ticks) ==> Short(mirrored)
  {
    seq(|ticks|, i requires 0 <= i < |ticks| => Tick(ticks[i].dt, MirrorPaddles(ticks[i].paddles)))
  }

  lemma {:induction false} BallMirrors(b: Ball, ticks: seq<Tick>, i: nat)
    requires Fair(ticks) && i <= |ticks|
    ensures BallAt(Mirror(b), MirrorTicks(ticks), i) == Mirror(BallAt(b, ticks, i))
  {
    if i > 0 {
      BallMirrors(b, ticks, i - 1);
      TickMirrors(BallAt(b, ticks, i - 1), ticks[i - 1].paddles, ticks[i - 1].dt);
    }
  }

  lemma UncoveredMirrors(b: Ball, paddles: seq<Paddle>)
    requires LeftUncovered(Mirror(b), MirrorPaddles(paddles))
    ensures RightUncovered(b, paddles)
  {
    forall k | 0 <= k < |paddles| && paddles[k].x > 0.0 && OverlapsX(b, paddles[k]) ensures !OverlapsY(b, paddles[k]) {
      assert MirrorPaddles(paddles)[k] == MirrorPaddle(paddles[k]);
    }
  }

  ghost predicate GoesOutRight(b: Ball, ticks: seq<Tick>, s: nat, e: nat) {
    && s < e <= |ticks|
    && BallAt(b, ticks, s).x <= -BAND_INNER
    && BehindRight(b, ticks, s, e)
    && TickOutcome(BallAt(b, ticks, e - 1), ticks[e - 1].paddles, ticks[e - 1].dt) == LeftScores
  }

  lemma PositionMirrors(b: Ball, ticks: seq<Tick>, i: nat)
    requires Fair(ticks) && i <= |ticks|
    ensures BallAt(Mirror(b), MirrorTicks(ticks), i).x == -BallAt(b, ticks, i).x
  {
    BallMirrors(b, ticks, i);
  }

  lemma OutcomeMirrors(b: Ball, ticks: seq<Tick>, i: nat)
    requires Fair(ticks) && i < |ticks|
    ensures var mirrored := MirrorTicks(ticks);
      TickOutcome(BallAt(Mirror(b), mirrored, i), mirrored[i].paddles, mirrored[i].dt)
      == MirrorOutcome(TickOutcome(BallAt(b, ticks, i), ticks[i].paddles, ticks[i].dt))
  {
    BallMirrors(b, ticks, i);
    TickMirrors(BallAt(b, ticks, i), ticks[i].paddles, ticks[i].dt);
  }

  lemma BehindMirrors(b: Ball, ticks: seq<Tick>, s: nat, e: nat)
    requires e <= |ticks| && Fair(ticks) && BehindRight(b, ticks, s, e)
    ensures BehindLeft(Mirror(b), MirrorTicks(ticks), s, e)
  {
    forall i: nat | s < i < e ensures BallAt(Mirror(b), MirrorTicks(ticks), i).x < BAND_INNER {
      PositionMirrors(b, ticks, i);
    }
  }

  lemma GoesOutMirrors(b: Ball, ticks: seq<Tick>, s: nat, e: nat)
    requires Fair(ticks) && GoesOutRight(b, ticks, s, e)
    ensures GoesOutLeft(Mirror(b), MirrorTicks(ticks), s, e)
  {
    hide BallAt, TickOutcome, BehindLeft, BehindRight, MirrorTicks, Fair;
    PositionMirrors(b, ticks, s);
    BehindMirrors(b, ticks, s, e);
    OutcomeMirrors(b, ticks, e - 1);
  }

  lemma UncoveredWithinRight(b: Ball, ticks: seq<Tick>, s: nat, e: nat, i: nat)
    requires InCourt(b) && Fair(ticks) && Short(ticks)
    requires GoesOutRight(b, ticks, s, e) && s < i < e
    ensures RightUncovered(BallAt(b, ticks, i), ticks[i - 1].paddles)
  {
    hide BallAt, GoesOutLeft, BehindRight, MirrorPaddles, Fair, Short, LeftUncovered, RightUncovered;
    GoesOutMirrors(b, ticks, s, e);
    UncoveredWithin(Mirror(b), MirrorTicks(ticks), s, e, i);
    BallMirrors(b, ticks, i);
    UncoveredMirrors(BallAt(b, ticks, i), ticks[i - 1].paddles);
  }

  /** The same at the right end. */
  lemma NoPassingRight(b: Ball, ticks: seq<Tick>, s: nat, e: nat)
    requires InCourt(b) && Fair(ticks) && Short(ticks)
    requires GoesOutRight(b, ticks, s, e)
    ensures exists i | s < i < e :: -BAND_INNER < BallAt(b, ticks, i).x < -BAND_OUTER
    ensures forall i | s < i < e :: RightUncovered(BallAt(b, ticks, i), ticks[i - 1].paddles)
  {
    GoesOutMirrors(b, ticks, s, e);
    EntersBand(Mirror(b), MirrorTicks(ticks), s, e);
    PositionMirrors(b, ticks, s + 1);
    forall i: nat | s < i < e ensures RightUncovered(BallAt(b, ticks, i), ticks[i - 1].paddles) {
      UncoveredWithinRight(b, ticks, s, e, i);
    }
  }

  // ---- Every point of every game -------------------------------------------------------------------------------

  /** The last tick before tick e after which the ball was in front of the left paddles. */
  lemma LastInFrontOfLeft(b: Ball, ticks: seq<Tick>, e: nat) returns (s: nat)
    requires 0 < e <= |ticks| && b.x >= BAND_INNER
    ensures s < e && BallAt(b, ticks, s).x >= BAND_INNER && BehindLeft(b, ticks, s, e)
  {
    s := e - 1;
    while BallAt(b, ticks, s).x < BAND_INNER
      invariant s < e && BehindLeft(b, ticks, s, e)
      decreases s
    {
      s := s - 1;
    }
  }

  lemma LastInFrontOfRight(b: Ball, ticks: seq<Tick>, e: nat) returns (s: nat)
    requires 0 < e <= |ticks| && b.x <= -BAND_INNER
    ensures s < e && BallAt(b, ticks, s).x <= -BAND_INNER && BehindRight(b, ticks, s, e)
  {
    s := e - 1;
    while BallAt(b, ticks, s).x > -BAND_INNER
      invariant s < e && BehindRight(b, ticks, s, e)
      decreases s
    {
      s := s - 1;
    }
  }

  /** The tick that changes the score is the tick in which the game's ball goes out. */
  lemma PointIsOutcome(ticks: seq<Tick>, e: nat)
    requires 0 < e <= |ticks|
    ensures var g, g' := PlayedAll(OPENING, ticks[..e - 1]), PlayedAll(OPENING, ticks[..e]);
      var outcome := TickOutcome(BallAt(OPENING.ball, ticks, e - 1), ticks[e - 1].paddles, ticks[e - 1].dt);
      && (g'.right > g.right <==> outcome == RightScores)
      && (g'.left > g.left <==> outcome == LeftScores)
  {
    assert ticks[..e][..e - 1] == ticks[..e - 1];
    GameBallAt(OPENING, ticks, e - 1);
  }

  /**
   * In every game from the opening serve on, with ticks short enough: each time the right player scores, the ball has
   * been in front of the left paddles, then inside their band, and at no tick from there on was one level with it.
   */
  lemma RightScoresOnlyUncovered(ticks: seq<Tick>, e: nat) returns (s: nat)
    requires Fair(ticks) && Short(ticks) && 0 < e <= |ticks|
    requires PlayedAll(OPENING, ticks[..e]).right > PlayedAll(OPENING, ticks[..e - 1]).right
    ensures s < e && BallAt(OPENING.ball, ticks, s).x >= BAND_INNER
    ensures exists i | s < i < e :: BAND_OUTER < BallAt(OPENING.ball, ticks, i).x < BAND_INNER
    ensures forall i | s < i < e :: LeftUncovered(BallAt(OPENING.ball, ticks, i), ticks[i - 1].paddles)
  {
    PointIsOutcome(ticks, e);
    s := LastInFrontOfLeft(OPENING.ball, ticks, e);
    NoPassingLeft(OPENING.ball, ticks, s, e);
  }

  /** The same each time the left player scores. */
  lemma LeftScoresOnlyUncovered(ticks: seq<Tick>, e: nat) returns (s: nat)
    requires Fair(ticks) && Short(ticks) && 0 < e <= |ticks|
    requires PlayedAll(OPENING, ticks[..e]).left > PlayedAll(OPENING, ticks[..e - 1]).left
    ensures s < e && BallAt(OPENING.ball, ticks, s).x <= -BAND_INNER
    ensures exists i | s < i < e :: -BAND_INNER < BallAt(OPENING.ball, ticks, i).x < -BAND_OUTER
    ensures forall i | s < i < e :: RightUncovered(BallAt(OPENING.ball, ticks, i), ticks[i - 1].paddles)
  {
    PointIsOutcome(ticks, e);
    s := LastInFrontOfRight(OPENING.ball, ticks, e);
    NoPassingRight(OPENING.ball, ticks, s, e);
  }

  // ---- The limit is exact ----------------------------------------------------------------------------------------

  /** A tick takes the ball from in front of a left paddle to behind it, level with it before and after, not turned. */
  ghost predicate Jumps(b: Ball, t: Tick) {
    && b.x >= BAND_INNER && Brought(b, t.paddles, t.dt).x <= BAND_OUTER && Brought(b, t.paddles, t.dt).vx < 0.0
    && exists k | 0 <= k < |t.paddles| ::
         t.paddles[k].x < 0.0 && OverlapsY(b, t.paddles[k]) && OverlapsY(Brought(b, t.paddles, t.dt), t.paddles[k])
  }

  /** In tick e of the game the right player scores with a ball that has jumped a left paddle on its way out. */
  ghost predicate ScoresPastLevelPaddle(ticks: seq<Tick>, e: nat) {
    && 0 < e <= |ticks|
    && PlayedAll(OPENING, ticks[..e]).right > PlayedAll(OPENING, ticks[..e - 1]).right
    && exists j: nat | j < e :: Jumps(BallAt(OPENING.ball, ticks, j), ticks[j]) && BehindLeft(OPENING.ball, ticks, j, e)
  }

  /** No tick is longer than the limit. */
  predicate Limited(ticks: seq<Tick>, limit: real) {
    forall i | 0 <= i < |ticks| :: 0.0 <= ticks[i].dt <= limit
  }

  lemma JumpIsLong(b: Ball, t: Tick)
    requires InCourt(b) && AllStanding(t.paddles) && t.dt >= 0.0 && Jumps(b, t)
    ensures 208.0 * t.dt >= BAND_INNER - BAND_OUTER
  {
    StrikesKeep(Moved(b, t.dt), t.paddles);
    assert b.vx * t.dt == 208.0 * t.dt || b.vx * t.dt == -208.0 * t.dt;
  }

  /** The paddle of the game below, and how long its ticks are: a band's width each, but for one of half of that. */
  const WAITING: Paddle := Paddle(-PADDLE_X, 206.0)
  const STRIDE: real := (BAND_INNER - BAND_OUTER) / 208.0

  function TripTicks(): (ticks: seq<Tick>)
    ensures |ticks| == 14 && Fair(ticks)
    ensures forall i | 0 <= i < 14 :: ticks[i] == Tick(if i == 11 then STRIDE * 0.5 else STRIDE, [WAITING])
  {
    seq(14, i => Tick(if i == 11 then STRIDE * 0.5 else STRIDE, [WAITING]))
  }

  /** The opening ball on its way to the left end, bouncing off one wall, and over the paddle in one tick. */
  function TripBall(i: nat): Ball
    requires i < 14
  {
    if i < 10 then Ball(-36.0 * i as real, 27.0 * i as real, -208.0, 156.0)
    else if i < 12 then Ball(-36.0 * i as real, 260.0 - 27.0 * (i - 10) as real, -208.0, -156.0)
    else Ball(18.0 - 36.0 * i as real, 246.5 - 27.0 * (i - 11) as real, -208.0, -156.0)
  }

  lemma OutsideBandIsMissed(b: Ball)
    requires b.x >= BAND_INNER || b.x <= BAND_OUTER
    ensures StruckBy(b, [WAITING]) == b
  {
    assert !Hits(b, WAITING);
    assert [WAITING][..0] == [] && StruckBy(b, []) == b;
  }

  lemma TripStep(i: nat)
    requires i < 13
    ensures Ticked(TripBall(i), TripTicks()[i].paddles, TripTicks()[i].dt) == TripBall(i + 1)
    ensures Brought(TripBall(i), TripTicks()[i].paddles, TripTicks()[i].dt) == TripBall(i + 1)
  {
    var t := TripTicks()[i];
    assert 208.0 * STRIDE == 36.0 && 156.0 * STRIDE == 27.0;
    assert Moved(TripBall(i), t.dt) == TripBall(i + 1);
    OutsideBandIsMissed(TripBall(i + 1));
  }

  lemma {:induction false} TripIs(i: nat)
    requires i < 14
    ensures BallAt(OPENING.ball, TripTicks(), i) == TripBall(i)
  {
    if i > 0 {
      TripIs(i - 1);
      TripStep(i - 1);
    }
  }

  lemma TripScores()
    ensures ScoresPastLevelPaddle(TripTicks(), 14)
  {
    var ticks := TripTicks();
    TripIs(12);
    TripIs(13);
    TripStep(12);
    assert Jumps(TripBall(12), ticks[12]) by {
      assert ticks[12].paddles[0] == WAITING;
    }
    OutsideBandIsMissed(Moved(TripBall(13), STRIDE));
    PointIsOutcome(ticks, 14);
    assert BehindLeft(OPENING.ball, ticks, 12, 14);
  }

  /**
   * Over all games from the opening serve: no point is scored past a paddle that is level with the ball, if and only if
   * the longest tick there may be is shorter than the ball takes to cross a paddle's band.
   */
  lemma NoTunnellingIffShortTicks(limit: real)
    requires limit >= 0.0
    ensures (forall ticks, e | Fair(ticks) && Limited(ticks, limit) :: !ScoresPastLevelPaddle(ticks, e))
            <==> 208.0 * limit < BAND_INNER - BAND_OUTER
  {
    if 208.0 * limit < BAND_INNER - BAND_OUTER {
      forall ticks, e | Fair(ticks) && Limited(ticks, limit) ensures !ScoresPastLevelPaddle(ticks, e) {
        if ScoresPastLevelPaddle(ticks, e) {
          var j: nat :| j < e && Jumps(BallAt(OPENING.ball, ticks, j), ticks[j]);
          BallStaysInCourt(OPENING.ball, ticks, j);
          JumpIsLong(BallAt(OPENING.ball, ticks, j), ticks[j]);
        }
      }
    } else {
      TripScores();
      assert Limited(TripTicks(), limit);
    }
  }
}
