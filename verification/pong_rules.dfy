/** The server's pong: one tick of the ball against the walls, the paddles and the two ends of the court. */
module PongRules {
  import opened Reals

  const COURT_HALF_WIDTH: real := 480.0
  const COURT_HALF_HEIGHT: real := 270.0
  const PADDLE_WIDTH: real := 16.0
  const PADDLE_HEIGHT: real := 96.0
  const PADDLE_SPEED: real := 320.0
  const PADDLE_INSET: real := 48.0
  const BALL_RADIUS: real := 10.0
  const BALL_SPEED: real := 260.0

  /** How far off the court's long axis a paddle's centre can be, and the ball's. */
  const PADDLE_LIMIT_Y: real := COURT_HALF_HEIGHT - PADDLE_HEIGHT * 0.5
  const BALL_LIMIT_Y: real := COURT_HALF_HEIGHT - BALL_RADIUS

  /** Where the paddles stand, and how near the ball's centre has to come to one on either axis. */
  const PADDLE_X: real := COURT_HALF_WIDTH - PADDLE_INSET
  const REACH_X: real := PADDLE_WIDTH * 0.5 + BALL_RADIUS
  const REACH_Y: real := PADDLE_HEIGHT * 0.5 + BALL_RADIUS

  /** The inner and the outer edge of the left paddle's band. */
  const BAND_INNER: real := REACH_X - PADDLE_X
  const BAND_OUTER: real := -REACH_X - PADDLE_X

  datatype Ball = Ball(x: real, y: real, vx: real, vy: real)

  datatype Paddle = Paddle(x: real, y: real)

  datatype Outcome = Play | LeftScores | RightScores

  function Clamp(value: real, min: real, max: real): real {
    if value < min then min else if value > max then max else value
  }

  /** A paddle after its player's two keys: up and down together cancel, and the clamp is on the result. */
  function Commanded(p: Paddle, up: bool, down: bool, dt: real): Paddle {
    var direction := (if up then -1.0 else 0.0) + (if down then 1.0 else 0.0);
    if direction == 0.0 then p
    else p.(y := Clamp(p.y + direction * PADDLE_SPEED * dt, -PADDLE_LIMIT_Y, PADDLE_LIMIT_Y))
  }

  /** The paddle a joining peer is given, by order of arrival. */
  function Spawned(peers: nat): Paddle {
    Paddle(if peers % 2 == 1 then -PADDLE_X else PADDLE_X, 0.0)
  }

  /** The ball in the middle, heading for the left end (-1) or the right one (1). */
  function Serve(toward: real): Ball {
    Ball(0.0, 0.0, toward * BALL_SPEED * 0.8, BALL_SPEED * 0.6)
  }

  /** Moved on by one tick, and bounced off the top or the bottom wall. */
  function Moved(b: Ball, dt: real): Ball {
    var x, y := b.x + b.vx * dt, b.y + b.vy * dt;
    if y < -BALL_LIMIT_Y || y > BALL_LIMIT_Y then Ball(x, Clamp(y, -BALL_LIMIT_Y, BALL_LIMIT_Y), b.vx, -b.vy)
    else Ball(x, y, b.vx, b.vy)
  }

  predicate OverlapsX(b: Ball, p: Paddle) {
    Abs(b.x - p.x) < REACH_X
  }

  predicate OverlapsY(b: Ball, p: Paddle) {
    Abs(b.y - p.y) < REACH_Y
  }

  predicate Closing(b: Ball, p: Paddle) {
    if p.x < 0.0 then b.vx < 0.0 else b.vx > 0.0
  }

  predicate Hits(b: Ball, p: Paddle) {
    OverlapsX(b, p) && OverlapsY(b, p) && Closing(b, p)
  }

  function Struck(b: Ball, p: Paddle): Ball {
    if Hits(b, p) then
      var offset := (b.y - p.y) / (PADDLE_HEIGHT * 0.5);
      b.(vx := -b.vx, vy := Clamp(offset, -1.0, 1.0) * BALL_SPEED)
    else b
  }

  /** Past the paddles one after the other. */
  function StruckBy(b: Ball, paddles: seq<Paddle>): Ball {
    if paddles == [] then b else Struck(StruckBy(b, paddles[..|paddles| - 1]), paddles[|paddles| - 1])
  }

  function OutcomeOf(b: Ball): Outcome {
    if b.x < -COURT_HALF_WIDTH then RightScores else if b.x > COURT_HALF_WIDTH then LeftScores else Play
  }

  /** The ball itself while it is in play, and else the serve that follows the point. */
  function Returned(b: Ball): Ball {
    match OutcomeOf(b)
    case RightScores => Serve(1.0)
    case LeftScores => Serve(-1.0)
    case Play => b
  }

  /** Where a tick brings the ball before the ends of the court are looked at. */
  function Brought(b: Ball, paddles: seq<Paddle>, dt: real): Ball {
    StruckBy(Moved(b, dt), paddles)
  }

  function Ticked(b: Ball, paddles: seq<Paddle>, dt: real): Ball {
    Returned(Brought(b, paddles, dt))
  }

  function TickOutcome(b: Ball, paddles: seq<Paddle>, dt: real): Outcome {
    OutcomeOf(Brought(b, paddles, dt))
  }

  // ---- What every tick keeps -----------------------------------------------------------------------------------

  predicate Standing(p: Paddle) {
    (p.x == -PADDLE_X || p.x == PADDLE_X) && Abs(p.y) <= PADDLE_LIMIT_Y
  }

  predicate AllStanding(paddles: seq<Paddle>) {
    forall i | 0 <= i < |paddles| :: Standing(paddles[i])
  }

  predicate InCourt(b: Ball) {
    && Abs(b.vx) == 208.0 && Abs(b.vy) <= 260.0
    && Abs(b.x) <= COURT_HALF_WIDTH && Abs(b.y) <= 260.0
  }

  /** No paddle the ball overlaps is being closed on. */
  predicate NoneHit(b: Ball, paddles: seq<Paddle>) {
    forall i | 0 <= i < |paddles| :: OverlapsX(b, paddles[i]) && OverlapsY(b, paddles[i]) ==> !Closing(b, paddles[i])
  }

  lemma CommandsKeepStanding(p: Paddle, up: bool, down: bool, dt: real)
    requires Standing(p)
    ensures Standing(Commanded(p, up, down, dt))
    ensures up == down ==> Commanded(p, up, down, dt) == p
  {
  }

  lemma SpawnedStand(peers: nat)
    ensures Standing(Spawned(peers))
  {
  }

  /** A strike never moves the ball, keeps its speed across, and at most turns it round. */
  lemma {:induction false} StrikesKeep(b: Ball, paddles: seq<Paddle>)
    requires Abs(b.vy) <= 260.0
    ensures var s := StruckBy(b, paddles);
      s.x == b.x && s.y == b.y && (s.vx == b.vx || s.vx == -b.vx) && Abs(s.vy) <= 260.0
  {
    if paddles != [] {
      var before, p := paddles[..|paddles| - 1], paddles[|paddles| - 1];
      StrikesKeep(b, before);
      var offset := (b.y - p.y) / (PADDLE_HEIGHT * 0.5);
      assert -260.0 <= Clamp(offset, -1.0, 1.0) * BALL_SPEED <= 260.0;
    }
  }

  /** The ball cannot be in reach of paddles on both sides, so once turned round it is not turned back. */
  lemma {:induction false} StrikesTurnOnce(b: Ball, paddles: seq<Paddle>)
    requires AllStanding(paddles) && Abs(b.vx) == 208.0 && Abs(b.vy) <= 260.0
    ensures var s := StruckBy(b, paddles);
      && (s.vx == -b.vx <==> exists i | 0 <= i < |paddles| :: Hits(b, paddles[i]))
      && (forall i | 0 <= i < |paddles| :: !Hits(s, paddles[i]))
  {
    StrikesKeep(b, paddles);
    if paddles != [] {
      var before, p := paddles[..|paddles| - 1], paddles[|paddles| - 1];
      StrikesTurnOnce(b, before);
      StrikesKeep(b, before);
      var s := StruckBy(b, before);
      assert forall i | 0 <= i < |before| :: before[i] == paddles[i];
      assert Standing(p);
    }
  }

  /** After every tick the ball is in the court at its usual speed, and no paddle it overlaps is being closed on. */
  lemma TickKeepsCourt(b: Ball, paddles: seq<Paddle>, dt: real)
    requires InCourt(b) && AllStanding(paddles)
    ensures InCourt(Ticked(b, paddles, dt)) && NoneHit(Ticked(b, paddles, dt), paddles)
  {
    var m := Moved(b, dt);
    StrikesKeep(m, paddles);
    StrikesTurnOnce(m, paddles);
    var s := StruckBy(m, paddles);
    assert forall i | 0 <= i < |paddles| :: Standing(paddles[i]) && !Hits(s, paddles[i]);
  }

  // ---- What one strike, one move and one command do ---------------------------------------------------------------

  /**
   * Where the ball hits the paddle steers it: above its middle upwards, below it downwards, the more the farther out,
   * and at full speed from the paddle's ends on.
   */
  lemma StrikeSteers(b: Ball, p: Paddle)
    requires Hits(b, p)
    ensures var s, d := Struck(b, p), b.y - p.y;
      && s.x == b.x && s.y == b.y && s.vx == -b.vx
      && (s.vy < 0.0 <==> d < 0.0) && (s.vy > 0.0 <==> d > 0.0)
      && (Abs(s.vy) == 260.0 <==> Abs(d) >= 48.0)
      && (Abs(d) <= 48.0 ==> s.vy * 48.0 == 260.0 * d)
  {
    var offset := (b.y - p.y) / (PADDLE_HEIGHT * 0.5);
    assert offset * 48.0 == b.y - p.y;
  }

  /** Of two hits of one paddle within its height the lower one sends the ball off more steeply downwards. */
  lemma LowerSteersLower(b: Ball, c: Ball, p: Paddle)
    requires Hits(b, p) && Hits(c, p) && b.y < c.y && Abs(b.y - p.y) <= 48.0 && Abs(c.y - p.y) <= 48.0
    ensures Struck(b, p).vy < Struck(c, p).vy
  {
    StrikeSteers(b, p);
    StrikeSteers(c, p);
  }

  /** Of several paddles the first that is hit, in their order, decides; with none hit the ball goes on as it was. */
  lemma {:induction false} FirstHitDecides(b: Ball, paddles: seq<Paddle>)
    requires AllStanding(paddles) && Abs(b.vx) == 208.0 && Abs(b.vy) <= 260.0
    ensures (forall i | 0 <= i < |paddles| :: !Hits(b, paddles[i])) ==> StruckBy(b, paddles) == b
    ensures forall i | 0 <= i < |paddles| && Hits(b, paddles[i]) && (forall j | 0 <= j < i :: !Hits(b, paddles[j])) ::
      StruckBy(b, paddles) == Struck(b, paddles[i])
  {
    if paddles != [] {
      var before, last := paddles[..|paddles| - 1], paddles[|paddles| - 1];
      assert forall i | 0 <= i < |before| :: before[i] == paddles[i];
      FirstHitDecides(b, before);
      StrikesTurnOnce(b, paddles);
      StrikesKeep(b, before);
      StrikesTurnOnce(b, before);
      assert Standing(last);
      forall i | 0 <= i < |paddles| && Hits(b, paddles[i]) && (forall j | 0 <= j < i :: !Hits(b, paddles[j]))
        ensures StruckBy(b, paddles) == Struck(b, paddles[i])
      {
        if i < |before| {
          assert Hits(b, before[i]);
          assert !Hits(StruckBy(b, before), last);
        }
      }
    }
  }

  /** The ball, ten either way of its centre, and the paddle, eight by forty-eight either way of its own, overlap. */
  lemma OverlapIsContact(b: Ball, p: Paddle)
    ensures OverlapsX(b, p) <==> exists x: real :: Near(x, b.x, 10.0) && Near(x, p.x, 8.0)
    ensures OverlapsY(b, p) <==> exists y: real :: Near(y, b.y, 10.0) && Near(y, p.y, 48.0)
  {
    if OverlapsX(b, p) {
      var x := (8.0 * b.x + 10.0 * p.x) / 18.0;
      assert Near(x, b.x, 10.0) && Near(x, p.x, 8.0);
    }
    if OverlapsY(b, p) {
      var y := (48.0 * b.y + 10.0 * p.y) / 58.0;
      assert Near(y, b.y, 10.0) && Near(y, p.y, 48.0);
    }
  }

  predicate Near(a: real, centre: real, reach: real) {
    Abs(a - centre) < reach
  }

  /** A move takes the ball straight on for the tick, or to the wall it would have crossed, which sends it back. */
  lemma WallSendsBack(b: Ball, dt: real)
    ensures var m, y := Moved(b, dt), b.y + b.vy * dt;
      && m.x == b.x + b.vx * dt && m.vx == b.vx
      && (Abs(y) <= 260.0 ==> m.y == y && m.vy == b.vy)
      && (y > 260.0 ==> m.y == 260.0 && m.vy == -b.vy)
      && (y < -260.0 ==> m.y == -260.0 && m.vy == -b.vy)
      && (InCourt(b) && dt >= 0.0 && y > 260.0 ==> m.vy < 0.0) && (InCourt(b) && dt >= 0.0 && y < -260.0 ==> m.vy > 0.0)
  {
    if dt >= 0.0 {
      DriftGoesTheSameWay(b.vy, dt);
    }
  }

  lemma DriftGoesTheSameWay(v: real, dt: real)
    requires dt >= 0.0
    ensures v >= 0.0 ==> v * dt >= 0.0
    ensures v <= 0.0 ==> v * dt <= 0.0
  {
  }

  /** Up and down alone move a paddle by 320 a second towards their end, and at most to the clamp there. */
  lemma CommandMoves(p: Paddle, dt: real)
    requires Standing(p) && dt >= 0.0
    ensures Commanded(p, true, false, dt) == p.(y := if p.y - 320.0 * dt >= -222.0 then p.y - 320.0 * dt else -222.0)
    ensures Commanded(p, false, true, dt) == p.(y := if p.y + 320.0 * dt <= 222.0 then p.y + 320.0 * dt else 222.0)
    ensures Commanded(p, true, true, dt) == Commanded(p, false, false, dt) == p
  {
    assert -1.0 * PADDLE_SPEED * dt == -(320.0 * dt);
    assert 1.0 * PADDLE_SPEED * dt == 320.0 * dt;
  }

  /** The first peer's paddle is on the left, where the ball is served first, and each next one faces the one before. */
  lemma PeersFaceEachOther(peers: nat)
    ensures Spawned(1) == Paddle(-432.0, 0.0) && Serve(-1.0).vx < 0.0
    ensures Spawned(peers + 1) == MirrorPaddle(Spawned(peers))
  {
  }

  // ---- The two ends are alike -----------------------------------------------------------------------------------

  function Mirror(b: Ball): Ball {
    Ball(-b.x, b.y, -b.vx, b.vy)
  }

  function MirrorPaddle(p: Paddle): Paddle {
    Paddle(-p.x, p.y)
  }

  function MirrorPaddles(paddles: seq<Paddle>): (mirrored: seq<Paddle>)
    ensures |mirrored| == |paddles|
    ensures AllStanding(paddles) ==> AllStanding(mirrored)
  {
    seq(|paddles|, i requires 0 <= i < |paddles| => MirrorPaddle(paddles[i]))
  }

  function MirrorOutcome(o: Outcome): Outcome {
    match o
    case Play => Play
    case LeftScores => RightScores
    case RightScores => LeftScores
  }

  lemma {:induction false} StrikesMirror(b: Ball, paddles: seq<Paddle>)
    requires AllStanding(paddles)
    ensures StruckBy(Mirror(b), MirrorPaddles(paddles)) == Mirror(StruckBy(b, paddles))
  {
    if paddles != [] {
      var before, p := paddles[..|paddles| - 1], paddles[|paddles| - 1];
      assert MirrorPaddles(paddles)[..|paddles| - 1] == MirrorPaddles(before);
      StrikesMirror(b, before);
      assert Standing(p);
    }
  }

  lemma NegatedProduct(a: real, b: real)
    ensures (-a) * b == -(a * b)
  {
  }

  lemma MoveMirrors(b: Ball, dt: real)
    ensures Moved(Mirror(b), dt) == Mirror(Moved(b, dt))
  {
    NegatedProduct(b.vx, dt);
    var x, x' := b.x + b.vx * dt, -b.x + (-b.vx) * dt;
    assert x' == -x;
  }

  /** Swapping the ends of the court swaps the players and nothing else. */
  lemma TickMirrors(b: Ball, paddles: seq<Paddle>, dt: real)
    requires AllStanding(paddles)
    ensures Ticked(Mirror(b), MirrorPaddles(paddles), dt) == Mirror(Ticked(b, paddles, dt))
    ensures TickOutcome(Mirror(b), MirrorPaddles(paddles), dt) == MirrorOutcome(TickOutcome(b, paddles, dt))
  {
    MoveMirrors(b, dt);
    hide Moved, StruckBy;
    StrikesMirror(Moved(b, dt), paddles);
  }
}
