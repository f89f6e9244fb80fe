/** The server's state and the methods that change it. */
module PongServer {
  import opened PongMatch
  import opened PongRules
  import opened Reals

  class Server {
    var ball: Ball
    var paddles: seq<Paddle>
    /** The left player's points, then the right player's. */
    const scores: array<nat>
    ghost var serves: nat

    ghost predicate Valid()
      reads this
    {
      scores.Length == 2 && AllStanding(paddles)
    }

    ghost function State(): Game
      requires Valid()
      reads this, scores
    {
      Game(ball, scores[0], scores[1], serves)
    }

    constructor ()
      ensures Valid() && fresh(scores) && State() == OPENING && paddles == []
    {
      scores := new nat[2](_ => 0);
      ball := Serve(-1.0);
      paddles := [];
      serves := 1;
    }

    /** An odd number of peers puts the new paddle on the left, an even one on the right. */
    method SpawnPlayer(peers: nat)
      requires Valid()
      modifies this`paddles
      ensures Valid() && paddles == old(paddles) + [Spawned(peers)]
    {
      SpawnedStand(peers);
      var x := if peers % 2 == 1 then -(COURT_HALF_WIDTH - PADDLE_INSET) else COURT_HALF_WIDTH - PADDLE_INSET;
      paddles := paddles + [Paddle(x, 0.0)];
    }

    /** Moves the player's own paddle by the two keys, inside the court. */
    method ApplyCommand(i: nat, up: bool, down: bool, dt: real)
      requires Valid() && i < |paddles|
      modifies this`paddles
      ensures Valid() && paddles == old(paddles)[i := Commanded(old(paddles)[i], up, down, dt)]
    {
      CommandsKeepStanding(paddles[i], up, down, dt);
      var direction := 0.0;
      if up {
        direction := direction - 1.0;
      }
      if down {
        direction := direction + 1.0;
      }
      if direction == 0.0 {
        return;
      }
      var p := paddles[i];
      paddles := paddles[i := p.(y := Clamp(p.y + direction * PADDLE_SPEED * dt, -PADDLE_LIMIT_Y, PADDLE_LIMIT_Y))];
    }

    /** The ball against each paddle in turn. */
    method BouncePaddles()
      modifies this`ball
      ensures ball == StruckBy(old(ball), paddles)
    {
      for i := 0 to |paddles|
        invariant ball == StruckBy(old(ball), paddles[..i])
      {
        assert paddles[..i + 1][..i] == paddles[..i];
        var paddle := paddles[i];
        var overlapsX := Abs(ball.x - paddle.x) < PADDLE_WIDTH * 0.5 + BALL_RADIUS;
        var overlapsY := Abs(ball.y - paddle.y) < PADDLE_HEIGHT * 0.5 + BALL_RADIUS;
        if !overlapsX || !overlapsY {
          continue;
        }
        var closing := if paddle.x < 0.0 then ball.vx < 0.0 else ball.vx > 0.0;
        if !closing {
          continue;
        }
        ball := ball.(vx := -ball.vx);
        var offset := (ball.y - paddle.y) / (PADDLE_HEIGHT * 0.5);
        ball := ball.(vy := Clamp(offset, -1.0, 1.0) * BALL_SPEED);
      }
      assert paddles[..|paddles|] == paddles;
    }

    /** One tick of the ball. */
    method BallUpdate(dt: real)
      requires Valid()
      modifies this`ball, this`serves, scores
      ensures Valid() && State() == Played(old(State()), Tick(dt, paddles))
    {
      var limitY := COURT_HALF_HEIGHT - BALL_RADIUS;
      var x, y := ball.x + ball.vx * dt, ball.y + ball.vy * dt;
      ball := ball.(x := x, y := y);
      if ball.y < -limitY || ball.y > limitY {
        ball := ball.(y := Clamp(ball.y, -limitY, limitY));
        ball := ball.(vy := -ball.vy);
      }
      assert ball == Moved(old(ball), dt);
      BouncePaddles();
      if ball.x < -COURT_HALF_WIDTH {
        scores[1] := scores[1] + 1;
        ball := Serve(1.0);
        serves := serves + 1;
      } else if ball.x > COURT_HALF_WIDTH {
        scores[0] := scores[0] + 1;
        ball := Serve(-1.0);
        serves := serves + 1;
      }
    }
  }
}
