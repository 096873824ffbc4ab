/**
 * The App component as an object: its state variables are fields. The
 * interval callback (`Tick`), the tap handler (`Jump`) and the start button
 * (`StartGame`) update them in place; each is proved to perform its transition
 * in `Rules` (`Tick`, `Jump`, `Start`) and to keep `Valid()`. The `setPipes` updater
 * (`UpdatePipes`) changes no field: it returns the new pipe list and the number
 * of queued score increments, proved equal to `Pipes.StepPipes` and
 * `Pipes.Crossings`. The high-score effect (`RecordHighScore`) updates only the
 * high score, to `Rules.HighScoreAfter` of the current flag and score.
 */
module Component {
  import opened Config
  import opened Pipes
  import opened Collision
  import Rules

  class App {
    const screen: Screen
    var birdY: real
    var velocity: real
    var pipes: seq<Pipe>
    var score: nat
    var highScore: int
    var gameOver: bool
    var started: bool

    /** The fields as one value. */
    function Snapshot(): Rules.State
      reads this
    {
      Rules.State(birdY, velocity, pipes, score, highScore, gameOver, started)
    }

    /** The fields form a reachable state of the game on a valid screen. */
    ghost predicate Valid()
      reads this
    {
      screen.Valid() && Rules.WellFormed(Snapshot(), screen)
    }

    /** The first render: the `useState` initial values. */
    constructor (screen: Screen)
      requires screen.Valid()
      ensures this.screen == screen && Valid()
      ensures Snapshot() == Rules.Initial(screen)
    {
      this.screen := screen;
      birdY := screen.height / 2.0;
      velocity := 0.0;
      pipes := [];
      score := 0;
      highScore := 0;
      gameOver := false;
      started := false;
      new;
      Rules.InitialWellFormed(screen);
    }

    /**
     * One run of the interval callback. The bird moves by the velocity from
     * before the tick, the pipe list takes one updater step and the score takes
     * its queued increments, and the collision test uses the bird and the pipes
     * from before the tick; a crash stops the game and runs the high-score effect.
     */
    method Tick(rand: real)
      requires Valid() && 0.0 <= rand < 1.0
      modifies this
      ensures Valid()
      ensures Snapshot() == Rules.Tick(old(Snapshot()), screen, rand)
    {
      if !started || gameOver {
        return;
      }
      ghost var before := Snapshot();
      var prevY, prevVelocity, prevPipes := birdY, velocity, pipes;
      var crashed := OnGround(prevY, screen) || HitsAnyPipe(prevY, prevPipes, screen);
      var updated, gained := UpdatePipes(prevPipes, rand);
      Rules.TickParts(before, screen, rand, crashed, updated, gained);
      velocity := prevVelocity + GRAVITY;
      birdY := prevY + prevVelocity;
      pipes := updated;
      score := score + gained;
      if crashed {
        gameOver := true;
        started := false;
        RecordHighScore();
      }
      assert Snapshot() == Rules.Tick(before, screen, rand);
      Rules.TickKeepsWellFormed(before, screen, rand);
    }

    /**
     * The `setPipes` updater: every pipe is moved and tested in one pass, and
     * `gained` counts the queued `setScore` increments, one per pipe that crosses
     * the centre; off-screen pipes are then dropped, and a pipe is appended at the
     * right edge when the list is empty or its newest pipe is far enough left.
     */
    method UpdatePipes(prevPipes: seq<Pipe>, rand: real) returns (updated: seq<Pipe>, gained: nat)
      requires screen.Valid() && 0.0 <= rand < 1.0
      ensures updated == StepPipes(prevPipes, screen, rand)
      ensures gained == Crossings(prevPipes, screen)
    {
      updated, gained := [], 0;
      var i := 0;
      while i < |prevPipes|
        invariant 0 <= i <= |prevPipes|
        invariant updated == AdvanceAll(prevPipes[..i], screen)
        invariant gained == Crossings(prevPipes[..i], screen)
      {
        var pipe := prevPipes[i];
        var moved := pipe.(x := pipe.x - PIPE_SPEED);
        if !pipe.passed && moved.x + PIPE_WIDTH < screen.Centre() {
          gained := gained + 1;
          moved := moved.(passed := true);
        }
        assert moved == Advance(pipe, screen);
        assert prevPipes[..i + 1][..i] == prevPipes[..i];
        updated := updated + [moved];
        i := i + 1;
      }
      assert prevPipes[..i] == prevPipes;

      updated := OnScreen(updated);
      if NeedsSpawn(updated, screen) {
        updated := updated + [SpawnedPipe(screen, rand)];
      }
    }

    /** The effect on `gameOver`: a finished game with a better score raises the high score. */
    method RecordHighScore()
      modifies this`highScore
      ensures highScore == Rules.HighScoreAfter(gameOver, score, old(highScore))
    {
      if gameOver && score > highScore {
        highScore := score;
      }
    }

    /** The tap handler: only a running game reacts, by setting the velocity to the jump force. */
    method Jump()
      requires Valid()
      modifies this`velocity
      ensures Valid()
      ensures Snapshot() == Rules.Jump(old(Snapshot()))
    {
      if !started {
        return;
      }
      if !gameOver {
        velocity := JUMP_FORCE;
      }
    }

    /** The start and restart buttons: a fresh game with one pipe at the right edge. */
    method StartGame(rand: real)
      requires Valid() && 0.0 <= rand < 1.0
      modifies this
      ensures Valid()
      ensures Snapshot() == Rules.Start(old(Snapshot()), screen, rand)
    {
      ghost var before := Snapshot();
      started := true;
      gameOver := false;
      birdY := screen.height / 2.0;
      velocity := 0.0;
      score := 0;
      pipes := [SpawnedPipe(screen, rand)];
      Rules.StartKeepsWellFormed(before, screen, rand);
    }
  }
}
