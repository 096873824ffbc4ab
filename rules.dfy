/**
 * The App component's game state and its transitions as pure functions of the
 * previous state: one tick of the game loop, a tap (`jump`), `startGame`, and the
 * high-score rule applied when the game ends.
 *
 * A tick reads the state of the previous render, so the bird moves by the
 * velocity from before the tick and the collision test sees the bird and the
 * pipes from before the tick.
 */
module Rules {
  import opened Config
  import opened Pipes
  import opened Collision

  /** The seven state variables of the component that the game logic uses. */
  datatype State = State(
    birdY: real,
    velocity: real,
    pipes: seq<Pipe>,
    score: nat,
    highScore: int,
    gameOver: bool,
    started: bool)

  /** The state of the first render. */
  function Initial(sc: Screen): (s: State)
    ensures !s.started && !s.gameOver && s.pipes == [] && s.score == 0 && s.highScore == 0
    ensures s.birdY == sc.height / 2.0 && s.velocity == 0.0
  {
    State(sc.height / 2.0, 0.0, [], 0, 0, false, false)
  }

  /** The game loop is installed only in this state. */
  predicate Active(s: State) {
    s.started && !s.gameOver
  }

  /** The effect that runs when `gameOver` changes: raise the high score to a better final score. */
  function HighScoreAfter(gameOver: bool, score: int, highScore: int): (h: int)
    ensures h >= highScore
    ensures h == highScore || h == score
    ensures gameOver ==> h >= score
    ensures !gameOver ==> h == highScore
  {
    if gameOver && score > highScore then score else highScore
  }

  /** One tick of the game loop; `rand` is the draw a spawn would use. */
  function Tick(s: State, sc: Screen, rand: real): State
    requires sc.Valid() && 0.0 <= rand < 1.0
  {
    if !Active(s) then s
    else
      var crashed := Crashes(s.birdY, s.pipes, sc);
      var score := s.score + Crossings(s.pipes, sc);
      State(
        s.birdY + s.velocity,
        s.velocity + GRAVITY,
        StepPipes(s.pipes, sc, rand),
        score,
        HighScoreAfter(crashed, score, s.highScore),
        s.gameOver || crashed,
        s.started && !crashed)
  }

  /** A running tick in terms of its parts: the crash test, the updater step and the queued increments. */
  lemma TickParts(s: State, sc: Screen, rand: real, crashed: bool, pipes: seq<Pipe>, gained: nat)
    requires sc.Valid() && 0.0 <= rand < 1.0 && Active(s)
    requires crashed == Crashes(s.birdY, s.pipes, sc)
    requires pipes == StepPipes(s.pipes, sc, rand) && gained == Crossings(s.pipes, sc)
    ensures Tick(s, sc, rand) == State(s.birdY + s.velocity, s.velocity + GRAVITY, pipes, s.score + gained,
      HighScoreAfter(crashed, s.score + gained, s.highScore), crashed, !crashed)
  {
  }

  /** A tap on the screen. */
  function Jump(s: State): State {
    if !s.started then s
    else if !s.gameOver then s.(velocity := JUMP_FORCE)
    else s
  }

  /** The start and restart buttons. */
  function Start(s: State, sc: Screen, rand: real): State
    requires sc.Valid() && 0.0 <= rand < 1.0
  {
    s.(started := true, gameOver := false, birdY := sc.height / 2.0, velocity := 0.0, score := 0,
       pipes := [SpawnedPipe(sc, rand)])
  }

  /**
   * What holds of every reachable state: the pipe list is a valid stream whose
   * pipes are exactly one spawn period apart, the game is never both running and over, there are pipes once a game has begun,
   * and the high score has caught up with the score of a finished game.
   */
  ghost predicate WellFormed(s: State, sc: Screen) {
    ValidStream(s.pipes, sc)
    && Periodic(s.pipes, sc)
    && !(s.started && s.gameOver)
    && ((s.started || s.gameOver) ==> |s.pipes| > 0)
    && s.highScore >= 0
    && (s.gameOver ==> s.highScore >= s.score)
  }

  /** Ticks only do something while the game runs. */
  lemma TickWhenInactive(s: State, sc: Screen, rand: real)
    requires sc.Valid() && 0.0 <= rand < 1.0
    requires !Active(s)
    ensures Tick(s, sc, rand) == s
  {
  }

  /**
   * One running tick: gravity is added to the velocity, the bird moves by the
   * velocity from before the tick, the pipes take one updater step, and the score
   * rises by exactly the number of pipes whose `passed` flag flipped, so it never falls.
   */
  lemma TickMoves(s: State, sc: Screen, rand: real)
    requires sc.Valid() && 0.0 <= rand < 1.0
    requires Active(s)
    ensures var t := Tick(s, sc, rand);
      t.velocity == s.velocity + GRAVITY && t.birdY == s.birdY + s.velocity
      && t.pipes == StepPipes(s.pipes, sc, rand)
      && t.score == s.score + Flips(s.pipes, AdvanceAll(s.pipes, sc))
      && t.score >= s.score
  {
    CrossingsAreFlips(s.pipes, sc);
  }

  /**
   * A running tick ends the game exactly when the bird from before the tick is on
   * the ground or hits a pipe from before the tick; the game then stops and the
   * high score becomes the larger of the old high score and the final score.
   */
  lemma TickEnds(s: State, sc: Screen, rand: real)
    requires sc.Valid() && 0.0 <= rand < 1.0
    requires Active(s)
    ensures var t := Tick(s, sc, rand);
      (t.gameOver <==> Crashes(s.birdY, s.pipes, sc))
      && (t.gameOver <==> !t.started)
      && (t.gameOver ==> t.highScore == if t.score > s.highScore then t.score else s.highScore)
      && (!t.gameOver ==> t.highScore == s.highScore)
  {
  }

  /** A tap sets the velocity to the jump force while the game runs, and changes nothing else or nothing at all. */
  lemma JumpEffect(s: State)
    ensures Active(s) ==> Jump(s) == s.(velocity := JUMP_FORCE)
    ensures !Active(s) ==> Jump(s) == s
  {
  }

  /**
   * Starting resets the bird, the score and the flags, puts a single unscored
   * pipe at the right edge, and keeps the high score.
   */
  lemma StartResets(s: State, sc: Screen, rand: real)
    requires sc.Valid() && 0.0 <= rand < 1.0
    ensures var t := Start(s, sc, rand);
      Active(t) && t.birdY == sc.height / 2.0 && t.velocity == 0.0 && t.score == 0
      && t.highScore == s.highScore && |t.pipes| == 1
      && t.pipes[0].x == sc.width && !t.pipes[0].passed
      && 0.0 <= t.pipes[0].height < sc.HeightRange()
  {
  }

  /** The first render satisfies the invariant. */
  lemma InitialWellFormed(sc: Screen)
    ensures WellFormed(Initial(sc), sc)
  {
  }

  /** Starting from a well-formed state (a fresh component, or a finished game) gives a well-formed state. */
  lemma StartKeepsWellFormed(s: State, sc: Screen, rand: real)
    requires sc.Valid() && 0.0 <= rand < 1.0
    requires WellFormed(s, sc)
    ensures WellFormed(Start(s, sc, rand), sc)
  {
    SpawnedPeriodic(sc, rand);
  }

  /** A tap keeps the invariant. */
  lemma JumpKeepsWellFormed(s: State, sc: Screen)
    requires WellFormed(s, sc)
    ensures WellFormed(Jump(s), sc)
  {
  }

  /** A tick keeps the invariant, including the exact spawn period of the pipe stream. */
  lemma TickKeepsWellFormed(s: State, sc: Screen, rand: real)
    requires sc.Valid() && 0.0 <= rand < 1.0
    requires WellFormed(s, sc)
    ensures WellFormed(Tick(s, sc, rand), sc)
  {
    if Active(s) {
      StepPipesKeepsStream(s.pipes, sc, rand);
      StepPipesKeepsPeriod(s.pipes, sc, rand);
      StepPipesSpawn(s.pipes, sc, rand);
    }
  }

  /**
   * Score accounting for a running tick: score plus unscored pipes grows by one
   * exactly when a pipe is spawned, so each pipe adds exactly one point over its life
   * and none twice.
   */
  lemma TickAccounting(s: State, sc: Screen, rand: real)
    requires sc.Valid() && 0.0 <= rand < 1.0
    requires Active(s)
    ensures var t := Tick(s, sc, rand);
      var spawned := if |t.pipes| > |OnScreen(AdvanceAll(s.pipes, sc))| then 1 else 0;
      t.score + Unpassed(t.pipes) == s.score + Unpassed(s.pipes) + spawned
  {
    StepPipesAccounting(s.pipes, sc, rand);
    StepPipesSpawn(s.pipes, sc, rand);
  }

  /** A sequence of ticks, one draw each. */
  function Run(s: State, sc: Screen, rands: seq<real>): State
    requires sc.Valid()
    requires forall i :: 0 <= i < |rands| ==> 0.0 <= rands[i] < 1.0
    decreases |rands|
  {
    if rands == [] then s else Run(Tick(s, sc, rands[0]), sc, rands[1..])
  }

  /** A finished (or not yet started) game stays exactly as it is however many ticks arrive. */
  lemma {:induction false} RunWhenInactive(s: State, sc: Screen, rands: seq<real>)
    requires sc.Valid()
    requires forall i :: 0 <= i < |rands| ==> 0.0 <= rands[i] < 1.0
    requires !Active(s)
    ensures Run(s, sc, rands) == s
    decreases |rands|
  {
    if rands != [] {
      RunWhenInactive(Tick(s, sc, rands[0]), sc, rands[1..]);
    }
  }

  /** Over any run the score never falls and, once the game is over, neither it nor anything else changes. */
  lemma {:induction false} RunScoreMonotone(s: State, sc: Screen, rands: seq<real>)
    requires sc.Valid()
    requires forall i :: 0 <= i < |rands| ==> 0.0 <= rands[i] < 1.0
    ensures Run(s, sc, rands).score >= s.score
    ensures s.gameOver ==> Run(s, sc, rands) == s
    decreases |rands|
  {
    if rands != [] {
      RunScoreMonotone(Tick(s, sc, rands[0]), sc, rands[1..]);
    }
    if s.gameOver {
      RunWhenInactive(s, sc, rands);
    }
  }

  /** Bird height after `n` ticks of pure gravity, using the velocity from before each tick. */
  function Fall(y: real, v: real, n: nat): real
    decreases n
  {
    if n == 0 then y else Fall(y + v, v + GRAVITY, n - 1)
  }

  /** Closed form of the fall: y + n*v + 1.5 * n*(n-1)/2. */
  lemma {:induction false} FallClosedForm(y: real, v: real, n: nat)
    ensures Fall(y, v, n) == y + (n as real) * v + GRAVITY * (n as real) * ((n as real) - 1.0) / 2.0
    decreases n
  {
    if n > 0 {
      FallClosedForm(y + v, v + GRAVITY, n - 1);
    }
  }

  /**
   * A run of ticks without taps that leaves the game running moved the bird by
   * pure gravity: its height is the fall from the starting height and velocity,
   * and its velocity grew by 1.5 per tick.
   */
  lemma {:induction false} RunFalls(s: State, sc: Screen, rands: seq<real>)
    requires sc.Valid()
    requires forall i :: 0 <= i < |rands| ==> 0.0 <= rands[i] < 1.0
    requires Active(Run(s, sc, rands))
    ensures Run(s, sc, rands).birdY == Fall(s.birdY, s.velocity, |rands|)
    ensures Run(s, sc, rands).velocity == s.velocity + (|rands| as real) * GRAVITY
    decreases |rands|
  {
    if rands != [] {
      if !Active(s) {
        RunWhenInactive(s, sc, rands);
      }
      RunFalls(Tick(s, sc, rands[0]), sc, rands[1..]);
    }
  }

  /** The first tick after a start leaves the bird where it was, because it moves by the reset velocity 0. */
  lemma FirstTickHoldsHeight(s: State, sc: Screen, r1: real, r2: real)
    requires sc.Valid() && 0.0 <= r1 < 1.0 && 0.0 <= r2 < 1.0
    ensures Tick(Start(s, sc, r1), sc, r2).birdY == sc.height / 2.0
    ensures Tick(Start(s, sc, r1), sc, r2).velocity == GRAVITY
  {
  }
}
