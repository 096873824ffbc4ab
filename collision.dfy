/**
 * The collision test of the game loop: the bird's box against the two bodies of
 * every pipe (the `pipes.some(...)` callback), and the ground threshold.
 * There is no test against the top of the screen.
 */
module Collision {
  import opened Config
  import opened Pipes

  /** The bird's box is fixed horizontally, centred on the screen. */
  function BirdLeft(sc: Screen): real {
    sc.Centre() - BIRD_WIDTH / 2.0
  }

  /** The right edge of the bird's box. */
  function BirdRight(sc: Screen): real {
    sc.Centre() + BIRD_WIDTH / 2.0
  }

  /** The bird and the pipe overlap horizontally (strictly: touching edges do not count). */
  predicate OverlapsX(p: Pipe, sc: Screen) {
    BirdRight(sc) > p.x && BirdLeft(sc) < p.x + PIPE_WIDTH
  }

  /** The bird's top is above the top of the gap while overlapping the pipe. */
  predicate HitsTopPipe(birdY: real, p: Pipe, sc: Screen) {
    OverlapsX(p, sc) && birdY < p.height
  }

  /** The bird's bottom is below the bottom of the gap while overlapping the pipe. */
  predicate HitsBottomPipe(birdY: real, p: Pipe, sc: Screen) {
    OverlapsX(p, sc) && birdY + BIRD_HEIGHT > p.height + PIPE_GAP
  }

  /** The `some` callback for one pipe. */
  predicate HitsPipe(birdY: real, p: Pipe, sc: Screen) {
    HitsTopPipe(birdY, p, sc) || HitsBottomPipe(birdY, p, sc)
  }

  /** `pipes.some(...)`: scans the list from the front until a pipe is hit. */
  predicate HitsAnyPipe(birdY: real, ps: seq<Pipe>, sc: Screen) {
    |ps| > 0 && (HitsPipe(birdY, ps[0], sc) || HitsAnyPipe(birdY, ps[1..], sc))
  }

  /** The bird's position has reached the ground band. */
  predicate OnGround(birdY: real, sc: Screen) {
    birdY >= sc.height - GROUND_HEIGHT - BIRD_HEIGHT
  }

  /** The condition that ends the game. */
  predicate Crashes(birdY: real, ps: seq<Pipe>, sc: Screen) {
    OnGround(birdY, sc) || HitsAnyPipe(birdY, ps, sc)
  }

  /**
   * A pipe is hit exactly when the bird overlaps it horizontally and the bird's
   * vertical extent [birdY, birdY + 64] does not lie within the gap [height, height + 300].
   */
  lemma HitsPipeIff(birdY: real, p: Pipe, sc: Screen)
    ensures HitsPipe(birdY, p, sc)
            <==> OverlapsX(p, sc) && !(p.height <= birdY && birdY + BIRD_HEIGHT <= p.height + PIPE_GAP)
  {
  }

  /** The scan finds a hit exactly when some pipe of the list is hit. */
  lemma {:induction false} HitsAnyPipeIff(birdY: real, ps: seq<Pipe>, sc: Screen)
    ensures HitsAnyPipe(birdY, ps, sc) <==> exists i :: 0 <= i < |ps| && HitsPipe(birdY, ps[i], sc)
  {
    if ps != [] {
      HitsAnyPipeIff(birdY, ps[1..], sc);
      if HitsAnyPipe(birdY, ps[1..], sc) {
        var i :| 0 <= i < |ps[1..]| && HitsPipe(birdY, ps[1..][i], sc);
        assert HitsPipe(birdY, ps[i + 1], sc);
      }
      if exists i :: 0 <= i < |ps| && HitsPipe(birdY, ps[i], sc) {
        var i :| 0 <= i < |ps| && HitsPipe(birdY, ps[i], sc);
        if i > 0 {
          assert HitsPipe(birdY, ps[1..][i - 1], sc);
        }
      }
    }
  }

  /** The horizontal overlap test, as a window for the pipe's left edge around the bird. */
  lemma OverlapsXIff(p: Pipe, sc: Screen)
    ensures OverlapsX(p, sc) <==> sc.Centre() - 75.0 < p.x < sc.Centre() + 25.0
  {
  }

  /**
   * There is no ceiling: away from every pipe, a bird at any height above the
   * ground, however far above the screen, does not end the game.
   */
  lemma NoCeiling(birdY: real, ps: seq<Pipe>, sc: Screen)
    requires forall i :: 0 <= i < |ps| ==> !OverlapsX(ps[i], sc)
    ensures Crashes(birdY, ps, sc) <==> OnGround(birdY, sc)
  {
    HitsAnyPipeIff(birdY, ps, sc);
  }

  /** The ground threshold is inclusive: the game ends at H - 144 and not above it. */
  lemma GroundBoundary(ps: seq<Pipe>, sc: Screen)
    ensures Crashes(sc.height - GROUND_HEIGHT - BIRD_HEIGHT, ps, sc)
    ensures forall y :: y < sc.height - GROUND_HEIGHT - BIRD_HEIGHT ==> !OnGround(y, sc)
  {
  }

  /** A bird whose box lies within every overlapping pipe's gap, above the ground, does not crash. */
  lemma ThroughTheGap(birdY: real, ps: seq<Pipe>, sc: Screen)
    requires !OnGround(birdY, sc)
    requires forall i :: 0 <= i < |ps| && OverlapsX(ps[i], sc) ==>
      ps[i].height <= birdY && birdY + BIRD_HEIGHT <= ps[i].height + PIPE_GAP
    ensures !Crashes(birdY, ps, sc)
  {
    HitsAnyPipeIff(birdY, ps, sc);
  }
}
