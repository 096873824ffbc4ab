/** Game constants of the App component and the screen it is laid out on. */
module Config {

  /** Added to the bird's velocity on every tick. */
  const GRAVITY: real := 1.5
  /** The velocity a tap sets (negative is upwards). */
  const JUMP_FORCE: real := -15.0
  const PIPE_WIDTH: real := 50.0
  /** Vertical opening between the upper and the lower pipe body. */
  const PIPE_GAP: real := 300.0
  /** Leftward shift of every pipe on every tick. */
  const PIPE_SPEED: real := 5.0
  const BIRD_WIDTH: real := 50.0
  const BIRD_HEIGHT: real := 64.0
  /** Height of the ground band at the bottom of the screen. */
  const GROUND_HEIGHT: real := 80.0
  /** Margin kept free below the lowest possible gap when a pipe is spawned. */
  const SPAWN_MARGIN: real := 100.0

  /** The screen size, read once at start-up and fixed afterwards. */
  datatype Screen = Screen(width: real, height: real) {

    /** A screen on which the game can be laid out: some width, and room for a gap plus the margin. */
    predicate Valid() {
      width > 0.0 && height > PIPE_GAP + SPAWN_MARGIN
    }

    /** Minimal horizontal distance between consecutive pipes. */
    function Spacing(): real {
      width / 1.5
    }

    /** The bird's fixed horizontal centre, which is also the scoring line. */
    function Centre(): real {
      width / 2.0
    }

    /** Spawned gap heights are drawn from [0, HeightRange()). */
    function HeightRange(): real {
      height - PIPE_GAP - SPAWN_MARGIN
    }
  }
}
