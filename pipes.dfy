/**
 * The pipe stream of the game loop: the per-pipe move and scoring test of the
 * `map`, the off-screen `filter` and the spawn rule, as pure functions, with the
 * invariants the stream keeps from tick to tick.
 *
 * The list is kept in spawn order: index 0 is the oldest pipe, which is also the
 * one furthest to the left, so `x` increases along the list.
 */
module Pipes {
  import opened Config

  /** One obstacle: left edge `x`, the top of its gap `height`, and whether it has been scored. */
  datatype Pipe = Pipe(x: real, height: real, passed: bool)

  /** This tick's move takes a pipe that has not been scored across the scoring line. */
  predicate Crosses(p: Pipe, sc: Screen) {
    !p.passed && p.x - PIPE_SPEED + PIPE_WIDTH < sc.Centre()
  }

  /** The `map` callback: shift the pipe left and mark it passed when its trailing edge is left of centre. */
  function Advance(p: Pipe, sc: Screen): (q: Pipe)
    ensures q.x == p.x - PIPE_SPEED && q.height == p.height
    ensures q.passed <==> p.passed || q.x + PIPE_WIDTH < sc.Centre()
    ensures Crosses(p, sc) <==> !p.passed && q.passed
  {
    var moved := p.(x := p.x - PIPE_SPEED);
    if !p.passed && moved.x + PIPE_WIDTH < sc.Centre() then moved.(passed := true) else moved
  }

  /** The `map` over the whole list. */
  function AdvanceAll(ps: seq<Pipe>, sc: Screen): (r: seq<Pipe>)
    ensures |r| == |ps|
    ensures forall i :: 0 <= i < |ps| ==> r[i] == Advance(ps[i], sc)
  {
    if ps == [] then [] else AdvanceAll(ps[..|ps| - 1], sc) + [Advance(ps[|ps| - 1], sc)]
  }

  /** How many times the `map` callback bumps the score. */
  function Crossings(ps: seq<Pipe>, sc: Screen): (n: nat)
    ensures n <= |ps|
  {
    if ps == [] then 0
    else Crossings(ps[..|ps| - 1], sc) + (if Crosses(ps[|ps| - 1], sc) then 1 else 0)
  }

  /** Reference count: positions whose `passed` flag went from false to true between two lists. */
  function Flips(before: seq<Pipe>, after: seq<Pipe>): nat
    requires |before| == |after|
  {
    if before == [] then 0
    else
      var n := |before| - 1;
      Flips(before[..n], after[..n]) + (if !before[n].passed && after[n].passed then 1 else 0)
  }

  /** Number of pipes that can still be scored. */
  function Unpassed(ps: seq<Pipe>): nat {
    if ps == [] then 0 else (if ps[0].passed then 0 else 1) + Unpassed(ps[1..])
  }

  /** The `filter` test: some of the pipe is still on screen. */
  predicate Visible(p: Pipe) {
    p.x + PIPE_WIDTH > 0.0
  }

  /** The `filter` on visibility. */
  function OnScreen(ps: seq<Pipe>): (r: seq<Pipe>)
    ensures |r| <= |ps|
  {
    if ps == [] then [] else (if Visible(ps[0]) then [ps[0]] else []) + OnScreen(ps[1..])
  }

  /** The filter keeps exactly the visible pipes. */
  lemma {:induction false} OnScreenKeepsVisible(ps: seq<Pipe>)
    ensures forall p :: p in OnScreen(ps) <==> p in ps && Visible(p)
  {
    if ps != [] {
      OnScreenKeepsVisible(ps[1..]);
      assert ps == [ps[0]] + ps[1..];
    }
  }

  /** Number of pipes the `filter` drops. */
  function OffScreenCount(ps: seq<Pipe>): nat {
    if ps == [] then 0 else (if Visible(ps[0]) then 0 else 1) + OffScreenCount(ps[1..])
  }

  /** The spawn test, on the list after the filter. */
  predicate NeedsSpawn(ps: seq<Pipe>, sc: Screen) {
    |ps| == 0 || ps[|ps| - 1].x < sc.width - sc.Spacing()
  }

  /** `Math.random() * range`, where `rand` stands for the draw from [0, 1). */
  function ScaleDraw(rand: real, range: real): (h: real)
    requires 0.0 <= rand < 1.0 && range > 0.0
    ensures 0.0 <= h < range
  {
    assert (1.0 - rand) * range > 0.0;
    rand * range
  }

  /** A fresh pipe at the right edge, its gap top drawn from the spawn range. */
  function SpawnedPipe(sc: Screen, rand: real): (p: Pipe)
    requires sc.Valid() && 0.0 <= rand < 1.0
    ensures p.x == sc.width && !p.passed
    ensures 0.0 <= p.height < sc.HeightRange()
  {
    Pipe(sc.width, ScaleDraw(rand, sc.HeightRange()), false)
  }

  /** The whole `setPipes` updater: move, filter, then spawn when needed. */
  function StepPipes(ps: seq<Pipe>, sc: Screen, rand: real): seq<Pipe>
    requires sc.Valid() && 0.0 <= rand < 1.0
  {
    var kept := OnScreen(AdvanceAll(ps, sc));
    if NeedsSpawn(kept, sc) then kept + [SpawnedPipe(sc, rand)] else kept
  }

  /** Pipes in strictly increasing `x`. */
  ghost predicate Ascending(ps: seq<Pipe>) {
    forall i, j :: 0 <= i < j < |ps| ==> ps[i].x < ps[j].x
  }

  /** Any two pipes are more than the spawn spacing apart, older ones to the left. */
  ghost predicate Spaced(ps: seq<Pipe>, sc: Screen) {
    forall i, j :: 0 <= i < j < |ps| ==> ps[j].x - ps[i].x > sc.Spacing()
  }

  /**
   * Where a live pipe may be: on screen, not right of the spawn point, with a gap
   * top in the spawn range, and scored exactly when its trailing edge is left of centre.
   */
  ghost predicate InBounds(p: Pipe, sc: Screen) {
    Visible(p) && p.x <= sc.width && 0.0 <= p.height < sc.HeightRange()
    && (p.passed <==> p.x + PIPE_WIDTH < sc.Centre())
  }

  /** The invariant of the pipe list between ticks. */
  ghost predicate ValidStream(ps: seq<Pipe>, sc: Screen) {
    (forall i :: 0 <= i < |ps| ==> InBounds(ps[i], sc)) && Spaced(ps, sc)
  }

  /** Pipes more than one (positive) spacing apart are in strictly increasing `x`. */
  lemma SpacedAscending(ps: seq<Pipe>, sc: Screen)
    requires sc.Valid() && Spaced(ps, sc)
    ensures Ascending(ps)
  {
  }

  /** The score gained in a tick is exactly the number of pipes whose flag flipped. */
  lemma {:induction false} CrossingsAreFlips(ps: seq<Pipe>, sc: Screen)
    ensures Crossings(ps, sc) == Flips(ps, AdvanceAll(ps, sc))
  {
    if ps != [] {
      var n := |ps| - 1;
      assert AdvanceAll(ps, sc)[..n] == AdvanceAll(ps[..n], sc);
      CrossingsAreFlips(ps[..n], sc);
    }
  }

  /** The unscored count of a concatenation is the sum of the counts. */
  lemma {:induction false} UnpassedAppend(a: seq<Pipe>, b: seq<Pipe>)
    ensures Unpassed(a + b) == Unpassed(a) + Unpassed(b)
  {
    if a == [] {
      assert a + b == b;
    } else {
      assert (a + b)[0] == a[0] && (a + b)[1..] == a[1..] + b;
      UnpassedAppend(a[1..], b);
    }
  }

  /**
   * Every point scored uses up one unscored pipe: a pipe marked passed never
   * scores again, and no tick scores more than the unscored pipes it moved.
   */
  lemma {:induction false} CrossingsConsumeUnpassed(ps: seq<Pipe>, sc: Screen)
    ensures Crossings(ps, sc) + Unpassed(AdvanceAll(ps, sc)) == Unpassed(ps)
  {
    if ps != [] {
      var n := |ps| - 1;
      assert AdvanceAll(ps, sc) == AdvanceAll(ps[..n], sc) + [Advance(ps[n], sc)];
      assert ps == ps[..n] + [ps[n]];
      CrossingsConsumeUnpassed(ps[..n], sc);
      UnpassedAppend(AdvanceAll(ps[..n], sc), [Advance(ps[n], sc)]);
      UnpassedAppend(ps[..n], [ps[n]]);
    }
  }

  /** Dropping the oldest pipe keeps a list in increasing `x`. */
  lemma AscendingTail(ps: seq<Pipe>)
    requires ps != [] && Ascending(ps)
    ensures Ascending(ps[1..])
  {
    var tail := ps[1..];
    forall i, j | 0 <= i < j < |tail| ensures tail[i].x < tail[j].x {
      assert tail[i] == ps[i + 1] && tail[j] == ps[j + 1];
    }
  }

  /** On a list in increasing `x`, the pipes off screen are the oldest ones, a prefix. */
  lemma {:induction false} HiddenPrefix(ps: seq<Pipe>)
    requires Ascending(ps)
    ensures OffScreenCount(ps) <= |ps|
    ensures forall i :: 0 <= i < OffScreenCount(ps) ==> !Visible(ps[i])
    ensures forall i :: OffScreenCount(ps) <= i < |ps| ==> Visible(ps[i])
  {
    if ps != [] {
      var tail := ps[1..];
      AscendingTail(ps);
      HiddenPrefix(tail);
      if Visible(ps[0]) && |ps| > 1 {
        assert Visible(tail[0]);
      }
      forall i | 1 <= i < |ps| ensures ps[i] == tail[i - 1] {
      }
    }
  }

  /** The filter skips pipes that are off screen. */
  lemma {:induction false} OnScreenSkipsHidden(ps: seq<Pipe>, k: nat)
    requires k <= |ps|
    requires forall i :: 0 <= i < k ==> !Visible(ps[i])
    ensures OnScreen(ps) == OnScreen(ps[k..])
  {
    if k > 0 {
      assert !Visible(ps[0]);
      OnScreenSkipsHidden(ps[1..], k - 1);
      assert ps[1..][k - 1..] == ps[k..];
    }
  }

  /** The filter leaves a list of visible pipes as it is. */
  lemma {:induction false} OnScreenAllVisible(ps: seq<Pipe>)
    requires forall i :: 0 <= i < |ps| ==> Visible(ps[i])
    ensures OnScreen(ps) == ps
  {
    if ps != [] {
      assert Visible(ps[0]);
      OnScreenAllVisible(ps[1..]);
      assert [ps[0]] + ps[1..] == ps;
    }
  }

  /** On a list in increasing `x`, the filter drops exactly the oldest pipes, a prefix, and keeps the rest in order. */
  lemma OnScreenDropsOldest(ps: seq<Pipe>)
    requires Ascending(ps)
    ensures OffScreenCount(ps) <= |ps|
    ensures OnScreen(ps) == ps[OffScreenCount(ps)..]
    ensures forall i :: 0 <= i < OffScreenCount(ps) ==> !Visible(ps[i])
    ensures forall i :: OffScreenCount(ps) <= i < |ps| ==> Visible(ps[i])
  {
    HiddenPrefix(ps);
    var k := OffScreenCount(ps);
    OnScreenSkipsHidden(ps, k);
    OnScreenAllVisible(ps[k..]);
  }

  /** When every pipe the filter drops has been scored, the filter leaves the unscored count alone. */
  lemma {:induction false} OnScreenKeepsUnpassed(ps: seq<Pipe>)
    requires forall i :: 0 <= i < |ps| && !Visible(ps[i]) ==> ps[i].passed
    ensures Unpassed(OnScreen(ps)) == Unpassed(ps)
  {
    if ps != [] {
      assert forall i :: 0 <= i < |ps| - 1 ==> ps[1..][i] == ps[i + 1];
      OnScreenKeepsUnpassed(ps[1..]);
      UnpassedAppend(if Visible(ps[0]) then [ps[0]] else [], OnScreen(ps[1..]));
    }
  }

  /** Moving every pipe by the same amount keeps them in increasing `x`. */
  lemma AdvanceAllAscending(ps: seq<Pipe>, sc: Screen)
    requires Ascending(ps)
    ensures Ascending(AdvanceAll(ps, sc))
  {
  }

  /** Moving every pipe by the same amount keeps every pairwise distance. */
  lemma AdvanceAllSpaced(ps: seq<Pipe>, sc: Screen)
    requires Spaced(ps, sc)
    ensures Spaced(AdvanceAll(ps, sc), sc)
  {
  }

  /** Moving keeps every bound of a pipe except, possibly, being on screen. */
  lemma AdvanceAllInBounds(ps: seq<Pipe>, sc: Screen)
    requires sc.Valid()
    requires forall i :: 0 <= i < |ps| ==> InBounds(ps[i], sc)
    ensures forall i :: 0 <= i < |ps| && Visible(AdvanceAll(ps, sc)[i]) ==> InBounds(AdvanceAll(ps, sc)[i], sc)
  {
  }

  /** A pipe that the move takes off screen is scored on that same move. */
  lemma OffScreenPassed(ps: seq<Pipe>, sc: Screen)
    requires sc.Valid()
    ensures forall i :: 0 <= i < |ps| && !Visible(AdvanceAll(ps, sc)[i]) ==> AdvanceAll(ps, sc)[i].passed
  {
  }

  /**
   * One tick of the updater, pipe by pipe: the surviving pipes are, in order, the
   * moved versions of all pipes but the `k` oldest; those `k` are off screen after
   * the move and scored.
   */
  lemma SurvivorsMoved(ps: seq<Pipe>, sc: Screen)
    requires sc.Valid() && Ascending(ps)
    ensures var k := OffScreenCount(AdvanceAll(ps, sc));
      k <= |ps| && OnScreen(AdvanceAll(ps, sc)) == AdvanceAll(ps[k..], sc)
      && forall i :: 0 <= i < k ==> !Visible(Advance(ps[i], sc)) && Advance(ps[i], sc).passed
  {
    var moved := AdvanceAll(ps, sc);
    AdvanceAllAscending(ps, sc);
    OnScreenDropsOldest(moved);
    var k := OffScreenCount(moved);
    assert moved[k..] == AdvanceAll(ps[k..], sc);
    forall i | 0 <= i < k
      ensures !Visible(Advance(ps[i], sc)) && Advance(ps[i], sc).passed
    {
      assert moved[i] == Advance(ps[i], sc);
    }
  }

  /**
   * Shape of the spawn step: the result is never empty, it extends the filtered
   * list by at most one pipe, and it does so exactly when the filtered list is
   * empty or its newest pipe is left of `width - Spacing()`; the new pipe sits at
   * the right edge, unscored, with its gap top in the spawn range.
   */
  lemma StepPipesSpawn(ps: seq<Pipe>, sc: Screen, rand: real)
    requires sc.Valid() && 0.0 <= rand < 1.0
    ensures var kept, r := OnScreen(AdvanceAll(ps, sc)), StepPipes(ps, sc, rand);
      |r| > 0 && r[..|kept|] == kept
      && (|r| == |kept| + 1 <==> NeedsSpawn(kept, sc))
      && (|r| == |kept| || |r| == |kept| + 1)
      && (|r| == |kept| + 1 ==>
            r[|kept|].x == sc.width && !r[|kept|].passed && 0.0 <= r[|kept|].height < sc.HeightRange())
  {
  }

  /** Dropping the oldest pipes of a spaced list whose remaining pipes are in bounds gives a valid stream. */
  lemma SuffixKeepsStream(ps: seq<Pipe>, k: nat, sc: Screen)
    requires k <= |ps| && Spaced(ps, sc)
    requires forall i :: k <= i < |ps| ==> InBounds(ps[i], sc)
    ensures ValidStream(ps[k..], sc)
  {
    assert forall i :: 0 <= i < |ps| - k ==> ps[k..][i] == ps[k + i];
  }

  /** Appending a spawned pipe when the spawn test allows it keeps the stream valid. */
  lemma SpawnKeepsStream(ps: seq<Pipe>, sc: Screen, rand: real)
    requires sc.Valid() && 0.0 <= rand < 1.0
    requires ValidStream(ps, sc) && NeedsSpawn(ps, sc)
    ensures ValidStream(ps + [SpawnedPipe(sc, rand)], sc)
  {
    var r := ps + [SpawnedPipe(sc, rand)];
    forall i, j | 0 <= i < j < |r| ensures r[j].x - r[i].x > sc.Spacing() {
      if j == |ps| && i < |ps| - 1 {
        assert ps[|ps| - 1].x - ps[i].x > sc.Spacing();
      }
    }
  }

  /** The updater keeps the stream invariant: bounds, scoring flag and spacing. */
  lemma StepPipesKeepsStream(ps: seq<Pipe>, sc: Screen, rand: real)
    requires sc.Valid() && 0.0 <= rand < 1.0
    requires ValidStream(ps, sc)
    ensures ValidStream(StepPipes(ps, sc, rand), sc)
  {
    var moved := AdvanceAll(ps, sc);
    AdvanceAllSpaced(ps, sc);
    AdvanceAllInBounds(ps, sc);
    SpacedAscending(moved, sc);
    OnScreenDropsOldest(moved);
    var k, kept := OffScreenCount(moved), OnScreen(moved);
    SuffixKeepsStream(moved, k, sc);
    if NeedsSpawn(kept, sc) {
      SpawnKeepsStream(kept, sc, rand);
    }
  }

  /**
   * Ticks from one spawn to the next: the first `K` with `K * 5 > Spacing()`,
   * since the newest pipe moves 5 per tick from the right edge and a pipe is
   * spawned on the first tick it is left of `width - Spacing()`.
   */
  function SpawnPeriod(sc: Screen): int {
    (sc.Spacing() / PIPE_SPEED).Floor + 1
  }

  /** Where a pipe spawned at the right edge is after `j` ticks. */
  function SpawnOffset(sc: Screen, j: int): real {
    sc.width - PIPE_SPEED * (j as real)
  }

  /** `SpawnPeriod` is the least number of ticks whose travel exceeds the spacing. */
  lemma SpawnPeriodBounds(sc: Screen)
    requires sc.Valid()
    ensures SpawnPeriod(sc) >= 1
    ensures PIPE_SPEED * (SpawnPeriod(sc) as real) > sc.Spacing()
    ensures PIPE_SPEED * ((SpawnPeriod(sc) - 1) as real) <= sc.Spacing()
  {
  }

  /** Neighbouring pipes are exactly one spawn period of travel apart. */
  ghost predicate EvenGaps(ps: seq<Pipe>, sc: Screen) {
    forall i :: 0 <= i < |ps| - 1 ==> ps[i + 1].x - ps[i].x == PIPE_SPEED * (SpawnPeriod(sc) as real)
  }

  /**
   * The exact shape of the stream: neighbouring pipes are exactly
   * `SpawnPeriod() * 5` apart, and the newest pipe has been moving for fewer
   * than `SpawnPeriod()` ticks since it was spawned at the right edge.
   */
  ghost predicate Periodic(ps: seq<Pipe>, sc: Screen) {
    EvenGaps(ps, sc)
    && (|ps| > 0 ==> exists j :: 0 <= j < SpawnPeriod(sc) && ps[|ps| - 1].x == SpawnOffset(sc, j))
  }

  /** A periodic stream keeps its neighbours more than one spacing and at most one spacing plus one move apart. */
  lemma PeriodicGaps(ps: seq<Pipe>, sc: Screen)
    requires sc.Valid() && Periodic(ps, sc)
    ensures forall i :: 0 <= i < |ps| - 1 ==>
      sc.Spacing() < ps[i + 1].x - ps[i].x <= sc.Spacing() + PIPE_SPEED
  {
    SpawnPeriodBounds(sc);
  }

  /** A freshly spawned pipe on its own is a periodic stream. */
  lemma SpawnedPeriodic(sc: Screen, rand: real)
    requires sc.Valid() && 0.0 <= rand < 1.0
    ensures Periodic([SpawnedPipe(sc, rand)], sc)
  {
    SpawnPeriodBounds(sc);
    assert [SpawnedPipe(sc, rand)][0].x == SpawnOffset(sc, 0);
  }

  /** Every suffix of a list with even gaps has even gaps. */
  lemma SuffixKeepsGaps(ps: seq<Pipe>, k: nat, sc: Screen)
    requires k <= |ps| && EvenGaps(ps, sc)
    ensures EvenGaps(ps[k..], sc)
  {
    forall i | 0 <= i < |ps[k..]| - 1
      ensures ps[k..][i + 1].x - ps[k..][i].x == PIPE_SPEED * (SpawnPeriod(sc) as real)
    {
      assert ps[k..][i] == ps[k + i] && ps[k..][i + 1] == ps[k + i + 1];
    }
  }

  /** Moving every pipe by the same amount keeps the gaps even. */
  lemma AdvanceAllKeepsGaps(ps: seq<Pipe>, sc: Screen)
    requires EvenGaps(ps, sc)
    ensures EvenGaps(AdvanceAll(ps, sc), sc)
  {
    var moved := AdvanceAll(ps, sc);
    forall i | 0 <= i < |moved| - 1
      ensures moved[i + 1].x - moved[i].x == PIPE_SPEED * (SpawnPeriod(sc) as real)
    {
      assert moved[i + 1].x - moved[i].x == ps[i + 1].x - ps[i].x;
    }
  }

  /** A pipe placed one period of travel right of the newest one keeps the gaps even. */
  lemma AppendKeepsGaps(ps: seq<Pipe>, p: Pipe, sc: Screen)
    requires ps != [] && EvenGaps(ps, sc)
    requires p.x - ps[|ps| - 1].x == PIPE_SPEED * (SpawnPeriod(sc) as real)
    ensures EvenGaps(ps + [p], sc)
  {
    var r := ps + [p];
    forall i | 0 <= i < |r| - 1
      ensures r[i + 1].x - r[i].x == PIPE_SPEED * (SpawnPeriod(sc) as real)
    {
      if i < |ps| - 1 {
        assert r[i] == ps[i] && r[i + 1] == ps[i + 1];
      }
    }
  }

  /** The newest pipe of a periodic stream is still visible after the move. */
  lemma NewestStaysVisible(p: Pipe, sc: Screen, j: int)
    requires sc.Valid() && 0 <= j < SpawnPeriod(sc) && p.x == SpawnOffset(sc, j)
    ensures Visible(Advance(p, sc))
  {
    SpawnPeriodBounds(sc);
    assert PIPE_SPEED * ((j + 1) as real) <= PIPE_SPEED * (SpawnPeriod(sc) as real);
  }

  /**
   * One tick of a non-empty periodic stream: the filter never drops the newest
   * pipe, and the surviving pipes keep their even gaps.
   */
  lemma NewestSurvives(ps: seq<Pipe>, sc: Screen)
    requires sc.Valid() && Ascending(ps) && Periodic(ps, sc) && ps != []
    ensures var kept := OnScreen(AdvanceAll(ps, sc));
      kept != [] && kept[|kept| - 1] == Advance(ps[|ps| - 1], sc) && EvenGaps(kept, sc)
  {
    var n := |ps|;
    var j :| 0 <= j < SpawnPeriod(sc) && ps[n - 1].x == SpawnOffset(sc, j);
    NewestStaysVisible(ps[n - 1], sc, j);
    SurvivorsMoved(ps, sc);
    var k := OffScreenCount(AdvanceAll(ps, sc));
    assert k < n;
    SuffixKeepsGaps(ps, k, sc);
    AdvanceAllKeepsGaps(ps[k..], sc);
    assert AdvanceAll(ps[k..], sc)[n - 1 - k] == Advance(ps[k..][n - 1 - k], sc);
  }

  /** After the move, the newest pipe passes the spawn test exactly when it completes a period. */
  lemma SpawnTest(p: Pipe, sc: Screen, j: int)
    requires sc.Valid() && 0 <= j < SpawnPeriod(sc) && p.x == SpawnOffset(sc, j)
    ensures Advance(p, sc).x < sc.width - sc.Spacing() <==> j == SpawnPeriod(sc) - 1
  {
    SpawnPeriodBounds(sc);
    if j + 1 < SpawnPeriod(sc) {
      assert PIPE_SPEED * ((j + 1) as real) <= PIPE_SPEED * ((SpawnPeriod(sc) - 1) as real);
    }
  }

  /**
   * The spawn test on a periodic stream fires exactly when the newest pipe
   * completes a period, so spawns come exactly `SpawnPeriod()` ticks apart.
   */
  lemma SpawnEveryPeriod(ps: seq<Pipe>, sc: Screen)
    requires sc.Valid() && Ascending(ps) && Periodic(ps, sc) && ps != []
    ensures NeedsSpawn(OnScreen(AdvanceAll(ps, sc)), sc)
            <==> ps[|ps| - 1].x == SpawnOffset(sc, SpawnPeriod(sc) - 1)
  {
    NewestSurvives(ps, sc);
    var j :| 0 <= j < SpawnPeriod(sc) && ps[|ps| - 1].x == SpawnOffset(sc, j);
    SpawnTest(ps[|ps| - 1], sc, j);
  }

  /** The updater keeps the stream periodic. */
  lemma StepPipesKeepsPeriod(ps: seq<Pipe>, sc: Screen, rand: real)
    requires sc.Valid() && 0.0 <= rand < 1.0
    requires ValidStream(ps, sc) && Periodic(ps, sc)
    ensures Periodic(StepPipes(ps, sc, rand), sc)
  {
    if ps == [] {
      SpawnedPeriodic(sc, rand);
    } else {
      SpacedAscending(ps, sc);
      NewestKeepsPeriod(ps, sc, rand);
    }
  }

  /** `StepPipesKeepsPeriod` on a non-empty list in increasing `x`. */
  lemma NewestKeepsPeriod(ps: seq<Pipe>, sc: Screen, rand: real)
    requires sc.Valid() && 0.0 <= rand < 1.0
    requires Ascending(ps) && Periodic(ps, sc) && ps != []
    ensures Periodic(StepPipes(ps, sc, rand), sc)
  {
    var kept, r := OnScreen(AdvanceAll(ps, sc)), StepPipes(ps, sc, rand);
    NewestSurvives(ps, sc);
    var j :| 0 <= j < SpawnPeriod(sc) && ps[|ps| - 1].x == SpawnOffset(sc, j);
    SpawnTest(ps[|ps| - 1], sc, j);
    assert kept[|kept| - 1].x == SpawnOffset(sc, j + 1);
    if NeedsSpawn(kept, sc) {
      AppendKeepsGaps(kept, SpawnedPipe(sc, rand), sc);
      assert r[|r| - 1].x == SpawnOffset(sc, 0);
    } else {
      assert r[|r| - 1].x == SpawnOffset(sc, j + 1);
    }
  }

  /**
   * Pipe accounting over one tick: the points scored plus the unscored pipes
   * afterwards equal the unscored pipes before, plus one if a pipe was spawned.
   */
  lemma StepPipesAccounting(ps: seq<Pipe>, sc: Screen, rand: real)
    requires sc.Valid() && 0.0 <= rand < 1.0
    ensures var kept := OnScreen(AdvanceAll(ps, sc));
      Crossings(ps, sc) + Unpassed(StepPipes(ps, sc, rand))
      == Unpassed(ps) + (if NeedsSpawn(kept, sc) then 1 else 0)
  {
    var moved := AdvanceAll(ps, sc);
    OffScreenPassed(ps, sc);
    OnScreenKeepsUnpassed(moved);
    CrossingsConsumeUnpassed(ps, sc);
    var kept := OnScreen(moved);
    if NeedsSpawn(kept, sc) {
      UnpassedAppend(kept, [SpawnedPipe(sc, rand)]);
    }
  }

  /** A single pipe after `n` ticks. */
  function AdvanceN(p: Pipe, sc: Screen, n: nat): Pipe
    decreases n
  {
    if n == 0 then p else AdvanceN(Advance(p, sc), sc, n - 1)
  }

  /** The points a single pipe earns over `n` ticks. */
  function CrossingsOver(p: Pipe, sc: Screen, n: nat): nat
    decreases n
  {
    if n == 0 then 0 else (if Crosses(p, sc) then 1 else 0) + CrossingsOver(Advance(p, sc), sc, n - 1)
  }

  /**
   * A pipe earns at most one point in its whole life: over any number of ticks it
   * earns exactly one if it was unscored and its trailing edge ends left of the
   * scoring line, and none otherwise.
   */
  lemma {:induction false} ScoresAtMostOnce(p: Pipe, sc: Screen, n: nat)
    requires p.passed <==> p.x + PIPE_WIDTH < sc.Centre()
    ensures CrossingsOver(p, sc, n)
            == if !p.passed && p.x - (n as real) * PIPE_SPEED + PIPE_WIDTH < sc.Centre() then 1 else 0
    ensures CrossingsOver(p, sc, n) <= 1
    ensures AdvanceN(p, sc, n).passed <==> p.x - (n as real) * PIPE_SPEED + PIPE_WIDTH < sc.Centre()
    decreases n
  {
    if n > 0 {
      ScoresAtMostOnce(Advance(p, sc), sc, n - 1);
    }
  }
}
