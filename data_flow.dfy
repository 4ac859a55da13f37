/**
 * The pulses travelling along the background's links (src/components/Home.jsx,
 * classes `Connection` and `DataFlow`): construction from two draws and the
 * per-tick progress update.
 */
module DataFlows {

  /** A `Connection`: the positions of its two glyphs in the entity array, `e1` visited first. */
  datatype Connection = Connection(e1: nat, e2: nat)

  /** `DataFlow.update()` on the progress: add the speed, and restart at 0 after passing 1. */
  function Advance(progress: real, speed: real): real {
    var next := progress + speed;
    if next > 1.0 then 0.0 else next
  }

  /**
   * One tick either moves the pulse on by exactly `speed` or restarts it at 0,
   * the latter iff it passed 1; a pulse at exactly 1 is not restarted. On
   * [0, 1] with a non-negative speed, the progress stays in [0, 1].
   */
  lemma AdvanceSpec(progress: real, speed: real)
    ensures Advance(progress, speed) == 0.0 || Advance(progress, speed) == progress + speed
    ensures progress + speed > 1.0 <==> (Advance(progress, speed) == 0.0 && progress + speed != 0.0)
    ensures 0.0 <= progress <= 1.0 && speed >= 0.0 ==> 0.0 <= Advance(progress, speed) <= 1.0
  {
  }

  /** The progress after `n` ticks. */
  function AdvanceN(progress: real, speed: real, n: nat): real {
    if n == 0 then progress else Advance(AdvanceN(progress, speed, n - 1), speed)
  }

  /** Starting in [0, 1] with a non-negative speed, the progress never leaves [0, 1]. */
  lemma {:induction false} StaysInUnit(progress: real, speed: real, n: nat)
    requires 0.0 <= progress <= 1.0 && speed >= 0.0
    ensures 0.0 <= AdvanceN(progress, speed, n) <= 1.0
  {
    if n > 0 {
      StaysInUnit(progress, speed, n - 1);
      AdvanceSpec(AdvanceN(progress, speed, n - 1), speed);
    }
  }

  /** `progress + n * speed`, as `n` additions of the speed. */
  function Reach(progress: real, speed: real, n: nat): real {
    if n == 0 then progress else Reach(progress, speed, n - 1) + speed
  }

  lemma {:induction false} ReachIsProduct(progress: real, speed: real, n: nat)
    ensures Reach(progress, speed, n) == progress + n as real * speed
  {
    if n > 0 {
      ReachIsProduct(progress, speed, n - 1);
      assert (n - 1) as real * speed + speed == n as real * speed;
    }
  }

  lemma {:induction false} ReachMonotone(progress: real, speed: real, j: nat, k: nat)
    requires speed >= 0.0 && j <= k
    ensures Reach(progress, speed, j) <= Reach(progress, speed, k)
    decreases k
  {
    if j < k {
      ReachMonotone(progress, speed, j, k - 1);
    }
  }

  /** While `progress + n * speed` has not passed 1, the pulse moves linearly. */
  lemma {:induction false} LinearPhase(progress: real, speed: real, n: nat)
    requires speed >= 0.0 && Reach(progress, speed, n) <= 1.0
    ensures AdvanceN(progress, speed, n) == Reach(progress, speed, n)
  {
    if n > 0 {
      LinearPhase(progress, speed, n - 1);
    }
  }

  /** The restart happens at the first tick `k` with `progress + k * speed > 1`, and lands exactly on 0. */
  lemma FirstReset(progress: real, speed: real, k: nat)
    requires speed >= 0.0 && k >= 1
    requires Reach(progress, speed, k - 1) <= 1.0 < Reach(progress, speed, k)
    ensures AdvanceN(progress, speed, k) == 0.0
    ensures forall j :: 0 <= j < k ==> AdvanceN(progress, speed, j) == Reach(progress, speed, j)
  {
    LinearPhase(progress, speed, k - 1);
    forall j | 0 <= j < k
      ensures AdvanceN(progress, speed, j) == Reach(progress, speed, j)
    {
      ReachMonotone(progress, speed, j, k - 1);
      LinearPhase(progress, speed, j);
    }
  }

  /**
   * Landing on 1 exactly does not restart: from 0.5 at speed 0.25 the pulse is
   * at 1 after two ticks and restarts only on the third.
   */
  lemma ExactOneIsKept()
    ensures AdvanceN(0.5, 0.25, 2) == 1.0
    ensures AdvanceN(0.5, 0.25, 3) == 0.0
  {
    assert AdvanceN(0.5, 0.25, 1) == 0.75;
  }

  const MinSpeed: real := 0.003
  const SpeedSpread: real := 0.002

  /** A `DataFlow` on one connection. */
  class DataFlow {
    const link: Connection
    var progress: real
    const speed: real

    /** `new DataFlow(connection)`, given its two `Math.random()` results. */
    constructor (link: Connection, progressDraw: real, speedDraw: real)
      ensures this.link == link && progress == progressDraw
      ensures speed == MinSpeed + speedDraw * SpeedSpread
    {
      this.link := link;
      progress := progressDraw;
      speed := MinSpeed + speedDraw * SpeedSpread;
    }

    /** `update()` */
    method Update()
      modifies this`progress
      ensures progress == Advance(old(progress), speed)
    {
      progress := progress + speed;
      if progress > 1.0 {
        progress := 0.0;
      }
    }
  }

  /** A new pulse, drawn from [0, 1), starts in [0, 1) and moves at a speed in [0.003, 0.005). */
  lemma NewFlowRanges(progressDraw: real, speedDraw: real)
    requires 0.0 <= progressDraw < 1.0 && 0.0 <= speedDraw < 1.0
    ensures MinSpeed <= MinSpeed + speedDraw * SpeedSpread < MinSpeed + SpeedSpread
  {
  }
}
