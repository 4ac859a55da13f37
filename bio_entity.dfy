/**
 * One glyph of the animated background (src/components/Home.jsx, class
 * `BioEntity`): its construction from the random draws, the per-tick
 * `update`, and `checkMouseProximity`. Positions and velocities are `real`.
 */
module BioEntities {
  import opened Maybe

  /** The five glyph kinds: `'dna'`, `'molecule'`, `'neuron'`, `'cloud'`, `'heartbeat'`. */
  datatype Kind = Dna | Molecule | Neuron | Cloud | Heartbeat

  /** `entityTypes`: DNA, clouds and heartbeats appear twice, so they are drawn twice as often. */
  const EntityTypes: seq<Kind> := [Dna, Dna, Molecule, Neuron, Cloud, Cloud, Heartbeat, Heartbeat]

  /** `Math.PI * 2` as the double the script uses. */
  const TwoPi: real := 6.283185307179586
  /** `this.beatSpeed` of a heartbeat. */
  const BeatSpeed: real := 0.05
  /** `checkMouseProximity`'s radius 80, squared. */
  const ProximitySquared: real := 6400.0

  /** `Math.floor(d * n)` for a draw `d` in [0, 1): an index below `n`. */
  function DrawIndex(d: real, n: nat): (i: nat)
    requires 0.0 <= d < 1.0 && n > 0
    ensures i < n
    ensures i as real <= d * n as real < (i + 1) as real
  {
    ScaledDrawBelow(d, n);
    (d * n as real).Floor
  }

  /** A draw in [0, 1) scaled by `n > 0` lies in [0, n). */
  lemma ScaledDrawBelow(d: real, n: nat)
    requires 0.0 <= d < 1.0 && n > 0
    ensures 0.0 <= d * n as real < n as real
  {
    MulNonNegative(d, n as real);
    MulPositive(1.0 - d, n as real);
    assert (1.0 - d) * n as real == n as real - d * n as real;
  }

  /** `entityTypes[Math.floor(Math.random() * entityTypes.length)]` */
  function KindFromDraw(d: real): Kind
    requires 0.0 <= d < 1.0
  {
    EntityTypes[DrawIndex(d, |EntityTypes|)]
  }

  /** The kind splits [0, 1) into intervals of width 2/8, 1/8, 1/8, 2/8, 2/8. */
  lemma KindIntervals(d: real)
    requires 0.0 <= d < 1.0
    ensures KindFromDraw(d) == Dna <==> d < 0.25
    ensures KindFromDraw(d) == Molecule <==> 0.25 <= d < 0.375
    ensures KindFromDraw(d) == Neuron <==> 0.375 <= d < 0.5
    ensures KindFromDraw(d) == Cloud <==> 0.5 <= d < 0.75
    ensures KindFromDraw(d) == Heartbeat <==> 0.75 <= d
  {
    var i := DrawIndex(d, 8);
    assert i as real <= d * 8.0 < (i + 1) as real;
  }

  /**
   * The `Math.random()` results the constructor consumes, by the field they
   * feed. For a neuron `size` is the second size draw, the one that is kept;
   * `beatOffset` is only drawn for a heartbeat.
   */
  datatype EntityDraws = EntityDraws(x: real, y: real, vx: real, vy: real, kind: real, size: real,
                                     rotation: real, rotationSpeed: real, cluster: real, beatOffset: real)

  predicate IsDraw(d: real) {
    0.0 <= d < 1.0
  }

  predicate ValidDraws(d: EntityDraws) {
    && IsDraw(d.x) && IsDraw(d.y) && IsDraw(d.vx) && IsDraw(d.vy) && IsDraw(d.kind)
    && IsDraw(d.size) && IsDraw(d.rotation) && IsDraw(d.rotationSpeed) && IsDraw(d.cluster)
    && IsDraw(d.beatOffset)
  }

  function Abs(r: real): real {
    if r < 0.0 then -r else r
  }

  /**
   * One axis of `update()`: move by the velocity, then negate the velocity iff
   * the new position is off the segment [0, bound]. The position is not
   * clamped.
   */
  function Bounce(pos: real, vel: real, bound: real): (r: (real, real))
  {
    var p := pos + vel;
    (p, if p < 0.0 || p > bound then -vel else vel)
  }

  /** The speed along the axis never changes; the direction flips exactly when the glyph leaves the segment. */
  lemma BounceKeepsSpeed(pos: real, vel: real, bound: real)
    ensures Abs(Bounce(pos, vel, bound).1) == Abs(vel)
    ensures Bounce(pos, vel, bound).0 == pos + vel
    ensures Bounce(pos, vel, bound).1 == -vel <==> (pos + vel < 0.0 || pos + vel > bound || vel == 0.0)
  {
  }

  /**
   * What does hold instead of "stays on the canvas": the glyph is at most one
   * step outside the segment, and outside it is always heading back.
   */
  predicate InBand(pos: real, vel: real, bound: real) {
    && -Abs(vel) <= pos <= bound + Abs(vel)
    && (pos < 0.0 ==> vel > 0.0)
    && (pos > bound ==> vel < 0.0)
  }

  lemma BounceKeepsBand(pos: real, vel: real, bound: real)
    requires bound >= 0.0 && InBand(pos, vel, bound)
    ensures InBand(Bounce(pos, vel, bound).0, Bounce(pos, vel, bound).1, bound)
  {
  }

  /** `n` ticks of one axis on a canvas that is not resized. */
  function Bounces(pos: real, vel: real, bound: real, n: nat): (real, real)
    decreases n
  {
    if n == 0 then (pos, vel)
    else
      var r := Bounce(pos, vel, bound);
      Bounces(r.0, r.1, bound, n - 1)
  }

  /** From any start on the canvas, every later tick keeps the band and the speed. */
  lemma {:induction false} BouncesKeepBand(pos: real, vel: real, bound: real, n: nat)
    requires bound >= 0.0 && InBand(pos, vel, bound)
    ensures InBand(Bounces(pos, vel, bound, n).0, Bounces(pos, vel, bound, n).1, bound)
    ensures Abs(Bounces(pos, vel, bound, n).1) == Abs(vel)
    decreases n
  {
    if n > 0 {
      var r := Bounce(pos, vel, bound);
      BounceKeepsBand(pos, vel, bound);
      BounceKeepsSpeed(pos, vel, bound);
      BouncesKeepBand(r.0, r.1, bound, n - 1);
    }
  }

  /**
   * On an 800-pixel-wide canvas, x = 10 with vx = -5 does not flip after one
   * tick (x = 5), and after three ticks the glyph is off the canvas at x = -5,
   * now heading right.
   */
  lemma NoClampingExample()
    ensures Bounces(10.0, -5.0, 800.0, 1) == (5.0, -5.0)
    ensures Bounces(10.0, -5.0, 800.0, 3) == (-5.0, 5.0)
  {
    assert Bounces(10.0, -5.0, 800.0, 1) == Bounces(5.0, -5.0, 800.0, 0);
    assert Bounces(10.0, -5.0, 800.0, 3) == Bounces(5.0, -5.0, 800.0, 2);
    assert Bounces(5.0, -5.0, 800.0, 2) == Bounces(0.0, -5.0, 800.0, 1);
    assert Bounces(0.0, -5.0, 800.0, 1) == Bounces(-5.0, 5.0, 800.0, 0);
  }

  /** `mouse.x` / `mouse.y`: `null` until the first pointer move. */
  predicate Falsy(c: Option<real>) {
    c.None? || c.value == 0.0
  }

  function SquaredDistance(x1: real, y1: real, x2: real, y2: real): (d: real)
    ensures d >= 0.0
  {
    (x1 - x2) * (x1 - x2) + (y1 - y2) * (y1 - y2)
  }

  lemma MulPositive(a: real, b: real)
    requires a > 0.0 && b > 0.0
    ensures a * b > 0.0
  {
  }

  lemma MulNonNegative(a: real, b: real)
    requires a >= 0.0 && b >= 0.0
    ensures a * b >= 0.0
  {
  }

  /** Comparing squared distances decides the same as comparing the `Math.sqrt` distance. */
  lemma SquaredComparison(dist: real, squared: real, radius: real)
    requires dist >= 0.0 && radius >= 0.0 && dist * dist == squared
    ensures dist < radius <==> squared < radius * radius
  {
    assert (radius - dist) * (radius + dist) == radius * radius - squared;
    if dist < radius {
      MulPositive(radius - dist, radius + dist);
    } else {
      MulNonNegative(dist - radius, radius + dist);
    }
  }

  /** The `active` flag `checkMouseProximity` computes. */
  predicate NearPointer(x: real, y: real, mouseX: Option<real>, mouseY: Option<real>) {
    !Falsy(mouseX) && !Falsy(mouseY) && SquaredDistance(x, y, mouseX.value, mouseY.value) < ProximitySquared
  }

  /** A pointer on a glyph with non-zero coordinates activates it; one on the left or top edge never does. */
  lemma PointerOnGlyph(x: real, y: real)
    ensures x != 0.0 && y != 0.0 ==> NearPointer(x, y, Some(x), Some(y))
    ensures !NearPointer(x, y, Some(0.0), Some(y)) && !NearPointer(x, y, Some(x), Some(0.0))
    ensures !NearPointer(x, y, None, Some(y)) && !NearPointer(x, y, Some(x), None)
  {
  }

  /** The state of one glyph; the fields only drawing reads are left out. */
  class BioEntity {
    var x: real
    var y: real
    var vx: real
    var vy: real
    const kind: Kind
    const size: real
    var rotation: real
    const rotationSpeed: real
    var active: bool
    const cluster: nat
    /** The heart's beat phase; 0 for the other kinds, which have none. */
    var beatOffset: real

    /** `new BioEntity()` on a `width` x `height` canvas. */
    constructor (width: real, height: real, d: EntityDraws)
      requires ValidDraws(d)
      ensures x == d.x * width && y == d.y * height
      ensures vx == (d.vx - 0.5) * 0.3 && vy == (d.vy - 0.5) * 0.3
      ensures kind == KindFromDraw(d.kind) && size == 5.0 + d.size * 3.0
      ensures rotation == d.rotation * TwoPi && rotationSpeed == (d.rotationSpeed - 0.5) * 0.015
      ensures !active && cluster == DrawIndex(d.cluster, 3)
      ensures beatOffset == if kind == Heartbeat then d.beatOffset * TwoPi else 0.0
    {
      x := d.x * width;
      y := d.y * height;
      vx := (d.vx - 0.5) * 0.3;
      vy := (d.vy - 0.5) * 0.3;
      kind := KindFromDraw(d.kind);
      size := 5.0 + d.size * 3.0;
      rotation := d.rotation * TwoPi;
      rotationSpeed := (d.rotationSpeed - 0.5) * 0.015;
      active := false;
      cluster := DrawIndex(d.cluster, 3);
      beatOffset := if KindFromDraw(d.kind) == Heartbeat then d.beatOffset * TwoPi else 0.0;
    }

    /** `update()` */
    method Update(width: real, height: real)
      modifies this
      ensures (x, vx) == Bounce(old(x), old(vx), width)
      ensures (y, vy) == Bounce(old(y), old(vy), height)
      ensures rotation == old(rotation) + rotationSpeed
      ensures beatOffset == if kind == Heartbeat then old(beatOffset) + BeatSpeed else old(beatOffset)
      ensures active == old(active)
    {
      x := x + vx;
      y := y + vy;
      if x < 0.0 || x > width {
        vx := -vx;
      }
      if y < 0.0 || y > height {
        vy := -vy;
      }
      rotation := rotation + rotationSpeed;
      if kind == Heartbeat {
        beatOffset := beatOffset + BeatSpeed;
      }
    }

    /** `checkMouseProximity(mouse.x, mouse.y)` */
    method CheckMouseProximity(mouseX: Option<real>, mouseY: Option<real>)
      modifies this`active
      ensures active == NearPointer(x, y, mouseX, mouseY)
    {
      if Falsy(mouseX) || Falsy(mouseY) {
        active := false;
        return;
      }
      var dx := x - mouseX.value;
      var dy := y - mouseY.value;
      assert dx * dx + dy * dy == SquaredDistance(x, y, mouseX.value, mouseY.value);
      active := dx * dx + dy * dy < ProximitySquared;
    }
  }

  /** A new glyph starts inside the band on both axes. */
  lemma NewEntityInBand(width: real, height: real, d: EntityDraws)
    requires ValidDraws(d) && width >= 0.0 && height >= 0.0
    ensures InBand(d.x * width, (d.vx - 0.5) * 0.3, width)
    ensures InBand(d.y * height, (d.vy - 0.5) * 0.3, height)
  {
    assert d.x * width <= width;
    assert d.y * height <= height;
  }
}
