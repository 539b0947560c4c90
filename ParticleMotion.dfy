/** Motion of one background particle (class Particle in js/main.js):
    creation from random draws, and update's move-then-reflect step.
    Coordinates are reals; the canvas size is the integer canvas.width and
    canvas.height. */
module ParticleMotion {

  /** setupCanvas creates this many particles. */
  const ParticleCount: nat := 60

  /** Every particle's radius. */
  const Radius: real := 2.0

  /** Largest speed per axis: (Math.random() - 0.5) * 0.5 lies in [-0.25, 0.25). */
  const MaxSpeed: real := 0.25

  /** The four Math.random() values one Particle constructor consumes, in order. */
  datatype Draw = Draw(rx: real, ry: real, rvx: real, rvy: real)

  /** Math.random() returns a value in [0, 1). */
  predicate IsRandomDraw(d: Draw) {
    0.0 <= d.rx < 1.0 && 0.0 <= d.ry < 1.0 && 0.0 <= d.rvx < 1.0 && 0.0 <= d.rvy < 1.0
  }

  /** A particle's position, velocity and radius. */
  datatype PState = PState(x: real, y: real, vx: real, vy: real, radius: real)

  function Abs(r: real): real {
    if r < 0.0 then -r else r
  }

  /** Math.random() * size: a point of [0, size), or 0 when size is 0. */
  function Scale(r: real, size: nat): (v: real)
    requires 0.0 <= r < 1.0
    ensures 0.0 <= v <= size as real
    ensures size > 0 ==> v < size as real
  {
    var s := size as real;
    var gap := 1.0 - r;
    assert s - r * s == gap * s;
    assert 0.0 < gap && 0.0 <= s;
    assert gap * s >= 0.0;
    r * s
  }

  /** The Particle constructor: position uniform over the canvas, velocity in
      [-0.25, 0.25) on each axis, radius 2. */
  function Spawn(d: Draw, width: nat, height: nat): (p: PState)
    requires IsRandomDraw(d)
    ensures 0.0 <= p.x <= width as real && (width > 0 ==> p.x < width as real)
    ensures 0.0 <= p.y <= height as real && (height > 0 ==> p.y < height as real)
    ensures -MaxSpeed <= p.vx < MaxSpeed && -MaxSpeed <= p.vy < MaxSpeed
    ensures p.radius == Radius
  {
    PState(Scale(d.rx, width), Scale(d.ry, height),
           (d.rvx - 0.5) * 0.5, (d.rvy - 0.5) * 0.5, Radius)
  }

  /** One axis of update: move by v, then reverse v when the new coordinate
      lies outside [0, bound]. The coordinate itself is never clamped. */
  function Reflect(pos: real, v: real, bound: real): (real, real) {
    var p := pos + v;
    (p, if p < 0.0 || p > bound then -v else v)
  }

  /** Particle.update on a canvas of the given size. */
  function Advance(s: PState, width: nat, height: nat): PState {
    var (x, vx) := Reflect(s.x, s.vx, width as real);
    var (y, vy) := Reflect(s.y, s.vy, height as real);
    PState(x, y, vx, vy, s.radius)
  }

  /** update in full: the position moves by the old velocity, a velocity
      component changes sign exactly when the new coordinate is outside its
      range, speed and radius are kept, and nothing is clamped. */
  lemma AdvanceSpec(s: PState, width: nat, height: nat)
    ensures Advance(s, width, height).x == s.x + s.vx
    ensures Advance(s, width, height).y == s.y + s.vy
    ensures Advance(s, width, height).vx
         == (if s.x + s.vx < 0.0 || s.x + s.vx > width as real then -s.vx else s.vx)
    ensures Advance(s, width, height).vy
         == (if s.y + s.vy < 0.0 || s.y + s.vy > height as real then -s.vy else s.vy)
    ensures Abs(Advance(s, width, height).vx) == Abs(s.vx)
    ensures Abs(Advance(s, width, height).vy) == Abs(s.vy)
    ensures Advance(s, width, height).radius == s.radius
  {
  }

  /** The overshoot example: at x = width - 0.1 moving right at 0.3, one update
      ends beyond the right edge, unclamped, with the velocity reversed. */
  lemma OvershootExample(width: nat, y: real, vy: real)
    ensures var s := Advance(PState(width as real - 0.1, y, 0.3, vy, Radius), width, 1000);
            s.x == width as real + 0.2 && s.x > width as real && s.vx == -0.3
  {
  }

  /** Where a coordinate may be on one axis: inside [0, bound], or outside by
      less than one step and already heading back in. */
  predicate InBand(pos: real, v: real, bound: real) {
    || (0.0 <= pos <= bound)
    || (pos < 0.0 && v > 0.0 && pos + v >= 0.0)
    || (pos > bound && v < 0.0 && pos + v <= bound)
  }

  /** A particle is settled when both axes are in band and its speed per axis
      is at most MaxSpeed. */
  predicate Settled(s: PState, width: nat, height: nat) {
    && Abs(s.vx) <= MaxSpeed && Abs(s.vy) <= MaxSpeed
    && InBand(s.x, s.vx, width as real) && InBand(s.y, s.vy, height as real)
  }

  /** A settled particle overshoots the canvas by at most one step's worth:
      -|vx| <= x <= width + |vx|, and the same for y. */
  lemma SettledIsContained(s: PState, width: nat, height: nat)
    requires Settled(s, width, height)
    ensures -Abs(s.vx) <= s.x <= width as real + Abs(s.vx)
    ensures -Abs(s.vy) <= s.y <= height as real + Abs(s.vy)
  {
  }

  /** A freshly spawned particle is settled. */
  lemma SpawnSettled(d: Draw, width: nat, height: nat)
    requires IsRandomDraw(d)
    ensures Settled(Spawn(d, width, height), width, height)
  {
  }

  /** One axis: reflection keeps the coordinate in band. */
  lemma ReflectKeepsBand(pos: real, v: real, bound: real)
    requires InBand(pos, v, bound) && bound >= 0.0
    ensures InBand(Reflect(pos, v, bound).0, Reflect(pos, v, bound).1, bound)
  {
  }

  /** update keeps a particle settled, on any canvas size. */
  lemma AdvanceKeepsSettled(s: PState, width: nat, height: nat)
    requires Settled(s, width, height)
    ensures Settled(Advance(s, width, height), width, height)
  {
    ReflectKeepsBand(s.x, s.vx, width as real);
    ReflectKeepsBand(s.y, s.vy, height as real);
  }

  /** n frames of update. */
  function AdvanceN(s: PState, width: nat, height: nat, n: nat): PState
    decreases n
  {
    if n == 0 then s else AdvanceN(Advance(s, width, height), width, height, n - 1)
  }

  /** For all frames: a spawned particle stays settled, so within one step of the
      canvas, and keeps its speed and radius. */
  lemma {:induction false} SettledForever(s: PState, width: nat, height: nat, n: nat)
    requires Settled(s, width, height)
    ensures Settled(AdvanceN(s, width, height, n), width, height)
    ensures Abs(AdvanceN(s, width, height, n).vx) == Abs(s.vx)
    ensures Abs(AdvanceN(s, width, height, n).vy) == Abs(s.vy)
    ensures AdvanceN(s, width, height, n).radius == s.radius
    decreases n
  {
    if n > 0 {
      AdvanceKeepsSettled(s, width, height);
      SettledForever(Advance(s, width, height), width, height, n - 1);
    }
  }

  /** update applied to every particle of a pool. */
  function AdvanceAll(ps: seq<PState>, width: nat, height: nat): (r: seq<PState>)
    ensures |r| == |ps|
    ensures forall i :: 0 <= i < |ps| ==> r[i] == Advance(ps[i], width, height)
  {
    seq(|ps|, i requires 0 <= i < |ps| => Advance(ps[i], width, height))
  }

  /** Every particle of a pool is settled. */
  predicate AllSettled(ps: seq<PState>, width: nat, height: nat) {
    forall k :: 0 <= k < |ps| ==> Settled(ps[k], width, height)
  }

  /** One frame of update keeps a whole settled pool settled. */
  lemma AdvanceAllKeepsSettled(ps: seq<PState>, width: nat, height: nat)
    requires AllSettled(ps, width, height)
    ensures AllSettled(AdvanceAll(ps, width, height), width, height)
  {
    forall k | 0 <= k < |ps| ensures Settled(AdvanceAll(ps, width, height)[k], width, height) {
      AdvanceKeepsSettled(ps[k], width, height);
    }
  }
}
