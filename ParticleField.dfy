/** The background particle animation of js/main.js as objects: each Particle
    updates its own fields, and the Field holds the canvas size, the particle
    pool, the isAnimationRunning flag and the frame requests. Drawing calls are
    not modelled beyond the list of connection lines of the latest frame. */
module ParticleField {
  import opened ParticleMotion
  import opened ParticleLinks
  import opened FrameLoop

  /** Below this viewport width the animation never starts. */
  const MinWidth: nat := 768

  class Particle {
    var x: real
    var y: real
    var vx: real
    var vy: real
    var radius: real

    function State(): PState
      reads this
    {
      PState(x, y, vx, vy, radius)
    }

    /** new Particle(): position and velocity from four random draws. */
    constructor (d: Draw, width: nat, height: nat)
      requires IsRandomDraw(d)
      ensures State() == Spawn(d, width, height)
    {
      var s := Spawn(d, width, height);
      x, y := s.x, s.y;
      vx, vy := s.vx, s.vy;
      radius := Radius;
    }

    /** Particle.update: move by the velocity, then reverse each velocity
        component whose new coordinate lies outside the canvas. */
    method Update(width: nat, height: nat)
      modifies this
      ensures x == old(x) + old(vx) && y == old(y) + old(vy)
      ensures vx == if x < 0.0 || x > width as real then -old(vx) else old(vx)
      ensures vy == if y < 0.0 || y > height as real then -old(vy) else old(vy)
      ensures radius == old(radius)
      ensures State() == Advance(old(State()), width, height)
    {
      x := x + vx;
      y := y + vy;
      if x < 0.0 || x > width as real {
        vx := -vx;
      }
      if y < 0.0 || y > height as real {
        vy := -vy;
      }
    }
  }

  /** The states of a sequence of particles. */
  ghost function StatesOf(ps: seq<Particle>): (r: seq<PState>)
    reads ps
    ensures |r| == |ps|
  {
    if ps == [] then [] else StatesOf(ps[..|ps| - 1]) + [ps[|ps| - 1].State()]
  }

  /** Entry k of StatesOf(ps) is the state of ps[k]. */
  lemma {:induction false} StatesOfAt(ps: seq<Particle>)
    ensures forall k :: 0 <= k < |ps| ==> StatesOf(ps)[k] == ps[k].State()
    decreases |ps|
  {
    if ps != [] {
      StatesOfAt(ps[..|ps| - 1]);
    }
  }

  class Field {
    var width: nat
    var height: nat
    var particles: seq<Particle>
    /** isAnimationRunning. */
    var running: bool
    /** Frame callbacks requested and not yet fired. */
    var pending: nat
    /** requestAnimationFrame calls issued so far. */
    var requests: nat
    /** Connection lines drawn since the canvas was last cleared. */
    var lines: seq<Line>
    /** Math.hypot, as far as the model needs it. */
    const hypot: (real, real) -> real

    /** No particle is in the pool twice, and distances are never negative. */
    ghost predicate Valid()
      reads this`particles
    {
      && (forall a, b :: 0 <= a < b < |particles| ==> particles[a] != particles[b])
      && (forall dx, dy :: hypot(dx, dy) >= 0.0)
    }

    /** The schedule state. */
    function Control(): Loop
      reads this`running, this`pending, this`requests
    {
      Loop(running, pending, requests)
    }

    /** The particle pool as values. */
    ghost function Pool(): (r: seq<PState>)
      reads this`particles, particles
      ensures |r| == |particles|
    {
      StatesOf(particles)
    }

    /** Entry k of the pool is the state of particle k. */
    lemma PoolAt()
      ensures forall k :: 0 <= k < |particles| ==> Pool()[k] == particles[k].State()
    {
      StatesOfAt(particles);
    }

    /** Every particle is settled on the current canvas. */
    ghost predicate Contained()
      reads this`particles, this`width, this`height, particles
    {
      AllSettled(Pool(), width, height)
    }

    /** The state when the canvas branch starts: an empty pool and
        isAnimationRunning set; the canvas has an HTML canvas's default size. */
    constructor (hypot: (real, real) -> real)
      requires forall dx, dy :: hypot(dx, dy) >= 0.0
      ensures Valid()
      ensures particles == [] && lines == [] && width == 300 && height == 150
      ensures Control() == Loop(true, 0, 0)
      ensures this.hypot == hypot
    {
      this.hypot := hypot;
      width, height := 300, 150;
      particles := [];
      running := true;
      pending, requests := 0, 0;
      lines := [];
    }

    /** setupCanvas: size the canvas to the viewport (which clears it) and
        replace the pool by ParticleCount new particles. */
    method SetupCanvas(innerWidth: nat, innerHeight: nat, draws: seq<Draw>)
      requires Valid()
      requires |draws| == ParticleCount
      requires forall k :: 0 <= k < |draws| ==> IsRandomDraw(draws[k])
      modifies this`width, this`height, this`particles, this`lines
      ensures Valid()
      ensures width == innerWidth && height == innerHeight && lines == []
      ensures |particles| == ParticleCount
      ensures forall k :: 0 <= k < |particles| ==> fresh(particles[k])
      ensures forall k :: 0 <= k < |particles| ==>
        particles[k].State() == Spawn(draws[k], innerWidth, innerHeight)
      ensures Contained()
    {
      width, height := innerWidth, innerHeight;
      lines := [];
      var pool: seq<Particle> := [];
      for k := 0 to ParticleCount
        invariant |pool| == k
        invariant forall m :: 0 <= m < k ==> fresh(pool[m])
        invariant forall m :: 0 <= m < k ==> pool[m].State() == Spawn(draws[m], width, height)
        invariant forall a, b :: 0 <= a < b < k ==> pool[a] != pool[b]
        modifies {}
      {
        var p := new Particle(draws[k], width, height);
        pool := pool + [p];
      }
      particles := pool;
      PoolAt();
      forall k | 0 <= k < |particles|
        ensures Settled(Pool()[k], width, height)
      {
        SpawnSettled(draws[k], width, height);
      }
    }

    /** One pass of connectParticles' inner loop: the lines from particle i to
        every later particle, in visiting order. ps is the pool as values. */
    method RowLines(i: nat, ghost ps: seq<PState>) returns (row: seq<Line>)
      requires ps == Pool() && i < |ps|
      ensures row == RowSoFar(LinkOf(ps, hypot), i, |ps|)
    {
      ghost var link := LinkOf(ps, hypot);
      PoolAt();
      var n := |particles|;
      row := [];
      var j := i + 1;
      while j < n
        invariant i + 1 <= j <= n
        invariant row == RowSoFar(link, i, j)
      {
        var a, b := particles[i], particles[j];
        var distance := hypot(a.x - b.x, a.y - b.y);
        assert link(i, j) == if distance < LinkDistance then [Line(i, j, Opacity(distance))] else [];
        if distance < LinkDistance {
          row := row + [Line(i, j, Opacity(distance))];
        }
        j := j + 1;
      }
    }

    /** connectParticles: visit every pair i < j once and draw a line when the
        two are closer than LinkDistance. ps is the pool as values. */
    method ConnectParticles(ghost ps: seq<PState>)
      requires ps == Pool()
      modifies this`lines
      ensures lines == old(lines) + Links(ps, hypot)
    {
      ghost var link := LinkOf(ps, hypot);
      var n := |particles|;
      var drawn: seq<Line> := [];
      var i := 0;
      while i < n
        invariant 0 <= i <= n
        invariant drawn == RowsSoFar(link, i, n)
        modifies {}
      {
        var row := RowLines(i, ps);
        drawn := drawn + row;
        i := i + 1;
      }
      lines := lines + drawn;
    }

    /** The forEach of animate: update every particle of the pool in turn. */
    method UpdateAll()
      requires Valid()
      modifies particles
      ensures Pool() == AdvanceAll(old(Pool()), width, height)
    {
      PoolAt();
      var i := 0;
      while i < |particles|
        invariant 0 <= i <= |particles|
        invariant forall k :: 0 <= k < i ==>
          particles[k].State() == Advance(old(particles[k].State()), width, height)
        invariant forall k :: i <= k < |particles| ==> particles[k].State() == old(particles[k].State())
      {
        particles[i].Update(width, height);
        i := i + 1;
      }
      PoolAt();
    }

    /** The body of animate past its guard: clear the canvas, update every
        particle, then draw the connections of the new positions. */
    method Redraw()
      requires Valid()
      modifies this`lines, particles
      ensures Pool() == AdvanceAll(old(Pool()), width, height)
      ensures lines == Links(Pool(), hypot)
    {
      lines := [];
      UpdateAll();
      ConnectParticles(Pool());
    }

    /** animate: with the flag clear, nothing; otherwise redraw and request the
        next frame. */
    method Animate()
      requires Valid()
      modifies this`lines, this`pending, this`requests, particles
      ensures Control() == AnimateStep(old(Control()))
      ensures !old(running) ==> Pool() == old(Pool()) && lines == old(lines)
      ensures old(running) ==> Pool() == AdvanceAll(old(Pool()), width, height)
      ensures old(running) ==> lines == Links(Pool(), hypot)
    {
      if !running {
        return;
      }
      Redraw();
      pending, requests := pending + 1, requests + 1;
    }

    /** The host fires a requested frame callback, which runs animate. */
    method FireFrame()
      requires Valid() && pending > 0
      modifies this`lines, this`pending, this`requests, particles
      ensures Control() == FrameStep(old(Control()))
      ensures !old(running) ==> Pool() == old(Pool()) && lines == old(lines)
      ensures old(running) ==> Pool() == AdvanceAll(old(Pool()), width, height)
      ensures old(running) ==> lines == Links(Pool(), hypot)
    {
      pending := pending - 1;
      Animate();
    }

    /** window.pauseCanvasAnimation. */
    method Pause()
      modifies this`running
      ensures !running
      ensures Control() == PauseStep(old(Control()))
    {
      running := false;
    }

    /** window.resumeCanvasAnimation as written: when paused, set the flag and
        run animate at once, even if a frame callback is still pending. */
    method Resume()
      requires Valid()
      modifies this`running, this`lines, this`pending, this`requests, particles
      ensures running
      ensures Control() == ResumeStep(old(Control()))
      ensures old(running) ==> Pool() == old(Pool()) && lines == old(lines)
      ensures !old(running) ==> Pool() == AdvanceAll(old(Pool()), width, height)
      ensures !old(running) ==> lines == Links(Pool(), hypot)
    {
      if !running {
        running := true;
        Animate();
      }
    }

    /** The corrected resume: when paused, set the flag, and run animate only
        when no frame callback is pending; a pending one carries the loop on. */
    method ResumeOnce()
      requires Valid()
      modifies this`running, this`lines, this`pending, this`requests, particles
      ensures running
      ensures Control() == ResumeOnceStep(old(Control()))
      ensures old(running) || old(pending) > 0 ==> Pool() == old(Pool()) && lines == old(lines)
      ensures !old(running) && old(pending) == 0 ==> Pool() == AdvanceAll(old(Pool()), width, height)
      ensures !old(running) && old(pending) == 0 ==> lines == Links(Pool(), hypot)
    {
      if !running {
        running := true;
        if pending == 0 {
          Animate();
        }
      }
    }
  }

  /** The canvas branch of the page script: no animation without a canvas, on
      a touch device or below MinWidth; otherwise setupCanvas, then animate. */
  method Boot(hasCanvas: bool, isTouchDevice: bool, innerWidth: nat, innerHeight: nat,
              draws: seq<Draw>, hypot: (real, real) -> real)
    returns (f: Field?)
    requires |draws| == ParticleCount
    requires forall k :: 0 <= k < |draws| ==> IsRandomDraw(draws[k])
    requires forall dx, dy :: hypot(dx, dy) >= 0.0
    ensures f == null <==> !hasCanvas || isTouchDevice || innerWidth < MinWidth
    ensures f != null ==> fresh(f) && f.Valid() && f.Contained()
    ensures f != null ==> |f.particles| == ParticleCount && f.Control() == Started
    ensures f != null ==> f.width == innerWidth && f.height == innerHeight
    ensures f != null ==> f.lines == Links(f.Pool(), hypot)
  {
    if !hasCanvas || isTouchDevice || innerWidth < MinWidth {
      return null;
    }
    f := new Field(hypot);
    f.SetupCanvas(innerWidth, innerHeight, draws);
    ghost var spawned := f.Pool();
    f.Animate();
    AdvanceAllKeepsSettled(spawned, innerWidth, innerHeight);
  }
}
