/*
 * The particle-network engine of the home page as the code runs it: mutable
 * particle objects updated in place, a pointer tracker overwritten by input
 * handlers, and an engine object holding the surface dimensions and the live
 * particle list. Every state change is proved against ParticleModel.
 *
 * Drawing calls, frame scheduling and listener registration are host
 * services; the engine records only whether listeners are attached and
 * whether a frame is pending, and returns the lines a frame draws.
 */
module ParticleEngine {
  import opened Wrappers
  import opened ParticleModel

  /** Viewport widths at or below this do not start the background. */
  const NARROW_VIEWPORT: int := 480

  /** The first touch point of a touch event, in client coordinates. */
  datatype Touch = Touch(clientX: real, clientY: real)

  /** A measured dimension: the displayed size, or the backing size when the displayed size is 0. */
  function Measure(client: nat, backing: nat): (m: nat)
    ensures client != 0 ==> m == client
    ensures client == 0 ==> m == backing
  {
    if client != 0 then client else backing
  }

  /** One particle of the background. */
  class Particle {
    var x: real
    var y: real
    var dx: real
    var dy: real
    var size: real
    /** The size the particle was created with; it is never written again. */
    const baseSize: real

    function State(): PState
      reads this
    {
      PState(x, y, dx, dy, size, baseSize)
    }

    constructor (x: real, y: real, dx: real, dy: real, size: real)
      ensures State() == PState(x, y, dx, dy, size, size)
    {
      this.x, this.y, this.dx, this.dy, this.size := x, y, dx, dy, size;
      baseSize := size;
    }

    /** One frame: move, reflect at the surface edges, react to the pointer. */
    method Update(width: real, height: real, mouse: Tracker)
      requires mouse.Valid()
      modifies this
      ensures State() == Step(old(State()), width, height, mouse.Current())
    {
      x := x + dx;
      y := y + dy;
      if x < 0.0 || x > width {
        dx := dx * -1.0;
      }
      if y < 0.0 || y > height {
        dy := dy * -1.0;
      }
      if mouse.x.Some? {
        var distSq := Sq(mouse.x.value - x) + Sq(mouse.y.value - y);
        if distSq < Sq(mouse.radius) {
          size := Min(baseSize * 4.0, size + 1.0);
        } else if size > baseSize {
          size := size - 0.3;
        }
      }
    }
  }

  /** The last known pointer position relative to the surface. */
  class Tracker {
    var x: Option<real>
    var y: Option<real>
    const radius: real := POINTER_RADIUS

    /** Both coordinates are known, or neither is. */
    ghost predicate Valid()
      reads this
    {
      x.Some? == y.Some?
    }

    constructor ()
      ensures Valid() && x == None && y == None
    {
      x, y := None, None;
    }

    /** The pointer as a frame sees it. */
    function Current(): Pointer
      requires Valid()
      reads this
    {
      if x.Some? then PointerAt(x.value, y.value) else NoPointer
    }

    method OnMouseMove(clientX: real, clientY: real, rectLeft: real, rectTop: real)
      modifies this
      ensures Valid()
      ensures x == Some(clientX - rectLeft) && y == Some(clientY - rectTop)
      ensures Current() == PointerAt(clientX - rectLeft, clientY - rectTop)
    {
      x := Some(clientX - rectLeft);
      y := Some(clientY - rectTop);
    }

    method OnTouchMove(firstTouch: Option<Touch>, rectLeft: real, rectTop: real)
      requires Valid()
      modifies this
      ensures Valid()
      ensures firstTouch.None? ==> x == old(x) && y == old(y)
      ensures firstTouch.Some? ==>
        x == Some(firstTouch.value.clientX - rectLeft) && y == Some(firstTouch.value.clientY - rectTop)
    {
      if firstTouch.None? {
        return;
      }
      var touch := firstTouch.value;
      x := Some(touch.clientX - rectLeft);
      y := Some(touch.clientY - rectTop);
    }

    /** Pointer leaves the window, or a touch ends. */
    method OnMouseOut()
      modifies this
      ensures Valid()
      ensures x == None && y == None && Current() == NoPointer
    {
      x := None;
      y := None;
    }
  }

  /** The background: surface dimensions, the live particle list, and the pointer tracker. */
  class Engine {
    /** Dimensions the simulation uses (measured at start and on every resize). */
    var width: nat
    var height: nat
    /** The surface's backing resolution. */
    var canvasWidth: nat
    var canvasHeight: nat
    var particles: seq<Particle>
    const mouse: Tracker
    /** Resize and pointer listeners are attached. */
    var listening: bool
    /** A next frame is scheduled. */
    var frameScheduled: bool

    ghost predicate Valid()
      reads this, mouse, particles
    {
      mouse.Valid() &&
      (forall i, j :: 0 <= i < j < |particles| ==> particles[i] != particles[j]) &&
      (forall i :: 0 <= i < |particles| ==> SizeInv(particles[i].State()))
    }

    /** The particles' states, in list order. */
    ghost function Snapshot(): (s: seq<PState>)
      reads this, particles
      ensures |s| == |particles|
      ensures forall k :: 0 <= k < |particles| ==> s[k] == particles[k].State()
    {
      seq(|particles|, k reads this, particles requires 0 <= k < |particles| => particles[k].State())
    }

    constructor (canvasWidth: nat, canvasHeight: nat)
      ensures Valid() && fresh(mouse)
      ensures this.canvasWidth == canvasWidth && this.canvasHeight == canvasHeight
      ensures particles == [] && mouse.Current() == NoPointer
      ensures !listening && !frameScheduled
    {
      this.canvasWidth, this.canvasHeight := canvasWidth, canvasHeight;
      width, height := canvasWidth, canvasHeight;
      particles := [];
      mouse := new Tracker();
      listening, frameScheduled := false, false;
    }

    /** Discards every particle and seeds ParticleCount(width, height) new ones from `rand`. */
    method InitParticles(rand: nat -> Draw)
      requires Valid() && RandomStream(rand)
      modifies this`particles
      ensures Valid()
      ensures |particles| == ParticleCount(width, height)
      ensures forall k :: 0 <= k < |particles| ==> fresh(particles[k])
      ensures Snapshot() == Population(rand, ParticleCount(width, height), width as real, height as real)
    {
      particles := [];
      var count := ParticleCount(width, height);
      var w, h := width as real, height as real;
      PopulationFacts(rand, count, w, h);
      var i := 0;
      while i < count
        invariant 0 <= i <= count && |particles| == i
        invariant forall k :: 0 <= k < i ==> fresh(particles[k])
        invariant forall a, b :: 0 <= a < b < i ==> particles[a] != particles[b]
        invariant forall k :: 0 <= k < i ==> particles[k].State() == Population(rand, count, w, h)[k]
      {
        var d := rand(i);
        var size := d.rSize * 3.0 + 1.0;
        var px := d.rX * (w - size * 2.0) + size;
        var py := d.rY * (h - size * 2.0) + size;
        var pdx := (d.rDx - 0.5) * 1.2;
        var pdy := (d.rDy - 0.5) * 1.2;
        var p := new Particle(px, py, pdx, pdy, size);
        assert p.State() == Population(rand, count, w, h)[i];
        particles := particles + [p];
        i := i + 1;
      }
      assert Snapshot() == Population(rand, count, w, h);
    }

    /** The pair scan: returns, in drawing order, every line one frame draws. */
    method Connect() returns (drawn: seq<Link>)
      requires Valid()
      ensures drawn == Links(Snapshot())
    {
      ghost var s := Snapshot();
      drawn := [];
      var n := |particles|;
      var i := 0;
      while i < n
        invariant 0 <= i <= n
        invariant drawn + Rows(s, i) == Links(s)
      {
        var a := particles[i];
        assert a.State() == s[i];
        var j := i + 1;
        while j < n
          invariant i + 1 <= j <= n
          invariant drawn + (Row(s, i, j) + Rows(s, i + 1)) == Links(s)
        {
          var b := particles[j];
          var distSq := Sq(a.x - b.x) + Sq(a.y - b.y);
          assert b.State() == s[j];
          assert distSq == DistSq(s[i], s[j]);
          ghost var rest := Row(s, i, j + 1) + Rows(s, i + 1);
          if distSq < Sq(LINK_DISTANCE) {
            assert Row(s, i, j) + Rows(s, i + 1) == [Link(i, j, distSq)] + rest;
            drawn := drawn + [Link(i, j, distSq)];
          } else {
            assert Row(s, i, j) + Rows(s, i + 1) == rest;
          }
          j := j + 1;
        }
        i := i + 1;
      }
    }

    /** One animation frame: update every particle once, in order, then draw the lines. */
    method Animate() returns (drawn: seq<Link>)
      requires Valid()
      modifies this`frameScheduled, particles
      ensures Valid() && frameScheduled && particles == old(particles)
      ensures Snapshot() == TickAll(old(Snapshot()), width as real, height as real, mouse.Current())
      ensures drawn == Links(Snapshot())
    {
      ghost var before := Snapshot();
      ghost var ptr := mouse.Current();
      var w, h := width as real, height as real;
      var i := 0;
      while i < |particles|
        invariant 0 <= i <= |particles|
        invariant mouse.Valid() && mouse.Current() == ptr
        invariant forall k :: 0 <= k < i ==> particles[k].State() == Step(before[k], w, h, ptr)
        invariant forall k :: i <= k < |particles| ==> particles[k].State() == before[k]
      {
        particles[i].Update(w, h, mouse);
        i := i + 1;
      }
      ghost var after := Snapshot();
      forall k | 0 <= k < |particles|
        ensures after[k] == TickAll(before, w, h, ptr)[k] && SizeInv(after[k])
      {
        StepKeepsSizeInv(before[k], w, h, ptr);
      }
      assert after == TickAll(before, w, h, ptr);
      assert Valid();
      drawn := Connect();
      frameScheduled := true;
    }

    /** The window was resized: re-measure, resize the backing surface, re-seed. */
    method OnResize(clientWidth: nat, clientHeight: nat, rand: nat -> Draw)
      requires Valid() && RandomStream(rand)
      modifies this
      ensures Valid()
      ensures width == Measure(clientWidth, old(canvasWidth)) && height == Measure(clientHeight, old(canvasHeight))
      ensures canvasWidth == width && canvasHeight == height
      ensures |particles| == ParticleCount(width, height)
      ensures forall k :: 0 <= k < |particles| ==> fresh(particles[k])
      ensures Snapshot() == Population(rand, ParticleCount(width, height), width as real, height as real)
      ensures listening == old(listening) && frameScheduled == old(frameScheduled)
    {
      width := Measure(clientWidth, canvasWidth);
      height := Measure(clientHeight, canvasHeight);
      canvasWidth, canvasHeight := width, height;
      InitParticles(rand);
    }

    /**
     * Mounting the background: on a narrow viewport or without a surface
     * nothing happens; otherwise measure, attach listeners, seed, and run
     * the first frame.
     */
    method Mount(innerWidth: int, hasCanvas: bool, clientWidth: nat, clientHeight: nat, rand: nat -> Draw)
      returns (started: bool, drawn: seq<Link>)
      requires Valid() && RandomStream(rand)
      requires !listening && !frameScheduled
      modifies this
      ensures Valid()
      ensures started <==> innerWidth > NARROW_VIEWPORT && hasCanvas
      ensures !started ==> unchanged(this) && drawn == []
      ensures started ==>
        listening && frameScheduled &&
        width == Measure(clientWidth, old(canvasWidth)) && height == Measure(clientHeight, old(canvasHeight)) &&
        canvasWidth == width && canvasHeight == height &&
        |particles| == ParticleCount(width, height) &&
        (forall k :: 0 <= k < |particles| ==> fresh(particles[k])) &&
        Snapshot() == TickAll(Population(rand, ParticleCount(width, height), width as real, height as real),
                              width as real, height as real, mouse.Current()) &&
        drawn == Links(Snapshot())
    {
      if innerWidth <= NARROW_VIEWPORT || !hasCanvas {
        return false, [];
      }
      started := true;
      width := Measure(clientWidth, canvasWidth);
      height := Measure(clientHeight, canvasHeight);
      canvasWidth, canvasHeight := width, height;
      listening := true;
      InitParticles(rand);
      drawn := Animate();
    }

    /** Unmounting: detach the listeners and cancel the pending frame. */
    method Unmount()
      modifies this`listening, this`frameScheduled
      ensures !listening && !frameScheduled
    {
      listening := false;
      frameScheduled := false;
    }
  }
}
