/*
 * Value-level specification of the particle-network background of the home
 * page: one particle's per-frame step, the population seeding formula, the
 * pair scan that decides which connecting lines are drawn, and the
 * invariants these keep. The imperative engine (particle_engine.dfy) is
 * proved against these definitions.
 *
 * Arithmetic is exact (`real`); distances are compared through their
 * squares, so no square root is needed.
 */
module ParticleModel {

  /** Radius of pointer influence around a particle (the tracker's `radius`). */
  const POINTER_RADIUS: real := 120.0
  /** Two particles closer than this are connected by a line. */
  const LINK_DISTANCE: real := 100.0
  /** Surface area, in square pixels, allotted to one particle when seeding. */
  const AREA_PER_PARTICLE: nat := 12000
  /** Smallest population a seeding ever produces. */
  const MIN_PARTICLES: nat := 20
  /** Growth of `size` per frame while the pointer is near. */
  const GROW_STEP: real := 1.0
  /** Shrinkage of `size` per frame while the pointer is present but far. */
  const DECAY_STEP: real := 0.3
  /** `size` never exceeds this multiple of `baseSize`. */
  const GROWTH_CAP: real := 4.0

  /** The observable state of one particle. */
  datatype PState = PState(x: real, y: real, dx: real, dy: real, size: real, baseSize: real)

  /** The pointer as one frame sees it: absent, or at a surface position. */
  datatype Pointer = NoPointer | PointerAt(px: real, py: real)

  /** The five random numbers, each in [0, 1), drawn for one new particle. */
  datatype Draw = Draw(rSize: real, rX: real, rY: real, rDx: real, rDy: real)

  /** One connecting line: particle indices i < j and their squared distance. */
  datatype Link = Link(i: nat, j: nat, distSq: real)

  function Sq(a: real): real { a * a }

  function Abs(a: real): real { if a < 0.0 then -a else a }

  function Min(a: real, b: real): real { if a <= b then a else b }

  // ---------------------------------------------------------------- seeding

  /**
   * Population size for a surface of the given pixel dimensions:
   * max(20, floor(width * height / 12000)).
   */
  function ParticleCount(width: nat, height: nat): (n: nat)
    ensures n >= MIN_PARTICLES
    ensures n > MIN_PARTICLES ==> n * AREA_PER_PARTICLE <= width * height < (n + 1) * AREA_PER_PARTICLE
    ensures n == MIN_PARTICLES ==> width * height < (MIN_PARTICLES + 1) * AREA_PER_PARTICLE
  {
    var q := (width * height) / AREA_PER_PARTICLE;
    if q < MIN_PARTICLES then MIN_PARTICLES else q
  }

  lemma ParticleCountExamples()
    ensures ParticleCount(1200, 800) == 80
    ensures ParticleCount(0, 0) == MIN_PARTICLES
    ensures ParticleCount(400, 500) == MIN_PARTICLES
  {
  }

  /** The random numbers are what `Math.random` can return. */
  predicate InUnit(d: Draw)
  {
    0.0 <= d.rSize < 1.0 && 0.0 <= d.rX < 1.0 && 0.0 <= d.rY < 1.0 &&
    0.0 <= d.rDx < 1.0 && 0.0 <= d.rDy < 1.0
  }

  /** A random stream every draw of which is in range. */
  ghost predicate RandomStream(rand: nat -> Draw)
  {
    forall k: nat :: InUnit(rand(k))
  }

  /**
   * A newly created particle: size in [1, 4), position inset by its size from
   * each edge, velocity components in [-0.6, 0.6), and baseSize equal to size.
   */
  function Spawn(d: Draw, width: real, height: real): PState
  {
    var size := d.rSize * 3.0 + 1.0;
    PState(Inset(d.rX, size, width),
           Inset(d.rY, size, height),
           (d.rDx - 0.5) * 1.2,
           (d.rDy - 0.5) * 1.2,
           size, size)
  }

  /** A coordinate drawn as r * (bound - 2 * size) + size. */
  function Inset(r: real, size: real, bound: real): real
  {
    r * (bound - size * 2.0) + size
  }

  /** The population a seeding builds from the first `n` draws of `rand`. */
  function Population(rand: nat -> Draw, n: nat, width: real, height: real): seq<PState>
  {
    seq(n, k requires 0 <= k < n => Spawn(rand(k), width, height))
  }

  // ------------------------------------------------------------- one frame

  /** Velocity component after the reflect-after-move rule on one axis. */
  function Bounce(pos: real, v: real, bound: real): real
  {
    if pos < 0.0 || pos > bound then -v else v
  }

  /** Whether the pointer lies strictly inside the interaction radius of (x, y). */
  predicate Near(ptr: Pointer, x: real, y: real)
  {
    ptr.PointerAt? && Sq(ptr.px - x) + Sq(ptr.py - y) < Sq(POINTER_RADIUS)
  }

  /** `size` after the pointer rule, evaluated at the particle's new position. */
  function NextSize(p: PState, ptr: Pointer, x: real, y: real): real
  {
    if ptr.NoPointer? then p.size
    else if Near(ptr, x, y) then Min(p.baseSize * GROWTH_CAP, p.size + GROW_STEP)
    else if p.size > p.baseSize then p.size - DECAY_STEP
    else p.size
  }

  /**
   * One frame of one particle on a `width` x `height` surface: move by the
   * velocity, reflect each velocity component whose new coordinate is off
   * the surface, then grow or decay `size` according to the pointer.
   */
  function Step(p: PState, width: real, height: real, ptr: Pointer): PState
  {
    var x := p.x + p.dx;
    var y := p.y + p.dy;
    PState(x, y, Bounce(x, p.dx, width), Bounce(y, p.dy, height), NextSize(p, ptr, x, y), p.baseSize)
  }

  /** One animation frame over the whole population. */
  function TickAll(ps: seq<PState>, width: real, height: real, ptr: Pointer): seq<PState>
  {
    seq(|ps|, k requires 0 <= k < |ps| => Step(ps[k], width, height, ptr))
  }

  /** A particle followed over one frame per pointer sample in `ptrs`. */
  function Evolve(p: PState, width: real, height: real, ptrs: seq<Pointer>): PState
    decreases |ptrs|
  {
    if ptrs == [] then p else Evolve(Step(p, width, height, ptrs[0]), width, height, ptrs[1..])
  }

  // ----------------------------------------------------- one-frame properties

  /** Bounds on `size` that the code keeps: at most 4 x baseSize, and more than 0.3 below baseSize. */
  predicate SizeInv(p: PState)
  {
    0.0 <= p.baseSize && p.baseSize - DECAY_STEP < p.size <= GROWTH_CAP * p.baseSize
  }

  /**
   * Where a coordinate can be, relative to [0, bound], under the reflect-after-move
   * rule: inside, or outside by at most one frame's speed and already heading back.
   */
  predicate AxisInv(pos: real, v: real, bound: real)
  {
    (0.0 <= pos <= bound) ||
    (pos < 0.0 && 0.0 < v && -v <= pos) ||
    (bound < pos && v < 0.0 && pos <= bound - v)
  }

  lemma StepMotion(p: PState, width: real, height: real, ptr: Pointer)
    ensures var q := Step(p, width, height, ptr);
      q.x == p.x + p.dx && q.y == p.y + p.dy && q.baseSize == p.baseSize &&
      (q.dx == -p.dx <== (q.x < 0.0 || q.x > width)) &&
      (q.dx == p.dx <== (0.0 <= q.x <= width)) &&
      (q.dy == -p.dy <== (q.y < 0.0 || q.y > height)) &&
      (q.dy == p.dy <== (0.0 <= q.y <= height)) &&
      Abs(q.dx) == Abs(p.dx) && Abs(q.dy) == Abs(p.dy)
  {
  }

  lemma StepPointerRule(p: PState, width: real, height: real, ptr: Pointer)
    ensures var q := Step(p, width, height, ptr);
      (ptr.NoPointer? ==> q.size == p.size) &&
      (Near(ptr, q.x, q.y) ==> q.size == Min(GROWTH_CAP * p.baseSize, p.size + GROW_STEP)) &&
      (ptr.PointerAt? && !Near(ptr, q.x, q.y) ==>
         (q.size < p.size <==> p.size > p.baseSize) &&
         (q.size < p.size ==> q.size == p.size - DECAY_STEP) &&
         (q.size >= p.size ==> q.size == p.size))
  {
  }

  lemma StepKeepsSizeInv(p: PState, width: real, height: real, ptr: Pointer)
    requires SizeInv(p)
    ensures SizeInv(Step(p, width, height, ptr))
  {
  }

  /** One axis of the reflect rule keeps the coordinate within one frame's travel of the surface. */
  lemma {:induction false} BounceKeepsAxisInv(pos: real, v: real, bound: real)
    requires 0.0 <= bound
    requires AxisInv(pos, v, bound)
    ensures AxisInv(pos + v, Bounce(pos + v, v, bound), bound)
  {
    var q := pos + v;
    if 0.0 <= pos <= bound {
      if q < 0.0 {
        assert v < 0.0 && -(-v) <= q;
      } else if q > bound {
        assert v > 0.0 && q <= bound + v;
      }
    } else if pos < 0.0 {
      assert 0.0 <= q < v;
    } else {
      assert bound + v < q <= bound;
    }
  }

  /** The decay branch has no floor: size can end up below baseSize. */
  lemma DecayUndershoots()
    ensures var p := PState(50.0, 50.0, 0.0, 0.0, 1.1, 1.0);
      var q := Step(p, 800.0, 600.0, PointerAt(500.0, 500.0));
      q.size < q.baseSize && SizeInv(q)
  {
    var p := PState(50.0, 50.0, 0.0, 0.0, 1.1, 1.0);
    assert !Near(PointerAt(500.0, 500.0), 50.0, 50.0);
  }

  /** A particle at the left edge moving left is first carried off the surface, then returns. */
  lemma LeftEdgeReflection()
    ensures var p := PState(0.0, 10.0, -0.4, 0.0, 2.0, 2.0);
      var q := Step(p, 800.0, 600.0, NoPointer);
      q.x == -0.4 && q.dx == 0.4 &&
      Step(q, 800.0, 600.0, NoPointer).x == 0.0
  {
  }

  // --------------------------------------------------- many-frame properties

  lemma {:induction false} EvolveKeepsInvariants(p: PState, width: real, height: real, ptrs: seq<Pointer>)
    requires 0.0 <= width && 0.0 <= height
    requires SizeInv(p)
    requires AxisInv(p.x, p.dx, width) && AxisInv(p.y, p.dy, height)
    ensures var q := Evolve(p, width, height, ptrs);
      SizeInv(q) && q.baseSize == p.baseSize &&
      Abs(q.dx) == Abs(p.dx) && Abs(q.dy) == Abs(p.dy) &&
      AxisInv(q.x, q.dx, width) && AxisInv(q.y, q.dy, height)
    decreases |ptrs|
  {
    if ptrs != [] {
      var s := Step(p, width, height, ptrs[0]);
      StepKeepsSizeInv(p, width, height, ptrs[0]);
      BounceKeepsAxisInv(p.x, p.dx, width);
      BounceKeepsAxisInv(p.y, p.dy, height);
      EvolveKeepsInvariants(s, width, height, ptrs[1..]);
    }
  }

  /** The pointer stays within the interaction radius of the particle on every frame of `ptrs`. */
  predicate StaysNear(p: PState, width: real, height: real, ptrs: seq<Pointer>)
    decreases |ptrs|
  {
    ptrs == [] ||
    (var s := Step(p, width, height, ptrs[0]);
     Near(ptrs[0], s.x, s.y) && StaysNear(s, width, height, ptrs[1..]))
  }

  /** The pointer is present but outside the interaction radius on every frame of `ptrs`. */
  predicate StaysFar(p: PState, width: real, height: real, ptrs: seq<Pointer>)
    decreases |ptrs|
  {
    ptrs == [] ||
    (var s := Step(p, width, height, ptrs[0]);
     ptrs[0].PointerAt? && !Near(ptrs[0], s.x, s.y) && StaysFar(s, width, height, ptrs[1..]))
  }

  /** While the pointer stays near, size grows by 1 per frame until it is capped at 4 x baseSize. */
  lemma {:induction false} GrowthSaturates(p: PState, width: real, height: real, ptrs: seq<Pointer>)
    requires 0.0 <= p.baseSize && p.size <= GROWTH_CAP * p.baseSize
    requires StaysNear(p, width, height, ptrs)
    ensures Evolve(p, width, height, ptrs).size == Min(GROWTH_CAP * p.baseSize, p.size + |ptrs| as real)
    decreases |ptrs|
  {
    if ptrs != [] {
      var s := Step(p, width, height, ptrs[0]);
      assert s.size == Min(GROWTH_CAP * p.baseSize, p.size + 1.0);
      GrowthSaturates(s, width, height, ptrs[1..]);
      assert |ptrs[1..]| as real + 1.0 == |ptrs| as real;
    }
  }

  /** While the pointer stays far and size is still above baseSize, size falls by exactly 0.3 per frame. */
  lemma {:induction false} DecayPerFrame(p: PState, width: real, height: real, ptrs: seq<Pointer>)
    requires StaysFar(p, width, height, ptrs)
    requires ptrs == [] || p.size - DECAY_STEP * (|ptrs| - 1) as real > p.baseSize
    ensures Evolve(p, width, height, ptrs).size == p.size - DECAY_STEP * |ptrs| as real
    decreases |ptrs|
  {
    if ptrs != [] {
      var s := Step(p, width, height, ptrs[0]);
      assert p.size > p.baseSize;
      assert s.size == p.size - DECAY_STEP;
      DecayPerFrame(s, width, height, ptrs[1..]);
    }
  }

  /** Once size is at or below baseSize, a pointer that stays far leaves it alone. */
  lemma {:induction false} DecaySettles(p: PState, width: real, height: real, ptrs: seq<Pointer>)
    requires StaysFar(p, width, height, ptrs)
    requires p.size <= p.baseSize
    ensures Evolve(p, width, height, ptrs).size == p.size
    decreases |ptrs|
  {
    if ptrs != [] {
      DecaySettles(Step(p, width, height, ptrs[0]), width, height, ptrs[1..]);
    }
  }

  /** A frame keeps the population's size, order of base sizes, and every particle's size bounds. */
  lemma TickKeepsPopulation(ps: seq<PState>, width: real, height: real, ptr: Pointer)
    requires forall k :: 0 <= k < |ps| ==> SizeInv(ps[k])
    ensures |TickAll(ps, width, height, ptr)| == |ps|
    ensures forall k :: 0 <= k < |ps| ==>
      TickAll(ps, width, height, ptr)[k].baseSize == ps[k].baseSize &&
      SizeInv(TickAll(ps, width, height, ptr)[k])
  {
  }

  /**
   * A seeded particle has baseSize == size in [1, 4), velocity components in
   * [-0.6, 0.6), keeps the size bounds, and starts inside the surface when the
   * surface is at least twice its size on each axis.
   */
  lemma SpawnRanges(d: Draw, width: real, height: real)
    requires InUnit(d)
    ensures var p := Spawn(d, width, height);
      p.baseSize == p.size && 1.0 <= p.size < 4.0 && SizeInv(p) &&
      -0.6 <= p.dx < 0.6 && -0.6 <= p.dy < 0.6 &&
      (width >= 2.0 * p.size ==> p.size <= p.x <= width - p.size && AxisInv(p.x, p.dx, width)) &&
      (height >= 2.0 * p.size ==> p.size <= p.y <= height - p.size && AxisInv(p.y, p.dy, height))
  {
    var size := d.rSize * 3.0 + 1.0;
    if width >= 2.0 * size {
      InsetWithin(d.rX, size, width);
    }
    if height >= 2.0 * size {
      InsetWithin(d.rY, size, height);
    }
  }

  /** A coordinate drawn with a fraction in [0, 1) lies at least `size` away from both edges. */
  lemma InsetWithin(r: real, size: real, bound: real)
    requires 0.0 <= r < 1.0 && 0.0 <= size && bound >= 2.0 * size
    ensures size <= Inset(r, size, bound) <= bound - size
  {
    var span := bound - size * 2.0;
    ScaledWithin(r, span);
    assert Inset(r, size, bound) == r * span + size;
  }

  /** A fraction in [0, 1) of a non-negative span lies within the span. */
  lemma ScaledWithin(r: real, span: real)
    requires 0.0 <= r < 1.0 && 0.0 <= span
    ensures 0.0 <= r * span <= span
  {
    NonNegProduct(r, span);
    NonNegProduct(1.0 - r, span);
    assert (1.0 - r) * span == span - r * span;
  }

  lemma NonNegProduct(a: real, b: real)
    requires 0.0 <= a && 0.0 <= b
    ensures 0.0 <= a * b
  {
  }

  lemma PopulationFacts(rand: nat -> Draw, n: nat, width: real, height: real)
    requires RandomStream(rand)
    ensures |Population(rand, n, width, height)| == n
    ensures forall k :: 0 <= k < n ==>
      var p := Population(rand, n, width, height)[k];
      p.baseSize == p.size && SizeInv(p)
  {
    forall k | 0 <= k < n
      ensures var p := Population(rand, n, width, height)[k]; p.baseSize == p.size && SizeInv(p)
    {
      SpawnRanges(rand(k), width, height);
    }
  }

  // ------------------------------------------------------------ connections

  function DistSq(a: PState, b: PState): real
  {
    Sq(a.x - b.x) + Sq(a.y - b.y)
  }

  /** Whether two particles are connected by a line. */
  predicate Close(a: PState, b: PState)
  {
    DistSq(a, b) < Sq(LINK_DISTANCE)
  }

  /** Lines from particle i to particles j, j+1, ..., in scan order. */
  function Row(ps: seq<PState>, i: nat, j: nat): seq<Link>
    requires i < |ps|
    decreases |ps| - j
  {
    if j >= |ps| then []
    else (if Close(ps[i], ps[j]) then [Link(i, j, DistSq(ps[i], ps[j]))] else []) + Row(ps, i, j + 1)
  }

  /** Lines of rows i, i+1, ..., each row scanning only later particles. */
  function Rows(ps: seq<PState>, i: nat): seq<Link>
    decreases |ps| - i
  {
    if i >= |ps| then [] else Row(ps, i, i + 1) + Rows(ps, i + 1)
  }

  /** Every line drawn in one frame, in the order the pair scan draws them. */
  function Links(ps: seq<PState>): seq<Link>
  {
    Rows(ps, 0)
  }

  /** Scan order: by first index, then by second. */
  predicate Before(a: Link, b: Link)
  {
    a.i < b.i || (a.i == b.i && a.j < b.j)
  }

  predicate StrictlyOrdered(ls: seq<Link>)
  {
    forall a, b :: 0 <= a < b < |ls| ==> Before(ls[a], ls[b])
  }

  lemma {:induction false} RowMembers(ps: seq<PState>, i: nat, j: nat, l: Link)
    requires i < |ps|
    ensures l in Row(ps, i, j) <==>
      l.i == i && j <= l.j < |ps| && Close(ps[i], ps[l.j]) && l.distSq == DistSq(ps[i], ps[l.j])
    decreases |ps| - j
  {
    if j < |ps| {
      RowMembers(ps, i, j + 1, l);
    }
  }

  lemma {:induction false} RowsMembers(ps: seq<PState>, i: nat, l: Link)
    ensures l in Rows(ps, i) <==>
      i <= l.i < l.j < |ps| && Close(ps[l.i], ps[l.j]) && l.distSq == DistSq(ps[l.i], ps[l.j])
    decreases |ps| - i
  {
    if i < |ps| {
      RowMembers(ps, i, i + 1, l);
      RowsMembers(ps, i + 1, l);
    }
  }

  /**
   * A line joins particles i and j exactly when i < j and they are closer
   * than the link distance; its recorded squared distance is theirs.
   */
  lemma LinksMembers(ps: seq<PState>, l: Link)
    ensures l in Links(ps) <==>
      l.i < l.j < |ps| && Close(ps[l.i], ps[l.j]) && l.distSq == DistSq(ps[l.i], ps[l.j])
  {
    RowsMembers(ps, 0, l);
  }

  lemma {:induction false} RowOrdered(ps: seq<PState>, i: nat, j: nat)
    requires i < |ps|
    ensures StrictlyOrdered(Row(ps, i, j))
    ensures forall k :: 0 <= k < |Row(ps, i, j)| ==> Row(ps, i, j)[k].i == i && j <= Row(ps, i, j)[k].j
    decreases |ps| - j
  {
    if j < |ps| {
      RowOrdered(ps, i, j + 1);
    }
  }

  lemma {:induction false} RowsOrdered(ps: seq<PState>, i: nat)
    ensures StrictlyOrdered(Rows(ps, i))
    ensures forall k :: 0 <= k < |Rows(ps, i)| ==> i <= Rows(ps, i)[k].i
    decreases |ps| - i
  {
    if i < |ps| {
      RowOrdered(ps, i, i + 1);
      RowsOrdered(ps, i + 1);
      var r, rest := Row(ps, i, i + 1), Rows(ps, i + 1);
      assert forall a, b :: 0 <= a < |r| <= b < |r| + |rest| ==> Before((r + rest)[a], (r + rest)[b]) by {
        forall a, b | 0 <= a < |r| <= b < |r| + |rest|
          ensures Before((r + rest)[a], (r + rest)[b])
        {
          assert (r + rest)[a] == r[a] && (r + rest)[b] == rest[b - |r|];
        }
      }
    }
  }

  /** The scan draws its lines in strict (i, j) order, so no pair is drawn twice. */
  lemma LinksOrdered(ps: seq<PState>)
    ensures StrictlyOrdered(Links(ps))
    ensures forall a, b :: 0 <= a < b < |Links(ps)| ==>
      (Links(ps)[a].i, Links(ps)[a].j) != (Links(ps)[b].i, Links(ps)[b].j)
  {
    RowsOrdered(ps, 0);
  }

  /** Opacity of a line between particles `dist` apart. */
  function Alpha(dist: real): (a: real)
    requires 0.0 <= dist < LINK_DISTANCE
    ensures 0.0 < a <= 1.0
  {
    1.0 - dist / LINK_DISTANCE
  }

  /** Closer pairs draw more opaque lines. */
  lemma AlphaDecreasing(d1: real, d2: real)
    requires 0.0 <= d1 < d2 < LINK_DISTANCE
    ensures Alpha(d2) < Alpha(d1)
  {
  }

  lemma AlphaAtHalfDistance()
    ensures Alpha(50.0) == 0.5
  {
  }

  /** For non-negative reals, comparing squares is comparing the values. */
  lemma {:induction false} SquareMonotone(d: real, r: real)
    requires 0.0 <= d && 0.0 <= r
    ensures d < r <==> Sq(d) < Sq(r)
  {
    if d < r {
      var e := r - d;
      assert Sq(r) == Sq(d) + 2.0 * d * e + e * e;
      NonNegProduct(d, e);
      assert e * e > 0.0;
    } else {
      var e := d - r;
      assert Sq(d) == Sq(r) + 2.0 * r * e + e * e;
      NonNegProduct(r, e);
      NonNegProduct(e, e);
    }
  }

  /**
   * Whatever the exact distance `dist` of a drawn line (the square root of its
   * recorded squared distance), it is below the link distance and its alpha
   * lies in (0, 1].
   */
  lemma DrawnAlphaInRange(ps: seq<PState>, l: Link, dist: real)
    requires l in Links(ps)
    requires 0.0 <= dist && Sq(dist) == l.distSq
    ensures dist < LINK_DISTANCE
    ensures 0.0 < Alpha(dist) <= 1.0
  {
    LinksMembers(ps, l);
    SquareMonotone(dist, LINK_DISTANCE);
  }
}
