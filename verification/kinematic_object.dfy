/** The per-tick integrator of `KinematicObject`: gravity, the overwrite of
    the horizontal velocity by the input, two swept moves (along the ground,
    then straight up or down) and the position update, plus the `Teleport`
    and `ShiftGravity` utilities.

    The engine is reduced to values: `Physics2D.gravity`, `Time.deltaTime`,
    the desired velocity and the hits each `body.Cast` would report are the
    fields of a `Step`; the body's position is a field of `Body`. Lengths
    are passed in as numbers satisfying `IsMagnitude`.
 */
module KinematicObject {
  import opened Vectors
  import opened Contacts

  /** A move no longer than this is applied without querying for hits. */
  const MinMoveDistance: real := 0.001

  /** Capacity of the hit buffer handed to the cast. */
  const HitBufferSize: nat := 16

  /** `ShiftGravity` sets the global gravity to its argument times this. */
  const GravityScale: real := 9.8

  /** The per-object settings. */
  datatype Config = Config(minGroundNormal: Vec2, gravityModifier: real, gravityDirection: Vec2)

  /** The field initialisers of the component. */
  const DefaultConfig: Config := Config(Vec2(0.65, 0.65), 1.0, Vec2(0.0, -1.0))

  /** The state a tick reads and writes. */
  datatype Body = Body(velocity: Vec2, groundNormal: Vec2, isGrounded: bool, position: Vec2)

  /** What the engine supplies to one tick: the global gravity, the desired
      velocity, the step length, and the hits the horizontal and the
      vertical cast report, in the order they report them. */
  datatype Step = Step(gravity: Vec2, targetVelocity: Vec2, dt: real,
                       horizontalHits: seq<Hit>, verticalHits: seq<Hit>)

  /** The direction against gravity, used to classify ground. */
  function SurfaceUp(cfg: Config): Vec2 {
    Neg(cfg.gravityDirection)
  }

  /** Already moving with gravity. */
  predicate IsFalling(v: Vec2, cfg: Config) {
    Dot(v, SurfaceUp(cfg)) < 0.0
  }

  /** With the default threshold (the length of (0.65, 0.65), about 0.92)
      flat ground is ground, but a slope whose normal is (0.6, 0.8), about
      37 degrees, is a wall. */
  lemma DefaultThreshold(minMag: real)
    requires IsMagnitude(minMag, DefaultConfig.minGroundNormal)
    ensures IsGround(Up, SurfaceUp(DefaultConfig), minMag)
    ensures !IsGround(Vec2(0.6, 0.8), SurfaceUp(DefaultConfig), minMag)
  {
    assert minMag * minMag == 0.845;
    SquareBelow(minMag, 1.0);
    SquareBelow(0.8, minMag);
  }

  /** Under the default threshold a slope with normal (0.28, 0.96) is ground,
      and a body moving (1, -1) onto it in the vertical sweep keeps its
      horizontal speed; a projection on the full normal would give
      (1.1904, -0.3472) instead. */
  lemma DefaultSlopeDropsNormalComponent(minMag: real)
    requires IsMagnitude(minMag, DefaultConfig.minGroundNormal)
    ensures IsGround(Vec2(0.28, 0.96), SurfaceUp(DefaultConfig), minMag)
    ensures ResolveHit(Contact(Vec2(1.0, -1.0), Up, false, 1.0), Hit(Vec2(0.28, 0.96), 0.5),
                       SurfaceUp(DefaultConfig), minMag, true).velocity
            == Vec2(1.0, -0.0784)
    ensures GroundProjection(Vec2(1.0, -1.0), Vec2(0.28, 0.96)) == Vec2(1.1904, -0.3472)
  {
    assert minMag * minMag == 0.845;
    SquareBelow(minMag, 0.96);
    assert GroundProjection(Vec2(1.0, -1.0), Vec2(0.0, 0.96)) == Vec2(1.0, -0.0784);
    assert Scale(-0.68, Vec2(0.28, 0.96)) == Vec2(-0.1904, -0.6528);
  }

  // ---------------------------------------------------------------------
  // Gravity step

  /** Adds gravity (scaled by the modifier while falling), then replaces the
      horizontal component by the desired one. */
  function GravityStep(v: Vec2, target: Vec2, gravity: Vec2, cfg: Config, dt: real): (r: Vec2)
    ensures r.x == target.x
    ensures IsFalling(v, cfg) ==> r.y - v.y == cfg.gravityModifier * gravity.y * dt
    ensures !IsFalling(v, cfg) ==> r.y - v.y == gravity.y * dt
  {
    var increment := if IsFalling(v, cfg) then Scale(dt, Scale(cfg.gravityModifier, gravity)) else Scale(dt, gravity);
    var w := Add(v, increment);
    Vec2(target.x, w.y)
  }

  /** Falling and rising bodies under the same gravity gain vertical speed
      at rates that differ exactly by the modifier. */
  lemma GravityIsAsymmetric(falling: Vec2, rising: Vec2, target: Vec2, gravity: Vec2, cfg: Config, dt: real)
    requires IsFalling(falling, cfg) && !IsFalling(rising, cfg)
    ensures var f := GravityStep(falling, target, gravity, cfg, dt);
            var g := GravityStep(rising, target, gravity, cfg, dt);
            (f.y - falling.y) - (g.y - rising.y) == (cfg.gravityModifier - 1.0) * gravity.y * dt
  {
  }

  /** Once the falling test is settled, the prior horizontal velocity is
      forgotten: two velocities with the same vertical part and the same
      falling state step to the same velocity. */
  lemma GravityStepForgetsHorizontal(v1: Vec2, v2: Vec2, target: Vec2, gravity: Vec2, cfg: Config, dt: real)
    requires v1.y == v2.y && (IsFalling(v1, cfg) <==> IsFalling(v2, cfg))
    ensures GravityStep(v1, target, gravity, cfg, dt) == GravityStep(v2, target, gravity, cfg, dt)
  {
  }

  /** The falling test reads the whole velocity, so under a tilted gravity
      direction the prior horizontal velocity can pick the gravity branch:
      moving sideways at 10 makes a body rising at 1 count as falling. */
  lemma TiltedGravityHorizontalMatters()
    ensures var cfg := Config(Vec2(0.65, 0.65), 2.0, Vec2(0.6, -0.8));
            && GravityStep(Vec2(10.0, 1.0), Zero, Vec2(0.0, -9.8), cfg, 1.0).y == -18.6
            && GravityStep(Vec2(0.0, 1.0), Zero, Vec2(0.0, -9.8), cfg, 1.0).y == -8.8
  {
    var cfg := Config(Vec2(0.65, 0.65), 2.0, Vec2(0.6, -0.8));
    assert SurfaceUp(cfg) == Vec2(-0.6, 0.8);
    assert IsFalling(Vec2(10.0, 1.0), cfg);
    assert !IsFalling(Vec2(0.0, 1.0), cfg);
  }

  // ---------------------------------------------------------------------
  // One swept move

  /** The hits the loop sees: at most a buffer's worth, in cast order. */
  function CastResults(hits: seq<Hit>): (r: seq<Hit>)
    ensures |r| <= HitBufferSize && |r| <= |hits| && r == hits[..|r|]
    ensures |hits| <= HitBufferSize ==> r == hits
    ensures |hits| > HitBufferSize ==> |r| == HitBufferSize
  {
    if |hits| <= HitBufferSize then hits else hits[..HitBufferSize]
  }

  /** The hits a move of length `mag` processes: none when it is too short
      to be cast. */
  function Processed(mag: real, hits: seq<Hit>): (r: seq<Hit>)
    ensures mag <= MinMoveDistance ==> r == []
    ensures mag > MinMoveDistance ==> r == CastResults(hits)
  {
    if mag > MinMoveDistance then CastResults(hits) else []
  }

  /** `move.normalized * distance`. */
  function Travel(move: Vec2, mag: real, distance: real): (r: Vec2)
    ensures mag <= 0.0 || move == Zero ==> r == Zero
  {
    Scale(distance, Normalized(move, mag))
  }

  /** Travelling the move's own length gives back the move. */
  lemma TravelFullLength(move: Vec2, mag: real)
    requires IsMagnitude(mag, move) && mag > 0.0
    ensures Travel(move, mag, mag) == move
  {
    NormalizedRoundTrip(move, mag);
  }

  /** The body travels `|distance|` along the move, backwards when the
      distance is negative. */
  lemma TravelLength(move: Vec2, mag: real, distance: real)
    requires IsMagnitude(mag, move) && mag > 0.0
    ensures IsMagnitude(Abs(distance), Travel(move, mag, distance))
    ensures Dot(Travel(move, mag, distance), move) == distance * mag
  {
    var u := Normalized(move, mag);
    NormalizedRoundTrip(move, mag);
    DotScaled(distance, u);
    AbsSquared(distance);
    assert Dot(Scale(distance, u), move) == distance * Dot(u, Scale(mag, u));
  }

  /** The contact loop of one move of length `mag`, started from the body's
      state with the whole length still to travel. */
  function Sweep(b: Body, cfg: Config, minMag: real, mag: real, yMovement: bool, hits: seq<Hit>): Contact {
    ResolveHits(Contact(b.velocity, b.groundNormal, b.isGrounded, mag),
                Processed(mag, hits), SurfaceUp(cfg), minMag, yMovement)
  }

  /** `PerformMovement`: resolve the hits of one cast and move the body. */
  function PerformMovement(b: Body, cfg: Config, minMag: real, move: Vec2, mag: real,
                           yMovement: bool, hits: seq<Hit>): Body
    requires IsMagnitude(minMag, cfg.minGroundNormal)
    requires IsMagnitude(mag, move)
  {
    var c := Sweep(b, cfg, minMag, mag, yMovement, hits);
    Body(c.velocity, c.groundNormal, c.grounded, Add(b.position, Travel(move, mag, c.distance)))
  }

  /** A move not longer than `MinMoveDistance` queries nothing: velocity and
      ground state are kept and the body moves by the full (normalised and
      rescaled) move. */
  lemma ShortMoveSkipsContacts(b: Body, cfg: Config, minMag: real, move: Vec2, mag: real,
                               yMovement: bool, hits: seq<Hit>)
    requires IsMagnitude(minMag, cfg.minGroundNormal)
    requires IsMagnitude(mag, move)
    requires mag <= MinMoveDistance
    ensures var r := PerformMovement(b, cfg, minMag, move, mag, yMovement, hits);
            && r.velocity == b.velocity
            && r.isGrounded == b.isGrounded
            && r.groundNormal == b.groundNormal
            && (mag > 0.0 ==> r.position == Add(b.position, move))
            && (mag == 0.0 ==> r.position == b.position)
  {
    if mag > 0.0 {
      TravelFullLength(move, mag);
    }
  }

  /** With no hit to process the move only shifts the position, by the
      whole move. */
  lemma UnobstructedMove(b: Body, cfg: Config, minMag: real, move: Vec2, mag: real,
                         yMovement: bool, hits: seq<Hit>)
    requires IsMagnitude(minMag, cfg.minGroundNormal)
    requires IsMagnitude(mag, move)
    requires Processed(mag, hits) == []
    ensures PerformMovement(b, cfg, minMag, move, mag, yMovement, hits)
            == b.(position := Add(b.position, Travel(move, mag, mag)))
  {
  }

  /** The body moves along the move by the least of its length and every
      processed `hit.distance - ShellRadius`; that can be negative, which
      moves the body backwards. */
  lemma {:induction false} TravelIsClampedByHits(b: Body, cfg: Config, minMag: real, move: Vec2, mag: real,
                                                 yMovement: bool, hits: seq<Hit>)
    requires IsMagnitude(minMag, cfg.minGroundNormal)
    requires IsMagnitude(mag, move)
    ensures var r := PerformMovement(b, cfg, minMag, move, mag, yMovement, hits);
            var hs := Processed(mag, hits);
            exists d: real ::
              && d <= mag
              && (forall i :: 0 <= i < |hs| ==> d <= hs[i].distance - ShellRadius)
              && (d == mag || exists i :: 0 <= i < |hs| && d == hs[i].distance - ShellRadius)
              && (hs == [] ==> d == mag)
              && r.position == Add(b.position, Travel(move, mag, d))
  {
    var hs := Processed(mag, hits);
    var c := Contact(b.velocity, b.groundNormal, b.isGrounded, mag);
    DistanceIsMinimum(c, hs, SurfaceUp(cfg), minMag, yMovement);
    var d := Sweep(b, cfg, minMag, mag, yMovement, hits).distance;
    assert hs == [] ==> d == mag;
    assert PerformMovement(b, cfg, minMag, move, mag, yMovement, hits).position == Add(b.position, Travel(move, mag, d));
  }

  /** Hits beyond the buffer's capacity are never seen. */
  lemma ExcessHitsIgnored(b: Body, cfg: Config, minMag: real, move: Vec2, mag: real,
                          yMovement: bool, hits: seq<Hit>, extra: seq<Hit>)
    requires IsMagnitude(minMag, cfg.minGroundNormal)
    requires IsMagnitude(mag, move)
    requires |hits| == HitBufferSize
    ensures PerformMovement(b, cfg, minMag, move, mag, yMovement, hits + extra)
            == PerformMovement(b, cfg, minMag, move, mag, yMovement, hits)
  {
    assert (hits + extra)[..HitBufferSize] == hits;
  }

  // ---------------------------------------------------------------------
  // The tick

  /** The ground tangent, the ground normal turned a quarter turn clockwise. */
  function Tangent(n: Vec2): Vec2 {
    Vec2(n.y, -n.x)
  }

  /** The tangent is perpendicular to the normal and as long. */
  lemma TangentOfNormal(n: Vec2)
    ensures Dot(Tangent(n), n) == 0.0
    ensures Dot(Tangent(n), Tangent(n)) == Dot(n, n)
  {
  }

  /** The horizontal move: along the ground tangent. */
  function AlongGround(groundNormal: Vec2, dx: real): Vec2 {
    Scale(dx, Tangent(groundNormal))
  }

  /** The horizontal move is perpendicular to the ground normal, and its
      length is `|dx|` times the normal's. */
  lemma AlongGroundLength(groundNormal: Vec2, groundMag: real, dx: real)
    requires IsMagnitude(groundMag, groundNormal)
    ensures Dot(AlongGround(groundNormal, dx), groundNormal) == 0.0
    ensures IsMagnitude(Abs(dx) * groundMag, AlongGround(groundNormal, dx))
  {
    TangentOfNormal(groundNormal);
    ScaledMagnitude(dx, groundMag, Tangent(groundNormal));
  }

  /** The vertical move: along world up, whatever the gravity direction. */
  function Vertical(dy: real): (r: Vec2)
    ensures r.x == 0.0 && r.y == dy
    ensures IsMagnitude(Abs(dy), r)
  {
    AbsSquared(dy);
    Scale(dy, Up)
  }

  /** Velocity after the gravity step. */
  function StepVelocity(b: Body, cfg: Config, s: Step): Vec2 {
    GravityStep(b.velocity, s.targetVelocity, s.gravity, cfg, s.dt)
  }

  /** `deltaPosition`. */
  function Delta(b: Body, cfg: Config, s: Step): Vec2 {
    Scale(s.dt, StepVelocity(b, cfg, s))
  }

  /** Length of the horizontal move, given the length of the ground normal. */
  function HorizontalMag(b: Body, cfg: Config, groundMag: real, s: Step): real {
    Abs(Delta(b, cfg, s).x) * groundMag
  }

  /** Length of the vertical move. */
  function VerticalMag(b: Body, cfg: Config, s: Step): real {
    Abs(Delta(b, cfg, s).y)
  }

  /** The hits the horizontal sweep processes. */
  function HorizontalProcessed(b: Body, cfg: Config, groundMag: real, s: Step): seq<Hit> {
    Processed(HorizontalMag(b, cfg, groundMag, s), s.horizontalHits)
  }

  /** The hits the vertical sweep processes. */
  function VerticalProcessed(b: Body, cfg: Config, s: Step): seq<Hit> {
    Processed(VerticalMag(b, cfg, s), s.verticalHits)
  }

  /** The body after the gravity step, the reset of the ground flag and the
      horizontal sweep. */
  function AfterHorizontal(b: Body, cfg: Config, minMag: real, groundMag: real, s: Step): Body
    requires IsMagnitude(minMag, cfg.minGroundNormal)
    requires IsMagnitude(groundMag, b.groundNormal)
  {
    var v := StepVelocity(b, cfg, s);
    var d := Delta(b, cfg, s);
    AlongGroundLength(b.groundNormal, groundMag, d.x);
    PerformMovement(b.(velocity := v, isGrounded := false), cfg, minMag,
                    AlongGround(b.groundNormal, d.x), HorizontalMag(b, cfg, groundMag, s), false, s.horizontalHits)
  }

  /** `FixedUpdate`: one tick. */
  function FixedUpdate(b: Body, cfg: Config, minMag: real, groundMag: real, s: Step): Body
    requires IsMagnitude(minMag, cfg.minGroundNormal)
    requires IsMagnitude(groundMag, b.groundNormal)
  {
    var d := Delta(b, cfg, s);
    PerformMovement(AfterHorizontal(b, cfg, minMag, groundMag, s), cfg, minMag,
                    Vertical(d.y), VerticalMag(b, cfg, s), true, s.verticalHits)
  }

  /** The state the horizontal sweep leaves is its contact loop's result. */
  lemma AfterHorizontalIsSweep(b: Body, cfg: Config, minMag: real, groundMag: real, s: Step)
    requires IsMagnitude(minMag, cfg.minGroundNormal)
    requires IsMagnitude(groundMag, b.groundNormal)
    ensures var h := AfterHorizontal(b, cfg, minMag, groundMag, s);
            var c := Sweep(b.(velocity := StepVelocity(b, cfg, s), isGrounded := false), cfg, minMag,
                           HorizontalMag(b, cfg, groundMag, s), false, s.horizontalHits);
            h.velocity == c.velocity && h.groundNormal == c.groundNormal && h.isGrounded == c.grounded
  {
  }

  /** The state a tick leaves is the vertical sweep's contact loop's result. */
  lemma FixedUpdateIsSweep(b: Body, cfg: Config, minMag: real, groundMag: real, s: Step)
    requires IsMagnitude(minMag, cfg.minGroundNormal)
    requires IsMagnitude(groundMag, b.groundNormal)
    ensures var r := FixedUpdate(b, cfg, minMag, groundMag, s);
            var c := Sweep(AfterHorizontal(b, cfg, minMag, groundMag, s), cfg, minMag,
                           VerticalMag(b, cfg, s), true, s.verticalHits);
            r.velocity == c.velocity && r.groundNormal == c.groundNormal && r.isGrounded == c.grounded
  {
  }

  /** The ground flag does not survive a tick by itself: at the end of a
      tick it is set exactly when a processed hit of either sweep is
      ground. */
  lemma {:induction false} GroundedIffGroundHit(b: Body, cfg: Config, minMag: real, groundMag: real, s: Step)
    requires IsMagnitude(minMag, cfg.minGroundNormal)
    requires IsMagnitude(groundMag, b.groundNormal)
    ensures var hs := HorizontalProcessed(b, cfg, groundMag, s);
            var vs := VerticalProcessed(b, cfg, s);
            FixedUpdate(b, cfg, minMag, groundMag, s).isGrounded
            <==> (exists i :: 0 <= i < |hs| && IsGround(hs[i].normal, SurfaceUp(cfg), minMag))
                 || (exists i :: 0 <= i < |vs| && IsGround(vs[i].normal, SurfaceUp(cfg), minMag))
  {
    var up := SurfaceUp(cfg);
    var hs := HorizontalProcessed(b, cfg, groundMag, s);
    var vs := VerticalProcessed(b, cfg, s);
    var h := AfterHorizontal(b, cfg, minMag, groundMag, s);
    AfterHorizontalIsSweep(b, cfg, minMag, groundMag, s);
    GroundedIff(Contact(StepVelocity(b, cfg, s), b.groundNormal, false, HorizontalMag(b, cfg, groundMag, s)), hs, up, minMag, false);
    FixedUpdateIsSweep(b, cfg, minMag, groundMag, s);
    GroundedIff(Contact(h.velocity, h.groundNormal, h.isGrounded, VerticalMag(b, cfg, s)), vs, up, minMag, true);
  }

  /** A ground hit of the horizontal sweep keeps the body grounded to the
      end of the tick, whatever the vertical sweep finds: ground, once
      found, is never withdrawn. */
  lemma {:induction false} HorizontalGroundSurvivesTick(b: Body, cfg: Config, minMag: real, groundMag: real, s: Step)
    requires IsMagnitude(minMag, cfg.minGroundNormal)
    requires IsMagnitude(groundMag, b.groundNormal)
    requires var hs := HorizontalProcessed(b, cfg, groundMag, s);
             exists i :: 0 <= i < |hs| && IsGround(hs[i].normal, SurfaceUp(cfg), minMag)
    ensures AfterHorizontal(b, cfg, minMag, groundMag, s).isGrounded
    ensures FixedUpdate(b, cfg, minMag, groundMag, s).isGrounded
  {
    var h := AfterHorizontal(b, cfg, minMag, groundMag, s);
    AfterHorizontalIsSweep(b, cfg, minMag, groundMag, s);
    GroundedIff(Contact(StepVelocity(b, cfg, s), b.groundNormal, false, HorizontalMag(b, cfg, groundMag, s)),
                HorizontalProcessed(b, cfg, groundMag, s), SurfaceUp(cfg), minMag, false);
    FixedUpdateIsSweep(b, cfg, minMag, groundMag, s);
    GroundedStays(Contact(h.velocity, h.groundNormal, h.isGrounded, VerticalMag(b, cfg, s)),
                  VerticalProcessed(b, cfg, s), SurfaceUp(cfg), minMag, true);
  }

  /** Only the vertical sweep moves the ground normal, and only to the full
      normal of its last ground hit. */
  lemma {:induction false} GroundNormalOnlyFromVerticalSweep(b: Body, cfg: Config, minMag: real, groundMag: real, s: Step)
    requires IsMagnitude(minMag, cfg.minGroundNormal)
    requires IsMagnitude(groundMag, b.groundNormal)
    ensures AfterHorizontal(b, cfg, minMag, groundMag, s).groundNormal == b.groundNormal
    ensures var vs := VerticalProcessed(b, cfg, s);
            var r := FixedUpdate(b, cfg, minMag, groundMag, s);
            && ((forall i :: 0 <= i < |vs| ==> !IsGround(vs[i].normal, SurfaceUp(cfg), minMag))
                ==> r.groundNormal == b.groundNormal)
            && ((exists i :: 0 <= i < |vs| && IsGround(vs[i].normal, SurfaceUp(cfg), minMag))
                ==> exists i :: 0 <= i < |vs| && IsGround(vs[i].normal, SurfaceUp(cfg), minMag)
                                && r.groundNormal == vs[i].normal
                                && forall j :: i < j < |vs| ==> !IsGround(vs[j].normal, SurfaceUp(cfg), minMag))
  {
    var v := StepVelocity(b, cfg, s);
    var up := SurfaceUp(cfg);
    var h := AfterHorizontal(b, cfg, minMag, groundMag, s);
    AfterHorizontalIsSweep(b, cfg, minMag, groundMag, s);
    GroundNormalFromLastGroundHit(Contact(v, b.groundNormal, false, HorizontalMag(b, cfg, groundMag, s)),
                                  HorizontalProcessed(b, cfg, groundMag, s), up, minMag, false);
    FixedUpdateIsSweep(b, cfg, minMag, groundMag, s);
    GroundNormalFromLastGroundHit(Contact(h.velocity, h.groundNormal, h.isGrounded, VerticalMag(b, cfg, s)),
                                  VerticalProcessed(b, cfg, s), up, minMag, true);
  }

  /** The horizontal sweep with nothing in the way. */
  lemma HorizontalUnobstructed(b: Body, cfg: Config, minMag: real, groundMag: real, s: Step)
    requires IsMagnitude(minMag, cfg.minGroundNormal)
    requires IsMagnitude(groundMag, b.groundNormal)
    requires s.horizontalHits == []
    ensures var h := AfterHorizontal(b, cfg, minMag, groundMag, s);
            && h.velocity == StepVelocity(b, cfg, s)
            && !h.isGrounded
            && h.groundNormal == b.groundNormal
            && (groundMag > 0.0 ==> h.position == Add(b.position, AlongGround(b.groundNormal, Delta(b, cfg, s).x)))
            && (groundMag == 0.0 ==> h.position == b.position)
  {
    var d := Delta(b, cfg, s);
    var b0 := b.(velocity := StepVelocity(b, cfg, s), isGrounded := false);
    var mh := HorizontalMag(b, cfg, groundMag, s);
    var moveH := AlongGround(b.groundNormal, d.x);
    AlongGroundLength(b.groundNormal, groundMag, d.x);
    UnobstructedMove(b0, cfg, minMag, moveH, mh, false, s.horizontalHits);
    FullHorizontalTravel(b.groundNormal, groundMag, d.x);
  }

  /** An unclamped horizontal move travels its whole length. */
  lemma FullHorizontalTravel(n: Vec2, groundMag: real, dx: real)
    requires IsMagnitude(groundMag, n)
    ensures var move := AlongGround(n, dx);
            var mag := Abs(dx) * groundMag;
            && (groundMag > 0.0 ==> Travel(move, mag, mag) == move)
            && (groundMag == 0.0 ==> Travel(move, mag, mag) == Zero)
  {
    if dx == 0.0 {
      assert AlongGround(n, dx) == Zero;
    } else if groundMag > 0.0 {
      PositiveProduct(Abs(dx), groundMag);
      AlongGroundLength(n, groundMag, dx);
      TravelFullLength(AlongGround(n, dx), Abs(dx) * groundMag);
    }
  }

  /** The vertical sweep with nothing in the way. */
  lemma VerticalUnobstructed(b: Body, cfg: Config, minMag: real, groundMag: real, s: Step)
    requires IsMagnitude(minMag, cfg.minGroundNormal)
    requires IsMagnitude(groundMag, b.groundNormal)
    requires s.verticalHits == []
    ensures var h := AfterHorizontal(b, cfg, minMag, groundMag, s);
            FixedUpdate(b, cfg, minMag, groundMag, s) == h.(position := Add(h.position, Vertical(Delta(b, cfg, s).y)))
  {
    var d := Delta(b, cfg, s);
    var h := AfterHorizontal(b, cfg, minMag, groundMag, s);
    var mv := VerticalMag(b, cfg, s);
    UnobstructedMove(h, cfg, minMag, Vertical(d.y), mv, true, s.verticalHits);
    if d.y != 0.0 {
      assert mv > 0.0;
      TravelFullLength(Vertical(d.y), mv);
    }
  }

  /** With nothing in the way the tick moves the body by the whole
      `deltaPosition`, split into the along-ground and the vertical move,
      keeps the stepped velocity and ends ungrounded. */
  lemma NoContactsMeansFreeMotion(b: Body, cfg: Config, minMag: real, groundMag: real, s: Step)
    requires IsMagnitude(minMag, cfg.minGroundNormal)
    requires IsMagnitude(groundMag, b.groundNormal)
    requires s.horizontalHits == [] && s.verticalHits == []
    ensures var r := FixedUpdate(b, cfg, minMag, groundMag, s);
            var d := Delta(b, cfg, s);
            && r.velocity == StepVelocity(b, cfg, s)
            && !r.isGrounded
            && r.groundNormal == b.groundNormal
            && (groundMag > 0.0 ==> r.position == Add(Add(b.position, AlongGround(b.groundNormal, d.x)), Vertical(d.y)))
            && (groundMag == 0.0 ==> r.position == Add(b.position, Vertical(d.y)))
  {
    HorizontalUnobstructed(b, cfg, minMag, groundMag, s);
    VerticalUnobstructed(b, cfg, minMag, groundMag, s);
  }

  /** A downward move of length `-dy` cut short to `t` moves down by `t`. */
  lemma DownwardTravel(dy: real, t: real)
    requires dy < 0.0
    ensures Travel(Vertical(dy), Abs(dy), t) == Vec2(0.0, -t)
  {
    assert Normalized(Vertical(dy), Abs(dy)) == Vec2(0.0, -1.0) by {
      assert Abs(dy) == -dy;
      assert (1.0 / -dy) * dy == -1.0;
    }
  }

  /** The vertical sweep of a landing: one floor hit within reach. */
  lemma LandingSweep(h: Body, cfg: Config, minMag: real, dy: real, floor: real)
    requires cfg.gravityDirection == Vec2(0.0, -1.0)
    requires IsMagnitude(minMag, cfg.minGroundNormal) && minMag < 1.0
    requires h.velocity.y < 0.0
    requires dy < -MinMoveDistance && floor - ShellRadius < -dy
    ensures PerformMovement(h, cfg, minMag, Vertical(dy), Abs(dy), true, [Hit(Up, floor)])
            == Body(Vec2(h.velocity.x, 0.0), Up, true, Vec2(h.position.x, h.position.y - floor + ShellRadius))
  {
    var c0 := Contact(h.velocity, h.groundNormal, h.isGrounded, Abs(dy));
    var c := ResolveHit(c0, Hit(Up, floor), SurfaceUp(cfg), minMag, true);
    assert Processed(Abs(dy), [Hit(Up, floor)]) == [Hit(Up, floor)];
    assert [Hit(Up, floor)][..0] == [];
    assert ResolveHits(c0, [], SurfaceUp(cfg), minMag, true) == c0;
    assert ResolveHits(c0, [Hit(Up, floor)], SurfaceUp(cfg), minMag, true) == c;
    assert Sweep(h, cfg, minMag, Abs(dy), true, [Hit(Up, floor)]) == c;
    assert c == Contact(Vec2(h.velocity.x, 0.0), Up, true, floor - ShellRadius);
    DownwardTravel(dy, floor - ShellRadius);
  }

  /** Landing: a body falling onto flat ground, with nothing in the way of
      its horizontal move and a floor within reach of its vertical move,
      ends the tick grounded on the floor with no vertical velocity and its
      desired horizontal velocity, `ShellRadius` above the floor and
      straight below where the horizontal move left it. */
  lemma LandingOnFlatGround(b: Body, cfg: Config, minMag: real, groundMag: real, s: Step, floor: real)
    requires cfg.gravityDirection == Vec2(0.0, -1.0)
    requires IsMagnitude(minMag, cfg.minGroundNormal) && minMag < 1.0
    requires IsMagnitude(groundMag, b.groundNormal)
    requires s.dt > 0.0
    requires s.horizontalHits == [] && s.verticalHits == [Hit(Up, floor)]
    requires Delta(b, cfg, s).y < -MinMoveDistance
    requires floor - ShellRadius < -Delta(b, cfg, s).y
    ensures var h := AfterHorizontal(b, cfg, minMag, groundMag, s);
            var r := FixedUpdate(b, cfg, minMag, groundMag, s);
            && r.isGrounded
            && r.groundNormal == Up
            && r.velocity == Vec2(s.targetVelocity.x, 0.0)
            && r.position == Vec2(h.position.x, h.position.y - floor + ShellRadius)
  {
    HorizontalUnobstructed(b, cfg, minMag, groundMag, s);
    FallingStep(b, cfg, s);
    FixedUpdateIsVerticalMove(b, cfg, minMag, groundMag, s);
    LandingSweep(AfterHorizontal(b, cfg, minMag, groundMag, s), cfg, minMag, Delta(b, cfg, s).y, floor);
  }

  /** A downward `deltaPosition` over a positive time step comes from a
      downward velocity. */
  lemma FallingStep(b: Body, cfg: Config, s: Step)
    requires s.dt > 0.0 && Delta(b, cfg, s).y < 0.0
    ensures StepVelocity(b, cfg, s).y < 0.0
  {
    NegativeFactor(s.dt, StepVelocity(b, cfg, s).y);
  }

  /** The tick ends with the vertical move from where the horizontal one
      left the body. */
  lemma FixedUpdateIsVerticalMove(b: Body, cfg: Config, minMag: real, groundMag: real, s: Step)
    requires IsMagnitude(minMag, cfg.minGroundNormal)
    requires IsMagnitude(groundMag, b.groundNormal)
    ensures FixedUpdate(b, cfg, minMag, groundMag, s)
            == PerformMovement(AfterHorizontal(b, cfg, minMag, groundMag, s), cfg, minMag,
                               Vertical(Delta(b, cfg, s).y), Abs(Delta(b, cfg, s).y), true, s.verticalHits)
  {
  }

  // ---------------------------------------------------------------------
  // Utilities

  /** `Teleport`: the position is set (dropping the depth coordinate) and the
      velocity zeroed; no contact is consulted. */
  function Teleport(b: Body, p: Vec3): (r: Body)
    ensures r.position == Vec2(p.x, p.y) && r.velocity == Zero
    ensures r.groundNormal == b.groundNormal && r.isGrounded == b.isGrounded
  {
    b.(position := Vec2(p.x, p.y), velocity := Scale(0.0, b.velocity))
  }

  /** Teleporting erases where the body was and how it moved. */
  lemma TeleportForgetsMotion(b1: Body, b2: Body, p: Vec3)
    requires b1.groundNormal == b2.groundNormal && b1.isGrounded == b2.isGrounded
    ensures Teleport(b1, p) == Teleport(b2, p)
    ensures Teleport(Teleport(b1, p), p) == Teleport(b1, p)
  {
  }

  /** The outcome of `ShiftGravity`: the new settings and the new global
      gravity. */
  datatype Shifted = Shifted(config: Config, gravity: Vec2)

  /** `ShiftGravity`, given the length `m` of the new direction. The stored
      direction is the unit vector along the input; the global gravity is
      the input itself times 9.8, so its strength follows the input's
      length. */
  function ShiftGravity(cfg: Config, newDirection: Vec2, m: real): (r: Shifted)
    requires IsMagnitude(m, newDirection)
    ensures r.config.minGroundNormal == cfg.minGroundNormal
    ensures r.config.gravityModifier == cfg.gravityModifier
    ensures m > 0.0 ==> IsUnit(r.config.gravityDirection)
    ensures m > 0.0 ==> Scale(m, r.config.gravityDirection) == newDirection
    ensures m > 0.0 ==> r.gravity == Scale(GravityScale * m, r.config.gravityDirection)
    ensures m == 0.0 ==> r.config.gravityDirection == Zero
    ensures r.gravity == Scale(GravityScale, newDirection)
  {
    NormalizedRoundTrip(newDirection, m);
    Shifted(cfg.(gravityDirection := Normalized(newDirection, m)), Scale(GravityScale, newDirection))
  }
}
