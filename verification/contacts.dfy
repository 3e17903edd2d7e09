/** The contact loop of `KinematicObject.PerformMovement`: how one swept
    query's hits, taken in the order the engine reports them, classify
    ground, bend the velocity and shorten the travel distance.
 */
module Contacts {
  import opened Vectors

  /** Skin kept between the body and any surface it touches. */
  const ShellRadius: real := 0.01

  /** One result of the engine's swept cast: the surface normal and the
      distance along the move at which it was met. */
  datatype Hit = Hit(normal: Vec2, distance: real)

  /** What the loop carries from one hit to the next. */
  datatype Contact = Contact(velocity: Vec2, groundNormal: Vec2, grounded: bool, distance: real)

  /** A surface is ground when its normal leans towards `up` by more than
      the threshold (the length of `minGroundNormal`). */
  predicate IsGround(n: Vec2, up: Vec2, minMag: real) {
    Dot(n, up) > minMag
  }

  /** The normal the projections use: a ground hit met by the vertical sweep
      has its x-component dropped after it has been stored as the ground
      normal; every other hit keeps its full normal. */
  function ContactNormal(h: Hit, up: Vec2, minMag: real, yMovement: bool): (n: Vec2)
    ensures n.y == h.normal.y
    ensures n.x == 0.0 || n == h.normal
    ensures n != h.normal ==> yMovement && IsGround(h.normal, up, minMag)
    ensures yMovement && IsGround(h.normal, up, minMag) ==> n == Vec2(0.0, h.normal.y)
  {
    if yMovement && IsGround(h.normal, up, minMag) then Vec2(0.0, h.normal.y) else h.normal
  }

  /** Ground branch: only a component pointing into the surface is removed. */
  function GroundProjection(v: Vec2, n: Vec2): (r: Vec2)
    ensures Dot(v, n) < 0.0 ==> Dot(r, n) == Dot(v, n) * (1.0 - Dot(n, n))
    ensures Dot(v, n) < 0.0 && IsUnit(n) ==> Dot(r, n) == 0.0
    ensures Dot(v, n) >= 0.0 ==> r == v
  {
    var p := Dot(v, n);
    if p < 0.0 then Sub(v, Scale(p, n)) else v
  }

  /** Wall branch: the component along the normal is removed whatever its
      sign, so a body moving away from the surface is stopped as well. */
  function WallProjection(v: Vec2, n: Vec2): (r: Vec2)
    ensures Dot(r, n) == Dot(v, n) * (1.0 - Dot(n, n))
    ensures IsUnit(n) ==> Dot(r, n) == 0.0
  {
    Sub(v, Scale(Dot(v, n), n))
  }

  /** One iteration of the contact loop. */
  function ResolveHit(c: Contact, h: Hit, up: Vec2, minMag: real, yMovement: bool): (r: Contact)
    ensures r.grounded <==> c.grounded || IsGround(h.normal, up, minMag)
    ensures r.groundNormal != c.groundNormal ==> yMovement && IsGround(h.normal, up, minMag)
    ensures yMovement && IsGround(h.normal, up, minMag) ==> r.groundNormal == h.normal
    ensures r.distance <= c.distance && r.distance <= h.distance - ShellRadius
    ensures r.distance == c.distance || r.distance == h.distance - ShellRadius
  {
    var ground := IsGround(h.normal, up, minMag);
    var grounded := c.grounded || ground;
    var n := ContactNormal(h, up, minMag, yMovement);
    var v := if grounded then GroundProjection(c.velocity, n) else WallProjection(c.velocity, n);
    var d := h.distance - ShellRadius;
    Contact(v,
            if yMovement && ground then h.normal else c.groundNormal,
            grounded,
            if d < c.distance then d else c.distance)
  }

  /** The whole loop: the hits are applied first to last. */
  function ResolveHits(c: Contact, hits: seq<Hit>, up: Vec2, minMag: real, yMovement: bool): Contact
    decreases |hits|
  {
    if |hits| == 0 then c
    else ResolveHit(ResolveHits(c, hits[..|hits| - 1], up, minMag, yMovement), hits[|hits| - 1], up, minMag, yMovement)
  }

  /** What one hit does to the velocity. Whatever the branch, the velocity
      changes only along the normal the hit is resolved with, so motion
      along the surface is kept. Once ground has been seen (by this or an
      earlier hit) the change is sign-gated; before that it is not. */
  lemma ResolveHitVelocity(c: Contact, h: Hit, up: Vec2, minMag: real, yMovement: bool, t: Vec2)
    ensures var r := ResolveHit(c, h, up, minMag, yMovement);
            var n := ContactNormal(h, up, minMag, yMovement);
            && (r.grounded && Dot(c.velocity, n) >= 0.0 ==> r.velocity == c.velocity)
            && (r.grounded && Dot(c.velocity, n) < 0.0 && IsUnit(n) ==> Dot(r.velocity, n) == 0.0)
            && (!r.grounded ==> n == h.normal && Dot(r.velocity, n) == Dot(c.velocity, n) * (1.0 - Dot(n, n)))
            && (Dot(t, n) == 0.0 ==> Dot(r.velocity, t) == Dot(c.velocity, t))
  {
    var n := ContactNormal(h, up, minMag, yMovement);
    var v := c.velocity;
    if Dot(t, n) == 0.0 {
      assert Dot(Sub(v, Scale(Dot(v, n), n)), t) == Dot(v, t) - Dot(v, n) * Dot(t, n);
    }
  }

  /** Because the stored ground normal keeps its x-component but the normal
      used for the projection does not, a ground hit of the vertical sweep
      never changes the horizontal velocity. */
  lemma VerticalGroundHitKeepsHorizontalVelocity(c: Contact, h: Hit, up: Vec2, minMag: real)
    requires IsGround(h.normal, up, minMag)
    ensures var r := ResolveHit(c, h, up, minMag, true);
            && r.velocity.x == c.velocity.x
            && r.groundNormal == h.normal
            && (c.velocity.y * h.normal.y < 0.0 ==> r.velocity.y == c.velocity.y * (1.0 - h.normal.y * h.normal.y))
  {
  }

  /** Dropping the x-component is observable: with a ground threshold below
      0.8 (here 0.5), a slope with normal (0.6, 0.8) is ground, and a body
      moving (1, -1) onto it keeps its horizontal speed, whereas a projection
      on the full normal would have changed it.  Under the component's
      default threshold this slope is a wall; see
      KinematicObject.DefaultSlopeDropsNormalComponent for a slope that is
      ground by default. */
  lemma DroppedNormalComponentMatters()
    ensures ResolveHit(Contact(Vec2(1.0, -1.0), Vec2(0.0, 1.0), false, 1.0), Hit(Vec2(0.6, 0.8), 0.5), Up, 0.5, true).velocity
            == Vec2(1.0, -0.36)
    ensures GroundProjection(Vec2(1.0, -1.0), Vec2(0.6, 0.8)) == Vec2(1.12, -0.84)
  {
    assert GroundProjection(Vec2(1.0, -1.0), Vec2(0.0, 0.8)) == Vec2(1.0, -0.36);
    assert Dot(Vec2(1.0, -1.0), Vec2(0.6, 0.8)) == -0.2;
    assert Scale(-0.2, Vec2(0.6, 0.8)) == Vec2(-0.12, -0.16);
  }

  /** Ground is reported at the end of the loop exactly when it was already
      reported before it, or some hit of the loop is ground. */
  lemma {:induction false} GroundedIff(c: Contact, hits: seq<Hit>, up: Vec2, minMag: real, yMovement: bool)
    ensures ResolveHits(c, hits, up, minMag, yMovement).grounded
            <==> c.grounded || exists i :: 0 <= i < |hits| && IsGround(hits[i].normal, up, minMag)
    decreases |hits|
  {
    if |hits| > 0 {
      var init := hits[..|hits| - 1];
      GroundedIff(c, init, up, minMag, yMovement);
      if exists i :: 0 <= i < |hits| && IsGround(hits[i].normal, up, minMag) {
        var i :| 0 <= i < |hits| && IsGround(hits[i].normal, up, minMag);
        if i < |hits| - 1 {
          assert init[i] == hits[i];
        }
      }
      if exists i :: 0 <= i < |init| && IsGround(init[i].normal, up, minMag) {
        var i :| 0 <= i < |init| && IsGround(init[i].normal, up, minMag);
        assert hits[i] == init[i];
      }
    }
  }

  /** Once ground has been reported it is never withdrawn by a later hit. */
  lemma {:induction false} GroundedStays(c: Contact, hits: seq<Hit>, up: Vec2, minMag: real, yMovement: bool)
    requires c.grounded
    ensures ResolveHits(c, hits, up, minMag, yMovement).grounded
  {
    GroundedIff(c, hits, up, minMag, yMovement);
  }

  /** The ground normal moves only in the vertical sweep, and then to the
      normal of the last ground hit; without a ground hit it stays. */
  lemma {:induction false} GroundNormalFromLastGroundHit(c: Contact, hits: seq<Hit>, up: Vec2, minMag: real, yMovement: bool)
    ensures var r := ResolveHits(c, hits, up, minMag, yMovement);
            (!yMovement || forall i :: 0 <= i < |hits| ==> !IsGround(hits[i].normal, up, minMag))
            ==> r.groundNormal == c.groundNormal
    ensures var r := ResolveHits(c, hits, up, minMag, yMovement);
            yMovement && (exists i :: 0 <= i < |hits| && IsGround(hits[i].normal, up, minMag))
            ==> exists i :: 0 <= i < |hits| && IsGround(hits[i].normal, up, minMag)
                            && r.groundNormal == hits[i].normal
                            && forall j :: i < j < |hits| ==> !IsGround(hits[j].normal, up, minMag)
    decreases |hits|
  {
    if |hits| > 0 {
      var init := hits[..|hits| - 1];
      var last := hits[|hits| - 1];
      GroundNormalFromLastGroundHit(c, init, up, minMag, yMovement);
      var r := ResolveHits(c, hits, up, minMag, yMovement);
      if yMovement && IsGround(last.normal, up, minMag) {
        assert r.groundNormal == hits[|hits| - 1].normal;
      } else {
        assert r.groundNormal == ResolveHits(c, init, up, minMag, yMovement).groundNormal;
        if !yMovement || forall i :: 0 <= i < |hits| ==> !IsGround(hits[i].normal, up, minMag) {
          if yMovement {
            forall i | 0 <= i < |init|
              ensures !IsGround(init[i].normal, up, minMag)
            {
              assert init[i] == hits[i];
            }
          }
        } else {
          var k :| 0 <= k < |hits| && IsGround(hits[k].normal, up, minMag);
          assert k < |init| && init[k] == hits[k];
          var i :| 0 <= i < |init| && IsGround(init[i].normal, up, minMag)
                   && ResolveHits(c, init, up, minMag, yMovement).groundNormal == init[i].normal
                   && forall j :: i < j < |init| ==> !IsGround(init[j].normal, up, minMag);
          assert hits[i] == init[i];
          forall j | i < j < |hits|
            ensures !IsGround(hits[j].normal, up, minMag)
          {
            if j < |init| {
              assert hits[j] == init[j];
            }
          }
        }
      }
    }
  }

  /** The travel distance left after the loop is the least of the distance
      it started with and every `hit.distance - ShellRadius`. */
  lemma {:induction false} DistanceIsMinimum(c: Contact, hits: seq<Hit>, up: Vec2, minMag: real, yMovement: bool)
    ensures var r := ResolveHits(c, hits, up, minMag, yMovement);
            && r.distance <= c.distance
            && (forall i :: 0 <= i < |hits| ==> r.distance <= hits[i].distance - ShellRadius)
            && (r.distance == c.distance || exists i :: 0 <= i < |hits| && r.distance == hits[i].distance - ShellRadius)
    decreases |hits|
  {
    if |hits| > 0 {
      var init := hits[..|hits| - 1];
      DistanceIsMinimum(c, init, up, minMag, yMovement);
      var p := ResolveHits(c, init, up, minMag, yMovement);
      var r := ResolveHits(c, hits, up, minMag, yMovement);
      forall i | 0 <= i < |hits|
        ensures r.distance <= hits[i].distance - ShellRadius
      {
        if i < |init| {
          assert hits[i] == init[i];
        }
      }
      if r.distance != c.distance && r.distance == p.distance {
        var i :| 0 <= i < |init| && p.distance == init[i].distance - ShellRadius;
        assert hits[i] == init[i];
      }
    }
  }
}
