# KinematicObject in Dafny

A model of the per-tick integrator of the platformer's `KinematicObject`
component (`Assets/Scripts/Mechanics/KinematicObject.cs`), with proofs of
what one tick does to the body.

One tick (`FixedUpdate`) runs in three stages:

- **Gravity step.** The body gains gravity times the step length. The gain
  is scaled by `gravityModifier` when the body already moves with gravity.
  The horizontal velocity is then overwritten by the desired one.
- **Two swept moves.** The ground flag is cleared. `deltaPosition` is split
  into a move along the ground tangent and a move along world up.
- **Contact resolution.** Each move runs `PerformMovement`. It takes the
  hits the engine's cast reports, classifies each as ground or wall against
  `-gravityDirection`, and removes velocity components along the hit
  normal. It clamps the travel distance to `hit.distance - shellRadius`,
  then moves the body.

`Teleport` and `ShiftGravity` are modelled as well.

Three modules make up the model:

- `Vectors` (vectors.dfy) holds 2-D vectors over `real`. A length is never
  computed. A caller that needs `v.magnitude` passes a number `m` with
  `m >= 0 && m*m == Dot(v, v)` (`IsMagnitude`).
- `Contacts` (contacts.dfy) holds the contact loop of `PerformMovement`. It
  is a left fold of `ResolveHit` over the hit sequence.
- `KinematicObject` (kinematic_object.dfy) holds the gravity step, the two
  sweeps, the position update, `Teleport` and `ShiftGravity`.

Each source method has one Dafny function:

- `KinematicObject.FixedUpdate` models `FixedUpdate` (lines 85-115). The
  gravity step is `KinematicObject.GravityStep`, and the state after the
  horizontal sweep is `KinematicObject.AfterHorizontal`.
- `KinematicObject.PerformMovement` models `PerformMovement` (lines 117-166).
- `Contacts.ResolveHits` models that method's loop over the hits
  (lines 126-163), and `Contacts.ResolveHit` models one iteration of it.
- `KinematicObject.Teleport` and `KinematicObject.ShiftGravity` model the
  methods of the same names.

The table below names the lemmas that state what these functions do.

The engine is reduced to values: `Physics2D.gravity`, `Time.deltaTime`, the
desired velocity and the hits each `body.Cast` reports are the fields of a
`Step`.

Line 139, `currentNormal.x = 0`, looks like a no-op: it runs after
`groundNormal` has already been given the full normal, and it only changes a
local copy. But lines 145 and 149 read that local afterwards, in the same
iteration. So a ground hit of the vertical sweep projects the velocity on
`(0, normal.y)`, not on the full normal. Line 158 never sees the zeroed
normal, because line 139 runs only on a ground hit, and then the `else`
branch is skipped. The model follows the code (`Contacts.ContactNormal`).
`Contacts.DroppedNormalComponentMatters` exhibits a hit where projecting on
the full normal would give a different velocity.

## Model

| member | source | states |
|---|---|---|
| Vectors.Normalized | Assets/Scripts/Mechanics/KinematicObject.cs:165 | `v.normalized` given the length of `v` is the zero vector for a zero vector or a zero length |
| Vectors.NormalizedRoundTrip | Assets/Scripts/Mechanics/KinematicObject.cs:165 | for a positive length, `v.normalized` is a unit vector that, scaled back by the length, gives `v` |
| Contacts.ContactNormal | Assets/Scripts/Mechanics/KinematicObject.cs:128-140 | the normal used by the projections keeps the hit's y-component; a ground hit in the vertical sweep gets x = 0, and every other hit keeps its full normal |
| Contacts.GroundProjection | Assets/Scripts/Mechanics/KinematicObject.cs:145-150 | ground branch: when the velocity points into the surface, the new normal component is the old one times `1 - |n|²` (zero for a unit normal); otherwise the velocity is unchanged |
| Contacts.WallProjection | Assets/Scripts/Mechanics/KinematicObject.cs:158 | wall branch: whatever the sign, the normal component is multiplied by `1 - |n|²`, so it is removed for a unit normal |
| Contacts.ResolveHit | Assets/Scripts/Mechanics/KinematicObject.cs:128-162 | one hit: grounded iff already grounded or the hit is ground; the ground normal changes only in the vertical sweep on a ground hit, and then to the full hit normal; the distance becomes the minimum of the old one and `hit.distance - shellRadius` |
| Contacts.ResolveHitVelocity | Assets/Scripts/Mechanics/KinematicObject.cs:142-158 | per hit, the velocity changes only along the normal used: sign-gated when grounded, unconditional when airborne (with the full hit normal), and components perpendicular to that normal are kept |
| Contacts.VerticalGroundHitKeepsHorizontalVelocity | Assets/Scripts/Mechanics/KinematicObject.cs:136-150 | a ground hit of the vertical sweep stores the full normal but never changes the horizontal velocity; a velocity pointing into it (`v.y * n.y < 0`) has its vertical part scaled by `1 - n.y²` |
| Contacts.DroppedNormalComponentMatters | Assets/Scripts/Mechanics/KinematicObject.cs:138-149 | with a ground threshold below 0.8 (the lemma uses 0.5), so that the slope normal (0.6, 0.8) is ground, a velocity (1, -1) becomes (1, -0.36) in the vertical sweep, while projecting on the full normal would give (1.12, -0.84); under the default threshold this slope is a wall |
| Contacts.GroundedIff | Assets/Scripts/Mechanics/KinematicObject.cs:126-134 | after the loop the body is grounded iff it was before or some processed hit is ground |
| Contacts.GroundedStays | Assets/Scripts/Mechanics/KinematicObject.cs:134 | once grounded, no later hit clears the flag |
| Contacts.GroundNormalFromLastGroundHit | Assets/Scripts/Mechanics/KinematicObject.cs:132-139 | the loop leaves the ground normal as it was unless it is the vertical sweep and a hit is ground; then it is the normal of the last ground hit |
| Contacts.DistanceIsMinimum | Assets/Scripts/Mechanics/KinematicObject.cs:161-162 | the final distance is at most the initial one and every `hit.distance - shellRadius`, and equals one of them |
| KinematicObject.DefaultThreshold | Assets/Scripts/Mechanics/KinematicObject.cs:15-21 | with the default settings (threshold the length of (0.65, 0.65), gravity down) flat ground is ground, and a slope with normal (0.6, 0.8) is a wall |
| KinematicObject.DefaultSlopeDropsNormalComponent | Assets/Scripts/Mechanics/KinematicObject.cs:136-149 | under the default threshold of lines 15-21 the slope normal (0.28, 0.96) is ground, and a velocity (1, -1) becomes (1, -0.0784) in the vertical sweep, keeping its horizontal speed, while projecting on the full normal would give (1.1904, -0.3472) |
| KinematicObject.GravityStep | Assets/Scripts/Mechanics/KinematicObject.cs:93-98 | the new horizontal velocity is the desired one; the vertical velocity grows by `gravityModifier * g.y * dt` when falling and by `g.y * dt` otherwise |
| KinematicObject.GravityIsAsymmetric | Assets/Scripts/Mechanics/KinematicObject.cs:93-96 | a falling and a rising body gain vertical speed at rates that differ by exactly `(gravityModifier - 1) * g.y * dt` |
| KinematicObject.GravityStepForgetsHorizontal | Assets/Scripts/Mechanics/KinematicObject.cs:93-98 | for two velocities with the same vertical part and the same outcome of the falling test at line 93, the previous horizontal velocity has no influence on the stepped velocity |
| KinematicObject.TiltedGravityHorizontalMatters | Assets/Scripts/Mechanics/KinematicObject.cs:93-96 | the falling test reads the whole velocity: under the gravity direction (0.6, -0.8) with modifier 2, a body rising at 1 and moving sideways at 10 gains -19.6, while one not moving sideways gains -9.8 |
| KinematicObject.CastResults | Assets/Scripts/Mechanics/KinematicObject.cs:40 | the loop sees a prefix of the reported hits, all of them when there are at most 16, exactly 16 otherwise |
| KinematicObject.Processed | Assets/Scripts/Mechanics/KinematicObject.cs:121-126 | a move no longer than `minMoveDistance` processes no hit; a longer one processes the buffered hits |
| KinematicObject.ExcessHitsIgnored | Assets/Scripts/Mechanics/KinematicObject.cs:40 | hits beyond the sixteenth have no effect on the move |
| KinematicObject.Travel | Assets/Scripts/Mechanics/KinematicObject.cs:165 | `move.normalized * distance` is zero for a zero move or a zero length |
| KinematicObject.TravelFullLength | Assets/Scripts/Mechanics/KinematicObject.cs:165 | travelling the move's own length gives back the move |
| KinematicObject.TravelLength | Assets/Scripts/Mechanics/KinematicObject.cs:165 | the displacement has length `|distance|` and lies along the move (its dot product with the move is `distance * |move|`) |
| KinematicObject.ShortMoveSkipsContacts | Assets/Scripts/Mechanics/KinematicObject.cs:119-165 | a move not longer than `minMoveDistance` keeps velocity, ground flag and ground normal, and shifts the position by the whole move |
| KinematicObject.UnobstructedMove | Assets/Scripts/Mechanics/KinematicObject.cs:119-165 | with no hit processed, only the position changes, by the move normalized and scaled by its own length |
| KinematicObject.TravelIsClampedByHits | Assets/Scripts/Mechanics/KinematicObject.cs:119-165 | the body moves along the move by a distance that is the least of the move's length and every processed `hit.distance - shellRadius` (possibly negative) |
| KinematicObject.TangentOfNormal | Assets/Scripts/Mechanics/KinematicObject.cs:105 | the ground tangent `(n.y, -n.x)` is perpendicular to the ground normal and as long |
| KinematicObject.AlongGroundLength | Assets/Scripts/Mechanics/KinematicObject.cs:105-107 | the horizontal move is perpendicular to the ground normal and `|deltaPosition.x| * |groundNormal|` long |
| KinematicObject.Vertical | Assets/Scripts/Mechanics/KinematicObject.cs:111 | the vertical move is along world up with length `|deltaPosition.y|`, whatever the gravity direction |
| KinematicObject.GroundedIffGroundHit | Assets/Scripts/Mechanics/KinematicObject.cs:100-113 | the flag set at the start of a tick plays no part: at the end of the tick the body is grounded iff a processed hit of either sweep is ground |
| KinematicObject.HorizontalGroundSurvivesTick | Assets/Scripts/Mechanics/KinematicObject.cs:100-113 | if any processed hit of the horizontal sweep is ground, the body is grounded after that sweep and still at the end of the tick, whatever the vertical sweep hits |
| KinematicObject.GroundNormalOnlyFromVerticalSweep | Assets/Scripts/Mechanics/KinematicObject.cs:105-113 | the horizontal sweep never changes the ground normal; after the vertical sweep it is unchanged without a ground hit and the normal of the last ground hit otherwise |
| KinematicObject.HorizontalUnobstructed | Assets/Scripts/Mechanics/KinematicObject.cs:98-109 | with no horizontal hit, the first sweep keeps the stepped velocity and the ground normal, clears the ground flag and moves the body along the ground by `deltaPosition.x` times the tangent |
| KinematicObject.FullHorizontalTravel | Assets/Scripts/Mechanics/KinematicObject.cs:105-109 | an unclamped horizontal move travels its whole length (nothing when the ground normal has length zero) |
| KinematicObject.VerticalUnobstructed | Assets/Scripts/Mechanics/KinematicObject.cs:111-113 | with no vertical hit, the second sweep only moves the body by `deltaPosition.y` along world up |
| KinematicObject.NoContactsMeansFreeMotion | Assets/Scripts/Mechanics/KinematicObject.cs:93-113 | with no hit at all, a tick keeps the stepped velocity and the ground normal, ends ungrounded, and moves the body by the along-ground move plus the vertical move |
| KinematicObject.DownwardTravel | Assets/Scripts/Mechanics/KinematicObject.cs:111 | a downward vertical move cut to distance `t` moves the body down by exactly `t` |
| KinematicObject.LandingSweep | Assets/Scripts/Mechanics/KinematicObject.cs:117-165 | a downward move meeting a flat floor within reach grounds the body on it, zeroes the vertical velocity, keeps the horizontal one and stops `shellRadius` short of the floor |
| KinematicObject.LandingOnFlatGround | Assets/Scripts/Mechanics/KinematicObject.cs:93-113 | a body falling onto flat ground under downward gravity ends the tick grounded with ground normal up, velocity `(targetVelocity.x, 0)`, `shellRadius` above the floor and straight below where the horizontal move left it |
| KinematicObject.Teleport | Assets/Scripts/Mechanics/KinematicObject.cs:49-52 | the position becomes the argument's x and y, the velocity becomes zero, and the ground state is kept |
| KinematicObject.TeleportForgetsMotion | Assets/Scripts/Mechanics/KinematicObject.cs:49-52 | after a teleport nothing of the earlier position or velocity remains, and teleporting twice to the same point is teleporting once |
| KinematicObject.ShiftGravity | Assets/Scripts/Mechanics/KinematicObject.cs:168-173 | the stored gravity direction is the unit vector along the argument (the argument is recovered by scaling it by the argument's length); the global gravity is the unnormalised argument times 9.8, whatever its length (zero for a zero argument); the other settings are kept |

## Left out

- The lifecycle hooks `OnEnable`, `OnDisable` and `Start` (lines 56-72). They only configure the rigid body and the contact filter.
- `Update` and `ComputeVelocity` (lines 74-83). The desired velocity is an input of each tick (`Step.targetVelocity`).
- The `Debug.Log` calls (lines 87-89). They are output only.
- `convertAxes` (lines 177-188). It is never called, because its call at line 91 is commented out, and it writes only to its by-value parameter.
- `body.velocity *= 0` in `Teleport` (line 53). It is engine-side state that this component never reads.
- `Rigidbody2D.Cast`, its cast distance `distance + shellRadius`, and layer filtering. The hits a cast reports are an input of each tick. The model does not constrain their distances.
- Single-precision rounding and the square root in `magnitude`. All arithmetic is over `real`, and lengths are passed in as numbers satisfying `IsMagnitude`.
- Sharing `Physics2D.gravity` between objects. The global gravity is an input of a tick and an output of `ShiftGravity`.
- Vectors.Normalized: the engine returns the zero vector for lengths up to 1e-5. The model normalises any vector of positive length.
- KinematicObject.ShortMoveSkipsContacts: for a move of length zero the contract says the position is kept. It does not say that the move itself is zero.
- KinematicObject.LandingOnFlatGround: the final position is stated relative to the body after the horizontal sweep. `KinematicObject.HorizontalUnobstructed` gives that position in terms of the starting one.
