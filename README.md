# Elastic collision of two balls, modelled in Dafny

This project models the physics core of `CollisionRender/Program.cs`, a
WinForms program that simulates two balls in a rectangular arena. Each frame
does three things in order:

- moves both balls one explicit Euler step;
- resolves a ball–ball collision along the line of centres, with the
  one-dimensional elastic formula on the normal components and an
  equal-and-opposite push that removes the overlap;
- reflects each ball off the walls, clamping its centre back into the arena.

Before the simulation starts, a fix-up moves the second ball out of the
first if the two are entered touching or overlapping.

The model uses exact `real` arithmetic. It is split into four modules:

- `Geometry` (`geometry.dfy`): points and rectangles (`PointF`,
  `RectangleF`), vector arithmetic, squares and distances. `Math.Sqrt` is
  a parameter `sqrt` satisfying `IsSqrt`, an exact square root on the
  non-negative reals.
- `Bodies` (`ball.dfy`): the ball. It is a class `Ball` with fields `Mass`,
  `Position`, `Velocity` and `Radius`, updated in place by `UpdatePosition`
  and `CheckWallCollision`. Its value is a `BallState`, and the pure
  functions `Integrate` and `Bounce` specify what the two methods do to it.
- `Collision` (`collision.dfy`): the resolver of `CheckBallCollision` as a
  pure function `Resolve` on two ball states and their distance, with the
  physics proved about it:
  - conservation of momentum and kinetic energy (normal components and
    full vectors);
  - tangent components unchanged;
  - equal masses swap their normal components;
  - after the correction the centres are exactly one radius sum apart, with
    an unchanged midpoint;
  - for positive masses, the elastic formula is the only non-trivial
    exchange that conserves momentum and energy.
- `Driver` (`simulation.dfy`): the form's state as a class `Simulation`
  (two balls, the arena, the running flag). It has the initial constructor,
  the start button (`Start`, with the fix-up `PlaceSecond`), the in-place
  `CheckBallCollision`, and the frame `Tick`. `Tick` is proved equal to the
  pure `Step`, which fixes the order: integrate, collide, then walls.

## Model

| member | source | states |
|---|---|---|
| Geometry.SqrtGivesDistance | CollisionRender/Program.cs:184 | Math.Sqrt of dx*dx + dy*dy is the Euclidean distance of the two centres |
| Geometry.DistanceFacts | CollisionRender/Program.cs:187-189 | the distance is below the radius sum exactly when the circles overlap, and positive exactly when the centres differ (so the division at line 189 is safe) |
| Geometry.UnitOf | CollisionRender/Program.cs:189 | dividing the centre offset by its length gives a unit vector that, scaled by that length, is the offset again |
| Bodies.Integrate | CollisionRender/Program.cs:23-27 | the Euler step moves the centre by velocity times time step; mass, velocity and radius stay the same |
| Bodies.IntegrateZero | CollisionRender/Program.cs:23-27 | a time step of zero leaves the ball unchanged |
| Bodies.IntegrateAdditive | CollisionRender/Program.cs:23-27 | two steps of t1 and t2 end where one step of t1 + t2 does |
| Bodies.BounceAxis | CollisionRender/Program.cs:31-37 | per axis: untouched when no wall is touched; otherwise the velocity component is negated; when the interval is at least a diameter wide the coordinate ends in [lo + r, hi - r], exactly at lo + r after a hit on the low wall and at hi - r after a hit on the high wall; when it is narrower it ends at lo + r |
| Bodies.Bounce | CollisionRender/Program.cs:29-48 | mass and radius kept; a ball inside the arena is unchanged; a ball that fits the arena ends inside it |
| Bodies.BounceNarrow | CollisionRender/Program.cs:29-48 | in an arena narrower (lower) than the diameter, the x (y) coordinate becomes left + radius (top + radius) |
| Bodies.BounceReflects | CollisionRender/Program.cs:31-47 | each velocity component is negated exactly when its axis was hit, and otherwise kept, so its magnitude is preserved |
| Bodies.BounceAxesIndependent | CollisionRender/Program.cs:31-47 | two balls of equal radius that agree on X and VX, in arenas with the same left and right walls, end with the same X and VX whatever the rest; likewise for Y with top and bottom |
| Bodies.BounceIdempotent | CollisionRender/Program.cs:29-48 | when the ball fits the arena, a second wall check changes nothing |
| Bodies.Ball.constructor | CollisionRender/Program.cs:15-21 | the new ball holds exactly the given mass, position, velocity and radius |
| Bodies.Ball.UpdatePosition | CollisionRender/Program.cs:23-27 | the ball's new state is Integrate of its old state |
| Bodies.Ball.CheckWallCollision | CollisionRender/Program.cs:29-48 | the two sequential in-place updates leave the ball in the state Bounce of its old state |
| Collision.TangentOrthogonal | CollisionRender/Program.cs:190 | the tangent (-n.Y, n.X) is perpendicular to the normal and has the same length |
| Collision.ElasticReflectsAboutCentre | CollisionRender/Program.cs:198-201 | each new normal speed is the old one reflected about the centre-of-mass speed |
| Collision.ElasticMomentum | CollisionRender/Program.cs:198-201 | the formula conserves m1*u1 + m2*u2 |
| Collision.ElasticEnergy | CollisionRender/Program.cs:198-201 | the formula conserves m1*u1^2 + m2*u2^2 |
| Collision.ElasticReversesApproach | CollisionRender/Program.cs:198-201 | the relative normal speed is reversed |
| Collision.ElasticEqualMassesSwap | CollisionRender/Program.cs:198-201 | equal masses exchange their normal speeds |
| Collision.ElasticUnique | CollisionRender/Program.cs:198-201 | for positive masses, any pair of speeds conserving momentum and energy is either the old pair or the formula's result |
| Collision.Decompose | CollisionRender/Program.cs:192-196 | for a unit normal, composing a velocity's tangent and normal scalars gives the velocity back |
| Collision.ComposeComponents | CollisionRender/Program.cs:203-206 | a composed velocity has the scalars it was composed from, and squared length tan^2 + nor^2 |
| Collision.Normal | CollisionRender/Program.cs:189 | the normal is a unit vector, and distance times the normal is the offset from ball 2 to ball 1 |
| Collision.Resolve | CollisionRender/Program.cs:180-215 | masses and radii are kept; balls at least one radius sum apart are returned unchanged |
| Collision.CollidingFacts | CollisionRender/Program.cs:187-201 | when two resolvable balls collide, the distance is positive and the mass sum is non-zero, so both divisions are defined |
| Collision.ResolveComponents | CollisionRender/Program.cs:192-206 | the tangent scalar of each ball is unchanged, and the new normal scalars are the elastic formula applied to the old ones |
| Collision.ResolveNormalMomentum | CollisionRender/Program.cs:192-206 | momentum along the normal is conserved by a collision |
| Collision.ResolveNormalEnergy | CollisionRender/Program.cs:192-206 | kinetic energy along the normal is conserved by a collision |
| Collision.ResolveEqualMassesSwap | CollisionRender/Program.cs:192-206 | with equal masses the balls exchange their normal scalars |
| Collision.ResolveMomentum | CollisionRender/Program.cs:192-206 | the momentum vector m1*v1 + m2*v2 is conserved |
| Collision.ResolveEnergy | CollisionRender/Program.cs:192-206 | the total kinetic energy m1*abs(v1)^2 + m2*abs(v2)^2 is conserved |
| Collision.ResolveHeadOnSwap | CollisionRender/Program.cs:192-206 | in a head-on collision of equal masses (both velocities along the line of centres), the balls exchange their velocities |
| Collision.ResolveSeparation | CollisionRender/Program.cs:208-213 | after the correction the centres are exactly r1 + r2 apart |
| Collision.ResolveMidpoint | CollisionRender/Program.cs:208-213 | the correction leaves the midpoint of the two centres where it was |
| Driver.Distance | CollisionRender/Program.cs:163 | Math.Sqrt of the squared offset is the distance of the two points |
| Driver.Direction | CollisionRender/Program.cs:168-170 | (cos, sin) of atan2 of the offset is a unit vector which, times the distance, is the offset; for coincident points it is (1, 0) |
| Driver.PlaceSecond | CollisionRender/Program.cs:163-171 | ball 2 is left as entered when the balls are apart. Otherwise it ends exactly r1 + r2 from ball 1, on the ray from ball 1 through its entered position. Exactly touching balls stay put. Coincident starts (d = 0, which by DistanceFacts means equal centres) put ball 2 at (x1 + r1 + r2, y1) |
| Driver.Step | CollisionRender/Program.cs:232-238 | one frame keeps masses and radii, and every ball that fits the arena ends inside it |
| Driver.StepAtRest | CollisionRender/Program.cs:232-238 | a frame of zero seconds changes nothing for separated balls inside the arena |
| Driver.StepApart | CollisionRender/Program.cs:232-238 | when the moved balls do not overlap, a frame is the Euler step followed by the wall check, ball by ball |
| Driver.Simulation.constructor | CollisionRender/Program.cs:71-74 | the initial balls (1, (100,100), (200,150), 20) and (2, (300,200), (-150,100), 30), the arena (5, 5, width - 300, height - 10), not running |
| Driver.Simulation.Start | CollisionRender/Program.cs:163-176 | two fresh balls with the entered values, ball 2 placed by PlaceSecond, and the simulation running |
| Driver.Simulation.CheckBallCollision | CollisionRender/Program.cs:180-215 | the in-place updates leave the two balls in the states Resolve gives for their old states and distance |
| Driver.Simulation.Tick | CollisionRender/Program.cs:225-238 | nothing changes unless running; when running, the balls end in Step of their old states: integrate, collide, then walls |

## Left out

- The window: the form's layout, the input fields, the button wiring,
  `Application.Idle` and `Main`. They are presentation only.
- Drawing in `OnPaint`. It is rendering.
- The stopwatch. The elapsed frame time is the parameter `dt` of `Tick`.
- The client-area size. It depends on the window system, so it is the
  constructor's parameters `clientWidth` and `clientHeight`.
- `float.Parse` of the text fields. `Start` takes already parsed reals, so
  the exception the parse throws on bad text is not modelled.
- The initial velocities. The program builds them from speed and angle with
  a degree-to-radian conversion, `Math.Cos` and `Math.Sin`. `Start` takes
  each velocity as a given point instead, because these are transcendental
  functions.
- IEEE single-precision rounding and the mixing of `float` and `double`.
  The conservation laws are proved over exact reals, not bit for bit over
  `float`.
- `Math.Sqrt` and `Math.Pow(x, 2)`. `Math.Pow(x, 2)` is the square `Sq`.
  `Math.Sqrt` is a parameter satisfying `IsSqrt`: exact square roots, not
  the rounded floating-point ones.
- `Math.Atan2` followed by `Math.Cos` and `Math.Sin` in the fix-up. These
  are replaced by the offset divided by its length, and by (1, 0) for the
  zero offset, since atan2(0, 0) = 0.
- Range checks on the input. Positive masses and radii are not checked
  anywhere in `Program.cs`, so the model accepts any reals. The resolver
  still needs non-zero divisors; see the next line.
- Collision.Resolve: requires `Resolvable`. Overlapping balls must have
  distinct centres and a non-zero mass sum, because lines 189 and 198-201
  divide by the distance and by the mass sum without a guard. That would
  give NaN or an infinity in `float` (0/0 at line 189; x/0 at lines
  198-201 when m1 + m2 = 0), and the model does not follow either.
- Driver.Step, Driver.Simulation.CheckBallCollision and
  Driver.Simulation.Tick pass on the same `Resolvable` precondition.
- Collision.ElasticUnique: asks for positive masses. This is a property of
  the formula, not something the program checks.
- Driver.Simulation.Start: computes the fix-up with one call to
  `PlaceSecond`. Lines 166-171 instead reassign the local coordinates
  inside an `if`; the resulting position is the same.
