# Ballistic trajectory calculator: a Dafny model

The calculator flies a projectile on a fixed 1 ms time step. Each step
applies gravity and a drag law to the velocity, then moves the position
with the new velocity. It records every state until the projectile drops
below ground or 1000 s have passed. Two variants of `calculateTrajectory`
exist:

- ballistics.node.js uses a ballistic-coefficient (BC) law: the drag function
  i(M) is looked up by Mach number and goes through the 7503 constant and
  the feet-per-second basis;
- ballistics.js uses the drag equation 0.5 · Cd · ρ · A · v² divided by the
  mass.

Both files also define the drag-free closed form `calculateNoDrag`, plus
`calculateEnergy` and `calculateMomentum`.

Around the integrator, app.js contains:

- the zero-in solver `calculateZeroAngle`, a bisection on the launch angle in
  [-5°, 5°];
- the search for the subsonic crossing;
- the closest-point search of the distance table;
- moist-air density and speed of sound;
- the form's unit conversions;
- cookie lookup.

The model's modules:

- `Host`: the JavaScript `Math` calls and the drag-table lookups, passed in as
  function-valued parameters. `MathLib.Valid` lists the only facts assumed
  about them: sqrt is a non-negative square root, π > 0, and pow of a
  positive base is positive.
- `Trajectory`: the integration loop shared by both files, generic over the
  drag law, as an imperative method with its loop invariant. The ghost
  predicate `Describes` states what a run returns.
- `BallisticsNode` and `BallisticsBrowser`: the two drag laws and each file's
  `calculateTrajectory`.
- `DragGeometry`: the geometry both laws share. `RealArith` holds small
  facts of real arithmetic.
- `ClosedForm`: `calculateNoDrag`, `calculateEnergy` and `calculateMomentum`.
- `ZeroIn`: the bisection, as the source writes it and corrected (see
  Findings).
- `Readouts`: the subsonic and closest-point searches.
- `Atmosphere`:
  - `calculateAirDensity`,
  - `calculateSoundSpeed`.
- `Units`: the form's unit conversions.
- `Cookies`: `getCookie`.

ballistics.js:88-110 (`calculateNoDrag`, `calculateEnergy`,
`calculateMomentum`) is identical to ballistics.node.js:105-127, and the
rows below cite the latter. In both files the integration loop is the same,
apart from the two drag lines.

## Model

| member | source | states |
|---|---|---|
| `Trajectory.LaunchVelocity` | ballistics.node.js:38-40 | Defines `vx0` and `vy0`: the muzzle velocity times the host cos and sin of the angle converted from degrees by π / 180. |
| `Trajectory.WindVx` | ballistics.node.js:42-46 | Defines `windVx` as `windSpeed` times the host cos of `windAngle - 90` in radians; the wind has no vertical part. |
| `Trajectory.Step` | ballistics.node.js:59-85 | Defines one loop pass: the drag law applied to (vx - windVx, vy - 0), the velocities updated with drag and gravity, then x, y and t advanced with the new velocities. |
| `Trajectory.Integrate` | ballistics.node.js:48-102 | The result `Describes` the run. The launch state (0, h0, 0, vx0, vy0) comes first. Each further point is one semi-implicit Euler step of the previous one, with drag applied to the wind-relative velocity. Every point after the first satisfies `y >= 0 \|\| t === 0` and t ≤ 1000 s; the step after the last point fails one of these. `flightTime`, `maxRange`, `maxHeight` and `impactVelocity` are derived from those states. |
| `Trajectory.InLoopStep` | ballistics.node.js:55-91 | One loop pass keeps the loop invariant: t = n · timeStep, `maxHeight` is the running maximum of the post-step heights starting from 0, and `maxRange` is the last in-flight x. At most 1,000,001 passes run. |
| `Trajectory.InLoopExit` | ballistics.node.js:93-101 | When the loop is left, its invariant gives the returned summary. |
| `Trajectory.RecordedPoints` | ballistics.node.js:55-90 | Recorded times lie on the grid k · 0.001 and strictly increase. Every point after the launch is at or above ground. At most 1,000,001 points are recorded. |
| `Trajectory.SummaryValues` | ballistics.node.js:88-94 | `flightTime` is the time of the last recorded point. The state whose speed is `impactVelocity` is not recorded. A ground exit leaves `maxRange` at the last recorded x. |
| `Trajectory.MaxHeightBounds` | ballistics.node.js:87 | `maxHeight` ≥ 0. It is at least every recorded height after the launch point, and at least the height of the unrecorded exit state. |
| `Trajectory.PeakHeightBounds` | ballistics.node.js:52-87 | The running maximum from 0 is ≥ 0, at least every height, and equal to one of them or to 0. |
| `Trajectory.Deterministic` | ballistics.node.js:20-103 | Two results for the same inputs are equal. |
| `Trajectory.NothingAfterExit` | ballistics.node.js:55-90 | No chained run from the same launch can record a point past the exit state. |
| `Trajectory.DragFreeFlight` | ballistics.node.js:80-81 | With zero drag, every point keeps the launch vx and has lost exactly k · g · timeStep of vy. |
| `BallisticsNode.DragDecel` | ballistics.node.js:63-76 | Defines `dragDecel`: i(vRel / soundSpeed) / bc · (ρ / 1.225) · (vRel / 0.3048)² / 7503, times 0.3048. |
| `BallisticsNode.BcDrag` | ballistics.node.js:59-78 | Defines (dragAx, dragAy) as `dragDecel` against the unit relative velocity, with vRel = √(vRelX² + vRelY²). |
| `BallisticsNode.CalculateTrajectory` | ballistics.node.js:20-103 | The result `Describes` the run from the launch velocity split by the angle in degrees, with wind vx from `windAngle - 90`, under the BC drag law. |
| `BallisticsNode.BcDragOpposesRelativeVelocity` | ballistics.node.js:59-78 | For bc > 0, ρ ≥ 0 and i(M) ≥ 0, the drag acceleration is parallel to the relative velocity, points against it, and has length `dragDecel`. |
| `BallisticsNode.DecelNonNegative` | ballistics.node.js:64-76 | Under the same conditions, `dragDecel` ≥ 0. |
| `BallisticsNode.DecelInSiUnits` | ballistics.node.js:69-76 | `dragDecel` = (i/bc) · (ρ/1.225) · v² / (7503 · 0.3048): the fps conversion leaves a single factor 1/0.3048. |
| `BallisticsNode.ZeroDragFunctionFlight` | ballistics.node.js:63-81 | A drag function that is 0 at every Mach number gives drag-free flight. |
| `BallisticsBrowser.FrontalArea` | ballistics.js:29 | Defines `area` as π · pow(diameter / 2, 2). |
| `BallisticsBrowser.DragForce` | ballistics.js:57-59 | Defines `dragForce` as 0.5 · Cd · ρ · area · vRel², with Cd from `getDragCoefficientAtVelocity(bc, dragModel, vRel, soundSpeed)`. |
| `BallisticsBrowser.CdDrag` | ballistics.js:52-61 | Defines (dragAx, dragAy) as `dragForce / mass` against the unit relative velocity. |
| `BallisticsBrowser.CalculateTrajectory` | ballistics.js:13-86 | The result `Describes` the run under the drag-equation law. |
| `BallisticsBrowser.CdDragOpposesRelativeVelocity` | ballistics.js:52-61 | For mass > 0, ρ ≥ 0, A ≥ 0 and Cd ≥ 0, the drag acceleration is parallel to the relative velocity, points against it, and has length `dragForce / mass`. |
| `BallisticsBrowser.ForceNonNegative` | ballistics.js:57-59 | Under the same conditions, `dragForce / mass` ≥ 0. |
| `BallisticsBrowser.FrontalAreaPositive` | ballistics.js:29 | `area` > 0 for a positive diameter. |
| `BallisticsBrowser.ZeroCoefficientFlight` | ballistics.js:57-64 | A drag coefficient that is 0 at every speed gives drag-free flight. |
| `DragGeometry.AgainstOpposes` | ballistics.node.js:77-78 | (-d · vRelX / vRel, -d · vRelY / vRel) with vRel = √(vRelX² + vRelY²) and d ≥ 0 is parallel to the relative velocity, points against it, and has length d (no drag at vRel = 0). |
| `DragGeometry.SqrtOfSquares` | ballistics.node.js:61 | `vRel` ≥ 0 and vRel² = vRelX² + vRelY². |
| `DragGeometry.ZeroLength` | ballistics.node.js:61 | vRel = 0 only for a zero relative velocity. |
| `ClosedForm.NoDrag` | ballistics.node.js:105-119 | `maxRange` = 2 · vx · vy / g and `maxHeight` = g · flightTime² / 8. |
| `ClosedForm.NoDragMatchesVacuumFlight` | ballistics.node.js:105-119 | The vacuum height vy · t - g · t²/2 returns to 0 at `flightTime`, equals `maxHeight` at half of it, and never exceeds `maxHeight`. |
| `ClosedForm.NoDragRange` | ballistics.node.js:110-112 | `maxRange` = vx · `flightTime`, and `flightTime` ≥ 0 when vy ≥ 0. |
| `ClosedForm.Energy` | ballistics.node.js:121-123 | Kinetic energy is ≥ 0 for mass ≥ 0, and 0 when mass or velocity is 0. |
| `ClosedForm.Momentum` | ballistics.node.js:125-127 | Momentum divided by a non-zero mass is the velocity. |
| `ClosedForm.EnergyFromMomentum` | ballistics.node.js:121-127 | E = p² / (2m). |
| `ClosedForm.SpeedScaling` | ballistics.node.js:121-127 | Doubling the speed quadruples the energy and doubles the momentum. |
| `ZeroIn.FirstBracket` | app.js:320-324 | Returns the first pair (i, i+1) with x_i ≤ d ≤ x_{i+1} at or after `from`, or none. |
| `ZeroIn.HeightAtDistance` | app.js:319-330 | The loop finds `heightAtZero` as the interpolation on the first enclosing pair, or `null`. |
| `ZeroIn.InterpolationBetween` | app.js:325-327 | For an enclosing pair with distinct x, the height lies between the pair's heights and equals the endpoint heights at the endpoints. |
| `ZeroIn.NaNOnlyOnRepeatedX` | app.js:325-327 | The 0/0 ratio arises exactly when both points of the first enclosing pair sit at the distance. |
| `ZeroIn.ReachedDistanceHasHeight` | app.js:319-330 | Some pair encloses a distance between a point's x and the last point's x. |
| `ZeroIn.Judge` | app.js:332-355 | Defines a pass's outcome: no height and a trajectory ending before the distance is short; no height otherwise changes nothing; a NaN error counts as too low; \|error\| < 0.001 hits; otherwise the sign of the error decides. |
| `ZeroIn.Narrow` | app.js:332-353 | Too high or short moves `maxAngle` to the midpoint. Too low, NaN included, moves `minAngle`. Nothing else moves a bound. A moved bound halves the bracket and keeps it inside the old one. |
| `ZeroIn.Pass` | app.js:316-356 | One pass on the shot trajectory yields the outcome `Judge` gives and the bracket `Narrow` gives. |
| `ZeroIn.CalculateZeroAngle` | app.js:305-358 | The probes are `Search` from [-5, 5] with 50 counted passes. The answer is the hitting probe, else 0. |
| `ZeroIn.SearchBounds` | app.js:312-358 | At most `passes` probes, all inside the bracket. Only the last probe may hit, and a search that stops early ends on a hit. |
| `ZeroIn.SolverBounds` | app.js:305-358 | At most 50 probes, all in [-5, 5]. The answer is in [-5, 5], and is the hitting probe when it is non-zero. |
| `ZeroIn.HeldBrackets` | app.js:313-353 | `Held` lists the bracket [minAngle, maxAngle] before each pass, one per probe. The first is the starting bracket, probe k is the midpoint of bracket k, and bracket k + 1 is bracket k narrowed by the outcome of probe k. |
| `ZeroIn.HeldWidth` | app.js:332-353 | When every pass moves a bound, bracket k has width (hi - lo) / 2^k. |
| `ZeroIn.SearchHalves` | app.js:313-353 | When every pass moves a bound, probe k is the midpoint of the search's bracket k, which has width (hi - lo) / 2^k. For lo ≤ hi, bracket k + 1 lies inside bracket k, and probe k + 1 is (hi - lo) / 2^(k+2) away from probe k. |
| `ZeroIn.SearchAsWritten` | app.js:312-358 | Defines the probes of the loop as written: a hit ends it, a short pass narrows the bracket without counting, and every other pass narrows it and counts against the 50 iterations (cut off after `fuel` passes). |
| `ZeroIn.AsWrittenNeverStops` | app.js:332-338 | If every probe falls short, the loop as written uses up any number of passes. |
| `ZeroIn.AsWrittenAgrees` | app.js:312-358 | Without short passes, the loop as written and the counted search probe the same angles. |
| `ZeroIn.GroundedShotExhibit` | app.js:332-338 | A trajectory ending at x = 0 with a 100 m zero runs every pass it is given in the loop as written, but stops after 50 in the counted search. |
| `Readouts.SubsonicDistance` | app.js:629-640 | Returns null exactly when no point is below the speed of sound with its predecessor at or above it. Otherwise returns the interpolated x at the first such point. |
| `Readouts.CrossingWithinStep` | app.js:635-636 | The ratio lies in [0, 1), and the crossing distance lies between the two points' x on a forward step. |
| `Readouts.SlowsDownHasCrossing` | app.js:629-640 | A run that starts at or above the speed of sound and ends below it has a crossing. |
| `Readouts.ClosestPoint` | app.js:703-714 | Finds no point exactly when the trajectory is empty. Otherwise returns the earliest point nearest to the marker distance. A row is shown exactly when that point's x ≤ 1.1 · distance. |
| `Readouts.ClosestUnique` | app.js:706-712 | The earliest nearest point is unique. |
| `Cookies.GetCookie` | app.js:41-50 | Returns null exactly when no `;`-segment, with leading spaces removed, starts with `name=`. Otherwise returns the rest of the first such segment, which holds no `;`. |
| `Cookies.Split` | app.js:43 | `split(';')` gives at least one segment, and none contains `;`. |
| `Cookies.JoinSplit` | app.js:43 | Joining the segments with `;` gives the cookie string back. |
| `Cookies.SplitJoin` | app.js:43 | Splitting `;`-free segments that have been joined gives them back. |
| `Cookies.TrimLeadingSpaces` | app.js:46 | Returns a suffix that does not start with a space, preceded only by spaces. |
| `Cookies.TrimSpaces` | app.js:46 | The `while` loop computes `TrimLeadingSpaces`. |
| `Cookies.LookupSingle` | app.js:41-50 | The cookie string `name=value`, with `;`-free parts and a name not starting with a space, is one segment that yields `value`. |
| `Atmosphere.SaturationPressure` | app.js:779 | Defines `Es` by the Magnus formula 6.1078 · pow(10, 7.5 · T / (T + 237.3)) hPa. |
| `Atmosphere.AirDensity` | app.js:765-797 | Defines `calculateAirDensity` as (Pd · 0.0289644 + Pv · 0.01801528) / (8.314462618 · (T + 273.15)). The altitude is read but not used. |
| `Atmosphere.PartialPressures` | app.js:779-788 | Pd + Pv = 100 · P. At 0 % humidity there is no vapour. Pv ≥ 0 for humidity ≥ 0. |
| `Atmosphere.AltitudeUnused` | app.js:769-776 | The altitude read does not change the density. |
| `Atmosphere.DryAirDensity` | app.js:791-794 | Dry air follows the ideal-gas law ρ = 100 · P · M_dry / (R · T). |
| `Atmosphere.DensityPositive` | app.js:765-797 | Above absolute zero, with humidity ≥ 0 and vapour pressure ≤ P, the density is > 0. |
| `Atmosphere.HumidAirIsLighter` | app.js:765-797 | At equal temperature and pressure, more humidity gives a lower density. |
| `Atmosphere.SoundSpeed` | app.js:799-802 | 331.5 m/s at 0 °C; positive exactly above -552.5 °C. |
| `Atmosphere.SoundSpeedSlope` | app.js:799-802 | The speed of sound rises by 0.6 m/s per degree. |
| `Units.MassKg` | app.js:190-197 | Grams go to g/1000 kg and grains to gr/(15.4324 · 1000) kg. The sign is kept. |
| `Units.VelocityMps` | app.js:199-204 | fps go to fps · 0.3048 m/s; m/s are kept. The sign is kept. |
| `Units.MillimetresToMetres` | app.js:210 | The scope height (and at line 214 the diameter) in metres is mm / 1000. |
| `Units.MassToggleKeepsMass` | app.js:141-150 | Rewriting the input on a unit toggle (· or / 15.4324) leaves the mass read by `getInputValues` unchanged. |
| `Units.VelocityToggleKeepsVelocity` | app.js:161-170 | Rewriting the input on a unit toggle (· or / 0.3048) leaves the velocity read by `getInputValues` unchanged. |

## Left out

- DOM input and output, `document.cookie` as a live store, `setCookie`, Chart
  rendering, the annotation box and HTML table rows are not modelled.
  - `getCookie` takes the cookie string as a parameter.
  - The distance table is modelled only up to the choice of the closest point
    and whether its row is shown, for one marker distance. The marker list
    [50, 100, 150, 200, 300] is not modelled.
- The subsonic-velocity interpolation for the label position is not modelled
  (app.js:655-667).
- dragFunctions.js is not part of this model. Its two lookups are
  uninterpreted function parameters (`Host.DragTables`).
- `Math.sqrt`, `cos`, `sin`, `pow` and `PI` are uninterpreted parameters.
  Only the facts in `MathLib.Valid` are assumed.
- Floating point is not modelled: all arithmetic is on exact reals, and
  `toFixed` rounding in the display and in the unit toggles is not
  modelled.
  - `Units.MassToggleKeepsMass`: covers only the unrounded rewrite of the
    input. The source rewrites it with `toFixed(1)` (app.js:143, 149), which
    keeps the mass only to the displayed precision, so the exact equality
    the lemma proves does not hold of the code.
  - `Units.VelocityToggleKeepsVelocity`: likewise covers only the unrounded
    rewrite; the source rounds with `toFixed(1)` and `toFixed(0)`
    (app.js:163, 169).
- NaN is not modelled, apart from the 0/0 interpolation ratio in the solver
  (`ZeroIn.Reading.NotANumber`; every comparison with NaN is false, so it
  moves `minAngle`, as in the source).
  - A zero relative speed makes the source divide by `vRel` = 0 and produce
    NaN. The model applies no drag there (`DragGeometry.Against`).
  - Divisions the source leaves unguarded are `requires` instead: bc,
    `soundSpeed` and mass non-zero, T + 237.3 ≠ 0, T + 273.15 ≠ 0.
  - The NaN and Infinity results that other inputs produce are not modelled.
- The `params` destructuring defaults (`initialHeight = 0`, `dragModel = 'G1'`,
  wind 0) are shown as already applied in `Trajectory.Params`.
- `area` in ballistics.node.js (line 36) is computed and never used; it is
  not modelled.
- In the solver:
  - The trajectory calculator is a function parameter from launch angle to
    recorded trajectory (`ZeroIn.Shoot`). It is not tied to
    `Trajectory.Integrate`, since a method cannot be called from a function.
  - The early return for a zero or missing zero distance (app.js:298) is
    not modelled.
  - Writing the angle back into the form (app.js:360-361) is not modelled.
- `ZeroIn.SearchAsWritten`: bounded by `fuel` passes, because the source loop
  need not terminate (see Findings). The fuel is a modelling device with no
  counterpart in the source.

## Findings

| source | as written | input that shows it | evidently intended | confidence | as-written member | corrected member |
|---|---|---|---|---|---|---|
| app.js:332-338 | A pass whose trajectory ends short of the zero distance sets `maxAngle` and takes `continue`, which skips `iterations++`. Such passes are never counted against `maxIterations`. | Any trajectory that never reaches the zero distance for any angle in [-5°, 5°], e.g. one ending at x = 0 with a 100 m zero. Every pass is short and the loop never ends (`ZeroIn.GroundedShotExhibit`). | Every pass counts, so the solver stops after at most 50 passes. | not executed | `ZeroIn.AsWrittenNeverStops` | `ZeroIn.SolverBounds` |
