/**
 * The closed-form helpers that ballistics.node.js and ballistics.js both
 * define identically: `calculateNoDrag` (vacuum flight from launch height
 * back to it), `calculateEnergy` and `calculateMomentum`.
 */
module ClosedForm {
  import opened Host
  import opened Trajectory
  import opened RealArith

  datatype NoDragResult = NoDragResult(maxHeight: real, maxRange: real, flightTime: real)

  /** Height at time t of a vacuum flight launched upwards at vy. */
  function VacuumHeight(vy: real, t: real): real {
    vy * t - G * t * t / 2.0
  }

  /** `calculateNoDrag(velocity, angle)`. */
  function NoDrag(m: MathLib, velocity: real, angle: real): (r: NoDragResult)
    ensures r.maxRange == 2.0 * LaunchVelocity(m, velocity, angle).x * LaunchVelocity(m, velocity, angle).y / G
    ensures r.maxHeight == G * r.flightTime * r.flightTime / 8.0
  {
    var v := LaunchVelocity(m, velocity, angle);
    var flightTime := 2.0 * v.y / G;
    var maxHeight := (v.y * v.y) / (2.0 * G);
    NoDragResult(maxHeight, v.x * flightTime, flightTime)
  }

  /**
   * The vacuum flight lands at its launch height after `flightTime`, is at
   * `maxHeight` half way, and never rises above `maxHeight`.
   */
  lemma NoDragMatchesVacuumFlight(m: MathLib, velocity: real, angle: real, t: real)
    ensures var r, vy := NoDrag(m, velocity, angle), LaunchVelocity(m, velocity, angle).y;
      && VacuumHeight(vy, r.flightTime) == 0.0
      && VacuumHeight(vy, r.flightTime / 2.0) == r.maxHeight
      && VacuumHeight(vy, t) <= r.maxHeight
  {
    var r, vy := NoDrag(m, velocity, angle), LaunchVelocity(m, velocity, angle).y;
    var peak := vy / G;
    assert r.flightTime == 2.0 * peak;
    assert VacuumHeight(vy, 2.0 * peak) == 2.0 * vy * peak - 2.0 * G * peak * peak;
    assert G * peak == vy;
    assert VacuumHeight(vy, peak) == vy * peak / 2.0;
    assert r.maxHeight == vy * peak / 2.0;
    assert r.maxHeight - VacuumHeight(vy, t) == G / 2.0 * ((t - peak) * (t - peak));
    SquareNonNegative(t - peak);
  }

  /** The horizontal speed is constant in vacuum: the range is vx times the flight time. */
  lemma NoDragRange(m: MathLib, velocity: real, angle: real)
    ensures NoDrag(m, velocity, angle).maxRange
         == LaunchVelocity(m, velocity, angle).x * NoDrag(m, velocity, angle).flightTime
    ensures 0.0 <= LaunchVelocity(m, velocity, angle).y ==> 0.0 <= NoDrag(m, velocity, angle).flightTime
  {
  }

  /** `calculateEnergy(mass, velocity)`: kinetic energy. */
  function Energy(mass: real, velocity: real): (e: real)
    ensures 0.0 <= mass ==> 0.0 <= e
    ensures mass == 0.0 || velocity == 0.0 ==> e == 0.0
  {
    0.5 * mass * velocity * velocity
  }

  /** `calculateMomentum(mass, velocity)`: linear momentum. */
  function Momentum(mass: real, velocity: real): (p: real)
    ensures mass != 0.0 ==> p / mass == velocity
  {
    mass * velocity
  }

  /** Kinetic energy and momentum are tied by E = p^2 / (2 m). */
  lemma EnergyFromMomentum(mass: real, velocity: real)
    requires mass != 0.0
    ensures Energy(mass, velocity) == Momentum(mass, velocity) * Momentum(mass, velocity) / (2.0 * mass)
  {
    var p := Momentum(mass, velocity);
    assert p * p == mass * (mass * velocity * velocity);
    assert p * p / (2.0 * mass) == (mass * velocity * velocity) / 2.0;
  }

  /** Doubling the speed quadruples the energy and doubles the momentum. */
  lemma SpeedScaling(mass: real, velocity: real)
    ensures Energy(mass, 2.0 * velocity) == 4.0 * Energy(mass, velocity)
    ensures Momentum(mass, 2.0 * velocity) == 2.0 * Momentum(mass, velocity)
  {
  }
}
