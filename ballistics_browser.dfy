/**
 * `calculateTrajectory` of ballistics.js: the shared loop with the
 * drag-equation law F = 0.5 * Cd * rho * A * vRel^2, where Cd comes from the
 * drag tables at the current air-relative speed and A is the frontal area of
 * a round projectile of the given diameter.
 */
module BallisticsBrowser {
  import opened Host
  import opened Trajectory
  import opened DragGeometry

  /** `area = Math.PI * Math.pow(diameter / 2, 2)`. */
  function FrontalArea(m: MathLib, diameter: real): real {
    m.pi * m.pow(diameter / 2.0, 2.0)
  }

  /** `dragForce` at the air-relative speed `vRel`. */
  function DragForce(m: MathLib, tables: DragTables, p: Params, vRel: real): real {
    var dragCoeff := tables.dragCoefficientAtVelocity(p.bc, p.dragModel, vRel, p.soundSpeed);
    0.5 * dragCoeff * p.airDensity * FrontalArea(m, p.diameter) * vRel * vRel
  }

  /**
   * The drag acceleration for the air-relative velocity (vRelX, vRelY):
   * `dragForce / mass` along the opposite of the unit relative velocity (no
   * drag at vRel = 0, where the source gives NaN).
   */
  function CdDrag(m: MathLib, tables: DragTables, p: Params, vRelX: real, vRelY: real): Vec
    requires p.mass != 0.0
  {
    var vRel := Norm(m.sqrt, vRelX, vRelY);
    Against(DragForce(m, tables, p, vRel) / p.mass, vRelX, vRelY, vRel)
  }

  function CdLaw(m: MathLib, tables: DragTables, p: Params): DragLaw
    requires p.mass != 0.0
  {
    (vRelX: real, vRelY: real) => CdDrag(m, tables, p, vRelX, vRelY)
  }

  /** `calculateTrajectory(params)` with the drag-equation law. */
  method CalculateTrajectory(m: MathLib, tables: DragTables, p: Params) returns (r: Result)
    requires p.mass != 0.0
    ensures Describes(r, p.initialHeight, LaunchVelocity(m, p.velocity, p.angle).x,
                      LaunchVelocity(m, p.velocity, p.angle).y, WindVx(m, p), CdLaw(m, tables, p), m.sqrt)
  {
    var v0 := LaunchVelocity(m, p.velocity, p.angle);
    r := Integrate(p.initialHeight, v0.x, v0.y, WindVx(m, p), CdLaw(m, tables, p), m.sqrt);
  }

  /**
   * For a positive mass, non-negative air density, non-negative frontal area
   * and non-negative drag coefficient, the law's acceleration points against
   * the relative velocity with magnitude dragForce / mass.
   */
  lemma CdDragOpposesRelativeVelocity(m: MathLib, tables: DragTables, p: Params, vRelX: real, vRelY: real)
    requires m.Valid()
    requires p.mass > 0.0 && p.airDensity >= 0.0 && FrontalArea(m, p.diameter) >= 0.0
    requires forall v :: 0.0 <= tables.dragCoefficientAtVelocity(p.bc, p.dragModel, v, p.soundSpeed)
    ensures Opposes(CdDrag(m, tables, p, vRelX, vRelY), vRelX, vRelY,
                    DragForce(m, tables, p, Norm(m.sqrt, vRelX, vRelY)) / p.mass)
  {
    var vRel := Norm(m.sqrt, vRelX, vRelY);
    ForceNonNegative(m, tables, p, vRel);
    AgainstOpposes(m, DragForce(m, tables, p, vRel) / p.mass, vRelX, vRelY);
  }

  lemma ForceNonNegative(m: MathLib, tables: DragTables, p: Params, vRel: real)
    requires p.mass > 0.0 && p.airDensity >= 0.0 && FrontalArea(m, p.diameter) >= 0.0
    requires forall v :: 0.0 <= tables.dragCoefficientAtVelocity(p.bc, p.dragModel, v, p.soundSpeed)
    ensures 0.0 <= DragForce(m, tables, p, vRel) / p.mass
  {
    var cd := tables.dragCoefficientAtVelocity(p.bc, p.dragModel, vRel, p.soundSpeed);
    var area := FrontalArea(m, p.diameter);
    assert 0.0 <= 0.5 * cd * p.airDensity;
    assert 0.0 <= 0.5 * cd * p.airDensity * area;
    assert 0.0 <= 0.5 * cd * p.airDensity * area * vRel * vRel;
  }

  /** The frontal area is positive for a positive diameter. */
  lemma FrontalAreaPositive(m: MathLib, diameter: real)
    requires m.Valid() && 0.0 < diameter
    ensures 0.0 < FrontalArea(m, diameter)
  {
    assert 0.0 < m.pow(diameter / 2.0, 2.0);
  }

  /**
   * A zero drag coefficient (the tables give 0 for an unknown model) leaves
   * the flight drag-free: the horizontal velocity stays at its launch value
   * and the vertical one drops by G * dt each step.
   */
  lemma ZeroCoefficientFlight(m: MathLib, tables: DragTables, p: Params, r: Result)
    requires p.mass != 0.0
    requires forall v :: tables.dragCoefficientAtVelocity(p.bc, p.dragModel, v, p.soundSpeed) == 0.0
    requires Describes(r, p.initialHeight, LaunchVelocity(m, p.velocity, p.angle).x,
                       LaunchVelocity(m, p.velocity, p.angle).y, WindVx(m, p), CdLaw(m, tables, p), m.sqrt)
    ensures forall k :: 0 <= k < |r.trajectory| ==>
      && r.trajectory[k].vx == LaunchVelocity(m, p.velocity, p.angle).x
      && r.trajectory[k].vy == LaunchVelocity(m, p.velocity, p.angle).y - k as real * G * TimeStep
  {
    var law := CdLaw(m, tables, p);
    forall rx, ry ensures law(rx, ry) == Vec(0.0, 0.0) {
      var vRel := Norm(m.sqrt, rx, ry);
      if vRel != 0.0 {
        assert DragForce(m, tables, p, vRel) == 0.0;
      }
    }
    var v0 := LaunchVelocity(m, p.velocity, p.angle);
    DragFreeFlight(r, p.initialHeight, v0.x, v0.y, WindVx(m, p), law, m.sqrt);
  }
}
