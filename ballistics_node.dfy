/**
 * `calculateTrajectory` of ballistics.node.js: the shared loop with the
 * ballistic-coefficient drag law, which looks the drag function i(M) up by
 * Mach number and converts through the feet-per-second basis of the tables.
 */
module BallisticsNode {
  import opened Host
  import opened Trajectory
  import opened DragGeometry

  const BcConstant: real := 7503.0
  const FpsToMps: real := 0.3048
  const StandardAirDensity: real := 1.225

  /**
   * `dragDecel` for an air-relative speed `vRel`:
   * (i / bc) * (rho / 1.225) * (vRel / 0.3048)^2 / 7503 in ft/s^2, times 0.3048.
   */
  function DragDecel(tables: DragTables, p: Params, vRel: real): real
    requires p.bc != 0.0 && p.soundSpeed != 0.0
  {
    var machNumber := vRel / p.soundSpeed;
    var dragFunction := tables.interpolateDragCoefficient(machNumber, p.dragModel);
    var vFps := vRel / FpsToMps;
    var rhoRatio := p.airDensity / StandardAirDensity;
    var dragDecelFps2 := (dragFunction / p.bc) * rhoRatio * (vFps * vFps) / BcConstant;
    dragDecelFps2 * FpsToMps
  }

  /**
   * The drag acceleration for the air-relative velocity (vRelX, vRelY):
   * `dragDecel` along the opposite of the unit relative velocity (no drag
   * at vRel = 0, where the source gives NaN).
   */
  function BcDrag(m: MathLib, tables: DragTables, p: Params, vRelX: real, vRelY: real): Vec
    requires p.bc != 0.0 && p.soundSpeed != 0.0
  {
    var vRel := Norm(m.sqrt, vRelX, vRelY);
    Against(DragDecel(tables, p, vRel), vRelX, vRelY, vRel)
  }

  function BcLaw(m: MathLib, tables: DragTables, p: Params): DragLaw
    requires p.bc != 0.0 && p.soundSpeed != 0.0
  {
    (vRelX: real, vRelY: real) => BcDrag(m, tables, p, vRelX, vRelY)
  }

  /** `calculateTrajectory(params)` with the ballistic-coefficient law. */
  method CalculateTrajectory(m: MathLib, tables: DragTables, p: Params) returns (r: Result)
    requires p.bc != 0.0 && p.soundSpeed != 0.0
    ensures Describes(r, p.initialHeight, LaunchVelocity(m, p.velocity, p.angle).x,
                      LaunchVelocity(m, p.velocity, p.angle).y, WindVx(m, p), BcLaw(m, tables, p), m.sqrt)
  {
    var v0 := LaunchVelocity(m, p.velocity, p.angle);
    r := Integrate(p.initialHeight, v0.x, v0.y, WindVx(m, p), BcLaw(m, tables, p), m.sqrt);
  }

  /**
   * The law's acceleration is parallel to the relative velocity and, for a
   * positive BC, non-negative air density and non-negative drag function,
   * points against it, with magnitude `dragDecel`.
   */
  lemma BcDragOpposesRelativeVelocity(m: MathLib, tables: DragTables, p: Params, vRelX: real, vRelY: real)
    requires m.Valid()
    requires p.bc > 0.0 && p.soundSpeed != 0.0 && p.airDensity >= 0.0
    requires forall mach :: 0.0 <= tables.interpolateDragCoefficient(mach, p.dragModel)
    ensures Opposes(BcDrag(m, tables, p, vRelX, vRelY), vRelX, vRelY,
                    DragDecel(tables, p, Norm(m.sqrt, vRelX, vRelY)))
  {
    var vRel := Norm(m.sqrt, vRelX, vRelY);
    DecelNonNegative(tables, p, vRel);
    AgainstOpposes(m, DragDecel(tables, p, vRel), vRelX, vRelY);
  }

  lemma DecelNonNegative(tables: DragTables, p: Params, vRel: real)
    requires p.bc > 0.0 && p.soundSpeed != 0.0 && p.airDensity >= 0.0
    requires forall mach :: 0.0 <= tables.interpolateDragCoefficient(mach, p.dragModel)
    ensures 0.0 <= DragDecel(tables, p, vRel)
  {
    var i := tables.interpolateDragCoefficient(vRel / p.soundSpeed, p.dragModel);
    var vFps := vRel / FpsToMps;
    assert 0.0 <= i / p.bc;
    assert 0.0 <= (i / p.bc) * (p.airDensity / StandardAirDensity);
    assert 0.0 <= vFps * vFps;
  }

  /**
   * In SI units the law is (i / bc) * (rho / 1.225) * vRel^2 / (7503 * 0.3048):
   * converting to feet per second and back leaves one factor 1/0.3048.
   */
  lemma DecelInSiUnits(tables: DragTables, p: Params, vRel: real)
    requires p.bc != 0.0 && p.soundSpeed != 0.0
    ensures DragDecel(tables, p, vRel)
         == (tables.interpolateDragCoefficient(vRel / p.soundSpeed, p.dragModel) / p.bc)
            * (p.airDensity / StandardAirDensity) * vRel * vRel / (BcConstant * FpsToMps)
  {
    var vFps := vRel / FpsToMps;
    assert vFps * vFps * FpsToMps == vRel * vRel / FpsToMps;
  }

  /** A drag function of 0 (for every Mach number) leaves the flight drag-free. */
  lemma ZeroDragFunctionFlight(m: MathLib, tables: DragTables, p: Params, r: Result)
    requires p.bc != 0.0 && p.soundSpeed != 0.0
    requires forall mach :: tables.interpolateDragCoefficient(mach, p.dragModel) == 0.0
    requires Describes(r, p.initialHeight, LaunchVelocity(m, p.velocity, p.angle).x,
                       LaunchVelocity(m, p.velocity, p.angle).y, WindVx(m, p), BcLaw(m, tables, p), m.sqrt)
    ensures forall k :: 0 <= k < |r.trajectory| ==>
      && r.trajectory[k].vx == LaunchVelocity(m, p.velocity, p.angle).x
      && r.trajectory[k].vy == LaunchVelocity(m, p.velocity, p.angle).y - k as real * G * TimeStep
  {
    var law := BcLaw(m, tables, p);
    forall rx, ry ensures law(rx, ry) == Vec(0.0, 0.0) {
      var vRel := m.sqrt(rx * rx + ry * ry);
      if vRel != 0.0 {
        assert DragDecel(tables, p, vRel) == 0.0;
      }
    }
    var v0 := LaunchVelocity(m, p.velocity, p.angle);
    DragFreeFlight(r, p.initialHeight, v0.x, v0.y, WindVx(m, p), law, m.sqrt);
  }
}
