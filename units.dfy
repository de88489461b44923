/**
 * The unit conversions `getInputValues` of app.js applies to the form
 * inputs: mass in grams or grains to kilograms, muzzle velocity in feet per
 * second or metres per second to metres per second, and millimetres to
 * metres for the scope height and the diameter.
 */
module Units {
  const GramsToGrains: real := 15.4324
  const FpsToMps: real := 0.3048
  const MmToM: real := 0.001

  /** The mass input in kilograms (grains go to grams first, then grams to kg). */
  function MassKg(value: real, useGrains: bool): (kg: real)
    ensures !useGrains ==> 1000.0 * kg == value
    ensures useGrains ==> 1000.0 * GramsToGrains * kg == value
    ensures 0.0 <= value <==> 0.0 <= kg
  {
    if useGrains then (value / GramsToGrains) * MmToM else value * MmToM
  }

  /** The velocity input in metres per second. */
  function VelocityMps(value: real, useMetersPerSec: bool): (mps: real)
    ensures useMetersPerSec ==> mps == value
    ensures !useMetersPerSec ==> mps / FpsToMps == value
    ensures 0.0 <= value <==> 0.0 <= mps
  {
    if !useMetersPerSec then value * FpsToMps else value
  }

  /** The scope height and diameter inputs in metres. */
  function MillimetresToMetres(mm: real): (m: real)
    ensures 1000.0 * m == mm
  {
    mm * MmToM
  }

  /**
   * Switching the mass unit rewrites the input (grams times 15.4324 into
   * grains, grains divided by it into grams), and the value read afterwards
   * is the same mass.
   */
  lemma MassToggleKeepsMass(grams: real, grains: real)
    ensures MassKg(grams * GramsToGrains, true) == MassKg(grams, false)
    ensures MassKg(grains / GramsToGrains, false) == MassKg(grains, true)
  {
    assert (grams * GramsToGrains) / GramsToGrains == grams;
  }

  /**
   * Switching the velocity unit rewrites the input (fps times 0.3048 into
   * m/s, m/s divided by it into fps), and the value read afterwards is the
   * same velocity.
   */
  lemma VelocityToggleKeepsVelocity(fps: real, mps: real)
    ensures VelocityMps(fps * FpsToMps, true) == VelocityMps(fps, false)
    ensures VelocityMps(mps / FpsToMps, false) == VelocityMps(mps, true)
  {
    assert (mps / FpsToMps) * FpsToMps == mps;
  }
}
