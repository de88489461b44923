/**
 * `calculateAirDensity` and `calculateSoundSpeed` of app.js: the density of
 * moist air from temperature (deg C), station pressure (hPa) and relative
 * humidity (%), by the Magnus saturation formula and the ideal-gas law for
 * the dry and vapour partial pressures; and the linear speed of sound.
 */
module Atmosphere {
  import opened Host
  import opened RealArith

  const GasConstant: real := 8.314462618
  const DryAirMolarMass: real := 0.0289644
  const WaterVaporMolarMass: real := 0.01801528
  const CelsiusToKelvin: real := 273.15
  const SoundSpeedBase: real := 331.5
  const SoundSpeedTempCoeff: real := 0.6

  /** `Es`: the Magnus saturation vapour pressure in hPa. */
  function SaturationPressure(m: MathLib, temperature: real): real
    requires temperature + 237.3 != 0.0
  {
    6.1078 * m.pow(10.0, (7.5 * temperature) / (temperature + 237.3))
  }

  /** `Pd` and `Pv` in Pa. */
  datatype Pressures = Pressures(dry: real, vapour: real)

  /** The pressure split into its dry-air and water-vapour parts (hPa to Pa). */
  function PartialPressures(m: MathLib, temperature: real, pressure: real, humidity: real): (r: Pressures)
    requires temperature + 237.3 != 0.0
    ensures r.dry + r.vapour == 100.0 * pressure
    ensures humidity == 0.0 ==> r == Pressures(100.0 * pressure, 0.0)
    ensures m.Valid() && 0.0 <= humidity ==> 0.0 <= r.vapour
  {
    var es := SaturationPressure(m, temperature);
    var e := (humidity / 100.0) * es;
    Pressures((pressure - e) * 100.0, e * 100.0)
  }

  /**
   * `calculateAirDensity()` in kg/m^3. The altitude is read by the source
   * but takes no part: the pressure is taken as measured on site.
   */
  function AirDensity(m: MathLib, temperature: real, pressure: real, humidity: real, altitude: real): real
    requires temperature + 237.3 != 0.0 && temperature + CelsiusToKelvin != 0.0
  {
    var pp := PartialPressures(m, temperature, pressure, humidity);
    var t := temperature + CelsiusToKelvin;
    (pp.dry * DryAirMolarMass + pp.vapour * WaterVaporMolarMass) / (GasConstant * t)
  }

  /** The altitude does not change the density. */
  lemma AltitudeUnused(m: MathLib, temperature: real, pressure: real, humidity: real, a1: real, a2: real)
    requires temperature + 237.3 != 0.0 && temperature + CelsiusToKelvin != 0.0
    ensures AirDensity(m, temperature, pressure, humidity, a1) == AirDensity(m, temperature, pressure, humidity, a2)
  {
  }

  /** Dry air follows the ideal-gas law rho = p M / (R T). */
  lemma DryAirDensity(m: MathLib, temperature: real, pressure: real, altitude: real)
    requires temperature + 237.3 != 0.0 && temperature + CelsiusToKelvin != 0.0
    ensures AirDensity(m, temperature, pressure, 0.0, altitude)
         == 100.0 * pressure * DryAirMolarMass / (GasConstant * (temperature + CelsiusToKelvin))
  {
    var pp := PartialPressures(m, temperature, pressure, 0.0);
    assert pp == Pressures(100.0 * pressure, 0.0);
  }

  /**
   * Above absolute zero, with some humidity whose vapour pressure does not
   * exceed the total pressure, the density is positive.
   */
  lemma DensityPositive(m: MathLib, temperature: real, pressure: real, humidity: real, altitude: real)
    requires m.Valid()
    requires temperature + 237.3 != 0.0 && temperature + CelsiusToKelvin > 0.0
    requires 0.0 < pressure && 0.0 <= humidity
    requires (humidity / 100.0) * SaturationPressure(m, temperature) <= pressure
    ensures 0.0 < AirDensity(m, temperature, pressure, humidity, altitude)
  {
    var pp := PartialPressures(m, temperature, pressure, humidity);
    var t := temperature + CelsiusToKelvin;
    assert 0.0 <= pp.dry && 0.0 <= pp.vapour;
    var num := pp.dry * DryAirMolarMass + pp.vapour * WaterVaporMolarMass;
    assert pp.vapour * WaterVaporMolarMass <= pp.vapour * DryAirMolarMass;
    assert num >= (pp.dry + pp.vapour) * WaterVaporMolarMass;
    assert 0.0 < num;
    assert 0.0 < GasConstant * t;
  }

  /**
   * Water vapour is lighter than dry air: at the same temperature and
   * pressure, more humidity gives a lower density.
   */
  lemma HumidAirIsLighter(m: MathLib, temperature: real, pressure: real, h1: real, h2: real, altitude: real)
    requires m.Valid()
    requires temperature + 237.3 != 0.0 && temperature + CelsiusToKelvin > 0.0
    requires h1 < h2
    ensures AirDensity(m, temperature, pressure, h2, altitude) < AirDensity(m, temperature, pressure, h1, altitude)
  {
    var es := SaturationPressure(m, temperature);
    assert 0.0 < es;
    var p1 := PartialPressures(m, temperature, pressure, h1);
    var p2 := PartialPressures(m, temperature, pressure, h2);
    var shift := p2.vapour - p1.vapour;
    assert shift == (h2 - h1) * es;
    PositiveProduct(h2 - h1, es);
    assert p2.dry == p1.dry - shift;
    var n1 := p1.dry * DryAirMolarMass + p1.vapour * WaterVaporMolarMass;
    var n2 := p2.dry * DryAirMolarMass + p2.vapour * WaterVaporMolarMass;
    assert n2 == n1 - shift * (DryAirMolarMass - WaterVaporMolarMass);
    assert n2 < n1;
    var d := GasConstant * (temperature + CelsiusToKelvin);
    assert 0.0 < d;
    DivideMonotone(n2, n1, d);
  }

  /** `calculateSoundSpeed(temperature)` in m/s. */
  function SoundSpeed(temperature: real): (c: real)
    ensures c > 0.0 <==> temperature > -552.5
    ensures temperature == 0.0 ==> c == SoundSpeedBase
  {
    SoundSpeedBase + SoundSpeedTempCoeff * temperature
  }

  /** The speed of sound rises by 0.6 m/s per degree. */
  lemma SoundSpeedSlope(t1: real, t2: real)
    ensures SoundSpeed(t2) - SoundSpeed(t1) == 0.6 * (t2 - t1)
    ensures t1 < t2 ==> SoundSpeed(t1) < SoundSpeed(t2)
  {
  }
}
