/**
 * The geometry shared by both drag laws: the acceleration is a non-negative
 * magnitude along minus the unit vector of the air-relative velocity.
 */
module DragGeometry {
  import opened Host
  import opened Trajectory
  import opened RealArith

  /** The host's square root gives the length of a vector. */
  lemma SqrtOfSquares(m: MathLib, x: real, y: real)
    requires m.Valid()
    ensures 0.0 <= Norm(m.sqrt, x, y)
    ensures Norm(m.sqrt, x, y) * Norm(m.sqrt, x, y) == x * x + y * y
  {
    assert 0.0 <= x * x + y * y;
  }

  /** The relative velocity over its length is a unit vector, and its dot product with the relative velocity is that length. */
  lemma UnitDirection(rx: real, ry: real, v: real)
    requires 0.0 < v && v * v == rx * rx + ry * ry
    ensures (rx / v) * ry == (ry / v) * rx
    ensures (rx / v) * rx + (ry / v) * ry == v
    ensures (rx / v) * (rx / v) + (ry / v) * (ry / v) == 1.0
  {
    MulDiv(rx, ry, v);
    MulDiv(ry, rx, v);
    MulDiv(rx, rx, v);
    MulDiv(ry, ry, v);
    AddDiv(rx * rx, ry * ry, v);
    SquareDiv(v);
    MulDiv(rx, rx / v, v);
    MulDiv(ry, ry / v, v);
    AddDiv(rx * (rx / v), ry * (ry / v), v);
    assert rx * (rx / v) + ry * (ry / v) == v;
  }

  /**
   * The acceleration of magnitude d along minus the unit vector of the
   * relative velocity (rx, ry) of length v. The source divides by v
   * unguarded, a NaN at v = 0; the model applies no acceleration there.
   */
  function Against(d: real, rx: real, ry: real, v: real): Vec {
    if v == 0.0 then Vec(0.0, 0.0) else Vec(-d * (rx / v), -d * (ry / v))
  }

  /**
   * a is parallel to (rx, ry), points against it, and has length d unless
   * (rx, ry) is the zero vector.
   */
  predicate Opposes(a: Vec, rx: real, ry: real, d: real) {
    && a.x * ry == a.y * rx
    && a.x * rx + a.y * ry <= 0.0
    && ((rx, ry) != (0.0, 0.0) ==> a.x * a.x + a.y * a.y == d * d)
  }

  /** With the host's square root as length, `Against` opposes the relative velocity. */
  lemma AgainstOpposes(m: MathLib, d: real, rx: real, ry: real)
    requires m.Valid() && 0.0 <= d
    ensures Opposes(Against(d, rx, ry, Norm(m.sqrt, rx, ry)), rx, ry, d)
  {
    var v := Norm(m.sqrt, rx, ry);
    SqrtOfSquares(m, rx, ry);
    if v == 0.0 {
      ZeroLength(rx, ry, v);
    } else {
      var a := Against(d, rx, ry, v);
      Antiparallel(d, rx, ry, v, a.x, a.y);
    }
  }

  /**
   * The acceleration (ax, ay) = -d * (rx, ry) / v, for a speed v with
   * v * v == rx^2 + ry^2 and a magnitude d >= 0, is parallel to (rx, ry),
   * points against it and has length d.
   */
  lemma Antiparallel(d: real, rx: real, ry: real, v: real, ax: real, ay: real)
    requires 0.0 < v && v * v == rx * rx + ry * ry && 0.0 <= d
    requires ax == -d * (rx / v) && ay == -d * (ry / v)
    ensures ax * ry == ay * rx
    ensures ax * rx + ay * ry <= 0.0
    ensures ax * ax + ay * ay == d * d
  {
    var ux, uy := rx / v, ry / v;
    UnitDirection(rx, ry, v);
    assert ax * ry == -d * (ux * ry);
    assert ay * rx == -d * (uy * rx);
    assert ax * rx + ay * ry == -d * (ux * rx + uy * ry);
    assert ax * ax + ay * ay == d * d * (ux * ux + uy * uy);
  }

  /** A zero length belongs only to the zero vector. */
  lemma ZeroLength(rx: real, ry: real, v: real)
    requires v == 0.0 && v * v == rx * rx + ry * ry
    ensures rx == 0.0 && ry == 0.0
  {
    SquareNonNegative(rx);
    SquareNonNegative(ry);
    SquareZero(rx);
    SquareZero(ry);
  }
}
