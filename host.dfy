/**
 * What the ballistics core calls but does not define: the JavaScript `Math`
 * object and the drag-function tables of dragFunctions.js. Both are passed to
 * the model as values holding functions, so that nothing about them is
 * assumed beyond the few facts collected in `MathLib.Valid`.
 */
module Host {

  /** `Math.abs`, which is exact and so defined here rather than passed in. */
  function Abs(v: real): (r: real)
    ensures 0.0 <= r && (r == v || r == -v)
  {
    if v < 0.0 then -v else v
  }

  /** `Math.sqrt`, `Math.cos`, `Math.sin`, `Math.pow` and `Math.PI`, over the reals. */
  datatype MathLib = MathLib(
    sqrt: real -> real,
    cos: real -> real,
    sin: real -> real,
    pow: (real, real) -> real,
    pi: real)
  {
    /** The only facts the model relies on about the host's mathematics. */
    ghost predicate Valid() {
      && 0.0 < pi
      && (forall v :: 0.0 <= v ==> 0.0 <= sqrt(v) && sqrt(v) * sqrt(v) == v)
      && (forall b, e :: 0.0 < b ==> 0.0 < pow(b, e))
    }
  }

  /**
   * The two lookups of dragFunctions.js, which is not part of this model:
   * `interpolateDragCoefficient(mach, dragModel)` (used by ballistics.node.js)
   * and `getDragCoefficientAtVelocity(bc, dragModel, vRel, soundSpeed)`
   * (used by ballistics.js). Their tables, clamping and interpolation are
   * left uninterpreted.
   */
  datatype DragTables = DragTables(
    interpolateDragCoefficient: (real, string) -> real,
    dragCoefficientAtVelocity: (real, string, real, real) -> real)
}
