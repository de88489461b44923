/**
 * The zero-in solver of app.js (`calculateZeroAngle`): a bisection on the
 * launch angle in [-5, 5] degrees until the height at the zero distance is
 * within 1 mm of the sight line. The integrator is passed in as a function
 * from launch angle to recorded trajectory.
 */
module ZeroIn {
  import opened Wrappers
  import opened Host
  import opened Trajectory
  import opened RealArith

  const StartMin: real := -5.0
  const StartMax: real := 5.0
  const MaxIterations: nat := 50
  const Tolerance: real := 0.001

  // ---------------------------------------------------------------------
  // Height at a distance (app.js:319-330)
  // ---------------------------------------------------------------------

  /** The interpolated height; `ratio` is 0/0 when the pair has equal x. */
  datatype Reading = NotANumber | Height(h: real)

  /** The pair (i, i + 1) encloses the distance d. */
  predicate Brackets(traj: seq<Point>, i: int, d: real)
    requires 0 <= i && i + 1 < |traj|
  {
    traj[i].x <= d && traj[i + 1].x >= d
  }

  /** The first enclosing pair at or after `from`. */
  function FirstBracket(traj: seq<Point>, d: real, from: nat): (r: Option<nat>)
    requires from <= |traj|
    ensures r.Some? ==> from <= r.value && r.value + 1 < |traj| && Brackets(traj, r.value, d)
    ensures r.Some? ==> forall j :: from <= j < r.value ==> !Brackets(traj, j, d)
    ensures r.None? ==> forall j :: from <= j && j + 1 < |traj| ==> !Brackets(traj, j, d)
    decreases |traj| - from
  {
    if from + 1 >= |traj| then None
    else if Brackets(traj, from, d) then Some(from)
    else FirstBracket(traj, d, from + 1)
  }

  /** `point.y + ratio * (nextPoint.y - point.y)` with `ratio = (d - point.x) / (nextPoint.x - point.x)`. */
  function Interpolate(p: Point, q: Point, d: real): Reading {
    if q.x - p.x == 0.0 then NotANumber
    else Height(p.y + (d - p.x) / (q.x - p.x) * (q.y - p.y))
  }

  /** `heightAtZero`: None for `null`. */
  function HeightAt(traj: seq<Point>, d: real): Option<Reading> {
    match FirstBracket(traj, d, 0)
    case None => None
    case Some(i) => Some(Interpolate(traj[i], traj[i + 1], d))
  }

  /** The search loop of app.js:319-330. */
  method HeightAtDistance(traj: seq<Point>, d: real) returns (h: Option<Reading>)
    ensures h == HeightAt(traj, d)
  {
    h := None;
    var i := 0;
    while i < |traj| - 1
      invariant 0 <= i <= |traj|
      invariant |traj| > 0 ==> i <= |traj| - 1
      invariant FirstBracket(traj, d, 0) == FirstBracket(traj, d, i)
    {
      var point := traj[i];
      var nextPoint := traj[i + 1];
      if point.x <= d && nextPoint.x >= d {
        h := Some(Interpolate(point, nextPoint, d));
        return;
      }
      i := i + 1;
    }
  }

  /**
   * A found height lies between the heights of the enclosing pair, and is
   * that of the first point when the distance is exactly its x.
   */
  lemma InterpolationBetween(p: Point, q: Point, d: real)
    requires p.x <= d <= q.x && p.x < q.x
    ensures Interpolate(p, q, d).Height?
    ensures var h := Interpolate(p, q, d).h;
      && (p.y <= q.y ==> p.y <= h <= q.y)
      && (q.y <= p.y ==> q.y <= h <= p.y)
    ensures d == p.x ==> Interpolate(p, q, d).h == p.y
    ensures d == q.x ==> Interpolate(p, q, d).h == q.y
  {
    var ratio := (d - p.x) / (q.x - p.x);
    var h := Interpolate(p, q, d).h;
    assert h == p.y + ratio * (q.y - p.y);
    RatioInUnit(d - p.x, q.x - p.x);
    if p.y <= q.y {
      ScaleWithin(ratio, q.y - p.y);
      assert p.y <= h <= q.y;
    } else {
      ScaleWithin(ratio, p.y - q.y);
      var drop := ratio * (p.y - q.y);
      assert 0.0 <= drop <= p.y - q.y;
      assert ratio * (q.y - p.y) == -drop;
      assert h == p.y - drop;
    }
    if d == p.x {
      assert ratio == 0.0;
      assert h == p.y;
    }
    if d == q.x {
      assert d - p.x == q.x - p.x;
      assert ratio == 1.0;
      assert h == q.y;
    }
  }

  /** An equal-x pair at the distance gives the NaN of 0/0. */
  lemma NaNOnlyOnRepeatedX(traj: seq<Point>, d: real)
    ensures HeightAt(traj, d) == Some(NotANumber) <==>
      FirstBracket(traj, d, 0).Some? && traj[FirstBracket(traj, d, 0).value].x == d
        && traj[FirstBracket(traj, d, 0).value + 1].x == d
  {
  }

  /**
   * A height is found whenever the distance lies between the x of some
   * point and the x of the last point.
   */
  lemma {:induction false} ReachedDistanceHasHeight(traj: seq<Point>, d: real, from: nat)
    requires from + 1 < |traj|
    requires traj[from].x <= d <= Last(traj).x
    ensures FirstBracket(traj, d, from).Some?
    decreases |traj| - from
  {
    if !Brackets(traj, from, d) {
      assert traj[from + 1].x < d;
      if from + 2 < |traj| {
        ReachedDistanceHasHeight(traj, d, from + 1);
      }
    }
  }

  // ---------------------------------------------------------------------
  // One pass of the bisection (app.js:313-357)
  // ---------------------------------------------------------------------

  /** What a pass makes of the trajectory shot at its midpoint angle. */
  datatype Outcome =
    | Hit        // |error| < tolerance: the loop ends with this angle
    | TooHigh    // error > 0: the upper bound comes down
    | TooLow     // error < 0, or a NaN error: the lower bound goes up
    | Short      // no height and the trajectory ends before the distance
    | Stalled    // no height otherwise: nothing changes

  function Judge(traj: seq<Point>, d: real, target: real): Outcome {
    match HeightAt(traj, d)
    case None => if |traj| > 0 && Last(traj).x < d then Short else Stalled
    case Some(NotANumber) => TooLow
    case Some(Height(h)) =>
      var error := h - target;
      if Abs(error) < Tolerance then Hit
      else if error > 0.0 then TooHigh
      else TooLow
  }

  /** The interval [lo, hi] of `minAngle` and `maxAngle`. */
  datatype Bracket = Bracket(lo: real, hi: real)

  function Mid(b: Bracket): real {
    (b.lo + b.hi) / 2.0
  }

  /** A pass that moves a bound. */
  predicate Moves(o: Outcome) {
    o == TooHigh || o == TooLow || o == Short
  }

  /** The bounds after a pass with outcome o. */
  function Narrow(b: Bracket, o: Outcome): (r: Bracket)
    ensures b.lo <= b.hi ==> b.lo <= r.lo <= r.hi <= b.hi
    ensures Moves(o) ==> r.hi - r.lo == (b.hi - b.lo) / 2.0
    ensures Moves(o) ==> (r.lo == b.lo && r.hi == Mid(b)) || (r.lo == Mid(b) && r.hi == b.hi)
    ensures b.lo < b.hi ==> (r.hi < b.hi <==> o == TooHigh || o == Short)
    ensures b.lo < b.hi ==> (b.lo < r.lo <==> o == TooLow)
    ensures !Moves(o) ==> r == b
  {
    match o
    case TooHigh => Bracket(b.lo, Mid(b))
    case Short => Bracket(b.lo, Mid(b))
    case TooLow => Bracket(Mid(b), b.hi)
    case _ => b
  }

  // ---------------------------------------------------------------------
  // The whole search
  // ---------------------------------------------------------------------

  /**
   * The probed angles of at most `passes` passes from bracket b, every pass
   * counted; the sequence ends early with the probe that hits.
   */
  function Search(simulate: real -> seq<Point>, d: real, target: real, b: Bracket, passes: nat): seq<real>
    decreases passes
  {
    if passes == 0 then []
    else
      var o := Judge(Shoot(simulate, Mid(b)), d, target);
      if o == Hit then [Mid(b)]
      else [Mid(b)] + Search(simulate, d, target, Narrow(b, o), passes - 1)
  }

  /** `calculator.calculateTrajectory(params)` with `params.angle` set to the given angle. */
  function Shoot(simulate: real -> seq<Point>, angle: real): seq<Point> {
    simulate(angle)
  }

  /** The angle the solver settles on: the hitting probe, else 0. */
  function Settled(simulate: real -> seq<Point>, d: real, target: real, probes: seq<real>): real {
    if probes != [] && Judge(Shoot(simulate, probes[|probes| - 1]), d, target) == Hit then probes[|probes| - 1]
    else 0.0
  }

  /**
   * `calculateZeroAngle` with every pass counted against `maxIterations`
   * (see `SearchAsWritten` for the loop as the source has it). `target` is
   * `initialHeight + scopeHeight`.
   */
  method CalculateZeroAngle(simulate: real -> seq<Point>, zeroDistance: real, target: real)
    returns (bestAngle: real, ghost probes: seq<real>)
    ensures probes == Search(simulate, zeroDistance, target, Bracket(StartMin, StartMax), MaxIterations)
    ensures bestAngle == Settled(simulate, zeroDistance, target,
                                 Search(simulate, zeroDistance, target, Bracket(StartMin, StartMax), MaxIterations))
  {
    var minAngle := StartMin;
    var maxAngle := StartMax;
    bestAngle := 0.0;
    var iterations := 0;
    probes := [];
    ghost var whole := Search(simulate, zeroDistance, target, Bracket(StartMin, StartMax), MaxIterations);
    assert [] + whole == whole;
    while iterations < MaxIterations
      invariant iterations <= MaxIterations
      invariant Solving(simulate, zeroDistance, target, whole, probes, Bracket(minAngle, maxAngle), iterations)
      invariant bestAngle == 0.0
    {
      ghost var b := Bracket(minAngle, maxAngle);
      var midAngle := (minAngle + maxAngle) / 2.0;
      assert midAngle == Mid(b);
      var trajectory := Shoot(simulate, midAngle);
      var o, newMin, newMax := Pass(trajectory, zeroDistance, target, minAngle, maxAngle);
      if o == Hit {
        bestAngle := midAngle;
        SolvingHit(simulate, zeroDistance, target, whole, probes, b, iterations, o);
        probes := probes + [midAngle];
        return;
      }
      SolvingStep(simulate, zeroDistance, target, whole, probes, b, iterations, o);
      probes := probes + [midAngle];
      minAngle, maxAngle := newMin, newMax;
      iterations := iterations + 1;
    }
    SolvingDone(simulate, zeroDistance, target, whole, probes, Bracket(minAngle, maxAngle));
  }

  /**
   * The body of one pass (app.js:316-356) on the trajectory shot at the
   * midpoint of [minAngle, maxAngle]: its outcome and the new bounds. On a
   * hit the caller keeps the midpoint as `bestAngle` and stops.
   */
  method Pass(trajectory: seq<Point>, zeroDistance: real, target: real, minAngle: real, maxAngle: real)
    returns (o: Outcome, newMin: real, newMax: real)
    ensures o == Judge(trajectory, zeroDistance, target)
    ensures Bracket(newMin, newMax) == Narrow(Bracket(minAngle, maxAngle), o)
  {
    var midAngle := (minAngle + maxAngle) / 2.0;
    newMin, newMax := minAngle, maxAngle;
    var heightAtZero := HeightAtDistance(trajectory, zeroDistance);
    if heightAtZero.None? && |trajectory| > 0 && trajectory[|trajectory| - 1].x < zeroDistance {
      // zero distance is beyond the trajectory
      o := Short;
      newMax := midAngle;
      return;
    }
    match heightAtZero {
      case None =>
        o := Stalled;
      case Some(NotANumber) =>
        // every comparison with the NaN error is false
        o := TooLow;
        newMin := midAngle;
      case Some(Height(h)) =>
        var error := h - target;
        if Abs(error) < Tolerance {
          o := Hit;
        } else if error > 0.0 {
          o := TooHigh;
          newMax := midAngle;
        } else {
          o := TooLow;
          newMin := midAngle;
        }
    }
  }

  /**
   * The loop state: the passes so far followed by the search from the
   * current bracket make up the whole search, and the last pass so far did
   * not hit.
   */
  ghost predicate Solving(simulate: real -> seq<Point>, d: real, target: real, whole: seq<real>,
                          probes: seq<real>, b: Bracket, iterations: nat)
  {
    && iterations <= MaxIterations
    && probes + Search(simulate, d, target, b, MaxIterations - iterations) == whole
    && (probes != [] ==> Judge(Shoot(simulate, probes[|probes| - 1]), d, target) != Hit)
  }

  lemma SolvingStep(simulate: real -> seq<Point>, d: real, target: real, whole: seq<real>,
                    probes: seq<real>, b: Bracket, iterations: nat, o: Outcome)
    requires iterations < MaxIterations
    requires Solving(simulate, d, target, whole, probes, b, iterations)
    requires o == Judge(Shoot(simulate, Mid(b)), d, target) && o != Hit
    ensures Solving(simulate, d, target, whole, probes + [Mid(b)], Narrow(b, o), iterations + 1)
  {
    var n := MaxIterations - iterations;
    var rest := Search(simulate, d, target, Narrow(b, o), n - 1);
    SearchUnfold(simulate, d, target, b, n, o);
    assert probes + ([Mid(b)] + rest) == (probes + [Mid(b)]) + rest;
    assert (probes + [Mid(b)])[|probes|] == Mid(b);
  }

  /** A pass that does not hit is followed by the search from the narrowed bracket. */
  lemma SearchUnfold(simulate: real -> seq<Point>, d: real, target: real, b: Bracket, n: nat, o: Outcome)
    requires 0 < n
    requires o == Judge(Shoot(simulate, Mid(b)), d, target) && o != Hit
    ensures Search(simulate, d, target, b, n) == [Mid(b)] + Search(simulate, d, target, Narrow(b, o), n - 1)
  {
  }

  lemma SolvingHit(simulate: real -> seq<Point>, d: real, target: real, whole: seq<real>,
                   probes: seq<real>, b: Bracket, iterations: nat, o: Outcome)
    requires iterations < MaxIterations
    requires Solving(simulate, d, target, whole, probes, b, iterations)
    requires o == Judge(Shoot(simulate, Mid(b)), d, target) && o == Hit
    ensures probes + [Mid(b)] == whole
    ensures Mid(b) == Settled(simulate, d, target, probes + [Mid(b)])
  {
    assert Search(simulate, d, target, b, MaxIterations - iterations) == [Mid(b)];
  }

  lemma SolvingDone(simulate: real -> seq<Point>, d: real, target: real, whole: seq<real>,
                    probes: seq<real>, b: Bracket)
    requires Solving(simulate, d, target, whole, probes, b, MaxIterations)
    ensures probes == whole
    ensures 0.0 == Settled(simulate, d, target, probes)
  {
    assert probes + [] == probes;
  }

  /** The bracket keeps lo <= hi within [-5, 5]; the probes lie inside it. */
  lemma SearchBounds(simulate: real -> seq<Point>, d: real, target: real, b: Bracket, passes: nat)
    requires b.lo <= b.hi
    ensures var probes := Search(simulate, d, target, b, passes);
      && |probes| <= passes
      && (forall k :: 0 <= k < |probes| ==> b.lo <= probes[k] <= b.hi)
      && (forall k :: 0 <= k < |probes| - 1 ==> Judge(Shoot(simulate, probes[k]), d, target) != Hit)
      && (|probes| < passes ==> probes != [] && Judge(Shoot(simulate, probes[|probes| - 1]), d, target) == Hit)
  {
    SearchShape(simulate, d, target, b, passes);
    SearchInside(simulate, d, target, b, passes);
  }

  /** Only the last probe can hit, and a search cut short ends with a hit. */
  lemma {:induction false} SearchShape(simulate: real -> seq<Point>, d: real, target: real, b: Bracket, passes: nat)
    ensures var probes := Search(simulate, d, target, b, passes);
      && |probes| <= passes
      && (forall k :: 0 <= k < |probes| - 1 ==> Judge(Shoot(simulate, probes[k]), d, target) != Hit)
      && (|probes| < passes ==> probes != [] && Judge(Shoot(simulate, probes[|probes| - 1]), d, target) == Hit)
    decreases passes
  {
    if passes > 0 {
      var o := Judge(Shoot(simulate, Mid(b)), d, target);
      if o != Hit {
        var rest := Search(simulate, d, target, Narrow(b, o), passes - 1);
        SearchShape(simulate, d, target, Narrow(b, o), passes - 1);
        var probes := [Mid(b)] + rest;
        assert Search(simulate, d, target, b, passes) == probes;
        forall k | 1 <= k < |probes| ensures probes[k] == rest[k - 1] {
        }
      }
    }
  }

  /** Every probe lies in the starting bracket. */
  lemma {:induction false} SearchInside(simulate: real -> seq<Point>, d: real, target: real, b: Bracket, passes: nat)
    requires b.lo <= b.hi
    ensures forall k :: 0 <= k < |Search(simulate, d, target, b, passes)| ==>
      b.lo <= Search(simulate, d, target, b, passes)[k] <= b.hi
    decreases passes
  {
    if passes > 0 {
      var o := Judge(Shoot(simulate, Mid(b)), d, target);
      if o != Hit {
        var nb := Narrow(b, o);
        var rest := Search(simulate, d, target, nb, passes - 1);
        SearchInside(simulate, d, target, nb, passes - 1);
        assert b.lo <= nb.lo <= nb.hi <= b.hi;
        var probes := [Mid(b)] + rest;
        assert Search(simulate, d, target, b, passes) == probes;
        forall k | 1 <= k < |probes| ensures b.lo <= probes[k] <= b.hi {
          assert probes[k] == rest[k - 1];
          assert nb.lo <= rest[k - 1] <= nb.hi;
        }
      }
    }
  }

  /**
   * The solver makes at most 50 passes, probes only angles in [-5, 5], stops
   * early only on a hit, and answers 0 unless its last probe hit.
   */
  lemma SolverBounds(simulate: real -> seq<Point>, d: real, target: real)
    ensures var probes := Search(simulate, d, target, Bracket(StartMin, StartMax), MaxIterations);
      && |probes| <= MaxIterations
      && (forall k :: 0 <= k < |probes| ==> StartMin <= probes[k] <= StartMax)
      && (forall k :: 0 <= k < |probes| - 1 ==> Judge(Shoot(simulate, probes[k]), d, target) != Hit)
      && (|probes| < MaxIterations ==> Settled(simulate, d, target, probes) == probes[|probes| - 1])
      && StartMin <= Settled(simulate, d, target, probes) <= StartMax
      && (Settled(simulate, d, target, probes) != 0.0 ==>
            Judge(Shoot(simulate, Settled(simulate, d, target, probes)), d, target) == Hit)
  {
    SearchBounds(simulate, d, target, Bracket(StartMin, StartMax), MaxIterations);
  }

  /**
   * The bracket [minAngle, maxAngle] held before each pass of `Search`: one
   * bracket per probe, the first being b.
   */
  function Held(simulate: real -> seq<Point>, d: real, target: real, b: Bracket, passes: nat): seq<Bracket>
    decreases passes
  {
    if passes == 0 then []
    else
      var o := Judge(Shoot(simulate, Mid(b)), d, target);
      if o == Hit then [b]
      else [b] + Held(simulate, d, target, Narrow(b, o), passes - 1)
  }

  /**
   * Probe k is the midpoint of bracket k, and bracket k + 1 is bracket k
   * narrowed by the outcome of probe k.
   */
  lemma {:induction false} HeldBrackets(simulate: real -> seq<Point>, d: real, target: real, b: Bracket, passes: nat)
    ensures |Held(simulate, d, target, b, passes)| == |Search(simulate, d, target, b, passes)|
    ensures Held(simulate, d, target, b, passes) != [] ==> Held(simulate, d, target, b, passes)[0] == b
    ensures forall k :: 0 <= k < |Held(simulate, d, target, b, passes)| ==>
      Search(simulate, d, target, b, passes)[k] == Mid(Held(simulate, d, target, b, passes)[k])
    ensures forall k :: 0 <= k < |Held(simulate, d, target, b, passes)| - 1 ==>
      Held(simulate, d, target, b, passes)[k + 1]
        == Narrow(Held(simulate, d, target, b, passes)[k],
                  Judge(Shoot(simulate, Search(simulate, d, target, b, passes)[k]), d, target))
    decreases passes
  {
    if passes > 0 {
      var o := Judge(Shoot(simulate, Mid(b)), d, target);
      if o != Hit {
        var nb := Narrow(b, o);
        HeldBrackets(simulate, d, target, nb, passes - 1);
        var held := [b] + Held(simulate, d, target, nb, passes - 1);
        var probes := [Mid(b)] + Search(simulate, d, target, nb, passes - 1);
        assert Held(simulate, d, target, b, passes) == held;
        assert Search(simulate, d, target, b, passes) == probes;
        forall k | 1 <= k < |held|
          ensures held[k] == Held(simulate, d, target, nb, passes - 1)[k - 1]
          ensures probes[k] == Search(simulate, d, target, nb, passes - 1)[k - 1]
        {
        }
      }
    }
  }

  /**
   * When every probe moves a bound, bracket k of the search has width
   * (b.hi - b.lo) / 2^k, the next bracket lies inside it, and consecutive
   * probes are a quarter of that width apart.
   */
  lemma SearchHalves(simulate: real -> seq<Point>, d: real, target: real, b: Bracket, passes: nat, k: nat)
    requires k < |Search(simulate, d, target, b, passes)|
    requires forall a :: Moves(Judge(Shoot(simulate, a), d, target))
    ensures |Held(simulate, d, target, b, passes)| == |Search(simulate, d, target, b, passes)|
    ensures Search(simulate, d, target, b, passes)[k] == Mid(Held(simulate, d, target, b, passes)[k])
    ensures Held(simulate, d, target, b, passes)[k].hi - Held(simulate, d, target, b, passes)[k].lo
         == (b.hi - b.lo) / Pow2(k)
    ensures b.lo <= b.hi && k + 1 < |Search(simulate, d, target, b, passes)| ==>
      Held(simulate, d, target, b, passes)[k].lo <= Held(simulate, d, target, b, passes)[k + 1].lo
      && Held(simulate, d, target, b, passes)[k + 1].hi <= Held(simulate, d, target, b, passes)[k].hi
    ensures b.lo <= b.hi && k + 1 < |Search(simulate, d, target, b, passes)| ==>
      Abs(Search(simulate, d, target, b, passes)[k + 1] - Search(simulate, d, target, b, passes)[k])
        == (b.hi - b.lo) / Pow2(k + 2)
  {
    HeldBrackets(simulate, d, target, b, passes);
    var held := Held(simulate, d, target, b, passes);
    var probes := Search(simulate, d, target, b, passes);
    HeldWidth(simulate, d, target, b, passes, k);
    if b.lo <= b.hi && k + 1 < |probes| {
      var c := held[k];
      var o := Judge(Shoot(simulate, probes[k]), d, target);
      assert held[k + 1] == Narrow(c, o);
      assert Moves(o);
      var w := c.hi - c.lo;
      assert c.lo <= c.hi by {
        Pow2Positive(k);
        NonNegativeRatio(b.hi - b.lo, Pow2(k));
      }
      assert Abs(Mid(held[k + 1]) - Mid(c)) == w / 4.0;
      QuarterOverPow2(b.hi - b.lo, k);
    }
  }

  /** Under moving passes, bracket k has width w / 2^k. */
  lemma {:induction false} HeldWidth(simulate: real -> seq<Point>, d: real, target: real, b: Bracket, passes: nat, k: nat)
    requires k < |Search(simulate, d, target, b, passes)|
    requires forall a :: Moves(Judge(Shoot(simulate, a), d, target))
    ensures k < |Held(simulate, d, target, b, passes)|
    ensures Held(simulate, d, target, b, passes)[k].hi - Held(simulate, d, target, b, passes)[k].lo
         == (b.hi - b.lo) / Pow2(k)
    decreases k
  {
    HeldBrackets(simulate, d, target, b, passes);
    var held := Held(simulate, d, target, b, passes);
    var probes := Search(simulate, d, target, b, passes);
    if k == 0 {
      assert held[0] == b;
    } else {
      HeldWidth(simulate, d, target, b, passes, k - 1);
      var o := Judge(Shoot(simulate, probes[k - 1]), d, target);
      assert held[k] == Narrow(held[k - 1], o);
      assert Moves(o);
      assert held[k].hi - held[k].lo == ((b.hi - b.lo) / Pow2(k - 1)) / 2.0;
      HalfPow2(b.hi - b.lo, k);
    }
  }

  function Pow2(k: nat): (r: real)
    ensures r >= 1.0
  {
    if k == 0 then 1.0 else 2.0 * Pow2(k - 1)
  }

  lemma Pow2Positive(k: nat)
    ensures 0.0 < Pow2(k)
  {
  }

  lemma NonNegativeRatio(a: real, b: real)
    requires 0.0 <= a && 0.0 < b
    ensures 0.0 <= a / b
  {
  }

  lemma HalfPow2(w: real, k: nat)
    requires k >= 1
    ensures (w / Pow2(k - 1)) / 2.0 == w / Pow2(k)
  {
  }

  lemma QuarterOverPow2(w: real, k: nat)
    ensures (w / Pow2(k)) / 4.0 == w / Pow2(k + 2)
  {
    assert Pow2(k + 2) == 4.0 * Pow2(k);
  }

  // ---------------------------------------------------------------------
  // The loop as written: a `Short` pass is not counted
  // ---------------------------------------------------------------------

  /**
   * The probes of the source's loop with `iterationsLeft` counted passes to
   * go, cut off after `fuel` passes in total: a `Short` pass takes the
   * `continue` and leaves the counter where it was.
   */
  function SearchAsWritten(simulate: real -> seq<Point>, d: real, target: real, b: Bracket,
                           iterationsLeft: nat, fuel: nat): seq<real>
    decreases fuel
  {
    if fuel == 0 || iterationsLeft == 0 then []
    else
      var o := Judge(Shoot(simulate, Mid(b)), d, target);
      if o == Hit then [Mid(b)]
      else if o == Short then [Mid(b)] + SearchAsWritten(simulate, d, target, Narrow(b, o), iterationsLeft, fuel - 1)
      else [Mid(b)] + SearchAsWritten(simulate, d, target, Narrow(b, o), iterationsLeft - 1, fuel - 1)
  }

  /**
   * If every probe falls short of the distance, the loop as written runs
   * for as many passes as it is allowed: no bound on the passes exists.
   */
  lemma {:induction false} AsWrittenNeverStops(simulate: real -> seq<Point>, d: real, target: real, b: Bracket,
                                               iterationsLeft: nat, fuel: nat)
    requires iterationsLeft > 0
    requires forall a :: Judge(Shoot(simulate, a), d, target) == Short
    ensures |SearchAsWritten(simulate, d, target, b, iterationsLeft, fuel)| == fuel
    decreases fuel
  {
    if fuel > 0 {
      AsWrittenNeverStops(simulate, d, target, Narrow(b, Short), iterationsLeft, fuel - 1);
    }
  }

  /** Without short passes the loop as written and the counted search agree. */
  lemma {:induction false} AsWrittenAgrees(simulate: real -> seq<Point>, d: real, target: real, b: Bracket,
                                           passes: nat, fuel: nat)
    requires passes <= fuel
    requires forall a :: Judge(Shoot(simulate, a), d, target) != Short
    ensures SearchAsWritten(simulate, d, target, b, passes, fuel) == Search(simulate, d, target, b, passes)
    decreases passes
  {
    if passes > 0 {
      var o := Judge(Shoot(simulate, Mid(b)), d, target);
      if o != Hit {
        AsWrittenAgrees(simulate, d, target, Narrow(b, o), passes - 1, fuel - 1);
      }
    }
  }

  /** A projectile that never leaves the muzzle: one point at x = 0. */
  function Grounded(angle: real): seq<Point> {
    [Point(0.0, 0.0, 0.0, 0.0, 0.0)]
  }

  /**
   * With a 100 m zero distance and a trajectory that stops at x = 0, the
   * loop as written never reaches its 50-iteration cap (any fuel is used
   * up), while the counted search stops after 50 passes.
   */
  lemma GroundedShotExhibit(fuel: nat)
    ensures |SearchAsWritten(Grounded, 100.0, 0.0, Bracket(StartMin, StartMax), MaxIterations, fuel)| == fuel
    ensures |Search(Grounded, 100.0, 0.0, Bracket(StartMin, StartMax), MaxIterations)| == MaxIterations
  {
    forall a ensures Judge(Grounded(a), 100.0, 0.0) == Short {
      assert HeightAt(Grounded(a), 100.0) == None;
    }
    AsWrittenNeverStops(Grounded, 100.0, 0.0, Bracket(StartMin, StartMax), MaxIterations, fuel);
    SearchBounds(Grounded, 100.0, 0.0, Bracket(StartMin, StartMax), MaxIterations);
  }
}
