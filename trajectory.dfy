/**
 * The loop skeleton shared by `calculateTrajectory` in ballistics.node.js and
 * ballistics.js: a fixed 1 ms semi-implicit Euler step under gravity and a
 * drag law, recording the state before each step, until the first post-step
 * state below ground or past the 1000 s safety limit. The drag law is the only
 * thing the two files do differently; it is a parameter here and each file's
 * module supplies its own.
 */
module Trajectory {
  import opened Host

  /** `this.g`, `this.timeStep` and `this.maxSimTime` of `BallisticsCalculator`. */
  const G: real := 9.81
  const TimeStep: real := 0.001
  const MaxSimTime: real := 1000.0

  datatype Vec = Vec(x: real, y: real)

  /** One recorded point `{ x, y, t, vx, vy }`. */
  datatype Point = Point(x: real, y: real, t: real, vx: real, vy: real)

  /** What `calculateTrajectory` returns. */
  datatype Result = Result(
    trajectory: seq<Point>,
    maxHeight: real,
    maxRange: real,
    flightTime: real,
    impactVelocity: real)

  /** The parameter object both files destructure (defaults already applied). */
  datatype Params = Params(
    velocity: real,
    angle: real,
    initialHeight: real,
    mass: real,
    bc: real,
    dragModel: string,
    diameter: real,
    airDensity: real,
    soundSpeed: real,
    windSpeed: real,
    windAngle: real)

  /** A drag law maps the air-relative velocity to a drag acceleration. */
  type DragLaw = (real, real) -> Vec

  function Radians(m: MathLib, degrees: real): real {
    degrees * m.pi / 180.0
  }

  /** `vx0`, `vy0`: the launch velocity split by the launch angle in degrees. */
  function LaunchVelocity(m: MathLib, velocity: real, angle: real): Vec {
    Vec(velocity * m.cos(Radians(m, angle)), velocity * m.sin(Radians(m, angle)))
  }

  /** `windVx`; the wind has no vertical component (`windVy = 0`). */
  function WindVx(m: MathLib, p: Params): real {
    p.windSpeed * m.cos(Radians(m, p.windAngle - 90.0))
  }

  /** The loop condition `y >= 0 || t === 0`. */
  predicate Continues(s: Point) {
    s.y >= 0.0 || s.t == 0.0
  }

  /**
   * One pass of the loop body: the drag law is applied to the velocity
   * relative to the wind, the velocities are updated first and the position
   * then advances with the NEW velocities.
   */
  function Step(drag: DragLaw, windVx: real, s: Point): Point {
    var a := drag(s.vx - windVx, s.vy - 0.0);
    var vx := s.vx + a.x * TimeStep;
    var vy := s.vy + (a.y - G) * TimeStep;
    Point(s.x + vx * TimeStep, s.y + vy * TimeStep, s.t + TimeStep, vx, vy)
  }

  /** `Math.sqrt(vx * vx + vy * vy)` of a state. */
  function Speed(sqrt: real -> real, s: Point): real {
    Norm(sqrt, s.vx, s.vy)
  }

  /** `Math.sqrt(x * x + y * y)`: the length of the vector (x, y). */
  function Norm(sqrt: real -> real, x: real, y: real): real {
    sqrt(x * x + y * y)
  }

  function Last(traj: seq<Point>): Point
    requires |traj| > 0
  {
    traj[|traj| - 1]
  }

  /** Each recorded point is the step of the one before it. */
  ghost predicate Chained(traj: seq<Point>, drag: DragLaw, windVx: real) {
    forall k :: 0 <= k < |traj| - 1 ==> traj[k + 1] == Step(drag, windVx, traj[k])
  }

  /**
   * The running maximum `if (y > maxHeight) maxHeight = y` over the
   * post-step states, starting from 0 (not from the initial height).
   */
  function PeakHeight(posts: seq<Point>): real {
    if posts == [] then 0.0
    else
      var m := PeakHeight(posts[..|posts| - 1]);
      if Last(posts).y > m then Last(posts).y else m
  }

  /**
   * `r` is what `calculateTrajectory` returns for the launch state
   * (0, initialHeight) with velocity (vx0, vy0): the launch state first,
   * each further point the step of the previous one and inside the loop
   * condition and the time limit, the step after the last point outside one
   * of them, and the summary values computed from those states.
   */
  ghost predicate Describes(r: Result, initialHeight: real, vx0: real, vy0: real,
                            windVx: real, drag: DragLaw, sqrt: real -> real)
  {
    var traj := r.trajectory;
    && |traj| >= 1
    && traj[0] == Point(0.0, initialHeight, 0.0, vx0, vy0)
    && Chained(traj, drag, windVx)
    && (forall k :: 1 <= k < |traj| ==> Continues(traj[k]) && traj[k].t <= MaxSimTime)
    && var exit := Step(drag, windVx, Last(traj));
       && (!Continues(exit) || exit.t > MaxSimTime)
       && r.flightTime == exit.t - TimeStep
       && r.maxRange == (if exit.y >= 0.0 then exit.x else Last(traj).x)
       && r.maxHeight == PeakHeight(traj[1..] + [exit])
       && r.impactVelocity == Speed(sqrt, exit)
  }

  /**
   * The points recorded so far: the launch state first, each further point the
   * step of the one before it and inside the loop condition and time limit.
   */
  ghost predicate Recorded(traj: seq<Point>, launch: Point, drag: DragLaw, windVx: real) {
    && (|traj| > 0 ==> traj[0] == launch)
    && Chained(traj, drag, windVx)
    && (forall k :: 1 <= k < |traj| ==> Continues(traj[k]) && traj[k].t <= MaxSimTime)
  }

  /**
   * The loop invariant of `calculateTrajectory`: the points pushed so far are
   * `Recorded`, the current state is the launch state or the step of the last
   * pushed point, its time is |traj| * timeStep, and `maxHeight` and
   * `maxRange` are the running maximum and the last in-flight x over the
   * post-step states seen so far.
   */
  ghost predicate InLoop(traj: seq<Point>, current: Point, maxHeight: real, maxRange: real,
                         launch: Point, drag: DragLaw, windVx: real)
  {
    && Recorded(traj, launch, drag, windVx)
    && current.t == |traj| as real * TimeStep
    && (|traj| == 0 ==> current == launch && maxHeight == 0.0 && maxRange == 0.0)
    && (|traj| > 0 ==>
          && current == Step(drag, windVx, Last(traj))
          && maxHeight == PeakHeight(traj[1..] + [current])
          && maxRange == (if current.y >= 0.0 then current.x else Last(traj).x))
  }

  /** Pushing the current state keeps `Recorded`. */
  lemma RecordedPush(traj: seq<Point>, current: Point, launch: Point, drag: DragLaw, windVx: real)
    requires Recorded(traj, launch, drag, windVx)
    requires |traj| == 0 ==> current == launch
    requires |traj| > 0 ==> current == Step(drag, windVx, Last(traj)) && Continues(current) && current.t <= MaxSimTime
    ensures Recorded(traj + [current], launch, drag, windVx)
  {
    var traj' := traj + [current];
    forall k | 0 <= k < |traj'| - 1 ensures traj'[k + 1] == Step(drag, windVx, traj'[k]) {
      if k < |traj| - 1 {
        assert traj'[k] == traj[k] && traj'[k + 1] == traj[k + 1];
      }
    }
  }

  /** The post-step states grow by the new state when the current one is pushed. */
  lemma PostsPush(traj: seq<Point>, current: Point, next: Point)
    ensures (traj + [current])[1..] + [next]
         == (if traj == [] then [] else traj[1..] + [current]) + [next]
  {
  }

  /** One pass of the loop body keeps `InLoop`. */
  lemma InLoopStep(traj: seq<Point>, current: Point, maxHeight: real, maxRange: real,
                   launch: Point, drag: DragLaw, windVx: real)
    requires launch.x == 0.0
    requires InLoop(traj, current, maxHeight, maxRange, launch, drag, windVx)
    requires Continues(current) && current.t <= MaxSimTime
    ensures |traj| < 1000001
    ensures var next := Step(drag, windVx, current);
      InLoop(traj + [current], next,
             if next.y > maxHeight then next.y else maxHeight,
             if next.y >= 0.0 then next.x else maxRange,
             launch, drag, windVx)
  {
    var next := Step(drag, windVx, current);
    RecordedPush(traj, current, launch, drag, windVx);
    PostsPush(traj, current, next);
    assert next.t == (|traj| + 1) as real * TimeStep;
  }

  /** On leaving the loop, `InLoop` gives the result `Describes` promises. */
  lemma InLoopExit(traj: seq<Point>, current: Point, maxHeight: real, maxRange: real,
                   initialHeight: real, vx0: real, vy0: real, drag: DragLaw, windVx: real,
                   sqrt: real -> real)
    requires InLoop(traj, current, maxHeight, maxRange, Point(0.0, initialHeight, 0.0, vx0, vy0), drag, windVx)
    requires !Continues(current) || current.t > MaxSimTime
    ensures Describes(Result(traj, maxHeight, maxRange, current.t - TimeStep, Speed(sqrt, current)),
                      initialHeight, vx0, vy0, windVx, drag, sqrt)
  {
  }

  /** The `while` loop of `calculateTrajectory` and the summary after it. */
  method Integrate(initialHeight: real, vx0: real, vy0: real, windVx: real,
                   drag: DragLaw, sqrt: real -> real) returns (r: Result)
    ensures Describes(r, initialHeight, vx0, vy0, windVx, drag, sqrt)
  {
    var trajectory: seq<Point> := [];
    var x, y := 0.0, initialHeight;
    var vx, vy := vx0, vy0;
    var t := 0.0;
    var maxHeight, maxRange := 0.0, 0.0;
    ghost var launch := Point(0.0, initialHeight, 0.0, vx0, vy0);
    while y >= 0.0 || t == 0.0
      invariant InLoop(trajectory, Point(x, y, t, vx, vy), maxHeight, maxRange, launch, drag, windVx)
      invariant t <= MaxSimTime
      decreases 1000000 - |trajectory|
    {
      var current := Point(x, y, t, vx, vy);
      InLoopStep(trajectory, current, maxHeight, maxRange, launch, drag, windVx);
      trajectory := trajectory + [current];
      var next := Step(drag, windVx, current);
      x, y, t, vx, vy := next.x, next.y, next.t, next.vx, next.vy;
      if y > maxHeight {
        maxHeight := y;
      }
      if y >= 0.0 {
        maxRange := x;
      }
      if t > MaxSimTime {
        break;
      }
    }
    var last := Point(x, y, t, vx, vy);
    InLoopExit(trajectory, last, maxHeight, maxRange, initialHeight, vx0, vy0, drag, windVx, sqrt);
    r := Result(trajectory, maxHeight, maxRange, t - TimeStep, Speed(sqrt, last));
  }

  /** The running maximum is at least 0, at least every height, and one of them or 0. */
  lemma {:induction false} PeakHeightBounds(posts: seq<Point>)
    ensures 0.0 <= PeakHeight(posts)
    ensures forall k :: 0 <= k < |posts| ==> posts[k].y <= PeakHeight(posts)
    ensures PeakHeight(posts) == 0.0 || exists k :: 0 <= k < |posts| && posts[k].y == PeakHeight(posts)
  {
    if posts != [] {
      var init := posts[..|posts| - 1];
      PeakHeightBounds(init);
      assert forall k :: 0 <= k < |init| ==> posts[k] == init[k];
    }
  }

  lemma {:induction false} TimeAt(traj: seq<Point>, drag: DragLaw, windVx: real, k: nat)
    requires |traj| > 0 && traj[0].t == 0.0 && Chained(traj, drag, windVx) && k < |traj|
    ensures traj[k].t == k as real * TimeStep
  {
    if k > 0 {
      TimeAt(traj, drag, windVx, k - 1);
    }
  }

  /**
   * The recorded points lie on the time grid k * timeStep, so their times
   * strictly increase; every point after the first is at or above ground;
   * and the loop ran at most 1,000,001 times.
   */
  lemma RecordedPoints(r: Result, initialHeight: real, vx0: real, vy0: real,
                       windVx: real, drag: DragLaw, sqrt: real -> real)
    requires Describes(r, initialHeight, vx0, vy0, windVx, drag, sqrt)
    ensures forall k :: 0 <= k < |r.trajectory| ==> r.trajectory[k].t == k as real * TimeStep
    ensures forall i, j :: 0 <= i < j < |r.trajectory| ==> r.trajectory[i].t < r.trajectory[j].t
    ensures forall k :: 1 <= k < |r.trajectory| ==> r.trajectory[k].y >= 0.0
    ensures |r.trajectory| <= 1000001
  {
    var traj := r.trajectory;
    forall k | 0 <= k < |traj| ensures traj[k].t == k as real * TimeStep {
      TimeAt(traj, drag, windVx, k);
    }
    forall i, j | 0 <= i < j < |traj| ensures traj[i].t < traj[j].t {
      assert traj[i].t == i as real * TimeStep && traj[j].t == j as real * TimeStep;
    }
    forall k | 1 <= k < |traj| ensures traj[k].y >= 0.0 {
      assert traj[k].t == k as real * TimeStep;
    }
    var n := |traj| - 1;
    if n >= 1 {
      assert traj[n].t == n as real * TimeStep <= MaxSimTime;
    }
  }

  /**
   * `flightTime` is the time of the last recorded point; the state whose speed
   * is `impactVelocity` comes one step later and is not recorded; on an exit
   * through the ground (not the time limit) `maxRange` is the last recorded x.
   */
  lemma SummaryValues(r: Result, initialHeight: real, vx0: real, vy0: real,
                      windVx: real, drag: DragLaw, sqrt: real -> real)
    requires Describes(r, initialHeight, vx0, vy0, windVx, drag, sqrt)
    ensures r.flightTime == Last(r.trajectory).t
    ensures Step(drag, windVx, Last(r.trajectory)) !in r.trajectory
    ensures Step(drag, windVx, Last(r.trajectory)).y < 0.0 ==> r.maxRange == Last(r.trajectory).x
  {
    RecordedPoints(r, initialHeight, vx0, vy0, windVx, drag, sqrt);
    var traj := r.trajectory;
    var exit := Step(drag, windVx, Last(traj));
    forall k | 0 <= k < |traj| ensures traj[k] != exit {
      assert traj[k].t <= Last(traj).t;
    }
  }

  /**
   * `maxHeight` is at least 0 and at least the height of every recorded point
   * except possibly the launch point, and of the unrecorded exit state.
   */
  lemma MaxHeightBounds(r: Result, initialHeight: real, vx0: real, vy0: real,
                        windVx: real, drag: DragLaw, sqrt: real -> real)
    requires Describes(r, initialHeight, vx0, vy0, windVx, drag, sqrt)
    ensures 0.0 <= r.maxHeight
    ensures forall k :: 1 <= k < |r.trajectory| ==> r.trajectory[k].y <= r.maxHeight
    ensures Step(drag, windVx, Last(r.trajectory)).y <= r.maxHeight
  {
    var traj := r.trajectory;
    var posts := traj[1..] + [Step(drag, windVx, Last(traj))];
    PeakHeightBounds(posts);
    assert forall k :: 1 <= k < |traj| ==> traj[k] == posts[k - 1];
    assert posts[|posts| - 1] == Step(drag, windVx, Last(traj));
  }

  /** The result is determined by the inputs: two runs give the same result. */
  lemma Deterministic(r1: Result, r2: Result, initialHeight: real, vx0: real, vy0: real,
                      windVx: real, drag: DragLaw, sqrt: real -> real)
    requires Describes(r1, initialHeight, vx0, vy0, windVx, drag, sqrt)
    requires Describes(r2, initialHeight, vx0, vy0, windVx, drag, sqrt)
    ensures r1 == r2
  {
    var t1, t2 := r1.trajectory, r2.trajectory;
    SamePrefix(t1, t2, drag, windVx, if |t1| <= |t2| then |t1| else |t2|);
    if |t1| < |t2| {
      NothingAfterExit(r1, t2, initialHeight, vx0, vy0, windVx, drag, sqrt);
    } else if |t2| < |t1| {
      NothingAfterExit(r2, t1, initialHeight, vx0, vy0, windVx, drag, sqrt);
    }
    assert |t1| == |t2|;
    assert t1 == t2;
    assert r1.maxHeight == r2.maxHeight;
  }

  /** A longer run from the same launch would have recorded the exit state, which the loop refuses. */
  lemma NothingAfterExit(r: Result, longer: seq<Point>, initialHeight: real, vx0: real, vy0: real,
                         windVx: real, drag: DragLaw, sqrt: real -> real)
    requires Describes(r, initialHeight, vx0, vy0, windVx, drag, sqrt)
    requires |longer| > |r.trajectory| && longer[0] == r.trajectory[0] && Chained(longer, drag, windVx)
    ensures !(Continues(longer[|r.trajectory|]) && longer[|r.trajectory|].t <= MaxSimTime)
  {
    var n := |r.trajectory|;
    SamePrefix(r.trajectory, longer, drag, windVx, n);
    assert longer[n] == Step(drag, windVx, longer[n - 1]);
  }

  lemma {:induction false} SamePrefix(t1: seq<Point>, t2: seq<Point>, drag: DragLaw, windVx: real, n: nat)
    requires 1 <= n <= |t1| && n <= |t2| && t1[0] == t2[0]
    requires Chained(t1, drag, windVx) && Chained(t2, drag, windVx)
    ensures forall k :: 0 <= k < n ==> t1[k] == t2[k]
  {
    if n > 1 {
      SamePrefix(t1, t2, drag, windVx, n - 1);
      assert t1[n - 1] == Step(drag, windVx, t1[n - 2]);
    }
  }

  /**
   * Without drag every recorded point keeps the launch vx and its vy has lost
   * exactly g * timeStep per step.
   */
  lemma DragFreeFlight(r: Result, initialHeight: real, vx0: real, vy0: real,
                       windVx: real, drag: DragLaw, sqrt: real -> real)
    requires Describes(r, initialHeight, vx0, vy0, windVx, drag, sqrt)
    requires forall rx, ry :: drag(rx, ry) == Vec(0.0, 0.0)
    ensures forall k :: 0 <= k < |r.trajectory| ==>
      r.trajectory[k].vx == vx0 && r.trajectory[k].vy == vy0 - k as real * G * TimeStep
  {
    forall k | 0 <= k < |r.trajectory|
      ensures r.trajectory[k].vx == vx0 && r.trajectory[k].vy == vy0 - k as real * G * TimeStep
    {
      DragFreeAt(r.trajectory, drag, windVx, vx0, vy0, k);
    }
  }

  lemma {:induction false} DragFreeAt(traj: seq<Point>, drag: DragLaw, windVx: real, vx0: real, vy0: real, k: nat)
    requires |traj| > 0 && traj[0].vx == vx0 && traj[0].vy == vy0 && Chained(traj, drag, windVx)
    requires forall rx, ry :: drag(rx, ry) == Vec(0.0, 0.0)
    requires k < |traj|
    ensures traj[k].vx == vx0 && traj[k].vy == vy0 - k as real * G * TimeStep
  {
    if k > 0 {
      DragFreeAt(traj, drag, windVx, vx0, vy0, k - 1);
      assert drag(traj[k - 1].vx - windVx, traj[k - 1].vy - 0.0) == Vec(0.0, 0.0);
    }
  }
}
