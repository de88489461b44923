/**
 * Two searches over a computed trajectory in app.js: the point where the
 * projectile turns subsonic, and the recorded point closest to a marker
 * distance of the distance table.
 */
module Readouts {
  import opened Wrappers
  import opened Host
  import opened Trajectory
  import opened RealArith

  // ---------------------------------------------------------------------
  // Subsonic threshold (app.js:626-640)
  // ---------------------------------------------------------------------

  /** Point i is below the speed of sound c and point i - 1 is not. */
  predicate CrossesAt(sqrt: real -> real, traj: seq<Point>, c: real, i: int)
    requires 1 <= i < |traj|
  {
    Speed(sqrt, traj[i]) < c && Speed(sqrt, traj[i - 1]) >= c
  }

  /** The fraction of the step from point i - 1 to point i at which the speed equals c. */
  function CrossingRatio(sqrt: real -> real, traj: seq<Point>, c: real, i: int): real
    requires 1 <= i < |traj| && CrossesAt(sqrt, traj, c, i)
  {
    var velocity, prevVelocity := Speed(sqrt, traj[i]), Speed(sqrt, traj[i - 1]);
    (c - prevVelocity) / (velocity - prevVelocity)
  }

  /** `subsonicDistance`: the linearly interpolated x of the crossing. */
  function CrossingDistance(sqrt: real -> real, traj: seq<Point>, c: real, i: int): real
    requires 1 <= i < |traj| && CrossesAt(sqrt, traj, c, i)
  {
    traj[i - 1].x + CrossingRatio(sqrt, traj, c, i) * (traj[i].x - traj[i - 1].x)
  }

  /**
   * The search: the first point below the speed of sound whose predecessor
   * is not, and the interpolated distance there; None when there is none.
   */
  method SubsonicDistance(sqrt: real -> real, traj: seq<Point>, soundSpeed: real)
    returns (subsonicDistance: Option<real>, ghost at: nat)
    ensures subsonicDistance.None? <==> forall i :: 1 <= i < |traj| ==> !CrossesAt(sqrt, traj, soundSpeed, i)
    ensures subsonicDistance.Some? ==>
      && 1 <= at < |traj| && CrossesAt(sqrt, traj, soundSpeed, at)
      && (forall j :: 1 <= j < at ==> !CrossesAt(sqrt, traj, soundSpeed, j))
      && subsonicDistance.value == CrossingDistance(sqrt, traj, soundSpeed, at)
  {
    subsonicDistance := None;
    at := 0;
    var i := 1;
    while i < |traj|
      invariant 1 <= i
      invariant forall j :: 1 <= j < i && j < |traj| ==> !CrossesAt(sqrt, traj, soundSpeed, j)
    {
      var velocity := Speed(sqrt, traj[i]);
      if velocity < soundSpeed {
        var prevVelocity := Speed(sqrt, traj[i - 1]);
        if prevVelocity >= soundSpeed {
          var ratio := (soundSpeed - prevVelocity) / (velocity - prevVelocity);
          subsonicDistance := Some(traj[i - 1].x + ratio * (traj[i].x - traj[i - 1].x));
          at := i;
          assert CrossesAt(sqrt, traj, soundSpeed, i);
          return;
        }
      }
      i := i + 1;
    }
  }

  /**
   * The crossing lies within the step: the ratio is in [0, 1), so on a step
   * that moves forward the distance lies between the two points' x.
   */
  lemma CrossingWithinStep(sqrt: real -> real, traj: seq<Point>, c: real, i: int)
    requires 1 <= i < |traj| && CrossesAt(sqrt, traj, c, i)
    ensures 0.0 <= CrossingRatio(sqrt, traj, c, i) < 1.0
    ensures traj[i - 1].x <= traj[i].x ==>
      traj[i - 1].x <= CrossingDistance(sqrt, traj, c, i) <= traj[i].x
  {
    var velocity, prevVelocity := Speed(sqrt, traj[i]), Speed(sqrt, traj[i - 1]);
    var ratio := CrossingRatio(sqrt, traj, c, i);
    RatioOfNegatives(c - prevVelocity, velocity - prevVelocity);
    if traj[i - 1].x <= traj[i].x {
      ScaleWithin(ratio, traj[i].x - traj[i - 1].x);
    }
  }

  /**
   * A trajectory that starts at or above the speed of sound and ends below
   * it has a crossing.
   */
  lemma {:induction false} SlowsDownHasCrossing(sqrt: real -> real, traj: seq<Point>, c: real, from: nat)
    requires from + 1 < |traj|
    requires Speed(sqrt, traj[from]) >= c && Speed(sqrt, Last(traj)) < c
    ensures exists i :: from < i < |traj| && CrossesAt(sqrt, traj, c, i)
    decreases |traj| - from
  {
    if Speed(sqrt, traj[from + 1]) < c {
      assert CrossesAt(sqrt, traj, c, from + 1);
    } else {
      SlowsDownHasCrossing(sqrt, traj, c, from + 1);
    }
  }

  // ---------------------------------------------------------------------
  // Closest point to a marker distance (app.js:703-714)
  // ---------------------------------------------------------------------

  /** Point k is the earliest of the points nearest to the distance d. */
  predicate EarliestClosest(traj: seq<Point>, d: real, k: int) {
    && 0 <= k < |traj|
    && (forall j :: 0 <= j < |traj| ==> Abs(traj[k].x - d) <= Abs(traj[j].x - d))
    && (forall j :: 0 <= j < k ==> Abs(traj[k].x - d) < Abs(traj[j].x - d))
  }

  /**
   * The running search for the closest point (`minDiff = Infinity` is
   * "nothing chosen yet") and whether a table row is produced for it.
   */
  method ClosestPoint(traj: seq<Point>, distance: real) returns (closest: Option<nat>, shown: bool)
    ensures closest.None? <==> |traj| == 0
    ensures closest.Some? ==> EarliestClosest(traj, distance, closest.value)
    ensures shown <==> closest.Some? && traj[closest.value].x <= distance * 1.1
  {
    closest := None;
    var minDiff := 0.0;
    for i := 0 to |traj|
      invariant closest.None? <==> i == 0
      invariant closest.Some? ==> closest.value < i && minDiff == Abs(traj[closest.value].x - distance)
      invariant closest.Some? ==> forall j :: 0 <= j < i ==> minDiff <= Abs(traj[j].x - distance)
      invariant closest.Some? ==> forall j :: 0 <= j < closest.value ==> minDiff < Abs(traj[j].x - distance)
    {
      var diff := Abs(traj[i].x - distance);
      if closest.None? || diff < minDiff {
        minDiff := diff;
        closest := Some(i);
      }
    }
    shown := closest.Some? && traj[closest.value].x <= distance * 1.1;
  }

  /** The earliest closest point is unique, so the search's answer is determined. */
  lemma ClosestUnique(traj: seq<Point>, d: real, k1: int, k2: int)
    requires EarliestClosest(traj, d, k1) && EarliestClosest(traj, d, k2)
    ensures k1 == k2
  {
    assert Abs(traj[k1].x - d) == Abs(traj[k2].x - d);
  }
}
