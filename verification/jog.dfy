/** The arithmetic of jogging the arm from a game-controller stick:
    the deadzone filter, the step target and the velocity vector. */
module Jog {
  import opened Poses

  /** Stick readings whose magnitude is below this count as centred. */
  const DEADZONE: real := 0.2

  function Abs(r: real): real {
    if r < 0.0 then -r else r
  }

  /** `t` is `r` with its fractional part dropped: the integer between zero
      and `r` that is less than one away from `r` (what `int()` does to a
      float). */
  predicate TowardZero(t: int, r: real) {
    if r >= 0.0 then t as real <= r < t as real + 1.0
    else t as real - 1.0 < r <= t as real
  }

  /** Truncation toward zero, as opposed to `Floor`, which rounds negative
      values down. */
  function Trunc(r: real): (t: int)
    ensures TowardZero(t, r)
  {
    if r >= 0.0 then r.Floor else -((-r).Floor)
  }

  lemma TowardZeroUnique(t: int, u: int, r: real)
    requires TowardZero(t, r) && TowardZero(u, r)
    ensures t == u
  {
  }

  /** Truncation commutes with negation, which `Floor` does not. */
  lemma TruncOdd(r: real)
    ensures Trunc(-r) == -Trunc(r)
  {
    TowardZeroUnique(Trunc(-r), -Trunc(r), -r);
  }

  /** The deadzone filter applied to one axis reading. */
  function Deadzone(v: real): (f: real)
    ensures f == 0.0 <==> Abs(v) < DEADZONE
    ensures f != 0.0 ==> f == v
  {
    if Abs(v) < DEADZONE then 0.0 else v
  }

  /** Filtering twice is filtering once, the filter is symmetric about zero,
      and what it lets through is never inside the dead band. */
  lemma DeadzoneIdempotentAndOdd(v: real)
    ensures Deadzone(Deadzone(v)) == Deadzone(v)
    ensures Deadzone(-v) == -Deadzone(v)
    ensures Deadzone(v) == 0.0 || Abs(Deadzone(v)) >= DEADZONE
  {
  }

  /** One reading of the four stick axes used for jogging, in the
      controller's normalised range. */
  datatype Axes = Axes(x: real, y: real, z: real, r: real)

  const Centred: Axes := Axes(0.0, 0.0, 0.0, 0.0)

  function Negate(a: Axes): Axes {
    Axes(-a.x, -a.y, -a.z, -a.r)
  }

  predicate InRange(a: Axes) {
    -1.0 <= a.x <= 1.0 && -1.0 <= a.y <= 1.0 && -1.0 <= a.z <= 1.0 && -1.0 <= a.r <= 1.0
  }

  /** The deadzone filter applied to every axis of a reading. */
  function Filter(a: Axes): (f: Axes)
    ensures f.x == 0.0 <==> Abs(a.x) < DEADZONE
    ensures f.y == 0.0 <==> Abs(a.y) < DEADZONE
    ensures f.z == 0.0 <==> Abs(a.z) < DEADZONE
    ensures f.r == 0.0 <==> Abs(a.r) < DEADZONE
    ensures (f.x != 0.0 ==> f.x == a.x) && (f.y != 0.0 ==> f.y == a.y)
    ensures (f.z != 0.0 ==> f.z == a.z) && (f.r != 0.0 ==> f.r == a.r)
  {
    Axes(Deadzone(a.x), Deadzone(a.y), Deadzone(a.z), Deadzone(a.r))
  }

  /** Every axis multiplied by `k` (the step increment or the speed). */
  function Scale(a: Axes, k: real): Axes {
    Axes(k * a.x, k * a.y, k * a.z, k * a.r)
  }

  lemma ScaleNegate(a: Axes, k: real)
    ensures Scale(Negate(a), k) == Negate(Scale(a, k))
  {
    assert k * -a.x == -(k * a.x);
    assert k * -a.y == -(k * a.y);
    assert k * -a.z == -(k * a.z);
    assert k * -a.r == -(k * a.r);
  }

  /** `to` is `from` moved by `request` with its fractional part dropped:
      a whole number of units, in the direction of the request, by no more
      than the request and by less than one unit short of it. */
  predicate WholeStep(from: real, to: real, request: real) {
    to - from == (to - from).Floor as real && TowardZero((to - from).Floor, request)
  }

  lemma WholeStepBounds(from: real, to: real, request: real)
    requires WholeStep(from, to, request)
    ensures Abs(to - from) <= Abs(request) < Abs(to - from) + 1.0
    ensures request >= 0.0 ==> from <= to
    ensures request <= 0.0 ==> to <= from
  {
  }

  /** `v` moved by `request` truncated toward zero. */
  function Shift(v: real, request: real): real {
    v + Trunc(request) as real
  }

  lemma ShiftIsWholeStep(v: real, request: real)
    ensures WholeStep(v, Shift(v, request), request)
  {
    var t := Trunc(request);
    assert (v + t as real) - v == t as real;
    assert (t as real).Floor == t;
  }

  /** The pose reached by moving x and yaw with the displacement `d`, y and z
      against it, with roll and pitch forced level. */
  function StepBy(current: Pose, d: Axes): Pose {
    Pose(Shift(current.x, d.x), Shift(current.y, -d.y), Shift(current.z, -d.z),
         180.0, 0.0, Shift(current.yaw, d.r))
  }

  /** The absolute target of one step jog: the stick deflection scaled by the
      increment is the requested displacement. */
  function StepTarget(current: Pose, a: Axes, increment: real): Pose {
    StepBy(current, Scale(a, increment))
  }

  /** With `d` the deflection scaled by the increment: x and yaw follow the
      stick, y and z move against it, every move is a whole number of
      millimetres or degrees no larger than the requested one, and roll and
      pitch are forced level. */
  lemma StepMovesWhole(current: Pose, a: Axes, increment: real)
    ensures var p, d := StepTarget(current, a, increment), Scale(a, increment);
      && d == Axes(increment * a.x, increment * a.y, increment * a.z, increment * a.r)
      && WholeStep(current.x, p.x, d.x)
      && WholeStep(current.y, p.y, -d.y)
      && WholeStep(current.z, p.z, -d.z)
      && WholeStep(current.yaw, p.yaw, d.r)
      && p.roll == 180.0 && p.pitch == 0.0
  {
    var d := Scale(a, increment);
    ShiftIsWholeStep(current.x, d.x);
    ShiftIsWholeStep(current.y, -d.y);
    ShiftIsWholeStep(current.z, -d.z);
    ShiftIsWholeStep(current.yaw, d.r);
  }

  /** A centred stick leaves the position and yaw where they were. */
  lemma StepCentredStaysPut(current: Pose, increment: real)
    ensures var p := StepTarget(current, Centred, increment);
      p.x == current.x && p.y == current.y && p.z == current.z && p.yaw == current.yaw
  {
    assert Scale(Centred, increment) == Centred;
    var p := StepBy(current, Centred);
    ShiftIsWholeStep(current.x, 0.0);
    ShiftIsWholeStep(current.y, -0.0);
    ShiftIsWholeStep(current.z, -0.0);
    ShiftIsWholeStep(current.yaw, 0.0);
    WholeStepBounds(current.x, p.x, 0.0);
    WholeStepBounds(current.y, p.y, 0.0);
    WholeStepBounds(current.z, p.z, 0.0);
    WholeStepBounds(current.yaw, p.yaw, 0.0);
  }

  lemma StepByUndone(current: Pose, d: Axes)
    ensures var back := StepBy(StepBy(current, d), Negate(d));
      back.x == current.x && back.y == current.y && back.z == current.z && back.yaw == current.yaw
  {
    TruncOdd(d.x);
    TruncOdd(d.y);
    TruncOdd(d.z);
    TruncOdd(d.r);
  }

  /** A step followed by the opposite stick deflection with the same
      increment returns position and yaw exactly to where they were. */
  lemma StepReversible(current: Pose, a: Axes, increment: real)
    ensures var back := StepTarget(StepTarget(current, a, increment), Negate(a), increment);
      back.x == current.x && back.y == current.y && back.z == current.z && back.yaw == current.yaw
  {
    ScaleNegate(a, increment);
    StepByUndone(current, Scale(a, increment));
  }

  /** A cartesian velocity command: linear rates in mm/s, angular in deg/s. */
  datatype Velocity = Velocity(vx: int, vy: int, vz: int, vroll: int, vpitch: int, vyaw: int)

  /** The velocity for a requested rate `d` (the stick scaled by the speed):
      y and z inverted, rotation at half rate, no roll or pitch rate. */
  function VelocityFor(d: Axes): Velocity {
    Velocity(Trunc(d.x), Trunc(-d.y), Trunc(-d.z), 0, 0, Trunc(d.r * 0.5))
  }

  /** The velocity requested for a stick reading at a given speed. */
  function VelocityCommand(a: Axes, speed: real): Velocity {
    VelocityFor(Scale(a, speed))
  }

  /** Every component is the requested rate truncated toward zero: y and z
      inverted, rotation at half rate, and roll and pitch rates zero. */
  lemma VelocityTruncates(a: Axes, speed: real)
    ensures var v := VelocityCommand(a, speed);
      && TowardZero(v.vx, speed * a.x)
      && TowardZero(v.vy, -(speed * a.y))
      && TowardZero(v.vz, -(speed * a.z))
      && TowardZero(v.vyaw, speed * a.r / 2.0)
      && v.vroll == 0 && v.vpitch == 0
  {
    var d := Scale(a, speed);
    assert d.r * 0.5 == speed * a.r / 2.0;
  }

  lemma ScaledBound(k: real, c: real, p: real)
    requires -1.0 <= c <= 1.0 && p == k * c
    ensures Abs(p) <= Abs(k)
  {
    if k >= 0.0 {
      if c >= 0.0 { assert k * c <= k * 1.0; } else { assert k * -c <= k * 1.0; }
    } else {
      if c >= 0.0 { assert -k * c <= -k * 1.0; } else { assert -k * -c <= -k * 1.0; }
    }
  }

  lemma ScaleBounded(a: Axes, k: real)
    requires InRange(a)
    ensures var d := Scale(a, k);
      Abs(d.x) <= Abs(k) && Abs(d.y) <= Abs(k) && Abs(d.z) <= Abs(k) && Abs(d.r) <= Abs(k)
  {
    var d := Scale(a, k);
    ScaledBound(k, a.x, d.x);
    ScaledBound(k, a.y, d.y);
    ScaledBound(k, a.z, d.z);
    ScaledBound(k, a.r, d.r);
  }

  lemma TruncBound(r: real, limit: real)
    requires Abs(r) <= limit
    ensures Abs(Trunc(r) as real) <= limit
  {
  }

  lemma VelocityForBounded(d: Axes, limit: real)
    requires Abs(d.x) <= limit && Abs(d.y) <= limit && Abs(d.z) <= limit && Abs(d.r) <= limit
    ensures var v := VelocityFor(d);
      && Abs(v.vx as real) <= limit && Abs(v.vy as real) <= limit
      && Abs(v.vz as real) <= limit && Abs(v.vyaw as real) <= limit / 2.0
  {
    TruncBound(d.x, limit);
    TruncBound(-d.y, limit);
    TruncBound(-d.z, limit);
    TruncBound(d.r * 0.5, limit / 2.0);
  }

  /** With the stick in its normal range, no linear rate exceeds the speed
      and the rotation rate does not exceed half of it. */
  lemma VelocityBounded(a: Axes, speed: real)
    requires InRange(a)
    ensures var v := VelocityCommand(a, speed);
      && Abs(v.vx as real) <= Abs(speed) && Abs(v.vy as real) <= Abs(speed)
      && Abs(v.vz as real) <= Abs(speed) && Abs(v.vyaw as real) <= Abs(speed) / 2.0
  {
    ScaleBounded(a, speed);
    VelocityForBounded(Scale(a, speed), Abs(speed));
  }

  /** Sign conventions: a full deflection of y or z gives the full speed
      negated, a full rotation gives half the speed. */
  lemma VelocitySigns(speed: real)
    ensures VelocityCommand(Axes(1.0, 0.0, 0.0, 0.0), speed).vx == Trunc(speed)
    ensures VelocityCommand(Axes(0.0, 1.0, 0.0, 0.0), speed).vy == -Trunc(speed)
    ensures VelocityCommand(Axes(0.0, 0.0, 1.0, 0.0), speed).vz == -Trunc(speed)
    ensures VelocityCommand(Axes(0.0, 0.0, 0.0, 1.0), speed).vyaw == Trunc(speed / 2.0)
  {
    TruncOdd(speed);
  }

  /** Opposite deflections request exactly opposite velocities. */
  lemma VelocityOdd(a: Axes, speed: real)
    ensures var v := VelocityCommand(a, speed);
      VelocityCommand(Negate(a), speed) == Velocity(-v.vx, -v.vy, -v.vz, 0, 0, -v.vyaw)
  {
    var d := Scale(a, speed);
    ScaleNegate(a, speed);
    TruncOdd(d.x);
    TruncOdd(d.y);
    TruncOdd(d.z);
    TruncOdd(d.r * 0.5);
    assert -d.r * 0.5 == -(d.r * 0.5);
  }
}
