/** How a cycle of the engine answers each of its inputs, and what that makes of whole runs:
    src/control_core/bridge_execution_engine.py. */
module EngineAnswers {
  import opened Common
  import opened BridgeEngine
  import N = NotchFilter

  // ---------- How the steering answers its inputs ----------

  /** Degrees in a radian. */
  const DEGREES: real := 180.0 / PI

  /** The request that passes the shear protection in a cycle. */
  function PassedYaw(v: Vessel, s: State, c: Cycle): real
  {
    var omega := Omega(CurrentRpm(s, c));
    SafeYawRate(v, ShearFactor(v, omega), c.targets.yawRate, omega)
  }

  /** The rudder demand answers each measured rate against it, with gains 2.5 on roll and 1.8
      on yaw, each request along it, and each trim one for one. */
  lemma SteeringAnswers(v: Vessel, s: State, c: Cycle, d: real)
    ensures RudderDemand(v, s, c.(rollRate := c.rollRate + d)) == RudderDemand(v, s, c) - 2.5 * d * DEGREES
    ensures RudderDemand(v, s, c.(yawRate := c.yawRate + d)) == RudderDemand(v, s, c) - 1.8 * d * DEGREES
    ensures RudderDemand(v, s, c.(trimDeg := c.trimDeg + d)) == RudderDemand(v, s, c) + d
    ensures RudderDemand(v, s, c.(coriolisDeg := c.coriolisDeg + d)) == RudderDemand(v, s, c) + d
    ensures var c' := c.(targets := c.targets.(yawRate := c.targets.yawRate + d));
            PassedYaw(v, s, c') == PassedYaw(v, s, c) + d ==> RudderDemand(v, s, c') == RudderDemand(v, s, c) + 1.8 * d * DEGREES
  {
    hide Omega, SafeYawRate, ShearFactor;
  }

  /** The yaw rate is what is asked for, as far as the shear protection lets it, and there is
      nothing to trim. */
  predicate YawMet(v: Vessel, s: State, c: Cycle)
  {
    PassedYaw(v, s, c) == c.yawRate && c.trimDeg == 0.0 && c.coriolisDeg == 0.0
  }

  /** With the yaw rate met, the demand opposes the roll: it is zero on an even keel and
      otherwise of the opposite sign, 2.5 degrees for each degree per second. */
  lemma RollIsOpposed(v: Vessel, s: State, c: Cycle)
    requires YawMet(v, s, c)
    ensures RudderDemand(v, s, c) == -2.5 * c.rollRate * DEGREES
    ensures c.rollRate > 0.0 ==> RudderDemand(v, s, c) < 0.0
    ensures c.rollRate < 0.0 ==> RudderDemand(v, s, c) > 0.0
    ensures c.rollRate == 0.0 ==> RudderDemand(v, s, c) == 0.0
  {
    hide Omega, SafeYawRate, ShearFactor;
  }

  /** In cycle n the ship rolls at this rate with the yaw rate met. */
  ghost predicate RollingAt(v: Vessel, s: State, cycles: nat -> Cycle, roll: real, decay: real, t: real, n: nat)
  {
    var c := cycles(n);
    YawMet(v, Course(v, s, cycles, n), c) && c.rollRate == roll && c.decay == decay && c.tangent == t
  }

  /** Under a steady roll rate, with the yaw rate met, the engine's rudder converges to 2.5
      degrees against each degree per second, as far as the cap lets it, and so comes and
      stays on the side that opposes the roll. */
  lemma RudderOpposesRoll(v: Vessel, s: State, cycles: nat -> Cycle, roll: real, decay: real, t: real, eps: real) returns (start: nat)
    requires forall n: nat :: RollingAt(v, s, cycles, roll, decay, t, n)
    requires t > 0.0 && v.maxRudderDeg > 0.0 && decay > 0.0 && eps > 0.0
    ensures var cap := v.maxRudderDeg * decay;
            var rest := Limit(-cap, cap, -2.5 * roll * DEGREES);
      forall n: nat :: n >= start ==>
        var rudder := Step(v, Course(v, s, cycles, n), cycles(n)).1.rudderDeg;
        && Abs(rudder - rest) < eps
        && (roll > 0.0 ==> rudder < 0.0) && (roll < 0.0 ==> rudder > 0.0)
  {
    var cap, r := v.maxRudderDeg * decay, -2.5 * roll * DEGREES;
    var rest := Limit(-cap, cap, r);
    PositiveProduct(v.maxRudderDeg, decay, cap);
    RestSide(cap, roll, r);
    hide Limit, Abs, Step, RollingAt, SteadyAt, Course;
    forall n: nat ensures SteadyAt(v, s, cycles, r, cap, t, n) {
      RollingIsSteady(v, s, cycles, roll, decay, t, n);
    }
    var near := if roll == 0.0 || eps < Abs(rest) then eps else Abs(rest);
    start := RudderTracks(v, s, cycles, r, cap, t, near);
    forall n: nat | n >= start
      ensures var rudder := Step(v, Course(v, s, cycles, n), cycles(n)).1.rudderDeg;
        && Abs(rudder - rest) < eps && (roll > 0.0 ==> rudder < 0.0) && (roll < 0.0 ==> rudder > 0.0)
    {
      var rudder := Step(v, Course(v, s, cycles, n), cycles(n)).1.rudderDeg;
      assert Abs(rudder - rest) < near;
      NearSide(rudder, rest, near);
    }
  }

  lemma RestSide(cap: real, roll: real, r: real)
    requires cap > 0.0 && r == -2.5 * roll * DEGREES
    ensures var rest := Limit(-cap, cap, r);
      (roll > 0.0 ==> rest < 0.0) && (roll < 0.0 ==> rest > 0.0) && (roll != 0.0 ==> Abs(rest) > 0.0)
  {
  }

  lemma NearSide(x: real, rest: real, near: real)
    requires Abs(x - rest) < near
    ensures near <= Abs(rest) ==> (rest > 0.0 ==> x > 0.0) && (rest < 0.0 ==> x < 0.0)
  {
  }

  lemma RollingIsSteady(v: Vessel, s: State, cycles: nat -> Cycle, roll: real, decay: real, t: real, n: nat)
    requires RollingAt(v, s, cycles, roll, decay, t, n)
    ensures SteadyAt(v, s, cycles, -2.5 * roll * DEGREES, v.maxRudderDeg * decay, t, n)
  {
    hide Course, YawMet, RudderDemand;
    RollIsOpposed(v, Course(v, s, cycles, n), cycles(n));
  }

  // ---------- How the ramp answers its target ----------

  /** Away from the target the acceleration moves towards it by 5*dt, less only where 50 rpm/s
      stops it, and the register moves by the new acceleration; within 0.1 rpm the ramp rests. */
  lemma JerkLimited(ramp: real, accel: real, target: real, current: real, dt: real)
    requires Abs(accel) <= 50.0 && dt >= 0.0
    ensures var base := RampBase(ramp, current);
            var (r, a, p) := SCurve(ramp, accel, target, current, dt);
      && (target - base >= 0.1 ==> a - accel == Min(5.0 * dt, 50.0 - accel) && r - base == a * dt)
      && (base - target >= 0.1 ==> accel - a == Min(5.0 * dt, accel + 50.0) && r - base == a * dt)
      && (Abs(target - base) < 0.1 ==> a == 0.0 && r == base && p == target)
  {
  }

  // ---------- How the propulsion answers its inputs ----------

  /** Shallow water in the code's own terms: with q the speed sqrt(9.81 * depth) of long waves
      at a depth of at least half a metre, the slowdown is on exactly above 0.85 of it. The
      order is then cut to 250 rpm, and otherwise, and below that, passed as it is. */
  lemma ShallowSlowdown(v: Vessel, s: State, c: Cycle, q: real)
    requires q > 0.0 && q * q == 9.81 * Max(0.5, c.depth)
    ensures Step(v, s, c).1.slowdown <==> c.speed > 0.85 * q
    ensures SafeTargetRpm(c).0 == if c.speed > 0.85 * q then Min(250.0, c.targets.rpm) else c.targets.rpm
  {
    Froude(c, q);
    StepSlowdown(v, s, c);
    hide Step, SafeTargetRpm;
  }

  lemma StepSlowdown(v: Vessel, s: State, c: Cycle)
    ensures Step(v, s, c).1.slowdown == SafeTargetRpm(c).1
  {
    hide N.Step, N.Design, Torque, RudderDemand, SpeedError, NextIntegral, RudderCap, SCurve, SafeTargetRpm;
  }

  lemma Froude(c: Cycle, q: real)
    requires q > 0.0 && q * q == 9.81 * Max(0.5, c.depth)
    ensures SafeTargetRpm(c).1 <==> c.speed > 0.85 * q
    ensures SafeTargetRpm(c).0 == if c.speed > 0.85 * q then Min(250.0, c.targets.rpm) else c.targets.rpm
  {
    var x, y, w := 0.85 * q, c.speed, q * q;
    assert x * x == 0.85 * 0.85 * w;
    if y > x {
      SquareAbove(x, y);
    } else if y > 0.0 {
      SquareAbove(y, x);
    }
  }

  lemma SquareAbove(x: real, y: real)
    requires 0.0 < x <= y
    ensures x * x <= y * y && (x < y ==> x * x < y * y)
  {
    MulMono(x, x, y);
    MulMono(y, x, y);
    if x < y {
      PositiveProduct(y, y - x, y * (y - x));
    }
  }

  /** Radians per second in a revolution per minute. */
  const RPM: real := 2.0 * PI / 60.0

  /** The loop is a PI controller on the lag of the shaft behind the profile, both as seen
      from outside: gain 220 on the lag in rad/s and 10 on its integral, which takes up the lag
      only while the demand is below the torque limit. The ventilation index scales the
      demand, and a bank force above 10 kN takes a tenth of itself off. */
  lemma TorqueIsPI(v: Vessel, s: State, c: Cycle, lag: real)
    requires lag == (Step(v, s, c).1.rpmCap - CurrentRpm(s, c)) * RPM
    ensures var (s', o) := Step(v, s, c);
      && s'.integral == (if Abs(220.0 * lag + 10.0 * s.integral) < v.maxTorque then s.integral + lag * c.dt else s.integral)
      && o.torque == Limit(-v.maxTorque, v.maxTorque,
           (220.0 * lag + 10.0 * s'.integral) * c.ventilation - (if c.bankForce > 10000.0 then c.bankForce / 10.0 else 0.0))
  {
    hide N.Step, N.Design, RudderDemand, RudderCap, SCurve, SafeTargetRpm, Omega, CurrentRpm, Torque, NextIntegral;
    var (s', o) := Step(v, s, c);
    var current := CurrentRpm(s, c);
    OmegaLag(o.rpmCap, current);
    var e := SpeedError(s, c);
    assert e == Omega(o.rpmCap) - Omega(current);
    assert s'.integral == NextIntegral(v, s.integral, e, c.dt);
    assert o.torque == Torque(v, e, s'.integral, c);
    hide Step, SpeedError;
    assert e == lag;
    IntegralIs(v, s.integral, lag, c.dt);
    TorqueIs(v, lag, s'.integral, c);
  }

  lemma IntegralIs(v: Vessel, i: real, lag: real, dt: real)
    ensures NextIntegral(v, i, lag, dt) == if Abs(220.0 * lag + 10.0 * i) < v.maxTorque then i + lag * dt else i
  {
  }

  lemma TorqueIs(v: Vessel, lag: real, i: real, c: Cycle)
    ensures Torque(v, lag, i, c) == Limit(-v.maxTorque, v.maxTorque,
      (220.0 * lag + 10.0 * i) * c.ventilation - (if c.bankForce > 10000.0 then c.bankForce / 10.0 else 0.0))
  {
  }

  lemma OmegaLag(x: real, y: real)
    ensures Omega(x) - Omega(y) == (x - y) * RPM
  {
  }

  /** From an empty integrator, with no bank force, the torque drives the shaft towards the
      profile: with it, against it, or not at all as the shaft lags, leads or keeps up. */
  lemma TorqueTowardsProfile(v: Vessel, s: State, c: Cycle)
    requires v.maxTorque > 0.0 && s.integral == 0.0 && c.dt >= 0.0 && c.ventilation > 0.0 && c.bankForce <= 10000.0
    ensures var o := Step(v, s, c).1;
            var current := CurrentRpm(s, c);
      && (o.rpmCap > current ==> o.torque > 0.0)
      && (o.rpmCap < current ==> o.torque < 0.0)
      && (o.rpmCap == current ==> o.torque == 0.0)
  {
    hide Step, CurrentRpm;
    var (s', o) := Step(v, s, c);
    var lag := (o.rpmCap - CurrentRpm(s, c)) * RPM;
    TorqueIsPI(v, s, c, lag);
    var travel := lag * c.dt;
    N.SqNonneg(c.dt);
    LagSign(lag, c.dt, travel);
    var base := 220.0 * lag + 10.0 * s'.integral;
    var torque := base * c.ventilation;
    LagSign(base, c.ventilation, torque);
    StrictSign(base, c.ventilation, torque);
  }

  lemma LagSign(x: real, k: real, p: real)
    requires k >= 0.0 && p == x * k
    ensures (x > 0.0 ==> p >= 0.0) && (x < 0.0 ==> p <= 0.0) && (x == 0.0 ==> p == 0.0)
  {
  }

  lemma StrictSign(x: real, k: real, p: real)
    requires k > 0.0 && p == x * k
    ensures (x > 0.0 ==> p > 0.0) && (x < 0.0 ==> p < 0.0)
  {
    N.SignOf(k, x, p);
  }

  /** In shallow water an order above 250 rpm acts as one of 250 does. */
  lemma ShallowOrder(v: Vessel, s: State, c: Cycle)
    requires Step(v, s, c).1.slowdown
    ensures Step(v, s, c) == Step(v, s, c.(targets := c.targets.(rpm := Min(250.0, c.targets.rpm))))
  {
    hide Step, SafeTargetRpm, RudderDemand, CurrentRpm;
    var c' := c.(targets := c.targets.(rpm := Min(250.0, c.targets.rpm)));
    StepSlowdown(v, s, c);
    SameTarget(c);
    SameCurrent(s, c, c');
    SameDemand(v, s, c, c');
    SameCycle(v, s, c, s, c');
  }

  lemma SameTarget(c: Cycle)
    requires SafeTargetRpm(c).1
    ensures SafeTargetRpm(c.(targets := c.targets.(rpm := Min(250.0, c.targets.rpm)))) == SafeTargetRpm(c)
  {
  }

  lemma SameCurrent(s: State, c: Cycle, c': Cycle)
    requires c.rpm == c'.rpm
    ensures CurrentRpm(s, c) == CurrentRpm(s, c')
  {
  }

  lemma SameDemand(v: Vessel, s: State, c: Cycle, c': Cycle)
    requires c' == c.(targets := c'.targets, rpm := c'.rpm) && c.targets.yawRate == c'.targets.yawRate && CurrentRpm(s, c) == CurrentRpm(s, c')
    ensures RudderDemand(v, s, c) == RudderDemand(v, s, c')
  {
    hide SafeYawRate, ShearFactor, Omega;
  }

  /** A cycle acts through the target, the current speed, the rudder demand and the inputs of
      the torque and the filter alone. */
  lemma SameCycle(v: Vessel, s: State, c: Cycle, s': State, c': Cycle)
    requires s == s' && SafeTargetRpm(c) == SafeTargetRpm(c') && CurrentRpm(s, c) == CurrentRpm(s', c')
    requires RudderDemand(v, s, c) == RudderDemand(v, s', c') && c' == c.(targets := c'.targets, rpm := c'.rpm)
    ensures Step(v, s, c) == Step(v, s', c')
  {
    var e := SpeedError(s, c);
    assert SpeedError(s', c') == e;
    SameTorque(v, e, NextIntegral(v, s.integral, e, c.dt), c, c');
    SameCap(v, c, c');
    hide N.Step, N.Design, NextIntegral, RudderCap, SCurve, RudderDemand, SafeTargetRpm, CurrentRpm, Torque, SpeedError;
  }

  lemma SameTorque(v: Vessel, e: real, i: real, c: Cycle, c': Cycle)
    requires c.ventilation == c'.ventilation && c.bankForce == c'.bankForce
    ensures Torque(v, e, i, c) == Torque(v, e, i, c')
  {
  }

  /** At rest, with nothing ordered and nothing measured, the engine commands nothing and stays
      as it started. */
  lemma StaysAtRest(v: Vessel, dt: real)
    requires Seaworthy(v)
    ensures Step(v, INITIAL, QuietCycle(0.0, 0.0, dt)) == (INITIAL, Output(0.0, 0.0, 0.0, false))
  {
    RestingInputs(v, dt);
    RestingRudder(v, QuietCycle(0.0, 0.0, dt));
    RestingDrive(v, QuietCycle(0.0, 0.0, dt));
    hide Step, QuietCycle;
  }

  lemma RestingRudder(v: Vessel, c: Cycle)
    requires RudderDemand(v, INITIAL, c) == 0.0 && RudderCap(v, c) >= 0.0
    ensures Step(v, INITIAL, c).0.notch == N.Registers(0.0, 0.0, 0.0, 0.0) && Step(v, INITIAL, c).1.rudderDeg == 0.0
  {
    FilterStep(v, INITIAL, c);
    RudderIsStored(v, INITIAL, c);
    RestingFilter(c.tangent);
    hide Step, N.Step, N.Design, RudderDemand, RudderCap;
  }

  lemma RestingDrive(v: Vessel, c: Cycle)
    requires v.maxTorque >= 0.0 && c.ventilation == 1.0 && c.bankForce == 0.0
    requires CurrentRpm(INITIAL, c) == 0.0 && SafeTargetRpm(c) == (0.0, false) && SCurve(0.0, 0.0, 0.0, 0.0, c.dt) == (0.0, 0.0, 0.0)
    ensures var (s, o) := Step(v, INITIAL, c);
      && s.ramp == 0.0 && s.accel == 0.0 && s.integral == 0.0 && s.lastRpm == 0.0
      && o.torque == 0.0 && o.rpmCap == 0.0 && !o.slowdown
  {
    var e := SpeedError(INITIAL, c);
    OmegaLag(0.0, 0.0);
    hide N.Step, N.Design, RudderDemand, RudderCap, SCurve, CurrentRpm, SafeTargetRpm, Torque, NextIntegral, Omega;
    assert e == 0.0;
    hide SpeedError;
    IntegralIs(v, 0.0, 0.0, c.dt);
    TorqueIs(v, 0.0, 0.0, c);
  }

  lemma RestingInputs(v: Vessel, dt: real)
    requires Seaworthy(v)
    ensures var c := QuietCycle(0.0, 0.0, dt);
      && c.dt == dt && c.ventilation == 1.0 && c.bankForce == 0.0
      && CurrentRpm(INITIAL, c) == 0.0 && SafeTargetRpm(c) == (0.0, false)
      && SCurve(0.0, 0.0, 0.0, 0.0, dt) == (0.0, 0.0, 0.0)
      && RudderDemand(v, INITIAL, c) == 0.0 && RudderCap(v, c) >= 0.0
  {
    var c := QuietCycle(0.0, 0.0, dt);
    HarmlessPasses(v, ShearFactor(v, Omega(0.0)), Omega(0.0));
    hide ShearFactor, SafeYawRate, Omega;
    assert Steering(0.0, c) == 0.0;
  }

  lemma RestingFilter(t: real)
    ensures N.Step(N.Design(t), N.Registers(0.0, 0.0, 0.0, 0.0), 0.0) == N.Registers(0.0, 0.0, 0.0, 0.0)
  {
    hide N.Design;
  }

  /** A cycle without a speed reading runs as if the last speed had been read again. */
  lemma MissedReading(v: Vessel, s: State, c: Cycle, d: Cycle)
    requires d.rpm == NoReading
    ensures var s' := Step(v, s, c).0;
            Step(v, s', d) == Step(v, s', d.(rpm := Rpm(CurrentRpm(s, c))))
  {
    var s' := Step(v, s, c).0;
    var e := d.(rpm := Rpm(CurrentRpm(s, c)));
    LastSpeed(v, s, c);
    assert CurrentRpm(s', d) == CurrentRpm(s', e) == CurrentRpm(s, c);
    assert SafeTargetRpm(e) == SafeTargetRpm(d);
    SameDemand(v, s', d, e);
    hide Step, SafeTargetRpm, CurrentRpm, RudderDemand;
    SameCycle(v, s', d, s', e);
  }

  lemma LastSpeed(v: Vessel, s: State, c: Cycle)
    ensures Step(v, s, c).0.lastRpm == CurrentRpm(s, c)
  {
    hide N.Step, N.Design, Torque, RudderDemand, SpeedError, NextIntegral, RudderCap, SCurve, SafeTargetRpm, CurrentRpm;
  }

  lemma SameCap(v: Vessel, c: Cycle, c': Cycle)
    requires c.decay == c'.decay
    ensures RudderCap(v, c) == RudderCap(v, c')
  {
  }

  // ---------- The roll damping at the notch frequency ----------

  /** In cycle n the ship rolls in the wave p, with the yaw rate met and the rudder within
      its cap. */
  ghost predicate RollingIn(v: Vessel, s: State, cycles: nat -> Cycle, p: nat -> real, t: real, n: nat)
  {
    var c, q := cycles(n), Course(v, s, cycles, n);
    && YawMet(v, q, c) && c.rollRate == p(n) && c.tangent == t
    && Abs(Step(v, q, c).1.rudderDeg) < v.maxRudderDeg * c.decay
  }

  function Damping(p: nat -> real): nat -> real
  {
    (n: nat) => -2.5 * p(n) * DEGREES
  }

  lemma UncappedStep(v: Vessel, s: State, c: Cycle)
    requires Abs(Step(v, s, c).1.rudderDeg) < v.maxRudderDeg * c.decay
    ensures Step(v, s, c).0.notch == N.Step(N.Design(c.tangent), s.notch, RudderDemand(v, s, c))
    ensures Step(v, s, c).1.rudderDeg == Step(v, s, c).0.notch.y1
  {
    hide N.Design, N.Output, RudderDemand, Torque, SpeedError, NextIntegral, SCurve, SafeTargetRpm;
  }

  lemma {:induction false} RollingCourse(v: Vessel, s: State, cycles: nat -> Cycle, p: nat -> real, t: real, n: nat)
    requires forall i: nat :: RollingIn(v, s, cycles, p, t, i)
    ensures Course(v, s, cycles, n).notch == N.Run(N.Design(t), s.notch, Damping(p), n)
  {
    if n > 0 {
      hide Step, N.Step, N.Design, RollingIn;
      RollingCourse(v, s, cycles, p, t, n - 1);
      RollingStep(v, s, cycles, p, t, n - 1);
      CourseNext(v, s, cycles, n - 1);
      hide Course;
    }
  }

  lemma RollingStep(v: Vessel, s: State, cycles: nat -> Cycle, p: nat -> real, t: real, n: nat)
    requires RollingIn(v, s, cycles, p, t, n)
    ensures var q := Course(v, s, cycles, n);
            Step(v, q, cycles(n)).0.notch == N.Step(N.Design(t), q.notch, Damping(p)(n))
  {
    hide Step, N.Step, N.Design, YawMet, RudderDemand, Course;
    var q := Course(v, s, cycles, n);
    UncappedStep(v, q, cycles(n));
    RollIsOpposed(v, q, cycles(n));
  }

  lemma DampingIsWave(t: real, p: nat -> real)
    requires N.Wave(t, p)
    ensures N.Wave(t, Damping(p))
  {
    var a, b, q := 1.0 + t * t, 2.0 * (1.0 - t * t), Damping(p);
    forall n: nat ensures a * (q(n + 2) + q(n)) == b * q(n + 1) {
      WaveAt(t, p, a, b, n);
      DampingStep(p, a, b, n);
    }
    hide Damping;
  }

  lemma WaveAt(t: real, p: nat -> real, a: real, b: real, n: nat)
    requires N.Wave(t, p) && a == 1.0 + t * t && b == 2.0 * (1.0 - t * t)
    ensures a * (p(n + 2) + p(n)) == b * p(n + 1)
  {
  }

  lemma DampingStep(p: nat -> real, a: real, b: real, n: nat)
    requires a * (p(n + 2) + p(n)) == b * p(n + 1)
    ensures var q := Damping(p); a * (q(n + 2) + q(n)) == b * q(n + 1)
  {
    DampingAt(p, n);
    DampingAt(p, n + 1);
    DampingAt(p, n + 2);
    hide Damping;
    WaveScaled(a, b, -2.5 * DEGREES, p(n), p(n + 1), p(n + 2));
  }

  lemma DampingAt(p: nat -> real, n: nat)
    ensures Damping(p)(n) == (-2.5 * DEGREES) * p(n)
  {
  }

  lemma WaveScaled(a: real, b: real, k: real, x: real, y: real, z: real)
    requires a * (z + x) == b * y
    ensures a * (k * z + k * x) == b * (k * y)
  {
    assert a * (k * z + k * x) == k * (a * (z + x));
    assert b * (k * y) == k * (b * y);
  }

  /** The price of the notch: rolling in a wave at the notch frequency, whose damping is what
      the steering is to add, the rudder converges to a fourteenth of the damping demanded. */
  lemma RollDampingNotched(v: Vessel, s: State, cycles: nat -> Cycle, p: nat -> real, t: real, eps: real) returns (start: nat)
    requires forall n: nat :: RollingIn(v, s, cycles, p, t, n)
    requires t > 0.0 && eps > 0.0 && N.Wave(t, p)
    ensures forall n: nat :: n >= start ==>
      Abs(Step(v, Course(v, s, cycles, n), cycles(n)).1.rudderDeg - -2.5 * p(n) * DEGREES / 14.0) < eps
  {
    hide Step, Course, N.Run, RollingIn, N.Design, N.Wave;
    DampingIsWave(t, p);
    start := N.RejectsWave(t, s.notch, Damping(p), eps);
    forall n: nat | n >= start
      ensures Abs(Step(v, Course(v, s, cycles, n), cycles(n)).1.rudderDeg - -2.5 * p(n) * DEGREES / 14.0) < eps
    {
      RollingCourse(v, s, cycles, p, t, n + 1);
      CourseNext(v, s, cycles, n);
      RudderIsStored(v, Course(v, s, cycles, n), cycles(n));
      var m := n + 1;
      assert Abs(N.Run(N.Design(t), s.notch, Damping(p), m).y1 - Damping(p)(m - 1) / 14.0) < eps;
    }
  }

  lemma CourseNext(v: Vessel, s: State, cycles: nat -> Cycle, n: nat)
    ensures Course(v, s, cycles, n + 1) == Step(v, Course(v, s, cycles, n), cycles(n)).0
  {
  }
}
