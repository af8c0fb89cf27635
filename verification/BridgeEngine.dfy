/** The master control cycle: src/control_core/bridge_execution_engine.py, over exact reals.
    Subsystem contributions (trim, bank force, ventilation index, Coriolis), the exponential
    of the rudder cap and the tangent of the notch design arrive as inputs of the cycle. */
module BridgeEngine {
  import opened Common
  import Clamped = ClampedFilter
  import N = NotchFilter
  import Tcp = TcpListener
  import Utf8
  import W = WaveProcessor
  import Watchdog

  const PI: real := 3.141592653589793
  const MAX_JERK: real := 5.0
  const MAX_ACCEL: real := 50.0

  datatype Vessel = Vessel(diameter: real, maxTorque: real, maxRudderDeg: real)

  datatype State = State(
    ramp: real, accel: real, integral: real, lastRpm: real,
    notch: N.Registers)

  const INITIAL: State := State(0.0, 0.0, 0.0, 0.0, N.Registers(0.0, 0.0, 0.0, 0.0))

  datatype Reading = NoReading | Rpm(value: real)

  datatype Cycle = Cycle(
    targets: Tcp.Targets,
    rpm: Reading, speed: real, depth: real, yawRate: real, rollRate: real,
    ventilation: real, bankForce: real, trimDeg: real, coriolisDeg: real,
    decay: real,   // exp(-0.015*|omega|)
    tangent: real, // tan(0.82*dt/2)
    dt: real)

  datatype Output = Output(torque: real, rudderDeg: real, rpmCap: real, slowdown: bool)

  function Omega(rpm: real): real
  {
    rpm * 2.0 * PI / 60.0
  }

  /** x advanced at a rate for a time. */
  function Advance(x: real, rate: real, dt: real): real
  {
    x + rate * dt
  }

  // ---------- The ramp generator ----------

  /** The ramp register a cycle works from: a register at exactly zero is re-seeded. */
  function RampBase(ramp: real, current: real): real
  {
    if ramp == 0.0 then current else ramp
  }

  /** The jerk-limited acceleration towards the target. */
  function RampAccel(accel: real, error: real, dt: real): real
  {
    Limit(-MAX_ACCEL, MAX_ACCEL, accel + (if error > 0.0 then 1.0 else -1.0) * MAX_JERK * dt)
  }

  /** The ramp register, the acceleration register and the profiled speed. */
  function SCurve(ramp: real, accel: real, target: real, current: real, dt: real): (real, real, real)
  {
    var base := RampBase(ramp, current);
    var error := target - base;
    if Abs(error) < 0.1 then (base, 0.0, target)
    else
      var a := RampAccel(accel, error, dt);
      var r := Advance(base, a, dt);
      (r, a, Limit(-200.0, 1200.0, r))
  }

  predicate RpmInRange(x: real)
  {
    -200.0 <= x <= 1200.0
  }

  /** The profiled speed belongs to the register: they agree within the snap band. */
  predicate Near(ramp: real, profiled: real)
  {
    Abs(Limit(-200.0, 1200.0, ramp) - profiled) <= 0.1
  }

  lemma LimitNonexpansive(x: real, y: real)
    ensures Abs(Limit(-200.0, 1200.0, x) - Limit(-200.0, 1200.0, y)) <= Abs(x - y)
  {
  }

  /** One cycle of the ramp: the acceleration and the profiled speed stay in their ranges, the
      profiled speed stays with the register, and it moves by no more than 50*dt + 0.2 from
      the speed the register stood for, that is from the last profiled speed, or from the
      measured speed when the register was at exactly zero and is re-seeded. */
  lemma SmoothRamp(ramp: real, accel: real, target: real, current: real, dt: real, last: real)
    requires RpmInRange(target) && dt >= 0.0
    requires Near(RampBase(ramp, current), last)
    ensures var (r, a, p) := SCurve(ramp, accel, target, current, dt);
      && Abs(a) <= MAX_ACCEL
      && RpmInRange(p)
      && Near(r, p)
      && Abs(p - last) <= MAX_ACCEL * dt + 0.2
  {
    var base := RampBase(ramp, current);
    var (r, a, p) := SCurve(ramp, accel, target, current, dt);
    AccelRange(accel, target - base, dt);
    hide RampBase, RampAccel, Limit, Abs;
    AbsZero();
    LimitFacts(base);
    LimitFacts(target);
    LimitFacts(r);
    if Abs(target - base) < 0.1 {
      LimitNonexpansive(base, target);
      SnapDistance(base, target, last, dt);
    } else {
      AccelTravel(a, dt, r - base);
      LimitNonexpansive(r, base);
      Triangle(p, Limit(-200.0, 1200.0, base), last, MAX_ACCEL * dt, 0.1);
    }
  }

  lemma AbsZero()
    ensures Abs(0.0) == 0.0
  {
  }

  lemma LimitFacts(x: real)
    ensures RpmInRange(Limit(-200.0, 1200.0, x))
    ensures RpmInRange(x) ==> Limit(-200.0, 1200.0, x) == x
    ensures Abs(Limit(-200.0, 1200.0, x) - Limit(-200.0, 1200.0, x)) == 0.0
  {
  }

  lemma AccelRange(accel: real, error: real, dt: real)
    ensures Abs(RampAccel(accel, error, dt)) <= MAX_ACCEL
  {
  }

  lemma Triangle(x: real, y: real, z: real, d: real, e: real)
    requires Abs(x - y) <= d && Abs(y - z) <= e
    ensures Abs(x - z) <= d + e
  {
  }

  lemma SnapDistance(base: real, target: real, last: real, dt: real)
    requires Abs(target - base) < 0.1 && Near(base, last) && RpmInRange(target) && dt >= 0.0
    ensures Near(base, target) && Abs(target - last) <= MAX_ACCEL * dt + 0.2
  {
  }

  lemma AccelTravel(a: real, dt: real, travel: real)
    requires Abs(a) <= MAX_ACCEL && dt >= 0.0 && travel == a * dt
    ensures Abs(travel) <= MAX_ACCEL * dt
  {
  }

  // ---------- The re-seed ----------

  /** How far the ramp promises to move the profiled speed in one cycle. */
  function Budget(dt: real): real { MAX_ACCEL * dt + 0.2 }

  /** The register after a cycle that re-seeds it: the measured speed, taken to the target or
      one acceleration step towards it. */
  function Reseeded(accel: real, target: real, current: real, dt: real): real
  {
    if Abs(target - current) < 0.1 then target else Advance(current, RampAccel(accel, target - current, dt), dt)
  }

  /** A re-seeding cycle moves the profiled speed by more than the budget exactly when the
      measured speed, one step on, lies beyond the budget around the last profiled speed and
      the limits of the profile do not hide it. */
  lemma ReseedProfile(accel: real, target: real, current: real, dt: real, last: real)
    requires RpmInRange(target) && Abs(last) <= 0.1 && dt >= 0.0
    ensures var p := SCurve(0.0, accel, target, current, dt).2;
            var x := Reseeded(accel, target, current, dt);
      Abs(p - last) > Budget(dt) <==>
        || (x > last + Budget(dt) && last + Budget(dt) < 1200.0)
        || (x < last - Budget(dt) && last - Budget(dt) > -200.0)
  {
    hide RampAccel, Advance;
    LimitFacts(target);
  }

  /** The furthest up and down that a re-seeded register can go in one cycle. From beyond the
      top of the range every target lies below, so that even full acceleration falls off. */
  function HighReach(current: real, dt: real): real
  {
    if current >= 1200.1 then Advance(current, RampAccel(MAX_ACCEL, -1.0, dt), dt)
    else current + Max(MAX_ACCEL * dt, 0.1)
  }

  function LowReach(current: real, dt: real): real
  {
    current - Max(MAX_ACCEL * dt, 0.1)
  }

  ghost predicate ReseedSafe(current: real, dt: real, last: real)
  {
    forall target, accel :: RpmInRange(target) && Abs(accel) <= MAX_ACCEL ==>
      Abs(SCurve(0.0, accel, target, current, dt).2 - last) <= Budget(dt)
  }

  /** The speeds from which re-seeding is safe: whatever the target and the acceleration, the
      profiled speed keeps to the budget exactly when the reach of the register does, except
      where the limits of the profile hide it. For cycles of up to 3 s that is exactly when
      the measured speed is within 0.2 rpm, and within 50*dt + 0.1, of the last profiled one. */
  lemma ReseedSafeIff(current: real, dt: real, last: real)
    requires Abs(last) <= 0.1 && dt >= 0.0
    ensures ReseedSafe(current, dt, last) <==>
      && (last + Budget(dt) < 1200.0 ==> HighReach(current, dt) <= last + Budget(dt))
      && (last - Budget(dt) > -200.0 ==> LowReach(current, dt) >= last - Budget(dt))
    ensures Abs(current - last) <= Min(0.2, MAX_ACCEL * dt + 0.1) ==> ReseedSafe(current, dt, last)
    ensures dt <= 3.0 ==> (ReseedSafe(current, dt, last) <==> Abs(current - last) <= Min(0.2, MAX_ACCEL * dt + 0.1))
  {
    var u, l := last + Budget(dt), last - Budget(dt);
    hide HighReach, LowReach, RpmInRange, Reseeded, SCurve;
    if u < 1200.0 && HighReach(current, dt) > u {
      var target, accel := HighWitness(current, dt, u);
      ReseedProfile(accel, target, current, dt, last);
    } else if l > -200.0 && LowReach(current, dt) < l {
      var target, accel := LowWitness(current, dt, last);
      ReseedProfile(accel, target, current, dt, last);
    } else {
      forall target, accel | RpmInRange(target) && Abs(accel) <= MAX_ACCEL
        ensures Abs(SCurve(0.0, accel, target, current, dt).2 - last) <= Budget(dt)
      {
        Reach(accel, target, current, dt);
        ReseedProfile(accel, target, current, dt, last);
      }
    }
    CloseEnough(current, dt, last);
  }

  /** The reach as a distance between speeds. */
  lemma CloseEnough(current: real, dt: real, last: real)
    requires Abs(last) <= 0.1 && dt >= 0.0
    ensures var near := Abs(current - last) <= Min(0.2, MAX_ACCEL * dt + 0.1);
      && (near ==> HighReach(current, dt) <= last + Budget(dt) && LowReach(current, dt) >= last - Budget(dt))
      && (dt <= 3.0 ==> last + Budget(dt) < 1200.0 && last - Budget(dt) > -200.0)
      && (dt <= 3.0 && HighReach(current, dt) <= last + Budget(dt) && LowReach(current, dt) >= last - Budget(dt) ==> near)
  {
    if current >= 1200.1 && dt <= 3.0 {
      var a := RampAccel(MAX_ACCEL, -1.0, dt);
      assert a >= 35.0;
      MulMono(dt, 35.0, a);
    }
  }

  /** A re-seeded register stays within the reach. */
  lemma Reach(accel: real, target: real, current: real, dt: real)
    requires RpmInRange(target) && Abs(accel) <= MAX_ACCEL && dt >= 0.0
    ensures LowReach(current, dt) <= Reseeded(accel, target, current, dt) <= HighReach(current, dt)
  {
    if Abs(target - current) >= 0.1 {
      var a := RampAccel(accel, target - current, dt);
      AccelRange(accel, target - current, dt);
      AdvanceOrder(current, -MAX_ACCEL, a, dt);
      AdvanceOrder(current, a, MAX_ACCEL, dt);
      if current >= 1200.1 {
        Slowing(accel, target - current, dt);
        AdvanceOrder(current, a, RampAccel(MAX_ACCEL, -1.0, dt), dt);
      } else {
        assert Advance(current, MAX_ACCEL, dt) == current + MAX_ACCEL * dt;
      }
      assert Advance(current, -MAX_ACCEL, dt) == current - MAX_ACCEL * dt;
      hide RampAccel, Advance;
    }
  }

  lemma AdvanceOrder(x: real, a: real, b: real, dt: real)
    requires a <= b && dt >= 0.0
    ensures Advance(x, a, dt) <= Advance(x, b, dt)
  {
    MulMono(dt, a, b);
  }

  lemma Slowing(accel: real, error: real, dt: real)
    requires error <= 0.0 && Abs(accel) <= MAX_ACCEL
    ensures RampAccel(accel, error, dt) <= RampAccel(MAX_ACCEL, -1.0, dt)
  {
  }

  /** A target and an acceleration that take the register above u. */
  lemma HighWitness(current: real, dt: real, u: real) returns (target: real, accel: real)
    requires dt >= 0.0 && 0.0 <= u < 1200.0 && HighReach(current, dt) > u
    ensures RpmInRange(target) && Abs(accel) <= MAX_ACCEL
    ensures Reseeded(accel, target, current, dt) > u
  {
    target, accel := 1200.0, MAX_ACCEL;
    if current <= 1199.9 && MAX_ACCEL * dt >= 0.1 {
      assert RampAccel(accel, target - current, dt) == MAX_ACCEL;
    } else if current <= 1199.9 {
      target := Max((u + current + 0.1) / 2.0, current);
    }
  }

  /** A target and an acceleration that take the register below the budget. */
  lemma LowWitness(current: real, dt: real, last: real) returns (target: real, accel: real)
    requires Abs(last) <= 0.1 && dt >= 0.0 && last - Budget(dt) > -200.0 && LowReach(current, dt) < last - Budget(dt)
    ensures RpmInRange(target) && Abs(accel) <= MAX_ACCEL
    ensures Reseeded(accel, target, current, dt) < last - Budget(dt)
  {
    target, accel := -200.0, -MAX_ACCEL;
    if current >= -199.9 && MAX_ACCEL * dt >= 0.1 {
      assert RampAccel(accel, target - current, dt) == -MAX_ACCEL;
      assert Advance(current, -MAX_ACCEL, dt) == current - MAX_ACCEL * dt;
    } else if current >= -199.9 {
      target := Min((last - Budget(dt) + current - 0.1) / 2.0, current);
    } else if current <= -200.1 {
      FarBelow(current, target - current, dt, last);
    }
    hide Advance, RampAccel;
  }

  /** From beyond the bottom of the range the register stays below the budget. */
  lemma FarBelow(current: real, error: real, dt: real, last: real)
    requires Abs(last) <= 0.1 && dt >= 0.0 && last - Budget(dt) > -200.0 && current <= -200.1
    ensures Advance(current, RampAccel(-MAX_ACCEL, error, dt), dt) < last - Budget(dt)
  {
    var a, b := RampAccel(-MAX_ACCEL, error, dt), 5.0 * dt - MAX_ACCEL;
    assert a <= b;
    AdvanceOrder(current, a, b, dt);
    MulMono(dt, dt, 4.01);
    assert b * dt == 5.0 * (dt * dt) - MAX_ACCEL * dt;
    assert Advance(current, b, dt) == current + b * dt;
    hide Advance, RampAccel;
  }

  // ---------- Propeller shear protection ----------

  /** Bending moment per unit of yaw rate. */
  function ShearFactor(v: Vessel, omega: real): real
  {
    0.015 * 1025.0 * (omega * omega) * (v.diameter * v.diameter * v.diameter * v.diameter * v.diameter)
  }

  function ShearLimit(v: Vessel): real { v.maxTorque * 0.85 }

  function SafeYawRate(v: Vessel, factor: real, yaw: real, omega: real): real
  {
    if factor * Abs(yaw) > ShearLimit(v) && omega > 0.1 && factor != 0.0 then
      var safe := Abs(ShearLimit(v) / factor);
      if yaw < 0.0 then -safe else safe
    else yaw
  }

  lemma SafeYawRateLaw(v: Vessel, factor: real, yaw: real, omega: real)
    requires v.maxTorque >= 0.0 && factor >= 0.0
    ensures var safe := SafeYawRate(v, factor, yaw, omega);
      && Abs(safe) <= Abs(yaw)
      && (yaw >= 0.0 ==> safe >= 0.0) && (yaw <= 0.0 ==> safe <= 0.0)
      && (factor * Abs(safe) <= ShearLimit(v) <==> omega > 0.1 || factor * Abs(yaw) <= ShearLimit(v))
      && (factor * Abs(yaw) <= ShearLimit(v) ==> safe == yaw)
      && (omega > 0.1 && factor * Abs(yaw) > ShearLimit(v) ==> factor * Abs(safe) == ShearLimit(v))
  {
  }

  /** The protection never enlarges or reverses a request. It keeps the bending moment within
      its limit exactly when the shaft turns ahead faster than 0.1 rad/s or the request was
      within the limit already: running astern there is no protection. */
  lemma ShearProtection(v: Vessel, yaw: real, omega: real)
    requires v.maxTorque >= 0.0 && v.diameter >= 0.0
    ensures var factor := ShearFactor(v, omega);
            var safe := SafeYawRate(v, factor, yaw, omega);
      && Abs(safe) <= Abs(yaw)
      && (yaw >= 0.0 ==> safe >= 0.0) && (yaw <= 0.0 ==> safe <= 0.0)
      && (factor * Abs(safe) <= ShearLimit(v) <==> omega > 0.1 || factor * Abs(yaw) <= ShearLimit(v))
      && (factor * Abs(yaw) <= ShearLimit(v) ==> safe == yaw)
      && (omega > 0.1 && factor * Abs(yaw) > ShearLimit(v) ==> factor * Abs(safe) == ShearLimit(v))
  {
    ShearFactorNonneg(v, omega);
    hide ShearFactor, SafeYawRate, Abs;
    SafeYawRateLaw(v, ShearFactor(v, omega), yaw, omega);
  }

  /** The moment grows with the square of the shaft speed and the fifth power of the diameter,
      from 15.375 for one metre at one radian per second. */
  lemma ShearScales(v: Vessel, omega: real, m: real, k: real)
    ensures ShearFactor(v.(diameter := 1.0), 1.0) == 15.375
    ensures ShearFactor(v, m * omega) == m * m * ShearFactor(v, omega)
    ensures ShearFactor(v.(diameter := k * v.diameter), omega) == k * k * k * k * k * ShearFactor(v, omega)
  {
    var d, a := v.diameter, 0.015 * 1025.0;
    var w, f := omega * omega, d * d * d * d * d;
    SquareScales(m, omega, w);
    FifthScales(k, d, f);
    Regroup(a, m * m, w, f);
    Regroup(a, k * k * k * k * k, w, f);
  }

  lemma SquareScales(m: real, x: real, w: real)
    requires w == x * x
    ensures (m * x) * (m * x) == m * m * w
  {
  }

  lemma FifthScales(k: real, d: real, f: real)
    requires f == d * d * d * d * d
    ensures (k * d) * (k * d) * (k * d) * (k * d) * (k * d) == k * k * k * k * k * f
  {
    var y, k2, d2 := k * d, k * k, d * d;
    SquareScales(k, d, d2);
    assert y * y == k2 * d2;
    SquareScales(k2, d2, d2 * d2);
    assert y * y * y * y == (y * y) * (y * y);
    assert (k2 * d2) * (k2 * d2) == k2 * k2 * (d2 * d2);
    assert y * y * y * y * y == (k2 * k2 * (d2 * d2)) * (k * d);
    assert (k2 * k2 * (d2 * d2)) * (k * d) == (k2 * k2 * k) * (d2 * d2 * d);
  }

  lemma Regroup(a: real, q: real, w: real, f: real)
    ensures a * (q * w) * f == q * (a * w * f) == a * w * (q * f)
  {
  }

  lemma ShearFactorNonneg(v: Vessel, omega: real)
    requires v.diameter >= 0.0
    ensures ShearFactor(v, omega) >= 0.0
  {
    var d := v.diameter;
    var w, d2, d4 := omega * omega, d * d, d * d * d * d;
    N.SqNonneg(omega);
    MulMono(d, 0.0, d);
    N.SqNonneg(d2);
    assert d4 == d2 * d2;
    MulMono(d, 0.0, d4);
    MulMono(w, 0.0, d * d4);
    assert ShearFactor(v, omega) == 0.015 * 1025.0 * (w * (d * d4));
  }

  /** Full astern with the standard vessel, the largest yaw rate the listener accepts passes
      unprotected with more than 25 times the permitted moment; at the same speed ahead it is
      cut back to the limit. */
  lemma AsternUnprotected()
    ensures var v, ahead, astern := Vessel(3.4, 90000.0, 35.0), Omega(200.0), Omega(-200.0);
      && SafeYawRate(v, ShearFactor(v, astern), 0.8, astern) == 0.8
      && ShearFactor(v, astern) * 0.8 > 25.0 * ShearLimit(v)
      && ShearFactor(v, ahead) * SafeYawRate(v, ShearFactor(v, ahead), 0.8, ahead) == ShearLimit(v)
  {
  }

  // ---------- One cycle ----------

  function SafeTargetRpm(c: Cycle): (real, bool)
  {
    // The depth Froude number speed/sqrt(9.81*d) exceeds 0.85.
    var d := if c.depth < 0.5 then 0.5 else c.depth;
    var shallow := c.speed > 0.0 && c.speed * c.speed > 0.85 * 0.85 * (9.81 * d);
    (if shallow && c.targets.rpm > 250.0 then 250.0 else c.targets.rpm, shallow)
  }

  function CurrentRpm(s: State, c: Cycle): real
  {
    if c.rpm.Rpm? then c.rpm.value else s.lastRpm
  }

  function BaseTorque(error: real, integral: real): real
  {
    220.0 * error + 10.0 * integral
  }

  /** Conditional integration: the integrator advances only while the demand is below the
      torque limit. */
  function NextIntegral(v: Vessel, integral: real, error: real, dt: real): real
  {
    if Abs(BaseTorque(error, integral)) < v.maxTorque then Advance(integral, error, dt) else integral
  }

  function SpeedError(s: State, c: Cycle): real
  {
    var (r, a, profiled) := SCurve(s.ramp, s.accel, SafeTargetRpm(c).0, CurrentRpm(s, c), c.dt);
    Omega(profiled) - Omega(CurrentRpm(s, c))
  }

  function RudderCap(v: Vessel, c: Cycle): real { v.maxRudderDeg * c.decay }

  function RudderDemand(v: Vessel, s: State, c: Cycle): real
  {
    var omega := Omega(CurrentRpm(s, c));
    Steering(SafeYawRate(v, ShearFactor(v, omega), c.targets.yawRate, omega), c)
  }

  /** Yaw tracking and roll damping in degrees, with the trims. */
  function Steering(yaw: real, c: Cycle): real
  {
    (1.8 * (yaw - c.yawRate) + -2.5 * c.rollRate) * 180.0 / PI + c.trimDeg + c.coriolisDeg
  }

  function Torque(v: Vessel, error: real, integral: real, c: Cycle): real
  {
    Limit(-v.maxTorque, v.maxTorque, Coordinated(BaseTorque(error, integral), c))
  }

  /** Ventilation scales the demand down; a strong bank force sheds more. */
  function Coordinated(base: real, c: Cycle): real
  {
    var coordinated := base * c.ventilation;
    if c.bankForce > 10000.0 then coordinated - c.bankForce * 0.1 else coordinated
  }

  /** For a ventilation index between 0 and 1 the motor torque never exceeds the demand in
      magnitude and keeps its sign while no bank force is shed, and it rises with the demand;
      shedding never raises it. */
  lemma TorqueLaw(v: Vessel, e: real, i: real, e': real, i': real, c: Cycle, force: real)
    requires v.maxTorque >= 0.0 && 0.0 <= c.ventilation <= 1.0
    requires BaseTorque(e, i) <= BaseTorque(e', i') && force >= c.bankForce
    ensures Torque(v, e, i, c) <= Torque(v, e', i', c)
    ensures Torque(v, e, i, c.(bankForce := force)) <= Torque(v, e, i, c)
    ensures c.bankForce <= 10000.0 ==> Abs(Torque(v, e, i, c)) <= Abs(BaseTorque(e, i))
    ensures c.bankForce <= 10000.0 ==> (BaseTorque(e, i) >= 0.0 ==> Torque(v, e, i, c) >= 0.0) && (BaseTorque(e, i) <= 0.0 ==> Torque(v, e, i, c) <= 0.0)
  {
    hide BaseTorque, Abs;
    CoordinatedLaw(BaseTorque(e, i), BaseTorque(e', i'), c, force);
    hide Coordinated;
    LimitLaw(v.maxTorque, Coordinated(BaseTorque(e, i), c), Coordinated(BaseTorque(e', i'), c));
    LimitLaw(v.maxTorque, Coordinated(BaseTorque(e, i), c.(bankForce := force)), Coordinated(BaseTorque(e, i), c));
    AbsOrder(Torque(v, e, i, c), Coordinated(BaseTorque(e, i), c), BaseTorque(e, i));
  }

  /** The nominal depth of the shaft under water, in metres. */
  const SHAFT_DEPTH: real := 3.5

  /** The ventilation index the engine takes is the lesser of its own forecast's, after any
      readings, and the one reported to it: it is never negative nor above 1, so the torque
      answers for any sea to the law above. */
  lemma TorqueInWaves(v: Vessel, e: real, i: real, c: Cycle, h: seq<real>, readings: seq<real>, sine: real -> real, reported: real)
    requires v.maxTorque >= 0.0 && v.diameter > 0.0 && |h| == W.HISTORY_DEPTH && W.Rises(sine) && reported >= 0.0
    requires c.ventilation == Min(W.IndexAfter(v.diameter, SHAFT_DEPTH, h, readings, sine), reported)
    ensures 0.0 <= c.ventilation <= 1.0
    ensures c.bankForce <= 10000.0 ==> W.SafeTorque(v.maxTorque, BaseTorque(e, i), Torque(v, e, i, c))
  {
    W.WaveTorqueSafe(v.diameter, v.maxTorque, SHAFT_DEPTH, h, readings, BaseTorque(e, i), sine);
    hide BaseTorque, W.Rises, W.IndexAfter;
    TorqueLaw(v, e, i, e, i, c, c.bankForce);
    TorqueBounds(v, e, i, c);
    hide Torque;
  }

  /** x lies between 0 and y. */
  predicate Towards(x: real, y: real)
  {
    0.0 <= x <= y || y <= x <= 0.0
  }

  lemma CoordinatedLaw(b: real, b': real, c: Cycle, force: real)
    requires 0.0 <= c.ventilation <= 1.0 && b <= b' && force >= c.bankForce
    ensures Coordinated(b, c) <= Coordinated(b', c)
    ensures Coordinated(b, c.(bankForce := force)) <= Coordinated(b, c)
    ensures c.bankForce <= 10000.0 ==> Towards(Coordinated(b, c), b)
  {
    hide Coordinated, Towards;
    var x, x' := b * c.ventilation, b' * c.ventilation;
    OrderedProducts(c.ventilation, b, b', x, x');
    ScaledTowards(b, c.ventilation, x);
    CoordinatedFrom(b, c, x);
    CoordinatedFrom(b', c, x');
    CoordinatedFrom(b, c.(bankForce := force), x);
  }

  lemma OrderedProducts(q: real, b: real, b': real, x: real, x': real)
    requires q >= 0.0 && b <= b' && x == b * q && x' == b' * q
    ensures x <= x'
  {
    MulMono(q, b, b');
  }

  lemma CoordinatedFrom(b: real, c: Cycle, x: real)
    requires x == b * c.ventilation
    ensures Coordinated(b, c) == if c.bankForce > 10000.0 then x - c.bankForce * 0.1 else x
  {
  }

  lemma ScaledTowards(b: real, q: real, x: real)
    requires 0.0 <= q <= 1.0 && x == b * q
    ensures Towards(x, b)
  {
    if b >= 0.0 {
      MulMono(b, 0.0, q);
      MulMono(b, q, 1.0);
    } else {
      MulMono(-b, 0.0, q);
      MulMono(-b, q, 1.0);
      assert -b * q == -x;
    }
  }

  lemma LimitLaw(m: real, x: real, y: real)
    requires m >= 0.0 && x <= y
    ensures Limit(-m, m, x) <= Limit(-m, m, y)
    ensures Towards(Limit(-m, m, x), x)
  {
  }

  lemma AbsOrder(t: real, x: real, b: real)
    requires Towards(t, x)
    ensures Towards(x, b) ==> Abs(t) <= Abs(b) && (b >= 0.0 ==> t >= 0.0) && (b <= 0.0 ==> t <= 0.0)
  {
  }

  function Step(v: Vessel, s: State, c: Cycle): (State, Output)
  {
    var current := CurrentRpm(s, c);
    var (target, slowdown) := SafeTargetRpm(c);
    var (ramp, accel, profiled) := SCurve(s.ramp, s.accel, target, current, c.dt);
    var error := SpeedError(s, c);
    var integral := NextIntegral(v, s.integral, error, c.dt);
    var filtered := N.Step(N.Design(c.tangent), s.notch, RudderDemand(v, s, c));
    var rudder := Limit(-RudderCap(v, c), RudderCap(v, c), filtered.y1);
    (State(ramp, accel, integral, current, filtered.(y1 := rudder)),
     Output(Torque(v, error, integral, c), rudder, profiled, slowdown))
  }

  ghost function Run(v: Vessel, cycles: seq<Cycle>): State
    decreases |cycles|
  {
    if cycles == [] then INITIAL
    else
      var n := |cycles| - 1;
      Step(v, Run(v, cycles[..n]), cycles[n]).0
  }

  // ---------- Limits over every run ----------

  predicate Seaworthy(v: Vessel)
  {
    v.maxTorque >= 0.0 && v.maxRudderDeg >= 0.0
  }

  /** Setpoints the command listener accepts, and an exponential of a non-positive number. */
  ghost predicate Admissible(c: Cycle)
  {
    Tcp.Safe(c.targets) && 0.0 < c.decay <= 1.0
  }

  ghost predicate WithinLimits(v: Vessel, s: State)
  {
    && Abs(s.accel) <= MAX_ACCEL
    && Abs(s.notch.y1) <= v.maxRudderDeg
    && Abs(s.notch.y2) <= v.maxRudderDeg
  }

  ghost predicate OutputWithinLimits(v: Vessel, c: Cycle, o: Output)
  {
    && RpmInRange(o.rpmCap)
    && Abs(o.torque) <= v.maxTorque
    && Abs(o.rudderDeg) <= v.maxRudderDeg * c.decay <= v.maxRudderDeg
  }

  lemma StepWithinLimits(v: Vessel, s: State, c: Cycle)
    requires Seaworthy(v) && Admissible(c) && WithinLimits(v, s)
    ensures WithinLimits(v, Step(v, s, c).0)
    ensures OutputWithinLimits(v, c, Step(v, s, c).1)
  {
    hide Omega, ShearFactor, SafeYawRate, N.Design, N.Output, RudderDemand, SCurve, NextIntegral, SpeedError, BaseTorque, Abs, Limit;
    var demand := RudderDemand(v, s, c);
    var y := N.Step(N.Design(c.tangent), s.notch, demand).y1;
    CapBounds(v.maxRudderDeg, c.decay);
    TargetRange(c);
    SCurveRange(s.ramp, s.accel, SafeTargetRpm(c).0, CurrentRpm(s, c), c.dt);
    LimitBounds(RudderCap(v, c), y);
    var error := SpeedError(s, c);
    TorqueBounds(v, error, NextIntegral(v, s.integral, error, c.dt), c);
    hide SafeTargetRpm, Torque;
  }

  lemma TargetRange(c: Cycle)
    requires Tcp.Safe(c.targets)
    ensures RpmInRange(SafeTargetRpm(c).0)
  {
  }

  lemma LimitBounds(m: real, x: real)
    requires m >= 0.0
    ensures Abs(Limit(-m, m, x)) <= m
  {
  }

  lemma TorqueBounds(v: Vessel, error: real, integral: real, c: Cycle)
    requires v.maxTorque >= 0.0
    ensures Abs(Torque(v, error, integral, c)) <= v.maxTorque
  {
  }

  lemma SCurveRange(ramp: real, accel: real, target: real, current: real, dt: real)
    requires RpmInRange(target)
    ensures Abs(SCurve(ramp, accel, target, current, dt).1) <= MAX_ACCEL
    ensures RpmInRange(SCurve(ramp, accel, target, current, dt).2)
  {
  }

  lemma CapBounds(m: real, d: real)
    requires m >= 0.0 && 0.0 < d <= 1.0
    ensures 0.0 <= m * d <= m
  {
  }

  lemma InitialWithinLimits(v: Vessel)
    requires Seaworthy(v)
    ensures WithinLimits(v, INITIAL)
  {
  }

  /** Over every run fed admissible setpoints, acceleration, profiled speed, torque, rudder and
      both stored filter outputs stay within their limits. */
  lemma {:induction false} RunWithinLimits(v: Vessel, cycles: seq<Cycle>)
    requires Seaworthy(v) && forall i :: 0 <= i < |cycles| ==> Admissible(cycles[i])
    ensures WithinLimits(v, Run(v, cycles))
    ensures forall i :: 0 <= i < |cycles| ==> OutputWithinLimits(v, cycles[i], Step(v, Run(v, cycles[..i]), cycles[i]).1)
    decreases |cycles|
  {
    hide Step, OutputWithinLimits, WithinLimits, Admissible;
    if cycles == [] {
      InitialWithinLimits(v);
    } else {
      var n := |cycles| - 1;
      RunWithinLimits(v, cycles[..n]);
      StepWithinLimits(v, Run(v, cycles[..n]), cycles[n]);
      forall i | 0 <= i < |cycles| ensures OutputWithinLimits(v, cycles[i], Step(v, Run(v, cycles[..i]), cycles[i]).1) {
        if i < n {
          assert cycles[..n][..i] == cycles[..i] && cycles[..n][i] == cycles[i];
        }
      }
    }
  }

  /** End to end over whole runs: if every cycle takes its setpoints from the command listener,
      whatever had been received by then and however its replies fared, all limits hold at
      every cycle, and after the watchdog interlock the torque that leaves the ship is zero
      while a ledger stands tripped and within its limit otherwise. */
  lemma FedByListener(v: Vessel, cycles: seq<Cycle>, parse: Tcp.Parser, channel: Tcp.Channel, t0: Tcp.Targets,
                      heard: seq<seq<seq<Utf8.Byte>>>, w: Watchdog.State, events: seq<Watchdog.Event>, c: real, after: seq<Watchdog.Event>)
    requires Seaworthy(v) && Tcp.Safe(t0) && |heard| == |cycles|
    requires forall i :: 0 <= i < |cycles| ==>
      0.0 < cycles[i].decay <= 1.0 && cycles[i].targets == Tcp.Serve(parse, channel, Tcp.Connected(t0), "", heard[i]).targets
    requires Watchdog.Registered(w.register) && Watchdog.NoCheck(after)
    ensures WithinLimits(v, Run(v, cycles))
    ensures forall i :: 0 <= i < |cycles| ==> OutputWithinLimits(v, cycles[i], Step(v, Run(v, cycles[..i]), cycles[i]).1)
    ensures var r := Watchdog.Run(w, events);
            var stalled := exists n :: n in Watchdog.LEDGERS && Watchdog.Trips(r.register[n], c, r.timeout);
            var faulted := Watchdog.Run(w, events + [Watchdog.Check(c)] + after).faulted;
      forall i :: 0 <= i < |cycles| ==>
        var torque := Watchdog.DispatchedTorque(Step(v, Run(v, cycles[..i]), cycles[i]).1.torque, faulted);
        if stalled then torque == 0.0 else Abs(torque) <= v.maxTorque
  {
    hide Step, Tcp.Serve, Watchdog.Run, Watchdog.Trips, Run;
    forall i | 0 <= i < |cycles| ensures Admissible(cycles[i]) {
      Tcp.ServeSafe(parse, channel, Tcp.Connected(t0), "", heard[i]);
    }
    RunWithinLimits(v, cycles);
    forall i | 0 <= i < |cycles|
      ensures var torque := Step(v, Run(v, cycles[..i]), cycles[i]).1.torque;
              var r := Watchdog.Run(w, events);
              var stalled := exists n :: n in Watchdog.LEDGERS && Watchdog.Trips(r.register[n], c, r.timeout);
              Watchdog.DispatchedTorque(torque, Watchdog.Run(w, events + [Watchdog.Check(c)] + after).faulted)
              == if stalled then 0.0 else torque
    {
      Watchdog.InterlockExact(w, events, c, after, Step(v, Run(v, cycles[..i]), cycles[i]).1.torque);
    }
  }

  /** Between consecutive cycles of any run the profiled speed moves by at most
      50*dt + 0.2, unless the ramp register ended the first cycle at exactly zero; then it
      starts afresh from the measured speed. */
  lemma ConsecutiveProfiles(v: Vessel, s: State, c: Cycle, d: Cycle)
    requires Admissible(c) && Admissible(d) && c.dt >= 0.0 && d.dt >= 0.0
    ensures var (s', o) := Step(v, s, c);
            var p := Step(v, s', d).1.rpmCap;
      && (s'.ramp != 0.0 ==> Abs(p - o.rpmCap) <= MAX_ACCEL * d.dt + 0.2)
      && (s'.ramp == 0.0 ==> Abs(p - Limit(-200.0, 1200.0, CurrentRpm(s', d))) <= MAX_ACCEL * d.dt + 0.2)
  {
    hide N.Step, N.Design, Torque, RudderDemand, SpeedError, NextIntegral, RudderCap, SafeTargetRpm, SCurve, Limit, Abs;
    TargetRange(c);
    TargetRange(d);
    var (s', o) := Step(v, s, c);
    var current := CurrentRpm(s', d);
    ProfileNear(s.ramp, s.accel, SafeTargetRpm(c).0, CurrentRpm(s, c), c.dt);
    LimitFacts(current);
    var last := if s'.ramp == 0.0 then Limit(-200.0, 1200.0, current) else o.rpmCap;
    SmoothRamp(s'.ramp, s'.accel, SafeTargetRpm(d).0, current, d.dt, last);
  }

  lemma ProfileNear(ramp: real, accel: real, target: real, current: real, dt: real)
    requires RpmInRange(target)
    ensures var (r, a, p) := SCurve(ramp, accel, target, current, dt); Near(r, p)
  {
  }

  /** When a re-seed breaks the no-step promise: in a cycle that finds its register at exactly
      zero, the profiled speed moves by more than 50*dt + 0.2 exactly when the measured speed,
      one step on, is that far from the last profiled speed and inside the profile's limits.
      It always does when the limited measured speed exceeds twice that and 0.1; it never does
      when the measured speed is within 0.2, and within 50*dt + 0.1, of the last profiled one. */
  lemma ReseedBreaksIff(v: Vessel, s: State, c: Cycle, d: Cycle)
    requires Admissible(c) && Admissible(d) && c.dt >= 0.0 && d.dt >= 0.0
    requires Step(v, s, c).0.ramp == 0.0
    ensures var (s', o) := Step(v, s, c);
            var p := Step(v, s', d).1.rpmCap;
            var current := CurrentRpm(s', d);
            var x := Reseeded(s'.accel, SafeTargetRpm(d).0, current, d.dt);
            var b := Budget(d.dt);
      && (Abs(p - o.rpmCap) > b <==>
           (x > o.rpmCap + b && o.rpmCap + b < 1200.0) || (x < o.rpmCap - b && o.rpmCap - b > -200.0))
      && (Abs(Limit(-200.0, 1200.0, current)) > 2.0 * b + 0.1 ==> Abs(p - o.rpmCap) > b)
      && (Abs(current - o.rpmCap) <= Min(0.2, MAX_ACCEL * d.dt + 0.1) ==> Abs(p - o.rpmCap) <= b)
  {
    hide N.Step, N.Design, Torque, RudderDemand, SpeedError, NextIntegral, RudderCap, SafeTargetRpm, SCurve, Limit, Abs, Reseeded, CurrentRpm;
    TargetRange(c);
    TargetRange(d);
    var (s', o) := Step(v, s, c);
    var current, target := CurrentRpm(s', d), SafeTargetRpm(d).0;
    ConsecutiveProfiles(v, s, c, d);
    ProfileNear(s.ramp, s.accel, SafeTargetRpm(c).0, CurrentRpm(s, c), c.dt);
    NearZero(o.rpmCap);
    StepAccel(v, s, c);
    ReseedProfile(s'.accel, target, current, d.dt, o.rpmCap);
    FarApart(Limit(-200.0, 1200.0, current), Step(v, s', d).1.rpmCap, o.rpmCap, Budget(d.dt));
    ReseedSafeIff(current, d.dt, o.rpmCap);
  }

  lemma NearZero(p: real)
    requires Near(0.0, p)
    ensures Abs(p) <= 0.1
  {
  }

  lemma StepAccel(v: Vessel, s: State, c: Cycle)
    requires Admissible(c)
    ensures Abs(Step(v, s, c).0.accel) <= MAX_ACCEL
  {
    hide N.Step, N.Design, Torque, RudderDemand, SpeedError, NextIntegral, RudderCap, SCurve, Abs;
    TargetRange(c);
    SCurveRange(s.ramp, s.accel, SafeTargetRpm(c).0, CurrentRpm(s, c), c.dt);
  }

  lemma FarApart(u: real, p: real, o: real, b: real)
    requires Abs(p - u) <= b && Abs(o) <= 0.1
    ensures Abs(u) > 2.0 * b + 0.1 ==> Abs(p - o) > b
  {
  }

  /** A cycle in open deep water, on an even keel. */
  function QuietCycle(target: real, rpm: real, dt: real): Cycle
  {
    Cycle(Tcp.Targets(target, 0.0), Rpm(rpm), 0.0, 50.0, 0.0, 0.0, 1.0, 0.0, 0.0, 0.0, 1.0, 0.0, dt)
  }

  /** The first two cycles of a run: at rest with a zero order, then 1000 rpm ordered while the
      shaft is found turning at 500. The profiled speed jumps by 500 rpm in a tenth of a second. */
  lemma ReseedJump(v: Vessel)
    ensures var c, d := QuietCycle(0.0, 0.0, 0.1), QuietCycle(1000.0, 500.0, 0.1);
            var (s, o) := Step(v, INITIAL, c);
      && Run(v, [c]) == s && Admissible(c) && Admissible(d)
      && o.rpmCap == 0.0 && Step(v, s, d).1.rpmCap >= 500.0
  {
    hide N.Step, N.Design, Torque, RudderDemand, SpeedError, NextIntegral, RudderCap;
    var c := QuietCycle(0.0, 0.0, 0.1);
    assert [c][..0] == [];
    assert Run(v, []) == INITIAL;
  }

  // ---------- The rudder in steady conditions ----------

  /** The state after n cycles of an endless sequence. */
  ghost function Course(v: Vessel, s: State, cycles: nat -> Cycle, n: nat): State
  {
    if n == 0 then s else Step(v, Course(v, s, cycles, n - 1), cycles(n - 1)).0
  }

  /** The engine's filter is the clamped filter. */
  lemma FilterStep(v: Vessel, s: State, c: Cycle)
    ensures Step(v, s, c).0.notch == Clamped.ClampedStep(N.Design(c.tangent), -RudderCap(v, c), RudderCap(v, c), s.notch, RudderDemand(v, s, c))
  {
    hide N.Design, N.Output, RudderDemand, RudderCap, Torque, SpeedError, NextIntegral, SCurve, SafeTargetRpm, Limit;
  }

  /** In cycle n the steering asks for r degrees, with this cap and tangent. */
  ghost predicate SteadyAt(v: Vessel, s: State, cycles: nat -> Cycle, r: real, cap: real, t: real, n: nat)
  {
    RudderDemand(v, Course(v, s, cycles, n), cycles(n)) == r && RudderCap(v, cycles(n)) == cap && cycles(n).tangent == t
  }

  lemma {:induction false} CourseFilter(v: Vessel, s: State, cycles: nat -> Cycle, r: real, cap: real, t: real, n: nat)
    requires forall i: nat :: i < n ==> SteadyAt(v, s, cycles, r, cap, t, i)
    ensures Course(v, s, cycles, n).notch == Clamped.ClampedRun(N.Design(t), -cap, cap, s.notch, N.Constant(r), n)
  {
    if n > 0 {
      CourseFilter(v, s, cycles, r, cap, t, n - 1);
      assert SteadyAt(v, s, cycles, r, cap, t, n - 1);
      FilterStep(v, Course(v, s, cycles, n - 1), cycles(n - 1));
      hide Step, Clamped.ClampedStep, N.Design, RudderDemand, RudderCap;
    }
  }

  /** The commanded rudder converges: from any state, if from now on the steering demand is r
      degrees and the cap is constant, the rudder comes and stays within any eps > 0 of the
      demand limited to the cap, although every clamped output is written back. */
  lemma RudderTracks(v: Vessel, s: State, cycles: nat -> Cycle, r: real, cap: real, t: real, eps: real) returns (start: nat)
    requires forall n: nat :: SteadyAt(v, s, cycles, r, cap, t, n)
    requires t > 0.0 && cap >= 0.0 && eps > 0.0
    ensures forall n: nat :: n >= start ==> Abs(Step(v, Course(v, s, cycles, n), cycles(n)).1.rudderDeg - Limit(-cap, cap, r)) < eps
  {
    start := Clamped.ClampedTracks(t, cap, s.notch, r, eps);
    forall n: nat | n >= start ensures Abs(Step(v, Course(v, s, cycles, n), cycles(n)).1.rudderDeg - Limit(-cap, cap, r)) < eps {
      CourseFilter(v, s, cycles, r, cap, t, n + 1);
      RudderIsStored(v, Course(v, s, cycles, n), cycles(n));
      hide Step, Course, Clamped.ClampedRun, Limit;
      assert Clamped.RudderAfter(t, cap, s.notch, r, n + 1) == Course(v, s, cycles, n + 1).notch.y1;
    }
  }

  lemma RudderIsStored(v: Vessel, s: State, c: Cycle)
    ensures Step(v, s, c).1.rudderDeg == Step(v, s, c).0.notch.y1
  {
  }

  // ---------- A cap that changes from cycle to cycle ----------

  /** A cycle in which the steering asks for nothing, whatever the state. */
  ghost predicate Neutral(v: Vessel, c: Cycle)
  {
    forall s: State :: RudderDemand(v, s, c) == 0.0
  }

  /** The cycles from the k-th on. */
  ghost function From(cycles: nat -> Cycle, k: nat): nat -> Cycle
  {
    (i: nat) => cycles(k + i)
  }

  ghost function Caps(v: Vessel, cycles: nat -> Cycle): nat -> real
  {
    (i: nat) => RudderCap(v, cycles(i))
  }

  /** Under neutral steering no cycle but perhaps the first gains rudder energy, from whatever
      cycle and state the engine starts with drained filter inputs. */
  ghost predicate RudderKeepsEnergy(v: Vessel, cycles: nat -> Cycle, t: real)
  {
    forall k: nat, s: State, n: nat :: N.Drained(s.notch) && n >= 1 ==>
      N.Energy(N.Design(t), Course(v, s, From(cycles, k), n + 1).notch) <= N.Energy(N.Design(t), Course(v, s, From(cycles, k), n).notch)
  }

  lemma {:induction false} NeutralCourse(v: Vessel, s: State, cycles: nat -> Cycle, k: nat, t: real, n: nat)
    requires forall i: nat :: Neutral(v, cycles(i)) && cycles(i).tangent == t
    ensures Course(v, s, From(cycles, k), n).notch == Clamped.CapRun(N.Design(t), Caps(v, cycles), k, s.notch, n)
  {
    if n > 0 {
      NeutralCourse(v, s, cycles, k, t, n - 1);
      NeutralStep(v, Course(v, s, From(cycles, k), n - 1), cycles(k + n - 1));
      hide Clamped.ClampedStep, Step, Neutral, RudderCap;
      assert From(cycles, k)(n - 1) == cycles(k + n - 1);
      assert Caps(v, cycles)(k + n - 1) == RudderCap(v, cycles(k + n - 1));
    }
  }

  lemma NeutralStep(v: Vessel, s: State, c: Cycle)
    requires Neutral(v, c)
    ensures Step(v, s, c).0.notch == Clamped.ClampedStep(N.Design(c.tangent), -RudderCap(v, c), RudderCap(v, c), s.notch, 0.0)
  {
    assert RudderDemand(v, s, c) == 0.0;
    FilterStep(v, s, c);
  }

  /** The rudder's energy falls under neutral steering exactly when no cap falls short of
      |1 - t^2|/(1 + t^2) of the cap of the cycle before: the cap shrinks with the shaft speed,
      and shrinking faster feeds energy into the filter. */
  lemma RudderEnergyIff(v: Vessel, cycles: nat -> Cycle, t: real)
    requires t > 0.0 && forall i: nat :: RudderCap(v, cycles(i)) >= 0.0
    requires forall i: nat :: Neutral(v, cycles(i)) && cycles(i).tangent == t
    ensures RudderKeepsEnergy(v, cycles, t) <==> Clamped.ShrinkSlowly(Abs(1.0 - N.Sq(t)), 1.0 + N.Sq(t), Caps(v, cycles))
  {
    hide N.Design, N.Energy, N.Sq, N.Drained, Clamped.ShrinkSlowly, Clamped.CapRun, Course, Neutral, RudderCap;
    var c, caps := N.Design(t), Caps(v, cycles);
    assert forall i: nat :: caps(i) == RudderCap(v, cycles(i));
    Clamped.DesignedCapsIff(t, caps);
    forall k: nat, s: State, n: nat ensures Course(v, s, From(cycles, k), n).notch == Clamped.CapRun(c, caps, k, s.notch, n) {
      NeutralCourse(v, s, cycles, k, t, n);
    }
    if RudderKeepsEnergy(v, cycles, t) {
      forall k: nat, q: N.Registers, n: nat | N.Drained(q) && n >= 1
        ensures N.Energy(c, Clamped.CapRun(c, caps, k, q, n + 1)) <= N.Energy(c, Clamped.CapRun(c, caps, k, q, n))
      {
        var s := INITIAL.(notch := q);
        assert N.Energy(c, Course(v, s, From(cycles, k), n + 1).notch) <= N.Energy(c, Course(v, s, From(cycles, k), n).notch);
      }
    }
  }

  const STANDARD: Vessel := Vessel(3.4, 90000.0, 35.0)

  /** A cycle of the 50 Hz loop at sea, with the given setpoint and measured yaw rate. */
  function TurnCycle(yaw: real, measured: real, rpm: real, decay: real): Cycle
  {
    Cycle(Tcp.Targets(0.0, yaw), Rpm(rpm), 0.0, 50.0, measured, 0.0, 1.0, 0.0, 0.0, 0.0, decay, 0.0082, 0.02)
  }

  /** Hard over against the present swing, with the shaft stopped. */
  const SWING: Cycle := TurnCycle(0.8, -0.8, 0.0, 1.0)

  const STEADY: Cycle := TurnCycle(0.0, 0.0, 0.0, 1.0)

  lemma SwingDemand(s: State)
    ensures RudderDemand(STANDARD, s, SWING) >= 160.0
  {
    var omega := Omega(CurrentRpm(s, SWING));
    assert omega == 0.0;
    assert SafeYawRate(STANDARD, ShearFactor(STANDARD, omega), 0.8, omega) == 0.8;
    hide ShearFactor, SafeYawRate, Omega;
    assert Steering(0.8, SWING) >= 160.0;
    hide Steering;
  }

  lemma SteadyIsNeutral(rpm: real, decay: real)
    ensures Neutral(STANDARD, TurnCycle(0.0, 0.0, rpm, decay))
  {
    var c := TurnCycle(0.0, 0.0, rpm, decay);
    forall s: State ensures RudderDemand(STANDARD, s, c) == 0.0 {
      var omega := Omega(CurrentRpm(s, c));
      HarmlessPasses(STANDARD, ShearFactor(STANDARD, omega), omega);
      assert Steering(0.0, c) == 0.0;
      hide ShearFactor, SafeYawRate, Steering, Omega;
    }
  }

  lemma HarmlessPasses(v: Vessel, factor: real, omega: real)
    requires v.maxTorque >= 0.0
    ensures SafeYawRate(v, factor, 0.0, omega) == 0.0
  {
  }

  lemma RunNone(v: Vessel)
    ensures Run(v, []) == INITIAL
  {
  }

  lemma RunOn(v: Vessel, cycles: seq<Cycle>, c: Cycle)
    ensures Run(v, cycles + [c]) == Step(v, Run(v, cycles), c).0
  {
    assert (cycles + [c])[..|cycles|] == cycles;
    hide Step;
  }

  lemma SteadyOn(cycles: seq<Cycle>, rpm: real, decay: real)
    ensures Run(STANDARD, cycles + [TurnCycle(0.0, 0.0, rpm, decay)]).notch
         == Clamped.ClampedStep(N.Design(0.0082), -(35.0 * decay), 35.0 * decay, Run(STANDARD, cycles).notch, 0.0)
  {
    hide Run, Step, Clamped.ClampedStep, Neutral, N.Design;
    RunOn(STANDARD, cycles, TurnCycle(0.0, 0.0, rpm, decay));
    SteadyIsNeutral(rpm, decay);
    NeutralStep(STANDARD, Run(STANDARD, cycles), TurnCycle(0.0, 0.0, rpm, decay));
  }

  lemma SwingFirst() returns (u: real)
    ensures u >= 160.0
    ensures Run(STANDARD, [SWING]).notch == Clamped.ClampedStep(N.Design(0.0082), -35.0, 35.0, N.Registers(0.0, 0.0, 0.0, 0.0), u)
  {
    hide Run, Step, Clamped.ClampedStep, N.Design, RudderDemand;
    RunNone(STANDARD);
    RunOn(STANDARD, [], SWING);
    assert [] + [SWING] == [SWING];
    FilterStep(STANDARD, INITIAL, SWING);
    SwingDemand(INITIAL);
    u := RudderDemand(STANDARD, INITIAL, SWING);
  }

  /** A run of the engine in which the shrinking cap feeds energy in: after one swing and
      three steady cycles the shaft starts, and any cap of up to 34.98 degrees leaves more
      energy in the drained filter, under neutral steering, than it had. */
  lemma FedByShrinkingCap(rpm: real, decay: real)
    requires 0.0 < decay <= 34.98 / 35.0
    ensures var last := TurnCycle(0.0, 0.0, rpm, decay);
            var s, s' := Run(STANDARD, [SWING, STEADY, STEADY, STEADY]), Run(STANDARD, [SWING, STEADY, STEADY, STEADY, last]);
      && Admissible(SWING) && Admissible(STEADY) && Admissible(last)
      && N.Drained(s.notch)
      && N.Energy(N.Design(0.0082), s'.notch) > N.Energy(N.Design(0.0082), s.notch)
  {
    hide Run, Clamped.ClampedStep, N.Design, N.Energy;
    var last := TurnCycle(0.0, 0.0, rpm, decay);
    var u := SwingFirst();
    SteadyOn([SWING], 0.0, 1.0);
    assert [SWING] + [STEADY] == [SWING, STEADY];
    SteadyOn([SWING, STEADY], 0.0, 1.0);
    assert [SWING, STEADY] + [STEADY] == [SWING, STEADY, STEADY];
    SteadyOn([SWING, STEADY, STEADY], 0.0, 1.0);
    assert [SWING, STEADY, STEADY] + [STEADY] == [SWING, STEADY, STEADY, STEADY];
    SteadyOn([SWING, STEADY, STEADY, STEADY], rpm, decay);
    assert [SWING, STEADY, STEADY, STEADY] + [last] == [SWING, STEADY, STEADY, STEADY, last];
    var s := Clamped.ShrinkingCap(u, 35.0 * decay);
  }

  // ---------- Anti-windup ----------

  lemma IntegralStep(v: Vessel, integral: real, error: real, dt: real, e: real, h: real)
    requires v.maxTorque >= 0.0 && Abs(error) <= e && 0.0 < dt <= h
    requires Abs(integral) <= (v.maxTorque + 220.0 * e) / 10.0 + e * h
    ensures Abs(NextIntegral(v, integral, error, dt)) <= (v.maxTorque + 220.0 * e) / 10.0 + e * h
  {
    var x, m := error * dt, e * h;
    ErrorTravel(error, dt, e, h, x, m);
    assert NextIntegral(v, integral, error, dt) == if Abs(BaseTorque(error, integral)) < v.maxTorque then integral + x else integral;
    IntegralAlgebra(v, integral, error, x, e, m);
  }

  lemma IntegralAlgebra(v: Vessel, integral: real, error: real, x: real, e: real, m: real)
    requires Abs(error) <= e && Abs(x) <= m
    requires Abs(integral) <= (v.maxTorque + 220.0 * e) / 10.0 + m
    ensures Abs(if Abs(BaseTorque(error, integral)) < v.maxTorque then integral + x else integral) <= (v.maxTorque + 220.0 * e) / 10.0 + m
  {
  }

  lemma ErrorTravel(error: real, dt: real, e: real, h: real, x: real, m: real)
    requires Abs(error) <= e && 0.0 < dt <= h && x == error * dt && m == e * h
    ensures Abs(x) <= m
  {
  }

  /** Anti-windup: while the speed error is at most e and cycles last at most h, the stored
      integral stays within (maxTorque + 220e)/10 + e*h in every reachable state. */
  lemma {:induction false} IntegralBounded(v: Vessel, cycles: seq<Cycle>, e: real, h: real)
    requires v.maxTorque >= 0.0 && e >= 0.0 && h > 0.0
    requires forall i :: 0 <= i < |cycles| ==>
      Abs(SpeedError(Run(v, cycles[..i]), cycles[i])) <= e && 0.0 < cycles[i].dt <= h
    ensures Abs(Run(v, cycles).integral) <= (v.maxTorque + 220.0 * e) / 10.0 + e * h
    decreases |cycles|
  {
    if cycles == [] {
      assert e * h >= 0.0;
    } else {
      var n := |cycles| - 1;
      hide SpeedError, NextIntegral;
      forall i | 0 <= i < n
        ensures Abs(SpeedError(Run(v, cycles[..n][..i]), cycles[..n][i])) <= e && 0.0 < cycles[..n][i].dt <= h
      {
        assert cycles[..n][..i] == cycles[..i];
      }
      IntegralBounded(v, cycles[..n], e, h);
      var s := Run(v, cycles[..n]);
      IntegralStep(v, s.integral, SpeedError(s, cycles[n]), cycles[n].dt, e, h);
    }
  }

  // ---------- The engine object ----------

  class UnivacReplacementBridgeEngine {
    const vessel: Vessel
    var notchX1: real
    var notchX2: real
    var notchY1: real
    var notchY2: real
    var integralSpeedError: real
    var currentAccel: real
    var currentRampRpm: real
    var currentRpmState: real

    function Current(): State
      reads this
    {
      State(currentRampRpm, currentAccel, integralSpeedError, currentRpmState,
            N.Registers(notchX1, notchX2, notchY1, notchY2))
    }

    constructor (vessel: Vessel)
      ensures this.vessel == vessel && Current() == INITIAL
    {
      this.vessel := vessel;
      notchX1, notchX2, notchY1, notchY2 := 0.0, 0.0, 0.0, 0.0;
      integralSpeedError, currentAccel, currentRampRpm, currentRpmState := 0.0, 0.0, 0.0, 0.0;
    }

    method ExecuteSCurveProfile(target: real, current: real, dt: real) returns (profiled: real)
      modifies `currentRampRpm, `currentAccel
      ensures (currentRampRpm, currentAccel, profiled) == SCurve(old(currentRampRpm), old(currentAccel), target, current, dt)
    {
      hide RampAccel, Limit, Abs, Advance;
      if currentRampRpm == 0.0 {
        currentRampRpm := current;
      }
      var error := target - currentRampRpm;
      if Abs(error) < 0.1 {
        currentAccel := 0.0;
        return target;
      }
      currentAccel := RampAccel(currentAccel, error, dt);
      currentRampRpm := Advance(currentRampRpm, currentAccel, dt);
      profiled := Limit(-200.0, 1200.0, currentRampRpm);
    }

    method ExecuteNotchFilter(rudder: real, tangent: real) returns (filtered: real)
      modifies `notchX1, `notchX2, `notchY1, `notchY2
      ensures N.Registers(notchX1, notchX2, notchY1, notchY2)
           == N.Step(N.Design(tangent), old(N.Registers(notchX1, notchX2, notchY1, notchY2)), rudder)
      ensures filtered == notchY1
    {
      hide N.Design, N.Output;
      var c := N.Design(tangent);
      filtered := N.Output(c, N.Registers(notchX1, notchX2, notchY1, notchY2), rudder);
      notchX2 := notchX1;
      notchX1 := rudder;
      notchY2 := notchY1;
      notchY1 := filtered;
    }

    /** One control cycle, against the step function of the run theorems. */
    method ExecuteBridgeLoop(c: Cycle) returns (o: Output)
      modifies this
      ensures (Current(), o) == Step(vessel, old(Current()), c)
    {
      hide N.Design, N.Output, ShearFactor, SafeYawRate, SCurve, Limit, Omega, Abs, SafeTargetRpm, Advance, BaseTorque, Coordinated, Steering, RudderCap;
      var current := if c.rpm.Rpm? then c.rpm.value else currentRpmState;
      var omega := Omega(current);
      var (target, slowdown) := SafeTargetRpm(c);
      var profiled := ExecuteSCurveProfile(target, current, c.dt);
      var error := Omega(profiled) - omega;
      var base := BaseTorque(error, integralSpeedError);
      if Abs(base) < vessel.maxTorque {
        integralSpeedError := Advance(integralSpeedError, error, c.dt);
        base := BaseTorque(error, integralSpeedError);
      }
      var torque := Limit(-vessel.maxTorque, vessel.maxTorque, Coordinated(base, c));
      var yaw := SafeYawRate(vessel, ShearFactor(vessel, omega), c.targets.yawRate, omega);
      var filtered := ExecuteNotchFilter(Steering(yaw, c), c.tangent);
      var cap := RudderCap(vessel, c);
      var rudder := Limit(-cap, cap, filtered);
      notchY1 := rudder;
      currentRpmState := current;
      o := Output(torque, rudder, profiled, slowdown);
    }
  }
}
