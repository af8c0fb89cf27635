/** The second-order steering notch filter shared by
    src/hydrodynamics/wave_matrix_processor.py and src/control_core/bridge_execution_engine.py,
    over exact reals. The pre-warped coefficient tan(w*dt/2) is the parameter t. */
module NotchFilter {
  import opened Common

  const ZETA1 := 0.05
  const ZETA2 := 0.70

  /** The four state registers. */
  datatype Registers = Registers(x1: real, x2: real, y1: real, y2: real)

  /** Numerator and denominator coefficients, already divided by a0. */
  datatype Coefficients = Coefficients(n0: real, n1: real, n2: real, d1: real, d2: real)

  function A0(t: real): (a: real)
    ensures a > 0.0
  {
    assert 1.0 + 1.4 * t + t * t == (t + 0.7) * (t + 0.7) + 0.51;
    1.0 + (2.0 * ZETA2 * t) + t * t
  }

  function Design(t: real): Coefficients
  {
    Coefficients(
      (1.0 + (2.0 * ZETA1 * t) + t * t) / A0(t),
      (2.0 * (t * t) - 2.0) / A0(t),
      (1.0 - (2.0 * ZETA1 * t) + t * t) / A0(t),
      (2.0 * (t * t) - 2.0) / A0(t),
      (1.0 - (2.0 * ZETA2 * t) + t * t) / A0(t))
  }

  /** Direct form I difference equation. */
  function Output(c: Coefficients, s: Registers, u: real): real
  {
    c.n0 * u + c.n1 * s.x1 + c.n2 * s.x2 - c.d1 * s.y1 - c.d2 * s.y2
  }

  function Step(c: Coefficients, s: Registers, u: real): Registers
  {
    Registers(u, s.x1, Output(c, s, u), s.y1)
  }

  /** The state after the first n commands of u. */
  ghost function Run(c: Coefficients, s: Registers, u: nat -> real, n: nat): Registers
  {
    if n == 0 then s else Step(c, Run(c, s, u, n - 1), u(n - 1))
  }

  function Zero(): nat -> real { (n: nat) => 0.0 }

  function Constant(v: real): nat -> real { (n: nat) => v }

  function Shift(u: nat -> real, k: nat): nat -> real { (n: nat) => u(n + k) }

  // ---------- Linearity ----------

  /** a*s + b*r, register by register. */
  function Mix(a: real, s: Registers, b: real, r: Registers): Registers
  {
    Registers(a * s.x1 + b * r.x1, a * s.x2 + b * r.x2, a * s.y1 + b * r.y1, a * s.y2 + b * r.y2)
  }

  function MixInput(a: real, u: nat -> real, b: real, v: nat -> real): nat -> real
  {
    (n: nat) => a * u(n) + b * v(n)
  }

  lemma Distribute(k: real, a: real, x: real, b: real, y: real)
    ensures k * (a * x + b * y) == a * (k * x) + b * (k * y)
  {
  }

  lemma StepLinear(c: Coefficients, a: real, s: Registers, u: real, b: real, r: Registers, v: real)
    ensures Step(c, Mix(a, s, b, r), a * u + b * v) == Mix(a, Step(c, s, u), b, Step(c, r, v))
  {
    Distribute(c.n0, a, u, b, v);
    Distribute(c.n1, a, s.x1, b, r.x1);
    Distribute(c.n2, a, s.x2, b, r.x2);
    Distribute(c.d1, a, s.y1, b, r.y1);
    Distribute(c.d2, a, s.y2, b, r.y2);
    DistributeFive(a, c.n0 * u, c.n1 * s.x1, c.n2 * s.x2, c.d1 * s.y1, c.d2 * s.y2);
    DistributeFive(b, c.n0 * v, c.n1 * r.x1, c.n2 * r.x2, c.d1 * r.y1, c.d2 * r.y2);
  }

  lemma DistributeFive(a: real, p: real, q: real, r: real, s: real, t: real)
    ensures a * (p + q + r - s - t) == a * p + a * q + a * r - a * s - a * t
  {
  }

  /** Superposition over whole runs: the run of a weighted sum of states and command
      sequences is the weighted sum of the runs, in every register. */
  lemma {:induction false} RunLinear(c: Coefficients, a: real, s: Registers, u: nat -> real,
                                     b: real, r: Registers, v: nat -> real, n: nat)
    ensures Run(c, Mix(a, s, b, r), MixInput(a, u, b, v), n) == Mix(a, Run(c, s, u, n), b, Run(c, r, v, n))
  {
    if n > 0 {
      RunLinear(c, a, s, u, b, r, v, n - 1);
      StepLinear(c, a, Run(c, s, u, n - 1), u(n - 1), b, Run(c, r, v, n - 1), v(n - 1));
    }
  }

  /** A run is one run followed by another. */
  lemma {:induction false} RunSplit(c: Coefficients, s: Registers, u: nat -> real, k: nat, n: nat)
    ensures Run(c, s, u, k + n) == Run(c, Run(c, s, u, k), Shift(u, k), n)
  {
    if n > 0 {
      RunSplit(c, s, u, k, n - 1);
    }
  }

  // ---------- Energy of the free response ----------

  predicate Drained(s: Registers)
  {
    s.x1 == 0.0 && s.x2 == 0.0
  }

  function Energy(c: Coefficients, s: Registers): real
  {
    (1.0 + c.d2) * (s.y1 * s.y1 + s.y2 * s.y2) + 2.0 * c.d1 * (s.y1 * s.y2)
  }

  /** The stability triangle of a second-order recurrence. */
  predicate Stable(c: Coefficients)
  {
    Abs(c.d1) < 1.0 + c.d2 && c.d2 < 1.0
  }

  function Sq(x: real): real { x * x }

  lemma SqNonneg(x: real)
    ensures Sq(x) >= 0.0
  {
  }

  lemma FreeStep(c: Coefficients, s: Registers)
    requires Drained(s)
    ensures Drained(Step(c, s, 0.0))
    ensures Step(c, s, 0.0).y1 == -c.d1 * s.y1 - c.d2 * s.y2
    ensures Step(c, s, 0.0).y2 == s.y1
  {
  }

  /** One free step changes the energy by exactly -(1-d2)*(y[n]-y[n-2])^2. */
  lemma EnergyStep(c: Coefficients, s: Registers)
    requires Drained(s)
    ensures Energy(c, Step(c, s, 0.0)) == Energy(c, s) - (1.0 - c.d2) * Sq(Step(c, s, 0.0).y1 - s.y2)
  {
  }

  /** Sum over the first n free outputs of (y[k]-y[k-2])^2. */
  ghost function Dissipated(c: Coefficients, s: Registers, n: nat): (d: real)
    ensures d >= 0.0
  {
    if n == 0 then 0.0
    else
      SqNonneg(Run(c, s, Zero(), n).y1 - Run(c, s, Zero(), n - 1).y2);
      Dissipated(c, s, n - 1) + Sq(Run(c, s, Zero(), n).y1 - Run(c, s, Zero(), n - 1).y2)
  }

  /** Energy balance of a whole free run: what is left plus what was dissipated is what
      there was at the start. */
  lemma {:induction false} EnergyBalance(c: Coefficients, s: Registers, n: nat)
    requires Drained(s)
    ensures Drained(Run(c, s, Zero(), n))
    ensures Energy(c, Run(c, s, Zero(), n)) + (1.0 - c.d2) * Dissipated(c, s, n) == Energy(c, s)
  {
    hide Energy, Step, Sq, Run, Dissipated, Drained;
    FreeRunUnfold(c, s, n);
    if n > 0 {
      EnergyBalance(c, s, n - 1);
      var r, g, d := Run(c, s, Zero(), n - 1), 1.0 - c.d2, Dissipated(c, s, n - 1);
      FreeStep(c, r);
      EnergyStep(c, r);
      Expand(g, d, Sq(Step(c, r, 0.0).y1 - r.y2));
    }
  }

  lemma FreeRunUnfold(c: Coefficients, s: Registers, n: nat)
    ensures n == 0 ==> Run(c, s, Zero(), n) == s && Dissipated(c, s, n) == 0.0
    ensures n > 0 ==>
      var r := Run(c, s, Zero(), n - 1);
      && Run(c, s, Zero(), n) == Step(c, r, 0.0)
      && Dissipated(c, s, n) == Dissipated(c, s, n - 1) + Sq(Step(c, r, 0.0).y1 - r.y2)
  {
  }

  lemma Expand(g: real, d: real, e: real)
    ensures g * (d + e) == g * d + g * e
  {
  }

  function Amplitude(s: Registers): (a: real)
    ensures a >= 0.0
  {
    SqNonneg(s.y1);
    SqNonneg(s.y2);
    Sq(s.y1) + Sq(s.y2)
  }

  /** Lower and upper factor between the squared output amplitude and the energy. */
  function Margin(c: Coefficients): real { 1.0 + c.d2 - Abs(c.d1) }

  function Spread(c: Coefficients): real { 1.0 + c.d2 + Abs(c.d1) }

  /** The energy is squeezed between two multiples of the squared output amplitude; under
      Stable the lower one is positive, so the energy is positive definite. */
  lemma EnergyBounds(c: Coefficients, s: Registers)
    ensures Margin(c) * Amplitude(s) <= Energy(c, s)
    ensures Energy(c, s) <= Spread(c) * Amplitude(s)
  {
    var y, z, a := s.y1, s.y2, Amplitude(s);
    var w := 2.0 * (y * z);
    SqNonneg(y + z);
    SqNonneg(y - z);
    assert Sq(y + z) == a + w;
    assert Sq(y - z) == a - w;
    assert 2.0 * c.d1 * (y * z) == c.d1 * w;
    AbsProduct(c.d1, w, a);
    assert (1.0 + c.d2 - Abs(c.d1)) * a == (1.0 + c.d2) * a - Abs(c.d1) * a;
    assert (1.0 + c.d2 + Abs(c.d1)) * a == (1.0 + c.d2) * a + Abs(c.d1) * a;
  }

  lemma AbsProduct(d: real, w: real, a: real)
    requires -a <= w <= a
    ensures -(Abs(d) * a) <= d * w <= Abs(d) * a
  {
  }

  /** Every later output of a free run is bounded by the initial energy, and so is the
      total of the squared two-step differences. */
  lemma FreeRunBounds(c: Coefficients, s: Registers, n: nat)
    requires Stable(c) && Drained(s)
    ensures 0.0 <= Energy(c, Run(c, s, Zero(), n)) <= Energy(c, s)
    ensures Sq(Run(c, s, Zero(), n).y1) <= Energy(c, s) / Margin(c)
    ensures Dissipated(c, s, n) <= Energy(c, s) / (1.0 - c.d2)
  {
    var r, d := Run(c, s, Zero(), n), Dissipated(c, s, n);
    hide Energy, Run, Dissipated, Drained;
    SqNonneg(r.y1);
    SqNonneg(r.y2);
    EnergyBalance(c, s, n);
    EnergyBounds(c, r);
    BalanceBounds(Margin(c), 1.0 - c.d2, Sq(r.y1), Amplitude(r), Energy(c, r), d, Energy(c, s));
  }

  /** From m*a <= e, e + g*d == v and x <= a: the bounds on e, x and d. */
  lemma BalanceBounds(m: real, g: real, x: real, a: real, e: real, d: real, v: real)
    requires m > 0.0 && g > 0.0 && 0.0 <= x <= a && d >= 0.0
    requires m * a <= e && e + g * d == v
    ensures 0.0 <= e <= v && x <= v / m && d <= v / g
  {
  }

  lemma CancelFactor(w: real, x: real, y: real, p: real, q: real)
    requires w > 0.0 && p == w * x && q == w * y && p <= q
    ensures x <= y
  {
  }

  // ---------- Asymptotic stability ----------

  /** Determinant of the map from (y[n-1], y[n-2]) to two consecutive two-step differences. */
  function Det(c: Coefficients): real
  {
    Sq(1.0 + c.d2) - Sq(c.d1)
  }

  /** The entries of that map besides -d1 and -(1+d2). */
  function EntryK(c: Coefficients): real { c.d1 * c.d1 - 1.0 - c.d2 }

  function EntryH(c: Coefficients): real { c.d1 * c.d2 }

  function Frobenius(c: Coefficients): real
  {
    Sq(c.d1) + Sq(1.0 + c.d2) + Sq(EntryK(c)) + Sq(EntryH(c))
  }

  lemma DetPositive(c: Coefficients)
    requires Stable(c)
    ensures Det(c) > 0.0 && Frobenius(c) > 0.0
  {
    hide Sq, EntryK, EntryH;
    var b, d := 1.0 + c.d2, c.d1;
    SquareDifference(b, d);
    PositiveProduct(b - d, b + d, Sq(b) - Sq(d));
    SqPositive(b);
    assert Det(c) == Sq(b) - Sq(d);
    SqNonneg(c.d1);
    SqNonneg(EntryK(c));
    SqNonneg(EntryH(c));
  }

  lemma SquareDifference(b: real, d: real)
    ensures Sq(b) - Sq(d) == (b - d) * (b + d)
  {
  }

  lemma SqPositive(x: real)
    requires x != 0.0
    ensures Sq(x) > 0.0
  {
    if x > 0.0 {
      PositiveProduct(x, x, Sq(x));
    } else {
      PositiveProduct(-x, -x, Sq(x));
    }
  }

  lemma Cauchy(a: real, b: real, x: real, y: real, f: real)
    requires f == a * x + b * y
    ensures Sq(f) <= (Sq(a) + Sq(b)) * (Sq(x) + Sq(y))
  {
    var p, q, r, s := a * x, b * y, a * y, b * x;
    assert p * q == r * s;
    SqScale(a, x);
    SqScale(b, y);
    SqScale(a, y);
    SqScale(b, x);
    assert Sq(p + q) == Sq(p) + 2.0 * (p * q) + Sq(q);
    assert Sq(r - s) == Sq(r) - 2.0 * (r * s) + Sq(s);
    assert f == p + q;
    hide Sq;
    SqNonneg(r - s);
    FourProducts(Sq(a), Sq(b), Sq(x), Sq(y));
  }

  lemma FourProducts(a: real, b: real, x: real, y: real)
    ensures (a + b) * (x + y) == a * x + b * y + a * y + b * x
  {
  }

  /** Two consecutive differences cannot both be small unless the outputs are. */
  lemma TwoStepDissipation(c: Coefficients, s: Registers)
    requires Drained(s)
    ensures Sq(Det(c)) * Amplitude(s) <= Frobenius(c) * Dissipated(c, s, 2)
  {
    hide Dissipated, Run, Sq, EntryK, EntryH;
    var y1, y2, k, h := s.y1, s.y2, EntryK(c), EntryH(c);
    var p, q := -c.d1 * y1 + -(1.0 + c.d2) * y2, k * y1 + h * y2;
    TwoDifferences(c, s, p, q);
    assert -c.d1 * h - -(1.0 + c.d2) * k == -Det(c) by { DetExpansion(c); }
    InverseBound(-c.d1, -(1.0 + c.d2), k, h, y1, y2, p, q, -Det(c));
    SqEven(c.d1);
    SqEven(1.0 + c.d2);
    SqEven(Det(c));
  }

  lemma DetExpansion(c: Coefficients)
    ensures -c.d1 * EntryH(c) - -(1.0 + c.d2) * EntryK(c) == -Det(c)
  {
  }

  lemma SqEven(x: real)
    ensures Sq(-x) == Sq(x)
  {
  }

  /** The first two two-step differences of a free run, from the two output registers. */
  lemma TwoDifferences(c: Coefficients, s: Registers, p: real, q: real)
    requires Drained(s)
    requires p == -c.d1 * s.y1 + -(1.0 + c.d2) * s.y2
    requires q == EntryK(c) * s.y1 + EntryH(c) * s.y2
    ensures Dissipated(c, s, 2) == Sq(p) + Sq(q)
  {
    hide *;
    var r := Step(c, s, 0.0);
    var y, z := r.y1, Step(c, r, 0.0).y1;
    FreeStep(c, s);
    FreeStep(c, r);
    FirstTwo(c, s);
    DifferenceForms(c, s.y1, s.y2, y, z, p, q);
  }

  lemma FirstTwo(c: Coefficients, s: Registers)
    requires Drained(s)
    ensures var r := Step(c, s, 0.0);
            Dissipated(c, s, 2) == Sq(r.y1 - s.y2) + Sq(Step(c, r, 0.0).y1 - s.y1)
  {
    hide Output, Sq;
    var r := Step(c, s, 0.0);
    FreeRunUnfold(c, s, 0);
    FreeRunUnfold(c, s, 1);
    FreeRunUnfold(c, s, 2);
    assert Dissipated(c, s, 1) == Sq(r.y1 - s.y2);
  }

  lemma DifferenceForms(c: Coefficients, y1: real, y2: real, y: real, z: real, p: real, q: real)
    requires y == -c.d1 * y1 - c.d2 * y2 && z == -c.d1 * y - c.d2 * y1
    requires p == -c.d1 * y1 + -(1.0 + c.d2) * y2
    requires q == EntryK(c) * y1 + EntryH(c) * y2
    ensures y - y2 == p && z - y1 == q
    ensures Sq(y - y2) == Sq(p) && Sq(z - y1) == Sq(q)
  {
    assert -c.d1 * y == (c.d1 * c.d1) * y1 + (c.d1 * c.d2) * y2;
  }

  lemma SqScale(a: real, x: real)
    ensures Sq(a * x) == Sq(a) * Sq(x)
  {
  }

  /** For an invertible 2x2 map (y, z) -> (p, q): det^2 * |(y, z)|^2 <= |map|^2 * |(p, q)|^2. */
  lemma InverseBound(a: real, b: real, c: real, d: real, y: real, z: real, p: real, q: real, det: real)
    requires p == a * y + b * z && q == c * y + d * z && det == a * d - b * c
    ensures Sq(det) * (Sq(y) + Sq(z)) <= (Sq(a) + Sq(b) + Sq(c) + Sq(d)) * (Sq(p) + Sq(q))
  {
    hide Sq;
    Eliminate(a, b, c, d, y, z, p, q, det);
    var e := Sq(p) + Sq(q);
    assert Sq(det) * Sq(y) <= (Sq(d) + Sq(b)) * e by {
      Cauchy(d, -b, p, q, det * y);
      SqEven(b);
      SqScale(det, y);
    }
    assert Sq(det) * Sq(z) <= (Sq(c) + Sq(a)) * e by {
      Cauchy(-c, a, p, q, det * z);
      SqEven(c);
      SqScale(det, z);
    }
    SplitSum(Sq(d), Sq(b), Sq(c), Sq(a), e);
    Expand(Sq(det), Sq(y), Sq(z));
  }

  lemma SplitSum(a: real, b: real, c: real, d: real, e: real)
    ensures (a + b) * e + (c + d) * e == (d + b + c + a) * e
  {
  }

  /** Cramer's rule. */
  lemma Eliminate(a: real, b: real, c: real, d: real, y: real, z: real, p: real, q: real, det: real)
    requires p == a * y + b * z && q == c * y + d * z && det == a * d - b * c
    ensures d * p + -b * q == det * y
    ensures -c * p + a * q == det * z
  {
  }

  /** Fraction of its energy that a free run loses at least, every two steps. */
  function Rate(c: Coefficients): real
    requires Frobenius(c) * Spread(c) != 0.0
  {
    (1.0 - c.d2) * Sq(Det(c)) / (Frobenius(c) * Spread(c))
  }

  lemma RatePositive(c: Coefficients)
    requires Stable(c)
    ensures Frobenius(c) * Spread(c) > 0.0
    ensures Rate(c) > 0.0
  {
    hide Det, Frobenius, Sq;
    DetPositive(c);
    SqPositive(Det(c));
    var x, w := (1.0 - c.d2) * Sq(Det(c)), Frobenius(c) * Spread(c);
    PositiveProduct(1.0 - c.d2, Sq(Det(c)), x);
    PositiveProduct(Frobenius(c), Spread(c), w);
    PositiveQuotient(x, w);
  }

  lemma PositiveQuotient(x: real, w: real)
    requires x > 0.0 && w > 0.0
    ensures x / w > 0.0
  {
  }

  /** Geometric decay of a free run. */
  lemma TwoStepDecay(c: Coefficients, s: Registers)
    requires Stable(c) && Drained(s) && Frobenius(c) * Spread(c) > 0.0
    ensures Energy(c, Run(c, s, Zero(), 2)) <= Energy(c, s) - Rate(c) * Energy(c, s)
  {
    hide Det, Frobenius, Sq, Run, Dissipated, Energy, Drained, Amplitude;
    DetPositive(c);
    EnergyBalance(c, s, 2);
    EnergyBounds(c, s);
    TwoStepDissipation(c, s);
    SqPositive(Det(c));
    var d := Dissipated(c, s, 2);
    DecayAlgebra(1.0 - c.d2, Sq(Det(c)), Frobenius(c), Spread(c), Amplitude(s), Energy(c, s), d);
    assert Rate(c) * Energy(c, s) <= (1.0 - c.d2) * d;
  }

  lemma DecayAlgebra(g: real, h: real, f: real, m: real, a: real, v: real, d: real)
    requires g > 0.0 && h > 0.0 && f > 0.0 && m > 0.0 && f * m > 0.0
    requires v <= m * a && h * a <= f * d
    ensures g * h / (f * m) * v <= g * d
  {
  }

  lemma {:induction false} RunExtensional(c: Coefficients, s: Registers, u: nat -> real, v: nat -> real, n: nat)
    requires forall i: nat :: i < n ==> u(i) == v(i)
    ensures Run(c, s, u, n) == Run(c, s, v, n)
  {
    if n > 0 {
      RunExtensional(c, s, u, v, n - 1);
    }
  }

  lemma FreeSplit(c: Coefficients, s: Registers, k: nat, n: nat)
    ensures Run(c, s, Zero(), k + n) == Run(c, Run(c, s, Zero(), k), Zero(), n)
  {
  }

  /** Above any level v the energy falls by at least Rate*v every two steps. */
  lemma {:induction false} EnergyDescent(c: Coefficients, s: Registers, v: real, k: nat)
    requires Stable(c) && Drained(s) && v > 0.0 && Frobenius(c) * Spread(c) > 0.0
    ensures var e := Energy(c, Run(c, s, Zero(), 2 * k));
            e <= v || e <= Energy(c, s) - k as real * (Rate(c) * v)
  {
    if k > 0 {
      hide Energy, Rate;
      EnergyDescent(c, s, v, k - 1);
      var r := Run(c, s, Zero(), 2 * (k - 1));
      EnergyBalance(c, s, 2 * (k - 1));
      FreeSplit(c, s, 2 * (k - 1), 2);
      hide Run;
      TwoStepDecay(c, r);
      RatePositive(c);
      FreeRunBounds(c, r, 2);
      var e := Energy(c, r);
      if e > v {
        MulMono(Rate(c), v, e);
      }
      assert k as real * (Rate(c) * v) == (k - 1) as real * (Rate(c) * v) + Rate(c) * v;
    }
  }

  /** An energy level below which every output is below eps/2. */
  function Level(c: Coefficients, eps: real): real { Margin(c) * (Sq(eps) / 4.0) }

  lemma LevelPositive(c: Coefficients, eps: real)
    requires Stable(c) && eps > 0.0
    ensures Level(c, eps) > 0.0
  {
    hide Sq;
    SqPositive(eps);
    PositiveProduct(Margin(c), Sq(eps) / 4.0, Level(c, eps));
  }

  /** Some number of steps of length d covers the distance a. */
  lemma Archimedes(a: real, d: real) returns (k: nat)
    requires a >= 0.0 && d > 0.0
    ensures k as real * d > a
  {
    var q := a / d;
    assert q * d == a;
    if q < 0.0 {
      PositiveProduct(-q, d, -q * d);
    }
    k := q.Floor + 1;
    var r := k as real - q;
    PositiveProduct(r, d, r * d);
    assert r * d == k as real * d - q * d;
  }

  /** The energy of a free run falls below any positive level. */
  lemma EnergyFallsBelow(c: Coefficients, s: Registers, v: real) returns (k: nat)
    requires Stable(c) && Drained(s) && v > 0.0
    ensures Energy(c, Run(c, s, Zero(), 2 * k)) <= v
  {
    hide Energy, Run, Rate;
    RatePositive(c);
    PositiveProduct(Rate(c), v, Rate(c) * v);
    FreeRunBounds(c, s, 0);
    k := Archimedes(Energy(c, s), Rate(c) * v);
    EnergyDescent(c, s, v, k);
    FreeRunBounds(c, s, 2 * k);
  }

  /** Asymptotic stability: with the command at zero the output comes and stays within any
      eps > 0 of zero. */
  lemma FreeRunSettles(c: Coefficients, s: Registers, eps: real) returns (start: nat)
    requires Stable(c) && Drained(s) && eps > 0.0
    ensures forall n: nat :: n >= start ==> Abs(Run(c, s, Zero(), n).y1) < eps
  {
    hide Energy, Run, Rate, Sq, Level, Drained, Dissipated;
    LevelPositive(c, eps);
    var k := EnergyFallsBelow(c, s, Level(c, eps));
    start := 2 * k;
    var r := Run(c, s, Zero(), start);
    EnergyBalance(c, s, start);
    forall n: nat | n >= start ensures Abs(Run(c, s, Zero(), n).y1) < eps {
      FreeSplit(c, s, start, n - start);
      FreeRunBounds(c, r, n - start);
      SmallSquare(c, Run(c, s, Zero(), n).y1, Energy(c, r), eps);
    }
  }

  lemma SmallSquare(c: Coefficients, y: real, e: real, eps: real)
    requires Stable(c) && eps > 0.0 && e <= Level(c, eps) && Sq(y) <= e / Margin(c)
    ensures Abs(y) < eps
  {
    var m := Margin(c);
    var q := e / m;
    assert m * q == e;
    SqPositive(eps);
    var x := Sq(eps) / 4.0;
    CancelFactor(m, q, x, e, Level(c, eps));
    var a := Abs(y);
    assert Sq(y) == Sq(a);
    if a >= eps {
      SquareOrder(eps, a);
    }
  }

  lemma SquareOrder(x: real, y: real)
    requires 0.0 <= x <= y
    ensures Sq(x) <= Sq(y)
  {
  }

  // ---------- Runs under the same commands forget their starting states ----------

  /** The register-wise difference of two states. */
  function Difference(s: Registers, r: Registers): Registers
  {
    Mix(1.0, s, -1.0, r)
  }

  lemma DifferenceRuns(c: Coefficients, s: Registers, r: Registers, u: nat -> real, n: nat)
    ensures Run(c, Difference(s, r), Zero(), n) == Difference(Run(c, s, u, n), Run(c, r, u, n))
  {
    RunLinear(c, 1.0, s, u, -1.0, r, u, n);
    RunExtensional(c, Difference(s, r), MixInput(1.0, u, -1.0, u), Zero(), n);
  }

  /** Fading memory: under one command sequence, whatever it is, the outputs from any two
      starting states come and stay within any eps > 0 of each other. */
  lemma FadingMemory(c: Coefficients, s: Registers, r: Registers, u: nat -> real, eps: real) returns (start: nat)
    requires Stable(c) && eps > 0.0
    ensures forall n: nat :: n >= start ==> Abs(Run(c, s, u, n).y1 - Run(c, r, u, n).y1) < eps
  {
    var d := Run(c, Difference(s, r), Zero(), 2);
    assert Drained(d) by {
      assert d == Step(c, Step(c, Run(c, Difference(s, r), Zero(), 0), 0.0), 0.0) by {
        assert d == Step(c, Run(c, Difference(s, r), Zero(), 1), 0.0);
      }
    }
    var k := FreeRunSettles(c, d, eps);
    start := 2 + k;
    forall n: nat | n >= start ensures Abs(Run(c, s, u, n).y1 - Run(c, r, u, n).y1) < eps {
      hide Run;
      FreeSplit(c, Difference(s, r), 2, n - 2);
      DifferenceRuns(c, s, r, u, n);
    }
  }

  // ---------- The notch design ----------

  /** A sinusoid sampled at the notch frequency: t is the tangent of half the angle between
      samples, so twice the cosine of the angle is 2(1-t^2)/(1+t^2). */
  ghost predicate Wave(t: real, u: nat -> real)
  {
    forall n: nat :: (1.0 + t * t) * (u(n + 2) + u(n)) == 2.0 * (1.0 - t * t) * u(n + 1)
  }

  lemma Normalised(t: real)
    ensures var c, a := Design(t), A0(t);
      && a * c.n0 == 1.0 + 0.1 * t + t * t
      && a * c.n1 == 2.0 * (t * t) - 2.0
      && a * c.n2 == 1.0 - 0.1 * t + t * t
      && a * c.d1 == 2.0 * (t * t) - 2.0
      && a * c.d2 == 1.0 - 1.4 * t + t * t
      && a == 1.0 + 1.4 * t + t * t
  {
  }

  /** The design is in the stability triangle exactly for positive t. */
  lemma StableIffPositive(t: real)
    ensures Stable(Design(t)) <==> t > 0.0
    ensures 1.0 + Design(t).d2 - Abs(Design(t).d1) > 0.0 <==> t != 0.0
  {
    Normalised(t);
    var c, a := Design(t), A0(t);
    hide Design, A0;
    assert a * (1.0 + c.d2 + c.d1) == 4.0 * Sq(t);
    assert a * (1.0 + c.d2 - c.d1) == 4.0;
    assert a * (1.0 - c.d2) == 2.8 * t;
    if t != 0.0 {
      SqPositive(t);
    }
    SignOf(a, 1.0 + c.d2 + c.d1, 4.0 * Sq(t));
    SignOf(a, 1.0 + c.d2 - c.d1, 4.0);
    SignOf(a, 1.0 - c.d2, 2.8 * t);
  }

  lemma SignOf(a: real, x: real, p: real)
    requires a > 0.0 && a * x == p
    ensures p > 0.0 <==> x > 0.0
    ensures p < 0.0 <==> x < 0.0
  {
  }

  ghost predicate NeverGrows(c: Coefficients)
  {
    forall s: Registers :: Drained(s) ==> Energy(c, Step(c, s, 0.0)) <= Energy(c, s)
  }

  /** The energy of a drained filter never grows exactly when t >= 0; a sampling interval
      so long that the tangent is negative makes the filter gain energy. */
  lemma NeverGrowsIff(t: real)
    ensures NeverGrows(Design(t)) <==> t >= 0.0
  {
    Normalised(t);
    var c, a := Design(t), A0(t);
    hide Design, A0, Step, Energy;
    assert a * (1.0 - c.d2) == 2.8 * t;
    SignOf(a, 1.0 - c.d2, 2.8 * t);
    if t >= 0.0 {
      assert 1.0 - c.d2 >= 0.0;
      forall s: Registers | Drained(s) ensures Energy(c, Step(c, s, 0.0)) <= Energy(c, s) {
        EnergyStep(c, s);
        SqNonneg(Step(c, s, 0.0).y1 - s.y2);
        MulMono(1.0 - c.d2, 0.0, Sq(Step(c, s, 0.0).y1 - s.y2));
      }
    } else {
      var s := Registers(0.0, 0.0, 0.0, 1.0);
      var w := Step(c, s, 0.0).y1 - s.y2;
      FreeStep(c, s);
      EnergyStep(c, s);
      assert a * (1.0 + c.d2) == 2.0 + 2.0 * Sq(t);
      SqNonneg(t);
      SignOf(a, 1.0 + c.d2, 2.0 + 2.0 * Sq(t));
      assert w == -(1.0 + c.d2);
      SqPositive(w);
      PositiveProduct(c.d2 - 1.0, Sq(w), (c.d2 - 1.0) * Sq(w));
      assert Energy(c, Step(c, s, 0.0)) > Energy(c, s);
    }
  }

  /** A filter full of a constant, fed the constant, keeps giving the constant. */
  lemma {:induction false} UnitGain(t: real, v: real, n: nat)
    ensures Run(Design(t), Registers(v, v, v, v), Constant(v), n) == Registers(v, v, v, v)
  {
    if n > 0 {
      hide Design, Output;
      UnitGain(t, v, n - 1);
      ConstantOutput(t, v);
    }
  }

  lemma ConstantOutput(t: real, v: real)
    ensures Output(Design(t), Registers(v, v, v, v), v) == v
  {
  }

  /** DC tracking: from any state, under a constant command the output converges to it. */
  lemma TracksConstant(t: real, s: Registers, v: real, eps: real) returns (start: nat)
    requires t > 0.0 && eps > 0.0
    ensures forall n: nat :: n >= start ==> Abs(Run(Design(t), s, Constant(v), n).y1 - v) < eps
  {
    StableIffPositive(t);
    hide Design, Run;
    var r := Registers(v, v, v, v);
    start := FadingMemory(Design(t), s, r, Constant(v), eps);
    forall n: nat | n >= start ensures Abs(Run(Design(t), s, Constant(v), n).y1 - v) < eps {
      UnitGain(t, v, n);
    }
  }

  /** The error of a run under a constant command is a free run. */
  lemma ErrorIsFree(t: real, s: Registers, v: real, n: nat)
    ensures var r := Registers(v, v, v, v);
            Run(Design(t), Difference(s, r), Zero(), n) == Difference(Run(Design(t), s, Constant(v), n), r)
  {
    hide Design, Run;
    DifferenceRuns(Design(t), s, Registers(v, v, v, v), Constant(v), n);
    UnitGain(t, v, n);
  }

  /** Once a constant command has filled the input registers, the energy of the output
      error only falls. */
  lemma ErrorEnergyFalls(t: real, s: Registers, v: real, m: nat, n: nat)
    requires t >= 0.0 && s.x1 == v && s.x2 == v && m <= n
    ensures var c, r := Design(t), Registers(v, v, v, v);
            Energy(c, Difference(Run(c, s, Constant(v), n), r)) <= Energy(c, Difference(Run(c, s, Constant(v), m), r))
  {
    var c, d := Design(t), Difference(s, Registers(v, v, v, v));
    assert Drained(d);
    hide Design, Run, Energy, Dissipated, Difference;
    ErrorIsFree(t, s, v, m);
    ErrorIsFree(t, s, v, n);
    EnergyMonotone(t, d, m, n);
  }

  lemma EnergyMonotone(t: real, d: Registers, m: nat, n: nat)
    requires t >= 0.0 && Drained(d) && m <= n
    ensures Energy(Design(t), Run(Design(t), d, Zero(), n)) <= Energy(Design(t), Run(Design(t), d, Zero(), m))
  {
    var c := Design(t);
    Normalised(t);
    hide Design, A0, Run, Energy, Dissipated;
    assert A0(t) * (1.0 - c.d2) == 2.8 * t;
    SignOf(A0(t), 1.0 - c.d2, 2.8 * t);
    EnergyBalance(c, d, m);
    FreeSplit(c, d, m, n - m);
    var e := Run(c, d, Zero(), m);
    EnergyBalance(c, e, n - m);
    MulMono(1.0 - c.d2, 0.0, Dissipated(c, e, n - m));
  }

  /** The filter state after a wave sample, if the filter had always seen the wave. */
  function WaveState(u: nat -> real, n: nat): Registers
  {
    Registers(u(n + 1), u(n), u(n + 1) / 14.0, u(n) / 14.0)
  }

  /** In the steady state the output is the wave divided by ZETA2/ZETA1 = 14. */
  lemma {:induction false} WaveGain(t: real, u: nat -> real, n: nat)
    requires Wave(t, u)
    ensures Run(Design(t), WaveState(u, 0), Shift(u, 2), n) == WaveState(u, n)
  {
    if n > 0 {
      WaveGain(t, u, n - 1);
      WaveStep(t, u, n - 1);
      hide Step, Design, Wave;
    }
  }

  lemma WaveStep(t: real, u: nat -> real, n: nat)
    requires Wave(t, u)
    ensures Step(Design(t), WaveState(u, n), u(n + 2)) == WaveState(u, n + 1)
  {
  }

  /** Wave rejection: from any state, under a wave at the notch frequency the output
      converges to one fourteenth of the wave. */
  lemma RejectsWave(t: real, s: Registers, u: nat -> real, eps: real) returns (start: nat)
    requires t > 0.0 && eps > 0.0 && Wave(t, u)
    ensures start >= 2 && forall n: nat :: n >= start ==> Abs(Run(Design(t), s, u, n).y1 - u(n - 1) / 14.0) < eps
  {
    StableIffPositive(t);
    hide Design, Run;
    var r := Run(Design(t), s, u, 2);
    var k := FadingMemory(Design(t), r, WaveState(u, 0), Shift(u, 2), eps);
    start := k + 2;
    forall n: nat | n >= start ensures Abs(Run(Design(t), s, u, n).y1 - u(n - 1) / 14.0) < eps {
      RunSplit(Design(t), s, u, 2, n - 2);
      WaveGain(t, u, n - 2);
    }
  }
}
