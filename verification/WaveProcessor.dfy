/** The wave feature pipeline 40-43: src/hydrodynamics/wave_matrix_processor.py. The sine of
    the ventilation profile is a function parameter; the notch filter's theory is in module
    NotchFilter. */
module WaveProcessor {
  import opened Common
  import N = NotchFilter

  const HISTORY_DEPTH: nat := 5

  /** The autoregressive forecast from the five latest readings, oldest first. */
  function Forecast(h: seq<real>): real
    requires |h| == HISTORY_DEPTH
  {
    0.842 * h[0] + -0.441 * h[1] + 0.198 * h[2] + -0.048 * h[3] + 0.009 * h[4]
  }

  function Push(h: seq<real>, x: real): seq<real>
    requires |h| > 0
  {
    h[1..] + [x]
  }

  function PushAll(h: seq<real>, xs: seq<real>): (r: seq<real>)
    requires |h| > 0
    ensures |r| == |h|
    decreases |xs|
  {
    if xs == [] then h else Push(PushAll(h, xs[..|xs| - 1]), xs[|xs| - 1])
  }

  /** The buffer after any readings is the tail of the old buffer followed by them. */
  lemma {:induction false} BufferIsTail(h: seq<real>, xs: seq<real>)
    requires |h| > 0
    ensures PushAll(h, xs) == (h + xs)[|xs|..]
    decreases |xs|
  {
    if xs == [] {
      assert (h + xs)[0..] == h;
    } else {
      var n := |xs| - 1;
      BufferIsTail(h, xs[..n]);
      assert h + xs == h + xs[..n] + [xs[n]];
    }
  }

  /** Finite memory: after five readings the forecast depends on them alone. */
  lemma ForecastForgets(h: seq<real>, h': seq<real>, before: seq<real>, last: seq<real>)
    requires |h| == |h'| == |last| == HISTORY_DEPTH
    ensures Forecast(PushAll(h, before + last)) == Forecast(PushAll(h', last)) == Forecast(last)
  {
    hide Forecast, PushAll;
    BufferForgets(h, before, last);
    BufferForgets(h', [], last);
    assert [] + last == last;
  }

  lemma BufferForgets(h: seq<real>, before: seq<real>, last: seq<real>)
    requires |h| == |last| > 0
    ensures PushAll(h, before + last) == last
  {
    hide PushAll;
    BufferIsTail(h, before + last);
    assert h + (before + last) == (h + before) + last;
    assert ((h + before) + last)[|h + before|..] == last;
  }

  /** Readings bounded by m give forecasts bounded by 1.538*m, and the bound is reached. */
  lemma ForecastBound(h: seq<real>, m: real)
    requires |h| == HISTORY_DEPTH && forall i :: 0 <= i < HISTORY_DEPTH ==> Abs(h[i]) <= m
    ensures Abs(Forecast(h)) <= 1.538 * m
    ensures Forecast([m, -m, m, -m, m]) == 1.538 * m
  {
  }

  /** Every reading counts by its age alone, the oldest of the five most and the newest least:
      after rest, a single reading of x gives these forecasts as it ages, and then none. */
  lemma ForecastByAge(x: real)
    ensures var h := [0.0, 0.0, 0.0, 0.0, 0.0];
      && Forecast(PushAll(h, [x])) == 0.009 * x
      && Forecast(PushAll(h, [x, 0.0])) == -0.048 * x
      && Forecast(PushAll(h, [x, 0.0, 0.0])) == 0.198 * x
      && Forecast(PushAll(h, [x, 0.0, 0.0, 0.0])) == -0.441 * x
      && Forecast(PushAll(h, [x, 0.0, 0.0, 0.0, 0.0])) == 0.842 * x
      && Forecast(PushAll(h, [x, 0.0, 0.0, 0.0, 0.0, 0.0])) == 0.0
  {
    var h := [0.0, 0.0, 0.0, 0.0, 0.0];
    BufferIsTail(h, [x]);
    BufferIsTail(h, [x, 0.0]);
    BufferIsTail(h, [x, 0.0, 0.0]);
    BufferIsTail(h, [x, 0.0, 0.0, 0.0]);
    BufferIsTail(h, [x, 0.0, 0.0, 0.0, 0.0]);
    BufferIsTail(h, [x, 0.0, 0.0, 0.0, 0.0, 0.0]);
    hide PushAll;
  }

  function Combined(a: real, h: seq<real>, b: real, g: seq<real>): seq<real>
    requires |h| == |g| == HISTORY_DEPTH
  {
    seq(HISTORY_DEPTH, i requires 0 <= i < HISTORY_DEPTH => a * h[i] + b * g[i])
  }

  /** The forecasts of seas that are added up are added up. */
  lemma ForecastLinear(a: real, h: seq<real>, b: real, g: seq<real>)
    requires |h| == |g| == HISTORY_DEPTH
    ensures |Combined(a, h, b, g)| == HISTORY_DEPTH
    ensures Forecast(Combined(a, h, b, g)) == a * Forecast(h) + b * Forecast(g)
  {
    var c := Combined(a, h, b, g);
    assert c[0] == a * h[0] + b * g[0] && c[1] == a * h[1] + b * g[1] && c[2] == a * h[2] + b * g[2];
    assert c[3] == a * h[3] + b * g[3] && c[4] == a * h[4] + b * g[4];
    Weighted(a, h[0], h[1], h[2], h[3], h[4]);
    Weighted(b, g[0], g[1], g[2], g[3], g[4]);
  }

  lemma Weighted(a: real, p: real, q: real, r: real, s: real, t: real)
    ensures a * (0.842 * p + -0.441 * q + 0.198 * r + -0.048 * s + 0.009 * t)
         == 0.842 * (a * p) + -0.441 * (a * q) + 0.198 * (a * r) + -0.048 * (a * s) + 0.009 * (a * t)
  {
  }

  const HALF_PI: real := 3.141592653589793 / 2.0

  /** Feature 41: the ventilation index at a submergence. */
  function Ventilation(diameter: real, submergence: real, sine: real -> real): real
    requires diameter > 0.0
  {
    if submergence >= diameter then 1.0
    else if submergence <= 0.0 then 0.05
    else N.Sq(sine(HALF_PI * (submergence / diameter)))
  }

  /** The sum of the first two terms of the sine series. */
  function Cubic(x: real): real
  {
    x - x * N.Sq(x) / 6.0
  }

  /** On a quarter turn the sine rises strictly from 0 to 1. */
  ghost predicate Rises(sine: real -> real)
  {
    sine(0.0) == 0.0 && sine(HALF_PI) == 1.0 && forall x, y :: 0.0 <= x < y <= HALF_PI ==> sine(x) < sine(y)
  }

  /** What the arguments need of the sine on a quarter turn: it rises from 0 to 1, and lies
      between the first two sums of its series. */
  ghost predicate SineLike(sine: real -> real)
  {
    Rises(sine) && forall x :: 0.0 <= x <= HALF_PI ==> Cubic(x) <= sine(x) <= x
  }

  /** Such functions exist: here is one that can be computed. */
  function ModelSine(x: real): real
  {
    Min(x, 1.0 - (HALF_PI - x) / 5.0)
  }

  lemma ModelSineIsSineLike()
    ensures SineLike((x: real) => ModelSine(x))
  {
    var sine := (x: real) => ModelSine(x);
    forall x, y | 0.0 <= x < y <= HALF_PI ensures sine(x) < sine(y) {
    }
    forall x | 0.0 <= x <= HALF_PI ensures Cubic(x) <= sine(x) <= x {
      AboveCubic(x);
    }
  }

  lemma AboveCubic(x: real)
    requires 0.0 <= x <= HALF_PI
    ensures Cubic(x) <= ModelSine(x) <= x
  {
    var q := N.Sq(x);
    var c := x * q;
    N.SqNonneg(x);
    MulMono(x, 0.0, q);
    var a := 1.265;
    var d := N.Sq(x - a);
    N.SqNonneg(x - a);
    MulMono(x + 2.0 * a, 0.0, d);
    assert (x + 2.0 * a) * d == c - 3.0 * a * a * x + 2.0 * a * a * a;
    hide N.Sq;
  }

  /** The angle at which the squared sine reaches the documented floor. */
  ghost predicate FloorAngle(sine: real -> real, angle: real)
  {
    0.0 < angle < HALF_PI && N.Sq(sine(angle)) == 0.05
  }

  /** The documented floor of 0.05 is kept at a submergence exactly when the propeller is
      fully exposed or at least angle / HALF_PI of its diameter is under water. In the band
      between, a partly immersed propeller is rated worse than a fully exposed one. */
  lemma VentilationFloorIff(diameter: real, s: real, sine: real -> real, angle: real)
    requires diameter > 0.0 && Rises(sine) && FloorAngle(sine, angle)
    ensures Ventilation(diameter, s, sine) >= 0.05 <==> s <= 0.0 || HALF_PI * s >= angle * diameter
  {
    hide Rises, N.Sq;
    if 0.0 < s < diameter {
      var r := s / diameter;
      FractionInside(s, diameter);
      assert r * diameter == s;
      SameOrder(angle, HALF_PI * r, diameter, angle * diameter, HALF_PI * s);
      SquaredSineRises(sine, HALF_PI * r, angle);
      SquaredSineRises(sine, angle, HALF_PI * r);
    } else if s >= diameter {
      SameOrder(angle, HALF_PI, diameter, angle * diameter, HALF_PI * diameter);
    }
  }

  lemma SameOrder(a: real, b: real, k: real, x: real, y: real)
    requires k > 0.0 && x == a * k && y == b * k
    ensures a <= b <==> x <= y
    ensures a < b <==> x < y
  {
    N.SignOf(k, b - a, y - x);
  }

  lemma SineSign(sine: real -> real, x: real)
    requires Rises(sine) && 0.0 < x <= HALF_PI
    ensures sine(x) > 0.0
  {
    assert sine(0.0) < sine(x);
  }

  lemma SquaredSineRises(sine: real -> real, x: real, y: real)
    requires Rises(sine) && 0.0 < x <= HALF_PI && 0.0 < y <= HALF_PI
    ensures x < y ==> N.Sq(sine(x)) < N.Sq(sine(y))
    ensures x == y ==> N.Sq(sine(x)) == N.Sq(sine(y))
  {
    if x < y {
      var a, b := sine(x), sine(y);
      SineSign(sine, x);
      SquareRises(a, b);
    }
  }

  lemma SquareRises(a: real, b: real)
    requires 0.0 < a < b
    ensures N.Sq(a) < N.Sq(b)
  {
    PositiveProduct(b - a, b + a, (b - a) * (b + a));
    N.SquareDifference(b, a);
  }

  /** Where the band ends: between 14.2 and 14.4 per cent of the diameter. */
  lemma FloorAngleLocated(sine: real -> real, angle: real)
    requires SineLike(sine) && FloorAngle(sine, angle)
    ensures 0.142 < angle / HALF_PI < 0.144
  {
    var lo, hi := 0.142 * HALF_PI, 0.144 * HALF_PI;
    SineSign(sine, lo);
    SineSign(sine, hi);
    N.SquareOrder(sine(lo), lo);
    N.SquareOrder(Cubic(hi), sine(hi));
    SquaredSineRises(sine, angle, lo);
    SquaredSineRises(sine, hi, angle);
    var r := angle / HALF_PI;
    assert r * HALF_PI == angle;
    SameOrder(0.142, r, HALF_PI, lo, angle);
    SameOrder(r, 0.144, HALF_PI, angle, hi);
  }

  /** A 3.4 m propeller with 34 cm under water is rated below a fully exposed one. */
  lemma BarelyImmersed(sine: real -> real)
    requires SineLike(sine)
    ensures Ventilation(3.4, 0.34, sine) < 0.05 == Ventilation(3.4, 0.0, sine)
  {
    var x := HALF_PI * (0.34 / 3.4);
    SineSign(sine, x);
    N.SquareOrder(sine(x), x);
  }

  /** The index stays in (0, 1], and deeper never rates worse among immersed propellers. */
  lemma VentilationRange(diameter: real, s: real, s': real, sine: real -> real)
    requires diameter > 0.0 && Rises(sine) && 0.0 < s <= s'
    ensures 0.0 < Ventilation(diameter, s, sine) <= Ventilation(diameter, s', sine) <= 1.0
  {
    hide Rises, N.Sq, Ventilation;
    ImmersedIndex(diameter, s, sine);
    ImmersedIndex(diameter, s', sine);
    if s < s' < diameter {
      var r, r' := s / diameter, s' / diameter;
      assert r * diameter == s && r' * diameter == s';
      SameOrder(r, r', diameter, s, s');
      FractionInside(s, diameter);
      FractionInside(s', diameter);
      PartlyImmersed(diameter, s, sine);
      PartlyImmersed(diameter, s', sine);
      SquaredSineRises(sine, HALF_PI * r, HALF_PI * r');
    } else if s' >= diameter {
      FullyImmersed(diameter, s', sine);
    }
  }

  lemma PartlyImmersed(diameter: real, s: real, sine: real -> real)
    requires 0.0 < s < diameter
    ensures Ventilation(diameter, s, sine) == N.Sq(sine(HALF_PI * (s / diameter)))
  {
  }

  lemma FullyImmersed(diameter: real, s: real, sine: real -> real)
    requires 0.0 < diameter <= s
    ensures Ventilation(diameter, s, sine) == 1.0
  {
  }

  lemma ImmersedIndex(diameter: real, s: real, sine: real -> real)
    requires diameter > 0.0 && Rises(sine) && s > 0.0
    ensures 0.0 < Ventilation(diameter, s, sine) <= 1.0
  {
    if s < diameter {
      FractionInside(s, diameter);
      var x := HALF_PI * (s / diameter);
      SineSign(sine, x);
      N.SqPositive(sine(x));
      assert sine(x) < sine(HALF_PI) <= 1.0;
      N.SquareOrder(sine(x), 1.0);
    }
  }

  lemma FractionInside(s: real, d: real)
    requires 0.0 < s < d
    ensures 0.0 < s / d < 1.0
  {
    var q := s / d;
    assert q * d == s;
    N.SignOf(d, q, s);
    N.SignOf(d, 1.0 - q, d - s);
  }

  /** Feature 42: the torque attenuated for the ventilation index, within the limit. */
  function Attenuated(maxTorque: real, base: real, beta: real): real
  {
    Limit(-maxTorque, maxTorque, if beta < 0.90 then base * (beta * beta) else base)
  }

  /** Within the limit, at most the demand, and with its sign. */
  predicate SafeTorque(maxTorque: real, base: real, torque: real)
  {
    && Abs(torque) <= maxTorque
    && Abs(torque) <= Abs(base)
    && (base >= 0.0 ==> torque >= 0.0) && (base <= 0.0 ==> torque <= 0.0)
  }

  /** For an index between 0 and 1 the attenuation never strengthens or reverses a torque and
      keeps it within the limit. */
  lemma AttenuationSafe(maxTorque: real, base: real, beta: real)
    requires maxTorque >= 0.0 && 0.0 <= beta <= 1.0
    ensures SafeTorque(maxTorque, base, Attenuated(maxTorque, base, beta))
  {
    hide Attenuated, SafeTorque, Gain;
    var p := AttenuatedIs(maxTorque, base, beta);
    GainRange(beta);
    ScaledOrder(base, Gain(beta), 1.0, p, base);
    LimitedSafe(maxTorque, base, p);
  }

  /** An index of at least 0.9 leaves the demand as it is; a smaller one cuts it by its square. */
  lemma AttenuationExact(maxTorque: real, base: real, beta: real)
    requires Abs(base) <= maxTorque && 0.0 <= beta <= 1.0
    ensures Attenuated(maxTorque, base, beta) == if beta >= 0.9 then base else beta * (beta * base)
    ensures base != 0.0 ==> (Attenuated(maxTorque, base, beta) == base <==> beta >= 0.9)
  {
    var g := beta * beta;
    N.SqNonneg(beta);
    N.SquareOrder(beta, 1.0);
    assert g == N.Sq(beta) && N.Sq(1.0) == 1.0;
    hide N.Sq;
    var p := base * g;
    ScaledOrder(base, g, 1.0, p, base);
    assert beta * (beta * base) == p;
    if beta < 0.9 {
      BelowOne(beta, g);
      NotWhole(base, g, p);
    }
  }

  lemma BelowOne(b: real, g: real)
    requires 0.0 <= b < 0.9 && g == b * b
    ensures g < 1.0
  {
    MulMono(b, b, 0.9);
  }

  lemma NotWhole(b: real, g: real, p: real)
    requires b != 0.0 ==> g < 1.0
    requires p == b * g
    ensures b != 0.0 ==> p != b
  {
    if b > 0.0 {
      PositiveProduct(b, 1.0 - g, b - p);
    } else if b < 0.0 {
      PositiveProduct(-b, 1.0 - g, p - b);
    }
  }

  /** The share of the torque an index leaves. */
  function Gain(beta: real): real { if beta < 0.90 then beta * beta else 1.0 }

  lemma AttenuatedIs(maxTorque: real, base: real, beta: real) returns (p: real)
    ensures p == base * Gain(beta) && Attenuated(maxTorque, base, beta) == Limit(-maxTorque, maxTorque, p)
  {
    p := base * Gain(beta);
  }

  lemma GainRange(beta: real)
    requires 0.0 <= beta <= 1.0
    ensures 0.0 <= Gain(beta) <= 1.0
  {
    MulMono(beta, 0.0, beta);
    MulMono(beta, beta, 1.0);
  }

  lemma GainRises(beta: real, beta': real)
    requires 0.0 <= beta <= beta' <= 1.0
    ensures Gain(beta) <= Gain(beta')
  {
    GainRange(beta);
    MulMono(beta, beta, beta');
    MulMono(beta', beta, beta');
  }

  lemma LimitedSafe(m: real, base: real, p: real)
    requires m >= 0.0 && (0.0 <= p <= base || base <= p <= 0.0)
    ensures SafeTorque(m, base, Limit(-m, m, p))
  {
  }

  /** Between indices in [0, 1] a greater one never weakens the torque. */
  lemma AttenuationRises(maxTorque: real, base: real, beta: real, beta': real)
    requires maxTorque >= 0.0 && 0.0 <= beta <= beta' <= 1.0
    ensures Abs(Attenuated(maxTorque, base, beta)) <= Abs(Attenuated(maxTorque, base, beta'))
  {
    hide Attenuated, Gain;
    var p := AttenuatedIs(maxTorque, base, beta);
    var p' := AttenuatedIs(maxTorque, base, beta');
    GainRange(beta);
    GainRises(beta, beta');
    ScaledOrder(base, Gain(beta), Gain(beta'), p, p');
    LimitedOrder(maxTorque, p, p');
  }

  lemma ScaledOrder(b: real, g: real, g': real, p: real, p': real)
    requires 0.0 <= g <= g' && p == b * g && p' == b * g'
    ensures 0.0 <= p <= p' || p' <= p <= 0.0
  {
    if b >= 0.0 {
      MulMono(b, 0.0, g);
      MulMono(b, g, g');
    } else {
      MulMono(-b, 0.0, g);
      MulMono(-b, g, g');
      assert -b * g == -p && -b * g' == -p';
    }
  }

  lemma LimitedOrder(m: real, p: real, p': real)
    requires m >= 0.0 && (0.0 <= p <= p' || p' <= p <= 0.0)
    ensures Abs(Limit(-m, m, p)) <= Abs(Limit(-m, m, p'))
  {
  }

  // ---------- From the readings to the torque ----------

  /** The index after the readings, oldest first, with the buffer h before them. */
  function IndexAfter(diameter: real, nominalDepth: real, h: seq<real>, readings: seq<real>, sine: real -> real): real
    requires diameter > 0.0 && |h| == HISTORY_DEPTH
  {
    Ventilation(diameter, nominalDepth + Forecast(PushAll(h, readings)), sine)
  }

  lemma IndexRange(diameter: real, s: real, sine: real -> real)
    requires diameter > 0.0 && Rises(sine)
    ensures 0.0 < Ventilation(diameter, s, sine) <= 1.0
  {
    hide Rises;
    if s > 0.0 {
      ImmersedIndex(diameter, s, sine);
    }
  }

  /** End to end: after any readings the index is in (0, 1], and the torque is within its limit,
      never stronger than the demand nor against it. */
  lemma WaveTorqueSafe(diameter: real, maxTorque: real, nominalDepth: real, h: seq<real>, readings: seq<real>,
                       base: real, sine: real -> real)
    requires diameter > 0.0 && maxTorque >= 0.0 && |h| == HISTORY_DEPTH && Rises(sine)
    ensures var beta := IndexAfter(diameter, nominalDepth, h, readings, sine);
      && 0.0 < beta <= 1.0
      && SafeTorque(maxTorque, base, Attenuated(maxTorque, base, beta))
  {
    hide Rises, Ventilation, Attenuated, Forecast, PushAll;
    IndexRange(diameter, nominalDepth + Forecast(PushAll(h, readings)), sine);
    AttenuationSafe(maxTorque, base, IndexAfter(diameter, nominalDepth, h, readings, sine));
  }

  /** Two sea states after which the propeller is still immersed: the one with the higher
      forecast never yields the weaker torque. */
  lemma HigherSeaKeepsTorque(diameter: real, maxTorque: real, nominalDepth: real, h: seq<real>, readings: seq<real>,
                             h': seq<real>, readings': seq<real>, base: real, sine: real -> real)
    requires diameter > 0.0 && maxTorque >= 0.0 && |h| == |h'| == HISTORY_DEPTH && Rises(sine)
    requires 0.0 < nominalDepth + Forecast(PushAll(h, readings)) <= nominalDepth + Forecast(PushAll(h', readings'))
    ensures Abs(Attenuated(maxTorque, base, IndexAfter(diameter, nominalDepth, h, readings, sine)))
         <= Abs(Attenuated(maxTorque, base, IndexAfter(diameter, nominalDepth, h', readings', sine)))
  {
    hide Rises, Ventilation, Attenuated, Forecast, PushAll;
    VentilationRange(diameter, nominalDepth + Forecast(PushAll(h, readings)), nominalDepth + Forecast(PushAll(h', readings')), sine);
    AttenuationRises(maxTorque, base, IndexAfter(diameter, nominalDepth, h, readings, sine), IndexAfter(diameter, nominalDepth, h', readings', sine));
  }

  class AutoregressiveWaveMatrixProcessor {
    const diameter: real
    const maxTorque: real
    var elevationHistory: seq<real>
    var notch: N.Registers

    ghost predicate Valid()
      reads this
    {
      |elevationHistory| == HISTORY_DEPTH && diameter > 0.0
    }

    constructor (diameter: real, maxTorque: real)
      requires diameter > 0.0
      ensures Valid() && this.diameter == diameter && this.maxTorque == maxTorque
      ensures elevationHistory == [0.0, 0.0, 0.0, 0.0, 0.0] && notch == N.Registers(0.0, 0.0, 0.0, 0.0)
    {
      this.diameter, this.maxTorque := diameter, maxTorque;
      elevationHistory := [0.0, 0.0, 0.0, 0.0, 0.0];
      notch := N.Registers(0.0, 0.0, 0.0, 0.0);
    }

    method ExecuteFeature40ArFilter(rawBow: real) returns (predicted: real)
      requires Valid()
      modifies `elevationHistory
      ensures Valid() && elevationHistory == Push(old(elevationHistory), rawBow)
      ensures predicted == Forecast(elevationHistory)
    {
      elevationHistory := elevationHistory[1..] + [rawBow];
      predicted := Forecast(elevationHistory);
    }

    method ExecuteFeature43NotchFilter(rudder: real, tangent: real) returns (filtered: real)
      modifies `notch
      ensures notch == N.Step(N.Design(tangent), old(notch), rudder) && filtered == notch.y1
    {
      hide N.Design, N.Output;
      filtered := N.Output(N.Design(tangent), notch, rudder);
      notch := notch.(x2 := notch.x1, x1 := rudder, y2 := notch.y1, y1 := filtered);
    }

    method ProcessWaveMatrix(rawBow: real, baseTorque: real, rudder: real, nominalDepth: real,
                             sine: real -> real, tangent: real)
      returns (torque: real, filtered: real, beta: real)
      requires Valid()
      modifies this
      ensures Valid() && elevationHistory == Push(old(elevationHistory), rawBow)
      ensures notch == N.Step(N.Design(tangent), old(notch), rudder) && filtered == notch.y1
      ensures beta == Ventilation(diameter, nominalDepth + Forecast(elevationHistory), sine)
      ensures torque == Attenuated(maxTorque, baseTorque, beta)
      ensures Rises(sine) && maxTorque >= 0.0 ==> 0.0 < beta <= 1.0 && SafeTorque(maxTorque, baseTorque, torque)
    {
      hide Rises, Ventilation, Attenuated, SafeTorque;
      var predicted := ExecuteFeature40ArFilter(rawBow);
      beta := Ventilation(diameter, nominalDepth + predicted, sine);
      torque := Attenuated(maxTorque, baseTorque, beta);
      filtered := ExecuteFeature43NotchFilter(rudder, tangent);
      if Rises(sine) && maxTorque >= 0.0 {
        IndexRange(diameter, nominalDepth + predicted, sine);
        AttenuationSafe(maxTorque, baseTorque, beta);
      }
    }
  }
}
