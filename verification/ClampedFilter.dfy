/** The notch filter as the engine runs it: src/control_core/bridge_execution_engine.py clamps
    the output and writes the clamped value back into the register, so the recurrence is no
    longer linear. The energy still falls, each clamped step costs a fixed amount of it, and so
    the filter ends up free and settles. */
module ClampedFilter {
  import opened Common
  import opened NotchFilter

  function ClampedStep(c: Coefficients, lo: real, hi: real, s: Registers, u: real): Registers
  {
    var r := Step(c, s, u);
    r.(y1 := Limit(lo, hi, r.y1))
  }

  /** The state after the first n commands of u. */
  ghost function ClampedRun(c: Coefficients, lo: real, hi: real, s: Registers, u: nat -> real, n: nat): Registers
  {
    if n == 0 then s else ClampedStep(c, lo, hi, ClampedRun(c, lo, hi, s, u, n - 1), u(n - 1))
  }

  lemma {:induction false} ClampedSplit(c: Coefficients, lo: real, hi: real, s: Registers, u: nat -> real, k: nat, n: nat)
    ensures ClampedRun(c, lo, hi, s, u, k + n) == ClampedRun(c, lo, hi, ClampedRun(c, lo, hi, s, u, k), Shift(u, k), n)
  {
    if n > 0 {
      hide ClampedStep;
      ClampedSplit(c, lo, hi, s, u, k, n - 1);
    }
  }

  lemma {:induction false} ClampedExtensional(c: Coefficients, lo: real, hi: real, s: Registers, u: nat -> real, v: nat -> real, n: nat)
    requires forall i: nat :: i < n ==> u(i) == v(i)
    ensures ClampedRun(c, lo, hi, s, u, n) == ClampedRun(c, lo, hi, s, v, n)
  {
    if n > 0 {
      hide ClampedStep;
      ClampedExtensional(c, lo, hi, s, u, v, n - 1);
    }
  }

  // ---------- Energy of a clamped step ----------

  predicate Inside(lo: real, hi: real, s: Registers)
  {
    lo <= s.y1 <= hi && lo <= s.y2 <= hi
  }

  /** Energy after a step that gives y instead of the free output f. */
  lemma OverriddenStep(c: Coefficients, y1: real, y2: real, f: real, y: real)
    requires f == -c.d1 * y1 - c.d2 * y2
    ensures var s, r := Registers(0.0, 0.0, y1, y2), Registers(0.0, 0.0, y, y1);
            Energy(c, r) - Energy(c, s) == -(1.0 - c.d2) * Sq(y - y2) - 2.0 * ((f - y) * (y - y2))
  {
    var b := 1.0 + c.d2;
    assert c.d1 * (y * y1) - c.d1 * (y1 * y2) == (c.d1 * y1) * (y - y2);
    assert c.d1 * y1 == -f - c.d2 * y2;
    assert (c.d1 * y1) * (y - y2) == (-f - c.d2 * y2) * (y - y2);
    assert b * (y * y + y1 * y1) - b * (y1 * y1 + y2 * y2) == b * (y * y - y2 * y2);
    OverriddenAlgebra(c.d2, y2, f, y);
  }

  lemma OverriddenAlgebra(d: real, z: real, f: real, y: real)
    ensures (1.0 + d) * (y * y - z * z) + 2.0 * ((-f - d * z) * (y - z)) == -(1.0 - d) * Sq(y - z) - 2.0 * ((f - y) * (y - z))
  {
  }

  /** A clamped step from inside the limits loses at least what a free step to the same
      output would. */
  lemma ClampedEnergyStep(c: Coefficients, lo: real, hi: real, s: Registers)
    requires Drained(s) && Inside(lo, hi, s)
    ensures var r := ClampedStep(c, lo, hi, s, 0.0);
      && Drained(r) && Inside(lo, hi, r)
      && Energy(c, r) <= Energy(c, s) - (1.0 - c.d2) * Sq(r.y1 - s.y2)
  {
    hide Energy, Sq, Limit, Output;
    var r, f := ClampedStep(c, lo, hi, s, 0.0), Step(c, s, 0.0).y1;
    FreeStep(c, s);
    assert s == Registers(0.0, 0.0, s.y1, s.y2) && r == Registers(0.0, 0.0, r.y1, s.y1);
    hide Step;
    ClampPushes(lo, hi, f, r.y1, s.y2);
    OverriddenStep(c, s.y1, s.y2, f, r.y1);
  }

  /** Clamping moves an output towards every point inside the limits. */
  lemma ClampPushes(lo: real, hi: real, f: real, y: real, z: real)
    requires lo <= z <= hi && y == Limit(lo, hi, f)
    ensures lo <= y <= hi
    ensures (f - y) * (y - z) >= 0.0
  {
    if f > hi {
      MulMono(f - y, 0.0, y - z);
    } else if f < lo {
      MulMono(y - f, 0.0, z - y);
      assert (f - y) * (y - z) == (y - f) * (z - y);
    }
  }

  // ---------- Caps that change from cycle to cycle ----------

  /** Overridden at the limit h, an output beyond it gains energy exactly when the older output
      lies beyond h as well, by less than 2/(1 - d2) times the excess of the free output. */
  predicate Overshoots(c: Coefficients, h: real, f: real, older: real)
  {
    f > h && older > h && 2.0 * (f - h) > (1.0 - c.d2) * (older - h)
  }

  /** Exactly when one clamped step gains energy, whatever the limits and the state. */
  lemma ClampedGrowsIff(c: Coefficients, lo: real, hi: real, s: Registers)
    requires c.d2 <= 1.0 && lo <= hi && Drained(s)
    ensures Energy(c, ClampedStep(c, lo, hi, s, 0.0)) > Energy(c, s) <==>
      Overshoots(c, hi, FreeOutput(c, s.y1, s.y2), s.y2) || Overshoots(c, -lo, -FreeOutput(c, s.y1, s.y2), -s.y2)
  {
    hide Energy, Sq, Limit, Output;
    var r, f := ClampedStep(c, lo, hi, s, 0.0), FreeOutput(c, s.y1, s.y2);
    FreeStep(c, s);
    assert s == Registers(0.0, 0.0, s.y1, s.y2) && r == Registers(0.0, 0.0, r.y1, s.y1);
    assert Step(c, s, 0.0).y1 == f;
    hide Step, ClampedStep, Drained;
    OverriddenStep(c, s.y1, s.y2, f, r.y1);
    LimitCases(lo, hi, f);
    var g := 1.0 - c.d2;
    if f > hi {
      GainAtLimit(g, f - hi, s.y2 - hi, hi - s.y2);
    } else if f < lo {
      GainAtLimit(g, lo - f, lo - s.y2, lo - s.y2);
      BothSigns(lo - f, lo - s.y2);
      SqEven(lo - s.y2);
    } else {
      SqNonneg(f - s.y2);
      MulMono(g, 0.0, Sq(f - s.y2));
    }
  }

  lemma LimitCases(lo: real, hi: real, f: real)
    requires lo <= hi
    ensures Limit(lo, hi, f) == if f > hi then hi else if f < lo then lo else f
  {
  }

  lemma BothSigns(a: real, b: real)
    ensures -a * b == -(a * b)
  {
  }

  /** The sign of the energy gained when an excess e is cut off and the older output exceeds
      the limit by z. */
  lemma GainAtLimit(g: real, e: real, z: real, w: real)
    requires g >= 0.0 && e > 0.0 && (w == z || w == -z)
    ensures -g * Sq(w) + 2.0 * (e * z) > 0.0 <==> z > 0.0 && 2.0 * e > g * z
  {
    var p := 2.0 * e - g * z;
    assert Sq(w) == z * z;
    assert -g * Sq(w) + 2.0 * (e * z) == z * p;
    if z > 0.0 {
      SignOf(z, p, z * p);
    } else {
      MulMono(g, z, 0.0);
      MulMono(-z, 0.0, p);
    }
  }

  /** Whatever the output before it was, a step after the output y gains no energy. */
  ghost predicate KeepsEnergy(c: Coefficients, cap: real, y: real)
  {
    forall older: real ::
      var s := Registers(0.0, 0.0, y, older); Energy(c, ClampedStep(c, -cap, cap, s, 0.0)) <= Energy(c, s)
  }

  /** A cap that differs from the one before: the step after an output y gains no energy,
      wherever the output before it was, exactly when the cap is at least |d1|/(1 + d2) of |y|. */
  lemma CappedEnergyIff(c: Coefficients, cap: real, y: real)
    requires Stable(c) && cap >= 0.0
    ensures KeepsEnergy(c, cap, y) <==> Abs(c.d1 * y) <= (1.0 + c.d2) * cap
  {
    hide Energy, ClampedStep;
    var b, x := (1.0 + c.d2) * cap, -c.d1 * y;
    forall older ensures Abs(x) <= b ==>
      var s := Registers(0.0, 0.0, y, older); Energy(c, ClampedStep(c, -cap, cap, s, 0.0)) <= Energy(c, s)
    {
      ClampedGrowsIff(c, -cap, cap, Registers(0.0, 0.0, y, older));
      if Abs(x) <= b {
        NoOvershoot(c, cap, x, older);
        NoOvershoot(c, cap, -x, -older);
      }
    }
    if Abs(x) > b {
      var older := Feeding(c, cap, y);
      assert !KeepsEnergy(c, cap, y);
    }
  }

  lemma NoOvershoot(c: Coefficients, cap: real, x: real, older: real)
    requires Stable(c) && x <= (1.0 + c.d2) * cap
    ensures !Overshoots(c, cap, x - c.d2 * older, older)
  {
    var z := older - cap;
    assert c.d2 * older == c.d2 * cap + c.d2 * z;
    assert (1.0 + c.d2) * cap == cap + c.d2 * cap;
    if z > 0.0 {
      PositiveProduct(z, 1.0 + c.d2, z + c.d2 * z);
      assert (1.0 - c.d2) * z == z - c.d2 * z;
    }
  }

  lemma OvershootFrom(c: Coefficients, cap: real, y: real) returns (older: real)
    requires Stable(c) && -c.d1 * y > (1.0 + c.d2) * cap
    ensures Overshoots(c, cap, FreeOutput(c, y, older), older)
  {
    var x, d := -c.d1 * y, c.d2;
    var z := (x - (1.0 + d) * cap) / 2.0;
    older := cap + z;
    assert d * older == d * cap + d * z;
    assert (1.0 + d) * cap == cap + d * cap;
    PositiveProduct(z, 1.0 - d, z - d * z);
    assert (1.0 - d) * z == z - d * z;
  }

  lemma MirrorFree(c: Coefficients, y: real, older: real)
    ensures FreeOutput(c, -y, -older) == -FreeOutput(c, y, older)
  {
  }

  /** An older output from which the step gains energy. */
  lemma Feeding(c: Coefficients, cap: real, y: real) returns (older: real)
    requires Stable(c) && cap >= 0.0 && Abs(c.d1 * y) > (1.0 + c.d2) * cap
    ensures var s := Registers(0.0, 0.0, y, older); Energy(c, ClampedStep(c, -cap, cap, s, 0.0)) > Energy(c, s)
  {
    hide Energy, ClampedStep, Overshoots, FreeOutput;
    MulMono(1.0 + c.d2, 0.0, cap);
    if -c.d1 * y > (1.0 + c.d2) * cap {
      older := OvershootFrom(c, cap, y);
    } else {
      var mirror := OvershootFrom(c, cap, -y);
      older := -mirror;
      MirrorFree(c, y, older);
    }
    ClampedGrowsIff(c, -cap, cap, Registers(0.0, 0.0, y, older));
  }

  /** Two cycles: after any step clamped to one cap, the step clamped to the next one gains no
      energy, from any state, exactly when the cap does not shrink by more than |d1|/(1 + d2). */
  lemma CapPairIff(c: Coefficients, cap: real, next: real)
    requires Stable(c) && c.d2 > 0.0 && cap >= 0.0 && next >= 0.0
    ensures PairKeepsEnergy(c, cap, next) <==> Abs(c.d1) * cap <= (1.0 + c.d2) * next
  {
    hide Energy, ClampedStep;
    if Abs(c.d1) * cap <= (1.0 + c.d2) * next {
      forall s: Registers | Drained(s) ensures
        var r := ClampedStep(c, -cap, cap, s, 0.0); Energy(c, ClampedStep(c, -next, next, r, 0.0)) <= Energy(c, r)
      {
        var r := ClampedStep(c, -cap, cap, s, 0.0);
        CappedStep(c, cap, s);
        ScaledWithin(c.d1, r.y1, cap);
        CappedEnergyIff(c, next, r.y1);
        assert r == Registers(0.0, 0.0, r.y1, r.y2);
      }
    } else {
      ScaledWithin(c.d1, cap, cap);
      var older := Feeding(c, next, cap);
      var s := Preceding(c, cap, older);
      assert !PairKeepsEnergy(c, cap, next);
    }
  }

  ghost predicate PairKeepsEnergy(c: Coefficients, cap: real, next: real)
  {
    forall s: Registers :: Drained(s) ==>
      var r := ClampedStep(c, -cap, cap, s, 0.0); Energy(c, ClampedStep(c, -next, next, r, 0.0)) <= Energy(c, r)
  }

  lemma CappedStep(c: Coefficients, cap: real, s: Registers)
    requires Drained(s) && cap >= 0.0
    ensures var r := ClampedStep(c, -cap, cap, s, 0.0); Drained(r) && Abs(r.y1) <= cap && r.y2 == s.y1
  {
    hide Output;
  }

  lemma ScaledWithin(d: real, y: real, h: real)
    requires Abs(y) <= h
    ensures Abs(d * y) <= Abs(d) * h
    ensures y == h ==> Abs(d * y) == Abs(d) * h
  {
    MulMono(Abs(d), Abs(y), h);
    assert Abs(d * y) == Abs(d) * Abs(y) by {
      BothSigns(d, y);
      BothSigns(d, -y);
      assert d * -y == -(d * y);
      MulMono(Abs(d), 0.0, Abs(y));
    }
  }

  /** A state that a step clamped to cap takes to the outputs cap and, before it, older. */
  lemma Preceding(c: Coefficients, cap: real, older: real) returns (s: Registers)
    requires c.d2 > 0.0 && cap >= 0.0
    ensures Drained(s) && ClampedStep(c, -cap, cap, s, 0.0) == Registers(0.0, 0.0, cap, older)
  {
    var q := -(cap + c.d1 * older) / c.d2;
    s := Registers(0.0, 0.0, older, q);
    assert c.d2 * q == -(cap + c.d1 * older);
    FreeStep(c, s);
    hide Output;
  }

  /** A shrinking cap that feeds energy in, at the tangent of a 50 Hz loop: from rest, one
      command of at least 160 degrees and three of zero, clamped to 35 degrees, leave the
      filter at that limit with its inputs drained; any smaller cap up to 34.98 degrees in the
      next cycle then leaves it with more energy than it had. */
  lemma ShrinkingCap(u: real, cap: real) returns (s: Registers)
    requires u >= 160.0 && 0.0 <= cap <= 34.98
    ensures var c := Design(0.0082);
      && s == ClampedStep(c, -35.0, 35.0, ClampedStep(c, -35.0, 35.0, ClampedStep(c, -35.0, 35.0,
                ClampedStep(c, -35.0, 35.0, Registers(0.0, 0.0, 0.0, 0.0), u), 0.0), 0.0), 0.0)
      && s == Registers(0.0, 0.0, 35.0, 35.0)
      && Energy(c, ClampedStep(c, -cap, cap, s, 0.0)) > Energy(c, s)
  {
    var c := Design(0.0082);
    Coefficients50Hz();
    hide Design, Energy;
    var s1 := ClampedStep(c, -35.0, 35.0, Registers(0.0, 0.0, 0.0, 0.0), u);
    assert s1 == Registers(u, 0.0, 35.0, 0.0) by { Dominates(c.n0, u); }
    var s2 := ClampedStep(c, -35.0, 35.0, s1, 0.0);
    assert s2 == Registers(0.0, u, -35.0, 35.0) by { Dominates(-c.n1, u); }
    var s3 := ClampedStep(c, -35.0, 35.0, s2, 0.0);
    assert s3 == Registers(0.0, 0.0, 35.0, -35.0) by { Dominates(c.n2, u); }
    s := ClampedStep(c, -35.0, 35.0, s3, 0.0);
    assert s == Registers(0.0, 0.0, 35.0, 35.0);
    hide Output, ClampedStep;
    ClampedGrowsIff(c, -cap, cap, s);
  }

  lemma Coefficients50Hz()
    ensures var c := Design(0.0082);
      && c.n0 > 0.98 && c.n1 < -1.97 && c.n2 > 0.98
      && -1.978 < c.d1 < -1.976 && 0.977 < c.d2 < 0.978 && 0.9997 < -c.d1 - c.d2 < 0.9998
  {
    Normalised(0.0082);
    hide Design;
  }

  lemma Dominates(k: real, u: real)
    requires k >= 0.98 && u >= 160.0
    ensures k * u >= k * 160.0
  {
    MulMono(k, 160.0, u);
  }

  // ---------- Runs with a cap for every cycle ----------

  /** The state n cycles after s, the first of them cycle k, with the command at zero. */
  ghost function CapRun(c: Coefficients, caps: nat -> real, k: nat, s: Registers, n: nat): Registers
  {
    if n == 0 then s else ClampedStep(c, -caps(k + n - 1), caps(k + n - 1), CapRun(c, caps, k, s, n - 1), 0.0)
  }

  /** From whatever drained state and cycle it starts, no cycle but perhaps the first gains energy. */
  ghost predicate RunsKeepEnergy(c: Coefficients, caps: nat -> real)
  {
    forall k: nat, s: Registers, n: nat :: Drained(s) && n >= 1 ==>
      Energy(c, CapRun(c, caps, k, s, n + 1)) <= Energy(c, CapRun(c, caps, k, s, n))
  }

  lemma {:induction false} CapRunDrained(c: Coefficients, caps: nat -> real, k: nat, s: Registers, n: nat)
    requires Drained(s) && forall i: nat :: caps(i) >= 0.0
    ensures Drained(CapRun(c, caps, k, s, n))
  {
    if n > 0 {
      hide ClampedStep;
      CapRunDrained(c, caps, k, s, n - 1);
      CappedStep(c, caps(k + n - 1), CapRun(c, caps, k, s, n - 1));
    }
  }

  predicate SlowAt(p: real, q: real, caps: nat -> real, i: nat)
  {
    p * caps(i) <= q * caps(i + 1)
  }

  /** No cap falls short of the share p/q of the one before. */
  ghost predicate ShrinkSlowly(p: real, q: real, caps: nat -> real)
  {
    forall i: nat :: SlowAt(p, q, caps, i)
  }

  /** The energy falls through every run exactly when no cap falls short of |d1|/(1 + d2) of
      the cap before it. */
  lemma CapsKeepEnergyIff(c: Coefficients, caps: nat -> real)
    requires Stable(c) && c.d2 > 0.0 && forall i: nat :: caps(i) >= 0.0
    ensures RunsKeepEnergy(c, caps) <==> ShrinkSlowly(Abs(c.d1), 1.0 + c.d2, caps)
  {
    hide Energy, CapRun, Stable, Drained, SlowAt, Abs;
    if ShrinkSlowly(Abs(c.d1), 1.0 + c.d2, caps) {
      forall k: nat, s: Registers, n: nat | Drained(s) && n >= 1
        ensures Energy(c, CapRun(c, caps, k, s, n + 1)) <= Energy(c, CapRun(c, caps, k, s, n))
      {
        CapRunKeeps(c, caps, k, s, n);
      }
    } else {
      var i: nat :| !SlowAt(Abs(c.d1), 1.0 + c.d2, caps, i);
      CapRunFed(c, caps, i);
    }
  }

  lemma CapRunKeeps(c: Coefficients, caps: nat -> real, k: nat, s: Registers, n: nat)
    requires Stable(c) && c.d2 > 0.0 && forall i: nat :: caps(i) >= 0.0
    requires ShrinkSlowly(Abs(c.d1), 1.0 + c.d2, caps) && Drained(s) && n >= 1
    ensures Energy(c, CapRun(c, caps, k, s, n + 1)) <= Energy(c, CapRun(c, caps, k, s, n))
  {
    hide Energy, ClampedStep, Stable, Drained, CapRun;
    CapRunDrained(c, caps, k, s, n - 1);
    var i: nat := k + n - 1;
    assert SlowAt(Abs(c.d1), 1.0 + c.d2, caps, i);
    CapPairIff(c, caps(i), caps(i + 1));
    TwoCycles(c, caps, k, s, n);
  }

  lemma TwoCycles(c: Coefficients, caps: nat -> real, k: nat, s: Registers, n: nat)
    requires n >= 1
    ensures var i, q := k + n - 1, CapRun(c, caps, k, s, n - 1);
            var r := ClampedStep(c, -caps(i), caps(i), q, 0.0);
      CapRun(c, caps, k, s, n) == r && CapRun(c, caps, k, s, n + 1) == ClampedStep(c, -caps(i + 1), caps(i + 1), r, 0.0)
  {
    hide ClampedStep;
    assert k + (n + 1) - 1 == k + n - 1 + 1;
  }

  lemma CapRunFed(c: Coefficients, caps: nat -> real, i: nat)
    requires Stable(c) && c.d2 > 0.0 && caps(i) >= 0.0 && caps(i + 1) >= 0.0
    requires !SlowAt(Abs(c.d1), 1.0 + c.d2, caps, i)
    ensures !RunsKeepEnergy(c, caps)
  {
    hide Energy, ClampedStep, Stable, Drained;
    CapPairIff(c, caps(i), caps(i + 1));
    var s: Registers :| Drained(s) && var r := ClampedStep(c, -caps(i), caps(i), s, 0.0);
      Energy(c, ClampedStep(c, -caps(i + 1), caps(i + 1), r, 0.0)) > Energy(c, r);
    assert CapRun(c, caps, i, s, 0) == s;
    TwoCycles(c, caps, i, s, 1);
  }

  /** For the designed filter: no cap may fall short of |1 - t^2|/(1 + t^2) of the one before. */
  lemma DesignedCapsIff(t: real, caps: nat -> real)
    requires t > 0.0 && forall i: nat :: caps(i) >= 0.0
    ensures RunsKeepEnergy(Design(t), caps) <==> ShrinkSlowly(Abs(1.0 - Sq(t)), 1.0 + Sq(t), caps)
  {
    var c := Design(t);
    StableIffPositive(t);
    SecondPositive(t);
    hide Design, Stable, RunsKeepEnergy, Sq;
    CapsKeepEnergyIff(c, caps);
    var p, q, m, n := Abs(c.d1), 1.0 + c.d2, Abs(1.0 - Sq(t)), 1.0 + Sq(t);
    forall i: nat ensures SlowAt(p, q, caps, i) <==> SlowAt(m, n, caps, i) {
      DesignRatio(t, caps(i), caps(i + 1));
    }
  }

  lemma DesignRatio(t: real, x: real, y: real)
    ensures var c := Design(t); Abs(c.d1) * x <= (1.0 + c.d2) * y <==> Abs(1.0 - Sq(t)) * x <= (1.0 + Sq(t)) * y
  {
    Normalised(t);
    var c, a := Design(t), A0(t);
    hide Design, A0;
    var p, q, m, n := Abs(c.d1), 1.0 + c.d2, Abs(1.0 - Sq(t)), 1.0 + Sq(t);
    assert a * q == a + a * c.d2 == 2.0 * n;
    hide Sq;
    ScaledAbs(a, c.d1, Sq(t) - 1.0);
    assert a * (q * y - p * x) == 2.0 * (n * y - m * x) by {
      assert a * (q * y) == 2.0 * (n * y) && a * (p * x) == 2.0 * (m * x);
    }
    SignOf(a, q * y - p * x, 2.0 * (n * y - m * x));
  }

  lemma ScaledAbs(a: real, d: real, x: real)
    requires a > 0.0 && a * d == 2.0 * x
    ensures a * Abs(d) == 2.0 * Abs(x)
  {
    SignOf(a, d, 2.0 * x);
  }

  lemma SlopeBound(d: real, y: real, h: real)
    requires y <= h && (d <= 0.0 || -h <= y)
    ensures -d * y <= Abs(d) * h
  {
    if d <= 0.0 {
      MulMono(-d, y, h);
    } else {
      MulMono(d, -y, h);
    }
  }

  // ---------- What a clamped step costs ----------

  /** Half the energy-relevant distance to a limit at h. */
  function HalfGap(c: Coefficients, h: real): real { Margin(c) * h / 2.0 }

  /** A free output beyond a limit at distance h is reached only from a two-step-old output
      at least Margin * h away from that limit. Here o is the older output, y the newer. */
  lemma FarFromLimit(d1: real, d2: real, h: real, y: real, o: real)
    requires Abs(d1) < 1.0 + d2 && d2 < 1.0 && h > 0.0
    requires o <= h && y <= h && (d1 <= 0.0 || -h <= y)
    requires -d1 * y - d2 * o > h
    ensures h - o > (1.0 + d2 - Abs(d1)) * h
  {
    var w := h - o;
    SlopeBound(d1, y, h);
    Split(d2, h, o, w);
    MulMono(w, d2, 1.0);
    SumTimes(d2, Abs(d1), h);
    hide Abs;
  }

  lemma Split(d: real, h: real, o: real, w: real)
    requires w == h - o
    ensures d * o == d * h - d * w
  {
  }

  lemma SumTimes(a: real, b: real, h: real)
    ensures (1.0 + a - b) * h == h + a * h - b * h
  {
  }

  /** Otherwise the newer output lies far on the other side, and the next free output f is
      well away from it. */
  lemma FarNextTime(b: real, d1: real, h: real, y: real, o: real, f: real)
    requires 0.0 < d1 < b < 2.0 && h > 0.0 && o <= h
    requires -d1 * y - (b - 1.0) * o > h && f == -d1 * h - (b - 1.0) * y
    requires h - o < (b - d1) * h / 2.0
    ensures f - y >= (b - d1) * h / 2.0
  {
    var w, m := h - o, (b - d1) * h;
    MulMono(w, b - 1.0, 1.0);
    assert (b - 1.0) * o == (b - 1.0) * h - (b - 1.0) * w;
    var n := -d1 * y;
    assert n > b * h - w;
    ScaledFar(b, d1, h, y, m);
  }

  /** From d1*(-y) >= (b + d1)*h/2, the distance b*(-y) - d1*h is at least (b - d1)*h/2. */
  lemma ScaledFar(b: real, d1: real, h: real, y: real, m: real)
    requires 0.0 < d1 < b && h > 0.0 && m == (b - d1) * h && -d1 * y > b * h - m / 2.0
    ensures -d1 * h - b * y >= m / 2.0
  {
    var g := -d1 * h - b * y - m / 2.0;
    var e := -d1 * y - (b * h - m / 2.0);
    PositiveProduct(b, e, b * e);
    PositiveProduct(b - d1, h, m);
    PositiveProduct(m, b, m * b);
    PositiveProduct(m, d1, m * d1);
    assert d1 * g == b * e + b * (b * h - m / 2.0) - d1 * (d1 * h) - d1 * (m / 2.0);
    assert b * (b * h) - d1 * (d1 * h) == m * b + m * d1;
    assert d1 * g == b * e + m * b / 2.0 + m * d1 / 2.0;
    SignOf(d1, g, d1 * g);
  }

  /** After an output clamped at hi, one of two consecutive two-step differences is at least
      half of m, the margin times hi. */
  lemma HighGap(d1: real, d2: real, lo: real, hi: real, y: real, o: real, f: real, m: real)
    requires Abs(d1) < 1.0 + d2 && d2 < 1.0 && hi > 0.0 && lo <= y <= hi && lo <= o <= hi
    requires -d1 * y - d2 * o > hi && f == -d1 * hi - d2 * y && m == (1.0 + d2 - Abs(d1)) * hi
    ensures hi - o >= m / 2.0 || Limit(lo, hi, f) - y >= m / 2.0
  {
    PositiveProduct(1.0 + d2 - Abs(d1), hi, m);
    if d1 <= 0.0 || -hi <= y {
      FarFromLimit(d1, d2, hi, y, o);
    } else if hi - o < m / 2.0 {
      FarStep(1.0 + d2, d1, lo, hi, y, o, f, m);
    }
  }

  lemma FarStep(b: real, d1: real, lo: real, hi: real, y: real, o: real, f: real, m: real)
    requires 0.0 < d1 < b < 2.0 && hi > 0.0 && lo <= y < -hi && o <= hi
    requires -d1 * y - (b - 1.0) * o > hi && f == -d1 * hi - (b - 1.0) * y && m == (b - d1) * hi
    requires hi - o < m / 2.0
    ensures Limit(lo, hi, f) - y >= m / 2.0
  {
    FarNextTime(b, d1, hi, y, o, f);
    PositiveProduct(b - d1, hi, m);
    MulMono(hi, b - d1, 2.0);
    LimitAbove(lo, hi, f, y, m / 2.0);
  }

  lemma LimitAbove(lo: real, hi: real, f: real, y: real, g: real)
    requires lo <= y && f - y >= g > 0.0 && hi - y >= g
    ensures Limit(lo, hi, f) - y >= g
  {
  }

  /** What a step clamped at distance h and the one after it cost at least. */
  function Cost(c: Coefficients, h: real): real { (1.0 - c.d2) * Sq(HalfGap(c, h)) }

  /** The free output after the outputs a and, before it, b. */
  function FreeOutput(c: Coefficients, a: real, b: real): real { -c.d1 * a - c.d2 * b }

  /** The state two steps on. */
  function TwoOn(c: Coefficients, lo: real, hi: real, s: Registers): Registers
  {
    ClampedStep(c, lo, hi, ClampedStep(c, lo, hi, s, 0.0), 0.0)
  }

  lemma HighCost(c: Coefficients, lo: real, hi: real, s: Registers)
    requires Stable(c) && hi > 0.0 && Drained(s) && Inside(lo, hi, s) && Step(c, s, 0.0).y1 > hi
    ensures Energy(c, TwoOn(c, lo, hi, s)) <= Energy(c, s) - Cost(c, hi)
  {
    hide ClampedStep, Step, Output, Energy, Sq, HalfGap, Limit, FreeOutput;
    var r, q := ClampedStep(c, lo, hi, s, 0.0), TwoOn(c, lo, hi, s);
    ClampedEnergyStep(c, lo, hi, s);
    ClampedEnergyStep(c, lo, hi, r);
    HighSteps(c, lo, hi, s);
    HighGapOf(c, lo, hi, s.y1, s.y2);
    EitherLost(1.0 - c.d2, HalfGap(c, hi), hi - s.y2, q.y1 - s.y1, Energy(c, s), Energy(c, r), Energy(c, q));
  }

  lemma HighGapOf(c: Coefficients, lo: real, hi: real, y: real, o: real)
    requires Stable(c) && hi > 0.0 && lo <= y <= hi && lo <= o <= hi && -c.d1 * y - c.d2 * o > hi
    ensures HalfGap(c, hi) > 0.0
    ensures hi - o >= HalfGap(c, hi) || Limit(lo, hi, FreeOutput(c, hi, y)) - y >= HalfGap(c, hi)
  {
    HalfGapPositive(c, hi);
    HighGap(c.d1, c.d2, lo, hi, y, o, -c.d1 * hi - c.d2 * y, Margin(c) * hi);
  }

  lemma HalfGapPositive(c: Coefficients, h: real)
    requires Stable(c) && h > 0.0
    ensures HalfGap(c, h) > 0.0
  {
    PositiveProduct(Margin(c), h, Margin(c) * h);
  }

  lemma HighSteps(c: Coefficients, lo: real, hi: real, s: Registers)
    requires lo <= hi && Drained(s) && Step(c, s, 0.0).y1 > hi
    ensures var r := ClampedStep(c, lo, hi, s, 0.0);
      && r.y1 == hi && r.y2 == s.y1
      && -c.d1 * s.y1 - c.d2 * s.y2 > hi
      && TwoOn(c, lo, hi, s).y1 == Limit(lo, hi, FreeOutput(c, hi, s.y1))
  {
    var r := ClampedStep(c, lo, hi, s, 0.0);
    FreeStep(c, s);
    FreeStep(c, r);
    hide Output;
  }

  lemma EitherLost(g: real, m: real, w: real, w': real, e: real, e': real, e'': real)
    requires g >= 0.0 && m >= 0.0 && (w >= m || w' >= m)
    requires e' <= e - g * Sq(w) && e'' <= e' - g * Sq(w')
    ensures e'' <= e - g * Sq(m)
  {
    SqNonneg(w);
    SqNonneg(w');
    MulMono(g, 0.0, Sq(w));
    MulMono(g, 0.0, Sq(w'));
    if w >= m {
      SquareOrder(m, w);
      MulMono(g, Sq(m), Sq(w));
    } else {
      SquareOrder(m, w');
      MulMono(g, Sq(m), Sq(w'));
    }
  }

  // ---------- Mirror images ----------

  function Mirror(s: Registers): Registers
  {
    Registers(-s.x1, -s.x2, -s.y1, -s.y2)
  }

  lemma MirrorStep(c: Coefficients, lo: real, hi: real, s: Registers)
    ensures Step(c, Mirror(s), 0.0).y1 == -Step(c, s, 0.0).y1
    ensures lo <= hi ==> ClampedStep(c, -hi, -lo, Mirror(s), 0.0) == Mirror(ClampedStep(c, lo, hi, s, 0.0))
  {
    assert Output(c, Mirror(s), 0.0) == -Output(c, s, 0.0);
  }

  lemma MirrorEnergy(c: Coefficients, s: Registers)
    ensures Energy(c, Mirror(s)) == Energy(c, s)
  {
  }

  lemma LowCost(c: Coefficients, lo: real, hi: real, s: Registers)
    requires Stable(c) && lo < 0.0 && Drained(s) && Inside(lo, hi, s) && Step(c, s, 0.0).y1 < lo
    ensures Energy(c, TwoOn(c, lo, hi, s)) <= Energy(c, s) - Cost(c, -lo)
  {
    hide Energy, Cost, ClampedStep, Step;
    MirrorStep(c, lo, hi, s);
    MirrorStep(c, lo, hi, ClampedStep(c, lo, hi, s, 0.0));
    HighCost(c, -hi, -lo, Mirror(s));
    assert TwoOn(c, -hi, -lo, Mirror(s)) == Mirror(TwoOn(c, lo, hi, s));
    MirrorEnergy(c, s);
    MirrorEnergy(c, TwoOn(c, lo, hi, s));
  }

  // ---------- Three kinds of step ----------

  /** Clamped at a limit beyond zero: costs energy. */
  predicate Costly(c: Coefficients, lo: real, hi: real, s: Registers)
  {
    var f := Step(c, s, 0.0).y1;
    (f > hi && hi > 0.0) || (f < lo && lo < 0.0)
  }

  /** At a limit on this side of zero: the output stays there. */
  predicate Caught(c: Coefficients, lo: real, hi: real, s: Registers)
  {
    var f := Step(c, s, 0.0).y1;
    (f >= hi && hi <= 0.0) || (f <= lo && lo >= 0.0)
  }

  /** The nearest limit beyond zero. */
  function Reach(lo: real, hi: real): real
  {
    if lo >= 0.0 then hi else if hi <= 0.0 then -lo else Min(-lo, hi)
  }

  /** The energy that a costly step and the one after it cost at least. */
  function Toll(c: Coefficients, lo: real, hi: real): real
  {
    Cost(c, Reach(lo, hi))
  }

  lemma TollPositive(c: Coefficients, lo: real, hi: real)
    requires Stable(c) && lo < hi
    ensures Toll(c, lo, hi) > 0.0
  {
    HalfGapPositive(c, Reach(lo, hi));
    hide Sq, HalfGap, Reach;
    SqPositive(HalfGap(c, Reach(lo, hi)));
    PositiveProduct(1.0 - c.d2, Sq(HalfGap(c, Reach(lo, hi))), Toll(c, lo, hi));
  }

  lemma TollWithin(c: Coefficients, lo: real, hi: real, h: real)
    requires Stable(c) && lo < hi && Reach(lo, hi) <= h
    ensures Toll(c, lo, hi) <= Cost(c, h)
  {
    var r := Reach(lo, hi);
    HalfGapPositive(c, r);
    hide Reach, Cost, HalfGap;
    CostGrows(c, r, h);
  }

  lemma CostGrows(c: Coefficients, r: real, h: real)
    requires Stable(c) && r <= h && HalfGap(c, r) > 0.0
    ensures Cost(c, r) <= Cost(c, h)
  {
    GapGrows(Margin(c), r, h, HalfGap(c, r), HalfGap(c, h));
    hide Sq, HalfGap;
    SquareOrder(HalfGap(c, r), HalfGap(c, h));
    MulMono(1.0 - c.d2, Sq(HalfGap(c, r)), Sq(HalfGap(c, h)));
  }

  lemma GapGrows(m: real, r: real, h: real, x: real, y: real)
    requires m >= 0.0 && r <= h && x == m * r / 2.0 && y == m * h / 2.0
    ensures x <= y
  {
    MulMono(m, r, h);
  }

  lemma CostlyPays(c: Coefficients, lo: real, hi: real, s: Registers)
    requires Stable(c) && lo < hi && Drained(s) && Inside(lo, hi, s) && Costly(c, lo, hi, s)
    ensures Energy(c, TwoOn(c, lo, hi, s)) <= Energy(c, s) - Toll(c, lo, hi)
  {
    hide Energy, Cost, Step, TwoOn, Toll, Stable, Drained, Inside;
    if Step(c, s, 0.0).y1 > hi && hi > 0.0 {
      HighCost(c, lo, hi, s);
      TollWithin(c, lo, hi, hi);
    } else {
      LowCost(c, lo, hi, s);
      TollWithin(c, lo, hi, -lo);
    }
  }

  /** The limit a caught output is at: zero clamped. */
  function Rest(lo: real, hi: real): real { Limit(lo, hi, 0.0) }

  lemma CaughtRests(c: Coefficients, lo: real, hi: real, s: Registers)
    requires lo <= hi && Caught(c, lo, hi, s)
    ensures ClampedStep(c, lo, hi, s, 0.0).y1 == Rest(lo, hi)
    ensures Rest(lo, hi) == if hi <= 0.0 then hi else lo
    ensures hi <= 0.0 || lo >= 0.0
  {
    hide Output;
  }

  /** An output at rest at such a limit is at rest for good. */
  lemma StaysAtRest(c: Coefficients, lo: real, hi: real, s: Registers)
    requires Stable(c) && c.d2 >= 0.0 && Drained(s) && Inside(lo, hi, s)
    requires (hi <= 0.0 || lo >= 0.0) && s.y1 == Rest(lo, hi)
    ensures ClampedStep(c, lo, hi, s, 0.0).y1 == Rest(lo, hi)
  {
    FreeStep(c, s);
    if hi <= 0.0 {
      PastLimit(c.d1, c.d2, -hi, -s.y2);
    } else {
      PastLimit(c.d1, c.d2, lo, s.y2);
    }
    hide Output;
  }

  /** Two outputs at or beyond a limit h >= 0, the newer one at it, lead to at most h. */
  lemma PastLimit(d1: real, d2: real, h: real, o: real)
    requires Abs(d1) < 1.0 + d2 && d2 >= 0.0 && h >= 0.0 && o >= h
    ensures -d1 * h - d2 * o <= h
  {
    MulMono(d2, h, o);
    MulMono(h, -d1, 1.0 + d2);
  }

  // ---------- Settling ----------

  lemma {:induction false} ClampedFreeRun(c: Coefficients, lo: real, hi: real, s: Registers, n: nat)
    requires Stable(c) && Drained(s) && Inside(lo, hi, s)
    ensures var r := ClampedRun(c, lo, hi, s, Zero(), n);
            Drained(r) && Inside(lo, hi, r) && Energy(c, r) <= Energy(c, s)
  {
    if n > 0 {
      hide ClampedStep, Energy, Drained, Inside, Sq;
      ClampedFreeRun(c, lo, hi, s, n - 1);
      var r := ClampedRun(c, lo, hi, s, Zero(), n - 1);
      ClampedStepFalls(c, lo, hi, r);
    }
  }

  lemma ClampedStepFalls(c: Coefficients, lo: real, hi: real, s: Registers)
    requires Stable(c) && Drained(s) && Inside(lo, hi, s)
    ensures var r := ClampedStep(c, lo, hi, s, 0.0);
            Drained(r) && Inside(lo, hi, r) && Energy(c, r) <= Energy(c, s)
  {
    hide ClampedStep, Energy, Drained, Inside, Sq;
    ClampedEnergyStep(c, lo, hi, s);
    var w := ClampedStep(c, lo, hi, s, 0.0).y1 - s.y2;
    SqNonneg(w);
    MulMono(1.0 - c.d2, 0.0, Sq(w));
  }

  /** A run that meets no limit is a run of the unclamped filter. */
  lemma {:induction false} UnclampedRun(c: Coefficients, lo: real, hi: real, s: Registers, n: nat)
    requires forall i: nat :: i < n ==>
      var r := ClampedRun(c, lo, hi, s, Zero(), i); !Costly(c, lo, hi, r) && !Caught(c, lo, hi, r)
    ensures ClampedRun(c, lo, hi, s, Zero(), n) == Run(c, s, Zero(), n)
  {
    if n > 0 {
      UnclampedRun(c, lo, hi, s, n - 1);
      var r := ClampedRun(c, lo, hi, s, Zero(), n - 1);
      assert !Costly(c, lo, hi, r) && !Caught(c, lo, hi, r);
      hide Output;
    }
  }

  /** From an energy of less than k tolls the output comes and stays within eps of its rest. */
  lemma {:induction false} SettlesWithin(c: Coefficients, lo: real, hi: real, s: Registers, k: nat, eps: real) returns (start: nat)
    requires Stable(c) && c.d2 >= 0.0 && lo < hi && Drained(s) && Inside(lo, hi, s) && eps > 0.0
    requires Energy(c, s) < k as real * Toll(c, lo, hi)
    ensures forall n: nat :: n >= start ==> Abs(ClampedRun(c, lo, hi, s, Zero(), n).y1 - Rest(lo, hi)) < eps
    decreases k
  {
    hide ClampedRun, ClampedStep, Energy, Drained, Inside, Toll, Run, Costly, Caught, Stable, Rest;
    EnergyNonneg(c, s);
    if n: nat :| Costly(c, lo, hi, ClampedRun(c, lo, hi, s, Zero(), n)) {
      var r := ClampedRun(c, lo, hi, s, Zero(), n + 2);
      TollPaid(c, lo, hi, s, n);
      Fewer(k, Toll(c, lo, hi), Energy(c, s), Energy(c, r));
      var more := SettlesWithin(c, lo, hi, r, k - 1, eps);
      start := n + 2 + more;
      forall i: nat | i >= start ensures Abs(ClampedRun(c, lo, hi, s, Zero(), i).y1 - Rest(lo, hi)) < eps {
        ClampedFreeSplit(c, lo, hi, s, n + 2, i - n - 2);
      }
    } else if n: nat :| Caught(c, lo, hi, ClampedRun(c, lo, hi, s, Zero(), n)) {
      start := n + 1;
      forall i: nat | i >= start ensures Abs(ClampedRun(c, lo, hi, s, Zero(), i).y1 - Rest(lo, hi)) < eps {
        CaughtForGood(c, lo, hi, s, n, i - n - 1);
      }
    } else {
      start := SettlesFreely(c, lo, hi, s, eps);
    }
  }

  lemma {:induction false} CaughtForGood(c: Coefficients, lo: real, hi: real, s: Registers, n: nat, m: nat)
    requires Stable(c) && c.d2 >= 0.0 && lo < hi && Drained(s) && Inside(lo, hi, s)
    requires Caught(c, lo, hi, ClampedRun(c, lo, hi, s, Zero(), n))
    ensures ClampedRun(c, lo, hi, s, Zero(), n + 1 + m).y1 == Rest(lo, hi)
    decreases m
  {
    hide ClampedStep, Drained, Inside, Caught, Stable, Rest, Energy;
    CaughtRests(c, lo, hi, ClampedRun(c, lo, hi, s, Zero(), n));
    if m > 0 {
      CaughtForGood(c, lo, hi, s, n, m - 1);
      ClampedFreeRun(c, lo, hi, s, n + m);
      StaysAtRest(c, lo, hi, ClampedRun(c, lo, hi, s, Zero(), n + m));
    }
  }

  /** A run that never meets a limit settles at zero, which is then within the limits. */
  lemma SettlesFreely(c: Coefficients, lo: real, hi: real, s: Registers, eps: real) returns (start: nat)
    requires Stable(c) && lo < hi && Drained(s) && Inside(lo, hi, s) && eps > 0.0
    requires forall n: nat :: var r := ClampedRun(c, lo, hi, s, Zero(), n); !Costly(c, lo, hi, r) && !Caught(c, lo, hi, r)
    ensures forall n: nat :: n >= start ==> Abs(ClampedRun(c, lo, hi, s, Zero(), n).y1 - Rest(lo, hi)) < eps
  {
    hide ClampedRun, Energy, Drained, Run, Costly, Caught, Stable;
    var near := if hi < 0.0 then Min(-hi, eps) else if lo > 0.0 then Min(lo, eps) else eps;
    start := FreeRunSettles(c, s, near);
    UnclampedRun(c, lo, hi, s, start);
    ClampedFreeRun(c, lo, hi, s, start);
    assert lo <= 0.0 <= hi;
    forall n: nat | n >= start ensures Abs(ClampedRun(c, lo, hi, s, Zero(), n).y1 - Rest(lo, hi)) < eps {
      UnclampedRun(c, lo, hi, s, n);
    }
  }

  lemma EnergyNonneg(c: Coefficients, s: Registers)
    requires Stable(c)
    ensures Energy(c, s) >= 0.0
  {
    hide Energy, Amplitude;
    EnergyBounds(c, s);
    MulMono(Margin(c), 0.0, Amplitude(s));
  }

  lemma ClampedFreeSplit(c: Coefficients, lo: real, hi: real, s: Registers, k: nat, n: nat)
    ensures ClampedRun(c, lo, hi, s, Zero(), k + n) == ClampedRun(c, lo, hi, ClampedRun(c, lo, hi, s, Zero(), k), Zero(), n)
  {
    hide ClampedRun;
    ClampedSplit(c, lo, hi, s, Zero(), k, n);
    ClampedExtensional(c, lo, hi, ClampedRun(c, lo, hi, s, Zero(), k), Shift(Zero(), k), Zero(), n);
  }

  lemma TollPaid(c: Coefficients, lo: real, hi: real, s: Registers, n: nat)
    requires Stable(c) && lo < hi && Drained(s) && Inside(lo, hi, s)
    requires Costly(c, lo, hi, ClampedRun(c, lo, hi, s, Zero(), n))
    ensures var r := ClampedRun(c, lo, hi, s, Zero(), n + 2);
            Drained(r) && Inside(lo, hi, r) && Energy(c, r) <= Energy(c, s) - Toll(c, lo, hi)
  {
    hide ClampedStep, Energy, Drained, Inside, Toll, Costly, Stable;
    ClampedFreeRun(c, lo, hi, s, n);
    ClampedFreeRun(c, lo, hi, s, n + 2);
    CostlyPays(c, lo, hi, ClampedRun(c, lo, hi, s, Zero(), n));
    assert ClampedRun(c, lo, hi, s, Zero(), n + 1) == ClampedStep(c, lo, hi, ClampedRun(c, lo, hi, s, Zero(), n), 0.0);
  }

  lemma Fewer(k: nat, toll: real, e: real, e': real)
    requires e < k as real * toll && e >= 0.0 && e' <= e - toll
    ensures k > 0 && e' < (k - 1) as real * toll
  {
    if k > 0 {
      assert k as real * toll == (k - 1) as real * toll + toll;
    }
  }

  /** With the command at zero and the inputs drained, the clamped output comes and stays
      within any eps > 0 of zero, or of the limit nearest to zero when zero is beyond it,
      however often it is clamped on the way. */
  lemma ClampedSettles(c: Coefficients, lo: real, hi: real, s: Registers, eps: real) returns (start: nat)
    requires Stable(c) && c.d2 >= 0.0 && lo < hi && Drained(s) && Inside(lo, hi, s) && eps > 0.0
    ensures forall n: nat :: n >= start ==> Abs(ClampedRun(c, lo, hi, s, Zero(), n).y1 - Rest(lo, hi)) < eps
  {
    hide ClampedRun, Energy, Drained, Inside, Toll, Stable, Rest;
    EnergyNonneg(c, s);
    TollPositive(c, lo, hi);
    var k := Archimedes(Energy(c, s), Toll(c, lo, hi));
    start := SettlesWithin(c, lo, hi, s, k, eps);
  }

  // ---------- Tracking a command ----------

  /** The registers measured from a constant level. */
  function Above(s: Registers, v: real): Registers
  {
    Registers(s.x1 - v, s.x2 - v, s.y1 - v, s.y2 - v)
  }

  lemma LevelStep(t: real, lo: real, hi: real, s: Registers, v: real)
    ensures Above(ClampedStep(Design(t), lo, hi, s, v), v) == ClampedStep(Design(t), lo - v, hi - v, Above(s, v), 0.0)
  {
    var c := Design(t);
    ConstantOutput(t, v);
    hide Design;
    LevelOutput(c, s, v);
    LimitShift(lo, hi, Output(c, s, v), v);
    hide Output, Limit;
  }

  lemma LevelOutput(c: Coefficients, s: Registers, v: real)
    requires Output(c, Registers(v, v, v, v), v) == v
    ensures Output(c, Above(s, v), 0.0) == Output(c, s, v) - v
  {
    Distribute(c.n1, s.x1, v);
    Distribute(c.n2, s.x2, v);
    Distribute(c.d1, s.y1, v);
    Distribute(c.d2, s.y2, v);
  }

  lemma Distribute(k: real, x: real, v: real)
    ensures k * (x - v) == k * x - k * v
  {
  }

  lemma LimitShift(lo: real, hi: real, x: real, v: real)
    ensures Limit(lo, hi, x) - v == Limit(lo - v, hi - v, x - v)
  {
  }

  lemma {:induction false} LevelRun(t: real, lo: real, hi: real, s: Registers, v: real, n: nat)
    ensures Above(ClampedRun(Design(t), lo, hi, s, Constant(v), n), v)
         == ClampedRun(Design(t), lo - v, hi - v, Above(s, v), Zero(), n)
  {
    if n > 0 {
      hide Design, ClampedStep, Above;
      LevelRun(t, lo, hi, s, v, n - 1);
      LevelStep(t, lo, hi, ClampedRun(Design(t), lo, hi, s, Constant(v), n - 1), v);
    }
  }

  /** After two steps the inputs hold the command and both outputs are inside the limits. */
  lemma TwoSteps(c: Coefficients, lo: real, hi: real, s: Registers, v: real)
    requires lo <= hi
    ensures var r := ClampedRun(c, lo, hi, s, Constant(v), 2); r.x1 == r.x2 == v && Inside(lo, hi, r)
  {
    var a := ClampedRun(c, lo, hi, s, Constant(v), 1);
    hide Output;
    assert a == ClampedStep(c, lo, hi, ClampedRun(c, lo, hi, s, Constant(v), 0), v);
    assert ClampedRun(c, lo, hi, s, Constant(v), 2) == ClampedStep(c, lo, hi, a, v);
  }

  /** The nth output under a constant command, clamped to cap either way. */
  ghost function RudderAfter(t: real, cap: real, s: Registers, v: real, n: nat): real
  {
    ClampedRun(Design(t), -cap, cap, s, Constant(v), n).y1
  }

  /** From any state, under any constant command, the clamped output converges to the clamped
      command. */
  lemma ClampedTracks(t: real, cap: real, s: Registers, v: real, eps: real) returns (start: nat)
    requires t > 0.0 && cap >= 0.0 && eps > 0.0
    ensures forall n: nat :: n >= start ==> Abs(RudderAfter(t, cap, s, v, n) - Limit(-cap, cap, v)) < eps
  {
    var c, lo, hi := Design(t), -cap - v, cap - v;
    var r := ClampedRun(c, -cap, cap, s, Constant(v), 2);
    StableIffPositive(t);
    SecondPositive(t);
    hide Design, ClampedRun, Stable;
    TwoSteps(c, -cap, cap, s, v);
    LimitShift(-cap, cap, v, v);
    if cap == 0.0 {
      start := 2;
      forall n: nat | n >= start ensures Abs(RudderAfter(t, cap, s, v, n) - Limit(-cap, cap, v)) < eps {
        NoRoom(t, s, v, n - 1);
      }
    } else {
      var more := ClampedSettles(c, lo, hi, Above(r, v), eps);
      start := 2 + more;
      forall n: nat | n >= start ensures Abs(RudderAfter(t, cap, s, v, n) - Limit(-cap, cap, v)) < eps {
        OutputAbove(t, cap, s, v, n - 2);
      }
    }
  }

  lemma NoRoom(t: real, s: Registers, v: real, n: nat)
    ensures RudderAfter(t, 0.0, s, v, n + 1) == 0.0
  {
    hide Design, Output;
  }

  lemma OutputAbove(t: real, cap: real, s: Registers, v: real, n: nat)
    ensures var r := ClampedRun(Design(t), -cap, cap, s, Constant(v), 2);
            RudderAfter(t, cap, s, v, 2 + n) - v == ClampedRun(Design(t), -cap - v, cap - v, Above(r, v), Zero(), n).y1
  {
    hide Design, ClampedRun;
    var c := Design(t);
    var r := ClampedRun(c, -cap, cap, s, Constant(v), 2);
    ClampedSplit(c, -cap, cap, s, Constant(v), 2, n);
    ClampedExtensional(c, -cap, cap, r, Shift(Constant(v), 2), Constant(v), n);
    LevelRun(t, -cap, cap, r, v, n);
  }

  lemma SecondPositive(t: real)
    ensures Design(t).d2 > 0.0
  {
    Normalised(t);
    var c, a := Design(t), A0(t);
    hide Design, A0;
    SqNonneg(t - 0.7);
    assert a * c.d2 == Sq(t - 0.7) + 0.51;
    SignOf(a, c.d2, Sq(t - 0.7) + 0.51);
  }
}
