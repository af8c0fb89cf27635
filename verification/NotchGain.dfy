/** What the steering notch filter does to arbitrary commands: started from rest it never
    gives out more signal energy than it was given. The four registers are read off a shorter
    inner sequence (direct form II), in which the loss has a closed form. */
module NotchGain {
  import opened Common
  import opened NotchFilter

  const REST: Registers := Registers(0.0, 0.0, 0.0, 0.0)

  /** The four latest inner values, latest first. */
  datatype Inner = Inner(v1: real, v2: real, v3: real, v4: real)

  function Fresh(c: Coefficients, h: Inner, u: real): real
  {
    u - c.d1 * h.v1 - c.d2 * h.v2
  }

  function Next(c: Coefficients, h: Inner, u: real): Inner
  {
    Inner(Fresh(c, h, u), h.v1, h.v2, h.v3)
  }

  ghost function InnerRun(c: Coefficients, u: nat -> real, n: nat): Inner
  {
    if n == 0 then Inner(0.0, 0.0, 0.0, 0.0) else Next(c, InnerRun(c, u, n - 1), u(n - 1))
  }

  /** The command and the output an inner history stands for. */
  function Feed(c: Coefficients, a: real, b: real, d: real): real
  {
    a + c.d1 * b + c.d2 * d
  }

  function Draw(c: Coefficients, a: real, b: real, d: real): real
  {
    c.n0 * a + c.n1 * b + c.n2 * d
  }

  function RegistersOf(c: Coefficients, h: Inner): Registers
  {
    Registers(Feed(c, h.v1, h.v2, h.v3), Feed(c, h.v2, h.v3, h.v4),
              Draw(c, h.v1, h.v2, h.v3), Draw(c, h.v2, h.v3, h.v4))
  }

  lemma InnerStep(c: Coefficients, h: Inner, u: real)
    ensures Step(c, RegistersOf(c, h), u) == RegistersOf(c, Next(c, h, u))
  {
    var v := Fresh(c, h, u);
    assert u == Feed(c, v, h.v1, h.v2);
    Commute(c, v, h.v1, h.v2, h.v3, h.v4);
  }

  /** The two polynomials of the filter commute, whatever their coefficients. */
  lemma Commute(c: Coefficients, a: real, b: real, d: real, e: real, f: real)
    ensures c.n0 * Feed(c, a, b, d) + c.n1 * Feed(c, b, d, e) + c.n2 * Feed(c, d, e, f)
            - c.d1 * Draw(c, b, d, e) - c.d2 * Draw(c, d, e, f) == Draw(c, a, b, d)
  {
  }

  /** The registers of a run from rest are those of its inner sequence. */
  lemma {:induction false} InnerForm(c: Coefficients, u: nat -> real, n: nat)
    ensures Run(c, REST, u, n) == RegistersOf(c, InnerRun(c, u, n))
  {
    if n > 0 {
      hide Step, RegistersOf, Next;
      InnerForm(c, u, n - 1);
      InnerStep(c, InnerRun(c, u, n - 1), u(n - 1));
    }
  }

  // ---------- Energy given and taken ----------

  /** Sum of the squares of the first n commands. */
  ghost function Supplied(u: nat -> real, n: nat): real
  {
    if n == 0 then 0.0 else Supplied(u, n - 1) + Sq(u(n - 1))
  }

  /** Sum of the squares of the first n outputs of a run from rest. */
  ghost function Delivered(c: Coefficients, u: nat -> real, n: nat): real
  {
    if n == 0 then 0.0 else Delivered(c, u, n - 1) + Sq(Run(c, REST, u, n).y1)
  }

  /** Energy stored in the two latest inner values. */
  function Stored(t: real, h: Inner): real
  {
    Sq(h.v1 - h.v2) + Sq(t) * Sq(h.v1 + h.v2)
  }

  /** Sum of the squared two-step differences of the inner sequence, scaled by t. */
  ghost function Lost(t: real, u: nat -> real, n: nat): real
  {
    if n == 0 then 0.0
    else
      var h := InnerRun(Design(t), u, n);
      Lost(t, u, n - 1) + Sq(Weight(t, h.v1, h.v3))
  }

  /** The three products the balance is made of: the squared difference, and the two parts of
      the change in stored energy. */
  function Weight(t: real, v: real, q: real): real { t * (v - q) }

  function Outer(t: real, v: real, q: real): real { (1.0 + Sq(t)) * (v * v - q * q) }

  function Cross(t: real, v: real, p: real, q: real): real { (Sq(t) - 1.0) * (v * p - p * q) }

  lemma StorageStep(t: real, h: Inner, h': Inner)
    requires h'.v2 == h.v1 && h'.v3 == h.v2
    ensures Stored(t, h') - Stored(t, h) == Outer(t, h'.v1, h'.v3) + 2.0 * Cross(t, h'.v1, h'.v2, h'.v3)
  {
    var v, p, q := h'.v1, h'.v2, h'.v3;
    var a, b := v * v - q * q, v * p - p * q;
    assert Sq(v - p) - Sq(p - q) == a - 2.0 * b;
    assert Sq(v + p) - Sq(p + q) == a + 2.0 * b;
    hide Sq;
    Expand(Sq(t), Sq(p + q), a + 2.0 * b);
    Factor(Sq(t), a, b);
  }

  lemma Factor(k: real, a: real, b: real)
    ensures a - 2.0 * b + k * (a + 2.0 * b) == (1.0 + k) * a + 2.0 * ((k - 1.0) * b)
  {
  }

  /** Command minus output, times A0. */
  lemma ScaledDifference(t: real, v: real, p: real, q: real)
    ensures var c := Design(t);
            A0(t) * (Feed(c, v, p, q) - Draw(c, v, p, q)) == 1.3 * Weight(t, v, q)
  {
    Normalised(t);
    var c, a := Design(t), A0(t);
    hide Design, A0;
    SameFactor(a, c.n1, c.d1);
    var k, m := 1.0 - c.n0, c.d2 - c.n2;
    assert a * k == 1.3 * t && a * m == -1.3 * t;
    assert Feed(c, v, p, q) - Draw(c, v, p, q) == k * v + m * q;
    Two(a, k, m, v, q, 1.3 * t);
  }

  lemma Two(a: real, k: real, m: real, v: real, q: real, x: real)
    requires a * k == x && a * m == -x
    ensures a * (k * v + m * q) == x * (v - q)
  {
    assert a * (k * v) == x * v;
    assert a * (m * q) == -x * q;
  }

  /** Command plus output, times A0. */
  lemma ScaledSum(t: real, v: real, p: real, q: real)
    ensures var c := Design(t);
            A0(t) * (Feed(c, v, p, q) + Draw(c, v, p, q))
            == 1.5 * Weight(t, v, q) + 2.0 * ((1.0 + Sq(t)) * (v + q)) + 4.0 * ((Sq(t) - 1.0) * p)
  {
    Normalised(t);
    var c, a := Design(t), A0(t);
    hide Design, A0;
    SameFactor(a, c.n1, c.d1);
    var k, l, m, x, z := 1.0 + c.n0, c.d1 + c.n1, c.d2 + c.n2, 1.5 * t, 2.0 * (1.0 + Sq(t));
    assert a * k == z + x && a * m == z - x && a * l == 4.0 * (Sq(t) - 1.0);
    assert Feed(c, v, p, q) + Draw(c, v, p, q) == k * v + l * p + m * q;
    hide Sq;
    Three(a, k, l, m, v, p, q, x, 4.0 * (Sq(t) - 1.0), z);
    assert z * (v + q) == 2.0 * ((1.0 + Sq(t)) * (v + q));
  }

  lemma Three(a: real, k: real, l: real, m: real, v: real, p: real, q: real, x: real, y: real, z: real)
    requires a * k == z + x && a * m == z - x && a * l == y
    ensures a * (k * v + l * p + m * q) == x * (v - q) + z * (v + q) + y * p
  {
    assert a * (k * v) == (z + x) * v;
    assert a * (l * p) == y * p;
    assert a * (m * q) == (z - x) * q;
  }

  lemma SameFactor(a: real, x: real, y: real)
    requires a > 0.0 && a * x == a * y
    ensures x == y
  {
  }

  /** One step: what goes in and does not come out is stored or lost, exactly. */
  lemma StepBalance(t: real, h: Inner, h': Inner)
    requires h'.v2 == h.v1 && h'.v3 == h.v2
    ensures var c := Design(t);
      Sq(A0(t)) * (Sq(Feed(c, h'.v1, h'.v2, h'.v3)) - Sq(Draw(c, h'.v1, h'.v2, h'.v3)))
      == 2.6 * t * (Stored(t, h') - Stored(t, h)) + 1.95 * Sq(Weight(t, h'.v1, h'.v3))
  {
    var c, v, p, q := Design(t), h'.v1, h'.v2, h'.v3;
    hide Design, A0, Feed, Draw, Stored, Weight, Outer, Cross, Sq;
    ScaledDifference(t, v, p, q);
    ScaledSum(t, v, p, q);
    StorageStep(t, h, h');
    ScaledSquares(A0(t), Feed(c, v, p, q), Draw(c, v, p, q));
    var w, b, e := Weight(t, v, q), (1.0 + Sq(t)) * (v + q), (Sq(t) - 1.0) * p;
    Expand3(w, b, e);
    SqIs(w);
    WeightProducts(t, v, p, q);
    Compose(w * b, w * e, t, Outer(t, v, q), Cross(t, v, p, q));
  }

  lemma WeightProducts(t: real, v: real, p: real, q: real)
    ensures Weight(t, v, q) * ((1.0 + Sq(t)) * (v + q)) == t * Outer(t, v, q)
    ensures Weight(t, v, q) * ((Sq(t) - 1.0) * p) == t * Cross(t, v, p, q)
  {
    hide Sq;
    var w := v - q;
    Move(t, w, 1.0 + Sq(t), v + q);
    Move(t, w, Sq(t) - 1.0, p);
    assert w * (v + q) == v * v - q * q;
    assert w * p == v * p - p * q;
  }

  lemma Compose(wb: real, we: real, t: real, b: real, e: real)
    requires wb == t * b && we == t * e
    ensures 2.6 * wb + 5.2 * we == 2.6 * t * (b + 2.0 * e)
  {
  }

  lemma SqIs(x: real)
    ensures Sq(x) == x * x
  {
  }

  lemma ScaledSquares(a: real, f: real, d: real)
    ensures Sq(a) * (Sq(f) - Sq(d)) == (a * (f - d)) * (a * (f + d))
  {
    SquareDifference(f, d);
    Regroup(a, f - d, f + d);
  }

  lemma Regroup(a: real, x: real, y: real)
    ensures Sq(a) * (x * y) == (a * x) * (a * y)
  {
  }

  lemma Expand3(m: real, b: real, e: real)
    ensures (1.3 * m) * (1.5 * m + 2.0 * b + 4.0 * e) == 1.95 * (m * m) + 2.6 * (m * b) + 5.2 * (m * e)
  {
  }

  lemma Move(t: real, w: real, k: real, x: real)
    ensures (t * w) * (k * x) == t * (k * (w * x))
  {
  }

  /** Whole runs from rest, under any commands: A0^2 times the energy kept back is 2.6t times
      the stored energy plus 1.95 times the lost one. */
  lemma {:induction false} GainBalance(t: real, u: nat -> real, n: nat)
    ensures Sq(A0(t)) * (Supplied(u, n) - Delivered(Design(t), u, n))
            == 2.6 * t * Stored(t, InnerRun(Design(t), u, n)) + 1.95 * Lost(t, u, n)
  {
    hide *;
    if n == 0 {
      BalanceAtRest(t, u);
    } else {
      GainBalance(t, u, n - 1);
      Sums(t, u, n);
      var c := Design(t);
      var h, h' := InnerRun(c, u, n - 1), InnerRun(c, u, n);
      StepBalance(t, h, h');
      Accumulate(Sq(A0(t)), Supplied(u, n - 1) - Delivered(c, u, n - 1), Sq(u(n - 1)) - Sq(Draw(c, h'.v1, h'.v2, h'.v3)),
                 2.6 * t, Stored(t, h), Stored(t, h'), 1.95 * Lost(t, u, n - 1), 1.95 * Sq(Weight(t, h'.v1, h'.v3)));
    }
  }

  lemma BalanceAtRest(t: real, u: nat -> real)
    ensures Supplied(u, 0) == Delivered(Design(t), u, 0) == Lost(t, u, 0) == 0.0
    ensures Stored(t, InnerRun(Design(t), u, 0)) == 0.0
  {
  }

  /** The three sums, one step on. */
  lemma Sums(t: real, u: nat -> real, n: nat)
    requires n > 0
    ensures var c := Design(t);
            var h := InnerRun(c, u, n);
      && h.v2 == InnerRun(c, u, n - 1).v1 && h.v3 == InnerRun(c, u, n - 1).v2
      && u(n - 1) == Feed(c, h.v1, h.v2, h.v3)
      && Supplied(u, n) == Supplied(u, n - 1) + Sq(u(n - 1))
      && Delivered(c, u, n) == Delivered(c, u, n - 1) + Sq(Draw(c, h.v1, h.v2, h.v3))
      && Lost(t, u, n) == Lost(t, u, n - 1) + Sq(Weight(t, h.v1, h.v3))
  {
    var c := Design(t);
    InnerForm(c, u, n);
    FeedIsCommand(c, InnerRun(c, u, n - 1), u(n - 1));
    hide Design, Sq, Weight, Run, Feed, Draw;
  }

  lemma Accumulate(k: real, s: real, d: real, x: real, st: real, st': real, l: real, w: real)
    requires k * s == x * st + l && k * d == x * (st' - st) + w
    ensures k * (s + d) == x * st' + l + w
  {
  }

  lemma FeedIsCommand(c: Coefficients, h: Inner, u: real)
    ensures var h' := Next(c, h, u); Feed(c, h'.v1, h'.v2, h'.v3) == u
  {
  }

  // ---------- Gain at most one ----------

  lemma StoredNonneg(t: real, h: Inner)
    ensures Stored(t, h) >= 0.0
  {
    hide Sq;
    SqNonneg(h.v1 - h.v2);
    SqNonneg(t);
    SqNonneg(h.v1 + h.v2);
    MulMono(Sq(t), 0.0, Sq(h.v1 + h.v2));
  }

  lemma {:induction false} LostNonneg(t: real, u: nat -> real, n: nat)
    ensures Lost(t, u, n) >= 0.0
  {
    if n > 0 {
      hide Sq, Weight, Design;
      LostNonneg(t, u, n - 1);
      var h := InnerRun(Design(t), u, n);
      SqNonneg(Weight(t, h.v1, h.v3));
    }
  }

  /** From rest, the outputs never carry more energy than the commands, at any length. */
  ghost predicate GainAtMostOne(c: Coefficients)
  {
    forall u: nat -> real, n: nat :: Delivered(c, u, n) <= Supplied(u, n)
  }

  /** The filter's gain over arbitrary command sequences is at most one exactly when the
      tangent coefficient is non-negative. */
  lemma GainAtMostOneIff(t: real)
    ensures GainAtMostOne(Design(t)) <==> t >= 0.0
  {
    if t >= 0.0 {
      forall u: nat -> real, n: nat ensures Delivered(Design(t), u, n) <= Supplied(u, n) {
        NothingGained(t, u, n);
      }
    } else {
      Amplifies(t);
    }
  }

  lemma NothingGained(t: real, u: nat -> real, n: nat)
    requires t >= 0.0
    ensures Delivered(Design(t), u, n) <= Supplied(u, n)
  {
    var c := Design(t);
    GainBalance(t, u, n);
    hide Design, A0, Sq, Stored, Lost, Supplied, Delivered, InnerRun;
    StoredNonneg(t, InnerRun(c, u, n));
    LostNonneg(t, u, n);
    SqPositive(A0(t));
    MulMono(2.6 * t, 0.0, Stored(t, InnerRun(c, u, n)));
    if Supplied(u, n) < Delivered(c, u, n) {
      PositiveProduct(Sq(A0(t)), Delivered(c, u, n) - Supplied(u, n), Sq(A0(t)) * (Delivered(c, u, n) - Supplied(u, n)));
    }
  }

  /** With a negative tangent a single pulse already comes out stronger than it went in. */
  lemma Amplifies(t: real)
    requires t < 0.0
    ensures !GainAtMostOne(Design(t))
  {
    var c, u := Design(t), Constant(1.0);
    Normalised(t);
    assert Run(c, REST, u, 0) == REST && Run(c, REST, u, 1) == Step(c, REST, u(0));
    assert Run(c, REST, u, 1).y1 == c.n0;
    assert Delivered(c, u, 0) == 0.0 && Supplied(u, 0) == 0.0;
    assert Delivered(c, u, 1) == Sq(c.n0) && Supplied(u, 1) == Sq(1.0);
    hide Design, A0, Run, Delivered, Supplied;
    assert A0(t) * (c.n0 - 1.0) == -1.3 * t;
    SignOf(A0(t), c.n0 - 1.0, -1.3 * t);
    SquareAboveOne(c.n0);
    assert Delivered(c, u, 1) > Supplied(u, 1);
  }

  lemma SquareAboveOne(x: real)
    requires x > 1.0
    ensures Sq(x) > Sq(1.0)
  {
    PositiveProduct(x - 1.0, x + 1.0, (x - 1.0) * (x + 1.0));
    SquareDifference(x, 1.0);
  }
}
