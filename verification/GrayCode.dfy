/** The Gray-code shaft decoder: src/network_layer/cray_gray_code_parser.py. */
module GrayCode {
  import opened Bits
  import opened Common

  datatype Telemetry = Telemetry(
    rawGrayWord: nat,
    decodedBinaryInteger: nat,
    calibratedShaftAngleDeg: real,
    lastDecodeTimestamp: real,
    lastSyncTimestamp: Option<real>)

  /** The XOR of g, g >> 1, g >> 2, ... down to zero. */
  function Decode(g: nat): nat
  {
    if g == 0 then 0 else Xor(g, Decode(g / 2))
  }

  /** The reflected binary code of n. */
  function Encode(n: nat): nat
  {
    Xor(n, n / 2)
  }

  /** The parity of the number of one bits. */
  function Parity(n: nat): nat
  {
    if n == 0 then 0 else (n + Parity(n / 2)) % 2
  }

  /** n >> i. */
  function ShiftRight(n: nat, i: nat): nat
  {
    if i == 0 then n else ShiftRight(n / 2, i - 1)
  }

  /** The word truncated to the resolution; Python's `&` with a mask of ones is the
      remainder modulo a power of two, for negative words as well. */
  function Truncate(raw: int, bits: nat): (clean: nat)
    ensures clean < Pow2(bits)
    ensures exists k: int :: raw == clean + k * Pow2(bits)
  {
    assert raw == raw % Pow2(bits) + (raw / Pow2(bits)) * Pow2(bits);
    raw % Pow2(bits)
  }

  function AngleDeg(binary: nat, bits: nat): real
  {
    (binary as real / Pow2(bits) as real) * 360.0
  }

  /** Rounding to the nearest integer, ties to even. */
  function RoundHalfEven(x: real): int
  {
    var f := x.Floor;
    var d := x - f as real;
    if d < 0.5 || (d == 0.5 && f % 2 == 0) then f else f + 1
  }

  /** Rounding to two decimals. */
  function Round2(x: real): real
  {
    RoundHalfEven(x * 100.0) as real / 100.0
  }

  // ---------- Decode is the inverse of Encode ----------

  lemma {:induction false} DecodeHalf(g: nat)
    ensures Decode(g) / 2 == Decode(g / 2)
  {
    if g != 0 {
      DecodeHalf(g / 2);
      XorDigits(g, Decode(g / 2));
    }
  }

  lemma {:induction false} LowBitIsParity(g: nat)
    ensures Decode(g) % 2 == Parity(g)
  {
    hide Xor;
    if g != 0 {
      LowBitIsParity(g / 2);
      XorDigits(g, Decode(g / 2));
      ParitySum(g, Decode(g / 2), Parity(g / 2));
    }
  }

  lemma ParitySum(a: nat, b: nat, p: nat)
    requires b % 2 == p && p < 2
    ensures (a + b) % 2 == (a + p) % 2
  {
  }

  /** Each decoded bit is the parity of the code bits at and above its position. */
  lemma {:induction false} DecodedBitIsParity(g: nat, i: nat)
    ensures ShiftRight(Decode(g), i) % 2 == Parity(ShiftRight(g, i))
  {
    hide Decode, Parity;
    if i == 0 {
      LowBitIsParity(g);
    } else {
      DecodeHalf(g);
      DecodedBitIsParity(g / 2, i - 1);
    }
  }

  /** Decoding is linear over XOR. */
  lemma {:induction false} DecodeLinear(a: nat, b: nat)
    ensures Decode(Xor(a, b)) == Xor(Decode(a), Decode(b))
    decreases a + b
  {
    if a == 0 {
      XorZero(b);
      XorZero(Decode(b));
    } else if b == 0 {
      XorZero(a);
      XorZero(Decode(a));
    } else {
      var da, db := Decode(a / 2), Decode(b / 2);
      DecodeLinear(a / 2, b / 2);
      XorDigits(a, b);
      if Xor(a, b) == 0 {
        XorCancel(a, b);
        XorZero(b);
        XorSelf(Decode(a));
      } else {
        calc {
          Decode(Xor(a, b));
          Xor(Xor(a, b), Xor(da, db));
          { XorAssoc(a, b, Xor(da, db)); XorAssoc(b, da, db); }
          Xor(a, Xor(Xor(b, da), db));
          { XorComm(b, da); XorAssoc(da, b, db); }
          Xor(a, Xor(da, Xor(b, db)));
          { XorAssoc(a, da, Xor(b, db)); }
          Xor(Decode(a), Decode(b));
        }
      }
    }
  }

  lemma DecodeUnfold(g: nat)
    ensures Decode(g) == Xor(g, Decode(g / 2))
  {
  }

  /** Encoding a position and decoding the word gives the position. */
  lemma DecodeEncode(n: nat)
    ensures Decode(Encode(n)) == n
  {
    DecodeLinear(n, n / 2);
    DecodeUnfold(n);
    XorCancel(n, Decode(n / 2));
  }

  /** Decoding a word and encoding the position gives the word. */
  lemma EncodeDecode(g: nat)
    ensures Encode(Decode(g)) == g
  {
    DecodeHalf(g);
    DecodeUnfold(g);
    XorCancel(g, Decode(g / 2));
  }

  lemma {:induction false} DecodeBound(g: nat, bits: nat)
    requires g < Pow2(bits)
    ensures Decode(g) < Pow2(bits)
  {
    if g != 0 {
      DecodeBound(g / 2, bits - 1);
      XorBound(g, Decode(g / 2), bits);
    }
  }

  /** For every width, decoding is a bijection on the words of that width. */
  lemma DecodeBijection(bits: nat)
    ensures forall g: nat :: g < Pow2(bits) ==> Decode(g) < Pow2(bits)
    ensures forall g: nat, h: nat :: Decode(g) == Decode(h) ==> g == h
    ensures forall n: nat :: n < Pow2(bits) ==> Encode(n) < Pow2(bits) && Decode(Encode(n)) == n
  {
    forall g: nat | g < Pow2(bits) ensures Decode(g) < Pow2(bits) {
      DecodeBound(g, bits);
    }
    forall g: nat, h: nat | Decode(g) == Decode(h) ensures g == h {
      EncodeDecode(g);
      EncodeDecode(h);
    }
    forall n: nat | n < Pow2(bits) ensures Encode(n) < Pow2(bits) && Decode(Encode(n)) == n {
      XorBound(n, n / 2, bits);
      DecodeEncode(n);
    }
  }

  // ---------- Unit distance ----------

  lemma EncodeDigits(n: nat)
    ensures Encode(n) / 2 == Encode(n / 2)
    ensures Encode(n) % 2 == (n + n / 2) % 2
  {
  }

  lemma OddSum(n: nat, m: nat, x: nat, y: nat)
    requires x % 2 == (n + m) % 2 && y % 2 == (n + 1 + m) % 2
    ensures (x + y) % 2 == 1
  {
  }

  lemma EvenSum(n: nat, m: nat, x: nat, y: nat)
    requires x % 2 == (n + m) % 2 && y % 2 == (n + 1 + (m + 1)) % 2
    ensures (x + y) % 2 == 0
  {
  }

  /** Codes of adjacent positions differ in exactly one bit. */
  lemma {:induction false} AdjacentCodes(n: nat) returns (k: nat)
    ensures Xor(Encode(n), Encode(n + 1)) == Pow2(k)
    ensures Pow2(k) <= n + 1
  {
    hide Encode, Xor;
    var m, d := n / 2, Xor(Encode(n), Encode(n + 1));
    EncodeDigits(n);
    EncodeDigits(n + 1);
    XorDigits(Encode(n), Encode(n + 1));
    if n % 2 == 0 {
      k := 0;
      assert (n + 1) / 2 == m;
      XorSelf(Encode(m));
      assert d / 2 == 0;
      OddSum(n, m, Encode(n), Encode(n + 1));
    } else {
      assert (n + 1) / 2 == m + 1;
      var j := AdjacentCodes(m);
      k := j + 1;
      assert d / 2 == Pow2(j);
      EvenSum(n, m, Encode(n), Encode(n + 1));
    }
  }

  lemma EncodeZero()
    ensures Encode(0) == 0
  {
  }

  lemma {:induction false} TopCode(bits: nat)
    requires bits >= 1
    ensures Encode(Pow2(bits) - 1) == Pow2(bits - 1)
  {
    hide Encode, Xor;
    EncodeDigits(Pow2(bits) - 1);
    if bits == 1 {
      assert Encode(1) == 1 by { XorZero(1); EncodeZero(); }
    } else {
      var q := Pow2(bits - 2);
      assert Pow2(bits - 1) == 2 * q && Pow2(bits) == 4 * q;
      TopCode(bits - 1);
      HalfTop(q);
      EvenBit(Encode(4 * q - 1), 4 * q - 1 + (2 * q - 1), 3 * q - 1);
    }
  }

  lemma HalfTop(q: nat)
    requires q > 0
    ensures (4 * q - 1) / 2 == 2 * q - 1
  {
  }

  lemma EvenBit(e: nat, n: nat, h: nat)
    requires e % 2 == n % 2 && n == 2 * h
    ensures e == 2 * (e / 2)
  {
  }

  /** The position after n on a wheel of 2^bits positions. */
  function NextPosition(n: nat, bits: nat): nat
  {
    if n + 1 == Pow2(bits) then 0 else n + 1
  }

  /** A full revolution is cyclic: stepping from any position to the next, the last one to
      zero included, changes exactly one bit, so a word sampled during the change decodes
      to one of the two positions. */
  lemma CyclicUnitDistance(n: nat, bits: nat) returns (k: nat)
    requires bits >= 1 && n < Pow2(bits)
    ensures k < bits
    ensures Xor(Encode(n), Encode(NextPosition(n, bits))) == Pow2(k)
  {
    hide Encode, Xor;
    if n + 1 < Pow2(bits) {
      k := AdjacentCodes(n);
      if k >= bits {
        Pow2Monotone(bits, k);
      }
    } else {
      k := bits - 1;
      TopCode(bits);
      XorZero(Encode(n));
      assert Encode(0) == 0 by { EncodeZero(); }
    }
  }

  lemma DecodeDouble(g: nat, d: nat)
    requires Decode(g) == 2 * d + 1
    ensures Decode(2 * g) == 4 * d + 3
  {
    hide Decode, Xor;
    assert 2 * g / 2 == g;
    DecodeHalf(2 * g);
    DecodeUnfold(2 * g);
    XorDigits(2 * g, Decode(g));
    assert (2 * g + (2 * d + 1)) % 2 == 1;
  }

  lemma DecodeOne()
    ensures Decode(1) == 1
  {
  }

  lemma {:induction false} DecodePow2(k: nat)
    ensures Decode(Pow2(k)) == Pow2(k + 1) - 1
  {
    if k == 0 {
      DecodeOne();
    } else {
      hide Decode;
      DecodePow2(k - 1);
      DecodeDouble(Pow2(k - 1), Pow2(k - 1) - 1);
    }
  }

  /** A single wrong code bit k inverts exactly the decoded bits 0 .. k. */
  lemma SingleBitFault(g: nat, k: nat)
    ensures Decode(Xor(g, Pow2(k))) == Xor(Decode(g), Pow2(k + 1) - 1)
  {
    DecodeLinear(g, Pow2(k));
    DecodePow2(k);
  }

  // ---------- The angle ----------

  /** The distance of the angle from a full turn, for a word k counts below the top. */
  lemma AngleInRange(binary: nat, bits: nat)
    requires binary < Pow2(bits)
    ensures 0.0 <= AngleDeg(binary, bits) < 360.0
    ensures 360.0 - AngleDeg(binary, bits) == 360.0 * ((Pow2(bits) - binary) as real / Pow2(bits) as real)
  {
    hide Pow2;
    Complement(binary as real, Pow2(bits) as real);
  }

  lemma Complement(b: real, p: real)
    requires 0.0 <= b < p
    ensures 0.0 <= b / p < 1.0
    ensures 1.0 - b / p == (p - b) / p
  {
    Quotient(b, p);
    var x := b / p;
    assert (1.0 - x) * p == p - x * p;
    QuotientIs(p - b, p, 1.0 - x);
  }

  lemma Quotient(a: real, p: real)
    requires p > 0.0 && a >= 0.0
    ensures (a / p) * p == a && a / p >= 0.0
    ensures a > 0.0 ==> a / p > 0.0
  {
  }

  lemma PowersAt16()
    ensures Pow2(16) == 65536 && Pow2(17) == 131072
  {
    assert Pow2(4) == 16;
    assert Pow2(8) == 256;
    assert Pow2(12) == 4096;
    assert Pow2(16) == 65536;
  }

  /** The unrounded angle is below a full turn for every word; the reported one is so for
      every word exactly when the resolution is at most 16 bits. */
  lemma ReportedAngleBelowFullTurn(bits: nat)
    ensures (forall w: nat :: w < Pow2(bits) ==> Round2(AngleDeg(w, bits)) < 360.0) <==> bits <= 16
  {
    PowersAt16();
    var p := Pow2(bits) as real;
    if bits <= 16 {
      Pow2Monotone(bits, 16);
      forall w: nat | w < Pow2(bits) ensures Round2(AngleDeg(w, bits)) < 360.0 {
        AngleInRange(w, bits);
        SmallDenominator((Pow2(bits) - w) as real, p);
        RoundBelow(AngleDeg(w, bits));
      }
    } else {
      Pow2Monotone(17, bits);
      var w := Pow2(bits) - 1;
      AngleInRange(w, bits);
      LargeDenominator(p);
      RoundTop(AngleDeg(w, bits));
    }
  }

  lemma SmallDenominator(a: real, p: real)
    requires a >= 1.0 && 0.0 < p <= 65536.0
    ensures a / p >= 1.0 / 65536.0
  {
  }

  lemma LargeDenominator(p: real)
    requires p >= 131072.0
    ensures 0.0 < 1.0 / p <= 1.0 / 131072.0
  {
  }

  lemma RoundBelow(x: real)
    requires 0.0 <= x && 360.0 - x >= 360.0 / 65536.0
    ensures Round2(x) < 360.0
  {
  }

  lemma RoundTop(x: real)
    requires 0.0 < 360.0 - x <= 360.0 / 131072.0
    ensures Round2(x) == 360.0
  {
  }

  /** The reported angle is the nearest one with two decimals, with an even last digit when two
      are as near. */
  lemma RoundsToNearest(x: real) returns (k: int)
    ensures Round2(x) * 100.0 == k as real
    ensures Abs(k as real - x * 100.0) <= 0.5
    ensures Abs(k as real - x * 100.0) == 0.5 ==> k % 2 == 0
  {
    k := RoundHalfEven(x * 100.0);
  }

  // ---------- The decoder object ----------

  class CrayGrayCodeParser {
    var latest: Telemetry

    constructor (now: real)
      ensures latest == Telemetry(0, 0, 0.0, now, None)
    {
      latest := Telemetry(0, 0, 0.0, now, None);
    }

    /** Decodes one raw word. A negative shift count is an error: nothing is stored and
        nothing is returned. */
    method DecodeCrayGrayWord(raw: int, bits: int, now: real) returns (r: Option<Telemetry>)
      modifies this
      ensures bits < 0 ==> r == None && latest == old(latest)
      ensures bits >= 0 ==>
        && r == Some(latest)
        && latest.rawGrayWord == Truncate(raw, bits)
        && latest.decodedBinaryInteger == Decode(Truncate(raw, bits)) < Pow2(bits)
        && Encode(latest.decodedBinaryInteger) == Truncate(raw, bits)
        && latest.calibratedShaftAngleDeg == Round2(AngleDeg(latest.decodedBinaryInteger, bits))
        && latest.lastDecodeTimestamp == old(latest).lastDecodeTimestamp
        && latest.lastSyncTimestamp == Some(now)
    {
      hide Xor, Encode;
      if bits < 0 {
        return None;
      }
      var clean := Truncate(raw, bits);
      var binary := clean;
      var shift := clean;
      DecodeUnfold(clean);
      while shift / 2 != 0
        invariant latest == old(latest)
        invariant Xor(binary, Decode(shift / 2)) == Decode(clean)
        decreases shift
      {
        shift := shift / 2;
        DecodeUnfold(shift);
        XorAssoc(binary, shift, Decode(shift / 2));
        binary := Xor(binary, shift);
      }
      assert Decode(shift / 2) == 0;
      XorZero(binary);
      DecodeBound(clean, bits);
      EncodeDecode(clean);
      latest := latest.(
        rawGrayWord := clean,
        decodedBinaryInteger := binary,
        calibratedShaftAngleDeg := Round2(AngleDeg(binary, bits)),
        lastSyncTimestamp := Some(now));
      r := Some(latest);
    }
  }
}
