/** The telemetry sentence parser: src/network_layer/nmea_serial_parser.py. Reading a decimal
    number is a function parameter; angles are exact reals with the source's value of pi. */
module NmeaParser {
  import opened Common
  import opened Bits
  import opened Text
  import opened NmeaFrame
  import opened ActuatorSerializer

  const PI: real := 3.14159

  type NumberReader = string -> Option<real>

  datatype Heading = Heading(radians: real, time: real)

  /** The cache entries this parser writes, and the last heading. */
  datatype Cache = Cache(depth: real, speed: real, yawRate: real, last: Option<Heading>)

  function EndsWith(s: string, suffix: string): bool
  {
    |s| >= |suffix| && s[|s| - |suffix|..] == suffix
  }

  /** Python's `%` on reals, for a positive modulus. */
  function FloorMod(x: real, m: real): real
    requires m > 0.0
  {
    x - m * (x / m).Floor as real
  }

  function Radians(degrees: real): real
  {
    degrees * PI / 180.0
  }

  /** The heading change folded into half a turn either way. */
  function FoldedTurn(from: real, to: real): real
  {
    FloorMod(to - from + PI, 2.0 * PI) - PI
  }

  function HeadingUpdate(c: Cache, degrees: real, now: real): Cache
  {
    var h := Radians(degrees);
    var yaw := if c.last.Some? && now - c.last.value.time > 0.001
               then FoldedTurn(c.last.value.radians, h) / (now - c.last.value.time)
               else c.yawRate;
    c.(yawRate := yaw, last := Some(Heading(h, now)))
  }

  /** The number in field i; none if the field is missing, empty or unreadable. */
  function FieldNumber(read: NumberReader, parts: seq<string>, i: nat): Option<real>
  {
    if i < |parts| && parts[i] != "" then read(parts[i]) else None
  }

  function Dispatch(read: NumberReader, c: Cache, parts: seq<string>, now: real): Cache
    requires |parts| >= 1
  {
    if EndsWith(parts[0], "HDT") then
      var n := FieldNumber(read, parts, 1);
      if n.Some? then HeadingUpdate(c, n.value, now) else c
    else if EndsWith(parts[0], "DBT") then
      var n := FieldNumber(read, parts, 3);
      if n.Some? then c.(depth := n.value) else c
    else if EndsWith(parts[0], "DPT") then
      var n := FieldNumber(read, parts, 1);
      if n.Some? then c.(depth := n.value) else c
    else if EndsWith(parts[0], "RMC") then
      var n := FieldNumber(read, parts, 7);
      if |parts| > 2 && parts[2] == "A" && n.Some? then c.(speed := n.value * 0.514444) else c
    else c
  }

  function Parsed(read: NumberReader, c: Cache, raw: string, now: real): Cache
  {
    if Validates(Strip(raw)) then Dispatch(read, c, ReceivedFields(Strip(raw)), now) else c
  }

  // ---------- The yaw rate survives the north crossing ----------

  lemma FloorModShift(x: real, m: real, k: int)
    requires m > 0.0 && 0.0 <= x < m
    ensures FloorMod(x + m * k as real, m) == x
  {
    var q := (x + m * k as real) / m;
    var r := x / m;
    assert r * m == x;
    assert q * m == x + m * k as real;
    SameQuotient(m, q, r + k as real);
    assert 0.0 <= r < 1.0 by { UnitQuotient(x, m, r); }
    assert q.Floor == k;
  }

  lemma SameQuotient(m: real, a: real, b: real)
    requires m > 0.0 && a * m == b * m
    ensures a == b
  {
  }

  lemma UnitQuotient(x: real, m: real, r: real)
    requires m > 0.0 && 0.0 <= x < m && r * m == x
    ensures 0.0 <= r < 1.0
  {
  }

  /** However many full turns the reported heading wraps through, a true turn of less than
      half a revolution between two headings gives exactly its rate; and the reported turn is
      within half a revolution whatever the headings. */
  lemma WrapRecoversTurn(c: Cache, degrees: real, turn: real, k: int, now: real)
    requires c.last.Some? && now - c.last.value.time > 0.001
    requires Radians(degrees) == c.last.value.radians + Radians(turn) + 2.0 * PI * k as real
    ensures -180.0 <= turn < 180.0 <==> HeadingUpdate(c, degrees, now).yawRate == Radians(turn) / (now - c.last.value.time)
  {
    var dt := now - c.last.value.time;
    var folded := FoldedTurn(c.last.value.radians, Radians(degrees));
    FoldedTurnRange(c.last.value.radians, Radians(degrees));
    assert Radians(degrees) - c.last.value.radians + PI == Radians(turn) + PI + (2.0 * PI) * k as real;
    if -180.0 <= turn < 180.0 {
      FloorModShift(Radians(turn) + PI, 2.0 * PI, k);
    } else if folded / dt == Radians(turn) / dt {
      SameDividend(dt, folded, Radians(turn));
    }
  }

  lemma SameDividend(d: real, x: real, y: real)
    requires d > 0.0 && x / d == y / d
    ensures x == y
  {
    assert x / d * d == x && y / d * d == y;
  }

  lemma FoldedTurnRange(from: real, to: real)
    ensures -PI <= FoldedTurn(from, to) < PI
  {
  }

  // ---------- Damage to one character of a received line ----------

  predicate Accepts(raw: string)
  {
    Validates(Strip(raw))
  }

  /** A difference the validator does not look at: the letter case of a checksum digit, or one
      white space character for another outside the sentence's body. */
  predicate Harmless(raw: string, i: nat, x: char)
    requires i < |raw|
  {
    || (IsSpace(raw[i]) && IsSpace(x) && ('$' !in raw[..i] || '*' in raw[..i]))
    || ('*' in raw[..i] && UpperChar(x) == UpperChar(raw[i]))
  }

  /** The first `$` is followed by white space and a second `$` whose characters cancel in the
      checksum, so that stripping the line without the first `$` leaves a valid sentence. */
  predicate Masks(raw: string, i: nat)
    requires i < |raw|
  {
    && raw[i] == '$' && '$' !in raw[..i]
    && var rest := StripLeft(raw[i + 1..]);
       rest != "" && rest[0] == '$' && Checksum(raw[i + 1..|raw| - |rest| + 1]) == 0
  }

  /** The damaged lines that are still accepted. */
  predicate Survives(raw: string, i: nat, x: char)
    requires i < |raw|
  {
    Harmless(raw, i, x) || (IsSpace(x) && Masks(raw, i)) || (IsSpace(raw[i]) && Masks(raw[i := x], i))
  }

  /** Trailing white space does not matter to the validators. */
  lemma ValidatesStripped(s: string)
    requires s != "" && s[0] == '$'
    ensures Validates(StripRight(s)) <==> Validates(s)
    ensures StripRight(s) != "" && StripRight(s)[0] == '$'
  {
    var v := RightCut(s);
    var t := StripRight(s);
    StripRightLength(s);
    DollarStays(s, t, v);
    if '*' in t {
      var body, tail := CutAtStar(t);
      assert s == Sentence(body, tail + v);
      StripDropsTrailing(tail, v);
      NoStarInSpaces(v);
      assert Free(tail + v, '*') <==> Free(tail, '*');
      ValidIff(body, tail);
      ValidIff(body, tail + v);
    } else {
      NoStarInSpaces(v);
      assert '*' !in s;
    }
  }

  lemma DollarStays(s: string, t: string, v: string)
    requires s != "" && s[0] == '$' && s == t + v && Spaces(v)
    ensures t != "" && t[0] == '$'
  {
    assert t == "" ==> s == v;
  }

  lemma NoStarInSpaces(v: string)
    requires Spaces(v)
    ensures '*' !in v && '$' !in v && ',' !in v
  {
    forall c | c in v ensures c != '*' && c != '$' && c != ',' {
      SpaceNotStar(c);
    }
  }

  lemma {:induction false} FirstStar(s: string) returns (k: nat)
    requires '*' in s
    ensures k < |s| && s[k] == '*' && Free(s[..k], '*')
  {
    if s[0] == '*' {
      k := 0;
    } else {
      assert s == [s[0]] + s[1..];
      var j := FirstStar(s[1..]);
      k := j + 1;
      assert s[..k] == [s[0]] + s[1..][..j];
    }
  }

  lemma CutAtStar(t: string) returns (body: string, tail: string)
    requires t != "" && t[0] == '$' && '*' in t
    ensures t == Sentence(body, tail) && Free(body, '*')
  {
    var k := FirstStar(t);
    body, tail := t[1..k], t[k + 1..];
    assert t == [t[0]] + t[1..k] + [t[k]] + t[k + 1..];
    assert t[..k] == ['$'] + body;
  }

  /** After white space, a line is accepted exactly when it goes on with a valid sentence. */
  lemma AcceptsDollar(w: string, s: string)
    requires Spaces(w) && s != "" && s[0] == '$'
    ensures Accepts(w + s) <==> Validates(s)
  {
    StripLeftAfter(w, s);
    assert StripLeft(s) == s;
    ValidatesStripped(s);
  }

  lemma AcceptsOther(w: string, s: string)
    requires Spaces(w) && s != "" && !IsSpace(s[0]) && s[0] != '$'
    ensures !Accepts(w + s)
  {
    StripLeftAfter(w, s);
    assert StripLeft(s) == s;
    var v := RightCut(s);
    assert s == StripRight(s) + v;
  }

  /** What an accepted line looks like. */
  lemma AcceptedParts(raw: string) returns (w: string, body: string, tail: string)
    requires Accepts(raw)
    ensures Spaces(w) && raw == w + Sentence(body, tail) && Validates(Sentence(body, tail))
    ensures Free(body, '*') && Free(tail, '*')
  {
    hide Validates, Strip, IsSpace, Checksum, Hex02, Free;
    var u, v := StripParts(raw);
    var b, t := ValidParts(Strip(raw));
    w, body, tail := u, b, t + v;
    Trailing(u, b, t, v);
    AcceptsDollar(w, Sentence(body, tail));
    FreeTail(t, v);
  }

  lemma FreeTail(t: string, v: string)
    requires Free(t, '*') && Spaces(v)
    ensures Free(t + v, '*')
  {
    NoStarInSpaces(v);
  }

  lemma Trailing(u: string, b: string, t: string, v: string)
    ensures u + Sentence(b, t) + v == u + Sentence(b, t + v)
    ensures Sentence(b, t + v)[0] == '$'
  {
    assert Sentence(b, t) + v == Sentence(b, t + v);
  }

  /** The checksum of a body behind a cancelling prefix is that of the body. */
  lemma PrefixedBody(p: string, body: string, tail: string)
    requires Free(p, '*') && Free(body, '*')
    ensures Validates(Sentence(p + body, tail)) && Validates(Sentence(body, tail)) ==> Checksum(p) == 0
    ensures Checksum(p) == 0 ==> (Validates(Sentence(p + body, tail)) <==> Validates(Sentence(body, tail)))
  {
    hide Validates, Sentence;
    ChecksumConcat(p, body);
    XorZero(Checksum(body));
    if Validates(Sentence(body, tail)) {
      BodyReplaced(body, tail, p + body);
      if Checksum(p + body) == Checksum(body) {
        XorComm(Checksum(p), Checksum(body));
        XorZero(Checksum(body));
        XorLeftInjective(Checksum(body), Checksum(p), 0);
      }
    } else if Validates(Sentence(p + body, tail)) && Checksum(p) == 0 {
      BodyReplaced(p + body, tail, body);
    }
  }

  /** Damage in the white space before the sentence. */
  lemma LeadingDamage(w: string, body: string, tail: string, i: nat, x: char)
    requires Spaces(w) && Free(body, '*') && Validates(Sentence(body, tail)) && i < |w|
    ensures Accepts((w + Sentence(body, tail))[i := x]) <==> Survives(w + Sentence(body, tail), i, x)
  {
    hide Validates, Checksum, Masks, Harmless, Accepts;
    var s := Sentence(body, tail);
    var raw := w + s;
    LeadingHarmless(w, s, i, x);
    assert !Masks(raw, i) by { NotDollar(raw, i); }
    if IsSpace(x) {
      assert raw[i := x] == w[i := x] + s;
      AcceptsDollar(w[i := x], s);
    } else if x == '$' {
      LeadingMask(w, body, tail, i);
    } else {
      assert raw[i := x] == w[..i] + ([x] + w[i + 1..] + s);
      AcceptsOther(w[..i], [x] + w[i + 1..] + s);
      NotDollar(raw[i := x], i);
    }
  }

  lemma NotDollar(raw: string, i: nat)
    requires i < |raw| && raw[i] != '$'
    ensures !Masks(raw, i)
  {
  }

  lemma LeadingHarmless(w: string, s: string, i: nat, x: char)
    requires Spaces(w) && i < |w|
    ensures Harmless(w + s, i, x) <==> IsSpace(x)
    ensures IsSpace((w + s)[i]) && (w + s)[i] != '$'
  {
    assert (w + s)[..i] == w[..i];
    NoStarInSpaces(w[..i]);
    SpaceNotStar(w[i]);
  }

  lemma LeadingMask(w: string, body: string, tail: string, i: nat)
    requires Spaces(w) && Free(body, '*') && Validates(Sentence(body, tail)) && i < |w|
    ensures var raw' := (w + Sentence(body, tail))[i := '$']; Accepts(raw') <==> Masks(raw', i)
  {
    hide Validates, Checksum, Accepts;
    var s, w2 := Sentence(body, tail), w[i + 1..];
    var raw', p := (w + s)[i := '$'], w2 + "$";
    assert raw' == w[..i] + Sentence(p + body, tail);
    AcceptsDollar(w[..i], Sentence(p + body, tail));
    NoStarInSpaces(w2);
    NoStarInSpaces(w[..i]);
    PrefixedBody(p, body, tail);
    MaskShape(w[..i], w2, s);
    assert raw' == w[..i] + "$" + w2 + s;
  }

  /** Masks, read off a line cut at the right places. */
  lemma MaskShape(w: string, v: string, rest: string)
    requires Spaces(w) && Spaces(v) && rest != "" && rest[0] == '$'
    ensures Masks(w + "$" + v + rest, |w|) <==> Checksum(v + "$") == 0
  {
    var raw := w + "$" + v + rest;
    hide Checksum;
    assert raw[|w|] == '$' && raw[..|w|] == w && raw[|w| + 1..] == v + rest;
    NoStarInSpaces(w);
    StripLeftAfter(v, rest);
    assert StripLeft(rest) == rest;
    assert raw[|w| + 1..|raw| - |rest| + 1] == v + "$";
  }

  /** Damage to the first character of the sentence. */
  lemma DollarDamage(w: string, body: string, tail: string, x: char)
    requires Spaces(w) && Free(body, '*') && Validates(Sentence(body, tail)) && x != '$'
    ensures Accepts((w + Sentence(body, tail))[|w| := x]) <==> Survives(w + Sentence(body, tail), |w|, x)
  {
    hide Validates, Checksum, Masks, Harmless, Accepts;
    var s, after := Sentence(body, tail), body + "*" + tail;
    var raw, i := w + s, |w|;
    DollarHarmful(w, s, x);
    NotDollar(raw[i := x], i);
    assert s == ['$'] + after;
    if IsSpace(x) {
      DollarToSpace(w, body, tail, x);
    } else {
      assert raw[i := x] == w + ([x] + after);
      AcceptsOther(w, [x] + after);
    }
  }

  lemma DollarHarmful(w: string, s: string, x: char)
    requires Spaces(w) && s != "" && s[0] == '$'
    ensures !Harmless(w + s, |w|, x) && !IsSpace((w + s)[|w|])
  {
    assert (w + s)[..|w|] == w;
    NoStarInSpaces(w);
    SpaceNotStar('$');
  }

  lemma DollarToSpace(w: string, body: string, tail: string, x: char)
    requires Spaces(w) && Free(body, '*') && Validates(Sentence(body, tail)) && IsSpace(x)
    ensures var raw := w + Sentence(body, tail); Accepts(raw[|w| := x]) <==> Masks(raw, |w|)
  {
    hide Validates, Checksum, Masks, Accepts, IsSpace;
    var after := body + "*" + tail;
    var raw, b := w + Sentence(body, tail), StripLeft(after);
    var v := LeftCut(after);
    hide StripLeft;
    NotAllSpaces(body, tail, v, b);
    assert Sentence(body, tail) == "$" + after;
    assert raw == w + ("$" + (v + b)) == w + "$" + v + b;
    assert raw[|w| := x] == (w + [x] + v) + b;
    assert Spaces(w + [x] + v);
    if b[0] == '$' {
      var rest := MaskedBody(body, tail, v, b);
      assert forall c :: c in rest ==> c in body;
      AcceptsDollar(w + [x] + v, b);
      NoStarInSpaces(v);
      PrefixedBody(v + "$", rest, tail);
      MaskShape(w, v, b);
    } else {
      AcceptsOther(w + [x] + v, b);
      NotMasked(raw, |w|, after);
    }
  }

  lemma NotMasked(raw: string, i: nat, after: string)
    requires i < |raw| && raw[i + 1..] == after && (StripLeft(after) == "" || StripLeft(after)[0] != '$')
    ensures !Masks(raw, i)
  {
  }

  lemma NotAllSpaces(body: string, tail: string, v: string, b: string)
    requires Spaces(v) && body + "*" + tail == v + b
    ensures b != "" && |v| <= |body|
  {
    var after := body + "*" + tail;
    NoStarInSpaces(v);
    assert forall i :: 0 <= i < |v| ==> after[i] == v[i] && v[i] in v;
    assert after[|body|] == '*';
  }

  lemma MaskedBody(body: string, tail: string, v: string, b: string) returns (rest: string)
    requires Spaces(v) && body + "*" + tail == v + b && b != "" && b[0] == '$' && |v| <= |body|
    ensures body == (v + "$") + rest && b == Sentence(rest, tail)
  {
    var after := body + "*" + tail;
    assert after[|v|] == '$' && after[|body|] == '*';
    assert body == after[..|body|] && v == after[..|v|] && b == after[|v|..];
    rest := body[|v| + 1..];
    assert body[..|v|] == v && body[|v|] == '$';
    assert body == body[..|v|] + [body[|v|]] + body[|v| + 1..];
    assert b == body[|v|..] + "*" + tail;
    assert body[|v|..] == ['$'] + body[|v| + 1..];
  }

  /** Damage further on in the sentence. */
  lemma InnerDamage(w: string, s: string, i: nat, x: char)
    requires Spaces(w) && Validates(s) && |w| < i < |w| + |s| && x != (w + s)[i]
    ensures Accepts((w + s)[i := x]) <==> Survives(w + s, i, x)
  {
    var raw, k := w + s, i - |w|;
    hide Validates, Checksum;
    assert s[0] == '$' by { FirstDollar(s); }
    assert raw[i := x] == w + s[k := x];
    AcceptsDollar(w, s[k := x]);
    SingleSubstitution(s, k, x);
    assert raw[..i] == w + s[..k] && raw[i := x][..i] == w + s[..k];
    NoStarInSpaces(w);
    assert s[..k][0] == '$';
  }

  lemma FirstDollar(s: string)
    requires Validates(s)
    ensures s != "" && s[0] == '$'
  {
  }

  /** Exactly which lines damaged in one character are still accepted. */
  lemma DamageDetected(raw: string, i: nat, x: char)
    requires Accepts(raw) && i < |raw| && x != raw[i]
    ensures Accepts(raw[i := x]) <==> Survives(raw, i, x)
  {
    var w, body, tail := AcceptedParts(raw);
    hide Accepts, Survives, Validates;
    if i < |w| {
      LeadingDamage(w, body, tail, i, x);
    } else if i == |w| {
      DollarDamage(w, body, tail, x);
    } else {
      InnerDamage(w, Sentence(body, tail), i, x);
    }
  }

  // ---------- A damaged line that is accepted still says the same ----------

  function Fields(raw: string): (f: seq<string>)
    ensures |f| >= 1
  {
    ReceivedFields(Strip(raw))
  }

  /** Two field lists the dispatch cannot tell apart. */
  predicate SameSense(p: seq<string>, q: seq<string>)
    requires |p| >= 1 && |q| >= 1
  {
    && p[1..] == q[1..]
    && (EndsWith(p[0], "HDT") <==> EndsWith(q[0], "HDT"))
    && (EndsWith(p[0], "DBT") <==> EndsWith(q[0], "DBT"))
    && (EndsWith(p[0], "DPT") <==> EndsWith(q[0], "DPT"))
    && (EndsWith(p[0], "RMC") <==> EndsWith(q[0], "RMC"))
  }

  lemma SenseDecides(read: NumberReader, c: Cache, p: seq<string>, q: seq<string>, now: real)
    requires |p| >= 1 && |q| >= 1 && SameSense(p, q)
    ensures Dispatch(read, c, p, now) == Dispatch(read, c, q, now)
  {
    hide EndsWith, HeadingUpdate;
    assert |p| == |q|;
    assert forall i :: 1 <= i < |p| ==> p[i] == p[1..][i - 1] && q[i] == q[1..][i - 1];
  }

  /** The fields of an accepted line come from the text between its white space and its star. */
  lemma FieldsOf(w: string, body: string, tail: string)
    requires Spaces(w) && Free(body, '*')
    ensures Fields(w + Sentence(body, tail)) == Split("$" + body, ',')
  {
    var s := Sentence(body, tail);
    StripLeftAfter(w, s);
    assert StripLeft(s) == s;
    var v := RightCut(s);
    var t := StripRight(s);
    DollarStays(s, t, v);
    assert s[|body| + 1] == '*';
    NoStarInSpaces(v);
    assert |body| + 1 < |t| by {
      assert forall j :: |t| <= j < |s| ==> s[j] == v[j - |t|] && s[j] in v;
    }
    var head, more := "$" + body, t[|body| + 2..];
    assert t == s[..|t|];
    assert t == head + ['*'] + more;
    SplitJoinCons(head, more, '*');
    SplitNone(head, '*');
  }

  lemma EndingUnchanged(p: string, f: string, suffix: string)
    requires f != "" && f[0] == '$' && '$' !in suffix
    ensures EndsWith(p + f, suffix) <==> EndsWith(f, suffix)
  {
    var g, n := p + f, |suffix|;
    if |f| >= n {
      assert g[|g| - n..] == f[|f| - n..];
    } else if |g| >= n {
      assert g[|g| - n..][n - |f|] == '$';
      assert forall j :: 0 <= j < n ==> suffix[j] in suffix;
    }
  }

  /** White space and a second `$` after the first change nothing for the dispatch. */
  lemma MaskIgnored(v: string, rest: string)
    requires Spaces(v)
    ensures SameSense(Split("$" + (v + "$" + rest), ','), Split("$" + rest, ','))
  {
    var p, q := "$" + v, Split("$" + rest, ',');
    NoStarInSpaces(v);
    assert "$" + (v + "$" + rest) == p + ("$" + rest);
    SplitConcat(p, "$" + rest, ',');
    SplitNone(p, ',');
    assert ("$" + rest)[1..] == rest;
    assert q[0][0] == '$';
    hide Split, EndsWith;
    EndingUnchanged(p, q[0], "HDT");
    EndingUnchanged(p, q[0], "DBT");
    EndingUnchanged(p, q[0], "DPT");
    EndingUnchanged(p, q[0], "RMC");
  }

  lemma SameSenseItself(p: seq<string>)
    requires |p| >= 1
    ensures SameSense(p, p)
  {
  }

  lemma LeadingSense(w: string, body: string, tail: string, i: nat, x: char)
    requires Spaces(w) && Free(body, '*') && i < |w| && (IsSpace(x) || x == '$')
    ensures var raw := w + Sentence(body, tail); SameSense(Fields(raw[i := x]), Fields(raw))
  {
    hide SameSense, Fields;
    var s := Sentence(body, tail);
    var raw := w + s;
    FieldsOf(w, body, tail);
    if IsSpace(x) {
      assert raw[i := x] == w[i := x] + s;
      FieldsOf(w[i := x], body, tail);
      SameSenseItself(Fields(raw));
    } else {
      var w2 := w[i + 1..];
      assert raw[i := x] == w[..i] + Sentence(w2 + "$" + body, tail);
      NoStarInSpaces(w2);
      FieldsOf(w[..i], w2 + "$" + body, tail);
      MaskIgnored(w2, body);
    }
  }

  lemma DollarSense(w: string, body: string, tail: string, x: char)
    requires Spaces(w) && Free(body, '*') && IsSpace(x)
    requires var b := StripLeft(body + "*" + tail); b != "" && b[0] == '$'
    ensures var raw := w + Sentence(body, tail); SameSense(Fields(raw), Fields(raw[|w| := x]))
  {
    hide SameSense, Fields, StripLeft, IsSpace;
    var after := body + "*" + tail;
    var raw, b := w + Sentence(body, tail), StripLeft(after);
    var v := LeftCut(after);
    NotAllSpaces(body, tail, v, b);
    var rest := MaskedBody(body, tail, v, b);
    assert raw[|w| := x] == w + ([x] + (v + b)) by { assert Sentence(body, tail) == ['$'] + after; }
    assert w + ([x] + (v + b)) == (w + [x] + v) + b;
    assert forall c :: c in rest ==> c in body;
    assert Spaces(w + [x] + v);
    FieldsOf(w, body, tail);
    FieldsOf(w + [x] + v, rest, tail);
    MaskIgnored(v, rest);
  }

  lemma InnerSense(w: string, body: string, tail: string, i: nat, x: char)
    requires Spaces(w) && Free(body, '*') && |w| + |body| + 1 < i < |w| + |Sentence(body, tail)|
    ensures var raw := w + Sentence(body, tail); SameSense(Fields(raw[i := x]), Fields(raw))
  {
    hide SameSense, Fields;
    var raw, k := w + Sentence(body, tail), i - |w| - |body| - 2;
    assert raw[i := x] == w + Sentence(body, tail[k := x]);
    FieldsOf(w, body, tail);
    FieldsOf(w, body, tail[k := x]);
    SameSenseItself(Fields(raw));
  }

  lemma SurvivorSense(raw: string, i: nat, x: char)
    requires Accepts(raw) && i < |raw| && x != raw[i] && Survives(raw, i, x)
    ensures SameSense(Fields(raw[i := x]), Fields(raw))
  {
    var w, body, tail := AcceptedParts(raw);
    hide Accepts, Validates, Fields, SameSense, Checksum, Survives;
    if i < |w| {
      LeadingSurvivor(w, Sentence(body, tail), i, x);
      LeadingSense(w, body, tail, i, x);
    } else if i == |w| {
      DollarSurvivor(w, body, tail, x);
      DollarSense(w, body, tail, x);
      SenseSymmetric(Fields(raw), Fields(raw[i := x]));
    } else {
      InnerSurvivor(w, body, tail, i, x);
      InnerSense(w, body, tail, i, x);
    }
  }

  lemma LeadingSurvivor(w: string, s: string, i: nat, x: char)
    requires Spaces(w) && i < |w| && Survives(w + s, i, x)
    ensures x == '$' || IsSpace(x)
  {
    hide Checksum;
    LeadingHarmless(w, s, i, x);
    hide Harmless, IsSpace;
  }

  lemma DollarSurvivor(w: string, body: string, tail: string, x: char)
    requires Spaces(w) && x != '$' && Survives(w + Sentence(body, tail), |w|, x)
    ensures IsSpace(x)
    ensures var b := StripLeft(body + "*" + tail); b != "" && b[0] == '$'
  {
    hide Checksum, Masks, Harmless, IsSpace, StripLeft;
    var raw, after := w + Sentence(body, tail), body + "*" + tail;
    DollarHarmful(w, Sentence(body, tail), x);
    NotDollar(raw[|w| := x], |w|);
    assert raw[|w| + 1..] == after by { assert raw == w + ("$" + after); }
    MaskedRest(raw, |w|, after);
  }

  lemma MaskedRest(raw: string, i: nat, after: string)
    requires i < |raw| && raw[i + 1..] == after && Masks(raw, i)
    ensures StripLeft(after) != "" && StripLeft(after)[0] == '$'
  {
  }

  lemma InnerSurvivor(w: string, body: string, tail: string, i: nat, x: char)
    requires Spaces(w) && Free(body, '*') && |w| < i < |w + Sentence(body, tail)|
    requires Survives(w + Sentence(body, tail), i, x)
    ensures i > |w| + |body| + 1
  {
    hide Checksum, IsSpace, StripLeft;
    var raw := w + Sentence(body, tail);
    assert raw[..i][|w|] == '$';
    assert raw[i := x][..i] == raw[..i];
    StarBefore(w, body, tail, i);
  }

  lemma SenseSymmetric(p: seq<string>, q: seq<string>)
    requires |p| >= 1 && |q| >= 1 && SameSense(p, q)
    ensures SameSense(q, p)
  {
  }

  lemma StarBefore(w: string, body: string, tail: string, i: nat)
    requires Spaces(w) && Free(body, '*') && i <= |w + Sentence(body, tail)| && '*' in (w + Sentence(body, tail))[..i]
    ensures i > |w| + |body| + 1
  {
    NoStarInSpaces(w);
    var raw, head := w + Sentence(body, tail), w + "$" + body;
    assert forall j :: 0 <= j < |head| ==> raw[j] == head[j] && head[j] in head;
  }

  /** Damage to any one character of any accepted line, its surrounding white space included:
      the line is either ignored, or read as the undamaged one, and exactly the surviving
      damage is read. In no case is a wrong value stored. */
  lemma DamagedLine(read: NumberReader, c: Cache, raw: string, i: nat, x: char, now: real)
    requires Accepts(raw) && i < |raw| && x != raw[i]
    ensures Parsed(read, c, raw[i := x], now) == if Survives(raw, i, x) then Parsed(read, c, raw, now) else c
  {
    DamageDetected(raw, i, x);
    hide Survives, Dispatch;
    if Survives(raw, i, x) {
      SurvivorSense(raw, i, x);
      SenseDecides(read, c, Fields(raw[i := x]), Fields(raw), now);
    }
  }

  /** A sentence with a single `$` that is damaged in one character, other than harmlessly,
      leaves the whole cache as it was. */
  lemma DamagedSentenceIgnored(read: NumberReader, c: Cache, body: string, tail: string, i: nat, x: char, now: real)
    requires Validates(Sentence(body, tail)) && '$' !in body
    requires i < |Sentence(body, tail)| && x != Sentence(body, tail)[i] && !Harmless(Sentence(body, tail), i, x)
    ensures Parsed(read, c, Sentence(body, tail)[i := x], now) == c
  {
    var s := Sentence(body, tail);
    ValidIff(body, tail);
    hide Validates, Parsed, Harmless, Checksum;
    AcceptsDollar("", s);
    assert "" + s == s;
    DamagedLine(read, c, s, i, x, now);
    if i == 0 {
      SingleDollar(body, tail);
    } else {
      assert s[..i][0] == '$' && s[i := x][..i] == s[..i];
    }
  }

  lemma SingleDollar(body: string, tail: string)
    requires '$' !in body
    ensures var b := StripLeft(Sentence(body, tail)[1..]); b == "" || b[0] != '$'
  {
    var after := body + "*" + tail;
    assert Sentence(body, tail)[1..] == after;
    var v := LeftCut(after);
    var b := StripLeft(after);
    NotAllSpaces(body, tail, v, b);
    assert b[0] == after[|v|];
    assert |v| < |body| ==> after[|v|] == body[|v|];
  }

  /** Three white space characters and a `$` whose codes cancel. */
  lemma CancellingPrefix()
    ensures Spaces("\t\r ") && Checksum("\t\r $") == 0
  {
    assert Xor(2, 3) == 1;
    assert Xor(9, 13) == 4 by { assert Xor(4, 6) == 2; }
    assert Xor(0, 4) == 4 by { XorZero(4); }
    assert Xor(4, 32) == 36 by { assert Xor(2, 16) == 18 by { assert Xor(1, 8) == 9; } }
    XorSelf(36);
    ChecksumChar('\t');
    var a, b, c, d := "\t", "\t\r", "\t\r ", "\t\r $";
    assert b[..1] == a && c[..2] == b && d[..3] == c;
  }

  /** A line whose checksum does not protect its first character: with a space for its first
      `$` it is accepted all the same. */
  lemma MaskedSentence()
    ensures var raw := "$\t\r $A*41"; Accepts(raw) && Accepts(raw[0 := ' '])
  {
    hide Accepts, Validates, Checksum, Xor;
    PlainA();
    CancellingPrefix();
    assert "\t\r $" + "A" == "\t\r $A";
    assert Free("\t\r $", '*') && Free("A", '*');
    PrefixedBody("\t\r $", "A", "41");
    AcceptsDollar("", Sentence("\t\r $A", "41"));
    AcceptsDollar(" \t\r ", Sentence("A", "41"));
    assert "" + Sentence("\t\r $A", "41") == "$\t\r $A*41";
    assert " \t\r " + Sentence("A", "41") == "$\t\r $A*41"[0 := ' '];
  }

  lemma PlainA()
    ensures Validates(Sentence("A", "41"))
  {
    ChecksumChar('A');
    StripKeeps("41");
    assert Hex(4) == "4";
    assert Hex02(65) == "41";
    ValidIff("A", "41");
  }

  class NmeaSerialDataParser {
    var cache: Cache

    constructor ()
      ensures cache == Cache(50.0, 0.0, 0.0, None)
    {
      cache := Cache(50.0, 0.0, 0.0, None);
    }

    method ParseSentence(read: NumberReader, raw: string, timestamp: real)
      modifies this
      ensures cache == Parsed(read, old(cache), raw, timestamp)
    {
      var clean := Strip(raw);
      var valid := ValidateChecksum(clean);
      if !valid {
        return;
      }
      var parts := ReceivedFields(clean);
      var talker := parts[0];
      if EndsWith(talker, "HDT") {
        var heading := FieldNumber(read, parts, 1);
        if heading.Some? {
          var radians := Radians(heading.value);
          if cache.last.Some? {
            var dt := timestamp - cache.last.value.time;
            if dt > 0.001 {
              cache := cache.(yawRate := FoldedTurn(cache.last.value.radians, radians) / dt);
            }
          }
          cache := cache.(last := Some(Heading(radians, timestamp)));
        }
      } else if EndsWith(talker, "DBT") {
        var meters := FieldNumber(read, parts, 3);
        if meters.Some? {
          cache := cache.(depth := meters.value);
        }
      } else if EndsWith(talker, "DPT") {
        var meters := FieldNumber(read, parts, 1);
        if meters.Some? {
          cache := cache.(depth := meters.value);
        }
      } else if EndsWith(talker, "RMC") {
        if |parts| > 2 && parts[2] == "A" {
          var knots := FieldNumber(read, parts, 7);
          if knots.Some? {
            cache := cache.(speed := knots.value * 0.514444);
          }
        }
      }
    }
  }
}
