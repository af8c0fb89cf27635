/** `$body*HH` sentences with an XOR checksum (the checksum field of section 5.2.3 of
    NMEA 0183): the validators of src/network_layer/nmea_serial_parser.py and
    src/network_layer/actuator_telemetry_receiver.py, and the checksum of
    src/network_layer/actuator_serial_serializer.py. */
module NmeaFrame {
  import opened Bits
  import opened Text

  /** The exclusive or of the character codes. */
  function Checksum(s: string): nat
  {
    if s == "" then 0 else Xor(Checksum(s[..|s| - 1]), s[|s| - 1] as int)
  }

  function HexDigit(n: nat): char
    requires n < 16
  {
    "0123456789ABCDEF"[n]
  }

  function Hex(n: nat): (h: string)
    ensures h != ""
  {
    if n < 16 then [HexDigit(n)] else Hex(n / 16) + [HexDigit(n % 16)]
  }

  /** The format 02X. */
  function Hex02(n: nat): (h: string)
    ensures |h| >= 2
  {
    if n < 16 then "0" + Hex(n) else Hex(n / 16) + [HexDigit(n % 16)]
  }

  /** Both validators. */
  predicate Validates(sentence: string)
  {
    sentence != "" && sentence[0] == '$' && '*' in sentence &&
    var parts := Split(sentence[1..], '*');
    |parts| == 2 && Hex02(Checksum(parts[0])) == Upper(Strip(parts[1]))
  }

  // ---------- The checksum ----------

  lemma {:induction false} ChecksumConcat(a: string, b: string)
    ensures Checksum(a + b) == Xor(Checksum(a), Checksum(b))
    decreases |b|
  {
    if b == "" {
      assert a + b == a;
      XorZero(Checksum(a));
    } else {
      var n := |b| - 1;
      assert (a + b)[..|a + b| - 1] == a + b[..n];
      ChecksumConcat(a, b[..n]);
      XorAssoc(Checksum(a), Checksum(b[..n]), b[n] as int);
    }
  }

  lemma ChecksumChar(c: char)
    ensures Checksum([c]) == c as int
  {
    assert [c][..0] == "";
    XorZero(c as int);
  }

  lemma {:induction false} ChecksumAscii(s: string)
    requires Ascii(s)
    ensures Checksum(s) < 128
  {
    assert Pow2(7) == 128;
    if s != "" {
      ChecksumAscii(s[..|s| - 1]);
      XorBound(Checksum(s[..|s| - 1]), s[|s| - 1] as int, 7);
    }
  }

  lemma XorLeftInjective(a: nat, b: nat, c: nat)
    requires Xor(a, b) == Xor(a, c)
    ensures b == c
  {
  }

  /** Changing one character changes the checksum. */
  lemma OneCharacterChanges(a: string, x: char, y: char, b: string)
    requires x != y
    ensures Checksum(a + [x] + b) != Checksum(a + [y] + b)
  {
    ChecksumConcat(a + [x], b);
    ChecksumConcat(a + [y], b);
    ChecksumConcat(a, [x]);
    ChecksumConcat(a, [y]);
    ChecksumChar(x);
    ChecksumChar(y);
    if Checksum(a + [x] + b) == Checksum(a + [y] + b) {
      XorComm(Checksum(a + [x]), Checksum(b));
      XorComm(Checksum(a + [y]), Checksum(b));
      XorLeftInjective(Checksum(b), Checksum(a + [x]), Checksum(a + [y]));
      XorLeftInjective(Checksum(a), x as int, y as int);
    }
  }

  /** The value a hexadecimal text stands for. */
  function HexValue(h: string): int
  {
    if h == "" then 0
    else
      var c := h[|h| - 1];
      HexValue(h[..|h| - 1]) * 16 + (if c <= '9' then c as int - 48 else c as int - 55)
  }

  lemma {:induction false} HexValueOf(n: nat)
    ensures HexValue(Hex(n)) == n
  {
    if n < 16 {
      assert Hex(n)[..0] == "";
      assert HexValue("") == 0;
      DigitValue(n);
    } else {
      var h := Hex(n / 16);
      HexValueOf(n / 16);
      assert Hex(n)[..|h|] == h;
      DigitValue(n % 16);
    }
  }

  lemma DigitValue(n: nat)
    requires n < 16
    ensures var c := HexDigit(n); (if c <= '9' then c as int - 48 else c as int - 55) == n
    ensures var c := HexDigit(n); '0' <= c <= '9' || 'A' <= c <= 'F'
  {
  }

  lemma Hex02Injective(m: nat, n: nat)
    requires Hex02(m) == Hex02(n)
    ensures m == n
  {
    Hex02Value(m);
    Hex02Value(n);
  }

  lemma Hex02Value(n: nat)
    ensures HexValue(Hex02(n)) == n
  {
    HexValueOf(n);
    if n < 16 {
      DigitValue(n);
      var h := Hex02(n);
      assert h == ['0', HexDigit(n)] && h[..1] == ['0'] && ['0'][..0] == "";
      assert HexValue(h[..1]) == 0;
    }
  }

  lemma {:induction false} HexCharacters(n: nat)
    ensures forall i :: 0 <= i < |Hex(n)| ==> '0' <= Hex(n)[i] <= '9' || 'A' <= Hex(n)[i] <= 'F'
  {
    if n < 16 {
      DigitValue(n);
    } else {
      HexCharacters(n / 16);
      DigitValue(n % 16);
    }
  }

  /** Two upper-case hexadecimal digits for every 7-bit checksum. */
  lemma Hex02Digits(n: nat)
    ensures forall i :: 0 <= i < |Hex02(n)| ==> '0' <= Hex02(n)[i] <= '9' || 'A' <= Hex02(n)[i] <= 'F'
    ensures n < 256 ==> |Hex02(n)| == 2
  {
    if n < 16 {
      DigitValue(n);
    } else {
      HexCharacters(n / 16);
      DigitValue(n % 16);
    }
  }

  // ---------- What a valid sentence is ----------

  function Sentence(body: string, tail: string): string
  {
    "$" + body + "*" + tail
  }

  lemma SentenceParts(body: string, tail: string)
    ensures Sentence(body, tail) != "" && Sentence(body, tail)[0] == '$' && '*' in Sentence(body, tail)
    ensures Split(Sentence(body, tail)[1..], '*') == Split(body, '*') + Split(tail, '*')
  {
    var s := Sentence(body, tail);
    assert s[|body| + 1] == '*';
    assert s[1..] == body + ['*'] + tail;
    SplitJoinCons(body, tail, '*');
  }

  /** A sentence is valid exactly when it is `$body*tail`, neither part holding a `*`, and
      the stripped, upper-cased tail is the checksum of the body in hexadecimal. */
  lemma ValidIff(body: string, tail: string)
    ensures Validates(Sentence(body, tail)) <==>
      Free(body, '*') && Free(tail, '*') && Hex02(Checksum(body)) == Upper(Strip(tail))
  {
    SentenceParts(body, tail);
    SplitSingle(body, '*');
    SplitSingle(tail, '*');
    if Free(body, '*') && Free(tail, '*') {
      SplitNone(body, '*');
      SplitNone(tail, '*');
    }
  }

  lemma ValidParts(s: string) returns (body: string, tail: string)
    requires Validates(s)
    ensures s == Sentence(body, tail)
    ensures Free(body, '*') && Free(tail, '*') && Hex02(Checksum(body)) == Upper(Strip(tail))
  {
    var parts := Split(s[1..], '*');
    body, tail := parts[0], parts[1];
    SplitFree(s[1..], '*');
    JoinSplit(s[1..], '*');
    assert parts == [body, tail] && [body, tail][1..] == [tail];
    assert s == [s[0]] + s[1..];
  }

  lemma {:induction false} JoinSplit(s: string, sep: char)
    ensures Join(Split(s, sep), sep) == s
  {
    if s != "" {
      JoinSplit(s[1..], sep);
      var rest := Split(s[1..], sep);
      if s[0] == sep {
        JoinCons("", rest, sep);
        assert "" + [sep] + s[1..] == s;
      } else {
        var p := [[s[0]] + rest[0]] + rest[1..];
        if |rest| > 1 {
          assert p[1..] == rest[1..];
          assert [s[0]] + rest[0] + [sep] + Join(rest[1..], sep) == [s[0]] + (rest[0] + [sep] + Join(rest[1..], sep));
        }
        assert Join(p, sep) == [s[0]] + Join(rest, sep);
      }
    }
  }

  // ---------- Error detection ----------

  /** Replacing the whole body goes unnoticed exactly when the checksum is the same. */
  lemma BodyReplaced(body: string, tail: string, body': string)
    requires Validates(Sentence(body, tail))
    ensures Validates(Sentence(body', tail)) <==> Free(body', '*') && Checksum(body') == Checksum(body)
  {
    ValidIff(body, tail);
    ValidIff(body', tail);
    if Free(body', '*') && Hex02(Checksum(body')) == Hex02(Checksum(body)) {
      Hex02Injective(Checksum(body'), Checksum(body));
    }
  }

  /** Exchanging two neighbouring characters of a body is never noticed. */
  lemma TranspositionAccepted(a: string, x: char, y: char, b: string, tail: string)
    requires Validates(Sentence(a + [x] + [y] + b, tail))
    ensures Validates(Sentence(a + [y] + [x] + b, tail))
  {
    var u, v := a + [x] + [y] + b, a + [y] + [x] + b;
    ChecksumConcat(a + [x] + [y], b);
    ChecksumConcat(a + [y] + [x], b);
    PairChecksum(a, x, y);
    PairChecksum(a, y, x);
    XorComm(x as int, y as int);
    ValidIff(u, tail);
    assert forall c :: c in v ==> c in u;
    BodyReplaced(u, tail, v);
  }

  lemma PairChecksum(a: string, x: char, y: char)
    ensures Checksum(a + [x] + [y]) == Xor(Checksum(a), Xor(x as int, y as int))
  {
    ChecksumConcat(a + [x], [y]);
    ChecksumConcat(a, [x]);
    ChecksumChar(x);
    ChecksumChar(y);
    XorAssoc(Checksum(a), x as int, y as int);
  }

  /** Any single character substitution in any valid sentence is rejected, except after the
      star where it only changes the letter case of a checksum digit or replaces one white
      space character by another. */
  lemma SingleSubstitution(s: string, i: nat, c: char)
    requires Validates(s) && i < |s| && c != s[i]
    ensures Validates(s[i := c]) <==>
      '*' in s[..i] && (UpperChar(c) == UpperChar(s[i]) || (IsSpace(s[i]) && IsSpace(c)))
  {
    hide Validates, Checksum, Hex02;
    var body, tail := ValidParts(s);
    if i <= |body| + 1 {
      assert s[..i] == ("$" + body)[..i];
      assert '*' !in s[..i];
      FrontSubstitution(body, tail, i, c);
    } else {
      assert s[..i][|body| + 1] == '*';
      var k := i - |body| - 2;
      assert s[i] == tail[k] && s[i := c] == Sentence(body, tail[k := c]);
      TailSubstitution(body, tail, k, c);
    }
  }

  /** Up to and including the star no substitution goes unnoticed. */
  lemma FrontSubstitution(body: string, tail: string, i: nat, c: char)
    requires Validates(Sentence(body, tail)) && i <= |body| + 1 && c != Sentence(body, tail)[i]
    ensures !Validates(Sentence(body, tail)[i := c])
  {
    var s := Sentence(body, tail);
    ValidIff(body, tail);
    if i == 0 {
      assert s[i := c][0] == c;
    } else if i <= |body| {
      BodySubstitution(body, tail, i - 1, c);
      assert s[i := c] == Sentence(body[i - 1 := c], tail);
    } else {
      assert s[i := c] == "$" + body + [c] + tail;
      assert '*' !in s[i := c];
    }
  }

  lemma BodySubstitution(body: string, tail: string, k: nat, c: char)
    requires Validates(Sentence(body, tail)) && k < |body| && c != body[k]
    ensures !Validates(Sentence(body[k := c], tail))
  {
    var a, b := body[..k], body[k + 1..];
    assert body == a + [body[k]] + b;
    assert body[k := c] == a + [c] + b;
    OneCharacterChanges(a, body[k], c, b);
    BodyReplaced(body, tail, body[k := c]);
  }

  lemma TailSubstitution(body: string, tail: string, k: nat, c: char)
    requires Validates(Sentence(body, tail)) && k < |tail| && c != tail[k]
    ensures Validates(Sentence(body, tail[k := c])) <==> UpperChar(c) == UpperChar(tail[k]) || (IsSpace(tail[k]) && IsSpace(c))
  {
    hide Validates, Sentence, Checksum, Hex02, Strip, IsSpace;
    var tail', h := tail[k := c], Hex02(Checksum(body));
    ValidIff(body, tail);
    ValidIff(body, tail');
    Hex02Digits(Checksum(body));
    HexSolid(h, Strip(tail));
    StripKeepsSolids(tail);
    SolidsSubstituted(tail, k, c);
    if Upper(Strip(tail')) == h {
      HexSolid(h, Strip(tail'));
      StripKeepsSolids(tail');
      assert IsSpace(tail[k]) == IsSpace(c);
    }
    CaseKeepsSpace(c, tail[k]);
    if IsSpace(tail[k]) == IsSpace(c) {
      SameShape(tail, k, c, h);
    }
  }

  predicate HexText(h: string)
  {
    forall i :: 0 <= i < |h| ==> '0' <= h[i] <= '9' || 'A' <= h[i] <= 'F'
  }

  /** A text that upper-cases to hexadecimal digits holds no white space. */
  lemma HexSolid(h: string, t: string)
    requires HexText(h) && Upper(t) == h
    ensures forall i :: 0 <= i < |t| ==> !IsSpace(t[i]) && t[i] != '*'
    ensures Solids(t) == |h|
  {
    forall i | 0 <= i < |t| ensures !IsSpace(t[i]) && t[i] != '*' {
      HexNotSpace(t[i], h[i]);
    }
    SpacesHaveNoSolids(t);
  }

  lemma CaseKeepsSpace(c: char, d: char)
    ensures UpperChar(c) == UpperChar(d) && c != d ==> !IsSpace(c) && !IsSpace(d)
  {
  }

  /** If a substitution keeps the white space of a tail in place, the tail still carries the
      checksum exactly when the digits are the same up to case. */
  lemma SameShape(tail: string, k: nat, c: char, h: string)
    requires k < |tail| && c != tail[k] && HexText(h) && Upper(Strip(tail)) == h && Free(tail, '*')
    requires IsSpace(tail[k]) == IsSpace(c)
    ensures Free(tail[k := c], '*') && Upper(Strip(tail[k := c])) == h <==> UpperChar(c) == UpperChar(tail[k]) || IsSpace(c)
  {
    hide Strip, IsSpace;
    var u, v := StripParts(tail);
    var t, tail' := Strip(tail), tail[k := c];
    HexSolid(h, t);
    assert forall x :: x in tail' ==> x == c || x in tail;
    assert tail'[k] == c;
    if k < |u| {
      assert tail[k] == u[k];
      assert tail' == u[k := c] + t + v;
      StripAround(u[k := c], t, v);
    } else if k < |u| + |t| {
      var j := k - |u|;
      assert tail[k] == t[j];
      assert tail' == u + t[j := c] + v;
      StripAround(u, t[j := c], v);
      if UpperChar(c) == h[j] {
        assert Upper(t[j := c]) == h;
        HexNotSpace(c, h[j]);
      } else {
        assert Upper(t[j := c])[j] != h[j];
      }
    } else {
      var j := k - |u| - |t|;
      assert tail[k] == v[j];
      assert tail' == u + t + v[j := c];
      StripAround(u, t, v[j := c]);
    }
    SpaceNotStar(c);
  }

  lemma SpaceNotStar(c: char)
    ensures IsSpace(c) ==> c != '*' && c != '$' && c != ','
  {
    SpaceCodes(c);
    hide IsSpace;
  }

  lemma HexNotSpace(c: char, h: char)
    requires UpperChar(c) == h && ('0' <= h <= '9' || 'A' <= h <= 'F')
    ensures !IsSpace(c) && c != '*'
  {
  }

  // ---------- The loops ----------

  /** The checksum loop. */
  method ComputeChecksum(payload: string) returns (checksum: nat)
    ensures checksum == Checksum(payload)
  {
    checksum := 0;
    var i := 0;
    while i < |payload|
      invariant 0 <= i <= |payload|
      invariant checksum == Checksum(payload[..i])
    {
      assert payload[..i + 1][..i] == payload[..i];
      checksum := Xor(checksum, payload[i] as int);
      i := i + 1;
    }
    assert payload[..i] == payload;
  }

  method ValidateChecksum(sentence: string) returns (valid: bool)
    ensures valid == Validates(sentence)
  {
    if !(sentence != "" && sentence[0] == '$') || '*' !in sentence {
      return false;
    }
    var parts := Split(sentence[1..], '*');
    if |parts| != 2 {
      return false;
    }
    var calculated := ComputeChecksum(parts[0]);
    valid := Hex02(calculated) == Upper(Strip(parts[1]));
  }
}
