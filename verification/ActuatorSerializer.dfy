/** The proprietary command sentences: src/network_layer/actuator_serial_serializer.py. The
    engine rounds its commands, so a command is an integer number of hundredths or tenths. */
module ActuatorSerializer {
  import opened Common
  import opened Text
  import opened NmeaFrame

  function Digit(n: nat): char
    requires n < 10
  {
    "0123456789"[n]
  }

  function Digits(n: nat): (d: string)
    ensures d != ""
  {
    if n < 10 then [Digit(n)] else Digits(n / 10) + [Digit(n % 10)]
  }

  /** A non-negative number of hundredths with two decimals. */
  function Fixed2(n: nat): string
  {
    Digits(n / 100) + "." + [Digit(n / 10 % 10), Digit(n % 10)]
  }

  /** A number of tenths with one decimal. */
  function Fixed1(n: int): string
  {
    var m := if n < 0 then -n else n;
    (if n < 0 then "-" else "") + Digits(m / 10) + "." + [Digit(m % 10)]
  }

  /** "P", the manufacturer code cut to four characters, and the message type. */
  function Header(code: string, messageType: string): string
  {
    var u := Upper(code);
    "P" + (if |u| > 4 then u[..4] else u) + Upper(messageType)
  }

  function RudderFields(code: string, messageType: string, hundredths: int): seq<string>
  {
    [Header(code, messageType),
     Fixed2(if hundredths < 0 then -hundredths else hundredths),
     if hundredths >= 0 then "R" else "L",
     Fixed1(150)]
  }

  function PropulsionFields(code: string, messageType: string, torque: int, rpmCap: int, fatigue: int): seq<string>
  {
    [Header(code, messageType), Fixed1(torque), Fixed1(rpmCap), Fixed1(fatigue)]
  }

  /** The sentence for a list of fields; encoding fails on text outside ASCII. */
  function Serialize(fields: seq<string>): Option<string>
  {
    var payload := Join(fields, ',');
    if Ascii(payload) then Some("$" + payload + "*" + Hex02(Checksum(payload)) + "\r\n") else None
  }

  // ---------- Framing ----------

  /** Every sentence written is accepted by the validators, after stripping, exactly when the
      payload holds no `*`; its checksum then has exactly two digits. */
  lemma WrittenIsValid(fields: seq<string>)
    requires Serialize(fields).Some?
    ensures var payload := Join(fields, ',');
      && Strip(Serialize(fields).value) == Sentence(payload, Hex02(Checksum(payload)))
      && |Hex02(Checksum(payload))| == 2
      && (Validates(Strip(Serialize(fields).value)) <==> Free(payload, '*'))
  {
    var payload := Join(fields, ',');
    var h := Hex02(Checksum(payload));
    var s := Sentence(payload, h);
    assert Pow128(Checksum(payload)) by { ChecksumAscii(payload); }
    Hex02Digits(Checksum(payload));
    assert Serialize(fields).value == s + "\r\n";
    assert s[|s| - 1] == h[|h| - 1];
    StripTrailing(s, "\r\n");
    StripKeeps(h);
    assert Upper(h) == h;
    ValidIff(payload, h);
  }

  predicate Pow128(n: nat) { n < 128 }

  /** What a receiver does with an accepted sentence: the text before `*`, split on commas. */
  function ReceivedFields(sentence: string): (fields: seq<string>)
    ensures |fields| >= 1
  {
    Split(Split(sentence, '*')[0], ',')
  }

  /** Round trip of the fields: a receiver gets back the fields written, the header preceded
      by `$`, exactly when no field holds a comma. */
  lemma FieldsRoundTrip(fields: seq<string>)
    requires |fields| >= 1 && Serialize(fields).Some?
    requires Free(Join(fields, ','), '*')
    ensures ReceivedFields(Strip(Serialize(fields).value)) == ["$" + fields[0]] + fields[1..] <==> AllFree(fields, ',')
  {
    var payload := Join(fields, ',');
    var body, h := "$" + payload, Hex02(Checksum(payload));
    WrittenIsValid(fields);
    assert Sentence(payload, h) == body + ['*'] + h;
    hide Serialize, Join, Hex02, Checksum;
    SplitJoinCons(body, h, '*');
    SplitNone(body, '*');
    DollarFirst(fields);
    var parts := ["$" + fields[0]] + fields[1..];
    SplitJoinCount(parts, ',');
    if AllFree(fields, ',') {
      SplitJoin(parts, ',');
    }
  }

  lemma DollarFirst(fields: seq<string>)
    requires |fields| >= 1
    ensures var parts := ["$" + fields[0]] + fields[1..];
            Join(parts, ',') == "$" + Join(fields, ',') && (AllFree(parts, ',') <==> AllFree(fields, ','))
  {
    hide Join, Free;
    DollarFree(fields);
    var f, rest := fields[0], fields[1..];
    assert fields == [f] + rest;
    MarkedJoin("$", f, rest);
  }

  lemma MarkedJoin(mark: string, f: string, rest: seq<string>)
    ensures Join([mark + f] + rest, ',') == mark + Join([f] + rest, ',')
  {
  }

  lemma DollarFree(fields: seq<string>)
    requires |fields| >= 1
    ensures AllFree(["$" + fields[0]] + fields[1..], ',') <==> AllFree(fields, ',')
  {
    var parts := ["$" + fields[0]] + fields[1..];
    forall i | 0 <= i < |fields| ensures Free(parts[i], ',') <==> Free(fields[i], ',') {
      if i == 0 {
        assert forall c :: c in parts[0] <==> c == '$' || c in fields[0];
      }
    }
  }

  // ---------- The numbers ----------

  predicate Numeral(c: char)
  {
    '0' <= c <= '9' || c == '.' || c == '-'
  }

  predicate AllNumerals(s: string)
  {
    forall i :: 0 <= i < |s| ==> Numeral(s[i])
  }

  lemma {:induction false} DigitsNumerals(n: nat)
    ensures AllNumerals(Digits(n))
  {
    if n >= 10 {
      DigitsNumerals(n / 10);
    }
  }

  lemma FixedNumerals(n: int)
    ensures AllNumerals(Fixed1(n))
    ensures n >= 0 ==> AllNumerals(Fixed2(n))
  {
    hide Digits;
    DigitsNumerals((if n < 0 then -n else n) / 10);
    if n >= 0 {
      DigitsNumerals(n / 100);
    }
  }

  lemma NumeralsFree(s: string)
    requires AllNumerals(s)
    ensures Free(s, ',') && Free(s, '*') && Ascii(s)
  {
  }

  lemma {:induction false} JoinFree(fields: seq<string>, c: char)
    requires c != ',' && AllFree(fields, c)
    ensures Free(Join(fields, ','), c)
  {
    if |fields| > 1 {
      assert forall i :: 0 <= i < |fields[1..]| ==> fields[1..][i] == fields[i + 1];
      JoinFree(fields[1..], c);
      assert Free(fields[0], c);
    } else if |fields| == 1 {
      assert Free(fields[0], c);
    }
  }

  lemma {:induction false} JoinAscii(fields: seq<string>)
    requires forall i :: 0 <= i < |fields| ==> Ascii(fields[i])
    ensures Ascii(Join(fields, ','))
  {
    if |fields| > 1 {
      assert forall i :: 0 <= i < |fields[1..]| ==> fields[1..][i] == fields[i + 1];
      JoinAscii(fields[1..]);
    }
  }

  ghost predicate PlainText(s: string)
  {
    Ascii(s) && Free(s, ',') && Free(s, '*')
  }

  ghost predicate PlainTexts(fields: seq<string>)
  {
    forall i :: 0 <= i < |fields| ==> PlainText(fields[i])
  }

  /** Plain fields framed by the serializer pass the validators and come back as they were. */
  lemma SentBack(fields: seq<string>)
    requires |fields| >= 1 && PlainTexts(fields)
    ensures Serialize(fields).Some? && Validates(Strip(Serialize(fields).value))
    ensures ReceivedFields(Strip(Serialize(fields).value)) == ["$" + fields[0]] + fields[1..]
  {
    forall i | 0 <= i < |fields| ensures Ascii(fields[i]) && Free(fields[i], ',') && Free(fields[i], '*') {
      assert PlainText(fields[i]);
    }
    JoinAscii(fields);
    JoinFree(fields, '*');
    WrittenIsValid(fields);
    FieldsRoundTrip(fields);
  }

  /** The digits of a decimal text read as one number, skipping the decimal point. */
  function ReadDigits(s: string): int
  {
    if s == "" then 0
    else
      var c := s[|s| - 1];
      var rest := ReadDigits(s[..|s| - 1]);
      if c == '.' then rest else rest * 10 + (c as int - 48)
  }

  lemma {:induction false} ReadDigitsOf(n: nat)
    ensures ReadDigits(Digits(n)) == n
  {
    if n < 10 {
      assert Digits(n)[..0] == "" && ReadDigits("") == 0;
    } else {
      ReadDigitsOf(n / 10);
      ReadSnoc(Digits(n / 10), n % 10);
    }
  }

  lemma ReadSnoc(s: string, d: nat)
    requires d < 10
    ensures ReadDigits(s + [Digit(d)]) == ReadDigits(s) * 10 + d
    ensures ReadDigits(s + ".") == ReadDigits(s)
  {
  }

  /** How many characters follow the decimal point. */
  function Decimals(s: string): nat
  {
    if s == "" || s[|s| - 1] == '.' then 0 else 1 + Decimals(s[..|s| - 1])
  }

  /** Hundredths are written with two decimals, tenths with one. */
  lemma DecimalsOf(n: nat, m: int)
    ensures Decimals(Fixed2(n)) == 2 && Decimals(Fixed1(m)) == 1
  {
    hide Digits;
    var q := Digits(n / 100) + ".";
    assert Fixed2(n) == q + [Digit(n / 10 % 10)] + [Digit(n % 10)];
    AfterPoint(q, n / 10 % 10);
    AfterPoint(q + [Digit(n / 10 % 10)], n % 10);
    var a := if m < 0 then -m else m;
    var p := (if m < 0 then "-" else "") + Digits(a / 10) + ".";
    assert Fixed1(m) == p + [Digit(a % 10)];
    AfterPoint(p, a % 10);
  }

  lemma AfterPoint(s: string, d: nat)
    requires d < 10
    ensures Decimals(s + [Digit(d)]) == 1 + Decimals(s)
  {
    assert (s + [Digit(d)])[..|s|] == s;
  }

  /** A header is "P", the first four letters of the manufacturer code and the message type, in
      capitals. */
  lemma HeaderIs(code: string, messageType: string)
    ensures var h := Header(code, messageType);
      && |h| == 1 + (if |code| < 4 then |code| else 4) + |messageType|
      && h[0] == 'P'
      && (forall i :: 0 <= i < |code| && i < 4 ==> h[1 + i] == UpperChar(code[i]))
      && (forall i :: 0 <= i < |messageType| ==> h[|h| - |messageType| + i] == UpperChar(messageType[i]))
  {
  }

  lemma ReadFixed2(n: nat)
    ensures ReadDigits(Fixed2(n)) == n
  {
    hide ReadDigits, Digits;
    var q, b, c := n / 100, n / 10 % 10, n % 10;
    var a := Digits(q);
    ReadDigitsOf(q);
    ReadSnoc(a, 0);
    ReadSnoc(a + ".", b);
    ReadSnoc(a + "." + [Digit(b)], c);
    assert Fixed2(n) == a + "." + [Digit(b)] + [Digit(c)];
    DecimalSplit(n);
  }

  lemma DecimalSplit(n: nat)
    ensures ((n / 100) * 10 + n / 10 % 10) * 10 + n % 10 == n
  {
  }

  /** The rudder command carried by the fields a receiver gets. */
  function ReadRudder(fields: seq<string>): int
    requires |fields| == 4
  {
    if fields[2] == "L" then -ReadDigits(fields[1]) else ReadDigits(fields[1])
  }

  /** Command round trip: for every rudder command and every header of plain text, the
      sentence passes the validators and the fields received carry the exact command. */
  lemma RudderRoundTrip(code: string, messageType: string, hundredths: int)
    requires PlainText(Header(code, messageType))
    ensures var out := Serialize(RudderFields(code, messageType, hundredths));
      && out.Some?
      && Validates(Strip(out.value))
      && var got := ReceivedFields(Strip(out.value));
         && |got| == 4
         && got[0] == "$" + Header(code, messageType)
         && ReadRudder(got) == hundredths && Decimals(got[1]) == 2
         && got[2] == (if hundredths < 0 then "L" else "R")
         && ReadDigits(got[3]) == 150 && Decimals(got[3]) == 1
  {
    var fields := RudderFields(code, messageType, hundredths);
    var n := if hundredths < 0 then -hundredths else hundredths;
    FixedNumerals(n);
    FixedNumerals(150);
    NumeralsFree(Fixed2(n));
    NumeralsFree(Fixed1(150));
    SentBack(fields);
    ReadFixed2(n);
    ReadRate();
    DecimalsOf(n, 150);
  }

  lemma ReadRate()
    ensures ReadDigits(Fixed1(150)) == 150
  {
    assert "" + Digits(15) + "." + [Digit(0)] == Digits(15) + "." + [Digit(0)];
    ReadDigitsOf(15);
    ReadSnoc(Digits(15), 0);
    ReadSnoc(Digits(15) + ".", 0);
  }

  /** The signed number of tenths a field stands for. */
  function ReadSigned(s: string): int
  {
    if s != "" && s[0] == '-' then -ReadDigits(s[1..]) else ReadDigits(s)
  }

  lemma ReadFixed1(n: int)
    ensures ReadSigned(Fixed1(n)) == n
  {
    hide ReadDigits, Digits;
    var m := if n < 0 then -n else n;
    var a, d := Digits(m / 10), m % 10;
    var text := a + "." + [Digit(d)];
    ReadDigitsOf(m / 10);
    ReadSnoc(a, 0);
    ReadSnoc(a + ".", d);
    if n < 0 {
      assert Fixed1(n) == "-" + text;
      assert Fixed1(n)[1..] == text;
    } else {
      assert Fixed1(n) == text by { assert "" + a == a; }
      NoMinus(m / 10);
    }
  }

  lemma {:induction false} NoMinus(n: nat)
    ensures Digits(n)[0] != '-'
  {
    if n >= 10 {
      NoMinus(n / 10);
    }
  }

  /** Command round trip: for every torque, speed cap and fatigue load, negative ones included,
      the sentence passes the validators and the fields received carry the exact numbers. */
  lemma PropulsionRoundTrip(code: string, messageType: string, torque: int, rpmCap: int, fatigue: int)
    requires PlainText(Header(code, messageType))
    ensures var out := Serialize(PropulsionFields(code, messageType, torque, rpmCap, fatigue));
      && out.Some?
      && Validates(Strip(out.value))
      && var got := ReceivedFields(Strip(out.value));
         && |got| == 4
         && got[0] == "$" + Header(code, messageType)
         && ReadSigned(got[1]) == torque && ReadSigned(got[2]) == rpmCap && ReadSigned(got[3]) == fatigue
         && Decimals(got[1]) == Decimals(got[2]) == Decimals(got[3]) == 1
  {
    var fields := PropulsionFields(code, messageType, torque, rpmCap, fatigue);
    FixedNumerals(torque);
    FixedNumerals(rpmCap);
    FixedNumerals(fatigue);
    NumeralsFree(Fixed1(torque));
    NumeralsFree(Fixed1(rpmCap));
    NumeralsFree(Fixed1(fatigue));
    hide Fixed1, Serialize, Validates, Strip, ReceivedFields, ReadSigned, Header;
    SentBack(fields);
    ReadFixed1(torque);
    ReadFixed1(rpmCap);
    ReadFixed1(fatigue);
    DecimalsOf(0, torque);
    DecimalsOf(0, rpmCap);
    DecimalsOf(0, fatigue);
  }

  /** Distinct rudder commands never share a sentence. */
  lemma RudderInjective(code: string, messageType: string, m: int, n: int)
    requires PlainText(Header(code, messageType))
    requires Serialize(RudderFields(code, messageType, m)) == Serialize(RudderFields(code, messageType, n))
    ensures m == n
  {
    RudderRoundTrip(code, messageType, m);
    RudderRoundTrip(code, messageType, n);
  }

  class ActuatorSerialOutputSerializer {
    const manufacturerCode: string

    constructor (manufacturerCode: string)
      ensures this.manufacturerCode == manufacturerCode
    {
      this.manufacturerCode := manufacturerCode;
    }

    method SerializeRudderCommand(hundredths: int, messageType: string) returns (wire: Option<string>)
      ensures wire == Serialize(RudderFields(manufacturerCode, messageType, hundredths))
    {
      wire := Frame(RudderFields(manufacturerCode, messageType, hundredths));
    }

    method SerializePropulsionCommand(torque: int, rpmCap: int, fatigue: int, messageType: string) returns (wire: Option<string>)
      ensures wire == Serialize(PropulsionFields(manufacturerCode, messageType, torque, rpmCap, fatigue))
    {
      wire := Frame(PropulsionFields(manufacturerCode, messageType, torque, rpmCap, fatigue));
    }

    static method Frame(fields: seq<string>) returns (wire: Option<string>)
      ensures wire == Serialize(fields)
    {
      var payload := Join(fields, ',');
      var checksum := ComputeChecksum(payload);
      wire := if Ascii(payload) then Some("$" + payload + "*" + Hex02(checksum) + "\r\n") else None;
    }
  }
}
