/** The steering feedback receiver and its linkage-jam timer:
    src/network_layer/actuator_telemetry_receiver.py. Reading floating-point and hexadecimal
    text are function parameters. */
module ActuatorReceiver {
  import opened Common
  import opened Text
  import opened NmeaFrame
  import opened ActuatorSerializer
  import Parser = NmeaParser

  /** What float() can return. */
  datatype Reading = Finite(value: real) | Infinite | NotANumber

  type FloatReader = string -> Option<Reading>
  type HexReader = string -> Option<int>

  datatype Flag =
    | HydraulicPressureDrop | MotorCurrentOverload | ActuatorThermalCritical | FeedbackSensorFault
    | MalformedBitmask | MechanicalLinkageJam
    | LineNoiseCorruption | ParsingPayloadException

  datatype Status = Status(
    measured: Reading,
    temperature: Reading,
    hardwareFaultsActive: bool,
    faultFlags: seq<Flag>,
    linkageJammed: bool)

  const THRESHOLD_DEG := 2.5
  const MAX_ERROR_SECONDS := 1.5

  // ---------- Status flags ----------

  /** The bit of weight w, in two's complement for a negative mask. */
  predicate Bit(mask: int, w: nat)
    requires w > 0
  {
    mask / w % 2 == 1
  }

  function FlagIf(set_: bool, f: Flag): seq<Flag>
  {
    if set_ then [f] else []
  }

  function StatusFlags(mask: Option<int>): seq<Flag>
  {
    if mask.None? then [MalformedBitmask]
    else
      FlagIf(Bit(mask.value, 1), HydraulicPressureDrop)
      + FlagIf(Bit(mask.value, 2), MotorCurrentOverload)
      + FlagIf(Bit(mask.value, 4), ActuatorThermalCritical)
      + FlagIf(Bit(mask.value, 8), FeedbackSensorFault)
  }

  ghost predicate Distinct(flags: seq<Flag>)
  {
    forall i, j :: 0 <= i < j < |flags| ==> flags[i] != flags[j]
  }

  predicate IsLineFlag(f: Flag)
  {
    f.LineNoiseCorruption? || f.ParsingPayloadException?
  }

  /** The flag stands for a hardware bit, and the bit is set. */
  predicate Reported(mask: int, f: Flag)
  {
    match f
    case HydraulicPressureDrop => Bit(mask, 1)
    case MotorCurrentOverload => Bit(mask, 2)
    case ActuatorThermalCritical => Bit(mask, 4)
    case FeedbackSensorFault => Bit(mask, 8)
    case _ => false
  }

  /** The decoded list names each set bit once and nothing else; it is empty exactly when the
      low four bits are clear. */
  lemma StatusFlagsMeaning(mask: int)
    ensures Distinct(StatusFlags(Some(mask)))
    ensures forall f :: f in StatusFlags(Some(mask)) <==> Reported(mask, f)
    ensures StatusFlags(Some(mask)) == [] <==> mask % 16 == 0
  {
    forall f ensures f in StatusFlags(Some(mask)) <==> Reported(mask, f) {
      Member(mask, f);
    }
    DistinctFlags(mask);
    LowBits(mask);
    hide Bit, Distinct;
  }

  lemma Member(mask: int, f: Flag)
    ensures f in StatusFlags(Some(mask)) <==> Reported(mask, f)
  {
  }

  lemma DistinctFlags(mask: int)
    ensures Distinct(StatusFlags(Some(mask)))
  {
  }

  lemma LowBits(mask: int)
    ensures mask % 16 == 0 <==> !Bit(mask, 1) && !Bit(mask, 2) && !Bit(mask, 4) && !Bit(mask, 8)
  {
    var h, q, e := mask / 2, mask / 4, mask / 8;
    Halves(mask, h, q, e);
    assert mask == 16 * (e / 2) + 8 * (e % 2) + 4 * (q % 2) + 2 * (h % 2) + mask % 2;
  }

  lemma Halves(mask: int, h: int, q: int, e: int)
    requires h == mask / 2 && q == mask / 4 && e == mask / 8
    ensures q == h / 2 && e == q / 2
  {
  }

  // ---------- Lines ----------

  datatype Line = Corrupt | Foreign | Unparsable | Feedback(measured: Reading, mask: Option<int>, temperature: Reading)

  function ExpectedPrefix(code: string): string
  {
    var u := Upper(code);
    "P" + (if |u| > 4 then u[..4] else u) + "AK"
  }

  function ClassifyFields(prefix: string, readFloat: FloatReader, readHex: HexReader, parts: seq<string>): Line
    requires |parts| >= 1
  {
    var header := if parts[0] == "" then "" else parts[0][1..];
    if header != prefix then Foreign
    else if |parts| < 4 then Unparsable
    else
      var measured, temperature := readFloat(parts[1]), readFloat(parts[3]);
      if measured.None? || temperature.None? then Unparsable
      else Feedback(measured.value, readHex(parts[2]), temperature.value)
  }

  function Classify(prefix: string, readFloat: FloatReader, readHex: HexReader, raw: string): Line
  {
    var clean := Strip(raw);
    if !Validates(clean) then Corrupt else ClassifyFields(prefix, readFloat, readHex, ReceivedFields(clean))
  }

  /** A comparison with a not-a-number is false. */
  predicate Deviates(ordered: real, measured: Reading)
  {
    match measured
    case Finite(v) => Abs(ordered - v) > THRESHOLD_DEG
    case Infinite => true
    case NotANumber => false
  }

  // ---------- The timer ----------

  datatype State = State(seconds: real, status: Status)

  const INITIAL: State := State(0.0, Status(Finite(0.0), Finite(25.0), false, [], false))

  datatype Event = Event(line: Line, ordered: real, dt: real)

  function WithFlag(s: Status, f: Flag): Status
  {
    if f in s.faultFlags then s else s.(faultFlags := s.faultFlags + [f])
  }

  function Step(st: State, e: Event): State
  {
    match e.line
    case Corrupt => st.(status := WithFlag(st.status, LineNoiseCorruption))
    case Foreign => st
    case Unparsable => st.(status := WithFlag(st.status, ParsingPayloadException))
    case Feedback(measured, mask, temperature) =>
      var seconds := if Deviates(e.ordered, measured) then st.seconds + e.dt else 0.0;
      var jammed := Deviates(e.ordered, measured) && seconds >= MAX_ERROR_SECONDS;
      var flags := StatusFlags(mask);
      State(seconds, Status(measured, temperature, flags != [] || jammed,
                            if jammed then flags + [MechanicalLinkageJam] else flags, jammed))
  }

  function Run(st: State, events: seq<Event>): State
    decreases |events|
  {
    if events == [] then st
    else
      var n := |events| - 1;
      Step(Run(st, events[..n]), events[n])
  }

  /** Accepted feedback within tolerance. */
  predicate Settled(e: Event)
  {
    e.line.Feedback? && !Deviates(e.ordered, e.line.measured)
  }

  /** Accepted feedback out of tolerance. */
  predicate Straying(e: Event)
  {
    e.line.Feedback? && Deviates(e.ordered, e.line.measured)
  }

  /** Total time carried by the straying frames among the events. */
  function StrayingTime(events: seq<Event>): real
    decreases |events|
  {
    if events == [] then 0.0
    else
      var n := |events| - 1;
      StrayingTime(events[..n]) + if Straying(events[n]) then events[n].dt else 0.0
  }

  /** The jam law: take any history and split it after its last settled frame. The timer then
      holds the total time of the straying frames since, and the linkage is reported jammed
      exactly when that time has reached 1.5 seconds. */
  lemma {:induction false} JamExact(before: seq<Event>, streak: seq<Event>)
    requires before == [] || Settled(before[|before| - 1])
    requires forall i :: 0 <= i < |streak| ==> !Settled(streak[i])
    ensures Run(INITIAL, before + streak).seconds == StrayingTime(streak)
    ensures Run(INITIAL, before + streak).status.linkageJammed <==> StrayingTime(streak) >= MAX_ERROR_SECONDS
    decreases |streak|
  {
    var all := before + streak;
    if streak == [] {
      assert all == before;
      SettledHistory(before);
    } else {
      var n := |streak| - 1;
      assert all[..|all| - 1] == before + streak[..n];
      JamExact(before, streak[..n]);
      JamStep(Run(INITIAL, before + streak[..n]), streak[n]);
      hide Step;
    }
  }

  lemma SettledHistory(events: seq<Event>)
    requires events == [] || Settled(events[|events| - 1])
    ensures Run(INITIAL, events).seconds == 0.0 && !Run(INITIAL, events).status.linkageJammed
  {
  }

  lemma JamStep(st: State, e: Event)
    requires !Settled(e) && (st.status.linkageJammed <==> st.seconds >= MAX_ERROR_SECONDS)
    ensures var st' := Step(st, e);
      && st'.seconds == st.seconds + (if Straying(e) then e.dt else 0.0)
      && (st'.status.linkageJammed <==> st'.seconds >= MAX_ERROR_SECONDS)
  {
  }

  function OnlyFeedback(events: seq<Event>): seq<Event>
    decreases |events|
  {
    if events == [] then []
    else
      var n := |events| - 1;
      OnlyFeedback(events[..n]) + if events[n].line.Feedback? then [events[n]] else []
  }

  /** Corrupt, foreign and unparsable lines, wherever they fall, neither advance nor reset the
      timer and leave every reported value but the flag list as it was. */
  lemma {:induction false} NoiseInvisible(st: State, events: seq<Event>)
    ensures var a, b := Run(st, events), Run(st, OnlyFeedback(events));
      && a.seconds == b.seconds
      && a.status.(faultFlags := []) == b.status.(faultFlags := [])
  {
    hide Step;
    if events != [] {
      var n := |events| - 1;
      NoiseInvisible(st, events[..n]);
      var kept := OnlyFeedback(events[..n]);
      SameButFlags(Run(st, events[..n]), Run(st, kept), events[n]);
      if events[n].line.Feedback? {
        assert (kept + [events[n]])[..|kept|] == kept;
      } else {
        assert kept + [] == kept;
      }
    }
  }

  /** From states that differ in their flag lists only: accepted feedback gives equal states,
      any other line changes nothing but the flag list. */
  lemma SameButFlags(a: State, b: State, e: Event)
    requires a.seconds == b.seconds && a.status.(faultFlags := []) == b.status.(faultFlags := [])
    ensures e.line.Feedback? ==> Step(a, e) == Step(b, e)
    ensures !e.line.Feedback? ==>
      Step(a, e).seconds == a.seconds && Step(a, e).status.(faultFlags := []) == a.status.(faultFlags := [])
  {
    hide StatusFlags;
  }

  /** In every reachable state the flag list has no duplicates, names the jam exactly when the
      linkage is jammed, and holds a hardware flag exactly when hardware faults are active. */
  ghost predicate Consistent(s: Status)
  {
    && Distinct(s.faultFlags)
    && (MechanicalLinkageJam in s.faultFlags <==> s.linkageJammed)
    && (s.hardwareFaultsActive <==> exists f :: f in s.faultFlags && !IsLineFlag(f))
  }

  lemma ConsistentStep(st: State, e: Event)
    requires Consistent(st.status)
    ensures Consistent(Step(st, e).status)
  {
    hide StatusFlags, Consistent, Distinct;
    match e.line
    case Corrupt => ConsistentWithFlag(st.status, LineNoiseCorruption);
    case Foreign =>
    case Unparsable => ConsistentWithFlag(st.status, ParsingPayloadException);
    case Feedback(measured, mask, temperature) =>
      HardwareFlags(mask);
      ConsistentFeedback(StatusFlags(mask), Step(st, e).status);
  }

  lemma HardwareFlags(mask: Option<int>)
    ensures Distinct(StatusFlags(mask))
    ensures forall f :: f in StatusFlags(mask) ==> !IsLineFlag(f) && f != MechanicalLinkageJam
  {
    if mask.Some? {
      StatusFlagsMeaning(mask.value);
    }
  }

  lemma ConsistentWithFlag(s: Status, f: Flag)
    requires Consistent(s) && IsLineFlag(f)
    ensures Consistent(WithFlag(s, f))
  {
  }

  lemma ConsistentFeedback(flags: seq<Flag>, s: Status)
    requires Distinct(flags) && forall f :: f in flags ==> !IsLineFlag(f) && f != MechanicalLinkageJam
    requires s.faultFlags == if s.linkageJammed then flags + [MechanicalLinkageJam] else flags
    requires s.hardwareFaultsActive == (flags != [] || s.linkageJammed)
    ensures Consistent(s)
  {
    assert MechanicalLinkageJam !in flags;
    assert forall f :: f in s.faultFlags <==> f in flags || (s.linkageJammed && f == MechanicalLinkageJam);
    if flags != [] {
      assert flags[0] in s.faultFlags && !IsLineFlag(flags[0]);
    }
  }

  lemma {:induction false} ConsistentReachable(events: seq<Event>)
    ensures Consistent(Run(INITIAL, events).status)
  {
    if events != [] {
      var n := |events| - 1;
      ConsistentReachable(events[..n]);
      ConsistentStep(Run(INITIAL, events[..n]), events[n]);
    }
  }

  // ---------- From the wire to the status ----------

  /** A feedback sentence as the steering gear sends it: the four fields the receiver reads, and
      any it does not. */
  function Wire(code: string, angle: string, mask: string, temperature: string, more: seq<string>): Option<string>
  {
    Serialize([ExpectedPrefix(code), angle, mask, temperature] + more)
  }

  /** The header expected is the one the serializer puts on messages of type AK. */
  lemma PrefixIsHeader(code: string)
    ensures ExpectedPrefix(code) == Header(code, "AK")
  {
  }

  /** A framed sentence is read as its fields: the first after the header is the angle, the
      second the mask in hexadecimal, the third the temperature. */
  lemma WireRead(code: string, readFloat: FloatReader, readHex: HexReader, angle: string, mask: string, temperature: string, more: seq<string>)
    requires PlainTexts([ExpectedPrefix(code), angle, mask, temperature] + more)
    ensures var raw := Wire(code, angle, mask, temperature, more);
      && raw.Some?
      && Classify(ExpectedPrefix(code), readFloat, readHex, raw.value) ==
           if readFloat(angle).None? || readFloat(temperature).None? then Unparsable
           else Feedback(readFloat(angle).value, readHex(mask), readFloat(temperature).value)
  {
    var fields := [ExpectedPrefix(code), angle, mask, temperature] + more;
    hide Join, ExpectedPrefix;
    SentBack(fields);
    var parts := ["$" + fields[0]] + fields[1..];
    hide Serialize, Validates, Strip, ReceivedFields;
    assert parts[1] == angle && parts[2] == mask && parts[3] == temperature;
    assert ("$" + fields[0])[1..] == fields[0];
  }

  /** A framed sentence with another header is foreign; one cut short before the temperature
      cannot be parsed. */
  lemma WireIgnored(code: string, readFloat: FloatReader, readHex: HexReader, fields: seq<string>)
    requires |fields| >= 1 && PlainTexts(fields)
    ensures Serialize(fields).Some?
    ensures fields[0] != ExpectedPrefix(code) ==> Classify(ExpectedPrefix(code), readFloat, readHex, Serialize(fields).value) == Foreign
    ensures fields[0] == ExpectedPrefix(code) && |fields| < 4 ==>
      Classify(ExpectedPrefix(code), readFloat, readHex, Serialize(fields).value) == Unparsable
  {
    hide Join, ExpectedPrefix;
    SentBack(fields);
    hide Serialize, Validates, Strip, ReceivedFields;
    assert ("$" + fields[0])[1..] == fields[0];
  }

  /** What one feedback sentence does: the angle and the temperature it carries are reported,
      the flags are the set bits of its mask, or the malformed mask, and the jam; the timer
      runs on exactly when the angle is more than 2.5 degrees from the ordered one. */
  lemma FeedbackStored(code: string, readFloat: FloatReader, readHex: HexReader, angle: string, mask: string, temperature: string,
                       more: seq<string>, st: State, ordered: real, dt: real, value: real)
    requires PlainTexts([ExpectedPrefix(code), angle, mask, temperature] + more)
    requires readFloat(angle) == Some(Finite(value)) && readFloat(temperature).Some?
    ensures Wire(code, angle, mask, temperature, more).Some?
    ensures var raw := Wire(code, angle, mask, temperature, more);
            var st' := Step(st, Event(Classify(ExpectedPrefix(code), readFloat, readHex, raw.value), ordered, dt));
      && st'.status.measured == Finite(value)
      && st'.status.temperature == readFloat(temperature).value
      && st'.seconds == (if Abs(ordered - value) > 2.5 then st.seconds + dt else 0.0)
      && (st'.status.linkageJammed <==> Abs(ordered - value) > 2.5 && st.seconds + dt >= 1.5)
      && (forall f :: f in st'.status.faultFlags <==>
            || (readHex(mask).Some? && Reported(readHex(mask).value, f))
            || (readHex(mask).None? && f == MalformedBitmask)
            || (st'.status.linkageJammed && f == MechanicalLinkageJam))
  {
    WireRead(code, readFloat, readHex, angle, mask, temperature, more);
    hide Classify, PlainTexts, Wire, ExpectedPrefix;
    if readHex(mask).Some? {
      StatusFlagsMeaning(readHex(mask).value);
      hide Reported, Distinct;
      hide StatusFlags;
    }
  }

  /** A reading that is not a number never strays, an infinite one always does. */
  lemma OddReadings(st: State, reading: Reading, mask: Option<int>, temperature: Reading, ordered: real, dt: real)
    ensures var st' := Step(st, Event(Feedback(reading, mask, temperature), ordered, dt));
      && (reading.NotANumber? ==> st'.seconds == 0.0)
      && (reading.Infinite? ==> st'.seconds == st.seconds + dt)
  {
    hide StatusFlags;
  }

  /** One frame on the wire, with the angle its text stands for, and the order and the cycle
      time it meets. */
  datatype Frame = Frame(angle: string, mask: string, temperature: string, value: real, ordered: real, dt: real)

  ghost predicate Readable(code: string, readFloat: FloatReader, f: Frame)
  {
    && PlainTexts([ExpectedPrefix(code), f.angle, f.mask, f.temperature])
    && readFloat(f.angle) == Some(Finite(f.value)) && readFloat(f.temperature).Some?
  }

  predicate Astray(f: Frame) { Abs(f.ordered - f.value) > 2.5 }

  function EventOf(code: string, readFloat: FloatReader, readHex: HexReader, f: Frame): Event
  {
    var raw := Wire(code, f.angle, f.mask, f.temperature, []);
    Event(Classify(ExpectedPrefix(code), readFloat, readHex, if raw.Some? then raw.value else ""), f.ordered, f.dt)
  }

  function EventsOf(code: string, readFloat: FloatReader, readHex: HexReader, frames: seq<Frame>): (events: seq<Event>)
    ensures |events| == |frames|
  {
    seq(|frames|, i requires 0 <= i < |frames| => EventOf(code, readFloat, readHex, frames[i]))
  }

  function TotalTime(frames: seq<Frame>): real
    decreases |frames|
  {
    if frames == [] then 0.0 else TotalTime(frames[..|frames| - 1]) + frames[|frames| - 1].dt
  }

  lemma FrameEvent(code: string, readFloat: FloatReader, readHex: HexReader, f: Frame)
    requires Readable(code, readFloat, f)
    ensures var e := EventOf(code, readFloat, readHex, f);
            (Settled(e) <==> !Astray(f)) && (Straying(e) <==> Astray(f)) && e.dt == f.dt
  {
    var fields := [ExpectedPrefix(code), f.angle, f.mask, f.temperature];
    assert fields + [] == fields;
    WireRead(code, readFloat, readHex, f.angle, f.mask, f.temperature, []);
    hide Classify, Wire, PlainTexts, ExpectedPrefix;
  }

  lemma {:induction false} StrayTotal(code: string, readFloat: FloatReader, readHex: HexReader, frames: seq<Frame>)
    requires forall i :: 0 <= i < |frames| ==> Readable(code, readFloat, frames[i]) && Astray(frames[i])
    ensures StrayingTime(EventsOf(code, readFloat, readHex, frames)) == TotalTime(frames)
    decreases |frames|
  {
    hide EventOf, Readable, Astray, Straying;
    if frames != [] {
      var n := |frames| - 1;
      StrayTotal(code, readFloat, readHex, frames[..n]);
      FrameEvent(code, readFloat, readHex, frames[n]);
      assert EventsOf(code, readFloat, readHex, frames)[..n] == EventsOf(code, readFloat, readHex, frames[..n]);
    }
  }

  /** The jam law on the wire: after any sentences, the last of them within 2.5 degrees of the
      order, a streak of sentences further off runs the timer for exactly its total time, and
      the linkage is reported jammed exactly when that has reached 1.5 seconds. */
  lemma JamOnTheWire(code: string, readFloat: FloatReader, readHex: HexReader, before: seq<Frame>, streak: seq<Frame>)
    requires forall i :: 0 <= i < |before| ==> Readable(code, readFloat, before[i])
    requires forall i :: 0 <= i < |streak| ==> Readable(code, readFloat, streak[i]) && Astray(streak[i])
    requires before == [] || !Astray(before[|before| - 1])
    ensures var st := Run(INITIAL, EventsOf(code, readFloat, readHex, before) + EventsOf(code, readFloat, readHex, streak));
      && st.seconds == TotalTime(streak)
      && (st.status.linkageJammed <==> TotalTime(streak) >= 1.5)
  {
    hide EventOf, Readable, Astray, Straying, Settled, Run;
    var a, b := EventsOf(code, readFloat, readHex, before), EventsOf(code, readFloat, readHex, streak);
    if before != [] {
      FrameEvent(code, readFloat, readHex, before[|before| - 1]);
    }
    forall i | 0 <= i < |b| ensures !Settled(b[i]) {
      FrameEvent(code, readFloat, readHex, streak[i]);
    }
    StrayTotal(code, readFloat, readHex, streak);
    JamExact(a, b);
  }

  // ---------- Damage to one character of a line ----------

  lemma ClassifyAccepted(prefix: string, readFloat: FloatReader, readHex: HexReader, w: string, body: string, tail: string)
    requires Spaces(w) && Free(body, '*')
    ensures Classify(prefix, readFloat, readHex, w + Sentence(body, tail))
         == if Validates(Sentence(body, tail)) then ClassifyFields(prefix, readFloat, readHex, Split("$" + body, ',')) else Corrupt
  {
    hide Validates, Split, Strip;
    var s := Sentence(body, tail);
    assert s[0] == '$';
    Parser.AcceptsDollar(w, s);
    Parser.FieldsOf(w, body, tail);
  }

  /** A second `$`, with nothing but white space between it and the first, makes the header
      unlike any expected one. */
  lemma MaskedIsForeign(code: string, readFloat: FloatReader, readHex: HexReader, v: string, rest: string)
    requires Spaces(v)
    ensures ClassifyFields(ExpectedPrefix(code), readFloat, readHex, Split("$" + (v + "$" + rest), ',')) == Foreign
  {
    var text := "$" + (v + "$" + rest);
    Parser.NoStarInSpaces(v);
    assert text == ("$" + v) + ("$" + rest);
    SplitConcat("$" + v, "$" + rest, ',');
    SplitNone("$" + v, ',');
    var q := Split("$" + rest, ',');
    hide Split, StripLeft;
    var header := (("$" + v) + q[0])[1..];
    assert Split(text, ',')[0][1..] == header == v + q[0];
    if v != "" {
      assert header[0] == v[0];
      assert IsSpace(v[0]) && !IsSpace('P');
    } else {
      DollarLeads(rest);
    }
  }

  lemma DollarLeads(rest: string)
    ensures Split("$" + rest, ',')[0] != "" && Split("$" + rest, ',')[0][0] == '$'
  {
    assert ("$" + rest)[1..] == rest;
  }

  /** The receiver's law of damage to one character of an accepted line, for every line,
      position and character: damage the checksum finds is line noise, harmless damage changes
      nothing, and what is left concerns a `$` that only white space separates from another. If
      it was made of white space the line turns foreign. If it was destroyed, the line was
      foreign and turns into what follows it, which may be feedback. */
  lemma DamagedFeedback(code: string, readFloat: FloatReader, readHex: HexReader, raw: string, i: nat, x: char)
    requires Parser.Accepts(raw) && i < |raw| && x != raw[i]
    ensures var p := ExpectedPrefix(code);
      && Classify(p, readFloat, readHex, raw[i := x]) ==
           (if !Parser.Survives(raw, i, x) then Corrupt
            else if Parser.Harmless(raw, i, x) then Classify(p, readFloat, readHex, raw)
            else if raw[i] == '$' then Classify(p, readFloat, readHex, raw[i + 1..])
            else Foreign)
      && (Parser.Survives(raw, i, x) && !Parser.Harmless(raw, i, x) && raw[i] == '$' ==> Classify(p, readFloat, readHex, raw) == Foreign)
  {
    Parser.DamageDetected(raw, i, x);
    hide Parser.Accepts, Parser.Survives, Parser.Harmless, Validates, ExpectedPrefix, ClassifyFields;
    if Parser.Survives(raw, i, x) {
      var w, body, tail := Parser.AcceptedParts(raw);
      if i < |w| {
        LeadingFeedback(code, readFloat, readHex, w, body, tail, i, x);
      } else if i == |w| {
        DollarFeedback(code, readFloat, readHex, w, body, tail, x);
      } else {
        InnerFeedback(ExpectedPrefix(code), readFloat, readHex, w, body, tail, i, x);
      }
    } else {
      assert Parser.Accepts(raw[i := x]) == Validates(Strip(raw[i := x]));
    }
  }

  lemma LeadingFeedback(code: string, readFloat: FloatReader, readHex: HexReader, w: string, body: string, tail: string, i: nat, x: char)
    requires Spaces(w) && Free(body, '*') && Validates(Sentence(body, tail)) && i < |w|
    requires var raw := w + Sentence(body, tail); Parser.Survives(raw, i, x) && Parser.Accepts(raw[i := x])
    ensures var raw, p := w + Sentence(body, tail), ExpectedPrefix(code);
      && raw[i] != '$'
      && Classify(p, readFloat, readHex, raw[i := x]) == if Parser.Harmless(raw, i, x) then Classify(p, readFloat, readHex, raw) else Foreign
  {
    hide Parser.Accepts, Parser.Survives, Parser.Harmless, Validates, ExpectedPrefix, ClassifyFields, Classify;
    var s, p := Sentence(body, tail), ExpectedPrefix(code);
    var raw := w + s;
    Parser.LeadingSurvivor(w, s, i, x);
    Parser.LeadingHarmless(w, s, i, x);
    ClassifyAccepted(p, readFloat, readHex, w, body, tail);
    if IsSpace(x) {
      assert raw[i := x] == w[i := x] + s;
      ClassifyAccepted(p, readFloat, readHex, w[i := x], body, tail);
    } else {
      var v := w[i + 1..];
      Parser.NoStarInSpaces(v);
      var long := Sentence(v + "$" + body, tail);
      assert raw[i := x] == w[..i] + long;
      assert Parser.Accepts(w[..i] + long);
      assert long[0] == '$';
      Parser.AcceptsDollar(w[..i], long);
      ClassifyAccepted(p, readFloat, readHex, w[..i], v + "$" + body, tail);
      MaskedIsForeign(code, readFloat, readHex, v, body);
    }
  }

  lemma DollarFeedback(code: string, readFloat: FloatReader, readHex: HexReader, w: string, body: string, tail: string, x: char)
    requires Spaces(w) && Free(body, '*') && Validates(Sentence(body, tail)) && x != '$'
    requires Parser.Survives(w + Sentence(body, tail), |w|, x)
    ensures var raw, p := w + Sentence(body, tail), ExpectedPrefix(code);
      && raw[|w|] == '$' && !Parser.Harmless(raw, |w|, x)
      && Classify(p, readFloat, readHex, raw) == Foreign
      && Classify(p, readFloat, readHex, raw[|w| := x]) == Classify(p, readFloat, readHex, raw[|w| + 1..])
  {
    hide Parser.Survives, Parser.Harmless, Validates, ExpectedPrefix, ClassifyFields, Classify, StripLeft, IsSpace;
    var p, after := ExpectedPrefix(code), body + "*" + tail;
    var raw, b := w + Sentence(body, tail), StripLeft(after);
    var v := LeftCut(after);
    Parser.DollarSurvivor(w, body, tail, x);
    Parser.DollarHarmful(w, Sentence(body, tail), x);
    Parser.NotAllSpaces(body, tail, v, b);
    var rest := Parser.MaskedBody(body, tail, v, b);
    assert forall c :: c in rest ==> c in body;
    assert Sentence(body, tail) == ['$'] + after;
    assert raw[|w| := x] == (w + [x] + v) + b;
    assert raw[|w| + 1..] == v + b;
    ClassifyAccepted(p, readFloat, readHex, w, body, tail);
    MaskedIsForeign(code, readFloat, readHex, v, rest);
    ClassifyAccepted(p, readFloat, readHex, w + [x] + v, rest, tail);
    ClassifyAccepted(p, readFloat, readHex, v, rest, tail);
    assert body == v + "$" + rest;
  }

  lemma InnerFeedback(p: string, readFloat: FloatReader, readHex: HexReader, w: string, body: string, tail: string, i: nat, x: char)
    requires Spaces(w) && Free(body, '*') && Validates(Sentence(body, tail)) && |w| < i < |w + Sentence(body, tail)|
    requires var raw := w + Sentence(body, tail); Parser.Survives(raw, i, x) && Parser.Accepts(raw[i := x])
    ensures var raw := w + Sentence(body, tail);
            Parser.Harmless(raw, i, x) && Classify(p, readFloat, readHex, raw[i := x]) == Classify(p, readFloat, readHex, raw)
  {
    hide Parser.Accepts, Parser.Survives, Validates, ClassifyFields, Classify, IsSpace, Parser.Harmless;
    var raw := w + Sentence(body, tail);
    Parser.InnerSurvivor(w, body, tail, i, x);
    InnerHarmless(raw, |w|, i, x);
    var k := i - |w| - |body| - 2;
    var long := Sentence(body, tail[k := x]);
    assert raw[i := x] == w + long;
    assert long[0] == '$';
    Parser.AcceptsDollar(w, long);
    ClassifyAccepted(p, readFloat, readHex, w, body, tail);
    ClassifyAccepted(p, readFloat, readHex, w, body, tail[k := x]);
  }

  lemma InnerHarmless(raw: string, j: nat, i: nat, x: char)
    requires j < i < |raw| && raw[j] == '$' && Parser.Survives(raw, i, x)
    ensures Parser.Harmless(raw, i, x)
  {
    hide Parser.Harmless;
    assert raw[..i][j] == '$' && raw[i := x][..i] == raw[..i];
  }

  /** A line with a single `$`, as every sender writes it, damaged in one character: it is read
      as it was, or counts as line noise and leaves the timer as it was. */
  lemma DamageKeepsTimer(code: string, readFloat: FloatReader, readHex: HexReader, body: string, tail: string, i: nat, x: char,
                         st: State, ordered: real, dt: real)
    requires Validates(Sentence(body, tail)) && '$' !in body && i < |Sentence(body, tail)| && x != Sentence(body, tail)[i]
    ensures var p, s := ExpectedPrefix(code), Sentence(body, tail);
            var st' := Step(st, Event(Classify(p, readFloat, readHex, s[i := x]), ordered, dt));
      if Parser.Harmless(s, i, x) then st' == Step(st, Event(Classify(p, readFloat, readHex, s), ordered, dt))
      else st' == st.(status := WithFlag(st.status, LineNoiseCorruption))
  {
    var s := Sentence(body, tail);
    SingleDollarSurvivor(body, tail, i, x);
    hide Validates, Parser.Accepts, Parser.Survives, Parser.Harmless, Classify, ExpectedPrefix;
    DamagedFeedback(code, readFloat, readHex, s, i, x);
    hide Sentence;
  }

  lemma SingleDollarSurvivor(body: string, tail: string, i: nat, x: char)
    requires Validates(Sentence(body, tail)) && '$' !in body && i < |Sentence(body, tail)| && x != Sentence(body, tail)[i]
    ensures Parser.Accepts(Sentence(body, tail))
    ensures Parser.Survives(Sentence(body, tail), i, x) <==> Parser.Harmless(Sentence(body, tail), i, x)
  {
    var s := Sentence(body, tail);
    hide Validates, Parser.Accepts, Parser.Survives, Parser.Harmless;
    assert s[0] == '$';
    Parser.AcceptsDollar("", s);
    assert "" + s == s;
    if i == 0 {
      Parser.SingleDollar(body, tail);
      NotMasked(s, x);
    } else if Parser.Survives(s, i, x) {
      InnerHarmless(s, 0, i, x);
    } else {
      NotHarmless(s, i, x);
    }
  }

  lemma NotHarmless(raw: string, i: nat, x: char)
    requires i < |raw| && !Parser.Survives(raw, i, x)
    ensures !Parser.Harmless(raw, i, x)
  {
  }

  lemma NotMasked(s: string, x: char)
    requires s != "" && s[0] == '$' && x != '$'
    requires var b := StripLeft(s[1..]); b == "" || b[0] != '$'
    ensures !Parser.Survives(s, 0, x) && !Parser.Harmless(s, 0, x)
  {
    assert s[..0] == "";
    assert !IsSpace('$');
  }

  /** Any sentence behind a `$` and white space v whose characters cancel in the checksum is
      foreign, and is read as that sentence when its first `$` turns into white space: so damage
      can make feedback out of a foreign line. Parser.CancellingPrefix names such a v. */
  lemma MaskedFeedback(code: string, readFloat: FloatReader, readHex: HexReader, v: string, body: string, tail: string, x: char)
    requires Validates(Sentence(body, tail)) && Spaces(v) && Checksum(v + "$") == 0 && IsSpace(x)
    ensures var p, raw := ExpectedPrefix(code), Sentence(v + "$" + body, tail);
      && Classify(p, readFloat, readHex, raw) == Foreign
      && Classify(p, readFloat, readHex, raw[0 := x]) == Classify(p, readFloat, readHex, Sentence(body, tail))
  {
    var long := v + "$" + body;
    MaskedValid(v, body, tail);
    MaskedTexts(v, body, tail, x);
    hide Validates, ExpectedPrefix, ClassifyFields, Classify, Sentence, Free, IsSpace, Checksum;
    ReadAfterSpaces(ExpectedPrefix(code), readFloat, readHex, [x] + v, body, tail);
    LongIsForeign(code, readFloat, readHex, v, body, long, tail);
  }

  lemma MaskedTexts(v: string, body: string, tail: string, x: char)
    requires Spaces(v) && IsSpace(x)
    ensures Sentence(v + "$" + body, tail)[0 := x] == ([x] + v) + Sentence(body, tail)
    ensures Spaces([x] + v)
  {
  }

  lemma LongIsForeign(code: string, readFloat: FloatReader, readHex: HexReader, v: string, body: string, long: string, tail: string)
    requires Spaces(v) && long == v + "$" + body && Free(long, '*') && Validates(Sentence(long, tail))
    ensures Classify(ExpectedPrefix(code), readFloat, readHex, Sentence(long, tail)) == Foreign
  {
    hide Validates, ExpectedPrefix, ClassifyFields, Classify, Sentence, Free, Split;
    ClassifyAccepted(ExpectedPrefix(code), readFloat, readHex, "", long, tail);
    assert "" + Sentence(long, tail) == Sentence(long, tail);
    MaskedIsForeign(code, readFloat, readHex, v, body);
  }

  /** White space before a sentence is not read. */
  lemma ReadAfterSpaces(p: string, readFloat: FloatReader, readHex: HexReader, w: string, body: string, tail: string)
    requires Spaces(w) && Free(body, '*')
    ensures Classify(p, readFloat, readHex, w + Sentence(body, tail)) == Classify(p, readFloat, readHex, Sentence(body, tail))
  {
    hide Validates, ClassifyFields, Classify, Sentence, Free, Split;
    ClassifyAccepted(p, readFloat, readHex, w, body, tail);
    ClassifyAccepted(p, readFloat, readHex, "", body, tail);
    assert "" + Sentence(body, tail) == Sentence(body, tail);
  }

  lemma MaskedValid(v: string, body: string, tail: string)
    requires Validates(Sentence(body, tail)) && Spaces(v) && Checksum(v + "$") == 0
    ensures Free(body, '*') && Free(v + "$" + body, '*') && Validates(Sentence(v + "$" + body, tail))
  {
    ValidIff(body, tail);
    hide Validates, Checksum, Sentence;
    Parser.NoStarInSpaces(v);
    Parser.PrefixedBody(v + "$", body, tail);
  }

  class ActuatorTelemetryReceiverNode {
    const expectedPrefix: string
    var consecutiveErrorSeconds: real
    var latestStatus: Status

    function Current(): State
      reads this
    {
      State(consecutiveErrorSeconds, latestStatus)
    }

    constructor (manufacturerCode: string)
      ensures expectedPrefix == ExpectedPrefix(manufacturerCode) && Current() == INITIAL
      ensures latestStatus == Status(Finite(0.0), Finite(25.0), false, [], false) && consecutiveErrorSeconds == 0.0
    {
      expectedPrefix := ExpectedPrefix(manufacturerCode);
      consecutiveErrorSeconds := 0.0;
      latestStatus := INITIAL.status;
    }

    method DecodeStatusFlags(mask: Option<int>) returns (faulted: bool, faults: seq<Flag>)
      ensures faults == StatusFlags(mask) && faulted == (faults != [])
    {
      if mask.None? {
        return true, [MalformedBitmask];
      }
      faults := [];
      if Bit(mask.value, 1) {
        faults := faults + [HydraulicPressureDrop];
      }
      if Bit(mask.value, 2) {
        faults := faults + [MotorCurrentOverload];
      }
      if Bit(mask.value, 4) {
        faults := faults + [ActuatorThermalCritical];
      }
      if Bit(mask.value, 8) {
        faults := faults + [FeedbackSensorFault];
      }
      faulted := |faults| > 0;
    }

    method ProcessHardwareFeedback(readFloat: FloatReader, readHex: HexReader, raw: string, ordered: real, dt: real)
      returns (status: Status)
      modifies this
      ensures Current() == Step(old(Current()), Event(Classify(expectedPrefix, readFloat, readHex, raw), ordered, dt))
      ensures status == latestStatus
    {
      hide Validates, StatusFlags, ReceivedFields, Strip;
      var clean := Strip(raw);
      var valid := ValidateChecksum(clean);
      if !valid {
        latestStatus := WithFlag(latestStatus, LineNoiseCorruption);
        return latestStatus;
      }
      var parts := ReceivedFields(clean);
      var header := if parts[0] == "" then "" else parts[0][1..];
      if header != expectedPrefix {
        return latestStatus;
      }
      var readable := |parts| >= 4 && readFloat(parts[1]).Some? && readFloat(parts[3]).Some?;
      if !readable {
        latestStatus := WithFlag(latestStatus, ParsingPayloadException);
        return latestStatus;
      }
      var measured, temperature := readFloat(parts[1]).value, readFloat(parts[3]).value;
      var faulted, faults := DecodeStatusFlags(readHex(parts[2]));
      var jammed := false;
      if Deviates(ordered, measured) {
        consecutiveErrorSeconds := consecutiveErrorSeconds + dt;
        if consecutiveErrorSeconds >= MAX_ERROR_SECONDS {
          faults := faults + [MechanicalLinkageJam];
          jammed := true;
        }
      } else {
        consecutiveErrorSeconds := 0.0;
      }
      latestStatus := Status(measured, temperature, faulted || jammed, faults, jammed);
      status := latestStatus;
    }
  }
}
