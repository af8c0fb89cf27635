/** What each telemetry sentence does to the cache, from its wire form on:
    src/network_layer/nmea_serial_parser.py. The sentences are framed by the serializer. */
module NmeaSentences {
  import opened Common
  import opened Text
  import opened NmeaFrame
  import opened ActuatorSerializer
  import opened NmeaParser

  /** The cache after the sentence made of these fields. */
  function Received(read: NumberReader, c: Cache, fields: seq<string>, now: real): Cache
  {
    var wire := Serialize(fields);
    if wire.Some? then Parsed(read, c, wire.value, now) else c
  }

  lemma ReadBack(read: NumberReader, c: Cache, fields: seq<string>, now: real)
    requires |fields| >= 1 && PlainTexts(fields)
    ensures Received(read, c, fields, now) == Dispatch(read, c, ["$" + fields[0]] + fields[1..], now)
  {
    hide Dispatch, Serialize, Validates, Strip, ReceivedFields;
    SentBack(fields);
  }

  /** The fields as the receiver splits them off. */
  function PartsOf(talker: string, kind: string, rest: seq<string>): (parts: seq<string>)
    ensures |parts| == |rest| + 1
    ensures forall i :: 0 <= i < |rest| ==> parts[i + 1] == rest[i]
  {
    ["$" + (talker + kind)] + rest
  }

  /** A talker's header ends in the sentence type, and in no other. */
  lemma Typed(talker: string, kind: string, s: string)
    requires |kind| == 3 && |s| == 3
    ensures EndsWith("$" + (talker + kind), s) <==> s == kind
  {
    var h := "$" + (talker + kind);
    assert h[|h| - 3..] == kind;
  }

  /** A sentence is routed by its type alone. */
  lemma Routed(read: NumberReader, c: Cache, talker: string, kind: string, rest: seq<string>, now: real)
    requires |kind| == 3 && PlainTexts([talker + kind] + rest)
    ensures var r, parts := Received(read, c, [talker + kind] + rest, now), PartsOf(talker, kind, rest);
      && (kind == "HDT" ==> r == var n := FieldNumber(read, parts, 1); if n.Some? then HeadingUpdate(c, n.value, now) else c)
      && (kind == "DBT" ==> r == var n := FieldNumber(read, parts, 3); if n.Some? then c.(depth := n.value) else c)
      && (kind == "DPT" ==> r == var n := FieldNumber(read, parts, 1); if n.Some? then c.(depth := n.value) else c)
      && (kind == "RMC" ==> r == var n := FieldNumber(read, parts, 7);
                             if |parts| > 2 && parts[2] == "A" && n.Some? then c.(speed := n.value * 0.514444) else c)
      && (kind != "HDT" && kind != "DBT" && kind != "DPT" && kind != "RMC" ==> r == c)
  {
    var fields := [talker + kind] + rest;
    ReadBack(read, c, fields, now);
    assert fields[1..] == rest;
    Typed(talker, kind, "HDT");
    Typed(talker, kind, "DBT");
    Typed(talker, kind, "DPT");
    Typed(talker, kind, "RMC");
    hide Received, EndsWith, PlainTexts, HeadingUpdate, FieldNumber;
  }

  /** The number a field carries; none if it is empty or unreadable. */
  function NumberIn(read: NumberReader, text: string): Option<real>
  {
    if text == "" then None else read(text)
  }

  /** Depth below transducer carries feet, metres and fathoms: the metres are stored. */
  lemma DepthBelowTransducer(read: NumberReader, c: Cache, talker: string, feet: string, metres: string, fathoms: string, now: real)
    requires PlainTexts([talker + "DBT", feet, "f", metres, "M", fathoms, "F"])
    ensures Received(read, c, [talker + "DBT", feet, "f", metres, "M", fathoms, "F"], now) ==
      if NumberIn(read, metres).Some? then c.(depth := NumberIn(read, metres).value) else c
  {
    var rest := [feet, "f", metres, "M", fathoms, "F"];
    assert [talker + "DBT"] + rest == [talker + "DBT", feet, "f", metres, "M", fathoms, "F"];
    Routed(read, c, talker, "DBT", rest, now);
    hide Received, PlainTexts;
    assert PartsOf(talker, "DBT", rest)[2 + 1] == metres;
    hide PartsOf;
  }

  /** The depth sounder's sentence: its first number is stored. */
  lemma DepthSounder(read: NumberReader, c: Cache, talker: string, metres: string, more: seq<string>, now: real)
    requires PlainTexts([talker + "DPT", metres] + more)
    ensures Received(read, c, [talker + "DPT", metres] + more, now) ==
      if NumberIn(read, metres).Some? then c.(depth := NumberIn(read, metres).value) else c
  {
    var rest := [metres] + more;
    assert [talker + "DPT"] + rest == [talker + "DPT", metres] + more;
    Routed(read, c, talker, "DPT", rest, now);
    hide Received, PlainTexts;
    assert PartsOf(talker, "DPT", rest)[0 + 1] == metres;
    hide PartsOf;
  }

  /** Recommended minimum data: the speed field, in knots, is stored in metres per second
      exactly while the status is "A". */
  lemma MinimumData(read: NumberReader, c: Cache, talker: string, time: string, status: string, lat: string, ns: string,
                    lon: string, ew: string, knots: string, more: seq<string>, now: real)
    requires PlainTexts([talker + "RMC", time, status, lat, ns, lon, ew, knots] + more)
    ensures Received(read, c, [talker + "RMC", time, status, lat, ns, lon, ew, knots] + more, now) ==
      if status == "A" && NumberIn(read, knots).Some? then c.(speed := 0.514444 * NumberIn(read, knots).value) else c
  {
    var rest := [time, status, lat, ns, lon, ew, knots] + more;
    assert [talker + "RMC"] + rest == [talker + "RMC", time, status, lat, ns, lon, ew, knots] + more;
    Routed(read, c, talker, "RMC", rest, now);
    hide Received, PlainTexts;
    assert PartsOf(talker, "RMC", rest)[1 + 1] == status && PartsOf(talker, "RMC", rest)[6 + 1] == knots;
    hide PartsOf;
  }

  /** A readable true heading obeys the heading law. */
  lemma TrueHeading(read: NumberReader, c: Cache, talker: string, degrees: string, more: seq<string>, now: real)
    requires PlainTexts([talker + "HDT", degrees] + more) && NumberIn(read, degrees).Some?
    ensures HeadingLaw(c, NumberIn(read, degrees).value, now, Received(read, c, [talker + "HDT", degrees] + more, now))
  {
    hide Received, PlainTexts, HeadingUpdate, NumberIn, HeadingLaw;
    HeadingReceived(read, c, talker, degrees, more, now);
    HeadingObeys(c, NumberIn(read, degrees).value, now);
  }

  /** The heading is stored in radians with its time, depth and speed are left alone, and the
      yaw rate changes only against an earlier heading more than a millisecond old; it is then
      the rate of every turn within half a revolution that explains the new heading. */
  ghost predicate HeadingLaw(c: Cache, value: real, now: real, r: Cache)
  {
    && r.depth == c.depth && r.speed == c.speed
    && r.last == Some(Heading(value * 3.14159 / 180.0, now))
    && (c.last.None? || now - c.last.value.time <= 0.001 ==> r.yawRate == c.yawRate)
    && (forall turn: real, k: int :: Turned(c, value, now, turn, k) ==> RateIs(r.yawRate, turn, now - c.last.value.time))
  }

  lemma HeadingObeys(c: Cache, value: real, now: real)
    ensures HeadingLaw(c, value, now, HeadingUpdate(c, value, now))
  {
    hide HeadingUpdate, RateIs;
    HeadingStored(c, value, now);
    forall turn: real, k: int | Turned(c, value, now, turn, k)
      ensures RateIs(HeadingUpdate(c, value, now).yawRate, turn, now - c.last.value.time)
    {
      HeadingTurned(c, value, now, turn, k);
    }
  }

  lemma HeadingReceived(read: NumberReader, c: Cache, talker: string, degrees: string, more: seq<string>, now: real)
    requires PlainTexts([talker + "HDT", degrees] + more) && NumberIn(read, degrees).Some?
    ensures Received(read, c, [talker + "HDT", degrees] + more, now) == HeadingUpdate(c, NumberIn(read, degrees).value, now)
  {
    var rest := [degrees] + more;
    assert [talker + "HDT"] + rest == [talker + "HDT", degrees] + more;
    Routed(read, c, talker, "HDT", rest, now);
    hide Received, PlainTexts, HeadingUpdate;
    assert PartsOf(talker, "HDT", rest)[0 + 1] == degrees;
    hide PartsOf;
  }

  /** The rate, in radians per second, of a turn in degrees. */
  predicate RateIs(yawRate: real, turn: real, dt: real)
  {
    dt > 0.0 && yawRate == turn * 3.14159 / 180.0 / dt
  }

  /** Since an earlier heading, more than a millisecond old, the ship has turned by these
      degrees, within half a revolution, and the heading has wrapped k times. */
  ghost predicate Turned(c: Cache, value: real, now: real, turn: real, k: int)
  {
    && c.last.Some? && now - c.last.value.time > 0.001 && -180.0 <= turn < 180.0
    && value * 3.14159 / 180.0 == c.last.value.radians + turn * 3.14159 / 180.0 + 2.0 * 3.14159 * k as real
  }

  lemma HeadingTurned(c: Cache, value: real, now: real, turn: real, k: int)
    ensures Turned(c, value, now, turn, k) ==>
            RateIs(HeadingUpdate(c, value, now).yawRate, turn, now - c.last.value.time)
  {
    hide HeadingUpdate;
    if c.last.Some? && now - c.last.value.time > 0.001 && Radians(value) == c.last.value.radians + Radians(turn) + 2.0 * PI * k as real {
      WrapRecoversTurn(c, value, turn, k, now);
    }
  }

  lemma HeadingStored(c: Cache, value: real, now: real)
    ensures var r := HeadingUpdate(c, value, now);
      && r.depth == c.depth && r.speed == c.speed && r.last == Some(Heading(value * 3.14159 / 180.0, now))
      && (c.last.None? || now - c.last.value.time <= 0.001 ==> r.yawRate == c.yawRate)
  {
    hide FoldedTurn;
  }

  /** A heading that cannot be read changes nothing. */
  lemma UnreadableHeading(read: NumberReader, c: Cache, talker: string, degrees: string, more: seq<string>, now: real)
    requires PlainTexts([talker + "HDT", degrees] + more) && NumberIn(read, degrees).None?
    ensures Received(read, c, [talker + "HDT", degrees] + more, now) == c
  {
    var rest := [degrees] + more;
    assert [talker + "HDT"] + rest == [talker + "HDT", degrees] + more;
    Routed(read, c, talker, "HDT", rest, now);
    hide Received, PlainTexts, HeadingUpdate;
    assert PartsOf(talker, "HDT", rest)[0 + 1] == degrees;
    hide PartsOf;
  }

  /** A talker of any other type changes nothing. */
  lemma OtherTalker(read: NumberReader, c: Cache, talker: string, kind: string, more: seq<string>, now: real)
    requires |kind| == 3 && kind != "HDT" && kind != "DBT" && kind != "DPT" && kind != "RMC"
    requires PlainTexts([talker + kind] + more)
    ensures Received(read, c, [talker + kind] + more, now) == c
  {
    Routed(read, c, talker, kind, more, now);
    hide Received, PlainTexts;
  }

  /** A sentence cut short before the field it is read for changes nothing. */
  lemma CutShort(read: NumberReader, c: Cache, talker: string, kind: string, more: seq<string>, now: real)
    requires PlainTexts([talker + kind] + more)
    requires ((kind == "HDT" || kind == "DPT") && |more| == 0) || (kind == "DBT" && |more| < 3) || (kind == "RMC" && |more| < 7)
    ensures Received(read, c, [talker + kind] + more, now) == c
  {
    Routed(read, c, talker, kind, more, now);
    hide Received, PlainTexts, HeadingUpdate;
  }
}
