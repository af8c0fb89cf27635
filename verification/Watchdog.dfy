/** The ledger write supervisor: src/network_layer/multi_ledger_watchdog.py, and the torque
    interlock that consumes it in src/main.py. Times are explicit readings of the clock. */
module Watchdog {
  import opened Text

  const LEDGERS: seq<string> := ["FLAG_HALYARD_AUDIT", "MARPOL_BILGE_AUDIT", "MISSION_TELEMETRY"]

  const DEPTH_LIMIT := 500

  /** What is recorded of one ledger at its last successful write. */
  datatype Entry = Entry(lastWrite: real, queueDepth: int)

  type Register = map<string, Entry>

  ghost predicate Registered(r: Register)
  {
    forall name :: name in r <==> name in LEDGERS
  }

  /** Stalled with data waiting, or overloaded. */
  predicate Trips(e: Entry, now: real, timeout: real)
  {
    (now - e.lastWrite > timeout && e.queueDepth > 0) || e.queueDepth > DEPTH_LIMIT
  }

  /** The tripped ledgers of one locked snapshot, in registration order. */
  function Tripped(r: Register, names: seq<string>, now: real, timeout: real): seq<string>
    requires forall n :: n in names ==> n in r
  {
    if names == [] then []
    else
      var k := |names| - 1;
      Tripped(r, names[..k], now, timeout) + (if Trips(r[names[k]], now, timeout) then [names[k]] else [])
  }

  lemma {:induction false} TrippedExactly(r: Register, names: seq<string>, now: real, timeout: real)
    requires forall n :: n in names ==> n in r
    ensures forall n :: n in Tripped(r, names, now, timeout) <==> n in names && Trips(r[n], now, timeout)
    ensures |Tripped(r, names, now, timeout)| <= |names|
  {
    if names != [] {
      var k := |names| - 1;
      TrippedExactly(r, names[..k], now, timeout);
      assert forall n :: n in names <==> n in names[..k] || n == names[k];
    }
  }

  lemma OneMore(r: Register, names: seq<string>, i: nat, now: real, timeout: real)
    requires i < |names| && forall n :: n in names ==> n in r
    ensures var e := r[names[i]];
            Tripped(r, names[..i + 1], now, timeout) == Tripped(r, names[..i], now, timeout)
            + (if (now - e.lastWrite > timeout && e.queueDepth > 0) || e.queueDepth > DEPTH_LIMIT then [names[i]] else [])
  {
    assert names[..i + 1][..i] == names[..i];
  }

  lemma NoneYet(r: Register, now: real, timeout: real)
    ensures Tripped(r, LEDGERS[..0], now, timeout) == []
  {
  }

  // ---------- Histories ----------

  datatype State = State(register: Register, timeout: real, monitoring: bool, faulted: bool, tripped: seq<string>)

  /** Check is one pass of the checker thread; a pass that began before a stop still ends. */
  datatype Event =
    | Start(now: real)
    | Stop
    | WriteSuccess(ledger: string, depth: int, now: real)
    | Check(now: real)

  function Sanitised(name: string): string
  {
    Strip(Upper(name))
  }

  function Seeded(now: real): Register
  {
    map n | n in LEDGERS :: Entry(now, 0)
  }

  function Step(s: State, e: Event): State
    requires Registered(s.register)
    ensures Registered(Step(s, e).register)
  {
    match e
    case Start(now) => if s.monitoring then s else s.(register := Seeded(now), monitoring := true)
    case Stop => s.(monitoring := false)
    case WriteSuccess(ledger, depth, now) =>
      if Sanitised(ledger) in s.register
      then s.(register := s.register[Sanitised(ledger) := Entry(now, depth)])
      else s
    case Check(now) =>
      var tripped := Tripped(s.register, LEDGERS, now, s.timeout);
      s.(faulted := tripped != [], tripped := tripped)
  }

  function Run(s: State, events: seq<Event>): State
    requires Registered(s.register)
    ensures Registered(Run(s, events).register)
    decreases |events|
  {
    if events == [] then s
    else
      var n := |events| - 1;
      Step(Run(s, events[..n]), events[n])
  }

  // ---------- Which texts name a ledger ----------

  /** The same letter, whatever its case, or the same other character. */
  predicate SameLetter(c: char, capital: char)
  {
    c == capital || ('A' <= capital <= 'Z' && c as int == capital as int + 32)
  }

  predicate SameLetters(text: string, name: string)
  {
    |text| == |name| && forall i :: 0 <= i < |name| ==> SameLetter(text[i], name[i])
  }

  /** The text spells the name, up to letter case and white space around it. */
  ghost predicate Denotes(text: string, name: string)
  {
    exists i: nat, j: nat :: Spells(text, i, j, name)
  }

  predicate Spells(text: string, i: nat, j: nat, name: string)
  {
    i <= j <= |text| && Spaces(text[..i]) && SameLetters(text[i..j], name) && Spaces(text[j..])
  }

  /** In capitals, with neither white space nor small letters. */
  predicate Plain(name: string)
  {
    name != "" && forall i :: 0 <= i < |name| ==> 'A' <= name[i] <= 'Z' || name[i] == '_'
  }

  /** The three supervised ledgers. */
  lemma ThreeLedgers(name: string)
    ensures name in LEDGERS <==> name == "FLAG_HALYARD_AUDIT" || name == "MARPOL_BILGE_AUDIT" || name == "MISSION_TELEMETRY"
  {
  }

  lemma LedgersPlain(name: string)
    requires name in LEDGERS
    ensures Plain(name)
  {
    ThreeLedgers(name);
  }

  lemma LetterUpper(c: char, capital: char)
    requires 'A' <= capital <= 'Z' || capital == '_'
    ensures UpperChar(c) == capital <==> SameLetter(c, capital)
    ensures UpperChar(c) == capital ==> !IsSpace(c)
    ensures !IsSpace(capital)
  {
  }

  lemma SpaceUpper(c: char)
    ensures IsSpace(UpperChar(c)) <==> IsSpace(c)
  {
  }

  lemma SpacesUpper(s: string)
    ensures Spaces(Upper(s)) <==> Spaces(s)
  {
    forall i | 0 <= i < |s| ensures IsSpace(Upper(s)[i]) <==> IsSpace(s[i]) {
      SpaceUpper(s[i]);
    }
  }

  lemma UpperIs(s: string, name: string)
    requires Plain(name)
    ensures Upper(s) == name <==> SameLetters(s, name)
    ensures SolidEnds(name)
  {
    forall i | 0 <= i < |name| && |s| == |name| ensures UpperChar(s[i]) == name[i] <==> SameLetter(s[i], name[i]) {
      LetterUpper(s[i], name[i]);
    }
    LetterUpper(name[0], name[0]);
    LetterUpper(name[|name| - 1], name[|name| - 1]);
    hide SameLetter, IsSpace, UpperChar;
    if Upper(s) == name {
      assert forall i :: 0 <= i < |s| ==> Upper(s)[i] == UpperChar(s[i]);
    }
  }

  /** A write names a ledger exactly when its text spells that ledger's name. */
  lemma SanitisedIs(text: string, name: string)
    requires Plain(name)
    ensures Sanitised(text) == name <==> Denotes(text, name)
  {
    hide Plain, Spells;
    if Sanitised(text) == name {
      var i, j := SpelledAt(text, name);
    }
    if i: nat, j: nat :| Spells(text, i, j, name) {
      SpelledIs(text, i, j, name);
    }
  }

  lemma SpelledAt(text: string, name: string) returns (i: nat, j: nat)
    requires Plain(name) && Sanitised(text) == name
    ensures Spells(text, i, j, name)
  {
    hide Plain, IsSpace, UpperChar, SameLetter, Strip, Spaces, SolidEnds, SameLetters;
    var u, v := StripParts(Upper(text));
    i, j := |u|, |u| + |name|;
    UpperCut(text, i, j);
    assert Upper(text)[..i] == u && Upper(text)[i..j] == name && Upper(text)[j..] == v;
    SpacesUpper(text[..i]);
    SpacesUpper(text[j..]);
    UpperIs(text[i..j], name);
  }

  lemma UpperCut(text: string, i: nat, j: nat)
    requires i <= j <= |text|
    ensures Upper(text)[..i] == Upper(text[..i]) && Upper(text)[i..j] == Upper(text[i..j]) && Upper(text)[j..] == Upper(text[j..])
  {
  }

  lemma SpelledIs(text: string, i: nat, j: nat, name: string)
    requires Plain(name) && Spells(text, i, j, name)
    ensures Sanitised(text) == name
  {
    hide Plain, IsSpace, UpperChar, SameLetter, Strip, Spaces, SolidEnds, SameLetters;
    SpacesUpper(text[..i]);
    SpacesUpper(text[j..]);
    UpperIs(text[i..j], name);
    UpperCut(text, i, j);
    var all := Upper(text);
    assert all == all[..i] + all[i..j] + all[j..];
    StripAround(all[..i], name, all[j..]);
  }

  /** A write under a text that spells a ledger's name sets that ledger's record, and nothing
      else; a write under any other text changes nothing. */
  lemma WriteSetsExactly(s: State, text: string, depth: int, now: real)
    requires Registered(s.register)
    ensures forall n :: n in LEDGERS && Denotes(text, n) ==>
      Step(s, WriteSuccess(text, depth, now)) == s.(register := s.register[n := Entry(now, depth)])
    ensures (forall n :: n in LEDGERS ==> !Denotes(text, n)) ==> Step(s, WriteSuccess(text, depth, now)) == s
    ensures forall n :: n in LEDGERS ==> Denotes(n, n)
  {
    forall n | n in LEDGERS ensures Denotes(n, n) {
      NameDenotes(n);
    }
    forall n | n in LEDGERS ensures Sanitised(text) == n <==> Denotes(text, n) {
      LedgersPlain(n);
      SanitisedIs(text, n);
    }
    hide Sanitised, Denotes;
  }

  /** The event rewrites the record of the ledger: a write to it, or a start while not
      monitoring. A start while monitoring is ignored. */
  ghost predicate Touches(s: State, e: Event, ledger: string)
  {
    match e
    case Start(_) => !s.monitoring
    case Stop => false
    case WriteSuccess(name, _, _) => Denotes(name, ledger)
    case Check(_) => false
  }

  /** No event of the history rewrites the record of the ledger. */
  ghost predicate Quiet(s: State, events: seq<Event>, ledger: string)
    requires Registered(s.register)
  {
    forall i :: 0 <= i < |events| ==> !Touches(Run(s, events[..i]), events[i], ledger)
  }

  lemma StepKeeps(s: State, e: Event, ledger: string)
    requires Registered(s.register) && ledger in s.register && !Touches(s, e, ledger)
    ensures ledger in Step(s, e).register && Step(s, e).register[ledger] == s.register[ledger]
    ensures Step(s, e).timeout == s.timeout
  {
    LedgersPlain(ledger);
    if e.WriteSuccess? {
      SanitisedIs(e.ledger, ledger);
    }
    hide Tripped, Sanitised, Denotes;
  }

  lemma {:induction false} RecordKept(s: State, events: seq<Event>, ledger: string)
    requires Registered(s.register) && ledger in s.register && Quiet(s, events, ledger)
    ensures ledger in Run(s, events).register && Run(s, events).register[ledger] == s.register[ledger]
    ensures Run(s, events).timeout == s.timeout
    decreases |events|
  {
    hide Step, Touches, Registered;
    if events != [] {
      var n := |events| - 1;
      forall i | 0 <= i < n ensures !Touches(Run(s, events[..n][..i]), events[..n][i], ledger) {
        assert events[..n][..i] == events[..i];
      }
      RecordKept(s, events[..n], ledger);
      StepKeeps(Run(s, events[..n]), events[n], ledger);
    }
  }

  lemma {:induction false} RunConcat(s: State, a: seq<Event>, b: seq<Event>)
    requires Registered(s.register)
    ensures Run(s, a + b) == Run(Run(s, a), b)
    decreases |b|
  {
    if b == [] {
      assert a + b == a;
    } else {
      var n := |b| - 1;
      assert (a + b)[..|a + b| - 1] == a + b[..n];
      RunConcat(s, a, b[..n]);
    }
  }

  lemma RunOne(s: State, e: Event)
    requires Registered(s.register)
    ensures Run(s, [e]) == Step(s, e)
  {
  }

  /** What one checker pass reports: the ledgers that trip, and a fault if there are any. */
  lemma CheckReports(s: State, c: real)
    requires Registered(s.register)
    ensures var s' := Step(s, Check(c));
      && (forall n :: n in s'.tripped <==> n in LEDGERS && Trips(s.register[n], c, s.timeout))
      && (s'.faulted <==> exists n :: n in LEDGERS && Trips(s.register[n], c, s.timeout))
  {
    var s' := Step(s, Check(c));
    TrippedExactly(s.register, LEDGERS, c, s.timeout);
    hide Tripped;
    if s'.faulted {
      assert s'.tripped[0] in s'.tripped;
    }
  }

  lemma CheckNames(s: State, c: real, ledger: string)
    requires Registered(s.register) && ledger in LEDGERS
    ensures ledger in s.register
    ensures ledger in Step(s, Check(c)).tripped <==> Trips(s.register[ledger], c, s.timeout)
  {
    hide Step, Trips;
    CheckReports(s, c);
  }

  lemma CheckAfter(s: State, events: seq<Event>, c: real)
    requires Registered(s.register)
    ensures Run(s, events + [Check(c)]) == Step(Run(s, events), Check(c))
  {
    RunConcat(s, events, [Check(c)]);
    RunOne(Run(s, events), Check(c));
  }

  /** A write, and a quiet time after it. */
  function Since(ledger: string, depth: int, h: real, quiet: seq<Event>): seq<Event>
  {
    [WriteSuccess(ledger, depth, h)] + quiet
  }

  lemma RecordSince(s: State, ledger: string, depth: int, h: real, quiet: seq<Event>)
    requires Registered(s.register) && Sanitised(ledger) in LEDGERS
    requires Quiet(Step(s, WriteSuccess(ledger, depth, h)), quiet, Sanitised(ledger))
    ensures Run(s, Since(ledger, depth, h, quiet)).register[Sanitised(ledger)] == Entry(h, depth)
    ensures Run(s, Since(ledger, depth, h, quiet)).timeout == s.timeout
  {
    var write := WriteSuccess(ledger, depth, h);
    RunConcat(s, [write], quiet);
    RunOne(s, write);
    hide Run;
    RecordKept(Step(s, write), quiet, Sanitised(ledger));
  }

  /** Exact detection: after a write that recorded a depth at time h, and until the record is
      next rewritten, a check at time c names the ledger exactly when the recorded depth was
      over 500, or was positive and more than the timeout has passed since h. In particular a
      ledger whose recorded depth was zero is never named, however much it has queued since. */
  lemma DetectionIff(s: State, ledger: string, text: string, depth: int, h: real, quiet: seq<Event>, c: real)
    requires Registered(s.register) && ledger in LEDGERS && Denotes(text, ledger)
    requires Quiet(Step(s, WriteSuccess(text, depth, h)), quiet, ledger)
    ensures var s' := Run(s, Since(text, depth, h, quiet) + [Check(c)]);
            ledger in s'.tripped <==> depth > 500 || (depth > 0 && c - h > s.timeout)
  {
    LedgersPlain(ledger);
    SanitisedIs(text, ledger);
    hide Run, Step, Since, Quiet, Sanitised, Registered, Denotes;
    RecordSince(s, text, depth, h, quiet);
    CheckAfter(s, Since(text, depth, h, quiet), c);
    CheckNames(Run(s, Since(text, depth, h, quiet)), c, ledger);
  }

  /** A ledger's own name spells it. */
  lemma NameDenotes(ledger: string)
    requires ledger in LEDGERS
    ensures Denotes(ledger, ledger)
  {
    assert ledger[0..|ledger|] == ledger;
    assert Spells(ledger, 0, |ledger|, ledger);
  }

  /** A supervisor that has just been started, told of 600 rows queued at the mission ledger,
      in whatever letter case, trips that ledger and no other at its next check. */
  lemma OverloadTrips(timeout: real, text: string)
    requires timeout >= 1.0 && Denotes(text, "MISSION_TELEMETRY")
    ensures var s := State(Seeded(0.0), timeout, false, false, []);
            var s' := Run(s, [Start(0.0), WriteSuccess(text, 600, 0.0), Check(0.1)]);
            s'.faulted && s'.tripped == ["MISSION_TELEMETRY"] && DispatchedTorque(1000.0, s'.faulted) == 0.0
  {
    var s := State(Seeded(0.0), timeout, false, false, []);
    var n := "MISSION_TELEMETRY";
    assert n == LEDGERS[2];
    var s1 := Step(s, Start(0.0));
    WriteSetsExactly(s1, text, 600, 0.0);
    var s2 := s1.(register := s1.register[n := Entry(0.0, 600)]);
    OnlyMission(s2.register, timeout);
    hide Sanitised, Denotes, Tripped;
    RunConcat(s, [Start(0.0)], [WriteSuccess(text, 600, 0.0), Check(0.1)]);
    RunConcat(s1, [WriteSuccess(text, 600, 0.0)], [Check(0.1)]);
    RunOne(s, Start(0.0));
    RunOne(s1, WriteSuccess(text, 600, 0.0));
    RunOne(s2, Check(0.1));
    hide Run;
    assert [Start(0.0)] + [WriteSuccess(text, 600, 0.0), Check(0.1)] == [Start(0.0), WriteSuccess(text, 600, 0.0), Check(0.1)];
    assert [WriteSuccess(text, 600, 0.0)] + [Check(0.1)] == [WriteSuccess(text, 600, 0.0), Check(0.1)];
  }

  lemma OnlyMission(r: Register, timeout: real)
    requires timeout >= 1.0 && r == Seeded(0.0)["MISSION_TELEMETRY" := Entry(0.0, 600)]
    ensures Registered(r) && Tripped(r, LEDGERS, 0.1, timeout) == ["MISSION_TELEMETRY"]
  {
    var a, b, n := LEDGERS[0], LEDGERS[1], LEDGERS[2];
    assert |a| == 18 && |b| == 18 && |n| == 17;
    assert LEDGERS[..3] == LEDGERS && LEDGERS[..3][..2] == LEDGERS[..2] && LEDGERS[..2][..1] == LEDGERS[..1] && LEDGERS[..1][..0] == [];
    NoneYet(r, 0.1, timeout);
    OneMore(r, LEDGERS, 0, 0.1, timeout);
    OneMore(r, LEDGERS, 1, 0.1, timeout);
    OneMore(r, LEDGERS, 2, 0.1, timeout);
    hide Tripped;
  }

  /** Pre-seeding at start prevents false alarms: until its record is next rewritten, no
      ledger is named after a start that took effect. */
  lemma SilentUntilFirstWrite(s: State, ledger: string, h: real, quiet: seq<Event>, c: real)
    requires Registered(s.register) && ledger in LEDGERS && !s.monitoring
    requires Quiet(Step(s, Start(h)), quiet, ledger)
    ensures ledger !in Run(s, [Start(h)] + quiet + [Check(c)]).tripped
  {
    var s1 := Step(s, Start(h));
    assert s1.register[ledger] == Entry(h, 0);
    hide Run, Step, Quiet, Registered;
    RunConcat(s, [Start(h)], quiet);
    RunOne(s, Start(h));
    RecordKept(s1, quiet, ledger);
    CheckAfter(s, [Start(h)] + quiet, c);
    CheckNames(Run(s1, quiet), c, ledger);
  }

  // ---------- The torque interlock ----------

  /** Propulsion torque as dispatched: zero while the watchdog reports a fault. */
  function DispatchedTorque(commanded: real, faulted: bool): real
  {
    if faulted then 0.0 else commanded
  }

  ghost predicate NoCheck(events: seq<Event>)
  {
    forall i :: 0 <= i < |events| ==> !events[i].Check?
  }

  lemma {:induction false} FaultHeld(s: State, events: seq<Event>)
    requires Registered(s.register) && NoCheck(events)
    ensures Run(s, events).faulted == s.faulted
    decreases |events|
  {
    if events != [] {
      var n := |events| - 1;
      FaultHeld(s, events[..n]);
    }
  }

  /** The interlock over whole histories: from a check at time c until the next check the
      dispatched torque is zero if some ledger tripped in the snapshot of that check, and the
      commanded one otherwise. */
  lemma InterlockExact(s: State, events: seq<Event>, c: real, after: seq<Event>, commanded: real)
    requires Registered(s.register) && NoCheck(after)
    ensures var r := Run(s, events);
            var stalled := exists n :: n in LEDGERS && Trips(r.register[n], c, r.timeout);
            DispatchedTorque(commanded, Run(s, events + [Check(c)] + after).faulted) == if stalled then 0.0 else commanded
  {
    hide Run, Step, Trips, Registered;
    RunConcat(s, events + [Check(c)], after);
    CheckAfter(s, events, c);
    CheckReports(Run(s, events), c);
    FaultHeld(Step(Run(s, events), Check(c)), after);
  }

  /** A stalled ledger secures the shaft: after a write at h that left data waiting, and
      while the ledger's record is not rewritten, any check later than h + timeout brings the
      dispatched torque to zero, and no write to other ledgers releases it before the next
      check. */
  lemma StallSecuresPropulsion(s: State, ledger: string, text: string, depth: int, h: real, quiet: seq<Event>, c: real,
                               after: seq<Event>, commanded: real)
    requires Registered(s.register) && ledger in LEDGERS && Denotes(text, ledger) && depth > 0
    requires Quiet(Step(s, WriteSuccess(text, depth, h)), quiet, ledger)
    requires c > h + s.timeout && NoCheck(after)
    ensures var s' := Run(s, Since(text, depth, h, quiet) + [Check(c)] + after);
            DispatchedTorque(commanded, s'.faulted) == 0.0
  {
    var r := Run(s, Since(text, depth, h, quiet));
    LedgersPlain(ledger);
    SanitisedIs(text, ledger);
    hide Sanitised, Denotes;
    RecordSince(s, text, depth, h, quiet);
    InterlockExact(s, Since(text, depth, h, quiet), c, after, commanded);
    hide Run;
    assert Trips(r.register[ledger], c, r.timeout);
  }

  // ---------- The supervisor object ----------

  class MultiLedgerHardwareWatchdog {
    const timeout: real
    var heartbeats: map<string, real>
    var queueDepths: map<string, int>
    var isMonitoring: bool
    var systemFaulted: bool
    var trippedLedgers: seq<string>

    ghost predicate Valid()
      reads this
    {
      && (forall n :: n in heartbeats <==> n in LEDGERS)
      && (forall n :: n in queueDepths <==> n in LEDGERS)
      && (systemFaulted <==> trippedLedgers != [])
    }

    ghost function Current(): State
      requires Valid()
      reads this
    {
      State(map n | n in LEDGERS :: Entry(heartbeats[n], queueDepths[n]), timeout, isMonitoring, systemFaulted, trippedLedgers)
    }

    constructor (timeout: real, now: real)
      ensures Valid() && Current() == State(Seeded(now), timeout, false, false, [])
    {
      this.timeout := timeout;
      heartbeats := map n | n in LEDGERS :: now;
      queueDepths := map n | n in LEDGERS :: 0;
      isMonitoring, systemFaulted, trippedLedgers := false, false, [];
    }

    method StartWatchdog(now: real)
      requires Valid()
      modifies this
      ensures Valid() && Current() == Step(old(Current()), Start(now))
    {
      hide Sanitised, Tripped, Trips;
      if isMonitoring {
        return;
      }
      isMonitoring := true;
      heartbeats := map n | n in LEDGERS :: now;
      queueDepths := map n | n in LEDGERS :: 0;
    }

    method StopWatchdog()
      requires Valid()
      modifies this
      ensures Valid() && Current() == Step(old(Current()), Stop)
    {
      isMonitoring := false;
    }

    method LogWriteSuccess(ledger: string, activeQueueSize: int, now: real)
      requires Valid()
      modifies this
      ensures Valid() && Current() == Step(old(Current()), WriteSuccess(ledger, activeQueueSize, now))
    {
      hide Sanitised, Tripped, Seeded;
      var name := Sanitised(ledger);
      if name in heartbeats {
        heartbeats := heartbeats[name := now];
        queueDepths := queueDepths[name := activeQueueSize];
      }
    }

    /** One pass of the checker loop. */
    method Check(now: real)
      requires Valid()
      modifies this
      ensures Valid() && Current() == Step(old(Current()), Event.Check(now))
      ensures heartbeats == old(heartbeats) && queueDepths == old(queueDepths)
    {
      hide Sanitised, Seeded, Tripped, Trips;
      var localFaults: seq<string> := [];
      NoneYet(Current().register, now, timeout);
      ghost var r := Current().register;
      var i := 0;
      while i < |LEDGERS|
        invariant 0 <= i <= |LEDGERS|
        invariant Valid() && heartbeats == old(heartbeats) && queueDepths == old(queueDepths)
        invariant isMonitoring == old(isMonitoring) && Current() == old(Current())
        invariant localFaults == Tripped(r, LEDGERS[..i], now, timeout)
      {
        var name := LEDGERS[i];
        var delta := now - heartbeats[name];
        var depth := queueDepths[name];
        OneMore(r, LEDGERS, i, now, timeout);
        if (delta > timeout && depth > 0) || depth > DEPTH_LIMIT {
          localFaults := localFaults + [name];
        }
        i := i + 1;
      }
      assert LEDGERS[..i] == LEDGERS;
      if localFaults != [] {
        systemFaulted := true;
        trippedLedgers := localFaults;
      } else {
        systemFaulted := false;
        trippedLedgers := [];
      }
    }
  }
}
