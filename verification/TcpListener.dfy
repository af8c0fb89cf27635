/** The newline-framed JSON command server: src/network_layer/tcp_command_listener.py.
    JSON parsing is a function parameter from a line to a parse result. */
module TcpListener {
  import opened Text
  import opened Utf8

  /** A JSON value as the setpoint checks see it; null and a missing key are both None. */
  datatype Value = Missing | Number(value: real) | NotANumber | PlusInfinity | MinusInfinity | NotNumeric

  /** Malformed: the JSON decoder rejects the line. Fatal: another exception, such as a document
      that is not an object, ends the connection. */
  datatype Parsed = Malformed | Fatal | Packet(rpm: Value, yawRate: Value)

  type Parser = string -> Parsed

  datatype Reply = Accepted | MissingKey | RpmOutOfRange | YawOutOfRange | InvalidType | MalformedSyntax

  datatype Targets = Targets(rpm: real, yawRate: real)

  ghost predicate Safe(t: Targets)
  {
    -200.0 <= t.rpm <= 1200.0 && -0.8 <= t.yawRate <= 0.8
  }

  predicate Within(lo: real, v: Value, hi: real)
  {
    v.Number? && lo <= v.value <= hi
  }

  /** The validator's verdict on one packet. */
  function Judge(rpm: Value, yawRate: Value): (r: Reply)
    ensures r == Accepted <==> Within(-200.0, rpm, 1200.0) && Within(-0.8, yawRate, 0.8)
    ensures r == MissingKey <==> rpm.Missing? || yawRate.Missing?
    ensures r == RpmOutOfRange <==> !rpm.Missing? && !yawRate.Missing? && !rpm.NotNumeric? && !Within(-200.0, rpm, 1200.0)
    ensures r == YawOutOfRange <==>
      Within(-200.0, rpm, 1200.0) && !yawRate.Missing? && !yawRate.NotNumeric? && !Within(-0.8, yawRate, 0.8)
    ensures r == InvalidType <==>
      !rpm.Missing? && !yawRate.Missing? && (rpm.NotNumeric? || (Within(-200.0, rpm, 1200.0) && yawRate.NotNumeric?))
  {
    if rpm.Missing? || yawRate.Missing? then MissingKey
    else if rpm.NotNumeric? then InvalidType
    else if !Within(-200.0, rpm, 1200.0) then RpmOutOfRange
    else if yawRate.NotNumeric? then InvalidType
    else if !Within(-0.8, yawRate, 0.8) then YawOutOfRange
    else Accepted
  }

  /** The design range, its ends included. */
  lemma AcceptedRange(rpm: real, yawRate: real)
    ensures Judge(Number(rpm), Number(yawRate)) == Accepted <==> -200.0 <= rpm <= 1200.0 && -0.8 <= yawRate <= 0.8
  {
  }

  function Updated(t: Targets, rpm: Value, yawRate: Value): Targets
  {
    if Judge(rpm, yawRate) == Accepted then Targets(rpm.value, yawRate.value) else t
  }

  // ---------- Lines ----------

  predicate Blank(line: string)
  {
    forall c :: c in line ==> IsSpace(c)
  }

  /** What became of one reply handed to sendall. */
  datatype Sent = Delivered | TimedOut | Broken

  /** The outcome of the k-th reply attempted on a connection. */
  type Channel = nat -> Sent

  /** One connection. While skipping, the rest of the lines in hand are passed over. */
  datatype Session = Session(targets: Targets, replies: seq<Reply>, attempts: nat, connected: bool, skipping: bool)

  function Connected(t: Targets): Session
  {
    Session(t, [], 0, true, false)
  }

  /** A reply whose sending times out drops the lines still in hand; any other failure to send
      ends the connection. */
  function Answered(channel: Channel, s: Session, r: Reply): Session
  {
    match channel(s.attempts)
    case Delivered => s.(replies := s.replies + [r], attempts := s.attempts + 1)
    case TimedOut => s.(attempts := s.attempts + 1, skipping := true)
    case Broken => s.(attempts := s.attempts + 1, connected := false)
  }

  function ProcessLine(parse: Parser, channel: Channel, s: Session, line: string): Session
  {
    if !s.connected || s.skipping || Blank(line) then s
    else
      match parse(line)
      case Malformed => Answered(channel, s, MalformedSyntax)
      case Fatal => s.(connected := false)
      case Packet(rpm, yaw) => Answered(channel, s.(targets := Updated(s.targets, rpm, yaw)), Judge(rpm, yaw))
  }

  function ProcessLines(parse: Parser, channel: Channel, s: Session, lines: seq<string>): Session
    decreases |lines|
  {
    if lines == [] then s
    else
      var n := |lines| - 1;
      ProcessLine(parse, channel, ProcessLines(parse, channel, s, lines[..n]), lines[n])
  }

  /** The complete lines of a stream: everything before its last newline, split. */
  function CompleteLines(text: string): seq<string>
  {
    var parts := Split(text, '\n');
    parts[..|parts| - 1]
  }

  function Remainder(text: string): string
  {
    var parts := Split(text, '\n');
    parts[|parts| - 1]
  }

  lemma {:induction false} ProcessConcat(parse: Parser, channel: Channel, s: Session, a: seq<string>, b: seq<string>)
    ensures ProcessLines(parse, channel, s, a + b) == ProcessLines(parse, channel, ProcessLines(parse, channel, s, a), b)
    decreases |b|
  {
    if b == [] {
      assert a + b == a;
    } else {
      var n := |b| - 1;
      assert (a + b)[..|a + b| - 1] == a + b[..n];
      ProcessConcat(parse, channel, s, a, b[..n]);
    }
  }

  /** A closed or skipping connection passes lines over. */
  lemma {:induction false} LinesPassedOver(parse: Parser, channel: Channel, s: Session, lines: seq<string>)
    requires !s.connected || s.skipping
    ensures ProcessLines(parse, channel, s, lines) == s
  {
    if lines != [] {
      LinesPassedOver(parse, channel, s, lines[..|lines| - 1]);
    }
  }

  /** Reassembly: the complete lines of old text plus new text are those of the old text,
      then those of the retained remainder plus the new text. */
  lemma Reassembly(text: string, more: string)
    ensures CompleteLines(text + more) == CompleteLines(text) + CompleteLines(Remainder(text) + more)
    ensures Remainder(text + more) == Remainder(Remainder(text) + more)
    ensures Free(Remainder(text), '\n')
  {
    hide Split, Glue;
    var p, q := Split(text, '\n'), Split(more, '\n');
    var last := p[|p| - 1];
    LastIsFree(text);
    SplitNone(last, '\n');
    SplitConcat(text, more, '\n');
    SplitConcat(last, more, '\n');
    hide Free;
    GlueLast(p, q);
    var g, h := Glue(p, q), Glue([last], q);
    assert Split(text + more, '\n') == g && Split(last + more, '\n') == h;
    assert CompleteLines(text + more) == g[..|g| - 1] && CompleteLines(last + more) == h[..|h| - 1];
    assert Remainder(text + more) == g[|g| - 1] && Remainder(last + more) == h[|h| - 1];
    assert Remainder(text) == last && CompleteLines(text) == p[..|p| - 1];
    hide CompleteLines, Remainder;
  }

  lemma LastIsFree(text: string)
    ensures Free(Remainder(text), '\n')
  {
    SplitFree(text, '\n');
    hide Split;
  }

  lemma GlueLast(p: seq<string>, q: seq<string>)
    requires |p| >= 1 && |q| >= 1
    ensures var g, h := Glue(p, q), Glue([p[|p| - 1]], q);
      && h != []
      && g != []
      && g[..|g| - 1] == p[..|p| - 1] + h[..|h| - 1]
      && g[|g| - 1] == h[|h| - 1]
  {
  }

  // ---------- Safety of the setpoints ----------

  /** Whatever lines arrive, the setpoints stay in the design range. */
  lemma {:induction false} TargetsSafe(parse: Parser, channel: Channel, s: Session, lines: seq<string>)
    requires Safe(s.targets)
    ensures Safe(ProcessLines(parse, channel, s, lines).targets)
  {
    if lines != [] {
      TargetsSafe(parse, channel, s, lines[..|lines| - 1]);
    }
  }

  predicate IsAccepted(parse: Parser, line: string)
  {
    !Blank(line) && parse(line).Packet? && Judge(parse(line).rpm, parse(line).yawRate) == Accepted
  }

  lemma {:induction false} NoneAcceptedKeeps(parse: Parser, channel: Channel, s: Session, lines: seq<string>)
    requires forall i :: 0 <= i < |lines| ==> !IsAccepted(parse, lines[i])
    ensures ProcessLines(parse, channel, s, lines).targets == s.targets
  {
    if lines != [] {
      var n := |lines| - 1;
      NoneAcceptedKeeps(parse, channel, s, lines[..n]);
      assert !IsAccepted(parse, lines[n]);
    }
  }

  /** The setpoints are those of the last accepted packet that is processed. */
  lemma LastAcceptedWins(parse: Parser, channel: Channel, s: Session, lines: seq<string>, k: nat)
    requires k < |lines| && IsAccepted(parse, lines[k])
    requires forall i :: k < i < |lines| ==> !IsAccepted(parse, lines[i])
    requires var before := ProcessLines(parse, channel, s, lines[..k]); before.connected && !before.skipping
    ensures ProcessLines(parse, channel, s, lines).targets == Targets(parse(lines[k]).rpm.value, parse(lines[k]).yawRate.value)
  {
    var upTo, rest := lines[..k + 1], lines[k + 1..];
    assert lines == upTo + rest && upTo[..k] == lines[..k];
    ProcessConcat(parse, channel, s, upTo, rest);
    assert ProcessLines(parse, channel, s, upTo) == ProcessLine(parse, channel, ProcessLines(parse, channel, s, lines[..k]), lines[k]);
    hide ProcessLines, Blank, Judge;
    NoneAcceptedKeeps(parse, channel, ProcessLines(parse, channel, s, upTo), rest);
  }

  // ---------- The receive loop ----------

  /** One result of recv: bytes (none when the client closed), a timeout, or a socket error. */
  datatype Receipt = Data(bytes: seq<Byte>) | Timeout | SocketError

  /** The chunks read before the client closes or the socket fails. */
  function ChunksOf(receipts: seq<Receipt>): seq<seq<Byte>>
    decreases |receipts|
  {
    if receipts == [] then []
    else
      match receipts[0]
      case Data(bytes) => if bytes == [] then [] else [bytes] + ChunksOf(receipts[1..])
      case Timeout => ChunksOf(receipts[1..])
      case SocketError => []
  }

  /** The client closing, or the socket failing, ends the connection. */
  predicate Ends(r: Receipt)
  {
    r.SocketError? || (r.Data? && r.bytes == [])
  }

  /** The bytes of the receipts that carry some. */
  function Payloads(receipts: seq<Receipt>): seq<seq<Byte>>
    decreases |receipts|
  {
    if receipts == [] then []
    else
      var n := |receipts| - 1;
      Payloads(receipts[..n]) + if receipts[n].Data? && receipts[n].bytes != [] then [receipts[n].bytes] else []
  }

  /** Exactly the payloads before the first end are read; a timeout in between is passed over. */
  lemma {:induction false} ReadUntilEnd(open: seq<Receipt>, rest: seq<Receipt>)
    requires forall i :: 0 <= i < |open| ==> !Ends(open[i])
    requires rest == [] || Ends(rest[0])
    ensures ChunksOf(open + rest) == Payloads(open)
  {
    if open == [] {
      assert open + rest == rest;
    } else {
      assert (open + rest)[1..] == open[1..] + rest;
      ReadUntilEnd(open[1..], rest);
      PayloadsCons(open);
    }
  }

  lemma {:induction false} PayloadsCons(receipts: seq<Receipt>)
    requires receipts != []
    ensures Payloads(receipts) ==
      (if receipts[0].Data? && receipts[0].bytes != [] then [receipts[0].bytes] else []) + Payloads(receipts[1..])
    decreases |receipts|
  {
    var n := |receipts| - 1;
    if n > 0 {
      PayloadsCons(receipts[..n]);
      assert receipts[..n][1..] == receipts[1..][..n - 1];
    } else {
      assert receipts[..0] == [];
    }
  }

  /** A delivered reply joins those sent, one that times out drops the rest of the lines in
      hand, and one that fails otherwise leaves a connection on which nothing happens any more. */
  lemma SendOutcome(parse: Parser, channel: Channel, s: Session, line: string, more: seq<string>, r: Reply)
    requires s.connected && !s.skipping && IsAnswered(parse, line, r)
    ensures var s' := ProcessLine(parse, channel, s, line);
      && s'.attempts == s.attempts + 1
      && (channel(s.attempts) == Delivered ==> s'.replies == s.replies + [r] && s'.connected && !s'.skipping)
      && (channel(s.attempts) != Delivered ==> s'.replies == s.replies && ProcessLines(parse, channel, s', more) == s')
      && (channel(s.attempts) == TimedOut ==> s'.connected)
      && (channel(s.attempts) == Broken ==> !s'.connected)
  {
    var s' := ProcessLine(parse, channel, s, line);
    if channel(s.attempts) != Delivered {
      LinesPassedOver(parse, channel, s', more);
    }
    hide ProcessLines, Judge;
  }

  /** The line gets this reply. */
  predicate IsAnswered(parse: Parser, line: string, r: Reply)
  {
    && !Blank(line)
    && match parse(line)
       case Malformed => r == MalformedSyntax
       case Fatal => false
       case Packet(rpm, yaw) => r == Judge(rpm, yaw)
  }

  /** The receive loop: each chunk extends the buffer, its complete lines are processed, and
      lines dropped by a send that timed out stay dropped. */
  function Serve(parse: Parser, channel: Channel, s: Session, buffer: string, chunks: seq<seq<Byte>>): Session
    decreases |chunks|
  {
    if chunks == [] || !s.connected then s
    else
      var text := buffer + Decode(chunks[0]);
      var after := ProcessLines(parse, channel, s, CompleteLines(text)).(skipping := false);
      Serve(parse, channel, after, Remainder(text), chunks[1..])
  }

  /** However replies fare and the stream is cut, the setpoints stay in the design range. */
  lemma {:induction false} ServeSafe(parse: Parser, channel: Channel, s: Session, buffer: string, chunks: seq<seq<Byte>>)
    requires Safe(s.targets)
    ensures Safe(Serve(parse, channel, s, buffer, chunks).targets)
    decreases |chunks|
  {
    if chunks != [] && s.connected {
      var text := buffer + Decode(chunks[0]);
      TargetsSafe(parse, channel, s, CompleteLines(text));
      hide ProcessLines, CompleteLines, Remainder, Decode;
      ServeSafe(parse, channel, ProcessLines(parse, channel, s, CompleteLines(text)).(skipping := false), Remainder(text), chunks[1..]);
    }
  }

  // ---------- When chunking does not matter ----------

  /** Every reply before the k-th was delivered, so a k-th can be attempted. */
  ghost predicate Reached(channel: Channel, k: nat)
  {
    forall j: nat :: j < k ==> channel(j) == Delivered
  }

  /** No reply that can be attempted times out. */
  ghost predicate Timely(channel: Channel)
  {
    forall k: nat :: Reached(channel, k) ==> channel(k) != TimedOut
  }

  ghost predicate Sound(channel: Channel, s: Session)
  {
    !s.skipping && (s.connected ==> Reached(channel, s.attempts))
  }

  lemma {:induction false} TimelyLines(parse: Parser, channel: Channel, s: Session, lines: seq<string>)
    requires Timely(channel) && Sound(channel, s)
    ensures Sound(channel, ProcessLines(parse, channel, s, lines))
  {
    if lines != [] {
      var n := |lines| - 1;
      hide Blank, Judge, Updated;
      TimelyLines(parse, channel, s, lines[..n]);
      var r := ProcessLines(parse, channel, s, lines[..n]);
      assert r.connected ==> channel(r.attempts) != TimedOut;
    }
  }

  /** While no send times out, serving a stream in chunks is processing the complete lines of
      the received text, however it was cut. */
  lemma {:induction false} ServeWhole(parse: Parser, channel: Channel, s: Session, buffer: string, chunks: seq<seq<Byte>>)
    requires Timely(channel) && Sound(channel, s) && Free(buffer, '\n')
    ensures Serve(parse, channel, s, buffer, chunks) == ProcessLines(parse, channel, s, CompleteLines(buffer + DecodeChunks(chunks)))
    decreases |chunks|
  {
    hide ProcessLines, CompleteLines, Remainder, Decode, Timely, Sound;
    if chunks == [] {
      NoCompleteLine(parse, channel, s, buffer);
      assert buffer + "" == buffer;
    } else if !s.connected {
      LinesPassedOver(parse, channel, s, CompleteLines(buffer + DecodeChunks(chunks)));
    } else {
      var text, rest := buffer + Decode(chunks[0]), DecodeChunks(chunks[1..]);
      var after := ProcessLines(parse, channel, s, CompleteLines(text));
      TimelyLines(parse, channel, s, CompleteLines(text));
      assert !after.skipping by { SoundRuns(channel, after); }
      Reassembly(text, rest);
      ServeWhole(parse, channel, after, Remainder(text), chunks[1..]);
      ProcessConcat(parse, channel, s, CompleteLines(text), CompleteLines(Remainder(text) + rest));
      assert buffer + DecodeChunks(chunks) == text + rest;
    }
  }

  lemma SoundRuns(channel: Channel, s: Session)
    requires Sound(channel, s)
    ensures !s.skipping
  {
  }

  lemma NoCompleteLine(parse: Parser, channel: Channel, s: Session, buffer: string)
    requires Free(buffer, '\n')
    ensures CompleteLines(buffer) == [] && Remainder(buffer) == buffer
    ensures ProcessLines(parse, channel, s, CompleteLines(buffer)) == s
  {
    SplitNone(buffer, '\n');
  }

  /** Two cuttings of one stream that split no character. */
  ghost predicate SameStream(chunks: seq<seq<Byte>>, chunks': seq<seq<Byte>>)
  {
    Flatten(chunks) == Flatten(chunks') && CleanCuts(chunks) && CleanCuts(chunks')
  }

  /** Chunk independence: while no send times out, for every stream and every way of cutting
      it that splits no character, the replies and setpoints are those of the whole stream. */
  lemma ChunkIndependence(parse: Parser, channel: Channel, t: Targets, chunks: seq<seq<Byte>>, chunks': seq<seq<Byte>>)
    requires Timely(channel) && SameStream(chunks, chunks')
    ensures Serve(parse, channel, Connected(t), "", chunks)
         == Serve(parse, channel, Connected(t), "", chunks')
         == ProcessLines(parse, channel, Connected(t), CompleteLines(Decode(Flatten(chunks))))
  {
    hide Serve, ProcessLines, CompleteLines, Decode, DecodeChunks;
    ChunkingIrrelevantIff(chunks);
    ChunkingIrrelevantIff(chunks');
    ServeWhole(parse, channel, Connected(t), "", chunks);
    ServeWhole(parse, channel, Connected(t), "", chunks');
    assert "" + DecodeChunks(chunks) == DecodeChunks(chunks);
    assert "" + DecodeChunks(chunks') == DecodeChunks(chunks');
  }

  /** For an ASCII stream every way of cutting it gives the same replies and setpoints. */
  lemma AsciiChunkIndependence(parse: Parser, channel: Channel, t: Targets, chunks: seq<seq<Byte>>, chunks': seq<seq<Byte>>)
    requires Timely(channel) && Flatten(chunks) == Flatten(chunks') && Utf8.Ascii(Flatten(chunks))
    ensures Serve(parse, channel, Connected(t), "", chunks) == Serve(parse, channel, Connected(t), "", chunks')
  {
    AsciiCutsClean(chunks);
    AsciiCutsClean(chunks');
    ChunkIndependence(parse, channel, t, chunks, chunks');
  }

  ghost predicate ChunkingIrrelevant(channel: Channel)
  {
    forall parse: Parser, t: Targets, chunks: seq<seq<Byte>>, chunks': seq<seq<Byte>> :: SameStream(chunks, chunks') ==>
      Serve(parse, channel, Connected(t), "", chunks) == Serve(parse, channel, Connected(t), "", chunks')
  }

  /** Over all streams and parsers, the way a stream is cut is irrelevant exactly when no reply
      that can be attempted times out: a timeout drops the lines that happened to arrive in
      the same chunk. */
  lemma ChunkingIrrelevantTimelyIff(channel: Channel)
    ensures ChunkingIrrelevant(channel) <==> Timely(channel)
  {
    if Timely(channel) {
      forall parse: Parser, t: Targets, chunks: seq<seq<Byte>>, chunks': seq<seq<Byte>> | SameStream(chunks, chunks')
        ensures Serve(parse, channel, Connected(t), "", chunks) == Serve(parse, channel, Connected(t), "", chunks')
      {
        ChunkIndependence(parse, channel, t, chunks, chunks');
      }
    } else {
      var k: nat :| Reached(channel, k) && channel(k) == TimedOut;
      TimeoutLosesLines(channel, k);
    }
  }

  // ---------- When a cut character matters ----------

  /** The lines that are not passed over as blank. */
  function Commands(lines: seq<string>): (r: seq<string>)
    ensures forall i :: 0 <= i < |r| ==> !Blank(r[i])
    decreases |lines|
  {
    if lines == [] then []
    else
      var n := |lines| - 1;
      Commands(lines[..n]) + if Blank(lines[n]) then [] else [lines[n]]
  }

  lemma {:induction false} BlankPassedOver(parse: Parser, channel: Channel, s: Session, lines: seq<string>)
    ensures ProcessLines(parse, channel, s, lines) == ProcessLines(parse, channel, s, Commands(lines))
    decreases |lines|
  {
    if lines != [] {
      var n := |lines| - 1;
      BlankPassedOver(parse, channel, s, lines[..n]);
      hide Blank;
      if Blank(lines[n]) {
        assert Commands(lines) == Commands(lines[..n]);
      } else {
        assert Commands(lines) == Commands(lines[..n]) + [lines[n]];
        assert Commands(lines)[..|Commands(lines)| - 1] == Commands(lines[..n]);
      }
    }
  }

  /** A parser that tells one line from all others. */
  function Marker(x: string): Parser
  {
    (line: string) => if line == x then Packet(Missing, Missing) else Malformed
  }

  function Prompt(): Channel
  {
    (k: nat) => Delivered
  }

  lemma {:induction false} MarkedReplies(x: string, t: Targets, lines: seq<string>)
    requires forall i :: 0 <= i < |lines| ==> !Blank(lines[i])
    ensures var s := ProcessLines(Marker(x), Prompt(), Connected(t), lines);
      && s.connected && !s.skipping && |s.replies| == |lines|
      && forall i :: 0 <= i < |lines| ==> s.replies[i] == if lines[i] == x then MissingKey else MalformedSyntax
    decreases |lines|
  {
    if lines != [] {
      MarkedReplies(x, t, lines[..|lines| - 1]);
    }
  }

  /** While no send times out, the stream is served as if it had arrived in one piece. */
  ghost predicate ServedAsWhole(chunks: seq<seq<Byte>>)
  {
    forall parse: Parser, channel: Channel, t: Targets :: Timely(channel) ==>
      Serve(parse, channel, Connected(t), "", chunks) == Serve(parse, channel, Connected(t), "", [Flatten(chunks)])
  }

  /** The commands in a stream as received in chunks. */
  function Received(chunks: seq<seq<Byte>>): seq<string>
  {
    Commands(CompleteLines(DecodeChunks(chunks)))
  }

  lemma ServeCommands(parse: Parser, channel: Channel, t: Targets, chunks: seq<seq<Byte>>)
    requires Timely(channel)
    ensures Serve(parse, channel, Connected(t), "", chunks) == ProcessLines(parse, channel, Connected(t), Received(chunks))
  {
    hide Serve, ProcessLines, CompleteLines, DecodeChunks, Commands;
    ServeWhole(parse, channel, Connected(t), "", chunks);
    assert "" + DecodeChunks(chunks) == DecodeChunks(chunks);
    BlankPassedOver(parse, channel, Connected(t), CompleteLines(DecodeChunks(chunks)));
  }

  /** Over all parsers and channels without a timeout, the cutting changes a reply or a setpoint
      exactly when a cut character makes a difference in a complete line that is not blank: a
      character lost after the last newline, or in a line blank without it either way, does not. */
  lemma ServedAsWholeIff(chunks: seq<seq<Byte>>)
    ensures ServedAsWhole(chunks) <==> Received(chunks) == Received([Flatten(chunks)])
    ensures CleanCuts(chunks) ==> ServedAsWhole(chunks)
  {
    hide Serve, ProcessLines, CompleteLines, Decode, DecodeChunks, Timely, Marker, Prompt, Commands;
    var whole := [Flatten(chunks)];
    if Received(chunks) == Received(whole) {
      forall parse: Parser, channel: Channel, t: Targets | Timely(channel)
        ensures Serve(parse, channel, Connected(t), "", chunks) == Serve(parse, channel, Connected(t), "", whole)
      {
        ServeCommands(parse, channel, t, chunks);
        ServeCommands(parse, channel, t, whole);
      }
    }
    if ServedAsWhole(chunks) {
      forall x: string ensures SameMarks(x, Received(chunks), Received(whole)) {
        SameReplies(x, chunks, whole);
      }
      MarksDecide(Received(chunks), Received(whole));
    }
    if CleanCuts(chunks) {
      ChunkingIrrelevantIff(chunks);
      OnePiece(Flatten(chunks));
    }
  }

  lemma OnePiece(bytes: seq<Byte>)
    ensures DecodeChunks([bytes]) == Decode(bytes)
  {
    assert Decode(bytes) + "" == Decode(bytes);
    assert [bytes][1..] == [] && DecodeChunks([]) == "";
    hide Decode;
  }

  ghost predicate SameMarks(x: string, p: seq<string>, q: seq<string>)
  {
    |p| == |q| && forall i :: 0 <= i < |p| ==> (p[i] == x <==> q[i] == x)
  }

  lemma SameReplies(x: string, chunks: seq<seq<Byte>>, whole: seq<seq<Byte>>)
    requires whole == [Flatten(chunks)] && ServedAsWhole(chunks)
    ensures SameMarks(x, Received(chunks), Received(whole))
  {
    var t := Targets(0.0, 0.0);
    assert Timely(Prompt());
    assert forall i :: 0 <= i < |Received(chunks)| ==> !Blank(Received(chunks)[i]);
    assert forall i :: 0 <= i < |Received(whole)| ==> !Blank(Received(whole)[i]);
    hide Serve, ProcessLines, Received, Timely, Marker, Prompt, Blank;
    ServeCommands(Marker(x), Prompt(), t, chunks);
    ServeCommands(Marker(x), Prompt(), t, whole);
    MarkedReplies(x, t, Received(chunks));
    MarkedReplies(x, t, Received(whole));
  }

  lemma MarksDecide(p: seq<string>, q: seq<string>)
    requires forall x: string :: SameMarks(x, p, q)
    ensures p == q
  {
    assert SameMarks("", p, q);
    forall i | 0 <= i < |p| ensures p[i] == q[i] {
      assert SameMarks(p[i], p, q);
    }
  }

  // ---------- A timeout drops the lines in hand ----------

  const A_LINE: seq<Byte> := [65, 10]

  const B_LINE: seq<Byte> := [66, 10]

  /** Line "A" asks for 0 rpm, any other line for 1 rpm. */
  function DemoParser(line: string): Parsed
  {
    if line == "A" then Packet(Number(0.0), Number(0.0)) else Packet(Number(1.0), Number(0.0))
  }

  lemma DemoTexts()
    ensures Decode(A_LINE) == "A\n" && Decode(B_LINE) == "B\n" && Decode(A_LINE + B_LINE) == "A\nB\n"
  {
    LetterLine(65);
    LetterLine(66);
    AsciiNeverStraddles(A_LINE, B_LINE);
    DecodeConcat(A_LINE, B_LINE);
  }

  lemma LetterLine(b: Byte)
    requires b < 128
    ensures Decode([b, 10]) == [b as char, '\n']
  {
    var all := [b, 10];
    assert all[1..] == [10] && [10][1..] == [];
    assert Decode([]) == "";
    assert ScalarValue([10]) == '\n';
    assert Decode([10]) == ['\n'] + Decode([10][1..]);
  }

  lemma DemoLines()
    ensures CompleteLines("A\n") == ["A"] && Remainder("A\n") == ""
    ensures CompleteLines("B\n") == ["B"] && Remainder("B\n") == ""
    ensures CompleteLines("A\nB\n") == ["A", "B"] && Remainder("A\nB\n") == ""
  {
    SplitNone("", '\n');
    SplitNone("A", '\n');
    SplitNone("B", '\n');
    SplitJoinCons("A", "", '\n');
    SplitJoinCons("B", "", '\n');
    SplitJoinCons("A", "B\n", '\n');
    assert "A" + ['\n'] + "" == "A\n" && "B" + ['\n'] + "" == "B\n" && "A" + ['\n'] + "B\n" == "A\nB\n";
  }

  lemma DemoLine(channel: Channel, s: Session, line: string)
    requires s.connected && !s.skipping && (line == "A" || line == "B")
    ensures ProcessLine(DemoParser, channel, s, line)
         == Answered(channel, s.(targets := Targets(if line == "A" then 0.0 else 1.0, 0.0)), Accepted)
  {
    assert line[0] in line;
    assert !Blank(line);
  }

  lemma OneLine(channel: Channel, s: Session, line: string)
    ensures ProcessLines(DemoParser, channel, s, [line]) == ProcessLine(DemoParser, channel, s, line)
  {
    assert [line][..0] == [];
  }

  /** A chunk holding just one line. */
  lemma ServeLine(channel: Channel, s: Session, line: string, bytes: seq<Byte>, tail: seq<seq<Byte>>)
    requires s.connected && Decode(bytes) == line + "\n" && (line == "A" || line == "B")
    ensures Serve(DemoParser, channel, s, "", [bytes] + tail)
         == Serve(DemoParser, channel, ProcessLine(DemoParser, channel, s, line).(skipping := false), "", tail)
  {
    hide ProcessLines, ProcessLine, CompleteLines, Remainder, Decode;
    DemoLines();
    assert "" + Decode(bytes) == line + "\n" == if line == "A" then "A\n" else "B\n";
    assert ([bytes] + tail)[1..] == tail;
    OneLine(channel, s, line);
  }

  function Lines(k: nat): seq<seq<Byte>>
  {
    if k == 0 then [] else [A_LINE] + Lines(k - 1)
  }

  /** k chunks holding one line each, all answered. */
  lemma {:induction false} ServeLines(channel: Channel, s: Session, k: nat, tail: seq<seq<Byte>>) returns (r: Session)
    requires s.connected && !s.skipping && Reached(channel, s.attempts + k)
    ensures r.connected && !r.skipping && r.attempts == s.attempts + k
    ensures Serve(DemoParser, channel, s, "", Lines(k) + tail) == Serve(DemoParser, channel, r, "", tail)
    decreases k
  {
    if k == 0 {
      assert Lines(0) + tail == tail;
      r := s;
    } else {
      hide Serve;
      assert Lines(k) + tail == [A_LINE] + (Lines(k - 1) + tail);
      hide Lines;
      var next := ServeDelivered(channel, s, Lines(k - 1) + tail);
      r := ServeLines(channel, next, k - 1, tail);
    }
  }

  lemma ServeDelivered(channel: Channel, s: Session, tail: seq<seq<Byte>>) returns (r: Session)
    requires s.connected && !s.skipping && channel(s.attempts) == Delivered
    ensures r.connected && !r.skipping && r.attempts == s.attempts + 1
    ensures Serve(DemoParser, channel, s, "", [A_LINE] + tail) == Serve(DemoParser, channel, r, "", tail)
  {
    hide Serve, Decode, ProcessLine;
    DemoTexts();
    ServeLine(channel, s, "A", A_LINE, tail);
    DemoLine(channel, s, "A");
    r := ProcessLine(DemoParser, channel, s, "A").(skipping := false);
  }

  /** In one chunk the line after the timeout is dropped; in two chunks it sets the speed. */
  lemma TimeoutDrops(channel: Channel, s: Session)
    requires s.connected && !s.skipping && channel(s.attempts) == TimedOut
    ensures Serve(DemoParser, channel, s, "", [A_LINE + B_LINE]).targets.rpm == 0.0
    ensures Serve(DemoParser, channel, s, "", [A_LINE] + [B_LINE]).targets.rpm == 1.0
  {
    DemoTexts();
    DemoLine(channel, s, "A");
    var r := ProcessLine(DemoParser, channel, s, "A");
    assert r.skipping && r.connected && r.targets.rpm == 0.0;
    var r' := r.(skipping := false);
    ServeLine(channel, s, "A", A_LINE, [B_LINE]);
    ServeLine(channel, r', "B", B_LINE, []);
    assert [B_LINE] + [] == [B_LINE];
    DemoLine(channel, r', "B");
    hide Decode, ProcessLine, Answered;
    BothLines(channel, s);
    LinesPassedOver(DemoParser, channel, r, ["B"]);
    ServeDone(channel, ProcessLine(DemoParser, channel, r', "B").(skipping := false));
  }

  lemma ServeDone(channel: Channel, s: Session)
    ensures Serve(DemoParser, channel, s, "", []) == s
  {
  }

  lemma BothLines(channel: Channel, s: Session)
    requires s.connected
    ensures Serve(DemoParser, channel, s, "", [A_LINE + B_LINE])
         == ProcessLines(DemoParser, channel, ProcessLine(DemoParser, channel, s, "A"), ["B"]).(skipping := false)
  {
    hide ProcessLines, ProcessLine, CompleteLines, Remainder, Decode;
    DemoTexts();
    DemoLines();
    assert "" + Decode(A_LINE + B_LINE) == "A\nB\n";
    ProcessConcat(DemoParser, channel, s, ["A"], ["B"]);
    assert ["A"] + ["B"] == ["A", "B"];
    OneLine(channel, s, "A");
    ServeDone(channel, ProcessLines(DemoParser, channel, s, ["A", "B"]).(skipping := false));
  }

  lemma {:induction false} FlattenConcat(p: seq<seq<Byte>>, x: seq<seq<Byte>>)
    ensures Flatten(p + x) == Flatten(p) + Flatten(x)
  {
    if p == [] {
      assert p + x == x;
    } else {
      assert (p + x)[1..] == p[1..] + x && (p + x)[0] == p[0];
      FlattenConcat(p[1..], x);
      var a, b, c := p[0], Flatten(p[1..]), Flatten(x);
      assert Flatten(p) == a + b && Flatten(p + x) == a + (b + c);
      hide Flatten;
      assert a + (b + c) == a + b + c;
    }
  }

  lemma {:induction false} LinesAscii(k: nat)
    ensures Utf8.Ascii(Flatten(Lines(k)))
  {
    if k > 0 {
      LinesAscii(k - 1);
      assert Lines(k)[1..] == Lines(k - 1);
      hide Lines;
      AsciiConcat(A_LINE, Flatten(Lines(k)[1..]));
    }
  }

  lemma AsciiConcat(a: seq<Byte>, b: seq<Byte>)
    requires Utf8.Ascii(a) && Utf8.Ascii(b)
    ensures Utf8.Ascii(a + b)
  {
  }

  /** The same lines, with the last two in one chunk or in two. */
  lemma SameLines(k: nat)
    ensures SameStream(Lines(k) + [A_LINE + B_LINE], Lines(k) + ([A_LINE] + [B_LINE]))
  {
    var x, y := [A_LINE + B_LINE], [A_LINE] + [B_LINE];
    FlattenConcat(Lines(k), x);
    FlattenConcat(Lines(k), y);
    FlattenConcat([A_LINE], [B_LINE]);
    LinesAscii(k);
    FlattenOne(A_LINE);
    FlattenOne(B_LINE);
    FlattenOne(A_LINE + B_LINE);
    hide Flatten, Lines, CleanCuts;
    AsciiConcat(Flatten(Lines(k)), A_LINE + B_LINE);
    AsciiCutsClean(Lines(k) + x);
    AsciiCutsClean(Lines(k) + y);
  }

  lemma FlattenOne(a: seq<Byte>)
    ensures Flatten([a]) == a
  {
    assert [a][1..] == [];
    assert a + [] == a;
  }

  lemma TimeoutLosesLines(channel: Channel, k: nat)
    requires Reached(channel, k) && channel(k) == TimedOut
    ensures !ChunkingIrrelevant(channel)
  {
    hide Serve, SameStream;
    var x, y, t := [A_LINE + B_LINE], [A_LINE] + [B_LINE], Targets(0.0, 0.0);
    SameLines(k);
    var r := ServeLines(channel, Connected(t), k, x);
    var r' := ServeLines(channel, Connected(t), k, y);
    TimeoutDrops(channel, r);
    TimeoutDrops(channel, r');
  }

  class JsonTcpCommandListener {
    var targetSetpoints: Targets

    constructor ()
      ensures targetSetpoints == Targets(0.0, 0.0) && Safe(targetSetpoints)
    {
      targetSetpoints := Targets(0.0, 0.0);
    }

    method ValidateAndUpdateTargets(rpm: Value, yawRate: Value) returns (success: bool, reply: Reply)
      requires Safe(targetSetpoints)
      modifies this
      ensures Safe(targetSetpoints)
      ensures success <==> Within(-200.0, rpm, 1200.0) && Within(-0.8, yawRate, 0.8)
      ensures reply == Judge(rpm, yawRate)
      ensures targetSetpoints == if success then Targets(rpm.value, yawRate.value) else old(targetSetpoints)
    {
      reply := Judge(rpm, yawRate);
      if rpm.Missing? || yawRate.Missing? {
        return false, reply;
      }
      if rpm.NotNumeric? || !Within(-200.0, rpm, 1200.0) {
        return false, reply;
      }
      if yawRate.NotNumeric? || !Within(-0.8, yawRate, 0.8) {
        return false, reply;
      }
      targetSetpoints := Targets(rpm.value, yawRate.value);
      return true, reply;
    }

    method GetLatestTargets() returns (t: Targets)
      ensures t == targetSetpoints
    {
      t := targetSetpoints;
    }

    /** One connection: the replies sent and the setpoints are those of the receive loop over
        the chunks received, and the retained buffer never holds a newline. */
    method HandleClientStream(parse: Parser, channel: Channel, receipts: seq<Receipt>) returns (replies: seq<Reply>, ghost buffer: string)
      requires Safe(targetSetpoints)
      modifies this
      ensures Safe(targetSetpoints)
      ensures var s := Serve(parse, channel, Connected(old(targetSetpoints)), "", ChunksOf(receipts));
              targetSetpoints == s.targets && replies == s.replies && Free(buffer, '\n')
    {
      hide ProcessLines, CompleteLines, Remainder, Decode, Blank;
      var buf := "";
      var attempts: nat := 0;
      replies := [];
      ghost var outcome := Serve(parse, channel, Connected(targetSetpoints), "", ChunksOf(receipts));
      var i := 0;
      assert receipts[i..] == receipts;
      while i < |receipts|
        invariant 0 <= i <= |receipts| && Safe(targetSetpoints) && Free(buf, '\n')
        invariant Serve(parse, channel, Session(targetSetpoints, replies, attempts, true, false), buf, ChunksOf(receipts[i..])) == outcome
      {
        var receipt := receipts[i];
        NextReceipt(receipts, i);
        i := i + 1;
        if receipt.SocketError? || (receipt.Data? && receipt.bytes == []) {
          buffer := buf;
          return;
        }
        if receipt.Data? {
          var text := buf + Decode(receipt.bytes);
          var alive, sent, tried := ProcessBuffer(parse, channel, text, replies, attempts);
          Reassembly(text, "");
          buf := Remainder(text);
          replies, attempts := sent, tried;
          if !alive {
            buffer := buf;
            return;
          }
        }
      }
      buffer := buf;
    }

    /** The complete lines of one buffer; `alive` is false when the connection ended. */
    method ProcessBuffer(parse: Parser, channel: Channel, text: string, replies0: seq<Reply>, attempts0: nat)
      returns (alive: bool, replies: seq<Reply>, attempts: nat)
      requires Safe(targetSetpoints)
      modifies this
      ensures Safe(targetSetpoints)
      ensures Session(targetSetpoints, replies, attempts, alive, false)
           == ProcessLines(parse, channel, Session(old(targetSetpoints), replies0, attempts0, true, false), CompleteLines(text)).(skipping := false)
    {
      hide CompleteLines, Blank;
      var lines := CompleteLines(text);
      ghost var start := Session(targetSetpoints, replies0, attempts0, true, false);
      replies, attempts := replies0, attempts0;
      var i := 0;
      while i < |lines|
        invariant 0 <= i <= |lines| && Safe(targetSetpoints)
        invariant Session(targetSetpoints, replies, attempts, true, false) == ProcessLines(parse, channel, start, lines[..i])
      {
        var line := lines[i];
        ProcessSnoc(parse, channel, start, lines, i);
        i := i + 1;
        if !Blank(line) {
          var reply := MalformedSyntax;
          match parse(line) {
            case Malformed =>
            case Fatal =>
              RestPassedOver(parse, channel, start, lines, i);
              return false, replies, attempts;
            case Packet(rpm, yawRate) =>
              var success, verdict := ValidateAndUpdateTargets(rpm, yawRate);
              reply := verdict;
          }
          var sent := channel(attempts);
          attempts := attempts + 1;
          if sent != Delivered {
            RestPassedOver(parse, channel, start, lines, i);
            return sent == TimedOut, replies, attempts;
          }
          replies := replies + [reply];
        }
      }
      assert lines[..i] == lines;
      alive := true;
    }
  }

  /** Once a line has ended or suspended the processing, the rest has no effect. */
  lemma RestPassedOver(parse: Parser, channel: Channel, s: Session, lines: seq<string>, i: nat)
    requires i <= |lines|
    requires var r := ProcessLines(parse, channel, s, lines[..i]); !r.connected || r.skipping
    ensures ProcessLines(parse, channel, s, lines) == ProcessLines(parse, channel, s, lines[..i])
  {
    assert lines == lines[..i] + lines[i..];
    ProcessConcat(parse, channel, s, lines[..i], lines[i..]);
    LinesPassedOver(parse, channel, ProcessLines(parse, channel, s, lines[..i]), lines[i..]);
  }

  lemma NextReceipt(receipts: seq<Receipt>, i: nat)
    requires i < |receipts|
    ensures ChunksOf(receipts[i..]) ==
      match receipts[i]
      case Data(bytes) => if bytes == [] then [] else [bytes] + ChunksOf(receipts[i + 1..])
      case Timeout => ChunksOf(receipts[i + 1..])
      case SocketError => []
  {
    assert receipts[i..][1..] == receipts[i + 1..];
  }

  lemma ProcessSnoc(parse: Parser, channel: Channel, s: Session, lines: seq<string>, i: nat)
    requires i < |lines|
    ensures ProcessLines(parse, channel, s, lines[..i + 1]) == ProcessLine(parse, channel, ProcessLines(parse, channel, s, lines[..i]), lines[i])
  {
    assert lines[..i + 1][..i] == lines[..i];
  }
}
