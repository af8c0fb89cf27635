/** The chained audit logger: src/network_layer/shore_audit_logger.py. One session is a
    transition system over the atomic steps of the capturing thread and the disk worker. */
module ShoreLogger {
  import opened Common
  import opened Text
  import opened BootVerifier

  const QUEUE_LIMIT: nat := 1000

  const CSV_HEADERS: Row := [
    "timestamp_epoch", "authority_mode", "crane_power_pct",
    "crane_hook_locked", "blast_door_state", "breaker_relay_state",
    "sump_pump_state", "hvac_humidity_setpoint", "heating_valve_open",
    "current_row_sha256", "previous_row_sha256"
  ]

  const SHA: nat := 9
  const PREV: nat := 10

  /** The nine metric fields of a snapshot, as printed. */
  type Snapshot = s: seq<string> | |s| == 9 witness ["", "", "", "", "", "", "", "", ""]

  /** Where the disk worker is in its loop. */
  datatype Worker =
    | Starting                                 // storage paths not yet initialised
    | Ready                                    // about to test the loop condition and dequeue
    | Holding(data: Snapshot)                  // dequeued, row not yet on disk
    | Appended(data: Snapshot, hash: Digest)   // row on disk, hash not yet cached
    | Publishing                               // hash cached, live-state file not yet written
    | Exited

  /** What became of a write: on disk; refused, the file not even opened; or cut off, the file
      opened, and created if need be, with nothing written. */
  datatype Write = Done | Refused | Cut

  /** The day's file: none, or its rows. */
  type File = Option<seq<Row>>

  function RowsOf(f: File): seq<Row>
  {
    if f.Some? then f.value else []
  }

  function After(f: File, w: Write, row: Row): File
  {
    match w
    case Done => Some(RowsOf(f) + [row])
    case Refused => f
    case Cut => Some(RowsOf(f))
  }

  /** The logger with its file and a history of what became of every capture. */
  datatype State = State(
    queue: seq<Snapshot>,
    isLogging: bool,
    previousRowHash: Digest,
    file: File,
    worker: Worker,
    pending: Option<Snapshot>,   // a capture past its is-logging test and before its enqueue
    accepted: seq<Snapshot>,     // captures that passed the is-logging test
    written: seq<Snapshot>,
    lost: seq<Snapshot>,         // dequeued, then hit by a disk fault
    dropped: seq<Snapshot>,      // the queue was full
    lateAtExit: bool)            // a capture was pending when the worker exited

  datatype Action =
    | InitialiseStorage(write: Write)
    | BeginCapture(s: Snapshot)
    | FinishCapture
    | Dequeue
    | AppendRow(write: Write)
    | CacheHash
    | PublishState
    | Stop
    | Exit

  /** The state right after start_logger_services, with the cached hash, the file of the day
      and whatever an earlier session left in the queue. */
  function Started(previous: Digest, file: File, queue: seq<Snapshot>): State
  {
    State(queue, true, previous, file, Starting, None, queue, [], [], [], false)
  }

  function RowHash(hash: Hasher, s: Snapshot, previous: string): Digest
  {
    hash(Sealed(Join(s, ','), previous))
  }

  function CsvRow(hash: Hasher, s: Snapshot, previous: string): Row
  {
    s + [RowHash(hash, s, previous), previous]
  }

  /** One atomic step; a step that is not enabled changes nothing. */
  function Step(hash: Hasher, st: State, a: Action): State
  {
    match a
    case InitialiseStorage(write) =>
      if !st.worker.Starting? then st
      else st.(worker := Ready, file := if st.file.None? then After(st.file, write, CSV_HEADERS) else st.file)
    case BeginCapture(s) =>
      if !st.isLogging || st.pending.Some? then st
      else st.(pending := Some(s), accepted := st.accepted + [s])
    case FinishCapture =>
      if st.pending.None? then st
      else if |st.queue| < QUEUE_LIMIT then st.(pending := None, queue := st.queue + [st.pending.value])
      else st.(pending := None, dropped := st.dropped + [st.pending.value])
    case Dequeue =>
      if !st.worker.Ready? || st.queue == [] then st
      else st.(queue := st.queue[1..], worker := Holding(st.queue[0]))
    case AppendRow(write) =>
      if !st.worker.Holding? then st
      else
        var d := st.worker.data;
        var file := After(st.file, write, CsvRow(hash, d, st.previousRowHash));
        if !write.Done? then st.(worker := Ready, file := file, lost := st.lost + [d])
        else st.(
          worker := Appended(d, RowHash(hash, d, st.previousRowHash)),
          file := file,
          written := st.written + [d])
    case CacheHash =>
      if !st.worker.Appended? then st
      else st.(worker := Publishing, previousRowHash := st.worker.hash)
    case PublishState =>
      if !st.worker.Publishing? then st else st.(worker := Ready)
    case Stop => st.(isLogging := false)
    case Exit =>
      if !st.worker.Ready? || st.isLogging || st.queue != [] then st
      else st.(worker := Exited, lateAtExit := st.pending.Some?)
  }

  function Run(hash: Hasher, st: State, actions: seq<Action>): State
    decreases |actions|
  {
    if actions == [] then st
    else
      var n := |actions| - 1;
      Step(hash, Run(hash, st, actions[..n]), actions[n])
  }

  /** A capture is dropped exactly when 1000 snapshots are queued; otherwise it joins the queue. */
  lemma DroppedIff(hash: Hasher, st: State, s: Snapshot)
    requires st.pending == Some(s)
    ensures var st' := Step(hash, st, FinishCapture);
      && (st'.dropped == st.dropped + [s] <==> |st.queue| >= 1000)
      && (|st.queue| < 1000 ==> st'.queue == st.queue + [s] && st'.dropped == st.dropped)
      && (|st.queue| >= 1000 ==> st'.queue == st.queue)
  {
    assert |st.dropped + [s]| == |st.dropped| + 1;
  }

  // ---------- The file a session writes ----------

  /** The hash after writing the snapshots ss on top of the hash p. */
  function HashAfter(hash: Hasher, p: Digest, ss: seq<Snapshot>): Digest
  {
    if ss == [] then p
    else
      var n := |ss| - 1;
      RowHash(hash, ss[n], HashAfter(hash, p, ss[..n]))
  }

  function RowsFor(hash: Hasher, p: Digest, ss: seq<Snapshot>): seq<Row>
  {
    if ss == [] then []
    else
      var n := |ss| - 1;
      RowsFor(hash, p, ss[..n]) + [CsvRow(hash, ss[n], HashAfter(hash, p, ss[..n]))]
  }

  ghost predicate Extends(file: seq<Row>, base: seq<Row>, rows: seq<Row>)
  {
    file == base + rows
  }

  ghost predicate FileInvariant(hash: Hasher, p: Digest, file0: File, st: State)
  {
    && (st.worker.Starting? ==> st.file == file0 && st.written == [])
    && (file0.Some? || st.written != [] ==> st.file.Some?)
    && (Extends(RowsOf(st.file), RowsOf(file0), RowsFor(hash, p, st.written))
        || (file0.None? && Extends(RowsOf(st.file), [CSV_HEADERS], RowsFor(hash, p, st.written))))
    && (if st.worker.Appended? then
          && st.written != []
          && st.worker.hash == HashAfter(hash, p, st.written)
          && st.previousRowHash == HashAfter(hash, p, st.written[..|st.written| - 1])
        else st.previousRowHash == HashAfter(hash, p, st.written))
  }

  lemma FileStep(hash: Hasher, p: Digest, file0: File, st: State, a: Action)
    requires FileInvariant(hash, p, file0, st)
    ensures FileInvariant(hash, p, file0, Step(hash, st, a))
  {
    hide RowsFor, HashAfter, CsvRow, RowHash;
    match a
    case AppendRow(write) =>
      if write.Done? && st.worker.Holding? {
        FileAppend(hash, p, file0, st);
      }
    case InitialiseStorage(write) =>
      RowsForNothing(hash, p);
      assert [CSV_HEADERS] + [] == [] + [CSV_HEADERS] == [CSV_HEADERS];
      assert RowsOf(file0) + [] == RowsOf(file0);
    case _ =>
  }

  lemma RowsForNothing(hash: Hasher, p: Digest)
    ensures RowsFor(hash, p, []) == []
  {
  }

  lemma FileAppend(hash: Hasher, p: Digest, file0: File, st: State)
    requires FileInvariant(hash, p, file0, st) && st.worker.Holding?
    ensures FileInvariant(hash, p, file0, Step(hash, st, AppendRow(Done)))
  {
    var d, rows, row := st.worker.data, RowsFor(hash, p, st.written), CsvRow(hash, st.worker.data, st.previousRowHash);
    var st' := Step(hash, st, AppendRow(Done));
    assert st' == st.(worker := Appended(d, RowHash(hash, d, st.previousRowHash)), file := Some(RowsOf(st.file) + [row]), written := st.written + [d]);
    hide Step, CsvRow, RowHash;
    RowsSnoc(hash, p, st.written, d);
    HashSnoc(hash, p, st.written, d);
    hide RowsFor, HashAfter;
    ExtendsMore(RowsOf(st.file), RowsOf(file0), rows, row);
    ExtendsMore(RowsOf(st.file), [CSV_HEADERS], rows, row);
    hide Extends;
    assert st'.written[..|st'.written| - 1] == st.written;
  }

  lemma ExtendsMore(file: seq<Row>, base: seq<Row>, rows: seq<Row>, row: Row)
    ensures Extends(file, base, rows) ==> Extends(file + [row], base, rows + [row])
  {
  }

  lemma HashSnoc(hash: Hasher, p: Digest, ss: seq<Snapshot>, d: Snapshot)
    ensures HashAfter(hash, p, ss + [d]) == RowHash(hash, d, HashAfter(hash, p, ss))
  {
    assert (ss + [d])[..|ss|] == ss;
  }

  /** Under every interleaving the file is the starting file followed by the chained rows of
      the written snapshots, and the cached hash is that of the last row once cached. */
  lemma {:induction false} FileReachable(hash: Hasher, p: Digest, file0: File, queue0: seq<Snapshot>, actions: seq<Action>)
    ensures FileInvariant(hash, p, file0, Run(hash, Started(p, file0, queue0), actions))
  {
    if actions == [] {
      assert RowsOf(file0) + RowsFor(hash, p, []) == RowsOf(file0);
    } else {
      var n := |actions| - 1;
      FileReachable(hash, p, file0, queue0, actions[..n]);
      FileStep(hash, p, file0, Run(hash, Started(p, file0, queue0), actions[..n]), actions[n]);
    }
  }

  /** The verdict the boot check gives the file; there is nothing to check if there is none. */
  ghost predicate BootAccepts(hash: Hasher, file: File)
  {
    file.Some? ==> CheckFile(hash, FileText(true, file.value, false)) == Secure
  }

  lemma HeaderColumns()
    ensures IndexOf(CSV_HEADERS, SHA_HEADER) == Some(SHA)
    ensures IndexOf(CSV_HEADERS, PREV_HEADER) == Some(PREV)
  {
    assert CSV_HEADERS[SHA] == SHA_HEADER && CSV_HEADERS[PREV] == PREV_HEADER;
    forall j | 0 <= j < PREV ensures CSV_HEADERS[j] != PREV_HEADER && (j < SHA ==> CSV_HEADERS[j] != SHA_HEADER) {
      assert |CSV_HEADERS[j]| != 19 || CSV_HEADERS[j][0] == 'b';
      assert j < SHA ==> |CSV_HEADERS[j]| != 18 || CSV_HEADERS[j][0] == 'h';
    }
    FirstIndex(CSV_HEADERS, SHA_HEADER, SHA);
    FirstIndex(CSV_HEADERS, PREV_HEADER, PREV);
  }

  lemma {:induction false} FirstIndex(headers: Row, name: string, k: nat)
    requires k < |headers| && headers[k] == name
    requires forall j :: 0 <= j < k ==> headers[j] != name
    ensures IndexOf(headers, name) == Some(k)
  {
  }

  lemma {:induction false} NonBlankAppend(a: seq<Row>, b: seq<Row>)
    requires forall k :: 0 <= k < |b| ==> b[k] != []
    ensures NonBlank(a + b) == NonBlank(a) + b
  {
    if a == [] {
      assert a + b == b;
      NonBlankAll(b);
    } else {
      assert (a + b)[1..] == a[1..] + b;
      NonBlankAppend(a[1..], b);
    }
  }

  lemma {:induction false} NonBlankAll(b: seq<Row>)
    requires forall k :: 0 <= k < |b| ==> b[k] != []
    ensures NonBlank(b) == b
  {
    if b != [] {
      NonBlankAll(b[1..]);
    }
  }

  lemma {:induction false} RowsForFull(hash: Hasher, p: Digest, ss: seq<Snapshot>)
    ensures |RowsFor(hash, p, ss)| == |ss|
    ensures forall k :: 0 <= k < |ss| ==> |RowsFor(hash, p, ss)[k]| == 11
  {
    if ss != [] {
      RowsForFull(hash, p, ss[..|ss| - 1]);
    }
  }

  /** Appending a session that starts from the hash p to an accepted chain keeps it accepted
      exactly when nothing was written or p is the hash the chain ends in. */
  lemma {:induction false} ContinuedChain(hash: Hasher, p: Digest, base: seq<Row>, ss: seq<Snapshot>)
    requires Chained(hash, SHA, PREV, base)
    ensures Chained(hash, SHA, PREV, base + RowsFor(hash, p, ss)) <==> ss == [] || p == EndHash(SHA, base)
    ensures ss != [] ==> EndHash(SHA, base + RowsFor(hash, p, ss)) == HashAfter(hash, p, ss)
  {
    var rows := base + RowsFor(hash, p, ss);
    if ss == [] {
      assert rows == base;
    } else {
      var n := |ss| - 1;
      var s, q := ss[n], HashAfter(hash, p, ss[..n]);
      var row, rows' := CsvRow(hash, s, q), base + RowsFor(hash, p, ss[..n]);
      ContinuedChain(hash, p, base, ss[..n]);
      assert rows == rows' + [row];
      assert rows[..|rows| - 1] == rows';
      ChainedSnoc(hash, SHA, PREV, rows);
      assert row[..SHA] == s;
      assert Body(row, SHA) == Join(s, ',');
      assert row[SHA] == RowHash(hash, s, q) && row[PREV] == q;
      assert RowLinked(hash, SHA, PREV, row, EndHash(SHA, rows')) <==> q == EndHash(SHA, rows');
      if n == 0 {
        assert ss[..n] == [];
        assert rows' == base;
      }
    }
  }

  /** Restart law: a session that starts from the cached hash p on a file of accepted rows
      leaves an accepted file, in any reachable state, exactly when it has written nothing or
      p is the last recorded hash. */
  lemma SessionAccepted(hash: Hasher, p: Digest, rows0: seq<Row>, queue0: seq<Snapshot>, actions: seq<Action>)
    requires Chained(hash, SHA, PREV, NonBlank(rows0))
    ensures var st := Run(hash, Started(p, Some([CSV_HEADERS] + rows0), queue0), actions);
            BootAccepts(hash, st.file) <==> st.written == [] || p == EndHash(SHA, NonBlank(rows0))
  {
    hide Run, Started, BootAccepts;
    FileReachable(hash, p, Some([CSV_HEADERS] + rows0), queue0, actions);
    AcceptedSuffix(hash, p, rows0, Run(hash, Started(p, Some([CSV_HEADERS] + rows0), queue0), actions).written);
  }

  /** A new process starts from the genesis hash. If it writes to a ledger that already holds
      rows, the boot check accepts the result only if some text hashes to the genesis value. */
  lemma NewProcessBreaksLedger(hash: Hasher, rows0: seq<Row>, actions: seq<Action>) returns (text: string)
    requires Chained(hash, SHA, PREV, NonBlank(rows0)) && NonBlank(rows0) != []
    ensures var st := Run(hash, Started(GENESIS, Some([CSV_HEADERS] + rows0), []), actions);
            st.written != [] && BootAccepts(hash, st.file) ==> hash(text) == GENESIS
  {
    hide Run, Started, BootAccepts, NonBlank, RowHash;
    var rows := NonBlank(rows0);
    var n := |rows| - 1;
    SessionAccepted(hash, GENESIS, rows0, [], actions);
    ChainedSnoc(hash, SHA, PREV, rows);
    text := Sealed(Body(rows[n], SHA), EndHash(SHA, rows[..n]));
  }

  lemma AcceptedSuffix(hash: Hasher, p: Digest, rows0: seq<Row>, ss: seq<Snapshot>)
    requires Chained(hash, SHA, PREV, NonBlank(rows0))
    ensures BootAccepts(hash, Some([CSV_HEADERS] + rows0 + RowsFor(hash, p, ss))) <==> ss == [] || p == EndHash(SHA, NonBlank(rows0))
  {
    hide RowsFor, Chained, BootAccepts, NonBlank, EndHash;
    var file := [CSV_HEADERS] + rows0 + RowsFor(hash, p, ss);
    assert file[1..] == rows0 + RowsFor(hash, p, ss);
    ContinuedChain(hash, p, NonBlank(rows0), ss);
    SecureHeader(hash, file);
    RowsForFull(hash, p, ss);
    NonBlankAppend(rows0, RowsFor(hash, p, ss));
  }

  lemma SecureHeader(hash: Hasher, file: seq<Row>)
    requires file != [] && file[0] == CSV_HEADERS
    ensures BootAccepts(hash, Some(file)) <==> Chained(hash, SHA, PREV, NonBlank(file[1..]))
  {
    hide CheckFile, IndexOf, Chained;
    HeaderColumns();
    SecureMeaning(hash, FileText(true, file, false));
  }

  /** The outcome of the first attempt to write the header. */
  function FirstInit(actions: seq<Action>): Option<Write>
  {
    if actions == [] then None
    else if actions[0].InitialiseStorage? then Some(actions[0].write)
    else FirstInit(actions[1..])
  }

  lemma {:induction false} FirstInitSnoc(actions: seq<Action>, a: Action)
    ensures FirstInit(actions + [a]) ==
      if FirstInit(actions).Some? then FirstInit(actions) else if a.InitialiseStorage? then Some(a.write) else None
  {
    if actions == [] {
      assert [] + [a] == [a];
    } else {
      assert (actions + [a])[1..] == actions[1..] + [a];
      FirstInitSnoc(actions[1..], a);
    }
  }

  /** No append of the history was cut off. */
  ghost predicate NoneCut(actions: seq<Action>)
  {
    forall i :: 0 <= i < |actions| ==> actions[i] != AppendRow(Cut)
  }

  /** The file of a day that had none: nothing before storage is initialised, then the header
      row if it was written, then the rows written. A write that was cut off leaves a file. */
  ghost predicate FreshFile(hash: Hasher, p: Digest, init: Option<Write>, noneCut: bool, st: State)
  {
    && (init.None? <==> st.worker.Starting?)
    && RowsOf(st.file) == (if init == Some(Done) then [CSV_HEADERS] else []) + RowsFor(hash, p, st.written)
    && (init.None? ==> st.file.None? && st.written == [])
    && (init == Some(Done) || init == Some(Cut) ==> st.file.Some?)
    && (init == Some(Refused) && noneCut && st.written == [] ==> st.file.None?)
  }

  lemma {:induction false} FreshReachable(hash: Hasher, p: Digest, queue0: seq<Snapshot>, actions: seq<Action>)
    ensures FreshFile(hash, p, FirstInit(actions), NoneCut(actions), Run(hash, Started(p, None, queue0), actions))
  {
    if actions != [] {
      var n := |actions| - 1;
      var st := Run(hash, Started(p, None, queue0), actions[..n]);
      FreshReachable(hash, p, queue0, actions[..n]);
      FileReachable(hash, p, None, queue0, actions[..n]);
      assert actions[..n] + [actions[n]] == actions;
      FirstInitSnoc(actions[..n], actions[n]);
      assert NoneCut(actions) ==> NoneCut(actions[..n]) && actions[n] != AppendRow(Cut);
      hide FirstInit, RowHash;
      FreshStep(hash, p, FirstInit(actions[..n]), NoneCut(actions[..n]), st, actions[n]);
    }
  }

  lemma FreshStep(hash: Hasher, p: Digest, init: Option<Write>, noneCut: bool, st: State, a: Action)
    requires FreshFile(hash, p, init, noneCut, st) && FileInvariant(hash, p, None, st)
    ensures var init' := if init.Some? then init else if a.InitialiseStorage? then Some(a.write) else None;
            FreshFile(hash, p, init', noneCut && a != AppendRow(Cut), Step(hash, st, a))
  {
    hide RowHash, HashAfter, CsvRow, RowsFor;
    match a
    case AppendRow(write) =>
      if write.Done? && st.worker.Holding? {
        RowsSnoc(hash, p, st.written, st.worker.data);
      }
    case InitialiseStorage(write) =>
      RowsForNothing(hash, p);
      assert [CSV_HEADERS] + [] == [] + [CSV_HEADERS] == [CSV_HEADERS];
    case _ =>
  }

  lemma RowsSnoc(hash: Hasher, p: Digest, ss: seq<Snapshot>, d: Snapshot)
    ensures RowsFor(hash, p, ss + [d]) == RowsFor(hash, p, ss) + [CsvRow(hash, d, HashAfter(hash, p, ss))]
  {
    assert (ss + [d])[..|ss|] == ss;
  }

  /** The law of a fresh ledger. A session that starts from the hash p on a day without a file,
      and whose header was written, leaves a file that the boot check accepts, in every
      reachable state, exactly when nothing was written or p is the genesis hash: a new
      process is always accepted, a process that kept its hash from an earlier day is rejected
      from its first row on. */
  lemma FreshSessionAccepted(hash: Hasher, p: Digest, queue0: seq<Snapshot>, actions: seq<Action>)
    requires FirstInit(actions) == Some(Done)
    ensures var st := Run(hash, Started(p, None, queue0), actions);
      && (BootAccepts(hash, st.file) <==> st.written == [] || p == GENESIS)
      && st.file.Some? && st.file.value != []
      && (st.written != [] && !st.worker.Appended? ==> st.previousRowHash == EndHash(SHA, st.file.value[1..]))
  {
    hide Run, BootAccepts, RowsFor, HashAfter, FirstInit;
    var st := Run(hash, Started(p, None, queue0), actions);
    FreshReachable(hash, p, queue0, actions);
    FileReachable(hash, p, None, queue0, actions);
    var rows := RowsFor(hash, p, st.written);
    assert [CSV_HEADERS] + [] + rows == [CSV_HEADERS] + rows;
    AcceptedSuffix(hash, p, [], st.written);
    ContinuedChain(hash, p, [], st.written);
    assert [] + rows == rows && st.file.value[1..] == rows;
  }

  /** If the header could not be written, the first data row takes its place. With rows written
      the check accepts the file exactly when both hash column names occur among the fields of
      the first snapshot and the later snapshots' own fields form a hash chain in those columns;
      in particular it rejects whenever a name is missing. With none written it accepts exactly
      when there is no file: a write that was cut off leaves an empty one, which is rejected. */
  lemma HeaderFaultRejected(hash: Hasher, p: Digest, queue0: seq<Snapshot>, actions: seq<Action>)
    requires FirstInit(actions) == Some(Refused) || FirstInit(actions) == Some(Cut)
    ensures var st := Run(hash, Started(p, None, queue0), actions);
      && (BootAccepts(hash, st.file) <==> if st.written == [] then st.file.None? else PosesAsLedger(hash, st.written))
      && (st.written == [] && FirstInit(actions) == Some(Cut) ==> st.file == Some([]))
      && (st.written == [] && FirstInit(actions) == Some(Refused) && NoneCut(actions) ==> st.file.None?)
  {
    hide Run, BootAccepts, RowsFor, FirstInit, PosesAsLedger, NoneCut;
    FreshReachable(hash, p, queue0, actions);
    var st := Run(hash, Started(p, None, queue0), actions);
    FileReachable(hash, p, None, queue0, actions);
    assert RowsOf(st.file) == [] + RowsFor(hash, p, st.written) == RowsFor(hash, p, st.written);
    Headerless(hash, p, st);
    RowsForNothing(hash, p);
  }

  /** A session on an empty file left by an earlier fault never writes a header either. */
  lemma EmptyFileRejected(hash: Hasher, p: Digest, queue0: seq<Snapshot>, actions: seq<Action>)
    ensures var st := Run(hash, Started(p, Some([]), queue0), actions);
      BootAccepts(hash, st.file) <==> st.written != [] && PosesAsLedger(hash, st.written)
  {
    hide Run, BootAccepts, RowsFor, PosesAsLedger;
    var st := Run(hash, Started(p, Some([]), queue0), actions);
    FileReachable(hash, p, Some([]), queue0, actions);
    assert [] + RowsFor(hash, p, st.written) == RowsFor(hash, p, st.written);
    Headerless(hash, p, st);
  }

  lemma Headerless(hash: Hasher, p: Digest, st: State)
    requires RowsOf(st.file) == RowsFor(hash, p, st.written) && (st.written != [] ==> st.file.Some?)
    ensures BootAccepts(hash, st.file) <==> if st.written == [] then st.file.None? else PosesAsLedger(hash, st.written)
  {
    hide RowsFor, PosesAsLedger, CheckFile;
    if st.written == [] {
      RowsForNothing(hash, p);
      SecureMeaning(hash, FileText(true, [], false));
    } else {
      HeaderlessMeaning(hash, p, st.written);
    }
  }

  /** The first snapshot's fields name both hash columns, and the later ones chain in them. */
  ghost predicate PosesAsLedger(hash: Hasher, ss: seq<Snapshot>)
    requires ss != []
  {
    var sha, prev := IndexOf(ss[0], SHA_HEADER), IndexOf(ss[0], PREV_HEADER);
    sha.Some? && prev.Some? && Chained(hash, sha.value, prev.value, AsRows(ss[1..]))
  }

  function AsRows(ss: seq<Snapshot>): (rows: seq<Row>)
    ensures |rows| == |ss| && forall i :: 0 <= i < |ss| ==> rows[i] == ss[i]
  {
    seq(|ss|, i requires 0 <= i < |ss| => ss[i])
  }

  lemma HeaderlessMeaning(hash: Hasher, p: Digest, ss: seq<Snapshot>)
    requires ss != []
    ensures BootAccepts(hash, Some(RowsFor(hash, p, ss))) <==> PosesAsLedger(hash, ss)
  {
    var file := RowsFor(hash, p, ss);
    RowsForFull(hash, p, ss);
    FirstRow(hash, p, ss);
    HeaderOfRow(file[0], ss[0]);
    SecureMeaning(hash, FileText(true, file, false));
    NonBlankAll(file[1..]);
    hide CheckFile, IndexOf, RowsFor;
    var sha, prev := IndexOf(ss[0], SHA_HEADER), IndexOf(ss[0], PREV_HEADER);
    if sha.Some? && prev.Some? {
      SameLeadingFields(hash, p, ss);
      SameChain(hash, sha.value, prev.value, file[1..], AsRows(ss[1..]));
    }
  }

  predicate SameNine(x: Row, y: Row)
  {
    |x| >= 9 && |y| >= 9 && x[..9] == y[..9]
  }

  ghost predicate SameFront(a: seq<Row>, b: seq<Row>)
  {
    |a| == |b| && forall k :: 0 <= k < |a| ==> SameNine(a[k], b[k])
  }

  /** Two tables that agree in their first nine columns chain alike in any two of them. */
  lemma {:induction false} SameChain(hash: Hasher, sha: nat, prev: nat, a: seq<Row>, b: seq<Row>)
    requires sha < 9 && prev < 9 && SameFront(a, b)
    ensures Chained(hash, sha, prev, a) <==> Chained(hash, sha, prev, b)
    decreases |a|
  {
    hide RowLinked, SameNine, EndHash;
    if a != [] {
      hide Chained;
      var n := |a| - 1;
      SameChain(hash, sha, prev, a[..n], b[..n]);
      SameEnd(sha, a[..n], b[..n]);
      ChainedSnoc(hash, sha, prev, a);
      ChainedSnoc(hash, sha, prev, b);
      SameLink(hash, sha, prev, a[n], b[n], EndHash(sha, a[..n]));
    }
  }

  lemma SameEnd(sha: nat, a: seq<Row>, b: seq<Row>)
    requires sha < 9 && SameFront(a, b)
    ensures EndHash(sha, a) == EndHash(sha, b)
  {
    if a != [] {
      SameFields(a[|a| - 1], b[|b| - 1], sha);
      hide SameNine;
    }
  }

  lemma SameLink(hash: Hasher, sha: nat, prev: nat, a: Row, b: Row, tracking: string)
    requires sha < 9 && prev < 9 && SameNine(a, b)
    ensures RowLinked(hash, sha, prev, a, tracking) <==> RowLinked(hash, sha, prev, b, tracking)
  {
    SameFields(a, b, sha);
    SameFields(a, b, prev);
    hide SameNine;
  }

  lemma SameFields(a: Row, b: Row, i: nat)
    requires i < 9 && SameNine(a, b)
    ensures |a| >= 9 && |b| >= 9 && a[i] == b[i] && a[..i] == b[..i]
  {
    assert a[i] == a[..9][i] && b[i] == b[..9][i];
    assert a[..i] == a[..9][..i] && b[..i] == b[..9][..i];
  }

  lemma SameLeadingFields(hash: Hasher, p: Digest, ss: seq<Snapshot>)
    requires ss != []
    ensures |RowsFor(hash, p, ss)| > 0 && SameFront(RowsFor(hash, p, ss)[1..], AsRows(ss[1..]))
  {
    LeadingFields(hash, p, ss);
    hide RowsFor;
    var rows := RowsFor(hash, p, ss);
    forall k | 0 <= k < |ss| - 1 ensures SameNine(rows[1..][k], AsRows(ss[1..])[k]) {
      assert rows[1..][k] == rows[k + 1];
      assert ss[k + 1][..9] == ss[k + 1];
    }
  }

  lemma {:induction false} LeadingFields(hash: Hasher, p: Digest, ss: seq<Snapshot>)
    ensures |RowsFor(hash, p, ss)| == |ss|
    ensures forall k :: 0 <= k < |ss| ==> |RowsFor(hash, p, ss)[k]| >= 9 && RowsFor(hash, p, ss)[k][..9] == ss[k]
  {
    if ss != [] {
      hide RowHash;
      LeadingFields(hash, p, ss[..|ss| - 1]);
    }
  }

  /** In a data row only the snapshot's own fields can spell a column name: the two hashes
      are 64 characters long. */
  lemma HeaderOfRow(row: Row, s: Snapshot)
    requires |row| == 11 && row[..9] == s && |row[9]| == 64 && |row[10]| == 64
    ensures IndexOf(row, SHA_HEADER) == IndexOf(s, SHA_HEADER) && IndexOf(row, PREV_HEADER) == IndexOf(s, PREV_HEADER)
  {
    assert |SHA_HEADER| == 18 && |PREV_HEADER| == 19;
    assert row == s + row[9..];
    IndexInFront(s, row[9..], SHA_HEADER);
    IndexInFront(s, row[9..], PREV_HEADER);
  }

  lemma {:induction false} IndexInFront(a: Row, b: Row, name: string)
    requires forall i :: 0 <= i < |b| ==> b[i] != name
    ensures IndexOf(a + b, name) == IndexOf(a, name)
  {
    if a == [] {
      assert a + b == b;
      assert name !in b;
    } else {
      assert (a + b)[1..] == a[1..] + b;
      IndexInFront(a[1..], b, name);
    }
  }

  lemma {:induction false} FirstRow(hash: Hasher, p: Digest, ss: seq<Snapshot>)
    requires ss != []
    ensures |RowsFor(hash, p, ss)| > 0 && RowsFor(hash, p, ss)[0] == CsvRow(hash, ss[0], p)
  {
    var n := |ss| - 1;
    if n > 0 {
      FirstRow(hash, p, ss[..n]);
    }
  }

  // ---------- Conservation and order ----------

  function InFlight(w: Worker): seq<Snapshot>
  {
    if w.Holding? then [w.data] else []
  }

  function Optional(o: Option<Snapshot>): seq<Snapshot>
  {
    if o.Some? then [o.value] else []
  }

  /** a can be obtained from b by leaving elements out. */
  ghost predicate Subsequence<T>(a: seq<T>, b: seq<T>)
  {
    if a == [] then true
    else if b == [] then false
    else
      var m, n := |a| - 1, |b| - 1;
      (a[m] == b[n] && Subsequence(a[..m], b[..n])) || Subsequence(a, b[..n])
  }

  lemma {:induction false} SubsequenceReflexive<T>(a: seq<T>)
    ensures Subsequence(a, a)
  {
    if a != [] {
      SubsequenceReflexive(a[..|a| - 1]);
    }
  }

  /** Taking one element out keeps a subsequence. */
  lemma {:induction false} SubsequenceRemove<T>(a: seq<T>, x: T, c: seq<T>, b: seq<T>)
    requires Subsequence(a + [x] + c, b)
    ensures Subsequence(a + c, b)
    decreases |b|
  {
    var l, r := a + [x] + c, a + c;
    var m, n := |l| - 1, |b| - 1;
    if r != [] {
      if l[m] == b[n] && Subsequence(l[..m], b[..n]) {
        if c == [] {
          assert l[..m] == r;
        } else {
          assert l[..m] == a + [x] + c[..|c| - 1];
          assert r[..|r| - 1] == a + c[..|c| - 1];
          SubsequenceRemove(a, x, c[..|c| - 1], b[..n]);
        }
      } else {
        SubsequenceRemove(a, x, c, b[..n]);
      }
    }
  }

  /** The items in line together with those lost and dropped are the accepted ones, and the
      line keeps their order. */
  ghost predicate Balanced<T>(line: seq<T>, accepted: seq<T>, lost: seq<T>, dropped: seq<T>)
  {
    && multiset(accepted) == multiset(line) + multiset(lost) + multiset(dropped)
    && Subsequence(line, accepted)
  }

  lemma BalancedAccept<T>(line: seq<T>, accepted: seq<T>, lost: seq<T>, dropped: seq<T>, x: T)
    requires Balanced(line, accepted, lost, dropped)
    ensures Balanced(line + [x], accepted + [x], lost, dropped)
  {
  }

  lemma BalancedLeave<T>(a: seq<T>, x: T, c: seq<T>, accepted: seq<T>, lost: seq<T>, dropped: seq<T>)
    requires Balanced(a + [x] + c, accepted, lost, dropped)
    ensures Balanced(a + c, accepted, lost + [x], dropped)
    ensures Balanced(a + c, accepted, lost, dropped + [x])
  {
    SubsequenceRemove(a, x, c, accepted);
    assert multiset(a + [x] + c) == multiset(a + c) + multiset{x};
  }

  /** Captures on their way to the file, oldest first. */
  function Line(st: State): seq<Snapshot>
  {
    st.written + InFlight(st.worker) + st.queue + Optional(st.pending)
  }

  /** Every accepted capture is written, in flight, queued, pending, lost to a disk fault or
      dropped at a full queue, once each; what is written or on its way keeps the order. */
  ghost predicate Conserved(st: State)
  {
    Balanced(Line(st), st.accepted, st.lost, st.dropped) && |st.queue| <= QUEUE_LIMIT
  }

  lemma ConservedStep(hash: Hasher, st: State, a: Action)
    requires Conserved(st)
    ensures Conserved(Step(hash, st, a))
  {
    hide Conserved, Step;
    match a
    case BeginCapture(s) => ConservedBegin(hash, st, s);
    case FinishCapture => ConservedFinish(hash, st);
    case Dequeue => ConservedDequeue(hash, st);
    case AppendRow(write) => ConservedAppend(hash, st, write);
    case _ => ConservedElsewhere(hash, st, a);
  }

  lemma ConservedElsewhere(hash: Hasher, st: State, a: Action)
    requires Conserved(st)
    requires !a.BeginCapture? && !a.FinishCapture? && !a.Dequeue? && !a.AppendRow?
    ensures Conserved(Step(hash, st, a))
  {
    hide Balanced, CsvRow, RowHash;
    assert Line(Step(hash, st, a)) == Line(st);
  }

  lemma ConservedBegin(hash: Hasher, st: State, s: Snapshot)
    requires Conserved(st)
    ensures Conserved(Step(hash, st, BeginCapture(s)))
  {
    hide Balanced;
    if st.isLogging && st.pending.None? {
      BalancedAccept(Line(st), st.accepted, st.lost, st.dropped, s);
      assert Line(Step(hash, st, BeginCapture(s))) == Line(st) + [s];
    }
  }

  lemma ConservedDequeue(hash: Hasher, st: State)
    requires Conserved(st)
    ensures Conserved(Step(hash, st, Dequeue))
  {
    hide Balanced;
    if st.worker.Ready? && st.queue != [] {
      assert st.queue == [st.queue[0]] + st.queue[1..];
      assert Line(Step(hash, st, Dequeue)) == Line(st);
    }
  }

  lemma ConservedFinish(hash: Hasher, st: State)
    requires Conserved(st)
    ensures Conserved(Step(hash, st, FinishCapture))
  {
    hide Balanced;
    if st.pending.Some? {
      var s, front := st.pending.value, st.written + InFlight(st.worker) + st.queue;
      assert Line(st) == front + [s] + [];
      BalancedLeave(front, s, [], st.accepted, st.lost, st.dropped) by {
        assert Balanced(front + [s] + [], st.accepted, st.lost, st.dropped);
      }
      var st' := Step(hash, st, FinishCapture);
      assert Line(st') == if |st.queue| < QUEUE_LIMIT then front + [s] else front + [];
    }
  }

  lemma ConservedAppend(hash: Hasher, st: State, write: Write)
    requires Conserved(st)
    ensures Conserved(Step(hash, st, AppendRow(write)))
  {
    hide Balanced, CsvRow, RowHash;
    if st.worker.Holding? {
      var d, tail := st.worker.data, st.queue + Optional(st.pending);
      assert Line(st) == st.written + [d] + tail;
      BalancedLeave(st.written, d, tail, st.accepted, st.lost, st.dropped);
      var st' := Step(hash, st, AppendRow(write));
      assert Line(st') == if write.Done? then st.written + [d] + tail else st.written + tail;
    }
  }

  /** Conservation holds in every reachable state of every interleaving. */
  lemma {:induction false} ConservedReachable(hash: Hasher, p: Digest, file0: File, queue0: seq<Snapshot>, actions: seq<Action>)
    requires |queue0| <= QUEUE_LIMIT
    ensures Conserved(Run(hash, Started(p, file0, queue0), actions))
  {
    if actions == [] {
      assert Line(Started(p, file0, queue0)) == queue0;
      SubsequenceReflexive(queue0);
    } else {
      var n := |actions| - 1;
      ConservedReachable(hash, p, file0, queue0, actions[..n]);
      ConservedStep(hash, Run(hash, Started(p, file0, queue0), actions[..n]), actions[n]);
    }
  }

  // ---------- What the drain leaves behind ----------

  ghost predicate ExitInvariant(st: State)
  {
    && (st.worker.Exited? ==>
         !st.isLogging && |st.queue| + |Optional(st.pending)| == if st.lateAtExit then 1 else 0)
    && (!st.worker.Exited? ==> !st.lateAtExit)
  }

  /** After the worker has exited, exactly the capture that was between its test and its
      enqueue at that moment, if there was one, is left behind. */
  lemma {:induction false} ExitReachable(hash: Hasher, p: Digest, file0: File, queue0: seq<Snapshot>, actions: seq<Action>)
    ensures ExitInvariant(Run(hash, Started(p, file0, queue0), actions))
  {
    if actions != [] {
      var n := |actions| - 1;
      ExitReachable(hash, p, file0, queue0, actions[..n]);
    }
  }

  lemma {:induction false} RunSplit(hash: Hasher, st: State, a: seq<Action>, b: seq<Action>)
    ensures Run(hash, st, a + b) == Run(hash, Run(hash, st, a), b)
    decreases |b|
  {
    if b == [] {
      assert a + b == a;
    } else {
      var n := |b| - 1;
      assert (a + b)[..|a + b| - 1] == a + b[..n];
      RunSplit(hash, st, a, b[..n]);
    }
  }

  lemma {:induction false} StoppedStaysQuiet(hash: Hasher, st: State, actions: seq<Action>)
    requires !st.isLogging && st.pending.None? && !st.lateAtExit
    ensures var st' := Run(hash, st, actions); !st'.isLogging && st'.pending.None? && !st'.lateAtExit
  {
    if actions != [] {
      StoppedStaysQuiet(hash, st, actions[..|actions| - 1]);
    }
  }

  /** Stopping from the capturing thread itself, that is with no capture half done, leaves
      nothing queued once the worker has exited: every accepted capture has been written,
      lost to a disk fault, or dropped at a full queue. */
  lemma OrderlyStop(hash: Hasher, p: Digest, file0: File, queue0: seq<Snapshot>, before: seq<Action>, after: seq<Action>)
    requires |queue0| <= QUEUE_LIMIT
    requires Run(hash, Started(p, file0, queue0), before).pending.None?
    requires !Run(hash, Started(p, file0, queue0), before).worker.Exited?
    ensures var st := Run(hash, Started(p, file0, queue0), before + ([Stop] + after));
            st.worker.Exited? ==>
              st.queue == [] && multiset(st.accepted) == multiset(st.written) + multiset(st.lost) + multiset(st.dropped)
  {
    var st0 := Run(hash, Started(p, file0, queue0), before);
    var actions := before + ([Stop] + after);
    var st := Run(hash, Started(p, file0, queue0), actions);
    ExitReachable(hash, p, file0, queue0, before);
    RunSplit(hash, Started(p, file0, queue0), before, [Stop] + after);
    RunSplit(hash, st0, [Stop], after);
    assert Run(hash, st0, [Stop]) == Step(hash, st0, Stop) by {
      assert Run(hash, st0, [Stop][..0]) == st0;
    }
    StoppedStaysQuiet(hash, Step(hash, st0, Stop), after);
    ExitReachable(hash, p, file0, queue0, actions);
    ConservedReachable(hash, p, file0, queue0, actions);
    if st.worker.Exited? {
      assert Line(st) == st.written;
    }
  }

  /** A stop from another thread can strand a capture: it tests the flag, the logger stops and
      the worker exits, and only then is the capture queued. */
  lemma StrandedCapture(hash: Hasher, s: Snapshot)
    ensures var st := Run(hash, Started(GENESIS, None, []), [InitialiseStorage(Done), BeginCapture(s), Stop, Exit, FinishCapture]);
            st.worker.Exited? && st.lateAtExit && st.queue == [s]
  {
    var rest := [BeginCapture(s), Stop, Exit, FinishCapture];
    RunCons(hash, Started(GENESIS, None, []), InitialiseStorage(Done), rest);
    assert [InitialiseStorage(Done)] + rest == [InitialiseStorage(Done), BeginCapture(s), Stop, Exit, FinishCapture];
    hide Run;
    StrandedFrom(hash, Step(hash, Started(GENESIS, None, []), InitialiseStorage(Done)), s);
  }

  lemma StrandedFrom(hash: Hasher, st: State, s: Snapshot)
    requires st.worker.Ready? && st.queue == [] && st.isLogging && st.pending.None?
    ensures var st' := Run(hash, st, [BeginCapture(s), Stop, Exit, FinishCapture]);
            st'.worker.Exited? && st'.lateAtExit && st'.queue == [s]
  {
    hide Run;
    assert [BeginCapture(s)] + [Stop, Exit, FinishCapture] == [BeginCapture(s), Stop, Exit, FinishCapture];
    assert [Stop] + [Exit, FinishCapture] == [Stop, Exit, FinishCapture];
    assert [Exit] + [FinishCapture] == [Exit, FinishCapture];
    assert [FinishCapture] + [] == [FinishCapture];
    RunCons(hash, st, BeginCapture(s), [Stop, Exit, FinishCapture]);
    var st2 := Step(hash, st, BeginCapture(s));
    RunCons(hash, st2, Stop, [Exit, FinishCapture]);
    var st3 := Step(hash, st2, Stop);
    RunCons(hash, st3, Exit, [FinishCapture]);
    RunCons(hash, Step(hash, st3, Exit), FinishCapture, []);
    RunNothing(hash, Step(hash, Step(hash, st3, Exit), FinishCapture));
  }

  lemma RunNothing(hash: Hasher, st: State)
    ensures Run(hash, st, []) == st
  {
  }

  lemma RunCons(hash: Hasher, st: State, a: Action, rest: seq<Action>)
    ensures Run(hash, st, [a] + rest) == Run(hash, Step(hash, st, a), rest)
  {
    RunSplit(hash, st, [a], rest);
    assert Run(hash, st, [a][..0]) == st;
  }

  // ---------- The logger object ----------

  /** A capture that nothing interrupts. */
  function CapturePass(hash: Hasher, st: State, s: Snapshot): State
  {
    Step(hash, Step(hash, st, BeginCapture(s)), FinishCapture)
  }

  /** One pass of the worker loop, once its condition holds. */
  function WorkerPass(hash: Hasher, st: State, write: Write): State
  {
    if st.queue == [] then st
    else
      var st' := Step(hash, Step(hash, st, Dequeue), AppendRow(write));
      if !write.Done? then st' else Step(hash, Step(hash, st', CacheHash), PublishState)
  }

  class ShoreFacilityAuditLogger {
    const hash: Hasher
    var logQueue: seq<Snapshot>
    var isLogging: bool
    var previousRowHash: Digest
    var csvFile: File
    ghost var history: State   // where the worker is and what became of the captures

    ghost predicate Valid()
      reads this
    {
      history.queue == logQueue && history.isLogging == isLogging
      && history.previousRowHash == previousRowHash && history.file == csvFile
      && history.pending.None?
    }

    /** A new process: genesis hash, and the day's file as found on disk. */
    constructor (hash: Hasher, file: File)
      ensures Valid() && !isLogging && logQueue == []
      ensures this.hash == hash && previousRowHash == GENESIS && csvFile == file
    {
      this.hash := hash;
      logQueue, isLogging, previousRowHash, csvFile := [], false, GENESIS, file;
      history := State([], false, GENESIS, file, Exited, None, [], [], [], [], false);
    }

    /** The date at the start selects the file, given here as found on disk; the
        cached hash and the queue are kept from the session before. */
    method StartLoggerServices(dayFile: File)
      requires Valid()
      modifies this
      ensures Valid()
      ensures history == if old(isLogging) then old(history) else Started(old(previousRowHash), dayFile, old(logQueue))
    {
      if !isLogging {
        isLogging := true;
        csvFile := dayFile;
        history := Started(previousRowHash, dayFile, logQueue);
      }
    }

    method InitializeStoragePaths(write: Write)
      requires Valid() && history.worker.Starting?
      modifies this
      ensures Valid() && history == Step(hash, old(history), InitialiseStorage(write))
    {
      if csvFile.None? {
        csvFile := After(csvFile, write, CSV_HEADERS);
      }
      history := Step(hash, history, InitialiseStorage(write));
    }

    method CaptureFacilityStateSnapshot(s: Snapshot)
      requires Valid()
      modifies this
      ensures Valid() && history == CapturePass(hash, old(history), s)
    {
      history := CapturePass(hash, history, s);
      if !isLogging {
        return;
      }
      if |logQueue| < QUEUE_LIMIT {
        logQueue := logQueue + [s];
      }
    }

    /** One dequeue, append and publish, with or without a disk fault at the append. */
    method WriteNext(write: Write)
      requires Valid() && history.worker.Ready?
      modifies this
      ensures Valid() && history.worker.Ready? && history == WorkerPass(hash, old(history), write)
    {
      history := WorkerPass(hash, history, write);
      if logQueue == [] {
        return;
      }
      var data := logQueue[0];
      logQueue := logQueue[1..];
      var current := RowHash(hash, data, previousRowHash);
      csvFile := After(csvFile, write, data + [current, previousRowHash]);
      if !write.Done? {
        return;
      }
      previousRowHash := current;
    }

    method StopLoggerServices()
      requires Valid()
      modifies this
      ensures Valid() && history == Step(hash, old(history), Stop)
    {
      isLogging := false;
      history := Step(hash, history, Stop);
    }

    /** The worker loop once logging has stopped: a run of the atomic steps that empties the
        queue and exits; without disk faults every queued snapshot is written, in order. */
    method DrainQueue(write: nat -> Write) returns (ghost actions: seq<Action>)
      requires Valid() && history.worker.Ready? && !isLogging
      modifies this
      ensures Valid() && logQueue == [] && history.worker.Exited?
      ensures history == Run(hash, old(history), actions)
      ensures (forall i: nat :: write(i) == Done) ==> history.written == old(history).written + old(logQueue)
    {
      hide Run, WorkerPass, CsvRow, RowHash;
      RunNothing(hash, history);
      actions := [];
      var i: nat := 0;
      while logQueue != []
        invariant Valid() && history.worker.Ready? && !isLogging
        invariant history == Run(hash, old(history), actions)
        invariant (forall i: nat :: write(i) == Done) ==> history.written + logQueue == old(history).written + old(logQueue)
        decreases |logQueue|
      {
        WorkerPassEffect(hash, history, write(i));
        actions := PassActions(hash, old(history), actions, write(i));
        WriteNext(write(i));
        i := i + 1;
      }
      assert history.written + [] == history.written;
      RunSnoc(hash, old(history), actions, Exit);
      actions := actions + [Exit];
      history := Step(hash, history, Exit);
    }
  }

  lemma RunSnoc(hash: Hasher, st: State, actions: seq<Action>, a: Action)
    ensures Run(hash, st, actions + [a]) == Step(hash, Run(hash, st, actions), a)
  {
  }

  /** A pass takes the head of the queue; without a fault the line to the file is unchanged. */
  lemma WorkerPassEffect(hash: Hasher, st: State, write: Write)
    requires st.worker.Ready? && st.queue != []
    ensures var st' := WorkerPass(hash, st, write);
      && st'.queue == st.queue[1..]
      && st'.isLogging == st.isLogging
      && (write.Done? ==> st'.written + st'.queue == st.written + st.queue)
  {
  }

  ghost method PassActions(hash: Hasher, st: State, actions: seq<Action>, write: Write) returns (l: seq<Action>)
    requires Run(hash, st, actions).queue != []
    ensures Run(hash, st, l) == WorkerPass(hash, Run(hash, st, actions), write)
  {
    var m := Run(hash, st, actions);
    var pass := if !write.Done? then [Dequeue, AppendRow(write)] else [Dequeue, AppendRow(Done), CacheHash, PublishState];
    l := actions + pass;
    RunSplit(hash, st, actions, pass);
    var m1 := Step(hash, m, Dequeue);
    if !write.Done? {
      RunCons(hash, m, Dequeue, [AppendRow(write)]);
      RunCons(hash, m1, AppendRow(write), []);
      assert pass == [Dequeue] + [AppendRow(write)] && [AppendRow(write)] + [] == [AppendRow(write)];
      RunNothing(hash, Step(hash, m1, AppendRow(write)));
    } else {
      RunCons(hash, m, Dequeue, [AppendRow(Done), CacheHash, PublishState]);
      RunCons(hash, m1, AppendRow(Done), [CacheHash, PublishState]);
      var m2 := Step(hash, m1, AppendRow(Done));
      RunCons(hash, m2, CacheHash, [PublishState]);
      RunCons(hash, Step(hash, m2, CacheHash), PublishState, []);
      assert pass == [Dequeue] + [AppendRow(Done), CacheHash, PublishState];
      assert [AppendRow(Done), CacheHash, PublishState] == [AppendRow(Done)] + [CacheHash, PublishState];
      assert [CacheHash, PublishState] == [CacheHash] + [PublishState] && [PublishState] + [] == [PublishState];
      RunNothing(hash, Step(hash, Step(hash, m2, CacheHash), PublishState));
    }
  }
}
