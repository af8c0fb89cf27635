/** The boot-time ledger check: src/config/boot_verification_suite.py. SHA-256 is an
    arbitrary function from text to 64-character digests. */
module BootVerifier {
  import opened Common
  import opened Text

  const ZEROS_16: string := "0000000000000000"

  /** 64 zeros. */
  const GENESIS: string := ZEROS_16 + ZEROS_16 + ZEROS_16 + ZEROS_16

  type Digest = s: string | |s| == 64 witness GENESIS

  type Hasher = string -> Digest

  type Row = seq<string>

  /** The joined metric fields that a row's hash covers. */
  function Body(row: Row, sha: nat): string
    requires sha <= |row|
  {
    Join(row[..sha], ',')
  }

  function Sealed(body: string, previous: string): string
  {
    body + [','] + previous
  }

  /** What a row's hash covers is its fields and the previous hash, joined by commas. */
  lemma {:induction false} SealedIsJoin(fields: seq<string>, previous: string)
    requires fields != []
    ensures Sealed(Join(fields, ','), previous) == Join(fields + [previous], ',')
  {
    if |fields| > 1 {
      SealedIsJoin(fields[1..], previous);
      assert (fields + [previous])[1..] == fields[1..] + [previous];
    }
  }

  function Zeros(n: nat): string
  {
    if n == 0 then "" else "0" + Zeros(n - 1)
  }

  lemma {:induction false} ZerosConcat(m: nat, n: nat)
    ensures Zeros(m + n) == Zeros(m) + Zeros(n)
  {
    if m == 0 {
      assert "" + Zeros(n) == Zeros(n);
    } else {
      ZerosConcat(m - 1, n);
      var a, b := Zeros(m - 1), Zeros(n);
      assert Zeros(m) == "0" + a && Zeros(m + n) == "0" + (a + b);
      hide Zeros;
      assert "0" + (a + b) == "0" + a + b;
    }
  }

  /** The chain starts from 64 zeros. */
  lemma GenesisIsZeros()
    ensures GENESIS == Zeros(64)
  {
    assert Zeros(1) == "0" && Zeros(2) == "00" && Zeros(4) == "0000";
    hide Zeros;
    ZerosConcat(4, 4);
    ZerosConcat(8, 8);
    ZerosConcat(16, 16);
    ZerosConcat(32, 32);
    assert Zeros(8) == "00000000";
    assert Zeros(16) == ZEROS_16;
    assert Zeros(32) == ZEROS_16 + ZEROS_16;
    assert Zeros(64) == ZEROS_16 + ZEROS_16 + (ZEROS_16 + ZEROS_16);
  }

  function NonBlank(rows: seq<Row>): seq<Row>
  {
    if rows == [] then []
    else if rows[0] == [] then NonBlank(rows[1..])
    else [rows[0]] + NonBlank(rows[1..])
  }

  datatype Verdict = Secure | UnprotectedSchema | Tampered(row: nat) | Unreadable

  predicate RowLinked(hash: Hasher, sha: nat, prev: nat, row: Row, tracking: string)
  {
    && sha < |row| && prev < |row|
    && row[sha] == hash(Sealed(Body(row, sha), tracking))
    && row[prev] == tracking
  }

  /** The row-by-row check, from file row number n on. A row too short for the hash columns
      raises an index error, which the check reports as an unreadable file. */
  function CheckRows(hash: Hasher, sha: nat, prev: nat, rows: seq<Row>, n: nat, tracking: string): Verdict
    decreases |rows|
  {
    if rows == [] then Secure
    else if rows[0] == [] then CheckRows(hash, sha, prev, rows[1..], n + 1, tracking)
    else if |rows[0]| <= sha || |rows[0]| <= prev then Unreadable
    else if RowLinked(hash, sha, prev, rows[0], tracking) then CheckRows(hash, sha, prev, rows[1..], n + 1, rows[0][sha])
    else Tampered(n + 1)
  }

  // ---------- What acceptance means ----------

  /** The last recorded hash, or the genesis hash of an empty ledger. */
  function EndHash(sha: nat, rows: seq<Row>): string
  {
    if rows == [] || |rows[|rows| - 1]| <= sha then GENESIS else rows[|rows| - 1][sha]
  }

  /** Every row seals its body with its predecessor's recorded hash. */
  ghost predicate Chained(hash: Hasher, sha: nat, prev: nat, rows: seq<Row>)
  {
    forall k :: 0 <= k < |rows| ==> RowLinked(hash, sha, prev, rows[k], EndHash(sha, rows[..k]))
  }

  lemma ChainedSnoc(hash: Hasher, sha: nat, prev: nat, rows: seq<Row>)
    requires |rows| > 0
    ensures var n := |rows| - 1;
            Chained(hash, sha, prev, rows)
            <==> Chained(hash, sha, prev, rows[..n]) && RowLinked(hash, sha, prev, rows[n], EndHash(sha, rows[..n]))
  {
    var n := |rows| - 1;
    assert forall k :: 0 <= k <= n ==> rows[..n][..k] == rows[..k];
    if Chained(hash, sha, prev, rows[..n]) && RowLinked(hash, sha, prev, rows[n], EndHash(sha, rows[..n])) {
      forall k | 0 <= k < |rows| ensures RowLinked(hash, sha, prev, rows[k], EndHash(sha, rows[..k])) {
        if k < n {
          assert rows[..n][k] == rows[k];
        }
      }
    }
    if Chained(hash, sha, prev, rows) {
      forall k | 0 <= k < n ensures RowLinked(hash, sha, prev, rows[..n][k], EndHash(sha, rows[..n][..k])) {
        assert rows[..n][k] == rows[k];
      }
    }
  }

  /** The check started after an accepted prefix accepts exactly the accepted extensions. */
  lemma {:induction false} CheckRowsMeaning(hash: Hasher, sha: nat, prev: nat, done: seq<Row>, rows: seq<Row>, n: nat)
    requires Chained(hash, sha, prev, done)
    ensures CheckRows(hash, sha, prev, rows, n, EndHash(sha, done)) == Secure
            <==> Chained(hash, sha, prev, done + NonBlank(rows))
    decreases |rows|
  {
    if rows == [] {
      assert done + [] == done;
    } else if rows[0] == [] {
      CheckRowsMeaning(hash, sha, prev, done, rows[1..], n + 1);
    } else {
      var all, done' := done + NonBlank(rows), done + [rows[0]];
      assert all == done' + NonBlank(rows[1..]);
      assert done'[..|done|] == done;
      ChainedSnoc(hash, sha, prev, done');
      if RowLinked(hash, sha, prev, rows[0], EndHash(sha, done)) {
        CheckRowsMeaning(hash, sha, prev, done', rows[1..], n + 1);
      } else {
        assert all[|done|] == rows[0] && all[..|done|] == done;
      }
    }
  }

  /** The reported row is the first one, blanks counted, that breaks the chain. */
  lemma {:induction false} TamperedIsFirst(hash: Hasher, sha: nat, prev: nat, rows: seq<Row>, n: nat, tracking: string)
    ensures var v := CheckRows(hash, sha, prev, rows, n, tracking);
            v.Tampered? ==>
              && n < v.row <= n + |rows|
              && rows[v.row - n - 1] != []
              && CheckRows(hash, sha, prev, rows[..v.row - n - 1], n, tracking) == Secure
              && CheckRows(hash, sha, prev, rows[..v.row - n], n, tracking) == v
    decreases |rows|
  {
    var v := CheckRows(hash, sha, prev, rows, n, tracking);
    if rows != [] && v.Tampered? {
      var k := v.row - n;
      if rows[0] == [] {
        TamperedIsFirst(hash, sha, prev, rows[1..], n + 1, tracking);
        Heads(rows, k);
      } else if RowLinked(hash, sha, prev, rows[0], tracking) {
        TamperedIsFirst(hash, sha, prev, rows[1..], n + 1, rows[0][sha]);
        Heads(rows, k);
      }
    }
  }

  // ---------- The verdict, by position ----------

  /** The rows before the r-th chain on from done, blanks skipped. */
  ghost predicate SoundBefore(hash: Hasher, sha: nat, prev: nat, done: seq<Row>, rows: seq<Row>, r: nat)
  {
    1 <= r <= |rows| && Chained(hash, sha, prev, done + NonBlank(rows[..r - 1])) && rows[r - 1] != []
  }

  /** The r-th row holds both hashes, and they do not continue the chain. */
  ghost predicate BreaksAt(hash: Hasher, sha: nat, prev: nat, done: seq<Row>, rows: seq<Row>, r: nat)
  {
    && SoundBefore(hash, sha, prev, done, rows, r)
    && |rows[r - 1]| > sha && |rows[r - 1]| > prev
    && !RowLinked(hash, sha, prev, rows[r - 1], EndHash(sha, done + NonBlank(rows[..r - 1])))
  }

  /** The r-th row is too short for the hashes. */
  ghost predicate TornAt(hash: Hasher, sha: nat, prev: nat, done: seq<Row>, rows: seq<Row>, r: nat)
  {
    SoundBefore(hash, sha, prev, done, rows, r) && (|rows[r - 1]| <= sha || |rows[r - 1]| <= prev)
  }

  /** Past a first row that is blank or continues the chain, a position is that one in the
      remaining rows. */
  lemma PositionShifts(hash: Hasher, sha: nat, prev: nat, done: seq<Row>, rows: seq<Row>, r: nat)
    requires rows != [] && r >= 2
    ensures var done' := if rows[0] == [] then done else done + [rows[0]];
      && (BreaksAt(hash, sha, prev, done, rows, r) <==> BreaksAt(hash, sha, prev, done', rows[1..], r - 1))
      && (TornAt(hash, sha, prev, done, rows, r) <==> TornAt(hash, sha, prev, done', rows[1..], r - 1))
  {
    hide RowLinked, EndHash, Chained;
    if r <= |rows| {
      var done' := if rows[0] == [] then done else done + [rows[0]];
      assert rows[..r - 1][1..] == rows[1..][..r - 2];
      assert rows[..r - 1][0] == rows[0];
      assert done + NonBlank(rows[..r - 1]) == done' + NonBlank(rows[1..][..r - 2]);
      assert rows[1..][r - 2] == rows[r - 1];
    }
  }

  /** At the first row only that row matters. */
  lemma FirstPosition(hash: Hasher, sha: nat, prev: nat, done: seq<Row>, rows: seq<Row>)
    requires rows != [] && Chained(hash, sha, prev, done)
    ensures var long := |rows[0]| > sha && |rows[0]| > prev;
      && (BreaksAt(hash, sha, prev, done, rows, 1) <==> rows[0] != [] && long && !RowLinked(hash, sha, prev, rows[0], EndHash(sha, done)))
      && (TornAt(hash, sha, prev, done, rows, 1) <==> rows[0] != [] && !long)
  {
    hide RowLinked, EndHash, Chained;
    assert rows[..0] == [] && done + [] == done;
  }

  /** A first row that breaks the chain or is torn leaves no later position sound. */
  lemma NothingAfter(hash: Hasher, sha: nat, prev: nat, done: seq<Row>, rows: seq<Row>, r: nat)
    requires rows != [] && rows[0] != [] && r >= 2
    requires !RowLinked(hash, sha, prev, rows[0], EndHash(sha, done))
    ensures !SoundBefore(hash, sha, prev, done, rows, r)
  {
    if r <= |rows| {
      var all := done + NonBlank(rows[..r - 1]);
      assert rows[..r - 1][0] == rows[0];
      assert all[|done|] == rows[0] && all[..|done|] == done;
      hide RowLinked, EndHash;
    }
  }

  /** The verdict on the rows after an accepted prefix, exactly: corruption is reported at row
      n + r when the r-th row is the one that breaks the chain, and the file counts as
      unreadable when a row that should continue it is too short. */
  lemma {:induction false} VerdictExact(hash: Hasher, sha: nat, prev: nat, done: seq<Row>, rows: seq<Row>, n: nat)
    requires Chained(hash, sha, prev, done)
    ensures var v := CheckRows(hash, sha, prev, rows, n, EndHash(sha, done));
      && (forall r: nat :: r >= 1 ==> (v == Tampered(n + r) <==> BreaksAt(hash, sha, prev, done, rows, r)))
      && (v.Tampered? ==> v.row > n)
      && (v == Unreadable <==> exists r: nat :: TornAt(hash, sha, prev, done, rows, r))
      && v != UnprotectedSchema
    decreases |rows|
  {
    hide RowLinked, BreaksAt, TornAt, Chained, EndHash;
    var v := CheckRows(hash, sha, prev, rows, n, EndHash(sha, done));
    if rows == [] {
      forall r: nat ensures !BreaksAt(hash, sha, prev, done, rows, r) && !TornAt(hash, sha, prev, done, rows, r) {
        NoPosition(hash, sha, prev, done, rows, r);
      }
    } else {
      FirstPosition(hash, sha, prev, done, rows);
      NoPosition(hash, sha, prev, done, rows, 0);
      if rows[0] == [] || RowLinked(hash, sha, prev, rows[0], EndHash(sha, done)) {
        var done' := if rows[0] == [] then done else done + [rows[0]];
        LinkedOn(hash, sha, prev, done, rows[0]);
        VerdictExact(hash, sha, prev, done', rows[1..], n + 1);
        LaterPositions(hash, sha, prev, done, done', rows, n, v);
      } else {
        forall r: nat | r >= 2 ensures !BreaksAt(hash, sha, prev, done, rows, r) && !TornAt(hash, sha, prev, done, rows, r) {
          NothingAfter(hash, sha, prev, done, rows, r);
          Unsound(hash, sha, prev, done, rows, r);
        }
      }
    }
  }

  lemma NoPosition(hash: Hasher, sha: nat, prev: nat, done: seq<Row>, rows: seq<Row>, r: nat)
    requires r == 0 || rows == []
    ensures !BreaksAt(hash, sha, prev, done, rows, r) && !TornAt(hash, sha, prev, done, rows, r)
  {
  }

  lemma Unsound(hash: Hasher, sha: nat, prev: nat, done: seq<Row>, rows: seq<Row>, r: nat)
    requires !SoundBefore(hash, sha, prev, done, rows, r)
    ensures !BreaksAt(hash, sha, prev, done, rows, r) && !TornAt(hash, sha, prev, done, rows, r)
  {
  }

  lemma LinkedOn(hash: Hasher, sha: nat, prev: nat, done: seq<Row>, row: Row)
    requires Chained(hash, sha, prev, done)
    ensures RowLinked(hash, sha, prev, row, EndHash(sha, done)) ==>
      |row| > sha && |row| > prev && Chained(hash, sha, prev, done + [row]) && EndHash(sha, done + [row]) == row[sha]
  {
    ChainedSnoc(hash, sha, prev, done + [row]);
    assert (done + [row])[..|done|] == done;
    hide Chained;
  }

  lemma LaterPositions(hash: Hasher, sha: nat, prev: nat, done: seq<Row>, done': seq<Row>, rows: seq<Row>, n: nat, v: Verdict)
    requires rows != [] && done' == if rows[0] == [] then done else done + [rows[0]]
    requires !BreaksAt(hash, sha, prev, done, rows, 0) && !TornAt(hash, sha, prev, done, rows, 0)
    requires !BreaksAt(hash, sha, prev, done, rows, 1) && !TornAt(hash, sha, prev, done, rows, 1)
    requires forall r: nat :: r >= 1 ==> (v == Tampered(n + 1 + r) <==> BreaksAt(hash, sha, prev, done', rows[1..], r))
    requires v.Tampered? ==> v.row > n + 1
    requires v == Unreadable <==> exists r: nat :: TornAt(hash, sha, prev, done', rows[1..], r)
    ensures forall r: nat :: r >= 1 ==> (v == Tampered(n + r) <==> BreaksAt(hash, sha, prev, done, rows, r))
    ensures v == Unreadable <==> exists r: nat :: TornAt(hash, sha, prev, done, rows, r)
  {
    hide BreaksAt, TornAt;
    forall r: nat | r >= 2
      ensures BreaksAt(hash, sha, prev, done, rows, r) <==> BreaksAt(hash, sha, prev, done', rows[1..], r - 1)
      ensures TornAt(hash, sha, prev, done, rows, r) <==> TornAt(hash, sha, prev, done', rows[1..], r - 1)
    {
      PositionShifts(hash, sha, prev, done, rows, r);
    }
    if r: nat :| TornAt(hash, sha, prev, done', rows[1..], r) {
      NotAtZero(hash, sha, prev, done', rows[1..], r);
      assert TornAt(hash, sha, prev, done, rows, r + 1) <==> TornAt(hash, sha, prev, done', rows[1..], r + 1 - 1);
    }
    forall r: nat | r >= 2 ensures v == Tampered(n + r) <==> BreaksAt(hash, sha, prev, done, rows, r) {
      var q: nat := r - 1;
      assert v == Tampered(n + 1 + q) <==> BreaksAt(hash, sha, prev, done', rows[1..], q);
    }
  }

  lemma NotAtZero(hash: Hasher, sha: nat, prev: nat, done: seq<Row>, rows: seq<Row>, r: nat)
    requires TornAt(hash, sha, prev, done, rows, r)
    ensures r >= 1
  {
  }

  lemma Heads(rows: seq<Row>, k: int)
    requires 2 <= k <= |rows|
    ensures rows[..k][0] == rows[..k - 1][0] == rows[0]
    ensures rows[..k][1..] == rows[1..][..k - 1] && rows[..k - 1][1..] == rows[1..][..k - 2]
  {
  }

  // ---------- Tamper evidence ----------

  datatype Record = Record(body: string, hash: string, previous: string)

  function Records(sha: nat, prev: nat, rows: seq<Row>): (r: seq<Record>)
    requires forall k :: 0 <= k < |rows| ==> sha < |rows[k]| && prev < |rows[k]|
    ensures |r| == |rows|
  {
    seq(|rows|, k requires 0 <= k < |rows| => Record(Body(rows[k], sha), rows[k][sha], rows[k][prev]))
  }

  datatype Evidence = SameRecords | Collision(a: string, b: string) | GenesisPreimage(a: string)

  ghost predicate Convincing(hash: Hasher, e: Evidence)
  {
    match e
    case SameRecords => true
    case Collision(a, b) => a != b && hash(a) == hash(b)
    case GenesisPreimage(a) => hash(a) == GENESIS
  }

  lemma EndHashLength(hash: Hasher, sha: nat, prev: nat, rows: seq<Row>)
    requires Chained(hash, sha, prev, rows)
    ensures |EndHash(sha, rows)| == 64
  {
  }

  /** Two sealed texts whose previous-hash parts have one length agree only if both parts do. */
  lemma SealedInjective(b1: string, p1: string, b2: string, p2: string)
    requires |p1| == |p2| && Sealed(b1, p1) == Sealed(b2, p2)
    ensures b1 == b2 && p1 == p2
  {
    var s := Sealed(b1, p1);
    assert |b1| == |b2|;
    assert s[..|b1|] == b1 && s[..|b2|] == b2;
    assert s[|b1| + 1..] == p1 && s[|b2| + 1..] == p2;
  }

  /** Tamper evidence: two accepted ledgers, of whatever column layouts and lengths, that end
      in the same recorded hash hold the same records, or the comparison produces two distinct
      texts with one hash, or a text that hashes to the genesis value. */
  lemma {:induction false} TamperEvidence(hash: Hasher, sha1: nat, prev1: nat, rows1: seq<Row>,
                                          sha2: nat, prev2: nat, rows2: seq<Row>) returns (e: Evidence)
    requires Chained(hash, sha1, prev1, rows1) && Chained(hash, sha2, prev2, rows2)
    requires EndHash(sha1, rows1) == EndHash(sha2, rows2)
    ensures Convincing(hash, e)
    ensures e == SameRecords ==> Records(sha1, prev1, rows1) == Records(sha2, prev2, rows2)
    decreases |rows1| + |rows2|
  {
    if rows1 == [] && rows2 == [] {
      return SameRecords;
    }
    var n1, n2 := |rows1| - 1, |rows2| - 1;
    if rows1 != [] {
      ChainedSnoc(hash, sha1, prev1, rows1);
    }
    if rows2 != [] {
      ChainedSnoc(hash, sha2, prev2, rows2);
    }
    if rows1 == [] {
      return GenesisPreimage(Sealed(Body(rows2[n2], sha2), EndHash(sha2, rows2[..n2])));
    }
    if rows2 == [] {
      return GenesisPreimage(Sealed(Body(rows1[n1], sha1), EndHash(sha1, rows1[..n1])));
    }
    var h1, h2 := EndHash(sha1, rows1[..n1]), EndHash(sha2, rows2[..n2]);
    var b1, b2 := Body(rows1[n1], sha1), Body(rows2[n2], sha2);
    if Sealed(b1, h1) != Sealed(b2, h2) {
      return Collision(Sealed(b1, h1), Sealed(b2, h2));
    }
    EndHashLength(hash, sha1, prev1, rows1[..n1]);
    EndHashLength(hash, sha2, prev2, rows2[..n2]);
    SealedInjective(b1, h1, b2, h2);
    e := TamperEvidence(hash, sha1, prev1, rows1[..n1], sha2, prev2, rows2[..n2]);
    if e == SameRecords {
      RecordsSnoc(sha1, prev1, rows1);
      RecordsSnoc(sha2, prev2, rows2);
    }
  }

  lemma RecordsSnoc(sha: nat, prev: nat, rows: seq<Row>)
    requires |rows| > 0 && forall k :: 0 <= k < |rows| ==> sha < |rows[k]| && prev < |rows[k]|
    ensures var n := |rows| - 1;
            Records(sha, prev, rows) == Records(sha, prev, rows[..n]) + [Record(Body(rows[n], sha), rows[n][sha], rows[n][prev])]
  {
  }

  /** The check cannot see rows cut off at the end. */
  lemma {:induction false} TruncationAccepted(hash: Hasher, sha: nat, prev: nat, rows: seq<Row>, n: nat)
    requires Chained(hash, sha, prev, rows) && n <= |rows|
    ensures Chained(hash, sha, prev, rows[..n])
    decreases |rows| - n
  {
  }

  // ---------- Which fields the sealed body determines ----------

  /** The hash covers the joined body. The body determines the separate fields exactly when
      there is a single field or no field contains a comma. */
  lemma BodyDeterminesFields(fields: seq<string>)
    requires |fields| >= 1
    ensures (forall other: seq<string> :: |other| == |fields| && Join(other, ',') == Join(fields, ',') ==> other == fields)
            <==> |fields| == 1 || AllFree(fields, ',')
  {
    if |fields| == 1 {
      forall other: seq<string> | |other| == 1 && Join(other, ',') == Join(fields, ',') ensures other == fields {
        assert other == [Join(other, ',')];
      }
    } else if AllFree(fields, ',') {
      SplitJoinCount(fields, ',');
      forall other: seq<string> | |other| == |fields| && Join(other, ',') == Join(fields, ',') ensures other == fields {
        SplitJoinCount(other, ',');
        SplitJoin(other, ',');
        SplitJoin(fields, ',');
      }
    } else {
      var i :| 0 <= i < |fields| && !Free(fields[i], ',');
      var other := MoveComma(fields, i);
    }
  }

  /** A comma inside a field can be traded for the one beside it. */
  lemma MoveComma(fields: seq<string>, i: nat) returns (other: seq<string>)
    requires |fields| >= 2 && i < |fields| && !Free(fields[i], ',')
    ensures |other| == |fields| && Join(other, ',') == Join(fields, ',') && other != fields
  {
    var f := fields[i];
    var k :| 0 <= k < |f| && f[k] == ',';
    var u, v := f[..k], f[k + 1..];
    assert f == u + [','] + v;
    if i > 0 {
      var before, x, after := fields[..i - 1], fields[i - 1], fields[i + 1..];
      assert fields == before + ([x, f] + after);
      other := before + ([x + [','] + u, v] + after);
      JoinPair(before, x, u + [','] + v, x + [','] + u, v, after);
      assert |other[i - 1]| > |fields[i - 1]|;
    } else {
      var x, after := fields[1], fields[2..];
      assert fields == [] + ([f, x] + after);
      other := [] + ([u, v + [','] + x] + after);
      JoinPair([], u + [','] + v, x, u, v + [','] + x, after);
      assert |other[1]| > |fields[1]|;
    }
  }

  lemma {:induction false} JoinPair(before: seq<string>, a: string, b: string, c: string, d: string, after: seq<string>)
    requires a + [','] + b == c + [','] + d
    ensures Join(before + ([a, b] + after), ',') == Join(before + ([c, d] + after), ',')
  {
    if before == [] {
      JoinTwo(a, b, after);
      JoinTwo(c, d, after);
      assert [] + ([a, b] + after) == [a, b] + after;
      assert [] + ([c, d] + after) == [c, d] + after;
    } else {
      var p, q := before[1..] + ([a, b] + after), before[1..] + ([c, d] + after);
      JoinPair(before[1..], a, b, c, d, after);
      JoinCons(before[0], p, ',');
      JoinCons(before[0], q, ',');
      assert before + ([a, b] + after) == [before[0]] + p;
      assert before + ([c, d] + after) == [before[0]] + q;
    }
  }

  lemma JoinTwo(a: string, b: string, after: seq<string>)
    ensures Join([a, b] + after, ',') == a + [','] + b + (if after == [] then "" else [','] + Join(after, ','))
  {
  }

  // ---------- Ledger files ----------

  /** What the CSV reader delivers: rows, and whether an error ends them. */
  datatype FileText = FileText(opens: bool, rows: seq<Row>, readError: bool)

  /** The first position of a header name, as list.index. */
  function IndexOf(headers: Row, name: string): (i: Option<nat>)
    ensures i.Some? ==> i.value < |headers| && headers[i.value] == name && name !in headers[..i.value]
    ensures i.None? ==> name !in headers
  {
    if headers == [] then None
    else if headers[0] == name then Some(0)
    else
      var r := IndexOf(headers[1..], name);
      assert headers == [headers[0]] + headers[1..];
      if r.None? then None
      else
        assert headers[..r.value + 1] == [headers[0]] + headers[1..][..r.value];
        Some(r.value + 1)
  }

  const SHA_HEADER := "current_row_sha256"
  const PREV_HEADER := "previous_row_sha256"

  /** The verdict on one file. */
  function CheckFile(hash: Hasher, f: FileText): Verdict
  {
    if !f.opens || f.rows == [] then Unreadable
    else
      var sha, prev := IndexOf(f.rows[0], SHA_HEADER), IndexOf(f.rows[0], PREV_HEADER);
      if sha.None? || prev.None? then UnprotectedSchema
      else
        var v := CheckRows(hash, sha.value, prev.value, f.rows[1..], 0, GENESIS);
        if v == Secure && f.readError then Unreadable else v
  }

  /** A file is secure exactly when it reads to the end, its header names both hash columns,
      and its non-blank rows form a chain from the genesis hash. */
  lemma SecureMeaning(hash: Hasher, f: FileText)
    ensures CheckFile(hash, f) == Secure <==>
      && f.opens && !f.readError && f.rows != []
      && var sha, prev := IndexOf(f.rows[0], SHA_HEADER), IndexOf(f.rows[0], PREV_HEADER);
         sha.Some? && prev.Some? && Chained(hash, sha.value, prev.value, NonBlank(f.rows[1..]))
  {
    if f.opens && f.rows != [] {
      var sha, prev := IndexOf(f.rows[0], SHA_HEADER), IndexOf(f.rows[0], PREV_HEADER);
      if sha.Some? && prev.Some? {
        CheckRowsMeaning(hash, sha.value, prev.value, [], f.rows[1..], 0);
        assert [] + NonBlank(f.rows[1..]) == NonBlank(f.rows[1..]);
      }
    }
  }

  /** The columns of both hashes, if the header row names them. */
  function Columns(f: FileText): Option<(nat, nat)>
  {
    if !f.opens || f.rows == [] then None
    else
      var sha, prev := IndexOf(f.rows[0], SHA_HEADER), IndexOf(f.rows[0], PREV_HEADER);
      if sha.None? || prev.None? then None else Some((sha.value, prev.value))
  }

  /** Data row r of the file, the first of them 1, breaks its chain. */
  ghost predicate Corrupt(hash: Hasher, f: FileText, r: nat)
  {
    var columns := Columns(f);
    columns.Some? && BreaksAt(hash, columns.value.0, columns.value.1, [], f.rows[1..], r)
  }

  /** The file has a header row, which lacks a hash column. */
  predicate Unprotected(f: FileText)
  {
    f.opens && f.rows != [] && Columns(f).None?
  }

  /** The file cannot be opened, has no header row, has a row too short for its hashes where
      the chain stands, or cannot be read to the end of a sound chain. */
  ghost predicate Inaccessible(hash: Hasher, f: FileText)
  {
    || !f.opens || f.rows == []
    || (Columns(f).Some? &&
         var (sha, prev) := Columns(f).value;
         || (exists r: nat :: TornAt(hash, sha, prev, [], f.rows[1..], r))
         || (f.readError && Chained(hash, sha, prev, NonBlank(f.rows[1..]))))
  }

  lemma FileVerdict(hash: Hasher, f: FileText)
    ensures forall r: nat :: CheckFile(hash, f) == Tampered(r) <==> Corrupt(hash, f, r)
    ensures CheckFile(hash, f) == UnprotectedSchema <==> Unprotected(f)
    ensures CheckFile(hash, f) == Unreadable <==> Inaccessible(hash, f)
  {
    if Columns(f).Some? {
      var (sha, prev) := Columns(f).value;
      var rows := f.rows[1..];
      VerdictExact(hash, sha, prev, [], rows, 0);
      CheckRowsMeaning(hash, sha, prev, [], rows, 0);
      assert [] + NonBlank(rows) == NonBlank(rows);
      NoPosition(hash, sha, prev, [], rows, 0);
      hide BreaksAt, TornAt, CheckRows, Chained;
    }
  }

  // ---------- Choosing the latest file ----------

  /** Order of names by code point, as sorted() uses. */
  predicate Less(a: string, b: string)
  {
    if b == "" then false
    else if a == "" then true
    else if a[0] != b[0] then a[0] < b[0]
    else Less(a[1..], b[1..])
  }

  lemma {:induction false} LessTransitive(a: string, b: string, c: string)
    requires Less(a, b) && Less(b, c)
    ensures Less(a, c)
  {
    if a != "" && a[0] == b[0] && b[0] == c[0] {
      LessTransitive(a[1..], b[1..], c[1..]);
    }
  }

  lemma {:induction false} LessIrreflexive(a: string)
    ensures !Less(a, a)
  {
    if a != "" {
      LessIrreflexive(a[1..]);
    }
  }

  /** Names are ordered at their first difference, and a name before all that go on from it. */
  lemma {:induction false} LessIs(p: string, x: char, a: string, y: char, b: string)
    ensures Less(p + [x] + a, p + [y] + b) <==> x < y || (x == y && Less(a, b))
    ensures Less(p, p + [x] + a) && !Less(p + [x] + a, p)
  {
    if p == "" {
      assert p + [x] + a == [x] + a && p + [y] + b == [y] + b;
      assert ([x] + a)[1..] == a && ([y] + b)[1..] == b;
    } else {
      assert p + [x] + a == [p[0]] + (p[1..] + [x] + a) && p + [y] + b == [p[0]] + (p[1..] + [y] + b);
      assert (p + [x] + a)[1..] == p[1..] + [x] + a && (p + [y] + b)[1..] == p[1..] + [y] + b;
      LessIs(p[1..], x, a, y, b);
    }
  }

  /** The files of a class begin with its name and end in ".csv". */
  lemma MatchesIs(name: string, prefix: string)
    ensures Matches(name, prefix) <==>
      (exists rest: string :: name == prefix + rest) && (exists stem: string :: name == stem + ".csv")
  {
    if Matches(name, prefix) {
      assert name == prefix + name[|prefix|..];
      assert name == name[..|name| - 4] + ".csv";
    }
    if stem: string :| name == stem + ".csv" {
      assert name[|name| - 4..] == ".csv";
    }
  }

  predicate Matches(name: string, prefix: string)
  {
    prefix <= name && |name| >= 4 && name[|name| - 4..] == ".csv"
  }

  /** The last matching name in sorted order. */
  function Latest(names: seq<string>, prefix: string): (r: Option<string>)
    ensures r.Some? ==> r.value in names && Matches(r.value, prefix)
    ensures r.Some? ==> forall n :: n in names && Matches(n, prefix) ==> !Less(r.value, n)
    ensures r.None? ==> forall n :: n in names ==> !Matches(n, prefix)
  {
    if names == [] then None
    else
      var r := Latest(names[1..], prefix);
      assert forall n :: n in names <==> n == names[0] || n in names[1..];
      if !Matches(names[0], prefix) then r
      else if r.None? then (LessIrreflexive(names[0]); Some(names[0]))
      else if Less(r.value, names[0]) then
        LessIrreflexive(names[0]);
        assert forall n :: n in names[1..] && Matches(n, prefix) ==> !Less(names[0], n) by {
          forall n | n in names[1..] && Matches(n, prefix) ensures !Less(names[0], n) {
            if Less(names[0], n) {
              LessTransitive(r.value, names[0], n);
            }
          }
        }
        Some(names[0])
      else r
  }

  // ---------- The suite ----------

  datatype Fault = LacksCryptographicColumns(file: string)
                 | DataCorruption(file: string, row: nat)
                 | FileAccessException(file: string)

  const COMPLIANCE_LEDGERS: seq<string> :=
    ["flag_halyard_audit", "marpol_bilge_audit", "mission_telemetry", "shore_facility_audit"]

  /** The four classes inspected. */
  lemma FourClasses(p: string)
    ensures p in COMPLIANCE_LEDGERS <==>
      p == "flag_halyard_audit" || p == "marpol_bilge_audit" || p == "mission_telemetry" || p == "shore_facility_audit"
  {
  }

  function FaultOf(file: string, v: Verdict): seq<Fault>
  {
    match v
    case Secure => []
    case UnprotectedSchema => [LacksCryptographicColumns(file)]
    case Tampered(row) => [DataCorruption(file, row)]
    case Unreadable => [FileAccessException(file)]
  }

  function ContentOf(directory: map<string, FileText>, name: string): FileText
  {
    if name in directory then directory[name] else FileText(false, [], false)
  }

  function LedgerFaults(hash: Hasher, names: seq<string>, directory: map<string, FileText>, prefix: string): seq<Fault>
  {
    var latest := Latest(names, prefix);
    if latest.None? then [] else FaultOf(latest.value, CheckFile(hash, ContentOf(directory, latest.value)))
  }

  /** The latest file of a class, if there is one, is secure. */
  ghost predicate ClassSecure(hash: Hasher, names: seq<string>, directory: map<string, FileText>, prefix: string)
  {
    var latest := Latest(names, prefix);
    latest.Some? ==> CheckFile(hash, ContentOf(directory, latest.value)) == Secure
  }

  function AllFaults(hash: Hasher, names: seq<string>, directory: map<string, FileText>, prefixes: seq<string>): seq<Fault>
  {
    if prefixes == [] then []
    else
      var n := |prefixes| - 1;
      AllFaults(hash, names, directory, prefixes[..n]) + LedgerFaults(hash, names, directory, prefixes[n])
  }

  /** The report on one file, exactly: each fault it can name stands there when the file has it,
      and there is never more than one. */
  ghost predicate Reports(hash: Hasher, name: string, f: FileText, faults: seq<Fault>)
  {
    && |faults| <= 1
    && (forall file, r :: DataCorruption(file, r) in faults <==> file == name && Corrupt(hash, f, r))
    && (forall file :: LacksCryptographicColumns(file) in faults <==> file == name && Unprotected(f))
    && (forall file :: FileAccessException(file) in faults <==> file == name && Inaccessible(hash, f))
  }

  lemma ReportIs(hash: Hasher, name: string, f: FileText)
    ensures Reports(hash, name, f, FaultOf(name, CheckFile(hash, f)))
  {
    FileVerdict(hash, f);
    hide CheckFile, Corrupt, Unprotected, Inaccessible;
  }

  /** The row loop over one opened file. */
  method VerifyFile(hash: Hasher, name: string, f: FileText) returns (faults: seq<Fault>)
    ensures faults == FaultOf(name, CheckFile(hash, f))
    ensures Reports(hash, name, f, faults)
  {
    ReportIs(hash, name, f);
    hide Reports;
    if !f.opens || f.rows == [] {
      return [FileAccessException(name)];
    }
    var sha, prev := IndexOf(f.rows[0], SHA_HEADER), IndexOf(f.rows[0], PREV_HEADER);
    if sha.None? || prev.None? {
      return [LacksCryptographicColumns(name)];
    }
    var trackingPrevHash: string := GENESIS;
    var rows := f.rows[1..];
    var i := 0;
    while i < |rows|
      invariant 0 <= i <= |rows|
      invariant CheckRows(hash, sha.value, prev.value, rows, 0, GENESIS)
             == CheckRows(hash, sha.value, prev.value, rows[i..], i, trackingPrevHash)
    {
      var row := rows[i];
      assert rows[i..][1..] == rows[i + 1..];
      if row != [] {
        if |row| <= sha.value || |row| <= prev.value {
          return [FileAccessException(name)];
        }
        if row[sha.value] != hash(Sealed(Body(row, sha.value), trackingPrevHash)) || row[prev.value] != trackingPrevHash {
          return [DataCorruption(name, i + 1)];
        }
        trackingPrevHash := row[sha.value];
      }
      i := i + 1;
    }
    if f.readError {
      return [FileAccessException(name)];
    }
    faults := [];
  }

  /** The loop over the ledger classes. */
  method ScanLedgers(hash: Hasher, names: seq<string>, directory: map<string, FileText>, ledgers: seq<string>)
    returns (faultReports: seq<Fault>)
    ensures faultReports == AllFaults(hash, names, directory, ledgers)
  {
    hide AllFaults, CheckFile;
    faultReports := [];
    var i := 0;
    AllFaultsSnoc(hash, names, directory, ledgers, 0);
    while i < |ledgers|
      invariant 0 <= i <= |ledgers|
      invariant faultReports == AllFaults(hash, names, directory, ledgers[..i])
    {
      var latest := Latest(names, ledgers[i]);
      if latest.Some? {
        var found := VerifyFile(hash, latest.value, ContentOf(directory, latest.value));
        faultReports := faultReports + found;
      }
      i := i + 1;
      AllFaultsSnoc(hash, names, directory, ledgers, i);
    }
    assert ledgers[..i] == ledgers;
  }

  lemma AllFaultsSnoc(hash: Hasher, names: seq<string>, directory: map<string, FileText>, ledgers: seq<string>, i: nat)
    requires i <= |ledgers|
    ensures AllFaults(hash, names, directory, ledgers[..i])
         == if i == 0 then [] else AllFaults(hash, names, directory, ledgers[..i - 1]) + LedgerFaults(hash, names, directory, ledgers[i - 1])
  {
    if i > 0 {
      assert ledgers[..i][..i - 1] == ledgers[..i - 1];
    }
  }

  /** The file is the latest of one of the classes. */
  ghost predicate Inspected(names: seq<string>, prefixes: seq<string>, file: string)
  {
    exists p :: p in prefixes && Latest(names, p) == Some(file)
  }

  /** The report of the suite, exactly: a fault stands there when the latest file of a class
      has it. */
  ghost predicate SuiteReports(hash: Hasher, names: seq<string>, directory: map<string, FileText>, prefixes: seq<string>, faults: seq<Fault>)
  {
    && (forall file, r :: DataCorruption(file, r) in faults <==>
         Inspected(names, prefixes, file) && Corrupt(hash, ContentOf(directory, file), r))
    && (forall file :: LacksCryptographicColumns(file) in faults <==>
         Inspected(names, prefixes, file) && Unprotected(ContentOf(directory, file)))
    && (forall file :: FileAccessException(file) in faults <==>
         Inspected(names, prefixes, file) && Inaccessible(hash, ContentOf(directory, file)))
  }

  lemma {:induction false} SuiteReportIs(hash: Hasher, names: seq<string>, directory: map<string, FileText>, prefixes: seq<string>)
    ensures SuiteReports(hash, names, directory, prefixes, AllFaults(hash, names, directory, prefixes))
    decreases |prefixes|
  {
    hide SuiteReports, LedgerFaults;
    if prefixes == [] {
      NothingInspected(hash, names, directory);
    } else {
      var n := |prefixes| - 1;
      SuiteReportIs(hash, names, directory, prefixes[..n]);
      OneMoreClass(hash, names, directory, prefixes[..n], prefixes[n], AllFaults(hash, names, directory, prefixes[..n]));
      assert prefixes[..n] + [prefixes[n]] == prefixes;
    }
  }

  lemma NothingInspected(hash: Hasher, names: seq<string>, directory: map<string, FileText>)
    ensures SuiteReports(hash, names, directory, [], [])
  {
  }

  lemma OneMoreClass(hash: Hasher, names: seq<string>, directory: map<string, FileText>, prefixes: seq<string>, p: string, faults: seq<Fault>)
    requires SuiteReports(hash, names, directory, prefixes, faults)
    ensures SuiteReports(hash, names, directory, prefixes + [p], faults + LedgerFaults(hash, names, directory, p))
  {
    hide Latest, ContentOf, CheckFile, Corrupt, Unprotected, Inaccessible, FaultOf;
    var found, latest := LedgerFaults(hash, names, directory, p), Latest(names, p);
    forall file ensures Inspected(names, prefixes + [p], file) <==> Inspected(names, prefixes, file) || latest == Some(file) {
      InspectedMore(names, prefixes, p, file);
    }
    hide Inspected;
    if latest.Some? {
      ReportIs(hash, latest.value, ContentOf(directory, latest.value));
    }
    assert forall x :: x in faults + found <==> x in faults || x in found;
  }

  lemma InspectedMore(names: seq<string>, prefixes: seq<string>, p: string, file: string)
    ensures Inspected(names, prefixes + [p], file) <==> Inspected(names, prefixes, file) || Latest(names, p) == Some(file)
  {
    hide Latest;
    assert forall q :: q in prefixes + [p] <==> q in prefixes || q == p;
    assert Latest(names, p) == Some(file) ==> p in prefixes + [p];
  }

  /** The whole stage: the report lists the fault of each ledger class in order, and the
      stage passes exactly when the latest file of every class present is secure. */
  method VerifyCryptographicLedgerIntegrity(hash: Hasher, exists_: bool, names: seq<string>, directory: map<string, FileText>)
    returns (passed: bool, faultReports: seq<Fault>)
    ensures !exists_ ==> passed && faultReports == []
    ensures exists_ ==> faultReports == AllFaults(hash, names, directory, COMPLIANCE_LEDGERS)
    ensures exists_ ==> SuiteReports(hash, names, directory, COMPLIANCE_LEDGERS, faultReports)
    ensures exists_ ==>
      (passed <==>
        && ClassSecure(hash, names, directory, "flag_halyard_audit") && ClassSecure(hash, names, directory, "marpol_bilge_audit")
        && ClassSecure(hash, names, directory, "mission_telemetry") && ClassSecure(hash, names, directory, "shore_facility_audit"))
  {
    if !exists_ {
      return true, [];
    }
    SuiteReportIs(hash, names, directory, COMPLIANCE_LEDGERS);
    hide SuiteReports;
    faultReports := ScanLedgers(hash, names, directory, COMPLIANCE_LEDGERS);
    passed := |faultReports| == 0;
    NoFaultsMeaning(hash, names, directory, COMPLIANCE_LEDGERS);
    hide ClassSecure;
    forall p: string ensures p in COMPLIANCE_LEDGERS <==>
      p == "flag_halyard_audit" || p == "marpol_bilge_audit" || p == "mission_telemetry" || p == "shore_facility_audit"
    {
      FourClasses(p);
    }
  }

  lemma {:induction false} NoFaultsMeaning(hash: Hasher, names: seq<string>, directory: map<string, FileText>, prefixes: seq<string>)
    ensures AllFaults(hash, names, directory, prefixes) == [] <==>
      forall p :: p in prefixes ==> ClassSecure(hash, names, directory, p)
  {
    hide LedgerFaults, ClassSecure;
    if prefixes != [] {
      var n := |prefixes| - 1;
      NoFaultsMeaning(hash, names, directory, prefixes[..n]);
      assert LedgerFaults(hash, names, directory, prefixes[n]) == [] <==> ClassSecure(hash, names, directory, prefixes[n]) by {
        NoFaultsOne(hash, names, directory, prefixes[n]);
      }
      assert forall p :: p in prefixes <==> p in prefixes[..n] || p == prefixes[n];
    }
  }

  lemma NoFaultsOne(hash: Hasher, names: seq<string>, directory: map<string, FileText>, p: string)
    ensures LedgerFaults(hash, names, directory, p) == [] <==> ClassSecure(hash, names, directory, p)
  {
  }
}
