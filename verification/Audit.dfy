/** The audit log (crates/syauth-presenced/src/audit.rs): line format and fsync cadence. */
module Audit {

  const AUDIT_FSYNC_EVERY: nat := 32
  const U64: nat := 0x1_0000_0000_0000_0000

  datatype AuditRecord = AuditRecord(peerId: string, nonceHex: string, tStartMs: nat, tEndMs: nat,
                                     outcome: string, reason: string)

  function Digit(d: nat): char
    requires d < 10
  {
    '0' + d as char
  }

  /** Decimal rendering of an unsigned integer. */
  function Decimal(n: nat): (s: string)
    ensures s != []
    ensures forall i :: 0 <= i < |s| ==> '0' <= s[i] <= '9'
  {
    if n < 10 then [Digit(n)] else Decimal(n / 10) + [Digit(n % 10)]
  }

  function ValueOf(s: string): nat
    requires forall i :: 0 <= i < |s| ==> '0' <= s[i] <= '9'
  {
    if s == [] then 0 else ValueOf(s[..|s| - 1]) * 10 + (s[|s| - 1] - '0') as nat
  }

  lemma {:induction false} DecimalRoundTrip(n: nat)
    ensures ValueOf(Decimal(n)) == n
  {
    var s := Decimal(n);
    if n < 10 {
      assert s[..0] == [];
    } else {
      DecimalRoundTrip(n / 10);
      assert s[..|s| - 1] == Decimal(n / 10);
    }
  }

  /** Without leading zeros. */
  lemma {:induction false} DecimalIsShort(n: nat)
    ensures n > 0 ==> Decimal(n)[0] != '0'
    ensures n == 0 ==> Decimal(n) == "0"
  {
    if n >= 10 {
      DecimalIsShort(n / 10);
    }
  }

  /** `format_record`. */
  function FormatRecord(r: AuditRecord): string {
    r.peerId + "," + r.nonceHex + "," + Decimal(r.tStartMs) + "," + Decimal(r.tEndMs) + "," + r.outcome + ","
    + r.reason + "\n"
  }

  predicate Free(s: string, c: char) {
    c !in s
  }

  /** The fields the daemon itself writes hold no separator; the peer id is whatever the caller asked for. */
  predicate DaemonFieldsClean(r: AuditRecord) {
    && Free(r.nonceHex, ',') && Free(r.outcome, ',') && Free(r.reason, ',')
    && Free(r.nonceHex, '\n') && Free(r.outcome, '\n') && Free(r.reason, '\n')
  }

  /** Cutting at the last separator. */
  lemma LastFieldIsUnique(a: string, x: string, b: string, y: string)
    requires a + "," + x == b + "," + y && Free(x, ',') && Free(y, ',')
    ensures a == b && x == y
  {
    var s := a + "," + x;
    assert s[|a|] == ',' && s[|b|] == ',';
    if |a| < |b| {
      assert false;
    } else if |b| < |a| {
      assert false;
    }
    assert a == s[..|a|] && b == s[..|b|];
    assert x == s[|a| + 1..] && y == s[|b| + 1..];
  }

  /** The printed line determines the record, whatever the peer id contains. */
  lemma LineDeterminesRecord(r: AuditRecord, q: AuditRecord)
    requires DaemonFieldsClean(r) && DaemonFieldsClean(q)
    requires FormatRecord(r) == FormatRecord(q)
    ensures r == q
  {
    var r1, q1 := r.peerId + "," + r.nonceHex, q.peerId + "," + q.nonceHex;
    var r2, q2 := r1 + "," + Decimal(r.tStartMs), q1 + "," + Decimal(q.tStartMs);
    var r3, q3 := r2 + "," + Decimal(r.tEndMs), q2 + "," + Decimal(q.tEndMs);
    var r4, q4 := r3 + "," + r.outcome, q3 + "," + q.outcome;
    var r5, q5 := r4 + "," + r.reason, q4 + "," + q.reason;
    assert FormatRecord(r) == r5 + "\n" && FormatRecord(q) == q5 + "\n";
    assert r5 == (r5 + "\n")[..|r5|] && q5 == (q5 + "\n")[..|q5|];
    LastFieldIsUnique(r4, r.reason, q4, q.reason);
    LastFieldIsUnique(r3, r.outcome, q3, q.outcome);
    LastFieldIsUnique(r2, Decimal(r.tEndMs), q2, Decimal(q.tEndMs));
    LastFieldIsUnique(r1, Decimal(r.tStartMs), q1, Decimal(q.tStartMs));
    LastFieldIsUnique(r.peerId, r.nonceHex, q.peerId, q.nonceHex);
    DecimalRoundTrip(r.tStartMs);
    DecimalRoundTrip(q.tStartMs);
    DecimalRoundTrip(r.tEndMs);
    DecimalRoundTrip(q.tEndMs);
  }

  // ---- the columns ------------------------------------------------------------------------------

  /** The pieces of a line between its commas. */
  function Columns(line: string): (cs: seq<string>)
    ensures cs != []
  {
    if line == [] then [[]]
    else
      var rest := Columns(line[1..]);
      if line[0] == ',' then [[]] + rest else [[line[0]] + rest[0]] + rest[1..]
  }

  lemma {:induction false} OneColumn(field: string)
    requires Free(field, ',')
    ensures Columns(field) == [field]
  {
    if field != [] {
      assert field == [field[0]] + field[1..];
      OneColumn(field[1..]);
    }
  }

  lemma {:induction false} LastColumn(line: string, field: string)
    requires Free(field, ',')
    ensures Columns(line + "," + field) == Columns(line) + [field]
  {
    var whole := line + "," + field;
    if line == [] {
      assert whole[1..] == field;
      OneColumn(field);
    } else {
      assert whole[1..] == line[1..] + "," + field;
      LastColumn(line[1..], field);
    }
  }

  /** Cut at its commas, a line has the fields in their places, a peer id without commas first. */
  lemma LineColumns(r: AuditRecord)
    requires DaemonFieldsClean(r) && Free(r.peerId, ',')
    ensures Columns(LineOf(r)) == [r.peerId, r.nonceHex, Decimal(r.tStartMs), Decimal(r.tEndMs), r.outcome, r.reason]
  {
    var r1 := r.peerId + "," + r.nonceHex;
    var r2 := r1 + "," + Decimal(r.tStartMs);
    var r3 := r2 + "," + Decimal(r.tEndMs);
    var r4 := r3 + "," + r.outcome;
    var r5 := r4 + "," + r.reason;
    assert LineOf(r) == r5 by {
      assert FormatRecord(r) == r5 + "\n";
    }
    OneColumn(r.peerId);
    LastColumn(r.peerId, r.nonceHex);
    LastColumn(r1, Decimal(r.tStartMs));
    LastColumn(r2, Decimal(r.tEndMs));
    LastColumn(r3, r.outcome);
    LastColumn(r4, r.reason);
  }

  // ---- whole logs -----------------------------------------------------------------------------

  function LogText(rs: seq<AuditRecord>): string {
    if rs == [] then [] else FormatRecord(rs[0]) + LogText(rs[1..])
  }

  /** Cutting at the first line end. */
  lemma FirstLineIsUnique(a: string, x: string, b: string, y: string)
    requires a + "\n" + x == b + "\n" + y && Free(a, '\n') && Free(b, '\n')
    ensures a == b && x == y
  {
    var s := a + "\n" + x;
    assert s[|a|] == '\n' && s[|b|] == '\n';
    if |a| < |b| {
      assert false;
    } else if |b| < |a| {
      assert false;
    }
    assert a == s[..|a|] && b == s[..|b|];
    assert x == s[|a| + 1..] && y == s[|b| + 1..];
  }

  /** The line without its terminator. */
  function LineOf(r: AuditRecord): (line: string)
    ensures FormatRecord(r) == line + "\n"
  {
    FormatRecord(r)[..|FormatRecord(r)| - 1]
  }

  lemma LineIsOneLine(r: AuditRecord)
    requires DaemonFieldsClean(r)
    ensures Free(LineOf(r), '\n') <==> Free(r.peerId, '\n')
  {
  }

  /** Without line ends in the peer ids, the text of a log determines its records. */
  lemma {:induction false} LogDeterminesRecords(rs: seq<AuditRecord>, qs: seq<AuditRecord>)
    requires forall r :: r in rs ==> DaemonFieldsClean(r) && Free(r.peerId, '\n')
    requires forall q :: q in qs ==> DaemonFieldsClean(q) && Free(q.peerId, '\n')
    requires LogText(rs) == LogText(qs)
    ensures rs == qs
    decreases |rs|
  {
    if rs != [] && qs != [] {
      assert rs[0] in rs && qs[0] in qs;
      LineIsOneLine(rs[0]);
      LineIsOneLine(qs[0]);
      FirstLineIsUnique(LineOf(rs[0]), LogText(rs[1..]), LineOf(qs[0]), LogText(qs[1..]));
      LineDeterminesRecord(rs[0], qs[0]);
      LogDeterminesRecords(rs[1..], qs[1..]);
      assert rs == [rs[0]] + rs[1..] && qs == [qs[0]] + qs[1..];
    }
  }

  function LineEnds(s: string): nat {
    if s == [] then 0 else (if s[0] == '\n' then 1 else 0) + LineEnds(s[1..])
  }

  lemma {:induction false} LineEndsAdd(a: string, b: string)
    ensures LineEnds(a + b) == LineEnds(a) + LineEnds(b)
  {
    if a == [] {
      assert a + b == b;
    } else {
      assert (a + b)[1..] == a[1..] + b;
      LineEndsAdd(a[1..], b);
    }
  }

  lemma {:induction false} LineEndsZero(s: string)
    ensures LineEnds(s) == 0 <==> Free(s, '\n')
  {
    if s != [] {
      LineEndsZero(s[1..]);
      assert s == [s[0]] + s[1..];
    }
  }

  /** A log has one line per record exactly when no peer id contains a line end. */
  lemma {:induction false} OneLinePerRecord(rs: seq<AuditRecord>)
    requires forall r :: r in rs ==> DaemonFieldsClean(r)
    ensures LineEnds(LogText(rs)) >= |rs|
    ensures LineEnds(LogText(rs)) == |rs| <==> forall r :: r in rs ==> Free(r.peerId, '\n')
    decreases |rs|
  {
    if rs != [] {
      assert rs[0] in rs && rs == [rs[0]] + rs[1..];
      OneLinePerRecord(rs[1..]);
      LineEndsAdd(FormatRecord(rs[0]), LogText(rs[1..]));
      LineEndsAdd(LineOf(rs[0]), "\n");
      LineEndsZero(LineOf(rs[0]));
      LineIsOneLine(rs[0]);
      assert LineEnds("\n") == 1 by {
        assert "\n"[1..] == [];
      }
    }
  }

  /** With a line end in the peer id the log is ambiguous: one record can print as any two. */
  lemma OneRecordCanPrintAsTwo(r: AuditRecord, q: AuditRecord)
    ensures LogText([q.(peerId := FormatRecord(r) + q.peerId)]) == LogText([r, q])
  {
    var merged := q.(peerId := FormatRecord(r) + q.peerId);
    assert [merged][1..] == [] && [r, q][1..] == [q] && [q][1..] == [];
    assert FormatRecord(merged) == FormatRecord(r) + FormatRecord(q);
  }

  // ---- fsync cadence ----------------------------------------------------------------------------

  /** What `write_all` does with a line: all of it, or a part and then an error. */
  datatype Write = Whole | Torn(kept: nat)

  /** The file as the pieces written to it, how many of them a completed fsync covers, and the u64
      counter; since the last fsync that succeeded, `missed` counts the failed ones and `torn` the
      writes that stopped in a line. */
  datatype Journal = Journal(pieces: seq<string>, durable: nat, counter: nat, missed: nat, torn: nat)

  function Opened(existing: seq<string>): Journal {
    Journal(existing, |existing|, 0, 0, 0)
  }

  /** What of a line reaches the file; a failed write never got all of it. */
  function Piece(line: string, w: Write): string {
    match w
    case Whole => line
    case Torn(kept) => if kept < |line| then line[..kept] else if line == [] then [] else line[..|line| - 1]
  }

  function Appended(j: Journal, line: string, w: Write, syncs: bool): Journal {
    var pieces := j.pieces + [Piece(line, w)];
    if w.Torn? then j.(pieces := pieces, torn := j.torn + 1)
    else
      var counter := (j.counter + 1) % U64;
      if counter % AUDIT_FSYNC_EVERY != 0 then j.(pieces := pieces, counter := counter)
      else if syncs then Journal(pieces, |pieces|, counter, 0, 0)
      else j.(pieces := pieces, counter := counter, missed := j.missed + 1)
  }

  class AuditLog {
    var pieces: seq<string>
    var appendedSinceFsync: nat
    ghost var durable: nat
    ghost var missed: nat
    ghost var torn: nat

    ghost function State(): Journal
      reads this
    {
      Journal(pieces, durable, appendedSinceFsync, missed, torn)
    }

    constructor (existing: seq<string>)
      ensures State() == Opened(existing)
    {
      pieces, appendedSinceFsync := existing, 0;
      durable, missed, torn := |existing|, 0, 0;
    }

    /** `append`; `w` and `syncs` say what the file system answers. */
    method Append(r: AuditRecord, w: Write, syncs: bool) returns (ok: bool)
      modifies this
      ensures State() == Appended(old(State()), FormatRecord(r), w, syncs)
      ensures ok <==> w.Whole? && (appendedSinceFsync % AUDIT_FSYNC_EVERY == 0 ==> syncs)
    {
      pieces := pieces + [Piece(FormatRecord(r), w)];
      if w.Torn? {
        torn := torn + 1;
        return false;
      }
      appendedSinceFsync := (appendedSinceFsync + 1) % U64;
      if appendedSinceFsync % AUDIT_FSYNC_EVERY == 0 {
        if !syncs {
          missed := missed + 1;
          return false;
        }
        durable, missed, torn := |pieces|, 0, 0;
      }
      return true;
    }
  }

  datatype Attempt = Attempt(line: string, w: Write, syncs: bool)

  function AppendAll(j: Journal, run: seq<Attempt>): Journal
    decreases |run|
  {
    if run == [] then j else AppendAll(Appended(j, run[0].line, run[0].w, run[0].syncs), run[1..])
  }

  /** The number of unsynced pieces, exactly. */
  predicate Balanced(j: Journal) {
    && j.durable <= |j.pieces| && j.counter < U64
    && |j.pieces| - j.durable == j.counter % AUDIT_FSYNC_EVERY + AUDIT_FSYNC_EVERY * j.missed + j.torn
  }

  function WholeWrites(run: seq<Attempt>): nat {
    if run == [] then 0 else (if run[0].w.Whole? then 1 else 0) + WholeWrites(run[1..])
  }

  /** The counter counts the whole lines, in 64 bits. */
  lemma {:induction false} CounterCounts(j: Journal, run: seq<Attempt>)
    requires j.counter < 0x1_0000_0000_0000_0000
    ensures AppendAll(j, run).counter == (j.counter + WholeWrites(run)) % 0x1_0000_0000_0000_0000
    decreases |run|
  {
    if run != [] {
      CounterCounts(Appended(j, run[0].line, run[0].w, run[0].syncs), run[1..]);
    }
  }

  /** What an attempt leaves in the file: its line, or a proper part of it. */
  predicate LeftBy(piece: string, a: Attempt) {
    if a.w.Whole? then piece == a.line else piece < a.line || (a.line == [] == piece)
  }

  /** Every attempt appends one piece, in order, and the pieces before stay: the lines of whole writes are in
      the file completely, torn ones in part. */
  lemma {:induction false} AppendAllWrites(j: Journal, run: seq<Attempt>)
    ensures var pieces := AppendAll(j, run).pieces;
      && |pieces| == |j.pieces| + |run| && pieces[..|j.pieces|] == j.pieces
      && forall i :: 0 <= i < |run| ==> LeftBy(pieces[|j.pieces| + i], run[i])
    decreases |run|
  {
    if run != [] {
      var next := Appended(j, run[0].line, run[0].w, run[0].syncs);
      AppendAllWrites(next, run[1..]);
      var pieces := AppendAll(j, run).pieces;
      assert pieces[..|j.pieces|] == pieces[..|next.pieces|][..|j.pieces|];
      assert pieces[|j.pieces|] == pieces[..|next.pieces|][|j.pieces|];
      forall i | 0 <= i < |run| ensures LeftBy(pieces[|j.pieces| + i], run[i]) {
        if i > 0 {
          assert run[i] == run[1..][i - 1];
        }
      }
    }
  }

  /** The file is synced by an append exactly when it is a whole one, the 32nd by the counter, and the sync
      succeeds. */
  lemma SyncedIff(j: Journal, a: Attempt)
    requires j.counter < 0x1_0000_0000_0000_0000 && j.durable <= |j.pieces|
    ensures Appended(j, a.line, a.w, a.syncs).durable == |j.pieces| + 1 <==>
      a.w.Whole? && (j.counter + 1) % 32 == 0 && a.syncs
  {
  }

  lemma AppendKeepsBalance(j: Journal, a: Attempt)
    requires Balanced(j)
    ensures Balanced(Appended(j, a.line, a.w, a.syncs))
  {
    NextModulo(j.counter);
  }

  lemma NextModulo(c: nat)
    requires c < U64
    ensures ((c + 1) % U64) % AUDIT_FSYNC_EVERY == (c % AUDIT_FSYNC_EVERY + 1) % AUDIT_FSYNC_EVERY
    ensures (c + 1) % U64 < U64
  {
  }

  /** After any run the unsynced pieces number the counter modulo 32, plus 32 per missed fsync, plus
      the torn writes, the u64 wrap included; with whole writes and successful fsyncs fewer than 32
      lines are ever unsynced. */
  lemma {:induction false} UnsyncedLinesAreBounded(j: Journal, run: seq<Attempt>)
    requires Balanced(j)
    ensures Balanced(AppendAll(j, run))
    ensures j.missed == j.torn == 0 && (forall i :: 0 <= i < |run| ==> run[i].w.Whole? && run[i].syncs) ==>
      && |AppendAll(j, run).pieces| - AppendAll(j, run).durable < 32
      && AppendAll(j, run).missed == AppendAll(j, run).torn == 0
    decreases |run|
  {
    if run != [] {
      AppendKeepsBalance(j, run[0]);
      UnsyncedLinesAreBounded(Appended(j, run[0].line, run[0].w, run[0].syncs), run[1..]);
    }
  }
}
