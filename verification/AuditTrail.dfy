/** The lines the daemon writes to its audit log over a run: `audit_at` of
    crates/syauth-presenced/src/orchestrator.rs on top of the line format of audit.rs. */
module AuditTrail {
  import opened Basics
  import opened Phone
  import opened Protocol
  import opened ProtocolInvariant
  import opened ProtocolTheorems
  import Audit
  import Hex

  const ZERO_NONCE_HEX := "00000000000000000000000000000000"

  /** When one transaction began and when its append was made. */
  datatype Times = Times(start: nat, end: nat)

  /** `hex::encode`. */
  function HexText(bytes: Bytes): (s: string)
    ensures |s| == 2 * |bytes|
    ensures forall i :: 0 <= i < |s| ==> s[i] != ',' && s[i] != '\n'
  {
    HexIsDigits(bytes);
    var digits := Hex.Encode(bytes);
    seq(|digits|, i requires 0 <= i < |digits| => digits[i] as char)
  }

  lemma {:induction false} HexIsDigits(bytes: Bytes)
    ensures forall i :: 0 <= i < |Hex.Encode(bytes)| ==> 48 <= Hex.Encode(bytes)[i] <= 102
  {
    if bytes != [] {
      HexIsDigits(bytes[..|bytes| - 1]);
    }
  }

  /** The text determines the bytes. */
  lemma HexIsInjective(a: Bytes, b: Bytes)
    requires HexText(a) == HexText(b)
    ensures a == b
  {
    assert |a| == |b|;
    forall i | 0 <= i < |a| ensures a[i] == b[i] {
      var (x, y) := (Hex.Encode(a), Hex.Encode(b));
      assert HexText(a)[2 * i] == x[2 * i] as char && HexText(b)[2 * i] == y[2 * i] as char;
      assert HexText(a)[2 * i + 1] == x[2 * i + 1] as char && HexText(b)[2 * i + 1] == y[2 * i + 1] as char;
      Hex.EncodeAt(a, i);
      Hex.EncodeAt(b, i);
    }
  }

  /** The nonce column; a call that drew no nonce prints zeros. */
  function NonceText(n: Option<Nonce>): (s: string)
    ensures |s| == 32 && Audit.Free(s, ',') && Audit.Free(s, '\n')
    ensures n.None? ==> forall i :: 0 <= i < 32 ==> s[i] == '0'
  {
    match n
    case Some(nonce) => HexText(nonce)
    case None => ZERO_NONCE_HEX
  }

  /** The record `audit_at` builds: the reason fills both columns. */
  function RecordOf(n: AuditNote, at: Times): Audit.AuditRecord {
    Audit.AuditRecord(n.peer, NonceText(n.nonce), at.start, at.end, n.reason, n.reason)
  }

  lemma HexTextDigits(bytes: Bytes, i: nat)
    requires i < |bytes|
    ensures HexText(bytes)[2 * i] == "0123456789abcdef"[bytes[i] / 16]
    ensures HexText(bytes)[2 * i + 1] == "0123456789abcdef"[bytes[i] % 16]
  {
    Hex.EncodeAt(bytes, i);
    Hex.WrittenDigit(bytes[i] / 16);
    Hex.WrittenDigit(bytes[i] % 16);
  }

  /** The columns of a note, in order, for a peer id without commas: peer, nonce (32 zeros for a call that
      drew none), begin, end, and the reason twice. */
  lemma NoteColumns(n: AuditNote, at: Times)
    requires IsClean(n.reason) && Audit.Free(n.peer, ',')
    ensures Audit.Columns(Audit.LineOf(RecordOf(n, at))) ==
      [n.peer, NonceText(n.nonce), Audit.Decimal(at.start), Audit.Decimal(at.end), n.reason, n.reason]
    ensures match n.nonce
      case Some(nonce) => forall i :: 0 <= i < 16 ==>
        NonceText(n.nonce)[2 * i] == "0123456789abcdef"[nonce[i] / 16]
        && NonceText(n.nonce)[2 * i + 1] == "0123456789abcdef"[nonce[i] % 16]
      case None => forall i :: 0 <= i < 32 ==> NonceText(n.nonce)[i] == '0'
  {
    Audit.LineColumns(RecordOf(n, at));
    if n.nonce.Some? {
      forall i | 0 <= i < 16
        ensures NonceText(n.nonce)[2 * i] == "0123456789abcdef"[n.nonce.value[i] / 16]
        ensures NonceText(n.nonce)[2 * i + 1] == "0123456789abcdef"[n.nonce.value[i] % 16]
      {
        HexTextDigits(n.nonce.value, i);
      }
    }
  }

  function Records(notes: seq<AuditNote>, at: nat -> Times): (rs: seq<Audit.AuditRecord>)
    ensures |rs| == |notes| && forall i :: 0 <= i < |notes| ==> rs[i] == RecordOf(notes[i], at(i))
  {
    seq(|notes|, i requires 0 <= i < |notes| => RecordOf(notes[i], at(i)))
  }

  // ---- reasons ----------------------------------------------------------------------------------

  /** A text without separators. */
  predicate IsClean(r: string) {
    Audit.Free(r, ',') && Audit.Free(r, '\n')
  }

  lemma ReasonIsClean(o: Outcome)
    ensures IsClean(Reason(o))
  {
  }

  ghost predicate ReasonsAreClean(s: State) {
    forall i :: 0 <= i < |s.audit| ==> IsClean(s.audit[i].reason)
  }

  lemma StepKeepsReasons(k: Crypto, s: State, l: Label)
    requires WellFormed(s) && Enabled(s, l) && ReasonsAreClean(s)
    ensures ReasonsAreClean(Apply(k, s, l))
  {
    if l.Audit? {
      ReasonIsClean(s.calls[l.c].pc.outcome);
    }
  }

  lemma {:induction false} RunsKeepReasons(k: Crypto, s: State, run: seq<Label>, t: State)
    requires Inv(k, s) && Runs(k, s, run, t) && ReasonsAreClean(s)
    ensures ReasonsAreClean(t)
    decreases |run|
  {
    if run != [] {
      StepKeepsInv(k, s, run[0]);
      StepKeepsReasons(k, s, run[0]);
      RunsKeepReasons(k, Apply(k, s, run[0]), run[1..], t);
    }
  }

  // ---- the log of a run -------------------------------------------------------------------------

  lemma ReachableIsClean(k: Crypto, t: State)
    requires Reachable(k, t)
    ensures ReasonsAreClean(t)
  {
    var s, run :| Initial(s) && Runs(k, s, run, t);
    InitialHasInv(k, s);
    RunsKeepReasons(k, s, run, t);
  }

  lemma RecordIsClean(n: AuditNote, at: Times)
    requires IsClean(n.reason)
    ensures Audit.DaemonFieldsClean(RecordOf(n, at))
  {
  }

  /** Every record of every run, dropped calls included, has separator-free daemon fields. */
  lemma DaemonRecordsAreClean(k: Crypto, t: State, at: nat -> Times)
    requires Reachable(k, t)
    ensures forall r :: r in Records(t.audit, at) ==> Audit.DaemonFieldsClean(r)
  {
    ReachableIsClean(k, t);
    var rs := Records(t.audit, at);
    forall r | r in rs ensures Audit.DaemonFieldsClean(r) {
      var i :| 0 <= i < |rs| && rs[i] == r;
      RecordIsClean(t.audit[i], at(i));
    }
  }

  /** What the daemon wrote over a run has one line per audited transaction if and only if no caller
      asked for a peer id with a line end in it. */
  lemma DaemonLogHasOneLinePerNote(k: Crypto, t: State, at: nat -> Times)
    requires Reachable(k, t)
    ensures Audit.LineEnds(Audit.LogText(Records(t.audit, at))) == |t.audit| <==> PeersAreOneLine(t.audit)
  {
    DaemonRecordsAreClean(k, t, at);
    var rs := Records(t.audit, at);
    Audit.OneLinePerRecord(rs);
    PeersOfRecords(t.audit, at);
  }

  ghost predicate PeersAreOneLine(notes: seq<AuditNote>) {
    forall i :: 0 <= i < |notes| ==> Audit.Free(notes[i].peer, '\n')
  }

  lemma PeersOfRecords(notes: seq<AuditNote>, at: nat -> Times)
    ensures PeersAreOneLine(notes) <==> forall r :: r in Records(notes, at) ==> Audit.Free(r.peerId, '\n')
  {
    var rs := Records(notes, at);
    forall i | 0 <= i < |notes| ensures rs[i] in rs && rs[i].peerId == notes[i].peer {
    }
  }

  /** Two notes that print alike: same peer, same reason, and the same nonce, except that a call that
      drew none prints like one that drew the all-zero nonce. */
  predicate PrintAlike(a: AuditNote, b: AuditNote) {
    && a.peer == b.peer && a.reason == b.reason
    && (a.nonce.Some? && b.nonce.Some? ==> a.nonce == b.nonce)
  }

  /** The text of the log tells what happened: two runs whose peer ids hold no line ends and whose logs
      read the same audited the same transactions in the same order at the same times. */
  lemma DaemonLogTellsTheRun(k: Crypto, t: State, u: State, at: nat -> Times, bt: nat -> Times)
    requires Reachable(k, t) && Reachable(k, u) && PeersAreOneLine(t.audit) && PeersAreOneLine(u.audit)
    requires Audit.LogText(Records(t.audit, at)) == Audit.LogText(Records(u.audit, bt))
    ensures |t.audit| == |u.audit|
    ensures forall i :: 0 <= i < |t.audit| ==> PrintAlike(t.audit[i], u.audit[i]) && at(i) == bt(i)
  {
    DaemonRecordsAreClean(k, t, at);
    DaemonRecordsAreClean(k, u, bt);
    PeersOfRecords(t.audit, at);
    PeersOfRecords(u.audit, bt);
    var rs, qs := Records(t.audit, at), Records(u.audit, bt);
    Audit.LogDeterminesRecords(rs, qs);
    forall i | 0 <= i < |t.audit| ensures PrintAlike(t.audit[i], u.audit[i]) && at(i) == bt(i) {
      assert rs[i] == qs[i];
      RecordTellsNote(t.audit[i], u.audit[i], at(i), bt(i));
    }
  }

  lemma RecordTellsNote(a: AuditNote, b: AuditNote, at: Times, bt: Times)
    requires RecordOf(a, at) == RecordOf(b, bt)
    ensures PrintAlike(a, b) && at == bt
  {
    if a.nonce.Some? && b.nonce.Some? {
      HexIsInjective(a.nonce.value, b.nonce.value);
    }
  }
}
