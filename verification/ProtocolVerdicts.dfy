/** Which verdict a call of the challenge protocol gets, from what happened to it, and how that verdict
    reaches the log (crates/syauth-presenced/src/orchestrator.rs, `issue_challenge`, `run_challenge`). */
module ProtocolVerdicts {
  import opened Basics
  import opened Phone
  import opened Bonds
  import opened Protocol
  import opened ProtocolInvariant
  import opened ProtocolTheorems
  import Reconcile

  // ---- what decides a call ----------------------------------------------------------------------

  /** The answer is 64 bytes, a signature, and verifies under the captured key over `1 || nonce`. */
  predicate AnswerVerifies(k: Crypto, pubkey: Key, nonce: Nonce, answer: Bytes) {
    && |answer| == 64 && k.validSignature(answer)
    && k.validPoint(pubkey) && k.verifyStrict(pubkey, [1] + nonce, answer)
  }

  /** The peer has no entry, or one without a public key. */
  ghost predicate NotFound(s: State, p: PeerId) {
    p in s.peers ==> s.peers[p] < |s.entries| && s.entries[s.peers[p]].pubkey.None?
  }

  /** A radio failure of the challenge or of its answer. */
  predicate RadioFails(l: Label, c: nat, e: RadioError) {
    l == Notify(c, Some(e)) || l == Respond(c, Err(e))
  }

  /** The nonce of the call, once it has drawn one. */
  function Drawn(pc: Pc): Option<Nonce> {
    match pc
    case Notifying(n) => Some(n)
    case Awaiting(n) => Some(n)
    case Verified(n, _) => Some(n)
    case _ => None
  }

  /** Taken in `s`, the step decides call `c` with this verdict. */
  ghost predicate DecidesAs(k: Crypto, s: State, l: Label, c: nat, o: Outcome)
    requires WellFormed(s)
  {
    match o
    case NotKnown => (c == |s.calls| && l.Start? && NotFound(s, l.peer)) || RadioFails(l, c, RadioUnknownPeer)
    case Busy => l == QueueTimeout(c)
    case TimedOut => RadioFails(l, c, RadioTimeout)
    case TransportError => l == DrawNonce(c, None) || RadioFails(l, c, RadioOther)
    case BadSignature =>
      && l.Respond? && l.c == c && l.response.Ok? && At(s, c) && s.calls[c].pc.Awaiting? && s.calls[c].seen.Some?
      && !AnswerVerifies(k, s.calls[c].seen.value.pubkey, s.calls[c].pc.nonce, l.response.value)
    case Replay => l == CheckReplay(c) && At(s, c) && Seen(s, c)
    case Approved(sig) =>
      && l == CheckReplay(c) && At(s, c) && s.calls[c].pc.Verified? && s.calls[c].pc.signature == sig && !Seen(s, c)
    case Denied => false
  }

  /** The nonce of the verified call is in the window of its entry. */
  ghost predicate Seen(s: State, c: nat)
    requires WellFormed(s) && At(s, c)
  {
    && s.calls[c].pc.Verified? && s.calls[c].seen.Some? && s.calls[c].seen.value.entry < |s.entries|
    && s.calls[c].pc.nonce in s.entries[s.calls[c].seen.value.entry].nonces
  }

  /** Not there yet, or there and without a verdict. */
  predicate Open(s: State, c: nat) {
    c < |s.calls| ==> Decided(s.calls[c].pc).None? && !s.calls[c].pc.Cancelled?
  }

  // ---- what may happen at any moment ------------------------------------------------------------

  /** A call that is not finished may be dropped, and the step it waits for may have any result: the slot is
      granted when it is free and denied at any time, the nonce draw, the radio and the phone answer
      anything. A new call may start at any time. */
  lemma CallsMayMove(s: State, p: PeerId, c: nat, n: Option<Nonce>, e: Option<RadioError>, r: Result<Bytes, RadioError>)
    requires WellFormed(s)
    ensures Enabled(s, Start(p))
    ensures Enabled(s, Cancel(c)) <==> c < |s.calls| && !s.calls[c].pc.Done? && !s.calls[c].pc.Cancelled?
    ensures Enabled(s, QueueTimeout(c)) <==> c < |s.calls| && s.calls[c].pc.Queued?
    ensures Enabled(s, Acquire(c)) <==>
      c < |s.calls| && s.calls[c].pc.Queued? && s.entries[s.calls[c].seen.value.entry].permits >= 1
    ensures Enabled(s, DrawNonce(c, n)) <==> c < |s.calls| && s.calls[c].pc.Admitted?
    ensures Enabled(s, Notify(c, e)) <==> c < |s.calls| && s.calls[c].pc.Notifying?
    ensures Enabled(s, Respond(c, r)) <==> c < |s.calls| && s.calls[c].pc.Awaiting?
    ensures c < |s.calls| && s.calls[c].pc.Verified? ==> Enabled(s, CheckReplay(c))
    ensures c < |s.calls| && s.calls[c].pc.Auditing? ==> Enabled(s, Audit(c))
    ensures c < |s.calls| && s.calls[c].pc.Returning? ==> Enabled(s, Return(c))
  {
  }

  /** A reload may begin whenever none runs; its radio calls may fail for every peer still to do, and succeed
      where the radio's set allows; it goes on as soon as its list is done. */
  lemma ReloadMayMove(s: State, store: seq<Bond>, files: Reconcile.KeyFiles, id: PeerId)
    requires WellFormed(s)
    ensures Enabled(s, ReloadBegin(store, files)) <==> s.reload == Idle
    ensures s.reload.Removing? && id in s.reload.todo ==>
      Enabled(s, RadioRemove(id, false)) && (id in s.radio ==> Enabled(s, RadioRemove(id, true)))
    ensures s.reload.Removing? && s.reload.todo == {} ==> Enabled(s, RemovalsDone)
    ensures s.reload.Adding? && id in s.reload.todo && id in s.reload.plan.target ==>
      Enabled(s, RadioAdd(id, false)) && (id !in s.radio ==> Enabled(s, RadioAdd(id, true)))
    ensures s.reload.Adding? && s.reload.todo == {} ==> Enabled(s, ReloadEnd)
    ensures s.reload.RadioRemoved? ==> Enabled(s, MapRemove(s.reload.id))
    ensures s.reload.RadioAdded? ==> Enabled(s, MapAdd(s.reload.id))
  {
  }

  // ---- one step ---------------------------------------------------------------------------------

  lemma AnswerDecides(k: Crypto, s: State, c: nat, r: Result<Bytes, RadioError>)
    requires WellFormed(s) && Enabled(s, Respond(c, r))
    ensures var pc := Apply(k, s, Respond(c, r)).calls[c].pc;
      forall o :: Decided(pc) == Some(o) <==> DecidesAs(k, s, Respond(c, r), c, o)
  {
  }

  lemma CallStepDecides(k: Crypto, s: State, l: Label)
    requires WellFormed(s) && Enabled(s, l) && !l.Start? && !IsReloadStep(l) && !l.Respond?
    requires Open(s, l.c)
    ensures l.c < |Apply(k, s, l).calls|
    ensures forall o :: Decided(Apply(k, s, l).calls[l.c].pc) == Some(o) <==> DecidesAs(k, s, l, l.c, o)
  {
  }

  lemma StartDecides(k: Crypto, s: State, p: PeerId)
    requires WellFormed(s)
    ensures var c := |s.calls|; var s' := Apply(k, s, Start(p));
      c < |s'.calls| && forall o :: Decided(s'.calls[c].pc) == Some(o) <==> DecidesAs(k, s, Start(p), c, o)
  {
  }

  lemma OthersDecideNothing(k: Crypto, s: State, l: Label, c: nat)
    requires WellFormed(s) && Enabled(s, l) && !Concerns(l, c) && c < |s.calls| && Open(s, c)
    ensures c < |Apply(k, s, l).calls| && Decided(Apply(k, s, l).calls[c].pc).None?
    ensures forall o :: !DecidesAs(k, s, l, c, o)
  {
    UnconcernedKeepsCall(k, s, l, c);
    OthersCallForNothing(k, s, l, c);
  }

  lemma OthersCallForNothing(k: Crypto, s: State, l: Label, c: nat)
    requires WellFormed(s) && !Concerns(l, c) && c < |s.calls|
    ensures forall o :: !DecidesAs(k, s, l, c, o)
  {
  }

  lemma NewCallIsLast(k: Crypto, s: State, l: Label, c: nat)
    requires WellFormed(s) && Enabled(s, l) && |s.calls| <= c < |Apply(k, s, l).calls|
    ensures l.Start? && c == |s.calls|
  {
  }

  /** A step gives an open call exactly the verdict that what happened in it calls for. */
  lemma StepDecidesIff(k: Crypto, s: State, l: Label, c: nat)
    requires WellFormed(s) && Enabled(s, l) && Open(s, c) && c < |Apply(k, s, l).calls|
    ensures forall o :: Decided(Apply(k, s, l).calls[c].pc) == Some(o) <==> DecidesAs(k, s, l, c, o)
  {
    if c >= |s.calls| {
      NewCallIsLast(k, s, l, c);
      StartDecides(k, s, l.peer);
    } else if !Concerns(l, c) {
      OthersDecideNothing(k, s, l, c);
    } else if l.Respond? {
      AnswerDecides(k, s, c, l.response);
    } else {
      CallStepDecides(k, s, l);
    }
  }

  /** A call that a step decides is there after it. */
  lemma DecidedIsThere(k: Crypto, s: State, l: Label, c: nat, o: Outcome)
    requires WellFormed(s) && Enabled(s, l) && DecidesAs(k, s, l, c, o)
    ensures c < |Apply(k, s, l).calls| && (c < |s.calls| ==> Concerns(l, c))
  {
    if l.Start? {
      StartDecides(k, s, l.peer);
    } else {
      CauseConcerns(k, s, l, c, o);
      CallsStay(k, s, l);
    }
  }

  lemma CauseConcerns(k: Crypto, s: State, l: Label, c: nat, o: Outcome)
    requires WellFormed(s) && Enabled(s, l) && DecidesAs(k, s, l, c, o) && !l.Start?
    ensures Concerns(l, c) && c < |s.calls|
  {
  }

  lemma CallsStay(k: Crypto, s: State, l: Label)
    requires WellFormed(s) && Enabled(s, l)
    ensures |s.calls| <= |Apply(k, s, l).calls|
  {
  }

  // ---- whole runs -------------------------------------------------------------------------------

  /** `run` goes through the step `l`, which is taken in the state `at`. */
  datatype Moment = Moment(before: seq<Label>, at: State, step: Label, rest: seq<Label>)

  ghost predicate Passes(k: Crypto, s: State, run: seq<Label>, t: State, m: Moment) {
    && run == m.before + [m.step] + m.rest && Runs(k, s, m.before, m.at) && WellFormed(m.at) && Enabled(m.at, m.step)
    && Runs(k, Apply(k, m.at, m.step), m.rest, t)
  }

  /** At that moment the call gets its verdict. */
  ghost predicate DecidedAt(k: Crypto, m: Moment, c: nat, o: Outcome) {
    WellFormed(m.at) && Open(m.at, c) && DecidesAs(k, m.at, m.step, c, o)
  }

  /** Somewhere in the run a step was taken that calls for this verdict. */
  ghost predicate Caused(k: Crypto, s: State, run: seq<Label>, t: State, c: nat, o: Outcome) {
    exists m :: Passes(k, s, run, t, m) && DecidedAt(k, m, c, o)
  }

  lemma FirstStepDecides(k: Crypto, s: State, run: seq<Label>, t: State, c: nat, o: Outcome)
    requires Inv(k, s) && run != [] && Runs(k, s, run, t) && Open(s, c)
    requires c < |t.calls| && Decided(t.calls[c].pc) == Some(o)
    ensures var s1 := Apply(k, s, run[0]);
      && (c < |s1.calls| && Decided(s1.calls[c].pc).Some? ==> DecidesAs(k, s, run[0], c, o))
      && (c < |s1.calls| && Decided(s1.calls[c].pc).None? ==> Open(s1, c))
  {
    if c < |Apply(k, s, run[0]).calls| {
      StepDecidesIff(k, s, run[0], c);
      RestPersists(k, s, run, t, c);
    }
  }

  lemma RestPersists(k: Crypto, s: State, run: seq<Label>, t: State, c: nat)
    requires Inv(k, s) && run != [] && Runs(k, s, run, t) && c < |Apply(k, s, run[0]).calls|
    ensures c < |t.calls| && Persists(Apply(k, s, run[0]).calls[c], t.calls[c])
  {
    StepKeepsInv(k, s, run[0]);
    CallsPersist(k, Apply(k, s, run[0]), run[1..], t, c);
  }

  lemma PassesLater(k: Crypto, s: State, run: seq<Label>, t: State, m: Moment)
    requires WellFormed(s) && run != [] && Runs(k, s, run, t) && Passes(k, Apply(k, s, run[0]), run[1..], t, m)
    ensures Passes(k, s, run, t, m.(before := [run[0]] + m.before))
  {
    OneStepMore(k, s, run[0], m.before, m.at);
    assert run == [run[0]] + run[1..] == [run[0]] + m.before + [m.step] + m.rest;
  }

  lemma PassesFirst(k: Crypto, s: State, run: seq<Label>, t: State)
    requires WellFormed(s) && run != [] && Runs(k, s, run, t)
    ensures Passes(k, s, run, t, Moment([], s, run[0], run[1..]))
  {
    assert run == [] + [run[0]] + run[1..];
  }

  /** Every verdict has its cause: somewhere in the run a step was taken that calls for it. */
  lemma {:induction false} VerdictHasCause(k: Crypto, s: State, run: seq<Label>, t: State, c: nat, o: Outcome)
    returns (m: Moment)
    requires Inv(k, s) && Runs(k, s, run, t) && Open(s, c)
    requires c < |t.calls| && Decided(t.calls[c].pc) == Some(o)
    ensures Passes(k, s, run, t, m) && DecidedAt(k, m, c, o)
    decreases |run|
  {
    var s1 := Apply(k, s, run[0]);
    FirstStepDecides(k, s, run, t, c, o);
    if c < |s1.calls| && Decided(s1.calls[c].pc).Some? {
      PassesFirst(k, s, run, t);
      m := Moment([], s, run[0], run[1..]);
    } else {
      StepKeepsInv(k, s, run[0]);
      m := VerdictHasCause(k, s1, run[1..], t, c, o);
      PassesLater(k, s, run, t, m);
      m := m.(before := [run[0]] + m.before);
    }
  }

  /** And every cause has its effect: from such a step on the call keeps that verdict, unless dropped. */
  lemma CauseHasVerdict(k: Crypto, s: State, run: seq<Label>, t: State, c: nat, o: Outcome, m: Moment)
    requires Inv(k, s) && Passes(k, s, run, t, m) && DecidedAt(k, m, c, o)
    ensures c < |t.calls| && (t.calls[c].pc.Cancelled? || Decided(t.calls[c].pc) == Some(o))
  {
    RunsKeepInv(k, s, m.before, m.at);
    DecidedIsThere(k, m.at, m.step, c, o);
    StepDecidesIff(k, m.at, m.step, c);
    StepKeepsInv(k, m.at, m.step);
    CallsPersist(k, Apply(k, m.at, m.step), m.rest, t, c);
  }

  /** From every start, along every run: a call that was not dropped has a verdict if and only if the run
      went through a step that calls for exactly that verdict. */
  lemma VerdictIff(k: Crypto, s: State, run: seq<Label>, t: State, c: nat, o: Outcome)
    requires Initial(s) && Runs(k, s, run, t) && c < |t.calls| && !t.calls[c].pc.Cancelled?
    ensures Decided(t.calls[c].pc) == Some(o) <==> Caused(k, s, run, t, c, o)
  {
    InitialHasInv(k, s);
    if Decided(t.calls[c].pc) == Some(o) {
      var m := VerdictHasCause(k, s, run, t, c, o);
    }
    if m :| Passes(k, s, run, t, m) && DecidedAt(k, m, c, o) {
      CauseHasVerdict(k, s, run, t, c, o, m);
    }
  }

  // ---- the nonce in the log ---------------------------------------------------------------------

  /** The call will be, or has been, logged with nonce `n`. */
  ghost predicate Logs(s: State, c: nat, n: Option<Nonce>) {
    c < |s.calls| &&
    match s.calls[c].pc
    case Auditing(logged, _, _) => logged == n
    case Returning(_, _) => Noted(s, c, n)
    case Done(_) => Noted(s, c, n)
    case Cancelled => true
    case _ => false
  }

  ghost predicate Noted(s: State, c: nat, n: Option<Nonce>) {
    exists i :: 0 <= i < |s.audit| && s.audit[i].call == c && s.audit[i].nonce == n
  }

  lemma DecidingStepLogs(k: Crypto, s: State, l: Label, c: nat, o: Outcome)
    requires WellFormed(s) && Enabled(s, l) && Open(s, c) && DecidesAs(k, s, l, c, o)
    ensures Logs(Apply(k, s, l), c, if c < |s.calls| then Drawn(s.calls[c].pc) else None)
  {
    DecidedIsThere(k, s, l, c, o);
    StepDecidesIff(k, s, l, c);
    if c < |s.calls| {
      VerdictLogsDrawn(k, s, l);
    } else {
      NewCallIsLast(k, s, l, c);
    }
  }

  /** Whatever the step, a call that gets its verdict will be logged with the nonce it has drawn. */
  lemma VerdictLogsDrawn(k: Crypto, s: State, l: Label)
    requires WellFormed(s) && Enabled(s, l) && !l.Start? && !IsReloadStep(l) && Open(s, l.c)
    requires Decided(Apply(k, s, l).calls[l.c].pc).Some?
    ensures var pc := Apply(k, s, l).calls[l.c].pc; pc.Auditing? && pc.logged == Drawn(s.calls[l.c].pc)
  {
  }

  lemma AuditGrows(k: Crypto, s: State, l: Label)
    requires WellFormed(s) && Enabled(s, l)
    ensures s.audit <= Apply(k, s, l).audit
  {
  }

  lemma AuditStepNotes(k: Crypto, s: State, c: nat, n: Option<Nonce>)
    requires WellFormed(s) && Enabled(s, Audit(c)) && Logs(s, c, n)
    ensures Logs(Apply(k, s, Audit(c)), c, n)
  {
    var s' := Apply(k, s, Audit(c));
    assert s'.audit[|s.audit|].call == c && s'.audit[|s.audit|].nonce == n;
  }

  lemma LaterStepsKeepPc(k: Crypto, s: State, l: Label, c: nat, n: Option<Nonce>)
    requires WellFormed(s) && Enabled(s, l) && Logs(s, c, n) && Concerns(l, c) && !l.Audit?
    ensures Logs(Apply(k, s, l), c, n)
  {
    if Noted(s, c, n) {
      AuditGrows(k, s, l);
      NotesStay(s, Apply(k, s, l), c, n);
    }
  }

  lemma NotesStay(s: State, s': State, c: nat, n: Option<Nonce>)
    requires s.audit <= s'.audit && Noted(s, c, n)
    ensures Noted(s', c, n)
  {
  }

  lemma StepKeepsLogs(k: Crypto, s: State, l: Label, c: nat, n: Option<Nonce>)
    requires WellFormed(s) && Enabled(s, l) && Logs(s, c, n)
    ensures Logs(Apply(k, s, l), c, n)
  {
    if l == Audit(c) {
      AuditStepNotes(k, s, c, n);
    } else if Concerns(l, c) {
      LaterStepsKeepPc(k, s, l, c, n);
    } else {
      UnconcernedKeepsCall(k, s, l, c);
      if Noted(s, c, n) {
        AuditGrows(k, s, l);
        NotesStay(s, Apply(k, s, l), c, n);
      }
    }
  }

  lemma {:induction false} RunsKeepLogs(k: Crypto, s: State, run: seq<Label>, t: State, c: nat, n: Option<Nonce>)
    requires Inv(k, s) && Runs(k, s, run, t) && Logs(s, c, n)
    ensures Logs(t, c, n)
    decreases |run|
  {
    if run != [] {
      StepKeepsInv(k, s, run[0]);
      StepKeepsLogs(k, s, run[0], c, n);
      RunsKeepLogs(k, Apply(k, s, run[0]), run[1..], t, c, n);
    }
  }

  /** A completed call has a cause, and its one note names its peer, the reason of its verdict and the
      nonce it had drawn when it was decided; `None` only if it was decided before it drew one. */
  lemma NoteExplainsCall(k: Crypto, s: State, run: seq<Label>, t: State, c: nat, o: Outcome)
    returns (m: Moment, i: nat)
    requires Initial(s) && Runs(k, s, run, t) && c < |t.calls| && t.calls[c].pc == Done(o)
    ensures Passes(k, s, run, t, m) && DecidedAt(k, m, c, o)
    ensures i < |t.audit| && forall j :: 0 <= j < |t.audit| && t.audit[j].call == c ==> j == i
    ensures t.audit[i] == AuditNote(c, t.calls[c].peer, if c < |m.at.calls| then Drawn(m.at.calls[c].pc) else None,
                                    Reason(o))
  {
    InitialHasInv(k, s);
    m := VerdictHasCause(k, s, run, t, c, o);
    var n := if c < |m.at.calls| then Drawn(m.at.calls[c].pc) else None;
    CauseIsNoted(k, s, run, t, c, o, m, n);
    CompletedCallsAreAuditedOnce(k, t, c, o);
    i :| 0 <= i < |t.audit| && t.audit[i].call == c && t.audit[i].nonce == n;
  }

  lemma CauseIsNoted(k: Crypto, s: State, run: seq<Label>, t: State, c: nat, o: Outcome, m: Moment, n: Option<Nonce>)
    requires Inv(k, s) && Passes(k, s, run, t, m) && DecidedAt(k, m, c, o)
    requires n == if c < |m.at.calls| then Drawn(m.at.calls[c].pc) else None
    requires c < |t.calls| && t.calls[c].pc.Done?
    ensures Noted(t, c, n)
  {
    RunsKeepInv(k, s, m.before, m.at);
    DecidingStepLogs(k, m.at, m.step, c, o);
    StepKeepsInv(k, m.at, m.step);
    RunsKeepLogs(k, Apply(k, m.at, m.step), m.rest, t, c, n);
  }
}
