/** The inductive invariant of the challenge protocol: one part per concern, each kept by every step. */
module ProtocolInvariant {
  import opened Basics
  import opened Phone
  import opened NonceWindow
  import opened Bonds
  import opened Protocol

  // ---- slots --------------------------------------------------------------------------------

  /** Call `c` is between slot acquisition and release on entry `e`. */
  predicate HoldsSlot(s: State, c: nat, e: nat) {
    At(s, c) && Holding(s.calls[c].pc) && s.calls[c].seen.Some? && s.calls[c].seen.value.entry == e
  }

  /** At most one holder per entry, and the permit is free exactly when there is none. */
  ghost predicate SlotInv(s: State) {
    && (forall e :: 0 <= e < |s.entries| ==> s.entries[e].permits <= 1)
    && (forall c: nat, e: nat :: HoldsSlot(s, c, e) && e < |s.entries| ==> s.entries[e].permits == 0)
    && (forall e :: 0 <= e < |s.entries| && s.entries[e].permits == 0 ==> exists c :: HoldsSlot(s, c, e))
    && (forall c, d, e :: HoldsSlot(s, c, e) && HoldsSlot(s, d, e) ==> c == d)
  }

  // ---- calls and entries --------------------------------------------------------------------

  /** The captured state is that of the entry, which belongs to the requested peer. */
  predicate Faithful(entries: seq<Entry>, call: Call) {
    call.seen.Some? ==>
      var cap := call.seen.value;
      && cap.entry < |entries|
      && entries[cap.entry].peer == call.peer
      && entries[cap.entry].pubkey == Some(cap.pubkey)
      && entries[cap.entry].bondKey == cap.bondKey
  }

  /** `sent` is the challenge for `n` under the captured bond key. */
  predicate SentFor(k: Crypto, call: Call, n: Nonce) {
    call.seen.Some? && call.sent == Some(ChallengeBytes(k, call.seen.value.bondKey, n))
  }

  /** `a` is a valid acceptance of call `c` by entry `e`. */
  predicate Justified(k: Crypto, call: Call, e: nat, a: Acceptance) {
    && call.seen.Some? && call.seen.value.entry == e
    && SentFor(k, call, a.nonce)
    && ParseSignature(k, a.signature) == Some(a.signature)
    && SignatureChecks(k, call.seen.value.pubkey, a.nonce, a.signature)
    && (call.pc.Cancelled? || Decided(call.pc) == Some(Approved(a.signature)))
  }

  /** What the program counter says about the call. */
  predicate Located(k: Crypto, call: Call) {
    match call.pc
    case Queued => call.sent.None?
    case Admitted => call.sent.None?
    case Notifying(_) => call.sent.None?
    case Awaiting(n) => SentFor(k, call, n)
    case Verified(n, sig) =>
      && SentFor(k, call, n)
      && ParseSignature(k, sig) == Some(sig)
      && SignatureChecks(k, call.seen.value.pubkey, n, sig)
    case Cancelled => true
    case Auditing(logged, o, _) =>
      && (call.seen.None? ==> o == NotKnown)
      && (call.sent.Some? ==> logged.Some? && SentFor(k, call, logged.value))
    case _ => call.seen.None? ==> Decided(call.pc) == Some(NotKnown)
  }

  /** An approved call appears in the acceptance history of the entry it captured. */
  ghost predicate Recorded(s: State, c: nat) {
    At(s, c) && Decided(s.calls[c].pc).Some? && Decided(s.calls[c].pc).value.Approved? ==>
      && s.calls[c].seen.Some? && s.calls[c].seen.value.entry < |s.entries|
      && exists a :: a in s.entries[s.calls[c].seen.value.entry].accepted && a.call == c
           && (s.calls[c].pc.Auditing? ==> s.calls[c].pc.logged == Some(a.nonce))
  }

  ghost predicate CallInv(k: Crypto, s: State) {
    forall c :: 0 <= c < |s.calls| ==> Faithful(s.entries, s.calls[c]) && Located(k, s.calls[c]) && Recorded(s, c)
  }

  /** The window is the last 64 acceptances, never repeats within 65, and every acceptance is justified. */
  ghost predicate EntryInv(k: Crypto, s: State) {
    forall e :: 0 <= e < |s.entries| ==> EntryOk(k, s.calls, s.entries[e], e)
  }

  ghost predicate EntryOk(k: Crypto, calls: seq<Call>, entry: Entry, e: nat) {
    && entry.nonces == LastN(NoncesOf(entry.accepted), NONCE_LRU_CAP)
    && Windowed(NoncesOf(entry.accepted))
    && (forall i :: 0 <= i < |entry.accepted| ==>
          entry.accepted[i].call < |calls| && Justified(k, calls[entry.accepted[i].call], e, entry.accepted[i]))
    && (forall i, j :: 0 <= i < j < |entry.accepted| ==> entry.accepted[i].call != entry.accepted[j].call)
  }

  // ---- audit --------------------------------------------------------------------------------

  predicate Audited(pc: Pc) {
    pc.Returning? || pc.Done?
  }

  /** `n` is the note a call with this outcome leaves: its peer, its reason, and the nonce of the
      challenge it sent. */
  predicate NoteOf(k: Crypto, call: Call, n: AuditNote) {
    && n.peer == call.peer && Decided(call.pc).Some? && n.reason == Reason(Decided(call.pc).value)
    && (call.sent.Some? ==> n.nonce.Some? && SentFor(k, call, n.nonce.value))
  }

  /** One note per call that got past its audit append, none for a call still before it. */
  ghost predicate AuditInv(k: Crypto, s: State) {
    && (forall i :: 0 <= i < |s.audit| ==>
          && s.audit[i].call < |s.calls|
          && (s.calls[s.audit[i].call].pc.Cancelled?
              || (Audited(s.calls[s.audit[i].call].pc) && NoteOf(k, s.calls[s.audit[i].call], s.audit[i]))))
    && (forall i, j :: 0 <= i < j < |s.audit| ==> s.audit[i].call != s.audit[j].call)
    && (forall c :: 0 <= c < |s.calls| && Audited(s.calls[c].pc) ==>
          exists i :: 0 <= i < |s.audit| && s.audit[i].call == c)
  }

  // ---- map, radio and reload ----------------------------------------------------------------

  ghost predicate MapInv(s: State) {
    && (forall p :: p in s.peers ==> s.peers[p] < |s.entries| && s.entries[s.peers[p]].peer == p)
    && (match s.reload
        case RadioRemoved(_, _, id) => id !in s.radio && s.peers.Keys == s.radio + {id}
        case RadioAdded(_, _, id) => id !in s.peers && s.radio == s.peers.Keys + {id}
        case _ => s.radio == s.peers.Keys)
  }

  /** The retained peers, with the entries they had when the reload began. */
  ghost predicate Keeps(s: State, plan: Plan, ids: set<PeerId>) {
    forall p :: p in ids ==> p in s.peers && p in plan.before && s.peers[p] == plan.before[p]
  }

  /** How far the reload got, as a formula for the live key set. */
  ghost predicate ReloadInv(s: State) {
    match s.reload
    case Idle => true
    case Removing(plan, todo) =>
      var (b, t) := (plan.before.Keys, plan.target.Keys);
      && plan.added == {} && todo <= b - t && plan.failed <= b - t - todo
      && s.peers.Keys == b * t + todo + plan.failed
      && Keeps(s, plan, s.peers.Keys)
    case RadioRemoved(plan, todo, id) =>
      var (b, t) := (plan.before.Keys, plan.target.Keys);
      && plan.added == {} && todo <= b - t && plan.failed <= b - t - todo
      && id in b - t - todo - plan.failed
      && s.peers.Keys == b * t + todo + plan.failed + {id}
      && Keeps(s, plan, s.peers.Keys)
    case Adding(plan, todo) =>
      var (b, t) := (plan.before.Keys, plan.target.Keys);
      && todo <= t - b && plan.failed <= b - t && plan.added <= t - b - todo
      && s.peers.Keys == b * t + plan.failed + plan.added
      && Keeps(s, plan, b * t + plan.failed)
    case RadioAdded(plan, todo, id) =>
      var (b, t) := (plan.before.Keys, plan.target.Keys);
      && todo <= t - b && plan.failed <= b - t && plan.added <= t - b - todo
      && id in t - b - todo - plan.added
      && s.peers.Keys == b * t + plan.failed + plan.added
      && Keeps(s, plan, b * t + plan.failed)
  }

  ghost predicate Inv(k: Crypto, s: State) {
    WellFormed(s) && SlotInv(s) && CallInv(k, s) && EntryInv(k, s) && AuditInv(k, s) && MapInv(s) && ReloadInv(s)
  }

  // ---- every step keeps every part ----------------------------------------------------------

  lemma InitialHasInv(k: Crypto, s: State)
    requires Initial(s)
    ensures Inv(k, s)
  {
  }

  /** Slots: what a call step does to its own holding, it does to the permit of its entry. */
  lemma SlotStep(s: State, s': State, c: nat)
    requires WellFormed(s) && SlotInv(s) && At(s, c)
    requires |s'.calls| == |s.calls| && |s'.entries| == |s.entries|
    requires forall d :: 0 <= d < |s.calls| && d != c ==> s'.calls[d] == s.calls[d]
    requires s'.calls[c].seen == s.calls[c].seen
    requires Holding(s'.calls[c].pc) ==> s.calls[c].seen.Some?
    requires forall e :: 0 <= e < |s.entries| ==>
      s'.entries[e].permits ==
        s.entries[e].permits
        + (if HoldsSlot(s, c, e) then 1 else 0)
        - (if HoldsSlot(s', c, e) then 1 else 0)
    requires forall e: nat :: HoldsSlot(s', c, e) && !HoldsSlot(s, c, e) && e < |s.entries| ==> s.entries[e].permits > 0
    ensures SlotInv(s')
  {
    forall d, e | d != c ensures HoldsSlot(s', d, e) == HoldsSlot(s, d, e) {
    }
    forall e | 0 <= e < |s'.entries| && s'.entries[e].permits == 0 ensures exists d :: HoldsSlot(s', d, e) {
      if !HoldsSlot(s', c, e) {
        var d :| HoldsSlot(s, d, e);
        assert HoldsSlot(s', d, e);
      }
    }
  }

  /** Steps that only move the program counter of one call and keep or never take the permit. */
  predicate IsLocalStep(l: Label) {
    l.QueueTimeout? || l.DrawNonce? || l.Notify? || l.Respond? || l.Audit?
  }

  lemma LocalStepKeepsSlots(k: Crypto, s: State, l: Label)
    requires WellFormed(s) && SlotInv(s) && Enabled(s, l) && IsLocalStep(l)
    ensures SlotInv(Apply(k, s, l))
  {
    var s' := Apply(k, s, l);
    assert Holding(s'.calls[l.c].pc) == Holding(s.calls[l.c].pc);
    SlotStep(s, s', l.c);
  }

  lemma SharedStepKeepsSlots(k: Crypto, s: State, l: Label)
    requires WellFormed(s) && SlotInv(s) && Enabled(s, l) && (l.Acquire? || l.CheckReplay?)
    ensures SlotInv(Apply(k, s, l))
  {
    SlotStep(s, Apply(k, s, l), l.c);
  }

  lemma LastStepKeepsSlots(k: Crypto, s: State, l: Label)
    requires WellFormed(s) && SlotInv(s) && Enabled(s, l) && (l.Return? || l.Cancel?)
    ensures SlotInv(Apply(k, s, l))
  {
    SlotStep(s, Apply(k, s, l), l.c);
  }

  lemma OtherStepsKeepSlots(k: Crypto, s: State, l: Label)
    requires WellFormed(s) && SlotInv(s) && Enabled(s, l) && (l.Start? || IsReloadStep(l))
    ensures SlotInv(Apply(k, s, l))
  {
    var s' := Apply(k, s, l);
    forall c, e ensures HoldsSlot(s', c, e) <==> HoldsSlot(s, c, e) {
    }
    forall e | 0 <= e < |s'.entries| && s'.entries[e].permits == 0 ensures exists c :: HoldsSlot(s', c, e) {
      var c :| HoldsSlot(s, c, e);
      assert HoldsSlot(s', c, e);
    }
  }

  /** How one call may move without a new acceptance. */
  predicate Moves(k: Crypto, a: Call, b: Call) {
    && !a.pc.Cancelled?
    && b.seen == a.seen && b.peer == a.peer
    && Located(k, b)
    && match Decided(a.pc)
       case Some(o) => b.sent == a.sent && (b.pc.Cancelled? || (Decided(b.pc) == Some(o) && !b.pc.Auditing?))
       case None => Decided(b.pc).Some? ==> !Decided(b.pc).value.Approved?
  }

  /** `s'` is `s` after call `c` moved; entries change at most in their permits. */
  ghost predicate OneMoved(k: Crypto, s: State, s': State, c: nat) {
    && At(s, c) && |s'.calls| == |s.calls|
    && (forall d :: 0 <= d < |s.calls| && d != c ==> s'.calls[d] == s.calls[d])
    && Moves(k, s.calls[c], s'.calls[c])
    && |s'.entries| == |s.entries|
    && (forall e :: 0 <= e < |s.entries| ==> s'.entries[e] == s.entries[e].(permits := s'.entries[e].permits))
  }

  lemma MoveKeepsEntries(k: Crypto, s: State, s': State, c: nat)
    requires EntryInv(k, s) && OneMoved(k, s, s', c)
    ensures EntryInv(k, s')
  {
  }

  lemma MoveKeepsCalls(k: Crypto, s: State, s': State, c: nat)
    requires CallInv(k, s) && OneMoved(k, s, s', c)
    ensures CallInv(k, s')
  {
  }

  lemma RespondMoves(k: Crypto, s: State, l: Label)
    requires WellFormed(s) && CallInv(k, s) && Enabled(s, l) && l.Respond?
    ensures OneMoved(k, s, Apply(k, s, l), l.c)
  {
  }

  lemma LocalStepMoves(k: Crypto, s: State, l: Label)
    requires WellFormed(s) && CallInv(k, s) && Enabled(s, l) && IsLocalStep(l) && !l.Respond?
    ensures OneMoved(k, s, Apply(k, s, l), l.c)
  {
    assert Located(k, s.calls[l.c]);
  }

  lemma PermitStepMoves(k: Crypto, s: State, l: Label)
    requires WellFormed(s) && CallInv(k, s) && Enabled(s, l) && (l.Acquire? || l.Return? || l.Cancel?)
    ensures OneMoved(k, s, Apply(k, s, l), l.c)
  {
    assert Located(k, s.calls[l.c]);
  }

  /** A call that is still undecided is in no acceptance history. */
  lemma UndecidedIsUnaccepted(k: Crypto, calls: seq<Call>, entry: Entry, e: nat, c: nat, call': Call)
    requires EntryOk(k, calls, entry, e)
    requires c < |calls| && Decided(calls[c].pc) == None && !calls[c].pc.Cancelled?
    ensures EntryOk(k, calls[c := call'], entry, e)
    ensures forall i :: 0 <= i < |entry.accepted| ==> entry.accepted[i].call != c
  {
  }

  /** The window and its history stay in step when a nonce outside the window is accepted. */
  lemma AcceptanceKeepsWindow(acc: seq<Acceptance>, a: Acceptance)
    requires Windowed(NoncesOf(acc)) && a.nonce !in LastN(NoncesOf(acc), NONCE_LRU_CAP)
    ensures Windowed(NoncesOf(acc + [a]))
    ensures Insert(LastN(NoncesOf(acc), NONCE_LRU_CAP), a.nonce) == LastN(NoncesOf(acc + [a]), NONCE_LRU_CAP)
  {
    assert NoncesOf(acc + [a]) == NoncesOf(acc) + [a.nonce];
    InsertKeepsLastN(NoncesOf(acc), a.nonce);
    WindowedExtends(NoncesOf(acc), a.nonce);
  }

  lemma AcceptanceKeepsEntry(k: Crypto, calls: seq<Call>, entry: Entry, e: nat, a: Acceptance)
    requires EntryOk(k, calls, entry, e)
    requires a.call < |calls| && Justified(k, calls[a.call], e, a) && a.nonce !in entry.nonces
    requires forall i :: 0 <= i < |entry.accepted| ==> entry.accepted[i].call != a.call
    ensures EntryOk(k, calls, entry.(nonces := Insert(entry.nonces, a.nonce), accepted := entry.accepted + [a]), e)
  {
    AcceptanceKeepsWindow(entry.accepted, a);
  }

  /** The replay check: a rejected nonce is a plain move, an accepted one extends the entry's history. */
  lemma CheckReplayKeepsEntries(k: Crypto, s: State, c: nat)
    requires WellFormed(s) && CallInv(k, s) && EntryInv(k, s) && Enabled(s, CheckReplay(c))
    requires s.calls[c].pc.nonce !in s.entries[s.calls[c].seen.value.entry].nonces
    ensures EntryInv(k, Apply(k, s, CheckReplay(c)))
  {
    var s' := Apply(k, s, CheckReplay(c));
    var call := s.calls[c];
    var at := call.seen.value.entry;
    var a := Acceptance(c, call.pc.nonce, call.pc.signature);
    var call' := call.(pc := Auditing(Some(a.nonce), Approved(a.signature), true));
    assert s'.calls == s.calls[c := call'];
    assert Justified(k, call', at, a) by {
      assert Located(k, call);
    }
    ReplayOneEntry(k, s.calls, s.entries[at], at, c, call', a);
    forall e | 0 <= e < |s'.entries| ensures EntryOk(k, s'.calls, s'.entries[e], e) {
      if e != at {
        assert s'.entries[e] == s.entries[e];
        UndecidedIsUnaccepted(k, s.calls, s.entries[e], e, c, call');
      }
    }
  }

  lemma ReplayOneEntry(k: Crypto, calls: seq<Call>, entry: Entry, e: nat, c: nat, call': Call, a: Acceptance)
    requires EntryOk(k, calls, entry, e)
    requires c < |calls| && Decided(calls[c].pc) == None && !calls[c].pc.Cancelled?
    requires a.call == c && Justified(k, call', e, a) && a.nonce !in entry.nonces
    ensures EntryOk(k, calls[c := call'],
      entry.(nonces := Insert(entry.nonces, a.nonce), accepted := entry.accepted + [a]), e)
  {
    UndecidedIsUnaccepted(k, calls, entry, e, c, call');
    AcceptanceKeepsEntry(k, calls[c := call'], entry, e, a);
  }

  lemma RejectedReplayMoves(k: Crypto, s: State, c: nat)
    requires WellFormed(s) && CallInv(k, s) && Enabled(s, CheckReplay(c))
    requires s.calls[c].pc.nonce in s.entries[s.calls[c].seen.value.entry].nonces
    ensures OneMoved(k, s, Apply(k, s, CheckReplay(c)), c)
  {
  }

  lemma CheckReplayKeepsCalls(k: Crypto, s: State, c: nat)
    requires WellFormed(s) && CallInv(k, s) && Enabled(s, CheckReplay(c))
    requires s.calls[c].pc.nonce !in s.entries[s.calls[c].seen.value.entry].nonces
    ensures CallInv(k, Apply(k, s, CheckReplay(c)))
  {
    var s' := Apply(k, s, CheckReplay(c));
    var at := s.calls[c].seen.value.entry;
    assert forall a :: a in s.entries[at].accepted ==> a in s'.entries[at].accepted;
    forall d | 0 <= d < |s'.calls|
      ensures Faithful(s'.entries, s'.calls[d]) && Located(k, s'.calls[d]) && Recorded(s', d)
    {
      assert Faithful(s.entries, s.calls[d]) && Located(k, s.calls[d]) && Recorded(s, d);
      if d == c {
        assert Acceptance(c, s.calls[c].pc.nonce, s.calls[c].pc.signature) in s'.entries[at].accepted;
      }
    }
  }

  /** Starting a call and reloading: calls and entries are only appended to. */
  lemma GrowthKeepsEntries(k: Crypto, s: State, s': State)
    requires EntryInv(k, s) && s.calls <= s'.calls && s.entries <= s'.entries
    requires forall e :: |s.entries| <= e < |s'.entries| ==>
      s'.entries[e] == FreshEntry(s'.entries[e].peer, s'.entries[e].pubkey, s'.entries[e].bondKey)
    ensures EntryInv(k, s')
  {
  }

  lemma GrowthKeepsCalls(k: Crypto, s: State, s': State)
    requires CallInv(k, s) && s.calls <= s'.calls && s.entries <= s'.entries
    requires forall c :: |s.calls| <= c < |s'.calls| ==>
      Faithful(s'.entries, s'.calls[c]) && Located(k, s'.calls[c]) && Recorded(s', c)
    ensures CallInv(k, s')
  {
  }

  lemma StartKeepsCalls(k: Crypto, s: State, peer: PeerId)
    requires WellFormed(s) && MapInv(s) && CallInv(k, s) && EntryInv(k, s)
    ensures var s' := Apply(k, s, Start(peer)); CallInv(k, s') && EntryInv(k, s')
  {
  }

  lemma ReloadKeepsCalls(k: Crypto, s: State, l: Label)
    requires WellFormed(s) && CallInv(k, s) && EntryInv(k, s) && Enabled(s, l) && IsReloadStep(l)
    ensures var s' := Apply(k, s, l); CallInv(k, s') && EntryInv(k, s')
  {
    var s' := Apply(k, s, l);
    GrowthKeepsEntries(k, s, s');
    GrowthKeepsCalls(k, s, s');
  }

  // ---- audit, map and reload -----------------------------------------------------------------

  lemma AuditStepKeepsAudit(k: Crypto, s: State, c: nat)
    requires WellFormed(s) && AuditInv(k, s) && Enabled(s, Audit(c)) && Located(k, s.calls[c])
    ensures AuditInv(k, Apply(k, s, Audit(c)))
  {
    var call := s.calls[c];
    var note := AuditNote(c, call.peer, call.pc.logged, Reason(call.pc.outcome));
    NoteKeepsAudit(k, s, c, call.(pc := Returning(call.pc.outcome, call.pc.holding)), note);
  }

  lemma NoteKeepsAudit(k: Crypto, s: State, c: nat, call': Call, note: AuditNote)
    requires AuditInv(k, s) && At(s, c) && !Audited(s.calls[c].pc) && !s.calls[c].pc.Cancelled?
    requires note.call == c && Audited(call'.pc) && NoteOf(k, call', note)
    ensures AuditInv(k, s.(calls := s.calls[c := call'], audit := s.audit + [note]))
  {
    var audit' := s.audit + [note];
    var calls' := s.calls[c := call'];
    assert audit'[|s.audit|] == note;
    forall d | 0 <= d < |calls'| && Audited(calls'[d].pc) ensures exists i :: 0 <= i < |audit'| && audit'[i].call == d {
      if d != c {
        var i :| 0 <= i < |s.audit| && s.audit[i].call == d;
        assert audit'[i].call == d;
      }
    }
  }

  /** A step that appends no note and lets no call cross its audit point keeps the audit trail. */
  predicate AuditUntouched(a: Call, b: Call) {
    && b.peer == a.peer
    && (a.pc.Cancelled? ==> b.pc.Cancelled?)
    && (b.pc.Cancelled? || Audited(b.pc) == Audited(a.pc))
    && (Audited(a.pc) ==> b.sent == a.sent && b.seen == a.seen)
    && (Audited(a.pc) && !b.pc.Cancelled? ==> Decided(b.pc) == Decided(a.pc))
  }

  lemma UntouchedKeepsAudit(k: Crypto, s: State, s': State)
    requires AuditInv(k, s) && s'.audit == s.audit && |s.calls| <= |s'.calls|
    requires forall d :: 0 <= d < |s.calls| ==> AuditUntouched(s.calls[d], s'.calls[d])
    requires forall d :: |s.calls| <= d < |s'.calls| ==> !Audited(s'.calls[d].pc)
    ensures AuditInv(k, s')
  {
  }

  lemma GrowthKeepsAudit(k: Crypto, s: State, l: Label)
    requires WellFormed(s) && AuditInv(k, s) && Enabled(s, l) && (l.Start? || IsReloadStep(l))
    ensures AuditInv(k, Apply(k, s, l))
  {
  }

  lemma CallStepTouchesNoAudit(k: Crypto, s: State, l: Label)
    requires WellFormed(s) && Enabled(s, l) && !l.Start? && !IsReloadStep(l) && !l.Audit?
    ensures var s' := Apply(k, s, l);
      && |s'.calls| == |s.calls| && s'.audit == s.audit
      && AuditUntouched(s.calls[l.c], s'.calls[l.c])
      && forall d :: 0 <= d < |s.calls| && d != l.c ==> s'.calls[d] == s.calls[d]
  {
  }

  lemma CallStepKeepsAudit(k: Crypto, s: State, l: Label)
    requires WellFormed(s) && AuditInv(k, s) && Enabled(s, l) && !l.Start? && !IsReloadStep(l) && !l.Audit?
    ensures AuditInv(k, Apply(k, s, l))
  {
    CallStepTouchesNoAudit(k, s, l);
    UntouchedKeepsAudit(k, s, Apply(k, s, l));
  }

  /** What no call step touches. */
  lemma CallStepFrame(k: Crypto, s: State, l: Label)
    requires WellFormed(s) && Enabled(s, l) && !IsReloadStep(l)
    ensures var s' := Apply(k, s, l);
      && s'.peers == s.peers && s'.radio == s.radio && s'.reload == s.reload
      && |s'.entries| == |s.entries|
      && forall e :: 0 <= e < |s.entries| ==> s'.entries[e].peer == s.entries[e].peer
  {
  }

  lemma CallStepsKeepMap(k: Crypto, s: State, l: Label)
    requires WellFormed(s) && MapInv(s) && ReloadInv(s) && Enabled(s, l) && !IsReloadStep(l)
    ensures var s' := Apply(k, s, l); MapInv(s') && ReloadInv(s')
  {
    CallStepFrame(k, s, l);
    SameMap(s, Apply(k, s, l));
  }

  lemma SameMap(s: State, s': State)
    requires MapInv(s) && ReloadInv(s)
    requires s'.peers == s.peers && s'.radio == s.radio && s'.reload == s.reload && |s'.entries| == |s.entries|
    requires forall e :: 0 <= e < |s.entries| ==> s'.entries[e].peer == s.entries[e].peer
    ensures MapInv(s') && ReloadInv(s')
  {
  }

  lemma PhaseStepsKeepMap(k: Crypto, s: State, l: Label)
    requires WellFormed(s) && MapInv(s) && ReloadInv(s) && Enabled(s, l)
    requires l.ReloadBegin? || l.RemovalsDone? || l.ReloadEnd?
    ensures var s' := Apply(k, s, l); MapInv(s') && ReloadInv(s')
  {
  }

  lemma RemovalStepsKeepMap(k: Crypto, s: State, l: Label)
    requires WellFormed(s) && MapInv(s) && ReloadInv(s) && Enabled(s, l)
    requires l.RadioRemove? || l.MapRemove?
    ensures var s' := Apply(k, s, l); MapInv(s') && ReloadInv(s')
  {
  }

  lemma RadioAddKeepsMap(k: Crypto, s: State, l: Label)
    requires WellFormed(s) && MapInv(s) && ReloadInv(s) && Enabled(s, l) && l.RadioAdd?
    ensures var s' := Apply(k, s, l); MapInv(s') && ReloadInv(s')
  {
  }

  lemma MapAddKeepsMap(k: Crypto, s: State, id: PeerId)
    requires WellFormed(s) && MapInv(s) && ReloadInv(s) && Enabled(s, MapAdd(id))
    ensures var s' := Apply(k, s, MapAdd(id)); MapInv(s') && ReloadInv(s')
  {
  }

  lemma CallStepsKeepShape(k: Crypto, s: State, l: Label)
    requires WellFormed(s) && Enabled(s, l) && !IsReloadStep(l)
    ensures WellFormed(Apply(k, s, l))
  {
    var s' := Apply(k, s, l);
    CallStepFrame(k, s, l);
    forall c | 0 <= c < |s'.calls| ensures CallShape(s'.calls[c], |s'.entries|) {
      assert c < |s.calls| ==> CallShape(s.calls[c], |s.entries|);
    }
  }

  lemma ReloadStepsKeepShape(k: Crypto, s: State, l: Label)
    requires WellFormed(s) && Enabled(s, l) && IsReloadStep(l)
    ensures WellFormed(Apply(k, s, l))
  {
  }

  lemma ReloadStepsKeepMap(k: Crypto, s: State, l: Label)
    requires WellFormed(s) && MapInv(s) && ReloadInv(s) && Enabled(s, l) && IsReloadStep(l)
    ensures var s' := Apply(k, s, l); MapInv(s') && ReloadInv(s')
  {
    if l.RadioRemove? || l.MapRemove? {
      RemovalStepsKeepMap(k, s, l);
    } else if l.RadioAdd? {
      RadioAddKeepsMap(k, s, l);
    } else if l.MapAdd? {
      MapAddKeepsMap(k, s, l.id);
    } else {
      PhaseStepsKeepMap(k, s, l);
    }
  }

  /** The invariant is inductive. */
  lemma StepKeepsInv(k: Crypto, s: State, l: Label)
    requires Inv(k, s) && Enabled(s, l)
    ensures Inv(k, Apply(k, s, l))
  {
    var s' := Apply(k, s, l);
    if IsReloadStep(l) {
      ReloadStepsKeepShape(k, s, l);
      OtherStepsKeepSlots(k, s, l);
      ReloadKeepsCalls(k, s, l);
      ReloadStepsKeepMap(k, s, l);
    } else {
      CallStepsKeepShape(k, s, l);
      CallStepsKeepMap(k, s, l);
      CallStepKeepsCallsAndSlots(k, s, l);
    }
    if l.Audit? {
      AuditStepKeepsAudit(k, s, l.c);
    } else if l.Start? || IsReloadStep(l) {
      GrowthKeepsAudit(k, s, l);
    } else {
      CallStepKeepsAudit(k, s, l);
    }
  }

  lemma CallStepKeepsCallsAndSlots(k: Crypto, s: State, l: Label)
    requires Inv(k, s) && Enabled(s, l) && !IsReloadStep(l)
    ensures var s' := Apply(k, s, l); CallInv(k, s') && EntryInv(k, s') && SlotInv(s')
  {
    var s' := Apply(k, s, l);
    if l.Start? {
      OtherStepsKeepSlots(k, s, l);
      StartKeepsCalls(k, s, l.peer);
    } else if l.CheckReplay? && s.calls[l.c].pc.nonce !in s.entries[s.calls[l.c].seen.value.entry].nonces {
      SharedStepKeepsSlots(k, s, l);
      CheckReplayKeepsEntries(k, s, l.c);
      CheckReplayKeepsCalls(k, s, l.c);
    } else {
      if l.CheckReplay? {
        SharedStepKeepsSlots(k, s, l);
        RejectedReplayMoves(k, s, l.c);
      } else if IsLocalStep(l) {
        LocalStepKeepsSlots(k, s, l);
        if l.Respond? {
          RespondMoves(k, s, l);
        } else {
          LocalStepMoves(k, s, l);
        }
      } else {
        PermitStepMoves(k, s, l);
        if l.Acquire? {
          SharedStepKeepsSlots(k, s, l);
        } else {
          LastStepKeepsSlots(k, s, l);
        }
      }
      MoveKeepsEntries(k, s, s', l.c);
      MoveKeepsCalls(k, s, s', l.c);
    }
  }

  /** Every state of every run from an initial state satisfies the invariant. */
  lemma {:induction false} RunsKeepInv(k: Crypto, s: State, run: seq<Label>, t: State)
    requires Inv(k, s) && Runs(k, s, run, t)
    ensures Inv(k, t)
    decreases |run|
  {
    if run != [] {
      StepKeepsInv(k, s, run[0]);
      RunsKeepInv(k, Apply(k, s, run[0]), run[1..], t);
    }
  }
}
