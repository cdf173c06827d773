/** From pairing to unlocking: the files the pair-event consumer writes, one reload of them, and the
    challenges after it (crates/syauth-presenced/src/runtime.rs and orchestrator.rs, with the phone's
    side in crates/syauth-mobile/src/implementation.rs). */
module Enrolment {
  import opened Basics
  import opened Phone
  import opened Bonds
  import opened Protocol
  import opened ProtocolInvariant
  import opened ProtocolTheorems
  import opened ProtocolReload
  import opened ProtocolPeers
  import PairPersist
  import Reconcile

  /** What the consumer left on disk for `id`, after any events, failures, revocations and crashes. */
  ghost predicate Enrolled(idOf: Key -> PeerId, derive: (Key, Key) -> Key, d: PairPersist.State, id: PeerId) {
    && (exists d0, steps :: PairPersist.Initial(idOf, d0) && PairPersist.Runs(idOf, derive, d0, steps, d))
    && id in d.recorded && Lookup(BondsIn(d.disk.file), id).Some?
    && Lookup(BondsIn(d.disk.file), id).value.status.Bonded?
  }

  /** The bond key the phone derived when it was paired last. */
  ghost function PhoneBondKey(derive: (Key, Key) -> Key, d: PairPersist.State, id: PeerId): Key
    requires id in d.lastKey
  {
    derive(d.lastKey[id].host, d.lastKey[id].phone)
  }

  lemma EnrolledIsTarget(idOf: Key -> PeerId, derive: (Key, Key) -> Key, d: PairPersist.State, id: PeerId)
    requires Enrolled(idOf, derive, d, id)
    ensures id in d.lastKey
    ensures var target := Reconcile.NewSet(BondsIn(d.disk.file), d.disk.keys);
      id in target && target[id] == PhoneBondKey(derive, d, id)
  {
    var d0, steps :| PairPersist.Initial(idOf, d0) && PairPersist.Runs(idOf, derive, d0, steps, d);
    PairPersist.ReloadNeverMissesAKey(idOf, derive, d0, steps, d, id);
  }

  // ---- a new peer -------------------------------------------------------------------------------

  /** Every entry this reload made carries the keys of the store and of the key files. */
  ghost predicate NewEntriesFit(s: State) {
    !s.reload.Idle? ==>
      forall p :: p in s.peers && p !in s.reload.plan.before ==> NewEntryFits(s, s.reload.plan, p)
  }

  ghost predicate NewEntryFits(s: State, plan: Plan, p: PeerId) {
    && p in s.peers && s.peers[p] < |s.entries| && p in plan.target
    && s.entries[s.peers[p]].pubkey == Reconcile.PubkeyOf(plan.store, p)
    && s.entries[s.peers[p]].bondKey == plan.target[p]
  }

  lemma StepKeepsNewEntries(k: Crypto, s: State, l: Label)
    requires WellFormed(s) && Enabled(s, l) && NewEntriesFit(s)
    ensures NewEntriesFit(Apply(k, s, l))
  {
    var s' := Apply(k, s, l);
    if !s'.reload.Idle? {
      forall p | p in s'.peers && p !in s'.reload.plan.before ensures NewEntryFits(s', s'.reload.plan, p) {
        if l == MapAdd(p) {
        } else {
          MapOnlyGrowsByAdd(k, s, l, p);
          StepKeepsEntryKeys(k, s, l, s.peers[p]);
          PlanStays(k, s, l);
        }
      }
    }
  }

  lemma {:induction false} RunsKeepNewEntries(k: Crypto, s: State, run: seq<Label>, t: State)
    requires Inv(k, s) && Runs(k, s, run, t) && NewEntriesFit(s)
    ensures NewEntriesFit(t)
    decreases |run|
  {
    if run != [] {
      StepKeepsInv(k, s, run[0]);
      StepKeepsNewEntries(k, s, run[0]);
      RunsKeepNewEntries(k, Apply(k, s, run[0]), run[1..], t);
    }
  }

  /** A reload takes a peer it did not know exactly when its addition did not fail, and then with the
      public key of its record and the key in its key file. */
  lemma NewPeerIsTaken(k: Crypto, s: State, store: seq<Bond>, files: Reconcile.KeyFiles, run: seq<Label>, t: State,
                       id: PeerId)
    requires Inv(k, s) && Reloads(k, s, store, files, run, t) && id in Reconcile.NewSet(store, files) && id !in s.peers
    ensures Inv(k, t) && (id in t.peers <==> RadioAdd(id, false) !in run)
    ensures id in t.peers ==>
      && t.peers[id] < |t.entries| && t.entries[t.peers[id]].pubkey == Reconcile.PubkeyOf(store, id)
      && t.entries[t.peers[id]].bondKey == Reconcile.NewSet(store, files)[id]
  {
    ReloadReachesFormula(k, s, store, files, run, t);
    StepKeepsInv(k, s, ReloadBegin(store, files));
    RunsKeepNewEntries(k, Apply(k, s, ReloadBegin(store, files)), run, t);
    ReloadIsTracked(k, s, store, files, run, t);
    FailedAdditionIff(run, id);
    assert id in t.peers ==> NewEntryFits(t, t.reload.plan, id);
  }

  lemma FailedAdditionIff(run: seq<Label>, id: PeerId)
    ensures id in FailedAdditions(run) <==> RadioAdd(id, false) in run
  {
  }

  // ---- a call that reaches the phone ------------------------------------------------------------

  /** Call `c` waits for the phone of entry `e` to answer the frame for nonce `n`. */
  ghost predicate Waits(k: Crypto, s: State, c: nat, id: PeerId, e: nat, n: Nonce) {
    && AwaitsFresh(s, c) && s.calls[c].peer == id && s.calls[c].pc == Awaiting(n)
    && s.calls[c].seen.value.entry == e && s.entries[e].pubkey == Some(s.calls[c].seen.value.pubkey)
    && s.calls[c].sent == Some(ChallengeBytes(k, s.entries[e].bondKey, n))
  }

  /** With its slot free and a nonce outside its window, a call for a live peer gets its challenge out. */
  lemma CallReachesPhone(k: Crypto, s: State, id: PeerId, n: Nonce) returns (run: seq<Label>, t: State)
    requires WellFormed(s) && id in s.peers && s.entries[s.peers[id]].pubkey.Some?
    requires s.entries[s.peers[id]].permits > 0 && n !in s.entries[s.peers[id]].nonces
    ensures Runs(k, s, run, t) && Waits(k, t, |s.calls|, id, s.peers[id], n)
    ensures t.entries[s.peers[id]].bondKey == s.entries[s.peers[id]].bondKey
    ensures t.entries[s.peers[id]].pubkey == s.entries[s.peers[id]].pubkey
  {
    var c, e := |s.calls|, s.peers[id];
    var s1 := CallIsAdmitted(k, s, id);
    var first := [Start(id), Acquire(c)];
    t := AdmittedSends(k, s1, c, n);
    run := first + [DrawNonce(c, Some(n)), Notify(c, None)];
    RunsConcat(k, s, first, s1, [DrawNonce(c, Some(n)), Notify(c, None)], t);
  }

  lemma CallIsAdmitted(k: Crypto, s: State, id: PeerId) returns (t: State)
    requires WellFormed(s) && id in s.peers && s.entries[s.peers[id]].pubkey.Some?
    requires s.entries[s.peers[id]].permits > 0
    ensures var c, e := |s.calls|, s.peers[id]; var entry := s.entries[s.peers[id]];
      && Runs(k, s, [Start(id), Acquire(c)], t) && WellFormed(t) && c < |t.calls| && |t.entries| == |s.entries|
      && t.calls[c] == Call(id, Some(Captured(e, entry.pubkey.value, entry.bondKey)), None, Admitted)
      && t.entries[e] == entry.(permits := entry.permits - 1)
  {
    var c := |s.calls|;
    CallStepsKeepShape(k, s, Start(id));
    var s1 := Apply(k, s, Start(id));
    assert s1.calls[c] == LookedUp(s, id);
    CallStepsKeepShape(k, s1, Acquire(c));
    t := Apply(k, s1, Acquire(c));
    TwoSteps(k, s, Start(id), Acquire(c));
  }

  lemma AdmittedSends(k: Crypto, s: State, c: nat, n: Nonce) returns (t: State)
    requires WellFormed(s) && c < |s.calls| && s.calls[c].pc == Admitted
    ensures Runs(k, s, [DrawNonce(c, Some(n)), Notify(c, None)], t) && |t.calls| == |s.calls| && t.entries == s.entries
    ensures t.calls[c] == s.calls[c].(
      sent := Some(ChallengeBytes(k, s.calls[c].seen.value.bondKey, n)), pc := Awaiting(n))
  {
    CallStepsKeepShape(k, s, DrawNonce(c, Some(n)));
    var s1 := Apply(k, s, DrawNonce(c, Some(n)));
    t := Apply(k, s1, Notify(c, None));
    TwoSteps(k, s, DrawNonce(c, Some(n)), Notify(c, None));
  }

  /** From lookup to approval. A live peer whose slot is free: the challenge passes the tag check of a
      phone that holds the entry's bond key, and the answer of the phone that owns the entry's public
      key is approved, with every step on the way enabled. */
  lemma LivePeerCanUnlock(k: Crypto, s: State, id: PeerId, n: Nonce, seed: Key)
    returns (run: seq<Label>, asked: State, rest: seq<Label>, t: State)
    requires SigningIsSound(k) && Inv(k, s) && id in s.peers
    requires s.entries[s.peers[id]].pubkey == Some(k.publicKey(seed))
    requires s.entries[s.peers[id]].permits > 0 && n !in s.entries[s.peers[id]].nonces
    ensures Runs(k, s, run, asked) && Runs(k, asked, rest, t)
    ensures var c := |s.calls|;
      && Waits(k, asked, c, id, s.peers[id], n)
      && VerifyChallengeFrame(k, s.entries[s.peers[id]].bondKey, asked.calls[c].sent.value) == Ok([])
      && c < |t.calls| && t.calls[c].pc == Done(Approved(Answer(k, seed, asked.calls[c])))
  {
    var c := |s.calls|;
    run, asked := CallReachesPhone(k, s, id, n);
    RunsKeepInv(k, s, run, asked);
    PhoneAcceptsChallenge(k, s.entries[s.peers[id]].bondKey, n, s.entries[s.peers[id]].bondKey);
    t := HonestPhoneGetsThrough(k, asked, c, seed);
    var b := Answer(k, seed, asked.calls[c]);
    rest := [Respond(c, Ok(b)), CheckReplay(c), Audit(c), Return(c)];
  }

  /** End to end from pairing. The consumer recorded the phone; a reload of those files that did not
      fail to add it has taken it; nobody holds its slot. Then a challenge reaches the phone, passes
      its check under the bond key the phone derived at pairing, and the phone's answer unlocks. */
  lemma PairedPhoneCanUnlock(k: Crypto, idOf: Key -> PeerId, derive: (Key, Key) -> Key, d: PairPersist.State,
                             id: PeerId, s: State, run: seq<Label>, t: State, n: Nonce, seed: Key)
    returns (toPhone: seq<Label>, asked: State, back: seq<Label>, u: State)
    requires SigningIsSound(k) && Enrolled(idOf, derive, d, id)
    requires Lookup(BondsIn(d.disk.file), id).value.pubkey == k.publicKey(seed)
    requires Inv(k, s) && Reloads(k, s, BondsIn(d.disk.file), d.disk.keys, run, t) && id !in s.peers
    requires RadioAdd(id, false) !in run
    requires id in t.peers ==> SlotIsFree(t, t.peers[id]) && IsFresh(t, t.peers[id], n)
    ensures id in d.lastKey && id in t.peers && Runs(k, t, toPhone, asked) && Runs(k, asked, back, u)
    ensures var c := |t.calls|;
      && Waits(k, asked, c, id, t.peers[id], n)
      && VerifyChallengeFrame(k, PhoneBondKey(derive, d, id), asked.calls[c].sent.value) == Ok([])
      && c < |u.calls| && u.calls[c].pc == Done(Approved(Answer(k, seed, asked.calls[c])))
  {
    EnrolledIsTarget(idOf, derive, d, id);
    NewPeerIsTaken(k, s, BondsIn(d.disk.file), d.disk.keys, run, t, id);
    FreeSlotHasPermit(t, t.peers[id]);
    toPhone, asked, back, u := LivePeerCanUnlock(k, t, id, n, seed);
  }

  ghost predicate SlotIsFree(s: State, e: nat) {
    forall c :: !HoldsSlot(s, c, e)
  }

  /** The nonce is none of those the entry accepted lately. */
  predicate IsFresh(s: State, e: nat, n: Nonce) {
    e < |s.entries| ==> n !in s.entries[e].nonces
  }

  lemma FreeSlotHasPermit(s: State, e: nat)
    requires SlotInv(s) && e < |s.entries| && SlotIsFree(s, e)
    ensures s.entries[e].permits > 0
  {
  }

  // ---- a peer that was already live -------------------------------------------------------------

  /** A reload ignores the new bond key of a peer that was live already, so until the peer is added
      anew every later challenge is tagged under the old key; the phone, which now holds the new one,
      accepts it if and only if the two keys hash the body alike, and refuses it otherwise. */
  lemma RepairedPhoneRejectsIff(k: Crypto, idOf: Key -> PeerId, derive: (Key, Key) -> Key, d: PairPersist.State,
                                id: PeerId, s: State, run: seq<Label>, t: State, later: seq<Label>, u: State, c: nat)
    requires Enrolled(idOf, derive, d, id)
    requires Inv(k, s) && Reloads(k, s, BondsIn(d.disk.file), d.disk.keys, run, t) && id in s.peers
    requires Runs(k, t, later, u) && MapAdd(id) !in later
    requires |t.calls| <= c < |u.calls| && u.calls[c].peer == id && u.calls[c].pc.Awaiting?
    ensures id in d.lastKey && s.peers[id] < |s.entries| && u.calls[c].sent.Some?
    ensures var (was, now) := (s.entries[s.peers[id]].bondKey, PhoneBondKey(derive, d, id));
      var body := ChallengeBody(u.calls[c].pc.nonce);
      && u.calls[c].sent.value == ChallengeBytes(k, was, u.calls[c].pc.nonce)
      && VerifyChallengeFrame(k, now, u.calls[c].sent.value) ==
           if k.keyedHash(now, body) == k.keyedHash(was, body) then Ok([]) else Err(VerifyFailed)
  {
    EnrolledIsTarget(idOf, derive, d, id);
    ReloadReachesFormula(k, s, BondsIn(d.disk.file), d.disk.keys, run, t);
    RetainedPeerKeepsOldKeys(k, s, BondsIn(d.disk.file), d.disk.keys, run, t, id);
    LateCallUsesEntry(k, t, later, u, id, c);
    PhoneAcceptsChallenge(k, t.entries[t.peers[id]].bondKey, u.calls[c].pc.nonce, PhoneBondKey(derive, d, id));
  }

  /** Until the peer is added anew, a call that starts from now on sends its challenge under the bond
      key of the entry the peer has now. */
  lemma LateCallUsesEntry(k: Crypto, t: State, later: seq<Label>, u: State, id: PeerId, c: nat)
    requires Inv(k, t) && id in t.peers && Runs(k, t, later, u) && MapAdd(id) !in later
    requires |t.calls| <= c < |u.calls| && u.calls[c].peer == id && u.calls[c].pc.Awaiting?
    ensures u.calls[c].sent == Some(ChallengeBytes(k, t.entries[t.peers[id]].bondKey, u.calls[c].pc.nonce))
  {
    var e := t.peers[id];
    RunsKeepOneEntry(k, t, later, u, id, Some(e), |t.calls|);
    RunsKeepEntryKeys(k, t, later, u, e);
    assert Located(k, u.calls[c]) && Faithful(u.entries, u.calls[c]);
  }
}
