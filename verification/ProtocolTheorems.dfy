/** What holds of every run of the challenge protocol. */
module ProtocolTheorems {
  import opened Basics
  import opened Frames
  import opened Phone
  import opened NonceWindow
  import opened Bonds
  import opened Protocol
  import opened ProtocolInvariant

  /** `t` is reachable from an initial state. */
  ghost predicate Reachable(k: Crypto, t: State) {
    exists s, run :: Initial(s) && Runs(k, s, run, t)
  }

  lemma ReachableHasInv(k: Crypto, t: State)
    requires Reachable(k, t)
    ensures Inv(k, t)
  {
    var s, run :| Initial(s) && Runs(k, s, run, t);
    InitialHasInv(k, s);
    RunsKeepInv(k, s, run, t);
  }

  // ---- approval means a verified signature ----------------------------------------------------

  /** `sig` verifies, under the key captured at lookup, over the body of the very frame sent. */
  ghost predicate VerifiedAgainstSent(k: Crypto, call: Call, sig: Bytes) {
    && call.seen.Some? && call.sent.Some? && |sig| == SIGNATURE_LEN
    && match Decode(call.sent.value)
       case Ok(frame) =>
         && frame.payload == [] && BodyBytes(frame).Ok?
         && frame.tag == k.keyedHash(call.seen.value.bondKey, BodyBytes(frame).value)
         && k.validPoint(call.seen.value.pubkey)
         && k.verifyStrict(call.seen.value.pubkey, BodyBytes(frame).value, sig)
       case Err(_) => false
  }

  /** In every reachable state an approved call carries a signature that verified over its own challenge. */
  lemma ApprovedIsVerified(k: Crypto, t: State, c: nat, sig: Bytes)
    requires Reachable(k, t) && c < |t.calls| && Decided(t.calls[c].pc) == Some(Approved(sig))
    ensures VerifiedAgainstSent(k, t.calls[c], sig)
    ensures t.calls[c].seen.value.entry < |t.entries| && t.entries[t.calls[c].seen.value.entry].peer == t.calls[c].peer
  {
    ReachableHasInv(k, t);
    var call := t.calls[c];
    assert Recorded(t, c) && Faithful(t.entries, call);
    var e := call.seen.value.entry;
    var a :| a in t.entries[e].accepted && a.call == c;
    assert EntryOk(k, t.calls, t.entries[e], e);
    assert Justified(k, call, e, a);
    ChallengeEncodes(k, call.seen.value.bondKey, a.nonce);
  }

  // ---- the nonce window -----------------------------------------------------------------------

  /** The window is the last 64 acceptances, and acceptances less than 65 apart carry distinct nonces. */
  lemma WindowRefinesHistory(k: Crypto, t: State, e: nat)
    requires Reachable(k, t) && e < |t.entries|
    ensures t.entries[e].nonces == LastN(NoncesOf(t.entries[e].accepted), 64)
    ensures var acc := t.entries[e].accepted;
      forall i, j :: 0 <= i < j < |acc| && j - i <= 64 ==> acc[i].nonce != acc[j].nonce
    ensures Distinct(t.entries[e].nonces)
  {
    ReachableHasInv(k, t);
    assert EntryOk(k, t.calls, t.entries[e], e);
    WindowedIsDistinct(NoncesOf(t.entries[e].accepted));
  }

  lemma WindowedIsDistinct(h: seq<Nonce>)
    requires Windowed(h)
    ensures Distinct(LastN(h, NONCE_LRU_CAP))
    ensures forall i, j :: 0 <= i < j < |h| && j - i <= NONCE_LRU_CAP ==> h[i] != h[j]
  {
  }

  /** Call `c` was approved by entry `e`. */
  predicate ApprovedBy(s: State, c: nat, e: nat) {
    && c < |s.calls| && Decided(s.calls[c].pc).Some? && Decided(s.calls[c].pc).value.Approved?
    && s.calls[c].seen.Some? && s.calls[c].seen.value.entry == e
  }

  /** The history of an entry lists each call it approved exactly once, and nothing else
      (but for calls dropped after their approval was recorded). */
  lemma HistoryListsApprovals(k: Crypto, t: State, e: nat)
    requires Reachable(k, t) && e < |t.entries|
    ensures var acc := t.entries[e].accepted;
      && (forall i, j :: 0 <= i < j < |acc| ==> acc[i].call != acc[j].call)
      && (forall i :: 0 <= i < |acc| ==>
            && acc[i].call < |t.calls|
            && (t.calls[acc[i].call].pc.Cancelled?
                || Decided(t.calls[acc[i].call].pc) == Some(Approved(acc[i].signature))))
    ensures forall c :: ApprovedBy(t, c, e) ==> exists a :: a in t.entries[e].accepted && a.call == c
  {
    ReachableHasInv(k, t);
    assert EntryOk(k, t.calls, t.entries[e], e);
    forall c | ApprovedBy(t, c, e) ensures exists a :: a in t.entries[e].accepted && a.call == c {
      assert Recorded(t, c);
    }
  }

  /** A message some phone key signed. */
  datatype Signing = Signing(pubkey: Key, body: Bytes)

  /** The symbolic signature model: a response verifies only for messages that were signed. */
  ghost predicate Backed(k: Crypto, run: seq<Label>, signed: set<Signing>) {
    forall i :: 0 <= i < |run| && run[i].Respond? && run[i].response.Ok? ==>
      forall pk: Key, m: Bytes :: k.verifyStrict(pk, m, run[i].response.value) ==> Signing(pk, m) in signed
  }

  ghost predicate CallSigned(call: Call, signed: set<Signing>) {
    call.pc.Verified? && call.seen.Some? ==> Signing(call.seen.value.pubkey, ChallengeBody(call.pc.nonce)) in signed
  }

  ghost predicate EntrySigned(entry: Entry, signed: set<Signing>) {
    entry.pubkey.Some? ==> forall i :: 0 <= i < |entry.accepted| ==>
      Signing(entry.pubkey.value, ChallengeBody(entry.accepted[i].nonce)) in signed
  }

  ghost predicate AllSigned(s: State, signed: set<Signing>) {
    && (forall c :: 0 <= c < |s.calls| ==> CallSigned(s.calls[c], signed))
    && (forall e :: 0 <= e < |s.entries| ==> EntrySigned(s.entries[e], signed))
  }

  lemma ReplayKeepsSigned(k: Crypto, s: State, c: nat, signed: set<Signing>)
    requires Inv(k, s) && Enabled(s, CheckReplay(c)) && AllSigned(s, signed)
    ensures AllSigned(Apply(k, s, CheckReplay(c)), signed)
  {
    var s' := Apply(k, s, CheckReplay(c));
    var e := s.calls[c].seen.value.entry;
    assert Faithful(s.entries, s.calls[c]) && CallSigned(s.calls[c], signed) && EntrySigned(s.entries[e], signed);
    assert EntrySigned(s'.entries[e], signed);
  }

  lemma RespondKeepsSigned(k: Crypto, s: State, l: Label, signed: set<Signing>)
    requires Inv(k, s) && l.Respond? && Enabled(s, l) && AllSigned(s, signed) && Backed(k, [l], signed)
    ensures AllSigned(Apply(k, s, l), signed)
  {
    assert [l][0] == l;
    assert CallSigned(Apply(k, s, l).calls[l.c], signed);
  }

  lemma CallStepsKeepSigned(k: Crypto, s: State, l: Label, signed: set<Signing>)
    requires WellFormed(s) && Enabled(s, l) && AllSigned(s, signed)
    requires !l.CheckReplay? && !l.Respond? && !l.Start? && !IsReloadStep(l)
    ensures AllSigned(Apply(k, s, l), signed)
  {
    var s' := Apply(k, s, l);
    forall e | 0 <= e < |s'.entries| ensures EntrySigned(s'.entries[e], signed) {
      assert EntrySigned(s.entries[e], signed);
    }
  }

  lemma GrowthKeepsSigned(k: Crypto, s: State, l: Label, signed: set<Signing>)
    requires WellFormed(s) && Enabled(s, l) && AllSigned(s, signed) && (l.Start? || IsReloadStep(l))
    ensures AllSigned(Apply(k, s, l), signed)
  {
    var s' := Apply(k, s, l);
    forall e | 0 <= e < |s'.entries| ensures EntrySigned(s'.entries[e], signed) {
      assert e < |s.entries| ==> EntrySigned(s.entries[e], signed);
    }
  }

  lemma StepKeepsSigned(k: Crypto, s: State, l: Label, signed: set<Signing>)
    requires Inv(k, s) && Enabled(s, l) && AllSigned(s, signed) && Backed(k, [l], signed)
    ensures AllSigned(Apply(k, s, l), signed)
  {
    if l.CheckReplay? {
      ReplayKeepsSigned(k, s, l.c, signed);
    } else if l.Respond? {
      RespondKeepsSigned(k, s, l, signed);
    } else if l.Start? || IsReloadStep(l) {
      GrowthKeepsSigned(k, s, l, signed);
    } else {
      CallStepsKeepSigned(k, s, l, signed);
    }
  }

  lemma {:induction false} RunsKeepSigned(k: Crypto, s: State, run: seq<Label>, t: State, signed: set<Signing>)
    requires Inv(k, s) && Runs(k, s, run, t) && AllSigned(s, signed) && Backed(k, run, signed)
    ensures AllSigned(t, signed)
    decreases |run|
  {
    if run != [] {
      assert run[1..] == run[1..][..];
      StepKeepsInv(k, s, run[0]);
      StepKeepsSigned(k, s, run[0], signed);
      RunsKeepSigned(k, Apply(k, s, run[0]), run[1..], t, signed);
    }
  }

  /** The message that acceptance `n` of an entry rests on. */
  function SigningAt(entry: Entry, n: nat): Signing
    requires entry.pubkey.Some? && n < |entry.accepted|
  {
    Signing(entry.pubkey.value, ChallengeBody(entry.accepted[n].nonce))
  }

  /** Acceptances less than 65 apart rest on different phone signings. */
  lemma ApprovalsNeedDistinctSignings(k: Crypto, s: State, run: seq<Label>, t: State, signed: set<Signing>, e: nat,
                                      i: nat, j: nat)
    requires Initial(s) && Runs(k, s, run, t) && Backed(k, run, signed)
    requires e < |t.entries| && i < j < |t.entries[e].accepted| && j - i <= 64
    requires t.entries[e].pubkey.Some?
    ensures SigningAt(t.entries[e], i) in signed && SigningAt(t.entries[e], j) in signed
    ensures SigningAt(t.entries[e], i) != SigningAt(t.entries[e], j)
  {
    InitialHasInv(k, s);
    RunsKeepSigned(k, s, run, t, signed);
    WindowRefinesHistory(k, t, e);
    var acc := t.entries[e].accepted;
    assert EntrySigned(t.entries[e], signed);
    assert ChallengeBody(acc[i].nonce)[1..] == acc[i].nonce && ChallengeBody(acc[j].nonce)[1..] == acc[j].nonce;
  }

  // ---- one in flight per entry ----------------------------------------------------------------

  ghost function Holders(s: State, e: nat): set<nat> {
    set c: nat | c < |s.calls| && HoldsSlot(s, c, e)
  }

  /** `challenge_slot_in_flight`. */
  function InFlight(entry: Entry): nat {
    if entry.permits == 0 then 1 else 0
  }

  /** At most one call per entry is between acquisition and release, the snapshot's in-flight count
      is the number of such calls, and an entry nobody holds has its permit back. */
  lemma InFlightCountsHolders(k: Crypto, t: State, e: nat)
    requires Reachable(k, t) && e < |t.entries|
    ensures |Holders(t, e)| == InFlight(t.entries[e]) <= 1
    ensures (forall c :: 0 <= c < |t.calls| && t.calls[c].seen.Some? && t.calls[c].seen.value.entry == e ==>
              t.calls[c].pc.Done? || t.calls[c].pc.Cancelled?) ==> t.entries[e].permits == 1
  {
    ReachableHasInv(k, t);
    if t.entries[e].permits == 0 {
      var c: nat :| HoldsSlot(t, c, e);
      assert forall d :: d in Holders(t, e) ==> HoldsSlot(t, d, e);
      assert Holders(t, e) == {c};
    } else {
      assert Holders(t, e) == {};
    }
  }

  // ---- the audit trail ------------------------------------------------------------------------

  /** A completed call left exactly one note, naming its peer, the reason it returned and, once it
      has sent a challenge, the nonce of that challenge. */
  lemma CompletedCallsAreAuditedOnce(k: Crypto, t: State, c: nat, o: Outcome)
    requires Reachable(k, t) && c < |t.calls| && t.calls[c].pc == Done(o)
    ensures exists i ::
      && 0 <= i < |t.audit| && t.audit[i].call == c
      && t.audit[i].peer == t.calls[c].peer && t.audit[i].reason == Reason(o)
      && (t.calls[c].sent.Some? ==> t.audit[i].nonce.Some? && SentFor(k, t.calls[c], t.audit[i].nonce.value))
      && (forall j :: 0 <= j < |t.audit| && t.audit[j].call == c ==> j == i)
  {
    ReachableHasInv(k, t);
    var i :| 0 <= i < |t.audit| && t.audit[i].call == c;
    assert NoteOf(k, t.calls[c], t.audit[i]);
  }

  // ---- captured state -------------------------------------------------------------------------

  /** The labels that move call `c`. */
  predicate Concerns(l: Label, c: nat) {
    !l.Start? && !IsReloadStep(l) && l.c == c
  }

  /** What a call keeps for ever: its peer, what it captured, the frame it sent and its verdict. */
  predicate Persists(a: Call, b: Call) {
    && b.peer == a.peer && b.seen == a.seen
    && (a.sent.Some? ==> b.sent == a.sent)
    && (Decided(a.pc).Some? ==> b.pc.Cancelled? || Decided(b.pc) == Decided(a.pc))
    && (a.pc.Cancelled? ==> b.pc.Cancelled?)
  }

  lemma MovingPersists(k: Crypto, s: State, l: Label)
    requires WellFormed(s) && Enabled(s, l) && !l.Start? && !IsReloadStep(l) && Located(k, s.calls[l.c])
    ensures var s' := Apply(k, s, l); |s'.calls| == |s.calls| && Persists(s.calls[l.c], s'.calls[l.c])
  {
  }

  /** A step moves at most the one call it concerns. */
  lemma UnconcernedKeepsCall(k: Crypto, s: State, l: Label, c: nat)
    requires WellFormed(s) && Enabled(s, l) && !Concerns(l, c) && c < |s.calls|
    ensures var s' := Apply(k, s, l); c < |s'.calls| && s'.calls[c] == s.calls[c] && |s.entries| <= |s'.entries|
  {
  }

  lemma StepPersists(k: Crypto, s: State, l: Label, c: nat)
    requires Inv(k, s) && Enabled(s, l) && c < |s.calls|
    ensures c < |Apply(k, s, l).calls| && Persists(s.calls[c], Apply(k, s, l).calls[c])
  {
    if Concerns(l, c) {
      MovingPersists(k, s, l);
    } else {
      UnconcernedKeepsCall(k, s, l, c);
    }
  }

  /** Whatever reloads and other calls do, a call completes against what it captured. */
  lemma {:induction false} CallsPersist(k: Crypto, s: State, run: seq<Label>, t: State, c: nat)
    requires Inv(k, s) && Runs(k, s, run, t) && c < |s.calls|
    ensures c < |t.calls| && Persists(s.calls[c], t.calls[c])
    decreases |run|
  {
    if run != [] {
      StepKeepsInv(k, s, run[0]);
      StepPersists(k, s, run[0], c);
      CallsPersist(k, Apply(k, s, run[0]), run[1..], t, c);
    }
  }

  // ---- removal --------------------------------------------------------------------------------

  ghost predicate LateCallsSawNothing(s: State, p: PeerId, from: nat) {
    forall c :: from <= c < |s.calls| && s.calls[c].peer == p ==> s.calls[c].seen.None?
  }

  lemma StepKeepsAbsent(k: Crypto, s: State, l: Label, p: PeerId)
    requires WellFormed(s) && Enabled(s, l) && p !in s.peers && l != MapAdd(p)
    ensures p !in Apply(k, s, l).peers
  {
  }

  lemma StepKeepsLateCalls(k: Crypto, s: State, l: Label, p: PeerId, from: nat)
    requires Inv(k, s) && Enabled(s, l) && p !in s.peers && LateCallsSawNothing(s, p, from)
    ensures LateCallsSawNothing(Apply(k, s, l), p, from)
  {
    var s' := Apply(k, s, l);
    forall c | from <= c < |s'.calls| && s'.calls[c].peer == p ensures s'.calls[c].seen.None? {
      if c < |s.calls| {
        StepPersists(k, s, l, c);
      } else {
        NewCallIsLookup(k, s, l, c);
      }
    }
  }

  lemma NewCallIsLookup(k: Crypto, s: State, l: Label, c: nat)
    requires WellFormed(s) && Enabled(s, l) && |s.calls| <= c < |Apply(k, s, l).calls|
    ensures l.Start? && Apply(k, s, l).calls[c] == LookedUp(s, l.peer)
  {
  }

  /** Once a peer is gone, every call that looks it up before it enters the map again can only
      complete with `unknown-peer`. */
  lemma {:induction false} RemovedPeerIsUnknown(k: Crypto, s: State, run: seq<Label>, t: State, p: PeerId, from: nat)
    requires Inv(k, s) && Runs(k, s, run, t) && p !in s.peers && LateCallsSawNothing(s, p, from)
    requires MapAdd(p) !in run
    ensures p !in t.peers
    ensures forall c :: from <= c < |t.calls| && t.calls[c].peer == p ==>
      t.calls[c].pc.Cancelled? || Decided(t.calls[c].pc) == Some(NotKnown)
    decreases |run|
  {
    if run == [] {
      forall c | from <= c < |t.calls| && t.calls[c].peer == p
        ensures t.calls[c].pc.Cancelled? || Decided(t.calls[c].pc) == Some(NotKnown)
      {
        assert Located(k, t.calls[c]) && CallShape(t.calls[c], |t.entries|);
      }
    } else {
      assert run[0] in run;
      StepKeepsInv(k, s, run[0]);
      StepKeepsAbsent(k, s, run[0], p);
      StepKeepsLateCalls(k, s, run[0], p, from);
      RemovedPeerIsUnknown(k, Apply(k, s, run[0]), run[1..], t, p, from);
    }
  }

  /** The step that takes a peer out of the map makes it absent for every call still to come. */
  lemma RemovalMakesAbsent(k: Crypto, s: State, p: PeerId)
    requires Inv(k, s) && Enabled(s, MapRemove(p))
    ensures var s' := Apply(k, s, MapRemove(p)); p !in s'.peers && LateCallsSawNothing(s', p, |s'.calls|)
  {
  }

  // ---- reload ---------------------------------------------------------------------------------

  /** At every moment the live map and the radio agree, except for the one peer in transit. */
  lemma MapFollowsRadio(k: Crypto, t: State)
    requires Reachable(k, t)
    ensures match t.reload
      case RadioRemoved(_, _, id) => t.peers.Keys - {id} == t.radio && id in t.peers.Keys
      case RadioAdded(_, _, id) => t.peers.Keys + {id} == t.radio && id !in t.peers.Keys
      case _ => t.peers.Keys == t.radio
    ensures forall p, q :: p in t.peers && q in t.peers && p != q ==> t.peers[p] != t.peers[q]
  {
    ReachableHasInv(k, t);
  }

  // ---- the honest phone -----------------------------------------------------------------------

  lemma OnlyReplayCheckTouchesNonces(k: Crypto, s: State, l: Label, e: nat)
    requires WellFormed(s) && Enabled(s, l) && e < |s.entries|
    requires l.CheckReplay? ==> s.calls[l.c].seen.value.entry != e
    ensures var s' := Apply(k, s, l); e < |s'.entries| && s'.entries[e].nonces == s.entries[e].nonces
  {
  }

  /** While a call holds the slot, nobody else touches the nonces of its entry. */
  lemma WindowIsFrozenWhileHeld(k: Crypto, s: State, l: Label, c: nat, e: nat)
    requires Inv(k, s) && Enabled(s, l) && HoldsSlot(s, c, e) && e < |s.entries| && !Concerns(l, c)
    ensures var s' := Apply(k, s, l);
      && c < |s'.calls| && s'.calls[c] == s.calls[c]
      && e < |s'.entries| && s'.entries[e].nonces == s.entries[e].nonces
  {
    if l.CheckReplay? && s.calls[l.c].seen.value.entry == e {
      assert HoldsSlot(s, l.c, e);
    }
    UnconcernedKeepsCall(k, s, l, c);
    OnlyReplayCheckTouchesNonces(k, s, l, e);
  }

  /** Call `c` is waiting for, has verified, or was approved on the answer `b` to nonce `n`. */
  ghost predicate OnTrack(k: Crypto, s: State, c: nat, n: Nonce, b: Bytes) {
    && c < |s.calls| && s.calls[c].seen.Some? && s.calls[c].seen.value.entry < |s.entries|
    && match s.calls[c].pc
       case Awaiting(m) => m == n && n !in s.entries[s.calls[c].seen.value.entry].nonces
       case Verified(m, sig) => m == n && sig == b && n !in s.entries[s.calls[c].seen.value.entry].nonces
       case pc => Decided(pc) == Some(Approved(b))
  }

  lemma StepKeepsOnTrack(k: Crypto, s: State, l: Label, c: nat, n: Nonce, b: Bytes)
    requires Inv(k, s) && Enabled(s, l) && OnTrack(k, s, c, n, b)
    requires Concerns(l, c) ==> l in {Respond(c, Ok(b)), CheckReplay(c), Audit(c), Return(c)}
    requires ParseSignature(k, b) == Some(b) && SignatureChecks(k, s.calls[c].seen.value.pubkey, n, b)
    ensures OnTrack(k, Apply(k, s, l), c, n, b)
    ensures Apply(k, s, l).calls[c].seen == s.calls[c].seen
  {
    var e := s.calls[c].seen.value.entry;
    StepPersists(k, s, l, c);
    if !Concerns(l, c) {
      if s.calls[c].pc.Awaiting? || s.calls[c].pc.Verified? {
        assert HoldsSlot(s, c, e);
        WindowIsFrozenWhileHeld(k, s, l, c, e);
      } else {
        UnconcernedKeepsCall(k, s, l, c);
      }
    }
  }

  lemma {:induction false} AnswerStaysOnTrack(k: Crypto, s: State, run: seq<Label>, t: State, c: nat, n: Nonce,
                                              b: Bytes)
    requires Inv(k, s) && Runs(k, s, run, t) && OnTrack(k, s, c, n, b)
    requires ParseSignature(k, b) == Some(b) && SignatureChecks(k, s.calls[c].seen.value.pubkey, n, b)
    requires forall l :: l in run && Concerns(l, c) ==> l in {Respond(c, Ok(b)), CheckReplay(c), Audit(c), Return(c)}
    ensures OnTrack(k, t, c, n, b)
    decreases |run|
  {
    if run != [] {
      assert run[0] in run;
      StepKeepsInv(k, s, run[0]);
      StepKeepsOnTrack(k, s, run[0], c, n, b);
      AnswerStaysOnTrack(k, Apply(k, s, run[0]), run[1..], t, c, n, b);
    }
  }

  /** What the phone with this seed answers to the frame the call sent. */
  function Answer(k: Crypto, seed: Key, call: Call): Bytes {
    if call.sent.None? then []
    else
      match SignChallengeResponse(k, seed, call.sent.value)
      case Ok(signature) => signature
      case Err(_) => []
  }

  /** The call waits for the answer to a nonce outside the window of its entry. */
  ghost predicate AwaitsFresh(s: State, c: nat) {
    && c < |s.calls| && s.calls[c].pc.Awaiting? && s.calls[c].seen.Some?
    && s.calls[c].seen.value.entry < |s.entries|
    && s.calls[c].pc.nonce !in s.entries[s.calls[c].seen.value.entry].nonces
  }

  lemma AnswerIsSigned(k: Crypto, s: State, c: nat, seed: Key)
    requires SigningIsSound(k) && Inv(k, s) && AwaitsFresh(s, c)
    requires s.calls[c].seen.value.pubkey == k.publicKey(seed)
    ensures var n := s.calls[c].pc.nonce; var b := Answer(k, seed, s.calls[c]);
      && s.calls[c].sent.Some? && SignChallengeResponse(k, seed, s.calls[c].sent.value) == Ok(b)
      && ParseSignature(k, b) == Some(b) && SignatureChecks(k, s.calls[c].seen.value.pubkey, n, b)
      && OnTrack(k, s, c, n, b)
  {
    assert Located(k, s.calls[c]);
    PhoneSignsWhatDaemonVerifies(k, s.calls[c].seen.value.bondKey, s.calls[c].pc.nonce, seed);
  }

  /** If the phone that owns the captured key answers the frame it was sent with
      `sign_challenge_response`, the nonce is outside the window and the answer reaches the call, the
      only possible verdict is approval, whatever the other calls and reloads do meanwhile. */
  lemma HonestPhoneIsApproved(k: Crypto, s: State, run: seq<Label>, t: State, c: nat, seed: Key)
    requires SigningIsSound(k) && Inv(k, s) && Runs(k, s, run, t) && AwaitsFresh(s, c)
    requires s.calls[c].seen.value.pubkey == k.publicKey(seed)
    requires var b := Answer(k, seed, s.calls[c]);
      forall l :: l in run && Concerns(l, c) ==> l in {Respond(c, Ok(b)), CheckReplay(c), Audit(c), Return(c)}
    ensures s.calls[c].sent.Some?
    ensures SignChallengeResponse(k, seed, s.calls[c].sent.value) == Ok(Answer(k, seed, s.calls[c]))
    ensures c < |t.calls| && !t.calls[c].pc.Cancelled?
    ensures Decided(t.calls[c].pc).Some? ==> Decided(t.calls[c].pc) == Some(Approved(Answer(k, seed, s.calls[c])))
  {
    AnswerIsSigned(k, s, c, seed);
    AnswerStaysOnTrack(k, s, run, t, c, s.calls[c].pc.nonce, Answer(k, seed, s.calls[c]));
  }

  lemma OneStepMore(k: Crypto, s: State, l: Label, rest: seq<Label>, t: State)
    requires WellFormed(s) && Enabled(s, l) && Runs(k, Apply(k, s, l), rest, t)
    ensures Runs(k, s, [l] + rest, t)
  {
    assert ([l] + rest)[1..] == rest;
  }

  lemma TwoSteps(k: Crypto, s: State, a: Label, b: Label)
    requires WellFormed(s) && Enabled(s, a)
    requires var s1 := Apply(k, s, a); WellFormed(s1) && Enabled(s1, b)
    ensures Runs(k, s, [a, b], Apply(k, Apply(k, s, a), b))
  {
    var s1 := Apply(k, s, a);
    var t := Apply(k, s1, b);
    OneStepMore(k, s1, b, [], t);
    OneStepMore(k, s, a, [b], t);
    assert [b] + [] == [b] && [a] + [b] == [a, b];
  }

  lemma AnswerIsJudged(k: Crypto, s: State, c: nat, b: Bytes)
    requires WellFormed(s) && AwaitsFresh(s, c) && ParseSignature(k, b) == Some(b)
    requires SignatureChecks(k, s.calls[c].seen.value.pubkey, s.calls[c].pc.nonce, b)
    ensures var s' := Apply(k, s, Respond(c, Ok(b)));
      && |s'.calls| == |s.calls| && s'.entries == s.entries
      && s'.calls[c] == s.calls[c].(pc := Verified(s.calls[c].pc.nonce, b))
  {
  }

  lemma FreshNonceIsApproved(k: Crypto, s: State, c: nat, n: Nonce, b: Bytes)
    requires WellFormed(s) && c < |s.calls| && s.calls[c].pc == Verified(n, b)
    requires n !in s.entries[s.calls[c].seen.value.entry].nonces
    ensures var s' := Apply(k, s, CheckReplay(c));
      |s'.calls| == |s.calls| && s'.calls[c].pc == Auditing(Some(n), Approved(b), true)
  {
  }

  /** And such a verdict is reached: with nothing in between, the answer, the replay check, the audit
      append and the return are enabled in turn and end the call approved. */
  lemma HonestPhoneGetsThrough(k: Crypto, s: State, c: nat, seed: Key) returns (t: State)
    requires SigningIsSound(k) && Inv(k, s) && AwaitsFresh(s, c)
    requires s.calls[c].seen.value.pubkey == k.publicKey(seed)
    ensures var b := Answer(k, seed, s.calls[c]);
      && Runs(k, s, [Respond(c, Ok(b)), CheckReplay(c), Audit(c), Return(c)], t)
      && c < |t.calls| && t.calls[c].pc == Done(Approved(b))
  {
    var b := Answer(k, seed, s.calls[c]);
    AnswerIsSigned(k, s, c, seed);
    AnswerIsJudged(k, s, c, b);
    StepKeepsInv(k, s, Respond(c, Ok(b)));
    t := VerifiedReturns(k, Apply(k, s, Respond(c, Ok(b))), c, s.calls[c].pc.nonce, b);
    OneStepMore(k, s, Respond(c, Ok(b)), [CheckReplay(c), Audit(c), Return(c)], t);
    assert [Respond(c, Ok(b))] + [CheckReplay(c), Audit(c), Return(c)]
        == [Respond(c, Ok(b)), CheckReplay(c), Audit(c), Return(c)];
  }

  lemma VerifiedReturns(k: Crypto, s: State, c: nat, n: Nonce, b: Bytes) returns (t: State)
    requires WellFormed(s) && c < |s.calls| && s.calls[c].pc == Verified(n, b)
    requires n !in s.entries[s.calls[c].seen.value.entry].nonces
    ensures Runs(k, s, [CheckReplay(c), Audit(c), Return(c)], t) && c < |t.calls| && t.calls[c].pc == Done(Approved(b))
  {
    FreshNonceIsApproved(k, s, c, n, b);
    CallStepsKeepShape(k, s, CheckReplay(c));
    t := ApprovalReturns(k, Apply(k, s, CheckReplay(c)), c, n, b);
    OneStepMore(k, s, CheckReplay(c), [Audit(c), Return(c)], t);
    assert [CheckReplay(c)] + [Audit(c), Return(c)] == [CheckReplay(c), Audit(c), Return(c)];
  }

  lemma ApprovalReturns(k: Crypto, s: State, c: nat, n: Nonce, b: Bytes) returns (t: State)
    requires WellFormed(s) && c < |s.calls| && s.calls[c].pc == Auditing(Some(n), Approved(b), true)
    ensures Runs(k, s, [Audit(c), Return(c)], t) && c < |t.calls| && t.calls[c].pc == Done(Approved(b))
  {
    AuditMovesOn(k, s, c);
    CallStepsKeepShape(k, s, Audit(c));
    ReturnEnds(k, Apply(k, s, Audit(c)), c);
    t := Apply(k, Apply(k, s, Audit(c)), Return(c));
    TwoSteps(k, s, Audit(c), Return(c));
  }

  lemma AuditMovesOn(k: Crypto, s: State, c: nat)
    requires WellFormed(s) && c < |s.calls| && s.calls[c].pc.Auditing?
    ensures var s' := Apply(k, s, Audit(c));
      c < |s'.calls| && s'.calls[c].pc == Returning(s.calls[c].pc.outcome, s.calls[c].pc.holding)
  {
  }

  lemma ReturnEnds(k: Crypto, s: State, c: nat)
    requires WellFormed(s) && c < |s.calls| && s.calls[c].pc.Returning?
    ensures var s' := Apply(k, s, Return(c)); c < |s'.calls| && s'.calls[c].pc == Done(s.calls[c].pc.outcome)
  {
  }
}
