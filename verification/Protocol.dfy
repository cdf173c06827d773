/** The challenge transaction as a step system (crates/syauth-presenced/src/orchestrator.rs):
    any number of `issue_challenge` calls, one reload task and a radio that answers anything,
    interleaved at every await. Labels carry all the nondeterminism, so `Apply` is a function. */
module Protocol {
  import opened Basics
  import opened Phone
  import opened NonceWindow
  import opened Bonds
  import Reconcile

  /** `ChallengeOutcome`; `Approved` is its `Ok`. */
  datatype Outcome =
    | Approved(signature: Bytes)
    | Denied
    | Replay
    | BadSignature
    | TimedOut
    | NotKnown
    | Busy
    | TransportError

  /** One nonce accepted by an entry, with the call it was accepted for. */
  datatype Acceptance = Acceptance(call: nat, nonce: Nonce, signature: Bytes)

  /** A peer entry; its position in `State.entries` is its identity, so an entry that a reload
      dropped is still shared by the calls that captured it. `accepted` is a history variable. */
  datatype Entry = Entry(peer: PeerId, pubkey: Option<Key>, bondKey: Key, permits: nat,
                         nonces: seq<Nonce>, accepted: seq<Acceptance>)

  function FreshEntry(peer: PeerId, pubkey: Option<Key>, bondKey: Key): Entry {
    Entry(peer, pubkey, bondKey, 1, [], [])
  }

  /** `PeerState`, captured once by `lookup_peer`. */
  datatype Captured = Captured(entry: nat, pubkey: Key, bondKey: Key)

  /** Where a call stands between two awaits. */
  datatype Pc =
    | Queued
    | Admitted
    | Notifying(nonce: Nonce)
    | Awaiting(nonce: Nonce)
    | Verified(nonce: Nonce, signature: Bytes)
    | Auditing(logged: Option<Nonce>, outcome: Outcome, holding: bool)
    | Returning(outcome: Outcome, holding: bool)
    | Done(outcome: Outcome)
    | Cancelled

  /** `sent` records the bytes handed to `notify_challenge`. */
  datatype Call = Call(peer: PeerId, seen: Option<Captured>, sent: Option<Bytes>, pc: Pc)

  /** One attempted append to the audit log; `call` is a history tag. */
  datatype AuditNote = AuditNote(call: nat, peer: PeerId, nonce: Option<Nonce>, reason: string)

  /** What one reload works on; `before`, `failed` and `added` record its progress. */
  datatype Plan = Plan(store: seq<Bond>, target: map<PeerId, Key>, before: map<PeerId, nat>,
                       failed: set<PeerId>, added: set<PeerId>)

  /** The reload task between two awaits; in the two `Radio` states the radio has already
      changed and the map has not. */
  datatype Reload =
    | Idle
    | Removing(plan: Plan, todo: set<PeerId>)
    | RadioRemoved(plan: Plan, todo: set<PeerId>, id: PeerId)
    | Adding(plan: Plan, todo: set<PeerId>)
    | RadioAdded(plan: Plan, todo: set<PeerId>, id: PeerId)

  datatype State = State(peers: map<PeerId, nat>, entries: seq<Entry>, calls: seq<Call>,
                         audit: seq<AuditNote>, radio: set<PeerId>, reload: Reload)

  /** Failures of the peripheral, as `challenge_outcome_for_transport` tells them apart. */
  datatype RadioError = RadioUnknownPeer | RadioTimeout | RadioOther

  datatype Label =
    | Start(peer: PeerId)
    | Acquire(c: nat)
    | QueueTimeout(c: nat)
    | DrawNonce(c: nat, drawn: Option<Nonce>)
    | Notify(c: nat, failure: Option<RadioError>)
    | Respond(c: nat, response: Result<Bytes, RadioError>)
    | CheckReplay(c: nat)
    | Audit(c: nat)
    | Return(c: nat)
    | Cancel(c: nat)
    | ReloadBegin(store: seq<Bond>, files: Reconcile.KeyFiles)
    | RadioRemove(id: PeerId, succeeds: bool)
    | MapRemove(id: PeerId)
    | RemovalsDone
    | RadioAdd(id: PeerId, succeeds: bool)
    | MapAdd(id: PeerId)
    | ReloadEnd

  // ---- vocabulary ---------------------------------------------------------------------------

  const REASON_OK := "ok"
  const REASON_DENIED := "denied"
  const REASON_REPLAY := "replay"
  const REASON_BAD_SIGNATURE := "bad-signature"
  const REASON_RESPONSE_TIMEOUT := "response-timeout"
  const REASON_UNKNOWN_PEER := "unknown-peer"
  const REASON_BUSY := "busy"
  const REASON_TRANSPORT_ERROR := "transport-error"

  /** `ChallengeOutcome::reason_str`. */
  function Reason(o: Outcome): string {
    match o
    case Approved(_) => REASON_OK
    case Denied => REASON_DENIED
    case Replay => REASON_REPLAY
    case BadSignature => REASON_BAD_SIGNATURE
    case TimedOut => REASON_RESPONSE_TIMEOUT
    case NotKnown => REASON_UNKNOWN_PEER
    case Busy => REASON_BUSY
    case TransportError => REASON_TRANSPORT_ERROR
  }

  /** `challenge_outcome_for_transport`. */
  function OutcomeForRadio(e: RadioError): Outcome {
    match e
    case RadioUnknownPeer => NotKnown
    case RadioTimeout => TimedOut
    case RadioOther => TransportError
  }

  /** The call owns the permit of the entry it captured. */
  predicate Holding(pc: Pc) {
    match pc
    case Queued => false
    case Admitted => true
    case Notifying(_) => true
    case Awaiting(_) => true
    case Verified(_, _) => true
    case Auditing(_, _, h) => h
    case Returning(_, h) => h
    case Done(_) => false
    case Cancelled => false
  }

  /** The outcome, once the call has decided on one. */
  function Decided(pc: Pc): Option<Outcome> {
    match pc
    case Auditing(_, o, _) => Some(o)
    case Returning(o, _) => Some(o)
    case Done(o) => Some(o)
    case _ => None
  }

  predicate Working(pc: Pc) {
    pc.Queued? || pc.Admitted? || pc.Notifying? || pc.Awaiting? || pc.Verified?
  }

  /** `VerifyingKey::from_bytes`, `verify_strict` over the challenge's body. */
  predicate SignatureChecks(k: Crypto, pubkey: Key, nonce: Nonce, sig: Bytes) {
    k.validPoint(pubkey) && k.verifyStrict(pubkey, ChallengeBody(nonce), sig)
  }

  function NoncesOf(acc: seq<Acceptance>): (ns: seq<Nonce>)
    ensures |ns| == |acc|
    ensures forall i :: 0 <= i < |acc| ==> ns[i] == acc[i].nonce
  {
    seq<Nonce>(|acc|, i requires 0 <= i < |acc| => acc[i].nonce)
  }

  /** Indices are in range, and a call that needs or holds an entry has captured one. */
  ghost predicate WellFormed(s: State) {
    && (forall p :: p in s.peers ==> s.peers[p] < |s.entries|)
    && (forall c :: 0 <= c < |s.calls| ==> CallShape(s.calls[c], |s.entries|))
    && (s.reload.RadioAdded? ==>
          s.reload.id in s.reload.plan.target && Reconcile.PubkeyOf(s.reload.plan.store, s.reload.id).Some?)
  }

  predicate CallShape(call: Call, entries: nat) {
    && (call.seen.Some? ==> call.seen.value.entry < entries)
    && (Working(call.pc) || Holding(call.pc) ==> call.seen.Some?)
  }

  predicate At(s: State, c: nat) {
    c < |s.calls|
  }

  // ---- enabling conditions ------------------------------------------------------------------

  ghost predicate Enabled(s: State, l: Label)
    requires WellFormed(s)
  {
    match l
    case Start(_) => true
    case Acquire(c) => At(s, c) && s.calls[c].pc.Queued? && s.entries[s.calls[c].seen.value.entry].permits > 0
    case QueueTimeout(c) => At(s, c) && s.calls[c].pc.Queued?
    case DrawNonce(c, _) => At(s, c) && s.calls[c].pc.Admitted?
    case Notify(c, _) => At(s, c) && s.calls[c].pc.Notifying?
    case Respond(c, _) => At(s, c) && s.calls[c].pc.Awaiting?
    case CheckReplay(c) => At(s, c) && s.calls[c].pc.Verified?
    case Audit(c) => At(s, c) && s.calls[c].pc.Auditing?
    case Return(c) => At(s, c) && s.calls[c].pc.Returning?
    case Cancel(c) => At(s, c) && !s.calls[c].pc.Done? && !s.calls[c].pc.Cancelled?
    case ReloadBegin(_, _) => s.reload.Idle?
    case RadioRemove(id, ok) => s.reload.Removing? && id in s.reload.todo && (ok ==> id in s.radio)
    case MapRemove(id) => s.reload.RadioRemoved? && s.reload.id == id
    case RemovalsDone => s.reload.Removing? && s.reload.todo == {}
    case RadioAdd(id, ok) =>
      s.reload.Adding? && id in s.reload.todo && id in s.reload.plan.target && (ok ==> id !in s.radio)
    case MapAdd(id) => s.reload.RadioAdded? && s.reload.id == id
    case ReloadEnd => s.reload.Adding? && s.reload.todo == {}
  }

  // ---- the steps ----------------------------------------------------------------------------

  function WithPc(s: State, c: nat, pc: Pc): State
    requires At(s, c)
  {
    s.(calls := s.calls[c := s.calls[c].(pc := pc)])
  }

  function WithPermits(s: State, e: nat, permits: nat): State
    requires e < |s.entries|
  {
    s.(entries := s.entries[e := s.entries[e].(permits := permits)])
  }

  /** Dropping the permit, if the call holds one. */
  ghost function Released(s: State, c: nat): State
    requires WellFormed(s) && At(s, c)
  {
    if Holding(s.calls[c].pc)
    then var e := s.calls[c].seen.value.entry; WithPermits(s, e, s.entries[e].permits + 1)
    else s
  }

  /** `lookup_peer`, or the early `UnknownPeer` return. */
  ghost function LookedUp(s: State, peer: PeerId): Call
    requires WellFormed(s)
  {
    if peer in s.peers && s.entries[s.peers[peer]].pubkey.Some?
    then
      var e := s.peers[peer];
      Call(peer, Some(Captured(e, s.entries[e].pubkey.value, s.entries[e].bondKey)), None, Queued)
    else Call(peer, None, None, Auditing(None, NotKnown, false))
  }

  /** The local decisions after `wait_for_response` returns. */
  function Judged(k: Crypto, pubkey: Key, nonce: Nonce, response: Result<Bytes, RadioError>): Pc {
    match response
    case Err(e) => Auditing(Some(nonce), OutcomeForRadio(e), true)
    case Ok(bytes) =>
      match ParseSignature(k, bytes)
      case None => Auditing(Some(nonce), BadSignature, true)
      case Some(sig) =>
        if SignatureChecks(k, pubkey, nonce, sig) then Verified(nonce, sig)
        else Auditing(Some(nonce), BadSignature, true)
  }

  predicate IsReloadStep(l: Label) {
    l.ReloadBegin? || l.RadioRemove? || l.MapRemove? || l.RemovalsDone? || l.RadioAdd? || l.MapAdd? || l.ReloadEnd?
  }

  ghost function ApplyCall(k: Crypto, s: State, l: Label): State
    requires WellFormed(s) && Enabled(s, l) && !l.Start? && !IsReloadStep(l)
  {
    var c := l.c;
    var call := s.calls[c];
    match l
    case Acquire(_) =>
      var e := call.seen.value.entry;
      WithPermits(WithPc(s, c, Admitted), e, s.entries[e].permits - 1)
    case QueueTimeout(_) => WithPc(s, c, Auditing(None, Busy, false))
    case DrawNonce(_, Some(n)) => WithPc(s, c, Notifying(n))
    case DrawNonce(_, None) => WithPc(s, c, Auditing(None, TransportError, true))
    case Notify(_, None) =>
      var bytes := ChallengeBytes(k, call.seen.value.bondKey, call.pc.nonce);
      s.(calls := s.calls[c := call.(sent := Some(bytes), pc := Awaiting(call.pc.nonce))])
    case Notify(_, Some(e)) => WithPc(s, c, Auditing(Some(call.pc.nonce), OutcomeForRadio(e), true))
    case Respond(_, r) => WithPc(s, c, Judged(k, call.seen.value.pubkey, call.pc.nonce, r))
    case CheckReplay(_) =>
      var e := call.seen.value.entry;
      var entry := s.entries[e];
      var (n, sig) := (call.pc.nonce, call.pc.signature);
      if n in entry.nonces then WithPc(s, c, Auditing(Some(n), Replay, true))
      else
        var entry' := entry.(nonces := Insert(entry.nonces, n), accepted := entry.accepted + [Acceptance(c, n, sig)]);
        WithPc(s, c, Auditing(Some(n), Approved(sig), true)).(entries := s.entries[e := entry'])
    case Audit(_) =>
      WithPc(s, c, Returning(call.pc.outcome, call.pc.holding)).(
        audit := s.audit + [AuditNote(c, call.peer, call.pc.logged, Reason(call.pc.outcome))])
    case Return(_) => WithPc(Released(s, c), c, Done(call.pc.outcome))
    case Cancel(_) => WithPc(Released(s, c), c, Cancelled)
  }

  ghost function ApplyReload(s: State, l: Label): State
    requires WellFormed(s) && Enabled(s, l) && IsReloadStep(l)
  {
    match l
    case ReloadBegin(store, files) =>
      var target := Reconcile.NewSet(store, files);
      s.(reload := Removing(Plan(store, target, s.peers, {}, {}), s.peers.Keys - target.Keys))
    case RadioRemove(id, true) =>
      s.(radio := s.radio - {id}, reload := RadioRemoved(s.reload.plan, s.reload.todo - {id}, id))
    case RadioRemove(id, false) =>
      s.(reload := Removing(s.reload.plan.(failed := s.reload.plan.failed + {id}), s.reload.todo - {id}))
    case MapRemove(id) =>
      s.(peers := s.peers - {id}, reload := Removing(s.reload.plan, s.reload.todo))
    case RemovalsDone =>
      s.(reload := Adding(s.reload.plan, s.reload.plan.target.Keys - s.reload.plan.before.Keys))
    case RadioAdd(id, ok) =>
      var rest := s.reload.todo - {id};
      if ok && Reconcile.PubkeyOf(s.reload.plan.store, id).Some?
      then s.(radio := s.radio + {id}, reload := RadioAdded(s.reload.plan, rest, id))
      else s.(reload := Adding(s.reload.plan, rest))
    case MapAdd(id) =>
      var plan := s.reload.plan;
      var entry := FreshEntry(id, Reconcile.PubkeyOf(plan.store, id), plan.target[id]);
      s.(peers := s.peers[id := |s.entries|], entries := s.entries + [entry],
         reload := Adding(plan.(added := plan.added + {id}), s.reload.todo))
    case ReloadEnd => s.(reload := Idle)
  }

  ghost function Apply(k: Crypto, s: State, l: Label): State
    requires WellFormed(s) && Enabled(s, l)
  {
    if l.Start? then s.(calls := s.calls + [LookedUp(s, l.peer)])
    else if IsReloadStep(l) then ApplyReload(s, l)
    else ApplyCall(k, s, l)
  }

  /** What the daemon starts from: no calls yet, and a map of fresh entries equal to the radio's set. */
  ghost predicate Initial(s: State) {
    && s.calls == [] && s.audit == [] && s.reload == Idle
    && s.radio == s.peers.Keys
    && (forall p :: p in s.peers ==> s.peers[p] < |s.entries| && s.entries[s.peers[p]].peer == p)
    && (forall e :: 0 <= e < |s.entries| ==>
          s.entries[e] == FreshEntry(s.entries[e].peer, s.entries[e].pubkey, s.entries[e].bondKey))
  }

  /** `run` is a sequence of steps from `s` to `t`. */
  ghost predicate Runs(k: Crypto, s: State, run: seq<Label>, t: State)
    decreases |run|
  {
    if run == [] then s == t
    else WellFormed(s) && Enabled(s, run[0]) && Runs(k, Apply(k, s, run[0]), run[1..], t)
  }
}
