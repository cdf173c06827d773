/** From the daemon's verdict to the PAM return code: `dispatch` of
    crates/syauth-presenced/src/server.rs and `authenticate_inner` of crates/syauth-pam/src/auth.rs. */
module Unlock {
  import opened Basics
  import opened Bonds
  import opened BondCommands
  import opened Phone
  import opened Protocol
  import opened ProtocolInvariant
  import opened ProtocolPeers
  import opened ProtocolTheorems
  import opened ProtocolVerdicts
  import Rpc

  /** The nonce of a challenge request is drawn by the PAM module; the daemon does not use it. */
  datatype Request = ChallengeRequest(peerId: PeerId, nonce: Bytes) | ReloadRequest | StatusRequest

  datatype Response =
    | ChallengeResponse(ok: bool, signature: Option<Bytes>, reason: string)
    | ReloadResponse(done: bool)
    | StatusResponse

  const STUB_CHALLENGE_REASON := "not-implemented"

  /** `handle_connection` on the request side: the peer a call is issued for, if one is. */
  function RequestedPeer(codec: Rpc.Codec<Request>, data: Bytes): Option<PeerId> {
    var read: Result<Request, Rpc.RpcError> := Rpc.ReadResult(codec, data).0;
    if read.Ok? && read.value.ChallengeRequest? then Some(read.value.peerId) else None
  }

  /** The reply to `Request::Challenge`; `None` is a daemon that runs without an orchestrator. */
  function ChallengeReply(outcome: Option<Outcome>): Response {
    match outcome
    case None => ChallengeResponse(false, None, STUB_CHALLENGE_REASON)
    case Some(o) =>
      ChallengeResponse(o.Approved?, if o.Approved? then Some(o.signature) else None, Reason(o))
  }

  datatype PamCode = PamSuccess | PamAuthErr | PamAuthInfoUnavail

  const OUTCOME_REASON_OFFLINE := "offline"
  const OUTCOME_REASON_ADAPTER_MISSING := "adapter-missing"
  const REASON_NO_BONDS_CONFIGURED := "no bonds configured"
  const REASON_NO_BONDED_PEER := "no bonded peer"

  /** `outcome_reason_to_pam`: the failure taxonomy, closed on unknown reasons. */
  function OutcomeReasonToPam(reason: string): (PamCode, string) {
    if reason == REASON_OK then (PamSuccess, REASON_OK)
    else if reason == REASON_DENIED then (PamAuthErr, REASON_DENIED)
    else if reason == REASON_REPLAY then (PamAuthErr, REASON_REPLAY)
    else if reason == REASON_BAD_SIGNATURE then (PamAuthErr, REASON_BAD_SIGNATURE)
    else if reason == REASON_RESPONSE_TIMEOUT then (PamAuthInfoUnavail, REASON_RESPONSE_TIMEOUT)
    else if reason == OUTCOME_REASON_OFFLINE then (PamAuthInfoUnavail, OUTCOME_REASON_OFFLINE)
    else if reason == REASON_BUSY then (PamAuthInfoUnavail, REASON_BUSY)
    else if reason == REASON_UNKNOWN_PEER then (PamAuthInfoUnavail, REASON_UNKNOWN_PEER)
    else if reason == REASON_TRANSPORT_ERROR then (PamAuthInfoUnavail, REASON_TRANSPORT_ERROR)
    else if reason == OUTCOME_REASON_ADAPTER_MISSING then (PamAuthInfoUnavail, OUTCOME_REASON_ADAPTER_MISSING)
    else (PamAuthErr, "unknown-reason")
  }

  datatype AuthOutcome =
    | Success(peerId: PeerId)
    | AuthInfoUnavail(reason: string, peer: Option<PeerId>)
    | AuthErr(reason: string, peer: Option<PeerId>)

  /** `AuthOutcome::to_pam_code`. */
  function ToPamCode(outcome: AuthOutcome): PamCode {
    match outcome
    case Success(_) => PamSuccess
    case AuthInfoUnavail(_, _) => PamAuthInfoUnavail
    case AuthErr(_, _) => PamAuthErr
  }

  function FirstBondedIndex(bonds: seq<Bond>): (i: nat)
    ensures i <= |bonds|
    ensures i < |bonds| ==> bonds[i].status.Bonded?
    ensures forall j :: 0 <= j < i ==> bonds[j].status.Revoked?
  {
    if bonds == [] || bonds[0].status.Bonded? then 0 else 1 + FirstBondedIndex(bonds[1..])
  }

  /** `first_bonded`: the first record whose status is `Bonded`. */
  function FirstBonded(bonds: seq<Bond>): Option<Bond> {
    var i := FirstBondedIndex(bonds);
    if i < |bonds| then Some(bonds[i]) else None
  }

  /** `authenticate_inner`, given what the store, the RNG and the round trip returned. */
  function AuthenticateInner(idOf: Key -> PeerId, file: BondsFile, rngOk: bool,
                             roundTrip: Option<Response>): AuthOutcome {
    match Load(idOf, file)
    case Err(_) => AuthInfoUnavail(REASON_NO_BONDS_CONFIGURED, None)
    case Ok(bonds) =>
      match FirstBonded(bonds)
      case None => AuthInfoUnavail(REASON_NO_BONDED_PEER, None)
      case Some(bond) =>
        if !rngOk then AuthInfoUnavail(REASON_TRANSPORT_ERROR, Some(bond.peerId))
        else
          match roundTrip
          case Some(ChallengeResponse(_, _, reason)) =>
            var (code, why) := OutcomeReasonToPam(reason);
            (match code
             case PamSuccess => Success(bond.peerId)
             case PamAuthInfoUnavail => AuthInfoUnavail(why, Some(bond.peerId))
             case PamAuthErr => AuthErr(why, Some(bond.peerId)))
          case _ => AuthInfoUnavail(REASON_TRANSPORT_ERROR, Some(bond.peerId))
  }

  /** `daemon_round_trip` on the response side: any read failure collapses to `None`. */
  function RoundTrip(codec: Rpc.Codec<Response>, data: Bytes): Option<Response> {
    match Rpc.ReadResult(codec, data).0
    case Ok(r) => Some(r)
    case Err(_) => None
  }

  /** The three wire fields of a reply agree with each other and with the verdict, and reasons
      tell the verdicts apart. */
  lemma ReplyFieldsAgree(outcome: Option<Outcome>)
    ensures var r := ChallengeReply(outcome);
      && (r.ok <==> r.reason == REASON_OK) && (r.ok <==> r.signature.Some?)
      && (r.ok <==> outcome.Some? && outcome.value.Approved?)
    ensures forall a: Outcome, b: Outcome :: Reason(a) == Reason(b) ==> a == b || (a.Approved? && b.Approved?)
  {
  }

  /** How each verdict of the daemon reaches PAM: success, hard failure, or fall-through. */
  lemma VerdictsMapToPam(o: Outcome)
    ensures var code := OutcomeReasonToPam(Reason(o)).0;
      && (code == PamSuccess <==> o.Approved?)
      && (code == PamAuthErr <==> o.Denied? || o.Replay? || o.BadSignature?)
      && (code == PamAuthInfoUnavail <==> o.TimedOut? || o.NotKnown? || o.Busy? || o.TransportError?)
      && OutcomeReasonToPam(Reason(o)).1 == Reason(o)
    ensures OutcomeReasonToPam(STUB_CHALLENGE_REASON).0 == PamAuthErr
  {
  }

  /** PAM succeeds exactly when the store loads, has a bonded peer, the RNG works and the daemon
      answered a challenge with reason "ok"; the peer is then the first bonded one. */
  lemma SuccessMeans(idOf: Key -> PeerId, file: BondsFile, rngOk: bool, roundTrip: Option<Response>, p: PeerId)
    ensures AuthenticateInner(idOf, file, rngOk, roundTrip) == Success(p) <==>
      && rngOk && Load(idOf, file).Ok?
      && FirstBonded(Load(idOf, file).value).Some? && FirstBonded(Load(idOf, file).value).value.peerId == p
      && roundTrip.Some? && roundTrip.value.ChallengeResponse? && roundTrip.value.reason == REASON_OK
  {
  }

  // ---- every answer of the PAM module -----------------------------------------------------------

  /** The texts of the verdicts, as they go over the wire. */
  lemma ReasonTexts(o: Outcome)
    ensures Reason(o) ==
      if o.Approved? then "ok" else if o.Denied? then "denied" else if o.Replay? then "replay"
      else if o.BadSignature? then "bad-signature" else if o.TimedOut? then "response-timeout"
      else if o.NotKnown? then "unknown-peer" else if o.Busy? then "busy" else "transport-error"
  {
  }

  predicate HardReason(reason: string) {
    reason in {"denied", "replay", "bad-signature"}
  }

  predicate SoftReason(reason: string) {
    reason in {"response-timeout", "offline", "busy", "unknown-peer", "transport-error", "adapter-missing"}
  }

  /** Record `i` is the first that is not revoked. */
  predicate Picked(bonds: seq<Bond>, i: nat) {
    i < |bonds| && bonds[i].status.Bonded? && forall j :: 0 <= j < i ==> bonds[j].status.Revoked?
  }

  lemma ReasonDecides(reason: string)
    ensures OutcomeReasonToPam(reason) ==
      if reason == "ok" then (PamSuccess, "ok")
      else if HardReason(reason) then (PamAuthErr, reason)
      else if SoftReason(reason) then (PamAuthInfoUnavail, reason)
      else (PamAuthErr, "unknown-reason")
  {
  }

  /** Without a peer to ask for the stack falls through, and no peer is named. */
  lemma NoPeerFallsThrough(idOf: Key -> PeerId, file: BondsFile, rngOk: bool, roundTrip: Option<Response>)
    ensures Unloadable(idOf, file) ==>
      AuthenticateInner(idOf, file, rngOk, roundTrip) == AuthInfoUnavail("no bonds configured", None)
    ensures !Unloadable(idOf, file) && (forall i :: 0 <= i < |BondsIn(file)| ==> BondsIn(file)[i].status.Revoked?) ==>
      AuthenticateInner(idOf, file, rngOk, roundTrip) == AuthInfoUnavail("no bonded peer", None)
  {
    LoadsIff(idOf, file, BondsIn(file));
    if Unloadable(idOf, file) {
      UnloadableIsUntouched(idOf, file, Revoke("", ""), false);
    }
  }

  /** With a peer picked, the answer names it. No randomness, no reply, or a reply of another kind falls
      through as a transport error; a challenge reply is decided by its reason alone: "ok" grants, a hard
      reason or an unknown one stops the stack, a soft one falls through, each under its own name. */
  lemma PickedPeerDecides(idOf: Key -> PeerId, file: BondsFile, i: nat, rngOk: bool, roundTrip: Option<Response>)
    requires !Unloadable(idOf, file) && Picked(BondsIn(file), i)
    ensures var p := BondsIn(file)[i].peerId;
      AuthenticateInner(idOf, file, rngOk, roundTrip) ==
        if !rngOk || roundTrip.None? || !roundTrip.value.ChallengeResponse?
        then AuthInfoUnavail("transport-error", Some(p))
        else
          var reason := roundTrip.value.reason;
          if reason == "ok" then Success(p)
          else if HardReason(reason) then AuthErr(reason, Some(p))
          else if SoftReason(reason) then AuthInfoUnavail(reason, Some(p))
          else AuthErr("unknown-reason", Some(p))
  {
    LoadsIff(idOf, file, BondsIn(file));
    assert FirstBondedIndex(BondsIn(file)) == i;
    if roundTrip.Some? && roundTrip.value.ChallengeResponse? {
      ReasonDecides(roundTrip.value.reason);
    }
  }

  /** From the verdict the daemon writes to what PAM returns. */
  lemma VerdictReachesPam(codec: Rpc.Codec<Response>, o: Outcome, later: Bytes, idOf: Key -> PeerId, file: BondsFile,
                          i: nat)
    requires Rpc.Lossless(codec) && Rpc.EncodeFrame(codec, ChallengeReply(Some(o))).Ok?
    requires !Unloadable(idOf, file) && Picked(BondsIn(file), i)
    ensures var read := RoundTrip(codec, Rpc.EncodeFrame(codec, ChallengeReply(Some(o))).value + later);
      var (r, peer) := (AuthenticateInner(idOf, file, true, read), Some(BondsIn(file)[i].peerId));
      && (o.Approved? <==> r == Success(peer.value)) && (o.Approved? <==> ToPamCode(r) == PamSuccess)
      && (o.Denied? || o.Replay? || o.BadSignature? <==> r == AuthErr(Reason(o), peer))
      && (o.Denied? || o.Replay? || o.BadSignature? <==> ToPamCode(r) == PamAuthErr)
      && (o.TimedOut? || o.NotKnown? || o.Busy? || o.TransportError? <==> r == AuthInfoUnavail(Reason(o), peer))
      && (o.TimedOut? || o.NotKnown? || o.Busy? || o.TransportError? <==> ToPamCode(r) == PamAuthInfoUnavail)
  {
    Rpc.ReadInvertsWrite(codec, ChallengeReply(Some(o)), later);
    ReasonTexts(o);
    PickedPeerDecides(idOf, file, i, true, Some(ChallengeReply(Some(o))));
  }

  /** The reply itself: the signature goes out with an approval only, and a daemon without an orchestrator
      answers with a reason PAM does not know. */
  lemma ReplyIs(outcome: Option<Outcome>)
    ensures ChallengeReply(outcome) ==
      if outcome.None? then ChallengeResponse(false, None, "not-implemented")
      else if outcome.value.Approved? then ChallengeResponse(true, Some(outcome.value.signature), "ok")
      else ChallengeResponse(false, None, Reason(outcome.value))
  {
  }

  /** End to end, for the failures. A login stops hard exactly when the answer did not verify or its nonce
      was in the window; it falls through exactly when the peer was unknown, the call timed out in the
      queue or on the radio, or something on the way failed. */
  lemma FailureReachesPam(k: Crypto, codec: Rpc.Codec<Response>, later: Bytes, idOf: Key -> PeerId, file: BondsFile,
                          i: nat, s: State, run: seq<Label>, t: State, c: nat, o: Outcome)
    requires Rpc.Lossless(codec) && Rpc.EncodeFrame(codec, ChallengeReply(Some(o))).Ok?
    requires !Unloadable(idOf, file) && Picked(BondsIn(file), i)
    requires Initial(s) && Runs(k, s, run, t) && c < |t.calls| && t.calls[c].pc == Done(o)
    ensures var read := RoundTrip(codec, Rpc.EncodeFrame(codec, ChallengeReply(Some(o))).value + later);
      var code := ToPamCode(AuthenticateInner(idOf, file, true, read));
      && (code == PamAuthErr <==> Caused(k, s, run, t, c, BadSignature) || Caused(k, s, run, t, c, Replay))
      && (code == PamAuthInfoUnavail <==>
            || Caused(k, s, run, t, c, NotKnown) || Caused(k, s, run, t, c, Busy)
            || Caused(k, s, run, t, c, TimedOut) || Caused(k, s, run, t, c, TransportError))
  {
    VerdictReachesPam(codec, o, later, idOf, file, i);
    NeverDenied(k, s, run, t, c, o);
    forall x ensures Caused(k, s, run, t, c, x) <==> o == x {
      VerdictIff(k, s, run, t, c, x);
    }
  }

  /** The daemon has no step that denies a call. */
  lemma NeverDenied(k: Crypto, s: State, run: seq<Label>, t: State, c: nat, o: Outcome)
    requires Initial(s) && Runs(k, s, run, t) && c < |t.calls| && t.calls[c].pc == Done(o)
    ensures !o.Denied?
  {
    VerdictIff(k, s, run, t, c, o);
  }

  // ---- the way there and back -------------------------------------------------------------------

  /** What the PAM module writes is read by the daemon as a challenge for that very peer. */
  lemma RequestArrives(codec: Rpc.Codec<Request>, p: PeerId, nonce: Bytes, rest: Bytes)
    requires Rpc.Lossless(codec) && Rpc.EncodeFrame(codec, ChallengeRequest(p, nonce)).Ok?
    ensures RequestedPeer(codec, Rpc.EncodeFrame(codec, ChallengeRequest(p, nonce)).value + rest) == Some(p)
  {
    Rpc.ReadInvertsWrite(codec, ChallengeRequest(p, nonce), rest);
  }

  /** What the daemon writes is read by the PAM module, and decides it. */
  lemma ReplyDecides(codec: Rpc.Codec<Response>, o: Outcome, later: Bytes, idOf: Key -> PeerId, file: BondsFile)
    requires Rpc.Lossless(codec) && Rpc.EncodeFrame(codec, ChallengeReply(Some(o))).Ok?
    requires Load(idOf, file).Ok? && FirstBonded(Load(idOf, file).value).Some?
    ensures var read := RoundTrip(codec, Rpc.EncodeFrame(codec, ChallengeReply(Some(o))).value + later);
      && (AuthenticateInner(idOf, file, true, read).Success? <==> o.Approved?)
      && (o.Approved? ==> AuthenticateInner(idOf, file, true, read)
                          == Success(FirstBonded(Load(idOf, file).value).value.peerId))
  {
    Rpc.ReadInvertsWrite(codec, ChallengeReply(Some(o)), later);
    VerdictsMapToPam(o);
    ReplyFieldsAgree(Some(o));
  }

  /** A call started for `p` in `s` and done in `t` was a call for `p` all along. */
  lemma CallIsForPeer(k: Crypto, s: State, p: PeerId, run: seq<Label>, t: State)
    requires Inv(k, s) && Runs(k, Apply(k, s, Start(p)), run, t)
    ensures |s.calls| < |t.calls| && t.calls[|s.calls|].peer == p
  {
    StepKeepsInv(k, s, Start(p));
    CallsPersist(k, Apply(k, s, Start(p)), run, t, |s.calls|);
  }

  lemma ServedCallIsSound(k: Crypto, idOf: Key -> PeerId, s0: State, before: seq<Label>, s: State, p: PeerId,
                          run: seq<Label>, t: State, o: Outcome)
    requires Initial(s0) && KeysFit(idOf, s0) && Runs(k, s0, before, s) && WellFormed(s)
    requires forall l :: l in before + run && l.ReloadBegin? ==> Loaded(idOf, l.store)
    requires Runs(k, Apply(k, s, Start(p)), run, t) && |s.calls| < |t.calls| && t.calls[|s.calls|].pc == Done(o)
    ensures var call := t.calls[|s.calls|];
      && call.peer == p
      && (o.Approved? ==> VerifiedAgainstSent(k, call, o.signature) && idOf(call.seen.value.pubkey) == p)
  {
    InitialHasInv(k, s0);
    RunsKeepInv(k, s0, before, s);
    CallIsForPeer(k, s, p, run, t);
    if o.Approved? {
      OneStepMore(k, s, Start(p), run, t);
      RunsConcat(k, s0, before, s, [Start(p)] + run, t);
      ApprovedUnderOwnKey(k, idOf, s0, before + ([Start(p)] + run), t, |s.calls|, o.signature);
    }
  }

  /** End to end. The PAM module picks the first bonded peer of its store and writes a request; the
      daemon, whatever it did before and does meanwhile, reads it, runs the call it asks for and
      replies. Then PAM grants that peer exactly when the call was approved; and if it does, a
      signature verified over the challenge that call sent, under a public key whose id is the id of
      the record PAM picked. Every reload of the daemon works on a loaded store. */
  lemma GrantNeedsVerifiedSignature(k: Crypto, idOf: Key -> PeerId, file: BondsFile, nonce: Bytes,
                                    requests: Rpc.Codec<Request>, replies: Rpc.Codec<Response>,
                                    afterRequest: Bytes, afterReply: Bytes,
                                    s0: State, before: seq<Label>, s: State, run: seq<Label>, t: State, o: Outcome)
    requires Load(idOf, file).Ok? && FirstBonded(Load(idOf, file).value).Some?
    requires Rpc.Lossless(requests) && Rpc.Lossless(replies) && Rpc.EncodeFrame(replies, ChallengeReply(Some(o))).Ok?
    requires var p := FirstBonded(Load(idOf, file).value).value.peerId;
      Rpc.EncodeFrame(requests, ChallengeRequest(p, nonce)).Ok?
    requires Initial(s0) && KeysFit(idOf, s0) && Runs(k, s0, before, s) && WellFormed(s)
    requires forall l :: l in before + run && l.ReloadBegin? ==> Loaded(idOf, l.store)
    requires var p := FirstBonded(Load(idOf, file).value).value.peerId;
      match RequestedPeer(requests, Rpc.EncodeFrame(requests, ChallengeRequest(p, nonce)).value + afterRequest)
      case Some(q) => Runs(k, Apply(k, s, Start(q)), run, t)
      case None => true
    requires |s.calls| < |t.calls| && t.calls[|s.calls|].pc == Done(o)
    ensures var bond := FirstBonded(Load(idOf, file).value).value;
      var call := t.calls[|s.calls|];
      var verdict := AuthenticateInner(idOf, file, true,
        RoundTrip(replies, Rpc.EncodeFrame(replies, ChallengeReply(Some(o))).value + afterReply));
      && call.peer == bond.peerId
      && (verdict == Success(bond.peerId) <==> o.Approved?) && (verdict.Success? <==> o.Approved?)
      && (o.Approved? ==>
            && VerifiedAgainstSent(k, call, o.signature)
            && idOf(call.seen.value.pubkey) == bond.peerId == idOf(bond.pubkey))
  {
    var bond := FirstBonded(Load(idOf, file).value).value;
    RequestArrives(requests, bond.peerId, nonce, afterRequest);
    ReplyDecides(replies, o, afterReply, idOf, file);
    BondedIdMatches(idOf, file);
    ServedCallIsSound(k, idOf, s0, before, s, bond.peerId, run, t, o);
  }

  lemma BondedIdMatches(idOf: Key -> PeerId, file: BondsFile)
    requires Load(idOf, file).Ok? && FirstBonded(Load(idOf, file).value).Some?
    ensures var bond := FirstBonded(Load(idOf, file).value).value; idOf(bond.pubkey) == bond.peerId
  {
  }
}
