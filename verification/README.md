# syauth: a verified model of the desktop unlock daemon

syauth unlocks a Linux desktop with a phone. A daemon (`syauth-presenced`) sends a fresh nonce over
Bluetooth, the phone signs it, and a PAM module turns the daemon's verdict into a login decision. This
project models the daemon's challenge protocol and the stateful pieces it rests on, and proves what
the system is for.

`dafny verify dfyconfig.toml` checks everything. Nothing here was executed.

## Layout

| file | what it models |
|---|---|
| `Protocol.dfy`, `ProtocolInvariant.dfy`, `ProtocolTheorems.dfy`, `ProtocolVerdicts.dfy`, `ProtocolReload.dfy`, `ProtocolPeers.dfy` | the challenge transaction as a step system: any number of callers, one reload task, a radio that answers anything; its invariant; what holds of every run |
| `Unlock.dfy`, `Enrolment.dfy` | the reply of the daemon and the decision of the PAM module; from pairing over a reload to an unlock |
| `Frame.dfy`, `Phone.dfy`, `Rpc.dfy`, `Fragments.dfy` | wire formats and the phone's side of a challenge |
| `NonceCache.dfy`, `Replay.dfy`, `Notification.dfy`, `OperatorLines.dfy`, `Watcher.dfy` | caches and channels against their histories |
| `Reconcile.dfy`, `Rotation.dfy` | reload reconciliation and the minute-aligned UUID rotation |
| `BondStore.dfy`, `BondCommands.dfy`, `Hex.dfy`, `PairFlow.dfy`, `PairGates.dfy`, `PairPersist.dfy`, `Audit.dfy`, `AuditTrail.dfy` | persistence: bond records, keys, the pair flow, the audit log and what the protocol writes to it |
| `PamText.dfy`, `PamRecognition.dfy`, `PamFallback.dfy`, `PamInstall.dfy`, `PamOutcomes.dfy` | the PAM service file: recognition, insertion, the fallback line, install and uninstall |
| `Basics.dfy`, `Text.dfy` | bytes, fixed-width byte strings, `Option`, `Result`; characters and positions in a text |

## How the source is represented

- Tasks that interleave are step systems: labels carry all nondeterminism (response bytes, failures,
  timeouts, cancellation, iteration order), steps are the code between two awaits, and theorems
  quantify over all runs. Objects that update their fields in place are classes whose methods are
  proved against specification functions; the theorems are about those functions.
- Ed25519 (RFC 8032), HKDF (RFC 5869), keyed BLAKE3 and CBOR (RFC 8949) are functions the model is
  generic in. The laws used are stated where they are used: a signature verifies under its own key,
  CBOR decodes what it encoded, and for one theorem a signature verifies only what was signed.
- The peripheral succeeds and changes its peer set, or fails and leaves it unchanged.
- Clocks, random bytes and the answers of the file system are parameters. Each file write is one
  all-or-nothing step.
- History variables (acceptances, sent frames, dead sinks) record the past and influence no step.

## Where the code and its documentation differ

The model follows the code; each item is proved.

- `--control` is documented with a bracketed flag of several words, but such a line is not recognised
  after it was installed: `StuckIffNotHeld`, `DocumentedFlagIsStuck`, exact conditions in
  `InstalledIffHolds` and `InstalledIffTakesHold`. The same happens to a `--so-path` with another name
  or a path: `OtherModuleIsStuck`.
- `--with-u2f-fallback` is documented as inserting directly below the syauth line: `DirectlyBelowIff`
  gives the exact condition, `CommentTurnsTheOrder` the files where it lands above.
- It is documented as idempotent: `FallbackIsIdempotentIff` and `InstallIsIdempotentIff` give the exact
  conditions, `GluedFallbackIsRepeated` and `GluedFallbackBreaksTheLine` inputs that fail.
- It is documented as leaving the syauth line in place: exact condition in `AddedFallbackKeepsLineIff`;
  `GluedFallbackBreaksTheLine` and `SpanningLineIsCut` are two families that lose it.
- The refusal of a known peer suggests `syauth revoke` first; that does not help: `RevokingMakesNoRoom`.
- The audit log is meant to hold one line per transaction; the peer id is the caller's text, so this
  holds exactly for ids without line ends: `OneLinePerRecord`, `DaemonLogHasOneLinePerNote`.
- The reader of operator lines is meant to see end of file once the queue closes; its own clone keeps
  the queue open: `ReaderNeverSeesEndOfFile`, condition in `EndOfFileIff`.
- One challenge in flight "per peer" holds as long as the peer has had one entry, from the start or from
  its first add (`OnePerPeerWithOneEntry`); with a second entry it can fail, from either start
  (`TwoInFlightAreReachable`, `TwoInFlightFromEmptyMap`).
- A reload keeps the old keys of a retained peer (`RetainedPeerKeepsOldKeys`), so a live phone that is
  paired anew refuses the next challenges: `RepairedPhoneRejectsIff`.
- Hex decoding accepts spellings that encoding never writes, and a text of the right length can abort
  the load instead of failing it: `EncodeInvertsDecodeIff`, `AbortsIff`, `SomeTextAborts`.

## Model

| member | source | states |
|---|---|---|
| `ProtocolTheorems.ApprovedIsVerified` | crates/syauth-presenced/src/orchestrator.rs:886-985 | In every reachable state of any interleaving, a call decided `Ok` carries a 64-byte signature that verified, under the public key captured at its lookup, over the body of the very frame this call sent, whose tag is the keyed hash under the captured bond key; the captured entry belongs to the requested peer |
| `ProtocolTheorems.WindowRefinesHistory` | crates/syauth-presenced/src/orchestrator.rs:970-984 | In every reachable state the nonce cache of an entry is the last min(64, n) accepted nonces, without duplicates, and acceptances at most 64 positions apart carry distinct nonces |
| `ProtocolTheorems.HistoryListsApprovals` | crates/syauth-presenced/src/orchestrator.rs:970-984 | The acceptance history of an entry lists each call it approved exactly once and no other call, except calls dropped after their approval was recorded |
| `ProtocolTheorems.ApprovalsNeedDistinctSignings` | crates/syauth-presenced/src/orchestrator.rs:955-984 | In the symbolic signature model, two acceptances of one entry at most 64 positions apart rest on two different messages the phone signed |
| `ProtocolTheorems.InFlightCountsHolders` | crates/syauth-presenced/src/orchestrator.rs:1049-1103 | In every reachable state at most one call per entry is between slot acquisition and release, the snapshot's in-flight count is the number of such calls, and when every call of an entry has returned or was dropped its permit is back |
| `ProtocolPeers.OnePerPeerWithOneEntry` | crates/syauth-presenced/src/orchestrator.rs:798-879 | From every start and along every run in which the peer has at most one entry (the one it starts with, or the one a reload adds, counted over the run), at most one call of that peer is between slot acquisition and release |
| `ProtocolPeers.TwoInFlightAreReachable` | crates/syauth-presenced/src/orchestrator.rs:763-782 | The bound of one entry is exact for a peer in the start map: a run with one re-add ends with two calls of that peer each holding a slot |
| `ProtocolPeers.TwoInFlightFromEmptyMap` | crates/syauth-presenced/src/orchestrator.rs:763-782 | And exact for a peer paired later: from an empty map, a run that adds the peer twice ends with two calls of it each holding a slot |
| `ProtocolPeers.ReAddedPeerHasASecondSlot` | crates/syauth-presenced/src/orchestrator.rs:763-782 | In any state where a call holds the slot of a removed entry and its peer is about to enter the map again, a second call for that peer is admitted |
| `ProtocolPeers.ApprovedUnderOwnKey` | crates/syauth-presenced/src/orchestrator.rs:763-782 | If every reload works on a loaded store, an approval for a peer rests on a signature that verified under a public key whose id is that peer |
| `ProtocolPeers.RevocationTakesEffect` | crates/syauth-cli/src/revoke.rs:138-153 | A saved revocation, then one reload in which the removal did not fail: the peer is out of map and radio, and every later lookup ends in `unknown-peer`, through any further calls and reloads, until a reload finds it bonded again |
| `ProtocolPeers.RevokedIsNoTarget` | crates/syauth-presenced/src/orchestrator.rs:716-733 | After a saved revocation the id is in no reload target, whatever the key files hold |
| `ProtocolTheorems.CompletedCallsAreAuditedOnce` | crates/syauth-presenced/src/orchestrator.rs:798-1032 | Every completed call made exactly one audit append; the note names the call's peer, the reason of the returned outcome and, once a challenge was sent, the nonce of that challenge |
| `ProtocolVerdicts.VerdictIff` | crates/syauth-presenced/src/orchestrator.rs:798-985 | From every start and along every run, a call that was not dropped has a verdict if and only if the run took a step that calls for exactly that verdict: `BadSignature` an answer that is not 64 bytes, no signature, or does not verify over `1 ‖ nonce`; `Replay` a verified nonce inside the window; `TimedOut`, `NotKnown` and `TransportError` the radio's failures, an unknown peer or a failed nonce draw; `Busy` a queue timeout; `Ok` a verified nonce outside the window |
| `ProtocolVerdicts.StepDecidesIff` | crates/syauth-presenced/src/orchestrator.rs:866-985 | The same for every single step of every task |
| `ProtocolVerdicts.NoteExplainsCall` | crates/syauth-presenced/src/orchestrator.rs:798-1032 | A completed call has such a cause, and its one audit note names its peer, the reason of that verdict and the nonce it had drawn, or none if it was decided before |
| `ProtocolVerdicts.CallsMayMove` | crates/syauth-presenced/src/orchestrator.rs:798-985 | At every moment: which step of a call may come next; an unfinished call may be dropped, the queue may time out, and radio, phone and random source may answer anything |
| `ProtocolVerdicts.ReloadMayMove` | crates/syauth-presenced/src/orchestrator.rs:691-782 | At every moment: how a reload may go on, with every radio call failing or not |
| `ProtocolTheorems.CallsPersist` | crates/syauth-presenced/src/orchestrator.rs:991-1002 | Whatever reloads and other calls do, a call keeps the peer, the captured state and the frame it sent, and its verdict never changes unless the caller drops it |
| `ProtocolTheorems.RemovedPeerIsUnknown` | crates/syauth-presenced/src/orchestrator.rs:798-807 | From the moment a peer is out of the map until the step that inserts it again, every call that looks it up can only complete with `unknown-peer` |
| `ProtocolTheorems.RemovalMakesAbsent` | crates/syauth-presenced/src/orchestrator.rs:747-761 | The map removal of a reload takes the peer out for every call still to come |
| `ProtocolTheorems.MapFollowsRadio` | crates/syauth-presenced/src/orchestrator.rs:747-782 | In every reachable state the live map's key set is the peripheral's peer set, except for the one peer between the radio call and the map update; two peers never share an entry |
| `ProtocolReload.ReloadReachesFormula` | crates/syauth-presenced/src/orchestrator.rs:691-710 | One reload, interleaved with any calls and any radio failures, ends with (current ∩ target) ∪ successful adds ∪ failed removes, where the successful adds are the missing peers whose addition did not fail; radio and map agree, and peers present before and after keep their very entry |
| `ProtocolReload.ReachesTargetIffNothingFailed` | crates/syauth-presenced/src/orchestrator.rs:691-710 | Such a reload ends with exactly the eligible peers of the store if and only if no radio call in it failed |
| `ProtocolReload.SettledReloadIsSilent` | crates/syauth-presenced/src/orchestrator.rs:691-710 | A reload that finds the live ids equal to the eligible ones calls the radio for no peer and changes no entry, whatever calls run beside it |
| `ProtocolReload.SecondReloadIsSilent` | crates/syauth-presenced/src/orchestrator.rs:691-710 | After a reload without a failing radio call and any calls in between, a reload of the same store makes no radio call and leaves the map as it is |
| `ProtocolReload.RetainedPeerKeepsOldKeys` | crates/syauth-presenced/src/orchestrator.rs:738-745 | The diff compares ids only: a peer present before and after a reload keeps the bond key and public key its entry was made with, whatever the files say now |
| `ProtocolTheorems.WindowIsFrozenWhileHeld` | crates/syauth-presenced/src/orchestrator.rs:869-985 | While a call holds the slot, no step of any other task changes that call or the nonces of its entry |
| `ProtocolTheorems.HonestPhoneIsApproved` | crates/syauth-presenced/src/orchestrator.rs:925-984 | If the phone that owns the captured key answers the frame it was sent with `sign_challenge_response`, the nonce is outside the window and the answer arrives, the only verdict a run can reach is `Ok` |
| `ProtocolTheorems.HonestPhoneGetsThrough` | crates/syauth-presenced/src/orchestrator.rs:925-984 | That verdict is reached: answer, replay check, audit append and return are enabled in turn and end the call approved |
| `ProtocolInvariant.StepKeepsInv` | crates/syauth-presenced/src/orchestrator.rs:798-1002 | Every step of every task keeps the seven-part invariant: shape, slots, calls, entries, audit, map, reload progress |
| `ProtocolInvariant.RunsKeepInv` | crates/syauth-presenced/src/orchestrator.rs:798-1002 | The invariant holds along every run, for any number of callers, peers and reloads |
| `ProtocolInvariant.InitialHasInv` | crates/syauth-presenced/src/runtime.rs:346-383 | The state the daemon starts from, a map of fresh entries equal to the radio's set, meets the invariant |
| `ProtocolInvariant.SlotStep` | crates/syauth-presenced/src/orchestrator.rs:798-834 | A step that moves one call and its entry's permit in the same direction keeps one holder per entry |
| `ProtocolInvariant.CheckReplayKeepsEntries` | crates/syauth-presenced/src/orchestrator.rs:970-981 | The post-verify replay check keeps each entry's window equal to the tail of its acceptance history |
| `Unlock.GrantNeedsVerifiedSignature` | crates/syauth-pam/src/auth.rs:239-300 | End to end from the request PAM writes to the reply it reads, over every run of the daemon: PAM grants the peer it picked if and only if the call its request started was approved, and then a signature verified over the challenge that call sent, under a public key whose id is that of the record PAM picked |
| `Unlock.RequestArrives` | crates/syauth-presenced/src/server.rs:310-312 | What the PAM module writes is read by the daemon as a challenge for that very peer |
| `Unlock.ReplyDecides` | crates/syauth-pam/src/auth.rs:273-299 | What the daemon writes is read by the PAM module and decides it: success for the first bonded peer if and only if the outcome was approved |
| `Unlock.SuccessMeans` | crates/syauth-pam/src/auth.rs:239-344 | PAM succeeds for a peer if and only if the store loads, that peer is the first bonded one, the random source works and the daemon answered a challenge with reason `ok` |
| `Unlock.VerdictsMapToPam` | crates/syauth-pam/src/auth.rs:198-228 | Each daemon verdict reaches exactly one PAM class, reasons survive the mapping, and the reply of a daemon without orchestrator is a hard failure |
| `Unlock.ReasonTexts` | crates/syauth-presenced/src/orchestrator.rs:117-149 | The wire text of every verdict |
| `Unlock.PickedPeerDecides` | crates/syauth-pam/src/auth.rs:244-302 | With a bonded peer picked, for every reply: no randomness, no reply or one of another kind falls through as a transport error; `ok` grants; denied, replay, bad-signature and every unknown reason stop the stack; the six soft reasons fall through; reason and peer are carried along |
| `Unlock.NoPeerFallsThrough` | crates/syauth-pam/src/auth.rs:315-338 | A store that does not load, and one without a bonded peer, fall through under their own reasons and name no peer |
| `Unlock.VerdictReachesPam` | crates/syauth-pam/src/auth.rs:244-302 | From the verdict the daemon writes to the PAM return code: hard for `Denied`, `Replay` and `BadSignature`, fall-through for `TimedOut`, `NotKnown`, `Busy` and `TransportError`, each under its own reason |
| `Unlock.FailureReachesPam` | crates/syauth-pam/src/auth.rs:197-302 | End to end: a login stops hard if and only if the answer did not verify or its nonce was in the window; it falls through if and only if the peer was unknown, a timeout struck or something on the way failed |
| `Unlock.ReplyIs` | crates/syauth-presenced/src/server.rs:338-357 | The reply for every verdict: the signature goes out with an approval only; a daemon without an orchestrator answers a reason PAM does not know |
| `Unlock.ReplyFieldsAgree` | crates/syauth-presenced/src/server.rs:331-358 | In a challenge reply `ok`, the presence of a signature, reason `ok` and an approved outcome all coincide; different verdicts have different reasons |
| `Phone.PhoneSignsWhatDaemonVerifies` | crates/syauth-mobile/src/implementation.rs:294-316 | `sign_challenge_response` on any challenge the daemon builds returns a 64-byte signature that the daemon parses and that verifies over the challenge's body |
| `Phone.PhoneAcceptsChallenge` | crates/syauth-mobile/src/implementation.rs:254-285 | Every challenge the daemon builds passes the phone's tag check, under exactly those keys whose hash of the body agrees with the bond key's |
| `Phone.ChallengeEncodes` | crates/syauth-presenced/src/orchestrator.rs:894-924 | The daemon's challenge always encodes, decodes to itself, and its body is the version byte and the nonce |
| `Phone.VerifyDecides` | crates/syauth-mobile/src/implementation.rs:254-273 | The tag check for every key and input: wrong key length, no frame, wrong tag, or the payload |
| `Phone.SignDecides` | crates/syauth-mobile/src/implementation.rs:294-310 | Signing for every key and input: what is signed are the bytes before the tag, which is not checked here |
| `Phone.ResponseFrameDecides` | crates/syauth-mobile/src/implementation.rs:364-408 | The framed response for every key, signer and input |
| `Phone.FramedResponseIsNeverASignature` | crates/syauth-presenced/src/orchestrator.rs:1123-1128 | The framed output of `build_response_frame` is 97 bytes long and is never parsed as a signature by the daemon |
| `Phone.SigningCanBeSound` | crates/syauth-mobile/src/implementation.rs:294-316 | The one law assumed of signing is satisfiable |
| `Frames.EncodeInto` | crates/syauth-core/src/frame.rs:133-148 | `encode` appends the encoding, or reports the error and leaves the buffer untouched |
| `Frames.DecodeDomain` | crates/syauth-core/src/frame.rs:176-203 | `decode` accepts exactly the inputs of 33 to 4129 bytes whose version byte is 1 |
| `Frames.DecodeFailsWith` | crates/syauth-core/src/frame.rs:176-203 | What is reported for every other input: length, then version, then payload length |
| `Frames.EncodeLayout` | crates/syauth-core/src/frame.rs:133-164 | Encodable are the frames with at most 4096 bytes of payload, with the fields at fixed offsets; the body is the encoding without its tag |
| `Frames.DecodeInvertsEncode` | crates/syauth-core/src/frame.rs:133-203 | Decoding an encoded frame gives it back if and only if its version is 1; any other version is reported as found |
| `Frames.EncodeInvertsDecode` | crates/syauth-core/src/frame.rs:133-203 | Encoding a decoded frame gives back the very bytes, so decoding is injective |
| `Frames.BodyDeterminesFrame` | crates/syauth-core/src/frame.rs:155-166 | The signed body is the encoding without its tag and determines version, nonce and payload |
| `NonceWindow.NonceCache.Contains` | crates/syauth-presenced/src/orchestrator.rs:198-200 | Membership in the window |
| `NonceWindow.NonceCache.PushInsert` | crates/syauth-presenced/src/orchestrator.rs:208-213 | The deque becomes the last 64 of its content and the new nonce |
| `NonceWindow.CacheIsWindow` | crates/syauth-presenced/src/orchestrator.rs:187-214 | For every sequence of offers the deque holds the last min(64, n) accepted nonces |
| `NonceWindow.AcceptedIsWindowed` | crates/syauth-presenced/src/orchestrator.rs:970-981 | Accepted nonces never repeat within the window |
| `NonceWindow.WindowedIffRunsDistinct` | crates/syauth-presenced/src/orchestrator.rs:187-214 | Not repeating within the window is the same as: any 65 consecutive accepted nonces are pairwise distinct |
| `NonceWindow.AcceptedIffWindowed` | crates/syauth-presenced/src/orchestrator.rs:970-981 | A history of offers is accepted as a whole if and only if it never repeats within the window |
| `NonceWindow.WindowIsTight` | crates/syauth-presenced/src/orchestrator.rs:169-169 | 65 is exact: the cache accepts 66 offers in a row of which the last repeats the first |
| `Reconcile.ComputeNewSet` | crates/syauth-presenced/src/orchestrator.rs:716-733 | The loop yields the non-revoked bonds whose key file holds 32 bytes, with those keys |
| `Reconcile.TargetIsInStore` | crates/syauth-presenced/src/orchestrator.rs:763-768 | Every target id has a public key in the store, so the early return of `do_add_peer` is not taken for it |
| `Reconcile.Orchestrator.DoRemovePeer` | crates/syauth-presenced/src/orchestrator.rs:747-761 | The map drops the peer if and only if the radio call succeeded; map and radio stay equal |
| `Reconcile.Orchestrator.DoAddPeer` | crates/syauth-presenced/src/orchestrator.rs:763-782 | Nothing for an id the store does not know; else one radio call, and a fresh entry under a new identity if and only if it succeeded; map and radio stay equal |
| `Reconcile.Orchestrator.RemoveAll` | crates/syauth-presenced/src/orchestrator.rs:695-697 | For every iteration order and every set of failing calls exactly the non-failing removals happen, each issued once |
| `Reconcile.Orchestrator.AddAll` | crates/syauth-presenced/src/orchestrator.rs:698-702 | For every iteration order and every set of failing calls exactly the non-failing additions happen, each issued once, with fresh entries |
| `Reconcile.Orchestrator.ReloadBonds` | crates/syauth-presenced/src/orchestrator.rs:691-710 | One pass gives (current ∩ target) ∪ successful adds ∪ failed removes, leaves retained entries untouched, and issues exactly the calls of the two differences |
| `Reconcile.ReconciledWithoutFailures` | crates/syauth-presenced/src/orchestrator.rs:691-710 | With no failing call one pass reaches the target |
| `Reconcile.ReconciledIsRepairable` | crates/syauth-presenced/src/orchestrator.rs:691-710 | The result is the target if and only if no needed call failed; a failure-free second pass always repairs, and repeated failures change nothing |
| `Reconcile.SecondPass` | crates/syauth-presenced/src/orchestrator.rs:691-710 | A pass over a settled map issues no radio call and changes nothing |
| `Rotation.TickLandsInItsMinute` | crates/syauth-presenced/src/orchestrator.rs:298-319 | Tick k falls in minute m0 + 1 + k, after its boundary by exactly the sub-second part of the boot time |
| `Rotation.MinuteIsFloor` | crates/syauth-presenced/src/orchestrator.rs:311-319 | `minute_index` is the floor of the time in minutes |
| `Rotation.MinuteCountsSeconds` | crates/syauth-presenced/src/orchestrator.rs:298-319 | A minute is 60 seconds; before the epoch the index is 0 and the offset a full minute |
| `Rotation.PublishedMinuteIsCurrentOrPrevious` | crates/syauth-presenced/src/orchestrator.rs:591-653 | If each tick is published before the next boundary, then at every time the minute on the air is the current or the previous one, whatever reloads publish in between |
| `Rotation.LatePublishGoesStale` | crates/syauth-presenced/src/orchestrator.rs:591-653 | The bound on the publish delay is exact: beyond it a run shows a minute two behind |
| `Rotation.MinutesDeriveApart` | crates/syauth-transport/src/bluez.rs:195-200 | Different minutes give different derivation inputs, over the whole i64 range |
| `Rotation.UuidIs` | crates/syauth-transport/src/bluez.rs:195-200 | The UUID is the HKDF of the key and of the 17 letters of the domain string followed by the minute in 64-bit two's complement, most significant byte first |
| `Rotation.UuidsDiffer` | crates/syauth-transport/src/bluez.rs:195-200 | For a derivation without collisions, two UUIDs are equal if and only if key and minute are |
| `Rotation.SeparationIsPossible` | crates/syauth-transport/src/bluez.rs:195-200 | Derivations without collisions exist |
| `Rotation.PublishedSetsAreDisjoint` | crates/syauth-presenced/src/orchestrator.rs:1136-1144 | What is published in one minute shares nothing with what is published in another, whatever peers come and go |
| `Rotation.BigEndianInjective` | crates/syauth-transport/src/bluez.rs:195-200 | The fixed-width big-endian form is injective below its limit |
| `Rotation.BuildUuidUnion` | crates/syauth-presenced/src/orchestrator.rs:1136-1147 | The published union is exactly the UUID of the zero key and one UUID per live key |
| `Rotation.PhoneMeetsAdvertisement` | crates/syauth-cli/src/pair_backend.rs:69-73 | At every time after the first publish, the advertisement and the two-minute scan window of a phone bonded under a live key (or pairing under the zero key) share a UUID |
| `Rotation.PhoneFindsItselfIff` | crates/syauth-cli/src/pair_backend.rs:69-73 | A phone finds itself in an advertisement if and only if its key is live (or the zero key) and the minute is the current or the previous one |
| `PairPersist.ReloadNeverMissesAKey` | crates/syauth-presenced/src/runtime.rs:518-617 | After any events, failures, revocations and crashes, every record the consumer wrote has the 32-byte key derived from its peer's latest key-written event, so a reload takes that peer with that key unless it was revoked |
| `PairPersist.PairEventConsumer.PersistRecord` | crates/syauth-presenced/src/runtime.rs:609-617 | Load, drop a record of the same id, add, save: the file is exactly that of the daemon-pair command, or unchanged on failure |
| `PairPersist.PairEventConsumer.HandleEvent` | crates/syauth-presenced/src/runtime.rs:524-586 | One turn of the loop takes the disk through the key step, the record step and the reload signal, each only after the one before it succeeded |
| `PairPersist.TurnDecides` | crates/syauth-presenced/src/runtime.rs:518-617 | One event in full: the key file first, which stays when the record cannot be saved; the record in place of the old one; a reload queued only after the record; a file that does not load is left alone |
| `PairPersist.AnythingMayHappen` | crates/syauth-presenced/src/runtime.rs:518-617 | The process may stop and the operator may revoke at any moment, and the consumer is never stuck |
| `PairPersist.StepKeepsInv` | crates/syauth-presenced/src/runtime.rs:518-617 | Each step keeps: the file is sound, every key file is that of its latest event, every recorded peer has a key event |
| `PairPersist.CliStoppedBeforeKeyIsSkipped` | crates/syauth-cli/src/pair.rs:888-895 | `syauth pair` writes the record first; stopped before the key, the peer is taken by the next reload if and only if a usable key file was already there |
| `Enrolment.NewPeerIsTaken` | crates/syauth-presenced/src/orchestrator.rs:763-782 | A reload takes an eligible peer it did not know if and only if its addition did not fail, and then with the public key of its record and the bond key of its key file |
| `Enrolment.LivePeerCanUnlock` | crates/syauth-presenced/src/orchestrator.rs:798-985 | From lookup to approval: for a live peer with a free slot and a fresh nonce every step is enabled, the challenge passes the tag check under the entry's bond key, and the owner's signature ends the call approved |
| `Enrolment.PairedPhoneCanUnlock` | crates/syauth-presenced/src/runtime.rs:518-617 | From pairing to unlocking: what the consumer recorded, after any history, and one reload that did not fail to add the peer: a challenge reaches the phone, passes its check under the bond key the phone derived at pairing, and its answer is approved |
| `Enrolment.RepairedPhoneRejectsIff` | crates/syauth-presenced/src/orchestrator.rs:691-710 | A peer that was live when it was paired anew: until it is added again every later challenge is tagged under the old bond key, and the phone with the new key refuses it if and only if the two keys hash the body differently |
| `Bonds.BondStore.FindIndex` | crates/syauth-core/src/bond.rs:457-459 | The position of the first record with the id |
| `Bonds.BondStore.Add` | crates/syauth-core/src/bond.rs:368-375 | Appends, or refuses a known id and changes nothing |
| `Bonds.BondStore.Remove` | crates/syauth-core/src/bond.rs:378-387 | Removes the record of the id, or refuses an unknown id and changes nothing |
| `Bonds.BondStore.MarkRevoked` | crates/syauth-core/src/bond.rs:394-407 | Revokes a bonded record, leaves a revoked one with its reason, refuses an unknown id |
| `Bonds.BondStore.LoadFrom` | crates/syauth-core/src/bond.rs:320-351 | Missing file is the empty store; future schema and the first id that does not match its key are refused |
| `BondCommands.LoadsIff` | crates/syauth-core/src/bond.rs:321-354 | Exactly the missing file and the parsed ones of version 0 or 1 whose ids match their keys load, as those records |
| `BondCommands.LoadFailsWith` | crates/syauth-core/src/bond.rs:321-354 | What is reported for every file that does not load |
| `BondCommands.UnloadableIsUntouched` | crates/syauth-core/src/bond.rs:321-354 | Every command on such a file fails and leaves that very file in place |
| `BondCommands.PairDecides` | crates/syauth-cli/src/pair.rs:871-888 | File and result of `syauth pair` past its gates, for every sound file: refused, not saved, or the record last and the others as they were |
| `BondCommands.DaemonPairDecides` | crates/syauth-presenced/src/runtime.rs:518-617 | The daemon's consumer bonds a known peer again, revoked or not |
| `BondCommands.RevokeDecides` | crates/syauth-cli/src/revoke.rs:138-153 | File and result of `syauth revoke`: unknown id, already revoked, not saved, or marked in place |
| `Bonds.ExecuteKeepsSound` | crates/syauth-cli/src/pair.rs:870-888 | One pair, forced pair, daemon pair or revoke keeps ids unique and matching their keys, changes at most its own record in the allowed way, and leaves the file as it was when it fails |
| `Bonds.RunsKeepSound` | crates/syauth-core/src/bond.rs:320-407 | From a sound file, every reachable file loads, with unique ids that match their public keys |
| `Bonds.RevocationSticks` | crates/syauth-cli/src/revoke.rs:138-153 | A revoked record, reason included, survives every run without a forced or daemon re-pair of its id |
| `Bonds.PeersAreNeverForgotten` | crates/syauth-core/src/bond.rs:368-407 | No run of commands forgets a known id or leaves it with a key of another id |
| `Bonds.ReplacedLookup` | crates/syauth-presenced/src/runtime.rs:609-617 | Replace-or-add sets exactly the record of its own id and keeps every other lookup |
| `PairFlow.BondDir.RunGates` | crates/syauth-cli/src/pair.rs:791-867 | The chosen candidate if the adapter is capable, exactly one candidate matches, the handshake completed, the terminal wrote and the operator confirmed; otherwise the error of the first gate that fails, the backend's own error included |
| `PairFlow.BondDir.RunPair` | crates/syauth-cli/src/pair.rs:785-898 | File, keys and result of every run, with any call and any terminal write failing: nothing changes unless the record is committed, and the error is that of the first gate or step that fails |
| `PairFlow.YesIff` | crates/syauth-cli/src/pair.rs:638-645 | The operator confirms with blanks, `y` or `yes` in any case, and blanks, and with nothing else |
| `PairGates.PassesIff` | crates/syauth-cli/src/pair.rs:791-867 | A run goes on to the disk if and only if each of fourteen conditions holds |
| `PairGates.RadioRefusal` | crates/syauth-cli/src/pair.rs:791-838 | Before the code comparison the error is that of the first condition that fails, the backend's own included |
| `PairGates.OperatorRefusal` | crates/syauth-cli/src/pair.rs:839-867 | From the code comparison on, likewise |
| `PairGates.OtherAnswersReject` | crates/syauth-cli/src/pair.rs:862-867 | Any other answer, without a flag that stands for one, is rejected, and nothing on disk changes |
| `PairGates.CommitRefusalIs` | crates/syauth-cli/src/pair.rs:869-898 | Past the gates the error is that of the first step of the commit that fails; an id that stands twice in the file defeats `--force` |
| `PairGates.CommitSucceeds` | crates/syauth-cli/src/pair.rs:869-898 | And if every step succeeds the run does |
| `PairGates.MentionsIff` | crates/syauth-cli/src/pair.rs:678-683 | A name contains the needle if and only if it is something, the needle, and something |
| `PairGates.UnloadableIsNotPaired` | crates/syauth-cli/src/pair.rs:873-888 | No run overwrites a file that does not load |
| `PairGates.OfferedIs` | crates/syauth-cli/src/pair.rs:678-683 | The filter keeps, in order, each candidate whose name contains the needle |
| `PairFlow.GatesDecide` | crates/syauth-cli/src/pair.rs:791-867 | No gate refuses if and only if the conditions for touching the disk all hold |
| `PairFlow.CommitDecides` | crates/syauth-cli/src/pair.rs:869-898 | After the gates nothing refuses if and only if the record was committed, the key file written and the last line printed |
| `PairFlow.UncommittedLeavesNoTrace` | crates/syauth-cli/src/pair.rs:785-888 | A run that does not commit, for whatever reason, leaves the file exactly as it was |
| `PairFlow.FilterCandidates` | crates/syauth-cli/src/pair.rs:678-683 | The loop keeps, in order, the candidates whose name contains the filter, or all of them |
| `PairFlow.WrittenMeansConfirmed` | crates/syauth-cli/src/pair.rs:785-898 | A written record means every gate was passed; it holds the handshake's key under its own id, and every other record is as it was |
| `PairFlow.RecordComesBeforeKey` | crates/syauth-cli/src/pair.rs:888-895 | On a first pairing with a successful save the record is on disk whatever the key write then does |
| `PairFlow.RevokingMakesNoRoom` | crates/syauth-cli/src/pair.rs:511-517 | After `revoke` a plain pair of the same peer is still refused and changes nothing; only `--force` makes room |
| `Hex.HexLowercase` | crates/syauth-core/src/bond.rs:302-310 | Digit 2i is the high half of byte i and digit 2i + 1 the low half, in lower case |
| `Hex.HexPubkey` | crates/syauth-core/src/bond.rs:542-558 | The loop computes the outcome: key, bad length, first bad pair, or an aborted slice |
| `Hex.DecodesIff` | crates/syauth-core/src/bond.rs:542-558 | A text decodes to a key if and only if it has 64 bytes and each pair reads as that key's byte |
| `Hex.PairReadsIff` | crates/syauth-core/src/bond.rs:533-559 | Two bytes read as one number: two digits of either case, or a plus sign and one digit |
| `Hex.DecodeFailsWith` | crates/syauth-core/src/bond.rs:533-559 | A text that is no key is reported by its length or by the first pair that is not read: a bad digit, or an abort when the pair cuts a character |
| `Hex.DecodeInvertsEncode` | crates/syauth-core/src/bond.rs:302-310 | Reading what was written gives the key back |
| `Hex.EncodeInvertsDecodeIff` | crates/syauth-core/src/bond.rs:542-558 | Writing what was read gives the text back if and only if the text was in lower-case digits |
| `Hex.PlusSpelling` | crates/syauth-core/src/bond.rs:554-554 | Every key whose first byte is below 16 has a second spelling, with a plus sign |
| `Hex.AbortsIff` | crates/syauth-core/src/bond.rs:542-555 | For every UTF-8 text, reading it as a key aborts if and only if it has the right length and, after pairs that read, a pair ends inside a character |
| `Hex.SomeTextAborts` | crates/syauth-core/src/bond.rs:552-555 | Such texts exist: a digit, a two-byte character, and digits up to the right length |
| `Replays.ReplayCache.EvictExpired` | crates/syauth-core/src/replay.rs:110-118 | Pops expired stamps from the front and stops at the first live one |
| `Replays.ReplayCache.Observe` | crates/syauth-core/src/replay.rs:95-107 | Verdict and new content are those of the specification, and the capacity is kept |
| `Replays.EvictedIsSuffix` | crates/syauth-core/src/replay.rs:110-118 | What remains is a suffix whose front is live, and everything dropped was expired |
| `Replays.ReplayedIffSeenRecently` | crates/syauth-core/src/replay.rs:95-118 | For every history with non-decreasing time, capacity and time to live (zero included): a call is a replay if and only if an earlier fresh call had the nonce, is younger than the time to live and has fewer than `cap` fresh calls after it |
| `Replays.HistoryKeepsTail` | crates/syauth-core/src/replay.rs:95-118 | The cache is always the tail of the fresh calls; what is missing is too old or too far back |
| `Replays.TimeMustNotGoBack` | crates/syauth-core/src/replay.rs:95-118 | With time going back a nonce past its time to live can still be refused |
| `Replays.FutureFrontStays` | crates/syauth-core/src/replay.rs:95-118 | A front stamped now or later has age zero and stays |
| `Notification.NotificationChannel.ClearIfCurrent` | crates/syauth-transport/src/peripheral/notification.rs:62-67 | Clears the slot only if it still holds that very sink |
| `Notification.NotificationChannel.Install` | crates/syauth-transport/src/peripheral/notification.rs:69-71 | The slot holds the new sink |
| `Notification.NotificationChannel.Send` | crates/syauth-transport/src/peripheral/notification.rs:73-81 | Run without interruption, a send takes the steps of the step system: it fails at once on an empty slot, and a failing sink is cleared |
| `Notification.NotificationChannel.WaitClosed` | crates/syauth-transport/src/peripheral/notification.rs:53-60 | Run without interruption, a wait takes the steps of the step system: it never ends on an empty slot, and a closed sink is cleared |
| `Notification.SendReportsIff` | crates/syauth-transport/src/peripheral/notification.rs:73-81 | A send under way reports success exactly when its sink took the message, and failure exactly when the slot was empty or it has cleared up after its sink |
| `Notification.WaitEndsIff` | crates/syauth-transport/src/peripheral/notification.rs:53-60 | A wait ends exactly when it has cleared up after its closed sink, and never on an empty slot |
| `Notification.TaskKeepsItsSink` | crates/syauth-transport/src/peripheral/notification.rs:51-81 | A task works on the sink it found and takes only that one out of the slot |
| `Notification.TasksMayMove` | crates/syauth-transport/src/peripheral/notification.rs:51-81 | At every moment: sinks may be installed and tasks started or dropped, and a task moves when it is its turn |
| `Notification.SlotIsLatestOrDead` | crates/syauth-transport/src/peripheral/notification.rs:51-81 | In every interleaving of installs, sends, closures and cancelled waits the slot is the most recently installed sink or empty, and after an install empty only if that very sink closed or failed a send |
| `Notification.HealthySinkKeepsSlot` | crates/syauth-transport/src/peripheral/notification.rs:51-81 | A sink that never dies keeps the slot until the next install, so every send that starts reaches it |
| `Notification.ClearedSinkIsNotUsed` | crates/syauth-transport/src/peripheral/notification.rs:51-81 | A cleared sink is not used again before it is installed anew |
| `Watcher.NoEventIsLost` | crates/syauth-presenced/src/runtime.rs:442-463 | Each delivered event is still queued, or the watcher is between receive and send, or a reload command was sent after it; only a closed reload queue ends this |
| `Watcher.IdleMeansReloaded` | crates/syauth-presenced/src/runtime.rs:442-463 | When watcher and reload queue are idle, the file was re-read after every event |
| `Watcher.CommandsNeverExceedEvents` | crates/syauth-presenced/src/runtime.rs:442-463 | Debouncing only merges: the watcher sends no more commands than events came in; reloads done and pending are its commands and those of the other senders together |
| `Watcher.RoundOfWatcher` | crates/syauth-presenced/src/runtime.rs:442-463 | One round is receive, sleep, drain, send; only a send into a closed queue ends the watcher |
| `Watcher.RoundCanComplete` | crates/syauth-presenced/src/runtime.rs:442-463 | From any queue of events the watcher can empty it and send one command for all of them |
| `Watcher.OthersMayAct` | crates/syauth-presenced/src/runtime.rs:442-463 | Up to 32 events and 16 commands wait; more block their senders |
| `OperatorLines.Operator.TakeLine` | crates/syauth-cli/src/pair.rs:298-304 | The oldest line, or nothing |
| `OperatorLines.Operator.Read` | crates/syauth-cli/src/pair.rs:343-358 | Hands out the pending bytes, refilled from the oldest line when empty, up to the room given |
| `OperatorLines.EveryLineGoesToOneConsumer` | crates/syauth-cli/src/pair.rs:288-359 | For any interleaving of pushes, takes and reads of any size, the taken lines followed by the queued ones are the pushed ones in order, and the bytes read plus the pending ones are the reader's lines, each ended by a newline |
| `OperatorLines.ReadFillsRoom` | crates/syauth-cli/src/pair.rs:343-358 | A read hands out at most the room given, less only if nothing of the line is left, and never more than one line |
| `OperatorLines.HoldersMayAct` | crates/syauth-cli/src/pair.rs:288-359 | Who may clone, push, take and read, and when a read returns |
| `OperatorLines.HandlesFollow` | crates/syauth-cli/src/pair.rs:288-359 | The senders are exactly the clones made and not dropped; a reader's own goes with it |
| `OperatorLines.EndOfFileIff` | crates/syauth-cli/src/pair.rs:343-358 | A read with room hands out nothing if and only if nothing is pending, the queue is empty and no clone of the queue is left |
| `OperatorLines.ReaderNeverSeesEndOfFile` | crates/syauth-cli/src/pair.rs:306-352 | In every interleaving of clones, drops, pushes, takes and reads, a live reader's own clone keeps the channel open: a read with room that returns hands out at least one byte |
| `OperatorLines.ReaderWaitsForEver` | crates/syauth-cli/src/pair.rs:343-352 | Once the lines are used up and nobody pushes, no read of a live reader returns again |
| `Rpc.BigEndianRoundTrip` | crates/syauth-presenced/src/rpc.rs:169-185 | The length prefix is read back as written |
| `Rpc.PrefixOrder` | crates/syauth-presenced/src/rpc.rs:169-185 | The prefix is most significant byte first |
| `Rpc.EncodeDecides` | crates/syauth-presenced/src/rpc.rs:169-185 | What is written for every value: four bytes of length and the payload, unless it does not encode or takes more than 64 KiB |
| `Rpc.ReadFrame` | crates/syauth-presenced/src/rpc.rs:247-266 | Result and rest of the stream are those of the specification: the cap is checked before the payload is read |
| `Rpc.WriteFrame` | crates/syauth-presenced/src/rpc.rs:272-281 | Writes prefix and payload, or nothing when the value does not encode or is too large, or a part of the frame when the stream fails |
| `Rpc.TornFrameIsRefused` | crates/syauth-presenced/src/rpc.rs:247-281 | A frame that was cut short is never taken for a message |
| `Rpc.ReadInvertsWrite` | crates/syauth-presenced/src/rpc.rs:169-281 | Reading a written frame returns the value and leaves exactly what followed it |
| `Rpc.ReadConsumes` | crates/syauth-presenced/src/rpc.rs:205-266 | For every input: result and consumption of a read: 4 + length bytes, the prefix alone when it announces more than 64 KiB, and everything when the stream ends early |
| `Rpc.StreamRoundTrip` | crates/syauth-presenced/src/rpc.rs:169-281 | Any sequence of encodable messages is read back in order, whatever follows it |
| `Fragments.Reassemble` | crates/syauth-transport/src/bluez.rs:233-257 | Accepts exactly the non-empty lists whose last segment alone clears the more bit, and returns their concatenated payload |
| `Fragments.HeaderDecides` | crates/syauth-transport/src/bluez.rs:91 | Of a header byte the high bit decides and the low seven bits are ignored |
| `Fragments.SplitReassembles` | crates/syauth-transport/src/bluez.rs:233-257 | Every split of a frame into flagged segments is accepted and reassembles to the frame |
| `Fragments.AcceptedListsAreSelfDelimiting` | crates/syauth-transport/src/bluez.rs:233-257 | A stream of segments starts with at most one accepted list, so no proper prefix of one is accepted |
| `Audit.AuditLog.Append` | crates/syauth-presenced/src/audit.rs:126-136 | Appends one line or the part a failing write got out, counts whole lines with u64 wrap-around, and syncs on every 32nd |
| `Audit.LineDeterminesRecord` | crates/syauth-presenced/src/audit.rs:147-158 | With separator-free daemon fields the printed line determines the record, whatever the peer id contains |
| `Audit.LineColumns` | crates/syauth-presenced/src/audit.rs:147-158 | Cut at its commas, a line has the fields in their places |
| `Audit.LogDeterminesRecords` | crates/syauth-presenced/src/audit.rs:147-158 | Without line ends in peer ids the text of a log determines its records |
| `Audit.OneLinePerRecord` | crates/syauth-presenced/src/audit.rs:147-158 | A log has one line per record if and only if no peer id contains a line end |
| `Audit.OneRecordCanPrintAsTwo` | crates/syauth-presenced/src/audit.rs:147-158 | With a line end in the peer id one record can print as any two |
| `AuditTrail.DaemonRecordsAreClean` | crates/syauth-presenced/src/orchestrator.rs:1008-1016 | Every record of every run of the protocol, dropped calls included, has separator-free daemon fields |
| `AuditTrail.DaemonLogHasOneLinePerNote` | crates/syauth-presenced/src/orchestrator.rs:1004-1026 | What the daemon wrote over a run has one line per audited transaction if and only if no caller asked for a peer id with a line end |
| `AuditTrail.DaemonLogTellsTheRun` | crates/syauth-presenced/src/orchestrator.rs:1004-1026 | Two runs without line ends in peer ids whose logs read the same audited the same peers, reasons, nonces and times in the same order (a call that drew no nonce prints like the all-zero nonce) |
| `AuditTrail.HexIsInjective` | crates/syauth-presenced/src/orchestrator.rs:894 | The printed nonce determines the nonce |
| `AuditTrail.NoteColumns` | crates/syauth-presenced/src/orchestrator.rs:1004-1026 | The columns of a note in order: peer, nonce in hex or 32 zeros, begin, end, and the reason twice |
| `Audit.DecimalRoundTrip` | crates/syauth-presenced/src/audit.rs:147-158 | The printed time stamps determine the numbers |
| `Audit.DecimalIsShort` | crates/syauth-presenced/src/audit.rs:147-158 | Time stamps are printed without leading zeros |
| `Audit.AppendAllWrites` | crates/syauth-presenced/src/audit.rs:126-136 | After any run the lines of whole writes are in the file, in order and complete, torn ones in part |
| `Audit.CounterCounts` | crates/syauth-presenced/src/audit.rs:126-136 | The counter counts the whole lines in 64 bits |
| `Audit.SyncedIff` | crates/syauth-presenced/src/audit.rs:126-136 | An append makes the file durable exactly when it is whole, the 32nd by the counter, and the sync succeeds |
| `Audit.UnsyncedLinesAreBounded` | crates/syauth-presenced/src/audit.rs:126-136 | After any run the unsynced pieces number the counter modulo 32, plus 32 per failed sync, plus the torn writes, across the u64 wrap; with whole writes and successful syncs fewer than 32 lines are ever unsynced |
| `PamText.MatchIsByWords` | crates/syauth-cli/src/install_pam.rs:64-77 | The recognition pattern has only one way to match from a given `auth`: it holds if and only if the third word starts with the module as a whole word |
| `PamText.AuthDirectiveIff` | crates/syauth-cli/src/install_pam.rs:92-99 | An `auth` directive is blanks, the four letters, one blank, and anything |
| `PamText.WordsAre` | crates/syauth-cli/src/install_pam.rs:64-77 | The word characters of the rule: ASCII letters, digits and underscore, and what the Unicode tables say beyond |
| `Text.SpacesAre` | crates/syauth-cli/src/install_pam.rs:64-77 | The code points of the blanks |
| `PamText.FirstAuthIsFirst` | crates/syauth-cli/src/install_pam.rs:92-99 | The position found is the first line that is an `auth` directive, and there is none if nothing is found |
| `PamText.InsertLine` | crates/syauth-cli/src/install_pam.rs:256-278 | One newline-terminated line more, before the first `auth` directive or at the top, every other character kept in order |
| `PamText.FirstMentionIsFirst` | crates/syauth-cli/src/install_pam.rs:400-410 | The position found is the first line that contains the module name |
| `PamText.AfterMention` | crates/syauth-cli/src/install_pam.rs:400-410 | The fallback line right after the first line that mentions the module, every other character kept in order |
| `PamText.MaybeInsertU2fFallback` | crates/syauth-cli/src/install_pam.rs:393-411 | Nothing when the flag is off or the fallback is recognised, else the fallback below the first mention |
| `PamRecognition.InsertDecides` | crates/syauth-cli/src/install_pam.rs:256-278 | On a text without a recognised line, for any inserted text, line breaks included, every match starts inside it, so the new text is recognised if and only if such a match exists |
| `PamRecognition.OneLineDecides` | crates/syauth-cli/src/install_pam.rs:256-278 | When the inserted text is one line the match can only start at its `auth`, and the third word from there decides |
| `PamRecognition.ControlDecides` | crates/syauth-cli/src/install_pam.rs:245-253 | For any module field: the third word of the built line is the module name if and only if the control field is one word and what follows it starts with the name, or its second word is the name, or it is blank and the second word after it is the name |
| `PamOutcomes.DefaultLine` | crates/syauth-cli/src/install_pam.rs:245-253 | The line of the documented defaults, letter by letter |
| `PamRecognition.FallbackTakesIffTerminated` | crates/syauth-cli/src/install_pam.rs:393-411 | After the fallback was inserted it is recognised if and only if the first line that mentions the module ends in a newline |
| `PamFallback.FallbackKeepsLineIff` | crates/syauth-cli/src/install_pam.rs:393-411 | Inserting the fallback leaves the syauth line recognised if and only if some match of the text before starts at or after the cut or ends before it |
| `PamFallback.FallbackRecognizesNothingNew` | crates/syauth-cli/src/install_pam.rs:393-411 | The fallback never makes a syauth line recognised that was not |
| `PamFallback.RecognizedIsMentioned` | crates/syauth-cli/src/install_pam.rs:402-409 | A recognised text mentions the module on some line, so the fallback always finds its place |
| `PamFallback.DirectlyBelowIff` | crates/syauth-cli/src/install_pam.rs:386-411 | For every match of any text the fallback goes right below the line with the match's module name if and only if no line above mentions the module; otherwise it goes above that line |
| `PamFallback.CommentTurnsTheOrder` | crates/syauth-cli/src/install_pam.rs:402-410 | Every recognised file below a comment that names the module: the fallback lands above the syauth line |
| `PamFallback.FallbackIsIdempotentIff` | crates/syauth-cli/src/install_pam.rs:386-411 | Adding the fallback twice is adding it once if and only if it was there, has no place, or its place is the start of a line |
| `PamFallback.GluedFallbackIsRepeated` | crates/syauth-cli/src/install_pam.rs:402-410 | In every other text the fallback is glued to the last line, is not recognised, and a second run adds another one |
| `PamFallback.FallbackSettlesAfterTwo` | crates/syauth-cli/src/install_pam.rs:386-411 | Every text is settled after two runs |
| `PamInstall.PamDir.Install` | crates/syauth-cli/src/install_pam.rs:337-384 | Result, service file, mode and backup are those of the specification, for every refusal and every failing file system call |
| `PamOutcomes.InstallDecides` | crates/syauth-cli/src/install_pam.rs:337-384 | When each result is reported, for every disk, option and failing call |
| `PamOutcomes.InstallLeaves` | crates/syauth-cli/src/install_pam.rs:337-384 | What is then at the two paths: the service file changes exactly on success and keeps its mode, the backup is the file as it was |
| `PamInstall.FailedInstallKeepsService` | crates/syauth-cli/src/install_pam.rs:337-384 | Whatever fails, an install that reports an error left the service file alone and touched no backup that was there |
| `PamInstall.FailedInstallBlocksRetry` | crates/syauth-cli/src/install_pam.rs:357-372 | A first install that fails after its backup leaves a good backup, which then blocks every retry |
| `PamInstall.PamDir.Uninstall` | crates/syauth-cli/src/uninstall_pam.rs:177-203 | Result, restored bytes under the current mode and removed backup are those of the specification, for every refusal and every failing file system call |
| `PamOutcomes.UninstallDecides` | crates/syauth-cli/src/uninstall_pam.rs:177-203 | When each result is reported, for every disk and failing call |
| `PamOutcomes.UninstallLeaves` | crates/syauth-cli/src/uninstall_pam.rs:177-203 | What is then at the two paths: the bytes of the backup under the mode of the service file |
| `PamInstall.FailedUninstallKeepsOrRestores` | crates/syauth-cli/src/uninstall_pam.rs:190-202 | An uninstall changes the service file only to the backup's bytes; only a failing removal leaves both |
| `PamInstall.InstallsReachAFixedPoint` | crates/syauth-cli/src/install_pam.rs:337-411 | From a text without syauth line, a one-token control flag, the default module and no backup: after the first install and any further ones with any options, the file is the original with one line more (and one fallback line if asked for), mode kept, backup equal to the original |
| `PamInstall.FixedPointIsReported` | crates/syauth-cli/src/install_pam.rs:346-354 | A further install that asks for nothing new reports that it is already installed |
| `PamInstall.UninstallUndoesInstalls` | crates/syauth-cli/src/uninstall_pam.rs:177-203 | One uninstall after any such run restores the original bytes and mode and removes the backup |
| `PamInstall.InstalledIffTakesHold` | crates/syauth-cli/src/install_pam.rs:245-278 | The exact condition by words, checkable before the call, under which a first install is recognised afterwards, with and without the fallback, for any module field and blank control fields |
| `PamInstall.InstalledIffHolds` | crates/syauth-cli/src/install_pam.rs:337-384 | The exact condition for all options, line breaks included: some match starts inside the built line and is clear of the fallback |
| `PamInstall.StuckIffNotHeld` | crates/syauth-cli/src/install_pam.rs:357-363 | For all options: uninstall after a first install gives back the original if and only if they hold; otherwise a second install is refused because of the backup, uninstall reports nothing installed, and neither changes anything |
| `PamInstall.DefaultConditionIff` | crates/syauth-cli/src/install_pam.rs:245-253 | With the default module name the condition is on the control field alone, unless that is blank |
| `PamInstall.OtherModuleIsStuck` | crates/syauth-cli/src/install_pam.rs:245-253 | Every `--so-path` that does not start with the module name as a whole word, an absolute path for one, leads to that stuck state |
| `PamInstall.InstallIsIdempotentIff` | crates/syauth-cli/src/install_pam.rs:337-384 | For all files and options: installing twice is installing once if and only if, where the first writes, the line stays recognised and the fallback lands at a line start, or a backup is there afterwards |
| `PamInstall.UntakenInstallIsStuck` | crates/syauth-cli/src/install_pam.rs:357-363 | Options without line breaks that do not take hold by words: the second install is refused and uninstall reports nothing installed |
| `PamInstall.DocumentedFlagIsStuck` | crates/syauth-cli/src/install_pam.rs:50-52 | The bracketed control flag offered by the documentation is of that kind, on every such file |
| `PamInstall.AddedFallbackKeepsLineIff` | crates/syauth-cli/src/install_pam.rs:346-381 | The fallback added by an install to a recognised file: the file is rewritten, and stays recognised (and can be uninstalled) if and only if some match lies clear of the cut |
| `PamInstall.GluedFallbackBreaksTheLine` | crates/syauth-cli/src/install_pam.rs:402-410 | Every one-line file without a final newline: recognised before such an install, not recognised after it, and without a backup the same install run again writes again |
| `PamInstall.SpanningLineIsCut` | crates/syauth-cli/src/install_pam.rs:402-410 | Every syauth line over two lines whose second word mentions the module: recognised before such an install, not recognised after it, although all lines are terminated |

## Left out

- BlueZ and D-Bus calls, GATT services, adapter probing, pairing agents: foreign library behaviour.
- Internals of Ed25519, BLAKE3, HKDF, CBOR, TOML and RFC 3339, and constant-time comparison.
- `secrets.rs`, the pidfile lock, socket creation and peer credentials, syslog, the C boundary.
- The accept loop and its permits (`serve`, `handle_connection`): a bounded semaphore around `dispatch`, with no state of its own beyond the count.
- `run_suspend_resume_loop`: one flag and one counter, easy.
- `peers_snapshot` apart from the in-flight count: liveness time stamps are rendering.
- `doctor`, `status`, `list`, `install_presenced`, `parse_invite_uri` and the word table of the confirmation code: diagnostics, scans and finite data.
- Liveness and real-time bounds: deadlines appear as timeouts that may happen at any time; only safety is proved.
- What a reader makes of an audit log after a torn write: the next record continues the torn line.
- `fs::write` of a key file as more than one step: a torn write is not modelled.
- Interleaving of `syauth pair` with the daemon's own pair consumer on the same files: the load-modify-save steps of the two are taken as atomic.
- The spawned watcher and the notification tasks are modelled as steps and not as loops, because their point is the interleaving; queue capacities are those of the source.
- `PamInstall.InstalledIffTakesHold`: covers options without a line break; `PamInstall.InstalledIffHolds` gives the condition for the others.
- `PamInstall.InstallsReachAFixedPoint`: covers the default module name, because the recognition rule knows only that name.
- `Phone.PhoneAcceptsChallenge`: tag equality is that of the truncated hash; collisions are not excluded.
