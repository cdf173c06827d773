/** The cryptographic primitives, as functions the model is generic in, and the
    phone side of the challenge (crates/syauth-mobile/src/implementation.rs). */
module Phone {
  import opened Basics
  import opened Frames

  const SIGNATURE_LEN: nat := 64

  /** Keyed BLAKE3 truncated to a tag, and Ed25519 with strict verification.
      `validPoint` is `VerifyingKey::from_bytes`, `validSignature` is `Signature::from_slice`. */
  datatype Crypto = Crypto(
    keyedHash: (Key, Bytes) -> Tag,
    publicKey: Key -> Key,
    sign: (Key, Bytes) -> Bytes,
    validPoint: Key -> bool,
    validSignature: Bytes -> bool,
    verifyStrict: (Key, Bytes, Bytes) -> bool)

  /** The only law used: what an Ed25519 key signs, its public key verifies. */
  ghost predicate SigningIsSound(k: Crypto) {
    forall seed: Key, m: Bytes ::
      && |k.sign(seed, m)| == SIGNATURE_LEN
      && k.validSignature(k.sign(seed, m))
      && k.validPoint(k.publicKey(seed))
      && k.verifyStrict(k.publicKey(seed), m, k.sign(seed, m))
  }

  datatype MobileError = InvalidKey | BadFrame(cause: FrameError) | VerifyFailed | SignFailed

  /** The challenge `run_challenge` builds: empty payload, tagged under the bond key. */
  function ChallengeFrame(k: Crypto, bondKey: Key, nonce: Nonce): Frame {
    Frame(WIRE_VERSION, nonce, [], k.keyedHash(bondKey, ChallengeBody(nonce)))
  }

  function ChallengeBody(nonce: Nonce): (body: Bytes)
    ensures |body| == HEADER_LEN
  {
    [WIRE_VERSION] + nonce
  }

  function ChallengeBytes(k: Crypto, bondKey: Key, nonce: Nonce): Bytes {
    Encode(ChallengeFrame(k, bondKey, nonce)).value
  }

  function VerifyChallengeFrame(k: Crypto, bondKey: Bytes, frameBytes: Bytes): Result<Bytes, MobileError> {
    if |bondKey| != KEY_LEN then Err(InvalidKey)
    else
      match Decode(frameBytes)
      case Err(e) => Err(BadFrame(e))
      case Ok(frame) =>
        match BodyBytes(frame)
        case Err(e) => Err(BadFrame(e))
        case Ok(body) =>
          if k.keyedHash(bondKey, body) == frame.tag then Ok(frame.payload) else Err(VerifyFailed)
  }

  function SignChallengeResponse(k: Crypto, signingKey: Bytes, frameBytes: Bytes): Result<Bytes, MobileError> {
    if |signingKey| != KEY_LEN then Err(InvalidKey)
    else
      match Decode(frameBytes)
      case Err(e) => Err(BadFrame(e))
      case Ok(frame) =>
        match BodyBytes(frame)
        case Err(_) => Err(SignFailed)
        case Ok(body) => Ok(k.sign(signingKey, body))
  }

  /** The framed response of the older path: the signature as payload of a fresh tagged frame.
      `signer` is the foreign callback, `responseNonce` the random response nonce. */
  function BuildResponseFrame(k: Crypto, bondKey: Bytes, signer: Bytes -> Bytes, responseNonce: Nonce, challenge: Bytes)
    : Result<Bytes, MobileError>
  {
    if |bondKey| != KEY_LEN then Err(InvalidKey)
    else
      match Decode(challenge)
      case Err(e) => Err(BadFrame(e))
      case Ok(frame) =>
        match BodyBytes(frame)
        case Err(e) => Err(BadFrame(e))
        case Ok(body) =>
          var sig := signer(body);
          if |sig| != SIGNATURE_LEN then Err(SignFailed)
          else
            var tag := k.keyedHash(bondKey, [WIRE_VERSION] + responseNonce + sig);
            match Encode(Frame(WIRE_VERSION, responseNonce, sig, tag))
            case Err(_) => Err(SignFailed)
            case Ok(bytes) => Ok(bytes)
  }

  /** The daemon's `parse_signature`: raw 64-byte responses only. */
  function ParseSignature(k: Crypto, response: Bytes): Option<Bytes> {
    if |response| == SIGNATURE_LEN && k.validSignature(response) then Some(response) else None
  }

  /** The challenge always encodes, decodes to itself, and its body is `1 || nonce`. */
  lemma ChallengeEncodes(k: Crypto, bondKey: Key, nonce: Nonce)
    ensures BodyBytes(ChallengeFrame(k, bondKey, nonce)) == Ok(ChallengeBody(nonce))
    ensures Encode(ChallengeFrame(k, bondKey, nonce)) == Ok(ChallengeBytes(k, bondKey, nonce))
    ensures Decode(ChallengeBytes(k, bondKey, nonce)) == Ok(ChallengeFrame(k, bondKey, nonce))
  {
    DecodeInvertsEncode(ChallengeFrame(k, bondKey, nonce));
    assert [WIRE_VERSION] + nonce + [] == ChallengeBody(nonce);
  }

  // ---- every answer of the phone ------------------------------------------------------------------

  /** The input is a frame: 33 to 4129 bytes, the first of which is 1. */
  predicate IsFrame(x: Bytes) {
    33 <= |x| <= 4129 && x[0] == 1
  }

  /** The bytes before the tag, and the tag. */
  function Untagged(x: Bytes): Bytes
    requires IsFrame(x)
  {
    x[..|x| - 16]
  }

  lemma DecodedParts(x: Bytes)
    requires IsFrame(x)
    ensures Decode(x).Ok? && BodyBytes(Decode(x).value) == Ok(Untagged(x))
    ensures Decode(x).value.payload == x[17..|x| - 16] && Decode(x).value.tag == x[|x| - 16..]
  {
    DecodeDomain(x);
    var f := Decode(x).value;
    assert [f.version] + f.nonce + f.payload == Untagged(x);
  }

  /** The tag check, for every input: a key of 32 bytes, a frame, and its last 16 bytes the keyed hash of the
      bytes before them; the payload is handed out. */
  lemma VerifyDecides(k: Crypto, bondKey: Bytes, x: Bytes)
    ensures VerifyChallengeFrame(k, bondKey, x) ==
      if |bondKey| != 32 then Err(InvalidKey)
      else if !IsFrame(x) then Err(BadFrame(Decode(x).error))
      else if k.keyedHash(bondKey, Untagged(x)) == x[|x| - 16..] then Ok(x[17..|x| - 16])
      else Err(VerifyFailed)
  {
    DecodeDomain(x);
    if IsFrame(x) {
      DecodedParts(x);
    }
  }

  /** Signing, for every input: a key of 32 bytes and a frame; what is signed are the bytes before the tag,
      which is not checked here. */
  lemma SignDecides(k: Crypto, signingKey: Bytes, x: Bytes)
    ensures SignChallengeResponse(k, signingKey, x) ==
      if |signingKey| != 32 then Err(InvalidKey)
      else if !IsFrame(x) then Err(BadFrame(Decode(x).error))
      else Ok(k.sign(signingKey, Untagged(x)))
  {
    DecodeDomain(x);
    if IsFrame(x) {
      DecodedParts(x);
    }
  }

  /** The framed response, for every input: version, response nonce, signature, and the keyed hash of these. */
  lemma ResponseFrameDecides(k: Crypto, bondKey: Bytes, signer: Bytes -> Bytes, responseNonce: Nonce, x: Bytes)
    ensures BuildResponseFrame(k, bondKey, signer, responseNonce, x) ==
      if |bondKey| != 32 then Err(InvalidKey)
      else if !IsFrame(x) then Err(BadFrame(Decode(x).error))
      else if |signer(Untagged(x))| != 64 then Err(SignFailed)
      else
        var head := [1] + responseNonce + signer(Untagged(x));
        Ok(head + k.keyedHash(bondKey, head))
  {
    DecodeDomain(x);
    if IsFrame(x) {
      DecodedParts(x);
      if |bondKey| == 32 && |signer(Untagged(x))| == 64 {
        var sig := signer(Untagged(x));
        EncodeLayout(Frame(1, responseNonce, sig, k.keyedHash(bondKey, [1] + responseNonce + sig)));
      }
    }
  }

  /** Every challenge the daemon emits passes the phone's tag check, under the same bond key
      and under no other key whose hash of the body differs. */
  lemma PhoneAcceptsChallenge(k: Crypto, bondKey: Key, nonce: Nonce, phoneKey: Key)
    ensures VerifyChallengeFrame(k, phoneKey, ChallengeBytes(k, bondKey, nonce)) ==
            if k.keyedHash(phoneKey, ChallengeBody(nonce)) == k.keyedHash(bondKey, ChallengeBody(nonce))
            then Ok([]) else Err(VerifyFailed)
  {
    ChallengeEncodes(k, bondKey, nonce);
  }

  /** The phone signs exactly the bytes the daemon verifies, and the daemon can parse the result. */
  lemma PhoneSignsWhatDaemonVerifies(k: Crypto, bondKey: Key, nonce: Nonce, seed: Key)
    requires SigningIsSound(k)
    ensures var r := SignChallengeResponse(k, seed, ChallengeBytes(k, bondKey, nonce));
      && r == Ok(k.sign(seed, ChallengeBody(nonce)))
      && ParseSignature(k, r.value) == Some(r.value)
      && k.validPoint(k.publicKey(seed))
      && k.verifyStrict(k.publicKey(seed), ChallengeBody(nonce), r.value)
  {
    ChallengeEncodes(k, bondKey, nonce);
  }

  /** A framed response is 97 bytes long, so the daemon never parses it as a signature. */
  lemma FramedResponseIsNeverASignature(k: Crypto, bondKey: Bytes, signer: Bytes -> Bytes, responseNonce: Nonce,
                                        challenge: Bytes)
    ensures var r := BuildResponseFrame(k, bondKey, signer, responseNonce, challenge);
      r.Ok? ==> |r.value| == 97 && ParseSignature(k, r.value) == None
  {
  }

  /** A toy instance: the law of signing is satisfiable. */
  lemma SigningCanBeSound()
    ensures exists k: Crypto :: SigningIsSound(k)
  {
    var zeroTag: Tag := seq(TAG_LEN, _ => 0);
    var zeroSig: Bytes := seq(SIGNATURE_LEN, _ => 0);
    var k := Crypto((_, _) => zeroTag, s => s, (_, _) => zeroSig, _ => true, _ => true, (_, _, _) => true);
    assert SigningIsSound(k);
  }
}
