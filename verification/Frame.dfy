/** Wire frames (crates/syauth-core/src/frame.rs): `version || nonce || payload || tag`. */
module Frames {
  import opened Basics

  const WIRE_VERSION: byte := 1
  const HEADER_LEN: nat := 1 + NONCE_LEN
  const MIN_FRAME_LEN: nat := HEADER_LEN + TAG_LEN
  const MAX_PAYLOAD_LEN: nat := 4096

  datatype Frame = Frame(version: byte, nonce: Nonce, payload: Bytes, tag: Tag)

  datatype FrameError =
    | TooShort(needed: nat, got: nat)
    | BadVersion(found: byte)
    | BadLength

  /** `Frame::body_bytes`: the bytes that are both signed and tagged. */
  function BodyBytes(f: Frame): Result<Bytes, FrameError> {
    if |f.payload| > MAX_PAYLOAD_LEN then Err(BadLength)
    else Ok([f.version] + f.nonce + f.payload)
  }

  /** The bytes `Frame::encode` appends; the version byte is not checked there. */
  function Encode(f: Frame): Result<Bytes, FrameError> {
    if |f.payload| > MAX_PAYLOAD_LEN then Err(BadLength)
    else Ok([f.version] + f.nonce + f.payload + f.tag)
  }

  /** `Frame::decode`. */
  function Decode(input: Bytes): Result<Frame, FrameError> {
    if |input| < MIN_FRAME_LEN then Err(TooShort(MIN_FRAME_LEN, |input|))
    else if input[0] != WIRE_VERSION then Err(BadVersion(input[0]))
    else if |input| - MIN_FRAME_LEN > MAX_PAYLOAD_LEN then Err(BadLength)
    else
      var end := |input| - TAG_LEN;
      Ok(Frame(input[0], input[1..HEADER_LEN], input[HEADER_LEN..end], input[end..]))
  }

  /** Growable byte buffer (`Vec<u8>`) that `encode` appends to. */
  class Buffer {
    var data: Bytes

    constructor ()
      ensures data == []
    {
      data := [];
    }

    method Push(b: byte)
      modifies this
      ensures data == old(data) + [b]
    {
      data := data + [b];
    }

    method Extend(bs: Bytes)
      modifies this
      ensures data == old(data) + bs
    {
      data := data + bs;
    }
  }

  /** `Frame::encode`: appends the encoding, or reports the error with the buffer untouched. */
  method EncodeInto(f: Frame, buf: Buffer) returns (r: Result<(), FrameError>)
    modifies buf
    ensures r.Err? <==> Encode(f).Err?
    ensures r.Err? ==> r.error == Encode(f).error && buf.data == old(buf.data)
    ensures r.Ok? ==> buf.data == old(buf.data) + Encode(f).value
  {
    if |f.payload| > MAX_PAYLOAD_LEN {
      return Err(BadLength);
    }
    buf.Push(f.version);
    buf.Extend(f.nonce);
    buf.Extend(f.payload);
    buf.Extend(f.tag);
    return Ok(());
  }

  /** `Decode` accepts exactly the inputs of 33 to 4129 bytes whose version byte is 1. */
  lemma DecodeDomain(input: Bytes)
    ensures Decode(input).Ok? <==> 33 <= |input| <= 4129 && input[0] == 1
  {
  }

  /** What is reported for every other input: the length, then the version, then the payload's length. */
  lemma DecodeFailsWith(input: Bytes)
    ensures |input| < 33 ==> Decode(input) == Err(TooShort(33, |input|))
    ensures |input| >= 33 && input[0] != 1 ==> Decode(input) == Err(BadVersion(input[0]))
    ensures |input| > 4129 && input[0] == 1 ==> Decode(input) == Err(BadLength)
  {
  }

  /** Encodable are exactly the frames with at most 4096 bytes of payload; the fields stand at fixed offsets:
      version, 16 bytes of nonce, payload, 16 bytes of tag. */
  lemma EncodeLayout(f: Frame)
    ensures if |f.payload| > 4096 then Encode(f) == Err(BadLength) && BodyBytes(f) == Err(BadLength)
            else
              && Encode(f).Ok? && BodyBytes(f).Ok?
              && var (x, body, n) := (Encode(f).value, BodyBytes(f).value, 17 + |f.payload|);
                 && |x| == n + 16 && x[0] == f.version && x[1..17] == f.nonce && x[17..n] == f.payload
                 && x[n..] == f.tag && body == x[..n]
  {
  }

  /** Encoding then decoding is the identity exactly on encodable frames of version 1. */
  lemma DecodeInvertsEncode(f: Frame)
    requires Encode(f).Ok?
    ensures Decode(Encode(f).value) == Ok(f) <==> f.version == WIRE_VERSION
    ensures f.version != WIRE_VERSION ==> Decode(Encode(f).value) == Err(BadVersion(f.version))
  {
    var x := Encode(f).value;
    var end := |x| - TAG_LEN;
    assert x[0] == f.version;
    assert x[1..HEADER_LEN] == f.nonce;
    assert x[HEADER_LEN..end] == f.payload;
    assert x[end..] == f.tag;
  }

  /** Decoding then encoding gives back the very bytes, so no two inputs decode to one frame. */
  lemma EncodeInvertsDecode(input: Bytes)
    requires Decode(input).Ok?
    ensures Encode(Decode(input).value) == Ok(input)
  {
    var end := |input| - TAG_LEN;
    assert input == [input[0]] + input[1..HEADER_LEN] + input[HEADER_LEN..end] + input[end..];
  }

  /** The body is the encoding without its tag, and it determines version, nonce and payload. */
  lemma BodyDeterminesFrame(f: Frame, g: Frame)
    requires BodyBytes(f).Ok? && BodyBytes(f) == BodyBytes(g)
    ensures f.version == g.version && f.nonce == g.nonce && f.payload == g.payload
    ensures Encode(f).Ok? && Encode(f).value == BodyBytes(f).value + f.tag
  {
    var b, c := BodyBytes(f).value, BodyBytes(g).value;
    assert b[0] == f.version && c[0] == g.version;
    assert b[1..HEADER_LEN] == f.nonce && c[1..HEADER_LEN] == g.nonce;
    assert b[HEADER_LEN..] == f.payload && c[HEADER_LEN..] == g.payload;
  }
}
