/** Length-prefixed RPC frames over a byte stream (crates/syauth-presenced/src/rpc.rs).
    CBOR is a parameter: an encoder that may refuse and a decoder. */
module Rpc {
  import opened Basics

  const MAX_FRAME_LEN: nat := 64 * 1024
  const LENGTH_PREFIX_BYTES: nat := 4

  datatype Codec<!T> = Codec(enc: T -> Option<Bytes>, dec: Bytes -> Option<T>)

  /** The only law used of CBOR: decoding what was encoded gives the value back. */
  ghost predicate Lossless<T(!new)>(codec: Codec<T>) {
    forall v: T :: codec.enc(v).Some? ==> codec.dec(codec.enc(v).value) == Some(v)
  }

  datatype RpcError = Io | DecodeFailed | EncodeFailed | TooLarge(len: nat)

  /** `u32::to_be_bytes`. */
  function BigEndian(n: nat): (r: Bytes)
    requires n < 0x1_0000_0000
    ensures |r| == LENGTH_PREFIX_BYTES
  {
    [n / 0x100_0000, n / 0x1_0000 % 0x100, n / 0x100 % 0x100, n % 0x100]
  }

  /** `u32::from_be_bytes`. */
  function FromBigEndian(b: Bytes): (n: nat)
    requires |b| == LENGTH_PREFIX_BYTES
    ensures n < 0x1_0000_0000
  {
    (b[0] as int) * 0x100_0000 + (b[1] as int) * 0x1_0000 + (b[2] as int) * 0x100 + b[3] as int
  }

  lemma BigEndianRoundTrip(n: nat)
    requires n < 0x1_0000_0000
    ensures FromBigEndian(BigEndian(n)) == n
  {
    var a := n / 0x100;
    var b := a / 0x100;
    assert n / 0x1_0000 == b && n / 0x100_0000 == b / 0x100;
  }

  /** `encode_frame`. */
  function EncodeFrame<T>(codec: Codec<T>, v: T): Result<Bytes, RpcError> {
    match codec.enc(v)
    case None => Err(EncodeFailed)
    case Some(payload) =>
      if |payload| > MAX_FRAME_LEN then Err(TooLarge(|payload|))
      else Ok(BigEndian(|payload|) + payload)
  }

  /** `decode_frame`, the payload only. */
  function DecodeFrame<T>(codec: Codec<T>, payload: Bytes): Result<T, RpcError> {
    if |payload| > MAX_FRAME_LEN then Err(TooLarge(|payload|))
    else
      match codec.dec(payload)
      case Some(v) => Ok(v)
      case None => Err(DecodeFailed)
  }

  /** What one read returns and leaves: a short stream is read to its end. */
  function ReadResult<T>(codec: Codec<T>, data: Bytes): (Result<T, RpcError>, Bytes) {
    if |data| < LENGTH_PREFIX_BYTES then (Err(Io), [])
    else
      var len := FromBigEndian(data[..LENGTH_PREFIX_BYTES]);
      var body := data[LENGTH_PREFIX_BYTES..];
      if len > MAX_FRAME_LEN then (Err(TooLarge(len)), body)
      else if |body| < len then (Err(Io), [])
      else (DecodeFrame(codec, body[..len]), body[len..])
  }

  /** How a write may fail: after `taken` bytes, or with all of them and a failing flush. */
  datatype WriteFault = NoFault | Stops(taken: nat)

  /** The bytes that reach the stream. */
  function Taken(bytes: Bytes, fault: WriteFault): (r: Bytes)
    ensures r <= bytes && (fault.NoFault? ==> r == bytes)
    ensures fault.Stops? ==> |r| == if fault.taken < |bytes| then fault.taken else |bytes|
  {
    if fault.NoFault? || fault.taken >= |bytes| then bytes else bytes[..fault.taken]
  }

  /** A connection. */
  class Stream {
    var data: Bytes

    constructor (initial: Bytes)
      ensures data == initial
    {
      data := initial;
    }

    /** `read_exact`: all of `n` bytes, or end of stream with everything consumed. */
    method ReadExact(n: nat) returns (r: Option<Bytes>)
      modifies this
      ensures n <= |old(data)| ==> r == Some(old(data)[..n]) && data == old(data)[n..]
      ensures n > |old(data)| ==> r == None && data == []
    {
      if n <= |data| {
        r := Some(data[..n]);
        data := data[n..];
      } else {
        r := None;
        data := [];
      }
    }

    /** `write_all` then `flush`; a fault stops the write after some bytes, or fails the flush. */
    method WriteAll(bytes: Bytes, fault: WriteFault) returns (ok: bool)
      modifies this
      ensures data == old(data) + Taken(bytes, fault) && (ok <==> fault.NoFault?)
    {
      data := data + Taken(bytes, fault);
      return fault.NoFault?;
    }
  }

  /** `read_frame_blocking`, and `read_frame` alike: the cap is checked before the payload is read. */
  method ReadFrame<T>(codec: Codec<T>, s: Stream) returns (r: Result<T, RpcError>)
    modifies s
    ensures (r, s.data) == ReadResult(codec, old(s.data))
  {
    var prefix := s.ReadExact(LENGTH_PREFIX_BYTES);
    if prefix.None? {
      return Err(Io);
    }
    var len := FromBigEndian(prefix.value);
    if len > MAX_FRAME_LEN {
      return Err(TooLarge(len));
    }
    var payload := s.ReadExact(len);
    if payload.None? {
      return Err(Io);
    }
    r := DecodeFrame(codec, payload.value);
  }

  /** `write_frame_blocking`: nothing is written when the value does not encode; a fault of the stream
      leaves a part of the frame, which may be all of it. */
  method WriteFrame<T>(codec: Codec<T>, s: Stream, v: T, fault: WriteFault) returns (r: Result<(), RpcError>)
    modifies s
    ensures r.Ok? <==> EncodeFrame(codec, v).Ok? && fault.NoFault?
    ensures EncodeFrame(codec, v).Err? ==> r.Err? && r.error == EncodeFrame(codec, v).error && s.data == old(s.data)
    ensures EncodeFrame(codec, v).Ok? ==> s.data == old(s.data) + Taken(EncodeFrame(codec, v).value, fault)
    ensures EncodeFrame(codec, v).Ok? && !fault.NoFault? ==> r == Err(Io)
  {
    match EncodeFrame(codec, v)
    case Err(e) => r := Err(e);
    case Ok(bytes) =>
      var ok := s.WriteAll(bytes, fault);
      r := if ok then Ok(()) else Err(Io);
  }

  /** The prefix is most significant byte first. */
  lemma PrefixOrder(w: nat, x: nat, y: nat, z: nat)
    requires w < 256 && x < 256 && y < 256 && z < 256
    ensures FromBigEndian([w, x, y, z]) == 256 * (256 * (256 * w + x) + y) + z
  {
  }

  /** What is written, for every value: four bytes of length and the payload, unless the value does not
      encode or takes more than 64 KiB. */
  lemma EncodeDecides<T>(codec: Codec<T>, v: T)
    ensures EncodeFrame(codec, v) ==
      if codec.enc(v).None? then Err(EncodeFailed)
      else
        var payload := codec.enc(v).value;
        if |payload| > 65536 then Err(TooLarge(|payload|))
        else Ok([0, |payload| / 65536, |payload| / 256 % 256, |payload| % 256] + payload)
  {
  }

  /** Reading a written frame returns the value and leaves exactly what followed it. */
  lemma ReadInvertsWrite<T(!new)>(codec: Codec<T>, v: T, rest: Bytes)
    requires Lossless(codec) && EncodeFrame(codec, v).Ok?
    ensures ReadResult(codec, EncodeFrame(codec, v).value + rest) == (Ok(v), rest)
  {
    var payload := codec.enc(v).value;
    var data := BigEndian(|payload|) + payload + rest;
    BigEndianRoundTrip(|payload|);
    assert data[..LENGTH_PREFIX_BYTES] == BigEndian(|payload|);
    assert data[LENGTH_PREFIX_BYTES..] == payload + rest;
    assert (payload + rest)[..|payload|] == payload && (payload + rest)[|payload|..] == rest;
  }

  /** How much one read takes: the whole frame, the prefix alone when it announces more than
      the cap, everything when the stream ends too early. */
  lemma ReadConsumes<T>(codec: Codec<T>, data: Bytes)
    ensures var (r, rest) := ReadResult(codec, data);
      if |data| < 4 then r == Err(Io) && rest == []
      else
        var len := FromBigEndian(data[..4]);
        if len > 64 * 1024 then r == Err(TooLarge(len)) && data == data[..4] + rest
        else if |data| < 4 + len then r == Err(Io) && rest == []
        else
          && data == data[..4 + len] + rest
          && r == match codec.dec(data[4..4 + len]) case Some(v) => Ok(v) case None => Err(DecodeFailed)
  {
    if |data| >= 4 {
      var len := FromBigEndian(data[..4]);
      if len <= 64 * 1024 && |data| >= 4 + len {
        assert data[4..][..len] == data[4..4 + len];
        assert data[4..][len..] == data[4 + len..];
      }
    }
  }

  /** A frame that was cut short is never taken for a message: the reader meets the end of the stream. */
  lemma TornFrameIsRefused<T(!new)>(codec: Codec<T>, v: T, fault: WriteFault)
    requires EncodeFrame(codec, v).Ok? && Taken(EncodeFrame(codec, v).value, fault) != EncodeFrame(codec, v).value
    ensures ReadResult(codec, Taken(EncodeFrame(codec, v).value, fault)) == (Err(Io), [])
  {
    var payload := codec.enc(v).value;
    var frame := EncodeFrame(codec, v).value;
    var torn := Taken(frame, fault);
    if |torn| >= LENGTH_PREFIX_BYTES {
      assert torn[..LENGTH_PREFIX_BYTES] == frame[..LENGTH_PREFIX_BYTES] == BigEndian(|payload|);
      BigEndianRoundTrip(|payload|);
    }
  }

  /** The bytes of a sequence of frames written one after the other. */
  function Written<T>(codec: Codec<T>, vs: seq<T>): Bytes
    requires forall v :: v in vs ==> EncodeFrame(codec, v).Ok?
  {
    if vs == [] then [] else EncodeFrame(codec, vs[0]).value + Written(codec, vs[1..])
  }

  /** `n` successive reads: the values, and what is left. */
  function ReadMany<T>(codec: Codec<T>, data: Bytes, n: nat): (seq<Result<T, RpcError>>, Bytes)
    decreases n
  {
    if n == 0 then ([], data)
    else
      var (r, rest) := ReadResult(codec, data);
      var (rs, left) := ReadMany(codec, rest, n - 1);
      ([r] + rs, left)
  }

  /** Any sequence of encodable messages is read back in order, whatever follows it. */
  lemma {:induction false} StreamRoundTrip<T(!new)>(codec: Codec<T>, vs: seq<T>, rest: Bytes)
    requires Lossless(codec) && forall v :: v in vs ==> EncodeFrame(codec, v).Ok?
    ensures var (rs, left) := ReadMany(codec, Written(codec, vs) + rest, |vs|);
      && left == rest && |rs| == |vs| && forall i :: 0 <= i < |vs| ==> rs[i] == Ok(vs[i])
  {
    if vs == [] {
      assert [] + rest == rest;
    } else {
      var tail := Written(codec, vs[1..]) + rest;
      assert Written(codec, vs) + rest == EncodeFrame(codec, vs[0]).value + tail;
      ReadInvertsWrite(codec, vs[0], tail);
      StreamRoundTrip(codec, vs[1..], rest);
    }
  }
}
