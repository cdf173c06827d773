/** Public keys as hex text (crates/syauth-core/src/bond.rs, `hex_lowercase` and `hex_pubkey`).
    A text is given by its UTF-8 bytes. */
module Hex {
  import opened Basics

  const PLUS: byte := 43

  function Digit(n: nat): (c: byte)
    requires n < 16
  {
    if n < 10 then 48 + n else 87 + n
  }

  /** `char::to_digit(16)`. */
  function Value(c: byte): (r: Option<nat>)
    ensures r.Some? ==> r.value < 16
  {
    if 48 <= c <= 57 then Some(c - 48)
    else if 97 <= c <= 102 then Some(c - 87)
    else if 65 <= c <= 70 then Some(c - 55)
    else None
  }

  /** The two digits of one byte, high half first. */
  function Pair(b: byte): (r: Bytes)
    ensures |r| == 2
  {
    [Digit(b / 16), Digit(b % 16)]
  }

  function Encode(bytes: Bytes): (r: Bytes)
    ensures |r| == 2 * |bytes|
  {
    if bytes == [] then [] else Encode(bytes[..|bytes| - 1]) + Pair(bytes[|bytes| - 1])
  }

  lemma {:induction false} EncodeAt(bytes: Bytes, i: nat)
    requires i < |bytes|
    ensures Encode(bytes)[2 * i] == Digit(bytes[i] / 16) && Encode(bytes)[2 * i + 1] == Digit(bytes[i] % 16)
  {
    var n := |bytes| - 1;
    if i < n {
      EncodeAt(bytes[..n], i);
    }
  }

  /** `hex_lowercase`: digit `2 * i` is the high half of byte `i`, digit `2 * i + 1` the low half. */
  method HexLowercase(bytes: Bytes) returns (out: Bytes)
    ensures out == Encode(bytes)
    ensures forall i :: 0 <= i < |bytes| ==>
      out[2 * i] == Digit(bytes[i] / 16) && out[2 * i + 1] == Digit(bytes[i] % 16)
  {
    out := [];
    var i := 0;
    while i < |bytes|
      invariant 0 <= i <= |bytes| && out == Encode(bytes[..i])
    {
      var b := bytes[i];
      assert bytes[..i + 1][..i] == bytes[..i];
      out := out + [Digit(b / 16)];
      out := out + [Digit(b % 16)];
      assert out == Encode(bytes[..i]) + Pair(b);
      i := i + 1;
    }
    assert bytes[..i] == bytes;
    forall j | 0 <= j < |bytes| ensures out[2 * j] == Digit(bytes[j] / 16) && out[2 * j + 1] == Digit(bytes[j] % 16) {
      EncodeAt(bytes, j);
    }
  }

  /** `u8::from_str_radix(_, 16)` on a two-byte slice: one leading plus sign is skipped. */
  function FromRadix(c: byte, d: byte): (r: Option<byte>) {
    if c == PLUS then
      (match Value(d) case Some(v) => Some(v) case None => None)
    else
      match (Value(c), Value(d))
      case (Some(h), Some(l)) => Some(16 * h + l)
      case _ => None
  }

  /** `Abort` is the panic of a string slice that would cut a character. */
  datatype Outcome = Decoded(key: Bytes) | BadLength | BadDigit(at: nat) | Abort(at: nat)

  /** `str::is_char_boundary` inside the text: not a UTF-8 continuation byte. */
  predicate CharBoundary(raw: Bytes, i: nat) {
    i == |raw| || (i < |raw| && !Continuation(raw[i]))
  }

  function DecodeFrom(raw: Bytes, i: nat, sofar: Bytes): (r: Outcome)
    requires 2 * i <= |raw| && |raw| % 2 == 0
    decreases |raw| - 2 * i
  {
    if 2 * i == |raw| then Decoded(sofar)
    else if !CharBoundary(raw, 2 * i) || !CharBoundary(raw, 2 * i + 2) then Abort(i)
    else
      match FromRadix(raw[2 * i], raw[2 * i + 1])
      case None => BadDigit(i)
      case Some(b) => DecodeFrom(raw, i + 1, sofar + [b])
  }

  function Decode(raw: Bytes): Outcome {
    if |raw| != 2 * KEY_LEN then BadLength else DecodeFrom(raw, 0, [])
  }

  /** `hex_pubkey::deserialize`. */
  method HexPubkey(raw: Bytes) returns (r: Outcome)
    ensures r == Decode(raw)
  {
    if |raw| != 2 * KEY_LEN {
      return BadLength;
    }
    var out: Bytes := [];
    var i := 0;
    while i < KEY_LEN
      invariant 0 <= i <= KEY_LEN && Decode(raw) == DecodeFrom(raw, i, out)
    {
      if !CharBoundary(raw, 2 * i) || !CharBoundary(raw, 2 * i + 2) {
        return Abort(i);
      }
      match FromRadix(raw[2 * i], raw[2 * i + 1]) {
        case None => return BadDigit(i);
        case Some(b) => out := out + [b];
      }
      i := i + 1;
    }
    return Decoded(out);
  }

  // ---- digits and errors ------------------------------------------------------------------------

  /** Byte `c` is a hexadecimal digit of value `v`, in either case. */
  predicate DigitFor(c: byte, v: nat) {
    v < 16 && (c as char == "0123456789abcdef"[v] || c as char == "0123456789ABCDEF"[v])
  }

  lemma ValueIff(c: byte, v: nat)
    ensures Value(c) == Some(v) <==> DigitFor(c, v)
  {
  }

  lemma WrittenDigit(v: nat)
    requires v < 16
    ensures Digit(v) as char == "0123456789abcdef"[v]
  {
  }

  /** Two bytes read as one number: two digits, or a plus sign and one digit. */
  lemma PairReadsIff(c: byte, d: byte, b: byte)
    ensures FromRadix(c, d) == Some(b) <==>
      if c as char == '+' then DigitFor(d, b) else DigitFor(c, b / 16) && DigitFor(d, b % 16)
  {
    PairValues(c, d, b);
    ValueIff(c, b / 16);
    ValueIff(d, b % 16);
    ValueIff(d, b);
  }

  lemma PairValues(c: byte, d: byte, b: byte)
    ensures FromRadix(c, d) == Some(b) <==>
      if c == PLUS then Value(d) == Some(b) else Value(c) == Some(b / 16) && Value(d) == Some(b % 16)
  {
  }

  /** Both ends of pair `j` are between two characters. */
  predicate OnCharacters(raw: Bytes, j: nat) {
    && 2 * j + 2 <= |raw| && (raw[2 * j] < 128 || raw[2 * j] >= 192)
    && (2 * j + 2 < |raw| ==> raw[2 * j + 2] < 128 || raw[2 * j + 2] >= 192)
  }

  /** Pair `j` is the first that is not read. */
  predicate StopsAt(raw: Bytes, j: nat) {
    && 2 * j + 2 <= |raw| && !(OnCharacters(raw, j) && ReadsAt(raw, j))
    && forall k: nat :: k < j ==> OnCharacters(raw, k) && ReadsAt(raw, k)
  }

  lemma {:induction false} DecodeFromStops(raw: Bytes, i: nat, sofar: Bytes, j: nat)
    requires |raw| % 2 == 0 && i <= j && StopsAt(raw, j)
    ensures DecodeFrom(raw, i, sofar) == if OnCharacters(raw, j) then BadDigit(j) else Abort(j)
    decreases j - i
  {
    if i < j {
      assert OnCharacters(raw, i) && ReadsAt(raw, i);
      DecodeFromStops(raw, i + 1, sofar + [FromRadix(raw[2 * i], raw[2 * i + 1]).value], j);
    }
  }

  /** A text that is no key is reported by its length, or by the first pair that is not read: as a bad digit,
      or by an abort when the pair cuts a character. */
  lemma DecodeFailsWith(raw: Bytes, j: nat)
    ensures |raw| != 64 ==> Decode(raw) == BadLength
    ensures |raw| == 64 && StopsAt(raw, j) ==> Decode(raw) == if OnCharacters(raw, j) then BadDigit(j) else Abort(j)
  {
    if |raw| == 64 && StopsAt(raw, j) {
      DecodeFromStops(raw, 0, [], j);
    }
  }

  // ---- what decoding means ----------------------------------------------------------------------

  predicate PairIs(raw: Bytes, i: nat, b: byte) {
    2 * i + 2 <= |raw| && FromRadix(raw[2 * i], raw[2 * i + 1]) == Some(b)
  }

  /** A successful decode reads byte `i` of the key off the `i`-th pair, for every pair. */
  lemma {:induction false} DecodedReadsPairs(raw: Bytes, i: nat, sofar: Bytes)
    requires 2 * i <= |raw| && |raw| % 2 == 0 && |sofar| == i
    ensures var r := DecodeFrom(raw, i, sofar);
      r.Decoded? ==>
        && 2 * |r.key| == |raw| && r.key[..i] == sofar
        && forall j: nat :: i <= j < |r.key| ==> PairIs(raw, j, r.key[j])
    decreases |raw| - 2 * i
  {
    if 2 * i < |raw| && CharBoundary(raw, 2 * i) && CharBoundary(raw, 2 * i + 2) {
      match FromRadix(raw[2 * i], raw[2 * i + 1]) {
        case None =>
        case Some(b) =>
          DecodedReadsPairs(raw, i + 1, sofar + [b]);
          var r := DecodeFrom(raw, i + 1, sofar + [b]);
          if r.Decoded? {
            assert r.key[..i] == r.key[..i + 1][..i] == sofar;
            assert r.key[i] == r.key[..i + 1][i] == b;
          }
      }
    }
  }

  /** If every pair reads as a byte, the decode succeeds: such texts are plain ASCII. */
  lemma {:induction false} PairsDecode(raw: Bytes, key: Bytes, i: nat)
    requires |raw| == 2 * |key| && i <= |key| && forall j: nat :: j < |key| ==> PairIs(raw, j, key[j])
    ensures DecodeFrom(raw, i, key[..i]) == Decoded(key)
    decreases |key| - i
  {
    if i == |key| {
      assert key[..i] == key;
    } else {
      assert PairIs(raw, i, key[i]);
      assert i + 1 < |key| ==> PairIs(raw, i + 1, key[i + 1]);
      assert key[..i] + [key[i]] == key[..i + 1];
      PairsDecode(raw, key, i + 1);
    }
  }

  lemma DecodesIff(raw: Bytes, key: Bytes)
    requires |key| == KEY_LEN
    ensures Decode(raw) == Decoded(key) <==>
      |raw| == 2 * KEY_LEN && forall i: nat :: i < KEY_LEN ==> PairIs(raw, i, key[i])
  {
    if |raw| == 2 * KEY_LEN {
      DecodedReadsPairs(raw, 0, []);
      if forall i: nat :: i < KEY_LEN ==> PairIs(raw, i, key[i]) {
        PairsDecode(raw, key, 0);
        assert key[..0] == [];
      }
      if Decode(raw) == Decoded(key) {
        assert forall i: nat :: i < KEY_LEN ==> PairIs(raw, i, key[i]);
      }
    }
  }

  // ---- round trips ------------------------------------------------------------------------------

  lemma DigitsRead(b: byte)
    ensures FromRadix(Digit(b / 16), Digit(b % 16)) == Some(b)
  {
  }

  /** Reading what was written gives the key back. */
  lemma DecodeInvertsEncode(key: Bytes)
    requires |key| == KEY_LEN
    ensures Decode(Encode(key)) == Decoded(key)
  {
    forall i: nat | i < KEY_LEN ensures PairIs(Encode(key), i, key[i]) {
      EncodeAt(key, i);
      DigitsRead(key[i]);
    }
    DecodesIff(Encode(key), key);
  }

  /** A digit as `hex_lowercase` writes it. */
  predicate Canonical(c: byte) {
    48 <= c <= 57 || 97 <= c <= 102
  }

  lemma PairIsCanonical(c: byte, d: byte, b: byte)
    requires FromRadix(c, d) == Some(b)
    ensures [c, d] == Pair(b) <==> Canonical(c) && Canonical(d)
  {
  }

  lemma PairAgrees(raw: Bytes, key: Bytes, i: nat)
    requires i < |key| && |raw| == 2 * |key| && PairIs(raw, i, key[i])
    ensures Encode(key)[2 * i] == raw[2 * i] && Encode(key)[2 * i + 1] == raw[2 * i + 1]
       <==> Canonical(raw[2 * i]) && Canonical(raw[2 * i + 1])
  {
    EncodeAt(key, i);
    PairIsCanonical(raw[2 * i], raw[2 * i + 1], key[i]);
  }

  /** Writing what was read gives the text back exactly when the text was in lower-case digits. */
  lemma EncodeInvertsDecodeIff(raw: Bytes)
    requires Decode(raw).Decoded?
    ensures Encode(Decode(raw).key) == raw <==> forall i :: 0 <= i < |raw| ==> Canonical(raw[i])
  {
    var key := Decode(raw).key;
    DecodedReadsPairs(raw, 0, []);
    if Encode(key) == raw {
      forall i | 0 <= i < |raw| ensures Canonical(raw[i]) {
        assert i == 2 * (i / 2) || i == 2 * (i / 2) + 1;
        PairAgrees(raw, key, i / 2);
      }
    }
    if forall i :: 0 <= i < |raw| ==> Canonical(raw[i]) {
      forall i | 0 <= i < |raw| ensures Encode(key)[i] == raw[i] {
        assert i == 2 * (i / 2) || i == 2 * (i / 2) + 1;
        PairAgrees(raw, key, i / 2);
      }
    }
  }

  /** Every key below 16 in its first byte has a second spelling, with a plus sign. */
  lemma PlusSpelling(key: Bytes)
    requires |key| == KEY_LEN && key[0] < 16
    ensures var raw := [PLUS] + Encode(key)[1..]; raw != Encode(key) && Decode(raw) == Decoded(key)
  {
    var raw := [PLUS] + Encode(key)[1..];
    EncodeAt(key, 0);
    forall i: nat | i < KEY_LEN ensures PairIs(raw, i, key[i]) {
      EncodeAt(key, i);
      DigitsRead(key[i]);
      assert i > 0 ==> raw[2 * i] == Encode(key)[2 * i];
      assert raw[2 * i + 1] == Encode(key)[2 * i + 1];
    }
    DecodesIff(raw, key);
  }

  // ---- texts that abort the slice ---------------------------------------------------------------

  predicate Continuation(b: byte) {
    128 <= b < 192
  }

  /** The length of the well-formed byte sequence of one character at the start of `s`, by section 4 of
      RFC 3629; zero if there is none. */
  function CharLength(s: Bytes): (n: nat)
    ensures n <= |s|
    ensures forall i :: 0 < i < n ==> Continuation(s[i]) && s[0] >= 128
    ensures n > 0 ==> !Continuation(s[0])
  {
    if |s| >= 1 && s[0] < 128 then 1
    else if |s| >= 2 && 0xC2 <= s[0] <= 0xDF && Continuation(s[1]) then 2
    else if |s| >= 3 && ThreeBytes(s[0], s[1]) && Continuation(s[2]) then 3
    else if |s| >= 4 && FourBytes(s[0], s[1]) && Continuation(s[2]) && Continuation(s[3]) then 4
    else 0
  }

  predicate ThreeBytes(a: byte, b: byte) {
    || (a == 0xE0 && 0xA0 <= b <= 0xBF) || (0xE1 <= a <= 0xEC && Continuation(b))
    || (a == 0xED && 0x80 <= b <= 0x9F) || (0xEE <= a <= 0xEF && Continuation(b))
  }

  predicate FourBytes(a: byte, b: byte) {
    || (a == 0xF0 && 0x90 <= b <= 0xBF) || (0xF1 <= a <= 0xF3 && Continuation(b))
    || (a == 0xF4 && 0x80 <= b <= 0x8F)
  }

  /** The bytes of some `String`. */
  predicate Utf8(s: Bytes) {
    s == [] || (CharLength(s) > 0 && Utf8(s[CharLength(s)..]))
  }

  /** In a text a continuation byte follows a byte of its own character, never an ASCII one. */
  lemma {:induction false} ContinuationFollows(s: Bytes, i: nat)
    requires Utf8(s) && i < |s| && Continuation(s[i])
    ensures i > 0 && s[i - 1] >= 128
    decreases |s|
  {
    var n := CharLength(s);
    if i >= n {
      ContinuationFollows(s[n..], i - n);
      assert s[n..][i - n - 1] == s[i - 1];
    }
  }

  lemma {:induction false} AsciiIsUtf8(s: Bytes)
    requires forall i :: 0 <= i < |s| ==> s[i] < 128
    ensures Utf8(s)
    decreases |s|
  {
    if s != [] {
      AsciiIsUtf8(s[1..]);
    }
  }

  predicate ReadsAt(raw: Bytes, k: nat) {
    2 * k + 2 <= |raw| && FromRadix(raw[2 * k], raw[2 * k + 1]).Some?
  }

  /** Pair `j` ends inside a character, and every pair before it reads as a byte. */
  predicate CutsAt(raw: Bytes, j: nat) {
    2 * j + 2 < |raw| && Continuation(raw[2 * j + 2]) && forall k: nat :: k < j ==> ReadsAt(raw, k)
  }

  /** A pair that reads is ASCII, so the next one starts on a character. */
  lemma PairsStartOnCharacters(raw: Bytes, j: nat)
    requires Utf8(raw) && 2 * j < |raw| && forall k: nat :: k < j ==> ReadsAt(raw, k)
    ensures CharBoundary(raw, 2 * j)
  {
    assert j > 0 ==> ReadsAt(raw, j - 1);
    if Continuation(raw[2 * j]) {
      ContinuationFollows(raw, 2 * j);
      assert false;
    }
  }

  lemma {:induction false} AbortsFromIff(raw: Bytes, i: nat, sofar: Bytes)
    requires Utf8(raw) && 2 * i <= |raw| && |raw| % 2 == 0 && forall k: nat :: k < i ==> ReadsAt(raw, k)
    ensures DecodeFrom(raw, i, sofar).Abort? <==> exists j: nat :: i <= j && CutsAt(raw, j)
    decreases |raw| - 2 * i
  {
    if 2 * i < |raw| {
      PairsStartOnCharacters(raw, i);
      if CharBoundary(raw, 2 * i + 2) && ReadsAt(raw, i) {
        var b := FromRadix(raw[2 * i], raw[2 * i + 1]).value;
        AbortsFromIff(raw, i + 1, sofar + [b]);
        assert !CutsAt(raw, i);
      } else if !CharBoundary(raw, 2 * i + 2) {
        assert CutsAt(raw, i);
      } else {
        assert forall j: nat :: i < j ==> !CutsAt(raw, j);
        assert !CutsAt(raw, i);
      }
    }
  }

  /** For every text: reading it as a key aborts, instead of reporting an error, if and only if it has
      the right length and, after pairs that read, a pair ends inside a character. */
  lemma AbortsIff(raw: Bytes)
    requires Utf8(raw)
    ensures Decode(raw).Abort? <==> |raw| == 2 * KEY_LEN && exists j: nat :: CutsAt(raw, j)
  {
    if |raw| == 2 * KEY_LEN {
      AbortsFromIff(raw, 0, []);
    }
  }

  /** Such texts exist: a digit, one two-byte character, and digits up to the right length. */
  lemma SomeTextAborts(digits: Bytes)
    requires |digits| == 2 * KEY_LEN - 3 && forall i :: 0 <= i < |digits| ==> 48 <= digits[i] <= 57
    ensures var raw := [48, 0xC3, 0xA9] + digits; Utf8(raw) && Decode(raw) == Abort(0)
  {
    var raw: Bytes := [48, 0xC3, 0xA9] + digits;
    AsciiIsUtf8(digits);
    assert raw[1..][2..] == digits;
    assert CharLength(raw[1..]) == 2;
    assert CharLength(raw) == 1;
    assert !CharBoundary(raw, 2);
  }
}
