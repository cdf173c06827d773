/** Shared vocabulary: bytes, fixed-width byte strings and the two wrapper types. */
module Basics {

  type byte = x: int | 0 <= x < 256

  type Bytes = seq<byte>

  const NONCE_LEN: nat := 16
  const TAG_LEN: nat := 16
  const KEY_LEN: nat := 32

  /** `[u8; NONCE_LEN]` of the frame layer. */
  type Nonce = n: Bytes | |n| == NONCE_LEN witness seq(NONCE_LEN, _ => 0)

  /** `[u8; TAG_LEN]` of the frame layer. */
  type Tag = t: Bytes | |t| == TAG_LEN witness seq(TAG_LEN, _ => 0)

  /** A 32-byte key: Ed25519 public key, Ed25519 seed or symmetric bond key. */
  type Key = k: Bytes | |k| == KEY_LEN witness seq(KEY_LEN, _ => 0)

  datatype Option<+T> = None | Some(value: T)

  datatype Result<+T, +E> = Ok(value: T) | Err(error: E)

  /** No element occurs at two positions. */
  ghost predicate Distinct<T(!new)>(s: seq<T>) {
    forall i, j :: 0 <= i < j < |s| ==> s[i] != s[j]
  }

  /** The last `n` elements of `s`, or all of it when it is shorter. */
  function LastN<T>(s: seq<T>, n: nat): (r: seq<T>)
    ensures |r| == if |s| <= n then |s| else n
    ensures forall i :: 0 <= i < |r| ==> r[i] == s[|s| - |r| + i]
  {
    if |s| <= n then s else s[|s| - n..]
  }
}
