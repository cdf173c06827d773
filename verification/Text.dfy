/** Characters and positions in a text, a text being a sequence of Unicode scalar values. */
module Text {

  /** The Unicode White_Space property: `char::is_whitespace` and `\s`. */
  predicate IsSpace(c: char) {
    || '\U{9}' <= c <= '\U{D}' || c == ' ' || c == '\U{85}' || c == '\U{A0}' || c == '\U{1680}'
    || '\U{2000}' <= c <= '\U{200A}' || c == '\U{2028}' || c == '\U{2029}' || c == '\U{202F}'
    || c == '\U{205F}' || c == '\U{3000}'
  }

  /** The code points of the class. */
  lemma SpacesAre(c: char)
    ensures IsSpace(c) <==>
      var n := c as int;
      || 9 <= n <= 13 || n == 32 || n == 133 || n == 160 || n == 5760 || 8192 <= n <= 8202
      || n == 8232 || n == 8233 || n == 8239 || n == 8287 || n == 12288
  {
  }

  predicate Blank(s: string, i: nat, j: nat) {
    i <= j <= |s| && forall k | i <= k < j :: IsSpace(s[k])
  }

  predicate Solid(s: string, i: nat, j: nat) {
    i <= j <= |s| && forall k | i <= k < j :: !IsSpace(s[k])
  }

  /** `t` stands at position `i` of `s`. */
  predicate At(s: string, i: nat, t: string) {
    i + |t| <= |s| && forall k | 0 <= k < |t| :: t[k] == s[i + k]
  }

  function SkipSpaces(s: string, i: nat): (j: nat)
    requires i <= |s|
    ensures Blank(s, i, j) && (j < |s| ==> !IsSpace(s[j]))
    decreases |s| - i
  {
    if i == |s| || !IsSpace(s[i]) then i else SkipSpaces(s, i + 1)
  }

  function SkipWord(s: string, i: nat): (j: nat)
    requires i <= |s|
    ensures Solid(s, i, j) && (j < |s| ==> IsSpace(s[j]))
    decreases |s| - i
  {
    if i == |s| || IsSpace(s[i]) then i else SkipWord(s, i + 1)
  }

  /** `str::contains`. */
  predicate Mentions(s: string, t: string) {
    exists k: nat | k <= |s| :: At(s, k, t)
  }
}
