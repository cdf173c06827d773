/** Text of a PAM service file: lines, words, the two recognition rules and the two insertions of
    crates/syauth-cli/src/install_pam.rs. A text is a sequence of Unicode scalar values. */
module PamText {
  import opened Basics
  import opened Text

  const MODULE_TYPE := "auth"
  const FIELD_SEPARATOR := "    "
  const DEFAULT_SO_NAME := "pam_syauth.so"
  const U2F_SO_NAME := "pam_u2f.so"
  const U2F_FALLBACK_LINE := "auth    sufficient    pam_u2f.so cue"

  // ---- characters -------------------------------------------------------------------------------

  /** The `\w` class. `beyond` is its part outside ASCII, taken from the Unicode tables. */
  predicate IsWord(beyond: char -> bool, c: char) {
    if c < '\U{80}' then 'a' <= c <= 'z' || 'A' <= c <= 'Z' || '0' <= c <= '9' || c == '_' else beyond(c)
  }

  /** Among the first 128 characters letters, digits and the underscore; the tables decide on the others. */
  lemma WordsAre(beyond: char -> bool, c: char)
    ensures var n := c as int;
      IsWord(beyond, c) <==>
        if n < 128 then 48 <= n <= 57 || 65 <= n <= 90 || n == 95 || 97 <= n <= 122 else beyond(c)
  {
  }

  // ---- positions --------------------------------------------------------------------------------

  predicate LineStart(s: string, p: nat) {
    p <= |s| && (p == 0 || s[p - 1] == '\n')
  }

  /** The module type `auth` stands at position `a`. */
  predicate AuthAt(s: string, a: nat) {
    a + 4 <= |s| && s[a] == 'a' && s[a + 1] == 'u' && s[a + 2] == 't' && s[a + 3] == 'h'
  }

  /** `\b` at `i`, right after a word character. */
  predicate Boundary(beyond: char -> bool, s: string, i: nat) {
    i <= |s| && (i < |s| ==> !IsWord(beyond, s[i]))
  }

  /** `<so>\b` at `d`. */
  predicate WordAt(beyond: char -> bool, s: string, d: nat, so: string) {
    At(s, d, so) && Boundary(beyond, s, d + |so|)
  }

  /** The end of the line that starts at `i`, its newline included: one `split_inclusive` piece. */
  function LineEnd(s: string, i: nat): (e: nat)
    requires i <= |s|
    ensures i <= e <= |s| && (i < |s| ==> i < e)
    ensures forall k | i <= k < e - 1 :: s[k] != '\n'
    ensures e < |s| ==> i < e && s[e - 1] == '\n'
    decreases |s| - i
  {
    if i == |s| then i else if s[i] == '\n' then i + 1 else LineEnd(s, i + 1)
  }

  /** The start of the line that holds position `a`. */
  function LineOf(s: string, a: nat): (p: nat)
    requires a <= |s|
    ensures p <= a && LineStart(s, p)
    ensures forall k | p <= k < a :: s[k] != '\n'
  {
    if a == 0 || s[a - 1] == '\n' then a else LineOf(s, a - 1)
  }

  lemma LinesDoNotOverlap(s: string, p: nat, q: nat)
    requires LineStart(s, p) && LineStart(s, q) && p < q
    ensures LineEnd(s, p) <= q && s[LineEnd(s, p) - 1] == '\n'
  {
  }

  // ---- the recognition rule ---------------------------------------------------------------------

  /** From `a` on, the text matches `auth\s+\S+\s+<so>\b`, with its second word from `b` to `c` and
      the module name at `d`. */
  predicate PiecesAt(beyond: char -> bool, s: string, so: string, a: nat, b: nat, c: nat, d: nat) {
    && a + 4 < b < c < d <= |s| && AuthAt(s, a)
    && Blank(s, a + 4, b) && Solid(s, b, c) && Blank(s, c, d)
    && WordAt(beyond, s, d, so)
  }

  /** The same, for some way to place the pieces. */
  predicate FieldsAt(beyond: char -> bool, s: string, so: string, a: nat) {
    exists b: nat, c: nat, d: nat | a + 4 < b < c < d <= |s| :: PiecesAt(beyond, s, so, a, b, c, d)
  }

  /** `(?m)^\s*auth\s+\S+\s+<so>\b` matches somewhere in `s`; runs of blanks may span lines. */
  predicate Recognized(beyond: char -> bool, s: string, so: string) {
    exists p: nat, a: nat | p <= a <= |s| :: LineStart(s, p) && Blank(s, p, a) && FieldsAt(beyond, s, so, a)
  }

  /** One match: its line start, its `auth`, its second word from `word` to `wordEnd`, its module. */
  datatype Span = Span(line: nat, auth: nat, word: nat, wordEnd: nat, so: nat)

  predicate IsMatch(beyond: char -> bool, s: string, so: string, m: Span) {
    LineStart(s, m.line) && Blank(s, m.line, m.auth) && PiecesAt(beyond, s, so, m.auth, m.word, m.wordEnd, m.so)
  }

  lemma FindMatch(beyond: char -> bool, s: string, so: string) returns (m: Span)
    requires Recognized(beyond, s, so)
    ensures IsMatch(beyond, s, so, m)
  {
    var p: nat, a: nat :| p <= a <= |s| && LineStart(s, p) && Blank(s, p, a) && FieldsAt(beyond, s, so, a);
    var b: nat, c: nat, d: nat :| a + 4 < b < c < d <= |s| && PiecesAt(beyond, s, so, a, b, c, d);
    m := Span(p, a, b, c, d);
  }

  lemma MatchRecognizes(beyond: char -> bool, s: string, so: string, m: Span)
    requires IsMatch(beyond, s, so, m)
    ensures Recognized(beyond, s, so)
  {
    assert FieldsAt(beyond, s, so, m.auth);
  }

  lemma RecognizedIffMatched(beyond: char -> bool, s: string, so: string)
    ensures Recognized(beyond, s, so) <==> exists m :: IsMatch(beyond, s, so, m)
  {
    if Recognized(beyond, s, so) {
      var m := FindMatch(beyond, s, so);
    }
    if m :| IsMatch(beyond, s, so, m) {
      MatchRecognizes(beyond, s, so, m);
    }
  }

  /** The word that follows the word that follows `auth` starts with `so` as a whole word. */
  predicate ThirdWordIs(beyond: char -> bool, s: string, so: string, a: nat)
    requires a + 4 <= |s|
  {
    var b := SkipSpaces(s, a + 4);
    var c := SkipWord(s, b);
    var d := SkipSpaces(s, c);
    a + 4 < b < c < d && WordAt(beyond, s, d, so)
  }

  /** Blanks and words exclude each other, so the pattern has only one way to match from `a`: the
      existential of the regular expression is decided by cutting the text into words. */
  lemma MatchIsByWords(beyond: char -> bool, s: string, so: string, a: nat)
    requires |so| > 0 && !IsSpace(so[0])
    ensures FieldsAt(beyond, s, so, a) <==> AuthAt(s, a) && ThirdWordIs(beyond, s, so, a)
  {
    if FieldsAt(beyond, s, so, a) {
      MatchHasWords(beyond, s, so, a);
    }
    if AuthAt(s, a) && ThirdWordIs(beyond, s, so, a) {
      WordsMatch(beyond, s, so, a);
    }
  }

  lemma MatchHasWords(beyond: char -> bool, s: string, so: string, a: nat)
    requires |so| > 0 && !IsSpace(so[0]) && FieldsAt(beyond, s, so, a)
    ensures AuthAt(s, a) && ThirdWordIs(beyond, s, so, a)
  {
    var b: nat, c: nat, d: nat :| a + 4 < b < c < d <= |s| && PiecesAt(beyond, s, so, a, b, c, d);
    PiecesAreWords(beyond, s, so, a, b, c, d);
  }

  lemma WordsMatch(beyond: char -> bool, s: string, so: string, a: nat)
    requires AuthAt(s, a) && ThirdWordIs(beyond, s, so, a)
    ensures FieldsAt(beyond, s, so, a)
  {
    var b := SkipSpaces(s, a + 4);
    var c := SkipWord(s, b);
    assert PiecesAt(beyond, s, so, a, b, c, SkipSpaces(s, c));
  }

  lemma PiecesAreWords(beyond: char -> bool, s: string, so: string, a: nat, b: nat, c: nat, d: nat)
    requires |so| > 0 && !IsSpace(so[0]) && PiecesAt(beyond, s, so, a, b, c, d)
    ensures b == SkipSpaces(s, a + 4) && c == SkipWord(s, b) && d == SkipSpaces(s, c)
  {
    assert so[0] == s[d + 0];
    assert !IsSpace(s[b]) && IsSpace(s[c]) && !IsSpace(s[d]);
  }

  // ---- is_auth_directive and insert_line --------------------------------------------------------

  /** `is_auth_directive`: after its leading blanks the line reads `auth` and then a blank. */
  predicate IsAuthDirective(line: string) {
    var a := SkipSpaces(line, 0);
    AuthAt(line, a) && a + 4 < |line| && IsSpace(line[a + 4])
  }

  /** Blanks, the four letters, one blank, anything. */
  lemma AuthDirectiveIff(line: string)
    ensures IsAuthDirective(line) <==>
      exists x: string, c: char, y: string ::
        line == x + "auth" + [c] + y && IsSpace(c) && forall i :: 0 <= i < |x| ==> IsSpace(x[i])
  {
    var a := SkipSpaces(line, 0);
    if IsAuthDirective(line) {
      assert line == line[..a] + "auth" + [line[a + 4]] + line[a + 5..];
      assert forall i :: 0 <= i < |line[..a]| ==> IsSpace(line[..a][i]);
    }
    if x: string, c: char, y: string :|
      line == x + "auth" + [c] + y && IsSpace(c) && forall i :: 0 <= i < |x| ==> IsSpace(x[i])
    {
      assert forall i :: 0 <= i < |x| ==> line[i] == x[i];
      assert line[|x|] == 'a' && line[|x| + 1] == 'u' && line[|x| + 2] == 't' && line[|x| + 3] == 'h';
      assert line[|x| + 4] == c;
      assert a == |x|;
    }
  }

  /** The start of the first line from `i` on that is an `auth` directive. */
  function FirstAuth(s: string, i: nat): (r: Option<nat>)
    requires LineStart(s, i)
    ensures r.Some? ==> i <= r.value < |s| && LineStart(s, r.value)
    decreases |s| - i
  {
    if i == |s| then None
    else if IsAuthDirective(s[i..LineEnd(s, i)]) then Some(i)
    else if LineEnd(s, i) == |s| then None
    else FirstAuth(s, LineEnd(s, i))
  }

  lemma {:induction false} FirstAuthIsFirst(s: string, i: nat)
    requires LineStart(s, i)
    ensures var r := FirstAuth(s, i);
      && (r.Some? ==> IsAuthDirective(s[r.value..LineEnd(s, r.value)]))
      && forall k: nat | i <= k < (if r.Some? then r.value else |s|) && LineStart(s, k) ::
           !IsAuthDirective(s[k..LineEnd(s, k)])
    decreases |s| - i
  {
    if i < |s| && !IsAuthDirective(s[i..LineEnd(s, i)]) && LineEnd(s, i) < |s| {
      FirstAuthIsFirst(s, LineEnd(s, i));
    }
  }

  /** Where `insert_line` puts its line: before the first `auth` directive, else at the top. */
  function InsertAt(s: string): (i: nat)
    ensures i <= |s| && LineStart(s, i)
  {
    match FirstAuth(s, 0)
    case Some(i) => i
    case None => 0
  }

  /** `piece` put into `s` at `i`. */
  function Spliced(s: string, i: nat, piece: string): (t: string)
    requires i <= |s|
    ensures |t| == |s| + |piece|
  {
    s[..i] + piece + s[i..]
  }

  lemma PiecesJoin(out: string, s: string, i: nat, e: nat)
    requires i <= e <= |s|
    ensures out + s[i..e] + s[e..] == out + s[i..]
    ensures s[..i] + s[i..e] == s[..e]
  {
  }

  lemma SplicedIs(s: string, i: nat, line: string)
    requires i <= |s|
    ensures s[..i] + line + "\n" + s[i..] == Spliced(s, i, line + "\n")
  {
    assert s[..i] + line + "\n" == s[..i] + (line + "\n");
  }

  /** `insert_line`: one line more, every other character kept in order. */
  method InsertLine(original: string, newLine: string) returns (out: string)
    ensures out == Spliced(original, InsertAt(original), newLine + "\n")
  {
    out := "";
    var inserted := false;
    var i: nat := 0;
    ghost var first := FirstAuth(original, 0);
    ghost var target := Spliced(original, InsertAt(original), newLine + "\n");
    while i < |original|
      invariant i <= |original|
      invariant i < |original| ==> LineStart(original, i)
      invariant !inserted ==> out == original[..i]
      invariant !inserted ==> first == if i < |original| then FirstAuth(original, i) else None
      invariant inserted ==> out + original[i..] == target
    {
      var e := LineEnd(original, i);
      var line := original[i..e];
      if !inserted && IsAuthDirective(line) {
        out := out + newLine;
        out := out + "\n";
        inserted := true;
        SplicedIs(original, i, newLine);
      }
      PiecesJoin(out, original, i, e);
      out := out + line;
      i := e;
    }
    if !inserted {
      var prefixed := newLine;
      prefixed := prefixed + "\n";
      prefixed := prefixed + original;
      return prefixed;
    }
  }

  // ---- maybe_insert_u2f_fallback ----------------------------------------------------------------

  /** The start of the first line from `i` on that contains `t`. */
  function FirstMention(s: string, t: string, i: nat): (r: Option<nat>)
    requires LineStart(s, i)
    ensures r.Some? ==> i <= r.value < |s| && LineStart(s, r.value)
    decreases |s| - i
  {
    if i == |s| then None
    else if Mentions(s[i..LineEnd(s, i)], t) then Some(i)
    else if LineEnd(s, i) == |s| then None
    else FirstMention(s, t, LineEnd(s, i))
  }

  lemma {:induction false} FirstMentionIsFirst(s: string, t: string, i: nat)
    requires LineStart(s, i)
    ensures var r := FirstMention(s, t, i);
      && (r.Some? ==> Mentions(s[r.value..LineEnd(s, r.value)], t))
      && forall k: nat | i <= k < (if r.Some? then r.value else |s|) && LineStart(s, k) ::
           !Mentions(s[k..LineEnd(s, k)], t)
    decreases |s| - i
  {
    if i < |s| && !Mentions(s[i..LineEnd(s, i)], t) && LineEnd(s, i) < |s| {
      FirstMentionIsFirst(s, t, LineEnd(s, i));
    }
  }

  /** Where the fallback goes: right after the first line that mentions the module. */
  function BelowMention(s: string): (r: Option<nat>)
    ensures r.Some? ==> 0 < r.value <= |s|
  {
    match FirstMention(s, DEFAULT_SO_NAME, 0)
    case None => None
    case Some(k) => Some(LineEnd(s, k))
  }

  function WithFallback(beyond: char -> bool, s: string): string {
    if Recognized(beyond, s, U2F_SO_NAME) || BelowMention(s).None? then s
    else Spliced(s, BelowMention(s).value, U2F_FALLBACK_LINE + "\n")
  }

  /** `maybe_insert_u2f_fallback`. */
  method MaybeInsertU2fFallback(beyond: char -> bool, body: string, enabled: bool) returns (out: string)
    ensures out == if enabled then WithFallback(beyond, body) else body
  {
    if !enabled || Recognized(beyond, body, U2F_SO_NAME) {
      return body;
    }
    out := AfterMention(body, DEFAULT_SO_NAME, U2F_FALLBACK_LINE);
  }

  /** The loop of `maybe_insert_u2f_fallback`. */
  method AfterMention(body: string, so: string, fallback: string) returns (out: string)
    ensures var first := FirstMention(body, so, 0);
      out == if first.None? then body else Spliced(body, LineEnd(body, first.value), fallback + "\n")
  {
    out := "";
    var inserted := false;
    var i: nat := 0;
    ghost var first := FirstMention(body, so, 0);
    ghost var target := if first.None? then body else Spliced(body, LineEnd(body, first.value), fallback + "\n");
    while i < |body|
      invariant i <= |body|
      invariant i < |body| ==> LineStart(body, i)
      invariant !inserted ==> out == body[..i]
      invariant !inserted ==> first == if i < |body| then FirstMention(body, so, i) else None
      invariant inserted ==> out + body[i..] == target
    {
      var e := LineEnd(body, i);
      var line := body[i..e];
      PiecesJoin(out, body, i, e);
      out := out + line;
      if !inserted && Mentions(line, so) {
        assert first == Some(i) && out == body[..e];
        SplicedIs(body, e, fallback);
        out := out + fallback;
        out := out + "\n";
        inserted := true;
      }
      i := e;
    }
  }
}
