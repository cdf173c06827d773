/** When the fallback line leaves the syauth line recognised: `maybe_insert_u2f_fallback` of
    crates/syauth-cli/src/install_pam.rs cuts the text after the first line that mentions the module,
    and the recognition rule may match across lines. */
module PamFallback {
  import opened Basics
  import opened PamText
  import opened PamRecognition
  import opened Text

  /** The match starts at or after the cut at `q`, or ends before it. */
  predicate ClearOf(so: string, q: nat, m: Span) {
    q <= m.auth || m.so + |so| < q
  }

  /** Some match of `s` lies clear of the cut at `q`. */
  ghost predicate Survives(beyond: Class, s: string, so: string, q: nat) {
    exists m :: IsMatch(beyond, s, so, m) && ClearOf(so, q, m)
  }

  // ---- what the proof needs of the two constants ------------------------------------------------

  /** The letters of the fallback line, its newline included. */
  predicate FallbackShape(u: string) {
    && |u| == 37 && AuthAt(u, 0) && Blank(u, 4, 8) && Solid(u, 8, 18) && Blank(u, 18, 22)
    && u[22] == 'p' && u[26] == 'u' && u[35] == 'e' && u[36] == '\n'
    && (forall k | 0 <= k < 37 && u[k] == 'p' :: k == 22)
    && u[24] == 'm' && (forall k | 0 < k < 36 && u[k] == 'a' :: k == 23)
    && (forall k | 0 <= k < 36 :: u[k] != '\n')
  }

  /** The letters of the module name. */
  predicate ModuleShape(so: string) {
    && |so| == 13 && Solid(so, 0, 13) && so[0] == 'p' && so[2] == 'm' && so[4] == 's' && so[10] == '.'
    && (forall k | 0 <= k < 13 && so[k] == 'a' :: k == 1 || k == 6)
  }

  lemma FallbackHasShape()
    ensures FallbackShape(U2F_FALLBACK_LINE + "\n")
  {
    var u := U2F_FALLBACK_LINE;
    forall k: nat | k < 36 ensures FallbackLetter(u, k) {
      FallbackHasLetter(k);
    }
    var v := u + "\n";
    assert forall k: nat | k < 36 :: v[k] == u[k] && FallbackLetter(u, k);
    FallbackHasAuth();
    assert Blank(v, 4, 8) && Solid(v, 8, 18) && Blank(v, 18, 22);
  }

  predicate FallbackLetter(u: string, k: nat) {
    && k < |u| && u[k] != '\n' && (u[k] == 'p' ==> k == 22) && (u[k] == 'a' && k > 0 ==> k == 23)
    && (u[k] == ' ' || 'a' <= u[k] <= 'z' || u[k] == '.' || u[k] == '_' || u[k] == '2')
    && (u[k] == ' ' <==> 4 <= k < 8 || 18 <= k < 22 || k == 32)
  }

  lemma FallbackHasLetter(k: nat)
    requires k < |U2F_FALLBACK_LINE|
    ensures FallbackLetter(U2F_FALLBACK_LINE, k)
  {
  }

  lemma FallbackHasAuth()
    ensures var u := U2F_FALLBACK_LINE;
      && |u| == 36 && AuthAt(u, 0)
      && u[22] == 'p' && u[24] == 'm' && u[26] == 'u' && u[35] == 'e'
  {
  }

  lemma ModuleHasShape()
    ensures ModuleShape(DEFAULT_SO_NAME)
  {
  }

  // ---- a match clear of the cut stays -----------------------------------------------------------

  lemma MatchBeforeCutStays(beyond: Class, s: string, so: string, q: nat, u: string, m: Span)
    requires q <= |s| && IsMatch(beyond, s, so, m) && m.so + |so| < q
    ensures IsMatch(beyond, Spliced(s, q, u), so, m)
  {
    var t := Spliced(s, q, u);
    assert forall j | 0 <= j < q :: t[j] == s[j];
  }

  lemma MatchAfterCutStays(beyond: Class, s: string, so: string, q: nat, u: string, m: Span) returns (m': Span)
    requires q <= |s| && IsMatch(beyond, s, so, m) && q <= m.auth && |u| > 0 && u[|u| - 1] == '\n'
    ensures IsMatch(beyond, Spliced(s, q, u), so, m')
  {
    var n := |u|;
    PiecesMove(beyond, s, q, u, so, m.auth, m.word, m.wordEnd, m.so);
    StartMovesDown(s, q, u, m.line, m.auth);
    m' := Span(if m.line < q then q + n else m.line + n, m.auth + n, m.word + n, m.wordEnd + n, m.so + n);
  }

  lemma StartMovesDown(s: string, q: nat, u: string, p: nat, a: nat)
    requires q <= a <= |s| && LineStart(s, p) && Blank(s, p, a) && |u| > 0 && u[|u| - 1] == '\n'
    ensures var p' := if p < q then q + |u| else p + |u|;
      LineStart(Spliced(s, q, u), p') && Blank(Spliced(s, q, u), p', a + |u|)
  {
    var t, n := Spliced(s, q, u), |u|;
    assert t[q + n - 1] == u[n - 1];
    assert p > q ==> t[p + n - 1] == s[p - 1];
    assert forall j | q + n <= j < |t| :: t[j] == s[j - n];
  }

  // ---- a match of the cut text was clear of the cut ---------------------------------------------

  lemma AuthOutside(s: string, q: nat, u: string, a: nat)
    requires q <= |s| && FallbackShape(u) && AuthAt(Spliced(s, q, u), a) && a + 4 < |s| + |u|
    requires IsSpace(Spliced(s, q, u)[a + 4])
    ensures a + 4 < q || a == q || q + |u| <= a
  {
    var t := Spliced(s, q, u);
    assert forall j | q <= j < q + |u| :: t[j] == u[j - q];
  }

  /** From the fallback's own `auth` the third word is the other module. */
  lemma FallbackIsNoMatch(beyond: Class, s: string, so: string, q: nat, u: string, b: nat, c: nat, d: nat)
    requires q <= |s| && FallbackShape(u) && ModuleShape(so)
    ensures !PiecesAt(beyond, Spliced(s, q, u), so, q, b, c, d)
  {
    var t := Spliced(s, q, u);
    assert forall j | q <= j < q + |u| :: t[j] == u[j - q];
    if PiecesAt(beyond, t, so, q, b, c, d) {
      PiecesAreWords(beyond, t, so, q, b, c, d);
      assert Blank(t, q + 4, q + 8) && Solid(t, q + 8, q + 18) && Blank(t, q + 18, q + 22);
      SkipSpacesIs(t, q + 4, q + 8);
      SkipWordIs(t, q + 8, q + 18);
      SkipSpacesIs(t, q + 18, q + 22);
      assert false;
    }
  }

  /** A match that starts before the cut ends before it: between its words there is room for no more
      than one, and the module name fits neither into nor across the fallback. */
  lemma ModuleOutside(beyond: Class, s: string, so: string, q: nat, u: string, a: nat, b: nat, c: nat, d: nat)
    requires q <= |s| && FallbackShape(u) && ModuleShape(so) && a + 4 < q
    requires PiecesAt(beyond, Spliced(s, q, u), so, a, b, c, d)
    ensures d + |so| < q
  {
    var t := Spliced(s, q, u);
    assert forall j | q <= j < q + |u| :: t[j] == u[j - q];
    assert so[0] == t[d + 0] && so[2] == t[d + 2] && so[4] == t[d + 4] && so[10] == t[d + 10];
    if d >= q + |u| {
      WordsAcross(t, q, a, b, c, d);
      assert false;
    }
  }

  lemma WordsAcross(t: string, q: nat, a: nat, b: nat, c: nat, d: nat)
    requires a + 4 < q && a + 4 < b < c < d <= |t| && q + 9 < d
    requires Blank(t, a + 4, b) && Solid(t, b, c) && !IsSpace(t[q]) && IsSpace(t[q + 4]) && !IsSpace(t[q + 8])
    ensures !Blank(t, c, d)
  {
  }

  lemma MatchWasClear(beyond: Class, s: string, so: string, q: nat, u: string, m: Span) returns (m': Span)
    requires 0 < q <= |s| && (q < |s| ==> s[q - 1] == '\n') && FallbackShape(u) && ModuleShape(so)
    requires IsMatch(beyond, Spliced(s, q, u), so, m)
    ensures IsMatch(beyond, s, so, m') && ClearOf(so, q, m')
  {
    var a := m.auth;
    AuthOutside(s, q, u, a);
    if a == q {
      FallbackIsNoMatch(beyond, s, so, q, u, m.word, m.wordEnd, m.so);
      assert false;
    } else if a < q {
      ModuleOutside(beyond, s, so, q, u, a, m.word, m.wordEnd, m.so);
      MatchAboveWasOld(beyond, s, so, q, u, m);
      m' := m;
    } else {
      StartAfterCut(s, q, u, m.line, a);
      MatchMovesUp(beyond, s, q, u, so, m, m.line - |u|);
      m' := Span(m.line - |u|, a - |u|, m.word - |u|, m.wordEnd - |u|, m.so - |u|);
    }
  }

  lemma MatchAboveWasOld(beyond: Class, s: string, so: string, q: nat, u: string, m: Span)
    requires q <= |s| && IsMatch(beyond, Spliced(s, q, u), so, m) && m.so + |so| < q
    ensures IsMatch(beyond, s, so, m)
  {
    assert forall j | 0 <= j < q :: s[j] == Spliced(s, q, u)[j];
  }

  lemma StartAfterCut(s: string, q: nat, u: string, p: nat, a: nat)
    requires 0 < q <= |s| && (q < |s| ==> s[q - 1] == '\n') && FallbackShape(u) && q + |u| <= a < |s| + |u|
    requires var t := Spliced(s, q, u); LineStart(t, p) && Blank(t, p, a)
    ensures q + |u| <= p && LineStart(s, p - |u|) && Blank(s, p - |u|, a - |u|)
  {
    var t, n := Spliced(s, q, u), |u|;
    assert t[q + n - 2] == u[35] && t[q + n - 1] == u[36];
    assert q + n <= p;
    assert forall j | q <= j < |s| :: s[j] == t[j + n];
    assert p > q + n ==> s[p - n - 1] == t[p - 1];
  }

  // ---- the exact condition ----------------------------------------------------------------------

  lemma MentionEnds(s: string)
    requires BelowMention(s).Some?
    ensures var q := BelowMention(s).value; 0 < q <= |s| && (q < |s| ==> s[q - 1] == '\n')
  {
  }

  /** Inserting the fallback leaves the module recognised if and only if some match of the text before
      lies clear of the cut. */
  lemma FallbackKeepsLineIff(beyond: Class, s: string)
    requires !Recognized(beyond, s, U2F_SO_NAME) && BelowMention(s).Some?
    ensures Recognized(beyond, WithFallback(beyond, s), DEFAULT_SO_NAME)
       <==> Survives(beyond, s, DEFAULT_SO_NAME, BelowMention(s).value)
  {
    var so, q, u := DEFAULT_SO_NAME, BelowMention(s).value, U2F_FALLBACK_LINE + "\n";
    FallbackHasShape();
    ModuleHasShape();
    MentionEnds(s);
    CutKeepsIff(beyond, s, so, q, u);
  }

  lemma CutKeepsIff(beyond: Class, s: string, so: string, q: nat, u: string)
    requires 0 < q <= |s| && (q < |s| ==> s[q - 1] == '\n') && FallbackShape(u) && ModuleShape(so)
    ensures Recognized(beyond, Spliced(s, q, u), so) <==> Survives(beyond, s, so, q)
  {
    var t := Spliced(s, q, u);
    if Recognized(beyond, t, so) {
      var m := FindMatch(beyond, t, so);
      var m' := MatchWasClear(beyond, s, so, q, u, m);
    }
    if Survives(beyond, s, so, q) {
      var m :| IsMatch(beyond, s, so, m) && ClearOf(so, q, m);
      if q <= m.auth {
        m := MatchAfterCutStays(beyond, s, so, q, u, m);
      } else {
        MatchBeforeCutStays(beyond, s, so, q, u, m);
      }
      MatchRecognizes(beyond, t, so, m);
    }
  }

  /** The fallback never makes a line recognised that was not. */
  lemma FallbackRecognizesNothingNew(beyond: Class, s: string)
    requires !Recognized(beyond, s, DEFAULT_SO_NAME)
    ensures !Recognized(beyond, WithFallback(beyond, s), DEFAULT_SO_NAME)
  {
    if !Recognized(beyond, s, U2F_SO_NAME) && BelowMention(s).Some? {
      FallbackKeepsLineIff(beyond, s);
      forall m ensures !IsMatch(beyond, s, DEFAULT_SO_NAME, m) {
        if IsMatch(beyond, s, DEFAULT_SO_NAME, m) {
          MatchRecognizes(beyond, s, DEFAULT_SO_NAME, m);
        }
      }
    }
  }

  /** A recognised text mentions the module on some line, so the fallback has its place. */
  lemma RecognizedIsMentioned(beyond: Class, s: string)
    requires Recognized(beyond, s, DEFAULT_SO_NAME)
    ensures BelowMention(s).Some?
  {
    var m := FindMatch(beyond, s, DEFAULT_SO_NAME);
    ModuleHasShape();
    StandsOnALine(s, DEFAULT_SO_NAME, m.so);
    FirstMentionIsFirst(s, DEFAULT_SO_NAME, 0);
  }

  lemma StandsOnALine(s: string, so: string, d: nat)
    requires At(s, d, so) && |so| > 0 && Solid(so, 0, |so|)
    ensures var k := LineOf(s, d); k < |s| && Mentions(s[k..LineEnd(s, k)], so)
  {
    var k := LineOf(s, d);
    var e := LineEnd(s, k);
    assert forall j | d <= j < d + |so| :: s[j] == so[j - d];
    assert d + |so| <= e;
    var line := s[k..e];
    assert forall j | 0 <= j < |so| :: so[j] == s[d + j] == line[d - k + j];
    assert At(line, d - k, so);
  }

  // ---- directly below the syauth line -----------------------------------------------------------

  /** For every match of a text: the fallback goes right below the line that holds the match's module
      name if and only if no line above that one mentions the module; otherwise it goes above it. */
  lemma DirectlyBelowIff(beyond: Class, s: string, m: Span)
    requires IsMatch(beyond, s, DEFAULT_SO_NAME, m)
    ensures m.so <= |s| && LineOf(s, m.so) < |s| && BelowMention(s).Some?
    ensures var k, q := LineOf(s, m.so), BelowMention(s).value;
      && (q <= k || q == LineEnd(s, k))
      && (q == LineEnd(s, k) <==>
            forall j: nat | j < k && LineStart(s, j) :: !Mentions(s[j..LineEnd(s, j)], DEFAULT_SO_NAME))
  {
    ModuleHasShape();
    StandsOnALine(s, DEFAULT_SO_NAME, m.so);
    MentionPlacesFallback(s, LineOf(s, m.so));
  }

  /** A comment line: a hash sign first, a newline last and nowhere before. */
  predicate IsComment(h: string) {
    |h| > 1 && h[0] == '#' && h[|h| - 1] == '\n' && forall j | 0 <= j < |h| - 1 :: h[j] != '\n'
  }

  lemma MatchIsBelowComment(beyond: Class, h: string, rest: string, so: string, m: Span)
    requires IsComment(h) && IsMatch(beyond, Spliced(rest, 0, h), so, m)
    ensures |h| <= m.auth
  {
    var t := Spliced(rest, 0, h);
    assert forall j | 0 <= j < |h| :: t[j] == h[j];
  }

  /** A comment at the top changes nothing for the recognition rules. */
  lemma CommentIsInvisible(beyond: Class, h: string, rest: string, so: string)
    requires IsComment(h)
    ensures Recognized(beyond, h + rest, so) <==> Recognized(beyond, rest, so)
  {
    assert Spliced(rest, 0, h) == h + rest;
    if Recognized(beyond, h + rest, so) {
      var m := FindMatch(beyond, h + rest, so);
      MatchIsBelowComment(beyond, h, rest, so, m);
      MatchBelowIsOld(beyond, rest, 0, h, so, m);
    }
    if Recognized(beyond, rest, so) {
      var m := FindMatch(beyond, rest, so);
      m := MatchAfterCutStays(beyond, rest, so, 0, h, m);
      MatchRecognizes(beyond, h + rest, so, m);
    }
  }

  lemma CommentMentions(h: string, rest: string)
    requires IsComment(h) && Mentions(h, DEFAULT_SO_NAME)
    ensures BelowMention(h + rest) == Some(|h|)
  {
    var s := h + rest;
    assert forall j | 0 <= j < |h| :: s[j] == h[j];
    assert LineEnd(s, 0) == |h|;
    assert s[0..|h|] == h;
  }

  /** A comment that names the module, above any recognised file without the fallback: the fallback
      lands between the comment and the rest, so it comes before the syauth line and not after it. */
  lemma CommentTurnsTheOrder(beyond: Class, h: string, rest: string)
    requires IsComment(h) && Mentions(h, DEFAULT_SO_NAME)
    requires Recognized(beyond, rest, DEFAULT_SO_NAME) && !Recognized(beyond, rest, U2F_SO_NAME)
    ensures Recognized(beyond, h + rest, DEFAULT_SO_NAME)
    ensures WithFallback(beyond, h + rest) == h + (U2F_FALLBACK_LINE + "\n" + rest)
    ensures forall m | IsMatch(beyond, h + rest, DEFAULT_SO_NAME, m) :: BelowMention(h + rest).value <= m.auth
  {
    CommentIsInvisible(beyond, h, rest, DEFAULT_SO_NAME);
    CommentIsInvisible(beyond, h, rest, U2F_SO_NAME);
    CommentMentions(h, rest);
    SplicedBetween(h, rest, U2F_FALLBACK_LINE, "\n");
    MatchesAreBelowComment(beyond, h, rest, DEFAULT_SO_NAME);
  }

  lemma SplicedBetween(h: string, rest: string, u: string, nl: string)
    ensures Spliced(h + rest, |h|, u + nl) == h + (u + nl + rest)
  {
    assert (h + rest)[..|h|] == h && (h + rest)[|h|..] == rest;
  }

  lemma MatchesAreBelowComment(beyond: Class, h: string, rest: string, so: string)
    requires IsComment(h)
    ensures forall m | IsMatch(beyond, h + rest, so, m) :: |h| <= m.auth
  {
    assert Spliced(rest, 0, h) == h + rest;
    forall m | IsMatch(beyond, h + rest, so, m) ensures |h| <= m.auth {
      MatchIsBelowComment(beyond, h, rest, so, m);
    }
  }

  // ---- a second run -----------------------------------------------------------------------------

  /** There is a fallback already, or no place for one, or its place is the start of a line. */
  predicate FallbackLands(beyond: Class, s: string) {
    Recognized(beyond, s, U2F_SO_NAME) || BelowMention(s).None? || s[BelowMention(s).value - 1] == '\n'
  }

  lemma MentionStays(s: string, u: string)
    requires BelowMention(s).Some?
    ensures BelowMention(s + u).Some?
  {
    var so, k := DEFAULT_SO_NAME, FirstMention(s, DEFAULT_SO_NAME, 0).value;
    FirstMentionIsFirst(s, so, 0);
    var line := s[k..LineEnd(s, k)];
    var j: nat :| j <= |line| && At(line, j, so);
    assert forall x | 0 <= x < |so| :: so[x] == line[j + x] == (s + u)[k + j + x];
    assert At(s + u, k + j, so);
    ModuleHasShape();
    StandsOnALine(s + u, so, k + j);
    FirstMentionIsFirst(s + u, so, 0);
  }

  /** In a text that ends in a newline the fallback goes to a line start. */
  lemma TerminatedLands(beyond: Class, s: string)
    requires s != [] && s[|s| - 1] == '\n'
    ensures FallbackLands(beyond, s)
  {
    if BelowMention(s).Some? {
      MentionEnds(s);
    }
  }

  lemma LandedFallbackStays(beyond: Class, s: string)
    requires FallbackLands(beyond, s)
    ensures WithFallback(beyond, WithFallback(beyond, s)) == WithFallback(beyond, s)
  {
    if !Recognized(beyond, s, U2F_SO_NAME) && BelowMention(s).Some? {
      FallbackTakesIffTerminated(beyond, s);
    }
  }

  /** Glued to an unterminated line, the fallback is not seen by a second run, which adds another one. */
  lemma GluedFallbackIsRepeated(beyond: Class, s: string)
    requires !FallbackLands(beyond, s)
    ensures WithFallback(beyond, s) == s + (U2F_FALLBACK_LINE + "\n")
    ensures !Recognized(beyond, WithFallback(beyond, s), U2F_SO_NAME)
    ensures |WithFallback(beyond, WithFallback(beyond, s))| == |WithFallback(beyond, s)| + |U2F_FALLBACK_LINE| + 1
  {
    var q, u := BelowMention(s).value, U2F_FALLBACK_LINE + "\n";
    MentionEnds(s);
    assert s[..q] == s && s[q..] == [];
    assert Spliced(s, q, u) == s + u;
    FallbackTakesIffTerminated(beyond, s);
    MentionStays(s, u);
  }

  /** Adding the fallback twice is adding it once, if and only if it lands at the start of a line (or
      was there, or has no place). */
  lemma FallbackIsIdempotentIff(beyond: Class, s: string)
    ensures WithFallback(beyond, WithFallback(beyond, s)) == WithFallback(beyond, s) <==> FallbackLands(beyond, s)
  {
    if FallbackLands(beyond, s) {
      LandedFallbackStays(beyond, s);
    } else {
      GluedFallbackIsRepeated(beyond, s);
    }
  }

  /** Every text is settled after two runs. */
  lemma FallbackSettlesAfterTwo(beyond: Class, s: string)
    ensures var twice := WithFallback(beyond, WithFallback(beyond, s)); WithFallback(beyond, twice) == twice
  {
    if FallbackLands(beyond, s) {
      LandedFallbackStays(beyond, s);
    } else {
      GluedFallbackIsRepeated(beyond, s);
      var t := WithFallback(beyond, s);
      assert t[|t| - 1] == '\n';
      TerminatedLands(beyond, t);
      LandedFallbackStays(beyond, t);
    }
  }

  // ---- two families that lose the line ----------------------------------------------------------

  /** `auth`, one word, one blank, the module name, and at most a line end. */
  predicate ShortText(s: string, w: string, sep: char, so: string) {
    var n := |w|;
    && |w| > 0 && Solid(w, 0, n) && (sep == ' ' || sep == '\n')
    && 6 + n + |so| <= |s| <= 7 + n + |so| && (|s| == 7 + n + |so| ==> s[|s| - 1] == '\n')
    && AuthAt(s, 0) && s[4] == ' ' && At(s, 5, w) && s[5 + n] == sep && At(s, 6 + n, so)
  }

  /** Such a text has one match at most, and its words are these. */
  lemma ShortTextWords(beyond: Class, s: string, w: string, sep: char, so: string, any: string, m: Span)
    requires ShortText(s, w, sep, so) && |so| > 0 && Solid(so, 0, |so|) && so[0] == 'p' && |any| > 0 && !IsSpace(any[0])
    requires IsMatch(beyond, s, any, m)
    ensures m.auth == 0 && m.so == 6 + |w|
  {
    var n := |w|;
    ShortTextLayout(s, w, sep, so);
    OneLineWithAuth(s, n, m.line, m.auth);
    PiecesAreWords(beyond, s, any, m.auth, m.word, m.wordEnd, m.so);
    SkipSpacesIs(s, 4, 5);
    SkipWordIs(s, 5, 5 + n);
    SkipSpacesIs(s, 5 + n, 6 + n);
  }

  lemma ShortTextLayout(s: string, w: string, sep: char, so: string)
    requires ShortText(s, w, sep, so) && |so| > 0 && Solid(so, 0, |so|)
    ensures var n := |w|;
      && Blank(s, 4, 5) && Solid(s, 5, 5 + n) && Blank(s, 5 + n, 6 + n) && Solid(s, 6 + n, 6 + n + |so|)
      && s[6 + n] == so[0]
  {
    var n := |w|;
    assert forall k | 5 <= k < 5 + n :: s[k] == w[k - 5];
    assert forall k | 6 + n <= k < 6 + n + |so| :: s[k] == so[k - (6 + n)];
  }

  lemma OneLineWithAuth(s: string, n: nat, p: nat, a: nat)
    requires AuthAt(s, 0) && 6 + n < |s| && Blank(s, 4, 5) && s[4] == ' ' && Solid(s, 5, 5 + n) && s[6 + n] == 'p'
    requires Solid(s, 6 + n, |s|) || (Solid(s, 6 + n, |s| - 1) && s[|s| - 1] == '\n')
    requires LineStart(s, p) && Blank(s, p, a) && AuthAt(s, a)
    ensures a == 0
  {
    assert p == 0 || p == 6 + n || p == |s|;
  }

  lemma ShortTextIsRecognized(beyond: Class, s: string, w: string, sep: char, so: string)
    requires ShortText(s, w, sep, so) && |so| > 0 && Solid(so, 0, |so|)
    ensures Recognized(beyond, s, so)
  {
    ShortTextLayout(s, w, sep, so);
    MatchRecognizes(beyond, s, so, Span(0, 0, 5, 5 + |w|, 6 + |w|));
  }

  /** With the cut neither before the text nor behind its module name, the text was recognised and is
      not any more. */
  lemma ShortTextIsCut(beyond: Class, s: string, w: string, sep: char)
    requires ShortText(s, w, sep, DEFAULT_SO_NAME) && BelowMention(s).Some?
    requires BelowMention(s).value <= 6 + |w| + |DEFAULT_SO_NAME|
    ensures !Recognized(beyond, s, U2F_SO_NAME)
    ensures Recognized(beyond, s, DEFAULT_SO_NAME) && !Recognized(beyond, WithFallback(beyond, s), DEFAULT_SO_NAME)
  {
    var so, q := DEFAULT_SO_NAME, BelowMention(s).value;
    ModuleHasShape();
    ShortTextIsRecognized(beyond, s, w, sep, so);
    NotTheOther(beyond, s, w, sep);
    FallbackKeepsLineIff(beyond, s);
    forall m | IsMatch(beyond, s, so, m) ensures !ClearOf(so, q, m) {
      ShortTextWords(beyond, s, w, sep, so, so, m);
    }
  }

  lemma NotTheOther(beyond: Class, s: string, w: string, sep: char)
    requires ShortText(s, w, sep, DEFAULT_SO_NAME)
    ensures !Recognized(beyond, s, U2F_SO_NAME)
  {
    var so, any := DEFAULT_SO_NAME, U2F_SO_NAME;
    ModuleHasShape();
    if Recognized(beyond, s, any) {
      var m := FindMatch(beyond, s, any);
      ShortTextWords(beyond, s, w, sep, so, any, m);
      NamesDiffer(s, m.so);
      assert false;
    }
  }

  lemma NamesDiffer(s: string, d: nat)
    requires At(s, d, DEFAULT_SO_NAME)
    ensures !At(s, d, U2F_SO_NAME)
  {
    assert DEFAULT_SO_NAME[4] == s[d + 4] && U2F_SO_NAME[4] == 'u';
  }
}
