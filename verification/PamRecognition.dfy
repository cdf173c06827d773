/** What the two insertions of `install-pam` do to the two recognition rules
    (crates/syauth-cli/src/install_pam.rs). */
module PamRecognition {
  import opened Basics
  import opened PamText
  import opened Text

  type Class = char -> bool

  // ---- matches look forward ---------------------------------------------------------------------

  lemma BlankMoves(s: string, q: nat, u: string, i: nat, j: nat)
    requires q <= i && q <= |s|
    ensures Blank(Spliced(s, q, u), i + |u|, j + |u|) <==> Blank(s, i, j)
  {
    var t, n := Spliced(s, q, u), |u|;
    if j <= |s| {
      assert forall k | q + n <= k < |t| :: t[k] == s[k - n];
      forall k | i <= k < j ensures s[k] == t[k + n] {
      }
    }
  }

  lemma SolidMoves(s: string, q: nat, u: string, i: nat, j: nat)
    requires q <= i && q <= |s|
    ensures Solid(Spliced(s, q, u), i + |u|, j + |u|) <==> Solid(s, i, j)
  {
    var t, n := Spliced(s, q, u), |u|;
    if j <= |s| {
      assert forall k | q + n <= k < |t| :: t[k] == s[k - n];
      forall k | i <= k < j ensures s[k] == t[k + n] {
      }
    }
  }

  lemma WordMoves(beyond: Class, s: string, q: nat, u: string, so: string, d: nat)
    requires q <= d && q <= |s|
    ensures At(Spliced(s, q, u), d + |u|, so) <==> At(s, d, so)
    ensures Boundary(beyond, Spliced(s, q, u), d + |u|) <==> Boundary(beyond, s, d)
  {
    var t, n := Spliced(s, q, u), |u|;
    assert forall k | q <= k < |s| :: s[k] == t[k + n];
  }

  /** A match from `a` depends on the text from `a` on and on nothing before it: it moves along with
      the text that a splice pushes down. */
  lemma PiecesMove(beyond: Class, s: string, q: nat, u: string, so: string, a: nat, b: nat, c: nat, d: nat)
    requires q <= a && q <= |s|
    ensures PiecesAt(beyond, Spliced(s, q, u), so, a + |u|, b + |u|, c + |u|, d + |u|)
       <==> PiecesAt(beyond, s, so, a, b, c, d)
  {
    if a + 4 < b < c < d <= |s| {
      BlankMoves(s, q, u, a + 4, b);
      SolidMoves(s, q, u, b, c);
      BlankMoves(s, q, u, c, d);
      WordMoves(beyond, s, q, u, so, d);
      WordMoves(beyond, s, q, u, so, d + |so|);
      AuthMoves(s, q, u, a);
    }
  }

  lemma MatchMovesUp(beyond: Class, s: string, q: nat, u: string, so: string, m: Span, line: nat)
    requires q <= |s| && q + |u| <= m.auth && IsMatch(beyond, Spliced(s, q, u), so, m)
    requires LineStart(s, line) && Blank(s, line, m.auth - |u|)
    ensures m.auth <= m.word <= m.wordEnd <= m.so
    ensures var n := |u|; IsMatch(beyond, s, so, Span(line, m.auth - n, m.word - n, m.wordEnd - n, m.so - n))
  {
    PiecesInOrder(beyond, Spliced(s, q, u), so, m.auth, m.word, m.wordEnd, m.so);
    var a, b, c, d := m.auth - |u|, m.word - |u|, m.wordEnd - |u|, m.so - |u|;
    assert PiecesAt(beyond, Spliced(s, q, u), so, a + |u|, b + |u|, c + |u|, d + |u|);
    PiecesMove(beyond, s, q, u, so, a, b, c, d);
  }

  lemma PiecesInOrder(beyond: Class, s: string, so: string, a: nat, b: nat, c: nat, d: nat)
    requires PiecesAt(beyond, s, so, a, b, c, d)
    ensures a + 4 < b < c < d && d + |so| <= |s|
  {
  }

  lemma AuthMoves(s: string, q: nat, u: string, a: nat)
    requires q <= a && q <= |s|
    ensures AuthAt(Spliced(s, q, u), a + |u|) <==> AuthAt(s, a)
  {
  }

  lemma AuthWordMakesDirective(s: string, p: nat, a: nat)
    requires LineStart(s, p) && Blank(s, p, a) && AuthAt(s, a) && a + 4 < |s| && IsSpace(s[a + 4])
    requires forall k | p <= k < a :: s[k] != '\n'
    ensures IsAuthDirective(s[p..LineEnd(s, p)])
  {
    assert forall k | p <= k < a + 4 :: s[k] != '\n';
    AuthWordInLine(s, p, LineEnd(s, p), a);
  }

  lemma AuthWordInLine(s: string, p: nat, e: nat, a: nat)
    requires p <= a && a + 4 < e <= |s| && Blank(s, p, a) && AuthAt(s, a) && IsSpace(s[a + 4])
    ensures IsAuthDirective(s[p..e])
  {
    var line := s[p..e];
    assert forall k | p <= k < a :: line[k - p] == s[k];
    assert line[a - p] == s[a] && line[a + 4 - p] == s[a + 4];
    SkipSpacesIs(line, 0, a - p);
  }

  // ---- insert_line ------------------------------------------------------------------------------

  /** A match cannot start before the insertion point: it would make an earlier line an `auth`
      directive. */
  lemma NoMatchAbove(beyond: Class, s: string, piece: string, so: string, p: nat, a: nat)
    requires |piece| > 0 && piece[0] == 'a'
    requires var t := Spliced(s, InsertAt(s), piece);
      LineStart(t, p) && Blank(t, p, a) && FieldsAt(beyond, t, so, a)
    ensures InsertAt(s) <= a
  {
    var i := InsertAt(s);
    var t := Spliced(s, i, piece);
    if a < i {
      assert t[i] == piece[0] && t[i - 1] == s[i - 1] == '\n';
      assert IsSpace(t[a + 4]);
      assert a + 4 < i;
      assert t[..i] == s[..i];
      AuthWordStaysAbove(s, t, i, p, a);
      FirstAuthIsFirst(s, 0);
      assert false;
    }
  }

  lemma AuthWordStaysAbove(s: string, t: string, i: nat, p: nat, a: nat)
    requires a + 4 < i <= |s| && i <= |t| && t[..i] == s[..i]
    requires LineStart(t, p) && Blank(t, p, a) && AuthAt(t, a) && IsSpace(t[a + 4])
    ensures IsAuthDirective(s[LineOf(s, a)..LineEnd(s, LineOf(s, a))])
  {
    assert forall k | 0 <= k < i :: t[k] == t[..i][k] == s[k];
    var q := LineOf(s, a);
    assert p <= q;
    AuthWordMakesDirective(s, q, a);
  }

  /** A match that starts below the inserted line is a match of the text before the insertion. */
  lemma MatchBelowIsOld(beyond: Class, s: string, i: nat, piece: string, so: string, m: Span)
    requires LineStart(s, i) && |piece| > 0 && piece[|piece| - 1] == '\n' && i + |piece| <= m.auth
    requires IsMatch(beyond, Spliced(s, i, piece), so, m)
    ensures Recognized(beyond, s, so)
  {
    var n := |piece|;
    var line := StartBelowIsOld(s, i, piece, m.line, m.auth);
    MatchMovesUp(beyond, s, i, piece, so, m, line);
    MatchRecognizes(beyond, s, so, Span(line, m.auth - n, m.word - n, m.wordEnd - n, m.so - n));
  }

  lemma StartBelowIsOld(s: string, i: nat, piece: string, p: nat, a: nat) returns (p': nat)
    requires i + |piece| <= a && LineStart(s, i)
    requires var t := Spliced(s, i, piece); LineStart(t, p) && Blank(t, p, a)
    ensures LineStart(s, p') && Blank(s, p', a - |piece|)
  {
    var t, n := Spliced(s, i, piece), |piece|;
    BlankBelow(s, i, piece, p, a);
    if p <= i + n {
      p' := i;
    } else {
      assert s[p - n - 1] == t[p - 1];
      p' := p - n;
    }
  }

  lemma BlankBelow(s: string, i: nat, piece: string, p: nat, a: nat)
    requires i <= |s| && p <= a && i + |piece| <= a && Blank(Spliced(s, i, piece), p, a)
    ensures Blank(s, if p < i + |piece| then i else p - |piece|, a - |piece|)
  {
    var t, n := Spliced(s, i, piece), |piece|;
    assert forall k | i <= k < |s| :: s[k] == t[k + n];
  }

  /** On a text without a recognisable line, every match that `insert_line` makes starts inside the
      inserted text. */
  lemma InsertDecides(beyond: Class, s: string, piece: string, so: string)
    requires !Recognized(beyond, s, so) && |piece| > 0 && piece[0] == 'a' && piece[|piece| - 1] == '\n'
    ensures var t, i := Spliced(s, InsertAt(s), piece), InsertAt(s);
      && (forall m | IsMatch(beyond, t, so, m) :: i <= m.auth < i + |piece|)
      && (Recognized(beyond, t, so) <==> exists m :: IsMatch(beyond, t, so, m) && i <= m.auth < i + |piece|)
  {
    var i := InsertAt(s);
    var t := Spliced(s, i, piece);
    forall m | IsMatch(beyond, t, so, m) ensures i <= m.auth < i + |piece| && Recognized(beyond, t, so) {
      MatchRecognizes(beyond, t, so, m);
      assert FieldsAt(beyond, t, so, m.auth);
      NoMatchAbove(beyond, s, piece, so, m.line, m.auth);
      if i + |piece| <= m.auth {
        MatchBelowIsOld(beyond, s, i, piece, so, m);
        assert false;
      }
    }
    if Recognized(beyond, t, so) {
      var m := FindMatch(beyond, t, so);
    }
  }

  /** When the inserted text is one line, the new text is recognised exactly when, counted from the
      inserted `auth`, the third word is the module; every match then starts at that `auth`. */
  lemma OneLineDecides(beyond: Class, s: string, line: string, so: string)
    requires !Recognized(beyond, s, so) && '\n' !in line && |line| > 4 && AuthAt(line, 0)
    requires |so| > 0 && !IsSpace(so[0])
    ensures var t := Spliced(s, InsertAt(s), line + "\n");
      && (Recognized(beyond, t, so) <==> ThirdWordIs(beyond, t, so, InsertAt(s)))
      && forall m | IsMatch(beyond, t, so, m) :: m.auth == InsertAt(s)
  {
    var i, piece := InsertAt(s), line + "\n";
    var t := Spliced(s, i, piece);
    InsertDecides(beyond, s, piece, so);
    forall m | IsMatch(beyond, t, so, m) ensures m.auth == i {
      MatchInLineIsAtItsStart(s, i, line, m.line, m.auth);
    }
    assert AuthAt(t, i) && LineStart(t, i) && Blank(t, i, i);
    MatchIsByWords(beyond, t, so, i);
    if Recognized(beyond, t, so) {
      var m := FindMatch(beyond, t, so);
      assert FieldsAt(beyond, t, so, i);
    }
  }

  lemma MatchInLineIsAtItsStart(s: string, i: nat, line: string, p: nat, a: nat)
    requires i <= |s| && |line| > 4 && AuthAt(line, 0) && '\n' !in line
    requires i <= a < i + |line| + 1
    requires var t := Spliced(s, i, line + "\n"); LineStart(t, p) && Blank(t, p, a)
    ensures a == i
  {
    var t := Spliced(s, i, line + "\n");
    assert t[i] == (line + "\n")[0] == line[0];
    assert forall k | i <= k < i + |line| :: t[k] == line[k - i];
  }

  // ---- the control field ------------------------------------------------------------------------

  /** `build_line`. */
  function BuildLine(control: string, so: string, args: string): string {
    MODULE_TYPE + FIELD_SEPARATOR + control + FIELD_SEPARATOR + so + " " + args
  }

  /** The control field has one word, blanks around it allowed. */
  predicate OneWord(control: string) {
    var b := SkipSpaces(control, 0);
    var c := SkipWord(control, b);
    b < |control| && SkipSpaces(control, c) == |control|
  }

  /** The second word of the control field starts with `so` as a whole word. */
  predicate SecondWordIs(beyond: Class, control: string, so: string) {
    var d := SkipSpaces(control, SkipWord(control, SkipSpaces(control, 0)));
    d < |control| && WordAt(beyond, control, d, so)
  }

  lemma SkipSpacesIs(s: string, i: nat, j: nat)
    requires Blank(s, i, j) && j < |s| && !IsSpace(s[j])
    ensures SkipSpaces(s, i) == j
  {
  }

  lemma SkipWordIs(s: string, i: nat, j: nat)
    requires Solid(s, i, j) && j < |s| && IsSpace(s[j])
    ensures SkipWord(s, i) == j
  {
  }

  /** The four blanks of `FIELD_SEPARATOR` stand at `n`. */
  predicate SeparatorAt(t: string, n: nat) {
    n + 4 <= |t| && t[n] == ' ' && t[n + 1] == ' ' && t[n + 2] == ' ' && t[n + 3] == ' '
  }

  /** At `i` of `t` stands the line `build_line` makes of `control`, up to its module field. */
  predicate HeadAt(t: string, i: nat, control: string) {
    AuthAt(t, i) && SeparatorAt(t, i + 4) && At(t, i + 8, control) && SeparatorAt(t, i + 8 + |control|)
  }

  /** The same with the module field `so`; what follows the blank after it is free. */
  predicate LineAt(t: string, i: nat, control: string, so: string) {
    var n := i + 12 + |control|;
    HeadAt(t, i, control) && n + |so| < |t| && At(t, n, so) && t[n + |so|] == ' '
  }

  lemma BuildLineStands(x: string, control: string, so: string, args: string, y: string)
    ensures LineAt(x + (BuildLine(control, so, args) + "\n") + y, |x|, control, so)
  {
  }

  /** Where the first word of a control field, and what follows it, end up in the whole text. */
  lemma FirstControlWord(t: string, i: nat, control: string, b: nat, c: nat)
    requires HeadAt(t, i, control) && b == SkipSpaces(control, 0) < |control| && c == SkipWord(control, b)
    ensures SkipSpaces(t, i + 4) == i + 8 + b && SkipWord(t, i + 8 + b) == i + 8 + c
  {
    assert forall k | i + 8 <= k < i + 8 + |control| :: t[k] == control[k - (i + 8)];
    assert t[i + 8 + b] == control[b];
    SkipSpacesIs(t, i + 4, i + 8 + b);
    assert c < |control| ==> t[i + 8 + c] == control[c];
    SkipWordIs(t, i + 8 + b, i + 8 + c);
  }

  /** The next word of the control field, or the first word after it. */
  lemma NextControlWord(t: string, i: nat, control: string, c: nat, d: nat)
    requires HeadAt(t, i, control) && c <= |control| && d == SkipSpaces(control, c)
    ensures var n := i + 12 + |control|;
      SkipSpaces(t, i + 8 + c) == if d < |control| then i + 8 + d else n + SkipSpaces(t[n..], 0)
  {
    assert forall k | i + 8 <= k < i + 8 + |control| :: t[k] == control[k - (i + 8)];
    if d < |control| {
      assert t[i + 8 + d] == control[d];
      SkipSpacesIs(t, i + 8 + c, i + 8 + d);
    } else {
      var n := i + 12 + |control|;
      assert Blank(t, i + 8 + c, n);
      SkipOver(t, i + 8 + c, n);
      SkipIntoTail(t, n);
    }
  }

  lemma SkipOver(t: string, i: nat, n: nat)
    requires Blank(t, i, n)
    ensures SkipSpaces(t, i) == SkipSpaces(t, n)
  {
    var d := SkipSpaces(t, n);
    if d < |t| {
      SkipSpacesIs(t, i, d);
    } else {
      assert Blank(t, i, |t|);
    }
  }

  lemma SkipIntoTail(t: string, e: nat)
    requires e <= |t|
    ensures SkipSpaces(t, e) == e + SkipSpaces(t[e..], 0)
  {
    var y, d := t[e..], SkipSpaces(t[e..], 0);
    assert forall k | e <= k < |t| :: t[k] == y[k - e];
    if d < |y| {
      SkipSpacesIs(t, e, e + d);
    } else {
      assert Blank(t, e, |t|);
    }
  }

  lemma SpacesIntoTail(t: string, e: nat, c: nat)
    requires e <= |t| && c <= |t| - e
    ensures SkipSpaces(t, e + c) == e + SkipSpaces(t[e..], c)
  {
    SkipIntoTail(t, e + c);
    SkipIntoTail(t[e..], c);
    assert t[e..][c..] == t[e + c..];
  }

  lemma WordIntoTail(t: string, e: nat, b: nat)
    requires e <= |t| && b <= |t| - e
    ensures SkipWord(t, e + b) == e + SkipWord(t[e..], b)
  {
    var y, c := t[e..], SkipWord(t[e..], b);
    assert forall k | e <= k < |t| :: t[k] == y[k - e];
    if c < |y| {
      SkipWordIs(t, e + b, e + c);
    } else {
      assert Solid(t, e + b, |t|);
    }
  }

  lemma WordInControl(beyond: Class, t: string, i: nat, control: string, so: string, d: nat)
    requires HeadAt(t, i, control) && d < |control| && Solid(so, 0, |so|)
    ensures WordAt(beyond, t, i + 8 + d, so) <==> WordAt(beyond, control, d, so)
  {
    assert forall k | 0 <= k < |control| :: control[k] == t[i + 8 + k];
    if d + |so| > |control| {
      assert t[i + 8 + d + (|control| - d)] == ' ' && !IsSpace(so[|control| - d]);
    }
    if d + |so| <= |control| {
      assert At(t, i + 8 + d, so) <==> At(control, d, so);
      if d + |so| < |control| {
        assert control[d + |so|] == t[i + 8 + (d + |so|)];
      } else {
        assert t[i + 8 + |control|] == ' ';
      }
    }
  }

  lemma WordInTail(beyond: Class, t: string, e: nat, so: string, d: nat)
    requires e <= |t| && d <= |t| - e
    ensures WordAt(beyond, t, e + d, so) <==> WordAt(beyond, t[e..], d, so)
  {
    var y := t[e..];
    assert forall k | 0 <= k < |y| :: y[k] == t[e + k];
  }

  lemma WordsAdvance(s: string, b: nat, c: nat, d: nat)
    requires b < |s| && !IsSpace(s[b]) && c == SkipWord(s, b) && d == SkipSpaces(s, c)
    ensures b < c <= d && (c < |s| ==> c < d)
  {
  }

  lemma ThirdWordFrom(beyond: Class, t: string, so: string, i: nat, b: nat, c: nat, d: nat)
    requires i + 4 < b < c < d <= |t|
    requires SkipSpaces(t, i + 4) == b && SkipWord(t, b) == c && SkipSpaces(t, c) == d
    ensures ThirdWordIs(beyond, t, so, i) <==> WordAt(beyond, t, d, so)
  {
  }

  /** The first word of `s` starts with `so` as a whole word. */
  predicate FirstWordIs(beyond: Class, s: string, so: string) {
    WordAt(beyond, s, SkipSpaces(s, 0), so)
  }

  predicate IsBlank(s: string) {
    SkipSpaces(s, 0) == |s|
  }

  /** Whether the control field, and the text from the module field on, let the line be recognised. */
  predicate Recognizable(beyond: Class, control: string, so: string, tail: string) {
    if IsBlank(control) then SecondWordIs(beyond, tail, so)
    else if OneWord(control) then FirstWordIs(beyond, tail, so)
    else SecondWordIs(beyond, control, so)
  }

  /** The third word of the inserted line is `so` exactly when the control field is one word and what
      comes after it starts with `so`; or the field has more words and its second one is `so`; or the
      field is blank and the second word after it is `so`. The module field itself is free. */
  lemma ControlDecides(beyond: Class, t: string, i: nat, control: string, so: string, tail: string)
    requires HeadAt(t, i, control) && t[i + 12 + |control|..] == tail && |so| > 0 && Solid(so, 0, |so|)
    ensures ThirdWordIs(beyond, t, so, i) <==> Recognizable(beyond, control, so, tail)
  {
    if IsBlank(control) {
      GapIsBlank(t, i, control);
      AfterGap(beyond, t, i, i + 12 + |control|, so);
    } else if OneWord(control) {
      OneControlWord(beyond, t, i, control, so);
    } else {
      TwoControlWords(beyond, t, i, control, so);
    }
  }

  lemma OneControlWord(beyond: Class, t: string, i: nat, control: string, so: string)
    requires HeadAt(t, i, control) && OneWord(control)
    ensures ThirdWordIs(beyond, t, so, i) <==> FirstWordIs(beyond, t[i + 12 + |control|..], so)
  {
    var b, c := WordBeforeTail(t, i, control);
    ThirdWordInTail(beyond, t, so, i, b, c, i + 12 + |control|);
  }

  lemma WordBeforeTail(t: string, i: nat, control: string) returns (b: nat, c: nat)
    requires HeadAt(t, i, control) && OneWord(control)
    ensures var n := i + 12 + |control|;
      && i + 4 < b < c < n <= |t| && SkipSpaces(t, i + 4) == b && SkipWord(t, b) == c
      && SkipSpaces(t, c) == n + SkipSpaces(t[n..], 0)
  {
    var first := SkipSpaces(control, 0);
    var last := SkipWord(control, first);
    WordsAdvance(control, first, last, SkipSpaces(control, last));
    FirstControlWord(t, i, control, first, last);
    NextControlWord(t, i, control, last, |control|);
    b, c := i + 8 + first, i + 8 + last;
  }

  lemma ThirdWordInTail(beyond: Class, t: string, so: string, i: nat, b: nat, c: nat, n: nat)
    requires i + 4 < b < c < n <= |t| && SkipSpaces(t, i + 4) == b && SkipWord(t, b) == c
    requires SkipSpaces(t, c) == n + SkipSpaces(t[n..], 0)
    ensures ThirdWordIs(beyond, t, so, i) <==> FirstWordIs(beyond, t[n..], so)
  {
    var d := SkipSpaces(t[n..], 0);
    ThirdWordFrom(beyond, t, so, i, b, c, n + d);
    WordInTail(beyond, t, n, so, d);
  }

  lemma TwoControlWords(beyond: Class, t: string, i: nat, control: string, so: string)
    requires HeadAt(t, i, control) && !IsBlank(control) && !OneWord(control) && Solid(so, 0, |so|)
    ensures ThirdWordIs(beyond, t, so, i) <==> SecondWordIs(beyond, control, so)
  {
    var b := SkipSpaces(control, 0);
    var c := SkipWord(control, b);
    var d := SkipSpaces(control, c);
    WordsInControl(t, i, control, b, c, d);
    ThirdWordFrom(beyond, t, so, i, i + 8 + b, i + 8 + c, i + 8 + d);
    WordInControl(beyond, t, i, control, so, d);
  }

  lemma WordsInControl(t: string, i: nat, control: string, b: nat, c: nat, d: nat)
    requires HeadAt(t, i, control) && b == SkipSpaces(control, 0) < |control|
    requires c == SkipWord(control, b) && d == SkipSpaces(control, c) < |control|
    ensures b < c < d && SkipSpaces(t, i + 4) == i + 8 + b && SkipWord(t, i + 8 + b) == i + 8 + c
    ensures SkipSpaces(t, i + 8 + c) == i + 8 + d
  {
    WordsAdvance(control, b, c, d);
    FirstControlWord(t, i, control, b, c);
    NextControlWord(t, i, control, c, d);
  }

  lemma GapIsBlank(t: string, i: nat, control: string)
    requires HeadAt(t, i, control) && IsBlank(control)
    ensures Blank(t, i + 4, i + 12 + |control|)
  {
    assert forall k | i + 8 <= k < i + 8 + |control| :: t[k] == control[k - (i + 8)];
  }

  /** With only blanks up to `n`, the words from there on are the second and the third word. */
  lemma AfterGap(beyond: Class, t: string, i: nat, n: nat, so: string)
    requires i + 4 < n && Blank(t, i + 4, n) && |so| > 0
    ensures ThirdWordIs(beyond, t, so, i) <==> SecondWordIs(beyond, t[n..], so)
  {
    var b := SkipSpaces(t[n..], 0);
    var c := SkipWord(t[n..], b);
    var d := SkipSpaces(t[n..], c);
    WordsAfterGap(t, i, n, b, c, d);
    if d < |t[n..]| {
      SecondWordAdvances(t[n..], b, c, d);
    }
    TailDecides(beyond, t, so, i, n, b, c, d);
  }

  lemma WordsAfterGap(t: string, i: nat, n: nat, b: nat, c: nat, d: nat)
    requires i + 4 < n && Blank(t, i + 4, n)
    requires b == SkipSpaces(t[n..], 0) && c == SkipWord(t[n..], b) && d == SkipSpaces(t[n..], c)
    ensures SkipSpaces(t, i + 4) == n + b && SkipWord(t, n + b) == n + c && SkipSpaces(t, n + c) == n + d
  {
    SkipOver(t, i + 4, n);
    SkipIntoTail(t, n);
    WordIntoTail(t, n, b);
    SpacesIntoTail(t, n, c);
  }

  lemma TailDecides(beyond: Class, t: string, so: string, i: nat, n: nat, b: nat, c: nat, d: nat)
    requires i + 4 < n && n + b <= n + c <= n + d <= |t| && |so| > 0 && (n + d < |t| ==> b < c < d)
    requires SkipSpaces(t, i + 4) == n + b && SkipWord(t, n + b) == n + c && SkipSpaces(t, n + c) == n + d
    ensures ThirdWordIs(beyond, t, so, i) <==> d < |t[n..]| && WordAt(beyond, t[n..], d, so)
  {
    if n + d < |t| {
      ThirdWordFrom(beyond, t, so, i, n + b, n + c, n + d);
      WordInTail(beyond, t, n, so, d);
    } else {
      NoThirdWord(beyond, t, so, i, n + b, n + c);
    }
  }

  lemma SecondWordAdvances(s: string, b: nat, c: nat, d: nat)
    requires b <= c <= d < |s| && b == SkipSpaces(s, 0) && c == SkipWord(s, b) && d == SkipSpaces(s, c)
    ensures b < c < d
  {
  }

  lemma NoThirdWord(beyond: Class, t: string, so: string, i: nat, b: nat, c: nat)
    requires i + 4 <= b <= c <= |t| && |so| > 0
    requires SkipSpaces(t, i + 4) == b && SkipWord(t, b) == c && SkipSpaces(t, c) == |t|
    ensures !ThirdWordIs(beyond, t, so, i)
  {
  }

  // ---- the fallback line ------------------------------------------------------------------------

  /** A line of `build_line` at the start of a line, with a one-word control field, is recognised. */
  lemma LineIsRecognized(beyond: Class, t: string, i: nat, control: string, so: string)
    requires LineStart(t, i) && LineAt(t, i, control, so) && OneWord(control) && |so| > 0 && Solid(so, 0, |so|)
    ensures Recognized(beyond, t, so)
  {
    ControlDecides(beyond, t, i, control, so, t[i + 12 + |control|..]);
    TailStartsWith(beyond, t, i + 12 + |control|, so);
    MatchIsByWords(beyond, t, so, i);
    assert Blank(t, i, i);
  }

  lemma TailStartsWith(beyond: Class, t: string, n: nat, so: string)
    requires n + |so| < |t| && At(t, n, so) && t[n + |so|] == ' ' && |so| > 0 && Solid(so, 0, |so|)
    ensures FirstWordIs(beyond, t[n..], so)
  {
    var y := t[n..];
    assert forall k | 0 <= k < |y| :: y[k] == t[n + k];
    assert y[0] == so[0];
  }

  /** The line of the module stands at `i`, on one line of its own. */
  predicate LineKept(t: string, i: nat, control: string) {
    && LineStart(t, i) && LineAt(t, i, control, DEFAULT_SO_NAME) && t[LineEnd(t, i) - 1] == '\n'
    && '\n' !in control
  }

  lemma LineHasNoBreak(t: string, i: nat, control: string, so: string, k: nat)
    requires LineAt(t, i, control, so) && '\n' !in control && Solid(so, 0, |so|)
    requires i <= k <= i + 8 + |control| + 4 + |so|
    ensures t[k] != '\n'
  {
    var n := i + 8 + |control|;
    if n + 4 <= k < n + 4 + |so| {
      assert so[k - (n + 4)] == t[n + 4 + (k - (n + 4))];
    } else if i + 8 <= k < n {
      assert control[k - (i + 8)] == t[i + 8 + (k - (i + 8))];
    }
  }

  /** A line that mentions the module: the fallback goes right below it if and only if no line above
      mentions the module, and otherwise above it. */
  lemma MentionPlacesFallback(s: string, k: nat)
    requires LineStart(s, k) && k < |s| && Mentions(s[k..LineEnd(s, k)], DEFAULT_SO_NAME)
    ensures var q := BelowMention(s); q.Some? && (q.value <= k || q.value == LineEnd(s, k))
    ensures BelowMention(s) == Some(LineEnd(s, k)) <==>
      forall j: nat | j < k && LineStart(s, j) :: !Mentions(s[j..LineEnd(s, j)], DEFAULT_SO_NAME)
  {
    FirstMentionIsFirst(s, DEFAULT_SO_NAME, 0);
    var first := FirstMention(s, DEFAULT_SO_NAME, 0).value;
    if first < k {
      LinesDoNotOverlap(s, first, k);
    }
  }

  /** A built line on a line of its own: the fallback goes to the start of a line, right below the
      built line or above it. */
  lemma FallbackGoesToALineStart(t: string, i: nat, control: string)
    requires LineKept(t, i, control)
    ensures var q := BelowMention(t); q.Some? && LineStart(t, q.value) && (q.value <= i || q.value == LineEnd(t, i))
    ensures BelowMention(t) == Some(LineEnd(t, i)) <==>
      forall k: nat | k < i && LineStart(t, k) :: !Mentions(t[k..LineEnd(t, k)], DEFAULT_SO_NAME)
  {
    MentionsItself(t, i, control);
    MentionPlacesFallback(t, i);
  }

  lemma MentionsItself(t: string, i: nat, control: string)
    requires LineKept(t, i, control)
    ensures i + 8 + |control| + 4 + |DEFAULT_SO_NAME| + 1 < LineEnd(t, i)
    ensures Mentions(t[i..LineEnd(t, i)], DEFAULT_SO_NAME)
  {
    var n, so, e := i + 8 + |control|, DEFAULT_SO_NAME, LineEnd(t, i);
    assert e - 1 > n + 4 + |so| by {
      if e - 1 <= n + 4 + |so| {
        LineHasNoBreak(t, i, control, so, e - 1);
      }
    }
    var line := t[i..e];
    assert forall k | 0 <= k < |so| :: so[k] == t[n + 4 + k] == line[n + 4 - i + k];
    assert At(line, n + 4 - i, so);
  }

  /** Putting the fallback below the first mention keeps the line of the module whole. */
  lemma FallbackKeepsLine(t: string, i: nat, control: string, piece: string)
    requires LineKept(t, i, control) && |piece| > 0 && piece[|piece| - 1] == '\n'
    ensures BelowMention(t).Some?
    ensures var q := BelowMention(t).value; var i' := if q <= i then i + |piece| else i;
      LineStart(Spliced(t, q, piece), i') && LineAt(Spliced(t, q, piece), i', control, DEFAULT_SO_NAME)
  {
    FallbackGoesToALineStart(t, i, control);
    MentionsItself(t, i, control);
    LineMoves(t, i, LineEnd(t, i), BelowMention(t).value, control, DEFAULT_SO_NAME, piece);
  }

  lemma LineMoves(t: string, i: nat, e: nat, q: nat, control: string, so: string, piece: string)
    requires LineStart(t, i) && LineAt(t, i, control, so) && i + 8 + |control| + 4 + |so| < e <= |t|
    requires (q <= i || q == e) && |piece| > 0 && piece[|piece| - 1] == '\n'
    ensures var i' := if q <= i then i + |piece| else i;
      LineStart(Spliced(t, q, piece), i') && LineAt(Spliced(t, q, piece), i', control, so)
  {
  }

  /** A line of `build_line` put at the start of a line, with a one-word control field. */
  lemma InsertedLineIsRecognized(beyond: Class, t: string, q: nat, control: string, so: string, args: string)
    requires LineStart(t, q) && OneWord(control) && |so| > 0 && Solid(so, 0, |so|)
    ensures var t' := Spliced(t, q, BuildLine(control, so, args) + "\n");
      LineStart(t', q) && LineAt(t', q, control, so) && Recognized(beyond, t', so)
  {
    BuildLineStands(t[..q], control, so, args, t[q..]);
    LineIsRecognized(beyond, Spliced(t, q, BuildLine(control, so, args) + "\n"), q, control, so);
  }

  /** The fallback line itself has the shape of `build_line`. */
  lemma FallbackIsRecognized(beyond: Class, t: string, q: nat)
    requires LineStart(t, q)
    ensures Recognized(beyond, Spliced(t, q, U2F_FALLBACK_LINE + "\n"), U2F_SO_NAME)
  {
    FallbackIsALine();
    SolidIsOneWord("sufficient");
    InsertedLineIsRecognized(beyond, t, q, "sufficient", U2F_SO_NAME, "cue");
  }

  lemma FallbackIsALine()
    ensures U2F_FALLBACK_LINE == BuildLine("sufficient", U2F_SO_NAME, "cue")
  {
  }

  lemma SolidIsOneWord(control: string)
    requires |control| > 0 && Solid(control, 0, |control|)
    ensures OneWord(control)
  {
  }

  // ---- a mention on an unterminated line --------------------------------------------------------

  lemma OnlyP(k: nat)
    requires k < |U2F_FALLBACK_LINE| && U2F_FALLBACK_LINE[k] == 'p'
    ensures k == 22
  {
  }

  lemma FallbackLetters(t: string, n: nat)
    requires At(t, n, U2F_FALLBACK_LINE)
    ensures t[n] == 'a' && t[n + 1] == 'u' && t[n + 3] == 'h' && t[n + 7] == ' ' && t[n + 17] == 't'
    ensures forall k | n + 18 <= k < n + 22 :: IsSpace(t[k])
  {
    var u := U2F_FALLBACK_LINE;
    assert u[0] == t[n + 0] && u[1] == t[n + 1] && u[3] == t[n + 3] && u[7] == t[n + 7] && u[17] == t[n + 17];
    assert u[18] == t[n + 18] && u[19] == t[n + 19] && u[20] == t[n + 20] && u[21] == t[n + 21];
  }

  /** Read backwards from the module name of the fallback, a match starts at its own `auth`. */
  lemma WordsOfFallback(t: string, n: nat, a: nat, b: nat, c: nat)
    requires At(t, n, U2F_FALLBACK_LINE) && a + 4 < b < c < n + 22
    requires Blank(t, a + 4, b) && Solid(t, b, c) && Blank(t, c, n + 22)
    ensures n <= a
  {
    FallbackLetters(t, n);
    assert !IsSpace(t[n + 17]) && !IsSpace(t[n + 3]);
    assert !IsSpace(t[c - 1]);
    assert c == n + 18;
    assert b > n + 7;
  }

  lemma ModuleDoesNotStraddle(t: string, n: nat, d: nat)
    requires At(t, d, U2F_SO_NAME) && n + 1 < |t| && t[n] == 'a' && t[n + 1] == 'u'
    ensures d < n ==> d + |U2F_SO_NAME| <= n
    ensures d != n
  {
    assert forall k | d <= k < d + |U2F_SO_NAME| :: t[k] == U2F_SO_NAME[k - d];
  }

  /** The third word of a match cannot lie in, or run into, the appended fallback. */
  lemma ModuleInside(s: string, t: string, a: nat, b: nat, c: nat, d: nat)
    requires s <= t && t == s + U2F_FALLBACK_LINE + "\n"
    requires a + 4 < |s| && a + 4 < b < c < d <= |t|
    requires Blank(t, a + 4, b) && Solid(t, b, c) && Blank(t, c, d) && At(t, d, U2F_SO_NAME)
    ensures d + |U2F_SO_NAME| <= |s|
  {
    var u := U2F_FALLBACK_LINE;
    assert forall k | 0 <= k < |u| :: u[k] == t[|s| + k];
    FallbackLetters(t, |s|);
    ModuleDoesNotStraddle(t, |s|, d);
    if d > |s| {
      assert U2F_SO_NAME[0] == t[d + 0];
      OnlyP(d - |s|);
      WordsOfFallback(t, |s|, a, b, c);
      assert false;
    }
  }

  /** A line start followed by blanks and `auth` lies before the appended fallback: the fallback
      continues a line that already holds a word. */
  lemma StartInside(s: string, k: nat, w: nat, p: nat, a: nat)
    requires LineStart(s, k) && k <= w < |s| == LineEnd(s, k) && !IsSpace(s[w]) && s[|s| - 1] != '\n'
    requires var t := s + U2F_FALLBACK_LINE + "\n"; LineStart(t, p) && Blank(t, p, a) && AuthAt(t, a)
    ensures a < |s|
  {
    var u := U2F_FALLBACK_LINE;
    var t := s + u + "\n";
    assert forall j | |s| <= j < |s| + |u| :: t[j] == u[j - |s|];
    NoBreakInFallback();
    assert forall j | 0 <= j < |s| :: t[j] == s[j];
    assert p <= k || p == |t|;
  }

  lemma NoBreakInFallback()
    ensures forall j | 0 <= j < |U2F_FALLBACK_LINE| :: U2F_FALLBACK_LINE[j] != '\n'
  {
  }

  /** `auth` and the blank after it do not run into the appended fallback. */
  lemma AuthInside(s: string, t: string, a: nat)
    requires s <= t && |t| > |s| + 1 && t[|s|] == 'a' && a < |s| && AuthAt(t, a) && a + 4 < |t| && IsSpace(t[a + 4])
    ensures a + 4 < |s|
  {
  }

  lemma Glued(s: string, u: string, nl: string)
    requires |u| > 1
    ensures s <= s + u + nl && (s + u + nl)[|s|] == u[0]
    ensures forall j | 0 <= j < |s| :: s[j] == (s + u + nl)[j]
  {
  }

  lemma MatchInside(beyond: Class, s: string, a: nat)
    requires a < |s| && FieldsAt(beyond, s + U2F_FALLBACK_LINE + "\n", U2F_SO_NAME, a)
    ensures FieldsAt(beyond, s, U2F_SO_NAME, a)
  {
    var t := s + U2F_FALLBACK_LINE + "\n";
    var b: nat, c: nat, d: nat :| a + 4 < b < c < d <= |t| && PiecesAt(beyond, t, U2F_SO_NAME, a, b, c, d);
    PiecesOfGlued(beyond, s, t, a, b, c, d);
  }

  lemma PiecesOfGlued(beyond: Class, s: string, t: string, a: nat, b: nat, c: nat, d: nat)
    requires t == s + U2F_FALLBACK_LINE + "\n" && a < |s| && PiecesAt(beyond, t, U2F_SO_NAME, a, b, c, d)
    ensures PiecesAt(beyond, s, U2F_SO_NAME, a, b, c, d)
  {
    Glued(s, U2F_FALLBACK_LINE, "\n");
    AuthInside(s, t, a);
    ModuleInside(s, t, a, b, c, d);
    PiecesInside(beyond, s, t, U2F_SO_NAME, a, b, c, d);
  }

  lemma PiecesInside(beyond: Class, s: string, t: string, so: string, a: nat, b: nat, c: nat, d: nat)
    requires |s| <= |t| && forall j | 0 <= j < |s| :: s[j] == t[j]
    requires d + |so| <= |s| && PiecesAt(beyond, t, so, a, b, c, d)
    ensures PiecesAt(beyond, s, so, a, b, c, d)
  {
  }

  lemma MentionHasWord(s: string, k: nat, so: string) returns (w: nat)
    requires k <= |s| && Mentions(s[k..], so) && |so| > 0 && !IsSpace(so[0])
    ensures k <= w < |s| && !IsSpace(s[w])
  {
    var j: nat :| j <= |s| - k && At(s[k..], j, so);
    assert so[0] == s[k..][j + 0];
    w := k + j;
  }

  lemma StartIsOld(s: string, t: string, p: nat, a: nat)
    requires s <= t && LineStart(t, p) && Blank(t, p, a) && a < |s|
    ensures LineStart(s, p) && Blank(s, p, a)
  {
  }

  lemma UnterminatedMention(beyond: Class, s: string, k: nat)
    requires LineStart(s, k) && k < |s| == LineEnd(s, k) && Mentions(s[k..], DEFAULT_SO_NAME)
    requires s[|s| - 1] != '\n' && !Recognized(beyond, s, U2F_SO_NAME)
    ensures !Recognized(beyond, s + U2F_FALLBACK_LINE + "\n", U2F_SO_NAME)
  {
    var t := s + U2F_FALLBACK_LINE + "\n";
    if Recognized(beyond, t, U2F_SO_NAME) {
      var p: nat, a: nat :| p <= a <= |t| && LineStart(t, p) && Blank(t, p, a) && FieldsAt(beyond, t, U2F_SO_NAME, a);
      var w := MentionHasWord(s, k, DEFAULT_SO_NAME);
      StartInside(s, k, w, p, a);
      MatchInside(beyond, s, a);
      StartIsOld(s, t, p, a);
      assert false;
    }
  }

  /** After `--with-u2f-fallback` on a text without the fallback but with a mention of the module,
      the fallback is recognised exactly when the first line that mentions the module ends in a
      newline; only then is a second run a no-op. */
  lemma FallbackTakesIffTerminated(beyond: Class, s: string)
    requires !Recognized(beyond, s, U2F_SO_NAME) && BelowMention(s).Some?
    ensures Recognized(beyond, WithFallback(beyond, s), U2F_SO_NAME) <==> s[BelowMention(s).value - 1] == '\n'
  {
    var q := BelowMention(s).value;
    if s[q - 1] == '\n' {
      FallbackIsRecognized(beyond, s, q);
    } else {
      var k := FirstMention(s, DEFAULT_SO_NAME, 0).value;
      FirstMentionIsFirst(s, DEFAULT_SO_NAME, 0);
      assert s[k..LineEnd(s, k)] == s[k..] && s[..q] == s && s[q..] == [];
      UnterminatedMention(beyond, s, k);
      assert Spliced(s, q, U2F_FALLBACK_LINE + "\n") == s + U2F_FALLBACK_LINE + "\n";
    }
  }
}
