/** The text component of text.go: a string with a style, a memoised size,
    greedy wrapping to a maximum width, and the paint origin. Glyph
    measurement comes from the font library and is a parameter here. */
module Texts {
  import opened Optional
  import opened Ints
  import opened Image

  /** A font face, known only by identity. */
  datatype Face = Face(id: nat)

  datatype TextFont = TextFont(face: Face, xAdjustment: int, yAdjustment: int)

  /** The built-in bitmap font, shifted by 4 pixels on each axis. */
  const DefaultFont := TextFont(Face(0), 4, 4)

  const DefaultLineHeight := 12

  datatype TextStyle = TextStyle(color: Option<Color>, lineHeight: Option<int>, font: Option<TextFont>, width: Option<int>)

  /** A style every field `GetSize` and `Draw` dereference is set in. */
  predicate Complete(s: TextStyle) {
    s.color.Some? && s.lineHeight.Some? && s.font.Some?
  }

  type CompleteStyle = s: TextStyle | Complete(s) witness TextStyle(Some(White), Some(12), Some(DefaultFont), None)

  /** What the font library measures. `advance(face, s)` is the width of the
      bounding box of `s` (`text.BoundString(face, s).Size().X`);
      `extent(face, lh, s)` the same with the face set to line height `lh`. */
  datatype Metrics = Metrics(advance: (Face, string) -> int, extent: (Face, int, string) -> int)

  /** `str` is the current (possibly wrapped) string, `size` the memoised size. */
  datatype Text = Text(str: string, size: Option<Point>, style: CompleteStyle, drawnArea: Rectangle)

  // ---- styles

  function Overlay(target: TextStyle, style: TextStyle): TextStyle {
    TextStyle(Pick(target.color, style.color), Pick(target.lineHeight, style.lineHeight),
              Pick(target.font, style.font), Pick(target.width, style.width))
  }

  /** `mergeTextStyle`: the styles laid over `target` in list order. */
  function Merge(target: TextStyle, styles: seq<TextStyle>): TextStyle
    decreases |styles|
  {
    if |styles| == 0 then target
    else Overlay(Merge(target, styles[..|styles| - 1]), styles[|styles| - 1])
  }

  /** Each field of the merge is the last value the styles set, or the
      target's when none sets it. */
  lemma {:induction false} MergeLastWins(target: TextStyle, styles: seq<TextStyle>)
    ensures var r := Merge(target, styles);
      && r.color == LastPresent(target.color, seq(|styles|, i requires 0 <= i < |styles| => styles[i].color))
      && r.lineHeight == LastPresent(target.lineHeight, seq(|styles|, i requires 0 <= i < |styles| => styles[i].lineHeight))
      && r.font == LastPresent(target.font, seq(|styles|, i requires 0 <= i < |styles| => styles[i].font))
      && r.width == LastPresent(target.width, seq(|styles|, i requires 0 <= i < |styles| => styles[i].width))
    decreases |styles|
  {
    if |styles| > 0 {
      var n := |styles| - 1;
      var front := styles[..n];
      MergeLastWins(target, front);
      assert seq(|front|, i requires 0 <= i < |front| => front[i].color) == seq(|styles|, i requires 0 <= i < |styles| => styles[i].color)[..n];
      assert seq(|front|, i requires 0 <= i < |front| => front[i].lineHeight) == seq(|styles|, i requires 0 <= i < |styles| => styles[i].lineHeight)[..n];
      assert seq(|front|, i requires 0 <= i < |front| => front[i].font) == seq(|styles|, i requires 0 <= i < |styles| => styles[i].font)[..n];
      assert seq(|front|, i requires 0 <= i < |front| => front[i].width) == seq(|styles|, i requires 0 <= i < |styles| => styles[i].width)[..n];
    }
  }

  /** `getDefaultTextStyle`. */
  const DefaultStyle := TextStyle(Some(White), Some(DefaultLineHeight), Some(DefaultFont), None)

  /** `NewText`: the defaults with the given styles laid over them; the size
      is not yet known. Each field is the last value a style sets, else white,
      12 pixels, the default font, and no maximum width. */
  function NewText(str: string, styles: seq<TextStyle>): (t: Text)
    ensures t.str == str && t.size.None? && t.drawnArea == EmptyRectangle
    ensures t.style.color == LastPresent(Some(White), seq(|styles|, i requires 0 <= i < |styles| => styles[i].color))
    ensures t.style.lineHeight == LastPresent(Some(DefaultLineHeight), seq(|styles|, i requires 0 <= i < |styles| => styles[i].lineHeight))
    ensures t.style.font == LastPresent(Some(DefaultFont), seq(|styles|, i requires 0 <= i < |styles| => styles[i].font))
    ensures t.style.width == LastPresent(None, seq(|styles|, i requires 0 <= i < |styles| => styles[i].width))
  {
    var style := Merge(DefaultStyle, styles);
    MergeLastWins(DefaultStyle, styles);
    LastWins(Some(White), seq(|styles|, i requires 0 <= i < |styles| => styles[i].color));
    LastWins(Some(DefaultLineHeight), seq(|styles|, i requires 0 <= i < |styles| => styles[i].lineHeight));
    LastWins(Some(DefaultFont), seq(|styles|, i requires 0 <= i < |styles| => styles[i].font));
    Text(str, None, style, EmptyRectangle)
  }

  // ---- wrapping

  /** The wrap loop's state: the finished lines, and the line being filled. */
  datatype Wrapping = Wrapping(done: seq<string>, line: string)

  /** One character of the wrap loop (text.go:86-100). The line is broken
      exactly when the line with the character would measure wider than the
      maximum; a character too wide for an empty line becomes a line of its own. */
  function WrapStep(w: Wrapping, c: char, measure: string -> int, maxWidth: int): (r: Wrapping)
    ensures |r.done| == |w.done| + (if measure(w.line + [c]) > maxWidth then 1 else 0)
    ensures r.done[..|w.done|] == w.done
    ensures measure(w.line + [c]) > maxWidth && |w.line| == 0 ==> r.done[|w.done|] == [c] && r.line == []
    ensures measure(w.line + [c]) > maxWidth && |w.line| > 0 ==> r.done[|w.done|] == w.line && r.line == [c]
    ensures measure(w.line + [c]) <= maxWidth ==> r.line == w.line + [c]
  {
    if measure(w.line + [c]) > maxWidth then
      if |w.line| == 0 then Wrapping(w.done + [[c]], [])
      else Wrapping(w.done + [w.line], [c])
    else Wrapping(w.done, w.line + [c])
  }

  /** The wrap loop over the whole string. */
  function WrapLines(s: string, measure: string -> int, maxWidth: int): Wrapping
    decreases |s|
  {
    if |s| == 0 then Wrapping([], [])
    else WrapStep(WrapLines(s[..|s| - 1], measure, maxWidth), s[|s| - 1], measure, maxWidth)
  }

  /** Lines each followed by a line break. */
  function Terminated(ls: seq<string>): string
    decreases |ls|
  {
    if |ls| == 0 then [] else Terminated(ls[..|ls| - 1]) + ls[|ls| - 1] + ['\n']
  }

  /** Lines run together. */
  function Concat(ls: seq<string>): string
    decreases |ls|
  {
    if |ls| == 0 then [] else Concat(ls[..|ls| - 1]) + ls[|ls| - 1]
  }

  /** The wrapped string `GetSize` stores: finished lines each ended by a
      break, then the unfinished line if it is not empty. */
  function Wrap(s: string, measure: string -> int, maxWidth: int): string {
    var w := WrapLines(s, measure, maxWidth);
    if |w.line| > 0 then Terminated(w.done) + w.line else Terminated(w.done)
  }

  lemma TerminatedSnoc(ls: seq<string>, l: string)
    ensures Terminated(ls + [l]) == Terminated(ls) + l + ['\n']
    ensures Concat(ls + [l]) == Concat(ls) + l
  {
    assert (ls + [l])[..|ls|] == ls;
  }

  lemma WrapLinesSnoc(s: string, c: char, measure: string -> int, maxWidth: int)
    ensures WrapLines(s + [c], measure, maxWidth) == WrapStep(WrapLines(s, measure, maxWidth), c, measure, maxWidth)
  {
    assert (s + [c])[..|s|] == s;
  }

  /** The wrap loop as text.go writes it, building the result string directly. */
  method WrapText(s: string, measure: string -> int, maxWidth: int) returns (str: string)
    ensures str == Wrap(s, measure, maxWidth)
  {
    str := "";
    var line := "";
    var i := 0;
    while i < |s|
      invariant 0 <= i <= |s|
      invariant str == Terminated(WrapLines(s[..i], measure, maxWidth).done)
      invariant line == WrapLines(s[..i], measure, maxWidth).line
    {
      var c := s[i];
      ghost var w := WrapLines(s[..i], measure, maxWidth);
      StepWrapLines(s, i, measure, maxWidth);
      if measure(line + [c]) > maxWidth {
        if |line| == 0 {
          TerminatedSnoc(w.done, [c]);
          str := str + line + [c] + ['\n'];
          line := "";
        } else {
          TerminatedSnoc(w.done, line);
          str := str + line + ['\n'];
          line := [c];
        }
      } else {
        line := line + [c];
      }
      i := i + 1;
    }
    assert s[..|s|] == s;
    if |line| > 0 {
      str := str + line;
    }
  }

  lemma StepWrapLines(s: string, i: int, measure: string -> int, maxWidth: int)
    requires 0 <= i < |s|
    ensures WrapLines(s[..i + 1], measure, maxWidth) == WrapStep(WrapLines(s[..i], measure, maxWidth), s[i], measure, maxWidth)
  {
    assert s[..i + 1] == s[..i] + [s[i]];
    WrapLinesSnoc(s[..i], s[i], measure, maxWidth);
  }

  /** One step of the wrap loop moves the character to the end of the lines
      and changes nothing before it. */
  lemma StepKeepsCharacters(w: Wrapping, before: string, c: char, measure: string -> int, maxWidth: int)
    requires Concat(w.done) + w.line == before
    ensures var r := WrapStep(w, c, measure, maxWidth); Concat(r.done) + r.line == before + [c]
  {
    if measure(w.line + [c]) > maxWidth {
      if |w.line| == 0 {
        TerminatedSnoc(w.done, [c]);
        assert w.line + [c] == [c];
      } else {
        TerminatedSnoc(w.done, w.line);
      }
    }
  }

  /** Wrapping loses, adds and reorders no character: the finished lines and
      the last line run together give back the input. */
  lemma {:induction false} WrapKeepsCharacters(s: string, measure: string -> int, maxWidth: int)
    ensures var w := WrapLines(s, measure, maxWidth); Concat(w.done) + w.line == s
    decreases |s|
  {
    if |s| > 0 {
      var n := |s| - 1;
      var front := s[..n];
      assert front + [s[n]] == s;
      WrapKeepsCharacters(front, measure, maxWidth);
      StepKeepsCharacters(WrapLines(front, measure, maxWidth), front, s[n], measure, maxWidth);
    }
  }

  /** Every finished line holds at least one character, and every line,
      finished or not, fits the maximum width unless it is a single
      character. */
  lemma {:induction false} WrapLinesFit(s: string, measure: string -> int, maxWidth: int)
    ensures var w := WrapLines(s, measure, maxWidth);
            && (forall k | 0 <= k < |w.done| :: |w.done[k]| > 0 && (|w.done[k]| == 1 || measure(w.done[k]) <= maxWidth))
            && (|w.line| <= 1 || measure(w.line) <= maxWidth)
    decreases |s|
  {
    if |s| > 0 {
      var n := |s| - 1;
      WrapLinesFit(s[..n], measure, maxWidth);
    }
  }

  /** A string whose every prefix fits the maximum width is left as it is. */
  lemma {:induction false} WrapUnchangedWhenFits(s: string, measure: string -> int, maxWidth: int)
    requires forall k | 1 <= k <= |s| :: measure(s[..k]) <= maxWidth
    ensures WrapLines(s, measure, maxWidth) == Wrapping([], s)
    ensures Wrap(s, measure, maxWidth) == s
    decreases |s|
  {
    if |s| > 0 {
      var n := |s| - 1;
      var front := s[..n];
      forall k | 1 <= k <= |front|
        ensures measure(front[..k]) <= maxWidth
      {
        assert front[..k] == s[..k];
      }
      WrapUnchangedWhenFits(front, measure, maxWidth);
      assert measure(s[..|s|]) <= maxWidth;
      assert front + [s[n]] == s[..|s|] == s;
      FitsStep(front, s[n], measure, maxWidth);
    }
  }

  lemma FitsStep(front: string, c: char, measure: string -> int, maxWidth: int)
    requires WrapLines(front, measure, maxWidth) == Wrapping([], front)
    requires measure(front + [c]) <= maxWidth
    ensures WrapLines(front + [c], measure, maxWidth) == Wrapping([], front + [c])
  {
    WrapLinesSnoc(front, c, measure, maxWidth);
  }

  /** `n` line breaks. */
  function Breaks(n: nat): (r: string)
    ensures |r| == n
  {
    if n == 0 then [] else Breaks(n - 1) + ['\n']
  }

  /** Wrapping adds exactly one line break per finished line, and changes no
      other character count. */
  lemma WrapAddsBreaks(s: string, measure: string -> int, maxWidth: int)
    ensures var w := WrapLines(s, measure, maxWidth);
            multiset(Wrap(s, measure, maxWidth)) == multiset(s) + multiset(Breaks(|w.done|))
  {
    var w := WrapLines(s, measure, maxWidth);
    WrapKeepsCharacters(s, measure, maxWidth);
    TerminatedCount(w.done);
    assert multiset(Terminated(w.done) + w.line) == multiset(Terminated(w.done)) + multiset(w.line);
    assert multiset(Concat(w.done) + w.line) == multiset(Concat(w.done)) + multiset(w.line);
  }

  lemma {:induction false} TerminatedCount(ls: seq<string>)
    ensures multiset(Terminated(ls)) == multiset(Concat(ls)) + multiset(Breaks(|ls|))
    decreases |ls|
  {
    if |ls| > 0 {
      var n := |ls| - 1;
      var front := ls[..n];
      TerminatedCount(front);
      TerminatedSnoc(front, ls[n]);
      assert ls == front + [ls[n]];
      assert Breaks(|ls|) == Breaks(n) + ['\n'];
      assert multiset(Terminated(front) + ls[n] + ['\n']) == multiset(Terminated(front)) + multiset(ls[n]) + multiset(['\n']);
      assert multiset(Concat(front) + ls[n]) == multiset(Concat(front)) + multiset(ls[n]);
      assert multiset(Breaks(n) + ['\n']) == multiset(Breaks(n)) + multiset(['\n']);
    }
  }

  lemma BreaksCount(n: nat)
    ensures multiset(Breaks(n))['\n'] == n
  {
    if n > 0 {
      BreaksCount(n - 1);
      assert multiset(Breaks(n)) == multiset(Breaks(n - 1)) + multiset(['\n']);
    }
  }

  /** A last character too wide for a line of its own leaves the wrapped
      string ending in a break, so the text counts one more, empty, line. */
  lemma WrapTrailingBreak(s: string, measure: string -> int, maxWidth: int)
    requires |s| > 0 && WrapLines(s, measure, maxWidth).line == []
    ensures var r := Wrap(s, measure, maxWidth); |r| > 0 && r[|r| - 1] == '\n'
  {
    var w := WrapLines(s, measure, maxWidth);
    var n := |s| - 1;
    var prev := WrapLines(s[..n], measure, maxWidth);
    assert |w.done| > 0;
    TerminatedSnoc(w.done[..|w.done| - 1], w.done[|w.done| - 1]);
    assert w.done == w.done[..|w.done| - 1] + [w.done[|w.done| - 1]];
  }

  // ---- size, memo and painting

  /** The measure `GetSize` wraps with: advance in the text's own face. */
  function AdvanceIn(m: Metrics, face: Face): string -> int {
    s => m.advance(face, s)
  }

  /** The number of lines of a string: one more than its line breaks. */
  function LineCount(s: string): int {
    multiset(s)['\n'] + 1
  }

  datatype Measured = Measured(text: Text, size: Point)

  /** `GetSize`: the memoised size if there is one. Otherwise the string is
      wrapped when a maximum width is set (and stored wrapped), the size is
      the measured width less one by the number of lines times the line
      height, and it is memoised. */
  function GetSize(t: Text, m: Metrics): (r: Measured)
    ensures r.text.size == Some(r.size)
    ensures r.text.style == t.style && r.text.drawnArea == t.drawnArea
    ensures t.size.Some? ==> r == Measured(t, t.size.value)
    ensures t.size.None? && t.style.width.None? ==> r.text.str == t.str
    ensures t.size.None? && t.style.width.Some? ==>
              r.text.str == Wrap(t.str, AdvanceIn(m, t.style.font.value.face), t.style.width.value)
    ensures t.size.None? ==>
              && r.size.y == LineCount(r.text.str) * t.style.lineHeight.value
              && r.size.x == m.extent(t.style.font.value.face, t.style.lineHeight.value, r.text.str) - 1
  {
    if t.size.Some? then Measured(t, t.size.value)
    else
      var str := if t.style.width.Some? then Wrap(t.str, AdvanceIn(m, t.style.font.value.face), t.style.width.value) else t.str;
      var lineHeightPx := t.style.lineHeight.value;
      var lineCount := LineCount(str);
      var size := Point(m.extent(t.style.font.value.face, lineHeightPx, str) - 1, lineCount * lineHeightPx);
      Measured(t.(str := str, size := Some(size)), size)
  }

  /** Asking again returns the memoised size and changes nothing more. */
  lemma SizeIsMemoised(t: Text, m: Metrics)
    ensures GetSize(GetSize(t, m).text, m) == GetSize(t, m)
  {
  }

  /** A fresh size is as many line heights as the text has lines once
      wrapped: its own breaks, plus one per finished wrap line, plus one. */
  lemma {:induction false} HeightCountsLines(t: Text, m: Metrics)
    requires t.size.None? && t.style.width.Some?
    ensures var w := WrapLines(t.str, AdvanceIn(m, t.style.font.value.face), t.style.width.value);
            GetSize(t, m).size.y == (multiset(t.str)['\n'] + |w.done| + 1) * t.style.lineHeight.value
  {
    var measure, maxWidth := AdvanceIn(m, t.style.font.value.face), t.style.width.value;
    var w := WrapLines(t.str, measure, maxWidth);
    var str := Wrap(t.str, measure, maxWidth);
    WrapAddsBreaks(t.str, measure, maxWidth);
    BreaksCount(|w.done|);
    assert LineCount(str) == multiset(t.str)['\n'] + |w.done| + 1;
    assert GetSize(t, m).size.y == LineCount(str) * t.style.lineHeight.value;
  }

  /** `ChangeText`: a new string and no memoised size. */
  function ChangeText(t: Text, s: string): (r: Text)
    ensures r.str == s && r.size.None?
    ensures r.style == t.style && r.drawnArea == t.drawnArea
  {
    t.(str := s, size := None)
  }

  /** After `ChangeText` the size is worked out afresh from the new string:
      the string and size held before make no difference. */
  lemma ChangeTextRecomputes(t: Text, u: Text, s: string, m: Metrics)
    requires t.style == u.style
    ensures GetSize(ChangeText(t, s), m).size == GetSize(ChangeText(u, s), m).size
    ensures GetSize(ChangeText(t, s), m).text.str == GetSize(ChangeText(u, s), m).text.str
  {
  }

  datatype Painted = Painted(text: Text, origin: Point)

  /** `Draw`: measures the text, records the area it covers, and gives the
      origin the glyphs are painted from: shifted by the font's adjustments,
      and half a line height, rounded up, below the top. */
  function Draw(t: Text, x: int, y: int, m: Metrics): (r: Painted)
    ensures var measured := GetSize(t, m);
            r.text == measured.text.(drawnArea := Rect(x, y, x + measured.size.x, y + measured.size.y))
    ensures r.origin.x == x + t.style.font.value.xAdjustment
    ensures var lh, below := t.style.lineHeight.value, r.origin.y - y - t.style.font.value.yAdjustment;
            (lh >= 0 ==> 0 <= 2 * below - lh <= 1) && (lh < 0 ==> 2 * below - lh == 0 || 2 * below - lh == -1)
  {
    var measured := GetSize(t, m);
    var size := measured.size;
    var font := t.style.font.value;
    var lineHeightPx := t.style.lineHeight.value;
    Painted(measured.text.(drawnArea := Rect(x, y, x + size.x, y + size.y)),
            Point(x + font.xAdjustment, y + lineHeightPx - Half(lineHeightPx) + font.yAdjustment))
  }
}
