/**
 * The text helpers of the bullet-point deck builder (`ai_presentation_generator.py`):
 * wrapping a point at 60 characters, splitting a point into the part that fits a text box
 * and its overflow, estimating the height of a wrapped point, and the paragraph a point becomes.
 */
module BulletText {
  import opened Text
  import opened Wrap
  import opened Measures

  /** The character budget per line of `wrap_text_to_fit`. */
  const WrapWidth: nat := 60

  /** `max_line_length` of `split_text_to_fit`, also the characters per line `estimate_text_height` counts on. */
  const LineLength: nat := 50

  /** The three characters the source writes before every point (an arrow, as mis-decoded text). */
  const BulletMarker: string := "\U{201A}\U{FB}\U{A7}"

  /* ---------- wrap_text_to_fit ---------- */

  /** `current_length` as the wrapping loop keeps it: the joined open line plus one separator, 0 for an empty line. */
  function OpenLength(line: seq<string>): nat
  {
    if |line| == 0 then 0 else |Join(line, " ")| + 1
  }

  /** The test of `wrap_text_to_fit`: `current_length + len(word) <= 60`. */
  predicate FitsWrapLine(line: seq<string>, w: string)
  {
    OpenLength(line) + |w| <= WrapWidth
  }

  function WrapLines(text: string): seq<seq<string>>
  {
    Greedy(Split(text), FitsWrapLine)
  }

  function WrapText(text: string): string
  {
    Render(WrapLines(text))
  }

  lemma OpenLengthSnoc(line: seq<string>, w: string)
    ensures OpenLength(line + [w]) == OpenLength(line) + |w| + 1
  {
    if |line| == 0 {
      assert line + [w] == [w];
    } else {
      JoinSnoc(line, w, " ");
    }
  }

  method WrapTextToFit(text: string) returns (wrapped: string)
    ensures wrapped == WrapText(text)
  {
    var words := Split(text);
    var lines: seq<string> := [];
    var currentLine: seq<string> := [];
    var currentLength := 0;
    ghost var closed: seq<seq<string>> := [];
    for i := 0 to |words|
      invariant GreedyState(words[..i], FitsWrapLine) == LineState(closed, currentLine)
      invariant lines == Lines(closed)
      invariant currentLength == OpenLength(currentLine)
    {
      var word := words[i];
      assert words[..i + 1] == words[..i] + [word];
      OpenLengthSnoc(currentLine, word);
      if currentLength + |word| <= WrapWidth {
        currentLine := currentLine + [word];
        currentLength := currentLength + |word| + 1;
      } else {
        lines := lines + [Join(currentLine, " ")];
        closed := closed + [currentLine];
        currentLine := [word];
        currentLength := |word| + 1;
      }
    }
    assert words[..|words|] == words;
    if |currentLine| > 0 {
      lines := lines + [Join(currentLine, " ")];
      assert lines == Lines(closed + [currentLine]);
    }
    wrapped := Join(lines, "\n");
  }

  /** Wrapping keeps the words of the point, in order. */
  lemma WrapTextWords(text: string)
    ensures Split(WrapText(text)) == Split(text)
  {
    var ws := Split(text);
    SplitWords(text);
    GreedyIsGreedy(ws, FitsWrapLine);
    GreedyLinesAreWords(ws, WrapLines(text), FitsWrapLine);
    SplitRender(WrapLines(text));
  }

  /** A point wraps to the empty string exactly when it holds no words. */
  lemma WrapTextBlank(text: string)
    ensures WrapText(text) == "" <==> Split(text) == []
  {
    WrapTextWords(text);
    GreedyIsGreedy(Split(text), FitsWrapLine);
  }

  /** A line of at least two words is joined from words that each passed the budget test. */
  lemma TightLineFits(g: seq<string>, fits: Fits<string>, width: nat)
    requires |g| >= 2 && Tight(g, fits)
    requires forall line, w :: fits(line, w) ==> OpenLength(line) + |w| <= width
    ensures |Join(g, " ")| <= width
  {
    var n := |g| - 1;
    assert fits(g[..n], g[n]);
    assert g[..n] + [g[n]] == g;
    JoinSnoc(g[..n], g[n], " ");
  }

  /**
   * The lines `wrap_text_to_fit` produces: a line of two or more words is at most 60 characters;
   * a line closes only when the next word would take it past 60; only the first line can be empty,
   * and it is empty exactly when the first word alone is longer than 60 characters.
   */
  lemma WrapLinesShape(text: string)
    ensures var gs := WrapLines(text);
      && (forall k :: 0 <= k < |gs| && |gs[k]| >= 2 ==> |Join(gs[k], " ")| <= WrapWidth)
      && (forall k :: 0 < k < |gs| ==> |gs[k]| > 0 && OpenLength(gs[k - 1]) + |gs[k][0]| > WrapWidth)
      && (|Split(text)| > 0 ==> (|gs[0]| == 0 <==> |Split(text)[0]| > WrapWidth))
  {
    var gs := WrapLines(text);
    GreedyIsGreedy(Split(text), FitsWrapLine);
    forall k | 0 <= k < |gs| && |gs[k]| >= 2 ensures |Join(gs[k], " ")| <= WrapWidth {
      TightLineFits(gs[k], FitsWrapLine, WrapWidth);
    }
  }

  /** The wrapped point starts with a line break exactly when its first word is longer than 60 characters. */
  lemma WrapTextLeadingBreak(text: string)
    requires |Split(text)| > 0
    ensures |WrapText(text)| > 0
    ensures WrapText(text)[0] == '\n' <==> |Split(text)[0]| > WrapWidth
  {
    var ws := Split(text);
    var gs := WrapLines(text);
    WrapTextBlank(text);
    WrapLinesShape(text);
    GreedyIsGreedy(ws, FitsWrapLine);
    SplitWords(text);
    GreedyLinesAreWords(ws, gs, FitsWrapLine);
    var ls := Lines(gs);
    if |gs[0]| == 0 {
      assert |gs| >= 2;
      assert ls[0] == "";
      assert WrapText(text) == "" + "\n" + Join(ls[1..], "\n");
    } else {
      JoinWords(gs[0]);
      assert ls[0] == Join(gs[0], " ");
      if |ls| == 1 {
        assert WrapText(text) == ls[0];
      } else {
        assert WrapText(text) == ls[0] + "\n" + Join(ls[1..], "\n");
      }
    }
  }

  /* ---------- split_text_to_fit ---------- */

  /** The test of `split_text_to_fit`: `len(" ".join(current_line) + " " + word) <= 50`. */
  predicate FitsSplitLine(line: seq<string>, w: string)
  {
    |Join(line, " ") + " " + w| <= LineLength
  }

  function SplitLines(text: string): seq<seq<string>>
  {
    Greedy(Split(text), FitsSplitLine)
  }

  /**
   * How many of `n` lines of height `lineHeight` the fitting loop places: the longest run of lines,
   * from the first, each of which keeps the accumulated height within `available`.
   */
  function FitCount(n: nat, available: real, lineHeight: real): (k: nat)
    ensures k <= n
    ensures forall j :: 0 < j <= k ==> Stacked(j, lineHeight) <= available
    ensures k < n ==> Stacked(k + 1, lineHeight) > available
  {
    if n == 0 then 0
    else
      var k := FitCount(n - 1, available, lineHeight);
      if k == n - 1 && Stacked(n, lineHeight) <= available then n else k
  }

  /** The fitted and the overflowing part of a point, each stripped. */
  function SplitToFit(text: string, available: real, lineHeight: real): (string, string)
  {
    var ls := Lines(SplitLines(text));
    var k := FitCount(|ls|, available, lineHeight);
    (Strip(Spaced(ls[..k])), Strip(Spaced(ls[k..])))
  }

  /**
   * One iteration of the fitting loop, with `m` lines fitted so far: the line goes to the fitted
   * part exactly while `i < k`.
   */
  lemma FitStep(n: nat, i: nat, k: nat, m: nat, available: real, lineHeight: real)
    requires i < n && k == FitCount(n, available, lineHeight)
    requires m == (if i < k then i else k)
    ensures Stacked(m, lineHeight) + lineHeight > available <==> k <= i
  {
    assert Stacked(m + 1, lineHeight) == Stacked(m, lineHeight) + lineHeight;
  }

  lemma SpacedSlice(ls: seq<string>, a: nat, i: nat)
    requires a <= i < |ls|
    ensures Spaced(ls[a..i]) + ls[i] + " " == Spaced(ls[a..i + 1])
  {
    assert ls[a..i + 1] == ls[a..i] + [ls[i]];
    SpacedSnoc(ls[a..i], ls[i]);
  }

  lemma SpacedPrefix(ls: seq<string>, i: nat)
    requires i < |ls|
    ensures Spaced(ls[..i]) + ls[i] + " " == Spaced(ls[..i + 1])
  {
    assert ls[..i + 1] == ls[..i] + [ls[i]];
    SpacedSnoc(ls[..i], ls[i]);
  }

  /** The first loop of `split_text_to_fit`: the point's words wrapped at 50 characters. */
  method WrapForSplit(text: string) returns (wrappedLines: seq<string>)
    ensures wrappedLines == Lines(SplitLines(text))
  {
    var words := Split(text);
    wrappedLines := [];
    var currentLine: seq<string> := [];
    ghost var closed: seq<seq<string>> := [];
    for i := 0 to |words|
      invariant GreedyState(words[..i], FitsSplitLine) == LineState(closed, currentLine)
      invariant wrappedLines == Lines(closed)
    {
      var word := words[i];
      assert words[..i + 1] == words[..i] + [word];
      if |Join(currentLine, " ") + " " + word| <= LineLength {
        currentLine := currentLine + [word];
      } else {
        wrappedLines := wrappedLines + [Join(currentLine, " ")];
        closed := closed + [currentLine];
        currentLine := [word];
      }
    }
    assert words[..|words|] == words;
    if |currentLine| > 0 {
      wrappedLines := wrappedLines + [Join(currentLine, " ")];
      assert wrappedLines == Lines(closed + [currentLine]);
    }
  }

  /**
   * `split_text_to_fit`: the text frame argument is not used by the source and is dropped; the
   * wrapping loop is `WrapForSplit`.
   */
  method SplitTextToFit(text: string, available: real, lineHeight: real) returns (fitted: string, remaining: string)
    ensures (fitted, remaining) == SplitToFit(text, available, lineHeight)
  {
    var wrappedLines := WrapForSplit(text);
    var fittedText := "";
    var remainingText := "";
    var estimated: real := 0.0;
    ghost var k := FitCount(|wrappedLines|, available, lineHeight);
    ghost var m := 0;
    for i := 0 to |wrappedLines|
      invariant m == if i < k then i else k
      invariant fittedText == Spaced(wrappedLines[..m])
      invariant remainingText == Spaced(wrappedLines[m..i])
      invariant estimated == Stacked(m, lineHeight)
    {
      var line := wrappedLines[i];
      FitStep(|wrappedLines|, i, k, m, available, lineHeight);
      if estimated + lineHeight > available {
        SpacedSlice(wrappedLines, k, i);
        remainingText := remainingText + line + " ";
      } else {
        SpacedPrefix(wrappedLines, i);
        fittedText := fittedText + line + " ";
        estimated := estimated + lineHeight;
        m := m + 1;
      }
    }
    assert m == k && wrappedLines[k..|wrappedLines|] == wrappedLines[k..];
    fitted := Strip(fittedText);
    remaining := Strip(remainingText);
  }

  lemma LinesSlices(gs: seq<seq<string>>, k: nat)
    requires k <= |gs|
    ensures Lines(gs)[..k] == Lines(gs[..k]) && Lines(gs)[k..] == Lines(gs[k..])
  {
  }

  /** Between them, the fitted part and the overflow hold the words of the point, in order. */
  lemma SplitToFitWords(text: string, available: real, lineHeight: real)
    ensures Split(SplitToFit(text, available, lineHeight).0) + Split(SplitToFit(text, available, lineHeight).1) == Split(text)
  {
    var gs := SplitLines(text);
    SplitWords(text);
    GreedyFlatten(Split(text), FitsSplitLine);
    FlattenAllWords(gs);
    SplitHalves(gs, FitCount(|Lines(gs)|, available, lineHeight));
  }

  /** Cutting wrapped lines of words anywhere and spacing out each half keeps the words, in order. */
  lemma SplitHalves(gs: seq<seq<string>>, k: nat)
    requires k <= |gs|
    requires forall i :: 0 <= i < |gs| ==> AllWords(gs[i])
    ensures Split(Strip(Spaced(Lines(gs)[..k]))) + Split(Strip(Spaced(Lines(gs)[k..]))) == Flatten(gs)
  {
    LinesSlices(gs, k);
    WordLinesSlices(gs, k);
    SpacedWords(gs[..k]);
    SpacedWords(gs[k..]);
    FlattenSplitAt(gs, k);
  }

  lemma WordLinesSlices(gs: seq<seq<string>>, k: nat)
    requires k <= |gs|
    requires forall i :: 0 <= i < |gs| ==> AllWords(gs[i])
    ensures forall i :: 0 <= i < k ==> AllWords(gs[..k][i])
    ensures forall i :: 0 <= i < |gs| - k ==> AllWords(gs[k..][i])
  {
    forall i | 0 <= i < |gs| - k ensures AllWords(gs[k..][i]) {
      assert gs[k..][i] == gs[k + i];
    }
  }

  lemma FlattenSplitAt<T>(gs: seq<seq<T>>, k: nat)
    requires k <= |gs|
    ensures Flatten(gs) == Flatten(gs[..k]) + Flatten(gs[k..])
  {
    assert gs == gs[..k] + gs[k..];
    FlattenAppend(gs[..k], gs[k..]);
  }

  lemma SpacedWords(gs: seq<seq<string>>)
    requires forall i :: 0 <= i < |gs| ==> AllWords(gs[i])
    ensures Split(Strip(Spaced(Lines(gs)))) == Flatten(gs)
  {
    SplitStrip(Spaced(Lines(gs)));
    SplitSpaced(gs);
  }

  /** Nothing fits when the room left is less than one line; everything fits when there is room for every line. */
  lemma SplitToFitExtremes(text: string, available: real, lineHeight: real)
    requires lineHeight > 0.0
    ensures available < lineHeight ==> SplitToFit(text, available, lineHeight).0 == ""
    ensures Stacked(|SplitLines(text)|, lineHeight) <= available ==> SplitToFit(text, available, lineHeight).1 == ""
  {
    var ls := Lines(SplitLines(text));
    var k := FitCount(|ls|, available, lineHeight);
    if available < lineHeight {
      if k > 0 {
        StackedMono(1, k, lineHeight);
      }
      assert ls[..k] == [];
    }
    if Stacked(|ls|, lineHeight) <= available {
      if k < |ls| {
        StackedMono(k + 1, |ls|, lineHeight);
      }
      assert ls[k..] == [];
    }
  }

  /**
   * For a point with words, nothing overflows exactly when every wrapped line is fitted, that is
   * exactly when the room left holds every line.
   */
  lemma SplitToFitOverflowEmpty(text: string, available: real, lineHeight: real)
    requires lineHeight > 0.0
    ensures var n := |SplitLines(text)|;
      Split(text) != [] ==>
        && (SplitToFit(text, available, lineHeight).1 == "" <==> FitCount(n, available, lineHeight) == n)
        && (SplitToFit(text, available, lineHeight).1 == "" <==> Stacked(n, lineHeight) <= available)
  {
    var gs := SplitLines(text);
    var n := |gs|;
    var k := FitCount(|Lines(gs)|, available, lineHeight);
    if Split(text) != [] {
      SplitToFitExtremes(text, available, lineHeight);
      if k < n {
        OverflowHasWords(text, k);
      }
    }
  }

  /** Lines left over after the first `k` always hold a word: only the first line can be empty. */
  lemma OverflowHasWords(text: string, k: nat)
    requires Split(text) != [] && k < |SplitLines(text)|
    ensures Split(Strip(Spaced(Lines(SplitLines(text))[k..]))) != []
  {
    var gs := SplitLines(text);
    SplitWords(text);
    GreedyIsGreedy(Split(text), FitsSplitLine);
    FlattenAllWords(gs);
    SplitHalves(gs, k);
    var rest := gs[k..];
    assert rest[|rest| - 1] == gs[|gs| - 1];
    FlattenHas(rest, |rest| - 1, 0);
  }

  /**
   * The converse of the first extreme does not hold: a first word of 50 characters or more leaves
   * the first wrapped line empty, so with room for exactly one line nothing is fitted and every word
   * overflows, although the room is not less than a line.
   */
  lemma SplitToFitLongFirstWord(text: string, lineHeight: real)
    requires lineHeight > 0.0
    requires Split(text) != [] && |Split(text)[0]| >= LineLength
    ensures var r := SplitToFit(text, lineHeight, lineHeight);
      && r.0 == ""
      && Split(r.1) == Split(text)
  {
    var gs := SplitLines(text);
    var ws := Split(text);
    GreedyIsGreedy(ws, FitsSplitLine);
    assert |Join([], " ") + " " + ws[0]| > LineLength;
    assert gs[0] == [];
    var ls := Lines(gs);
    var k := FitCount(|ls|, lineHeight, lineHeight);
    assert gs[|gs| - 1] != [];
    assert |ls| >= 2;
    assert Stacked(1, lineHeight) == lineHeight;
    assert Stacked(2, lineHeight) == Stacked(1, lineHeight) + lineHeight;
    assert k == 1;
    assert ls[..k] == [""];
    assert Spaced([""]) == " ";
    assert Strip(" ") == "";
    SplitToFitWords(text, lineHeight, lineHeight);
  }

  /**
   * The lines `split_text_to_fit` produces: a line of two or more words is at most 50 characters;
   * a line closes only when the next word would take it past 50; only the first line can be empty,
   * and it is empty exactly when the first word alone is 50 characters or longer.
   */
  lemma SplitLinesShape(text: string)
    ensures var gs := SplitLines(text);
      && (forall k :: 0 <= k < |gs| && |gs[k]| >= 2 ==> |Join(gs[k], " ")| <= LineLength)
      && (forall k :: 0 < k < |gs| ==> |gs[k]| > 0 && |Join(gs[k - 1], " ")| + 1 + |gs[k][0]| > LineLength)
      && (|Split(text)| > 0 ==> (|gs[0]| == 0 <==> |Split(text)[0]| >= LineLength))
  {
    var gs := SplitLines(text);
    GreedyIsGreedy(Split(text), FitsSplitLine);
    forall line, w | FitsSplitLine(line, w) ensures OpenLength(line) + |w| <= LineLength {
    }
    forall k | 0 <= k < |gs| && |gs[k]| >= 2 ensures |Join(gs[k], " ")| <= LineLength {
      TightLineFits(gs[k], FitsSplitLine, LineLength);
    }
  }

  /* ---------- estimate_text_height ---------- */

  /** `len(text) // 50 + 1`: one more than the number of whole 50-character runs. */
  function EstimatedLines(text: string): (n: nat)
    ensures n >= 1 && (n - 1) * LineLength <= |text| < n * LineLength
  {
    |text| / LineLength + 1
  }

  function EstimateTextHeight(text: string, lineHeight: real): real
  {
    EstimatedLines(text) as real * lineHeight
  }

  /** The estimate is within one line height of the proportional height of `len(text) / 50` lines. */
  lemma EstimateTextHeightBounds(text: string, lineHeight: real)
    requires lineHeight > 0.0
    ensures var h := EstimateTextHeight(text, lineHeight);
      h - lineHeight <= |text| as real * lineHeight / LineLength as real < h
  {
    EstimateAbove(text, lineHeight);
    EstimateBelow(text, lineHeight);
  }

  /** Proof helper: the lower half of `EstimateTextHeightBounds`. */
  lemma EstimateAbove(text: string, lineHeight: real)
    requires lineHeight > 0.0
    ensures EstimateTextHeight(text, lineHeight) - lineHeight <= |text| as real * lineHeight / LineLength as real
  {
    var n := EstimatedLines(text);
    MulMono((n - 1) as real, |text| as real / 50.0, lineHeight);
    assert (|text| as real / 50.0) * lineHeight == |text| as real * lineHeight / 50.0;
  }

  /** Proof helper: the upper half of `EstimateTextHeightBounds`. */
  lemma EstimateBelow(text: string, lineHeight: real)
    requires lineHeight > 0.0
    ensures |text| as real * lineHeight / LineLength as real < EstimateTextHeight(text, lineHeight)
  {
    var n := EstimatedLines(text);
    MulStrict(|text| as real / 50.0, n as real, lineHeight);
    assert (|text| as real / 50.0) * lineHeight == |text| as real * lineHeight / 50.0;
  }

  /** Proof helper: multiplying by a positive factor keeps the order. */
  lemma MulMono(a: real, b: real, x: real)
    requires a <= b && x > 0.0
    ensures a * x <= b * x
  {
  }

  /** Proof helper: multiplying by a positive factor keeps the strict order. */
  lemma MulStrict(a: real, b: real, x: real)
    requires a < b && x > 0.0
    ensures a * x < b * x
  {
  }

  /** Proof helper: scaling by a positive factor keeps the order. */
  lemma ScaleMono(a: nat, b: nat, x: real)
    requires a <= b && x > 0.0
    ensures a as real * x <= b as real * x
  {
  }

  /** A longer text is never estimated shorter, and every text takes at least one line. */
  lemma EstimateTextHeightMono(a: string, b: string, lineHeight: real)
    requires lineHeight > 0.0 && |a| <= |b|
    ensures lineHeight <= EstimateTextHeight(a, lineHeight) <= EstimateTextHeight(b, lineHeight)
  {
    ScaleMono(1, EstimatedLines(a), lineHeight);
    ScaleMono(EstimatedLines(a), EstimatedLines(b), lineHeight);
  }

  /* ---------- add_point_to_textbox ---------- */

  /** The paragraph text `add_point_to_textbox` adds, and the overflow it returns. */
  function AddPoint(point: string, available: real, lineHeight: real): (string, string)
  {
    var parts := SplitToFit(point, available, lineHeight);
    (BulletMarker + " " + parts.0, parts.1)
  }

  /**
   * `add_point_to_textbox`: the paragraph to append to the text box, and the overflow the source
   * returns to its caller.
   */
  method AddPointToTextbox(point: string, available: real, lineHeight: real) returns (paragraph: string, overflow: string)
    ensures (paragraph, overflow) == AddPoint(point, available, lineHeight)
  {
    var fitted, rest := SplitTextToFit(point, available, lineHeight);
    paragraph := BulletMarker + " " + fitted;
    overflow := rest;
  }

  lemma MarkerIsWord()
    ensures IsWord(BulletMarker)
  {
  }

  /** The paragraph is the marker followed by the first words of the point; the overflow holds the rest. */
  lemma AddPointWords(point: string, available: real, lineHeight: real)
    ensures Split(AddPoint(point, available, lineHeight).0) + Split(AddPoint(point, available, lineHeight).1)
         == [BulletMarker] + Split(point)
  {
    var parts := SplitToFit(point, available, lineHeight);
    SplitToFitWords(point, available, lineHeight);
    MarkerSplit(parts.0, parts.1);
  }

  lemma MarkerSplit(a: string, b: string)
    ensures Split(BulletMarker + " " + a) + Split(b) == [BulletMarker] + (Split(a) + Split(b))
  {
    MarkerIsWord();
    SplitWordSpace(BulletMarker, a);
  }
}
