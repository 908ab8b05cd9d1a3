/**
 * The question-slide builder of `ppt_generator.py` (`PPTHandler`): a font size chosen from the
 * length of a text, a greedy wrapper whose width test estimates every character at 0.4 of the font
 * size, the placement of the question box and the options box on a slide, and the loop over the
 * questions of the data. Text measures are in points, positions on the slide in inches.
 */
module QuestionLayout {
  import opened Optional
  import opened Text
  import opened Wrap
  import opened Sequences
  import opened Measures

  /* ---------- _calculate_dynamic_font_size ---------- */

  /** The font size, in points, for a text of the given length. */
  function DynamicFontSize(length: nat, maxSize: real, minSize: real): real
  {
    if length < 50 then maxSize
    else if length < 100 then 30.0
    else if length < 200 then 24.0
    else if length < 300 then 20.0
    else minSize
  }

  /** The size chosen with the default bounds, `Pt(36)` and `Pt(16)`. */
  function FontFor(text: string): (pt: real)
    ensures 16.0 <= pt <= 36.0
  {
    DynamicFontSize(|text|, 36.0, 16.0)
  }

  /**
   * A longer text never gets a larger font, and the size stays within the bounds, as long as the
   * bounds enclose the table's fixed sizes (30, 24 and 20 points).
   */
  lemma FontSizeMonotone(a: nat, b: nat, maxSize: real, minSize: real)
    requires a <= b && minSize <= 20.0 && 30.0 <= maxSize
    ensures DynamicFontSize(b, maxSize, minSize) <= DynamicFontSize(a, maxSize, minSize)
    ensures minSize <= DynamicFontSize(b, maxSize, minSize) <= maxSize
  {
  }

  /* ---------- wrap_text_to_fit ---------- */

  /**
   * The width test: the open line, as its joined text, and the word, without the space that would
   * join them, estimated at `approx_char_width` (0.4 of the font size) per character, within `maxWidth`.
   */
  function FitsWidth(charWidth: real, maxWidth: real): Fits<string>
  {
    (line: seq<string>, w: string) => WidthTest(|Join(line, " ")|, w, charWidth, maxWidth)
  }

  /** `len(current_line) + len(word)` characters at `charWidth` each fit in `maxWidth`. */
  predicate WidthTest(lineLength: nat, w: string, charWidth: real, maxWidth: real)
  {
    Stacked(lineLength + |w|, charWidth) <= maxWidth
  }

  /** Proof helper: the width test of a line, with the lambda applied. */
  lemma FitsWidthTest(charWidth: real, maxWidth: real, line: seq<string>, w: string)
    ensures FitsWidth(charWidth, maxWidth)(line, w) == WidthTest(|Join(line, " ")|, w, charWidth, maxWidth)
  {
  }

  /** `approx_char_width`: 0.4 of the font size. */
  function CharWidth(text: string): real
  {
    FontFor(text) * 0.4
  }

  /** The lines of `wrap_text_to_fit`: the font comes from the text's own length, never from the caller. */
  function WidthLines(text: string, maxWidth: real): seq<seq<string>>
  {
    Greedy(Split(text), FitsWidth(CharWidth(text), maxWidth))
  }

  /** The wrapped text and `total_height`: the number of lines times `line_height`, 1.2 times the font size. */
  function WrapToFit(text: string, maxWidth: real): (string, real)
  {
    var gs := WidthLines(text, maxWidth);
    (Render(gs), Stacked(|gs|, FontFor(text) * 1.2))
  }

  /** A space-joined list of words is its own `strip()`. */
  lemma JoinedStripped(ws: seq<string>)
    requires AllWords(ws)
    ensures Strip(Join(ws, " ")) == Join(ws, " ")
    ensures |Join(ws, " ")| > 0 <==> ws != []
  {
    if ws != [] {
      JoinWords(ws);
      StripStripped(Join(ws, " "));
    }
  }

  /** `current_line += " " + word if current_line else word` */
  lemma JoinExtend(ws: seq<string>, w: string)
    requires AllWords(ws)
    ensures Join(ws + [w], " ") == if |Join(ws, " ")| > 0 then Join(ws, " ") + " " + w else w
  {
    JoinedStripped(ws);
    if ws == [] {
      assert ws + [w] == [w];
    } else {
      JoinSnoc(ws, w, " ");
    }
  }

  /**
   * `wrap_text_to_fit`: the font size argument is not used (the result depends on the text and the
   * width only); the open line is kept as a string, as the source keeps it.
   */
  method WrapTextToFit(text: string, fontSize: real, maxWidth: real) returns (wrapped: string, totalHeight: real)
    ensures (wrapped, totalHeight) == WrapToFit(text, maxWidth)
  {
    var adjustedFontSize := DynamicFontSize(|text|, 36.0, 16.0);
    var words := Split(text);
    SplitWords(text);
    var lines: seq<string> := [];
    var currentLine := "";
    var approxCharWidth := adjustedFontSize * 0.4;
    assert approxCharWidth == CharWidth(text);
    ghost var fits := FitsWidth(CharWidth(text), maxWidth);
    ghost var closed: seq<seq<string>> := [];
    ghost var current: seq<string> := [];
    for i := 0 to |words|
      invariant GreedyState(words[..i], fits) == LineState(closed, current)
      invariant lines == Lines(closed)
      invariant AllWords(current)
      invariant currentLine == Join(current, " ")
    {
      var word := words[i];
      assert words[..i + 1] == words[..i] + [word];
      GreedyStateSnoc(words[..i], word, fits);
      FitsWidthTest(CharWidth(text), maxWidth, current, word);
      if !WidthTest(|currentLine|, word, approxCharWidth, maxWidth) {
        JoinedStripped(current);
        lines := lines + [Strip(currentLine)];
        closed := closed + [current];
        currentLine := word;
        current := [word];
      } else {
        JoinExtend(current, word);
        currentLine := if |currentLine| > 0 then currentLine + " " + word else word;
        current := current + [word];
      }
    }
    assert words[..|words|] == words;
    JoinedStripped(current);
    if |currentLine| > 0 {
      lines := lines + [Strip(currentLine)];
    }
    CloseLines(closed, current);
    var lineHeight := adjustedFontSize * 1.2;
    totalHeight := Stacked(|lines|, lineHeight);
    wrapped := Join(lines, "\n");
  }

  /** `if current_line: lines.append(current_line.strip())` gives the lines of the closed wrap. */
  lemma CloseLines(closed: seq<seq<string>>, current: seq<string>)
    requires AllWords(current)
    ensures Lines(Close(LineState(closed, current)))
         == if |Join(current, " ")| > 0 then Lines(closed) + [Strip(Join(current, " "))] else Lines(closed)
  {
    JoinedStripped(current);
  }

  lemma LinesOfWords(text: string, maxWidth: real)
    ensures IsGreedyWrap(Split(text), WidthLines(text, maxWidth), FitsWidth(CharWidth(text), maxWidth))
    ensures forall k :: 0 <= k < |WidthLines(text, maxWidth)| ==> AllWords(WidthLines(text, maxWidth)[k])
  {
    var fits := FitsWidth(CharWidth(text), maxWidth);
    SplitWords(text);
    GreedyIsGreedy(Split(text), fits);
    GreedyLinesAreWords(Split(text), WidthLines(text, maxWidth), fits);
  }

  /** Wrapping keeps the words of the text, in order. */
  lemma WrapToFitWords(text: string, maxWidth: real)
    ensures Split(WrapToFit(text, maxWidth).0) == Split(text)
  {
    LinesOfWords(text, maxWidth);
    SplitRender(WidthLines(text, maxWidth));
  }

  /** A text without words wraps to `("", 0)`, and only such a text wraps to the empty string. */
  lemma WrapToFitBlank(text: string, maxWidth: real)
    ensures WrapToFit(text, maxWidth).0 == "" <==> Split(text) == []
    ensures Split(text) == [] ==> WrapToFit(text, maxWidth) == ("", 0.0)
  {
    WrapToFitWords(text, maxWidth);
    LinesOfWords(text, maxWidth);
  }

  /**
   * The lines of `wrap_text_to_fit`, with `cw` the estimated character width: the test leaves out
   * the joining space, so a line of two or more words satisfies `(len(line) - 1) * cw <= maxWidth`;
   * a line closes only when the next word fails the test; only the first line can be empty, and it
   * is empty exactly when the first word alone is wider than `maxWidth`.
   */
  lemma WidthLinesShape(text: string, maxWidth: real)
    ensures var gs := WidthLines(text, maxWidth);
      var cw := FontFor(text) * 0.4;
      && (forall k :: 0 <= k < |gs| && |gs[k]| >= 2 ==>
            |Join(gs[k], " ")| >= 1 && Stacked(|Join(gs[k], " ")| - 1, cw) <= maxWidth)
      && (forall k :: 0 < k < |gs| ==> |gs[k]| > 0 && Stacked(|Join(gs[k - 1], " ")| + |gs[k][0]|, cw) > maxWidth)
      && (|Split(text)| > 0 ==> (|gs[0]| == 0 <==> Stacked(|Split(text)[0]|, cw) > maxWidth))
  {
    WidthLinesTight(text, maxWidth);
    WidthLinesBreaks(text, maxWidth);
    WidthLinesFirst(text, maxWidth);
  }

  lemma WidthLinesTight(text: string, maxWidth: real)
    ensures var gs := WidthLines(text, maxWidth);
      forall k :: 0 <= k < |gs| && |gs[k]| >= 2 ==>
        |Join(gs[k], " ")| >= 1 && Stacked(|Join(gs[k], " ")| - 1, CharWidth(text)) <= maxWidth
  {
    var gs := WidthLines(text, maxWidth);
    var fits := FitsWidth(CharWidth(text), maxWidth);
    GreedyIsGreedy(Split(text), fits);
    forall k | 0 <= k < |gs| && |gs[k]| >= 2
      ensures |Join(gs[k], " ")| >= 1 && Stacked(|Join(gs[k], " ")| - 1, CharWidth(text)) <= maxWidth
    {
      var g := gs[k];
      assert Tight(g, fits);
      assert fits(g[..|g| - 1], g[|g| - 1]);
      FitsWidthTest(CharWidth(text), maxWidth, g[..|g| - 1], g[|g| - 1]);
      TightLineWidth(g, CharWidth(text), maxWidth);
    }
  }

  lemma WidthLinesBreaks(text: string, maxWidth: real)
    ensures var gs := WidthLines(text, maxWidth);
      forall k :: 0 < k < |gs| ==> |gs[k]| > 0 && Stacked(|Join(gs[k - 1], " ")| + |gs[k][0]|, CharWidth(text)) > maxWidth
  {
    var gs := WidthLines(text, maxWidth);
    var fits := FitsWidth(CharWidth(text), maxWidth);
    GreedyIsGreedy(Split(text), fits);
    forall k | 0 < k < |gs|
      ensures |gs[k]| > 0 && Stacked(|Join(gs[k - 1], " ")| + |gs[k][0]|, CharWidth(text)) > maxWidth
    {
      assert gs[k] != [] && !fits(gs[k - 1], gs[k][0]);
      FitsWidthTest(CharWidth(text), maxWidth, gs[k - 1], gs[k][0]);
    }
  }

  lemma WidthLinesFirst(text: string, maxWidth: real)
    ensures var gs := WidthLines(text, maxWidth);
      |Split(text)| > 0 ==> (|gs[0]| == 0 <==> Stacked(|Split(text)[0]|, CharWidth(text)) > maxWidth)
  {
    var gs := WidthLines(text, maxWidth);
    var fits := FitsWidth(CharWidth(text), maxWidth);
    GreedyIsGreedy(Split(text), fits);
    if |Split(text)| > 0 {
      FitsWidthTest(CharWidth(text), maxWidth, [], Split(text)[0]);
      assert |Join([], " ")| == 0;
    }
  }

  /** A line whose last word passed the test is, less the one space the test leaves out, within the width. */
  lemma TightLineWidth(g: seq<string>, charWidth: real, maxWidth: real)
    requires |g| >= 2 && WidthTest(|Join(g[..|g| - 1], " ")|, g[|g| - 1], charWidth, maxWidth)
    ensures |Join(g, " ")| >= 1 && Stacked(|Join(g, " ")| - 1, charWidth) <= maxWidth
  {
    var n := |g| - 1;
    assert g[..n] + [g[n]] == g;
    JoinSnoc(g[..n], g[n], " ");
  }

  /** The number of line breaks in a string (`count('\n')`). */
  function Newlines(s: string): nat
  {
    if s == [] then 0 else (if s[0] == '\n' then 1 else 0) + Newlines(s[1..])
  }

  lemma {:induction false} NewlinesAppend(a: string, b: string)
    ensures Newlines(a + b) == Newlines(a) + Newlines(b)
    decreases |a|
  {
    if a == [] {
      assert a + b == b;
    } else {
      assert (a + b)[0] == a[0];
      assert (a + b)[1..] == a[1..] + b;
      NewlinesAppend(a[1..], b);
    }
  }

  lemma {:induction false} NewlinesNone(s: string)
    requires '\n' !in s
    ensures Newlines(s) == 0
    decreases |s|
  {
    if s != [] {
      assert s[0] in s;
      assert forall c :: c in s[1..] ==> c in s;
      NewlinesNone(s[1..]);
    }
  }

  /** Rendered lines of words hold one line break between consecutive lines and no other. */
  lemma {:induction false} NewlinesRender(gs: seq<seq<string>>)
    requires gs != [] && forall k :: 0 <= k < |gs| ==> AllWords(gs[k])
    ensures Newlines(Render(gs)) == |gs| - 1
    decreases |gs|
  {
    JoinWordsNoNewline(gs[0]);
    NewlinesNone(Join(gs[0], " "));
    if |gs| == 1 {
      assert Render(gs) == Join(gs[0], " ");
    } else {
      var rest := Render(gs[1..]);
      assert Lines(gs)[1..] == Lines(gs[1..]);
      assert Render(gs) == Join(gs[0], " ") + ("\n" + rest);
      NewlinesRender(gs[1..]);
      NewlinesAppend(Join(gs[0], " "), "\n" + rest);
      NewlinesAppend("\n", rest);
    }
  }

  /**
   * The returned height counts the lines of the returned text: for a text with words it is
   * `(wrapped.count('\n') + 1)` lines of 1.2 times the font size. For a text without words that
   * count is 1 while the height is 0.
   */
  lemma WrapToFitHeight(text: string, maxWidth: real)
    ensures var r := WrapToFit(text, maxWidth);
      && (Split(text) != [] ==> r.1 == Stacked(Newlines(r.0) + 1, FontFor(text) * 1.2))
      && (Split(text) == [] ==> Newlines(r.0) + 1 == 1 && r.1 == 0.0)
  {
    LinesOfWords(text, maxWidth);
    WrapToFitBlank(text, maxWidth);
    if Split(text) != [] {
      NewlinesRender(WidthLines(text, maxWidth));
    }
  }

  lemma WrapHeightPositive(text: string, maxWidth: real)
    ensures WrapToFit(text, maxWidth).1 >= 0.0
    ensures Split(text) != [] ==> WrapToFit(text, maxWidth).1 > 0.0
  {
    var n := |WidthLines(text, maxWidth)|;
    var lh := FontFor(text) * 1.2;
    LinesOfWords(text, maxWidth);
    StackedMono(0, n, lh);
    if n > 0 {
      StackedMono(1, n, lh);
    }
  }

  /* ---------- add_question_slide ---------- */

  /** A text box on the slide: left edge, top edge, width and height, in inches. */
  datatype Box = Box(left: real, top: real, width: real, height: real)

  /** What `add_question_slide` puts on a slide, besides the navigation bar and styling. */
  datatype QuestionSlide = QuestionSlide(
    numberText: string,
    questionText: string,
    questionFontSize: real,
    questionBox: Box,
    optionsBox: Box,
    optionTexts: seq<string>)

  /** `prs.slide_height` as `create_custom_presentation` sets it, in inches. */
  const SlideHeight: real := 7.5

  /** `(slide_height - Inches(1)) / 2`: the middle of the slide below the header. */
  const SlideMiddle: real := (SlideHeight - 1.0) / 2.0

  /** `str(n)`: the decimal digits of a natural number. */
  function DecimalString(n: nat): (s: string)
    ensures |s| >= 1 && forall i :: 0 <= i < |s| ==> '0' <= s[i] <= '9'
    decreases n
  {
    if n < 10 then [('0' as int + n) as char] else DecimalString(n / 10) + [('0' as int + n % 10) as char]
  }

  /** The number a string of decimal digits denotes. */
  function DecimalValue(s: string): nat
    requires forall i :: 0 <= i < |s| ==> '0' <= s[i] <= '9'
  {
    if |s| == 0 then 0 else DecimalValue(s[..|s| - 1]) * 10 + (s[|s| - 1] as int - '0' as int)
  }

  /** The digits of `str(n)` read back give `n`, and they start with a zero only for `n == 0`. */
  lemma {:induction false} DecimalRoundTrip(n: nat)
    ensures DecimalValue(DecimalString(n)) == n
    ensures DecimalString(n)[0] == '0' <==> n == 0
    decreases n
  {
    if n >= 10 {
      var s := DecimalString(n);
      DecimalRoundTrip(n / 10);
      assert s[..|s| - 1] == DecimalString(n / 10);
      assert s[0] == DecimalString(n / 10)[0];
    }
  }

  /** A text as `wrap_text_to_fit` returns it: the wrapped text and its height in points. */
  type WrappedText = (string, real)

  /** An option as `add_question_slide` wraps it: at most 600 points wide. */
  const WrapOption: string -> WrappedText := (o: string) => WrapToFit(o, 600.0)

  /** `total_options_height`: every option's height plus `Pt(10).pt` of spacing. */
  function OptionsTotal(wrapped: seq<WrappedText>): real
  {
    if |wrapped| == 0 then 0.0 else OptionsTotal(wrapped[..|wrapped| - 1]) + wrapped[|wrapped| - 1].1 + 10.0
  }

  /** `wrapped_options`: the wrapped texts alone. */
  function Texts(wrapped: seq<WrappedText>): seq<string>
  {
    seq(|wrapped|, i requires 0 <= i < |wrapped| => wrapped[i].0)
  }

  function Max(a: real, b: real): real
  {
    if a >= b then a else b
  }

  /** The question box: 7.5 inches from the left, 1 inch from the top, 6.3 wide, the wrapped height plus 0.2 inches. */
  function QuestionBox(textHeight: real): Box
  {
    Box(7.5, 1.0, 6.3, textHeight / 72.0 + 0.2)
  }

  /**
   * The options box: aligned with the question box, at least 1 inch below its bottom, or lower when
   * centring the options on the middle of the slide puts them lower.
   */
  function OptionsBox(questionBox: Box, total: real): Box
  {
    var minOptionsTop := questionBox.top + questionBox.height + 1.0;
    Box(questionBox.left, Max(minOptionsTop, SlideMiddle - total / 72.0 / 2.0), questionBox.width, total / 72.0 + 0.5)
  }

  /** The slide, from the wrapped question, the question's font size and the wrapped options. */
  function SlideFrom(number: nat, question: WrappedText, fontSize: real, options: seq<WrappedText>): QuestionSlide
  {
    var questionBox := QuestionBox(question.1);
    QuestionSlide(DecimalString(number) + ".", question.0, fontSize, questionBox,
                  OptionsBox(questionBox, OptionsTotal(options)), Texts(options))
  }

  /** `add_question_slide`: the question wrapped at 700 points, the options at 600. */
  function QuestionSlideLayout(number: nat, question: string, options: seq<string>): QuestionSlide
  {
    SlideFrom(number, WrapToFit(question, 700.0), FontFor(question), Map(options, WrapOption))
  }

  lemma OptionsSnoc(wrapped: seq<WrappedText>, w: WrappedText)
    ensures OptionsTotal(wrapped + [w]) == OptionsTotal(wrapped) + w.1 + 10.0
    ensures Texts(wrapped + [w]) == Texts(wrapped) + [w.0]
  {
    assert (wrapped + [w])[..|wrapped|] == wrapped;
  }

  method AddQuestionSlide(questionNumber: nat, question: string, options: seq<string>) returns (slide: QuestionSlide)
    ensures slide == QuestionSlideLayout(questionNumber, question, options)
  {
    var wrappedQuestion, textHeight := WrapTextToFit(question, 36.0, 700.0);
    var questionBox := Box(7.5, 1.0, 6.3, textHeight / 72.0 + 0.2);
    var dynamicFontSize := DynamicFontSize(|question|, 36.0, 16.0);
    var wrappedOptions, totalOptionsHeight := WrapOptions(options);
    var minOptionsTop := questionBox.top + questionBox.height + 1.0;
    var optionsTop := Max(minOptionsTop, SlideMiddle - totalOptionsHeight / 72.0 / 2.0);
    var optionsBox := Box(questionBox.left, optionsTop, questionBox.width, totalOptionsHeight / 72.0 + 0.5);
    slide := QuestionSlide(DecimalString(questionNumber) + ".", wrappedQuestion, dynamicFontSize, questionBox, optionsBox, wrappedOptions);
  }

  /** The loop of `add_question_slide` over the options: each is wrapped at 600 points and its height plus 10 points added up. */
  method WrapOptions(options: seq<string>) returns (wrappedOptions: seq<string>, totalOptionsHeight: real)
    ensures wrappedOptions == Texts(Map(options, WrapOption))
    ensures totalOptionsHeight == OptionsTotal(Map(options, WrapOption))
  {
    totalOptionsHeight := 0.0;
    wrappedOptions := [];
    ghost var done: seq<WrappedText> := [];
    for i := 0 to |options|
      invariant done == Map(options[..i], WrapOption)
      invariant totalOptionsHeight == OptionsTotal(done)
      invariant wrappedOptions == Texts(done)
    {
      var wrappedOption, optionHeight := WrapTextToFit(options[i], 18.0, 600.0);
      MapNext(options, i, WrapOption);
      OptionsSnoc(done, (wrappedOption, optionHeight));
      wrappedOptions := wrappedOptions + [wrappedOption];
      totalOptionsHeight := totalOptionsHeight + optionHeight + 10.0;
      done := done + [(wrappedOption, optionHeight)];
    }
    assert options[..|options|] == options;
  }

  /** The options' total adds up over the options, and every option takes at least its 10 points of spacing. */
  lemma {:induction false} OptionsTotalAppend(a: seq<WrappedText>, b: seq<WrappedText>)
    requires forall i :: 0 <= i < |b| ==> b[i].1 >= 0.0
    ensures OptionsTotal(a + b) == OptionsTotal(a) + OptionsTotal(b)
    ensures OptionsTotal(b) >= 10.0 * |b| as real
    decreases |b|
  {
    if |b| == 0 {
      assert a + b == a;
    } else {
      var n := |b| - 1;
      assert (a + b)[..|a + b| - 1] == a + b[..n];
      assert (a + b)[|a + b| - 1] == b[n];
      OptionsTotalAppend(a, b[..n]);
    }
  }

  /**
   * Where the options go, whatever the wrapped texts: at least 1 inch below the bottom of the
   * question box and no higher than the middle of the slide less half the options' height, at the
   * larger of the two; as wide as the question box and aligned with it; as tall as the options plus
   * half an inch, which is at least 10 points per option.
   */
  lemma SlidePlacement(number: nat, question: WrappedText, fontSize: real, options: seq<WrappedText>)
    requires question.1 >= 0.0 && forall i :: 0 <= i < |options| ==> options[i].1 >= 0.0
    ensures var s := SlideFrom(number, question, fontSize, options);
      var total := OptionsTotal(options);
      var below := s.questionBox.top + s.questionBox.height + 1.0;
      && s.questionBox.height >= 0.2
      && s.optionsBox.top >= below
      && s.optionsBox.top >= SlideMiddle - total / 144.0
      && (s.optionsBox.top == below || s.optionsBox.top == SlideMiddle - total / 144.0)
      && s.optionsBox.left == s.questionBox.left && s.optionsBox.width == s.questionBox.width
      && s.optionsBox.height == total / 72.0 + 0.5
      && s.optionsBox.height >= 0.5 + 10.0 * |options| as real / 72.0
  {
    OptionsTotalAppend([], options);
    assert [] + options == options;
  }

  /** Every option, wrapped, keeps its words and has a height of at least 0. */
  lemma WrappedOptions(options: seq<string>)
    ensures |Map(options, WrapOption)| == |options|
    ensures forall i :: 0 <= i < |options| ==>
      Map(options, WrapOption)[i].1 >= 0.0 && Split(Map(options, WrapOption)[i].0) == Split(options[i])
  {
    MapIndex(options, WrapOption);
    forall i | 0 <= i < |options|
      ensures WrapOption(options[i]).1 >= 0.0 && Split(WrapOption(options[i]).0) == Split(options[i])
    {
      WrapHeightPositive(options[i], 600.0);
      WrapToFitWords(options[i], 600.0);
    }
  }

  /** The placement of the options on a question slide. */
  lemma OptionsPlacement(number: nat, question: string, options: seq<string>)
    ensures var s := QuestionSlideLayout(number, question, options);
      var total := OptionsTotal(Map(options, WrapOption));
      var below := s.questionBox.top + s.questionBox.height + 1.0;
      && s.optionsBox.top >= below
      && s.optionsBox.top >= SlideMiddle - total / 144.0
      && (s.optionsBox.top == below || s.optionsBox.top == SlideMiddle - total / 144.0)
      && s.optionsBox.height >= 0.5 + 10.0 * |options| as real / 72.0
  {
    WrapHeightPositive(question, 700.0);
    WrappedOptions(options);
    SlidePlacement(number, WrapToFit(question, 700.0), FontFor(question), Map(options, WrapOption));
  }

  /**
   * What `add_question_slide` writes: the number followed by a dot, the question with its words in
   * order, in the size chosen from the question's length, and one paragraph per option, in order,
   * each with the option's words.
   */
  lemma QuestionSlideTexts(number: nat, question: string, options: seq<string>)
    ensures var s := QuestionSlideLayout(number, question, options);
      && DecimalValue(s.numberText[..|s.numberText| - 1]) == number && s.numberText[|s.numberText| - 1] == '.'
      && Split(s.questionText) == Split(question)
      && s.questionFontSize == FontFor(question)
      && |s.optionTexts| == |options|
      && forall i :: 0 <= i < |options| ==> Split(s.optionTexts[i]) == Split(options[i])
  {
    var s := QuestionSlideLayout(number, question, options);
    DecimalRoundTrip(number);
    assert s.numberText[..|s.numberText| - 1] == DecimalString(number);
    WrapToFitWords(question, 700.0);
    WrappedOptions(options);
  }

  /* ---------- create_custom_presentation ---------- */

  /** The `Question`, `Year` and `Options` lists of the data; the last two may be absent. */
  datatype QuizData = QuizData(questions: seq<string>, years: Option<seq<string>>, options: Option<seq<seq<string>>>)

  /** What the loop hands to `add_question_slide` for one question. */
  datatype QuestionInput = QuestionInput(number: nat, question: string, year: string, options: seq<string>)

  /** `data["Year"][i]` when that list is long enough, `""` otherwise. */
  function YearAt(data: QuizData, i: nat): string
  {
    var years := GetOr(data.years, []);
    if i < |years| then years[i] else ""
  }

  /** `data["Options"][i]` when that list is long enough, `[]` otherwise. */
  function OptionsAt(data: QuizData, i: nat): seq<string>
  {
    var options := GetOr(data.options, []);
    if i < |options| then options[i] else []
  }

  function Inputs(data: QuizData): seq<QuestionInput>
  {
    seq(|data.questions|, i requires 0 <= i < |data.questions| =>
      QuestionInput(i + 1, data.questions[i], YearAt(data, i), OptionsAt(data, i)))
  }

  /** The slide of one question; the year does not reach it. */
  const SlideFor: QuestionInput -> QuestionSlide :=
    (input: QuestionInput) => QuestionSlideLayout(input.number, input.question, input.options)

  /** The slides of the saved presentation, or `None` when there is no question. */
  function CustomPresentation(data: QuizData): Option<seq<QuestionSlide>>
  {
    if |data.questions| == 0 then None else Some(Map(Inputs(data), SlideFor))
  }

  method CreateCustomPresentation(data: QuizData) returns (deck: Option<seq<QuestionSlide>>)
    ensures deck == CustomPresentation(data)
  {
    var questionCount := |data.questions|;
    var years := GetOr(data.years, []);
    var allOptions := GetOr(data.options, []);
    var yearCount := |years|;
    var optionsCount := |allOptions|;
    if questionCount == 0 {
      return None;
    }
    ghost var inputs := Inputs(data);
    var slides: seq<QuestionSlide> := [];
    for i := 0 to questionCount
      invariant slides == Map(inputs[..i], SlideFor)
    {
      var question := data.questions[i];
      var year := if i < yearCount then years[i] else "";
      var options := if i < optionsCount then allOptions[i] else [];
      assert inputs[i] == QuestionInput(i + 1, question, year, options);
      MapNext(inputs, i, SlideFor);
      var slide := AddQuestionSlide(i + 1, question, options);
      slides := slides + [slide];
    }
    assert inputs[..questionCount] == inputs;
    return Some(slides);
  }

  /**
   * `create_custom_presentation` saves nothing when there is no question; otherwise one slide per
   * question, in order, numbered from 1, with the question's options (none when the options list is
   * shorter); a missing year is the empty string.
   */
  lemma CustomPresentationShape(data: QuizData)
    ensures CustomPresentation(data) == None <==> |data.questions| == 0
    ensures var deck := CustomPresentation(data);
      deck.Some? ==>
        && |deck.value| == |data.questions|
        && forall i :: 0 <= i < |data.questions| ==>
             && deck.value[i].numberText == DecimalString(i + 1) + "."
             && Split(deck.value[i].questionText) == Split(data.questions[i])
             && |deck.value[i].optionTexts| == |OptionsAt(data, i)|
    ensures forall i :: 0 <= i < |data.questions| ==>
      (YearAt(data, i) == "" <== data.years.None? || i >= |data.years.value|)
      && (OptionsAt(data, i) == [] <== data.options.None? || i >= |data.options.value|)
  {
    if |data.questions| > 0 {
      var inputs := Inputs(data);
      MapIndex(inputs, SlideFor);
      forall i | 0 <= i < |data.questions|
        ensures var s := Map(inputs, SlideFor)[i];
          && s.numberText == DecimalString(i + 1) + "."
          && Split(s.questionText) == Split(data.questions[i])
          && |s.optionTexts| == |OptionsAt(data, i)|
      {
        QuestionSlideTexts(i + 1, data.questions[i], OptionsAt(data, i));
      }
    }
  }
}
