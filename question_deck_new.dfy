/**
 * The module-level variant of the question builder in `ppt_code_new.py`. Its font table, wrapper
 * and `add_question_slide` arithmetic are those of `ppt_generator.py` (modelled in
 * `QuestionLayout`); what differs is the driver, which has no guard for an empty question list and
 * fills a missing options entry with `""`, and `add_custom_slide`, a second slide layout with an
 * optional year label.
 */
module QuestionDeckNew {
  import opened Optional
  import opened Text
  import opened Sequences
  import opened QuestionLayout

  /* ---------- create_custom_presentation ---------- */

  /** What the driver hands over as `options`: the data's list, or the string `""` when the list is short. */
  datatype OptionsValue = OptionList(items: seq<string>) | OptionString(text: string)

  /** What `for option in options` visits: the items of a list, the characters of a string one at a time. */
  function Iterated(v: OptionsValue): seq<string>
  {
    match v
    case OptionList(items) => items
    case OptionString(text) => seq(|text|, i requires 0 <= i < |text| => [text[i]])
  }

  /** `data["Options"][i] if i < options_count else ""` */
  function NewOptionsAt(data: QuizData, i: nat): OptionsValue
  {
    var options := GetOr(data.options, []);
    if i < |options| then OptionList(options[i]) else OptionString("")
  }

  /** What the loop hands to `add_question_slide` for one question; the year is passed and then ignored. */
  datatype NewQuestionInput = NewQuestionInput(number: nat, question: string, year: string, options: OptionsValue)

  function NewInputs(data: QuizData): seq<NewQuestionInput>
  {
    seq(|data.questions|, i requires 0 <= i < |data.questions| =>
      NewQuestionInput(i + 1, data.questions[i], YearAt(data, i), NewOptionsAt(data, i)))
  }

  /** The slide of one question: the layout of `add_question_slide`, over the options as iterated. */
  const NewSlideFor: NewQuestionInput -> QuestionSlide :=
    (input: NewQuestionInput) => QuestionSlideLayout(input.number, input.question, Iterated(input.options))

  /** The slides of the presentation that is saved, whatever the data; nothing is returned to the caller. */
  function SavedSlides(data: QuizData): seq<QuestionSlide>
  {
    Map(NewInputs(data), NewSlideFor)
  }

  method CreateCustomPresentationNew(data: QuizData) returns (saved: seq<QuestionSlide>)
    ensures saved == SavedSlides(data)
  {
    var questionCount := |data.questions|;
    var years := GetOr(data.years, []);
    var allOptions := GetOr(data.options, []);
    var yearCount := |years|;
    var optionsCount := |allOptions|;
    ghost var inputs := NewInputs(data);
    saved := [];
    for i := 0 to questionCount
      invariant saved == Map(inputs[..i], NewSlideFor)
    {
      var question := data.questions[i];
      var year := if i < yearCount then years[i] else "";
      var options := if i < optionsCount then OptionList(allOptions[i]) else OptionString("");
      assert inputs[i] == NewQuestionInput(i + 1, question, year, options);
      MapNext(inputs, i, NewSlideFor);
      var slide := AddQuestionSlide(i + 1, question, Iterated(options));
      saved := saved + [slide];
    }
    assert inputs[..questionCount] == inputs;
  }

  /** The `""` default visits no option, exactly like the `[]` default of `ppt_generator.py`. */
  lemma NewOptionsDefault(data: QuizData, i: nat)
    ensures Iterated(NewOptionsAt(data, i)) == OptionsAt(data, i)
    ensures NewOptionsAt(data, i).OptionString? <==> data.options.None? || i >= |data.options.value|
  {
  }

  /**
   * The two drivers lay out the same slides: with questions, the saved deck is exactly the deck
   * `ppt_generator.py` returns; without questions this driver still saves a presentation, with no
   * slide, where the other one saves nothing and returns `None`.
   */
  lemma {:induction false} SavedSlidesAgree(data: QuizData)
    ensures |SavedSlides(data)| == |data.questions|
    ensures |data.questions| == 0 ==> SavedSlides(data) == [] && CustomPresentation(data).None?
    ensures |data.questions| > 0 ==> SavedSlides(data) == CustomPresentation(data).value
  {
    var news := NewInputs(data);
    MapIndex(news, NewSlideFor);
    if |data.questions| > 0 {
      var olds := Inputs(data);
      MapIndex(olds, SlideFor);
      forall i | 0 <= i < |data.questions|
        ensures Map(news, NewSlideFor)[i] == Map(olds, SlideFor)[i]
      {
        SlideForAgrees(data, i);
      }
    }
  }

  /** The two drivers lay out the same slide for each question. */
  lemma SlideForAgrees(data: QuizData, i: nat)
    requires i < |data.questions|
    ensures NewSlideFor(NewInputs(data)[i]) == SlideFor(Inputs(data)[i])
  {
    NewOptionsDefault(data, i);
  }

  /* ---------- add_custom_slide ---------- */

  /** What follows `"{n}. "` in the question paragraph: the whole `(text, height)` pair, or the text alone. */
  datatype Shown = ShownPair(text: string, height: real) | ShownText(text: string)

  /** The year label: its box and its text. */
  datatype YearLabel = YearLabel(box: Box, text: string)

  /** What `add_custom_slide` puts on a slide, besides the navigation bar and styling. */
  datatype CustomSlide = CustomSlide(
    numberPrefix: string,
    shown: Shown,
    questionBox: Box,
    year: Option<YearLabel>,
    optionsBox: Box,
    optionTexts: seq<string>)

  /** The question box: half an inch from the left, 0.6 inches from the top, 13 inches wide, 1.5 tall. */
  const CustomQuestionBox: Box := Box(0.5, 0.6, 13.0, 1.5)

  /** The height of the year label, in inches. */
  const YearHeight: real := 0.4

  /** The height of the options box, in inches. */
  const OptionsHeight: real := 3.0

  /**
   * The slide for a question shown as `shown`: a year label right below the question box when the
   * year is not empty, and the options box right below the label, or below the question box when
   * there is no label; one paragraph per option, as given.
   */
  function CustomSlideWith(questionNumber: nat, shown: Shown, options: seq<string>, year: string): CustomSlide
  {
    var qb := CustomQuestionBox;
    var yearLabel := if year != "" then Some(YearLabel(Box(qb.left, qb.top + qb.height, qb.width, YearHeight), year)) else None;
    var optionsTop := if year != "" then qb.top + qb.height + YearHeight else qb.top + qb.height;
    CustomSlide(DecimalString(questionNumber) + ". ", shown, qb, yearLabel, Box(qb.left, optionsTop, qb.width, OptionsHeight), options)
  }

  /** `add_custom_slide` as written: the question is wrapped at 600 points and the whole pair is shown. */
  function CustomSlideAsWritten(questionNumber: nat, question: string, options: seq<string>, year: string): CustomSlide
  {
    var wrapped := WrapToFit(question, 600.0);
    CustomSlideWith(questionNumber, ShownPair(wrapped.0, wrapped.1), options, year)
  }

  method AddCustomSlide(questionNumber: nat, question: string, options: seq<string>, year: string) returns (slide: CustomSlide)
    ensures slide == CustomSlideAsWritten(questionNumber, question, options, year)
  {
    var text, height := WrapTextToFit(question, 20.0, 600.0);
    var wrappedQuestion := (text, height);
    var questionBox := CustomQuestionBox;
    var yearLabel: Option<YearLabel> := None;
    var optionsTop: real;
    if year != "" {
      var yearBox := Box(questionBox.left, questionBox.top + questionBox.height, questionBox.width, YearHeight);
      yearLabel := Some(YearLabel(yearBox, year));
      optionsTop := yearBox.top + yearBox.height;
    } else {
      optionsTop := questionBox.top + questionBox.height;
    }
    var optionsBox := Box(questionBox.left, optionsTop, questionBox.width, OptionsHeight);
    var paragraphs: seq<string> := [];
    for i := 0 to |options|
      invariant paragraphs == options[..i]
    {
      assert options[..i + 1] == options[..i] + [options[i]];
      paragraphs := paragraphs + [options[i]];
    }
    assert options[..|options|] == options;
    slide := CustomSlide(DecimalString(questionNumber) + ". ", ShownPair(wrappedQuestion.0, wrappedQuestion.1),
                         questionBox, yearLabel, optionsBox, paragraphs);
  }

  /**
   * Where things go on a custom slide: the year label, present exactly when the year is not empty,
   * sits right below the question box and as wide as it; the options box starts right below the
   * label, 2.5 inches from the top, or right below the question box, 2.1 inches from the top, when
   * there is no label; it is aligned with the question box; one paragraph per option, in order.
   */
  lemma CustomSlidePlacement(questionNumber: nat, shown: Shown, options: seq<string>, year: string)
    ensures var s := CustomSlideWith(questionNumber, shown, options, year);
      var qbBottom := s.questionBox.top + s.questionBox.height;
      && (s.year.Some? <==> year != "")
      && (s.year.Some? ==>
            && s.year.value.text == year
            && s.year.value.box.top == qbBottom
            && s.year.value.box.left == s.questionBox.left && s.year.value.box.width == s.questionBox.width
            && s.optionsBox.top == s.year.value.box.top + s.year.value.box.height)
      && (s.year.None? ==> s.optionsBox.top == qbBottom)
      && s.optionsBox.top == (if year != "" then 2.5 else 2.1)
      && s.optionsBox.left == s.questionBox.left && s.optionsBox.width == s.questionBox.width
      && s.optionsBox.top >= qbBottom
      && s.optionTexts == options
  {
  }

  /**
   * As written, the question paragraph shows the `(text, height)` pair: besides the wrapped text it
   * carries the height, which is positive for every question with a word, so the slide never shows
   * the question alone.
   */
  lemma CustomSlideShowsHeight(questionNumber: nat, question: string, options: seq<string>, year: string)
    ensures var s := CustomSlideAsWritten(questionNumber, question, options, year);
      && s.shown.ShownPair?
      && Split(s.shown.text) == Split(question)
      && s.shown.height == WrapToFit(question, 600.0).1
      && (Split(question) != [] ==> s.shown.height > 0.0)
  {
    WrapToFitWords(question, 600.0);
    WrapHeightPositive(question, 600.0);
  }

  /** `add_custom_slide` with the pair unpacked: the paragraph shows the wrapped question only. */
  function IntendedCustomSlide(questionNumber: nat, question: string, options: seq<string>, year: string): CustomSlide
  {
    CustomSlideWith(questionNumber, ShownText(WrapToFit(question, 600.0).0), options, year)
  }

  /**
   * With the pair unpacked, the paragraph is the number followed by the question's words in order
   * and nothing else, and the slide differs from the one written only in that paragraph.
   */
  lemma IntendedCustomSlideText(questionNumber: nat, question: string, options: seq<string>, year: string)
    ensures var s := IntendedCustomSlide(questionNumber, question, options, year);
      var w := CustomSlideAsWritten(questionNumber, question, options, year);
      && s.shown.ShownText?
      && Split(s.shown.text) == Split(question)
      && DecimalValue(s.numberPrefix[..|s.numberPrefix| - 2]) == questionNumber
      && s.numberPrefix[|s.numberPrefix| - 2..] == ". "
      && s == w.(shown := ShownText(w.shown.text))
  {
    var s := IntendedCustomSlide(questionNumber, question, options, year);
    WrapToFitWords(question, 600.0);
    DecimalRoundTrip(questionNumber);
    assert s.numberPrefix[..|s.numberPrefix| - 2] == DecimalString(questionNumber);
  }
}
