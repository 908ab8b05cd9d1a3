# Slide text layout of the quiz and notes deck builders

This project models, in Dafny, the text-layout core of the PowerPoint builders of a Telegram bot
that turns study notes and question lists into decks.

**Bullet-point decks** (`ai_presentation_generator.py`):
- `wrap_text_to_fit` wraps a point greedily at 60 characters.
- `estimate_text_height` estimates the height of a point from its length.
- `split_text_to_fit` re-wraps the point at 50 characters. It keeps the lines that fit the room left on the slide and returns the rest as overflow.
- `add_point_to_textbox` writes the arrow marker and the fitted part as a paragraph.
- `create_presentation` walks the entries and their points. It places a point on the current slide while the room left is at least the point's height, and opens a new slide otherwise.

**Question decks** (`ppt_generator.py`, and its module-level copy `ppt_code_new.py`):
- `_calculate_dynamic_font_size` picks a font size from the length of a text.
- `wrap_text_to_fit` wraps greedily with a width test that estimates each character at 0.4 of that font size. It returns the text and a height of 1.2 font sizes per line.
- `add_question_slide` places a question box and an options box. The options box sits one inch below the question, or centred on the slide when that is lower.
- `create_custom_presentation` builds one slide per question.
- `add_custom_slide` (`ppt_code_new.py` only) lays out a question, an optional year label and the options.
- In `ppt_code_new.py`, lines 33-191 repeat the font table, `wrap_text_to_fit` and `add_question_slide` of `ppt_generator.py` as module-level functions. There are two differences. `add_question_slide` takes an extra `year` argument and ignores it. `_calculate_dynamic_font_size` and `wrap_text_to_fit` keep their `@staticmethod` decorators (lines 32 and 57), which makes them callable at module level only from Python 3.10 on. The `QuestionLayout` members model both copies under Python 3.10 or later; the table below cites the `ppt_generator.py` lines.

How the model is organised:
- **Wrapping.** All three wrapping loops are one generic greedy fold, `Wrap.Greedy`, instantiated with each source's own fit test. Each source loop is a Dafny `method` whose loop invariant ties its variables (`lines`, `current_line`, `current_length`) to that fold. The fold's properties are proved once (`Wrap.GreedyIsGreedy`):
  - the words are kept in order;
  - every line break is forced;
  - only the first line can be empty.
- **Paging.** Slide paging in `create_presentation` is the same fold, over points instead of words, with the test "room left ≥ point height". `BulletDeck.CreatePresentation` is proved to produce exactly the slides of that fold.
- **Units.** Lengths and heights are exact reals. The heights `create_presentation` compares are a `DeckConfig`: `SourceConfig` holds the values the source computes and `InchConfig` the values its comments describe (see Findings).
- **Text.** Python's `str.split()`, `" ".join` and `str.strip()` are modelled in `Text`, over the whitespace characters of `str.isspace()`.
- **Effects.** The python-pptx calls are abstracted as appending slides, boxes and paragraphs.

## Model

| member | source | states |
|---|---|---|
| BulletText.WrapTextToFit | ai_presentation_generator.py:81-101 | the returned text is the 60-character greedy wrap of the point's words (`WrapText`), with `current_length` kept as the open line's joined length plus one |
| BulletText.WrapTextWords | ai_presentation_generator.py:81-101 | the wrapped point holds exactly the point's words, in order |
| BulletText.WrapTextBlank | ai_presentation_generator.py:98-101 | a point wraps to the empty string exactly when it has no words |
| BulletText.WrapLinesShape | ai_presentation_generator.py:88-96 | a line of two or more words is at most 60 characters; a line closes only when the next word would pass 60; only the first line can be empty, exactly when the first word is longer than 60 |
| BulletText.WrapTextLeadingBreak | ai_presentation_generator.py:93-96 | a point with words wraps to a text that starts with a line break exactly when its first word is longer than 60 characters |
| BulletText.WrapForSplit | ai_presentation_generator.py:310-321 | `wrapped_lines` are the lines of the 50-character greedy wrap whose test includes the joining space |
| BulletText.SplitLinesShape | ai_presentation_generator.py:313-321 | a line of two or more words is at most 50 characters; breaks are forced; only the first line can be empty, exactly when the first word has 50 or more characters |
| BulletText.FitCount | ai_presentation_generator.py:323-329 | the number of lines fitted is the longest run of lines from the first whose accumulated height stays within the room left; one more would not fit |
| BulletText.SplitTextToFit | ai_presentation_generator.py:302-331 | the fitted and the overflow text are the first `FitCount` lines and the rest, each joined and stripped |
| BulletText.SplitToFitWords | ai_presentation_generator.py:302-331 | the fitted part followed by the overflow holds exactly the point's words, in order |
| BulletText.SplitToFitExtremes | ai_presentation_generator.py:323-331 | nothing is fitted when the room is less than one line; nothing overflows when there is room for every line |
| BulletText.SplitToFitOverflowEmpty | ai_presentation_generator.py:313-331 | for a point with words, nothing overflows exactly when every wrapped line is fitted, that is exactly when the room holds every line |
| BulletText.SplitToFitLongFirstWord | ai_presentation_generator.py:313-331 | a first word of 50 characters or more leaves the first wrapped line empty, so with room for exactly one line nothing is fitted and every word overflows: nothing fitted does not mean less than a line of room |
| BulletText.EstimatedLines | ai_presentation_generator.py:339 | `len(text) // 50 + 1` is at least 1 and is the `n` with `(n-1)*50 <= len(text) < n*50` |
| BulletText.EstimateTextHeightBounds | ai_presentation_generator.py:333-340 | the estimate is within one line height of the proportional height of `len(text) / 50` lines: at least it and less than it plus one line |
| BulletText.EstimateTextHeightMono | ai_presentation_generator.py:333-340 | a longer text is never estimated shorter, and every text gets at least one line height |
| BulletText.AddPointToTextbox | ai_presentation_generator.py:132-143 | the paragraph is the marker, a space and the fitted part; the overflow is returned |
| BulletText.AddPointWords | ai_presentation_generator.py:132-143 | the paragraph's words followed by the overflow's words are the marker followed by the point's words |
| Wrap.GreedyIsGreedy | ai_presentation_generator.py:88-99 | for any fit test, the greedy fold keeps the words in order, every word after the first of a line passed the test, every break was forced by a failed test, and only the first line can be empty, exactly when the first word fails on an empty line |
| BulletDeck.PlaceStep | ai_presentation_generator.py:251-289 | one pass over a point: opening the first slide if needed, then placing the point on the current slide or on a new one, keeps the slides and the room left equal to those of the greedy fold over the points so far |
| BulletDeck.PlacePoint | ai_presentation_generator.py:247-289 | after the loop body the slides, room left and slide count are those of the fold over the points placed plus this one |
| BulletDeck.PlaceEntry | ai_presentation_generator.py:239-289 | after the points of one entry the slides are those of the fold over every point placed so far |
| BulletDeck.CreatePresentation | ai_presentation_generator.py:214-300 | `None` for data that is not a list and when no slide was opened; otherwise the slides of the greedy fold over all points of all entries, in order |
| BulletDeck.SlidesLayout | ai_presentation_generator.py:247-289 | the slides partition the points in order; a slide with two or more points keeps their total height within the capacity; a new slide is opened only for a point that does not fit the room left; every slide but the first holds a point; the first is empty exactly when the first point is taller than the capacity; titles come from the first point |
| BulletDeck.PlaceWords | ai_presentation_generator.py:132-143 | the paragraph of a point is the marker followed by a prefix of the point's words |
| BulletDeck.DeckParagraphWords | ai_presentation_generator.py:269 | every paragraph of the deck is the marker followed by a prefix of its point's words, in order; the overflow is dropped |
| BulletDeck.PresentationNone | ai_presentation_generator.py:231-293 | the result is `None` exactly for data that is not a list or whose entries hold no point; otherwise it has at least one slide |
| BulletDeck.PrepareAllIndex | ai_presentation_generator.py:247-249 | every point is wrapped and given its height, in order |
| BulletDeck.TallGroup | ai_presentation_generator.py:268 | a slide cannot hold two points each taller than the slide |
| BulletDeck.TallPointsAlone | ai_presentation_generator.py:247-289 | when every point is taller than a slide, the first slide stays empty and each point gets a slide of its own |
| BulletDeck.SourceHeights | ai_presentation_generator.py:249 | with the source's values every point's height exceeds the slide's capacity |
| BulletDeck.SourceDeckOnePointPerSlide | ai_presentation_generator.py:214-300 | with the source's values the deck has one more slide than points: an empty first slide, then one point per slide |
| BulletDeck.ShortPointsShare | ai_presentation_generator.py:264-289 | with heights in inches and one-line points, every slide but the last holds eight points and the last one to eight |
| BulletDeck.InchDeckSharesSlides | ai_presentation_generator.py:214-300 | with heights in inches and points wrapping under 50 characters, every slide holds one to eight points and all but the last hold eight |
| QuestionLayout.FontFor | ppt_generator.py:38-60 | the size chosen with the default bounds is between 16 and 36 points |
| QuestionLayout.FontSizeMonotone | ppt_generator.py:38-60 | a longer text never gets a larger font, and the size stays within the bounds |
| QuestionLayout.WrapTextToFit | ppt_generator.py:63-95 | the result is the greedy wrap of the text's words under the width test at 0.4 of the font chosen from the text's length, and the height of its lines at 1.2 font sizes each; the font size argument has no effect |
| QuestionLayout.LinesOfWords | ppt_generator.py:76-88 | the lines are the greedy wrap of the text's words under the width test, and every line holds words |
| QuestionLayout.WrapToFitWords | ppt_generator.py:63-95 | the wrapped text holds exactly the text's words, in order |
| QuestionLayout.WrapToFitBlank | ppt_generator.py:87-95 | the wrapped text is empty exactly when the text has no words, and then the height is 0 |
| QuestionLayout.WidthLinesShape | ppt_generator.py:80-88 | a line of two or more words satisfies `(len(line) - 1) * cw <= max_width`; a break is forced by the next word; the first line is empty exactly when the first word alone is too wide |
| QuestionLayout.WrapToFitHeight | ppt_generator.py:91-95 | for a text with words the height is `(wrapped.count('\n') + 1)` lines of 1.2 font sizes; for a text without words that count is 1 and the height 0 |
| QuestionLayout.WrapHeightPositive | ppt_generator.py:91-92 | the height is never negative, and positive for a text with words |
| Measures.StackedProduct | ppt_generator.py:92 | the repeated sum the model uses for `len(lines) * line_height` equals the product |
| QuestionLayout.DecimalString | ppt_generator.py:127 | `str(n)` is a non-empty string of decimal digits |
| QuestionLayout.DecimalRoundTrip | ppt_generator.py:127 | the digits of `str(n)` read back give `n`, with a leading zero only for 0 |
| QuestionLayout.AddQuestionSlide | ppt_generator.py:97-196 | the slide holds the number with a dot, the question wrapped at 700 points in the size chosen from its length, the question box sized from the wrapped height, and the options wrapped at 600 points in an options box placed from their total height |
| QuestionLayout.WrapOptions | ppt_generator.py:156-167 | the loop over the options yields each option wrapped at 600 points, in order, and the sum over the options of the wrapped height plus 10 points |
| QuestionLayout.OptionsTotalAppend | ppt_generator.py:156-167 | `total_options_height` adds up over the options and is at least 10 points per option |
| QuestionLayout.SlidePlacement | ppt_generator.py:117-181 | the question box is at least 0.2 inches tall; the options top is the larger of one inch below the question box and the middle less half the options' height; the options box is aligned with the question box, as wide, and as tall as the options plus half an inch |
| QuestionLayout.WrappedOptions | ppt_generator.py:160-167 | one wrapped option per option, in order, each keeping its words, with a height of at least 0 |
| QuestionLayout.OptionsPlacement | ppt_generator.py:171-181 | on a question slide, the options box is at least one inch below the question box and at least as low as the centred position, equal to one of them, and at least half an inch plus 10 points per option tall |
| QuestionLayout.QuestionSlideTexts | ppt_generator.py:97-196 | the number text reads back as the number followed by a dot; the question keeps its words in the font size chosen from its length; one paragraph per option, in order, each keeping its words |
| QuestionLayout.CreateCustomPresentation | ppt_generator.py:198-234 | `None` when there is no question; otherwise one slide per question, in order, laid out by `add_question_slide` with the question's options |
| QuestionLayout.CustomPresentationShape | ppt_generator.py:207-225 | `None` exactly when there is no question; otherwise one slide per question, numbered from 1, keeping the question's words, with as many options as the options list gives (none when it is too short) |
| QuestionDeckNew.CreateCustomPresentationNew | ppt_code_new.py:195-220 | the saved slides are one per question, in order, even when there is none; a short options list gives the string `""` |
| QuestionDeckNew.NewOptionsDefault | ppt_code_new.py:208 | the `""` default is used exactly when the options list is absent or too short, and iterating it visits no option, as the `[]` default does |
| QuestionDeckNew.SavedSlidesAgree | ppt_code_new.py:195-220 | with questions, the saved slides are exactly the deck of `ppt_generator.py`; without questions an empty deck is saved where the other driver saves nothing |
| QuestionDeckNew.AddCustomSlide | ppt_code_new.py:263-346 | the slide holds the number with `". "`, the whole wrapped pair, the fixed question box, the year label when the year is not empty, the options box below it, and one paragraph per option, in order |
| QuestionDeckNew.CustomSlidePlacement | ppt_code_new.py:322-338 | the year label exists exactly when the year is not empty and sits right below the question box; the options box starts right below the label (2.5 inches) or right below the question box (2.1 inches), aligned with it; the options are shown as given |
| QuestionDeckNew.CustomSlideShowsHeight | ppt_code_new.py:310-316 | as written, the question paragraph shows the wrapped text together with its height, which is positive for every question with words |
| QuestionDeckNew.IntendedCustomSlideText | ppt_code_new.py:310-316 | with the pair unpacked, the paragraph is the number, `". "` and the question's words only, and the slide differs from the one written only there |

## Left out

- Rendering through python-pptx is abstracted as appending slides, boxes and paragraphs. Not modelled: fills, colours, fonts, alignment, margins, the navigation bar, the logo, the title box and the question-number box's styling.
- `Inches()`, `Pt()` and EMU values are exact reals. Not modelled: the integer truncation python-pptx applies to them, and floating-point rounding.
- `json.loads` of a string argument of `create_presentation` is taken as already decoded. Malformed JSON is not modelled.
- The dictionaries of the data are modelled as records: `title`/`points` for an entry, and `Question`/`Year`/`Options` for a quiz. A value of another type under those keys is not modelled.
- Saving the file, the timestamped file name and the console messages are left out. The drivers' results keep only `None` versus a deck, since the file name is a function of the clock.
- `add_question_slide` computes `lines = wrapped_question.count('\n') + 1` (ppt_generator.py:114) and never uses it. `QuestionLayout.WrapToFitHeight` relates that count to the height instead.
- `add_custom_slide` computes `max_width` and `font_size` (ppt_code_new.py:307-308) and never uses them.
- `add_custom_slide` is not called by any driver. It is modelled on its own.
- The text of `str()` of the `(text, height)` tuple in `add_custom_slide` is not spelled out. The model keeps the pair, `QuestionDeckNew.ShownPair`, not Python's `repr` of it.
- Under Python before 3.10, the `@staticmethod` objects at ppt_code_new.py:32 and :57 cannot be called, so the calls at lines 68, 105, 146 and 156 raise `TypeError`, and `add_question_slide` and `create_custom_presentation` of that file fail for every question. The model takes Python 3.10 or later, where they are plain callables.
- Quiz data without a `"Question"` key raises `KeyError` at ppt_generator.py:207 and ppt_code_new.py:201. `QuestionLayout.QuizData` always carries the questions, so that error is not modelled.
- The year is read by both question drivers and has no effect on a question slide, so it only appears in the inputs.
- `len(text) * 0.4 * font` and `len(lines) * line_height` are written as repeated sums (`Measures.Stacked`). `Measures.StackedProduct` proves them equal to the products.
- The `max_width` parameter of the bullet `wrap_text_to_fit` (ai_presentation_generator.py:81) is never used; the 60-character budget is fixed, and `BulletText.WrapTextToFit` has no such parameter.

## Findings

| source | as written | input that shows it | evidently intended | confidence | as-written member | corrected member |
|---|---|---|---|---|---|---|
| ai_presentation_generator.py:249 | `point_height` adds `Inches(0.2)` (EMU) to `Inches(lines * Pt(28) / 72)`, which converts a length in EMU as if it were inches, so one estimated line is 4516120000 EMU against a slide capacity of `Inches(5)` = 4572000 EMU | any list of entries with at least one point: the first slide stays empty and every point is alone on its own slide | heights in inches as the comments say, so that short points share a slide, eight to a slide | not executed | BulletDeck.SourceDeckOnePointPerSlide | BulletDeck.InchDeckSharesSlides |
| ppt_code_new.py:310 | `wrap_text_to_fit` returns a `(text, height)` pair and `add_custom_slide` puts the whole pair into the paragraph after `"{n}. "` | any question with a word, such as `"Why?"`: the paragraph shows the wrapped text together with its positive height | unpack the pair and show the wrapped text alone | not executed | QuestionDeckNew.CustomSlideShowsHeight | QuestionDeckNew.IntendedCustomSlideText |
