/**
 * `create_presentation` of the bullet-point deck builder (`ai_presentation_generator.py`): every
 * point of every entry is wrapped, given an estimated height, and placed on the current slide while
 * the room left on it is at least that height; otherwise a new slide is opened for it. Slides are
 * therefore filled by the same greedy fold as lines, with the points as elements.
 */
module BulletDeck {
  import opened Optional
  import opened Text
  import opened Wrap
  import opened Sequences
  import opened BulletText
  import opened Measures

  /** One entry of the extracted data: its `title` and `points` keys, each possibly absent. */
  datatype Content = Content(title: Option<string>, points: Option<seq<string>>)

  /**
   * The `extracted_data` argument: a list of entries, a JSON text (given here already decoded, as
   * `json.loads` returns it), or any other value.
   */
  datatype Data = ContentList(contents: seq<Content>) | JsonText(decoded: Data) | OtherValue

  /**
   * The heights the builder compares: the room on a slide, the spacing added to every point, the
   * height of one estimated line and of one line when a point is split to fit.
   */
  datatype DeckConfig = DeckConfig(capacity: real, padding: real, estimateLineHeight: real, splitLineHeight: real)

  /** A point with the title of its entry. */
  datatype Item = Item(title: string, point: string)

  /** A point ready to be placed: its wrapped text and the height reserved for it. */
  datatype Prepared = Prepared(title: string, point: string, wrapped: string, height: real)

  /**
   * A slide as the builder leaves it: the title of the entry that opened it (the empty title means
   * no title box) and the paragraphs of its text box.
   */
  datatype Slide = Slide(title: string, paragraphs: seq<string>)

  /** The points of one entry; an entry without points contributes none. */
  function ContentItems(c: Content): seq<Item>
  {
    EntryItems(GetOr(c.title, ""), GetOr(c.points, []))
  }

  function EntryItems(title: string, points: seq<string>): seq<Item>
  {
    seq(|points|, j requires 0 <= j < |points| => Item(title, points[j]))
  }

  function Items(cs: seq<Content>): seq<Item>
  {
    if |cs| == 0 then [] else Items(cs[..|cs| - 1]) + ContentItems(cs[|cs| - 1])
  }

  /** The wrapped text and `point_height`: the estimated height of the wrapped text plus the padding. */
  function Prepare(it: Item, cfg: DeckConfig): Prepared
  {
    var wrapped := WrapText(it.point);
    Prepared(it.title, it.point, wrapped, EstimateTextHeight(wrapped, cfg.estimateLineHeight) + cfg.padding)
  }

  function PrepareAll(items: seq<Item>, cfg: DeckConfig): seq<Prepared>
  {
    Map(items, (it: Item) => Prepare(it, cfg))
  }

  function SumHeights(ps: seq<Prepared>): real
  {
    if |ps| == 0 then 0.0 else SumHeights(ps[..|ps| - 1]) + ps[|ps| - 1].height
  }

  /** The slide test: the room left on the slide (`available_height`) is at least the point's height. */
  function FitsSlide(cfg: DeckConfig): Fits<Prepared>
  {
    (onSlide: seq<Prepared>, p: Prepared) => cfg.capacity - SumHeights(onSlide) >= p.height
  }

  function Groups(ps: seq<Prepared>, cfg: DeckConfig): seq<seq<Prepared>>
  {
    Greedy(ps, FitsSlide(cfg))
  }

  /** How a point becomes a paragraph, given the room left on its slide. */
  type Placer = (Prepared, real) -> string

  /** `add_point_to_textbox`: the marker and the part of the wrapped point that fits the room left. */
  function Place(cfg: DeckConfig): Placer
  {
    (p: Prepared, available: real) => AddPoint(p.wrapped, available, cfg.splitLineHeight).0
  }

  /** The paragraphs of a slide holding the points `g`, each placed with the room its predecessors left. */
  function Paragraphs(g: seq<Prepared>, capacity: real, place: Placer): (r: seq<string>)
    ensures |r| == |g|
  {
    if |g| == 0 then []
    else
      var n := |g| - 1;
      Paragraphs(g[..n], capacity, place) + [place(g[n], capacity - SumHeights(g[..n]))]
  }

  /**
   * A slide's title is that of its first point; a first slide left empty carries the title of the
   * point that did not fit on it.
   */
  function SlideTitle(gs: seq<seq<Prepared>>, k: nat): string
    requires k < |gs|
  {
    if |gs[k]| > 0 then gs[k][0].title
    else if k + 1 < |gs| && |gs[k + 1]| > 0 then gs[k + 1][0].title
    else ""
  }

  function Slides(gs: seq<seq<Prepared>>, capacity: real, place: Placer): seq<Slide>
  {
    seq(|gs|, k requires 0 <= k < |gs| => Slide(SlideTitle(gs, k), Paragraphs(gs[k], capacity, place)))
  }

  function Deck(items: seq<Item>, cfg: DeckConfig): seq<Slide>
  {
    Slides(Groups(PrepareAll(items, cfg), cfg), cfg.capacity, Place(cfg))
  }

  /** The entries `create_presentation` works on, or `None` when the data is not a list. */
  function Entries(data: Data): Option<seq<Content>>
  {
    var d := if data.JsonText? then data.decoded else data;
    if d.ContentList? then Some(d.contents) else None
  }

  /** The slides of the saved presentation, or `None` when nothing is saved. */
  function Presentation(data: Data, cfg: DeckConfig): Option<seq<Slide>>
  {
    match Entries(data)
    case None => None
    case Some(cs) => if |Items(cs)| == 0 then None else Some(Deck(Items(cs), cfg))
  }

  /* ---------- the builder's steps, and how each moves the fold on ---------- */

  /** `if current_slide is None`: open the first slide. */
  function OpenFirst(slides: seq<Slide>, title: string): seq<Slide>
  {
    if |slides| == 0 then [Slide(title, [])] else slides
  }

  /** Add a paragraph to the text box of the current (last) slide. */
  function AppendToLast(slides: seq<Slide>, paragraph: string): seq<Slide>
    requires |slides| > 0
  {
    slides[..|slides| - 1] + [Slide(slides[|slides| - 1].title, slides[|slides| - 1].paragraphs + [paragraph])]
  }

  lemma ParagraphsSnoc(g: seq<Prepared>, p: Prepared, capacity: real, place: Placer)
    ensures Paragraphs(g + [p], capacity, place) == Paragraphs(g, capacity, place) + [place(p, capacity - SumHeights(g))]
  {
    PrefixOfSnoc(g, p, |g|);
  }

  /** The paragraph of the `j`-th point is placed with the room the points before it left. */
  lemma {:induction false} ParagraphAt(g: seq<Prepared>, j: nat, capacity: real, place: Placer)
    requires j < |g|
    ensures Paragraphs(g, capacity, place)[j] == place(g[j], capacity - SumHeights(g[..j]))
    decreases |g|
  {
    var n := |g| - 1;
    if j < n {
      ParagraphAt(g[..n], j, capacity, place);
      assert g[..n][..j] == g[..j];
    }
  }

  lemma PrefixOfSnoc<T>(g: seq<T>, p: T, j: nat)
    requires j <= |g|
    ensures (g + [p])[..j] == g[..j] && (g + [p])[j] == if j < |g| then g[j] else p
  {
  }

  lemma SumHeightsSnoc(g: seq<Prepared>, p: Prepared)
    ensures SumHeights(g + [p]) == SumHeights(g) + p.height
  {
    assert (g + [p])[..|g|] == g;
  }

  /** A point that fits stays on the current slide (opening the first slide if there is none). */
  lemma PlaceOnSlide(done: seq<Prepared>, st: LineState<Prepared>, p: Prepared, capacity: real, place: Placer)
    requires Covers(done, st)
    ensures var slides := OpenFirst(Slides(Close(st), capacity, place), p.title);
      Slides(Close(LineState(st.closed, st.open + [p])), capacity, place)
        == AppendToLast(slides, place(p, capacity - SumHeights(st.open)))
  {
    var para := place(p, capacity - SumHeights(st.open));
    var gs' := st.closed + [st.open + [p]];
    ParagraphsSnoc(st.open, p, capacity, place);
    if |done| == 0 {
      assert Paragraphs([p], capacity, place) == [para];
    } else {
      var gs := st.closed + [st.open];
      var n := |st.closed|;
      assert |st.open| > 0;
      assert gs'[..n] == gs[..n] && gs'[n] == st.open + [p] && gs[n] == st.open;
      SlidesExtendLast(gs, gs', capacity, place, para);
    }
  }

  /** Proof helper: growing the last group by a point adds its paragraph to the last slide. */
  lemma SlidesExtendLast(gs: seq<seq<Prepared>>, gs': seq<seq<Prepared>>, capacity: real, place: Placer, para: string)
    requires |gs| > 0 && |gs'| == |gs|
    requires gs'[..|gs| - 1] == gs[..|gs| - 1]
    requires |gs[|gs| - 1]| > 0 && |gs'[|gs| - 1]| > 0 && gs'[|gs| - 1][0] == gs[|gs| - 1][0]
    requires Paragraphs(gs'[|gs| - 1], capacity, place) == Paragraphs(gs[|gs| - 1], capacity, place) + [para]
    ensures Slides(gs', capacity, place) == AppendToLast(Slides(gs, capacity, place), para)
  {
    var n := |gs| - 1;
    var a := Slides(gs', capacity, place);
    var b := AppendToLast(Slides(gs, capacity, place), para);
    forall k | 0 <= k < |a| ensures a[k] == b[k] {
      if k < n {
        assert gs'[k] == gs'[..n][k] == gs[..n][k] == gs[k];
        if k + 1 < n {
          assert gs'[k + 1] == gs'[..n][k + 1] == gs[..n][k + 1] == gs[k + 1];
        }
      }
    }
  }

  /** A point that does not fit opens a new slide with the full room (after opening the first one if needed). */
  lemma PlaceOnNewSlide(done: seq<Prepared>, st: LineState<Prepared>, p: Prepared, capacity: real, place: Placer)
    requires Covers(done, st)
    ensures var slides := OpenFirst(Slides(Close(st), capacity, place), p.title);
      Slides(Close(LineState(st.closed + [st.open], [p])), capacity, place)
        == slides + [Slide(p.title, [place(p, capacity)])]
  {
    var para := place(p, capacity);
    var gs' := st.closed + [st.open] + [[p]];
    assert SumHeights([]) == 0.0;
    assert Paragraphs([p], capacity, place) == [para];
    if |done| == 0 {
      assert gs' == [[], [p]];
      assert Paragraphs([], capacity, place) == [];
      assert Slides(gs', capacity, place) == [Slide(p.title, []), Slide(p.title, [para])];
    } else {
      var gs := st.closed + [st.open];
      var n := |gs|;
      assert |st.open| > 0;
      forall k | 0 <= k < n ensures SlideTitle(gs', k) == SlideTitle(gs, k) {
        assert gs'[k] == gs[k];
        if k + 1 < n {
          assert gs'[k + 1] == gs[k + 1];
        }
      }
      assert Slides(gs', capacity, place)[..n] == Slides(gs, capacity, place);
    }
  }

  lemma ItemsSnoc(cs: seq<Content>, i: nat)
    requires i < |cs|
    ensures Items(cs[..i + 1]) == Items(cs[..i]) + ContentItems(cs[i])
  {
    assert cs[..i + 1][..i] == cs[..i];
  }

  lemma PrepareNextFrom(placed: seq<Prepared>, title: string, points: seq<string>, j: nat, cfg: DeckConfig)
    requires j < |points|
    ensures placed + PrepareAll(EntryItems(title, points)[..j + 1], cfg)
         == placed + PrepareAll(EntryItems(title, points)[..j], cfg) + [Prepare(Item(title, points[j]), cfg)]
  {
    var its := EntryItems(title, points);
    MapNext(its, j, (it: Item) => Prepare(it, cfg));
    assert its[j] == Item(title, points[j]);
  }

  /** Every point is prepared, in order. */
  lemma PrepareAllIndex(items: seq<Item>, cfg: DeckConfig)
    ensures |PrepareAll(items, cfg)| == |items|
    ensures forall i :: 0 <= i < |items| ==> PrepareAll(items, cfg)[i] == Prepare(items[i], cfg)
  {
    MapIndex(items, (it: Item) => Prepare(it, cfg));
  }

  /**
   * One pass of the loop over points, as the builder does it: open the first slide if there is
   * none, then place the point on the current slide when the room left is at least its height,
   * and on a new slide otherwise. The slides and the room left follow the greedy fold.
   */
  lemma PlaceStep(done: seq<Prepared>, st: LineState<Prepared>, p: Prepared, cfg: DeckConfig, slides: seq<Slide>, available: real)
    requires st == GreedyState(done, FitsSlide(cfg))
    requires slides == Slides(Close(st), cfg.capacity, Place(cfg))
    requires available == cfg.capacity - SumHeights(st.open)
    ensures var current := OpenFirst(slides, p.title);
      var room := if |slides| == 0 then cfg.capacity else available;
      var next := GreedyState(done + [p], FitsSlide(cfg));
      && (room >= p.height ==>
           && Slides(Close(next), cfg.capacity, Place(cfg)) == AppendToLast(current, Place(cfg)(p, room))
           && room - p.height == cfg.capacity - SumHeights(next.open))
      && (room < p.height ==>
           && Slides(Close(next), cfg.capacity, Place(cfg)) == current + [Slide(p.title, [Place(cfg)(p, cfg.capacity)])]
           && cfg.capacity - p.height == cfg.capacity - SumHeights(next.open))
  {
    var fits := FitsSlide(cfg);
    GreedyStateCovers(done, fits);
    GreedyStateSnoc(done, p, fits);
    PlaceStepWith(done, st, p, cfg.capacity, Place(cfg), fits, slides, available);
  }

  /** `PlaceStep` for any placer, and any fit test that agrees with the slide test on this point. */
  lemma PlaceStepWith(done: seq<Prepared>, st: LineState<Prepared>, p: Prepared, capacity: real, place: Placer,
                      fits: Fits<Prepared>, slides: seq<Slide>, available: real)
    requires Covers(done, st)
    requires fits(st.open, p) == (capacity - SumHeights(st.open) >= p.height)
    requires slides == Slides(Close(st), capacity, place)
    requires available == capacity - SumHeights(st.open)
    ensures var current := OpenFirst(slides, p.title);
      var room := if |slides| == 0 then capacity else available;
      var next := Advance(st, p, fits);
      && (room >= p.height ==>
           && Slides(Close(next), capacity, place) == AppendToLast(current, place(p, room))
           && room - p.height == capacity - SumHeights(next.open))
      && (room < p.height ==>
           && Slides(Close(next), capacity, place) == current + [Slide(p.title, [place(p, capacity)])]
           && capacity - p.height == capacity - SumHeights(next.open))
  {
    var room := if |slides| == 0 then capacity else available;
    if |slides| == 0 {
      assert st.open == [] && SumHeights([]) == 0.0;
    }
    assert room == capacity - SumHeights(st.open);
    if fits(st.open, p) {
      assert Advance(st, p, fits) == LineState(st.closed, st.open + [p]);
      SumHeightsSnoc(st.open, p);
      PlaceOnSlide(done, st, p, capacity, place);
    } else {
      assert Advance(st, p, fits) == LineState(st.closed + [st.open], [p]);
      SumHeightsSnoc([], p);
      assert [] + [p] == [p];
      PlaceOnNewSlide(done, st, p, capacity, place);
    }
  }

  /** Proof helper: the placer of a configuration, applied. */
  lemma PlaceApply(cfg: DeckConfig, p: Prepared, room: real)
    ensures Place(cfg)(p, room) == AddPoint(p.wrapped, room, cfg.splitLineHeight).0
  {
  }

  /**
   * The body of the loop over points in `create_presentation`: wrap the point, estimate its height,
   * open the first slide if there is none, and add the point to the current slide when the room left
   * is at least its height, or to a new slide otherwise. `placed` are the points placed before.
   */
  method PlacePoint(titleText: string, point: string, cfg: DeckConfig, ghost placed: seq<Prepared>,
                    slides0: seq<Slide>, available0: real, slideCount0: nat)
    returns (slides: seq<Slide>, available: real, slideCount: nat)
    requires slides0 == Slides(Close(GreedyState(placed, FitsSlide(cfg))), cfg.capacity, Place(cfg))
    requires available0 == cfg.capacity - SumHeights(GreedyState(placed, FitsSlide(cfg)).open)
    requires slideCount0 == |slides0|
    ensures var all := placed + [Prepare(Item(titleText, point), cfg)];
      && slides == Slides(Close(GreedyState(all, FitsSlide(cfg))), cfg.capacity, Place(cfg))
      && available == cfg.capacity - SumHeights(GreedyState(all, FitsSlide(cfg)).open)
      && slideCount == |slides|
  {
    slides, available, slideCount := slides0, available0, slideCount0;
    var wrappedText := WrapTextToFit(point);
    var pointHeight := EstimateTextHeight(wrappedText, cfg.estimateLineHeight) + cfg.padding;
    ghost var p := Prepare(Item(titleText, point), cfg);
    assert p == Prepared(titleText, point, wrappedText, pointHeight);
    PlaceStep(placed, GreedyState(placed, FitsSlide(cfg)), p, cfg, slides, available);
    if |slides| == 0 {
      slides := slides + [Slide(titleText, [])];
      available := cfg.capacity;
      slideCount := slideCount + 1;
    }
    if available >= pointHeight {
      var paragraph, _ := AddPointToTextbox(wrappedText, available, cfg.splitLineHeight);
      PlaceApply(cfg, p, available);
      slides := AppendToLast(slides, paragraph);
      available := available - pointHeight;
    } else {
      available := cfg.capacity;
      slideCount := slideCount + 1;
      var paragraph, _ := AddPointToTextbox(wrappedText, available, cfg.splitLineHeight);
      PlaceApply(cfg, p, available);
      slides := slides + [Slide(titleText, [paragraph])];
      available := available - pointHeight;
    }
  }

  /** The loop over the points of one entry in `create_presentation`. */
  method PlaceEntry(titleText: string, points: seq<string>, cfg: DeckConfig, ghost placed: seq<Prepared>,
                    slides0: seq<Slide>, available0: real, slideCount0: nat)
    returns (slides: seq<Slide>, available: real, slideCount: nat)
    requires slides0 == Slides(Close(GreedyState(placed, FitsSlide(cfg))), cfg.capacity, Place(cfg))
    requires available0 == cfg.capacity - SumHeights(GreedyState(placed, FitsSlide(cfg)).open)
    requires slideCount0 == |slides0|
    ensures var all := placed + PrepareAll(EntryItems(titleText, points), cfg);
      && slides == Slides(Close(GreedyState(all, FitsSlide(cfg))), cfg.capacity, Place(cfg))
      && available == cfg.capacity - SumHeights(GreedyState(all, FitsSlide(cfg)).open)
      && slideCount == |slides|
  {
    slides, available, slideCount := slides0, available0, slideCount0;
    ghost var its := EntryItems(titleText, points);
    assert its[..0] == [];
    assert PrepareAll([], cfg) == [];
    assert placed + [] == placed;
    for j := 0 to |points|
      invariant slides == Slides(Close(GreedyState(placed + PrepareAll(its[..j], cfg), FitsSlide(cfg))), cfg.capacity, Place(cfg))
      invariant available == cfg.capacity - SumHeights(GreedyState(placed + PrepareAll(its[..j], cfg), FitsSlide(cfg)).open)
      invariant slideCount == |slides|
    {
      PrepareNextFrom(placed, titleText, points, j, cfg);
      slides, available, slideCount := PlacePoint(titleText, points[j], cfg, placed + PrepareAll(its[..j], cfg), slides, available, slideCount);
    }
    assert its[..|points|] == its;
  }

  /** `create_presentation`: `None` for data that is not a list, and when no slide was opened; otherwise the slides saved. */
  method CreatePresentation(data: Data, cfg: DeckConfig) returns (deck: Option<seq<Slide>>)
    ensures deck == Presentation(data, cfg)
  {
    var slideCount := 0;
    var slides: seq<Slide> := [];
    var available := cfg.capacity;
    var extracted := data;
    if extracted.JsonText? {
      extracted := extracted.decoded;
    }
    if !extracted.ContentList? {
      return None;
    }
    var contents := extracted.contents;
    for i := 0 to |contents|
      invariant slides == Slides(Close(GreedyState(PrepareAll(Items(contents[..i]), cfg), FitsSlide(cfg))), cfg.capacity, Place(cfg))
      invariant available == cfg.capacity - SumHeights(GreedyState(PrepareAll(Items(contents[..i]), cfg), FitsSlide(cfg)).open)
      invariant slideCount == |slides|
    {
      var titleText := GetOr(contents[i].title, "");
      var points := GetOr(contents[i].points, []);
      ghost var before := PrepareAll(Items(contents[..i]), cfg);
      assert PrepareAll(Items(contents[..i + 1]), cfg) == before + PrepareAll(EntryItems(titleText, points), cfg) by {
        ItemsSnoc(contents, i);
        MapAppend(Items(contents[..i]), ContentItems(contents[i]), (it: Item) => Prepare(it, cfg));
      }
      if |points| == 0 {
        assert before + PrepareAll(EntryItems(titleText, points), cfg) == before;
        continue;
      }
      slides, available, slideCount := PlaceEntry(titleText, points, cfg, before, slides, available, slideCount);
    }
    assert contents[..|contents|] == contents;
    GreedyStateInv(PrepareAll(Items(contents), cfg), FitsSlide(cfg));
    if slideCount == 0 {
      return None;
    }
    deck := Some(slides);
  }

  /* ---------- what the deck looks like ---------- */

  /**
   * How the builder lays out prepared points, whatever paragraph each becomes: the slides
   * partition the points in order; a slide holding two or more points keeps their total height
   * within the capacity; a new slide is opened only for a point that does not fit in the room left;
   * every slide but the first holds a point, and the first is left empty exactly when the first
   * point alone is taller than the capacity; a slide's title is that of its first point.
   */
  lemma SlidesLayout(ps: seq<Prepared>, cfg: DeckConfig, place: Placer)
    ensures var gs := Groups(ps, cfg);
      var slides := Slides(gs, cfg.capacity, place);
      && |slides| == |gs| && Flatten(gs) == ps
      && (forall k :: 0 <= k < |gs| ==> |slides[k].paragraphs| == |gs[k]|)
      && (forall k :: 0 <= k < |gs| && |gs[k]| >= 2 ==> SumHeights(gs[k]) <= cfg.capacity)
      && (forall k :: 0 < k < |gs| ==> |gs[k]| > 0 && SumHeights(gs[k - 1]) + gs[k][0].height > cfg.capacity)
      && (|slides| == 0 <==> |ps| == 0)
      && (|ps| > 0 ==> (|slides[0].paragraphs| == 0 <==> ps[0].height > cfg.capacity))
      && (forall k :: 0 <= k < |gs| && |gs[k]| > 0 ==> slides[k].title == gs[k][0].title)
  {
    var gs: seq<seq<Prepared>> := Groups(ps, cfg);
    GroupsLayout(ps, cfg);
    var slides := Slides(gs, cfg.capacity, place);
    assert |slides| == |gs|;
    forall k | 0 <= k < |gs| ensures |slides[k].paragraphs| == |gs[k]| && (|gs[k]| > 0 ==> slides[k].title == gs[k][0].title) {
    }
  }

  /** Proof helper: the grouping facts behind the slide layout. */
  lemma GroupsLayout(ps: seq<Prepared>, cfg: DeckConfig)
    ensures var gs := Groups(ps, cfg);
      && Flatten(gs) == ps
      && (forall k :: 0 <= k < |gs| && |gs[k]| >= 2 ==> SumHeights(gs[k]) <= cfg.capacity)
      && (forall k :: 0 < k < |gs| ==> |gs[k]| > 0 && SumHeights(gs[k - 1]) + gs[k][0].height > cfg.capacity)
      && (|gs| == 0 <==> |ps| == 0)
      && (|ps| > 0 ==> (|gs[0]| == 0 <==> ps[0].height > cfg.capacity))
  {
    var gs: seq<seq<Prepared>> := Groups(ps, cfg);
    GreedyIsGreedy(ps, FitsSlide(cfg));
    forall k | 0 <= k < |gs| && |gs[k]| >= 2 ensures SumHeights(gs[k]) <= cfg.capacity {
      var g := gs[k];
      var n := |g| - 1;
      assert FitsSlide(cfg)(g[..n], g[n]);
    }
  }

  /** The paragraph of a point is the marker followed by the first words of the point. */
  lemma PlaceWords(p: Prepared, room: real, cfg: DeckConfig)
    requires p.wrapped == WrapText(p.point)
    ensures Split(Place(cfg)(p, room)) <= [BulletMarker] + Split(p.point)
  {
    var added := AddPoint(p.wrapped, room, cfg.splitLineHeight);
    AddPointWords(p.wrapped, room, cfg.splitLineHeight);
    WrapTextWords(p.point);
    assert Split(added.0) + Split(added.1) == [BulletMarker] + Split(p.point);
    assert Split(added.0) <= Split(added.0) + Split(added.1);
  }

  lemma PreparedWrapped(items: seq<Item>, cfg: DeckConfig, p: Prepared)
    requires p in PrepareAll(items, cfg)
    ensures p.wrapped == WrapText(p.point)
  {
    PrepareAllIndex(items, cfg);
    var i :| 0 <= i < |items| && PrepareAll(items, cfg)[i] == p;
  }

  lemma SlideParagraph(gs: seq<seq<Prepared>>, capacity: real, place: Placer, k: nat, j: nat)
    requires k < |gs| && j < |gs[k]|
    ensures |Slides(gs, capacity, place)| == |gs| && |Slides(gs, capacity, place)[k].paragraphs| == |gs[k]|
    ensures Slides(gs, capacity, place)[k].paragraphs[j] == place(gs[k][j], capacity - SumHeights(gs[k][..j]))
  {
    ParagraphAt(gs[k], j, capacity, place);
  }

  /**
   * Every paragraph of the deck is the marker followed by the first words of its point, in order;
   * words that do not fit the room left are not shown (the overflow is not carried to another slide).
   */
  lemma DeckParagraphWords(items: seq<Item>, cfg: DeckConfig)
    ensures var gs := Groups(PrepareAll(items, cfg), cfg);
      var deck := Deck(items, cfg);
      && |deck| == |gs|
      && forall k, j :: 0 <= k < |gs| && 0 <= j < |gs[k]| ==>
           |deck[k].paragraphs| == |gs[k]| && Split(deck[k].paragraphs[j]) <= [BulletMarker] + Split(gs[k][j].point)
  {
    var gs: seq<seq<Prepared>> := Groups(PrepareAll(items, cfg), cfg);
    var deck: seq<Slide> := Deck(items, cfg);
    forall k: int, j: int | 0 <= k < |gs| && 0 <= j < |gs[k]|
      ensures |deck[k].paragraphs| == |gs[k]| && Split(deck[k].paragraphs[j]) <= [BulletMarker] + Split(gs[k][j].point)
    {
      ParagraphWords(items, cfg, gs, k, j);
    }
  }

  /** One paragraph of `DeckParagraphWords`. */
  lemma ParagraphWords(items: seq<Item>, cfg: DeckConfig, gs: seq<seq<Prepared>>, k: nat, j: nat)
    requires gs == Groups(PrepareAll(items, cfg), cfg)
    requires k < |gs| && j < |gs[k]|
    ensures |Slides(gs, cfg.capacity, Place(cfg))[k].paragraphs| == |gs[k]|
    ensures Split(Slides(gs, cfg.capacity, Place(cfg))[k].paragraphs[j]) <= [BulletMarker] + Split(gs[k][j].point)
  {
    GroupedWrapped(items, cfg, gs, k, j);
    SlideParagraph(gs, cfg.capacity, Place(cfg), k, j);
    PlaceWords(gs[k][j], cfg.capacity - SumHeights(gs[k][..j]), cfg);
  }

  lemma GroupedWrapped(items: seq<Item>, cfg: DeckConfig, gs: seq<seq<Prepared>>, k: nat, j: nat)
    requires gs == Groups(PrepareAll(items, cfg), cfg)
    requires k < |gs| && j < |gs[k]|
    ensures gs[k][j].wrapped == WrapText(gs[k][j].point)
  {
    GreedyFlatten(PrepareAll(items, cfg), FitsSlide(cfg));
    FlattenHas(gs, k, j);
    PreparedWrapped(items, cfg, gs[k][j]);
  }

  /** `create_presentation` returns `None` exactly for data that is not a list and for entries holding no points. */
  lemma PresentationNone(data: Data, cfg: DeckConfig)
    ensures Presentation(data, cfg) == None <==> Entries(data) == None || |Items(Entries(data).value)| == 0
    ensures Presentation(data, cfg).Some? ==> |Presentation(data, cfg).value| >= 1
  {
    if Entries(data).Some? && |Items(Entries(data).value)| > 0 {
      var items := Items(Entries(data).value);
      PrepareAllIndex(items, cfg);
      SlidesLayout(PrepareAll(items, cfg), cfg, Place(cfg));
    }
  }

  /* ---------- the source's heights, and heights in one unit ---------- */

  /**
   * The values the source compares: `Inches(5)` and `Inches(0.2)` are lengths in EMU (914400 per
   * inch), `Pt(28) / 72` is 355600 EMU divided by 72, and the estimate passes
   * `lines * Pt(28) / 72` through `Inches()` once more, giving 4516120000 per line.
   */
  const SourceConfig: DeckConfig := DeckConfig(4572000.0, 182880.0, 4516120000.0, 355600.0 / 72.0)

  /** The same layout with every height in inches, as the comments in the source describe it. */
  const InchConfig: DeckConfig := DeckConfig(5.0, 0.2, 28.0 / 72.0, 28.0 / 72.0)

  lemma {:induction false} FlattenSingletons<T>(gs: seq<seq<T>>)
    requires forall k :: 0 <= k < |gs| ==> |gs[k]| == 1
    ensures |Flatten(gs)| == |gs|
    decreases |gs|
  {
    if |gs| > 0 {
      FlattenSingletons(gs[1..]);
    }
  }

  /** A slide cannot hold two points when each is taller than the slide. */
  lemma TallGroup(g: seq<Prepared>, cfg: DeckConfig)
    requires cfg.capacity >= 0.0 && Tight(g, FitsSlide(cfg))
    requires forall j :: 0 <= j < |g| ==> g[j].height > cfg.capacity
    ensures |g| <= 1
  {
    if |g| > 0 {
      assert SumHeights(g[..1]) == g[0].height by { assert g[..1][..0] == []; }
    }
  }

  /** Points taller than a slide: an empty first slide, then one slide per point. */
  lemma TallPointsAlone(ps: seq<Prepared>, cfg: DeckConfig, place: Placer)
    requires |ps| > 0 && cfg.capacity >= 0.0
    requires forall i :: 0 <= i < |ps| ==> ps[i].height > cfg.capacity
    ensures var slides := Slides(Groups(ps, cfg), cfg.capacity, place);
      && |slides| == |ps| + 1
      && |slides[0].paragraphs| == 0
      && (forall k :: 0 < k < |slides| ==> |slides[k].paragraphs| == 1)
  {
    var gs: seq<seq<Prepared>> := Groups(ps, cfg);
    TallGroupsSingle(ps, cfg);
    GreedyFlatten(ps, FitsSlide(cfg));
    assert Flatten(gs) == Flatten(gs[1..]);
    FlattenSingletons(gs[1..]);
  }

  /** With every point taller than a slide, the groups are an empty first group and then single points. */
  lemma TallGroupsSingle(ps: seq<Prepared>, cfg: DeckConfig)
    requires |ps| > 0 && cfg.capacity >= 0.0
    requires forall i :: 0 <= i < |ps| ==> ps[i].height > cfg.capacity
    ensures var gs := Groups(ps, cfg);
      |gs| > 0 && gs[0] == [] && forall k :: 0 < k < |gs| ==> |gs[k]| == 1
  {
    var gs: seq<seq<Prepared>> := Groups(ps, cfg);
    GreedyIsGreedy(ps, FitsSlide(cfg));
    forall k | 0 <= k < |gs| ensures |gs[k]| <= 1 {
      forall j | 0 <= j < |gs[k]| ensures gs[k][j].height > cfg.capacity {
        FlattenHas(gs, k, j);
      }
      TallGroup(gs[k], cfg);
    }
    assert SumHeights([]) == 0.0;
  }

  lemma SourceHeights(items: seq<Item>)
    ensures forall i :: 0 <= i < |PrepareAll(items, SourceConfig)| ==> PrepareAll(items, SourceConfig)[i].height > SourceConfig.capacity
  {
    PrepareAllIndex(items, SourceConfig);
  }

  /**
   * With the source's values every point is taller than a slide: the first slide stays empty and
   * every point is placed alone on a slide of its own.
   */
  lemma SourceDeckOnePointPerSlide(items: seq<Item>)
    requires |items| > 0
    ensures var deck := Deck(items, SourceConfig);
      && |deck| == |items| + 1
      && |deck[0].paragraphs| == 0
      && (forall k :: 0 < k < |deck| ==> |deck[k].paragraphs| == 1)
  {
    PrepareAllIndex(items, SourceConfig);
    SourceHeights(items);
    TallPointsAlone(PrepareAll(items, SourceConfig), SourceConfig, Place(SourceConfig));
  }

  lemma {:induction false} SumHeightsUniform(g: seq<Prepared>, h: real)
    requires forall j :: 0 <= j < |g| ==> g[j].height == h
    ensures SumHeights(g) == Stacked(|g|, h)
    decreases |g|
  {
    if |g| > 0 {
      SumHeightsUniform(g[..|g| - 1], h);
    }
  }

  /** The height of a one-line point when every height is in inches. */
  const InchPointHeight: real := 28.0 / 72.0 + 0.2

  /** Points of one line each, in inches: eight to a slide, the last slide holding the rest. */
  lemma ShortPointsShare(ps: seq<Prepared>, place: Placer)
    requires |ps| > 0
    requires forall i :: 0 <= i < |ps| ==> ps[i].height == InchPointHeight
    ensures var slides := Slides(Groups(ps, InchConfig), InchConfig.capacity, place);
      forall k :: 0 <= k < |slides| ==> 1 <= |slides[k].paragraphs| <= 8 && (k + 1 < |slides| ==> |slides[k].paragraphs| == 8)
  {
    var cfg := InchConfig;
    var h := InchPointHeight;
    var gs: seq<seq<Prepared>> := Groups(ps, cfg);
    SlidesLayout(ps, cfg, place);
    GreedyIsGreedy(ps, FitsSlide(cfg));
    assert Stacked(8, h) <= 5.0 < Stacked(9, h);
    forall k | 0 <= k < |gs| ensures |gs[k]| <= 8 && (k + 1 < |gs| ==> |gs[k]| >= 8) {
      var g := gs[k];
      forall j | 0 <= j < |g| ensures g[j].height == h {
        FlattenHas(gs, k, j);
      }
      SumHeightsUniform(g, h);
      if |g| >= 9 {
        StackedMono(9, |g|, h);
      }
      if k + 1 < |gs| {
        FlattenHas(gs, k + 1, 0);
        if |g| < 8 {
          StackedMono(|g| + 1, 8, h);
        }
      }
    }
  }

  lemma InchHeights(items: seq<Item>)
    requires forall i :: 0 <= i < |items| ==> |WrapText(items[i].point)| < LineLength
    ensures forall i :: 0 <= i < |PrepareAll(items, InchConfig)| ==> PrepareAll(items, InchConfig)[i].height == InchPointHeight
  {
    PrepareAllIndex(items, InchConfig);
    forall i | 0 <= i < |items| ensures PrepareAll(items, InchConfig)[i].height == InchPointHeight {
      assert EstimatedLines(WrapText(items[i].point)) == 1;
    }
  }

  /**
   * With every height in inches, points share slides: when every point wraps to fewer than 50
   * characters (one estimated line), each slide but the last holds eight points and the last one
   * to eight; no slide is left empty.
   */
  lemma InchDeckSharesSlides(items: seq<Item>)
    requires |items| > 0
    requires forall i :: 0 <= i < |items| ==> |WrapText(items[i].point)| < LineLength
    ensures var deck := Deck(items, InchConfig);
      forall k :: 0 <= k < |deck| ==> 1 <= |deck[k].paragraphs| <= 8 && (k + 1 < |deck| ==> |deck[k].paragraphs| == 8)
  {
    PrepareAllIndex(items, InchConfig);
    InchHeights(items);
    ShortPointsShare(PrepareAll(items, InchConfig), Place(InchConfig));
  }
}
