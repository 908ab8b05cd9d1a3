/**
 * The greedy filler shared by the three `wrap_text_to_fit` loops, the wrapping loop of
 * `split_text_to_fit` and the slide loop of `create_presentation`: elements (words, or points) are
 * appended to the open line (or slide) while a fit test accepts them; an element the test rejects
 * closes the open line, even an empty one, and opens a new line holding that element.
 * The loops differ only in their fit test, which is a parameter here.
 */
module Wrap {
  import opened Text

  /** The fit test: may this word be appended to the open line (given as its words)? */
  type Fits<!T> = (seq<T>, T) -> bool

  /** Closed lines and the open line, each as its list of words. */
  datatype LineState<T> = LineState(closed: seq<seq<T>>, open: seq<T>)

  function Flatten<T>(gs: seq<seq<T>>): seq<T>
  {
    if |gs| == 0 then [] else gs[0] + Flatten(gs[1..])
  }

  /** `' '.join(line)` for every line. */
  function Lines(gs: seq<seq<string>>): seq<string>
  {
    seq(|gs|, k requires 0 <= k < |gs| => Join(gs[k], " "))
  }

  /** `'\n'.join(lines)`: the wrapped text as the wrappers return it. */
  function Render(gs: seq<seq<string>>): string
  {
    Join(Lines(gs), "\n")
  }

  /** One loop iteration. */
  function Advance<T>(st: LineState<T>, w: T, fits: Fits<T>): LineState<T>
  {
    if fits(st.open, w) then LineState(st.closed, st.open + [w])
    else LineState(st.closed + [st.open], [w])
  }

  /** The loop state after the given words. */
  function GreedyState<T>(words: seq<T>, fits: Fits<T>): LineState<T>
    decreases |words|
  {
    if |words| == 0 then LineState([], [])
    else Advance(GreedyState(words[..|words| - 1], fits), words[|words| - 1], fits)
  }

  /** After the loop: `if current_line: lines.append(current_line)`. */
  function Close<T>(st: LineState<T>): seq<seq<T>>
  {
    if |st.open| == 0 then st.closed else st.closed + [st.open]
  }

  function Greedy<T>(words: seq<T>, fits: Fits<T>): seq<seq<T>>
  {
    Close(GreedyState(words, fits))
  }

  /** Every word of the line after its first was accepted by the fit test. */
  ghost predicate Tight<T>(g: seq<T>, fits: Fits<T>)
  {
    forall j :: 0 < j < |g| ==> fits(g[..j], g[j])
  }

  /**
   * What makes `gs` the greedy wrap of `words`: the words in order, every word after the first of
   * its line accepted, every line break forced by a rejected word, and an empty line only first and
   * exactly when the first word is rejected by an empty line.
   */
  ghost predicate IsGreedyWrap<T>(words: seq<T>, gs: seq<seq<T>>, fits: Fits<T>)
  {
    && Flatten(gs) == words
    && (forall k :: 0 <= k < |gs| ==> Tight(gs[k], fits))
    && (forall k :: 0 < k < |gs| ==> gs[k] != [] && !fits(gs[k - 1], gs[k][0]))
    && (gs == [] <==> words == [])
    && (gs != [] ==> gs[|gs| - 1] != [] && (gs[0] == [] <==> !fits([], words[0])))
  }

  /** The loop invariant: the state holds the words so far, its lines are tight, its breaks forced. */
  ghost predicate StateInv<T>(words: seq<T>, st: LineState<T>, fits: Fits<T>)
  {
    Covers(words, st) && LinesTight(st, fits) && BreaksForced(st, fits) && FirstLineRule(words, st, fits)
  }

  ghost predicate Covers<T>(words: seq<T>, st: LineState<T>)
  {
    && Flatten(st.closed) + st.open == words
    && (words == [] ==> st.closed == [] && st.open == [])
    && (words != [] ==> st.open != [])
  }

  ghost predicate LinesTight<T>(st: LineState<T>, fits: Fits<T>)
  {
    (forall k :: 0 <= k < |st.closed| ==> Tight(st.closed[k], fits)) && Tight(st.open, fits)
  }

  ghost predicate BreaksForced<T>(st: LineState<T>, fits: Fits<T>)
  {
    && (forall k :: 0 < k < |st.closed| ==> st.closed[k] != [] && !fits(st.closed[k - 1], st.closed[k][0]))
    && (st.closed != [] && st.open != [] ==> !fits(st.closed[|st.closed| - 1], st.open[0]))
  }

  ghost predicate FirstLineRule<T>(words: seq<T>, st: LineState<T>, fits: Fits<T>)
  {
    && (st.closed != [] ==> words != [] && (st.closed[0] == [] <==> !fits([], words[0])))
    && (st.closed == [] && words != [] ==> fits([], words[0]))
  }

  lemma {:induction false} FlattenAppend<T>(a: seq<seq<T>>, b: seq<seq<T>>)
    ensures Flatten(a + b) == Flatten(a) + Flatten(b)
    decreases |a|
  {
    if a == [] {
      assert a + b == b;
    } else {
      assert (a + b)[1..] == a[1..] + b;
      FlattenAppend(a[1..], b);
    }
  }

  lemma FlattenSnoc<T>(gs: seq<seq<T>>, g: seq<T>)
    ensures Flatten(gs + [g]) == Flatten(gs) + g
  {
    FlattenAppend(gs, [g]);
    assert Flatten([g]) == g + Flatten([]);
  }

  lemma TightSnoc<T>(g: seq<T>, w: T, fits: Fits<T>)
    requires Tight(g, fits) && (g != [] ==> fits(g, w))
    ensures Tight(g + [w], fits)
  {
    forall j | 0 < j < |g + [w]| ensures fits((g + [w])[..j], (g + [w])[j]) {
      if j < |g| {
        assert (g + [w])[..j] == g[..j];
      } else {
        assert (g + [w])[..j] == g;
      }
    }
  }

  lemma AcceptInv<T>(words: seq<T>, st: LineState<T>, w: T, fits: Fits<T>)
    requires StateInv(words, st, fits) && fits(st.open, w)
    ensures StateInv(words + [w], LineState(st.closed, st.open + [w]), fits)
  {
    TightSnoc(st.open, w, fits);
    if st.open != [] {
      assert (st.open + [w])[0] == st.open[0];
    }
    if words != [] {
      assert (words + [w])[0] == words[0];
    }
  }

  lemma RejectInv<T>(words: seq<T>, st: LineState<T>, w: T, fits: Fits<T>)
    requires StateInv(words, st, fits) && !fits(st.open, w)
    ensures StateInv(words + [w], LineState(st.closed + [st.open], [w]), fits)
  {
    RejectCovers(words, st, w);
    RejectTight(st, w, fits);
    RejectForced(words, st, w, fits);
    RejectFirstLine(words, st, w, fits);
  }

  lemma RejectCovers<T>(words: seq<T>, st: LineState<T>, w: T)
    requires Covers(words, st)
    ensures Covers(words + [w], LineState(st.closed + [st.open], [w]))
  {
    FlattenSnoc(st.closed, st.open);
  }

  lemma RejectTight<T>(st: LineState<T>, w: T, fits: Fits<T>)
    requires LinesTight(st, fits)
    ensures LinesTight(LineState(st.closed + [st.open], [w]), fits)
  {
    var closed := st.closed + [st.open];
    forall k | 0 <= k < |closed|
      ensures Tight(closed[k], fits)
    {
      if k < |st.closed| {
        assert closed[k] == st.closed[k];
      }
    }
  }

  lemma RejectForced<T>(words: seq<T>, st: LineState<T>, w: T, fits: Fits<T>)
    requires Covers(words, st) && BreaksForced(st, fits) && !fits(st.open, w)
    ensures BreaksForced(LineState(st.closed + [st.open], [w]), fits)
  {
    var closed := st.closed + [st.open];
    forall k | 0 < k < |closed|
      ensures closed[k] != [] && !fits(closed[k - 1], closed[k][0])
    {
      assert closed[k - 1] == st.closed[k - 1];
      if k < |st.closed| {
        assert closed[k] == st.closed[k];
      }
    }
  }

  lemma RejectFirstLine<T>(words: seq<T>, st: LineState<T>, w: T, fits: Fits<T>)
    requires Covers(words, st) && FirstLineRule(words, st, fits) && !fits(st.open, w)
    ensures FirstLineRule(words + [w], LineState(st.closed + [st.open], [w]), fits)
  {
    var closed := st.closed + [st.open];
    if words == [] {
      assert closed == [[]];
    } else {
      assert (words + [w])[0] == words[0];
      if st.closed == [] {
        assert closed[0] == st.open;
      } else {
        assert closed[0] == st.closed[0];
      }
    }
  }

  lemma {:induction false} GreedyStateInv<T>(words: seq<T>, fits: Fits<T>)
    ensures StateInv(words, GreedyState(words, fits), fits)
    decreases |words|
  {
    if words != [] {
      var n := |words| - 1;
      GreedyStateInv(words[..n], fits);
      var st := GreedyState(words[..n], fits);
      assert words[..n] + [words[n]] == words;
      if fits(st.open, words[n]) {
        AcceptInv(words[..n], st, words[n], fits);
      } else {
        RejectInv(words[..n], st, words[n], fits);
      }
    }
  }

  /** Every word of every line is among the flattened words. */
  lemma {:induction false} FlattenHas<T>(gs: seq<seq<T>>, k: nat, j: nat)
    requires k < |gs| && j < |gs[k]|
    ensures gs[k][j] in Flatten(gs)
    decreases k
  {
    if k > 0 {
      FlattenHas(gs[1..], k - 1, j);
    }
  }

  /** The lines of the greedy wrap hold the words, in order. */
  lemma GreedyFlatten<T>(words: seq<T>, fits: Fits<T>)
    ensures Flatten(Greedy(words, fits)) == words
  {
    GreedyStateCovers(words, fits);
    var st := GreedyState(words, fits);
    if |st.open| > 0 {
      FlattenSnoc(st.closed, st.open);
    }
  }

  /** One more word advances the loop state by one iteration. */
  lemma GreedyStateSnoc<T>(words: seq<T>, w: T, fits: Fits<T>)
    ensures GreedyState(words + [w], fits) == Advance(GreedyState(words, fits), w, fits)
  {
    assert (words + [w])[..|words|] == words;
  }

  /** The loop state holds the words so far, with a non-empty open line once there is a word. */
  lemma GreedyStateCovers<T>(words: seq<T>, fits: Fits<T>)
    ensures Covers(words, GreedyState(words, fits))
  {
    GreedyStateInv(words, fits);
  }

  /** The greedy fold produces a greedy wrap. */
  lemma GreedyIsGreedy<T>(words: seq<T>, fits: Fits<T>)
    ensures IsGreedyWrap(words, Greedy(words, fits), fits)
  {
    GreedyStateInv(words, fits);
    CloseInv(words, GreedyState(words, fits), fits);
  }

  /** Closing the open line of a loop state that keeps the invariant gives a greedy wrap. */
  lemma CloseInv<T>(words: seq<T>, st: LineState<T>, fits: Fits<T>)
    requires StateInv(words, st, fits)
    ensures IsGreedyWrap(words, Close(st), fits)
  {
    if st.open != [] {
      var gs := st.closed + [st.open];
      FlattenSnoc(st.closed, st.open);
      forall k | 0 <= k < |gs|
        ensures Tight(gs[k], fits)
      {
        if k < |st.closed| {
          assert gs[k] == st.closed[k];
        }
      }
      forall k | 0 < k < |gs|
        ensures gs[k] != [] && !fits(gs[k - 1], gs[k][0])
      {
        assert gs[k - 1] == st.closed[k - 1];
        if k < |st.closed| {
          assert gs[k] == st.closed[k];
        }
      }
      assert gs[0] == if st.closed == [] then st.open else st.closed[0];
    }
  }

  /** Splitting the rendered lines gives back the words of all lines, in order. */
  lemma {:induction false} SplitRender(gs: seq<seq<string>>)
    requires forall k :: 0 <= k < |gs| ==> AllWords(gs[k])
    ensures Split(Render(gs)) == Flatten(gs)
    decreases |gs|
  {
    if gs == [] {
    } else if |gs| == 1 {
      assert Render(gs) == Join(gs[0], " ") + "";
      SplitJoin(gs[0], "");
      assert Flatten(gs) == gs[0] + Flatten([]);
    } else {
      var rest := Render(gs[1..]);
      assert Lines(gs)[1..] == Lines(gs[1..]);
      assert Render(gs) == Join(gs[0], " ") + ("\n" + rest);
      SplitRender(gs[1..]);
      SplitJoin(gs[0], "\n" + rest);
      SplitSpaceFirst('\n', rest);
    }
  }

  /** `''.join(line + ' ' for line in lines)`: how `split_text_to_fit` accumulates its two halves. */
  function Spaced(ls: seq<string>): string
  {
    if ls == [] then "" else ls[0] + " " + Spaced(ls[1..])
  }

  lemma {:induction false} SpacedSnoc(ls: seq<string>, l: string)
    ensures Spaced(ls + [l]) == Spaced(ls) + l + " "
    decreases |ls|
  {
    if ls != [] {
      assert (ls + [l])[1..] == ls[1..] + [l];
      SpacedSnoc(ls[1..], l);
    }
  }

  lemma {:induction false} SplitSpaced(gs: seq<seq<string>>)
    requires forall k :: 0 <= k < |gs| ==> AllWords(gs[k])
    ensures Split(Spaced(Lines(gs))) == Flatten(gs)
    decreases |gs|
  {
    if gs != [] {
      var rest := Spaced(Lines(gs[1..]));
      assert Lines(gs)[1..] == Lines(gs[1..]);
      assert Spaced(Lines(gs)) == Join(gs[0], " ") + (" " + rest);
      SplitSpaced(gs[1..]);
      SplitJoin(gs[0], " " + rest);
      SplitSpaceFirst(' ', rest);
    }
  }

  /** Every line of a greedy wrap of words consists of words. */
  lemma GreedyLinesAreWords(words: seq<string>, gs: seq<seq<string>>, fits: Fits<string>)
    requires AllWords(words) && IsGreedyWrap(words, gs, fits)
    ensures forall k :: 0 <= k < |gs| ==> AllWords(gs[k])
  {
    FlattenAllWords(gs);
  }

  lemma {:induction false} FlattenAllWords(gs: seq<seq<string>>)
    requires AllWords(Flatten(gs))
    ensures forall k :: 0 <= k < |gs| ==> AllWords(gs[k])
    decreases |gs|
  {
    if gs != [] {
      var f := Flatten(gs);
      var rest := Flatten(gs[1..]);
      assert f == gs[0] + rest;
      assert forall j :: 0 <= j < |gs[0]| ==> gs[0][j] == f[j];
      assert forall j :: 0 <= j < |rest| ==> rest[j] == f[|gs[0]| + j];
      FlattenAllWords(gs[1..]);
      assert forall k :: 1 <= k < |gs| ==> gs[k] == gs[1..][k - 1];
    }
  }
}
