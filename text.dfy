/**
 * Whitespace handling of Python strings, as the slide builders use it:
 * `str.split()` with no separator, `sep.join(words)` and `str.strip()`.
 */
module Text {

  /** The characters Python's `str.isspace()` accepts; `split()` and `strip()` break on exactly these. */
  predicate IsSpace(c: char)
  {
    || c == ' ' || c == '\t' || c == '\n' || c == '\r' || c == '\U{B}' || c == '\U{C}'
    || ('\U{1C}' <= c <= '\U{1F}') || c == '\U{85}' || c == '\U{A0}' || c == '\U{1680}'
    || ('\U{2000}' <= c <= '\U{200A}') || c == '\U{2028}' || c == '\U{2029}' || c == '\U{202F}'
    || c == '\U{205F}' || c == '\U{3000}'
  }

  /** A word as `split()` produces it: non-empty, no whitespace. */
  predicate IsWord(w: string)
  {
    |w| > 0 && forall i :: 0 <= i < |w| ==> !IsSpace(w[i])
  }

  predicate AllWords(ws: seq<string>)
  {
    forall i :: 0 <= i < |ws| ==> IsWord(ws[i])
  }

  predicate AllSpaces(s: string)
  {
    forall i :: 0 <= i < |s| ==> IsSpace(s[i])
  }

  /** A string that `strip()` leaves unchanged. */
  predicate Stripped(s: string)
  {
    s == [] || (!IsSpace(s[0]) && !IsSpace(s[|s| - 1]))
  }

  /** `sep.join(ws)` */
  function Join(ws: seq<string>, sep: string): string
  {
    if ws == [] then "" else if |ws| == 1 then ws[0] else ws[0] + sep + Join(ws[1..], sep)
  }

  /** The string without its leading whitespace (`lstrip()`). */
  function DropSpaces(s: string): (r: string)
    ensures |r| <= |s|
    ensures r == [] || !IsSpace(r[0])
  {
    if s != [] && IsSpace(s[0]) then DropSpaces(s[1..]) else s
  }

  /** The string without its trailing whitespace (`rstrip()`). */
  function TrimEnd(s: string): (r: string)
    ensures |r| <= |s| && r == s[..|r|]
    ensures r == [] || !IsSpace(r[|r| - 1])
    ensures forall i :: |r| <= i < |s| ==> IsSpace(s[i])
  {
    if s != [] && IsSpace(s[|s| - 1]) then TrimEnd(s[..|s| - 1]) else s
  }

  /** `str.strip()` with no argument. */
  function Strip(s: string): (r: string)
    ensures Stripped(r)
  {
    TrimEnd(DropSpaces(s))
  }

  /** Length of the run of non-whitespace characters that starts `s`. */
  function WordLength(s: string): (n: nat)
    ensures n <= |s|
  {
    if s == [] || IsSpace(s[0]) then 0 else 1 + WordLength(s[1..])
  }

  /** `str.split()` with no separator: the maximal whitespace-free runs, in order. */
  function Split(s: string): seq<string>
    decreases |s|
  {
    var t := DropSpaces(s);
    if t == [] then []
    else
      var n := WordLength(t);
      [t[..n]] + Split(t[n..])
  }

  lemma {:induction false} WordLengthOfWord(w: string, s: string)
    requires forall i :: 0 <= i < |w| ==> !IsSpace(w[i])
    requires s == [] || IsSpace(s[0])
    ensures WordLength(w + s) == |w|
    decreases |w|
  {
    if w == [] {
      assert w + s == s;
    } else {
      assert (w + s)[0] == w[0];
      assert (w + s)[1..] == w[1..] + s;
      WordLengthOfWord(w[1..], s);
    }
  }

  /** The words `split()` returns are words. */
  lemma {:induction false} SplitWords(s: string)
    ensures AllWords(Split(s))
    decreases |s|
  {
    var t := DropSpaces(s);
    if t != [] {
      var n := WordLength(t);
      WordLengthRun(t);
      SplitWords(t[n..]);
    }
  }

  lemma {:induction false} WordLengthRun(s: string)
    ensures forall i :: 0 <= i < WordLength(s) ==> !IsSpace(s[i])
    decreases |s|
  {
    if s != [] && !IsSpace(s[0]) {
      WordLengthRun(s[1..]);
      assert forall i :: 1 <= i < WordLength(s) ==> s[i] == s[1..][i - 1];
    }
  }

  /** A word followed by nothing or by whitespace is split off as the first word. */
  lemma SplitWordFirst(w: string, s: string)
    requires IsWord(w) && (s == [] || IsSpace(s[0]))
    ensures Split(w + s) == [w] + Split(s)
  {
    assert (w + s)[0] == w[0];
    assert DropSpaces(w + s) == w + s;
    WordLengthOfWord(w, s);
    assert (w + s)[..|w|] == w;
    assert (w + s)[|w|..] == s;
  }

  /** A leading whitespace character does not change the words. */
  lemma SplitSpaceFirst(c: char, s: string)
    requires IsSpace(c)
    ensures Split([c] + s) == Split(s)
  {
    assert ([c] + s)[1..] == s;
    assert DropSpaces([c] + s) == DropSpaces(s);
  }

  lemma SplitWordSpace(w: string, s: string)
    requires IsWord(w)
    ensures Split(w + " " + s) == [w] + Split(s)
  {
    assert w + " " + s == w + (" " + s);
    SplitWordFirst(w, " " + s);
    SplitSpaceFirst(' ', s);
  }

  lemma SplitDropSpaces(s: string)
    ensures Split(DropSpaces(s)) == Split(s)
  {
    var t := DropSpaces(s);
    assert DropSpaces(t) == t;
  }

  lemma HeadTail<T>(xs: seq<T>)
    requires xs != []
    ensures [xs[0]] + xs[1..] == xs
  {
  }

  /** Splitting a space-joined list of words (followed by nothing or whitespace) gives the words back. */
  lemma {:induction false} SplitJoin(ws: seq<string>, s: string)
    requires AllWords(ws) && (s == [] || IsSpace(s[0]))
    ensures Split(Join(ws, " ") + s) == ws + Split(s)
    decreases |ws|
  {
    if ws == [] {
      assert Join(ws, " ") + s == s;
      assert ws + Split(s) == Split(s);
    } else if |ws| == 1 {
      assert Join(ws, " ") + s == ws[0] + s;
      SplitWordFirst(ws[0], s);
      HeadTail(ws);
    } else {
      var rest := Join(ws[1..], " ") + s;
      calc {
        Split(Join(ws, " ") + s);
        { assert Join(ws, " ") + s == ws[0] + (" " + rest); }
        Split(ws[0] + (" " + rest));
        { SplitWordFirst(ws[0], " " + rest); }
        [ws[0]] + Split(" " + rest);
        { SplitSpaceFirst(' ', rest); }
        [ws[0]] + Split(rest);
        { SplitJoin(ws[1..], s); }
        [ws[0]] + (ws[1..] + Split(s));
        { HeadTail(ws); }
        ws + Split(s);
      }
    }
  }

  lemma DropAllSpaces(s: string)
    requires AllSpaces(s)
    ensures DropSpaces(s) == []
  {
  }

  lemma {:induction false} DropSpacesAppend(u: string, sp: string)
    requires AllSpaces(sp)
    ensures DropSpaces(u + sp) == if DropSpaces(u) == [] then [] else DropSpaces(u) + sp
    decreases |u|
  {
    if u == [] {
      assert u + sp == sp;
      DropAllSpaces(sp);
    } else if IsSpace(u[0]) {
      assert (u + sp)[1..] == u[1..] + sp;
      DropSpacesAppend(u[1..], sp);
    } else {
      assert (u + sp)[0] == u[0];
    }
  }

  lemma {:induction false} WordLengthAppend(a: string, b: string)
    requires WordLength(a) < |a| || b == [] || IsSpace(b[0])
    ensures WordLength(a + b) == WordLength(a)
    decreases |a|
  {
    if a == [] {
      assert a + b == b;
    } else if IsSpace(a[0]) {
      assert (a + b)[0] == a[0];
    } else {
      assert (a + b)[0] == a[0];
      assert (a + b)[1..] == a[1..] + b;
      WordLengthAppend(a[1..], b);
    }
  }

  /** Trailing whitespace does not change the words. */
  lemma {:induction false} SplitAppendSpaces(u: string, sp: string)
    requires AllSpaces(sp)
    ensures Split(u + sp) == Split(u)
    decreases |u|
  {
    DropSpacesAppend(u, sp);
    var t := DropSpaces(u);
    if t != [] {
      var n := WordLength(t);
      WordLengthAppend(t, sp);
      assert DropSpaces(u + sp) == t + sp;
      assert (t + sp)[..n] == t[..n];
      assert (t + sp)[n..] == t[n..] + sp;
      calc {
        Split(u + sp);
        [t[..n]] + Split(t[n..] + sp);
        { SplitAppendSpaces(t[n..], sp); }
        [t[..n]] + Split(t[n..]);
        Split(u);
      }
    }
  }

  /** `s.strip().split() == s.split()` */
  lemma SplitStrip(s: string)
    ensures Split(Strip(s)) == Split(s)
  {
    var t := DropSpaces(s);
    var r := TrimEnd(t);
    assert t == r + t[|r|..];
    SplitAppendSpaces(r, t[|r|..]);
    SplitDropSpaces(s);
  }

  lemma StripStripped(s: string)
    requires Stripped(s)
    ensures Strip(s) == s
  {
    assert DropSpaces(s) == s;
  }

  lemma {:induction false} JoinSnoc(ws: seq<string>, w: string, sep: string)
    requires ws != []
    ensures Join(ws + [w], sep) == Join(ws, sep) + sep + w
    decreases |ws|
  {
    if |ws| > 1 {
      assert (ws + [w])[1..] == ws[1..] + [w];
      JoinSnoc(ws[1..], w, sep);
    }
  }

  /** A space-joined list of words starts and ends with a word character and holds no whitespace but single spaces. */
  lemma {:induction false} JoinWords(ws: seq<string>)
    requires AllWords(ws) && ws != []
    ensures |Join(ws, " ")| > 0 && Stripped(Join(ws, " "))
    ensures forall i :: 0 <= i < |Join(ws, " ")| ==> Join(ws, " ")[i] == ' ' || !IsSpace(Join(ws, " ")[i])
    decreases |ws|
  {
    if |ws| > 1 {
      JoinWords(ws[1..]);
      var j := Join(ws, " ");
      var r := Join(ws[1..], " ");
      assert j == ws[0] + " " + r;
      forall i | 0 <= i < |j| ensures j[i] == ' ' || !IsSpace(j[i]) {
        if i < |ws[0]| {
          assert j[i] == ws[0][i];
        } else if i > |ws[0]| {
          assert j[i] == r[i - |ws[0]| - 1];
        }
      }
      assert j[|j| - 1] == r[|r| - 1];
    }
  }

  lemma JoinWordsNoNewline(ws: seq<string>)
    requires AllWords(ws)
    ensures '\n' !in Join(ws, " ")
  {
    if ws != [] {
      JoinWords(ws);
    }
  }
}
