/** Greedy line filling (`wrap` in cli/src/render/format.ts), and why no other layout is shorter. */
module Wrap {
  import opened Utf

  const SPACE: Unit := 32

  /** How long the word at the start of `t` is. */
  function WordLength(t: Text): (n: nat)
    ensures n <= |t| && (forall i :: 0 <= i < n ==> !White(t[i])) && (n < |t| ==> White(t[n]))
  {
    if t == [] || White(t[0]) then 0 else 1 + WordLength(t[1..])
  }

  predicate IsWord(w: Text) { w != [] && forall i :: 0 <= i < |w| ==> !White(w[i]) }

  /** `text.split(/\s+/)` without the empty strings. */
  function Words(t: Text): (r: seq<Text>)
    ensures forall i :: 0 <= i < |r| ==> IsWord(r[i])
    decreases |t|
  {
    if t == [] then []
    else if White(t[0]) then Words(t[1..])
    else [t[..WordLength(t)]] + Words(t[WordLength(t)..])
  }

  // Layouts, as the number of words on each line

  /** Words `a` to `b` joined by single spaces. */
  function Line(ws: seq<Text>, a: nat, b: nat): (r: Text)
    requires a < b <= |ws|
  {
    if b == a + 1 then ws[a] else Line(ws, a, b - 1) + [SPACE] + ws[b - 1]
  }

  /** A line fits, or holds one word too long for any line. */
  predicate Fits(ws: seq<Text>, a: nat, b: nat, width: int)
    requires a < b <= |ws|
  {
    b == a + 1 || |Line(ws, a, b)| <= width
  }

  /** `sizes` splits the first `n` words into fitting lines. */
  predicate Layout(ws: seq<Text>, n: nat, sizes: seq<nat>, width: int)
    requires n <= |ws|
    decreases |sizes|
  {
    if sizes == [] then n == 0
    else
      var k := sizes[|sizes| - 1];
      1 <= k <= n && Fits(ws, n - k, n, width) && Layout(ws, n - k, sizes[..|sizes| - 1], width)
  }

  /** The lines of a layout. */
  function Rendered(ws: seq<Text>, n: nat, sizes: seq<nat>): seq<Text>
    requires n <= |ws|
    decreases |sizes|
  {
    if sizes == [] then []
    else
      var k := sizes[|sizes| - 1];
      if 1 <= k <= n then Rendered(ws, n - k, sizes[..|sizes| - 1]) + [Line(ws, n - k, n)] else []
  }

  /** The layout the loop makes: a word goes on the current line whenever it still fits. */
  function Greedy(ws: seq<Text>, n: nat, width: int): (sizes: seq<nat>)
    requires n <= |ws|
    ensures Layout(ws, n, sizes, width)
  {
    if n == 0 then []
    else
      var s := Greedy(ws, n - 1, width);
      if s != [] && |Line(ws, n - 1 - s[|s| - 1], n - 1)| + 1 + |ws[n - 1]| <= width then
        var m := |s| - 1;
        assert s[m := s[m] + 1][..m] == s[..m];
        s[m := s[m] + 1]
      else
        assert (s + [1])[..|s|] == s;
        s + [1]
  }

  lemma {:induction false} LineNotEmpty(ws: seq<Text>, a: nat, b: nat)
    requires a < b <= |ws| && IsWord(ws[a])
    ensures Line(ws, a, b) != []
  {
    if b > a + 1 {
      LineNotEmpty(ws, a, b - 1);
    }
  }

  /** The lines before the one being filled, and that line, after `n` words. */
  ghost predicate Filled(lines: seq<Text>, line: Text, ws: seq<Text>, n: nat, width: int)
    requires n <= |ws|
  {
    var s := Greedy(ws, n, width);
    if n == 0 then lines == [] && line == []
    else
      s != [] && var k := s[|s| - 1];
      lines == Rendered(ws, n - k, s[..|s| - 1]) && line == Line(ws, n - k, n)
  }

  /** One more word. */
  method Place(lines: seq<Text>, line: Text, ws: seq<Text>, n: nat, width: int)
    returns (lines': seq<Text>, line': Text)
    requires n < |ws| && Filled(lines, line, ws, n, width) && forall i :: 0 <= i < |ws| ==> IsWord(ws[i])
    ensures Filled(lines', line', ws, n + 1, width)
  {
    var word := ws[n];
    ghost var s := Greedy(ws, n, width);
    if n > 0 {
      LineNotEmpty(ws, n - s[|s| - 1], n);
    }
    if |line| == 0 {
      lines', line' := lines, word;
    } else if |line| + 1 + |word| <= width {
      lines', line' := lines, line + [SPACE] + word;
    } else {
      lines', line' := lines + [line], word;
    }
  }

  method Wrap(text: Text, width: int) returns (out: seq<Text>)
    ensures var ws := Words(text);
      out == if ws == [] then [[]] else Rendered(ws, |ws|, Greedy(ws, |ws|, width))
  {
    hide Greedy, Line, Rendered, Layout;
    var ws := Words(text);
    var lines: seq<Text>, line: Text := [], [];
    NothingFilled(ws, width);
    for i := 0 to |ws|
      invariant Filled(lines, line, ws, i, width)
    {
      lines, line := Place(lines, line, ws, i, width);
    }
    if |ws| > 0 {
      LastLine(lines, line, ws, width);
    }
    if |line| > 0 {
      lines := lines + [line];
    }
    out := if |lines| > 0 then lines else [[]];
  }

  lemma {:induction false} NothingFilled(ws: seq<Text>, width: int)
    ensures Filled([], [], ws, 0, width)
  {
  }

  lemma {:induction false} LastLine(lines: seq<Text>, line: Text, ws: seq<Text>, width: int)
    requires ws != [] && Filled(lines, line, ws, |ws|, width) && forall i :: 0 <= i < |ws| ==> IsWord(ws[i])
    ensures line != [] && lines + [line] == Rendered(ws, |ws|, Greedy(ws, |ws|, width))
  {
    var s := Greedy(ws, |ws|, width);
    LineNotEmpty(ws, |ws| - s[|s| - 1], |ws|);
  }

  // No layout is shorter

  /** A line without its first words is no longer than the line. */
  lemma {:induction false} ShorterLine(ws: seq<Text>, a: nat, b: nat, c: nat)
    requires a <= b < c <= |ws|
    ensures |Line(ws, b, c)| <= |Line(ws, a, c)|
  {
    if c > b + 1 {
      ShorterLine(ws, a, b, c - 1);
    }
  }

  /** Greedy is ahead of a layout of the same words: fewer lines, or as many and a last line with no
      more words on it. */
  ghost predicate Ahead(s: seq<nat>, t: seq<nat>) {
    |s| < |t| || (|s| == |t| && (s != [] ==> s[|s| - 1] <= t[|t| - 1]))
  }

  /** A layout without its last word. */
  function Shorten(t: seq<nat>): seq<nat>
    requires t != [] && t[|t| - 1] > 0
  {
    var m := |t| - 1;
    if t[m] == 1 then t[..m] else t[m := (t[m] - 1) as nat]
  }

  lemma {:induction false} ShortenLayout(ws: seq<Text>, n: nat, t: seq<nat>, width: int)
    requires 0 < n <= |ws| && Layout(ws, n, t, width)
    ensures t != [] && t[|t| - 1] > 0 && Layout(ws, n - 1, Shorten(t), width)
  {
    var m := |t| - 1;
    var k := t[m];
    if k > 1 {
      assert Shorten(t)[..m] == t[..m];
      assert |Line(ws, n - k, n)| == |Line(ws, n - k, n - 1)| + 1 + |ws[n - 1]|;
    }
  }

  lemma {:induction false} GreedyAhead(ws: seq<Text>, n: nat, t: seq<nat>, width: int)
    requires n <= |ws| && Layout(ws, n, t, width)
    ensures Ahead(Greedy(ws, n, width), t)
  {
    if n > 0 {
      ShortenLayout(ws, n, t, width);
      GreedyAhead(ws, n - 1, Shorten(t), width);
      var s, k := Greedy(ws, n - 1, width), t[|t| - 1];
      if s != [] && k > 1 && |s| == |t| {
        ShorterLine(ws, n - k, n - 1 - s[|s| - 1], n - 1);
        assert |Line(ws, n - k, n)| == |Line(ws, n - k, n - 1)| + 1 + |ws[n - 1]|;
      }
    }
  }

  /** Among all layouts of the words into lines that fit, over-long single words aside, greedy
      filling uses the fewest lines. */
  lemma {:induction false} FewestLines(ws: seq<Text>, t: seq<nat>, width: int)
    requires Layout(ws, |ws|, t, width)
    ensures |Greedy(ws, |ws|, width)| <= |t|
  {
    GreedyAhead(ws, |ws|, t, width);
  }

  // What the lines hold

  lemma {:induction false} RenderedFits(ws: seq<Text>, n: nat, sizes: seq<nat>, width: int)
    requires n <= |ws| && Layout(ws, n, sizes, width)
    ensures |Rendered(ws, n, sizes)| == |sizes|
    ensures forall i :: 0 <= i < |sizes| ==> |Rendered(ws, n, sizes)[i]| <= width || Rendered(ws, n, sizes)[i] in ws
    decreases |sizes|
  {
    if sizes != [] {
      RenderedFits(ws, n - sizes[|sizes| - 1], sizes[..|sizes| - 1], width);
    }
  }

  lemma {:induction false} WordLengthExtend(w: Text, rest: Text)
    requires IsWord(w) && (rest != [] ==> White(rest[0]))
    ensures WordLength(w + rest) == |w|
    decreases |w|
  {
    assert (w + rest)[1..] == w[1..] + rest;
    if |w| > 1 {
      WordLengthExtend(w[1..], rest);
    }
  }

  lemma {:induction false} WordsSpaced(t: Text, w: Text)
    requires IsWord(w)
    ensures Words(t + [SPACE] + w) == Words(t) + [w]
    decreases |t|
  {
    var u := t + [SPACE] + w;
    if t == [] {
      assert u[1..] == w;
      OneWord(w);
    } else if White(t[0]) {
      assert u[1..] == t[1..] + [SPACE] + w;
      WordsSpaced(t[1..], w);
    } else {
      var k := WordLength(t);
      var rest := t[k..] + [SPACE] + w;
      assert u == t[..k] + rest;
      WordLengthExtend(t[..k], rest);
      assert u[..k] == t[..k] && u[k..] == rest;
      WordsSpaced(t[k..], w);
    }
  }

  lemma {:induction false} OneWord(w: Text)
    requires IsWord(w)
    ensures Words(w) == [w]
  {
    assert w + [] == w;
    WordLengthExtend(w, []);
    assert w[..|w|] == w && w[|w|..] == [];
  }

  lemma {:induction false} LineWords(ws: seq<Text>, a: nat, b: nat)
    requires a < b <= |ws| && forall i :: 0 <= i < |ws| ==> IsWord(ws[i])
    ensures Words(Line(ws, a, b)) == ws[a..b]
  {
    if b == a + 1 {
      OneWord(ws[a]);
    } else {
      LineWords(ws, a, b - 1);
      WordsSpaced(Line(ws, a, b - 1), ws[b - 1]);
      assert ws[a..b] == ws[a..b - 1] + [ws[b - 1]];
    }
  }

  /** The words of all lines, one after another. */
  function WordsOf(lines: seq<Text>): seq<Text> {
    if lines == [] then [] else WordsOf(lines[..|lines| - 1]) + Words(lines[|lines| - 1])
  }

  lemma {:induction false} RenderedWords(ws: seq<Text>, n: nat, sizes: seq<nat>, width: int)
    requires n <= |ws| && Layout(ws, n, sizes, width) && forall i :: 0 <= i < |ws| ==> IsWord(ws[i])
    ensures WordsOf(Rendered(ws, n, sizes)) == ws[..n]
    decreases |sizes|
  {
    if sizes != [] {
      var k := sizes[|sizes| - 1];
      RenderedWords(ws, n - k, sizes[..|sizes| - 1], width);
      LineWords(ws, n - k, n);
      var r := Rendered(ws, n, sizes);
      assert r[..|r| - 1] == Rendered(ws, n - k, sizes[..|sizes| - 1]);
      assert ws[..n] == ws[..n - k] + ws[n - k..n];
    }
  }

  /** Wrapping keeps the words of the text in their order, and a line exceeds the width only when it
      is a single word. */
  lemma {:induction false} WrapKeepsWords(text: Text, width: int)
    ensures var ws := Words(text);
      var lines := Rendered(ws, |ws|, Greedy(ws, |ws|, width));
      && WordsOf(lines) == ws
      && forall i :: 0 <= i < |lines| ==> |lines[i]| <= width || lines[i] in ws
  {
    var ws := Words(text);
    RenderedWords(ws, |ws|, Greedy(ws, |ws|, width), width);
    RenderedFits(ws, |ws|, Greedy(ws, |ws|, width), width);
    assert ws[..|ws|] == ws;
  }

  // Words

  /** The words one after the other. */
  function Joined(ws: seq<Text>): Text {
    if ws == [] then [] else ws[0] + Joined(ws[1..])
  }

  /** The text without its white space. */
  function Inked(t: Text): Text {
    if t == [] then [] else (if White(t[0]) then [] else [t[0]]) + Inked(t[1..])
  }

  /** How many runs of anything but white space there are. */
  function Runs(t: Text, after: bool): nat {
    if t == [] then 0
    else (if !White(t[0]) && !after then 1 else 0) + Runs(t[1..], !White(t[0]))
  }

  lemma {:induction false} InkedWord(w: Text, t: Text)
    requires forall i :: 0 <= i < |w| ==> !White(w[i])
    ensures Inked(w + t) == w + Inked(t)
    ensures w != [] && (t != [] ==> White(t[0])) ==> Runs(w + t, false) == 1 + Runs(t, false)
    ensures (t != [] ==> White(t[0])) ==> Runs(w + t, true) == Runs(t, false)
  {
    if w == [] {
      assert w + t == t;
    } else {
      assert (w + t)[1..] == w[1..] + t;
      InkedWord(w[1..], t);
      assert w == [w[0]] + w[1..];
    }
  }

  /** The words of a text are its runs of anything but white space: nothing else is lost and none is split. */
  lemma {:induction false} WordsOfText(t: Text)
    ensures Joined(Words(t)) == Inked(t) && |Words(t)| == Runs(t, false)
    decreases |t|
  {
    if t != [] {
      if White(t[0]) {
        WordsOfText(t[1..]);
      } else {
        var n := WordLength(t);
        WordsOfText(t[n..]);
        InkedWord(t[..n], t[n..]);
        assert t == t[..n] + t[n..];
      }
    }
  }
}
