/** The text measurement of `src/text-measurement.ts`: greedy word wrap of
    each `'\n'`-separated paragraph into a box of given width, with every
    character as wide as the font's average glyph.

    The wrap is described twice. `Layout` builds the lines themselves, as
    the sequences of word widths they hold; `MeasureWrappedText` is the
    source's loop, which keeps only counters, and its invariants tie the
    counters to `Layout`. */
module TextMeasurement {
  import JsStrings
  import opened FontMetrics

  datatype MeasuredText = MeasuredText(width: real, height: real, lines: nat)

  /** `Math.max` on two numbers. */
  function Max(a: real, b: real): (r: real)
    ensures r >= a && r >= b && (r == a || r == b)
  {
    if a >= b then a else b
  }

  /** `charWidth`: `n` average glyphs at `fontSize`. In font units (the
      width times `unitsPerEm`) it is `n` average advances times the size,
      and no characters take no width. */
  function CharWidth(m: Metrics, fontSize: real, n: nat): (r: real)
    requires m.unitsPerEm != 0.0
    ensures r * m.unitsPerEm == n as real * m.xWidthAvg * fontSize
    ensures n == 0 ==> r == 0.0
  {
    var scale := fontSize / m.unitsPerEm;
    assert scale * m.unitsPerEm == fontSize;
    n as real * m.xWidthAvg * scale
  }

  /** Widths of character counts add up. */
  lemma CharWidthAdds(m: Metrics, fontSize: real, a: nat, b: nat)
    requires m.unitsPerEm != 0.0
    ensures CharWidth(m, fontSize, a + b) == CharWidth(m, fontSize, a) + CharWidth(m, fontSize, b)
  {
    var k := m.xWidthAvg * (fontSize / m.unitsPerEm);
    assert CharWidth(m, fontSize, a + b) == (a + b) as real * k;
    assert (a + b) as real * k == a as real * k + b as real * k;
  }

  /** `lineHeight`: ascent to descent plus the line gap, scaled to
      `fontSize`; in font units it is that extent times the size. */
  function LineHeight(m: Metrics, fontSize: real): (r: real)
    requires m.unitsPerEm != 0.0
    ensures r * m.unitsPerEm == (m.ascent - m.descent + m.lineGap) * fontSize
  {
    var scale := fontSize / m.unitsPerEm;
    assert scale * m.unitsPerEm == fontSize;
    (m.ascent - m.descent + m.lineGap) * scale
  }

  /** The width one word takes on a line: its length plus one more
      character for the space after it. The length is JavaScript's
      `word.length`, in UTF-16 code units. */
  function WordWidth(m: Metrics, fontSize: real, word: string): real
    requires m.unitsPerEm != 0.0
  {
    CharWidth(m, fontSize, JsStrings.Utf16Length(word)) + CharWidth(m, fontSize, 1)
  }

  /** A word is charged exactly one code unit more than its length. */
  lemma WordWidthIsOneMoreChar(m: Metrics, fontSize: real, word: string)
    requires m.unitsPerEm != 0.0
    ensures WordWidth(m, fontSize, word) == CharWidth(m, fontSize, JsStrings.Utf16Length(word) + 1)
  {
    CharWidthAdds(m, fontSize, JsStrings.Utf16Length(word), 1);
  }

  /** A word of one character beyond the Basic Multilingual Plane, such as
      an emoji, is charged three average glyphs: two code units and the
      space. */
  lemma EmojiWordWidth(m: Metrics, fontSize: real)
    requires m.unitsPerEm != 0.0
    ensures WordWidth(m, fontSize, "\U{1F642}") == CharWidth(m, fontSize, 3)
  {
    JsStrings.EmojiIsTwoUnits();
    WordWidthIsOneMoreChar(m, fontSize, "\U{1F642}");
  }

  /** With positive metrics and size every word, even an empty one, takes
      positive width. */
  lemma WordWidthPositive(m: Metrics, fontSize: real, word: string)
    requires m.unitsPerEm > 0.0 && m.xWidthAvg > 0.0 && fontSize > 0.0
    ensures WordWidth(m, fontSize, word) > 0.0
  {
    var s := fontSize / m.unitsPerEm;
    assert s > 0.0;
    assert m.xWidthAvg * s > 0.0;
    assert 1.0 * m.xWidthAvg * s > 0.0;
    assert JsStrings.Utf16Length(word) as real * m.xWidthAvg * s >= 0.0;
  }

  function WordWidths(m: Metrics, fontSize: real, words: seq<string>): (ws: seq<real>)
    requires m.unitsPerEm != 0.0
    ensures |ws| == |words|
    ensures forall i :: 0 <= i < |words| ==> ws[i] == WordWidth(m, fontSize, words[i])
  {
    if |words| == 0 then [] else [WordWidth(m, fontSize, words[0])] + WordWidths(m, fontSize, words[1..])
  }

  function Sum(xs: seq<real>): real {
    if |xs| == 0 then 0.0 else Sum(xs[..|xs| - 1]) + xs[|xs| - 1]
  }

  lemma {:induction false} SumPositive(xs: seq<real>)
    requires |xs| > 0 && AllPositive(xs)
    ensures Sum(xs) > 0.0
  {
    if |xs| > 1 {
      SumPositive(xs[..|xs| - 1]);
    }
  }

  /** The width of the line being filled (0 before the first word). */
  function CurrentWidth(lines: seq<seq<real>>): real {
    if |lines| == 0 then 0.0 else Sum(lines[|lines| - 1])
  }

  /** The lines before the one being filled. */
  function Completed(lines: seq<seq<real>>): seq<seq<real>> {
    if |lines| == 0 then [] else lines[..|lines| - 1]
  }

  /** The next word would overflow a current line that already has
      positive width, so it starts a new line. */
  predicate Breaks(lines: seq<seq<real>>, w: real, boxWidth: real) {
    CurrentWidth(lines) + w > boxWidth && CurrentWidth(lines) > 0.0
  }

  /** Places one more word: on a new line when it breaks, else on the
      current line (the first line when there is none yet). */
  function Place(lines: seq<seq<real>>, w: real, boxWidth: real): seq<seq<real>> {
    if Breaks(lines, w, boxWidth) then lines + [[w]]
    else if |lines| == 0 then [[w]]
    else lines[..|lines| - 1] + [lines[|lines| - 1] + [w]]
  }

  lemma SumSnoc(xs: seq<real>, w: real)
    ensures Sum(xs + [w]) == Sum(xs) + w
  {
    assert (xs + [w])[..|xs|] == xs;
  }

  /** What a placement does to the lines, position by position. */
  lemma PlaceShape(lines: seq<seq<real>>, w: real, boxWidth: real)
    ensures var next := Place(lines, w, boxWidth);
      if Breaks(lines, w, boxWidth) then
        && |next| == |lines| + 1 && next[|lines|] == [w]
        && (forall j :: 0 <= j < |lines| ==> next[j] == lines[j])
        && CurrentWidth(next) == w
      else
        && |next| == (if |lines| == 0 then 1 else |lines|)
        && (forall j :: 0 <= j < |next| - 1 ==> next[j] == lines[j])
        && next[|next| - 1] == (if |lines| == 0 then [] else lines[|lines| - 1]) + [w]
        && CurrentWidth(next) == CurrentWidth(lines) + w
  {
    SumSnoc([], w);
    assert [] + [w] == [w];
    if !Breaks(lines, w, boxWidth) && |lines| > 0 {
      SumSnoc(lines[|lines| - 1], w);
    }
  }

  function Flatten(lines: seq<seq<real>>): seq<real> {
    if |lines| == 0 then [] else Flatten(lines[..|lines| - 1]) + lines[|lines| - 1]
  }

  /** The greedy layout of a paragraph's word widths: no line is empty, the
      words appear in order with none lost, and there are at most as many
      lines as words. */
  function Layout(ws: seq<real>, boxWidth: real): (lines: seq<seq<real>>)
    ensures |ws| > 0 ==> |lines| >= 1
    ensures |lines| <= |ws|
    ensures forall j :: 0 <= j < |lines| ==> |lines[j]| >= 1
    ensures Flatten(lines) == ws
  {
    if |ws| == 0 then []
    else
      var prev := Layout(ws[..|ws| - 1], boxWidth);
      var w := ws[|ws| - 1];
      var r := Place(prev, w, boxWidth);
      assert ws == ws[..|ws| - 1] + [w];
      if Breaks(prev, w, boxWidth) then
        assert r[..|r| - 1] == prev;
        r
      else if |prev| == 0 then
        r
      else
        var n := |prev|;
        assert r[..n - 1] == prev[..n - 1];
        assert Flatten(prev) == Flatten(prev[..n - 1]) + prev[n - 1];
        r
  }

  /** Extending the words by one extends the layout by one placement. */
  lemma LayoutStep(ws: seq<real>, j: int, boxWidth: real)
    requires 0 <= j < |ws|
    ensures Layout(ws[..j + 1], boxWidth) == Place(Layout(ws[..j], boxWidth), ws[j], boxWidth)
  {
    assert ws[..j + 1][..j] == ws[..j];
  }

  predicate AllPositive(xs: seq<real>) {
    forall i :: 0 <= i < |xs| ==> xs[i] > 0.0
  }

  /** Every line holding two or more words fits the box. */
  predicate MultiWordFits(lines: seq<seq<real>>, boxWidth: real) {
    forall j :: 0 <= j < |lines| && |lines[j]| >= 2 ==> Sum(lines[j]) <= boxWidth
  }

  /** Each line but the last was broken because the first word of the next
      would overflow it, and it had positive width. */
  predicate BrokenOnOverflow(lines: seq<seq<real>>, boxWidth: real) {
    forall j :: 0 <= j < |lines| - 1 ==> BrokenAt(lines, j, boxWidth)
  }

  predicate BrokenAt(lines: seq<seq<real>>, j: int, boxWidth: real)
    requires 0 <= j < |lines| - 1
  {
    |lines[j + 1]| > 0 && Sum(lines[j]) + lines[j + 1][0] > boxWidth && Sum(lines[j]) > 0.0
  }

  /** With positive word widths, a line holding two or more words fits the
      box; so a line wider than the box holds a single word. */
  lemma {:induction false} MultiWordLinesFit(ws: seq<real>, boxWidth: real)
    requires AllPositive(ws)
    ensures MultiWordFits(Layout(ws, boxWidth), boxWidth)
  {
    if |ws| > 0 {
      var init := ws[..|ws| - 1];
      var w := ws[|ws| - 1];
      var prev := Layout(init, boxWidth);
      MultiWordLinesFit(init, boxWidth);
      PlaceShape(prev, w, boxWidth);
      var lines := Layout(ws, boxWidth);
      assert lines == Place(prev, w, boxWidth);
      forall j | 0 <= j < |lines| && |lines[j]| >= 2 ensures Sum(lines[j]) <= boxWidth {
        if j < |lines| - 1 || Breaks(prev, w, boxWidth) {
          assert j < |prev|;
          assert lines[j] == prev[j];
          assert |prev[j]| >= 2;
          assert Sum(prev[j]) <= boxWidth;
        } else {
          assert |prev| > 0;
          var last := prev[|prev| - 1];
          assert lines[j] == last + [w];
          LayoutPositive(init, boxWidth);
          assert AllPositive(last);
          SumPositive(last);
          SumSnoc(last, w);
          assert CurrentWidth(prev) == Sum(last);
          assert Sum(last) + w <= boxWidth;
        }
      }
    }
  }

  /** Positive widths stay positive wherever the layout puts them. */
  lemma {:induction false} LayoutPositive(ws: seq<real>, boxWidth: real)
    requires AllPositive(ws)
    ensures forall j :: 0 <= j < |Layout(ws, boxWidth)| ==> AllPositive(Layout(ws, boxWidth)[j])
  {
    if |ws| > 0 {
      var init := ws[..|ws| - 1];
      var w := ws[|ws| - 1];
      var prev := Layout(init, boxWidth);
      assert AllPositive(init) && w > 0.0;
      LayoutPositive(init, boxWidth);
      PlaceShape(prev, w, boxWidth);
      var lines := Layout(ws, boxWidth);
      assert lines == Place(prev, w, boxWidth);
      forall j | 0 <= j < |lines| ensures AllPositive(lines[j]) {
        if Breaks(prev, w, boxWidth) {
          if j < |prev| { assert lines[j] == prev[j]; } else { assert lines[j] == [w]; }
        } else if j < |lines| - 1 {
          assert lines[j] == prev[j];
        } else if |prev| > 0 {
          var last := prev[|prev| - 1];
          assert AllPositive(last);
          assert lines[j] == last + [w];
          assert forall i :: 0 <= i < |last| ==> (last + [w])[i] == last[i];
        } else {
          assert lines[j] == [w];
        }
      }
    }
  }

  /** A line is only broken when the next word would overflow it and it
      already has positive width: each line is as full as the rule allows. */
  lemma {:induction false} BreaksOnlyOnOverflow(ws: seq<real>, boxWidth: real)
    ensures BrokenOnOverflow(Layout(ws, boxWidth), boxWidth)
  {
    if |ws| > 0 {
      var init := ws[..|ws| - 1];
      var w := ws[|ws| - 1];
      var prev := Layout(init, boxWidth);
      BreaksOnlyOnOverflow(init, boxWidth);
      PlaceShape(prev, w, boxWidth);
      var lines := Layout(ws, boxWidth);
      assert lines == Place(prev, w, boxWidth);
      forall j | 0 <= j < |lines| - 1 ensures BrokenAt(lines, j, boxWidth) {
        if j < |prev| - 1 {
          assert BrokenAt(prev, j, boxWidth);
          assert lines[j] == prev[j];
          if j + 1 == |prev| - 1 && !Breaks(prev, w, boxWidth) {
            assert lines[j + 1] == prev[j + 1] + [w];
          } else {
            assert lines[j + 1] == prev[j + 1];
          }
        } else {
          assert Breaks(prev, w, boxWidth);
          assert lines[j] == prev[j] && j == |prev| - 1 && lines[j + 1] == [w];
        }
      }
    }
  }

  /** Folds `Math.max` over the widths of `lines`, starting from `acc`. */
  function MaxSums(lines: seq<seq<real>>, acc: real): (r: real)
    ensures r >= acc
    ensures forall j :: 0 <= j < |lines| ==> r >= Sum(lines[j])
    ensures r == acc || exists j :: 0 <= j < |lines| && r == Sum(lines[j])
  {
    if |lines| == 0 then acc
    else
      var prev := MaxSums(lines[..|lines| - 1], acc);
      assert forall j :: 0 <= j < |lines| - 1 ==> lines[..|lines| - 1][j] == lines[j];
      Max(prev, Sum(lines[|lines| - 1]))
  }

  /** `p.trim() === ''`. */
  predicate Blank(p: string) {
    JsStrings.Trim(p) == ""
  }

  /** The words of a paragraph, split on single spaces. */
  function Words(p: string): seq<string> {
    JsStrings.Split(p, ' ')
  }

  function ParagraphLayout(m: Metrics, fontSize: real, boxWidth: real, p: string): seq<seq<real>>
    requires m.unitsPerEm != 0.0
  {
    Layout(WordWidths(m, fontSize, Words(p)), boxWidth)
  }

  /** Lines a paragraph takes: one when blank, its layout's lines otherwise. */
  function ParagraphLines(m: Metrics, fontSize: real, boxWidth: real, p: string): nat
    requires m.unitsPerEm != 0.0
  {
    if Blank(p) then 1 else |ParagraphLayout(m, fontSize, boxWidth, p)|
  }

  /** The running maximum width after a paragraph; a blank one adds nothing. */
  function ParagraphWidth(m: Metrics, fontSize: real, boxWidth: real, acc: real, p: string): real
    requires m.unitsPerEm != 0.0
  {
    if Blank(p) then acc else MaxSums(ParagraphLayout(m, fontSize, boxWidth, p), acc)
  }

  function TotalLines(m: Metrics, fontSize: real, boxWidth: real, ps: seq<string>): nat
    requires m.unitsPerEm != 0.0
  {
    if |ps| == 0 then 0
    else TotalLines(m, fontSize, boxWidth, ps[..|ps| - 1]) + ParagraphLines(m, fontSize, boxWidth, ps[|ps| - 1])
  }

  function TotalWidth(m: Metrics, fontSize: real, boxWidth: real, ps: seq<string>): real
    requires m.unitsPerEm != 0.0
  {
    if |ps| == 0 then 0.0
    else ParagraphWidth(m, fontSize, boxWidth, TotalWidth(m, fontSize, boxWidth, ps[..|ps| - 1]), ps[|ps| - 1])
  }

  /** `lines * lh`: the height of `n` lines. */
  function Height(n: nat, lh: real): real {
    n as real * lh
  }

  /** What `measureWrappedText` computes, stated through the layout: the
      line count covers every paragraph, the height is the line count times
      the line height, and the width is never negative. That the width is
      the widest line of the text is `WidthIsWidestLine`. */
  function Measure(text: string, fontSize: real, boxWidth: real, m: Metrics): (r: MeasuredText)
    requires m.unitsPerEm != 0.0
    ensures r.lines >= |JsStrings.Split(text, '\n')|
    ensures r.height == Height(r.lines, LineHeight(m, fontSize))
    ensures r.width >= 0.0
  {
    var ps := JsStrings.Split(text, '\n');
    var lines := TotalLines(m, fontSize, boxWidth, ps);
    LinesAtLeastParagraphs(m, fontSize, boxWidth, ps);
    WidthIsWidestLine(m, fontSize, boxWidth, ps);
    MeasuredText(TotalWidth(m, fontSize, boxWidth, ps), Height(lines, LineHeight(m, fontSize)), lines)
  }

  /** `measureWrappedText`: the source's loop over paragraphs, keeping only
      the line count and the widest line so far. */
  method MeasureWrappedText(text: string, fontSize: real, boxWidth: real, m: Metrics)
    returns (r: MeasuredText)
    requires m.unitsPerEm != 0.0
    ensures r == Measure(text, fontSize, boxWidth, m)
  {
    var paragraphs := JsStrings.Split(text, '\n');
    var lh := LineHeight(m, fontSize);
    var lines: nat := 0;
    var maxWidth := 0.0;
    var k := 0;
    while k < |paragraphs|
      invariant 0 <= k <= |paragraphs|
      invariant lines == TotalLines(m, fontSize, boxWidth, paragraphs[..k])
      invariant maxWidth == TotalWidth(m, fontSize, boxWidth, paragraphs[..k])
    {
      assert paragraphs[..k + 1][..k] == paragraphs[..k];
      lines, maxWidth := WrapParagraph(paragraphs[k], fontSize, boxWidth, m, lines, maxWidth);
      k := k + 1;
    }
    assert paragraphs[..k] == paragraphs;
    r := MeasuredText(maxWidth, Height(lines, lh), lines);
  }

  /** The body of the paragraph loop: a blank paragraph counts one line; a
      non-blank one is wrapped word by word, a word starting a new line when
      it would overflow a current line of positive width. */
  method WrapParagraph(p: string, fontSize: real, boxWidth: real, m: Metrics, lines0: nat, max0: real)
    returns (lines: nat, maxWidth: real)
    requires m.unitsPerEm != 0.0
    ensures lines == lines0 + ParagraphLines(m, fontSize, boxWidth, p)
    ensures maxWidth == ParagraphWidth(m, fontSize, boxWidth, max0, p)
  {
    lines, maxWidth := lines0, max0;
    if JsStrings.Trim(p) == "" {
      lines := lines + 1;
      return;
    }
    var words := JsStrings.Split(p, ' ');
    ghost var ws := WordWidths(m, fontSize, words);
    var lineWidth := 0.0;
    var j := 0;
    assert ws[..0] == [];
    while j < |words|
      invariant 0 <= j <= |words|
      invariant CountersAt(ws, j, boxWidth, lines0, max0, lineWidth, lines, maxWidth)
    {
      var wordWidth := WordWidth(m, fontSize, words[j]);
      assert wordWidth == ws[j];
      CountersStep(ws, j, boxWidth, lines0, max0, lineWidth, lines, maxWidth);
      if lineWidth + wordWidth > boxWidth && lineWidth > 0.0 {
        maxWidth := Max(maxWidth, lineWidth);
        lines := lines + 1;
        lineWidth := wordWidth;
      } else {
        lineWidth := lineWidth + wordWidth;
      }
      j := j + 1;
    }
    assert ws[..j] == ws;
    FinishLine(Layout(ws, boxWidth), max0);
    maxWidth := Max(maxWidth, lineWidth);
    lines := lines + 1;
  }

  /** The word loop's counters after `j` words: the width of the line being
      filled, the lines completed so far (on top of `lines0`), and the widest
      completed line (folded from `max0`). */
  predicate CountersAt(ws: seq<real>, j: int, boxWidth: real, lines0: nat, max0: real,
                       lineWidth: real, lines: nat, maxWidth: real)
    requires 0 <= j <= |ws|
  {
    var layout := Layout(ws[..j], boxWidth);
    && lineWidth == CurrentWidth(layout)
    && lines == lines0 + |Completed(layout)|
    && maxWidth == MaxSums(Completed(layout), max0)
  }

  /** One turn of the word loop keeps the counters in step with the layout,
      on both branches of the overflow test. */
  lemma CountersStep(ws: seq<real>, j: int, boxWidth: real, lines0: nat, max0: real,
                     lineWidth: real, lines: nat, maxWidth: real)
    requires 0 <= j < |ws|
    requires CountersAt(ws, j, boxWidth, lines0, max0, lineWidth, lines, maxWidth)
    ensures if lineWidth + ws[j] > boxWidth && lineWidth > 0.0
      then CountersAt(ws, j + 1, boxWidth, lines0, max0, ws[j], lines + 1, Max(maxWidth, lineWidth))
      else CountersAt(ws, j + 1, boxWidth, lines0, max0, lineWidth + ws[j], lines, maxWidth)
  {
    WrapStep(ws, j, boxWidth, max0);
  }

  /** How one placement moves the three counters the loop keeps. */
  lemma PlaceKeepsCounters(lines: seq<seq<real>>, w: real, boxWidth: real, acc: real)
    ensures var cw := CurrentWidth(lines);
      var next := Place(lines, w, boxWidth);
      if Breaks(lines, w, boxWidth) then
        && CurrentWidth(next) == w
        && |Completed(next)| == |Completed(lines)| + 1
        && MaxSums(Completed(next), acc) == Max(MaxSums(Completed(lines), acc), cw)
      else
        && CurrentWidth(next) == cw + w
        && Completed(next) == Completed(lines)
  {
    PlaceShape(lines, w, boxWidth);
    var next := Place(lines, w, boxWidth);
    if Breaks(lines, w, boxWidth) {
      assert Completed(next) == lines;
    } else {
      assert Completed(next) == Completed(lines);
    }
  }

  /** One turn of the word loop, stated on the layouts before and after. */
  lemma WrapStep(ws: seq<real>, j: int, boxWidth: real, acc: real)
    requires 0 <= j < |ws|
    ensures var prev := Layout(ws[..j], boxWidth);
      var next := Layout(ws[..j + 1], boxWidth);
      var cw := CurrentWidth(prev);
      if cw + ws[j] > boxWidth && cw > 0.0 then
        && CurrentWidth(next) == ws[j]
        && |Completed(next)| == |Completed(prev)| + 1
        && MaxSums(Completed(next), acc) == Max(MaxSums(Completed(prev), acc), cw)
      else
        && CurrentWidth(next) == cw + ws[j]
        && Completed(next) == Completed(prev)
  {
    LayoutStep(ws, j, boxWidth);
    PlaceKeepsCounters(Layout(ws[..j], boxWidth), ws[j], boxWidth, acc);
  }

  /** Closing the last line adds it to the count and to the maximum. */
  lemma FinishLine(lines: seq<seq<real>>, acc: real)
    requires |lines| > 0
    ensures MaxSums(lines, acc) == Max(MaxSums(Completed(lines), acc), CurrentWidth(lines))
    ensures |lines| == |Completed(lines)| + 1
  {
  }

  // ---------------------------------------------------------------------
  // Properties of the measurement

  /** Every paragraph takes at least one line, and a non-blank one takes no
      more lines than it has space-separated words. */
  lemma ParagraphLineBounds(m: Metrics, fontSize: real, boxWidth: real, p: string)
    requires m.unitsPerEm != 0.0
    ensures ParagraphLines(m, fontSize, boxWidth, p) >= 1
    ensures !Blank(p) ==> ParagraphLines(m, fontSize, boxWidth, p) <= |Words(p)|
  {
  }

  /** A blank (empty or whitespace-only) paragraph takes exactly one line and
      adds no width. */
  lemma BlankParagraph(m: Metrics, fontSize: real, boxWidth: real, acc: real, p: string)
    requires m.unitsPerEm != 0.0
    requires JsStrings.AllWhitespace(p)
    ensures ParagraphLines(m, fontSize, boxWidth, p) == 1
    ensures ParagraphWidth(m, fontSize, boxWidth, acc, p) == acc
  {
    JsStrings.TrimEmptyIffBlank(p);
  }

  /** The text takes at least one line per paragraph. */
  lemma {:induction false} LinesAtLeastParagraphs(m: Metrics, fontSize: real, boxWidth: real, ps: seq<string>)
    requires m.unitsPerEm != 0.0
    ensures TotalLines(m, fontSize, boxWidth, ps) >= |ps|
  {
    if |ps| > 0 {
      LinesAtLeastParagraphs(m, fontSize, boxWidth, ps[..|ps| - 1]);
      ParagraphLineBounds(m, fontSize, boxWidth, ps[|ps| - 1]);
    }
  }

  /** Every line of the wrapped text, paragraph after paragraph; blank
      paragraphs contribute none. */
  function AllLines(m: Metrics, fontSize: real, boxWidth: real, ps: seq<string>): seq<seq<real>>
    requires m.unitsPerEm != 0.0
  {
    if |ps| == 0 then []
    else
      var p := ps[|ps| - 1];
      AllLines(m, fontSize, boxWidth, ps[..|ps| - 1])
        + (if Blank(p) then [] else ParagraphLayout(m, fontSize, boxWidth, p))
  }

  /** Folding the maximum over two runs of lines is folding over their
      concatenation. */
  lemma {:induction false} MaxSumsConcat(a: seq<seq<real>>, b: seq<seq<real>>, acc: real)
    ensures MaxSums(a + b, acc) == MaxSums(b, MaxSums(a, acc))
    decreases |b|
  {
    if |b| == 0 {
      assert a + b == a;
    } else {
      assert (a + b)[..|a + b| - 1] == a + b[..|b| - 1];
      MaxSumsConcat(a, b[..|b| - 1], acc);
    }
  }

  /** The reported width is the widest line of the whole text, or 0. */
  lemma {:induction false} WidthIsMaxOverLines(m: Metrics, fontSize: real, boxWidth: real, ps: seq<string>)
    requires m.unitsPerEm != 0.0
    ensures TotalWidth(m, fontSize, boxWidth, ps) == MaxSums(AllLines(m, fontSize, boxWidth, ps), 0.0)
  {
    if |ps| > 0 {
      var init := ps[..|ps| - 1];
      var p := ps[|ps| - 1];
      WidthIsMaxOverLines(m, fontSize, boxWidth, init);
      if Blank(p) {
        assert AllLines(m, fontSize, boxWidth, ps) == AllLines(m, fontSize, boxWidth, init) + [];
        assert AllLines(m, fontSize, boxWidth, init) + [] == AllLines(m, fontSize, boxWidth, init);
      } else {
        MaxSumsConcat(AllLines(m, fontSize, boxWidth, init), ParagraphLayout(m, fontSize, boxWidth, p), 0.0);
      }
    }
  }

  /** Hence the width is never negative, is at least every line's width, and
      is 0 or the width of some line. */
  lemma WidthIsWidestLine(m: Metrics, fontSize: real, boxWidth: real, ps: seq<string>)
    requires m.unitsPerEm != 0.0
    ensures var w := TotalWidth(m, fontSize, boxWidth, ps);
      var all := AllLines(m, fontSize, boxWidth, ps);
      && w >= 0.0
      && (forall j :: 0 <= j < |all| ==> w >= Sum(all[j]))
      && (w == 0.0 || exists j :: 0 <= j < |all| && w == Sum(all[j]))
  {
    WidthIsMaxOverLines(m, fontSize, boxWidth, ps);
  }

  /** With positive metrics and size, a line of a paragraph that is wider
      than the box holds exactly one word. */
  lemma OverWideLineHoldsOneWord(m: Metrics, fontSize: real, boxWidth: real, p: string, j: int)
    requires m.unitsPerEm > 0.0 && m.xWidthAvg > 0.0 && fontSize > 0.0
    requires 0 <= j < |ParagraphLayout(m, fontSize, boxWidth, p)|
    requires Sum(ParagraphLayout(m, fontSize, boxWidth, p)[j]) > boxWidth
    ensures |ParagraphLayout(m, fontSize, boxWidth, p)[j]| == 1
  {
    var ws := WordWidths(m, fontSize, Words(p));
    var lines := ParagraphLayout(m, fontSize, boxWidth, p);
    assert lines == Layout(ws, boxWidth);
    forall i | 0 <= i < |ws| ensures ws[i] > 0.0 {
      WordWidthPositive(m, fontSize, Words(p)[i]);
    }
    MultiWordLinesFit(ws, boxWidth);
    assert MultiWordFits(lines, boxWidth);
    assert |lines[j]| >= 1;
  }
}
