/** The block rule `generatedImageFence` installs in markdown-it
    (`src/parser/parser.ts`, the inner `fence` function): it recognises a
    run of marker characters, takes the rest of the opening line as the
    parameters, looks for the closing line, and pushes one token holding the
    text between.

    The rule is modelled over a snapshot of markdown-it's block state: the
    source, the per-line offset tables and the token list. It is given in
    two readings. `AsWritten` is the code: the opening marker is looked up
    at the character offset equal to the line number, the marker scan stops
    at the absolute offset 3, and the content of a closed fence stops at the
    start of the line before the closing one. `Corrected` looks the marker up
    where the line's text starts, bounds the scan relative to it, and ends
    the content at the closing line. */
module Fence {
  import opened Options
  import JsStrings

  /** A markdown-it token, with the fields this rule sets. `lineMap` is the
      token's `map`: the first line and the line the scan stopped at. */
  datatype Token = Token(
    kind: string, tag: string, nesting: int, markup: string, block: bool,
    info: string, lineMap: seq<int>, content: string, level: int)

  /** markdown-it's block state: the source text and, per line, the offsets
      of its start (`bMarks`), of its end (`eMarks`), the width of its
      indentation in characters (`tShift`) and in columns (`sCount`). */
  datatype BlockState = BlockState(
    src: string,
    bMarks: seq<int>, eMarks: seq<int>, tShift: seq<int>, sCount: seq<int>,
    blkIndent: int, line: int, parentType: string, lineMax: int, level: int,
    tokens: seq<Token>)

  /** The rule's answer and the state it leaves. */
  datatype Outcome = Outcome(matched: bool, state: BlockState)

  datatype Reading = AsWritten | Corrected

  /** The four line tables have one entry per line. */
  predicate Tables(st: BlockState) {
    |st.eMarks| == |st.bMarks| && |st.tShift| == |st.bMarks| && |st.sCount| == |st.bMarks|
  }

  /** What the rule may be called with: markdown-it calls a block rule on a
      line before the end line, and its tables hold an entry for the end
      line too. */
  predicate Callable(st: BlockState, start: int, end: int) {
    Tables(st) && 0 <= start < end < |st.bMarks|
  }

  /** `src[i]`: a character, or `undefined` outside the string. */
  function CharAt(s: string, i: int): Option<char> {
    if 0 <= i < |s| then Some(s[i]) else None
  }

  /** `marker === src[i]`: a one-character marker equal to the character. */
  predicate IsMarker(c: Option<char>, marker: string) {
    c.Some? && marker == [c.value]
  }

  /** markdown-it's `isSpace`: a space or a tab. */
  predicate IsSpaceOrTab(c: char) {
    c == ' ' || c == '\t'
  }

  /** `state.skipSpaces(pos)`: the first offset at or after `pos` that does
      not hold a space or a tab (or the end of the source). */
  function SkipSpaces(src: string, pos: int): (r: int)
    ensures r >= pos
    decreases |src| - pos
  {
    if 0 <= pos < |src| && IsSpaceOrTab(src[pos]) then SkipSpaces(src, pos + 1) else pos
  }

  /** The skip passes over spaces and tabs only, and never beyond the end of
      the source unless it did not move. */
  lemma SkipSpacesSkipsBlanks(src: string, pos: int)
    ensures var r := SkipSpaces(src, pos);
      && (forall k :: pos <= k < r ==> 0 <= k < |src| && IsSpaceOrTab(src[k]))
      && (r == pos || r <= |src|)
    decreases |src| - pos
  {
    if 0 <= pos < |src| && IsSpaceOrTab(src[pos]) {
      SkipSpacesSkipsBlanks(src, pos + 1);
    }
  }

  // ---------------------------------------------------------------------
  // The opening line

  /** Where the opening marker is looked for. */
  function OpeningOffset(st: BlockState, start: int, v: Reading): int
    requires Tables(st) && 0 <= start < |st.bMarks|
  {
    match v
    case AsWritten => start
    case Corrected => st.bMarks[start] + st.tShift[start]
  }

  /** The last offset the marker scan may reach. */
  function ScanBound(st: BlockState, start: int, v: Reading): int
    requires Tables(st) && 0 <= start < |st.bMarks|
  {
    match v
    case AsWritten => 3
    case Corrected => OpeningOffset(st, start, v) + 3
  }

  /** The marker loop: from `pos`, the first offset past `bound` or not
      holding the marker. */
  function MarkerEnd(src: string, marker: string, pos: int, bound: int): (r: int)
    ensures r >= pos
    ensures forall k :: pos <= k < r ==> IsMarker(CharAt(src, k), marker)
    ensures r > bound || !IsMarker(CharAt(src, r), marker)
    ensures r == pos || r <= bound + 1
    decreases bound - pos
  {
    if pos > bound || !IsMarker(CharAt(src, pos), marker) then pos
    else MarkerEnd(src, marker, pos + 1, bound)
  }

  /** `markup`: the marker characters from the opening offset. */
  function Markup(st: BlockState, start: int, marker: string, v: Reading): string
    requires Tables(st) && 0 <= start < |st.bMarks|
  {
    var o := OpeningOffset(st, start, v);
    JsStrings.Slice(st.src, o, MarkerEnd(st.src, marker, o + 1, ScanBound(st, start, v)))
  }

  /** `params`: the rest of the opening line, trimmed. */
  function Params(st: BlockState, start: int, marker: string, v: Reading): string
    requires Tables(st) && 0 <= start < |st.bMarks|
  {
    var o := OpeningOffset(st, start, v);
    var pos := MarkerEnd(st.src, marker, o + 1, ScanBound(st, start, v));
    JsStrings.Trim(JsStrings.Slice(st.src, pos, st.eMarks[start]))
  }

  /** The rule fires: the opening offset holds the marker. */
  predicate Opens(st: BlockState, start: int, marker: string, v: Reading)
    requires Tables(st) && 0 <= start < |st.bMarks|
  {
    IsMarker(CharAt(st.src, OpeningOffset(st, start, v)), marker)
  }

  // ---------------------------------------------------------------------
  // The search for the closing line

  /** Line `n` has text and is indented less than the enclosing block: the
      fence ends there, unclosed. */
  predicate Outdented(st: BlockState, n: int)
    requires Tables(st) && 0 <= n < |st.bMarks|
  {
    st.bMarks[n] + st.tShift[n] < st.eMarks[n] && st.sCount[n] < st.blkIndent
  }

  /** The text of line `n` after its indentation. */
  function LineText(st: BlockState, n: int): string
    requires Tables(st) && 0 <= n < |st.bMarks|
  {
    JsStrings.Slice(st.src, st.bMarks[n] + st.tShift[n], st.eMarks[n])
  }

  /** The closing test of the search loop, as the code performs it: the
      trimmed line starts with the markup, and neither the text after the
      markup nor the offsets after it (spaces and tabs skipped) hold
      anything before the line end. */
  predicate Closes(st: BlockState, markup: string, n: int)
    requires Tables(st) && 0 <= n < |st.bMarks|
  {
    var mem := LineText(st, n);
    ClosingTest(JsStrings.Trim(mem), JsStrings.Trim(JsStrings.Slice(mem, |markup|, |mem|)),
                st.src, st.bMarks[n] + st.tShift[n] + |markup|, st.eMarks[n], markup)
  }

  /** The closing test on a line whose trimmed text is `t`, whose trimmed
      text after the markup is `rest`, whose markup would end at `p` and
      which ends at `max`. */
  predicate ClosingTest(t: string, rest: string, src: string, p: int, max: int, markup: string) {
    JsStrings.Slice(t, 0, |markup|) == markup && TailClear(src, p, max, rest)
  }

  /** The two tail checks after the markup ends at `p`: the one that also
      asks whether the trimmed remainder is blank, then the plain space
      skip. */
  predicate TailClear(src: string, p: int, max: int, rest: string) {
    var firstCheck := p <= max && SkipSpaces(src, p) < max && rest != "";
    !firstCheck && SkipSpaces(src, if p <= max then SkipSpaces(src, p) else p) >= max
  }

  /** The search loop from line `n`: the line it stops at, and whether that
      line closes the fence. It stops at the first closing line, at the
      first outdented line, or at `end`; the outdent test comes first, so
      an outdented line never closes the fence, even when it holds the
      markup. */
  function FindClose(st: BlockState, markup: string, n: int, end: int): (r: (int, bool))
    requires Tables(st) && 0 <= n <= end < |st.bMarks|
    ensures n <= r.0 <= end
    ensures r.1 ==> r.0 < end && !Outdented(st, r.0) && Closes(st, markup, r.0)
    ensures !r.1 ==> r.0 >= end || Outdented(st, r.0)
    ensures forall l :: n <= l < r.0 ==> !Outdented(st, l) && !Closes(st, markup, l)
    decreases end - n
  {
    if n >= end then (n, false)
    else if Outdented(st, n) then (n, false)
    else if Closes(st, markup, n) then (n, true)
    else FindClose(st, markup, n + 1, end)
  }

  /** Where the content of the token ends. */
  function ContentEnd(st: BlockState, nextLine: int, closed: bool, v: Reading): int
    requires Tables(st) && 1 <= nextLine < |st.bMarks|
  {
    match v
    case AsWritten => st.bMarks[nextLine - (if closed then 1 else 0)]
    case Corrected => st.bMarks[nextLine]
  }

  // ---------------------------------------------------------------------
  // The rule

  /** The token the rule pushes for a fence from `start` whose search
      stopped at `nextLine`. */
  function FenceToken(st: BlockState, start: int, marker: string, name: string, nextLine: int, closed: bool, v: Reading): Token
    requires Tables(st) && 0 <= start < nextLine < |st.bMarks|
  {
    Token(name, "div", 0, Markup(st, start, marker, v), true, Params(st, start, marker, v),
          [start, nextLine], JsStrings.Slice(st.src, st.bMarks[start + 1], ContentEnd(st, nextLine, closed, v)),
          st.level)
  }

  /** `fence(state, start, end, silent)`. It answers whether line `start`
      opens a fence. When it does not, or in silent mode, the state is left
      as it was. Otherwise exactly one token is pushed, the line moves past
      the fence (and past `start`, so the parser progresses), and nothing
      else changes: `parentType` and `lineMax` are set around the push and
      put back. */
  function Rule(st: BlockState, start: int, end: int, silent: bool, marker: string, name: string, v: Reading): (r: Outcome)
    requires Callable(st, start, end)
    ensures r.matched <==> Opens(st, start, marker, v)
    ensures !r.matched || silent ==> r.state == st
    ensures r.matched && !silent ==>
      && |r.state.tokens| == |st.tokens| + 1
      && r.state == st.(tokens := st.tokens + [r.state.tokens[|st.tokens|]], line := r.state.line)
      && start < r.state.line <= end
  {
    if !Opens(st, start, marker, v) then Outcome(false, st)
    else if silent then Outcome(true, st)
    else
      var found := FindClose(st, Markup(st, start, marker, v), start + 1, end);
      var nextLine := found.0;
      var closed := found.1;
      var token := FenceToken(st, start, marker, name, nextLine, closed, v);
      Outcome(true, st.(tokens := st.tokens + [token], line := nextLine + (if closed then 1 else 0)))
  }

  /** The rule as written: it fires exactly when `src[start]` is the
      marker, reading the line index `start` as an offset into `src`. */
  function FenceRule(st: BlockState, start: int, end: int, silent: bool, marker: string, name: string): (r: Outcome)
    requires Callable(st, start, end)
    ensures r.matched <==> IsMarker(CharAt(st.src, start), marker)
  {
    Rule(st, start, end, silent, marker, name, AsWritten)
  }

  // ---------------------------------------------------------------------
  // Properties of both readings

  /** The markup is a non-empty run of the marker from the opening offset,
      as long as the scan bound and the run allow: the character after it is
      not the marker, or the bound was passed. As written, the run reaches
      at most offset 3 however late in the source the line starts. */
  lemma MarkupIsMarkerRun(st: BlockState, start: int, marker: string, v: Reading)
    requires Tables(st) && 0 <= start < |st.bMarks|
    requires Opens(st, start, marker, v)
    ensures var o := OpeningOffset(st, start, v);
      var markup := Markup(st, start, marker, v);
      && |markup| >= 1 && o + |markup| <= |st.src|
      && markup == st.src[o..o + |markup|]
      && (forall i :: 0 <= i < |markup| ==> [markup[i]] == marker)
      && (o + |markup| > ScanBound(st, start, v) || !IsMarker(CharAt(st.src, o + |markup|), marker))
      && (|markup| == 1 || o + |markup| <= ScanBound(st, start, v) + 1)
      && (v == AsWritten ==> |markup| == 1 || start + |markup| <= 4)
  {
    var o := OpeningOffset(st, start, v);
    var pos := MarkerEnd(st.src, marker, o + 1, ScanBound(st, start, v));
    assert pos <= |st.src| by {
      if pos > o + 1 {
        assert IsMarker(CharAt(st.src, pos - 1), marker);
      }
    }
    var markup := Markup(st, start, marker, v);
    assert markup == st.src[o..pos];
    forall i | 0 <= i < |markup| ensures [markup[i]] == marker {
      if i > 0 {
        assert IsMarker(CharAt(st.src, o + i), marker);
      }
    }
  }

  /** The closing test simplifies: a line closes the fence exactly when its
      trimmed text starts with the markup and only spaces and tabs follow
      the markup up to the line end. The test on the trimmed remainder
      never decides anything the later space skip would not. */
  lemma ClosingTestIff(t: string, rest: string, src: string, p: int, max: int, markup: string)
    ensures ClosingTest(t, rest, src, p, max, markup)
      <==> JsStrings.StartsWith(t, markup) && SkipSpaces(src, p) >= max
  {
    SlicePrefixIff(t, markup);
    TailIff(src, p, max, rest);
  }

  /** `t.slice(0, m.length) === m` is `t.startsWith(m)`. */
  lemma SlicePrefixIff(t: string, m: string)
    ensures JsStrings.Slice(t, 0, |m|) == m <==> JsStrings.StartsWith(t, m)
  {
    if |m| > |t| {
      assert |JsStrings.Slice(t, 0, |m|)| <= |t|;
    }
  }

  /** The tail checks of the closing test reduce to the space skip reaching
      the line end, whatever the trimmed-remainder check says. */
  lemma TailIff(src: string, p: int, max: int, rest: string)
    ensures TailClear(src, p, max, rest) <==> SkipSpaces(src, p) >= max
  {
    SkipSpacesIdempotent(src, p);
  }

  lemma {:induction false} SkipSpacesIdempotent(src: string, pos: int)
    ensures SkipSpaces(src, SkipSpaces(src, pos)) == SkipSpaces(src, pos)
    decreases |src| - pos
  {
    if 0 <= pos < |src| && IsSpaceOrTab(src[pos]) {
      SkipSpacesIdempotent(src, pos + 1);
    }
  }

  /** Skipping spaces from `p` reaches a line end `max` within the source
      exactly when every character from `p` up to `max` is a space or a
      tab. */
  lemma SkipSpacesReaches(src: string, p: int, max: int)
    requires 0 <= p && max <= |src|
    ensures SkipSpaces(src, p) >= max <==> forall k :: p <= k < max ==> IsSpaceOrTab(src[k])
  {
    var r := SkipSpaces(src, p);
    SkipSpacesSkipsBlanks(src, p);
    if r < max && forall k :: p <= k < max ==> IsSpaceOrTab(src[k]) {
      assert r < |src| && IsSpaceOrTab(src[r]);
      assert SkipSpaces(src, r) == SkipSpaces(src, r + 1);
      SkipSpacesFixed(src, p);
    }
  }

  /** Where the skip stops, it stops for good. */
  lemma SkipSpacesFixed(src: string, p: int)
    ensures var r := SkipSpaces(src, p); !(0 <= r < |src| && IsSpaceOrTab(src[r]))
    decreases |src| - p
  {
    if 0 <= p < |src| && IsSpaceOrTab(src[p]) {
      SkipSpacesFixed(src, p + 1);
    }
  }

  /** The search stops at the first line that closes the fence: every line
      between the opening and the stop is neither closing nor outdented,
      a closing line is not outdented, and an unclosed fence runs to `end`
      or to an outdented line. */
  lemma ClosingLineIsFirst(st: BlockState, start: int, end: int, marker: string, name: string, v: Reading)
    requires Callable(st, start, end) && Opens(st, start, marker, v)
    ensures var markup := Markup(st, start, marker, v);
      var r := Rule(st, start, end, false, marker, name, v);
      var stop := r.state.tokens[|st.tokens|].lineMap[1];
      && start < stop <= end
      && (forall l :: start < l < stop ==> !Closes(st, markup, l) && !Outdented(st, l))
      && (r.state.line == stop + 1 ==> Closes(st, markup, stop) && !Outdented(st, stop))
      && (r.state.line == stop ==> stop == end || Outdented(st, stop))
  {
  }

  /** The pushed token: a `div` of the rule's name at the state's level,
      carrying the markup, the trimmed parameters and the lines it spans. */
  lemma TokenRecordsFence(st: BlockState, start: int, end: int, marker: string, name: string, v: Reading)
    requires Callable(st, start, end) && Opens(st, start, marker, v)
    ensures var tok := Rule(st, start, end, false, marker, name, v).state.tokens[|st.tokens|];
      && tok.kind == name && tok.tag == "div" && tok.nesting == 0 && tok.block
      && tok.level == st.level
      && tok.markup == Markup(st, start, marker, v)
      && tok.info == Params(st, start, marker, v)
      && |tok.lineMap| == 2 && tok.lineMap[0] == start
  {
  }

  // ---------------------------------------------------------------------
  // Line tables of a well-formed state

  /** Line `l` lies within the source, its text start within it. */
  predicate LineInSource(st: BlockState, l: int)
    requires Tables(st) && 0 <= l < |st.bMarks|
  {
    0 <= st.bMarks[l] <= st.bMarks[l] + st.tShift[l] <= st.eMarks[l] <= |st.src|
    && (st.eMarks[l] == |st.src| || st.src[st.eMarks[l]] == '\n')
  }

  /** Line `l` ends before line `l + 1` starts. */
  predicate LineBeforeNext(st: BlockState, l: int)
    requires Tables(st) && 0 <= l < |st.bMarks| - 1
  {
    st.eMarks[l] <= st.bMarks[l + 1]
  }

  predicate WellFormed(st: BlockState) {
    && Tables(st)
    && (forall l :: 0 <= l < |st.bMarks| ==> LineInSource(st, l))
    && (forall l :: 0 <= l < |st.bMarks| - 1 ==> LineBeforeNext(st, l))
  }

  /** Line starts are ordered like the lines. */
  lemma {:induction false} StartsOrdered(st: BlockState, a: int, b: int)
    requires WellFormed(st) && 0 <= a <= b < |st.bMarks|
    ensures st.bMarks[a] <= st.bMarks[b]
    decreases b - a
  {
    if a < b {
      assert LineInSource(st, a) && LineBeforeNext(st, a);
      StartsOrdered(st, a + 1, b);
    }
  }

  /** The whole text of line `l`, indentation included. */
  function LineRaw(st: BlockState, l: int): string
    requires Tables(st) && 0 <= l < |st.bMarks|
  {
    JsStrings.Slice(st.src, st.bMarks[l], st.eMarks[l])
  }

  // ---------------------------------------------------------------------
  // Opening offset: as written against corrected

  /** Corrected, the rule fires exactly when the text of line `start` (after
      its indentation) begins with the marker. */
  lemma OpensAtLineStart(st: BlockState, start: int, end: int, marker: string, name: string, silent: bool)
    requires Callable(st, start, end) && WellFormed(st)
    requires marker != "\n"
    ensures Rule(st, start, end, silent, marker, name, Corrected).matched
      <==> |marker| == 1 && JsStrings.StartsWith(LineText(st, start), marker)
  {
    OpensIffLineStarts(st, start, marker);
  }

  lemma OpensIffLineStarts(st: BlockState, start: int, marker: string)
    requires Tables(st) && 0 <= start < |st.bMarks| && LineInSource(st, start)
    requires marker != "\n"
    ensures Opens(st, start, marker, Corrected)
      <==> |marker| == 1 && JsStrings.StartsWith(LineText(st, start), marker)
  {
    var o := st.bMarks[start] + st.tShift[start];
    var e := st.eMarks[start];
    var t := LineText(st, start);
    assert t == st.src[o..e];
    if |marker| == 1 && o < e {
      assert t[..1] == [st.src[o]];
    }
  }

  /** A small source whose second line does not start with the marker. */
  const WrongLineExample := BlockState("a$\nb\n", [0, 3, 5], [2, 4, 5], [0, 0, 0], [0, 0, 0], 0, 1, "root", 2, 0, [])

  /** As written, the rule reads the character at the offset equal to the
      line number: in "a$\nb\n" it reports a fence on line 1, whose text is
      "b", because the character at offset 1 is "$". */
  lemma AsWrittenOpensOnWrongLine()
    ensures WellFormed(WrongLineExample)
    ensures !JsStrings.StartsWith(LineText(WrongLineExample, 1), "$")
    ensures FenceRule(WrongLineExample, 1, 2, true, "$", "generated_image").matched
  {
    var st := WrongLineExample;
    assert LineInSource(st, 0) && LineInSource(st, 1) && LineInSource(st, 2);
    assert LineBeforeNext(st, 0) && LineBeforeNext(st, 1);
    assert LineText(st, 1) == st.src[3..4];
    assert st.src[3] == 'b';
    assert CharAt(st.src, 1) == Some('$');
  }

  // ---------------------------------------------------------------------
  // Content: as written against corrected

  /** The pushed token spans lines `start` to the stop line, and its content
      runs from the first body line to the content end of the reading. */
  lemma ContentSpan(st: BlockState, start: int, end: int, marker: string, name: string, v: Reading)
    requires Callable(st, start, end) && Opens(st, start, marker, v)
    ensures var r := Rule(st, start, end, false, marker, name, v);
      var tok := r.state.tokens[|st.tokens|];
      var stop := tok.lineMap[1];
      && |tok.lineMap| == 2 && start < stop <= end
      && (r.state.line == stop || r.state.line == stop + 1)
      && tok.content == JsStrings.Slice(st.src, st.bMarks[start + 1], ContentEnd(st, stop, r.state.line == stop + 1, v))
  {
  }

  /** Corrected, the content of the token holds every line strictly between
      the opening line and the line the search stopped at, each at its own
      distance from the first of them. */
  lemma ContentHoldsBody(st: BlockState, start: int, end: int, marker: string, name: string)
    requires Callable(st, start, end) && WellFormed(st)
    requires Opens(st, start, marker, Corrected)
    ensures var tok := Rule(st, start, end, false, marker, name, Corrected).state.tokens[|st.tokens|];
      forall l :: start < l < tok.lineMap[1] ==>
        JsStrings.OccursAt(tok.content, LineRaw(st, l), st.bMarks[l] - st.bMarks[start + 1])
  {
    var r := Rule(st, start, end, false, marker, name, Corrected);
    var tok := r.state.tokens[|st.tokens|];
    ContentSpan(st, start, end, marker, name, Corrected);
    var stop := tok.lineMap[1];
    assert ContentEnd(st, stop, r.state.line == stop + 1, Corrected) == st.bMarks[stop];
    var c := tok.content;
    assert c == JsStrings.Slice(st.src, st.bMarks[start + 1], st.bMarks[stop]);
    BodyInSpan(st, start + 1, stop, c);
    forall l | start < l < stop
      ensures JsStrings.OccursAt(c, LineRaw(st, l), st.bMarks[l] - st.bMarks[start + 1])
    {
      assert start + 1 <= l < stop;
    }
  }

  /** The source from the start of line `first` to the start of line `stop`
      holds each line in between at its distance from `first`. */
  lemma BodyInSpan(st: BlockState, first: int, stop: int, content: string)
    requires WellFormed(st) && 0 <= first <= stop < |st.bMarks|
    requires content == JsStrings.Slice(st.src, st.bMarks[first], st.bMarks[stop])
    ensures forall l :: first <= l < stop ==>
      JsStrings.OccursAt(content, LineRaw(st, l), st.bMarks[l] - st.bMarks[first])
  {
    forall l | first <= l < stop
      ensures JsStrings.OccursAt(content, LineRaw(st, l), st.bMarks[l] - st.bMarks[first])
    {
      LineInBody(st, first, stop, content, l);
    }
  }

  lemma LineInBody(st: BlockState, first: int, stop: int, content: string, l: int)
    requires WellFormed(st) && 0 <= first <= l < stop < |st.bMarks|
    requires content == JsStrings.Slice(st.src, st.bMarks[first], st.bMarks[stop])
    ensures JsStrings.OccursAt(content, LineRaw(st, l), st.bMarks[l] - st.bMarks[first])
  {
    var a := st.bMarks[first];
    var b := st.bMarks[stop];
    StartsOrdered(st, first, l);
    StartsOrdered(st, l + 1, stop);
    assert LineInSource(st, first) && LineInSource(st, l) && LineBeforeNext(st, l) && LineInSource(st, stop);
    assert content == st.src[a..b];
    assert LineRaw(st, l) == st.src[st.bMarks[l]..st.eMarks[l]];
    InnerSlice(st.src, a, st.bMarks[l], st.eMarks[l], b);
  }

  /** A stretch of the source inside `src[a..b]` occurs in it at its
      distance from `a`. */
  lemma InnerSlice(src: string, a: int, x: int, y: int, b: int)
    requires 0 <= a <= x <= y <= b <= |src|
    ensures JsStrings.OccursAt(src[a..b], src[x..y], x - a)
  {
    forall k | 0 <= k < y - x ensures src[a..b][x - a..y - a][k] == src[x..y][k] {
      assert src[a..b][x - a..y - a][k] == src[a..b][x - a + k];
    }
    assert src[a..b][x - a..y - a] == src[x..y];
  }

  /** A closed fence with one body line. */
  const DroppedLineExample := BlockState("$$\nx\n$$\n", [0, 3, 5, 8], [2, 4, 7, 8], [0, 0, 0, 0], [0, 0, 0, 0], 0, 0, "root", 3, 0, [])

  /** As written, a closed fence loses the line before its closing line: for
      "$$\nx\n$$\n" the body line "x" is not in the content, which is
      empty. */
  lemma AsWrittenDropsLastBodyLine()
    ensures WellFormed(DroppedLineExample)
    ensures LineRaw(DroppedLineExample, 1) == "x"
    ensures var tok := FenceRule(DroppedLineExample, 0, 3, false, "$", "generated_image").state.tokens[0];
      tok.lineMap == [0, 2] && tok.content == ""
  {
    ExampleShape();
    var markup := ExampleMarkup();
    ExampleSearch(markup);
    var r := FenceRule(DroppedLineExample, 0, 3, false, "$", "generated_image");
    ContentSpan(DroppedLineExample, 0, 3, "$", "generated_image", AsWritten);
    ClosingLineIsFirst(DroppedLineExample, 0, 3, "$", "generated_image", AsWritten);
  }

  lemma ExampleShape()
    ensures WellFormed(DroppedLineExample)
    ensures LineRaw(DroppedLineExample, 1) == "x"
  {
    var st := DroppedLineExample;
    assert LineInSource(st, 0) && LineInSource(st, 1) && LineInSource(st, 2) && LineInSource(st, 3);
    assert LineBeforeNext(st, 0) && LineBeforeNext(st, 1) && LineBeforeNext(st, 2);
    assert LineRaw(st, 1) == st.src[3..4];
  }

  /** The search from line 1 passes the body line and stops, closed, at
      line 2. */
  lemma ExampleSearch(markup: string)
    requires markup == "$$"
    ensures FindClose(DroppedLineExample, markup, 1, 3) == (2, true)
  {
    ExampleLines(markup);
  }

  lemma ExampleMarkup() returns (markup: string)
    ensures markup == Markup(DroppedLineExample, 0, "$", AsWritten) == "$$"
    ensures Opens(DroppedLineExample, 0, "$", AsWritten)
  {
    var st := DroppedLineExample;
    assert CharAt(st.src, 0) == Some('$');
    assert CharAt(st.src, 1) == Some('$');
    assert CharAt(st.src, 2) == Some('\n');
    assert MarkerEnd(st.src, "$", 2, 3) == 2;
    assert MarkerEnd(st.src, "$", 1, 3) == 2;
    markup := Markup(st, 0, "$", AsWritten);
    assert markup == st.src[0..2];
  }

  lemma ExampleLines(markup: string)
    requires markup == "$$"
    ensures !Outdented(DroppedLineExample, 1) && !Closes(DroppedLineExample, markup, 1)
    ensures !Outdented(DroppedLineExample, 2) && Closes(DroppedLineExample, markup, 2)
  {
    var st := DroppedLineExample;
    var x := LineText(st, 1);
    assert x == st.src[3..4] == "x";
    TrimSingle('x');
    ClosingTestIff(JsStrings.Trim(x), JsStrings.Trim(JsStrings.Slice(x, 2, 1)), st.src, 5, 4, markup);
    var d := LineText(st, 2);
    assert d == st.src[5..7] == "$$";
    TrimDollars();
    ClosingTestIff(JsStrings.Trim(d), JsStrings.Trim(JsStrings.Slice(d, 2, 2)), st.src, 7, 7, markup);
    assert st.src[7] == '\n';
    assert SkipSpaces(st.src, 7) == 7;
  }

  /** "$$\n$$\n" inside a block indented by 2: the second "$$" line sits
      at column 0, so it is outdented. */
  const OutdentedCloseExample := BlockState("$$\n$$\n", [0, 3, 6], [2, 5, 6], [0, 0, 0], [0, 0, 0], 2, 0, "root", 2, 0, [])

  /** The outdent test comes before the closing test: a line that holds the
      closing markup but is outdented ends the search unclosed. */
  lemma OutdentedMarkupLineStaysOpen()
    ensures Outdented(OutdentedCloseExample, 1) && Closes(OutdentedCloseExample, "$$", 1)
    ensures FindClose(OutdentedCloseExample, "$$", 1, 2) == (1, false)
  {
    var st := OutdentedCloseExample;
    var d := LineText(st, 1);
    assert d == st.src[3..5] == "$$";
    TrimDollars();
    ClosingTestIff(JsStrings.Trim(d), JsStrings.Trim(JsStrings.Slice(d, 2, 2)), st.src, 5, 5, "$$");
    assert st.src[5] == '\n';
    assert SkipSpaces(st.src, 5) == 5;
  }

  lemma TrimSingle(c: char)
    requires !JsStrings.IsWhitespace(c)
    ensures JsStrings.Trim([c]) == [c]
  {
    JsStrings.TrimIsInfix([c]);
    var k :| JsStrings.TrimmedAt([c], JsStrings.Trim([c]), k);
  }

  lemma TrimDollars()
    ensures JsStrings.Trim("$$") == "$$"
  {
    JsStrings.TrimIsInfix("$$");
    var k :| JsStrings.TrimmedAt("$$", JsStrings.Trim("$$"), k);
    assert !JsStrings.IsWhitespace('$');
  }
}
