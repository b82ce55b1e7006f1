/** The syntax-highlight adapter of `src/parser/syntax_highlight.ts`: a
    depth-first walk over the highlighter's HAST output that tells the
    rendering context to append text and to open and close styles.

    The highlighter itself and the context are not modelled: the walk
    receives the highlighter's top-level nodes, and it returns the calls it
    makes on the context as a sequence of events. The CSS-to-style merge
    (`updateStyleDefinition`) is a function the context carries. */
module SyntaxHighlight {
  import opened Options
  import opened Slides
  import JsStrings

  /** A CSS rule of the highlighting theme; its content only matters to the
      style merge, which is not modelled. */
  datatype CssRule = CssRule(declarations: map<string, string>)

  /** A HAST node: a text node, an element with its `className` property
      (which may be absent) and its children, or any other kind of node. An
      element without children has the empty list, which is how the walk's
      `children || []` reads a missing one. */
  datatype Node =
    | Text(value: string)
    | Element(tagName: string, className: Option<seq<string>>, children: seq<Node>)
    | Other(kind: string)

  /** What the walk reads from the rendering context: the theme's rules, if
      any, and the merge of a rule into a style. */
  datatype Context = Context(
    css: Option<map<string, CssRule>>,
    update: (CssRule, StyleDefinition) -> StyleDefinition)

  /** A call the walk makes on the context. */
  datatype Event = Append(text: string) | StartStyle(style: StyleDefinition) | EndStyle

  /** The line feed and the vertical tab a code block's line feeds become,
      so that the block stays a single paragraph. */
  const LineFeed: char := '\n'
  const VerticalTab: char := '\U{b}'

  // ---------------------------------------------------------------------
  // Bracketing and appended text of an event stream

  /** Opened minus closed styles. */
  function Net(es: seq<Event>): int {
    if |es| == 0 then 0
    else (match es[0] case StartStyle(_) => 1 case EndStyle => -1 case Append(_) => 0) + Net(es[1..])
  }

  /** Every end closes an earlier start, and every start is closed. */
  predicate Balanced(es: seq<Event>) {
    Net(es) == 0 && forall k :: 0 <= k <= |es| ==> Net(es[..k]) >= 0
  }

  /** The text the events append, in order. */
  function AppendedText(es: seq<Event>): string {
    if |es| == 0 then ""
    else (if es[0].Append? then es[0].text else "") + AppendedText(es[1..])
  }

  /** No appended text holds a line feed. */
  predicate NoLineFeed(es: seq<Event>) {
    forall i :: 0 <= i < |es| && es[i].Append? ==> LineFeed !in es[i].text
  }

  lemma {:induction false} NetConcat(a: seq<Event>, b: seq<Event>)
    ensures Net(a + b) == Net(a) + Net(b)
  {
    if |a| > 0 {
      assert (a + b)[1..] == a[1..] + b;
      NetConcat(a[1..], b);
    } else {
      assert a + b == b;
    }
  }

  lemma {:induction false} AppendedTextConcat(a: seq<Event>, b: seq<Event>)
    ensures AppendedText(a + b) == AppendedText(a) + AppendedText(b)
  {
    if |a| > 0 {
      assert (a + b)[1..] == a[1..] + b;
      AppendedTextConcat(a[1..], b);
    } else {
      assert a + b == b;
    }
  }

  /** Two balanced streams in a row are balanced. */
  lemma BalancedConcat(a: seq<Event>, b: seq<Event>)
    requires Balanced(a) && Balanced(b)
    ensures Balanced(a + b)
  {
    NetConcat(a, b);
    forall k | 0 <= k <= |a + b| ensures Net((a + b)[..k]) >= 0 {
      if k <= |a| {
        assert (a + b)[..k] == a[..k];
      } else {
        assert (a + b)[..k] == a + b[..k - |a|];
        NetConcat(a, b[..k - |a|]);
      }
    }
  }

  /** A start, a balanced stream and an end form a balanced stream whose
      opening start is matched by its final end and by nothing before it. */
  lemma Bracket(s: StyleDefinition, inner: seq<Event>)
    requires Balanced(inner)
    ensures var es := [StartStyle(s)] + inner + [EndStyle];
      Balanced(es) && forall k :: 1 <= k < |es| ==> Net(es[..k]) >= 1
  {
    var es := [StartStyle(s)] + inner + [EndStyle];
    NetConcat([StartStyle(s)] + inner, [EndStyle]);
    NetConcat([StartStyle(s)], inner);
    forall k | 0 <= k <= |es| ensures Net(es[..k]) >= (if 1 <= k < |es| then 1 else 0) {
      if k == 0 {
      } else if k < |es| {
        assert es[..k] == [StartStyle(s)] + inner[..k - 1];
        NetConcat([StartStyle(s)], inner[..k - 1]);
      } else {
        assert es[..k] == es;
      }
    }
  }

  // ---------------------------------------------------------------------
  // The walk

  /** The text a walk reaches: text nodes, and the children of `span`
      elements, depth first. */
  function VisibleText(node: Node): string
    decreases node, 1
  {
    match node
    case Text(v) => v
    case Element(tag, _, kids) =>
      if tag != "span" then ""
      else VisibleTexts(kids)
    case Other(_) => ""
  }

  function VisibleTexts(nodes: seq<Node>): string
    decreases nodes, 0
  {
    if |nodes| == 0 then "" else VisibleText(nodes[0]) + VisibleTexts(nodes[1..])
  }

  /** `extractStyle`: the merge, in class order from the empty style, of the
      rule of every class whose name (with `-` read as `_`) has one. A node
      that is not an element, or has no class list, gets the empty style;
      so does one none of whose classes has a rule. */
  function ExtractStyle(node: Node, rules: map<string, CssRule>, update: (CssRule, StyleDefinition) -> StyleDefinition): (r: StyleDefinition)
    ensures !node.Element? ==> r == EmptyStyle
    ensures node.Element? ==> r == MergeAll(MatchedRules(node.className.OrElse([]), rules), update, EmptyStyle)
    ensures node.Element? && MatchedRules(node.className.OrElse([]), rules) == [] ==> r == EmptyStyle
  {
    if !node.Element? then EmptyStyle
    else
      MergeClassesIsMergeOfMatched(node.className.OrElse([]), rules, update, EmptyStyle);
      MergeClasses(node.className.OrElse([]), rules, update, EmptyStyle)
  }

  /** The class loop of `extractStyle`. */
  function MergeClasses(classes: seq<string>, rules: map<string, CssRule>, update: (CssRule, StyleDefinition) -> StyleDefinition, style: StyleDefinition): StyleDefinition {
    if |classes| == 0 then style
    else
      var name := NormalizeClass(classes[0]);
      MergeClasses(classes[1..], rules, update, if name in rules then update(rules[name], style) else style)
  }

  /** `cls.replace(/-/g, '_')`. */
  function NormalizeClass(cls: string): string {
    JsStrings.ReplaceChar(cls, '-', '_')
  }

  /** `processHastNode` and the `span` rule: a text node appends its value
      with line feeds turned into vertical tabs; a `span` opens its style,
      walks its children and closes the style; every other element and
      every other node emits nothing. The events are balanced, carry no line
      feed, and append exactly the visible text with line feeds replaced. */
  function ProcessNode(node: Node, ctx: Context): (es: seq<Event>)
    ensures Balanced(es)
    ensures NoLineFeed(es)
    ensures AppendedText(es) == JsStrings.ReplaceChar(VisibleText(node), LineFeed, VerticalTab)
    ensures node.Other? || (node.Element? && node.tagName != "span") ==> es == []
    decreases node, 1
  {
    match node
    case Text(v) =>
      var t := JsStrings.ReplaceChar(v, LineFeed, VerticalTab);
      assert AppendedText([Append(t)]) == t + AppendedText([]);
      assert Net([Append(t)][..1]) == 0;
      [Append(t)]
    case Element(tag, _, kids) =>
      if tag != "span" then
        assert Net([][..0]) == 0;
        []
      else
        var style := ExtractStyle(node, ctx.css.OrElse(map[]), ctx.update);
        var inner := ProcessNodes(kids, ctx);
        SpanEvents(style, inner);
        [StartStyle(style)] + inner + [EndStyle]
    case Other(_) =>
      assert Net([][..0]) == 0;
      []
  }

  /** The facts about a span's events that follow from those about its
      children's. */
  lemma SpanEvents(style: StyleDefinition, inner: seq<Event>)
    requires Balanced(inner) && NoLineFeed(inner)
    ensures var es := [StartStyle(style)] + inner + [EndStyle];
      Balanced(es) && NoLineFeed(es) && AppendedText(es) == AppendedText(inner)
  {
    Bracket(style, inner);
    var es := [StartStyle(style)] + inner + [EndStyle];
    AppendedTextConcat([StartStyle(style)] + inner, [EndStyle]);
    AppendedTextConcat([StartStyle(style)], inner);
    assert AppendedText([EndStyle]) == "";
    assert AppendedText([StartStyle(style)]) == "";
    forall i | 0 <= i < |es| && es[i].Append? ensures LineFeed !in es[i].text {
      assert es[i] == inner[i - 1];
    }
  }

  /** The walk over a list of sibling nodes, in order. */
  function ProcessNodes(nodes: seq<Node>, ctx: Context): (es: seq<Event>)
    ensures Balanced(es)
    ensures NoLineFeed(es)
    ensures AppendedText(es) == JsStrings.ReplaceChar(VisibleTexts(nodes), LineFeed, VerticalTab)
    decreases nodes, 0
  {
    if |nodes| == 0 then
      assert Net([][..0]) == 0;
      []
    else
      var head := ProcessNode(nodes[0], ctx);
      var tail := ProcessNodes(nodes[1..], ctx);
      BalancedConcat(head, tail);
      AppendedTextConcat(head, tail);
      JsStrings.ReplaceCharConcat(VisibleText(nodes[0]), VisibleTexts(nodes[1..]), LineFeed, VerticalTab);
      assert forall i :: 0 <= i < |head + tail| && i >= |head| ==> (head + tail)[i] == tail[i - |head|];
      head + tail
  }

  /** `highlightSyntax`: the highlighter's top-level nodes walked in order.
      The text it appends is the nodes' visible text, in order, with every
      line feed turned into a vertical tab; styles open and close in
      nested pairs. */
  function HighlightSyntax(nodes: seq<Node>, ctx: Context): (es: seq<Event>)
    ensures Balanced(es)
    ensures AppendedText(es) == JsStrings.ReplaceChar(VisibleTexts(nodes), LineFeed, VerticalTab)
    ensures LineFeed !in AppendedText(es)
  {
    var es := ProcessNodes(nodes, ctx);
    NoLineFeedInText(es);
    es
  }

  /** No event appends a line feed, so the appended text has none. */
  lemma {:induction false} NoLineFeedInText(es: seq<Event>)
    requires NoLineFeed(es)
    ensures LineFeed !in AppendedText(es)
  {
    if |es| > 0 {
      assert NoLineFeed(es[1..]) by {
        forall i | 0 <= i < |es[1..]| && es[1..][i].Append? ensures LineFeed !in es[1..][i].text {
          assert es[1..][i] == es[i + 1];
        }
      }
      NoLineFeedInText(es[1..]);
    }
  }

  // ---------------------------------------------------------------------
  // Properties of the walk

  /** A text node appends its value with each line feed turned into a
      vertical tab and every other character kept. */
  lemma TextNodeAppend(v: string, ctx: Context)
    ensures var es := ProcessNode(Text(v), ctx);
      |es| == 1 && es[0].Append? && |es[0].text| == |v|
      && forall i :: 0 <= i < |v| ==> es[0].text[i] == (if v[i] == LineFeed then VerticalTab else v[i])
  {
  }

  /** A `span` emits one start with its extracted style first, one end last,
      and between them exactly its children's events; nothing between closes
      the span's style. */
  lemma SpanIsBracketed(node: Node, ctx: Context)
    requires node.Element? && node.tagName == "span"
    ensures var es := ProcessNode(node, ctx);
      var kids := node.children;
      && |es| >= 2
      && es[0] == StartStyle(ExtractStyle(node, ctx.css.OrElse(map[]), ctx.update))
      && es[|es| - 1] == EndStyle
      && es[1..|es| - 1] == ProcessNodes(kids, ctx)
      && forall k :: 1 <= k < |es| ==> Net(es[..k]) >= 1
  {
    var style := ExtractStyle(node, ctx.css.OrElse(map[]), ctx.update);
    var inner := ProcessNodes(node.children, ctx);
    assert ProcessNode(node, ctx) == [StartStyle(style)] + inner + [EndStyle];
    Bracket(style, inner);
  }

  /** The rules a class list picks up, in class order. */
  function MatchedRules(classes: seq<string>, rules: map<string, CssRule>): (rs: seq<CssRule>)
    ensures |rs| <= |classes|
    ensures forall r :: r in rs ==> r in rules.Values
  {
    if |classes| == 0 then []
    else
      var name := NormalizeClass(classes[0]);
      (if name in rules then [rules[name]] else []) + MatchedRules(classes[1..], rules)
  }

  /** Merging a list of rules into a style, in order. */
  function MergeAll(rs: seq<CssRule>, update: (CssRule, StyleDefinition) -> StyleDefinition, style: StyleDefinition): StyleDefinition {
    if |rs| == 0 then style else MergeAll(rs[1..], update, update(rs[0], style))
  }

  /** The class loop skips classes without a rule: it merges exactly the
      matched rules, in order. */
  lemma {:induction false} MergeClassesIsMergeOfMatched(classes: seq<string>, rules: map<string, CssRule>, update: (CssRule, StyleDefinition) -> StyleDefinition, style: StyleDefinition)
    ensures MergeClasses(classes, rules, update, style) == MergeAll(MatchedRules(classes, rules), update, style)
  {
    if |classes| > 0 {
      var name := NormalizeClass(classes[0]);
      var next := if name in rules then update(rules[name], style) else style;
      MergeClassesIsMergeOfMatched(classes[1..], rules, update, next);
      if name in rules {
        var rs := MatchedRules(classes, rules);
        assert rs == [rules[name]] + MatchedRules(classes[1..], rules);
        assert rs[1..] == MatchedRules(classes[1..], rules);
      } else {
        assert MatchedRules(classes, rules) == MatchedRules(classes[1..], rules);
      }
    }
  }
}
