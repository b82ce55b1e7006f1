# md2gslides core, modelled in Dafny

This project models the computational core of md2gslides, the tool that
turns Markdown into Google Slides decks. It covers these parts:

- **Font metrics registry** (`FontMetrics`, `src/font-metrics.ts`). It resolves a font family to its metrics through three layers:
  - a cache preloaded with Arial, Roboto and Montserrat;
  - a metrics catalog, searched under the camel-cased name and three spelling variations;
  - a keyword-chosen fallback (Roboto or Arial).
- **Text measurement** (`TextMeasurement`, `src/text-measurement.ts`). Greedy word wrap of each paragraph into a box of given width, using average glyph widths. The source's counter loop is proved equal to a declarative layout that builds the lines.
- **Sizing helpers** (`Utils`, `src/utils.ts`):
  - the EMU-to-point conversion;
  - the bisection that picks the largest font size that fits a box;
  - the largest explicit run size;
  - the rescaling of every run toward a target size.
- **Syntax-highlight adapter** (`SyntaxHighlight`, `src/parser/syntax_highlight.ts`). The walk over the highlighter's HAST output, returned as the calls it makes on the rendering context: append text, start style, end style.
- **Generated-image fence rule** (`Fence`, the inner `fence` function of `src/parser/parser.ts`). Modelled over a snapshot of markdown-it's block state, in two readings:
  - as the code is written;
  - corrected: the marker is looked up where the line starts, and the content ends at the closing line.
- **Reconciliation requests** (`DeckImport`, `src/deck_import.ts`):
  - the marker insertions `ensureMarkers` sends, and the metadata snapshot it builds;
  - the request and reply handling of `copySlide`;
  - the request list of `editSlide`.

JavaScript string semantics live in `JsStrings`: `trim`, clamped `slice`, `split`, `startsWith`, `includes`, ASCII `toLowerCase`, the global replaces, decimal rendering, and `length` counted in UTF-16 code units. Strings are sequences of Unicode characters. Where the core uses `length` (word widths, the whole-text run), the model counts UTF-16 code units, as JavaScript does. Offsets into a string are counted in characters (see "## Left out"). The optional value type lives in `Options`, and the style-run records in `Slides`.

Calls into the Slides API are not modelled as calls:
- A presentation the code would fetch is an input value.
- The requests it would send are the output.
- A reply is an input again.

The capsize catalog, its camel-case key function, and the three preloaded metric records are parameters (`FontMetrics.Env`). The highlighter's parse and the CSS merge `updateStyleDefinition` are also parameters.

Some behaviour of the code is easy to miss, and the model follows the code in each case:
- `applyFontSize` multiplies the ratio by 0.8, a 20% reduction its own comment (src/utils.ts:74) gives as a better match to the sizes Slides renders. The largest run therefore lands on 80% of the target, not on the target.
- `applyFontSize` always prepends a new whole-text run rather than replacing an earlier one. So applying it twice is not applying it once (`Utils.ApplyTwiceDiffersFromOnce`).
- `copySlide` returns the empty string when the reply carries no duplicate, instead of failing.
- `editSlide` sends a replace-image request only for a non-empty URL.
- The fence marker run is bounded by the absolute offset 3, not by a count of 1 to 3. Because of the first finding below, the run starts at the offset equal to the line number. So line 0 admits up to four marker characters, line 1 three, line 2 two and later lines one.

## Model

| member | source | states |
|---|---|---|
| FontMetrics.InitialCache | src/font-metrics.ts:15-19 | the cache starts with both fallback families present, so a fallback lookup cannot miss |
| FontMetrics.PreloadedFamilies | src/font-metrics.ts:15-19 | Arial, Roboto and Montserrat are answered from the preloaded records |
| FontMetrics.Project | src/font-metrics.ts:37-38 | a catalog record is cut down to exactly its ascent, descent, line gap, units per em and average width |
| FontMetrics.Variations | src/font-metrics.ts:27-31 | exactly three spellings, in order: the lower-cased name with all whitespace removed, the name with all whitespace removed, and the lower-cased name with each whitespace run turned into one hyphen (stated against the independent `RemoveWhitespace` and `CollapseRuns` definitions) |
| FontMetrics.CandidateKeys | src/font-metrics.ts:22-35 | four catalog keys in order: the camel-cased name, then the camel-cased form of each variation in turn |
| FontMetrics.LoadMetrics | src/font-metrics.ts:21-48 | absent exactly when no candidate key is in the catalog; otherwise the projected record under the first key that is |
| FontMetrics.SelectBestFallback | src/font-metrics.ts:50-60 | Roboto exactly when the lower-cased name contains one of the five sans-serif keywords, Arial otherwise |
| FontMetrics.AnyKeywordIffExists | src/font-metrics.ts:55 | the recursive `some` over the keywords holds exactly when some keyword is included |
| FontMetrics.Resolve | src/font-metrics.ts:62-78 | every lookup answers; the cache only grows, and only by the looked-up name; a cached name is served untouched; a catalog hit is cached under the exact name; a miss answers the fallback's record and leaves the cache alone |
| FontMetrics.RepeatLookupIsStable | src/font-metrics.ts:62-78 | looking the same name up again gives the same record and the same cache |
| FontMetrics.RepeatedLookupsAgree | src/text-measurement.ts:9-20 | however many times `charWidth` and `lineHeight` look the family up, each lookup answers the first lookup's record, and only the first can change the cache |
| FontMetrics.CachedIgnoresCatalog | src/font-metrics.ts:63-68 | a cached name is answered without consulting the catalog |
| FontMetrics.ResolvedFromCacheOrCatalog | src/font-metrics.ts:62-78 | every answer is a cached record or a projected catalog record |
| FontMetrics.UnknownFamilyGetsFallback | src/font-metrics.ts:70-75 | an unknown family gets the preloaded record of its fallback family |
| FontMetrics.UnknownSerifFallsBackToArial | src/font-metrics.ts:50-60 | "UnknownSerif" falls back to Arial |
| FontMetrics.UnknownSansSerifFallsBackToArial | src/font-metrics.ts:50-60 | "UnknownSansSerif" contains no keyword and falls back to Arial |
| FontMetrics.HelveticaFallsBackToRoboto | src/font-metrics.ts:50-60 | "Helvetica" falls back to Roboto |
| FontMetrics.NoKeywordIn | src/font-metrics.ts:51-55 | a name with no h, b, m, l or space in either case contains no keyword once lower-cased |
| FontMetrics.Registry.GetFontMetrics | src/font-metrics.ts:62-78 | the stateful registry returns, and stores, what `Resolve` gives for its cache |
| TextMeasurement.CharWidth | src/text-measurement.ts:9-14 | `n` characters take, in font units, `n` average advances times the font size; no characters take no width |
| TextMeasurement.CharWidthAdds | src/text-measurement.ts:9-14 | the widths of two character counts add up to the width of their sum |
| TextMeasurement.LineHeight | src/text-measurement.ts:16-20 | a line is, in font units, ascent minus descent plus line gap, times the font size |
| TextMeasurement.WordWidthIsOneMoreChar | src/text-measurement.ts:40 | a word is charged one UTF-16 code unit more than its `length` |
| TextMeasurement.EmojiWordWidth | src/text-measurement.ts:40 | a one-emoji word is charged three average glyphs: two code units and the space |
| TextMeasurement.WordWidthPositive | src/text-measurement.ts:40 | with positive metrics and size every word, even an empty one, takes positive width |
| TextMeasurement.WordWidths | src/text-measurement.ts:37-40 | one width per word, in order |
| TextMeasurement.PlaceShape | src/text-measurement.ts:41-47 | a word that overflows a non-empty line opens a new line; otherwise it joins the current line, and the earlier lines are kept |
| TextMeasurement.Layout | src/text-measurement.ts:37-51 | the wrap keeps every word, in order, on non-empty lines, with no more lines than words |
| TextMeasurement.LayoutPositive | src/text-measurement.ts:37-48 | positive word widths stay positive on every line |
| TextMeasurement.MultiWordLinesFit | src/text-measurement.ts:41-47 | every line holding two or more words fits the box |
| TextMeasurement.BreaksOnlyOnOverflow | src/text-measurement.ts:41-44 | a line ends only when the next word would overflow it and it has positive width |
| TextMeasurement.OverWideLineHoldsOneWord | src/text-measurement.ts:41-47 | a line wider than the box holds a single word |
| TextMeasurement.MaxSums | src/text-measurement.ts:42-49 | the running maximum is at least its start and every line width, and equals one of them |
| TextMeasurement.MeasureWrappedText | src/text-measurement.ts:22-53 | the loop over paragraphs returns exactly the measurement of the declarative layout |
| TextMeasurement.WrapParagraph | src/text-measurement.ts:32-51 | one paragraph adds its layout's line count (one when blank) and folds its line widths into the maximum |
| TextMeasurement.PlaceKeepsCounters | src/text-measurement.ts:41-47 | the loop's line width, line count and maximum move as one placement moves the layout |
| TextMeasurement.CountersStep | src/text-measurement.ts:39-48 | one turn of the word loop keeps its line width, line count and maximum equal to those of the layout of one more word, on both branches of the overflow test |
| TextMeasurement.WrapStep | src/text-measurement.ts:39-48 | one turn of the word loop matches one more word of the layout |
| TextMeasurement.FinishLine | src/text-measurement.ts:49-50 | closing the last line adds it to the count and to the maximum |
| TextMeasurement.ParagraphLineBounds | src/text-measurement.ts:33-51 | every paragraph takes at least one line, and a non-blank one at most one per word |
| TextMeasurement.BlankParagraph | src/text-measurement.ts:33-36 | a whitespace-only paragraph takes one line and adds no width |
| TextMeasurement.LinesAtLeastParagraphs | src/text-measurement.ts:28-52 | the text takes at least one line per paragraph |
| TextMeasurement.WidthIsMaxOverLines | src/text-measurement.ts:30-52 | the reported width is the fold of the maximum over every line of every paragraph |
| TextMeasurement.WidthIsWidestLine | src/text-measurement.ts:30-52 | the width is at least every line's width, and is 0 or the width of some line |
| TextMeasurement.Measure | src/text-measurement.ts:22-53 | the line count covers every paragraph, the height is the line count times the line height, and the width is never negative |
| Utils.EmuToPoints | src/utils.ts:25-27 | points times 12700 give back the EMU, and a non-negative length does not grow |
| Utils.EstimateFontSize | src/utils.ts:29-55 | the result is `min` or a size whose wrapped text fits the box, lies in `[min, max]`, and is within half a point of `max` or of a size that does not fit |
| Utils.EstimateFontSizeWithDefaults | src/utils.ts:29-55 | with the defaults 8, 48 and Arial, the result lies in `[8, 48]`, is 8 or fits the box under Arial's metrics, and is within half a point of 48 or of a size that does not fit |
| Utils.HalvingShrinks | src/utils.ts:43-44 | halving an interval wider than half a point shrinks the loop measure, so the bisection ends |
| Utils.MaxFontSize | src/utils.ts:58-66 | the result is at least `base` and every explicit size, and is `base` or one of them |
| Utils.MagnitudeAtMostMax | src/utils.ts:58-66 | every run's drawn size, explicit or `base`, is at most the maximum |
| Utils.ScaleRuns | src/utils.ts:87-93 | one rescaled run per run, in order |
| Utils.ApplyFontSize | src/utils.ts:68-97 | a whole-text run from 0 to the text's `length` in UTF-16 code units, at the rescaled `base`, comes first; every old run follows with its span and other properties kept and its size in proportion `0.8 * target : currentMax`; the raw text is kept |
| Utils.ScaleRunResized | src/utils.ts:87-93 | a rescaled run stands to `0.8 * target` as its old size stands to the maximum |
| Utils.ScaledProportion | src/utils.ts:75 | multiplying by the ratio is the proportion `0.8 * target : currentMax` |
| Utils.LargestRunHitsTarget | src/utils.ts:73-93 | with a positive base and a non-negative target, every size of the result is at most 80% of the target and some size equals it |
| Utils.SizesAtMostTarget | src/utils.ts:73-93 | every size of the result is set and at most 80% of the target |
| Utils.SomeSizeIsTarget | src/utils.ts:73-93 | the largest run lands on exactly 80% of the target |
| Utils.ApplyTwiceDiffersFromOnce | src/utils.ts:83-96 | applying twice gives two more runs than the original and so differs from applying once |
| SyntaxHighlight.ProcessNode | src/parser/syntax_highlight.ts:42-58 | the calls are balanced, append no line feed, and append exactly the node's visible text with line feeds as vertical tabs; other elements and node kinds emit nothing |
| SyntaxHighlight.SpanEvents | src/parser/syntax_highlight.ts:79-89 | wrapping the children's calls in a start and an end keeps them balanced and free of line feeds, and appends the same text |
| SyntaxHighlight.ProcessNodes | src/parser/syntax_highlight.ts:85-87 | siblings walked in order: balanced, no line feed, the visible text with line feeds replaced |
| SyntaxHighlight.HighlightSyntax | src/parser/syntax_highlight.ts:91-100 | the whole walk is balanced and appends exactly the visible text of the nodes, in order, with every line feed turned into a vertical tab |
| SyntaxHighlight.NoLineFeedInText | src/parser/syntax_highlight.ts:47 | no appended piece has a line feed, so the appended text has none |
| SyntaxHighlight.BalancedConcat | src/parser/syntax_highlight.ts:85-87 | two balanced call sequences in a row are balanced |
| SyntaxHighlight.Bracket | src/parser/syntax_highlight.ts:84-88 | the span's start stays open until its end |
| SyntaxHighlight.TextNodeAppend | src/parser/syntax_highlight.ts:43-48 | a text node appends its value with each line feed turned into a vertical tab and every other character kept |
| SyntaxHighlight.SpanIsBracketed | src/parser/syntax_highlight.ts:79-89 | a span emits its extracted style first, its children's calls in between, and its end last, and nothing between closes it |
| SyntaxHighlight.MatchedRules | src/parser/syntax_highlight.ts:69-75 | the matched rules come from the theme, at most one per class |
| SyntaxHighlight.MergeClassesIsMergeOfMatched | src/parser/syntax_highlight.ts:69-75 | the class loop merges exactly the rules of the matched classes, in order |
| SyntaxHighlight.ExtractStyle | src/parser/syntax_highlight.ts:60-77 | a non-element gets the empty style; an element gets the merge of its matched rules, in class order, into the empty style, which stays empty when no class matches |
| Fence.SkipSpacesSkipsBlanks | src/parser/parser.ts:73 | the skip passes over spaces and tabs only |
| Fence.SkipSpacesIdempotent | src/parser/parser.ts:73-81 | skipping twice is skipping once |
| Fence.SkipSpacesFixed | src/parser/parser.ts:81 | the skip stops at a character that is not a space or tab, or at the end |
| Fence.SkipSpacesReaches | src/parser/parser.ts:81-84 | the skip reaches the line end exactly when only spaces and tabs lie before it |
| Fence.MarkerEnd | src/parser/parser.ts:38-42 | the scan covers marker characters only and stops at a non-marker or past the bound |
| Fence.MarkupIsMarkerRun | src/parser/parser.ts:35-44 | the markup is a non-empty run of the marker taken from the source; as written, a run longer than one ends by offset 4 |
| Fence.FindClose | src/parser/parser.ts:53-90 | the search stops at the first closing or outdented line, or at `end`; the outdent test comes first, so it reports closed exactly at a line that closes and is not outdented |
| Fence.ClosingTestIff | src/parser/parser.ts:68-89 | a line closes exactly when its trimmed text starts with the markup and only spaces and tabs follow the markup |
| Fence.SlicePrefixIff | src/parser/parser.ts:68 | `slice(0, markup.length) === markup` is `startsWith(markup)` |
| Fence.TailIff | src/parser/parser.ts:71-84 | the test on the trimmed remainder never decides anything the later space skip does not |
| Fence.Rule | src/parser/parser.ts:30-111 | the rule matches exactly when the opening offset holds the marker; silent or unmatched calls change nothing; otherwise one token is pushed and the line moves past `start`, up to `end` |
| Fence.FenceRule | src/parser/parser.ts:30-48 | as written, the rule fires exactly when the character at the offset equal to the line number is the marker |
| Fence.ClosingLineIsFirst | src/parser/parser.ts:53-90 | the token ends at the first closing line that is not outdented, or at `end` or an outdented line when unclosed; no line before the stop closes or is outdented |
| Fence.OutdentedMarkupLineStaysOpen | src/parser/parser.ts:60-68 | a line that holds the closing markup but is indented less than the block ends the search unclosed, because the outdent test comes first |
| Fence.TokenRecordsFence | src/parser/parser.ts:99-103 | the token is a block `div` of the rule's name holding the markup, the trimmed parameters and the opening line |
| Fence.ContentSpan | src/parser/parser.ts:103-108 | the content runs from the first body line to the reading's content end, and the line moves one past a closing line |
| Fence.OpensAtLineStart | src/parser/parser.ts:35 | corrected, the rule fires exactly when the text of the line begins with the one-character marker |
| Fence.OpensIffLineStarts | src/parser/parser.ts:35 | corrected, the opening test is a prefix test on the line's text |
| Fence.AsWrittenOpensOnWrongLine | src/parser/parser.ts:35 | as written, in "a$\nb\n" the rule reports a fence on line 1, whose text is "b" |
| Fence.ContentHoldsBody | src/parser/parser.ts:104 | corrected, the content holds every line between the opening line and the stop line, each at its own offset |
| Fence.BodyInSpan | src/parser/parser.ts:104 | the source between two line starts holds every line in between |
| Fence.AsWrittenDropsLastBodyLine | src/parser/parser.ts:104 | as written, the fence "$$\nx\n$$\n" yields empty content: the body line "x" is lost |
| JsStrings.TrimStartSpec | src/text-measurement.ts:33 | leading trim removes a whitespace prefix, all of it and nothing else |
| JsStrings.TrimEndSpec | src/text-measurement.ts:33 | trailing trim removes a whitespace suffix, all of it and nothing else |
| JsStrings.TrimIsInfix | src/deck_import.ts:95-98 | a trimmed string is an infix of its input, without whitespace at either end |
| JsStrings.TrimEmptyIffBlank | src/text-measurement.ts:33 | a string trims to nothing exactly when it is all whitespace |
| JsStrings.Slice | src/parser/parser.ts:44-45 | `slice` never fails: in-range bounds give the substring, and crossed bounds give the empty string |
| JsStrings.IncludesIffOccurs | src/font-metrics.ts:55 | `includes` holds exactly when the word occurs at some offset |
| JsStrings.ToLower | src/font-metrics.ts:52 | lower-casing is character by character and keeps the length |
| JsStrings.ReplaceChar | src/parser/syntax_highlight.ts:47 | a global one-character replace changes exactly the matching characters |
| JsStrings.ReplaceCharConcat | src/parser/syntax_highlight.ts:47 | the replace distributes over concatenation |
| JsStrings.ReplaceWhitespaceRuns | src/font-metrics.ts:28-30 | a string without whitespace comes back unchanged; replacing runs by a non-whitespace string leaves no whitespace, and by nothing does not lengthen |
| JsStrings.ReplaceWhitespaceRunsIsScan | src/font-metrics.ts:28-30 | for every replacement, the replace equals a character scan in which the first whitespace character of each maximal run emits the replacement, the rest of the run emits nothing, and every other character is kept in order |
| JsStrings.ReplaceWithNothingRemovesWhitespace | src/font-metrics.ts:28-29 | `replace(/\s+/g, '')` deletes exactly the whitespace and keeps the other characters in order |
| JsStrings.ReplaceWhitespaceRunsExample | src/font-metrics.ts:28-30 | "a  b" becomes "a-b" with a hyphen and "ab" with nothing |
| JsStrings.Utf16Length | src/text-measurement.ts:40 | `length` lies between the number of characters and twice it |
| JsStrings.Utf16LengthConcat | src/utils.ts:79 | `length` adds up over concatenation |
| JsStrings.Utf16LengthIsLengthIffBmp | src/text-measurement.ts:40 | `length` equals the number of characters exactly when none lies beyond the Basic Multilingual Plane |
| JsStrings.EmojiIsTwoUnits | src/text-measurement.ts:40 | an emoji is one character of `length` 2 |
| JsStrings.Split | src/text-measurement.ts:28 | one part more than separators, no part holds the separator, and joining the parts gives the input back |
| JsStrings.NatToString | src/deck_import.ts:74 | a decimal rendering is non-empty digits without a leading zero |
| JsStrings.DecimalRoundTrip | src/deck_import.ts:74 | reading the rendering back gives the number |
| DeckImport.OrUndefined | src/deck_import.ts:101-102 | the "or undefined" fallback is present exactly when `s` is a non-empty string, and is then `s` |
| DeckImport.MarkerRoundTrip | src/deck_import.ts:48-74 | a marker "md2gs-slide:" + index + "\n" reads back as its index |
| DeckImport.MarkerRequests | src/deck_import.ts:59-79 | at most one request per slide, each an insertion at index 0 |
| DeckImport.MarkerRequestsSound | src/deck_import.ts:59-79 | each request inserts, into a slide's speaker notes, the marker naming that slide's position, and only for a slide with a notes id and no marker |
| DeckImport.MarkerRequestsOrdered | src/deck_import.ts:59-79 | the requests follow slide order |
| DeckImport.MarkerRequestsComplete | src/deck_import.ts:59-79 | every slide with a notes id and no marker gets its request |
| DeckImport.MarkerRequestsEmptyIff | src/deck_import.ts:81-88 | nothing is sent exactly when no slide needs a marker |
| DeckImport.MarkedSlideHasMarker | src/deck_import.ts:65-69 | after the server inserts the marker into the notes shape, the notes page has a marker |
| DeckImport.SecondPassSendsNothing | src/deck_import.ts:59-79 | once the first pass's insertions are applied, a second pass sends nothing |
| DeckImport.EnsureMarkers | src/deck_import.ts:50-209 | a batch is sent exactly when some slide needs a marker, and it is the marker requests; the snapshot is built from the first fetch, or from the merge with the re-fetch when a batch was sent |
| DeckImport.EnsureMarkersIdempotent | src/deck_import.ts:59-88 | a call on the deck as the server holds it after the first call's batch writes nothing |
| DeckImport.Assign | src/deck_import.ts:87 | the merge takes each property the re-fetch carries and keeps the others |
| DeckImport.AssignLaws | src/deck_import.ts:87 | merging the same update twice is merging it once, and a complete update replaces everything |
| DeckImport.ShapeText | src/deck_import.ts:95-102 | a shape's text, when present, is the trimmed join of its runs |
| DeckImport.ShapeTextAbsentIff | src/deck_import.ts:95-102 | the text is absent exactly when there are no text elements or their join is all whitespace; when present it neither starts nor ends with whitespace |
| DeckImport.PlaceholderOf | src/deck_import.ts:134-145 | the record has the element's id or "", the placeholder type exactly when it is not empty, the trimmed text exactly when the joined text is not all whitespace, and the geometry as read |
| DeckImport.Placeholders | src/deck_import.ts:93-107 | at most one record per element |
| DeckImport.PlaceholdersConcat | src/deck_import.ts:93-107 | the records of a page are the records of its parts, in order |
| DeckImport.PlaceholdersSingle | src/deck_import.ts:94-105 | an element yields a record exactly when its shape has a placeholder |
| DeckImport.PlaceholdersEmptyIff | src/deck_import.ts:93-107 | there are no records exactly when no element is a placeholder shape |
| DeckImport.ElementType | src/deck_import.ts:150-166 | each type name is given exactly when the element has that kind and none earlier in the order shape, image, video, table, line, sheets chart, word art, group; "unknown" exactly when it has none |
| DeckImport.ElementMetaOf | src/deck_import.ts:148-189 | the element record carries the id and type; the text is present exactly for a shape with non-blank text; the image URL is present exactly when the element is an image with a non-empty source or content URL, and is the source URL when that is non-empty, else the content URL; the video URL is present exactly when the video URL is non-empty, and is that URL; the placeholder type is present exactly when the shape or image placeholder has a non-empty type, the shape's taking precedence |
| DeckImport.FindLayout | src/deck_import.ts:119 | the first layout with the slide's layout id, absent exactly when none has it |
| DeckImport.FindTitle | src/deck_import.ts:121-123 | the first title placeholder in page order (no earlier element is one), absent exactly when there is none |
| DeckImport.Title | src/deck_import.ts:120-129 | a title exists exactly when the first title placeholder's joined text exists and is not empty, and is then that text trimmed |
| DeckImport.TitleOfBlankText | src/deck_import.ts:124-129 | a whitespace-only title text gives the empty title, an empty one gives none, and any other gives a non-empty title |
| DeckImport.SlideMetaOf | src/deck_import.ts:117-199 | the slide record has the slide's id and its position as index; its title is `Title(slide)`; its placeholders are `Placeholders` of the page elements; element k's record is `ElementMetaOf` of element k; the layout name is present exactly when the first layout with the slide's layout id has a non-empty display name, and is that name |
| DeckImport.LayoutMetaOf | src/deck_import.ts:90-113 | the layout record has the layout's id or "", its name and display name exactly when not empty, its placeholders are `Placeholders` of its page elements, and there are none exactly when no element is a placeholder shape |
| DeckImport.Meta | src/deck_import.ts:90-208 | one layout record per layout, each `LayoutMetaOf` that layout, and one slide record per slide, each `SlideMetaOf` that slide at its position; the fetched presentation id wins over the requested one; the title is the presentation's |
| DeckImport.CopySlideRequests | src/deck_import.ts:217-228 | a single duplicate request for the given slide |
| DeckImport.CopiedId | src/deck_import.ts:229 | when the first reply carries the duplicate's id the answer is that id; otherwise it is the empty string |
| DeckImport.CopiedIdCases | src/deck_import.ts:229 | a reply with the duplicate's id yields it; a missing body, empty replies or a reply without a duplicate yield the empty string |
| DeckImport.UpdateRequests | src/deck_import.ts:245-279 | a defined text, even empty, gives delete-all, insert at 0 and shrink-to-fit; a non-empty image URL gives a replace-image last; every request targets the update's element |
| DeckImport.EditRequests | src/deck_import.ts:244-279 | every request targets one of the updated elements |
| DeckImport.EditRequestsConcat | src/deck_import.ts:245-279 | the requests of a list of updates are those of its parts, in order |
| DeckImport.EditRequestsEmptyIff | src/deck_import.ts:280-285 | there are no requests exactly when no update has a text or a non-empty image URL |
| DeckImport.EditSlide | src/deck_import.ts:238-286 | a batch is sent exactly when some update has a text or a non-empty image URL, and it holds all the requests |
| DeckImport.SingleTextUpdate | src/deck_import.ts:245-270 | one text update for "el1" sends delete, insert and shrink-to-fit for "el1" in one batch |

## Left out

- I/O: the network calls, the OAuth client, the debug and `console.warn` logging, and the asynchrony are left out. API responses are inputs and requests are outputs.
- Numbers are unbounded reals. IEEE-754 rounding is not modelled: division, the 0.8 factor and the bisection midpoints are exact.
- `CharWidth`, `LineHeight` and `ApplyFontSize` require a non-zero `unitsPerEm` or maximum size. JavaScript would produce `Infinity` or `NaN` there, and the model has no such values.
- `toLowerCase` is modelled on ASCII letters only. Unicode case mapping is not modelled.
- The capsize catalog, `fontFamilyToCamelCase` and the preloaded metric records are left abstract (`FontMetrics.Env`). JavaScript's lookup of prototype keys such as `"constructor"` in a plain object is not modelled.
- SyntaxHighlight.ExtractStyle and SyntaxHighlight.ProcessNode: `cssRules[...]` and `hastRules[tagName]` are plain-object lookups. A class or tag named like a prototype key, such as `"constructor"`, would find an inherited function there. The model reads them as map lookups that miss.
- TextMeasurement.MeasureWrappedText, TextMeasurement.CharWidth, TextMeasurement.LineHeight and Utils.EstimateFontSize take the font's resolved metrics `m`, not a family name. The source names the family (default `'Arial'`) and looks it up at every `charWidth` and `lineHeight` call. `FontMetrics.RepeatedLookupsAgree` shows every such lookup answers the first one's record, so one resolved record stands for them all. The cache growth of that first lookup is not threaded through the measurement. The defaults `max = 48`, `min = 8` and `'Arial'` are modelled by `Utils.EstimateFontSizeWithDefaults`.
- Utils.MaxFontSize and Utils.ApplyFontSize take `base` as an argument. The source's default of 18 is not modelled.
- Fence.Rule, Fence.FenceRule and Fence.MarkerEnd count offsets into the source (`CharAt`, `bMarks`, `eMarks`, the scan bound 3) in characters, that is, Unicode code points. JavaScript and markdown-it count UTF-16 code units. The two differ after a character beyond the Basic Multilingual Plane, such as an emoji, which markdown-it's emoji plugin makes ordinary input. Dafny's `char` cannot hold a lone surrogate, so code-unit offsets are not modelled there.
- JsStrings.Slice indexes by code point, like the fence offsets it is used with. `length` is the only place the model counts UTF-16 code units (`JsStrings.Utf16Length`). `split`, `trim` and the replaces give the same strings under either count, because their separators and whitespace all lie in the Basic Multilingual Plane.
- The highlighter (`lowlight`) and `updateStyleDefinition` are parameters. Only the walk over the highlighter's output is modelled.
- `extractStyle` reads `node.properties['className']`. An element without `properties` would throw; the model treats a missing class list as empty.
- Fence.Rule: `parentType` and `lineMax` are set around the token push and restored. The model shows only the restored state, because nothing runs in between.
- Fence: markdown-it's other block rules, `state.push`'s nesting bookkeeping, and the plugin's `validate` and `render` hooks are not modelled.
- DeckImport: the API records are flattened to the properties the code reads. `slideProperties`, `layoutProperties` and `notesProperties` are folded into their parents, and `shape.text` with `textElements`. `transform` and `size` are carried through unread.
- DeckImport.SecondPassSendsNothing: assumes the speaker-notes object is a shape on the notes page. The code does not check this; without it the server-side insertion cannot be described. The Slides API creates a missing notes shape on insert, so decks without one are excluded.
- DeckImport.EnsureMarkersIdempotent: carries the same assumption, so it says nothing about a deck whose marker-needing slides lack a notes shape.

## Findings

| source | as written | input that shows it | evidently intended | confidence | as-written member | corrected member |
|---|---|---|---|---|---|---|
| src/parser/parser.ts:35-44 | the opening marker is read at `state.src[start]`, the character offset equal to the line number, and the marker scan is bounded by the absolute offset 3 | source "a$\nb\n", line 1: offset 1 holds "$", so a fence is reported on the line "b" | read the marker where the line's text starts (`bMarks[start] + tShift[start]`) and bound the scan relative to it | not executed | Fence.AsWrittenOpensOnWrongLine | Fence.OpensAtLineStart |
| src/parser/parser.ts:104 | a closed fence's content ends at `bMarks[nextLine - 1]`, the start of the line before the closing line | "$$\nx\n$$\n": the content is "" and the body line "x" is lost | end the content at `bMarks[nextLine]`, the start of the closing line | not executed | Fence.AsWrittenDropsLastBodyLine | Fence.ContentHoldsBody |
