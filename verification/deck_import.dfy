/** The reconciliation side of the deck importer (`src/deck_import.ts`):
    which write requests `ensureMarkers`, `copySlide` and `editSlide` send to
    the Google Slides API, and how `ensureMarkers` projects the presentation
    it reads into slide and layout metadata.

    The API is not called: a presentation the client would fetch is an input
    value, the requests a call would send are the output, and the reply of
    a call is an input again. Only the properties of the API records that
    the code reads are modelled; absent JSON properties are `None`. */
module DeckImport {
  import opened Options
  import JsStrings

  // ---------------------------------------------------------------------
  // The presentation as the API returns it

  /** A text element of a shape's text; `content` is `textRun.content`,
      absent when the element is not a run or the run has no content. */
  datatype TextElement = TextElement(content: Option<string>)

  datatype Placeholder = Placeholder(kind: Option<string>)

  /** A shape: its placeholder, and `text.textElements`. */
  datatype Shape = Shape(placeholder: Option<Placeholder>, textElements: Option<seq<TextElement>>)

  datatype Image = Image(placeholder: Option<Placeholder>, sourceUrl: Option<string>, contentUrl: Option<string>)

  datatype Video = Video(url: Option<string>)

  /** An affine transform or a size: copied into the metadata as read. */
  datatype Geometry = Geometry(fields: map<string, real>)

  /** A page element. Its kinds other than shape, image and video carry
      nothing the code reads, so only their presence is recorded. */
  datatype PageElement = PageElement(
    objectId: Option<string>,
    shape: Option<Shape>, image: Option<Image>, video: Option<Video>,
    table: bool, line: bool, sheetsChart: bool, wordArt: bool, elementGroup: bool,
    transform: Option<Geometry>, size: Option<Geometry>)

  /** `slideProperties.notesPage`: the speaker-notes object id and the notes
      page's elements. */
  datatype NotesPage = NotesPage(speakerNotesObjectId: Option<string>, pageElements: Option<seq<PageElement>>)

  /** A slide; `layoutObjectId` and `notesPage` are read from its
      `slideProperties`. */
  datatype Slide = Slide(
    objectId: Option<string>, layoutObjectId: Option<string>, notesPage: Option<NotesPage>,
    pageElements: Option<seq<PageElement>>)

  /** A layout; `name` and `displayName` are read from its
      `layoutProperties`. */
  datatype Layout = Layout(
    objectId: Option<string>, name: Option<string>, displayName: Option<string>,
    pageElements: Option<seq<PageElement>>)

  datatype Presentation = Presentation(
    presentationId: Option<string>, title: Option<string>,
    layouts: Option<seq<Layout>>, slides: Option<seq<Slide>>)

  // ---------------------------------------------------------------------
  // Requests and replies

  datatype Request =
    | InsertText(objectId: string, text: string, insertionIndex: int)
    | DeleteText(objectId: string, rangeType: string)
    | UpdateShapeProperties(objectId: string, autofitType: string, fields: string)
    | ReplaceImage(imageObjectId: string, url: string)
    | DuplicateObject(objectId: string)

  datatype DuplicateReply = DuplicateReply(objectId: Option<string>)

  datatype Reply = Reply(duplicateObject: Option<DuplicateReply>)

  /** The body of a `batchUpdate` response: its `replies`. */
  datatype BatchResponse = BatchResponse(replies: Option<seq<Reply>>)

  // ---------------------------------------------------------------------
  // The metadata `ensureMarkers` returns

  datatype PlaceholderMeta = PlaceholderMeta(
    objectId: string, kind: Option<string>, text: Option<string>,
    transform: Option<Geometry>, size: Option<Geometry>)

  datatype ElementMeta = ElementMeta(
    objectId: string, elementType: string, placeholderType: Option<string>,
    text: Option<string>, imageUrl: Option<string>, videoUrl: Option<string>,
    transform: Option<Geometry>, size: Option<Geometry>)

  datatype LayoutMeta = LayoutMeta(
    objectId: string, name: Option<string>, displayName: Option<string>,
    placeholders: seq<PlaceholderMeta>)

  datatype SlideMeta = SlideMeta(
    objectId: string, layout: Option<string>, title: Option<string>, index: nat,
    placeholders: seq<PlaceholderMeta>, elements: seq<ElementMeta>)

  datatype PresentationMeta = PresentationMeta(
    presentationId: string, title: Option<string>, layouts: seq<LayoutMeta>, slides: seq<SlideMeta>)

  // ---------------------------------------------------------------------
  // JavaScript truthiness of optional strings

  /** A string value that is present and not empty: what `if (s)` accepts. */
  predicate Truthy(s: Option<string>) {
    s.Some? && s.value != ""
  }

  /** `s || undefined`. */
  function OrUndefined(s: Option<string>): (r: Option<string>)
    ensures r.Some? <==> Truthy(s)
    ensures r.Some? ==> r == s
  {
    if Truthy(s) then s else None
  }

  // ---------------------------------------------------------------------
  // Markers

  const MarkerPrefix := "md2gs-slide:"

  /** The text a marker request inserts for the slide at `index`. */
  function MarkerText(index: nat): string {
    MarkerPrefix + JsStrings.NatToString(index) + "\n"
  }

  /** `te.textRun?.content?.startsWith(MARKER_PREFIX)`. */
  predicate IsMarkerRun(te: TextElement) {
    te.content.Some? && JsStrings.StartsWith(te.content.value, MarkerPrefix)
  }

  predicate ShapeHasMarker(el: PageElement) {
    el.shape.Some? && el.shape.value.textElements.Some?
    && exists k :: 0 <= k < |el.shape.value.textElements.value| && IsMarkerRun(el.shape.value.textElements.value[k])
  }

  /** Some shape on the notes page has a text run starting with the
      marker prefix. */
  predicate HasMarker(notes: NotesPage) {
    notes.pageElements.Some?
    && exists k :: 0 <= k < |notes.pageElements.value| && ShapeHasMarker(notes.pageElements.value[k])
  }

  /** A slide gets a marker request: it has a speaker-notes object and no
      marker on its notes page. */
  predicate NeedsMarker(slide: Slide) {
    slide.notesPage.Some? && Truthy(slide.notesPage.value.speakerNotesObjectId)
    && !HasMarker(slide.notesPage.value)
  }

  function SpeakerNotesId(slide: Slide): string
    requires NeedsMarker(slide)
  {
    slide.notesPage.value.speakerNotesObjectId.value
  }

  /** The request inserting the marker of the slide at `index`. */
  function MarkerRequest(slide: Slide, index: nat): Request
    requires NeedsMarker(slide)
  {
    InsertText(SpeakerNotesId(slide), MarkerText(index), 0)
  }

  /** Reads a marker text back: the prefix, a non-empty run of digits and a
      line feed. */
  function ParseMarker(text: string): Option<nat> {
    var p := |MarkerPrefix|;
    if |text| >= p + 2 && text[..p] == MarkerPrefix && text[|text| - 1] == '\n'
       && (forall i :: p <= i < |text| - 1 ==> '0' <= text[i] <= '9')
    then Some(JsStrings.DecimalValue(text[p..|text| - 1]))
    else None
  }

  /** The slide index a request carries, when it is a marker insertion; -1
      otherwise. */
  function MarkerIndex(q: Request): int {
    if q.InsertText? && ParseMarker(q.text).Some? then ParseMarker(q.text).value else -1
  }

  /** A marker names its slide: reading the text back gives the index. */
  lemma MarkerRoundTrip(index: nat)
    ensures ParseMarker(MarkerText(index)) == Some(index)
  {
    var digits := JsStrings.NatToString(index);
    var t := MarkerText(index);
    var p := |MarkerPrefix|;
    assert t[..p] == MarkerPrefix;
    assert t[p..|t| - 1] == digits;
    forall i | p <= i < |t| - 1 ensures '0' <= t[i] <= '9' {
      assert t[i] == digits[i - p];
    }
    JsStrings.DecimalRoundTrip(index);
  }

  /** The marker requests for `slides`, the first of which is at position
      `from` in the deck: one per slide that needs a marker, in slide
      order. */
  function MarkerRequests(slides: seq<Slide>, from: nat): (r: seq<Request>)
    ensures |r| <= |slides|
    ensures forall k :: 0 <= k < |r| ==> r[k].InsertText? && r[k].insertionIndex == 0
    decreases |slides|
  {
    if |slides| == 0 then []
    else (if NeedsMarker(slides[0]) then [MarkerRequest(slides[0], from)] else []) + MarkerRequests(slides[1..], from + 1)
  }

  /** `q` is the marker request of a slide of `slides` that needs one: the
      index it carries names that slide. */
  predicate MarkerFor(slides: seq<Slide>, from: nat, q: Request) {
    var i := MarkerIndex(q);
    from <= i < from + |slides| && NeedsMarker(slides[i - from]) && q == MarkerRequest(slides[i - from], i)
  }

  predicate AllMarkersFor(slides: seq<Slide>, from: nat, r: seq<Request>) {
    forall k :: 0 <= k < |r| ==> MarkerFor(slides, from, r[k])
  }

  lemma MarkerForShift(slides: seq<Slide>, from: nat, q: Request)
    requires |slides| > 0 && MarkerFor(slides[1..], from + 1, q)
    ensures MarkerFor(slides, from, q)
  {
    var i := MarkerIndex(q);
    assert slides[i - from] == slides[1..][i - from - 1];
  }

  /** Every request inserts the marker of a slide that needs one into that
      slide's speaker notes, the marker naming the slide's position. */
  lemma {:induction false} MarkerRequestsSound(slides: seq<Slide>, from: nat)
    ensures AllMarkersFor(slides, from, MarkerRequests(slides, from))
    decreases |slides|
  {
    if |slides| > 0 {
      var rest := MarkerRequests(slides[1..], from + 1);
      MarkerRequestsSound(slides[1..], from + 1);
      MarkerRoundTrip(from);
      var head := if NeedsMarker(slides[0]) then [MarkerRequest(slides[0], from)] else [];
      var r := MarkerRequests(slides, from);
      assert r == head + rest;
      forall k | 0 <= k < |r| ensures MarkerFor(slides, from, r[k]) {
        if k < |head| {
          assert r[k] == MarkerRequest(slides[0], from);
        } else {
          assert r[k] == rest[k - |head|];
          assert AllMarkersFor(slides[1..], from + 1, rest);
          MarkerForShift(slides, from, rest[k - |head|]);
        }
      }
    }
  }

  predicate Increasing(r: seq<Request>) {
    forall k, l :: 0 <= k < l < |r| ==> MarkerIndex(r[k]) < MarkerIndex(r[l])
  }

  /** The requests follow slide order: the indices they carry increase. */
  lemma {:induction false} MarkerRequestsOrdered(slides: seq<Slide>, from: nat)
    ensures Increasing(MarkerRequests(slides, from))
    decreases |slides|
  {
    if |slides| > 0 {
      var rest := MarkerRequests(slides[1..], from + 1);
      MarkerRequestsOrdered(slides[1..], from + 1);
      MarkerRequestsSound(slides[1..], from + 1);
      MarkerRoundTrip(from);
      var head := if NeedsMarker(slides[0]) then [MarkerRequest(slides[0], from)] else [];
      var r := MarkerRequests(slides, from);
      assert r == head + rest;
      if NeedsMarker(slides[0]) {
        forall k | 0 <= k < |rest| ensures MarkerIndex(rest[k]) > from {
          assert AllMarkersFor(slides[1..], from + 1, rest);
          assert MarkerFor(slides[1..], from + 1, rest[k]);
        }
        IncreasingPrepend(MarkerRequest(slides[0], from), rest, from);
      } else {
        assert r == rest;
      }
    }
  }

  lemma IncreasingPrepend(q: Request, rest: seq<Request>, from: int)
    requires MarkerIndex(q) == from && Increasing(rest)
    requires forall k :: 0 <= k < |rest| ==> MarkerIndex(rest[k]) > from
    ensures Increasing([q] + rest)
  {
    var r := [q] + rest;
    forall k, l | 0 <= k < l < |r| ensures MarkerIndex(r[k]) < MarkerIndex(r[l]) {
      assert r[l] == rest[l - 1];
      if k > 0 {
        assert r[k] == rest[k - 1];
      }
    }
  }

  /** Every slide that needs a marker gets its request. */
  lemma {:induction false} MarkerRequestsComplete(slides: seq<Slide>, from: nat, i: nat)
    requires i < |slides| && NeedsMarker(slides[i])
    ensures MarkerRequest(slides[i], from + i) in MarkerRequests(slides, from)
    decreases i
  {
    var head := if NeedsMarker(slides[0]) then [MarkerRequest(slides[0], from)] else [];
    var rest := MarkerRequests(slides[1..], from + 1);
    assert MarkerRequests(slides, from) == head + rest;
    if i > 0 {
      assert slides[i] == slides[1..][i - 1];
      MarkerRequestsComplete(slides[1..], from + 1, i - 1);
    }
  }

  /** No request for a deck none of whose slides needs a marker, and at
      least one otherwise. */
  lemma MarkerRequestsEmptyIff(slides: seq<Slide>)
    ensures MarkerRequests(slides, 0) == [] <==> forall i :: 0 <= i < |slides| ==> !NeedsMarker(slides[i])
  {
    var r := MarkerRequests(slides, 0);
    if r != [] {
      MarkerRequestsSound(slides, 0);
      assert AllMarkersFor(slides, 0, r);
      assert MarkerFor(slides, 0, r[0]);
      assert NeedsMarker(slides[MarkerIndex(r[0])]);
    } else {
      forall i | 0 <= i < |slides| ensures !NeedsMarker(slides[i]) {
        if NeedsMarker(slides[i]) {
          MarkerRequestsComplete(slides, 0, i);
        }
      }
    }
  }

  // ---------------------------------------------------------------------
  // The server's side of a marker insertion

  /** Inserting `text` at index 0 of a shape's text: it becomes the first
      text run. */
  function InsertIntoShape(shape: Shape, text: string): Shape {
    shape.(textElements := Some([TextElement(Some(text))] + shape.textElements.OrElse([])))
  }

  /** The notes page after the marker text is inserted into the element
      whose id is the speaker-notes id. */
  function InsertIntoNotes(notes: NotesPage, id: string, text: string): NotesPage {
    notes.(pageElements := Some(seq(|notes.pageElements.OrElse([])|, k requires 0 <= k < |notes.pageElements.OrElse([])| =>
      var el := notes.pageElements.OrElse([])[k];
      if el.objectId == Some(id) && el.shape.Some? then el.(shape := Some(InsertIntoShape(el.shape.value, text))) else el)))
  }

  /** The speaker-notes object is a shape on the notes page. */
  predicate NotesShapePresent(slide: Slide) {
    slide.notesPage.Some? && slide.notesPage.value.pageElements.Some?
    && (exists k :: 0 <= k < |slide.notesPage.value.pageElements.value|
          && slide.notesPage.value.pageElements.value[k].objectId == slide.notesPage.value.speakerNotesObjectId
          && slide.notesPage.value.pageElements.value[k].shape.Some?)
  }

  /** The deck after the server applied the marker requests. */
  function ApplyMarkers(slides: seq<Slide>): (r: seq<Slide>)
    ensures |r| == |slides|
  {
    seq(|slides|, i requires 0 <= i < |slides| =>
      if NeedsMarker(slides[i])
      then slides[i].(notesPage := Some(InsertIntoNotes(slides[i].notesPage.value, SpeakerNotesId(slides[i]), MarkerText(i))))
      else slides[i])
  }

  /** Marking is idempotent: once the server has applied the requests of a
      first pass, a second pass over the same deck sends nothing, provided
      each speaker-notes object is a shape on its notes page. */
  lemma SecondPassSendsNothing(slides: seq<Slide>)
    requires forall i :: 0 <= i < |slides| && NeedsMarker(slides[i]) ==> NotesShapePresent(slides[i])
    ensures MarkerRequests(ApplyMarkers(slides), 0) == []
  {
    var after := ApplyMarkers(slides);
    forall i | 0 <= i < |after| ensures !NeedsMarker(after[i]) {
      if NeedsMarker(slides[i]) {
        MarkedSlideHasMarker(slides[i], i);
      }
    }
    MarkerRequestsEmptyIff(after);
  }

  lemma MarkedSlideHasMarker(slide: Slide, i: nat)
    requires NeedsMarker(slide) && NotesShapePresent(slide)
    ensures HasMarker(InsertIntoNotes(slide.notesPage.value, SpeakerNotesId(slide), MarkerText(i)))
  {
    var notes := slide.notesPage.value;
    var els := notes.pageElements.value;
    var k :| 0 <= k < |els| && els[k].objectId == notes.speakerNotesObjectId && els[k].shape.Some?;
    var after := InsertIntoNotes(notes, SpeakerNotesId(slide), MarkerText(i));
    var el := after.pageElements.value[k];
    assert el.shape.value.textElements.value[0] == TextElement(Some(MarkerText(i)));
    assert MarkerText(i)[..|MarkerPrefix|] == MarkerPrefix;
    assert IsMarkerRun(el.shape.value.textElements.value[0]);
    assert ShapeHasMarker(el);
  }

  // ---------------------------------------------------------------------
  // Projection into metadata

  /** The text elements' run contents joined (`?? ''` for an element
      without one). */
  function JoinedContent(tes: seq<TextElement>): string {
    if |tes| == 0 then "" else tes[0].content.OrElse("") + JoinedContent(tes[1..])
  }

  /** The text a shape shows, trimmed; absent when the shape has no text
      elements or the text is blank. */
  function ShapeText(shape: Shape): (r: Option<string>)
    ensures r.Some? ==> shape.textElements.Some? && r.value == JsStrings.Trim(JoinedContent(shape.textElements.value))
  {
    if shape.textElements.None? then None
    else OrUndefined(Some(JsStrings.Trim(JoinedContent(shape.textElements.value))))
  }

  /** A shape's text is absent exactly when it has no text elements or its
      joined text is all whitespace; when present it neither starts nor
      ends with whitespace. */
  lemma ShapeTextAbsentIff(shape: Shape)
    ensures ShapeText(shape).None? <==>
      shape.textElements.None? || JsStrings.AllWhitespace(JoinedContent(shape.textElements.value))
    ensures ShapeText(shape).Some? ==> var t := ShapeText(shape).value;
      !JsStrings.IsWhitespace(t[0]) && !JsStrings.IsWhitespace(t[|t| - 1])
  {
    if shape.textElements.Some? {
      var joined := JoinedContent(shape.textElements.value);
      JsStrings.TrimEmptyIffBlank(joined);
      JsStrings.TrimIsInfix(joined);
    }
  }

  /** The placeholder record of an element carrying a shape placeholder:
      its id (`""` when absent), its placeholder type when that is not
      empty, its trimmed text when that is not empty, and its geometry as
      read. */
  function PlaceholderOf(el: PageElement): (r: PlaceholderMeta)
    requires el.shape.Some? && el.shape.value.placeholder.Some?
    ensures r.objectId == el.objectId.OrElse("")
    ensures r.kind.Some? <==> Truthy(el.shape.value.placeholder.value.kind)
    ensures r.kind.Some? ==> r.kind == el.shape.value.placeholder.value.kind
    ensures r.text.Some? <==> (el.shape.value.textElements.Some?
      && !JsStrings.AllWhitespace(JoinedContent(el.shape.value.textElements.value)))
    ensures r.text.Some? ==> r.text.value == JsStrings.Trim(JoinedContent(el.shape.value.textElements.value))
    ensures r.transform == el.transform && r.size == el.size
  {
    ShapeTextAbsentIff(el.shape.value);
    PlaceholderMeta(el.objectId.OrElse(""), OrUndefined(el.shape.value.placeholder.value.kind),
                    ShapeText(el.shape.value), el.transform, el.size)
  }

  predicate IsPlaceholder(el: PageElement) {
    el.shape.Some? && el.shape.value.placeholder.Some?
  }

  /** The placeholders among `els`, in page order. */
  function Placeholders(els: seq<PageElement>): (r: seq<PlaceholderMeta>)
    ensures |r| <= |els|
  {
    if |els| == 0 then []
    else (if IsPlaceholder(els[0]) then [PlaceholderOf(els[0])] else []) + Placeholders(els[1..])
  }

  /** Placeholders are collected element by element: the list for a page
      is the lists for its parts, in order. Together with the one-element
      case this pins the result to the placeholder elements in page
      order. */
  lemma {:induction false} PlaceholdersConcat(a: seq<PageElement>, b: seq<PageElement>)
    ensures Placeholders(a + b) == Placeholders(a) + Placeholders(b)
    decreases |a|
  {
    if |a| > 0 {
      assert (a + b)[1..] == a[1..] + b;
      PlaceholdersConcat(a[1..], b);
    } else {
      assert a + b == b;
    }
  }

  lemma PlaceholdersSingle(el: PageElement)
    ensures Placeholders([el]) == (if IsPlaceholder(el) then [PlaceholderOf(el)] else [])
  {
    assert [el][1..] == [];
  }

  /** Exactly the placeholder elements yield placeholder records. */
  lemma PlaceholdersEmptyIff(els: seq<PageElement>)
    ensures Placeholders(els) == [] <==> forall k :: 0 <= k < |els| ==> !IsPlaceholder(els[k])
    decreases |els|
  {
    if |els| > 0 {
      PlaceholdersEmptyIff(els[1..]);
      assert forall k :: 0 < k < |els| ==> els[k] == els[1..][k - 1];
    }
  }

  /** `elementType`: the first kind the element has, in the order shape,
      image, video, table, line, sheets chart, word art, group; each type
      name is given exactly when the element has that kind and none earlier
      in the order. */
  function ElementType(el: PageElement): (r: string)
    ensures r == "shape" <==> el.shape.Some?
    ensures r == "image" <==> el.shape.None? && el.image.Some?
    ensures r == "video" <==> el.shape.None? && el.image.None? && el.video.Some?
    ensures r == "table" <==> el.shape.None? && el.image.None? && el.video.None? && el.table
    ensures r == "line" <==> el.shape.None? && el.image.None? && el.video.None? && !el.table && el.line
    ensures r == "sheetsChart" <==>
      el.shape.None? && el.image.None? && el.video.None? && !el.table && !el.line && el.sheetsChart
    ensures r == "wordArt" <==>
      el.shape.None? && el.image.None? && el.video.None? && !el.table && !el.line && !el.sheetsChart && el.wordArt
    ensures r == "group" <==>
      el.shape.None? && el.image.None? && el.video.None? && !el.table && !el.line && !el.sheetsChart
      && !el.wordArt && el.elementGroup
    ensures r == "unknown" <==>
      el.shape.None? && el.image.None? && el.video.None? && !el.table && !el.line && !el.sheetsChart
      && !el.wordArt && !el.elementGroup
  {
    if el.shape.Some? then "shape"
    else if el.image.Some? then "image"
    else if el.video.Some? then "video"
    else if el.table then "table"
    else if el.line then "line"
    else if el.sheetsChart then "sheetsChart"
    else if el.wordArt then "wordArt"
    else if el.elementGroup then "group"
    else "unknown"
  }

  /** The element is a shape placeholder with a non-empty type. */
  predicate ShapePlaceholderTyped(el: PageElement) {
    el.shape.Some? && el.shape.value.placeholder.Some? && Truthy(el.shape.value.placeholder.value.kind)
  }

  /** The element is an image placeholder with a non-empty type. */
  predicate ImagePlaceholderTyped(el: PageElement) {
    el.image.Some? && el.image.value.placeholder.Some? && Truthy(el.image.value.placeholder.value.kind)
  }

  /** The metadata of one page element. */
  function ElementMetaOf(el: PageElement): (r: ElementMeta)
    ensures r.objectId == el.objectId.OrElse("") && r.elementType == ElementType(el)
    ensures r.text.Some? <==> el.shape.Some? && ShapeText(el.shape.value).Some?
    ensures r.text.Some? ==> r.text == ShapeText(el.shape.value)
    ensures r.imageUrl.Some? <==>
      el.image.Some? && (Truthy(el.image.value.sourceUrl) || Truthy(el.image.value.contentUrl))
    ensures el.image.Some? && Truthy(el.image.value.sourceUrl) ==> r.imageUrl == el.image.value.sourceUrl
    ensures el.image.Some? && !Truthy(el.image.value.sourceUrl) && Truthy(el.image.value.contentUrl) ==>
      r.imageUrl == el.image.value.contentUrl
    ensures r.videoUrl.Some? <==> el.video.Some? && Truthy(el.video.value.url)
    ensures r.videoUrl.Some? ==> r.videoUrl == el.video.value.url
    ensures r.placeholderType.Some? <==> (ShapePlaceholderTyped(el) || ImagePlaceholderTyped(el))
    ensures ShapePlaceholderTyped(el) ==> r.placeholderType == el.shape.value.placeholder.value.kind
    ensures r.placeholderType.Some? && !ShapePlaceholderTyped(el) ==>
      r.placeholderType == el.image.value.placeholder.value.kind
  {
    var placeholderType :=
      if ShapePlaceholderTyped(el)
      then el.shape.value.placeholder.value.kind
      else if el.image.Some? && el.image.value.placeholder.Some? then OrUndefined(el.image.value.placeholder.value.kind)
      else None;
    ElementMeta(
      el.objectId.OrElse(""), ElementType(el), placeholderType,
      if el.shape.Some? then ShapeText(el.shape.value) else None,
      if el.image.Some? then OrUndefined(if Truthy(el.image.value.sourceUrl) then el.image.value.sourceUrl else el.image.value.contentUrl) else None,
      if el.video.Some? then OrUndefined(el.video.value.url) else None,
      el.transform, el.size)
  }

  /** `find(l => l.objectId === layoutId)`: the first layout with that id.
      A slide without a layout id matches the first layout without one, as
      `undefined === undefined` does. */
  function FindLayout(layouts: seq<Layout>, id: Option<string>): (r: Option<Layout>)
    ensures r.Some? ==> r.value.objectId == id && exists k :: (0 <= k < |layouts| && layouts[k] == r.value
      && forall j :: 0 <= j < k ==> layouts[j].objectId != id)
    ensures r.None? <==> forall k :: 0 <= k < |layouts| ==> layouts[k].objectId != id
  {
    if |layouts| == 0 then None
    else if layouts[0].objectId == id then Some(layouts[0])
    else
      var r := FindLayout(layouts[1..], id);
      assert forall k :: 0 < k < |layouts| ==> layouts[k] == layouts[1..][k - 1];
      r
  }

  /** The first element that is a `TITLE` placeholder. */
  function FindTitle(els: seq<PageElement>): (r: Option<PageElement>)
    ensures r.Some? ==> IsTitle(r.value) && exists k :: (0 <= k < |els| && els[k] == r.value
      && forall j :: 0 <= j < k ==> !IsTitle(els[j]))
    ensures r.None? <==> forall k :: 0 <= k < |els| ==> !IsTitle(els[k])
  {
    if |els| == 0 then None
    else if IsTitle(els[0]) then Some(els[0])
    else
      var r := FindTitle(els[1..]);
      assert forall k :: 0 < k < |els| ==> els[k] == els[1..][k - 1];
      r
  }

  predicate IsTitle(el: PageElement) {
    el.shape.Some? && el.shape.value.placeholder.Some? && el.shape.value.placeholder.value.kind == Some("TITLE")
  }

  /** The joined text of the slide's first `TITLE` placeholder, when the
      slide has one and its shape has text elements. */
  function TitleContent(slide: Slide): Option<string> {
    var t := if slide.pageElements.Some? then FindTitle(slide.pageElements.value) else None;
    if t.Some? && t.value.shape.value.textElements.Some?
    then Some(JoinedContent(t.value.shape.value.textElements.value))
    else None
  }

  /** The slide title: present exactly when the title placeholder's joined
      text is present and not empty (`if (textContent)`), and then that text
      trimmed. A title of only whitespace gives an empty title, not an
      absent one. */
  function Title(slide: Slide): (r: Option<string>)
    ensures r.Some? ==> slide.pageElements.Some? && FindTitle(slide.pageElements.value).Some?
    ensures r.Some? <==> Truthy(TitleContent(slide))
    ensures r.Some? ==> r.value == JsStrings.Trim(TitleContent(slide).value)
  {
    var c := TitleContent(slide);
    if Truthy(c) then Some(JsStrings.Trim(c.value)) else None
  }

  /** A title placeholder whose text is only whitespace gives the empty
      title, not an absent one; one whose text is empty gives none. */
  lemma TitleOfBlankText(slide: Slide)
    requires slide.pageElements.Some? && FindTitle(slide.pageElements.value).Some?
    requires FindTitle(slide.pageElements.value).value.shape.value.textElements.Some?
    ensures var joined := JoinedContent(FindTitle(slide.pageElements.value).value.shape.value.textElements.value);
      && (joined != "" && JsStrings.AllWhitespace(joined) ==> Title(slide) == Some(""))
      && (joined == "" ==> Title(slide).None?)
      && (!JsStrings.AllWhitespace(joined) ==> Title(slide).Some? && Title(slide).value != "")
  {
    var joined := JoinedContent(FindTitle(slide.pageElements.value).value.shape.value.textElements.value);
    JsStrings.TrimEmptyIffBlank(joined);
  }

  function SlideMetaOf(slide: Slide, index: nat, layouts: Option<seq<Layout>>): (r: SlideMeta)
    ensures r.index == index && r.objectId == slide.objectId.OrElse("")
    ensures |r.elements| == |slide.pageElements.OrElse([])|
    ensures forall k :: 0 <= k < |r.elements| ==>
      r.elements[k].objectId == slide.pageElements.value[k].objectId.OrElse("")
      && r.elements[k].elementType == ElementType(slide.pageElements.value[k])
    ensures forall k :: 0 <= k < |r.elements| ==> r.elements[k] == ElementMetaOf(slide.pageElements.value[k])
    ensures r.title == Title(slide)
    ensures r.placeholders == Placeholders(slide.pageElements.OrElse([]))
    ensures r.layout.Some? <==> (layouts.Some? && FindLayout(layouts.value, slide.layoutObjectId).Some?
                                 && Truthy(FindLayout(layouts.value, slide.layoutObjectId).value.displayName))
    ensures r.layout.Some? ==> r.layout == FindLayout(layouts.value, slide.layoutObjectId).value.displayName
  {
    var els := slide.pageElements.OrElse([]);
    var layout := if layouts.Some? then FindLayout(layouts.value, slide.layoutObjectId) else None;
    SlideMeta(
      slide.objectId.OrElse(""),
      if layout.Some? then OrUndefined(layout.value.displayName) else None,
      Title(slide), index, Placeholders(els),
      seq(|els|, k requires 0 <= k < |els| => ElementMetaOf(els[k])))
  }

  /** The record of one layout: its id (`""` when absent), its name and
      display name when not empty, and its placeholder records. */
  function LayoutMetaOf(l: Layout): (r: LayoutMeta)
    ensures r.objectId == l.objectId.OrElse("")
    ensures (r.name.Some? <==> Truthy(l.name)) && (r.name.Some? ==> r.name == l.name)
    ensures (r.displayName.Some? <==> Truthy(l.displayName)) && (r.displayName.Some? ==> r.displayName == l.displayName)
    ensures |r.placeholders| <= |l.pageElements.OrElse([])|
    ensures r.placeholders == [] <==>
      forall k :: 0 <= k < |l.pageElements.OrElse([])| ==> !IsPlaceholder(l.pageElements.OrElse([])[k])
    ensures r.placeholders == Placeholders(l.pageElements.OrElse([]))
  {
    PlaceholdersEmptyIff(l.pageElements.OrElse([]));
    LayoutMeta(l.objectId.OrElse(""), OrUndefined(l.name), OrUndefined(l.displayName),
               Placeholders(l.pageElements.OrElse([])))
  }

  /** The snapshot `ensureMarkers` returns: one layout record per layout and
      one slide record per slide, each slide's index its position. */
  function Meta(presentationId: string, p: Presentation): (r: PresentationMeta)
    ensures |r.slides| == |p.slides.OrElse([])| && |r.layouts| == |p.layouts.OrElse([])|
    ensures forall i :: 0 <= i < |r.slides| ==>
      r.slides[i].index == i && r.slides[i].objectId == p.slides.value[i].objectId.OrElse("")
    ensures r.presentationId == p.presentationId.OrElse(presentationId) && r.title == p.title
    ensures forall i :: 0 <= i < |r.layouts| ==> r.layouts[i] == LayoutMetaOf(p.layouts.value[i])
    ensures forall i :: 0 <= i < |r.slides| ==> r.slides[i] == SlideMetaOf(p.slides.value[i], i, p.layouts)
  {
    var slides := p.slides.OrElse([]);
    var layouts := p.layouts.OrElse([]);
    PresentationMeta(
      p.presentationId.OrElse(presentationId), p.title,
      seq(|layouts|, i requires 0 <= i < |layouts| => LayoutMetaOf(layouts[i])),
      seq(|slides|, i requires 0 <= i < |slides| => SlideMetaOf(slides[i], i, p.layouts)))
  }

  // ---------------------------------------------------------------------
  // ensureMarkers

  /** `Object.assign(presentation, updated)`: each property the update
      carries replaces the old one; the others stay. */
  function Assign(old_: Presentation, update: Presentation): (r: Presentation)
    ensures r.presentationId == (if update.presentationId.Some? then update.presentationId else old_.presentationId)
    ensures r.title == (if update.title.Some? then update.title else old_.title)
    ensures r.layouts == (if update.layouts.Some? then update.layouts else old_.layouts)
    ensures r.slides == (if update.slides.Some? then update.slides else old_.slides)
  {
    Presentation(
      if update.presentationId.Some? then update.presentationId else old_.presentationId,
      if update.title.Some? then update.title else old_.title,
      if update.layouts.Some? then update.layouts else old_.layouts,
      if update.slides.Some? then update.slides else old_.slides)
  }

  /** A merge is idempotent, and a complete update replaces everything. */
  lemma AssignLaws(a: Presentation, b: Presentation)
    ensures Assign(Assign(a, b), b) == Assign(a, b)
    ensures b.presentationId.Some? && b.title.Some? && b.layouts.Some? && b.slides.Some? ==> Assign(a, b) == b
  {
  }

  /** What one `ensureMarkers` call sends and returns: `write` is the
      marker batch, present only when it is not empty; the snapshot is taken
      from `fetched`, merged with `refetched` when a batch was written. */
  datatype MarkerPass = MarkerPass(write: Option<seq<Request>>, meta: PresentationMeta)

  function EnsureMarkers(presentationId: string, fetched: Presentation, refetched: Presentation): (r: MarkerPass)
    ensures r.write.Some? <==> exists i :: 0 <= i < |fetched.slides.OrElse([])| && NeedsMarker(fetched.slides.value[i])
    ensures r.write.Some? ==> r.write.value == MarkerRequests(fetched.slides.OrElse([]), 0) != []
    ensures r.write.None? ==> r.meta == Meta(presentationId, fetched)
    ensures r.write.Some? ==> r.meta == Meta(presentationId, Assign(fetched, refetched))
  {
    var requests := MarkerRequests(fetched.slides.OrElse([]), 0);
    MarkerRequestsEmptyIff(fetched.slides.OrElse([]));
    if |requests| > 0 then MarkerPass(Some(requests), Meta(presentationId, Assign(fetched, refetched)))
    else MarkerPass(None, Meta(presentationId, fetched))
  }

  /** A second call, on the deck the server holds after the first one,
      writes nothing. */
  lemma EnsureMarkersIdempotent(presentationId: string, p: Presentation, refetched: Presentation)
    requires p.slides.Some?
    requires forall i :: 0 <= i < |p.slides.value| && NeedsMarker(p.slides.value[i]) ==> NotesShapePresent(p.slides.value[i])
    ensures EnsureMarkers(presentationId, p.(slides := Some(ApplyMarkers(p.slides.value))), refetched).write.None?
  {
    SecondPassSendsNothing(p.slides.value);
    MarkerRequestsEmptyIff(ApplyMarkers(p.slides.value));
  }

  // ---------------------------------------------------------------------
  // copySlide

  /** The one request `copySlide` sends. */
  function CopySlideRequests(slideId: string): (r: seq<Request>)
    ensures |r| == 1 && r[0].DuplicateObject? && r[0].objectId == slideId
  {
    [DuplicateObject(slideId)]
  }

  /** `replies?.[0]?.duplicateObject?.objectId ?? ''`: the new slide's id,
      or the empty string when the reply does not carry one. */
  function CopiedId(response: BatchResponse): (r: string)
    ensures CarriesCopiedId(response) ==> r == response.replies.value[0].duplicateObject.value.objectId.value
    ensures !CarriesCopiedId(response) ==> r == ""
    ensures r != "" ==> (response.replies.Some? && |response.replies.value| > 0
      && response.replies.value[0].duplicateObject.Some?
      && response.replies.value[0].duplicateObject.value.objectId == Some(r))
  {
    if CarriesCopiedId(response)
    then response.replies.value[0].duplicateObject.value.objectId.value
    else ""
  }

  /** The first reply is a `duplicateObject` reply that names the new
      object. */
  predicate CarriesCopiedId(response: BatchResponse) {
    response.replies.Some? && |response.replies.value| > 0
    && response.replies.value[0].duplicateObject.Some?
    && response.replies.value[0].duplicateObject.value.objectId.Some?
  }

  /** A reply carrying the duplicate's id yields it; one that does not
      yields the empty string rather than a failure. */
  lemma CopiedIdCases(id: string)
    ensures CopiedId(BatchResponse(Some([Reply(Some(DuplicateReply(Some(id))))]))) == id
    ensures CopiedId(BatchResponse(None)) == ""
    ensures CopiedId(BatchResponse(Some([]))) == ""
    ensures CopiedId(BatchResponse(Some([Reply(None)]))) == ""
  {
  }

  // ---------------------------------------------------------------------
  // editSlide

  datatype ElementUpdate = ElementUpdate(elementId: string, text: Option<string>, imageUrl: Option<string>)

  /** The requests of one update: a defined text, even empty, replaces the
      element's text and turns on shrink-to-fit; a non-empty image URL
      replaces the image. */
  function UpdateRequests(u: ElementUpdate): (r: seq<Request>)
    ensures |r| == (if u.text.Some? then 3 else 0) + (if Truthy(u.imageUrl) then 1 else 0)
    ensures u.text.Some? ==>
      && r[0] == DeleteText(u.elementId, "ALL")
      && r[1] == InsertText(u.elementId, u.text.value, 0)
      && r[2] == UpdateShapeProperties(u.elementId, "TEXT_AUTOFIT", "autofit")
    ensures Truthy(u.imageUrl) ==> r[|r| - 1] == ReplaceImage(u.elementId, u.imageUrl.value)
    ensures forall k :: 0 <= k < |r| ==> Target(r[k]) == u.elementId
  {
    (if u.text.Some? then
       [DeleteText(u.elementId, "ALL"), InsertText(u.elementId, u.text.value, 0),
        UpdateShapeProperties(u.elementId, "TEXT_AUTOFIT", "autofit")]
     else [])
    + (if Truthy(u.imageUrl) then [ReplaceImage(u.elementId, u.imageUrl.value)] else [])
  }

  /** The object a request acts on. */
  function Target(q: Request): string {
    match q
    case InsertText(id, _, _) => id
    case DeleteText(id, _) => id
    case UpdateShapeProperties(id, _, _) => id
    case ReplaceImage(id, _) => id
    case DuplicateObject(id) => id
  }

  /** The requests of all updates, update by update in the given order. */
  function EditRequests(updates: seq<ElementUpdate>): (r: seq<Request>)
    ensures forall k :: 0 <= k < |r| ==> exists j :: 0 <= j < |updates| && Target(r[k]) == updates[j].elementId
  {
    if |updates| == 0 then []
    else
      var head := UpdateRequests(updates[0]);
      var rest := EditRequests(updates[1..]);
      assert forall k :: 0 <= k < |rest| ==> exists j :: 0 < j < |updates| && Target(rest[k]) == updates[j].elementId by {
        forall k | 0 <= k < |rest| ensures exists j :: 0 < j < |updates| && Target(rest[k]) == updates[j].elementId {
          var j :| 0 <= j < |updates[1..]| && Target(rest[k]) == updates[1..][j].elementId;
          assert updates[j + 1] == updates[1..][j];
        }
      }
      head + rest
  }

  /** The requests of a list of updates are those of its parts, in order. */
  lemma {:induction false} EditRequestsConcat(a: seq<ElementUpdate>, b: seq<ElementUpdate>)
    ensures EditRequests(a + b) == EditRequests(a) + EditRequests(b)
    decreases |a|
  {
    if |a| > 0 {
      assert (a + b)[1..] == a[1..] + b;
      EditRequestsConcat(a[1..], b);
    } else {
      assert a + b == b;
    }
  }

  /** The batch `editSlide` sends: none when there are no requests. */
  function EditSlide(updates: seq<ElementUpdate>): (r: Option<seq<Request>>)
    ensures r.Some? ==> r.value == EditRequests(updates) && r.value != []
    ensures r.None? <==> forall j :: 0 <= j < |updates| ==> updates[j].text.None? && !Truthy(updates[j].imageUrl)
  {
    EditRequestsEmptyIff(updates);
    if |EditRequests(updates)| > 0 then Some(EditRequests(updates)) else None
  }

  /** One text update for "el1" sends one batch of three requests: clear
      the text, insert the new text, turn on shrink-to-fit. */
  lemma SingleTextUpdate()
    ensures EditSlide([ElementUpdate("el1", Some("ok"), None)]) == Some([
      DeleteText("el1", "ALL"), InsertText("el1", "ok", 0), UpdateShapeProperties("el1", "TEXT_AUTOFIT", "autofit")])
  {
    var u := ElementUpdate("el1", Some("ok"), None);
    assert [u][1..] == [];
    assert EditRequests([u]) == UpdateRequests(u) + [];
    assert UpdateRequests(u) == [DeleteText("el1", "ALL"), InsertText("el1", "ok", 0), UpdateShapeProperties("el1", "TEXT_AUTOFIT", "autofit")];
    assert |EditRequests([u])| == 3;
  }

  lemma {:induction false} EditRequestsEmptyIff(updates: seq<ElementUpdate>)
    ensures EditRequests(updates) == [] <==>
      forall j :: 0 <= j < |updates| ==> updates[j].text.None? && !Truthy(updates[j].imageUrl)
    decreases |updates|
  {
    if |updates| > 0 {
      EditRequestsEmptyIff(updates[1..]);
      assert forall j :: 0 < j < |updates| ==> updates[j] == updates[1..][j - 1];
    }
  }
}
