/** The slide text records the core passes around: a text block with its
    style runs. Only the properties the modelled operations read or write
    are separate fields; every other style property (bold, colours, links,
    font family, …) travels in `others`, which these operations copy
    unchanged. */
module Slides {
  import opened Options

  datatype FontSize = FontSize(magnitude: real, unit: string)

  datatype StyleDefinition = StyleDefinition(
    start: Option<int>,
    end: Option<int>,
    fontSize: Option<FontSize>,
    others: map<string, string>)

  datatype TextDefinition = TextDefinition(rawText: string, textRuns: seq<StyleDefinition>)

  /** A style with no property set: the `{}` of the source. */
  const EmptyStyle := StyleDefinition(None, None, None, map[])
}
