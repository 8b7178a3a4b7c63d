/**
 * An abstract stand-in for the terminal styling library the table and the
 * spinner build on. A style is a value: every operation returns a modified
 * copy. Only what the two components rely on is modelled: a set of opaque
 * attributes (colour, weight, padding, ...) and the horizontal alignment.
 */
module Styles {
  import opened Wrappers

  /** Horizontal placement of text inside a cell. */
  datatype Position = Left | Center | Right

  datatype Style = Style(attributes: set<string>, horizontal: Option<Position>) {

    /** The same style with its horizontal alignment set to p. */
    function Align(p: Position): (s: Style)
      ensures s.horizontal == Some(p)
      ensures s.attributes == attributes
    {
      this.(horizontal := Some(p))
    }

    /** The same style rendered in bold. */
    function Bold(): (s: Style)
      ensures "bold" in s.attributes
      ensures s.attributes - {"bold"} == attributes - {"bold"}
      ensures s.horizontal == horizontal
    {
      this.(attributes := attributes + {"bold"})
    }
  }

  /** A style with no attributes and no alignment set. */
  const Plain := Style({}, None)
}
