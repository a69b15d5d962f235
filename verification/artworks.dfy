/** Artwork records as loaded from portfolio_artworks.json, and the two ways
    the UI script turns an optional text field into text. */
module Artworks {

  /** A value that may be absent, as a property missing from a JSON object. */
  datatype Option<+T> = None | Some(value: T)

  /** One entry of the portfolio dataset. A property the JSON object lacks is
      `None`; an absent `available` flag reads as false. */
  datatype Artwork = Artwork(
    title: Option<string>,
    artist: Option<string>,
    image: Option<string>,
    size: Option<string>,
    medium: Option<string>,
    year: Option<string>,
    style: Option<string>,
    description: Option<string>,
    available: bool)

  /** JavaScript truthiness of an optional text field: absent and "" are falsy. */
  predicate Truthy(f: Option<string>) {
    f.Some? && f.value != ""
  }

  /** `field || ""`: the field's text when it is truthy, "" otherwise. */
  function OrEmpty(f: Option<string>): (r: string)
    ensures Truthy(f) ==> r == f.value
    ensures !Truthy(f) ==> r == ""
    ensures r == "" <==> !Truthy(f)
  {
    match f
    case Some(s) => s
    case None => ""
  }

  /** `${field}` inside a template literal: an absent field prints as
      "undefined", so the interpolated text agrees with the `|| ""` default
      exactly when the field is present. */
  function Interpolate(f: Option<string>): (r: string)
    ensures r == OrEmpty(f) <==> f.Some?
  {
    match f
    case Some(s) => s
    case None => "undefined"
  }
}
