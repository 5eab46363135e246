/**
  The card geometry the carousel derives from the width its `GeometryReader`
  reports: each card is 80% of the screen wide, neighbouring cards overlap by
  15% of a card, and `EffectiveSpacing` is the distance between the centres of
  two neighbouring cards, the unit that converts drag pixels into item indices.
 */
module Geometry {

  /** A laid-out screen width; the drag formulas divide by a multiple of it. */
  type Width = w: real | w > 0.0 witness 1.0

  const ImageFraction: real := 0.80
  const OverlapFraction: real := 0.15

  function ImageSize(w: Width): (r: real)
    ensures 0.0 < r < w
  {
    w * ImageFraction
  }

  /** Negative: cards are drawn overlapping their neighbour. */
  function Spacing(w: Width): (r: real)
    ensures r < 0.0
    ensures -r < ImageSize(w)
  {
    -ImageSize(w) * OverlapFraction
  }

  function EffectiveSpacing(w: Width): (r: real)
    ensures r == 0.68 * w
    ensures 0.0 < r < ImageSize(w)
  {
    ImageSize(w) + Spacing(w)
  }
}
