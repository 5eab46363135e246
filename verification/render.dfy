/**
  The per-card render queries of `DestinationCarouselView`: how far a card
  is from the centre of the carousel, and from that distance its scale, its
  horizontal offset and its drawing order.
 */
module Render {
  import opened Numerics
  import opened Geometry

  /** What the carousel applies to one card: `scaleEffect`, `offset(x:)` and `zIndex`. */
  datatype Visual = Visual(scale: real, offset: real, zIndex: real)

  /** Within this distance of the centre a card grows from `MinScale` towards `MaxScale`. */
  const Threshold: real := 0.5
  const MaxScale: real := 1.0
  const MinScale: real := 0.85
  /** How much each unit of distance lowers a card's drawing order. */
  const ZStep: real := 0.1

  /** The signed distance, in items, of card `index` from the dragging index; positive right of centre. */
  function Distance(index: int, dragging: real): (r: real)
    ensures r == 0.0 <==> index as real == dragging
    ensures r > 0.0 <==> index as real > dragging
  {
    index as real - dragging
  }

  // ---------------------------------------------------------------------------
  // Scale

  function Scale(dist: real): (r: real)
    ensures MinScale <= r <= MaxScale
    ensures r == MaxScale <==> dist == 0.0
    ensures r == MinScale <==> Abs(dist) >= Threshold
  {
    if Abs(dist) < Threshold then
      MinScale + (1.0 - Abs(dist) / Threshold) * (MaxScale - MinScale)
    else
      MinScale
  }

  /** The scale falls off linearly from the full size at 0.3 per item and bottoms out at `MinScale`. */
  lemma ScaleIsCappedLinear(dist: real)
    ensures Scale(dist) == Max(MinScale, MaxScale - 0.3 * Abs(dist))
  {
    if Abs(dist) < Threshold {
      assert Scale(dist) == MaxScale - 0.3 * Abs(dist);
    }
  }

  /** The scale depends only on the magnitude of the distance and never grows with it; it strictly shrinks until the threshold. */
  lemma ScaleMonotone(a: real, b: real)
    requires Abs(a) <= Abs(b)
    ensures Scale(a) >= Scale(b)
    ensures Abs(a) < Abs(b) && Abs(a) < Threshold ==> Scale(a) > Scale(b)
  {
    ScaleIsCappedLinear(a);
    ScaleIsCappedLinear(b);
  }

  /** The scale is continuous: it changes by at most 0.3 per item of distance. */
  lemma ScaleContinuous(a: real, b: real)
    ensures Abs(Scale(a) - Scale(b)) <= 0.3 * Abs(a - b)
  {
    ScaleIsCappedLinear(a);
    ScaleIsCappedLinear(b);
    var x, y := MaxScale - 0.3 * Abs(a), MaxScale - 0.3 * Abs(b);
    // |(|a| - |b|)| <= |a - b|, and capping from below moves no value further apart
    assert Abs(x - y) <= 0.3 * Abs(a - b);
    assert Abs(Max(MinScale, x) - Max(MinScale, y)) <= Abs(x - y);
  }

  // ---------------------------------------------------------------------------
  // Offset

  /** A card is drawn `dist` effective spacings from the centre of the screen. */
  function Offset(dist: real, w: Width): (r: real)
    ensures r == 0.0 <==> dist == 0.0
    ensures r > 0.0 <==> dist > 0.0
    ensures Abs(r) == Abs(dist) * EffectiveSpacing(w)
  {
    dist * EffectiveSpacing(w)
  }

  /** Neighbouring cards are always exactly one effective spacing apart, wherever the drag is. */
  lemma NeighbourOffsets(i: int, dragging: real, w: Width)
    ensures Offset(Distance(i + 1, dragging), w) - Offset(Distance(i, dragging), w) == EffectiveSpacing(w)
  {
    var d, e := Distance(i, dragging), EffectiveSpacing(w);
    assert Distance(i + 1, dragging) == d + 1.0;
    assert (d + 1.0) * e == d * e + e;
  }

  // ---------------------------------------------------------------------------
  // Drawing order

  function ZIndex(dist: real): (r: real)
    ensures r <= 1.0
    ensures r == 1.0 <==> dist == 0.0
  {
    1.0 - Abs(dist) * ZStep
  }

  /** A card is drawn above another exactly when it is nearer the centre. */
  lemma ZIndexOrder(a: real, b: real)
    ensures ZIndex(a) > ZIndex(b) <==> Abs(a) < Abs(b)
    ensures ZIndex(a) == ZIndex(b) <==> Abs(a) == Abs(b)
  {
  }

  // ---------------------------------------------------------------------------
  // One card

  function CardVisual(index: int, dragging: real, w: Width): (v: Visual)
    ensures MinScale <= v.scale <= MaxScale && v.zIndex <= 1.0
    ensures index as real == dragging <==> v.offset == 0.0
    ensures index as real == dragging <==> v.scale == MaxScale
    ensures index as real == dragging <==> v.zIndex == 1.0
  {
    var d := Distance(index, dragging);
    Visual(Scale(d), Offset(d, w), ZIndex(d))
  }

  /** A card nearer the centre is drawn on top of, and at least as large as, one further away. */
  lemma NearerCardOnTop(i: int, j: int, dragging: real)
    requires Abs(i as real - dragging) < Abs(j as real - dragging)
    ensures ZIndex(Distance(i, dragging)) > ZIndex(Distance(j, dragging))
    ensures Scale(Distance(i, dragging)) >= Scale(Distance(j, dragging))
  {
    ZIndexOrder(Distance(i, dragging), Distance(j, dragging));
    ScaleMonotone(Distance(i, dragging), Distance(j, dragging));
  }

  /**
    At rest on item `k`, that card is full size, centred and on top; every
    other card is at the minimum scale, a whole number of spacings away and
    at most 0.9 in drawing order.
   */
  lemma SettledLayout(k: int, j: int, w: Width)
    ensures CardVisual(k, k as real, w) == Visual(MaxScale, 0.0, 1.0)
    ensures j != k ==> CardVisual(j, k as real, w) ==
                         Visual(MinScale, (j - k) as real * EffectiveSpacing(w), CardVisual(j, k as real, w).zIndex)
    ensures j != k ==> CardVisual(j, k as real, w).zIndex <= 1.0 - ZStep
  {
    if j != k {
      var d := Distance(j, k as real);
      assert d == (j - k) as real;
      if j > k {
        assert d >= 1.0;
      } else {
        assert d <= -1.0;
      }
    }
  }
}
