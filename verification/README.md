# Carousel interaction model

A Dafny model of the swipeable destination carousel of the signup screen
(`DestinationCarouselView` and `PaginationDotsView` in
`carouselSwiftUI/carouselSwiftUI/CarouselView.swift`).

The carousel keeps three pieces of view state: the resting index
`snappedItem`, the live index `draggingItem` that follows the finger, and
`isInitialized`. Three callbacks change them:

- appearing centres the carousel on the middle item, once;
- a moving drag turns the finger's translation into a fractional index and
  rubber-bands it beyond either end of the list with a factor of 0.3;
- a finished drag rounds the index the gesture's predicted end proposes and
  clamps it to the list, and both indices settle there.

Every card is then drawn from its distance to the live index. That distance
gives its scale (1.0 at the centre, down to 0.85 half an item away), its
horizontal offset (distance times the effective spacing, 68% of the screen
width) and its drawing order. The dots under the carousel highlight the dot
at `Int(snappedItem)`.

Modules, one per concern of the view:

- `Numerics` (`numerics.dfy`): Swift's `abs`, `min`, `max`, `round` (ties away
  from zero) and `Int(_:)` (truncation), on `real`.
- `Geometry` (`geometry.dfy`): image size, overlap and effective spacing
  from the screen width.
- `Carousel` (`carousel.dfy`): the state and the appear / drag-changed /
  drag-ended transitions.
- `Render` (`render.dfy`): distance, scale, offset and drawing order of a card.
- `Pagination` (`pagination.dfy`): the dots and the index they are given.
- `Trace` (`trace.dfy`): callbacks delivered in sequence, and what holds of
  every state the view can reach.

Swift's `Double` is modelled as Dafny's exact `real`, so bounds, clamping
and integrality are stated exactly. The scale range `1.0 - 0.85` is
exactly 0.15 here, where `Double` carries a rounding error.

The dots are given `Int(snappedItem)`, which truncates rather than rounds.
On every reachable state truncating and rounding agree, because the resting
index is always whole (`Trace.ReachablePagination`). For an empty list the
clamp `max(0, min(-1, x))` gives 0, and the model keeps that.

## Model

| member | source | states |
|---|---|---|
| Numerics.Round | carouselSwiftUI/carouselSwiftUI/CarouselView.swift:94 | `round` gives an integer within half an item of its argument, and halfway cases go away from zero |
| Numerics.RoundUnique | carouselSwiftUI/carouselSwiftUI/CarouselView.swift:94 | an integer satisfies the ties-away-from-zero rounding rule if and only if it is `Round(x)` |
| Numerics.RoundOdd | carouselSwiftUI/carouselSwiftUI/CarouselView.swift:94 | rounding commutes with negation: swiping left and right by the same amount lands symmetrically |
| Numerics.RoundOfIntegral | carouselSwiftUI/carouselSwiftUI/CarouselView.swift:94 | rounding leaves a whole index unchanged |
| Numerics.RoundMonotone | carouselSwiftUI/carouselSwiftUI/CarouselView.swift:94 | rounding never reverses the order of two proposals |
| Numerics.Trunc | carouselSwiftUI/carouselSwiftUI/CarouselView.swift:102 | `Int(_:)` drops the fraction toward zero, and it is exact on whole values |
| Numerics.TruncOdd | carouselSwiftUI/carouselSwiftUI/CarouselView.swift:102 | truncation commutes with negation, which tells it apart from floor |
| Geometry.ImageSize | carouselSwiftUI/carouselSwiftUI/CarouselView.swift:27 | a card is positive and narrower than the screen |
| Geometry.Spacing | carouselSwiftUI/carouselSwiftUI/CarouselView.swift:28 | the spacing is negative, so cards overlap, and the overlap is less than a card |
| Geometry.EffectiveSpacing | carouselSwiftUI/carouselSwiftUI/CarouselView.swift:26-29 | the distance between neighbouring card centres is 0.68 of the screen width: positive, and less than a card |
| Carousel.LastIndex | carouselSwiftUI/carouselSwiftUI/CarouselView.swift:85 | `Double(items.count - 1)` is a whole number, at least -1, and non-negative exactly when there is an item |
| Carousel.Appear | carouselSwiftUI/carouselSwiftUI/CarouselView.swift:69-76 | the first appearance with items sets both indices to `count / 2`, a valid index that splits the list evenly or with one more item on the left, and marks the view initialized; otherwise nothing changes |
| Carousel.AppearIdempotent | carouselSwiftUI/carouselSwiftUI/CarouselView.swift:69-76 | appearing twice is the same as appearing once |
| Carousel.DragProposal | carouselSwiftUI/carouselSwiftUI/CarouselView.swift:80-81 | a left translation proposes a later index, a right one an earlier index, and no motion the resting index; one effective spacing of travel is one item |
| Carousel.Clamp | carouselSwiftUI/carouselSwiftUI/CarouselView.swift:95 | clamping keeps in-range values, maps values below 0 to 0 and values past the end to the last index, gives 0 for an empty list, and keeps whole values whole |
| Carousel.RubberBand | carouselSwiftUI/carouselSwiftUI/CarouselView.swift:82-87 | inside the list the proposal is kept; below 0 the result lies strictly between the proposal and 0; past the end it lies strictly between the last index and the proposal |
| Carousel.DragChanged | carouselSwiftUI/carouselSwiftUI/CarouselView.swift:79-91 | a moving drag changes only the dragging index: kept when the proposal is in range, pulled strictly toward the nearer end when it is not |
| Carousel.RubberBandIsDampedClamp | carouselSwiftUI/carouselSwiftUI/CarouselView.swift:82-87 | for a non-empty list the rubber band equals the hard clamp plus 0.3 times the overscroll the clamp removes |
| Carousel.RubberBandIncreasing | carouselSwiftUI/carouselSwiftUI/CarouselView.swift:82-87 | for a non-empty list the rubber band is strictly increasing, so the carousel always moves with the finger |
| Carousel.DragDirection | carouselSwiftUI/carouselSwiftUI/CarouselView.swift:79-91 | from a resting state, dragging left moves the dragging index up, dragging right moves it down, and no motion leaves it at the resting index |
| Carousel.DragEnded | carouselSwiftUI/carouselSwiftUI/CarouselView.swift:92-100 | a finished drag sets both indices to the same whole index in the list (0 for an empty list): the rounded proposal when it is in range, 0 below, the last index above |
| Carousel.SettleIsNearest | carouselSwiftUI/carouselSwiftUI/CarouselView.swift:93-95 | rounding then clamping yields an index at least as close to the proposal as any item of the list |
| Carousel.DragEndedSnapsToNearest | carouselSwiftUI/carouselSwiftUI/CarouselView.swift:92-100 | a finished drag settles on the item nearest to the index the predicted end proposes |
| Carousel.DragEndedAtRest | carouselSwiftUI/carouselSwiftUI/CarouselView.swift:92-100 | releasing a resting carousel without motion leaves the resting index where it was |
| Carousel.ThreeItemExample | carouselSwiftUI/carouselSwiftUI/CarouselView.swift:69-100 | with three items the carousel opens on item 1; from there a drag end whose predicted translation proposes 1.6 lands on item 2, and one proposing -0.4 lands on item 0 |
| Carousel.AppearKeepsValidSnap | carouselSwiftUI/carouselSwiftUI/CarouselView.swift:69-76 | appearing keeps the resting index a whole index of the list |
| Carousel.DragChangedKeepsValidSnap | carouselSwiftUI/carouselSwiftUI/CarouselView.swift:79-91 | a moving drag keeps the resting index a whole index of the list |
| Render.Distance | carouselSwiftUI/carouselSwiftUI/CarouselView.swift:108-110 | a card's distance is zero exactly for the card at the dragging index, and positive exactly for cards right of it |
| Render.Scale | carouselSwiftUI/carouselSwiftUI/CarouselView.swift:36-39 | the scale lies in [0.85, 1.0], is 1.0 exactly at distance 0, and is 0.85 exactly from distance 0.5 on |
| Render.ScaleIsCappedLinear | carouselSwiftUI/carouselSwiftUI/CarouselView.swift:36-39 | the scale is `max(0.85, 1.0 - 0.3 * abs(dist))` |
| Render.ScaleMonotone | carouselSwiftUI/carouselSwiftUI/CarouselView.swift:36-39 | the scale depends only on the magnitude of the distance, never grows with it, and strictly shrinks below the threshold |
| Render.ScaleContinuous | carouselSwiftUI/carouselSwiftUI/CarouselView.swift:36-39 | the scale changes by at most 0.3 per item of distance, so it has no jumps |
| Render.Offset | carouselSwiftUI/carouselSwiftUI/CarouselView.swift:35 | the offset is zero exactly at the centre, has the sign of the distance, and its size is the distance times the effective spacing |
| Render.NeighbourOffsets | carouselSwiftUI/carouselSwiftUI/CarouselView.swift:33-35 | neighbouring cards are exactly one effective spacing apart wherever the drag is |
| Render.ZIndex | carouselSwiftUI/carouselSwiftUI/CarouselView.swift:65 | the drawing order is at most 1.0, and is 1.0 exactly for the card at the centre |
| Render.ZIndexOrder | carouselSwiftUI/carouselSwiftUI/CarouselView.swift:65 | one card is drawn above another exactly when it is nearer the centre, and level exactly when equally near |
| Render.CardVisual | carouselSwiftUI/carouselSwiftUI/CarouselView.swift:33-65 | the card at the dragging index is the only one centred, full size and at drawing order 1.0 |
| Render.NearerCardOnTop | carouselSwiftUI/carouselSwiftUI/CarouselView.swift:33-65 | a card nearer the centre is drawn above, and at least as large as, one further away |
| Render.SettledLayout | carouselSwiftUI/carouselSwiftUI/CarouselView.swift:33-65 | at rest on item k, card k is full size, centred and on top; every other card is at 0.85, a whole number of spacings away, at drawing order at most 0.9 |
| Pagination.CurrentIndex | carouselSwiftUI/carouselSwiftUI/CarouselView.swift:102 | the index given to the dots is the resting index with its fraction dropped toward zero (same sign, within one), and exactly the resting index when that is whole |
| Pagination.Dots | carouselSwiftUI/carouselSwiftUI/CarouselView.swift:113-123 | one dot per item, highlighted exactly at the current index |
| Pagination.ActiveDotCount | carouselSwiftUI/carouselSwiftUI/CarouselView.swift:113-123 | exactly one dot is highlighted when the current index names an item, and none otherwise |
| Trace.StepKeepsInvariant | carouselSwiftUI/carouselSwiftUI/CarouselView.swift:69-100 | each callback keeps the resting index a whole index of the list, and keeps the view uninitialized for an empty list |
| Trace.RunKeepsInvariant | carouselSwiftUI/carouselSwiftUI/CarouselView.swift:69-100 | any sequence of callbacks keeps that invariant |
| Trace.Reachable | carouselSwiftUI/carouselSwiftUI/CarouselView.swift:20-100 | from the view's initial state, every reachable state satisfies the invariant |
| Trace.ReleaseSettles | carouselSwiftUI/carouselSwiftUI/CarouselView.swift:92-100 | after any history ending in a finished drag, both indices agree on a whole index of the list |
| Trace.ReachablePagination | carouselSwiftUI/carouselSwiftUI/CarouselView.swift:102 | in every reachable state of a non-empty carousel, truncating and rounding the resting index agree and are exact, exactly one dot is highlighted, and it is the resting item's |
| Trace.Replay | carouselSwiftUI/carouselSwiftUI/CarouselView.swift:20-100 | applying the callbacks in order from the initial state yields the reachable state, and it satisfies the invariant |

## Left out

- SwiftUI rendering (`Image`, `Text` overlays, frames, corner radii, `GeometryReader`, stacks): presentation only; the model keeps the values the view computes and feeds to them.
- `VisaSignupScreen` and the preview provider: static layout, a text field and a button with an empty action; no logic.
- The `withAnimation` spring parameters: presentation-only easing; the model assigns the target values directly.
- How `DragGesture` computes `translation` and `predictedEndTranslation`, and its `minimumDistance: 5`: platform gesture internals; translations are arbitrary real inputs.
- The `UUID` identity of `VisaDestination`: items are identified by position and only their count matters.
- IEEE-754 `Double` rounding, overflow, infinities and NaN, and the trap of `Int(_:)` on a value out of `Int` range: the model computes in exact `real`.
- Geometry.Width: a zero screen width is excluded. The drag callbacks divide by a multiple of the width, and in `Double` a zero width gives infinite or NaN indices that `real` cannot represent.
- Carousel.RubberBandIsDampedClamp: stated only for a non-empty list. With no items the last index is -1 and the rubber band jumps at 0 (a proposal of -0.1 gives -0.03, a proposal of 0 gives -0.7). No card is drawn then, so this has no visible effect; `Carousel.RubberBand` still bounds the result for that case.
- Carousel.RubberBandIncreasing: also stated only for a non-empty list, for the same reason.
