/**
  The interaction state of `DestinationCarouselView` and its three
  transitions: appearing on screen, a drag moving, and a drag ending. Each
  transition is a pure function of the state, the gesture's horizontal
  translation, the screen width and the number of items.

  `snapped` is the index the carousel rests on, `dragging` the possibly
  fractional index that follows the finger during a drag, and `initialized`
  records that the carousel has already been centred once.
 */
module Carousel {
  import opened Numerics
  import opened Geometry

  datatype State = State(snapped: real, dragging: real, initialized: bool)

  /** The `@State` defaults the view starts with. */
  const Initial: State := State(0.0, 0.0, false)

  /** How much of a drag beyond either end of the list moves the carousel. */
  const OverscrollFactor: real := 0.3

  /** `Double(items.count - 1)`: the last index, and -1 when there are no items. */
  function LastIndex(count: nat): (r: real)
    ensures r >= -1.0 && IsIntegral(r)
    ensures count >= 1 <==> r >= 0.0
  {
    (count - 1) as real
  }

  /** The resting condition: `snapped` is a whole index of the list (0 for an empty list). */
  predicate ValidSnap(s: State, count: nat) {
    && IsIntegral(s.snapped)
    && 0.0 <= s.snapped <= Max(0.0, LastIndex(count))
  }

  // ---------------------------------------------------------------------------
  // Appear

  /** `onAppear`: centre the carousel on the middle item, once, if there is one. */
  function Appear(s: State, count: nat): (r: State)
    ensures !s.initialized && count > 0 ==>
              && r.initialized
              && r.snapped == r.dragging == (count / 2) as real
              && 0.0 <= r.snapped <= LastIndex(count)
              // as many items on the left as on the right, or one more on the left
              && (r.snapped == LastIndex(count) - r.snapped || r.snapped == LastIndex(count) - r.snapped + 1.0)
    ensures s.initialized || count == 0 ==> r == s
  {
    if !s.initialized && count > 0 then
      var mid := (count / 2) as real;
      State(mid, mid, true)
    else
      s
  }

  lemma AppearIdempotent(s: State, count: nat)
    ensures Appear(Appear(s, count), count) == Appear(s, count)
  {
  }

  // ---------------------------------------------------------------------------
  // The index a drag proposes

  /**
    The index a horizontal translation proposes from the resting index: one
    effective spacing of finger travel is one item, and moving the finger to
    the left (a negative translation) brings later items to the centre.
   */
  function DragProposal(snapped: real, translation: real, w: Width): (r: real)
    ensures r > snapped <==> translation < 0.0
    ensures r == snapped <==> translation == 0.0
    ensures (r - snapped) * EffectiveSpacing(w) == -translation
  {
    snapped + (-translation / EffectiveSpacing(w))
  }

  /** `max(0, min(Double(items.count - 1), x))`. */
  function Clamp(x: real, count: nat): (r: real)
    ensures count >= 1 ==> 0.0 <= r <= LastIndex(count)
    ensures count == 0 ==> r == 0.0
    ensures 0.0 <= x <= LastIndex(count) ==> r == x
    ensures x < 0.0 ==> r == 0.0
    ensures count >= 1 && x > LastIndex(count) ==> r == LastIndex(count)
    ensures IsIntegral(x) ==> IsIntegral(r)
  {
    Max(0.0, Min(LastIndex(count), x))
  }

  // ---------------------------------------------------------------------------
  // Drag changed

  /**
    The rubber band of `onChanged`: inside the list the proposal is taken as is;
    beyond either end only `OverscrollFactor` of the excess is kept.
   */
  function RubberBand(p: real, count: nat): (r: real)
    ensures 0.0 <= p <= LastIndex(count) ==> r == p
    ensures p < 0.0 ==> p < r < 0.0
    ensures p >= 0.0 && p > LastIndex(count) ==> LastIndex(count) < r < p
  {
    var last := LastIndex(count);
    if p < 0.0 then p * OverscrollFactor
    else if p > last then last + (p - last) * OverscrollFactor
    else p
  }

  /** `onChanged`: only the dragging index moves. */
  function DragChanged(s: State, translation: real, w: Width, count: nat): (r: State)
    ensures r.snapped == s.snapped && r.initialized == s.initialized
    ensures var p := DragProposal(s.snapped, translation, w);
            && (0.0 <= p <= LastIndex(count) ==> r.dragging == p)
            && (p < 0.0 ==> p < r.dragging < 0.0)
            && (p >= 0.0 && p > LastIndex(count) ==> LastIndex(count) < r.dragging < p)
  {
    s.(dragging := RubberBand(DragProposal(s.snapped, translation, w), count))
  }

  /**
    For a non-empty list the rubber band is the hard clamp plus
    `OverscrollFactor` times whatever the clamp cut off: the excess beyond
    the ends is damped, the part inside the list is kept exactly.
   */
  lemma RubberBandIsDampedClamp(p: real, count: nat)
    requires count >= 1
    ensures RubberBand(p, count) == Clamp(p, count) + OverscrollFactor * (p - Clamp(p, count))
  {
    var last := LastIndex(count);
    if p < 0.0 {
      assert Clamp(p, count) == 0.0;
    } else if p > last {
      assert Clamp(p, count) == last;
    } else {
      assert Clamp(p, count) == p;
    }
  }

  /** For a non-empty list the carousel follows the finger: the rubber band is strictly increasing. */
  lemma RubberBandIncreasing(p: real, q: real, count: nat)
    requires count >= 1
    requires p < q
    ensures RubberBand(p, count) < RubberBand(q, count)
  {
    var last := LastIndex(count);
    RubberBandIsDampedClamp(p, count);
    RubberBandIsDampedClamp(q, count);
    var cp, cq := Clamp(p, count), Clamp(q, count);
    // the clamp is non-decreasing and moves by at most what its argument moves
    assert cp <= cq;
    assert cq - cp <= q - p;
  }

  /** Dragging the finger left from a resting state moves the carousel to later items, and right to earlier ones. */
  lemma DragDirection(s: State, translation: real, w: Width, count: nat)
    requires count >= 1 && ValidSnap(s, count)
    ensures translation < 0.0 ==> DragChanged(s, translation, w, count).dragging > s.snapped
    ensures translation > 0.0 ==> DragChanged(s, translation, w, count).dragging < s.snapped
    ensures translation == 0.0 ==> DragChanged(s, translation, w, count).dragging == s.snapped
  {
    var p := DragProposal(s.snapped, translation, w);
    assert RubberBand(s.snapped, count) == s.snapped;
    if p < s.snapped {
      RubberBandIncreasing(p, s.snapped, count);
    } else if p > s.snapped {
      RubberBandIncreasing(s.snapped, p, count);
    }
  }

  // ---------------------------------------------------------------------------
  // Drag ended

  /**
    `onEnded`: the predicted end of the gesture proposes an index, which is
    rounded and clamped to the list; both indices settle there.
   */
  function DragEnded(s: State, predictedEnd: real, w: Width, count: nat): (r: State)
    ensures r.snapped == r.dragging && r.initialized == s.initialized
    ensures ValidSnap(r, count)
    ensures count >= 1 ==> 0.0 <= r.snapped <= LastIndex(count)
    ensures count == 0 ==> r.snapped == 0.0
    ensures var k := Round(DragProposal(s.snapped, predictedEnd, w));
            && (0.0 <= k as real <= LastIndex(count) ==> r.snapped == k as real)
            && (k < 0 ==> r.snapped == 0.0)
            && (count >= 1 && k as real > LastIndex(count) ==> r.snapped == LastIndex(count))
  {
    var k := Clamp(Round(DragProposal(s.snapped, predictedEnd, w)) as real, count);
    State(k, k, s.initialized)
  }

  /**
    For a non-empty list, rounding and clamping a proposed index yields an
    item whose index is nearest to the proposal among all items of the list.
   */
  lemma {:induction false} SettleIsNearest(p: real, count: nat, j: int)
    requires count >= 1 && 0 <= j < count
    ensures Abs(Clamp(Round(p) as real, count) - p) <= Abs(j as real - p)
  {
    var k := Round(p);
    var kr := k as real;
    var jr := j as real;
    var last := LastIndex(count);
    var r := Clamp(kr, count);
    assert RoundsTo(p, k);
    assert kr - 0.5 <= p <= kr + 0.5;
    if 0.0 <= kr <= last {
      assert r == kr;
      // every other whole number is at least half an item from p
      if j < k {
        assert jr <= kr - 1.0;
        assert Abs(jr - p) == p - jr;
      } else if j > k {
        assert jr >= kr + 1.0;
        assert Abs(jr - p) == jr - p;
      }
    } else if k < 0 {
      assert r == 0.0;
      assert kr <= -1.0;
      assert Abs(r - p) == -p;
      assert Abs(jr - p) == jr - p;
    } else {
      assert r == last;
      assert k > count - 1;
      assert kr >= last + 1.0;
      assert Abs(r - p) == p - last;
      assert Abs(jr - p) == p - jr;
    }
  }

  /** Ending a drag settles on the item nearest to the index the gesture's predicted end proposes. */
  lemma DragEndedSnapsToNearest(s: State, predictedEnd: real, w: Width, count: nat, j: int)
    requires count >= 1 && 0 <= j < count
    ensures var p := DragProposal(s.snapped, predictedEnd, w);
            Abs(DragEnded(s, predictedEnd, w, count).snapped - p) <= Abs(j as real - p)
  {
    SettleIsNearest(DragProposal(s.snapped, predictedEnd, w), count, j);
  }

  /** Releasing a resting carousel without motion leaves it where it is. */
  lemma DragEndedAtRest(s: State, w: Width, count: nat)
    requires ValidSnap(s, count)
    ensures DragEnded(s, 0.0, w, count) == s.(dragging := s.snapped)
  {
    var n := s.snapped.Floor;
    assert n as real == s.snapped;
    RoundOfIntegral(n);
  }

  /**
    Three items: the carousel opens on item 1; from there a release whose
    predicted end proposes 1.6 lands on item 2, and one proposing -0.4 lands
    on item 0.
   */
  lemma ThreeItemExample(w: Width)
    ensures Appear(Initial, 3).snapped == 1.0
    ensures DragEnded(Appear(Initial, 3), -0.6 * EffectiveSpacing(w), w, 3).snapped == 2.0
    ensures DragEnded(Appear(Initial, 3), 1.4 * EffectiveSpacing(w), w, 3).snapped == 0.0
  {
    var e := EffectiveSpacing(w);
    assert -(-0.6 * e) / e == 0.6;
    assert -(1.4 * e) / e == -1.4;
    assert DragProposal(1.0, -0.6 * e, w) == 1.6;
    assert DragProposal(1.0, 1.4 * e, w) == -0.4;
  }

  // ---------------------------------------------------------------------------
  // The resting invariant

  lemma AppearKeepsValidSnap(s: State, count: nat)
    requires ValidSnap(s, count)
    ensures ValidSnap(Appear(s, count), count)
  {
    if !s.initialized && count > 0 {
      assert ((count / 2) as real).Floor == count / 2;
    }
  }

  lemma DragChangedKeepsValidSnap(s: State, translation: real, w: Width, count: nat)
    requires ValidSnap(s, count)
    ensures ValidSnap(DragChanged(s, translation, w, count), count)
  {
  }
}
