/**
  The carousel over its whole life: the host delivers appear, drag-changed
  and drag-ended callbacks one at a time, in order, and each is applied to
  the state left by the previous one. The screen width comes with every
  drag callback because it is read from the layout pass that handles it.
 */
module Trace {
  import opened Numerics
  import opened Geometry
  import opened Carousel
  import opened Pagination

  datatype Event =
    | Appeared
    | DragMoved(translation: real, width: Width)
    | DragReleased(predictedEnd: real, width: Width)

  function Step(s: State, e: Event, count: nat): (r: State) {
    match e
    case Appeared => Appear(s, count)
    case DragMoved(t, w) => DragChanged(s, t, w, count)
    case DragReleased(t, w) => DragEnded(s, t, w, count)
  }

  function Run(s: State, events: seq<Event>, count: nat): (r: State)
    decreases |events|
  {
    if |events| == 0 then s else Run(Step(s, events[0], count), events[1..], count)
  }

  /**
    What holds of every state the view can be in: the resting index is a
    whole index of the list, and the carousel has only been centred if there
    was an item to centre on.
   */
  predicate Invariant(s: State, count: nat) {
    ValidSnap(s, count) && (s.initialized ==> count >= 1)
  }

  lemma StepKeepsInvariant(s: State, e: Event, count: nat)
    requires Invariant(s, count)
    ensures Invariant(Step(s, e, count), count)
  {
    match e
    case Appeared => AppearKeepsValidSnap(s, count);
    case DragMoved(t, w) => DragChangedKeepsValidSnap(s, t, w, count);
    case DragReleased(t, w) =>
  }

  lemma {:induction false} RunKeepsInvariant(s: State, events: seq<Event>, count: nat)
    requires Invariant(s, count)
    ensures Invariant(Run(s, events, count), count)
    decreases |events|
  {
    if |events| > 0 {
      StepKeepsInvariant(s, events[0], count);
      RunKeepsInvariant(Step(s, events[0], count), events[1..], count);
    }
  }

  /** Running two event sequences one after the other is running their concatenation. */
  lemma {:induction false} RunAppend(s: State, a: seq<Event>, b: seq<Event>, count: nat)
    ensures Run(s, a + b, count) == Run(Run(s, a, count), b, count)
    decreases |a|
  {
    if |a| > 0 {
      assert (a + b)[0] == a[0];
      assert (a + b)[1..] == a[1..] + b;
      RunAppend(Step(s, a[0], count), a[1..], b, count);
    } else {
      assert a + b == b;
    }
  }

  /** Whatever the host delivers, the resting index stays a whole index of the list. */
  lemma Reachable(events: seq<Event>, count: nat)
    ensures Invariant(Run(Initial, events, count), count)
  {
    RunKeepsInvariant(Initial, events, count);
  }

  /** After any drag ends, the carousel is at rest: both indices agree and name an item. */
  lemma ReleaseSettles(events: seq<Event>, predictedEnd: real, w: Width, count: nat)
    requires count >= 1
    ensures var s := Run(Initial, events + [DragReleased(predictedEnd, w)], count);
            && s.dragging == s.snapped
            && IsIntegral(s.snapped)
            && 0.0 <= s.snapped <= LastIndex(count)
  {
    RunAppend(Initial, events, [DragReleased(predictedEnd, w)], count);
  }

  /**
    In every reachable state of a non-empty carousel the pagination shows
    exactly one highlighted dot, and it is the dot of the resting item.
   */
  lemma ReachablePagination(events: seq<Event>, count: nat)
    requires count >= 1
    ensures var s := Run(Initial, events, count);
            var i := CurrentIndex(s.snapped);
            && i as real == s.snapped
            && 0 <= i < count
            && Round(s.snapped) == i
            && ActiveCount(Dots(i, count)) == 1
            && Dots(i, count)[i]
  {
    var s := Run(Initial, events, count);
    Reachable(events, count);
    RoundOfIntegral(CurrentIndex(s.snapped));
    ActiveDotCount(CurrentIndex(s.snapped), count);
  }

  /** The host's event loop: applies the callbacks in order to the view's initial state. */
  method Replay(events: seq<Event>, count: nat) returns (s: State)
    ensures s == Run(Initial, events, count)
    ensures Invariant(s, count)
  {
    s := Initial;
    var i := 0;
    while i < |events|
      invariant 0 <= i <= |events|
      invariant Run(s, events[i..], count) == Run(Initial, events, count)
      invariant Invariant(s, count)
    {
      StepKeepsInvariant(s, events[i], count);
      assert events[i..][1..] == events[i + 1..];
      s := Step(s, events[i], count);
      i := i + 1;
    }
  }
}
