/**
  `PaginationDotsView`: one dot per item, the dot at `currentIndex` drawn
  highlighted. The carousel passes it `Int(snappedItem)` and the item count.
 */
module Pagination {
  import opened Numerics

  /** The index the carousel hands to the dots: the resting index with its fraction dropped. */
  function CurrentIndex(snapped: real): (r: int)
    ensures IsIntegral(snapped) ==> r as real == snapped
    ensures snapped >= 0.0 ==> 0 <= r && r as real <= snapped < r as real + 1.0
    ensures snapped <= 0.0 ==> r <= 0 && r as real - 1.0 < snapped <= r as real
  {
    Trunc(snapped)
  }

  /** The dots drawn for `ForEach(0..<total)`, `true` where the dot is highlighted. */
  function Dots(currentIndex: int, total: nat): (r: seq<bool>)
    ensures |r| == total
    ensures forall i :: 0 <= i < total ==> (r[i] <==> i == currentIndex)
  {
    seq(total, i => i == currentIndex)
  }

  /** The number of highlighted dots. */
  function ActiveCount(dots: seq<bool>): (n: nat)
  {
    if |dots| == 0 then 0
    else ActiveCount(dots[..|dots| - 1]) + (if dots[|dots| - 1] then 1 else 0)
  }

  /** Exactly one dot is highlighted when the index names an item, and none otherwise. */
  lemma {:induction false} ActiveDotCount(currentIndex: int, total: nat)
    ensures ActiveCount(Dots(currentIndex, total)) == if 0 <= currentIndex < total then 1 else 0
    decreases total
  {
    if total > 0 {
      assert Dots(currentIndex, total)[..total - 1] == Dots(currentIndex, total - 1);
      ActiveDotCount(currentIndex, total - 1);
    }
  }
}
