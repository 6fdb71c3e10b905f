/** Interval: a byte range `[Start, End)` whose setters keep `Start < End`. */
module Intervals {

  /** The value of an interval at one moment: what Length, IsOverlapping and
      GetDistanceFromOverlap read. */
  datatype Span = Span(start: int, end: int) {

    function Length(): int { end - start }

    /** Half-open overlap. */
    predicate IsOverlapping(other: Span) {
      start < other.end && other.start < end
    }

    /** `[Start - point, point - End]`. */
    function DistanceFromOverlap(point: int): (int, int) {
      (start - point, point - end)
    }
  }

  /** IsOverlapping does not depend on the order of its operands. */
  lemma OverlapSymmetric(a: Span, b: Span)
    ensures a.IsOverlapping(b) <==> b.IsOverlapping(a)
  {
  }

  /** The zero-width interval `[p, p)` (the clicked byte) overlaps exactly when `p` lies
      strictly inside. */
  lemma ZeroWidthOverlap(a: Span, p: int)
    ensures a.IsOverlapping(Span(p, p)) <==> a.start < p < a.end
  {
  }

  /** Both distances are at most zero exactly when the point lies in `[Start, End]`,
      and they add up to minus the length. */
  lemma DistanceFromOverlapMeaning(a: Span, p: int)
    ensures var (toStart, toEnd) := a.DistanceFromOverlap(p);
            (toStart <= 0 && toEnd <= 0 <==> a.start <= p <= a.end)
            && toStart + toEnd == -a.Length()
  {
  }

  class Interval {
    var start: int
    var end: int

    /** The constructor stores both ends as given: no clamping, no order check. */
    constructor(start: int, end: int)
      ensures this.start == start && this.end == end
    {
      this.start := start;
      this.end := end;
    }

    function Value(): (s: Span)
      reads this
      ensures s.start == start && s.end == end
    {
      Span(start, end)
    }

    /** Setting Start stores `min(End - 1, value)`: a value at or past End is pulled
        back to one byte before it, and End stays where it was. */
    method SetStart(value: int)
      modifies this
      ensures start == if value < old(end) then value else old(end) - 1
      ensures end == old(end)
      ensures Value().Length() >= 1
    {
      start := if end - 1 <= value then end - 1 else value;
    }

    /** Setting End stores `max(Start + 1, value)`: a value at or before Start is pushed
        to one byte after it, and Start stays where it was. */
    method SetEnd(value: int)
      modifies this
      ensures end == if value > old(start) then value else old(start) + 1
      ensures start == old(start)
      ensures Value().Length() >= 1
    {
      end := if start + 1 >= value then start + 1 else value;
    }
  }
}
