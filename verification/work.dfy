/** A byte range of work for the spectrogram (`Work` in the control). */
module Works {

  /** `from`/`to` are the two longs of the range; `hasBitmap` says whether a rendered
      DirectBitmap has been attached to it. Nothing orders `from` and `to`. */
  datatype Work = Work(from: int, to: int, hasBitmap: bool) {

    predicate IsSame(other: Work) {
      from == other.from && to == other.to
    }

    predicate IsOverlapping(other: Work) {
      from < other.to && other.from < to
    }

    predicate IsLaterThan(other: Work) {
      from > other.to
    }

    predicate IsEarlierThan(other: Work) {
      to < other.from
    }

    predicate IsStartingBefore(other: Work) {
      from < other.from
    }

    predicate IsEndingAfter(other: Work) {
      to > other.to
    }

    function Length(): int {
      to - from
    }
  }

  /** The constructor `new Work(from, to)`: the bounds are stored as given and no
      bitmap is attached yet. */
  function NewWork(from: int, to: int): (w: Work)
    ensures w.from == from && w.to == to && !w.hasBitmap
  {
    Work(from, to, false)
  }

  /** Overlap is symmetric. */
  lemma OverlapSymmetric(a: Work, b: Work)
    ensures a.IsOverlapping(b) <==> b.IsOverlapping(a)
  {
  }

  /** The ranges are half-open: ranges that only touch do not overlap. */
  lemma TouchingDoesNotOverlap(a: Work, b: Work)
    requires a.to == b.from
    ensures !a.IsOverlapping(b) && !b.IsOverlapping(a)
  {
  }

  /** `a.IsEarlierThan(b)` is the same test as `b.IsLaterThan(a)`. */
  lemma EarlierIsConverseOfLater(a: Work, b: Work)
    ensures a.IsEarlierThan(b) <==> b.IsLaterThan(a)
  {
  }

  /** Overlapping ranges are never later than one another. */
  lemma OverlappingNeverLater(a: Work, b: Work)
    requires a.IsOverlapping(b)
    ensures !a.IsLaterThan(b) && !b.IsLaterThan(a)
  {
  }

  /** A range that neither starts before nor ends after `b` lies inside `b`'s bounds. */
  lemma NotBeforeNotAfterIsInside(a: Work, b: Work)
    requires !a.IsStartingBefore(b) && !a.IsEndingAfter(b)
    ensures b.from <= a.from && a.to <= b.to
  {
  }

  /** IsSame is an equivalence on the bounds, ignoring the bitmap. */
  lemma IsSameEquivalence(a: Work, b: Work, c: Work)
    ensures a.IsSame(a)
    ensures a.IsSame(b) ==> b.IsSame(a)
    ensures a.IsSame(b) && b.IsSame(c) ==> a.IsSame(c)
    ensures a.IsSame(b) <==> a.(hasBitmap := b.hasBitmap) == b
  {
  }
}
