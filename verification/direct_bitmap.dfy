/** DirectBitmap: a 32-bit-per-pixel image over a pinned byte buffer, four bytes per
    pixel, rows of `Width * 4` bytes one after the other. */
module Bitmaps {
  import opened Common

  /** GetStartOffset: the first of the four bytes of pixel `(x, y)`. */
  function StartOffset(width: int, x: int, y: int): int
  {
    x * 4 + width * 4 * y
  }

  /** The four bytes of an in-range pixel lie inside a buffer of
      `width * height * 4` bytes. */
  lemma {:induction false} OffsetInBuffer(width: int, height: int, x: int, y: int)
    requires 0 <= x < width && 0 <= y < height
    ensures 0 <= StartOffset(width, x, y)
    ensures StartOffset(width, x, y) + 3 < width * height * 4
  {
    MultiplyMonotone(width, y, height - 1);
    Regroup(width, height, y);
  }

  lemma MultiplyMonotone(a: int, b: int, c: int)
    requires a >= 0 && b <= c
    ensures a * b <= a * c
  {
    assert a * c - a * b == a * (c - b);
  }

  lemma Regroup(width: int, height: int, y: int)
    ensures width * 4 * y == 4 * (width * y)
    ensures width * height * 4 == 4 * (width * (height - 1)) + 4 * width
  {
  }

  /** Distinct in-range pixels start at distinct offsets, and every offset is a multiple
      of four. */
  lemma {:induction false} OffsetInjective(width: int, x1: int, y1: int, x2: int, y2: int)
    requires 0 <= x1 < width && 0 <= x2 < width && 0 <= y1 && 0 <= y2
    ensures StartOffset(width, x1, y1) % 4 == 0
    ensures StartOffset(width, x1, y1) == StartOffset(width, x2, y2) ==> x1 == x2 && y1 == y2
  {
    assert StartOffset(width, x1, y1) == 4 * (x1 + width * y1);
    if StartOffset(width, x1, y1) == StartOffset(width, x2, y2) {
      assert x1 + width * y1 == x2 + width * y2;
      assert x1 - x2 == (y2 - y1) * width;
      SmallMultipleIsZero(y2 - y1, width);
    }
  }

  class DirectBitmap {
    const width: int
    const height: int
    const bits: array<bv8>
    var disposed: bool

    /** The buffer holds exactly `width * height * 4` bytes, all zero. */
    constructor(width: int, height: int)
      requires width > 0 && height > 0
      ensures this.width == width && this.height == height
      ensures bits.Length == width * height * 4 && fresh(bits)
      ensures forall i :: 0 <= i < bits.Length ==> bits[i] == 0
      ensures !disposed
    {
      this.width := width;
      this.height := height;
      bits := new bv8[width * height * 4](_ => 0);
      disposed := false;
    }

    /** GetStartOffset on this bitmap's width. */
    function GetStartOffset(x: int, y: int): (r: int)
      requires bits.Length == width * height * 4
      ensures 0 <= x < width && 0 <= y < height ==> 0 <= r && r + 3 < bits.Length
    {
      if 0 <= x < width && 0 <= y < height then OffsetInBuffer(width, height, x, y); StartOffset(width, x, y)
      else StartOffset(width, x, y)
    }

    /** Dispose marks the bitmap disposed; a second call finds the flag set and does
        nothing. */
    method Dispose()
      modifies this
      ensures disposed
      ensures old(disposed) ==> unchanged(this)
    {
      if disposed {
        return;
      }
      disposed := true;
    }
  }
}
