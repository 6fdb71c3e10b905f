/** Integer rules of the control itself: snapping a byte position to the pixel grid,
    the clamps of the repeat settings and the play position read from BASS. */
module ControlRules {
  import opened Common

  /** Truncation of a double toward zero (what C#'s `%` on doubles divides by). */
  function Trunc(x: real): (t: int)
    ensures x >= 0.0 ==> t as real <= x < t as real + 1.0
    ensures x < 0.0 ==> t as real - 1.0 < x <= t as real
  {
    if x >= 0.0 then x.Floor else -((-x).Floor)
  }

  /** C#'s `%` on doubles: the remainder has the sign of the dividend. */
  function DoubleRem(x: real, y: real): real
    requires y != 0.0
  {
    x - y * (Trunc(x / y) as real)
  }

  /** Normalize: a byte position snapped toward zero to a multiple of the bytes per
      pixel (`floor(value - value % bytesPerPixel)`). The result is a multiple of
      `bytesPerPixel` less than one pixel away from `value`, never further from zero. */
  function Normalize(value: real, bytesPerPixel: int): (r: int)
    requires bytesPerPixel > 0
    ensures r % bytesPerPixel == 0
    ensures value >= 0.0 ==> r >= 0 && r as real <= value < r as real + bytesPerPixel as real
    ensures value < 0.0 ==> r <= 0 && r as real - bytesPerPixel as real < value <= r as real
  {
    var b := bytesPerPixel as real;
    var t := Trunc(value / b);
    var modulusValue := value - DoubleRem(value, b);
    ScaleWindow(value, b, t);
    assert modulusValue == (t * bytesPerPixel) as real;
    assert (t * bytesPerPixel) % bytesPerPixel == 0 by {
      MultipleRem(t, bytesPerPixel);
    }
    modulusValue.Floor
  }

  /** Multiplying the window `t <= value / b < t + 1` (or its mirror image below zero)
      by `b`. */
  lemma ScaleWindow(value: real, b: real, t: int)
    requires b > 0.0 && t == Trunc(value / b)
    ensures value >= 0.0 ==> t >= 0 && t as real * b <= value < t as real * b + b
    ensures value < 0.0 ==> t <= 0 && t as real * b - b < value <= t as real * b
  {
    var x := value / b;
    assert value == x * b;
    if value >= 0.0 {
      assert x >= 0.0;
      WindowAbove(value, x, b, t as real);
    } else {
      assert x < 0.0;
      WindowBelow(value, x, b, t as real);
    }
  }

  lemma WindowAbove(value: real, x: real, b: real, tr: real)
    requires b > 0.0 && value == x * b && tr <= x < tr + 1.0
    ensures tr * b <= value < tr * b + b
  {
    var d := x - tr;
    ScaleFraction(d, b);
    Distribute(x, tr, b);
    Between(value, d * b, x * b, tr * b, b);
  }

  lemma WindowBelow(value: real, x: real, b: real, tr: real)
    requires b > 0.0 && value == x * b && tr - 1.0 < x <= tr
    ensures tr * b - b < value <= tr * b
  {
    var d := tr - x;
    ScaleFraction(d, b);
    Distribute(tr, x, b);
    Between(-value, d * b, tr * b, x * b, b);
  }

  lemma Distribute(x: real, y: real, b: real)
    ensures (x - y) * b == x * b - y * b
  {
  }

  /** The linear step of ScaleWindow, kept apart from the products it is applied to. */
  lemma Between(v: real, p: real, px: real, py: real, b: real)
    requires p == px - py
    requires px == v || py == -v
    requires 0.0 <= p < b
    ensures px == v ==> py <= v < py + b
    ensures py == -v ==> px - b < -v <= px
  {
  }

  lemma ScaleFraction(d: real, b: real)
    requires 0.0 <= d < 1.0 && b > 0.0
    ensures 0.0 <= d * b < b
  {
    assert b - d * b == (1.0 - d) * b;
  }

  lemma MultipleRem(t: int, b: int)
    requires b > 0
    ensures (t * b) % b == 0
  {
    var q, m := (t * b) / b, (t * b) % b;
    assert t * b == q * b + m;
    assert (t - q) * b == m;
    SmallMultipleIsZero(t - q, b);
  }

  /** Two multiples of `b` less than `b` apart are equal. */
  lemma MultiplesApart(r1: int, q1: int, r2: int, q2: int, b: int)
    requires b > 0 && r1 == b * q1 && r2 == b * q2 && r1 - b < r2 < r1 + b
    ensures r1 == r2
  {
    assert r1 - r2 == (q1 - q2) * b;
    SmallMultipleIsZero(q1 - q2, b);
  }

  /** Normalizing a position that is already on the grid leaves it unchanged. */
  lemma NormalizeIdempotent(value: real, bytesPerPixel: int)
    requires bytesPerPixel > 0
    ensures Normalize(Normalize(value, bytesPerPixel) as real, bytesPerPixel) == Normalize(value, bytesPerPixel)
  {
    var r := Normalize(value, bytesPerPixel);
    var r2 := Normalize(r as real, bytesPerPixel);
    assert r == bytesPerPixel * (r / bytesPerPixel);
    assert r2 == bytesPerPixel * (r2 / bytesPerPixel);
    MultiplesApart(r, r / bytesPerPixel, r2, r2 / bytesPerPixel, bytesPerPixel);
  }

  /** On a whole byte position, Normalize is `v - v % bytesPerPixel` with C#'s
      truncating remainder. */
  lemma NormalizeOfWholePosition(v: int, bytesPerPixel: int)
    requires bytesPerPixel > 0
    ensures Normalize(v as real, bytesPerPixel) == v - Rem(v, bytesPerPixel)
  {
    var r, s := Normalize(v as real, bytesPerPixel), v - Rem(v, bytesPerPixel);
    assert s == bytesPerPixel * Quot(v, bytesPerPixel);
    assert r == bytesPerPixel * (r / bytesPerPixel);
    MultiplesApart(r, r / bytesPerPixel, s, Quot(v, bytesPerPixel), bytesPerPixel);
  }

  /** What `_zoomRatio` holds after GetZoomRatio: a ratio that is not positive is
      replaced, once a stream is open, by ZoomSeconds over the stream's duration in
      seconds; otherwise it is kept. */
  function CachedZoomRatio(zoomRatio: real, bytesTotal: int, zoomSeconds: real, secondsTotal: real): (r: real)
    requires bytesTotal > 0 ==> secondsTotal != 0.0
    ensures zoomRatio > 0.0 || bytesTotal <= 0 ==> r == zoomRatio
    ensures zoomRatio <= 0.0 && bytesTotal > 0 ==> r * secondsTotal == zoomSeconds
  {
    if zoomRatio <= 0.0 && bytesTotal > 0 then zoomSeconds / secondsTotal else zoomRatio
  }

  /** What GetZoomRatio returns: 1 while no stream is open and no ratio is cached,
      otherwise the cached ratio. */
  function ZoomRatio(zoomRatio: real, bytesTotal: int, zoomSeconds: real, secondsTotal: real): (r: real)
    requires bytesTotal > 0 ==> secondsTotal != 0.0
    ensures zoomRatio > 0.0 ==> r == zoomRatio
    ensures zoomRatio <= 0.0 && bytesTotal <= 0 ==> r == 1.0
    ensures zoomRatio <= 0.0 && bytesTotal > 0 ==> r * secondsTotal == zoomSeconds
  {
    if zoomRatio <= 0.0 && bytesTotal <= 0 then 1.0
    else CachedZoomRatio(zoomRatio, bytesTotal, zoomSeconds, secondsTotal)
  }

  /** A second lookup changes nothing: the cached ratio stays cached and the same ratio
      is returned. */
  lemma ZoomRatioStable(zoomRatio: real, bytesTotal: int, zoomSeconds: real, secondsTotal: real)
    requires bytesTotal > 0 ==> secondsTotal != 0.0
    ensures var cached := CachedZoomRatio(zoomRatio, bytesTotal, zoomSeconds, secondsTotal);
            CachedZoomRatio(cached, bytesTotal, zoomSeconds, secondsTotal) == cached
            && ZoomRatio(cached, bytesTotal, zoomSeconds, secondsTotal)
               == ZoomRatio(zoomRatio, bytesTotal, zoomSeconds, secondsTotal)
  {
  }

  /** GetCurrentViewPortDistance: the stream length scaled by the zoom ratio, floored. */
  function ViewPortDistance(bytesTotal: int, ratio: real): (d: int)
    ensures d as real <= bytesTotal as real * ratio < d as real + 1.0
    ensures 0.0 <= ratio <= 1.0 && bytesTotal >= 0 ==> 0 <= d <= bytesTotal
  {
    var x := bytesTotal as real * ratio;
    ScaledFloor(bytesTotal, ratio, x);
    x.Floor
  }

  /** The floor of a length scaled by a ratio in `[0, 1]` lies between 0 and the length. */
  lemma ScaledFloor(b: int, ratio: real, x: real)
    requires x == b as real * ratio
    ensures 0.0 <= ratio <= 1.0 && b >= 0 ==> 0 <= x.Floor <= b
  {
    if 0.0 <= ratio <= 1.0 && b >= 0 {
      ScaleBelow(b as real, ratio);
      FloorBetween(x, b);
    }
  }

  lemma FloorBetween(x: real, b: int)
    requires 0.0 <= x <= b as real
    ensures 0 <= x.Floor <= b
  {
  }

  lemma ScaleBelow(b: real, ratio: real)
    requires b >= 0.0 && 0.0 <= ratio <= 1.0
    ensures 0.0 <= b * ratio <= b
  {
    assert b - b * ratio == b * (1.0 - ratio);
  }

  /** The bound of the repeat length and of the repeat pause, in seconds. */
  const RepeatMaximum: real := 20.0

  /** `Math.Max(lo, Math.Min(hi, value))`: never below `lo`, and inside `[lo, hi]`
      whenever that range is not empty. */
  function Clamp(lo: real, hi: real, value: real): (r: real)
    ensures r >= lo
    ensures lo <= hi ==> r <= hi
    ensures lo <= value <= hi ==> r == value
    ensures value < lo ==> r == lo
    ensures lo <= hi < value ==> r == hi
  {
    var m := if hi <= value then hi else value;
    if m <= lo then lo else m
  }

  /** GetCurrentBytePosition: the play position BASS reports, or 0 when BASS reports
      an error (a negative value). */
  function GetCurrentBytePosition(channelPosition: int): (r: int)
    ensures r >= 0
    ensures channelPosition >= 0 ==> r == channelPosition
  {
    if channelPosition < 0 then 0 else channelPosition
  }
}
