/** Small shared datatypes. */
module Common {

  /** A value that may be absent: stands for a nullable reference of the control. */
  datatype Option<+T> = None | Some(value: T)

  function Min(a: int, b: int): int { if a <= b then a else b }
  function Max(a: int, b: int): int { if a >= b then a else b }

  /** C#'s quotient `/` on integers for a positive divisor: it truncates toward zero. */
  function Quot(a: int, b: int): int
    requires b > 0
  {
    if a >= 0 then a / b else -((-a) / b)
  }

  /** C#'s `%` on integers for a positive divisor: the remainder takes the sign of the
      dividend, and dividend = divisor * quotient + remainder. */
  function Rem(a: int, b: int): (r: int)
    requires b > 0
    ensures a == b * Quot(a, b) + r
    ensures a >= 0 ==> 0 <= r < b
    ensures a < 0 ==> -b < r <= 0
  {
    if a >= 0 then a % b else -((-a) % b)
  }

  function Abs(a: int): (r: int)
    ensures r >= 0 && (r == a || r == -a)
  {
    if a < 0 then -a else a
  }

  /** The only multiple of `b` strictly between `-b` and `b` is zero. */
  lemma SmallMultipleIsZero(k: int, b: int)
    requires b > 0 && -b < k * b < b
    ensures k == 0
  {
    if k >= 1 {
      MultipleAtLeast(k, b);
    } else if k <= -1 {
      MultipleAtLeast(-k, b);
    }
  }

  lemma MultipleAtLeast(k: int, b: int)
    requires k >= 1 && b > 0
    ensures k * b >= b
  {
    assert k * b == (k - 1) * b + b;
  }
}
