/** FFT configuration of the spectrogram: the bin index of a frequency and the
    transform sizes selectable through BASS data flags. */
module Spectrum {
  import opened Common

  /** `Math.Round(n / d)` for `d > 0`: to the nearest integer, halves to the even one. */
  function RoundHalfEven(n: int, d: int): (r: int)
    requires d > 0
    ensures 2 * Abs(n - r * d) <= d
    ensures 2 * Abs(n - r * d) == d ==> r % 2 == 0
  {
    var q, m := n / d, n % d;
    assert n == q * d + m;
    assert n - (q + 1) * d == m - d;
    if 2 * m < d then q
    else if 2 * m > d then q + 1
    else if q % 2 == 0 then q
    else q + 1
  }

  /** Rounding is determined by its two properties: the nearest integer, and the even
      one of the two nearest when there is a tie. */
  lemma RoundHalfEvenUnique(n: int, d: int, r: int)
    requires d > 0
    requires 2 * Abs(n - r * d) <= d
    requires 2 * Abs(n - r * d) == d ==> r % 2 == 0
    ensures r == RoundHalfEven(n, d)
  {
    var s := RoundHalfEven(n, d);
    RoundingsAgree(n, d, r, s, n - r * d, n - s * d);
  }

  lemma RoundingsAgree(n: int, d: int, r: int, s: int, x: int, y: int)
    requires d > 0 && x == n - r * d && y == n - s * d
    requires 2 * Abs(x) <= d && (2 * Abs(x) == d ==> r % 2 == 0)
    requires 2 * Abs(y) <= d && (2 * Abs(y) == d ==> s % 2 == 0)
    ensures r == s
  {
    var k := s - r;
    DistributeDifference(s, r, d);
    assert k * d == x - y;
    if k >= 2 {
      ScaleAtLeastTwice(k, d);
    } else if k <= -2 {
      ScaleAtLeastTwice(-k, d);
    } else if k != 0 {
      ConsecutiveParity(r, s);
    }
  }

  lemma DistributeDifference(s: int, r: int, d: int)
    ensures (s - r) * d == s * d - r * d
  {
  }

  lemma ConsecutiveParity(r: int, s: int)
    requires s == r + 1 || s == r - 1
    ensures !(r % 2 == 0 && s % 2 == 0)
  {
  }

  lemma ScaleAtLeastTwice(k: int, d: int)
    requires k >= 2 && d > 0
    ensures k * d >= 2 * d
  {
    assert k * d == 2 * d + (k - 2) * d;
    assert (k - 2) * d >= 0;
  }

  /** FFTFrequency2Index: the bin of `frequency` in a transform of `length` samples
      at `sampleRate`, capped at the last bin of the first half, `length / 2 - 1`
      (C#'s truncating `/`). The product is taken exactly, not as a double. */
  function FFTFrequency2Index(frequency: int, length: int, sampleRate: int): (r: int)
    requires sampleRate > 0
    ensures r <= Quot(length, 2) - 1
    ensures r <= RoundHalfEven(length * frequency, sampleRate)
    ensures r == Quot(length, 2) - 1 || r == RoundHalfEven(length * frequency, sampleRate)
  {
    var bin := RoundHalfEven(length * frequency, sampleRate);
    var lengthMidpoint := Quot(length, 2) - 1;
    if bin > lengthMidpoint then lengthMidpoint else bin
  }

  /** With the control's constants (a 4096-sample transform at 44100 Hz) the default
      frequency range of 2000 Hz lands in bin 186 (8192000 / 44100 = 185.76...). */
  lemma DefaultFrequencyBin()
    ensures FFTFrequency2Index(2000, 4096, 44100) == 186
  {
    RoundHalfEvenUnique(4096 * 2000, 44100, 186);
  }

  /** The BASS data flags the control passes to SetMaxFFT; any other flag value is
      `OtherFlag`. */
  datatype DataFlag = FFT512 | FFT1024 | FFT2048 | FFT4096 | FFT8192 | OtherFlag(code: int)

  /** The number of samples of the transform a supported flag selects. */
  function TransformSize(flag: DataFlag): nat
  {
    match flag
    case FFT512 => 512
    case FFT1024 => 1024
    case FFT2048 => 2048
    case FFT4096 => 4096
    case FFT8192 => 8192
    case OtherFlag(_) => 0
  }
}
