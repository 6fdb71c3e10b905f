/** The integer rules of Render: which rendered tiles are drawn, the spacing of the
    time axis and its labels. */
module Paint {
  import opened Common
  import opened Works

  /** A tile is drawn when it has a bitmap and reaches into the viewport. */
  predicate Drawn(w: Work, viewPortStart: int, viewPortEnd: int)
  {
    w.hasBitmap && w.to >= viewPortStart && w.from <= viewPortEnd
  }

  /** The tile that ends the loop: one with a bitmap, not before the viewport, starting
      after its end. */
  predicate StopsAt(w: Work, viewPortStart: int, viewPortEnd: int)
  {
    w.hasBitmap && w.to >= viewPortStart && w.from > viewPortEnd
  }

  /** The tiles the loop draws, in index order. */
  function Visible(index: seq<Work>, viewPortStart: int, viewPortEnd: int): (r: seq<Work>)
    ensures |r| <= |index|
    ensures forall k :: 0 <= k < |r| ==> Drawn(r[k], viewPortStart, viewPortEnd)
  {
    if index == [] then []
    else if StopsAt(index[0], viewPortStart, viewPortEnd) then []
    else (if Drawn(index[0], viewPortStart, viewPortEnd) then [index[0]] else [])
         + Visible(index[1..], viewPortStart, viewPortEnd)
  }

  /** The tile loop of Render: entries without a bitmap and entries ending before the
      viewport are skipped, and the first bitmap-bearing entry starting after the
      viewport ends the loop. */
  method VisibleTiles(index: seq<Work>, viewPortStart: int, viewPortEnd: int) returns (drawn: seq<Work>)
    ensures drawn == Visible(index, viewPortStart, viewPortEnd)
  {
    drawn := [];
    var i := 0;
    while i < |index|
      invariant 0 <= i <= |index|
      invariant drawn + Visible(index[i..], viewPortStart, viewPortEnd) == Visible(index, viewPortStart, viewPortEnd)
    {
      var work := index[i];
      assert index[i..][0] == work && index[i..][1..] == index[i + 1..];
      if !work.hasBitmap {
        i := i + 1;
        continue;
      }
      if work.to < viewPortStart {
        i := i + 1;
        continue;
      }
      if work.from > viewPortEnd {
        break;
      }
      drawn := drawn + [work];
      i := i + 1;
    }
    assert drawn + Visible(index[i..], viewPortStart, viewPortEnd) == Visible(index, viewPortStart, viewPortEnd);
    assert i < |index| ==> Visible(index[i..], viewPortStart, viewPortEnd) == [];
  }

  /** Every tile the loop reaches that is Drawn is drawn: an entry that is Drawn, with
      no stopping entry up to it, appears in the result. */
  lemma {:induction false} VisibleComplete(index: seq<Work>, k: nat, viewPortStart: int, viewPortEnd: int)
    requires k < |index| && Drawn(index[k], viewPortStart, viewPortEnd)
    requires forall j :: 0 <= j <= k ==> !StopsAt(index[j], viewPortStart, viewPortEnd)
    ensures index[k] in Visible(index, viewPortStart, viewPortEnd)
  {
    if k > 0 {
      assert index[1..][k - 1] == index[k];
      assert forall j :: 0 <= j <= k - 1 ==> index[1..][j] == index[j + 1];
      VisibleComplete(index[1..], k - 1, viewPortStart, viewPortEnd);
    }
  }

  /** Nothing after the first stopping tile is drawn. */
  lemma {:induction false} VisibleStopsAtFirstLater(index: seq<Work>, k: nat, viewPortStart: int, viewPortEnd: int)
    requires k < |index| && StopsAt(index[k], viewPortStart, viewPortEnd)
    ensures Visible(index, viewPortStart, viewPortEnd) == Visible(index[..k], viewPortStart, viewPortEnd)
  {
    if k == 0 {
      assert index[..0] == [];
    } else {
      assert index[1..][k - 1] == index[k];
      VisibleStopsAtFirstLater(index[1..], k - 1, viewPortStart, viewPortEnd);
      assert index[1..][..k - 1] == index[..k][1..];
    }
  }

  /** An entry without a bitmap is never drawn and never stops the loop: inserting one
      anywhere draws the same tiles. */
  lemma {:induction false} BitmaplessEntryIsInvisible(index: seq<Work>, k: nat, w: Work, viewPortStart: int, viewPortEnd: int)
    requires k <= |index| && !w.hasBitmap
    ensures Visible(index[..k] + [w] + index[k..], viewPortStart, viewPortEnd) == Visible(index, viewPortStart, viewPortEnd)
  {
    var longer := index[..k] + [w] + index[k..];
    if k == 0 {
      assert longer[1..] == index;
    } else {
      assert longer[0] == index[0];
      assert longer[1..] == index[1..][..k - 1] + [w] + index[1..][k - 1..];
      BitmaplessEntryIsInvisible(index[1..], k - 1, w, viewPortStart, viewPortEnd);
    }
  }

  /** The multipliers of the 100 ms starting resolution, from one second to one hour. */
  const Multipliers: seq<int> := [10, 20, 50, 100, 150, 300, 600, 1200, 3000, 6000, 9000, 18000, 36000]

  /** The candidate resolutions in the order they are tried: 100 ms, then 100 ms times
      each multiplier. */
  function Candidate(k: nat): int
    requires k <= |Multipliers|
  {
    if k == 0 then 100 else 100 * Multipliers[k - 1]
  }

  /** The candidates grow strictly. */
  lemma CandidatesIncrease(j: nat, k: nat)
    requires j < k <= |Multipliers|
    ensures Candidate(j) < Candidate(k)
  {
  }

  /** The resolution loop: the first candidate at least as coarse as the preferred
      resolution, or one hour when none is. */
  method TickResolution(preferredResolution: real) returns (actualResolution: int)
    ensures exists k :: 0 <= k <= |Multipliers| && actualResolution == Candidate(k)
              && (forall j :: 0 <= j < k ==> (Candidate(j) as real) < preferredResolution)
              && (actualResolution as real >= preferredResolution || k == |Multipliers|)
    ensures 100 <= actualResolution <= 3600000
  {
    actualResolution := 100;
    var i := 0;
    while i < |Multipliers| && (actualResolution as real) < preferredResolution
      invariant 0 <= i <= |Multipliers|
      invariant actualResolution == Candidate(i)
      invariant forall j :: 0 <= j < i ==> (Candidate(j) as real) < preferredResolution
    {
      actualResolution := 100 * Multipliers[i];
      i := i + 1;
    }
    assert 100 <= Candidate(i) <= 3600000;
  }

  /** The first tick: the start moved toward zero to a multiple of the resolution, with
      C#'s truncating remainder. */
  function FirstTick(millisecondsStart: int, resolution: int): (t: int)
    requires resolution > 0
    ensures t == resolution * Quot(millisecondsStart, resolution)
    ensures millisecondsStart >= 0 ==> 0 <= millisecondsStart - t < resolution
    ensures millisecondsStart < 0 ==> 0 <= t - millisecondsStart < resolution
  {
    millisecondsStart - Rem(millisecondsStart, resolution)
  }

  /** The tick loop: ticks start at FirstTick, advance by exactly the resolution, all lie
      before the end, and the next one would not. */
  method Ticks(millisecondsStart: int, millisecondsEnd: int, resolution: int) returns (ticks: seq<int>)
    requires resolution > 0
    ensures forall k :: 0 <= k < |ticks| ==> ticks[k] == FirstTick(millisecondsStart, resolution) + k * resolution
    ensures forall k :: 0 <= k < |ticks| ==> ticks[k] < millisecondsEnd
    ensures FirstTick(millisecondsStart, resolution) + |ticks| * resolution >= millisecondsEnd
  {
    var first := FirstTick(millisecondsStart, resolution);
    var milliseconds := first;
    ticks := [];
    while milliseconds < millisecondsEnd
      invariant milliseconds == first + |ticks| * resolution
      invariant forall k :: 0 <= k < |ticks| ==> ticks[k] == first + k * resolution
      invariant forall k :: 0 <= k < |ticks| ==> ticks[k] < millisecondsEnd
      decreases millisecondsEnd - milliseconds
    {
      ticks := ticks + [milliseconds];
      milliseconds := milliseconds + resolution;
    }
  }

  /** The character of a decimal digit. */
  function DigitChar(d: int): (c: char)
    requires 0 <= d < 10
    ensures '0' <= c <= '9'
    ensures c == '0' <==> d == 0
  {
    "0123456789"[d]
  }

  /** The decimal text of a whole number, as C# writes a whole double below 10^15:
      no leading zero unless the number is zero. */
  function DecimalString(n: nat): (s: string)
    ensures 1 <= |s|
    ensures n >= 1 ==> s[0] != '0'
    ensures forall k :: 0 <= k < |s| ==> '0' <= s[k] <= '9'
  {
    if n < 10 then [DigitChar(n)] else DecimalString(n / 10) + [DigitChar(n % 10)]
  }

  /** Reading a string of decimal digits back as a number. */
  function ParseDecimal(s: string): nat
    requires forall k :: 0 <= k < |s| ==> '0' <= s[k] <= '9'
  {
    if s == [] then 0 else ParseDecimal(s[..|s| - 1]) * 10 + (s[|s| - 1] as int - '0' as int)
  }

  lemma DigitCharValue(d: int)
    requires 0 <= d < 10
    ensures DigitChar(d) as int - '0' as int == d
  {
  }

  /** DecimalString writes exactly the number it is given. */
  lemma {:induction false} ParseDecimalString(n: nat)
    ensures ParseDecimal(DecimalString(n)) == n
  {
    var s := DecimalString(n);
    if n < 10 {
      DigitCharValue(n);
      assert s[..0] == [];
    } else {
      DigitCharValue(n % 10);
      assert s[..|s| - 1] == DecimalString(n / 10);
      ParseDecimalString(n / 10);
    }
  }

  /** getTimeString: "00" below one, a zero and the single digit below ten, otherwise the
      whole part. Every result has at least two digits and reads back as the whole part
      of the number (as 0 below one). */
  function TimeString(number: real): (s: string)
    ensures 2 <= |s|
    ensures forall k :: 0 <= k < |s| ==> '0' <= s[k] <= '9'
    ensures number < 1.0 ==> s == "00"
    ensures 1.0 <= number < 10.0 ==> s[0] == '0' && |s| == 2
    ensures number >= 10.0 ==> s[0] != '0'
  {
    if number < 1.0 then "00"
    else if number < 10.0 then "0" + DecimalString(number.Floor)
    else DecimalString(number.Floor)
  }

  /** The partner of TimeString: the text reads back as the whole part of the number. */
  lemma {:induction false} TimeStringValue(number: real)
    ensures number >= 1.0 ==> ParseDecimal(TimeString(number)) == number.Floor
    ensures number < 1.0 ==> ParseDecimal(TimeString(number)) == 0
  {
    if number >= 10.0 {
      ParseDecimalString(number.Floor);
      assert 10 <= number.Floor;
      TwoDigitsAtLeast(number.Floor);
    } else if number >= 1.0 {
      var s := TimeString(number);
      assert s == ['0', DigitChar(number.Floor)];
      DigitCharValue(number.Floor);
      assert s[..1] == "0";
      ParseZero();
    } else {
      assert TimeString(number)[..1] == "0";
      ParseZero();
    }
  }

  lemma ParseZero()
    ensures ParseDecimal("0") == 0
  {
    assert "0"[..0] == [];
  }

  /** A number of ten or more has at least two digits. */
  lemma TwoDigitsAtLeast(n: nat)
    requires n >= 10
    ensures |DecimalString(n)| >= 2
  {
  }
}
