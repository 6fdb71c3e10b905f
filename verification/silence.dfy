/** The search for the closest silence (or speech) around a byte position. The test
    "this position has potential human speech", which reads an FFT buffer from BASS
    and counts loud bins, is the oracle `speech`. */
module Silence {

  /** 20 steps of 10 milliseconds: a fifth of a second in either direction. */
  const NumberOfSteps: nat := 20

  /** The position probed at step `i`, walking back from `pos` or forward. */
  function SamplePosition(pos: int, increment: int, backward: bool, i: nat): int
  {
    if backward then pos - i * increment else pos + i * increment
  }

  /** What the walk looks for: silence when walking back, speech when walking forward. */
  predicate Matches(speech: int -> bool, backward: bool, p: int)
  {
    if backward then !speech(p) else speech(p)
  }

  /** How many of the first `n` probed positions match. */
  function MatchCount(speech: int -> bool, pos: int, increment: int, backward: bool, n: nat): (c: nat)
    ensures c <= n
  {
    if n == 0 then 0
    else MatchCount(speech, pos, increment, backward, n - 1)
         + (if Matches(speech, backward, SamplePosition(pos, increment, backward, n - 1)) then 1 else 0)
  }

  lemma {:induction false} MatchCountGrows(speech: int -> bool, pos: int, increment: int, backward: bool, m: nat, n: nat)
    requires m <= n
    ensures MatchCount(speech, pos, increment, backward, m) <= MatchCount(speech, pos, increment, backward, n)
    decreases n
  {
    if m < n {
      MatchCountGrows(speech, pos, increment, backward, m, n - 1);
    }
  }

  /** The position counts as being on speech when at least two of the three positions
      `pos - increment`, `pos`, `pos + increment` have speech. */
  predicate OnSpeech(speech: int -> bool, pos: int, increment: int)
  {
    (if speech(pos - increment) then 1 else 0) + (if speech(pos) then 1 else 0)
    + (if speech(pos + increment) then 1 else 0) >= 2
  }

  /** GetPositionOfClosestSilence. On speech it walks back looking for silence, otherwise
      forward looking for speech. The count of matching positions is never reset: at the
      step `i` where the third match is seen it returns the position probed at step
      `i - 1`; with fewer than three matches in all the steps it returns `pos`. */
  method GetPositionOfClosestSilence(speech: int -> bool, pos: int, increment: int) returns (r: int)
    ensures var backward := OnSpeech(speech, pos, increment);
            MatchCount(speech, pos, increment, backward, NumberOfSteps) < 3 ==> r == pos
    ensures var backward := OnSpeech(speech, pos, increment);
            MatchCount(speech, pos, increment, backward, NumberOfSteps) >= 3 ==>
              exists i :: 2 <= i < NumberOfSteps
                          && MatchCount(speech, pos, increment, backward, i) == 2
                          && MatchCount(speech, pos, increment, backward, i + 1) == 3
                          && r == SamplePosition(pos, increment, backward, i - 1)
  {
    var currentlyOnSpeechCounter := (if speech(pos - increment) then 1 else 0)
      + (if speech(pos) then 1 else 0) + (if speech(pos + increment) then 1 else 0);
    var currentlyOnSpeech := currentlyOnSpeechCounter >= 2;
    var lastNonHit := pos;
    var consecutiveHits := 0;
    for i := 0 to NumberOfSteps
      invariant consecutiveHits == MatchCount(speech, pos, increment, currentlyOnSpeech, i)
      invariant consecutiveHits < 3
      invariant lastNonHit == if i == 0 then pos else SamplePosition(pos, increment, currentlyOnSpeech, i - 1)
    {
      var currentPos := if currentlyOnSpeech then pos - i * increment else pos + i * increment;
      var hit := if currentlyOnSpeech then !speech(currentPos) else speech(currentPos);
      if hit {
        consecutiveHits := consecutiveHits + 1;
        if consecutiveHits == 3 {
          MatchCountGrows(speech, pos, increment, currentlyOnSpeech, i + 1, NumberOfSteps);
          assert MatchCount(speech, pos, increment, currentlyOnSpeech, i) == 2;
          return lastNonHit;
        }
      }
      lastNonHit := currentPos;
    }
    r := pos;
  }
}
