/** The speaker text style: which lines of a transcript mark a speaker, which speaker a
    switch line ("-...") stands for, and the colour each speaker is painted in. */
module Speaker {
  import opened Common

  /** A styled segment of a line: where it starts, how long it is, and the speaker
      index it carries (`Object`). */
  datatype Segment = Segment(index: int, length: int, obj: int)

  predicate IsDigit(c: char)
  {
    '0' <= c <= '9'
  }

  /** `^\d:` on ASCII digits. */
  predicate IsManual(line: string)
  {
    |line| >= 2 && IsDigit(line[0]) && line[1] == ':'
  }

  /** `^-[^\-]`: a dash followed by any character but a dash. */
  predicate IsSwitch(line: string)
  {
    |line| >= 2 && line[0] == '-' && line[1] != '-'
  }

  /** The shape of `\[(\d\d:\d\d:\d\d,\d\d\d) -> (\d\d:\d\d:\d\d,\d\d\d)\]`, with `d`
      standing for a digit. */
  const TimestampShape: string := "[dd:dd:dd,ddd -> dd:dd:dd,ddd]"

  /** The timestamp pattern matches at position `p` of `line`. */
  predicate TimestampAt(line: string, p: nat)
  {
    p + |TimestampShape| <= |line|
    && forall k :: 0 <= k < |TimestampShape| ==>
         if TimestampShape[k] == 'd' then IsDigit(line[p + k]) else line[p + k] == TimestampShape[k]
  }

  /** The leftmost position at or after `p` where the timestamp pattern matches. */
  function FirstTimestampFrom(line: string, p: nat): (r: Option<nat>)
    requires p <= |line|
    ensures r.Some? ==> p <= r.value && TimestampAt(line, r.value)
                        && forall q :: p <= q < r.value ==> !TimestampAt(line, q)
    ensures r.None? ==> forall q :: p <= q ==> !TimestampAt(line, q)
    decreases |line| - p
  {
    if p == |line| then None
    else if TimestampAt(line, p) then Some(p)
    else FirstTimestampFrom(line, p + 1)
  }

  /** The optional third group `(-?)` of the first timestamp match is not empty: the
      first match is directly followed by a dash. */
  predicate FirstTimestampThenDash(line: string)
  {
    match FirstTimestampFrom(line, 0)
    case None => false
    case Some(p) => p + |TimestampShape| < |line| && line[p + |TimestampShape|] == '-'
  }

  /** FindStyledTextSegment for one line, given how many speaker styles already start at
      the line's first character:
      - a line already styled yields nothing;
      - `d:` yields a one-character segment carrying the digit's value;
      - a dash followed by anything but a dash yields a one-character segment carrying
        -1 (a switch of speaker);
      - a line starting with `[` whose first timestamp is followed by a dash yields a
        whole-line segment carrying -2;
      - every other line yields nothing. */
  function FindStyledTextSegment(styleCount: int, line: string): (r: Option<Segment>)
    ensures styleCount > 0 ==> r == None
    ensures r.Some? ==> r.value.index == 0 && -2 <= r.value.obj <= 9
    ensures (r.Some? && r.value.obj >= 0) <==> styleCount <= 0 && IsManual(line)
    ensures r.Some? && r.value.obj >= 0 ==>
              r.value.length == 1 && r.value.obj == line[0] as int - '0' as int
    ensures (r.Some? && r.value.obj == -1) <==> styleCount <= 0 && IsSwitch(line)
    ensures r.Some? && r.value.obj == -1 ==> r.value.length == 1
    ensures (r.Some? && r.value.obj == -2) <==>
              styleCount <= 0 && !IsManual(line) && !IsSwitch(line)
              && |line| > 0 && line[0] == '[' && FirstTimestampThenDash(line)
    ensures r.Some? && r.value.obj == -2 ==> r.value.length == |line|
  {
    if styleCount > 0 then None
    else
      var isManual := IsManual(line);
      var isSwitch := IsSwitch(line);
      if isManual || isSwitch then
        Some(Segment(0, 1, if isManual then line[0] as int - '0' as int else -1))
      else if |line| > 0 && line[0] == '[' then
        if FirstTimestampThenDash(line) then Some(Segment(0, |line|, -2)) else None
      else None
  }

  /** A lone dash, or a line starting with two dashes, is not a switch line. */
  lemma DashesAreNotSwitches(rest: string)
    ensures FindStyledTextSegment(0, "-") == None
    ensures FindStyledTextSegment(0, "--" + rest) == None
  {
    assert !IsSwitch("--" + rest) && !IsManual("--" + rest) && ("--" + rest)[0] != '[';
  }

  /** A subtitle timestamp directly followed by a dash marks the whole line; the
      same line without the dash yields nothing. */
  lemma TimestampLineExample()
    ensures FindStyledTextSegment(0, "[00:00:01,000 -> 00:00:02,500]-Hi")
            == Some(Segment(0, 33, -2))
    ensures FindStyledTextSegment(0, "[00:00:01,000 -> 00:00:02,500] Hi") == None
  {
    var withDash := "[00:00:01,000 -> 00:00:02,500]-Hi";
    var withoutDash := "[00:00:01,000 -> 00:00:02,500] Hi";
    assert TimestampAt(withDash, 0);
    assert TimestampAt(withoutDash, 0);
    assert FirstTimestampFrom(withDash, 0) == Some(0);
    assert FirstTimestampFrom(withoutDash, 0) == Some(0);
  }

  /** The speaker a switch turns to: the second after the first, the first after any
      other. */
  function Toggle(index: int): (r: int)
    ensures r == 1 || r == 2
    ensures r == 2 <==> index == 1
  {
    if index == 1 then 2 else 1
  }

  /** The walk of Paint over all speaker segments of the document, in order, from the
      running index `index`: a switch toggles it, any other segment replaces it, and the
      walk ends after the painted segment itself, the one at position `selfAt`. */
  function SpeakerWalk(index: int, objects: seq<int>, selfAt: int): int
    decreases |objects|
  {
    if objects == [] then index
    else
      var next := if objects[0] == -1 then Toggle(index) else objects[0];
      if selfAt == 0 then next else SpeakerWalk(next, objects[1..], selfAt - 1)
  }

  /** A switch segment that is in the list is painted as speaker 1 or speaker 2. */
  lemma {:induction false} SwitchIsFirstOrSecondSpeaker(index: int, objects: seq<int>, selfAt: int)
    requires 0 <= selfAt < |objects| && objects[selfAt] == -1
    ensures var r := SpeakerWalk(index, objects, selfAt); r == 1 || r == 2
    decreases |objects|
  {
    if selfAt > 0 {
      var next := if objects[0] == -1 then Toggle(index) else objects[0];
      assert objects[1..][selfAt - 1] == objects[selfAt];
      SwitchIsFirstOrSecondSpeaker(next, objects[1..], selfAt - 1);
    }
  }

  /** The speaker index Paint uses for a segment carrying `obj`: its own index, or for
      a switch (-1) the result of the walk over the document's segments. */
  method SpeakerIndex(obj: int, objects: seq<int>, selfAt: int) returns (index: int)
    ensures obj != -1 ==> index == obj
    ensures obj == -1 ==> index == SpeakerWalk(-1, objects, selfAt)
    ensures obj == -1 && 0 <= selfAt < |objects| && objects[selfAt] == -1 ==> index == 1 || index == 2
  {
    index := obj;
    if index == -1 {
      var i := 0;
      while i < |objects|
        invariant 0 <= i <= |objects|
        invariant i <= selfAt || selfAt < 0
        invariant SpeakerWalk(index, objects[i..], selfAt - i) == SpeakerWalk(-1, objects, selfAt)
      {
        var otherIndex := objects[i];
        assert objects[i..][0] == otherIndex && objects[i..][1..] == objects[i + 1..];
        if otherIndex == -1 {
          index := if index == 1 then 2 else 1;
        } else {
          index := otherIndex;
        }
        if i == selfAt {
          break;
        }
        i := i + 1;
      }
      if 0 <= selfAt < |objects| && objects[selfAt] == -1 {
        SwitchIsFirstOrSecondSpeaker(-1, objects, selfAt);
      }
    }
  }

  datatype Rgb = Rgb(r: int, g: int, b: int)

  const Grey: Rgb := Rgb(200, 200, 200)

  /** The colour a speaker index is painted in, and whether the line is filled. */
  function SpeakerColor(index: int): (c: (Rgb, bool))
    ensures c.1 <==> index == -2
    ensures c.0 == Grey <==> !(1 <= index <= 5 || index == -2)
  {
    match index
    case 1 => (Rgb(245, 245, 245), false)
    case 2 => (Rgb(242, 255, 22), false)
    case 3 => (Rgb(189, 189, 255), false)
    case 4 => (Rgb(178, 255, 159), false)
    case 5 => (Rgb(255, 189, 189), false)
    case -2 => (Rgb(255, 0, 0), true)
    case _ => (Grey, false)
  }

  /** The five speakers and the timestamp lines get six different colours. */
  lemma SpeakerColorsDistinct(i: int, j: int)
    requires 1 <= i <= 5 || i == -2
    requires 1 <= j <= 5 || j == -2
    requires i != j
    ensures SpeakerColor(i).0 != SpeakerColor(j).0
  {
  }
}
