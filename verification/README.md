# AudioVisualizer in Dafny

This is a model of the core of `Eliason.AudioVisualizer`, a WinForms control that
draws the spectrogram of an audio file as tiles. It also edits subtitle-like notes on
top of it and plays the audio through BASS.

What the model covers:

- **The tile-coverage engine.**
  - Requests for rendering a byte range wait in a FIFO queue.
  - A consumer takes the front request and runs `SplitAndMerge` on it.
    `SplitAndMerge` clips the request against the index of ranges already accepted,
    inserts the uncovered pieces into the index in place, and returns them for
    rendering.
  - `Works` models the `Work` range and its comparison predicates.
  - `WorkEngine.Walk` is the reference definition of the split-and-merge loop, branch
    by branch. `Visualizer.AudioVisualizer.SplitAndMerge` is the loop itself, changing
    the index in place, proved equal to it.
  - The model follows the code, not the idea of a gap-filler:
    - A request earlier than an entry is inserted and returned twice: the `break`
      falls through to the code after the loop.
    - A request clipped at its end is inserted twice.
    - A touching request is appended after the entry.
    - A negative range can be inserted.
    - `WorkEngineFacts` proves each of these on concrete indexes. What holds in
      general is that the step only inserts: the old entries keep their values and
      order, and every returned range lies inside the request.
- **The control's own state** (`Visualizer.AudioVisualizer`): the queue and the index,
  the FFT settings, the repeat settings with their clamps, zoom, open, resize and
  frequency-range changes, and the mouse-drag flags. Viewport bounds, byte distances
  and other values the control computes with doubles or BASS are parameters.
- **Pure rules:**
  - `Spectrum`: the FFT bin of a frequency, with round-half-to-even.
  - `Silence`: the search for the closest silence over a speech oracle.
  - `ControlRules`: snapping a byte position to the pixel grid (`Normalize`) and the
    clamps.
  - `Intervals`: the `Interval` class with its clamping setters.
  - `Bitmaps`: the `DirectBitmap` buffer and pixel offsets.
  - `Notes`: `Note` equality by runtime type and Id.
  - `Paint`: the visible-tile loop, the time-axis resolution and ticks, and the time
    labels.
  - `Mouse`: closest-note selection, drag caps and the drag threshold.
  - `Speaker`: the speaker text style's line classification, speaker walk and colours.

Behaviour of the code a reader might not expect:

- `ResizeEnd` after a resize empties the queue and the index and queues the viewport,
  but it does **not** reset the zoom ratio (Eliason.AudioVisualizer/AudioVisualizer.cs:123-131).
  Only setting `ZoomSeconds` and `Open` reset it, and both then queue the viewport,
  whose distance lookup caches ZoomSeconds / duration again as soon as a stream is open.
- `Normalize` snaps toward zero, because C#'s `%` on doubles truncates. For a negative
  position that means upward.
- `SplitAndMerge` does not keep the index sorted or free of overlaps (see above).
- `SetMaxFFT` is the only code that keeps the spectrum bound at or below the sample
  index, and nothing in the source calls it. The consumer step overwrites the bound
  with the bin of the frequency range in a 4096-sample transform.

## Model

| member | source | states |
|---|---|---|
| Works.NewWork | Eliason.AudioVisualizer/Work.cs:5-9 | the constructor stores From and To unchanged, with no order check, and no bitmap |
| Works.OverlapSymmetric | Eliason.AudioVisualizer/Work.cs:20-23 | IsOverlapping is symmetric |
| Works.TouchingDoesNotOverlap | Eliason.AudioVisualizer/Work.cs:20-23 | ranges that only touch (a.To == b.From) do not overlap, in either order |
| Works.EarlierIsConverseOfLater | Eliason.AudioVisualizer/Work.cs:25-33 | a.IsEarlierThan(b) holds exactly when b.IsLaterThan(a) |
| Works.OverlappingNeverLater | Eliason.AudioVisualizer/Work.cs:20-28 | overlapping ranges are never IsLaterThan one another, in either direction |
| Works.NotBeforeNotAfterIsInside | Eliason.AudioVisualizer/Work.cs:35-43 | a range that neither starts before nor ends after b lies within b's bounds |
| Works.IsSameEquivalence | Eliason.AudioVisualizer/Work.cs:15-18 | IsSame is reflexive, symmetric and transitive, and means equal bounds whatever the bitmap |
| WorkEngine.Insert | Eliason.AudioVisualizer/AudioVisualizer.Work.cs:369 | List.Insert: the new element is at the index, the prefix is kept, the suffix shifts by one |
| WorkEngine.SplitMergeOnlyInserts | Eliason.AudioVisualizer/AudioVisualizer.Work.cs:354-439 | the new index interleaves the old index with the returned list, each in its own order; it grows by exactly the number returned; its multiset is the old one plus the returned ranges |
| WorkEngine.SplitMergeWithinRequest | Eliason.AudioVisualizer/AudioVisualizer.Work.cs:354-439 | every returned range starts at or after the request's From, ends at or before its To, and has no bitmap |
| WorkEngineFacts.SplitMergeOnEmpty | Eliason.AudioVisualizer/AudioVisualizer.Work.cs:429-435 | on an empty index a request with To > From is returned alone and becomes the only entry; otherwise nothing is returned or inserted |
| WorkEngineFacts.SplitAroundEntry | Eliason.AudioVisualizer/AudioVisualizer.Work.cs:374-417 | index [100,200) with request [50,250) returns [50,100),[200,250); the index becomes [50,100),[100,200),[200,250) |
| WorkEngineFacts.ContainedRequestIsNoOp | Eliason.AudioVisualizer/AudioVisualizer.Work.cs:374-400 | index [0,1000) with request [100,200) returns nothing and leaves the index unchanged |
| WorkEngineFacts.SameRangeIsNoOp | Eliason.AudioVisualizer/AudioVisualizer.Work.cs:374-435 | re-requesting exactly the sole entry's range returns nothing and leaves the index unchanged |
| WorkEngineFacts.EarlierRequestReturnedTwice | Eliason.AudioVisualizer/AudioVisualizer.Work.cs:366-371 | index [100,200) with request [0,50) inserts and returns [0,50) twice, because the break falls through to the post-loop insert |
| WorkEngineFacts.EndClipReturnedTwice | Eliason.AudioVisualizer/AudioVisualizer.Work.cs:387-400 | index [100,200) with request [50,150) returns [50,100) twice and leaves the index [50,100),[100,200),[50,100) |
| WorkEngineFacts.TouchingRequestAppendedAfter | Eliason.AudioVisualizer/AudioVisualizer.Work.cs:366-435 | index [100,200) with request [50,100) appends the request after the entry |
| WorkEngineFacts.ContainedRequestBeforeLaterEntry | Eliason.AudioVisualizer/AudioVisualizer.Work.cs:374-435 | index [0,1000),[2000,3000) with request [100,200) inserts and returns the negative range [1000,0) |
| Spectrum.RoundHalfEven | Eliason.AudioVisualizer/AudioVisualizer.Work.cs:349 | Math.Round of n/d: the result is within half of n/d, and on an exact half it is even |
| Spectrum.RoundHalfEvenUnique | Eliason.AudioVisualizer/AudioVisualizer.Work.cs:349 | any integer within half of n/d, and even on a tie, is RoundHalfEven(n, d) |
| Spectrum.FFTFrequency2Index | Eliason.AudioVisualizer/AudioVisualizer.Work.cs:347-352 | the result is the smaller of the rounded bin length·frequency/sampleRate and length/2 − 1 |
| Spectrum.DefaultFrequencyBin | Eliason.AudioVisualizer/AudioVisualizer.Work.cs:254 | the default 2000 Hz in a 4096-sample transform at 44100 Hz is bin 186 |
| Silence.GetPositionOfClosestSilence | Eliason.AudioVisualizer/AudioVisualizer.Work.cs:195-231 | walks back on speech (≥ 2 of 3 samples) and forward otherwise; returns the position of step i − 1 at the step i where the cumulative match count reaches 3, and pos when fewer than 3 of the 20 steps match |
| ControlRules.Normalize | Eliason.AudioVisualizer/AudioVisualizer.cs:261-266 | the result is a multiple of bytesPerPixel, less than one pixel from the value, and on the value's side of zero; for v ≥ 0 it is ≤ v |
| ControlRules.NormalizeIdempotent | Eliason.AudioVisualizer/AudioVisualizer.cs:261-266 | normalizing a normalized position gives it back |
| ControlRules.NormalizeOfWholePosition | Eliason.AudioVisualizer/AudioVisualizer.cs:264-265 | on a whole position v, Normalize is v − (v rem b) with C#'s truncating remainder |
| ControlRules.Clamp | Eliason.AudioVisualizer/AudioVisualizer.cs:78 | Math.Max(lo, Math.Min(hi, v)) lies in [lo, hi] when lo ≤ hi, and is v when v is already inside |
| ControlRules.CachedZoomRatio | Eliason.AudioVisualizer/AudioVisualizer.cs:278-291 | a positive ratio, or any ratio with no stream, is kept; otherwise the cached ratio times the duration is ZoomSeconds |
| ControlRules.ZoomRatio | Eliason.AudioVisualizer/AudioVisualizer.cs:278-291 | a positive ratio is returned as is; with no ratio and no stream the lookup gives 1; otherwise the ratio times the duration is ZoomSeconds |
| ControlRules.ZoomRatioStable | Eliason.AudioVisualizer/AudioVisualizer.cs:278-291 | a second lookup keeps the cached ratio and returns the same ratio as the first |
| ControlRules.ViewPortDistance | Eliason.AudioVisualizer/AudioVisualizer.cs:273-276 | the floor of length · ratio; between 0 and the length when the ratio is in [0, 1] |
| ControlRules.GetCurrentBytePosition | Eliason.AudioVisualizer/AudioVisualizer.cs:298-307 | never negative; a non-negative position from BASS is returned as is |
| Intervals.OverlapSymmetric | Eliason.AudioVisualizer/Interval.cs:30-33 | IsOverlapping is symmetric |
| Intervals.ZeroWidthOverlap | Eliason.AudioVisualizer/Interval.cs:30-33 | the zero-width interval [p,p) overlaps exactly when Start < p < End |
| Intervals.DistanceFromOverlapMeaning | Eliason.AudioVisualizer/Interval.cs:35-45 | both distances are ≤ 0 iff Start ≤ p ≤ End, and they sum to −Length |
| Intervals.Interval.constructor | Eliason.AudioVisualizer/Interval.cs:10-14 | start and end are stored verbatim, with no clamping |
| Intervals.Interval.SetStart | Eliason.AudioVisualizer/Interval.cs:16-20 | Start becomes min(End − 1, value), End is unchanged, Length ≥ 1 afterwards |
| Intervals.Interval.SetEnd | Eliason.AudioVisualizer/Interval.cs:22-26 | End becomes max(Start + 1, value), Start is unchanged, Length ≥ 1 afterwards |
| Bitmaps.OffsetInBuffer | Eliason.AudioVisualizer/DirectBitmap.cs:36-40 | for an in-range pixel, bytes offset..offset+3 lie inside a Width·Height·4 buffer |
| Bitmaps.OffsetInjective | Eliason.AudioVisualizer/DirectBitmap.cs:36-40 | offsets are multiples of 4, and distinct in-range pixels get distinct offsets |
| Bitmaps.DirectBitmap.constructor | Eliason.AudioVisualizer/DirectBitmap.cs:10-18 | Bits holds exactly Width·Height·4 zero bytes, and the bitmap is not disposed |
| Bitmaps.DirectBitmap.GetStartOffset | Eliason.AudioVisualizer/DirectBitmap.cs:36-40 | the offset of an in-range pixel leaves room for its four bytes inside Bits |
| Bitmaps.DirectBitmap.Dispose | Eliason.AudioVisualizer/DirectBitmap.cs:28-34 | Dispose sets Disposed, and on a disposed bitmap it changes nothing |
| Notes.NoteHashCode | Eliason.AudioVisualizer/Note.cs:10-13 | a null Id hashes to 0 |
| Notes.NoteEqualsMeaning | Eliason.AudioVisualizer/Note.cs:15-26 | Equals(null) is false, a note equals itself, and distinct objects are equal iff runtime type and Id agree (two null Ids agree) |
| Notes.NoteEqualsSymmetric | Eliason.AudioVisualizer/Note.cs:15-26 | equality is symmetric |
| Notes.NoteEqualsIgnoresContent | Eliason.AudioVisualizer/Note.cs:23-26 | equality ignores Interval, Text and IsFocused |
| Notes.EqualNotesHashAlike | Eliason.AudioVisualizer/Note.cs:10-26 | equal notes have equal hash codes |
| Mouse.EdgeDistance | Eliason.AudioVisualizer/AudioVisualizer.Mouse.cs:299 | the distance is min(\|Start − c\|, \|c − End\|) |
| Mouse.FirstFocused | Eliason.AudioVisualizer/AudioVisualizer.Mouse.cs:277-285 | the position of the first focused note, or none when no note is focused |
| Mouse.FirstHitFrom | Eliason.AudioVisualizer/AudioVisualizer.Mouse.cs:289-297 | the first note from i on that is focused or contains c, or none |
| Mouse.NearestStopsAtFirstHit | Eliason.AudioVisualizer/AudioVisualizer.Mouse.cs:289-297 | the second search loop ends at the first focused or containing note |
| Mouse.NearestIsEarliestMinimum | Eliason.AudioVisualizer/AudioVisualizer.Mouse.cs:289-307 | with no such note, the second loop finds the earliest note of least edge distance below long.MaxValue, or none |
| Mouse.ClosestNoteIndex | Eliason.AudioVisualizer/AudioVisualizer.Mouse.cs:272-307 | the first focused note; else the first note with Start < c < End, even when an earlier note is nearer; else the earliest note with the least edge distance (ties keep the earlier one) below long.MaxValue |
| Mouse.ClosestNote | Eliason.AudioVisualizer/AudioVisualizer.Mouse.cs:272-307 | the two search loops choose exactly Mouse.ClosestNoteIndex |
| Mouse.NearerEdge | Eliason.AudioVisualizer/AudioVisualizer.Mouse.cs:311 | the start edge iff \|Start − c\| < \|c − End\|; a tie gives the end edge |
| Mouse.XButtonRelease | Eliason.AudioVisualizer/AudioVisualizer.Mouse.cs:309-324 | the note Mouse.ClosestNoteIndex chooses moves whenever there is one, at its Mouse.NearerEdge, to the clicked byte c; with none nothing moves |
| Mouse.FirstEqual | Eliason.AudioVisualizer/AudioVisualizer.Mouse.cs:162-182 | the position of the first rendered note that Equals the dragged one, or none |
| Mouse.CapsRespectNeighbours | Eliason.AudioVisualizer/AudioVisualizer.Mouse.cs:184-200 | capStart is never below the previous note's End; capEnd is never above the next note's Start (Start − Length for NoteCenter); without a match the caps are [0, bytesTotal] |
| Mouse.DragCaps | Eliason.AudioVisualizer/AudioVisualizer.Mouse.cs:157-202 | the cap loop computes exactly Mouse.Caps |
| Mouse.DragTarget | Eliason.AudioVisualizer/AudioVisualizer.Mouse.cs:208 | max(capStart, min(capEnd, dragStart − byteDistance)) lies in [capStart, capEnd] whenever capStart ≤ capEnd |
| Mouse.IsDragging | Eliason.AudioVisualizer/AudioVisualizer.Mouse.cs:127-130 | dragging starts only when the pointer is more than 3 pixels from the press point |
| Paint.Visible | Eliason.AudioVisualizer/AudioVisualizer.Paint.cs:62-84 | every tile drawn has a bitmap, To ≥ viewport start and From ≤ viewport end |
| Paint.VisibleComplete | Eliason.AudioVisualizer/AudioVisualizer.Paint.cs:62-84 | every such entry with no stopping entry up to it is drawn |
| Paint.VisibleTiles | Eliason.AudioVisualizer/AudioVisualizer.Paint.cs:62-84 | the tile loop draws exactly Paint.Visible, in index order |
| Paint.VisibleStopsAtFirstLater | Eliason.AudioVisualizer/AudioVisualizer.Paint.cs:76-80 | nothing after the first bitmap-bearing entry past the viewport end is drawn |
| Paint.BitmaplessEntryIsInvisible | Eliason.AudioVisualizer/AudioVisualizer.Paint.cs:65-68 | an entry without a bitmap is skipped and never stops the loop: inserting one anywhere draws the same tiles |
| Paint.CandidatesIncrease | Eliason.AudioVisualizer/AudioVisualizer.Paint.cs:141-159 | the candidate resolutions 100, 1000, 2000, 5000, …, 3,600,000 increase strictly |
| Paint.TickResolution | Eliason.AudioVisualizer/AudioVisualizer.Paint.cs:141-164 | the first candidate ≥ the preferred resolution, or 3,600,000 if none is |
| Paint.FirstTick | Eliason.AudioVisualizer/AudioVisualizer.Paint.cs:166 | start − (start rem resolution) is a multiple of the resolution, within one resolution of the start, toward zero |
| Paint.Ticks | Eliason.AudioVisualizer/AudioVisualizer.Paint.cs:166-189 | ticks start at FirstTick, advance by exactly the resolution, all lie before the end, and the next one would not |
| Paint.DecimalString | Eliason.AudioVisualizer/AudioVisualizer.Paint.cs:383 | only digits, at least one, and no leading zero for a number ≥ 1 |
| Paint.TimeString | Eliason.AudioVisualizer/AudioVisualizer.Paint.cs:371-384 | "00" below 1, "0" and a digit below 10, the floored number otherwise, without a leading zero from 10 on; always at least two digits |
| Paint.TimeStringValue | Eliason.AudioVisualizer/AudioVisualizer.Paint.cs:371-384 | the label reads back as the floor of the number (0 below 1) |
| Speaker.FirstTimestampFrom | Eliason.AudioVisualizer/TextStyleSpeaker.cs:72 | the leftmost match of the timestamp pattern, as Regex.Match finds it |
| Speaker.FindStyledTextSegment | Eliason.AudioVisualizer/TextStyleSpeaker.cs:45-88 | nothing on an already styled line; digit + ':' gives a 1-character segment carrying the digit; '-' and a non-dash give a 1-character segment carrying −1; a '[' line whose first timestamp is followed by '-' gives a whole-line segment carrying −2; nothing otherwise |
| Speaker.DashesAreNotSwitches | Eliason.AudioVisualizer/TextStyleSpeaker.cs:43 | a lone dash, or two dashes, give no segment |
| Speaker.TimestampLineExample | Eliason.AudioVisualizer/TextStyleSpeaker.cs:70-87 | a timestamp followed by '-' marks the whole line; the same line without the dash gives nothing |
| Speaker.Toggle | Eliason.AudioVisualizer/TextStyleSpeaker.cs:111 | a switch gives speaker 2 after speaker 1 and speaker 1 after anything else |
| Speaker.SwitchIsFirstOrSecondSpeaker | Eliason.AudioVisualizer/TextStyleSpeaker.cs:102-124 | the walk ending at a switch segment in the list gives 1 or 2 |
| Speaker.SpeakerIndex | Eliason.AudioVisualizer/TextStyleSpeaker.cs:92-124 | a non-switch segment keeps its own index; a switch takes the walk's result, which is 1 or 2 when the segment is in the list |
| Speaker.SpeakerColor | Eliason.AudioVisualizer/TextStyleSpeaker.cs:126-151 | only −2 fills; indices 1..5 and −2 have their own colours, everything else is grey |
| Speaker.SpeakerColorsDistinct | Eliason.AudioVisualizer/TextStyleSpeaker.cs:126-151 | the six listed indices get six different colours |
| Visualizer.AudioVisualizer.constructor | Eliason.AudioVisualizer/AudioVisualizer.cs:57-66 | the field initialisers plus ZoomSeconds = 15 with no stream: one queued empty range [0,0), an empty index, zoom ratio 0, and the default FFT and repeat settings |
| Visualizer.AudioVisualizer.QueueWork | Eliason.AudioVisualizer/AudioVisualizer.Work.cs:29-47 | the range is appended at the back of the queue |
| Visualizer.AudioVisualizer.ClearWork | Eliason.AudioVisualizer/AudioVisualizer.Work.cs:49-60 | both the queue and the index are empty afterwards |
| Visualizer.AudioVisualizer.SplitAndMerge | Eliason.AudioVisualizer/AudioVisualizer.Work.cs:354-439 | the in-place loop leaves exactly the index and returned list of WorkEngine.SplitMerge |
| Visualizer.AudioVisualizer.ConsumeStep | Eliason.AudioVisualizer/AudioVisualizer.Work.cs:96-136 | an empty queue changes nothing; otherwise the front is dequeued, and split and merged only when a channel exists and a file is open; the spectrum bound is recomputed when something is returned |
| Visualizer.AudioVisualizer.SetMaxFFT | Eliason.AudioVisualizer/AudioVisualizer.Work.cs:456-498 | sample index 255/511/1023/2047/4095 by flag, an unknown flag falls back to FFT4096; maxHz is the size but at least 1024; the spectrum bound never increases and ends ≤ the sample index |
| Visualizer.AudioVisualizer.SetRepeatLength | Eliason.AudioVisualizer/AudioVisualizer.cs:70-81 | the length is clamped to [0, 20], then RepeatBackwards is re-clamped to [0, length]; the repeat bounds hold afterwards |
| Visualizer.AudioVisualizer.SetRepeatBackwards | Eliason.AudioVisualizer/AudioVisualizer.cs:83-93 | clamped to [0, RepeatLength]; the repeat bounds hold afterwards |
| Visualizer.AudioVisualizer.SetRepeatPause | Eliason.AudioVisualizer/AudioVisualizer.cs:95-102 | clamped to [0, 20]; the repeat bounds hold afterwards |
| Visualizer.AudioVisualizer.GetZoomRatio | Eliason.AudioVisualizer/AudioVisualizer.cs:278-291 | the field becomes ControlRules.CachedZoomRatio and the result is ControlRules.ZoomRatio of the old field |
| Visualizer.AudioVisualizer.QueueViewPort | Eliason.AudioVisualizer/AudioVisualizer.cs:268-276 | queue and index emptied, exactly [start, start + floor(length · ratio)) queued, and the ratio cached |
| Visualizer.AudioVisualizer.SetZoomSeconds | Eliason.AudioVisualizer/AudioVisualizer.cs:45-55 | the ratio is reset and re-cached as value / duration when a stream is open (0 otherwise); the index is emptied and exactly the viewport of that ratio queued |
| Visualizer.AudioVisualizer.Open | Eliason.AudioVisualizer/AudioVisualizer.cs:388-417 | a non-empty path stores the stream length, re-caches the ratio as ZoomSeconds / duration for a positive length (0 otherwise), sets the caret offset to 0.5, empties the index and queues exactly the viewport; an empty path only stores the path |
| Visualizer.AudioVisualizer.Resize | Eliason.AudioVisualizer/AudioVisualizer.cs:118-121 | the resize flag is raised |
| Visualizer.AudioVisualizer.ResizeEnd | Eliason.AudioVisualizer/AudioVisualizer.cs:123-131 | after a resize, the index is emptied and exactly the viewport queued, a positive zoom ratio is kept, and the flag drops; otherwise nothing changes |
| Visualizer.AudioVisualizer.SetFrequencyRange | Eliason.AudioVisualizer/AudioVisualizer.cs:419-427 | the current value changes nothing; a new one is stored and empties queue and index, with no work queued |
| Visualizer.AudioVisualizer.MouseDownMiddle | Eliason.AudioVisualizer/AudioVisualizer.Mouse.cs:52-55 | the button is down and the press point is recorded |
| Visualizer.AudioVisualizer.MouseDownLeftOnEmpty | Eliason.AudioVisualizer/AudioVisualizer.Mouse.cs:99-104 | the drag starts from the current viewport start, and the caret is no longer followed |
| Visualizer.AudioVisualizer.MouseMove | Eliason.AudioVisualizer/AudioVisualizer.Mouse.cs:124-216 | the button's drag flag follows the 3-pixel threshold; a pan sets the viewport start to max(0, dragStart + byteDistance), never negative; a note drag reports DragTarget within Mouse.Caps, whose neighbour bound reads the dragging area that Render puts into the request |

## Left out

- Colour lookup and the HSV conversion (AudioVisualizer.Work.cs:68-78, 507-525): double arithmetic.
- The pixel rendering of DoWork and the loudness test of HasPotentialHumanSpeech: these read float FFT buffers from BASS. The speech test is the oracle `speech` of `Silence`.
- DoWork attaches a bitmap to each returned range. That is not modelled, so the `hasBitmap` flags of the index are inputs to `Paint.Visible`.
- Worker threads, locks and wait handles: the queue and the index are changed one step at a time. Creating the visual channel is the parameter `channelCreated`.
- All BASS calls: channel creation, playback, seeking, tempo, volume, stream length. `ControlRules.GetCurrentBytePosition` takes the position BASS reports as a parameter.
- The viewport start and the byte-to-pixel conversions (double arithmetic). Their results are parameters: the viewport start, byte distances, the minimum note width and the preferred tick resolution. The stream's duration in seconds, which GetZoomRatio divides by, is the parameter `secondsTotal`.
- Visualizer.AudioVisualizer.GetZoomRatio: requires a non-zero duration for an open stream. C# would divide by zero to an infinite ratio.
- Visualizer.AudioVisualizer.MouseMove: the zoom-ratio lookups inside the pixel conversions of a mouse move are not modelled; they could only re-cache a ratio that is not positive.
- Timers, pause handling and repeat playback: UI timers and wall-clock time.
- GDI drawing, the hit test, cursors and invalidation. During a note drag Render puts the dragging area into the render request and skips the hit test, so `MouseMove` passes the dragging area to the caps; a mouse move before any render since the press is not modelled. The right-button press (playback) and the left press on a note need the hit test and are not modelled.
- The editor plumbing of the speaker style: the styled-segment manager and the render cache. The count of styles on the line, the list of segment objects and the painted segment's position in it are parameters.
- Data carriers without logic: RenderRequest, AudioPaintEventArgs, NoteMovedEventArgs, NoteClickedEventArgs. Also the stubs GetAudioStream and GetSpeechAudioFormat.
- NaN: a NaN caret offset is `None`; the repeat setters and `Normalize` take real numbers, never NaN.
- ControlRules.Normalize: requires a positive bytes-per-pixel. With zero bytes per pixel the C# remainder is NaN and the cast result is unspecified. A negative bytes-per-pixel is not modelled either; it arises when BASS reports the error length −1 (a distance of −1, floored to −1 per pixel), and C#'s `%` then acts as `%` by its absolute value.
- Integer widths: 64-bit and 32-bit integers are unbounded here. Overflow of `width * height * 4`, of sums of byte positions and of `Math.Abs(long.MinValue)` is not modelled.
- Spectrum.FFTFrequency2Index: the product `length * frequency` is exact, not a double, so rounding of the double product for very large inputs is not modelled.
- Object identity of `Work`: ranges are values. The model does not capture:
  - that the two entries inserted after the `break` are one object, so a bitmap set on one shows at both positions;
  - that the clipping changes the dequeued object itself.
- Note intervals are value snapshots: `Note.Interval` is a shared `Interval` object in C#.
- A null notes list: the model takes a list. In C#, the extra-button release would throw on null, and the drag caps would stay [0, bytesTotal].
- Bitmaps.DirectBitmap.constructor: requires a positive width and height. GDI+ rejects an empty bitmap, and a negative size cannot be allocated.
- Paint.TimeString: C# writes numbers of 10^15 and above in exponent notation; the model writes them as plain digits.
- Speaker.FindStyledTextSegment: `\d` is ASCII here. .NET's `\d` also matches other Unicode digits, and `int.Parse` would reject those. The '[' test is an exact first character, whereas `StartsWith("[")` compares culture-sensitively and skips ignorable code points, so a line starting with a soft hyphen and then '[' gets the −2 segment in C# but not here.
- Visualizer.AudioVisualizer.ConsumeStep: keeps the FFT invariant only while the sample index is at least 2047. The consumer overwrites the spectrum bound without looking at the sample index.
- Visualizer.AudioVisualizer.MouseMove: the cursor changes and the NoteMoved event's subscribers are not modelled. The event's arguments are returned instead. The note drag raises NoteMoved without a null check (AudioVisualizer.Mouse.cs:211), so with no subscriber C# throws a NullReferenceException there; the extra-button release checks for a subscriber first (AudioVisualizer.Mouse.cs:313).
- The old zoom code of the middle-button release, and the mouse wheel: not part of this model.
