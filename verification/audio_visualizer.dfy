/** The AudioVisualizer control: the state its methods change in place. The pending
    work queue and the index of accepted work ranges, the FFT settings, the repeat
    settings, the zoom, and the mouse-drag state. Viewport bounds, which the control
    computes with doubles and BASS, are passed in as parameters. */
module Visualizer {
  import opened Common
  import opened Works
  import opened WorkEngine
  import opened Spectrum
  import opened ControlRules
  import opened Notes
  import opened Mouse

  datatype MouseButton = LeftButton | MiddleButton | RightButton | XButton1 | XButton2

  class AudioVisualizer {
    // AudioVisualizer.Work.cs
    /** `_workQueue`, front first. */
    var workQueue: seq<Work>
    /** `_work`: the ranges accepted for rendering, in the order SplitAndMerge keeps. */
    var work: seq<Work>
    var maxHz: int
    var maxFft: DataFlag
    var maxFftSampleIndex: int
    var maxFrequencySpectrum: int

    // AudioVisualizer.cs
    /** `_currentFilePath`; a null path is the empty string. */
    var currentFilePath: string
    var maxFrequency: int
    /** `_bytesTotal`: the stream length in bytes BASS reports for the open file. */
    var bytesTotal: int
    var zoomSeconds: real
    var zoomRatio: real
    /** `_caretOffset`; NaN is `None`. */
    var caretOffset: Option<real>
    var repeatLength: real
    var repeatBackwards: real
    var repeatPause: real
    /** The `currentlyResizing` flag the form's Resize handler raises. */
    var resizing: bool

    // AudioVisualizer.Mouse.cs
    var viewPortStart: int
    var mouseDown: bool
    var mouseDragStartX: int
    var mouseDragEndX: int
    var mouseDraggingZoom: bool
    var mouseDraggingPan: bool
    var mouseDraggingNote: Option<Note>
    var mouseDraggingArea: HitTestArea
    var mouseDragByteIndexStart: int

    /** The repeat settings stay inside their bounds. */
    ghost predicate RepeatInvariant()
      reads this
    {
      0.0 <= repeatBackwards <= repeatLength <= RepeatMaximum
      && 0.0 <= repeatPause <= RepeatMaximum
    }

    /** The FFT settings agree with each other. */
    ghost predicate FftInvariant()
      reads this
    {
      maxFftSampleIndex == TransformSize(maxFft) / 2 - 1
      && maxFrequencySpectrum <= maxFftSampleIndex
    }

    /** The field initialisers, then `ZoomSeconds = 15`. No file is open, so the
        viewport is `[0, 0)` and the single queued work is that empty range. */
    constructor()
      ensures workQueue == [NewWork(0, 0)] && work == []
      ensures zoomSeconds == 15.0 && zoomRatio == 0.0
      ensures maxFrequency == 2000 && currentFilePath == [] && bytesTotal == 0
      ensures maxHz == 4096 && maxFft == FFT4096 && maxFftSampleIndex == 2047 && maxFrequencySpectrum == 2047
      ensures caretOffset == None
      ensures repeatLength == 0.0 && repeatBackwards == 0.0 && repeatPause == 0.0
      ensures RepeatInvariant() && FftInvariant()
    {
      workQueue := [];
      work := [];
      maxHz := 4096;
      maxFft := FFT4096;
      maxFftSampleIndex := 2047;
      maxFrequencySpectrum := 2047;
      currentFilePath := [];
      maxFrequency := 2000;
      bytesTotal := 0;
      caretOffset := None;
      repeatLength := 0.0;
      repeatBackwards := 0.0;
      repeatPause := 0.0;
      resizing := false;
      viewPortStart := 0;
      mouseDown := false;
      mouseDragStartX := 0;
      mouseDragEndX := 0;
      mouseDraggingZoom := false;
      mouseDraggingPan := false;
      mouseDraggingNote := None;
      mouseDraggingArea := NoArea;
      mouseDragByteIndexStart := 0;
      zoomSeconds := 0.0;
      zoomRatio := 0.0;
      new;
      SetZoomSeconds(15.0, 0, 0.0);
    }

    /** QueueWork: the range joins the back of the queue. */
    method QueueWork(w: Work)
      modifies this`workQueue
      ensures workQueue == old(workQueue) + [w]
    {
      workQueue := workQueue + [w];
    }

    /** ClearWork: both the queue and the index are emptied. */
    method ClearWork()
      modifies this`workQueue, this`work
      ensures workQueue == [] && work == []
    {
      workQueue := [];
      work := [];
    }

    /** SplitAndMerge: the walk of the index that clips the request against the ranges
        already there, inserts the uncovered pieces in place and returns them; the new
        index and the returned list are those of WorkEngine.SplitMerge. */
    method SplitAndMerge(queued0: Work) returns (todo: seq<Work>)
      modifies this`work
      ensures (work, todo) == SplitMerge(old(work), queued0)
    {
      ghost var target := SplitMerge(work, queued0);
      var queued := queued0;
      todo := [];
      var workIndex := 0;
      while workIndex < |work|
        invariant workIndex <= |work|
        invariant Walk(work, workIndex, queued, todo) == target
        decreases |work| - workIndex, if workIndex < |work| && work[workIndex].IsOverlapping(queued) then 1 else 0
      {
        var existing := work[workIndex];
        if existing.IsLaterThan(queued) {
          work := Insert(work, workIndex, queued);
          todo := todo + [queued];
          assert Finish(work, workIndex, queued, todo) == target;
          break;
        }

        if existing.IsOverlapping(queued) {
          var existingStartingBefore := existing.IsStartingBefore(queued);
          var existingEndingAfter := existing.IsEndingAfter(queued);
          if existingStartingBefore {
            queued := queued.(from := existing.to);
          }
          if existingEndingAfter {
            queued := queued.(to := existing.from);
            var distance := queued.to - queued.from;
            if distance > 0 {
              var newWork := NewWork(queued.from, queued.to);
              work := Insert(work, workIndex, newWork);
              todo := todo + [newWork];
            }
          }
          if !existingStartingBefore && !existingEndingAfter {
            var preWork := NewWork(queued.from, existing.from);
            if preWork.to - preWork.from > 0 {
              work := Insert(work, workIndex, preWork);
              todo := todo + [preWork];
            }
            var postWork := NewWork(existing.to, queued.to);
            queued := postWork;
          }
        } else if queued.IsEarlierThan(existing) {
          // The insert-and-break of the code here cannot run: this test is the
          // IsLaterThan test above with the operands swapped.
          assert false;
        }
        workIndex := workIndex + 1;
      }

      if queued.to - queued.from > 0 {
        work := Insert(work, workIndex, queued);
        todo := todo + [queued];
      }
    }

    /** One turn of a consumer thread. An empty queue leaves everything as it is.
        Otherwise the front range is dequeued; when the visual channel exists and a
        file is open, it goes through SplitAndMerge and, if anything is returned, the
        spectrum bound is recomputed from the frequency range. */
    method ConsumeStep(channelCreated: bool) returns (dequeued: Option<Work>, todo: seq<Work>)
      modifies this`workQueue, this`work, this`maxFrequencySpectrum
      ensures old(workQueue) == [] ==>
                dequeued == None && todo == [] && workQueue == [] && work == old(work)
                && maxFrequencySpectrum == old(maxFrequencySpectrum)
      ensures old(workQueue) != [] ==>
                dequeued == Some(old(workQueue)[0]) && workQueue == old(workQueue)[1..]
      ensures old(workQueue) != [] && channelCreated && currentFilePath != [] ==>
                (work, todo) == SplitMerge(old(work), old(workQueue)[0])
      ensures !(old(workQueue) != [] && channelCreated && currentFilePath != []) ==>
                work == old(work) && todo == []
      ensures maxFrequencySpectrum ==
                if todo != [] then FFTFrequency2Index(maxFrequency, 4096, 44100) else old(maxFrequencySpectrum)
      ensures old(FftInvariant()) && maxFftSampleIndex >= 2047 ==> FftInvariant()
    {
      todo := [];
      if workQueue == [] {
        return None, [];
      }
      var w := workQueue[0];
      workQueue := workQueue[1..];
      dequeued := Some(w);
      if !channelCreated {
        return;
      }
      if currentFilePath == [] {
        return;
      }
      todo := SplitAndMerge(w);
      if todo != [] {
        maxFrequencySpectrum := FFTFrequency2Index(maxFrequency, 4096, 44100);
      }
    }

    /** SetMaxFFT: the transform size and the settings that follow from it. An unknown
        flag falls back to FFT4096. The highest sample index is half the transform size
        minus one, the top frequency is the transform size but at least 1024, and the
        spectrum bound is lowered to the sample index when it is above it. */
    method SetMaxFFT(value: DataFlag)
      modifies this`maxHz, this`maxFft, this`maxFftSampleIndex, this`maxFrequencySpectrum
      ensures maxFft == if value.OtherFlag? then FFT4096 else value
      ensures maxFftSampleIndex == TransformSize(maxFft) / 2 - 1
      ensures maxHz == Max(1024, TransformSize(maxFft))
      ensures maxFrequencySpectrum == Min(old(maxFrequencySpectrum), maxFftSampleIndex)
      ensures FftInvariant()
    {
      match value {
        case FFT512 =>
          maxHz := 1024;
          maxFft := value;
          maxFftSampleIndex := 255;
        case FFT1024 =>
          maxHz := 1024;
          maxFft := value;
          maxFftSampleIndex := 511;
        case FFT2048 =>
          maxHz := 2048;
          maxFft := value;
          maxFftSampleIndex := 1023;
        case FFT4096 =>
          maxHz := 4096;
          maxFft := value;
          maxFftSampleIndex := 2047;
        case FFT8192 =>
          maxHz := 8192;
          maxFft := value;
          maxFftSampleIndex := 4095;
        case OtherFlag(_) =>
          maxHz := 4096;
          maxFft := FFT4096;
          maxFftSampleIndex := 2047;
      }
      if maxFrequencySpectrum <= maxFftSampleIndex {
        return;
      }
      maxFrequencySpectrum := maxFftSampleIndex;
    }

    /** Setting RepeatLength clamps it to `[0, 20]` and then sets RepeatBackwards to
        itself, which clamps it to the new length. */
    method SetRepeatLength(value: real)
      requires RepeatInvariant()
      modifies this`repeatLength, this`repeatBackwards
      ensures repeatLength == Clamp(0.0, RepeatMaximum, value)
      ensures repeatBackwards == Clamp(0.0, repeatLength, old(repeatBackwards))
      ensures RepeatInvariant()
    {
      repeatLength := Clamp(0.0, RepeatMaximum, value);
      SetRepeatBackwards(repeatBackwards);
    }

    /** Setting RepeatBackwards clamps it to `[0, RepeatLength]`. */
    method SetRepeatBackwards(value: real)
      requires 0.0 <= repeatLength <= RepeatMaximum && 0.0 <= repeatPause <= RepeatMaximum
      modifies this`repeatBackwards
      ensures repeatBackwards == Clamp(0.0, repeatLength, value)
      ensures RepeatInvariant()
    {
      repeatBackwards := Clamp(0.0, repeatLength, value);
    }

    /** Setting RepeatPause clamps it to `[0, 20]`. */
    method SetRepeatPause(value: real)
      requires RepeatInvariant()
      modifies this`repeatPause
      ensures repeatPause == Clamp(0.0, RepeatMaximum, value)
      ensures RepeatInvariant()
    {
      repeatPause := Clamp(0.0, RepeatMaximum, value);
    }

    /** GetZoomRatio: a ratio that is not positive is recomputed and cached once a
        stream is open; with no stream and no ratio the lookup gives 1. `secondsTotal`
        is the stream's duration in seconds as BASS converts `bytesTotal`. */
    method GetZoomRatio(secondsTotal: real) returns (ratio: real)
      requires bytesTotal > 0 ==> secondsTotal != 0.0
      modifies this`zoomRatio
      ensures zoomRatio == CachedZoomRatio(old(zoomRatio), bytesTotal, zoomSeconds, secondsTotal)
      ensures ratio == ZoomRatio(old(zoomRatio), bytesTotal, zoomSeconds, secondsTotal)
    {
      if zoomRatio <= 0.0 {
        if bytesTotal <= 0 {
          return 1.0;
        }
        zoomRatio := zoomSeconds / secondsTotal;
      }
      ratio := zoomRatio;
    }

    /** `ClearWork(); QueueWork(new Work(start, end))` on the current viewport: the
        queue and the index are emptied and the viewport, from `viewStart` over the
        zoomed distance, is queued. Computing the distance caches the zoom ratio. */
    method QueueViewPort(viewStart: int, secondsTotal: real)
      requires bytesTotal > 0 ==> secondsTotal != 0.0
      modifies this`zoomRatio, this`workQueue, this`work
      ensures zoomRatio == CachedZoomRatio(old(zoomRatio), bytesTotal, zoomSeconds, secondsTotal)
      ensures work == []
      ensures workQueue == [NewWork(viewStart, viewStart + ViewPortDistance(bytesTotal,
                              ZoomRatio(old(zoomRatio), bytesTotal, zoomSeconds, secondsTotal)))]
    {
      ClearWork();
      var ratio := GetZoomRatio(secondsTotal);
      QueueWork(NewWork(viewStart, viewStart + ViewPortDistance(bytesTotal, ratio)));
    }

    /** Setting ZoomSeconds forgets the zoom ratio, empties the queue and the index and
        queues the viewport as it is after the change. Computing that viewport caches
        the new ratio ZoomSeconds / duration when a stream is open; with no stream the
        ratio stays 0 and the viewport has the stream's own length. */
    method SetZoomSeconds(value: real, viewStart: int, secondsTotal: real)
      requires bytesTotal > 0 ==> secondsTotal != 0.0
      modifies this`zoomSeconds, this`zoomRatio, this`workQueue, this`work
      ensures zoomSeconds == value
      ensures bytesTotal > 0 ==> zoomRatio * secondsTotal == value
      ensures bytesTotal <= 0 ==> zoomRatio == 0.0
      ensures work == []
      ensures workQueue == [NewWork(viewStart, viewStart + ViewPortDistance(bytesTotal,
                              if bytesTotal > 0 then zoomRatio else 1.0))]
    {
      zoomSeconds := value;
      zoomRatio := 0.0;
      QueueViewPort(viewStart, secondsTotal);
    }

    /** Open: the path is stored; a non-empty one also takes the stream length
        `length` BASS reports, resets the zoom ratio, puts the caret at the middle of
        the view, empties the queue and the index and queues the viewport, which
        caches the ratio ZoomSeconds / duration for a stream of positive length. An
        empty path changes nothing else. */
    method Open(filePath: string, length: int, secondsTotal: real, viewStart: int)
      requires filePath != [] && length > 0 ==> secondsTotal != 0.0
      modifies this`currentFilePath, this`bytesTotal, this`zoomRatio, this`caretOffset,
               this`workQueue, this`work
      ensures currentFilePath == filePath
      ensures filePath != [] ==>
                bytesTotal == length && caretOffset == Some(0.5)
                && (length > 0 ==> zoomRatio * secondsTotal == zoomSeconds)
                && (length <= 0 ==> zoomRatio == 0.0)
                && work == []
                && workQueue == [NewWork(viewStart, viewStart + ViewPortDistance(length,
                                    if length > 0 then zoomRatio else 1.0))]
      ensures filePath == [] ==>
                bytesTotal == old(bytesTotal) && zoomRatio == old(zoomRatio)
                && caretOffset == old(caretOffset)
                && workQueue == old(workQueue) && work == old(work)
    {
      currentFilePath := filePath;
      if filePath != [] {
        bytesTotal := length;
        zoomRatio := 0.0;
        caretOffset := Some(0.5);
        QueueViewPort(viewStart, secondsTotal);
      }
    }

    /** The form's Resize event. */
    method Resize()
      modifies this`resizing
      ensures resizing
    {
      resizing := true;
    }

    /** The form's ResizeEnd event: after a resize, the queue and the index are emptied
        and the viewport is queued; the zoom ratio is not reset, only cached when it is
        not positive. Without a resize in between nothing happens. */
    method ResizeEnd(viewStart: int, secondsTotal: real)
      requires bytesTotal > 0 ==> secondsTotal != 0.0
      modifies this`resizing, this`zoomRatio, this`workQueue, this`work
      ensures !resizing
      ensures old(resizing) ==>
                zoomRatio == CachedZoomRatio(old(zoomRatio), bytesTotal, zoomSeconds, secondsTotal)
                && (old(zoomRatio) > 0.0 ==> zoomRatio == old(zoomRatio))
                && work == []
                && workQueue == [NewWork(viewStart, viewStart + ViewPortDistance(bytesTotal,
                                    ZoomRatio(old(zoomRatio), bytesTotal, zoomSeconds, secondsTotal)))]
      ensures !old(resizing) ==>
                zoomRatio == old(zoomRatio) && workQueue == old(workQueue) && work == old(work)
    {
      if resizing {
        QueueViewPort(viewStart, secondsTotal);
        resizing := false;
      }
    }

    /** SetFrequencyRange: a new value is stored and the queue and the index are
        emptied, with no new work queued; the current value changes nothing. */
    method SetFrequencyRange(value: int)
      modifies this`maxFrequency, this`workQueue, this`work
      ensures maxFrequency == value
      ensures value != old(maxFrequency) ==> workQueue == [] && work == []
      ensures value == old(maxFrequency) ==> workQueue == old(workQueue) && work == old(work)
    {
      if value != maxFrequency {
        maxFrequency := value;
        ClearWork();
      }
    }

    /** The middle-button press starts a possible zoom drag at `x`. */
    method MouseDownMiddle(x: int)
      modifies this`mouseDown, this`mouseDragStartX
      ensures mouseDown && mouseDragStartX == x
    {
      mouseDown := true;
      mouseDragStartX := x;
    }

    /** The left-button press on empty space: a possible pan from the current viewport
        start, which stops following the caret. */
    method MouseDownLeftOnEmpty(x: int, viewStart: int)
      modifies this`mouseDown, this`mouseDragStartX, this`mouseDraggingArea, this`mouseDraggingNote,
               this`mouseDragByteIndexStart, this`viewPortStart, this`caretOffset
      ensures mouseDown && mouseDragStartX == x && mouseDraggingArea == NoArea
      ensures mouseDraggingNote == old(mouseDraggingNote)
      ensures mouseDragByteIndexStart == viewStart && viewPortStart == viewStart
      ensures caretOffset == None
    {
      mouseDown := true;
      mouseDragStartX := x;
      mouseDraggingArea := NoArea;
      mouseDragByteIndexStart := viewStart;
      viewPortStart := mouseDragByteIndexStart;
      caretOffset := None;
    }

    /** OnMouseMove. While a button is down, the drag flag of that button follows the
        three-pixel threshold. While panning, a dragged note reports its new edge
        position, clamped to the caps its neighbours among the rendered `notes` allow;
        otherwise the viewport start follows the pointer and never goes below zero.
        `byteDistance` is the pointer's distance from the press point in bytes and
        `minWidth` the two-pixel minimum note width in bytes. While a note is dragged,
        Render puts the dragging area into the render request, so the neighbour caps
        read that area. */
    method MouseMove(button: MouseButton, x: int, byteDistance: int, notes: seq<Note>,
                     minWidth: int)
      returns (moved: Option<NoteMove>)
      modifies this`mouseDragEndX, this`mouseDraggingZoom, this`mouseDraggingPan, this`viewPortStart
      ensures mouseDragEndX == if mouseDown then x else old(mouseDragEndX)
      ensures mouseDown && button == MiddleButton ==> mouseDraggingZoom == IsDragging(mouseDragStartX, x)
      ensures mouseDown && button == LeftButton ==> mouseDraggingPan == IsDragging(mouseDragStartX, x)
      ensures !(mouseDown && button == MiddleButton) ==> mouseDraggingZoom == old(mouseDraggingZoom)
      ensures !(mouseDown && button == LeftButton) ==> mouseDraggingPan == old(mouseDraggingPan)
      ensures mouseDraggingPan && mouseDraggingNote.None? ==>
                viewPortStart == Max(0, mouseDragByteIndexStart + byteDistance) && viewPortStart >= 0
      ensures !(mouseDraggingPan && mouseDraggingNote.None?) ==> viewPortStart == old(viewPortStart)
      ensures mouseDraggingPan && mouseDraggingNote.Some? ==>
                var (capStart, capEnd) :=
                  Caps(notes, mouseDraggingNote.value, mouseDraggingArea, mouseDraggingArea, minWidth, bytesTotal);
                moved == Some(NoteMove(mouseDraggingNote.value, mouseDraggingArea,
                                       DragTarget(capStart, capEnd, mouseDragByteIndexStart, byteDistance)))
      ensures !(mouseDraggingPan && mouseDraggingNote.Some?) ==> moved == None
    {
      moved := None;
      if mouseDown {
        mouseDragEndX := x;
        var isDragging := IsDragging(mouseDragStartX, mouseDragEndX);
        match button {
          case MiddleButton => mouseDraggingZoom := isDragging;
          case LeftButton => mouseDraggingPan := isDragging;
          case _ =>
        }
      }
      if mouseDraggingPan {
        match mouseDraggingNote {
          case Some(note) =>
            var capStart, capEnd := DragCaps(notes, note, mouseDraggingArea, mouseDraggingArea, minWidth, bytesTotal);
            moved := Some(NoteMove(note, mouseDraggingArea,
                                   DragTarget(capStart, capEnd, mouseDragByteIndexStart, byteDistance)));
          case None =>
            viewPortStart := Max(0, mouseDragByteIndexStart + byteDistance);
        }
      }
    }
  }
}
