/** The rules of the mouse handlers that do not touch the control's own fields: which
    note an extra-button click resizes, how far a dragged note edge may move, and when
    a press turns into a drag. */
module Mouse {
  import opened Common
  import opened Intervals
  import opened Notes

  /** The part of the view under the pointer, as the hit test reports it. */
  datatype HitTestArea = NoArea | NoteLeft | NoteRight | NoteCenter

  /** The arguments of the NoteMoved event. */
  datatype NoteMove = NoteMove(note: Note, area: HitTestArea, byteIndex: int)

  /** `long.MaxValue`, the starting "closest distance". */
  const LongMaxValue: int := 0x7FFF_FFFF_FFFF_FFFF

  /** The distance the closest-note search minimises: to the nearer edge. */
  function EdgeDistance(s: Span, c: int): (d: int)
    ensures d >= 0
    ensures d <= Abs(s.start - c) && d <= Abs(c - s.end)
    ensures d == Abs(s.start - c) || d == Abs(c - s.end)
  {
    var (toStart, toEnd) := s.DistanceFromOverlap(c);
    Min(Abs(toStart), Abs(toEnd))
  }

  /** The clicked byte `c`, as the zero-width interval `[c, c)`, overlaps the span. */
  predicate Contains(s: Span, c: int)
  {
    s.IsOverlapping(Span(c, c))
  }

  /** The first focused note, if any. */
  function FirstFocused(notes: seq<Note>): (r: Option<nat>)
    ensures r.Some? ==> r.value < |notes| && notes[r.value].isFocused
                        && forall j :: 0 <= j < r.value ==> !notes[j].isFocused
    ensures r.None? ==> forall j :: 0 <= j < |notes| ==> !notes[j].isFocused
  {
    if notes == [] then None
    else if notes[0].isFocused then Some(0)
    else match FirstFocused(notes[1..])
      case None => None
      case Some(k) => Some(k + 1)
  }

  /** A note that ends the second search loop at once: focused, or containing `c`. */
  predicate Hit(n: Note, c: int)
  {
    n.isFocused || Contains(n.interval, c)
  }

  /** The first note at or after `i` that Hit holds for. */
  function FirstHitFrom(notes: seq<Note>, c: int, i: nat): (r: Option<nat>)
    requires i <= |notes|
    ensures r.Some? ==> i <= r.value < |notes| && Hit(notes[r.value], c)
                        && forall j :: i <= j < r.value ==> !Hit(notes[j], c)
    ensures r.None? ==> forall j :: i <= j < |notes| ==> !Hit(notes[j], c)
    decreases |notes| - i
  {
    if i == |notes| then None
    else if Hit(notes[i], c) then Some(i)
    else FirstHitFrom(notes, c, i + 1)
  }

  /** The second loop of the extra-button release from position `i` on, with the note
      chosen so far and its distance: a focused note or one containing `c` ends the
      search; otherwise a note strictly nearer than the best so far replaces it. */
  function Nearest(notes: seq<Note>, c: int, i: nat, chosen: Option<nat>, closest: int): (r: Option<nat>)
    requires i <= |notes|
    requires chosen.Some? ==> chosen.value < i
    ensures r.Some? ==> r.value < |notes|
    decreases |notes| - i
  {
    if i == |notes| then chosen
    else if Hit(notes[i], c) then Some(i)
    else
      var d := EdgeDistance(notes[i].interval, c);
      if d < closest then Nearest(notes, c, i + 1, Some(i), d)
      else Nearest(notes, c, i + 1, chosen, closest)
  }

  /** The second loop stops at the first note it hits. */
  lemma {:induction false} NearestStopsAtFirstHit(notes: seq<Note>, c: int, i: nat, chosen: Option<nat>, closest: int)
    requires i <= |notes| && (chosen.Some? ==> chosen.value < i)
    requires FirstHitFrom(notes, c, i).Some?
    ensures Nearest(notes, c, i, chosen, closest) == FirstHitFrom(notes, c, i)
    decreases |notes| - i
  {
    if !Hit(notes[i], c) {
      var d := EdgeDistance(notes[i].interval, c);
      if d < closest {
        NearestStopsAtFirstHit(notes, c, i + 1, Some(i), d);
      } else {
        NearestStopsAtFirstHit(notes, c, i + 1, chosen, closest);
      }
    }
  }

  /** The state the second loop keeps before position `i`: the earliest strictly
      nearest note so far, or none while every distance reached `long.MaxValue`. */
  predicate NearestSoFar(notes: seq<Note>, c: int, i: nat, chosen: Option<nat>, closest: int)
    requires i <= |notes|
  {
    match chosen
    case None =>
      closest == LongMaxValue
      && forall j :: 0 <= j < i ==> EdgeDistance(notes[j].interval, c) >= LongMaxValue
    case Some(k) =>
      k < i
      && closest == EdgeDistance(notes[k].interval, c) < LongMaxValue
      && (forall j :: 0 <= j < k ==> EdgeDistance(notes[j].interval, c) > closest)
      && (forall j :: k < j < i ==> EdgeDistance(notes[j].interval, c) >= closest)
  }

  /** With no note hit, the second loop finds the earliest strictly nearest note, or
      none when every distance reaches `long.MaxValue`. */
  lemma {:induction false} NearestIsEarliestMinimum(notes: seq<Note>, c: int, i: nat, chosen: Option<nat>, closest: int)
    requires i <= |notes| && NearestSoFar(notes, c, i, chosen, closest)
    requires forall j :: i <= j < |notes| ==> !Hit(notes[j], c)
    ensures NearestSoFar(notes, c, |notes|, Nearest(notes, c, i, chosen, closest),
                         match Nearest(notes, c, i, chosen, closest)
                         case None => LongMaxValue
                         case Some(k) => EdgeDistance(notes[k].interval, c))
    decreases |notes| - i
  {
    if i < |notes| {
      var d := EdgeDistance(notes[i].interval, c);
      if d < closest {
        NearestIsEarliestMinimum(notes, c, i + 1, Some(i), d);
      } else {
        NearestIsEarliestMinimum(notes, c, i + 1, chosen, closest);
      }
    }
  }

  /** The note an extra-button release resizes, as an index into `notes`:
      the first focused note if there is one; otherwise the first note containing the
      clicked byte `c`; otherwise the earliest note nearest to `c` (a later note must be
      strictly nearer to replace it), and none when every distance reaches
      `long.MaxValue`. */
  function ClosestNoteIndex(notes: seq<Note>, c: int): (r: Option<nat>)
    ensures r.Some? ==> r.value < |notes|
    ensures (exists k :: 0 <= k < |notes| && notes[k].isFocused) ==>
              r.Some? && notes[r.value].isFocused
              && forall j :: 0 <= j < r.value ==> !notes[j].isFocused
    ensures (forall k :: 0 <= k < |notes| ==> !notes[k].isFocused)
            && (exists k :: 0 <= k < |notes| && Contains(notes[k].interval, c)) ==>
              r.Some? && Contains(notes[r.value].interval, c)
              && forall j :: 0 <= j < r.value ==> !Contains(notes[j].interval, c)
    ensures (forall k :: 0 <= k < |notes| ==> !notes[k].isFocused && !Contains(notes[k].interval, c)) ==>
              match r
              case None =>
                forall k :: 0 <= k < |notes| ==> EdgeDistance(notes[k].interval, c) >= LongMaxValue
              case Some(k) =>
                EdgeDistance(notes[k].interval, c) < LongMaxValue
                && (forall j :: 0 <= j < k ==> EdgeDistance(notes[j].interval, c) > EdgeDistance(notes[k].interval, c))
                && (forall j :: k < j < |notes| ==> EdgeDistance(notes[j].interval, c) >= EdgeDistance(notes[k].interval, c))
  {
    match FirstFocused(notes)
    case Some(k) => Some(k)
    case None =>
      if FirstHitFrom(notes, c, 0).Some? then
        NearestStopsAtFirstHit(notes, c, 0, None, LongMaxValue);
        Nearest(notes, c, 0, None, LongMaxValue)
      else
        NearestIsEarliestMinimum(notes, c, 0, None, LongMaxValue);
        Nearest(notes, c, 0, None, LongMaxValue)
  }

  /** The two search loops of the extra-button release. */
  method ClosestNote(notes: seq<Note>, c: int) returns (chosen: Option<nat>)
    ensures chosen == ClosestNoteIndex(notes, c)
  {
    var i := 0;
    while i < |notes|
      invariant 0 <= i <= |notes|
      invariant forall j :: 0 <= j < i ==> !notes[j].isFocused
    {
      if notes[i].isFocused {
        return Some(i);
      }
      i := i + 1;
    }

    chosen := None;
    var closestDistance := LongMaxValue;
    i := 0;
    while i < |notes|
      invariant 0 <= i <= |notes|
      invariant chosen.Some? ==> chosen.value < i
      invariant Nearest(notes, c, i, chosen, closestDistance) == Nearest(notes, c, 0, None, LongMaxValue)
    {
      var note := notes[i];
      if note.isFocused || note.interval.IsOverlapping(Span(c, c)) {
        return Some(i);
      }
      var actualDistance := EdgeDistance(note.interval, c);
      if actualDistance < closestDistance {
        chosen := Some(i);
        closestDistance := actualDistance;
      }
      i := i + 1;
    }
  }

  /** The edge a click at `c` moves on `s`: the start edge when the click is strictly
      nearer to Start than to End, the end edge otherwise (a tie moves the end). */
  function NearerEdge(s: Span, c: int): (a: HitTestArea)
    ensures a == NoteLeft || a == NoteRight
    ensures a == NoteLeft <==> Abs(s.start - c) < Abs(c - s.end)
  {
    var (toStart, toEnd) := s.DistanceFromOverlap(c);
    if Abs(toStart) < Abs(toEnd) then NoteLeft else NoteRight
  }

  /** The extra-button release: the note ClosestNoteIndex chooses has its nearer edge
      moved to the clicked byte; with no such note nothing moves. */
  method XButtonRelease(notes: seq<Note>, c: int) returns (moved: Option<NoteMove>)
    ensures moved == match ClosestNoteIndex(notes, c)
                     case None => None
                     case Some(k) => Some(NoteMove(notes[k], NearerEdge(notes[k].interval, c), c))
    ensures moved.Some? ==>
              moved.value.note in notes && moved.value.byteIndex == c
              && (moved.value.area == NoteLeft <==>
                    Abs(moved.value.note.interval.start - c) < Abs(c - moved.value.note.interval.end))
  {
    var chosen := ClosestNote(notes, c);
    if chosen.None? {
      return None;
    }
    var note := notes[chosen.value];
    var (toStart, toEnd) := note.interval.DistanceFromOverlap(c);
    var isStart := Abs(toStart) < Abs(toEnd);
    moved := Some(NoteMove(note, if isStart then NoteLeft else NoteRight, c));
  }

  /** The position of the first note in `notes` that equals `note`. */
  function FirstEqual(notes: seq<Note>, note: Note): (r: Option<nat>)
    ensures r.Some? ==> r.value < |notes| && NoteEquals(notes[r.value], Some(note))
                        && forall j :: 0 <= j < r.value ==> !NoteEquals(notes[j], Some(note))
    ensures r.None? ==> forall j :: 0 <= j < |notes| ==> !NoteEquals(notes[j], Some(note))
  {
    if notes == [] then None
    else if NoteEquals(notes[0], Some(note)) then Some(0)
    else match FirstEqual(notes[1..], note)
      case None => None
      case Some(k) => Some(k + 1)
  }

  /** The bounds a dragged note edge may move between, before the neighbours are
      considered: a dragged start edge stays `minWidth` before the note's End, a dragged
      end edge `minWidth` after its Start; otherwise the whole stream. */
  function OwnCaps(other: Span, draggingArea: HitTestArea, minWidth: int, bytesTotal: int): (int, int)
  {
    (if draggingArea == NoteRight then other.start + minWidth else 0,
     if draggingArea == NoteLeft then other.end - minWidth else bytesTotal)
  }

  /** The cap a later neighbour puts on the drag: its Start, or its Start minus its
      length when the last render request carries the centre area. While a note is
      dragged, Render puts the dragging area into the request, so that happens exactly
      when the note's centre is dragged. */
  function NextBound(next: Span, requestArea: HitTestArea): int
  {
    if requestArea == NoteCenter then next.start - next.Length() else next.start
  }

  /** The drag caps after the neighbours of the dragged note are considered. */
  function Caps(notes: seq<Note>, note: Note, draggingArea: HitTestArea, requestArea: HitTestArea,
                minWidth: int, bytesTotal: int): (int, int)
  {
    match FirstEqual(notes, note)
    case None => (0, bytesTotal)
    case Some(i) =>
      var (capStart, capEnd) := OwnCaps(notes[i].interval, draggingArea, minWidth, bytesTotal);
      var previousEnd := if i > 0 then notes[i - 1].interval.end else capStart;
      var nextStart := if i < |notes| - 1 then NextBound(notes[i + 1].interval, requestArea) else capEnd;
      (Max(capStart, previousEnd), Min(capEnd, nextStart))
  }

  /** What Caps promises: the start cap is never before the previous note's End and the
      end cap never after the next note's bound, and neither is looser than the note's
      own caps; with no equal note in the list the caps span the whole stream. */
  lemma CapsRespectNeighbours(notes: seq<Note>, note: Note, draggingArea: HitTestArea,
                              requestArea: HitTestArea, minWidth: int, bytesTotal: int)
    ensures var (capStart, capEnd) := Caps(notes, note, draggingArea, requestArea, minWidth, bytesTotal);
            match FirstEqual(notes, note)
            case None => capStart == 0 && capEnd == bytesTotal
            case Some(i) =>
              var own := OwnCaps(notes[i].interval, draggingArea, minWidth, bytesTotal);
              capStart >= own.0 && capEnd <= own.1
              && (i > 0 ==> capStart >= notes[i - 1].interval.end)
              && (i < |notes| - 1 ==> capEnd <= NextBound(notes[i + 1].interval, requestArea))
  {
  }

  /** The loop of the drag handler that finds the dragged note among the rendered ones
      and then narrows the caps to its neighbours. */
  method DragCaps(notes: seq<Note>, note: Note, draggingArea: HitTestArea, requestArea: HitTestArea,
                  minWidth: int, bytesTotal: int) returns (capStart: int, capEnd: int)
    ensures (capStart, capEnd) == Caps(notes, note, draggingArea, requestArea, minWidth, bytesTotal)
  {
    capStart := 0;
    capEnd := bytesTotal;
    var foundIndex := -1;
    var i := 0;
    while i < |notes|
      invariant 0 <= i <= |notes|
      invariant forall j :: 0 <= j < i ==> !NoteEquals(notes[j], Some(note))
      invariant capStart == 0 && capEnd == bytesTotal
    {
      var otherNote := notes[i];
      if !NoteEquals(otherNote, Some(note)) {
        i := i + 1;
        continue;
      }
      match draggingArea {
        case NoteLeft => capEnd := otherNote.interval.end - minWidth;
        case NoteRight => capStart := otherNote.interval.start + minWidth;
        case _ =>
      }
      foundIndex := i;
      break;
    }

    if foundIndex != -1 {
      var previousEnd, nextStart;
      previousEnd := if foundIndex > 0 then notes[foundIndex - 1].interval.end else capStart;
      if requestArea == NoteCenter {
        nextStart := if foundIndex < |notes| - 1
          then notes[foundIndex + 1].interval.start - notes[foundIndex + 1].interval.Length()
          else capEnd;
      } else {
        nextStart := if foundIndex < |notes| - 1 then notes[foundIndex + 1].interval.start else capEnd;
      }
      capStart := Max(capStart, previousEnd);
      capEnd := Min(capEnd, nextStart);
    }
  }

  /** The byte index a dragged edge is reported at: the drag start moved by the pointer's
      byte distance, clamped to the caps. It is inside the caps whenever they are not
      crossed, and is the unclamped target when that lies inside. */
  function DragTarget(capStart: int, capEnd: int, dragStart: int, byteDistance: int): (r: int)
    ensures r >= capStart
    ensures capStart <= capEnd ==> capStart <= r <= capEnd
    ensures capStart <= dragStart - byteDistance <= capEnd ==> r == dragStart - byteDistance
  {
    Max(capStart, Min(capEnd, dragStart - byteDistance))
  }

  /** A press becomes a drag once the pointer is more than three pixels away from where
      it was pressed. */
  function IsDragging(startX: int, endX: int): (r: bool)
    ensures r <==> Abs(startX - endX) > 3
  {
    Max(startX, endX) - Min(startX, endX) > 3
  }
}
