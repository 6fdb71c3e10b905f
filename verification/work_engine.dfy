/** The pure rules of the tile-coverage engine: the reference definition of the
    split-and-merge walk over the index of accepted work ranges, the FFT bin
    index of a frequency, and the speech-boundary search over a speech oracle. */
module WorkEngine {
  import opened Common
  import opened Works

  /** `List<T>.Insert(i, x)`: `x` lands at position `i`, later entries shift right. */
  function Insert(s: seq<Work>, i: nat, x: Work): (r: seq<Work>)
    requires i <= |s|
    ensures |r| == |s| + 1 && r[i] == x
    ensures r[..i] == s[..i] && r[i + 1..] == s[i..]
  {
    s[..i] + [x] + s[i..]
  }

  /** The code after the loop: what is left of the request is inserted at the
      current index and returned when it is longer than zero. */
  function Finish(idx: seq<Work>, wi: nat, q: Work, todo: seq<Work>): (seq<Work>, seq<Work>)
    requires wi <= |idx|
  {
    if q.to - q.from > 0 then (Insert(idx, wi, q), todo + [q]) else (idx, todo)
  }

  /** One iteration after another of the loop of SplitAndMerge, from the state
      (index `idx`, `workIndex` = `wi`, request `q`, returned list `todo`), giving the
      final index and the final returned list. Every branch is the code's own: the
      `break` on a later entry still falls through to the code after the loop, and
      an insertion at `wi` followed by `wi + 1` visits the same existing entry again. */
  function Walk(idx: seq<Work>, wi: nat, q: Work, todo: seq<Work>): (seq<Work>, seq<Work>)
    requires wi <= |idx|
    decreases |idx| - wi, if wi < |idx| && idx[wi].IsOverlapping(q) then 1 else 0
  {
    if wi == |idx| then Finish(idx, wi, q, todo)
    else
      var e := idx[wi];
      if e.IsLaterThan(q) then
        Finish(Insert(idx, wi, q), wi, q, todo + [q])
      else if e.IsOverlapping(q) then
        var startingBefore := e.IsStartingBefore(q);
        var endingAfter := e.IsEndingAfter(q);
        var q1 := if startingBefore then q.(from := e.to) else q;
        if endingAfter then
          var q2 := q1.(to := e.from);
          if q2.to - q2.from > 0 then
            var newWork := NewWork(q2.from, q2.to);
            Walk(Insert(idx, wi, newWork), wi + 1, q2, todo + [newWork])
          else
            Walk(idx, wi + 1, q2, todo)
        else if !startingBefore then
          var preWork := NewWork(q1.from, e.from);
          var postWork := NewWork(e.to, q1.to);
          if preWork.to - preWork.from > 0 then
            Walk(Insert(idx, wi, preWork), wi + 1, postWork, todo + [preWork])
          else
            Walk(idx, wi + 1, postWork, todo)
        else
          Walk(idx, wi + 1, q1, todo)
      else if q.IsEarlierThan(e) then
        // The code inserts `q` here and breaks, but this test is the converse of the
        // IsLaterThan test that already failed (Works.EarlierIsConverseOfLater).
        assert false; (idx, todo)
      else
        Walk(idx, wi + 1, q, todo)
  }

  /** SplitAndMerge of `queued` against the index `idx`: the new index and the
      ranges returned for rendering. */
  function SplitMerge(idx: seq<Work>, queued: Work): (seq<Work>, seq<Work>)
  {
    Walk(idx, 0, queued, [])
  }

  /** `c` is an order-preserving merge of `a` and `b`: every entry of `c` comes from
      exactly one of them and each keeps its relative order. */
  ghost predicate Interleaving(c: seq<Work>, a: seq<Work>, b: seq<Work>)
    decreases |c|
  {
    if c == [] then a == [] && b == []
    else
      (a != [] && c[|c| - 1] == a[|a| - 1] && Interleaving(c[..|c| - 1], a[..|a| - 1], b))
      || (b != [] && c[|c| - 1] == b[|b| - 1] && Interleaving(c[..|c| - 1], a, b[..|b| - 1]))
  }

  lemma {:induction false} InterleavingCounts(c: seq<Work>, a: seq<Work>, b: seq<Work>)
    requires Interleaving(c, a, b)
    ensures |c| == |a| + |b|
    ensures multiset(c) == multiset(a) + multiset(b)
    decreases |c|
  {
    if c != [] {
      var n := |c| - 1;
      var c' := c[..n];
      assert c == c' + [c[n]];
      assert multiset(c) == multiset(c') + multiset{c[n]};
      if a != [] && c[n] == a[|a| - 1] && Interleaving(c', a[..|a| - 1], b) {
        var a' := a[..|a| - 1];
        InterleavingCounts(c', a', b);
        assert a == a' + [c[n]];
        assert multiset(a) == multiset(a') + multiset{c[n]};
      } else {
        var b' := b[..|b| - 1];
        assert b != [] && c[n] == b[|b| - 1] && Interleaving(c', a, b');
        InterleavingCounts(c', a, b');
        assert b == b' + [c[n]];
        assert multiset(b) == multiset(b') + multiset{c[n]};
      }
    }
  }

  lemma AppendFirst(c: seq<Work>, a: seq<Work>, b: seq<Work>, x: Work)
    requires Interleaving(c, a, b)
    ensures Interleaving(c + [x], a + [x], b)
  {
    assert (c + [x])[..|c|] == c;
    assert (a + [x])[..|a|] == a;
  }

  lemma AppendSecond(c: seq<Work>, a: seq<Work>, b: seq<Work>, x: Work)
    requires Interleaving(c, a, b)
    ensures Interleaving(c + [x], a, b + [x])
  {
    assert (c + [x])[..|c|] == c;
    assert (b + [x])[..|b|] == b;
  }

  lemma {:induction false} AppendFirstSeq(c: seq<Work>, a: seq<Work>, b: seq<Work>, s: seq<Work>)
    requires Interleaving(c, a, b)
    ensures Interleaving(c + s, a + s, b)
    decreases |s|
  {
    if s == [] {
      assert c + s == c && a + s == a;
    } else {
      var n := |s| - 1;
      AppendFirstSeq(c, a, b, s[..n]);
      AppendFirst(c + s[..n], a + s[..n], b, s[n]);
      assert c + s[..n] + [s[n]] == c + s;
      assert a + s[..n] + [s[n]] == a + s;
    }
  }

  /** The loop state of SplitAndMerge relates to the original index `orig`:
      what lies before `wi` merges the first `k` original entries with the returned
      ranges, and what lies from `wi` on is the untouched rest of the original. */
  ghost predicate WalkState(orig: seq<Work>, idx: seq<Work>, wi: nat, todo: seq<Work>, k: nat)
  {
    wi <= |idx| && k <= |orig| && Interleaving(idx[..wi], orig[..k], todo) && idx[wi..] == orig[k..]
  }

  lemma InsertKeepsState(orig: seq<Work>, idx: seq<Work>, wi: nat, todo: seq<Work>, k: nat, x: Work)
    requires WalkState(orig, idx, wi, todo, k)
    ensures WalkState(orig, Insert(idx, wi, x), wi + 1, todo + [x], k)
  {
    var idx' := Insert(idx, wi, x);
    assert idx'[..wi + 1] == idx[..wi] + [x];
    AppendSecond(idx[..wi], orig[..k], todo, x);
  }

  lemma AdvanceKeepsState(orig: seq<Work>, idx: seq<Work>, wi: nat, todo: seq<Work>, k: nat)
    requires WalkState(orig, idx, wi, todo, k) && wi < |idx|
    ensures k < |orig| && WalkState(orig, idx, wi + 1, todo, k + 1)
  {
    assert idx[wi] == orig[k];
    assert idx[..wi + 1] == idx[..wi] + [idx[wi]];
    assert orig[..k + 1] == orig[..k] + [orig[k]];
    AppendFirst(idx[..wi], orig[..k], todo, orig[k]);
  }

  lemma FinishInterleaves(orig: seq<Work>, idx: seq<Work>, wi: nat, q: Work, todo: seq<Work>, k: nat)
    requires WalkState(orig, idx, wi, todo, k)
    ensures Interleaving(Finish(idx, wi, q, todo).0, orig, Finish(idx, wi, q, todo).1)
  {
    var (idx', todo') := Finish(idx, wi, q, todo);
    var wi' := if q.to - q.from > 0 then wi + 1 else wi;
    if q.to - q.from > 0 {
      InsertKeepsState(orig, idx, wi, todo, k, q);
    }
    assert WalkState(orig, idx', wi', todo', k);
    AppendFirstSeq(idx'[..wi'], orig[..k], todo', orig[k..]);
    assert idx'[..wi'] + idx'[wi'..] == idx';
    assert orig[..k] + orig[k..] == orig;
  }

  /** The `break` on a later entry: `q` is inserted, then the code after the loop
      inserts it once more at the same index when it is longer than zero. */
  lemma BreakInterleaves(orig: seq<Work>, idx: seq<Work>, wi: nat, q: Work, todo: seq<Work>, k: nat)
    requires WalkState(orig, idx, wi, todo, k)
    ensures Interleaving(Finish(Insert(idx, wi, q), wi, q, todo + [q]).0, orig,
                         Finish(Insert(idx, wi, q), wi, q, todo + [q]).1)
  {
    InsertKeepsState(orig, idx, wi, todo, k, q);
    var idx1 := Insert(idx, wi, q);
    assert idx1[..wi] == idx[..wi];
    if q.to - q.from > 0 {
      var idx2 := Insert(idx1, wi, q);
      assert idx2[..wi + 2] == idx[..wi] + [q] + [q];
      assert idx2[wi + 2..] == idx[wi..];
      AppendSecond(idx[..wi], orig[..k], todo, q);
      AppendSecond(idx[..wi] + [q], orig[..k], todo + [q], q);
      assert WalkState(orig, idx2, wi + 2, todo + [q] + [q], k);
      AppendFirstSeq(idx2[..wi + 2], orig[..k], todo + [q] + [q], orig[k..]);
      assert idx2[..wi + 2] + idx2[wi + 2..] == idx2;
      assert orig[..k] + orig[k..] == orig;
    } else {
      FinishInterleaves(orig, idx1, wi + 1, q, todo + [q], k);
    }
  }

  lemma {:induction false} WalkInterleaves(orig: seq<Work>, idx: seq<Work>, wi: nat, q: Work, todo: seq<Work>, k: nat)
    requires WalkState(orig, idx, wi, todo, k)
    ensures Interleaving(Walk(idx, wi, q, todo).0, orig, Walk(idx, wi, q, todo).1)
    decreases |idx| - wi, if wi < |idx| && idx[wi].IsOverlapping(q) then 1 else 0
  {
    if wi == |idx| {
      FinishInterleaves(orig, idx, wi, q, todo, k);
    } else {
      var e := idx[wi];
      if e.IsLaterThan(q) {
        BreakInterleaves(orig, idx, wi, q, todo, k);
      } else if e.IsOverlapping(q) {
        var startingBefore := e.IsStartingBefore(q);
        var endingAfter := e.IsEndingAfter(q);
        var q1 := if startingBefore then q.(from := e.to) else q;
        if endingAfter {
          var q2 := q1.(to := e.from);
          if q2.to - q2.from > 0 {
            var newWork := NewWork(q2.from, q2.to);
            InsertKeepsState(orig, idx, wi, todo, k, newWork);
            WalkInterleaves(orig, Insert(idx, wi, newWork), wi + 1, q2, todo + [newWork], k);
          } else {
            AdvanceKeepsState(orig, idx, wi, todo, k);
            WalkInterleaves(orig, idx, wi + 1, q2, todo, k + 1);
          }
        } else if !startingBefore {
          var preWork := NewWork(q1.from, e.from);
          var postWork := NewWork(e.to, q1.to);
          if preWork.to - preWork.from > 0 {
            InsertKeepsState(orig, idx, wi, todo, k, preWork);
            WalkInterleaves(orig, Insert(idx, wi, preWork), wi + 1, postWork, todo + [preWork], k);
          } else {
            AdvanceKeepsState(orig, idx, wi, todo, k);
            WalkInterleaves(orig, idx, wi + 1, postWork, todo, k + 1);
          }
        } else {
          AdvanceKeepsState(orig, idx, wi, todo, k);
          WalkInterleaves(orig, idx, wi + 1, q1, todo, k + 1);
        }
      } else {
        AdvanceKeepsState(orig, idx, wi, todo, k);
        WalkInterleaves(orig, idx, wi + 1, q, todo, k + 1);
      }
    }
  }

  /** SplitAndMerge only inserts: the new index is the old index with the returned
      ranges merged in, both in their own order, so the old entries keep their values
      and relative order and the index grows by exactly the number of returned ranges. */
  lemma SplitMergeOnlyInserts(idx: seq<Work>, queued: Work)
    ensures Interleaving(SplitMerge(idx, queued).0, idx, SplitMerge(idx, queued).1)
    ensures |SplitMerge(idx, queued).0| == |idx| + |SplitMerge(idx, queued).1|
    ensures multiset(SplitMerge(idx, queued).0) == multiset(idx) + multiset(SplitMerge(idx, queued).1)
  {
    assert WalkState(idx, idx, 0, [], 0);
    WalkInterleaves(idx, idx, 0, queued, [], 0);
    InterleavingCounts(SplitMerge(idx, queued).0, idx, SplitMerge(idx, queued).1);
  }

  /** Every range of `todo` lies within the bounds [lo, hi) and carries no bitmap. */
  ghost predicate AllWithin(todo: seq<Work>, lo: int, hi: int)
  {
    forall j :: 0 <= j < |todo| ==> lo <= todo[j].from && todo[j].to <= hi && !todo[j].hasBitmap
  }

  lemma {:induction false} WalkWithin(idx: seq<Work>, wi: nat, q: Work, todo: seq<Work>, lo: int, hi: int)
    requires wi <= |idx|
    requires lo <= q.from && q.to <= hi && !q.hasBitmap && AllWithin(todo, lo, hi)
    ensures AllWithin(Walk(idx, wi, q, todo).1, lo, hi)
    decreases |idx| - wi, if wi < |idx| && idx[wi].IsOverlapping(q) then 1 else 0
  {
    if wi < |idx| {
      var e := idx[wi];
      if e.IsLaterThan(q) {
      } else if e.IsOverlapping(q) {
        var startingBefore := e.IsStartingBefore(q);
        var endingAfter := e.IsEndingAfter(q);
        var q1 := if startingBefore then q.(from := e.to) else q;
        if endingAfter {
          var q2 := q1.(to := e.from);
          if q2.to - q2.from > 0 {
            WalkWithin(Insert(idx, wi, NewWork(q2.from, q2.to)), wi + 1, q2, todo + [NewWork(q2.from, q2.to)], lo, hi);
          } else {
            WalkWithin(idx, wi + 1, q2, todo, lo, hi);
          }
        } else if !startingBefore {
          var preWork := NewWork(q1.from, e.from);
          var postWork := NewWork(e.to, q1.to);
          if preWork.to - preWork.from > 0 {
            WalkWithin(Insert(idx, wi, preWork), wi + 1, postWork, todo + [preWork], lo, hi);
          } else {
            WalkWithin(idx, wi + 1, postWork, todo, lo, hi);
          }
        } else {
          WalkWithin(idx, wi + 1, q1, todo, lo, hi);
        }
      } else {
        WalkWithin(idx, wi + 1, q, todo, lo, hi);
      }
    }
  }

  /** Every returned range lies within the bounds of the request: clipping only
      raises `from` and lowers `to`. New ranges carry no bitmap. */
  lemma SplitMergeWithinRequest(idx: seq<Work>, queued: Work, j: nat)
    requires !queued.hasBitmap && j < |SplitMerge(idx, queued).1|
    ensures queued.from <= SplitMerge(idx, queued).1[j].from
    ensures SplitMerge(idx, queued).1[j].to <= queued.to
    ensures !SplitMerge(idx, queued).1[j].hasBitmap
  {
    WalkWithin(idx, 0, queued, [], queued.from, queued.to);
  }
}

module WorkEngineFacts {
  import opened Works
  import opened WorkEngine

  /** On an empty index, a request longer than zero is returned alone and becomes the
      only entry; any other request returns nothing and leaves the index empty. */
  lemma SplitMergeOnEmpty(queued: Work)
    ensures queued.to > queued.from ==> SplitMerge([], queued) == ([queued], [queued])
    ensures queued.to <= queued.from ==> SplitMerge([], queued) == ([], [])
  {
    assert SplitMerge([], queued) == Walk([], 0, queued, []) == Finish([], 0, queued, []);
    assert Insert([], 0, queued) == [queued];
    assert [] + [queued] == [queued];
  }

  /** Index [100,200) and request [50,250): the two uncovered ends [50,100) and
      [200,250) are returned and the index becomes [50,100), [100,200), [200,250). */
  lemma SplitAroundEntry()
    ensures SplitMerge([NewWork(100, 200)], NewWork(50, 250))
         == ([NewWork(50, 100), NewWork(100, 200), NewWork(200, 250)], [NewWork(50, 100), NewWork(200, 250)])
  {
    var e, pre, post := NewWork(100, 200), NewWork(50, 100), NewWork(200, 250);
    var idx1 := Insert([e], 0, pre);
    assert idx1 == [pre, e];
    assert [] + [pre] == [pre];
    assert SplitMerge([e], NewWork(50, 250)) == Walk([e], 0, NewWork(50, 250), []);
    assert Walk([e], 0, NewWork(50, 250), []) == Walk(idx1, 1, post, [pre]);
    assert Walk(idx1, 1, post, [pre]) == Walk(idx1, 2, post, [pre]);
    assert Walk(idx1, 2, post, [pre]) == Finish(idx1, 2, post, [pre]);
    assert Insert(idx1, 2, post) == [pre, e, post];
    assert [pre] + [post] == [pre, post];
  }

  /** Index [0,1000) and request [100,200): the request is covered, nothing is returned
      and the index is unchanged. */
  lemma ContainedRequestIsNoOp()
    ensures SplitMerge([NewWork(0, 1000)], NewWork(100, 200)) == ([NewWork(0, 1000)], [])
  {
    var e := NewWork(0, 1000);
    assert SplitMerge([e], NewWork(100, 200)) == Walk([e], 0, NewWork(100, 200), []);
    assert Walk([e], 0, NewWork(100, 200), []) == Walk([e], 1, NewWork(1000, 0), []);
  }

  /** Requesting exactly the range of the only entry returns nothing. */
  lemma SameRangeIsNoOp(from: int, to: int)
    requires from < to
    ensures SplitMerge([NewWork(from, to)], NewWork(from, to)) == ([NewWork(from, to)], [])
  {
    var e := NewWork(from, to);
    assert SplitMerge([e], e) == Walk([e], 0, e, []);
    assert Walk([e], 0, e, []) == Walk([e], 1, NewWork(to, to), []);
  }

  /** Quirk of the `break`: index [100,200) and request [0,50) return [0,50) twice
      and the index holds it twice before [100,200). */
  lemma EarlierRequestReturnedTwice()
    ensures SplitMerge([NewWork(100, 200)], NewWork(0, 50))
         == ([NewWork(0, 50), NewWork(0, 50), NewWork(100, 200)], [NewWork(0, 50), NewWork(0, 50)])
  {
    var e, q := NewWork(100, 200), NewWork(0, 50);
    assert SplitMerge([e], q) == Walk([e], 0, q, []) == Finish(Insert([e], 0, q), 0, q, [] + [q]);
    assert [] + [q] == [q];
    assert Insert([e], 0, q) == [q, e];
    assert Insert([q, e], 0, q) == [q, q, e];
    assert Finish([q, e], 0, q, [q]) == ([q, q, e], [q] + [q]);
    assert [q] + [q] == [q, q];
  }

  /** Quirk of the end clip: index [100,200) and request [50,150) return [50,100)
      twice, once from the clip and once from the code after the loop, and the index
      becomes [50,100), [100,200), [50,100). */
  lemma EndClipReturnedTwice()
    ensures SplitMerge([NewWork(100, 200)], NewWork(50, 150))
         == ([NewWork(50, 100), NewWork(100, 200), NewWork(50, 100)], [NewWork(50, 100), NewWork(50, 100)])
  {
    var e, c := NewWork(100, 200), NewWork(50, 100);
    var idx1 := Insert([e], 0, c);
    assert idx1 == [c, e];
    assert [] + [c] == [c];
    assert SplitMerge([e], NewWork(50, 150)) == Walk([e], 0, NewWork(50, 150), []);
    assert Walk([e], 0, NewWork(50, 150), []) == Walk(idx1, 1, c, [c]);
    assert Walk(idx1, 1, c, [c]) == Walk(idx1, 2, c, [c]);
    assert Walk(idx1, 2, c, [c]) == Finish(idx1, 2, c, [c]);
    assert Insert(idx1, 2, c) == [c, e, c];
    assert [c] + [c] == [c, c];
  }

  /** A request that only touches an entry ([50,100) against [100,200)) is appended
      after that entry. */
  lemma TouchingRequestAppendedAfter()
    ensures SplitMerge([NewWork(100, 200)], NewWork(50, 100))
         == ([NewWork(100, 200), NewWork(50, 100)], [NewWork(50, 100)])
  {
    var e, q := NewWork(100, 200), NewWork(50, 100);
    assert SplitMerge([e], q) == Walk([e], 0, q, []);
    assert Walk([e], 0, q, []) == Walk([e], 1, q, []);
    assert [] + [q] == [q];
    assert Insert([e], 1, q) == [e, q];
  }

  /** A request contained in an entry that is followed by a later entry is clipped on
      both sides to a negative-length range, which the `break` then inserts and returns. */
  lemma ContainedRequestBeforeLaterEntry()
    ensures SplitMerge([NewWork(0, 1000), NewWork(2000, 3000)], NewWork(100, 200))
         == ([NewWork(0, 1000), NewWork(1000, 0), NewWork(2000, 3000)], [NewWork(1000, 0)])
  {
    var e1, e2, r := NewWork(0, 1000), NewWork(2000, 3000), NewWork(1000, 0);
    assert SplitMerge([e1, e2], NewWork(100, 200)) == Walk([e1, e2], 0, NewWork(100, 200), []);
    assert Walk([e1, e2], 0, NewWork(100, 200), []) == Walk([e1, e2], 1, r, []);
    assert Walk([e1, e2], 1, r, []) == Finish(Insert([e1, e2], 1, r), 1, r, [] + [r]);
    assert [] + [r] == [r];
    assert Insert([e1, e2], 1, r) == [e1, r, e2];
  }
}
