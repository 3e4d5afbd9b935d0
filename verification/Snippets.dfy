/**
 The snippet windows around the search hits of one session (apps/core/neuromem_core/queries.py:293-312).
 */
module Snippets {
  import opened Seqs
  import opened Sorting

  /** A window of sequence numbers around one hit, both ends included. */
  datatype Window = Window(start: int, end: int, hit: nat)

  datatype Merged = Merged(start: int, end: int, hits: seq<nat>)

  /** A hit and its place in the session. */
  datatype Target = Target(sequence: int, hit: nat)

  function WindowOf(t: Target, before: nat, after: nat): Window {
    Window(if t.sequence - before > 1 then t.sequence - before else 1, t.sequence + after, t.hit)
  }

  // The order of tuples

  predicate Before(a: Window, b: Window) {
    a.start < b.start || (a.start == b.start && (a.end < b.end || (a.end == b.end && a.hit < b.hit)))
  }

  /** intervals.sort() */
  function Sorted(ws: seq<Window>): seq<Window> {
    Sort(Before, ws)
  }

  ghost predicate Ascending(s: seq<Window>) {
    forall i, j | 0 <= i < j < |s| :: s[i].start <= s[j].start
  }

  lemma SortedSpec(ws: seq<Window>)
    ensures Ascending(Sorted(ws)) && multiset(Sorted(ws)) == multiset(ws)
  {
    SortOrdered(Before, ws);
    SortPermutes(Before, ws);
  }

  // What merging means

  ghost predicate Covered(ws: seq<Window>, n: int) {
    exists i | 0 <= i < |ws| :: ws[i].start <= n <= ws[i].end
  }

  ghost predicate CoveredMerged(ms: seq<Merged>, n: int) {
    exists i | 0 <= i < |ms| :: ms[i].start <= n <= ms[i].end
  }

  /** Sorted, with at least one uncovered number between neighbours. */
  ghost predicate Separated(ms: seq<Merged>) {
    (forall i | 0 <= i < |ms| :: ms[i].start <= ms[i].end) && forall i, j | 0 <= i < j < |ms| :: ms[i].end + 1 < ms[j].start
  }

  function AllHits(ms: seq<Merged>): seq<nat> {
    if ms == [] then [] else AllHits(ms[..|ms| - 1]) + ms[|ms| - 1].hits
  }

  function HitsOf(ws: seq<Window>): seq<nat> {
    seq(|ws|, i requires 0 <= i < |ws| => ws[i].hit)
  }

  /** The window of a hit lies within the merged window. */
  ghost predicate Holds(m: Merged, ws: seq<Window>, hit: nat) {
    exists i | 0 <= i < |ws| :: ws[i].hit == hit && m.start <= ws[i].start && ws[i].end <= m.end
  }

  ghost predicate Within(ms: seq<Merged>, ws: seq<Window>) {
    forall i, k | 0 <= i < |ms| && 0 <= k < |ms[i].hits| :: Holds(ms[i], ws, ms[i].hits[k])
  }

  ghost predicate Merges(ms: seq<Merged>, ws: seq<Window>) {
    && Separated(ms) && AllHits(ms) == HitsOf(ws) && Within(ms, ws)
    && forall n :: Covered(ws, n) <==> CoveredMerged(ms, n)
  }

  // One window

  function Joined(m: Merged, w: Window): Merged {
    Merged(m.start, if w.end > m.end then w.end else m.end, m.hits + [w.hit])
  }

  lemma CoveredGrows(ws: seq<Window>, w: Window, n: int)
    ensures Covered(ws + [w], n) <==> Covered(ws, n) || w.start <= n <= w.end
  {
    var after := ws + [w];
    assert after[|ws|] == w;
    assert forall i | 0 <= i < |ws| :: after[i] == ws[i];
  }

  lemma MergedSplit(front: seq<Merged>, m: Merged, n: int)
    ensures CoveredMerged(front + [m], n) <==> CoveredMerged(front, n) || m.start <= n <= m.end
  {
    var after := front + [m];
    assert after[|front|] == m;
    assert forall i | 0 <= i < |front| :: after[i] == front[i];
  }

  lemma HoldsGrows(m: Merged, ws: seq<Window>, w: Window, hit: nat, wider: Merged)
    requires Holds(m, ws, hit) && wider.start <= m.start && m.end <= wider.end
    ensures Holds(wider, ws + [w], hit)
  {
    var i :| 0 <= i < |ws| && ws[i].hit == hit && m.start <= ws[i].start && ws[i].end <= m.end;
    assert (ws + [w])[i] == ws[i];
  }

  lemma HitsGrow(ws: seq<Window>, w: Window)
    ensures HitsOf(ws + [w]) == HitsOf(ws) + [w.hit]
  {
  }

  lemma AllHitsGrow(front: seq<Merged>, m: Merged)
    ensures AllHits(front + [m]) == AllHits(front) + m.hits
  {
    assert (front + [m])[..|front|] == front;
  }

  /** A window that starts after a gap opens a new merged window. */
  lemma Opens(ms: seq<Merged>, ws: seq<Window>, w: Window)
    requires Merges(ms, ws) && w.start <= w.end && (ms != [] ==> ms[|ms| - 1].end + 1 < w.start)
    ensures Merges(ms + [Merged(w.start, w.end, [w.hit])], ws + [w])
  {
    var m := Merged(w.start, w.end, [w.hit]);
    var after := ms + [m];
    HitsGrow(ws, w);
    AllHitsGrow(ms, m);
    forall n ensures Covered(ws + [w], n) <==> CoveredMerged(after, n) {
      CoveredGrows(ws, w, n);
      MergedSplit(ms, m, n);
    }
    forall i, k | 0 <= i < |after| && 0 <= k < |after[i].hits| ensures Holds(after[i], ws + [w], after[i].hits[k]) {
      if i < |ms| {
        HoldsGrows(ms[i], ws, w, ms[i].hits[k], ms[i]);
      } else {
        assert (ws + [w])[|ws|] == w;
      }
    }
  }

  /** A window that touches the last merged one extends it. */
  lemma Extends(front: seq<Merged>, m: Merged, ws: seq<Window>, w: Window)
    requires Merges(front + [m], ws) && w.start <= w.end && m.start <= w.start <= m.end + 1
    ensures Merges(front + [Joined(m, w)], ws + [w])
  {
    var (before, after) := (front + [m], front + [Joined(m, w)]);
    HitsGrow(ws, w);
    AllHitsGrow(front, m);
    AllHitsGrow(front, Joined(m, w));
    forall n ensures Covered(ws + [w], n) <==> CoveredMerged(after, n) {
      CoveredGrows(ws, w, n);
      MergedSplit(front, m, n);
      MergedSplit(front, Joined(m, w), n);
    }
    assert forall i | 0 <= i < |front| :: before[i] == front[i] == after[i];
    forall i, k | 0 <= i < |after| && 0 <= k < |after[i].hits| ensures Holds(after[i], ws + [w], after[i].hits[k]) {
      if i == |front| && k == |m.hits| {
        assert (ws + [w])[|ws|] == w;
      } else {
        assert before[i].hits[k] == after[i].hits[k];
        HoldsGrows(before[i], ws, w, before[i].hits[k], after[i]);
      }
    }
  }

  // The loop

  /** One turn of the loop. */
  method MergeOne(merged: seq<Merged>, w: Window, ghost ws: seq<Window>) returns (after: seq<Merged>)
    requires Merges(merged, ws) && w.start <= w.end && (merged != [] ==> merged[|merged| - 1].start <= w.start)
    ensures Merges(after, ws + [w]) && after != [] && after[|after| - 1].start <= w.start
  {
    if merged != [] && w.start <= merged[|merged| - 1].end + 1 {
      var previous := merged[|merged| - 1];
      Front(merged);
      Extends(merged[..|merged| - 1], previous, ws, w);
      after := merged[..|merged| - 1] + [Merged(previous.start, if w.end > previous.end then w.end else previous.end, previous.hits + [w.hit])];
    } else {
      Opens(merged, ws, w);
      after := merged + [Merged(w.start, w.end, [w.hit])];
    }
  }

  /** Merges the windows of one session. */
  method MergeWindows(targets: seq<Target>, before: nat, after: nat) returns (merged: seq<Merged>)
    requires forall i | 0 <= i < |targets| :: targets[i].sequence >= 1
    ensures Merges(merged, Sorted(Windows(targets, before, after)))
  {
    var intervals := Sorted(Windows(targets, before, after));
    SortedSpec(Windows(targets, before, after));
    ProperWindows(targets, before, after, intervals);
    merged := [];
    var i := 0;
    while i < |intervals|
      invariant 0 <= i <= |intervals|
      invariant Merges(merged, intervals[..i])
      invariant merged != [] ==> i > 0 && merged[|merged| - 1].start <= intervals[i - 1].start
    {
      PrefixGrows(intervals, i);
      merged := MergeOne(merged, intervals[i], intervals[..i]);
      i := i + 1;
    }
    WholePrefix(intervals);
  }

  function Windows(targets: seq<Target>, before: nat, after: nat): seq<Window> {
    seq(|targets|, i requires 0 <= i < |targets| => WindowOf(targets[i], before, after))
  }

  lemma ProperWindows(targets: seq<Target>, before: nat, after: nat, sorted: seq<Window>)
    requires forall i | 0 <= i < |targets| :: targets[i].sequence >= 1
    requires multiset(sorted) == multiset(Windows(targets, before, after))
    ensures forall i | 0 <= i < |sorted| :: 1 <= sorted[i].start <= sorted[i].end
  {
    forall i | 0 <= i < |sorted| ensures 1 <= sorted[i].start <= sorted[i].end {
      assert sorted[i] in multiset(sorted);
      assert sorted[i] in Windows(targets, before, after);
    }
  }

  lemma Front(ms: seq<Merged>)
    requires ms != []
    ensures ms[..|ms| - 1] + [ms[|ms| - 1]] == ms
  {
  }

  // What it gives the reader

  /** A record is shown once at most, and shown exactly if it is near some hit. */
  lemma EachRecordOnce(ms: seq<Merged>, ws: seq<Window>, n: int, i: nat, j: nat)
    requires Merges(ms, ws) && i < |ms| && j < |ms|
    requires ms[i].start <= n <= ms[i].end && ms[j].start <= n <= ms[j].end
    ensures i == j && Covered(ws, n)
  {
    assert CoveredMerged(ms, n);
  }

  /** Hits that are distinct stay distinct: each is reported in exactly one window. */
  lemma EachHitOnce(ms: seq<Merged>, ws: seq<Window>, hit: nat)
    requires Merges(ms, ws)
    ensures multiset(AllHits(ms))[hit] == multiset(HitsOf(ws))[hit]
    ensures hit in HitsOf(ws) ==> exists i, k | 0 <= i < |ms| && 0 <= k < |ms[i].hits| :: ms[i].hits[k] == hit
  {
    if hit in AllHits(ms) {
      HitIsSomewhere(ms, hit);
    }
  }

  lemma {:induction false} HitIsSomewhere(ms: seq<Merged>, hit: nat)
    requires hit in AllHits(ms)
    ensures exists i, k | 0 <= i < |ms| && 0 <= k < |ms[i].hits| :: ms[i].hits[k] == hit
    decreases |ms|
  {
    var front := ms[..|ms| - 1];
    if hit in AllHits(front) {
      HitIsSomewhere(front, hit);
      var i, k :| 0 <= i < |front| && 0 <= k < |front[i].hits| && front[i].hits[k] == hit;
      assert ms[i].hits[k] == hit;
    } else {
      var k :| 0 <= k < |ms[|ms| - 1].hits| && ms[|ms| - 1].hits[k] == hit;
    }
  }
}
