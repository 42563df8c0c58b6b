/** Merging timed sequences through a queue of their next times, and what a merge is. */
module Merging {

  datatype Timed<T> = Timed(time: nat, value: T)

  predicate TimeOrdered<T>(s: seq<Timed<T>>) {
    forall i, j :: 0 <= i < j < |s| ==> s[i].time <= s[j].time
  }

  // ----- What a merge is ---------------------------------------------------------------

  /** The elements of `out` that came from source `i`, in their order. */
  function Project<T>(out: seq<Timed<T>>, from: seq<nat>, i: nat): seq<Timed<T>>
    requires |out| == |from|
  {
    if out == [] then []
    else Project(out[..|out| - 1], from[..|from| - 1], i) + if from[|from| - 1] == i then [out[|out| - 1]] else []
  }

  /** `out` holds every element of every source once, keeps the order of each source, and is ordered by time. */
  ghost predicate IsMerge<T>(sources: seq<seq<Timed<T>>>, out: seq<Timed<T>>, from: seq<nat>) {
    && |out| == |from| && TimeOrdered(out)
    && (forall k :: 0 <= k < |from| ==> from[k] < |sources|)
    && (forall i :: 0 <= i < |sources| ==> Project(out, from, i) == sources[i])
  }

  function TotalLength<T>(sources: seq<seq<Timed<T>>>): nat {
    if sources == [] then 0 else TotalLength(sources[..|sources| - 1]) + |sources[|sources| - 1]|
  }

  function ProjectedLength<T>(out: seq<Timed<T>>, from: seq<nat>, n: nat): nat
    requires |out| == |from|
  {
    if n == 0 then 0 else ProjectedLength(out, from, n - 1) + |Project(out, from, n - 1)|
  }

  lemma {:induction false} LastIsProjectedOnce<T>(out: seq<Timed<T>>, from: seq<nat>, n: nat)
    requires |out| == |from| && out != []
    ensures ProjectedLength(out, from, n)
         == ProjectedLength(out[..|out| - 1], from[..|from| - 1], n) + if from[|from| - 1] < n then 1 else 0
    decreases n
  {
    if n > 0 { LastIsProjectedOnce(out, from, n - 1); }
  }

  lemma {:induction false} ProjectedLengthIsLength<T>(out: seq<Timed<T>>, from: seq<nat>, n: nat)
    requires |out| == |from| && forall k :: 0 <= k < |from| ==> from[k] < n
    ensures ProjectedLength(out, from, n) == |out|
  {
    if out == [] {
      NothingProjected(out, from, n);
    } else {
      LastIsProjectedOnce(out, from, n);
      ProjectedLengthIsLength(out[..|out| - 1], from[..|from| - 1], n);
    }
  }

  lemma {:induction false} NothingProjected<T>(out: seq<Timed<T>>, from: seq<nat>, n: nat)
    requires out == [] && from == []
    ensures ProjectedLength(out, from, n) == 0
  {
    if n > 0 { NothingProjected(out, from, n - 1); }
  }

  lemma {:induction false} ProjectedLengthOfMerge<T>(sources: seq<seq<Timed<T>>>, out: seq<Timed<T>>, from: seq<nat>,
                                                     n: nat)
    requires |out| == |from| && n <= |sources| && forall i :: 0 <= i < n ==> Project(out, from, i) == sources[i]
    ensures ProjectedLength(out, from, n) == TotalLength(sources[..n])
    decreases n
  {
    if n > 0 {
      ProjectedLengthOfMerge(sources, out, from, n - 1);
      assert sources[..n][..n - 1] == sources[..n - 1];
    }
  }

  /** A merge is as long as its sources together. */
  lemma {:induction false} MergeLength<T>(sources: seq<seq<Timed<T>>>, out: seq<Timed<T>>, from: seq<nat>)
    requires IsMerge(sources, out, from)
    ensures |out| == TotalLength(sources)
  {
    ProjectedLengthIsLength(out, from, |sources|);
    ProjectedLengthOfMerge(sources, out, from, |sources|);
    assert sources[..|sources|] == sources;
  }

  // ----- Part of a merge ---------------------------------------------------------------

  predicate IsOpen<T>(sources: seq<seq<Timed<T>>>, next: seq<nat>, i: nat)
    requires |next| == |sources|
  {
    i < |sources| && next[i] < |sources[i]|
  }

  ghost predicate Taken<T>(sources: seq<seq<Timed<T>>>, next: seq<nat>, out: seq<Timed<T>>, from: seq<nat>)
    requires |next| == |sources| && |out| == |from|
  {
    forall i :: 0 <= i < |sources| ==> next[i] <= |sources[i]| && Project(out, from, i) == sources[i][..next[i]]
  }

  ghost predicate NoneEarlier<T>(sources: seq<seq<Timed<T>>>, next: seq<nat>, out: seq<Timed<T>>)
    requires |next| == |sources|
  {
    out != [] ==> forall i: nat :: IsOpen(sources, next, i) ==> out[|out| - 1].time <= sources[i][next[i]].time
  }

  /** The first `next[i]` elements of every source are merged, and none that is left is earlier. */
  ghost predicate PartlyMerged<T>(sources: seq<seq<Timed<T>>>, next: seq<nat>, out: seq<Timed<T>>, from: seq<nat>) {
    && |next| == |sources| && |out| == |from| && TimeOrdered(out)
    && (forall k :: 0 <= k < |from| ==> from[k] < |sources|)
    && Taken(sources, next, out, from) && NoneEarlier(sources, next, out)
  }

  /** No source has an earlier element left than `c`. */
  ghost predicate IsEarliest<T>(sources: seq<seq<Timed<T>>>, next: seq<nat>, c: nat)
    requires |next| == |sources|
  {
    IsOpen(sources, next, c) && forall i: nat :: IsOpen(sources, next, i) ==>
        sources[c][next[c]].time <= sources[i][next[i]].time
  }

  lemma {:induction false} ProjectAppended<T>(out: seq<Timed<T>>, from: seq<nat>, e: Timed<T>, c: nat, i: nat)
    requires |out| == |from|
    ensures Project(out + [e], from + [c], i) == Project(out, from, i) + if i == c then [e] else []
  {
    assert (out + [e])[..|out|] == out && (from + [c])[..|from|] == from;
  }

  lemma {:induction false} NothingMerged<T>(sources: seq<seq<Timed<T>>>, next: seq<nat>)
    requires |next| == |sources| && forall i :: 0 <= i < |next| ==> next[i] == 0
    ensures PartlyMerged(sources, next, [], [])
  {
  }

  lemma {:induction false} TakenOneMore<T>(sources: seq<seq<Timed<T>>>, next: seq<nat>, out: seq<Timed<T>>,
                                           from: seq<nat>, c: nat)
    requires |next| == |sources| && |out| == |from| && Taken(sources, next, out, from) && IsOpen(sources, next, c)
    ensures Taken(sources, next[c := next[c] + 1], out + [sources[c][next[c]]], from + [c])
  {
    var next1 := next[c := next[c] + 1];
    forall i | 0 <= i < |sources|
      ensures next1[i] <= |sources[i]|
      ensures Project(out + [sources[c][next[c]]], from + [c], i) == sources[i][..next1[i]]
    {
      ProjectAppended(out, from, sources[c][next[c]], c, i);
      assert i == c ==> sources[c][..next[c] + 1] == sources[c][..next[c]] + [sources[c][next[c]]];
    }
  }

  lemma {:induction false} StillNoneEarlier<T>(sources: seq<seq<Timed<T>>>, next: seq<nat>, out: seq<Timed<T>>, c: nat)
    requires |next| == |sources| && IsEarliest(sources, next, c) && TimeOrdered(sources[c])
    ensures NoneEarlier(sources, next[c := next[c] + 1], out + [sources[c][next[c]]])
  {
    var next1 := next[c := next[c] + 1];
    forall i: nat | IsOpen(sources, next1, i) ensures sources[c][next[c]].time <= sources[i][next1[i]].time {
      assert i != c ==> IsOpen(sources, next, i);
    }
  }

  /** Taking the earliest element that is left keeps the part a merge. */
  lemma {:induction false} TakeEarliest<T>(sources: seq<seq<Timed<T>>>, next: seq<nat>, out: seq<Timed<T>>,
                                           from: seq<nat>, c: nat)
    requires PartlyMerged(sources, next, out, from) && IsEarliest(sources, next, c) && TimeOrdered(sources[c])
    ensures PartlyMerged(sources, next[c := next[c] + 1], out + [sources[c][next[c]]], from + [c])
  {
    TakenOneMore(sources, next, out, from, c);
    StillNoneEarlier(sources, next, out, c);
    OrderedAppended(out, sources[c][next[c]]);
  }

  lemma {:induction false} OrderedAppended<T>(out: seq<Timed<T>>, e: Timed<T>)
    requires TimeOrdered(out) && (out != [] ==> out[|out| - 1].time <= e.time)
    ensures TimeOrdered(out + [e])
  {
  }

  lemma {:induction false} AllMerged<T>(sources: seq<seq<Timed<T>>>, next: seq<nat>, out: seq<Timed<T>>, from: seq<nat>)
    requires PartlyMerged(sources, next, out, from) && forall i :: 0 <= i < |sources| ==> !IsOpen(sources, next, i)
    ensures IsMerge(sources, out, from)
  {
    forall i | 0 <= i < |sources| ensures Project(out, from, i) == sources[i] {
      assert !IsOpen(sources, next, i);
      assert sources[i][..|sources[i]|] == sources[i];
    }
  }

  // ----- The queue ---------------------------------------------------------------------

  /** The next time of a source. */
  datatype Entry = Entry(time: nat, source: nat)

  function Without(queue: seq<Entry>, k: nat): seq<Entry>
    requires k < |queue|
  {
    queue[..k] + queue[k + 1..]
  }

  predicate IsFirst(queue: seq<Entry>, e: Entry) {
    e in queue && forall j :: 0 <= j < |queue| ==> e.time <= queue[j].time
  }

  /** The queue holds the next times of exactly the open sources, except the one that is being emptied. */
  ghost predicate Queued<T>(queue: seq<Entry>, sources: seq<seq<Timed<T>>>, next: seq<nat>, busy: int)
    requires |next| == |sources|
  {
    && (forall k :: 0 <= k < |queue| ==> IsNextOf(queue[k], sources, next) && queue[k].source != busy)
    && (forall j, k :: 0 <= j < k < |queue| ==> queue[j].source != queue[k].source)
    && (forall i: nat :: IsOpen(sources, next, i) && i != busy ==> Entry(sources[i][next[i]].time, i) in queue)
  }

  ghost predicate IsNextOf<T>(e: Entry, sources: seq<seq<Timed<T>>>, next: seq<nat>)
    requires |next| == |sources|
  {
    IsOpen(sources, next, e.source) && e.time == sources[e.source][next[e.source]].time
  }

  lemma {:induction false} FirstExists(queue: seq<Entry>) returns (k: nat)
    requires queue != []
    ensures k < |queue| && IsFirst(queue, queue[k])
  {
    k := 0;
    for i := 1 to |queue|
      invariant k < i && forall j :: 0 <= j < i ==> queue[k].time <= queue[j].time
    {
      if queue[i].time < queue[k].time { k := i; }
    }
  }

  /** Takes out an entry with the least time; which one, if there are several, is left open. */
  method PopFirst(queue: seq<Entry>) returns (e: Entry, rest: seq<Entry>)
    requires queue != []
    ensures exists k: nat :: k < |queue| && e == queue[k] && rest == Without(queue, k)
    ensures IsFirst(queue, e)
  {
    ghost var first := FirstExists(queue);
    var k: nat :| k < |queue| && IsFirst(queue, queue[k]);
    e, rest := queue[k], Without(queue, k);
  }

  method PeekFirst(queue: seq<Entry>) returns (e: Entry)
    requires queue != []
    ensures IsFirst(queue, e)
  {
    ghost var first := FirstExists(queue);
    var k: nat :| k < |queue| && IsFirst(queue, queue[k]);
    e := queue[k];
  }

  lemma {:induction false} WithoutKeeps(queue: seq<Entry>, k: nat, e: Entry)
    requires k < |queue| && e in queue && e != queue[k]
    ensures e in Without(queue, k)
  {
    var j :| 0 <= j < |queue| && queue[j] == e;
    if j < k { assert Without(queue, k)[j] == e; } else { assert Without(queue, k)[j - 1] == e; }
  }

  /** The source taken out of the queue is the busy one, and has the earliest element of all. */
  lemma {:induction false} PoppedIsEarliest<T>(queue: seq<Entry>, sources: seq<seq<Timed<T>>>, next: seq<nat>, k: nat)
    requires |next| == |sources| && Queued(queue, sources, next, -1) && k < |queue| && IsFirst(queue, queue[k])
    ensures Queued(Without(queue, k), sources, next, queue[k].source) && IsEarliest(sources, next, queue[k].source)
  {
    var c := queue[k].source;
    var rest := Without(queue, k);
    assert forall j :: 0 <= j < |rest| ==> rest[j] == if j < k then queue[j] else queue[j + 1];
    forall i: nat | IsOpen(sources, next, i) && i != c ensures Entry(sources[i][next[i]].time, i) in rest {
      WithoutKeeps(queue, k, Entry(sources[i][next[i]].time, i));
    }
    forall i: nat | IsOpen(sources, next, i) ensures sources[c][next[c]].time <= sources[i][next[i]].time {
      assert Entry(sources[i][next[i]].time, i) in queue;
    }
  }

  /** The busy source goes back into the queue with its next time. */
  lemma {:induction false} PushedIsQueued<T>(queue: seq<Entry>, sources: seq<seq<Timed<T>>>, next: seq<nat>, c: nat)
    requires |next| == |sources| && Queued(queue, sources, next, c) && IsOpen(sources, next, c)
    ensures Queued(queue + [Entry(sources[c][next[c]].time, c)], sources, next, -1)
  {
  }

  lemma {:induction false} ClosedIsQueued<T>(queue: seq<Entry>, sources: seq<seq<Timed<T>>>, next: seq<nat>, c: nat)
    requires |next| == |sources| && Queued(queue, sources, next, c) && !IsOpen(sources, next, c)
    ensures Queued(queue, sources, next, -1)
  {
  }

  /** While no queued source is earlier than it, the busy source stays the earliest. */
  lemma {:induction false} StaysEarliest<T>(queue: seq<Entry>, sources: seq<seq<Timed<T>>>, next: seq<nat>, c: nat)
    requires |next| == |sources| && Queued(queue, sources, next, c) && IsOpen(sources, next, c)
    requires forall k :: 0 <= k < |queue| ==> sources[c][next[c]].time <= queue[k].time
    ensures IsEarliest(sources, next, c)
  {
    forall i: nat | IsOpen(sources, next, i) ensures sources[c][next[c]].time <= sources[i][next[i]].time {
      assert i != c ==> Entry(sources[i][next[i]].time, i) in queue;
    }
  }

  /** Taking from the busy source does not touch the queue. */
  lemma {:induction false} QueueKept<T>(queue: seq<Entry>, sources: seq<seq<Timed<T>>>, next: seq<nat>, next1: seq<nat>,
                                        c: nat)
    requires |next| == |sources| && Queued(queue, sources, next, c) && c < |sources| && next1 == next[c := next[c] + 1]
    ensures Queued(queue, sources, next1, c)
  {
    forall k | 0 <= k < |queue| ensures IsNextOf(queue[k], sources, next1) {
      assert IsNextOf(queue[k], sources, next);
    }
    forall i: nat | IsOpen(sources, next1, i) && i != c ensures Entry(sources[i][next1[i]].time, i) in queue {
      assert IsOpen(sources, next, i);
    }
  }

  /** A further source enters the queue with its first time. */
  lemma {:induction false} SourceQueued<T>(queue: seq<Entry>, sources: seq<seq<Timed<T>>>, next: seq<nat>,
                                           s: seq<Timed<T>>)
    requires |next| == |sources| && Queued(queue, sources, next, -1) && s != []
    ensures Queued(queue + [Entry(s[0].time, |sources|)], sources + [s], next + [0], -1)
  {
    var queue1 := queue + [Entry(s[0].time, |sources|)];
    var sources1: seq<seq<Timed<T>>> := sources + [s];
    var next1 := next + [0];
    forall k | 0 <= k < |queue1| ensures IsNextOf(queue1[k], sources1, next1) {
      assert k < |queue| ==> IsNextOf(queue[k], sources, next);
    }
    forall i: nat | IsOpen(sources1, next1, i) ensures Entry(sources1[i][next1[i]].time, i) in queue1 {
      if i < |sources| {
        assert IsOpen(sources, next, i);
      } else {
        assert queue1[|queue|] == Entry(s[0].time, i);
      }
    }
  }

  ghost predicate AllOrdered<T>(sources: seq<seq<Timed<T>>>) {
    forall i :: 0 <= i < |sources| ==> TimeOrdered(sources[i])
  }

  lemma {:induction false} EmptySourceQueued<T>(queue: seq<Entry>, sources: seq<seq<Timed<T>>>, next: seq<nat>)
    requires |next| == |sources| && Queued(queue, sources, next, -1)
    ensures Queued(queue, sources + [[]], next + [0], -1)
  {
    var sources1: seq<seq<Timed<T>>> := sources + [[]];
    var next1 := next + [0];
    forall k | 0 <= k < |queue| ensures IsNextOf(queue[k], sources1, next1) {
      assert IsNextOf(queue[k], sources, next);
    }
    forall i: nat | IsOpen(sources1, next1, i) ensures Entry(sources1[i][next1[i]].time, i) in queue {
      assert IsOpen(sources, next, i);
    }
  }

  // ----- How much is left --------------------------------------------------------------

  function Left<T>(sources: seq<seq<Timed<T>>>, next: seq<nat>): nat
    requires |next| == |sources| && forall i :: 0 <= i < |next| ==> next[i] <= |sources[i]|
  {
    if next == [] then 0
    else Left(sources[..|sources| - 1], next[..|next| - 1]) + (|sources[|next| - 1]| - next[|next| - 1])
  }

  lemma {:induction false} TakingLeavesLess<T>(sources: seq<seq<Timed<T>>>, next: seq<nat>, c: nat)
    requires |next| == |sources| && (forall i :: 0 <= i < |next| ==> next[i] <= |sources[i]|)
    requires IsOpen(sources, next, c)
    ensures Left(sources, next[c := next[c] + 1]) == Left(sources, next) - 1
  {
    var next1 := next[c := next[c] + 1];
    var last := |next| - 1;
    if c < last {
      TakingLeavesLess(sources[..last], next[..last], c);
      assert next1[..last] == next[..last][c := next[c] + 1];
    } else {
      assert next1[..last] == next[..last];
    }
  }
}
