/** The samples of a process: per thread a window of its samples, merged over its threads. */
module Samples {

  import opened Wrappers
  import opened Merging

  /** A thread, known from its start on; `end` is missing while it runs. */
  datatype Thread = Thread(osId: nat, start: nat, end: Option<nat>)

  /** The hardware counter samples of one thread for one event source. */
  datatype CounterSamples<T> = CounterSamples(event: nat, samples: seq<Timed<T>>)

  /** What processing a trace leaves behind. `threads` lacks the ids whose lookup fails. */
  datatype Context<T> = Context(threadsOf: map<nat, seq<nat>>, threads: map<nat, Thread>,
                                timerSamples: map<nat, seq<Timed<T>>>, counterSamples: map<nat, seq<CounterSamples<T>>>)

  const TIMER_EVENT := 0

  /** `events` holds the event of each sample source; there is no context before a trace was processed. */
  datatype Provider<T> = Provider(context: Option<Context<T>>, events: seq<nat>)

  /** The times are absolute timestamps. */
  datatype Filter = Filter(minTime: Option<nat>, maxTime: Option<nat>, excludedProcesses: set<nat>,
      excludedThreads: set<nat>)

  // ----- Windows -----------------------------------------------------------------------

  datatype Window = Window(start: nat, end: Option<nat>)

  predicate Holds(w: Window, time: nat) {
    w.start <= time && (w.end.Some? ==> time <= w.end.value)
  }

  function FilterWindow(thread: Thread, filter: Filter): Window {
    var start :=
      if filter.minTime.Some? && filter.minTime.value > thread.start then filter.minTime.value else thread.start;
    var end :=
      if filter.maxTime.Some? && (thread.end.None? || filter.maxTime.value < thread.end.value) then filter.maxTime
      else thread.end;
    Window(start, end)
  }

  /** A time is in the window when the thread lived at it and the filter lets it pass. */
  lemma {:induction false} WindowIsIntersection(thread: Thread, filter: Filter, time: nat)
    ensures Holds(FilterWindow(thread, filter), time) <==>
              && thread.start <= time && (thread.end.Some? ==> time <= thread.end.value)
              && (filter.minTime.Some? ==> filter.minTime.value <= time)
              && (filter.maxTime.Some? ==> time <= filter.maxTime.value)
  {
  }

  /** The samples inside the window, in their order. */
  function Kept<T>(samples: seq<Timed<T>>, w: Window): seq<Timed<T>> {
    if samples == [] then []
    else Kept(samples[..|samples| - 1], w) + if Holds(w, samples[|samples| - 1].time) then [samples[|samples| - 1]]
         else []
  }

  lemma {:induction false} KeptAre<T>(samples: seq<Timed<T>>, w: Window, x: Timed<T>)
    ensures x in Kept(samples, w) <==> x in samples && Holds(w, x.time)
  {
    if samples != [] {
      KeptAre(samples[..|samples| - 1], w, x);
      assert samples == samples[..|samples| - 1] + [samples[|samples| - 1]];
    }
  }

  lemma {:induction false} KeptOrdered<T>(samples: seq<Timed<T>>, w: Window)
    requires TimeOrdered(samples)
    ensures TimeOrdered(Kept(samples, w))
  {
    if samples != [] {
      var before := samples[..|samples| - 1];
      var last := samples[|samples| - 1];
      KeptOrdered(before, w);
      forall k | 0 <= k < |Kept(before, w)| ensures Kept(before, w)[k].time <= last.time {
        KeptAre(before, w, Kept(before, w)[k]);
        var j :| 0 <= j < |before| && before[j] == Kept(before, w)[k];
        assert samples[j].time <= samples[|before|].time;
      }
      if Holds(w, last.time) { OrderedAppended(Kept(before, w), last); }
    }
  }

  /** In ordered samples, a window is the piece between two positions. */
  lemma {:induction false} KeptIsPiece<T>(samples: seq<Timed<T>>, w: Window, lo: nat, hi: nat)
    requires lo <= hi <= |samples|
    requires forall k :: 0 <= k < |samples| ==> (Holds(w, samples[k].time) <==> lo <= k < hi)
    ensures Kept(samples, w) == samples[lo..hi]
  {
    if samples != [] {
      var n := |samples| - 1;
      if hi == n + 1 && lo < hi {
        KeptIsPiece(samples[..n], w, lo, n);
        assert samples[lo..hi] == samples[..n][lo..n] + [samples[n]];
      } else if lo == n + 1 {
        KeptIsPiece(samples[..n], w, n, n);
      } else {
        KeptIsPiece(samples[..n], w, lo, hi);
        assert samples[lo..hi] == samples[..n][lo..hi];
      }
    }
  }

  /** The first position whose time is not before `time`. */
  method LowerBound<T>(samples: seq<Timed<T>>, time: nat) returns (k: nat)
    requires TimeOrdered(samples)
    ensures k <= |samples|
    ensures forall i :: 0 <= i < k ==> samples[i].time < time
    ensures forall i :: k <= i < |samples| ==> time <= samples[i].time
  {
    var low, count := 0, |samples|;
    while count > 0
      invariant 0 <= low <= low + count <= |samples|
      invariant forall i :: 0 <= i < low ==> samples[i].time < time
      invariant forall i :: low + count <= i < |samples| ==> time <= samples[i].time
    {
      var step := count / 2;
      if samples[low + step].time < time {
        low, count := low + step + 1, count - (step + 1);
      } else {
        count := step;
      }
    }
    k := low;
  }

  /** The first position whose time is behind `time`. */
  method UpperBound<T>(samples: seq<Timed<T>>, time: nat) returns (k: nat)
    requires TimeOrdered(samples)
    ensures k <= |samples|
    ensures forall i :: 0 <= i < k ==> samples[i].time <= time
    ensures forall i :: k <= i < |samples| ==> time < samples[i].time
  {
    k := LowerBound(samples, time + 1);
  }

  // ----- The samples of one thread -----------------------------------------------------

  function FindEvent<T>(storages: seq<CounterSamples<T>>, event: nat): Option<seq<Timed<T>>> {
    if storages == [] then None
    else if storages[0].event == event then Some(storages[0].samples)
    else FindEvent(storages[1..], event)
  }

  /** Counter samples of the event come first; only the timer has samples of its own to fall back on. */
  function AllSamples<T>(context: Context<T>, osId: nat, event: nat): seq<Timed<T>> {
    var found := if osId in context.counterSamples then FindEvent(context.counterSamples[osId], event) else None;
    match found
    case Some(samples) => samples
    case None => if event == TIMER_EVENT && osId in context.timerSamples then context.timerSamples[osId] else []
  }

  predicate IsFirstStorage<T>(storages: seq<CounterSamples<T>>, event: nat, k: nat) {
    k < |storages| && storages[k].event == event && forall j :: 0 <= j < k ==> storages[j].event != event
  }

  /** The first storage of the event is found, and nothing only if there is none. */
  lemma {:induction false} FirstStorageFound<T>(storages: seq<CounterSamples<T>>, event: nat, k: nat)
    requires k <= |storages| && forall j :: 0 <= j < k ==> storages[j].event != event
    ensures if k == |storages| then FindEvent(storages, event) == None
            else storages[k].event == event ==> FindEvent(storages, event) == Some(storages[k].samples)
    decreases k
  {
    if k > 0 {
      assert forall j :: 0 <= j < k - 1 ==> storages[1..][j] == storages[j + 1];
      FirstStorageFound(storages[1..], event, k - 1);
    }
  }

  /** The thread has counter samples of the event, and storage `k` is the first of them. */
  predicate IsStorageOf<T>(context: Context<T>, osId: nat, event: nat, k: nat) {
    osId in context.counterSamples && IsFirstStorage(context.counterSamples[osId], event, k)
  }

  predicate HasStorage<T>(context: Context<T>, osId: nat, event: nat) {
    && osId in context.counterSamples
    && exists k :: 0 <= k < |context.counterSamples[osId]| && context.counterSamples[osId][k].event == event
  }

  /** Which recorded samples are those of the event: the ones of the first storage that has it, else the timer's own
      if it is the timer, else none. */
  lemma {:induction false} SamplesOfEvent<T>(context: Context<T>, osId: nat, event: nat)
    ensures forall k: nat :: IsStorageOf(context, osId, event, k) ==>
              AllSamples(context, osId, event) == context.counterSamples[osId][k].samples
    ensures !HasStorage(context, osId, event) ==>
              AllSamples(context, osId, event) ==
                if event == TIMER_EVENT && osId in context.timerSamples then context.timerSamples[osId] else []
  {
    if osId in context.counterSamples {
      var storages := context.counterSamples[osId];
      forall k: nat | IsFirstStorage(storages, event, k)
        ensures FindEvent(storages, event) == Some(storages[k].samples)
      {
        FirstStorageFound(storages, event, k);
      }
      if !HasStorage(context, osId, event) { FirstStorageFound(storages, event, |storages|); }
    }
  }

  /** Samples are recorded in the order of time. */
  ghost predicate Recorded<T>(context: Context<T>) {
    forall osId: nat, event: nat :: TimeOrdered(AllSamples(context, osId, event))
  }

  method ThreadSamples<T>(context: Context<T>, osId: nat, w: Window, event: nat) returns (r: seq<Timed<T>>)
    requires Recorded(context)
    ensures r == Kept(AllSamples(context, osId, event), w)
    ensures forall k: nat :: IsStorageOf(context, osId, event, k) ==>
              r == Kept(context.counterSamples[osId][k].samples, w)
    ensures !HasStorage(context, osId, event) ==>
              r == if event == TIMER_EVENT && osId in context.timerSamples then Kept(context.timerSamples[osId], w)
                   else []
  {
    SamplesOfEvent(context, osId, event);
    hide AllSamples, IsStorageOf, HasStorage;
    var samples := AllSamples(context, osId, event);
    if samples == [] { return []; }
    var first := LowerBound(samples, w.start);
    if first == |samples| {
      KeptIsPiece(samples, w, 0, 0);
      return [];
    }
    var end := |samples|;
    if w.end.Some? { end := UpperBound(samples, w.end.value); }
    if first > end {
      KeptIsPiece(samples, w, 0, 0);
      return [];
    }
    KeptIsPiece(samples, w, first, end);
    r := samples[first..end];
  }

  // ----- All threads -------------------------------------------------------------------

  /** What one thread contributes; nothing when it is excluded or not found. */
  function SamplesOfThread<T>(context: Context<T>, thread: nat, filter: Filter, event: nat): seq<Timed<T>> {
    if thread in filter.excludedThreads || thread !in context.threads then []
    else Kept(AllSamples(context, context.threads[thread].osId, event), FilterWindow(context.threads[thread], filter))
  }

  /** The contributions of the threads, without the empty ones. */
  function SourcesOfThreads<T>(context: Context<T>, threads: seq<nat>, filter: Filter, event: nat): seq<seq<Timed<T>>> {
    if threads == [] then []
    else
      var last := SamplesOfThread(context, threads[|threads| - 1], filter, event);
      SourcesOfThreads(context, threads[..|threads| - 1], filter, event) + if last == [] then [] else [last]
  }

  ghost predicate CanAsk<T>(p: Provider<T>, process: nat) {
    p.context.Some? ==> process in p.context.value.threadsOf && Recorded(p.context.value)
  }

  function Sources<T>(p: Provider<T>, source: nat, process: nat, filter: Filter): seq<seq<Timed<T>>>
    requires p.context.Some? ==> process in p.context.value.threadsOf
  {
    if p.context.None? || process in filter.excludedProcesses || source >= |p.events| then []
    else SourcesOfThreads(p.context.value, p.context.value.threadsOf[process], filter, p.events[source])
  }

  lemma {:induction false} ThreadSourceOrdered<T>(context: Context<T>, thread: nat, filter: Filter, event: nat)
    requires Recorded(context)
    ensures TimeOrdered(SamplesOfThread(context, thread, filter, event))
  {
    if thread !in filter.excludedThreads && thread in context.threads {
      KeptOrdered(AllSamples(context, context.threads[thread].osId, event),
          FilterWindow(context.threads[thread], filter));
    }
  }

  /** Takes elements of source `c` as long as no other source has an earlier one. */
  method TakeFrom<T>(sources: seq<seq<Timed<T>>>, c: nat, queue0: seq<Entry>, next0: seq<nat>, out0: seq<Timed<T>>,
                     ghost from0: seq<nat>)
    returns (queue: seq<Entry>, next: seq<nat>, out: seq<Timed<T>>, ghost from: seq<nat>)
    requires AllOrdered(sources) && PartlyMerged(sources, next0, out0, from0)
    requires Queued(queue0, sources, next0, c) && IsEarliest(sources, next0, c)
    ensures PartlyMerged(sources, next, out, from) && Queued(queue, sources, next, -1)
    ensures Left(sources, next) < Left(sources, next0)
  {
    queue, next, out, from := queue0, next0, out0, from0;
    while true
      invariant PartlyMerged(sources, next, out, from) && Queued(queue, sources, next, c)
      invariant IsEarliest(sources, next, c)
      invariant Left(sources, next) <= Left(sources, next0)
      decreases Left(sources, next)
    {
      TakeEarliest(sources, next, out, from, c);
      TakingLeavesLess(sources, next, c);
      QueueKept(queue, sources, next, next[c := next[c] + 1], c);
      out, from := out + [sources[c][next[c]]], from + [c];
      next := next[c := next[c] + 1];
      if next[c] >= |sources[c]| {
        ClosedIsQueued(queue, sources, next, c);
        return;
      }
      var nextTime := sources[c][next[c]].time;
      if queue != [] {
        var top := PeekFirst(queue);
        if top.time < nextTime {
          PushedIsQueued(queue, sources, next, c);
          queue := queue + [Entry(nextTime, c)];
          return;
        }
      }
      StaysEarliest(queue, sources, next, c);
    }
  }

  method MergeQueued<T>(sources: seq<seq<Timed<T>>>, queue0: seq<Entry>, next0: seq<nat>)
    returns (out: seq<Timed<T>>, ghost from: seq<nat>)
    requires AllOrdered(sources) && |next0| == |sources| && forall k :: 0 <= k < |next0| ==> next0[k] == 0
    requires Queued(queue0, sources, next0, -1)
    ensures IsMerge(sources, out, from)
  {
    var queue, next := queue0, next0;
    out, from := [], [];
    NothingMerged(sources, next);
    while queue != []
      invariant PartlyMerged(sources, next, out, from) && Queued(queue, sources, next, -1)
      decreases Left(sources, next)
    {
      var e, rest := PopFirst(queue);
      ghost var k: nat :| k < |queue| && e == queue[k] && rest == Without(queue, k);
      PoppedIsEarliest(queue, sources, next, k);
      queue, next, out, from := TakeFrom(sources, e.source, rest, next, out, from);
    }
    AllMerged(sources, next, out, from);
  }

  lemma {:induction false} NothingToMerge<T>()
    ensures IsMerge<T>([], [], [])
  {
  }

  /** Gives out the samples of the process, ordered by time over all of its threads. */
  method ProcessSamples<T>(p: Provider<T>, source: nat, process: nat, filter: Filter)
    returns (out: seq<Timed<T>>, ghost from: seq<nat>)
    requires CanAsk(p, process)
    ensures IsMerge(Sources(p, source, process, filter), out, from)
  {
    hide AllSamples, Kept, FilterWindow, TimeOrdered, IsStorageOf, HasStorage, Recorded, IsMerge;
    out, from := [], [];
    if p.context.None? || process in filter.excludedProcesses || source >= |p.events| {
      NothingToMerge<T>();
      return;
    }
    var context := p.context.value;
    var threads := context.threadsOf[process];
    var queue: seq<Entry> := [];
    var sources: seq<seq<Timed<T>>> := [];
    var next: seq<nat> := [];
    for i := 0 to |threads|
      invariant sources == SourcesOfThreads(context, threads[..i], filter, p.events[source]) && AllOrdered(sources)
      invariant |next| == |sources| && (forall k :: 0 <= k < |next| ==> next[k] == 0)
      invariant Queued(queue, sources, next, -1)
    {
      assert threads[..i + 1][..i] == threads[..i];
      ThreadSourceOrdered(context, threads[i], filter, p.events[source]);
      if threads[i] in filter.excludedThreads || threads[i] !in context.threads { continue; }
      var thread := context.threads[threads[i]];
      var samples := ThreadSamples(context, thread.osId, FilterWindow(thread, filter), p.events[source]);
      if samples == [] { continue; }
      SourceQueued(queue, sources, next, samples);
      queue := queue + [Entry(samples[0].time, |sources|)];
      sources, next := sources + [samples], next + [0];
    }
    assert threads[..|threads|] == threads;
    out, from := MergeQueued(sources, queue, next);
  }

  // ----- Counting ----------------------------------------------------------------------

  function SumOfThreads<T>(context: Context<T>, threads: seq<nat>, filter: Filter, event: nat): nat {
    if threads == [] then 0
    else SumOfThreads(context, threads[..|threads| - 1], filter, event)
         + |SamplesOfThread(context, threads[|threads| - 1], filter, event)|
  }

  lemma {:induction false} SumIsTotalLength<T>(context: Context<T>, threads: seq<nat>, filter: Filter, event: nat)
    ensures SumOfThreads(context, threads, filter, event)
            == TotalLength(SourcesOfThreads(context, threads, filter, event))
  {
    if threads != [] {
      var before := SourcesOfThreads(context, threads[..|threads| - 1], filter, event);
      var last := SamplesOfThread(context, threads[|threads| - 1], filter, event);
      SumIsTotalLength(context, threads[..|threads| - 1], filter, event);
      if last != [] { assert (before + [last])[..|before|] == before; } else { assert before + [] == before; }
    }
  }

  method CountThreadSamples<T>(p: Provider<T>, source: nat, thread: nat, filter: Filter) returns (n: nat)
    requires p.context.Some? ==> Recorded(p.context.value)
    ensures n == if p.context.None? || source >= |p.events| then 0
                 else |SamplesOfThread(p.context.value, thread, filter, p.events[source])|
  {
    if p.context.None? { return 0; }
    if thread in filter.excludedThreads { return 0; }
    if source >= |p.events| { return 0; }
    var context := p.context.value;
    if thread !in context.threads { return 0; }
    var info := context.threads[thread];
    var samples := ThreadSamples(context, info.osId, FilterWindow(info, filter), p.events[source]);
    n := |samples|;
  }

  method CountProcessSamples<T>(p: Provider<T>, source: nat, process: nat, filter: Filter) returns (n: nat)
    requires CanAsk(p, process)
    ensures n == TotalLength(Sources(p, source, process, filter))
  {
    n := 0;
    if p.context.None? || process in filter.excludedProcesses { return; }
    var context := p.context.value;
    var threads := context.threadsOf[process];
    for i := 0 to |threads|
      invariant n == if source >= |p.events| then 0 else SumOfThreads(context, threads[..i], filter, p.events[source])
    {
      assert threads[..i + 1][..i] == threads[..i];
      var m := CountThreadSamples(p, source, threads[i], filter);
      n := n + m;
    }
    assert threads[..|threads|] == threads;
    if source < |p.events| { SumIsTotalLength(context, threads, filter, p.events[source]); }
  }

  /** However the samples of equal times are given out, there are as many as were counted. */
  lemma {:induction false} CountIsNumberOfSamples<T>(p: Provider<T>, source: nat, process: nat, filter: Filter,
                                                     out: seq<Timed<T>>, from: seq<nat>)
    requires CanAsk(p, process) && IsMerge(Sources(p, source, process, filter), out, from)
    ensures |out| == if p.context.None? || process in filter.excludedProcesses || source >= |p.events| then 0
                     else SumOfThreads(p.context.value, p.context.value.threadsOf[process], filter, p.events[source])
  {
    MergeLength(Sources(p, source, process, filter), out, from);
    if p.context.Some? && process !in filter.excludedProcesses && source < |p.events| {
      SumIsTotalLength(p.context.value, p.context.value.threadsOf[process], filter, p.events[source]);
    }
  }

  /** What is given out is exactly what the threads of the process recorded inside the filter and their lifetimes. */
  lemma {:induction false} GivenOutIsRecorded<T>(context: Context<T>, threads: seq<nat>, filter: Filter, event: nat,
                                                 x: Timed<T>)
    ensures (exists s :: s in SourcesOfThreads(context, threads, filter, event) && x in s)
       <==> exists t :: t in threads && t !in filter.excludedThreads && t in context.threads
              && x in AllSamples(context, context.threads[t].osId, event) &&
                   Holds(FilterWindow(context.threads[t], filter), x.time)
  {
    if threads != [] {
      var t := threads[|threads| - 1];
      var before := SourcesOfThreads(context, threads[..|threads| - 1], filter, event);
      var last := SamplesOfThread(context, t, filter, event);
      GivenOutIsRecorded(context, threads[..|threads| - 1], filter, event, x);
      if t in context.threads {
        KeptAre(AllSamples(context, context.threads[t].osId, event), FilterWindow(context.threads[t], filter), x);
      }
      assert threads == threads[..|threads| - 1] + [t];
      assert x in last ==> (before + [last])[|before|] == last;
    }
  }
}
