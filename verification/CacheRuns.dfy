/** What a document answers over a whole run of filter changes and queries, and when the answers are fresh. */
module CacheRuns {

  import opened Wrappers
  import opened Hits
  import opened StacksAnalysis
  import D = Storage
  import E = EndToEnd
  import F = FunctionFlow
  import M = Merging
  import S = Samples
  import Z = StacksAnalyzer

  // ----- Every counted sample ends once ------------------------------------------------

  /** Samples without a stack and a frame leave no trace. */
  predicate IsCounted(x: Sample) { !x.Bare? }

  /** The function that the event ends in. */
  function LastOf(e: F.Event): F.Caller {
    match e
    case Calls(_, ids) => F.Top(F.Root, ids)
    case Frame(_, f) => F.Function(f)
  }

  function SumSelf(t: F.Table, n: nat, s: nat): nat {
    if n == 0 then 0 else SumSelf(t, n - 1, s) + F.SelfAt(t, F.Function(n - 1), s)
  }

  /** All self hits of the function table together. */
  function AllSelf(t: F.Table, s: nat): nat {
    F.SelfAt(t, F.Root, s) + SumSelf(t, |t.functions|, s)
  }

  function SumEnds(log: seq<F.Event>, n: nat, s: nat): nat {
    if n == 0 then 0 else SumEnds(log, n - 1, s) + F.EndCount(log, F.Function(n - 1), s)
  }

  function EventsFrom(log: seq<F.Event>, s: nat): nat {
    if log == [] then 0 else EventsFrom(log[..|log| - 1], s) + if log[|log| - 1].source == s then 1 else 0
  }

  lemma {:induction false} SumSelfIsEnds(t: F.Table, log: seq<F.Event>, n: nat, s: nat)
    requires F.CountsLog(t, log)
    ensures SumSelf(t, n, s) == SumEnds(log, n, s)
  {
    if n > 0 {
      SumSelfIsEnds(t, log, n - 1, s);
      assert F.CountsFor(t, log, F.Function(n - 1), 0, s);
    }
  }

  lemma {:induction false} LastEndsOnce(log: seq<F.Event>, n: nat, s: nat)
    requires log != []
    ensures var last := log[|log| - 1];
            SumEnds(log, n, s) == SumEnds(log[..|log| - 1], n, s)
              + if last.source == s && LastOf(last).Function? && LastOf(last).id < n then 1 else 0
    decreases n
  {
    if n > 0 { LastEndsOnce(log, n - 1, s); }
  }

  lemma {:induction false} NothingEnds(log: seq<F.Event>, n: nat, s: nat)
    requires log == []
    ensures SumEnds(log, n, s) == 0
  {
    if n > 0 { NothingEnds(log, n - 1, s); }
  }

  lemma {:induction false} EndsAddUp(log: seq<F.Event>, n: nat, s: nat)
    requires forall k :: 0 <= k < |log| && LastOf(log[k]).Function? ==> LastOf(log[k]).id < n
    ensures F.EndCount(log, F.Root, s) + SumEnds(log, n, s) == EventsFrom(log, s)
  {
    if log == [] {
      NothingEnds(log, n, s);
    } else {
      LastEndsOnce(log, n, s);
      EndsAddUp(log[..|log| - 1], n, s);
    }
  }

  lemma {:induction false} EndIsCounted(log: seq<F.Event>, k: nat)
    requires k < |log|
    ensures F.EndCount(log, LastOf(log[k]), log[k].source) > 0
  {
    if k < |log| - 1 { EndIsCounted(log[..|log| - 1], k); }
  }

  lemma {:induction false} AllSelfIsEvents(t: F.Table, log: seq<F.Event>, s: nat)
    requires F.CountsLog(t, log)
    ensures AllSelf(t, s) == EventsFrom(log, s)
  {
    forall k | 0 <= k < |log| && LastOf(log[k]).Function? ensures LastOf(log[k]).id < |t.functions| {
      EndIsCounted(log, k);
      assert F.CountsFor(t, log, LastOf(log[k]), 0, log[k].source);
    }
    EndsAddUp(log, |t.functions|, s);
    SumSelfIsEnds(t, log, |t.functions|, s);
    assert F.CountsFor(t, log, F.Root, 0, s);
  }

  lemma {:induction false} OneMoreEvent(log: seq<F.Event>, more: seq<F.Event>, s: nat)
    requires |more| <= 1
    ensures EventsFrom(log + more, s) == EventsFrom(log, s) + if more != [] && more[0].source == s then 1 else 0
  {
    if more == [] { assert log + more == log; } else { assert (log + more)[..|log|] == log; }
  }

  lemma {:induction false} CallLogIsCounted(events: seq<Event>, s: nat)
    ensures EventsFrom(CallLog(events), s) == E.EventCount(events, s, IsCounted)
  {
    if events != [] {
      var before := events[..|events| - 1];
      var last := events[|events| - 1];
      CallLogIsCounted(before, s);
      OneMoreEvent(CallLog(before), CallEvent(Run(before), last), s);
    }
  }

  /** The self hits of an analysis, added up, are the samples that have a stack or a frame. */
  lemma {:induction false} SelfsAreCountedSamples(events: seq<Event>, s: nat)
    ensures AllSelf(Run(events).table, s) == E.EventCount(events, s, IsCounted)
  {
    RunBalances(events);
    AllSelfIsEvents(Run(events).table, CallLog(events), s);
    CallLogIsCounted(events, s);
  }

  // ----- When an analysis that was cut short is fresh ----------------------------------

  /** From position `k` on there are only samples that leave no trace. */
  predicate RestIsBare(events: seq<Event>, k: nat) {
    forall i :: k <= i < |events| ==> events[i].sample.Bare?
  }

  lemma {:induction false} BareRestChangesNothing(events: seq<Event>, k: nat)
    requires k <= |events| && RestIsBare(events, k)
    ensures Run(events[..k]) == Run(events)
    decreases |events|
  {
    if k == |events| {
      assert events[..k] == events;
    } else {
      var before := events[..|events| - 1];
      BareRestChangesNothing(before, k);
      assert before[..k] == events[..k];
    }
  }

  lemma {:induction false} NothingCountedIsBare(events: seq<Event>)
    requires forall s: nat :: E.EventCount(events, s, IsCounted) == 0
    ensures RestIsBare(events, 0)
  {
    forall i | 0 <= i < |events| ensures events[i].sample.Bare? { CountedOnce(events, i); }
  }

  lemma {:induction false} CountedOnce(events: seq<Event>, i: nat)
    requires i < |events|
    ensures !events[i].sample.Bare? ==> E.EventCount(events, events[i].source, IsCounted) > 0
  {
    if i < |events| - 1 { CountedOnce(events[..|events| - 1], i); }
  }

  lemma {:induction false} SameSelfsSameCounts(d: D.Data, filter: S.Filter, process: nat, streams: seq<Z.SourceSamples>,
                                               others: seq<Z.SourceSamples>, visited: seq<Event>, s: nat)
    requires S.CanAsk(d.provider, process)
    requires D.AreStreams(d, filter, process, d.sources, streams) && D.AreStreams(d, filter, process, d.sources, others)
    requires Run(visited) == Run(Z.AllEvents(others))
    ensures E.EventCount(visited, s, IsCounted) == E.EventCount(Z.AllEvents(streams), s, IsCounted)
  {
    hide D.AreStreams, Run, Z.AllEvents, E.EventCount;
    SelfsAreCountedSamples(visited, s);
    SelfsAreCountedSamples(Z.AllEvents(others), s);
    E.StreamsCountKept(d, filter, process, d.sources, streams, s, IsCounted);
    E.StreamsCountKept(d, filter, process, d.sources, others, s, IsCounted);
  }

  lemma {:induction false} LostNothing(d: D.Data, filter: S.Filter, process: nat, streams: seq<Z.SourceSamples>,
                                       others: seq<Z.SourceSamples>, k: nat)
    requires S.CanAsk(d.provider, process) && k <= |Z.AllEvents(streams)|
    requires D.AreStreams(d, filter, process, d.sources, streams) && D.AreStreams(d, filter, process, d.sources, others)
    requires Run(Z.AllEvents(streams)[..k]) == Run(Z.AllEvents(others))
    ensures RestIsBare(Z.AllEvents(streams), k)
  {
    hide D.AreStreams, Run, Z.AllEvents, E.EventCount;
    var events := Z.AllEvents(streams);
    forall s: nat ensures E.EventCount(events[k..], s, IsCounted) == 0 {
      SameSelfsSameCounts(d, filter, process, streams, others, events[..k], s);
      E.EventCountsAdd(events[..k], events[k..], s, IsCounted);
      assert events == events[..k] + events[k..];
    }
    NothingCountedIsBare(events[k..]);
    forall i | k <= i < |events| ensures events[i].sample.Bare? { assert events[k..][i - k] == events[i]; }
  }

  /** An analysis, cut short or not, is fresh exactly when it misses nothing but samples that leave no trace. */
  lemma {:induction false} FreshExactlyWhenRestIsBare(d: D.Data, filter: S.Filter, process: nat,
                                                      streams: seq<Z.SourceSamples>, asks: nat, a: Analysis)
    requires S.CanAsk(d.provider, process) && D.IsAnalysisOf(d, filter, process, streams, asks, a)
    ensures D.IsFresh(d, filter, process, a) <==> RestIsBare(Z.AllEvents(streams), asks)
  {
    hide D.AreStreams, Run, Z.AllEvents;
    var events := Z.AllEvents(streams);
    if asks < |events| {
      if RestIsBare(events, asks) { BareRestChangesNothing(events, asks); }
      if D.IsFresh(d, filter, process, a) {
        var others :| D.AreStreams(d, filter, process, d.sources, others) && a == Run(Z.AllEvents(others));
        LostNothing(d, filter, process, streams, others, asks);
      }
    }
  }

  // ----- Data without such samples -----------------------------------------------------

  /** Every recorded sample has a stack or a frame. */
  ghost predicate AllCounted(d: D.Data) {
    d.provider.context.Some? ==>
      forall osId: nat, event: nat :: NoneBare(S.AllSamples(d.provider.context.value, osId, event))
  }

  predicate NoneBare(samples: seq<M.Timed<Sample>>) {
    forall i :: 0 <= i < |samples| ==> !samples[i].value.Bare?
  }

  lemma {:induction false} KeptNotBare(samples: seq<M.Timed<Sample>>, w: S.Window)
    requires NoneBare(samples)
    ensures NoneBare(S.Kept(samples, w))
  {
    if samples != [] { KeptNotBare(samples[..|samples| - 1], w); }
  }

  predicate NoSourceBare(sources: seq<seq<M.Timed<Sample>>>) {
    forall i :: 0 <= i < |sources| ==> NoneBare(sources[i])
  }

  lemma {:induction false} ThreadsNotBare(d: D.Data, threads: seq<nat>, filter: S.Filter, event: nat)
    requires AllCounted(d) && d.provider.context.Some?
    ensures NoSourceBare(S.SourcesOfThreads(d.provider.context.value, threads, filter, event))
  {
    if threads != [] {
      var context := d.provider.context.value;
      var t := threads[|threads| - 1];
      ThreadsNotBare(d, threads[..|threads| - 1], filter, event);
      if t in context.threads {
        KeptNotBare(S.AllSamples(context, context.threads[t].osId, event), S.FilterWindow(context.threads[t], filter));
      }
    }
  }

  lemma {:induction false} ProjectedIsThere(out: seq<M.Timed<Sample>>, from: seq<nat>, k: nat)
    requires |out| == |from| && k < |out|
    ensures out[k] in M.Project(out, from, from[k])
  {
    if k < |out| - 1 { ProjectedIsThere(out[..|out| - 1], from[..|from| - 1], k); }
  }

  lemma {:induction false} MergedNotBare(sources: seq<seq<M.Timed<Sample>>>, out: seq<M.Timed<Sample>>, from: seq<nat>)
    requires M.IsMerge(sources, out, from) && NoSourceBare(sources)
    ensures NoneBare(out)
  {
    forall k | 0 <= k < |out| ensures !out[k].value.Bare? {
      ProjectedIsThere(out, from, k);
      var i :| 0 <= i < |sources[from[k]]| && sources[from[k]][i] == out[k];
    }
  }

  lemma {:induction false} StreamsNotBare(d: D.Data, filter: S.Filter, process: nat, sources: seq<nat>,
                                          streams: seq<Z.SourceSamples>)
    requires S.CanAsk(d.provider, process) && AllCounted(d) && D.AreStreams(d, filter, process, sources, streams)
    ensures forall i :: 0 <= i < |Z.AllEvents(streams)| ==> !Z.AllEvents(streams)[i].sample.Bare?
  {
    if streams != [] {
      var n := |streams| - 1;
      StreamsNotBare(d, filter, process, sources[..n], streams[..n]);
      StreamNotBare(d, filter, process, streams[n]);
    }
  }

  lemma {:induction false} StreamNotBare(d: D.Data, filter: S.Filter, process: nat, stream: Z.SourceSamples)
    requires S.CanAsk(d.provider, process) && AllCounted(d) && D.IsStream(d, filter, process, stream)
    ensures forall i :: 0 <= i < |stream.samples| ==> !stream.samples[i].Bare?
  {
    var sources := S.Sources(d.provider, stream.source, process, filter);
    var out, from :| M.IsMerge(sources, out, from) && stream.samples == D.ValuesOf(out);
    if sources != [] {
      ThreadsNotBare(d, d.provider.context.value.threadsOf[process], filter, d.provider.events[stream.source]);
    }
    MergedNotBare(sources, out, from);
  }

  /** Where every sample has a stack or a frame: fresh exactly when the answers do not run out before the samples. */
  lemma {:induction false} FreshExactlyWhenNotCutShort(d: D.Data, filter: S.Filter, process: nat,
                                                       streams: seq<Z.SourceSamples>, asks: nat, a: Analysis)
    requires S.CanAsk(d.provider, process) && AllCounted(d) && D.IsAnalysisOf(d, filter, process, streams, asks, a)
    ensures D.IsFresh(d, filter, process, a) <==> D.GivenOut(d, filter, process, d.sources) <= asks
  {
    hide Run, Z.AllEvents, D.GivenOut, D.AreStreams, AllCounted;
    FreshExactlyWhenRestIsBare(d, filter, process, streams, asks, a);
    StreamsNotBare(d, filter, process, d.sources, streams);
    D.StreamsLength(d, filter, process, d.sources, streams);
    var events := Z.AllEvents(streams);
    if asks < |events| { assert !events[asks].sample.Bare?; }
  }

  // ----- Runs --------------------------------------------------------------------------

  datatype Request = SetFilter(filter: S.Filter) | AskCounts
                   | AskAnalysis(process: nat, asks: nat) | AskFunctions(process: nat, order: D.SortBy, asks: nat)

  datatype Answer = Done | Counts(counts: map<nat, nat>) | Analyzed(analysis: Analysis) | Functions(ids: seq<nat>)

  predicate IsQuery(r: Request) { r.AskAnalysis? || r.AskFunctions? }

  predicate IsQueryOf(r: Request, process: nat) { IsQuery(r) && r.process == process }

  /** What the requests alone say about the caches: the filter, and for each process with a kept analysis the
      number of answers that its first query since the last new filter had. */
  datatype Plan = Plan(filter: S.Filter, asked: map<nat, nat>)

  function PlanAfter(plan: Plan, r: Request): Plan {
    match r
    case SetFilter(f) => if f == plan.filter then plan else Plan(f, map[])
    case AskCounts => plan
    case _ => if r.process in plan.asked then plan else plan.(asked := plan.asked[r.process := r.asks])
  }

  function PlanAfterAll(plan: Plan, requests: seq<Request>): Plan {
    if requests == [] then plan
    else PlanAfter(PlanAfterAll(plan, requests[..|requests| - 1]), requests[|requests| - 1])
  }

  /** The filter, the kept analyses with the samples and the number of answers they were made from, and what is kept
      beside them. */
  datatype Cache = Cache(filter: S.Filter, kept: map<nat, D.Origin>, data: map<nat, D.AnalysisData>)

  ghost function PlanOf(c: Cache): Plan {
    Plan(c.filter, map process | process in c.kept :: c.kept[process].asks)
  }

  ghost function CacheOf(document: D.DocumentStorage): Cache
    reads document
  {
    Cache(document.filter, document.origins, document.analysisPerProcess)
  }

  /** The request leads from one cache to the next: the plan says what is kept, and nothing that was kept changes
      while the filter stays. */
  ghost predicate Step(c: Cache, r: Request, c': Cache) {
    && PlanOf(c') == PlanAfter(PlanOf(c), r)
    && (c'.filter == c.filter ==> forall process :: process in c.kept ==> Stays(c, c', process))
  }

  ghost predicate Stays(c: Cache, c': Cache, process: nat) {
    && process in c.kept && process in c'.kept && c'.kept[process] == c.kept[process]
    && (process in c.data ==> process in c'.data && D.ListsStay(c.data[process], c'.data[process]))
  }

  /** Every kept analysis is that of the samples taken for it, as far as they were visited. */
  ghost predicate KeptRight(d: D.Data, c: Cache) {
    forall process :: process in c.kept ==> D.IsOrigin(d, c.filter, process, c.kept[process])
  }

  /** The answer to a query is the kept analysis, or the kept list for the order, sorted, of its functions. */
  ghost predicate IsReadOff(a: Analysis, data: D.AnalysisData, r: Request, answer: Answer) {
    && (r.AskAnalysis? ==> answer == Analyzed(a))
    && (r.AskFunctions? ==>
          answer.Functions? && D.IsSorted(a, r.order, answer.ids) && D.KeptFor(data, r.order) == Some(answer.ids))
  }

  /** The answer is read off the cache that the request leaves behind. */
  ghost predicate IsAnswer(d: D.Data, c: Cache, r: Request, answer: Answer)
    requires D.Usable(d)
  {
    match r
    case SetFilter(_) => answer == Done
    case AskCounts => answer == Counts(D.FreshCounts(d, c.filter))
    case _ =>
      && r.process in c.kept && r.process in c.data
      && IsReadOff(c.kept[r.process].analysis, c.data[r.process], r, answer)
  }

  ghost predicate IsServed(d: D.Data, c: Cache, r: Request, answer: Answer, c': Cache)
    requires D.Usable(d)
  {
    Step(c, r, c') && KeptRight(d, c') && IsAnswer(d, c', r, answer)
  }

  method ServeOne(document: D.DocumentStorage, r: Request) returns (answer: Answer)
    requires document.Coherent() && (IsQuery(r) ==> S.CanAsk(document.data.value.provider, r.process))
    modifies document
    ensures document.Coherent() && document.data == old(document.data)
    ensures IsServed(document.data.value, old(CacheOf(document)), r, answer, CacheOf(document))
  {
    hide D.DocumentStorage.FitsData, D.IsOrigin, D.IsSorted, D.FreshCounts, D.GivenOut, D.IsFresh, Sound, S.CanAsk;
    ghost var before := CacheOf(document);
    document.KeysAgree();
    match r {
      case SetFilter(f) =>
        document.ApplyFilter(f);
        answer := Done;
      case AskCounts =>
        var counts := document.GetTotalSamplesCounts();
        answer := Counts(counts);
      case AskAnalysis(process, asks) =>
        var analysis := document.GetProcessAnalysis(process, asks);
        answer := Analyzed(analysis);
      case AskFunctions(process, order, asks) =>
        var ids := document.GetSortedFunctions(process, order, asks);
        answer := Functions(ids);
    }
    document.OriginsFit();
    assert PlanOf(CacheOf(document)).asked == PlanAfter(PlanOf(before), r).asked;
  }

  /** `caches` are what is kept before, between and after the requests. */
  ghost predicate IsRun(d: D.Data, requests: seq<Request>, answers: seq<Answer>, caches: seq<Cache>)
    requires D.Usable(d)
  {
    && |answers| == |requests| && |caches| == |requests| + 1
    && forall i :: 0 <= i < |requests| ==> IsServed(d, caches[i], requests[i], answers[i], caches[i + 1])
  }

  lemma {:induction false} OneMoreAnswer(d: D.Data, requests: seq<Request>, answers: seq<Answer>, caches: seq<Cache>,
                                         r: Request, answer: Answer, c: Cache)
    requires D.Usable(d) && IsRun(d, requests, answers, caches)
    requires IsServed(d, caches[|requests|], r, answer, c)
    ensures IsRun(d, requests + [r], answers + [answer], caches + [c])
  {
    hide IsServed;
    var requests', answers', caches' := requests + [r], answers + [answer], caches + [c];
    forall i | 0 <= i < |requests'| ensures IsServed(d, caches'[i], requests'[i], answers'[i], caches'[i + 1]) {
      if i < |requests| {
        assert IsServed(d, caches[i], requests[i], answers[i], caches[i + 1]);
      }
    }
  }

  /** Over every sequence of filter changes and queries: counts are fresh, and every other answer is read off one kept
      analysis per process, which stays as it is while the filter does and is that of the samples taken for it. */
  method Serve(document: D.DocumentStorage, requests: seq<Request>)
    returns (answers: seq<Answer>, ghost caches: seq<Cache>)
    requires document.Coherent()
    requires forall i :: 0 <= i < |requests| && IsQuery(requests[i]) ==>
               S.CanAsk(document.data.value.provider, requests[i].process)
    modifies document
    ensures document.Coherent() && document.data == old(document.data)
    ensures IsRun(document.data.value, requests, answers, caches)
    ensures caches[0] == old(CacheOf(document)) && caches[|requests|] == CacheOf(document)
  {
    ghost var d := document.data.value;
    answers, caches := [], [CacheOf(document)];
    for i := 0 to |requests|
      invariant document.Coherent() && document.data == old(document.data)
      invariant |caches| == i + 1 && IsRun(d, requests[..i], answers, caches)
      invariant caches[0] == old(CacheOf(document)) && caches[i] == CacheOf(document)
    {
      hide *;
      var answer := ServeOne(document, requests[i]);
      OneMoreAnswer(d, requests[..i], answers, caches, requests[i], answer, CacheOf(document));
      assert requests[..i + 1] == requests[..i] + [requests[i]];
      answers, caches := answers + [answer], caches + [CacheOf(document)];
    }
    assert requests[..|requests|] == requests;
  }

  // ----- One analysis between two filter changes ---------------------------------------

  /** The filter does not change from `lo` to `hi`. */
  ghost predicate FilterStays(caches: seq<Cache>, lo: nat, hi: nat)
    requires hi < |caches|
  {
    forall k :: lo <= k < hi ==> caches[k + 1].filter == caches[k].filter
  }

  lemma {:induction false} KeptStays(d: D.Data, requests: seq<Request>, answers: seq<Answer>, caches: seq<Cache>,
                                     lo: nat, hi: nat, process: nat)
    requires D.Usable(d) && IsRun(d, requests, answers, caches) && lo <= hi <= |requests|
    requires process in caches[lo].kept && FilterStays(caches, lo, hi)
    ensures Stays(caches[lo], caches[hi], process)
    decreases hi
  {
    hide D.Usable, KeptRight, IsAnswer, PlanOf, PlanAfter, D.KeptFor;
    if lo < hi {
      KeptStays(d, requests, answers, caches, lo, hi - 1, process);
      assert IsServed(d, caches[hi - 1], requests[hi - 1], answers[hi - 1], caches[hi]);
      assert caches[hi - 1 + 1].filter == caches[hi - 1].filter;
    }
  }

  lemma {:induction false} QueryKeeps(c: Cache, r: Request, c': Cache)
    requires Step(c, r, c') && IsQuery(r)
    ensures c'.filter == c.filter && r.process in c'.kept
    ensures r.process !in c.kept ==> c'.kept[r.process].asks == r.asks
  {
    assert r.process in PlanOf(c').asked;
    assert r.process in PlanOf(c).asked <==> r.process in c.kept;
  }

  lemma {:induction false} OnlyQueryKeeps(c: Cache, r: Request, c': Cache, process: nat)
    requires Step(c, r, c') && process in c'.kept && !(process in c.kept && c'.filter == c.filter)
    ensures IsQueryOf(r, process) && process !in c.kept && c'.filter == c.filter
  {
    assert process in PlanOf(c').asked;
    assert process in PlanOf(c).asked <==> process in c.kept;
  }

  /** What two answers for the same process say must come from the same analysis. */
  ghost predicate Agree(r: Request, answer: Answer, r': Request, answer': Answer) {
    && (answer.Analyzed? && answer'.Analyzed? ==> answer == answer')
    && (r.AskFunctions? && r'.AskFunctions? && r.order == r'.order ==> answer == answer')
    && (answer.Analyzed? && answer'.Functions? && r'.AskFunctions? ==>
          D.IsSorted(answer.analysis, r'.order, answer'.ids))
    && (answer.Functions? && answer'.Analyzed? && r.AskFunctions? ==>
          D.IsSorted(answer'.analysis, r.order, answer.ids))
  }

  /** Between two filter changes all answers for a process come from one analysis: analyses that are asked for are
      equal, lists in the same order are equal, and a list holds the functions of the analysis that is returned before
      or after it. */
  lemma {:induction false} OneAnalysisPerFilter(d: D.Data, requests: seq<Request>, answers: seq<Answer>,
                                                caches: seq<Cache>, i: nat, j: nat, process: nat)
    requires D.Usable(d) && IsRun(d, requests, answers, caches)
    requires i <= j < |requests| && FilterStays(caches, i + 1, j + 1)
    requires IsQueryOf(requests[i], process) && IsQueryOf(requests[j], process)
    ensures process in caches[i + 1].kept && process in caches[j + 1].kept
    ensures caches[j + 1].kept[process] == caches[i + 1].kept[process]
    ensures Agree(requests[i], answers[i], requests[j], answers[j])
  {
    assert IsServed(d, caches[i], requests[i], answers[i], caches[i + 1]);
    assert IsServed(d, caches[j], requests[j], answers[j], caches[j + 1]);
    hide *;
    KeptAnswer(d, caches[i], requests[i], answers[i], caches[i + 1], process);
    KeptAnswer(d, caches[j], requests[j], answers[j], caches[j + 1], process);
    KeptStays(d, requests, answers, caches, i + 1, j + 1, process);
    SameCacheAgrees(caches[i + 1], caches[j + 1], requests[i], answers[i], requests[j], answers[j]);
  }

  lemma {:induction false} SameCacheAgrees(c: Cache, c': Cache, r: Request, answer: Answer, r': Request,
                                           answer': Answer)
    requires IsQuery(r) && IsQueryOf(r', r.process) && Stays(c, c', r.process) && r.process in c.data
    requires IsReadOff(c.kept[r.process].analysis, c.data[r.process], r, answer)
    requires IsReadOff(c'.kept[r.process].analysis, c'.data[r.process], r', answer')
    ensures Agree(r, answer, r', answer')
    ensures c'.kept[r.process] == c.kept[r.process]
  {
    hide D.IsSorted, D.KeptFor;
  }

  lemma {:induction false} KeptAnswer(d: D.Data, c: Cache, r: Request, answer: Answer, c': Cache, process: nat)
    requires D.Usable(d) && IsServed(d, c, r, answer, c') && IsQueryOf(r, process)
    ensures process in c'.kept && D.IsOrigin(d, c'.filter, process, c'.kept[process])
    ensures IsQuery(r) && process == r.process
    ensures process in c'.data && IsReadOff(c'.kept[process].analysis, c'.data[process], r, answer)
  {
    hide D.Usable, D.IsOrigin, D.IsSorted, Step;
  }

  /** That analysis is the one of the first query of the process since the filter changed, with its number of
      answers. */
  lemma {:induction false} FirstQueryCounts(d: D.Data, requests: seq<Request>, answers: seq<Answer>, caches: seq<Cache>,
                                            n: nat, process: nat) returns (j: nat)
    requires D.Usable(d) && IsRun(d, requests, answers, caches)
    requires n <= |requests| && process !in caches[0].kept && process in caches[n].kept
    ensures j < n && IsQueryOf(requests[j], process) && FilterStays(caches, j, n)
    ensures process in caches[j + 1].kept && caches[n].kept[process] == caches[j + 1].kept[process]
    ensures caches[n].kept[process].asks == requests[j].asks
    ensures forall k :: 0 <= k < j && IsQueryOf(requests[k], process) ==> !FilterStays(caches, k + 1, j)
    decreases n
  {
    hide D.Usable, KeptRight, IsAnswer, Step;
    assert IsServed(d, caches[n - 1], requests[n - 1], answers[n - 1], caches[n]);
    if process in caches[n - 1].kept && caches[n].filter == caches[n - 1].filter {
      j := FirstQueryCounts(d, requests, answers, caches, n - 1, process);
      KeptStays(d, requests, answers, caches, n - 1, n, process);
    } else {
      j := n - 1;
      OnlyQueryKeeps(caches[n - 1], requests[n - 1], caches[n], process);
      QueryKeeps(caches[n - 1], requests[n - 1], caches[n]);
      forall k | 0 <= k < j && IsQueryOf(requests[k], process) ensures !FilterStays(caches, k + 1, j) {
        assert IsServed(d, caches[k], requests[k], answers[k], caches[k + 1]);
        QueryKeeps(caches[k], requests[k], caches[k + 1]);
        if FilterStays(caches, k + 1, j) { KeptStays(d, requests, answers, caches, k + 1, j, process); }
      }
    }
  }

  // ----- When all answers are fresh ----------------------------------------------------

  /** The analysis behind an answer is fresh under the filter of its time. */
  ghost predicate IsFreshAnswer(d: D.Data, c: Cache, r: Request) {
    IsQuery(r) ==>
      S.CanAsk(d.provider, r.process) && r.process in c.kept
      && D.IsFresh(d, c.filter, r.process, c.kept[r.process].analysis)
  }

  /** The first query of the process under the filter missed at most samples that leave no trace. */
  ghost predicate MissedNothing(c: Cache, r: Request) {
    IsQuery(r) ==>
      r.process in c.kept && RestIsBare(Z.AllEvents(c.kept[r.process].streams), c.kept[r.process].asks)
  }

  /** The answers of the first query of the process under the filter did not run out before its samples. */
  ghost predicate WasNotCutShort(d: D.Data, plan: Plan, r: Request) {
    IsQuery(r) ==>
      S.CanAsk(d.provider, r.process) && r.process in plan.asked
      && D.GivenOut(d, plan.filter, r.process, d.sources) <= plan.asked[r.process]
  }

  lemma {:induction false} AnswerFreshExactlyWhen(d: D.Data, c: Cache, r: Request)
    requires IsQuery(r) ==> r.process in c.kept && D.IsOrigin(d, c.filter, r.process, c.kept[r.process])
    ensures IsFreshAnswer(d, c, r) <==> MissedNothing(c, r)
    ensures WasNotCutShort(d, PlanOf(c), r) ==> IsFreshAnswer(d, c, r)
    ensures AllCounted(d) ==> (IsFreshAnswer(d, c, r) <==> WasNotCutShort(d, PlanOf(c), r))
  {
    hide D.IsFresh, D.IsAnalysisOf, RestIsBare, AllCounted, D.GivenOut, S.CanAsk;
    if IsQuery(r) {
      var o := c.kept[r.process];
      assert PlanOf(c).asked[r.process] == o.asks;
      FreshExactlyWhenRestIsBare(d, c.filter, r.process, o.streams, o.asks, o.analysis);
      if AllCounted(d) { FreshExactlyWhenNotCutShort(d, c.filter, r.process, o.streams, o.asks, o.analysis); }
      if WasNotCutShort(d, PlanOf(c), r) {
        D.NotCutShortIsFresh(d, c.filter, r.process, o.streams, o.asks, o.analysis);
      }
    }
  }

  ghost predicate AllFresh(d: D.Data, requests: seq<Request>, caches: seq<Cache>)
    requires |caches| == |requests| + 1
  {
    forall i :: 0 <= i < |requests| ==> IsFreshAnswer(d, caches[i + 1], requests[i])
  }

  ghost predicate AllMissedNothing(requests: seq<Request>, caches: seq<Cache>)
    requires |caches| == |requests| + 1
  {
    forall i :: 0 <= i < |requests| ==> MissedNothing(caches[i + 1], requests[i])
  }

  /** A condition on the data, what was kept before and the requests alone. */
  ghost predicate NoneCutShort(d: D.Data, plan: Plan, requests: seq<Request>) {
    forall i :: 0 <= i < |requests| ==> WasNotCutShort(d, PlanAfterAll(plan, requests[..i + 1]), requests[i])
  }

  lemma {:induction false} CachesFollowPlan(d: D.Data, requests: seq<Request>, answers: seq<Answer>, caches: seq<Cache>,
                                            i: nat)
    requires D.Usable(d) && IsRun(d, requests, answers, caches) && i <= |requests|
    ensures PlanOf(caches[i]) == PlanAfterAll(PlanOf(caches[0]), requests[..i])
  {
    hide D.Usable, KeptRight, IsAnswer, PlanOf, PlanAfter;
    if i > 0 {
      CachesFollowPlan(d, requests, answers, caches, i - 1);
      assert IsServed(d, caches[i - 1], requests[i - 1], answers[i - 1], caches[i]);
      assert requests[..i][..i - 1] == requests[..i - 1];
    }
  }

  /** Over every run: all answers are fresh if and only if no first query under a filter missed a sample that leaves a
      trace. They are fresh if no first query was cut short, and where all samples leave a trace only then. */
  lemma {:induction false} AllFreshExactlyWhen(d: D.Data, requests: seq<Request>, answers: seq<Answer>,
                                               caches: seq<Cache>)
    requires D.Usable(d) && IsRun(d, requests, answers, caches)
    ensures AllFresh(d, requests, caches) <==> AllMissedNothing(requests, caches)
    ensures NoneCutShort(d, PlanOf(caches[0]), requests) ==> AllFresh(d, requests, caches)
    ensures AllCounted(d) ==> (AllFresh(d, requests, caches) <==> NoneCutShort(d, PlanOf(caches[0]), requests))
  {
    hide IsFreshAnswer, MissedNothing, WasNotCutShort, IsServed, AllCounted, PlanAfterAll, PlanOf, D.Usable;
    var plan := PlanOf(caches[0]);
    forall i | 0 <= i < |requests|
      ensures var r := requests[i];
              var now := PlanAfterAll(plan, requests[..i + 1]);
              && (IsFreshAnswer(d, caches[i + 1], r) <==> MissedNothing(caches[i + 1], r))
              && (WasNotCutShort(d, now, r) ==> IsFreshAnswer(d, caches[i + 1], r))
              && (AllCounted(d) ==> (IsFreshAnswer(d, caches[i + 1], r) <==> WasNotCutShort(d, now, r)))
    {
      CachesFollowPlan(d, requests, answers, caches, i + 1);
      if IsQuery(requests[i]) { KeptAnswer(d, caches[i], requests[i], answers[i], caches[i + 1], requests[i].process); }
      AnswerFreshExactlyWhen(d, caches[i + 1], requests[i]);
    }
  }

  // ----- A cancelled analysis that is kept ---------------------------------------------

  const SAMPLES: seq<M.Timed<Sample>> := [M.Timed(1, WithStack([]))]

  /** One process with one thread that recorded one sample. */
  const ONE_SAMPLE :=
    D.Data(S.Provider(Some(S.Context(map[0 := [0]], map[0 := S.Thread(0, 0, None)], map[0 := SAMPLES], map[])), [0]),
           [0], [0])

  lemma {:induction false} OneSampleIsKept()
    ensures S.SamplesOfThread(ONE_SAMPLE.provider.context.value, 0, D.NO_FILTER, 0) == SAMPLES
  {
    var w := S.FilterWindow(S.Thread(0, 0, None), D.NO_FILTER);
    assert SAMPLES[..0] == [] && S.Holds(w, 1) && S.Kept(SAMPLES[..0], w) == [];
    assert S.Kept(SAMPLES, w) == SAMPLES;
  }

  lemma {:induction false} OneSourceIsKept()
    ensures S.SourcesOfThreads(ONE_SAMPLE.provider.context.value, [0], D.NO_FILTER, 0) == [SAMPLES]
    ensures M.TotalLength([SAMPLES]) == 1
  {
    OneSampleIsKept();
    hide S.SamplesOfThread;
    var threads: seq<nat> := [0];
    assert threads[..0] == [];
    assert [SAMPLES][..0] == [];
  }

  lemma {:induction false} OneSampleIsUsable()
    ensures D.Usable(ONE_SAMPLE) && S.CanAsk(ONE_SAMPLE.provider, 0) && AllCounted(ONE_SAMPLE)
  {
    var context := ONE_SAMPLE.provider.context.value;
    forall osId: nat, event: nat ensures S.AllSamples(context, osId, event) in {SAMPLES, []} {
    }
  }

  lemma {:induction false} OneSampleIsGivenOut()
    ensures S.CanAsk(ONE_SAMPLE.provider, 0) && D.GivenOut(ONE_SAMPLE, D.NO_FILTER, 0, ONE_SAMPLE.sources) == 1
  {
    OneSampleIsUsable();
    OneSourceIsKept();
    hide S.SourcesOfThreads, S.CanAsk, M.TotalLength, D.Usable, AllCounted;
    var sources: seq<nat> := ONE_SAMPLE.sources;
    assert sources[..0] == [];
    assert D.GivenOut(ONE_SAMPLE, D.NO_FILTER, 0, sources[..0]) == 0;
  }

  /** The first query is cancelled at once; the second one is not cancelled, and gets the same analysis, which is not
      fresh. */
  method CancelledIsKept() returns (first: Analysis, second: Analysis)
    ensures first == second && S.CanAsk(ONE_SAMPLE.provider, 0) && !D.IsFresh(ONE_SAMPLE, D.NO_FILTER, 0, second)
  {
    OneSampleIsUsable();
    OneSampleIsGivenOut();
    hide AllCounted, D.GivenOut, D.Usable, D.IsFresh, D.IsAnalysisOf, D.AllFit;
    var document := new D.DocumentStorage();
    document.ReadDocument(ONE_SAMPLE);
    first := document.GetProcessAnalysis(0, 0);
    second := document.GetProcessAnalysis(0, 1000);
    FreshExactlyWhenNotCutShort(ONE_SAMPLE, D.NO_FILTER, 0, document.origins[0].streams, 0, second);
  }
}
