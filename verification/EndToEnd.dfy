/** From the recorded samples to the call tree: the counts of a fresh analysis do not depend on how it was computed. */
module EndToEnd {

  import opened Hits
  import opened StacksAnalysis
  import S = Samples
  import M = Merging
  import Z = StacksAnalyzer
  import D = Storage

  // ----- Reference: counting recorded samples ------------------------------------------

  /** The samples whose stack starts with the path. */
  function StartsWith(path: seq<StackFrame>): Sample -> bool {
    (x: Sample) => x.WithStack? && path <= x.frames
  }

  /** The samples whose stack is the path. */
  function Is(path: seq<StackFrame>): Sample -> bool {
    (x: Sample) => x.WithStack? && path == x.frames
  }

  function CountRecorded(samples: seq<M.Timed<Sample>>, p: Sample -> bool): nat {
    if samples == [] then 0
    else CountRecorded(samples[..|samples| - 1], p) + if p(samples[|samples| - 1].value) then 1 else 0
  }

  function CountAllRecorded(sources: seq<seq<M.Timed<Sample>>>, p: Sample -> bool): nat {
    if sources == [] then 0
    else CountAllRecorded(sources[..|sources| - 1], p) + CountRecorded(sources[|sources| - 1], p)
  }

  /** The samples of the sample source `s` that go along the path: in the threads of the process, inside the filter. */
  ghost function CountKept(d: D.Data, filter: S.Filter, process: nat, sources: seq<nat>, s: nat, p: Sample -> bool): nat
    requires S.CanAsk(d.provider, process)
  {
    if sources == [] then 0
    else CountKept(d, filter, process, sources[..|sources| - 1], s, p)
         + if sources[|sources| - 1] == s then CountAllRecorded(S.Sources(d.provider, s, process, filter), p) else 0
  }

  // ----- Merging keeps counts ----------------------------------------------------------

  function CountProjected(out: seq<M.Timed<Sample>>, from: seq<nat>, n: nat, p: Sample -> bool): nat
    requires |out| == |from|
  {
    if n == 0 then 0 else CountProjected(out, from, n - 1, p) + CountRecorded(M.Project(out, from, n - 1), p)
  }

  lemma {:induction false} CountAppended(samples: seq<M.Timed<Sample>>, e: M.Timed<Sample>, p: Sample -> bool)
    ensures CountRecorded(samples + [e], p) == CountRecorded(samples, p) + if p(e.value) then 1 else 0
  {
    assert (samples + [e])[..|samples|] == samples;
  }

  /** What came last is counted where it came from. */
  lemma {:induction false} ProjectionCount(out: seq<M.Timed<Sample>>, from: seq<nat>, e: M.Timed<Sample>, c: nat,
                                           i: nat, p: Sample -> bool)
    requires |out| == |from|
    ensures CountRecorded(M.Project(out + [e], from + [c], i), p)
         == CountRecorded(M.Project(out, from, i), p) + if i == c && p(e.value) then 1 else 0
  {
    M.ProjectAppended(out, from, e, c, i);
    hide M.Project;
    if i == c {
      CountAppended(M.Project(out, from, i), e, p);
    } else {
      assert M.Project(out, from, i) + [] == M.Project(out, from, i);
    }
  }

  lemma {:induction false} LastCountedOnce(out: seq<M.Timed<Sample>>, from: seq<nat>, e: M.Timed<Sample>, c: nat,
                                           n: nat, p: Sample -> bool)
    requires |out| == |from|
    ensures CountProjected(out + [e], from + [c], n, p)
            == CountProjected(out, from, n, p) + if c < n && p(e.value) then 1 else 0
    decreases n
  {
    hide M.Project, CountRecorded;
    if n > 0 {
      LastCountedOnce(out, from, e, c, n - 1, p);
      ProjectionCount(out, from, e, c, n - 1, p);
    }
  }

  lemma {:induction false} CountProjectedIsCount(out: seq<M.Timed<Sample>>, from: seq<nat>, n: nat, p: Sample -> bool)
    requires |out| == |from| && forall k :: 0 <= k < |from| ==> from[k] < n
    ensures CountProjected(out, from, n, p) == CountRecorded(out, p)
  {
    if out == [] {
      NothingCounted(out, from, n, p);
    } else {
      var k := |out| - 1;
      assert out == out[..k] + [out[k]] && from == from[..k] + [from[k]];
      LastCountedOnce(out[..k], from[..k], out[k], from[k], n, p);
      CountProjectedIsCount(out[..k], from[..k], n, p);
    }
  }

  lemma {:induction false} NothingCounted(out: seq<M.Timed<Sample>>, from: seq<nat>, n: nat, p: Sample -> bool)
    requires out == [] && from == []
    ensures CountProjected(out, from, n, p) == 0
  {
    if n > 0 { NothingCounted(out, from, n - 1, p); }
  }

  lemma {:induction false} CountProjectedIsSum(sources: seq<seq<M.Timed<Sample>>>, out: seq<M.Timed<Sample>>,
                                               from: seq<nat>, n: nat, p: Sample -> bool)
    requires |out| == |from| && n <= |sources| && forall i :: 0 <= i < n ==> M.Project(out, from, i) == sources[i]
    ensures CountProjected(out, from, n, p) == CountAllRecorded(sources[..n], p)
    decreases n
  {
    if n > 0 {
      CountProjectedIsSum(sources, out, from, n - 1, p);
      assert sources[..n][..n - 1] == sources[..n - 1];
    }
  }

  /** A merge counts what its sources count. */
  lemma {:induction false} MergeKeepsCounts(sources: seq<seq<M.Timed<Sample>>>, out: seq<M.Timed<Sample>>,
                                            from: seq<nat>, p: Sample -> bool)
    requires M.IsMerge(sources, out, from)
    ensures CountRecorded(out, p) == CountAllRecorded(sources, p)
  {
    CountProjectedIsCount(out, from, |sources|, p);
    CountProjectedIsSum(sources, out, from, |sources|, p);
    assert sources[..|sources|] == sources;
  }

  // ----- From streams to events --------------------------------------------------------

  function EventCount(events: seq<Event>, s: nat, p: Sample -> bool): nat {
    if events == [] then 0
    else
      var last := events[|events| - 1];
      EventCount(events[..|events| - 1], s, p) + if last.source == s && p(last.sample) then 1 else 0
  }

  lemma {:induction false} EventCountIsPrefixCount(events: seq<Event>, s: nat, path: seq<StackFrame>)
    ensures EventCount(events, s, StartsWith(path)) == PrefixCount(events, s, path)
    ensures EventCount(events, s, Is(path)) == ExactCount(events, s, path)
  {
    if events != [] { EventCountIsPrefixCount(events[..|events| - 1], s, path); }
  }

  lemma {:induction false} LastEvent(events: seq<Event>, e: Event, s: nat, p: Sample -> bool)
    ensures EventCount(events + [e], s, p)
         == EventCount(events, s, p) + if e.source == s && p(e.sample) then 1 else 0
  {
    assert (events + [e])[..|events|] == events;
  }

  lemma {:induction false} EventCountsAdd(e1: seq<Event>, e2: seq<Event>, s: nat, p: Sample -> bool)
    ensures EventCount(e1 + e2, s, p) == EventCount(e1, s, p) + EventCount(e2, s, p)
    decreases |e2|
  {
    hide EventCount;
    if e2 == [] {
      assert e1 + e2 == e1;
      NoEvents(e2, s, p);
    } else {
      var before := e2[..|e2| - 1];
      var last := e2[|e2| - 1];
      EventCountsAdd(e1, before, s, p);
      LastEvent(e1 + before, last, s, p);
      LastEvent(before, last, s, p);
      assert e1 + e2 == e1 + before + [last] && e2 == before + [last];
    }
  }

  lemma {:induction false} NoEvents(events: seq<Event>, s: nat, p: Sample -> bool)
    requires events == []
    ensures EventCount(events, s, p) == 0
  {
  }

  lemma {:induction false} StreamCounts(source: nat, out: seq<M.Timed<Sample>>, s: nat, p: Sample -> bool)
    ensures EventCount(Z.EventsOf(source, D.ValuesOf(out)), s, p)
         == if source == s then CountRecorded(out, p) else 0
  {
    hide EventCount;
    if out == [] {
      NoEvents(Z.EventsOf(source, D.ValuesOf(out)), s, p);
    } else {
      var before := out[..|out| - 1];
      var last := Event(source, out[|out| - 1].value);
      StreamCounts(source, before, s, p);
      LastEvent(Z.EventsOf(source, D.ValuesOf(before)), last, s, p);
      assert Z.EventsOf(source, D.ValuesOf(out)) == Z.EventsOf(source, D.ValuesOf(before)) + [last];
    }
  }

  lemma {:induction false} StreamsCountKept(d: D.Data, filter: S.Filter, process: nat, sources: seq<nat>,
                                            streams: seq<Z.SourceSamples>, s: nat, p: Sample -> bool)
    requires S.CanAsk(d.provider, process) && D.AreStreams(d, filter, process, sources, streams)
    ensures EventCount(Z.AllEvents(streams), s, p) == CountKept(d, filter, process, sources, s, p)
    decreases |streams|
  {
    hide EventCount;
    if streams == [] {
      NoEvents(Z.AllEvents(streams), s, p);
    } else {
      var n := |streams| - 1;
      var last := streams[n];
      StreamsCountKept(d, filter, process, sources[..n], streams[..n], s, p);
      assert D.IsStream(d, filter, process, last);
      var out, from :| M.IsMerge(S.Sources(d.provider, last.source, process, filter), out, from) &&
          last.samples == D.ValuesOf(out);
      MergeKeepsCounts(S.Sources(d.provider, last.source, process, filter), out, from, p);
      StreamCounts(last.source, out, s, p);
      EventCountsAdd(Z.AllEvents(streams[..n]), Z.EventsOf(last.source, last.samples), s, p);
    }
  }

  // ----- The tree ----------------------------------------------------------------------

  /** The hits of a node are counts of recorded samples. */
  ghost predicate HitsCountKept(d: D.Data, filter: S.Filter, process: nat, hits: SourceHits, path: seq<StackFrame>)
    requires S.CanAsk(d.provider, process)
  {
    forall s: nat ::
      && Total(hits, s) == CountKept(d, filter, process, d.sources, s, StartsWith(path))
      && Self(hits, s) == CountKept(d, filter, process, d.sources, s, Is(path))
  }

  lemma {:induction false} HitsAreKept(d: D.Data, filter: S.Filter, process: nat, streams: seq<Z.SourceSamples>,
                                       hits: SourceHits, path: seq<StackFrame>)
    requires S.CanAsk(d.provider, process) && D.AreStreams(d, filter, process, d.sources, streams)
    requires HitsAre(hits, path, Z.AllEvents(streams))
    ensures HitsCountKept(d, filter, process, hits, path)
  {
    forall s: nat
      ensures Total(hits, s) == CountKept(d, filter, process, d.sources, s, StartsWith(path))
      ensures Self(hits, s) == CountKept(d, filter, process, d.sources, s, Is(path))
    {
      StreamsCountKept(d, filter, process, d.sources, streams, s, StartsWith(path));
      StreamsCountKept(d, filter, process, d.sources, streams, s, Is(path));
      EventCountIsPrefixCount(Z.AllEvents(streams), s, path);
    }
  }

  /** In every fresh analysis, whatever the order of samples of equal times: each node stands for a path of its own, and
      its hits are the numbers of recorded samples, inside the filter and the lives of the threads, that go along it. */
  lemma {:induction false} FreshAnalysisCountsRecorded(d: D.Data, filter: S.Filter, process: nat, a: Analysis)
    returns (paths: seq<seq<StackFrame>>)
    requires S.CanAsk(d.provider, process) && D.IsFresh(d, filter, process, a)
    ensures |paths| == |a.tree.nodes| && forall i, j :: 0 <= i < j < |paths| ==> paths[i] != paths[j]
    ensures HitsCountKept(d, filter, process, a.tree.root.hits, [])
    ensures forall i :: 0 <= i < |paths| ==>
            paths[i] != [] && HitsCountKept(d, filter, process, a.tree.nodes[i].hits, paths[i])
  {
    hide HitsCountKept, HitsAre, D.AreStreams, Z.AllEvents, Run;
    var streams :| D.AreStreams(d, filter, process, d.sources, streams) && a == Run(Z.AllEvents(streams));
    paths := RunCountsNames(Z.AllEvents(streams));
    HitsAreKept(d, filter, process, streams, a.tree.root.hits, []);
    forall i | 0 <= i < |paths|
      ensures paths[i] != [] && HitsCountKept(d, filter, process, a.tree.nodes[i].hits, paths[i])
    {
      assert CountsPath(a, paths[i], Z.AllEvents(streams), i);
      HitsAreKept(d, filter, process, streams, a.tree.nodes[i].hits, paths[i]);
    }
  }
}
