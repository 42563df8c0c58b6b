/** An open document: results are computed once per filter and kept. */
module Storage {

  import opened Wrappers
  import opened Hits
  import opened StacksAnalysis
  import S = Samples
  import M = Merging
  import Z = StacksAnalyzer

  /** The data of a document: its samples, the ids of its sample sources, and the processes that have samples. */
  datatype Data = Data(provider: S.Provider<Sample>, sources: seq<nat>, processes: seq<nat>)

  ghost predicate Usable(d: Data) {
    forall i :: 0 <= i < |d.processes| ==> S.CanAsk(d.provider, d.processes[i])
  }

  // ----- Fresh results -----------------------------------------------------------------

  ghost function CountIn(d: Data, source: nat, filter: S.Filter, processes: seq<nat>): nat
    requires forall i :: 0 <= i < |processes| ==> S.CanAsk(d.provider, processes[i])
  {
    if processes == [] then 0
    else
      assert S.CanAsk(d.provider, processes[|processes| - 1]);
      CountIn(d, source, filter, processes[..|processes| - 1])
         + M.TotalLength(S.Sources(d.provider, source, processes[|processes| - 1], filter))
  }

  ghost function CountsOf(d: Data, filter: S.Filter, sources: seq<nat>): map<nat, nat>
    requires Usable(d)
  {
    map s: nat | s in sources :: CountIn(d, s, filter, d.processes)
  }

  lemma {:induction false} NothingCounted(d: Data, filter: S.Filter)
    requires Usable(d)
    ensures forall none: seq<nat> :: none == [] ==> CountsOf(d, filter, none) == map[]
  {
  }

  lemma {:induction false} OneMoreCount(d: Data, filter: S.Filter, sources: seq<nat>, s: nat)
    requires Usable(d)
    ensures CountsOf(d, filter, sources + [s]) == CountsOf(d, filter, sources)[s := CountIn(d, s, filter, d.processes)]
  {
  }

  /** Per source, the samples that all processes give out under the filter. */
  ghost function FreshCounts(d: Data, filter: S.Filter): map<nat, nat>
    requires Usable(d)
  {
    CountsOf(d, filter, d.sources)
  }

  function Joined<T>(parts: seq<seq<T>>): seq<T> {
    if parts == [] then [] else parts[0] + Joined(parts[1..])
  }

  lemma {:induction false} JoinedLength<T>(parts: seq<seq<T>>)
    requires parts != []
    ensures |Joined(parts)| == |Joined(parts[..|parts| - 1])| + |parts[|parts| - 1]|
  {
    if |parts| > 1 {
      JoinedLength(parts[1..]);
      assert parts[1..][..|parts| - 2] == parts[..|parts| - 1][1..];
    } else {
      assert parts[..0] == [] && parts[1..] == [];
    }
  }

  /** Samples of the source that each of the processes gives out. */
  ghost predicate AreGivenOut(d: Data, source: nat, filter: S.Filter, processes: seq<nat>,
                              outs: seq<seq<M.Timed<Sample>>>, froms: seq<seq<nat>>)
    requires forall i :: 0 <= i < |processes| ==> S.CanAsk(d.provider, processes[i])
  {
    && |outs| == |froms| == |processes|
    && forall i :: 0 <= i < |processes| ==>
         S.CanAsk(d.provider, processes[i])
         && M.IsMerge(S.Sources(d.provider, source, processes[i], filter), outs[i], froms[i])
  }

  lemma {:induction false} CountIsGivenOut(d: Data, source: nat, filter: S.Filter, processes: seq<nat>,
                                           outs: seq<seq<M.Timed<Sample>>>, froms: seq<seq<nat>>)
    requires forall i :: 0 <= i < |processes| ==> S.CanAsk(d.provider, processes[i])
    requires AreGivenOut(d, source, filter, processes, outs, froms)
    ensures CountIn(d, source, filter, processes) == |Joined(outs)|
  {
    hide M.IsMerge, S.Recorded, S.Sources;
    if processes != [] {
      var n := |processes| - 1;
      CountIsGivenOut(d, source, filter, processes[..n], outs[..n], froms[..n]);
      JoinedLength(outs);
      assert S.CanAsk(d.provider, processes[n]);
      M.MergeLength(S.Sources(d.provider, source, processes[n], filter), outs[n], froms[n]);
    }
  }

  /** The count of a source is the number of samples that all processes together give out of it. */
  lemma {:induction false} FreshCountIsGivenOut(d: Data, filter: S.Filter, source: nat,
                                                outs: seq<seq<M.Timed<Sample>>>, froms: seq<seq<nat>>)
    requires Usable(d) && AreGivenOut(d, source, filter, d.processes, outs, froms)
    ensures source in FreshCounts(d, filter) <==> source in d.sources
    ensures source in d.sources ==> FreshCounts(d, filter)[source] == |Joined(outs)|
  {
    CountIsGivenOut(d, source, filter, d.processes, outs, froms);
  }

  function ValuesOf(out: seq<M.Timed<Sample>>): seq<Sample> {
    seq(|out|, i requires 0 <= i < |out| => out[i].value)
  }

  /** The samples of the source, in one of the orders in which they may be given out. */
  ghost predicate IsStream(d: Data, filter: S.Filter, process: nat, s: Z.SourceSamples)
    requires S.CanAsk(d.provider, process)
  {
    exists out: seq<M.Timed<Sample>>, from: seq<nat> ::
      M.IsMerge(S.Sources(d.provider, s.source, process, filter), out, from) && s.samples == ValuesOf(out)
  }

  ghost predicate AreStreams(d: Data, filter: S.Filter, process: nat, sources: seq<nat>, streams: seq<Z.SourceSamples>)
    requires S.CanAsk(d.provider, process)
  {
    && |streams| == |sources|
    && forall i :: 0 <= i < |streams| ==> streams[i].source == sources[i] && IsStream(d, filter, process, streams[i])
  }

  /** The analysis of all samples of the process under the filter. */
  ghost predicate IsFresh(d: Data, filter: S.Filter, process: nat, a: Analysis)
    requires S.CanAsk(d.provider, process)
  {
    exists streams :: AreStreams(d, filter, process, d.sources, streams) && a == Run(Z.AllEvents(streams))
  }

  /** The events that are visited when the answer number `asks` and all later ones are that the analysis is
      cancelled. */
  function Visited(events: seq<Event>, asks: nat): seq<Event> {
    if asks < |events| then events[..asks] else events
  }

  /** How many samples the sources give out for the process. */
  ghost function GivenOut(d: Data, filter: S.Filter, process: nat, sources: seq<nat>): nat
    requires S.CanAsk(d.provider, process)
  {
    if sources == [] then 0
    else GivenOut(d, filter, process, sources[..|sources| - 1])
         + M.TotalLength(S.Sources(d.provider, sources[|sources| - 1], process, filter))
  }

  /** In whatever order they are given out, they are as many. */
  lemma {:induction false} StreamsLength(d: Data, filter: S.Filter, process: nat, sources: seq<nat>,
                                         streams: seq<Z.SourceSamples>)
    requires S.CanAsk(d.provider, process) && AreStreams(d, filter, process, sources, streams)
    ensures |Z.AllEvents(streams)| == GivenOut(d, filter, process, sources)
  {
    if streams != [] {
      var n := |streams| - 1;
      StreamsLength(d, filter, process, sources[..n], streams[..n]);
      assert IsStream(d, filter, process, streams[n]);
      var threads := S.Sources(d.provider, sources[n], process, filter);
      var out, from :| M.IsMerge(threads, out, from) && streams[n].samples == ValuesOf(out);
      M.MergeLength(threads, out, from);
    }
  }

  /** The analysis of what was visited of the streams. */
  ghost predicate IsAnalysisOf(d: Data, filter: S.Filter, process: nat, streams: seq<Z.SourceSamples>, asks: nat,
                               a: Analysis)
    requires S.CanAsk(d.provider, process)
  {
    AreStreams(d, filter, process, d.sources, streams) && a == Run(Visited(Z.AllEvents(streams), asks))
  }

  /** An analysis that is asked no more often than it takes is of all samples. */
  lemma {:induction false} NotCutShortIsFresh(d: Data, filter: S.Filter, process: nat, streams: seq<Z.SourceSamples>,
                                              asks: nat, a: Analysis)
    requires S.CanAsk(d.provider, process) && IsAnalysisOf(d, filter, process, streams, asks, a)
    requires GivenOut(d, filter, process, d.sources) <= asks
    ensures IsFresh(d, filter, process, a)
  {
    StreamsLength(d, filter, process, d.sources, streams);
  }

  // ----- Orders of functions -----------------------------------------------------------

  datatype SortBy = ByName | ByTotal(source: nat) | BySelf(source: nat)

  predicate NameLess(a: string, b: string) {
    b != [] && (a == [] || a[0] < b[0] || (a[0] == b[0] && NameLess(a[1..], b[1..])))
  }

  function NameOf(a: Analysis, f: nat): string
    requires f < |a.names.functions|
  {
    a.names.functions[f].name
  }

  function HitsOf(a: Analysis, f: nat, order: SortBy): nat
    requires f < |a.table.functions|
  {
    match order
    case ByName => 0
    case ByTotal(source) => Total(a.table.functions[f].hits, source)
    case BySelf(source) => Self(a.table.functions[f].hits, source)
  }

  predicate IsFunction(a: Analysis, f: nat) {
    f < |a.names.functions| && f < |a.table.functions|
  }

  /** By the hits, and for equal hits by the name. */
  predicate Less(a: Analysis, order: SortBy, f: nat, g: nat)
    requires IsFunction(a, f) && IsFunction(a, g)
  {
    HitsOf(a, f, order) < HitsOf(a, g, order) ||
        (HitsOf(a, f, order) == HitsOf(a, g, order) && NameLess(NameOf(a, f), NameOf(a, g)))
  }

  lemma {:induction false} NameLessTransitive(a: string, b: string, c: string)
    requires NameLess(a, b) && NameLess(b, c)
    ensures NameLess(a, c)
    decreases |a|
  {
    if a != [] && a[0] == b[0] == c[0] { NameLessTransitive(a[1..], b[1..], c[1..]); }
  }

  lemma {:induction false} LessTransitive(a: Analysis, order: SortBy, f: nat, g: nat, h: nat)
    requires IsFunction(a, f) && IsFunction(a, g) && IsFunction(a, h) && Less(a, order, f, g) && Less(a, order, g, h)
    ensures Less(a, order, f, h)
  {
    if HitsOf(a, f, order) == HitsOf(a, g, order) == HitsOf(a, h, order) {
      NameLessTransitive(NameOf(a, f), NameOf(a, g), NameOf(a, h));
    }
  }

  lemma {:induction false} NameLessIrreflexive(a: string)
    ensures !NameLess(a, a)
    decreases |a|
  {
    if a != [] { NameLessIrreflexive(a[1..]); }
  }

  predicate AreFunctions(a: Analysis, ids: seq<nat>) {
    forall i :: 0 <= i < |ids| ==> IsFunction(a, ids[i])
  }

  /** No function stands behind one that it comes before. */
  ghost predicate Ordered(a: Analysis, order: SortBy, ids: seq<nat>) {
    AreFunctions(a, ids) && forall i, j :: 0 <= i < j < |ids| ==> !Less(a, order, ids[j], ids[i])
  }

  function AllFunctions(n: nat): (r: seq<nat>)
    ensures |r| == n && forall i :: 0 <= i < n ==> r[i] == i
  {
    seq(n, i => i)
  }

  /** All functions of the analysis, each once, in the order asked for. */
  ghost predicate IsSorted(a: Analysis, order: SortBy, ids: seq<nat>) {
    multiset(ids) == multiset(AllFunctions(|a.table.functions|)) && Ordered(a, order, ids)
  }

  /** Two names in alphabetical order: equal, the first a beginning of the second, or with a smaller character where
      they first differ. */
  predicate InOrder(x: string, y: string) {
    x <= y || exists k :: 0 <= k < |x| && k < |y| && x[..k] == y[..k] && x[k] < y[k]
  }

  lemma {:induction false} InOrderWhenNotLess(x: string, y: string)
    requires !NameLess(y, x)
    ensures InOrder(x, y)
    decreases |x|
  {
    if x != [] {
      if x[0] < y[0] {
        assert x[..0] == y[..0];
      } else {
        InOrderWhenNotLess(x[1..], y[1..]);
        if x[1..] <= y[1..] {
          assert x == [x[0]] + x[1..] && y == [y[0]] + y[1..];
        } else {
          var k :| 0 <= k < |x[1..]| && k < |y[1..]| && x[1..][..k] == y[1..][..k] && x[1..][k] < y[1..][k];
          assert x[..k + 1] == [x[0]] + x[1..][..k] && y[..k + 1] == [y[0]] + y[1..][..k];
        }
      }
    }
  }

  /** What a sorted list shows: names rise; hits rise, and for equal hits the names do. */
  lemma {:induction false} SortedRises(a: Analysis, order: SortBy, ids: seq<nat>, i: nat, j: nat)
    requires IsSorted(a, order, ids) && i < j < |ids|
    ensures IsFunction(a, ids[i]) && IsFunction(a, ids[j])
    ensures var f, g := a.table.functions[ids[i]].hits, a.table.functions[ids[j]].hits;
            var namesRise := InOrder(a.names.functions[ids[i]].name, a.names.functions[ids[j]].name);
            match order
            case ByName => namesRise
            case ByTotal(s) => Total(f, s) < Total(g, s) || (Total(f, s) == Total(g, s) && namesRise)
            case BySelf(s) => Self(f, s) < Self(g, s) || (Self(f, s) == Self(g, s) && namesRise)
  {
    assert !Less(a, order, ids[j], ids[i]);
    if !NameLess(NameOf(a, ids[j]), NameOf(a, ids[i])) {
      InOrderWhenNotLess(NameOf(a, ids[i]), NameOf(a, ids[j]));
    }
  }

  predicate IsLowest(a: Analysis, order: SortBy, ids: seq<nat>, k: nat)
    requires AreFunctions(a, ids) && k < |ids|
  {
    forall i :: 0 <= i < |ids| ==> !Less(a, order, ids[i], ids[k])
  }

  lemma {:induction false} LowestExists(a: Analysis, order: SortBy, ids: seq<nat>) returns (k: nat)
    requires AreFunctions(a, ids) && ids != []
    ensures k < |ids| && IsLowest(a, order, ids, k)
  {
    k := 0;
    NameLessIrreflexive(NameOf(a, ids[0]));
    for i := 1 to |ids|
      invariant k < i && forall j :: 0 <= j < i ==> !Less(a, order, ids[j], ids[k])
    {
      if Less(a, order, ids[i], ids[k]) {
        forall j | 0 <= j < i ensures !Less(a, order, ids[j], ids[i]) {
          if Less(a, order, ids[j], ids[i]) { LessTransitive(a, order, ids[j], ids[i], ids[k]); }
        }
        NameLessIrreflexive(NameOf(a, ids[i]));
        k := i;
      }
    }
  }

  lemma {:induction false} LowestComesFirst(a: Analysis, order: SortBy, ids: seq<nat>, k: nat, rest: seq<nat>)
    requires AreFunctions(a, ids) && k < |ids| && IsLowest(a, order, ids, k)
    requires multiset(rest) == multiset(ids[..k] + ids[k + 1..]) && Ordered(a, order, rest)
    ensures multiset([ids[k]] + rest) == multiset(ids) && Ordered(a, order, [ids[k]] + rest)
  {
    var others := ids[..k] + ids[k + 1..];
    assert ids == ids[..k] + [ids[k]] + ids[k + 1..];
    forall i | 0 <= i < |rest| ensures !Less(a, order, rest[i], ids[k]) {
      assert rest[i] in multiset(rest);
      assert rest[i] in others;
      var j :| 0 <= j < |others| && others[j] == rest[i];
      assert others[j] == if j < k then ids[j] else ids[j + 1];
    }
  }

  method SortFunctions(a: Analysis, order: SortBy, ids: seq<nat>) returns (sorted: seq<nat>)
    requires AreFunctions(a, ids)
    ensures multiset(sorted) == multiset(ids) && Ordered(a, order, sorted)
    decreases |ids|
  {
    if ids == [] { return []; }
    ghost var lowest := LowestExists(a, order, ids);
    var k: nat :| k < |ids| && IsLowest(a, order, ids, k);
    var rest := SortFunctions(a, order, ids[..k] + ids[k + 1..]);
    LowestComesFirst(a, order, ids, k, rest);
    sorted := [ids[k]] + rest;
  }

  method SortedFunctions(a: Analysis, order: SortBy) returns (ids: seq<nat>)
    requires Sound(a)
    ensures IsSorted(a, order, ids)
  {
    ids := SortFunctions(a, order, AllFunctions(|a.table.functions|));
  }

  // ----- The document ------------------------------------------------------------------

  datatype Sorted = Sorted(byTotal: Option<seq<nat>>, bySelf: Option<seq<nat>>)

  datatype AnalysisData = AnalysisData(
    analysis: Option<Analysis>,
    byName: Option<seq<nat>>,
    bySamples: map<nat, Sorted>)

  const NO_FILTER := S.Filter(None, None, {}, {})

  function KeptFor(data: AnalysisData, order: SortBy): Option<seq<nat>> {
    match order
    case ByName => data.byName
    case ByTotal(source) => if source in data.bySamples then data.bySamples[source].byTotal else None
    case BySelf(source) => if source in data.bySamples then data.bySamples[source].bySelf else None
  }

  function WithKept(data: AnalysisData, order: SortBy, ids: seq<nat>): (r: AnalysisData)
    ensures r.analysis == data.analysis
    ensures forall other :: KeptFor(r, other) == if other == order then Some(ids) else KeptFor(data, other)
  {
    match order
    case ByName => data.(byName := Some(ids))
    case ByTotal(source) =>
      var known := if source in data.bySamples then data.bySamples[source] else Sorted(None, None);
      data.(bySamples := data.bySamples[source := known.(byTotal := Some(ids))])
    case BySelf(source) =>
      var known := if source in data.bySamples then data.bySamples[source] else Sorted(None, None);
      data.(bySamples := data.bySamples[source := known.(bySelf := Some(ids))])
  }

  /** Every list that was kept is still kept. */
  ghost predicate ListsStay(before: AnalysisData, after: AnalysisData) {
    forall order :: KeptFor(before, order).Some? ==> KeptFor(after, order) == KeptFor(before, order)
  }

  /** Kept orders are orders of the kept analysis. */
  ghost predicate OrdersFit(data: AnalysisData) {
    && (data.analysis.Some? ==> Sound(data.analysis.value))
    && forall order :: KeptFor(data, order).Some? ==>
         data.analysis.Some? && IsSorted(data.analysis.value, order, KeptFor(data, order).value)
  }

  /** Where a kept analysis comes from: the samples taken for it, and after how many answers it would have been
      cancelled. */
  datatype Origin = Origin(streams: seq<Z.SourceSamples>, asks: nat, analysis: Analysis)

  ghost predicate IsOrigin(d: Data, filter: S.Filter, process: nat, o: Origin) {
    S.CanAsk(d.provider, process) && IsAnalysisOf(d, filter, process, o.streams, o.asks, o.analysis)
  }

  /** The kept analysis is the one of that origin, and the kept orders are its orders. */
  ghost predicate Fits(d: Data, filter: S.Filter, process: nat, kept: AnalysisData, o: Origin) {
    OrdersFit(kept) && kept.analysis == Some(o.analysis) && IsOrigin(d, filter, process, o)
  }

  ghost predicate AllFit(d: Data, filter: S.Filter, analyses: map<nat, AnalysisData>, origins: map<nat, Origin>) {
    && origins.Keys == analyses.Keys
    && forall process :: process in analyses ==> Fits(d, filter, process, analyses[process], origins[process])
  }

  lemma {:induction false} AllFitAfter(d: Data, filter: S.Filter, analyses: map<nat, AnalysisData>,
                                       origins: map<nat, Origin>, process: nat, kept: AnalysisData, o: Origin)
    requires AllFit(d, filter, analyses, origins) && Fits(d, filter, process, kept, o)
    ensures AllFit(d, filter, analyses[process := kept], origins[process := o])
  {
    hide Fits;
  }

  lemma {:induction false} FitOf(d: Data, filter: S.Filter, analyses: map<nat, AnalysisData>,
                                 origins: map<nat, Origin>, process: nat)
    requires AllFit(d, filter, analyses, origins) && process in analyses
    ensures process in origins && Fits(d, filter, process, analyses[process], origins[process])
    ensures analyses[process].analysis == Some(origins[process].analysis) && Sound(origins[process].analysis)
    ensures IsOrigin(d, filter, process, origins[process])
  {
  }

  lemma {:induction false} NewAnalysisFits(d: Data, filter: S.Filter, process: nat, o: Origin)
    requires Sound(o.analysis) && IsOrigin(d, filter, process, o)
    ensures Fits(d, filter, process, AnalysisData(Some(o.analysis), None, map[]), o)
  {
    hide IsOrigin;
  }

  lemma {:induction false} NotCutShortOriginIsFresh(d: Data, filter: S.Filter, process: nat, o: Origin)
    requires IsOrigin(d, filter, process, o)
    ensures S.CanAsk(d.provider, process)
    ensures GivenOut(d, filter, process, d.sources) <= o.asks ==> IsFresh(d, filter, process, o.analysis)
  {
    hide IsAnalysisOf, IsFresh, GivenOut;
    if GivenOut(d, filter, process, d.sources) <= o.asks {
      NotCutShortIsFresh(d, filter, process, o.streams, o.asks, o.analysis);
    }
  }

  lemma {:induction false} NewOrderFits(d: Data, filter: S.Filter, process: nat, kept: AnalysisData, o: Origin,
                                        order: SortBy, ids: seq<nat>)
    requires Fits(d, filter, process, kept, o) && IsSorted(o.analysis, order, ids)
    ensures Fits(d, filter, process, WithKept(kept, order, ids), o)
  {
    hide IsSorted, IsOrigin, WithKept;
  }

  lemma {:induction false} NewListStays(kept: AnalysisData, order: SortBy, ids: seq<nat>)
    requires KeptFor(kept, order).None?
    ensures ListsStay(kept, WithKept(kept, order, ids)) && KeptFor(WithKept(kept, order, ids), order) == Some(ids)
  {
  }

  lemma {:induction false} KeptListStays(d: Data, filter: S.Filter, process: nat, kept: AnalysisData, o: Origin,
                                         order: SortBy)
    requires Fits(d, filter, process, kept, o) && KeptFor(kept, order).Some?
    ensures ListsStay(kept, kept) && IsSorted(o.analysis, order, KeptFor(kept, order).value)
  {
    hide IsSorted, IsOrigin;
    KeptOrderIsSorted(kept, order);
  }

  lemma {:induction false} UpdatedTwice<T>(m: map<nat, T>, m1: map<nat, T>, m2: map<nat, T>, k: nat)
    requires k in m1 && m1 == m[k := m1[k]] && k in m2 && m2 == m1[k := m2[k]]
    ensures m2 == m[k := m2[k]]
  {
  }

  class DocumentStorage {
    var data: Option<Data>
    var filter: S.Filter
    var totalSamplesCounts: Option<map<nat, nat>>
    var analysisPerProcess: map<nat, AnalysisData>
    /** Where each kept analysis comes from. */
    ghost var origins: map<nat, Origin>

    constructor ()
      ensures data.None? && filter == NO_FILTER && NothingKept()
    {
      data, filter, totalSamplesCounts, analysisPerProcess := None, NO_FILTER, None, map[];
      origins := map[];
    }

    ghost predicate NothingKept()
      reads this
    {
      totalSamplesCounts.None? && analysisPerProcess == map[] && origins == map[]
    }

    /** What is kept is what the data give. */
    ghost predicate FitsData(d: Data)
      requires Usable(d)
      reads this
    {
      && (totalSamplesCounts.Some? ==> totalSamplesCounts.value == FreshCounts(d, filter))
      && AllFit(d, filter, analysisPerProcess, origins)
    }

    ghost predicate Coherent()
      reads this
    {
      data.Some? && Usable(data.value) && FitsData(data.value)
    }

    /** Reading replaces the data and nothing else. */
    method ReadDocument(d: Data)
      requires Usable(d)
      modifies this`data
      ensures data == Some(d)
      ensures Coherent() <==> old(FitsData(d))
      ensures old(NothingKept()) ==> Coherent()
    {
      data := Some(d);
    }

    method ApplyFilter(f: S.Filter)
      requires Coherent()
      modifies this`filter, this`totalSamplesCounts, this`analysisPerProcess, this`origins
      ensures Coherent() && filter == f
      ensures f != old(filter) ==> NothingKept()
      ensures f == old(filter) ==> unchanged(this)
    {
      if filter == f { return; }
      filter := f;
      totalSamplesCounts := None;
      analysisPerProcess := map[];
      origins := map[];
    }

    method CountSource(source: nat) returns (count: nat)
      requires Coherent()
      ensures count == CountIn(data.value, source, filter, data.value.processes)
    {
      count := 0;
      var d := data.value;
      for i := 0 to |d.processes|
        invariant count == CountIn(d, source, filter, d.processes[..i])
      {
        assert d.processes[..i + 1][..i] == d.processes[..i];
        var n := S.CountProcessSamples(d.provider, source, d.processes[i], filter);
        count := count + n;
      }
      assert d.processes[..|d.processes|] == d.processes;
    }

    method CountSources() returns (counts: map<nat, nat>)
      requires Coherent()
      ensures counts == FreshCounts(data.value, filter)
    {
      hide CountIn, CountsOf;
      counts := map[];
      ghost var d := data.value;
      NothingCounted(d, filter);
      for i := 0 to |data.value.sources|
        invariant counts == CountsOf(d, filter, d.sources[..i])
      {
        var n := CountSource(data.value.sources[i]);
        assert d.sources[..i + 1] == d.sources[..i] + [d.sources[i]];
        OneMoreCount(d, filter, d.sources[..i], d.sources[i]);
        counts := counts[data.value.sources[i] := n];
      }
      assert d.sources[..|d.sources|] == d.sources;
    }

    method GetTotalSamplesCounts() returns (counts: map<nat, nat>)
      requires Coherent()
      modifies this`totalSamplesCounts
      ensures Coherent() && counts == FreshCounts(data.value, filter) && totalSamplesCounts == Some(counts)
    {
      hide FreshCounts, Fits;
      if totalSamplesCounts.Some? { return totalSamplesCounts.value; }
      counts := CountSources();
      totalSamplesCounts := Some(counts);
    }

    /** Takes the samples of all sources and analyzes them. It is cancelled exactly when the answers run out before the
        samples. */
    method Analyze(process: nat, asksBeforeCancel: nat)
      returns (a: Analysis, wasCancelled: bool, ghost streams: seq<Z.SourceSamples>)
      requires Coherent() && S.CanAsk(data.value.provider, process)
      ensures Sound(a) && IsAnalysisOf(data.value, filter, process, streams, asksBeforeCancel, a)
      ensures wasCancelled <==> asksBeforeCancel < GivenOut(data.value, filter, process, data.value.sources)
    {
      var samples := TakeSamples(process);
      streams := samples;
      StreamsLength(data.value, filter, process, data.value.sources, streams);
      hide GivenOut, AreStreams, Run, Z.AllEvents;
      var analyzer := new Z.StacksAnalyzer();
      wasCancelled := analyzer.AnalyzeStacks(samples, asksBeforeCancel);
      a := analyzer.Current();
    }

    method TakeSamples(process: nat) returns (streams: seq<Z.SourceSamples>)
      requires Coherent() && S.CanAsk(data.value.provider, process)
      ensures AreStreams(data.value, filter, process, data.value.sources, streams)
    {
      var d := data.value;
      streams := [];
      for i := 0 to |d.sources|
        invariant AreStreams(d, filter, process, d.sources[..i], streams)
      {
        var out;
        ghost var from;
        out, from := S.ProcessSamples(d.provider, d.sources[i], process, filter);
        var stream := Z.SourceSamples(d.sources[i], ValuesOf(out));
        assert IsStream(d, filter, process, stream);
        assert d.sources[..i + 1] == d.sources[..i] + [d.sources[i]];
        streams := streams + [stream];
      }
      assert d.sources[..|d.sources|] == d.sources;
    }

    /** The analysis of the process: the kept one, else a new one. A cancelled one is kept like any other. */
    method GetProcessAnalysis(process: nat, asksBeforeCancel: nat) returns (a: Analysis)
      requires Coherent() && S.CanAsk(data.value.provider, process)
      modifies this`analysisPerProcess, this`origins
      ensures Coherent() && Sound(a)
      ensures process in analysisPerProcess && analysisPerProcess[process].analysis == Some(a)
      ensures process in origins && origins[process].analysis == a
      ensures IsOrigin(data.value, filter, process, origins[process])
      ensures old(process in origins) ==> analysisPerProcess == old(analysisPerProcess) && origins == old(origins)
      ensures analysisPerProcess == old(analysisPerProcess)[process := analysisPerProcess[process]]
      ensures old(process !in origins) ==>
                origins == old(origins)[process := origins[process]] && origins[process].asks == asksBeforeCancel
      ensures GivenOut(data.value, filter, process, data.value.sources) <= origins[process].asks ==>
                IsFresh(data.value, filter, process, a)
    {
      KeysAgree();
      hide FreshCounts, IsFresh, GivenOut, Usable, Fits, IsOrigin, IsAnalysisOf, AllFit;
      if process in analysisPerProcess {
        FitOf(data.value, filter, analysisPerProcess, origins, process);
        a := analysisPerProcess[process].analysis.value;
      } else {
        var wasCancelled;
        ghost var streams;
        a, wasCancelled, streams := Analyze(process, asksBeforeCancel);
        ghost var o := Origin(streams, asksBeforeCancel, a);
        NewAnalysisFits(data.value, filter, process, o);
        Keep(process, AnalysisData(Some(a), None, map[]), o);
      }
      NotCutShortOriginIsFresh(data.value, filter, process, origins[process]);
    }

    lemma {:induction false} KeysAgree()
      requires Coherent()
      ensures origins.Keys == analysisPerProcess.Keys
    {
    }

    lemma {:induction false} OriginsFit()
      requires Coherent()
      ensures forall process :: process in origins ==> IsOrigin(data.value, filter, process, origins[process])
    {
    }

    method Keep(process: nat, kept: AnalysisData, ghost o: Origin)
      requires Coherent() && Fits(data.value, filter, process, kept, o)
      modifies this`analysisPerProcess, this`origins
      ensures Coherent()
      ensures analysisPerProcess == old(analysisPerProcess)[process := kept]
      ensures origins == old(origins)[process := o]
    {
      hide AllFit, Fits, Usable, FreshCounts;
      AllFitAfter(data.value, filter, analysisPerProcess, origins, process, kept, o);
      analysisPerProcess := analysisPerProcess[process := kept];
      origins := origins[process := o];
    }

    /** The functions of the process in the order asked for; the ids are those of the kept analysis. */
    method GetSortedFunctions(process: nat, order: SortBy, asksBeforeCancel: nat) returns (ids: seq<nat>)
      requires Coherent() && S.CanAsk(data.value.provider, process)
      modifies this`analysisPerProcess, this`origins
      ensures Coherent()
      ensures process in analysisPerProcess && process in origins
      ensures analysisPerProcess[process].analysis == Some(origins[process].analysis)
      ensures IsSorted(origins[process].analysis, order, ids)
      ensures analysisPerProcess == old(analysisPerProcess)[process := analysisPerProcess[process]]
      ensures KeptFor(analysisPerProcess[process], order) == Some(ids)
      ensures old(process in analysisPerProcess) ==>
                ListsStay(old(analysisPerProcess)[process], analysisPerProcess[process])
      ensures IsOrigin(data.value, filter, process, origins[process])
      ensures old(process in origins) ==> origins == old(origins)
      ensures old(process !in origins) ==>
                origins == old(origins)[process := origins[process]] && origins[process].asks == asksBeforeCancel
      ensures GivenOut(data.value, filter, process, data.value.sources) <= origins[process].asks ==>
                IsFresh(data.value, filter, process, origins[process].analysis)
    {
      KeysAgree();
      hide FreshCounts, IsFresh, GivenOut, Usable, IsSorted, IsOrigin, Fits, WithKept, KeptFor, ListsStay, AllFit;
      var analysis := GetProcessAnalysis(process, asksBeforeCancel);
      var kept := analysisPerProcess[process];
      FitOf(data.value, filter, analysisPerProcess, origins, process);
      if KeptFor(kept, order).Some? {
        KeptListStays(data.value, filter, process, kept, origins[process], order);
        return KeptFor(kept, order).value;
      }
      ids := SortedFunctions(analysis, order);
      ghost var with := analysisPerProcess;
      KeepList(process, order, ids);
      UpdatedTwice(old(analysisPerProcess), with, analysisPerProcess, process);
    }

    method KeepList(process: nat, order: SortBy, ids: seq<nat>)
      requires Coherent() && process in analysisPerProcess && process in origins
      requires KeptFor(analysisPerProcess[process], order).None? && IsSorted(origins[process].analysis, order, ids)
      modifies this`analysisPerProcess
      ensures Coherent()
      ensures analysisPerProcess == old(analysisPerProcess)[process := analysisPerProcess[process]]
      ensures analysisPerProcess[process].analysis == old(analysisPerProcess)[process].analysis
      ensures KeptFor(analysisPerProcess[process], order) == Some(ids)
      ensures ListsStay(old(analysisPerProcess)[process], analysisPerProcess[process])
    {
      hide FreshCounts, Usable, IsSorted, IsOrigin, Fits, WithKept, KeptFor, ListsStay, AllFit;
      var kept := analysisPerProcess[process];
      FitOf(data.value, filter, analysisPerProcess, origins, process);
      NewOrderFits(data.value, filter, process, kept, origins[process], order, ids);
      NewListStays(kept, order, ids);
      AllFitAfter(data.value, filter, analysisPerProcess, origins, process, WithKept(kept, order, ids),
          origins[process]);
      assert origins[process := origins[process]] == origins;
      analysisPerProcess := analysisPerProcess[process := WithKept(kept, order, ids)];
    }
  }

  lemma {:induction false} KeptOrderIsSorted(kept: AnalysisData, order: SortBy)
    requires OrdersFit(kept) && KeptFor(kept, order).Some?
    ensures kept.analysis.Some? && IsSorted(kept.analysis.value, order, KeptFor(kept, order).value)
  {
  }

  /** Any data may be read without making what is kept wrong exactly when nothing is kept. */
  lemma {:induction false} AnyDataFitExactlyWhenNothingKept(document: DocumentStorage)
    requires document.origins.Keys == document.analysisPerProcess.Keys
    ensures document.NothingKept() <==> forall d :: Usable(d) ==> document.FitsData(d)
  {
    var none := Data(S.Provider(None, []), [], []);
    var one := Data(S.Provider(None, []), [0], []);
    if forall d :: Usable(d) ==> document.FitsData(d) {
      assert Usable(none) && Usable(one) && document.FitsData(none) && document.FitsData(one);
      assert 0 in FreshCounts(one, document.filter) && 0 !in FreshCounts(none, document.filter);
    }
  }

  /** Reading a document again leaves the results of the first reading in place. */
  method ReadTwice() returns (document: DocumentStorage)
    ensures document.data.Some? && Usable(document.data.value) && !document.Coherent()
  {
    var nothing := S.Provider(None, []);
    document := new DocumentStorage();
    document.ReadDocument(Data(nothing, [0], []));
    var counts := document.GetTotalSamplesCounts();
    assert 0 in counts;
    document.ReadDocument(Data(nothing, [], []));
    assert 0 !in FreshCounts(document.data.value, document.filter);
  }
}
