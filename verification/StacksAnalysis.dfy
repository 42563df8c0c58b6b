/** Stack analysis: names are interned, the call tree and the function table count every sample. */
module StacksAnalysis {

  import opened Hits
  import CallTree
  import FunctionFlow

  datatype StackFrame = StackFrame(moduleName: string, symbolName: string)

  /** `frames` runs from the outermost function inwards. */
  datatype Sample = WithStack(frames: seq<StackFrame>) | WithFrame(frame: StackFrame) | Bare

  datatype Event = Event(source: nat, sample: Sample)

  datatype FunctionName = FunctionName(moduleId: nat, name: string)

  /** Names get their positions as ids; the maps find the ids again. */
  datatype Names = Names(modules: seq<string>, modulesByName: map<string, nat>,
                         functions: seq<FunctionName>, functionsByName: map<FunctionName, nat>)

  const NO_NAMES := Names([], map[], [], map[])

  // ----- Interning ---------------------------------------------------------------------

  ghost predicate Indexed<K>(items: seq<K>, index: map<K, nat>) {
    && (forall i :: 0 <= i < |items| ==> items[i] in index && index[items[i]] == i)
    && (forall k :: k in index ==> index[k] < |items| && items[index[k]] == k)
  }

  function WithItem<K(==)>(items: seq<K>, k: K, index: map<K, nat>): seq<K> {
    if k in index then items else items + [k]
  }

  function WithIndex<K(==)>(items: seq<K>, k: K, index: map<K, nat>): map<K, nat> {
    if k in index then index else index[k := |items|]
  }

  lemma {:induction false} WithItemIndexed<K>(items: seq<K>, k: K, index: map<K, nat>)
    requires Indexed(items, index)
    ensures Indexed(WithItem(items, k, index), WithIndex(items, k, index))
    ensures k in WithIndex(items, k, index) && WithIndex(items, k, index)[k] <= |items|
  {
  }

  ghost predicate WellNamed(n: Names) {
    && Indexed(n.modules, n.modulesByName) && Indexed(n.functions, n.functionsByName)
    && forall i :: 0 <= i < |n.functions| ==> n.functions[i].moduleId < |n.modules|
  }

  function InternModule(n: Names, name: string): (r: (Names, nat)) {
    var index := WithIndex(n.modules, name, n.modulesByName);
    (n.(modules := WithItem(n.modules, name, n.modulesByName), modulesByName := index), index[name])
  }

  function InternFunction(n: Names, key: FunctionName): (r: (Names, nat)) {
    var index := WithIndex(n.functions, key, n.functionsByName);
    (n.(functions := WithItem(n.functions, key, n.functionsByName), functionsByName := index), index[key])
  }

  function Intern(n: Names, frame: StackFrame): (r: (Names, nat)) {
    var (n1, m) := InternModule(n, frame.moduleName);
    InternFunction(n1, FunctionName(m, frame.symbolName))
  }

  function InternAll(n: Names, frames: seq<StackFrame>): (r: (Names, seq<nat>))
    decreases |frames|
  {
    if frames == [] then (n, [])
    else
      var (n1, id) := Intern(n, frames[0]);
      var (n2, ids) := InternAll(n1, frames[1..]);
      (n2, [id] + ids)
  }

  predicate IsNamed(n: Names, f: nat) {
    f < |n.functions| && n.functions[f].moduleId < |n.modules|
  }

  function FrameOf(n: Names, f: nat): StackFrame
    requires IsNamed(n, f)
  {
    StackFrame(n.modules[n.functions[f].moduleId], n.functions[f].name)
  }

  predicate AllNamed(n: Names, ids: seq<nat>) {
    forall i :: 0 <= i < |ids| ==> IsNamed(n, ids[i])
  }

  function FramesOf(n: Names, ids: seq<nat>): (r: seq<StackFrame>)
    requires AllNamed(n, ids)
    ensures |r| == |ids| && forall i :: 0 <= i < |ids| ==> r[i] == FrameOf(n, ids[i])
  {
    seq(|ids|, i requires 0 <= i < |ids| => FrameOf(n, ids[i]))
  }

  ghost predicate Extends(n: Names, n1: Names) {
    n.modules <= n1.modules && n.functions <= n1.functions
  }

  /** Interning keeps what was named, and the id it gives stands for the frame. */
  lemma {:induction false} InternNames(n: Names, frame: StackFrame, n1: Names, id: nat)
    requires WellNamed(n) && (n1, id) == Intern(n, frame)
    ensures WellNamed(n1) && Extends(n, n1) && IsNamed(n1, id) && FrameOf(n1, id) == frame
    ensures id <= |n.functions| && |n1.functions| == if id == |n.functions| then id + 1 else |n.functions|
  {
    var (n0, m) := InternModule(n, frame.moduleName);
    WithItemIndexed(n.modules, frame.moduleName, n.modulesByName);
    WithItemIndexed(n0.functions, FunctionName(m, frame.symbolName), n0.functionsByName);
  }

  /** Different ids stand for different frames. */
  lemma {:induction false} NamingIsInjective(n: Names, f: nat, g: nat)
    requires WellNamed(n) && f < |n.functions| && g < |n.functions| && FrameOf(n, f) == FrameOf(n, g)
    ensures f == g
  {
    assert n.modulesByName[n.modules[n.functions[f].moduleId]] == n.functions[f].moduleId;
    assert n.modulesByName[n.modules[n.functions[g].moduleId]] == n.functions[g].moduleId;
    assert n.functions[f] == n.functions[g];
    assert n.functionsByName[n.functions[f]] == f;
  }

  /** Ids keep their meaning. */
  lemma {:induction false} NamesLast(n: Names, n1: Names, ids: seq<nat>)
    requires Extends(n, n1) && AllNamed(n, ids)
    ensures AllNamed(n1, ids) && FramesOf(n1, ids) == FramesOf(n, ids)
  {
  }

  lemma {:induction false} OneMoreNamed(n: Names, id: nat, rest: seq<nat>, frames: seq<StackFrame>)
    requires IsNamed(n, id) && AllNamed(n, rest) && frames != [] && FrameOf(n, id) == frames[0]
    requires FramesOf(n, rest) == frames[1..]
    ensures AllNamed(n, [id] + rest) && FramesOf(n, [id] + rest) == frames
  {
    assert frames == [frames[0]] + frames[1..];
    assert FramesOf(n, [id] + rest) == [FrameOf(n, id)] + FramesOf(n, rest);
  }

  lemma {:induction false} InternAllInOrder(n: Names, frames: seq<StackFrame>)
    requires WellNamed(n)
    ensures FunctionFlow.InOrder(|n.functions|, InternAll(n, frames).1)
    decreases |frames|
  {
    if frames != [] {
      var (n0, id) := Intern(n, frames[0]);
      InternNames(n, frames[0], n0, id);
      InternAllInOrder(n0, frames[1..]);
      assert ([id] + InternAll(n0, frames[1..]).1)[1..] == InternAll(n0, frames[1..]).1;
    }
  }

  lemma {:induction false} NameLasts(n: Names, n1: Names, f: nat)
    requires Extends(n, n1) && IsNamed(n, f)
    ensures IsNamed(n1, f) && FrameOf(n1, f) == FrameOf(n, f)
  {
  }

  lemma {:induction false} InternAllNames(n: Names, frames: seq<StackFrame>, n1: Names, ids: seq<nat>)
    requires WellNamed(n) && (n1, ids) == InternAll(n, frames)
    ensures WellNamed(n1) && Extends(n, n1) && AllNamed(n1, ids) && FramesOf(n1, ids) == frames
    decreases |frames|
  {
    if frames != [] {
      var (n0, id) := Intern(n, frames[0]);
      InternNames(n, frames[0], n0, id);
      var (n2, rest) := InternAll(n0, frames[1..]);
      InternAllNames(n0, frames[1..], n2, rest);
      NameLasts(n0, n1, id);
      OneMoreNamed(n1, id, rest, frames);
    }
  }

  // ----- The analysis, one sample after the other --------------------------------------

  datatype Analysis = Analysis(names: Names, tree: CallTree.Tree, table: FunctionFlow.Table)

  const EMPTY_ANALYSIS := Analysis(NO_NAMES, CallTree.EMPTY_TREE, FunctionFlow.EMPTY_TABLE)

  ghost predicate Sound(a: Analysis) {
    WellNamed(a.names) && CallTree.Closed(a.tree) && |a.table.functions| == |a.names.functions|
  }

  /** Where inside a stack the walk stands: the node reached and the function it stands for. */
  datatype Position = Position(place: CallTree.Place, caller: FunctionFlow.Caller)

  const START := Position(CallTree.Root, FunctionFlow.Root)

  ghost predicate Inside(a: Analysis, at: Position) {
    Sound(a) && CallTree.IsPlace(a.tree, at.place) && FunctionFlow.IsCaller(a.table, at.caller)
  }

  /** A sample with a stack enters at the root. */
  function Enter(a: Analysis, source: nat): (r: Analysis)
    requires Sound(a)
    ensures Inside(r, START)
  {
    Analysis(a.names, CallTree.CountTotal(a.tree, CallTree.Root, source), FunctionFlow.CountRootTotal(a.table, source))
  }

  function AddFrame(a: Analysis, at: Position, source: nat, frame: StackFrame): (r: (Analysis, Position))
    requires Inside(a, at)
    ensures Inside(r.0, r.1)
  {
    var (n1, f) := Intern(a.names, frame);
    InternNames(a.names, frame, n1, f);
    var table := FunctionFlow.Known(a.table, f);
    var (tree, node) := CallTree.Descend(a.tree, at.place, f);
    var a1 := Analysis(n1, CallTree.CountTotal(tree, CallTree.At(node), source),
                       FunctionFlow.CountCall(table, at.caller, f, source));
    (a1, Position(CallTree.At(node), FunctionFlow.Function(f)))
  }

  /** The last frame is the one the sample hit. */
  function Leave(a: Analysis, at: Position, source: nat): (r: Analysis)
    requires Inside(a, at)
    ensures Sound(r)
  {
    var table := FunctionFlow.CountEnd(a.table, at.caller, source);
    Analysis(a.names, CallTree.CountSelf(a.tree, at.place, source), table)
  }

  function AddFrames(a: Analysis, at: Position, source: nat, frames: seq<StackFrame>): (r: Analysis)
    requires Inside(a, at)
    ensures Sound(r)
    decreases |frames|
  {
    if frames == [] then Leave(a, at, source)
    else
      var (a1, at1) := AddFrame(a, at, source, frames[0]);
      AddFrames(a1, at1, source, frames[1..])
  }

  function AddBareFrame(a: Analysis, source: nat, frame: StackFrame): (r: Analysis)
    requires Sound(a)
    ensures Sound(r)
  {
    var (n1, f) := Intern(a.names, frame);
    InternNames(a.names, frame, n1, f);
    Analysis(n1, a.tree, FunctionFlow.CountFrame(FunctionFlow.Known(a.table, f), f, source))
  }

  function AddSample(a: Analysis, e: Event): (r: Analysis)
    requires Sound(a)
    ensures Sound(r)
  {
    match e.sample
    case WithStack(frames) => AddFrames(Enter(a, e.source), START, e.source, frames)
    case WithFrame(frame) => AddBareFrame(a, e.source, frame)
    case Bare => a
  }

  function Run(events: seq<Event>): (r: Analysis)
    ensures Sound(r)
  {
    if events == [] then EMPTY_ANALYSIS else AddSample(Run(events[..|events| - 1]), events[|events| - 1])
  }

  // ----- The analysis is interning, then the tree and the table on ids ------------------

  /** Interleaving the naming with the counting changes nothing. */
  lemma {:induction false} AddFramesSplits(a: Analysis, at: Position, source: nat, frames: seq<StackFrame>, n1: Names,
                                           ids: seq<nat>)
    requires Inside(a, at) && (n1, ids) == InternAll(a.names, frames)
    ensures FunctionFlow.InOrder(|a.table.functions|, ids)
    ensures AddFrames(a, at, source, frames)
         == Analysis(n1, CallTree.AddFrom(a.tree, at.place, source, ids),
             FunctionFlow.CountFrom(a.table, at.caller, source, ids))
    decreases |frames|
  {
    InternAllInOrder(a.names, frames);
    if frames != [] {
      var (n0, id) := Intern(a.names, frames[0]);
      InternNames(a.names, frames[0], n0, id);
      var (n2, rest) := InternAll(n0, frames[1..]);
      assert ids == [id] + rest && ids[1..] == rest;
      var (a1, at1) := AddFrame(a, at, source, frames[0]);
      AddFramesSplits(a1, at1, source, frames[1..], n2, rest);
    }
  }

  /** The stacks of the samples, with the ids given when they came. */
  function StackLog(events: seq<Event>): seq<CallTree.Stack> {
    if events == [] then []
    else
      var before := events[..|events| - 1];
      var last := events[|events| - 1];
      match last.sample
      case WithStack(frames) => StackLog(before) + [CallTree.Stack(last.source, InternAll(Run(before).names, frames).1)]
      case _ => StackLog(before)
  }

  function CallEvent(a: Analysis, e: Event): seq<FunctionFlow.Event> {
    match e.sample
    case WithStack(frames) => [FunctionFlow.Calls(e.source, InternAll(a.names, frames).1)]
    case WithFrame(frame) => [FunctionFlow.Frame(e.source, Intern(a.names, frame).1)]
    case Bare => []
  }

  function CallLog(events: seq<Event>): seq<FunctionFlow.Event> {
    if events == [] then []
    else CallLog(events[..|events| - 1]) + CallEvent(Run(events[..|events| - 1]), events[|events| - 1])
  }

  lemma {:induction false} AppendedStack(log: seq<CallTree.Stack>, last: CallTree.Stack)
    ensures CallTree.AddAll(CallTree.EMPTY_TREE, log + [last])
         == CallTree.AddStack(CallTree.AddAll(CallTree.EMPTY_TREE, log), last.source, last.ids)
  {
    assert (log + [last])[..|log|] == log;
  }

  /** For every list of samples, the tree is the prefix tree of their stacks. */
  lemma {:induction false} RunBuildsTree(events: seq<Event>)
    ensures Run(events).tree == CallTree.AddAll(CallTree.EMPTY_TREE, StackLog(events))
  {
    if events != [] {
      var before := events[..|events| - 1];
      var last := events[|events| - 1];
      RunBuildsTree(before);
      var a := Run(before);
      if last.sample.WithStack? {
        var (n1, ids) := InternAll(a.names, last.sample.frames);
        AddFramesSplits(Enter(a, last.source), START, last.source, last.sample.frames, n1, ids);
        AppendedStack(StackLog(before), CallTree.Stack(last.source, ids));
      }
    }
  }

  /** For every list of samples: callers and callees mirror each other, what flows into a function flows out of it, and
      every counter of the function table is the count of its name in the samples. */
  lemma {:induction false} RunBalances(events: seq<Event>)
    ensures FunctionFlow.Balanced(Run(events).table, CallLog(events), FunctionFlow.Closed)
    ensures FunctionFlow.CountsLog(Run(events).table, CallLog(events))
  {
    if events == [] {
      FunctionFlow.EmptyTableBalances();
      FunctionFlow.EmptyTableCounts();
    } else {
      var before := events[..|events| - 1];
      var last := events[|events| - 1];
      RunBalances(before);
      SampleBalances(Run(before), CallLog(before), last);
    }
  }

  lemma {:induction false} SampleBalances(a: Analysis, log: seq<FunctionFlow.Event>, e: Event)
    requires Sound(a) && FunctionFlow.Balanced(a.table, log, FunctionFlow.Closed)
    requires FunctionFlow.CountsLog(a.table, log)
    ensures FunctionFlow.Balanced(AddSample(a, e).table, log + CallEvent(a, e), FunctionFlow.Closed)
    ensures FunctionFlow.CountsLog(AddSample(a, e).table, log + CallEvent(a, e))
  {
    match e.sample {
      case WithStack(frames) =>
        var (n1, ids) := InternAll(a.names, frames);
        AddFramesSplits(Enter(a, e.source), START, e.source, frames, n1, ids);
        FunctionFlow.CountStackBalances(a.table, log, e.source, ids);
        FunctionFlow.CountStackCounts(a.table, log, e.source, ids);
      case WithFrame(frame) =>
        var (n1, f) := Intern(a.names, frame);
        InternNames(a.names, frame, n1, f);
        FunctionFlow.KnownKeepsBalance(a.table, log, FunctionFlow.Closed, f);
        FunctionFlow.CountFrameBalances(FunctionFlow.Known(a.table, f), log, e.source, f);
        FunctionFlow.CountFrameCounts(a.table, log, e.source, f);
      case Bare =>
        assert log + [] == log;
    }
  }

  // ----- What the counters mean by name ------------------------------------------------

  predicate IsStack(e: Event, source: nat) {
    e.source == source && e.sample.WithStack?
  }

  /** How many stacks of the source start with `path`. */
  function PrefixCount(events: seq<Event>, source: nat, path: seq<StackFrame>): nat {
    if events == [] then 0
    else
      var last := events[|events| - 1];
      PrefixCount(events[..|events| - 1], source, path)
      + if IsStack(last, source) && path <= last.sample.frames then 1 else 0
  }

  function ExactCount(events: seq<Event>, source: nat, path: seq<StackFrame>): nat {
    if events == [] then 0
    else
      var last := events[|events| - 1];
      ExactCount(events[..|events| - 1], source, path)
      + if IsStack(last, source) && path == last.sample.frames then 1 else 0
  }

  lemma {:induction false} AddFramesExtends(a: Analysis, at: Position, source: nat, frames: seq<StackFrame>)
    requires Inside(a, at)
    ensures AddFrames(a, at, source, frames).names == InternAll(a.names, frames).0
    ensures Extends(a.names, AddFrames(a, at, source, frames).names)
  {
    var (n1, ids) := InternAll(a.names, frames);
    AddFramesSplits(a, at, source, frames, n1, ids);
    InternAllNames(a.names, frames, n1, ids);
  }

  lemma {:induction false} AddSampleExtends(a: Analysis, e: Event)
    requires Sound(a)
    ensures Extends(a.names, AddSample(a, e).names)
  {
    match e.sample {
      case WithStack(frames) => AddFramesExtends(Enter(a, e.source), START, e.source, frames);
      case WithFrame(frame) =>
        var (n1, f) := Intern(a.names, frame);
        InternNames(a.names, frame, n1, f);
      case Bare =>
    }
  }

  /** A stack's ids still stand for its frames under all later names. */
  lemma {:induction false} StackIdsMean(events: seq<Event>, n: Names, ids: seq<nat>)
    requires events != [] && events[|events| - 1].sample.WithStack? && Extends(Run(events).names, n)
    requires ids == InternAll(Run(events[..|events| - 1]).names, events[|events| - 1].sample.frames).1
    ensures AllNamed(n, ids) && FramesOf(n, ids) == events[|events| - 1].sample.frames
  {
    var a := Run(events[..|events| - 1]);
    var last := events[|events| - 1];
    AddFramesExtends(Enter(a, last.source), START, last.source, last.sample.frames);
    InternAllNames(a.names, last.sample.frames, Run(events).names, ids);
    NamesLast(Run(events).names, n, ids);
  }

  lemma {:induction false} SamePrefix(n: Names, path: seq<nat>, ids: seq<nat>)
    requires WellNamed(n) && AllNamed(n, path) && AllNamed(n, ids)
    ensures path <= ids <==> FramesOf(n, path) <= FramesOf(n, ids)
    ensures path == ids <==> FramesOf(n, path) == FramesOf(n, ids)
  {
    if FramesOf(n, path) <= FramesOf(n, ids) {
      forall i | 0 <= i < |path| ensures path[i] == ids[i] {
        assert FramesOf(n, path)[i] == FramesOf(n, ids)[i];
        NamingIsInjective(n, path[i], ids[i]);
      }
    }
  }

  /** Counting by ids is counting by names. */
  lemma {:induction false} CountsByName(events: seq<Event>, n: Names, source: nat, path: seq<nat>)
    requires WellNamed(n) && Extends(Run(events).names, n) && AllNamed(n, path)
    ensures CallTree.PrefixCount(StackLog(events), source, path) == PrefixCount(events, source, FramesOf(n, path))
    ensures CallTree.ExactCount(StackLog(events), source, path) == ExactCount(events, source, FramesOf(n, path))
  {
    if events != [] {
      var before := events[..|events| - 1];
      var last := events[|events| - 1];
      AddSampleExtends(Run(before), last);
      CountsByName(before, n, source, path);
      if last.sample.WithStack? {
        var ids := InternAll(Run(before).names, last.sample.frames).1;
        StackIdsMean(events, n, ids);
        SamePrefix(n, path, ids);
        CallTree.CountsWithOneMore(StackLog(before), CallTree.Stack(last.source, ids), source, path);
      }
    }
  }

  lemma {:induction false} StackLogNamed(events: seq<Event>, n: Names)
    requires Extends(Run(events).names, n)
    ensures forall k :: 0 <= k < |StackLog(events)| ==> AllNamed(n, StackLog(events)[k].ids)
  {
    if events != [] {
      var before := events[..|events| - 1];
      var last := events[|events| - 1];
      AddSampleExtends(Run(before), last);
      StackLogNamed(before, n);
      if last.sample.WithStack? {
        StackIdsMean(events, n, InternAll(Run(before).names, last.sample.frames).1);
      }
    }
  }

  /** Every stack of the samples is in the log of ids. */
  lemma {:induction false} StackIsLogged(events: seq<Event>, n: Names, k: nat) returns (m: nat)
    requires Extends(Run(events).names, n) && k < |events| && events[k].sample.WithStack?
    ensures m < |StackLog(events)| && AllNamed(n, StackLog(events)[m].ids)
    ensures FramesOf(n, StackLog(events)[m].ids) == events[k].sample.frames
  {
    var before := events[..|events| - 1];
    var last := events[|events| - 1];
    AddSampleExtends(Run(before), last);
    if k == |events| - 1 {
      StackIdsMean(events, n, InternAll(Run(before).names, last.sample.frames).1);
      m := |StackLog(before)|;
    } else {
      m := StackIsLogged(before, n, k);
    }
  }

  /** `path` is the path of names to node `i`: some stack starts with it, and the node counts the stacks that start with
      it and those that are it. */
  ghost predicate CountsPath(a: Analysis, path: seq<StackFrame>, events: seq<Event>, i: nat)
    requires i < |a.tree.nodes|
  {
    && IsNamed(a.names, a.tree.nodes[i].functionId)
    && path != [] && path[|path| - 1] == FrameOf(a.names, a.tree.nodes[i].functionId)
    && (exists s: nat :: PrefixCount(events, s, path) > 0)
    && HitsAre(a.tree.nodes[i].hits, path, events)
  }

  ghost predicate HitsAre(hits: SourceHits, path: seq<StackFrame>, events: seq<Event>) {
    forall s: nat :: Total(hits, s) == PrefixCount(events, s, path) && Self(hits, s) == ExactCount(events, s, path)
  }

  /** The nodes stand for the non-empty prefixes of the stacks, one for each, and count them. */
  ghost predicate CountsNames(a: Analysis, paths: seq<seq<StackFrame>>, events: seq<Event>) {
    && |paths| == |a.tree.nodes|
    && HitsAre(a.tree.root.hits, [], events)
    && (forall i :: 0 <= i < |paths| ==> CountsPath(a, paths[i], events, i))
    && (forall i, j :: 0 <= i < j < |paths| ==> paths[i] != paths[j])
    && (forall k, j :: 0 <= k < |events| && events[k].sample.WithStack? && 0 < j <= |events[k].sample.frames| ==>
          events[k].sample.frames[..j] in paths)
  }

  lemma {:induction false} RunPathsNamed(events: seq<Event>, ids: seq<seq<nat>>, i: nat)
    requires CallTree.Counts(Run(events).tree, ids, StackLog(events)) && i < |ids|
    ensures AllNamed(Run(events).names, ids[i]) && CallTree.HasHits(Run(events).tree.nodes[i])
  {
    var a := Run(events);
    var known := |a.names.functions|;
    StackLogNamed(events, a.names);
    RunBuildsTree(events);
    forall k, j | 0 <= k < |StackLog(events)| && 0 <= j < |StackLog(events)[k].ids|
      ensures StackLog(events)[k].ids[j] < known
    {
      assert AllNamed(a.names, StackLog(events)[k].ids);
    }
    CallTree.AddAllLive(known, StackLog(events));
    forall j | 0 <= j < |ids[i]| ensures IsNamed(a.names, ids[i][j]) {
      CallTree.PathFunctionsKnown(a.tree, ids, known, ids[i], j);
    }
  }

  function AllFrames(n: Names, ids: seq<seq<nat>>): (r: seq<seq<StackFrame>>)
    requires forall i :: 0 <= i < |ids| ==> AllNamed(n, ids[i])
    ensures |r| == |ids| && forall i :: 0 <= i < |ids| ==> r[i] == FramesOf(n, ids[i])
  {
    seq(|ids|, i requires 0 <= i < |ids| => FramesOf(n, ids[i]))
  }

  lemma {:induction false} PrefixIsListed(events: seq<Event>, ids: seq<seq<nat>>, paths: seq<seq<StackFrame>>, k: nat,
                                          j: nat)
    requires CallTree.Complete(ids, StackLog(events)) && k < |events| && events[k].sample.WithStack?
    requires forall i :: 0 <= i < |ids| ==> AllNamed(Run(events).names, ids[i])
    requires paths == AllFrames(Run(events).names, ids) && 0 < j <= |events[k].sample.frames|
    ensures events[k].sample.frames[..j] in paths
  {
    var n := Run(events).names;
    var m := StackIsLogged(events, n, k);
    var whole := StackLog(events)[m].ids;
    assert whole[..j] in ids;
    var i :| 0 <= i < |ids| && ids[i] == whole[..j];
    assert paths[i] == events[k].sample.frames[..j];
  }

  lemma {:induction false} NodeCountsByName(events: seq<Event>, ids: seq<seq<nat>>, path: seq<StackFrame>, i: nat)
    requires CallTree.Counts(Run(events).tree, ids, StackLog(events)) && i < |ids|
    requires AllNamed(Run(events).names, ids[i])
    requires path == FramesOf(Run(events).names, ids[i])
    ensures CountsPath(Run(events), path, events, i)
  {
    var a := Run(events);
    RunPathsNamed(events, ids, i);
    assert ids[i] != [] && ids[i][|ids[i]| - 1] == a.tree.nodes[i].functionId;
    forall s: nat
      ensures Total(a.tree.nodes[i].hits, s) == PrefixCount(events, s, path) &&
              Self(a.tree.nodes[i].hits, s) == ExactCount(events, s, path)
    {
      CountsByName(events, a.names, s, ids[i]);
    }
    var s: nat :| Total(a.tree.nodes[i].hits, s) > 0;
  }

  lemma {:induction false} RootCountsByName(events: seq<Event>, ids: seq<seq<nat>>)
    requires CallTree.Counts(Run(events).tree, ids, StackLog(events))
    ensures HitsAre(Run(events).tree.root.hits, [], events)
  {
    var a := Run(events);
    forall s: nat
      ensures Total(a.tree.root.hits, s) == PrefixCount(events, s, []) &&
              Self(a.tree.root.hits, s) == ExactCount(events, s, [])
    {
      CountsByName(events, a.names, s, []);
      assert FramesOf(a.names, []) == [];
    }
  }

  /** For every list of samples, the tree counts prefixes of the stacks by name. */
  lemma {:induction false} RunCountsNames(events: seq<Event>) returns (paths: seq<seq<StackFrame>>)
    ensures CountsNames(Run(events), paths, events)
  {
    var a := Run(events);
    RunBuildsTree(events);
    var ids := CallTree.TreeCountsPrefixes(StackLog(events));
    RootCountsByName(events, ids);
    forall i | 0 <= i < |ids| ensures AllNamed(a.names, ids[i]) { RunPathsNamed(events, ids, i); }
    paths := AllFrames(a.names, ids);
    forall i | 0 <= i < |paths|
      ensures CountsPath(a, paths[i], events, i)
    {
      NodeCountsByName(events, ids, paths[i], i);
    }
    forall i, j | 0 <= i < j < |paths| ensures paths[i] != paths[j] { SamePrefix(a.names, ids[i], ids[j]); }
    forall k, j | 0 <= k < |events| && events[k].sample.WithStack? && 0 < j <= |events[k].sample.frames|
      ensures events[k].sample.frames[..j] in paths
    {
      PrefixIsListed(events, ids, paths, k, j);
    }
  }
}
