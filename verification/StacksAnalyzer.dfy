/** The analysis as the program runs it: one object whose tables grow sample by sample. */
module StacksAnalyzer {

  import opened Wrappers
  import opened Hits
  import opened StacksAnalysis
  import CallTree
  import FunctionFlow

  /** The samples of one source, in the order in which the provider hands them out. */
  datatype SourceSamples = SourceSamples(source: nat, samples: seq<Sample>)

  function EventsOf(source: nat, samples: seq<Sample>): seq<Event> {
    seq(|samples|, i requires 0 <= i < |samples| => Event(source, samples[i]))
  }

  function AllEvents(sources: seq<SourceSamples>): seq<Event> {
    if sources == [] then []
    else AllEvents(sources[..|sources| - 1]) + EventsOf(sources[|sources| - 1].source, sources[|sources| - 1].samples)
  }

  lemma {:induction false} RunAppended(events: seq<Event>, e: Event)
    ensures Run(events + [e]) == AddSample(Run(events), e)
  {
    assert (events + [e])[..|events|] == events;
  }

  lemma {:induction false} AllEventsMonotone(sources: seq<SourceSamples>, i: nat)
    requires i <= |sources|
    ensures AllEvents(sources[..i]) <= AllEvents(sources)
    decreases |sources|
  {
    if i < |sources| {
      AllEventsMonotone(sources[..|sources| - 1], i);
      assert sources[..|sources| - 1][..i] == sources[..i];
    } else {
      assert sources[..i] == sources;
    }
  }

  lemma {:induction false} OneEventMore(before: seq<Event>, events: seq<Event>, j: nat)
    requires j < |events|
    ensures before + events[..j] + [events[j]] == before + events[..j + 1]
  {
  }

  lemma {:induction false} SourceAtItsPlace(sources: seq<SourceSamples>, i: nat, j: nat)
    requires i < |sources| && j <= |sources[i].samples|
    ensures var events := EventsOf(sources[i].source, sources[i].samples);
            var all := AllEvents(sources);
            && AllEvents(sources[..i + 1]) == AllEvents(sources[..i]) + events
            && |AllEvents(sources[..i])| + |events| <= |all|
            && AllEvents(sources[..i]) + events[..j] == all[..|AllEvents(sources[..i])| + j]
  {
    assert sources[..i + 1][..i] == sources[..i];
    AllEventsMonotone(sources, i + 1);
  }

  /** The samples counted: all of them, or those before the answer that cancelled. */
  function SeenOf(sources: seq<SourceSamples>, cancelled: bool, asks: nat): seq<Event>
    requires cancelled ==> asks < |AllEvents(sources)|
  {
    if cancelled then AllEvents(sources)[..asks] else AllEvents(sources)
  }

  /** After `i` sources: all their samples were counted, or the analysis was cancelled at its place. */
  ghost predicate Progress(sources: seq<SourceSamples>, i: nat, seen: seq<Event>, cancelled: bool, limit: nat) {
    && i <= |sources|
    && (cancelled ==> limit < |AllEvents(sources)| && seen == AllEvents(sources)[..limit])
    && (!cancelled ==> |seen| <= limit && seen == AllEvents(sources[..i]))
  }

  lemma {:induction false} NothingSeen(sources: seq<SourceSamples>, limit: nat)
    ensures Progress(sources, 0, [], false, limit) && Run([]) == EMPTY_ANALYSIS
  {
  }

  lemma {:induction false} OneSourceMore(sources: seq<SourceSamples>, i: nat, seen: seq<Event>, cancelled: bool,
                                         limit: nat, n: nat)
    requires i < |sources| && Progress(sources, i, seen, false, limit)
    requires cancelled <==> limit < |seen| + |sources[i].samples|
    requires n == if cancelled then limit - |seen| else |sources[i].samples|
    ensures Progress(sources, i + 1, seen + EventsOf(sources[i].source, sources[i].samples)[..n], cancelled, limit)
  {
    SourceAtItsPlace(sources, i, n);
  }

  lemma {:induction false} AllSourcesSeen(sources: seq<SourceSamples>, i: nat, seen: seq<Event>, cancelled: bool,
                                          limit: nat)
    requires Progress(sources, i, seen, cancelled, limit) && (!cancelled ==> i == |sources|)
    ensures cancelled <==> limit < |AllEvents(sources)|
    ensures seen == SeenOf(sources, cancelled, limit)
  {
    assert sources[..|sources|] == sources;
  }

  class StacksAnalyzer {
    var modules: seq<string>
    var modulesByName: map<string, nat>
    var functions: seq<FunctionName>
    var functionsByName: map<FunctionName, nat>
    var functionRoot: FunctionFlow.Counters
    var counters: seq<FunctionFlow.Counters>
    var callTreeRoot: CallTree.Node
    var callTreeNodes: seq<CallTree.Node>

    function Current(): Analysis
      reads this
    {
      Analysis(Names(modules, modulesByName, functions, functionsByName),
               CallTree.Tree(callTreeRoot, callTreeNodes),
               FunctionFlow.Table(functionRoot, counters))
    }

    constructor ()
      ensures Current() == EMPTY_ANALYSIS
    {
      modules, modulesByName, functions, functionsByName := [], map[], [], map[];
      functionRoot, counters := FunctionFlow.NO_COUNTERS, [];
      callTreeRoot, callTreeNodes := CallTree.Node(CallTree.ROOT_FUNCTION_ID, [], []), [];
    }

    method GetOrCreateModule(name: string) returns (id: nat)
      modifies this`modules, this`modulesByName
      ensures (Current().names, id) == InternModule(old(Current().names), name)
      ensures Current() == old(Current()).(names := Current().names)
    {
      if name in modulesByName {
        id := modulesByName[name];
      } else {
        id := |modules|;
        modules := modules + [name];
        modulesByName := modulesByName[name := id];
      }
    }

    method GetOrCreateFunction(moduleId: nat, name: string) returns (id: nat)
      requires |functions| == |counters|
      requires Indexed(functions, functionsByName)
      modifies this`functions, this`functionsByName, this`counters
      ensures (Current().names, id) == InternFunction(old(Current().names), FunctionName(moduleId, name))
      ensures id <= |old(counters)| && Current().table == FunctionFlow.Known(old(Current().table), id)
      ensures Current().tree == old(Current().tree)
    {
      var key := FunctionName(moduleId, name);
      if key in functionsByName {
        id := functionsByName[key];
      } else {
        id := |functions|;
        functions := functions + [key];
        counters := counters + [FunctionFlow.NO_COUNTERS];
        functionsByName := functionsByName[key := id];
      }
    }

    method FindChild(children: seq<nat>, f: nat) returns (id: Option<nat>)
      requires CallTree.ChildrenExist(Current().tree, children)
      ensures id == CallTree.FindChild(Current().tree, children, f)
    {
      ghost var t := Current().tree;
      for i := 0 to |children|
        invariant CallTree.ChildrenExist(t, children[i..])
        invariant CallTree.FindChild(t, children, f) == CallTree.FindChild(t, children[i..], f)
      {
        if callTreeNodes[children[i]].functionId == f {
          return Some(children[i]);
        }
        assert children[i..][1..] == children[i + 1..];
      }
      id := None;
    }

    /** The child of the node for the function; appended to the arena if the node has none. */
    method GetOrAppendCallTreeChild(place: CallTree.Place, f: nat) returns (id: nat)
      requires CallTree.Closed(Current().tree) && CallTree.IsPlace(Current().tree, place)
      modifies this`callTreeRoot, this`callTreeNodes
      ensures (Current().tree, id) == CallTree.Descend(old(Current().tree), place, f)
      ensures Current() == old(Current()).(tree := Current().tree)
    {
      var node := CallTree.NodeAt(Current().tree, place);
      assert CallTree.ChildrenExist(Current().tree, node.children);
      var child := FindChild(node.children, f);
      if child.Some? { return child.value; }
      id := |callTreeNodes|;
      var parent := node.(children := node.children + [id]);
      match place {
        case Root => callTreeRoot := parent;
        case At(p) => callTreeNodes := callTreeNodes[p := parent];
      }
      callTreeNodes := callTreeNodes + [CallTree.Node(f, [], [])];
    }

    method CountCall(p: FunctionFlow.Caller, f: nat, source: nat)
      requires FunctionFlow.IsCaller(Current().table, p) && f < |counters|
      modifies this`functionRoot, this`counters
      ensures Current() == old(Current()).(table := FunctionFlow.CountCall(old(Current().table), p, f, source))
    {
      counters := counters[f := counters[f].(hits := AddTotal(counters[f].hits, source))];
      match p {
        case Root =>
          functionRoot := functionRoot.(callees := FunctionFlow.Bump(functionRoot.callees, f, source));
        case Function(g) =>
          counters := counters[g := counters[g].(callees := FunctionFlow.Bump(counters[g].callees, f, source))];
      }
      counters := counters[f := counters[f].(callers := FunctionFlow.Bump(counters[f].callers, p, source))];
    }

    /** One frame of a stack: its names, its node and its counters. */
    method VisitFrame(at: Position, source: nat, frame: StackFrame) returns (at1: Position)
      requires Inside(Current(), at)
      modifies this
      ensures (Current(), at1) == AddFrame(old(Current()), at, source, frame)
    {
      ghost var names := Current().names;
      var moduleId := GetOrCreateModule(frame.moduleName);
      var f := GetOrCreateFunction(moduleId, frame.symbolName);
      InternNames(names, frame, Current().names, f);
      var node := GetOrAppendCallTreeChild(at.place, f);
      callTreeNodes := callTreeNodes[node := callTreeNodes[node].(hits := AddTotal(callTreeNodes[node].hits, source))];
      CountCall(at.caller, f, source);
      at1 := Position(CallTree.At(node), FunctionFlow.Function(f));
    }

    /** The function and the node where the stack ends get the self hits; without frames these are the roots. */
    method EndStack(at: Position, source: nat)
      requires Inside(Current(), at)
      modifies this
      ensures Current() == Leave(old(Current()), at, source)
    {
      match at.place {
        case Root => callTreeRoot := callTreeRoot.(hits := AddSelf(callTreeRoot.hits, source));
        case At(id) => callTreeNodes :=
            callTreeNodes[id := callTreeNodes[id].(hits := AddSelf(callTreeNodes[id].hits, source))];
      }
      match at.caller {
        case Root => functionRoot := functionRoot.(hits := AddSelf(functionRoot.hits, source));
        case Function(f) => counters := counters[f := counters[f].(hits := AddSelf(counters[f].hits, source))];
      }
    }

    method VisitStack(source: nat, frames: seq<StackFrame>)
      requires Sound(Current())
      modifies this
      ensures Current() == AddSample(old(Current()), Event(source, WithStack(frames)))
    {
      callTreeRoot := callTreeRoot.(hits := AddTotal(callTreeRoot.hits, source));
      functionRoot := functionRoot.(hits := AddTotal(functionRoot.hits, source));
      var at := START;
      ghost var start := Current();
      assert frames[0..] == frames;
      for i := 0 to |frames|
        invariant Inside(start, START) && Inside(Current(), at)
        invariant AddFrames(start, START, source, frames) == AddFrames(Current(), at, source, frames[i..])
      {
        assert frames[i..] != [] && frames[i..][0] == frames[i] && frames[i..][1..] == frames[i + 1..];
        at := VisitFrame(at, source, frames[i]);
      }
      EndStack(at, source);
    }

    /** A sample that has no stack but a frame. */
    method VisitBareFrame(source: nat, frame: StackFrame)
      requires Sound(Current())
      modifies this
      ensures Current() == AddSample(old(Current()), Event(source, WithFrame(frame)))
    {
      ghost var names := Current().names;
      var moduleId := GetOrCreateModule(frame.moduleName);
      var f := GetOrCreateFunction(moduleId, frame.symbolName);
      InternNames(names, frame, Current().names, f);
      counters := counters[f := counters[f].(hits := AddSelf(AddTotal(counters[f].hits, source), source))];
    }

    method VisitSample(e: Event)
      requires Sound(Current())
      modifies this
      ensures Current() == AddSample(old(Current()), e)
    {
      match e.sample {
        case WithStack(frames) => VisitStack(e.source, frames);
        case WithFrame(frame) => VisitBareFrame(e.source, frame);
        case Bare =>
      }
    }

    /** Visits the samples of all sources. The token is asked before every sample; its answer number `asksBeforeCancel`
        and all later ones are that the analysis is cancelled. What was counted is a prefix of the samples. */
    method AnalyzeStacks(sources: seq<SourceSamples>, asksBeforeCancel: nat) returns (cancelled: bool)
      requires Current() == EMPTY_ANALYSIS
      modifies this
      ensures cancelled <==> asksBeforeCancel < |AllEvents(sources)|
      ensures Current() == Run(SeenOf(sources, cancelled, asksBeforeCancel))
    {
      NothingSeen(sources, asksBeforeCancel);
      hide Run, AddSample, AllEvents;
      cancelled := false;
      var asks, i := 0, 0;
      ghost var seen: seq<Event> := [];
      while i < |sources| && !cancelled
        invariant Current() == Run(seen) && asks == |seen| && Progress(sources, i, seen, cancelled, asksBeforeCancel)
        decreases |sources| - i
      {
        ghost var before := seen;
        cancelled, asks := VisitSource(sources[i].source, sources[i].samples, before, asks, asksBeforeCancel);
        seen := before + EventsOf(sources[i].source, sources[i].samples)[..asks - |before|];
        OneSourceMore(sources, i, before, cancelled, asksBeforeCancel, asks - |before|);
        i := i + 1;
      }
      AllSourcesSeen(sources, i, seen, cancelled, asksBeforeCancel);
    }

    method VisitSource(source: nat, samples: seq<Sample>, ghost before: seq<Event>, asked: nat, asksBeforeCancel: nat)
      returns (cancelled: bool, asks: nat)
      requires |before| == asked <= asksBeforeCancel && Current() == Run(before)
      modifies this
      ensures asked <= asks <= asked + |samples|
      ensures cancelled <==> asksBeforeCancel < asked + |samples|
      ensures asks == if cancelled then asksBeforeCancel else asked + |samples|
      ensures Current() == Run(before + EventsOf(source, samples)[..asks - asked])
    {
      hide Run, AddSample, AllEvents;
      asks := asked;
      ghost var seen := before;
      assert before + EventsOf(source, samples)[..0] == before;
      for j := 0 to |samples|
        invariant asks == asked + j <= asksBeforeCancel
        invariant seen == before + EventsOf(source, samples)[..j] && Current() == Run(seen)
      {
        if asks == asksBeforeCancel { return true, asks; }
        asks := asks + 1;
        VisitNext(Event(source, samples[j]), seen);
        OneEventMore(before, EventsOf(source, samples), j);
        seen := seen + [Event(source, samples[j])];
      }
      cancelled := false;
    }

    method VisitNext(e: Event, ghost seen: seq<Event>)
      requires Current() == Run(seen)
      modifies this
      ensures Current() == Run(seen + [e])
    {
      VisitSample(e);
      RunAppended(seen, e);
    }
  }
}
