/** Per-function counters: hits, callers and callees, and how they balance. */
module FunctionFlow {

  import opened Hits

  /** The caller of a stack's first function is the root, which has an id of its own. */
  datatype Caller = Root | Function(id: nat)

  datatype Counters = Counters(hits: SourceHits, callers: map<Caller, SourceHits>, callees: map<nat, SourceHits>)

  datatype Table = Table(root: Counters, functions: seq<Counters>)

  const NO_COUNTERS := Counters([], map[], map[])
  const EMPTY_TABLE := Table(NO_COUNTERS, [])

  predicate IsCaller(t: Table, p: Caller) {
    p.Function? ==> p.id < |t.functions|
  }

  function CountersOf(t: Table, p: Caller): Counters
    requires IsCaller(t, p)
  {
    match p
    case Root => t.root
    case Function(id) => t.functions[id]
  }

  function WithCounters(t: Table, p: Caller, c: Counters): Table
    requires IsCaller(t, p)
  {
    match p
    case Root => t.(root := c)
    case Function(id) => t.(functions := t.functions[id := c])
  }

  function HitsAt<K>(m: map<K, SourceHits>, k: K): SourceHits {
    if k in m then m[k] else []
  }

  function Bump<K>(m: map<K, SourceHits>, k: K, source: nat): map<K, SourceHits> {
    m[k := AddTotal(HitsAt(m, k), source)]
  }

  /** A function met for the first time gets counters of its own. */
  function Known(t: Table, f: nat): (r: Table)
    requires f <= |t.functions|
    ensures |r.functions| == if f == |t.functions| then f + 1 else |t.functions|
  {
    if f == |t.functions| then t.(functions := t.functions + [NO_COUNTERS]) else t
  }

  /** `f` was called by `p`. */
  function CountCall(t: Table, p: Caller, f: nat, source: nat): (r: Table)
    requires IsCaller(t, p) && f < |t.functions|
    ensures |r.functions| == |t.functions|
  {
    var t1 := t.(functions := t.functions[f := t.functions[f].(hits := AddTotal(t.functions[f].hits, source))]);
    var t2 := WithCounters(t1, p, CountersOf(t1, p).(callees := Bump(CountersOf(t1, p).callees, f, source)));
    t2.(functions := t2.functions[f := t2.functions[f].(callers := Bump(t2.functions[f].callers, p, source))])
  }

  function CountEnd(t: Table, p: Caller, source: nat): Table
    requires IsCaller(t, p)
  {
    WithCounters(t, p, CountersOf(t, p).(hits := AddSelf(CountersOf(t, p).hits, source)))
  }

  /** A sample without a stack: its one frame is its own top. */
  function CountFrame(t: Table, f: nat, source: nat): Table
    requires f < |t.functions|
  {
    t.(functions := t.functions[f := t.functions[f].(hits := AddSelf(AddTotal(t.functions[f].hits, source), source))])
  }

  function CountRootTotal(t: Table, source: nat): Table {
    t.(root := t.root.(hits := AddTotal(t.root.hits, source)))
  }

  /** New ids come in the order in which the functions are met: each is known, or the next one. */
  predicate InOrder(known: nat, ids: seq<nat>)
    decreases |ids|
  {
    ids == [] || (ids[0] <= known && InOrder(if ids[0] == known then known + 1 else known, ids[1..]))
  }

  function CountFrom(t: Table, p: Caller, source: nat, ids: seq<nat>): Table
    requires IsCaller(t, p) && InOrder(|t.functions|, ids)
    decreases |ids|
  {
    if ids == [] then CountEnd(t, p, source)
    else
      var t1 := Known(t, ids[0]);
      CountFrom(CountCall(t1, p, ids[0], source), Function(ids[0]), source, ids[1..])
  }

  function CountStack(t: Table, source: nat, ids: seq<nat>): Table
    requires InOrder(|t.functions|, ids)
  {
    CountFrom(CountRootTotal(t, source), Root, source, ids)
  }

  // ----- Sums over a map ---------------------------------------------------------------

  ghost function SumTotals<K>(m: map<K, SourceHits>, source: nat): nat
    decreases |m|
  {
    if m == map[] then 0
    else
      var k :| k in m;
      Total(m[k], source) + SumTotals(m - {k}, source)
  }

  lemma {:induction false} SumTotalsPick<K>(m: map<K, SourceHits>, source: nat, k: K)
    requires k in m
    ensures SumTotals(m, source) == Total(m[k], source) + SumTotals(m - {k}, source)
    decreases |m|
  {
    var e :| e in m && SumTotals(m, source) == Total(m[e], source) + SumTotals(m - {e}, source);
    if e != k {
      SumTotalsPick(m - {e}, source, k);
      SumTotalsPick(m - {k}, source, e);
      assert m - {e} - {k} == m - {k} - {e};
    }
  }

  lemma {:induction false} SumTotalsOfBump<K>(m: map<K, SourceHits>, k: K, source: nat, s: nat)
    ensures SumTotals(Bump(m, k, source), s) == SumTotals(m, s) + if s == source then 1 else 0
  {
    var m1 := Bump(m, k, source);
    SumTotalsPick(m1, s, k);
    if k in m {
      SumTotalsPick(m, s, k);
      assert m1 - {k} == m - {k};
    } else {
      assert m1 - {k} == m;
    }
  }

  // ----- Balance -----------------------------------------------------------------------

  datatype Event = Calls(source: nat, ids: seq<nat>) | Frame(source: nat, id: nat)

  /** How many samples without a stack hit the function. */
  function FrameCount(log: seq<Event>, f: nat, source: nat): nat {
    if log == [] then 0
    else FrameCount(log[..|log| - 1], f, source) + if log[|log| - 1] == Frame(source, f) then 1 else 0
  }

  datatype Open = Closed | Open(at: Caller, source: nat)

  /** What the caller table of `f` says about `p` is what the callee table of `p` says about `f`. */
  ghost predicate Mirrored(t: Table) {
    forall p: Caller, f: nat, s: nat :: IsCaller(t, p) && f < |t.functions| ==>
      Total(HitsAt(t.functions[f].callers, p), s) == Total(HitsAt(CountersOf(t, p).callees, f), s)
  }

  ghost predicate FlowsIn(t: Table, log: seq<Event>, f: nat, s: nat)
    requires f < |t.functions|
  {
    Total(t.functions[f].hits, s) == SumTotals(t.functions[f].callers, s) + FrameCount(log, f, s)
  }

  ghost predicate FlowsOut(t: Table, open: Open, p: Caller, s: nat)
    requires IsCaller(t, p)
  {
    Total(CountersOf(t, p).hits, s)
    == Self(CountersOf(t, p).hits, s) + SumTotals(CountersOf(t, p).callees, s) + if open == Open(p, s) then 1 else 0
  }

  ghost predicate KnownNames(t: Table) {
    && (forall f, p :: 0 <= f < |t.functions| && p in t.functions[f].callers ==> IsCaller(t, p))
    && (forall p, g :: IsCaller(t, p) && g in CountersOf(t, p).callees ==> g < |t.functions|)
  }

  ghost predicate AllFlowIn(t: Table, log: seq<Event>) {
    forall f, s: nat :: 0 <= f < |t.functions| ==> FlowsIn(t, log, f, s)
  }

  ghost predicate AllFlowOut(t: Table, open: Open) {
    forall p: Caller, s: nat :: IsCaller(t, p) ==> FlowsOut(t, open, p, s)
  }

  predicate FramesKnown(log: seq<Event>, known: nat) {
    forall i :: 0 <= i < |log| && log[i].Frame? ==> log[i].id < known
  }

  /** Only known functions occur as callers and callees; what flows into a function flows out of it, except for
      the function in which a stack is being followed. */
  ghost predicate Balanced(t: Table, log: seq<Event>, open: Open) {
    && KnownNames(t) && Mirrored(t) && AllFlowIn(t, log) && AllFlowOut(t, open)
    && (open.Open? ==> IsCaller(t, open.at))
    && FramesKnown(log, |t.functions|)
  }

  lemma {:induction false} FrameCountOfUnknown(log: seq<Event>, f: nat, s: nat)
    requires forall i :: 0 <= i < |log| && log[i].Frame? ==> log[i].id != f
    ensures FrameCount(log, f, s) == 0
  {
    if log != [] { FrameCountOfUnknown(log[..|log| - 1], f, s); }
  }

  /** Only hits differ. */
  ghost predicate SameCalls(t: Table, t1: Table) {
    && |t1.functions| == |t.functions|
    && (forall f :: 0 <= f < |t.functions| ==> t1.functions[f].callers == t.functions[f].callers)
    && (forall p :: IsCaller(t, p) ==> CountersOf(t1, p).callees == CountersOf(t, p).callees)
  }

  lemma {:induction false} SameCallsKeep(t: Table, t1: Table)
    requires SameCalls(t, t1) && KnownNames(t) && Mirrored(t)
    ensures KnownNames(t1) && Mirrored(t1)
  {
    forall f, p | 0 <= f < |t1.functions| && p in t1.functions[f].callers ensures IsCaller(t1, p) {
      assert t1.functions[f].callers == t.functions[f].callers;
      assert IsCaller(t, p);
    }
    forall p, g | IsCaller(t1, p) && g in CountersOf(t1, p).callees ensures g < |t1.functions| {
      assert IsCaller(t, p) && CountersOf(t1, p).callees == CountersOf(t, p).callees;
    }
    forall p: Caller, f: nat, s: nat | IsCaller(t1, p) && f < |t1.functions|
      ensures Total(HitsAt(t1.functions[f].callers, p), s) == Total(HitsAt(CountersOf(t1, p).callees, f), s)
    {
      assert IsCaller(t, p) && t1.functions[f].callers == t.functions[f].callers;
      assert CountersOf(t1, p).callees == CountersOf(t, p).callees;
    }
  }

  lemma {:induction false} NewFunctionFields(t: Table, t1: Table, p: Caller)
    requires t1 == t.(functions := t.functions + [NO_COUNTERS]) && IsCaller(t1, p)
    ensures if p == Function(|t.functions|) then CountersOf(t1, p) == NO_COUNTERS
            else IsCaller(t, p) && CountersOf(t1, p) == CountersOf(t, p)
  {
  }

  lemma {:induction false} NewFunctionNames(t: Table, t1: Table)
    requires t1 == t.(functions := t.functions + [NO_COUNTERS]) && KnownNames(t)
    ensures KnownNames(t1)
  {
    forall f, p | 0 <= f < |t1.functions| && p in t1.functions[f].callers ensures IsCaller(t1, p) {
      NewFunctionFields(t, t1, Function(f));
      assert f < |t.functions| && p in t.functions[f].callers;
      assert IsCaller(t, p);
    }
    forall p, g | IsCaller(t1, p) && g in CountersOf(t1, p).callees ensures g < |t1.functions| {
      NewFunctionFields(t, t1, p);
    }
  }

  lemma {:induction false} NewFunctionMirrored(t: Table, t1: Table)
    requires t1 == t.(functions := t.functions + [NO_COUNTERS]) && KnownNames(t) && Mirrored(t)
    ensures Mirrored(t1)
  {
    var f := |t.functions|;
    forall p: Caller, g: nat, s: nat | IsCaller(t1, p) && g < |t1.functions|
      ensures Total(HitsAt(t1.functions[g].callers, p), s) == Total(HitsAt(CountersOf(t1, p).callees, g), s)
    {
      NewFunctionFields(t, t1, p);
      NewFunctionFields(t, t1, Function(g));
      if g == f {
        assert g !in CountersOf(t1, p).callees;
      } else if p == Function(f) {
        assert !IsCaller(t, p);
        assert p !in t.functions[g].callers;
      } else {
        assert Total(HitsAt(t.functions[g].callers, p), s) == Total(HitsAt(CountersOf(t, p).callees, g), s);
      }
    }
  }

  lemma {:induction false} KnownKeepsBalance(t: Table, log: seq<Event>, open: Open, f: nat)
    requires Balanced(t, log, open) && f <= |t.functions|
    ensures Balanced(Known(t, f), log, open)
  {
    var t1 := Known(t, f);
    if f == |t.functions| {
      NewFunctionNames(t, t1);
      NewFunctionMirrored(t, t1);
      forall g, s: nat | 0 <= g < |t1.functions| ensures FlowsIn(t1, log, g, s) {
        if g == f { FrameCountOfUnknown(log, f, s); } else { assert FlowsIn(t, log, g, s); }
      }
      forall p: Caller, s: nat | IsCaller(t1, p) ensures FlowsOut(t1, open, p, s) {
        NewFunctionFields(t, t1, p);
        if p != Function(f) { assert FlowsOut(t, open, p, s); }
      }
    }
  }

  /** Entering the root opens the balance there. */
  lemma {:induction false} RootOpens(t: Table, log: seq<Event>, source: nat)
    requires Balanced(t, log, Closed)
    ensures Balanced(CountRootTotal(t, source), log, Open(Root, source))
  {
    var t1 := CountRootTotal(t, source);
    SameCallsKeep(t, t1);
    forall f, s: nat | 0 <= f < |t1.functions| ensures FlowsIn(t1, log, f, s) { assert FlowsIn(t, log, f, s); }
    forall p: Caller, s: nat | IsCaller(t1, p)
      ensures FlowsOut(t1, Open(Root, source), p, s)
    {
      assert FlowsOut(t, Closed, p, s);
    }
  }

  /** What a call changes. */
  ghost predicate Called(t: Table, t1: Table, p: Caller, f: nat, source: nat)
    requires f < |t.functions| && IsCaller(t, p)
  {
    && |t1.functions| == |t.functions|
    && (forall g :: 0 <= g < |t.functions| ==>
          t1.functions[g].callers == if g == f then Bump(t.functions[g].callers, p, source) else t.functions[g].callers)
    && (forall q: Caller :: IsCaller(t, q) ==>
          CountersOf(t1, q).callees == if q == p then Bump(CountersOf(t, q).callees, f, source)
              else CountersOf(t, q).callees)
    && (forall q: Caller :: IsCaller(t, q) ==>
          CountersOf(t1, q).hits == if q == Function(f) then AddTotal(CountersOf(t, q).hits, source)
              else CountersOf(t, q).hits)
  }

  lemma {:induction false} CountCallCalls(t: Table, p: Caller, f: nat, source: nat)
    requires IsCaller(t, p) && f < |t.functions|
    ensures Called(t, CountCall(t, p, f, source), p, f, source)
  {
  }

  lemma {:induction false} CallKeepsNames(t: Table, t1: Table, p: Caller, f: nat, source: nat)
    requires IsCaller(t, p) && f < |t.functions| && Called(t, t1, p, f, source) && KnownNames(t)
    ensures KnownNames(t1)
  {
    forall g, q | 0 <= g < |t1.functions| && q in t1.functions[g].callers ensures IsCaller(t1, q) {
      assert q == p || q in t.functions[g].callers;
      assert IsCaller(t, q);
    }
    forall q, g | IsCaller(t1, q) && g in CountersOf(t1, q).callees ensures g < |t1.functions| {
      assert IsCaller(t, q);
      assert g == f || g in CountersOf(t, q).callees;
    }
  }

  lemma {:induction false} CallKeepsMirror(t: Table, t1: Table, p: Caller, f: nat, source: nat)
    requires IsCaller(t, p) && f < |t.functions| && Called(t, t1, p, f, source) && Mirrored(t)
    ensures Mirrored(t1)
  {
    forall q: Caller, g: nat, s: nat | IsCaller(t1, q) && g < |t1.functions|
      ensures Total(HitsAt(t1.functions[g].callers, q), s) == Total(HitsAt(CountersOf(t1, q).callees, g), s)
    {
      assert IsCaller(t, q);
      assert Total(HitsAt(t.functions[g].callers, q), s) == Total(HitsAt(CountersOf(t, q).callees, g), s);
    }
  }

  lemma {:induction false} CallFlowsIn(t: Table, t1: Table, log: seq<Event>, p: Caller, f: nat, source: nat)
    requires IsCaller(t, p) && f < |t.functions| && Called(t, t1, p, f, source) && AllFlowIn(t, log)
    ensures AllFlowIn(t1, log)
  {
    forall g, s: nat | 0 <= g < |t1.functions| ensures FlowsIn(t1, log, g, s) {
      assert IsCaller(t, Function(g)) && FlowsIn(t, log, g, s);
      assert CountersOf(t1, Function(g)).hits == t1.functions[g].hits &&
          CountersOf(t, Function(g)).hits == t.functions[g].hits;
      SumTotalsOfBump(t.functions[g].callers, p, source, s);
    }
  }

  lemma {:induction false} CallFlowsOut(t: Table, t1: Table, p: Caller, f: nat, source: nat)
    requires IsCaller(t, p) && f < |t.functions| && Called(t, t1, p, f, source) && AllFlowOut(t, Open(p, source))
    ensures AllFlowOut(t1, Open(Function(f), source))
  {
    forall q: Caller, s: nat | IsCaller(t1, q) ensures FlowsOut(t1, Open(Function(f), source), q, s) {
      assert IsCaller(t, q) && FlowsOut(t, Open(p, source), q, s);
      SumTotalsOfBump(CountersOf(t, q).callees, f, source, s);
    }
  }

  /** A call hands the open end of the balance from the caller to the function called. */
  lemma {:induction false} CallKeepsBalance(t: Table, log: seq<Event>, p: Caller, f: nat, source: nat)
    requires Balanced(t, log, Open(p, source)) && f < |t.functions|
    ensures Balanced(CountCall(t, p, f, source), log, Open(Function(f), source))
  {
    var t1 := CountCall(t, p, f, source);
    CountCallCalls(t, p, f, source);
    CallKeepsNames(t, t1, p, f, source);
    CallKeepsMirror(t, t1, p, f, source);
    CallFlowsIn(t, t1, log, p, f, source);
    CallFlowsOut(t, t1, p, f, source);
  }

  /** The end of the stack closes the balance. */
  lemma {:induction false} EndCloses(t: Table, log: seq<Event>, p: Caller, source: nat, ids: seq<nat>)
    requires Balanced(t, log, Open(p, source))
    ensures Balanced(CountEnd(t, p, source), log + [Calls(source, ids)], Closed)
  {
    var t1 := CountEnd(t, p, source);
    var log1 := log + [Calls(source, ids)];
    assert log1[..|log1| - 1] == log;
    SameCallsKeep(t, t1);
    forall f, s: nat | 0 <= f < |t1.functions| ensures FlowsIn(t1, log1, f, s) { assert FlowsIn(t, log, f, s); }
    forall q: Caller, s: nat | IsCaller(t1, q)
      ensures FlowsOut(t1, Closed, q, s)
    {
      assert FlowsOut(t, Open(p, source), q, s);
    }
  }

  lemma {:induction false} CountFromBalances(t: Table, log: seq<Event>, p: Caller, source: nat, whole: seq<nat>,
                                             ids: seq<nat>)
    requires Balanced(t, log, Open(p, source)) && InOrder(|t.functions|, ids)
    ensures Balanced(CountFrom(t, p, source, ids), log + [Calls(source, whole)], Closed)
    decreases |ids|
  {
    if ids == [] {
      EndCloses(t, log, p, source, whole);
    } else {
      var t1 := Known(t, ids[0]);
      KnownKeepsBalance(t, log, Open(p, source), ids[0]);
      CallKeepsBalance(t1, log, p, ids[0], source);
      CountFromBalances(CountCall(t1, p, ids[0], source), log, Function(ids[0]), source, whole, ids[1..]);
    }
  }

  /** Counting a whole stack keeps callers and callees mirrored and every function in balance. */
  lemma {:induction false} CountStackBalances(t: Table, log: seq<Event>, source: nat, ids: seq<nat>)
    requires Balanced(t, log, Closed) && InOrder(|t.functions|, ids)
    ensures Balanced(CountStack(t, source, ids), log + [Calls(source, ids)], Closed)
  {
    RootOpens(t, log, source);
    CountFromBalances(CountRootTotal(t, source), log, Root, source, ids, ids);
  }

  /** So does counting a sample that has only a frame. */
  lemma {:induction false} CountFrameBalances(t: Table, log: seq<Event>, source: nat, f: nat)
    requires Balanced(t, log, Closed) && f < |t.functions|
    ensures Balanced(CountFrame(t, f, source), log + [Frame(source, f)], Closed)
  {
    var t1 := CountFrame(t, f, source);
    var log1 := log + [Frame(source, f)];
    assert log1[..|log1| - 1] == log;
    SameCallsKeep(t, t1);
    forall g, s: nat | 0 <= g < |t1.functions| ensures FlowsIn(t1, log1, g, s) { assert FlowsIn(t, log, g, s); }
    forall q: Caller, s: nat | IsCaller(t1, q) ensures FlowsOut(t1, Closed, q, s) { assert FlowsOut(t, Closed, q, s); }
  }

  lemma {:induction false} EmptyTableBalances()
    ensures Balanced(EMPTY_TABLE, [], Closed)
  {
    forall p: Caller, s: nat | IsCaller(EMPTY_TABLE, p) ensures FlowsOut(EMPTY_TABLE, Closed, p, s) {
      assert p == Root;
    }
  }

  // ----- Every counter equals a count in the log ---------------------------------------

  function TotalAt(t: Table, p: Caller, s: nat): nat {
    if IsCaller(t, p) then Total(CountersOf(t, p).hits, s) else 0
  }

  function SelfAt(t: Table, p: Caller, s: nat): nat {
    if IsCaller(t, p) then Self(CountersOf(t, p).hits, s) else 0
  }

  function CallsAt(t: Table, p: Caller, f: nat, s: nat): nat {
    if f < |t.functions| then Total(HitsAt(t.functions[f].callers, p), s) else 0
  }

  function Occurrences(ids: seq<nat>, p: Caller): nat
    decreases |ids|
  {
    if ids == [] then 0 else (if p == Function(ids[0]) then 1 else 0) + Occurrences(ids[1..], p)
  }

  /** How often `f` follows directly on `q` in the stack `ids` entered from `p`. */
  function Follows(p: Caller, ids: seq<nat>, q: Caller, f: nat): nat
    decreases |ids|
  {
    if ids == [] then 0 else (if p == q && ids[0] == f then 1 else 0) + Follows(Function(ids[0]), ids[1..], q, f)
  }

  function Top(p: Caller, ids: seq<nat>): Caller
    decreases |ids|
  {
    if ids == [] then p else Top(Function(ids[0]), ids[1..])
  }

  /** How often the event counts `p` as met. */
  function Met(e: Event, p: Caller): nat {
    match e
    case Calls(_, ids) => (if p == Root then 1 else 0) + Occurrences(ids, p)
    case Frame(_, f) => if p == Function(f) then 1 else 0
  }

  function Ends(e: Event, p: Caller): nat {
    match e
    case Calls(_, ids) => if Top(Root, ids) == p then 1 else 0
    case Frame(_, f) => if p == Function(f) then 1 else 0
  }

  function CallsIn(e: Event, p: Caller, f: nat): nat {
    match e
    case Calls(_, ids) => Follows(Root, ids, p, f)
    case Frame(_, _) => 0
  }

  function MetCount(log: seq<Event>, p: Caller, s: nat): nat {
    if log == [] then 0
    else MetCount(log[..|log| - 1], p, s) + if log[|log| - 1].source == s then Met(log[|log| - 1], p) else 0
  }

  function EndCount(log: seq<Event>, p: Caller, s: nat): nat {
    if log == [] then 0
    else EndCount(log[..|log| - 1], p, s) + if log[|log| - 1].source == s then Ends(log[|log| - 1], p) else 0
  }

  function CallCount(log: seq<Event>, p: Caller, f: nat, s: nat): nat {
    if log == [] then 0
    else CallCount(log[..|log| - 1], p, f, s) + if log[|log| - 1].source == s then CallsIn(log[|log| - 1], p, f) else 0
  }

  lemma {:induction false} KnownCounts(t: Table, f: nat, p: Caller, g: nat, s: nat)
    requires f <= |t.functions|
    ensures TotalAt(Known(t, f), p, s) == TotalAt(t, p, s) && SelfAt(Known(t, f), p, s) == SelfAt(t, p, s)
    ensures CallsAt(Known(t, f), p, g, s) == CallsAt(t, p, g, s)
  {
  }

  lemma {:induction false} CountCallCounts(t: Table, p: Caller, f: nat, source: nat, q: Caller, g: nat, s: nat)
    requires IsCaller(t, p) && f < |t.functions|
    ensures var t1 := CountCall(t, p, f, source);
            && TotalAt(t1, q, s) == TotalAt(t, q, s) + (if s == source && q == Function(f) then 1 else 0)
            && SelfAt(t1, q, s) == SelfAt(t, q, s)
            && CallsAt(t1, q, g, s) == CallsAt(t, q, g, s) + if s == source && p == q && f == g then 1 else 0
  {
    CountCallCalls(t, p, f, source);
    CountCallSelfs(t, p, f, source, q, s);
  }

  lemma {:induction false} CountCallSelfs(t: Table, p: Caller, f: nat, source: nat, q: Caller, s: nat)
    requires IsCaller(t, p) && f < |t.functions|
    ensures SelfAt(CountCall(t, p, f, source), q, s) == SelfAt(t, q, s)
  {
    CountCallCalls(t, p, f, source);
  }

  lemma {:induction false} CountEndCounts(t: Table, p: Caller, source: nat, q: Caller, g: nat, s: nat)
    requires IsCaller(t, p)
    ensures var t1 := CountEnd(t, p, source);
            && TotalAt(t1, q, s) == TotalAt(t, q, s)
            && SelfAt(t1, q, s) == SelfAt(t, q, s) + (if s == source && p == q then 1 else 0)
            && CallsAt(t1, q, g, s) == CallsAt(t, q, g, s)
  {
  }

  lemma {:induction false} CountFromCounts(t: Table, p: Caller, source: nat, ids: seq<nat>, q: Caller, g: nat, s: nat)
    requires IsCaller(t, p) && InOrder(|t.functions|, ids)
    ensures var t1 := CountFrom(t, p, source, ids);
            && TotalAt(t1, q, s) == TotalAt(t, q, s) + (if s == source then Occurrences(ids, q) else 0)
            && SelfAt(t1, q, s) == SelfAt(t, q, s) + (if s == source && Top(p, ids) == q then 1 else 0)
            && CallsAt(t1, q, g, s) == CallsAt(t, q, g, s) + if s == source then Follows(p, ids, q, g) else 0
    decreases |ids|
  {
    if ids == [] { CountEndCounts(t, p, source, q, g, s); }
    hide TotalAt, SelfAt, CallsAt, CountCall, CountEnd;
    if ids != [] {
      var t1 := Known(t, ids[0]);
      KnownCounts(t, ids[0], q, g, s);
      CountCallCounts(t1, p, ids[0], source, q, g, s);
      CountFromCounts(CountCall(t1, p, ids[0], source), Function(ids[0]), source, ids[1..], q, g, s);
    }
  }

  /** Totals count how often a function was met, selfs how often a sample ended there, caller entries how often the
      one function followed on the other. */
  ghost predicate CountsLog(t: Table, log: seq<Event>) {
    forall p: Caller, f: nat, s: nat :: CountsFor(t, log, p, f, s)
  }

  ghost predicate CountsFor(t: Table, log: seq<Event>, p: Caller, f: nat, s: nat) {
    TotalAt(t, p, s) == MetCount(log, p, s) && SelfAt(t, p, s) == EndCount(log, p, s) &&
        CallsAt(t, p, f, s) == CallCount(log, p, f, s)
  }

  lemma {:induction false} CountStackCounts(t: Table, log: seq<Event>, source: nat, ids: seq<nat>)
    requires CountsLog(t, log) && InOrder(|t.functions|, ids)
    ensures CountsLog(CountStack(t, source, ids), log + [Calls(source, ids)])
  {
    var log1 := log + [Calls(source, ids)];
    var t0 := CountRootTotal(t, source);
    var t1 := CountStack(t, source, ids);
    forall p: Caller, f: nat, s: nat ensures CountsFor(t1, log1, p, f, s) {
      assert CountsFor(t, log, p, f, s);
      assert log1[..|log1| - 1] == log;
      assert TotalAt(t0, p, s) == TotalAt(t, p, s) + (if s == source && p == Root then 1 else 0);
      assert SelfAt(t0, p, s) == SelfAt(t, p, s) && CallsAt(t0, p, f, s) == CallsAt(t, p, f, s);
      CountFromCounts(t0, Root, source, ids, p, f, s);
    }
  }

  lemma {:induction false} CountFrameCounts(t: Table, log: seq<Event>, source: nat, id: nat)
    requires CountsLog(t, log) && id <= |t.functions|
    ensures CountsLog(CountFrame(Known(t, id), id, source), log + [Frame(source, id)])
  {
    var log1 := log + [Frame(source, id)];
    var t0 := Known(t, id);
    var t1 := CountFrame(t0, id, source);
    forall p: Caller, f: nat, s: nat ensures CountsFor(t1, log1, p, f, s) {
      assert CountsFor(t, log, p, f, s);
      assert log1[..|log1| - 1] == log;
      KnownCounts(t, id, p, f, s);
    }
  }

  lemma {:induction false} EmptyTableCounts()
    ensures CountsLog(EMPTY_TABLE, [])
  {
    forall p: Caller, f: nat, s: nat ensures CountsFor(EMPTY_TABLE, [], p, f, s) {
    }
  }
}
