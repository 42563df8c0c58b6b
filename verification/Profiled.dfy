/** The processes to show: the explicit targets, and all their descendants. */
module Profiled {

  import opened Wrappers

  /** A process is identified by its id and the time from which the id is its. */
  datatype Key = Key(id: nat, time: nat)

  datatype Entry = Entry(id: nat, timestamp: nat, imageName: string, parentId: nat)

  /** All processes per id, in the order of time. */
  type History = map<nat, seq<Entry>>

  datatype Info = Info(processId: nat, startTime: nat)

  function KeyOf(e: Entry): Key { Key(e.id, e.timestamp) }

  predicate Recorded(h: History) {
    forall id :: id in h ==> h[id] != []
  }

  /** The last entry not behind the time, else the first. */
  function LastNotBehind(entries: seq<Entry>, time: nat): (r: Option<Entry>)
    ensures r.Some? ==> r.value in entries
  {
    if entries == [] then None
    else if entries[|entries| - 1].timestamp <= time then Some(entries[|entries| - 1])
    else LastNotBehind(entries[..|entries| - 1], time)
  }

  function FindAt(h: History, id: nat, time: nat): Option<Entry>
    requires Recorded(h)
  {
    if id !in h then None
    else if LastNotBehind(h[id], time).Some? then LastNotBehind(h[id], time)
    else Some(h[id][0])
  }

  /** Entry `k` is the last one that is not behind the time, or all are behind it and it is the first one. */
  predicate StandsFor(entries: seq<Entry>, time: nat, k: nat) {
    && k < |entries| && (entries[k].timestamp <= time || k == 0)
    && forall j :: k < j < |entries| ==> time < entries[j].timestamp
  }

  /** That one is found. */
  lemma {:induction false} FoundIsLastNotBehind(h: History, id: nat, time: nat, k: nat)
    requires Recorded(h) && id in h && StandsFor(h[id], time, k)
    ensures FindAt(h, id, time) == Some(h[id][k])
  {
    LastIsNotBehind(h[id], time, k);
  }

  lemma {:induction false} LastIsNotBehind(entries: seq<Entry>, time: nat, k: nat)
    requires StandsFor(entries, time, k)
    ensures LastNotBehind(entries, time) == if entries[k].timestamp <= time then Some(entries[k]) else None
    decreases |entries|
  {
    if k < |entries| - 1 { LastIsNotBehind(entries[..|entries| - 1], time, k); }
  }

  const IGNORED := "conhost.exe"

  /** The parent of an entry, unless the entry is ignored or its parent unknown. */
  function ParentOf(h: History, e: Entry): Option<Key>
    requires Recorded(h)
  {
    if e.imageName == IGNORED then None
    else match FindAt(h, e.parentId, e.timestamp)
      case None => None
      case Some(p) => Some(KeyOf(p))
  }

  /** Console hosts are nobody's children. Every other entry is the child of what its parent's id stood for at its
      start. */
  lemma {:induction false} ParentIsFound(h: History, e: Entry, k: nat)
    requires Recorded(h)
    ensures e.imageName == "conhost.exe" || e.parentId !in h ==> ParentOf(h, e) == None
    ensures e.imageName != "conhost.exe" && e.parentId in h && StandsFor(h[e.parentId], e.timestamp, k) ==>
              ParentOf(h, e) == Some(Key(h[e.parentId][k].id, h[e.parentId][k].timestamp))
  {
    if e.imageName != "conhost.exe" && e.parentId in h && StandsFor(h[e.parentId], e.timestamp, k) {
      FoundIsLastNotBehind(h, e.parentId, e.timestamp, k);
    }
  }

  predicate IsEntry(h: History, id: nat, i: nat) {
    id in h && i < |h[id]|
  }

  ghost predicate IsChild(h: History, p: Key, c: Key)
    requires Recorded(h)
  {
    exists id: nat, i: nat :: IsEntry(h, id, i) && KeyOf(h[id][i]) == c && ParentOf(h, h[id][i]) == Some(p)
  }

  ghost predicate HasChildren(h: History, p: Key)
    requires Recorded(h)
  {
    exists c :: IsChild(h, p, c)
  }

  /** `c` is a child of `k`. If there are none under the very key, those of the process running at its time count. */
  ghost predicate Follows(h: History, k: Key, c: Key)
    requires Recorded(h)
  {
    if HasChildren(h, k) then IsChild(h, k, c)
    else FindAt(h, k.id, k.time).Some? && IsChild(h, KeyOf(FindAt(h, k.id, k.time).value), c)
  }

  /** Every process but a console host follows the process that its parent's id stands for at its start. It also
      follows any other key under which that process is found, unless that key has children of its own. */
  lemma {:induction false} ProcessFollowsParent(h: History, id: nat, i: nat, p: nat, k: Key)
    requires Recorded(h) && IsEntry(h, id, i) && h[id][i].imageName != "conhost.exe"
    requires h[id][i].parentId in h && StandsFor(h[h[id][i].parentId], h[id][i].timestamp, p)
    ensures var parent := h[h[id][i].parentId][p];
            && Follows(h, KeyOf(parent), KeyOf(h[id][i]))
            && (k.id in h && !HasChildren(h, k)
                && (exists q :: 0 <= q < |h[k.id]| && StandsFor(h[k.id], k.time, q) && h[k.id][q] == parent)
                ==> Follows(h, k, KeyOf(h[id][i])))
  {
    var e := h[id][i];
    var parent := h[e.parentId][p];
    ParentIsFound(h, e, p);
    assert IsChild(h, KeyOf(parent), KeyOf(e));
    if k.id in h && exists q :: 0 <= q < |h[k.id]| && StandsFor(h[k.id], k.time, q) && h[k.id][q] == parent {
      var q :| 0 <= q < |h[k.id]| && StandsFor(h[k.id], k.time, q) && h[k.id][q] == parent;
      FoundIsLastNotBehind(h, k.id, k.time, q);
    }
  }

  /** Nothing else follows a key. */
  lemma {:induction false} FollowerHasParent(h: History, k: Key, c: Key) returns (id: nat, i: nat)
    requires Recorded(h) && Follows(h, k, c)
    ensures IsEntry(h, id, i) && KeyOf(h[id][i]) == c && h[id][i].imageName != "conhost.exe" && h[id][i].parentId in h
    ensures var parent := FindAt(h, h[id][i].parentId, h[id][i].timestamp);
            && parent.Some?
            && (KeyOf(parent.value) == k
                || (!HasChildren(h, k) && k.id in h && KeyOf(FindAt(h, k.id, k.time).value) == KeyOf(parent.value)))
  {
    var p := if HasChildren(h, k) then k else KeyOf(FindAt(h, k.id, k.time).value);
    assert IsChild(h, p, c);
    id, i :| IsEntry(h, id, i) && KeyOf(h[id][i]) == c && ParentOf(h, h[id][i]) == Some(p);
  }

  ghost predicate ClosedUnder(h: History, keys: set<Key>)
    requires Recorded(h)
  {
    forall k, c :: k in keys && Follows(h, k, c) ==> c in keys
  }

  /** The least set that holds the targets and is closed. */
  ghost predicate IsLeast(h: History, targets: set<Key>, keys: set<Key>)
    requires Recorded(h)
  {
    targets <= keys && ClosedUnder(h, keys) && Needed(h, targets, keys)
  }

  /** Every closed set that holds the targets holds `keys`. */
  ghost predicate Needed(h: History, targets: set<Key>, keys: set<Key>)
    requires Recorded(h)
  {
    forall s: set<Key> :: targets <= s && ClosedUnder(h, s) ==> keys <= s
  }

  /** Only the keys added last may have children outside. */
  ghost predicate ClosedBut(h: History, keys: set<Key>, previous: set<Key>)
    requires Recorded(h)
  {
    forall k, c :: k in keys && k !in previous && Follows(h, k, c) ==> c in keys
  }

  /** `added` are the children of `previous` that are not among `keys`. */
  ghost predicate AreNew(h: History, keys: set<Key>, previous: set<Key>, added: set<Key>)
    requires Recorded(h)
  {
    forall c :: c in added <==> c !in keys && exists k :: k in previous && Follows(h, k, c)
  }

  ghost predicate IsChain(h: History, targets: set<Key>, path: seq<Key>)
    requires Recorded(h)
  {
    && path != [] && path[0] in targets
    && forall i :: 0 < i < |path| ==> Follows(h, path[i - 1], path[i])
  }

  ghost predicate Descends(h: History, targets: set<Key>, k: Key)
    requires Recorded(h)
  {
    exists path :: IsChain(h, targets, path) && path[|path| - 1] == k
  }

  lemma {:induction false} TargetDescends(h: History, targets: set<Key>, t: Key)
    requires Recorded(h) && t in targets
    ensures Descends(h, targets, t)
  {
    assert IsChain(h, targets, [t]) && [t][|[t]| - 1] == t;
  }

  lemma {:induction false} ChildDescends(h: History, targets: set<Key>, d: Key, c: Key)
    requires Recorded(h) && Descends(h, targets, d) && Follows(h, d, c)
    ensures Descends(h, targets, c)
  {
    hide Follows;
    var path :| IsChain(h, targets, path) && path[|path| - 1] == d;
    var longer := path + [c];
    assert IsChain(h, targets, longer) && longer[|longer| - 1] == c;
  }

  /** The least set consists of the targets and their descendants. */
  lemma {:induction false} LeastIsDescendants(h: History, targets: set<Key>, keys: set<Key>, k: Key)
    requires Recorded(h) && IsLeast(h, targets, keys)
    ensures k in keys <==> Descends(h, targets, k)
  {
    hide Follows;
    if Descends(h, targets, k) {
      var path :| IsChain(h, targets, path) && path[|path| - 1] == k;
      ChainStaysInside(h, targets, keys, path);
    }
    hide IsChain;
    var descendants := set d | d in keys && Descends(h, targets, d);
    forall t | t in targets ensures t in descendants { TargetDescends(h, targets, t); }
    forall d, c | d in descendants && Follows(h, d, c) ensures c in descendants { ChildDescends(h, targets, d, c); }
    assert ClosedUnder(h, descendants);
  }

  lemma {:induction false} ChainStaysInside(h: History, targets: set<Key>, keys: set<Key>, path: seq<Key>)
    requires Recorded(h) && targets <= keys && ClosedUnder(h, keys) && IsChain(h, targets, path)
    ensures path[|path| - 1] in keys
    decreases |path|
  {
    if |path| > 1 {
      ChainStaysInside(h, targets, keys, path[..|path| - 1]);
      assert Follows(h, path[|path| - 2], path[|path| - 1]);
    }
  }

  function AllKeys(h: History): set<Key> {
    set id, i | id in h && 0 <= i < |h[id]| :: KeyOf(h[id][i])
  }

  // ----- The children map --------------------------------------------------------------

  /** `children` lists the children found among the entries that were visited. */
  ghost predicate Lists(h: History, children: map<Key, seq<Key>>, visited: set<nat>, id: nat, n: nat)
    requires Recorded(h)
  {
    && (forall p :: p in children ==> children[p] != [])
    && (forall p, c :: p in children && c in children[p] ==> IsChild(h, p, c))
    && (forall d: nat, i: nat :: IsEntry(h, d, i) && (d in visited || (d == id && i < n)) ==>
         IsListed(h, children, h[d][i]))
  }

  ghost predicate IsListed(h: History, children: map<Key, seq<Key>>, e: Entry)
    requires Recorded(h)
  {
    ParentOf(h, e).Some? ==> ParentOf(h, e).value in children && KeyOf(e) in children[ParentOf(h, e).value]
  }

  lemma {:induction false} OneMoreListed(h: History, children: map<Key, seq<Key>>, visited: set<nat>, id: nat, n: nat,
                                         p: Key, children1: map<Key, seq<Key>>)
    requires Recorded(h) && Lists(h, children, visited, id, n) && IsEntry(h, id, n) && ParentOf(h, h[id][n]) == Some(p)
    requires children1 == children[p := (if p in children then children[p] else []) + [KeyOf(h[id][n])]]
    ensures Lists(h, children1, visited, id, n + 1)
  {
    var e := h[id][n];
    assert IsChild(h, p, KeyOf(e));
    forall q, c | q in children1 && c in children1[q] ensures IsChild(h, q, c) {
      if q != p || c != KeyOf(e) { assert q in children && c in children[q]; }
    }
    forall d: nat, i: nat | IsEntry(h, d, i) && (d in visited || (d == id && i < n + 1))
      ensures IsListed(h, children1, h[d][i])
    {
      if d == id && i == n {
        assert children1[p][|children1[p]| - 1] == KeyOf(e);
      } else {
        assert IsListed(h, children, h[d][i]);
        var q := ParentOf(h, h[d][i]);
        if q == Some(p) { assert forall c :: c in children[p] ==> c in children1[p]; }
      }
    }
  }

  /** The processes and their children; ids are visited in any order. */
  method ChildrenPerProcess(h: History) returns (children: map<Key, seq<Key>>)
    requires Recorded(h)
    ensures Lists(h, children, h.Keys, 0, 0)
  {
    children := map[];
    var left := h.Keys;
    while left != {}
      invariant left <= h.Keys && Lists(h, children, h.Keys - left, 0, 0)
      decreases left
    {
      var id :| id in left;
      var entries := h[id];
      for n := 0 to |entries|
        invariant Lists(h, children, h.Keys - left, id, n)
      {
        var e := entries[n];
        if e.imageName == IGNORED { continue; }
        var parent := FindAt(h, e.parentId, e.timestamp);
        if parent.None? { continue; }
        var p := KeyOf(parent.value);
        ghost var before := children;
        children := children[p := (if p in children then children[p] else []) + [KeyOf(e)]];
        OneMoreListed(h, before, h.Keys - left, id, n, p, children);
      }
      left := left - {id};
    }
  }

  lemma {:induction false} ListedAreChildren(h: History, children: map<Key, seq<Key>>, p: Key, c: Key)
    requires Recorded(h) && Lists(h, children, h.Keys, 0, 0)
    ensures IsChild(h, p, c) <==> p in children && c in children[p]
    ensures HasChildren(h, p) <==> p in children
  {
    forall d | IsChild(h, p, d) ensures p in children && d in children[p] {
      var id: nat, i: nat :| IsEntry(h, id, i) && KeyOf(h[id][i]) == d && ParentOf(h, h[id][i]) == Some(p);
      assert IsListed(h, children, h[id][i]);
    }
    if p in children { assert IsChild(h, p, children[p][0]); }
  }

  // ----- The closure -------------------------------------------------------------------

  class ProcessContext {
    var processes: History
    var profilerProcesses: map<Key, Info>

    constructor (processes: History, targets: map<Key, Info>)
      ensures this.processes == processes && profilerProcesses == targets
    {
      this.processes, profilerProcesses := processes, targets;
    }

    /** The children of a key as the map has them. */
    method FindChildren(children: map<Key, seq<Key>>, key: Key) returns (found: seq<Key>)
      requires Recorded(processes) && Lists(processes, children, processes.Keys, 0, 0)
      ensures forall c :: c in found <==> Follows(processes, key, c)
    {
      ghost var h := processes;
      forall k, c
        ensures IsChild(h, k, c) <==> k in children && c in children[k]
      {
        ListedAreChildren(h, children, k, c);
      }
      ListedAreChildren(h, children, key, key);
      if key in children { return children[key]; }
      var process := FindAt(processes, key.id, key.time);
      if process.None? || KeyOf(process.value) !in children { return []; }
      found := children[KeyOf(process.value)];
    }

    /** The children of the keys added last that are not profiled yet. */
    method NewProcesses(children: map<Key, seq<Key>>, previous: set<Key>) returns (added: map<Key, Info>)
      requires Recorded(processes) && Lists(processes, children, processes.Keys, 0, 0)
      ensures AreNew(processes, profilerProcesses.Keys, previous, added.Keys)
      ensures forall c :: c in added ==> added[c] == Info(c.id, c.time)
    {
      added := map[];
      var left := previous;
      while left != {}
        invariant left <= previous
        invariant forall c :: c in added <==>
                  c !in profilerProcesses && exists k :: k in previous - left && Follows(processes, k, c)
        invariant forall c :: c in added ==> added[c] == Info(c.id, c.time)
        decreases left
      {
        var key :| key in left;
        var found := FindChildren(children, key);
        ghost var before := added;
        for i := 0 to |found|
          invariant forall c :: c in added <==> c in before || (c !in profilerProcesses && c in found[..i])
          invariant forall c :: c in added ==> added[c] == Info(c.id, c.time)
        {
          assert found[..i + 1] == found[..i] + [found[i]];
          if found[i] in profilerProcesses { continue; }
          added := added[found[i] := Info(found[i].id, found[i].time)];
        }
        assert found[..|found|] == found;
        left := left - {key};
        forall c
          ensures c in added <==>
                  c !in profilerProcesses && exists k :: k in previous - left && Follows(processes, k, c)
        {
          if c in added {
            if c !in before { assert key in previous - left && Follows(processes, key, c); }
          }
        }
      }
    }

    /** Adds the children of the profiled processes until there are no new ones. This ends for every parent relation. */
    method Finish()
      requires Recorded(processes)
      modifies this`profilerProcesses
      ensures IsLeast(processes, old(profilerProcesses).Keys, profilerProcesses.Keys)
      ensures forall k :: k in profilerProcesses ==>
                profilerProcesses[k] == if k in old(profilerProcesses) then old(profilerProcesses)[k]
                    else Info(k.id, k.time)
    {
      hide Follows, ClosedUnder, Needed, Lists;
      ghost var h, targets := processes, profilerProcesses.Keys;
      var children := ChildrenPerProcess(processes);
      var previous := profilerProcesses.Keys;
      NothingAdded(h, targets);
      while true
        invariant h == processes && targets <= profilerProcesses.Keys && previous <= profilerProcesses.Keys
        invariant ClosedBut(h, profilerProcesses.Keys, previous) && Needed(h, targets, profilerProcesses.Keys)
        invariant forall k :: k in profilerProcesses ==>
                    profilerProcesses[k] == if k in old(profilerProcesses) then old(profilerProcesses)[k]
                        else Info(k.id, k.time)
        decreases AllKeys(h) - profilerProcesses.Keys
      {
        var added := NewProcesses(children, previous);
        RoundKeeps(h, targets, profilerProcesses.Keys, previous, added.Keys);
        if added == map[] {
          break;
        }
        ghost var first :| first in added;
        assert first in AllKeys(h) - profilerProcesses.Keys;
        previous := added.Keys;
        profilerProcesses := profilerProcesses + added;
        assert first !in AllKeys(h) - profilerProcesses.Keys;
      }
    }
  }

  lemma {:induction false} NothingAdded(h: History, targets: set<Key>)
    requires Recorded(h)
    ensures ClosedBut(h, targets, targets) && Needed(h, targets, targets)
  {
  }

  lemma {:induction false} RoundKeeps(h: History, targets: set<Key>, keys: set<Key>, previous: set<Key>,
                                      added: set<Key>)
    requires Recorded(h) && previous <= keys && AreNew(h, keys, previous, added)
    requires ClosedBut(h, keys, previous) && Needed(h, targets, keys)
    ensures added <= AllKeys(h) && added !! keys
    ensures ClosedBut(h, keys + added, added) && Needed(h, targets, keys + added)
    ensures added == {} ==> ClosedUnder(h, keys)
  {
    forall c | c in added ensures c in AllKeys(h) {
      var k :| k in previous && Follows(h, k, c);
    }
    AddedNeeded(h, targets, keys, previous, added);
    forall k, c | k in keys && Follows(h, k, c) ensures c in keys || c in added {
    }
  }

  lemma {:induction false} AddedNeeded(h: History, targets: set<Key>, keys: set<Key>, previous: set<Key>,
                                       added: set<Key>)
    requires Recorded(h) && previous <= keys && AreNew(h, keys, previous, added) && Needed(h, targets, keys)
    ensures Needed(h, targets, keys + added)
  {
    hide Follows;
    forall s: set<Key> | targets <= s && ClosedUnder(h, s) ensures keys + added <= s {
      forall c | c in added ensures c in s {
        var k :| k in previous && Follows(h, k, c);
      }
    }
  }
}
