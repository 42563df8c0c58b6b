/** The call tree: a prefix tree of function ids, its nodes kept in an arena. */
module CallTree {

  import opened Wrappers
  import opened Hits

  datatype Node = Node(functionId: nat, hits: SourceHits, children: seq<nat>)

  const ROOT_FUNCTION_ID := 0xFFFF_FFFF

  datatype Tree = Tree(root: Node, nodes: seq<Node>)

  const EMPTY_TREE := Tree(Node(ROOT_FUNCTION_ID, [], []), [])

  datatype Place = Root | At(id: nat)

  predicate IsPlace(t: Tree, place: Place) {
    place.At? ==> place.id < |t.nodes|
  }

  function NodeAt(t: Tree, place: Place): Node
    requires IsPlace(t, place)
  {
    match place
    case Root => t.root
    case At(id) => t.nodes[id]
  }

  function WithNode(t: Tree, place: Place, node: Node): Tree
    requires IsPlace(t, place)
  {
    match place
    case Root => t.(root := node)
    case At(id) => t.(nodes := t.nodes[id := node])
  }

  predicate ChildrenExist(t: Tree, children: seq<nat>) {
    forall i :: 0 <= i < |children| ==> children[i] < |t.nodes|
  }

  predicate Closed(t: Tree) {
    && ChildrenExist(t, t.root.children)
    && forall i :: 0 <= i < |t.nodes| ==> ChildrenExist(t, t.nodes[i].children)
  }

  /** The first of `children` that stands for the function. */
  function FindChild(t: Tree, children: seq<nat>, f: nat): (r: Option<nat>)
    requires ChildrenExist(t, children)
    ensures r.Some? ==> r.value in children && r.value < |t.nodes| && t.nodes[r.value].functionId == f
    ensures r.None? ==> forall c :: c in children ==> t.nodes[c].functionId != f
  {
    if children == [] then None
    else if t.nodes[children[0]].functionId == f then Some(children[0])
    else
      assert forall i :: 0 <= i < |children[1..]| ==> children[1..][i] == children[i + 1];
      FindChild(t, children[1..], f)
  }

  /** The child of `place` for function `f`, appended to the arena if there is none. */
  function Descend(t: Tree, place: Place, f: nat): (r: (Tree, nat))
    requires Closed(t) && IsPlace(t, place)
    ensures Closed(r.0) && r.1 < |r.0.nodes|
  {
    var node := NodeAt(t, place);
    assert ChildrenExist(t, node.children);
    match FindChild(t, node.children, f)
    case Some(id) => (t, id)
    case None =>
      var id := |t.nodes|;
      var t1 := WithNode(t, place, node.(children := node.children + [id]));
      (t1.(nodes := t1.nodes + [Node(f, [], [])]), id)
  }

  function CountTotal(t: Tree, place: Place, source: nat): Tree
    requires IsPlace(t, place)
  {
    WithNode(t, place, NodeAt(t, place).(hits := AddTotal(NodeAt(t, place).hits, source)))
  }

  function CountSelf(t: Tree, place: Place, source: nat): Tree
    requires IsPlace(t, place)
  {
    WithNode(t, place, NodeAt(t, place).(hits := AddSelf(NodeAt(t, place).hits, source)))
  }

  /** Walks down along `ids`, counting totals on the way and self at the end. */
  function AddFrom(t: Tree, place: Place, source: nat, ids: seq<nat>): (r: Tree)
    requires Closed(t) && IsPlace(t, place)
    ensures Closed(r)
    decreases |ids|
  {
    if ids == [] then CountSelf(t, place, source)
    else
      var (t1, id) := Descend(t, place, ids[0]);
      AddFrom(CountTotal(t1, At(id), source), At(id), source, ids[1..])
  }

  function AddStack(t: Tree, source: nat, ids: seq<nat>): (r: Tree)
    requires Closed(t)
    ensures Closed(r)
  {
    AddFrom(CountTotal(t, Root, source), Root, source, ids)
  }

  // ----- Reference: counting in the list of samples ------------------------------------

  datatype Stack = Stack(source: nat, ids: seq<nat>)

  function PrefixCount(log: seq<Stack>, source: nat, path: seq<nat>): nat {
    if log == [] then 0
    else PrefixCount(log[..|log| - 1], source, path)
         + if log[|log| - 1].source == source && path <= log[|log| - 1].ids then 1 else 0
  }

  function ExactCount(log: seq<Stack>, source: nat, path: seq<nat>): nat {
    if log == [] then 0
    else ExactCount(log[..|log| - 1], source, path)
         + if log[|log| - 1].source == source && path == log[|log| - 1].ids then 1 else 0
  }

  // ----- The shape of the tree ---------------------------------------------------------

  function PathAt(paths: seq<seq<nat>>, place: Place): seq<nat>
    requires place.At? ==> place.id < |paths|
  {
    match place
    case Root => []
    case At(id) => paths[id]
  }

  /** `c` is a child of the node with path `p`. */
  predicate ExtendsBy(paths: seq<seq<nat>>, c: nat, p: seq<nat>)
    requires c < |paths|
  {
    paths[c] != [] && paths[c][..|paths[c]| - 1] == p
  }

  predicate DistinctItems(xs: seq<nat>) {
    forall i, j :: 0 <= i < j < |xs| ==> xs[i] != xs[j]
  }

  /** `children` lists once exactly the nodes whose paths are one longer than `p`. */
  ghost predicate ChildrenOf(paths: seq<seq<nat>>, p: seq<nat>, children: seq<nat>) {
    && DistinctItems(children)
    && forall c :: c in children <==> 0 <= c < |paths| && ExtendsBy(paths, c, p)
  }

  /** `paths[i]` is the path of function ids from the root to node `i`; no two nodes have the same. */
  ghost predicate PathsFit(t: Tree, paths: seq<seq<nat>>) {
    && |paths| == |t.nodes|
    && (forall i :: 0 <= i < |paths| ==> paths[i] != [] && paths[i][|paths[i]| - 1] == t.nodes[i].functionId)
    && (forall i, j :: 0 <= i < j < |paths| ==> paths[i] != paths[j])
    && (forall i :: 0 <= i < |paths| && |paths[i]| > 1 ==> paths[i][..|paths[i]| - 1] in paths)
  }

  /** The children of node `i` are the nodes one step longer, and stand behind it in the arena. */
  ghost predicate ListsChildren(t: Tree, paths: seq<seq<nat>>, i: nat)
    requires i < |paths| == |t.nodes|
  {
    ChildrenOf(paths, paths[i], t.nodes[i].children) && forall c :: c in t.nodes[i].children ==> i < c
  }

  ghost predicate Shaped(t: Tree, paths: seq<seq<nat>>) {
    && PathsFit(t, paths)
    && ChildrenOf(paths, [], t.root.children)
    && forall i :: 0 <= i < |paths| ==> ListsChildren(t, paths, i)
  }

  lemma {:induction false} ShapedIsClosed(t: Tree, paths: seq<seq<nat>>)
    requires Shaped(t, paths)
    ensures Closed(t)
  {
    forall i | 0 <= i < |t.root.children| ensures t.root.children[i] < |t.nodes| {
      assert t.root.children[i] in t.root.children;
    }
    forall n, i | 0 <= n < |t.nodes| && 0 <= i < |t.nodes[n].children| ensures t.nodes[n].children[i] < |t.nodes| {
      assert ListsChildren(t, paths, n);
      assert t.nodes[n].children[i] in t.nodes[n].children;
    }
  }

  /** Every sample of the log has its whole path in the tree. */
  ghost predicate Complete(paths: seq<seq<nat>>, log: seq<Stack>) {
    forall k, j :: 0 <= k < |log| && 0 < j <= |log[k].ids| ==> log[k].ids[..j] in paths
  }

  /** The hits of node `i` are those of the log, plus one total for `source` if its path leads to `reached`. */
  ghost predicate NodeCounts(node: Node, path: seq<nat>, log: seq<Stack>, source: nat, reached: seq<nat>) {
    forall s: nat ::
      && Total(node.hits, s) == PrefixCount(log, s, path) + (if s == source && path <= reached then 1 else 0)
      && Self(node.hits, s) == ExactCount(log, s, path)
  }

  /** The state inside one sample: the walk has reached the node with path `reached`. */
  ghost predicate Walking(t: Tree, paths: seq<seq<nat>>, log: seq<Stack>, source: nat, reached: seq<nat>) {
    && Shaped(t, paths) && Complete(paths, log)
    && (forall j :: 0 < j <= |reached| ==> reached[..j] in paths)
    && NodeCounts(t.root, [], log, source, reached)
    && forall i :: 0 <= i < |paths| ==> NodeCounts(t.nodes[i], paths[i], log, source, reached)
  }

  /** Totals count the samples that have the node's path as a prefix, selfs those that have it as their whole stack. */
  ghost predicate Counts(t: Tree, paths: seq<seq<nat>>, log: seq<Stack>) {
    && Shaped(t, paths) && Complete(paths, log)
    && (forall s: nat :: Total(t.root.hits, s) == PrefixCount(log, s, []) &&
         Self(t.root.hits, s) == ExactCount(log, s, []))
    && forall i, s: nat :: 0 <= i < |paths| ==>
         Total(t.nodes[i].hits, s) == PrefixCount(log, s, paths[i]) &&
             Self(t.nodes[i].hits, s) == ExactCount(log, s, paths[i])
  }

  // ----- One step down -----------------------------------------------------------------

  /** The paths after a step from the node with path `p` to its child for `f`. */
  function PathsAfter(paths: seq<seq<nat>>, p: seq<nat>, f: nat): seq<seq<nat>> {
    if p + [f] in paths then paths else paths + [p + [f]]
  }

  lemma {:induction false} ChildrenAt(t: Tree, paths: seq<seq<nat>>, place: Place)
    requires Shaped(t, paths) && IsPlace(t, place)
    ensures ChildrenOf(paths, PathAt(paths, place), NodeAt(t, place).children)
  {
    if place.At? { assert ListsChildren(t, paths, place.id); }
  }

  lemma {:induction false} ChildPath(t: Tree, paths: seq<seq<nat>>, place: Place, c: nat)
    requires Shaped(t, paths) && IsPlace(t, place) && c < |paths|
    ensures c in NodeAt(t, place).children <==> paths[c] == PathAt(paths, place) + [t.nodes[c].functionId]
  {
    ChildrenAt(t, paths, place);
    var path := paths[c];
    assert path == path[..|path| - 1] + [path[|path| - 1]];
  }

  /** A step finds the child exactly when the longer path is in the tree already. */
  lemma {:induction false} DescendFinds(t: Tree, paths: seq<seq<nat>>, place: Place, f: nat)
    requires Shaped(t, paths) && IsPlace(t, place) && Closed(t)
    ensures FindChild(t, NodeAt(t, place).children, f).Some? <==> PathAt(paths, place) + [f] in paths
    ensures FindChild(t, NodeAt(t, place).children, f).Some? ==>
              paths[FindChild(t, NodeAt(t, place).children, f).value] == PathAt(paths, place) + [f]
  {
    var p := PathAt(paths, place);
    var children := NodeAt(t, place).children;
    var found := FindChild(t, children, f);
    if found.Some? {
      ChildPath(t, paths, place, found.value);
    } else if p + [f] in paths {
      var c :| 0 <= c < |paths| && paths[c] == p + [f];
      ChildPath(t, paths, place, c);
    }
  }

  lemma {:induction false} ChildrenKept(paths: seq<seq<nat>>, p: seq<nat>, f: nat, q: seq<nat>, children: seq<nat>)
    requires ChildrenOf(paths, q, children) && q != p
    ensures ChildrenOf(paths + [p + [f]], q, children)
  {
    assert (p + [f])[..|p + [f]| - 1] == p;
  }

  lemma {:induction false} ChildrenExtended(paths: seq<seq<nat>>, p: seq<nat>, f: nat, children: seq<nat>)
    requires ChildrenOf(paths, p, children)
    ensures ChildrenOf(paths + [p + [f]], p, children + [|paths|])
  {
    assert (p + [f])[..|p + [f]| - 1] == p;
    var paths1 := paths + [p + [f]];
    forall c ensures c in children + [|paths|] <==> 0 <= c < |paths1| && ExtendsBy(paths1, c, p) {
      assert c in children + [|paths|] <==> c in children || c == |paths|;
    }
    forall i | 0 <= i < |children| ensures children[i] != |paths| {
      assert children[i] in children;
    }
  }

  lemma {:induction false} NewChildLists(t: Tree, paths: seq<seq<nat>>, place: Place, f: nat, t1: Tree, i: nat)
    requires Shaped(t, paths) && IsPlace(t, place) && PathAt(paths, place) + [f] !in paths && i < |paths|
    requires |t1.nodes| == |paths| + 1
    requires t1.nodes[i].children == if place == At(i) then t.nodes[i].children + [|paths|] else t.nodes[i].children
    ensures ListsChildren(t1, paths + [PathAt(paths, place) + [f]], i)
  {
    assert ListsChildren(t, paths, i);
    if place == At(i) {
      ChildrenExtended(paths, paths[i], f, t.nodes[i].children);
    } else {
      ChildrenKept(paths, PathAt(paths, place), f, paths[i], t.nodes[i].children);
    }
  }

  lemma {:induction false} NewPathFits(t: Tree, paths: seq<seq<nat>>, path: seq<nat>, t1: Tree)
    requires PathsFit(t, paths) && path !in paths && path != [] && (|path| > 1 ==> path[..|path| - 1] in paths)
    requires |t1.nodes| == |t.nodes| + 1 && t1.nodes[|paths|].functionId == path[|path| - 1]
    requires forall i :: 0 <= i < |paths| ==> t1.nodes[i].functionId == t.nodes[i].functionId
    ensures PathsFit(t1, paths + [path])
  {
    var paths1 := paths + [path];
    forall i | 0 <= i < |paths1| && |paths1[i]| > 1 ensures paths1[i][..|paths1[i]| - 1] in paths1 {
      assert i < |paths| ==> paths1[i] == paths[i];
      assert paths1[i][..|paths1[i]| - 1] in paths;
    }
  }

  /** A new child keeps the shape; its path is the parent's with one function more. */
  lemma {:induction false} NewChildShaped(t: Tree, paths: seq<seq<nat>>, place: Place, f: nat, t1: Tree)
    requires Shaped(t, paths) && IsPlace(t, place) && PathAt(paths, place) + [f] !in paths
    requires t1.root.children == if place.Root? then t.root.children + [|paths|] else t.root.children
    requires |t1.nodes| == |t.nodes| + 1 && t1.nodes[|paths|] == Node(f, [], [])
    requires forall i :: 0 <= i < |paths| ==> t1.nodes[i].functionId == t.nodes[i].functionId
    requires forall i :: 0 <= i < |paths| ==>
             t1.nodes[i].children == if place == At(i) then t.nodes[i].children + [|paths|] else t.nodes[i].children
    ensures Shaped(t1, paths + [PathAt(paths, place) + [f]])
  {
    var path := PathAt(paths, place) + [f];
    NewRootLists(t, paths, place, f, t1);
    NewPathExtendsKnown(paths, place, f);
    NewPathFits(t, paths, path, t1);
    NewChildrenList(t, paths, place, f, t1, paths + [path]);
  }

  lemma {:induction false} NewChildrenList(t: Tree, paths: seq<seq<nat>>, place: Place, f: nat, t1: Tree,
                                           paths1: seq<seq<nat>>)
    requires Shaped(t, paths) && IsPlace(t, place) && PathAt(paths, place) + [f] !in paths
    requires paths1 == paths + [PathAt(paths, place) + [f]]
    requires |t1.nodes| == |t.nodes| + 1 && t1.nodes[|paths|] == Node(f, [], [])
    requires forall i :: 0 <= i < |paths| ==>
             t1.nodes[i].children == if place == At(i) then t.nodes[i].children + [|paths|] else t.nodes[i].children
    ensures forall i :: 0 <= i < |paths1| ==> ListsChildren(t1, paths1, i)
  {
    forall i | 0 <= i < |paths1| ensures ListsChildren(t1, paths1, i) {
      if i < |paths| {
        NewChildLists(t, paths, place, f, t1, i);
      } else {
        NewChildIsLeaf(t, paths, PathAt(paths, place), f);
      }
    }
  }

  lemma {:induction false} NewRootLists(t: Tree, paths: seq<seq<nat>>, place: Place, f: nat, t1: Tree)
    requires Shaped(t, paths) && IsPlace(t, place)
    requires t1.root.children == if place.Root? then t.root.children + [|paths|] else t.root.children
    ensures ChildrenOf(paths + [PathAt(paths, place) + [f]], [], t1.root.children)
  {
    if place.Root? {
      ChildrenExtended(paths, [], f, t.root.children);
    } else {
      ChildrenKept(paths, PathAt(paths, place), f, [], t.root.children);
    }
  }

  lemma {:induction false} NewPathExtendsKnown(paths: seq<seq<nat>>, place: Place, f: nat)
    requires place.At? ==> place.id < |paths|
    ensures var path := PathAt(paths, place) + [f];
            path[..|path| - 1] == PathAt(paths, place) && (|path| > 1 ==> path[..|path| - 1] in paths)
  {
    var path := PathAt(paths, place) + [f];
    assert path[..|path| - 1] == PathAt(paths, place);
  }

  lemma {:induction false} NewChildIsLeaf(t: Tree, paths: seq<seq<nat>>, p: seq<nat>, f: nat)
    requires Shaped(t, paths) && p + [f] !in paths
    ensures ChildrenOf(paths + [p + [f]], p + [f], [])
  {
    NoGrandchildren(t, paths, p + [f]);
    assert (p + [f])[..|p + [f]| - 1] == p;
  }

  lemma {:induction false} NoGrandchildren(t: Tree, paths: seq<seq<nat>>, q: seq<nat>)
    requires Shaped(t, paths) && q !in paths && q != []
    ensures forall c :: 0 <= c < |paths| ==> !ExtendsBy(paths, c, q)
  {
    forall c | 0 <= c < |paths| ensures !ExtendsBy(paths, c, q) {
      assert |paths[c]| > 1 ==> paths[c][..|paths[c]| - 1] in paths;
    }
  }

  lemma {:induction false} DescendAppends(t: Tree, place: Place, f: nat)
    requires Closed(t) && IsPlace(t, place) && FindChild(t, NodeAt(t, place).children, f).None?
    ensures var (t1, id) := Descend(t, place, f);
            && id == |t.nodes| && |t1.nodes| == |t.nodes| + 1 && t1.nodes[id] == Node(f, [], [])
            && t1.root == (if place.Root? then t.root.(children := t.root.children + [id]) else t.root)
            && forall i :: 0 <= i < |t.nodes| ==>
                 t1.nodes[i] == if place == At(i) then t.nodes[i].(children := t.nodes[i].children + [id])
                     else t.nodes[i]
  {
  }

  /** The walk before and after one step: only the node reached gets a hit. */
  lemma {:induction false} DescendShaped(t: Tree, paths: seq<seq<nat>>, place: Place, f: nat, t1: Tree, id: nat,
                                         paths1: seq<seq<nat>>)
    requires Shaped(t, paths) && IsPlace(t, place) && Closed(t)
    requires (t1, id) == Descend(t, place, f) && paths1 == PathsAfter(paths, PathAt(paths, place), f)
    ensures Shaped(t1, paths1) && id < |paths1| && paths1[id] == PathAt(paths, place) + [f]
    ensures OldHitsKept(t, t1)
  {
    DescendFinds(t, paths, place, f);
    if PathAt(paths, place) + [f] !in paths {
      DescendAppends(t, place, f);
      NewChildShaped(t, paths, place, f, t1);
    }
  }

  /** Hits of old nodes are kept, a new one has none. */
  ghost predicate OldHitsKept(t: Tree, t1: Tree) {
    && |t.nodes| <= |t1.nodes| <= |t.nodes| + 1
    && t1.root.hits == t.root.hits
    && (forall i :: 0 <= i < |t.nodes| ==> t1.nodes[i].hits == t.nodes[i].hits)
    && (|t1.nodes| > |t.nodes| ==> t1.nodes[|t.nodes|].hits == [])
  }

  lemma {:induction false} CountingKeepsShape(t: Tree, paths: seq<seq<nat>>, place: Place, source: nat)
    requires Shaped(t, paths) && IsPlace(t, place)
    ensures Shaped(CountTotal(t, place, source), paths) && Shaped(CountSelf(t, place, source), paths)
  {
    forall i | 0 <= i < |paths|
      ensures ListsChildren(CountTotal(t, place, source), paths, i)
      ensures ListsChildren(CountSelf(t, place, source), paths, i)
    {
      assert ListsChildren(t, paths, i);
    }
  }

  // ----- One sample --------------------------------------------------------------------

  lemma {:induction false} PrefixIsSlice(p: seq<nat>, ids: seq<nat>)
    requires p <= ids
    ensures ids[..|p|] == p
  {
  }

  lemma {:induction false} UnknownPathIsUncounted(paths: seq<seq<nat>>, log: seq<Stack>, s: nat, path: seq<nat>)
    requires Complete(paths, log) && path != [] && path !in paths
    ensures PrefixCount(log, s, path) == 0 && ExactCount(log, s, path) == 0
  {
    if log != [] {
      var last := log[|log| - 1];
      UnknownPathIsUncounted(paths, log[..|log| - 1], s, path);
      if path <= last.ids {
        PrefixIsSlice(path, last.ids);
      }
    }
  }

  lemma {:induction false} MorePathsComplete(paths: seq<seq<nat>>, more: seq<seq<nat>>, log: seq<Stack>)
    requires Complete(paths, log) && forall p :: p in paths ==> p in more
    ensures Complete(more, log)
  {
  }

  lemma {:induction false} LongerReach(path: seq<nat>, q: seq<nat>, f: nat)
    ensures path <= q + [f] <==> path <= q || path == q + [f]
  {
    if path <= q + [f] && |path| == |q| + 1 {
      assert path == (q + [f])[..|path|] == q + [f];
    }
    if path <= q + [f] && |path| <= |q| {
      assert path == (q + [f])[..|path|] == q[..|path|];
    }
    if path <= q {
      assert (q + [f])[..|path|] == q[..|path|] == path;
    }
  }

  lemma {:induction false} NodeStep(before: Node, after: Node, path: seq<nat>, log: seq<Stack>, source: nat,
                                    q: seq<nat>, f: nat)
    requires NodeCounts(before, path, log, source, q)
    requires after.hits == if path == q + [f] then AddTotal(before.hits, source) else before.hits
    ensures NodeCounts(after, path, log, source, q + [f])
  {
    LongerReach(path, q, f);
    forall s: nat
      ensures Total(after.hits, s) == PrefixCount(log, s, path) + (if s == source && path <= q + [f] then 1 else 0)
      ensures Self(after.hits, s) == ExactCount(log, s, path)
    {
      assert Total(before.hits, s) == PrefixCount(log, s, path) + (if s == source && path <= q then 1 else 0);
    }
  }

  lemma {:induction false} NewNodeCounts(paths: seq<seq<nat>>, log: seq<Stack>, path: seq<nat>, source: nat,
                                         q: seq<nat>, node: Node)
    requires Complete(paths, log) && path != [] && path !in paths && node.hits == [] && |path| > |q|
    ensures NodeCounts(node, path, log, source, q)
  {
    forall s: nat
      ensures Total(node.hits, s) == PrefixCount(log, s, path) + (if s == source && path <= q then 1 else 0)
      ensures Self(node.hits, s) == ExactCount(log, s, path)
    {
      UnknownPathIsUncounted(paths, log, s, path);
    }
  }

  lemma {:induction false} WalkStep(t: Tree, paths: seq<seq<nat>>, place: Place, log: seq<Stack>, source: nat,
                                    q: seq<nat>, f: nat, t2: Tree, id: nat)
    requires Walking(t, paths, log, source, q) && IsPlace(t, place) && PathAt(paths, place) == q && Closed(t)
    requires id == Descend(t, place, f).1 && t2 == CountTotal(Descend(t, place, f).0, At(id), source)
    ensures var paths1 := PathsAfter(paths, q, f);
            id < |paths1| && paths1[id] == q + [f] && Walking(t2, paths1, log, source, q + [f])
  {
    var t1 := Descend(t, place, f).0;
    var paths1 := PathsAfter(paths, q, f);
    DescendShaped(t, paths, place, f, t1, id, paths1);
    CountingKeepsShape(t1, paths1, At(id), source);
    MorePathsComplete(paths, paths1, log);
    ReachedPathsKnown(paths, paths1, q, f, id);
    StepCounts(t, t1, t2, paths, log, source, q, f, id);
  }

  lemma {:induction false} ReachedPathsKnown(paths: seq<seq<nat>>, paths1: seq<seq<nat>>, q: seq<nat>, f: nat, id: nat)
    requires paths <= paths1 && id < |paths1| && paths1[id] == q + [f]
    requires forall j :: 0 < j <= |q| ==> q[..j] in paths
    ensures forall j :: 0 < j <= |q + [f]| ==> (q + [f])[..j] in paths1
  {
    forall j | 0 < j <= |q + [f]| ensures (q + [f])[..j] in paths1 {
      if j <= |q| {
        assert (q + [f])[..j] == q[..j];
      } else {
        assert (q + [f])[..j] == q + [f];
      }
    }
  }

  lemma {:induction false} StepCounts(t: Tree, t1: Tree, t2: Tree, paths: seq<seq<nat>>, log: seq<Stack>, source: nat,
                                      q: seq<nat>, f: nat, id: nat)
    requires Walking(t, paths, log, source, q)
    requires Shaped(t1, PathsAfter(paths, q, f)) && id < |t1.nodes| && PathsAfter(paths, q, f)[id] == q + [f]
    requires t1.root.hits == t.root.hits && forall i :: 0 <= i < |paths| ==> t1.nodes[i].hits == t.nodes[i].hits
    requires |t1.nodes| > |paths| ==> t1.nodes[|paths|].hits == []
    requires t2 == CountTotal(t1, At(id), source)
    ensures NodeCounts(t2.root, [], log, source, q + [f])
    ensures forall i :: 0 <= i < |t1.nodes| ==>
            NodeCounts(t2.nodes[i], PathsAfter(paths, q, f)[i], log, source, q + [f])
  {
    var paths1 := PathsAfter(paths, q, f);
    NodeStep(t.root, t2.root, [], log, source, q, f);
    forall i | 0 <= i < |t1.nodes| ensures NodeCounts(t2.nodes[i], paths1[i], log, source, q + [f]) {
      assert paths1[i] == q + [f] <==> i == id;
      if i < |paths| {
        NodeStep(t.nodes[i], t2.nodes[i], paths[i], log, source, q, f);
      } else {
        NewNodeCounts(paths, log, q + [f], source, q, t1.nodes[i]);
        NodeStep(t1.nodes[i], t2.nodes[i], paths1[i], log, source, q, f);
      }
    }
  }

  lemma {:induction false} CountsWithOneMore(log: seq<Stack>, last: Stack, s: nat, path: seq<nat>)
    ensures PrefixCount(log + [last], s, path)
            == PrefixCount(log, s, path) + if last.source == s && path <= last.ids then 1 else 0
    ensures ExactCount(log + [last], s, path)
            == ExactCount(log, s, path) + if last.source == s && path == last.ids then 1 else 0
  {
    assert (log + [last])[..|log + [last]| - 1] == log;
  }

  lemma {:induction false} WalkEnd(t: Tree, paths: seq<seq<nat>>, place: Place, log: seq<Stack>, source: nat,
                                   ids: seq<nat>)
    requires Walking(t, paths, log, source, ids) && IsPlace(t, place) && PathAt(paths, place) == ids
    ensures Counts(CountSelf(t, place, source), paths, log + [Stack(source, ids)])
  {
    var t1 := CountSelf(t, place, source);
    var last := Stack(source, ids);
    CountingKeepsShape(t, paths, place, source);
    assert Complete(paths, log + [last]);
    forall s: nat
      ensures Total(t1.root.hits, s) == PrefixCount(log + [last], s, [])
      ensures Self(t1.root.hits, s) == ExactCount(log + [last], s, [])
    {
      CountsWithOneMore(log, last, s, []);
    }
    forall i, s: nat | 0 <= i < |paths|
      ensures Total(t1.nodes[i].hits, s) == PrefixCount(log + [last], s, paths[i])
      ensures Self(t1.nodes[i].hits, s) == ExactCount(log + [last], s, paths[i])
    {
      CountsWithOneMore(log, last, s, paths[i]);
      assert NodeCounts(t.nodes[i], paths[i], log, source, ids);
      assert paths[i] == ids <==> place == At(i);
    }
  }

  lemma {:induction false} AddFromCounts(t: Tree, paths: seq<seq<nat>>, place: Place, log: seq<Stack>, source: nat,
                                         reached: seq<nat>, ids: seq<nat>, whole: seq<nat>)
    returns (paths': seq<seq<nat>>)
    requires Walking(t, paths, log, source, reached) && IsPlace(t, place) && PathAt(paths, place) == reached
    requires Closed(t)
    requires whole == reached + ids
    ensures Counts(AddFrom(t, place, source, ids), paths', log + [Stack(source, whole)])
    decreases |ids|
  {
    if ids == [] {
      assert whole == reached;
      WalkEnd(t, paths, place, log, source, reached);
      paths' := paths;
    } else {
      var (t1, id) := Descend(t, place, ids[0]);
      var t2 := CountTotal(t1, At(id), source);
      WalkStep(t, paths, place, log, source, reached, ids[0], t2, id);
      var paths1 := PathsAfter(paths, reached, ids[0]);
      ShapedIsClosed(t2, paths1);
      SplitAtFirst(reached, ids);
      paths' := AddFromCounts(t2, paths1, At(id), log, source, reached + [ids[0]], ids[1..], whole);
    }
  }

  lemma {:induction false} SplitAtFirst(reached: seq<nat>, ids: seq<nat>)
    requires ids != []
    ensures reached + ids == (reached + [ids[0]]) + ids[1..]
  {
    assert ids == [ids[0]] + ids[1..];
  }

  /** Adding one stack keeps every counter equal to its count in the log. */
  lemma {:induction false} AddStackCounts(t: Tree, paths: seq<seq<nat>>, log: seq<Stack>, source: nat, ids: seq<nat>)
    returns (paths': seq<seq<nat>>)
    requires Counts(t, paths, log)
    ensures Closed(t) && Counts(AddStack(t, source, ids), paths', log + [Stack(source, ids)])
  {
    ShapedIsClosed(t, paths);
    var t1 := CountTotal(t, Root, source);
    CountingKeepsShape(t, paths, Root, source);
    forall i | 0 <= i < |paths| ensures NodeCounts(t1.nodes[i], paths[i], log, source, []) {
      assert !(paths[i] <= []);
    }
    assert NodeCounts(t1.root, [], log, source, []);
    ShapedIsClosed(t1, paths);
    assert ids == [] + ids;
    paths' := AddFromCounts(t1, paths, Root, log, source, [], ids, ids);
  }

  function AddAll(t: Tree, log: seq<Stack>): (r: Tree)
    requires Closed(t)
    ensures Closed(r)
  {
    if log == [] then t else AddStack(AddAll(t, log[..|log| - 1]), log[|log| - 1].source, log[|log| - 1].ids)
  }

  /** For every list of stacks: totals are prefix counts, selfs are exact counts, and no two nodes share a path. */
  lemma {:induction false} TreeCountsPrefixes(log: seq<Stack>) returns (paths: seq<seq<nat>>)
    ensures Counts(AddAll(EMPTY_TREE, log), paths, log)
  {
    if log == [] {
      paths := [];
    } else {
      var earlier := log[..|log| - 1];
      var last := log[|log| - 1];
      var before := TreeCountsPrefixes(earlier);
      paths := AddStackCounts(AddAll(EMPTY_TREE, earlier), before, earlier, last.source, last.ids);
      assert log == earlier + [Stack(last.source, last.ids)];
    }
  }

  ghost predicate HasHits(node: Node) {
    exists s: nat :: Total(node.hits, s) > 0
  }

  /** Every node was reached, and stands for a function below `known`. */
  ghost predicate Live(t: Tree, known: nat) {
    forall i :: 0 <= i < |t.nodes| ==> t.nodes[i].functionId < known && HasHits(t.nodes[i])
  }

  lemma {:induction false} StepLive(t: Tree, known: nat, place: Place, source: nat, f: nat, t1: Tree, id: nat)
    requires Live(t, known) && f < known && Closed(t) && IsPlace(t, place) && (t1, id) == Descend(t, place, f)
    ensures Live(CountTotal(t1, At(id), source), known)
  {
    var t2 := CountTotal(t1, At(id), source);
    forall i | 0 <= i < |t2.nodes| ensures t2.nodes[i].functionId < known && HasHits(t2.nodes[i]) {
      if i == id {
        assert Total(t2.nodes[i].hits, source) > 0;
      } else {
        assert i < |t.nodes| && t2.nodes[i].hits == t.nodes[i].hits;
        var s: nat :| Total(t.nodes[i].hits, s) > 0;
        assert Total(t2.nodes[i].hits, s) > 0;
      }
    }
  }

  lemma {:induction false} AddFromLive(t: Tree, known: nat, place: Place, source: nat, ids: seq<nat>)
    requires Live(t, known) && Closed(t) && IsPlace(t, place) && forall i :: 0 <= i < |ids| ==> ids[i] < known
    ensures Live(AddFrom(t, place, source, ids), known)
    decreases |ids|
  {
    if ids == [] {
      var t1 := CountSelf(t, place, source);
      forall i | 0 <= i < |t1.nodes| ensures t1.nodes[i].functionId < known && HasHits(t1.nodes[i]) {
        var s: nat :| Total(t.nodes[i].hits, s) > 0;
        assert Total(t1.nodes[i].hits, s) > 0;
      }
    } else {
      var (t1, id) := Descend(t, place, ids[0]);
      StepLive(t, known, place, source, ids[0], t1, id);
      AddFromLive(CountTotal(t1, At(id), source), known, At(id), source, ids[1..]);
    }
  }

  lemma {:induction false} AddAllLive(known: nat, log: seq<Stack>)
    requires forall k, i :: 0 <= k < |log| && 0 <= i < |log[k].ids| ==> log[k].ids[i] < known
    ensures Live(AddAll(EMPTY_TREE, log), known)
  {
    if log != [] {
      var earlier := log[..|log| - 1];
      var last := log[|log| - 1];
      AddAllLive(known, earlier);
      var t := CountTotal(AddAll(EMPTY_TREE, earlier), Root, last.source);
      forall i | 0 <= i < |last.ids| ensures last.ids[i] < known { assert last.ids[i] == log[|log| - 1].ids[i]; }
      AddFromLive(t, known, Root, last.source, last.ids);
    }
  }

  /** The functions on the path of a node are those of its ancestors. */
  lemma {:induction false} PathFunctionsKnown(t: Tree, paths: seq<seq<nat>>, known: nat, path: seq<nat>, k: nat)
    requires PathsFit(t, paths) && Live(t, known) && path in paths && k < |path|
    ensures path[k] < known
    decreases |path|
  {
    var i :| 0 <= i < |paths| && paths[i] == path;
    if k < |path| - 1 {
      PathFunctionsKnown(t, paths, known, path[..|path| - 1], k);
    }
  }

  // ----- Flow conservation -------------------------------------------------------------

  function SumTotals(t: Tree, children: seq<nat>, source: nat): nat
    requires ChildrenExist(t, children)
  {
    if children == [] then 0
    else SumTotals(t, children[..|children| - 1], source) + Total(t.nodes[children[|children| - 1]].hits, source)
  }

  function SumPrefixCounts(paths: seq<seq<nat>>, children: seq<nat>, log: seq<Stack>, source: nat): nat
    requires forall i :: 0 <= i < |children| ==> children[i] < |paths|
  {
    if children == [] then 0
    else SumPrefixCounts(paths, children[..|children| - 1], log, source)
         + PrefixCount(log, source, paths[children[|children| - 1]])
  }

  /** How many of the children lie on the way of one stack. */
  function Through(paths: seq<seq<nat>>, children: seq<nat>, ids: seq<nat>): nat
    requires forall i :: 0 <= i < |children| ==> children[i] < |paths|
  {
    if children == [] then 0
    else Through(paths, children[..|children| - 1], ids) + if paths[children[|children| - 1]] <= ids then 1 else 0
  }

  lemma {:induction false} SumWithOneMore(paths: seq<seq<nat>>, children: seq<nat>, log: seq<Stack>, last: Stack,
                                          source: nat)
    requires forall i :: 0 <= i < |children| ==> children[i] < |paths|
    ensures SumPrefixCounts(paths, children, log + [last], source)
         == SumPrefixCounts(paths, children, log, source)
            + if last.source == source then Through(paths, children, last.ids) else 0
  {
    if children != [] {
      SumWithOneMore(paths, children[..|children| - 1], log, last, source);
      CountsWithOneMore(log, last, source, paths[children[|children| - 1]]);
    }
  }

  lemma {:induction false} SumOfEmptyLog(paths: seq<seq<nat>>, children: seq<nat>, source: nat)
    requires forall i :: 0 <= i < |children| ==> children[i] < |paths|
    ensures SumPrefixCounts(paths, children, [], source) == 0
  {
    if children != [] {
      SumOfEmptyLog(paths, children[..|children| - 1], source);
    }
  }

  lemma {:induction false} ThroughNone(paths: seq<seq<nat>>, children: seq<nat>, ids: seq<nat>)
    requires forall i :: 0 <= i < |children| ==> children[i] < |paths| && !(paths[children[i]] <= ids)
    ensures Through(paths, children, ids) == 0
  {
    if children != [] {
      ThroughNone(paths, children[..|children| - 1], ids);
    }
  }

  lemma {:induction false} ThroughOne(paths: seq<seq<nat>>, children: seq<nat>, ids: seq<nat>, k: nat)
    requires k < |children| && forall i :: 0 <= i < |children| ==> children[i] < |paths|
    requires forall i :: 0 <= i < |children| ==> (paths[children[i]] <= ids <==> i == k)
    ensures Through(paths, children, ids) == 1
  {
    var front := children[..|children| - 1];
    if k == |children| - 1 {
      ThroughNone(paths, front, ids);
    } else {
      ThroughOne(paths, front, ids, k);
    }
  }

  /** A stack that has `p` as a prefix ends there or goes on through exactly one child. */
  lemma {:induction false} OneWayOn(t: Tree, paths: seq<seq<nat>>, place: Place, ids: seq<nat>)
    requires Shaped(t, paths) && IsPlace(t, place) && ChildrenExist(t, NodeAt(t, place).children)
    requires forall j :: 0 < j <= |ids| ==> ids[..j] in paths
    ensures var p := PathAt(paths, place);
            (if p <= ids then 1 else 0) == (if p == ids then 1 else 0) + Through(paths, NodeAt(t, place).children, ids)
  {
    var p := PathAt(paths, place);
    var children := NodeAt(t, place).children;
    ChildrenAt(t, paths, place);
    forall i | 0 <= i < |children| ensures ExtendsBy(paths, children[i], p) {
      assert children[i] in children;
    }
    if p <= ids && p != ids {
      NextNode(paths, p, ids, children);
    } else {
      forall i | 0 <= i < |children| ensures !(paths[children[i]] <= ids) {
        NotPast(paths[children[i]], p, ids);
      }
      ThroughNone(paths, children, ids);
    }
  }

  lemma {:induction false} NextNode(paths: seq<seq<nat>>, p: seq<nat>, ids: seq<nat>, children: seq<nat>)
    requires forall i :: 0 <= i < |children| ==> children[i] < |paths| && ExtendsBy(paths, children[i], p)
    requires ChildrenOf(paths, p, children) && p <= ids && p != ids && ids[..|p| + 1] in paths
    requires forall i, j :: 0 <= i < j < |paths| ==> paths[i] != paths[j]
    ensures Through(paths, children, ids) == 1
  {
    var next := ids[..|p| + 1];
    var c :| 0 <= c < |paths| && paths[c] == next;
    assert next[..|next| - 1] == ids[..|p|] == p;
    assert ExtendsBy(paths, c, p) && c in children;
    var k :| 0 <= k < |children| && children[k] == c;
    forall i | 0 <= i < |children| ensures paths[children[i]] <= ids <==> i == k {
      OnlyNext(paths[children[i]], p, ids);
    }
    ThroughOne(paths, children, ids, k);
  }

  lemma {:induction false} OnlyNext(path: seq<nat>, p: seq<nat>, ids: seq<nat>)
    requires path != [] && path[..|path| - 1] == p && p <= ids && p != ids
    ensures path <= ids <==> path == ids[..|p| + 1]
  {
    if path <= ids { PrefixIsSlice(path, ids); }
  }

  lemma {:induction false} NotPast(path: seq<nat>, p: seq<nat>, ids: seq<nat>)
    requires path != [] && path[..|path| - 1] == p && (!(p <= ids) || p == ids)
    ensures !(path <= ids)
  {
    if path <= ids {
      PrefixIsSlice(path, ids);
    }
  }

  lemma {:induction false} PrefixCountsConserved(t: Tree, paths: seq<seq<nat>>, place: Place, log: seq<Stack>,
                                                 source: nat)
    requires Shaped(t, paths) && IsPlace(t, place) && ChildrenExist(t, NodeAt(t, place).children)
    requires Complete(paths, log)
    ensures var p := PathAt(paths, place);
            PrefixCount(log, source, p)
                == ExactCount(log, source, p) + SumPrefixCounts(paths, NodeAt(t, place).children, log, source)
    decreases |log|
  {
    var children := NodeAt(t, place).children;
    if log == [] {
      SumOfEmptyLog(paths, children, source);
    } else {
      var earlier := log[..|log| - 1];
      var last := log[|log| - 1];
      assert log == earlier + [last];
      PrefixCountsConserved(t, paths, place, earlier, source);
      SumWithOneMore(paths, children, earlier, last, source);
      OneWayOn(t, paths, place, last.ids);
    }
  }

  lemma {:induction false} SumTotalsIsSumPrefixCounts(t: Tree, paths: seq<seq<nat>>, log: seq<Stack>,
                                                      children: seq<nat>, source: nat)
    requires Counts(t, paths, log) && ChildrenExist(t, children)
    ensures SumTotals(t, children, source) == SumPrefixCounts(paths, children, log, source)
  {
    if children != [] {
      SumTotalsIsSumPrefixCounts(t, paths, log, children[..|children| - 1], source);
    }
  }

  /** At the root and at every node, per source: total = self + the totals of the children. */
  lemma {:induction false} FlowIsConserved(t: Tree, paths: seq<seq<nat>>, log: seq<Stack>, place: Place, source: nat)
    requires Counts(t, paths, log) && IsPlace(t, place)
    ensures ChildrenExist(t, NodeAt(t, place).children)
    ensures Total(NodeAt(t, place).hits, source)
         == Self(NodeAt(t, place).hits, source) + SumTotals(t, NodeAt(t, place).children, source)
  {
    ShapedIsClosed(t, paths);
    PrefixCountsConserved(t, paths, place, log, source);
    SumTotalsIsSumPrefixCounts(t, paths, log, NodeAt(t, place).children, source);
  }

  /** Siblings stand for different functions. */
  lemma {:induction false} SiblingsDiffer(t: Tree, paths: seq<seq<nat>>, place: Place, c: nat, d: nat)
    requires Shaped(t, paths) && IsPlace(t, place) && c in NodeAt(t, place).children && d in NodeAt(t, place).children
    requires c != d
    ensures c < |t.nodes| && d < |t.nodes| && t.nodes[c].functionId != t.nodes[d].functionId
  {
    ChildrenAt(t, paths, place);
    ChildPath(t, paths, place, c);
    ChildPath(t, paths, place, d);
  }

  // ----- The hot path ------------------------------------------------------------------

  lemma {:induction false} ChildTotalAtMostSum(t: Tree, children: seq<nat>, source: nat, k: nat)
    requires ChildrenExist(t, children) && k < |children|
    ensures Total(t.nodes[children[k]].hits, source) <= SumTotals(t, children, source)
  {
    if k < |children| - 1 {
      ChildTotalAtMostSum(t, children[..|children| - 1], source, k);
    }
  }

  /** The first child with the most totals, if there is a child. */
  method TopChild(t: Tree, children: seq<nat>, source: nat) returns (top: Option<nat>)
    requires ChildrenExist(t, children)
    ensures top.None? <==> children == []
    ensures top.Some? ==>
              exists k :: 0 <= k < |children| && children[k] == top.value
                && (forall i :: 0 <= i < |children| ==>
                     Total(t.nodes[children[i]].hits, source) <= Total(t.nodes[top.value].hits, source))
                && (forall i :: 0 <= i < k ==>
                     Total(t.nodes[children[i]].hits, source) < Total(t.nodes[top.value].hits, source))
  {
    top := None;
    ghost var k := 0;
    for i := 0 to |children|
      invariant top.None? <==> i == 0
      invariant top.Some? ==> k < i && children[k] == top.value && top.value < |t.nodes|
      invariant top.Some? ==> forall j :: 0 <= j < i ==>
                Total(t.nodes[children[j]].hits, source) <= Total(t.nodes[top.value].hits, source)
      invariant top.Some? ==> forall j :: 0 <= j < k ==>
                Total(t.nodes[children[j]].hits, source) < Total(t.nodes[top.value].hits, source)
    {
      if top.None? || Total(t.nodes[children[i]].hits, source) > Total(t.nodes[top.value].hits, source) {
        top := Some(children[i]);
        k := i;
      }
    }
  }

  ghost predicate IsTop(t: Tree, children: seq<nat>, source: nat, top: nat)
    requires ChildrenExist(t, children)
  {
    && top in children && top < |t.nodes|
    && forall c :: c in children ==> c < |t.nodes| && Total(t.nodes[c].hits, source) <= Total(t.nodes[top].hits, source)
  }

  function PlaceOf(visited: seq<nat>): Place {
    if visited == [] then Root else At(visited[|visited| - 1])
  }

  /** One step of the walk is right: the next node is a top child that outweighs what ended at its parent. */
  ghost predicate HotStep(t: Tree, source: nat, place: Place, next: nat)
    requires Closed(t) && IsPlace(t, place)
  {
    && IsTop(t, NodeAt(t, place).children, source, next)
    && Total(t.nodes[next].hits, source) > Self(NodeAt(t, place).hits, source)
  }

  /** A walk down from the root along hot steps, with increasing node ids and totals that do not increase. */
  ghost predicate IsHotPath(t: Tree, source: nat, visited: seq<nat>)
    requires Closed(t)
  {
    visited == [] ||
    var before := visited[..|visited| - 1];
    var last := visited[|visited| - 1];
    && IsHotPath(t, source, before) && last < |t.nodes|
    && IsPlace(t, PlaceOf(before)) && HotStep(t, source, PlaceOf(before), last)
    && (before != [] ==> before[|before| - 1] < last)
    && Total(t.nodes[last].hits, source) <= Total(NodeAt(t, PlaceOf(before)).hits, source)
  }

  /** Every step of a hot path goes to a child that no sibling outweighs, and that has more hits than end in the node
      itself. */
  lemma {:induction false} HotPathOutweighs(t: Tree, source: nat, visited: seq<nat>, k: nat)
    requires Closed(t) && IsHotPath(t, source, visited) && k < |visited|
    ensures IsPlace(t, PlaceOf(visited[..k])) && visited[k] < |t.nodes|
    ensures var node := NodeAt(t, PlaceOf(visited[..k]));
            && visited[k] in node.children
            && (forall c :: c in node.children ==>
                  c < |t.nodes| && Total(t.nodes[c].hits, source) <= Total(t.nodes[visited[k]].hits, source))
            && Total(t.nodes[visited[k]].hits, source) > Self(node.hits, source)
    decreases |visited|
  {
    if k < |visited| - 1 {
      HotPathOutweighs(t, source, visited[..|visited| - 1], k);
      assert visited[..|visited| - 1][..k] == visited[..k];
    }
  }

  /** Follows the top child from the root while it outweighs the node's self hits. Node ids increase, so the
      walk ends, and it ends where no child outweighs the self hits. */
  method HotPath(t: Tree, source: nat, ghost paths: seq<seq<nat>>, ghost log: seq<Stack>) returns (visited: seq<nat>)
    requires Counts(t, paths, log)
    ensures Closed(t) && IsHotPath(t, source, visited) && IsPlace(t, PlaceOf(visited))
    ensures forall c :: c in NodeAt(t, PlaceOf(visited)).children ==>
              c < |t.nodes| && Total(t.nodes[c].hits, source) <= Self(NodeAt(t, PlaceOf(visited)).hits, source)
  {
    ShapedIsClosed(t, paths);
    visited := [];
    var place := Root;
    while true
      invariant place == PlaceOf(visited) && IsPlace(t, place) && IsHotPath(t, source, visited)
      decreases if place.Root? then |t.nodes| + 1 else |t.nodes| - place.id
    {
      var node := NodeAt(t, place);
      assert ChildrenExist(t, node.children);
      var top := TopChild(t, node.children, source);
      if top.None? || Total(t.nodes[top.value].hits, source) <= Self(node.hits, source) {
        forall c | c in node.children
          ensures c < |t.nodes| && Total(t.nodes[c].hits, source) <= Self(node.hits, source)
        {
          var i :| 0 <= i < |node.children| && node.children[i] == c;
        }
        return;
      }
      HotStepFacts(t, paths, log, place, source, top.value);
      assert IsTop(t, node.children, source, top.value);
      assert (visited + [top.value])[..|visited|] == visited;
      visited := visited + [top.value];
      place := At(top.value);
    }
  }

  lemma {:induction false} HotStepFacts(t: Tree, paths: seq<seq<nat>>, log: seq<Stack>, place: Place, source: nat,
                                        top: nat)
    requires Counts(t, paths, log) && IsPlace(t, place) && ChildrenExist(t, NodeAt(t, place).children)
    requires top in NodeAt(t, place).children
    ensures top < |t.nodes| && (place.At? ==> place.id < top)
    ensures Total(t.nodes[top].hits, source) <= Total(NodeAt(t, place).hits, source)
  {
    var children := NodeAt(t, place).children;
    var k :| 0 <= k < |children| && children[k] == top;
    FlowIsConserved(t, paths, log, place, source);
    ChildTotalAtMostSum(t, children, source, k);
    if place.At? { assert ListsChildren(t, paths, place.id); }
  }
}
