// The replicated growable array: room messages hang below the message they
// were inserted after, and the array is a depth-first walk of that forest.
// Reference order: sort all root-to-node id paths lexicographically.
module Rga {
  import opened Wrappers
  import opened Order

  type Id = string
  type Path = seq<Id>

  // The bucket key that stands for "no predecessor".
  const HEAD: Id := "\U{0000}head"

  datatype Node = Node(id: Id, origin: Option<Id>, value: string, tombstoned: bool)
  type Nodes = map<Id, Node>

  datatype Item = Item(id: Id, value: string, index: nat)

  ghost predicate Keyed(nodes: Nodes) {
    forall id :: id in nodes ==> nodes[id].id == id
  }

  function Anchor(node: Node): Id {
    if node.origin.Some? then node.origin.value else HEAD
  }

  // ------------------------------------------------------- state transitions

  function Insert(nodes: Nodes, id: Id, origin: Option<Id>, value: string, tombstoned: bool): Nodes {
    if id in nodes then nodes[id := nodes[id].(tombstoned := nodes[id].tombstoned || tombstoned)]
    else nodes[id := Node(id, origin, value, tombstoned)]
  }

  function Remove(nodes: Nodes, id: Id): Nodes {
    if id in nodes then nodes[id := nodes[id].(tombstoned := true)] else nodes
  }

  function Merge(mine: Nodes, theirs: Nodes): Nodes {
    map id | id in mine.Keys + theirs.Keys ::
      if id !in theirs then mine[id]
      else if id !in mine then theirs[id]
      else mine[id].(tombstoned := mine[id].tombstoned || theirs[id].tombstoned)
  }

  // -------------------------------------------------------- root-to-node paths

  predicate PathLess(p: Path, q: Path) { LexLess(StringLess, p, q) }

  lemma PathOrder()
    ensures StrictTotalOrder(StringLess) && StrictTotalOrder(PathLess)
  {
    StringOrder();
    LexOrder(StringLess, PathLess);
  }

  lemma PathTransitive(p: Path, q: Path, r: Path)
    requires PathLess(p, q) && PathLess(q, r)
    ensures PathLess(p, r)
  {
    PathOrder();
  }

  lemma PrefixIsLess(p: Path, q: Path)
    requires p < q
    ensures PathLess(p, q)
  {
    LexCases(StringLess, p, q);
  }

  // The node a path leads to; the empty path stays at the virtual head.
  function Last(p: Path): Id {
    if p == [] then HEAD else p[|p| - 1]
  }

  function Ends(ps: seq<Path>): (ids: seq<Id>)
    ensures |ids| == |ps|
  {
    seq(|ps|, i requires 0 <= i < |ps| => Last(ps[i]))
  }

  ghost predicate IsPath(nodes: Nodes, p: Path) {
    && p != []
    && (forall i :: 0 <= i < |p| ==> p[i] in nodes)
    && Anchor(nodes[p[0]]) == HEAD
    && (forall i :: 0 < i < |p| ==> Anchor(nodes[p[i]]) == p[i - 1])
  }

  ghost predicate Attached(nodes: Nodes, id: Id) {
    exists p :: IsPath(nodes, p) && Last(p) == id
  }

  // The head key is not itself a node hanging below the head.
  ghost predicate Rooted(nodes: Nodes) {
    !Attached(nodes, HEAD)
  }

  lemma {:induction false} PathUnique(nodes: Nodes, p: Path, q: Path)
    requires Rooted(nodes)
    requires IsPath(nodes, p) && IsPath(nodes, q) && Last(p) == Last(q)
    ensures p == q
    decreases |p|
  {
    var p', q' := p[..|p| - 1], q[..|q| - 1];
    assert |p| > 1 ==> IsPath(nodes, p') && Last(p') == Anchor(nodes[Last(p)]);
    assert |q| > 1 ==> IsPath(nodes, q') && Last(q') == Anchor(nodes[Last(q)]);
    assert |p| == 1 ==> Anchor(nodes[Last(p)]) == HEAD;
    assert |q| == 1 ==> Anchor(nodes[Last(q)]) == HEAD;
    if |p| > 1 && |q| > 1 {
      PathUnique(nodes, p', q');
    }
    assert p == p' + [Last(p)] && q == q' + [Last(q)];
  }

  ghost function PathTo(nodes: Nodes, id: Id): (p: Path)
    requires Attached(nodes, id)
    ensures IsPath(nodes, p) && Last(p) == id
  {
    var p :| IsPath(nodes, p) && Last(p) == id;
    p
  }

  ghost function AllPaths(nodes: Nodes): set<Path> {
    set id | id in nodes && Attached(nodes, id) :: PathTo(nodes, id)
  }

  lemma AllPathsExact(nodes: Nodes)
    requires Rooted(nodes)
    ensures forall p :: p in AllPaths(nodes) <==> IsPath(nodes, p)
  {
    forall p | IsPath(nodes, p) ensures p in AllPaths(nodes) {
      assert Attached(nodes, Last(p));
      PathUnique(nodes, p, PathTo(nodes, Last(p)));
    }
  }

  // ----------------------------------------------------------- reference order

  ghost function SortPaths(paths: set<Path>): (s: seq<Path>)
    ensures Sorted(PathLess, s) && Enumerates(s, paths)
  {
    PathOrder();
    SortSet(PathLess, paths)
  }

  lemma SortPathsAppend(low: set<Path>, high: set<Path>)
    requires forall p, q :: p in low && q in high ==> PathLess(p, q)
    ensures SortPaths(low + high) == SortPaths(low) + SortPaths(high)
  {
    PathOrder();
    SortSetAppend(PathLess, low, high);
  }

  lemma SortPathsSmall(p: Path)
    ensures SortPaths({}) == [] && SortPaths({p}) == [p]
  {
    PathOrder();
    EmptyIfNoElement(SortPaths({}));
    SortedUnique(PathLess, SortPaths({p}), [p]);
  }

  // Every attached node, by the lexicographic order of its path from the root.
  ghost function Traversal(nodes: Nodes): seq<Path> {
    SortPaths(AllPaths(nodes))
  }

  ghost function VisiblePaths(nodes: Nodes): set<Path> {
    set p | p in AllPaths(nodes) && !nodes[Last(p)].tombstoned
  }

  lemma VisiblePathsExact(nodes: Nodes, p: Path)
    requires Rooted(nodes)
    ensures p in VisiblePaths(nodes) <==> IsPath(nodes, p) && !nodes[Last(p)].tombstoned
  {
    AllPathsExact(nodes);
  }

  ghost function Visible(nodes: Nodes): seq<Path> {
    SortPaths(VisiblePaths(nodes))
  }

  lemma VisibleInNodes(nodes: Nodes)
    ensures forall p :: p in Visible(nodes) ==> Last(p) in nodes
  {
  }

  ghost function NodesAt(nodes: Nodes, ps: seq<Path>): (ns: seq<Node>)
    requires forall p :: p in ps ==> Last(p) in nodes
    ensures |ns| == |ps|
  {
    seq(|ps|, i requires 0 <= i < |ps| => assert ps[i] in ps; nodes[Last(ps[i])])
  }

  function ItemsOf(ns: seq<Node>): (items: seq<Item>)
    ensures |items| == |ns|
  {
    seq(|ns|, i requires 0 <= i < |ns| => Item(ns[i].id, ns[i].value, i))
  }

  // What toArray() is to return.
  ghost function Array(nodes: Nodes): seq<Item> {
    ItemsOf(NodesAt(nodes, Visible(nodes)))
  }

  lemma ArrayAt(nodes: Nodes)
    requires Keyed(nodes)
    ensures |Array(nodes)| == |Visible(nodes)|
    ensures forall i :: 0 <= i < |Visible(nodes)| ==>
      var id := Last(Visible(nodes)[i]);
      id in nodes && Array(nodes)[i] == Item(id, nodes[id].value, i)
  {
    hide Visible;
    VisibleInNodes(nodes);
    forall i | 0 <= i < |Visible(nodes)| ensures Last(Visible(nodes)[i]) in nodes {
      assert Visible(nodes)[i] in Visible(nodes);
    }
  }

  lemma InVisible(nodes: Nodes, p: Path)
    requires Rooted(nodes)
    ensures p in Visible(nodes) <==> IsPath(nodes, p) && !nodes[Last(p)].tombstoned
  {
    PathOrder();
    VisiblePathsExact(nodes, p);
    hide VisiblePaths, Rooted, IsPath;
  }

  lemma AttachedIn(nodes: Nodes, id: Id)
    ensures Attached(nodes, id) ==> id in nodes
  {
  }

  // A node is in the array exactly when it is attached and not removed.
  lemma ShownIff(nodes: Nodes, id: Id)
    requires Rooted(nodes) && Keyed(nodes)
    ensures (exists x <- Array(nodes) :: x.id == id) <==> Attached(nodes, id) && !nodes[id].tombstoned
    ensures forall x <- Array(nodes) :: x.id in nodes && x.value == nodes[x.id].value
  {
    AttachedIn(nodes, id);
    hide Visible, Rooted, Array, Keyed, IsPath, AllPaths;
    ArrayAt(nodes);
    if x :| x in Array(nodes) && x.id == id {
      var i :| 0 <= i < |Array(nodes)| && Array(nodes)[i] == x;
      InVisible(nodes, Visible(nodes)[i]);
    }
    if Attached(nodes, id) && !nodes[id].tombstoned {
      var p :| IsPath(nodes, p) && Last(p) == id;
      InVisible(nodes, p);
      var i :| 0 <= i < |Visible(nodes)| && Visible(nodes)[i] == p;
      assert Array(nodes)[i].id == id;
    }
  }

  lemma VisibleFiltersTraversal(nodes: Nodes)
    ensures Filter((p: Path) => Last(p) in nodes && !nodes[Last(p)].tombstoned, Traversal(nodes)) == Visible(nodes)
  {
    PathOrder();
    FilterOfSortSet(PathLess, VisiblePaths(nodes), AllPaths(nodes),
      (p: Path) => Last(p) in nodes && !nodes[Last(p)].tombstoned);
  }

  // Filtering the yielded nodes is filtering their paths.
  lemma {:induction false} FilterNodes(nodes: Nodes, ps: seq<Path>)
    requires forall p :: p in ps ==> Last(p) in nodes
    ensures Filter((n: Node) => !n.tombstoned, NodesAt(nodes, ps))
         == NodesAt(nodes, Filter((p: Path) => Last(p) in nodes && !nodes[Last(p)].tombstoned, ps))
  {
    if ps != [] {
      assert ps[0] in ps;
      assert NodesAt(nodes, ps)[1..] == NodesAt(nodes, ps[1..]);
      FilterNodes(nodes, ps[1..]);
    }
  }

  // ------------------------------------------------------ the stack-driven walk

  ghost function ChildIds(nodes: Nodes, key: Id): set<Id> {
    set id | id in nodes && Anchor(nodes[id]) == key
  }

  function Below(p: Path, kids: seq<Id>): (ps: seq<Path>)
    ensures |ps| == |kids|
  {
    seq(|kids|, i requires 0 <= i < |kids| => p + [kids[i]])
  }

  ghost predicate OnlyPaths(nodes: Nodes, ps: seq<Path>) {
    forall p :: p in ps ==> IsPath(nodes, p)
  }

  ghost predicate Antichain(todo: seq<Path>) {
    forall i, j :: 0 <= i < j < |todo| ==> Branches(StringLess, todo[i], todo[j])
  }

  ghost predicate AllBefore(done: seq<Path>, todo: seq<Path>) {
    forall p, q :: p in done && q in todo ==> PathLess(p, q)
  }

  ghost predicate Covers(nodes: Nodes, done: seq<Path>, todo: seq<Path>) {
    forall p :: IsPath(nodes, p) ==> p in done || exists q :: q in todo && q <= p
  }

  // `done` is yielded already; `todo` is the stack, top first.
  ghost predicate Frontier(nodes: Nodes, done: seq<Path>, todo: seq<Path>) {
    && Sorted(PathLess, done)
    && OnlyPaths(nodes, done)
    && OnlyPaths(nodes, todo)
    && Antichain(todo)
    && AllBefore(done, todo)
    && Covers(nodes, done, todo)
  }

  ghost predicate SortedChildren(nodes: Nodes, key: Id, kids: seq<Id>) {
    Sorted(StringLess, kids) && Enumerates(kids, ChildIds(nodes, key))
  }

  lemma FrontierStart(nodes: Nodes, kids: seq<Id>)
    requires SortedChildren(nodes, HEAD, kids)
    ensures Frontier(nodes, [], Below([], kids))
  {
    var todo := Below([], kids);
    forall p | p in todo ensures IsPath(nodes, p) {
      var i :| 0 <= i < |kids| && todo[i] == p;
      assert kids[i] in kids;
    }
    forall p | IsPath(nodes, p) ensures exists q :: q in todo && q <= p {
      assert p[0] in kids;
      var i :| 0 <= i < |kids| && kids[i] == p[0];
      assert todo[i] in todo && todo[i] <= p;
    }
    forall i, j | 0 <= i < j < |todo| ensures Branches(StringLess, todo[i], todo[j]) {
      assert todo[i][..0] == todo[j][..0] && StringLess(todo[i][0], todo[j][0]);
    }
  }

  lemma FrontierStep(nodes: Nodes, done: seq<Path>, top: Path, rest: seq<Path>, kids: seq<Id>)
    requires Frontier(nodes, done, [top] + rest)
    requires top != [] && SortedChildren(nodes, Last(top), kids)
    ensures Frontier(nodes, done + [top], Below(top, kids) + rest)
  {
    var todo := [top] + rest;
    assert top in todo;
    assert forall q :: q in rest ==> q in todo;
    StepOrders(nodes, done, top, rest, kids);
    StepCovers(nodes, done, top, rest, kids);
    BelowIsPaths(nodes, top, kids);
    BelowBranches(top, kids, rest);
  }

  lemma BelowIsPaths(nodes: Nodes, top: Path, kids: seq<Id>)
    requires IsPath(nodes, top) && SortedChildren(nodes, Last(top), kids)
    ensures OnlyPaths(nodes, Below(top, kids))
  {
    forall i | 0 <= i < |kids| ensures IsPath(nodes, top + [kids[i]]) {
      assert kids[i] in kids;
    }
  }

  lemma StepOrders(nodes: Nodes, done: seq<Path>, top: Path, rest: seq<Path>, kids: seq<Id>)
    requires Antichain([top] + rest) && AllBefore(done, [top] + rest) && Sorted(PathLess, done)
    ensures Sorted(PathLess, done + [top])
    ensures AllBefore(done + [top], Below(top, kids) + rest)
  {
    PathOrder();
    var todo := [top] + rest;
    forall q | q in Below(top, kids) + rest ensures PathLess(top, q) {
      LexCases(StringLess, top, q);
      if q in rest {
        var i :| 0 <= i < |rest| && rest[i] == q;
        assert Branches(StringLess, todo[0], todo[i + 1]);
      }
    }
    assert top in todo;
    forall i | 0 <= i < |done| ensures PathLess(done[i], top) {
      assert done[i] in done;
    }
  }

  lemma StepCovers(nodes: Nodes, done: seq<Path>, top: Path, rest: seq<Path>, kids: seq<Id>)
    requires Covers(nodes, done, [top] + rest)
    requires top != [] && SortedChildren(nodes, Last(top), kids)
    ensures Covers(nodes, done + [top], Below(top, kids) + rest)
  {
    var next := Below(top, kids) + rest;
    forall p | IsPath(nodes, p) && p !in done + [top] ensures exists q :: q in next && q <= p {
      assert p !in done && p != top;
      var q :| q in [top] + rest && q <= p;
      if q == top {
        var c := p[|top|];
        assert c in kids;
        var i :| 0 <= i < |kids| && kids[i] == c;
        assert p[..|top| + 1] == top + [c];
        assert next[i] == top + [c] && next[i] in next;
      } else {
        assert q in next;
      }
    }
  }

  lemma BelowBranches(top: Path, kids: seq<Id>, rest: seq<Path>)
    requires Sorted(StringLess, kids) && Antichain([top] + rest)
    ensures Antichain(Below(top, kids) + rest)
  {
    var todo, next := [top] + rest, Below(top, kids) + rest;
    forall i, j | 0 <= i < j < |next| ensures Branches(StringLess, next[i], next[j]) {
      if j < |kids| {
        assert next[i][..|top|] == top == next[j][..|top|];
        assert StringLess(next[i][|top|], next[j][|top|]);
      } else if i < |kids| {
        assert Branches(StringLess, todo[0], todo[j - |kids| + 1]);
        BranchesExtend(StringLess, top, next[j], [kids[i]], []);
        assert next[j] + [] == next[j];
      } else {
        assert Branches(StringLess, todo[i - |kids| + 1], todo[j - |kids| + 1]);
      }
    }
  }

  ghost function Pending(nodes: Nodes, done: seq<Path>): set<Path> {
    AllPaths(nodes) - (set p | p in done)
  }

  lemma FrontierTop(nodes: Nodes, done: seq<Path>, todo: seq<Path>)
    requires Rooted(nodes) && Frontier(nodes, done, todo) && todo != []
    ensures todo[0] != []
    ensures Pending(nodes, done + [todo[0]]) < Pending(nodes, done)
  {
    PathOrder();
    AllPathsExact(nodes);
    assert todo[0] in todo;
    assert todo[0] in Pending(nodes, done) && todo[0] !in Pending(nodes, done + [todo[0]]);
  }

  // An empty stack has yielded exactly the reference order.
  lemma FrontierDone(nodes: Nodes, done: seq<Path>)
    requires Rooted(nodes) && Frontier(nodes, done, [])
    ensures done == Traversal(nodes)
  {
    PathOrder();
    AllPathsExact(nodes);
    SortedUnique(PathLess, done, Traversal(nodes));
  }

  // ---------------------------------------------------------------- stability

  // `after` holds every node of `before`, at the same place and with the same text, and none that
  // was removed is back.
  ghost predicate Grows(before: Nodes, after: Nodes) {
    forall id :: id in before ==>
      && id in after && after[id].origin == before[id].origin && after[id].value == before[id].value
      && (before[id].tombstoned ==> after[id].tombstoned)
  }

  lemma InsertGrows(nodes: Nodes, id: Id, origin: Option<Id>, value: string, tombstoned: bool)
    ensures Grows(nodes, Insert(nodes, id, origin, value, tombstoned))
    ensures id in Insert(nodes, id, origin, value, tombstoned)
    ensures forall k :: k in Insert(nodes, id, origin, value, tombstoned) && k !in nodes ==>
      k == id && Insert(nodes, id, origin, value, tombstoned)[k] == Node(id, origin, value, tombstoned)
  {
  }

  // Only the node removed is affected.
  lemma RemoveGrows(nodes: Nodes, id: Id)
    ensures Grows(nodes, Remove(nodes, id)) && Remove(nodes, id).Keys == nodes.Keys
    ensures forall k :: k in nodes ==>
      (Remove(nodes, id)[k].tombstoned <==> nodes[k].tombstoned || k == id)
  {
  }

  lemma MergeGrows(mine: Nodes, theirs: Nodes)
    ensures Grows(mine, Merge(mine, theirs))
  {
  }

  // Growing never reorders two attached nodes.
  lemma TraversalStable(before: Nodes, after: Nodes)
    requires Grows(before, after) && Rooted(after)
    ensures Rooted(before)
    ensures Filter((p: Path) => p in AllPaths(before), Traversal(after)) == Traversal(before)
  {
    forall p | IsPath(before, p) ensures IsPath(after, p) {
    }
    AllPathsExact(before);
    AllPathsExact(after);
    PathOrder();
    FilterOfSortSet(PathLess, AllPaths(before), AllPaths(after), (p: Path) => p in AllPaths(before));
  }

  // ------------------------------------------------------- appending at the end

  ghost function LastVisible(nodes: Nodes): (last: Option<Id>)
    requires Rooted(nodes)
    ensures last.Some? ==> last.value in nodes && !nodes[last.value].tombstoned
  {
    AllPathsExact(nodes);
    var v := Visible(nodes);
    if v == [] then None else (assert v[|v| - 1] in v; Some(Last(v[|v| - 1])))
  }

  ghost function ExtensionsOf(nodes: Nodes, p: Path): set<Path> {
    set q | q in VisiblePaths(nodes) && p < q
  }

  ghost function EndPath(nodes: Nodes, id: Id): Path {
    var v := Visible(nodes);
    (if v == [] then [] else v[|v| - 1]) + [id]
  }

  lemma EndIsPath(nodes: Nodes, id: Id, value: string)
    requires Rooted(nodes) && id !in nodes
    ensures IsPath(Insert(nodes, id, LastVisible(nodes), value, false), EndPath(nodes, id))
  {
    var v := Visible(nodes);
    if v != [] {
      assert v[|v| - 1] in v;
      AllPathsExact(nodes);
      hide Visible, Rooted;
      PathExtends(nodes, v[|v| - 1], id, value);
    }
  }

  lemma PathExtends(nodes: Nodes, p: Path, id: Id, value: string)
    requires IsPath(nodes, p) && id !in nodes
    ensures IsPath(Insert(nodes, id, Some(Last(p)), value, false), p + [id])
  {
  }

  // A path of the grown forest is an old one or runs through the new node.
  lemma NewPaths(nodes: Nodes, id: Id, value: string, p: Path)
    requires Rooted(nodes) && id !in nodes
    requires Rooted(Insert(nodes, id, LastVisible(nodes), value, false))
    requires IsPath(Insert(nodes, id, LastVisible(nodes), value, false), p)
    ensures IsPath(nodes, p) || EndPath(nodes, id) <= p
  {
    var after := Insert(nodes, id, LastVisible(nodes), value, false);
    EndIsPath(nodes, id, value);
    EndEnds(nodes, id);
    hide EndPath, Rooted, LastVisible;
    if id in p {
      var k :| 0 <= k < |p| && p[k] == id;
      PathPrefix(after, p, k);
      hide IsPath, Insert;
      PathUnique(after, p[..k + 1], EndPath(nodes, id));
    } else {
      PathWithout(nodes, after, id, p);
    }
  }

  lemma PathPrefix(nodes: Nodes, p: Path, k: nat)
    requires IsPath(nodes, p) && k < |p|
    ensures IsPath(nodes, p[..k + 1]) && Last(p[..k + 1]) == p[k]
  {
  }

  lemma PathWithout(nodes: Nodes, after: Nodes, id: Id, p: Path)
    requires IsPath(after, p) && id !in p && id in after && after == nodes[id := after[id]]
    ensures IsPath(nodes, p)
  {
    assert forall i :: 0 <= i < |p| ==> p[i] in p;
  }

  lemma EndEnds(nodes: Nodes, id: Id)
    ensures Last(EndPath(nodes, id)) == id
  {
  }

  // A default broadcast appends: the old array comes first, unchanged, then the
  // new message, then only messages that were already waiting below its id.
  lemma BroadcastAppends(nodes: Nodes, id: Id, value: string)
    requires Rooted(nodes) && id !in nodes
    requires Rooted(Insert(nodes, id, LastVisible(nodes), value, false))
    ensures
      var after := Insert(nodes, id, LastVisible(nodes), value, false);
      Visible(after) == Visible(nodes) + [EndPath(nodes, id)] + SortPaths(ExtensionsOf(after, EndPath(nodes, id)))
  {
    var after, end := Insert(nodes, id, LastVisible(nodes), value, false), EndPath(nodes, id);
    var prior, tail := VisiblePaths(nodes), ExtensionsOf(after, end);
    NewVisiblePaths(nodes, id, value);
    forall p | p in prior ensures PathLess(p, end) {
      EndIsLast(nodes, id, p);
    }
    forall q | q in tail ensures PathLess(end, q) {
      PrefixIsLess(end, q);
    }
    forall p, q | p in prior && q in tail ensures PathLess(p, q) {
      PathTransitive(p, end, q);
    }
    SortPathsAppend(prior + {end}, tail);
    SortPathsAppend(prior, {end});
    SortPathsSmall(end);
  }

  lemma NewVisiblePaths(nodes: Nodes, id: Id, value: string)
    requires Rooted(nodes) && id !in nodes
    requires Rooted(Insert(nodes, id, LastVisible(nodes), value, false))
    ensures
      var after, end := Insert(nodes, id, LastVisible(nodes), value, false), EndPath(nodes, id);
      VisiblePaths(after) == (VisiblePaths(nodes) + {end}) + ExtensionsOf(after, end)
  {
    hide *;
    var after, end := Insert(nodes, id, LastVisible(nodes), value, false), EndPath(nodes, id);
    forall p ensures p in VisiblePaths(after) <==> p in (VisiblePaths(nodes) + {end}) + ExtensionsOf(after, end) {
      NewVisiblePath(nodes, id, value, p);
    }
  }

  lemma NewVisiblePath(nodes: Nodes, id: Id, value: string, p: Path)
    requires Rooted(nodes) && id !in nodes
    requires Rooted(Insert(nodes, id, LastVisible(nodes), value, false))
    ensures
      var after, end := Insert(nodes, id, LastVisible(nodes), value, false), EndPath(nodes, id);
      p in VisiblePaths(after) <==> p in (VisiblePaths(nodes) + {end}) + ExtensionsOf(after, end)
  {
    hide LastVisible, EndPath, Rooted, VisiblePaths;
    var after, end := Insert(nodes, id, LastVisible(nodes), value, false), EndPath(nodes, id);
    EndIsPath(nodes, id, value);
    EndEnds(nodes, id);
    VisiblePathsExact(nodes, p);
    VisiblePathsExact(after, p);
    if IsPath(nodes, p) {
      assert p[|p| - 1] in nodes;
      assert IsPath(after, p);
    } else if IsPath(after, p) {
      NewPaths(nodes, id, value, p);
      assert p == end || end < p;
    }
  }

  lemma EndIsLast(nodes: Nodes, id: Id, p: Path)
    requires p in VisiblePaths(nodes)
    ensures PathLess(p, EndPath(nodes, id))
  {
    var v := Visible(nodes);
    assert p in v;
    var i :| 0 <= i < |v| && v[i] == p;
    PrefixIsLess(v[|v| - 1], EndPath(nodes, id));
    if i < |v| - 1 {
      PathTransitive(v[i], v[|v| - 1], EndPath(nodes, id));
    }
  }

  // With nothing waiting on the id, the array is exactly the old one plus one.
  lemma BroadcastIsAppend(nodes: Nodes, id: Id, value: string)
    requires Rooted(nodes) && Keyed(nodes) && id !in nodes && id != HEAD
    requires forall m :: m in nodes ==> nodes[m].origin != Some(id)
    ensures
      var after := Insert(nodes, id, LastVisible(nodes), value, false);
      && Rooted(after)
      && Visible(after) == Visible(nodes) + [EndPath(nodes, id)]
      && Array(after) == Array(nodes) + [Item(id, value, |Array(nodes)|)]
  {
    hide Rooted, Visible, LastVisible, EndPath, ExtensionsOf, SortPaths, Array;
    var after, end := Insert(nodes, id, LastVisible(nodes), value, false), EndPath(nodes, id);
    NothingBelowEnd(nodes, id, value);
    BroadcastAppends(nodes, id, value);
    SortPathsSmall(end);
    EndEnds(nodes, id);
    ArrayAppends(nodes, after, end);
  }

  lemma NothingBelowEnd(nodes: Nodes, id: Id, value: string)
    requires Rooted(nodes) && id !in nodes && id != HEAD
    requires forall m :: m in nodes ==> nodes[m].origin != Some(id)
    ensures
      var after := Insert(nodes, id, LastVisible(nodes), value, false);
      Rooted(after) && ExtensionsOf(after, EndPath(nodes, id)) == {}
  {
    var after, end := Insert(nodes, id, LastVisible(nodes), value, false), EndPath(nodes, id);
    EndEnds(nodes, id);
    assert end != [];
    assert forall m :: m in after ==> Anchor(after[m]) != id;
    hide LastVisible, EndPath, Visible, Rooted, VisiblePaths;
    LeafKeepsRooted(nodes, after, id);
    forall q | q in VisiblePaths(after) ensures !(end < q) {
      VisiblePathsExact(after, q);
      LeafIsLast(after, id, q, end);
    }
  }

  // A node nothing hangs below can only end a path.
  lemma LeafIsLast(nodes: Nodes, id: Id, p: Path, end: Path)
    requires IsPath(nodes, p) && forall m :: m in nodes ==> Anchor(nodes[m]) != id
    requires end != [] && Last(end) == id
    ensures !(end < p) && forall k :: 0 <= k < |p| - 1 ==> p[k] != id
  {
    forall k | 0 <= k < |p| - 1 ensures p[k] != id {
      assert Anchor(nodes[p[k + 1]]) == p[k];
    }
    var n := |end| - 1;
    assert end[n] == id;
  }

  lemma LeafKeepsRooted(nodes: Nodes, after: Nodes, id: Id)
    requires Rooted(nodes) && id !in nodes && id != HEAD && id in after && after == nodes[id := after[id]]
    requires forall m :: m in after ==> Anchor(after[m]) != id
    ensures Rooted(after)
  {
    forall p | IsPath(after, p) && Last(p) != id ensures IsPath(nodes, p) {
      LeafIsLast(after, id, p, [id]);
      assert forall k :: 0 <= k < |p| ==> p[k] != id;
    }
  }

  lemma ArrayAppends(nodes: Nodes, after: Nodes, end: Path)
    requires Keyed(nodes) && Keyed(after)
    requires Last(end) in after && forall m :: m in nodes ==> m in after && after[m] == nodes[m]
    requires Visible(after) == Visible(nodes) + [end]
    ensures Array(after) == Array(nodes) + [Item(Last(end), after[Last(end)].value, |Array(nodes)|)]
  {
    hide Visible, Array, Last;
    ArrayAt(nodes);
    ArrayAt(after);
    forall i | 0 <= i < |Visible(nodes)| ensures Array(after)[i] == Array(nodes)[i] {
      assert Visible(after)[i] == Visible(nodes)[i];
    }
  }

  // ------------------------------------------------------ when the walk diverges

  ghost function SortedKids(nodes: Nodes, key: Id): seq<Id> {
    PathOrder();
    SortSet(StringLess, ChildIds(nodes, key))
  }

  // One round of the loop, with the stack kept top first.
  ghost function Pop(nodes: Nodes, stack: seq<Id>): seq<Id> {
    if stack == [] then [] else SortedKids(nodes, stack[0]) + stack[1..]
  }

  ghost function StackAfter(nodes: Nodes, rounds: nat): seq<Id> {
    if rounds == 0 then SortedKids(nodes, HEAD) else Pop(nodes, StackAfter(nodes, rounds - 1))
  }

  // If the head key is itself attached, the stack never empties.
  lemma {:induction false} NeverEnds(nodes: Nodes, loop: Path, rounds: nat)
    requires IsPath(nodes, loop) && Last(loop) == HEAD
    ensures exists i :: 0 <= i < |loop| && loop[i] in StackAfter(nodes, rounds)
  {
    hide SortedKids;
    if rounds == 0 {
      KidsListed(nodes, HEAD, loop[0]);
    } else {
      NeverEnds(nodes, loop, rounds - 1);
      var stack := StackAfter(nodes, rounds - 1);
      var i :| 0 <= i < |loop| && loop[i] in stack;
      var j := if loop[i] != stack[0] then i else if i + 1 < |loop| then i + 1 else 0;
      if loop[i] == stack[0] { KidsListed(nodes, stack[0], loop[j]); }
      assert stack == [stack[0]] + stack[1..];
      assert loop[j] in Pop(nodes, stack);
    }
  }

  lemma KidsListed(nodes: Nodes, key: Id, id: Id)
    requires id in nodes && Anchor(nodes[id]) == key
    ensures id in SortedKids(nodes, key)
  {
    assert id in ChildIds(nodes, key);
  }

  // The walk over `nodes` ends exactly when the head key is not attached.
  lemma EndsIffRooted(nodes: Nodes)
    ensures Rooted(nodes) <==> exists rounds: nat :: StackAfter(nodes, rounds) == []
  {
    if Rooted(nodes) {
      FrontierStart(nodes, SortedKids(nodes, HEAD));
      var rounds := WalkEnds(nodes, [], Below([], SortedKids(nodes, HEAD)), 0);
    } else {
      var loop :| IsPath(nodes, loop) && Last(loop) == HEAD;
      forall rounds: nat ensures StackAfter(nodes, rounds) != [] {
        NeverEnds(nodes, loop, rounds);
      }
    }
  }

  lemma PopEnds(nodes: Nodes, top: Path, rest: seq<Path>)
    ensures Pop(nodes, Ends([top] + rest)) == Ends(Below(top, SortedKids(nodes, Last(top))) + rest)
  {
    hide SortedKids;
    assert Ends([top] + rest)[1..] == Ends(rest);
  }

  lemma StackNext(nodes: Nodes, rounds: nat, top: Path, rest: seq<Path>)
    requires StackAfter(nodes, rounds) == Ends([top] + rest)
    ensures StackAfter(nodes, rounds + 1) == Ends(Below(top, SortedKids(nodes, Last(top))) + rest)
  {
    PopEnds(nodes, top, rest);
    hide Ends, Below, SortedKids, Pop;
  }

  // One turn: what is yielded next, and what is stacked then.
  lemma WalkTurn(nodes: Nodes, done: seq<Path>, todo: seq<Path>, rounds: nat) returns (done': seq<Path>, todo': seq<Path>)
    requires Rooted(nodes) && Frontier(nodes, done, todo) && todo != []
    requires StackAfter(nodes, rounds) == Ends(todo)
    ensures Frontier(nodes, done', todo') && StackAfter(nodes, rounds + 1) == Ends(todo')
    ensures Pending(nodes, done') < Pending(nodes, done)
  {
    hide Frontier, Rooted, SortedKids, Pending, SortedChildren, StackAfter, Below, Ends, IsPath;
    var top, rest := todo[0], todo[1..];
    var kids := SortedKids(nodes, Last(top));
    assert todo == [top] + rest;
    FrontierTop(nodes, done, todo);
    KidsSorted(nodes, Last(top));
    FrontierStep(nodes, done, top, rest, kids);
    StackNext(nodes, rounds, top, rest);
    done', todo' := done + [top], Below(top, kids) + rest;
  }

  lemma {:induction false} WalkEnds(nodes: Nodes, done: seq<Path>, todo: seq<Path>, rounds: nat) returns (r: nat)
    requires Rooted(nodes) && Frontier(nodes, done, todo)
    requires StackAfter(nodes, rounds) == Ends(todo)
    ensures StackAfter(nodes, r) == []
    decreases Pending(nodes, done)
  {
    if todo == [] {
      r := rounds;
    } else {
      hide Frontier, Rooted, Pending, StackAfter, Ends;
      var done', todo' := WalkTurn(nodes, done, todo, rounds);
      r := WalkEnds(nodes, done', todo', rounds + 1);
    }
  }

  lemma KidsSorted(nodes: Nodes, key: Id)
    ensures SortedChildren(nodes, key, SortedKids(nodes, key))
  {
    PathOrder();
  }
}
