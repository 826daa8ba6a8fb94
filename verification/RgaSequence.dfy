// RGASequence as the mutable object of the gateway: a Map of nodes (with its
// insertion order) and the loops over it, each proved against module Rga.
module RgaSequence {
  import opened Wrappers
  import opened Order
  import opened Rga

  ghost predicate NoDup(s: seq<Id>) {
    forall i, j :: 0 <= i < j < |s| ==> s[i] != s[j]
  }

  // ------------------------------------------------------------- bucket.sort

  function InsertSorted(x: Id, s: seq<Id>): seq<Id> {
    if s == [] then [x]
    else if StringLess(x, s[0]) then [x] + s
    else [s[0]] + InsertSorted(x, s[1..])
  }

  function SortIds(s: seq<Id>): seq<Id> {
    if s == [] then [] else InsertSorted(s[0], SortIds(s[1..]))
  }

  lemma {:induction false} InsertSortedCorrect(x: Id, s: seq<Id>)
    requires Sorted(StringLess, s) && x !in s
    ensures Sorted(StringLess, InsertSorted(x, s))
    ensures forall y :: y in InsertSorted(x, s) <==> y == x || y in s
    decreases |s|
  {
    StringOrder();
    if s != [] && !StringLess(x, s[0]) {
      assert s[0] in s;
      InsertSortedCorrect(x, s[1..]);
      assert s == [s[0]] + s[1..];
      forall y | y in InsertSorted(x, s[1..]) ensures StringLess(s[0], y) {
        if y != x {
          var k :| 0 <= k < |s[1..]| && s[1..][k] == y;
          assert StringLess(s[0], s[k + 1]);
        }
      }
    }
  }

  lemma {:induction false} SortIdsCorrect(s: seq<Id>)
    requires NoDup(s)
    ensures Sorted(StringLess, SortIds(s))
    ensures forall y :: y in SortIds(s) <==> y in s
  {
    if s != [] {
      SortIdsCorrect(s[1..]);
      assert s == [s[0]] + s[1..];
      assert s[0] !in s[1..];
      InsertSortedCorrect(s[0], SortIds(s[1..]));
    }
  }

  function Reverse(s: seq<Id>): (r: seq<Id>)
    ensures |r| == |s| && forall i :: 0 <= i < |s| ==> r[i] == s[|s| - 1 - i]
  {
    seq(|s|, i requires 0 <= i < |s| => s[|s| - 1 - i])
  }

  // Pushes the children last to first, so that the first is popped first.
  method PushReversed(stack: seq<Id>, next: seq<Id>) returns (pushed: seq<Id>)
    ensures pushed == stack + Reverse(next)
  {
    pushed := stack;
    var i := |next|;
    while i > 0
      invariant 0 <= i <= |next|
      invariant pushed == stack + Reverse(next)[..|next| - i]
    {
      i := i - 1;
      pushed := pushed + [next[i]];
    }
    assert Reverse(next)[..|next|] == Reverse(next);
  }

  lemma {:induction false} FilterSnoc<T(!new)>(keep: T -> bool, s: seq<T>, x: T)
    ensures Filter(keep, s + [x]) == Filter(keep, s) + (if keep(x) then [x] else [])
  {
    if s == [] {
      assert (s + [x])[1..] == [];
    } else {
      FilterSnoc(keep, s[1..], x);
      assert (s + [x])[1..] == s[1..] + [x];
    }
  }

  lemma {:induction false} FilterPrefix<T(!new)>(keep: T -> bool, s: seq<T>, t: seq<T>)
    ensures Filter(keep, s) <= Filter(keep, s + t)
  {
    if s == [] {
    } else {
      FilterPrefix(keep, s[1..], t);
      assert (s + t)[1..] == s[1..] + t;
    }
  }

  predicate Shown(node: Node) { !node.tombstoned }

  // The yielded nodes, tombstones dropped, are the array.
  lemma ShownIsArray(nodes: Nodes, walk: seq<Node>)
    requires walk == NodesAt(nodes, Traversal(nodes))
    ensures ItemsOf(Filter(Shown, walk)) == Array(nodes)
  {
    FilterNodes(nodes, Traversal(nodes));
    VisibleFiltersTraversal(nodes);
    FilterSame(Shown, (n: Node) => !n.tombstoned, walk);
  }

  lemma {:induction false} FilterSame<T(!new)>(f: T -> bool, g: T -> bool, s: seq<T>)
    requires forall x :: f(x) == g(x)
    ensures Filter(f, s) == Filter(g, s)
  {
    if s != [] { FilterSame(f, g, s[1..]); }
  }

  function Restrict(nodes: Nodes, ids: seq<Id>): Nodes {
    map id | id in nodes && id in ids :: nodes[id]
  }

  lemma MergeStep(mine: Nodes, theirs: Nodes, ids: seq<Id>, id: Id)
    requires Keyed(theirs) && id in theirs && id !in ids
    ensures
      var n := theirs[id];
      Rga.Insert(Rga.Merge(mine, Restrict(theirs, ids)), n.id, n.origin, n.value, n.tombstoned)
        == Rga.Merge(mine, Restrict(theirs, ids + [id]))
  {
  }

  // ------------------------------------------------------- the stack loop

  lemma MergeEnds(mine: Nodes, theirs: Nodes, ids: seq<Id>)
    requires forall id :: id in theirs ==> id in ids
    ensures Rga.Merge(mine, Restrict(theirs, [])) == mine && Restrict(theirs, ids) == theirs
  {
    assert Restrict(theirs, []) == map[];
  }

  lemma WalkStep(nodes: Nodes, done: seq<Path>, todo: seq<Path>, next: seq<Id>)
    requires Rooted(nodes) && Frontier(nodes, done, todo) && todo != []
    requires SortedChildren(nodes, Last(todo[0]), next)
    ensures Frontier(nodes, done + [todo[0]], Below(todo[0], next) + todo[1..])
    ensures Pending(nodes, done + [todo[0]]) < Pending(nodes, done)
    ensures Ends(done + [todo[0]]) == Ends(done) + [Last(todo[0])]
    ensures Ends(Below(todo[0], next) + todo[1..]) == next + Ends(todo)[1..]
  {
    hide Frontier, SortedChildren, Pending, Rooted;
    assert todo == [todo[0]] + todo[1..];
    FrontierTop(nodes, done, todo);
    FrontierStep(nodes, done, todo[0], todo[1..], next);
  }

  function Kids(children: map<Id, seq<Id>>, key: Id): seq<Id> {
    if key in children then children[key] else []
  }

  ghost predicate Grouped(nodes: Nodes, children: map<Id, seq<Id>>) {
    forall key :: SortedChildren(nodes, key, Kids(children, key))
  }

  lemma GroupedAt(nodes: Nodes, children: map<Id, seq<Id>>, key: Id)
    requires Grouped(nodes, children)
    ensures SortedChildren(nodes, key, Kids(children, key))
  {
  }

  method Walk(nodes: Nodes, children: map<Id, seq<Id>>) returns (out: seq<Id>)
    requires Rooted(nodes) && Grouped(nodes, children)
    ensures out == Ends(Traversal(nodes))
  {
    hide Frontier, Pending, Rooted, Traversal, Grouped, SortedChildren, Kids;
    GroupedAt(nodes, children, HEAD);
    var stack := Reverse(Kids(children, HEAD));
    FrontierStart(nodes, Kids(children, HEAD));
    ghost var done: seq<Path>, todo: seq<Path> := [], Below([], Kids(children, HEAD));
    out := [];
    while stack != []
      invariant Frontier(nodes, done, todo)
      invariant stack == Reverse(Ends(todo))
      invariant out == Ends(done)
      decreases Pending(nodes, done)
    {
      var id := stack[|stack| - 1];
      out := out + [id];
      var next := Kids(children, id);
      stack := PushReversed(stack[..|stack| - 1], next);
      GroupedAt(nodes, children, id);
      WalkStep(nodes, done, todo, next);
      done, todo := done + [todo[0]], Below(todo[0], next) + todo[1..];
    }
    FrontierDone(nodes, done);
  }

  // Unsorted buckets over the first ids of the Map.
  ghost predicate Bucketed(nodes: Nodes, ids: seq<Id>, raw: map<Id, seq<Id>>) {
    && (forall id :: id in ids ==> id in nodes && Anchor(nodes[id]) in raw)
    && (forall key :: key in raw ==> NoDup(raw[key]))
    && (forall key, id :: key in raw && id in raw[key] ==> id in ids && Anchor(nodes[id]) == key)
    && (forall id :: id in ids ==> id in raw[Anchor(nodes[id])])
  }

  lemma BucketsStep(nodes: Nodes, ids: seq<Id>, raw: map<Id, seq<Id>>, id: Id)
    requires Bucketed(nodes, ids, raw) && id in nodes && id !in ids
    ensures Bucketed(nodes, ids + [id], raw[Anchor(nodes[id]) := Kids(raw, Anchor(nodes[id])) + [id]])
  {
    var key := Anchor(nodes[id]);
    assert id !in Kids(raw, key);
  }

  method Group(nodes: Nodes, order: seq<Id>) returns (raw: map<Id, seq<Id>>)
    requires NoDup(order) && forall id :: id in order ==> id in nodes
    ensures Bucketed(nodes, order, raw)
  {
    raw := map[];
    for i := 0 to |order|
      invariant Bucketed(nodes, order[..i], raw)
    {
      hide Bucketed;
      var key := Anchor(nodes[order[i]]);
      assert order[..i + 1] == order[..i] + [order[i]] && order[i] !in order[..i];
      BucketsStep(nodes, order[..i], raw, order[i]);
      raw := raw[key := Kids(raw, key) + [order[i]]];
    }
    assert order[..|order|] == order;
  }

  function SortAll(raw: map<Id, seq<Id>>): map<Id, seq<Id>> {
    map key | key in raw :: SortIds(raw[key])
  }

  lemma SortedBuckets(nodes: Nodes, order: seq<Id>, raw: map<Id, seq<Id>>)
    requires Bucketed(nodes, order, raw) && forall id :: id in nodes ==> id in order
    ensures Grouped(nodes, SortAll(raw))
  {
    var children := SortAll(raw);
    forall key ensures SortedChildren(nodes, key, Kids(children, key)) {
      hide StringLess;
      if key in raw {
        SortIdsCorrect(raw[key]);
      } else {
        assert ChildIds(nodes, key) == {};
      }
    }
  }

  // The counting loop of indexOf() over the yielded nodes.
  method FindShown(walk: seq<Node>, id: Id) returns (index: int)
    ensures index >= 0 ==> index < |Filter(Shown, walk)| && Filter(Shown, walk)[index].id == id
    ensures index < 0 ==> index == -1 && forall i :: 0 <= i < |Filter(Shown, walk)| ==> Filter(Shown, walk)[i].id != id
  {
    assert walk[..|walk|] == walk;
    index := 0;
    for k := 0 to |walk|
      invariant index == |Filter(Shown, walk[..k])|
      invariant forall i :: 0 <= i < index ==> Filter(Shown, walk[..k])[i].id != id
    {
      FilterSnoc(Shown, walk[..k], walk[k]);
      assert walk[..k + 1] == walk[..k] + [walk[k]];
      if !walk[k].tombstoned {
        if walk[k].id == id {
          FilterPrefix(Shown, walk[..k + 1], walk[k + 1..]);
          assert walk[..k + 1] + walk[k + 1..] == walk;
          return;
        }
        index := index + 1;
      }
    }
    index := -1;
  }

  // The listing loop of toArray() over the yielded nodes.
  method ListShown(walk: seq<Node>) returns (items: seq<Item>)
    ensures items == ItemsOf(Filter(Shown, walk))
  {
    items := [];
    for k := 0 to |walk|
      invariant items == ItemsOf(Filter(Shown, walk[..k]))
    {
      FilterSnoc(Shown, walk[..k], walk[k]);
      assert walk[..k + 1] == walk[..k] + [walk[k]];
      if !walk[k].tombstoned {
        items := items + [Item(walk[k].id, walk[k].value, |items|)];
      }
    }
    assert walk[..|walk|] == walk;
  }

  class RGASequence {
    var nodes: Nodes
    var order: seq<Id>

    ghost predicate Valid()
      reads this
    {
      && Keyed(nodes)
      && NoDup(order)
      && (forall id :: id in order <==> id in nodes)
    }

    constructor ()
      ensures Valid() && nodes == map[]
    {
      nodes, order := map[], [];
    }

    constructor Holding(content: Nodes)
      requires Keyed(content)
      ensures Valid() && nodes == content
    {
      nodes, order := content, [];
      new;
      var rest := content.Keys;
      while rest != {}
        invariant nodes == content && rest <= content.Keys
        invariant NoDup(order) && forall id :: id in order <==> id in content.Keys - rest
      {
        var id :| id in rest;
        assert id !in order;
        order := order + [id];
        rest := rest - {id};
      }
    }

    method Insert(id: Id, origin: Option<Id>, value: string, tombstoned: bool) returns (node: Node)
      requires Valid()
      modifies this
      ensures Valid()
      ensures nodes == Rga.Insert(old(nodes), id, origin, value, tombstoned)
      ensures node == nodes[id]
    {
      if id in nodes {
        node := nodes[id].(tombstoned := nodes[id].tombstoned || tombstoned);
      } else {
        node := Node(id, origin, value, tombstoned);
        order := order + [id];
      }
      nodes := nodes[id := node];
    }

    method Remove(id: Id) returns (existed: bool)
      requires Valid()
      modifies this
      ensures Valid() && order == old(order)
      ensures existed == (id in old(nodes)) && nodes == Rga.Remove(old(nodes), id)
    {
      existed := id in nodes;
      if existed {
        nodes := nodes[id := nodes[id].(tombstoned := true)];
      }
    }

    // The first half of traverse(): children grouped by anchor, then sorted.
    method Buckets() returns (children: map<Id, seq<Id>>)
      requires Valid()
      ensures Grouped(nodes, children)
    {
      hide Grouped, Bucketed;
      var raw := Group(nodes, order);
      SortedBuckets(nodes, order, raw);
      children := SortAll(raw);
    }

    // The stack loop ends under exactly this precondition (Rga.EndsIffRooted).
    method Traverse() returns (out: seq<Node>)
      requires Valid() && Rooted(nodes)
      ensures out == NodesAt(nodes, Traversal(nodes))
    {
      hide Rooted, Attached, SortPaths, Grouped;
      var children := Buckets();
      var ids := Walk(nodes, children);
      ghost var paths := Traversal(nodes);
      assert forall i :: 0 <= i < |ids| ==> paths[i] in paths && ids[i] == Last(paths[i]);
      var ns := nodes;
      assert forall i :: 0 <= i < |ids| ==> ids[i] in ns;
      out := seq(|ids|, i requires 0 <= i < |ids| => ns[ids[i]]);
    }

    method ToArray() returns (items: seq<Item>)
      requires Valid() && Rooted(nodes)
      ensures items == Array(nodes)
    {
      hide Array, Traversal, NodesAt, Rooted, ItemsOf;
      var walk := Traverse();
      items := ListShown(walk);
      ShownIsArray(nodes, walk);
    }

    // The array position of a visible node, -1 for anything else.
    method IndexOf(id: Id) returns (index: int)
      requires Valid() && Rooted(nodes)
      ensures index >= 0 ==> index < |Array(nodes)| && Array(nodes)[index].id == id
      ensures index < 0 ==> index == -1 && forall i :: 0 <= i < |Array(nodes)| ==> Array(nodes)[i].id != id
    {
      hide Array, Traversal, NodesAt;
      var walk := Traverse();
      ShownIsArray(nodes, walk);
      index := FindShown(walk, id);
    }

    method LastVisibleId() returns (last: Option<Id>)
      requires Valid() && Rooted(nodes)
      ensures last == LastVisible(nodes)
    {
      var items := ToArray();
      last := if |items| > 0 then Some(items[|items| - 1].id) else None;
    }

    method Merge(other: RGASequence)
      requires Valid() && other.Valid() && other != this
      modifies this
      ensures Valid() && nodes == Rga.Merge(old(nodes), other.nodes)
    {
      MergeEnds(nodes, other.nodes, other.order);
      hide Rga.Merge, Rga.Insert, Restrict;
      assert other.order[..0] == [];
      for i := 0 to |other.order|
        invariant Valid() && other.Valid() && unchanged(other)
        invariant nodes == Rga.Merge(old(nodes), Restrict(other.nodes, other.order[..i]))
      {
        assert other.order[i] in other.order;
        var node := other.nodes[other.order[i]];
        assert other.order[..i + 1] == other.order[..i] + [other.order[i]];
        MergeStep(old(nodes), other.nodes, other.order[..i], other.order[i]);
        var _ := Insert(node.id, node.origin, node.value, node.tombstoned);
      }
      assert other.order[..|other.order|] == other.order;
    }
  }
}
