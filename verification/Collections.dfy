// Limits that may be infinite, sizes of sets and maps, and what it is to filter a sequence.
module Collections {
  import opened Wrappers

  predicate AtLimit(n: nat, limit: Option<nat>) {
    limit.Some? && n >= limit.value
  }

  predicate Within(n: nat, limit: Option<nat>) {
    limit.Some? ==> n <= limit.value
  }

  lemma {:induction false} SubsetSize<T>(a: set<T>, b: set<T>)
    requires a <= b
    ensures |a| <= |b|
  {
    if a != {} {
      var x :| x in a;
      SubsetSize(a - {x}, b - {x});
    }
  }

  // ys are the elements of xs at the places `at`, in order.
  ghost predicate TakenAt<T>(xs: seq<T>, at: seq<nat>, ys: seq<T>) {
    && |at| == |ys| && (forall i, j | 0 <= i < j < |at| :: at[i] < at[j])
    && (forall i | 0 <= i < |at| :: at[i] < |xs| && ys[i] == xs[at[i]])
  }

  // The places are those of the elements that satisfy p.
  ghost predicate Marks<T>(xs: seq<T>, p: T -> bool, at: seq<nat>) {
    forall k: nat | k < |xs| :: p(xs[k]) <==> k in at
  }

  // ys are exactly the elements of xs that satisfy p, in order and as often as they occur.
  ghost predicate Filters<T>(xs: seq<T>, p: T -> bool, ys: seq<T>) {
    exists at: seq<nat> :: TakenAt(xs, at, ys) && Marks(xs, p, at)
  }

  lemma FiltersNone<T>(p: T -> bool)
    ensures Filters([], p, [])
  {
    assert TakenAt<T>([], [], []) && Marks([], p, []);
  }

  lemma FiltersSnoc<T>(xs: seq<T>, p: T -> bool, ys: seq<T>, x: T)
    requires Filters(xs, p, ys)
    ensures Filters(xs + [x], p, if p(x) then ys + [x] else ys)
  {
    hide TakenAt, Marks;
    var at: seq<nat> :| TakenAt(xs, at, ys) && Marks(xs, p, at);
    TakenSnoc(xs, at, ys, x);
    MarksSnoc(xs, p, at, x);
    if p(x) {
      assert TakenAt(xs + [x], at + [|xs|], ys + [x]) && Marks(xs + [x], p, at + [|xs|]);
    } else {
      assert TakenAt(xs + [x], at, ys) && Marks(xs + [x], p, at);
    }
  }

  lemma MarksSnoc<T>(xs: seq<T>, p: T -> bool, at: seq<nat>, x: T)
    requires Marks(xs, p, at) && |xs| !in at
    ensures Marks(xs + [x], p, if p(x) then at + [|xs|] else at)
  {
    var more, at' := xs + [x], if p(x) then at + [|xs|] else at;
    forall k: nat | k < |more| ensures p(more[k]) <==> k in at' {
      assert k < |xs| ==> more[k] == xs[k];
    }
  }

  lemma TakenSnoc<T>(xs: seq<T>, at: seq<nat>, ys: seq<T>, x: T)
    requires TakenAt(xs, at, ys)
    ensures TakenAt(xs + [x], at, ys) && TakenAt(xs + [x], at + [|xs|], ys + [x]) && |xs| !in at
  {
    forall k | k in at ensures k < |xs| {
      var i :| 0 <= i < |at| && at[i] == k;
    }
  }

  // A batch of which all elements satisfy p, or none does.
  lemma {:induction false} FiltersBatch<T>(xs: seq<T>, p: T -> bool, ys: seq<T>, batch: seq<T>, all: bool)
    requires Filters(xs, p, ys) && forall x <- batch :: p(x) == all
    ensures Filters(xs + batch, p, if all then ys + batch else ys)
    decreases |batch|
  {
    hide Filters;
    if batch == [] {
      assert xs + batch == xs && ys + batch == ys;
    } else {
      var n := |batch| - 1;
      FiltersBatch(xs, p, ys, batch[..n], all);
      FiltersSnoc(xs + batch[..n], p, if all then ys + batch[..n] else ys, batch[n]);
      assert xs + batch[..n] + [batch[n]] == xs + batch && ys + batch[..n] + [batch[n]] == ys + batch;
    }
  }

  lemma FiltersIn<T>(xs: seq<T>, p: T -> bool, ys: seq<T>)
    requires Filters(xs, p, ys)
    ensures forall y :: y in ys <==> y in xs && p(y)
  {
    var at: seq<nat> :| TakenAt(xs, at, ys) && Marks(xs, p, at);
    forall y | y in ys ensures y in xs && p(y) {
      var i :| 0 <= i < |ys| && ys[i] == y;
      assert at[i] in at;
    }
    forall y | y in xs && p(y) ensures y in ys {
      var k :| 0 <= k < |xs| && xs[k] == y;
      assert k in at;
    }
  }

  function Elements<T>(xs: seq<T>): set<T> {
    set x | x in xs
  }

  function Places<T>(xs: seq<T>, p: T -> bool): set<nat> {
    set k: nat | k < |xs| && p(xs[k])
  }

  lemma PlacesAre<T>(xs: seq<T>, p: T -> bool, at: seq<nat>)
    requires Marks(xs, p, at)
    requires forall i | 0 <= i < |at| :: at[i] < |xs|
    ensures Places(xs, p) == Elements(at)
  {
  }

  lemma PlacesSnoc<T>(xs: seq<T>, x: T, p: T -> bool)
    ensures Places(xs + [x], p) == Places(xs, p) + if p(x) then {|xs|} else {}
    ensures |Places(xs + [x], p)| == |Places(xs, p)| + if p(x) then 1 else 0
  {
    var more, before, after := xs + [x], Places(xs, p), Places(xs + [x], p);
    forall k: nat ensures k in after <==> k in before || (k == |xs| && p(x)) {
      PlaceKept(xs, x, p, k);
    }
    assert |xs| !in before;
    hide Places;
    assert after == before + if p(x) then {|xs|} else {};
  }

  lemma PlaceKept<T>(xs: seq<T>, x: T, p: T -> bool, k: nat)
    ensures k in Places(xs + [x], p) <==> k in Places(xs, p) || (k == |xs| && p(x))
  {
    if k < |xs| { assert (xs + [x])[k] == xs[k]; }
  }

  // As many as there are places with p.
  lemma FiltersCount<T>(xs: seq<T>, p: T -> bool, ys: seq<T>)
    requires Filters(xs, p, ys)
    ensures |ys| == |Places(xs, p)|
  {
    var at: seq<nat> :| TakenAt(xs, at, ys) && Marks(xs, p, at);
    hide Places, Elements;
    PlacesAre(xs, p, at);
    DistinctCount(at);
  }

  lemma {:induction false} DistinctCount(at: seq<nat>)
    requires forall i, j | 0 <= i < j < |at| :: at[i] < at[j]
    ensures |Elements(at)| == |at|
  {
    if at != [] {
      var n := |at| - 1;
      var init, last := at[..n], at[n];
      DistinctCount(init);
      ElementsSnoc(init, last);
      assert at == init + [last];
      assert last !in init;
    }
  }

  lemma ElementsSnoc<T>(xs: seq<T>, x: T)
    ensures Elements(xs + [x]) == Elements(xs) + {x}
  {
  }

  lemma FewerKeys<K, V>(m: map<K, V>, n: map<K, V>)
    requires m.Keys <= n.Keys
    ensures |m| <= |n|
  {
    SubsetSize(m.Keys, n.Keys);
    assert |m.Keys| == |m| && |n.Keys| == |n|;
  }
}
