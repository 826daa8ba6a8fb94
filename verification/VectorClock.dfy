// Vector clocks: region id -> counter, a missing region counting as zero.
module VectorClock {

  type Clock = map<string, nat>

  datatype Ordering = Equal | Before | After | Concurrent

  function At(c: Clock, region: string): nat {
    if region in c then c[region] else 0
  }

  function Increment(c: Clock, region: string): Clock {
    c[region := At(c, region) + 1]
  }

  function Max(a: nat, b: nat): nat { if a > b then a else b }

  function Merge(a: Clock, b: Clock): Clock {
    map r | r in a.Keys + b.Keys :: Max(At(a, r), At(b, r))
  }

  // Componentwise order.
  predicate Le(a: Clock, b: Clock) {
    forall r :: r in a ==> At(a, r) <= At(b, r)
  }

  // What vcCompare is to answer, said through the componentwise order.
  function Compare(a: Clock, b: Clock): Ordering {
    if Le(a, b) then (if Le(b, a) then Equal else Before)
    else if Le(b, a) then After
    else Concurrent
  }

  // Counter by counter, regions missing from either side counting as zero.
  lemma CompareExact(a: Clock, b: Clock)
    ensures
      var below, above := exists r :: At(a, r) < At(b, r), exists r :: At(a, r) > At(b, r);
      && (Compare(a, b) == Equal <==> !below && !above)
      && (Compare(a, b) == Before <==> below && !above)
      && (Compare(a, b) == After <==> above && !below)
      && (Compare(a, b) == Concurrent <==> below && above)
  {
    LeExact(a, b);
    LeExact(b, a);
    hide Le, At;
  }

  lemma LeExact(a: Clock, b: Clock)
    ensures Le(a, b) <==> !exists r :: At(a, r) > At(b, r)
  {
    if r :| At(a, r) > At(b, r) { assert r in a; }
  }

  // Merge is the least upper bound.
  lemma MergeIsJoin(a: Clock, b: Clock, c: Clock)
    ensures Le(a, Merge(a, b)) && Le(b, Merge(a, b))
    ensures Le(a, c) && Le(b, c) ==> Le(Merge(a, b), c)
  {
    forall r ensures At(Merge(a, b), r) == Max(At(a, r), At(b, r)) {
    }
  }

  // The local counter moves strictly past every clock bounded by the old value.
  lemma IncrementIsAfter(c: Clock, region: string, older: Clock)
    requires Le(older, c)
    ensures Compare(Increment(c, region), older) == After
  {
    assert At(older, region) < At(Increment(c, region), region);
  }

  lemma AfterTransitive(a: Clock, b: Clock, c: Clock)
    requires Compare(a, b) == After && Compare(b, c) == After
    ensures Compare(a, c) == After
  {
    assert !Le(a, b);
    var r :| At(a, r) > At(b, r);
    assert At(c, r) <= At(b, r);
    assert Le(c, a);
  }

  method VcMerge(a: Clock, b: Clock) returns (out: Clock)
    ensures out == Merge(a, b)
  {
    out := a;
    var rest := b.Keys;
    while rest != {}
      invariant rest <= b.Keys
      invariant out.Keys == a.Keys + (b.Keys - rest)
      invariant forall r :: r in out ==> out[r] == if r in b.Keys - rest then Max(At(a, r), At(b, r)) else At(a, r)
    {
      var region :| region in rest;
      out := out[region := Max(At(out, region), b[region])];
      rest := rest - {region};
    }
    assert out.Keys == Merge(a, b).Keys;
  }

  method VcCompare(a: Clock, b: Clock) returns (order: Ordering)
    ensures order == Compare(a, b)
  {
    var aGreater, bGreater := false, false;
    var regions := a.Keys + b.Keys;
    var rest := regions;
    while rest != {}
      invariant rest <= regions
      invariant aGreater <==> exists r :: r in regions - rest && At(a, r) > At(b, r)
      invariant bGreater <==> exists r :: r in regions - rest && At(b, r) > At(a, r)
    {
      var region :| region in rest;
      if At(a, region) > At(b, region) {
        aGreater := true;
      } else if At(b, region) > At(a, region) {
        bGreater := true;
      }
      rest := rest - {region};
      assert region in regions - rest;
    }
    assert Le(a, b) <==> !aGreater;
    assert Le(b, a) <==> !bGreater;
    if aGreater && bGreater {
      order := Concurrent;
    } else if aGreater {
      order := After;
    } else if bGreater {
      order := Before;
    } else {
      order := Equal;
    }
  }
}
