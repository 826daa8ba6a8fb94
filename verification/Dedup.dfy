/**
 * The filter that suppresses a location update already broadcast: a bounded cache of
 * room, client and timestamp keys with the time each was let through, oldest entry first.
 * A message without such a key is always let through.
 */
module Dedup {
  import opened Wrappers
  import opened Collections

  datatype Entry = Entry(key: string, at: int)
  datatype Call = Call(key: string, now: int)

  function Find(cache: seq<Entry>, key: string): Option<int> {
    if cache == [] then None
    else if cache[0].key == key then Some(cache[0].at)
    else Find(cache[1..], key)
  }

  // Map.set: a known key keeps its place.
  function Put(cache: seq<Entry>, key: string, now: int): seq<Entry> {
    if cache == [] then [Entry(key, now)]
    else if cache[0].key == key then [Entry(key, now)] + cache[1..]
    else [cache[0]] + Put(cache[1..], key, now)
  }

  predicate Fresh(last: Option<int>, window: int, now: int) {
    last.Some? && now - last.value <= window
  }

  // Whether the message is a duplicate, and the cache afterwards.
  function Check(window: int, max: nat, cache: seq<Entry>, c: Call): (seq<Entry>, bool) {
    if Fresh(Find(cache, c.key), window, c.now) then (cache, true)
    else
      var put := Put(cache, c.key, c.now);
      (if |put| > max then put[1..] else put, false)
  }

  // One decision per call, true for a duplicate.
  function Decisions(window: int, max: nat, cache: seq<Entry>, calls: seq<Call>): (ds: seq<bool>)
    ensures |ds| == |calls|
    decreases |calls|
  {
    if calls == [] then []
    else
      var (cache', dup) := Check(window, max, cache, calls[0]);
      [dup] + Decisions(window, max, cache', calls[1..])
  }

  // ---- nothing is suppressed without reason ------------------------------------------

  // Every cached time is one at which a message of that key was let through.
  ghost predicate Justified(cache: seq<Entry>, passed: seq<Call>) {
    forall e <- cache :: Call(e.key, e.at) in passed
  }

  lemma {:induction false} FindIn(cache: seq<Entry>, key: string)
    ensures Find(cache, key).Some? ==> Entry(key, Find(cache, key).value) in cache
  {
    if cache != [] && cache[0].key != key { FindIn(cache[1..], key); }
  }

  lemma {:induction false} PutIn(cache: seq<Entry>, key: string, now: int)
    ensures forall e <- Put(cache, key, now) :: e in cache || e == Entry(key, now)
  {
    if cache != [] && cache[0].key != key { PutIn(cache[1..], key, now); }
  }

  // p was let through: before the calls, or by one of the first i of them.
  ghost predicate LetThrough(p: Call, passed: seq<Call>, calls: seq<Call>, ds: seq<bool>, i: nat)
    requires |ds| == |calls| && i <= |calls|
  {
    p in passed || exists k :: 0 <= k < i && calls[k] == p && !ds[k]
  }

  // A suppressed message repeats one let through at most a window earlier, whatever was evicted.
  lemma {:induction false} SuppressedWasSent(window: int, max: nat, cache: seq<Entry>, passed: seq<Call>, calls: seq<Call>, i: nat)
    returns (p: Call)
    requires Justified(cache, passed) && i < |calls| && Decisions(window, max, cache, calls)[i]
    ensures p.key == calls[i].key && calls[i].now - p.now <= window
    ensures LetThrough(p, passed, calls, Decisions(window, max, cache, calls), i)
    decreases |calls|
  {
    var c, ds := calls[0], Decisions(window, max, cache, calls);
    var (cache', dup) := Check(window, max, cache, c);
    FindIn(cache, c.key);
    PutIn(cache, c.key, c.now);
    if i == 0 {
      p := Call(c.key, Find(cache, c.key).value);
    } else {
      var passed' := if dup then passed else passed + [c];
      assert Justified(cache', passed');
      p := SuppressedWasSent(window, max, cache', passed', calls[1..], i - 1);
      var rest := Decisions(window, max, cache', calls[1..]);
      if p in passed' {
        assert p in passed || (calls[0] == p && !ds[0]);
      } else {
        var k :| 0 <= k < i - 1 && calls[1..][k] == p && !rest[k];
        assert calls[k + 1] == p && !ds[k + 1];
      }
    }
  }

  // ---- while the keys fit, the cache forgets nothing ---------------------------------

  // The filter that remembers every key.
  function DecisionsAll(window: int, last: map<string, int>, calls: seq<Call>): (ds: seq<bool>)
    ensures |ds| == |calls|
    decreases |calls|
  {
    if calls == [] then []
    else
      var c := calls[0];
      var dup := Fresh(if c.key in last then Some(last[c.key]) else None, window, c.now);
      [dup] + DecisionsAll(window, if dup then last else last[c.key := c.now], calls[1..])
  }

  ghost predicate Same(cache: seq<Entry>, last: map<string, int>) {
    forall q :: Find(cache, q) == if q in last then Some(last[q]) else None
  }

  ghost predicate Distinct(cache: seq<Entry>) {
    forall i, j | 0 <= i < j < |cache| :: cache[i].key != cache[j].key
  }

  function Keys(cache: seq<Entry>): set<string> {
    set e <- cache :: e.key
  }

  lemma {:induction false} PutFind(cache: seq<Entry>, key: string, now: int, q: string)
    ensures Find(Put(cache, key, now), q) == if q == key then Some(now) else Find(cache, q)
  {
    if cache == [] {
      assert [Entry(key, now)][1..] == [];
    } else if cache[0].key != key {
      PutFind(cache[1..], key, now, q);
    }
  }

  lemma KeysCons(e: Entry, cache: seq<Entry>)
    ensures Keys([e] + cache) == {e.key} + Keys(cache)
  {
    assert forall x :: x in [e] + cache <==> x == e || x in cache;
  }

  lemma DistinctCons(e: Entry, cache: seq<Entry>)
    ensures Distinct([e] + cache) <==> Distinct(cache) && e.key !in Keys(cache)
  {
    var all := [e] + cache;
    if Distinct(all) {
      forall i, j | 0 <= i < j < |cache| ensures cache[i].key != cache[j].key {
        assert all[i + 1].key != all[j + 1].key;
      }
      forall k | 0 <= k < |cache| ensures cache[k].key != e.key {
        assert all[k + 1].key != all[0].key;
      }
    } else if Distinct(cache) {
      var i, j :| 0 <= i < j < |all| && all[i].key == all[j].key;
      assert i == 0;
      InKeys(cache, j - 1);
    }
  }

  lemma {:induction false} PutDistinct(cache: seq<Entry>, key: string, now: int)
    requires Distinct(cache)
    ensures Distinct(Put(cache, key, now)) && Keys(Put(cache, key, now)) == Keys(cache) + {key}
  {
    if cache == [] {
      assert [Entry(key, now)] == [Entry(key, now)] + [];
      KeysCons(Entry(key, now), []);
    } else {
      var rest := cache[1..];
      assert cache == [cache[0]] + rest;
      hide Distinct, Keys;
      DistinctCons(cache[0], rest);
      KeysCons(cache[0], rest);
      if cache[0].key == key {
        DistinctCons(Entry(key, now), rest);
        KeysCons(Entry(key, now), rest);
      } else {
        PutDistinct(rest, key, now);
        DistinctCons(cache[0], Put(rest, key, now));
        KeysCons(cache[0], Put(rest, key, now));
      }
    }
  }

  lemma {:induction false} DistinctSize(cache: seq<Entry>)
    requires Distinct(cache)
    ensures |cache| == |Keys(cache)|
  {
    if cache != [] {
      DistinctSize(cache[1..]);
      assert cache == [cache[0]] + cache[1..];
      assert Keys(cache) == {cache[0].key} + Keys(cache[1..]);
      forall k | 0 <= k < |cache[1..]| ensures cache[1..][k].key != cache[0].key {
        assert cache[1..][k] == cache[k + 1];
      }
    }
  }

  // While the keys in use fit the cache, it filters as if it remembered everything.
  lemma {:induction false} SameDecisions(window: int, max: nat, cache: seq<Entry>, last: map<string, int>, calls: seq<Call>, keys: set<string>)
    requires Same(cache, last) && Distinct(cache) && Keys(cache) <= keys && |keys| <= max
    requires forall c <- calls :: c.key in keys
    ensures Decisions(window, max, cache, calls) == DecisionsAll(window, last, calls)
    decreases |calls|
  {
    if calls != [] {
      var c := calls[0];
      var put := Put(cache, c.key, c.now);
      PutDistinct(cache, c.key, c.now);
      DistinctSize(put);
      SubsetSize(Keys(put), keys);
      forall q ensures Find(put, q) == if q in last[c.key := c.now] then Some(last[c.key := c.now][q]) else None {
        PutFind(cache, c.key, c.now, q);
      }
      hide Find, Put, Distinct, Keys;
      var dup := Fresh(Find(cache, c.key), window, c.now);
      SameDecisions(window, max, if dup then cache else put, if dup then last else last[c.key := c.now], calls[1..], keys);
    }
  }

  predicate Forward(clock: int, calls: seq<Call>)
    decreases |calls|
  {
    calls == [] || (clock <= calls[0].now && Forward(calls[0].now, calls[1..]))
  }

  // A message let through is more than a window after every one of its key let through before.
  lemma {:induction false} SpacedOut(window: int, last: map<string, int>, calls: seq<Call>, clock: int, i: nat, j: nat)
    requires window >= 0 && Forward(clock, calls) && i < j < |calls| && calls[i].key == calls[j].key
    requires !DecisionsAll(window, last, calls)[i] && !DecisionsAll(window, last, calls)[j]
    ensures calls[j].now - calls[i].now > window
    decreases |calls|
  {
    var c := calls[0];
    var dup := Fresh(if c.key in last then Some(last[c.key]) else None, window, c.now);
    var last' := if dup then last else last[c.key := c.now];
    if i > 0 {
      SpacedOut(window, last', calls[1..], c.now, i - 1, j - 1);
    } else {
      AfterLast(window, last', calls[1..], c.now, c.key, c.now, j - 1);
    }
  }

  lemma {:induction false} AfterLast(window: int, last: map<string, int>, calls: seq<Call>, clock: int, key: string, t: int, j: nat)
    requires window >= 0 && Forward(clock, calls) && t <= clock && j < |calls| && calls[j].key == key
    requires key in last && t <= last[key] <= clock && !DecisionsAll(window, last, calls)[j]
    ensures calls[j].now - t > window
    decreases |calls|
  {
    if j > 0 {
      var c := calls[0];
      var dup := Fresh(if c.key in last then Some(last[c.key]) else None, window, c.now);
      AfterLast(window, if dup then last else last[c.key := c.now], calls[1..], c.now, key, t, j - 1);
    }
  }

  // While the keys in use fit the cache, messages of one key let through are more than a window apart.
  lemma SpacedWhileFitting(window: int, max: nat, calls: seq<Call>, keys: set<string>, clock: int, i: nat, j: nat)
    requires |keys| <= max && (forall c <- calls :: c.key in keys)
    requires window >= 0 && Forward(clock, calls) && i < j < |calls| && calls[i].key == calls[j].key
    requires !Decisions(window, max, [], calls)[i] && !Decisions(window, max, [], calls)[j]
    ensures calls[j].now - calls[i].now > window
  {
    SameDecisions(window, max, [], map[], calls, keys);
    SpacedOut(window, map[], calls, clock, i, j);
  }

  // ---- exactly what the bounded cache remembers --------------------------------------

  // How many new keys were entered since this one last was; None if it never was. A key is entered
  // when a message of it comes up and it is not remembered, and letting later messages of a
  // remembered key through does not enter it again.
  function Younger(max: nat, calls: seq<Call>, key: string): Option<nat>
    decreases |calls|, 0
  {
    if calls == [] then None
    else
      var n := |calls| - 1;
      var before := Younger(max, calls[..n], key);
      if Remembered(max, calls[..n], calls[n].key) then before
      else if calls[n].key == key then Some(0)
      else if before.Some? then Some(before.value + 1) else None
  }

  // Fewer than `max` new keys were entered since.
  predicate Remembered(max: nat, calls: seq<Call>, key: string)
    decreases |calls|, 1
  {
    Younger(max, calls, key).Some? && Younger(max, calls, key).value < max
  }

  // When a message of the key was last let through.
  function LastPassed(window: int, max: nat, calls: seq<Call>, key: string): Option<int>
    decreases |calls|, 0
  {
    if calls == [] then None
    else
      var n := |calls| - 1;
      if calls[n].key == key && !Suppressed(window, max, calls[..n], calls[n]) then Some(calls[n].now)
      else LastPassed(window, max, calls[..n], key)
  }

  // A message is suppressed exactly when one of its key was let through at most a window earlier and
  // the key is still remembered.
  predicate Suppressed(window: int, max: nat, calls: seq<Call>, c: Call)
    decreases |calls|, 1
  {
    Remembered(max, calls, c.key) && Fresh(LastPassed(window, max, calls, c.key), window, c.now)
  }

  // The cache after a run.
  function CacheAfter(window: int, max: nat, calls: seq<Call>): seq<Entry>
    decreases |calls|
  {
    if calls == [] then []
    else Check(window, max, CacheAfter(window, max, calls[..|calls| - 1]), calls[|calls| - 1]).0
  }

  // Entry i has |cache| - 1 - i younger ones, and the time its key was last let through.
  ghost predicate Aligned(window: int, max: nat, cache: seq<Entry>, calls: seq<Call>) {
    forall i | 0 <= i < |cache| ::
      Younger(max, calls, cache[i].key) == Some(|cache| - 1 - i)
      && LastPassed(window, max, calls, cache[i].key) == Some(cache[i].at)
  }

  // The cache is aligned with the run, and every remembered key is in it.
  ghost predicate Tells(window: int, max: nat, cache: seq<Entry>, calls: seq<Call>) {
    && Distinct(cache) && |cache| <= max && Aligned(window, max, cache, calls)
    && (forall key :: Remembered(max, calls, key) ==> key in Keys(cache))
  }

  lemma {:induction false} FindAt(cache: seq<Entry>, key: string)
    ensures Find(cache, key).None? <==> key !in Keys(cache)
    ensures Find(cache, key).Some? ==> exists i :: 0 <= i < |cache| && cache[i] == Entry(key, Find(cache, key).value)
  {
    if cache != [] {
      KeysCons(cache[0], cache[1..]);
      assert cache == [cache[0]] + cache[1..];
      FindAt(cache[1..], key);
      if cache[0].key == key {
        assert cache[0] == Entry(key, Find(cache, key).value);
      } else if Find(cache, key).Some? {
        var i :| 0 <= i < |cache[1..]| && cache[1..][i] == Entry(key, Find(cache, key).value);
        assert cache[i + 1] == Entry(key, Find(cache, key).value);
      }
    }
  }

  // What the cache holds for a key is when it was last let through, if it is remembered.
  lemma TellsFind(window: int, max: nat, cache: seq<Entry>, calls: seq<Call>, key: string)
    requires Tells(window, max, cache, calls)
    ensures Find(cache, key) == if Remembered(max, calls, key) then LastPassed(window, max, calls, key) else None
    ensures Remembered(max, calls, key) <==> key in Keys(cache)
  {
    FindAt(cache, key);
    if key in Keys(cache) {
      var i :| 0 <= i < |cache| && cache[i] == Entry(key, Find(cache, key).value);
      assert Younger(max, calls, cache[i].key) == Some(|cache| - 1 - i);
    }
  }

  lemma {:induction false} PutKnown(cache: seq<Entry>, key: string, now: int)
    requires key in Keys(cache)
    ensures |Put(cache, key, now)| == |cache|
  {
    assert cache == [cache[0]] + cache[1..];
    KeysCons(cache[0], cache[1..]);
    hide Keys;
    if cache[0].key != key { PutKnown(cache[1..], key, now); }
  }

  lemma {:induction false} PutKnownAt(cache: seq<Entry>, key: string, now: int, i: nat)
    requires key in Keys(cache) && Distinct(cache) && i < |cache| == |Put(cache, key, now)|
    ensures Put(cache, key, now)[i] == if cache[i].key == key then Entry(key, now) else cache[i]
    decreases i
  {
    var rest := cache[1..];
    assert cache == [cache[0]] + rest;
    KeysCons(cache[0], rest);
    DistinctCons(cache[0], rest);
    if i > 0 {
      assert cache[i] == rest[i - 1];
      InKeys(rest, i - 1);
      hide Distinct, Keys;
      if cache[0].key != key {
        PutKnown(rest, key, now);
        PutKnownAt(rest, key, now, i - 1);
      }
    }
  }

  lemma {:induction false} PutNew(cache: seq<Entry>, key: string, now: int)
    requires key !in Keys(cache)
    ensures Put(cache, key, now) == cache + [Entry(key, now)]
  {
    if cache != [] {
      assert cache == [cache[0]] + cache[1..];
      KeysCons(cache[0], cache[1..]);
      PutNew(cache[1..], key, now);
    }
  }

  lemma OneMore(window: int, max: nat, calls: seq<Call>, c: Call, key: string)
    ensures Younger(max, calls + [c], key) ==
            if Remembered(max, calls, c.key) then Younger(max, calls, key)
            else if c.key == key then Some(0)
            else if Younger(max, calls, key).Some? then Some(Younger(max, calls, key).value + 1) else None
    ensures LastPassed(window, max, calls + [c], key) ==
            if c.key == key && !Suppressed(window, max, calls, c) then Some(c.now) else LastPassed(window, max, calls, key)
  {
    var all := calls + [c];
    assert all[..|calls|] == calls && all[|calls|] == c;
  }

  lemma {:induction false} AlignedKnown(window: int, max: nat, cache: seq<Entry>, calls: seq<Call>, c: Call)
    requires Aligned(window, max, cache, calls) && Distinct(cache) && c.key in Keys(cache) && Remembered(max, calls, c.key)
    requires Check(window, max, cache, c).1 <==> Suppressed(window, max, calls, c)
    requires |cache| <= max
    ensures Aligned(window, max, Check(window, max, cache, c).0, calls + [c])
  {
    var all, cache' := calls + [c], Check(window, max, cache, c).0;
    PutKnown(cache, c.key, c.now);
    hide Find, Keys, Fresh, Younger, LastPassed, Remembered, Suppressed, Distinct;
    assert |cache'| == |cache|;
    forall i: nat | i < |cache|
      ensures Younger(max, all, cache'[i].key) == Some(|cache'| - 1 - i)
      ensures LastPassed(window, max, all, cache'[i].key) == Some(cache'[i].at) {
      PutKnownAt(cache, c.key, c.now, i);
      OneMore(window, max, calls, c, cache[i].key);
    }
  }

  lemma StepKnown(window: int, max: nat, cache: seq<Entry>, calls: seq<Call>, c: Call)
    requires Tells(window, max, cache, calls) && c.key in Keys(cache)
    ensures Tells(window, max, Check(window, max, cache, c).0, calls + [c])
  {
    var all := calls + [c];
    TellsFind(window, max, cache, calls, c.key);
    PutKnown(cache, c.key, c.now);
    PutDistinct(cache, c.key, c.now);
    assert Check(window, max, cache, c).1 <==> Suppressed(window, max, calls, c);
    assert Keys(cache) + {c.key} == Keys(cache);
    AlignedKnown(window, max, cache, calls, c);
    hide Find, Put, Keys, Fresh, Aligned, Distinct, Suppressed;
    forall key ensures Remembered(max, all, key) <==> Remembered(max, calls, key) {
      OneMore(window, max, calls, c, key);
      hide Younger, LastPassed;
    }
    hide Remembered;
  }

  lemma AlignedNew(window: int, max: nat, cache: seq<Entry>, calls: seq<Call>, c: Call)
    requires Aligned(window, max, cache, calls) && c.key !in Keys(cache)
    requires !Remembered(max, calls, c.key)
    ensures Aligned(window, max, cache + [Entry(c.key, c.now)], calls + [c])
  {
    var all, put := calls + [c], cache + [Entry(c.key, c.now)];
    hide Younger, LastPassed, Remembered;
    assert !Suppressed(window, max, calls, c);
    hide Suppressed;
    forall i | 0 <= i < |put|
      ensures Younger(max, all, put[i].key) == Some(|put| - 1 - i)
      ensures LastPassed(window, max, all, put[i].key) == Some(put[i].at) {
      OneMore(window, max, calls, c, put[i].key);
      if i < |cache| { InKeys(cache, i); }
    }
  }

  lemma DropOldest(window: int, max: nat, put: seq<Entry>, all: seq<Call>)
    requires Distinct(put) && put != [] && Aligned(window, max, put, all)
    ensures Distinct(put[1..]) && Aligned(window, max, put[1..], all) && Keys(put[1..]) == Keys(put) - {put[0].key}
    ensures |put| > max ==> !Remembered(max, all, put[0].key)
  {
    hide Younger, LastPassed;
    var rest := put[1..];
    assert forall i | 0 <= i < |rest| :: rest[i] == put[i + 1];
    assert put == [put[0]] + rest;
    KeysCons(put[0], rest);
    assert put[0].key !in Keys(rest);
  }

  lemma StepNew(window: int, max: nat, cache: seq<Entry>, calls: seq<Call>, c: Call)
    requires Tells(window, max, cache, calls) && c.key !in Keys(cache)
    ensures Tells(window, max, Check(window, max, cache, c).0, calls + [c])
  {
    var all, put := calls + [c], cache + [Entry(c.key, c.now)];
    TellsFind(window, max, cache, calls, c.key);
    PutNew(cache, c.key, c.now);
    PutDistinct(cache, c.key, c.now);
    AlignedNew(window, max, cache, calls, c);
    DropOldest(window, max, put, all);
    hide Find, Put, Fresh, Aligned, Distinct, Keys;
    forall key | Remembered(max, all, key) ensures key == c.key || Remembered(max, calls, key) {
      OneMore(window, max, calls, c, key);
      hide Younger, LastPassed, Suppressed;
    }
    hide Remembered;
  }

  lemma InKeys(cache: seq<Entry>, i: nat)
    requires i < |cache|
    ensures cache[i].key in Keys(cache)
  {
  }

  lemma {:induction false} CacheTells(window: int, max: nat, calls: seq<Call>)
    ensures Tells(window, max, CacheAfter(window, max, calls), calls)
    decreases |calls|
  {
    if calls == [] {
      assert forall key :: !Remembered(max, calls, key);
    } else {
      var n := |calls| - 1;
      CacheTells(window, max, calls[..n]);
      assert calls == calls[..n] + [calls[n]];
      hide Tells, Check;
      var cache := CacheAfter(window, max, calls[..n]);
      if calls[n].key in Keys(cache) {
        StepKnown(window, max, cache, calls[..n], calls[n]);
      } else {
        StepNew(window, max, cache, calls[..n], calls[n]);
      }
    }
  }

  lemma {:induction false} DecisionsFrom(window: int, max: nat, calls: seq<Call>, k: nat, i: nat)
    requires k <= i < |calls|
    ensures Decisions(window, max, CacheAfter(window, max, calls[..k]), calls[k..])[i - k]
         == Check(window, max, CacheAfter(window, max, calls[..i]), calls[i]).1
    decreases i - k
  {
    assert calls[k..][0] == calls[k] && calls[k..][1..] == calls[k + 1..];
    if k < i {
      assert calls[..k + 1][..k] == calls[..k];
      hide Check;
      DecisionsFrom(window, max, calls, k + 1, i);
    }
  }

  // On every run from the start the bounded filter suppresses a message if and only if one of its key
  // was let through at most a window earlier and fewer than `max` new keys were entered since the key
  // itself was; so a repeat gets through exactly when its key was crowded out.
  lemma SuppressedIff(window: int, max: nat, calls: seq<Call>, i: nat)
    requires i < |calls|
    ensures Decisions(window, max, [], calls)[i] <==> Suppressed(window, max, calls[..i], calls[i])
  {
    DecisionsFrom(window, max, calls, 0, i);
    assert calls[..0] == [] && calls[0..] == calls;
    CacheTells(window, max, calls[..i]);
    TellsFind(window, max, CacheAfter(window, max, calls[..i]), calls[..i], calls[i].key);
  }

  // A cache of one forgets a key as soon as another comes up, within the window.
  lemma CrowdedOut(a: string, b: string)
    requires a != b
    ensures Decisions(1000, 1, [], [Call(a, 0), Call(b, 1), Call(a, 2)]) == [false, false, false]
  {
    var x, y, z := Call(a, 0), Call(b, 1), Call(a, 2);
    assert [x, y, z][1..] == [y, z] && [y, z][1..] == [z] && [z][1..] == [];
    var ca, cb: seq<Entry> := [Entry(a, 0)], [Entry(b, 1)];
    FirstKey(a, 0);
    OtherKey(a, 0, b, 1);
    OtherKey(b, 1, a, 2);
    hide Check;
    assert Decisions(1000, 1, cb, [z]) == [false] + [];
    assert Decisions(1000, 1, ca, [y, z]) == [false] + [false];
  }

  lemma FirstKey(a: string, t: int)
    ensures Check(1000, 1, [], Call(a, t)) == ([Entry(a, t)], false)
  {
  }

  lemma OtherKey(a: string, t: int, b: string, u: int)
    requires a != b
    ensures Check(1000, 1, [Entry(a, t)], Call(b, u)) == ([Entry(b, u)], false)
  {
    var cache := [Entry(a, t)];
    assert cache[1..] == [];
    assert Find(cache, b) == None;
    assert Put(cache, b, u) == [Entry(a, t)] + [Entry(b, u)];
  }
}
