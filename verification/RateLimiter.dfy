/**
 * The sliding-window limiters: at most `limit` accepted calls per key in any `width`
 * milliseconds (1000 for messages per client, 60000 for connections per address). The limiter
 * forgets times as they leave the window; its specification forgets nothing.
 */
module RateLimiter {
  import opened Collections

  type Times = seq<int>
  type Windows = map<string, Times>

  // The times after the cutoff, in order.
  function Recent(ts: Times, cutoff: int): Times {
    if ts == [] then []
    else Recent(ts[..|ts| - 1], cutoff) + (if ts[|ts| - 1] > cutoff then [ts[|ts| - 1]] else [])
  }

  function TimesOf(ws: Windows, id: string): Times {
    if id in ws then ws[id] else []
  }

  // What is left of a window when a call arrives: times are dropped only if the oldest is stale.
  function Evicted(ts: Times, cutoff: int): Times {
    if |ts| > 0 && ts[0] <= cutoff then Recent(ts, cutoff) else ts
  }

  function Checking(limit: nat, width: nat, ws: Windows, id: string, now: int): (Windows, bool) {
    var ts := Evicted(TimesOf(ws, id), now - width);
    if |ts| >= limit then (ws[id := ts], false) else (ws[id := ts + [now]], true)
  }

  function Removing(ws: Windows, id: string): Windows {
    ws - {id}
  }

  function CleanedUp(width: nat, ws: Windows, now: int): Windows {
    map id | id in ws && Recent(ws[id], now - width) != [] :: Recent(ws[id], now - width)
  }

  // ---- the specification: keep every accepted time -----------------------------------

  function CheckAll(limit: nat, width: nat, all: Windows, id: string, now: int): (Windows, bool) {
    if |Recent(TimesOf(all, id), now - width)| >= limit then (all, false)
    else (all[id := TimesOf(all, id) + [now]], true)
  }

  // ---- runs --------------------------------------------------------------------------

  datatype Call = Checked(id: string, now: int) | Removed(id: string) | Cleaned(now: int)

  // The decisions of a run on one key, one per check of it.
  function Decisions(limit: nat, width: nat, ws: Windows, id: string, calls: seq<Call>): seq<bool>
    decreases |calls|
  {
    if calls == [] then []
    else
      match calls[0]
      case Checked(d, now) =>
        var (ws', ok) := Checking(limit, width, ws, d, now);
        (if d == id then [ok] else []) + Decisions(limit, width, ws', id, calls[1..])
      case Removed(d) => Decisions(limit, width, Removing(ws, d), id, calls[1..])
      case Cleaned(now) => Decisions(limit, width, CleanedUp(width, ws, now), id, calls[1..])
  }

  function DecisionsAll(limit: nat, width: nat, all: Windows, id: string, calls: seq<Call>): seq<bool>
    decreases |calls|
  {
    if calls == [] then []
    else
      match calls[0]
      case Checked(d, now) =>
        var (all', ok) := CheckAll(limit, width, all, d, now);
        (if d == id then [ok] else []) + DecisionsAll(limit, width, all', id, calls[1..])
      case Removed(d) => DecisionsAll(limit, width, Removing(all, d), id, calls[1..])
      case Cleaned(_) => DecisionsAll(limit, width, all, id, calls[1..])
  }

  // The call reads the clock for the key: a check of it, or a clean-up of all.
  predicate Reads(c: Call, id: string) {
    c.Cleaned? || (c.Checked? && c.id == id)
  }

  // The readings that concern the key, starting from `clock`, never go back.
  predicate Forward(id: string, clock: int, calls: seq<Call>)
    decreases |calls|
  {
    calls == []
    || (if Reads(calls[0], id) then clock <= calls[0].now && Forward(id, calls[0].now, calls[1..])
        else Forward(id, clock, calls[1..]))
  }

  // ---- refinement --------------------------------------------------------------------

  ghost predicate Sorted(ts: Times, clock: int) {
    (forall i, j | 0 <= i < j < |ts| :: ts[i] <= ts[j]) && (forall i | 0 <= i < |ts| :: ts[i] <= clock)
  }

  // The window and the full history agree on everything a check from now on can see.
  ghost predicate Agree(ts: Times, all: Times, cutoff: int) {
    forall c | c >= cutoff :: Recent(ts, c) == Recent(all, c)
  }

  ghost predicate AgreeAt(width: nat, ts: Times, all: Times, clock: int) {
    Sorted(ts, clock) && Agree(ts, all, clock - width)
  }

  ghost predicate Refines(width: nat, ws: Windows, all: Windows, id: string, clock: int) {
    AgreeAt(width, TimesOf(ws, id), TimesOf(all, id), clock)
  }

  lemma {:induction false} RecentAll(ts: Times, c: int)
    requires forall i | 0 <= i < |ts| :: ts[i] > c
    ensures Recent(ts, c) == ts
  {
    if ts != [] { RecentAll(ts[..|ts| - 1], c); }
  }

  lemma {:induction false} RecentIn(ts: Times, c: int)
    ensures forall t :: t in Recent(ts, c) <==> t in ts && t > c
  {
    if ts != [] {
      RecentIn(ts[..|ts| - 1], c);
      assert ts == ts[..|ts| - 1] + [ts[|ts| - 1]];
    }
  }

  lemma {:induction false} RecentTwice(ts: Times, c: int, d: int)
    requires c <= d
    ensures Recent(Recent(ts, c), d) == Recent(ts, d)
  {
    if ts != [] {
      RecentTwice(ts[..|ts| - 1], c, d);
      var rest, t := Recent(ts[..|ts| - 1], c), ts[|ts| - 1];
      assert (rest + [t])[..|rest|] == rest && rest + [] == rest;
    }
  }

  lemma {:induction false} RecentSorted(ts: Times, c: int, clock: int)
    requires Sorted(ts, clock)
    ensures Sorted(Recent(ts, c), clock)
  {
    if ts != [] {
      RecentSorted(ts[..|ts| - 1], c, clock);
      RecentIn(ts[..|ts| - 1], c);
      var rest := Recent(ts[..|ts| - 1], c);
      forall i | 0 <= i < |rest| ensures rest[i] <= ts[|ts| - 1] { assert rest[i] in rest; }
    }
  }

  // In a sorted window the lazy eviction is the full one.
  lemma EvictedIsRecent(ts: Times, cutoff: int, clock: int)
    requires Sorted(ts, clock)
    ensures Evicted(ts, cutoff) == Recent(ts, cutoff)
  {
    if !(|ts| > 0 && ts[0] <= cutoff) { RecentAll(ts, cutoff); }
  }

  lemma RecentPush(ts: Times, t: int, c: int)
    ensures Recent(ts + [t], c) == Recent(ts, c) + if t > c then [t] else []
  {
    assert (ts + [t])[..|ts|] == ts;
  }

  lemma EvictKeepsAgreement(width: nat, ts: Times, all: Times, clock: int, now: int)
    requires AgreeAt(width, ts, all, clock) && clock <= now
    ensures AgreeAt(width, Recent(ts, now - width), all, now)
    ensures AgreeAt(width, ts, all, now)
    ensures Recent(ts, now - width) == Recent(all, now - width)
  {
    hide Recent;
    RecentSorted(ts, now - width, clock);
    forall c | c >= now - width ensures Recent(Recent(ts, now - width), c) == Recent(all, c) {
      RecentTwice(ts, now - width, c);
    }
  }

  lemma PushKeepsAgreement(width: nat, ts: Times, all: Times, now: int)
    requires AgreeAt(width, ts, all, now)
    ensures AgreeAt(width, ts + [now], all + [now], now)
  {
    forall c | c >= now - width ensures Recent(ts + [now], c) == Recent(all + [now], c) {
      RecentPush(ts, now, c);
      RecentPush(all, now, c);
    }
  }

  lemma CheckedWindow(limit: nat, width: nat, ws: Windows, all: Windows, clock: int, id: string, now: int)
    requires AgreeAt(width, TimesOf(ws, id), TimesOf(all, id), clock) && clock <= now
    ensures Checking(limit, width, ws, id, now).1 == CheckAll(limit, width, all, id, now).1
    ensures AgreeAt(width, TimesOf(Checking(limit, width, ws, id, now).0, id), TimesOf(CheckAll(limit, width, all, id, now).0, id), now)
  {
    var ts, full := TimesOf(ws, id), TimesOf(all, id);
    assert Evicted(ts, now - width) == Recent(ts, now - width) by { EvictedIsRecent(ts, now - width, clock); }
    hide AgreeAt, Recent, Evicted;
    EvictKeepsAgreement(width, ts, full, clock, now);
    PushKeepsAgreement(width, Recent(ts, now - width), full, now);
  }

  // A check decides as the specification does, and the two still agree afterwards.
  lemma CheckRefines(limit: nat, width: nat, ws: Windows, all: Windows, clock: int, id: string, now: int)
    requires Refines(width, ws, all, id, clock) && clock <= now
    ensures Checking(limit, width, ws, id, now).1 == CheckAll(limit, width, all, id, now).1
    ensures Refines(width, Checking(limit, width, ws, id, now).0, CheckAll(limit, width, all, id, now).0, id, now)
  {
    CheckedWindow(limit, width, ws, all, clock, id, now);
  }

  lemma OtherKeys(limit: nat, width: nat, ws: Windows, all: Windows, d: string, now: int, id: string)
    requires d != id
    ensures TimesOf(Checking(limit, width, ws, d, now).0, id) == TimesOf(ws, id)
    ensures TimesOf(CheckAll(limit, width, all, d, now).0, id) == TimesOf(all, id)
  {
  }

  lemma CleanupRefines(width: nat, ws: Windows, all: Windows, id: string, clock: int, now: int)
    requires Refines(width, ws, all, id, clock) && clock <= now
    ensures Refines(width, CleanedUp(width, ws, now), all, id, now)
  {
    EvictKeepsAgreement(width, TimesOf(ws, id), TimesOf(all, id), clock, now);
    assert TimesOf(CleanedUp(width, ws, now), id) == Recent(TimesOf(ws, id), now - width);
  }

  lemma RemoveRefines(width: nat, ws: Windows, all: Windows, id: string, clock: int, d: string)
    requires Refines(width, ws, all, id, clock)
    ensures Refines(width, Removing(ws, d), Removing(all, d), id, clock)
  {
  }

  // On every run whose readings for the key never go back, whatever the other keys do, the evicting
  // limiter decides every check of it as the limiter that keeps all accepted times.
  lemma {:induction false} SameDecisions(limit: nat, width: nat, ws: Windows, all: Windows, id: string, clock: int, calls: seq<Call>)
    requires Refines(width, ws, all, id, clock) && Forward(id, clock, calls)
    ensures Decisions(limit, width, ws, id, calls) == DecisionsAll(limit, width, all, id, calls)
    decreases |calls|
  {
    if calls != [] {
      match calls[0] {
        case Checked(d, now) =>
          var ws', all' := Checking(limit, width, ws, d, now).0, CheckAll(limit, width, all, d, now).0;
          if d == id {
            CheckRefines(limit, width, ws, all, clock, id, now);
            hide AgreeAt, Checking, CheckAll;
            SameDecisions(limit, width, ws', all', id, now, calls[1..]);
          } else {
            OtherKeys(limit, width, ws, all, d, now, id);
            hide AgreeAt, Checking, CheckAll;
            SameDecisions(limit, width, ws', all', id, clock, calls[1..]);
          }
        case Removed(d) =>
          RemoveRefines(width, ws, all, id, clock, d);
          SameDecisions(limit, width, Removing(ws, d), Removing(all, d), id, clock, calls[1..]);
        case Cleaned(now) =>
          CleanupRefines(width, ws, all, id, clock, now);
          SameDecisions(limit, width, CleanedUp(width, ws, now), all, id, now, calls[1..]);
      }
    }
  }

  // With readings for the key that go back the two can differ: what was evicted is in the window again.
  lemma BackwardClockDiffers(a: string)
    ensures
      var calls := [Checked(a, 0), Checked(a, 1001), Checked(a, 500)];
      Decisions(2, 1000, map[], a, calls) == [true, true, true] && DecisionsAll(2, 1000, map[], a, calls) == [true, true, false]
  {
    EvictingSteps(a);
    KeepingSteps(a);
    hide Checking, CheckAll;
    ThreeDecisions(2, 1000, map[], a, 0, 1001, 500);
  }

  lemma ThreeDecisions(limit: nat, width: nat, ws: Windows, a: string, t1: int, t2: int, t3: int)
    ensures
      var w1 := Checking(limit, width, ws, a, t1);
      var w2 := Checking(limit, width, w1.0, a, t2);
      Decisions(limit, width, ws, a, [Checked(a, t1), Checked(a, t2), Checked(a, t3)])
      == [w1.1, w2.1, Checking(limit, width, w2.0, a, t3).1]
    ensures
      var w1 := CheckAll(limit, width, ws, a, t1);
      var w2 := CheckAll(limit, width, w1.0, a, t2);
      DecisionsAll(limit, width, ws, a, [Checked(a, t1), Checked(a, t2), Checked(a, t3)])
      == [w1.1, w2.1, CheckAll(limit, width, w2.0, a, t3).1]
  {
    hide Checking, CheckAll;
    var x, y, z := Checked(a, t1), Checked(a, t2), Checked(a, t3);
    assert [x, y, z][1..] == [y, z] && [y, z][1..] == [z] && [z][1..] == [];
    var w1 := Checking(limit, width, ws, a, t1);
    var w2 := Checking(limit, width, w1.0, a, t2);
    assert Decisions(limit, width, w2.0, a, [z]) == [Checking(limit, width, w2.0, a, t3).1] + [];
    assert Decisions(limit, width, w1.0, a, [y, z]) == [w2.1] + Decisions(limit, width, w2.0, a, [z]);
    var v1 := CheckAll(limit, width, ws, a, t1);
    var v2 := CheckAll(limit, width, v1.0, a, t2);
    assert DecisionsAll(limit, width, v2.0, a, [z]) == [CheckAll(limit, width, v2.0, a, t3).1] + [];
    assert DecisionsAll(limit, width, v1.0, a, [y, z]) == [v2.1] + DecisionsAll(limit, width, v2.0, a, [z]);
  }

  lemma EvictingSteps(a: string)
    ensures Checking(2, 1000, map[], a, 0) == (map[a := [0]], true)
    ensures Checking(2, 1000, map[a := [0]], a, 1001) == (map[a := [1001]], true)
    ensures Checking(2, 1000, map[a := [1001]], a, 500).1
  {
    var w: Windows := map[a := [0]];
    assert w[a := [1001]] == map[a := [1001]];
    assert [] + [0] == [0] && [] + [1001] == [1001] && [0][..0] == [];
    assert Recent([0], 1) == [];
    assert Evicted([0], 1) == [];
    assert Evicted([1001], -500) == [1001];
    hide Recent, Evicted;
  }

  lemma KeepingSteps(a: string)
    ensures CheckAll(2, 1000, map[], a, 0) == (map[a := [0]], true)
    ensures CheckAll(2, 1000, map[a := [0]], a, 1001) == (map[a := [0, 1001]], true)
    ensures !CheckAll(2, 1000, map[a := [0, 1001]], a, 500).1
  {
    var w: Windows := map[a := [0]];
    assert w[a := [0, 1001]] == map[a := [0, 1001]];
    assert [] + [0] == [0] && [0] + [1001] == [0, 1001] && [0][..0] == [] && [0, 1001][..1] == [0];
    assert Recent([0], 1) == [];
    assert Recent([0], -500) == [0];
    assert Recent([0, 1001], -500) == [0, 1001];
    assert Recent([], -1000) == [];
    hide Recent;
  }

  // ---- how far readings may go back --------------------------------------------------

  function Later(a: int, b: int): int { if a >= b then a else b }

  // The readings that concern the key never fall more than d behind the latest so far.
  predicate BackAtMost(d: nat, id: string, top: int, calls: seq<Call>)
    decreases |calls|
  {
    calls == []
    || (if Reads(calls[0], id) then top - d <= calls[0].now && BackAtMost(d, id, Later(top, calls[0].now), calls[1..])
        else BackAtMost(d, id, top, calls[1..]))
  }

  // On every run of that kind from the start the limiter decides as the one that keeps everything.
  ghost predicate Tolerates(limit: nat, width: nat, d: nat) {
    forall id, top, calls | BackAtMost(d, id, top, calls) ::
      Decisions(limit, width, map[], id, calls) == DecisionsAll(limit, width, map[], id, calls)
  }

  lemma {:induction false} NotBackIsForward(id: string, top: int, calls: seq<Call>)
    requires BackAtMost(0, id, top, calls)
    ensures Forward(id, top, calls)
    decreases |calls|
  {
    if calls != [] { NotBackIsForward(id, if Reads(calls[0], id) then calls[0].now else top, calls[1..]); }
  }

  // With a limit of zero nothing is ever accepted.
  lemma {:induction false} ZeroLimit(width: nat, ws: Windows, all: Windows, id: string, calls: seq<Call>)
    ensures Decisions(0, width, ws, id, calls) == DecisionsAll(0, width, all, id, calls)
    decreases |calls|
  {
    if calls != [] {
      match calls[0] {
        case Checked(d, now) =>
          assert !Checking(0, width, ws, d, now).1 && !CheckAll(0, width, all, d, now).1;
          hide Checking, CheckAll;
          ZeroLimit(width, Checking(0, width, ws, d, now).0, CheckAll(0, width, all, d, now).0, id, calls[1..]);
        case Removed(d) => ZeroLimit(width, Removing(ws, d), Removing(all, d), id, calls[1..]);
        case Cleaned(now) => ZeroLimit(width, CleanedUp(width, ws, now), all, id, calls[1..]);
      }
    }
  }

  predicate AllZero(ts: Times) {
    forall i | 0 <= i < |ts| :: ts[i] == 0
  }

  // n checks at time 0, a clean-up when they leave the window, and a check one tick earlier.
  function Burst(n: nat, width: nat, id: string): seq<Call> {
    if n == 0 then [Cleaned(width), Checked(id, width - 1)] else [Checked(id, 0)] + Burst(n - 1, width, id)
  }

  lemma {:induction false} BurstBack(n: nat, width: nat, id: string, d: nat)
    requires d > 0
    ensures BackAtMost(d, id, 0, Burst(n, width, id))
  {
    var calls := Burst(n, width, id);
    if n == 0 {
      var last := Checked(id, width - 1);
      assert calls[1..] == [last] && [last][1..] == [];
      assert BackAtMost(d, id, width, [last]);
    } else {
      assert calls[1..] == Burst(n - 1, width, id);
      BurstBack(n - 1, width, id, d);
    }
  }

  lemma {:induction false} ZeroRecent(ts: Times, cutoff: int)
    requires AllZero(ts)
    ensures Recent(ts, cutoff) == if cutoff < 0 then ts else []
  {
    if ts != [] { ZeroRecent(ts[..|ts| - 1], cutoff); }
  }

  // The check after the clean-up is accepted by the limiter and refused by the one that keeps everything.
  lemma BurstEnds(limit: nat, width: nat, ws: Windows, all: Windows, id: string)
    requires limit > 0 && AllZero(TimesOf(ws, id)) && AllZero(TimesOf(all, id)) && |TimesOf(all, id)| == limit
    ensures Decisions(limit, width, ws, id, Burst(0, width, id)) == [true]
    ensures DecisionsAll(limit, width, all, id, Burst(0, width, id)) == [false]
  {
    var calls, last := Burst(0, width, id), Checked(id, width - 1);
    assert calls[1..] == [last] && [last][1..] == [];
    ZeroRecent(TimesOf(ws, id), 0);
    ZeroRecent(TimesOf(all, id), -1);
    var cleaned := CleanedUp(width, ws, width);
    assert TimesOf(cleaned, id) == [] by { CleanedTimes(width, ws, width, id); }
    assert Evicted([], -1) == [];
    assert Checking(limit, width, cleaned, id, width - 1).1;
    assert !CheckAll(limit, width, all, id, width - 1).1;
    hide Checking, CheckAll, CleanedUp;
    assert Decisions(limit, width, cleaned, id, [last]) == [true] + [];
    assert DecisionsAll(limit, width, all, id, [last]) == [false] + [];
  }

  lemma CleanedTimes(width: nat, ws: Windows, now: int, id: string)
    ensures TimesOf(CleanedUp(width, ws, now), id) == Recent(TimesOf(ws, id), now - width)
  {
  }

  lemma BurstStep(limit: nat, width: nat, ws: Windows, all: Windows, id: string, n: nat)
    requires 0 < n <= limit && AllZero(TimesOf(ws, id)) && |TimesOf(ws, id)| <= limit - n
    requires AllZero(TimesOf(all, id)) && |TimesOf(all, id)| == limit - n
    ensures
      var (ws', ok) := Checking(limit, width, ws, id, 0);
      ok && AllZero(TimesOf(ws', id)) && |TimesOf(ws', id)| <= limit - (n - 1)
    ensures
      var (all', ok) := CheckAll(limit, width, all, id, 0);
      ok && AllZero(TimesOf(all', id)) && |TimesOf(all', id)| == limit - (n - 1)
  {
    CheckedOnce(limit, width, ws, id);
    hide Recent, Checking, TimesOf, AllZero;
    ZeroRecent(TimesOf(all, id), 0 - width);
    SpecOnce(limit, width, all, id);
  }

  lemma CheckedOnce(limit: nat, width: nat, ws: Windows, id: string)
    requires AllZero(TimesOf(ws, id)) && |TimesOf(ws, id)| < limit
    ensures
      var (ws', ok) := Checking(limit, width, ws, id, 0);
      ok && AllZero(TimesOf(ws', id)) && |TimesOf(ws', id)| <= |TimesOf(ws, id)| + 1
  {
    ZeroRecent(TimesOf(ws, id), 0 - width);
    hide Recent;
  }

  lemma SpecOnce(limit: nat, width: nat, all: Windows, id: string)
    requires AllZero(TimesOf(all, id)) && |Recent(TimesOf(all, id), 0 - width)| < limit
    ensures
      var (all', ok) := CheckAll(limit, width, all, id, 0);
      ok && AllZero(TimesOf(all', id)) && |TimesOf(all', id)| == |TimesOf(all, id)| + 1
  {
    hide Recent;
  }

  lemma DecideFirst(limit: nat, width: nat, ws: Windows, all: Windows, id: string, now: int, calls: seq<Call>)
    requires calls != [] && calls[0] == Checked(id, now)
    ensures
      var (ws', ok) := Checking(limit, width, ws, id, now);
      Decisions(limit, width, ws, id, calls) == [ok] + Decisions(limit, width, ws', id, calls[1..])
    ensures
      var (all', ok) := CheckAll(limit, width, all, id, now);
      DecisionsAll(limit, width, all, id, calls) == [ok] + DecisionsAll(limit, width, all', id, calls[1..])
  {
    hide Checking, CheckAll;
  }

  lemma {:induction false} BurstDiffers(limit: nat, width: nat, ws: Windows, all: Windows, id: string, n: nat)
    requires 0 < limit && n <= limit && AllZero(TimesOf(ws, id)) && |TimesOf(ws, id)| <= limit - n
    requires AllZero(TimesOf(all, id)) && |TimesOf(all, id)| == limit - n
    ensures Decisions(limit, width, ws, id, Burst(n, width, id)) != DecisionsAll(limit, width, all, id, Burst(n, width, id))
    decreases n
  {
    hide Checking, CheckAll, TimesOf, Burst, AllZero, Decisions, DecisionsAll;
    if n == 0 {
      BurstEnds(limit, width, ws, all, id);
    } else {
      var calls, rest := Burst(n, width, id), Burst(n - 1, width, id);
      BurstCons(n, width, id);
      BurstStep(limit, width, ws, all, id, n);
      DecideFirst(limit, width, ws, all, id, 0, calls);
      var ws', all' := Checking(limit, width, ws, id, 0).0, CheckAll(limit, width, all, id, 0).0;
      BurstDiffers(limit, width, ws', all', id, n - 1);
      DifferentTails(Decisions(limit, width, ws', id, rest), DecisionsAll(limit, width, all', id, rest));
    }
  }

  lemma BurstCons(n: nat, width: nat, id: string)
    requires n > 0
    ensures
      var calls := Burst(n, width, id);
      calls != [] && calls[0] == Checked(id, 0) && calls[1..] == Burst(n - 1, width, id)
  {
  }

  lemma DifferentTails(ds: seq<bool>, es: seq<bool>)
    requires ds != es
    ensures [true] + ds != [true] + es
  {
    assert ([true] + ds)[1..] == ds && ([true] + es)[1..] == es;
  }

  // The limiter puts up with readings that go back at most d exactly when they do not go back at
  // all, or when it accepts nothing anyway.
  lemma ToleratesIff(limit: nat, width: nat, d: nat)
    ensures Tolerates(limit, width, d) <==> d == 0 || limit == 0
  {
    if d == 0 || limit == 0 {
      forall id, top, calls | BackAtMost(d, id, top, calls)
        ensures Decisions(limit, width, map[], id, calls) == DecisionsAll(limit, width, map[], id, calls) {
        if limit == 0 {
          ZeroLimit(width, map[], map[], id, calls);
        } else {
          NotBackIsForward(id, top, calls);
          EmptyRefines(width, id, top);
          SameDecisions(limit, width, map[], map[], id, top, calls);
        }
      }
    } else {
      BurstBack(limit, width, "", d);
      BurstDiffers(limit, width, map[], map[], "", limit);
    }
  }

  // ---- cleaning changes nothing ------------------------------------------------------

  function WithoutCleanups(calls: seq<Call>): seq<Call> {
    if calls == [] then []
    else (if calls[0].Cleaned? then [] else [calls[0]]) + WithoutCleanups(calls[1..])
  }

  lemma {:induction false} ForwardEarlier(id: string, clock: int, earlier: int, calls: seq<Call>)
    requires Forward(id, clock, calls) && earlier <= clock
    ensures Forward(id, earlier, calls)
    decreases |calls|
  {
    if calls != [] && !Reads(calls[0], id) { ForwardEarlier(id, clock, earlier, calls[1..]); }
  }

  lemma {:induction false} ForwardWithout(id: string, clock: int, calls: seq<Call>)
    requires Forward(id, clock, calls)
    ensures Forward(id, clock, WithoutCleanups(calls))
    decreases |calls|
  {
    if calls != [] {
      var rest := WithoutCleanups(calls[1..]);
      ForwardWithout(id, if Reads(calls[0], id) then calls[0].now else clock, calls[1..]);
      if calls[0].Cleaned? {
        assert [] + rest == rest;
        ForwardEarlier(id, calls[0].now, clock, rest);
      } else {
        assert ([calls[0]] + rest)[1..] == rest;
      }
    }
  }

  lemma {:induction false} SpecIgnoresCleanups(limit: nat, width: nat, all: Windows, id: string, calls: seq<Call>)
    ensures DecisionsAll(limit, width, all, id, WithoutCleanups(calls)) == DecisionsAll(limit, width, all, id, calls)
    decreases |calls|
  {
    if calls != [] {
      var rest := WithoutCleanups(calls[1..]);
      if calls[0].Cleaned? {
        assert [] + rest == rest;
        SpecIgnoresCleanups(limit, width, all, id, calls[1..]);
      } else {
        assert ([calls[0]] + rest)[1..] == rest && ([calls[0]] + rest)[0] == calls[0];
        match calls[0] {
          case Checked(d, now) => SpecIgnoresCleanups(limit, width, CheckAll(limit, width, all, d, now).0, id, calls[1..]);
          case Removed(d) => SpecIgnoresCleanups(limit, width, Removing(all, d), id, calls[1..]);
        }
        hide CheckAll;
      }
    }
  }

  lemma EmptyRefines(width: nat, id: string, clock: int)
    ensures Refines(width, map[], map[], id, clock)
  {
  }

  // Cleaning up at any points of a run changes none of its decisions.
  lemma CleanupInvisible(limit: nat, width: nat, id: string, clock: int, calls: seq<Call>)
    requires Forward(id, clock, calls)
    ensures Decisions(limit, width, map[], id, calls) == Decisions(limit, width, map[], id, WithoutCleanups(calls))
  {
    EmptyRefines(width, id, clock);
    ForwardWithout(id, clock, calls);
    SameDecisions(limit, width, map[], map[], id, clock, calls);
    SameDecisions(limit, width, map[], map[], id, clock, WithoutCleanups(calls));
    SpecIgnoresCleanups(limit, width, map[], id, calls);
  }

  // ---- removal -----------------------------------------------------------------------

  // Decisions on a key depend on its own window only.
  lemma {:induction false} OwnWindow(limit: nat, width: nat, ws: Windows, ws': Windows, id: string, calls: seq<Call>)
    requires TimesOf(ws, id) == TimesOf(ws', id)
    ensures Decisions(limit, width, ws, id, calls) == Decisions(limit, width, ws', id, calls)
    decreases |calls|
  {
    hide Recent, Evicted;
    if calls != [] {
      match calls[0] {
        case Checked(d, now) =>
          OwnWindow(limit, width, Checking(limit, width, ws, d, now).0, Checking(limit, width, ws', d, now).0, id, calls[1..]);
        case Removed(d) => OwnWindow(limit, width, Removing(ws, d), Removing(ws', d), id, calls[1..]);
        case Cleaned(now) =>
          CleanedTimes(width, ws, now, id);
          CleanedTimes(width, ws', now, id);
          OwnWindow(limit, width, CleanedUp(width, ws, now), CleanedUp(width, ws', now), id, calls[1..]);
      }
    }
  }

  // A removed key starts afresh, and a removal is not noticed by the others.
  lemma RemovedStartsAfresh(limit: nat, width: nat, ws: Windows, d: string, id: string, calls: seq<Call>)
    ensures Decisions(limit, width, ws, id, [Removed(d)] + calls)
         == Decisions(limit, width, if d == id then map[] else ws, id, calls)
  {
    var all := [Removed(d)] + calls;
    assert all[0] == Removed(d) && all[1..] == calls;
    OwnWindow(limit, width, Removing(ws, d), if d == id then map[] else ws, id, calls);
    hide Decisions;
  }

  // ---- the limit ---------------------------------------------------------------------

  // How many of the times lie in (from, from + width].
  function Within(ts: Times, from: int, width: nat): nat {
    if ts == [] then 0
    else Within(ts[..|ts| - 1], from, width) + if from < ts[|ts| - 1] <= from + width then 1 else 0
  }

  ghost predicate Limited(limit: nat, width: nat, ts: Times) {
    forall x :: Within(ts, x, width) <= limit
  }

  lemma {:induction false} WithinRecent(ts: Times, from: int, width: nat, c: int)
    requires c <= from
    ensures Within(ts, from, width) <= |Recent(ts, c)|
  {
    if ts != [] { WithinRecent(ts[..|ts| - 1], from, width, c); }
  }

  lemma AcceptLimited(limit: nat, width: nat, ts: Times, now: int)
    requires Limited(limit, width, ts) && |Recent(ts, now - width)| < limit
    ensures Limited(limit, width, ts + [now])
  {
    forall x ensures Within(ts + [now], x, width) <= limit {
      assert (ts + [now])[..|ts|] == ts;
      assert Within(ts, x, width) <= limit;
      if x < now <= x + width { WithinRecent(ts, x, width, now - width); }
    }
  }

  // The accepted times of one key, taken from the decisions of a run on it.
  function Accepted(id: string, calls: seq<Call>, ds: seq<bool>): Times
    decreases |calls|
  {
    if calls == [] then []
    else if !(calls[0].Checked? && calls[0].id == id) then Accepted(id, calls[1..], ds)
    else if ds == [] then []
    else (if ds[0] then [calls[0].now] else []) + Accepted(id, calls[1..], ds[1..])
  }

  predicate NoRemoval(id: string, calls: seq<Call>) {
    forall c <- calls :: c.Removed? ==> c.id != id
  }

  lemma {:induction false} SpecLimited(limit: nat, width: nat, all: Windows, id: string, calls: seq<Call>)
    requires Limited(limit, width, TimesOf(all, id)) && NoRemoval(id, calls)
    ensures Limited(limit, width, TimesOf(all, id) + Accepted(id, calls, DecisionsAll(limit, width, all, id, calls)))
    decreases |calls|
  {
    hide Limited, CheckAll, TimesOf, Recent, DecisionsAll;
    var ts := TimesOf(all, id);
    if calls == [] {
      assert ts + [] == ts;
    } else {
      var c, rest := calls[0], calls[1..];
      var all' := SpecNext(limit, width, all, c);
      SpecFirst(limit, width, all, id, calls);
      if c.Checked? { TimesAfter(limit, width, all, c.id, c.now, id); }
      if c.Removed? { RemovedOther(all, c.id, id); }
      SpecLimited(limit, width, all', id, rest);
      hide Accepted, SpecDecision, SpecTaken, SpecNext;
      Regroup(ts, SpecTaken(limit, width, all, id, c), Accepted(id, rest, DecisionsAll(limit, width, all', id, rest)));
    }
  }

  lemma RemovedOther(all: Windows, d: string, id: string)
    requires d != id
    ensures TimesOf(Removing(all, d), id) == TimesOf(all, id)
  {
  }

  lemma TimesAfter(limit: nat, width: nat, all: Windows, d: string, now: int, id: string)
    requires Limited(limit, width, TimesOf(all, id))
    ensures
      var (all', ok) := CheckAll(limit, width, all, d, now);
      Limited(limit, width, TimesOf(all', id))
      && TimesOf(all', id) == if d == id && ok then TimesOf(all, id) + [now] else TimesOf(all, id)
  {
    hide Limited, Recent;
    if d == id && CheckAll(limit, width, all, d, now).1 { AcceptLimited(limit, width, TimesOf(all, id), now); }
  }

  // On every run whose readings for the key never go back and that never removes it, no interval
  // (x, x + width] holds more than `limit` accepted calls of that key.
  lemma AtMostLimit(limit: nat, width: nat, clock: int, id: string, calls: seq<Call>, x: int)
    requires Forward(id, clock, calls) && NoRemoval(id, calls)
    ensures Within(Accepted(id, calls, Decisions(limit, width, map[], id, calls)), x, width) <= limit
  {
    EmptyRefines(width, id, clock);
    SameDecisions(limit, width, map[], map[], id, clock, calls);
    SpecLimited(limit, width, map[], id, calls);
    var ts := Accepted(id, calls, Decisions(limit, width, map[], id, calls));
    assert [] + ts == ts;
  }

  // ---- each decision, exactly --------------------------------------------------------

  function LaterThan(cutoff: int): int -> bool { (t: int) => t > cutoff }

  lemma {:induction false} RecentCounts(ts: Times, cutoff: int)
    ensures |Recent(ts, cutoff)| == |Places(ts, LaterThan(cutoff))|
  {
    if ts == [] {
      assert Places(ts, LaterThan(cutoff)) == {};
    } else {
      var n := |ts| - 1;
      RecentCounts(ts[..n], cutoff);
      PlacesSnoc(ts[..n], ts[n], LaterThan(cutoff));
      assert ts == ts[..n] + [ts[n]];
      hide Places;
    }
  }

  function SpecNext(limit: nat, width: nat, all: Windows, c: Call): Windows {
    match c
    case Checked(d, now) => CheckAll(limit, width, all, d, now).0
    case Removed(d) => Removing(all, d)
    case Cleaned(_) => all
  }

  // The decision on the key that the call brings, if it is a check of it.
  function SpecDecision(limit: nat, width: nat, all: Windows, id: string, c: Call): seq<bool> {
    if c.Checked? && c.id == id then [CheckAll(limit, width, all, id, c.now).1] else []
  }

  // The time the call adds to the accepted ones.
  function SpecTaken(limit: nat, width: nat, all: Windows, id: string, c: Call): Times {
    if SpecDecision(limit, width, all, id, c) == [true] then [c.now] else []
  }

  lemma SpecFirst(limit: nat, width: nat, all: Windows, id: string, calls: seq<Call>)
    requires calls != [] && (calls[0].Removed? ==> calls[0].id != id)
    ensures
      var c, all' := calls[0], SpecNext(limit, width, all, calls[0]);
      var ds := DecisionsAll(limit, width, all', id, calls[1..]);
      DecisionsAll(limit, width, all, id, calls) == SpecDecision(limit, width, all, id, c) + ds
      && Accepted(id, calls, SpecDecision(limit, width, all, id, c) + ds)
         == SpecTaken(limit, width, all, id, c) + Accepted(id, calls[1..], ds)
      && TimesOf(all', id) == TimesOf(all, id) + SpecTaken(limit, width, all, id, c)
  {
    hide Recent;
    var c, all' := calls[0], SpecNext(limit, width, all, calls[0]);
    var ds := DecisionsAll(limit, width, all', id, calls[1..]);
    assert [] + ds == ds && TimesOf(all, id) + [] == TimesOf(all, id);
    assert [] + Accepted(id, calls[1..], ds) == Accepted(id, calls[1..], ds);
    if c.Checked? && c.id == id {
      var ok := CheckAll(limit, width, all, id, c.now).1;
      assert ([ok] + ds)[1..] == ds && ([ok] + ds)[0] == ok;
    }
  }

  // One more check at the end of a run on the specification.
  lemma {:induction false} SpecLast(limit: nat, width: nat, all: Windows, id: string, before: seq<Call>, now: int)
    requires NoRemoval(id, before)
    ensures
      var ds := DecisionsAll(limit, width, all, id, before);
      var ts := TimesOf(all, id) + Accepted(id, before, ds);
      DecisionsAll(limit, width, all, id, before + [Checked(id, now)]) == ds + [|Recent(ts, now - width)| < limit]
    decreases |before|
  {
    var calls := before + [Checked(id, now)];
    if before == [] {
      assert calls[0] == Checked(id, now) && calls[1..] == [];
      assert TimesOf(all, id) + [] == TimesOf(all, id);
    } else {
      hide Recent, DecisionsAll, Accepted, CheckAll, TimesOf, SpecNext, SpecDecision, SpecTaken;
      var c, rest := before[0], before[1..];
      var all' := SpecNext(limit, width, all, c);
      assert calls[0] == c && calls[1..] == rest + [Checked(id, now)];
      SpecFirst(limit, width, all, id, before);
      SpecFirst(limit, width, all, id, calls);
      SpecLast(limit, width, all', id, rest, now);
      Regroup(TimesOf(all, id), SpecTaken(limit, width, all, id, c), Accepted(id, rest, DecisionsAll(limit, width, all', id, rest)));
      RegroupLast(limit, width, all, all', id, c, rest, now);
    }
  }

  lemma Regroup<T>(a: seq<T>, b: seq<T>, c: seq<T>)
    ensures a + (b + c) == (a + b) + c
  {
  }

  lemma RegroupLast(limit: nat, width: nat, all: Windows, all': Windows, id: string, c: Call, rest: seq<Call>, now: int)
    ensures
      forall verdict: seq<bool> ::
        SpecDecision(limit, width, all, id, c) + (DecisionsAll(limit, width, all', id, rest) + verdict)
        == (SpecDecision(limit, width, all, id, c) + DecisionsAll(limit, width, all', id, rest)) + verdict
  {
    hide SpecDecision, DecisionsAll;
  }

  // On every run whose readings for the key never go back and that never removes it, a check is
  // accepted exactly when fewer than `limit` calls were accepted in the `width` before it.
  lemma AcceptedIff(limit: nat, width: nat, clock: int, id: string, before: seq<Call>, now: int)
    requires Forward(id, clock, before + [Checked(id, now)]) && NoRemoval(id, before)
    ensures
      var ds := Decisions(limit, width, map[], id, before);
      Decisions(limit, width, map[], id, before + [Checked(id, now)])
      == ds + [|Places(Accepted(id, before, ds), LaterThan(now - width))| < limit]
  {
    ForwardPrefix(id, clock, before, Checked(id, now));
    EmptyRefines(width, id, clock);
    SameDecisions(limit, width, map[], map[], id, clock, before);
    SameDecisions(limit, width, map[], map[], id, clock, before + [Checked(id, now)]);
    SpecLast(limit, width, map[], id, before, now);
    var ts := Accepted(id, before, Decisions(limit, width, map[], id, before));
    assert [] + ts == ts;
    RecentCounts(ts, now - width);
  }

  lemma {:induction false} ForwardPrefix(id: string, clock: int, before: seq<Call>, c: Call)
    requires Forward(id, clock, before + [c])
    ensures Forward(id, clock, before)
    decreases |before|
  {
    if before != [] {
      var calls := before + [c];
      assert calls[0] == before[0] && calls[1..] == before[1..] + [c];
      ForwardPrefix(id, if Reads(calls[0], id) then calls[0].now else clock, before[1..], c);
    }
  }

  // ---- the limiter object ------------------------------------------------------------

  method FilterRecent(ts: Times, cutoff: int) returns (kept: Times)
    ensures kept == Recent(ts, cutoff)
  {
    kept := [];
    for i := 0 to |ts|
      invariant kept == Recent(ts[..i], cutoff)
    {
      assert ts[..i + 1][..i] == ts[..i];
      if ts[i] > cutoff { kept := kept + [ts[i]]; }
    }
    assert ts[..|ts|] == ts;
  }

  lemma {:induction false} RecentFilters(ts: Times, cutoff: int)
    ensures Filters(ts, LaterThan(cutoff), Recent(ts, cutoff))
  {
    hide Filters;
    if ts == [] {
      FiltersNone(LaterThan(cutoff));
    } else {
      var n := |ts| - 1;
      RecentFilters(ts[..n], cutoff);
      FiltersSnoc(ts[..n], LaterThan(cutoff), Recent(ts[..n], cutoff), ts[n]);
      assert ts == ts[..n] + [ts[n]];
      assert Recent(ts[..n], cutoff) + [] == Recent(ts[..n], cutoff);
    }
  }

  // A clean-up keeps the keys with a time in the window, and of each exactly those times, in order.
  lemma CleanedExact(width: nat, ws: Windows, now: int)
    ensures
      var after := CleanedUp(width, ws, now);
      (forall id :: id in after <==> id in ws && exists t <- ws[id] :: t > now - width)
      && forall id <- after :: Filters(ws[id], LaterThan(now - width), after[id])
  {
    hide Filters, Recent;
    forall id | id in ws
      ensures Filters(ws[id], LaterThan(now - width), Recent(ws[id], now - width))
      ensures Recent(ws[id], now - width) != [] <==> exists t <- ws[id] :: t > now - width {
      RecentFilters(ws[id], now - width);
      FiltersIn(ws[id], LaterThan(now - width), Recent(ws[id], now - width));
      if Recent(ws[id], now - width) != [] {
        var t := Recent(ws[id], now - width)[0];
        assert t in ws[id] && t > now - width;
      }
    }
  }

  // The windows when the keys in `todo` are still to be cleaned.
  function PartlyCleaned(width: nat, ws: Windows, now: int, todo: set<string>): Windows {
    map id | id in ws && (id in todo || Recent(ws[id], now - width) != []) ::
      if id in todo then ws[id] else Recent(ws[id], now - width)
  }

  lemma PartlyCleanedEnds(width: nat, ws: Windows, now: int)
    ensures PartlyCleaned(width, ws, now, ws.Keys) == ws
    ensures PartlyCleaned(width, ws, now, {}) == CleanedUp(width, ws, now)
  {
  }

  lemma PartlyCleanedStep(width: nat, ws: Windows, now: int, todo: set<string>, id: string)
    requires id in todo && id in ws
    ensures
      var cur := PartlyCleaned(width, ws, now, todo);
      id in cur && cur[id] == ws[id]
      && PartlyCleaned(width, ws, now, todo - {id}) ==
         if Recent(ws[id], now - width) == [] then cur - {id} else cur[id := Recent(ws[id], now - width)]
  {
  }

  class Limiter {
    const limit: nat
    const width: nat
    var windows: Windows

    constructor (limit: nat, width: nat)
      ensures this.limit == limit && this.width == width && windows == map[]
    {
      this.limit, this.width, windows := limit, width, map[];
    }

    method Check(id: string, now: int) returns (ok: bool)
      modifies this
      ensures (windows, ok) == Checking(limit, width, old(windows), id, now)
    {
      var cutoff := now - width;
      var timestamps := if id in windows then windows[id] else [];
      if |timestamps| > 0 && timestamps[0] <= cutoff {
        timestamps := FilterRecent(timestamps, cutoff);
      }
      windows := windows[id := timestamps];
      if |timestamps| >= limit { return false; }
      assert old(windows)[id := timestamps][id := timestamps + [now]] == old(windows)[id := timestamps + [now]];
      windows := windows[id := timestamps + [now]];
      ok := true;
    }

    method Remove(id: string)
      modifies this
      ensures windows == old(windows) - {id}
    {
      windows := windows - {id};
    }

    method Cleanup(now: int)
      modifies this
      ensures windows == CleanedUp(width, old(windows), now)
      ensures forall id :: id in windows <==> id in old(windows) && exists t <- old(windows)[id] :: t > now - width
      ensures forall id <- windows :: Filters(old(windows)[id], LaterThan(now - width), windows[id])
    {
      CleanedExact(width, windows, now);
      hide Filters, LaterThan;
      hide PartlyCleaned, CleanedUp, Recent;
      var cutoff, todo := now - width, windows.Keys;
      PartlyCleanedEnds(width, windows, now);
      while todo != {}
        invariant todo <= old(windows).Keys
        invariant windows == PartlyCleaned(width, old(windows), now, todo)
        decreases todo
      {
        var id :| id in todo;
        PartlyCleanedStep(width, old(windows), now, todo, id);
        var filtered := FilterRecent(windows[id], cutoff);
        if |filtered| == 0 { windows := windows - {id}; } else { windows := windows[id := filtered]; }
        todo := todo - {id};
      }
    }
  }
}
