/**
 * Flow control for one client in one room: how many messages were sent and not acknowledged,
 * judged against a window. The flow of a subscription also remembers, for the proofs, which
 * sequence numbers were really sent to the client.
 */
module AckWindow {
  import opened Wrappers
  import opened Collections

  datatype Ack = Ack(highest: nat, unacked: nat, paused: bool)

  const FRESH: Ack := Ack(0, 0, false)

  function MaxInt(a: int, b: int): int { if a >= b then a else b }

  predicate Blocked(window: nat, a: Ack) {
    a.paused || a.unacked >= window
  }

  // A broadcast reaching the client: sent, or withheld and the client paused.
  function Offer(window: nat, a: Ack): Ack {
    if Blocked(window, a) then a.(paused := true) else a.(unacked := a.unacked + 1)
  }

  function Acknowledge(window: Option<nat>, a: Ack, s: int): Ack {
    var b := if s > a.highest then Ack(s, MaxInt(0, a.unacked - (s - a.highest)), a.paused) else a;
    if b.paused && !AtLimit(b.unacked, window) then b.(paused := false) else b
  }

  // ---- a subscription's flow ---------------------------------------------------------

  datatype Flow = Flow(issued: nat, ack: Ack, sent: set<nat>)
  datatype Event =
    | Broadcast(reaches: bool)   // the room's next message; whether this client is a live target of it
    | Acked(s: int)
    | Left                       // the client leaves or disconnects: its window is dropped

  const START: Flow := Flow(0, FRESH, {})

  function Next(window: nat, f: Flow, e: Event): Flow {
    match e
    case Broadcast(reaches) =>
      if !reaches then f.(issued := f.issued + 1)
      else
        Flow(f.issued + 1, Offer(window, f.ack),
             if Blocked(window, f.ack) then f.sent else f.sent + {f.issued + 1})
    case Acked(s) => f.(ack := Acknowledge(Some(window), f.ack, s))
    case Left => Flow(f.issued, FRESH, {})
  }

  function Run(window: nat, f: Flow, es: seq<Event>): Flow
    decreases |es|
  {
    if es == [] then f else Run(window, Next(window, f, es[0]), es[1..])
  }

  // Acknowledgements name numbers the room has already issued.
  predicate Honest(window: nat, f: Flow, es: seq<Event>)
    decreases |es|
  {
    es == [] || ((es[0].Acked? ==> es[0].s <= f.issued) && Honest(window, Next(window, f, es[0]), es[1..]))
  }

  function Above(sent: set<nat>, h: nat): set<nat> {
    set k | k in sent && k > h
  }

  // The messages sent to the client that it has not acknowledged.
  function InFlight(f: Flow): nat {
    |Above(f.sent, f.ack.highest)|
  }

  ghost predicate Inv(window: nat, f: Flow) {
    f.ack.unacked <= window && f.ack.highest <= f.issued
    && (forall k <- f.sent :: 1 <= k <= f.issued)
    && f.ack.unacked <= InFlight(f) && (f.ack.paused ==> f.ack.unacked >= window)
  }

  function Range(lo: nat, hi: nat): (r: set<nat>)
    ensures forall k: nat :: k in r <==> lo < k <= hi
  {
    if hi <= lo then {} else Range(lo, hi - 1) + {hi}
  }

  lemma {:induction false} RangeSize(lo: nat, hi: nat)
    requires lo <= hi
    ensures |Range(lo, hi)| == hi - lo
    decreases hi
  {
    if lo < hi {
      RangeSize(lo, hi - 1);
      assert hi !in Range(lo, hi - 1);
    }
  }

  // What was in flight above h splits at s, and at most s - h of it lies at or below s.
  lemma SplitAbove(sent: set<nat>, h: nat, s: nat)
    requires h <= s
    ensures |Above(sent, h)| == |sent * Range(h, s)| + |Above(sent, s)|
    ensures |sent * Range(h, s)| <= s - h
    ensures |sent * Range(h, s)| == s - h <==> Range(h, s) <= sent
  {
    assert Above(sent, h) == sent * Range(h, s) + Above(sent, s);
    assert sent * Range(h, s) !! Above(sent, s);
    RangeSize(h, s);
    SubsetSize(sent * Range(h, s), Range(h, s));
    if Range(h, s) <= sent {
      assert sent * Range(h, s) == Range(h, s);
    } else {
      var k :| k in Range(h, s) && k !in sent;
      SubsetSize(sent * Range(h, s), Range(h, s) - {k});
    }
  }

  lemma BroadcastInFlight(window: nat, f: Flow, reaches: bool)
    requires Inv(window, f)
    ensures InFlight(Next(window, f, Broadcast(reaches)))
         == InFlight(f) + Next(window, f, Broadcast(reaches)).ack.unacked - f.ack.unacked
    ensures f.ack.highest == Next(window, f, Broadcast(reaches)).ack.highest
  {
    var f' := Next(window, f, Broadcast(reaches));
    if reaches && !Blocked(window, f.ack) {
      assert Above(f'.sent, f.ack.highest) == Above(f.sent, f.ack.highest) + {f.issued + 1};
    }
  }

  lemma InvNext(window: nat, f: Flow, e: Event)
    requires Inv(window, f) && (e.Acked? ==> e.s <= f.issued)
    ensures Inv(window, Next(window, f, e))
  {
    match e
    case Broadcast(reaches) => BroadcastInFlight(window, f, reaches);
    case Acked(s) =>
      if s > f.ack.highest { SplitAbove(f.sent, f.ack.highest, s); }
    case Left =>
  }

  // Over every run with honest acknowledgements the count stays within the window and never
  // exceeds what is truly in flight.
  lemma {:induction false} WindowHolds(window: nat, f: Flow, es: seq<Event>)
    requires Inv(window, f) && Honest(window, f, es)
    ensures Inv(window, Run(window, f, es))
    decreases |es|
  {
    if es != [] {
      InvNext(window, f, es[0]);
      WindowHolds(window, Next(window, f, es[0]), es[1..]);
    }
  }

  // ---- when the count is exact -------------------------------------------------------

  // The acknowledgement passes over no number withheld from the client, or leaves nothing in flight.
  ghost predicate Careful(f: Flow, s: int) {
    s <= f.ack.highest || Range(f.ack.highest, s) <= f.sent || Above(f.sent, s) == {}
  }

  lemma AckExactIff(window: nat, f: Flow, s: int)
    requires f.ack.unacked == InFlight(f)
    ensures
      var f' := Next(window, f, Acked(s));
      f'.ack.unacked == InFlight(f') <==> Careful(f, s)
  {
    if s > f.ack.highest {
      SplitAbove(f.sent, f.ack.highest, s);
      assert |Above(f.sent, s)| == 0 <==> Above(f.sent, s) == {};
    }
  }

  ghost predicate ExactThroughout(window: nat, f: Flow, es: seq<Event>)
    decreases |es|
  {
    f.ack.unacked == InFlight(f) && (es == [] || ExactThroughout(window, Next(window, f, es[0]), es[1..]))
  }

  ghost predicate CarefulThroughout(window: nat, f: Flow, es: seq<Event>)
    decreases |es|
  {
    es == [] || ((es[0].Acked? ==> Careful(f, es[0].s)) && CarefulThroughout(window, Next(window, f, es[0]), es[1..]))
  }

  // The count is the true number in flight at every point of a run exactly when every
  // acknowledgement in it is careful.
  lemma {:induction false} ExactIffCareful(window: nat, f: Flow, es: seq<Event>)
    requires Inv(window, f) && Honest(window, f, es) && f.ack.unacked == InFlight(f)
    ensures ExactThroughout(window, f, es) <==> CarefulThroughout(window, f, es)
    decreases |es|
  {
    if es != [] {
      var f' := Next(window, f, es[0]);
      InvNext(window, f, es[0]);
      match es[0] {
        case Broadcast(reaches) => BroadcastInFlight(window, f, reaches);
        case Acked(s) => AckExactIff(window, f, s);
        case Left =>
      }
      if f'.ack.unacked == InFlight(f') {
        ExactIffCareful(window, f', es[1..]);
      }
    }
  }

  lemma {:induction false} ExactAtEnd(window: nat, f: Flow, es: seq<Event>)
    requires ExactThroughout(window, f, es)
    ensures Run(window, f, es).ack.unacked == InFlight(Run(window, f, es))
    decreases |es|
  {
    if es != [] { ExactAtEnd(window, Next(window, f, es[0]), es[1..]); }
  }

  // No number was skipped for the client in the run.
  ghost predicate Unskipped(window: nat, f: Flow, es: seq<Event>)
    decreases |es|
  {
    Range(0, f.issued) <= f.sent && (es == [] || Unskipped(window, Next(window, f, es[0]), es[1..]))
  }

  lemma {:induction false} UnskippedIsCareful(window: nat, f: Flow, es: seq<Event>)
    requires Honest(window, f, es) && Unskipped(window, f, es)
    ensures CarefulThroughout(window, f, es)
    decreases |es|
  {
    if es != [] { UnskippedIsCareful(window, Next(window, f, es[0]), es[1..]); }
  }

  // With no number skipped, what is truly in flight is what is counted, and within the window.
  lemma TrueWindow(window: nat, es: seq<Event>)
    requires Honest(window, START, es) && (CarefulThroughout(window, START, es) || Unskipped(window, START, es))
    ensures
      var f := Run(window, START, es);
      f.ack.unacked == InFlight(f) <= window
  {
    StartInv(window);
    if Unskipped(window, START, es) { UnskippedIsCareful(window, START, es); }
    ExactIffCareful(window, START, es);
    ExactAtEnd(window, START, es);
    WindowHolds(window, START, es);
  }

  lemma StartInv(window: nat)
    ensures Inv(window, START) && START.ack.unacked == InFlight(START)
  {
    assert Above({}, 0) == {};
  }

  // ---- when the window holds ---------------------------------------------------------

  function Broadcasts(n: nat): seq<Event> {
    if n == 0 then [] else [Broadcast(true)] + Broadcasts(n - 1)
  }

  // However many messages now reach the client, it never has more than the window in flight.
  ghost predicate Safe(window: nat, f: Flow) {
    forall n: nat :: InFlight(Run(window, f, Broadcasts(n))) <= window
  }

  ghost predicate SafeThroughout(window: nat, f: Flow, es: seq<Event>)
    decreases |es|
  {
    Safe(window, f) && (es == [] || SafeThroughout(window, Next(window, f, es[0]), es[1..]))
  }

  lemma {:induction false} FloodStaysExact(window: nat, f: Flow, n: nat)
    requires Inv(window, f) && f.ack.unacked == InFlight(f)
    ensures InFlight(Run(window, f, Broadcasts(n))) <= window
    decreases n
  {
    if n > 0 {
      BroadcastInFlight(window, f, true);
      InvNext(window, f, Broadcast(true));
      assert Broadcasts(n)[1..] == Broadcasts(n - 1);
      FloodStaysExact(window, Next(window, f, Broadcast(true)), n - 1);
    }
  }

  // The window is filled by what it seems to have room for.
  lemma {:induction false} FloodFills(window: nat, f: Flow, n: nat)
    requires Inv(window, f) && n <= window - f.ack.unacked
    ensures InFlight(Run(window, f, Broadcasts(n))) == InFlight(f) + n
    decreases n
  {
    if n > 0 {
      BroadcastInFlight(window, f, true);
      InvNext(window, f, Broadcast(true));
      assert Broadcasts(n)[1..] == Broadcasts(n - 1);
      FloodFills(window, Next(window, f, Broadcast(true)), n - 1);
    }
  }

  // A flow cannot be driven over the window exactly when its count is the true number in flight.
  lemma SafeIffExact(window: nat, f: Flow)
    requires Inv(window, f)
    ensures Safe(window, f) <==> f.ack.unacked == InFlight(f)
  {
    if f.ack.unacked == InFlight(f) {
      forall n: nat ensures InFlight(Run(window, f, Broadcasts(n))) <= window { FloodStaysExact(window, f, n); }
    } else {
      var n: nat := window - f.ack.unacked;
      FloodFills(window, f, n);
      assert InFlight(Run(window, f, Broadcasts(n))) > window;
    }
  }

  lemma {:induction false} SafeIffExactThroughout(window: nat, f: Flow, es: seq<Event>)
    requires Inv(window, f) && Honest(window, f, es)
    ensures SafeThroughout(window, f, es) <==> ExactThroughout(window, f, es)
    decreases |es|
  {
    SafeIffExact(window, f);
    if es != [] {
      InvNext(window, f, es[0]);
      SafeIffExactThroughout(window, Next(window, f, es[0]), es[1..]);
    }
  }

  // At no point of a run can the client be driven over the window if and only if every
  // acknowledgement in it passes over no withheld number or leaves nothing in flight.
  lemma NeverOverrunIff(window: nat, es: seq<Event>)
    requires Honest(window, START, es)
    ensures SafeThroughout(window, START, es) <==> CarefulThroughout(window, START, es)
  {
    StartInv(window);
    SafeIffExactThroughout(window, START, es);
    ExactIffCareful(window, START, es);
  }

  // The window's own pauses are enough to overrun it: with a window of two, message 3 is
  // withheld, and acknowledging 4 then also discounts message 5, still in flight.
  lemma WindowOverrun()
    ensures
      var b := Broadcast(true);
      var es := [b, b, b] + ([Acked(2), b, b] + [Acked(4), b, b]);
      var f := Run(2, START, es);
      Honest(2, START, es) && f.sent == {1, 2, 4, 5, 6, 7} && f.ack.highest == 4 && f.ack.unacked == 2 && InFlight(f) == 3
  {
    var b := Broadcast(true);
    FirstThree();
    NextThree();
    LastThree();
    hide Run, Honest, Next, InFlight;
    RunConcat(2, START, [b, b, b], [Acked(2), b, b] + [Acked(4), b, b]);
    RunConcat(2, Flow(3, Ack(0, 2, true), {1, 2}), [Acked(2), b, b], [Acked(4), b, b]);
  }

  lemma {:induction false} RunConcat(window: nat, f: Flow, a: seq<Event>, b: seq<Event>)
    ensures Run(window, f, a + b) == Run(window, Run(window, f, a), b)
    ensures Honest(window, f, a + b) <==> Honest(window, f, a) && Honest(window, Run(window, f, a), b)
    decreases |a|
  {
    if a == [] {
      assert a + b == b;
    } else {
      assert (a + b)[1..] == a[1..] + b;
      RunConcat(window, Next(window, f, a[0]), a[1..], b);
    }
  }

  lemma ThreeSteps(window: nat, f: Flow, x: Event, y: Event, z: Event)
    ensures Run(window, f, [x, y, z]) == Next(window, Next(window, Next(window, f, x), y), z)
    ensures Honest(window, f, [x, y, z]) <==>
            (x.Acked? ==> x.s <= f.issued) && (y.Acked? ==> y.s <= Next(window, f, x).issued)
            && (z.Acked? ==> z.s <= Next(window, Next(window, f, x), y).issued)
  {
    assert [x, y, z][1..] == [y, z] && [y, z][1..] == [z] && [z][1..] == [];
    var f1 := Next(window, f, x);
    var f2 := Next(window, f1, y);
    assert Run(window, f2, [z]) == Next(window, f2, z);
    assert Run(window, f1, [y, z]) == Next(window, f2, z);
    assert Honest(window, f2, [z]) <==> (z.Acked? ==> z.s <= f2.issued);
    assert Honest(window, f1, [y, z]) <==> (y.Acked? ==> y.s <= f1.issued) && Honest(window, f2, [z]);
  }

  lemma FirstThree()
    ensures Run(2, START, [Broadcast(true), Broadcast(true), Broadcast(true)]) == Flow(3, Ack(0, 2, true), {1, 2})
    ensures Honest(2, START, [Broadcast(true), Broadcast(true), Broadcast(true)])
  {
    ThreeSteps(2, START, Broadcast(true), Broadcast(true), Broadcast(true));
    assert {} + {1} == {1} && {1} + {2} == {1, 2};
  }

  lemma NextThree()
    ensures Run(2, Flow(3, Ack(0, 2, true), {1, 2}), [Acked(2), Broadcast(true), Broadcast(true)])
         == Flow(5, Ack(2, 2, false), {1, 2, 4, 5})
    ensures Honest(2, Flow(3, Ack(0, 2, true), {1, 2}), [Acked(2), Broadcast(true), Broadcast(true)])
  {
    ThreeSteps(2, Flow(3, Ack(0, 2, true), {1, 2}), Acked(2), Broadcast(true), Broadcast(true));
    assert {1, 2} + {4} == {1, 2, 4} && {1, 2, 4} + {5} == {1, 2, 4, 5};
  }

  lemma LastThree()
    ensures Run(2, Flow(5, Ack(2, 2, false), {1, 2, 4, 5}), [Acked(4), Broadcast(true), Broadcast(true)])
         == Flow(7, Ack(4, 2, false), {1, 2, 4, 5, 6, 7})
    ensures Honest(2, Flow(5, Ack(2, 2, false), {1, 2, 4, 5}), [Acked(4), Broadcast(true), Broadcast(true)])
    ensures InFlight(Flow(7, Ack(4, 2, false), {1, 2, 4, 5, 6, 7})) == 3
  {
    var sent: set<nat> := {1, 2, 4, 5, 6, 7};
    assert Above(sent, 4) == {5, 6, 7};
    ThreeSteps(2, Flow(5, Ack(2, 2, false), {1, 2, 4, 5}), Acked(4), Broadcast(true), Broadcast(true));
    assert {1, 2, 4, 5} + {6} == {1, 2, 4, 5, 6} && {1, 2, 4, 5, 6} + {7} == {1, 2, 4, 5, 6, 7};
  }
}
