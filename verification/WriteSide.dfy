// The mutable objects of the write side: the in-memory store, the vehicle
// aggregate and the PublishLocation handler's loops, each proved against the
// functions of modules Vehicle and EventStore.
module WriteSide {
  import opened Wrappers
  import opened Collections
  import opened Vehicle
  import opened EventStore
  import Commands

  predicate OneAggregate(events: seq<Event>) {
    forall i :: 0 <= i < |events| ==> events[i].aggregateId == events[0].aggregateId
  }

  method FilterBetween(list: seq<Event>, from: nat, to: Option<nat>) returns (events: seq<Event>)
    ensures events == EventsBetween(list, from, to)
  {
    events := [];
    for k := 0 to |list|
      invariant events == EventsBetween(list[..k], from, to)
    {
      assert list[..k + 1][..k] == list[..k];
      if list[k].sequence >= from && (to.None? || list[k].sequence <= to.value) {
        events := events + [list[k]];
      }
    }
    assert list[..|list|] == list;
  }

  class InMemoryEventStore {
    var byAggregate: map<string, seq<Event>>
    var all: seq<Event>
    var ids: set<string>
    var snapshots: map<string, Snapshot>

    ghost function View(): Store
      reads this
    {
      Store(byAggregate, all, ids, snapshots)
    }

    constructor ()
      ensures View() == EMPTY
    {
      byAggregate, all, ids, snapshots := map[], [], {}, map[];
    }

    method HasDuplicate(events: seq<Event>) returns (found: bool)
      ensures found <==> IdsOf(events) * ids != {}
    {
      for k := 0 to |events|
        invariant forall i :: 0 <= i < k ==> events[i].eventId !in ids
      {
        if events[k].eventId in ids {
          assert events[k].eventId in IdsOf(events) * ids;
          return true;
        }
      }
      found := false;
    }

    // append(events, { expectedSequence }): all or nothing.
    method AppendEvents(events: seq<Event>, expected: Option<int>) returns (r: Result<()>)
      modifies this
      ensures r.Err? ==> View() == old(View())
      ensures r.Ok? <==>
        (events != [] && OneAggregate(events) && IdsOf(events) * old(ids) == {}
        && (expected.None? || CurrentSequence(Log(old(View()), events[0].aggregateId)) == expected.value))
      ensures r.Ok? ==> View() == Extend(old(View()), events[0].aggregateId, events)
    {
      if events == [] || !OneAggregate(events) {
        return Err("not appendable");
      }
      var duplicate := HasDuplicate(events);
      if duplicate {
        return Err("duplicate eventId");
      }
      var id := events[0].aggregateId;
      var existing := if id in byAggregate then byAggregate[id] else [];
      if expected.Some? && CurrentSequence(existing) != expected.value {
        return Err("concurrency conflict");
      }
      Push(id, events);
      r := Ok(());
    }

    method Push(id: string, events: seq<Event>)
      requires events != [] && forall i :: 0 <= i < |events| ==> events[i].aggregateId == id
      modifies this
      ensures byAggregate == old(byAggregate)[id := Log(old(View()), id) + events]
      ensures all == old(all) + events && ids == old(ids) + IdsOf(events) && snapshots == old(snapshots)
    {
      for k := 0 to |events|
        invariant k == 0 ==> byAggregate == old(byAggregate)
        invariant k > 0 ==> byAggregate == old(byAggregate)[id := Log(old(View()), id) + events[..k]]
        invariant all == old(all) + events[..k] && ids == old(ids) + IdsOf(events[..k]) && snapshots == old(snapshots)
      {
        var e := events[k];
        assert events[..k + 1] == events[..k] + [e];
        assert IdsOf(events[..k + 1]) == IdsOf(events[..k]) + {e.eventId};
        ids := ids + {e.eventId};
        var list := if id in byAggregate then byAggregate[id] else [];
        assert list + [e] == Log(old(View()), id) + events[..k + 1];
        byAggregate := byAggregate[id := list + [e]];
        all := all + [e];
      }
      assert events[..|events|] == events;
    }

    // Without an upper bound, the read that LoadAggregate makes.
    method GetEvents(id: string, from: nat, to: Option<nat>) returns (events: seq<Event>)
      ensures events == EventsBetween(Log(View(), id), from, to)
      ensures Filters(Log(View(), id), InBounds(from, to), events)
      ensures to.None? ==> events == EventsFrom(Log(View(), id), from)
    {
      var list := if id in byAggregate then byAggregate[id] else [];
      events := FilterBetween(list, from, to);
      BetweenFilters(list, from, to);
      if to.None? { NoUpperBound(list, from); }
    }

    method SaveSnapshot(snap: Snapshot)
      modifies this
      ensures View() == old(View()).(snapshots := old(snapshots)[snap.aggregateId := snap])
    {
      snapshots := snapshots[snap.aggregateId := snap];
    }
  }

  lemma {:induction false} StageSnoc(a: Aggregate, bs: seq<Body>, b: Body, ms: seq<Meta>)
    requires |bs| < |ms|
    ensures
      var (a', es) := StageAll(a, bs, ms);
      var e := Stage(a', b, ms[|bs|]);
      StageAll(a, bs + [b], ms) == (ApplyEvent(a', e), es + [e])
    decreases |bs|
  {
    if bs == [] {
      var e := Stage(a, b, ms[0]);
      assert bs + [b] == [b] && [b][1..] == [];
      assert StageAll(ApplyEvent(a, e), [], ms[1..]) == (ApplyEvent(a, e), []);
      assert StageAll(a, bs, ms) == (a, []);
      assert StageAll(a, [b], ms) == (ApplyEvent(a, e), [e] + []);
      assert [e] + [] == [] + [e];
    } else {
      assert (bs + [b])[1..] == bs[1..] + [b];
      var e := Stage(a, bs[0], ms[0]);
      StageSnoc(ApplyEvent(a, e), bs[1..], b, ms[1..]);
      var (a', es) := StageAll(ApplyEvent(a, e), bs[1..], ms[1..]);
      var last := Stage(a', b, ms[|bs|]);
      assert ms[1..][|bs[1..]|] == ms[|bs|];
      assert StageAll(a, bs, ms) == (a', [e] + es);
      assert (bs + [b])[0] == bs[0];
      assert StageAll(ApplyEvent(a, e), (bs + [b])[1..], ms[1..]) == (ApplyEvent(a', last), es + [last]);
      assert StageAll(a, bs + [b], ms) == (ApplyEvent(a', last), [e] + (es + [last]));
      assert [e] + (es + [last]) == ([e] + es) + [last];
    }
  }

  class VehicleAggregate {
    const id: string
    var sequence: nat
    var nextSeq: nat
    var state: State
    var uncommitted: seq<Event>

    ghost function View(): Aggregate
      reads this
    {
      Aggregate(id, sequence, nextSeq, state)
    }

    constructor (id: string)
      ensures View() == Restore(id, None) && uncommitted == []
    {
      this.id := id;
      sequence, nextSeq, state, uncommitted := 0, 0, INITIAL, [];
    }

    method Apply(e: Event)
      modifies this`sequence, this`nextSeq, this`state
      ensures View() == ApplyEvent(old(View()), e)
    {
      sequence := Max(sequence, e.sequence);
      nextSeq := Max(nextSeq, e.sequence);
      state := Mutate(state, e.body, e.timestamp);
    }

    method LoadHistory(events: seq<Event>)
      modifies this`sequence, this`nextSeq, this`state
      ensures View() == LoadFromHistory(old(View()), events)
    {
      for k := 0 to |events|
        invariant LoadFromHistory(View(), events[k..]) == LoadFromHistory(old(View()), events)
      {
        assert events[k..] == [events[k]] + events[k + 1..];
        Apply(events[k]);
      }
      assert events[|events|..] == [];
    }

    // An event that already carries a sequence number keeps it.
    method RecordEvent(b: Body, m: Meta, preset: Option<nat>) returns (e: Event)
      modifies this
      ensures e == Stage(old(View()), b, m).(sequence := if preset.Some? then preset.value else old(nextSeq) + 1)
      ensures View() == ApplyEvent(old(View()), e) && uncommitted == old(uncommitted) + [e]
    {
      var number := if preset.Some? then preset.value else nextSeq + 1;
      if preset.None? { nextSeq := number; }
      e := Event(m.eventId, id, number, m.timestamp, b);
      sequence := Max(sequence, e.sequence);
      uncommitted := uncommitted + [e];
      Apply(e);
    }

    method Record(b: Body, m: Meta) returns (e: Event)
      modifies this
      ensures e == Stage(old(View()), b, m)
      ensures View() == ApplyEvent(old(View()), e) && uncommitted == old(uncommitted) + [e]
    {
      e := RecordEvent(b, m, None);
    }

    // One fence of the PublishLocation handler; `bs` is what it recorded so far.
    method JudgeFence(metres: Metres, fix: Fix, fence: Fence, ghost start: Aggregate, ghost bs: seq<Body>, metas: seq<Meta>)
      returns (ghost bs': seq<Body>)
      requires |bs| < |metas|
      requires StageAll(start, bs, metas) == (View(), uncommitted)
      modifies this
      ensures |bs'| <= |metas| && StageAll(start, bs', metas) == (View(), uncommitted)
      ensures |bs'| <= |bs| + 1 && state.fences == old(state).fences
      ensures forall rest :: bs' + Crossings(metres, fix, state.inside, rest)
                          == bs + Crossings(metres, fix, old(state).inside, [fence] + rest)
    {
      ghost var before := state.inside;
      var inside := metres(fix, fence) <= fence.radiusM;
      var wasInside := fence.fenceId in state.inside;
      bs' := bs;
      if inside && !wasInside {
        StageSnoc(start, bs, GeofenceEntered(fence.fenceId), metas);
        var _ := Record(GeofenceEntered(fence.fenceId), metas[|uncommitted|]);
        bs' := bs + [GeofenceEntered(fence.fenceId)];
      } else if !inside && wasInside {
        StageSnoc(start, bs, GeofenceExited(fence.fenceId), metas);
        var _ := Record(GeofenceExited(fence.fenceId), metas[|uncommitted|]);
        bs' := bs + [GeofenceExited(fence.fenceId)];
      }
      forall rest ensures bs' + Crossings(metres, fix, state.inside, rest) == bs + Crossings(metres, fix, before, [fence] + rest) {
        assert ([fence] + rest)[1..] == rest;
      }
    }

    method JudgeFences(metres: Metres, fix: Fix, fences: seq<Fence>, ghost start: Aggregate, ghost bs: seq<Body>, metas: seq<Meta>)
      returns (ghost bs': seq<Body>)
      requires |bs| + |fences| <= |metas|
      requires StageAll(start, bs, metas) == (View(), uncommitted)
      modifies this
      ensures |bs'| <= |metas| && StageAll(start, bs', metas) == (View(), uncommitted)
      ensures |bs'| <= |bs| + |fences| && state.fences == old(state).fences
      ensures forall rest :: bs' + Crossings(metres, fix, state.inside, rest)
                          == bs + Crossings(metres, fix, old(state).inside, fences + rest)
    {
      bs' := bs;
      assert forall rest :: fences[0..] + rest == fences + rest;
      for k := 0 to |fences|
        invariant |bs'| <= |bs| + k && StageAll(start, bs', metas) == (View(), uncommitted)
        invariant state.fences == old(state).fences
        invariant forall rest :: bs' + Crossings(metres, fix, state.inside, fences[k..] + rest)
                              == bs + Crossings(metres, fix, old(state).inside, fences + rest)
      {
        ghost var was := bs';
        ghost var before := state.inside;
        bs' := JudgeFence(metres, fix, fences[k], start, bs', metas);
        forall rest
          ensures bs' + Crossings(metres, fix, state.inside, fences[k + 1..] + rest)
               == was + Crossings(metres, fix, before, fences[k..] + rest) {
          assert fences[k..] + rest == [fences[k]] + (fences[k + 1..] + rest);
        }
      }
      assert forall rest :: fences[|fences|..] + rest == rest;
    }

    // The other handlers, between loading the vehicle and saving it. `metres` plays no part in them.
    method JoinRoom(room: string, m: Meta, ghost metres: Metres)
      requires uncommitted == [] && Commands.UniqueRooms(state.fences)
      modifies this
      ensures StageAll(old(View()), Decide(metres, old(state), Command.JoinRoom(room)), [m]) == (View(), uncommitted)
      ensures uncommitted == [] <==> room in old(state).rooms
      ensures Commands.Achieves(metres, Command.JoinRoom(room), m.timestamp, old(state), state)
    {
      if room !in state.rooms { RecordOne(RoomJoined(room), m); }
      Commands.StagedAchieves(metres, old(View()), Command.JoinRoom(room), [m]);
    }

    method LeaveRoom(room: string, m: Meta, ghost metres: Metres)
      requires uncommitted == [] && Commands.UniqueRooms(state.fences)
      modifies this
      ensures StageAll(old(View()), Decide(metres, old(state), Command.LeaveRoom(room)), [m]) == (View(), uncommitted)
      ensures uncommitted == [] <==> room !in old(state).rooms
      ensures Commands.Achieves(metres, Command.LeaveRoom(room), m.timestamp, old(state), state)
    {
      if room in state.rooms { RecordOne(RoomLeft(room), m); }
      Commands.StagedAchieves(metres, old(View()), Command.LeaveRoom(room), [m]);
    }

    method Acknowledge(room: string, seqNo: int, negative: bool, m: Meta, ghost metres: Metres)
      requires uncommitted == [] && Commands.UniqueRooms(state.fences)
      modifies this
      ensures
        var cmd := if negative then Command.NegativeAcknowledge(room, seqNo) else Command.Acknowledge(room, seqNo);
        StageAll(old(View()), Decide(metres, old(state), cmd), [m]) == (View(), uncommitted)
        && (uncommitted == [] <==> !negative && seqNo <= Commands.AckOf(old(state), room))
        && Commands.Achieves(metres, cmd, m.timestamp, old(state), state)
    {
      ghost var cmd := if negative then Command.NegativeAcknowledge(room, seqNo) else Command.Acknowledge(room, seqNo);
      Commands.StagedAchieves(metres, View(), cmd, [m]);
      if !negative {
        var acked := if room in state.acked then state.acked[room] else 0;
        if seqNo <= acked { return; }
      }
      RecordOne(if negative then MessageNack(room, seqNo) else MessageAck(room, seqNo), m);
    }

    method UpdateGeofence(room: string, fences: seq<Fence>, m: Meta, ghost metres: Metres)
      requires uncommitted == [] && Commands.UniqueRooms(state.fences)
      modifies this
      ensures StageAll(old(View()), Decide(metres, old(state), Command.UpdateGeofence(room, fences)), [m]) == (View(), uncommitted)
      ensures Commands.Achieves(metres, Command.UpdateGeofence(room, fences), m.timestamp, old(state), state)
    {
      RecordOne(GeofenceUpdated(room, fences), m);
      Commands.StagedAchieves(metres, old(View()), Command.UpdateGeofence(room, fences), [m]);
    }

    method ResumeSession(rooms: seq<Resumed>, m: Meta, ghost metres: Metres)
      requires uncommitted == [] && Commands.UniqueRooms(state.fences)
      modifies this
      ensures StageAll(old(View()), Decide(metres, old(state), Command.ResumeSession(rooms)), [m]) == (View(), uncommitted)
      ensures Commands.Achieves(metres, Command.ResumeSession(rooms), m.timestamp, old(state), state)
    {
      RecordOne(SessionResumed(rooms), m);
      Commands.StagedAchieves(metres, old(View()), Command.ResumeSession(rooms), [m]);
    }

    method RecordOne(b: Body, m: Meta)
      requires uncommitted == []
      modifies this
      ensures StageAll(old(View()), [b], [m]) == (View(), uncommitted)
    {
      StageSnoc(View(), [], b, [m]);
      assert [] + [b] == [b];
      var _ := Record(b, m);
    }

    // makePublishLocationHandler, between loading the vehicle and saving it.
    method PublishLocation(metres: Metres, payload: string, fix: Option<Fix>, metas: seq<Meta>)
      requires uncommitted == [] && |metas| >= 1 + |AllFences(state.fences)|
      modifies this
      ensures
        var bs := Decide(metres, old(state), Command.PublishLocation(payload, fix));
        |bs| <= |metas| && StageAll(old(View()), bs, metas) == (View(), uncommitted)
      ensures Commands.UniqueRooms(old(state).fences) ==>
        Commands.Achieves(metres, Command.PublishLocation(payload, fix), metas[0].timestamp, old(state), state)
    {
      RecordFix(metres, payload, fix, metas);
      if Commands.UniqueRooms(old(state).fences) {
        Commands.StagedAchieves(metres, old(View()), Command.PublishLocation(payload, fix), metas);
      }
    }

    method RecordFix(metres: Metres, payload: string, fix: Option<Fix>, metas: seq<Meta>)
      requires uncommitted == [] && |metas| >= 1 + |AllFences(state.fences)|
      modifies this
      ensures
        var bs := Decide(metres, old(state), Command.PublishLocation(payload, fix));
        |bs| <= |metas| && StageAll(old(View()), bs, metas) == (View(), uncommitted)
    {
      ghost var start, first := View(), state;
      StageSnoc(View(), [], LocationUpdate(payload), metas);
      var _ := Record(LocationUpdate(payload), metas[0]);
      ghost var bs := [LocationUpdate(payload)];
      if fix.Some? {
        var rooms := state.fences;
        for k := 0 to |rooms|
          invariant |bs| + |AllFences(rooms[k..])| <= |metas| && StageAll(start, bs, metas) == (View(), uncommitted)
          invariant state.fences == rooms == first.fences
          invariant bs + Crossings(metres, fix.value, state.inside, AllFences(rooms[k..]))
                 == Decide(metres, first, Command.PublishLocation(payload, fix))
        {
          assert rooms[k..] == [rooms[k]] + rooms[k + 1..];
          bs := JudgeFences(metres, fix.value, rooms[k].1, start, bs, metas);
        }
        assert rooms[|rooms|..] == [];
        assert Crossings(metres, fix.value, state.inside, []) == [];
        assert bs == Decide(metres, first, Command.PublishLocation(payload, fix));
      }
    }
  }
}
