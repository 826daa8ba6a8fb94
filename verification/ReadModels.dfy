// What the read models say, in the words of the events themselves.
module ReadModels {
  import opened Wrappers
  import opened Collections
  import opened Projections

  // ---- rows and counters -------------------------------------------------------------

  // Each crossing has its row, with the vehicle, the fence, the room, whether it was an entry, and when.
  ghost predicate RecordsCrossings(vs: seq<Violation>, d: set<Event>) {
    && (forall e <- d :: e.kind.GeofenceEntered? ==>
          Violation(e.aggregateId, e.kind.fenceId, e.roomId, true, e.timestamp, e.eventId) in vs)
    && (forall e <- d :: e.kind.GeofenceExited? ==>
          Violation(e.aggregateId, e.kind.fenceId, e.roomId, false, e.timestamp, e.eventId) in vs)
    && |vs| == |set e <- d | e.kind.GeofenceEntered? || e.kind.GeofenceExited?|
    && forall i, j | 0 <= i < j < |vs| :: vs[i] != vs[j]
  }

  // A vehicle's position is the one of an update that no other update of it is newer than.
  ghost predicate Positions(vehicles: map<string, Vehicle>, d: set<Event>) {
    forall id ::
      var fixes := set e <- d | e.ofVehicle && e.kind.LocationUpdate? && e.aggregateId == id;
      if id !in vehicles || vehicles[id].located.None? then fixes == {}
      else
        var l := vehicles[id].located.value;
        exists e <- fixes :: l.lat == e.kind.lat && l.lon == e.kind.lon && l.at == e.timestamp && l.eventId == e.eventId
                             && forall f <- fixes :: f.timestamp <= e.timestamp
  }

  // A room's counter counts the position updates, joins and leaves of vehicles in it.
  ghost predicate CountsRooms(counts: map<string, nat>, d: set<Event>) {
    forall room | room != "" ::
      CountAt(counts, room) ==
      |set e <- d | e.ofVehicle && e.roomId == Some(room) && (e.kind.LocationUpdate? || e.kind.RoomJoined? || e.kind.RoomLeft?)|
  }

  // An aggregate's counter is the largest sequence number among its events.
  ghost predicate CountsAggregates(counts: map<string, nat>, d: set<Event>) {
    forall id ::
      (forall e <- d :: e.aggregateId == id && e.sequence.Some? ==> e.sequence.value <= CountAt(counts, id))
      && (CountAt(counts, id) > 0 ==> exists e <- d :: e.aggregateId == id && e.sequence == Some(CountAt(counts, id)))
  }

  // However the events are batched, the read models say what the events say.
  lemma ModelsTell(batches: seq<seq<Event>>)
    requires Consistent(Seen(batches))
    ensures
      var m, d := ProcessAll(EMPTY, batches).models, Seen(batches);
      RecordsCrossings(m.violations, d) && Positions(m.vehicles, d)
      && CountsRooms(m.roomSeq, d) && CountsAggregates(m.aggregateSeq, d)
  {
    EachEventOnce(batches);
    var m, d := ProcessAll(EMPTY, batches).models, Seen(batches);
    hide ProcessAll, Seen;
    CrossingsTell(m.violations, d);
    PositionsTell(m.vehicles, d);
    RoomsTell(m.roomSeq, d);
    AggregatesTell(m.aggregateSeq, d);
  }

  lemma CrossingsTell(vs: seq<Violation>, d: set<Event>)
    requires ViolationsMean(vs, d)
    ensures RecordsCrossings(vs, d)
  {
    assert Crossings(d) == set e <- d | e.kind.GeofenceEntered? || e.kind.GeofenceExited?;
  }

  lemma PositionsTell(vehicles: map<string, Vehicle>, d: set<Event>)
    requires VehiclesMean(vehicles, d)
    ensures Positions(vehicles, d)
  {
    forall id
      ensures
        var fixes := set e <- d | e.ofVehicle && e.kind.LocationUpdate? && e.aggregateId == id;
        if id !in vehicles || vehicles[id].located.None? then fixes == {}
        else
          var l := vehicles[id].located.value;
          exists e <- fixes :: l.lat == e.kind.lat && l.lon == e.kind.lon && l.at == e.timestamp && l.eventId == e.eventId
                               && forall f <- fixes :: f.timestamp <= e.timestamp {
      assert IsNewest(LocationAt(vehicles, id), d, id);
      if id in vehicles && vehicles[id].located.Some? {
        var e :| e in d && Locates(e, id) && vehicles[id].located.value == LocatedBy(e);
      }
    }
  }

  lemma RoomsTell(counts: map<string, nat>, d: set<Event>)
    requires RoomsMean(counts, d)
    ensures CountsRooms(counts, d)
  {
    forall room | room != ""
      ensures CountAt(counts, room) ==
        |set e <- d | e.ofVehicle && e.roomId == Some(room) && (e.kind.LocationUpdate? || e.kind.RoomJoined? || e.kind.RoomLeft?)| {
      assert Bumping(d, room)
          == set e <- d | e.ofVehicle && e.roomId == Some(room) && (e.kind.LocationUpdate? || e.kind.RoomJoined? || e.kind.RoomLeft?);
    }
  }

  lemma AggregatesTell(counts: map<string, nat>, d: set<Event>)
    requires AggregatesMean(counts, d)
    ensures CountsAggregates(counts, d)
  {
    forall id
      ensures (forall e <- d :: e.aggregateId == id && e.sequence.Some? ==> e.sequence.value <= CountAt(counts, id))
      ensures CountAt(counts, id) > 0 ==> exists e <- d :: e.aggregateId == id && e.sequence == Some(CountAt(counts, id)) {
      assert IsHighest(CountAt(counts, id), d, id);
    }
  }

  // ---- members -----------------------------------------------------------------------

  predicate JoinOf(e: Event, room: Option<string>, client: string) {
    e.ofVehicle && e.aggregateId == client && e.roomId == room && e.kind == RoomJoined
  }

  predicate LeaveOf(e: Event, room: Option<string>, client: string) {
    e.ofVehicle && e.aggregateId == client && e.roomId == room && e.kind == RoomLeft
  }

  // The event is the last join of the client in the room, and no leave comes after it.
  ghost predicate Standing(es: seq<Event>, k: int, room: Option<string>, client: string) {
    0 <= k < |es| && JoinOf(es[k], room, client)
    && forall j | k < j < |es| :: !JoinOf(es[j], room, client) && !LeaveOf(es[j], room, client)
  }

  function MemberSince(m: Models, room: Option<string>, client: string): Option<int> {
    if room in m.members && client in m.members[room] then Some(m.members[room][client]) else None
  }

  lemma MemberStep(m: Models, e: Event, room: Option<string>, client: string)
    ensures MemberSince(HandleMembership(m, e), room, client) ==
            if JoinOf(e, room, client) then Some(e.timestamp)
            else if LeaveOf(e, room, client) then None else MemberSince(m, room, client)
  {
  }

  ghost predicate MembersTell(m: Models, es: seq<Event>, room: Option<string>, client: string) {
    match MemberSince(m, room, client)
    case None => forall k :: !Standing(es, k, room, client)
    case Some(t) => exists k :: Standing(es, k, room, client) && es[k].timestamp == t
  }

  lemma MembersSnoc(m: Models, m': Models, es: seq<Event>, e: Event, room: Option<string>, client: string)
    requires MembersTell(m, es, room, client)
    requires MemberSince(m', room, client) ==
             if JoinOf(e, room, client) then Some(e.timestamp)
             else if LeaveOf(e, room, client) then None else MemberSince(m, room, client)
    ensures MembersTell(m', es + [e], room, client)
  {
    hide MemberSince, JoinOf, LeaveOf;
    var more := es + [e];
    if JoinOf(e, room, client) {
      assert Standing(more, |es|, room, client);
    } else if LeaveOf(e, room, client) {
      assert more[|es|] == e;
    } else {
      forall k ensures Standing(more, k, room, client) <==> Standing(es, k, room, client) {
        assert forall j | 0 <= j < |es| :: more[j] == es[j];
        assert more[|es|] == e;
      }
    }
  }

  // ---- everything applied, in order --------------------------------------------------

  // Each projection's checkpoint is the event it processed last.
  ghost predicate CheckpointsTell(s: Sink, es: seq<Event>) {
    forall p <- DEFAULTS ::
      if es == [] then p !in s.checkpoints
      else p in s.checkpoints && s.checkpoints[p] == Checkpoint(es[|es| - 1].eventId, es[|es| - 1].timestamp)
  }

  lemma ThroughCheckpoints(s: Sink, e: Event)
    ensures forall p <- DEFAULTS ::
      p in ProjectThrough(DEFAULTS, s, e).checkpoints
      && ProjectThrough(DEFAULTS, s, e).checkpoints[p] == Checkpoint(e.eventId, e.timestamp)
  {
    hide Handle;
    var s1 := Project(VehicleState, s, e);
    var s2 := Project(RoomMembership, s1, e);
    var s3 := Project(GeofenceViolations, s2, e);
    assert DEFAULTS[1..] == [RoomMembership, GeofenceViolations, Sequence];
    assert DEFAULTS[1..][1..] == [GeofenceViolations, Sequence];
    assert DEFAULTS[1..][1..][1..] == [Sequence] && [Sequence][1..] == [];
    assert ProjectThrough([Sequence], s3, e) == Project(Sequence, s3, e);
    assert ProjectThrough([GeofenceViolations, Sequence], s2, e) == Project(Sequence, s3, e);
    assert ProjectThrough(DEFAULTS[1..], s1, e) == Project(Sequence, s3, e);
  }

  function IsCrossing(e: Event): bool { e.kind.GeofenceEntered? || e.kind.GeofenceExited? }

  // The violations stand in the order in which their crossings were applied.
  ghost predicate RowsInOrder(vs: seq<Violation>, es: seq<Event>) {
    exists cs: seq<Event> ::
      Filters(es, IsCrossing, cs) && |cs| == |vs| && forall i | 0 <= i < |vs| :: vs[i].eventId == cs[i].eventId
  }

  lemma RowsSnoc(m: Models, es: seq<Event>, e: Event)
    requires RowsInOrder(m.violations, es)
    ensures RowsInOrder(HandleViolations(m, e).violations, es + [e])
  {
    hide Filters;
    var vs := m.violations;
    var cs: seq<Event> :| Filters(es, IsCrossing, cs) && |cs| == |vs| && forall i | 0 <= i < |vs| :: vs[i].eventId == cs[i].eventId;
    FiltersSnoc(es, IsCrossing, cs, e);
    var cs' := if IsCrossing(e) then cs + [e] else cs;
    assert |cs'| == |HandleViolations(m, e).violations|;
  }

  predicate FixOf(e: Event, id: string) {
    e.ofVehicle && e.kind.LocationUpdate? && e.aggregateId == id
  }

  // The event is the newest fix of the vehicle; of several with that time, the one applied last.
  ghost predicate Newest(es: seq<Event>, k: int, id: string) {
    0 <= k < |es| && FixOf(es[k], id)
    && forall j | 0 <= j < |es| && FixOf(es[j], id) :: es[j].timestamp < es[k].timestamp || (es[j].timestamp == es[k].timestamp && j <= k)
  }

  ghost predicate PositionTells(m: Models, es: seq<Event>, id: string) {
    match LocationAt(m.vehicles, id)
    case None => forall k | 0 <= k < |es| :: !FixOf(es[k], id)
    case Some(l) =>
      exists k :: Newest(es, k, id) && l.lat == es[k].kind.lat && l.lon == es[k].kind.lon
                  && l.at == es[k].timestamp && l.eventId == es[k].eventId
  }

  lemma PositionStep(m: Models, e: Event, id: string)
    ensures
      var was := LocationAt(m.vehicles, id);
      LocationAt(HandleVehicle(m, e).vehicles, id) ==
        if FixOf(e, id) && (was.Some? ==> was.value.at <= e.timestamp)
        then Some(Located(e.kind.lat, e.kind.lon, e.timestamp, e.eventId)) else was
  {
  }

  lemma PositionSnoc(m: Models, m': Models, es: seq<Event>, e: Event, id: string)
    requires PositionTells(m, es, id)
    requires
      var was := LocationAt(m.vehicles, id);
      LocationAt(m'.vehicles, id) ==
        if FixOf(e, id) && (was.Some? ==> was.value.at <= e.timestamp)
        then Some(Located(e.kind.lat, e.kind.lon, e.timestamp, e.eventId)) else was
    ensures PositionTells(m', es + [e], id)
  {
    hide LocationAt;
    var more, was := es + [e], LocationAt(m.vehicles, id);
    assert forall j | 0 <= j < |es| :: more[j] == es[j];
    assert more[|es|] == e;
    if was.Some? {
      var k :| Newest(es, k, id) && was.value.lat == es[k].kind.lat && was.value.lon == es[k].kind.lon
               && was.value.at == es[k].timestamp && was.value.eventId == es[k].eventId;
      if FixOf(e, id) && was.value.at <= e.timestamp {
        assert Newest(more, |es|, id);
      } else {
        assert Newest(more, k, id);
      }
    } else if FixOf(e, id) {
      assert Newest(more, |es|, id);
    }
  }

  // Who is listed, since when, the positions, the order of the violations, and where each projection stands, after
  // these events were applied.
  ghost predicate Follows(s: Sink, es: seq<Event>) {
    && CheckpointsTell(s, es) && RowsInOrder(s.models.violations, es)
    && (forall room, client :: MembersTell(s.models, es, room, client))
    && forall id :: PositionTells(s.models, es, id)
  }

  lemma NewFollows(s: Sink, e: Event, es: seq<Event>)
    requires Follows(s, es)
    ensures Follows(ProjectThrough(DEFAULTS, s, e), es + [e])
  {
    ThroughDefaults(s, e);
    HandledParts(s.models, e);
    KeptByVehicle(s.models, e);
    ThroughCheckpoints(s, e);
    RowsSnoc(s.models, es, e);
    hide HandleVehicle, HandleMembership, HandleViolations, AllHandled, ProjectThrough, MembersTell, JoinOf, LeaveOf,
      MemberSince, RowsInOrder, PositionTells, LocationAt, FixOf;
    var s' := ProjectThrough(DEFAULTS, s, e);
    forall id ensures PositionTells(s'.models, es + [e], id) {
      assert PositionTells(s.models, es, id);
      SamePosition(HandleVehicle(s.models, e), s'.models, id);
      PositionStep(s.models, e, id);
      PositionSnoc(s.models, s'.models, es, e, id);
    }
    forall room, client ensures MembersTell(s'.models, es + [e], room, client) {
      assert MembersTell(s.models, es, room, client);
      SameMembers(s.models, HandleVehicle(s.models, e), room, client);
      SameMembers(HandleMembership(HandleVehicle(s.models, e), e), s'.models, room, client);
      MemberStep(HandleVehicle(s.models, e), e, room, client);
      MembersSnoc(s.models, s'.models, es, e, room, client);
    }
  }

  lemma SameMembers(m: Models, n: Models, room: Option<string>, client: string)
    requires m.members == n.members
    ensures MemberSince(m, room, client) == MemberSince(n, room, client)
  {
  }

  lemma SamePosition(m: Models, n: Models, id: string)
    requires m.vehicles == n.vehicles
    ensures LocationAt(m.vehicles, id) == LocationAt(n.vehicles, id)
  {
  }

  lemma {:induction false} AllFollow(s: Sink, d: set<Event>, es: seq<Event>, done: seq<Event>)
    requires Means(s, d) && Consistent(d + Elements(es)) && Follows(s, done)
    ensures Follows(ApplyAll(s, es), done + FirstTimes(es, d))
    decreases |es|
  {
    hide Means, Follows, ProcessedByAll, ProjectThrough;
    if es == [] {
      assert done + [] == done;
    } else {
      var e := es[0];
      assert d + Elements(es) == (d + {e}) + Elements(es[1..]);
      assert d + {e} <= d + Elements(es);
      ApplyMeans(s, d, e);
      NewFollows(s, e, done);
      if e in d {
        assert d + {e} == d;
        AllFollow(s, d, es[1..], done);
      } else {
        AllFollow(Apply(s, e), d + {e}, es[1..], done + [e]);
        assert done + [e] + FirstTimes(es[1..], d + {e}) == done + FirstTimes(es, d);
      }
    }
  }

  lemma NothingFollows()
    ensures Follows(EMPTY, [])
  {
    FiltersNone(IsCrossing);
    assert RowsInOrder([], []);
  }

  // Over any batches a client is listed, since its last join, exactly when no leave of it was applied
  // after that join; a vehicle stands where its newest fix put it, of equal times the last; violations
  // stand in the order applied; and each checkpoint names the event applied last.
  lemma AppliedTell(batches: seq<seq<Event>>)
    requires Consistent(Seen(batches))
    ensures Follows(ProcessAll(EMPTY, batches), Applied(batches))
  {
    hide Means, Follows, Apply;
    BatchesAreArrivals(EMPTY, batches);
    EmptyMeans();
    assert {} + Elements(Arrivals(batches)) == Seen(batches);
    NothingFollows();
    AllFollow(EMPTY, {}, Arrivals(batches), []);
    assert [] + Applied(batches) == Applied(batches);
  }
}
