// MultiRegionCoordinator as the object that owns one region's clock, rooms,
// sessions and geofences. Every method works through the objects it owns and
// is proved, by their contracts, to take the step of module Region over which
// the theorems of modules World and Convergence are stated.
module Coordinator {
  import opened Wrappers
  import opened VectorClock
  import opened Region
  import opened RoomTable
  import Hlc
  import OrSet
  import Rga
  import LwwMap
  import FenceSet
  import World
  import FenceEdits

  // What serializeState() can produce.
  ghost predicate Serialised(snap: Replica) {
    forall r :: r in snap.rooms ==> SerialisedRoom(snap.rooms[r])
  }

  class MultiRegionCoordinator {
    const regionId: string
    const clock: Hlc.HLC
    const rooms: Rooms
    const sessions: LwwMap.LWWMap
    const geofences: FenceSet.LWWElementSet
    var vectorClock: Clock
    var localSeq: nat
    var conflictsTotal: nat
    ghost var Repr: set<object>

    ghost predicate Valid()
      reads this, Repr, rooms, rooms.Repr
    {
      Repr == {this, clock, sessions, geofences} + rooms.Repr && this !in rooms.Repr
      && clock !in rooms.Repr && sessions !in rooms.Repr && geofences !in rooms.Repr && rooms.Valid()
    }

    ghost function View(): State
      requires Valid()
      reads this, Repr, rooms, rooms.Repr
    {
      State(regionId, Replica(rooms.Content(), sessions.entries, geofences.View()), vectorClock, clock.Reading(), localSeq)
    }

    constructor (regionId: string)
      ensures Valid() && fresh(Repr) && View() == Fresh(regionId) && conflictsTotal == 0
    {
      this.regionId := regionId;
      clock := new Hlc.HLC(0);
      rooms := new Rooms();
      sessions := new LwwMap.LWWMap();
      geofences := new FenceSet.LWWElementSet();
      vectorClock, localSeq, conflictsTotal := map[], 0, 0;
      new;
      Repr := {this, clock, sessions, geofences} + rooms.Repr;
    }

    method JoinRoom(clientId: string, roomId: string, tag: string) returns (op: Op)
      requires Valid()
      modifies Repr
      ensures Valid() && fresh(Repr - old(Repr))
      ensures (View(), op) == Region.JoinRoom(old(View()), clientId, roomId, tag)
      ensures
        var here := RoomOf(old(View()).replica.rooms, roomId).membership;
        OrSet.Has(RoomOf(View().replica.rooms, roomId).membership, clientId) <==>
        OrSet.Has(here, clientId) || tag !in here.removes
    {
      hide OrSet.Has, Region.JoinRoom, Valid, View, RoomOf;
      JoinShows(View(), clientId, roomId, tag);
      op := PutMember(clientId, roomId, tag);
    }

    method PutMember(clientId: string, roomId: string, tag: string) returns (op: Op)
      requires Valid()
      modifies Repr
      ensures Valid() && fresh(Repr - old(Repr))
      ensures (View(), op) == Region.JoinRoom(old(View()), clientId, roomId, tag)
    {
      hide OrSet.Add, Rooms.Valid, Rooms.Content;
      rooms.AddMember(roomId, clientId, tag);
      Repr := {this, clock, sessions, geofences} + rooms.Repr;
      op := Op(MembershipAdd(roomId, clientId, tag), regionId, vectorClock, None);
    }

    method LeaveRoom(clientId: string, roomId: string) returns (op: Option<Op>)
      requires Valid()
      modifies Repr
      ensures Valid() && fresh(Repr - old(Repr))
      ensures (View(), op) == Region.LeaveRoom(old(View()), clientId, roomId)
      ensures !OrSet.Has(RoomOf(View().replica.rooms, roomId).membership, clientId)
    {
      hide OrSet.Retire, OrSet.TagsOf, OrSet.Has, Rooms.Valid, Rooms.Content;
      var tags := rooms.RemoveMember(roomId, clientId);
      Repr := {this, clock, sessions, geofences} + rooms.Repr;
      op := None;
      if tags != {} {
        op := Some(Op(MembershipRemove(roomId, clientId, tags), regionId, vectorClock, None));
      }
    }

    // The precondition is what room.sequence.lastVisibleId() needs to return.
    method Broadcast(roomId: string, message: string, originLeft: Option<Option<Rga.Id>>, wall: nat) returns (op: Op)
      requires Valid()
      requires originLeft.None? ==> Rga.Rooted(RoomOf(View().replica.rooms, roomId).sequence)
      modifies Repr
      ensures Valid() && fresh(Repr - old(Repr))
      ensures (View(), op) ==
        Region.Broadcast(old(View()), roomId, message, World.OriginFor(old(View()), roomId, originLeft), wall)
    {
      hide Rga.Rooted, Rga.LastVisible, Hlc.MessageId, Rga.Insert, Hlc.AfterLocal, Increment, Rooms.Valid, Rooms.Content;
      var stamp := clock.Now(wall);
      localSeq := localSeq + 1;
      var id := Hlc.MessageId(stamp, regionId, localSeq);
      var origin := rooms.Append(roomId, id, originLeft, message);
      Repr := {this, clock, sessions, geofences} + rooms.Repr;
      vectorClock := Increment(vectorClock, regionId);
      op := Op(MessageAppend(roomId, id, origin, message), regionId, vectorClock, Some(stamp));
    }

    // Bumps the clock and writes under it.
    method Write(key: string, value: string)
      requires Valid()
      modifies this`vectorClock, sessions
      ensures Valid() && View() == WriteSession(old(View()), key, value)
    {
      hide LwwMap.Apply, Increment, Rooms.Valid, Rooms.Content;
      vectorClock := Increment(vectorClock, regionId);
      sessions.Set(key, value, vectorClock, regionId);
    }

    method SaveSession(clientId: string, state: string) returns (op: Op)
      requires Valid()
      modifies Repr
      ensures Valid() && fresh(Repr - old(Repr))
      ensures (View(), op) == Region.SaveSession(old(View()), clientId, state)
      ensures old(World.EntriesLe(sessions.entries, vectorClock)) ==>
        LwwMap.Get(sessions.entries, "session:" + clientId) == Some(state) && World.EntriesLe(sessions.entries, vectorClock)
    {
      var key := "session:" + clientId;
      ghost var before := View();
      if World.EntriesLe(sessions.entries, vectorClock) { WriteIsRead(before, key, state); }
      hide LwwMap.Get, World.EntriesLe, WriteSession, Rooms.Valid, Rooms.Content;
      Write(key, state);
      op := Op(SessionUpdate(key, state), regionId, vectorClock, None);
    }

    method SetGlobalConfig(name: string, value: string) returns (op: Op)
      requires Valid()
      modifies Repr
      ensures Valid() && fresh(Repr - old(Repr))
      ensures (View(), op) == Region.SetGlobalConfig(old(View()), name, value)
      ensures old(World.EntriesLe(sessions.entries, vectorClock)) ==>
        LwwMap.Get(sessions.entries, "global-config:" + name) == Some(value) && World.EntriesLe(sessions.entries, vectorClock)
    {
      var key := "global-config:" + name;
      ghost var before := View();
      if World.EntriesLe(sessions.entries, vectorClock) { WriteIsRead(before, key, value); }
      hide LwwMap.Get, World.EntriesLe, WriteSession, Rooms.Valid, Rooms.Content;
      Write(key, value);
      op := Op(GlobalConfig(key, value), regionId, vectorClock, None);
    }

    method SyncGeofence(fenceId: string, definition: string, wall: nat) returns (op: Op)
      requires Valid()
      modifies Repr
      ensures Valid() && fresh(Repr - old(Repr))
      ensures (View(), op) == Region.SyncGeofence(old(View()), fenceId, definition, wall)
      ensures
        var s := View().replica.fences;
        (fenceId in s.adds && FenceSet.Has(s, fenceId)
         && s.adds[fenceId] == FenceSet.Upsert(FenceEdits.NextMark(old(View()), wall), definition))
        <==> FenceEdits.SyncWins(old(View()), fenceId, definition, wall)
    {
      hide FenceEdits.SyncWins, FenceEdits.NextMark, FenceSet.Has, Region.SyncGeofence, Valid, View;
      FenceEdits.SyncTakesEffectIff(View(), fenceId, definition, wall);
      op := PutFence(fenceId, definition, wall);
    }

    method PutFence(fenceId: string, definition: string, wall: nat) returns (op: Op)
      requires Valid()
      modifies Repr
      ensures Valid() && fresh(Repr - old(Repr))
      ensures (View(), op) == Region.SyncGeofence(old(View()), fenceId, definition, wall)
    {
      hide FenceSet.Add, Hlc.AfterLocal, Increment, Rooms.Valid, Rooms.Content;
      var stamp := clock.Now(wall);
      var mark := FenceSet.Mark(stamp, regionId);
      geofences.Insert(fenceId, FenceSet.Upsert(mark, definition));
      vectorClock := Increment(vectorClock, regionId);
      op := Op(GeofenceUpsert(fenceId, definition, mark), regionId, vectorClock, Some(stamp));
    }

    method RemoveGeofence(fenceId: string, wall: nat) returns (op: Op)
      requires Valid()
      modifies Repr
      ensures Valid() && fresh(Repr - old(Repr))
      ensures (View(), op) == Region.RemoveGeofence(old(View()), fenceId, wall)
      ensures !FenceSet.Has(View().replica.fences, fenceId) <==> FenceEdits.RemoveWins(old(View()), fenceId, wall)
    {
      hide FenceEdits.RemoveWins, FenceSet.Has, Region.RemoveGeofence, Valid, View;
      FenceEdits.RemoveTakesEffectIff(View(), fenceId, wall);
      op := TakeFence(fenceId, wall);
    }

    method TakeFence(fenceId: string, wall: nat) returns (op: Op)
      requires Valid()
      modifies Repr
      ensures Valid() && fresh(Repr - old(Repr))
      ensures (View(), op) == Region.RemoveGeofence(old(View()), fenceId, wall)
    {
      hide FenceSet.Remove, Hlc.AfterLocal, Increment, Rooms.Valid, Rooms.Content;
      var stamp := clock.Now(wall);
      var mark := FenceSet.Mark(stamp, regionId);
      geofences.Delete(fenceId, mark);
      vectorClock := Increment(vectorClock, regionId);
      op := Op(GeofenceRemove(fenceId, mark), regionId, vectorClock, Some(stamp));
    }

    // The four room cases of handlePeerOperation.
    method ApplyToRoom(op: Op)
      requires Valid() && ForRoom(op.body)
      modifies Repr
      ensures Valid() && fresh(Repr - old(Repr))
      ensures View() == old(View()).(replica := ApplyOp(old(View()).replica, op))
    {
      hide OrSet.Add, OrSet.Retire, Rga.Insert, Rga.Remove, Rooms.Valid, Rooms.Content;
      match op.body {
        case MembershipAdd(roomId, clientId, tag) => rooms.AddMember(roomId, clientId, tag);
        case MembershipRemove(roomId, _, tags) => rooms.RetireTags(roomId, tags);
        case MessageAppend(roomId, id, origin, value) => rooms.InsertMessage(roomId, id, origin, value);
        case MessageRemove(roomId, id) => rooms.RemoveMessage(roomId, id);
      }
      Repr := {this, clock, sessions, geofences} + rooms.Repr;
    }

    // The other cases; an unknown kind changes nothing.
    method ApplyKeyed(op: Op) returns (applied: bool)
      requires Valid() && !ForRoom(op.body)
      modifies sessions, geofences
      ensures Valid() && applied == !op.body.Unrecognised?
      ensures View() == old(View()).(replica := ApplyOp(old(View()).replica, op))
    {
      hide LwwMap.Apply, FenceSet.Add, FenceSet.Remove, Rooms.Valid, Rooms.Content;
      applied := true;
      match op.body {
        case SessionUpdate(key, value) => sessions.Set(key, value, op.clock, op.region);
        case SessionDelete(key) => sessions.Delete(key, op.clock, op.region);
        case GeofenceUpsert(fenceId, definition, mark) => geofences.Insert(fenceId, FenceSet.Upsert(mark, definition));
        case GeofenceRemove(fenceId, mark) => geofences.Delete(fenceId, mark);
        case GlobalConfig(key, value) => sessions.Set(key, value, op.clock, op.region);
        case Unrecognised(_) => applied := false;
      }
    }

    method HandlePeerOperation(op: Op, wall: nat) returns (applied: bool)
      requires Valid()
      modifies Repr
      ensures Valid() && fresh(Repr - old(Repr))
      ensures View() == Handle(old(View()), op, wall) && (applied <==> !op.body.Unrecognised?)
    {
      hide ApplyOp, Hlc.AfterRemote, Merge, Rooms.Valid, Rooms.Content;
      if op.hlc.Some? {
        var _ := clock.Receive(op.hlc.value, wall);
      }
      vectorClock := VcMerge(vectorClock, op.clock);
      if op.body.MembershipAdd? || op.body.MembershipRemove? || op.body.MessageAppend? || op.body.MessageRemove? {
        ApplyToRoom(op);
        applied := true;
      } else {
        applied := ApplyKeyed(op);
      }
    }

    method SerializeState() returns (snap: Replica)
      requires Valid()
      ensures snap == View().replica && Serialised(snap)
    {
      var content := rooms.Serialize();
      snap := Replica(content, sessions.entries, FenceSet.State(geofences.adds, geofences.removes));
    }

    // Reports whether anything that is serialised changed, and counts the session conflicts.
    method MergeRemoteState(snap: Replica, theirClock: Clock) returns (changed: bool)
      requires Valid() && Serialised(snap)
      modifies Repr
      ensures Valid() && fresh(Repr - old(Repr))
      ensures View() == Absorb(old(View()), snap, theirClock)
      ensures changed <==> View() != old(View())
      ensures conflictsTotal == old(conflictsTotal) + |LwwMap.Conflicts(old(sessions.entries), snap.sessions)|
    {
      hide MergeRoomMaps, LwwMap.MergeMaps, LwwMap.Conflicts, FenceSet.Merge, Merge, Serialised, Rooms.Valid, Rooms.Content;
      var before := SerializeState();
      var clockBefore := vectorClock;
      MergeObjects(snap);
      vectorClock := VcMerge(vectorClock, theirClock);
      var after := SerializeState();
      changed := after != before || vectorClock != clockBefore;
    }

    method MergeObjects(snap: Replica)
      requires Valid() && Serialised(snap)
      modifies Repr
      ensures Valid() && fresh(Repr - old(Repr))
      ensures View() == old(View()).(replica := MergeReplicas(old(View()).replica, snap))
      ensures conflictsTotal == old(conflictsTotal) + |LwwMap.Conflicts(old(sessions.entries), snap.sessions)|
    {
      hide MergeRoomMaps, LwwMap.MergeMaps, LwwMap.Conflicts, FenceSet.Merge, Rooms.Valid, Rooms.Content;
      rooms.MergeAll(snap.rooms);
      Repr := {this, clock, sessions, geofences} + rooms.Repr;
      var theirSessions := new LwwMap.LWWMap.Holding(snap.sessions);
      var conflicts := sessions.Merge(theirSessions);
      var theirFences := new FenceSet.LWWElementSet.Holding(snap.fences);
      geofences.MergeFrom(theirFences);
      conflictsTotal := conflictsTotal + conflicts;
    }
  }

  // A join shows the client unless its tag was retired before.
  lemma JoinShows(st: State, clientId: string, roomId: string, tag: string)
    ensures
      var here := RoomOf(st.replica.rooms, roomId).membership;
      OrSet.Has(RoomOf(Region.JoinRoom(st, clientId, roomId, tag).0.replica.rooms, roomId).membership, clientId) <==>
      OrSet.Has(here, clientId) || tag !in here.removes
  {
    OrSet.AddShows(RoomOf(st.replica.rooms, roomId).membership, clientId, tag);
    hide OrSet.Add, OrSet.Has;
  }

  // A write under a clock that bounds what is stored is read back, and keeps it bounded.
  lemma WriteIsRead(st: State, key: string, value: string)
    requires World.EntriesLe(st.replica.sessions, st.clock)
    ensures
      var st' := WriteSession(st, key, value);
      LwwMap.Get(st'.replica.sessions, key) == Some(value) && World.EntriesLe(st'.replica.sessions, st'.clock)
  {
    var st' := WriteSession(st, key, value);
    if key in st.replica.sessions { IncrementIsAfter(st.clock, st.id, st.replica.sessions[key].clock); }
    World.EntriesLater(st.replica.sessions, st.clock, st'.clock);
  }
}
