// The rooms a coordinator owns: for each room the membership set and the message
// sequence, as objects. Every method changes one room, and says into what.
module RoomTable {
  import opened Wrappers
  import opened Region
  import OrSet
  import Rga
  import RgaSequence

  datatype RoomPair = RoomPair(membership: OrSet.ORSet, sequence: RgaSequence.RGASequence)

  ghost function ViewOf(p: RoomPair): Room
    reads p.membership, p.sequence
  {
    Room(p.membership.View(), p.sequence.nodes)
  }

  ghost predicate Sound(p: RoomPair)
    reads p.membership, p.sequence
  {
    p.membership.Valid() && p.sequence.Valid()
  }

  ghost predicate Apart(p: RoomPair, q: RoomPair) {
    p.membership != q.membership && p.sequence != q.sequence
  }

  // What serializeState() can produce: nodes under their own ids, no element without a tag.
  ghost predicate SerialisedRoom(room: Room) {
    OrSet.NoEmptyTags(room.membership) && Rga.Keyed(room.sequence)
  }

  class Rooms {
    var pairs: map<string, RoomPair>
    ghost var Repr: set<object>

    ghost predicate Valid()
      reads this, Repr
    {
      && this in Repr
      && (forall r :: r in pairs ==> pairs[r].membership in Repr && pairs[r].sequence in Repr && Sound(pairs[r]))
      && (forall r, q :: r in pairs && q in pairs && r != q ==> Apart(pairs[r], pairs[q]))
    }

    ghost function Content(): map<string, Room>
      requires Valid()
      reads this, Repr
    {
      map r | r in pairs :: ViewOf(pairs[r])
    }

    constructor ()
      ensures Valid() && fresh(Repr) && Content() == map[]
    {
      pairs := map[];
      new;
      Repr := {this};
    }

    // ensureRoom
    method Ensure(roomId: string) returns (room: RoomPair)
      requires Valid()
      modifies this
      ensures Valid() && fresh(Repr - old(Repr)) && roomId in pairs && room == pairs[roomId]
      ensures Sound(room) && room.membership in Repr && room.sequence in Repr
      ensures ViewOf(room) == RoomOf(old(Content()), roomId)
      ensures Content() == old(Content())[roomId := RoomOf(old(Content()), roomId)]
    {
      if roomId !in pairs {
        room := Open(roomId);
      } else {
        room := pairs[roomId];
        assert old(Content())[roomId := RoomOf(old(Content()), roomId)] == old(Content());
      }
    }

    method Open(roomId: string) returns (room: RoomPair)
      requires Valid() && roomId !in pairs
      modifies this
      ensures Valid() && fresh(Repr - old(Repr)) && roomId in pairs && room == pairs[roomId]
      ensures Sound(room) && room.membership in Repr && room.sequence in Repr && ViewOf(room) == EMPTY_ROOM
      ensures Content() == old(Content())[roomId := EMPTY_ROOM]
    {
      hide Sound, ViewOf;
      room := NewPair();
      pairs := pairs[roomId := room];
      Repr := Repr + {room.membership, room.sequence};
      Opened(roomId, room);
    }

    // A room of new objects was added.
    twostate lemma Opened(roomId: string, new room: RoomPair)
      requires old(Valid()) && roomId !in old(pairs) && pairs == old(pairs)[roomId := room]
      requires Repr == old(Repr) + {room.membership, room.sequence} && Sound(room)
      requires room.membership !in old(Repr) && room.sequence !in old(Repr)
      requires forall o :: o in old(Repr) && o != this ==> unchanged(o)
      ensures Valid() && Content() == old(Content())[roomId := ViewOf(room)]
    {
      hide Sound, ViewOf;
      forall r | r in old(pairs)
        ensures Sound(pairs[r]) && ViewOf(pairs[r]) == old(ViewOf(pairs[r])) && Apart(pairs[r], room) && Apart(room, pairs[r]) {
        assert pairs[r] == old(pairs[r]);
      }
      assert Content().Keys == old(Content()).Keys + {roomId};
    }

    // Only the objects of one room changed.
    twostate lemma OneChanged(roomId: string)
      requires old(Valid()) && pairs == old(pairs) && Repr == old(Repr) && roomId in pairs && Sound(pairs[roomId])
      requires forall o :: o in Repr && o != pairs[roomId].membership && o != pairs[roomId].sequence ==> unchanged(o)
      ensures Valid() && Content() == old(Content())[roomId := ViewOf(pairs[roomId])]
    {
      hide Sound, ViewOf;
      forall r | r in pairs && r != roomId ensures Sound(pairs[r]) && ViewOf(pairs[r]) == old(ViewOf(pairs[r])) {
        assert Apart(pairs[r], pairs[roomId]);
      }
      assert Content().Keys == old(Content()).Keys;
    }

    method AddMember(roomId: string, client: string, tag: string)
      requires Valid()
      modifies Repr
      ensures Valid() && fresh(Repr - old(Repr))
      ensures
        var here := RoomOf(old(Content()), roomId);
        Content() == old(Content())[roomId := here.(membership := OrSet.Add(here.membership, client, tag))]
    {
      assert this in Repr;
      hide Valid, Sound, ViewOf, Apart, OrSet.Add, OrSet.Retire, OrSet.Has, Rga.Insert, Rga.Remove, MergeRooms;
      var room := Ensure(roomId);
      label ensured:
      AddTo(room, client, tag);
      Overwrites(old(Content()), roomId, ViewOf(room));
      OneChanged@ensured(roomId);
    }

    // Retires every tag of the client seen here, and says which.
    method RemoveMember(roomId: string, client: string) returns (tags: set<string>)
      requires Valid()
      modifies Repr
      ensures Valid() && fresh(Repr - old(Repr))
      ensures
        var here := RoomOf(old(Content()), roomId);
        tags == OrSet.TagsOf(here.membership, client)
        && Content() == old(Content())[roomId := here.(membership := OrSet.Retire(here.membership, tags))]
      ensures !OrSet.Has(RoomOf(Content(), roomId).membership, client)
    {
      assert this in Repr;
      hide Valid, Sound, ViewOf, Apart, OrSet.Add, OrSet.Retire, OrSet.Has, Rga.Insert, Rga.Remove, MergeRooms;
      var room := Ensure(roomId);
      label ensured:
      tags := RemoveFrom(room, client);
      Overwrites(old(Content()), roomId, ViewOf(room));
      OneChanged@ensured(roomId);
    }

    method RetireTags(roomId: string, tags: set<string>)
      requires Valid()
      modifies Repr
      ensures Valid() && fresh(Repr - old(Repr))
      ensures
        var here := RoomOf(old(Content()), roomId);
        Content() == old(Content())[roomId := here.(membership := OrSet.Retire(here.membership, tags))]
    {
      assert this in Repr;
      hide Valid, Sound, ViewOf, Apart, OrSet.Add, OrSet.Retire, OrSet.Has, Rga.Insert, Rga.Remove, MergeRooms;
      var room := Ensure(roomId);
      label ensured:
      RetireIn(room, tags);
      Overwrites(old(Content()), roomId, ViewOf(room));
      OneChanged@ensured(roomId);
    }

    method InsertMessage(roomId: string, id: Rga.Id, origin: Option<Rga.Id>, value: string)
      requires Valid()
      modifies Repr
      ensures Valid() && fresh(Repr - old(Repr))
      ensures
        var here := RoomOf(old(Content()), roomId);
        Content() == old(Content())[roomId := here.(sequence := Rga.Insert(here.sequence, id, origin, value, false))]
    {
      assert this in Repr;
      hide Valid, Sound, ViewOf, Apart, OrSet.Add, OrSet.Retire, OrSet.Has, Rga.Insert, Rga.Remove, MergeRooms;
      var room := Ensure(roomId);
      label ensured:
      InsertInto(room, id, origin, value);
      Overwrites(old(Content()), roomId, ViewOf(room));
      OneChanged@ensured(roomId);
    }

    method RemoveMessage(roomId: string, id: Rga.Id)
      requires Valid()
      modifies Repr
      ensures Valid() && fresh(Repr - old(Repr))
      ensures
        var here := RoomOf(old(Content()), roomId);
        Content() == old(Content())[roomId := here.(sequence := Rga.Remove(here.sequence, id))]
    {
      assert this in Repr;
      hide Valid, Sound, ViewOf, Apart, OrSet.Add, OrSet.Retire, OrSet.Has, Rga.Insert, Rga.Remove, MergeRooms;
      var room := Ensure(roomId);
      label ensured:
      Tombstone(room, id);
      Overwrites(old(Content()), roomId, ViewOf(room));
      OneChanged@ensured(roomId);
    }

    // Inserts after `originLeft`, or after the last visible message when it is not given; the
    // precondition is what lastVisibleId() needs to return.
    method Append(roomId: string, id: Rga.Id, originLeft: Option<Option<Rga.Id>>, value: string) returns (origin: Option<Rga.Id>)
      requires Valid() && (originLeft.None? ==> Rga.Rooted(RoomOf(Content(), roomId).sequence))
      modifies Repr
      ensures Valid() && fresh(Repr - old(Repr))
      ensures
        var here := RoomOf(old(Content()), roomId);
        origin == (if originLeft.Some? then originLeft.value else Rga.LastVisible(here.sequence))
        && Content() == old(Content())[roomId := here.(sequence := Rga.Insert(here.sequence, id, origin, value, false))]
    {
      assert this in Repr;
      hide Valid, Sound, ViewOf, Apart, Rga.Insert, Rga.Rooted, Rga.LastVisible;
      var room := Ensure(roomId);
      label ensured:
      origin := AppendTo(room, id, originLeft, value);
      Overwrites(old(Content()), roomId, ViewOf(room));
      OneChanged@ensured(roomId);
    }

    method Members(roomId: string) returns (out: seq<string>)
      requires Valid()
      modifies this
      ensures Valid() && fresh(Repr - old(Repr))
      ensures Content() == old(Content())[roomId := RoomOf(old(Content()), roomId)]
      ensures forall c :: c in out <==> OrSet.Has(RoomOf(Content(), roomId).membership, c)
    {
      hide Valid, Sound, ViewOf, Apart, OrSet.Has;
      var room := Ensure(roomId);
      out := ListIn(room);
    }

    // Merges a snapshot of one room, restored into objects of its own.
    method MergeRoom(roomId: string, theirs: Room)
      requires Valid() && SerialisedRoom(theirs)
      modifies Repr
      ensures Valid() && fresh(Repr - old(Repr))
      ensures Content() == old(Content())[roomId := MergeRooms(RoomOf(old(Content()), roomId), theirs)]
    {
      assert this in Repr;
      hide Valid, Sound, ViewOf, Apart, OrSet.Add, OrSet.Retire, OrSet.Has, Rga.Insert, Rga.Remove, MergeRooms;
      var room := Ensure(roomId);
      label ensured:
      MergeInto(room, theirs);
      Overwrites(old(Content()), roomId, ViewOf(room));
      OneChanged@ensured(roomId);
    }

    method MergeAll(theirs: map<string, Room>)
      requires Valid() && forall r :: r in theirs ==> SerialisedRoom(theirs[r])
      modifies Repr
      ensures Valid() && fresh(Repr - old(Repr)) && Content() == MergeRoomMaps(old(Content()), theirs)
    {
      hide Valid, SerialisedRoom, MergeRoomMaps, MergeRooms, Only;
      var rest := theirs.Keys;
      MergeEnds(old(Content()), theirs);
      while rest != {}
        invariant Valid() && fresh(Repr - old(Repr)) && rest <= theirs.Keys
        invariant Content() == MergeRoomMaps(old(Content()), Only(theirs, theirs.Keys - rest))
      {
        var roomId :| roomId in rest;
        MergeOneMore(old(Content()), theirs, theirs.Keys - rest, roomId);
        MergeRoom(roomId, theirs[roomId]);
        assert theirs.Keys - rest + {roomId} == theirs.Keys - (rest - {roomId});
        rest := rest - {roomId};
      }
      assert theirs.Keys - rest == theirs.Keys;
    }

    // The rooms as values, fit to be merged elsewhere.
    method Serialize() returns (content: map<string, Room>)
      requires Valid()
      ensures content == Content() && forall r :: r in content ==> SerialisedRoom(content[r])
    {
      content := map[];
      var rest := pairs.Keys;
      while rest != {}
        invariant rest <= pairs.Keys && content.Keys == pairs.Keys - rest
        invariant forall r :: r in content ==> content[r] == ViewOf(pairs[r]) && SerialisedRoom(content[r])
      {
        var roomId :| roomId in rest;
        var room := pairs[roomId];
        assert Sound(room);
        content := content[roomId := Room(OrSet.State(room.membership.adds, room.membership.removes), room.sequence.nodes)];
        rest := rest - {roomId};
      }
      assert content == Content();
    }
  }

  function Only(theirs: map<string, Room>, keys: set<string>): map<string, Room> {
    map r | r in theirs && r in keys :: theirs[r]
  }

  lemma MergeEnds(mine: map<string, Room>, theirs: map<string, Room>)
    ensures MergeRoomMaps(mine, Only(theirs, theirs.Keys - theirs.Keys)) == mine
    ensures Only(theirs, theirs.Keys) == theirs
  {
    assert Only(theirs, theirs.Keys - theirs.Keys) == map[];
  }

  lemma MergeOneMore(mine: map<string, Room>, theirs: map<string, Room>, keys: set<string>, r: string)
    requires r in theirs && r !in keys
    ensures
      var merged := MergeRoomMaps(mine, Only(theirs, keys));
      MergeRoomMaps(mine, Only(theirs, keys + {r})) == merged[r := MergeRooms(RoomOf(merged, r), theirs[r])]
  {
    hide MergeRooms;
    var merged, more := MergeRoomMaps(mine, Only(theirs, keys)), MergeRoomMaps(mine, Only(theirs, keys + {r}));
    assert RoomOf(merged, r) == RoomOf(mine, r);
    assert more.Keys == merged.Keys + {r};
  }

  // ------------------------------------------------------------- one room's objects

  method AddTo(room: RoomPair, client: string, tag: string)
    requires Sound(room)
    modifies room.membership
    ensures Sound(room)
    ensures ViewOf(room) == old(ViewOf(room)).(membership := OrSet.Add(old(ViewOf(room)).membership, client, tag))
  {
    var _ := room.membership.Insert(client, Some(tag), "");
  }

  method RemoveFrom(room: RoomPair, client: string) returns (tags: set<string>)
    requires Sound(room)
    modifies room.membership
    ensures Sound(room) && tags == OrSet.TagsOf(old(ViewOf(room)).membership, client)
    ensures ViewOf(room) == old(ViewOf(room)).(membership := OrSet.Retire(old(ViewOf(room)).membership, tags))
    ensures !OrSet.Has(ViewOf(room).membership, client)
  {
    tags := room.membership.Remove(client);
  }

  method RetireIn(room: RoomPair, tags: set<string>)
    requires Sound(room)
    modifies room.membership
    ensures Sound(room)
    ensures ViewOf(room) == old(ViewOf(room)).(membership := OrSet.Retire(old(ViewOf(room)).membership, tags))
  {
    room.membership.ApplyRemove(tags);
  }

  method InsertInto(room: RoomPair, id: Rga.Id, origin: Option<Rga.Id>, value: string)
    requires Sound(room)
    modifies room.sequence
    ensures Sound(room)
    ensures ViewOf(room) == old(ViewOf(room)).(sequence := Rga.Insert(old(ViewOf(room)).sequence, id, origin, value, false))
  {
    hide Rga.Insert;
    var _ := room.sequence.Insert(id, origin, value, false);
  }

  method Tombstone(room: RoomPair, id: Rga.Id)
    requires Sound(room)
    modifies room.sequence
    ensures Sound(room)
    ensures ViewOf(room) == old(ViewOf(room)).(sequence := Rga.Remove(old(ViewOf(room)).sequence, id))
  {
    hide Rga.Remove;
    var _ := room.sequence.Remove(id);
  }

  method AppendTo(room: RoomPair, id: Rga.Id, originLeft: Option<Option<Rga.Id>>, value: string) returns (origin: Option<Rga.Id>)
    requires Sound(room) && (originLeft.None? ==> Rga.Rooted(ViewOf(room).sequence))
    modifies room.sequence
    ensures Sound(room)
    ensures origin == if originLeft.Some? then originLeft.value else Rga.LastVisible(old(ViewOf(room)).sequence)
    ensures ViewOf(room) == old(ViewOf(room)).(sequence := Rga.Insert(old(ViewOf(room)).sequence, id, origin, value, false))
  {
    hide Rga.Rooted, Rga.LastVisible, Rga.Insert;
    if originLeft.Some? {
      origin := originLeft.value;
    } else {
      origin := room.sequence.LastVisibleId();
    }
    InsertInto(room, id, origin, value);
  }

  method ListIn(room: RoomPair) returns (out: seq<string>)
    requires Sound(room)
    ensures forall c :: c in out <==> OrSet.Has(ViewOf(room).membership, c)
  {
    hide OrSet.Has;
    out := room.membership.Members();
  }

  // A snapshot is restored into objects of its own, which are then merged.
  method MergeInto(room: RoomPair, theirs: Room)
    requires Sound(room) && SerialisedRoom(theirs)
    modifies room.membership, room.sequence
    ensures Sound(room) && ViewOf(room) == MergeRooms(old(ViewOf(room)), theirs)
  {
    hide Rga.Merge, OrSet.Merge;
    var membership := new OrSet.ORSet.Holding(theirs.membership);
    var sequence := new RgaSequence.RGASequence.Holding(theirs.sequence);
    room.membership.MergeFrom(membership);
    room.sequence.Merge(sequence);
  }

  lemma Overwrites(m: map<string, Room>, roomId: string, room: Room)
    ensures m[roomId := RoomOf(m, roomId)][roomId := room] == m[roomId := room]
  {
  }

  method NewPair() returns (room: RoomPair)
    ensures fresh(room.membership) && fresh(room.sequence) && Sound(room) && ViewOf(room) == EMPTY_ROOM
  {
    var membership := new OrSet.ORSet();
    var sequence := new RgaSequence.RGASequence();
    room := RoomPair(membership, sequence);
  }
}
