/**
 * The two membership indexes of the room manager as values: who is in each room (with the
 * socket to send to), and which rooms each client is in. A limit of None is "Infinity".
 */
module RoomIndex {
  import opened Wrappers
  import opened Collections

  type Client = string
  type Room = string
  datatype Socket = Socket(id: nat)
  type Rooms = map<Room, map<Client, Socket>>
  type ClientRooms = map<Client, set<Room>>

  datatype Limits = Limits(
    maxRoomSize: Option<nat>, maxRoomsPerClient: Option<nat>,
    maxMembersPerRoom: Option<nat>, maxRooms: Option<nat>, breaker: Option<Breaker>)
  // Heap sizes at which the circuit breaker opens and closes again.
  datatype Breaker = Breaker(openAt: nat, closeAt: nat)
  datatype State = State(rooms: Rooms, clientRooms: ClientRooms, totalMembers: int)
  datatype Code = RoomLimitExceeded | RoomFull | MaxRoomsReached | CircuitBreakerOpen
  // What a join returns: nothing, an { ok } record, or an error frame.
  datatype Reply = Silent | Plain(ok: bool) | ErrorFrame(code: Code)

  const EMPTY: State := State(map[], map[], 0)

  function RoomsOf(s: State, c: Client): set<Room> {
    if c in s.clientRooms then s.clientRooms[c] else {}
  }

  function MembersOf(s: State, r: Room): map<Client, Socket> {
    if r in s.rooms then s.rooms[r] else map[]
  }

  predicate NewFormat(l: Limits) {
    l.maxRoomsPerClient.Some? || l.maxMembersPerRoom.Some? || l.maxRooms.Some? || l.breaker.Some?
  }

  // _checkCircuitBreaker: whether the breaker is open after the heap was looked at.
  function OpenAfter(b: Breaker, open: bool, heap: nat): bool {
    if !open && heap >= b.openAt then true else if open && heap <= b.closeAt then false else open
  }

  // The three limits checked before a room is created.
  function Refusal(l: Limits, s: State, c: Client, r: Room): Option<Code> {
    if r !in RoomsOf(s, c) && AtLimit(|RoomsOf(s, c)|, l.maxRoomsPerClient) then Some(RoomLimitExceeded)
    else if c !in MembersOf(s, r) && AtLimit(|MembersOf(s, r)|, l.maxMembersPerRoom) then Some(RoomFull)
    else if r !in s.rooms && AtLimit(|s.rooms|, l.maxRooms) then Some(MaxRoomsReached)
    else None
  }

  // The state after c is put into r.
  function Admit(s: State, c: Client, r: Room, ws: Socket): State {
    State(s.rooms[r := MembersOf(s, r)[c := ws]], s.clientRooms[c := RoomsOf(s, c) + {r}],
          if c in MembersOf(s, r) then s.totalMembers else s.totalMembers + 1)
  }

  function Join(l: Limits, s: State, c: Client, r: Room, ws: Socket): (State, Reply) {
    var refusal := Refusal(l, s, c, r);
    if refusal.Some? then (s, ErrorFrame(refusal.value))
    else if c !in MembersOf(s, r) && AtLimit(|MembersOf(s, r)|, l.maxRoomSize) then
      // the room has been created by now, and stays
      (s.(rooms := s.rooms[r := MembersOf(s, r)]), if NewFormat(l) then ErrorFrame(RoomFull) else Plain(false))
    else (Admit(s, c, r, ws), if NewFormat(l) then Silent else Plain(true))
  }

  predicate Rejected(reply: Reply) {
    reply.ErrorFrame? || reply == Plain(false)
  }

  // Deletes c from the members of r, and the room when nobody is left.
  function Vacate(rooms: Rooms, c: Client, r: Room): Rooms
    requires r in rooms
  {
    if rooms[r] - {c} == map[] then rooms - {r} else rooms[r := rooms[r] - {c}]
  }

  function Forget(cr: ClientRooms, c: Client, r: Room): ClientRooms
    requires c in cr
  {
    if cr[c] - {r} == {} then cr - {c} else cr[c := cr[c] - {r}]
  }

  function Leave(s: State, c: Client, r: Room): State {
    var inside := r in s.rooms && c in s.rooms[r];
    State(if inside then Vacate(s.rooms, c, r) else s.rooms,
          if c in s.clientRooms then Forget(s.clientRooms, c, r) else s.clientRooms,
          if inside then s.totalMembers - 1 else s.totalMembers)
  }

  // Every room of rs without c, the ones left empty dropped.
  function VacateAll(rooms: Rooms, c: Client, rs: set<Room>): Rooms {
    map r | r in rooms && !(r in rs && rooms[r] - {c} == map[]) :: if r in rs then rooms[r] - {c} else rooms[r]
  }

  function Disconnect(s: State, c: Client): State {
    if c in s.clientRooms then
      State(VacateAll(s.rooms, c, s.clientRooms[c]), s.clientRooms - {c}, s.totalMembers - |s.clientRooms[c]|)
    else s
  }

  function Renamed(room: map<Client, Socket>, a: Client, b: Client): map<Client, Socket> {
    if a in room then (room - {a})[b := room[a]] else room
  }

  // Every room of rs with the member a now called b.
  function RenameIn(rooms: Rooms, a: Client, b: Client, rs: set<Room>): Rooms {
    map r | r in rooms :: if r in rs then Renamed(rooms[r], a, b) else rooms[r]
  }

  function UpdateClientId(s: State, a: Client, b: Client): State {
    if a == b || a !in s.clientRooms then s
    else
      State(RenameIn(s.rooms, a, b, s.clientRooms[a]),
            s.clientRooms[b := RoomsOf(s, b) + s.clientRooms[a]] - {a}, s.totalMembers)
  }

  // ---- who is let in -----------------------------------------------------------------

  // There is still room below the limit.
  predicate Spare(n: nat, limit: Option<nat>) {
    limit.None? || n < limit.value
  }

  // A join is accepted exactly when a client new to the room finds room below its own limit, below
  // both limits of the room and, for a new room, below the limit of rooms; the reply names the first
  // limit met, in that order, and is a plain record when none of the newer limits is configured.
  lemma JoinAcceptedIff(l: Limits, s: State, c: Client, r: Room, ws: Socket)
    ensures
      var mine, size := |RoomsOf(s, c)|, |MembersOf(s, r)|;
      var own, room := r in RoomsOf(s, c) || Spare(mine, l.maxRoomsPerClient), c in MembersOf(s, r) || Spare(size, l.maxMembersPerRoom);
      var rooms, fits := r in s.rooms || Spare(|s.rooms|, l.maxRooms), c in MembersOf(s, r) || Spare(size, l.maxRoomSize);
      var reply := Join(l, s, c, r, ws).1;
      var newer := l.maxRoomsPerClient != None || l.maxMembersPerRoom != None || l.maxRooms != None || l.breaker != None;
      && (!Rejected(reply) <==> own && room && rooms && fits)
      && (reply == ErrorFrame(RoomLimitExceeded) <==> !own)
      && (reply == ErrorFrame(RoomFull) <==> own && (!room || (rooms && !fits && newer)))
      && (reply == ErrorFrame(MaxRoomsReached) <==> own && room && !rooms)
      && (reply == Plain(false) <==> !fits && !newer)
      && (reply == Silent <==> own && room && rooms && fits && newer)
  {
  }

  function OpenAfterAll(b: Breaker, heaps: seq<nat>): bool {
    if heaps == [] then false else OpenAfter(b, OpenAfterAll(b, heaps[..|heaps| - 1]), heaps[|heaps| - 1])
  }

  // The breaker is open exactly when the heap reached the upper mark and has been above the lower
  // one ever since.
  lemma {:induction false} BreakerHolds(b: Breaker, heaps: seq<nat>)
    requires b.closeAt < b.openAt
    ensures OpenAfterAll(b, heaps) <==>
            exists k :: 0 <= k < |heaps| && heaps[k] >= b.openAt && forall j | k < j < |heaps| :: heaps[j] > b.closeAt
  {
    if heaps != [] {
      var n := |heaps| - 1;
      var init := heaps[..n];
      BreakerHolds(b, init);
      if OpenAfterAll(b, heaps) {
        if heaps[n] < b.openAt {
          var k :| 0 <= k < |init| && init[k] >= b.openAt && forall j | k < j < |init| :: init[j] > b.closeAt;
          assert heaps[k] >= b.openAt && forall j | k < j < |heaps| :: heaps[j] > b.closeAt;
        } else {
          assert heaps[n] >= b.openAt;
        }
      }
      if k :| 0 <= k < |heaps| && heaps[k] >= b.openAt && forall j | k < j < |heaps| :: heaps[j] > b.closeAt {
        if k < n { assert init[k] >= b.openAt && forall j | k < j < |init| :: init[j] > b.closeAt; }
      }
    }
  }

  // ---- what the indexes mean ---------------------------------------------------------

  ghost predicate Seated(rooms: Rooms, c: Client, r: Room) {
    r in rooms && c in rooms[r]
  }

  ghost predicate Listed(cr: ClientRooms, c: Client, r: Room) {
    c in cr && r in cr[c]
  }

  // The membership relation the indexes stand for.
  ghost function Members(rooms: Rooms): set<(Client, Room)> {
    set r, c | r in rooms && c in rooms[r] :: (c, r)
  }

  ghost predicate Inverse(s: State) {
    forall c, r :: Seated(s.rooms, c, r) <==> Listed(s.clientRooms, c, r)
  }

  ghost predicate NoEmptyRoom(rooms: Rooms) {
    forall r <- rooms :: rooms[r] != map[]
  }

  ghost predicate NoEmptyClient(cr: ClientRooms) {
    forall c <- cr :: cr[c] != {}
  }

  ghost predicate RoomsFit(l: Limits, rooms: Rooms) {
    Within(|rooms|, l.maxRooms)
    && forall r <- rooms :: Within(|rooms[r]|, l.maxRoomSize) && Within(|rooms[r]|, l.maxMembersPerRoom)
  }

  ghost predicate ClientsFit(l: Limits, cr: ClientRooms) {
    forall c <- cr :: Within(|cr[c]|, l.maxRoomsPerClient)
  }

  ghost predicate Coherent(l: Limits, s: State) {
    Inverse(s) && NoEmptyRoom(s.rooms) && NoEmptyClient(s.clientRooms)
    && s.totalMembers == |Members(s.rooms)| && RoomsFit(l, s.rooms) && ClientsFit(l, s.clientRooms)
  }

  lemma MemberIff(rooms: Rooms, c: Client, r: Room)
    ensures (c, r) in Members(rooms) <==> Seated(rooms, c, r)
  {
  }

  // Two membership relations agree when they agree at every pair.
  lemma MembersAre(rooms: Rooms, pairs: set<(Client, Room)>)
    requires forall c, r :: Seated(rooms, c, r) <==> (c, r) in pairs
    ensures Members(rooms) == pairs
  {
    hide Seated;
    forall p ensures p in Members(rooms) <==> p in pairs {
      MemberIff(rooms, p.0, p.1);
      assert p == (p.0, p.1);
    }
  }

  ghost function PairsIn(c: Client, rs: set<Room>): set<(Client, Room)> {
    set r | r in rs :: (c, r)
  }

  lemma {:induction false} PairsCount(c: Client, rs: set<Room>)
    ensures |PairsIn(c, rs)| == |rs|
  {
    if rs != {} {
      var r :| r in rs;
      PairsCount(c, rs - {r});
      assert PairsIn(c, rs) == PairsIn(c, rs - {r}) + {(c, r)};
    }
  }

  // ---- join --------------------------------------------------------------------------

  // The join that creates a room nobody may enter.
  predicate LeavesEmptyRoom(l: Limits, s: State, c: Client, r: Room) {
    l.maxRoomSize == Some(0) && r !in s.rooms && Refusal(l, s, c, r) == None
  }

  lemma AdmitAt(s: State, c: Client, r: Room, ws: Socket, d: Client, q: Room)
    ensures Seated(Admit(s, c, r, ws).rooms, d, q) <==> (Seated(s.rooms, d, q) || (d == c && q == r))
    ensures Listed(Admit(s, c, r, ws).clientRooms, d, q) <==> (Listed(s.clientRooms, d, q) || (d == c && q == r))
  {
  }

  lemma AdmitMembers(s: State, c: Client, r: Room, ws: Socket)
    ensures Members(Admit(s, c, r, ws).rooms) == Members(s.rooms) + {(c, r)}
  {
    hide Seated, Admit;
    forall d, q ensures Seated(Admit(s, c, r, ws).rooms, d, q) <==> (d, q) in Members(s.rooms) + {(c, r)} {
      AdmitAt(s, c, r, ws, d, q);
      MemberIff(s.rooms, d, q);
    }
    MembersAre(Admit(s, c, r, ws).rooms, Members(s.rooms) + {(c, r)});
  }

  // A rejected join changes nothing at all, except when it leaves an empty room behind.
  lemma RejectedChangesNothing(l: Limits, s: State, c: Client, r: Room, ws: Socket)
    requires Rejected(Join(l, s, c, r, ws).1)
    ensures Join(l, s, c, r, ws).0 == s <==> !LeavesEmptyRoom(l, s, c, r)
    ensures Members(Join(l, s, c, r, ws).0.rooms) == Members(s.rooms)
  {
    var room := MembersOf(s, r);
    if Refusal(l, s, c, r) == None && r in s.rooms {
      assert s.rooms[r := room] == s.rooms;
    }
    forall d, q ensures Seated(Join(l, s, c, r, ws).0.rooms, d, q) <==> (d, q) in Members(s.rooms) {
      MemberIff(s.rooms, d, q);
    }
    MembersAre(Join(l, s, c, r, ws).0.rooms, Members(s.rooms));
  }

  // Re-joining is never refused, and only replaces the stored socket.
  lemma RejoinReplacesSocket(l: Limits, s: State, c: Client, r: Room, ws: Socket)
    requires Coherent(l, s) && Seated(s.rooms, c, r)
    ensures !Rejected(Join(l, s, c, r, ws).1)
    ensures Join(l, s, c, r, ws).0 == s.(rooms := s.rooms[r := s.rooms[r][c := ws]])
  {
    assert Listed(s.clientRooms, c, r);
    assert s.clientRooms[c] + {r} == s.clientRooms[c];
    assert s.clientRooms[c := s.clientRooms[c] + {r}] == s.clientRooms;
  }

  lemma AdmitCounts(s: State, c: Client, r: Room, ws: Socket)
    requires s.totalMembers == |Members(s.rooms)|
    ensures Admit(s, c, r, ws).totalMembers == |Members(Admit(s, c, r, ws).rooms)|
  {
    AdmitMembers(s, c, r, ws);
    MemberIff(s.rooms, c, r);
    hide Members;
    if (c, r) in Members(s.rooms) {
      assert Members(s.rooms) + {(c, r)} == Members(s.rooms);
    }
  }

  lemma AdmitInverse(s: State, c: Client, r: Room, ws: Socket)
    requires Inverse(s) && NoEmptyRoom(s.rooms) && NoEmptyClient(s.clientRooms)
    ensures
      var s' := Admit(s, c, r, ws);
      Inverse(s') && NoEmptyRoom(s'.rooms) && NoEmptyClient(s'.clientRooms)
  {
    var s' := Admit(s, c, r, ws);
    forall d, q ensures Seated(s'.rooms, d, q) <==> Listed(s'.clientRooms, d, q) {
      hide Seated, Listed, Admit;
      AdmitAt(s, c, r, ws, d, q);
    }
    assert c in s'.rooms[r];
    assert r in s'.clientRooms[c];
  }

  lemma AdmitRoomsFit(l: Limits, s: State, c: Client, r: Room, ws: Socket)
    requires RoomsFit(l, s.rooms)
    requires r in s.rooms || !AtLimit(|s.rooms|, l.maxRooms)
    requires c in MembersOf(s, r) || !(AtLimit(|MembersOf(s, r)|, l.maxMembersPerRoom) || AtLimit(|MembersOf(s, r)|, l.maxRoomSize))
    ensures RoomsFit(l, Admit(s, c, r, ws).rooms)
  {
    var rooms', room := Admit(s, c, r, ws).rooms, MembersOf(s, r);
    assert r in s.rooms ==> |rooms'| == |s.rooms|;
    assert c in room ==> |room[c := ws]| == |room|;
    forall q <- rooms' ensures Within(|rooms'[q]|, l.maxRoomSize) && Within(|rooms'[q]|, l.maxMembersPerRoom) {
      assert q != r ==> rooms'[q] == s.rooms[q];
    }
  }

  lemma AdmitClientsFit(l: Limits, s: State, c: Client, r: Room, ws: Socket)
    requires ClientsFit(l, s.clientRooms)
    requires r in RoomsOf(s, c) || !AtLimit(|RoomsOf(s, c)|, l.maxRoomsPerClient)
    ensures ClientsFit(l, Admit(s, c, r, ws).clientRooms)
  {
    if r in RoomsOf(s, c) { assert RoomsOf(s, c) + {r} == RoomsOf(s, c); }
  }

  // A join keeps the invariant unless it leaves an empty room, and then it breaks it.
  lemma JoinValidIff(l: Limits, s: State, c: Client, r: Room, ws: Socket)
    requires Coherent(l, s)
    ensures Coherent(l, Join(l, s, c, r, ws).0) <==> !LeavesEmptyRoom(l, s, c, r)
  {
    var (s', reply) := Join(l, s, c, r, ws);
    if Rejected(reply) {
      hide Inverse, Members, RoomsFit, ClientsFit, NoEmptyClient;
      RejectedChangesNothing(l, s, c, r, ws);
      if LeavesEmptyRoom(l, s, c, r) {
        assert r in s'.rooms && s'.rooms[r] == map[];
      }
    } else {
      hide Inverse, Members, RoomsFit, ClientsFit, NoEmptyClient, NoEmptyRoom, Admit;
      AdmitCounts(s, c, r, ws);
      AdmitRoomsFit(l, s, c, r, ws);
      AdmitClientsFit(l, s, c, r, ws);
      AdmitInverse(s, c, r, ws);
    }
  }

  // ---- leave and disconnect ----------------------------------------------------------

  lemma LeaveAt(s: State, c: Client, r: Room, d: Client, q: Room)
    ensures Seated(Leave(s, c, r).rooms, d, q) <==> (Seated(s.rooms, d, q) && !(d == c && q == r))
    ensures Listed(Leave(s, c, r).clientRooms, d, q) <==> (Listed(s.clientRooms, d, q) && !(d == c && q == r))
  {
    if q == r && Seated(s.rooms, d, r) && d != c { assert d in s.rooms[r] - {c}; }
    if d == c && Listed(s.clientRooms, c, q) && q != r { assert q in s.clientRooms[c] - {r}; }
  }

  lemma LeaveMembers(s: State, c: Client, r: Room)
    ensures Members(Leave(s, c, r).rooms) == Members(s.rooms) - {(c, r)}
  {
    hide Seated, Leave;
    forall d, q ensures Seated(Leave(s, c, r).rooms, d, q) <==> (d, q) in Members(s.rooms) - {(c, r)} {
      LeaveAt(s, c, r, d, q);
      MemberIff(s.rooms, d, q);
    }
    MembersAre(Leave(s, c, r).rooms, Members(s.rooms) - {(c, r)});
  }

  lemma VacateFits(l: Limits, rooms: Rooms, c: Client, r: Room)
    requires RoomsFit(l, rooms) && NoEmptyRoom(rooms) && r in rooms
    ensures RoomsFit(l, Vacate(rooms, c, r)) && NoEmptyRoom(Vacate(rooms, c, r))
  {
    FewerKeys(Vacate(rooms, c, r), rooms);
    FewerKeys(rooms[r] - {c}, rooms[r]);
  }

  lemma ForgetFits(l: Limits, cr: ClientRooms, c: Client, r: Room)
    requires ClientsFit(l, cr) && NoEmptyClient(cr) && c in cr
    ensures ClientsFit(l, Forget(cr, c, r)) && NoEmptyClient(Forget(cr, c, r))
  {
    SubsetSize(cr[c] - {r}, cr[c]);
  }

  lemma LeaveInverse(s: State, c: Client, r: Room)
    requires Inverse(s)
    ensures Inverse(Leave(s, c, r))
  {
    hide Seated, Listed, Leave;
    forall d, q ensures Seated(Leave(s, c, r).rooms, d, q) <==> Listed(Leave(s, c, r).clientRooms, d, q) {
      LeaveAt(s, c, r, d, q);
    }
  }

  lemma LeaveValid(l: Limits, s: State, c: Client, r: Room)
    requires Coherent(l, s)
    ensures Coherent(l, Leave(s, c, r))
  {
    MemberIff(s.rooms, c, r);
    LeaveMembers(s, c, r);
    LeaveInverse(s, c, r);
    if r in s.rooms { VacateFits(l, s.rooms, c, r); }
    if c in s.clientRooms { ForgetFits(l, s.clientRooms, c, r); }
    hide Inverse, Members, RoomsFit, ClientsFit, NoEmptyClient, NoEmptyRoom, Vacate, Forget;
  }

  lemma VacateAllAt(rooms: Rooms, c: Client, rs: set<Room>, d: Client, q: Room)
    ensures Seated(VacateAll(rooms, c, rs), d, q) <==> (Seated(rooms, d, q) && !(d == c && q in rs))
  {
    if Seated(rooms, d, q) && d != c { assert d in rooms[q] - {c}; }
  }

  // Disconnecting removes the client's pairs, all of them and no others.
  lemma DisconnectMembers(s: State, c: Client)
    requires Inverse(s)
    ensures Members(Disconnect(s, c).rooms) == Members(s.rooms) - PairsIn(c, RoomsOf(s, c))
    ensures PairsIn(c, RoomsOf(s, c)) <= Members(s.rooms)
    ensures forall r :: (c, r) !in Members(Disconnect(s, c).rooms)
  {
    var s', gone := Disconnect(s, c), PairsIn(c, RoomsOf(s, c));
    forall d, q
      ensures Seated(s'.rooms, d, q) <==> (d, q) in Members(s.rooms) - gone
      ensures (d, q) in gone ==> (d, q) in Members(s.rooms)
      ensures d == c ==> !Seated(s'.rooms, d, q)
    {
      assert Seated(s.rooms, d, q) <==> Listed(s.clientRooms, d, q);
      hide Seated, VacateAll, Members;
      VacateAllAt(s.rooms, c, RoomsOf(s, c), d, q);
      MemberIff(s.rooms, d, q);
    }
    hide Seated, Disconnect, Members;
    MembersAre(s'.rooms, Members(s.rooms) - gone);
    forall r ensures (c, r) !in Members(s'.rooms) { MemberIff(s'.rooms, c, r); }
    forall p <- gone ensures p in Members(s.rooms) { assert p == (p.0, p.1); }
  }

  lemma VacateAllFits(l: Limits, rooms: Rooms, c: Client, rs: set<Room>)
    requires RoomsFit(l, rooms) && NoEmptyRoom(rooms)
    ensures RoomsFit(l, VacateAll(rooms, c, rs)) && NoEmptyRoom(VacateAll(rooms, c, rs))
  {
    var rooms' := VacateAll(rooms, c, rs);
    FewerKeys(rooms', rooms);
    forall q <- rooms' ensures |rooms'[q]| <= |rooms[q]| {
      FewerKeys(rooms'[q], rooms[q]);
    }
  }

  lemma DisconnectInverse(s: State, c: Client)
    requires Inverse(s)
    ensures Inverse(Disconnect(s, c))
  {
    if c in s.clientRooms {
      var s' := Disconnect(s, c);
      forall d, q ensures Seated(s'.rooms, d, q) <==> Listed(s'.clientRooms, d, q) {
        hide Seated, VacateAll;
        VacateAllAt(s.rooms, c, s.clientRooms[c], d, q);
        assert Seated(s.rooms, d, q) <==> Listed(s.clientRooms, d, q);
      }
    }
  }

  lemma DisconnectValid(l: Limits, s: State, c: Client)
    requires Coherent(l, s)
    ensures Coherent(l, Disconnect(s, c))
  {
    if c in s.clientRooms {
      DisconnectMembers(s, c);
      PairsCount(c, s.clientRooms[c]);
      DisconnectInverse(s, c);
      VacateAllFits(l, s.rooms, c, s.clientRooms[c]);
      hide Inverse, Members, RoomsFit, VacateAll, NoEmptyRoom, PairsIn;
    }
  }

  // ---- a change of client id ---------------------------------------------------------

  lemma RenameAt(rooms: Rooms, a: Client, b: Client, rs: set<Room>, d: Client, q: Room)
    requires a != b
    ensures Seated(RenameIn(rooms, a, b, rs), d, q) <==>
            if q in rs && Seated(rooms, a, q) then d == b || (d != a && Seated(rooms, d, q)) else Seated(rooms, d, q)
  {
  }

  lemma RenameListedAt(s: State, a: Client, b: Client, d: Client, q: Room)
    requires a != b && a in s.clientRooms
    ensures Listed(UpdateClientId(s, a, b).clientRooms, d, q) <==>
            d != a && (Listed(s.clientRooms, d, q) || (d == b && q in s.clientRooms[a]))
  {
  }

  lemma RenameInverse(s: State, a: Client, b: Client)
    requires Inverse(s) && a != b && a in s.clientRooms
    ensures Inverse(UpdateClientId(s, a, b))
  {
    var s' := UpdateClientId(s, a, b);
    forall d, q ensures Seated(s'.rooms, d, q) <==> Listed(s'.clientRooms, d, q) {
      assert Seated(s.rooms, d, q) <==> Listed(s.clientRooms, d, q);
      assert Seated(s.rooms, a, q) <==> Listed(s.clientRooms, a, q);
      assert Listed(s.clientRooms, a, q) <==> q in s.clientRooms[a];
      RenameAt(s.rooms, a, b, s.clientRooms[a], d, q);
      RenameListedAt(s, a, b, d, q);
      hide Seated, Listed, RenameIn;
    }
  }

  // Where a stood, b stands, with the same socket; nobody else moves.
  lemma RenameMembers(s: State, a: Client, b: Client)
    requires Inverse(s) && a != b && a in s.clientRooms
    ensures
      Members(UpdateClientId(s, a, b).rooms) ==
      Members(s.rooms) - PairsIn(a, s.clientRooms[a]) + PairsIn(b, s.clientRooms[a])
    ensures PairsIn(a, s.clientRooms[a]) <= Members(s.rooms)
    ensures forall r <- s.clientRooms[a] :: Seated(s.rooms, a, r) && UpdateClientId(s, a, b).rooms[r][b] == s.rooms[r][a]
  {
    var rooms', rs := UpdateClientId(s, a, b).rooms, s.clientRooms[a];
    var pairs := Members(s.rooms) - PairsIn(a, rs) + PairsIn(b, rs);
    forall r <- rs ensures Seated(s.rooms, a, r) { assert Listed(s.clientRooms, a, r); }
    forall d, q
      ensures Seated(rooms', d, q) <==> (d, q) in pairs
      ensures (d, q) in PairsIn(a, rs) ==> (d, q) in Members(s.rooms)
    {
      assert Seated(s.rooms, d, q) <==> Listed(s.clientRooms, d, q);
      RenameAt(s.rooms, a, b, rs, d, q);
      MemberIff(s.rooms, d, q);
      hide Seated, RenameIn, Members;
    }
    MembersAre(rooms', pairs);
    forall p <- PairsIn(a, rs) ensures p in Members(s.rooms) { assert p == (p.0, p.1); }
  }

  lemma {:induction false} Overlap<T>(a: set<T>, b: set<T>)
    ensures |a + b| == |a| + |b| - |a * b|
  {
  }

  // The tracked total stays right exactly when the two ids share no room.
  lemma RenameCountsIff(s: State, a: Client, b: Client)
    requires Inverse(s) && a != b && a in s.clientRooms && s.totalMembers == |Members(s.rooms)|
    ensures s.totalMembers == |Members(UpdateClientId(s, a, b).rooms)| + |s.clientRooms[a] * RoomsOf(s, b)|
  {
    var rs := s.clientRooms[a];
    RenameMembers(s, a, b);
    PairsCount(a, rs);
    PairsCount(b, rs);
    PairsCount(b, rs * RoomsOf(s, b));
    var kept := Members(s.rooms) - PairsIn(a, rs);
    assert |kept| == |Members(s.rooms)| - |rs|;
    Overlap(kept, PairsIn(b, rs));
    assert kept * PairsIn(b, rs) == PairsIn(b, rs * RoomsOf(s, b)) by {
      forall d, q ensures (d, q) in kept * PairsIn(b, rs) <==> (d, q) in PairsIn(b, rs * RoomsOf(s, b)) {
        MemberIff(s.rooms, d, q);
        assert Seated(s.rooms, d, q) <==> Listed(s.clientRooms, d, q);
      }
      forall p ensures p in kept * PairsIn(b, rs) <==> p in PairsIn(b, rs * RoomsOf(s, b)) {
        assert p == (p.0, p.1);
      }
    }
  }

  lemma RenamedSize(room: map<Client, Socket>, a: Client, b: Client)
    requires a != b
    ensures |Renamed(room, a, b)| <= |room| && (room != map[] ==> Renamed(room, a, b) != map[])
  {
    if a in room {
      assert (room - {a}).Keys == room.Keys - {a};
      assert |(room - {a}).Keys| == |room - {a}| && |room.Keys| == |room|;
      assert b in Renamed(room, a, b);
    }
  }

  lemma RenameFits(l: Limits, rooms: Rooms, a: Client, b: Client, rs: set<Room>)
    requires RoomsFit(l, rooms) && NoEmptyRoom(rooms) && a != b
    ensures RoomsFit(l, RenameIn(rooms, a, b, rs)) && NoEmptyRoom(RenameIn(rooms, a, b, rs))
  {
    var rooms' := RenameIn(rooms, a, b, rs);
    FewerKeys(rooms', rooms);
    forall q <- rooms' ensures |rooms'[q]| <= |rooms[q]| && rooms'[q] != map[] {
      RenamedSize(rooms[q], a, b);
    }
  }

  lemma RenameClientsFitIff(l: Limits, s: State, a: Client, b: Client)
    requires ClientsFit(l, s.clientRooms) && NoEmptyClient(s.clientRooms) && a != b && a in s.clientRooms
    ensures NoEmptyClient(UpdateClientId(s, a, b).clientRooms)
    ensures ClientsFit(l, UpdateClientId(s, a, b).clientRooms)
       <==> Within(|RoomsOf(s, b) + s.clientRooms[a]|, l.maxRoomsPerClient)
  {
    var cr' := UpdateClientId(s, a, b).clientRooms;
    assert cr'[b] == RoomsOf(s, b) + s.clientRooms[a];
    var r :| r in s.clientRooms[a];
    assert r in cr'[b];
    forall d <- cr' ensures d != b ==> d in s.clientRooms && cr'[d] == s.clientRooms[d] {
    }
  }

  // Taking over another id's rooms keeps the invariant exactly when the two ids share no
  // room and together stay within the limit on rooms per client.
  lemma UpdateValidIff(l: Limits, s: State, a: Client, b: Client)
    requires Coherent(l, s) && a != b && a in s.clientRooms
    ensures Coherent(l, UpdateClientId(s, a, b))
       <==> s.clientRooms[a] * RoomsOf(s, b) == {}
            && Within(|RoomsOf(s, b) + s.clientRooms[a]|, l.maxRoomsPerClient)
  {
    hide Inverse, Members, RoomsFit, ClientsFit, NoEmptyRoom, NoEmptyClient, RenameIn;
    var s' := UpdateClientId(s, a, b);
    assert s'.rooms == RenameIn(s.rooms, a, b, s.clientRooms[a]) && s'.totalMembers == s.totalMembers;
    hide UpdateClientId;
    RenameInverse(s, a, b);
    RenameCountsIff(s, a, b);
    RenameFits(l, s.rooms, a, b, s.clientRooms[a]);
    RenameClientsFitIff(l, s, a, b);
    var shared := s.clientRooms[a] * RoomsOf(s, b);
    assert |shared| == 0 <==> shared == {};
  }

  // ---- every run ---------------------------------------------------------------------

  datatype Request =
    | JoinRequest(client: Client, room: Room, ws: Socket)
    | LeaveRequest(client: Client, room: Room)
    | DisconnectRequest(client: Client)
    | UpdateRequest(client: Client, newId: Client)

  function Serve(l: Limits, s: State, q: Request): State {
    match q
    case JoinRequest(c, r, ws) => Join(l, s, c, r, ws).0
    case LeaveRequest(c, r) => Leave(s, c, r)
    case DisconnectRequest(c) => Disconnect(s, c)
    case UpdateRequest(a, b) => UpdateClientId(s, a, b)
  }

  function ServeAll(l: Limits, s: State, qs: seq<Request>): State
    decreases |qs|
  {
    if qs == [] then s else ServeAll(l, Serve(l, s, qs[0]), qs[1..])
  }

  // No request changes an id to one that is in some room at that moment.
  predicate FreshIds(l: Limits, s: State, qs: seq<Request>)
    decreases |qs|
  {
    qs == []
    || ((qs[0].UpdateRequest? ==> qs[0].newId == qs[0].client || RoomsOf(s, qs[0].newId) == {})
        && FreshIds(l, Serve(l, s, qs[0]), qs[1..]))
  }

  lemma ServeValid(l: Limits, s: State, q: Request)
    requires Coherent(l, s) && l.maxRoomSize != Some(0)
    requires q.UpdateRequest? ==> q.newId == q.client || RoomsOf(s, q.newId) == {}
    ensures Coherent(l, Serve(l, s, q))
  {
    hide Coherent;
    match q
    case JoinRequest(c, r, ws) => JoinValidIff(l, s, c, r, ws);
    case LeaveRequest(c, r) => LeaveValid(l, s, c, r);
    case DisconnectRequest(c) => DisconnectValid(l, s, c);
    case UpdateRequest(a, b) =>
      if a != b && a in s.clientRooms {
        UpdateValidIff(l, s, a, b);
        assert RoomsOf(s, b) + s.clientRooms[a] == s.clientRooms[a];
        assert Within(|s.clientRooms[a]|, l.maxRoomsPerClient) by { ValidFits(l, s, a); }
      }
  }

  lemma ValidFits(l: Limits, s: State, c: Client)
    requires Coherent(l, s) && c in s.clientRooms
    ensures Within(|s.clientRooms[c]|, l.maxRoomsPerClient)
  {
  }

  lemma {:induction false} RunValid(l: Limits, s: State, qs: seq<Request>)
    requires Coherent(l, s) && l.maxRoomSize != Some(0) && FreshIds(l, s, qs)
    ensures Coherent(l, ServeAll(l, s, qs))
    decreases |qs|
  {
    if qs != [] {
      ServeValid(l, s, qs[0]);
      RunValid(l, Serve(l, s, qs[0]), qs[1..]);
    }
  }

  // The sum of the room sizes, taken in any order.
  ghost function TotalSize(rooms: Rooms): nat {
    if rooms == map[] then 0
    else
      var r :| r in rooms;
      |rooms[r]| + TotalSize(rooms - {r})
  }

  ghost function PairsAt(cs: set<Client>, r: Room): set<(Client, Room)> {
    set c | c in cs :: (c, r)
  }

  lemma {:induction false} PairsAtCount(cs: set<Client>, r: Room)
    ensures |PairsAt(cs, r)| == |cs|
  {
    if cs != {} {
      var c :| c in cs;
      PairsAtCount(cs - {c}, r);
      assert PairsAt(cs, r) == PairsAt(cs - {c}, r) + {(c, r)};
    }
  }

  lemma SplitRoom(rooms: Rooms, r: Room)
    requires r in rooms
    ensures Members(rooms) == Members(rooms - {r}) + PairsAt(rooms[r].Keys, r)
    ensures Members(rooms - {r}) !! PairsAt(rooms[r].Keys, r)
  {
    var pairs := Members(rooms - {r}) + PairsAt(rooms[r].Keys, r);
    forall d, q ensures Seated(rooms, d, q) <==> (d, q) in pairs {
      MemberIff(rooms - {r}, d, q);
      hide Members;
    }
    MembersAre(rooms, pairs);
  }

  lemma {:induction false} SizesAddUp(rooms: Rooms)
    ensures TotalSize(rooms) == |Members(rooms)|
  {
    if rooms == map[] {
      assert Members(rooms) == {};
    } else {
      var r :| r in rooms && TotalSize(rooms) == |rooms[r]| + TotalSize(rooms - {r});
      SizesAddUp(rooms - {r});
      PairsAtCount(rooms[r].Keys, r);
      assert |rooms[r].Keys| == |rooms[r]|;
      SplitRoom(rooms, r);
      hide Members, PairsAt;
    }
  }

  // From an empty manager, after any run of requests: the indexes are exact inverses without
  // empty entries, the limits hold, and the tracked total is the sum of the room sizes.
  lemma IndexesAgree(l: Limits, qs: seq<Request>)
    requires l.maxRoomSize != Some(0) && FreshIds(l, EMPTY, qs)
    ensures Coherent(l, ServeAll(l, EMPTY, qs))
    ensures ServeAll(l, EMPTY, qs).totalMembers == TotalSize(ServeAll(l, EMPTY, qs).rooms)
  {
    assert Members(EMPTY.rooms) == {};
    RunValid(l, EMPTY, qs);
    SizesAddUp(ServeAll(l, EMPTY, qs).rooms);
  }

  // Both hypotheses are needed: a limit of zero leaves an empty room, and taking over an id
  // that shares a room overcounts.
  lemma HypothesesNeeded(l: Limits)
    requires l == Limits(Some(0), None, None, None, None)
    ensures ServeAll(l, EMPTY, [JoinRequest("a", "x", Socket(0))]).rooms == map["x" := map[]]
    ensures
      var open := Limits(None, None, None, None, None);
      var s := ServeAll(open, EMPTY, [JoinRequest("a", "x", Socket(0)), JoinRequest("b", "x", Socket(1)), UpdateRequest("a", "b")]);
      s.totalMembers == 2 && s.rooms == map["x" := map["b" := Socket(0)]]
  {
    var q := JoinRequest("a", "x", Socket(0));
    assert Serve(l, EMPTY, q).rooms == map["x" := map[]];
    assert [q][1..] == [];
    var open := Limits(None, None, None, None, None);
    var q2, q3 := JoinRequest("b", "x", Socket(1)), UpdateRequest("a", "b");
    var s1 := Serve(open, EMPTY, q);
    assert s1 == State(map["x" := map["a" := Socket(0)]], map["a" := {"x"}], 1);
    var s2 := Serve(open, s1, q2);
    assert s2 == State(map["x" := map["a" := Socket(0), "b" := Socket(1)]], map["a" := {"x"}, "b" := {"x"}], 2);
    assert Renamed(s2.rooms["x"], "a", "b") == map["b" := Socket(0)];
    var s3 := Serve(open, s2, q3);
    assert s3.rooms == map["x" := map["b" := Socket(0)]] && s3.totalMembers == 2;
    assert [q, q2, q3][1..] == [q2, q3] && [q2, q3][1..] == [q3] && [q3][1..] == [];
    assert ServeAll(open, s2, [q3]) == s3;
    assert ServeAll(open, s1, [q2, q3]) == s3;
  }
}
