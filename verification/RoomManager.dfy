/**
 * The room manager object. Its membership methods compute the operations of RoomIndex, its log
 * is always the outcome of the messages published to it (Replay), and its broadcasts and
 * acknowledgements move each subscription's window as AckWindow says. The ghost field `drafts`
 * remembers every message a room has sequenced.
 */
module RoomManager {
  import opened Wrappers
  import opened Collections
  import opened RoomIndex
  import opened Replay
  import opened AckWindow
  import Dedup

  type Acks = map<Client, map<Room, Ack>>

  function AckIn(acks: Acks, c: Client, r: Room): Ack {
    if c in acks && r in acks[c] then acks[c][r] else FRESH
  }

  function SetAck(acks: Acks, c: Client, r: Room, a: Ack): Acks {
    acks[c := (if c in acks then acks[c] else map[])[r := a]]
  }

  // Deletes one window, and the client's entry when it was the last.
  function DropAck(acks: Acks, c: Client, r: Room): Acks {
    if c !in acks then acks
    else if acks[c] - {r} == map[] then acks - {c}
    else acks[c := acks[c] - {r}]
  }

  lemma SetAckAt(acks: Acks, c: Client, r: Room, a: Ack, d: Client, q: Room)
    ensures AckIn(SetAck(acks, c, r, a), d, q) == if d == c && q == r then a else AckIn(acks, d, q)
  {
  }

  // The members of the room that a broadcast addresses: open sockets, the excluded sender apart.
  function Targets(room: map<Client, Socket>, open: set<Socket>, exclude: Option<Client>): set<Client> {
    set c | c in room && Some(c) != exclude && room[c] in open
  }

  // One subscription's window after a broadcast to r addressed ts.
  function AfterBroadcast(window: Option<nat>, a: Ack, addressed: bool): Ack {
    if addressed && window.Some? then Offer(window.value, a) else a
  }

  predicate Delivers(window: Option<nat>, a: Ack) {
    window.None? || !Blocked(window.value, a)
  }

  ghost predicate Offered(window: Option<nat>, before: Acks, after: Acks, r: Room, ts: set<Client>) {
    forall c, q :: AckIn(after, c, q) == AfterBroadcast(window, AckIn(before, c, q), q == r && c in ts)
  }

  lemma OfferStep(window: nat, before: Acks, now: Acks, r: Room, ts: set<Client>, c: Client)
    requires Offered(Some(window), before, now, r, ts) && c !in ts
    ensures AckIn(now, c, r) == AckIn(before, c, r)
    ensures Offered(Some(window), before, SetAck(now, c, r, Offer(window, AckIn(now, c, r))), r, ts + {c})
  {
    hide SetAck, AckIn;
    assert AckIn(now, c, r) == AfterBroadcast(Some(window), AckIn(before, c, r), false);
    var after := SetAck(now, c, r, Offer(window, AckIn(now, c, r)));
    forall d, q
      ensures AckIn(after, d, q) == AfterBroadcast(Some(window), AckIn(before, d, q), q == r && d in ts + {c})
    {
      SetAckAt(now, c, r, Offer(window, AckIn(now, c, r)), d, q);
    }
  }

  // A broadcast goes to the members with an open socket and room in their window, the excluded one
  // apart; those without room are paused, and every other window stays.
  ghost predicate Reached(window: Option<nat>, room: map<Client, Socket>, open: set<Socket>, exclude: Option<Client>,
                          r: Room, before: Acks, after: Acks, sentTo: set<Client>) {
    && (forall c :: c in sentTo <==>
          c in room && room[c] in open && exclude != Some(c)
          && (window.Some? ==> !AckIn(before, c, r).paused && AckIn(before, c, r).unacked < window.value))
    && (forall c, q :: AckIn(after, c, q) ==
          if window.None? || q != r || c !in room || room[c] !in open || exclude == Some(c) then AckIn(before, c, q)
          else if c in sentTo then AckIn(before, c, q).(unacked := AckIn(before, c, q).unacked + 1)
          else AckIn(before, c, q).(paused := true))
  }

  lemma BroadcastReaches(window: Option<nat>, room: map<Client, Socket>, open: set<Socket>, exclude: Option<Client>,
                         r: Room, before: Acks, after: Acks, sentTo: set<Client>)
    requires Offered(window, before, after, r, Targets(room, open, exclude))
    requires sentTo == set c | c in Targets(room, open, exclude) && Delivers(window, AckIn(before, c, r))
    ensures Reached(window, room, open, exclude, r, before, after, sentTo)
  {
    hide AckIn;
  }

  // A dropped window reads as fresh, and no other moves.
  lemma DropAckAt(acks: Acks, c: Client, r: Room, d: Client, q: Room)
    ensures AckIn(DropAck(acks, c, r), d, q) == if d == c && q == r then START.ack else AckIn(acks, d, q)
  {
    if c in acks && d == c && q != r && q in acks[c] { assert q in acks[c] - {r}; }
  }

  // What a broadcast does to each subscription is a step of its flow, and the message is sent to
  // the client exactly when the flow records its number as sent.
  lemma BroadcastStepsFlows(window: nat, before: Acks, after: Acks, r: Room, ts: set<Client>, c: Client, f: Flow)
    requires Offered(Some(window), before, after, r, ts) && f.ack == AckIn(before, c, r) && f.issued + 1 !in f.sent
    ensures AckIn(after, c, r) == Next(window, f, AckWindow.Broadcast(c in ts)).ack
    ensures (c in ts && Delivers(Some(window), f.ack)) <==> f.issued + 1 in Next(window, f, AckWindow.Broadcast(c in ts)).sent
    ensures forall q | q != r :: AckIn(after, c, q) == AckIn(before, c, q)
  {
    hide AckIn;
    assert AckIn(after, c, r) == AfterBroadcast(Some(window), AckIn(before, c, r), c in ts);
    forall q | q != r ensures AckIn(after, c, q) == AckIn(before, c, q) {
      assert AckIn(after, c, q) == AfterBroadcast(Some(window), AckIn(before, c, q), false);
    }
  }

  lemma VacateStep(rooms: Rooms, c: Client, done: set<Room>, r: Room)
    requires r !in done
    ensures r in VacateAll(rooms, c, done) <==> r in rooms
    ensures VacateAll(rooms, c, done + {r}) ==
            if r in rooms then Vacate(VacateAll(rooms, c, done), c, r) else VacateAll(rooms, c, done)
  {
  }

  lemma VacateNone(rooms: Rooms, c: Client)
    ensures VacateAll(rooms, c, {}) == rooms
  {
  }

  lemma RenameStep(rooms: Rooms, a: Client, b: Client, done: set<Room>, r: Room)
    requires r !in done
    ensures r in RenameIn(rooms, a, b, done) <==> r in rooms
    ensures RenameIn(rooms, a, b, done + {r}) ==
            if r in rooms then RenameIn(rooms, a, b, done)[r := Renamed(rooms[r], a, b)] else RenameIn(rooms, a, b, done)
    ensures r in rooms ==> RenameIn(rooms, a, b, done)[r] == rooms[r]
  {
  }

  lemma RenameNone(rooms: Rooms, a: Client, b: Client)
    ensures RenameIn(rooms, a, b, {}) == rooms
  {
  }

  function LogAt(numbers: map<Room, nat>, buffers: map<Room, seq<Entry>>, bytes: map<Room, int>, r: Room): Log {
    Log(if r in numbers then numbers[r] else 0, if r in buffers then buffers[r] else [], if r in bytes then bytes[r] else 0)
  }

  function DraftsAt(drafts: map<Room, seq<Draft>>, r: Room): seq<Draft> {
    if r in drafts then drafts[r] else []
  }

  // Every room's log is the outcome of the messages published to it.
  ghost predicate Faithful(size: Entry -> nat, b: Bounds, numbers: map<Room, nat>, buffers: map<Room, seq<Entry>>,
                           bytes: map<Room, int>, drafts: map<Room, seq<Draft>>) {
    forall r :: LogAt(numbers, buffers, bytes, r) == PublishAll(size, b, DraftsAt(drafts, r))
  }

  // Publishing to one room leaves the logs of the others what they were.
  lemma FaithfulPublish(size: Entry -> nat, b: Bounds, numbers: map<Room, nat>, buffers: map<Room, seq<Entry>>,
                        bytes: map<Room, int>, drafts: map<Room, seq<Draft>>, r: Room, d: Draft)
    requires Faithful(size, b, numbers, buffers, bytes, drafts)
    ensures
      var log := Publish(size, b, LogAt(numbers, buffers, bytes, r), d);
      Faithful(size, b, numbers[r := log.issued], buffers[r := log.buffer], bytes[r := log.bytes],
               drafts[r := DraftsAt(drafts, r) + [d]])
  {
    var log := Publish(size, b, LogAt(numbers, buffers, bytes, r), d);
    var ds := DraftsAt(drafts, r);
    assert (ds + [d])[..|ds|] == ds;
    hide Publish;
    var numbers', buffers', bytes' := numbers[r := log.issued], buffers[r := log.buffer], bytes[r := log.bytes];
    var drafts' := drafts[r := ds + [d]];
    forall q ensures LogAt(numbers', buffers', bytes', q) == PublishAll(size, b, DraftsAt(drafts', q)) {
      assert LogAt(numbers, buffers, bytes, q) == PublishAll(size, b, DraftsAt(drafts, q));
    }
  }

  // The buffer loop: drop from the front, keeping the byte total current.
  method EvictOld(size: Entry -> nat, b: Bounds, es: seq<Entry>, bytes: int) returns (kept: seq<Entry>, left: int)
    requires bytes == Total(size, es)
    ensures kept == Evict(size, b, es) && left == Total(size, kept)
  {
    kept, left := es, bytes;
    while |kept| > 0 && (|kept| > b.ringBufferSize || left > b.maxBufferBytes)
      invariant Evict(size, b, kept) == Evict(size, b, es) && left == Total(size, kept)
      decreases |kept|
    {
      left := left - size(kept[0]);
      kept := kept[1..];
    }
  }

  class RoomManager {
    const limits: Limits
    const bounds: Bounds
    const size: Entry -> nat
    const ackWindow: Option<nat>
    const dedupWindow: int
    const maxDedup: nat
    var breakerOpen: bool
    var dedup: seq<Dedup.Entry>
    var rooms: Rooms
    var clientRooms: ClientRooms
    var totalMembers: int
    var roomSeq: map<Room, nat>
    var roomBuffers: map<Room, seq<Entry>>
    var roomBufferBytes: map<Room, int>
    var acks: Acks
    ghost var drafts: map<Room, seq<Draft>>

    ghost function Index(): State
      reads this
    {
      State(rooms, clientRooms, totalMembers)
    }

    function LogOf(r: Room): Log
      reads this
    {
      LogAt(roomSeq, roomBuffers, roomBufferBytes, r)
    }

    ghost function Published(r: Room): seq<Draft>
      reads this
    {
      DraftsAt(drafts, r)
    }

    ghost predicate LogsFaithful()
      reads this
    {
      Faithful(size, bounds, roomSeq, roomBuffers, roomBufferBytes, drafts)
    }

    ghost predicate Valid()
      reads this
    {
      limits.maxRoomSize != Some(0) && Coherent(limits, Index()) && LogsFaithful()
    }

    constructor (limits: Limits, bounds: Bounds, size: Entry -> nat, ackWindow: Option<nat>, dedupWindow: int, maxDedup: nat)
      ensures Index() == EMPTY && LogsFaithful() && drafts == map[] && acks == map[] && dedup == [] && !breakerOpen
      ensures this.limits == limits && this.bounds == bounds && this.size == size && this.ackWindow == ackWindow
      ensures this.dedupWindow == dedupWindow && this.maxDedup == maxDedup
      ensures limits.maxRoomSize != Some(0) ==> Valid()
    {
      this.limits, this.bounds, this.size, this.ackWindow := limits, bounds, size, ackWindow;
      this.dedupWindow, this.maxDedup, dedup, breakerOpen := dedupWindow, maxDedup, [], false;
      rooms, clientRooms, totalMembers := map[], map[], 0;
      roomSeq, roomBuffers, roomBufferBytes, acks, drafts := map[], map[], map[], map[], map[];
      new;
      assert Index() == EMPTY && Members(EMPTY.rooms) == {};
    }

    // `heap` is the heap in use, looked at only when the circuit breaker is on.
    method Join(c: Client, r: Room, ws: Socket, heap: nat) returns (reply: Reply)
      modifies this`rooms, this`clientRooms, this`totalMembers, this`breakerOpen
      ensures breakerOpen == if limits.breaker.Some? then OpenAfter(limits.breaker.value, old(breakerOpen), heap) else old(breakerOpen)
      ensures (Index(), reply) ==
        if limits.breaker.Some? && breakerOpen then (old(Index()), ErrorFrame(CircuitBreakerOpen))
        else RoomIndex.Join(limits, old(Index()), c, r, ws)
      ensures old(Valid()) ==> Valid() && (Rejected(reply) ==> Index() == old(Index()))
    {
      hide Coherent, Faithful, RoomIndex.Join;
      if limits.breaker.Some? {
        breakerOpen := OpenAfter(limits.breaker.value, breakerOpen, heap);
        if breakerOpen { return ErrorFrame(CircuitBreakerOpen); }
      }
      reply := Enter(c, r, ws);
      if old(Valid()) {
        JoinValidIff(limits, old(Index()), c, r, ws);
        if Rejected(reply) { RejectedChangesNothing(limits, old(Index()), c, r, ws); }
      }
    }

    // The limits checked before anything is touched.
    method Refuse(c: Client, r: Room) returns (code: Option<Code>)
      ensures code == Refusal(limits, Index(), c, r)
    {
      var mine := if c in clientRooms then clientRooms[c] else {};
      if limits.maxRoomsPerClient.Some? && r !in mine && |mine| >= limits.maxRoomsPerClient.value {
        return Some(RoomLimitExceeded);
      }
      var room := if r in rooms then rooms[r] else map[];
      if limits.maxMembersPerRoom.Some? && c !in room && |room| >= limits.maxMembersPerRoom.value {
        return Some(RoomFull);
      }
      if limits.maxRooms.Some? && r !in rooms && |rooms| >= limits.maxRooms.value {
        return Some(MaxRoomsReached);
      }
      code := None;
    }

    method Enter(c: Client, r: Room, ws: Socket) returns (reply: Reply)
      modifies this`rooms, this`clientRooms, this`totalMembers
      ensures (Index(), reply) == RoomIndex.Join(limits, old(Index()), c, r, ws)
    {
      var refusal := Refuse(c, r);
      if refusal.Some? { return ErrorFrame(refusal.value); }
      hide Refusal, NewFormat, Admit, AtLimit;
      var full := IsFull(c, r);
      if full {
        if r !in rooms { rooms := rooms[r := map[]]; }
        assert rooms == old(rooms)[r := MembersOf(old(Index()), r)];
        return if NewFormat(limits) then ErrorFrame(RoomFull) else Plain(false);
      }
      Seat(c, r, ws);
      reply := if NewFormat(limits) then Silent else Plain(true);
    }

    method IsFull(c: Client, r: Room) returns (full: bool)
      ensures full == (c !in MembersOf(Index(), r) && AtLimit(|MembersOf(Index(), r)|, limits.maxRoomSize))
    {
      var room := if r in rooms then rooms[r] else map[];
      full := c !in room && limits.maxRoomSize.Some? && |room| >= limits.maxRoomSize.value;
    }

    method Seat(c: Client, r: Room, ws: Socket)
      modifies this`rooms, this`clientRooms, this`totalMembers
      ensures Index() == Admit(old(Index()), c, r, ws)
    {
      var room := if r in rooms then rooms[r] else map[];
      rooms := rooms[r := room[c := ws]];
      clientRooms := clientRooms[c := (if c in clientRooms then clientRooms[c] else {}) + {r}];
      if c !in room { totalMembers := totalMembers + 1; }
    }

    method Leave(c: Client, r: Room)
      modifies this`rooms, this`clientRooms, this`totalMembers, this`acks
      ensures Index() == RoomIndex.Leave(old(Index()), c, r)
      ensures acks == if ackWindow.Some? then DropAck(old(acks), c, r) else old(acks)
      ensures forall d, q ::
        AckIn(acks, d, q) == if ackWindow.Some? && d == c && q == r then START.ack else AckIn(old(acks), d, q)
      ensures old(Valid()) ==> Valid()
    {
      hide Coherent, Faithful;
      forall d, q ensures AckIn(DropAck(acks, c, r), d, q) == if d == c && q == r then START.ack else AckIn(acks, d, q) {
        DropAckAt(acks, c, r, d, q);
      }
      if old(Valid()) { LeaveValid(limits, Index(), c, r); }
      if r in rooms && c in rooms[r] {
        rooms := if rooms[r] - {c} == map[] then rooms - {r} else rooms[r := rooms[r] - {c}];
        totalMembers := totalMembers - 1;
      }
      if c in clientRooms {
        clientRooms := if clientRooms[c] - {r} == {} then clientRooms - {c} else clientRooms[c := clientRooms[c] - {r}];
      }
      if ackWindow.Some? { acks := DropAck(acks, c, r); }
    }

    method Disconnect(c: Client)
      modifies this`rooms, this`clientRooms, this`totalMembers, this`acks
      ensures Index() == RoomIndex.Disconnect(old(Index()), c) && acks == old(acks) - {c}
      ensures forall d, q :: AckIn(acks, d, q) == if d == c then START.ack else AckIn(old(acks), d, q)
      ensures old(Valid()) ==> Valid()
    {
      hide Coherent, Faithful, VacateAll;
      if old(Valid()) { DisconnectValid(limits, Index(), c); }
      if c in clientRooms {
        totalMembers := totalMembers - |clientRooms[c]|;
        VacateEach(c, clientRooms[c]);
        clientRooms := clientRooms - {c};
      }
      acks := acks - {c};
    }

    method VacateEach(c: Client, rs: set<Room>)
      modifies this`rooms
      ensures rooms == VacateAll(old(rooms), c, rs)
    {
      var todo := rs;
      VacateNone(rooms, c);
      assert rs - todo == {};
      while todo != {}
        invariant todo <= rs && rooms == VacateAll(old(rooms), c, rs - todo)
        decreases todo
      {
        var r :| r in todo;
        VacateStep(old(rooms), c, rs - todo, r);
        assert rs - todo + {r} == rs - (todo - {r});
        if r in rooms {
          rooms := if rooms[r] - {c} == map[] then rooms - {r} else rooms[r := rooms[r] - {c}];
        }
        todo := todo - {r};
      }
      assert rs - todo == rs;
    }

    method UpdateClientId(a: Client, b: Client)
      modifies this`rooms, this`clientRooms
      ensures Index() == RoomIndex.UpdateClientId(old(Index()), a, b)
      ensures old(Valid()) && (a == b || RoomsOf(old(Index()), b) == {}) ==> Valid()
    {
      hide Coherent, Faithful, RenameIn;
      ghost var before := Index();
      if old(Valid()) && (a == b || RoomsOf(before, b) == {}) { ServeValid(limits, before, UpdateRequest(a, b)); }
      if a == b || a !in clientRooms { return; }
      var todo, moved := clientRooms[a], if b in clientRooms then clientRooms[b] else {};
      RenameNone(rooms, a, b);
      assert clientRooms[a] - todo == {};
      while todo != {}
        invariant todo <= before.clientRooms[a] && clientRooms == before.clientRooms
        invariant rooms == RenameIn(before.rooms, a, b, before.clientRooms[a] - todo)
        invariant moved == RoomsOf(before, b) + (before.clientRooms[a] - todo)
        decreases todo
      {
        var r :| r in todo;
        RenameStep(before.rooms, a, b, before.clientRooms[a] - todo, r);
        assert before.clientRooms[a] - todo + {r} == before.clientRooms[a] - (todo - {r});
        if r in rooms && a in rooms[r] {
          rooms := rooms[r := (rooms[r] - {a})[b := rooms[r][a]]];
        }
        moved := moved + {r};
        todo := todo - {r};
      }
      assert before.clientRooms[a] - todo == before.clientRooms[a];
      clientRooms := clientRooms[b := moved] - {a};
    }

    // Whether a location update with this key was already broadcast; messages without a key never were.
    method IsDuplicate(key: Option<string>, now: int) returns (duplicate: bool)
      modifies this`dedup
      ensures (dedup, duplicate) ==
        if key.Some? then Dedup.Check(dedupWindow, maxDedup, old(dedup), Dedup.Call(key.value, now)) else (old(dedup), false)
    {
      if key.None? { return false; }
      var last := Dedup.Find(dedup, key.value);
      if last.Some? && now - last.value <= dedupWindow { return true; }
      dedup := Dedup.Put(dedup, key.value, now);
      if |dedup| > maxDedup { dedup := dedup[1..]; }
      duplicate := false;
    }

    // Filters, sequences, buffers and delivers one message; `sentTo` are the clients it was sent to.
    // `key` names the room, client and timestamp of a location update.
    method Broadcast(r: Room, d: Draft, key: Option<string>, now: int, open: set<Socket>, exclude: Option<Client>)
      returns (duplicate: bool, sentTo: set<Client>)
      requires LogsFaithful()
      modifies this`roomSeq, this`roomBuffers, this`roomBufferBytes, this`acks, this`drafts, this`dedup
      ensures (dedup, duplicate) ==
        if key.Some? then Dedup.Check(dedupWindow, maxDedup, old(dedup), Dedup.Call(key.value, now)) else (old(dedup), false)
      ensures LogsFaithful() && drafts == if duplicate then old(drafts) else old(drafts)[r := old(Published(r)) + [d]]
      ensures
        var ts := if duplicate then {} else Targets(MembersOf(Index(), r), open, exclude);
        Offered(ackWindow, old(acks), acks, r, ts)
        && sentTo == set c | c in ts && Delivers(ackWindow, AckIn(old(acks), c, r))
      ensures duplicate ==> sentTo == {} && acks == old(acks)
      ensures !duplicate ==>
        Reached(ackWindow, if r in rooms then rooms[r] else map[], open, exclude, r, old(acks), acks, sentTo)
    {
      duplicate := IsDuplicate(key, now);
      if duplicate { return true, {}; }
      Record(r, d);
      sentTo := Deliver(r, open, exclude);
      hide Offered, Targets, Delivers, Faithful, AckIn, Reached;
      BroadcastReaches(ackWindow, MembersOf(Index(), r), open, exclude, r, old(acks), acks, sentTo);
    }

    method Record(r: Room, d: Draft)
      requires LogsFaithful()
      modifies this`roomSeq, this`roomBuffers, this`roomBufferBytes, this`drafts
      ensures drafts == old(drafts)[r := old(Published(r)) + [d]] && LogsFaithful()
    {
      ghost var log, ds := LogOf(r), Published(r);
      assert log == PublishAll(size, bounds, ds);
      assert log.bytes == Total(size, log.buffer) by { BufferIsEviction(size, bounds, ds); }
      var n := (if r in roomSeq then roomSeq[r] else 0) + 1;
      var entry := Entry(n, d.messageId, d.payload, d.timestamp);
      var buffer := if r in roomBuffers then roomBuffers[r] else [];
      var bytes := (if r in roomBufferBytes then roomBufferBytes[r] else 0) + size(entry);
      TotalSnoc(size, buffer, entry);
      var kept, left := EvictOld(size, bounds, buffer + [entry], bytes);
      FaithfulPublish(size, bounds, roomSeq, roomBuffers, roomBufferBytes, drafts, r, d);
      assert Publish(size, bounds, log, d) == Log(n, kept, left);
      hide Faithful;
      roomSeq := roomSeq[r := n];
      roomBuffers := roomBuffers[r := kept];
      roomBufferBytes := roomBufferBytes[r := if left >= 0 then left else 0];
      drafts := drafts[r := ds + [d]];
    }

    method Deliver(r: Room, open: set<Socket>, exclude: Option<Client>) returns (sentTo: set<Client>)
      modifies this`acks
      ensures
        var ts := Targets(MembersOf(Index(), r), open, exclude);
        Offered(ackWindow, old(acks), acks, r, ts)
        && sentTo == set c | c in ts && Delivers(ackWindow, AckIn(old(acks), c, r))
    {
      sentTo := {};
      var room := if r in rooms then rooms[r] else map[];
      var todo := room.Keys;
      ghost var ts, done := Targets(room, open, exclude), {};
      while todo != {}
        invariant todo <= room.Keys && done == ts - todo
        invariant Offered(ackWindow, old(acks), acks, r, done)
        invariant sentTo == set c | c in done && Delivers(ackWindow, AckIn(old(acks), c, r))
        decreases todo
      {
        var c :| c in todo;
        todo := todo - {c};
        if Some(c) != exclude && room[c] in open {
          if ackWindow.Some? {
            var ack := AckIn(acks, c, r);
            OfferStep(ackWindow.value, old(acks), acks, r, done, c);
            acks := SetAck(acks, c, r, Offer(ackWindow.value, ack));
            if !Blocked(ackWindow.value, ack) { sentTo := sentTo + {c}; }
          } else {
            sentTo := sentTo + {c};
          }
          done := done + {c};
        }
      }
      assert done == ts;
    }

    method HandleReconnect(r: Room, lastSeq: int, highestAcked: Option<int>) returns (answer: Answer)
      requires LogsFaithful()
      ensures answer == Reconnect(PublishAll(size, bounds, Published(r)), lastSeq, highestAcked)
    {
      assert LogOf(r) == PublishAll(size, bounds, Published(r));
      answer := Reconnect(LogOf(r), lastSeq, highestAcked);
    }

    method Acknowledge(c: Client, r: Room, s: int)
      modifies this`acks
      ensures forall d, q ::
        AckIn(acks, d, q) ==
        if d == c && q == r then AckWindow.Acknowledge(ackWindow, AckIn(old(acks), d, q), s) else AckIn(old(acks), d, q)
    {
      var ack := AckIn(acks, c, r);
      if s > ack.highest {
        var delta := s - ack.highest;
        ack := Ack(s, if ack.unacked >= delta then ack.unacked - delta else 0, ack.paused);
      }
      if ack.paused && (ackWindow.None? || ack.unacked < ackWindow.value) {
        ack := ack.(paused := false);
      }
      forall d, q ensures AckIn(SetAck(acks, c, r, ack), d, q) == if d == c && q == r then ack else AckIn(acks, d, q) {
        SetAckAt(acks, c, r, ack, d, q);
      }
      acks := SetAck(acks, c, r, ack);
    }
  }
}
