// One region's replicated state and the operations that change it.
module Region {
  import opened Wrappers
  import opened VectorClock
  import Order
  import Hlc
  import OrSet
  import Rga
  import LwwMap
  import FenceSet

  datatype Room = Room(membership: OrSet.State, sequence: Rga.Nodes)
  const EMPTY_ROOM := Room(OrSet.EMPTY, map[])

  datatype Replica = Replica(rooms: map<string, Room>, sessions: LwwMap.Entries, fences: FenceSet.State)

  datatype Body =
    | MembershipAdd(room: string, client: string, tag: string)
    | MembershipRemove(room: string, client: string, tags: set<string>)
    | MessageAppend(room: string, id: Rga.Id, origin: Option<Rga.Id>, value: string)
    | MessageRemove(room: string, id: Rga.Id)
    | SessionUpdate(key: string, value: string)
    | SessionDelete(key: string)
    | GeofenceUpsert(fence: string, definition: string, mark: FenceSet.Mark)
    | GeofenceRemove(fence: string, mark: FenceSet.Mark)
    | GlobalConfig(key: string, value: string)
    | Unrecognised(kind: string)

  // A missing vector clock acts as the empty one everywhere it is read.
  datatype Op = Op(body: Body, region: string, clock: Clock, hlc: Option<Hlc.Stamp>)

  datatype State = State(id: string, replica: Replica, clock: Clock, hlc: Hlc.Stamp, localSeq: nat)

  function Fresh(id: string): State {
    State(id, Replica(map[], map[], FenceSet.EMPTY), map[], Hlc.Stamp(0, 0), 0)
  }

  // ensureRoom
  function RoomOf(rooms: map<string, Room>, r: string): Room {
    if r in rooms then rooms[r] else EMPTY_ROOM
  }

  // ----------------------------------------------------------- handling an op

  function ApplyRoom(room: Room, b: Body): Room {
    match b
    case MembershipAdd(_, client, tag) => room.(membership := OrSet.Add(room.membership, client, tag))
    case MembershipRemove(_, _, tags) => room.(membership := OrSet.Retire(room.membership, tags))
    case MessageAppend(_, id, origin, value) => room.(sequence := Rga.Insert(room.sequence, id, origin, value, false))
    case MessageRemove(_, id) => room.(sequence := Rga.Remove(room.sequence, id))
    case _ => room
  }

  predicate ForRoom(b: Body) {
    b.MembershipAdd? || b.MembershipRemove? || b.MessageAppend? || b.MessageRemove?
  }

  predicate ForSession(b: Body) {
    b.SessionUpdate? || b.SessionDelete? || b.GlobalConfig?
  }

  function EntryOf(op: Op): LwwMap.Entry
    requires ForSession(op.body)
  {
    if op.body.SessionDelete? then LwwMap.Entry(None, op.clock, op.region, true)
    else LwwMap.Entry(Some(op.body.value), op.clock, op.region, false)
  }

  function ApplyOp(rep: Replica, op: Op): Replica {
    if ForRoom(op.body) then
      rep.(rooms := rep.rooms[op.body.room := ApplyRoom(RoomOf(rep.rooms, op.body.room), op.body)])
    else if ForSession(op.body) then
      rep.(sessions := LwwMap.Apply(rep.sessions, op.body.key, EntryOf(op)))
    else match op.body
      case GeofenceUpsert(fence, definition, mark) =>
        rep.(fences := FenceSet.Add(rep.fences, fence, FenceSet.Upsert(mark, definition)))
      case GeofenceRemove(fence, mark) => rep.(fences := FenceSet.Remove(rep.fences, fence, mark))
      case _ => rep
  }

  // handlePeerOperation
  function Handle(st: State, op: Op, wall: nat): State {
    st.(hlc := if op.hlc.Some? then Hlc.AfterRemote(st.hlc, op.hlc.value, wall) else st.hlc,
        clock := Merge(st.clock, op.clock),
        replica := ApplyOp(st.replica, op))
  }

  function MergeRooms(mine: Room, theirs: Room): Room {
    Room(OrSet.Merge(mine.membership, theirs.membership), Rga.Merge(mine.sequence, theirs.sequence))
  }

  function MergeRoomMaps(mine: map<string, Room>, theirs: map<string, Room>): map<string, Room> {
    map r | r in mine.Keys + theirs.Keys ::
      if r in theirs then MergeRooms(RoomOf(mine, r), theirs[r]) else mine[r]
  }

  function MergeReplicas(mine: Replica, theirs: Replica): Replica {
    Replica(
      MergeRoomMaps(mine.rooms, theirs.rooms),
      LwwMap.MergeMaps(mine.sessions, theirs.sessions),
      FenceSet.Merge(mine.fences, theirs.fences))
  }

  // mergeRemoteState
  function Absorb(st: State, theirs: Replica, clock: Clock): State {
    st.(replica := MergeReplicas(st.replica, theirs), clock := Merge(st.clock, clock))
  }

  // ---------------------------------------------------------- local mutations

  function Emit(st: State, body: Body, hlc: Option<Hlc.Stamp>): Op {
    Op(body, st.id, st.clock, hlc)
  }

  function Bump(st: State): State {
    st.(clock := Increment(st.clock, st.id))
  }

  function JoinRoom(st: State, client: string, room: string, tag: string): (State, Op) {
    var here := RoomOf(st.replica.rooms, room);
    var st' := st.(replica := st.replica.(rooms :=
      st.replica.rooms[room := here.(membership := OrSet.Add(here.membership, client, tag))]));
    (st', Emit(st', MembershipAdd(room, client, tag), None))
  }

  // Nothing is emitted when the client has no tag here.
  function LeaveRoom(st: State, client: string, room: string): (State, Option<Op>) {
    var here := RoomOf(st.replica.rooms, room);
    var tags := OrSet.TagsOf(here.membership, client);
    var st' := st.(replica := st.replica.(rooms :=
      st.replica.rooms[room := here.(membership := OrSet.Retire(here.membership, tags))]));
    (st', if tags == {} then None else Some(Emit(st', MembershipRemove(room, client, tags), None)))
  }

  function Broadcast(st: State, room: string, value: string, origin: Option<Rga.Id>, wall: nat): (State, Op) {
    var here := RoomOf(st.replica.rooms, room);
    var stamp := Hlc.AfterLocal(st.hlc, wall);
    var id := Hlc.MessageId(stamp, st.id, st.localSeq + 1);
    var st' := Bump(st.(hlc := stamp, localSeq := st.localSeq + 1, replica := st.replica.(rooms :=
      st.replica.rooms[room := here.(sequence := Rga.Insert(here.sequence, id, origin, value, false))])));
    (st', Emit(st', MessageAppend(room, id, origin, value), Some(stamp)))
  }

  function WriteSession(st: State, key: string, value: string): State {
    var bumped := Bump(st);
    bumped.(replica := st.replica.(sessions :=
      LwwMap.Apply(st.replica.sessions, key, LwwMap.Entry(Some(value), bumped.clock, st.id, false))))
  }

  function SaveSession(st: State, client: string, value: string): (State, Op) {
    var key := "session:" + client;
    var st' := WriteSession(st, key, value);
    (st', Emit(st', SessionUpdate(key, value), None))
  }

  function SetGlobalConfig(st: State, name: string, value: string): (State, Op) {
    var key := "global-config:" + name;
    var st' := WriteSession(st, key, value);
    (st', Emit(st', GlobalConfig(key, value), None))
  }

  function SyncGeofence(st: State, fence: string, definition: string, wall: nat): (State, Op) {
    var stamp := Hlc.AfterLocal(st.hlc, wall);
    var mark := FenceSet.Mark(stamp, st.id);
    var st' := Bump(st.(hlc := stamp, replica := st.replica.(fences :=
      FenceSet.Add(st.replica.fences, fence, FenceSet.Upsert(mark, definition)))));
    (st', Emit(st', GeofenceUpsert(fence, definition, mark), Some(stamp)))
  }

  function RemoveGeofence(st: State, fence: string, wall: nat): (State, Op) {
    var stamp := Hlc.AfterLocal(st.hlc, wall);
    var mark := FenceSet.Mark(stamp, st.id);
    var st' := Bump(st.(hlc := stamp, replica := st.replica.(fences :=
      FenceSet.Remove(st.replica.fences, fence, mark))));
    (st', Emit(st', GeofenceRemove(fence, mark), Some(stamp)))
  }

  // Every local mutation changes the replica as handling its own op would.
  lemma RoomMutationsAreHandled(st: State, client: string, room: string, text: string, origin: Option<Rga.Id>, wall: nat)
    ensures var (s, op) := JoinRoom(st, client, room, text); s.replica == ApplyOp(st.replica, op)
    ensures var (s, op) := Broadcast(st, room, text, origin, wall); s.replica == ApplyOp(st.replica, op)
    ensures var (s, op) := LeaveRoom(st, client, room);
      if op.Some? then s.replica == ApplyOp(st.replica, op.value)
      else forall r :: RoomOf(s.replica.rooms, r) == RoomOf(st.replica.rooms, r)
  {
    hide Hlc.MessageId, Rga.Insert;
    var here := RoomOf(st.replica.rooms, room).membership;
    assert OrSet.Retire(here, {}) == here;
  }

  lemma KeyedMutationsAreHandled(st: State, name: string, text: string, wall: nat)
    ensures var (s, op) := SaveSession(st, name, text); s.replica == ApplyOp(st.replica, op)
    ensures var (s, op) := SetGlobalConfig(st, name, text); s.replica == ApplyOp(st.replica, op)
    ensures var (s, op) := SyncGeofence(st, name, text, wall); s.replica == ApplyOp(st.replica, op)
    ensures var (s, op) := RemoveGeofence(st, name, wall); s.replica == ApplyOp(st.replica, op)
  {
    hide LwwMap.Apply, FenceSet.Add, FenceSet.Remove;
  }

  // ------------------------------------------------- what a set of ops amounts to

  ghost predicate RetiredIn(ops: set<Body>, r: string, tag: string) {
    exists c, tags :: MembershipRemove(r, c, tags) in ops && tag in tags
  }

  ghost predicate RepMembers(s: OrSet.State, ops: set<Body>, r: string) {
    && (forall c, t :: t in OrSet.TagsOf(s, c) <==> MembershipAdd(r, c, t) in ops)
    && (forall c :: c in s.adds ==> s.adds[c] != {})
    && (forall t :: t in s.removes <==> RetiredIn(ops, r, t))
  }

  ghost predicate RepMessages(nodes: Rga.Nodes, ops: set<Body>, r: string) {
    && (forall id :: id in nodes ==>
         && nodes[id].id == id
         && MessageAppend(r, id, nodes[id].origin, nodes[id].value) in ops
         && (nodes[id].tombstoned <==> MessageRemove(r, id) in ops))
    && (forall id, o, v :: MessageAppend(r, id, o, v) in ops ==> id in nodes)
  }

  ghost predicate RepRoom(room: Room, ops: set<Body>, r: string) {
    RepMembers(room.membership, ops, r) && RepMessages(room.sequence, ops, r)
  }

  ghost predicate RepFences(s: FenceSet.State, ops: set<Body>) {
    && (forall f :: f in s.adds ==> GeofenceUpsert(f, s.adds[f].value, s.adds[f].mark) in ops)
    && (forall f, d, m :: GeofenceUpsert(f, d, m) in ops ==> f in s.adds && !FenceSet.MarkLess(s.adds[f].mark, m))
    && (forall f :: f in s.removes ==> GeofenceRemove(f, s.removes[f]) in ops)
    && (forall f, m :: GeofenceRemove(f, m) in ops ==> f in s.removes && !FenceSet.MarkLess(s.removes[f], m))
  }

  // The replica's rooms and fences are what `ops` amounts to, whatever the
  // order and the number of times they were applied.
  ghost predicate Represents(rep: Replica, ops: set<Body>) {
    (forall r :: RepRoom(RoomOf(rep.rooms, r), ops, r)) && RepFences(rep.fences, ops)
  }

  // A message id or a fence stamp names one operation only.
  ghost predicate Consistent(ops: set<Body>) {
    && (forall r, id, o, v, o', v' :: MessageAppend(r, id, o, v) in ops && MessageAppend(r, id, o', v') in ops ==> o == o' && v == v')
    && (forall f, d, d', m :: GeofenceUpsert(f, d, m) in ops && GeofenceUpsert(f, d', m) in ops ==> d == d')
  }

  // A message_remove counts only if its target is already there.
  ghost predicate Effective(ops: set<Body>, b: Body) {
    b.MessageRemove? ==> exists o, v :: MessageAppend(b.room, b.id, o, v) in ops
  }

  // ------------------------------------------------------- applying one more op

  lemma ApplyMembers(room: Room, ops: set<Body>, r: string, b: Body)
    requires RepMembers(room.membership, ops, r)
    requires ForRoom(b) && b.room == r
    ensures RepMembers(ApplyRoom(room, b).membership, ops + {b}, r)
  {
    var s, s', ops' := room.membership, ApplyRoom(room, b).membership, ops + {b};
    forall t ensures t in s'.removes <==> RetiredIn(ops', r, t) {
      if RetiredIn(ops, r, t) {
        var c, tags :| MembershipRemove(r, c, tags) in ops && t in tags;
        assert MembershipRemove(r, c, tags) in ops';
      }
      if b.MembershipRemove? && t in b.tags {
        assert MembershipRemove(r, b.client, b.tags) in ops';
      }
    }
  }

  lemma ApplyMessages(room: Room, ops: set<Body>, r: string, b: Body)
    requires RepMessages(room.sequence, ops, r)
    requires ForRoom(b) && b.room == r && Effective(ops, b)
    requires forall id :: MessageRemove(r, id) in ops ==> id in room.sequence
    ensures RepMessages(ApplyRoom(room, b).sequence, ops + {b}, r)
  {
  }

  lemma OtherRoom(room: Room, ops: set<Body>, r: string, b: Body)
    requires RepRoom(room, ops, r)
    requires !(ForRoom(b) && b.room == r)
    ensures RepRoom(room, ops + {b}, r)
  {
    forall t ensures RetiredIn(ops, r, t) <==> RetiredIn(ops + {b}, r, t) {
      if RetiredIn(ops, r, t) {
        var c, tags :| MembershipRemove(r, c, tags) in ops && t in tags;
        assert MembershipRemove(r, c, tags) in ops + {b};
      }
    }
  }

  lemma ApplyFences(rep: Replica, ops: set<Body>, op: Op)
    requires RepFences(rep.fences, ops)
    ensures RepFences(ApplyOp(rep, op).fences, ops + {op.body})
  {
    FenceSet.MarkOrder();
    hide FenceSet.MarkLess, LwwMap.Apply, ApplyRoom;
    var ops', fences := ops + {op.body}, ApplyOp(rep, op).fences;
    match op.body
    case GeofenceUpsert(f, d, m) =>
      assert fences == FenceSet.Add(rep.fences, f, FenceSet.Upsert(m, d));
    case GeofenceRemove(f, m) =>
      assert fences == FenceSet.Remove(rep.fences, f, m);
    case _ =>
      assert fences == rep.fences;
  }

  ghost predicate RemovesHitTargets(rep: Replica, ops: set<Body>) {
    forall r, id :: MessageRemove(r, id) in ops ==> id in RoomOf(rep.rooms, r).sequence
  }

  // Applying an op moves the replica to what one more op amounts to.
  lemma ApplyRepresents(rep: Replica, ops: set<Body>, op: Op)
    requires Represents(rep, ops) && RemovesHitTargets(rep, ops) && Effective(ops, op.body)
    ensures Represents(ApplyOp(rep, op), ops + {op.body})
    ensures RemovesHitTargets(ApplyOp(rep, op), ops + {op.body})
  {
    var rep', ops', b := ApplyOp(rep, op), ops + {op.body}, op.body;
    forall r ensures RepRoom(RoomOf(rep'.rooms, r), ops', r) {
      assert RepRoom(RoomOf(rep.rooms, r), ops, r);
      if ForRoom(b) && b.room == r {
        ApplyMembers(RoomOf(rep.rooms, r), ops, r, b);
        ApplyMessages(RoomOf(rep.rooms, r), ops, r, b);
      } else {
        OtherRoom(RoomOf(rep.rooms, r), ops, r, b);
      }
    }
    ApplyFences(rep, ops, op);
    if b.MessageRemove? {
      assert RepMessages(RoomOf(rep.rooms, b.room).sequence, ops, b.room) by {
        assert RepRoom(RoomOf(rep.rooms, b.room), ops, b.room);
      }
    }
  }

  // A message_remove that finds no target leaves every room as it was.
  lemma LostRemove(rep: Replica, ops: set<Body>, op: Op)
    requires Represents(rep, ops) && RemovesHitTargets(rep, ops) && !Effective(ops, op.body)
    ensures Represents(ApplyOp(rep, op), ops) && RemovesHitTargets(ApplyOp(rep, op), ops)
  {
    var rep', b := ApplyOp(rep, op), op.body;
    assert RepRoom(RoomOf(rep.rooms, b.room), ops, b.room);
    forall r ensures RoomOf(rep'.rooms, r) == RoomOf(rep.rooms, r) {
    }
  }

  // ------------------------------------------------------- merging two replicas

  lemma MergeMembers(s: OrSet.State, ops: set<Body>, s': OrSet.State, ops': set<Body>, r: string)
    requires RepMembers(s, ops, r) && RepMembers(s', ops', r)
    ensures RepMembers(OrSet.Merge(s, s'), ops + ops', r)
  {
    var m := OrSet.Merge(s, s');
    forall c, t ensures t in OrSet.TagsOf(m, c) <==> MembershipAdd(r, c, t) in ops + ops' {
    }
    forall c | c in m.adds ensures m.adds[c] != {} {
      var x :| x in (if c in s.adds then s.adds[c] else s'.adds[c]);
      assert x in m.adds[c];
    }
    forall t ensures t in m.removes <==> RetiredIn(ops + ops', r, t) {
      if RetiredIn(ops, r, t) {
        var c, tags :| MembershipRemove(r, c, tags) in ops && t in tags;
        assert MembershipRemove(r, c, tags) in ops + ops';
      }
      if RetiredIn(ops', r, t) {
        var c, tags :| MembershipRemove(r, c, tags) in ops' && t in tags;
        assert MembershipRemove(r, c, tags) in ops + ops';
      }
    }
  }

  lemma MergeMessages(n: Rga.Nodes, ops: set<Body>, n': Rga.Nodes, ops': set<Body>, r: string)
    requires RepMessages(n, ops, r) && RepMessages(n', ops', r) && Consistent(ops + ops')
    requires forall id :: MessageRemove(r, id) in ops ==> id in n
    requires forall id :: MessageRemove(r, id) in ops' ==> id in n'
    ensures RepMessages(Rga.Merge(n, n'), ops + ops', r)
  {
  }

  lemma MergeFences(s: FenceSet.State, ops: set<Body>, s': FenceSet.State, ops': set<Body>)
    requires RepFences(s, ops) && RepFences(s', ops')
    ensures RepFences(FenceSet.Merge(s, s'), ops + ops')
  {
    FenceSet.MarkOrder();
  }

  // Absorbing a snapshot knows what either side knew.
  lemma MergeRepresents(a: Replica, ops: set<Body>, b: Replica, ops': set<Body>)
    requires Represents(a, ops) && Represents(b, ops') && Consistent(ops + ops')
    requires RemovesHitTargets(a, ops) && RemovesHitTargets(b, ops')
    ensures Represents(MergeReplicas(a, b), ops + ops')
    ensures RemovesHitTargets(MergeReplicas(a, b), ops + ops')
  {
    var m := MergeReplicas(a, b);
    forall r ensures RepRoom(RoomOf(m.rooms, r), ops + ops', r) {
      var x, y := RoomOf(a.rooms, r), RoomOf(b.rooms, r);
      assert RepRoom(x, ops, r) && RepRoom(y, ops', r);
      MergeMembers(x.membership, ops, y.membership, ops', r);
      MergeMessages(x.sequence, ops, y.sequence, ops', r);
      MergeWithEmpty(x);
    }
    forall r, id | MessageRemove(r, id) in ops + ops' ensures id in RoomOf(m.rooms, r).sequence {
      MergeWithEmpty(RoomOf(a.rooms, r));
    }
    MergeFences(a.fences, ops, b.fences, ops');
  }

  lemma MergeWithEmpty(x: Room)
    ensures MergeRooms(x, EMPTY_ROOM) == x
  {
    assert OrSet.Merge(x.membership, OrSet.EMPTY).adds.Keys == x.membership.adds.Keys;
    forall c | c in x.membership.adds
      ensures OrSet.Merge(x.membership, OrSet.EMPTY).adds[c] == x.membership.adds[c] {
      assert OrSet.TagsOf(OrSet.EMPTY, c) == {};
    }
    assert Rga.Merge(x.sequence, map[]) == x.sequence;
  }

  // ------------------------------------------------------------- uniqueness

  // Two replicas that amount to the same ops agree on every room and fence.
  lemma RepresentsUnique(a: Replica, b: Replica, ops: set<Body>)
    requires Represents(a, ops) && Represents(b, ops) && Consistent(ops)
    ensures forall r :: RoomOf(a.rooms, r) == RoomOf(b.rooms, r)
    ensures a.fences == b.fences
  {
    forall r ensures RoomOf(a.rooms, r) == RoomOf(b.rooms, r) {
      var x, y := RoomOf(a.rooms, r), RoomOf(b.rooms, r);
      assert RepRoom(x, ops, r) && RepRoom(y, ops, r);
      MembersUnique(x.membership, y.membership, ops, r);
      MessagesUnique(x.sequence, y.sequence, ops, r);
    }
    FencesUnique(a.fences, b.fences, ops);
  }

  lemma MembersUnique(x: OrSet.State, y: OrSet.State, ops: set<Body>, r: string)
    requires RepMembers(x, ops, r) && RepMembers(y, ops, r)
    ensures x == y
  {
    forall c ensures OrSet.TagsOf(x, c) == OrSet.TagsOf(y, c) {
    }
    assert x.adds.Keys == y.adds.Keys by {
      forall c ensures c in x.adds <==> c in y.adds {
        assert c in x.adds <==> OrSet.TagsOf(x, c) != {};
        assert c in y.adds <==> OrSet.TagsOf(y, c) != {};
      }
    }
    forall c | c in x.adds ensures x.adds[c] == y.adds[c] {
      assert OrSet.TagsOf(x, c) == OrSet.TagsOf(y, c);
    }
    assert x.removes == y.removes;
  }

  lemma MessagesUnique(x: Rga.Nodes, y: Rga.Nodes, ops: set<Body>, r: string)
    requires RepMessages(x, ops, r) && RepMessages(y, ops, r) && Consistent(ops)
    ensures x == y
  {
    assert x.Keys == y.Keys;
    forall id | id in x ensures x[id] == y[id] {
    }
  }

  lemma FencesUnique(x: FenceSet.State, y: FenceSet.State, ops: set<Body>)
    requires RepFences(x, ops) && RepFences(y, ops) && Consistent(ops)
    ensures x == y
  {
    FenceSet.MarkOrder();
    assert x.adds.Keys == y.adds.Keys;
    forall f | f in x.adds ensures x.adds[f] == y.adds[f] {
      assert x.adds[f].mark == y.adds[f].mark;
    }
    assert x.removes.Keys == y.removes.Keys;
    forall f | f in x.removes ensures x.removes[f] == y.removes[f] {
    }
  }

  // A client is present exactly when some join of it was retired by no leave.
  lemma PresenceMeaning(rep: Replica, ops: set<Body>, r: string, client: string)
    requires Represents(rep, ops)
    ensures OrSet.Has(RoomOf(rep.rooms, r).membership, client)
       <==> exists t :: MembershipAdd(r, client, t) in ops && !RetiredIn(ops, r, t)
  {
    var s := RoomOf(rep.rooms, r).membership;
    assert RepRoom(RoomOf(rep.rooms, r), ops, r);
    if OrSet.Has(s, client) {
      var t :| t in OrSet.TagsOf(s, client) - s.removes;
      assert MembershipAdd(r, client, t) in ops && !RetiredIn(ops, r, t);
    }
    if t :| MembershipAdd(r, client, t) in ops && !RetiredIn(ops, r, t) {
      assert t in OrSet.TagsOf(s, client) - s.removes;
    }
  }

  // The definition a fence holds is the one of the latest reading taken in, whatever its region; of
  // two with the same reading, the one of the greater region id.
  lemma LatestDefinition(rep: Replica, ops: set<Body>, f: string)
    requires Represents(rep, ops)
    ensures f in rep.fences.adds <==> exists d, m :: GeofenceUpsert(f, d, m) in ops
    ensures f in rep.fences.adds ==>
      var u := rep.fences.adds[f];
      GeofenceUpsert(f, u.value, u.mark) in ops
      && forall d, m :: GeofenceUpsert(f, d, m) in ops ==>
           m.hlc.l < u.mark.hlc.l || (m.hlc.l == u.mark.hlc.l && m.hlc.c < u.mark.hlc.c)
           || (m.hlc == u.mark.hlc && (m.region == u.mark.region || Order.StringLess(m.region, u.mark.region)))
  {
    FenceSet.MarkOrder();
    hide Order.StringLess;
    if f in rep.fences.adds {
      var u := rep.fences.adds[f];
      assert GeofenceUpsert(f, u.value, u.mark) in ops;
      forall d, m | GeofenceUpsert(f, d, m) in ops
        ensures m == u.mark || FenceSet.MarkLess(m, u.mark) {
        assert !FenceSet.MarkLess(u.mark, m);
      }
    }
  }

  // What a session operation leaves under its key, if nothing is stored there or it wins; otherwise,
  // and under all other keys, nothing changes.
  lemma SessionHandled(rep: Replica, op: Op)
    requires ForSession(op.body)
    ensures
      var key, m := op.body.key, ApplyOp(rep, op).sessions;
      var text := if op.body.SessionDelete? then None else Some(op.body.value);
      var entry := LwwMap.Entry(text, op.clock, op.region, op.body.SessionDelete?);
      && (if key !in rep.sessions || LwwMap.WinsOver(entry, rep.sessions[key])
          then LwwMap.Get(m, key) == text else LwwMap.Get(m, key) == LwwMap.Get(rep.sessions, key))
      && forall k :: k != key ==> LwwMap.Lookup(m, k) == LwwMap.Lookup(rep.sessions, k)
  {
    hide LwwMap.WinsOver;
  }

  // A fence is live exactly when an upsert is stamped after every removal.
  lemma FenceMeaning(rep: Replica, ops: set<Body>, f: string)
    requires Represents(rep, ops)
    ensures FenceSet.Has(rep.fences, f)
       <==> exists d, m :: GeofenceUpsert(f, d, m) in ops
              && forall m' :: GeofenceRemove(f, m') in ops ==> FenceSet.MarkLess(m', m)
  {
    FenceSet.MarkOrder();
    var s := rep.fences;
    if FenceSet.Has(s, f) {
      assert GeofenceUpsert(f, s.adds[f].value, s.adds[f].mark) in ops;
    }
  }
}
