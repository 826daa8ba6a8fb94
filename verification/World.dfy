// All regions together: local mutations, delivery of operations in any order
// and any number of times, and snapshot pulls. `delivered` records which operations
// reached each region (or snapshot), and `known` those of them that took effect;
// both are history, not protocol state.
module World {
  import opened Wrappers
  import opened VectorClock
  import opened Region
  import Hlc
  import Rga
  import LwwMap
  import FenceSet

  datatype Snapshot = Snapshot(replica: Replica, clock: Clock, known: set<Op>, delivered: set<Op>)

  datatype World = World(
    regions: map<string, State>, known: map<string, set<Op>>, delivered: map<string, set<Op>>,
    sent: set<Op>, snaps: set<Snapshot>)

  datatype Local =
    | Join(client: string, room: string, tag: string)
    | Leave(client: string, room: string)
    | Say(room: string, text: string, origin: Option<Option<Rga.Id>>, wall: nat)
    | Save(client: string, text: string)
    | Configure(name: string, text: string)
    | Fence(fence: string, text: string, wall: nat)
    | Unfence(fence: string, wall: nat)

  datatype Step =
    | Mutate(local: Local)
    | Retract(room: string, id: Rga.Id)
    | Deliver(op: Op, wall: nat)
    | Capture
    | Pull(snap: Snapshot)

  // opts.originLeft, or the last visible message when it is not given.
  ghost function OriginFor(st: State, room: string, origin: Option<Option<Rga.Id>>): Option<Rga.Id> {
    var nodes := RoomOf(st.replica.rooms, room).sequence;
    if origin.Some? then origin.value
    else if Rga.Rooted(nodes) then Rga.LastVisible(nodes) else None
  }

  ghost function Act(st: State, a: Local): (State, Option<Op>) {
    match a
    case Join(client, room, tag) => var (s, op) := JoinRoom(st, client, room, tag); (s, Some(op))
    case Leave(client, room) => LeaveRoom(st, client, room)
    case Say(room, text, origin, wall) =>
      var (s, op) := Broadcast(st, room, text, OriginFor(st, room, origin), wall); (s, Some(op))
    case Save(client, text) => var (s, op) := SaveSession(st, client, text); (s, Some(op))
    case Configure(name, text) => var (s, op) := SetGlobalConfig(st, name, text); (s, Some(op))
    case Fence(fence, text, wall) => var (s, op) := SyncGeofence(st, fence, text, wall); (s, Some(op))
    case Unfence(fence, wall) => var (s, op) := RemoveGeofence(st, fence, wall); (s, Some(op))
  }

  function Bodies(ops: set<Op>): set<Body> {
    set op | op in ops :: op.body
  }

  function OpSet(op: Option<Op>): set<Op> {
    if op.Some? then {op.value} else {}
  }

  ghost predicate Enabled(w: World, r: string, step: Step) {
    && r in w.regions && r in w.known && r in w.delivered
    && match step
       case Deliver(op, _) => op in w.sent
       case Pull(snap) => snap in w.snaps
       case _ => true
  }

  ghost function Next(w: World, r: string, step: Step): World
    requires Enabled(w, r, step)
  {
    var st, known, delivered := w.regions[r], w.known[r], w.delivered[r];
    match step
    case Mutate(a) =>
      var (st', op) := Act(st, a);
      World(w.regions[r := st'], w.known[r := known + OpSet(op)], w.delivered[r := delivered + OpSet(op)],
            w.sent + OpSet(op), w.snaps)
    case Retract(room, id) =>
      w.(sent := w.sent + {Emit(st, MessageRemove(room, id), None)})
    case Deliver(op, wall) =>
      w.(regions := w.regions[r := Handle(st, op, wall)],
         known := w.known[r := known + (if Effective(Bodies(known), op.body) then {op} else {})],
         delivered := w.delivered[r := delivered + {op}])
    case Capture =>
      w.(snaps := w.snaps + {Snapshot(st.replica, st.clock, known, delivered)})
    case Pull(s) =>
      w.(regions := w.regions[r := Absorb(st, s.replica, s.clock)], known := w.known[r := known + s.known],
         delivered := w.delivered[r := delivered + s.delivered])
  }

  ghost predicate Start(w: World) {
    && w.known.Keys == w.regions.Keys && w.delivered.Keys == w.regions.Keys
    && (forall r :: r in w.regions ==> w.regions[r] == Fresh(r) && w.known[r] == {} && w.delivered[r] == {})
    && w.sent == {} && w.snaps == {}
  }

  ghost predicate Follows(w: World, w': World) {
    exists r, step :: Enabled(w, r, step) && w' == Next(w, r, step)
  }

  // A run: the worlds visited, from a fresh start.
  ghost predicate IsRun(ws: seq<World>) {
    ws != [] && Start(ws[0]) && forall i :: 0 < i < |ws| ==> Follows(ws[i - 1], ws[i])
  }

  // --------------------------------------------------------------- invariants

  ghost predicate Shape(w: World) {
    && w.known.Keys == w.regions.Keys && w.delivered.Keys == w.regions.Keys
    && (forall r :: r in w.regions ==> w.regions[r].id == r && w.known[r] <= w.delivered[r] <= w.sent)
    && (forall s :: s in w.snaps ==> s.known <= s.delivered <= w.sent)
    && (forall op :: op in w.sent ==> op.region in w.regions)
  }

  // How far region r has counted.
  function Own(w: World, r: string): nat {
    if r in w.regions then At(w.regions[r].clock, r) else 0
  }

  ghost predicate Bounded(w: World, c: Clock) {
    forall r :: At(c, r) <= Own(w, r)
  }

  ghost predicate EntriesLe(m: LwwMap.Entries, c: Clock) {
    forall key :: key in m ==> Le(m[key].clock, c)
  }

  // No clock runs ahead of the region it counts, and no stored session is
  // ahead of the clock beside it.
  ghost predicate ClocksBounded(w: World) {
    && (forall r :: r in w.regions ==>
          Bounded(w, w.regions[r].clock) && EntriesLe(w.regions[r].replica.sessions, w.regions[r].clock))
    && (forall op :: op in w.sent ==> Bounded(w, op.clock))
    && (forall s :: s in w.snaps ==> Bounded(w, s.clock) && EntriesLe(s.replica.sessions, s.clock))
  }

  ghost predicate WellStamped(op: Op) {
    match op.body
    case MessageAppend(_, id, _, _) =>
      op.hlc.Some? && exists n :: id == Hlc.MessageId(op.hlc.value, op.region, n)
    case GeofenceUpsert(_, _, mark) => op.hlc.Some? && mark == FenceSet.Mark(op.hlc.value, op.region)
    case GeofenceRemove(_, mark) => op.hlc.Some? && mark == FenceSet.Mark(op.hlc.value, op.region)
    case _ => true
  }

  // Stamps are never reused: a region's clock is past all it has stamped.
  ghost predicate StampsIssued(w: World) {
    && (forall op :: op in w.sent ==> WellStamped(op))
    && (forall op :: op in w.sent && op.hlc.Some? && op.region in w.regions ==>
          !Hlc.Less(w.regions[op.region].hlc, op.hlc.value))
    && (forall a, b :: a in w.sent && b in w.sent && a.hlc.Some? && a.hlc == b.hlc && a.region == b.region ==> a == b)
  }

  ghost predicate Faithful(rep: Replica, known: set<Op>) {
    Represents(rep, Bodies(known)) && RemovesHitTargets(rep, Bodies(known))
  }

  ghost predicate AllFaithful(w: World) {
    && (forall r :: r in w.regions ==> r in w.known && Faithful(w.regions[r].replica, w.known[r]))
    && (forall s :: s in w.snaps ==> Faithful(s.replica, s.known))
  }

  // Distinct session writes carry distinct clocks; one writer's form a chain.
  ghost predicate SessionsOrdered(w: World) {
    && (forall op :: op in w.sent && ForSession(op.body) && op.region in w.regions ==>
          Le(op.clock, w.regions[op.region].clock))
    && (forall a, b :: a in w.sent && b in w.sent && ForSession(a.body) && ForSession(b.body) && a != b ==>
          LwwMap.Comparable(EntryOf(a), EntryOf(b)) && EntryOf(a) != EntryOf(b))
  }

  ghost predicate Inv(w: World) {
    Shape(w) && ClocksBounded(w) && StampsIssued(w) && AllFaithful(w) && SessionsOrdered(w)
  }

  // -------------------------------------------------- what a local action does

  ghost predicate ActFacts(st: State, st': State, op: Option<Op>) {
    && st'.id == st.id
    && (st'.clock == st.clock || st'.clock == Increment(st.clock, st.id))
    && (st'.hlc == st.hlc || Hlc.Less(st.hlc, st'.hlc))
    && (op.None? ==>
          && st'.replica.sessions == st.replica.sessions && st'.replica.fences == st.replica.fences
          && forall r :: RoomOf(st'.replica.rooms, r) == RoomOf(st.replica.rooms, r))
    && (op.Some? ==>
          && op.value.region == st.id && op.value.clock == st'.clock
          && (op.value.hlc.Some? ==> op.value.hlc.value == st'.hlc && Hlc.Less(st.hlc, st'.hlc))
          && WellStamped(op.value) && !op.value.body.MessageRemove?
          && (ForSession(op.value.body) ==> st'.clock == Increment(st.clock, st.id))
          && st'.replica == ApplyOp(st.replica, op.value))
  }

  lemma ActDoes(st: State, a: Local)
    ensures var (st', op) := Act(st, a); ActFacts(st, st', op)
  {
    var (st', op) := Act(st, a);
    hide Hlc.MessageId, ApplyOp, OriginFor, LwwMap.Apply, FenceSet.Add, FenceSet.Remove, Rga.Insert, OrSet.Add, OrSet.Retire, Increment;
    match a
    case Join(client, room, tag) => RoomMutationsAreHandled(st, client, room, tag, None, 0);
    case Leave(client, room) => RoomMutationsAreHandled(st, client, room, "", None, 0);
    case Say(room, text, origin, wall) => RoomMutationsAreHandled(st, "", room, text, OriginFor(st, room, origin), wall);
    case Save(client, text) => KeyedMutationsAreHandled(st, client, text, 0);
    case Configure(name, text) => KeyedMutationsAreHandled(st, name, text, 0);
    case Fence(fence, text, wall) => KeyedMutationsAreHandled(st, fence, text, wall);
    case Unfence(fence, wall) => KeyedMutationsAreHandled(st, fence, "", wall);
  }

  // ------------------------------------------------------------ clock bounds

  lemma LeTransitive(a: Clock, b: Clock, c: Clock)
    requires Le(a, b) && Le(b, c)
    ensures Le(a, c)
  {
  }

  lemma OpSessionsLe(rep: Replica, c: Clock, op: Op, c': Clock)
    requires EntriesLe(rep.sessions, c) && Le(c, c') && Le(op.clock, c')
    ensures EntriesLe(ApplyOp(rep, op).sessions, c')
  {
    var m, m' := rep.sessions, ApplyOp(rep, op).sessions;
    hide LwwMap.WinsOver, FenceSet.MarkLess, ApplyRoom;
    forall key | key in m' ensures Le(m'[key].clock, c') {
      if key in m && m'[key] == m[key] { LeTransitive(m[key].clock, c, c'); }
    }
  }

  lemma MergedSessionsLe(m: LwwMap.Entries, c: Clock, n: LwwMap.Entries, d: Clock)
    requires EntriesLe(m, c) && EntriesLe(n, d)
    ensures EntriesLe(LwwMap.MergeMaps(m, n), Merge(c, d))
  {
    MergeIsJoin(c, d, c);
    hide LwwMap.WinsOver, Merge;
    var u := LwwMap.MergeMaps(m, n);
    forall key | key in u ensures Le(u[key].clock, Merge(c, d)) {
      if key in m && u[key] == m[key] { LeTransitive(m[key].clock, c, Merge(c, d)); }
      if key in n && u[key] == n[key] { LeTransitive(n[key].clock, d, Merge(c, d)); }
    }
  }

  // The other regions' counters stay, and region r's own does not go back.
  ghost predicate Grows(w: World, w': World, r: string) {
    && r in w.regions && w'.regions.Keys == w.regions.Keys
    && (forall x :: x in w.regions && x != r ==> w'.regions[x] == w.regions[x])
    && Own(w, r) <= Own(w', r)
  }

  lemma GrowsKeepsBounds(w: World, w': World, r: string)
    requires ClocksBounded(w) && Grows(w, w', r)
    requires Bounded(w', w'.regions[r].clock) && EntriesLe(w'.regions[r].replica.sessions, w'.regions[r].clock)
    requires forall op :: op in w'.sent ==> op in w.sent || Bounded(w', op.clock)
    requires forall s :: s in w'.snaps ==> s in w.snaps || (Bounded(w', s.clock) && EntriesLe(s.replica.sessions, s.clock))
    ensures ClocksBounded(w')
  {
    hide EntriesLe;
    assert forall x :: Own(w, x) <= Own(w', x);
    assert forall c :: Bounded(w, c) ==> Bounded(w', c);
  }

  lemma ClocksStep(w: World, r: string, step: Step)
    requires Inv(w) && Enabled(w, r, step)
    ensures ClocksBounded(Next(w, r, step))
  {
    hide Act, ApplyOp, MergeReplicas, EntriesLe, AllFaithful, StampsIssued, SessionsOrdered, Bodies, Effective, Handle, Absorb;
    match step
    case Mutate(a) => ClocksMutate(w, r, a);
    case Retract(room, id) => GrowsKeepsBounds(w, Next(w, r, step), r);
    case Deliver(op, wall) => ClocksDeliver(w, r, op, wall);
    case Capture => GrowsKeepsBounds(w, Next(w, r, step), r);
    case Pull(s) => ClocksPull(w, r, s);
  }

  lemma ClocksMutate(w: World, r: string, a: Local)
    requires Shape(w) && ClocksBounded(w) && Enabled(w, r, Mutate(a))
    ensures ClocksBounded(Next(w, r, Mutate(a)))
  {
    var w', st := Next(w, r, Mutate(a)), w.regions[r];
    var (st', op) := Act(st, a);
    ActDoes(st, a);
    hide Act, ApplyOp, EntriesLe, WellStamped;
    ActClock(w, w', r, st', op);
    GrowsKeepsBounds(w, w', r);
  }

  lemma ClocksDeliver(w: World, r: string, op: Op, wall: nat)
    requires Shape(w) && ClocksBounded(w) && Enabled(w, r, Deliver(op, wall))
    ensures ClocksBounded(Next(w, r, Deliver(op, wall)))
  {
    var w', st := Next(w, r, Deliver(op, wall)), w.regions[r];
    hide ApplyOp, EntriesLe, Bodies, Effective, Hlc.AfterRemote;
    MergeClock(w, w', r, op.clock);
    MergeIsJoin(st.clock, op.clock, st.clock);
    hide Merge;
    OpSessionsLe(st.replica, st.clock, op, Merge(st.clock, op.clock));
    GrowsKeepsBounds(w, w', r);
  }

  lemma ClocksPull(w: World, r: string, s: Snapshot)
    requires Shape(w) && ClocksBounded(w) && Enabled(w, r, Pull(s))
    ensures ClocksBounded(Next(w, r, Pull(s)))
  {
    var w', st := Next(w, r, Pull(s)), w.regions[r];
    hide EntriesLe, MergeRoomMaps, FenceSet.Merge, LwwMap.MergeMaps;
    MergeClock(w, w', r, s.clock);
    hide Merge;
    MergedSessionsLe(st.replica.sessions, st.clock, s.replica.sessions, s.clock);
    GrowsKeepsBounds(w, w', r);
  }

  lemma ActClock(w: World, w': World, r: string, st': State, op: Option<Op>)
    requires r in w.regions && w.regions[r].id == r && w'.regions == w.regions[r := st']
    requires Bounded(w, w.regions[r].clock) && EntriesLe(w.regions[r].replica.sessions, w.regions[r].clock)
    requires ActFacts(w.regions[r], st', op)
    ensures Bounded(w', st'.clock) && Own(w, r) <= Own(w', r)
    ensures EntriesLe(st'.replica.sessions, st'.clock)
  {
    hide ApplyOp, EntriesLe, WellStamped;
    var st := w.regions[r];
    assert Le(st.clock, st'.clock) && Le(st'.clock, st'.clock);
    if op.Some? {
      OpSessionsLe(st.replica, st.clock, op.value, st'.clock);
    } else {
      EntriesLater(st.replica.sessions, st.clock, st'.clock);
    }
  }

  lemma MergeClock(w: World, w': World, r: string, d: Clock)
    requires r in w.regions && Bounded(w, w.regions[r].clock) && Bounded(w, d)
    requires w'.regions.Keys == w.regions.Keys && w'.regions[r].clock == Merge(w.regions[r].clock, d)
    requires forall x :: x in w.regions && x != r ==> w'.regions[x] == w.regions[x]
    ensures Bounded(w', w'.regions[r].clock) && Own(w, r) <= Own(w', r)
  {
    var c := w.regions[r].clock;
    assert forall x :: At(Merge(c, d), x) == Max(At(c, x), At(d, x));
  }

  lemma EntriesLater(m: LwwMap.Entries, c: Clock, c': Clock)
    requires EntriesLe(m, c) && Le(c, c')
    ensures EntriesLe(m, c')
  {
    forall key | key in m ensures Le(m[key].clock, c') {
      LeTransitive(m[key].clock, c, c');
    }
  }

  // ---------------------------------------------------------- shape and stamps

  lemma ShapeStep(w: World, r: string, step: Step)
    requires Inv(w) && Enabled(w, r, step)
    ensures Shape(Next(w, r, step))
  {
    hide Act, ApplyOp, MergeReplicas, Represents, ClocksBounded, StampsIssued, AllFaithful, SessionsOrdered;
    if step.Mutate? { ActDoes(w.regions[r], step.local); }
  }

  lemma StampsStep(w: World, r: string, step: Step)
    requires Inv(w) && Enabled(w, r, step)
    ensures StampsIssued(Next(w, r, step))
  {
    hide Inv, Act, Handle, Absorb, Shape, StampsIssued, Bodies, Effective, Emit;
    match step
    case Mutate(a) => StampsMutate(w, r, a);
    case Retract(room, id) => StampsRetract(w, r, room, id);
    case Deliver(op, wall) => StampsDeliver(w, r, op, wall);
    case Capture => StampsQuiet(w, r, step);
    case Pull(s) => StampsQuiet(w, r, step);
  }

  lemma StampsMutate(w: World, r: string, a: Local)
    requires Inv(w) && Enabled(w, r, Mutate(a))
    ensures StampsIssued(Next(w, r, Mutate(a)))
  {
    ActDoes(w.regions[r], a);
    hide Act, ApplyOp, ClocksBounded, AllFaithful, SessionsOrdered, WellStamped, StampsIssued;
    var (_, op) := Act(w.regions[r], a);
    StampsGrow(w, Next(w, r, Mutate(a)), r, op);
  }

  lemma StampsRetract(w: World, r: string, room: string, id: Rga.Id)
    requires Inv(w) && Enabled(w, r, Retract(room, id))
    ensures StampsIssued(Next(w, r, Retract(room, id)))
  {
    var op := Emit(w.regions[r], MessageRemove(room, id), None);
    assert WellStamped(op);
    hide ClocksBounded, AllFaithful, SessionsOrdered, WellStamped, StampsIssued;
    StampsGrow(w, Next(w, r, Retract(room, id)), r, Some(op));
  }

  lemma StampsDeliver(w: World, r: string, op: Op, wall: nat)
    requires Inv(w) && Enabled(w, r, Deliver(op, wall))
    ensures StampsIssued(Next(w, r, Deliver(op, wall)))
  {
    if op.hlc.Some? { Hlc.Advances(w.regions[r].hlc, op.hlc.value, wall); }
    hide ApplyOp, ClocksBounded, AllFaithful, SessionsOrdered, WellStamped, StampsIssued, Effective, Bodies, Merge;
    StampsGrow(w, Next(w, r, Deliver(op, wall)), r, None);
  }

  lemma StampsQuiet(w: World, r: string, step: Step)
    requires Inv(w) && Enabled(w, r, step) && (step.Capture? || step.Pull?)
    ensures StampsIssued(Next(w, r, step))
  {
    hide MergeReplicas, ClocksBounded, AllFaithful, SessionsOrdered, WellStamped, StampsIssued, Merge;
    StampsGrow(w, Next(w, r, step), r, None);
  }

  lemma StampsGrow(w: World, w': World, r: string, op: Option<Op>)
    requires Shape(w) && StampsIssued(w) && r in w.regions
    requires w'.sent == w.sent + OpSet(op) && w'.regions.Keys == w.regions.Keys
    requires forall x :: x in w.regions && x != r ==> w'.regions[x] == w.regions[x]
    requires w'.regions[r].hlc == w.regions[r].hlc || Hlc.Less(w.regions[r].hlc, w'.regions[r].hlc)
    requires op.Some? ==> op.value.region == r && WellStamped(op.value)
    requires op.Some? && op.value.hlc.Some? ==>
      op.value.hlc.value == w'.regions[r].hlc && Hlc.Less(w.regions[r].hlc, w'.regions[r].hlc)
    ensures StampsIssued(w')
  {
    hide WellStamped;
    forall x | x in w'.sent && x.hlc.Some? && x.region in w'.regions
      ensures !Hlc.Less(w'.regions[x.region].hlc, x.hlc.value) {
      assert x in w.sent || op == Some(x);
    }
    forall a, b | a in w'.sent && b in w'.sent && a.hlc.Some? && a.hlc == b.hlc && a.region == b.region ensures a == b {
      assert a in w.sent || op == Some(a);
      assert b in w.sent || op == Some(b);
    }
  }

  // ------------------------------------------------------------- faithfulness

  // Unreused stamps make every set of sent operations consistent.
  lemma SentConsistent(w: World, ops: set<Op>)
    requires StampsIssued(w) && ops <= w.sent
    ensures Consistent(Bodies(ops))
  {
    var bs := Bodies(ops);
    forall r, id, o, v, o', v' | MessageAppend(r, id, o, v) in bs && MessageAppend(r, id, o', v') in bs
      ensures o == o' && v == v' {
      var a :| a in ops && a.body == MessageAppend(r, id, o, v);
      var b :| b in ops && b.body == MessageAppend(r, id, o', v');
      SameIdSameOp(w, a, b);
    }
    forall f, d, d', m | GeofenceUpsert(f, d, m) in bs && GeofenceUpsert(f, d', m) in bs ensures d == d' {
      var a :| a in ops && a.body == GeofenceUpsert(f, d, m);
      var b :| b in ops && b.body == GeofenceUpsert(f, d', m);
      assert WellStamped(a) && WellStamped(b);
    }
  }

  lemma SameIdSameOp(w: World, a: Op, b: Op)
    requires StampsIssued(w) && a in w.sent && b in w.sent
    requires a.body.MessageAppend? && b.body.MessageAppend? && a.body.id == b.body.id
    ensures a == b
  {
    hide Hlc.MessageId;
    assert WellStamped(a) && WellStamped(b);
    var n :| a.body.id == Hlc.MessageId(a.hlc.value, a.region, n);
    var m :| b.body.id == Hlc.MessageId(b.hlc.value, b.region, m);
    Hlc.IdInjective(a.hlc.value, a.region, n, b.hlc.value, b.region, m);
  }

  lemma BodiesUnion(a: set<Op>, b: set<Op>)
    ensures Bodies(a + b) == Bodies(a) + Bodies(b)
  {
  }

  lemma FaithfulApply(rep: Replica, known: set<Op>, op: Op)
    requires Faithful(rep, known)
    ensures Faithful(ApplyOp(rep, op), known + (if Effective(Bodies(known), op.body) then {op} else {}))
  {
    hide Represents, RemovesHitTargets, ApplyOp, Effective;
    BodiesUnion(known, {op});
    assert Bodies({op}) == {op.body};
    assert known + {} == known;
    if Effective(Bodies(known), op.body) {
      ApplyRepresents(rep, Bodies(known), op);
    } else {
      LostRemove(rep, Bodies(known), op);
    }
  }

  lemma FaithfulStep(w: World, r: string, step: Step)
    requires Inv(w) && Enabled(w, r, step)
    ensures AllFaithful(Next(w, r, step))
  {
    hide Act, ApplyOp, MergeReplicas, ClocksBounded, StampsIssued, SessionsOrdered, Faithful;
    var w', st := Next(w, r, step), w.regions[r];
    match step
    case Mutate(a) =>
      ActDoes(st, a);
      var (st', op) := Act(st, a);
      if op.Some? {
        FaithfulApply(st.replica, w.known[r], op.value);
      } else {
        FaithfulView(st.replica, st'.replica, w.known[r]);
        assert w.known[r] + {} == w.known[r];
      }
    case Retract(room, id) =>
    case Deliver(op, wall) => FaithfulApply(st.replica, w.known[r], op);
    case Capture =>
    case Pull(s) =>
      SentConsistent(w, w.known[r] + s.known);
      FaithfulMerge(st.replica, w.known[r], s.replica, s.known);
  }

  // Faithfulness looks at rooms through ensureRoom only.
  lemma FaithfulView(a: Replica, b: Replica, known: set<Op>)
    requires Faithful(a, known) && a.fences == b.fences
    requires forall r :: RoomOf(a.rooms, r) == RoomOf(b.rooms, r)
    ensures Faithful(b, known)
  {
    hide RepRoom;
    forall r ensures RepRoom(RoomOf(b.rooms, r), Bodies(known), r) {
      assert RepRoom(RoomOf(a.rooms, r), Bodies(known), r);
    }
  }

  lemma FaithfulMerge(a: Replica, known: set<Op>, b: Replica, known': set<Op>)
    requires Faithful(a, known) && Faithful(b, known') && Consistent(Bodies(known + known'))
    ensures Faithful(MergeReplicas(a, b), known + known')
  {
    hide Represents, RemovesHitTargets, MergeReplicas, Consistent;
    BodiesUnion(known, known');
    MergeRepresents(a, Bodies(known), b, Bodies(known'));
  }

  // ---------------------------------------------------------- session order

  lemma SessionsStep(w: World, r: string, step: Step)
    requires Inv(w) && Enabled(w, r, step)
    ensures SessionsOrdered(Next(w, r, step))
  {
    hide Act, ApplyOp, MergeReplicas, AllFaithful, StampsIssued, ClocksBounded, SessionsOrdered, WellStamped, Bodies, Effective, Merge;
    var w', st := Next(w, r, step), w.regions[r];
    match step
    case Mutate(a) =>
      ActDoes(st, a);
      var (_, op) := Act(st, a);
      assert Le(st.clock, w'.regions[r].clock);
      SessionsGrow(w, w', r, op);
    case Retract(room, id) => SessionsGrow(w, w', r, Some(Emit(st, MessageRemove(room, id), None)));
    case Deliver(op, wall) =>
      MergeIsJoin(st.clock, op.clock, st.clock);
      SessionsGrow(w, w', r, None);
    case Capture => SessionsGrow(w, w', r, None);
    case Pull(s) =>
      MergeIsJoin(st.clock, s.clock, st.clock);
      SessionsGrow(w, w', r, None);
  }

  lemma SessionsGrow(w: World, w': World, r: string, op: Option<Op>)
    requires Shape(w) && ClocksBounded(w) && SessionsOrdered(w) && r in w.regions
    requires w'.sent == w.sent + OpSet(op) && w'.regions.Keys == w.regions.Keys
    requires forall x :: x in w.regions && x != r ==> w'.regions[x] == w.regions[x]
    requires Le(w.regions[r].clock, w'.regions[r].clock)
    requires op.Some? ==> op.value.region == r
    requires op.Some? && ForSession(op.value.body) ==>
      op.value.clock == w'.regions[r].clock == Increment(w.regions[r].clock, r)
    ensures SessionsOrdered(w')
  {
    forall x | x in w'.sent && ForSession(x.body) && x.region in w'.regions ensures Le(x.clock, w'.regions[x.region].clock) {
      if x in w.sent && x.region == r { LeTransitive(x.clock, w.regions[r].clock, w'.regions[r].clock); }
    }
    forall a, b | a in w'.sent && b in w'.sent && ForSession(a.body) && ForSession(b.body) && a != b
      ensures LwwMap.Comparable(EntryOf(a), EntryOf(b)) && EntryOf(a) != EntryOf(b) {
      if op == Some(a) && b in w.sent {
        NewSessionIsNew(w, r, a, b);
      } else if op == Some(b) && a in w.sent {
        NewSessionIsNew(w, r, b, a);
      }
    }
  }

  // The new write counts past anything sent, and follows its writer's own.
  lemma NewSessionIsNew(w: World, r: string, write: Op, other: Op)
    requires ClocksBounded(w) && SessionsOrdered(w) && r in w.regions && other in w.sent
    requires ForSession(write.body) && ForSession(other.body)
    requires write.region == r && write.clock == Increment(w.regions[r].clock, r)
    ensures LwwMap.Comparable(EntryOf(write), EntryOf(other)) && EntryOf(write) != EntryOf(other)
    ensures LwwMap.Comparable(EntryOf(other), EntryOf(write))
  {
    assert At(other.clock, r) < At(write.clock, r);
    if other.region == r {
      IncrementIsAfter(w.regions[r].clock, r, other.clock);
    }
  }

  // ------------------------------------------------------------- every run

  lemma InvStep(w: World, r: string, step: Step)
    requires Inv(w) && Enabled(w, r, step)
    ensures Inv(Next(w, r, step))
  {
    ShapeStep(w, r, step);
    ClocksStep(w, r, step);
    StampsStep(w, r, step);
    FaithfulStep(w, r, step);
    SessionsStep(w, r, step);
  }

  lemma InvStart(w: World)
    requires Start(w)
    ensures Inv(w)
  {
    forall r | r in w.regions ensures Faithful(w.regions[r].replica, w.known[r]) {
      assert Bodies({}) == {};
    }
  }

  lemma RunPrefix(ws: seq<World>, j: nat)
    requires IsRun(ws) && j < |ws|
    ensures IsRun(ws[..j + 1])
  {
    hide Follows, Start;
    var init := ws[..j + 1];
    forall i | 0 < i < |init| ensures Follows(init[i - 1], init[i]) {
      assert Follows(ws[i - 1], ws[i]);
    }
  }

  lemma LastStep(ws: seq<World>) returns (r: string, step: Step)
    requires IsRun(ws) && |ws| > 1
    ensures IsRun(ws[..|ws| - 1])
    ensures Enabled(ws[|ws| - 2], r, step) && ws[|ws| - 1] == Next(ws[|ws| - 2], r, step)
  {
    RunPrefix(ws, |ws| - 2);
    assert Follows(ws[|ws| - 2], ws[|ws| - 1]);
    hide IsRun, Enabled, Next;
    r, step :| Enabled(ws[|ws| - 2], r, step) && ws[|ws| - 1] == Next(ws[|ws| - 2], r, step);
  }

  lemma RunStep(ws: seq<World>, r: string, step: Step)
    requires IsRun(ws) && Enabled(ws[|ws| - 1], r, step)
    ensures IsRun(ws + [Next(ws[|ws| - 1], r, step)])
  {
    hide Enabled, Next, Start;
    var longer := ws + [Next(ws[|ws| - 1], r, step)];
    forall i | 0 < i < |longer| ensures Follows(longer[i - 1], longer[i]) {
      if i < |ws| { assert Follows(ws[i - 1], ws[i]); }
    }
  }

  lemma {:induction false} InvRun(ws: seq<World>)
    requires IsRun(ws)
    ensures Inv(ws[|ws| - 1])
    decreases |ws|
  {
    hide Inv, Start, Follows;
    if |ws| == 1 {
      InvStart(ws[0]);
    } else {
      var r, step := LastStep(ws);
      hide IsRun, Enabled, Next;
      InvRun(ws[..|ws| - 1]);
      InvStep(ws[|ws| - 2], r, step);
    }
  }
}
