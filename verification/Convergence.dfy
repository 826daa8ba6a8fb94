// What every run of the regions guarantees.
module Convergence {
  import opened Wrappers
  import opened VectorClock
  import opened Region
  import opened World
  import Order
  import Hlc
  import OrSet
  import Rga

  function SequenceOf(w: World, r: string, room: string): Rga.Nodes
    requires r in w.regions
  {
    RoomOf(w.regions[r].replica.rooms, room).sequence
  }

  // ----------------------------------------------------- rooms, messages, fences

  // Regions that took in the same operations, in whatever order, how often and
  // through whichever mix of delivery and snapshots, hold the same rooms and
  // fences; so the same members and the same message array.
  lemma RegionsConverge(ws: seq<World>, a: string, b: string)
    requires IsRun(ws)
    requires a in ws[|ws| - 1].regions && b in ws[|ws| - 1].regions
    requires a in ws[|ws| - 1].known && b in ws[|ws| - 1].known
    requires Bodies(ws[|ws| - 1].known[a]) == Bodies(ws[|ws| - 1].known[b])
    ensures
      var x, y := ws[|ws| - 1].regions[a].replica, ws[|ws| - 1].regions[b].replica;
      && (forall room :: RoomOf(x.rooms, room) == RoomOf(y.rooms, room))
      && x.fences == y.fences
  {
    var w := ws[|ws| - 1];
    InvRun(ws);
    SentConsistent(w, w.known[a]);
    hide Represents, RemovesHitTargets, Consistent;
    RepresentsUnique(w.regions[a].replica, w.regions[b].replica, Bodies(w.known[a]));
  }

  // A member is present exactly when some join it took in was retired by no
  // leave it took in.
  lemma MembersMean(ws: seq<World>, r: string, room: string, client: string)
    requires IsRun(ws) && r in ws[|ws| - 1].regions && r in ws[|ws| - 1].known
    ensures
      var w := ws[|ws| - 1];
      var ops := Bodies(w.known[r]);
      OrSet.Has(RoomOf(w.regions[r].replica.rooms, room).membership, client) <==>
      exists tag :: MembershipAdd(room, client, tag) in ops && !RetiredIn(ops, room, tag)
  {
    InvRun(ws);
    var w := ws[|ws| - 1];
    hide Represents, RetiredIn;
    PresenceMeaning(w.regions[r].replica, Bodies(w.known[r]), room, client);
  }

  // No message is ever named like the head, so the walk always ends.
  lemma AlwaysRooted(ws: seq<World>, r: string, room: string)
    requires IsRun(ws) && r in ws[|ws| - 1].regions
    ensures Rga.Keyed(SequenceOf(ws[|ws| - 1], r, room))
    ensures Rga.HEAD !in SequenceOf(ws[|ws| - 1], r, room) && Rga.Rooted(SequenceOf(ws[|ws| - 1], r, room))
  {
    InvRun(ws);
    RoomRooted(ws[|ws| - 1], r, room);
  }

  // Every message held comes from a sent append, stamped by its region.
  lemma AppendBehind(w: World, r: string, room: string, id: Rga.Id) returns (op: Op)
    requires Inv(w) && r in w.regions && id in SequenceOf(w, r, room)
    ensures op in w.sent && WellStamped(op) && op.body.MessageAppend? && op.body.id == id
  {
    hide ClocksBounded, SessionsOrdered, WellStamped, RepMembers, RepFences;
    var nodes := SequenceOf(w, r, room);
    assert RepRoom(RoomOf(w.regions[r].replica.rooms, room), Bodies(w.known[r]), room);
    op :| op in w.known[r] && op.body == MessageAppend(room, id, nodes[id].origin, nodes[id].value);
  }

  lemma RoomRooted(w: World, r: string, room: string)
    requires Inv(w) && r in w.regions
    ensures Rga.Keyed(SequenceOf(w, r, room))
    ensures Rga.HEAD !in SequenceOf(w, r, room) && Rga.Rooted(SequenceOf(w, r, room))
  {
    hide ClocksBounded, SessionsOrdered, StampsIssued, RepMembers, RepFences;
    var nodes := SequenceOf(w, r, room);
    assert RepRoom(RoomOf(w.regions[r].replica.rooms, room), Bodies(w.known[r]), room);
    if Rga.HEAD in nodes {
      var op := AppendBehind(w, r, room, Rga.HEAD);
      var n :| op.body.id == Hlc.MessageId(op.hlc.value, op.region, n);
      Hlc.IdStartsWithDigit(op.hlc.value, op.region, n);
    }
  }

  // An append a region has sent is stamped no later than its clock.
  lemma IssuedBehind(w: World, r: string, op: Op) returns (n: nat)
    requires Inv(w) && r in w.regions && op in w.sent && op.region == r && op.body.MessageAppend?
    ensures op.hlc.Some? && !Hlc.Less(w.regions[r].hlc, op.hlc.value)
    ensures op.body.id == Hlc.MessageId(op.hlc.value, r, n)
  {
    hide ClocksBounded, SessionsOrdered, AllFaithful, Hlc.MessageId;
    assert WellStamped(op);
    n :| op.body.id == Hlc.MessageId(op.hlc.value, op.region, n);
  }

  // Each message id a region issues sorts after all it issued before, while its stamp fits the
  // id's fields; Hlc.OrderHoldsIff says how far that is.
  lemma IdsIncrease(ws: seq<World>, r: string, wall: nat, op: Op)
    requires IsRun(ws) && r in ws[|ws| - 1].regions
    requires op in ws[|ws| - 1].sent && op.region == r && op.body.MessageAppend?
    requires Hlc.Fits(Hlc.AfterLocal(ws[|ws| - 1].regions[r].hlc, wall))
    ensures
      var st := ws[|ws| - 1].regions[r];
      Order.StringLess(op.body.id, Hlc.MessageId(Hlc.AfterLocal(st.hlc, wall), st.id, st.localSeq + 1))
  {
    hide Inv, Next, Enabled, Hlc.MessageId, Hlc.Pow10, Hlc.AfterLocal, Order.StringLess;
    InvRun(ws);
    hide IsRun;
    var st := ws[|ws| - 1].regions[r];
    var n := IssuedBehind(ws[|ws| - 1], r, op);
    Hlc.Advances(st.hlc, st.hlc, wall);
    Hlc.FieldWidths();
    Hlc.IdOrder(op.hlc.value, r, n, Hlc.AfterLocal(st.hlc, wall), st.id, st.localSeq + 1);
  }

  // ------------------------------------------------------ the order of messages

  lemma ApplyGrows(rep: Replica, op: Op, room: string)
    ensures Rga.Grows(RoomOf(rep.rooms, room).sequence, RoomOf(ApplyOp(rep, op).rooms, room).sequence)
  {
    var nodes := RoomOf(rep.rooms, room).sequence;
    if op.body.MessageAppend? && op.body.room == room {
      Rga.InsertGrows(nodes, op.body.id, op.body.origin, op.body.value, false);
    } else if op.body.MessageRemove? && op.body.room == room {
      Rga.RemoveGrows(nodes, op.body.id);
    }
  }

  lemma AbsorbGrows(mine: Replica, theirs: Replica, room: string)
    ensures Rga.Grows(RoomOf(mine.rooms, room).sequence, RoomOf(MergeReplicas(mine, theirs).rooms, room).sequence)
  {
    Rga.MergeGrows(RoomOf(mine.rooms, room).sequence, RoomOf(theirs.rooms, room).sequence);
  }

  // No step of any region takes a message away or moves it.
  lemma SequencesGrow(w: World, r: string, step: Step, x: string, room: string)
    requires Enabled(w, r, step) && x in w.regions
    ensures x in Next(w, r, step).regions
    ensures Rga.Grows(SequenceOf(w, x, room), SequenceOf(Next(w, r, step), x, room))
  {
    hide Act, ApplyOp, MergeReplicas, Rga.Grows;
    GrowsRefl(SequenceOf(w, x, room));
    var st := w.regions[r];
    match step
    case Mutate(a) =>
      ActDoes(st, a);
      var (st', op) := Act(st, a);
      if op.Some? { ApplyGrows(st.replica, op.value, room); }
    case Retract(_, _) =>
    case Deliver(op, wall) => ApplyGrows(st.replica, op, room);
    case Capture =>
    case Pull(s) => AbsorbGrows(st.replica, s.replica, room);
  }

  lemma GrowsRefl(nodes: Rga.Nodes)
    ensures Rga.Grows(nodes, nodes)
  {
  }

  lemma GrowsTransitive(a: Rga.Nodes, b: Rga.Nodes, c: Rga.Nodes)
    requires Rga.Grows(a, b) && Rga.Grows(b, c)
    ensures Rga.Grows(a, c)
  {
  }

  lemma {:induction false} RunGrows(ws: seq<World>, i: nat, j: nat, r: string, room: string)
    requires IsRun(ws) && i <= j < |ws| && r in ws[i].regions
    ensures r in ws[j].regions && Rga.Grows(SequenceOf(ws[i], r, room), SequenceOf(ws[j], r, room))
    decreases j
  {
    hide Next, Enabled, Rga.Grows, SequenceOf;
    if i == j {
      GrowsRefl(SequenceOf(ws[i], r, room));
    } else {
      RunGrows(ws, i, j - 1, r, room);
      assert Follows(ws[j - 1], ws[j]);
      var x, step :| Enabled(ws[j - 1], x, step) && ws[j] == Next(ws[j - 1], x, step);
      SequencesGrow(ws[j - 1], x, step, r, room);
      GrowsTransitive(SequenceOf(ws[i], r, room), SequenceOf(ws[j - 1], r, room), SequenceOf(ws[j], r, room));
    }
  }

  // Between any two points of any run, the earlier order of a room's messages
  // at a region is the later one without the newcomers.
  lemma OrderKept(ws: seq<World>, i: nat, j: nat, r: string, room: string)
    requires IsRun(ws) && i <= j < |ws| && r in ws[i].regions
    ensures
      r in ws[j].regions &&
      var before, after := SequenceOf(ws[i], r, room), SequenceOf(ws[j], r, room);
      Order.Filter((p: Rga.Path) => p in Rga.AllPaths(before), Rga.Traversal(after)) == Rga.Traversal(before)
  {
    RunGrows(ws, i, j, r, room);
    RunPrefix(ws, j);
    AlwaysRooted(ws[..j + 1], r, room);
    hide SequenceOf, Rga.Grows, Rga.Rooted, Rga.AllPaths;
    assert ws[..j + 1][j] == ws[j];
    Rga.TraversalStable(SequenceOf(ws[i], r, room), SequenceOf(ws[j], r, room));
  }

  // The id the region will give its next message.
  function NextId(st: State, wall: nat): Rga.Id {
    Hlc.MessageId(Hlc.AfterLocal(st.hlc, wall), st.id, st.localSeq + 1)
  }

  ghost predicate NothingWaits(nodes: Rga.Nodes, id: Rga.Id) {
    forall m :: m in nodes ==> nodes[m].origin != Some(id)
  }

  // A default broadcast appends to the region's visible array, unless some
  // message was already anchored on the id about to be issued.
  lemma SayAppends(ws: seq<World>, r: string, room: string, text: string, wall: nat)
    requires IsRun(ws) && Enabled(ws[|ws| - 1], r, Mutate(Say(room, text, None, wall)))
    requires NothingWaits(SequenceOf(ws[|ws| - 1], r, room), NextId(ws[|ws| - 1].regions[r], wall))
    ensures
      var w := ws[|ws| - 1];
      var before := SequenceOf(w, r, room);
      var after := SequenceOf(Next(w, r, Mutate(Say(room, text, None, wall))), r, room);
      && Rga.Rooted(after)
      && Rga.Array(after) == Rga.Array(before) + [Rga.Item(NextId(w.regions[r], wall), text, |Rga.Array(before)|)]
  {
    InvRun(ws);
    var w := ws[|ws| - 1];
    var id := NextId(w.regions[r], wall);
    Hlc.IdStartsWithDigit(Hlc.AfterLocal(w.regions[r].hlc, wall), w.regions[r].id, w.regions[r].localSeq + 1);
    assert id != Rga.HEAD;
    SayInserts(w, r, room, text, wall);
    FreshId(w, r, room, wall);
    RoomRooted(w, r, room);
    hide Inv, Next, NextId, SequenceOf, Rga.Rooted, Rga.Array, Rga.Visible, Rga.LastVisible, Rga.EndPath, Rga.Insert;
    Rga.BroadcastIsAppend(SequenceOf(w, r, room), id, text);
  }

  lemma SayInserts(w: World, r: string, room: string, text: string, wall: nat)
    requires Inv(w) && Enabled(w, r, Mutate(Say(room, text, None, wall)))
    ensures
      var before := SequenceOf(w, r, room);
      && Rga.Rooted(before)
      && SequenceOf(Next(w, r, Mutate(Say(room, text, None, wall))), r, room)
         == Rga.Insert(before, NextId(w.regions[r], wall), Rga.LastVisible(before), text, false)
  {
    hide Inv, Rga.Rooted, Hlc.MessageId, Rga.LastVisible, Rga.Insert, Hlc.AfterLocal, Region.Broadcast, NextId, Increment, OpSet;
    RoomRooted(w, r, room);
    BroadcastInserts(w.regions[r], room, text, OriginFor(w.regions[r], room, None), wall);
  }

  lemma BroadcastInserts(st: State, room: string, text: string, origin: Option<Rga.Id>, wall: nat)
    ensures
      RoomOf(Region.Broadcast(st, room, text, origin, wall).0.replica.rooms, room).sequence
      == Rga.Insert(RoomOf(st.replica.rooms, room).sequence, NextId(st, wall), origin, text, false)
  {
    hide Hlc.MessageId, Rga.Insert, Hlc.AfterLocal, VectorClock.Increment;
  }

  // The id about to be issued is in no room yet.
  lemma FreshId(w: World, r: string, room: string, wall: nat)
    requires Inv(w) && r in w.regions
    ensures NextId(w.regions[r], wall) !in SequenceOf(w, r, room)
  {
    hide ClocksBounded, SessionsOrdered, AllFaithful, Hlc.MessageId, SequenceOf;
    var st := w.regions[r];
    var stamp, id := Hlc.AfterLocal(st.hlc, wall), NextId(st, wall);
    if id in SequenceOf(w, r, room) {
      var op := AppendBehind(w, r, room, id);
      var n :| id == Hlc.MessageId(op.hlc.value, op.region, n);
      Hlc.IdInjective(op.hlc.value, op.region, n, stamp, r, st.localSeq + 1);
      Hlc.Advances(st.hlc, stamp, wall);
    }
  }

  // A removal that overtakes its append is lost: the two orders differ.
  lemma RemoveBeforeAppendDiverges(rep: Replica, room: string, id: Rga.Id, value: string, region: string)
    requires id !in RoomOf(rep.rooms, room).sequence
    ensures
      var append := Op(MessageAppend(room, id, None, value), region, map[], None);
      var remove := Op(MessageRemove(room, id), region, map[], None);
      var inOrder := RoomOf(ApplyOp(ApplyOp(rep, append), remove).rooms, room).sequence;
      var overtaken := RoomOf(ApplyOp(ApplyOp(rep, remove), append).rooms, room).sequence;
      && id in inOrder && inOrder[id].tombstoned
      && id in overtaken && !overtaken[id].tombstoned
  {
  }

  // ---------------------------------------------------------- removals in transit

  // The message operations of one room.
  function MessageOps(ops: set<Op>, room: string): set<Body> {
    set op | op in ops && (op.body.MessageAppend? || op.body.MessageRemove?) && op.body.room == room :: op.body
  }

  // The nodes of a room tell exactly which appends and removals took effect.
  lemma NodesTell(nodes: Rga.Nodes, ops: set<Body>, r: string)
    requires RepMessages(nodes, ops, r) && Consistent(ops) && forall id :: MessageRemove(r, id) in ops ==> id in nodes
    ensures forall id, o, v :: MessageAppend(r, id, o, v) in ops <==> id in nodes && nodes[id].origin == o && nodes[id].value == v
    ensures forall id :: MessageRemove(r, id) in ops <==> id in nodes && nodes[id].tombstoned
    ensures forall id :: id in nodes ==> nodes[id].id == id
  {
  }

  lemma SameBodies(m: Rga.Nodes, n: Rga.Nodes, known: set<Op>, known': set<Op>, r: string)
    requires RepMessages(m, Bodies(known), r) && Consistent(Bodies(known))
    requires RepMessages(n, Bodies(known'), r) && Consistent(Bodies(known'))
    requires forall id :: MessageRemove(r, id) in Bodies(known) ==> id in m
    requires forall id :: MessageRemove(r, id) in Bodies(known') ==> id in n
    ensures m == n <==> MessageOps(known, r) == MessageOps(known', r)
  {
    NodesTell(m, Bodies(known), r);
    NodesTell(n, Bodies(known'), r);
    hide RepMessages, Consistent, Bodies, MessageOps;
    forall x: Body
      ensures x in MessageOps(known, r) <==> x in Bodies(known) && (x.MessageAppend? || x.MessageRemove?) && x.room == r
      ensures x in MessageOps(known', r) <==> x in Bodies(known') && (x.MessageAppend? || x.MessageRemove?) && x.room == r {
      InMessageOps(known, r, x);
      InMessageOps(known', r, x);
    }
    if m == n {
      forall x: Body ensures x in MessageOps(known, r) <==> x in MessageOps(known', r) {
        if x.MessageAppend? { assert x == MessageAppend(x.room, x.id, x.origin, x.value); }
        if x.MessageRemove? { assert x == MessageRemove(x.room, x.id); }
      }
    }
    if MessageOps(known, r) == MessageOps(known', r) {
      forall id, o, v ensures MessageAppend(r, id, o, v) in Bodies(known) <==> MessageAppend(r, id, o, v) in Bodies(known') {
        assert MessageAppend(r, id, o, v) in MessageOps(known, r) <==> MessageAppend(r, id, o, v) in Bodies(known);
      }
      forall id ensures MessageRemove(r, id) in Bodies(known) <==> MessageRemove(r, id) in Bodies(known') {
        assert MessageRemove(r, id) in MessageOps(known, r) <==> MessageRemove(r, id) in Bodies(known);
      }
      forall id ensures id in m <==> id in n {
        if id in m { assert MessageAppend(r, id, m[id].origin, m[id].value) in Bodies(known); }
        if id in n { assert MessageAppend(r, id, n[id].origin, n[id].value) in Bodies(known'); }
      }
      forall id | id in m ensures m[id] == n[id] {
        assert MessageAppend(r, id, m[id].origin, m[id].value) in Bodies(known);
        assert MessageRemove(r, id) in Bodies(known) <==> m[id].tombstoned;
      }
      assert m == n;
    }
  }

  lemma InMessageOps(known: set<Op>, r: string, x: Body)
    ensures x in MessageOps(known, r) <==> x in Bodies(known) && (x.MessageAppend? || x.MessageRemove?) && x.room == r
  {
  }

  // In every run a message is in the array of a region exactly when it is attached there and its
  // append was taken in and no removal of it was; and it reads as it was sent.
  lemma MessagesMean(ws: seq<World>, r: string, room: string, id: Rga.Id)
    requires IsRun(ws) && r in ws[|ws| - 1].regions && r in ws[|ws| - 1].known
    ensures
      var nodes, ops := SequenceOf(ws[|ws| - 1], r, room), Bodies(ws[|ws| - 1].known[r]);
      ((exists x <- Rga.Array(nodes) :: x.id == id) <==>
       Rga.Attached(nodes, id) && (exists o, v :: MessageAppend(room, id, o, v) in ops) && MessageRemove(room, id) !in ops)
      && forall x <- Rga.Array(nodes) :: exists o :: MessageAppend(room, x.id, o, x.value) in ops
  {
    hide Next, Enabled;
    var w := ws[|ws| - 1];
    var nodes, ops := SequenceOf(w, r, room), Bodies(w.known[r]);
    InvRun(ws);
    AlwaysRooted(ws, r, room);
    hide IsRun, ClocksBounded, StampsIssued, SessionsOrdered, RepMembers, RepFences, Rga.Rooted, Rga.Array, Rga.Attached, Bodies;
    assert RepRoom(RoomOf(w.regions[r].replica.rooms, room), ops, room);
    hide Inv;
    Rga.ShownIff(nodes, id);
    Rga.AttachedIn(nodes, id);
  }

  // In every run two regions hold the same nodes of a room if and only if the same appends and
  // removals took effect there: a removal lost on the way tells them apart.
  lemma NodesEqualIff(ws: seq<World>, a: string, b: string, room: string)
    requires IsRun(ws)
    requires a in ws[|ws| - 1].regions && a in ws[|ws| - 1].known && b in ws[|ws| - 1].regions && b in ws[|ws| - 1].known
    ensures
      var w := ws[|ws| - 1];
      SequenceOf(w, a, room) == SequenceOf(w, b, room) <==> MessageOps(w.known[a], room) == MessageOps(w.known[b], room)
  {
    var w := ws[|ws| - 1];
    InvRun(ws);
    SentConsistent(w, w.known[a]);
    SentConsistent(w, w.known[b]);
    hide ClocksBounded, StampsIssued, SessionsOrdered, RepMembers, RepFences, RepMessages, Consistent, IsRun, MessageOps;
    assert RepRoom(RoomOf(w.regions[a].replica.rooms, room), Bodies(w.known[a]), room);
    assert RepRoom(RoomOf(w.regions[b].replica.rooms, room), Bodies(w.known[b]), room);
    SameBodies(SequenceOf(w, a, room), SequenceOf(w, b, room), w.known[a], w.known[b], room);
  }

  // No removal is delivered before its append took effect.
  ghost predicate Timely(w: World, r: string, step: Step)
    requires r in w.known
  {
    step.Deliver? ==> Effective(Bodies(w.known[r]), step.op.body)
  }

  // All that was delivered took effect, at every region and in every snapshot.
  ghost predicate NothingLost(w: World) {
    && (forall r :: r in w.known && r in w.delivered ==> w.known[r] == w.delivered[r])
    && (forall s :: s in w.snaps ==> s.known == s.delivered)
  }

  // A removal that took effect had its target.
  lemma KnownEffective(rep: Replica, known: set<Op>, op: Op)
    requires Faithful(rep, known) && op in known
    ensures Effective(Bodies(known), op.body)
  {
    assert op.body in Bodies(known);
    if op.body.MessageRemove? {
      assert op.body == MessageRemove(op.body.room, op.body.id);
      assert RepRoom(RoomOf(rep.rooms, op.body.room), Bodies(known), op.body.room);
    }
  }

  lemma LossStep(w: World, r: string, step: Step)
    requires Inv(w) && Enabled(w, r, step) && NothingLost(w)
    ensures NothingLost(Next(w, r, step)) <==> Timely(w, r, step)
  {
    if step.Deliver? {
      LossDeliver(w, r, step.op, step.wall);
    } else {
      LossOther(w, r, step);
    }
  }

  lemma LossOther(w: World, r: string, step: Step)
    requires Enabled(w, r, step) && !step.Deliver? && NothingLost(w)
    ensures NothingLost(Next(w, r, step))
  {
    hide Act, Absorb, Emit, Handle;
    var w' := Next(w, r, step);
    assert w'.known[r] == w'.delivered[r];
  }

  lemma LossDeliver(w: World, r: string, op: Op, wall: nat)
    requires Inv(w) && Enabled(w, r, Deliver(op, wall)) && NothingLost(w)
    ensures NothingLost(Next(w, r, Deliver(op, wall))) <==> Effective(Bodies(w.known[r]), op.body)
  {
    var known := w.known[r];
    if op in known {
      assert Faithful(w.regions[r].replica, known);
      KnownEffective(w.regions[r].replica, known, op);
    }
    hide Inv, Handle, Effective, Bodies;
    KnownOrNot(w, r, op, wall);
  }

  lemma KnownOrNot(w: World, r: string, op: Op, wall: nat)
    requires Enabled(w, r, Deliver(op, wall)) && NothingLost(w)
    requires op in w.known[r] ==> Effective(Bodies(w.known[r]), op.body)
    ensures NothingLost(Next(w, r, Deliver(op, wall))) <==> Effective(Bodies(w.known[r]), op.body)
  {
    hide Handle, Effective, Bodies;
    var w', known := Next(w, r, Deliver(op, wall)), w.known[r];
    assert w'.delivered[r] == known + {op};
    assert known + {} == known;
  }

  ghost predicate TimelyFollows(w: World, w': World) {
    exists r, step :: Enabled(w, r, step) && w' == Next(w, r, step) && Timely(w, r, step)
  }

  lemma TimelyLosesNothing(w: World, w': World)
    requires Inv(w) && NothingLost(w) && TimelyFollows(w, w')
    ensures NothingLost(w')
  {
    var r, step :| Enabled(w, r, step) && w' == Next(w, r, step) && Timely(w, r, step);
    LossStep(w, r, step);
  }

  // Every step of the run is timely.
  ghost predicate TimelyRun(ws: seq<World>) {
    forall i :: 0 < i < |ws| ==> TimelyFollows(ws[i - 1], ws[i])
  }

  lemma TimelyRunSplit(ws: seq<World>)
    requires |ws| > 1
    ensures TimelyRun(ws) <==> TimelyRun(ws[..|ws| - 1]) && TimelyFollows(ws[|ws| - 2], ws[|ws| - 1])
  {
    hide TimelyFollows;
    var init := ws[..|ws| - 1];
    if TimelyRun(ws) {
      forall i | 0 < i < |init| ensures TimelyFollows(init[i - 1], init[i]) { assert TimelyFollows(ws[i - 1], ws[i]); }
    }
    if TimelyRun(init) && TimelyFollows(ws[|ws| - 2], ws[|ws| - 1]) {
      forall i | 0 < i < |ws| ensures TimelyFollows(ws[i - 1], ws[i]) {
        if i < |init| { assert TimelyFollows(init[i - 1], init[i]); }
      }
    }
  }

  ghost predicate NeverLost(ws: seq<World>) {
    forall i :: 0 <= i < |ws| ==> NothingLost(ws[i])
  }

  lemma NeverLostSplit(ws: seq<World>)
    requires ws != []
    ensures NeverLost(ws) <==> NeverLost(ws[..|ws| - 1]) && NothingLost(ws[|ws| - 1])
  {
    hide NothingLost;
    var init := ws[..|ws| - 1];
    assert forall i :: 0 <= i < |init| ==> init[i] == ws[i];
  }

  // Along a run nothing is ever lost if and only if no removal is delivered before its append.
  lemma {:induction false} NothingLostIff(ws: seq<World>)
    requires IsRun(ws)
    ensures NeverLost(ws) <==> TimelyRun(ws)
    decreases |ws|
  {
    if |ws| > 1 {
      var init, w, w' := ws[..|ws| - 1], ws[|ws| - 2], ws[|ws| - 1];
      var r, step := LastStep(ws);
      InvRun(init);
      NothingLostIff(init);
      TimelyRunSplit(ws);
      NeverLostSplit(ws);
      NeverLostSplit(init);
      hide Inv, IsRun, Enabled, Next, NothingLost, Timely, TimelyRun, NeverLost;
      if NothingLost(w) {
        LossStep(w, r, step);
        if TimelyFollows(w, w') { TimelyLosesNothing(w, w'); }
      }
    }
  }

  // In a timely run, regions that were delivered the same operations hold the same rooms and fences.
  lemma DeliveredConverge(ws: seq<World>, a: string, b: string)
    requires IsRun(ws) && TimelyRun(ws)
    requires a in ws[|ws| - 1].regions && b in ws[|ws| - 1].regions
    requires a in ws[|ws| - 1].delivered && b in ws[|ws| - 1].delivered
    requires ws[|ws| - 1].delivered[a] == ws[|ws| - 1].delivered[b]
    ensures
      var x, y := ws[|ws| - 1].regions[a].replica, ws[|ws| - 1].regions[b].replica;
      && (forall room :: RoomOf(x.rooms, room) == RoomOf(y.rooms, room))
      && x.fences == y.fences
  {
    InvRun(ws);
    NothingLostIff(ws);
    assert NothingLost(ws[|ws| - 1]);
    hide NeverLost;
    assert Shape(ws[|ws| - 1]);
    hide IsRun, TimelyRun, Inv, Bodies;
    RegionsConverge(ws, a, b);
  }
}
