// Runs that reach the states in which the replicated layer gives less than it promises.
module Divergences {
  import opened Wrappers
  import opened VectorClock
  import opened Region
  import opened World
  import Convergence
  import Order
  import Hlc
  import Rga
  import LwwMap
  import FenceSet

  ghost predicate Reached(w: World) {
    exists ws :: IsRun(ws) && ws[|ws| - 1] == w
  }

  function Begin(ids: set<string>): World {
    World(map r | r in ids :: Fresh(r), map r | r in ids :: {}, map r | r in ids :: {}, {}, {})
  }

  lemma BeginReached(ids: set<string>)
    ensures Reached(Begin(ids))
  {
    assert Start(Begin(ids));
    assert IsRun([Begin(ids)]);
  }

  lemma Reach(w: World, r: string, step: Step)
    requires Reached(w) && Enabled(w, r, step)
    ensures Reached(Next(w, r, step))
  {
    hide Enabled, Next;
    var ws :| IsRun(ws) && ws[|ws| - 1] == w;
    RunStep(ws, r, step);
    var longer := ws + [Next(w, r, step)];
    assert longer[|longer| - 1] == Next(w, r, step);
  }

  // A reachable world, with a history for each of its regions.
  ghost predicate Well(w: World) {
    Reached(w) && w.known.Keys == w.regions.Keys && w.delivered.Keys == w.regions.Keys
  }

  lemma WellReached(w: World)
    requires Well(w)
    ensures Reached(w) && w.known.Keys == w.regions.Keys && w.delivered.Keys == w.regions.Keys
  {
  }

  // Region r is now st, knows and was delivered these, and no other region changed.
  ghost predicate Became(w: World, w': World, r: string, st: State, known: set<Op>, delivered: set<Op>) {
    && w'.regions.Keys == w.regions.Keys && w'.known.Keys == w.known.Keys && w'.delivered.Keys == w.delivered.Keys
    && r in w'.regions && w'.regions[r] == st && r in w'.known && w'.known[r] == known
    && r in w'.delivered && w'.delivered[r] == delivered
    && (forall q :: q in w.regions && q != r ==> w'.regions[q] == w.regions[q])
    && (forall q :: q in w.known && q != r ==> w'.known[q] == w.known[q])
    && (forall q :: q in w.delivered && q != r ==> w'.delivered[q] == w.delivered[q])
  }

  lemma Begun(ids: set<string>) returns (w: World)
    ensures Well(w) && w.regions.Keys == w.known.Keys == w.delivered.Keys == ids && w.sent == {}
    ensures forall r :: r in ids ==> w.regions[r] == Fresh(r) && w.known[r] == {} && w.delivered[r] == {}
  {
    BeginReached(ids);
    w := Begin(ids);
  }

  // Region r acts.
  lemma Acted(w: World, r: string, a: Local) returns (w': World)
    requires Well(w) && r in w.regions
    ensures r in w.known && r in w.delivered && Well(w')
    ensures
      var (st, op) := Act(w.regions[r], a);
      Became(w, w', r, st, w.known[r] + OpSet(op), w.delivered[r] + OpSet(op)) && w'.sent == w.sent + OpSet(op)
  {
    hide Act, Reached;
    w' := Next(w, r, Mutate(a));
    MutateMeans(w, r, a);
    hide Next, Enabled, Became;
    Reach(w, r, Mutate(a));
    WellAfter(w, w');
  }

  lemma MutateMeans(w: World, r: string, a: Local)
    requires Enabled(w, r, Mutate(a))
    ensures
      var (st, op) := Act(w.regions[r], a);
      var w' := Next(w, r, Mutate(a));
      Became(w, w', r, st, w.known[r] + OpSet(op), w.delivered[r] + OpSet(op)) && w'.sent == w.sent + OpSet(op)
      && w'.regions.Keys == w.regions.Keys && w'.known.Keys == w.known.Keys && w'.delivered.Keys == w.delivered.Keys
  {
    hide Act;
  }

  lemma WellAfter(w: World, w': World)
    requires Well(w) && Reached(w')
    requires w'.regions.Keys == w.regions.Keys && w'.known.Keys == w.known.Keys && w'.delivered.Keys == w.delivered.Keys
    ensures Well(w')
  {
  }

  // Region r saves a session.
  lemma Saved(w: World, r: string, client: string, text: string) returns (w': World)
    requires Well(w) && r in w.regions
    ensures r in w.known && r in w.delivered && Well(w')
    ensures
      var (st, op) := SaveSession(w.regions[r], client, text);
      Became(w, w', r, st, w.known[r] + {op}, w.delivered[r] + {op}) && w'.sent == w.sent + {op}
  {
    w' := Acted(w, r, Save(client, text));
    hide SaveSession, Well, Became;
  }

  // Region r edits a fence.
  lemma Fenced(w: World, r: string, fence: string, text: string, wall: nat) returns (w': World)
    requires Well(w) && r in w.regions
    ensures r in w.known && r in w.delivered && Well(w')
    ensures
      var (st, op) := SyncGeofence(w.regions[r], fence, text, wall);
      Became(w, w', r, st, w.known[r] + {op}, w.delivered[r] + {op}) && w'.sent == w.sent + {op}
  {
    w' := Acted(w, r, Fence(fence, text, wall));
    hide SyncGeofence, Well, Became;
  }

  // Region r receives an operation.
  lemma Received(w: World, r: string, op: Op, wall: nat) returns (w': World)
    requires Well(w) && r in w.regions && op in w.sent
    ensures r in w.known && r in w.delivered && Well(w') && w'.sent == w.sent
    ensures
      var known := w.known[r] + (if Effective(Bodies(w.known[r]), op.body) then {op} else {});
      Became(w, w', r, Handle(w.regions[r], op, wall), known, w.delivered[r] + {op})
  {
    hide Handle, Reached, Effective, Bodies;
    Reach(w, r, Deliver(op, wall));
    w' := Next(w, r, Deliver(op, wall));
  }

  // Region r receives two operations.
  lemma ReceivedTwo(w: World, r: string, x: Op, y: Op) returns (w': World)
    requires Well(w) && r in w.regions && x in w.sent && y in w.sent
    ensures r in w.known && r in w.delivered && Well(w') && w'.sent == w.sent && r in w'.known
    ensures Became(w, w', r, Handle(Handle(w.regions[r], x, 0), y, 0), w'.known[r], w.delivered[r] + {x} + {y})
    ensures !x.body.MessageRemove? && !y.body.MessageRemove? ==> w'.known[r] == w.known[r] + {x} + {y}
  {
    var w1 := Received(w, r, x, 0);
    w' := Received(w1, r, y, 0);
    assert !x.body.MessageRemove? ==> Effective(Bodies(w.known[r]), x.body);
    assert !y.body.MessageRemove? ==> Effective(Bodies(w1.known[r]), y.body);
    hide Well, Handle, Effective, Bodies;
  }

  // Region r asks for a message to be removed everywhere.
  lemma Retracted(w: World, r: string, room: string, id: Rga.Id) returns (w': World, op: Op)
    requires Well(w) && r in w.regions
    ensures op == Emit(w.regions[r], MessageRemove(room, id), None)
    ensures Well(w') && w' == w.(sent := w.sent + {op})
  {
    hide Emit, Reached;
    op := Emit(w.regions[r], MessageRemove(room, id), None);
    Reach(w, r, Retract(room, id));
    w' := Next(w, r, Retract(room, id));
  }

  // Region b pulls what region a holds.
  lemma Pulled(w: World, a: string, b: string) returns (w': World)
    requires Well(w) && a in w.regions && b in w.regions
    ensures Well(w') && w'.regions.Keys == w.regions.Keys
    ensures w'.regions[b] == Absorb(w.regions[b], w.regions[a].replica, w.regions[a].clock)
  {
    hide Absorb, Reached;
    var snap := Snapshot(w.regions[a].replica, w.regions[a].clock, w.known[a], w.delivered[a]);
    Reach(w, a, Capture);
    w' := Next(w, a, Capture);
    Reach(w', b, Pull(snap));
    w' := Next(w', b, Pull(snap));
  }

  // ------------------------------------------------------------ fence edits

  // A region pulls a snapshot stamped by a faster wall clock; its next edit of the fence, and its
  // removal, are without effect.
  lemma PullLosesEdit() returns (w: World)
    ensures Reached(w) && "b" in w.regions
    ensures
      var s := SyncGeofence(w.regions["b"], "f", "mine", 5).0.replica.fences;
      "f" in s.adds && s.adds["f"].value == "theirs"
    ensures FenceSet.Has(RemoveGeofence(w.regions["b"], "f", 5).0.replica.fences, "f")
  {
    PulledEdit();
    hide SyncGeofence, RemoveGeofence, Absorb, Well, Fresh, FenceSet.Has;
    w := Begun({"a", "b"});
    w := Fenced(w, "a", "f", "theirs", 10);
    w := Pulled(w, "a", "b");
    WellReached(w);
  }

  lemma PulledEdit()
    ensures
      var theirs := SyncGeofence(Fresh("a"), "f", "theirs", 10).0;
      var st := Absorb(Fresh("b"), theirs.replica, theirs.clock);
      var s := SyncGeofence(st, "f", "mine", 5).0.replica.fences;
      && "f" in s.adds && s.adds["f"].value == "theirs"
      && FenceSet.Has(RemoveGeofence(st, "f", 5).0.replica.fences, "f")
  {
  }

  // A region receives the third edit of a peer while its wall clock stands at the peer's reading;
  // the tie leaves its clock below, and its own edit is without effect.
  lemma TieLosesEdit() returns (w: World)
    ensures Reached(w) && "b" in w.regions
    ensures
      var s := SyncGeofence(w.regions["b"], "f", "mine", 5).0.replica.fences;
      "f" in s.adds && s.adds["f"].value == "theirs"
  {
    TiedEdit();
    hide SyncGeofence, Handle, Well, Fresh, FenceSet.Has, Effective, Bodies;
    w := Begun({"a", "b"});
    w := Fenced(w, "a", "f", "first", 5);
    w := Fenced(w, "a", "f", "second", 5);
    var (_, op) := SyncGeofence(w.regions["a"], "f", "theirs", 5);
    w := Fenced(w, "a", "f", "theirs", 5);
    w := Received(w, "b", op, 5);
    WellReached(w);
  }

  lemma TiedEdit()
    ensures
      var a2 := SyncGeofence(SyncGeofence(Fresh("a"), "f", "first", 5).0, "f", "second", 5).0;
      var st := Handle(Fresh("b"), SyncGeofence(a2, "f", "theirs", 5).1, 5);
      var s := SyncGeofence(st, "f", "mine", 5).0.replica.fences;
      "f" in s.adds && s.adds["f"].value == "theirs"
  {
  }

  // ------------------------------------------------------ a removal overtakes

  // Two regions are delivered the same append and removal, in different orders, and end with
  // different nodes.
  lemma RemovalOvertakes() returns (w: World)
    ensures Reached(w) && w.regions.Keys == {"a", "b", "c"} && w.delivered.Keys == {"a", "b", "c"}
    ensures w.delivered["b"] == w.delivered["c"]
    ensures Convergence.SequenceOf(w, "b", "room") != Convergence.SequenceOf(w, "c", "room")
  {
    var append, remove;
    w, append, remove := SaidAndRetracted();
    hide Well, Handle, Fresh;
    WellReached(w);
    w := ReceivedTwo(w, "b", append, remove);
    WellReached(w);
    w := ReceivedTwo(w, "c", remove, append);
    WellReached(w);
    assert w.delivered["b"] == {} + {append} + {remove} == {} + {remove} + {append} == w.delivered["c"];
    Overtaken(append, remove);
  }

  lemma SaidAndRetracted() returns (w: World, append: Op, remove: Op)
    ensures Well(w) && w.regions.Keys == w.delivered.Keys == {"a", "b", "c"} && {append, remove} <= w.sent
    ensures append.body.MessageAppend? && append.body.room == "room" && remove.body == MessageRemove("room", append.body.id)
    ensures w.regions["b"] == Fresh("b") && w.regions["c"] == Fresh("c") && w.delivered["b"] == w.delivered["c"] == {}
  {
    var w0 := Begun({"a", "b", "c"});
    var said := Say("room", "hello", Some(None), 0);
    append := Region.Broadcast(w0.regions["a"], "room", "hello", None, 0).1;
    SaidInRoom(w0.regions["a"]);
    hide Region.Broadcast, Fresh, Reached;
    var w1 := Acted(w0, "a", said);
    assert append in w1.sent;
    hide Act;
    w, remove := Retracted(w1, "a", "room", append.body.id);
  }

  lemma SaidInRoom(st: State)
    ensures
      var (_, op) := Region.Broadcast(st, "room", "hello", None, 0);
      op.body.MessageAppend? && op.body.room == "room"
  {
    hide Hlc.MessageId, Rga.Insert;
  }

  lemma Overtaken(append: Op, remove: Op)
    requires append.body.MessageAppend? && append.body.room == "room" && remove.body == MessageRemove("room", append.body.id)
    ensures
      var b := Handle(Handle(Fresh("b"), append, 0), remove, 0);
      var c := Handle(Handle(Fresh("c"), remove, 0), append, 0);
      RoomOf(b.replica.rooms, "room").sequence != RoomOf(c.replica.rooms, "room").sequence
  {
    hide Merge, Hlc.AfterRemote;
    var id := append.body.id;
    var b := Handle(Handle(Fresh("b"), append, 0), remove, 0);
    var c := Handle(Handle(Fresh("c"), remove, 0), append, 0);
    assert RoomOf(b.replica.rooms, "room").sequence[id].tombstoned;
    assert !RoomOf(c.replica.rooms, "room").sequence[id].tombstoned;
  }

  // A peer's append under the head key itself hangs the head below the head: the walk over the
  // room never ends.
  lemma HeadKeyHangs(region: string, value: string, wall: nat)
    ensures
      var op := Op(MessageAppend("room", Rga.HEAD, None, value), "peer", map[], None);
      var nodes := RoomOf(Handle(Fresh(region), op, wall).replica.rooms, "room").sequence;
      !Rga.Rooted(nodes) && forall rounds: nat :: Rga.StackAfter(nodes, rounds) != []
  {
    var op := Op(MessageAppend("room", Rga.HEAD, None, value), "peer", map[], None);
    var nodes := RoomOf(Handle(Fresh(region), op, wall).replica.rooms, "room").sequence;
    assert Rga.IsPath(nodes, [Rga.HEAD]) && Rga.Last([Rga.HEAD]) == Rga.HEAD;
    assert Rga.Attached(nodes, Rga.HEAD);
    Rga.EndsIffRooted(nodes);
  }

  // ------------------------------------------------------- three writers

  const KEY: string := "session:k"

  function SavedBy(region: string, clock: Clock, text: string): Op {
    Op(SessionUpdate(KEY, text), region, clock, None)
  }

  const OF_A: Op := SavedBy("a", map["a" := 1, "c" := 1], "1")
  const OF_B: Op := SavedBy("b", map["b" := 1], "2")
  const OF_C: Op := SavedBy("c", map["c" := 1], "3")

  lemma Clocks()
    ensures Increment(map[], "b") == map["b" := 1] && Increment(map[], "c") == map["c" := 1]
    ensures Increment(Merge(map[], map["c" := 1]), "a") == map["a" := 1, "c" := 1]
  {
    var c: Clock := map["c" := 1];
    assert Merge(map[], c) == c;
  }

  // b and c save from a fresh start; a saves after it has received what c saved.
  lemma ThreeSaves()
    ensures SaveSession(Fresh("b"), "k", "2").1 == OF_B && SaveSession(Fresh("c"), "k", "3").1 == OF_C
    ensures SaveSession(Handle(Fresh("a"), OF_C, 0), "k", "1").1 == OF_A
    ensures LwwMap.Lookup(SaveSession(Fresh("b"), "k", "2").0.replica.sessions, KEY) == Some(EntryOf(OF_B))
    ensures LwwMap.Lookup(SaveSession(Fresh("c"), "k", "3").0.replica.sessions, KEY) == Some(EntryOf(OF_C))
  {
    Clocks();
    assert "session:" + "k" == KEY;
    hide Increment, Merge, LwwMap.WinsOver;
  }

  lemma Takes(st: State, op: Op, key: string)
    requires ForSession(op.body) && op.body.key == key
    ensures
      LwwMap.Lookup(Handle(st, op, 0).replica.sessions, key) ==
      Some(LwwMap.Resolve(LwwMap.Lookup(st.replica.sessions, key), EntryOf(op)))
  {
    hide LwwMap.Resolve, Merge;
  }

  // a's write is after c's, c's beats b's, and b's beats a's.
  lemma Cycle()
    ensures
      var a, b, c := EntryOf(OF_A), EntryOf(OF_B), EntryOf(OF_C);
      LwwMap.WinsOver(a, c) && LwwMap.WinsOver(c, b) && !LwwMap.WinsOver(a, b) && !LwwMap.WinsOver(b, c)
  {
    LwwMap.CycleClocks();
    assert Order.StringLess("a", "b") && Order.StringLess("b", "c");
    LwwMap.OneWinner(EntryOf(OF_B), EntryOf(OF_A));
    LwwMap.OneWinner(EntryOf(OF_C), EntryOf(OF_B));
    hide Compare, Order.StringLess;
  }

  // Three regions save the same session; after full exchange two of them know the same writes and
  // hold different ones.
  lemma ThreeWritersDiverge() returns (w: World)
    ensures Reached(w) && w.regions.Keys == w.known.Keys == {"a", "b", "c"} && w.known["b"] == w.known["c"]
    ensures LwwMap.Lookup(w.regions["b"].replica.sessions, KEY) == Some(EntryOf(OF_C))
    ensures LwwMap.Lookup(w.regions["c"].replica.sessions, KEY) == Some(EntryOf(OF_A))
  {
    hide Well, Handle, LwwMap.Lookup, EntryOf;
    var b, c;
    w, b, c := AllExchanged();
    Outcome(b, c);
    WellReached(w);
  }

  // What b and c hold after each has received the other two writes.
  lemma Outcome(b: State, c: State)
    requires LwwMap.Lookup(b.replica.sessions, KEY) == Some(EntryOf(OF_B))
    requires LwwMap.Lookup(c.replica.sessions, KEY) == Some(EntryOf(OF_C))
    ensures LwwMap.Lookup(Handle(Handle(b, OF_A, 0), OF_C, 0).replica.sessions, KEY) == Some(EntryOf(OF_C))
    ensures LwwMap.Lookup(Handle(Handle(c, OF_B, 0), OF_A, 0).replica.sessions, KEY) == Some(EntryOf(OF_A))
  {
    Cycle();
    Takes(b, OF_A, KEY);
    Takes(Handle(b, OF_A, 0), OF_C, KEY);
    Takes(c, OF_B, KEY);
    Takes(Handle(c, OF_B, 0), OF_A, KEY);
    hide Handle, LwwMap.WinsOver, LwwMap.Lookup, EntryOf;
  }

  lemma AllExchanged() returns (w: World, b: State, c: State)
    ensures Well(w) && w.regions.Keys == w.known.Keys == {"a", "b", "c"} && w.known["b"] == w.known["c"]
    ensures w.regions["b"] == Handle(Handle(b, OF_A, 0), OF_C, 0) && w.regions["c"] == Handle(Handle(c, OF_B, 0), OF_A, 0)
    ensures LwwMap.Lookup(b.replica.sessions, KEY) == Some(EntryOf(OF_B))
    ensures LwwMap.Lookup(c.replica.sessions, KEY) == Some(EntryOf(OF_C))
  {
    hide Well, Handle, LwwMap.Lookup, EntryOf;
    w, b, c := AllSaved();
    WellReached(w);
    w := ReceivedTwo(w, "b", OF_A, OF_C);
    WellReached(w);
    w := ReceivedTwo(w, "c", OF_B, OF_A);
    WellReached(w);
    assert w.known["b"] == {OF_B} + {OF_A} + {OF_C};
    assert w.known["c"] == {OF_C} + {OF_B} + {OF_A};
  }

  lemma AllSaved() returns (w: World, b: State, c: State)
    ensures Well(w) && w.regions.Keys == w.known.Keys == {"a", "b", "c"} && {OF_A, OF_B, OF_C} <= w.sent
    ensures w.regions["b"] == b && w.regions["c"] == c && w.known["b"] == {OF_B} && w.known["c"] == {OF_C}
    ensures LwwMap.Lookup(b.replica.sessions, KEY) == Some(EntryOf(OF_B))
    ensures LwwMap.Lookup(c.replica.sessions, KEY) == Some(EntryOf(OF_C))
  {
    ThreeSaves();
    hide Well, SaveSession, Handle, Fresh, LwwMap.Lookup, EntryOf;
    w := SavedAfterC();
    w := Saved(w, "b", "k", "2");
    b, c := w.regions["b"], w.regions["c"];
    assert {} + {OF_B} == {OF_B};
  }

  // c saves; a receives that and saves; b has done nothing yet.
  lemma SavedAfterC() returns (w: World)
    ensures Well(w) && w.regions.Keys == w.known.Keys == {"a", "b", "c"} && {OF_A, OF_C} <= w.sent
    ensures w.regions["b"] == Fresh("b") && w.regions["c"] == SaveSession(Fresh("c"), "k", "3").0
    ensures w.known["b"] == {} && w.known["c"] == {OF_C}
  {
    ThreeSaves();
    hide Well, SaveSession, Handle, Fresh, Bodies, Effective;
    var w1 := SavedByC();
    var w2 := Received(w1, "a", OF_C, 0);
    w := Saved(w2, "a", "k", "1");
  }

  lemma SavedByC() returns (w: World)
    ensures Well(w) && w.regions.Keys == w.known.Keys == {"a", "b", "c"} && w.sent == {OF_C}
    ensures w.regions["a"] == Fresh("a") && w.regions["b"] == Fresh("b") && w.regions["c"] == SaveSession(Fresh("c"), "k", "3").0
    ensures w.known["b"] == {} && w.known["c"] == {OF_C}
  {
    ThreeSaves();
    hide Well, SaveSession, Fresh;
    var w0 := Begun({"a", "b", "c"});
    w := Saved(w0, "c", "k", "3");
    assert {} + {OF_C} == {OF_C};
  }
}
