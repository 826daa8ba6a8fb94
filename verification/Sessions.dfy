// Sessions and global configuration over every run: what a region holds under a key.
module Sessions {
  import opened Wrappers
  import opened VectorClock
  import opened Region
  import opened World
  import LwwMap
  import FenceSet

  // A local save always beats what is stored and is read back at once.
  lemma SaveReadsBack(ws: seq<World>, r: string, client: string, text: string)
    requires IsRun(ws) && r in ws[|ws| - 1].regions
    ensures
      var (st, op) := SaveSession(ws[|ws| - 1].regions[r], client, text);
      && LwwMap.Get(st.replica.sessions, "session:" + client) == Some(text)
      && st.replica.sessions["session:" + client] == EntryOf(op)
    ensures
      var (st, op) := SetGlobalConfig(ws[|ws| - 1].regions[r], client, text);
      && LwwMap.Get(st.replica.sessions, "global-config:" + client) == Some(text)
      && st.replica.sessions["global-config:" + client] == EntryOf(op)
  {
    InvRun(ws);
    var st := ws[|ws| - 1].regions[r];
    WriteWins(st, "session:" + client, text);
    WriteWins(st, "global-config:" + client, text);
  }

  lemma WriteWins(st: State, key: string, text: string)
    requires EntriesLe(st.replica.sessions, st.clock)
    ensures key in WriteSession(st, key, text).replica.sessions
    ensures WriteSession(st, key, text).replica.sessions[key]
         == LwwMap.Entry(Some(text), Increment(st.clock, st.id), st.id, false)
  {
    if key in st.replica.sessions {
      IncrementIsAfter(st.clock, st.id, st.replica.sessions[key].clock);
    }
  }

  function Writes(known: set<Op>, key: string): set<LwwMap.Entry> {
    set op | op in known && ForSession(op.body) && op.body.key == key :: EntryOf(op)
  }

  // The entry held is one of the writes taken in, and the one that beats all the others if there is one.
  ghost predicate Settled(e: Option<LwwMap.Entry>, es: set<LwwMap.Entry>) {
    && (e.None? <==> es == {})
    && (e.Some? ==> e.value in es)
    && (forall w :: LwwMap.Dominates(w, es) ==> e == Some(w))
  }

  ghost predicate SettledIn(rep: Replica, known: set<Op>, key: string) {
    Settled(LwwMap.Lookup(rep.sessions, key), Writes(known, key))
  }

  ghost predicate AllSettled(w: World, key: string) {
    && (forall r :: r in w.regions && r in w.known ==> SettledIn(w.regions[r].replica, w.known[r], key))
    && (forall s :: s in w.snaps ==> SettledIn(s.replica, s.known, key))
  }

  // What one side holds, settled against what the other brings.
  function Joined(mine: Option<LwwMap.Entry>, theirs: Option<LwwMap.Entry>): Option<LwwMap.Entry> {
    if theirs.Some? then Some(LwwMap.Resolve(mine, theirs.value)) else mine
  }

  // However the rest of the writes compare, a write that beats all of both sides comes out on top.
  lemma JoinSettled(e: Option<LwwMap.Entry>, es: set<LwwMap.Entry>, f: Option<LwwMap.Entry>, fs: set<LwwMap.Entry>)
    requires Settled(e, es) && Settled(f, fs)
    ensures Settled(Joined(e, f), es + fs)
  {
    hide LwwMap.WinsOver;
    forall w | LwwMap.Dominates(w, es + fs) ensures Joined(e, f) == Some(w) {
      if w in fs {
        assert LwwMap.Dominates(w, fs);
      } else {
        assert LwwMap.Dominates(w, es);
        if f.Some? { LwwMap.OneWinner(w, f.value); }
      }
    }
    if f.None? { assert es + fs == es; }
    if e.None? { assert es + fs == fs; }
  }

  lemma WritesUnion(a: set<Op>, b: set<Op>, key: string)
    ensures Writes(a + b, key) == Writes(a, key) + Writes(b, key)
  {
  }

  lemma WritesWritten(w: World, ops: set<Op>, key: string)
    requires SessionsOrdered(w) && ops <= w.sent
    ensures LwwMap.Written(Writes(ops, key))
  {
    forall a, b | a in Writes(ops, key) && b in Writes(ops, key) ensures LwwMap.Comparable(a, b) {
      var p :| p in ops && ForSession(p.body) && p.body.key == key && EntryOf(p) == a;
      var q :| q in ops && ForSession(q.body) && q.body.key == key && EntryOf(q) == b;
      assert Compare(a.clock, a.clock) == Equal;
    }
  }

  lemma SessionsAfter(rep: Replica, op: Op, key: string)
    ensures LwwMap.Lookup(ApplyOp(rep, op).sessions, key)
         == Joined(LwwMap.Lookup(rep.sessions, key), if ForSession(op.body) && op.body.key == key then Some(EntryOf(op)) else None)
  {
    hide LwwMap.Resolve, ApplyRoom, FenceSet.Add, FenceSet.Remove;
  }

  lemma WritesOfOne(op: Op, key: string)
    ensures Settled(if ForSession(op.body) && op.body.key == key then Some(EntryOf(op)) else None, Writes({op}, key))
  {
    assert Writes({op}, key) == if ForSession(op.body) && op.body.key == key then {EntryOf(op)} else {};
  }

  lemma SettledApply(rep: Replica, known: set<Op>, op: Op, key: string)
    requires SettledIn(rep, known, key)
    ensures SettledIn(ApplyOp(rep, op), known + {op}, key)
  {
    hide Settled, ApplyOp, Writes, Joined;
    SessionsAfter(rep, op, key);
    WritesOfOne(op, key);
    WritesUnion(known, {op}, key);
    var f := if ForSession(op.body) && op.body.key == key then Some(EntryOf(op)) else None;
    JoinSettled(LwwMap.Lookup(rep.sessions, key), Writes(known, key), f, Writes({op}, key));
  }

  lemma MergedSession(rep: Replica, rep': Replica, key: string)
    ensures LwwMap.Lookup(MergeReplicas(rep, rep').sessions, key)
         == Joined(LwwMap.Lookup(rep.sessions, key), LwwMap.Lookup(rep'.sessions, key))
  {
    hide LwwMap.Resolve, MergeRoomMaps, FenceSet.Merge;
  }

  lemma SettledMerge(rep: Replica, known: set<Op>, rep': Replica, known': set<Op>, key: string)
    requires SettledIn(rep, known, key) && SettledIn(rep', known', key)
    ensures SettledIn(MergeReplicas(rep, rep'), known + known', key)
  {
    hide Settled, Writes, MergeReplicas, Joined, LwwMap.Lookup;
    MergedSession(rep, rep', key);
    WritesUnion(known, known', key);
    JoinSettled(LwwMap.Lookup(rep.sessions, key), Writes(known, key), LwwMap.Lookup(rep'.sessions, key), Writes(known', key));
  }

  // Only region r and possibly a new snapshot changed.
  lemma SettledAt(w: World, w': World, r: string, key: string)
    requires AllSettled(w, key) && w'.regions.Keys == w.regions.Keys && w'.known.Keys == w.known.Keys
    requires forall x :: x in w.regions && x in w.known && x != r ==> w'.regions[x] == w.regions[x] && w'.known[x] == w.known[x]
    requires r in w'.regions && r in w'.known ==> SettledIn(w'.regions[r].replica, w'.known[r], key)
    requires forall s :: s in w'.snaps ==> s in w.snaps || SettledIn(s.replica, s.known, key)
    ensures AllSettled(w', key)
  {
    hide SettledIn;
  }

  lemma SettledStep(w: World, r: string, step: Step, key: string)
    requires Enabled(w, r, step) && AllSettled(w, key)
    ensures AllSettled(Next(w, r, step), key)
  {
    hide Act, Handle, Absorb, SettledIn, AllSettled, Effective, Bodies, Emit;
    match step
    case Mutate(a) => SettledMutate(w, r, a, key);
    case Retract(room, id) => SettledQuiet(w, r, step, key);
    case Deliver(op, wall) => SettledDeliver(w, r, op, wall, key);
    case Capture => SettledQuiet(w, r, step, key);
    case Pull(s) => SettledPull(w, r, s, key);
  }

  lemma SettledQuiet(w: World, r: string, step: Step, key: string)
    requires Enabled(w, r, step) && (step.Retract? || step.Capture?) && AllSettled(w, key)
    ensures AllSettled(Next(w, r, step), key)
  {
    hide SettledIn;
    SettledAt(w, Next(w, r, step), r, key);
  }

  lemma SettledMutate(w: World, r: string, a: Local, key: string)
    requires Enabled(w, r, Mutate(a)) && AllSettled(w, key)
    ensures AllSettled(Next(w, r, Mutate(a)), key)
  {
    ActDoes(w.regions[r], a);
    hide Act, ActFacts, SettledIn;
    var (st', op) := Act(w.regions[r], a);
    SettledAct(w.regions[r], st', op, w.known[r], key);
    SettledAt(w, Next(w, r, Mutate(a)), r, key);
  }

  lemma SettledAct(st: State, st': State, op: Option<Op>, known: set<Op>, key: string)
    requires ActFacts(st, st', op) && SettledIn(st.replica, known, key)
    ensures SettledIn(st'.replica, known + OpSet(op), key)
  {
    assert known + {} == known;
    if op.Some? {
      hide ApplyOp, SettledIn, WellStamped;
      SettledApply(st.replica, known, op.value, key);
    }
  }

  lemma SettledDeliver(w: World, r: string, op: Op, wall: nat, key: string)
    requires Enabled(w, r, Deliver(op, wall)) && AllSettled(w, key)
    ensures AllSettled(Next(w, r, Deliver(op, wall)), key)
  {
    var st, known := w.regions[r], w.known[r];
    assert known + {} == known;
    if !Effective(Bodies(known), op.body) { NotASession(st.replica, known, op, key); }
    hide ApplyOp, SettledIn, Effective, Bodies, Merge;
    SettledApply(st.replica, known, op, key);
    SettledAt(w, Next(w, r, Deliver(op, wall)), r, key);
  }

  lemma SettledPull(w: World, r: string, s: Snapshot, key: string)
    requires Enabled(w, r, Pull(s)) && AllSettled(w, key)
    ensures AllSettled(Next(w, r, Pull(s)), key)
  {
    hide SettledIn, MergeReplicas, Merge;
    SettledMerge(w.regions[r].replica, w.known[r], s.replica, s.known, key);
    SettledAt(w, Next(w, r, Pull(s)), r, key);
  }

  lemma NotASession(rep: Replica, known: set<Op>, op: Op, key: string)
    requires !Effective(Bodies(known), op.body) && SettledIn(rep, known, key)
    ensures SettledIn(ApplyOp(rep, op), known, key)
  {
    assert !ForSession(op.body);
    hide Settled, Effective, Bodies, Writes;
    SessionsAfter(rep, op, key);
  }

  lemma {:induction false} SettledRun(ws: seq<World>, key: string)
    requires IsRun(ws)
    ensures AllSettled(ws[|ws| - 1], key)
    decreases |ws|
  {
    if |ws| == 1 {
      assert Writes({}, key) == {};
    } else {
      var r, step := LastStep(ws);
      hide IsRun, AllSettled, Next, Enabled;
      SettledRun(ws[..|ws| - 1], key);
      SettledStep(ws[|ws| - 2], r, step, key);
    }
  }

  // In every run, with any number of writers: a region whose taken-in writes of a key have one that
  // beats all the others holds that one, and none of them is causally newer.
  lemma HoldsDominant(ws: seq<World>, r: string, key: string, best: LwwMap.Entry)
    requires IsRun(ws) && r in ws[|ws| - 1].regions && r in ws[|ws| - 1].known
    requires LwwMap.Dominates(best, Writes(ws[|ws| - 1].known[r], key))
    ensures
      var w := ws[|ws| - 1];
      LwwMap.Lookup(w.regions[r].replica.sessions, key) == Some(best)
      && forall e :: e in Writes(w.known[r], key) ==> Compare(best.clock, e.clock) != Before
  {
    var w := ws[|ws| - 1];
    SettledRun(ws, key);
    assert SettledIn(w.regions[r].replica, w.known[r], key);
    LwwMap.DominantSettles(best, Writes(w.known[r], key), [best]);
  }

  // So a key reads as absent when the write that beats the others is a deletion, and otherwise as
  // the text of that write.
  lemma ReadsDominant(ws: seq<World>, r: string, op: Op)
    requires IsRun(ws) && r in ws[|ws| - 1].regions && r in ws[|ws| - 1].known
    requires op in ws[|ws| - 1].known[r] && ForSession(op.body)
    requires LwwMap.Dominates(EntryOf(op), Writes(ws[|ws| - 1].known[r], op.body.key))
    ensures
      LwwMap.Get(ws[|ws| - 1].regions[r].replica.sessions, op.body.key)
      == if op.body.SessionDelete? then None else Some(op.body.value)
  {
    HoldsDominant(ws, r, op.body.key, EntryOf(op));
    hide IsRun, LwwMap.Dominates, Writes;
  }

  // A key of which a region took in writes of at most two regions converges, in a world of any size:
  // regions that took in the same writes of it hold the same entry, never one causally older than a
  // write seen.
  lemma SessionsConverge(ws: seq<World>, key: string, u: string, v: string, a: string, b: string)
    requires IsRun(ws) && a in ws[|ws| - 1].regions && a in ws[|ws| - 1].known
    requires b in ws[|ws| - 1].regions && b in ws[|ws| - 1].known
    requires LwwMap.TwoWriters(Writes(ws[|ws| - 1].known[a], key), u, v)
    ensures
      var w := ws[|ws| - 1];
      var x, y := LwwMap.Lookup(w.regions[a].replica.sessions, key), LwwMap.Lookup(w.regions[b].replica.sessions, key);
      && (Writes(w.known[a], key) == Writes(w.known[b], key) ==> x == y)
      && (x.Some? <==> Writes(w.known[a], key) != {})
      && (forall e :: e in Writes(w.known[a], key) && x.Some? ==> Compare(x.value.clock, e.clock) != Before)
  {
    var w := ws[|ws| - 1];
    SettledRun(ws, key);
    InvRun(ws);
    assert SettledIn(w.regions[a].replica, w.known[a], key);
    assert SettledIn(w.regions[b].replica, w.known[b], key);
    var es := Writes(w.known[a], key);
    if es != {} {
      WritesWritten(w, w.known[a], key);
      hide IsRun, Inv, Writes, AllSettled, SettledIn, Compare;
      var best := LwwMap.TwoWritersDominated(es, u, v);
      HoldsDominant(ws, a, key, best);
      if Writes(w.known[b], key) == es { HoldsDominant(ws, b, key, best); }
    }
  }

  // --------------------------------------------------- two regions reconcile

  // Both regions are captured, then each pulls what the other was.
  ghost function Exchange(w: World, a: string, b: string): World
    requires Shape(w) && a in w.regions && b in w.regions
  {
    var x := Snapshot(w.regions[a].replica, w.regions[a].clock, w.known[a], w.delivered[a]);
    var y := Snapshot(w.regions[b].replica, w.regions[b].clock, w.known[b], w.delivered[b]);
    Next(Next(Next(Next(w, a, Capture), b, Capture), a, Pull(y)), b, Pull(x))
  }

  // In every run and with any number of writers, two regions that pull each other's state hold
  // the same rooms, fences and sessions.
  lemma ExchangeAgrees(ws: seq<World>, a: string, b: string)
    requires IsRun(ws) && a != b && a in ws[|ws| - 1].regions && b in ws[|ws| - 1].regions
    ensures Shape(ws[|ws| - 1])
    ensures
      var w := Exchange(ws[|ws| - 1], a, b);
      a in w.regions && b in w.regions &&
      var x, y := w.regions[a].replica, w.regions[b].replica;
      x.sessions == y.sessions && x.fences == y.fences && forall room :: RoomOf(x.rooms, room) == RoomOf(y.rooms, room)
  {
    var w := ws[|ws| - 1];
    InvRun(ws);
    var ra, rb := w.regions[a].replica, w.regions[b].replica;
    ExchangeMerges(w, a, b);
    StoredComparable(ws, a, b);
    MergesAgree(w, a, b);
    hide Inv, IsRun, Exchange, MergeReplicas;
    SessionsMerge(ra, rb);
    LwwMap.MergeBothWays(ra.sessions, rb.sessions);
  }

  lemma ExchangeMerges(w: World, a: string, b: string)
    requires Shape(w) && a != b && a in w.regions && b in w.regions
    ensures
      var w' := Exchange(w, a, b);
      && a in w'.regions && w'.regions[a].replica == MergeReplicas(w.regions[a].replica, w.regions[b].replica)
      && b in w'.regions && w'.regions[b].replica == MergeReplicas(w.regions[b].replica, w.regions[a].replica)
  {
    hide MergeReplicas, Merge;
  }

  lemma MergesAgree(w: World, a: string, b: string)
    requires Inv(w) && a in w.regions && b in w.regions
    ensures
      var x, y := MergeReplicas(w.regions[a].replica, w.regions[b].replica), MergeReplicas(w.regions[b].replica, w.regions[a].replica);
      x.fences == y.fences && forall room :: RoomOf(x.rooms, room) == RoomOf(y.rooms, room)
  {
    var ra, rb := w.regions[a].replica, w.regions[b].replica;
    SentConsistent(w, w.known[a] + w.known[b]);
    hide Consistent, MergeReplicas, Faithful, ClocksBounded, StampsIssued, SessionsOrdered;
    FaithfulMerge(ra, w.known[a], rb, w.known[b]);
    assert w.known[b] + w.known[a] == w.known[a] + w.known[b];
    FaithfulMerge(rb, w.known[b], ra, w.known[a]);
    ReplicasAgree(MergeReplicas(ra, rb), MergeReplicas(rb, ra), w.known[a] + w.known[b]);
  }

  lemma ReplicasAgree(x: Replica, y: Replica, known: set<Op>)
    requires Faithful(x, known) && Faithful(y, known) && Consistent(Bodies(known))
    ensures x.fences == y.fences && forall room :: RoomOf(x.rooms, room) == RoomOf(y.rooms, room)
  {
    hide Represents, RemovesHitTargets, Consistent;
    RepresentsUnique(x, y, Bodies(known));
  }

  lemma SessionsMerge(x: Replica, y: Replica)
    ensures MergeReplicas(x, y).sessions == LwwMap.MergeMaps(x.sessions, y.sessions)
    ensures MergeReplicas(y, x).sessions == LwwMap.MergeMaps(y.sessions, x.sessions)
  {
  }

  // What two regions hold under one key are two sent writes, hence comparable.
  lemma StoredComparable(ws: seq<World>, a: string, b: string)
    requires IsRun(ws)
    requires a in ws[|ws| - 1].regions && a in ws[|ws| - 1].known && b in ws[|ws| - 1].regions && b in ws[|ws| - 1].known
    ensures
      var m, n := ws[|ws| - 1].regions[a].replica.sessions, ws[|ws| - 1].regions[b].replica.sessions;
      forall key :: key in m && key in n ==> LwwMap.Comparable(m[key], n[key])
  {
    InvRun(ws);
    var w := ws[|ws| - 1];
    var m, n := w.regions[a].replica.sessions, w.regions[b].replica.sessions;
    forall key | key in m && key in n ensures LwwMap.Comparable(m[key], n[key]) {
      SettledRun(ws, key);
      hide IsRun, Inv, LwwMap.Comparable;
      HeldComparable(w, a, b, key);
    }
  }

  lemma HeldComparable(w: World, a: string, b: string, key: string)
    requires Inv(w) && AllSettled(w, key)
    requires a in w.regions && a in w.known && b in w.regions && b in w.known
    requires key in w.regions[a].replica.sessions && key in w.regions[b].replica.sessions
    ensures LwwMap.Comparable(w.regions[a].replica.sessions[key], w.regions[b].replica.sessions[key])
  {
    WritesWritten(w, w.known[a] + w.known[b], key);
    assert SettledIn(w.regions[a].replica, w.known[a], key);
    assert SettledIn(w.regions[b].replica, w.known[b], key);
    hide Inv, AllSettled, Writes, LwwMap.Comparable, LwwMap.Dominates;
    WritesUnion(w.known[a], w.known[b], key);
  }
}
