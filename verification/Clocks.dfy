// What every run of the regions guarantees about their clocks and counters.
module Clocks {
  import opened Wrappers
  import opened VectorClock
  import opened Region
  import opened World
  import Order
  import Hlc
  import OrSet
  import Rga
  import LwwMap
  import FenceSet

  // ------------------------------------------------ time never runs ahead

  // The wall clock the step reads is at most `limit`.
  predicate ReadsWithin(step: Step, limit: nat) {
    match step
    case Mutate(a) => (a.Say? || a.Fence? || a.Unfence?) ==> a.wall <= limit
    case Deliver(_, wall) => wall <= limit
    case _ => true
  }

  ghost predicate FollowsWithin(w: World, w': World, limit: nat) {
    exists r, step :: Enabled(w, r, step) && w' == Next(w, r, step) && ReadsWithin(step, limit)
  }

  // No wall clock shows more than `limit` during the run.
  ghost predicate RunWithin(ws: seq<World>, limit: nat) {
    forall i :: 0 < i < |ws| ==> FollowsWithin(ws[i - 1], ws[i], limit)
  }

  ghost predicate InTime(w: World, limit: nat) {
    && (forall r :: r in w.regions ==> w.regions[r].hlc.l <= limit)
    && (forall op :: op in w.sent && op.hlc.Some? ==> op.hlc.value.l <= limit)
  }

  // In every run no clock reading and no stamp sent is ever ahead of the largest wall clock read by
  // any region.
  lemma {:induction false} NeverAhead(ws: seq<World>, limit: nat)
    requires IsRun(ws) && RunWithin(ws, limit)
    ensures InTime(ws[|ws| - 1], limit)
    decreases |ws|
  {
    if |ws| > 1 {
      var init := ws[..|ws| - 1];
      RunPrefix(ws, |ws| - 2);
      assert ws[..|ws| - 2 + 1] == init;
      forall i | 0 < i < |init| ensures FollowsWithin(init[i - 1], init[i], limit) {
        assert FollowsWithin(ws[i - 1], ws[i], limit);
      }
      assert FollowsWithin(ws[|ws| - 2], ws[|ws| - 1], limit);
      hide IsRun, FollowsWithin, InTime;
      NeverAhead(init, limit);
      StaysInTime(ws[|ws| - 2], ws[|ws| - 1], limit);
    }
  }

  lemma StaysInTime(w: World, w': World, limit: nat)
    requires InTime(w, limit) && FollowsWithin(w, w', limit)
    ensures InTime(w', limit)
  {
    hide Act, Handle;
    var r, step :| Enabled(w, r, step) && w' == Next(w, r, step) && ReadsWithin(step, limit);
    match step
    case Mutate(a) => ActInTime(w.regions[r], a, limit);
    case Deliver(op, wall) => HandleInTime(w.regions[r], op, wall, limit);
    case _ =>
      hide MergeReplicas, Merge;
  }

  lemma ActInTime(st: State, a: Local, limit: nat)
    requires st.hlc.l <= limit && ReadsWithin(Mutate(a), limit)
    ensures
      var (st', op) := Act(st, a);
      st'.hlc.l <= limit && (op.Some? && op.value.hlc.Some? ==> op.value.hlc.value.l <= limit)
  {
    if a.Say? || a.Fence? || a.Unfence? { Hlc.LocalIsEarliest(st.hlc, a.wall); }
    hide Hlc.AfterLocal, Hlc.MessageId, OriginFor, Rga.Insert, LwwMap.Apply, FenceSet.Add, FenceSet.Remove, OrSet.Add, OrSet.Retire;
  }

  lemma HandleInTime(st: State, op: Op, wall: nat, limit: nat)
    requires st.hlc.l <= limit && wall <= limit && (op.hlc.Some? ==> op.hlc.value.l <= limit)
    ensures Handle(st, op, wall).hlc.l <= limit
  {
    if op.hlc.Some? { Hlc.RemoteIsEarliest(st.hlc, op.hlc.value, wall); }
    hide Hlc.AfterRemote, ApplyOp, Merge;
  }

  // ------------------------------------------------ replies

  // What a region says after it received a message is stamped after that message, and so sorts
  // after it, unless the message tied a wall clock that led the region and has not moved on since.
  lemma RepliesFollow(st: State, op: Op, wall: nat, next: nat, n: nat)
    requires op.hlc.Some? && op.body.MessageAppend? && op.body.id == Hlc.MessageId(op.hlc.value, op.region, n)
    ensures
      var st', remote := Handle(st, op, wall), op.hlc.value;
      var stamp := Hlc.AfterLocal(st'.hlc, next);
      (Hlc.Less(remote, stamp) <==> !(remote.l == wall > st.hlc.l && remote.c > 0 && next <= wall))
      && (Hlc.Less(remote, stamp) && Hlc.Fits(stamp) ==>
            Order.StringLess(op.body.id, Hlc.MessageId(stamp, st'.id, st'.localSeq + 1)))
  {
    hide Hlc.MessageId, ApplyOp, Merge, Order.StringLess, Hlc.Pow10;
    var st', remote := Handle(st, op, wall), op.hlc.value;
    var stamp := Hlc.AfterLocal(st'.hlc, next);
    Hlc.FieldWidths();
    if Hlc.Less(remote, stamp) && Hlc.Fits(stamp) {
      Hlc.IdOrder(remote, op.region, n, stamp, st'.id, st'.localSeq + 1);
    }
  }

  // ------------------------------------------------ counters count

  // The operations whose sending moves the sender's own counter.
  predicate Ticks(b: Body) {
    b.MessageAppend? || b.SessionUpdate? || b.GlobalConfig? || b.GeofenceUpsert? || b.GeofenceRemove?
  }

  function Ticked(sent: set<Op>, r: string): set<Op> {
    set op | op in sent && op.region == r && Ticks(op.body)
  }

  function Said(sent: set<Op>, r: string): set<Op> {
    set op | op in sent && op.region == r && op.body.MessageAppend?
  }

  ghost predicate CountsAt(w: World, r: string)
    requires r in w.regions
  {
    At(w.regions[r].clock, r) == |Ticked(w.sent, r)| && w.regions[r].localSeq == |Said(w.sent, r)|
  }

  ghost predicate Counted(w: World) {
    forall r :: r in w.regions ==> CountsAt(w, r)
  }

  // How a local action moves the two counters.
  lemma ActCounts(st: State, a: Local)
    ensures
      var (st', op) := Act(st, a);
      && st'.id == st.id && (op.Some? ==> op.value.region == st.id && op.value.clock == st'.clock)
      && (if op.Some? && Ticks(op.value.body) then At(st'.clock, st.id) == At(st.clock, st.id) + 1
          else st'.clock == st.clock)
      && st'.localSeq == st.localSeq + if op.Some? && op.value.body.MessageAppend? then 1 else 0
  {
    hide Hlc.AfterLocal, Hlc.MessageId, OriginFor, Rga.Insert, LwwMap.Apply, FenceSet.Add, FenceSet.Remove, OrSet.Add, OrSet.Retire;
  }

  // An operation that moves the counter is a new one, and joins the sender's set only.
  lemma OneMoreSent(sent: set<Op>, op: Op, r: string)
    ensures Ticked(sent + {op}, r) == Ticked(sent, r) + if op.region == r && Ticks(op.body) then {op} else {}
    ensures Said(sent + {op}, r) == Said(sent, r) + if op.region == r && op.body.MessageAppend? then {op} else {}
  {
  }

  lemma ActKeepsCount(w: World, r: string, a: Local)
    requires Inv(w) && Enabled(w, r, Mutate(a)) && Counted(w)
    ensures Counted(Next(w, r, Mutate(a)))
  {
    hide Act, Inv, Counted, Ticks, Bodies, Effective, Ticked, Said;
    var (st', op) := Act(w.regions[r], a);
    ActCounts(w.regions[r], a);
    IdOf(w, r);
    var w' := Next(w, r, Mutate(a));
    if op.Some? && op.value in w.sent { SentBounded(w, op.value, r); }
    if op.Some? {
      NewOpsCount(w, w', r, op.value);
    } else {
      assert w'.sent == w.sent;
      QuietCount(w, w', r);
    }
  }

  lemma IdOf(w: World, r: string)
    requires Inv(w) && r in w.regions
    ensures w.regions[r].id == r
  {
  }

  lemma SentBounded(w: World, op: Op, r: string)
    requires Inv(w) && r in w.regions && op in w.sent
    ensures At(op.clock, r) <= At(w.regions[r].clock, r)
  {
    hide Shape, StampsIssued, AllFaithful, SessionsOrdered;
    assert Bounded(w, op.clock);
    assert At(op.clock, r) <= Own(w, r);
  }

  lemma QuietCount(w: World, w': World, r: string)
    requires Counted(w) && r in w.regions && w'.sent == w.sent && w'.regions.Keys == w.regions.Keys
    requires forall x :: x in w.regions && x != r ==> w'.regions[x] == w.regions[x]
    requires At(w'.regions[r].clock, r) == At(w.regions[r].clock, r) && w'.regions[r].localSeq == w.regions[r].localSeq
    ensures Counted(w')
  {
    hide Ticked, Said;
    forall x | x in w'.regions ensures CountsAt(w', x) { assert CountsAt(w, x); }
  }

  lemma NewOpsCount(w: World, w': World, r: string, op: Op)
    requires Counted(w) && r in w.regions && op.region == r && w'.sent == w.sent + {op}
    requires w'.regions.Keys == w.regions.Keys && forall x :: x in w.regions && x != r ==> w'.regions[x] == w.regions[x]
    requires op in w.sent ==> !Ticks(op.body)
    requires At(w'.regions[r].clock, r) == At(w.regions[r].clock, r) + if Ticks(op.body) then 1 else 0
    requires w'.regions[r].localSeq == w.regions[r].localSeq + if op.body.MessageAppend? then 1 else 0
    ensures Counted(w')
  {
    forall x | x in w'.regions ensures CountsAt(w', x) {
      assert CountsAt(w, x);
      OneMoreSent(w.sent, op, x);
      if x == r && Ticks(op.body) { assert op !in w.sent; }
    }
  }

  lemma StepKeepsCount(w: World, r: string, step: Step)
    requires Inv(w) && Enabled(w, r, step) && Counted(w)
    ensures Counted(Next(w, r, step))
  {
    hide Inv, Counted, Next;
    match step
    case Mutate(a) => ActKeepsCount(w, r, a);
    case Retract(room, id) => RetractKeepsCount(w, r, room, id);
    case Deliver(op, wall) => DeliverKeepsCount(w, r, op, wall);
    case Capture => CaptureKeepsCount(w, r);
    case Pull(s) => PullKeepsCount(w, r, s);
  }

  lemma RetractKeepsCount(w: World, r: string, room: string, id: Rga.Id)
    requires Inv(w) && Enabled(w, r, Retract(room, id)) && Counted(w)
    ensures Counted(Next(w, r, Retract(room, id)))
  {
    hide Inv, Counted;
    IdOf(w, r);
    NewOpsCount(w, Next(w, r, Retract(room, id)), r, Emit(w.regions[r], MessageRemove(room, id), None));
  }

  lemma DeliverKeepsCount(w: World, r: string, op: Op, wall: nat)
    requires Inv(w) && Enabled(w, r, Deliver(op, wall)) && Counted(w)
    ensures Counted(Next(w, r, Deliver(op, wall)))
  {
    hide Inv, Counted, ApplyOp, Bodies, Effective, Hlc.AfterRemote, Ticked, Said;
    SentBounded(w, op, r);
    QuietCount(w, Next(w, r, Deliver(op, wall)), r);
  }

  lemma CaptureKeepsCount(w: World, r: string)
    requires Enabled(w, r, Capture) && Counted(w)
    ensures Counted(Next(w, r, Capture))
  {
    hide Counted;
    QuietCount(w, Next(w, r, Capture), r);
  }

  lemma PullKeepsCount(w: World, r: string, s: Snapshot)
    requires Inv(w) && Enabled(w, r, Pull(s)) && Counted(w)
    ensures Counted(Next(w, r, Pull(s)))
  {
    hide Inv, Counted, MergeReplicas, Ticked, Said;
    SnapBounded(w, s, r);
    QuietCount(w, Next(w, r, Pull(s)), r);
  }

  lemma SnapBounded(w: World, s: Snapshot, r: string)
    requires Inv(w) && r in w.regions && s in w.snaps
    ensures At(s.clock, r) <= At(w.regions[r].clock, r)
  {
    hide Shape, StampsIssued, AllFaithful, SessionsOrdered;
    assert Bounded(w, s.clock);
    assert At(s.clock, r) <= Own(w, r);
  }

  // In every run each region's own counter is the number of messages, session and configuration
  // writes and fence edits it has sent, joins and leaves not counted; and its next message carries
  // the number of messages it has sent, plus one.
  lemma CountersCount(ws: seq<World>, r: string, room: string, text: string, origin: Option<Rga.Id>, wall: nat)
    requires IsRun(ws) && r in ws[|ws| - 1].regions
    ensures
      var w := ws[|ws| - 1];
      var st, said := w.regions[r], |Said(w.sent, r)|;
      At(st.clock, r) == |Ticked(w.sent, r)| && st.localSeq == said
      && Broadcast(st, room, text, origin, wall).1.body
         == MessageAppend(room, Hlc.MessageId(Hlc.AfterLocal(st.hlc, wall), r, said + 1), origin, text)
  {
    RunCounted(ws);
    hide Inv, Next, Enabled;
    InvRun(ws);
    assert CountsAt(ws[|ws| - 1], r);
    IdOf(ws[|ws| - 1], r);
    hide IsRun, Counted, Hlc.MessageId, Hlc.AfterLocal, Rga.Insert;
  }

  lemma {:induction false} RunCounted(ws: seq<World>)
    requires IsRun(ws)
    ensures Counted(ws[|ws| - 1])
    decreases |ws|
  {
    if |ws| == 1 {
      assert forall r :: Ticked({}, r) == {} && Said({}, r) == {};
    } else {
      var r, step := LastStep(ws);
      hide IsRun, Counted, Next, Enabled, Inv;
      RunCounted(ws[..|ws| - 1]);
      InvRun(ws[..|ws| - 1]);
      StepKeepsCount(ws[|ws| - 2], r, step);
    }
  }
}
