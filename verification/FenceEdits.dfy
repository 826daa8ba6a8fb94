// When a local geofence edit takes effect: exactly for the stored marks of the fence,
// and over every run for the steps that put marks ahead of the clock.
module FenceEdits {
  import opened Wrappers
  import opened Region
  import opened World
  import Order
  import Hlc
  import VectorClock
  import OrSet
  import Rga
  import LwwMap
  import FenceSet

  // The mark the region gives its next edit.
  function NextMark(st: State, wall: nat): FenceSet.Mark {
    FenceSet.Mark(Hlc.AfterLocal(st.hlc, wall), st.id)
  }

  // Both marks stored for the fence are below the next edit's, or the edit is already stored.
  predicate SyncWins(st: State, fence: string, definition: string, wall: nat) {
    var s, mark := st.replica.fences, NextMark(st, wall);
    (fence in s.adds ==> FenceSet.MarkLess(s.adds[fence].mark, mark) || s.adds[fence] == FenceSet.Upsert(mark, definition))
    && (fence in s.removes ==> FenceSet.MarkLess(s.removes[fence], mark))
  }

  // The edit is stored and the fence live with it if and only if no stored mark of it stands in the way.
  lemma SyncTakesEffectIff(st: State, fence: string, definition: string, wall: nat)
    ensures
      var s := SyncGeofence(st, fence, definition, wall).0.replica.fences;
      (fence in s.adds && s.adds[fence] == FenceSet.Upsert(NextMark(st, wall), definition) && FenceSet.Has(s, fence))
      <==> SyncWins(st, fence, definition, wall)
  {
    FenceSet.MarkOrder();
    hide FenceSet.MarkLess, Hlc.AfterLocal;
  }

  // The stored upsert is not above the next mark, or was already removed under a mark not below it.
  predicate RemoveWins(st: State, fence: string, wall: nat) {
    var s := st.replica.fences;
    fence in s.adds ==> !FenceSet.MarkLess(NextMark(st, wall), s.adds[fence].mark) || !FenceSet.Has(s, fence)
  }

  lemma RemoveTakesEffectIff(st: State, fence: string, wall: nat)
    ensures !FenceSet.Has(RemoveGeofence(st, fence, wall).0.replica.fences, fence) <==> RemoveWins(st, fence, wall)
  {
    FenceSet.MarkOrder();
    hide FenceSet.MarkLess, Hlc.AfterLocal;
  }

  // ------------------------------------------------------- marks and the clock

  predicate Ahead(st: State, m: FenceSet.Mark) {
    Hlc.Less(st.hlc, m.hlc)
  }

  // No stored fence mark is ahead of the region's clock.
  ghost predicate FencesBehind(st: State) {
    && (forall f :: f in st.replica.fences.adds ==> !Ahead(st, st.replica.fences.adds[f].mark))
    && (forall f :: f in st.replica.fences.removes ==> !Ahead(st, st.replica.fences.removes[f]))
  }

  // Then every local edit takes effect, and leaves the marks behind.
  lemma BehindEdits(st: State, fence: string, definition: string, wall: nat)
    requires FencesBehind(st)
    ensures SyncWins(st, fence, definition, wall) && RemoveWins(st, fence, wall)
    ensures FencesBehind(SyncGeofence(st, fence, definition, wall).0)
    ensures FencesBehind(RemoveGeofence(st, fence, wall).0)
  {
    Hlc.Advances(st.hlc, st.hlc, wall);
    hide Order.StringLess, Hlc.AfterLocal;
  }

  // A stored mark of that kind is at least as new.
  predicate UpsertOvertaken(s: FenceSet.State, f: string, m: FenceSet.Mark) {
    f in s.adds && !FenceSet.MarkLess(s.adds[f].mark, m)
  }

  predicate RemoveOvertaken(s: FenceSet.State, f: string, m: FenceSet.Mark) {
    f in s.removes && !FenceSet.MarkLess(s.removes[f], m)
  }

  predicate Overtaken(s: FenceSet.State, b: Body)
    requires b.GeofenceUpsert? || b.GeofenceRemove?
  {
    if b.GeofenceUpsert? then UpsertOvertaken(s, b.fence, b.mark) else RemoveOvertaken(s, b.fence, b.mark)
  }

  // The stamp ties a wall clock that is ahead of the local reading, with a counter above 0.
  predicate Ties(st: State, remote: Hlc.Stamp, wall: nat) {
    remote.l == wall && wall > st.hlc.l && remote.c > 0
  }

  // Receiving a fence operation keeps the marks behind if and only if it is overtaken or does not tie.
  lemma ReceiveIff(st: State, op: Op, wall: nat)
    requires FencesBehind(st) && op.hlc.Some?
    requires op.body.GeofenceUpsert? || op.body.GeofenceRemove?
    requires op.body.mark.hlc == op.hlc.value
    ensures FencesBehind(Handle(st, op, wall)) <==> Overtaken(st.replica.fences, op.body) || !Ties(st, op.hlc.value, wall)
  {
    var st', remote := Handle(st, op, wall), op.hlc.value;
    Hlc.Advances(st.hlc, remote, wall);
    assert Hlc.Less(st'.hlc, remote) <==> Ties(st, remote, wall);
    hide Hlc.AfterRemote, LwwMap.Apply, ApplyRoom, VectorClock.Merge, FenceSet.MarkLess;
    var f := op.body.fence;
    if !Overtaken(st.replica.fences, op.body) {
      if op.body.GeofenceUpsert? {
        assert st'.replica.fences.adds[f].mark == op.body.mark;
      } else {
        assert st'.replica.fences.removes[f] == op.body.mark;
      }
    }
  }

  // Any other operation leaves the fences alone and does not turn the clock back.
  lemma ReceiveOther(st: State, op: Op, wall: nat)
    requires FencesBehind(st) && !op.body.GeofenceUpsert? && !op.body.GeofenceRemove?
    ensures FencesBehind(Handle(st, op, wall))
  {
    if op.hlc.Some? { Hlc.Advances(st.hlc, op.hlc.value, wall); }
    hide Hlc.AfterRemote, LwwMap.Apply, ApplyRoom, VectorClock.Merge;
  }

  // Every mark of the snapshot is overtaken here or not ahead of the clock here.
  ghost predicate PullHarmless(st: State, theirs: FenceSet.State) {
    && (forall f :: f in theirs.adds ==>
          UpsertOvertaken(st.replica.fences, f, theirs.adds[f].mark) || !Ahead(st, theirs.adds[f].mark))
    && (forall f :: f in theirs.removes ==>
          RemoveOvertaken(st.replica.fences, f, theirs.removes[f]) || !Ahead(st, theirs.removes[f]))
  }

  // A merged snapshot brings marks but does not touch the clock.
  lemma PullIff(st: State, theirs: Replica, clock: VectorClock.Clock)
    requires FencesBehind(st)
    ensures FencesBehind(Absorb(st, theirs, clock)) <==> PullHarmless(st, theirs.fences)
  {
    var st' := Absorb(st, theirs, clock);
    hide FenceSet.MarkLess, LwwMap.MergeMaps, MergeRoomMaps, VectorClock.Merge, Ahead;
    if FencesBehind(st') {
      forall f | f in theirs.fences.adds && !UpsertOvertaken(st.replica.fences, f, theirs.fences.adds[f].mark)
        ensures !Ahead(st, theirs.fences.adds[f].mark) {
        assert st'.replica.fences.adds[f] == theirs.fences.adds[f];
        AheadSame(st, st', theirs.fences.adds[f].mark);
      }
      forall f | f in theirs.fences.removes && !RemoveOvertaken(st.replica.fences, f, theirs.fences.removes[f])
        ensures !Ahead(st, theirs.fences.removes[f]) {
        assert st'.replica.fences.removes[f] == theirs.fences.removes[f];
        AheadSame(st, st', theirs.fences.removes[f]);
      }
    }
    if PullHarmless(st, theirs.fences) {
      forall f | f in st'.replica.fences.adds ensures !Ahead(st', st'.replica.fences.adds[f].mark) {
        AheadSame(st, st', st'.replica.fences.adds[f].mark);
      }
      forall f | f in st'.replica.fences.removes ensures !Ahead(st', st'.replica.fences.removes[f]) {
        AheadSame(st, st', st'.replica.fences.removes[f]);
      }
    }
  }

  lemma AheadSame(st: State, st': State, m: FenceSet.Mark)
    requires st.hlc == st'.hlc
    ensures Ahead(st, m) <==> Ahead(st', m)
  {
  }

  // ------------------------------------------------------------- every step

  // The step does not put a fence mark ahead of the clock of the region that takes it.
  ghost predicate Harmless(w: World, r: string, step: Step)
    requires r in w.regions
  {
    var st := w.regions[r];
    match step
    case Deliver(op, wall) =>
      (op.body.GeofenceUpsert? || op.body.GeofenceRemove?) && op.hlc.Some? ==>
        Overtaken(st.replica.fences, op.body) || !Ties(st, op.hlc.value, wall)
    case Pull(s) => PullHarmless(st, s.replica.fences)
    case _ => true
  }

  // Local actions keep the marks behind.
  lemma LocalBehind(st: State, a: Local)
    requires FencesBehind(st)
    ensures FencesBehind(Act(st, a).0)
  {
    if a.Fence? {
      BehindEdits(st, a.fence, a.text, a.wall);
    } else if a.Unfence? {
      BehindEdits(st, a.fence, "", a.wall);
    } else {
      if a.Say? { Hlc.Advances(st.hlc, st.hlc, a.wall); }
      hide Hlc.AfterLocal, Hlc.MessageId, Rga.Insert, LwwMap.Apply, OriginFor, OrSet.Add, OrSet.Retire;
    }
  }

  // The only steps that put marks ahead are ties on receipt and pulls of newer marks.
  lemma StepIff(w: World, r: string, step: Step)
    requires Inv(w) && Enabled(w, r, step) && FencesBehind(w.regions[r])
    ensures r in Next(w, r, step).regions && (FencesBehind(Next(w, r, step).regions[r]) <==> Harmless(w, r, step))
  {
    var st := w.regions[r];
    if step.Deliver? { assert WellStamped(step.op); }
    hide Inv, Handle, Absorb, Act, Emit, FencesBehind, Overtaken, PullHarmless, Bodies, Effective;
    match step
    case Mutate(a) => LocalBehind(st, a);
    case Deliver(op, wall) =>
      if op.body.GeofenceUpsert? || op.body.GeofenceRemove? { ReceiveIff(st, op, wall); } else { ReceiveOther(st, op, wall); }
    case Pull(s) => PullIff(st, s.replica, s.clock);
    case _ =>
  }

  ghost predicate HarmlessFollows(w: World, w': World, r: string) {
    exists x, step :: Enabled(w, x, step) && w' == Next(w, x, step) && (x == r ==> Harmless(w, x, step))
  }

  // Every step that region r takes in the run is harmless.
  ghost predicate HarmlessRun(ws: seq<World>, r: string) {
    forall i :: 0 < i < |ws| ==> HarmlessFollows(ws[i - 1], ws[i], r)
  }

  lemma HarmlessKeeps(w: World, w': World, r: string)
    requires Inv(w) && r in w.regions && FencesBehind(w.regions[r]) && HarmlessFollows(w, w', r)
    ensures r in w'.regions && FencesBehind(w'.regions[r])
  {
    hide Inv, FencesBehind, Harmless;
    var x, step :| Enabled(w, x, step) && w' == Next(w, x, step) && (x == r ==> Harmless(w, x, step));
    if x == r { StepIff(w, r, step); }
  }

  // In every run in which region r never receives a tie and never pulls a newer mark, each local
  // fence edit of r takes effect at once.
  lemma {:induction false} EditsTakeEffect(ws: seq<World>, r: string, fence: string, definition: string, wall: nat)
    requires IsRun(ws) && HarmlessRun(ws, r) && r in ws[0].regions
    ensures r in ws[|ws| - 1].regions && FencesBehind(ws[|ws| - 1].regions[r])
    ensures
      var st := ws[|ws| - 1].regions[r];
      SyncWins(st, fence, definition, wall) && RemoveWins(st, fence, wall)
    decreases |ws|
  {
    if |ws| > 1 {
      var init := ws[..|ws| - 1];
      RunPrefix(ws, |ws| - 2);
      assert ws[..|ws| - 2 + 1] == init;
      forall i | 0 < i < |init| ensures HarmlessFollows(init[i - 1], init[i], r) {
        assert HarmlessFollows(ws[i - 1], ws[i], r);
      }
      assert HarmlessFollows(ws[|ws| - 2], ws[|ws| - 1], r);
      InvRun(init);
      hide Inv, IsRun, HarmlessFollows, FencesBehind, SyncWins, RemoveWins;
      EditsTakeEffect(init, r, fence, definition, wall);
      HarmlessKeeps(ws[|ws| - 2], ws[|ws| - 1], r);
    }
    hide Inv, IsRun, HarmlessRun, SyncWins, RemoveWins;
    BehindEdits(ws[|ws| - 1].regions[r], fence, definition, wall);
  }

  ghost predicate AlwaysBehind(ws: seq<World>, r: string) {
    forall i :: 0 <= i < |ws| ==> r in ws[i].regions && FencesBehind(ws[i].regions[r])
  }

  lemma AlwaysSplit(ws: seq<World>, r: string)
    requires |ws| > 1
    ensures AlwaysBehind(ws, r) <==>
            AlwaysBehind(ws[..|ws| - 1], r) && r in ws[|ws| - 1].regions && FencesBehind(ws[|ws| - 1].regions[r])
    ensures HarmlessRun(ws, r) <==> HarmlessRun(ws[..|ws| - 1], r) && HarmlessFollows(ws[|ws| - 2], ws[|ws| - 1], r)
  {
    hide FencesBehind, HarmlessFollows;
    var init := ws[..|ws| - 1];
    assert forall i :: 0 <= i < |init| ==> init[i] == ws[i];
    if HarmlessRun(ws, r) {
      forall i | 0 < i < |init| ensures HarmlessFollows(init[i - 1], init[i], r) { assert HarmlessFollows(ws[i - 1], ws[i], r); }
    }
    if HarmlessRun(init, r) && HarmlessFollows(ws[|ws| - 2], ws[|ws| - 1], r) {
      forall i | 0 < i < |ws| ensures HarmlessFollows(ws[i - 1], ws[i], r) {
        if i < |init| { assert HarmlessFollows(init[i - 1], init[i], r); }
      }
    }
  }

  // Along a run no mark of a region is ever ahead of its clock if and only if it takes no tie and
  // pulls no newer mark.
  lemma {:induction false} AlwaysBehindIff(ws: seq<World>, r: string)
    requires IsRun(ws) && r in ws[0].regions
    ensures AlwaysBehind(ws, r) <==> HarmlessRun(ws, r)
    decreases |ws|
  {
    if |ws| > 1 {
      var init, w, w' := ws[..|ws| - 1], ws[|ws| - 2], ws[|ws| - 1];
      var x, step := LastStep(ws);
      InvRun(init);
      AlwaysBehindIff(init, r);
      AlwaysSplit(ws, r);
      if AlwaysBehind(init, r) {
        assert r in init[|init| - 1].regions && FencesBehind(init[|init| - 1].regions[r]);
        hide Inv, IsRun, AlwaysBehind, HarmlessRun, FencesBehind, Harmless;
        StepHarmlessIff(w, x, step, r);
        if HarmlessFollows(w, w', r) { HarmlessKeeps(w, w', r); }
      }
    }
  }

  lemma StepHarmlessIff(w: World, x: string, step: Step, r: string)
    requires Inv(w) && Enabled(w, x, step) && r in w.regions && FencesBehind(w.regions[r])
    ensures
      var w' := Next(w, x, step);
      r in w'.regions && (FencesBehind(w'.regions[r]) ==> HarmlessFollows(w, w', r))
  {
    hide Inv, FencesBehind, Harmless;
    if x == r { StepIff(w, r, step); }
  }
}
