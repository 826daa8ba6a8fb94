// The append-only store with optimistic concurrency, and command handlers
// interleaved over it: each reads a snapshot, later the events after it, later
// still appends what it decided.
module EventStore {
  import opened Wrappers
  import opened Collections
  import opened Vehicle

  datatype Snapshot = Snapshot(aggregateId: string, sequence: nat, state: State)

  datatype Store = Store(
    byAggregate: map<string, seq<Event>>, all: seq<Event>, ids: set<string>, snapshots: map<string, Snapshot>)

  const EMPTY := Store(map[], [], {}, map[])

  datatype Result<+T> = Ok(value: T) | Err(reason: string)

  function Log(store: Store, id: string): seq<Event> {
    if id in store.byAggregate then store.byAggregate[id] else []
  }

  function CurrentSequence(log: seq<Event>): nat {
    if log == [] then 0 else log[|log| - 1].sequence
  }

  function IdsOf(events: seq<Event>): set<string> {
    set i | 0 <= i < |events| :: events[i].eventId
  }

  // The store with a batch of one aggregate added.
  function Extend(store: Store, id: string, events: seq<Event>): Store {
    store.(byAggregate := store.byAggregate[id := Log(store, id) + events],
           all := store.all + events, ids := store.ids + IdsOf(events))
  }

  // append(events, { expectedSequence }), for a batch of one aggregate.
  function Append(store: Store, id: string, events: seq<Event>, expected: int): Result<Store> {
    if IdsOf(events) * store.ids != {} then Err("duplicate eventId")
    else if CurrentSequence(Log(store, id)) != expected then Err("concurrency conflict")
    else Ok(Extend(store, id, events))
  }

  // getEvents(id, { fromSequence })
  function EventsFrom(log: seq<Event>, from: nat): seq<Event> {
    if log == [] then []
    else if log[0].sequence >= from then [log[0]] + EventsFrom(log[1..], from)
    else EventsFrom(log[1..], from)
  }

  // getEvents(id, { fromSequence, toSequence }), None for no upper bound.
  function EventsBetween(log: seq<Event>, from: nat, to: Option<nat>): seq<Event> {
    if log == [] then []
    else
      var e := log[|log| - 1];
      EventsBetween(log[..|log| - 1], from, to) + if e.sequence >= from && (to.None? || e.sequence <= to.value) then [e] else []
  }

  function InBounds(from: nat, to: Option<nat>): Event -> bool {
    (e: Event) => from <= e.sequence && (to.Some? ==> e.sequence <= to.value)
  }

  lemma {:induction false} BetweenFilters(log: seq<Event>, from: nat, to: Option<nat>)
    ensures Filters(log, InBounds(from, to), EventsBetween(log, from, to))
  {
    hide Filters;
    var p := InBounds(from, to);
    if log == [] {
      FiltersNone(p);
    } else {
      var n := |log| - 1;
      BetweenFilters(log[..n], from, to);
      FiltersSnoc(log[..n], p, EventsBetween(log[..n], from, to), log[n]);
      assert log == log[..n] + [log[n]];
      assert EventsBetween(log[..n], from, to) + [] == EventsBetween(log[..n], from, to);
    }
  }

  lemma {:induction false} FromSnoc(log: seq<Event>, e: Event, from: nat)
    ensures EventsFrom(log + [e], from) == EventsFrom(log, from) + if e.sequence >= from then [e] else []
  {
    if log == [] {
      assert log + [e] == [e] && [e][1..] == [];
    } else {
      assert (log + [e])[1..] == log[1..] + [e];
      FromSnoc(log[1..], e, from);
    }
  }

  lemma {:induction false} NoUpperBound(log: seq<Event>, from: nat)
    ensures EventsBetween(log, from, None) == EventsFrom(log, from)
  {
    if log != [] {
      var n := |log| - 1;
      NoUpperBound(log[..n], from);
      FromSnoc(log[..n], log[n], from);
      assert log == log[..n] + [log[n]];
    }
  }

  ghost predicate Numbered(log: seq<Event>, id: string, start: nat) {
    forall i :: 0 <= i < |log| ==> log[i].sequence == start + i + 1 && log[i].aggregateId == id
  }

  lemma {:induction false} EventsFromNumbered(log: seq<Event>, id: string, start: nat, from: nat)
    requires Numbered(log, id, start) && start <= from <= start + |log|
    ensures EventsFrom(log, from + 1) == log[from - start..]
    decreases |log|
  {
    if log != [] {
      assert Numbered(log[1..], id, start + 1) by {
        forall i | 0 <= i < |log[1..]| ensures log[1..][i].sequence == start + 1 + i + 1 && log[1..][i].aggregateId == id {
          assert log[1..][i] == log[i + 1];
        }
      }
      if from == start {
        AllFrom(log[1..], id, start + 1, from + 1);
      } else {
        EventsFromNumbered(log[1..], id, start + 1, from);
      }
    }
  }

  lemma {:induction false} AllFrom(log: seq<Event>, id: string, start: nat, from: nat)
    requires Numbered(log, id, start) && from <= start + 1
    ensures EventsFrom(log, from) == log
    decreases |log|
  {
    if log != [] {
      assert Numbered(log[1..], id, start + 1) by {
        forall i | 0 <= i < |log[1..]| ensures log[1..][i].sequence == start + 1 + i + 1 && log[1..][i].aggregateId == id {
          assert log[1..][i] == log[i + 1];
        }
      }
      AllFrom(log[1..], id, start + 1, from);
    }
  }

  // ------------------------------------------------------------- aggregates

  datatype Aggregate = Aggregate(id: string, sequence: nat, nextSeq: nat, state: State)

  function Max(a: nat, b: nat): nat { if a > b then a else b }

  // new AggregateClass(id), then restoreFromSnapshot.
  function Restore(id: string, snap: Option<Snapshot>): Aggregate {
    if snap.Some? then Aggregate(id, snap.value.sequence, snap.value.sequence, snap.value.state)
    else Aggregate(id, 0, 0, INITIAL)
  }

  function ApplyEvent(a: Aggregate, e: Event): Aggregate {
    a.(sequence := Max(a.sequence, e.sequence), nextSeq := Max(a.nextSeq, e.sequence),
       state := Mutate(a.state, e.body, e.timestamp))
  }

  function LoadFromHistory(a: Aggregate, es: seq<Event>): Aggregate
    decreases |es|
  {
    if es == [] then a else LoadFromHistory(ApplyEvent(a, es[0]), es[1..])
  }

  // Identity and time of an event to be recorded: a fresh UUID and the clock.
  datatype Meta = Meta(eventId: string, timestamp: string)

  // record(): the next sequence number, then apply.
  function Stage(a: Aggregate, b: Body, m: Meta): Event {
    Event(m.eventId, a.id, a.nextSeq + 1, m.timestamp, b)
  }

  function StageAll(a: Aggregate, bs: seq<Body>, ms: seq<Meta>): (r: (Aggregate, seq<Event>))
    requires |bs| <= |ms|
    ensures |r.1| == |bs|
    decreases |bs|
  {
    if bs == [] then (a, [])
    else
      var e := Stage(a, bs[0], ms[0]);
      var (a', es) := StageAll(ApplyEvent(a, e), bs[1..], ms[1..]);
      (a', [e] + es)
  }

  // The aggregate stands for the first n events of its log.
  ghost predicate StandsFor(a: Aggregate, log: seq<Event>) {
    a.sequence == a.nextSeq == |log| && a.state == Fold(log)
  }

  lemma {:induction false} LoadStands(a: Aggregate, log: seq<Event>, delta: seq<Event>)
    requires StandsFor(a, log) && Numbered(delta, a.id, |log|)
    ensures StandsFor(LoadFromHistory(a, delta), log + delta) && LoadFromHistory(a, delta).id == a.id
    decreases |delta|
  {
    if delta == [] {
      assert log + delta == log;
    } else {
      var a' := ApplyEvent(a, delta[0]);
      FoldSnoc(INITIAL, log, delta[0]);
      assert StandsFor(a', log + [delta[0]]);
      assert Numbered(delta[1..], a.id, |log| + 1) by {
        forall i | 0 <= i < |delta[1..]|
          ensures delta[1..][i].sequence == |log| + 1 + i + 1 && delta[1..][i].aggregateId == a.id {
          assert delta[1..][i] == delta[i + 1];
        }
      }
      LoadStands(a', log + [delta[0]], delta[1..]);
      assert log + [delta[0]] + delta[1..] == log + delta;
    }
  }

  lemma {:induction false} StageStands(a: Aggregate, log: seq<Event>, bs: seq<Body>, ms: seq<Meta>)
    requires StandsFor(a, log) && |bs| <= |ms|
    ensures
      var (a', es) := StageAll(a, bs, ms);
      && StandsFor(a', log + es) && a'.id == a.id
      && Numbered(es, a.id, |log|) && BodiesOf(es) == bs
    decreases |bs|
  {
    if bs == [] {
      assert log + [] == log;
    } else {
      var e := Stage(a, bs[0], ms[0]);
      FoldSnoc(INITIAL, log, e);
      assert StandsFor(ApplyEvent(a, e), log + [e]);
      StageStands(ApplyEvent(a, e), log + [e], bs[1..], ms[1..]);
      var (a', es) := StageAll(ApplyEvent(a, e), bs[1..], ms[1..]);
      assert log + [e] + es == log + ([e] + es);
      assert Numbered([e] + es, a.id, |log|);
      assert BodiesOf([e] + es) == [bs[0]] + BodiesOf(es);
      assert bs == [bs[0]] + bs[1..];
    }
  }

  // -------------------------------------------------------- interleaved handlers

  datatype Phase =
    | Idle
    | Fetching(id: string, cmd: Command, snap: Option<Snapshot>)
    | Loaded(cmd: Command, agg: Aggregate)

  datatype Commit = Commit(id: string, cmd: Command, metas: seq<Meta>)

  // `pending` are snapshots captured and not yet written; `history` records the
  // successful saves in the order they took effect.
  datatype System = System(store: Store, handlers: map<nat, Phase>, pending: set<Snapshot>, history: seq<Commit>)

  datatype Step =
    | Fetch(h: nat, id: string, cmd: Command, useSnapshots: bool)
    | Load(h: nat)
    | Save(h: nat, metas: seq<Meta>, snapshotDue: bool)
    | WriteSnapshot(snap: Snapshot)

  function PhaseOf(sys: System, h: nat): Phase {
    if h in sys.handlers then sys.handlers[h] else Idle
  }

  predicate Enabled(metres: Metres, sys: System, step: Step) {
    match step
    case Fetch(h, _, _, _) => PhaseOf(sys, h).Idle?
    case Load(h) => PhaseOf(sys, h).Fetching?
    case Save(h, metas, _) =>
      PhaseOf(sys, h).Loaded? && |metas| == |Decide(metres, PhaseOf(sys, h).agg.state, PhaseOf(sys, h).cmd)|
    case WriteSnapshot(snap) => snap in sys.pending
  }

  // The delta, or the whole log, read after the snapshot.
  function LoadAggregate(store: Store, id: string, snap: Option<Snapshot>): Aggregate {
    LoadFromHistory(Restore(id, snap),
      EventsFrom(Log(store, id), if snap.Some? then snap.value.sequence + 1 else 1))
  }

  function Next(metres: Metres, sys: System, step: Step, snapshotEvery: nat): System
    requires Enabled(metres, sys, step) && snapshotEvery > 0
  {
    match step
    case Fetch(h, id, cmd, useSnapshots) =>
      var snap := if useSnapshots && id in sys.store.snapshots then Some(sys.store.snapshots[id]) else None;
      sys.(handlers := sys.handlers[h := Fetching(id, cmd, snap)])
    case Load(h) =>
      var p := PhaseOf(sys, h);
      sys.(handlers := sys.handlers[h := Loaded(p.cmd, LoadAggregate(sys.store, p.id, p.snap))])
    case Save(h, metas, snapshotDue) =>
      var p := PhaseOf(sys, h);
      var (agg, events) := StageAll(p.agg, Decide(metres, p.agg.state, p.cmd), metas);
      var done := sys.(handlers := sys.handlers[h := Idle]);
      if events == [] then done
      else
        var r := Append(sys.store, agg.id, events, agg.sequence - |events|);
        if r.Err? then done
        else done.(store := r.value,
                   history := sys.history + [Commit(agg.id, p.cmd, metas)],
                   pending := if snapshotDue && agg.sequence % snapshotEvery == 0
                              then sys.pending + {Snapshot(agg.id, agg.sequence, agg.state)} else sys.pending)
    case WriteSnapshot(snap) =>
      sys.(store := sys.store.(snapshots := sys.store.snapshots[snap.aggregateId := snap]),
           pending := sys.pending - {snap})
  }

  // The same commands run one after another, each on the state the previous left.
  function SerialLog(metres: Metres, history: seq<Commit>, id: string): seq<Event>
    decreases |history|
  {
    if history == [] then []
    else
      var prior := SerialLog(metres, history[..|history| - 1], id);
      var c := history[|history| - 1];
      if c.id != id then prior
      else
        var bs := Decide(metres, Fold(prior), c.cmd);
        if |bs| > |c.metas| then prior
        else prior + StageAll(Aggregate(id, |prior|, |prior|, Fold(prior)), bs, c.metas).1
  }

  // --------------------------------------------------------------- invariants

  ghost predicate GoodSnapshot(store: Store, s: Snapshot) {
    s.sequence <= |Log(store, s.aggregateId)| && s.state == Fold(Log(store, s.aggregateId)[..s.sequence])
  }

  ghost predicate GoodPhase(store: Store, p: Phase) {
    match p
    case Idle => true
    case Fetching(id, _, snap) => snap.Some? ==> snap.value.aggregateId == id && GoodSnapshot(store, snap.value)
    case Loaded(_, agg) => agg.sequence <= |Log(store, agg.id)| && StandsFor(agg, Log(store, agg.id)[..agg.sequence])
  }

  ghost predicate Inv(metres: Metres, sys: System) {
    && (forall id :: Numbered(Log(sys.store, id), id, 0))
    && (forall id :: id in sys.store.snapshots ==>
          sys.store.snapshots[id].aggregateId == id && GoodSnapshot(sys.store, sys.store.snapshots[id]))
    && (forall s :: s in sys.pending ==> GoodSnapshot(sys.store, s))
    && (forall h :: h in sys.handlers ==> GoodPhase(sys.store, sys.handlers[h]))
    && (forall id :: Log(sys.store, id) == SerialLog(metres, sys.history, id))
  }

  // Loading through a snapshot gives what replaying the whole log would, and
  // the log may have grown since the snapshot was read.
  lemma LoadIsReplay(store: Store, id: string, snap: Option<Snapshot>)
    requires Numbered(Log(store, id), id, 0)
    requires snap.Some? ==> snap.value.aggregateId == id && GoodSnapshot(store, snap.value)
    ensures StandsFor(LoadAggregate(store, id, snap), Log(store, id))
    ensures LoadAggregate(store, id, snap) == LoadAggregate(store, id, None)
  {
    LoadWhole(store, id);
    if snap.Some? { LoadPastSnapshot(store, id, snap.value); }
    LoadKeepsId(store, id, snap);
    LoadKeepsId(store, id, None);
  }

  lemma LoadWhole(store: Store, id: string)
    requires Numbered(Log(store, id), id, 0)
    ensures StandsFor(LoadAggregate(store, id, None), Log(store, id))
  {
    var log := Log(store, id);
    assert StandsFor(Restore(id, None), []);
    hide Fold, LoadFromHistory, EventsFrom, Log;
    AllFrom(log, id, 0, 1);
    LoadStands(Restore(id, None), [], log);
    assert [] + log == log;
  }

  lemma LoadPastSnapshot(store: Store, id: string, snap: Snapshot)
    requires Numbered(Log(store, id), id, 0) && snap.aggregateId == id && GoodSnapshot(store, snap)
    ensures StandsFor(LoadAggregate(store, id, Some(snap)), Log(store, id))
  {
    hide Fold, LoadFromHistory, EventsFrom, Log;
    var log, n := Log(store, id), snap.sequence;
    EventsFromNumbered(log, id, 0, n);
    assert Numbered(log[n..], id, n);
    assert |log[..n]| == n;
    LoadStands(Restore(id, Some(snap)), log[..n], log[n..]);
    assert log[..n] + log[n..] == log;
  }

  // A longer log keeps every snapshot and every loaded aggregate good.
  lemma GoodStays(store: Store, store': Store, id: string, es: seq<Event>)
    requires forall x :: Log(store', x) == if x == id then Log(store, id) + es else Log(store, x)
    ensures forall s :: GoodSnapshot(store, s) ==> GoodSnapshot(store', s)
    ensures forall p :: GoodPhase(store, p) ==> GoodPhase(store', p)
  {
    forall s | GoodSnapshot(store, s) ensures GoodSnapshot(store', s) {
      var log := Log(store, s.aggregateId);
      assert (log + es)[..s.sequence] == log[..s.sequence];
    }
    forall p | GoodPhase(store, p) ensures GoodPhase(store', p) {
      if p.Loaded? {
        var log := Log(store, p.agg.id);
        assert (log + es)[..p.agg.sequence] == log[..p.agg.sequence];
      }
    }
  }

  // A save that succeeds extends exactly the log its handler read.
  lemma SaveExtends(metres: Metres, sys: System, h: nat, metas: seq<Meta>)
    requires Inv(metres, sys) && Enabled(metres, sys, Save(h, metas, false))
    ensures
      var p := PhaseOf(sys, h);
      var (agg, events) := StageAll(p.agg, Decide(metres, p.agg.state, p.cmd), metas);
      var log := Log(sys.store, p.agg.id);
      && agg.id == p.agg.id && Numbered(events, agg.id, p.agg.sequence)
      && (events != [] && Append(sys.store, agg.id, events, agg.sequence - |events|).Ok? ==>
            && p.agg.sequence == |log| && StandsFor(p.agg, log) && StandsFor(agg, log + events)
            && SerialLog(metres, sys.history + [Commit(agg.id, p.cmd, metas)], agg.id) == log + events)
  {
    var p := PhaseOf(sys, h);
    var log := Log(sys.store, p.agg.id);
    assert GoodPhase(sys.store, p);
    var bs := Decide(metres, p.agg.state, p.cmd);
    StageStands(p.agg, log[..p.agg.sequence], bs, metas);
    var (agg, events) := StageAll(p.agg, bs, metas);
    if events != [] && Append(sys.store, agg.id, events, agg.sequence - |events|).Ok? {
      assert Numbered(log, p.agg.id, 0);
      assert p.agg.sequence == |log|;
      assert log[..p.agg.sequence] == log;
      var c := Commit(agg.id, p.cmd, metas);
      assert (sys.history + [c])[..|sys.history|] == sys.history;
      assert p.agg == Aggregate(agg.id, |log|, |log|, Fold(log));
    }
  }

  // A step that appends nothing only has to keep its own handler good.
  lemma QuietStep(metres: Metres, sys: System, sys': System)
    requires Inv(metres, sys) && sys'.history == sys.history
    requires sys'.store.byAggregate == sys.store.byAggregate
    requires forall s :: s in sys'.pending ==> s in sys.pending
    requires forall id :: id in sys'.store.snapshots ==>
      var s := sys'.store.snapshots[id];
      s.aggregateId == id && (s in sys.pending || (id in sys.store.snapshots && s == sys.store.snapshots[id]))
    requires forall h :: h in sys'.handlers ==>
      (h in sys.handlers && sys'.handlers[h] == sys.handlers[h]) || GoodPhase(sys.store, sys'.handlers[h])
    ensures Inv(metres, sys')
  {
    hide Numbered, Fold, SerialLog, StandsFor;
    assert forall x :: Log(sys'.store, x) == Log(sys.store, x);
    assert forall s :: GoodSnapshot(sys.store, s) ==> GoodSnapshot(sys'.store, s);
    assert forall p :: GoodPhase(sys.store, p) ==> GoodPhase(sys'.store, p);
  }

  lemma InvStep(metres: Metres, sys: System, step: Step, snapshotEvery: nat)
    requires Inv(metres, sys) && Enabled(metres, sys, step) && snapshotEvery > 0
    ensures Inv(metres, Next(metres, sys, step, snapshotEvery))
  {
    hide Numbered, Fold, SerialLog, StandsFor, GoodSnapshot, LoadAggregate, StageAll, Append, Decide;
    var sys' := Next(metres, sys, step, snapshotEvery);
    match step
    case Fetch(h, id, cmd, useSnapshots) => QuietStep(metres, sys, sys');
    case Load(h) =>
      LoadedIsGood(metres, sys, h);
      QuietStep(metres, sys, sys');
    case Save(h, metas, due) => SaveStep(metres, sys, h, metas, due, snapshotEvery);
    case WriteSnapshot(snap) => QuietStep(metres, sys, sys');
  }

  lemma LoadedIsGood(metres: Metres, sys: System, h: nat)
    requires Inv(metres, sys) && PhaseOf(sys, h).Fetching?
    ensures
      var p := PhaseOf(sys, h);
      GoodPhase(sys.store, Loaded(p.cmd, LoadAggregate(sys.store, p.id, p.snap)))
  {
    var p := PhaseOf(sys, h);
    assert GoodPhase(sys.store, p);
    LoadIsReplay(sys.store, p.id, p.snap);
    LoadKeepsId(sys.store, p.id, p.snap);
    var log := Log(sys.store, p.id);
    assert log[..|log|] == log;
  }

  lemma {:induction false} LoadKeeps(a: Aggregate, es: seq<Event>)
    ensures LoadFromHistory(a, es).id == a.id
    decreases |es|
  {
    if es != [] { LoadKeeps(ApplyEvent(a, es[0]), es[1..]); }
  }

  lemma LoadKeepsId(store: Store, id: string, snap: Option<Snapshot>)
    ensures LoadAggregate(store, id, snap).id == id
  {
    LoadKeeps(Restore(id, snap), EventsFrom(Log(store, id), if snap.Some? then snap.value.sequence + 1 else 1));
  }

  lemma SaveStep(metres: Metres, sys: System, h: nat, metas: seq<Meta>, due: bool, snapshotEvery: nat)
    requires Inv(metres, sys) && Enabled(metres, sys, Save(h, metas, due)) && snapshotEvery > 0
    ensures Inv(metres, Next(metres, sys, Save(h, metas, due), snapshotEvery))
  {
    hide Numbered, Fold, SerialLog, StandsFor, GoodSnapshot, GoodPhase, StageAll, Decide, Append, Log, Inv;
    var p := PhaseOf(sys, h);
    var (agg, events) := StageAll(p.agg, Decide(metres, p.agg.state, p.cmd), metas);
    if events != [] && Append(sys.store, agg.id, events, agg.sequence - |events|).Ok? {
      SaveSucceeds(metres, sys, h, metas, due, snapshotEvery);
    } else {
      SaveRejected(metres, sys, h);
    }
  }

  lemma SaveSucceeds(metres: Metres, sys: System, h: nat, metas: seq<Meta>, due: bool, snapshotEvery: nat)
    requires Inv(metres, sys) && Enabled(metres, sys, Save(h, metas, due)) && snapshotEvery > 0
    requires
      var p := PhaseOf(sys, h);
      var (agg, events) := StageAll(p.agg, Decide(metres, p.agg.state, p.cmd), metas);
      events != [] && Append(sys.store, agg.id, events, agg.sequence - |events|).Ok?
    ensures Inv(metres, Next(metres, sys, Save(h, metas, due), snapshotEvery))
  {
    hide Numbered, Fold, SerialLog, StandsFor, GoodSnapshot, GoodPhase, StageAll, Decide, Append, Log, Inv;
    var p := PhaseOf(sys, h);
    var (agg, events) := StageAll(p.agg, Decide(metres, p.agg.state, p.cmd), metas);
    SaveExtends(metres, sys, h, metas);
    AppendGrows(sys.store, agg.id, events, agg.sequence - |events|);
    SaveCommits(metres, sys, Next(metres, sys, Save(h, metas, due), snapshotEvery), p, agg, events, metas);
  }

  lemma AppendGrows(store: Store, id: string, events: seq<Event>, expected: int)
    requires Append(store, id, events, expected).Ok?
    ensures
      var store' := Append(store, id, events, expected).value;
      && store'.snapshots == store.snapshots
      && forall x :: Log(store', x) == if x == id then Log(store, x) + events else Log(store, x)
  {
  }

  lemma SaveRejected(metres: Metres, sys: System, h: nat)
    requires Inv(metres, sys)
    ensures Inv(metres, sys.(handlers := sys.handlers[h := Idle]))
  {
    hide Numbered, Fold, SerialLog, StandsFor, GoodSnapshot;
    QuietStep(metres, sys, sys.(handlers := sys.handlers[h := Idle]));
  }

  lemma SaveCommits(metres: Metres, sys: System, sys': System, p: Phase, agg: Aggregate, events: seq<Event>, metas: seq<Meta>)
    requires Inv(metres, sys) && p.Loaded?
    requires forall id :: Log(sys'.store, id) == if id == agg.id then Log(sys.store, id) + events else Log(sys.store, id)
    requires sys'.store.snapshots == sys.store.snapshots
    requires forall h :: h in sys'.handlers ==> sys'.handlers[h].Idle? || (h in sys.handlers && sys'.handlers[h] == sys.handlers[h])
    requires forall s :: s in sys'.pending ==> s in sys.pending || s == Snapshot(agg.id, agg.sequence, agg.state)
    requires sys'.history == sys.history + [Commit(agg.id, p.cmd, metas)]
    requires Numbered(events, agg.id, |Log(sys.store, agg.id)|)
    requires StandsFor(agg, Log(sys.store, agg.id) + events)
    requires SerialLog(metres, sys'.history, agg.id) == Log(sys.store, agg.id) + events
    ensures Inv(metres, sys')
  {
    GoodStays(sys.store, sys'.store, agg.id, events);
    var log := Log(sys'.store, agg.id);
    assert log[..|log|] == log;
    assert GoodSnapshot(sys'.store, Snapshot(agg.id, agg.sequence, agg.state));
    forall id ensures Numbered(Log(sys'.store, id), id, 0) {
      assert Numbered(Log(sys.store, id), id, 0);
    }
    forall id ensures Log(sys'.store, id) == SerialLog(metres, sys'.history, id) {
      assert sys'.history[..|sys.history|] == sys.history;
      assert Log(sys.store, id) == SerialLog(metres, sys.history, id);
    }
    hide Fold, SerialLog, GoodSnapshot, GoodPhase, Numbered;
  }

  // ------------------------------------------------------------- every run

  ghost predicate Follows(metres: Metres, sys: System, sys': System, snapshotEvery: nat) {
    snapshotEvery > 0 && exists step :: Enabled(metres, sys, step) && sys' == Next(metres, sys, step, snapshotEvery)
  }

  ghost predicate IsRun(metres: Metres, run: seq<System>, snapshotEvery: nat) {
    && run != [] && run[0] == System(EMPTY, map[], {}, [])
    && forall i :: 0 < i < |run| ==> Follows(metres, run[i - 1], run[i], snapshotEvery)
  }

  lemma {:induction false} InvRun(metres: Metres, run: seq<System>, snapshotEvery: nat)
    requires IsRun(metres, run, snapshotEvery)
    ensures Inv(metres, run[|run| - 1])
    decreases |run|
  {
    if |run| > 1 {
      hide Inv, Next, Enabled;
      var init := run[..|run| - 1];
      forall i | 0 < i < |init| ensures Follows(metres, init[i - 1], init[i], snapshotEvery) {
        assert Follows(metres, run[i - 1], run[i], snapshotEvery);
      }
      InvRun(metres, init, snapshotEvery);
      assert Follows(metres, run[|run| - 2], run[|run| - 1], snapshotEvery);
      var step :| Enabled(metres, run[|run| - 2], step) && run[|run| - 1] == Next(metres, run[|run| - 2], step, snapshotEvery);
      InvStep(metres, run[|run| - 2], step, snapshotEvery);
    }
  }

  // In every interleaving, each log is numbered 1..n and is what the saved
  // commands produce when run one after another: no update is lost.
  lemma Serialisable(metres: Metres, run: seq<System>, snapshotEvery: nat, id: string)
    requires IsRun(metres, run, snapshotEvery)
    ensures
      var sys := run[|run| - 1];
      && Log(sys.store, id) == SerialLog(metres, sys.history, id)
      && forall i :: 0 <= i < |Log(sys.store, id)| ==> Log(sys.store, id)[i].sequence == i + 1
  {
    InvRun(metres, run, snapshotEvery);
    assert Numbered(Log(run[|run| - 1].store, id), id, 0);
  }

  // Every stored snapshot is the fold of the log prefix of its length.
  lemma SnapshotsAreFolds(metres: Metres, run: seq<System>, snapshotEvery: nat, id: string)
    requires IsRun(metres, run, snapshotEvery) && id in run[|run| - 1].store.snapshots
    ensures
      var store := run[|run| - 1].store;
      var s := store.snapshots[id];
      s.aggregateId == id && s.sequence <= |Log(store, id)| && s.state == Fold(Log(store, id)[..s.sequence])
  {
    InvRun(metres, run, snapshotEvery);
    hide SerialLog, Numbered;
    assert GoodSnapshot(run[|run| - 1].store, run[|run| - 1].store.snapshots[id]);
  }

  // ------------------------------------------------- the store as a whole

  // The order of all events is an interleaving of the logs, every logged id is known, and snapshots
  // are taken at the configured interval only.
  ghost predicate Whole(sys: System, snapshotEvery: nat)
    requires snapshotEvery > 0
  {
    && (forall id :: Filters(sys.store.all, (e: Event) => e.aggregateId == id, Log(sys.store, id)))
    && sys.store.ids == IdsOf(sys.store.all)
    && (forall s :: s in sys.pending ==> s.sequence % snapshotEvery == 0 < s.sequence)
    && (forall id :: id in sys.store.snapshots ==> sys.store.snapshots[id].sequence % snapshotEvery == 0 < sys.store.snapshots[id].sequence)
  }

  lemma ExtendKeepsOrder(store: Store, id: string, events: seq<Event>)
    requires forall x :: Filters(store.all, (e: Event) => e.aggregateId == x, Log(store, x))
    requires forall e <- events :: e.aggregateId == id
    ensures forall x :: Filters(store.all + events, (e: Event) => e.aggregateId == x, Log(Extend(store, id, events), x))
  {
    hide Filters;
    forall x ensures Filters(store.all + events, (e: Event) => e.aggregateId == x, Log(Extend(store, id, events), x)) {
      FiltersBatch(store.all, (e: Event) => e.aggregateId == x, Log(store, x), events, x == id);
    }
  }

  lemma IdsConcat(a: seq<Event>, b: seq<Event>)
    ensures IdsOf(a + b) == IdsOf(a) + IdsOf(b)
  {
    forall e | e in IdsOf(a) + IdsOf(b) ensures e in IdsOf(a + b) {
      if i :| 0 <= i < |a| && a[i].eventId == e {
        assert (a + b)[i].eventId == e;
      } else {
        var j :| 0 <= j < |b| && b[j].eventId == e;
        assert (a + b)[|a| + j].eventId == e;
      }
    }
  }

  lemma WholeSave(metres: Metres, sys: System, h: nat, metas: seq<Meta>, due: bool, snapshotEvery: nat)
    requires Inv(metres, sys) && Enabled(metres, sys, Save(h, metas, due)) && snapshotEvery > 0 && Whole(sys, snapshotEvery)
    ensures Whole(Next(metres, sys, Save(h, metas, due), snapshotEvery), snapshotEvery)
  {
    hide Inv, Filters, StageAll, Decide, IdsOf, SerialLog, Fold;
    var p := PhaseOf(sys, h);
    var (agg, events) := StageAll(p.agg, Decide(metres, p.agg.state, p.cmd), metas);
    SaveExtends(metres, sys, h, metas);
    assert forall e <- events :: e.aggregateId == agg.id;
    if events != [] && Append(sys.store, agg.id, events, agg.sequence - |events|).Ok? {
      assert agg.sequence > 0;
      ExtendKeepsOrder(sys.store, agg.id, events);
      IdsConcat(sys.store.all, events);
    }
    hide Log, Append, Extend;
  }

  // A save that succeeds and reaches a multiple of the interval captures the state it left, if a
  // snapshot is due; any other save captures nothing.
  lemma SnapshotTaken(metres: Metres, sys: System, h: nat, metas: seq<Meta>, due: bool, snapshotEvery: nat)
    requires Inv(metres, sys) && Enabled(metres, sys, Save(h, metas, due)) && snapshotEvery > 0
    ensures
      var sys', id := Next(metres, sys, Save(h, metas, due), snapshotEvery), PhaseOf(sys, h).agg.id;
      var log := Log(sys'.store, id);
      sys'.pending ==
        if sys'.history != sys.history && due && |log| % snapshotEvery == 0
        then sys.pending + {Snapshot(id, |log|, Fold(log))} else sys.pending
  {
    hide Inv, StageAll, Decide, SerialLog, Fold, Log;
    var p := PhaseOf(sys, h);
    var (agg, events) := StageAll(p.agg, Decide(metres, p.agg.state, p.cmd), metas);
    SaveExtends(metres, sys, h, metas);
    if events != [] && Append(sys.store, agg.id, events, agg.sequence - |events|).Ok? {
      AppendGrows(sys.store, agg.id, events, agg.sequence - |events|);
    }
    hide Append;
  }

  lemma WholeStep(metres: Metres, sys: System, step: Step, snapshotEvery: nat)
    requires Inv(metres, sys) && Enabled(metres, sys, step) && snapshotEvery > 0 && Whole(sys, snapshotEvery)
    ensures Whole(Next(metres, sys, step, snapshotEvery), snapshotEvery)
  {
    hide Inv, Filters, LoadAggregate, IdsOf;
    if step.Save? {
      hide Whole, Next;
      WholeSave(metres, sys, step.h, step.metas, step.snapshotDue, snapshotEvery);
    } else {
      var sys' := Next(metres, sys, step, snapshotEvery);
      assert forall id :: Log(sys'.store, id) == Log(sys.store, id);
    }
  }

  // In every interleaving the order of all events, restricted to one aggregate, is its log; the ids
  // that are refused as duplicates are those logged; and snapshots stand at multiples of the interval.
  lemma {:induction false} WholeRun(metres: Metres, run: seq<System>, snapshotEvery: nat)
    requires IsRun(metres, run, snapshotEvery) && snapshotEvery > 0
    ensures Whole(run[|run| - 1], snapshotEvery)
    decreases |run|
  {
    if |run| == 1 {
      var store := run[0].store;
      forall id ensures Filters(store.all, (e: Event) => e.aggregateId == id, Log(store, id)) {
        FiltersNone((e: Event) => e.aggregateId == id);
      }
    } else {
      hide Inv, Next, Enabled, Whole;
      var init := run[..|run| - 1];
      forall i | 0 < i < |init| ensures Follows(metres, init[i - 1], init[i], snapshotEvery) {
        assert Follows(metres, run[i - 1], run[i], snapshotEvery);
      }
      WholeRun(metres, init, snapshotEvery);
      InvRun(metres, init, snapshotEvery);
      assert Follows(metres, run[|run| - 2], run[|run| - 1], snapshotEvery);
      var step :| Enabled(metres, run[|run| - 2], step) && run[|run| - 1] == Next(metres, run[|run| - 2], step, snapshotEvery);
      WholeStep(metres, run[|run| - 2], step, snapshotEvery);
    }
  }

  lemma {:induction false} SerialDisciplined(metres: Metres, history: seq<Commit>, id: string)
    ensures Disciplined({}, BodiesOf(SerialLog(metres, history, id)))
    decreases |history|
  {
    if history != [] {
      var prior := SerialLog(metres, history[..|history| - 1], id);
      var c := history[|history| - 1];
      SerialDisciplined(metres, history[..|history| - 1], id);
      hide Disciplined, StageAll, Fold, Decide;
      if c.id == id && |Decide(metres, Fold(prior), c.cmd)| <= |c.metas| {
        CommitDisciplined(metres, prior, id, c.cmd, c.metas);
      }
    }
  }

  lemma CommitDisciplined(metres: Metres, prior: seq<Event>, id: string, cmd: Command, metas: seq<Meta>)
    requires Disciplined({}, BodiesOf(prior)) && |Decide(metres, Fold(prior), cmd)| <= |metas|
    ensures
      var a := Aggregate(id, |prior|, |prior|, Fold(prior));
      Disciplined({}, BodiesOf(prior + StageAll(a, Decide(metres, Fold(prior), cmd), metas).1))
  {
    hide Disciplined, StageAll, Decide, InsideAfter, FoldFrom, Numbered, BodiesOf;
    FoldTallies(INITIAL, prior);
    var a, bs := Aggregate(id, |prior|, |prior|, Fold(prior)), Decide(metres, Fold(prior), cmd);
    StageStands(a, prior, bs, metas);
    DecideDisciplined(metres, Fold(prior), cmd);
    DisciplinedConcat({}, BodiesOf(prior), bs);
    BodiesConcat(prior, StageAll(a, bs, metas).1);
  }

  lemma BodiesConcat(a: seq<Event>, b: seq<Event>)
    ensures BodiesOf(a + b) == BodiesOf(a) + BodiesOf(b)
  {
  }

  // In every log the handlers produce, a fence's entries and exits strictly
  // alternate from an entry on, and the inside set is what they leave.
  lemma FencesAlternate(metres: Metres, run: seq<System>, snapshotEvery: nat, id: string, f: string)
    requires IsRun(metres, run, snapshotEvery)
    ensures
      var log := Log(run[|run| - 1].store, id);
      var xs := CrossingsOf(f, BodiesOf(log));
      && (forall k :: 0 <= k < |xs| ==> xs[k] == (k % 2 == 0))
      && (f in Fold(log).inside <==> |xs| % 2 == 1)
      && Fold(log).entries - Fold(log).exits == |Fold(log).inside|
  {
    InvRun(metres, run, snapshotEvery);
    var sys := run[|run| - 1];
    var log := Log(sys.store, id);
    assert log == SerialLog(metres, sys.history, id);
    SerialDisciplined(metres, sys.history, id);
    hide SerialLog, Inv, Fold, Disciplined;
    FoldMeans(log, f);
  }

  lemma FoldMeans(log: seq<Event>, f: string)
    requires Disciplined({}, BodiesOf(log))
    ensures
      var xs := CrossingsOf(f, BodiesOf(log));
      && (forall k :: 0 <= k < |xs| ==> xs[k] == (k % 2 == 0))
      && (f in Fold(log).inside <==> |xs| % 2 == 1)
      && Fold(log).entries - Fold(log).exits == |Fold(log).inside|
  {
    hide Disciplined, InsideAfter, Entries, Exits, CrossingsOf, FoldFrom;
    FoldTallies(INITIAL, log);
    DisciplineAlternates({}, BodiesOf(log), f);
    DisciplineCounts({}, BodiesOf(log));
  }

  // Publishing a finite fix leaves a fence id inside exactly when the last
  // fence defined under that id contains the fix; other ids keep their standing.
  lemma PublishSettlesFences(metres: Metres, prior: seq<Event>, id: string, payload: string, fix: Fix, metas: seq<Meta>, f: string)
    requires |Decide(metres, Fold(prior), PublishLocation(payload, Some(fix)))| <= |metas|
    ensures
      var a := Aggregate(id, |prior|, |prior|, Fold(prior));
      var es := StageAll(a, Decide(metres, Fold(prior), PublishLocation(payload, Some(fix))), metas).1;
      var v := Verdict(metres, fix, AllFences(Fold(prior).fences), f);
      f in Fold(prior + es).inside <==> (if v.Some? then v.value else f in Fold(prior).inside)
  {
    hide StageAll, InsideAfter, FoldFrom, Crossings, Verdict;
    var s := Fold(prior);
    var a, bs := Aggregate(id, |prior|, |prior|, s), Decide(metres, s, PublishLocation(payload, Some(fix)));
    StageStands(a, prior, bs, metas);
    var es := StageAll(a, bs, metas).1;
    FoldConcat(INITIAL, prior, es);
    FoldTallies(s, es);
    var xs := Crossings(metres, fix, s.inside, AllFences(s.fences));
    LocationLeavesInside(s.inside, payload, xs);
    CrossingsExact(metres, fix, s.inside, AllFences(s.fences), f);
  }

  lemma LocationLeavesInside(inside: set<string>, payload: string, xs: seq<Body>)
    ensures InsideAfter(inside, [LocationUpdate(payload)] + xs) == InsideAfter(inside, xs)
  {
    assert ([LocationUpdate(payload)] + xs)[1..] == xs;
  }

  // ------------------------------------------------------- logs tell no lies

  lemma {:induction false} SerialLawful(metres: Metres, history: seq<Commit>, id: string)
    ensures LawfulFrom(INITIAL, SerialLog(metres, history, id))
    decreases |history|
  {
    if history != [] {
      var prior := SerialLog(metres, history[..|history| - 1], id);
      var c := history[|history| - 1];
      SerialLawful(metres, history[..|history| - 1], id);
      hide LawfulFrom, StageAll, Decide, FoldFrom;
      if c.id == id && |Decide(metres, Fold(prior), c.cmd)| <= |c.metas| {
        var a, bs := Aggregate(id, |prior|, |prior|, Fold(prior)), Decide(metres, Fold(prior), c.cmd);
        StageStands(a, prior, bs, c.metas);
        DecideLawful(metres, Fold(prior), c.cmd, StageAll(a, bs, c.metas).1);
        LawfulConcat(INITIAL, prior, StageAll(a, bs, c.metas).1);
      }
    }
  }

  // In every interleaving, every logged event fits the state the log had reached: a join finds the
  // vehicle outside the room, a leave inside it, an entry outside the fence, an exit inside it, and
  // an acknowledgement above the last one for its room.
  lemma LogsLawful(metres: Metres, run: seq<System>, snapshotEvery: nat, id: string, i: nat)
    requires IsRun(metres, run, snapshotEvery) && i < |Log(run[|run| - 1].store, id)|
    ensures
      var log := Log(run[|run| - 1].store, id);
      Lawful(Fold(log[..i]), log[i].body)
  {
    Serialisable(metres, run, snapshotEvery, id);
    hide SerialLog, IsRun;
    SerialLawful(metres, run[|run| - 1].history, id);
    LawfulAt(INITIAL, Log(run[|run| - 1].store, id), i);
  }
}
