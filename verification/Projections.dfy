/**
 * The read models kept from the event log: latest vehicle positions, room members, geofence
 * crossings and sequence counters. Batches may arrive split, repeated and in any order; what the
 * read models mean is stated on the set of distinct events they have seen.
 */
module Projections {
  import opened Wrappers
  import opened Collections
  import opened Order

  datatype Kind =
    | LocationUpdate(lat: real, lon: real)
    | RoomJoined
    | RoomLeft
    | GeofenceEntered(fenceId: string)
    | GeofenceExited(fenceId: string)
    | OtherKind

  datatype Event = Event(
    eventId: string, timestamp: int, ofVehicle: bool, aggregateId: string,
    sequence: Option<nat>, roomId: Option<string>, kind: Kind)

  datatype Projection = VehicleState | RoomMembership | GeofenceViolations | Sequence

  const DEFAULTS: seq<Projection> := [VehicleState, RoomMembership, GeofenceViolations, Sequence]

  datatype Located = Located(lat: real, lon: real, at: int, eventId: string)
  datatype Vehicle = Vehicle(located: Option<Located>, rooms: set<Option<string>>)
  datatype Violation = Violation(clientId: string, fenceId: string, roomId: Option<string>, entry: bool, timestamp: int, eventId: string)

  datatype Models = Models(
    vehicles: map<string, Vehicle>, members: map<Option<string>, map<string, int>>, violations: seq<Violation>,
    aggregateSeq: map<string, nat>, roomSeq: map<string, nat>)
  datatype Checkpoint = Checkpoint(lastEventId: string, updatedAt: int)
  datatype Sink = Sink(models: Models, processed: map<Projection, set<string>>, checkpoints: map<Projection, Checkpoint>)

  const EMPTY: Sink := Sink(Models(map[], map[], [], map[], map[]), map[], map[])

  function VehicleAt(m: Models, id: string): Vehicle {
    if id in m.vehicles then m.vehicles[id] else Vehicle(None, {})
  }

  function CountAt(counts: map<string, nat>, key: string): nat {
    if key in counts then counts[key] else 0
  }

  function ProcessedBy(s: Sink, p: Projection): set<string> {
    if p in s.processed then s.processed[p] else {}
  }

  predicate Crosses(e: Event) {
    e.kind.GeofenceEntered? || e.kind.GeofenceExited?
  }

  function ViolationOf(e: Event): Violation
    requires Crosses(e)
  {
    Violation(e.aggregateId, e.kind.fenceId, e.roomId, e.kind.GeofenceEntered?, e.timestamp, e.eventId)
  }

  predicate Locates(e: Event, id: string) {
    e.ofVehicle && e.kind.LocationUpdate? && e.aggregateId == id
  }

  function LocatedBy(e: Event): Located
    requires e.kind.LocationUpdate?
  {
    Located(e.kind.lat, e.kind.lon, e.timestamp, e.eventId)
  }

  // The events that advance a room's counter. An empty room id counts as none.
  predicate Bumps(e: Event, room: string) {
    e.roomId == Some(room) && room != "" && e.ofVehicle && (e.kind.LocationUpdate? || e.kind.RoomJoined? || e.kind.RoomLeft?)
  }

  // ---- the handlers ------------------------------------------------------------------

  function HandleVehicle(m: Models, e: Event): Models {
    if !e.ofVehicle then m
    else
      var row := VehicleAt(m, e.aggregateId);
      match e.kind
      case LocationUpdate(lat, lon) =>
        if row.located.Some? && row.located.value.at > e.timestamp then m
        else m.(vehicles := m.vehicles[e.aggregateId := row.(located := Some(LocatedBy(e)))])
      case RoomJoined => m.(vehicles := m.vehicles[e.aggregateId := row.(rooms := row.rooms + {e.roomId})])
      case RoomLeft => m.(vehicles := m.vehicles[e.aggregateId := row.(rooms := row.rooms - {e.roomId})])
      case _ => m
  }

  function HandleMembership(m: Models, e: Event): Models {
    if !e.ofVehicle then m
    else
      var room := if e.roomId in m.members then m.members[e.roomId] else map[];
      match e.kind
      case RoomJoined => m.(members := m.members[e.roomId := room[e.aggregateId := e.timestamp]])
      case RoomLeft =>
        if e.roomId in m.members then m.(members := m.members[e.roomId := room - {e.aggregateId}]) else m
      case _ => m
  }

  function HandleViolations(m: Models, e: Event): Models {
    if Crosses(e) then m.(violations := m.violations + [ViolationOf(e)]) else m
  }

  function HandleSequence(m: Models, e: Event): Models {
    var m1 :=
      if e.sequence.Some? && e.sequence.value >= CountAt(m.aggregateSeq, e.aggregateId)
      then m.(aggregateSeq := m.aggregateSeq[e.aggregateId := e.sequence.value]) else m;
    if e.roomId.Some? && Bumps(e, e.roomId.value)
    then m1.(roomSeq := m1.roomSeq[e.roomId.value := CountAt(m1.roomSeq, e.roomId.value) + 1]) else m1
  }

  function Handle(p: Projection, m: Models, e: Event): Models {
    match p
    case VehicleState => HandleVehicle(m, e)
    case RoomMembership => HandleMembership(m, e)
    case GeofenceViolations => HandleViolations(m, e)
    case Sequence => HandleSequence(m, e)
  }

  // Handle, mark the event as processed by this projection, and move its checkpoint.
  function Project(p: Projection, s: Sink, e: Event): Sink {
    Sink(Handle(p, s.models, e), s.processed[p := ProcessedBy(s, p) + {e.eventId}],
         s.checkpoints[p := Checkpoint(e.eventId, e.timestamp)])
  }

  function ProjectThrough(ps: seq<Projection>, s: Sink, e: Event): Sink {
    if ps == [] then s else ProjectThrough(ps[1..], Project(ps[0], s, e), e)
  }

  predicate ProcessedByAll(s: Sink, e: Event) {
    forall p <- DEFAULTS :: e.eventId in ProcessedBy(s, p)
  }

  function Apply(s: Sink, e: Event): Sink {
    if ProcessedByAll(s, e) then s else ProjectThrough(DEFAULTS, s, e)
  }

  function ApplyAll(s: Sink, es: seq<Event>): Sink
    decreases |es|
  {
    if es == [] then s else ApplyAll(Apply(s, es[0]), es[1..])
  }

  // ---- processing order --------------------------------------------------------------

  predicate Earlier(a: Event, b: Event) {
    a.timestamp < b.timestamp || (a.timestamp == b.timestamp && StringLess(a.eventId, b.eventId))
  }

  function InsertByTime(e: Event, es: seq<Event>): (r: seq<Event>)
    ensures multiset(r) == multiset(es) + multiset{e}
  {
    if es == [] || Earlier(e, es[0]) then
      assert [e] + es == [e] + es[..];
      [e] + es
    else
      assert es == [es[0]] + es[1..];
      [es[0]] + InsertByTime(e, es[1..])
  }

  function SortByTime(es: seq<Event>): (r: seq<Event>)
    ensures multiset(r) == multiset(es)
  {
    if es == [] then []
    else
      assert es == es[..|es| - 1] + [es[|es| - 1]];
      InsertByTime(es[|es| - 1], SortByTime(es[..|es| - 1]))
  }

  function Process(s: Sink, batch: seq<Event>): Sink {
    ApplyAll(s, SortByTime(batch))
  }

  function ProcessAll(s: Sink, batches: seq<seq<Event>>): Sink
    decreases |batches|
  {
    if batches == [] then s else ProcessAll(Process(s, batches[0]), batches[1..])
  }

  // Every event of the batches.
  ghost function Seen(batches: seq<seq<Event>>): set<Event>
    decreases |batches|
  {
    if batches == [] then {} else (set e | e in batches[0]) + Seen(batches[1..])
  }

  // An event id names one event.
  ghost predicate Consistent(events: set<Event>) {
    forall a <- events, b <- events :: a.eventId == b.eventId ==> a == b
  }

  ghost function Ids(events: set<Event>): set<string> {
    set e <- events :: e.eventId
  }

  // ---- what the read models mean -----------------------------------------------------

  ghost predicate Marked(processed: map<Projection, set<string>>, d: set<Event>) {
    forall p <- DEFAULTS :: (if p in processed then processed[p] else {}) == Ids(d)
  }

  ghost function Crossings(d: set<Event>): set<Event> {
    set e <- d | Crosses(e)
  }

  // One row per crossing, and no other.
  ghost predicate ViolationsMean(vs: seq<Violation>, d: set<Event>) {
    |vs| == |Crossings(d)|
    && (forall e <- d :: Crosses(e) ==> ViolationOf(e) in vs)
    && (forall v <- vs :: exists e <- d :: Crosses(e) && v == ViolationOf(e))
    && (forall i, j | 0 <= i < j < |vs| :: vs[i] != vs[j])
  }

  ghost function Bumping(d: set<Event>, room: string): set<Event> {
    set e <- d | Bumps(e, room)
  }

  ghost predicate RoomsMean(counts: map<string, nat>, d: set<Event>) {
    forall r :: CountAt(counts, r) == |Bumping(d, r)|
  }

  predicate Numbers(e: Event, id: string) {
    e.aggregateId == id && e.sequence.Some?
  }

  // The largest sequence number seen for the aggregate, 0 when there is none.
  ghost predicate IsHighest(n: nat, d: set<Event>, id: string) {
    (forall e <- d :: Numbers(e, id) ==> e.sequence.value <= n)
    && (n == 0 || exists e <- d :: Numbers(e, id) && e.sequence.value == n)
  }

  ghost predicate AggregatesMean(counts: map<string, nat>, d: set<Event>) {
    forall id :: IsHighest(CountAt(counts, id), d, id)
  }

  // The position row comes from a newest fix of the vehicle.
  ghost predicate IsNewest(row: Option<Located>, d: set<Event>, id: string) {
    match row
    case None => forall e <- d :: !Locates(e, id)
    case Some(l) =>
      (exists e <- d :: Locates(e, id) && l == LocatedBy(e))
      && forall e <- d :: Locates(e, id) ==> e.timestamp <= l.at
  }

  ghost predicate VehiclesMean(vehicles: map<string, Vehicle>, d: set<Event>) {
    forall id :: IsNewest(LocationAt(vehicles, id), d, id)
  }

  function LocationAt(vehicles: map<string, Vehicle>, id: string): Option<Located> {
    if id in vehicles then vehicles[id].located else None
  }

  ghost predicate Means(s: Sink, d: set<Event>) {
    Marked(s.processed, d) && ViolationsMean(s.models.violations, d) && RoomsMean(s.models.roomSeq, d)
    && AggregatesMean(s.models.aggregateSeq, d) && VehiclesMean(s.models.vehicles, d)
  }

  // ---- one new event -----------------------------------------------------------------

  ghost function AllHandled(m: Models, e: Event): Models {
    HandleSequence(HandleViolations(HandleMembership(HandleVehicle(m, e), e), e), e)
  }

  lemma ThroughDefaults(s: Sink, e: Event)
    ensures ProjectThrough(DEFAULTS, s, e).models == AllHandled(s.models, e)
    ensures ProjectThrough(DEFAULTS, s, e).processed ==
            s.processed[VehicleState := ProcessedBy(s, VehicleState) + {e.eventId}]
                       [RoomMembership := ProcessedBy(s, RoomMembership) + {e.eventId}]
                       [GeofenceViolations := ProcessedBy(s, GeofenceViolations) + {e.eventId}]
                       [Sequence := ProcessedBy(s, Sequence) + {e.eventId}]
  {
    hide HandleVehicle, HandleMembership, HandleViolations, HandleSequence;
    var s1 := Project(VehicleState, s, e);
    var s2 := Project(RoomMembership, s1, e);
    var s3 := Project(GeofenceViolations, s2, e);
    var s4 := Project(Sequence, s3, e);
    assert DEFAULTS[1..] == [RoomMembership, GeofenceViolations, Sequence];
    assert DEFAULTS[1..][1..] == [GeofenceViolations, Sequence];
    assert DEFAULTS[1..][1..][1..] == [Sequence] && [Sequence][1..] == [];
    assert ProjectThrough([Sequence], s3, e) == s4;
    assert ProjectThrough([GeofenceViolations, Sequence], s2, e) == s4;
    assert ProjectThrough(DEFAULTS[1..], s1, e) == s4;
  }

  // The handlers do not touch each other's read model.
  lemma KeptByVehicle(m: Models, e: Event)
    ensures HandleVehicle(m, e) == m.(vehicles := HandleVehicle(m, e).vehicles)
  {
  }

  lemma KeptByMembership(m: Models, e: Event)
    ensures HandleMembership(m, e) == m.(members := HandleMembership(m, e).members)
  {
  }

  lemma SequenceDepends(m: Models, n: Models, e: Event)
    requires m.aggregateSeq == n.aggregateSeq && m.roomSeq == n.roomSeq
    ensures HandleSequence(n, e) ==
            n.(aggregateSeq := HandleSequence(m, e).aggregateSeq, roomSeq := HandleSequence(m, e).roomSeq)
  {
  }

  lemma HandledParts(m: Models, e: Event)
    ensures
      var n := AllHandled(m, e);
      n.vehicles == HandleVehicle(m, e).vehicles && n.members == HandleMembership(HandleVehicle(m, e), e).members
      && n.violations == HandleViolations(m, e).violations
      && n.aggregateSeq == HandleSequence(m, e).aggregateSeq && n.roomSeq == HandleSequence(m, e).roomSeq
  {
    var m1 := HandleVehicle(m, e);
    KeptByVehicle(m, e);
    KeptByMembership(m1, e);
    SequenceDepends(m, HandleViolations(HandleMembership(m1, e), e), e);
    hide HandleVehicle, HandleMembership, HandleSequence;
  }

  lemma IdsMore(d: set<Event>, e: Event)
    ensures Ids(d + {e}) == Ids(d) + {e.eventId}
  {
  }

  lemma MarkedStep(s: Sink, d: set<Event>, e: Event)
    requires Marked(s.processed, d)
    ensures Marked(ProjectThrough(DEFAULTS, s, e).processed, d + {e})
  {
    ThroughDefaults(s, e);
    IdsMore(d, e);
    hide Ids, ProjectThrough;
    forall p <- DEFAULTS ensures ProcessedBy(s, p) == Ids(d) {
    }
    assert VehicleState in DEFAULTS && RoomMembership in DEFAULTS && GeofenceViolations in DEFAULTS && Sequence in DEFAULTS;
  }

  lemma ViolationsStep(m: Models, d: set<Event>, e: Event)
    requires ViolationsMean(m.violations, d) && e.eventId !in Ids(d)
    ensures ViolationsMean(HandleViolations(m, e).violations, d + {e})
  {
    if Crosses(e) {
      RowIsNew(m.violations, d, e);
      OneRowMore(m.violations, d, e);
    } else {
      NoRowMore(m.violations, d, e);
    }
  }

  lemma RowIsNew(vs: seq<Violation>, d: set<Event>, e: Event)
    requires ViolationsMean(vs, d) && e.eventId !in Ids(d) && Crosses(e)
    ensures e !in d && ViolationOf(e) !in vs
  {
  }

  lemma OneRowMore(vs: seq<Violation>, d: set<Event>, e: Event)
    requires ViolationsMean(vs, d) && Crosses(e) && e !in d && ViolationOf(e) !in vs
    ensures ViolationsMean(vs + [ViolationOf(e)], d + {e})
  {
    hide ViolationOf;
    var vs' := vs + [ViolationOf(e)];
    assert Crossings(d + {e}) == Crossings(d) + {e};
    assert forall v :: v in vs' <==> v in vs || v == ViolationOf(e);
    forall v <- vs' ensures exists f <- d + {e} :: Crosses(f) && v == ViolationOf(f) {
      if v in vs {
        var f :| f in d && Crosses(f) && v == ViolationOf(f);
        assert f in d + {e};
      } else {
        assert e in d + {e};
      }
    }
  }

  lemma NoRowMore(vs: seq<Violation>, d: set<Event>, e: Event)
    requires ViolationsMean(vs, d) && !Crosses(e)
    ensures ViolationsMean(vs, d + {e})
  {
    hide ViolationOf;
    assert Crossings(d + {e}) == Crossings(d);
    forall v <- vs ensures exists f <- d + {e} :: Crosses(f) && v == ViolationOf(f) {
      var f :| f in d && Crosses(f) && v == ViolationOf(f);
      assert f in d + {e};
    }
  }

  lemma RoomsStep(m: Models, d: set<Event>, e: Event)
    requires RoomsMean(m.roomSeq, d) && e !in d
    ensures RoomsMean(HandleSequence(m, e).roomSeq, d + {e})
  {
    forall r ensures CountAt(HandleSequence(m, e).roomSeq, r) == |Bumping(d + {e}, r)| {
      assert CountAt(m.roomSeq, r) == |Bumping(d, r)|;
      assert Bumping(d + {e}, r) == if Bumps(e, r) then Bumping(d, r) + {e} else Bumping(d, r);
    }
  }

  lemma AggregatesStep(m: Models, d: set<Event>, e: Event)
    requires AggregatesMean(m.aggregateSeq, d)
    ensures AggregatesMean(HandleSequence(m, e).aggregateSeq, d + {e})
  {
    forall id ensures IsHighest(CountAt(HandleSequence(m, e).aggregateSeq, id), d + {e}, id) {
      assert IsHighest(CountAt(m.aggregateSeq, id), d, id);
      HighestStep(m, d, e, id);
    }
  }

  lemma HighestStep(m: Models, d: set<Event>, e: Event, id: string)
    requires IsHighest(CountAt(m.aggregateSeq, id), d, id)
    ensures IsHighest(CountAt(HandleSequence(m, e).aggregateSeq, id), d + {e}, id)
  {
    var n, n' := CountAt(m.aggregateSeq, id), CountAt(HandleSequence(m, e).aggregateSeq, id);
    if Numbers(e, id) && e.sequence.value >= n {
      assert n' == e.sequence.value && e in d + {e};
    } else {
      assert n' == n;
      if n != 0 {
        var f :| f in d && Numbers(f, id) && f.sequence.value == n;
        assert f in d + {e};
      }
    }
  }

  lemma NewestStep(m: Models, d: set<Event>, e: Event, id: string)
    requires IsNewest(LocationAt(m.vehicles, id), d, id)
    ensures IsNewest(LocationAt(HandleVehicle(m, e).vehicles, id), d + {e}, id)
  {
    var l, l' := LocationAt(m.vehicles, id), LocationAt(HandleVehicle(m, e).vehicles, id);
    if Locates(e, id) && !(l.Some? && l.value.at > e.timestamp) {
      assert l' == Some(LocatedBy(e)) && e in d + {e};
    } else {
      assert l' == l;
      if l.Some? {
        var f :| f in d && Locates(f, id) && l.value == LocatedBy(f);
        assert f in d + {e};
      }
    }
  }

  lemma VehiclesStep(m: Models, d: set<Event>, e: Event)
    requires VehiclesMean(m.vehicles, d)
    ensures VehiclesMean(HandleVehicle(m, e).vehicles, d + {e})
  {
    forall id ensures IsNewest(LocationAt(HandleVehicle(m, e).vehicles, id), d + {e}, id) {
      assert IsNewest(LocationAt(m.vehicles, id), d, id);
      NewestStep(m, d, e, id);
    }
  }

  // An event is applied exactly when its id is new, and then the read models mean one event more.
  lemma ApplyMeans(s: Sink, d: set<Event>, e: Event)
    requires Means(s, d) && Consistent(d + {e})
    ensures Means(Apply(s, e), d + {e})
    ensures ProcessedByAll(s, e) <==> e in d
  {
    assert ProcessedByAll(s, e) <==> e.eventId in Ids(d) by {
      assert VehicleState in DEFAULTS;
      assert ProcessedBy(s, VehicleState) == Ids(d);
    }
    assert e.eventId in Ids(d) <==> e in d by {
      if e.eventId in Ids(d) {
        var f :| f in d && f.eventId == e.eventId;
        assert f in d + {e} && e in d + {e};
      }
    }
    if e in d {
      assert d + {e} == d;
    } else {
      MarkedStep(s, d, e);
      ThroughDefaults(s, e);
      HandledParts(s.models, e);
      ViolationsStep(s.models, d, e);
      RoomsStep(s.models, d, e);
      AggregatesStep(s.models, d, e);
      VehiclesStep(s.models, d, e);
      hide Marked, ViolationsMean, RoomsMean, AggregatesMean, VehiclesMean, AllHandled, ProjectThrough;
    }
  }

  // ---- any batches -------------------------------------------------------------------

  lemma {:induction false} ApplyAllMeans(s: Sink, d: set<Event>, es: seq<Event>)
    requires Means(s, d) && Consistent(d + Elements(es))
    ensures Means(ApplyAll(s, es), d + Elements(es))
    decreases |es|
  {
    hide Means, ProcessedByAll, Apply;
    if es == [] {
      assert d + Elements(es) == d;
    } else {
      assert d + Elements(es) == (d + {es[0]}) + Elements(es[1..]);
      assert d + {es[0]} <= d + Elements(es);
      ApplyMeans(s, d, es[0]);
      ApplyAllMeans(Apply(s, es[0]), d + {es[0]}, es[1..]);
    }
  }

  lemma ProcessMeans(s: Sink, d: set<Event>, batch: seq<Event>)
    requires Means(s, d) && Consistent(d + Elements(batch))
    ensures Means(Process(s, batch), d + Elements(batch))
  {
    SortedSame(batch);
    ApplyAllMeans(s, d, SortByTime(batch));
  }

  lemma {:induction false} ProcessAllMeans(s: Sink, d: set<Event>, batches: seq<seq<Event>>)
    requires Means(s, d) && Consistent(d + Seen(batches))
    ensures Means(ProcessAll(s, batches), d + Seen(batches))
    decreases |batches|
  {
    hide Means, Process;
    if batches == [] {
      assert d + Seen(batches) == d;
    } else {
      assert d + Seen(batches) == (d + Elements(batches[0])) + Seen(batches[1..]);
      assert d + Elements(batches[0]) <= d + Seen(batches);
      ProcessMeans(s, d, batches[0]);
      ProcessAllMeans(Process(s, batches[0]), d + Elements(batches[0]), batches[1..]);
    }
  }

  // However the events are split into batches, repeated and ordered, each distinct event is
  // applied once: the read models are determined by the set of events.
  lemma EachEventOnce(batches: seq<seq<Event>>)
    requires Consistent(Seen(batches))
    ensures Means(ProcessAll(EMPTY, batches), Seen(batches))
  {
    EmptyMeans();
    ProcessAllMeans(EMPTY, {}, batches);
    assert {} + Seen(batches) == Seen(batches);
  }

  lemma EmptyMeans()
    ensures Means(EMPTY, {})
  {
    assert Ids({}) == {} && Crossings({}) == {};
    assert forall r :: Bumping({}, r) == {};
  }

  ghost predicate DistinctTimes(d: set<Event>) {
    forall a <- d, b <- d :: a.timestamp == b.timestamp ==> a == b
  }

  lemma NewestUnique(r: Option<Located>, q: Option<Located>, d: set<Event>, id: string)
    requires IsNewest(r, d, id) && IsNewest(q, d, id) && DistinctTimes(d)
    ensures r == q
  {
  }

  lemma HighestUnique(n: nat, k: nat, d: set<Event>, id: string)
    requires IsHighest(n, d, id) && IsHighest(k, d, id)
    ensures n == k
  {
  }

  // Two consumers that saw the same events, however batched, agree on every counter, on the set
  // of crossings and, when timestamps are distinct, on every position.
  lemma BatchingsAgree(b1: seq<seq<Event>>, b2: seq<seq<Event>>)
    requires Seen(b1) == Seen(b2) && Consistent(Seen(b1))
    ensures
      var m1, m2 := ProcessAll(EMPTY, b1).models, ProcessAll(EMPTY, b2).models;
      |m1.violations| == |m2.violations|
      && (forall v :: v in m1.violations <==> v in m2.violations)
      && (forall r :: CountAt(m1.roomSeq, r) == CountAt(m2.roomSeq, r))
      && (forall id :: CountAt(m1.aggregateSeq, id) == CountAt(m2.aggregateSeq, id))
      && (DistinctTimes(Seen(b1)) ==> forall id :: LocationAt(m1.vehicles, id) == LocationAt(m2.vehicles, id))
  {
    EachEventOnce(b1);
    EachEventOnce(b2);
    var m1, m2, d := ProcessAll(EMPTY, b1).models, ProcessAll(EMPTY, b2).models, Seen(b1);
    hide ProcessAll, Seen, Crossings, Bumping;
    forall id ensures CountAt(m1.aggregateSeq, id) == CountAt(m2.aggregateSeq, id) {
      HighestUnique(CountAt(m1.aggregateSeq, id), CountAt(m2.aggregateSeq, id), d, id);
    }
    if DistinctTimes(d) {
      forall id ensures LocationAt(m1.vehicles, id) == LocationAt(m2.vehicles, id) {
        NewestUnique(LocationAt(m1.vehicles, id), LocationAt(m2.vehicles, id), d, id);
      }
    }
  }

  // How many events of the list are newly applied.
  function NewlyApplied(s: Sink, es: seq<Event>): nat
    decreases |es|
  {
    if es == [] then 0
    else (if ProcessedByAll(s, es[0]) then 0 else 1) + NewlyApplied(Apply(s, es[0]), es[1..])
  }

  lemma {:induction false} NewlyAppliedCounts(s: Sink, d: set<Event>, es: seq<Event>)
    requires Means(s, d) && Consistent(d + Elements(es))
    ensures NewlyApplied(s, es) == |d + Elements(es)| - |d|
    decreases |es|
  {
    hide Means, ProcessedByAll, Apply;
    if es == [] {
      assert d + Elements(es) == d;
    } else {
      assert d + Elements(es) == (d + {es[0]}) + Elements(es[1..]);
      assert d + {es[0]} <= d + Elements(es);
      ApplyMeans(s, d, es[0]);
      NewlyAppliedCounts(Apply(s, es[0]), d + {es[0]}, es[1..]);
      if es[0] in d { assert d + {es[0]} == d; }
    }
  }

  // ---- membership is not insensitive to order ----------------------------------------

  predicate Moves(e: Event, room: Option<string>, client: string) {
    e.ofVehicle && e.aggregateId == client && e.roomId == room && (e.kind.RoomJoined? || e.kind.RoomLeft?)
  }

  predicate IsMember(m: Models, room: Option<string>, client: string) {
    room in m.members && client in m.members[room]
  }

  ghost predicate NewestJoins(d: set<Event>, room: Option<string>, client: string) {
    exists e <- d :: Moves(e, room, client) && e.kind.RoomJoined?
                     && forall f <- d :: Moves(f, room, client) ==> f.timestamp <= e.timestamp
  }

  // The read model lists the client exactly when its newest move was a join.
  ghost predicate MembershipFits(m: Models, d: set<Event>, room: Option<string>, client: string) {
    IsMember(m, room, client) <==> NewestJoins(d, room, client)
  }

  lemma MoveDecides(m: Models, e: Event, room: Option<string>, client: string)
    ensures IsMember(HandleMembership(m, e), room, client)
       <==> if Moves(e, room, client) then e.kind.RoomJoined? else IsMember(m, room, client)
  {
  }

  // All events in the order in which they are taken up.
  function Arrivals(batches: seq<seq<Event>>): seq<Event>
    decreases |batches|
  {
    if batches == [] then [] else SortByTime(batches[0]) + Arrivals(batches[1..])
  }

  // The events not seen before, each where it first comes up.
  ghost function FirstTimes(es: seq<Event>, seen: set<Event>): seq<Event>
    decreases |es|
  {
    if es == [] then []
    else if es[0] in seen then FirstTimes(es[1..], seen)
    else [es[0]] + FirstTimes(es[1..], seen + {es[0]})
  }

  // The events in the order in which they are applied.
  ghost function Applied(batches: seq<seq<Event>>): seq<Event> {
    FirstTimes(Arrivals(batches), {})
  }

  function LastMove(es: seq<Event>, room: Option<string>, client: string): Option<Event> {
    if es == [] then None
    else if Moves(es[|es| - 1], room, client) then Some(es[|es| - 1])
    else LastMove(es[..|es| - 1], room, client)
  }

  predicate Joins(move: Option<Event>) {
    move.Some? && move.value.kind.RoomJoined?
  }

  lemma {:induction false} LastMoveCons(e: Event, rest: seq<Event>, room: Option<string>, client: string)
    ensures LastMove([e] + rest, room, client) ==
            if LastMove(rest, room, client).Some? then LastMove(rest, room, client)
            else if Moves(e, room, client) then Some(e) else None
    decreases |rest|
  {
    var es := [e] + rest;
    if rest == [] {
      assert es == [e] && es[..0] == [];
    } else {
      assert es[..|es| - 1] == [e] + rest[..|rest| - 1] && es[|es| - 1] == rest[|rest| - 1];
      LastMoveCons(e, rest[..|rest| - 1], room, client);
    }
  }

  lemma ApplyMember(s: Sink, d: set<Event>, e: Event, room: Option<string>, client: string)
    requires Means(s, d) && Consistent(d + {e})
    ensures Means(Apply(s, e), d + {e})
    ensures IsMember(Apply(s, e).models, room, client) <==>
            if e !in d && Moves(e, room, client) then e.kind.RoomJoined? else IsMember(s.models, room, client)
  {
    ApplyMeans(s, d, e);
    hide Means;
    if e !in d {
      ThroughDefaults(s, e);
      HandledParts(s.models, e);
      KeptByVehicle(s.models, e);
      MoveDecides(HandleVehicle(s.models, e), e, room, client);
      hide HandleVehicle, HandleMembership, AllHandled, ProjectThrough;
    }
  }

  lemma {:induction false} ApplyAllMember(s: Sink, d: set<Event>, es: seq<Event>, room: Option<string>, client: string)
    requires Means(s, d) && Consistent(d + Elements(es))
    ensures
      var last := LastMove(FirstTimes(es, d), room, client);
      IsMember(ApplyAll(s, es).models, room, client) <==> if last.Some? then Joins(last) else IsMember(s.models, room, client)
    decreases |es|
  {
    hide Means, Apply, IsMember, Moves;
    if es != [] {
      var e := es[0];
      assert d + Elements(es) == (d + {e}) + Elements(es[1..]);
      assert d + {e} <= d + Elements(es);
      ApplyMember(s, d, e, room, client);
      ApplyAllMember(Apply(s, e), d + {e}, es[1..], room, client);
      if e in d {
        assert d + {e} == d;
      } else {
        LastMoveCons(e, FirstTimes(es[1..], d + {e}), room, client);
      }
    }
  }

  lemma {:induction false} ApplyAllConcat(s: Sink, a: seq<Event>, b: seq<Event>)
    ensures ApplyAll(s, a + b) == ApplyAll(ApplyAll(s, a), b)
    decreases |a|
  {
    hide Apply;
    if a == [] {
      assert a + b == b;
    } else {
      assert (a + b)[1..] == a[1..] + b;
      ApplyAllConcat(Apply(s, a[0]), a[1..], b);
    }
  }

  lemma {:induction false} BatchesAreArrivals(s: Sink, batches: seq<seq<Event>>)
    ensures ProcessAll(s, batches) == ApplyAll(s, Arrivals(batches))
    ensures Elements(Arrivals(batches)) == Seen(batches)
    decreases |batches|
  {
    hide Apply, SortByTime;
    if batches != [] {
      ApplyAllConcat(s, SortByTime(batches[0]), Arrivals(batches[1..]));
      BatchesAreArrivals(Process(s, batches[0]), batches[1..]);
      SortedSame(batches[0]);
      assert Elements(Arrivals(batches)) == Elements(SortByTime(batches[0])) + Elements(Arrivals(batches[1..]));
    }
  }

  lemma SortedSame(batch: seq<Event>)
    ensures Elements(SortByTime(batch)) == Elements(batch)
  {
    assert multiset(SortByTime(batch)) == multiset(batch);
    forall e ensures e in SortByTime(batch) <==> e in batch {
      assert e in SortByTime(batch) <==> e in multiset(SortByTime(batch));
      assert e in batch <==> e in multiset(batch);
    }
  }

  // Over any batches, a client is listed exactly when its last applied move is a join.
  lemma MembershipByLastMove(batches: seq<seq<Event>>, room: Option<string>, client: string)
    requires Consistent(Seen(batches))
    ensures IsMember(ProcessAll(EMPTY, batches).models, room, client) <==> Joins(LastMove(Applied(batches), room, client))
  {
    BatchesAreArrivals(EMPTY, batches);
    EmptyMeans();
    assert {} + Elements(Arrivals(batches)) == Seen(batches);
    hide Means;
    ApplyAllMember(EMPTY, {}, Arrivals(batches), room, client);
  }

  // The vehicle's own row lists the room.
  predicate InRow(m: Models, room: Option<string>, client: string) {
    room in VehicleAt(m, client).rooms
  }

  ghost predicate RowsAgree(m: Models) {
    forall room, client :: InRow(m, room, client) <==> IsMember(m, room, client)
  }

  lemma RowDecides(m: Models, e: Event, room: Option<string>, client: string)
    ensures InRow(HandleVehicle(m, e), room, client)
       <==> if Moves(e, room, client) then e.kind.RoomJoined? else InRow(m, room, client)
  {
  }

  lemma ApplyRows(s: Sink, e: Event)
    requires RowsAgree(s.models)
    ensures RowsAgree(Apply(s, e).models)
  {
    if !ProcessedByAll(s, e) {
      ThroughDefaults(s, e);
      HandledParts(s.models, e);
      KeptByVehicle(s.models, e);
      var m := HandleVehicle(s.models, e);
      forall room, client ensures InRow(Apply(s, e).models, room, client) <==> IsMember(Apply(s, e).models, room, client) {
        RowDecides(s.models, e, room, client);
        MoveDecides(m, e, room, client);
        assert InRow(s.models, room, client) <==> IsMember(s.models, room, client);
        hide HandleVehicle, HandleMembership, AllHandled, ProjectThrough, ProcessedByAll, Moves;
      }
    }
  }

  lemma {:induction false} ApplyAllRows(s: Sink, es: seq<Event>)
    requires RowsAgree(s.models)
    ensures RowsAgree(ApplyAll(s, es).models)
    decreases |es|
  {
    hide Apply, RowsAgree;
    if es != [] {
      ApplyRows(s, es[0]);
      ApplyAllRows(Apply(s, es[0]), es[1..]);
    }
  }

  // A vehicle's row lists a room exactly when the room's members list the vehicle, over any batches;
  // so it is right, and agrees between batchings, exactly when the membership does.
  lemma RowsAreMemberships(batches: seq<seq<Event>>, room: Option<string>, client: string)
    ensures InRow(ProcessAll(EMPTY, batches).models, room, client) <==> IsMember(ProcessAll(EMPTY, batches).models, room, client)
  {
    BatchesAreArrivals(EMPTY, batches);
    ApplyAllRows(EMPTY, Arrivals(batches));
  }

  // Over any batches, the listing is right if and only if the last applied move is a join exactly
  // when the newest one is.
  lemma MembershipRightIff(batches: seq<seq<Event>>, room: Option<string>, client: string)
    requires Consistent(Seen(batches))
    ensures MembershipFits(ProcessAll(EMPTY, batches).models, Seen(batches), room, client)
       <==> (Joins(LastMove(Applied(batches), room, client)) <==> NewestJoins(Seen(batches), room, client))
  {
    hide IsMember, NewestJoins, Joins;
    MembershipByLastMove(batches, room, client);
  }

  // Two batchings of the same events list a client alike if and only if they end on the same kind
  // of move.
  lemma MembershipsAgreeIff(b1: seq<seq<Event>>, b2: seq<seq<Event>>, room: Option<string>, client: string)
    requires Consistent(Seen(b1)) && Seen(b1) == Seen(b2)
    ensures (IsMember(ProcessAll(EMPTY, b1).models, room, client) <==> IsMember(ProcessAll(EMPTY, b2).models, room, client))
       <==> (Joins(LastMove(Applied(b1), room, client)) <==> Joins(LastMove(Applied(b2), room, client)))
  {
    hide IsMember, Joins;
    MembershipByLastMove(b1, room, client);
    MembershipByLastMove(b2, room, client);
  }

  lemma {:induction false} FirstTimesExact(es: seq<Event>, seen: set<Event>)
    ensures Elements(FirstTimes(es, seen)) == Elements(es) - seen
    decreases |es|
  {
    if es != [] {
      var e, rest := es[0], es[1..];
      assert Elements(es) == {e} + Elements(rest);
      if e in seen {
        FirstTimesExact(rest, seen);
      } else {
        FirstTimesExact(rest, seen + {e});
        assert Elements([e] + FirstTimes(rest, seen + {e})) == {e} + Elements(FirstTimes(rest, seen + {e}));
      }
    }
  }

  // The moves of the pair come up in order of time.
  ghost predicate MovesInOrder(es: seq<Event>, room: Option<string>, client: string) {
    forall i, j | 0 <= i < j < |es| && Moves(es[i], room, client) && Moves(es[j], room, client) :: es[i].timestamp <= es[j].timestamp
  }

  lemma {:induction false} LastIsNewest(es: seq<Event>, room: Option<string>, client: string)
    requires MovesInOrder(es, room, client)
    ensures
      var last := LastMove(es, room, client);
      if last.None? then forall f <- es :: !Moves(f, room, client)
      else last.value in es && Moves(last.value, room, client)
           && forall f <- es :: Moves(f, room, client) ==> f.timestamp <= last.value.timestamp
  {
    if es != [] {
      var n := |es| - 1;
      assert es == es[..n] + [es[n]];
      if Moves(es[n], room, client) {
        forall f <- es | Moves(f, room, client) ensures f.timestamp <= es[n].timestamp {
          var k :| 0 <= k < |es| && es[k] == f;
        }
      } else {
        LastIsNewest(es[..n], room, client);
      }
    }
  }

  // Late events do no harm as long as the moves of the client in the room arrive in order.
  lemma InOrderIsRight(batches: seq<seq<Event>>, room: Option<string>, client: string)
    requires Consistent(Seen(batches)) && DistinctTimes(Seen(batches)) && MovesInOrder(Applied(batches), room, client)
    ensures MembershipFits(ProcessAll(EMPTY, batches).models, Seen(batches), room, client)
  {
    BatchesAreArrivals(EMPTY, batches);
    FirstTimesExact(Arrivals(batches), {});
    assert Elements(Applied(batches)) == Seen(batches);
    hide ProcessAll, Seen, Applied, MovesInOrder, DistinctTimes, NewestJoins, Joins, Elements, Arrivals;
    LastDecides(Applied(batches), Seen(batches), room, client);
    MembershipRightIff(batches, room, client);
  }

  lemma LastDecides(es: seq<Event>, d: set<Event>, room: Option<string>, client: string)
    requires Elements(es) == d && DistinctTimes(d) && MovesInOrder(es, room, client)
    ensures Joins(LastMove(es, room, client)) <==> NewestJoins(d, room, client)
  {
    LastIsNewest(es, room, client);
    hide LastMove, MovesInOrder, Moves;
    assert forall f :: f in es <==> f in d;
  }

  // A join at time 1 and the leave at time 2, in one batch and in two batches the wrong way round.
  lemma OutOfOrderDiverges(join: Event, leave: Event)
    requires join == Event("a", 1, true, "c", None, Some("r"), RoomJoined)
    requires leave == Event("b", 2, true, "c", None, Some("r"), RoomLeft)
    ensures !IsMember(ProcessAll(EMPTY, [[leave, join]]).models, Some("r"), "c")
    ensures IsMember(ProcessAll(EMPTY, [[leave], [join]]).models, Some("r"), "c")
  {
    BothApplied(join, leave);
    BothApplied(leave, join);
    assert Earlier(join, leave);
    hide Apply, IsMember, Earlier;
    OneBatch(EMPTY, join, leave);
    TwoBatches(EMPTY, leave, join);
  }

  lemma OneBatch(s: Sink, a: Event, b: Event)
    requires Earlier(a, b)
    ensures ProcessAll(s, [[b, a]]) == Apply(Apply(s, a), b)
  {
    hide Apply, Earlier;
    assert [b, a][..1] == [b] && [b][..0] == [];
    assert SortByTime([b]) == [b];
    assert SortByTime([b, a]) == InsertByTime(a, [b]) == [a, b];
    ApplyAllTwo(s, a, b);
    assert [[b, a]][1..] == [];
  }

  lemma TwoBatches(s: Sink, a: Event, b: Event)
    ensures ProcessAll(s, [[a], [b]]) == Apply(Apply(s, a), b)
  {
    hide Apply, Earlier;
    assert [a][..0] == [] && [b][..0] == [] && SortByTime([a]) == [a] && SortByTime([b]) == [b];
    ApplyAllTwo(s, a, b);
    assert [[a], [b]][1..] == [[b]] && [[b]][1..] == [];
    assert ProcessAll(Apply(s, a), [[b]]) == Process(Apply(s, a), [b]);
  }

  lemma ApplyAllTwo(s: Sink, a: Event, b: Event)
    ensures ApplyAll(s, [a]) == Apply(s, a) && ApplyAll(s, [a, b]) == Apply(Apply(s, a), b)
    ensures ApplyAll(Apply(s, a), [b]) == Apply(Apply(s, a), b)
  {
    hide Apply;
    assert [a][1..] == [] && [a, b][1..] == [b] && [b][1..] == [];
    assert ApplyAll(Apply(s, a), [b]) == Apply(Apply(s, a), b);
  }

  // Two events with different ids, applied one after the other from the start: the second decides.
  lemma BothApplied(a: Event, b: Event)
    requires a.eventId != b.eventId && Moves(a, Some("r"), "c") && Moves(b, Some("r"), "c")
    ensures IsMember(Apply(Apply(EMPTY, a), b).models, Some("r"), "c") <==> b.kind.RoomJoined?
  {
    assert VehicleState in DEFAULTS;
    var s := Apply(EMPTY, a);
    ThroughDefaults(EMPTY, a);
    assert b.eventId !in ProcessedBy(s, VehicleState);
    ThroughDefaults(s, b);
    HandledParts(s.models, b);
    MoveDecides(HandleVehicle(s.models, b), b, Some("r"), "c");
    hide HandleVehicle, HandleMembership, AllHandled, ProjectThrough;
  }

  // Batches are processed by time, then by id.
  ghost predicate InTimeOrder(es: seq<Event>) {
    forall i, j | 0 <= i < j < |es| :: !Earlier(es[j], es[i])
  }

  lemma EarlierOrder(a: Event, b: Event, c: Event)
    ensures !(Earlier(a, b) && Earlier(b, a))
    ensures !Earlier(b, a) && !Earlier(c, b) ==> !Earlier(c, a)
  {
    StringOrder();
    assert StringLess(a.eventId, b.eventId) || a.eventId == b.eventId || StringLess(b.eventId, a.eventId);
    assert StringLess(b.eventId, c.eventId) || b.eventId == c.eventId || StringLess(c.eventId, b.eventId);
    hide StringLess;
  }

  lemma {:induction false} InsertKeepsOrder(e: Event, es: seq<Event>)
    requires InTimeOrder(es)
    ensures InTimeOrder(InsertByTime(e, es))
  {
    var r := InsertByTime(e, es);
    if es == [] {
    } else if Earlier(e, es[0]) {
      forall i, j | 0 <= i < j < |r| ensures !Earlier(r[j], r[i]) {
        if i == 0 {
          EarlierOrder(e, es[0], es[0]);
          assert r[j] == es[j - 1];
          if j > 1 { EarlierOrder(e, es[0], es[j - 1]); }
        }
      }
    } else {
      var rest := InsertByTime(e, es[1..]);
      InsertKeepsOrder(e, es[1..]);
      forall i, j | 0 <= i < j < |r| ensures !Earlier(r[j], r[i]) {
        if i == 0 {
          assert r[j] in multiset(rest);
          assert r[j] == e || r[j] in multiset(es[1..]);
        } else {
          assert r[i] == rest[i - 1] && r[j] == rest[j - 1];
        }
      }
    }
  }

  lemma {:induction false} SortedInTimeOrder(es: seq<Event>)
    ensures InTimeOrder(SortByTime(es))
    ensures forall i, j | 0 <= i < j < |SortByTime(es)| ::
      var a, b := SortByTime(es)[i], SortByTime(es)[j];
      a.timestamp < b.timestamp || (a.timestamp == b.timestamp && (a.eventId == b.eventId || StringLess(a.eventId, b.eventId)))
  {
    if es != [] {
      SortedInTimeOrder(es[..|es| - 1]);
      InsertKeepsOrder(es[|es| - 1], SortByTime(es[..|es| - 1]));
    }
    var sorted := SortByTime(es);
    forall i, j | 0 <= i < j < |sorted| ensures !Earlier(sorted[j], sorted[i]) {
    }
    StringOrder();
    hide StringLess, SortByTime, InTimeOrder;
  }

  // ---- the manager -------------------------------------------------------------------

  class ProjectionManager {
    var sink: Sink
    var processedTotal: nat
    var lag: nat

    constructor ()
      ensures sink == EMPTY && processedTotal == 0 && lag == 0
    {
      sink, processedTotal, lag := EMPTY, 0, 0;
    }

    // One event less to catch up with.
    method CatchUp()
      modifies this`lag
      ensures lag == if old(lag) > 0 then old(lag) - 1 else 0
    {
      lag := if lag > 0 then lag - 1 else 0;
    }

    method ProcessEvents(events: seq<Event>) returns (applied: nat)
      modifies this
      ensures sink == Process(old(sink), events) && applied == NewlyApplied(old(sink), SortByTime(events))
      ensures processedTotal == old(processedTotal) + applied && lag == old(lag)
    {
      applied := 0;
      if |events| == 0 { return; }
      var ordered := SortByTime(events);
      lag := lag + |ordered|;
      for i := 0 to |ordered|
        invariant ApplyAll(sink, ordered[i..]) == ApplyAll(old(sink), ordered)
        invariant applied + NewlyApplied(sink, ordered[i..]) == NewlyApplied(old(sink), ordered)
        invariant processedTotal == old(processedTotal) + applied && lag == old(lag) + |ordered| - i
      {
        var event := ordered[i];
        assert ordered[i..][0] == event && ordered[i..][1..] == ordered[i + 1..];
        var done := IsProcessedByAll(event);
        if !done {
          ProjectAll(event);
          applied, processedTotal := applied + 1, processedTotal + 1;
        }
        CatchUp();
      }
      assert ordered[|ordered|..] == [];
    }

    method IsProcessedByAll(event: Event) returns (done: bool)
      ensures done == ProcessedByAll(sink, event)
    {
      for i := 0 to |DEFAULTS|
        invariant forall k | 0 <= k < i :: event.eventId in ProcessedBy(sink, DEFAULTS[k])
      {
        if event.eventId !in ProcessedBy(sink, DEFAULTS[i]) { return false; }
      }
      done := true;
    }

    method ProjectAll(event: Event)
      modifies this`sink
      ensures sink == ProjectThrough(DEFAULTS, old(sink), event)
    {
      for i := 0 to |DEFAULTS|
        invariant ProjectThrough(DEFAULTS[i..], sink, event) == ProjectThrough(DEFAULTS, old(sink), event)
      {
        assert DEFAULTS[i..][0] == DEFAULTS[i] && DEFAULTS[i..][1..] == DEFAULTS[i + 1..];
        sink := Project(DEFAULTS[i], sink, event);
      }
      assert DEFAULTS[|DEFAULTS|..] == [];
    }
  }
}
