// The vehicle aggregate: state as a fold over its events, and the events each
// command handler records against that state.
module Vehicle {
  import opened Wrappers

  datatype Fence = Fence(fenceId: string, lat: real, lon: real, radiusM: real)
  datatype Fix = Fix(lat: real, lon: real)

  // Great-circle distance in metres; the model is the same for every function.
  type Metres = (Fix, Fence) -> real

  datatype Body =
    | LocationUpdate(payload: string)
    | RoomJoined(room: string)
    | RoomLeft(room: string)
    | GeofenceUpdated(room: string, fences: seq<Fence>)
    | GeofenceEntered(fenceId: string)
    | GeofenceExited(fenceId: string)
    | SessionResumed(rooms: seq<Resumed>)
    | MessageAck(room: string, seqNo: int)
    | MessageNack(room: string, seqNo: int)

  datatype Resumed = Resumed(room: string, highestAcked: Option<int>)

  datatype Event = Event(eventId: string, aggregateId: string, sequence: nat, timestamp: string, body: Body)

  datatype State = State(
    location: Option<(string, string)>,
    rooms: set<string>,
    acked: map<string, int>,
    inside: set<string>,
    fences: seq<(string, seq<Fence>)>,  // a Map, in insertion order
    roomSeqs: map<string, int>,
    updates: nat, entries: nat, exits: nat)

  const INITIAL := State(None, {}, map[], {}, [], map[], 0, 0, 0)

  // ------------------------------------------------------------- transitions

  // Map.set: an existing key keeps its place.
  function SetFences(m: seq<(string, seq<Fence>)>, room: string, fences: seq<Fence>): seq<(string, seq<Fence>)> {
    if m == [] then [(room, fences)]
    else if m[0].0 == room then [(room, fences)] + m[1..]
    else [m[0]] + SetFences(m[1..], room, fences)
  }

  function DeleteFences(m: seq<(string, seq<Fence>)>, room: string): seq<(string, seq<Fence>)> {
    if m == [] then []
    else if m[0].0 == room then m[1..]
    else [m[0]] + DeleteFences(m[1..], room)
  }

  function Resume(s: State, rooms: seq<Resumed>): State
    decreases |rooms|
  {
    if rooms == [] then s
    else
      var r := rooms[0];
      var acked := if r.highestAcked.Some? then s.acked[r.room := r.highestAcked.value] else s.acked;
      Resume(s.(rooms := s.rooms + {r.room}, acked := acked), rooms[1..])
  }

  function Mutate(s: State, b: Body, timestamp: string): State {
    match b
    case LocationUpdate(payload) => s.(location := Some((payload, timestamp)), updates := s.updates + 1)
    case RoomJoined(room) =>
      s.(rooms := s.rooms + {room}, roomSeqs := if room in s.roomSeqs then s.roomSeqs else s.roomSeqs[room := 0])
    case RoomLeft(room) => s.(rooms := s.rooms - {room}, acked := s.acked - {room})
    case GeofenceUpdated(room, fences) =>
      s.(fences := if fences != [] then SetFences(s.fences, room, fences) else DeleteFences(s.fences, room))
    case GeofenceEntered(f) => s.(inside := s.inside + {f}, entries := s.entries + 1)
    case GeofenceExited(f) => s.(inside := s.inside - {f}, exits := s.exits + 1)
    case SessionResumed(rooms) => Resume(s, rooms)
    case MessageAck(room, n) => s.(acked := s.acked[room := n])
    case MessageNack(_, _) => s
  }

  function FoldFrom(s: State, es: seq<Event>): State
    decreases |es|
  {
    if es == [] then s else FoldFrom(Mutate(s, es[0].body, es[0].timestamp), es[1..])
  }

  function Fold(es: seq<Event>): State {
    FoldFrom(INITIAL, es)
  }

  lemma {:induction false} FoldConcat(s: State, a: seq<Event>, b: seq<Event>)
    ensures FoldFrom(s, a + b) == FoldFrom(FoldFrom(s, a), b)
    decreases |a|
  {
    if a == [] {
      assert a + b == b;
    } else {
      assert (a + b)[1..] == a[1..] + b;
      FoldConcat(Mutate(s, a[0].body, a[0].timestamp), a[1..], b);
    }
  }

  lemma FoldSnoc(s: State, es: seq<Event>, e: Event)
    ensures FoldFrom(s, es + [e]) == Mutate(FoldFrom(s, es), e.body, e.timestamp)
  {
    FoldConcat(s, es, [e]);
    assert [e][1..] == [];
  }

  // ---------------------------------------------------------------- commands

  datatype Command =
    | PublishLocation(payload: string, fix: Option<Fix>)  // None: a coordinate is not finite
    | JoinRoom(room: string)
    | LeaveRoom(room: string)
    | Acknowledge(room: string, seqNo: int)
    | NegativeAcknowledge(room: string, seqNo: int)
    | UpdateGeofence(room: string, fences: seq<Fence>)
    | ResumeSession(rooms: seq<Resumed>)

  predicate Within(metres: Metres, fix: Fix, f: Fence) {
    metres(fix, f) <= f.radiusM
  }

  // Crossing events for the fences in turn, each judged against the inside set
  // the previous ones left.
  function Crossings(metres: Metres, fix: Fix, inside: set<string>, fences: seq<Fence>): seq<Body>
    decreases |fences|
  {
    if fences == [] then []
    else
      var f, was := fences[0], fences[0].fenceId in inside;
      if Within(metres, fix, f) && !was then
        [GeofenceEntered(f.fenceId)] + Crossings(metres, fix, inside + {f.fenceId}, fences[1..])
      else if !Within(metres, fix, f) && was then
        [GeofenceExited(f.fenceId)] + Crossings(metres, fix, inside - {f.fenceId}, fences[1..])
      else
        Crossings(metres, fix, inside, fences[1..])
  }

  function AllFences(m: seq<(string, seq<Fence>)>): seq<Fence> {
    if m == [] then [] else m[0].1 + AllFences(m[1..])
  }

  // The events a handler records for a command, given the loaded state.
  function Decide(metres: Metres, s: State, cmd: Command): seq<Body> {
    match cmd
    case PublishLocation(payload, fix) =>
      [LocationUpdate(payload)] +
      (if fix.Some? then Crossings(metres, fix.value, s.inside, AllFences(s.fences)) else [])
    case JoinRoom(room) => if room in s.rooms then [] else [RoomJoined(room)]
    case LeaveRoom(room) => if room in s.rooms then [RoomLeft(room)] else []
    case Acknowledge(room, n) =>
      if n <= (if room in s.acked then s.acked[room] else 0) then [] else [MessageAck(room, n)]
    case NegativeAcknowledge(room, n) => [MessageNack(room, n)]
    case UpdateGeofence(room, fences) => [GeofenceUpdated(room, fences)]
    case ResumeSession(rooms) => [SessionResumed(rooms)]
  }

  // ------------------------------------------------ geofence crossing discipline

  function InsideAfter(inside: set<string>, bs: seq<Body>): set<string>
    decreases |bs|
  {
    if bs == [] then inside
    else match bs[0]
      case GeofenceEntered(f) => InsideAfter(inside + {f}, bs[1..])
      case GeofenceExited(f) => InsideAfter(inside - {f}, bs[1..])
      case _ => InsideAfter(inside, bs[1..])
  }

  // Nobody enters a fence it is inside of, or exits one it is not.
  ghost predicate Disciplined(inside: set<string>, bs: seq<Body>)
    decreases |bs|
  {
    bs != [] ==>
      match bs[0]
      case GeofenceEntered(f) => f !in inside && Disciplined(inside + {f}, bs[1..])
      case GeofenceExited(f) => f in inside && Disciplined(inside - {f}, bs[1..])
      case _ => Disciplined(inside, bs[1..])
  }

  lemma {:induction false} CrossingsDisciplined(metres: Metres, fix: Fix, inside: set<string>, fences: seq<Fence>)
    ensures Disciplined(inside, Crossings(metres, fix, inside, fences))
    decreases |fences|
  {
    if fences != [] {
      var f := fences[0];
      CrossingsDisciplined(metres, fix, inside, fences[1..]);
      CrossingsDisciplined(metres, fix, inside + {f.fenceId}, fences[1..]);
      CrossingsDisciplined(metres, fix, inside - {f.fenceId}, fences[1..]);
    }
  }

  lemma DecideDisciplined(metres: Metres, s: State, cmd: Command)
    ensures Disciplined(s.inside, Decide(metres, s, cmd))
  {
    if cmd.PublishLocation? && cmd.fix.Some? {
      CrossingsDisciplined(metres, cmd.fix.value, s.inside, AllFences(s.fences));
    }
  }

  lemma {:induction false} DisciplinedConcat(inside: set<string>, a: seq<Body>, b: seq<Body>)
    ensures InsideAfter(inside, a + b) == InsideAfter(InsideAfter(inside, a), b)
    ensures Disciplined(inside, a) && Disciplined(InsideAfter(inside, a), b) ==> Disciplined(inside, a + b)
    decreases |a|
  {
    if a == [] {
      assert a + b == b;
    } else {
      assert (a + b)[1..] == a[1..] + b;
      match a[0]
      case GeofenceEntered(f) => DisciplinedConcat(inside + {f}, a[1..], b);
      case GeofenceExited(f) => DisciplinedConcat(inside - {f}, a[1..], b);
      case _ => DisciplinedConcat(inside, a[1..], b);
    }
  }

  // The crossings of one fence, true for an entry.
  function CrossingsOf(f: string, bs: seq<Body>): seq<bool> {
    if bs == [] then []
    else if bs[0] == GeofenceEntered(f) then [true] + CrossingsOf(f, bs[1..])
    else if bs[0] == GeofenceExited(f) then [false] + CrossingsOf(f, bs[1..])
    else CrossingsOf(f, bs[1..])
  }

  // Entries and exits of a fence strictly alternate, starting with an exit if
  // the vehicle began inside and an entry if it did not; and the fence is in
  // the inside set exactly when the last crossing was an entry.
  lemma {:induction false} DisciplineAlternates(inside: set<string>, bs: seq<Body>, f: string)
    requires Disciplined(inside, bs)
    ensures
      var xs := CrossingsOf(f, bs);
      && (forall k :: 0 <= k < |xs| ==> xs[k] == ((f in inside) == (k % 2 == 1)))
      && (f in InsideAfter(inside, bs) <==> ((f in inside) == (|xs| % 2 == 0)))
    decreases |bs|
  {
    if bs != [] {
      match bs[0]
      case GeofenceEntered(g) => DisciplineAlternates(inside + {g}, bs[1..], f);
      case GeofenceExited(g) => DisciplineAlternates(inside - {g}, bs[1..], f);
      case _ => DisciplineAlternates(inside, bs[1..], f);
    }
  }

  function Entries(bs: seq<Body>): nat {
    if bs == [] then 0 else (if bs[0].GeofenceEntered? then 1 else 0) + Entries(bs[1..])
  }

  function Exits(bs: seq<Body>): nat {
    if bs == [] then 0 else (if bs[0].GeofenceExited? then 1 else 0) + Exits(bs[1..])
  }

  lemma {:induction false} DisciplineCounts(inside: set<string>, bs: seq<Body>)
    requires Disciplined(inside, bs)
    ensures |InsideAfter(inside, bs)| + Exits(bs) == |inside| + Entries(bs)
    decreases |bs|
  {
    if bs != [] {
      match bs[0]
      case GeofenceEntered(g) => DisciplineCounts(inside + {g}, bs[1..]);
      case GeofenceExited(g) => DisciplineCounts(inside - {g}, bs[1..]);
      case _ => DisciplineCounts(inside, bs[1..]);
    }
  }

  // The verdict of the last fence carrying an id, if any carries it.
  ghost function Verdict(metres: Metres, fix: Fix, fences: seq<Fence>, id: string): Option<bool>
    decreases |fences|
  {
    if fences == [] then None
    else
      var n := |fences| - 1;
      if fences[n].fenceId == id then Some(Within(metres, fix, fences[n]))
      else Verdict(metres, fix, fences[..n], id)
  }

  lemma {:induction false} VerdictCons(metres: Metres, fix: Fix, f: Fence, rest: seq<Fence>, id: string)
    ensures Verdict(metres, fix, [f] + rest, id)
         == if Verdict(metres, fix, rest, id).Some? then Verdict(metres, fix, rest, id)
            else if f.fenceId == id then Some(Within(metres, fix, f)) else None
    decreases |rest|
  {
    if rest == [] {
      assert ([f] + rest)[..0] == [];
    } else {
      var n := |rest|;
      assert ([f] + rest)[..n] == [f] + rest[..n - 1];
      VerdictCons(metres, fix, f, rest[..n - 1], id);
    }
  }

  // After a fix, a fence id is inside exactly when the last fence defined under
  // it contains the fix; an id that is not defined keeps its old standing.
  lemma {:induction false} CrossingsExact(metres: Metres, fix: Fix, inside: set<string>, fences: seq<Fence>, id: string)
    ensures
      var v := Verdict(metres, fix, fences, id);
      id in InsideAfter(inside, Crossings(metres, fix, inside, fences)) <==> (if v.Some? then v.value else id in inside)
    decreases |fences|
  {
    if fences != [] {
      var f := fences[0];
      VerdictCons(metres, fix, f, fences[1..], id);
      assert fences == [f] + fences[1..];
      CrossingsExact(metres, fix, inside, fences[1..], id);
      CrossingsExact(metres, fix, inside + {f.fenceId}, fences[1..], id);
      CrossingsExact(metres, fix, inside - {f.fenceId}, fences[1..], id);
    }
  }

  ghost predicate UniqueIds(fences: seq<Fence>) {
    forall i, j :: 0 <= i < j < |fences| ==> fences[i].fenceId != fences[j].fenceId
  }

  lemma {:induction false} UniqueVerdict(metres: Metres, fix: Fix, fences: seq<Fence>, k: nat)
    requires UniqueIds(fences) && k < |fences|
    ensures Verdict(metres, fix, fences, fences[k].fenceId) == Some(Within(metres, fix, fences[k]))
    decreases |fences|
  {
    if k < |fences| - 1 {
      UniqueVerdict(metres, fix, fences[..|fences| - 1], k);
    }
  }

  // With unique fence ids, the inside set restricted to the defined fences is
  // exactly the fences within radius of the new fix.
  lemma InsideIsWithin(metres: Metres, fix: Fix, inside: set<string>, fences: seq<Fence>)
    requires UniqueIds(fences)
    ensures forall k :: 0 <= k < |fences| ==>
      (fences[k].fenceId in InsideAfter(inside, Crossings(metres, fix, inside, fences)) <==> Within(metres, fix, fences[k]))
  {
    forall k | 0 <= k < |fences|
      ensures fences[k].fenceId in InsideAfter(inside, Crossings(metres, fix, inside, fences)) <==> Within(metres, fix, fences[k])
    {
      UniqueVerdict(metres, fix, fences, k);
      CrossingsExact(metres, fix, inside, fences, fences[k].fenceId);
    }
  }

  // ------------------------------------------------- the fold keeps the tally

  function BodiesOf(es: seq<Event>): (bs: seq<Body>)
    ensures |bs| == |es|
  {
    seq(|es|, i requires 0 <= i < |es| => es[i].body)
  }

  lemma {:induction false} ResumeKeeps(s: State, rooms: seq<Resumed>)
    ensures Resume(s, rooms).inside == s.inside
    ensures Resume(s, rooms).entries == s.entries && Resume(s, rooms).exits == s.exits
    decreases |rooms|
  {
    if rooms != [] {
      var r := rooms[0];
      var acked := if r.highestAcked.Some? then s.acked[r.room := r.highestAcked.value] else s.acked;
      ResumeKeeps(s.(rooms := s.rooms + {r.room}, acked := acked), rooms[1..]);
    }
  }

  lemma {:induction false} FoldTallies(s: State, es: seq<Event>)
    ensures FoldFrom(s, es).inside == InsideAfter(s.inside, BodiesOf(es))
    ensures FoldFrom(s, es).entries == s.entries + Entries(BodiesOf(es))
    ensures FoldFrom(s, es).exits == s.exits + Exits(BodiesOf(es))
    decreases |es|
  {
    if es != [] {
      assert BodiesOf(es)[1..] == BodiesOf(es[1..]);
      var e := es[0];
      if e.body.SessionResumed? { ResumeKeeps(s, e.body.rooms); }
      FoldTallies(Mutate(s, e.body, e.timestamp), es[1..]);
    }
  }

  // --------------------------------------------------- every event is lawful

  // What an event presumes of the state it is recorded against.
  predicate Lawful(s: State, b: Body) {
    match b
    case RoomJoined(room) => room !in s.rooms
    case RoomLeft(room) => room in s.rooms
    case MessageAck(room, n) => n > (if room in s.acked then s.acked[room] else 0)
    case GeofenceEntered(f) => f !in s.inside
    case GeofenceExited(f) => f in s.inside
    case _ => true
  }

  // Each event is lawful for the state the earlier ones leave.
  ghost predicate LawfulFrom(s: State, es: seq<Event>)
    decreases |es|
  {
    es == [] || (Lawful(s, es[0].body) && LawfulFrom(Mutate(s, es[0].body, es[0].timestamp), es[1..]))
  }

  lemma {:induction false} LawfulConcat(s: State, a: seq<Event>, b: seq<Event>)
    ensures LawfulFrom(s, a + b) <==> LawfulFrom(s, a) && LawfulFrom(FoldFrom(s, a), b)
    decreases |a|
  {
    if a == [] {
      assert a + b == b;
    } else {
      assert (a + b)[1..] == a[1..] + b;
      LawfulConcat(Mutate(s, a[0].body, a[0].timestamp), a[1..], b);
    }
  }

  lemma {:induction false} CrossingsLawful(metres: Metres, fix: Fix, s: State, fences: seq<Fence>, es: seq<Event>)
    requires BodiesOf(es) == Crossings(metres, fix, s.inside, fences)
    ensures LawfulFrom(s, es)
    decreases |fences|
  {
    if fences != [] {
      var f := fences[0];
      if Within(metres, fix, f) == (f.fenceId in s.inside) {
        CrossingsLawful(metres, fix, s, fences[1..], es);
      } else {
        assert BodiesOf(es)[0] == es[0].body && BodiesOf(es)[1..] == BodiesOf(es[1..]);
        CrossingsLawful(metres, fix, Mutate(s, es[0].body, es[0].timestamp), fences[1..], es[1..]);
      }
    }
  }

  // What a handler records is lawful for the state it loaded.
  lemma DecideLawful(metres: Metres, s: State, cmd: Command, es: seq<Event>)
    requires BodiesOf(es) == Decide(metres, s, cmd)
    ensures LawfulFrom(s, es)
  {
    if es != [] {
      assert BodiesOf(es)[0] == es[0].body && BodiesOf(es)[1..] == BodiesOf(es[1..]);
      if cmd.PublishLocation? && cmd.fix.Some? {
        CrossingsLawful(metres, cmd.fix.value, Mutate(s, es[0].body, es[0].timestamp), AllFences(s.fences), es[1..]);
      }
    }
  }

  lemma {:induction false} LawfulAt(s: State, es: seq<Event>, i: nat)
    requires LawfulFrom(s, es) && i < |es|
    ensures Lawful(FoldFrom(s, es[..i]), es[i].body)
    decreases i
  {
    if i > 0 {
      LawfulAt(Mutate(s, es[0].body, es[0].timestamp), es[1..], i - 1);
      assert es[..i][1..] == es[1..][..i - 1];
    }
  }
}
