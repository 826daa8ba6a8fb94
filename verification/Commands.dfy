// What each command does to the state a vehicle's log replays to, and what it leaves alone.
module Commands {
  import opened Wrappers
  import opened Vehicle
  import opened EventStore

  type Defined = seq<(string, seq<Fence>)>

  function AckOf(s: State, room: string): int {
    if room in s.acked then s.acked[room] else 0
  }

  function RoomNames(m: Defined): (names: seq<string>)
    ensures |names| == |m|
  {
    seq(|m|, i requires 0 <= i < |m| => m[i].0)
  }

  // The definitions of all other rooms, in order.
  function Others(m: Defined, room: string): Defined {
    if m == [] then [] else (if m[0].0 == room then [] else [m[0]]) + Others(m[1..], room)
  }

  ghost predicate UniqueRooms(m: Defined) {
    forall i, j | 0 <= i < j < |m| :: m[i].0 != m[j].0
  }

  // ---- what a command is to achieve --------------------------------------------------

  ghost predicate Redefined(m: Defined, m': Defined, room: string, fences: seq<Fence>) {
    && UniqueRooms(m') && Others(m', room) == Others(m, room)
    && (room in RoomNames(m') <==> fences != [])
    && (forall x <- m' :: x.0 == room ==> x.1 == fences)
    && (fences != [] ==> RoomNames(m') == if room in RoomNames(m) then RoomNames(m) else RoomNames(m) + [room])
  }

  // The fence at place k of room i is the last one defined under its id.
  ghost predicate LastOfId(m: Defined, i: nat, k: nat)
    requires i < |m| && k < |m[i].1|
  {
    forall j: nat, l: nat | j < |m| && l < |m[j].1| && (j > i || (j == i && l > k)) ::
      m[j].1[l].fenceId != m[i].1[k].fenceId
  }

  // Every fence id stands by the last fence defined under it; ids no longer defined stay as they were.
  ghost predicate Crossed(metres: Metres, fix: Fix, m: Defined, inside: set<string>, inside': set<string>) {
    && (forall i: nat, k: nat | i < |m| && k < |m[i].1| :: LastOfId(m, i, k) ==>
          (m[i].1[k].fenceId in inside' <==> metres(fix, m[i].1[k]) <= m[i].1[k].radiusM))
    && (forall f :: (forall i: nat, k: nat | i < |m| && k < |m[i].1| :: m[i].1[k].fenceId != f) ==>
          (f in inside' <==> f in inside))
  }

  // Entry i names the highest acknowledgement of its room, and no later entry does.
  ghost predicate LastAck(rooms: seq<Resumed>, i: nat)
    requires i < |rooms|
  {
    rooms[i].highestAcked.Some?
    && forall j | i < j < |rooms| :: rooms[j].room == rooms[i].room ==> rooms[j].highestAcked.None?
  }

  ghost predicate AcksTaken(rooms: seq<Resumed>, acked: map<string, int>) {
    forall i: nat | i < |rooms| && LastAck(rooms, i) ::
      rooms[i].room in acked && acked[rooms[i].room] == rooms[i].highestAcked.value
  }

  // Rooms for which no entry names one keep theirs.
  ghost predicate AcksKept(rooms: seq<Resumed>, acked: map<string, int>, acked': map<string, int>) {
    forall r :: (forall x <- rooms :: x.room == r ==> x.highestAcked.None?) ==>
      (r in acked' <==> r in acked) && (r in acked ==> acked'[r] == acked[r])
  }

  ghost predicate Resumes(rooms: seq<Resumed>, s: State, s': State) {
    && (forall r :: r in s'.rooms <==> r in s.rooms || exists x <- rooms :: x.room == r)
    && AcksTaken(rooms, s'.acked) && AcksKept(rooms, s.acked, s'.acked)
  }

  // `at` is the time of the first event recorded.
  ghost predicate Achieves(metres: Metres, cmd: Command, at: string, s: State, s': State) {
    match cmd
    case PublishLocation(payload, fix) =>
      && s'.location == Some((payload, at)) && s'.updates == s.updates + 1
      && (if fix.Some? then Crossed(metres, fix.value, s.fences, s.inside, s'.inside) else s'.inside == s.inside)
      && s'.entries - s'.exits - |s'.inside| == s.entries - s.exits - |s.inside|
      && s' == s.(location := s'.location, updates := s'.updates, inside := s'.inside, entries := s'.entries, exits := s'.exits)
    case JoinRoom(room) =>
      && room in s'.rooms && s'.rooms - {room} == s.rooms - {room}
      && s'.roomSeqs == (if room in s.rooms || room in s.roomSeqs then s.roomSeqs else s.roomSeqs[room := 0])
      && s' == s.(rooms := s'.rooms, roomSeqs := s'.roomSeqs)
    case LeaveRoom(room) =>
      && room !in s'.rooms && s'.rooms == s.rooms - {room} && s'.acked - {room} == s.acked - {room}
      && (room in s'.acked <==> room in s.acked && room !in s.rooms)
      && s' == s.(rooms := s'.rooms, acked := s'.acked)
    case Acknowledge(room, n) =>
      && AckOf(s', room) == (if n > AckOf(s, room) then n else AckOf(s, room))
      && s'.acked - {room} == s.acked - {room} && s' == s.(acked := s'.acked)
    case NegativeAcknowledge(_, _) => s' == s
    case UpdateGeofence(room, fences) =>
      Redefined(s.fences, s'.fences, room, fences) && s' == s.(fences := s'.fences)
    case ResumeSession(rooms) => Resumes(rooms, s, s') && s' == s.(rooms := s'.rooms, acked := s'.acked)
  }

  // Nothing is to be recorded.
  predicate Moot(cmd: Command, s: State) {
    match cmd
    case JoinRoom(room) => room in s.rooms
    case LeaveRoom(room) => room !in s.rooms
    case Acknowledge(room, n) => n <= AckOf(s, room)
    case _ => false
  }

  // ---- rooms keep one entry each -----------------------------------------------------

  lemma NamesCons(x: (string, seq<Fence>), rest: Defined)
    ensures RoomNames([x] + rest) == [x.0] + RoomNames(rest)
    ensures UniqueRooms([x] + rest) <==> UniqueRooms(rest) && x.0 !in RoomNames(rest)
  {
    var m := [x] + rest;
    assert m[1..] == rest;
    if UniqueRooms(m) {
      forall i, j | 0 <= i < j < |rest| ensures rest[i].0 != rest[j].0 { assert m[i + 1].0 != m[j + 1].0; }
      forall i | 0 <= i < |rest| ensures RoomNames(rest)[i] != x.0 { assert m[0].0 != m[i + 1].0; }
    }
    if UniqueRooms(rest) && x.0 !in RoomNames(rest) {
      assert forall i | 0 <= i < |rest| :: RoomNames(rest)[i] == rest[i].0;
    }
  }

  lemma NamesIn(m: Defined, name: string)
    ensures name in RoomNames(m) <==> exists x <- m :: x.0 == name
  {
    if x :| x in m && x.0 == name {
      var i :| 0 <= i < |m| && m[i] == x;
      assert RoomNames(m)[i] == name;
    }
  }

  lemma {:induction false} OthersIn(m: Defined, room: string)
    ensures forall x :: x in Others(m, room) <==> x in m && x.0 != room
  {
    if m != [] {
      OthersIn(m[1..], room);
      assert m == [m[0]] + m[1..];
    }
  }

  lemma {:induction false} OthersOfNone(m: Defined, room: string)
    requires room !in RoomNames(m)
    ensures Others(m, room) == m
  {
    if m != [] {
      assert m == [m[0]] + m[1..];
      NamesCons(m[0], m[1..]);
      OthersOfNone(m[1..], room);
    }
  }

  // The first entry is another room's.
  lemma RedefinedCons(x: (string, seq<Fence>), m: Defined, m': Defined, room: string, fences: seq<Fence>)
    requires Redefined(m, m', room, fences) && UniqueRooms([x] + m) && x.0 != room
    ensures Redefined([x] + m, [x] + m', room, fences)
  {
    NamesCons(x, m);
    NamesCons(x, m');
    OthersIn(m, room);
    OthersIn(m', room);
    NamesIn(m, x.0);
    NamesIn(m', x.0);
    assert ([x] + m)[1..] == m && ([x] + m')[1..] == m';
    assert [x.0] + (RoomNames(m) + [room]) == [x.0] + RoomNames(m) + [room];
    hide RoomNames, UniqueRooms;
  }

  lemma {:induction false} SetRedefines(m: Defined, room: string, fences: seq<Fence>)
    requires UniqueRooms(m) && fences != []
    ensures Redefined(m, SetFences(m, room, fences), room, fences)
  {
    if m == [] {
      var m' := [(room, fences)];
      assert RoomNames(m') == [room] == RoomNames(m) + [room];
      assert room in RoomNames(m') by { assert RoomNames(m')[0] == room; }
      assert m'[1..] == [];
    } else {
      var rest := m[1..];
      assert m == [m[0]] + rest;
      NamesCons(m[0], rest);
      hide UniqueRooms;
      if m[0].0 == room {
        NamesCons((room, fences), rest);
        HeadReplaced(m[0], rest, room, fences);
      } else {
        SetRedefines(rest, room, fences);
        RedefinedCons(m[0], rest, SetFences(rest, room, fences), room, fences);
      }
    }
  }

  lemma HeadReplaced(x: (string, seq<Fence>), rest: Defined, room: string, fences: seq<Fence>)
    requires fences != [] && x.0 == room && UniqueRooms([x] + rest)
    ensures Redefined([x] + rest, [(room, fences)] + rest, room, fences)
  {
    var y := (room, fences);
    NamesCons(x, rest);
    NamesCons(y, rest);
    NamesIn(rest, room);
    OthersOfNone(rest, room);
    assert ([x] + rest)[1..] == rest && ([y] + rest)[1..] == rest;
    hide RoomNames, UniqueRooms;
  }

  lemma {:induction false} DeleteRedefines(m: Defined, room: string)
    requires UniqueRooms(m)
    ensures Redefined(m, DeleteFences(m, room), room, [])
  {
    if m != [] {
      var rest := m[1..];
      assert m == [m[0]] + rest;
      NamesCons(m[0], rest);
      hide UniqueRooms;
      if m[0].0 == room {
        OthersOfNone(rest, room);
        NamesIn(rest, room);
      } else {
        DeleteRedefines(rest, room);
        RedefinedCons(m[0], rest, DeleteFences(rest, room), room, []);
      }
    }
  }

  lemma {:induction false} FoldUnique(s: State, es: seq<Event>)
    requires UniqueRooms(s.fences)
    ensures UniqueRooms(FoldFrom(s, es).fences)
    decreases |es|
  {
    if es != [] {
      var b := es[0].body;
      MutateUnique(s, b, es[0].timestamp);
      FoldUnique(Mutate(s, b, es[0].timestamp), es[1..]);
    }
  }

  lemma MutateUnique(s: State, b: Body, at: string)
    requires UniqueRooms(s.fences)
    ensures UniqueRooms(Mutate(s, b, at).fences)
  {
    hide UniqueRooms;
    if b.GeofenceUpdated? {
      if b.fences != [] { SetRedefines(s.fences, b.room, b.fences); } else { DeleteRedefines(s.fences, b.room); }
    }
    if b.SessionResumed? { ResumeAchieves(s, b.rooms); }
  }

  // ---- one event each ----------------------------------------------------------------

  lemma {:induction false} ResumeAchieves(s: State, rooms: seq<Resumed>)
    ensures Resumes(rooms, s, Resume(s, rooms))
    ensures Resume(s, rooms) == s.(rooms := Resume(s, rooms).rooms, acked := Resume(s, rooms).acked)
    decreases |rooms|
  {
    if rooms != [] {
      var r, rest := rooms[0], rooms[1..];
      var s1 := s.(rooms := s.rooms + {r.room},
                   acked := if r.highestAcked.Some? then s.acked[r.room := r.highestAcked.value] else s.acked);
      ResumeAchieves(s1, rest);
      assert rooms == [r] + rest;
      ResumesCons(r, rest, s, s1, Resume(s1, rest));
    }
  }

  lemma ResumesCons(r: Resumed, rest: seq<Resumed>, s: State, s1: State, s': State)
    requires s1.rooms == s.rooms + {r.room}
    requires s1.acked == if r.highestAcked.Some? then s.acked[r.room := r.highestAcked.value] else s.acked
    requires Resumes(rest, s1, s')
    ensures Resumes([r] + rest, s, s')
  {
    hide AcksTaken, AcksKept;
    assert forall x :: x in [r] + rest <==> x == r || x in rest;
    TakenCons(r, rest, s1.acked, s'.acked);
    KeptCons(r, rest, s.acked, s1.acked, s'.acked);
  }

  lemma KeptCons(r: Resumed, rest: seq<Resumed>, acked: map<string, int>, acked1: map<string, int>, acked': map<string, int>)
    requires acked1 == if r.highestAcked.Some? then acked[r.room := r.highestAcked.value] else acked
    requires AcksKept(rest, acked1, acked')
    ensures AcksKept([r] + rest, acked, acked')
  {
    var rooms := [r] + rest;
    forall q | forall x <- rooms :: x.room == q ==> x.highestAcked.None?
      ensures (q in acked' <==> q in acked) && (q in acked ==> acked'[q] == acked[q]) {
      assert r in rooms;
      assert forall x :: x in rest ==> x in rooms;
    }
  }

  lemma TakenCons(r: Resumed, rest: seq<Resumed>, acked1: map<string, int>, acked': map<string, int>)
    requires r.highestAcked.Some? ==> r.room in acked1 && acked1[r.room] == r.highestAcked.value
    requires AcksTaken(rest, acked') && AcksKept(rest, acked1, acked')
    ensures AcksTaken([r] + rest, acked')
  {
    var rooms := [r] + rest;
    forall i: nat | i < |rooms| && LastAck(rooms, i)
      ensures rooms[i].room in acked' && acked'[rooms[i].room] == rooms[i].highestAcked.value {
      if i == 0 {
        NoLaterAck(r, rest);
        assert r.highestAcked.Some?;
      } else {
        LaterAck(r, rest, i);
      }
    }
  }

  lemma NoLaterAck(r: Resumed, rest: seq<Resumed>)
    requires LastAck([r] + rest, 0)
    ensures forall x <- rest :: x.room == r.room ==> x.highestAcked.None?
  {
    forall x | x in rest && x.room == r.room ensures x.highestAcked.None? {
      var j :| 0 <= j < |rest| && rest[j] == x;
      assert ([r] + rest)[j + 1] == x;
    }
  }

  lemma LaterAck(r: Resumed, rest: seq<Resumed>, i: nat)
    requires 0 < i <= |rest| && LastAck([r] + rest, i)
    ensures LastAck(rest, i - 1) && rest[i - 1] == ([r] + rest)[i]
  {
    forall j | i - 1 < j < |rest| && rest[j].room == rest[i - 1].room ensures rest[j].highestAcked.None? {
      assert ([r] + rest)[j + 1] == rest[j];
    }
  }

  // ---- the crossings of a fix --------------------------------------------------------

  // The last occurrence of an id in a list of fences gives the verdict; none gives none.
  lemma {:induction false} VerdictAt(metres: Metres, fix: Fix, fences: seq<Fence>, k: nat)
    requires k < |fences| && forall l | k < l < |fences| :: fences[l].fenceId != fences[k].fenceId
    ensures Verdict(metres, fix, fences, fences[k].fenceId) == Some(metres(fix, fences[k]) <= fences[k].radiusM)
    decreases |fences|
  {
    if k < |fences| - 1 { VerdictAt(metres, fix, fences[..|fences| - 1], k); }
  }

  lemma {:induction false} VerdictNone(metres: Metres, fix: Fix, fences: seq<Fence>, id: string)
    requires forall f <- fences :: f.fenceId != id
    ensures Verdict(metres, fix, fences, id).None?
    decreases |fences|
  {
    if fences != [] { VerdictNone(metres, fix, fences[..|fences| - 1], id); }
  }

  // Where the fence at place k of room i comes in the list of all fences.
  function Place(m: Defined, i: nat, k: nat): nat
    requires i < |m|
  {
    if i == 0 then k else |m[0].1| + Place(m[1..], i - 1, k)
  }

  lemma {:induction false} PlaceIs(m: Defined, i: nat, k: nat)
    requires i < |m| && k < |m[i].1|
    ensures Place(m, i, k) < |AllFences(m)| && AllFences(m)[Place(m, i, k)] == m[i].1[k]
  {
    if i > 0 { PlaceIs(m[1..], i - 1, k); }
  }

  lemma {:induction false} PlaceOf(m: Defined, p: nat) returns (i: nat, k: nat)
    requires p < |AllFences(m)|
    ensures i < |m| && k < |m[i].1| && Place(m, i, k) == p
  {
    if p < |m[0].1| {
      i, k := 0, p;
    } else {
      i, k := PlaceOf(m[1..], p - |m[0].1|);
      i := i + 1;
    }
  }

  lemma {:induction false} PlaceOrder(m: Defined, i: nat, k: nat, j: nat, l: nat)
    requires i < |m| && k < |m[i].1| && j < |m| && l < |m[j].1| && Place(m, i, k) < Place(m, j, l)
    ensures j > i || (j == i && l > k)
    decreases i
  {
    if i > 0 && j > 0 { PlaceOrder(m[1..], i - 1, k, j - 1, l); }
  }

  lemma CrossingsCross(metres: Metres, fix: Fix, m: Defined, inside: set<string>)
    ensures Crossed(metres, fix, m, inside, InsideAfter(inside, Crossings(metres, fix, inside, AllFences(m))))
  {
    var all := AllFences(m);
    var inside' := InsideAfter(inside, Crossings(metres, fix, inside, all));
    hide InsideAfter, Crossings, Verdict, AllFences;
    forall i: nat, k: nat | i < |m| && k < |m[i].1| && LastOfId(m, i, k)
      ensures m[i].1[k].fenceId in inside' <==> metres(fix, m[i].1[k]) <= m[i].1[k].radiusM {
      LastInAll(m, i, k);
      VerdictAt(metres, fix, all, Place(m, i, k));
      CrossingsExact(metres, fix, inside, all, m[i].1[k].fenceId);
    }
    forall f | forall i: nat, k: nat | i < |m| && k < |m[i].1| :: m[i].1[k].fenceId != f
      ensures f in inside' <==> f in inside {
      forall x | x in all ensures x.fenceId != f {
        var p :| 0 <= p < |all| && all[p] == x;
        var i, k := PlaceOf(m, p);
        PlaceIs(m, i, k);
      }
      VerdictNone(metres, fix, all, f);
      CrossingsExact(metres, fix, inside, all, f);
    }
  }

  lemma LastInAll(m: Defined, i: nat, k: nat)
    requires i < |m| && k < |m[i].1| && LastOfId(m, i, k)
    ensures
      var p := Place(m, i, k);
      p < |AllFences(m)| && AllFences(m)[p] == m[i].1[k]
      && forall q | p < q < |AllFences(m)| :: AllFences(m)[q].fenceId != m[i].1[k].fenceId
  {
    PlaceIs(m, i, k);
    hide AllFences;
    forall q | Place(m, i, k) < q < |AllFences(m)| ensures AllFences(m)[q].fenceId != m[i].1[k].fenceId {
      var j, l := PlaceOf(m, q);
      PlaceIs(m, j, l);
      PlaceOrder(m, i, k, j, l);
    }
  }

  predicate IsCrossing(b: Body) {
    b.GeofenceEntered? || b.GeofenceExited?
  }

  lemma {:induction false} OnlyCrossings(metres: Metres, fix: Fix, inside: set<string>, fences: seq<Fence>)
    ensures forall b <- Crossings(metres, fix, inside, fences) :: IsCrossing(b)
    decreases |fences|
  {
    if fences != [] {
      var f := fences[0];
      OnlyCrossings(metres, fix, inside, fences[1..]);
      OnlyCrossings(metres, fix, inside + {f.fenceId}, fences[1..]);
      OnlyCrossings(metres, fix, inside - {f.fenceId}, fences[1..]);
    }
  }

  // Crossing events touch the inside set and its two counters only.
  lemma {:induction false} CrossingsTouch(s: State, es: seq<Event>)
    requires forall i | 0 <= i < |es| :: IsCrossing(es[i].body)
    ensures
      var s' := FoldFrom(s, es);
      s' == s.(inside := s'.inside, entries := s'.entries, exits := s'.exits)
    decreases |es|
  {
    if es != [] { CrossingsTouch(Mutate(s, es[0].body, es[0].timestamp), es[1..]); }
  }

  lemma PublishAchieves(metres: Metres, s: State, payload: string, fix: Option<Fix>, es: seq<Event>)
    requires BodiesOf(es) == Decide(metres, s, PublishLocation(payload, fix))
    ensures es != [] && Achieves(metres, PublishLocation(payload, fix), es[0].timestamp, s, FoldFrom(s, es))
  {
    var xs := if fix.Some? then Crossings(metres, fix.value, s.inside, AllFences(s.fences)) else [];
    var s1, rest := Mutate(s, es[0].body, es[0].timestamp), es[1..];
    assert BodiesOf(es)[0] == es[0].body && BodiesOf(rest) == BodiesOf(es)[1..] == xs;
    if fix.Some? {
      OnlyCrossings(metres, fix.value, s.inside, AllFences(s.fences));
      CrossingsCross(metres, fix.value, s.fences, s.inside);
      CrossingsDisciplined(metres, fix.value, s.inside, AllFences(s.fences));
    }
    assert forall i | 0 <= i < |rest| :: BodiesOf(rest)[i] == rest[i].body;
    hide Crossed, Crossings, AllFences, InsideAfter, Disciplined, IsCrossing, FoldFrom, Entries, Exits;
    CrossingsTouch(s1, rest);
    FoldTallies(s1, rest);
    FirstFolds(s, es);
    DisciplineCounts(s.inside, xs);
  }

  lemma FirstFolds(s: State, es: seq<Event>)
    requires es != []
    ensures FoldFrom(s, es) == FoldFrom(Mutate(s, es[0].body, es[0].timestamp), es[1..])
  {
  }

  // ---- every command -----------------------------------------------------------------

  // Of the commands that record at most one event.
  lemma {:induction false} OneEventAchieves(metres: Metres, s: State, cmd: Command, es: seq<Event>)
    requires !cmd.PublishLocation? && BodiesOf(es) == Decide(metres, s, cmd) && UniqueRooms(s.fences)
    ensures es == [] <==> Moot(cmd, s)
    ensures Achieves(metres, cmd, if es == [] then "" else es[0].timestamp, s, FoldFrom(s, es))
  {
    hide Redefined, Resumes, UniqueRooms, Resume;
    if es != [] {
      assert BodiesOf(es)[0] == es[0].body && es[1..] == [];
      assert FoldFrom(s, es) == Mutate(s, es[0].body, es[0].timestamp);
    }
    if cmd.UpdateGeofence? {
      if cmd.fences != [] { SetRedefines(s.fences, cmd.room, cmd.fences); } else { DeleteRedefines(s.fences, cmd.room); }
    }
    if cmd.ResumeSession? { ResumeAchieves(s, cmd.rooms); }
  }

  // What a handler records for a command has the effect of that command, and nothing is recorded
  // exactly for a join inside, a leave outside and an acknowledgement not above the last.
  lemma CommandTakesEffect(metres: Metres, prior: seq<Event>, id: string, cmd: Command, metas: seq<Meta>)
    requires |Decide(metres, Fold(prior), cmd)| <= |metas|
    ensures
      var s := Fold(prior);
      var es := StageAll(Aggregate(id, |prior|, |prior|, s), Decide(metres, s, cmd), metas).1;
      (es == [] <==> Moot(cmd, s)) && (!cmd.PublishLocation? ==> |es| <= 1)
      && Achieves(metres, cmd, if es == [] then "" else metas[0].timestamp, s, Fold(prior + es))
  {
    var s := Fold(prior);
    var a, bs := Aggregate(id, |prior|, |prior|, s), Decide(metres, s, cmd);
    StageFolds(a, bs, metas);
    FoldConcat(INITIAL, prior, StageAll(a, bs, metas).1);
    FoldUnique(INITIAL, prior);
    hide StageAll, FoldFrom, Achieves, UniqueRooms, Moot;
    StagedAchieves(metres, a, cmd, metas);
    if !cmd.PublishLocation? { AtMostOne(metres, s, cmd); }
  }

  lemma AtMostOne(metres: Metres, s: State, cmd: Command)
    requires !cmd.PublishLocation?
    ensures |Decide(metres, s, cmd)| <= 1
  {
  }

  lemma FirstTime(a: Aggregate, bs: seq<Body>, ms: seq<Meta>)
    requires |bs| <= |ms|
    ensures var es := StageAll(a, bs, ms).1; es != [] ==> es[0].timestamp == ms[0].timestamp
  {
  }

  // The state an aggregate reaches by recording is the replay of what it recorded.
  lemma {:induction false} StageFolds(a: Aggregate, bs: seq<Body>, ms: seq<Meta>)
    requires |bs| <= |ms|
    ensures var (a', es) := StageAll(a, bs, ms); a'.state == FoldFrom(a.state, es) && BodiesOf(es) == bs
    decreases |bs|
  {
    if bs != [] {
      hide Mutate;
      var e := Stage(a, bs[0], ms[0]);
      StageFolds(ApplyEvent(a, e), bs[1..], ms[1..]);
      var es := StageAll(ApplyEvent(a, e), bs[1..], ms[1..]).1;
      assert ([e] + es)[1..] == es;
      assert BodiesOf([e] + es) == [bs[0]] + BodiesOf(es);
    }
  }

  // What an aggregate records for a command has the effect of that command on its state.
  lemma StagedAchieves(metres: Metres, a: Aggregate, cmd: Command, ms: seq<Meta>)
    requires UniqueRooms(a.state.fences) && |Decide(metres, a.state, cmd)| <= |ms|
    ensures
      var (a', es) := StageAll(a, Decide(metres, a.state, cmd), ms);
      (es == [] <==> Moot(cmd, a.state))
      && Achieves(metres, cmd, if es == [] then "" else ms[0].timestamp, a.state, a'.state)
  {
    var bs := Decide(metres, a.state, cmd);
    var es := StageAll(a, bs, ms).1;
    StageFolds(a, bs, ms);
    FirstTime(a, bs, ms);
    hide StageAll, FoldFrom, Achieves, UniqueRooms;
    if cmd.PublishLocation? {
      PublishAchieves(metres, a.state, cmd.payload, cmd.fix, es);
    } else {
      OneEventAchieves(metres, a.state, cmd, es);
    }
  }

  // ---- every run ---------------------------------------------------------------------

  // Each commit brought as many fresh identities as it recorded events.
  ghost predicate Funded(metres: Metres, history: seq<Commit>) {
    forall k | 0 <= k < |history| ::
      |Decide(metres, Fold(SerialLog(metres, history[..k], history[k].id)), history[k].cmd)| == |history[k].metas| > 0
  }

  // A save that succeeds decided on the state of the whole log.
  lemma SavedState(metres: Metres, sys: System, h: nat, metas: seq<Meta>)
    requires Inv(metres, sys) && Enabled(metres, sys, Save(h, metas, false))
    ensures
      var p := PhaseOf(sys, h);
      var (agg, events) := StageAll(p.agg, Decide(metres, p.agg.state, p.cmd), metas);
      events != [] && Append(sys.store, agg.id, events, agg.sequence - |events|).Ok? ==>
        p.agg.state == Fold(SerialLog(metres, sys.history, agg.id))
  {
    SaveExtends(metres, sys, h, metas);
    hide SerialLog, Fold, StageAll, Append, Decide, Numbered;
  }

  lemma FundedSnoc(metres: Metres, history: seq<Commit>, c: Commit)
    requires Funded(metres, history) && |Decide(metres, Fold(SerialLog(metres, history, c.id)), c.cmd)| == |c.metas| > 0
    ensures Funded(metres, history + [c])
  {
    hide Decide, Fold, SerialLog;
    var longer := history + [c];
    forall k | 0 <= k < |longer|
      ensures |Decide(metres, Fold(SerialLog(metres, longer[..k], longer[k].id)), longer[k].cmd)| == |longer[k].metas| > 0 {
      assert longer[..k] == history[..k];
      if k == |history| { assert history[..k] == history; }
    }
  }

  lemma FundedStep(metres: Metres, sys: System, step: Step, snapshotEvery: nat)
    requires Inv(metres, sys) && Enabled(metres, sys, step) && snapshotEvery > 0 && Funded(metres, sys.history)
    ensures Funded(metres, Next(metres, sys, step, snapshotEvery).history)
  {
    hide Decide, Fold, SerialLog, StageAll, Append, Inv, LoadAggregate, Funded;
    var sys' := Next(metres, sys, step, snapshotEvery);
    if step.Save? && sys'.history != sys.history {
      var p := PhaseOf(sys, step.h);
      var agg := StageAll(p.agg, Decide(metres, p.agg.state, p.cmd), step.metas).0;
      SavedState(metres, sys, step.h, step.metas);
      FundedSnoc(metres, sys.history, Commit(agg.id, p.cmd, step.metas));
    }
  }

  lemma {:induction false} FundedRun(metres: Metres, run: seq<System>, snapshotEvery: nat)
    requires IsRun(metres, run, snapshotEvery)
    ensures Funded(metres, run[|run| - 1].history)
    decreases |run|
  {
    if |run| > 1 {
      hide Inv, Next, Enabled, Funded;
      var init := run[..|run| - 1];
      forall i | 0 < i < |init| ensures Follows(metres, init[i - 1], init[i], snapshotEvery) {
        assert Follows(metres, run[i - 1], run[i], snapshotEvery);
      }
      FundedRun(metres, init, snapshotEvery);
      InvRun(metres, init, snapshotEvery);
      assert Follows(metres, run[|run| - 2], run[|run| - 1], snapshotEvery);
      var step :| Enabled(metres, run[|run| - 2], step) && run[|run| - 1] == Next(metres, run[|run| - 2], step, snapshotEvery);
      FundedStep(metres, run[|run| - 2], step, snapshotEvery);
    }
  }

  // In every interleaving each log replays the saved commands of its vehicle one after another, and
  // each of them had its effect on the state the ones before it left; none was moot.
  lemma SavedCommandsTakeEffect(metres: Metres, run: seq<System>, snapshotEvery: nat, k: nat)
    requires IsRun(metres, run, snapshotEvery) && k < |run[|run| - 1].history|
    ensures
      var sys := run[|run| - 1];
      var c := sys.history[k];
      var before, after := SerialLog(metres, sys.history[..k], c.id), SerialLog(metres, sys.history[..k + 1], c.id);
      Log(sys.store, c.id) == SerialLog(metres, sys.history, c.id)
      && before < after && !Moot(c.cmd, Fold(before)) && c.metas != []
      && Achieves(metres, c.cmd, c.metas[0].timestamp, Fold(before), Fold(after))
  {
    var sys := run[|run| - 1];
    var c := sys.history[k];
    FundedRun(metres, run, snapshotEvery);
    Serialisable(metres, run, snapshotEvery, c.id);
    hide IsRun, Decide, FoldFrom, StageAll, Achieves;
    assert sys.history[..k + 1][..k] == sys.history[..k];
    CommandTakesEffect(metres, SerialLog(metres, sys.history[..k], c.id), c.id, c.cmd, c.metas);
  }
}
