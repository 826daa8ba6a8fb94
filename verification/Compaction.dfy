/**
 * Tiered compaction of the in-memory store: retained raw events are grouped per room and minute,
 * those rows per hour, and those per day. A bucket map keeps its keys in order of first
 * appearance. The median and the distance between two points are parameters.
 */
module Compaction {
  import opened Wrappers
  import opened Collections

  // ---- grouping ----------------------------------------------------------------------

  datatype Group<K, T> = Group(key: K, items: seq<T>)

  // buckets.get(key).push(item), creating the bucket when it is missing.
  function AddTo<K(==), T>(gs: seq<Group<K, T>>, k: K, x: T): seq<Group<K, T>> {
    if gs == [] then [Group(k, [x])]
    else if gs[0].key == k then [Group(k, gs[0].items + [x])] + gs[1..]
    else [gs[0]] + AddTo(gs[1..], k, x)
  }

  function GroupBy<K(==), T>(key: T -> K, xs: seq<T>): seq<Group<K, T>> {
    if xs == [] then []
    else AddTo(GroupBy(key, xs[..|xs| - 1]), key(xs[|xs| - 1]), xs[|xs| - 1])
  }

  function Select<T>(xs: seq<T>, p: T -> bool): seq<T> {
    if xs == [] then []
    else Select(xs[..|xs| - 1], p) + (if p(xs[|xs| - 1]) then [xs[|xs| - 1]] else [])
  }

  // The elements of xs with key k, in order.
  function WithKey<K(==), T>(key: T -> K, xs: seq<T>, k: K): seq<T> {
    if xs == [] then []
    else WithKey(key, xs[..|xs| - 1], k) + (if key(xs[|xs| - 1]) == k then [xs[|xs| - 1]] else [])
  }

  lemma {:induction false} WithKeyIsSelect<K, T>(key: T -> K, xs: seq<T>, k: K, q: T -> bool)
    requires forall x <- xs :: q(x) == (key(x) == k)
    ensures WithKey(key, xs, k) == Select(xs, q)
  {
    if xs != [] { WithKeyIsSelect(key, xs[..|xs| - 1], k, q); }
  }

  ghost predicate HasKey<K, T>(gs: seq<Group<K, T>>, k: K) {
    exists i | 0 <= i < |gs| :: gs[i].key == k
  }

  ghost predicate DistinctKeys<K, T>(gs: seq<Group<K, T>>) {
    forall i, j | 0 <= i < j < |gs| :: gs[i].key != gs[j].key
  }

  // The items filed under k.
  function ItemsAt<K(==), T>(gs: seq<Group<K, T>>, k: K): seq<T> {
    if gs == [] then [] else if gs[0].key == k then gs[0].items else ItemsAt(gs[1..], k)
  }

  lemma {:induction false} AddToKeys<K, T>(gs: seq<Group<K, T>>, k: K, x: T, q: K)
    ensures HasKey(AddTo(gs, k, x), q) <==> HasKey(gs, q) || q == k
    ensures ItemsAt(AddTo(gs, k, x), q) == if q == k then ItemsAt(gs, k) + [x] else ItemsAt(gs, q)
  {
    var r := AddTo(gs, k, x);
    if gs == [] {
      assert r[0].key == k;
    } else if gs[0].key == k {
      assert r[0].key == k && r[1..] == gs[1..];
      KeyHeadTail(gs, q);
      KeyHeadTail(r, q);
    } else {
      AddToKeys(gs[1..], k, x, q);
      assert r[0] == gs[0] && r[1..] == AddTo(gs[1..], k, x);
      KeyHeadTail(gs, q);
      KeyHeadTail(r, q);
    }
  }

  lemma KeyHeadTail<K, T>(gs: seq<Group<K, T>>, q: K)
    requires gs != []
    ensures HasKey(gs, q) <==> gs[0].key == q || HasKey(gs[1..], q)
  {
    if HasKey(gs[1..], q) {
      var i :| 0 <= i < |gs[1..]| && gs[1..][i].key == q;
      assert gs[i + 1].key == q;
    }
    if HasKey(gs, q) && gs[0].key != q {
      var i :| 0 <= i < |gs| && gs[i].key == q;
      assert gs[1..][i - 1].key == q;
    }
  }

  lemma {:induction false} AddToDistinct<K, T>(gs: seq<Group<K, T>>, k: K, x: T)
    requires DistinctKeys(gs)
    ensures DistinctKeys(AddTo(gs, k, x))
  {
    if gs != [] && gs[0].key != k {
      AddToDistinct(gs[1..], k, x);
      var r := AddTo(gs[1..], k, x);
      forall j | 0 <= j < |r| ensures r[j].key != gs[0].key {
        AddToKeys(gs[1..], k, x, r[j].key);
        assert HasKey(r, r[j].key);
      }
    }
  }

  lemma {:induction false} ItemsOf<K, T>(gs: seq<Group<K, T>>, i: nat)
    requires DistinctKeys(gs) && i < |gs|
    ensures ItemsAt(gs, gs[i].key) == gs[i].items
  {
    if i > 0 { ItemsOf(gs[1..], i - 1); }
  }

  // One group per key that occurs, holding exactly the items with that key, in order.
  lemma {:induction false} GroupByExact<K, T>(key: T -> K, xs: seq<T>)
    ensures
      var gs := GroupBy(key, xs);
      DistinctKeys(gs)
      && (forall k :: HasKey(gs, k) <==> exists x <- xs :: key(x) == k)
      && (forall k :: ItemsAt(gs, k) == WithKey(key, xs, k))
  {
    if xs != [] {
      var n := |xs| - 1;
      var gs := GroupBy(key, xs[..n]);
      GroupByExact(key, xs[..n]);
      AddToDistinct(gs, key(xs[n]), xs[n]);
      forall k
        ensures HasKey(GroupBy(key, xs), k) <==> exists x <- xs :: key(x) == k
        ensures ItemsAt(GroupBy(key, xs), k) == WithKey(key, xs, k)
      {
        AddToKeys(gs, key(xs[n]), xs[n], k);
        assert xs == xs[..n] + [xs[n]];
        hide HasKey, ItemsAt, DistinctKeys, AddTo;
        assert (exists x <- xs :: key(x) == k) <==> (exists x <- xs[..n] :: key(x) == k) || key(xs[n]) == k;
      }
    }
  }

  // ---- weights -----------------------------------------------------------------------

  function Weigh<T>(w: T -> nat, xs: seq<T>): nat {
    if xs == [] then 0 else Weigh(w, xs[..|xs| - 1]) + w(xs[|xs| - 1])
  }

  lemma SelectWeigh<T>(w: T -> nat, xs: seq<T>, q: T -> bool)
    requires xs != []
    ensures Weigh(w, Select(xs, q)) ==
            Weigh(w, Select(xs[..|xs| - 1], q)) + if q(xs[|xs| - 1]) then w(xs[|xs| - 1]) else 0
  {
    var rest, x := Select(xs[..|xs| - 1], q), xs[|xs| - 1];
    assert (rest + [x])[..|rest|] == rest && rest + [] == rest;
  }

  // The weight of all groups whose key satisfies p.
  function GroupWeight<K, T>(w: T -> nat, gs: seq<Group<K, T>>, p: K -> bool): nat {
    if gs == [] then 0
    else (if p(gs[0].key) then Weigh(w, gs[0].items) else 0) + GroupWeight(w, gs[1..], p)
  }

  lemma {:induction false} AddToWeight<K, T>(w: T -> nat, gs: seq<Group<K, T>>, k: K, x: T, p: K -> bool)
    ensures GroupWeight(w, AddTo(gs, k, x), p) == GroupWeight(w, gs, p) + if p(k) then w(x) else 0
  {
    var r := AddTo(gs, k, x);
    if gs == [] {
      assert r[1..] == [] && [x][..0] == [];
      assert Weigh(w, [x]) == Weigh(w, [x][..0]) + w(x);
    } else if gs[0].key == k {
      var items := gs[0].items;
      assert (items + [x])[..|items|] == items && r[1..] == gs[1..];
    } else {
      AddToWeight(w, gs[1..], k, x, p);
      assert r[1..] == AddTo(gs[1..], k, x);
    }
  }

  // Grouping conserves weight: the groups selected by p weigh what their items weigh.
  lemma {:induction false} GroupByWeight<K, T>(w: T -> nat, key: T -> K, xs: seq<T>, p: K -> bool, q: T -> bool)
    requires forall x <- xs :: q(x) == p(key(x))
    ensures GroupWeight(w, GroupBy(key, xs), p) == Weigh(w, Select(xs, q))
  {
    if xs != [] {
      var n := |xs| - 1;
      GroupByWeight(w, key, xs[..n], p, q);
      AddToWeight(w, GroupBy(key, xs[..n]), key(xs[n]), xs[n], p);
      SelectWeigh(w, xs, q);
    }
  }

  lemma {:induction false} GroupWeightSnoc<K, T>(w: T -> nat, gs: seq<Group<K, T>>, g: Group<K, T>, p: K -> bool)
    ensures GroupWeight(w, gs + [g], p) == GroupWeight(w, gs, p) + if p(g.key) then Weigh(w, g.items) else 0
  {
    if gs == [] {
      assert gs + [g] == [g] && [g][1..] == [];
      assert GroupWeight(w, [g][1..], p) == 0;
    } else {
      assert (gs + [g])[1..] == gs[1..] + [g];
      GroupWeightSnoc(w, gs[1..], g, p);
    }
  }

  // Rows made one per group carry the weight of their groups.
  lemma {:induction false} RowsWeight<K, T, R>(
    w: T -> nat, v: R -> nat, rows: seq<R>, gs: seq<Group<K, T>>, p: K -> bool, q: R -> bool)
    requires |rows| == |gs|
    requires forall i | 0 <= i < |gs| :: v(rows[i]) == Weigh(w, gs[i].items) && q(rows[i]) == p(gs[i].key)
    ensures Weigh(v, Select(rows, q)) == GroupWeight(w, gs, p)
    decreases |gs|
  {
    if gs != [] {
      var n := |gs| - 1;
      RowsWeight(w, v, rows[..n], gs[..n], p, q);
      assert gs == gs[..n] + [gs[n]];
      GroupWeightSnoc(w, gs[..n], gs[n], p);
      SelectWeigh(v, rows, q);
    }
  }

  // ---- the tiers ---------------------------------------------------------------------

  const MINUTE := 60000
  const HOUR := 3600000
  const DAY := 86400000

  type Key = (string, int)
  type Point = (real, real)

  datatype Raw = Raw(
    roomId: string, timestamp: int, lat: Option<real>, lon: Option<real>, altitude: Option<real>, speed: Option<real>)
  datatype Row = Row(
    roomId: string, bucketStart: int, bucketEnd: int, at: Point, altitude: Option<real>, maxSpeed: Option<real>,
    totalDistance: real, pointCount: nat)
  datatype Measures = Measures(median: seq<real> -> real, metres: (Point, Point) -> real)

  function Truncate(t: int, width: int): int
    requires width > 0
  {
    t / width * width
  }

  // The bucket start is the multiple of the width with the time in the width after it.
  lemma TruncateIs(t: int, width: int, start: int)
    requires width > 0
    ensures Truncate(t, width) == start <==> start % width == 0 && start <= t < start + width
  {
    var q, k := t / width, start / width;
    assert q * width <= t < q * width + width;
    if start % width == 0 && start <= t < start + width {
      assert start == k * width;
      SameMultiple(t, width, q, k);
    }
    if Truncate(t, width) == start { Multiple(q, width); }
  }

  lemma SameMultiple(t: int, width: int, q: int, k: int)
    requires width > 0 && q * width <= t < q * width + width && k * width <= t < k * width + width
    ensures q == k
  {
    if q < k { Scaled(q + 1, k, width); }
    if k < q { Scaled(k + 1, q, width); }
    assert (q + 1) * width == q * width + width && (k + 1) * width == k * width + width;
  }

  lemma Scaled(a: int, b: int, width: int)
    requires width > 0 && a <= b
    ensures a * width <= b * width
  {
  }

  lemma Multiple(q: int, width: int)
    requires width > 0
    ensures (q * width) % width == 0
  {
    var p := q * width;
    assert p == (p / width) * width + p % width;
    assert (p / width) * width <= p < (p / width) * width + width;
    SameMultiple(p, width, q, p / width);
  }

  lemma TruncationsNest(t: int)
    ensures Truncate(Truncate(t, MINUTE), HOUR) == Truncate(t, HOUR)
    ensures Truncate(Truncate(t, HOUR), DAY) == Truncate(t, DAY)
  {
    MinuteInHour(t);
    HourInDay(t);
  }

  lemma MinuteInHour(t: int)
    ensures (t / 60000 * 60000) / 3600000 == t / 3600000
  {
    var q, m := t / 3600000, t / 60000;
    assert 3600000 * q <= t < 3600000 * q + 3600000;
    assert 60000 * m <= t < 60000 * m + 60000;
    assert 60 * q <= m < 60 * q + 60;
  }

  lemma HourInDay(t: int)
    ensures (t / 3600000 * 3600000) / 86400000 == t / 86400000
  {
    var q, m := t / 86400000, t / 3600000;
    assert 86400000 * q <= t < 86400000 * q + 86400000;
    assert 3600000 * m <= t < 3600000 * m + 3600000;
    assert 24 * q <= m < 24 * q + 24;
  }

  function MinuteKey(e: Raw): Key { (e.roomId, Truncate(e.timestamp, MINUTE)) }
  function HourKey(r: Row): Key { (r.roomId, Truncate(r.bucketStart, HOUR)) }
  function DayKey(r: Row): Key { (r.roomId, Truncate(r.bucketStart, DAY)) }

  function Present(xs: seq<Option<real>>): seq<real> {
    if xs == [] then []
    else Present(xs[..|xs| - 1]) + (if xs[|xs| - 1].Some? then [xs[|xs| - 1].value] else [])
  }

  function Latitudes(es: seq<Raw>): seq<real> {
    Present(seq(|es|, i requires 0 <= i < |es| => es[i].lat))
  }

  function Longitudes(es: seq<Raw>): seq<real> {
    Present(seq(|es|, i requires 0 <= i < |es| => es[i].lon))
  }

  function Altitudes(es: seq<Raw>): seq<real> {
    Present(seq(|es|, i requires 0 <= i < |es| => es[i].altitude))
  }

  function Speeds(es: seq<Raw>): seq<real> {
    Present(seq(|es|, i requires 0 <= i < |es| => es[i].speed))
  }

  function Largest(xs: seq<real>): (m: Option<real>)
    ensures m.None? <==> xs == []
    ensures m.Some? ==> m.value in xs && forall x <- xs :: x <= m.value
  {
    if xs == [] then None
    else
      assert xs == xs[..|xs| - 1] + [xs[|xs| - 1]];
      var rest := Largest(xs[..|xs| - 1]);
      if rest.Some? && rest.value >= xs[|xs| - 1] then rest else Some(xs[|xs| - 1])
  }

  lemma {:induction false} PresentExact(xs: seq<Option<real>>, x: real)
    ensures x in Present(xs) <==> Some(x) in xs
  {
    if xs != [] {
      PresentExact(xs[..|xs| - 1], x);
      assert xs == xs[..|xs| - 1] + [xs[|xs| - 1]];
    }
  }

  function PathLength(m: Measures, rows: seq<Row>): real {
    if |rows| <= 1 then 0.0
    else PathLength(m, rows[..|rows| - 1]) + (m.metres)(rows[|rows| - 2].at, rows[|rows| - 1].at)
  }

  function SumOf(f: Row -> real, rows: seq<Row>): real {
    if rows == [] then 0.0 else SumOf(f, rows[..|rows| - 1]) + f(rows[|rows| - 1])
  }

  function Latitude(r: Row): real { r.at.0 }
  function Longitude(r: Row): real { r.at.1 }
  function Distance(r: Row): real { r.totalDistance }
  function Points(r: Row): nat { r.pointCount }

  function Centre(rows: seq<Row>): Point {
    if rows == [] then (0.0, 0.0)
    else (SumOf(Latitude, rows) / (|rows| as real), SumOf(Longitude, rows) / (|rows| as real))
  }

  function MinuteRow(m: Measures, g: Group<Key, Raw>): Row {
    Row(g.key.0, g.key.1, g.key.1 + MINUTE - 1, ((m.median)(Latitudes(g.items)), (m.median)(Longitudes(g.items))),
        if Altitudes(g.items) == [] then None else Some((m.median)(Altitudes(g.items))), Largest(Speeds(g.items)),
        0.0, |Latitudes(g.items)|)
  }

  function HourRow(m: Measures, g: Group<Key, Row>): Row {
    Row(g.key.0, g.key.1, g.key.1 + HOUR - 1, Centre(g.items), None, None, PathLength(m, g.items), Weigh(Points, g.items))
  }

  function DayRow(g: Group<Key, Row>): Row {
    Row(g.key.0, g.key.1, g.key.1 + DAY - 1, Centre(g.items), None, None, SumOf(Distance, g.items), Weigh(Points, g.items))
  }

  function Minutes(m: Measures, es: seq<Raw>): seq<Row> {
    var gs := GroupBy(MinuteKey, es);
    seq(|gs|, i requires 0 <= i < |gs| => MinuteRow(m, gs[i]))
  }

  function Hours(m: Measures, minutes: seq<Row>): seq<Row> {
    var gs := GroupBy(HourKey, minutes);
    seq(|gs|, i requires 0 <= i < |gs| => HourRow(m, gs[i]))
  }

  function Days(hours: seq<Row>): seq<Row> {
    var gs := GroupBy(DayKey, hours);
    seq(|gs|, i requires 0 <= i < |gs| => DayRow(gs[i]))
  }

  // ---- direct grouping ---------------------------------------------------------------

  // The raw events of the room in the bucket of the given width.
  predicate InBucket(e: Raw, room: string, start: int, width: int)
    requires width > 0
  {
    e.roomId == room && Truncate(e.timestamp, width) == start
  }

  // How many of them have a latitude.
  function PointsIn(es: seq<Raw>, room: string, start: int, width: int): nat
    requires width > 0
  {
    if es == [] then 0
    else
      var e := es[|es| - 1];
      PointsIn(es[..|es| - 1], room, start, width) + if e.lat.Some? && InBucket(e, room, start, width) then 1 else 0
  }

  function Located(e: Raw): nat { if e.lat.Some? then 1 else 0 }

  lemma {:induction false} LatitudesWeigh(es: seq<Raw>)
    ensures |Latitudes(es)| == Weigh(Located, es)
  {
    if es != [] {
      var n := |es| - 1;
      LatitudesWeigh(es[..n]);
      var lats := seq(|es|, i requires 0 <= i < |es| => es[i].lat);
      assert lats[..n] == seq(n, i requires 0 <= i < n => es[..n][i].lat);
    }
  }

  lemma {:induction false} PointsWeigh(es: seq<Raw>, room: string, start: int, width: int, q: Raw -> bool)
    requires width > 0 && forall e <- es :: q(e) == InBucket(e, room, start, width)
    ensures PointsIn(es, room, start, width) == Weigh(Located, Select(es, q))
  {
    if es != [] {
      var n := |es| - 1;
      PointsWeigh(es[..n], room, start, width, q);
      SelectWeigh(Located, es, q);
    }
  }

  // ---- one row per room and bucket ---------------------------------------------------

  ghost predicate HasRow(rows: seq<Row>, room: string, start: int) {
    exists r <- rows :: r.roomId == room && r.bucketStart == start
  }

  ghost predicate OneRowEach(rows: seq<Row>) {
    forall i, j | 0 <= i < j < |rows| :: !(rows[i].roomId == rows[j].roomId && rows[i].bucketStart == rows[j].bucketStart)
  }

  // Rows made from groups: one for each key that occurs, from exactly the items with that key.
  lemma TierRows<T>(key: T -> Key, xs: seq<T>, rows: seq<Row>)
    requires |rows| == |GroupBy(key, xs)|
    requires forall i | 0 <= i < |rows| :: (rows[i].roomId, rows[i].bucketStart) == GroupBy(key, xs)[i].key
    ensures OneRowEach(rows)
    ensures forall room, start :: HasRow(rows, room, start) <==> exists x <- xs :: key(x) == (room, start)
    ensures forall i | 0 <= i < |rows| ::
      GroupBy(key, xs)[i].items == WithKey(key, xs, (rows[i].roomId, rows[i].bucketStart))
  {
    var gs := GroupBy(key, xs);
    GroupByExact(key, xs);
    forall i, j | 0 <= i < j < |rows| ensures !(rows[i].roomId == rows[j].roomId && rows[i].bucketStart == rows[j].bucketStart) {
      assert gs[i].key != gs[j].key;
    }
    forall room, start ensures HasRow(rows, room, start) <==> HasKey(gs, (room, start)) {
      if HasKey(gs, (room, start)) {
        var i :| 0 <= i < |gs| && gs[i].key == (room, start);
        assert rows[i] in rows;
      }
      if HasRow(rows, room, start) {
        var i :| 0 <= i < |rows| && rows[i].roomId == room && rows[i].bucketStart == start;
        assert gs[i].key == (room, start);
      }
    }
    forall i | 0 <= i < |rows| ensures gs[i].items == WithKey(key, xs, gs[i].key) {
      ItemsOf(gs, i);
    }
  }

  // ---- the roll-up agrees with direct grouping ---------------------------------------

  // A tier row is right when it counts the located raw events of its bucket.
  ghost predicate TierExact(rows: seq<Row>, es: seq<Raw>, width: int)
    requires width > 0
  {
    OneRowEach(rows)
    && (forall room, start :: HasRow(rows, room, start) <==> exists e <- es :: InBucket(e, room, start, width))
    && (forall r <- rows :: r.bucketEnd == r.bucketStart + width - 1
                            && r.pointCount == PointsIn(es, r.roomId, r.bucketStart, width))
  }

  lemma MinuteTier(m: Measures, es: seq<Raw>)
    ensures TierExact(Minutes(m, es), es, MINUTE)
  {
    var gs, rows := GroupBy(MinuteKey, es), Minutes(m, es);
    TierRows(MinuteKey, es, rows);
    forall i | 0 <= i < |rows| ensures rows[i].pointCount == PointsIn(es, rows[i].roomId, rows[i].bucketStart, MINUTE) {
      var r := rows[i];
      var q := (e: Raw) => InBucket(e, r.roomId, r.bucketStart, MINUTE);
      LatitudesWeigh(gs[i].items);
      WithKeyIsSelect(MinuteKey, es, (r.roomId, r.bucketStart), q);
      PointsWeigh(es, r.roomId, r.bucketStart, MINUTE, q);
    }
    forall room, start ensures HasRow(rows, room, start) <==> exists e <- es :: InBucket(e, room, start, MINUTE) {
      assert forall e <- es :: MinuteKey(e) == (room, start) <==> InBucket(e, room, start, MINUTE);
    }
  }

  // A minute's top speed is the largest its raw events report, absent when none does.
  lemma TopSpeeds(m: Measures, es: seq<Raw>, r: Row)
    requires r in Minutes(m, es)
    ensures
      var items := WithKey(MinuteKey, es, (r.roomId, r.bucketStart));
      (r.maxSpeed.None? <==> forall e <- items :: e.speed.None?)
      && (r.maxSpeed.Some? ==> (exists e <- items :: e.speed == r.maxSpeed)
                               && forall e <- items :: e.speed.Some? ==> e.speed.value <= r.maxSpeed.value)
  {
    var gs, rows := GroupBy(MinuteKey, es), Minutes(m, es);
    TierRows(MinuteKey, es, rows);
    var i :| 0 <= i < |rows| && rows[i] == r;
    LargestSpeed(gs[i].items);
  }

  lemma LargestSpeed(items: seq<Raw>)
    ensures
      var top := Largest(Speeds(items));
      (top.None? <==> forall e <- items :: e.speed.None?)
      && (top.Some? ==> (exists e <- items :: e.speed == top)
                        && forall e <- items :: e.speed.Some? ==> e.speed.value <= top.value)
  {
    var xs := seq(|items|, i requires 0 <= i < |items| => items[i].speed);
    forall e <- items | e.speed.Some? ensures e.speed.value in Speeds(items) {
      var k :| 0 <= k < |items| && items[k] == e;
      assert xs[k] == Some(e.speed.value);
      PresentExact(xs, e.speed.value);
    }
    var top := Largest(Speeds(items));
    if top.Some? {
      PresentExact(xs, top.value);
      var k :| 0 <= k < |xs| && xs[k] == top;
      assert items[k] in items;
    }
  }

  // Weighing selected minute rows counts the raw events in the selected minutes.
  lemma MinutesSelected(m: Measures, es: seq<Raw>, p: Key -> bool, q: Row -> bool, raw: Raw -> bool)
    requires forall r :: q(r) == p((r.roomId, r.bucketStart))
    requires forall e <- es :: raw(e) == p(MinuteKey(e))
    ensures Weigh(Points, Select(Minutes(m, es), q)) == Weigh(Located, Select(es, raw))
  {
    var gs, rows := GroupBy(MinuteKey, es), Minutes(m, es);
    forall i | 0 <= i < |gs| ensures Points(rows[i]) == Weigh(Located, gs[i].items) && q(rows[i]) == p(gs[i].key) {
      LatitudesWeigh(gs[i].items);
    }
    RowsWeight(Located, Points, rows, gs, p, q);
    GroupByWeight(Located, MinuteKey, es, p, raw);
  }

  lemma MinutesInHour(m: Measures, es: seq<Raw>, room: string, start: int)
    ensures Weigh(Points, WithKey(HourKey, Minutes(m, es), (room, start))) == PointsIn(es, room, start, HOUR)
  {
    var q := (r: Row) => HourKey(r) == (room, start);
    var p := (k: Key) => (k.0, Truncate(k.1, HOUR)) == (room, start);
    var raw := (e: Raw) => InBucket(e, room, start, HOUR);
    WithKeyIsSelect(HourKey, Minutes(m, es), (room, start), q);
    forall e <- es ensures raw(e) == p(MinuteKey(e)) { TruncationsNest(e.timestamp); }
    MinutesSelected(m, es, p, q, raw);
    PointsWeigh(es, room, start, HOUR, raw);
  }

  lemma HoursInDay(m: Measures, es: seq<Raw>, room: string, start: int)
    ensures Weigh(Points, WithKey(DayKey, Hours(m, Minutes(m, es)), (room, start))) == PointsIn(es, room, start, DAY)
  {
    var minutes := Minutes(m, es);
    var gs, rows := GroupBy(HourKey, minutes), Hours(m, minutes);
    var q := (r: Row) => DayKey(r) == (room, start);
    var p := (k: Key) => (k.0, Truncate(k.1, DAY)) == (room, start);
    var raw := (e: Raw) => InBucket(e, room, start, DAY);
    WithKeyIsSelect(DayKey, rows, (room, start), q);
    RowsWeight(Points, Points, rows, gs, p, q);
    forall r ensures q(r) == p(HourKey(r)) { TruncationsNest(r.bucketStart); }
    GroupByWeight(Points, HourKey, minutes, p, q);
    forall e <- es ensures raw(e) == p(MinuteKey(e)) { DayOfMinute(e.timestamp); }
    MinutesSelected(m, es, p, q, raw);
    PointsWeigh(es, room, start, DAY, raw);
  }

  lemma DayOfMinute(t: int)
    ensures Truncate(Truncate(t, MINUTE), DAY) == Truncate(t, DAY)
  {
    TruncationsNest(t);
    TruncationsNest(Truncate(t, MINUTE));
  }

  lemma HourTier(m: Measures, es: seq<Raw>)
    ensures TierExact(Hours(m, Minutes(m, es)), es, HOUR)
  {
    var minutes := Minutes(m, es);
    var gs, rows := GroupBy(HourKey, minutes), Hours(m, minutes);
    TierRows(HourKey, minutes, rows);
    forall i | 0 <= i < |rows| ensures rows[i].pointCount == PointsIn(es, rows[i].roomId, rows[i].bucketStart, HOUR) {
      MinutesInHour(m, es, rows[i].roomId, rows[i].bucketStart);
    }
    MinuteTier(m, es);
    forall room, start ensures HasRow(rows, room, start) <==> exists e <- es :: InBucket(e, room, start, HOUR) {
      if e :| e in es && InBucket(e, room, start, HOUR) {
        TruncationsNest(e.timestamp);
        assert InBucket(e, room, Truncate(e.timestamp, MINUTE), MINUTE);
        assert HasRow(minutes, room, Truncate(e.timestamp, MINUTE));
      }
      if HasRow(rows, room, start) {
        var x :| x in minutes && HourKey(x) == (room, start);
        assert HasRow(minutes, x.roomId, x.bucketStart);
        var e :| e in es && InBucket(e, x.roomId, x.bucketStart, MINUTE);
        TruncationsNest(e.timestamp);
      }
    }
  }

  lemma DayTier(m: Measures, es: seq<Raw>)
    ensures TierExact(Days(Hours(m, Minutes(m, es))), es, DAY)
  {
    var hours := Hours(m, Minutes(m, es));
    var rows := Days(hours);
    TierRows(DayKey, hours, rows);
    forall i | 0 <= i < |rows| ensures rows[i].pointCount == PointsIn(es, rows[i].roomId, rows[i].bucketStart, DAY) {
      HoursInDay(m, es, rows[i].roomId, rows[i].bucketStart);
    }
    HourTier(m, es);
    forall room, start ensures HasRow(rows, room, start) <==> exists e <- es :: InBucket(e, room, start, DAY) {
      if e :| e in es && InBucket(e, room, start, DAY) {
        TruncationsNest(e.timestamp);
        assert InBucket(e, room, Truncate(e.timestamp, HOUR), HOUR);
        assert HasRow(hours, room, Truncate(e.timestamp, HOUR));
      }
      if HasRow(rows, room, start) {
        var x :| x in hours && DayKey(x) == (room, start);
        assert HasRow(hours, x.roomId, x.bucketStart);
        var e :| e in es && InBucket(e, x.roomId, x.bucketStart, HOUR);
        TruncationsNest(e.timestamp);
      }
    }
  }

  // An hour's distance is the path through its minutes in order; a day's is the sum of its hours'.
  lemma DistancesRollUp(m: Measures, es: seq<Raw>)
    ensures
      var minutes := Minutes(m, es);
      var hours := Hours(m, minutes);
      (forall h <- hours :: h.totalDistance == PathLength(m, WithKey(HourKey, minutes, (h.roomId, h.bucketStart))))
      && (forall d <- Days(hours) :: d.totalDistance == SumOf(Distance, WithKey(DayKey, hours, (d.roomId, d.bucketStart))))
  {
    var minutes := Minutes(m, es);
    var hours := Hours(m, minutes);
    TierRows(HourKey, minutes, hours);
    TierRows(DayKey, hours, Days(hours));
  }

  // ---- the adapter -------------------------------------------------------------------

  datatype CompactionResult = Closed | Compacted(rawDeleted: int, minutes: nat, hours: nat, days: nat)

  // The moment so many days before.
  function DaysBefore(now: int, days: int): (t: int)
    ensures t + days * 86400000 == now
  {
    now - days * DAY
  }

  function Since(rows: seq<Row>, cutoff: int): seq<Row> {
    if rows == [] then []
    else Since(rows[..|rows| - 1], cutoff) + (if rows[|rows| - 1].bucketStart >= cutoff then [rows[|rows| - 1]] else [])
  }

  function RetainedRaw(es: seq<Raw>, cutoff: int): seq<Raw> {
    if es == [] then []
    else RetainedRaw(es[..|es| - 1], cutoff) + (if es[|es| - 1].timestamp >= cutoff then [es[|es| - 1]] else [])
  }

  // ---- what is retained ----------------------------------------------------------------

  function NotBefore(since: int): Raw -> bool { (e: Raw) => e.timestamp >= since }
  function Before(since: int): Raw -> bool { (e: Raw) => e.timestamp < since }

  lemma {:induction false} RetainedFilters(es: seq<Raw>, cutoff: int)
    ensures Filters(es, NotBefore(cutoff), RetainedRaw(es, cutoff))
  {
    var p := NotBefore(cutoff);
    hide Filters;
    if es == [] {
      FiltersNone(p);
    } else {
      var n := |es| - 1;
      RetainedFilters(es[..n], cutoff);
      FiltersSnoc(es[..n], p, RetainedRaw(es[..n], cutoff), es[n]);
      assert es == es[..n] + [es[n]];
      assert RetainedRaw(es[..n], cutoff) + [] == RetainedRaw(es[..n], cutoff);
    }
  }

  lemma {:induction false} DeletedCount(es: seq<Raw>, cutoff: int)
    ensures |es| - |RetainedRaw(es, cutoff)| == |Places(es, Before(cutoff))|
  {
    var p := Before(cutoff);
    if es == [] {
      assert Places(es, p) == {};
    } else {
      var n := |es| - 1;
      DeletedCount(es[..n], cutoff);
      PlacesSnoc(es[..n], es[n], p);
      assert es == es[..n] + [es[n]];
    }
  }

  // The events of a room with a position, not older than `since`, in the `width` from `start` on.
  function Counting(since: int, room: string, start: int, width: int): Raw -> bool {
    (e: Raw) => e.lat.Some? && e.timestamp >= since && e.roomId == room && start <= e.timestamp < start + width
  }

  lemma {:induction false} CountedPlaces(es: seq<Raw>, since: int, room: string, start: int, width: int)
    requires width > 0 && start % width == 0
    ensures PointsIn(RetainedRaw(es, since), room, start, width) == |Places(es, Counting(since, room, start, width))|
  {
    var p := Counting(since, room, start, width);
    if es == [] {
      assert Places(es, p) == {};
    } else {
      var n := |es| - 1;
      CountedPlaces(es[..n], since, room, start, width);
      PlacesSnoc(es[..n], es[n], p);
      assert es == es[..n] + [es[n]];
      TruncateIs(es[n].timestamp, width, start);
      var kept := RetainedRaw(es[..n], since);
      assert (kept + [es[n]])[..|kept|] == kept;
      assert kept + [] == kept;
    }
  }

  ghost predicate Falls(es: seq<Raw>, since: int, room: string, start: int, width: int) {
    exists e <- es :: e.timestamp >= since && e.roomId == room && start <= e.timestamp < start + width
  }

  // A tier after compaction, said of the events before it: one row for each room and bucket that a
  // retained event falls into and that has not aged out, counting the located ones among them.
  ghost predicate CompactedTier(rows: seq<Row>, es: seq<Raw>, since: int, oldest: int, width: int)
    requires width > 0
  {
    && OneRowEach(rows)
    && (forall room, start :: HasRow(rows, room, start) <==>
          start >= oldest && start % width == 0 && Falls(es, since, room, start, width))
    && (forall r <- rows :: r.bucketEnd == r.bucketStart + width - 1
                            && r.pointCount == |Places(es, Counting(since, r.roomId, r.bucketStart, width))|)
  }

  // What a run leaves of the events `es` and says of it: the events since `since`, in order, with the
  // number of the others; and the three tiers of them, trimmed, with their sizes.
  ghost predicate CompactedFrom(
    m: Measures, es: seq<Raw>, since: int, c1: int, c2: int, c3: int,
    events: seq<Raw>, minutes: seq<Row>, hours: seq<Row>, days: seq<Row>, result: CompactionResult)
  {
    && Filters(es, NotBefore(since), events)
    && result == Compacted(|Places(es, Before(since))|, |minutes|, |hours|, |days|)
    && CompactedTier(minutes, es, since, c1, 60000)
    && CompactedTier(hours, es, since, c2, 3600000)
    && CompactedTier(days, es, since, c3, 86400000)
    && minutes == Since(Minutes(m, events), c1)
    && hours == Since(Hours(m, Minutes(m, events)), c2)
    && days == Since(Days(Hours(m, Minutes(m, events))), c3)
  }

  lemma TierOfOld(rows: seq<Row>, es: seq<Raw>, since: int, oldest: int, width: int)
    requires width > 0 && TierExact(rows, RetainedRaw(es, since), width)
    ensures CompactedTier(Since(rows, oldest), es, since, oldest, width)
  {
    hide TierExact, PointsIn, InBucket, HasRow, OneRowEach, Places;
    var retained, kept := RetainedRaw(es, since), Since(rows, oldest);
    TrimmedTier(rows, retained, width, oldest);
    SinceExact(rows, oldest);
    RowEnds(rows, retained, width);
    hide Since, RetainedRaw;
    forall room, start
      ensures HasRow(kept, room, start) <==> start >= oldest && start % width == 0 && Falls(es, since, room, start, width) {
      HitByOld(es, since, room, start, width);
    }
    forall r | r in kept
      ensures r.pointCount == |Places(es, Counting(since, r.roomId, r.bucketStart, width))| {
      RowIn(kept, r);
      HitByOld(es, since, r.roomId, r.bucketStart, width);
      CountedPlaces(es, since, r.roomId, r.bucketStart, width);
    }
  }

  lemma RowIn(rows: seq<Row>, r: Row)
    requires r in rows
    ensures HasRow(rows, r.roomId, r.bucketStart)
  {
  }

  // A retained event falls into the bucket, in both ways of saying so.
  lemma HitByOld(es: seq<Raw>, since: int, room: string, start: int, width: int)
    requires width > 0
    ensures (exists e <- RetainedRaw(es, since) :: InBucket(e, room, start, width)) <==>
            start % width == 0 && Falls(es, since, room, start, width)
  {
    hide RetainedRaw, Filters, Truncate;
    var retained := RetainedRaw(es, since);
    RetainedFilters(es, since);
    FiltersIn(es, NotBefore(since), retained);
    if e :| e in retained && InBucket(e, room, start, width) {
      TruncateIs(e.timestamp, width, start);
    }
    if start % width == 0 && Falls(es, since, room, start, width) {
      var e :| e in es && e.timestamp >= since && e.roomId == room && start <= e.timestamp < start + width;
      TruncateIs(e.timestamp, width, start);
      assert InBucket(e, room, start, width);
    }
  }

  lemma RowEnds(rows: seq<Row>, es: seq<Raw>, width: int)
    requires width > 0 && TierExact(rows, es, width)
    ensures forall r <- rows :: r.bucketEnd == r.bucketStart + width - 1
  {
  }

  method AddItem<K(==), T>(gs: seq<Group<K, T>>, k: K, x: T) returns (r: seq<Group<K, T>>)
    ensures r == AddTo(gs, k, x)
  {
    var i := 0;
    while i < |gs| && gs[i].key != k
      invariant 0 <= i <= |gs|
      invariant gs[..i] + AddTo(gs[i..], k, x) == AddTo(gs, k, x)
    {
      assert gs[i..][0] == gs[i] && gs[i..][1..] == gs[i + 1..];
      assert gs[..i] + ([gs[i]] + AddTo(gs[i + 1..], k, x)) == gs[..i + 1] + AddTo(gs[i + 1..], k, x);
      i := i + 1;
    }
    if i == |gs| {
      assert gs[i..] == [] && gs[..i] == gs;
      r := gs + [Group(k, [x])];
    } else {
      assert gs[i..][0] == gs[i] && gs[i..][1..] == gs[i + 1..];
      r := gs[..i] + [Group(k, gs[i].items + [x])] + gs[i + 1..];
    }
  }

  // The bucket loop shared by the three tiers.
  method Bucketed<K(==), T>(key: T -> K, xs: seq<T>) returns (gs: seq<Group<K, T>>)
    ensures gs == GroupBy(key, xs)
  {
    gs := [];
    for i := 0 to |xs|
      invariant gs == GroupBy(key, xs[..i])
    {
      assert xs[..i + 1][..i] == xs[..i];
      gs := AddItem(gs, key(xs[i]), xs[i]);
    }
    assert xs[..|xs|] == xs;
  }

  method ComputeDownsample1m(m: Measures, es: seq<Raw>) returns (rows: seq<Row>)
    ensures rows == Minutes(m, es) && TierExact(rows, es, MINUTE)
  {
    var gs := Bucketed(MinuteKey, es);
    rows := [];
    for i := 0 to |gs|
      invariant |rows| == i && forall k | 0 <= k < i :: rows[k] == MinuteRow(m, gs[k])
    {
      rows := rows + [MinuteRow(m, gs[i])];
    }
    assert rows == Minutes(m, es);
    MinuteTier(m, es);
  }

  method ComputeAggregate1h(m: Measures, minutes: seq<Row>) returns (rows: seq<Row>)
    ensures rows == Hours(m, minutes)
  {
    rows := [];
    if |minutes| == 0 { return; }
    var gs := Bucketed(HourKey, minutes);
    for i := 0 to |gs|
      invariant |rows| == i && forall k | 0 <= k < i :: rows[k] == HourRow(m, gs[k])
    {
      rows := rows + [HourRow(m, gs[i])];
    }
  }

  method ComputeAggregate1d(hours: seq<Row>) returns (rows: seq<Row>)
    ensures rows == Days(hours)
  {
    rows := [];
    if |hours| == 0 { return; }
    var gs := Bucketed(DayKey, hours);
    for i := 0 to |gs|
      invariant |rows| == i && forall k | 0 <= k < i :: rows[k] == DayRow(gs[k])
    {
      rows := rows + [DayRow(gs[i])];
    }
  }

  method FilterRows(rows: seq<Row>, cutoff: int) returns (kept: seq<Row>)
    ensures kept == Since(rows, cutoff)
  {
    kept := [];
    for i := 0 to |rows|
      invariant kept == Since(rows[..i], cutoff)
    {
      assert rows[..i + 1][..i] == rows[..i];
      if rows[i].bucketStart >= cutoff { kept := kept + [rows[i]]; }
    }
    assert rows[..|rows|] == rows;
  }

  method FilterRaw(es: seq<Raw>, cutoff: int) returns (kept: seq<Raw>)
    ensures kept == RetainedRaw(es, cutoff) && |kept| <= |es|
  {
    kept := [];
    for i := 0 to |es|
      invariant kept == RetainedRaw(es[..i], cutoff) && |kept| <= i
    {
      assert es[..i + 1][..i] == es[..i];
      if es[i].timestamp >= cutoff { kept := kept + [es[i]]; }
    }
    assert es[..|es|] == es;
  }

  class MemoryAdapter {
    const measures: Measures
    var events: seq<Raw>
    var downsample1m: seq<Row>
    var aggregate1h: seq<Row>
    var aggregate1d: seq<Row>
    var closed: bool

    constructor (measures: Measures)
      ensures events == [] && downsample1m == [] && aggregate1h == [] && aggregate1d == [] && !closed && this.measures == measures
    {
      this.measures := measures;
      events, downsample1m, aggregate1h, aggregate1d, closed := [], [], [], [], false;
    }

    // The clock is read at the start of the run and again for each tier that is trimmed.
    method Compact(now: int, m1Now: int, h1Now: int, d1Now: int, rawDays: int, m1Days: int, h1Days: int, d1Days: int)
      returns (result: CompactionResult)
      modifies this`events, this`downsample1m, this`aggregate1h, this`aggregate1d
      ensures closed ==> result == Closed && unchanged(this)
      ensures !closed ==>
        CompactedFrom(measures, old(events), DaysBefore(now, rawDays),
                      DaysBefore(m1Now, m1Days), DaysBefore(h1Now, h1Days), DaysBefore(d1Now, d1Days),
                      events, downsample1m, aggregate1h, aggregate1d, result)
    {
      if closed { return Closed; }
      hide CompactedFrom, DaysBefore;
      result := Rebuild(DaysBefore(now, rawDays), DaysBefore(m1Now, m1Days), DaysBefore(h1Now, h1Days), DaysBefore(d1Now, d1Days));
    }

    // The phases of a run: expire, roll up, trim.
    method Rebuild(since: int, c1: int, c2: int, c3: int) returns (result: CompactionResult)
      modifies this`events, this`downsample1m, this`aggregate1h, this`aggregate1d
      ensures CompactedFrom(measures, old(events), since, c1, c2, c3, events, downsample1m, aggregate1h, aggregate1d, result)
    {
      hide Minutes, Hours, Days, Since, RetainedRaw, TierExact, CompactedFrom;
      var before := events;
      events := FilterRaw(events, since);
      var minutes := ComputeDownsample1m(measures, events);
      var hours := ComputeAggregate1h(measures, minutes);
      var days := ComputeAggregate1d(hours);
      downsample1m := FilterRows(minutes, c1);
      aggregate1h := FilterRows(hours, c2);
      aggregate1d := FilterRows(days, c3);
      result := Compacted(|before| - |events|, |downsample1m|, |aggregate1h|, |aggregate1d|);
      CompactsTo(measures, before, since, c1, c2, c3);
    }
  }

  lemma {:induction false} SinceExact(rows: seq<Row>, cutoff: int)
    ensures forall r :: r in Since(rows, cutoff) <==> r in rows && r.bucketStart >= cutoff
  {
    if rows != [] {
      SinceExact(rows[..|rows| - 1], cutoff);
      assert rows == rows[..|rows| - 1] + [rows[|rows| - 1]];
    }
  }

  lemma {:induction false} SinceOneRowEach(rows: seq<Row>, cutoff: int)
    requires OneRowEach(rows)
    ensures OneRowEach(Since(rows, cutoff))
  {
    if rows != [] {
      var n := |rows| - 1;
      SinceOneRowEach(rows[..n], cutoff);
      SinceExact(rows[..n], cutoff);
      var kept := Since(rows[..n], cutoff);
      forall i | 0 <= i < |kept| ensures !(kept[i].roomId == rows[n].roomId && kept[i].bucketStart == rows[n].bucketStart) {
        assert kept[i] in kept;
        var k :| 0 <= k < n && rows[..n][k] == kept[i];
      }
    }
  }

  // What compaction leaves in a tier of the given bucket width, trimmed at the cutoff: one row per
  // room and bucket since the cutoff that retained raw events fall into, counting those of them
  // that have a latitude.
  lemma TrimmedTier(rows: seq<Row>, es: seq<Raw>, width: int, cutoff: int)
    requires width > 0 && TierExact(rows, es, width)
    ensures
      var kept := Since(rows, cutoff);
      OneRowEach(kept)
      && (forall room, start :: HasRow(kept, room, start) <==> start >= cutoff && exists e <- es :: InBucket(e, room, start, width))
      && (forall r <- kept :: r.pointCount == PointsIn(es, r.roomId, r.bucketStart, width))
  {
    SinceExact(rows, cutoff);
    SinceOneRowEach(rows, cutoff);
    var kept := Since(rows, cutoff);
    forall room, start ensures HasRow(kept, room, start) <==> start >= cutoff && HasRow(rows, room, start) {
    }
  }

  lemma CompactsTo(m: Measures, es: seq<Raw>, since: int, c1: int, c2: int, c3: int)
    ensures
      var kept := RetainedRaw(es, since);
      var minutes := Minutes(m, kept);
      var hours := Hours(m, minutes);
      var t1, t2, t3 := Since(minutes, c1), Since(hours, c2), Since(Days(hours), c3);
      CompactedFrom(m, es, since, c1, c2, c3, kept, t1, t2, t3, Compacted(|es| - |kept|, |t1|, |t2|, |t3|))
  {
    hide TierExact, CompactedTier, Minutes, Hours, Days, Since, Filters, Places;
    var kept := RetainedRaw(es, since);
    RetainedFilters(es, since);
    DeletedCount(es, since);
    MinuteTier(m, kept);
    HourTier(m, kept);
    DayTier(m, kept);
    hide RetainedRaw;
    TierOfOld(Minutes(m, kept), es, since, c1, MINUTE);
    TierOfOld(Hours(m, Minutes(m, kept)), es, since, c2, HOUR);
    TierOfOld(Days(Hours(m, Minutes(m, kept))), es, since, c3, DAY);
  }

  // The two-level roll-up agrees with direct grouping in every tier.
  lemma RollUpIsDirect(m: Measures, es: seq<Raw>, c1: int, c2: int, c3: int)
    ensures
      var minutes := Minutes(m, es);
      var hours := Hours(m, minutes);
      (forall r <- Since(minutes, c1) :: r.pointCount == PointsIn(es, r.roomId, r.bucketStart, MINUTE))
      && (forall r <- Since(hours, c2) :: r.pointCount == PointsIn(es, r.roomId, r.bucketStart, HOUR))
      && (forall r <- Since(Days(hours), c3) :: r.pointCount == PointsIn(es, r.roomId, r.bucketStart, DAY))
      && OneRowEach(Since(minutes, c1)) && OneRowEach(Since(hours, c2)) && OneRowEach(Since(Days(hours), c3))
  {
    MinuteTier(m, es);
    HourTier(m, es);
    DayTier(m, es);
    var minutes := Minutes(m, es);
    var hours := Hours(m, minutes);
    hide TierExact, OneRowEach, Since, Minutes, Hours, Days, PointsIn;
    TrimmedTier(minutes, es, MINUTE, c1);
    TrimmedTier(hours, es, HOUR, c2);
    TrimmedTier(Days(hours), es, DAY, c3);
  }
}
