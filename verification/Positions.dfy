// What the positions, altitudes and speeds of compacted rows are, said of the events themselves.
module Positions {
  import opened Wrappers
  import opened Collections
  import opened Compaction

  type Field = Raw -> Option<real>

  function LatOf(e: Raw): Option<real> { e.lat }
  function LonOf(e: Raw): Option<real> { e.lon }
  function AltitudeOf(e: Raw): Option<real> { e.altitude }
  function SpeedOf(e: Raw): Option<real> { e.speed }

  function Reporting(room: string, start: int, f: Field): Raw -> bool {
    (e: Raw) => e.roomId == room && start <= e.timestamp < start + 60000 && f(e).Some?
  }

  // xs are the values the field has over the room's events of the minute, in order.
  ghost predicate Reported(es: seq<Raw>, room: string, start: int, f: Field, xs: seq<real>) {
    exists ys: seq<Raw> ::
      Filters(es, Reporting(room, start, f), ys) && |ys| == |xs| && forall i | 0 <= i < |ys| :: f(ys[i]) == Some(xs[i])
  }

  function Values(f: Field, es: seq<Raw>): seq<real> {
    Present(seq(|es|, i requires 0 <= i < |es| => f(es[i])))
  }

  lemma ValuesSnoc(f: Field, es: seq<Raw>, e: Raw)
    ensures Values(f, es + [e]) == Values(f, es) + if f(e).Some? then [f(e).value] else []
  {
    var more := seq(|es + [e]|, i requires 0 <= i < |es + [e]| => f((es + [e])[i]));
    assert more[..|es|] == seq(|es|, i requires 0 <= i < |es| => f(es[i]));
  }

  lemma {:induction false} ValuesReported(es: seq<Raw>, room: string, start: int, f: Field)
    requires start % 60000 == 0
    ensures Reported(es, room, start, f, Values(f, WithKey(MinuteKey, es, (room, start))))
  {
    hide Filters, Truncate, Values;
    var p := Reporting(room, start, f);
    if es == [] {
      FiltersNone(p);
      assert Values(f, []) == [] by { NoValues(f); }
      var none: seq<Raw> := [];
      assert Filters(none, p, none) && |none| == |Values(f, none)|;
    } else {
      var n := |es| - 1;
      var e, items := es[n], WithKey(MinuteKey, es[..n], (room, start));
      ValuesReported(es[..n], room, start, f);
      var ys: seq<Raw> :| Filters(es[..n], p, ys) && |ys| == |Values(f, items)|
                          && forall i | 0 <= i < |ys| :: f(ys[i]) == Some(Values(f, items)[i]);
      FiltersSnoc(es[..n], p, ys, e);
      assert es == es[..n] + [e];
      TruncateIs(e.timestamp, 60000, start);
      ValuesSnoc(f, items, e);
      assert items + [] == items;
      var ys' := if p(e) then ys + [e] else ys;
      var vs := Values(f, WithKey(MinuteKey, es, (room, start)));
      assert |ys'| == |vs| && forall i | 0 <= i < |ys'| :: f(ys'[i]) == Some(vs[i]);
    }
  }

  lemma NoValues(f: Field)
    ensures Values(f, []) == []
  {
  }

  // A minute's position is the median of its latitudes and the median of its longitudes; its altitude
  // the median of the altitudes reported, if any, and its top speed the largest speed.
  lemma MinuteReports(m: Measures, es: seq<Raw>, r: Row)
    returns (lats: seq<real>, lons: seq<real>, alts: seq<real>, speeds: seq<real>)
    requires r in Minutes(m, es)
    ensures Reported(es, r.roomId, r.bucketStart, LatOf, lats) && r.at.0 == (m.median)(lats)
    ensures Reported(es, r.roomId, r.bucketStart, LonOf, lons) && r.at.1 == (m.median)(lons)
    ensures Reported(es, r.roomId, r.bucketStart, AltitudeOf, alts)
    ensures r.altitude == if alts == [] then None else Some((m.median)(alts))
    ensures Reported(es, r.roomId, r.bucketStart, SpeedOf, speeds)
    ensures if speeds == [] then r.maxSpeed == None
            else r.maxSpeed.Some? && r.maxSpeed.value in speeds && forall x <- speeds :: x <= r.maxSpeed.value
  {
    var items := WithKey(MinuteKey, es, (r.roomId, r.bucketStart));
    MinuteItems(m, es, r);
    lats, lons, alts, speeds := Latitudes(items), Longitudes(items), Altitudes(items), Speeds(items);
    FieldsAreValues(items);
    hide Reported, Values, Latitudes, Longitudes, Altitudes, Speeds, Minutes;
    ValuesReported(es, r.roomId, r.bucketStart, LatOf);
    ValuesReported(es, r.roomId, r.bucketStart, LonOf);
    ValuesReported(es, r.roomId, r.bucketStart, AltitudeOf);
    ValuesReported(es, r.roomId, r.bucketStart, SpeedOf);
  }

  lemma FieldsAreValues(items: seq<Raw>)
    ensures Latitudes(items) == Values(LatOf, items) && Longitudes(items) == Values(LonOf, items)
    ensures Altitudes(items) == Values(AltitudeOf, items) && Speeds(items) == Values(SpeedOf, items)
  {
    hide Present;
    SameValues(items, LatOf, seq(|items|, i requires 0 <= i < |items| => items[i].lat));
    SameValues(items, LonOf, seq(|items|, i requires 0 <= i < |items| => items[i].lon));
    SameValues(items, AltitudeOf, seq(|items|, i requires 0 <= i < |items| => items[i].altitude));
    SameValues(items, SpeedOf, seq(|items|, i requires 0 <= i < |items| => items[i].speed));
  }

  lemma SameValues(items: seq<Raw>, f: Field, xs: seq<Option<real>>)
    requires |xs| == |items| && forall i | 0 <= i < |items| :: xs[i] == f(items[i])
    ensures Present(xs) == Values(f, items)
  {
    hide Present;
    assert xs == seq(|items|, i requires 0 <= i < |items| => f(items[i]));
  }

  lemma MinuteItems(m: Measures, es: seq<Raw>, r: Row)
    requires r in Minutes(m, es)
    ensures r.bucketStart % 60000 == 0
    ensures r == MinuteRow(m, Group((r.roomId, r.bucketStart), WithKey(MinuteKey, es, (r.roomId, r.bucketStart))))
  {
    var gs, rows := GroupBy(MinuteKey, es), Minutes(m, es);
    TierRows(MinuteKey, es, rows);
    var i :| 0 <= i < |rows| && rows[i] == r;
    assert HasRow(rows, r.roomId, r.bucketStart);
    var e :| e in es && MinuteKey(e) == (r.roomId, r.bucketStart);
    hide GroupBy;
    TruncateIs(e.timestamp, 60000, r.bucketStart);
    assert gs[i] == Group((r.roomId, r.bucketStart), WithKey(MinuteKey, es, (r.roomId, r.bucketStart)));
  }

  // ---- roll-ups ----------------------------------------------------------------------

  function RowLat(r: Row): real { r.at.0 }
  function RowLon(r: Row): real { r.at.1 }
  function RowDistance(r: Row): real { r.totalDistance }

  ghost predicate MeanOf(x: real, f: Row -> real, rows: seq<Row>) {
    rows != [] && x * (|rows| as real) == SumOf(f, rows)
  }

  function InWindow(room: string, start: int, width: int): Row -> bool {
    (r: Row) => r.roomId == room && start <= r.bucketStart < start + width
  }

  lemma {:induction false} WithKeyFilters(key: Row -> Key, rows: seq<Row>, room: string, start: int, width: int)
    requires forall r :: key(r) == (room, start) <==> InWindow(room, start, width)(r)
    ensures Filters(rows, InWindow(room, start, width), WithKey(key, rows, (room, start)))
  {
    hide Filters;
    var p := InWindow(room, start, width);
    if rows == [] {
      FiltersNone(p);
    } else {
      var n := |rows| - 1;
      WithKeyFilters(key, rows[..n], room, start, width);
      FiltersSnoc(rows[..n], p, WithKey(key, rows[..n], (room, start)), rows[n]);
      assert rows == rows[..n] + [rows[n]];
      assert WithKey(key, rows[..n], (room, start)) + [] == WithKey(key, rows[..n], (room, start));
    }
  }

  // An hour's position is the mean of its minutes' positions, and its distance the path through them
  // in order.
  lemma HourAverages(m: Measures, minutes: seq<Row>, h: Row) returns (ms: seq<Row>)
    requires h in Hours(m, minutes)
    ensures Filters(minutes, InWindow(h.roomId, h.bucketStart, 3600000), ms)
    ensures MeanOf(h.at.0, RowLat, ms)
    ensures MeanOf(h.at.1, RowLon, ms)
    ensures h.totalDistance == PathLength(m, ms) && h.altitude.None? && h.maxSpeed.None?
  {
    ms := WithKey(HourKey, minutes, (h.roomId, h.bucketStart));
    HourItems(m, minutes, h);
    hide Filters, Hours, WithKey, MeanOf, Centre, PathLength;
    forall r: Row ensures HourKey(r) == (h.roomId, h.bucketStart) <==> InWindow(h.roomId, h.bucketStart, 3600000)(r) {
      TruncateIs(r.bucketStart, 3600000, h.bucketStart);
    }
    WithKeyFilters(HourKey, minutes, h.roomId, h.bucketStart, 3600000);
    CentreIsMean(ms);
  }

  lemma HourItems(m: Measures, minutes: seq<Row>, h: Row)
    requires h in Hours(m, minutes)
    ensures h.bucketStart % 3600000 == 0
    ensures
      var ms := WithKey(HourKey, minutes, (h.roomId, h.bucketStart));
      ms != [] && h == HourRow(m, Group((h.roomId, h.bucketStart), ms))
  {
    var gs, rows := GroupBy(HourKey, minutes), Hours(m, minutes);
    TierRows(HourKey, minutes, rows);
    var i :| 0 <= i < |rows| && rows[i] == h;
    assert HasRow(rows, h.roomId, h.bucketStart);
    var x :| x in minutes && HourKey(x) == (h.roomId, h.bucketStart);
    hide GroupBy;
    TruncateIs(x.bucketStart, 3600000, h.bucketStart);
    WithKeyHas(HourKey, minutes, x);
    assert gs[i] == Group((h.roomId, h.bucketStart), WithKey(HourKey, minutes, (h.roomId, h.bucketStart)));
  }

  lemma {:induction false} WithKeyHas(key: Row -> Key, rows: seq<Row>, x: Row)
    requires x in rows
    ensures x in WithKey(key, rows, key(x))
  {
    var n := |rows| - 1;
    if rows[n] != x { WithKeyHas(key, rows[..n], x); }
  }

  lemma CentreIsMean(ms: seq<Row>)
    requires ms != []
    ensures MeanOf(Centre(ms).0, RowLat, ms) && MeanOf(Centre(ms).1, RowLon, ms)
  {
    SameSum(Latitude, RowLat, ms);
    SameSum(Longitude, RowLon, ms);
    hide SumOf;
    Shared(SumOf(RowLat, ms), |ms| as real);
    Shared(SumOf(RowLon, ms), |ms| as real);
  }

  lemma Shared(s: real, n: real)
    requires n > 0.0
    ensures (s / n) * n == s
  {
  }

  lemma {:induction false} SameSum(f: Row -> real, g: Row -> real, rows: seq<Row>)
    requires forall r :: f(r) == g(r)
    ensures SumOf(f, rows) == SumOf(g, rows)
  {
    if rows != [] { SameSum(f, g, rows[..|rows| - 1]); }
  }

  // A day's position is the mean of its hours' positions, and its distance the sum of theirs.
  lemma DayAverages(hours: seq<Row>, d: Row) returns (hs: seq<Row>)
    requires d in Days(hours)
    ensures Filters(hours, InWindow(d.roomId, d.bucketStart, 86400000), hs)
    ensures MeanOf(d.at.0, RowLat, hs)
    ensures MeanOf(d.at.1, RowLon, hs)
    ensures d.totalDistance == SumOf(RowDistance, hs) && d.altitude.None? && d.maxSpeed.None?
  {
    hs := WithKey(DayKey, hours, (d.roomId, d.bucketStart));
    DayItems(hours, d);
    hide Filters, Days, WithKey, MeanOf, Centre;
    forall r: Row ensures DayKey(r) == (d.roomId, d.bucketStart) <==> InWindow(d.roomId, d.bucketStart, 86400000)(r) {
      TruncateIs(r.bucketStart, 86400000, d.bucketStart);
    }
    WithKeyFilters(DayKey, hours, d.roomId, d.bucketStart, 86400000);
    CentreIsMean(hs);
    SameSum(Distance, RowDistance, hs);
  }

  lemma DayItems(hours: seq<Row>, d: Row)
    requires d in Days(hours)
    ensures d.bucketStart % 86400000 == 0
    ensures
      var hs := WithKey(DayKey, hours, (d.roomId, d.bucketStart));
      hs != [] && d == DayRow(Group((d.roomId, d.bucketStart), hs))
  {
    var gs, rows := GroupBy(DayKey, hours), Days(hours);
    TierRows(DayKey, hours, rows);
    var i :| 0 <= i < |rows| && rows[i] == d;
    assert HasRow(rows, d.roomId, d.bucketStart);
    var x :| x in hours && DayKey(x) == (d.roomId, d.bucketStart);
    hide GroupBy;
    TruncateIs(x.bucketStart, 86400000, d.bucketStart);
    WithKeyHas(DayKey, hours, x);
    assert gs[i] == Group((d.roomId, d.bucketStart), WithKey(DayKey, hours, (d.roomId, d.bucketStart)));
  }
}
