// The last-writer-wins map behind sessions and global config: vector clocks
// first, writer region id for concurrent writes.
module LwwMap {
  import opened Wrappers
  import opened Order
  import opened VectorClock

  datatype Entry = Entry(value: Option<string>, clock: Clock, writer: string, deleted: bool)
  type Entries = map<string, Entry>

  // Whether `a` supersedes `b`.
  predicate WinsOver(a: Entry, b: Entry) {
    match Compare(a.clock, b.clock)
    case After => true
    case Before | Equal => false
    case Concurrent => StringLess(b.writer, a.writer)
  }

  function Resolve(current: Option<Entry>, incoming: Entry): Entry {
    if current.None? || WinsOver(incoming, current.value) then incoming else current.value
  }

  function Lookup(m: Entries, key: string): Option<Entry> {
    if key in m then Some(m[key]) else None
  }

  function Apply(m: Entries, key: string, incoming: Entry): Entries {
    m[key := Resolve(Lookup(m, key), incoming)]
  }

  function MergeMaps(mine: Entries, theirs: Entries): Entries {
    map key | key in mine.Keys + theirs.Keys ::
      if key in theirs then Resolve(Lookup(mine, key), theirs[key]) else mine[key]
  }

  function Get(m: Entries, key: string): Option<string> {
    if key in m && !m[key].deleted then m[key].value else None
  }

  // The entry a key holds after a sequence of entries was applied to it.
  ghost function Settle(es: seq<Entry>): (r: Option<Entry>)
    ensures r.None? <==> es == []
    ensures r.Some? ==> r.value in es
  {
    if es == [] then None
    else Some(Resolve(Settle(es[..|es| - 1]), es[|es| - 1]))
  }

  // What the coordinator guarantees about two distinct writes: their clocks
  // differ, and a single writer's clocks form a chain.
  ghost predicate Comparable(a: Entry, b: Entry) {
    && (a != b ==> Compare(a.clock, b.clock) != Equal)
    && (a.writer == b.writer ==> Compare(a.clock, b.clock) != Concurrent)
  }

  ghost predicate Written(es: set<Entry>) {
    forall a, b :: a in es && b in es ==> Comparable(a, b)
  }

  ghost predicate Dominates(w: Entry, es: set<Entry>) {
    w in es && forall e :: e in es && e != w ==> WinsOver(w, e)
  }

  // A causally newer write wins; of two concurrent ones the one of the greater region id.
  lemma WinnerRule(a: Entry, b: Entry)
    ensures
      var below := exists r :: At(a.clock, r) < At(b.clock, r);
      var above := exists r :: At(a.clock, r) > At(b.clock, r);
      WinsOver(a, b) <==> above && (!below || StringLess(b.writer, a.writer))
  {
    CompareExact(a.clock, b.clock);
  }

  lemma OneWinner(a: Entry, b: Entry)
    ensures !(WinsOver(a, b) && WinsOver(b, a))
    ensures a != b && Comparable(a, b) ==> WinsOver(a, b) || WinsOver(b, a)
  {
    StringOrder();
  }

  // A dominating entry wins whatever the order and the repeats, and no entry
  // seen is causally newer than it.
  lemma {:induction false} DominantSettles(w: Entry, es: set<Entry>, s: seq<Entry>)
    requires Dominates(w, es)
    requires w in s && forall e :: e in s ==> e in es
    ensures Settle(s) == Some(w)
    ensures forall e :: e in es ==> Compare(w.clock, e.clock) != Before
    decreases |s|
  {
    var init, e := s[..|s| - 1], s[|s| - 1];
    assert s == init + [e];
    assert forall x :: x in init ==> x in s;
    if w in init {
      DominantSettles(w, es, init);
      OneWinner(e, w);
    }
  }

  // Once displaced, the first entry never comes back.
  lemma {:induction false} FirstSurvives(w: Entry, rest: seq<Entry>)
    requires w !in rest && Settle([w] + rest) == Some(w)
    ensures forall e :: e in rest ==> !WinsOver(e, w)
    decreases |rest|
  {
    if rest != [] {
      var init, e := rest[..|rest| - 1], rest[|rest| - 1];
      assert ([w] + rest)[..|rest|] == [w] + init;
      assert rest == init + [e];
      assert Settle([w] + rest) == Some(Resolve(Settle([w] + init), e));
      assert e in rest;
      FirstSurvives(w, init);
    }
  }

  lemma {:induction false} Enumeration(es: set<Entry>) returns (s: seq<Entry>)
    ensures Enumerates(s, es)
    decreases |es|
  {
    if es == {} {
      s := [];
    } else {
      var x :| x in es;
      var t := Enumeration(es - {x});
      s := [x] + t;
    }
  }

  // Every order and repetition of the entries leaves the same winner.
  ghost predicate Convergent(es: set<Entry>) {
    forall s, t :: Enumerates(s, es) && Enumerates(t, es) ==> Settle(s) == Settle(t)
  }

  // Delivery order is irrelevant exactly when one entry beats all the others.
  lemma ConvergentIffDominated(es: set<Entry>)
    requires Written(es) && es != {}
    ensures Convergent(es) <==> exists w :: Dominates(w, es)
  {
    if Convergent(es) {
      var s := Enumeration(es);
      var x :| x in es;
      assert x in s;
      var w := Settle(s).value;
      var rest := Enumeration(es - {w});
      assert Enumerates([w] + rest, es);
      assert Settle([w] + rest) == Some(w);
      FirstSurvives(w, rest);
      forall e | e in es && e != w ensures WinsOver(w, e) {
        assert e in rest;
        OneWinner(w, e);
      }
      assert Dominates(w, es);
    }
    if w :| Dominates(w, es) {
      forall s, t | Enumerates(s, es) && Enumerates(t, es) ensures Settle(s) == Settle(t) {
        DominantSettles(w, es, s);
        DominantSettles(w, es, t);
      }
    }
  }

  // With two writers the winner rule has no cycle.
  lemma WinsTransitive(a: Entry, b: Entry, c: Entry)
    requires Comparable(a, b) && Comparable(b, c) && Comparable(a, c)
    requires a.writer == b.writer || b.writer == c.writer || a.writer == c.writer
    requires WinsOver(a, b) && WinsOver(b, c)
    ensures WinsOver(a, c)
  {
    StringOrder();
    if a == c {
      OneWinner(a, b);
    } else {
      OneWinner(a, c);
      if WinsOver(c, a) {
        NoCycle(a, b, c);
      }
    }
  }

  lemma NoCycle(a: Entry, b: Entry, c: Entry)
    requires Comparable(a, b) && Comparable(b, c) && Comparable(c, a)
    requires a.writer == b.writer || b.writer == c.writer || a.writer == c.writer
    ensures !(WinsOver(a, b) && WinsOver(b, c) && WinsOver(c, a))
  {
    if WinsOver(a, b) && WinsOver(b, c) && WinsOver(c, a) {
      if a.writer == b.writer {
        NoCycleThrough(a, b, c);
      } else if b.writer == c.writer {
        NoCycleThrough(b, c, a);
      } else {
        NoCycleThrough(c, a, b);
      }
    }
  }

  // x and y share a writer, so x is causally after y.
  lemma NoCycleThrough(x: Entry, y: Entry, z: Entry)
    requires x.writer == y.writer && Comparable(x, y)
    ensures !(WinsOver(x, y) && WinsOver(y, z) && WinsOver(z, x))
  {
    StringOrder();
    if WinsOver(x, y) && WinsOver(y, z) && WinsOver(z, x) {
      if Compare(y.clock, z.clock) == After {
        AfterTransitive(x.clock, y.clock, z.clock);
      } else if Compare(z.clock, x.clock) == After {
        AfterTransitive(z.clock, x.clock, y.clock);
      }
    }
  }

  ghost predicate TwoWriters(es: set<Entry>, u: string, v: string) {
    forall e :: e in es ==> e.writer == u || e.writer == v
  }

  lemma {:induction false} TwoWritersDominated(es: set<Entry>, u: string, v: string) returns (w: Entry)
    requires Written(es) && es != {} && TwoWriters(es, u, v)
    ensures Dominates(w, es)
    decreases |es|
  {
    var x :| x in es;
    if es == {x} {
      w := x;
    } else {
      assert es == {x} + (es - {x});
      w := TwoWritersDominated(es - {x}, u, v);
      OneWinner(x, w);
      if WinsOver(x, w) {
        forall y | y in es && y != x && y != w ensures WinsOver(x, y) {
          WinsTransitive(x, w, y);
        }
        w := x;
      }
    }
  }

  // Sessions written by at most two regions converge in every delivery order.
  lemma TwoWritersConverge(es: set<Entry>, u: string, v: string)
    requires Written(es) && es != {} && TwoWriters(es, u, v)
    ensures Convergent(es)
  {
    var w := TwoWritersDominated(es, u, v);
    ConvergentIffDominated(es);
  }

  // A third writer can close a cycle: delivery order then decides, and the
  // survivor can be causally older than an entry already seen.
  lemma ThreeWritersDiverge() returns (a: Entry, b: Entry, c: Entry)
    ensures Written({a, b, c})
    ensures WinsOver(b, a) && WinsOver(c, b) && WinsOver(a, c)
    ensures Settle([a, b, c]) == Some(c) && Settle([c, b, a]) == Some(a) && a != c
    ensures Compare(c.clock, a.clock) == Before
  {
    a := Entry(Some("1"), map["a" := 1, "c" := 1], "a", false);
    b := Entry(Some("2"), map["b" := 1], "b", false);
    c := Entry(Some("3"), map["c" := 1], "c", false);
    CycleClocks();
    assert StringLess("a", "b") && StringLess("b", "c");
    CycleDiverges(a, b, c);
  }

  lemma CycleDiverges(a: Entry, b: Entry, c: Entry)
    requires Compare(a.clock, b.clock) == Compare(b.clock, a.clock) == Concurrent
    requires Compare(b.clock, c.clock) == Compare(c.clock, b.clock) == Concurrent
    requires Compare(a.clock, c.clock) == After && Compare(c.clock, a.clock) == Before
    requires StringLess(a.writer, b.writer) && StringLess(b.writer, c.writer) && a.writer != b.writer && b.writer != c.writer
    ensures Written({a, b, c})
    ensures WinsOver(b, a) && WinsOver(c, b) && WinsOver(a, c)
    ensures Settle([a, b, c]) == Some(c) && Settle([c, b, a]) == Some(a)
  {
    OneWinner(a, b);
    OneWinner(b, c);
    assert Compare(a.clock, a.clock) == Compare(b.clock, b.clock) == Compare(c.clock, c.clock) == Equal;
    hide Compare, StringLess, Settle;
    SettleThree(a, b, c);
    SettleThree(c, b, a);
  }

  lemma CycleClocks()
    ensures
      var a: Clock, b: Clock, c: Clock := map["a" := 1, "c" := 1], map["b" := 1], map["c" := 1];
      && Compare(a, b) == Compare(b, a) == Compare(b, c) == Compare(c, b) == Concurrent
      && Compare(a, c) == After && Compare(c, a) == Before
      && Compare(a, a) == Compare(b, b) == Compare(c, c) == Equal
  {
    var a: Clock, b: Clock, c: Clock := map["a" := 1, "c" := 1], map["b" := 1], map["c" := 1];
    assert At(a, "a") == 1 && At(a, "b") == 0 && At(a, "c") == 1;
    assert At(b, "a") == 0 && At(b, "b") == 1 && At(b, "c") == 0;
    assert At(c, "a") == 0 && At(c, "b") == 0 && At(c, "c") == 1;
  }

  lemma SettleThree(x: Entry, y: Entry, z: Entry)
    ensures Settle([x, y, z]) == Some(Resolve(Some(Resolve(Some(x), y)), z))
  {
    assert [x, y, z][..2] == [x, y] && [x, y][..1] == [x] && [x][..0] == [];
  }

  // However many writers, two maps that merge each other agree.
  lemma MergeBothWays(m: Entries, n: Entries)
    requires forall key :: key in m && key in n ==> Comparable(m[key], n[key])
    ensures MergeMaps(m, n) == MergeMaps(n, m)
  {
    forall key | key in m && key in n ensures MergeMaps(m, n)[key] == MergeMaps(n, m)[key] {
      OneWinner(m[key], n[key]);
    }
  }

  class LWWMap {
    var entries: Entries

    constructor ()
      ensures entries == map[]
    {
      entries := map[];
    }

    // A map holding `content`, entered one by one.
    constructor Holding(content: Entries)
      ensures entries == content
    {
      entries := map[];
      new;
      var rest := content.Keys;
      while rest != {}
        invariant rest <= content.Keys && entries == Restrict(content, content.Keys - rest)
      {
        var key :| key in rest;
        var won := ApplyEntry(key, content[key]);
        rest := rest - {key};
        assert entries.Keys == Restrict(content, content.Keys - rest).Keys;
      }
      assert Restrict(content, content.Keys) == content;
    }

    method ApplyEntry(key: string, incoming: Entry) returns (won: bool)
      modifies this
      ensures entries == Apply(old(entries), key, incoming)
      ensures won <==> key !in old(entries) || WinsOver(incoming, old(entries)[key])
    {
      won := true;
      if key in entries {
        var current := entries[key];
        var order := VcCompare(incoming.clock, current.clock);
        won := order == After || (order == Concurrent && StringLess(current.writer, incoming.writer));
      }
      if won {
        entries := entries[key := incoming];
      }
    }

    method Set(key: string, value: string, clock: Clock, writer: string)
      modifies this
      ensures entries == Apply(old(entries), key, Entry(Some(value), clock, writer, false))
    {
      var _ := ApplyEntry(key, Entry(Some(value), clock, writer, false));
    }

    method Delete(key: string, clock: Clock, writer: string)
      modifies this
      ensures entries == Apply(old(entries), key, Entry(None, clock, writer, true))
    {
      var _ := ApplyEntry(key, Entry(None, clock, writer, true));
    }

    // Returns how many keys held a concurrent entry.
    method Merge(other: LWWMap) returns (conflicts: nat)
      requires other != this
      modifies this
      ensures entries == MergeMaps(old(entries), other.entries)
      ensures conflicts == |Conflicts(old(entries), other.entries)|
    {
      hide Compare, StringLess, MergeMaps, Conflicts, Apply;
      conflicts := 0;
      var keys := other.entries.Keys;
      var rest := keys;
      MergeNothing(entries, other.entries);
      while rest != {}
        invariant unchanged(other) && rest <= keys
        invariant entries == MergeMaps(old(entries), Restrict(other.entries, keys - rest))
        invariant conflicts == |Conflicts(old(entries), Restrict(other.entries, keys - rest))|
      {
        var key :| key in rest;
        ghost var done := keys - rest;
        MergeOneMore(old(entries), other.entries, done, key);
        ConflictsOneMore(old(entries), other.entries, done, key);
        if key in entries {
          var order := VcCompare(other.entries[key].clock, entries[key].clock);
          if order == Concurrent {
            conflicts := conflicts + 1;
          }
        }
        var _ := ApplyEntry(key, other.entries[key]);
        rest := rest - {key};
        assert keys - rest == done + {key};
      }
      assert Restrict(other.entries, keys - rest) == other.entries;
    }
  }

  function Restrict(m: Entries, keys: set<string>): Entries {
    map key | key in m && key in keys :: m[key]
  }

  ghost function Conflicts(mine: Entries, theirs: Entries): set<string> {
    set key | key in mine && key in theirs && Compare(theirs[key].clock, mine[key].clock) == Concurrent
  }

  // A conflict is a key both hold, each side having seen a write the other has not.
  lemma ConflictsAre(mine: Entries, theirs: Entries, key: string)
    ensures key in Conflicts(mine, theirs) <==>
            key in mine && key in theirs
            && (exists r :: At(theirs[key].clock, r) > At(mine[key].clock, r))
            && (exists r :: At(theirs[key].clock, r) < At(mine[key].clock, r))
  {
    if key in mine && key in theirs { CompareExact(theirs[key].clock, mine[key].clock); }
    hide Compare;
  }

  lemma MergeNothing(mine: Entries, theirs: Entries)
    ensures MergeMaps(mine, Restrict(theirs, {})) == mine && Conflicts(mine, Restrict(theirs, {})) == {}
  {
  }

  lemma MergeOneMore(mine: Entries, theirs: Entries, keys: set<string>, key: string)
    requires key in theirs && key !in keys
    ensures Apply(MergeMaps(mine, Restrict(theirs, keys)), key, theirs[key]) == MergeMaps(mine, Restrict(theirs, keys + {key}))
    ensures Lookup(MergeMaps(mine, Restrict(theirs, keys)), key) == Lookup(mine, key)
  {
    hide Compare, StringLess, Resolve;
    var few, more := Restrict(theirs, keys), Restrict(theirs, keys + {key});
    assert more.Keys == few.Keys + {key};
    assert Apply(MergeMaps(mine, few), key, theirs[key]).Keys == MergeMaps(mine, more).Keys;
  }

  lemma ConflictsOneMore(mine: Entries, theirs: Entries, keys: set<string>, key: string)
    requires key in theirs && key !in keys
    ensures |Conflicts(mine, Restrict(theirs, keys + {key}))| == |Conflicts(mine, Restrict(theirs, keys))|
      + (if key in mine && Compare(theirs[key].clock, mine[key].clock) == Concurrent then 1 else 0)
  {
    hide Compare;
    var few, more := Conflicts(mine, Restrict(theirs, keys)), Conflicts(mine, Restrict(theirs, keys + {key}));
    assert key !in few;
    if key in mine && Compare(theirs[key].clock, mine[key].clock) == Concurrent {
      assert more == few + {key};
    } else {
      assert more == few;
    }
  }
}
