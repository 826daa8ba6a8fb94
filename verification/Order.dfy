// Strict total orders, their lexicographic lifting to sequences, and the fact
// that a finite set has exactly one strictly increasing enumeration.
module Order {

  ghost predicate StrictTotalOrder<T(!new)>(less: (T, T) -> bool) {
    && (forall x :: !less(x, x))
    && (forall x, y, z :: less(x, y) && less(y, z) ==> less(x, z))
    && (forall x, y :: less(x, y) || x == y || less(y, x))
  }

  // ---------------------------------------------------------------- sequences

  predicate LexLess<T(==)>(less: (T, T) -> bool, p: seq<T>, q: seq<T>)
    decreases |p|
  {
    q != [] && (p == [] || less(p[0], q[0]) || (p[0] == q[0] && LexLess(less, p[1..], q[1..])))
  }

  // p and q part ways at some index, with p on the smaller side.
  ghost predicate Branches<T(!new)>(less: (T, T) -> bool, p: seq<T>, q: seq<T>) {
    exists k :: 0 <= k < |p| && k < |q| && p[..k] == q[..k] && less(p[k], q[k])
  }

  lemma {:induction false} LexCases<T(!new)>(less: (T, T) -> bool, p: seq<T>, q: seq<T>)
    ensures LexLess(less, p, q) <==> (p < q || Branches(less, p, q))
    decreases |p|
  {
    if p != [] && q != [] {
      LexCases(less, p[1..], q[1..]);
      if Branches(less, p[1..], q[1..]) && p[0] == q[0] {
        var k :| 0 <= k < |p[1..]| && k < |q[1..]| && p[1..][..k] == q[1..][..k] && less(p[1..][k], q[1..][k]);
        assert p[..k + 1] == [p[0]] + p[1..][..k] && q[..k + 1] == [q[0]] + q[1..][..k];
        assert Branches(less, p, q);
      }
      if Branches(less, p, q) && !less(p[0], q[0]) {
        var k :| 0 <= k < |p| && k < |q| && p[..k] == q[..k] && less(p[k], q[k]);
        assert k > 0;
        assert p[..k][0] == q[..k][0];
        assert p[1..][..k - 1] == p[..k][1..] && q[1..][..k - 1] == q[..k][1..];
        assert Branches(less, p[1..], q[1..]);
      }
      if p < q {
        assert p[1..] < q[1..];
      }
      if p[0] == q[0] && p[1..] < q[1..] {
        assert p == [p[0]] + p[1..] && q == [q[0]] + q[1..];
        assert p < q;
      }
      if less(p[0], q[0]) {
        assert p[..0] == q[..0];
      }
    }
  }

  lemma {:induction false} LexTransitive<T(!new)>(less: (T, T) -> bool, p: seq<T>, q: seq<T>, r: seq<T>)
    requires StrictTotalOrder(less)
    requires LexLess(less, p, q) && LexLess(less, q, r)
    ensures LexLess(less, p, r)
    decreases |p|
  {
    if p != [] && p[0] == q[0] == r[0] {
      LexTransitive(less, p[1..], q[1..], r[1..]);
    }
  }

  lemma {:induction false} LexIrreflexive<T(!new)>(less: (T, T) -> bool, p: seq<T>)
    requires StrictTotalOrder(less)
    ensures !LexLess(less, p, p)
    decreases |p|
  {
    if p != [] {
      LexIrreflexive(less, p[1..]);
    }
  }

  lemma {:induction false} LexTotal<T(!new)>(less: (T, T) -> bool, p: seq<T>, q: seq<T>)
    requires StrictTotalOrder(less)
    ensures LexLess(less, p, q) || p == q || LexLess(less, q, p)
    decreases |p|
  {
    if p != [] && q != [] && p[0] == q[0] {
      LexTotal(less, p[1..], q[1..]);
      assert p == [p[0]] + p[1..] && q == [q[0]] + q[1..];
    }
  }

  // The lexicographic lifting of a strict total order is one.
  lemma LexOrder<T(!new)>(less: (T, T) -> bool, lex: (seq<T>, seq<T>) -> bool)
    requires StrictTotalOrder(less)
    requires forall p, q :: lex(p, q) == LexLess(less, p, q)
    ensures StrictTotalOrder(lex)
  {
    forall p: seq<T> ensures !lex(p, p) {
      LexIrreflexive(less, p);
    }
    forall p: seq<T>, q: seq<T>, r: seq<T> | lex(p, q) && lex(q, r) ensures lex(p, r) {
      LexTransitive(less, p, q, r);
    }
    forall p: seq<T>, q: seq<T> ensures lex(p, q) || p == q || lex(q, p) {
      LexTotal(less, p, q);
    }
  }

  // Two branching sequences keep branching however they are extended.
  lemma BranchesExtend<T(!new)>(less: (T, T) -> bool, p: seq<T>, q: seq<T>, x: seq<T>, y: seq<T>)
    requires Branches(less, p, q)
    ensures Branches(less, p + x, q + y)
  {
    var k :| 0 <= k < |p| && k < |q| && p[..k] == q[..k] && less(p[k], q[k]);
    assert (p + x)[..k] == p[..k] && (q + y)[..k] == q[..k];
  }

  // ------------------------------------------------------ sorted enumerations

  ghost predicate Sorted<T(!new)>(less: (T, T) -> bool, s: seq<T>) {
    forall i, j :: 0 <= i < j < |s| ==> less(s[i], s[j])
  }

  ghost predicate Enumerates<T(!new)>(s: seq<T>, elems: set<T>) {
    forall x :: x in s <==> x in elems
  }

  lemma SortedTail<T(!new)>(less: (T, T) -> bool, s: seq<T>, x: T)
    requires StrictTotalOrder(less)
    requires Sorted(less, s) && s != []
    ensures x in s[1..] <==> x in s && x != s[0]
  {
    if x in s[1..] {
      var k :| 0 <= k < |s[1..]| && s[1..][k] == x;
      assert less(s[0], s[k + 1]);
    }
    assert s == [s[0]] + s[1..];
  }

  lemma EmptyIfNoElement<T(!new)>(t: seq<T>)
    ensures t == [] || exists x :: x in t
  {
    if t != [] { assert t[0] in t; }
  }

  // A set has at most one strictly increasing enumeration.
  lemma {:induction false} SortedUnique<T(!new)>(less: (T, T) -> bool, s: seq<T>, t: seq<T>)
    requires StrictTotalOrder(less)
    requires Sorted(less, s) && Sorted(less, t)
    requires forall x :: x in s <==> x in t
    ensures s == t
    decreases |s|
  {
    if s == [] {
      EmptyIfNoElement(t);
    } else {
      assert s[0] in t && t != [];
      assert t[0] in s;
      assert s[0] == t[0];
      forall x ensures x in s[1..] <==> x in t[1..] {
        SortedTail(less, s, x);
        SortedTail(less, t, x);
      }
      SortedUnique(less, s[1..], t[1..]);
      assert s == [s[0]] + s[1..] && t == [t[0]] + t[1..];
    }
  }

  lemma {:induction false} LeastExists<T(!new)>(less: (T, T) -> bool, elems: set<T>) returns (m: T)
    requires StrictTotalOrder(less)
    requires elems != {}
    ensures m in elems && forall y :: y in elems && y != m ==> less(m, y)
    decreases |elems|
  {
    var x :| x in elems;
    if elems == {x} {
      m := x;
    } else {
      assert elems == {x} + (elems - {x});
      var y := LeastExists(less, elems - {x});
      m := if less(x, y) then x else y;
      forall z | z in elems && z != m ensures less(m, z) {
        assert z == x || z in elems - {x};
      }
    }
  }

  // The increasing enumeration of a finite set.
  ghost function SortSet<T(!new)>(less: (T, T) -> bool, elems: set<T>): (s: seq<T>)
    requires StrictTotalOrder(less)
    ensures Sorted(less, s) && Enumerates(s, elems)
    decreases |elems|
  {
    if elems == {} then []
    else
      assert exists m :: m in elems && forall y :: y in elems && y != m ==> less(m, y) by {
        var m := LeastExists(less, elems);
      }
      var m :| m in elems && forall y :: y in elems && y != m ==> less(m, y);
      [m] + SortSet(less, elems - {m})
  }

  function Filter<T(!new)>(keep: T -> bool, s: seq<T>): (r: seq<T>)
    ensures forall x :: x in r <==> x in s && keep(x)
  {
    if s == [] then []
    else if keep(s[0]) then [s[0]] + Filter(keep, s[1..])
    else Filter(keep, s[1..])
  }

  lemma {:induction false} FilterSorted<T(!new)>(less: (T, T) -> bool, keep: T -> bool, s: seq<T>)
    requires Sorted(less, s)
    ensures Sorted(less, Filter(keep, s))
  {
    if s != [] {
      FilterSorted(less, keep, s[1..]);
      forall x | x in Filter(keep, s[1..]) ensures less(s[0], x) {
        var k :| 0 <= k < |s[1..]| && s[1..][k] == x;
        assert less(s[0], s[k + 1]);
      }
    }
  }

  // Dropping the newcomers from the larger enumeration gives the smaller one:
  // growing a set never reorders what it already held.
  lemma FilterOfSortSet<T(!new)>(less: (T, T) -> bool, small: set<T>, large: set<T>, keep: T -> bool)
    requires StrictTotalOrder(less)
    requires forall x :: x in small <==> x in large && keep(x)
    ensures Filter(keep, SortSet(less, large)) == SortSet(less, small)
  {
    FilterSorted(less, keep, SortSet(less, large));
    SortedUnique(less, Filter(keep, SortSet(less, large)), SortSet(less, small));
  }

  // Elements that all lie above the others are appended to the enumeration.
  lemma SortSetAppend<T(!new)>(less: (T, T) -> bool, low: set<T>, high: set<T>)
    requires StrictTotalOrder(less)
    requires forall x, y :: x in low && y in high ==> less(x, y)
    ensures SortSet(less, low + high) == SortSet(less, low) + SortSet(less, high)
  {
    var s, t := SortSet(less, low), SortSet(less, high);
    forall i, j | 0 <= i < j < |s + t| ensures less((s + t)[i], (s + t)[j]) {
      assert i < |s| ==> s[i] in s;
      assert j >= |s| ==> t[j - |s|] in t;
    }
    SortedUnique(less, SortSet(less, low + high), s + t);
  }

  // ------------------------------------------------------------------ strings

  predicate CharLess(a: char, b: char) { a < b }

  // JavaScript's `a < b` on strings.
  predicate StringLess(a: string, b: string) { LexLess(CharLess, a, b) }

  lemma StringOrder()
    ensures StrictTotalOrder(CharLess)
    ensures StrictTotalOrder(StringLess)
  {
    LexOrder(CharLess, StringLess);
  }
}
