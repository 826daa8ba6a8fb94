// The observed-remove set behind room membership.
module OrSet {
  import opened Wrappers
  import opened Collections

  datatype State = State(adds: map<string, set<string>>, removes: set<string>)

  const EMPTY := State(map[], {})

  function TagsOf(s: State, elem: string): set<string> {
    if elem in s.adds then s.adds[elem] else {}
  }

  function Add(s: State, elem: string, tag: string): State {
    s.(adds := s.adds[elem := TagsOf(s, elem) + {tag}])
  }

  function AddTags(s: State, elem: string, tags: set<string>): State {
    s.(adds := s.adds[elem := TagsOf(s, elem) + tags])
  }

  function Retire(s: State, tags: set<string>): State {
    s.(removes := s.removes + tags)
  }

  // Present: some add-tag is not retired.
  predicate Has(s: State, elem: string) {
    TagsOf(s, elem) - s.removes != {}
  }

  // The listed elements that are present, in the order listed.
  function Present(s: State, elems: seq<string>): seq<string> {
    if elems == [] then []
    else Present(s, elems[..|elems| - 1]) + (if Has(s, elems[|elems| - 1]) then [elems[|elems| - 1]] else [])
  }

  lemma {:induction false} PresentExact(s: State, elems: seq<string>)
    requires forall i, j :: 0 <= i < j < |elems| ==> elems[i] != elems[j]
    ensures forall e :: e in Present(s, elems) <==> e in elems && Has(s, e)
    ensures forall i, j :: 0 <= i < j < |Present(s, elems)| ==> Present(s, elems)[i] != Present(s, elems)[j]
  {
    if elems != [] {
      hide Has;
      var init, last := elems[..|elems| - 1], elems[|elems| - 1];
      PresentExact(s, init);
      assert elems == init + [last] && last !in init;
      assert last !in Present(s, init);
    }
  }

  lemma {:induction false} PresentFilters(s: State, elems: seq<string>)
    ensures Filters(elems, (e: string) => Has(s, e), Present(s, elems))
  {
    var p := (e: string) => Has(s, e);
    if elems == [] {
      FiltersNone(p);
    } else {
      var n := |elems| - 1;
      PresentFilters(s, elems[..n]);
      FiltersSnoc(elems[..n], p, Present(s, elems[..n]), elems[n]);
      assert elems == elems[..n] + [elems[n]];
      assert Present(s, elems[..n]) + [] == Present(s, elems[..n]);
    }
  }

  // Every element listed was added under some tag.
  ghost predicate NoEmptyTags(s: State) {
    forall e :: e in s.adds ==> s.adds[e] != {}
  }

  function Merge(mine: State, theirs: State): State {
    State(map e | e in mine.adds.Keys + theirs.adds.Keys :: TagsOf(mine, e) + TagsOf(theirs, e),
          mine.removes + theirs.removes)
  }

  // A remover retires what it has seen; a concurrent add under a new tag survives.
  lemma AddWins(mine: State, theirs: State, elem: string, tag: string)
    requires tag !in TagsOf(mine, elem) && tag !in mine.removes && tag !in theirs.removes
    ensures Has(Merge(Retire(mine, TagsOf(mine, elem)), Add(theirs, elem, tag)), elem)
    ensures !Has(Retire(mine, TagsOf(mine, elem)), elem)
  {
    var merged := Merge(Retire(mine, TagsOf(mine, elem)), Add(theirs, elem, tag));
    assert tag in TagsOf(merged, elem) - merged.removes;
  }

  // An add shows its element unless its tag was retired before it arrived.
  lemma AddShows(s: State, elem: string, tag: string)
    ensures Has(Add(s, elem, tag), elem) <==> Has(s, elem) || tag !in s.removes
  {
    var s' := Add(s, elem, tag);
    if Has(s, elem) {
      var t :| t in TagsOf(s, elem) - s.removes;
      assert t in TagsOf(s', elem) - s'.removes;
    }
    if tag !in s.removes { assert tag in TagsOf(s', elem) - s'.removes; }
    if Has(s', elem) && tag in s.removes {
      var t :| t in TagsOf(s', elem) - s'.removes;
      assert t in TagsOf(s, elem) - s.removes;
    }
  }

  // The adds of the listed elements only.
  function Restrict(s: State, elems: seq<string>): State {
    State(map e | e in s.adds && e in elems :: s.adds[e], {})
  }

  lemma MergeStep(mine: State, theirs: State, elems: seq<string>, elem: string)
    requires elem in theirs.adds && elem !in elems
    ensures AddTags(Merge(mine, Restrict(theirs, elems)), elem, theirs.adds[elem]) == Merge(mine, Restrict(theirs, elems + [elem]))
  {
    var few, more := Restrict(theirs, elems), Restrict(theirs, elems + [elem]);
    assert forall e :: e in elems + [elem] <==> e in elems || e == elem;
    MergeAdd(mine, few, more, elem);
  }

  lemma MergeAdd(mine: State, few: State, more: State, elem: string)
    requires elem in more.adds && elem !in few.adds && few.removes == more.removes
    requires forall e :: e != elem ==> (e in few.adds <==> e in more.adds)
    requires forall e :: e in few.adds ==> few.adds[e] == more.adds[e]
    ensures AddTags(Merge(mine, few), elem, more.adds[elem]) == Merge(mine, more)
  {
    var l, r := AddTags(Merge(mine, few), elem, more.adds[elem]), Merge(mine, more);
    assert l.adds.Keys == r.adds.Keys;
    assert TagsOf(few, elem) == {} && TagsOf(Merge(mine, few), elem) == TagsOf(mine, elem);
    assert l.adds[elem] == r.adds[elem];
    forall e | e in l.adds && e != elem ensures l.adds[e] == r.adds[e] {
      assert TagsOf(few, e) == TagsOf(more, e);
    }
  }

  lemma MergeWhole(mine: State, theirs: State, elems: seq<string>)
    requires forall e :: e in theirs.adds ==> e in elems
    ensures Merge(mine, Restrict(theirs, [])) == mine
    ensures Retire(Merge(mine, Restrict(theirs, elems)), theirs.removes) == Merge(mine, theirs)
  {
    assert Restrict(theirs, []) == EMPTY && Restrict(theirs, elems).adds == theirs.adds;
    MergeNothing(mine);
    hide TagsOf;
    assert forall e :: TagsOf(Restrict(theirs, elems), e) == TagsOf(theirs, e) by { SameTags(Restrict(theirs, elems), theirs); }
  }

  lemma SameTags(s: State, t: State)
    requires s.adds == t.adds
    ensures forall e :: TagsOf(s, e) == TagsOf(t, e)
  {
  }

  lemma MergeNothing(mine: State)
    ensures Merge(mine, EMPTY) == mine
  {
    var none := Merge(mine, EMPTY);
    assert none.adds.Keys == mine.adds.Keys;
    forall e | e in mine.adds ensures none.adds[e] == mine.adds[e] {
      assert TagsOf(EMPTY, e) == {};
    }
  }

  class ORSet {
    var adds: map<string, set<string>>
    var removes: set<string>
    var order: seq<string>  // insertion order of `adds`

    ghost predicate Valid()
      reads this
    {
      && (forall e :: e in order <==> e in adds)
      && (forall e :: e in adds ==> adds[e] != {})
      && (forall i, j :: 0 <= i < j < |order| ==> order[i] != order[j])
    }

    ghost function View(): State
      reads this
    {
      State(adds, removes)
    }

    constructor ()
      ensures Valid() && View() == EMPTY
    {
      adds, removes, order := map[], {}, [];
    }

    // A set holding `content`, its elements listed in some order.
    constructor Holding(content: State)
      requires NoEmptyTags(content)
      ensures Valid() && View() == content
    {
      adds, removes, order := content.adds, {}, [];
      new;
      var rest := content.adds.Keys;
      while rest != {}
        invariant adds == content.adds && removes == {} && rest <= adds.Keys
        invariant forall e :: e in order <==> e in adds.Keys - rest
        invariant forall i, j :: 0 <= i < j < |order| ==> order[i] != order[j]
      {
        var elem :| elem in rest;
        assert elem !in order;
        order := order + [elem];
        rest := rest - {elem};
      }
      ApplyRemove(content.removes);
    }

    // `generated` is the tag made up when none is given.
    method Insert(elem: string, tag: Option<string>, generated: string) returns (resolved: string)
      requires Valid()
      modifies this
      ensures resolved == if tag.Some? then tag.value else generated
      ensures Valid() && View() == Add(old(View()), elem, resolved)
      ensures order == if elem in old(adds) then old(order) else old(order) + [elem]
    {
      resolved := if tag.Some? then tag.value else generated;
      var tags := {};
      if elem in adds {
        tags := adds[elem];
      } else {
        order := order + [elem];
      }
      adds := adds[elem := tags + {resolved}];
    }

    method ApplyRemove(tags: set<string>)
      requires Valid()
      modifies this`removes
      ensures Valid() && View() == Retire(old(View()), tags)
    {
      var rest := tags;
      while rest != {}
        invariant rest <= tags && removes == old(removes) + (tags - rest)
      {
        var tag :| tag in rest;
        removes := removes + {tag};
        rest := rest - {tag};
      }
      assert tags - rest == tags;
    }

    method Remove(elem: string) returns (retired: set<string>)
      requires Valid()
      modifies this
      ensures Valid() && retired == TagsOf(old(View()), elem)
      ensures View() == Retire(old(View()), retired)
      ensures !Has(View(), elem)
    {
      retired := {};
      if elem !in adds {
        return;
      }
      var rest := adds[elem];
      while rest != {}
        invariant Valid() && adds == old(adds) && rest <= adds[elem]
        invariant retired == adds[elem] - rest
        invariant removes == old(removes) + retired
      {
        var tag :| tag in rest;
        removes := removes + {tag};
        retired := retired + {tag};
        rest := rest - {tag};
      }
    }

    method Contains(elem: string) returns (present: bool)
      requires Valid()
      ensures present == Has(View(), elem)
    {
      if elem !in adds {
        return false;
      }
      var rest := adds[elem];
      while rest != {}
        invariant rest <= adds[elem]
        invariant adds[elem] - rest <= removes
      {
        var tag :| tag in rest;
        if tag !in removes {
          assert tag in TagsOf(View(), elem) - removes;
          return true;
        }
        rest := rest - {tag};
      }
      present := false;
    }

    // Present elements, in insertion order.
    method Members() returns (out: seq<string>)
      requires Valid()
      ensures out == Present(View(), order)
      ensures var s := View(); Filters(order, (e: string) => Has(s, e), out)
      ensures forall e :: e in out <==> Has(View(), e)
      ensures forall i, j :: 0 <= i < j < |out| ==> out[i] != out[j]
    {
      out := [];
      for k := 0 to |order|
        invariant out == Present(View(), order[..k])
      {
        var present := Contains(order[k]);
        assert order[..k + 1][..k] == order[..k];
        if present {
          out := out + [order[k]];
        }
      }
      assert order[..|order|] == order;
      PresentExact(View(), order);
      PresentFilters(View(), order);
    }

    method MergeFrom(other: ORSet)
      requires Valid() && other.Valid() && other != this
      modifies this
      ensures Valid() && View() == Merge(old(View()), other.View())
    {
      MergeWhole(View(), other.View(), other.order);
      hide Merge, Restrict, AddTags, TagsOf, Retire;
      assert other.order[..0] == [];
      for k := 0 to |other.order|
        invariant Valid() && other.Valid() && unchanged(other)
        invariant View() == Merge(old(View()), Restrict(other.View(), other.order[..k]))
      {
        assert other.order[k] in other.order;
        assert other.order[..k + 1] == other.order[..k] + [other.order[k]];
        MergeStep(old(View()), other.View(), other.order[..k], other.order[k]);
        AddAll(other.order[k], other.adds[other.order[k]]);
      }
      assert other.order[..|other.order|] == other.order;
      ApplyRemove(other.removes);
    }

    method AddAll(elem: string, tags: set<string>)
      requires Valid() && tags != {}
      modifies this
      ensures Valid() && View() == AddTags(old(View()), elem, tags)
    {
      var rest := tags;
      while rest != {}
        invariant Valid() && removes == old(removes) && rest <= tags
        invariant rest == tags ==> adds == old(adds)
        invariant rest != tags ==> adds == old(adds)[elem := TagsOf(old(View()), elem) + (tags - rest)]
      {
        var tag :| tag in rest;
        var _ := Insert(elem, Some(tag), "");
        rest := rest - {tag};
        assert adds[elem] == TagsOf(old(View()), elem) + (tags - rest);
      }
      assert tags - rest == tags;
    }
  }
}
