// LWWElementSet: geofence definitions, where the greater stamp wins.
module FenceSet {
  import opened Order
  import Hlc

  // compareStamps orders by clock reading, then by region id.
  datatype Mark = Mark(hlc: Hlc.Stamp, region: string)

  predicate MarkLess(a: Mark, b: Mark) {
    if a.hlc == b.hlc then StringLess(a.region, b.region) else Hlc.Less(a.hlc, b.hlc)
  }

  lemma MarkOrder()
    ensures StrictTotalOrder(MarkLess)
  {
    StringOrder();
  }

  datatype Upsert = Upsert(mark: Mark, value: string)
  datatype State = State(adds: map<string, Upsert>, removes: map<string, Mark>)

  const EMPTY := State(map[], map[])

  function Add(s: State, elem: string, u: Upsert): State {
    if elem !in s.adds || MarkLess(s.adds[elem].mark, u.mark) then s.(adds := s.adds[elem := u]) else s
  }

  function Remove(s: State, elem: string, m: Mark): State {
    if elem !in s.removes || MarkLess(s.removes[elem], m) then s.(removes := s.removes[elem := m]) else s
  }

  predicate Has(s: State, elem: string) {
    elem in s.adds && (elem !in s.removes || MarkLess(s.removes[elem], s.adds[elem].mark))
  }

  function MergeAdds(mine: map<string, Upsert>, theirs: map<string, Upsert>): map<string, Upsert> {
    map e | e in mine.Keys + theirs.Keys ::
      if e !in mine || (e in theirs && MarkLess(mine[e].mark, theirs[e].mark)) then theirs[e] else mine[e]
  }

  function MergeRemoves(mine: map<string, Mark>, theirs: map<string, Mark>): map<string, Mark> {
    map e | e in mine.Keys + theirs.Keys ::
      if e !in mine || (e in theirs && MarkLess(mine[e], theirs[e])) then theirs[e] else mine[e]
  }

  function Merge(mine: State, theirs: State): State {
    State(MergeAdds(mine.adds, theirs.adds), MergeRemoves(mine.removes, theirs.removes))
  }

  class LWWElementSet {
    var adds: map<string, Upsert>
    var removes: map<string, Mark>

    ghost function View(): State
      reads this
    {
      State(adds, removes)
    }

    constructor ()
      ensures View() == EMPTY
    {
      adds, removes := map[], map[];
    }

    // A set holding `content`, entered one by one.
    constructor Holding(content: State)
      ensures View() == content
    {
      adds, removes := map[], map[];
      new;
      MergeAddsFrom(content.adds);
      MergeRemovesFrom(content.removes);
      assert MergeAdds(map[], content.adds) == content.adds;
      assert MergeRemoves(map[], content.removes) == content.removes;
    }

    method Insert(elem: string, u: Upsert)
      modifies this
      ensures View() == Add(old(View()), elem, u)
    {
      if elem !in adds || MarkLess(adds[elem].mark, u.mark) {
        adds := adds[elem := u];
      }
    }

    method Delete(elem: string, m: Mark)
      modifies this
      ensures View() == Remove(old(View()), elem, m)
    {
      if elem !in removes || MarkLess(removes[elem], m) {
        removes := removes[elem := m];
      }
    }

    method MergeFrom(other: LWWElementSet)
      requires other != this
      modifies this
      ensures View() == Merge(old(View()), other.View())
    {
      MergeAddsFrom(other.adds);
      MergeRemovesFrom(other.removes);
    }

    method MergeAddsFrom(theirs: map<string, Upsert>)
      modifies this
      ensures adds == MergeAdds(old(adds), theirs) && removes == old(removes)
    {
      hide MarkLess;
      var rest := theirs.Keys;
      while rest != {}
        invariant removes == old(removes) && rest <= theirs.Keys
        invariant adds.Keys == old(adds).Keys + (theirs.Keys - rest)
        invariant forall e :: e in adds ==>
          adds[e] == if e in theirs.Keys - rest then MergeAdds(old(adds), theirs)[e] else old(adds)[e]
      {
        var elem :| elem in rest;
        Insert(elem, theirs[elem]);
        rest := rest - {elem};
      }
    }

    method MergeRemovesFrom(theirs: map<string, Mark>)
      modifies this
      ensures removes == MergeRemoves(old(removes), theirs) && adds == old(adds)
    {
      hide MarkLess;
      var rest := theirs.Keys;
      while rest != {}
        invariant adds == old(adds) && rest <= theirs.Keys
        invariant removes.Keys == old(removes).Keys + (theirs.Keys - rest)
        invariant forall e :: e in removes ==>
          removes[e] == if e in theirs.Keys - rest then MergeRemoves(old(removes), theirs)[e] else old(removes)[e]
      {
        var elem :| elem in rest;
        Delete(elem, theirs[elem]);
        rest := rest - {elem};
      }
    }
  }
}
