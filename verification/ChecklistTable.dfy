/** The criteria table of the shared housing checklist, the query that lists a
    family's active criteria, and the loop that writes positions back. */
module ChecklistTable {
  import opened Prelude

  // A UUID, compared the way the database orders UUIDs.
  type Id = nat

  datatype Criterion = Criterion(
    family: Id,
    name: string,
    description: string,
    order: int,
    weight: Option<real>,
    retired: bool)

  type Table = map<Id, Criterion>

  function Active(t: Table, f: Id): set<Id> {
    set id | id in t && t[id].family == f && !t[id].retired
  }

  // The key of `ORDER BY display_order, id`.
  predicate Before(t: Table, a: Id, b: Id)
    requires a in t && b in t
  {
    t[a].order < t[b].order || (t[a].order == t[b].order && a < b)
  }

  predicate IsLeast(t: Table, s: set<Id>, m: Id)
    requires s <= t.Keys
  {
    m in s && forall x :: x in s && x != m ==> Before(t, m, x)
  }

  lemma LeastExists(t: Table, s: set<Id>)
    requires s <= t.Keys && s != {}
    ensures exists m :: IsLeast(t, s, m)
  {
    var x :| x in s;
    if s == {x} {
      assert IsLeast(t, s, x);
    } else {
      LeastExists(t, s - {x});
      var m :| IsLeast(t, s - {x}, m);
      if Before(t, m, x) {
        assert IsLeast(t, s, m);
      } else {
        assert forall y :: y in s && y != x ==> y in s - {x};
        assert IsLeast(t, s, x);
      }
    }
  }

  ghost predicate StrictlySorted(t: Table, ids: seq<Id>)
    requires forall id :: id in ids ==> id in t
  {
    forall i, j :: 0 <= i < j < |ids| ==> Before(t, ids[i], ids[j])
  }

  ghost predicate Distinct(ids: seq<Id>) {
    forall i, j :: 0 <= i < j < |ids| ==> ids[i] != ids[j]
  }

  function Least(t: Table, s: set<Id>): (m: Id)
    requires s <= t.Keys && s != {}
    ensures IsLeast(t, s, m)
  {
    LeastExists(t, s);
    var m :| IsLeast(t, s, m);
    m
  }

  function SortRows(t: Table, s: set<Id>): (ids: seq<Id>)
    requires s <= t.Keys
    ensures forall id :: id in ids <==> id in s
  {
    if s == {} then
      []
    else
      [Least(t, s)] + SortRows(t, s - {Least(t, s)})
  }

  lemma {:induction false} SortRowsSorted(t: Table, s: set<Id>)
    requires s <= t.Keys
    ensures |SortRows(t, s)| == |s|
    ensures StrictlySorted(t, SortRows(t, s))
    ensures Distinct(SortRows(t, s))
  {
    if s != {} {
      var m := Least(t, s);
      SortRowsSorted(t, s - {m});
      var rest := SortRows(t, s - {m});
      forall j | 0 <= j < |rest|
        ensures Before(t, m, rest[j])
      {
        assert rest[j] in rest;
      }
    }
  }

  // SELECT id ... WHERE family_id = f AND deleted_at IS NULL ORDER BY display_order, id
  function Listing(t: Table, f: Id): (ids: seq<Id>)
    ensures forall id :: id in ids <==> id in Active(t, f)
  {
    SortRows(t, Active(t, f))
  }

  /** The query returns each active id once, in order of position then id. */
  lemma ListingSorted(t: Table, f: Id)
    ensures |Listing(t, f)| == |Active(t, f)|
    ensures forall i :: 0 <= i < |Listing(t, f)| ==> Listing(t, f)[i] in Active(t, f)
    ensures StrictlySorted(t, Listing(t, f))
    ensures Distinct(Listing(t, f))
  {
    SortRowsSorted(t, Active(t, f));
    assert forall i :: 0 <= i < |Listing(t, f)| ==> Listing(t, f)[i] in Listing(t, f);
  }

  /** Of two listed ids the one with the lower position comes first, and of two at
      one position the one with the lower id. */
  lemma ListingOrder(t: Table, f: Id, i: nat, j: nat)
    requires i < j < |Listing(t, f)|
    ensures var a, b := Listing(t, f)[i], Listing(t, f)[j];
      && a in t && t[a].family == f && !t[a].retired
      && b in t && t[b].family == f && !t[b].retired
      && (t[a].order < t[b].order || (t[a].order == t[b].order && a < b))
  {
    hide Listing;
    ListingSorted(t, f);
    assert Before(t, Listing(t, f)[i], Listing(t, f)[j]);
  }

  lemma {:induction false} SortedUnique(t: Table, a: seq<Id>, b: seq<Id>)
    requires forall id :: id in a ==> id in t
    requires forall id :: id in a <==> id in b
    requires StrictlySorted(t, a) && StrictlySorted(t, b)
    ensures a == b
  {
    if a == [] {
      assert forall i :: 0 <= i < |b| ==> b[i] in a;
    } else {
      assert a[0] in b;
      assert b[0] in a;
      assert a[0] == b[0];
      var x := a[0];
      forall id | id in a[1..]
        ensures id in b[1..]
      {
        assert id in b && id != x;
      }
      forall id | id in b[1..]
        ensures id in a[1..]
      {
        assert id in a && id != x;
      }
      SortedUnique(t, a[1..], b[1..]);
    }
  }

  // Whatever list carries its own indices as positions is the list read back.
  lemma ReadBack(t: Table, f: Id, ids: seq<Id>)
    requires forall id :: id in ids <==> id in Active(t, f)
    requires forall i :: 0 <= i < |ids| ==> ids[i] in t && t[ids[i]].order == i
    ensures Listing(t, f) == ids
  {
    ListingSorted(t, f);
    SortedUnique(t, Listing(t, f), ids);
  }

  // Two tables that agree on a family's rows list that family alike.
  lemma ListingLocal(t: Table, u: Table, f: Id)
    requires Active(t, f) == Active(u, f)
    requires forall id :: id in Active(t, f) ==> t[id].order == u[id].order
    ensures Listing(t, f) == Listing(u, f)
  {
    ListingSorted(t, f);
    ListingSorted(u, f);
    SortedUnique(t, Listing(t, f), Listing(u, f));
  }

  ghost predicate Contiguous(t: Table, f: Id) {
    var ids := Listing(t, f);
    forall i :: 0 <= i < |ids| ==> ids[i] in t && t[ids[i]].order == i
  }

  ghost predicate PositionTaken(t: Table, f: Id, i: int) {
    exists a :: a in Active(t, f) && t[a].order == i
  }

  // The same fact without the query: positions are exactly 0..n-1, no position twice.
  ghost predicate PositionsExact(t: Table, f: Id) {
    && (forall a, b :: a in Active(t, f) && b in Active(t, f) && a != b ==> t[a].order != t[b].order)
    && (forall a :: a in Active(t, f) ==> 0 <= t[a].order < |Active(t, f)|)
    && (forall i :: 0 <= i < |Active(t, f)| ==> PositionTaken(t, f, i))
  }

  lemma ContiguousIffPositionsExact(t: Table, f: Id)
    ensures Contiguous(t, f) <==> PositionsExact(t, f)
  {
    if Contiguous(t, f) {
      ContiguousIsExact(t, f);
    }
    if PositionsExact(t, f) {
      ListingSorted(t, f);
      forall i | 0 <= i < |Listing(t, f)|
        ensures t[Listing(t, f)[i]].order == i
      {
        OrderAtLeastIndex(t, f, i);
        OrderAtMostIndex(t, f, i);
      }
    }
  }

  lemma ContiguousIsExact(t: Table, f: Id)
    requires Contiguous(t, f)
    ensures PositionsExact(t, f)
  {
    var ids := Listing(t, f);
    ListingSorted(t, f);
    forall i | 0 <= i < |ids|
      ensures PositionTaken(t, f, i)
    {
      assert ids[i] in Active(t, f) && t[ids[i]].order == i;
    }
    forall a | a in Active(t, f)
      ensures 0 <= t[a].order < |ids| && ids[t[a].order] == a
    {
      assert a in ids;
      var i :| 0 <= i < |ids| && ids[i] == a;
    }
  }

  lemma {:induction false} OrderAtLeastIndex(t: Table, f: Id, i: nat)
    requires PositionsExact(t, f) && i < |Listing(t, f)|
    ensures Listing(t, f)[i] in t && t[Listing(t, f)[i]].order >= i
  {
    ListingSorted(t, f);
    if i > 0 {
      OrderAtLeastIndex(t, f, i - 1);
    }
  }

  lemma {:induction false} OrderAtMostIndex(t: Table, f: Id, i: nat)
    requires PositionsExact(t, f) && i < |Listing(t, f)|
    ensures Listing(t, f)[i] in t && t[Listing(t, f)[i]].order <= i
    decreases |Listing(t, f)| - i
  {
    ListingSorted(t, f);
    if i + 1 < |Listing(t, f)| {
      OrderAtMostIndex(t, f, i + 1);
    }
  }

  // UPDATE ... SET display_order = k WHERE id = id: a missing row is no error.
  function SetOrder(t: Table, id: Id, k: int): Table {
    if id in t then t[id := t[id].(order := k)] else t
  }

  // The table after the first k iterations of writeChecklistOrder.
  function WritePrefix(t: Table, ids: seq<Id>, k: nat): Table
    requires k <= |ids|
  {
    if k == 0 then t else SetOrder(WritePrefix(t, ids, k - 1), ids[k - 1], k - 1)
  }

  function WriteOrder(t: Table, ids: seq<Id>): Table {
    WritePrefix(t, ids, |ids|)
  }

  lemma {:induction false} UnwrittenRow(t: Table, ids: seq<Id>, k: nat, id: Id)
    requires k <= |ids| && id !in ids[..k]
    ensures id in WritePrefix(t, ids, k) <==> id in t
    ensures id in t ==> WritePrefix(t, ids, k)[id] == t[id]
  {
    if k > 0 {
      assert ids[k - 1] in ids[..k];
      assert forall x :: x in ids[..k - 1] ==> x in ids[..k];
      UnwrittenRow(t, ids, k - 1, id);
    }
  }

  lemma {:induction false} WrittenRow(t: Table, ids: seq<Id>, k: nat, i: nat)
    requires i < k <= |ids| && Distinct(ids) && ids[i] in t
    ensures ids[i] in WritePrefix(t, ids, k)
    ensures WritePrefix(t, ids, k)[ids[i]] == t[ids[i]].(order := i)
  {
    if i == k - 1 {
      UnwrittenRow(t, ids, i, ids[i]);
    } else {
      WrittenRow(t, ids, k - 1, i);
    }
  }

  lemma WritePrefixRows(t: Table, ids: seq<Id>, k: nat)
    requires k <= |ids| && Distinct(ids)
    requires forall id :: id in ids ==> id in t
    ensures WritePrefix(t, ids, k).Keys == t.Keys
    ensures forall i :: 0 <= i < k ==> WritePrefix(t, ids, k)[ids[i]] == t[ids[i]].(order := i)
    ensures forall id :: id in t && id !in ids[..k] ==> WritePrefix(t, ids, k)[id] == t[id]
  {
    hide WritePrefix;
    forall i | 0 <= i < k
      ensures ids[i] in WritePrefix(t, ids, k) && WritePrefix(t, ids, k)[ids[i]] == t[ids[i]].(order := i)
    {
      assert ids[i] in ids;
      WrittenRow(t, ids, k, i);
    }
    forall id | id !in ids[..k]
      ensures id in WritePrefix(t, ids, k) <==> id in t
      ensures id in t ==> WritePrefix(t, ids, k)[id] == t[id]
    {
      UnwrittenRow(t, ids, k, id);
    }
    assert forall id :: id in ids[..k] ==> id in t && id in WritePrefix(t, ids, k);
  }

  /** Writing a list of all the active ids makes that list the one read back,
      with positions 0..n-1, and touches nothing but those rows' positions. */
  lemma WriteOrderReadsBack(t: Table, f: Id, ids: seq<Id>)
    requires Distinct(ids)
    requires forall id :: id in ids <==> id in Active(t, f)
    ensures Listing(WriteOrder(t, ids), f) == ids
    ensures Contiguous(WriteOrder(t, ids), f)
    ensures WriteOrder(t, ids).Keys == t.Keys
    ensures forall id :: id in t && id !in ids ==> WriteOrder(t, ids)[id] == t[id]
    ensures forall id :: id in t && id in ids ==>
      WriteOrder(t, ids)[id] == t[id].(order := WriteOrder(t, ids)[id].order)
  {
    WritePrefixRows(t, ids, |ids|);
    assert ids[..|ids|] == ids;
    var u := WriteOrder(t, ids);
    forall id | id in t && id in ids
      ensures u[id] == t[id].(order := u[id].order)
    {
      var i :| 0 <= i < |ids| && ids[i] == id;
    }
    assert Active(u, f) == Active(t, f);
    ReadBack(u, f, ids);
  }
}
