/** The repository's checklist methods, statement by statement, each proved to
    do to the stored data exactly what ChecklistOps says of the operation. */
module ChecklistRepository {
  import opened Prelude
  import opened ChecklistTable
  import opened ChecklistDomain
  import opened IdSlices
  import Ops = ChecklistOps

  // A transaction's view of the criteria table; dropped on rollback.
  class ChecklistTx {
    var rows: Table

    constructor (rows: Table)
      ensures this.rows == rows
    {
      this.rows := rows;
    }

    method ChecklistIDs(family: Id) returns (ids: IdSlice)
      ensures fresh(ids) && fresh(ids.data) && ids.Valid()
      ensures ids.Contents() == Listing(rows, family)
    {
      hide Listing;
      var result := Listing(rows, family);
      ids := new IdSlice();
      for i := 0 to |result|
        invariant fresh(ids) && fresh(ids.data) && ids.Valid()
        invariant ids.Contents() == result[..i]
      {
        ids.Append(result[i]);
      }
    }

    method WriteChecklistOrder(ids: seq<Id>)
      modifies this
      ensures rows == WriteOrder(old(rows), ids)
    {
      for i := 0 to |ids|
        invariant rows == WritePrefix(old(rows), ids, i)
      {
        rows := SetOrder(rows, ids[i], i);
      }
    }
  }

  class Repository {
    const env: Ops.Env
    var db: Ops.Db

    constructor (env: Ops.Env, db: Ops.Db)
      ensures this.env == env && this.db == db
    {
      this.env := env;
      this.db := db;
    }

    // `newId` is the id the database generates for an inserted row.
    method SaveHousingCriterion(c: HousingCriterion, actor: Id, newId: Id) returns (r: Result<HousingCriterion>)
      modifies this
      ensures match Ops.Apply(env, old(db), Ops.Save(actor, c), newId)
        case Ok(db') => db == db' && r == Ok(c.(id := Ops.SavedId(c, newId)))
        case Err(e) => db == old(db) && r == Err(e)
    {
      hide Listing, Ops.RemoveAt, Ops.InsertAt;
      var valid := ValidateHousingCriterion(c);
      if valid.Err? { return Err(valid.error); }
      if actor == NO_ID { return Err(InvalidArgument); }
      if (c.family, actor) !in env.writers { return Err(Forbidden); }
      var tx := new ChecklistTx(db.criteria);
      var ids := tx.ChecklistIDs(c.family);
      ghost var listed, buffer := ids.Contents(), ids.data;
      if c.id != NO_ID {
        var found, i := false, 0;
        while i < ids.len && !found
          invariant 0 <= i <= |listed| && ids.Valid() && ids.data == buffer
          invariant !found ==> ids.Contents() == listed && c.id !in listed[..i]
          invariant found ==> c.id in listed && ids.Contents() == Ops.Without(listed, c.id)
          modifies ids, buffer
          decreases |listed| - i, !found
        {
          if ids.data[i] == c.id {
            assert ids.Contents()[i] == c.id;
            FirstOccurrence(listed, i);
            ids.RemoveAt(i);
            found := true;
          } else {
            assert ids.data[i] == ids.Contents()[i];
            i := i + 1;
          }
        }
        if !found {
          assert listed[..|listed|] == listed;
          return Err(NotFound);
        }
      }
      if c.order > ids.len { return Err(InvalidArgument); }
      var id := c.id;
      if c.id == NO_ID {
        if newId == NO_ID || newId in tx.rows { return Err(Conflict); }
        tx.rows := tx.rows[newId := Criterion(c.family, c.name, c.description, c.order, c.weight, false)];
        id := newId;
      } else {
        tx.rows := tx.rows[id := tx.rows[id].(name := c.name, description := c.description, weight := c.weight)];
      }
      ghost var rest := ids.Contents();
      ids.InsertAt(c.order, id);
      assert ids.Contents() == Ops.InsertAt(rest, c.order, id);
      tx.WriteChecklistOrder(ids.data[..ids.len]);
      db := db.(criteria := tx.rows);
      return Ok(c.(id := id));
    }

    method DeleteHousingCriterion(family: Id, criterion: Id, actor: Id) returns (r: Result<()>)
      modifies this
      ensures match Ops.Apply(env, old(db), Ops.Delete(actor, family, criterion), NO_ID)
        case Ok(db') => db == db' && r == Ok(())
        case Err(e) => db == old(db) && r == Err(e)
    {
      hide Listing;
      if actor == NO_ID || family == NO_ID { return Err(InvalidArgument); }
      if (family, actor) !in env.writers { return Err(Forbidden); }
      if criterion == NO_ID { return Err(InvalidArgument); }
      var tx := new ChecklistTx(db.criteria);
      if criterion !in tx.rows || tx.rows[criterion].family != family || tx.rows[criterion].retired {
        return Err(NotFound);
      }
      tx.rows := tx.rows[criterion := tx.rows[criterion].(retired := true)];
      var ids := tx.ChecklistIDs(family);
      tx.WriteChecklistOrder(ids.data[..ids.len]);
      db := db.(criteria := tx.rows);
      return Ok(());
    }

    method ReorderHousingCriteria(family: Id, ids: seq<Id>, actor: Id) returns (r: Result<()>)
      modifies this
      ensures match Ops.Apply(env, old(db), Ops.Reorder(actor, family, ids), NO_ID)
        case Ok(db') => db == db' && r == Ok(())
        case Err(e) => db == old(db) && r == Err(e)
    {
      hide Listing;
      if actor == NO_ID || family == NO_ID { return Err(InvalidArgument); }
      if (family, actor) !in env.writers { return Err(Forbidden); }
      var tx := new ChecklistTx(db.criteria);
      var current := tx.ChecklistIDs(family);
      ListingSorted(tx.rows, family);
      var ok, _ := AcceptsOrder(current.data[..current.len], ids);
      if !ok { return Err(InvalidArgument); }
      tx.WriteChecklistOrder(ids);
      db := db.(criteria := tx.rows);
      return Ok(());
    }

    method SaveHousingAnswer(a: HousingAnswer, actor: Id) returns (r: Result<HousingAnswer>)
      modifies this
      ensures match Ops.Apply(env, old(db), Ops.SaveAnswer(actor, a), NO_ID)
        case Ok(db') => db == db' && r == Ok(a)
        case Err(e) => db == old(db) && r == Err(e)
    {
      var valid := ValidateHousingAnswer(a);
      if valid.Err? { return Err(valid.error); }
      if !Ops.AnswerAllowed(env, db.criteria, actor, a) { return Err(NotFound); }
      db := db.(answers := db.answers[(a.home, a.criterion) := a]);
      return Ok(a);
    }
  }

  lemma FirstOccurrence(ids: seq<Id>, i: nat)
    requires i < |ids| && ids[i] !in ids[..i]
    ensures Ops.Without(ids, ids[i]) == Ops.RemoveAt(ids, i)
  {
    assert forall k :: 0 <= k < i ==> ids[k] in ids[..i];
  }

  /** The reorder check: a list is accepted exactly when it is a permutation of
      the current ids, and nothing is left over then. */
  method AcceptsOrder(current: seq<Id>, ids: seq<Id>) returns (ok: bool, remaining: map<Id, bool>)
    requires Distinct(current)
    ensures ok <==> multiset(ids) == multiset(current)
    ensures ok ==> remaining == map[]
  {
    if |ids| != |current| {
      assert |multiset(ids)| == |ids| && |multiset(current)| == |current|;
      return false, map[];
    }
    remaining := Mark(current);
    ghost var all := remaining;
    for i := 0 to |ids|
      invariant forall x :: x in remaining <==> x in all && x !in ids[..i]
      invariant forall x :: x in ids[..i] ==> x in all
      invariant Distinct(ids[..i])
      invariant |remaining| == |current| - i
      invariant forall x :: x in remaining ==> remaining[x]
    {
      if ids[i] !in remaining || !remaining[ids[i]] {
        PermutationUsesEachOnce(current, ids, i);
        return false, remaining;
      }
      remaining := Delete(remaining, ids[i]);
      assert ids[..i + 1] == ids[..i] + [ids[i]];
    }
    assert ids[..|ids|] == ids;
    assert remaining == map[];
    assert forall x :: x in current ==> x !in remaining;
    Ops.SameElementsPermutation(ids, current);
    return true, remaining;
  }

  method Mark(current: seq<Id>) returns (m: map<Id, bool>)
    requires Distinct(current)
    ensures forall x :: x in m <==> x in current
    ensures forall x :: x in m ==> m[x]
    ensures |m| == |current|
  {
    m := map[];
    for i := 0 to |current|
      invariant forall x :: x in m <==> x in current[..i]
      invariant forall x :: x in m ==> m[x]
      invariant |m| == i
    {
      assert current[i] !in current[..i];
      assert current[..i + 1] == current[..i] + [current[i]];
      m := m[current[i] := true];
    }
    assert current[..|current|] == current;
  }

  function Delete(m: map<Id, bool>, id: Id): (r: map<Id, bool>)
    requires id in m
    ensures |r| == |m| - 1
    ensures forall x :: x in r <==> x in m && x != id
    ensures forall x :: x in r ==> r[x] == m[x]
  {
    var r := m - {id};
    assert r.Keys == m.Keys - {id};
    assert |r| == |r.Keys| && |m| == |m.Keys|;
    r
  }

  lemma PermutationUsesEachOnce(current: seq<Id>, ids: seq<Id>, i: nat)
    requires Distinct(current) && i < |ids|
    ensures multiset(ids) == multiset(current) ==> ids[i] in current && ids[i] !in ids[..i]
  {
    if multiset(ids) == multiset(current) {
      Ops.PermutationSameElements(ids, current);
      assert forall k :: 0 <= k < i ==> ids[..i][k] == ids[k];
    }
  }

  /** The request handler's own duplicate check. */
  method DistinctIDs(raw: seq<Id>) returns (r: Result<seq<Id>>)
    ensures r.Ok? <==> Distinct(raw) && NO_ID !in raw
    ensures r.Ok? ==> r.value == raw
    ensures r.Err? ==> r.error == InvalidArgument
  {
    var ids: seq<Id> := [];
    var seen: map<Id, bool> := map[];
    for i := 0 to |raw|
      invariant ids == raw[..i] && seen.Keys == set x | x in ids
      invariant Distinct(ids) && NO_ID !in ids
    {
      if raw[i] == NO_ID || raw[i] in seen {
        assert raw[i] in raw[..i] ==> exists k :: 0 <= k < i && raw[k] == raw[i];
        return Err(InvalidArgument);
      }
      seen := seen[raw[i] := true];
      ids := ids + [raw[i]];
      assert raw[..i + 1] == ids;
    }
    assert raw[..|raw|] == raw;
    return Ok(ids);
  }

  /** The handler only turns away lists the repository would turn away too.  The
      error is the repository's own exactly when the actor may write to the family
      or an id is missing; a stranger would be told Forbidden instead. */
  lemma HandlerRejectsOnlyRejected(env: Ops.Env, db: Ops.Db, actor: Id, family: Id, raw: seq<Id>)
    requires Ops.WellFormed(env, db) && !(Distinct(raw) && NO_ID !in raw)
    ensures var r := Ops.Apply(env, db, Ops.Reorder(actor, family, raw), NO_ID);
      && r.Err?
      && (r.error == InvalidArgument <==> actor == NO_ID || family == NO_ID || (family, actor) in env.writers)
      && (r.error == InvalidArgument || r.error == Forbidden)
  {
    hide Listing;
    ListingSorted(db.criteria, family);
    if multiset(raw) == multiset(Listing(db.criteria, family)) {
      Ops.PermutationSameElements(raw, Listing(db.criteria, family));
    }
  }

  /** A list with a repetition from someone outside the family: the repository
      says Forbidden, where the handler has already said InvalidArgument. */
  lemma HandlerHidesForbidden(actor: Id, family: Id, id: Id)
    requires actor != NO_ID && family != NO_ID
    ensures var env, db := Ops.Env({}, map[]), Ops.Db(map[], map[]);
      && !Distinct([id, id])
      && Ops.Apply(env, db, Ops.Reorder(actor, family, [id, id]), NO_ID) == Err(Forbidden)
  {
    assert [id, id][0] == [id, id][1];
  }
}
