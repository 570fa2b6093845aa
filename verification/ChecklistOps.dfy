/** What one checklist operation does when it runs alone.  Every criterion
    operation is a plan (the rows it sets and the order it wants) followed by
    writing that order back. */
module ChecklistOps {
  import opened Prelude
  import opened ChecklistTable
  import opened ChecklistDomain

  datatype Op =
    | Save(actor: Id, c: HousingCriterion)
    | Delete(actor: Id, family: Id, id: Id)
    | Reorder(actor: Id, family: Id, ids: seq<Id>)
    | SaveAnswer(actor: Id, a: HousingAnswer)

  // Who may write to which family, and which family each home belongs to.
  datatype Env = Env(writers: set<(Id, Id)>, homes: map<Id, Id>)

  datatype Db = Db(criteria: Table, answers: map<(Id, Id), HousingAnswer>)

  function FamilyOf(op: Op): Id
    requires !op.SaveAnswer?
  {
    match op
    case Save(_, c) => c.family
    case Delete(_, f, _) => f
    case Reorder(_, f, _) => f
  }

  // ---- lists of ids ----

  function IndexOf(ids: seq<Id>, id: Id): (i: nat)
    requires id in ids
    ensures i < |ids| && ids[i] == id
    ensures forall k :: 0 <= k < i ==> ids[k] != id
  {
    if ids[0] == id then 0 else IndexOf(ids[1..], id) + 1
  }

  function RemoveAt(ids: seq<Id>, i: nat): (r: seq<Id>)
    requires i < |ids|
    ensures |r| == |ids| - 1
  {
    ids[..i] + ids[i + 1..]
  }

  function Without(ids: seq<Id>, id: Id): seq<Id> {
    if id in ids then RemoveAt(ids, IndexOf(ids, id)) else ids
  }

  function InsertAt(ids: seq<Id>, pos: nat, id: Id): (r: seq<Id>)
    requires pos <= |ids|
    ensures |r| == |ids| + 1
  {
    ids[..pos] + [id] + ids[pos..]
  }

  lemma WithoutAt(ids: seq<Id>, i: nat)
    requires Distinct(ids) && i < |ids|
    ensures Without(ids, ids[i]) == RemoveAt(ids, i)
  {
  }

  lemma WithoutElements(ids: seq<Id>, id: Id)
    requires Distinct(ids)
    ensures Distinct(Without(ids, id))
    ensures forall x :: x in Without(ids, id) <==> x in ids && x != id
  {
    if id in ids {
      var i := IndexOf(ids, id);
      var r := RemoveAt(ids, i);
      forall x | x in ids && x != id
        ensures x in r
      {
        var k := IndexOf(ids, x);
        assert r[if k < i then k else k - 1] == x;
      }
    }
  }

  lemma InsertElements(ids: seq<Id>, pos: nat, id: Id)
    requires Distinct(ids) && pos <= |ids| && id !in ids
    ensures Distinct(InsertAt(ids, pos, id))
    ensures forall x :: x in InsertAt(ids, pos, id) <==> x in ids || x == id
  {
    var r := InsertAt(ids, pos, id);
    forall k | 0 <= k < |r|
      ensures r[k] == (if k < pos then ids[k] else if k == pos then id else ids[k - 1])
    {
    }
    forall x | x in ids || x == id
      ensures x in r
    {
      if x == id {
        assert r[pos] == id;
      } else {
        var k := IndexOf(ids, x);
        assert r[if k < pos then k else k + 1] == x;
      }
    }
  }

  lemma InsertedThenRemoved(ids: seq<Id>, pos: nat, id: Id)
    requires Distinct(ids) && pos <= |ids| && id !in ids
    ensures Distinct(InsertAt(ids, pos, id)) && InsertAt(ids, pos, id)[pos] == id
    ensures Without(InsertAt(ids, pos, id), id) == ids
  {
    InsertElements(ids, pos, id);
    var r := InsertAt(ids, pos, id);
    assert r[pos] == id;
    WithoutAt(r, pos);
    assert RemoveAt(r, pos) == ids;
  }

  lemma RemovedThenInserted(ids: seq<Id>, pos: nat)
    requires pos < |ids|
    ensures InsertAt(RemoveAt(ids, pos), pos, ids[pos]) == ids
  {
    assert RemoveAt(ids, pos)[..pos] == ids[..pos] && RemoveAt(ids, pos)[pos..] == ids[pos + 1..];
  }

  /** A list is the splice exactly when it has `id` at `pos` and is `ids` otherwise. */
  lemma InsertUnique(ids: seq<Id>, pos: nat, id: Id, other: seq<Id>)
    requires Distinct(ids) && pos <= |ids| && id !in ids
    ensures other == InsertAt(ids, pos, id)
       <==> Distinct(other) && pos < |other| && other[pos] == id && Without(other, id) == ids
  {
    hide InsertAt, RemoveAt, Without, IndexOf;
    InsertedThenRemoved(ids, pos, id);
    if Distinct(other) && pos < |other| && other[pos] == id && Without(other, id) == ids {
      WithoutAt(other, pos);
      RemovedThenInserted(other, pos);
    }
  }

  lemma IndexWithout(ids: seq<Id>, id: Id, a: Id)
    requires Distinct(ids) && id in ids && a in ids && a != id
    requires a in Without(ids, id)
    ensures IndexOf(ids, a) != IndexOf(ids, id)
    ensures IndexOf(Without(ids, id), a) ==
            if IndexOf(ids, a) < IndexOf(ids, id) then IndexOf(ids, a) else IndexOf(ids, a) - 1
  {
    var i, k := IndexOf(ids, id), IndexOf(ids, a);
    var r := Without(ids, id);
    assert r[if k < i then k else k - 1] == a;
    WithoutElements(ids, id);
  }

  // Removing one id moves no other two ids past each other.
  lemma WithoutKeepsOrder(ids: seq<Id>, id: Id, a: Id, b: Id)
    requires Distinct(ids) && a in ids && b in ids && a != id && b != id
    requires a in Without(ids, id) && b in Without(ids, id)
    ensures IndexOf(ids, a) < IndexOf(ids, b)
       <==> IndexOf(Without(ids, id), a) < IndexOf(Without(ids, id), b)
  {
    if id in ids {
      IndexWithout(ids, id, a);
      IndexWithout(ids, id, b);
    }
  }

  // ---- plans ----

  // SaveHousingCriterion up to its first write: the active ids without this one.
  function SaveRest(t: Table, c: HousingCriterion): Result<seq<Id>> {
    var ids := Listing(t, c.family);
    if c.id != NO_ID && c.id !in ids then
      Err(NotFound)
    else
      var rest := if c.id == NO_ID then ids else Without(ids, c.id);
      if c.order > |rest| then Err(InvalidArgument) else Ok(rest)
  }

  function SavedId(c: HousingCriterion, newId: Id): Id {
    if c.id == NO_ID then newId else c.id
  }

  // The row the INSERT or the UPDATE leaves.
  function SavedRow(t: Table, c: HousingCriterion): Criterion
    requires c.id == NO_ID || c.id in t
  {
    if c.id == NO_ID then
      Criterion(c.family, c.name, c.description, c.order, c.weight, false)
    else
      t[c.id].(name := c.name, description := c.description, weight := c.weight)
  }

  function PlanSave(t: Table, c: HousingCriterion, newId: Id): Result<(Table, seq<Id>)>
    requires ValidCriterion(c)
  {
    match SaveRest(t, c)
    case Err(e) => Err(e)
    case Ok(rest) =>
      if c.id == NO_ID && (newId == NO_ID || newId in t) then
        Err(Conflict)
      else
        var id := SavedId(c, newId);
        Ok((t[id := SavedRow(t, c)], InsertAt(rest, c.order, id)))
  }

  function Retire(t: Table, id: Id): Table
    requires id in t
  {
    t[id := t[id].(retired := true)]
  }

  function Plan(t: Table, op: Op, newId: Id): Result<(Table, seq<Id>)>
    requires !op.SaveAnswer?
    requires op.Save? ==> ValidCriterion(op.c)
  {
    match op
    case Save(_, c) => PlanSave(t, c, newId)
    case Delete(_, f, id) =>
      if id in Active(t, f) then
        Ok((Retire(t, id), Listing(Retire(t, id), f)))
      else
        Err(NotFound)
    case Reorder(_, f, ids) =>
      if multiset(ids) == multiset(Listing(t, f)) then Ok((t, ids)) else Err(InvalidArgument)
  }

  // The checks that need no row; the empty id is refused by the cast to a UUID.
  function Precheck(env: Env, op: Op): Result<()> {
    match op
    case SaveAnswer(_, a) => ValidateHousingAnswer(a)
    case Save(actor, c) =>
      if ValidateHousingCriterion(c).Err? || actor == NO_ID then Err(InvalidArgument)
      else if (c.family, actor) in env.writers then Ok(()) else Err(Forbidden)
    case _ =>
      if op.actor == NO_ID || op.family == NO_ID then Err(InvalidArgument)
      else if (op.family, op.actor) !in env.writers then Err(Forbidden)
      else if op.Delete? && op.id == NO_ID then Err(InvalidArgument)
      else Ok(())
  }

  // The row set of the answer's locking SELECT is not empty.
  predicate AnswerAllowed(env: Env, t: Table, actor: Id, a: HousingAnswer) {
    && a.home in env.homes
    && a.criterion in Active(t, env.homes[a.home])
    && (env.homes[a.home], actor) in env.writers
  }

  function Apply(env: Env, db: Db, op: Op, newId: Id): Result<Db> {
    match Precheck(env, op)
    case Err(e) => Err(e)
    case Ok(_) =>
      if op.SaveAnswer? then
        if AnswerAllowed(env, db.criteria, op.actor, op.a) then
          Ok(db.(answers := db.answers[(op.a.home, op.a.criterion) := op.a]))
        else
          Err(NotFound)
      else
        match Plan(db.criteria, op, newId)
        case Err(e) => Err(e)
        case Ok((t, ids)) => Ok(db.(criteria := WriteOrder(t, ids)))
  }

  // ---- what the operations promise ----

  lemma PermutationSameElements(a: seq<Id>, b: seq<Id>)
    requires Distinct(b) && multiset(a) == multiset(b)
    ensures Distinct(a) && |a| == |b|
    ensures forall x :: x in a <==> x in b
  {
    assert |a| == |multiset(a)| == |multiset(b)| == |b|;
    forall x
      ensures x in a <==> x in b
    {
      assert x in a <==> x in multiset(a);
      assert x in b <==> x in multiset(b);
    }
    forall i, j | 0 <= i < j < |a|
      ensures a[i] != a[j]
    {
      assert a == a[..j] + [a[j]] + a[j + 1..];
      if a[i] == a[j] {
        assert a[i] == a[..j][i];
        assert a[j] in multiset(a[..j]);
        assert multiset(a)[a[j]] >= 2;
        DistinctOnce(b, a[j]);
      }
    }
  }

  lemma {:induction false} DistinctOnce(b: seq<Id>, x: Id)
    requires Distinct(b)
    ensures multiset(b)[x] <= 1
  {
    if b != [] {
      assert b == [b[0]] + b[1..];
      DistinctOnce(b[1..], x);
      if b[0] == x { assert x !in b[1..]; }
    }
  }

  lemma SameElementsPermutation(a: seq<Id>, b: seq<Id>)
    requires Distinct(a) && Distinct(b)
    requires forall x :: x in a <==> x in b
    ensures multiset(a) == multiset(b)
  {
    forall x
      ensures multiset(a)[x] == multiset(b)[x]
    {
      DistinctOnce(a, x);
      DistinctOnce(b, x);
      assert x in a <==> x in multiset(a);
      assert x in b <==> x in multiset(b);
    }
  }

  lemma SaveRestElements(t: Table, c: HousingCriterion, rest: seq<Id>)
    requires SaveRest(t, c) == Ok(rest)
    ensures Distinct(rest) && c.order <= |rest|
    ensures c.id != NO_ID ==> c.id in Active(t, c.family)
    ensures forall x :: x in rest <==> x in Active(t, c.family) && (x == c.id ==> c.id == NO_ID)
  {
    ListingSorted(t, c.family);
    WithoutElements(Listing(t, c.family), c.id);
  }

  lemma SavePlanListsActive(t: Table, c: HousingCriterion, newId: Id, p: Table, ids: seq<Id>)
    requires ValidCriterion(c) && PlanSave(t, c, newId) == Ok((p, ids))
    ensures Distinct(ids)
    ensures forall id :: id in ids <==> id in Active(p, c.family)
  {
    hide Listing, Without, InsertAt, RemoveAt, IndexOf;
    var rest := SaveRest(t, c).value;
    SaveRestElements(t, c, rest);
    InsertElements(rest, c.order, SavedId(c, newId));
    assert Active(p, c.family) == Active(t, c.family) + {SavedId(c, newId)};
  }

  /** Every plan orders exactly the family's active rows, each once. */
  lemma PlanListsActive(t: Table, op: Op, newId: Id, p: Table, ids: seq<Id>)
    requires !op.SaveAnswer? && (op.Save? ==> ValidCriterion(op.c))
    requires Plan(t, op, newId) == Ok((p, ids))
    ensures Distinct(ids)
    ensures forall id :: id in ids <==> id in Active(p, FamilyOf(op))
  {
    hide Listing, Without, InsertAt, RemoveAt, IndexOf;
    match op
    case Save(_, c) => SavePlanListsActive(t, c, newId, p, ids);
    case Delete(_, f, id) => ListingSorted(p, f);
    case Reorder(_, f, _) =>
      ListingSorted(t, f);
      PermutationSameElements(ids, Listing(t, f));
  }

  // ---- when an operation succeeds ----

  /** A valid save by a writer: an insert succeeds exactly at a position up to the
      end of the list, given a fresh id; an update exactly when the criterion is
      active and the position is within the list.  Each error has its one cause. */
  lemma SaveOutcome(env: Env, db: Db, actor: Id, c: HousingCriterion, newId: Id)
    requires ValidateHousingCriterion(c).Ok? && actor != NO_ID && (c.family, actor) in env.writers
    ensures var r, active := Apply(env, db, Save(actor, c), newId), Active(db.criteria, c.family);
      if c.id == NO_ID then
        && (r.Ok? <==> newId != NO_ID && newId !in db.criteria && c.order <= |active|)
        && (r == Err(InvalidArgument) <==> c.order > |active|)
        && (r == Err(Conflict) <==> c.order <= |active| && (newId == NO_ID || newId in db.criteria))
      else
        && (r.Ok? <==> c.id in active && c.order < |active|)
        && (r == Err(NotFound) <==> c.id !in active)
        && (r == Err(InvalidArgument) <==> c.id in active && c.order >= |active|)
  {
    hide Listing, IndexOf, WriteOrder;
    ListingSorted(db.criteria, c.family);
  }

  /** A writer's retirement succeeds exactly for an active criterion of the family;
      an empty id is malformed, any other is not found. */
  lemma DeleteOutcome(env: Env, db: Db, actor: Id, f: Id, id: Id, newId: Id)
    requires actor != NO_ID && f != NO_ID && (f, actor) in env.writers
    ensures var r := Apply(env, db, Delete(actor, f, id), newId);
      && (r.Ok? <==> id != NO_ID && id in db.criteria && db.criteria[id].family == f && !db.criteria[id].retired)
      && (r == Err(InvalidArgument) <==> id == NO_ID)
      && (r.Err? ==> r.error in {InvalidArgument, NotFound})
  {
    hide Listing, WriteOrder;
  }

  /** A writer's reorder succeeds exactly for a list of all the active ids, each
      once; that list is then the one read back, and only positions change. */
  lemma ReorderOutcome(env: Env, db: Db, actor: Id, f: Id, ids: seq<Id>, newId: Id)
    requires actor != NO_ID && f != NO_ID && (f, actor) in env.writers
    ensures var r := Apply(env, db, Reorder(actor, f, ids), newId);
      && (r.Ok? <==> Distinct(ids) && forall x :: x in ids <==> x in Active(db.criteria, f))
      && (r.Err? ==> r == Err(InvalidArgument))
      && (r.Ok? ==>
            && Listing(r.value.criteria, f) == ids && r.value.answers == db.answers
            && r.value.criteria.Keys == db.criteria.Keys
            && forall x :: x in db.criteria ==>
                 r.value.criteria[x] == db.criteria[x].(order := r.value.criteria[x].order))
  {
    hide Listing, WriteOrder;
    var t := db.criteria;
    ListingSorted(t, f);
    if multiset(ids) == multiset(Listing(t, f)) {
      PermutationSameElements(ids, Listing(t, f));
      WriteOrderReadsBack(t, f, ids);
    } else if Distinct(ids) && forall x :: x in ids <==> x in Active(t, f) {
      SameElementsPermutation(ids, Listing(t, f));
    }
  }

  /** An answer is saved exactly when it is valid, its criterion is active in its
      home's own family and the actor may write to that family; then it is the one
      answer that changes. */
  lemma AnswerOutcome(env: Env, db: Db, actor: Id, a: HousingAnswer, newId: Id)
    ensures var r := Apply(env, db, SaveAnswer(actor, a), newId);
      && (r == Err(InvalidArgument) <==> ValidateHousingAnswer(a).Err?)
      && (r.Ok? <==>
            && ValidateHousingAnswer(a).Ok? && a.home in env.homes && (env.homes[a.home], actor) in env.writers
            && a.criterion in db.criteria && !db.criteria[a.criterion].retired
            && db.criteria[a.criterion].family == env.homes[a.home])
      && (r.Ok? || r.error in {InvalidArgument, NotFound})
      && (r.Ok? ==> r.value.criteria == db.criteria && r.value.answers == db.answers[(a.home, a.criterion) := a])
  {
  }

  /** Only writers of a family change its checklist: anyone else's well-formed
      request is forbidden, and nobody else's is. */
  lemma OnlyWriters(env: Env, db: Db, op: Op, newId: Id)
    requires !op.SaveAnswer? && op.actor != NO_ID && FamilyOf(op) != NO_ID
    requires op.Save? ==> ValidateHousingCriterion(op.c).Ok?
    ensures Apply(env, db, op, newId) == Err(Forbidden) <==> (FamilyOf(op), op.actor) !in env.writers
  {
    hide Listing, WriteOrder, InsertAt, Without;
  }

  /** A malformed request is refused as such, whoever makes it. */
  lemma Malformed(env: Env, db: Db, op: Op, newId: Id)
    requires !op.SaveAnswer?
    requires op.actor == NO_ID || FamilyOf(op) == NO_ID || (op.Save? && ValidateHousingCriterion(op.c).Err?)
    ensures Apply(env, db, op, newId) == Err(InvalidArgument)
  {
  }

  // The rows an operation may touch: its family's active ones, and the new one.
  ghost predicate OnlyTouches(t: Table, u: Table, f: Id, newId: Id) {
    && t.Keys <= u.Keys <= t.Keys + {newId}
    && (forall id :: id in t && id !in Active(t, f) ==> u[id] == t[id])
    && (forall id :: id in t ==> u[id].family == t[id].family)
    && (forall id :: id in u && id !in t ==> id != NO_ID && u[id].family == f && !u[id].retired)
  }

  lemma PlanOnlyTouches(t: Table, op: Op, newId: Id, p: Table, ids: seq<Id>)
    requires !op.SaveAnswer? && (op.Save? ==> ValidCriterion(op.c))
    requires Plan(t, op, newId) == Ok((p, ids))
    ensures OnlyTouches(t, p, FamilyOf(op), newId)
  {
    hide Listing, Without, InsertAt, RemoveAt, IndexOf;
    if op.Save? {
      SaveRestElements(t, op.c, SaveRest(t, op.c).value);
    }
  }

  /** After any successful criterion operation the family's list reads back as
      planned and is contiguous; retired rows, other families and all answers
      are as before. */
  lemma CriterionOpReadsBack(env: Env, db: Db, op: Op, newId: Id, db': Db)
    requires !op.SaveAnswer? && Apply(env, db, op, newId) == Ok(db')
    ensures Plan(db.criteria, op, newId).Ok?
    ensures Listing(db'.criteria, FamilyOf(op)) == Plan(db.criteria, op, newId).value.1
    ensures Contiguous(db'.criteria, FamilyOf(op))
    ensures OnlyTouches(db.criteria, db'.criteria, FamilyOf(op), newId)
    ensures db'.answers == db.answers
  {
    hide Listing, Without, InsertAt, RemoveAt, IndexOf;
    var (p, ids) := Plan(db.criteria, op, newId).value;
    PlanListsActive(db.criteria, op, newId, p, ids);
    PlanOnlyTouches(db.criteria, op, newId, p, ids);
    WriteOrderReadsBack(p, FamilyOf(op), ids);
    OrderOnlyTouches(db.criteria, p, db'.criteria, FamilyOf(op), newId, ids);
  }

  lemma OrderOnlyTouches(t: Table, p: Table, u: Table, f: Id, newId: Id, ids: seq<Id>)
    requires OnlyTouches(t, p, f, newId) && u.Keys == p.Keys
    requires forall id :: id in ids <==> id in Active(p, f)
    requires forall id :: id in p && id !in ids ==> u[id] == p[id]
    requires forall id :: id in p && id in ids ==> u[id] == p[id].(order := u[id].order)
    ensures OnlyTouches(t, u, f, newId)
  {
    forall id | id in t && id !in Active(t, f)
      ensures u[id] == t[id]
    {
      assert p[id] == t[id];
    }
  }

  /** Other families keep their list, order and contiguity. */
  lemma OtherFamiliesUntouched(t: Table, u: Table, f: Id, newId: Id, g: Id)
    requires OnlyTouches(t, u, f, newId) && g != f
    ensures Listing(u, g) == Listing(t, g)
    ensures Contiguous(t, g) ==> Contiguous(u, g)
  {
    hide Listing, Without, InsertAt, RemoveAt, IndexOf;
    assert Active(t, g) == Active(u, g);
    forall id | id in Active(t, g)
      ensures u[id] == t[id]
    {
      assert id !in Active(t, f);
    }
    ListingLocal(t, u, g);
    ListingSorted(t, g);
  }

  /** A saved criterion is read back at the requested place with the requested
      fields; without it the list is what it was, and only positions of the
      other rows may differ. */
  lemma SaveReadsBack(env: Env, db: Db, op: Op, newId: Id, db': Db)
    requires op.Save? && Apply(env, db, op, newId) == Ok(db')
    ensures var was, now := Listing(db.criteria, op.c.family), Listing(db'.criteria, op.c.family);
      var id := SavedId(op.c, newId);
      && op.c.order < |now| && now[op.c.order] == id
      && Without(now, id) == Without(was, id)
      && id in db'.criteria
      && db'.criteria[id] == Criterion(op.c.family, op.c.name, op.c.description, op.c.order, op.c.weight, false)
    ensures forall x :: x in db.criteria && x != SavedId(op.c, newId) ==>
      x in db'.criteria && db'.criteria[x] == db.criteria[x].(order := db'.criteria[x].order)
  {
    hide Listing, InsertAt, RemoveAt, IndexOf;
    var t, c := db.criteria, op.c;
    var id := SavedId(c, newId);
    var (p, ids) := PlanSave(t, c, newId).value;
    var rest := SaveRest(t, c).value;
    PlanListsActive(t, op, newId, p, ids);
    WriteOrderReadsBack(p, c.family, ids);
    SaveRestElements(t, c, rest);
    assert Without(Listing(t, c.family), id) == rest;
    InsertUnique(rest, c.order, id, ids);
    assert ids[c.order] == id;
    assert db'.criteria == WriteOrder(p, ids);
    assert Contiguous(db'.criteria, c.family);
  }

  /** No two other criteria change their relative order when one is saved. */
  lemma SaveKeepsRelativeOrder(env: Env, db: Db, op: Op, newId: Id, db': Db, a: Id, b: Id)
    requires op.Save? && Apply(env, db, op, newId) == Ok(db')
    requires a in Listing(db.criteria, op.c.family) && b in Listing(db.criteria, op.c.family)
    requires a != SavedId(op.c, newId) && b != SavedId(op.c, newId)
    ensures var was, now := Listing(db.criteria, op.c.family), Listing(db'.criteria, op.c.family);
      a in now && b in now && (IndexOf(was, a) < IndexOf(was, b) <==> IndexOf(now, a) < IndexOf(now, b))
  {
    hide Listing, Without, InsertAt, RemoveAt, IndexOf;
    var id := SavedId(op.c, newId);
    var was, now := Listing(db.criteria, op.c.family), Listing(db'.criteria, op.c.family);
    SaveReadsBack(env, db, op, newId, db');
    ListingSorted(db.criteria, op.c.family);
    ListingSorted(db'.criteria, op.c.family);
    WithoutElements(was, id);
    WithoutElements(now, id);
    WithoutKeepsOrder(was, id, a, b);
    WithoutKeepsOrder(now, id, a, b);
  }

  // Writing a contiguous list's own order back changes nothing.
  lemma RewriteSameOrder(t: Table, f: Id)
    requires Contiguous(t, f)
    ensures WriteOrder(t, Listing(t, f)) == t
  {
    var ids := Listing(t, f);
    ListingSorted(t, f);
    WritePrefixRows(t, ids, |ids|);
    assert ids[..|ids|] == ids;
    forall id | id in t
      ensures WriteOrder(t, ids)[id] == t[id]
    {
      if id in ids {
        var k := IndexOf(ids, id);
      }
    }
  }

  lemma PlanInPlace(t: Table, c: HousingCriterion, newId: Id, p: Table)
    requires ValidCriterion(c) && c.id in Active(t, c.family) && c.id != NO_ID
    requires Contiguous(t, c.family) && c.order == t[c.id].order
    requires p == t[c.id := SavedRow(t, c)]
    ensures PlanSave(t, c, newId) == Ok((p, Listing(p, c.family)))
    ensures Contiguous(p, c.family)
  {
    hide Listing, InsertAt, RemoveAt, IndexOf;
    var was := Listing(t, c.family);
    ListingSorted(t, c.family);
    var i := IndexOf(was, c.id);
    InsertBack(was, i);
    assert Active(p, c.family) == Active(t, c.family);
    ListingLocal(t, p, c.family);
  }

  /** Saving a criterion where it already stands changes no position: only its
      own name, description and weight are set. */
  lemma SaveInPlaceKeepsOrder(env: Env, db: Db, op: Op, newId: Id)
    requires op.Save? && op.c.id in Active(db.criteria, op.c.family) && op.c.id != NO_ID
    requires Contiguous(db.criteria, op.c.family)
    requires op.c.order == db.criteria[op.c.id].order
    requires Precheck(env, op).Ok?
    ensures Apply(env, db, op, newId) ==
            Ok(db.(criteria := db.criteria[op.c.id := SavedRow(db.criteria, op.c)]))
  {
    hide Listing, Without, InsertAt, RemoveAt, IndexOf;
    var p := db.criteria[op.c.id := SavedRow(db.criteria, op.c)];
    PlanInPlace(db.criteria, op.c, newId, p);
    RewriteSameOrder(p, op.c.family);
  }

  lemma InsertBack(ids: seq<Id>, i: nat)
    requires Distinct(ids) && i < |ids|
    ensures InsertAt(Without(ids, ids[i]), i, ids[i]) == ids
  {
    hide IndexOf, InsertAt, RemoveAt;
    WithoutAt(ids, i);
    WithoutElements(ids, ids[i]);
    InsertUnique(RemoveAt(ids, i), i, ids[i], ids);
  }

  lemma RemoveAtIndex(ids: seq<Id>, k: nat, i: nat)
    requires k < |ids| && i < |ids| - 1
    ensures RemoveAt(ids, k)[i] == ids[if i < k then i else i + 1]
  {
  }

  lemma WithoutSorted(t: Table, ids: seq<Id>, id: Id)
    requires forall x :: x in ids ==> x in t
    requires StrictlySorted(t, ids) && Distinct(ids)
    ensures forall x :: x in Without(ids, id) ==> x in t
    ensures StrictlySorted(t, Without(ids, id))
  {
    WithoutElements(ids, id);
    hide RemoveAt, IndexOf;
    if id in ids {
      var k, r := IndexOf(ids, id), Without(ids, id);
      forall i, j | 0 <= i < j < |r|
        ensures Before(t, r[i], r[j])
      {
        RemoveAtIndex(ids, k, i);
        RemoveAtIndex(ids, k, j);
      }
    }
  }

  // Retiring a row takes it out of the listing and moves nothing.
  lemma RetireListing(t: Table, f: Id, id: Id)
    requires id in Active(t, f)
    ensures Listing(Retire(t, id), f) == Without(Listing(t, f), id)
  {
    hide Listing, Without, IndexOf;
    var p, was := Retire(t, id), Listing(t, f);
    ListingSorted(t, f);
    ListingSorted(p, f);
    WithoutElements(was, id);
    WithoutSorted(t, was, id);
    var rest := Without(was, id);
    forall x | x in rest
      ensures x in p && p[x] == t[x]
    {
    }
    SortedAlike(t, p, rest);
    assert Active(p, f) == Active(t, f) - {id};
    SortedUnique(p, Listing(p, f), rest);
  }

  lemma SortedAlike(t: Table, p: Table, ids: seq<Id>)
    requires forall x :: x in ids ==> x in t && x in p && p[x] == t[x]
    requires StrictlySorted(t, ids)
    ensures StrictlySorted(p, ids)
  {
  }

  /** Retirement removes one id from the list and keeps its row, retired. */
  lemma DeleteReadsBack(env: Env, db: Db, op: Op, newId: Id, db': Db)
    requires op.Delete? && Apply(env, db, op, newId) == Ok(db')
    ensures op.id in Listing(db.criteria, op.family)
    ensures Listing(db'.criteria, op.family) == Without(Listing(db.criteria, op.family), op.id)
    ensures db'.criteria.Keys == db.criteria.Keys
    ensures db'.criteria[op.id] == db.criteria[op.id].(retired := true)
    ensures forall x :: x in db.criteria && x != op.id ==>
      db'.criteria[x] == db.criteria[x].(order := db'.criteria[x].order)
  {
    hide Listing, Without, IndexOf;
    var t, f := db.criteria, op.family;
    var p := Retire(t, op.id);
    PlanListsActive(t, op, newId, p, Listing(p, f));
    WriteOrderReadsBack(p, f, Listing(p, f));
    assert op.id !in Active(p, f);
    RetireListing(t, f, op.id);
  }

  /** Retiring a criterion just inserted gives back every earlier row exactly. */
  lemma InsertThenDeleteRestores(env: Env, db: Db, op: Op, newId: Id, mid: Db, end: Db)
    requires op.Save? && op.c.id == NO_ID && Apply(env, db, op, newId) == Ok(mid)
    requires Apply(env, mid, Delete(op.actor, op.c.family, newId), NO_ID) == Ok(end)
    requires Contiguous(db.criteria, op.c.family)
    ensures end.criteria.Keys == db.criteria.Keys + {newId}
    ensures end.criteria[newId].retired
    ensures forall id :: id in db.criteria ==> end.criteria[id] == db.criteria[id]
    ensures Listing(end.criteria, op.c.family) == Listing(db.criteria, op.c.family)
  {
    hide Listing, InsertAt, RemoveAt, IndexOf;
    var f := op.c.family;
    var del := Delete(op.actor, f, newId);
    var was := Listing(db.criteria, f);
    SaveReadsBack(env, db, op, newId, mid);
    CriterionOpReadsBack(env, db, op, newId, mid);
    DeleteReadsBack(env, mid, del, NO_ID, end);
    CriterionOpReadsBack(env, mid, del, NO_ID, end);
    assert Listing(end.criteria, f) == was;
    RowsRestored(db.criteria, mid.criteria, end.criteria, f, newId);
  }

  lemma RowsRestored(t: Table, m: Table, e: Table, f: Id, newId: Id)
    requires OnlyTouches(t, m, f, newId) && OnlyTouches(m, e, f, NO_ID)
    requires Contiguous(t, f) && Contiguous(e, f) && Listing(t, f) == Listing(e, f)
    requires forall x :: x in t ==> m[x] == t[x].(order := m[x].order)
    requires forall x :: x in t ==> e[x] == m[x].(order := e[x].order)
    ensures forall x :: x in t ==> e[x] == t[x]
  {
    hide Listing;
    forall x | x in t
      ensures e[x] == t[x]
    {
      if x in Listing(t, f) {
        SamePosition(t, e, f, x);
      } else {
        UntouchedTwice(t, m, e, f, newId, x);
      }
    }
  }

  lemma UntouchedTwice(t: Table, m: Table, e: Table, f: Id, newId: Id, id: Id)
    requires OnlyTouches(t, m, f, newId) && OnlyTouches(m, e, f, NO_ID)
    requires id in t && id !in Active(t, f)
    ensures id in e && e[id] == t[id]
  {
    assert m[id] == t[id];
    assert id !in Active(m, f);
  }

  lemma SamePosition(t: Table, u: Table, f: Id, id: Id)
    requires Contiguous(t, f) && Contiguous(u, f) && Listing(t, f) == Listing(u, f)
    requires id in Listing(t, f)
    ensures id in t && id in u && t[id].order == u[id].order
  {
    assert Listing(t, f)[IndexOf(Listing(t, f), id)] == id;
  }

  // ---- invariants of the stored data ----

  ghost predicate WellFormed(env: Env, db: Db) {
    && NO_ID !in db.criteria
    && (forall f :: Contiguous(db.criteria, f))
    && (forall k :: k in db.answers ==> AnswerWellFormed(env, db, k))
  }

  // The key, foreign keys and checks of one answer row.
  ghost predicate AnswerWellFormed(env: Env, db: Db, k: (Id, Id))
    requires k in db.answers
  {
    var a := db.answers[k];
    && ValidAnswer(a) && k == (a.home, a.criterion)
    && a.home in env.homes && a.criterion in db.criteria
    && db.criteria[a.criterion].family == env.homes[a.home]
  }

  /** Every operation, alone, keeps every family contiguous and every answer
      inside its family. */
  lemma ApplyKeepsWellFormed(env: Env, db: Db, op: Op, newId: Id, db': Db)
    requires WellFormed(env, db) && Apply(env, db, op, newId) == Ok(db')
    ensures WellFormed(env, db')
  {
    hide Listing, Without, InsertAt, RemoveAt, IndexOf;
    if !op.SaveAnswer? {
      CriterionOpReadsBack(env, db, op, newId, db');
      forall f
        ensures Contiguous(db'.criteria, f)
      {
        if f != FamilyOf(op) {
          OtherFamiliesUntouched(db.criteria, db'.criteria, FamilyOf(op), newId, f);
        }
      }
    }
    forall k | k in db'.answers
      ensures AnswerWellFormed(env, db', k)
    {
      assert k in db.answers ==> AnswerWellFormed(env, db, k);
    }
  }

  // Nothing about criterion c differs between the two: neither its row nor its answers.
  ghost predicate SameHistory(db: Db, db': Db, c: Id) {
    && c in db.criteria && c in db'.criteria && db'.criteria[c] == db.criteria[c]
    && (forall h :: (h, c) in db'.answers <==> (h, c) in db.answers)
    && (forall h :: (h, c) in db.answers ==> db'.answers[(h, c)] == db.answers[(h, c)])
  }

  /** Alone, no operation changes a retired row or an answer about one, and no
      operation drops an answer. */
  lemma ApplyKeepsRetired(env: Env, db: Db, op: Op, newId: Id, db': Db, c: Id)
    requires Apply(env, db, op, newId) == Ok(db')
    requires c in db.criteria && db.criteria[c].retired
    ensures SameHistory(db, db', c)
    ensures db.answers.Keys <= db'.answers.Keys
  {
    hide Listing, Without, InsertAt, RemoveAt, IndexOf;
    if !op.SaveAnswer? {
      CriterionOpReadsBack(env, db, op, newId, db');
      assert c !in Active(db.criteria, FamilyOf(op));
    }
  }
}
