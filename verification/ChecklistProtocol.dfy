/** Many sessions running checklist operations at once.

    Each session's statements are separate steps, and steps of different
    sessions interleave freely.  A statement sees the committed tables overlaid
    with the session's own uncommitted rows (READ COMMITTED).  Criterion
    operations hold their family's row lock from the start to the end; an UPDATE
    needs its row free of other writers and of share locks; saving an answer
    share-locks the criterion row.  A step that must wait is not enabled. */
module ChecklistProtocol {
  import opened Prelude
  import opened ChecklistTable
  import opened ChecklistDomain
  import opened ChecklistOps

  type Sid = nat

  datatype Phase =
    | Locked                                // family row locked, nothing else done
    | Checked(rest: seq<Id>)                // Save: list read, checks passed
    | RowRetired                            // Delete: deleted_at set
    | Writing(ids: seq<Id>, next: nat)      // positions before `next` written
    | Begun                                 // SaveAnswer: nothing locked
    | ShareLocked                           // SaveAnswer: criterion row share-locked
    | Upserted                              // SaveAnswer: answer row written

  // `rows` are the criteria rows written and not yet committed.
  datatype Session = Session(op: Op, phase: Phase, newId: Id, rows: Table)

  // One finished operation and what it told its caller.
  datatype Entry = Entry(op: Op, newId: Id, outcome: Result<()>)

  datatype State = State(db: Db, sessions: map<Sid, Session>, log: seq<Entry>)

  datatype Step =
    | Begin(sid: Sid, op: Op)
    | ReadList(sid: Sid)
    | WriteRow(sid: Sid, newId: Id)
    | WritePosition(sid: Sid)
    | LockAnswer(sid: Sid)
    | Upsert(sid: Sid)
    | Commit(sid: Sid)
    | Abort(sid: Sid)

  predicate HoldsFamily(x: Session, f: Id) {
    !x.op.SaveAnswer? && FamilyOf(x.op) == f
  }

  predicate HoldsShare(x: Session, c: Id) {
    x.op.SaveAnswer? && (x.phase.ShareLocked? || x.phase.Upserted?) && x.op.a.criterion == c
  }

  predicate HoldsAnswer(x: Session, home: Id, c: Id) {
    x.op.SaveAnswer? && x.phase.Upserted? && x.op.a.home == home && x.op.a.criterion == c
  }

  predicate FamilyFree(s: State, f: Id) {
    forall o :: o in s.sessions ==> !HoldsFamily(s.sessions[o], f)
  }

  // No other session writes the row, and none share-locks it.
  predicate RowFree(s: State, sid: Sid, id: Id) {
    forall o :: o in s.sessions && o != sid ==> id !in s.sessions[o].rows && !HoldsShare(s.sessions[o], id)
  }

  predicate NoWriter(s: State, sid: Sid, id: Id) {
    forall o :: o in s.sessions && o != sid ==> id !in s.sessions[o].rows
  }

  predicate AnswerFree(s: State, sid: Sid, home: Id, c: Id) {
    forall o :: o in s.sessions && o != sid ==> !HoldsAnswer(s.sessions[o], home, c)
  }

  function View(s: State, x: Session): Table {
    s.db.criteria + x.rows
  }

  // The session ends with an error: its rows are rolled back.
  function Fail(s: State, sid: Sid, e: Error): State
    requires sid in s.sessions
  {
    State(s.db, s.sessions - {sid}, s.log + [Entry(s.sessions[sid].op, NO_ID, Err(e))])
  }

  function Update(s: State, sid: Sid, x: Session): State {
    s.(sessions := s.sessions[sid := x])
  }

  function DoBegin(env: Env, s: State, sid: Sid, op: Op): Option<State> {
    if sid in s.sessions then None else
      match Precheck(env, op)
      case Err(e) => Some(s.(log := s.log + [Entry(op, NO_ID, Err(e))]))
      case Ok(_) =>
        if op.SaveAnswer? then
          Some(Update(s, sid, Session(op, Begun, NO_ID, map[])))
        else if FamilyFree(s, FamilyOf(op)) then
          Some(Update(s, sid, Session(op, Locked, NO_ID, map[])))
        else
          None
  }

  function DoReadList(s: State, sid: Sid, x: Session): Option<State>
    requires sid in s.sessions && s.sessions[sid] == x
  {
    match x.op
    case Save(_, c) =>
      if !x.phase.Locked? then None else
        (match SaveRest(View(s, x), c)
         case Err(e) => Some(Fail(s, sid, e))
         case Ok(rest) => Some(Update(s, sid, x.(phase := Checked(rest)))))
    case Reorder(_, f, ids) =>
      if !x.phase.Locked? then None
      else if multiset(ids) == multiset(Listing(View(s, x), f)) then
        Some(Update(s, sid, x.(phase := Writing(ids, 0))))
      else
        Some(Fail(s, sid, InvalidArgument))
    case Delete(_, f, _) =>
      if !x.phase.RowRetired? then None
      else Some(Update(s, sid, x.(phase := Writing(Listing(View(s, x), f), 0))))
    case SaveAnswer(_, _) => None
  }

  function DoWriteRow(s: State, sid: Sid, x: Session, newId: Id): Option<State>
    requires sid in s.sessions && s.sessions[sid] == x
  {
    match x.op
    case Save(_, c) =>
      if !x.phase.Checked? || !(0 <= c.order <= |x.phase.rest|) then None
      else if c.id == NO_ID then
        if newId == NO_ID || newId in s.db.criteria || !NoWriter(s, sid, newId) then None
        else Some(Update(s, sid, Session(x.op, Writing(InsertAt(x.phase.rest, c.order, newId), 0),
                                         newId, x.rows[newId := SavedRow(View(s, x), c)])))
      else if c.id !in View(s, x) || !RowFree(s, sid, c.id) then None
      else Some(Update(s, sid, Session(x.op, Writing(InsertAt(x.phase.rest, c.order, c.id), 0),
                                       NO_ID, x.rows[c.id := SavedRow(View(s, x), c)])))
    case Delete(_, f, id) =>
      if !x.phase.Locked? then None
      else if id !in Active(View(s, x), f) then Some(Fail(s, sid, NotFound))
      else if !RowFree(s, sid, id) then None
      else Some(Update(s, sid, x.(phase := RowRetired, rows := x.rows[id := View(s, x)[id].(retired := true)])))
    case _ => None
  }

  function DoWritePosition(s: State, sid: Sid, x: Session): Option<State> {
    if !x.phase.Writing? || x.phase.next >= |x.phase.ids| then None else
      var id, k := x.phase.ids[x.phase.next], x.phase.next;
      var x' := x.(phase := Writing(x.phase.ids, k + 1));
      if id !in View(s, x) then Some(Update(s, sid, x'))
      else if !RowFree(s, sid, id) then None
      else Some(Update(s, sid, x'.(rows := x.rows[id := View(s, x)[id].(order := k)])))
  }

  function DoLockAnswer(env: Env, s: State, sid: Sid, x: Session): Option<State>
    requires sid in s.sessions && s.sessions[sid] == x
  {
    if !x.op.SaveAnswer? || !x.phase.Begun? then None
    else if !AnswerAllowed(env, s.db.criteria, x.op.actor, x.op.a) then Some(Fail(s, sid, NotFound))
    else if !NoWriter(s, sid, x.op.a.criterion) then None
    else Some(Update(s, sid, x.(phase := ShareLocked)))
  }

  function DoUpsert(s: State, sid: Sid, x: Session): Option<State> {
    if !x.op.SaveAnswer? || !x.phase.ShareLocked? then None
    else if !AnswerFree(s, sid, x.op.a.home, x.op.a.criterion) then None
    else Some(Update(s, sid, x.(phase := Upserted)))
  }

  function DoCommit(s: State, sid: Sid, x: Session): Option<State> {
    var done := s.log + [Entry(x.op, x.newId, Ok(()))];
    if x.op.SaveAnswer? then
      if !x.phase.Upserted? then None
      else Some(State(s.db.(answers := s.db.answers[(x.op.a.home, x.op.a.criterion) := x.op.a]),
                      s.sessions - {sid}, done))
    else if !x.phase.Writing? || x.phase.next != |x.phase.ids| then None
    else Some(State(s.db.(criteria := View(s, x)), s.sessions - {sid}, done))
  }

  // None when the step is not enabled.
  function Perform(env: Env, s: State, step: Step): Option<State> {
    if step.Begin? then DoBegin(env, s, step.sid, step.op)
    else if step.sid !in s.sessions then None
    else
      var x := s.sessions[step.sid];
      match step
      case ReadList(sid) => DoReadList(s, sid, x)
      case WriteRow(sid, newId) => DoWriteRow(s, sid, x, newId)
      case WritePosition(sid) => DoWritePosition(s, sid, x)
      case LockAnswer(sid) => DoLockAnswer(env, s, sid, x)
      case Upsert(sid) => DoUpsert(s, sid, x)
      case Commit(sid) => DoCommit(s, sid, x)
      case Abort(sid) => Some(s.(sessions := s.sessions - {sid}))
      case Begin(_, _) => None
  }

  function Exec(env: Env, s: State, steps: seq<Step>): Option<State> {
    if steps == [] then Some(s) else
      match Exec(env, s, steps[..|steps| - 1])
      case None => None
      case Some(m) => Perform(env, m, steps[|steps| - 1])
  }

  // ---- the serial run ----

  // One operation alone, which must end the way the log says it did.
  function ReplayEntry(env: Env, db: Db, e: Entry): Option<Db> {
    match Apply(env, db, e.op, e.newId)
    case Ok(db') => if e.outcome.Ok? then Some(db') else None
    case Err(err) => if e.outcome == Err(err) then Some(db) else None
  }

  function Replay(env: Env, db: Db, log: seq<Entry>): Option<Db> {
    if log == [] then Some(db) else
      match Replay(env, db, log[..|log| - 1])
      case None => None
      case Some(m) => ReplayEntry(env, m, log[|log| - 1])
  }

  // ---- invariant ----

  // How far a session has got, told against the tables committed now.
  ghost predicate Progress(env: Env, db: Db, x: Session) {
    var t := db.criteria;
    match x.phase
    case Locked => !x.op.SaveAnswer? && x.rows == map[]
    case Checked(rest) => x.op.Save? && x.rows == map[] && SaveRest(t, x.op.c) == Ok(rest)
    case RowRetired =>
      x.op.Delete? && x.op.id in Active(t, x.op.family) && x.rows.Keys == {x.op.id} && t + x.rows == Retire(t, x.op.id)
    case Writing(ids, k) =>
      && !x.op.SaveAnswer? && (x.op.Save? ==> ValidCriterion(x.op.c)) && k <= |ids|
      && Plan(t, x.op, x.newId).Ok? && Plan(t, x.op, x.newId).value.1 == ids
      && t + x.rows == WritePrefix(Plan(t, x.op, x.newId).value.0, ids, k)
      && (x.op.Save? && x.op.c.id == NO_ID ==> x.newId in x.rows)
    case Begun => x.op.SaveAnswer? && x.rows == map[]
    case _ => x.op.SaveAnswer? && x.rows == map[] && AnswerAllowed(env, t, x.op.actor, x.op.a)
  }

  // Uncommitted rows belong to the session's family and replace active rows only.
  ghost predicate OwnRows(t: Table, x: Session) {
    x.op.SaveAnswer? ||
    forall id :: id in x.rows ==>
      x.rows[id].family == FamilyOf(x.op) && (id in t ==> id in Active(t, FamilyOf(x.op)))
  }

  ghost predicate SessionOk(env: Env, db: Db, x: Session) {
    Precheck(env, x.op).Ok? && Progress(env, db, x) && OwnRows(db.criteria, x)
  }

  ghost predicate Compatible(x: Session, y: Session) {
    && (x.op.SaveAnswer? || y.op.SaveAnswer? || FamilyOf(x.op) != FamilyOf(y.op))
    && x.rows.Keys !! y.rows.Keys
    && (forall c :: c in y.rows ==> !HoldsShare(x, c))
    && (forall c :: c in x.rows ==> !HoldsShare(y, c))
  }

  ghost predicate SessionsOk(env: Env, s: State) {
    && (forall o :: o in s.sessions ==> SessionOk(env, s.db, s.sessions[o]))
    && (forall o, p :: o in s.sessions && p in s.sessions && o != p ==> Compatible(s.sessions[o], s.sessions[p]))
  }

  ghost predicate Inv(env: Env, db0: Db, s: State) {
    Replay(env, db0, s.log) == Some(s.db) && SessionsOk(env, s)
  }

  // ---- other sessions' commits do not disturb a session ----

  // d holds rows of other families than g only, and replaces no row of g.
  ghost predicate Foreign(t: Table, d: Table, g: Id) {
    forall id :: id in d ==> d[id].family != g && (id in t ==> t[id].family != g)
  }

  lemma ForeignListing(t: Table, d: Table, g: Id)
    requires Foreign(t, d, g)
    ensures Active(t + d, g) == Active(t, g)
    ensures Listing(t + d, g) == Listing(t, g)
  {
    hide Listing, Without, InsertAt, RemoveAt, IndexOf;
    assert Active(t + d, g) == Active(t, g);
    ListingLocal(t + d, t, g);
  }

  lemma ForeignPlan(t: Table, d: Table, op: Op, newId: Id)
    requires !op.SaveAnswer? && (op.Save? ==> ValidCriterion(op.c))
    requires Foreign(t, d, FamilyOf(op))
    requires op.Save? && op.c.id == NO_ID ==> newId !in d
    requires Plan(t, op, newId).Ok?
    ensures Plan(t + d, op, newId) == Ok((Plan(t, op, newId).value.0 + d, Plan(t, op, newId).value.1))
    ensures forall id :: id in Plan(t, op, newId).value.1 ==> id !in d
  {
    hide Listing, Without, InsertAt, RemoveAt, IndexOf;
    var f := FamilyOf(op);
    ForeignListing(t, d, f);
    var (p, ids) := Plan(t, op, newId).value;
    PlanListsActive(t, op, newId, p, ids);
    match op
    case Save(_, c) =>
      var id := SavedId(c, newId);
      assert id !in d;
      assert (t + d)[id := SavedRow(t, c)] == p + d;
    case Delete(_, _, id) =>
      assert Retire(t + d, id) == p + d;
      ForeignListing(p, d, f);
    case Reorder(_, _, _) =>
  }

  lemma {:induction false} ForeignWritePrefix(p: Table, d: Table, ids: seq<Id>, k: nat)
    requires k <= |ids| && forall id :: id in ids ==> id !in d
    ensures WritePrefix(p + d, ids, k) == WritePrefix(p, ids, k) + d
  {
    if k > 0 {
      ForeignWritePrefix(p, d, ids, k - 1);
      assert ids[k - 1] in ids;
    }
  }

  lemma ForeignOverlay(t: Table, d: Table, rows: Table, p: Table, ids: seq<Id>, k: nat)
    requires k <= |ids| && forall id :: id in ids ==> id !in d
    requires t + rows == WritePrefix(p, ids, k) && rows.Keys !! d.Keys
    ensures (t + d) + rows == WritePrefix(p + d, ids, k)
  {
    ForeignWritePrefix(p, d, ids, k);
    assert (t + d) + rows == (t + rows) + d;
  }

  lemma ForeignWriting(env: Env, db: Db, d: Table, x: Session)
    requires SessionOk(env, db, x) && x.phase.Writing?
    requires Foreign(db.criteria, d, FamilyOf(x.op)) && x.rows.Keys !! d.Keys
    ensures Progress(env, db.(criteria := db.criteria + d), x)
  {
    hide Listing, Without, InsertAt, RemoveAt, IndexOf;
    var t := db.criteria;
    ForeignPlan(t, d, x.op, x.newId);
    ForeignOverlay(t, d, x.rows, Plan(t, x.op, x.newId).value.0, x.phase.ids, x.phase.next);
  }

  /** A commit of criteria rows by another session leaves this one where it was. */
  lemma ForeignCommit(env: Env, db: Db, y: Session, x: Session)
    requires SessionOk(env, db, x) && SessionOk(env, db, y) && Compatible(x, y)
    requires !y.op.SaveAnswer?
    ensures SessionOk(env, db.(criteria := db.criteria + y.rows), x)
  {
    hide Listing, Without, InsertAt, RemoveAt, IndexOf, Precheck;
    var t := db.criteria;
    if !x.op.SaveAnswer? {
      assert Foreign(t, y.rows, FamilyOf(x.op));
      ForeignListing(t, y.rows, FamilyOf(x.op));
      if x.phase.Writing? {
        ForeignWriting(env, db, y.rows, x);
      }
      if x.phase.RowRetired? {
        assert (t + y.rows) + x.rows == (t + x.rows) + y.rows;
      }
    } else if HoldsShare(x, x.op.a.criterion) {
      assert x.op.a.criterion !in y.rows;
    }
  }

  // ---- each step keeps the invariant ----

  // A session moves on without writing a row.
  lemma AdvanceKeeps(env: Env, s: State, sid: Sid, x: Session)
    requires SessionsOk(env, s) && sid in s.sessions && SessionOk(env, s.db, x)
    requires x.op == s.sessions[sid].op && x.rows == s.sessions[sid].rows
    requires x.op.SaveAnswer? ==> NoWriter(s, sid, x.op.a.criterion)
    ensures SessionsOk(env, Update(s, sid, x))
  {
    forall o | o in s.sessions && o != sid
      ensures Compatible(s.sessions[o], x) && Compatible(x, s.sessions[o])
    {
      assert Compatible(s.sessions[o], s.sessions[sid]);
    }
  }

  // A session moves on, having written the row `id`.
  lemma WriteKeeps(env: Env, s: State, sid: Sid, x: Session, id: Id)
    requires SessionsOk(env, s) && sid in s.sessions && SessionOk(env, s.db, x)
    requires x.op == s.sessions[sid].op && x.rows.Keys <= s.sessions[sid].rows.Keys + {id}
    requires !x.op.SaveAnswer? && RowFree(s, sid, id)
    ensures SessionsOk(env, Update(s, sid, x))
  {
    forall o | o in s.sessions && o != sid
      ensures Compatible(s.sessions[o], x) && Compatible(x, s.sessions[o])
    {
      assert Compatible(s.sessions[o], s.sessions[sid]);
    }
  }

  // A new session, with nothing written.
  lemma EnterKeeps(env: Env, s: State, sid: Sid, x: Session)
    requires SessionsOk(env, s) && sid !in s.sessions && SessionOk(env, s.db, x)
    requires x.phase == (if x.op.SaveAnswer? then Begun else Locked) && x.rows == map[]
    requires !x.op.SaveAnswer? ==> FamilyFree(s, FamilyOf(x.op))
    ensures SessionsOk(env, Update(s, sid, x))
  {
    forall o | o in s.sessions
      ensures Compatible(s.sessions[o], x) && Compatible(x, s.sessions[o])
    {
      assert !x.op.SaveAnswer? ==> !HoldsFamily(s.sessions[o], FamilyOf(x.op));
    }
  }

  lemma LogOne(env: Env, db0: Db, s: State, e: Entry)
    requires Replay(env, db0, s.log) == Some(s.db)
    ensures Replay(env, db0, s.log + [e]) == ReplayEntry(env, s.db, e)
  {
    assert (s.log + [e])[..|s.log|] == s.log;
  }

  lemma FailKeeps(env: Env, db0: Db, s: State, sid: Sid, e: Error)
    requires Inv(env, db0, s) && sid in s.sessions
    requires Apply(env, s.db, s.sessions[sid].op, NO_ID) == Err(e)
    ensures Inv(env, db0, Fail(s, sid, e))
  {
    hide Listing, Without, InsertAt, RemoveAt, IndexOf;
    LogOne(env, db0, s, Entry(s.sessions[sid].op, NO_ID, Err(e)));
  }

  lemma BeginKeeps(env: Env, db0: Db, s: State, sid: Sid, op: Op)
    requires Inv(env, db0, s) && DoBegin(env, s, sid, op).Some?
    ensures Inv(env, db0, DoBegin(env, s, sid, op).value)
  {
    hide Listing, Without, InsertAt, RemoveAt, IndexOf;
    if Precheck(env, op).Err? {
      LogOne(env, db0, s, Entry(op, NO_ID, Err(Precheck(env, op).error)));
    } else {
      EnterKeeps(env, s, sid, Session(op, if op.SaveAnswer? then Begun else Locked, NO_ID, map[]));
    }
  }

  lemma ReadForSave(env: Env, db0: Db, s: State, sid: Sid)
    requires Inv(env, db0, s) && sid in s.sessions && s.sessions[sid].op.Save?
    requires DoReadList(s, sid, s.sessions[sid]).Some?
    ensures Inv(env, db0, DoReadList(s, sid, s.sessions[sid]).value)
  {
    hide Listing, Without, InsertAt, RemoveAt, IndexOf;
    var x := s.sessions[sid];
    assert View(s, x) == s.db.criteria;
    match SaveRest(s.db.criteria, x.op.c) {
      case Err(e) => FailKeeps(env, db0, s, sid, e);
      case Ok(rest) => AdvanceKeeps(env, s, sid, x.(phase := Checked(rest)));
    }
  }

  lemma ReadForReorder(env: Env, db0: Db, s: State, sid: Sid)
    requires Inv(env, db0, s) && sid in s.sessions && s.sessions[sid].op.Reorder?
    requires DoReadList(s, sid, s.sessions[sid]).Some?
    ensures Inv(env, db0, DoReadList(s, sid, s.sessions[sid]).value)
  {
    hide Listing, InsertAt, Precheck, AnswerAllowed, ValidAnswer;
    var x := s.sessions[sid];
    assert View(s, x) == s.db.criteria;
    if multiset(x.op.ids) == multiset(Listing(s.db.criteria, x.op.family)) {
      AdvanceKeeps(env, s, sid, x.(phase := Writing(x.op.ids, 0)));
    } else {
      FailKeeps(env, db0, s, sid, InvalidArgument);
    }
  }

  lemma ReadForDelete(env: Env, db0: Db, s: State, sid: Sid)
    requires Inv(env, db0, s) && sid in s.sessions && s.sessions[sid].op.Delete?
    requires DoReadList(s, sid, s.sessions[sid]).Some?
    ensures Inv(env, db0, DoReadList(s, sid, s.sessions[sid]).value)
  {
    hide Listing, Without, InsertAt, RemoveAt, IndexOf;
    var x := s.sessions[sid];
    AdvanceKeeps(env, s, sid, x.(phase := Writing(Listing(View(s, x), x.op.family), 0)));
  }

  // The session once its INSERT or UPDATE of the saved row is done.
  function RowSaved(t: Table, x: Session, newId: Id): Session
    requires x.op.Save? && x.phase.Checked? && 0 <= x.op.c.order <= |x.phase.rest|
    requires x.op.c.id == NO_ID || x.op.c.id in t
  {
    var id := SavedId(x.op.c, newId);
    Session(x.op, Writing(InsertAt(x.phase.rest, x.op.c.order, id), 0),
            if x.op.c.id == NO_ID then newId else NO_ID, x.rows[id := SavedRow(t, x.op.c)])
  }

  lemma RowSavedOk(env: Env, db: Db, x: Session, newId: Id)
    requires SessionOk(env, db, x) && x.op.Save? && x.phase.Checked?
    requires 0 <= x.op.c.order <= |x.phase.rest|
    requires x.op.c.id == NO_ID ==> newId != NO_ID && newId !in db.criteria
    ensures x.op.c.id == NO_ID || x.op.c.id in db.criteria
    ensures SessionOk(env, db, RowSaved(db.criteria, x, newId))
  {
    hide Listing, Without, InsertAt, RemoveAt, IndexOf;
    var t, c := db.criteria, x.op.c;
    SaveRestElements(t, c, x.phase.rest);
    var x' := RowSaved(t, x, newId);
    var id := SavedId(c, newId);
    assert SavedId(c, x'.newId) == id;
    OverlayOne(t, id, SavedRow(t, c));
    assert t + x'.rows == t[id := SavedRow(t, c)] && x'.rows.Keys == {id};
    PlanAfterCheck(t, x.op, x'.newId, x.phase.rest);
  }

  lemma OverlayOne(t: Table, id: Id, r: Criterion)
    ensures t + map[id := r] == t[id := r]
  {
  }

  lemma PlanAfterCheck(t: Table, op: Op, newId: Id, rest: seq<Id>)
    requires op.Save? && ValidCriterion(op.c) && SaveRest(t, op.c) == Ok(rest)
    requires op.c.id == NO_ID ==> newId != NO_ID && newId !in t
    ensures op.c.order <= |rest| && (op.c.id == NO_ID || op.c.id in t)
    ensures Plan(t, op, newId) ==
            Ok((t[SavedId(op.c, newId) := SavedRow(t, op.c)], InsertAt(rest, op.c.order, SavedId(op.c, newId))))
  {
    hide Listing, Without, InsertAt, RemoveAt, IndexOf;
    SaveRestElements(t, op.c, rest);
  }

  lemma FreshIsFree(env: Env, s: State, sid: Sid, newId: Id)
    requires SessionsOk(env, s) && newId !in s.db.criteria && NoWriter(s, sid, newId)
    ensures RowFree(s, sid, newId)
  {
    hide Listing, Without, InsertAt, RemoveAt, IndexOf;
    forall o | o in s.sessions && o != sid
      ensures !HoldsShare(s.sessions[o], newId)
    {
      assert SessionOk(env, s.db, s.sessions[o]);
    }
  }

  lemma SaveRowStep(env: Env, s: State, sid: Sid, newId: Id)
    requires sid in s.sessions && SessionOk(env, s.db, s.sessions[sid]) && s.sessions[sid].op.Save?
    requires DoWriteRow(s, sid, s.sessions[sid], newId).Some?
    ensures var x := s.sessions[sid];
      && x.phase.Checked? && 0 <= x.op.c.order <= |x.phase.rest|
      && (x.op.c.id == NO_ID || x.op.c.id in s.db.criteria)
      && DoWriteRow(s, sid, x, newId) == Some(Update(s, sid, RowSaved(s.db.criteria, x, newId)))
      && (if x.op.c.id == NO_ID then newId != NO_ID && newId !in s.db.criteria && NoWriter(s, sid, newId)
          else RowFree(s, sid, x.op.c.id))
  {
    hide Listing, SaveRest, InsertAt, SavedRow, RowFree, NoWriter, Precheck;
    assert View(s, s.sessions[sid]) == s.db.criteria;
  }

  lemma SaveRowKeeps(env: Env, db0: Db, s: State, sid: Sid, newId: Id)
    requires Inv(env, db0, s) && sid in s.sessions && s.sessions[sid].op.Save?
    requires DoWriteRow(s, sid, s.sessions[sid], newId).Some?
    ensures Inv(env, db0, DoWriteRow(s, sid, s.sessions[sid], newId).value)
  {
    hide Listing, DoWriteRow, SessionOk, RowFree, NoWriter, RowSaved, SavedRow;
    var x := s.sessions[sid];
    SaveRowStep(env, s, sid, newId);
    var x' := RowSaved(s.db.criteria, x, newId);
    assert SessionsOk(env, Update(s, sid, x')) by {
      RowSavedOk(env, s.db, x, newId);
      if x.op.c.id == NO_ID { FreshIsFree(env, s, sid, newId); }
      RowSavedShape(s.db.criteria, x, newId);
      WriteKeeps(env, s, sid, x', SavedId(x.op.c, newId));
    }
  }

  lemma RowSavedShape(t: Table, x: Session, newId: Id)
    requires x.op.Save? && x.phase.Checked? && 0 <= x.op.c.order <= |x.phase.rest|
    requires x.op.c.id == NO_ID || x.op.c.id in t
    ensures RowSaved(t, x, newId).op == x.op
    ensures RowSaved(t, x, newId).rows.Keys == x.rows.Keys + {SavedId(x.op.c, newId)}
  {
  }

  lemma RowRetiredOk(env: Env, db: Db, x: Session)
    requires SessionOk(env, db, x) && x.op.Delete? && x.phase.Locked?
    requires x.op.id in Active(db.criteria, x.op.family)
    ensures SessionOk(env, db, x.(phase := RowRetired,
                                  rows := x.rows[x.op.id := db.criteria[x.op.id].(retired := true)]))
  {
    hide Listing, Without, InsertAt, RemoveAt, IndexOf;
    assert db.criteria + x.rows[x.op.id := db.criteria[x.op.id].(retired := true)] == Retire(db.criteria, x.op.id);
  }

  lemma RetireRowKeeps(env: Env, db0: Db, s: State, sid: Sid, newId: Id)
    requires Inv(env, db0, s) && sid in s.sessions && s.sessions[sid].op.Delete?
    requires DoWriteRow(s, sid, s.sessions[sid], newId).Some?
    ensures Inv(env, db0, DoWriteRow(s, sid, s.sessions[sid], newId).value)
  {
    hide Listing, Without, InsertAt, RemoveAt, IndexOf;
    var x := s.sessions[sid];
    var id, t := x.op.id, s.db.criteria;
    assert View(s, x) == t;
    if id !in Active(t, x.op.family) {
      FailKeeps(env, db0, s, sid, NotFound);
    } else {
      RowRetiredOk(env, s.db, x);
      WriteKeeps(env, s, sid, x.(phase := RowRetired, rows := x.rows[id := t[id].(retired := true)]), id);
    }
  }

  // The session once one more position is written.
  function PositionWritten(t: Table, x: Session): Session
    requires x.phase.Writing? && x.phase.next < |x.phase.ids|
    requires x.phase.ids[x.phase.next] in t + x.rows
  {
    var id, k := x.phase.ids[x.phase.next], x.phase.next;
    x.(phase := Writing(x.phase.ids, k + 1), rows := x.rows[id := (t + x.rows)[id].(order := k)])
  }

  lemma PositionWrittenOk(env: Env, db: Db, x: Session)
    requires SessionOk(env, db, x) && x.phase.Writing? && x.phase.next < |x.phase.ids|
    ensures x.phase.ids[x.phase.next] in db.criteria + x.rows
    ensures SessionOk(env, db, PositionWritten(db.criteria, x))
  {
    var t := db.criteria;
    var (p, ids) := Plan(t, x.op, x.newId).value;
    var k := x.phase.next;
    PlanRows(t, x.op, x.newId, p, ids, ids[k]);
    PrefixRow(p, ids, k, ids[k], t + x.rows);
    OverlayOrder(t, x.rows, p, ids, k);
  }

  // One more position in the overlay is one more in the written prefix.
  lemma OverlayOrder(t: Table, rows: Table, p: Table, ids: seq<Id>, k: nat)
    requires k < |ids| && t + rows == WritePrefix(p, ids, k) && ids[k] in t + rows
    ensures t + rows[ids[k] := (t + rows)[ids[k]].(order := k)] == WritePrefix(p, ids, k + 1)
  {
  }

  lemma PrefixRow(p: Table, ids: seq<Id>, k: nat, id: Id, u: Table)
    requires k <= |ids| && id in p && u == WritePrefix(p, ids, k)
    ensures id in u && u[id] == p[id].(order := u[id].order)
  {
    if k > 0 {
      PrefixRow(p, ids, k - 1, id, WritePrefix(p, ids, k - 1));
    }
  }

  lemma WritePositionKeeps(env: Env, db0: Db, s: State, sid: Sid)
    requires Inv(env, db0, s) && sid in s.sessions && DoWritePosition(s, sid, s.sessions[sid]).Some?
    ensures Inv(env, db0, DoWritePosition(s, sid, s.sessions[sid]).value)
  {
    hide Listing, Without, InsertAt, RemoveAt, IndexOf;
    var x := s.sessions[sid];
    PositionWrittenOk(env, s.db, x);
    WriteKeeps(env, s, sid, PositionWritten(s.db.criteria, x), x.phase.ids[x.phase.next]);
  }

  // An id being ordered is an active row of the committed table, or the new one.
  lemma PlanRows(t: Table, op: Op, newId: Id, p: Table, ids: seq<Id>, id: Id)
    requires !op.SaveAnswer? && (op.Save? ==> ValidCriterion(op.c))
    requires Plan(t, op, newId) == Ok((p, ids)) && id in ids
    ensures id in p && p[id].family == FamilyOf(op)
    ensures id in t ==> id in Active(t, FamilyOf(op))
  {
    hide Listing, Without, InsertAt, RemoveAt, IndexOf;
    PlanListsActive(t, op, newId, p, ids);
    PlanOnlyTouches(t, op, newId, p, ids);
  }

  lemma LockAnswerKeeps(env: Env, db0: Db, s: State, sid: Sid)
    requires Inv(env, db0, s) && sid in s.sessions && DoLockAnswer(env, s, sid, s.sessions[sid]).Some?
    ensures Inv(env, db0, DoLockAnswer(env, s, sid, s.sessions[sid]).value)
  {
    hide Listing, Without, InsertAt, RemoveAt, IndexOf;
    var x := s.sessions[sid];
    if !AnswerAllowed(env, s.db.criteria, x.op.actor, x.op.a) {
      FailKeeps(env, db0, s, sid, NotFound);
    } else {
      AdvanceKeeps(env, s, sid, x.(phase := ShareLocked));
    }
  }

  lemma UpsertKeeps(env: Env, db0: Db, s: State, sid: Sid)
    requires Inv(env, db0, s) && sid in s.sessions && DoUpsert(s, sid, s.sessions[sid]).Some?
    ensures Inv(env, db0, DoUpsert(s, sid, s.sessions[sid]).value)
  {
    hide Listing, Without, InsertAt, RemoveAt, IndexOf;
    var x := s.sessions[sid];
    forall o | o in s.sessions && o != sid
      ensures x.op.a.criterion !in s.sessions[o].rows
    {
      assert Compatible(x, s.sessions[o]) && HoldsShare(x, x.op.a.criterion);
    }
    AdvanceKeeps(env, s, sid, x.(phase := Upserted));
  }

  /** What a session commits is what its operation alone makes of the tables
      as they are at that moment. */
  lemma CommitIsApply(env: Env, db: Db, x: Session)
    requires SessionOk(env, db, x)
    requires x.phase.Upserted? || (x.phase.Writing? && x.phase.next == |x.phase.ids|)
    ensures Apply(env, db, x.op, x.newId) == Ok(
              if x.op.SaveAnswer? then db.(answers := db.answers[(x.op.a.home, x.op.a.criterion) := x.op.a])
              else db.(criteria := db.criteria + x.rows))
  {
    hide Listing, Without, InsertAt, RemoveAt, IndexOf;
  }

  lemma AnswersDoNotMatter(env: Env, db: Db, answers: map<(Id, Id), HousingAnswer>, x: Session)
    requires SessionOk(env, db, x)
    ensures SessionOk(env, db.(answers := answers), x)
  {
    hide Listing, Without, InsertAt, RemoveAt, IndexOf;
  }

  lemma CommitKeeps(env: Env, db0: Db, s: State, sid: Sid)
    requires Inv(env, db0, s) && sid in s.sessions && DoCommit(s, sid, s.sessions[sid]).Some?
    ensures Inv(env, db0, DoCommit(s, sid, s.sessions[sid]).value)
  {
    hide Listing, Without, InsertAt, RemoveAt, IndexOf;
    var x := s.sessions[sid];
    var s' := DoCommit(s, sid, x).value;
    assert Replay(env, db0, s'.log) == Some(s'.db) by {
      CommitIsApply(env, s.db, x);
      LogOne(env, db0, s, Entry(x.op, x.newId, Ok(())));
    }
    forall o | o in s'.sessions
      ensures SessionOk(env, s'.db, s'.sessions[o])
    {
      if x.op.SaveAnswer? {
        AnswersDoNotMatter(env, s.db, s'.db.answers, s.sessions[o]);
      } else {
        ForeignCommit(env, s.db, x, s.sessions[o]);
      }
    }
  }

  lemma StepKeeps(env: Env, db0: Db, s: State, step: Step)
    requires Inv(env, db0, s) && Perform(env, s, step).Some?
    ensures Inv(env, db0, Perform(env, s, step).value)
  {
    hide Listing, InsertAt, Precheck, AnswerAllowed, SaveRest, SavedRow;
    match step
    case Begin(sid, op) => BeginKeeps(env, db0, s, sid, op);
    case ReadList(sid) =>
      if s.sessions[sid].op.Save? {
        ReadForSave(env, db0, s, sid);
      } else if s.sessions[sid].op.Reorder? {
        ReadForReorder(env, db0, s, sid);
      } else {
        ReadForDelete(env, db0, s, sid);
      }
    case WriteRow(sid, newId) =>
      if s.sessions[sid].op.Save? {
        SaveRowKeeps(env, db0, s, sid, newId);
      } else {
        RetireRowKeeps(env, db0, s, sid, newId);
      }
    case WritePosition(sid) => WritePositionKeeps(env, db0, s, sid);
    case LockAnswer(sid) => LockAnswerKeeps(env, db0, s, sid);
    case Upsert(sid) => UpsertKeeps(env, db0, s, sid);
    case Commit(sid) => CommitKeeps(env, db0, s, sid);
    case Abort(sid) =>
  }

  // ---- what holds of every interleaving ----

  function Initial(db: Db): State {
    State(db, map[], [])
  }

  lemma {:induction false} RunKeeps(env: Env, db0: Db, s: State, steps: seq<Step>)
    requires Inv(env, db0, s) && Exec(env, s, steps).Some?
    ensures Inv(env, db0, Exec(env, s, steps).value)
  {
    if steps != [] {
      var before := steps[..|steps| - 1];
      RunKeeps(env, db0, s, before);
      StepKeeps(env, db0, Exec(env, s, before).value, steps[|steps| - 1]);
    }
  }

  /** In every interleaving the committed tables are those of running the
      finished operations one after another in the order they finished, each
      with the very outcome its caller was given. */
  lemma Serialisable(env: Env, db0: Db, steps: seq<Step>, s: State)
    requires Exec(env, Initial(db0), steps) == Some(s)
    ensures Replay(env, db0, s.log) == Some(s.db)
  {
    RunKeeps(env, db0, Initial(db0), steps);
  }

  lemma {:induction false} ReplayKeepsWellFormed(env: Env, db: Db, log: seq<Entry>)
    requires WellFormed(env, db) && Replay(env, db, log).Some?
    ensures WellFormed(env, Replay(env, db, log).value)
  {
    if log != [] {
      var before, e := log[..|log| - 1], log[|log| - 1];
      ReplayKeepsWellFormed(env, db, before);
      var m := Replay(env, db, before).value;
      if e.outcome.Ok? {
        ApplyKeepsWellFormed(env, m, e.op, e.newId, Replay(env, db, log).value);
      }
    }
  }

  /** At every moment of every interleaving each family's active positions are
      exactly 0..n-1, no position twice, and no answer crosses families. */
  lemma AlwaysContiguous(env: Env, db0: Db, steps: seq<Step>, s: State, f: Id)
    requires WellFormed(env, db0) && Exec(env, Initial(db0), steps) == Some(s)
    ensures PositionsExact(s.db.criteria, f)
    ensures WellFormed(env, s.db)
  {
    Serialisable(env, db0, steps, s);
    ReplayKeepsWellFormed(env, db0, s.log);
    ContiguousIffPositionsExact(s.db.criteria, f);
  }

  lemma {:induction false} ReplayKeepsRetired(env: Env, db: Db, log: seq<Entry>, c: Id)
    requires Replay(env, db, log).Some?
    requires c in db.criteria && db.criteria[c].retired
    ensures SameHistory(db, Replay(env, db, log).value, c)
  {
    if log != [] {
      var before, e := log[..|log| - 1], log[|log| - 1];
      ReplayKeepsRetired(env, db, before, c);
      var m := Replay(env, db, before).value;
      if e.outcome.Ok? {
        ApplyKeepsRetired(env, m, e.op, e.newId, Replay(env, db, log).value, c);
      }
    }
  }

  lemma {:induction false} ReplaySplit(env: Env, db: Db, a: seq<Entry>, b: seq<Entry>)
    requires Replay(env, db, a).Some?
    ensures Replay(env, db, a + b) == Replay(env, Replay(env, db, a).value, b)
  {
    if b == [] {
      assert a + b == a;
    } else {
      ReplaySplit(env, db, a, b[..|b| - 1]);
      assert (a + b)[..|a + b| - 1] == a + b[..|b| - 1];
    }
  }

  // Steps only append to the log.
  lemma {:induction false} LogGrows(env: Env, s: State, steps: seq<Step>)
    requires Exec(env, s, steps).Some?
    ensures s.log <= Exec(env, s, steps).value.log
  {
    if steps != [] {
      hide Listing, Plan, SaveRest, InsertAt, Precheck, AnswerAllowed;
      LogGrows(env, s, steps[..|steps| - 1]);
    }
  }

  /** What the second of two successive runs adds is a serial run of its own. */
  lemma SerialFrom(env: Env, db0: Db, first: seq<Step>, s: State, second: seq<Step>, s': State)
    requires Exec(env, Initial(db0), first) == Some(s) && Exec(env, s, second) == Some(s')
    ensures s.log <= s'.log
    ensures Replay(env, s.db, s'.log[|s.log|..]) == Some(s'.db)
  {
    RunKeeps(env, db0, Initial(db0), first);
    RunKeeps(env, db0, s, second);
    LogGrows(env, s, second);
    var rest := s'.log[|s.log|..];
    assert s'.log == s.log + rest;
    ReplaySplit(env, db0, s.log, rest);
  }

  /** Once a retirement has committed, nothing any session does afterwards,
      whatever was under way, changes that criterion or any answer about it. */
  lemma RetirementIsPermanent(env: Env, db0: Db, first: seq<Step>, s: State, second: seq<Step>, s': State, c: Id)
    requires Exec(env, Initial(db0), first) == Some(s) && Exec(env, s, second) == Some(s')
    requires c in s.db.criteria && s.db.criteria[c].retired
    ensures SameHistory(s.db, s'.db, c)
  {
    SerialFrom(env, db0, first, s, second, s');
    ReplayKeepsRetired(env, s.db, s'.log[|s.log|..], c);
  }

  /** Answers are never dropped, whatever is retired around them. */
  lemma AnswersAreKept(env: Env, db0: Db, first: seq<Step>, s: State, second: seq<Step>, s': State)
    requires Exec(env, Initial(db0), first) == Some(s) && Exec(env, s, second) == Some(s')
    ensures s.db.answers.Keys <= s'.db.answers.Keys
  {
    SerialFrom(env, db0, first, s, second, s');
    ReplayKeepsAnswers(env, s.db, s'.log[|s.log|..]);
  }

  lemma {:induction false} ReplayKeepsAnswers(env: Env, db: Db, log: seq<Entry>)
    requires Replay(env, db, log).Some?
    ensures db.answers.Keys <= Replay(env, db, log).value.answers.Keys
  {
    if log != [] {
      ReplayKeepsAnswers(env, db, log[..|log| - 1]);
    }
  }

  // ---- no deadlock ----

  // Some session can take a step of its own, other than giving up.
  ghost predicate SomeoneCanMove(env: Env, s: State) {
    exists step: Step :: !step.Begin? && !step.Abort? && Perform(env, s, step).Some?
  }

  lemma {:induction false} SomethingAbove(ids: set<Id>) returns (b: nat)
    ensures forall id :: id in ids ==> id < b
  {
    b := 1;
    var rest := ids;
    while rest != {}
      invariant rest <= ids
      invariant forall id :: id in ids && id !in rest ==> id < b
      decreases rest
    {
      var id :| id in rest;
      if b <= id { b := id + 1; }
      rest := rest - {id};
    }
  }

  lemma FreshIdExists(s: State, sid: Sid) returns (newId: Id)
    ensures newId != NO_ID && newId !in s.db.criteria && NoWriter(s, sid, newId)
  {
    var used := s.db.criteria.Keys + set o, id | o in s.sessions && id in s.sessions[o].rows :: id;
    var b := SomethingAbove(used + {NO_ID});
    newId := b;
    assert newId !in used;
  }

  // Nobody else writes a row this session is about to write.
  lemma OwnRowHasNoWriter(env: Env, s: State, sid: Sid, id: Id)
    requires SessionsOk(env, s) && sid in s.sessions && !s.sessions[sid].op.SaveAnswer?
    requires id in Active(s.db.criteria, FamilyOf(s.sessions[sid].op)) || id in s.sessions[sid].rows
    ensures NoWriter(s, sid, id)
  {
    hide Listing, Without, InsertAt, RemoveAt, IndexOf;
    forall o | o in s.sessions && o != sid
      ensures id !in s.sessions[o].rows
    {
      assert Compatible(s.sessions[o], s.sessions[sid]);
      assert SessionOk(env, s.db, s.sessions[o]);
    }
  }

  ghost predicate NoShares(s: State) {
    forall o, c :: o in s.sessions ==> !HoldsShare(s.sessions[o], c)
  }

  lemma LockedMoves(env: Env, s: State, sid: Sid)
    requires SessionsOk(env, s) && sid in s.sessions && s.sessions[sid].phase.Locked? && NoShares(s)
    ensures Perform(env, s, if s.sessions[sid].op.Delete? then WriteRow(sid, NO_ID) else ReadList(sid)).Some?
  {
    hide Listing, InsertAt, Precheck, AnswerAllowed, ValidAnswer;
    var x := s.sessions[sid];
    assert View(s, x) == s.db.criteria;
    if x.op.Delete? && x.op.id in Active(s.db.criteria, x.op.family) {
      OwnRowHasNoWriter(env, s, sid, x.op.id);
    }
  }

  lemma CheckedFits(env: Env, db: Db, x: Session)
    requires SessionOk(env, db, x) && x.phase.Checked?
    ensures x.op.Save? && x.rows == map[] && 0 <= x.op.c.order <= |x.phase.rest|
    ensures x.op.c.id != NO_ID ==> x.op.c.id in Active(db.criteria, x.op.c.family)
  {
    hide Listing, Without, InsertAt, RemoveAt, IndexOf, OwnRows;
    SaveRestElements(db.criteria, x.op.c, x.phase.rest);
  }

  lemma CheckedMoves(env: Env, s: State, sid: Sid) returns (newId: Id)
    requires SessionsOk(env, s) && sid in s.sessions && s.sessions[sid].phase.Checked? && NoShares(s)
    ensures Perform(env, s, WriteRow(sid, newId)).Some?
  {
    hide InsertAt, SavedRow, SessionOk, Compatible;
    var x := s.sessions[sid];
    CheckedFits(env, s.db, x);
    newId := FreshIdExists(s, sid);
    assert View(s, x) == s.db.criteria;
    if x.op.c.id != NO_ID {
      OwnRowHasNoWriter(env, s, sid, x.op.c.id);
      assert RowFree(s, sid, x.op.c.id);
    }
  }

  lemma WritingMoves(env: Env, s: State, sid: Sid)
    requires SessionsOk(env, s) && sid in s.sessions && s.sessions[sid].phase.Writing? && NoShares(s)
    ensures var w := s.sessions[sid].phase;
      Perform(env, s, if w.next == |w.ids| then Commit(sid) else WritePosition(sid)).Some?
  {
    hide Listing, InsertAt, Precheck, AnswerAllowed, SaveRest, SavedRow;
    var x := s.sessions[sid];
    var ids, k := x.phase.ids, x.phase.next;
    assert SessionOk(env, s.db, x);
    if k < |ids| {
      var t := s.db.criteria;
      PlanRows(t, x.op, x.newId, Plan(t, x.op, x.newId).value.0, ids, ids[k]);
      OwnRowHasNoWriterIf(env, s, sid, ids[k]);
    }
  }

  lemma OwnRowHasNoWriterIf(env: Env, s: State, sid: Sid, id: Id)
    requires SessionsOk(env, s) && sid in s.sessions && !s.sessions[sid].op.SaveAnswer?
    requires id in s.db.criteria ==> id in Active(s.db.criteria, FamilyOf(s.sessions[sid].op))
    ensures id in View(s, s.sessions[sid]) ==> NoWriter(s, sid, id)
  {
    hide Listing, Without, InsertAt, RemoveAt, IndexOf;
    if id in View(s, s.sessions[sid]) { OwnRowHasNoWriter(env, s, sid, id); }
  }

  lemma CriterionSessionMoves(env: Env, s: State, sid: Sid)
    requires SessionsOk(env, s) && sid in s.sessions && !s.sessions[sid].op.SaveAnswer? && NoShares(s)
    ensures SomeoneCanMove(env, s)
  {
    hide Listing, Without, InsertAt, RemoveAt, IndexOf;
    var x := s.sessions[sid];
    assert SessionOk(env, s.db, x);
    if x.phase.Locked? {
      LockedMoves(env, s, sid);
    } else if x.phase.Checked? {
      var newId := CheckedMoves(env, s, sid);
    } else if x.phase.RowRetired? {
      assert Perform(env, s, ReadList(sid)).Some?;
    } else {
      WritingMoves(env, s, sid);
    }
  }

  lemma AnswerSessionMoves(env: Env, s: State, sid: Sid)
    requires SessionsOk(env, s) && sid in s.sessions && s.sessions[sid].op.SaveAnswer?
    requires s.sessions[sid].phase.ShareLocked? ==> forall o :: o in s.sessions ==> !s.sessions[o].phase.Upserted?
    requires s.sessions[sid].phase.Begun? ==> forall o :: o in s.sessions ==> s.sessions[o].op.SaveAnswer?
    ensures SomeoneCanMove(env, s)
  {
    hide Listing, Without, InsertAt, RemoveAt, IndexOf;
    assert SessionOk(env, s.db, s.sessions[sid]);
    if s.sessions[sid].phase.Upserted? {
      assert Perform(env, s, Commit(sid)).Some?;
    } else if s.sessions[sid].phase.ShareLocked? {
      assert Perform(env, s, Upsert(sid)).Some?;
    } else {
      forall o | o in s.sessions
        ensures s.sessions[o].rows == map[]
      {
        assert SessionOk(env, s.db, s.sessions[o]);
      }
      assert Perform(env, s, LockAnswer(sid)).Some?;
    }
  }

  lemma SomeoneMoves(env: Env, s: State)
    requires SessionsOk(env, s) && s.sessions != map[]
    ensures SomeoneCanMove(env, s)
  {
    hide SomeoneCanMove, AnswerAllowed, SaveRest, Plan, Listing, ValidAnswer, ValidCriterion;
    if o :| o in s.sessions && s.sessions[o].phase.Upserted? {
      assert SessionOk(env, s.db, s.sessions[o]);
      AnswerSessionMoves(env, s, o);
    } else if o :| o in s.sessions && s.sessions[o].phase.ShareLocked? {
      assert SessionOk(env, s.db, s.sessions[o]);
      AnswerSessionMoves(env, s, o);
    } else if o :| o in s.sessions && !s.sessions[o].op.SaveAnswer? {
      CriterionSessionMoves(env, s, o);
    } else {
      var o :| o in s.sessions;
      AnswerSessionMoves(env, s, o);
    }
  }

  /** The row locks of the checklist operations never leave everyone waiting. */
  lemma NoDeadlock(env: Env, db0: Db, steps: seq<Step>, s: State)
    requires Exec(env, Initial(db0), steps) == Some(s) && s.sessions != map[]
    ensures SomeoneCanMove(env, s)
  {
    RunKeeps(env, db0, Initial(db0), steps);
    SomeoneMoves(env, s);
  }

  // ---- completion ----

  // A bound on the steps a session has left, against the tables committed now.
  function Remaining(t: Table, x: Session): nat {
    match x.phase
    case Begun => 3
    case ShareLocked => 2
    case Upserted => 1
    case Locked =>
      if x.op.SaveAnswer? then 1
      else |Active(t, FamilyOf(x.op))| + (if x.op.Reorder? then |x.op.ids| else 0) + 4
    case Checked(rest) => |rest| + 3
    case RowRetired => if x.op.SaveAnswer? then 1 else |Active(t, FamilyOf(x.op))| + 2
    case Writing(ids, k) => if k <= |ids| then |ids| - k + 1 else 1
  }

  ghost function TotalRemaining(t: Table, sessions: map<Sid, Session>): nat {
    if sessions == map[] then 0 else
      var o :| o in sessions;
      Remaining(t, sessions[o]) + TotalRemaining(t, sessions - {o})
  }

  lemma {:induction false} TotalWithout(t: Table, sessions: map<Sid, Session>, o: Sid)
    requires o in sessions
    ensures TotalRemaining(t, sessions) == Remaining(t, sessions[o]) + TotalRemaining(t, sessions - {o})
    decreases |sessions|
  {
    hide Remaining;
    var p :| p in sessions &&
      TotalRemaining(t, sessions) == Remaining(t, sessions[p]) + TotalRemaining(t, sessions - {p});
    if p != o {
      SizeWithout(sessions, p);
      SizeWithout(sessions, o);
      TotalWithout(t, sessions - {p}, o);
      TotalWithout(t, sessions - {o}, p);
      assert sessions - {p} - {o} == sessions - {o} - {p};
    }
  }

  lemma SizeWithout(sessions: map<Sid, Session>, o: Sid)
    requires o in sessions
    ensures |sessions - {o}| < |sessions|
  {
    assert (sessions - {o}).Keys == sessions.Keys - {o};
    assert |(sessions - {o}).Keys| == |sessions - {o}| && |sessions.Keys| == |sessions|;
  }

  lemma {:induction false} TotalSame(t: Table, u: Table, sessions: map<Sid, Session>)
    requires forall o :: o in sessions ==> Remaining(t, sessions[o]) == Remaining(u, sessions[o])
    ensures TotalRemaining(t, sessions) == TotalRemaining(u, sessions)
    decreases |sessions|
  {
    hide Remaining;
    if sessions != map[] {
      var o :| o in sessions;
      SizeWithout(sessions, o);
      TotalWithout(t, sessions, o);
      TotalWithout(u, sessions, o);
      TotalSame(t, u, sessions - {o});
    }
  }

  // The step does not finish the session: it alone changes, and nothing is committed.
  lemma RunningFrame(env: Env, s: State, step: Step, s': State)
    requires !step.Begin? && Perform(env, s, step) == Some(s') && step.sid in s'.sessions
    ensures step.sid in s.sessions
    ensures s'.db == s.db && s'.sessions == s.sessions[step.sid := s'.sessions[step.sid]]
  {
    hide Listing, InsertAt, Precheck, AnswerAllowed, SavedRow, RowFree, NoWriter, AnswerFree, Active, SaveRest;
  }

  lemma ReadListShrinks(env: Env, s: State, sid: Sid, s': State)
    requires sid in s.sessions && SessionOk(env, s.db, s.sessions[sid])
    requires DoReadList(s, sid, s.sessions[sid]) == Some(s') && sid in s'.sessions
    ensures Remaining(s.db.criteria, s'.sessions[sid]) < Remaining(s.db.criteria, s.sessions[sid])
  {
    hide Listing, Precheck, Plan, SaveRest, Active;
    var x, t := s.sessions[sid], s.db.criteria;
    if x.op.Save? {
      assert View(s, x) == t;
      RestNoLonger(t, x.op.c);
    } else if x.op.Delete? {
      RetiredShorter(t, View(s, x), x.op.family, x.op.id);
    }
  }

  lemma WorkShrinks(env: Env, s: State, step: Step, s': State)
    requires !step.Begin? && !step.ReadList? && Perform(env, s, step) == Some(s') && step.sid in s'.sessions
    ensures step.sid in s.sessions
    ensures Remaining(s.db.criteria, s'.sessions[step.sid]) < Remaining(s.db.criteria, s.sessions[step.sid])
  {
    hide Listing, Precheck, AnswerAllowed, SavedRow, RowFree, NoWriter, AnswerFree, Active;
  }

  // A step of its own that leaves the session running leaves it less to do.
  lemma SessionShrinks(env: Env, s: State, step: Step, s': State)
    requires SessionsOk(env, s) && !step.Begin? && Perform(env, s, step) == Some(s') && step.sid in s'.sessions
    ensures step.sid in s.sessions
    ensures s'.db == s.db && s'.sessions == s.sessions[step.sid := s'.sessions[step.sid]]
    ensures Remaining(s.db.criteria, s'.sessions[step.sid]) < Remaining(s.db.criteria, s.sessions[step.sid])
  {
    hide DoReadList, DoWriteRow, DoWritePosition, DoLockAnswer, DoUpsert, DoCommit, Remaining, SessionOk;
    RunningFrame(env, s, step, s');
    if step.ReadList? {
      ReadListShrinks(env, s, step.sid, s');
    } else {
      WorkShrinks(env, s, step, s');
    }
  }

  lemma RestNoLonger(t: Table, c: HousingCriterion)
    ensures SaveRest(t, c).Ok? ==> |SaveRest(t, c).value| <= |Active(t, c.family)|
  {
    hide Listing, IndexOf;
    ListingSorted(t, c.family);
  }

  lemma RetiredShorter(t: Table, u: Table, f: Id, id: Id)
    requires id in Active(t, f) && u == Retire(t, id)
    ensures |Listing(u, f)| < |Active(t, f)|
  {
    ListingSorted(u, f);
    assert Active(u, f) == Active(t, f) - {id};
  }

  // What the end of a session does to the state.
  lemma EndingFrame(env: Env, s: State, step: Step, s': State)
    requires !step.Begin? && Perform(env, s, step) == Some(s') && step.sid !in s'.sessions
    ensures step.sid in s.sessions && s'.sessions == s.sessions - {step.sid}
    ensures s'.db.criteria == s.db.criteria ||
            (!s.sessions[step.sid].op.SaveAnswer? && s'.db.criteria == s.db.criteria + s.sessions[step.sid].rows)
  {
    hide Listing, InsertAt, Precheck, AnswerAllowed, SavedRow, RowFree, NoWriter, AnswerFree, Active, SaveRest;
  }

  lemma ForeignRemaining(env: Env, db: Db, x: Session, y: Session)
    requires SessionOk(env, db, x) && Compatible(x, y) && !x.op.SaveAnswer?
    ensures Remaining(db.criteria + x.rows, y) == Remaining(db.criteria, y)
  {
    hide Listing, Precheck, Plan, SaveRest, Progress;
    if !y.op.SaveAnswer? {
      assert Foreign(db.criteria, x.rows, FamilyOf(y.op));
      ForeignListing(db.criteria, x.rows, FamilyOf(y.op));
    }
  }

  // A session that ends takes only its own work with it.
  lemma OthersRemain(env: Env, s: State, step: Step, s': State, o: Sid)
    requires SessionsOk(env, s) && !step.Begin? && Perform(env, s, step) == Some(s') && step.sid !in s'.sessions
    requires o in s.sessions && o != step.sid
    ensures o in s'.sessions && s'.sessions[o] == s.sessions[o]
    ensures Remaining(s'.db.criteria, s.sessions[o]) == Remaining(s.db.criteria, s.sessions[o])
  {
    hide Perform, Remaining, SessionOk, Compatible;
    EndingFrame(env, s, step, s');
    if s'.db.criteria != s.db.criteria {
      ForeignRemaining(env, s.db, s.sessions[step.sid], s.sessions[o]);
    }
  }

  /** Every step but a new operation's first leaves less to do in all. */
  lemma StepShrinks(env: Env, s: State, step: Step, s': State)
    requires SessionsOk(env, s) && !step.Begin? && Perform(env, s, step) == Some(s')
    ensures TotalRemaining(s'.db.criteria, s'.sessions) < TotalRemaining(s.db.criteria, s.sessions)
  {
    hide Perform, Remaining, SessionsOk;
    var sid, t := step.sid, s.db.criteria;
    if sid in s'.sessions {
      SessionShrinks(env, s, step, s');
      TotalWithout(t, s.sessions, sid);
      TotalWithout(t, s'.sessions, sid);
      assert s'.sessions - {sid} == s.sessions - {sid};
    } else {
      EndingFrame(env, s, step, s');
      TotalWithout(t, s.sessions, sid);
      forall o | o in s'.sessions
        ensures Remaining(t, s'.sessions[o]) == Remaining(s'.db.criteria, s'.sessions[o])
      {
        OthersRemain(env, s, step, s', o);
      }
      TotalSame(t, s'.db.criteria, s'.sessions);
      SomethingRemains(t, s.sessions[sid]);
    }
  }

  lemma SomethingRemains(t: Table, x: Session)
    ensures Remaining(t, x) > 0
  {
  }

  // Only steps of operations under way, and none of them a rollback.
  predicate Working(steps: seq<Step>) {
    forall i :: 0 <= i < |steps| ==> !steps[i].Begin? && !steps[i].Abort?
  }

  lemma ExecOneMore(env: Env, s: State, step: Step, rest: seq<Step>)
    requires Perform(env, s, step).Some?
    ensures Exec(env, s, [step] + rest) == Exec(env, Perform(env, s, step).value, rest)
    decreases |rest|
  {
    hide Perform;
    var all := [step] + rest;
    if rest == [] {
      assert all == [step] && all[..0] == [];
      assert Exec(env, s, all[..0]) == Some(s);
    } else {
      assert all[..|all| - 1] == [step] + rest[..|rest| - 1];
      ExecOneMore(env, s, step, rest[..|rest| - 1]);
    }
  }

  lemma {:induction false} CanFinishFrom(env: Env, db0: Db, s: State) returns (steps: seq<Step>)
    requires Inv(env, db0, s)
    ensures Working(steps) && Exec(env, s, steps).Some? && Exec(env, s, steps).value.sessions == map[]
    decreases TotalRemaining(s.db.criteria, s.sessions)
  {
    hide Perform, SessionsOk, TotalRemaining;
    if s.sessions == map[] {
      steps := [];
    } else {
      SomeoneMoves(env, s);
      var step: Step :| !step.Begin? && !step.Abort? && Perform(env, s, step).Some?;
      var next := Perform(env, s, step).value;
      StepKeeps(env, db0, s, step);
      StepShrinks(env, s, step, next);
      var rest := CanFinishFrom(env, db0, next);
      ExecOneMore(env, s, step, rest);
      steps := [step] + rest;
    }
  }

  /** From every reachable state the operations under way can all be brought to
      their end, with no new ones and without rolling any back. */
  lemma EveryoneCanFinish(env: Env, db0: Db, steps: seq<Step>, s: State)
    requires Exec(env, Initial(db0), steps) == Some(s)
    ensures exists more :: Working(more) && Exec(env, s, more).Some? && Exec(env, s, more).value.sessions == map[]
  {
    RunKeeps(env, db0, Initial(db0), steps);
    var more := CanFinishFrom(env, db0, s);
  }

  /** And they end whatever the order: no run without new operations is longer
      than the work left. */
  lemma {:induction false} RunsEnd(env: Env, db0: Db, s: State, steps: seq<Step>)
    requires Inv(env, db0, s) && Exec(env, s, steps).Some?
    requires forall i :: 0 <= i < |steps| ==> !steps[i].Begin?
    ensures |steps| + TotalRemaining(Exec(env, s, steps).value.db.criteria, Exec(env, s, steps).value.sessions)
            <= TotalRemaining(s.db.criteria, s.sessions)
  {
    if steps != [] {
      hide Perform, TotalRemaining, SessionsOk;
      var n := |steps| - 1;
      RunsEnd(env, db0, s, steps[..n]);
      RunKeeps(env, db0, s, steps[..n]);
      StepShrinks(env, Exec(env, s, steps[..n]).value, steps[n], Exec(env, s, steps).value);
    }
  }

  // ---- starting ----

  /** An operation that passes the checks made before any lock starts at once,
      unless it edits a family's criteria while another session does; one that
      fails them ends at once. */
  lemma StartsUnlessFamilyTaken(env: Env, s: State, sid: Sid, op: Op)
    requires sid !in s.sessions
    ensures Perform(env, s, Begin(sid, op)).Some? <==>
      || Precheck(env, op).Err?
      || op.SaveAnswer?
      || forall o :: o in s.sessions && !s.sessions[o].op.SaveAnswer? ==> FamilyOf(s.sessions[o].op) != FamilyOf(op)
    ensures Perform(env, s, Begin(sid, op)).Some? ==>
      var s' := Perform(env, s, Begin(sid, op)).value;
      && s'.db == s.db
      && (Precheck(env, op).Err? ==> s' == s.(log := s.log + [Entry(op, NO_ID, Err(Precheck(env, op).error))]))
      && (Precheck(env, op).Ok? ==>
            s'.log == s.log && s'.sessions.Keys == s.sessions.Keys + {sid} && s'.sessions[sid].op == op)
  {
    hide Precheck;
  }

  /** Saving an answer waits for nothing but a session writing its criterion's row
      and, once that row is share-locked, one that has written the same answer. */
  lemma AnswersWaitOnlyFor(env: Env, s: State, sid: Sid)
    requires sid in s.sessions && s.sessions[sid].op.SaveAnswer?
    ensures var x, a := s.sessions[sid], s.sessions[sid].op.a;
      && (Perform(env, s, LockAnswer(sid)).Some? <==>
            && x.phase.Begun?
            && (|| !AnswerAllowed(env, s.db.criteria, x.op.actor, a)
                || forall o :: o in s.sessions && a.criterion in s.sessions[o].rows ==> o == sid))
      && (Perform(env, s, Upsert(sid)).Some? <==>
            && x.phase.ShareLocked?
            && forall o :: o in s.sessions && o != sid && s.sessions[o].op.SaveAnswer? && s.sessions[o].phase.Upserted? ==>
                 (s.sessions[o].op.a.home, s.sessions[o].op.a.criterion) != (a.home, a.criterion))
  {
    hide AnswerAllowed;
  }

  // The session is the only one and runs the operation, or has ended with one entry for it.
  ghost predicate Alone(log: seq<Entry>, s: State, sid: Sid, op: Op) {
    || (s.sessions.Keys == {sid} && s.sessions[sid].op == op && s.log == log)
    || (s.sessions == map[] && |s.log| == |log| + 1 && s.log[..|log|] == log && s.log[|log|].op == op)
  }

  lemma AloneStep(env: Env, log: seq<Entry>, s: State, sid: Sid, op: Op, step: Step)
    requires Alone(log, s, sid, op) && !step.Begin? && !step.Abort? && Perform(env, s, step).Some?
    ensures Alone(log, Perform(env, s, step).value, sid, op)
  {
    hide Listing, Plan, SaveRest, InsertAt, Precheck, AnswerAllowed, SavedRow, View, RowFree, NoWriter, AnswerFree, Active;
    var s' := Perform(env, s, step).value;
    assert step.sid == sid;
    assert s'.sessions.Keys == {sid} || s'.sessions.Keys == {};
  }

  lemma {:induction false} AloneRun(env: Env, log: seq<Entry>, s: State, sid: Sid, op: Op, steps: seq<Step>)
    requires Alone(log, s, sid, op) && Working(steps) && Exec(env, s, steps).Some?
    ensures Alone(log, Exec(env, s, steps).value, sid, op)
  {
    if steps != [] {
      hide Alone, Perform;
      AloneRun(env, log, s, sid, op, steps[..|steps| - 1]);
      AloneStep(env, log, Exec(env, s, steps[..|steps| - 1]).value, sid, op, steps[|steps| - 1]);
    }
  }

  /** Every operation can run: once the sessions under way have ended, any
      operation can be started and brought to an end by its own steps, and then
      the log has one more entry, the tables and the outcome being those of the
      operation alone. */
  lemma OperationCanRun(env: Env, db0: Db, steps: seq<Step>, s: State, sid: Sid, op: Op) returns (more: seq<Step>, e: Entry)
    requires Exec(env, Initial(db0), steps) == Some(s) && s.sessions == map[]
    ensures Working(more) && e.op == op && Exec(env, s, [Begin(sid, op)] + more).Some?
    ensures var s' := Exec(env, s, [Begin(sid, op)] + more).value;
      && s'.sessions == map[] && s'.log == s.log + [e]
      && match Apply(env, s.db, op, e.newId)
         case Ok(db') => e.outcome.Ok? && s'.db == db'
         case Err(error) => e.outcome == Err(error) && s'.db == s.db
  {
    hide Apply, Precheck, SessionsOk, Perform;
    RunKeeps(env, db0, Initial(db0), steps);
    StartsUnlessFamilyTaken(env, s, sid, op);
    StepKeeps(env, db0, s, Begin(sid, op));
    var begun := Perform(env, s, Begin(sid, op)).value;
    more := CanFinishFrom(env, db0, begun);
    ExecOneMore(env, s, Begin(sid, op), more);
    assert Alone(s.log, begun, sid, op);
    AloneRun(env, s.log, begun, sid, op, more);
    var s' := Exec(env, begun, more).value;
    assert s'.sessions.Keys == {};
    e := s'.log[|s.log|];
    assert s'.log == s.log + [e];
    RunKeeps(env, db0, begun, more);
    LastReplayed(env, db0, s.log, s.db, e, s'.db);
  }

  lemma LastReplayed(env: Env, db0: Db, log: seq<Entry>, db: Db, e: Entry, db': Db)
    requires Replay(env, db0, log) == Some(db) && Replay(env, db0, log + [e]) == Some(db')
    ensures match Apply(env, db, e.op, e.newId)
            case Ok(after) => e.outcome.Ok? && db' == after
            case Err(error) => e.outcome == Err(error) && db' == db
  {
    hide Apply;
    assert (log + [e])[..|log|] == log;
  }

  // ---- what commits and rollbacks do ----

  /** Committing a session makes the tables what its operation alone makes of
      the tables committed until then, and says so to its caller. */
  lemma CommitTakesEffect(env: Env, db0: Db, steps: seq<Step>, s: State, sid: Sid, s': State)
    requires Exec(env, Initial(db0), steps) == Some(s) && Perform(env, s, Commit(sid)) == Some(s')
    ensures sid in s.sessions && sid !in s'.sessions
    ensures Apply(env, s.db, s.sessions[sid].op, s.sessions[sid].newId) == Ok(s'.db)
    ensures s'.log == s.log + [Entry(s.sessions[sid].op, s.sessions[sid].newId, Ok(()))]
  {
    hide Apply, SessionOk;
    RunKeeps(env, db0, Initial(db0), steps);
    CommitIsApply(env, s.db, s.sessions[sid]);
  }

  function Forget(s: State, sid: Sid): State {
    s.(sessions := s.sessions - {sid})
  }

  // The same steps without those of one session.
  function Erase(steps: seq<Step>, sid: Sid): seq<Step> {
    if steps == [] then [] else
      var n := |steps| - 1;
      if steps[n].sid == sid then Erase(steps[..n], sid) else Erase(steps[..n], sid) + [steps[n]]
  }

  // None of the session's steps in this run finishes an operation.
  ghost predicate Unfinished(env: Env, s: State, steps: seq<Step>, sid: Sid) {
    steps == [] ||
    var n := |steps| - 1;
    && Unfinished(env, s, steps[..n], sid)
    && (steps[n].sid == sid && Exec(env, s, steps).Some? ==>
          Exec(env, s, steps).value.log == Exec(env, s, steps[..n]).value.log)
  }

  lemma ForgottenRows(s: State, sid: Sid, o: Sid, id: Id)
    requires o != sid
    ensures RowFree(s, o, id) ==> RowFree(Forget(s, sid), o, id)
    ensures NoWriter(s, o, id) ==> NoWriter(Forget(s, sid), o, id)
  {
  }

  // Another session's step does not need this one, and does not notice it gone.
  lemma OthersStepAlike(env: Env, s: State, step: Step, sid: Sid)
    requires step.sid != sid && Perform(env, s, step).Some?
    ensures Perform(env, Forget(s, sid), step) == Some(Forget(Perform(env, s, step).value, sid))
  {
    hide Listing, Plan, SaveRest, InsertAt, Precheck, AnswerAllowed, Active, SavedRow, RowFree, NoWriter;
    var t := Forget(s, sid);
    var s' := Perform(env, s, step).value;
    forall id
      ensures RowFree(s, step.sid, id) ==> RowFree(t, step.sid, id)
      ensures NoWriter(s, step.sid, id) ==> NoWriter(t, step.sid, id)
    {
      ForgottenRows(s, sid, step.sid, id);
    }
    if step.sid in s'.sessions {
      assert s.sessions[step.sid := s'.sessions[step.sid]] - {sid} == t.sessions[step.sid := s'.sessions[step.sid]];
    }
    assert s.sessions - {step.sid} - {sid} == t.sessions - {step.sid};
  }

  lemma OwnUnfinishedStep(env: Env, s: State, step: Step, sid: Sid)
    requires step.sid == sid && Perform(env, s, step).Some?
    requires Perform(env, s, step).value.log == s.log
    ensures Forget(Perform(env, s, step).value, sid) == Forget(s, sid)
  {
    hide Listing, Plan, SaveRest, InsertAt, Precheck, AnswerAllowed, Active, SavedRow, RowFree, NoWriter;
    var s' := Perform(env, s, step).value;
    assert |s'.log| == |s.log|;
    assert s'.sessions - {sid} == s.sessions - {sid};
  }

  lemma {:induction false} RunWithout(env: Env, s: State, steps: seq<Step>, sid: Sid)
    requires Exec(env, s, steps).Some? && Unfinished(env, s, steps, sid)
    ensures Exec(env, Forget(s, sid), Erase(steps, sid)) == Some(Forget(Exec(env, s, steps).value, sid))
  {
    if steps != [] {
      hide Perform, Forget;
      var n := |steps| - 1;
      var m := Exec(env, s, steps[..n]).value;
      RunWithout(env, s, steps[..n], sid);
      if steps[n].sid == sid {
        OwnUnfinishedStep(env, m, steps[n], sid);
      } else {
        OthersStepAlike(env, m, steps[n], sid);
        var before := Erase(steps[..n], sid);
        assert (before + [steps[n]])[..|before|] == before;
      }
    }
  }

  /** A session that only ever rolled back leaves no trace: the other sessions'
      steps alone form a run to the very same state. */
  lemma RolledBackLeavesNoTrace(env: Env, s: State, steps: seq<Step>, sid: Sid, s': State)
    requires sid !in s.sessions && Exec(env, s, steps) == Some(s') && sid !in s'.sessions
    requires Unfinished(env, s, steps, sid)
    ensures Exec(env, s, Erase(steps, sid)) == Some(s')
  {
    RunWithout(env, s, steps, sid);
    assert s.sessions - {sid} == s.sessions && s'.sessions - {sid} == s'.sessions;
  }
}
