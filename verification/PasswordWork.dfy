/** The operations that hash or verify passwords, and the slots they hold while
    they do.  What the repository and the hashing library answer is an argument. */
module PasswordWork {
  import opened Prelude
  import opened AuthLimit
  import opened LimiterRuns

  datatype User = User(id: string, email: string, disabled: bool)

  // What beginning password work answers, before any repository or hashing call.
  function Began(cfg: Config, t: Table, slots: nat, canceled: bool, canceledLater: bool, account: string, now: int): Result<()> {
    if canceled then Err(Canceled)
    else
      var retry := Step(cfg, t, AccountKey(account), cfg.accountLimit, now).1;
      if retry > 0 then Err(Limited(retry))
      else if canceledLater then Err(Canceled)
      else if slots >= cfg.maxConcurrent then Err(Limited(1_000_000_000))
      else Ok(())
  }

  /** Work begins exactly for a live context whose account the limiter admits
      and that finds a slot free; each refusal names the first that failed. */
  lemma WorkBegins(cfg: Config, t: Table, slots: nat, canceled: bool, canceledLater: bool, account: string, now: int)
    ensures var began := Began(cfg, t, slots, canceled, canceledLater, account, now);
      var retry := Step(cfg, t, AccountKey(account), cfg.accountLimit, now).1;
      && (began.Ok? <==> !canceled && retry <= 0 && !canceledLater && slots < cfg.maxConcurrent)
      && (began == Err(Canceled) <==> canceled || (retry <= 0 && canceledLater))
      && (!canceled && retry > 0 ==> began == Err(Limited(retry)))
      && (!canceled && retry <= 0 && !canceledLater && slots >= cfg.maxConcurrent ==> began == Err(Limited(1_000_000_000)))
  {
    hide Step;
  }

  // The accounts under which the limiter counts the operations.
  function LoginAccount(email: string): string { "login:" + email }
  function CreateAccount(email: string): string { "create:" + email }
  function PasswordAccount(userID: string): string { "password:" + userID }

  /** Each operation counts each email or user by itself. */
  lemma AccountsAreSeparate(x: string, y: string)
    ensures LoginAccount(x) == LoginAccount(y) <==> x == y
    ensures CreateAccount(x) == CreateAccount(y) <==> x == y
    ensures PasswordAccount(x) == PasswordAccount(y) <==> x == y
    ensures LoginAccount(x) != CreateAccount(y) && LoginAccount(x) != PasswordAccount(y)
    ensures CreateAccount(x) != PasswordAccount(y)
  {
    if LoginAccount(x) == LoginAccount(y) { PrefixInjective("login:", x, y); }
    if CreateAccount(x) == CreateAccount(y) { PrefixInjective("create:", x, y); }
    if PasswordAccount(x) == PasswordAccount(y) { PrefixInjective("password:", x, y); }
    assert LoginAccount(x)[0] == 'l' && CreateAccount(x)[0] == 'c';
    assert CreateAccount(y)[0] == 'c' && PasswordAccount(y)[0] == 'p';
  }

  class AuthService {
    const limits: Limiter
    var external: nat    // repository and hashing calls made so far

    constructor (limits: Limiter)
      ensures this.limits == limits && external == 0
    {
      this.limits := limits;
      external := 0;
    }

    // `canceled` and `canceledLater` are the context's state at its two checks.
    method BeginPasswordWork(canceled: bool, canceledLater: bool, account: string, now: int) returns (r: Result<()>)
      requires ValidConfig(limits.cfg)
      modifies limits
      ensures r == Began(limits.cfg, old(Table(limits.buckets, limits.nextCleanup)), old(limits.slots),
                         canceled, canceledLater, account, now)
      ensures limits.slots == old(limits.slots) + if r.Ok? then 1 else 0
      ensures Table(limits.buckets, limits.nextCleanup) ==
              if canceled then old(Table(limits.buckets, limits.nextCleanup))
              else Step(limits.cfg, old(Table(limits.buckets, limits.nextCleanup)),
                        AccountKey(account), limits.cfg.accountLimit, now).0
    {
      if canceled { return Err(Canceled); }
      var retry := limits.AllowAccount(account, now);
      if retry > 0 { return Err(Limited(retry)); }
      r := limits.Acquire(canceledLater);
    }

    // Whatever the calls answer, the slot is free again on return; a login that
    // was refused never reached the repository.
    method Login(email: string, now: int, canceled: bool, canceledLater: bool,
                 found: Result<User>, verified: Result<bool>) returns (r: Result<User>)
      requires ValidConfig(limits.cfg)
      modifies this`external, limits
      ensures limits.slots == old(limits.slots)
      ensures var began := Began(limits.cfg, old(Table(limits.buckets, limits.nextCleanup)), old(limits.slots),
                                 canceled, canceledLater, LoginAccount(email), now);
        && (began.Err? ==> r == Err(began.error) && external == old(external))
        && (began.Ok? ==> external == old(external) + if found.Ok? && !found.value.disabled then 2 else 1)
        && (r.Ok? <==> began.Ok? && found.Ok? && !found.value.disabled && verified == Ok(true))
        && (r.Ok? ==> r == found)
        && (r == Err(DisabledUser) <==>
              began.Ok? && if found.Err? then found == Err(DisabledUser)
                           else found.value.disabled || verified == Err(DisabledUser))
        && (r == Err(Unauthenticated) <==>
              began.Ok? && if found.Err? then found == Err(Unauthenticated)
                           else !found.value.disabled && (verified == Ok(false) || verified == Err(Unauthenticated)))
        && (began.Ok? && found.Err? ==> r == Err(found.error))
        && (began.Ok? && found.Ok? && !found.value.disabled && verified.Err? ==> r == Err(verified.error))
    {
      var began := BeginPasswordWork(canceled, canceledLater, LoginAccount(email), now);
      if began.Err? { return Err(began.error); }
      external := external + 1;
      if found.Err? {
        r := Err(found.error);
      } else if found.value.disabled {
        r := Err(DisabledUser);
      } else {
        external := external + 1;
        if verified.Err? {
          r := Err(verified.error);
        } else if !verified.value {
          r := Err(Unauthenticated);
        } else {
          r := Ok(found.value);
        }
      }
      limits.Release();
    }

    method CreateUser(email: string, badRequest: bool, now: int, canceled: bool, canceledLater: bool,
                      hashed: Result<string>, created: Result<User>) returns (r: Result<User>)
      requires ValidConfig(limits.cfg)
      modifies this`external, limits
      ensures limits.slots == old(limits.slots)
      ensures var began := Began(limits.cfg, old(Table(limits.buckets, limits.nextCleanup)), old(limits.slots),
                                 canceled, canceledLater, CreateAccount(email), now);
        && (badRequest ==> r == Err(InvalidArgument) && unchanged(limits))
        && (badRequest || began.Err? ==> external == old(external))
        && (!badRequest && began.Err? ==> r == Err(began.error))
        && (!badRequest && began.Ok? && hashed.Err? ==> r == Err(hashed.error) && external == old(external) + 1)
        && (!badRequest && began.Ok? && hashed.Ok? ==> r == created && external == old(external) + 2)
    {
      if badRequest { return Err(InvalidArgument); }
      var began := BeginPasswordWork(canceled, canceledLater, CreateAccount(email), now);
      if began.Err? { return Err(began.error); }
      external := external + 1;
      if hashed.Err? {
        r := Err(hashed.error);
      } else {
        external := external + 1;
        r := created;
      }
      limits.Release();
    }

    method ChangePassword(userID: string, badRequest: bool, now: int, canceled: bool, canceledLater: bool,
                          found: Result<User>, verified: Result<bool>, hashed: Result<string>, updated: Result<()>)
      returns (r: Result<()>)
      requires ValidConfig(limits.cfg)
      modifies this`external, limits
      ensures limits.slots == old(limits.slots)
      ensures var began := Began(limits.cfg, old(Table(limits.buckets, limits.nextCleanup)), old(limits.slots),
                                 canceled, canceledLater, PasswordAccount(userID), now);
        && (badRequest ==> r == Err(InvalidArgument) && unchanged(limits))
        && (badRequest || began.Err? ==> external == old(external))
        && (!badRequest && began.Err? ==> r == Err(began.error))
        && (r.Ok? <==> !badRequest && began.Ok? && found.Ok? && !found.value.disabled && verified == Ok(true)
                       && hashed.Ok? && updated.Ok?)
        && (!badRequest && began.Ok? && found.Err? ==> r == Err(found.error) && external == old(external) + 1)
        && (!badRequest && began.Ok? && found.Ok? && found.value.disabled ==>
              r == Err(DisabledUser) && external == old(external) + 1)
        && (!badRequest && began.Ok? && found.Ok? && !found.value.disabled && verified != Ok(true) ==>
              r == Err(if verified.Err? then verified.error else Unauthenticated) && external == old(external) + 2)
        && (!badRequest && began.Ok? && found.Ok? && !found.value.disabled && verified == Ok(true) ==>
              if hashed.Err? then r == Err(hashed.error) && external == old(external) + 3
              else r == updated && external == old(external) + 4)
    {
      if badRequest { return Err(InvalidArgument); }
      var began := BeginPasswordWork(canceled, canceledLater, PasswordAccount(userID), now);
      if began.Err? { return Err(began.error); }
      external := external + 1;
      if found.Err? {
        r := Err(found.error);
      } else if found.value.disabled {
        r := Err(DisabledUser);
      } else {
        external := external + 1;
        if verified.Err? {
          r := Err(verified.error);
        } else if !verified.value {
          r := Err(Unauthenticated);
        } else {
          external := external + 1;
          if hashed.Err? {
            r := Err(hashed.error);
          } else {
            external := external + 1;
            r := updated;
          }
        }
      }
      limits.Release();
    }

    // Only the semaphore guards this one: no account is counted.
    method EnsureBootstrapAdmin(badRequest: bool, canceled: bool, hasAdmin: Result<bool>, hashed: Result<string>,
                                existing: Result<User>, promoted: Result<User>, created: Result<User>)
      returns (r: Result<Option<User>>)
      requires ValidConfig(limits.cfg)
      modifies this`external, limits`slots
      ensures limits.slots == old(limits.slots)
      ensures badRequest ==> r == Err(InvalidArgument) && external == old(external)
      ensures !badRequest && hasAdmin.Err? ==> r == Err(hasAdmin.error)
      ensures !badRequest && hasAdmin == Ok(true) ==> r == Ok(None) && external == old(external) + 1
      ensures !badRequest && hasAdmin == Ok(false) && (canceled || old(limits.slots) >= limits.cfg.maxConcurrent) ==>
        external == old(external) + 1 && r == Err(if canceled then Canceled else Limited(1_000_000_000))
      ensures !badRequest && hasAdmin == Ok(false) && !canceled && old(limits.slots) < limits.cfg.maxConcurrent ==>
        && (r.Ok? <==> hashed.Ok? && ((existing.Ok? && promoted.Ok?) || (existing == Err(NotFound) && created.Ok?)))
        && (r.Ok? ==> r == Ok(Some(if existing.Ok? then promoted.value else created.value)))
        && (hashed.Err? ==> r == Err(hashed.error) && external == old(external) + 2)
        && (hashed.Ok? && existing.Err? && existing.error != NotFound ==>
              r == Err(existing.error) && external == old(external) + 3)
        && (hashed.Ok? && (existing.Ok? || existing.error == NotFound) ==> external == old(external) + 4)
        && (hashed.Ok? && existing.Ok? && promoted.Err? ==> r == Err(promoted.error))
        && (hashed.Ok? && existing == Err(NotFound) && created.Err? ==> r == Err(created.error))
    {
      if badRequest { return Err(InvalidArgument); }
      external := external + 1;
      if hasAdmin.Err? { return Err(hasAdmin.error); }
      if hasAdmin.value { return Ok(None); }
      var slot := limits.Acquire(canceled);
      if slot.Err? { return Err(slot.error); }
      external := external + 1;
      if hashed.Err? {
        r := Err(hashed.error);
      } else {
        external := external + 1;
        if existing.Ok? {
          external := external + 1;
          r := if promoted.Ok? then Ok(Some(promoted.value)) else Err(promoted.error);
        } else if existing.error != NotFound {
          r := Err(existing.error);
        } else {
          external := external + 1;
          r := if created.Ok? then Ok(Some(created.value)) else Err(created.error);
        }
      }
      limits.Release();
    }
  }

  // ---- many requests at once ----

  datatype Kind = Login | Create | Change | Bootstrap

  datatype Phase =
    | Entered                      // nothing checked yet
    | Admitted(at: int)            // counted by the limiter at that clock reading
    | Holding(at: int, done: nat)  // slot held, `done` guarded calls finished
    | Returned

  datatype Request = Request(kind: Kind, account: string, canceled: bool, phase: Phase)

  // `calls` are the limiter's calls so far; `started` the requests that got a slot.
  datatype State = State(slots: nat, calls: seq<Call>, requests: map<nat, Request>, started: seq<(Key, int)>)

  // Calls made under the slot when nothing goes wrong.
  function GuardedCalls(k: Kind): nat {
    match k
    case Login => 2       // look up, verify
    case Create => 2      // hash, insert
    case Change => 4      // look up, verify, hash, update
    case Bootstrap => 3   // hash, look up, promote or insert
  }

  datatype Event =
    | Arrive(id: nat, kind: Kind, account: string)
    | Check(id: nat, now: int, noAdmin: bool)   // noAdmin: HasActiveAdmin answered false
    | Take(id: nat)
    | CallReturns(id: nat, ok: bool)
    | Cancel(id: nat)

  function Put(s: State, id: nat, r: Request): State {
    s.(requests := s.requests[id := r])
  }

  // Leaving the operation runs the deferred release.
  function Leave(s: State, id: nat, r: Request): State
    requires s.slots > 0
  {
    Put(s.(slots := s.slots - 1), id, r.(phase := Returned))
  }

  function DoCheck(cfg: Config, s: State, id: nat, r: Request, now: int, noAdmin: bool): Option<State> {
    if !r.phase.Entered? || now < LastTime(s.calls) then None
    else if r.kind.Bootstrap? then
      Some(Put(s, id, r.(phase := if noAdmin then Admitted(now) else Returned)))
    else if r.canceled then Some(Put(s, id, r.(phase := Returned)))
    else
      var call := Account(r.account, now);
      var s' := s.(calls := s.calls + [call]);
      var delay := StepOf(cfg, TableAfter(cfg, s.calls), call).1;
      Some(Put(s', id, r.(phase := if delay > 0 then Returned else Admitted(now))))
  }

  function DoTake(cfg: Config, s: State, id: nat, r: Request): Option<State> {
    if !r.phase.Admitted? then None
    else if r.canceled || s.slots >= cfg.maxConcurrent then Some(Put(s, id, r.(phase := Returned)))
    else
      var begun := if r.kind.Bootstrap? then s.started else s.started + [(AccountKey(r.account), r.phase.at)];
      Some(Put(s.(slots := s.slots + 1, started := begun), id, r.(phase := Holding(r.phase.at, 0))))
  }

  // A guarded call fails, or was the last one: the operation returns.
  function DoCallReturns(s: State, id: nat, r: Request, ok: bool): Option<State> {
    if !r.phase.Holding? || s.slots == 0 then None
    else if ok && r.phase.done + 1 < GuardedCalls(r.kind) then
      Some(Put(s, id, r.(phase := Holding(r.phase.at, r.phase.done + 1))))
    else Some(Leave(s, id, r))
  }

  function Perform(cfg: Config, s: State, e: Event): Option<State> {
    if e.Arrive? then
      if e.id in s.requests then None
      else Some(Put(s, e.id, Request(e.kind, e.account, false, Entered)))
    else if e.id !in s.requests then None
    else
      var r := s.requests[e.id];
      match e
      case Check(id, now, noAdmin) => DoCheck(cfg, s, id, r, now, noAdmin)
      case Take(id) => DoTake(cfg, s, id, r)
      case CallReturns(id, ok) => DoCallReturns(s, id, r, ok)
      case Cancel(id) => Some(Put(s, id, r.(canceled := true)))
      case Arrive(_, _, _) => None
  }

  function Exec(cfg: Config, events: seq<Event>): Option<State> {
    if events == [] then Some(State(0, [], map[], [])) else
      match Exec(cfg, events[..|events| - 1])
      case None => None
      case Some(s) => Perform(cfg, s, events[|events| - 1])
  }

  ghost function Holders(s: State): set<nat> {
    set id | id in s.requests && s.requests[id].phase.Holding?
  }

  ghost predicate SlotsOk(cfg: Config, s: State) {
    s.slots == |Holders(s)| && s.slots <= cfg.maxConcurrent
  }

  predicate HoldsSlot(s: State, id: nat) {
    id in s.requests && s.requests[id].phase.Holding?
  }

  lemma SlotsFollowPhase(cfg: Config, s: State, e: Event)
    requires Perform(cfg, s, e).Some?
    ensures var s' := Perform(cfg, s, e).value;
      && e.id in s'.requests && s'.requests == s.requests[e.id := s'.requests[e.id]]
      && s'.slots == s.slots + (if HoldsSlot(s', e.id) then 1 else 0) - (if HoldsSlot(s, e.id) then 1 else 0)
      && (s'.slots > s.slots ==> s.slots < cfg.maxConcurrent)
  {
    hide StepOf, TableAfter;
  }

  lemma HoldersFollow(s: State, s': State, id: nat)
    requires id in s'.requests && s'.requests == s.requests[id := s'.requests[id]]
    ensures Holders(s') == if HoldsSlot(s', id) then Holders(s) + {id} else Holders(s) - {id}
    ensures id in Holders(s) <==> HoldsSlot(s, id)
  {
  }

  lemma PerformSlots(cfg: Config, s: State, e: Event)
    requires SlotsOk(cfg, s) && Perform(cfg, s, e).Some?
    ensures SlotsOk(cfg, Perform(cfg, s, e).value)
  {
    hide Holders, HoldsSlot, Perform;
    SlotsFollowPhase(cfg, s, e);
    HoldersFollow(s, Perform(cfg, s, e).value, e.id);
    SizeWith(Holders(s), e.id);
  }

  lemma SizeWith(a: set<nat>, x: nat)
    ensures |a + {x}| == if x in a then |a| else |a| + 1
    ensures |a - {x}| == if x in a then |a| - 1 else |a|
  {
    if x in a {
      assert a + {x} == a;
    } else {
      assert a - {x} == a;
    }
  }

  /** In every interleaving the occupied slots are exactly the requests between
      a successful acquire and their return, and never more than the limit. */
  lemma {:induction false} SlotsAreHolders(cfg: Config, events: seq<Event>)
    requires ValidConfig(cfg) && Exec(cfg, events).Some?
    ensures SlotsOk(cfg, Exec(cfg, events).value)
  {
    if events == [] {
      assert Holders(Exec(cfg, events).value) == {};
    } else {
      SlotsAreHolders(cfg, events[..|events| - 1]);
      PerformSlots(cfg, Exec(cfg, events[..|events| - 1]).value, events[|events| - 1]);
    }
  }

  /** A slot is freed by a return of its holder and by nothing else, one at a
      time; cancelling a request frees none. */
  lemma OnlyReturnsFreeSlots(cfg: Config, events: seq<Event>, e: Event)
    requires ValidConfig(cfg) && Exec(cfg, events).Some? && Perform(cfg, Exec(cfg, events).value, e).Some?
    ensures var s, s' := Exec(cfg, events).value, Perform(cfg, Exec(cfg, events).value, e).value;
      && (s'.slots < s.slots <==> e.id in Holders(s) && e.id !in Holders(s'))
      && (s'.slots < s.slots ==> e.CallReturns? && s'.slots == s.slots - 1 && s'.requests[e.id].phase.Returned?)
      && (e.Cancel? ==> s'.slots == s.slots && Holders(s') == Holders(s))
  {
    hide StepOf, TableAfter;
    SlotsAreHolders(cfg, events);
    var s := Exec(cfg, events).value;
    var s' := Perform(cfg, s, e).value;
    assert e.id in Holders(s) <==> e.id in s.requests && s.requests[e.id].phase.Holding?;
    assert e.id in Holders(s') <==> s'.requests[e.id].phase.Holding?;
    if e.Cancel? { assert Holders(s') == Holders(s); }
  }

  /** A request holding a slot can always go on to return it. */
  lemma HolderCanReturn(cfg: Config, events: seq<Event>, id: nat)
    requires ValidConfig(cfg) && Exec(cfg, events).Some? && id in Holders(Exec(cfg, events).value)
    ensures var s := Exec(cfg, events).value;
      && Perform(cfg, s, CallReturns(id, false)).Some?
      && Perform(cfg, s, CallReturns(id, false)).value.slots == s.slots - 1
  {
    SlotsAreHolders(cfg, events);
    var s := Exec(cfg, events).value;
    assert Holders(s) != {};
    assert |Holders(s)| > 0;
  }

  /** A holder returns at its first failing call or with its last one: the second
      of a login or a creation, the fourth of a password change, the third of a
      bootstrap. */
  lemma ReturnsAfterItsCalls(cfg: Config, events: seq<Event>, id: nat, ok: bool)
    requires ValidConfig(cfg) && Exec(cfg, events).Some? && id in Holders(Exec(cfg, events).value)
    ensures var s := Exec(cfg, events).value;
      var r, next := s.requests[id], Perform(cfg, s, CallReturns(id, ok));
      var last := if r.kind.Login? || r.kind.Create? then 2 else if r.kind.Change? then 4 else 3;
      && next.Some?
      && next.value.requests[id].phase ==
         (if ok && r.phase.done + 1 < last then Holding(r.phase.at, r.phase.done + 1) else Returned)
  {
    HolderCanReturn(cfg, events, id);
  }

  /** Taken without others in between, a request's steps begin its work exactly
      when the operation run by itself would; a bootstrap needs a live context
      and a free slot once no administrator is found. */
  lemma StepsBeginAsAlone(cfg: Config, s: State, id: nat, now: int, noAdmin: bool, canceledLater: bool)
    requires id in s.requests && s.requests[id].phase.Entered? && LastTime(s.calls) <= now
    ensures var r := s.requests[id];
      var checked := Perform(cfg, s, Check(id, now, noAdmin));
      && checked.Some?
      && var later := if canceledLater then Perform(cfg, checked.value, Cancel(id)) else checked;
      && later.Some?
      && (later.value.requests[id].phase.Returned? || Perform(cfg, later.value, Take(id)).Some?)
      && var after := if later.value.requests[id].phase.Returned? then later else Perform(cfg, later.value, Take(id));
      && (!r.kind.Bootstrap? ==>
            (HoldsSlot(after.value, id) <==>
             Began(cfg, TableAfter(cfg, s.calls), s.slots, r.canceled, canceledLater, r.account, now).Ok?))
      && (r.kind.Bootstrap? ==>
            (HoldsSlot(after.value, id) <==> noAdmin && !r.canceled && !canceledLater && s.slots < cfg.maxConcurrent))
  {
    hide Step, TableAfter, AccountKey;
  }

  // ---- password work per account ----

  predicate Within(at: int, from: int, w: int) { from <= at < from + w }

  // Password work begun for one key, by the clock reading its admission had.
  function CountStarted(started: seq<(Key, int)>, k: Key, from: int, w: int): nat {
    if started == [] then 0 else
      var n := |started| - 1;
      CountStarted(started[..n], k, from, w) + if started[n].0 == k && Within(started[n].1, from, w) then 1 else 0
  }

  predicate Waits(r: Request, k: Key, from: int, w: int) {
    r.phase.Admitted? && !r.kind.Bootstrap? && AccountKey(r.account) == k && Within(r.phase.at, from, w)
  }

  // Requests admitted for the key and not yet past the semaphore.
  ghost function Waiting(s: State, k: Key, from: int, w: int): set<nat> {
    set id | id in s.requests && Waits(s.requests[id], k, from, w)
  }

  ghost predicate WorkOk(cfg: Config, s: State, k: Key, from: int) {
    && ClockRuns(s.calls)
    && CountStarted(s.started, k, from, cfg.window) + |Waiting(s, k, from, cfg.window)|
       <= CountBetween(History(cfg, s.calls, k), from, cfg.window)
  }

  lemma PutWaiting(s: State, t: State, id: nat, k: Key, from: int, w: int)
    requires id in t.requests && t.requests == s.requests[id := t.requests[id]]
    ensures |Waiting(t, k, from, w)| ==
            |Waiting(s, k, from, w)|
            - (if id in s.requests && Waits(s.requests[id], k, from, w) then 1 else 0)
            + if Waits(t.requests[id], k, from, w) then 1 else 0
  {
    var a, b := Waiting(s, k, from, w), Waiting(t, k, from, w);
    assert b == if Waits(t.requests[id], k, from, w) then (a - {id}) + {id} else a - {id};
    assert id in a <==> id in s.requests && Waits(s.requests[id], k, from, w);
  }

  // A limiter call that answers 0 is one more admission in its key's history.
  lemma CheckedHistory(cfg: Config, calls: seq<Call>, c: Call, k: Key, from: int)
    requires ValidConfig(cfg)
    ensures CountBetween(History(cfg, calls + [c], k), from, cfg.window) ==
            CountBetween(History(cfg, calls, k), from, cfg.window)
            + if KeyOf(c) == k && StepOf(cfg, TableAfter(cfg, calls), c).1 <= 0 && Within(c.now, from, cfg.window) then 1 else 0
  {
    hide IPKey, AccountKey;
    assert (calls + [c])[..|calls|] == calls;
    var h := History(cfg, calls, k);
    var (u, delay) := StepOf(cfg, TableAfter(cfg, calls), c);
    if KeyOf(c) == k && delay <= 0 {
      assert (h + [Admission(c.now, u.buckets[k].until - cfg.window)])[..|h|] == h;
    }
  }

  lemma StartedOneMore(started: seq<(Key, int)>, e: (Key, int), k: Key, from: int, w: int)
    ensures CountStarted(started + [e], k, from, w) ==
            CountStarted(started, k, from, w) + if e.0 == k && Within(e.1, from, w) then 1 else 0
  {
    assert (started + [e])[..|started|] == started;
  }

  lemma PerformWork(cfg: Config, s: State, e: Event, k: Key, from: int)
    requires ValidConfig(cfg) && WorkOk(cfg, s, k, from) && Perform(cfg, s, e).Some?
    ensures WorkOk(cfg, Perform(cfg, s, e).value, k, from)
  {
    hide Waiting, History, CountBetween, CountStarted, StepOf, TableAfter;
    var s' := Perform(cfg, s, e).value;
    PutWaiting(s, s', e.id, k, from, cfg.window);
    if e.Check? {
      CheckedHistory(cfg, s.calls, Account(s.requests[e.id].account, e.now), k, from);
      ClockGoesOn(s.calls, Account(s.requests[e.id].account, e.now));
    }
    if e.Take? {
      StartedOneMore(s.started, (AccountKey(s.requests[e.id].account), s.requests[e.id].phase.at), k, from, cfg.window);
    }
  }

  lemma ClockGoesOn(calls: seq<Call>, c: Call)
    requires ClockRuns(calls) && LastTime(calls) <= c.now
    ensures ClockRuns(calls + [c])
  {
    forall i | 0 <= i < |calls|
      ensures calls[i].now <= c.now
    {
      if i < |calls| - 1 { assert calls[i].now <= calls[|calls| - 1].now; }
    }
  }

  lemma {:induction false} RunWork(cfg: Config, events: seq<Event>, k: Key, from: int)
    requires ValidConfig(cfg) && Exec(cfg, events).Some?
    ensures WorkOk(cfg, Exec(cfg, events).value, k, from)
  {
    if events == [] {
      assert Waiting(Exec(cfg, events).value, k, from, cfg.window) == {};
    } else {
      RunWork(cfg, events[..|events| - 1], k, from);
      PerformWork(cfg, Exec(cfg, events[..|events| - 1]).value, events[|events| - 1], k, from);
    }
  }

  /** However requests interleave, of the requests an account has admitted within
      one window's length at most twice the account limit less one begin their
      password work, at whatever time they get a slot. */
  lemma PasswordWorkPerAccount(cfg: Config, events: seq<Event>, account: string, from: int)
    requires ValidConfig(cfg) && Exec(cfg, events).Some?
    ensures CountStarted(Exec(cfg, events).value.started, AccountKey(account), from, cfg.window) <= 2 * cfg.accountLimit - 1
  {
    RunWork(cfg, events, AccountKey(account), from);
    SlidingWindowBound(cfg, Exec(cfg, events).value.calls, Account(account, 0), from);
  }
}
