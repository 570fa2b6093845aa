/** What holds of the limiter over every run of calls with a clock that never
    goes back. */
module LimiterRuns {
  import opened Prelude
  import opened AuthLimit

  datatype Call = IP(name: string, now: int) | Account(name: string, now: int)

  function KeyOf(c: Call): Key {
    if c.IP? then IPKey(c.name) else AccountKey(c.name)
  }

  function LimitOf(cfg: Config, c: Call): int {
    if c.IP? then cfg.ipLimit else cfg.accountLimit
  }

  /** Every key is always counted against the same limit. */
  lemma OneLimitPerKey(cfg: Config, c: Call, d: Call)
    requires KeyOf(c) == KeyOf(d)
    ensures LimitOf(cfg, c) == LimitOf(cfg, d)
  {
    KeySpacesDisjoint(c.name, d.name);
    KeySpacesDisjoint(d.name, c.name);
  }

  predicate ClockRuns(calls: seq<Call>) {
    && (forall i :: 0 <= i < |calls| ==> calls[i].now >= 0)
    && (forall i, j :: 0 <= i < j < |calls| ==> calls[i].now <= calls[j].now)
  }

  function StepOf(cfg: Config, t: Table, c: Call): (Table, int) {
    Step(cfg, t, KeyOf(c), LimitOf(cfg, c), c.now)
  }

  // The table after a run from a new limiter.
  function TableAfter(cfg: Config, calls: seq<Call>): Table {
    if calls == [] then Table(map[], 0) else
      var n := |calls| - 1;
      StepOf(cfg, TableAfter(cfg, calls[..n]), calls[n]).0
  }

  lemma TableAfterStep(cfg: Config, calls: seq<Call>, j: nat)
    requires 0 < j <= |calls|
    ensures TableAfter(cfg, calls[..j]) == StepOf(cfg, TableAfter(cfg, calls[..j - 1]), calls[j - 1]).0
  {
    hide StepOf;
    assert calls[..j][..j - 1] == calls[..j - 1];
  }

  // The delay call i is given.
  function Answer(cfg: Config, calls: seq<Call>, i: nat): int
    requires i < |calls|
  {
    StepOf(cfg, TableAfter(cfg, calls[..i]), calls[i]).1
  }

  predicate Capped(cfg: Config, calls: seq<Call>, i: nat)
    requires i < |calls|
  {
    CapRefused(cfg, TableAfter(cfg, calls[..i]), KeyOf(calls[i]), calls[i].now)
  }

  // ---- the table itself ----

  function LastTime(calls: seq<Call>): int {
    if calls == [] then 0 else calls[|calls| - 1].now
  }

  function KeyLimit(cfg: Config, k: Key): int {
    if |k| > 0 && k[0] == 'i' then cfg.ipLimit else cfg.accountLimit
  }

  lemma KeyLimitOf(cfg: Config, c: Call)
    ensures KeyLimit(cfg, KeyOf(c)) == LimitOf(cfg, c)
  {
    assert IPKey(c.name)[0] == 'i' && AccountKey(c.name)[0] == 'a';
  }

  // Entries are in use, fit the cap, and began less than two windows ago.
  ghost predicate TableOk(cfg: Config, t: Table, now: int) {
    && |t.buckets| <= cfg.maxEntries
    && t.nextCleanup <= now + cfg.window
    && (t.buckets != map[] ==> now < t.nextCleanup)
    && (forall k :: k in t.buckets ==>
          && 1 <= t.buckets[k].count <= KeyLimit(cfg, k)
          && t.nextCleanup - cfg.window < t.buckets[k].until <= now + cfg.window)
  }

  lemma CleanedOk(cfg: Config, t: Table, now: int, later: int)
    requires ValidConfig(cfg) && TableOk(cfg, t, now) && now <= later
    ensures TableOk(cfg, Cleaned(cfg, t, later), later)
    ensures later < Cleaned(cfg, t, later).nextCleanup
  {
    var live := Live(t.buckets, later);
    assert live.Keys <= t.buckets.Keys;
    SubsetSmaller(live.Keys, t.buckets.Keys);
    assert |live| == |live.Keys| && |t.buckets| == |t.buckets.Keys|;
  }

  lemma InsertSize(m: map<Key, Bucket>, k: Key, b: Bucket)
    ensures |m[k := b]| == if k in m then |m| else |m| + 1
  {
    assert m[k := b].Keys == m.Keys + {k};
    assert |m[k := b]| == |m[k := b].Keys| && |m| == |m.Keys|;
  }

  lemma AdmitOk(cfg: Config, u: Table, key: Key, now: int, b: Bucket)
    requires ValidConfig(cfg) && TableOk(cfg, u, now) && now < u.nextCleanup
    requires key in u.buckets || |u.buckets| < cfg.maxEntries
    requires 1 <= b.count <= KeyLimit(cfg, key) && u.nextCleanup - cfg.window < b.until <= now + cfg.window
    ensures TableOk(cfg, u.(buckets := u.buckets[key := b]), now)
  {
    hide KeyLimit;
    InsertSize(u.buckets, key, b);
  }

  lemma StepOk(cfg: Config, t: Table, now: int, c: Call)
    requires ValidConfig(cfg) && TableOk(cfg, t, now) && now <= c.now
    ensures TableOk(cfg, StepOf(cfg, t, c).0, c.now)
    ensures c.now < StepOf(cfg, t, c).0.nextCleanup
  {
    CleanedOk(cfg, t, now, c.now);
    KeyLimitOf(cfg, c);
    hide IPKey, AccountKey, KeyOf, LimitOf, KeyLimit, Cleaned;
    var u := Cleaned(cfg, t, c.now);
    if !CapRefused(cfg, t, KeyOf(c), c.now) {
      var v := Decide(cfg.window, Lookup(u, KeyOf(c)), LimitOf(cfg, c), c.now);
      if v.Admit? { AdmitOk(cfg, u, KeyOf(c), c.now, v.bucket); }
    }
  }

  /** After every run: at most `maxEntries` entries, each with a count from 1 to
      its key's limit, none of a window begun two windows ago or earlier. */
  lemma {:induction false} TableAlwaysOk(cfg: Config, calls: seq<Call>)
    requires ValidConfig(cfg) && ClockRuns(calls)
    ensures TableOk(cfg, TableAfter(cfg, calls), LastTime(calls))
    ensures forall k :: k in TableAfter(cfg, calls).buckets ==>
      LastTime(calls) - (TableAfter(cfg, calls).buckets[k].until - cfg.window) < 2 * cfg.window
  {
    if calls != [] {
      var n := |calls| - 1;
      TableAlwaysOk(cfg, calls[..n]);
      StepOk(cfg, TableAfter(cfg, calls[..n]), LastTime(calls[..n]), calls[n]);
    }
  }

  /** A call is told 0 exactly when it is admitted: counted in a bucket of a
      running window.  Any other answer is positive and stores nothing. */
  lemma ZeroIffAdmitted(cfg: Config, t: Table, now: int, c: Call)
    requires ValidConfig(cfg) && TableOk(cfg, t, now) && now <= c.now
    ensures var (u, delay) := StepOf(cfg, t, c);
      var was := Cleaned(cfg, t, c.now);
      && delay >= 0
      && (delay == 0 <==> u != was)
      && (delay == 0 ==>
            && KeyOf(c) in u.buckets && c.now < u.buckets[KeyOf(c)].until
            && u.nextCleanup == was.nextCleanup
            && u.buckets - {KeyOf(c)} == was.buckets - {KeyOf(c)})
  {
    hide IPKey, AccountKey;
    CleanedOk(cfg, t, now, c.now);
    var was := Cleaned(cfg, t, c.now);
    if !CapRefused(cfg, t, KeyOf(c), c.now) {
      var v := Decide(cfg.window, Lookup(was, KeyOf(c)), LimitOf(cfg, c), c.now);
      if v.Admit? {
        var u := was.buckets[KeyOf(c) := v.bucket];
        assert u[KeyOf(c)] == v.bucket;
        assert KeyOf(c) in was.buckets ==> was.buckets[KeyOf(c)] != v.bucket;
      }
    }
  }

  // ---- at most 2 * limit - 1 admissions in any window's length of time ----

  // An admission and the start of the window it was counted in.
  datatype Admission = Admission(time: int, start: int)

  function History(cfg: Config, calls: seq<Call>, k: Key): seq<Admission> {
    if calls == [] then [] else
      var n := |calls| - 1;
      var before := History(cfg, calls[..n], k);
      var (u, delay) := StepOf(cfg, TableAfter(cfg, calls[..n]), calls[n]);
      if KeyOf(calls[n]) == k && delay == 0 && k in u.buckets then
        before + [Admission(calls[n].now, u.buckets[k].until - cfg.window)]
      else
        before
  }

  function CountStart(h: seq<Admission>, s: int): nat {
    if h == [] then 0 else
      CountStart(h[..|h| - 1], s) + if h[|h| - 1].start == s then 1 else 0
  }

  // Admissions at or after `from` and before `from + w`.
  function CountBetween(h: seq<Admission>, from: int, w: int): nat {
    if h == [] then 0 else
      CountBetween(h[..|h| - 1], from, w) + if from <= h[|h| - 1].time < from + w then 1 else 0
  }

  function CountBoth(h: seq<Admission>, from: int, w: int, s: int): nat {
    if h == [] then 0 else
      var a := h[|h| - 1];
      CountBoth(h[..|h| - 1], from, w, s) + if from <= a.time < from + w && a.start == s then 1 else 0
  }

  // Admission i is the first of its window.
  predicate Opens(h: seq<Admission>, i: nat)
    requires i < |h|
  {
    i == 0 || h[i - 1].start != h[i].start
  }

  ghost predicate InSpan(h: seq<Admission>, w: int) {
    forall i :: 0 <= i < |h| ==> h[i].start <= h[i].time < h[i].start + w
  }

  ghost predicate Apart(h: seq<Admission>, w: int) {
    forall i, j :: 0 <= i < j < |h| ==> h[i].start == h[j].start || h[i].start + w <= h[j].start
  }

  ghost predicate TimesUp(h: seq<Admission>) {
    forall i, j :: 0 <= i < j < |h| ==> h[i].time <= h[j].time
  }

  ghost predicate OpenedOnTime(h: seq<Admission>) {
    forall i {:trigger Opens(h, i)} :: 0 <= i < |h| && Opens(h, i) ==> h[i].time == h[i].start
  }

  // A history made of disjoint windows, each opened by its first admission.
  ghost predicate Windows(h: seq<Admission>, w: int) {
    InSpan(h, w) && Apart(h, w) && TimesUp(h) && OpenedOnTime(h)
  }

  ghost predicate WindowsFull(h: seq<Admission>, limit: int) {
    forall s :: CountStart(h, s) <= limit
  }

  // How the stored bucket stands to the history.
  ghost predicate Linked(h: seq<Admission>, b: Option<Bucket>, w: int, now: int) {
    && (forall i :: 0 <= i < |h| ==> h[i].time <= now)
    && (match b
        case Some(b) => h != [] && h[|h| - 1].start + w == b.until && CountStart(h, b.until - w) == b.count
        case None => forall i :: 0 <= i < |h| ==> h[i].start + w <= now)
  }

  lemma CountStartAppend(h: seq<Admission>, a: Admission, s: int)
    ensures CountStart(h + [a], s) == CountStart(h, s) + if a.start == s then 1 else 0
  {
    assert (h + [a])[..|h|] == h;
  }

  lemma {:induction false} CountStartNone(h: seq<Admission>, s: int)
    requires forall i :: 0 <= i < |h| ==> h[i].start != s
    ensures CountStart(h, s) == 0
  {
    if h != [] { CountStartNone(h[..|h| - 1], s); }
  }

  // The bucket one key sees after the cleanup, against the one before it.
  lemma CleanedLinked(cfg: Config, t: Table, k: Key, h: seq<Admission>, now: int, later: int)
    requires ValidConfig(cfg) && Linked(h, Lookup(t, k), cfg.window, now) && now <= later
    requires Windows(h, cfg.window)
    ensures Linked(h, Lookup(Cleaned(cfg, t, later), k), cfg.window, later)
  {
    hide IPKey, AccountKey;
    if k in t.buckets && k !in Cleaned(cfg, t, later).buckets {
      AllOver(h, cfg.window, later);
    }
  }

  lemma WindowsAppend(h: seq<Admission>, w: int, a: Admission)
    requires w > 0 && Windows(h, w) && a.start <= a.time < a.start + w
    requires h != [] ==> h[|h| - 1].time <= a.time
    requires if h != [] && h[|h| - 1].start == a.start then true
             else a.time == a.start && forall i :: 0 <= i < |h| ==> h[i].start + w <= a.start
    ensures Windows(h + [a], w)
  {
    assert Apart(h + [a], w) by { ApartAppend(h, w, a); }
    assert TimesUp(h + [a]) by { TimesUpAppend(h, a); }
    assert OpenedOnTime(h + [a]) by { OpenedOnTimeAppend(h, a); }
    assert InSpan(h + [a], w) by { hide Apart, TimesUp, OpenedOnTime; }
  }

  lemma ApartAppend(h: seq<Admission>, w: int, a: Admission)
    requires Apart(h, w)
    requires (h != [] && h[|h| - 1].start == a.start) || forall i :: 0 <= i < |h| ==> h[i].start + w <= a.start
    ensures Apart(h + [a], w)
  {
    forall i | 0 <= i < |h|
      ensures h[i].start == a.start || h[i].start + w <= a.start
    {
      if i < |h| - 1 && h[|h| - 1].start == a.start {
        assert h[i].start == h[|h| - 1].start || h[i].start + w <= h[|h| - 1].start;
      }
    }
  }

  lemma TimesUpAppend(h: seq<Admission>, a: Admission)
    requires TimesUp(h) && (h != [] ==> h[|h| - 1].time <= a.time)
    ensures TimesUp(h + [a])
  {
    forall i | 0 <= i < |h|
      ensures h[i].time <= a.time
    {
      if i < |h| - 1 { assert h[i].time <= h[|h| - 1].time; }
    }
  }

  lemma OpenedOnTimeAppend(h: seq<Admission>, a: Admission)
    requires OpenedOnTime(h) && (h == [] || h[|h| - 1].start != a.start ==> a.time == a.start)
    ensures OpenedOnTime(h + [a])
  {
    var h' := h + [a];
    forall i | 0 <= i < |h'| && Opens(h', i)
      ensures h'[i].time == h'[i].start
    {
      if i < |h| { assert Opens(h, i); }
    }
  }

  lemma WindowsFullAppend(h: seq<Admission>, a: Admission, limit: int)
    requires WindowsFull(h, limit) && CountStart(h, a.start) < limit
    ensures WindowsFull(h + [a], limit)
  {
    forall s
      ensures CountStart(h + [a], s) <= limit
    {
      CountStartAppend(h, a, s);
    }
  }

  lemma AllOver(h: seq<Admission>, w: int, now: int)
    requires w > 0 && Apart(h, w) && h != [] && h[|h| - 1].start + w <= now
    ensures forall i :: 0 <= i < |h| ==> h[i].start + w <= now
  {
    forall i | 0 <= i < |h| - 1
      ensures h[i].start + w <= now
    {
      assert h[i].start == h[|h| - 1].start || h[i].start + w <= h[|h| - 1].start;
    }
  }

  // What an admission says of the window it falls in.
  lemma AdmitFits(w: int, limit: int, h: seq<Admission>, b: Option<Bucket>, now: int, v: Verdict)
    requires w > 0 && limit > 0 && Windows(h, w) && Linked(h, b, w, now)
    requires v == Decide(w, b, limit, now) && v.Admit?
    ensures var a := Admission(now, v.bucket.until - w);
      && a.start <= now < a.start + w
      && CountStart(h, a.start) == v.bucket.count - 1 < limit
      && (h == [] || h[|h| - 1].start != a.start ==>
            a.start == now && forall i :: 0 <= i < |h| ==> h[i].start + w <= now)
  {
    hide Apart, TimesUp, OpenedOnTime;
    if b.None? {
      CountStartNone(h, now);
    } else if now >= b.value.until {
      AllOver(h, w, now);
      CountStartNone(h, now);
    } else {
      assert h[|h| - 1].start <= h[|h| - 1].time <= now;
    }
  }

  /** One admission keeps the windows disjoint and within the limit. */
  lemma AdmitLinked(w: int, limit: int, h: seq<Admission>, b: Option<Bucket>, now: int, v: Verdict)
    requires w > 0 && limit > 0 && Windows(h, w) && WindowsFull(h, limit) && Linked(h, b, w, now)
    requires v == Decide(w, b, limit, now) && v.Admit?
    ensures var h' := h + [Admission(now, v.bucket.until - w)];
      Windows(h', w) && WindowsFull(h', limit) && Linked(h', Some(v.bucket), w, now)
  {
    hide Windows, WindowsFull;
    var a := Admission(now, v.bucket.until - w);
    AdmitFits(w, limit, h, b, now, v);
    assert h != [] ==> h[|h| - 1].time <= now;
    WindowsAppend(h, w, a);
    WindowsFullAppend(h, a, limit);
    CountStartAppend(h, a, a.start);
  }

  lemma {:induction false} HistoryOk(cfg: Config, calls: seq<Call>, k: Key, limit: int)
    requires ValidConfig(cfg) && ClockRuns(calls) && limit > 0
    requires forall i :: 0 <= i < |calls| && KeyOf(calls[i]) == k ==> LimitOf(cfg, calls[i]) == limit
    ensures Windows(History(cfg, calls, k), cfg.window)
    ensures WindowsFull(History(cfg, calls, k), limit)
    ensures Linked(History(cfg, calls, k), Lookup(TableAfter(cfg, calls), k), cfg.window, LastTime(calls))
  {
    hide Windows, WindowsFull, Linked, StepOf, Cleaned;
    NoHistory(cfg.window, limit);
    if calls != [] {
      var n := |calls| - 1;
      var t, c, h := TableAfter(cfg, calls[..n]), calls[n], History(cfg, calls[..n], k);
      HistoryOk(cfg, calls[..n], k, limit);
      CleanedLinked(cfg, t, k, h, LastTime(calls[..n]), c.now);
      HistoryStep(cfg, t, c, k, limit, h);
    }
  }

  lemma NoHistory(w: int, limit: int)
    requires limit > 0
    ensures Windows([], w) && WindowsFull([], limit) && Linked([], None, w, 0)
  {
  }

  lemma HistoryStep(cfg: Config, t: Table, c: Call, k: Key, limit: int, h: seq<Admission>)
    requires ValidConfig(cfg) && limit > 0 && (KeyOf(c) == k ==> LimitOf(cfg, c) == limit)
    requires Windows(h, cfg.window) && WindowsFull(h, limit)
    requires Linked(h, Lookup(Cleaned(cfg, t, c.now), k), cfg.window, c.now)
    ensures var (u, delay) := StepOf(cfg, t, c);
      var h' := if KeyOf(c) == k && delay == 0 && k in u.buckets
                then h + [Admission(c.now, u.buckets[k].until - cfg.window)] else h;
      Windows(h', cfg.window) && WindowsFull(h', limit) && Linked(h', Lookup(u, k), cfg.window, c.now)
  {
    hide IPKey, AccountKey, Windows, WindowsFull, Linked, Cleaned;
    var was := Cleaned(cfg, t, c.now);
    if KeyOf(c) == k && !CapRefused(cfg, t, k, c.now) {
      var v := Decide(cfg.window, Lookup(was, k), limit, c.now);
      if v.Admit? {
        AdmitLinked(cfg.window, limit, h, Lookup(was, k), c.now, v);
      }
    }
  }

  lemma {:induction false} CountSplit(h: seq<Admission>, from: int, w: int, s1: int, s2: int)
    requires forall i :: 0 <= i < |h| && from <= h[i].time < from + w ==> h[i].start == s1 || h[i].start == s2
    ensures CountBetween(h, from, w) <= CountBoth(h, from, w, s1) + if s1 == s2 then 0 else CountBoth(h, from, w, s2)
  {
    if h != [] { CountSplit(h[..|h| - 1], from, w, s1, s2); }
  }

  lemma {:induction false} CountBothAtMost(h: seq<Admission>, from: int, w: int, s: int)
    ensures CountBoth(h, from, w, s) <= CountStart(h, s)
  {
    if h != [] { CountBothAtMost(h[..|h| - 1], from, w, s); }
  }

  // One admission of the window lies outside the interval.
  lemma {:induction false} CountBothFewer(h: seq<Admission>, from: int, w: int, s: int, i: nat)
    requires i < |h| && h[i].start == s && !(from <= h[i].time < from + w)
    ensures CountBoth(h, from, w, s) + 1 <= CountStart(h, s)
  {
    if i == |h| - 1 {
      CountBothAtMost(h[..|h| - 1], from, w, s);
    } else {
      CountBothFewer(h[..|h| - 1], from, w, s, i);
    }
  }

  lemma {:induction false} CountBetweenNone(h: seq<Admission>, from: int, w: int)
    requires forall i :: 0 <= i < |h| ==> !(from <= h[i].time < from + w)
    ensures CountBetween(h, from, w) == 0
  {
    if h != [] { CountBetweenNone(h[..|h| - 1], from, w); }
  }

  // The window of admission i was opened by an admission at its very start.
  lemma {:induction false} OpenedAtStart(h: seq<Admission>, i: nat) returns (j: nat)
    requires OpenedOnTime(h) && i < |h|
    ensures j <= i && h[j].start == h[i].start && h[j].time == h[i].start
  {
    if Opens(h, i) {
      j := i;
    } else {
      j := OpenedAtStart(h, i - 1);
    }
  }

  lemma AtMostTwoWindows(h: seq<Admission>, w: int, from: int, p: nat, q: nat, i: nat)
    requires w > 0 && InSpan(h, w) && Apart(h, w) && p < |h| && q < |h| && i < |h|
    requires forall m :: 0 <= m < |h| && from <= h[m].time < from + w ==> p <= m <= q
    requires from <= h[p].time < from + w && from <= h[q].time < from + w && from <= h[i].time < from + w
    ensures h[i].start == h[p].start || h[i].start == h[q].start
  {
    assert p <= i <= q;
    if p < i < q {
      assert h[p].start == h[i].start || h[p].start + w <= h[i].start;
      assert h[i].start == h[q].start || h[i].start + w <= h[q].start;
      assert h[p].time < h[p].start + w && h[q].start <= h[q].time;
    }
  }

  lemma {:induction false} FirstIn(h: seq<Admission>, from: int, w: int, i: nat) returns (p: nat)
    requires i < |h| && from <= h[i].time < from + w
    ensures p <= i && from <= h[p].time < from + w
    ensures forall m :: 0 <= m < p ==> !(from <= h[m].time < from + w)
  {
    if m :| 0 <= m < i && from <= h[m].time < from + w {
      p := FirstIn(h, from, w, m);
    } else {
      p := i;
    }
  }

  lemma {:induction false} LastIn(h: seq<Admission>, from: int, w: int, i: nat) returns (q: nat)
    requires i < |h| && from <= h[i].time < from + w
    ensures i <= q < |h| && from <= h[q].time < from + w
    ensures forall m :: q < m < |h| ==> !(from <= h[m].time < from + w)
    decreases |h| - i
  {
    if m :| i < m < |h| && from <= h[m].time < from + w {
      q := LastIn(h, from, w, m);
    } else {
      q := i;
    }
  }

  lemma FirstWindowOpensBefore(h: seq<Admission>, w: int, from: int, p: nat, q: nat)
    requires InSpan(h, w) && Apart(h, w) && p < |h| && q < |h| && p <= q
    requires h[q].time < from + w && h[p].start != h[q].start
    ensures h[p].start < from
  {
    assert h[q].start <= h[q].time;
    assert h[p].start == h[q].start || h[p].start + w <= h[q].start;
  }

  // In windows of one tick an admission falls at its window's start.
  lemma OneTickStart(h: seq<Admission>, i: nat)
    requires InSpan(h, 1) && i < |h|
    ensures h[i].start == h[i].time
  {
  }

  /** Disjoint windows of at most `limit` admissions each put at most
      2 * limit - 1 of them in any interval one window long; at most `limit` when
      a window is a single tick. */
  lemma WindowsBound(h: seq<Admission>, w: int, limit: int, from: int)
    requires w > 0 && limit > 0 && Windows(h, w) && WindowsFull(h, limit)
    ensures CountBetween(h, from, w) <= if w == 1 then limit else 2 * limit - 1
  {
    hide InSpan, Apart, TimesUp, OpenedOnTime;
    if i :| 0 <= i < |h| && from <= h[i].time < from + w {
      var p := FirstIn(h, from, w, i);
      var q := LastIn(h, from, w, i);
      var s1, s2 := h[p].start, h[q].start;
      if w == 1 {
        OneTickStart(h, p);
        OneTickStart(h, q);
      }
      forall m | 0 <= m < |h| && from <= h[m].time < from + w
        ensures h[m].start == s1 || h[m].start == s2
      {
        AtMostTwoWindows(h, w, from, p, q, m);
      }
      CountSplit(h, from, w, s1, s2);
      CountBothAtMost(h, from, w, s2);
      if s1 == s2 {
        CountBothAtMost(h, from, w, s1);
      } else {
        FirstWindowOpensBefore(h, w, from, p, q);
        var j := OpenedAtStart(h, p);
        CountBothFewer(h, from, w, s1, j);
      }
    } else {
      CountBetweenNone(h, from, w);
    }
  }

  // The most admissions of a call's key in an interval one window long.
  function MostInWindow(cfg: Config, c: Call): int {
    if cfg.window == 1 then LimitOf(cfg, c) else 2 * LimitOf(cfg, c) - 1
  }

  /** Over every run, any half-open interval one window long holds at most
      2 * limit - 1 admissions of a key (`limit`, if a window is one tick), across
      cleanups and re-creations. */
  lemma SlidingWindowBound(cfg: Config, calls: seq<Call>, c: Call, from: int)
    requires ValidConfig(cfg) && ClockRuns(calls)
    ensures CountBetween(History(cfg, calls, KeyOf(c)), from, cfg.window) <= MostInWindow(cfg, c)
  {
    hide IPKey, AccountKey;
    forall i | 0 <= i < |calls| && KeyOf(calls[i]) == KeyOf(c)
      ensures LimitOf(cfg, calls[i]) == LimitOf(cfg, c)
    {
      OneLimitPerKey(cfg, calls[i], c);
    }
    HistoryOk(cfg, calls, KeyOf(c), LimitOf(cfg, c));
    WindowsBound(History(cfg, calls, KeyOf(c)), cfg.window, LimitOf(cfg, c), from);
  }

  // ---- the bound is met ----

  function Burst(c: Call, n: nat): seq<Call> {
    seq(n, _ => c)
  }

  // One window opened by c and used up by d, both calls of one key.
  function FillWindow(cfg: Config, calls: seq<Call>, c: Call, d: Call): seq<Call>
    requires ValidConfig(cfg)
  {
    calls + [c] + Burst(d, LimitOf(cfg, c) - 1)
  }

  // The same address or account, calling at another time.
  function At(c: Call, now: int): (d: Call)
    ensures KeyOf(d) == KeyOf(c)
  {
    c.(now := now)
  }

  lemma SameLimit(cfg: Config, c: Call, now: int)
    ensures LimitOf(cfg, At(c, now)) == LimitOf(cfg, c)
  {
  }

  // A key that opens its window at 0, uses it up just before its end, and uses
  // up the next one at its start.
  function TightRun(cfg: Config, c: Call): seq<Call>
    requires ValidConfig(cfg)
  {
    var end := At(c, cfg.window);
    FillWindow(cfg, FillWindow(cfg, [], At(c, 0), At(c, cfg.window - 1)), end, end)
  }

  // The table holds just this key, `count` admissions into the window ending at `until`.
  ghost predicate OnlyKey(cfg: Config, t: Table, k: Key, count: int, until: int) {
    t.buckets == map[k := Bucket(count, until)] && t.nextCleanup == until
  }

  lemma OnlyKeyStep(cfg: Config, t: Table, c: Call, count: int, until: int)
    requires ValidConfig(cfg) && c.now < until
    requires OnlyKey(cfg, t, KeyOf(c), count, until) && count < LimitOf(cfg, c)
    ensures StepOf(cfg, t, c).1 == 0
    ensures OnlyKey(cfg, StepOf(cfg, t, c).0, KeyOf(c), count + 1, until)
  {
    hide IPKey, AccountKey;
    assert t.buckets[KeyOf(c) := Bucket(count + 1, until)] == map[KeyOf(c) := Bucket(count + 1, until)];
  }

  lemma {:induction false} BurstAdmitted(cfg: Config, calls: seq<Call>, c: Call, n: nat, from: int, count: int, until: int)
    requires ValidConfig(cfg) && c.now < until
    requires OnlyKey(cfg, TableAfter(cfg, calls), KeyOf(c), count, until) && 1 <= count && count + n <= LimitOf(cfg, c)
    ensures OnlyKey(cfg, TableAfter(cfg, calls + Burst(c, n)), KeyOf(c), count + n, until)
    ensures CountBetween(History(cfg, calls + Burst(c, n), KeyOf(c)), from, cfg.window) ==
            CountBetween(History(cfg, calls, KeyOf(c)), from, cfg.window)
            + if from <= c.now < from + cfg.window then n else 0
  {
    hide StepOf, KeyOf, History, CountBetween, TableAfter;
    if n == 0 {
      assert calls + Burst(c, n) == calls;
    } else {
      BurstAdmitted(cfg, calls, c, n - 1, from, count, until);
      var before := calls + Burst(c, n - 1);
      assert calls + Burst(c, n) == before + [c];
      OnlyKeyStep(cfg, TableAfter(cfg, before), c, count + n - 1, until);
      OneAdmitted(cfg, before, c, from, Admission(c.now, until - cfg.window));
    }
  }

  lemma OneAdmitted(cfg: Config, calls: seq<Call>, c: Call, from: int, a: Admission)
    requires var (u, delay) := StepOf(cfg, TableAfter(cfg, calls), c);
      delay == 0 && KeyOf(c) in u.buckets && a == Admission(c.now, u.buckets[KeyOf(c)].until - cfg.window)
    ensures TableAfter(cfg, calls + [c]) == StepOf(cfg, TableAfter(cfg, calls), c).0
    ensures CountBetween(History(cfg, calls + [c], KeyOf(c)), from, cfg.window) ==
            CountBetween(History(cfg, calls, KeyOf(c)), from, cfg.window) + if from <= c.now < from + cfg.window then 1 else 0
  {
    hide IPKey, AccountKey;
    assert (calls + [c])[..|calls|] == calls;
    var h := History(cfg, calls, KeyOf(c));
    assert (h + [a])[..|h|] == h;
  }

  lemma TightParts(cfg: Config, c: Call)
    requires ValidConfig(cfg)
    ensures TightRun(cfg, c) ==
            FillWindow(cfg, FillWindow(cfg, [], At(c, 0), At(c, cfg.window - 1)), At(c, cfg.window), At(c, cfg.window))
  {
    hide FillWindow, At;
  }

  lemma TightRunClock(cfg: Config, c: Call)
    requires ValidConfig(cfg)
    ensures ClockRuns(TightRun(cfg, c))
  {
    hide IPKey, AccountKey, KeyOf;
    var w, limit, r := cfg.window, LimitOf(cfg, c), TightRun(cfg, c);
    SameLimit(cfg, c, w - 1);
    SameLimit(cfg, c, w);
    assert |r| == 2 * limit;
    assert forall i :: 0 <= i < |r| ==> r[i].now == if i == 0 then 0 else if i < limit then w - 1 else w;
  }

  lemma OnlyKeyExpires(cfg: Config, t: Table, k: Key, count: int, until: int, now: int)
    requires OnlyKey(cfg, t, k, count, until) && until <= now
    ensures t.nextCleanup <= now
    ensures forall x :: x in t.buckets ==> t.buckets[x].until <= now
  {
  }

  lemma WindowFilled(cfg: Config, calls: seq<Call>, c: Call, d: Call, from: int)
    requires ValidConfig(cfg) && KeyOf(d) == KeyOf(c) && LimitOf(cfg, d) == LimitOf(cfg, c) && d.now < c.now + cfg.window
    requires TableAfter(cfg, calls).nextCleanup <= c.now
    requires forall k :: k in TableAfter(cfg, calls).buckets ==> TableAfter(cfg, calls).buckets[k].until <= c.now
    ensures OnlyKey(cfg, TableAfter(cfg, FillWindow(cfg, calls, c, d)), KeyOf(c), LimitOf(cfg, c), c.now + cfg.window)
    ensures CountBetween(History(cfg, FillWindow(cfg, calls, c, d), KeyOf(c)), from, cfg.window) ==
            CountBetween(History(cfg, calls, KeyOf(c)), from, cfg.window)
            + (if from <= c.now < from + cfg.window then 1 else 0)
            + (if from <= d.now < from + cfg.window then LimitOf(cfg, c) - 1 else 0)
  {
    hide Burst, StepOf, History, CountBetween, TableAfter, KeyOf, OnlyKey;
    OpeningAdmitted(cfg, calls, c, from);
    BurstAdmitted(cfg, calls + [c], d, LimitOf(cfg, c) - 1, from, 1, c.now + cfg.window);
  }

  /** No smaller bound holds: for every key, limit and window some run meets it. */
  lemma SlidingWindowBoundIsMet(cfg: Config, c: Call)
    requires ValidConfig(cfg)
    ensures ClockRuns(TightRun(cfg, c))
    ensures CountBetween(History(cfg, TightRun(cfg, c), KeyOf(c)), cfg.window - 1, cfg.window) == MostInWindow(cfg, c)
  {
    hide TightRun, FillWindow, History, CountBetween, ClockRuns, TableAfter, KeyOf, OnlyKey;
    TightRunClock(cfg, c);
    TightParts(cfg, c);
    var w, k := cfg.window, KeyOf(c);
    var a, b, d := At(c, 0), At(c, w - 1), At(c, w);
    SameLimit(cfg, c, 0);
    SameLimit(cfg, c, w - 1);
    SameLimit(cfg, c, w);
    var first := FillWindow(cfg, [], a, b);
    NothingYet(cfg, k, w);
    WindowFilled(cfg, [], a, b, w - 1);
    OnlyKeyExpires(cfg, TableAfter(cfg, first), k, LimitOf(cfg, c), w, w);
    WindowFilled(cfg, first, d, d, w - 1);
  }

  lemma NothingYet(cfg: Config, k: Key, w: int)
    ensures TableAfter(cfg, []) == Table(map[], 0) && CountBetween(History(cfg, [], k), w - 1, w) == 0
  {
  }

  lemma OpeningStep(cfg: Config, t: Table, c: Call)
    requires ValidConfig(cfg) && t.nextCleanup <= c.now
    requires forall k :: k in t.buckets ==> t.buckets[k].until <= c.now
    ensures StepOf(cfg, t, c).1 == 0
    ensures OnlyKey(cfg, StepOf(cfg, t, c).0, KeyOf(c), 1, c.now + cfg.window)
  {
    hide IPKey, AccountKey;
    assert Live(t.buckets, c.now) == map[];
    assert Cleaned(cfg, t, c.now) == Table(map[], c.now + cfg.window);
  }

  // The first call of a window, the table holding at most expired entries.
  lemma OpeningAdmitted(cfg: Config, calls: seq<Call>, c: Call, from: int)
    requires ValidConfig(cfg) && TableAfter(cfg, calls).nextCleanup <= c.now
    requires forall k :: k in TableAfter(cfg, calls).buckets ==> TableAfter(cfg, calls).buckets[k].until <= c.now
    ensures OnlyKey(cfg, TableAfter(cfg, calls + [c]), KeyOf(c), 1, c.now + cfg.window)
    ensures CountBetween(History(cfg, calls + [c], KeyOf(c)), from, cfg.window) ==
            CountBetween(History(cfg, calls, KeyOf(c)), from, cfg.window) + if from <= c.now < from + cfg.window then 1 else 0
  {
    hide StepOf, KeyOf, History, CountBetween, TableAfter;
    OpeningStep(cfg, TableAfter(cfg, calls), c);
    OneAdmitted(cfg, calls, c, from, Admission(c.now, c.now));
  }

  // ---- a limiter that never forgets ----

  // One key's calls that the storage cap did not turn away, as their times.
  function OwnTimes(cfg: Config, calls: seq<Call>, k: Key): seq<int> {
    if calls == [] then [] else
      var n := |calls| - 1;
      var before := OwnTimes(cfg, calls[..n], k);
      if KeyOf(calls[n]) == k && !Capped(cfg, calls, n) then before + [calls[n].now] else before
  }

  // The bucket kept for ever, without cleanup or cap, from the key's own calls alone.
  function IdealBucket(window: int, limit: int, times: seq<int>): Option<Bucket> {
    if times == [] then None else
      var n := |times| - 1;
      NextBucket(window, limit, IdealBucket(window, limit, times[..n]), times[n])
  }

  function NextBucket(window: int, limit: int, b: Option<Bucket>, now: int): Option<Bucket> {
    match Decide(window, b, limit, now)
    case Admit(b') => Some(b')
    case Refuse(_) => b
  }

  function IdealAnswer(window: int, limit: int, times: seq<int>, now: int): int {
    match Decide(window, IdealBucket(window, limit, times), limit, now)
    case Admit(_) => 0
    case Refuse(delay) => delay
  }

  // The stored entry is the ideal one, or is gone and the ideal one has expired.
  ghost predicate Agrees(stored: Option<Bucket>, ideal: Option<Bucket>, now: int) {
    if stored.Some? then stored == ideal else ideal.None? || ideal.value.until <= now
  }

  lemma DecideAgrees(cfg: Config, t: Table, k: Key, ideal: Option<Bucket>, limit: int, now: int, later: int)
    requires Agrees(Lookup(t, k), ideal, now) && now <= later
    ensures Agrees(Lookup(Cleaned(cfg, t, later), k), ideal, later)
    ensures Decide(cfg.window, Lookup(Cleaned(cfg, t, later), k), limit, later) == Decide(cfg.window, ideal, limit, later)
  {
  }

  lemma NothingAgrees()
    ensures Agrees(None, None, 0)
  {
  }

  lemma StepAgrees(cfg: Config, t: Table, c: Call, k: Key, limit: int, ideal: Option<Bucket>, now: int)
    requires ValidConfig(cfg) && limit > 0 && Agrees(Lookup(t, k), ideal, now) && now <= c.now
    requires KeyOf(c) == k ==> LimitOf(cfg, c) == limit
    ensures var next := if KeyOf(c) == k && !CapRefused(cfg, t, k, c.now)
                        then NextBucket(cfg.window, limit, ideal, c.now) else ideal;
      Agrees(Lookup(StepOf(cfg, t, c).0, k), next, c.now)
  {
    hide IPKey, AccountKey;
    DecideAgrees(cfg, t, k, ideal, limit, now, c.now);
  }

  lemma {:induction false} StoredAgrees(cfg: Config, calls: seq<Call>, k: Key, limit: int)
    requires ValidConfig(cfg) && ClockRuns(calls)
    requires limit > 0
    requires forall i :: 0 <= i < |calls| && KeyOf(calls[i]) == k ==> LimitOf(cfg, calls[i]) == limit
    ensures Agrees(Lookup(TableAfter(cfg, calls), k), IdealBucket(cfg.window, limit, OwnTimes(cfg, calls, k)), LastTime(calls))
  {
    hide Agrees, StepOf, KeyOf, LimitOf, CapRefused, NextBucket;
    if calls == [] {
      assert Agrees(None, None, 0) by { NothingAgrees(); }
    } else {
      var n := |calls| - 1;
      var t, c := TableAfter(cfg, calls[..n]), calls[n];
      var times := OwnTimes(cfg, calls[..n], k);
      StoredAgrees(cfg, calls[..n], k, limit);
      StepAgrees(cfg, t, c, k, limit, IdealBucket(cfg.window, limit, times), LastTime(calls[..n]));
      assert (times + [c.now])[..|times|] == times;
    }
  }

  /** Cleanup is invisible and keys do not disturb each other: a call that the
      storage cap does not turn away is answered as by a limiter that keeps every
      bucket for ever and has seen only this key's own such calls.  A call the cap
      turns away leaves every bucket as the cleanup left it. */
  lemma RefinesForgetless(cfg: Config, calls: seq<Call>, i: nat)
    requires ValidConfig(cfg) && ClockRuns(calls) && i < |calls|
    ensures var k := KeyOf(calls[i]);
      if Capped(cfg, calls, i) then
        StepOf(cfg, TableAfter(cfg, calls[..i]), calls[i]).0 == Cleaned(cfg, TableAfter(cfg, calls[..i]), calls[i].now)
      else
        Answer(cfg, calls, i) ==
          IdealAnswer(cfg.window, LimitOf(cfg, calls[i]), OwnTimes(cfg, calls[..i], k), calls[i].now)
  {
    hide IPKey, AccountKey;
    var k, limit := KeyOf(calls[i]), LimitOf(cfg, calls[i]);
    forall j | 0 <= j < i && KeyOf(calls[..i][j]) == k
      ensures LimitOf(cfg, calls[..i][j]) == limit
    {
      OneLimitPerKey(cfg, calls[..i][j], calls[i]);
    }
    StoredAgrees(cfg, calls[..i], k, limit);
    DecideAgrees(cfg, TableAfter(cfg, calls[..i]), k, IdealBucket(cfg.window, limit, OwnTimes(cfg, calls[..i], k)),
                 limit, LastTime(calls[..i]), calls[i].now);
  }

  // ---- retry delays are exact ----

  // The key's window is used up until `until`.
  predicate UsedUp(cfg: Config, t: Table, c: Call, until: int) {
    KeyOf(c) in t.buckets && t.buckets[KeyOf(c)].until == until && t.buckets[KeyOf(c)].count >= LimitOf(cfg, c)
  }

  lemma UsedUpPersists(cfg: Config, t: Table, c: Call, until: int, d: Call)
    requires ValidConfig(cfg) && UsedUp(cfg, t, c, until) && d.now < until
    ensures UsedUp(cfg, StepOf(cfg, t, d).0, c, until)
    ensures KeyOf(d) == KeyOf(c) ==> StepOf(cfg, t, d).1 == until - d.now
  {
    hide IPKey, AccountKey;
    if KeyOf(d) == KeyOf(c) { OneLimitPerKey(cfg, d, c); }
  }

  lemma {:induction false} UsedUpFrom(cfg: Config, calls: seq<Call>, i: nat, j: nat, until: int)
    requires ValidConfig(cfg) && ClockRuns(calls) && i < j <= |calls|
    requires UsedUp(cfg, TableAfter(cfg, calls[..i + 1]), calls[i], until)
    requires forall m :: i < m < j ==> calls[m].now < until
    ensures UsedUp(cfg, TableAfter(cfg, calls[..j]), calls[i], until)
  {
    hide UsedUp, KeyOf, LimitOf, StepOf, TableAfter;
    if j > i + 1 {
      UsedUpFrom(cfg, calls, i, j - 1, until);
      TableAfterStep(cfg, calls, j);
      UsedUpPersists(cfg, TableAfter(cfg, calls[..j - 1]), calls[i], until, calls[j - 1]);
    }
  }

  /** A delay given because the count was used up is exact: until it has passed,
      every call for the key, whatever else arrives, is refused to the same
      deadline. */
  lemma RefusedToSameDeadline(cfg: Config, calls: seq<Call>, i: nat, j: nat)
    requires ValidConfig(cfg) && ClockRuns(calls) && i < j < |calls|
    requires KeyOf(calls[j]) == KeyOf(calls[i])
    requires Answer(cfg, calls, i) > 0 && !Capped(cfg, calls, i)
    requires calls[j].now < calls[i].now + Answer(cfg, calls, i)
    ensures Answer(cfg, calls, j) == calls[i].now + Answer(cfg, calls, i) - calls[j].now
  {
    hide IPKey, AccountKey;
    var until := calls[i].now + Answer(cfg, calls, i);
    assert calls[..i + 1][..i] == calls[..i];
    assert UsedUp(cfg, TableAfter(cfg, calls[..i + 1]), calls[i], until);
    UsedUpFrom(cfg, calls, i, j, until);
    UsedUpPersists(cfg, TableAfter(cfg, calls[..j]), calls[i], until, calls[j]);
  }

  /** Once the deadline has passed, the key's next call is admitted unless its
      entry was dropped and the table is full. */
  lemma AdmittedAfterDeadline(cfg: Config, calls: seq<Call>, i: nat, j: nat)
    requires ValidConfig(cfg) && ClockRuns(calls) && i < j < |calls|
    requires KeyOf(calls[j]) == KeyOf(calls[i])
    requires Answer(cfg, calls, i) > 0 && !Capped(cfg, calls, i)
    requires calls[j].now >= calls[i].now + Answer(cfg, calls, i)
    requires forall m :: i < m < j && KeyOf(calls[m]) == KeyOf(calls[i]) ==>
      calls[m].now < calls[i].now + Answer(cfg, calls, i)
    ensures Answer(cfg, calls, j) == 0 <==> !Capped(cfg, calls, j)
  {
    hide IPKey, AccountKey;
    var until := calls[i].now + Answer(cfg, calls, i);
    assert calls[..i + 1][..i] == calls[..i];
    assert UsedUp(cfg, TableAfter(cfg, calls[..i + 1]), calls[i], until);
    ExpiresBy(cfg, calls, i, j, until);
    OneLimitPerKey(cfg, calls[j], calls[i]);
    ExpiredAdmits(cfg, TableAfter(cfg, calls[..j]), calls[i], until, calls[j - 1].now, calls[j]);
  }

  lemma ExpiredAdmits(cfg: Config, t: Table, c: Call, until: int, now: int, d: Call)
    requires ValidConfig(cfg) && Expiring(cfg, t, c, until, now) && now <= d.now && until <= d.now
    requires KeyOf(d) == KeyOf(c) && LimitOf(cfg, d) == LimitOf(cfg, c)
    ensures StepOf(cfg, t, d).1 == 0 <==> !CapRefused(cfg, t, KeyOf(d), d.now)
  {
    hide IPKey, AccountKey;
  }

  // The key's entry, if kept, still ends at `until`; if it is gone, that time has come.
  ghost predicate Expiring(cfg: Config, t: Table, c: Call, until: int, now: int) {
    if KeyOf(c) in t.buckets then UsedUp(cfg, t, c, until) else until <= now
  }

  lemma ExpiringStep(cfg: Config, t: Table, c: Call, until: int, now: int, d: Call)
    requires ValidConfig(cfg) && Expiring(cfg, t, c, until, now) && now <= d.now
    requires KeyOf(d) == KeyOf(c) ==> d.now < until
    ensures Expiring(cfg, StepOf(cfg, t, d).0, c, until, d.now)
  {
    hide IPKey, AccountKey;
    if KeyOf(d) == KeyOf(c) { OneLimitPerKey(cfg, d, c); }
  }

  lemma {:induction false} ExpiresBy(cfg: Config, calls: seq<Call>, i: nat, j: nat, until: int)
    requires ValidConfig(cfg) && ClockRuns(calls) && i < j <= |calls|
    requires UsedUp(cfg, TableAfter(cfg, calls[..i + 1]), calls[i], until)
    requires forall m :: i < m < j && KeyOf(calls[m]) == KeyOf(calls[i]) ==> calls[m].now < until
    ensures Expiring(cfg, TableAfter(cfg, calls[..j]), calls[i], until, calls[j - 1].now)
  {
    hide IPKey, AccountKey, StepOf, TableAfter;
    if j > i + 1 {
      assert calls[j - 2].now <= calls[j - 1].now;
      TableAfterStep(cfg, calls, j);
      hide UsedUp, Expiring, KeyOf, ClockRuns;
      ExpiresBy(cfg, calls, i, j - 1, until);
      ExpiringStep(cfg, TableAfter(cfg, calls[..j - 1]), calls[i], until, calls[j - 2].now, calls[j - 1]);
    }
  }

  // ---- a full table ----

  ghost predicate FullUntil(cfg: Config, t: Table, deadline: int) {
    |t.buckets| >= cfg.maxEntries && t.nextCleanup == deadline
  }

  lemma FullStep(cfg: Config, t: Table, deadline: int, c: Call)
    requires ValidConfig(cfg) && FullUntil(cfg, t, deadline) && c.now < deadline
    ensures FullUntil(cfg, StepOf(cfg, t, c).0, deadline)
    ensures StepOf(cfg, t, c).0.buckets.Keys == t.buckets.Keys
    ensures KeyOf(c) !in t.buckets ==> CapRefused(cfg, t, KeyOf(c), c.now) && StepOf(cfg, t, c).1 == deadline - c.now
  {
    hide IPKey, AccountKey;
    assert |t.buckets| == |t.buckets.Keys|;
    var u := StepOf(cfg, t, c).0;
    assert u.buckets.Keys == t.buckets.Keys;
    assert |u.buckets| == |u.buckets.Keys|;
  }

  lemma {:induction false} FullFrom(cfg: Config, calls: seq<Call>, i: nat, j: nat, deadline: int)
    requires ValidConfig(cfg) && i < j <= |calls|
    requires FullUntil(cfg, TableAfter(cfg, calls[..i + 1]), deadline)
    requires forall m :: i < m < j ==> calls[m].now < deadline
    ensures FullUntil(cfg, TableAfter(cfg, calls[..j]), deadline)
    ensures TableAfter(cfg, calls[..j]).buckets.Keys == TableAfter(cfg, calls[..i + 1]).buckets.Keys
  {
    hide FullUntil, StepOf, KeyOf, TableAfter;
    if j > i + 1 {
      FullFrom(cfg, calls, i, j - 1, deadline);
      TableAfterStep(cfg, calls, j);
      FullStep(cfg, TableAfter(cfg, calls[..j - 1]), deadline, calls[j - 1]);
    }
  }

  /** When the table is full the delay is the time to the next cleanup: until
      then no stored key is lost, and every key not stored is refused to that
      same moment. */
  lemma FullUntilCleanup(cfg: Config, calls: seq<Call>, i: nat, j: nat)
    requires ValidConfig(cfg) && ClockRuns(calls) && i < j < |calls| && Capped(cfg, calls, i)
    requires calls[j].now < calls[i].now + Answer(cfg, calls, i)
    ensures TableAfter(cfg, calls[..j]).buckets.Keys == TableAfter(cfg, calls[..i + 1]).buckets.Keys
    ensures KeyOf(calls[j]) !in TableAfter(cfg, calls[..j]).buckets ==>
      Capped(cfg, calls, j) && Answer(cfg, calls, j) == calls[i].now + Answer(cfg, calls, i) - calls[j].now
  {
    hide IPKey, AccountKey;
    var deadline := calls[i].now + Answer(cfg, calls, i);
    assert calls[..i + 1][..i] == calls[..i];
    assert FullUntil(cfg, TableAfter(cfg, calls[..i + 1]), deadline);
    FullFrom(cfg, calls, i, j, deadline);
    FullStep(cfg, TableAfter(cfg, calls[..j]), deadline, calls[j]);
  }

  lemma RoomIffSomeExpired(buckets: map<Key, Bucket>, now: int)
    ensures |Live(buckets, now)| <= |buckets|
    ensures |Live(buckets, now)| < |buckets| <==> exists k :: k in buckets && buckets[k].until <= now
  {
    var live := Live(buckets, now);
    assert live.Keys <= buckets.Keys && |live| == |live.Keys| && |buckets| == |buckets.Keys|;
    SubsetSmaller(live.Keys, buckets.Keys);
    if k :| k in buckets && buckets[k].until <= now {
      assert live.Keys <= buckets.Keys - {k};
      SubsetSmaller(live.Keys, buckets.Keys - {k});
    } else {
      assert live.Keys == buckets.Keys;
    }
  }

  // A call that makes the cleanup due, for a key with no running window.
  lemma CleanupStep(cfg: Config, t: Table, c: Call)
    requires ValidConfig(cfg) && t.nextCleanup <= c.now && KeyOf(c) !in Live(t.buckets, c.now)
    ensures StepOf(cfg, t, c).1 == if |Live(t.buckets, c.now)| < cfg.maxEntries then 0 else cfg.window
    ensures CapRefused(cfg, t, KeyOf(c), c.now) <==> |Live(t.buckets, c.now)| >= cfg.maxEntries
  {
    hide IPKey, AccountKey;
  }

  /** The first call once a full table's cleanup is due, for a key without a
      running window, the refused one included: it is admitted exactly when some
      stored window has ended by then, and told to wait a whole window if none has. */
  lemma FullAtCleanup(cfg: Config, calls: seq<Call>, i: nat, j: nat)
    requires ValidConfig(cfg) && ClockRuns(calls) && i < j < |calls| && Capped(cfg, calls, i)
    requires calls[i].now + Answer(cfg, calls, i) <= calls[j].now
    requires forall m :: i < m < j ==> calls[m].now < calls[i].now + Answer(cfg, calls, i)
    requires KeyOf(calls[j]) !in Live(TableAfter(cfg, calls[..j]).buckets, calls[j].now)
    ensures var t := TableAfter(cfg, calls[..j]);
      && KeyOf(calls[i]) !in t.buckets
      && (Answer(cfg, calls, j) == 0 <==> |Live(t.buckets, calls[j].now)| < cfg.maxEntries)
      && (Answer(cfg, calls, j) == 0 <==> exists k :: k in t.buckets && t.buckets[k].until <= calls[j].now)
      && (Answer(cfg, calls, j) != 0 ==> Capped(cfg, calls, j) && Answer(cfg, calls, j) == cfg.window)
  {
    hide IPKey, AccountKey, Live;
    var deadline, t := calls[i].now + Answer(cfg, calls, i), TableAfter(cfg, calls[..j]);
    assert calls[..i + 1][..i] == calls[..i];
    assert FullUntil(cfg, TableAfter(cfg, calls[..i + 1]), deadline);
    FullFrom(cfg, calls, i, j, deadline);
    TableAlwaysOk(cfg, calls[..j]);
    RoomIffSomeExpired(t.buckets, calls[j].now);
    CleanupStep(cfg, t, calls[j]);
  }

  // Two places and a window of ten ticks, both places kept busy across a cleanup.
  const SMALL := Config(1, 1, 10, 1, 2)

  function BusyRun(a: string, b: string, c: string, d: string): seq<Call> {
    [Account(a, 0), Account(b, 5), Account(b, 10), Account(c, 12), Account(b, 16), Account(d, 17), Account(d, 20)]
  }

  lemma AccountKeysDiffer(x: string, y: string)
    requires x != y
    ensures AccountKey(x) != AccountKey(y)
  {
    KeysAreNames(x, y);
  }

  lemma RunOn(cfg: Config, calls: seq<Call>, n: nat, t: Table, u: Table, delay: int)
    requires n < |calls| && TableAfter(cfg, calls[..n]) == t && StepOf(cfg, t, calls[n]) == (u, delay)
    ensures TableAfter(cfg, calls[..n + 1]) == u && Answer(cfg, calls, n) == delay
  {
    hide StepOf;
    assert calls[..n + 1][..n] == calls[..n];
  }

  lemma BusySteps(a: Key, b: Key, c: Key)
    requires a != b && a != c && b != c
    ensures Step(SMALL, Table(map[], 0), a, 1, 0) == (Table(map[a := Bucket(1, 10)], 10), 0)
    ensures Step(SMALL, Table(map[a := Bucket(1, 10)], 10), b, 1, 5) ==
            (Table(map[a := Bucket(1, 10), b := Bucket(1, 15)], 10), 0)
    ensures Step(SMALL, Table(map[a := Bucket(1, 10), b := Bucket(1, 15)], 10), b, 1, 10) ==
            (Table(map[b := Bucket(1, 15)], 20), 5)
    ensures Step(SMALL, Table(map[b := Bucket(1, 15)], 20), c, 1, 12) ==
            (Table(map[b := Bucket(1, 15), c := Bucket(1, 22)], 20), 0)
    ensures Step(SMALL, Table(map[b := Bucket(1, 15), c := Bucket(1, 22)], 20), b, 1, 16) ==
            (Table(map[b := Bucket(1, 26), c := Bucket(1, 22)], 20), 0)
  {
    assert Live(map[], 0) == map[];
    assert Live(map[a := Bucket(1, 10), b := Bucket(1, 15)], 10) == map[b := Bucket(1, 15)];
    assert map[b := Bucket(1, 15), c := Bucket(1, 22)][b := Bucket(1, 26)] == map[b := Bucket(1, 26), c := Bucket(1, 22)];
  }

  lemma BusyRefusals(b: Key, c: Key, d: Key)
    requires b != c && b != d && c != d
    ensures var t := Table(map[b := Bucket(1, 26), c := Bucket(1, 22)], 20);
      && Step(SMALL, t, d, 1, 17) == (t, 3) && CapRefused(SMALL, t, d, 17)
      && Step(SMALL, t, d, 1, 20) == (t.(nextCleanup := 30), 10) && CapRefused(SMALL, t, d, 20)
  {
    var m := map[b := Bucket(1, 26), c := Bucket(1, 22)];
    assert m.Keys == {b, c} && |m.Keys| == |m|;
    assert Live(m, 20) == m;
  }

  lemma AccountStep(t: Table, c: Call)
    requires c.Account?
    ensures StepOf(SMALL, t, c) == Step(SMALL, t, AccountKey(c.name), 1, c.now) && KeyOf(c) == AccountKey(c.name)
  {
    hide Step, AccountKey;
  }

  lemma BusyUntilFull(calls: seq<Call>, a: Key, b: Key, c: Key)
    requires |calls| == 7 && a != b && a != c && b != c
    requires forall t :: StepOf(SMALL, t, calls[0]) == Step(SMALL, t, a, 1, 0)
    requires forall t :: StepOf(SMALL, t, calls[1]) == Step(SMALL, t, b, 1, 5)
    requires forall t :: StepOf(SMALL, t, calls[2]) == Step(SMALL, t, b, 1, 10)
    requires forall t :: StepOf(SMALL, t, calls[3]) == Step(SMALL, t, c, 1, 12)
    requires forall t :: StepOf(SMALL, t, calls[4]) == Step(SMALL, t, b, 1, 16)
    ensures TableAfter(SMALL, calls[..5]) == Table(map[b := Bucket(1, 26), c := Bucket(1, 22)], 20)
  {
    BusySteps(a, b, c);
    hide Step, StepOf;
    assert calls[..0] == [] && TableAfter(SMALL, []) == Table(map[], 0);
    RunOn(SMALL, calls, 0, Table(map[], 0), Table(map[a := Bucket(1, 10)], 10), 0);
    RunOn(SMALL, calls, 1, Table(map[a := Bucket(1, 10)], 10), Table(map[a := Bucket(1, 10), b := Bucket(1, 15)], 10), 0);
    RunOn(SMALL, calls, 2, Table(map[a := Bucket(1, 10), b := Bucket(1, 15)], 10), Table(map[b := Bucket(1, 15)], 20), 5);
    RunOn(SMALL, calls, 3, Table(map[b := Bucket(1, 15)], 20), Table(map[b := Bucket(1, 15), c := Bucket(1, 22)], 20), 0);
    RunOn(SMALL, calls, 4, Table(map[b := Bucket(1, 15), c := Bucket(1, 22)], 20),
          Table(map[b := Bucket(1, 26), c := Bucket(1, 22)], 20), 0);
  }

  function FullTable(b: string, c: string): Table {
    Table(map[AccountKey(b) := Bucket(1, 26), AccountKey(c) := Bucket(1, 22)], 20)
  }

  lemma BusyRunFills(a: string, b: string, c: string, d: string)
    requires a != b && a != c && b != c
    ensures TableAfter(SMALL, BusyRun(a, b, c, d)[..5]) == FullTable(b, c)
  {
    var run := BusyRun(a, b, c, d);
    AccountKeysDiffer(a, b);
    AccountKeysDiffer(a, c);
    AccountKeysDiffer(b, c);
    hide Step, StepOf, AccountKey, KeyOf, TableAfter;
    forall u: Table, i | 0 <= i < 7
      ensures StepOf(SMALL, u, run[i]) == Step(SMALL, u, AccountKey(run[i].name), 1, run[i].now)
    {
      AccountStep(u, run[i]);
    }
    BusyUntilFull(run, AccountKey(a), AccountKey(b), AccountKey(c));
  }

  lemma FullTableRefuses(b: string, c: string, d: Call)
    requires b != c && b != d.name && c != d.name && d.Account?
    ensures var t := FullTable(b, c);
      && (d.now == 17 ==> StepOf(SMALL, t, d) == (t, 3) && CapRefused(SMALL, t, KeyOf(d), 17))
      && (d.now == 20 ==> StepOf(SMALL, t, d).1 == 10 && CapRefused(SMALL, t, KeyOf(d), 20))
  {
    AccountKeysDiffer(b, c);
    AccountKeysDiffer(b, d.name);
    AccountKeysDiffer(c, d.name);
    hide Step, StepOf, AccountKey, KeyOf, CapRefused;
    BusyRefusals(AccountKey(b), AccountKey(c), AccountKey(d.name));
    AccountStep(FullTable(b, c), d);
  }

  /** A key refused for lack of room, calling again as soon as the delay it was
      given has passed, can be refused for lack of room again. */
  lemma StillFullAfterDelay(a: string, b: string, c: string, d: string)
    requires a != b && a != c && a != d && b != c && b != d && c != d
    ensures var run := BusyRun(a, b, c, d);
      && ClockRuns(run) && run[5].now + Answer(SMALL, run, 5) == run[6].now
      && Capped(SMALL, run, 5) && Capped(SMALL, run, 6) && Answer(SMALL, run, 6) == 10
  {
    hide Step, StepOf, KeyOf, CapRefused, TableAfter, FullTable;
    var run, t := BusyRun(a, b, c, d), FullTable(b, c);
    BusyRunFills(a, b, c, d);
    FullTableRefuses(b, c, run[5]);
    FullTableRefuses(b, c, run[6]);
    RunOn(SMALL, run, 5, t, t, 3);
  }
}
