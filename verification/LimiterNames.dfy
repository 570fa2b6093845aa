/** The limiter as its callers see it: by address and by account name, from the
    times of the calls alone. */
module LimiterNames {
  import opened Prelude
  import opened AuthLimit
  import opened LimiterRuns

  /** Calls share a bucket exactly when they are for the same address or for the
      same account. */
  lemma SameBucketIffSameName(c: Call, d: Call)
    ensures KeyOf(c) == KeyOf(d) <==> (c.IP? <==> d.IP?) && c.name == d.name
  {
    KeysAreNames(c.name, d.name);
    KeySpacesDisjoint(c.name, d.name);
    KeySpacesDisjoint(d.name, c.name);
  }

  // ---- one name's answers from its own calls ----

  predicate Sorted(times: seq<int>) {
    forall i, j :: 0 <= i < j < |times| ==> times[i] <= times[j]
  }

  // When the latest window ends, if each begins with the first call after the last one.
  function WindowEnd(window: int, times: seq<int>): int
    requires times != []
  {
    var n := |times| - 1;
    if n == 0 || times[n] >= WindowEnd(window, times[..n]) then times[n] + window
    else WindowEnd(window, times[..n])
  }

  function CountFrom(times: seq<int>, from: int): nat {
    if times == [] then 0 else
      CountFrom(times[..|times| - 1], from) + if times[|times| - 1] >= from then 1 else 0
  }

  lemma {:induction false} WindowEndBounds(window: int, times: seq<int>)
    requires window > 0 && Sorted(times) && times != []
    ensures times[|times| - 1] < WindowEnd(window, times) <= times[|times| - 1] + window
    ensures CountFrom(times, WindowEnd(window, times) - window) > 0
  {
    var n := |times| - 1;
    if n > 0 { WindowEndBounds(window, times[..n]); }
  }

  lemma {:induction false} CountFromNone(times: seq<int>, from: int)
    requires forall i :: 0 <= i < |times| ==> times[i] < from
    ensures CountFrom(times, from) == 0
  {
    if times != [] { CountFromNone(times[..|times| - 1], from); }
  }

  // The bucket kept for ever: the latest window, with its calls up to the limit.
  lemma {:induction false} BucketIsLatestWindow(window: int, limit: int, times: seq<int>)
    requires window > 0 && limit > 0 && Sorted(times)
    ensures IdealBucket(window, limit, times).None? <==> times == []
    ensures times != [] ==>
      var end := WindowEnd(window, times);
      var n := CountFrom(times, end - window);
      IdealBucket(window, limit, times) == Some(Bucket(if n <= limit then n else limit, end))
  {
    if times != [] {
      var n := |times| - 1;
      var rest := times[..n];
      BucketIsLatestWindow(window, limit, rest);
      if n > 0 {
        WindowEndBounds(window, rest);
        if times[n] >= WindowEnd(window, rest) { CountFromNone(rest, times[n]); }
      }
    }
  }

  // The times of the name's calls that the storage cap did not turn away.
  function TimesOf(cfg: Config, calls: seq<Call>, ip: bool, name: string): seq<int> {
    if calls == [] then [] else
      var n := |calls| - 1;
      var before := TimesOf(cfg, calls[..n], ip, name);
      if calls[n].IP? == ip && calls[n].name == name && !Capped(cfg, calls, n) then before + [calls[n].now] else before
  }

  lemma {:induction false} OwnTimesAreTimesOf(cfg: Config, calls: seq<Call>, c: Call)
    ensures OwnTimes(cfg, calls, KeyOf(c)) == TimesOf(cfg, calls, c.IP?, c.name)
  {
    hide KeyOf, Capped;
    if calls != [] {
      OwnTimesAreTimesOf(cfg, calls[..|calls| - 1], c);
      SameBucketIffSameName(calls[|calls| - 1], c);
    }
  }

  lemma {:induction false} TimesOfSorted(cfg: Config, calls: seq<Call>, ip: bool, name: string)
    requires ClockRuns(calls)
    ensures Sorted(TimesOf(cfg, calls, ip, name))
    ensures forall i :: 0 <= i < |TimesOf(cfg, calls, ip, name)| ==> TimesOf(cfg, calls, ip, name)[i] <= LastTime(calls)
  {
    hide Capped;
    if calls != [] {
      TimesOfSorted(cfg, calls[..|calls| - 1], ip, name);
    }
  }

  /** A call the storage cap does not turn away is answered from the earlier such
      calls for the same address or account and from nothing else: it is admitted
      unless their latest window still runs and already holds the limit's number
      of calls, and is then told the rest of that window. */
  lemma AnsweredByOwnCalls(cfg: Config, calls: seq<Call>, i: nat)
    requires ValidConfig(cfg) && ClockRuns(calls) && i < |calls| && !Capped(cfg, calls, i)
    ensures var c := calls[i];
      var own := TimesOf(cfg, calls[..i], c.IP?, c.name);
      var limit := if c.IP? then cfg.ipLimit else cfg.accountLimit;
      Answer(cfg, calls, i) ==
        if own == [] then 0
        else
          var end := WindowEnd(cfg.window, own);
          if c.now < end && CountFrom(own, end - cfg.window) >= limit then end - c.now else 0
  {
    hide KeyOf, Capped, Answer, OwnTimes, TimesOf, IdealBucket, WindowEnd, CountFrom;
    var c := calls[i];
    RefinesForgetless(cfg, calls, i);
    OwnTimesAreTimesOf(cfg, calls[..i], c);
    TimesOfSorted(cfg, calls[..i], c.IP?, c.name);
    BucketIsLatestWindow(cfg.window, LimitOf(cfg, c), TimesOf(cfg, calls[..i], c.IP?, c.name));
  }

  // ---- while fewer names call than the table holds ----

  ghost function Names(calls: seq<Call>): set<(bool, string)> {
    set i | 0 <= i < |calls| :: (calls[i].IP?, calls[i].name)
  }

  ghost function Keys(calls: seq<Call>): set<Key> {
    set i | 0 <= i < |calls| :: KeyOf(calls[i])
  }

  lemma OneMoreCall(calls: seq<Call>)
    requires calls != []
    ensures var n := |calls| - 1;
      && Names(calls) == Names(calls[..n]) + {(calls[n].IP?, calls[n].name)}
      && Keys(calls) == Keys(calls[..n]) + {KeyOf(calls[n])}
  {
    hide KeyOf;
    var n := |calls| - 1;
    assert forall i :: 0 <= i < n ==> calls[i] == calls[..n][i];
  }

  lemma {:induction false} FewKeys(calls: seq<Call>)
    ensures |Keys(calls)| <= |Names(calls)|
  {
    hide KeyOf;
    if calls == [] {
      assert Keys(calls) == {};
    } else {
      var n := |calls| - 1;
      var c := calls[n];
      FewKeys(calls[..n]);
      OneMoreCall(calls);
      if j :| 0 <= j < n && (calls[..n][j].IP?, calls[..n][j].name) == (c.IP?, c.name) {
        SameBucketIffSameName(calls[..n][j], c);
        assert KeyOf(calls[..n][j]) in Keys(calls[..n]);
        assert Keys(calls) == Keys(calls[..n]);
        assert (c.IP?, c.name) in Names(calls[..n]);
        assert Names(calls) == Names(calls[..n]);
      }
    }
  }

  lemma {:induction false} StoredKeysCalled(cfg: Config, calls: seq<Call>)
    ensures TableAfter(cfg, calls).buckets.Keys <= Keys(calls)
  {
    hide KeyOf;
    if calls != [] {
      StoredKeysCalled(cfg, calls[..|calls| - 1]);
      OneMoreCall(calls);
    }
  }

  /** The storage cap turns no call away while fewer addresses and accounts have
      called than the table holds. */
  lemma NotCappedWhileFewNames(cfg: Config, calls: seq<Call>, i: nat)
    requires i < |calls| && |Names(calls[..i])| < cfg.maxEntries
    ensures !Capped(cfg, calls, i)
  {
    hide KeyOf;
    var t := TableAfter(cfg, calls[..i]);
    var kept := Cleaned(cfg, t, calls[i].now).buckets;
    StoredKeysCalled(cfg, calls[..i]);
    FewKeys(calls[..i]);
    assert kept.Keys <= t.buckets.Keys;
    SubsetSmaller(kept.Keys, Keys(calls[..i]));
    assert |kept| == |kept.Keys|;
  }

  // ---- the sliding bound by name ----

  // The calls of one address or account admitted at or after `from` and within one window's length.
  ghost function AdmittedIn(cfg: Config, calls: seq<Call>, ip: bool, name: string, from: int): set<nat> {
    set i: nat | i < |calls| && AdmittedAt(cfg, calls, ip, name, from, i)
  }

  predicate AdmittedAt(cfg: Config, calls: seq<Call>, ip: bool, name: string, from: int, i: nat)
    requires i < |calls|
  {
    && calls[i].IP? == ip && calls[i].name == name
    && Answer(cfg, calls, i) == 0 && from <= calls[i].now < from + cfg.window
  }

  lemma AnswerOfPrefix(cfg: Config, calls: seq<Call>, n: nat, i: nat)
    requires i < n <= |calls|
    ensures Answer(cfg, calls[..n], i) == Answer(cfg, calls, i)
  {
    hide StepOf, TableAfter;
    assert calls[..n][..i] == calls[..i];
  }

  lemma AdmittedAtPrefix(cfg: Config, calls: seq<Call>, n: nat, ip: bool, name: string, from: int, i: nat)
    requires i < n <= |calls|
    ensures AdmittedAt(cfg, calls[..n], ip, name, from, i) == AdmittedAt(cfg, calls, ip, name, from, i)
  {
    hide Answer;
    AnswerOfPrefix(cfg, calls, n, i);
  }

  lemma AdmittedOneMore(cfg: Config, calls: seq<Call>, ip: bool, name: string, from: int)
    requires calls != []
    ensures var n := |calls| - 1;
      |AdmittedIn(cfg, calls, ip, name, from)| ==
      |AdmittedIn(cfg, calls[..n], ip, name, from)| + if AdmittedAt(cfg, calls, ip, name, from, n) then 1 else 0
  {
    hide AdmittedAt;
    var n := |calls| - 1;
    forall i: nat | i < n
      ensures AdmittedAt(cfg, calls[..n], ip, name, from, i) == AdmittedAt(cfg, calls, ip, name, from, i)
    {
      AdmittedAtPrefix(cfg, calls, n, ip, name, from, i);
    }
    var a, b := AdmittedIn(cfg, calls[..n], ip, name, from), AdmittedIn(cfg, calls, ip, name, from);
    assert b == if AdmittedAt(cfg, calls, ip, name, from, n) then a + {n} else a;
  }

  lemma {:induction false} HistoryCountsAdmitted(cfg: Config, calls: seq<Call>, c: Call, from: int)
    requires ValidConfig(cfg) && ClockRuns(calls)
    ensures CountBetween(History(cfg, calls, KeyOf(c)), from, cfg.window) == |AdmittedIn(cfg, calls, c.IP?, c.name, from)|
  {
    if calls == [] {
      assert AdmittedIn(cfg, calls, c.IP?, c.name, from) == {};
    } else {
      var n := |calls| - 1;
      var before := calls[..n];
      HistoryCountsAdmitted(cfg, before, c, from);
      AdmittedOneMore(cfg, calls, c.IP?, c.name, from);
      SameBucketIffSameName(calls[n], c);
      TableAlwaysOk(cfg, before);
      ZeroIffAdmitted(cfg, TableAfter(cfg, before), LastTime(before), calls[n]);
      HistoryOneMore(cfg, calls, KeyOf(c), from);
    }
  }

  lemma HistoryOneMore(cfg: Config, calls: seq<Call>, k: Key, from: int)
    requires calls != []
    requires Answer(cfg, calls, |calls| - 1) == 0 ==>
      KeyOf(calls[|calls| - 1]) in StepOf(cfg, TableAfter(cfg, calls[..|calls| - 1]), calls[|calls| - 1]).0.buckets
    ensures var n := |calls| - 1;
      CountBetween(History(cfg, calls, k), from, cfg.window) ==
      CountBetween(History(cfg, calls[..n], k), from, cfg.window)
      + if KeyOf(calls[n]) == k && Answer(cfg, calls, n) == 0 && from <= calls[n].now < from + cfg.window then 1 else 0
  {
    hide StepOf, TableAfter, KeyOf;
    var n := |calls| - 1;
    var h, h' := History(cfg, calls[..n], k), History(cfg, calls, k);
    if h' != h { assert h'[..|h|] == h; }
  }

  /** Of one address's calls, or one account's, at most twice its limit less one
      are admitted in any interval one window long; in windows of one tick, at
      most the limit. */
  lemma AdmittedPerName(cfg: Config, calls: seq<Call>, ip: bool, name: string, from: int)
    requires ValidConfig(cfg) && ClockRuns(calls)
    ensures var limit := if ip then cfg.ipLimit else cfg.accountLimit;
      |AdmittedIn(cfg, calls, ip, name, from)| <= if cfg.window == 1 then limit else 2 * limit - 1
  {
    hide KeyOf, History, AdmittedIn;
    var c := if ip then IP(name, 0) else Account(name, 0);
    HistoryCountsAdmitted(cfg, calls, c, from);
    SlidingWindowBound(cfg, calls, c, from);
  }
}
