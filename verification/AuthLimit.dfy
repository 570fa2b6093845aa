/** The authentication limiter: a fixed-window counter per key, cleaned lazily,
    with a hard cap on stored keys, and a counting semaphore.  Times are integers
    on the clock's scale; the zero time of a new limiter is 0. */
module AuthLimit {
  import opened Prelude

  // A bucket's key.  The program stores its SHA-256, taken to be injective.
  type Key = string

  datatype Config = Config(ipLimit: int, accountLimit: int, window: int, maxConcurrent: int, maxEntries: int)

  datatype Bucket = Bucket(count: int, until: int)

  datatype Table = Table(buckets: map<Key, Bucket>, nextCleanup: int)

  predicate ValidConfig(cfg: Config) {
    cfg.ipLimit > 0 && cfg.accountLimit > 0 && cfg.window > 0 && cfg.maxConcurrent > 0 && cfg.maxEntries > 0
  }

  function WithDefaults(cfg: Config): (r: Config)
    ensures ValidConfig(r)
    ensures cfg.ipLimit > 0 ==> r.ipLimit == cfg.ipLimit
    ensures cfg.accountLimit > 0 ==> r.accountLimit == cfg.accountLimit
    ensures cfg.window > 0 ==> r.window == cfg.window
    ensures cfg.maxConcurrent > 0 ==> r.maxConcurrent == cfg.maxConcurrent
    ensures cfg.maxEntries > 0 ==> r.maxEntries == cfg.maxEntries
    ensures cfg.ipLimit <= 0 ==> r.ipLimit == 30
    ensures cfg.accountLimit <= 0 ==> r.accountLimit == 5
    ensures cfg.window <= 0 ==> r.window == 60_000_000_000
    ensures cfg.maxConcurrent <= 0 ==> r.maxConcurrent == 2
    ensures cfg.maxEntries <= 0 ==> r.maxEntries == 20000
  {
    Config(
      if cfg.ipLimit <= 0 then 30 else cfg.ipLimit,
      if cfg.accountLimit <= 0 then 5 else cfg.accountLimit,
      if cfg.window <= 0 then 60_000_000_000 else cfg.window,
      if cfg.maxConcurrent <= 0 then 2 else cfg.maxConcurrent,
      if cfg.maxEntries <= 0 then 20000 else cfg.maxEntries)
  }

  function IPKey(ip: string): Key { "ip:" + ip }

  function AccountKey(account: string): Key { "account:" + account }

  /** Traffic counted per address and traffic counted per account never share a bucket. */
  lemma KeySpacesDisjoint(ip: string, account: string)
    ensures IPKey(ip) != AccountKey(account)
  {
    assert IPKey(ip)[0] == 'i' && AccountKey(account)[0] == 'a';
  }

  lemma PrefixInjective(prefix: string, x: string, y: string)
    requires prefix + x == prefix + y
    ensures x == y
  {
    assert x == (prefix + x)[|prefix|..] && y == (prefix + y)[|prefix|..];
  }

  /** Different addresses never share a bucket, nor do different accounts. */
  lemma KeysAreNames(x: string, y: string)
    ensures IPKey(x) == IPKey(y) <==> x == y
    ensures AccountKey(x) == AccountKey(y) <==> x == y
  {
    if IPKey(x) == IPKey(y) { PrefixInjective("ip:", x, y); }
    if AccountKey(x) == AccountKey(y) { PrefixInjective("account:", x, y); }
  }

  function Live(buckets: map<Key, Bucket>, now: int): map<Key, Bucket> {
    map k | k in buckets && now < buckets[k].until :: buckets[k]
  }

  function Cleaned(cfg: Config, t: Table, now: int): Table {
    if now >= t.nextCleanup then Table(Live(t.buckets, now), now + cfg.window) else t
  }

  // A new key that finds the table full.
  predicate CapRefused(cfg: Config, t: Table, key: Key, now: int) {
    key !in Cleaned(cfg, t, now).buckets && |Cleaned(cfg, t, now).buckets| >= cfg.maxEntries
  }

  datatype Verdict = Admit(bucket: Bucket) | Refuse(delay: int)

  // What one key's bucket alone decides; a refusal leaves the bucket as it is.
  function Decide(window: int, b: Option<Bucket>, limit: int, now: int): Verdict {
    var b1 := if b.None? || now >= b.value.until then Bucket(0, now + window) else b.value;
    if b1.count >= limit then Refuse(b1.until - now) else Admit(b1.(count := b1.count + 1))
  }

  function Lookup(t: Table, key: Key): Option<Bucket> {
    if key in t.buckets then Some(t.buckets[key]) else None
  }

  // One call of allow: the table after it and the delay returned.
  function Step(cfg: Config, t: Table, key: Key, limit: int, now: int): (Table, int) {
    var c := Cleaned(cfg, t, now);
    if CapRefused(cfg, t, key, now) then
      (c, c.nextCleanup - now)
    else
      match Decide(cfg.window, Lookup(c, key), limit, now)
      case Admit(b) => (c.(buckets := c.buckets[key := b]), 0)
      case Refuse(delay) => (c, delay)
  }

  class Limiter {
    const cfg: Config
    var buckets: map<Key, Bucket>
    var nextCleanup: int
    var slots: nat      // occupied places of the semaphore

    constructor (cfg: Config)
      ensures this.cfg == WithDefaults(cfg)
      ensures buckets == map[] && nextCleanup == 0 && slots == 0
    {
      this.cfg := WithDefaults(cfg);
      buckets, nextCleanup, slots := map[], 0, 0;
    }

    // The loop over the stored keys that drops the expired ones.
    method DropExpired(now: int)
      modifies this`buckets
      ensures buckets == Live(old(buckets), now)
    {
      var keys := buckets.Keys;
      while keys != {}
        invariant keys <= old(buckets).Keys && keys <= buckets.Keys
        invariant forall k :: k in buckets <==> k in old(buckets) && (k in keys || now < old(buckets)[k].until)
        invariant forall k :: k in buckets ==> buckets[k] == old(buckets)[k]
      {
        var k :| k in keys;
        if now >= buckets[k].until {
          buckets := buckets - {k};
        }
        keys := keys - {k};
      }
    }

    // `now` is read from the clock while the mutex is held.
    method Allow(key: Key, limit: int, now: int) returns (retry: int)
      requires limit > 0 && ValidConfig(cfg)
      modifies this`buckets, this`nextCleanup
      ensures (Table(buckets, nextCleanup), retry) == Step(cfg, Table(old(buckets), old(nextCleanup)), key, limit, now)
    {
      hide Live;
      if now >= nextCleanup {
        DropExpired(now);
        nextCleanup := now + cfg.window;
      }
      var known := key in buckets;
      var b := if known then buckets[key] else Bucket(0, 0);
      if !known || now >= b.until {
        if !known && |buckets| >= cfg.maxEntries {
          return nextCleanup - now;
        }
        b := Bucket(0, now + cfg.window);
      }
      if b.count >= limit {
        return b.until - now;
      }
      b := b.(count := b.count + 1);
      buckets := buckets[key := b];
      return 0;
    }

    method AllowIP(ip: string, now: int) returns (retry: int)
      requires ValidConfig(cfg)
      modifies this`buckets, this`nextCleanup
      ensures (Table(buckets, nextCleanup), retry) ==
              Step(cfg, Table(old(buckets), old(nextCleanup)), IPKey(ip), cfg.ipLimit, now)
    {
      retry := Allow("ip:" + ip, cfg.ipLimit, now);
    }

    // The account name is already trimmed and in lower case.
    method AllowAccount(account: string, now: int) returns (retry: int)
      requires ValidConfig(cfg)
      modifies this`buckets, this`nextCleanup
      ensures (Table(buckets, nextCleanup), retry) ==
              Step(cfg, Table(old(buckets), old(nextCleanup)), AccountKey(account), cfg.accountLimit, now)
    {
      retry := Allow("account:" + account, cfg.accountLimit, now);
    }

    method Acquire(canceled: bool) returns (r: Result<()>)
      modifies this`slots
      ensures canceled ==> r == Err(Canceled) && slots == old(slots)
      ensures !canceled && old(slots) < cfg.maxConcurrent ==> r == Ok(()) && slots == old(slots) + 1
      ensures !canceled && old(slots) >= cfg.maxConcurrent ==> r == Err(Limited(1_000_000_000)) && slots == old(slots)
    {
      if canceled { return Err(Canceled); }
      if slots < cfg.maxConcurrent {
        slots := slots + 1;
        return Ok(());
      }
      return Err(Limited(1_000_000_000));
    }

    method Release()
      requires slots > 0
      modifies this`slots
      ensures slots == old(slots) - 1
    {
      slots := slots - 1;
    }
  }
}
