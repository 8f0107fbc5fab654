/** DailyQuotaModel: one counter per user, day and resource, created on first use and
    read under a row lock before it is raised. */
module DailyQuotas {
  import opened Errors
  import opened Store

  /** The DailyQuota struct: the day and resource name the counter, `usage` receives the
      locked reading, `limit` is the caller's allowance. */
  class DailyQuota {
    var usageDate: int
    var resource: string
    var usage: int
    var limit: int

    constructor (usageDate: int, resource: string, limit: int)
      ensures this.usageDate == usageDate && this.resource == resource && this.limit == limit && usage == 0
    {
      this.usageDate, this.resource, this.limit := usageDate, resource, limit;
      usage := 0;
    }

    function Key(user: Uuid): QuotaKey
      reads this
    {
      QuotaKey(user, usageDate, resource)
    }
  }

  /** The counter's value, 0 for a counter not created yet. */
  function Usage(s: Tables, key: QuotaKey): int {
    if key in s.dailyQuota then s.dailyQuota[key] else DefaultQuotaUsed
  }

  /** `INSERT ... ON CONFLICT DO NOTHING`: create the counter at its default, or leave an
      existing one alone. */
  function InsertSpec(s: Tables, key: QuotaKey): Tables {
    if key in s.dailyQuota then s else s.(dailyQuota := s.dailyQuota[key := DefaultQuotaUsed])
  }

  /** `UPDATE ... SET quota_used = quota_used + increment`: no row, no change. */
  function IncrementSpec(s: Tables, key: QuotaKey, increment: int): Tables {
    if key in s.dailyQuota then s.(dailyQuota := s.dailyQuota[key := s.dailyQuota[key] + increment]) else s
  }

  method Insert(db: Database, quota: DailyQuota, user: Uuid) returns (err: Option<Error>)
    modifies db
    ensures db.Snapshot() == InsertSpec(old(db.Snapshot()), quota.Key(user))
    ensures err.None?
  {
    var key := quota.Key(user);
    if key !in db.dailyQuota {
      db.dailyQuota := db.dailyQuota[key := DefaultQuotaUsed];
    }
    return None;
  }

  /** `SELECT quota_used ... FOR UPDATE`, scanned into `quota.usage`; a missing counter is
      sql.ErrNoRows and leaves the struct alone. */
  method UpdateLock(db: Database, quota: DailyQuota, user: Uuid) returns (err: Option<Error>)
    modifies quota
    ensures quota.Key(user) == old(quota.Key(user)) && quota.limit == old(quota.limit)
    ensures err.None? <==> quota.Key(user) in db.dailyQuota
    ensures err.None? ==> quota.usage == db.dailyQuota[quota.Key(user)]
    ensures err.Some? ==> err == Some(NoRows) && quota.usage == old(quota.usage)
  {
    var key := quota.Key(user);
    if key !in db.dailyQuota {
      return Some(NoRows);
    }
    quota.usage := db.dailyQuota[key];
    return None;
  }

  method Increment(db: Database, quota: DailyQuota, user: Uuid, increment: int) returns (err: Option<Error>)
    modifies db
    ensures db.Snapshot() == IncrementSpec(old(db.Snapshot()), quota.Key(user), increment)
    ensures err.None?
  {
    var key := quota.Key(user);
    if key in db.dailyQuota {
      db.dailyQuota := db.dailyQuota[key := db.dailyQuota[key] + increment];
    }
    return None;
  }

  /** Creating a counter twice is creating it once, it never resets a counter in use, and
      afterwards the counter exists and reads as before. */
  lemma InsertIdempotent(s: Tables, key: QuotaKey)
    ensures InsertSpec(InsertSpec(s, key), key) == InsertSpec(s, key)
    ensures key in InsertSpec(s, key).dailyQuota
    ensures Usage(InsertSpec(s, key), key) == Usage(s, key)
    ensures key in s.dailyQuota ==> InsertSpec(s, key) == s
  {
  }

  /** Increments on an existing counter add up, and touch no other counter. */
  lemma IncrementAdds(s: Tables, key: QuotaKey, a: int, b: int, other: QuotaKey)
    requires key in s.dailyQuota && other != key
    ensures IncrementSpec(IncrementSpec(s, key, a), key, b) == IncrementSpec(s, key, a + b)
    ensures Usage(IncrementSpec(s, key, a), key) == Usage(s, key) + a
    ensures Usage(IncrementSpec(s, key, a), other) == Usage(s, other)
  {
  }
}
