/** Models: the transaction helpers and the quota-checked creation of targets, actions and
    sessions. The function handed to WithTx is, in every caller, the body withQuotaTx
    builds; it is modelled as that body. What the database and the runtime do on their own
    (a failed BEGIN, a statement that fails, a failed COMMIT, the uuid and serial the
    database assigns, the clock) comes from a `TxEnv`, one per attempt. */
module Models {
  import opened Errors
  import opened Store
  import Targets
  import Tasks
  import Sessions
  import DailyQuotas
  import Tokenizer

  /** The statements of the quota body, in order. */
  datatype Step = QuotaInsert | QuotaLock | CreateRow | QuotaIncrement

  /** What one attempt meets: an error from BeginTx, a statement failing with an error,
      an error from Commit, and the values the database generates. */
  datatype TxEnv = TxEnv(beginErr: Option<Error>, fault: Option<(Step, Error)>, commitErr: Option<Error>,
                         newUuid: Uuid, serial: int, now: Time)

  predicate Fails(env: TxEnv, step: Step) {
    env.fault.Some? && env.fault.value.0 == step
  }

  /** The row a creation inserts, with the struct it reads and writes back into. */
  datatype Creation =
    | NewTarget(target: Targets.Target, fts: Fts)
    | NewAction(action: Tasks.Task, isHan: char -> bool, cut: string -> seq<string>)
    | NewSession(session: Sessions.Session, fts: Fts)

  /** What a creation's statement reads: the fields of the struct and the FTS value. */
  datatype CreateInput =
    | TargetIn(target: Targets.TargetInput, fts: Fts)
    | ActionIn(action: Tasks.TaskInput, fts: Fts)
    | SessionIn(actionUuid: Uuid, fts: Fts)

  function Objects(c: Creation): set<object> {
    match c
    case NewTarget(t, _) => {t}
    case NewAction(a, _, _) => {a}
    case NewSession(s, _) => {s}
  }

  function InputOf(c: Creation): CreateInput
    reads Objects(c)
  {
    match c
    case NewTarget(t, fts) => TargetIn(t.Input(), fts)
    case NewAction(a, isHan, cut) =>
      ActionIn(a.Input(), GenFts(a.fields.title, a.fields.description, a.fields.notes, isHan, cut))
    case NewSession(s, fts) => SessionIn(s.actionUuid, fts)
  }

  /** The insert statement of the creation. */
  function CreateSpec(s: Tables, c: CreateInput, user: Uuid, env: TxEnv): Outcome {
    match c
    case TargetIn(t, fts) => Targets.InsertSpec(s, t, fts, user, env.newUuid, env.serial)
    case ActionIn(a, fts) => Tasks.InsertSpec(s, ActionsTable, a, fts, user, env.newUuid, env.serial)
    case SessionIn(action, fts) => Sessions.InsertSpec(s, action, fts, user, env.newUuid, env.now)
  }

  /** The rows of the table a creation inserts into. */
  function Rows(s: Tables, c: CreateInput): set<Uuid> {
    match c
    case TargetIn(_, _) => s.targets.Keys
    case ActionIn(_, _) => s.actions.Keys
    case SessionIn(_, _) => s.sessions.Keys
  }

  /** An insert leaves the quota counters alone, and a successful one adds exactly the new
      uuid to its table. */
  lemma CreateEffect(s: Tables, c: CreateInput, user: Uuid, env: TxEnv)
    ensures CreateSpec(s, c, user, env).tables.dailyQuota == s.dailyQuota
    ensures CreateSpec(s, c, user, env).err.None? ==>
              env.newUuid !in Rows(s, c) && Rows(CreateSpec(s, c, user, env).tables, c) == Rows(s, c) + {env.newUuid}
    ensures CreateSpec(s, c, user, env).err.Some? ==> CreateSpec(s, c, user, env).tables == s
  {
  }

  /** CreateTarget, CreateAction and CreateSession's insert, on the struct. */
  method Create(db: Database, c: Creation, user: Uuid, env: TxEnv) returns (err: Option<Error>)
    modifies db, Objects(c)
    ensures db.Snapshot() == CreateSpec(old(db.Snapshot()), old(InputOf(c)), user, env).tables
    ensures err == CreateSpec(old(db.Snapshot()), old(InputOf(c)), user, env).err
    ensures InputOf(c) == old(InputOf(c))
  {
    match c
    case NewTarget(t, fts) =>
      err := Targets.Insert(db, t, fts, user, env.newUuid, env.serial);
    case NewAction(a, isHan, cut) =>
      err := Tasks.InsertAction(db, a, user, env.newUuid, env.serial, isHan, cut);
    case NewSession(s, fts) =>
      err := Sessions.Insert(db, s, fts, user, env.newUuid, env.now);
  }

  /** The body withQuotaTx runs inside the transaction: create the counter if needed, lock
      and read it, refuse when the day's allowance is used up, insert, count the insert.
      A failing statement ends the body with its error; what ran before it stays in the
      tables until the transaction is rolled back. */
  function BodySpec(s: Tables, key: QuotaKey, limit: int, c: CreateInput, user: Uuid, env: TxEnv): Outcome {
    if Fails(env, QuotaInsert) then Outcome(s, Some(env.fault.value.1))
    else
      var s1 := DailyQuotas.InsertSpec(s, key);
      if Fails(env, QuotaLock) then Outcome(s1, Some(env.fault.value.1))
      else if DailyQuotas.Usage(s1, key) >= limit then Outcome(s1, Some(QuotaExceeded))
      else if Fails(env, CreateRow) then Outcome(s1, Some(env.fault.value.1))
      else
        var o := CreateSpec(s1, c, user, env);
        if o.err.Some? then o
        else if Fails(env, QuotaIncrement) then Outcome(o.tables, Some(env.fault.value.1))
        else Outcome(DailyQuotas.IncrementSpec(o.tables, key, 1), None)
  }

  method QuotaBody(db: Database, quota: DailyQuotas.DailyQuota, c: Creation, user: Uuid, env: TxEnv)
    returns (err: Option<Error>)
    modifies db, quota, Objects(c)
    ensures db.Snapshot() == BodySpec(old(db.Snapshot()), old(quota.Key(user)), old(quota.limit), old(InputOf(c)), user, env).tables
    ensures err == BodySpec(old(db.Snapshot()), old(quota.Key(user)), old(quota.limit), old(InputOf(c)), user, env).err
    ensures quota.Key(user) == old(quota.Key(user)) && quota.limit == old(quota.limit) && InputOf(c) == old(InputOf(c))
  {
    ghost var key, input := quota.Key(user), InputOf(c);
    var limit := quota.limit;
    if Fails(env, QuotaInsert) {
      return Some(env.fault.value.1);
    }
    err := DailyQuotas.Insert(db, quota, user);
    ghost var s1 := db.Snapshot();
    assert s1 == DailyQuotas.InsertSpec(old(db.Snapshot()), key);
    if Fails(env, QuotaLock) {
      return Some(env.fault.value.1);
    }
    err := DailyQuotas.UpdateLock(db, quota, user);
    assert err.None? ==> quota.usage == DailyQuotas.Usage(s1, key);
    if err.Some? {
      return err;
    }
    if quota.usage >= limit {
      return Some(QuotaExceeded);
    }
    if Fails(env, CreateRow) {
      return Some(env.fault.value.1);
    }
    assert InputOf(c) == input;
    err := Create(db, c, user, env);
    if err.Some? {
      return err;
    }
    if Fails(env, QuotaIncrement) {
      return Some(env.fault.value.1);
    }
    err := DailyQuotas.Increment(db, quota, user, 1);
  }

  /** WithTx as written: the deferred function assigns Commit's error to the local `err`
      after `return err` has already fixed the result, so a failed commit is reported as
      success. */
  function TxAsWritten(s: Tables, key: QuotaKey, limit: int, c: CreateInput, user: Uuid, env: TxEnv): Outcome {
    if env.beginErr.Some? then Outcome(s, env.beginErr)
    else
      var o := BodySpec(s, key, limit, c, user, env);
      if o.err.Some? then Outcome(s, o.err)
      else if env.commitErr.Some? then Outcome(s, None)
      else Outcome(o.tables, None)
  }

  /** WithTx as evidently intended: a failed commit is returned. */
  function Tx(s: Tables, key: QuotaKey, limit: int, c: CreateInput, user: Uuid, env: TxEnv): Outcome {
    if env.beginErr.Some? then Outcome(s, env.beginErr)
    else
      var o := BodySpec(s, key, limit, c, user, env);
      if o.err.Some? then Outcome(s, o.err)
      else if env.commitErr.Some? then Outcome(s, env.commitErr)
      else Outcome(o.tables, None)
  }

  /** Which WithTx an attempt runs: the source's, which reports a failed commit as success,
      or the corrected one, which returns the commit's error. WithTxRetry runs the first;
      the lemmas below say what each of them gives. */
  datatype TxVariant = AsWritten | Corrected

  function Attempt(v: TxVariant, s: Tables, key: QuotaKey, limit: int, c: CreateInput, user: Uuid, env: TxEnv): Outcome {
    if v == AsWritten then TxAsWritten(s, key, limit, c, user, env) else Tx(s, key, limit, c, user, env)
  }

  method WithTx(db: Database, quota: DailyQuotas.DailyQuota, c: Creation, user: Uuid, env: TxEnv)
    returns (err: Option<Error>)
    modifies db, quota, Objects(c)
    ensures db.Snapshot() == TxAsWritten(old(db.Snapshot()), old(quota.Key(user)), old(quota.limit), old(InputOf(c)), user, env).tables
    ensures err == TxAsWritten(old(db.Snapshot()), old(quota.Key(user)), old(quota.limit), old(InputOf(c)), user, env).err
    ensures quota.Key(user) == old(quota.Key(user)) && quota.limit == old(quota.limit) && InputOf(c) == old(InputOf(c))
  {
    if env.beginErr.Some? {
      return env.beginErr;
    }
    var tx := db.Snapshot();
    var bodyErr := QuotaBody(db, quota, c, user, env);
    err := bodyErr;
    if bodyErr.Some? {
      db.Restore(tx);
    } else if env.commitErr.Some? {
      // the server rolls the transaction back; the local error is set but not returned
      db.Restore(tx);
    }
  }

  method WithTxChecked(db: Database, quota: DailyQuotas.DailyQuota, c: Creation, user: Uuid, env: TxEnv)
    returns (err: Option<Error>)
    modifies db, quota, Objects(c)
    ensures db.Snapshot() == Tx(old(db.Snapshot()), old(quota.Key(user)), old(quota.limit), old(InputOf(c)), user, env).tables
    ensures err == Tx(old(db.Snapshot()), old(quota.Key(user)), old(quota.limit), old(InputOf(c)), user, env).err
    ensures quota.Key(user) == old(quota.Key(user)) && quota.limit == old(quota.limit) && InputOf(c) == old(InputOf(c))
  {
    if env.beginErr.Some? {
      return env.beginErr;
    }
    var tx := db.Snapshot();
    err := QuotaBody(db, quota, c, user, env);
    if err.Some? {
      db.Restore(tx);
    } else if env.commitErr.Some? {
      db.Restore(tx);
      err := env.commitErr;
    }
  }

  /** The outcome of WithTxRetry and the number of attempts it made. */
  datatype RetryResult = RetryResult(outcome: Outcome, attempts: nat)

  /** WithTxRetry from attempt `attempt` on, each attempt running the WithTx variant `v`:
      stop at success or at an error that is not retryable; after attempt `maxRetries`
      report the retries as exhausted. */
  function Retry(v: TxVariant, s: Tables, key: QuotaKey, limit: int, c: CreateInput, user: Uuid,
                 maxRetries: int, envs: nat -> TxEnv, attempt: nat): RetryResult
    decreases if attempt <= maxRetries then maxRetries + 1 - attempt else 0
  {
    if attempt > maxRetries then RetryResult(Outcome(s, Some(RetriesExhausted(maxRetries))), attempt)
    else
      var o := Attempt(v, s, key, limit, c, user, envs(attempt));
      if o.err.Some? && Retryable(o.err.value) then Retry(v, o.tables, key, limit, c, user, maxRetries, envs, attempt + 1)
      else RetryResult(o, attempt + 1)
  }

  /** WithTxRetry: every attempt runs WithTx as written. */
  method WithTxRetry(db: Database, quota: DailyQuotas.DailyQuota, c: Creation, user: Uuid,
                     maxRetries: int, envs: nat -> TxEnv) returns (err: Option<Error>)
    modifies db, quota, Objects(c)
    ensures var r := Retry(AsWritten, old(db.Snapshot()), old(quota.Key(user)), old(quota.limit), old(InputOf(c)), user, maxRetries, envs, 0);
      db.Snapshot() == r.outcome.tables && err == r.outcome.err
  {
    ghost var key, limit, input := quota.Key(user), quota.limit, InputOf(c);
    ghost var goal := Retry(AsWritten, db.Snapshot(), key, limit, input, user, maxRetries, envs, 0);
    var attempt := 0;
    while attempt <= maxRetries
      invariant quota.Key(user) == key && quota.limit == limit && InputOf(c) == input
      invariant Retry(AsWritten, db.Snapshot(), key, limit, input, user, maxRetries, envs, attempt) == goal
      decreases maxRetries + 1 - attempt
    {
      err := WithTx(db, quota, c, user, envs(attempt));
      if err.None? {
        return;
      }
      if Retryable(err.value) {
        // the back-off sleep is left out
        attempt := attempt + 1;
        continue;
      }
      return;
    }
    return Some(RetriesExhausted(maxRetries));
  }

  /** withQuotaTx: the quota body under WithTxRetry with three retries. */
  const QuotaRetries: int := 3

  method WithQuotaTx(db: Database, quota: DailyQuotas.DailyQuota, c: Creation, user: Uuid, envs: nat -> TxEnv)
    returns (err: Option<Error>)
    modifies db, quota, Objects(c)
    ensures var r := Retry(AsWritten, old(db.Snapshot()), old(quota.Key(user)), old(quota.limit), old(InputOf(c)), user, QuotaRetries, envs, 0);
      db.Snapshot() == r.outcome.tables && err == r.outcome.err
  {
    err := WithTxRetry(db, quota, c, user, QuotaRetries, envs);
  }

  method CreateTarget(db: Database, target: Targets.Target, fts: Fts, quota: DailyQuotas.DailyQuota, user: Uuid, envs: nat -> TxEnv)
    returns (err: Option<Error>)
    modifies db, quota, target
    ensures var r := Retry(AsWritten, old(db.Snapshot()), old(quota.Key(user)), old(quota.limit), TargetIn(old(target.Input()), fts), user, QuotaRetries, envs, 0);
      db.Snapshot() == r.outcome.tables && err == r.outcome.err
  {
    err := WithQuotaTx(db, quota, NewTarget(target, fts), user, envs);
  }

  method CreateAction(db: Database, action: Tasks.Task, quota: DailyQuotas.DailyQuota, user: Uuid, envs: nat -> TxEnv,
                      isHan: char -> bool, cut: string -> seq<string>)
    returns (err: Option<Error>)
    modifies db, quota, action
    ensures var r := Retry(AsWritten, old(db.Snapshot()), old(quota.Key(user)), old(quota.limit), old(InputOf(NewAction(action, isHan, cut))),
                           user, QuotaRetries, envs, 0);
      db.Snapshot() == r.outcome.tables && err == r.outcome.err
  {
    err := WithQuotaTx(db, quota, NewAction(action, isHan, cut), user, envs);
  }

  method CreateSession(db: Database, session: Sessions.Session, fts: Fts, quota: DailyQuotas.DailyQuota, user: Uuid, envs: nat -> TxEnv)
    returns (err: Option<Error>)
    modifies db, quota, session
    ensures var r := Retry(AsWritten, old(db.Snapshot()), old(quota.Key(user)), old(quota.limit), SessionIn(old(session.actionUuid), fts), user, QuotaRetries, envs, 0);
      db.Snapshot() == r.outcome.tables && err == r.outcome.err
  {
    err := WithQuotaTx(db, quota, NewSession(session, fts), user, envs);
  }

  /** The body succeeds only under the limit, and then it has inserted exactly one new row
      and raised the counter by one. */
  lemma BodyEffect(s: Tables, key: QuotaKey, limit: int, c: CreateInput, user: Uuid, env: TxEnv)
    requires BodySpec(s, key, limit, c, user, env).err.None?
    ensures var r := BodySpec(s, key, limit, c, user, env).tables;
      DailyQuotas.Usage(s, key) < limit
      && DailyQuotas.Usage(r, key) == DailyQuotas.Usage(s, key) + 1
      && env.newUuid !in Rows(s, c) && Rows(r, c) == Rows(s, c) + {env.newUuid}
  {
    var s1 := DailyQuotas.InsertSpec(s, key);
    DailyQuotas.InsertIdempotent(s, key);
    CreateEffect(s1, c, user, env);
    var o := CreateSpec(s1, c, user, env);
    assert key in o.tables.dailyQuota;
    assert Rows(s1, c) == Rows(s, c);
    assert Rows(DailyQuotas.IncrementSpec(o.tables, key, 1), c) == Rows(o.tables, c);
  }

  /** One attempt is all or nothing on error: a reported error leaves every table as it
      was. A reported success follows a successful body; it leaves what the body did when
      the commit succeeds, and when the commit fails (which only WithTx as written reports
      as success) it leaves nothing. */
  lemma TxAtomic(v: TxVariant, s: Tables, key: QuotaKey, limit: int, c: CreateInput, user: Uuid, env: TxEnv)
    ensures Attempt(v, s, key, limit, c, user, env).err.Some? ==> Attempt(v, s, key, limit, c, user, env).tables == s
    ensures Attempt(v, s, key, limit, c, user, env).err.None? ==>
              env.beginErr.None? && BodySpec(s, key, limit, c, user, env).err.None?
              && if env.commitErr.None? then Attempt(v, s, key, limit, c, user, env).tables == BodySpec(s, key, limit, c, user, env).tables
                 else v == AsWritten && Attempt(v, s, key, limit, c, user, env).tables == s
  {
  }

  /** As written, a failed commit after a successful body is reported as success although
      the row is not there. */
  lemma CommitErrorLost(s: Tables, key: QuotaKey, limit: int, c: CreateInput, user: Uuid, env: TxEnv)
    requires env.beginErr.None? && env.commitErr.Some?
    requires BodySpec(s, key, limit, c, user, env).err.None?
    ensures TxAsWritten(s, key, limit, c, user, env) == Outcome(s, None)
    ensures env.newUuid !in Rows(TxAsWritten(s, key, limit, c, user, env).tables, c)
  {
    BodyEffect(s, key, limit, c, user, env);
  }

  /** Empty tables apart from the roles, a target input and a key for the examples. */
  function ExampleTables(): Tables {
    Tables(map[Owner := 1, Editor := 2, Viewer := 3], {}, map[], map[], map[], map[],
           map[], map[], map[], map[], map[])
  }

  function ExampleInput(): CreateInput {
    var none := Tokenizer.Tokenizer("", "");
    TargetIn(Targets.TargetInput("plan", "", "", None, "queued"), Fts(none, none, none))
  }

  /** An attempt whose commit fails because the context's deadline has passed. */
  function ExampleEnv(): TxEnv {
    TxEnv(None, None, Some(DeadlineExceeded), 5, 1, 0)
  }

  /** A concrete case: a first target of the day, whose commit fails because the
      context's deadline has passed, is reported as created. */
  lemma CommitErrorLostExample()
    ensures var s, key := ExampleTables(), QuotaKey(7, 0, "targets");
            TxAsWritten(s, key, 1, ExampleInput(), 7, ExampleEnv()) == Outcome(s, None)
            && Tx(s, key, 1, ExampleInput(), 7, ExampleEnv()) == Outcome(s, Some(DeadlineExceeded))
            && 5 !in TxAsWritten(s, key, 1, ExampleInput(), 7, ExampleEnv()).tables.targets
  {
  }

  /** Corrected: a transaction reports success exactly when its row was inserted and
      counted. */
  lemma TxSuccessCommitted(s: Tables, key: QuotaKey, limit: int, c: CreateInput, user: Uuid, env: TxEnv)
    requires Tx(s, key, limit, c, user, env).err.None?
    ensures var r := Tx(s, key, limit, c, user, env).tables;
      env.newUuid !in Rows(s, c) && Rows(r, c) == Rows(s, c) + {env.newUuid}
      && DailyQuotas.Usage(r, key) == DailyQuotas.Usage(s, key) + 1
  {
    BodyEffect(s, key, limit, c, user, env);
  }

  /** From `s` to `r` one creation took effect: it ran under the limit, inserted one new
      row and raised the counter by one. */
  ghost predicate Committed(s: Tables, r: Tables, key: QuotaKey, limit: int, c: CreateInput) {
    DailyQuotas.Usage(s, key) < limit
    && DailyQuotas.Usage(r, key) == DailyQuotas.Usage(s, key) + 1
    && exists u :: u !in Rows(s, c) && Rows(r, c) == Rows(s, c) + {u}
  }

  /** A failed WithTxRetry leaves every table as it was, whichever WithTx it runs. */
  lemma {:induction false} RetryFailureUnchanged(v: TxVariant, s: Tables, key: QuotaKey, limit: int, c: CreateInput, user: Uuid,
                                                 maxRetries: int, envs: nat -> TxEnv, attempt: nat)
    requires Retry(v, s, key, limit, c, user, maxRetries, envs, attempt).outcome.err.Some?
    ensures Retry(v, s, key, limit, c, user, maxRetries, envs, attempt).outcome.tables == s
    decreases if attempt <= maxRetries then maxRetries + 1 - attempt else 0
  {
    if attempt <= maxRetries {
      var o := Attempt(v, s, key, limit, c, user, envs(attempt));
      TxAtomic(v, s, key, limit, c, user, envs(attempt));
      if o.err.Some? && Retryable(o.err.value) {
        RetryFailureUnchanged(v, o.tables, key, limit, c, user, maxRetries, envs, attempt + 1);
      }
    }
  }

  /** A successful WithTxRetry inserted exactly one row, under the limit, and counted it,
      except that WithTx as written also reports success for an attempt whose commit
      failed and which changed nothing. With the corrected WithTx a success is always
      committed. */
  lemma {:induction false} RetrySuccess(v: TxVariant, s: Tables, key: QuotaKey, limit: int, c: CreateInput, user: Uuid,
                                        maxRetries: int, envs: nat -> TxEnv, attempt: nat)
    requires Retry(v, s, key, limit, c, user, maxRetries, envs, attempt).outcome.err.None?
    ensures var r := Retry(v, s, key, limit, c, user, maxRetries, envs, attempt).outcome.tables;
      Committed(s, r, key, limit, c) || (v == AsWritten && r == s)
    ensures v == Corrected ==> Committed(s, Retry(v, s, key, limit, c, user, maxRetries, envs, attempt).outcome.tables, key, limit, c)
    decreases if attempt <= maxRetries then maxRetries + 1 - attempt else 0
  {
    var env := envs(attempt);
    var o := Attempt(v, s, key, limit, c, user, env);
    TxAtomic(v, s, key, limit, c, user, env);
    if o.err.Some? {
      RetrySuccess(v, o.tables, key, limit, c, user, maxRetries, envs, attempt + 1);
    } else if env.commitErr.None? {
      BodyEffect(s, key, limit, c, user, env);
      assert env.newUuid !in Rows(s, c) && Rows(o.tables, c) == Rows(s, c) + {env.newUuid};
    }
  }

  /** WithTxRetry returns nil, an error it does not retry, or the exhaustion error. */
  lemma {:induction false} RetryErrors(v: TxVariant, s: Tables, key: QuotaKey, limit: int, c: CreateInput, user: Uuid,
                                       maxRetries: int, envs: nat -> TxEnv, attempt: nat)
    ensures var e := Retry(v, s, key, limit, c, user, maxRetries, envs, attempt).outcome.err;
      e.None? || !Retryable(e.value) || e.value == RetriesExhausted(maxRetries)
    decreases if attempt <= maxRetries then maxRetries + 1 - attempt else 0
  {
    if attempt <= maxRetries {
      var o := Attempt(v, s, key, limit, c, user, envs(attempt));
      if o.err.Some? && Retryable(o.err.value) {
        RetryErrors(v, o.tables, key, limit, c, user, maxRetries, envs, attempt + 1);
      }
    }
  }

  /** Attempts run from 0 to maxRetries at most: maxRetries + 1 in all, none when
      maxRetries is negative. */
  lemma {:induction false} RetryAttempts(v: TxVariant, s: Tables, key: QuotaKey, limit: int, c: CreateInput, user: Uuid,
                                         maxRetries: int, envs: nat -> TxEnv, attempt: nat)
    ensures var n := Retry(v, s, key, limit, c, user, maxRetries, envs, attempt).attempts;
      attempt <= n && (n <= attempt || n <= maxRetries + 1)
    ensures attempt > maxRetries ==> Retry(v, s, key, limit, c, user, maxRetries, envs, attempt).attempts == attempt
    decreases if attempt <= maxRetries then maxRetries + 1 - attempt else 0
  {
    if attempt <= maxRetries {
      var o := Attempt(v, s, key, limit, c, user, envs(attempt));
      if o.err.Some? && Retryable(o.err.value) {
        RetryAttempts(v, o.tables, key, limit, c, user, maxRetries, envs, attempt + 1);
      }
    }
  }

  /** When every remaining attempt fails with a retryable error, the retries run out and
      nothing changes. With WithTx as written a failed commit is not such a failure: it
      ends the loop with nil. */
  lemma {:induction false} AllRetryableExhausts(v: TxVariant, s: Tables, key: QuotaKey, limit: int, c: CreateInput, user: Uuid,
                                                maxRetries: int, envs: nat -> TxEnv, attempt: nat)
    requires forall i: nat :: attempt <= i <= maxRetries ==>
               Attempt(v, s, key, limit, c, user, envs(i)).err.Some? && Retryable(Attempt(v, s, key, limit, c, user, envs(i)).err.value)
    ensures Retry(v, s, key, limit, c, user, maxRetries, envs, attempt).outcome == Outcome(s, Some(RetriesExhausted(maxRetries)))
    decreases if attempt <= maxRetries then maxRetries + 1 - attempt else 0
  {
    if attempt <= maxRetries {
      TxAtomic(v, s, key, limit, c, user, envs(attempt));
      AllRetryableExhausts(v, s, key, limit, c, user, maxRetries, envs, attempt + 1);
    }
  }

  /** The counter never passes the limit through WithTxRetry, whichever WithTx it runs. */
  lemma QuotaRespected(v: TxVariant, s: Tables, key: QuotaKey, limit: int, c: CreateInput, user: Uuid,
                       maxRetries: int, envs: nat -> TxEnv)
    requires DailyQuotas.Usage(s, key) <= limit
    ensures DailyQuotas.Usage(Retry(v, s, key, limit, c, user, maxRetries, envs, 0).outcome.tables, key) <= limit
  {
    if Retry(v, s, key, limit, c, user, maxRetries, envs, 0).outcome.err.Some? {
      RetryFailureUnchanged(v, s, key, limit, c, user, maxRetries, envs, 0);
    } else {
      RetrySuccess(v, s, key, limit, c, user, maxRetries, envs, 0);
    }
  }

  /** A day of creations: the tables afterwards, how many creations were reported as
      successful and how many of those changed the tables. */
  datatype DayResult = DayResult(tables: Tables, reported: nat, committed: nat)

  /** A day of creations by one user on one resource, each under withQuotaTx with the WithTx
      variant `v`. */
  function RunAll(v: TxVariant, s: Tables, key: QuotaKey, limit: int, user: Uuid,
                  requests: seq<(CreateInput, nat -> TxEnv)>): DayResult
  {
    if requests == [] then DayResult(s, 0, 0)
    else
      var r := RunAll(v, s, key, limit, user, requests[..|requests| - 1]);
      var last := requests[|requests| - 1];
      var o := Retry(v, r.tables, key, limit, last.0, user, QuotaRetries, last.1, 0).outcome;
      DayResult(o.tables,
                r.reported + (if o.err.None? then 1 else 0),
                r.committed + (if o.err.None? && o.tables != r.tables then 1 else 0))
  }

  /** The daily quota over any sequence of creations: the counter counts exactly the
      creations that took effect and stays within the limit. With WithTx as written the
      caller may be told of more successes than that; with the corrected WithTx every
      reported success took effect, so at most `limit` minus the starting usage succeed. */
  lemma {:induction false} DailyLimit(v: TxVariant, s: Tables, key: QuotaKey, limit: int, user: Uuid,
                                      requests: seq<(CreateInput, nat -> TxEnv)>)
    requires DailyQuotas.Usage(s, key) <= limit
    ensures var r := RunAll(v, s, key, limit, user, requests);
      DailyQuotas.Usage(r.tables, key) == DailyQuotas.Usage(s, key) + r.committed
      && DailyQuotas.Usage(r.tables, key) <= limit
      && r.committed <= r.reported
      && (v == Corrected ==> r.committed == r.reported)
    decreases |requests|
  {
    if requests != [] {
      var init := requests[..|requests| - 1];
      DailyLimit(v, s, key, limit, user, init);
      var r := RunAll(v, s, key, limit, user, init);
      var last := requests[|requests| - 1];
      var o := Retry(v, r.tables, key, limit, last.0, user, QuotaRetries, last.1, 0).outcome;
      if o.err.None? {
        RetrySuccess(v, r.tables, key, limit, last.0, user, QuotaRetries, last.1, 0);
      } else {
        RetryFailureUnchanged(v, r.tables, key, limit, last.0, user, QuotaRetries, last.1, 0);
      }
    }
  }

  /** As written, the quota does not bound what callers are told: with a limit of one, two
      first targets of the day whose commits both miss the deadline are both reported as
      created, while nothing is stored and the counter stays at zero. */
  lemma ReportedOverLimit()
    ensures var s, key, req := ExampleTables(), QuotaKey(7, 0, "targets"), (ExampleInput(), (i: nat) => ExampleEnv());
            var r := RunAll(AsWritten, s, key, 1, 7, [req, req]);
            r.reported == 2 && r.committed == 0 && r.tables == s && DailyQuotas.Usage(r.tables, key) == 0
  {
    var s, key, req := ExampleTables(), QuotaKey(7, 0, "targets"), (ExampleInput(), (i: nat) => ExampleEnv());
    CommitErrorLostExample();
    assert Retry(AsWritten, s, key, 1, req.0, 7, QuotaRetries, req.1, 0).outcome == Outcome(s, None);
    assert [req][..0] == [];
    assert RunAll(AsWritten, s, key, 1, 7, [req]) == DayResult(s, 1, 0);
    assert [req, req][..1] == [req];
    assert RunAll(AsWritten, s, key, 1, 7, [req, req]) == DayResult(s, 2, 0);
    assert key !in s.dailyQuota;
  }
}
