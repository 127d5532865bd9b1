/** The effective cluster configuration (`compute_effective_q_config`). */
module QueueConfig {
  import opened Wrappers
  import opened RunModel

  datatype Config = Config(workers: int, timeout: int, retry: int, queueLimit: int)

  /** The database row; None is a null column. */
  datatype DbValues = DbValues(workers: Option<int>, timeout: Option<int>, retry: Option<int>, queueLimit: Option<int>)

  const NO_REQUEUE := 86400

  /** `value or fallback` */
  function Or(value: Option<int>, fallback: int): int {
    if value.Some? && value.value != 0 then value.value else fallback
  }

  function Overridden(base: Config, db: Option<DbValues>): Config {
    match db
    case None => base
    case Some(v) =>
      Config(Or(v.workers, base.workers), if v.timeout.Some? then v.timeout.value else base.timeout,
             Or(v.retry, base.retry), Or(v.queueLimit, base.queueLimit))
  }

  function Backstop(timeout: int, retry: int): int {
    if timeout == 0 then NO_REQUEUE else if retry <= timeout then timeout + 60 else retry
  }

  function Effective(base: Config, db: Option<DbValues>, maxTimeout: nat, platformNt: bool): Config {
    var c := Overridden(base, db);
    var timeout := if platformNt then 0 else c.timeout;
    var retry := Backstop(timeout, c.retry);
    c.(timeout := timeout, retry := if maxTimeout != 0 && retry < maxTimeout + 120 then maxTimeout + 120 else retry)
  }

  /** A redelivery time that respects the settings: the configured one where that exceeds the timeout, and 60
      seconds more than the timeout where it does not; a day without a timeout; and 120 seconds more than the
      slowest script. */
  predicate LateEnough(r: int, retry: int, timeout: int, maxTimeout: nat) {
    && (timeout != 0 && retry > timeout ==> r >= retry)
    && (timeout != 0 && retry <= timeout ==> r >= timeout + 60)
    && (timeout == 0 ==> r >= 86400)
    && (maxTimeout != 0 ==> r >= maxTimeout + 120)
  }

  /** The computed redelivery time is the least that is late enough. So whatever the environment and the database
      say, the broker never hands a task out again before it must have timed out, nor before the slowest
      script's task has; and the result needs no further correction. */
  method ComputeEffectiveQConfig(base: Config, db: Option<DbValues>, maxTimeout: nat, platformNt: bool)
    returns (config: Config)
    ensures config == Effective(base, db, maxTimeout, platformNt)
    ensures config.timeout != 0 ==> config.retry > config.timeout
    ensures config.timeout == 0 ==> config.retry >= 86400
    ensures maxTimeout != 0 ==> config.retry >= maxTimeout + 120
    ensures config.timeout ==
            if platformNt then 0
            else if db.Some? && db.value.timeout.Some? then db.value.timeout.value
            else base.timeout
    ensures var retry := if db.Some? && db.value.retry.Some? && db.value.retry.value != 0 then db.value.retry.value
                         else base.retry;
            forall r: int :: r >= config.retry <==> LateEnough(r, retry, config.timeout, maxTimeout)
    ensures config.retry >= Overridden(base, db).retry || config.timeout == 0
    ensures platformNt ==> config.timeout == 0
    ensures Effective(config, None, maxTimeout, platformNt) == config
  {
    config := base;
    if db.Some? {
      var v := db.value;
      config := config.(workers := Or(v.workers, config.workers));
      config := config.(timeout := if v.timeout.Some? then v.timeout.value else config.timeout);
      config := config.(retry := Or(v.retry, config.retry));
      config := config.(queueLimit := Or(v.queueLimit, config.queueLimit));
    }
    if platformNt {
      config := config.(timeout := 0);
    }
    if config.timeout != 0 {
      if config.retry <= config.timeout {
        config := config.(retry := config.timeout + 60);
      }
    } else {
      config := config.(retry := NO_REQUEUE);
    }
    if maxTimeout != 0 {
      var floor := maxTimeout + 120;
      if config.retry < floor {
        config := config.(retry := floor);
      }
    }
  }

  lemma EffectiveInvariants(base: Config, db: Option<DbValues>, m: nat, n: nat, platformNt: bool)
    ensures var e := Effective(base, db, m, platformNt);
            && (e.timeout != 0 ==> e.retry > e.timeout && e.retry >= Overridden(base, db).retry)
            && (m > 0 ==> e.retry >= m + 120)
            && Effective(e, None, m, platformNt) == e
    ensures m <= n ==> Effective(base, db, m, platformNt).retry <= Effective(base, db, n, platformNt).retry
  {}

  /** Settings that need no correction are taken as they are: the database before the environment, a zero
      timeout included, and zero elsewhere meaning unset. */
  lemma SettingsRespected(base: Config, db: DbValues, m: nat)
    ensures var e := Effective(base, Some(db), m, false);
            && (db.timeout.Some? ==> e.timeout == db.timeout.value)
            && (db.timeout.None? ==> e.timeout == base.timeout)
            && (db.workers.Some? && db.workers.value != 0 ==> e.workers == db.workers.value)
            && (db.workers == Some(0) || db.workers.None? ==> e.workers == base.workers)
            && (db.queueLimit.Some? && db.queueLimit.value != 0 ==> e.queueLimit == db.queueLimit.value)
            && (db.queueLimit == Some(0) || db.queueLimit.None? ==> e.queueLimit == base.queueLimit)
            && (db.retry.Some? && db.retry.value > e.timeout > 0 && db.retry.value >= m + 120 ==>
                  e.retry == db.retry.value)
  {}

  /** For every script timeout the fleet declares, the broker cannot redeliver a task, nor the reconciler
      fail its run, before the task's own deadline has passed, with a minute and four minutes to spare. */
  lemma DeadlinesAfterTask(base: Config, db: Option<DbValues>, m: nat, platformNt: bool,
                           timeout: nat, pickup: Time, startedAt: Time)
    requires 0 < timeout <= m && pickup <= startedAt
    ensures var deadline := pickup + timeout * SECOND + TASK_CUSHION;
            && pickup + Effective(base, db, m, platformNt).retry * SECOND >= deadline + 60 * SECOND
            && startedAt + StaleAfter(timeout) >= deadline + 240 * SECOND
  {}
}
