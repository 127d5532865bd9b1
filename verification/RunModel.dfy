/** One row of the `runs` table, and the deadlines that govern it. */
module RunModel {
  import opened Wrappers

  /** Clock readings, in microseconds (the resolution of a stored timestamp). */
  type Time = int

  /** An operating-system process id; a recorded pid of 0 would read as "no pid". */
  type Pid = p: int | p > 0 witness 1

  const SECOND: Time := 1_000_000

  /** `queue_script_run` gives the task the script's timeout plus this many seconds. */
  const TASK_CUSHION := 60 * SECOND

  const RECONCILE_GRACE := 300 * SECOND

  const RECONCILE_PENDING_AFTER := 24 * 3600 * SECOND

  datatype Status = Pending | Running | Success | Failed | Timeout | Cancelled

  predicate IsFinished(status: Status) {
    status in {Success, Failed, Timeout, Cancelled}
  }

  /** PENDING < RUNNING < every finished status. */
  function Rank(status: Status): nat {
    match status
    case Pending => 0
    case Running => 1
    case _ => 2
  }

  datatype Row = Row(
    status: Status,
    createdAt: Time,
    startedAt: Option<Time>,
    endedAt: Option<Time>,
    pid: Option<Pid>,
    exitCode: Option<int>,
    stdout: string,
    stderr: string)

  function NewRow(createdAt: Time): Row {
    Row(Pending, createdAt, None, None, None, None, "", "")
  }

  /** The candidate query and the per-run deadline of `reconcile_stale`, for a RUNNING row. */
  predicate RunningStale(row: Row, timeout: nat, now: Time) {
    && row.status == Running
    && row.startedAt.Some?
    && row.startedAt.value < now - RECONCILE_GRACE
    && now >= row.startedAt.value + timeout * SECOND + RECONCILE_GRACE
  }

  /** The earliest age at which a RUNNING row of a script with this timeout is stale. The candidate query
      of `reconcile_stale` compares strictly, so a zero timeout costs one more microsecond. */
  function StaleAfter(timeout: nat): Time {
    RECONCILE_GRACE + if timeout == 0 then 1 else timeout * SECOND
  }

  /** Old enough, by the deadline alone. */
  predicate Overdue(row: Row, timeout: nat, now: Time) {
    row.status == Running && row.startedAt.Some? && now - row.startedAt.value >= StaleAfter(timeout)
  }

  predicate PendingLost(row: Row, now: Time) {
    row.status == Pending && row.createdAt < now - RECONCILE_PENDING_AFTER
  }

  const RECONCILED_RUNNING := "\n[RECONCILED: the worker stopped before finalizing this run]"

  const RECONCILED_PENDING := "[RECONCILED: queued for over 24 hours while workers were alive]"

  /** The update that fails a stale RUNNING row; `readStderr` is the text the candidate query saw. */
  function FailRunning(row: Row, readStderr: string, now: Time): Row {
    row.(status := Failed, exitCode := Some(-1), stderr := readStderr + RECONCILED_RUNNING,
    endedAt := Some(now), pid := None)
  }

  function FailPending(row: Row, now: Time): Row {
    row.(status := Failed, exitCode := Some(-1), stderr := RECONCILED_PENDING, endedAt := Some(now))
  }

  // ----- What a reconciled row says, column by column -----

  /** `row'` is a RUNNING row after it was failed: told so below what was read of its error output, ended at
      `now`, without pid, and otherwise as it was. */
  predicate FailedWhileRunning(row: Row, row': Row, readStderr: string, now: Time) {
    && row'.status == Failed && row'.exitCode == Some(-1)
    && row'.stderr == readStderr + "\n[RECONCILED: the worker stopped before finalizing this run]"
    && row'.endedAt == Some(now) && row'.pid.None?
    && row'.stdout == row.stdout && row'.startedAt == row.startedAt && row'.createdAt == row.createdAt
  }

  /** `row'` is a PENDING row after it was failed. */
  predicate FailedWhilePending(row: Row, row': Row, now: Time) {
    && row'.status == Failed && row'.exitCode == Some(-1)
    && row'.stderr == "[RECONCILED: queued for over 24 hours while workers were alive]"
    && row'.endedAt == Some(now)
    && row'.stdout == row.stdout && row'.startedAt == row.startedAt && row'.createdAt == row.createdAt
    && row'.pid == row.pid
  }

  /** Five minutes past the script's own timeout, in microseconds. */
  predicate LongOverdue(row: Row, timeout: nat, now: Time) {
    && row.status == Running && row.startedAt.Some?
    && now - row.startedAt.value >= (timeout + 300) * 1_000_000
    && now - row.startedAt.value > 300_000_000
  }

  /** Queued for more than a day. */
  predicate LongQueued(row: Row, now: Time) {
    row.status == Pending && now - row.createdAt > 86_400_000_000
  }

  lemma StaleExactly(row: Row, timeout: nat, now: Time)
    ensures RunningStale(row, timeout, now) <==> LongOverdue(row, timeout, now)
    ensures Overdue(row, timeout, now) <==> LongOverdue(row, timeout, now)
    ensures PendingLost(row, now) <==> LongQueued(row, now)
  {}

  lemma FailedColumns(row: Row, readStderr: string, now: Time)
    ensures FailedWhileRunning(row, FailRunning(row, readStderr, now), readStderr, now)
    ensures FailedWhilePending(row, FailPending(row, now), now)
  {}
}
