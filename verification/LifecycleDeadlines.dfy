/**
 When the reconciler's deadline is late enough.

 A claimant that is alive finalizes strictly before `t + T + 60s + slack`, where t is when it won the
 claim, which it wrote to `started_at`, and T is the
 script's timeout at queue time. The reconciler uses the timeout stored when it looks, which never
 goes below `minTimeout`. Under these two assumptions, and no other, the reconciler is safe for
 exactly the values found at the end of this module.
 */
module LifecycleDeadlines {
  import opened Wrappers
  import opened RunModel
  import opened Lifecycle
  import opened LifecycleInvariant
  import opened LifecycleSafety

  datatype Bounds = Bounds(slack: nat, minTimeout: nat)

  /** The latest instant at which a claimant of this task may still be alive (exclusive). */
  function AliveBound(claimedAt: Time, taskTimeout: nat, b: Bounds): Time {
    claimedAt + taskTimeout * SECOND + TASK_CUSHION + b.slack
  }

  /** When the last worker to win a claim did so. */
  function ClaimTime(s: Sys): Option<Time> {
    if s.winner.Some? && s.winner.value in s.workers then s.workers[s.winner.value].claimedAt else None
  }

  predicate Timely(s: Sys, e: Event, b: Bounds) {
    && (e.Tick? && LiveClaimant(s) && ClaimTime(s).Some? ==>
          s.now + e.delta < AliveBound(ClaimTime(s).value, s.taskTimeout, b))
    && (e.EditTimeout? ==> b.minTimeout <= e.seconds)
  }

  predicate TimelyRun(s: Sys, es: seq<Event>, b: Bounds)
    requires Legal(s, es)
    decreases es
  {
    es == [] || (Timely(s, es[0], b) && TimelyRun(Step(s, es[0]), es[1..], b))
  }

  /** This reconciler statement fails a run whose claimant is alive. */
  predicate FailsLiveRun(s: Sys, r: Id) {
    r in s.reconcilers && LiveClaimant(s) && ReconcileFlipStep(s, r).row.status != s.row.status
  }

  ghost predicate ReconcilerSafe(timeout: nat, b: Bounds) {
    forall now: Time, es: seq<Event>, r: Id ::
      Legal(Init(now, timeout), es) && TimelyRun(Init(now, timeout), es, b) ==>
        !FailsLiveRun(Exec(Init(now, timeout), es), r)
  }

  // ----- Late enough is safe -----

  predicate DeadlineInv(s: Sys, b: Bounds) {
    && Inv(s)
    && b.minTimeout <= s.timeout
    && (LiveClaimant(s) ==> s.now < AliveBound(ClaimTime(s).value, s.taskTimeout, b))
    && (forall r :: r in s.reconcilers && s.reconcilers[r].copy.status == Running ==> !LiveClaimant(s))
  }

  lemma LiveClaimantStays(s: Sys, e: Event)
    requires Inv(s) && Enabled(s, e) && LiveClaimant(Step(s, e))
    ensures LiveClaimant(s) || (e.Claim? && s.row.status == Pending)
    ensures LiveClaimant(s) ==> ClaimTime(Step(s, e)) == ClaimTime(s)
    ensures !LiveClaimant(s) ==> ClaimTime(Step(s, e)) == Some(s.now) && s.winner.None?
    ensures Step(s, e).taskTimeout == s.taskTimeout
    ensures e.Tick? || Step(s, e).now == s.now
  {
    if !ByWorker(e) {
      EnvironmentFacts(s, e);
    } else if !e.Deliver? && s.winner == Some(e.w) {
      StatementFacts(s.workers[e.w], s.row, s.procs, s.now, e);
      ClaimantStepFacts(s, e);
    } else if !(e.Claim? && s.row.status == Pending) {
      BystanderStepFacts(s, e);
    }
  }

  /** A pass that has just selected a RUNNING row did so past every live claimant's time. */
  lemma SelectedIsAbandoned(s: Sys, e: Event, b: Bounds, r: Id)
    requires DeadlineInv(s, b) && Enabled(s, e) && !ByWorker(e)
    requires s.taskTimeout * SECOND + TASK_CUSHION + b.slack <= StaleAfter(b.minTimeout)
    requires r in Step(s, e).reconcilers && Step(s, e).reconcilers[r].copy.status == Running
    ensures !LiveClaimant(s)
  {}

  lemma DeadlineStep(s: Sys, e: Event, b: Bounds)
    requires DeadlineInv(s, b) && Enabled(s, e) && Timely(s, e, b)
    requires s.taskTimeout * SECOND + TASK_CUSHION + b.slack <= StaleAfter(b.minTimeout)
    ensures DeadlineInv(Step(s, e), b) && Step(s, e).taskTimeout == s.taskTimeout
  {
    StepInv(s, e);
    var s' := Step(s, e);
    if LiveClaimant(s') {
      LiveClaimantStays(s, e);
    }
    KeepsParameters(s, e, b);
    forall r | r in s'.reconcilers && s'.reconcilers[r].copy.status == Running
      ensures !LiveClaimant(s')
    {
      if !ByWorker(e) {
        SelectedIsAbandoned(s, e, b, r);
        EnvironmentFacts(s, e);
      }
    }
  }

  lemma KeepsParameters(s: Sys, e: Event, b: Bounds)
    requires Enabled(s, e) && Timely(s, e, b) && b.minTimeout <= s.timeout
    ensures b.minTimeout <= Step(s, e).timeout && Step(s, e).taskTimeout == s.taskTimeout
    ensures ByWorker(e) ==> Step(s, e).reconcilers == s.reconcilers
  {}

  lemma {:induction false} DeadlineRun(s: Sys, es: seq<Event>, b: Bounds)
    requires DeadlineInv(s, b) && Legal(s, es) && TimelyRun(s, es, b)
    requires s.taskTimeout * SECOND + TASK_CUSHION + b.slack <= StaleAfter(b.minTimeout)
    ensures DeadlineInv(Exec(s, es), b)
    decreases es
  {
    if es != [] {
      DeadlineStep(s, es[0], b);
      DeadlineRun(Step(s, es[0]), es[1..], b);
    }
  }

  /** A reconciler pass that fails a RUNNING row in time leaves it to nobody: the claimant is gone,
      so (`LifecycleSafety.FinishedRowFrozenExactly`) only a stop request already under way, or the request
      that queued the run, can change the row again. */
  lemma TimelyReconcileSettles(now: Time, timeout: nat, es: seq<Event>, r: Id, b: Bounds)
    requires Legal(Init(now, timeout), es) && TimelyRun(Init(now, timeout), es, b)
    requires b.minTimeout <= timeout
    requires timeout * SECOND + TASK_CUSHION + b.slack <= StaleAfter(b.minTimeout)
    requires var s := Exec(Init(now, timeout), es);
             r in s.reconcilers && ReconcileFlipStep(s, r).row.status != s.row.status
    ensures var s := Exec(Init(now, timeout), es);
            && !FailsLiveRun(s, r)
            && Settled(Step(s, ReconcileFlip(r)))
            && Step(s, ReconcileFlip(r)).row.status == Failed
  {
    DeadlineRun(Init(now, timeout), es, b);
    var s := Exec(Init(now, timeout), es);
    StepInv(s, ReconcileFlip(r));
  }

  /** What a pass selects, by the numbers: a RUNNING row long enough past its deadline, or, while workers are
      alive, a PENDING row queued for more than a day. */
  lemma PassSelectsExactly(s: Sys, r: Id, captured: Time, workersAlive: bool)
    requires Enabled(s, ReconcileRead(r, captured, workersAlive))
    ensures var t := Step(s, ReconcileRead(r, captured, workersAlive));
            && (r in t.reconcilers <==>
                  LongOverdue(s.row, s.timeout, captured) || (workersAlive && LongQueued(s.row, captured)))
            && (r in t.reconcilers ==> t.reconcilers[r] == Reconciler(captured, s.row))
            && t == s.(reconcilers := t.reconcilers)
  {
    StaleExactly(s.row, s.timeout, captured);
  }

  /** What a flip writes, column by column, whatever has happened since the row was selected: nothing if the
      status is another one by now. */
  lemma FlipWritesExactly(s: Sys, r: Id)
    requires Inv(s) && r in s.reconcilers
    ensures var row := Step(s, ReconcileFlip(r)).row; var read := s.reconcilers[r];
            && (s.row.status != read.copy.status ==> row == s.row)
            && (s.row.status == Running == read.copy.status ==>
                  FailedWhileRunning(s.row, row, read.copy.stderr, read.now))
            && (s.row.status == Pending == read.copy.status ==> FailedWhilePending(s.row, row, read.now))
  {
    FailedColumns(s.row, s.reconcilers[r].copy.stderr, s.reconcilers[r].now);
  }

  lemma ReadAndFlip(s: Sys, r: Id, workersAlive: bool)
    requires Inv(s) && r !in s.reconcilers
    requires LongOverdue(s.row, s.timeout, s.now) || (workersAlive && LongQueued(s.row, s.now))
    ensures var es := [ReconcileRead(r, s.now, workersAlive), ReconcileFlip(r)];
            && Legal(s, es)
            && (s.row.status == Running ==> FailedWhileRunning(s.row, Exec(s, es).row, s.row.stderr, s.now))
            && (s.row.status == Pending ==> FailedWhilePending(s.row, Exec(s, es).row, s.now))
  {
    var read := ReconcileRead(r, s.now, workersAlive);
    PassSelectsExactly(s, r, s.now, workersAlive);
    StepInv(s, read);
    FlipWritesExactly(Step(s, read), r);
    ExecPair(s, read, ReconcileFlip(r));
  }

  lemma ExecPair(s: Sys, e: Event, f: Event)
    requires Enabled(s, e) && Enabled(Step(s, e), f)
    ensures Legal(s, [e, f]) && Exec(s, [e, f]) == Step(Step(s, e), f)
  {
    Prepend(Step(s, e), f, []);
    assert [f] + [] == [f];
    Prepend(s, e, [f]);
    assert [e] + [f] == [e, f];
  }

  /** No row stays RUNNING for want of a worker: once it is old enough for the timeout stored now, one
      reconciler pass fails it, whatever has become of its claimant. */
  lemma OldRunningRowIsFailed(s: Sys, r: Id)
    requires Inv(s) && r !in s.reconcilers && LongOverdue(s.row, s.timeout, s.now)
    ensures var es := [ReconcileRead(r, s.now, false), ReconcileFlip(r)];
            Legal(s, es) && FailedWhileRunning(s.row, Exec(s, es).row, s.row.stderr, s.now)
  {
    ReadAndFlip(s, r, false);
  }

  /** Nor PENDING for want of a queue entry, while workers are alive. */
  lemma OldPendingRowIsFailed(s: Sys, r: Id)
    requires Inv(s) && r !in s.reconcilers && LongQueued(s.row, s.now)
    ensures var es := [ReconcileRead(r, s.now, true), ReconcileFlip(r)];
            Legal(s, es) && FailedWhilePending(s.row, Exec(s, es).row, s.now)
  {
    ReadAndFlip(s, r, true);
  }

  // ----- Any earlier is not -----

  lemma {:induction false} AppendTimely(s: Sys, es: seq<Event>, e: Event, b: Bounds)
    requires Legal(s, es) && TimelyRun(s, es, b) && Enabled(Exec(s, es), e) && Timely(Exec(s, es), e, b)
    ensures Legal(s, es + [e]) && Exec(s, es + [e]) == Step(Exec(s, es), e)
    ensures TimelyRun(s, es + [e], b)
    decreases es
  {
    Append(s, es, e);
    if es == [] {
      assert [e][1..] == [];
    } else {
      AppendTimely(Step(s, es[0]), es[1..], e, b);
      assert (es + [e])[1..] == es[1..] + [e];
    }
  }

  lemma {:induction false} WorkersAreTimely(s: Sys, es: seq<Event>, b: Bounds)
    requires Legal(s, es) && forall e :: e in es ==> ByWorker(e)
    ensures TimelyRun(s, es, b)
    decreases es
  {
    if es != [] {
      WorkersAreTimely(Step(s, es[0]), es[1..], b);
    }
  }

  /** The timeout is lowered to its minimum, a worker starts the script, and the reconciler looks as
      soon as the row is stale by the lowered timeout. */
  lemma FailLiveRun(now: Time, timeout: nat, b: Bounds) returns (es: seq<Event>)
    requires timeout * SECOND + TASK_CUSHION + b.slack > StaleAfter(b.minTimeout)
    ensures Legal(Init(now, timeout), es) && TimelyRun(Init(now, timeout), es, b)
    ensures FailsLiveRun(Exec(Init(now, timeout), es), 0)
  {
    var s := Step(Init(now, timeout), Submit);
    var edited := Step(s, EditTimeout(b.minTimeout));
    var k;
    es, k := Launched(edited, 0, 1);
    WorkersAreTimely(edited, es, b);
    var t := Exec(edited, es);
    AppendTimely(edited, es, Tick(StaleAfter(b.minTimeout)), b);
    es := es + [Tick(StaleAfter(b.minTimeout))];
    assert RunningStale(t.row, b.minTimeout, t.now + StaleAfter(b.minTimeout));
    var read := ReconcileRead(0, t.now + StaleAfter(b.minTimeout), false);
    AppendTimely(edited, es, read, b);
    es := es + [read];
    Prepend(s, EditTimeout(b.minTimeout), es);
    assert ([EditTimeout(b.minTimeout)] + es)[1..] == es;
    es := [EditTimeout(b.minTimeout)] + es;
    Prepend(Init(now, timeout), Submit, es);
    assert ([Submit] + es)[1..] == es;
    es := [Submit] + es;
  }

  /** The exact condition on the deadlines. */
  lemma ReconcilerSafeExactly(timeout: nat, b: Bounds)
    requires b.minTimeout <= timeout
    ensures ReconcilerSafe(timeout, b) <==>
            timeout * SECOND + TASK_CUSHION + b.slack <= StaleAfter(b.minTimeout)
  {
    if timeout * SECOND + TASK_CUSHION + b.slack <= StaleAfter(b.minTimeout) {
      forall now: Time, es: seq<Event>, r: Id |
        Legal(Init(now, timeout), es) && TimelyRun(Init(now, timeout), es, b)
        ensures !FailsLiveRun(Exec(Init(now, timeout), es), r)
      {
        DeadlineRun(Init(now, timeout), es, b);
      }
    } else {
      var es := FailLiveRun(0, timeout, b);
    }
  }

  /** The constants of the source: with the timeout left alone in flight, 240 seconds between a
      claimant's task deadline and its last write are safe, and not a microsecond more. */
  lemma FourMinutesOfSlack(timeout: nat, slack: nat)
    requires timeout >= 1
    ensures ReconcilerSafe(timeout, Bounds(slack, timeout)) <==> slack <= 240 * SECOND
  {
    ReconcilerSafeExactly(timeout, Bounds(slack, timeout));
  }

  /** With that slack, lowering the timeout of a script while one of its runs is in flight is enough
      for the reconciler to fail the live run. */
  lemma LoweringTimeoutIsUnsafe(timeout: nat, lowered: nat)
    requires lowered < timeout
    ensures !ReconcilerSafe(timeout, Bounds(240 * SECOND, lowered))
  {
    ReconcilerSafeExactly(timeout, Bounds(240 * SECOND, lowered));
  }
}
