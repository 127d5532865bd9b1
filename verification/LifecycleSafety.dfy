/** What every interleaving keeps, with no assumption about time. */
module LifecycleSafety {
  import opened Wrappers
  import opened RunModel
  import opened Lifecycle
  import opened LifecycleInvariant

  // ----- Duplicate deliveries -----

  predicate Won(s: Sys, w: Id) {
    w in s.workers && s.workers[w].claimedAt.Some?
  }

  /** However often a run is delivered, one worker at most wins the claim and one process tree at
      most is ever spawned. */
  lemma SingleExecution(now: Time, timeout: nat, es: seq<Event>, v: Id, w: Id)
    requires Legal(Init(now, timeout), es)
    ensures var s := Exec(Init(now, timeout), es);
            && |s.procs| <= 1
            && (Won(s, v) && Won(s, w) ==> v == w)
  {
    ExecInv(Init(now, timeout), es);
  }

  /** Everything a worker does without winning the claim leaves the row and the process table
      exactly as they were; once it has lost, it does nothing more. */
  lemma LosingDeliveryIsNoOp(s: Sys, e: Event)
    requires Inv(s) && Enabled(s, e) && ByWorker(e)
    requires Step(s, e).workers[e.w].claimedAt.None?
    ensures Step(s, e).row == s.row && Step(s, e).procs == s.procs
    ensures !e.Deliver? ==> s.workers[e.w].pc == Loaded
    ensures e.Claim? ==> s.row.status != Pending
  {
    if !e.Deliver? {
      assert s.winner != Some(e.w);
      assert !(e.Claim? && s.row.status == Pending);
      BystanderStepInv(s, e);
    }
  }

  // ----- The status only moves forward -----

  /** The two writes that no condition on the row guards and that can replace CANCELLED: the claimant's save
      of a failed validation, and the save of a request that could not queue the run. */
  predicate FullSave(s: Sys, e: Event) {
    e.QueueFails? || (e.SaveInvalid? && s.winner == Some(e.w))
  }

  /** Every event: the status never falls back, the creation time stays, and CANCELLED is left only by a full
      save, for FAILED. */
  lemma StepRank(s: Sys, e: Event)
    requires Inv(s) && Enabled(s, e)
    ensures Rank(s.row.status) <= Rank(Step(s, e).row.status)
    ensures Step(s, e).row.createdAt == s.row.createdAt
    ensures s.row.status == Cancelled && Step(s, e).row.status != Cancelled ==>
              FullSave(s, e) && Step(s, e).row.status == Failed
  {
    if !ByWorker(e) {
      EnvironmentFacts(s, e);
    } else if !e.Deliver? && s.winner == Some(e.w) {
      StatementFacts(s.workers[e.w], s.row, s.procs, s.now, e);
      ClaimantStepFacts(s, e);
    } else if !(e.Claim? && s.row.status == Pending) {
      BystanderStepFacts(s, e);
    }
  }

  lemma {:induction false} RankNeverDecreases(s: Sys, es: seq<Event>)
    requires Inv(s) && Legal(s, es)
    ensures Rank(s.row.status) <= Rank(Exec(s, es).row.status)
    decreases es
  {
    if es != [] {
      StepRank(s, es[0]);
      StepInv(s, es[0]);
      RankNeverDecreases(Step(s, es[0]), es[1..]);
    }
  }

  // ----- The columns of a row -----

  /** Does this event write the status? */
  predicate WritesStatus(s: Sys, e: Event)
    requires Enabled(s, e)
  {
    match e
    case Claim(_) => s.row.status == Pending
    case SaveInvalid(_) => true
    case Finalize(_) => s.row.status != Cancelled
    case QueueFails(_) => true
    case StopWrite(_) => true
    case ReconcileFlip(r) => s.row.status == s.reconcilers[r].copy.status
    case _ => false
  }

  /** Was the last write of the status the save of a request that could not queue the run? */
  predicate QueueFailureLast(s: Sys, es: seq<Event>, before: bool)
    requires Legal(s, es)
    decreases es
  {
    if es == [] then before
    else QueueFailureLast(Step(s, es[0]), es[1..], if WritesStatus(s, es[0]) then es[0].QueueFails? else before)
  }

  /** Finished, and without an end time. */
  predicate Endless(row: Row) {
    IsFinished(row.status) && row.endedAt.None?
  }

  /** The row of a run whose queueing failed: finished, and otherwise as it was created. A worker that has it
      all the same may record a pid. */
  predicate Unqueued(row: Row) {
    row == UnqueuedRow(row.createdAt, row.stderr).(pid := row.pid)
  }

  lemma PidOnlyStatement(k: Worker, row: Row, procs: seq<Process>, now: Time, e: Event)
    requires Consistent(k, row, procs) && ByWorker(e) && CanRun(k, procs, e)
    requires !e.Claim? && !e.SaveInvalid? && !(e.Finalize? && row.status != Cancelled)
    ensures var row' := Statement(k, row, procs, now, e).row; row' == row.(pid := row'.pid)
  {}

  /** The row as it was created, but for FAILED and the reason. */
  predicate AsCreated(row: Row, createdAt: Time, why: string) {
    && row.status == Failed && row.stderr == why && row.createdAt == createdAt
    && row.startedAt.None? && row.endedAt.None? && row.exitCode.None? && row.stdout == ""
  }

  /** What leaves the status alone leaves all of a finished row alone, except for its pid. */
  lemma EndlessKept(s: Sys, e: Event)
    requires Inv(s) && Enabled(s, e) && Endless(s.row) && !WritesStatus(s, e)
    ensures Step(s, e).row == s.row.(pid := Step(s, e).row.pid)
  {
    if !ByWorker(e) {
      EndlessKeptByOthers(s, e);
    } else if !e.Deliver? && s.winner == Some(e.w) {
      StatementFacts(s.workers[e.w], s.row, s.procs, s.now, e);
      PidOnlyStatement(s.workers[e.w], s.row, s.procs, s.now, e);
      ClaimantStepFacts(s, e);
    } else {
      BystanderStepInv(s, e);
    }
  }

  lemma EndlessKeptByOthers(s: Sys, e: Event)
    requires Enabled(s, e) && !ByWorker(e) && !WritesStatus(s, e)
    ensures Step(s, e).row == s.row
  {
    if ByRequest(e) {
      RequestColumns(s, e);
    } else {
      OthersShape(s, e);
      if e.ReconcileFlip? {
        FlipColumns(s, e.r);
      }
    }
  }

  lemma EndlessStatement(k: Worker, row: Row, procs: seq<Process>, now: Time, e: Event)
    requires Consistent(k, row, procs) && ByWorker(e) && CanRun(k, procs, e)
    ensures var row' := Statement(k, row, procs, now, e).row;
            Endless(row') <==> Endless(row) && !(e.SaveInvalid? || (e.Finalize? && row.status != Cancelled))
  {}

  lemma EndlessEnvironment(s: Sys, e: Event)
    requires Inv(s) && Enabled(s, e) && !ByWorker(e)
    ensures Endless(Step(s, e).row) <==> if WritesStatus(s, e) then e.QueueFails? else Endless(s.row)
  {
    if ByRequest(e) {
      RequestColumns(s, e);
    } else {
      OthersShape(s, e);
      if e.StopWrite? {
        StopColumns(s.row, s.stoppers[e.k], s.now);
      } else if e.ReconcileFlip? {
        FlipColumns(s, e.r);
      }
    }
  }

  lemma EndlessStep(s: Sys, e: Event)
    requires Inv(s) && Enabled(s, e)
    ensures Endless(Step(s, e).row) <==> if WritesStatus(s, e) then e.QueueFails? else Endless(s.row)
  {
    if !ByWorker(e) {
      EndlessEnvironment(s, e);
    } else if !e.Deliver? && s.winner == Some(e.w) {
      EndlessStatement(s.workers[e.w], s.row, s.procs, s.now, e);
      ClaimantStepFacts(s, e);
    } else if !(e.Claim? && s.row.status == Pending) {
      BystanderStepInv(s, e);
    }
  }

  lemma {:induction false} EndlessRun(s: Sys, es: seq<Event>)
    requires Inv(s) && Legal(s, es) && (Endless(s.row) ==> Unqueued(s.row))
    ensures Endless(Exec(s, es).row) <==> QueueFailureLast(s, es, Endless(s.row))
    ensures Endless(Exec(s, es).row) ==> Unqueued(Exec(s, es).row)
    decreases es
  {
    if es != [] {
      EndlessStep(s, es[0]);
      if Endless(s.row) && !WritesStatus(s, es[0]) {
        EndlessKept(s, es[0]);
      }
      StepInv(s, es[0]);
      EndlessRun(Step(s, es[0]), es[1..]);
    }
  }

  /** In every reachable state SUCCESS means exit code 0, TIMEOUT exit code -1 and FAILED never 0; an end time
      means a finished row; and a finished row is without an end time exactly if the last write of its
      status was the save of a request that could not queue it, in which case the row is as it was created
      but for FAILED, the reason, and a pid that a worker may have recorded. */
  lemma RowsAreCoherent(now: Time, timeout: nat, es: seq<Event>)
    requires Legal(Init(now, timeout), es)
    ensures var row := Exec(Init(now, timeout), es).row;
            && Coherent(row)
            && row.createdAt == now
            && (Endless(row) <==> QueueFailureLast(Init(now, timeout), es, false))
            && (Endless(row) ==> AsCreated(row, now, row.stderr))
  {
    ExecInv(Init(now, timeout), es);
    CreationTimeKept(Init(now, timeout), es);
    EndlessRun(Init(now, timeout), es);
  }

  lemma {:induction false} CreationTimeKept(s: Sys, es: seq<Event>)
    requires Inv(s) && Legal(s, es)
    ensures Exec(s, es).row.createdAt == s.row.createdAt
    decreases es
  {
    if es != [] {
      StepRank(s, es[0]);
      StepInv(s, es[0]);
      CreationTimeKept(Step(s, es[0]), es[1..]);
    }
  }

  // ----- CANCELLED -----

  /** The two events that replace CANCELLED by another status. */
  lemma OnlyFullSavesLeaveCancelled(s: Sys, e: Event)
    requires Inv(s) && Enabled(s, e)
    requires s.row.status == Cancelled && Step(s, e).row.status != Cancelled
    ensures FullSave(s, e)
    ensures Step(s, e).row.status == Failed
  {
    StepRank(s, e);
  }

  /** The claimant has not passed environment validation, so its unconditional save may still come. */
  predicate ValidationPending(s: Sys) {
    s.winner.Some? && s.winner.value in s.workers && BeforeSave(s.workers[s.winner.value].pc)
  }

  ghost predicate AlwaysCancelled(s: Sys) {
    forall es :: Legal(s, es) ==> Exec(s, es).row.status == Cancelled
  }

  lemma CancelledStep(s: Sys, e: Event)
    requires Inv(s) && Enabled(s, e)
    requires s.row.status == Cancelled && !ValidationPending(s) && !s.requesting
    ensures Step(s, e).row.status == Cancelled && !ValidationPending(Step(s, e)) && !Step(s, e).requesting
  {
    RequestStaysOver(s, e);
    StepRank(s, e);
    ValidationStaysBehind(s, e);
  }

  lemma RequestStaysOver(s: Sys, e: Event)
    requires Enabled(s, e) && !s.requesting
    ensures !Step(s, e).requesting && Step(s, e).queued == s.queued
  {}

  /** Once past validation, and with the claim out of reach, no later step goes back before it. */
  lemma ValidationStaysBehind(s: Sys, e: Event)
    requires Inv(s) && Enabled(s, e) && s.row.status == Cancelled && !ValidationPending(s)
    ensures !ValidationPending(Step(s, e)) && !e.SaveInvalid?
  {
    if !ByWorker(e) {
      EnvironmentFacts(s, e);
    } else if !e.Deliver? && s.winner == Some(e.w) {
      StatementFacts(s.workers[e.w], s.row, s.procs, s.now, e);
      ClaimantStepFacts(s, e);
    } else {
      BystanderStepFacts(s, e);
    }
  }

  lemma {:induction false} CancelledRun(s: Sys, es: seq<Event>)
    requires Inv(s) && Legal(s, es)
    requires s.row.status == Cancelled && !ValidationPending(s) && !s.requesting
    ensures Exec(s, es).row.status == Cancelled
    decreases es
  {
    if es != [] {
      CancelledStep(s, es[0]);
      StepInv(s, es[0]);
      CancelledRun(Step(s, es[0]), es[1..]);
    }
  }

  lemma Prepend(s: Sys, e: Event, rest: seq<Event>)
    requires Enabled(s, e) && Legal(Step(s, e), rest)
    ensures Legal(s, [e] + rest) && Exec(s, [e] + rest) == Exec(Step(s, e), rest)
  {
    assert ([e] + rest)[0] == e && ([e] + rest)[1..] == rest;
  }

  /** A request that is still queueing the run can fail, and overwrites whatever the row says. */
  lemma FailedQueueing(s: Sys, why: string) returns (es: seq<Event>)
    requires s.requesting
    ensures es == [QueueFails(why)] && Legal(s, es) && Exec(s, es).row == UnqueuedRow(s.row.createdAt, why)
  {
    Prepend(s, QueueFails(why), []);
    es := [QueueFails(why)] + [];
  }

  /** From before validation, a failing validation overwrites CANCELLED by FAILED. */
  lemma OverwriteCancelled(s: Sys) returns (es: seq<Event>)
    requires Inv(s) && ValidationPending(s) && s.row.status == Cancelled
    ensures Legal(s, es) && Exec(s, es).row.status == Failed
    decreases match s.workers[s.winner.value].pc case Claimed => 2 case Validating => 1 case _ => 0
  {
    var w := s.winner.value;
    var k := s.workers[w];
    var e := match k.pc
      case Claimed => Refresh(w)
      case Validating => ValidationFails(w, "")
      case _ => SaveInvalid(w);
    var s' := Step(s, e);
    if k.pc == SavingInvalid {
      es := [];
    } else {
      StepInv(s, e);
      es := OverwriteCancelled(s');
    }
    Prepend(s, e, es);
    es := [e] + es;
  }

  /** A cancelled run stays cancelled in every continuation exactly when its claimant, if any, is past
      environment validation and the request that created it is no longer queueing it. */
  lemma CancelSurvivesExactly(s: Sys)
    requires Inv(s) && s.row.status == Cancelled
    ensures AlwaysCancelled(s) <==> !ValidationPending(s) && !s.requesting
  {
    if ValidationPending(s) {
      var es := OverwriteCancelled(s);
    } else if s.requesting {
      var es := FailedQueueing(s, "");
    } else {
      forall es | Legal(s, es)
        ensures Exec(s, es).row.status == Cancelled
      {
        CancelledRun(s, es);
      }
    }
  }

  // ----- Whether anything can still run -----

  /** The claim can still be won, by a delivery of a queue entry that exists or may yet be made, or the
      claimant has the launch before it. */
  predicate MayLaunch(s: Sys) {
    || (s.row.status == Pending && (s.queued || s.requesting))
    || (s.winner.Some? && s.winner.value in s.workers && LaunchAhead(s.workers[s.winner.value].pc))
  }

  predicate LaunchAhead(pc: Pc) {
    pc in {Claimed, Validating, Staging, Launching}
  }

  ghost predicate AlwaysQuiet(s: Sys) {
    forall es :: Legal(s, es) ==> !SomeAlive(Exec(s, es).procs)
  }

  lemma QuietStatement(k: Worker, row: Row, procs: seq<Process>, now: Time, e: Event)
    requires ByWorker(e) && CanRun(k, procs, e) && !LaunchAhead(k.pc) && k.pc != Loaded && !SomeAlive(procs)
    ensures var fx := Statement(k, row, procs, now, e); !LaunchAhead(fx.worker.pc) && !SomeAlive(fx.procs)
  {}

  /** No act revives a dead tree or a dead leader. */
  lemma ActsDoNotRevive(procs: seq<Process>, pid: Pid, a: Act)
    requires a.Kill? || PossibleAt(procs, pid, a)
    ensures SomeAlive(Changed(procs, pid, a)) ==> SomeAlive(procs)
    ensures LeaderLive(Changed(procs, pid, a)) ==> LeaderLive(procs)
  {
    var changed := Changed(procs, pid, a);
    forall i | 0 <= i < |procs| && Alive(changed[i])
      ensures SomeAlive(procs)
    {
      assert a.Fork? || Alive(procs[i]);
    }
    forall i | 0 <= i < |procs| && changed[i].leader.Live?
      ensures LeaderLive(procs)
    {
      assert procs[i].leader.Live?;
    }
  }

  lemma DeadStayDead(s: Sys, e: Event)
    requires Enabled(s, e) && !ByWorker(e)
    ensures SomeAlive(Step(s, e).procs) ==> SomeAlive(s.procs)
    ensures LeaderLive(Step(s, e).procs) ==> LeaderLive(s.procs)
  {
    if e.ProcessActs? {
      ActsDoNotRevive(s.procs, e.pid, e.act);
    } else if e.StopKill? && s.stoppers[e.k].copy.pid.Some? {
      ActsDoNotRevive(s.procs, s.stoppers[e.k].copy.pid.value, Kill);
    }
  }

  lemma QuietEnvironment(s: Sys, e: Event)
    requires Inv(s) && Enabled(s, e) && !ByWorker(e) && !MayLaunch(s) && !SomeAlive(s.procs)
    ensures !MayLaunch(Step(s, e)) && !SomeAlive(Step(s, e).procs)
  {
    EnvironmentFacts(s, e);
    DeadStayDead(s, e);
  }

  lemma QuietClaimant(s: Sys, e: Event)
    requires Inv(s) && Enabled(s, e) && ByWorker(e) && !e.Deliver? && s.winner == Some(e.w)
    requires !MayLaunch(s) && !SomeAlive(s.procs)
    ensures !MayLaunch(Step(s, e)) && !SomeAlive(Step(s, e).procs)
  {
    var k := s.workers[e.w];
    QuietStatement(k, s.row, s.procs, s.now, e);
    StatementFacts(k, s.row, s.procs, s.now, e);
    ClaimantStepFacts(s, e);
  }

  lemma QuietBystander(s: Sys, e: Event)
    requires Inv(s) && Enabled(s, e) && ByWorker(e) && (e.Deliver? || s.winner != Some(e.w))
    requires !MayLaunch(s) && !SomeAlive(s.procs)
    ensures !MayLaunch(Step(s, e)) && !SomeAlive(Step(s, e).procs)
  {
    assert !(e.Claim? && s.row.status == Pending);
    BystanderStepFacts(s, e);
  }

  lemma QuietStep(s: Sys, e: Event)
    requires Inv(s) && Enabled(s, e) && !MayLaunch(s) && !SomeAlive(s.procs)
    ensures !MayLaunch(Step(s, e)) && !SomeAlive(Step(s, e).procs)
  {
    if !ByWorker(e) {
      QuietEnvironment(s, e);
    } else if !e.Deliver? && s.winner == Some(e.w) {
      QuietClaimant(s, e);
    } else {
      QuietBystander(s, e);
    }
  }

  lemma {:induction false} QuietRun(s: Sys, es: seq<Event>)
    requires Inv(s) && Legal(s, es) && !MayLaunch(s) && !SomeAlive(s.procs)
    ensures !SomeAlive(Exec(s, es).procs)
    decreases es
  {
    if es != [] {
      QuietStep(s, es[0]);
      StepInv(s, es[0]);
      QuietRun(Step(s, es[0]), es[1..]);
    }
  }

  lemma {:induction false} FreshId(ids: set<Id>) returns (w: Id)
    ensures forall i :: i in ids ==> i < w
    decreases ids
  {
    w := 0;
    if ids != {} {
      var i :| i in ids;
      var above := FreshId(ids - {i});
      w := if i < above then above else i + 1;
      forall j | j in ids
        ensures j < w
      {
        assert j == i || j in ids - {i};
      }
    }
  }

  lemma DeliveryLaunches(s: Sys) returns (es: seq<Event>)
    requires s.queued && s.row.status == Pending
    ensures Legal(s, es) && SomeAlive(Exec(s, es).procs)
  {
    var w := FreshId(s.workers.Keys);
    var k;
    es, k := Launched(s, w, 1);
    assert Alive(Exec(s, es).procs[|s.procs|]);
  }

  /** Whoever has the launch before it launches, whatever the row says by then. */
  lemma LaunchesAnyway(s: Sys) returns (es: seq<Event>)
    requires Inv(s) && MayLaunch(s)
    ensures Legal(s, es) && SomeAlive(Exec(s, es).procs)
    decreases if s.row.status == Pending then 0 else Remaining(s.workers[s.winner.value].pc)
  {
    if s.row.status == Pending {
      if s.queued {
        es := DeliveryLaunches(s);
      } else {
        es := DeliveryLaunches(Step(s, Submit));
        Prepend(s, Submit, es);
        es := [Submit] + es;
      }
    } else {
      var w := s.winner.value;
      var e := NextStatement(s.workers[w], w);
      NextStatementRuns(s.workers[w], w, s.row, s.procs, s.now);
      StepInv(s, e);
      if s.workers[w].pc == Launching {
        es := [];
        assert Alive(Step(s, e).procs[|s.procs|]);
      } else {
        es := LaunchesAnyway(Step(s, e));
      }
      Prepend(s, e, es);
      es := [e] + es;
    }
  }

  /** Nothing of a run is alive now or in any continuation exactly when nothing is alive now and the
      launch is out of reach. */
  lemma QuietExactly(s: Sys)
    requires Inv(s)
    ensures AlwaysQuiet(s) <==> !SomeAlive(s.procs) && !MayLaunch(s)
  {
    if MayLaunch(s) {
      var es := LaunchesAnyway(s);
    } else if SomeAlive(s.procs) {
      assert Legal(s, []) && Exec(s, []) == s;
    } else {
      forall es | Legal(s, es)
        ensures !SomeAlive(Exec(s, es).procs)
      {
        QuietRun(s, es);
      }
    }
  }

  // ----- Force-stop -----

  /** A force-stop with nothing in between: read, kill if a pid was read, write. */
  function ForceStopEvents(k: Id, row: Row): seq<Event> {
    [StopRead(k, ForceStop)] + (if row.pid.Some? then [StopKill(k), StopWrite(k)] else [StopWrite(k)])
  }

  lemma StopReads(s: Sys, k: Id)
    requires k !in s.stoppers && s.row.status == Running
    ensures Step(s, StopRead(k, ForceStop)) ==
            s.(stoppers := s.stoppers[k := Stopper(ForceStop, s.row, s.row.pid.Some?)])
  {}

  /** The kill of a stop that has read a pid, and its write. */
  lemma StopKillsAndWrites(s: Sys, k: Id) returns (t: Sys)
    requires k in s.stoppers && s.stoppers[k] == Stopper(ForceStop, s.row, true)
    requires s.row.status == Running && s.row.pid.Some?
    ensures Legal(s, [StopKill(k), StopWrite(k)]) && t == Exec(s, [StopKill(k), StopWrite(k)])
    ensures t.row.status == Cancelled && t.row.pid.None? && t.winner == s.winner && t.workers == s.workers
    ensures t.procs == Changed(s.procs, s.row.pid.value, Kill)
  {
    var killed := Step(s, StopKill(k));
    t := StopWrites(killed, k);
    Prepend(s, StopKill(k), [StopWrite(k)]);
    assert [StopKill(k)] + [StopWrite(k)] == [StopKill(k), StopWrite(k)];
  }

  lemma StopWrites(s: Sys, k: Id) returns (t: Sys)
    requires k in s.stoppers && s.stoppers[k].kind == ForceStop && !s.stoppers[k].mustKill
    requires s.stoppers[k].copy.status == Running
    ensures Legal(s, [StopWrite(k)]) && t == Exec(s, [StopWrite(k)])
    ensures t.row.status == Cancelled && t.row.pid.None? && t.winner == s.winner && t.workers == s.workers
    ensures t.procs == s.procs
  {
    Prepend(s, StopWrite(k), []);
    assert [StopWrite(k)] + [] == [StopWrite(k)];
    t := Step(s, StopWrite(k));
  }

  lemma StopWritesOut(s: Sys, k: Id) returns (t: Sys)
    requires Inv(s) && k !in s.stoppers && s.row.status == Running
    ensures Legal(s, ForceStopEvents(k, s.row)) && t == Exec(s, ForceStopEvents(k, s.row))
    ensures t.row.status == Cancelled && t.row.pid.None? && t.winner == s.winner && t.workers == s.workers
    ensures t.procs == if s.row.pid.Some? then Changed(s.procs, s.row.pid.value, Kill) else s.procs
  {
    StopReads(s, k);
    var read := Step(s, StopRead(k, ForceStop));
    if s.row.pid.Some? {
      t := StopKillsAndWrites(read, k);
      Prepend(s, StopRead(k, ForceStop), [StopKill(k), StopWrite(k)]);
    } else {
      t := StopWrites(read, k);
      Prepend(s, StopRead(k, ForceStop), [StopWrite(k)]);
    }
  }

  /** A force-stop leaves nothing that is alive, now or later, exactly when the claimant is past the
      launch and whatever is alive has its pid recorded and its leader not reaped. */
  lemma ForceStopKillsExactly(s: Sys, k: Id)
    requires Inv(s) && k !in s.stoppers && s.row.status == Running
    ensures Legal(s, ForceStopEvents(k, s.row))
    ensures var t := Exec(s, ForceStopEvents(k, s.row));
            && t.row.status == Cancelled && t.row.pid.None?
            && (AlwaysQuiet(t) <==>
                && !LaunchAhead(s.workers[s.winner.value].pc)
                && (SomeAlive(s.procs) ==> s.row.pid.Some? && !OutOfReach(s.procs)))
  {
    var t := StopWritesOut(s, k);
    ExecInv(s, ForceStopEvents(k, s.row));
    QuietExactly(t);
    if s.row.pid.Some? {
      KillReaches(s.workers[s.winner.value], s.procs, s.row.pid.value);
    }
  }

  /** A script that starts after its run was force-stopped: the stop finds a claimant that has staged the
      script and not launched it, and `execute_run` does not look at the status again. */
  lemma ScriptStartsAfterStop(now: Time, timeout: nat) returns (es: seq<Event>)
    ensures Legal(Init(now, timeout), es)
    ensures var s := Exec(Init(now, timeout), es);
            && StopRead(0, ForceStop) in es && s.stoppers == map[]
            && s.row.status == Cancelled && s.row.pid.None? && LeaderLive(s.procs)
  {
    var s := Queued(now, timeout);
    var k;
    es, k := Staged(s, 0);
    es := StoppedUnlaunched(s, es, 0);
    es := Continue(s, es, k, Spawn(0, 1));
    assert Exec(s, es).procs[0].leader.Live?;
    Prepend(Init(now, timeout), Submit, es);
    es := [Submit] + es;
  }

  /** A force-stop of a running row without pid, after `es`. */
  lemma StoppedUnlaunched(s: Sys, es: seq<Event>, k: Id) returns (es': seq<Event>)
    requires Legal(s, es) && k !in Exec(s, es).stoppers
    requires Exec(s, es).row.status == Running && Exec(s, es).row.pid.None?
    ensures es' == es + [StopRead(k, ForceStop)] + [StopWrite(k)] && Legal(s, es')
    ensures var t := Exec(s, es); var t' := Exec(s, es');
            && t' == t.(row := t'.row) && t'.row.status == Cancelled && t'.row.pid.None?
  {
    var t := Exec(s, es);
    Append(s, es, StopRead(k, ForceStop));
    es' := es + [StopRead(k, ForceStop)];
    Append(s, es', StopWrite(k));
    assert t.stoppers[k := Stopper(ForceStop, t.row, false)] - {k} == t.stoppers;
    es' := es' + [StopWrite(k)];
  }

  // ----- A force-stop that others interrupt -----

  /** The claimant is past the launch of the tree `pid`. */
  predicate PastLaunch(s: Sys, pid: Pid) {
    && s.winner.Some? && s.winner.value in s.workers
    && !BeforeSpawn(s.workers[s.winner.value].pc) && s.workers[s.winner.value].child == Some(pid)
  }

  /** Stop request `k` has read the running row with this pid and has not written yet. */
  predicate Underway(s: Sys, k: Id, pid: Pid, mustKill: bool) {
    && PastLaunch(s, pid)
    && k in s.stoppers
    && var stop := s.stoppers[k];
       && stop.kind == ForceStop && stop.mustKill == mustKill
       && stop.copy.status == Running && stop.copy.pid == Some(pid)
  }

  lemma PastLaunchStatement(k: Worker, row: Row, procs: seq<Process>, now: Time, e: Event)
    requires ByWorker(e) && CanRun(k, procs, e) && !BeforeSpawn(k.pc) && k.pc != Loaded
    ensures var fx := Statement(k, row, procs, now, e);
            && !BeforeSpawn(fx.worker.pc) && fx.worker.child == k.child
            && (LeaderLive(fx.procs) ==> LeaderLive(procs))
            && (SomeAlive(fx.procs) ==> SomeAlive(procs))
  {}

  /** What cannot come back: a dead leader, a dead tree. */
  lemma PastLaunchStep(s: Sys, e: Event, pid: Pid)
    requires Inv(s) && Enabled(s, e) && PastLaunch(s, pid)
    ensures PastLaunch(Step(s, e), pid)
    ensures LeaderLive(Step(s, e).procs) ==> LeaderLive(s.procs)
    ensures SomeAlive(Step(s, e).procs) ==> SomeAlive(s.procs)
    ensures ByWorker(e) ==> Step(s, e).stoppers == s.stoppers
  {
    if !ByWorker(e) {
      EnvironmentFacts(s, e);
      DeadStayDead(s, e);
    } else if !e.Deliver? && s.winner == Some(e.w) {
      PastLaunchStatement(s.workers[e.w], s.row, s.procs, s.now, e);
      ClaimantStepFacts(s, e);
    } else {
      BystanderStepFacts(s, e);
    }
  }

  lemma {:induction false} PastLaunchRun(s: Sys, es: seq<Event>, pid: Pid)
    requires Inv(s) && Legal(s, es) && PastLaunch(s, pid)
    ensures PastLaunch(Exec(s, es), pid)
    ensures LeaderLive(Exec(s, es).procs) ==> LeaderLive(s.procs)
    ensures SomeAlive(Exec(s, es).procs) ==> SomeAlive(s.procs)
    decreases es
  {
    if es != [] {
      PastLaunchStep(s, es[0], pid);
      StepInv(s, es[0]);
      PastLaunchRun(Step(s, es[0]), es[1..], pid);
    }
  }

  /** The statement stop request `k` stands at. */
  function StopsNext(k: Id, mustKill: bool): Event {
    if mustKill then StopKill(k) else StopWrite(k)
  }

  lemma UnderwayStep(s: Sys, e: Event, k: Id, pid: Pid, mustKill: bool)
    requires Inv(s) && Enabled(s, e) && Underway(s, k, pid, mustKill) && e != StopsNext(k, mustKill)
    ensures Underway(Step(s, e), k, pid, mustKill)
  {
    PastLaunchStep(s, e, pid);
    if !ByWorker(e) {
      StopperKept(s, e, k, mustKill);
    }
  }

  lemma StopperKept(s: Sys, e: Event, k: Id, mustKill: bool)
    requires Enabled(s, e) && !ByWorker(e) && k in s.stoppers && s.stoppers[k].mustKill == mustKill
    requires e != StopsNext(k, mustKill)
    ensures k in Step(s, e).stoppers && Step(s, e).stoppers[k] == s.stoppers[k]
  {}

  /** Others act between two statements of the stop request. */
  lemma {:induction false} UnderwayRun(s: Sys, es: seq<Event>, k: Id, pid: Pid, mustKill: bool)
    requires Inv(s) && Legal(s, es) && Underway(s, k, pid, mustKill)
    requires StopsNext(k, mustKill) !in es
    ensures Inv(Exec(s, es)) && Underway(Exec(s, es), k, pid, mustKill)
    decreases es
  {
    if es != [] {
      UnderwayStep(s, es[0], k, pid, mustKill);
      StepInv(s, es[0]);
      UnderwayRun(Step(s, es[0]), es[1..], k, pid, mustKill);
    }
  }

  /** The state in which a force-stop kills: it has read, and `before` has happened since. */
  function AtKill(s: Sys, k: Id, before: seq<Event>): Sys
    requires k !in s.stoppers && Legal(Step(s, StopRead(k, ForceStop)), before)
  {
    Exec(Step(s, StopRead(k, ForceStop)), before)
  }

  lemma StopReachesKill(s: Sys, k: Id, before: seq<Event>)
    requires Inv(s) && k !in s.stoppers && s.row.status == Running && s.row.pid.Some?
    requires Legal(Step(s, StopRead(k, ForceStop)), before) && StopKill(k) !in before
    ensures var u := AtKill(s, k, before);
            Inv(u) && Underway(u, k, s.row.pid.value, true) && Enabled(u, StopKill(k))
  {
    StepInv(s, StopRead(k, ForceStop));
    UnderwayRun(Step(s, StopRead(k, ForceStop)), before, k, s.row.pid.value, true);
  }

  /** Stopping a run whose pid is recorded, whatever happens between the read, the kill and the write of
      the stop: from the kill on nothing of the tree is ever alive, exactly unless the script had already
      ended, been reaped, and left others of its group behind. */
  lemma KillIsFinalExactly(s: Sys, k: Id, before: seq<Event>)
    requires Inv(s) && k !in s.stoppers && s.row.status == Running && s.row.pid.Some?
    requires Legal(Step(s, StopRead(k, ForceStop)), before) && StopKill(k) !in before
    ensures var u := AtKill(s, k, before);
            && Enabled(u, StopKill(k)) && Inv(Step(u, StopKill(k)))
            && Underway(Step(u, StopKill(k)), k, s.row.pid.value, false)
            && !LeaderLive(Step(u, StopKill(k)).procs)
            && (AlwaysQuiet(Step(u, StopKill(k))) <==> !OutOfReach(u.procs))
  {
    StopReachesKill(s, k, before);
    var u := AtKill(s, k, before);
    StepInv(u, StopKill(k));
    PastLaunchStep(u, StopKill(k), s.row.pid.value);
    KillReaches(u.workers[u.winner.value], u.procs, s.row.pid.value);
    QuietExactly(Step(u, StopKill(k)));
  }

  /** After the write the script itself is dead for ever, and the row says CANCELLED for ever exactly unless
      the request that created the run is still queueing it. */
  lemma ForceStopIsFinal(s: Sys, k: Id, before: seq<Event>, between: seq<Event>, later: seq<Event>)
    requires Inv(s) && k !in s.stoppers && s.row.status == Running && s.row.pid.Some?
    requires Legal(Step(s, StopRead(k, ForceStop)), before) && StopKill(k) !in before
    requires var u := AtKill(s, k, before);
             Enabled(u, StopKill(k)) && Legal(Step(u, StopKill(k)), between) && StopWrite(k) !in between
    requires var v := Exec(Step(AtKill(s, k, before), StopKill(k)), between);
             Enabled(v, StopWrite(k)) && Legal(Step(v, StopWrite(k)), later)
    ensures var u := AtKill(s, k, before);
            var t := Exec(Step(Exec(Step(u, StopKill(k)), between), StopWrite(k)), later);
            && !LeaderLive(t.procs)
            && (SomeAlive(t.procs) ==> OutOfReach(u.procs))
    ensures var v := Exec(Step(AtKill(s, k, before), StopKill(k)), between);
            var written := Step(v, StopWrite(k));
            && written.row.status == Cancelled
            && (AlwaysCancelled(written) <==> !v.requesting)
            && (!v.requesting ==> Exec(written, later).row.status == Cancelled)
  {
    KillIsFinalExactly(s, k, before);
    var u := AtKill(s, k, before);
    var killed := Step(u, StopKill(k));
    var pid := s.row.pid.value;
    UnderwayRun(killed, between, k, pid, false);
    PastLaunchRun(killed, between, pid);
    var v := Exec(killed, between);
    PastLaunchStep(v, StopWrite(k), pid);
    StepInv(v, StopWrite(k));
    PastLaunchRun(Step(v, StopWrite(k)), later, pid);
    CancelSurvivesExactly(Step(v, StopWrite(k)));
    if !OutOfReach(u.procs) {
      assert Legal(killed, []) && Exec(killed, []) == killed;
    }
  }

  // ----- Finished rows -----

  /** A finished status and nobody left in `execute_run` who won the claim. */
  predicate Settled(s: Sys) {
    IsFinished(s.row.status) && !LiveClaimant(s)
  }

  lemma SettledStep(s: Sys, e: Event)
    requires Inv(s) && Enabled(s, e) && Settled(s)
    ensures Settled(Step(s, e)) && Step(s, e).winner == s.winner
    ensures e.StopWrite? || e.QueueFails? || Step(s, e).row == s.row
    ensures Step(s, e).stoppers.Keys <= s.stoppers.Keys
    ensures ByWorker(e) ==> Step(s, e).procs == s.procs
  {
    if !ByWorker(e) {
      SettledEnvironment(s, e);
    } else if !e.Deliver? && s.winner == Some(e.w) {
      StatementFacts(s.workers[e.w], s.row, s.procs, s.now, e);
      assert false;
    } else {
      BystanderStepFacts(s, e);
    }
  }

  lemma SettledEnvironment(s: Sys, e: Event)
    requires Inv(s) && Enabled(s, e) && !ByWorker(e) && Settled(s)
    ensures Settled(Step(s, e)) && Step(s, e).winner == s.winner
    ensures e.StopWrite? || e.QueueFails? || Step(s, e).row == s.row
    ensures Step(s, e).stoppers.Keys <= s.stoppers.Keys
  {
    if ByRequest(e) {
      RequestColumns(s, e);
    } else {
      OthersShape(s, e);
      if e.StopWrite? {
        StopColumns(s.row, s.stoppers[e.k], s.now);
      } else if e.ReconcileFlip? {
        FlipColumns(s, e.r);
      }
    }
  }

  lemma {:induction false} SettledRun(s: Sys, es: seq<Event>)
    requires Inv(s) && Legal(s, es) && Settled(s)
    ensures Settled(Exec(s, es)) && Exec(s, es).winner == s.winner
    ensures s.stoppers == map[] && !s.requesting ==> Exec(s, es).row == s.row
    decreases es
  {
    if es != [] {
      SettledStep(s, es[0]);
      if !s.requesting {
        RequestStaysOver(s, es[0]);
      }
      StepInv(s, es[0]);
      SettledRun(Step(s, es[0]), es[1..]);
    }
  }

  ghost predicate Frozen(s: Sys) {
    forall es :: Legal(s, es) ==> Exec(s, es).row == s.row
  }

  /** The pending stop request writes CANCELLED over whatever the row says. */
  lemma StopOverwrites(s: Sys, k: Id) returns (es: seq<Event>)
    requires k in s.stoppers
    ensures Legal(s, es) && Exec(s, es).row.status == Cancelled
    decreases s.stoppers[k].mustKill
  {
    if s.stoppers[k].mustKill {
      es := StopOverwrites(Step(s, StopKill(k)), k);
      Prepend(s, StopKill(k), es);
      es := [StopKill(k)] + es;
    } else {
      Prepend(s, StopWrite(k), []);
      es := [StopWrite(k)] + [];
    }
  }

  /** A finished, uncancelled row that nobody is executing keeps every column for ever exactly when no stop
      request read it before it finished and the request that created it is no longer queueing it. */
  lemma FinishedRowFrozenExactly(s: Sys)
    requires Inv(s) && Settled(s) && s.row.status != Cancelled
    ensures Frozen(s) <==> s.stoppers == map[] && !s.requesting
  {
    if s.stoppers != map[] {
      var k :| k in s.stoppers;
      var es := StopOverwrites(s, k);
    } else if s.requesting {
      var es := FailedQueueing(s, if s.row.stderr == "" then "-" else "");
    } else {
      forall es | Legal(s, es)
        ensures Exec(s, es).row == s.row
      {
        SettledRun(s, es);
      }
    }
  }

  /** A run that leaves PENDING without being claimed is never executed: no later delivery claims
      it and no process is ever spawned for it. */
  lemma UnclaimedFinishedNeverRuns(s: Sys, es: seq<Event>)
    requires Inv(s) && Legal(s, es) && s.row.status != Pending && s.winner.None?
    ensures Exec(s, es).winner.None? && Exec(s, es).procs == []
  {
    SettledRun(s, es);
    ExecInv(s, es);
  }

  // ----- A run that could not be queued -----

  /** No race is needed: if queueing raises before the queue entry exists, the row is FAILED without an end
      time, and stays so in every continuation. */
  lemma UnqueuedForEver(now: Time, timeout: nat, why: string, later: seq<Event>)
    requires Legal(Step(Init(now, timeout), QueueFails(why)), later)
    ensures var s := Exec(Step(Init(now, timeout), QueueFails(why)), later);
            && AsCreated(s.row, now, why) && s.row.pid.None? && Endless(s.row)
            && s.winner.None? && s.procs == []
  {
    var s := Step(Init(now, timeout), QueueFails(why));
    StepInv(Init(now, timeout), QueueFails(why));
    SettledRun(s, later);
    UnclaimedFinishedNeverRuns(s, later);
  }

  /** If it raises after the queue entry is committed, the worker may be done by then: a complete run that
      ends in SUCCESS with its output, and is overwritten by FAILED without output, start or end. */
  lemma SuccessOverwritten(now: Time, timeout: nat, out: string, why: string)
    returns (before: seq<Event>, es: seq<Event>)
    ensures es == before + [QueueFails(why)]
    ensures Legal(Init(now, timeout), before) && Legal(Init(now, timeout), es)
    ensures var s := Exec(Init(now, timeout), before);
            s.row.status == Success && s.row.stdout == out && s.row.endedAt.Some? && Settled(s) && s.stoppers == map[]
    ensures AsCreated(Exec(Init(now, timeout), es).row, now, why) && Exec(Init(now, timeout), es).row.pid.None?
  {
    before := UndisturbedRun(Queued(now, timeout), 0, 1, 1, Exited(0, out, ""));
    Prepend(Init(now, timeout), Submit, before);
    before := [Submit] + before;
    ExecInv(Init(now, timeout), before);
    Append(Init(now, timeout), before, QueueFails(why));
    es := before + [QueueFails(why)];
  }

  /** Or it may be running: the row is then FAILED without a pid while the script runs on, and a force-stop
      of it does nothing at all. */
  lemma RunningScriptHidden(now: Time, timeout: nat, why: string) returns (es: seq<Event>)
    ensures Legal(Init(now, timeout), es)
    ensures var s := Exec(Init(now, timeout), es);
            && AsCreated(s.row, now, why) && s.row.pid.None? && LeaderLive(s.procs)
            && forall k, kind :: StopReadStep(s, k, kind) == s
  {
    var s := Queued(now, timeout);
    var k;
    es, k := StartedWaiting(s, 0, 1);
    assert Exec(s, es).procs[0].leader.Live?;
    Append(s, es, QueueFails(why));
    es := es + [QueueFails(why)];
    Prepend(Init(now, timeout), Submit, es);
    es := [Submit] + es;
  }

  // ----- The process tree and its recorded pid -----

  /** A recorded pid is the pid of the one process tree, written by the claimant, who is still
      before the end of its `finally` block or has crashed. */
  lemma RecordedPidIsClaimants(now: Time, timeout: nat, es: seq<Event>)
    requires Legal(Init(now, timeout), es)
    ensures var s := Exec(Init(now, timeout), es);
            s.row.pid.Some? ==>
              && s.winner.Some? && s.winner.value in s.workers
              && MayRecordPid(s.workers[s.winner.value].pc)
              && |s.procs| == 1 && s.row.pid == Some(s.procs[0].pid)
  {
    ExecInv(Init(now, timeout), es);
  }

  lemma DoneStep(s: Sys, e: Event, w: Id)
    requires Inv(s) && Enabled(s, e) && w in s.workers && s.workers[w].pc == Done
    ensures w in Step(s, e).workers && Step(s, e).workers[w] == s.workers[w]
    ensures s.winner == Some(w) == Step(s, e).winner
  {
    assert s.winner == Some(w);
    if !ByWorker(e) {
      EnvironmentFacts(s, e);
    } else if !e.Deliver? && e.w == w {
      StatementFacts(s.workers[w], s.row, s.procs, s.now, e);
      assert false;
    } else {
      BystanderStepFacts(s, e);
    }
  }

  lemma {:induction false} DoneStaysDone(s: Sys, es: seq<Event>, w: Id)
    requires Inv(s) && Legal(s, es)
    requires w in s.workers && s.workers[w].pc == Done
    ensures w in Exec(s, es).workers && Exec(s, es).workers[w] == s.workers[w]
    ensures s.winner == Some(w) == Exec(s, es).winner
    decreases es
  {
    if es != [] {
      DoneStep(s, es[0], w);
      StepInv(s, es[0]);
      DoneStaysDone(Step(s, es[0]), es[1..], w);
    }
  }

  /** After the claimant has left without crashing, now and in every continuation: the row holds no pid,
      the script is dead unless a fault struck before its handle was bound, and what may be alive besides
      has outlived a script that was reaped. */
  lemma CleanExit(s: Sys, es: seq<Event>, w: Id)
    requires Inv(s) && Legal(s, es)
    requires w in s.workers && s.workers[w].pc == Done
    ensures Exec(s, es).row.pid.None?
    ensures LeaderLive(Exec(s, es).procs) ==> s.workers[w].unbound
    ensures SomeAlive(Exec(s, es).procs) ==> s.workers[w].unbound || OutOfReach(Exec(s, es).procs)
    ensures AlwaysQuiet(s) <==> !SomeAlive(s.procs)
  {
    DoneStaysDone(s, es, w);
    ExecInv(s, es);
    DoneTree(Exec(s, es), w);
    DoneTree(s, w);
    QuietExactly(s);
  }

  lemma DoneTree(s: Sys, w: Id)
    requires Inv(s) && w in s.workers && s.workers[w].pc == Done
    ensures s.row.pid.None? && IsFinished(s.row.status) && !MayLaunch(s)
    ensures LeaderLive(s.procs) ==> s.workers[w].unbound
    ensures SomeAlive(s.procs) ==> s.workers[w].unbound || OutOfReach(s.procs)
  {
    assert s.winner == Some(w);
    assert Consistent(s.workers[w], s.row, s.procs);
  }

  /** Exactly when a fault leaves something alive: it struck between the launch of the process and the
      return of its handle, or after the leader had been reaped with others of its group alive. */
  lemma FaultLeavesTreeExactly(s: Sys, e: Event)
    requires Inv(s) && Enabled(s, e) && e.Interrupt?
    ensures var pc := s.workers[e.w].pc;
            && (SomeAlive(Step(s, e).procs) <==> SomeAlive(s.procs) && (pc == Spawned || OutOfReach(s.procs)))
            && (LeaderLive(Step(s, e).procs) <==> LeaderLive(s.procs) && pc == Spawned)
            && (Step(s, e).workers[e.w].unbound <==> pc == Spawned)
            && (OutOfReach(s.procs) ==> pc in {Collected, Reporting})
  {
    assert s.winner == Some(e.w);
    FaultStatement(s.workers[e.w], s.row, s.procs, s.now, e);
    ClaimantStepFacts(s, e);
  }

  lemma FaultStatement(k: Worker, row: Row, procs: seq<Process>, now: Time, e: Event)
    requires Consistent(k, row, procs) && e.Interrupt? && CanRun(k, procs, e)
    ensures var fx := Statement(k, row, procs, now, e);
            && (SomeAlive(fx.procs) <==> SomeAlive(procs) && (k.pc == Spawned || OutOfReach(procs)))
            && (LeaderLive(fx.procs) <==> LeaderLive(procs) && k.pc == Spawned)
            && (fx.worker.unbound <==> k.pc == Spawned)
            && (OutOfReach(procs) ==> k.pc in {Collected, Reporting})
  {
    ReapedTree(procs);
    if BeforeSpawn(k.pc) {
      assert procs == [];
    } else if HandlerKills(k) {
      KillReaches(k, procs, k.handle.value);
    }
  }

  /** In a table of one tree, what is out of reach is what a reaped leader has left behind. */
  lemma ReapedTree(procs: seq<Process>)
    requires |procs| <= 1
    ensures |procs| == 1 && procs[0].leader.Reaped? ==> !LeaderLive(procs) && (SomeAlive(procs) <==> OutOfReach(procs))
    ensures |procs| == 1 && !procs[0].leader.Reaped? ==> !OutOfReach(procs)
  {}

  /** Exactly when the wait leaves something alive: the script ended by itself and others of its group
      have outlived it. A timeout leaves nothing. */
  lemma WaitLeavesTreeExactly(s: Sys, e: Event)
    requires Inv(s) && Enabled(s, e) && e.WaitReturns?
    ensures !LeaderLive(Step(s, e).procs)
    ensures SomeAlive(Step(s, e).procs) <==> e.outcome.Exited? && OutOfReach(s.procs)
    ensures SomeAlive(Step(s, e).procs) ==> OutOfReach(Step(s, e).procs)
  {
    assert s.winner == Some(e.w);
    WaitStatement(s.workers[e.w], s.row, s.procs, s.now, e);
    ClaimantStepFacts(s, e);
  }

  lemma WaitStatement(k: Worker, row: Row, procs: seq<Process>, now: Time, e: Event)
    requires Consistent(k, row, procs) && e.WaitReturns? && CanRun(k, procs, e)
    ensures var fx := Statement(k, row, procs, now, e);
            && !LeaderLive(fx.procs)
            && (SomeAlive(fx.procs) <==> e.outcome.Exited? && OutOfReach(procs))
            && (SomeAlive(fx.procs) ==> OutOfReach(fx.procs))
  {
    KillReaches(k, procs, k.handle.value);
    assert |procs| == 1 && |Statement(k, row, procs, now, e).procs| == 1;
  }

  /** One more event at the end of an interleaving. */
  lemma {:induction false} Append(s: Sys, es: seq<Event>, e: Event)
    requires Legal(s, es) && Enabled(Exec(s, es), e)
    ensures Legal(s, es + [e]) && Exec(s, es + [e]) == Step(Exec(s, es), e)
    decreases es
  {
    if es == [] {
      assert [e][1..] == [];
    } else {
      Append(Step(s, es[0]), es[1..], e);
      assert (es + [e])[1..] == es[1..] + [e];
    }
  }

  /** One more statement of worker `w`, whose state and row are known at the end of `es`. */
  lemma Continue(s: Sys, es: seq<Event>, k: Worker, e: Event) returns (es': seq<Event>)
    requires ByWorker(e) && !e.Deliver? && !(e.Claim? && s.row.status != Pending)
    requires Legal(s, es)
    requires e.w in Exec(s, es).workers && Exec(s, es).workers[e.w] == k
    requires CanRun(k, Exec(s, es).procs, e)
    ensures es' == es + [e] && Legal(s, es')
    ensures var t := Exec(s, es); var fx := Statement(k, t.row, t.procs, t.now, e); var t' := Exec(s, es');
            && t'.workers == t.workers[e.w := fx.worker] && t'.row == fx.row && t'.procs == fx.procs
            && t'.now == t.now && t'.timeout == t.timeout && t'.taskTimeout == t.taskTimeout
            && t'.stoppers == t.stoppers && t'.reconcilers == t.reconcilers
            && t'.requesting == t.requesting && t'.queued == t.queued
            && t'.winner == if e.Claim? && t.row.status == Pending then Some(e.w) else t.winner
  {
    Append(s, es, e);
    es' := es + [e];
  }

  /** The run is created and its queue entry committed. */
  function Queued(now: Time, timeout: nat): Sys {
    Step(Init(now, timeout), Submit)
  }

  /** Everything but the workers, the row, the winner and the processes is as in `s`. */
  predicate SameSurroundings(s: Sys, t: Sys) {
    && t.now == s.now && t.timeout == s.timeout && t.taskTimeout == s.taskTimeout
    && t.stoppers == s.stoppers && t.reconcilers == s.reconcilers
    && t.requesting == s.requesting && t.queued == s.queued
  }

  function Started(row: Row, now: Time): Row {
    row.(status := Running, startedAt := Some(now))
  }

  predicate Faultless(e: Event) {
    !e.Interrupt? && !e.Crash?
  }

  lemma Delivered(s: Sys, w: Id) returns (es: seq<Event>, k: Worker)
    requires s.queued && w !in s.workers
    ensures es == [Deliver(w)] && Legal(s, es) && k == NewWorker(s.row)
    ensures Exec(s, es) == s.(workers := s.workers[w := k])
  {
    k := NewWorker(s.row);
    Append(s, [], Deliver(w));
    es := [] + [Deliver(w)];
  }

  lemma WonClaim(s: Sys, w: Id) returns (es: seq<Event>, k: Worker)
    requires s.queued && w !in s.workers && s.row.status == Pending
    ensures es == [Deliver(w), Claim(w)] && Legal(s, es)
    ensures k == NewWorker(s.row).(pc := Claimed, claimedAt := Some(s.now))
    ensures Exec(s, es) == s.(workers := s.workers[w := k], row := Started(s.row, s.now), winner := Some(w))
  {
    es, k := Delivered(s, w);
    es := Continue(s, es, k, Claim(w));
    k := k.(pc := Claimed, claimedAt := Some(s.now));
  }

  /** A first delivery, up to environment validation. */
  lemma Accepted(s: Sys, w: Id) returns (es: seq<Event>, k: Worker)
    requires s.queued && w !in s.workers && s.row.status == Pending
    ensures Legal(s, es) && forall e :: e in es ==> ByWorker(e) && Faultless(e)
    ensures k == NewWorker(Started(s.row, s.now)).(pc := Validating, claimedAt := Some(s.now))
    ensures var t := Exec(s, es);
            && w in t.workers && t.workers[w] == k && t.winner == Some(w)
            && t.procs == s.procs && t.row == Started(s.row, s.now) && SameSurroundings(s, t)
  {
    es, k := WonClaim(s, w);
    es := Continue(s, es, k, Refresh(w));
    k := k.(pc := Validating, copy := Started(s.row, s.now));
  }

  /** A first delivery, up to the launch. */
  lemma Staged(s: Sys, w: Id) returns (es: seq<Event>, k: Worker)
    requires s.queued && w !in s.workers && s.row.status == Pending
    ensures Legal(s, es) && forall e :: e in es ==> ByWorker(e) && Faultless(e)
    ensures k == NewWorker(Started(s.row, s.now)).(pc := Launching, claimedAt := Some(s.now))
    ensures var t := Exec(s, es);
            && w in t.workers && t.workers[w] == k && t.winner == Some(w)
            && t.procs == s.procs && t.row == Started(s.row, s.now) && SameSurroundings(s, t)
  {
    es, k := Accepted(s, w);
    es := Continue(s, es, k, ValidationPasses(w));
    k := k.(pc := Staging);
    es := Continue(s, es, k, StagingPasses(w));
    k := k.(pc := Launching);
  }

  /** A first delivery, up to the point where the process exists. */
  lemma Launched(s: Sys, w: Id, pid: Pid) returns (es: seq<Event>, k: Worker)
    requires s.queued && w !in s.workers && s.row.status == Pending
    ensures Legal(s, es) && forall e :: e in es ==> ByWorker(e) && Faultless(e)
    ensures k == NewWorker(Started(s.row, s.now)).(pc := Spawned, claimedAt := Some(s.now), child := Some(pid))
    ensures var t := Exec(s, es);
            && w in t.workers && t.workers[w] == k && t.winner == Some(w)
            && t.procs == s.procs + [Process(pid, Live, false)]
            && t.row == Started(s.row, s.now) && SameSurroundings(s, t)
  {
    es, k := Staged(s, w);
    es := Continue(s, es, k, Spawn(w, pid));
    k := k.(pc := Spawned, child := Some(pid));
  }

  /** A first delivery, up to the wait. */
  lemma StartedWaiting(s: Sys, w: Id, pid: Pid) returns (es: seq<Event>, k: Worker)
    requires s.queued && w !in s.workers && s.row.status == Pending && s.procs == []
    ensures Legal(s, es) && forall e :: e in es ==> Faultless(e)
    ensures k == NewWorker(Started(s.row, s.now).(pid := Some(pid))).(
            pc := Waiting, claimedAt := Some(s.now), child := Some(pid), handle := Some(pid))
    ensures var t := Exec(s, es);
            && w in t.workers && t.workers[w] == k && t.procs == [Process(pid, Live, false)] && t.winner == Some(w)
            && t.row == Started(s.row, s.now).(pid := Some(pid)) && SameSurroundings(s, t)
  {
    es, k := Launched(s, w, pid);
    es := Continue(s, es, k, Bind(w));
    k := k.(pc := Bound, handle := Some(pid));
    es := Continue(s, es, k, SavePid(w));
    k := k.(pc := Waiting, copy := k.copy.(pid := Some(pid)));
  }

  /** One act of the one process tree. */
  lemma Acts(s: Sys, es: seq<Event>, p: Process, a: Act) returns (es': seq<Event>)
    requires Legal(s, es) && Exec(s, es).procs == [p] && !a.Reap? && !a.Kill? && Possible(p, a)
    ensures es' == es + [ProcessActs(p.pid, a)] && Legal(s, es')
    ensures Exec(s, es') == Exec(s, es).(procs := [Acted(p, a)])
  {
    assert Exec(s, es).procs[0] == p;
    Append(s, es, ProcessActs(p.pid, a));
    es' := es + [ProcessActs(p.pid, a)];
    assert Changed([p], p.pid, a) == [Acted(p, a)];
  }

  /** The worker waits for its process: the script exits and is collected, or is killed when its time is
      up. `group` says that the script has left others of its group behind. */
  lemma Awaited(s: Sys, es: seq<Event>, k: Worker, w: Id, p: Process, o: Outcome) returns (es': seq<Event>)
    requires Legal(s, es) && Exec(s, es).procs == [p] && p.leader.Live?
    requires w in Exec(s, es).workers && Exec(s, es).workers[w] == k
    requires k.pc == Waiting && k.handle == Some(p.pid)
    ensures Legal(s, es') && forall e :: e in es' ==> e in es || Faultless(e)
    ensures var t := Exec(s, es); var t' := Exec(s, es');
            && t' == t.(workers := t.workers[w := k.(pc := Reporting, outcome := Some(o))],
                        procs := [Process(p.pid, Reaped, o.Exited? && p.group)])
  {
    if o.Exited? {
      es' := CollectedExit(s, es, k, w, p);
      es' := Continue(s, es', k.(pc := Collected), WaitReturns(w, o));
    } else {
      es' := Continue(s, es, k, WaitReturns(w, o));
      assert Exec(s, es').procs == [Process(p.pid, Reaped, false)];
    }
  }

  lemma CollectedExit(s: Sys, es: seq<Event>, k: Worker, w: Id, p: Process) returns (es': seq<Event>)
    requires Legal(s, es) && Exec(s, es).procs == [p] && p.leader.Live?
    requires w in Exec(s, es).workers && Exec(s, es).workers[w] == k
    requires k.pc == Waiting && k.handle == Some(p.pid)
    ensures Legal(s, es') && forall e :: e in es' ==> e in es || Faultless(e)
    ensures var t := Exec(s, es);
            Exec(s, es') == t.(workers := t.workers[w := k.(pc := Collected)],
                               procs := [Process(p.pid, Reaped, p.group)])
  {
    es' := Acts(s, es, p, LeaderExit);
    assert Exec(s, es').procs[0] == p.(leader := Zombie);
    es' := Continue(s, es', k, Collect(w));
    assert Exec(s, es').procs == [Process(p.pid, Reaped, p.group)];
  }

  function Outcomes(row: Row, started: Time, ended: Time, o: Outcome): Row {
    row.(status := if o.TimedOut? then Timeout else if o.code == 0 then Success else Failed,
    startedAt := Some(started), endedAt := Some(ended), pid := None,
    exitCode := Some(if o.TimedOut? then -1 else o.code),
    stdout := o.stdout,
    stderr := if o.Exited? then o.stderr
    else if o.stderr != "" then o.stderr + WAIT_TIMEOUT_NOTE else BARE_TIMEOUT_NOTE)
  }

  lemma WaitedFor(s: Sys, w: Id, pid: Pid, delta: Time, o: Outcome) returns (es: seq<Event>, k: Worker)
    requires s.queued && w !in s.workers && s.row.status == Pending && s.procs == [] && delta > 0
    ensures Legal(s, es)
    ensures k == NewWorker(Started(s.row, s.now).(pid := Some(pid))).(
            pc := Reporting, claimedAt := Some(s.now), child := Some(pid), handle := Some(pid), outcome := Some(o))
    ensures var t := Exec(s, es);
            && w in t.workers && t.workers[w] == k && !SomeAlive(t.procs) && t.winner == Some(w)
            && t.row == Started(s.row, s.now).(pid := Some(pid)) && SameSurroundings(s.(now := s.now + delta), t)
  {
    es, k := StartedWaiting(s, w, pid);
    es := LetTimePass(s, es, delta);
    es := Awaited(s, es, k, w, Process(pid, Live, false), o);
    k := k.(pc := Reporting, outcome := Some(o));
  }

  /** A delivery that nobody disturbs: the row ends with the outcome of the process, column by column. */
  lemma UndisturbedRun(s: Sys, w: Id, pid: Pid, delta: Time, o: Outcome) returns (es: seq<Event>)
    requires s.queued && w !in s.workers && s.row.status == Pending && s.row.endedAt.None? && s.procs == [] && delta > 0
    ensures Legal(s, es)
    ensures var t := Exec(s, es);
            && w in t.workers && t.workers[w].pc == Done && !SomeAlive(t.procs) && t.winner == Some(w)
            && t.row == Outcomes(s.row, s.now, s.now + delta, o) && SameSurroundings(s.(now := s.now + delta), t)
  {
    var k;
    es, k := WaitedFor(s, w, pid, delta, o);
    es := Concluded(s, es, k, w, o);
  }

  /** The report of an outcome, and the end of the claimant. */
  lemma Concluded(s: Sys, es: seq<Event>, k: Worker, w: Id, o: Outcome) returns (es': seq<Event>)
    requires Legal(s, es) && w in Exec(s, es).workers && Exec(s, es).workers[w] == k
    requires k.pc == Reporting && k.outcome == Some(o) && Exec(s, es).row.status == Running
    ensures Legal(s, es') && forall e :: e in es' ==> e in es || Faultless(e)
    ensures var t := Exec(s, es); var t' := Exec(s, es');
            && w in t'.workers && t'.workers[w].pc == Done && t'.winner == t.winner && t'.procs == t.procs
            && t'.row == Finalized(t.row, Reported(k, o), t.now) && SameSurroundings(t, t')
  {
    es' := Continue(s, es, k, Report(w));
    es' := Continue(s, es', Reported(k, o), Finalize(w));
  }

  lemma LetTimePass(s: Sys, es: seq<Event>, delta: Time) returns (es': seq<Event>)
    requires Legal(s, es) && delta > 0
    ensures Legal(s, es') && Exec(s, es') == Exec(s, es).(now := Exec(s, es).now + delta)
  {
    Append(s, es, Tick(delta));
    es' := es + [Tick(delta)];
  }

  /** A fault before the handle is bound, such as the task deadline, leaves the claimant done, the row
      finished with no pid, and the script running. */
  lemma ScriptLeftRunning(now: Time, timeout: nat, fault: Fault) returns (es: seq<Event>)
    requires fault != SubprocessFault
    ensures Legal(Init(now, timeout), es)
    ensures var s := Exec(Init(now, timeout), es);
            && 0 in s.workers && s.workers[0].pc == Done
            && LeaderLive(s.procs) && s.row.pid.None?
            && s.row.status == (if fault == TaskDeadline then Timeout else Failed) && s.row.exitCode == Some(-1)
  {
    var s := Queued(now, timeout);
    var k;
    es, k := Launched(s, 0, 1);
    es := StruckDown(s, es, 0, k, fault);
    Prepend(Init(now, timeout), Submit, es);
    es := [Submit] + es;
  }

  /** A fault strikes between the launch and the handle, and the claimant finalizes. */
  lemma StruckDown(s: Sys, es: seq<Event>, w: Id, k: Worker, fault: Fault) returns (es': seq<Event>)
    requires Legal(s, es) && w in Exec(s, es).workers && Exec(s, es).workers[w] == k
    requires k.pc == Spawned && k.handle.None? && fault != SubprocessFault
    requires Exec(s, es).procs == [Process(1, Live, false)] && Exec(s, es).row.status == Running
    ensures Legal(s, es')
    ensures var t := Exec(s, es');
            && w in t.workers && t.workers[w].pc == Done
            && LeaderLive(t.procs) && t.row.pid.None?
            && t.row.status == (if fault == TaskDeadline then Timeout else Failed) && t.row.exitCode == Some(-1)
  {
    es' := Continue(s, es, k, Interrupt(w, fault, "", ""));
    assert Exec(s, es').procs[0].leader.Live?;
    es' := Continue(s, es', Interrupted(k, fault, "", ""), Finalize(w));
  }

  /** No fault is needed to leave others of the script's group running: it is enough that the script
      starts a process in the background and exits. The run succeeds, and no kill by pid finds what is
      left. */
  lemma GroupLeftRunning(now: Time, timeout: nat) returns (es: seq<Event>)
    ensures Legal(Init(now, timeout), es) && forall e :: e in es ==> Faultless(e)
    ensures var s := Exec(Init(now, timeout), es);
            && 0 in s.workers && s.workers[0].pc == Done
            && s.row.status == Success && s.row.pid.None?
            && OutOfReach(s.procs) && forall pid :: Changed(s.procs, pid, Kill) == s.procs
  {
    var s := Queued(now, timeout);
    es := Detached(s, 0, 1);
    forall pid: Pid
      ensures Changed([Process(1, Reaped, true)], pid, Kill) == [Process(1, Reaped, true)]
    {}
    assert Exec(s, es).procs[0] == Process(1, Reaped, true);
    Prepend(Init(now, timeout), Submit, es);
    es := [Submit] + es;
  }

  lemma Detached(s: Sys, w: Id, pid: Pid) returns (es: seq<Event>)
    requires s.queued && w !in s.workers && s.row.status == Pending && s.procs == []
    ensures Legal(s, es) && forall e :: e in es ==> Faultless(e)
    ensures var t := Exec(s, es);
            && w in t.workers && t.workers[w].pc == Done
            && t.row.status == Success && t.row.pid.None? && t.procs == [Process(pid, Reaped, true)]
  {
    var k;
    var o := Exited(0, "", "");
    es, k := StartedWaiting(s, w, pid);
    es := Acts(s, es, Process(pid, Live, false), Fork);
    es := Awaited(s, es, k, w, Process(pid, Live, true), o);
    es := Concluded(s, es, k.(pc := Reporting, outcome := Some(o)), w, o);
  }

  // ----- What is stored of a run -----

  /** Why a run ended, as its claimant has it. `partial` is the output stored so far by a fault that strikes
      while the outcome is being reported. */
  datatype Verdict =
    | Struck(fault: Fault, message: string, partial: Option<string>)
    | Invalid(why: string)
    | Refused(why: string)
    | Ended(outcome: Outcome)

  /** The columns of the result; `before` is the output stored before. */
  predicate Tells(row: Row, before: string, v: Verdict) {
    match v
    case Struck(fault, message, partial) =>
      && row.status == (if fault == TaskDeadline then Timeout else Failed)
      && row.exitCode == Some(-1)
      && row.stderr == (if fault == TaskDeadline then DEADLINE_NOTE else message)
      && row.stdout == (if partial.Some? then partial.value else before)
    case Invalid(why) => row.status == Failed && row.exitCode.None? && row.stderr == why && row.stdout == before
    case Refused(why) => row.status == Failed && row.exitCode == Some(-1) && row.stderr == why && row.stdout == before
    case Ended(Exited(code, out, err)) =>
      && row.status == (if code == 0 then Success else Failed)
      && row.exitCode == Some(code) && row.stdout == out && row.stderr == err
    case Ended(TimedOut(out, err)) =>
      && row.status == Timeout && row.exitCode == Some(-1) && row.stdout == out
      && row.stderr == (if err != "" then err + WAIT_TIMEOUT_NOTE else BARE_TIMEOUT_NOTE)
  }

  /** Nothing is stored yet of how the run went. */
  predicate Blank(row: Row) {
    row.stdout == "" && row.endedAt.None?
  }

  /** Until the claimant has a result, its copy has none. */
  predicate BlankUntilTold(k: Worker) {
    k.pc == Claimed || InTry(k.pc) ==> k.copy.stdout == "" && (k.pc != SavingInvalid ==> k.copy.endedAt.None?)
  }

  ghost predicate BlankBefore(s: Sys) {
    && (s.row.status == Pending ==> Blank(s.row) && forall w :: w in s.workers ==> Blank(s.workers[w].copy))
    && (s.winner.Some? && s.winner.value in s.workers ==> BlankUntilTold(s.workers[s.winner.value]))
  }

  lemma BlankStatement(k: Worker, row: Row, procs: seq<Process>, now: Time, e: Event)
    requires Consistent(k, row, procs) && ByWorker(e) && CanRun(k, procs, e) && BlankUntilTold(k)
    ensures BlankUntilTold(Statement(k, row, procs, now, e).worker)
  {}

  lemma BlankEnvironment(s: Sys, e: Event)
    requires Inv(s) && Enabled(s, e) && !ByWorker(e) && BlankBefore(s)
    ensures BlankBefore(Step(s, e))
  {
    EnvironmentFacts(s, e);
    PendingRowKept(s, e);
  }

  lemma BlankClaimant(s: Sys, e: Event)
    requires Inv(s) && Enabled(s, e) && ByWorker(e) && !e.Deliver? && s.winner == Some(e.w) && BlankBefore(s)
    ensures BlankBefore(Step(s, e))
  {
    BlankStatement(s.workers[e.w], s.row, s.procs, s.now, e);
    StatementFacts(s.workers[e.w], s.row, s.procs, s.now, e);
    ClaimantStepFacts(s, e);
  }

  lemma BlankClaim(s: Sys, e: Event)
    requires Inv(s) && Enabled(s, e) && e.Claim? && s.row.status == Pending && BlankBefore(s)
    ensures BlankBefore(Step(s, e))
  {}

  lemma BlankBystander(s: Sys, e: Event)
    requires Inv(s) && Enabled(s, e) && ByWorker(e) && (e.Deliver? || s.winner != Some(e.w)) && BlankBefore(s)
    requires !(e.Claim? && s.row.status == Pending)
    ensures BlankBefore(Step(s, e))
  {
    BystanderStepFacts(s, e);
    if !e.Deliver? {
      BystanderStatement(s.workers[e.w], s.row, s.procs, s.now, e);
    }
  }

  lemma BlankStep(s: Sys, e: Event)
    requires Inv(s) && Enabled(s, e) && BlankBefore(s)
    ensures BlankBefore(Step(s, e))
  {
    if !ByWorker(e) {
      BlankEnvironment(s, e);
    } else if e.Claim? && s.row.status == Pending {
      BlankClaim(s, e);
    } else if !e.Deliver? && s.winner == Some(e.w) {
      BlankClaimant(s, e);
    } else {
      BlankBystander(s, e);
    }
  }

  /** While a row is PENDING nobody has written to it. */
  lemma PendingRowKept(s: Sys, e: Event)
    requires Inv(s) && Enabled(s, e) && !ByWorker(e)
    ensures Step(s, e).row.status == Pending ==> Step(s, e).row == s.row
  {
    EnvironmentFacts(s, e);
    if ByRequest(e) {
      RequestColumns(s, e);
    } else {
      OthersShape(s, e);
      if e.StopWrite? {
        StopColumns(s.row, s.stoppers[e.k], s.now);
      } else if e.ReconcileFlip? {
        FlipColumns(s, e.r);
      }
    }
  }

  lemma {:induction false} BlankRun(s: Sys, es: seq<Event>)
    requires Inv(s) && Legal(s, es) && BlankBefore(s)
    ensures BlankBefore(Exec(s, es))
    decreases es
  {
    if es != [] {
      BlankStep(s, es[0]);
      StepInv(s, es[0]);
      BlankRun(Step(s, es[0]), es[1..]);
    }
  }

  /** What every fault stores, wherever in the try block it strikes (`s` to `t`) and whatever the others do until
      the claimant finalizes an uncancelled row (`u` to `v`): TIMEOUT with the deadline's note if and only if it
      is the task deadline, else FAILED with the handler's message; exit code -1; no output, unless it
      strikes while the outcome is being reported; the time of the finalization as the end, unless a failed
      validation had set one; and no pid. */
  lemma FaultIsStored(now: Time, timeout: nat, es: seq<Event>, s: Sys, e: Event, t: Sys, u: Sys, v: Sys)
    requires Legal(Init(now, timeout), es) && s == Exec(Init(now, timeout), es)
    requires e.Interrupt? && Enabled(s, e) && t == Step(s, e) && e.w in t.workers
    requires e.w in u.workers && u.workers[e.w] == t.workers[e.w] && u.row.status != Cancelled
    requires Enabled(u, Finalize(e.w)) && v == Step(u, Finalize(e.w))
    ensures StoredOf(s.workers[e.w], e, u, v.row)
  {
    ExecInv(Init(now, timeout), es);
    BlankRun(Init(now, timeout), es);
    FaultStored(s, e, t, u, v);
  }

  lemma FaultStored(s: Sys, e: Event, t: Sys, u: Sys, v: Sys)
    requires Inv(s) && BlankBefore(s) && e.Interrupt? && Enabled(s, e) && t == Step(s, e) && e.w in t.workers
    requires e.w in u.workers && u.workers[e.w] == t.workers[e.w] && u.row.status != Cancelled
    requires Enabled(u, Finalize(e.w)) && v == Step(u, Finalize(e.w))
    ensures StoredOf(s.workers[e.w], e, u, v.row)
  {
    FaultTold(s, e, t);
    FinalizeStores(u, e.w, v);
  }

  /** The row of a fault `e` that struck the claimant `k`, once it has finalized in `u`. */
  predicate StoredOf(k: Worker, e: Event, u: Sys, row: Row)
    requires e.Interrupt?
  {
    && row.status == (if e.fault == TaskDeadline then Timeout else Failed)
    && row.exitCode == Some(-1)
    && row.stderr == (if e.fault == TaskDeadline then DEADLINE_NOTE else e.why)
    && row.stdout == (if k.pc == Reporting then e.stdout else "")
    && row.endedAt == (if k.pc == SavingInvalid then k.copy.endedAt else Some(u.now))
    && row.pid.None? && row.startedAt == u.row.startedAt && row.createdAt == u.row.createdAt
  }

  /** What a handler makes of the claimant's copy. */
  lemma FaultTold(s: Sys, e: Event, t: Sys)
    requires Inv(s) && BlankBefore(s) && e.Interrupt? && Enabled(s, e) && t == Step(s, e) && e.w in t.workers
    ensures var k := s.workers[e.w]; var told := t.workers[e.w].copy;
            && told.status == (if e.fault == TaskDeadline then Timeout else Failed)
            && told.exitCode == Some(-1)
            && told.stderr == (if e.fault == TaskDeadline then DEADLINE_NOTE else e.why)
            && told.stdout == (if k.pc == Reporting then e.stdout else "")
            && told.endedAt == (if k.pc == SavingInvalid then k.copy.endedAt else None)
  {
    assert s.winner == Some(e.w);
  }

  /** The finalization of an uncancelled row stores the claimant's result. */
  lemma FinalizeStores(u: Sys, w: Id, v: Sys)
    requires Enabled(u, Finalize(w)) && v == Step(u, Finalize(w)) && u.row.status != Cancelled
    ensures var copy := u.workers[w].copy;
            && v.row.status == copy.status && v.row.exitCode == copy.exitCode
            && v.row.stdout == copy.stdout && v.row.stderr == copy.stderr
            && v.row.endedAt == (if copy.endedAt.Some? then copy.endedAt else Some(u.now))
            && v.row.pid.None? && v.row.startedAt == u.row.startedAt && v.row.createdAt == u.row.createdAt
  {}

  /** A delivery that fails validation, finalized later: the row says when and why it failed. */
  lemma InvalidRun(s: Sys, w: Id, why: string, delta: Time) returns (es: seq<Event>)
    requires s.queued && w !in s.workers && s.row.status == Pending && s.row.endedAt.None? && delta > 0
    ensures Legal(s, es)
    ensures var t := Exec(s, es);
            && w in t.workers && t.workers[w].pc == Done && t.procs == s.procs
            && t.row == s.row.(status := Failed, stderr := why, startedAt := Some(s.now), endedAt := Some(s.now),
                               pid := None)
  {
    var k;
    es, k := Accepted(s, w);
    es := Continue(s, es, k, ValidationFails(w, why));
    k := k.(pc := SavingInvalid,
            copy := k.copy.(status := Failed, stderr := why, endedAt := Some(s.now)));
    es := Continue(s, es, k, SaveInvalid(w));
    es := LetTimePass(s, es, delta);
    es := Continue(s, es, k.(pc := Finalizing), Finalize(w));
  }

  /** A delivery that is refused while it is staged, or at the launch. */
  lemma RefusedRun(s: Sys, w: Id, why: string, staged: bool) returns (es: seq<Event>)
    requires s.queued && w !in s.workers && s.row.status == Pending && s.row.endedAt.None?
    ensures Legal(s, es)
    ensures var t := Exec(s, es);
            && w in t.workers && t.workers[w].pc == Done && t.procs == s.procs
            && t.row == s.row.(status := Failed, exitCode := Some(-1), stderr := why,
                               startedAt := Some(s.now), endedAt := Some(s.now), pid := None)
  {
    var k;
    if staged {
      es, k := Staged(s, w);
    } else {
      es, k := Accepted(s, w);
      es := Continue(s, es, k, ValidationPasses(w));
      k := k.(pc := Staging);
    }
    es := RefusedEnd(s, es, k, w, why);
  }

  lemma RefusedEnd(s: Sys, es: seq<Event>, k: Worker, w: Id, why: string) returns (es': seq<Event>)
    requires Legal(s, es) && w in Exec(s, es).workers && Exec(s, es).workers[w] == k
    requires (k.pc == Staging || k.pc == Launching) && k.copy.endedAt.None? && Exec(s, es).row.status == Running
    ensures Legal(s, es')
    ensures var t := Exec(s, es); var t' := Exec(s, es');
            && w in t'.workers && t'.workers[w].pc == Done && t'.procs == t.procs
            && t'.row == t.row.(status := Failed, exitCode := Some(-1), stderr := why, stdout := k.copy.stdout,
                                endedAt := Some(t.now), pid := None)
  {
    es' := Continue(s, es, k, if k.pc == Staging then StagingFails(w, why) else LaunchRefused(w, why));
    var refused := k.(pc := Finalizing, copy := k.copy.(status := Failed, exitCode := Some(-1), stderr := why));
    es' := Continue(s, es', refused, Finalize(w));
  }

  /** A crash can come between any two statements, and writes nothing. */
  lemma CrashWritesNothing(s: Sys, w: Id)
    requires w in s.workers && !Stopped(s.workers[w].pc)
    ensures Enabled(s, Crash(w))
    ensures var t := Step(s, Crash(w));
            && t.row == s.row && t.procs == s.procs && w in t.workers && t.workers[w].pc == Crashed
  {}

  // ----- What a stop request reads, kills and writes -----

  lemma StopReadsExactly(s: Sys, k: Id, kind: StopKind)
    requires k !in s.stoppers
    ensures Enabled(s, StopRead(k, kind))
    ensures var t := Step(s, StopRead(k, kind));
            if s.row.status == Pending || s.row.status == Running then
              && t == s.(stoppers := t.stoppers) && k in t.stoppers
              && t.stoppers[k].kind == kind && t.stoppers[k].copy == s.row
              && (t.stoppers[k].mustKill <==> kind == ForceStop && s.row.status == Running && s.row.pid.Some?)
            else t == s
  {}

  /** The write of a stop, column by column, onto whatever the row says by then; `read` is the row it read. */
  lemma StopWritesExactly(s: Sys, k: Id)
    requires k in s.stoppers && !s.stoppers[k].mustKill
    ensures Enabled(s, StopWrite(k))
    ensures var read := s.stoppers[k].copy; var kind := s.stoppers[k].kind;
            var t := Step(s, StopWrite(k)); var row := t.row;
            && t == s.(row := row, stoppers := s.stoppers - {k})
            && row.status == Cancelled && row.endedAt == Some(s.now)
            && row.createdAt == s.row.createdAt && row.startedAt == s.row.startedAt
            && row.exitCode == s.row.exitCode && row.stdout == s.row.stdout
            && row.stderr == (if kind == CancelTask then read.stderr + "\n[Task cancelled by user]"
                              else if read.status == Running then read.stderr + "\n[Killed by user]"
                              else s.row.stderr)
            && row.pid == (if kind == ForceStop && read.status == Running then None else s.row.pid)
  {}

  // ----- Progress -----

  /** An upper bound on the statements a worker still has before it. */
  function Remaining(pc: Pc): nat {
    match pc
    case Loaded => 12
    case Claimed => 11
    case Validating => 10
    case Staging => 9
    case Launching => 8
    case Spawned => 7
    case Bound => 6
    case Waiting => 5
    case Collected => 4
    case Reporting => 3
    case SavingInvalid => 3
    case Finalizing => 2
    case ClearingPid => 1
    case _ => 0
  }

  function StatementsOf(es: seq<Event>, w: Id): nat {
    if es == [] then 0
    else (if ByWorker(es[0]) && !es[0].Deliver? && es[0].w == w then 1 else 0) + StatementsOf(es[1..], w)
  }

  lemma StatementShortens(k: Worker, row: Row, procs: seq<Process>, now: Time, e: Event)
    requires ByWorker(e) && CanRun(k, procs, e)
    ensures Remaining(Statement(k, row, procs, now, e).worker.pc) < Remaining(k.pc)
  {}

  lemma StatementProgress(s: Sys, e: Event, w: Id)
    requires Enabled(s, e) && w in s.workers
    ensures w in Step(s, e).workers
    ensures if ByWorker(e) && !e.Deliver? && e.w == w
            then Remaining(Step(s, e).workers[w].pc) < Remaining(s.workers[w].pc)
            else Step(s, e).workers[w] == s.workers[w]
  {
    if ByWorker(e) && !e.Deliver? {
      StatementShortens(s.workers[e.w], s.row, s.procs, s.now, e);
    }
  }

  /** No interleaving makes a worker execute more than its remaining statements. */
  lemma {:induction false} BoundedWork(s: Sys, es: seq<Event>, w: Id)
    requires Legal(s, es) && w in s.workers
    ensures w in Exec(s, es).workers
    ensures StatementsOf(es, w) + Remaining(Exec(s, es).workers[w].pc) <= Remaining(s.workers[w].pc)
    decreases es
  {
    if es != [] {
      StatementProgress(s, es[0], w);
      BoundedWork(Step(s, es[0]), es[1..], w);
    }
  }

  lemma NextStatementCanRun(k: Worker, w: Id, row: Row, procs: seq<Process>, now: Time)
    requires Consistent(k, row, procs) && !Stopped(k.pc)
    ensures var e := NextStatement(k, w);
            ByWorker(e) && !e.Deliver? && !e.Claim? && !e.Collect? && !e.Crash? && e.w == w && CanRun(k, procs, e)
  {}

  lemma NextStatementRuns(k: Worker, w: Id, row: Row, procs: seq<Process>, now: Time)
    requires Consistent(k, row, procs) && !Stopped(k.pc)
    ensures var e := NextStatement(k, w);
            && ByWorker(e) && !e.Deliver? && !e.Claim? && e.w == w && CanRun(k, procs, e)
            && var fx := Statement(k, row, procs, now, e);
               && fx.worker.pc !in {Loaded, Lost, Crashed}
               && Remaining(fx.worker.pc) < Remaining(k.pc)
               && (fx.worker.pc == Done ==> IsFinished(fx.row.status))
  {
    NextStatementCanRun(k, w, row, procs, now);
    StatementShortens(k, row, procs, now, NextStatement(k, w));
  }

  /** From every state with a live claimant, that claimant's own statements lead to a finished row,
      whatever the other parties have written in the meantime. */
  lemma ClaimantCanFinish(s: Sys) returns (es: seq<Event>)
    requires Inv(s) && LiveClaimant(s)
    ensures Legal(s, es)
    ensures forall e :: e in es ==> ByWorker(e) && e.w == s.winner.value
    ensures var w := s.winner.value;
            w in Exec(s, es).workers && Exec(s, es).workers[w].pc == Done && IsFinished(Exec(s, es).row.status)
    decreases Remaining(s.workers[s.winner.value].pc)
  {
    var w := s.winner.value;
    var e := NextStatement(s.workers[w], w);
    NextStatementRuns(s.workers[w], w, s.row, s.procs, s.now);
    StepInv(s, e);
    if Step(s, e).workers[w].pc == Done {
      es := [];
    } else {
      es := ClaimantCanFinish(Step(s, e));
    }
    Prepend(s, e, es);
    es := [e] + es;
  }

  function NextStatement(k: Worker, w: Id): Event {
    match k.pc
    case Claimed => Refresh(w)
    case Validating => ValidationPasses(w)
    case SavingInvalid => SaveInvalid(w)
    case Staging => StagingPasses(w)
    case Launching => Spawn(w, 1)
    case Spawned => Bind(w)
    case Bound => SavePid(w)
    case Waiting => WaitReturns(w, TimedOut("", ""))
    case Collected => WaitReturns(w, Exited(0, "", ""))
    case Reporting => Report(w)
    case Finalizing => Finalize(w)
    case _ => ClearPid(w)
  }
}
