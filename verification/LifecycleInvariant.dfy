/** The invariant of the run lifecycle, kept by every event with no assumption about time. */
module LifecycleInvariant {
  import opened Wrappers
  import opened RunModel
  import opened Lifecycle

  /** A worker that never won the claim has done nothing. */
  predicate Bystander(k: Worker) {
    k.claimedAt.None? && k.pc in {Loaded, Lost, Crashed} && k.child.None? && k.handle.None?
    && k.outcome.None? && !k.unbound
  }

  predicate BeforeSpawn(pc: Pc) {
    pc in {Claimed, Validating, SavingInvalid, Staging, Launching}
  }

  /** May the row hold a pid while the claimant stands here? */
  predicate MayRecordPid(pc: Pc) {
    pc in {Waiting, Collected, Reporting, Finalizing, ClearingPid, Crashed}
  }

  /** Success is exit code 0, a timeout is recorded as -1, and a failure is never 0. */
  predicate ExitMatches(row: Row) {
    && (row.status == Success ==> row.exitCode == Some(0))
    && (row.status == Timeout ==> row.exitCode == Some(-1))
    && (row.status == Failed ==> row.exitCode != Some(0))
  }

  /** The columns of a row tell one story. */
  predicate Coherent(row: Row) {
    && (row.endedAt.Some? ==> IsFinished(row.status))
    && (row.status == Running ==> row.startedAt.Some?)
    && ExitMatches(row)
    && (row.status == Pending ==> row.exitCode.None?)
  }

  /** The claimant's private state at each program point. */
  predicate Claimant(k: Worker, row: Row) {
    && k.claimedAt.Some?
    && k.pc != Loaded && k.pc != Lost
    && (k.copy.createdAt == row.createdAt)
    && (k.copy.startedAt.Some? ==> k.copy.startedAt == k.claimedAt)
    && (BeforeSpawn(k.pc) || k.pc == Spawned ==> k.handle.None? && k.copy.pid.None?)
    && (k.pc in {Bound, Waiting, Collected, Reporting} ==> k.handle.Some? && k.handle == k.child)
    && (k.pc == SavingInvalid ==> k.copy.status == Failed)
    && (k.pc in {SavingInvalid, Finalizing, ClearingPid, Done} ==> IsFinished(k.copy.status) && ExitMatches(k.copy))
    && (BeforeSpawn(k.pc) ==> k.copy.exitCode.None?)
    && (k.pc == SavingInvalid ==> k.copy.endedAt.Some?)
    && (BeforeSpawn(k.pc) || k.pc in {Spawned, Bound, Waiting, Collected} ==> k.outcome.None?)
    && (k.pc == Reporting ==> k.outcome.Some?)
    && (!AfterWait(k.pc) && k.pc != Crashed ==> !k.unbound)
    && (k.handle.Some? ==> k.handle == k.child)
  }

  /** The script is dead, and nothing that a kill could still find is alive. */
  predicate Released(p: Process) {
    !p.leader.Live? && (p.group ==> p.leader.Reaped?)
  }

  /** The process table: at most one tree was ever spawned, and the claimant spawned it. */
  predicate Processes(k: Worker, procs: seq<Process>) {
    && |procs| <= 1
    && (|procs| == 1 <==> k.child.Some?)
    && (|procs| == 1 ==> k.child == Some(procs[0].pid))
    && (BeforeSpawn(k.pc) ==> procs == [])
    && (k.pc in {Spawned, Bound, Waiting} ==> |procs| == 1 && !procs[0].leader.Reaped?)
    && (k.pc in {Collected, Reporting} ==> |procs| == 1 && procs[0].leader.Reaped?)
    && (AfterWait(k.pc) && !k.unbound && |procs| == 1 ==> Released(procs[0]))
  }

  predicate RecordedPid(row: Row, k: Worker) {
    row.pid.Some? ==> MayRecordPid(k.pc) && row.pid == k.child
  }

  predicate Unclaimed(s: Sys) {
    s.procs == [] && s.row.pid.None? && s.row.startedAt.None? && s.row.status != Running
  }

  predicate OneClaimant(s: Sys) {
    && (s.winner.Some? ==> s.winner.value in s.workers)
    && (forall w :: w in s.workers ==>
          if s.winner == Some(w) then s.workers[w].claimedAt.Some? else Bystander(s.workers[w]))
  }

  /** The claimant, the row and the process table agree. */
  predicate Consistent(k: Worker, row: Row, procs: seq<Process>) {
    && row.status != Pending
    && (row.startedAt.Some? ==> row.startedAt == k.claimedAt)
    && Claimant(k, row)
    && Processes(k, procs)
    && RecordedPid(row, k)
    && (k.pc == ClearingPid ==> IsFinished(row.status))
    && (k.pc == Done ==> IsFinished(row.status))
  }

  predicate Copies(s: Sys) {
    && (forall w :: w in s.workers ==> s.workers[w].copy.createdAt == s.row.createdAt)
    && (s.winner.None? ==> forall w :: w in s.workers ==>
          s.workers[w].copy.pid.None? && s.workers[w].copy.startedAt.None?)
    && (s.row.status == Pending ==> forall w :: w in s.workers ==> s.workers[w].copy.exitCode.None?)
    && (forall r :: r in s.reconcilers ==>
          && !IsFinished(s.reconcilers[r].copy.status)
          && (s.reconcilers[r].copy.status == Running ==> s.winner.Some?))
  }

  predicate Inv(s: Sys) {
    && (forall w :: w in s.workers ==> s.queued)
    && OneClaimant(s)
    && Copies(s)
    && Coherent(s.row)
    && (s.winner.None? ==> Unclaimed(s))
    && (s.winner.Some? ==> Consistent(s.workers[s.winner.value], s.row, s.procs))
  }

  lemma ActKeeps(k: Worker, procs: seq<Process>, pid: Pid, a: Act)
    requires Processes(k, procs) && (a.Kill? || PossibleAt(procs, pid, a))
    requires a.Reap? ==> AfterWait(k.pc) || k.pc == Crashed
    ensures Processes(k, Changed(procs, pid, a))
  {}

  /** A kill by the pid of the one tree leaves alive exactly what has outlived a reaped leader. */
  lemma KillReaches(k: Worker, procs: seq<Process>, pid: Pid)
    requires Processes(k, procs) && k.child == Some(pid)
    ensures SomeAlive(Changed(procs, pid, Kill)) <==> OutOfReach(procs)
    ensures OutOfReach(procs) ==> Changed(procs, pid, Kill) == procs
    ensures !LeaderLive(Changed(procs, pid, Kill))
  {
    assert |procs| == 1 && procs[0].pid == pid;
    assert |Changed(procs, pid, Kill)| == 1 && Changed(procs, pid, Kill)[0] == Acted(procs[0], Kill);
  }

  lemma DeliverInv(s: Sys, w: Id)
    requires Inv(s) && s.queued && w !in s.workers
    ensures Inv(s.(workers := s.workers[w := NewWorker(s.row)]))
  {}

  lemma BystanderStatement(k: Worker, row: Row, procs: seq<Process>, now: Time, e: Event)
    requires Bystander(k) && ByWorker(e) && CanRun(k, procs, e) && !(e.Claim? && row.status == Pending)
    ensures e.Claim? || e.Crash?
    ensures var fx := Statement(k, row, procs, now, e);
            Bystander(fx.worker) && fx.worker.copy == k.copy && fx.row == row && fx.procs == procs
  {}

  lemma ReplaceBystander(s: Sys, w: Id, k: Worker)
    requires Inv(s) && w in s.workers && s.winner != Some(w)
    requires Bystander(k) && k.copy == s.workers[w].copy
    ensures Inv(s.(workers := s.workers[w := k]))
  {}

  /** A step by a worker that has not won the claim and does not win it now. */
  lemma BystanderStepInv(s: Sys, e: Event)
    requires Inv(s) && Enabled(s, e) && ByWorker(e)
    requires e.Deliver? || (s.winner != Some(e.w) && !(e.Claim? && s.row.status == Pending))
    ensures e.Deliver? || e.Claim? || e.Crash?
    ensures Inv(Step(s, e)) && Step(s, e).row == s.row && Step(s, e).procs == s.procs
    ensures Step(s, e).winner == s.winner
  {
    if e.Deliver? {
      DeliverInv(s, e.w);
    } else {
      BystanderStatement(s.workers[e.w], s.row, s.procs, s.now, e);
      var fx := Statement(s.workers[e.w], s.row, s.procs, s.now, e);
      ReplaceBystander(s, e.w, fx.worker);
      assert Step(s, e) == s.(workers := s.workers[e.w := fx.worker]);
    }
  }

  /** Winning the claim puts the row, the winner and the empty process table in agreement. */
  lemma WinningClaim(k: Worker, row: Row, now: Time, e: Event)
    requires Bystander(k) && ByWorker(e) && e.Claim? && CanRun(k, [], e)
    requires row.status == Pending && row.pid.None?
    requires k.copy.createdAt == row.createdAt && k.copy.pid.None? && k.copy.startedAt.None?
    requires k.copy.exitCode.None? && Coherent(row)
    ensures var fx := Statement(k, row, [], now, e);
            Consistent(fx.worker, fx.row, fx.procs) && Coherent(fx.row) && fx.row.createdAt == row.createdAt
  {}

  /** A statement of the claimant, up to the launch of the process. */
  lemma EarlyStatement(k: Worker, row: Row, procs: seq<Process>, now: Time, e: Event)
    requires Consistent(k, row, procs) && Coherent(row) && ByWorker(e) && CanRun(k, procs, e) && BeforeSpawn(k.pc)
    ensures var fx := Statement(k, row, procs, now, e);
            Consistent(fx.worker, fx.row, fx.procs) && Coherent(fx.row) && fx.row.createdAt == row.createdAt
  {}

  lemma WaitingStatement(k: Worker, row: Row, procs: seq<Process>, now: Time, e: Event)
    requires Consistent(k, row, procs) && (e.Collect? || e.WaitReturns?) && CanRun(k, procs, e)
    ensures var fx := Statement(k, row, procs, now, e);
            Consistent(fx.worker, fx.row, fx.procs) && fx.row == row
  {
    assert |procs| == 1 && k.child == Some(procs[0].pid);
    var fx := Statement(k, row, procs, now, e);
    assert |fx.procs| == 1 && fx.procs[0].pid == procs[0].pid;
  }

  lemma InterruptedStatement(k: Worker, row: Row, procs: seq<Process>, now: Time, e: Event)
    requires Consistent(k, row, procs) && e.Interrupt? && CanRun(k, procs, e) && !BeforeSpawn(k.pc)
    ensures var fx := Statement(k, row, procs, now, e);
            Consistent(fx.worker, fx.row, fx.procs) && fx.row == row
  {
    assert |procs| == 1 && k.child == Some(procs[0].pid);
    var fx := Statement(k, row, procs, now, e);
    assert |fx.procs| == 1 && fx.procs[0].pid == procs[0].pid;
  }

  /** The statements that act on the process tree. */
  lemma ActingStatement(k: Worker, row: Row, procs: seq<Process>, now: Time, e: Event)
    requires Consistent(k, row, procs) && ByWorker(e) && CanRun(k, procs, e) && !BeforeSpawn(k.pc)
    requires e.Collect? || e.WaitReturns? || e.Interrupt?
    ensures var fx := Statement(k, row, procs, now, e);
            Consistent(fx.worker, fx.row, fx.procs) && fx.row == row
  {
    if e.Interrupt? {
      InterruptedStatement(k, row, procs, now, e);
    } else {
      WaitingStatement(k, row, procs, now, e);
    }
  }

  lemma FinalizedFits(k: Worker, row: Row, procs: seq<Process>, now: Time)
    requires Consistent(k, row, procs) && Coherent(row) && k.pc == Finalizing
    ensures Coherent(Finalized(row, k, now)) && Consistent(k.(pc := Done), Finalized(row, k, now), procs)
    ensures IsFinished(row.status) ==> Consistent(k.(pc := ClearingPid), row, procs)
  {}

  lemma ClearedFits(k: Worker, row: Row, procs: seq<Process>)
    requires Consistent(k, row, procs) && Coherent(row) && k.pc == ClearingPid
    ensures Coherent(row.(pid := None)) && Consistent(k.(pc := Done), row.(pid := None), procs)
  {}

  /** The statements of the `finally` block. */
  lemma FinalStatement(k: Worker, row: Row, procs: seq<Process>, now: Time, e: Event)
    requires Consistent(k, row, procs) && Coherent(row) && ByWorker(e) && CanRun(k, procs, e)
    requires e.Finalize? || e.ClearPid?
    ensures var fx := Statement(k, row, procs, now, e);
            Consistent(fx.worker, fx.row, fx.procs) && Coherent(fx.row) && fx.row.createdAt == row.createdAt
  {
    if e.Finalize? {
      FinalizedFits(k, row, procs, now);
    } else {
      ClearedFits(k, row, procs);
    }
  }

  /** A statement of the claimant once the process exists. */
  lemma LateStatement(k: Worker, row: Row, procs: seq<Process>, now: Time, e: Event)
    requires Consistent(k, row, procs) && Coherent(row) && ByWorker(e) && CanRun(k, procs, e) && !BeforeSpawn(k.pc)
    ensures var fx := Statement(k, row, procs, now, e);
            Consistent(fx.worker, fx.row, fx.procs) && Coherent(fx.row) && fx.row.createdAt == row.createdAt
  {
    if e.Collect? || e.WaitReturns? || e.Interrupt? {
      ActingStatement(k, row, procs, now, e);
    } else if e.Finalize? || e.ClearPid? {
      FinalStatement(k, row, procs, now, e);
    }
  }

  function Replaced(s: Sys, w: Id, fx: Effect): Sys {
    s.(workers := s.workers[w := fx.worker], row := fx.row, procs := fx.procs, winner := Some(w))
  }

  lemma ReplacedCopies(s: Sys, w: Id, fx: Effect)
    requires OneClaimant(s) && Copies(s) && w in s.workers && (s.winner.None? || s.winner == Some(w))
    requires Consistent(fx.worker, fx.row, fx.procs) && fx.row.createdAt == s.row.createdAt
    ensures OneClaimant(Replaced(s, w, fx)) && Copies(Replaced(s, w, fx))
  {}

  lemma ReplaceClaimant(s: Sys, w: Id, fx: Effect)
    requires Inv(s) && w in s.workers && (s.winner.None? || s.winner == Some(w))
    requires Consistent(fx.worker, fx.row, fx.procs) && Coherent(fx.row) && fx.row.createdAt == s.row.createdAt
    ensures Inv(Replaced(s, w, fx))
  {
    ReplacedCopies(s, w, fx);
  }

  lemma ClaimantStepInv(s: Sys, e: Event)
    requires Inv(s) && Enabled(s, e) && ByWorker(e) && !e.Deliver? && s.winner == Some(e.w)
    requires !e.Claim?
    ensures Inv(Step(s, e)) && Step(s, e).winner == s.winner
  {
    var k := s.workers[e.w];
    if BeforeSpawn(k.pc) {
      EarlyStatement(k, s.row, s.procs, s.now, e);
    } else {
      LateStatement(k, s.row, s.procs, s.now, e);
    }
    ReplaceClaimant(s, e.w, Statement(k, s.row, s.procs, s.now, e));
  }

  lemma WinningClaimInv(s: Sys, e: Event)
    requires Inv(s) && Enabled(s, e) && e.Claim? && s.row.status == Pending
    ensures Inv(Step(s, e)) && s.winner.None?
  {
    WinningClaim(s.workers[e.w], s.row, s.now, e);
    ReplaceClaimant(s, e.w, Statement(s.workers[e.w], s.row, s.procs, s.now, e));
  }

  /** The environment keeps the claimant, the row and the process table in agreement. */
  lemma EnvironmentConsistent(s: Sys, e: Event)
    requires Inv(s) && Enabled(s, e) && !ByWorker(e) && s.winner.Some?
    ensures Consistent(s.workers[s.winner.value], Step(s, e).row, Step(s, e).procs)
  {
    var k := s.workers[s.winner.value];
    EnvironmentProcesses(k, s, e);
    EnvironmentColumns(s, e);
    ColumnsFit(k, s.row, Step(s, e).row, s.procs);
  }

  /** What the environment can do to the row of a claimed run. */
  predicate Overwritten(row: Row, row': Row) {
    && row'.createdAt == row.createdAt
    && (row'.startedAt == row.startedAt || row'.startedAt.None?)
    && (row' == row || IsFinished(row'.status))
    && (row'.pid == row.pid || row'.pid.None?)
  }

  lemma EnvironmentColumns(s: Sys, e: Event)
    requires Inv(s) && Enabled(s, e) && !ByWorker(e) && s.winner.Some?
    ensures Overwritten(s.row, Step(s, e).row)
  {
    if ByRequest(e) {
      RequestColumns(s, e);
    } else {
      OthersShape(s, e);
      if e.StopWrite? {
        StopColumns(s.row, s.stoppers[e.k], s.now);
      } else if e.ReconcileFlip? {
        FlipColumns(s, e.r);
      }
    }
  }

  lemma StopColumns(row: Row, k: Stopper, now: Time)
    ensures var row' := StopWritten(row, k, now);
            && row'.status == Cancelled && row'.endedAt.Some?
            && row'.createdAt == row.createdAt && row'.startedAt == row.startedAt && row'.exitCode == row.exitCode
            && (row'.pid == row.pid || row'.pid.None?)
  {}

  lemma FlipColumns(s: Sys, r: Id)
    requires r in s.reconcilers
    ensures var s' := ReconcileFlipStep(s, r); var row' := s'.row;
            && s' == s.(row := row', reconcilers := s'.reconcilers)
            && row'.createdAt == s.row.createdAt && row'.startedAt == s.row.startedAt
            && (row'.pid == s.row.pid || row'.pid.None?)
            && (row' == s.row || (s.row.status == s.reconcilers[r].copy.status && row'.status == Failed &&
                                  row'.endedAt.Some? && row'.exitCode == Some(-1)))
  {}

  /** The events that are neither a worker's nor the request's, and what each can change. */
  lemma OthersShape(s: Sys, e: Event)
    requires Enabled(s, e) && !ByWorker(e) && !ByRequest(e)
    ensures var s' := Step(s, e);
            && s' == s.(now := s'.now, row := s'.row, timeout := s'.timeout, procs := s'.procs,
                        stoppers := s'.stoppers, reconcilers := s'.reconcilers)
            && (e.Tick? || s'.now == s.now)
            && s'.row == (if e.StopWrite? then StopWritten(s.row, s.stoppers[e.k], s.now)
                          else if e.ReconcileFlip? then ReconcileFlipStep(s, e.r).row
                          else s.row)
            && (s'.procs == s.procs || e.ProcessActs? || e.StopKill?)
  {}

  /** What the request that queues the run does: its save, or nothing to the row. */
  lemma RequestColumns(s: Sys, e: Event)
    requires Enabled(s, e) && ByRequest(e)
    ensures var s' := Step(s, e);
            && s' == s.(row := s'.row, requesting := s'.requesting, queued := s'.queued)
            && s'.row == (if e.QueueFails? then UnqueuedRow(s.row.createdAt, e.why) else s.row)
            && (e.QueueFails? ==> UnqueuedColumns(s'.row))
            && s'.row.createdAt == s.row.createdAt && (s'.requesting ==> s.requesting)
            && (s'.queued ==> s.queued || s.requesting) && (s.queued ==> s'.queued)
  {}

  predicate UnqueuedColumns(row: Row) {
    && row.status == Failed && row.startedAt.None? && row.endedAt.None? && row.pid.None? && row.exitCode.None?
  }

  lemma ColumnsFit(k: Worker, row: Row, row': Row, procs: seq<Process>)
    requires Consistent(k, row, procs) && Overwritten(row, row')
    ensures Consistent(k, row', procs)
  {}

  lemma EnvironmentProcesses(k: Worker, s: Sys, e: Event)
    requires Enabled(s, e) && !ByWorker(e) && Processes(k, s.procs)
    requires s.winner.Some? && s.winner.value in s.workers && s.workers[s.winner.value] == k
    ensures Processes(k, Step(s, e).procs)
  {
    if e.ProcessActs? {
      ActKeeps(k, s.procs, e.pid, e.act);
    } else if e.StopKill? && s.stoppers[e.k].copy.pid.Some? {
      ActKeeps(k, s.procs, s.stoppers[e.k].copy.pid.value, Kill);
    } else {
      assert Step(s, e).procs == s.procs;
    }
  }

  lemma EnvironmentRow(s: Sys, e: Event)
    requires Inv(s) && Enabled(s, e) && !ByWorker(e)
    ensures var s' := Step(s, e);
            && Coherent(s'.row) && s'.row.createdAt == s.row.createdAt
            && (s'.row.status == Pending ==> s.row.status == Pending)
            && (s.winner.None? ==> Unclaimed(s'))
            && s'.workers == s.workers && s'.winner == s.winner && (s.queued ==> s'.queued)
  {
    if ByRequest(e) {
      RequestColumns(s, e);
    } else {
      OthersRow(s, e);
    }
  }

  lemma OthersRow(s: Sys, e: Event)
    requires Inv(s) && Enabled(s, e) && !ByWorker(e) && !ByRequest(e)
    ensures var s' := Step(s, e);
            && Coherent(s'.row) && s'.row.createdAt == s.row.createdAt
            && (s'.row.status == Pending ==> s.row.status == Pending)
            && (s.winner.None? ==> Unclaimed(s'))
            && s'.workers == s.workers && s'.winner == s.winner && s'.queued == s.queued
  {
    OthersShape(s, e);
    if e.StopWrite? {
      StopColumns(s.row, s.stoppers[e.k], s.now);
    } else if e.ReconcileFlip? {
      FlipColumns(s, e.r);
    }
  }

  lemma EnvironmentReconcilers(s: Sys, e: Event)
    requires Inv(s) && Enabled(s, e) && !ByWorker(e)
    ensures forall r :: r in Step(s, e).reconcilers ==>
              var copy := Step(s, e).reconcilers[r].copy;
              !IsFinished(copy.status) && (copy.status == Running ==> s.winner.Some?)
  {}

  lemma EnvironmentStepInv(s: Sys, e: Event)
    requires Inv(s) && Enabled(s, e) && !ByWorker(e)
    ensures Inv(Step(s, e))
  {
    EnvironmentRow(s, e);
    EnvironmentReconcilers(s, e);
    if s.winner.Some? {
      EnvironmentConsistent(s, e);
    }
  }

  lemma StepInv(s: Sys, e: Event)
    requires Inv(s) && Enabled(s, e)
    ensures Inv(Step(s, e))
  {
    if !ByWorker(e) {
      EnvironmentStepInv(s, e);
    } else if e.Claim? && s.row.status == Pending {
      WinningClaimInv(s, e);
    } else if e.Deliver? || s.winner != Some(e.w) {
      BystanderStepInv(s, e);
    } else {
      ClaimantStepInv(s, e);
    }
  }

  // ----- What one event can change -----

  predicate BeforeSave(pc: Pc) {
    pc in {Claimed, Validating, SavingInvalid}
  }

  lemma StatementFacts(k: Worker, row: Row, procs: seq<Process>, now: Time, e: Event)
    requires Consistent(k, row, procs) && ByWorker(e) && CanRun(k, procs, e)
    ensures var fx := Statement(k, row, procs, now, e);
            && Rank(row.status) <= Rank(fx.row.status)
            && fx.row.createdAt == row.createdAt && fx.worker.claimedAt == k.claimedAt
            && (row.status == Cancelled && fx.row.status != Cancelled ==> e.SaveInvalid? && fx.row.status == Failed)
            && (BeforeSave(fx.worker.pc) ==> BeforeSave(k.pc))
            && !Stopped(k.pc)
  {}

  lemma EnvironmentFacts(s: Sys, e: Event)
    requires Inv(s) && Enabled(s, e) && !ByWorker(e)
    ensures var s' := Step(s, e);
            && s'.workers == s.workers && s'.winner == s.winner && s'.taskTimeout == s.taskTimeout
            && Rank(s.row.status) <= Rank(s'.row.status)
            && s'.row.createdAt == s.row.createdAt
            && (s.row.status == Cancelled ==> s'.row.status == Cancelled || (e.QueueFails? && s'.row.status == Failed))
            && (s'.requesting ==> s.requesting) && (s'.queued ==> s.queued || s.requesting)
            && (e.Tick? || s'.now == s.now)
  {
    if ByRequest(e) {
      RequestColumns(s, e);
    } else {
      OthersFacts(s, e);
    }
  }

  lemma OthersFacts(s: Sys, e: Event)
    requires Inv(s) && Enabled(s, e) && !ByWorker(e) && !ByRequest(e)
    ensures var s' := Step(s, e);
            && s'.workers == s.workers && s'.winner == s.winner && s'.taskTimeout == s.taskTimeout
            && Rank(s.row.status) <= Rank(s'.row.status)
            && s'.row.createdAt == s.row.createdAt
            && (s.row.status == Cancelled ==> s'.row.status == Cancelled)
            && s'.requesting == s.requesting && s'.queued == s.queued
            && (e.Tick? || s'.now == s.now)
  {
    OthersShape(s, e);
    if e.StopWrite? {
      StopColumns(s.row, s.stoppers[e.k], s.now);
    } else if e.ReconcileFlip? {
      FlipColumns(s, e.r);
    }
  }

  /** The claimant's statement, seen from the system. */
  lemma ClaimantStepFacts(s: Sys, e: Event)
    requires Inv(s) && Enabled(s, e) && ByWorker(e) && !e.Deliver? && s.winner == Some(e.w)
    ensures var fx := Statement(s.workers[e.w], s.row, s.procs, s.now, e);
            Step(s, e) == s.(workers := s.workers[e.w := fx.worker], row := fx.row, procs := fx.procs)
  {
    StatementFacts(s.workers[e.w], s.row, s.procs, s.now, e);
  }

  lemma BystanderStepFacts(s: Sys, e: Event)
    requires Inv(s) && Enabled(s, e) && ByWorker(e) && (e.Deliver? || s.winner != Some(e.w))
    requires !(e.Claim? && s.row.status == Pending)
    ensures var s' := Step(s, e);
            && s'.row == s.row && s'.procs == s.procs && s'.winner == s.winner && s'.taskTimeout == s.taskTimeout
            && s'.now == s.now && s'.stoppers == s.stoppers && s'.reconcilers == s.reconcilers
            && (s.winner.Some? ==> s'.workers[s.winner.value] == s.workers[s.winner.value])
  {
    BystanderStepInv(s, e);
  }

  lemma {:induction false} ExecInv(s: Sys, es: seq<Event>)
    requires Inv(s) && Legal(s, es)
    ensures Inv(Exec(s, es))
    decreases es
  {
    if es != [] {
      StepInv(s, es[0]);
      ExecInv(Step(s, es[0]), es[1..]);
    }
  }
}
