/**
 The life of one run as a transition system.

 Workers, force-stops, queue cancels and reconciler passes share one database row. Every event
 below is one database statement, one process-table action or one clock tick, so a sequence of
 events is one interleaving. Each party keeps the copy of the row it last read and writes from
 that copy. A worker that dies without running its `finally` block crashes.
 */
module Lifecycle {
  import opened Wrappers
  import opened RunModel

  type Id = nat

  /** The script's own process, which leads the process group of everything it starts. It is reaped
      once its parent has collected its exit code; its pid then names nothing any more. */
  datatype Leader = Live | Zombie | Reaped

  /** A spawned process tree, named by the pid of its leader. `group` says that some other process of
      the leader's group is alive. */
  datatype Process = Process(pid: Pid, leader: Leader, group: bool)

  /** What can happen to a process tree. */
  datatype Act = Fork | LeaderExit | GroupExit | Reap | Kill

  /** Where a worker stands in `execute_run`. */
  datatype Pc =
    | Loaded         // the task has fetched the run
    | Claimed        // the conditional UPDATE won; the copy is not refreshed yet
    | Validating     // inside the try block
    | SavingInvalid  // about to run the unconditional save of a validation failure
    | Staging        // temporary script file and libraries
    | Launching      // secrets, environment, sandbox decision
    | Spawned        // the process exists; the backend has not returned its handle
    | Bound          // the handle is known; the pid is not saved yet
    | Waiting        // blocked in communicate()
    | Collected      // communicate() has reaped the leader; wait() has not returned yet
    | Reporting      // wait() returned
    | Finalizing     // at the conditional UPDATE that excludes CANCELLED
    | ClearingPid    // that UPDATE matched nothing
    | Done
    | Lost           // duplicate delivery: the claim matched nothing
    | Crashed

  /** What can escape a statement of the try block. A subprocess error comes from the launch itself: the
      backend's `wait` catches its own timeout, and no later statement starts a process. */
  datatype Fault = TaskDeadline | SubprocessFault | UnexpectedFault

  datatype Outcome = Exited(code: int, stdout: string, stderr: string) | TimedOut(stdout: string, stderr: string)

  datatype Worker = Worker(
    pc: Pc,
    copy: Row,
    child: Option<Pid>,   // the process the backend started
    handle: Option<Pid>,  // the executor's own reference to it
    outcome: Option<Outcome>,
    claimedAt: Option<Time>,  // history: when this worker won the claim
    unbound: bool)   // history: a fault struck between the launch and the handle

  datatype StopKind = ForceStop | CancelTask

  /** A stop request that read a PENDING or RUNNING row and has not written yet. */
  datatype Stopper = Stopper(kind: StopKind, copy: Row, mustKill: bool)

  /** A reconciler pass that selected the row and has not run its conditional UPDATE yet. */
  datatype Reconciler = Reconciler(now: Time, copy: Row)

  datatype Sys = Sys(
    now: Time,
    row: Row,
    timeout: nat,      // the script's timeout_seconds as stored now
    taskTimeout: nat,  // its value when the task was queued
    requesting: bool,  // the request that created the run is still queueing it
    queued: bool,      // its queue entry is committed
    procs: seq<Process>,
    workers: map<Id, Worker>,
    stoppers: map<Id, Stopper>,
    reconcilers: map<Id, Reconciler>,
    winner: Option<Id>)  // history: the last worker to win a claim

  /** The row has been created, and its request goes on to queue it. */
  function Init(now: Time, timeout: nat): Sys {
    Sys(now, NewRow(now), timeout, timeout, true, false, [], map[], map[], map[], None)
  }

  datatype Event =
    | Tick(delta: Time)
    | EditTimeout(seconds: nat)
    | ProcessActs(pid: Pid, act: Act)
    // The request that queues the run
    | Submit                   // the queue entry is committed
    | QueueFails(why: string)  // something raised, and the view saves FAILED from its own copy
    | RequestEnds              // it returned, died, or let the exception through
    // Workers
    | Deliver(w: Id)
    | Claim(w: Id)
    | Refresh(w: Id)
    | ValidationFails(w: Id, why: string)
    | ValidationPasses(w: Id)
    | SaveInvalid(w: Id)
    | StagingFails(w: Id, why: string)
    | StagingPasses(w: Id)
    | LaunchRefused(w: Id, why: string)
    | Spawn(w: Id, pid: Pid)
    | Bind(w: Id)
    | SavePid(w: Id)
    | Collect(w: Id)
    | WaitReturns(w: Id, outcome: Outcome)
    | Report(w: Id)
    | Interrupt(w: Id, fault: Fault, why: string, stdout: string)
    | Finalize(w: Id)
    | ClearPid(w: Id)
    | Crash(w: Id)
    // Stop requests
    | StopRead(k: Id, kind: StopKind)
    | StopKill(k: Id)
    | StopWrite(k: Id)
    // Reconciler passes
    | ReconcileRead(r: Id, captured: Time, workersAlive: bool)
    | ReconcileFlip(r: Id)

  // ----- Reading the state -----

  /** Has this worker left `execute_run` for good? */
  predicate Stopped(pc: Pc) {
    pc in {Done, Lost, Crashed}
  }

  predicate LiveClaimant(s: Sys) {
    && s.winner.Some?
    && s.winner.value in s.workers
    && !Stopped(s.workers[s.winner.value].pc)
  }

  predicate InTry(pc: Pc) {
    pc in {Validating, SavingInvalid, Staging, Launching, Spawned, Bound, Waiting, Collected, Reporting}
  }

  /** The claimant has nothing more to do with its process. */
  predicate AfterWait(pc: Pc) {
    pc in {Finalizing, ClearingPid, Done}
  }

  // ----- Process trees -----

  predicate Alive(p: Process) {
    p.leader.Live? || p.group
  }

  predicate SomeAlive(procs: seq<Process>) {
    exists i :: 0 <= i < |procs| && Alive(procs[i])
  }

  predicate LeaderLive(procs: seq<Process>) {
    exists i :: 0 <= i < |procs| && procs[i].leader.Live?
  }

  /** Some leader was reaped while others of its group live on: no kill by pid finds them. */
  predicate OutOfReach(procs: seq<Process>) {
    exists i :: 0 <= i < |procs| && procs[i].leader.Reaped? && procs[i].group
  }

  predicate Possible(p: Process, a: Act) {
    match a
    case Fork => Alive(p)
    case LeaderExit => p.leader.Live?
    case GroupExit => p.group
    case Reap => p.leader.Zombie?
    case Kill => true
  }

  predicate PossibleAt(procs: seq<Process>, pid: Pid, a: Act) {
    exists i :: 0 <= i < |procs| && procs[i].pid == pid && Possible(procs[i], a)
  }

  /** `kill_process_tree` looks the group up by the leader's pid, which fails once the leader is
      reaped. */
  function Acted(p: Process, a: Act): Process {
    match a
    case Fork => p.(group := true)
    case LeaderExit => p.(leader := Zombie)
    case GroupExit => p.(group := false)
    case Reap => p.(leader := Reaped)
    case Kill => if p.leader.Reaped? then p else Process(p.pid, Zombie, false)
  }

  function Changed(procs: seq<Process>, pid: Pid, a: Act): seq<Process> {
    seq(|procs|, i requires 0 <= i < |procs| => if procs[i].pid == pid then Acted(procs[i], a) else procs[i])
  }

  // ----- The statements of a worker -----

  function NewWorker(row: Row): Worker {
    Worker(Loaded, row, None, None, None, None, false)
  }

  function Invalid(k: Worker, why: string, now: Time): Worker {
    k.(pc := SavingInvalid, copy := k.copy.(status := Failed, stderr := why, endedAt := Some(now)))
  }

  function Refused(k: Worker, why: string): Worker {
    k.(pc := Finalizing, copy := k.copy.(status := Failed, exitCode := Some(-1), stderr := why))
  }

  const DEADLINE_NOTE := "[TIMEOUT: the worker's task deadline fired before the script finished]"

  const WAIT_TIMEOUT_NOTE := "\n\n" + "[TIMEOUT: Script exceeded maximum execution time]"

  const BARE_TIMEOUT_NOTE := "[TIMEOUT: Script exceeded its timeout]"

  function Reported(k: Worker, o: Outcome): Worker {
    var copy :=
      match o
      case Exited(code, out, err) =>
        k.copy.(stdout := out, stderr := err, exitCode := Some(code),
                status := if code == 0 then Success else Failed)
      case TimedOut(out, err) =>
        k.copy.(status := Timeout, stdout := out, exitCode := Some(-1),
                stderr := if err != "" then err + WAIT_TIMEOUT_NOTE else BARE_TIMEOUT_NOTE);
    k.(pc := Finalizing, copy := copy)
  }

  /** `_kill_abandoned_process` needs the handle, and runs unless `wait()` has returned. */
  predicate HandlerKills(k: Worker) {
    k.handle.Some? && k.outcome.None?
  }

  function Interrupted(k: Worker, fault: Fault, why: string, stdout: string): Worker {
    var copy := k.copy.(
      status := if fault == TaskDeadline then Timeout else Failed,
      exitCode := Some(-1),
      stderr := if fault == TaskDeadline then DEADLINE_NOTE else why,
      stdout := if k.pc == Reporting then stdout else k.copy.stdout);
    k.(pc := Finalizing, copy := copy, unbound := k.pc == Spawned)
  }

  function Finalized(row: Row, k: Worker, now: Time): Row {
    row.(status := k.copy.status, stdout := k.copy.stdout, stderr := k.copy.stderr,
    exitCode := k.copy.exitCode,
    endedAt := if k.copy.endedAt.Some? then k.copy.endedAt else Some(now),
    pid := None)
  }

  // ----- The statements of a stop request -----

  const KILLED_BY_USER := "\n[Killed by user]"

  const CANCELLED_BY_USER := "\n[Task cancelled by user]"

  /** The columns a stop request writes, from the copy it read. No condition guards the write. */
  function StopWritten(row: Row, k: Stopper, now: Time): Row {
    match k.kind
    case CancelTask =>
      row.(status := Cancelled, endedAt := Some(now), stderr := k.copy.stderr + CANCELLED_BY_USER)
    case ForceStop =>
      if k.copy.status == Running then
        row.(status := Cancelled, endedAt := Some(now), stderr := k.copy.stderr + KILLED_BY_USER, pid := None)
      else
        row.(status := Cancelled, endedAt := Some(now))
  }

  // ----- The save of a request that could not queue its run -----

  /** Every column, from the copy the request made when it created the row; no condition guards it. */
  function UnqueuedRow(createdAt: Time, why: string): Row {
    NewRow(createdAt).(status := Failed, stderr := why)
  }

  // ----- Transitions -----

  predicate ByRequest(e: Event) {
    e.Submit? || e.QueueFails? || e.RequestEnds?
  }

  /** Events that carry a worker's id. */
  predicate ByWorker(e: Event) {
    !(e.Tick? || e.EditTimeout? || e.ProcessActs? || ByRequest(e) || e.StopRead? || e.StopKill? || e.StopWrite?
      || e.ReconcileRead? || e.ReconcileFlip?)
  }

  /** Is this the statement the worker stands at? */
  predicate CanRun(k: Worker, procs: seq<Process>, e: Event)
    requires ByWorker(e)
  {
    match e
    case Deliver(_) => false
    case Claim(_) => k.pc == Loaded
    case Refresh(_) => k.pc == Claimed
    case ValidationFails(_, _) => k.pc == Validating
    case ValidationPasses(_) => k.pc == Validating
    case SaveInvalid(_) => k.pc == SavingInvalid
    case StagingFails(_, _) => k.pc == Staging
    case StagingPasses(_) => k.pc == Staging
    case LaunchRefused(_, _) => k.pc == Launching
    case Spawn(_, _) => k.pc == Launching
    case Bind(_) => k.pc == Spawned
    case SavePid(_) => k.pc == Bound
    case Collect(_) => k.pc == Waiting && k.handle.Some? && PossibleAt(procs, k.handle.value, Reap)
    case WaitReturns(_, o) => k.handle.Some? && k.pc == if o.Exited? then Collected else Waiting
    case Report(_) => k.pc == Reporting && k.outcome.Some?
    case Interrupt(_, fault, _, _) => InTry(k.pc) && (fault == SubprocessFault ==> k.pc == Launching)
    case Finalize(_) => k.pc == Finalizing
    case ClearPid(_) => k.pc == ClearingPid
    case Crash(_) => !Stopped(k.pc)
  }

  /** What one statement changes: the worker's own state, the row and the process table. */
  datatype Effect = Effect(worker: Worker, row: Row, procs: seq<Process>)

  function Statement(k: Worker, row: Row, procs: seq<Process>, now: Time, e: Event): Effect
    requires ByWorker(e) && CanRun(k, procs, e)
  {
    match e
    case Claim(_) =>
      if row.status == Pending then
        Effect(k.(pc := Claimed, claimedAt := Some(now)), row.(status := Running, startedAt := Some(now)), procs)
      else
        Effect(k.(pc := Lost), row, procs)
    case Refresh(_) =>
      var copy := k.copy.(status := row.status, startedAt := row.startedAt);
      Effect(k.(pc := Validating, copy := copy), row, procs)
    case ValidationFails(_, why) => Effect(Invalid(k, why, now), row, procs)
    case ValidationPasses(_) => Effect(k.(pc := Staging), row, procs)
    case SaveInvalid(_) => Effect(k.(pc := Finalizing), k.copy, procs)
    case StagingFails(_, why) => Effect(Refused(k, why), row, procs)
    case StagingPasses(_) => Effect(k.(pc := Launching), row, procs)
    case LaunchRefused(_, why) => Effect(Refused(k, why), row, procs)
    case Spawn(_, pid) => Effect(k.(pc := Spawned, child := Some(pid)), row, procs + [Process(pid, Live, false)])
    case Bind(_) => Effect(k.(pc := Bound, handle := k.child), row, procs)
    case SavePid(_) =>
      Effect(k.(pc := Waiting, copy := k.copy.(pid := k.handle)), row.(pid := k.handle), procs)
    case Collect(_) => Effect(k.(pc := Collected), row, Changed(procs, k.handle.value, Reap))
    case WaitReturns(_, o) =>
      Effect(k.(pc := Reporting, outcome := Some(o)), row,
             if o.TimedOut? then Changed(Changed(procs, k.handle.value, Kill), k.handle.value, Reap) else procs)
    case Report(_) => Effect(Reported(k, k.outcome.value), row, procs)
    case Interrupt(_, fault, why, out) =>
      Effect(Interrupted(k, fault, why, out), row,
             if HandlerKills(k) then Changed(procs, k.handle.value, Kill) else procs)
    case Finalize(_) =>
      if row.status == Cancelled then
        Effect(k.(pc := ClearingPid), row, procs)
      else
        Effect(k.(pc := Done), Finalized(row, k, now), procs)
    case ClearPid(_) => Effect(k.(pc := Done), row.(pid := None), procs)
    case Crash(_) => Effect(k.(pc := Crashed), row, procs)
  }

  /** Until the claimant has left its wait or crashed, nobody else reaps its child. */
  predicate LeftToOthers(s: Sys) {
    && s.winner.Some? && s.winner.value in s.workers
    && (AfterWait(s.workers[s.winner.value].pc) || s.workers[s.winner.value].pc == Crashed)
  }

  predicate Enabled(s: Sys, e: Event) {
    if ByWorker(e) then
      if e.Deliver? then s.queued && e.w !in s.workers else e.w in s.workers && CanRun(s.workers[e.w], s.procs, e)
    else
    match e
    case Tick(d) => d > 0
    case EditTimeout(_) => true
    case ProcessActs(pid, act) =>
      !act.Kill? && PossibleAt(s.procs, pid, act) && (act.Reap? ==> LeftToOthers(s))
    case Submit => s.requesting && !s.queued
    case QueueFails(_) => s.requesting
    case RequestEnds => s.requesting
    case StopRead(k, _) => k !in s.stoppers
    case StopKill(k) => k in s.stoppers && s.stoppers[k].mustKill
    case StopWrite(k) => k in s.stoppers && !s.stoppers[k].mustKill
    case ReconcileRead(r, captured, _) => r !in s.reconcilers && captured <= s.now
    case ReconcileFlip(r) => r in s.reconcilers
  }

  function WorkerStep(s: Sys, e: Event): Sys
    requires Enabled(s, e) && ByWorker(e)
  {
    if e.Deliver? then
      s.(workers := s.workers[e.w := NewWorker(s.row)])
    else
      var fx := Statement(s.workers[e.w], s.row, s.procs, s.now, e);
      s.(workers := s.workers[e.w := fx.worker], row := fx.row, procs := fx.procs,
      winner := if e.Claim? && s.row.status == Pending then Some(e.w) else s.winner)
  }

  function StopReadStep(s: Sys, k: Id, kind: StopKind): Sys {
    if s.row.status == Pending || s.row.status == Running then
      var mustKill := kind == ForceStop && s.row.status == Running && s.row.pid.Some?;
      s.(stoppers := s.stoppers[k := Stopper(kind, s.row, mustKill)])
    else
      s
  }

  function ReconcileReadStep(s: Sys, r: Id, captured: Time, workersAlive: bool): Sys {
    if RunningStale(s.row, s.timeout, captured) || (workersAlive && PendingLost(s.row, captured)) then
      s.(reconcilers := s.reconcilers[r := Reconciler(captured, s.row)])
    else
      s
  }

  function ReconcileFlipStep(s: Sys, r: Id): Sys
    requires r in s.reconcilers
  {
    var rec := s.reconcilers[r];
    s.(reconcilers := s.reconcilers - {r},
    row := if s.row.status != rec.copy.status then s.row
    else if rec.copy.status == Running then FailRunning(s.row, rec.copy.stderr, rec.now)
    else FailPending(s.row, rec.now))
  }

  function Step(s: Sys, e: Event): Sys
    requires Enabled(s, e)
  {
    if ByWorker(e) then WorkerStep(s, e) else
    match e
    case Tick(d) => s.(now := s.now + d)
    case EditTimeout(t) => s.(timeout := t)
    case ProcessActs(pid, act) => s.(procs := Changed(s.procs, pid, act))
    case Submit => s.(queued := true)
    case QueueFails(why) => s.(requesting := false, row := UnqueuedRow(s.row.createdAt, why))
    case RequestEnds => s.(requesting := false)
    case StopRead(k, kind) => StopReadStep(s, k, kind)
    case StopKill(k) =>
      var stop := s.stoppers[k];
      s.(stoppers := s.stoppers[k := stop.(mustKill := false)],
      procs := if stop.copy.pid.Some? then Changed(s.procs, stop.copy.pid.value, Kill) else s.procs)
    case StopWrite(k) =>
      s.(stoppers := s.stoppers - {k}, row := StopWritten(s.row, s.stoppers[k], s.now))
    case ReconcileRead(r, captured, alive) => ReconcileReadStep(s, r, captured, alive)
    case ReconcileFlip(r) => ReconcileFlipStep(s, r)
  }

  // ----- Runs of the system -----

  predicate Legal(s: Sys, es: seq<Event>)
    decreases es
  {
    es == [] || (Enabled(s, es[0]) && Legal(Step(s, es[0]), es[1..]))
  }

  function Exec(s: Sys, es: seq<Event>): Sys
    requires Legal(s, es)
    decreases es
  {
    if es == [] then s else Exec(Step(s, es[0]), es[1..])
  }
}
