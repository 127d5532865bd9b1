/**
 `execute_run` as a program, with the rest of the world acting between its statements.

 What the world does is given by functions of the whole state: what the other parties do next, which
 fault strikes, whether validation, staging and launch succeed, and how the process ends. Any world
 at all is allowed that plays by the rules of the transition system and leaves this worker's own
 statements to it. Every execution is then an interleaving of the transition system.
 */
module ExecuteRun {
  import opened Wrappers
  import opened RunModel
  import opened Lifecycle
  import opened LifecycleInvariant
  import opened LifecycleSafety

  datatype World = World(
    others: Sys -> seq<Event>,
    fault: Sys -> Option<Fault>,
    message: Sys -> string,  // what a handler makes of the exception
    partial: Sys -> string,  // the output stored so far, if the fault strikes while it is being reported
    invalid: Sys -> Option<string>,
    unstaged: Sys -> Option<string>,
    refused: Sys -> Option<string>,
    pid: Sys -> Pid,
    outcome: Sys -> Outcome)

  /** The verdict is about something that the world did or said. */
  ghost predicate Happened(world: World, v: Verdict) {
    match v
    case Struck(fault, message, partial) =>
      exists s :: world.fault(s) == Some(fault) && world.message(s) == message &&
        (partial.Some? ==> world.partial(s) == partial.value)
    case Invalid(why) => exists s :: world.invalid(s) == Some(why)
    case Refused(why) => exists s :: world.unstaged(s) == Some(why) || world.refused(s) == Some(why)
    case Ended(outcome) => exists s :: world.outcome(s) == outcome
  }

  predicate NotBy(e: Event, w: Id) {
    !(ByWorker(e) && e.w == w)
  }

  ghost predicate FairPlay(world: World, w: Id) {
    && (forall s :: Legal(s, world.others(s)) && forall e :: e in world.others(s) ==> NotBy(e, w))
    && (forall s :: world.fault(s) == Some(SubprocessFault) ==> w in s.workers && s.workers[w].pc == Launching)
  }

  lemma {:induction false} OthersKeepWorker(s: Sys, es: seq<Event>, w: Id)
    requires Legal(s, es) && w in s.workers && forall e :: e in es ==> NotBy(e, w)
    ensures w in Exec(s, es).workers && Exec(s, es).workers[w] == s.workers[w]
    decreases es
  {
    if es != [] {
      assert NotBy(es[0], w);
      OthersKeepWorker(Step(s, es[0]), es[1..], w);
    }
  }

  lemma {:induction false} ExecConcat(s: Sys, es: seq<Event>, fs: seq<Event>)
    requires Legal(s, es) && Legal(Exec(s, es), fs)
    ensures Legal(s, es + fs) && Exec(s, es + fs) == Exec(Exec(s, es), fs)
    decreases es
  {
    if es == [] {
      assert es + fs == fs;
    } else {
      assert (es + fs)[1..] == es[1..] + fs;
      ExecConcat(Step(s, es[0]), es[1..], fs);
    }
  }

  /** Where a statement takes its worker. */
  function PcAfter(e: Event, status: Status): Pc
    requires ByWorker(e)
  {
    match e
    case Deliver(_) => Loaded
    case Claim(_) => if status == Pending then Claimed else Lost
    case Refresh(_) => Validating
    case ValidationFails(_, _) => SavingInvalid
    case ValidationPasses(_) => Staging
    case StagingPasses(_) => Launching
    case Spawn(_, _) => Spawned
    case Bind(_) => Bound
    case SavePid(_) => Waiting
    case Collect(_) => Collected
    case WaitReturns(_, _) => Reporting
    case Finalize(_) => if status == Cancelled then ClearingPid else Done
    case ClearPid(_) => Done
    case Crash(_) => Crashed
    case _ => Finalizing
  }

  lemma StatementPc(k: Worker, row: Row, procs: seq<Process>, now: Time, e: Event)
    requires ByWorker(e) && CanRun(k, procs, e)
    ensures Statement(k, row, procs, now, e).worker.pc == PcAfter(e, row.status)
  {}

  /** The verdict that a statement reaches, if it reaches one. */
  function VerdictOf(k: Worker, e: Event): Option<Verdict>
    requires ByWorker(e)
  {
    match e
    case Interrupt(_, fault, why, out) => Some(Struck(fault, why, if k.pc == Reporting then Some(out) else None))
    case ValidationFails(_, why) => Some(Invalid(why))
    case StagingFails(_, why) => Some(Refused(why))
    case LaunchRefused(_, why) => Some(Refused(why))
    case Report(_) => if k.outcome.Some? then Some(Ended(k.outcome.value)) else None
    case _ => None
  }

  /** What a statement makes of the claimant's copy: its verdict, or the output as it was. */
  predicate Noted(before: Row, after: Row, v: Option<Verdict>) {
    match v
    case Some(verdict) => Tells(after, before.stdout, verdict)
    case None => SameResult(before, after)
  }

  predicate SameResult(a: Row, b: Row) {
    b.stdout == a.stdout && b.stderr == a.stderr && b.exitCode == a.exitCode
  }

  lemma StatementNotes(k: Worker, row: Row, procs: seq<Process>, now: Time, e: Event)
    requires ByWorker(e) && CanRun(k, procs, e) && (e.Claim? || Consistent(k, row, procs))
    ensures Noted(k.copy, Statement(k, row, procs, now, e).worker.copy, VerdictOf(k, e))
    ensures e.SaveInvalid? ==> Statement(k, row, procs, now, e).worker.copy == k.copy
  {}

  /** The database and the process table, with the interleaving that led to them. */
  class Host {
    const origin: Sys
    var sys: Sys
    ghost var trace: seq<Event>

    ghost predicate Valid()
      reads this
    {
      Inv(origin) && Legal(origin, trace) && Exec(origin, trace) == sys && Inv(sys)
    }

    ghost predicate Stands(w: Id, pc: Pc)
      reads this
    {
      Valid() && w in sys.workers && sys.workers[w].pc == pc
    }

    constructor (s: Sys)
      requires Inv(s)
      ensures Valid() && sys == s && trace == []
    {
      origin, sys, trace := s, s, [];
    }

    method Do(e: Event)
      requires Valid() && Enabled(sys, e)
      modifies this
      ensures Valid() && sys == Step(old(sys), e)
      ensures trace == old(trace) + [e] && old(trace) <= trace
    {
      ExecConcat(origin, trace, [e]);
      assert Legal(sys, [e]) && Exec(sys, [e]) == Step(sys, e) by {
        assert [e][1..] == [];
      }
      StepInv(sys, e);
      sys := Step(sys, e);
      trace := trace + [e];
    }

    /** One of the worker's own statements. */
    method Own(w: Id, e: Event)
      requires Valid() && w in sys.workers
      requires ByWorker(e) && !e.Deliver? && e.w == w && CanRun(sys.workers[w], sys.procs, e)
      requires !e.Crash?
      modifies this
      ensures Stands(w, PcAfter(e, old(sys.row.status)))
      ensures Noted(old(sys.workers[w].copy), sys.workers[w].copy, VerdictOf(old(sys.workers[w]), e))
      ensures e.SaveInvalid? ==> sys.workers[w].copy == old(sys.workers[w].copy)
      ensures trace == old(trace) + [e] && old(trace) <= trace
    {
      StatementPc(sys.workers[w], sys.row, sys.procs, sys.now, e);
      OwnIsConsistent(sys, w, e);
      StatementNotes(sys.workers[w], sys.row, sys.procs, sys.now, e);
      Do(e);
    }

    /** The other parties act. */
    method Interfere(w: Id, world: World)
      requires Valid() && FairPlay(world, w) && w in sys.workers
      modifies this
      ensures old(trace) <= trace
      ensures Valid() && w in sys.workers && sys.workers[w] == old(sys.workers[w])
    {
      var es := world.others(sys);
      OthersKeepWorker(sys, es, w);
      ExecConcat(origin, trace, es);
      ExecInv(sys, es);
      sys := Exec(sys, es);
      trace := trace + es;
    }

    /** Between two statements of the try block: the others act, then a fault may strike. */
    method Interrupted(w: Id, world: World) returns (struck: bool, ghost verdict: Verdict)
      requires Valid() && FairPlay(world, w) && w in sys.workers && InTry(sys.workers[w].pc)
      modifies this
      ensures old(trace) <= trace
      ensures Valid() && w in sys.workers
      ensures struck ==> sys.workers[w].pc == Finalizing
      ensures struck ==>
                Tells(sys.workers[w].copy, old(sys.workers[w].copy.stdout), verdict) && Happened(world, verdict)
      ensures !struck ==> sys.workers[w] == old(sys.workers[w])
    {
      Interfere(w, world);
      var fault := world.fault(sys);
      struck, verdict := fault.Some?, Refused("");
      if struck {
        ghost var s := sys;
        verdict := Strike(w, fault.value, world.message(sys), world.partial(sys));
        assert world.fault(s) == fault;
      }
    }

    method Strike(w: Id, fault: Fault, message: string, partial: string) returns (ghost verdict: Verdict)
      requires Valid() && w in sys.workers && CanRun(sys.workers[w], sys.procs, Interrupt(w, fault, message, partial))
      modifies this
      ensures old(trace) <= trace
      ensures Stands(w, Finalizing)
      ensures Tells(sys.workers[w].copy, old(sys.workers[w].copy.stdout), verdict)
      ensures verdict == Struck(fault, message, if old(sys.workers[w].pc) == Reporting then Some(partial) else None)
    {
      var e := Interrupt(w, fault, message, partial);
      verdict := VerdictOf(sys.workers[w], e).value;
      Own(w, e);
    }

    /** The outer try block, handlers included. */
    method TryBlock(w: Id, world: World) returns (ghost verdict: Verdict)
      requires Stands(w, Validating) && FairPlay(world, w)
      modifies this
      ensures old(trace) <= trace
      ensures Stands(w, Finalizing)
      ensures Tells(sys.workers[w].copy, old(sys.workers[w].copy.stdout), verdict) && Happened(world, verdict)
    {
      var ok;
      ok, verdict := Validate(w, world);
      assert old(trace) <= trace;
      if ok {
        ok, verdict := Stage(w, world);
        assert old(trace) <= trace;
        if ok {
          verdict := Run(w, world);
        }
      }
    }

    method Validate(w: Id, world: World) returns (ok: bool, ghost verdict: Verdict)
      requires Stands(w, Validating) && FairPlay(world, w)
      modifies this
      ensures old(trace) <= trace
      ensures Stands(w, if ok then Staging else Finalizing)
      ensures if ok then sys.workers[w].copy.stdout == old(sys.workers[w].copy.stdout)
              else Tells(sys.workers[w].copy, old(sys.workers[w].copy.stdout), verdict) && Happened(world, verdict)
    {
      var struck;
      struck, verdict := Interrupted(w, world);
      assert old(trace) <= trace;
      if struck {
        return false, verdict;
      }
      var why := world.invalid(sys);
      if why.None? {
        Own(w, ValidationPasses(w));
        return true, verdict;
      }
      assert Happened(world, Invalid(why.value));
      verdict := SaveFailure(w, world, why.value);
      return false, verdict;
    }

    /** The environment is not valid: the full save, unless a fault comes first. */
    method SaveFailure(w: Id, world: World, why: string) returns (ghost verdict: Verdict)
      requires Stands(w, Validating) && FairPlay(world, w) && Happened(world, Invalid(why))
      modifies this
      ensures old(trace) <= trace
      ensures Stands(w, Finalizing)
      ensures Tells(sys.workers[w].copy, old(sys.workers[w].copy.stdout), verdict) && Happened(world, verdict)
    {
      Own(w, ValidationFails(w, why));
      var struck;
      struck, verdict := Interrupted(w, world);
      assert old(trace) <= trace;
      if !struck {
        verdict := Invalid(why);
        Own(w, SaveInvalid(w));
      }
    }

    method Stage(w: Id, world: World) returns (ok: bool, ghost verdict: Verdict)
      requires Stands(w, Staging) && FairPlay(world, w)
      modifies this
      ensures old(trace) <= trace
      ensures Stands(w, if ok then Launching else Finalizing)
      ensures if ok then sys.workers[w].copy.stdout == old(sys.workers[w].copy.stdout)
              else Tells(sys.workers[w].copy, old(sys.workers[w].copy.stdout), verdict) && Happened(world, verdict)
    {
      var struck;
      struck, verdict := Interrupted(w, world);
      assert old(trace) <= trace;
      if struck {
        return false, verdict;
      }
      var why := world.unstaged(sys);
      if why.Some? {
        assert Happened(world, Refused(why.value));
        Own(w, StagingFails(w, why.value));
        return false, Refused(why.value);
      }
      Own(w, StagingPasses(w));
      return true, verdict;
    }

    /** The inner try block. */
    method Run(w: Id, world: World) returns (ghost verdict: Verdict)
      requires Stands(w, Launching) && FairPlay(world, w)
      modifies this
      ensures old(trace) <= trace
      ensures Stands(w, Finalizing)
      ensures Tells(sys.workers[w].copy, old(sys.workers[w].copy.stdout), verdict) && Happened(world, verdict)
    {
      var ok;
      ok, verdict := Launch(w, world);
      assert old(trace) <= trace;
      if ok {
        verdict := WaitAndReport(w, world);
      }
    }

    /** Launch the process and record its pid. */
    method Launch(w: Id, world: World) returns (ok: bool, ghost verdict: Verdict)
      requires Stands(w, Launching) && FairPlay(world, w)
      modifies this
      ensures old(trace) <= trace
      ensures Stands(w, if ok then Waiting else Finalizing)
      ensures if ok then sys.workers[w].copy.stdout == old(sys.workers[w].copy.stdout)
              else Tells(sys.workers[w].copy, old(sys.workers[w].copy.stdout), verdict) && Happened(world, verdict)
    {
      var struck;
      struck, verdict := Interrupted(w, world);
      assert old(trace) <= trace;
      if struck {
        return false, verdict;
      }
      var why := world.refused(sys);
      if why.Some? {
        assert Happened(world, Refused(why.value));
        Own(w, LaunchRefused(w, why.value));
        return false, Refused(why.value);
      }
      Own(w, Spawn(w, world.pid(sys)));
      assert old(trace) <= trace;
      ok, verdict := RecordPid(w, world);
    }

    method RecordPid(w: Id, world: World) returns (ok: bool, ghost verdict: Verdict)
      requires Stands(w, Spawned) && FairPlay(world, w)
      modifies this
      ensures old(trace) <= trace
      ensures Stands(w, if ok then Waiting else Finalizing)
      ensures if ok then sys.workers[w].copy.stdout == old(sys.workers[w].copy.stdout)
              else Tells(sys.workers[w].copy, old(sys.workers[w].copy.stdout), verdict) && Happened(world, verdict)
    {
      var struck;
      struck, verdict := Interrupted(w, world);
      assert old(trace) <= trace;
      if struck {
        return false, verdict;
      }
      Own(w, Bind(w));
      assert old(trace) <= trace;
      ok, verdict := SaveHandle(w, world);
    }

    method SaveHandle(w: Id, world: World) returns (ok: bool, ghost verdict: Verdict)
      requires Stands(w, Bound) && FairPlay(world, w)
      modifies this
      ensures old(trace) <= trace
      ensures Stands(w, if ok then Waiting else Finalizing)
      ensures if ok then sys.workers[w].copy.stdout == old(sys.workers[w].copy.stdout)
              else Tells(sys.workers[w].copy, old(sys.workers[w].copy.stdout), verdict) && Happened(world, verdict)
    {
      var struck;
      struck, verdict := Interrupted(w, world);
      if struck {
        return false, verdict;
      }
      Own(w, SavePid(w));
      return true, verdict;
    }

    method WaitAndReport(w: Id, world: World) returns (ghost verdict: Verdict)
      requires Stands(w, Waiting) && FairPlay(world, w)
      modifies this
      ensures old(trace) <= trace
      ensures Stands(w, Finalizing)
      ensures Tells(sys.workers[w].copy, old(sys.workers[w].copy.stdout), verdict) && Happened(world, verdict)
    {
      var struck;
      struck, verdict := Interrupted(w, world);
      assert old(trace) <= trace;
      if struck {
        return verdict;
      }
      struck, verdict := Wait(w, world);
      assert old(trace) <= trace;
      if !struck {
        verdict := ReportOutcome(w, world);
      }
    }

    method ReportOutcome(w: Id, world: World) returns (ghost verdict: Verdict)
      requires Stands(w, Reporting) && FairPlay(world, w)
      requires sys.workers[w].outcome.Some? && Happened(world, Ended(sys.workers[w].outcome.value))
      modifies this
      ensures old(trace) <= trace
      ensures Stands(w, Finalizing)
      ensures Tells(sys.workers[w].copy, old(sys.workers[w].copy.stdout), verdict) && Happened(world, verdict)
    {
      var struck;
      struck, verdict := Interrupted(w, world);
      if !struck {
        verdict := Ended(sys.workers[w].outcome.value);
        Own(w, Report(w));
      }
    }

    /** `wait()` comes back once it has collected the exit code of the script, or has killed it when its
        time was up. Others of the script's group may outlive it in the first case. */
    method Wait(w: Id, world: World) returns (struck: bool, ghost verdict: Verdict)
      requires Stands(w, Waiting) && FairPlay(world, w)
      modifies this
      ensures old(trace) <= trace
      ensures Stands(w, if struck then Finalizing else Reporting)
      ensures if !struck then sys.workers[w].copy.stdout == old(sys.workers[w].copy.stdout)
              else Tells(sys.workers[w].copy, old(sys.workers[w].copy.stdout), verdict) && Happened(world, verdict)
      ensures !struck ==> !LeaderLive(sys.procs) && (SomeAlive(sys.procs) ==> OutOfReach(sys.procs))
      ensures !struck ==> sys.workers[w].outcome.Some? && Happened(world, Ended(sys.workers[w].outcome.value))
      ensures !struck && sys.workers[w].outcome.value.TimedOut? ==> !SomeAlive(sys.procs)
    {
      struck, verdict := false, Refused("");
      var outcome := world.outcome(sys);
      assert Happened(world, Ended(outcome));
      if outcome.Exited? {
        struck, verdict := CollectExit(w, world);
        assert old(trace) <= trace;
      }
      if !struck {
        Return(w, outcome);
      }
    }

    /** `communicate()` returns, and a fault may strike before `wait()` does. */
    method CollectExit(w: Id, world: World) returns (struck: bool, ghost verdict: Verdict)
      requires Stands(w, Waiting) && FairPlay(world, w)
      modifies this
      ensures old(trace) <= trace
      ensures Stands(w, if struck then Finalizing else Collected)
      ensures if !struck then sys.workers[w].copy.stdout == old(sys.workers[w].copy.stdout)
              else Tells(sys.workers[w].copy, old(sys.workers[w].copy.stdout), verdict) && Happened(world, verdict)
    {
      LetExit(w);
      Own(w, Collect(w));
      assert old(trace) <= trace;
      struck, verdict := Interrupted(w, world);
    }

    /** The script ends by itself. */
    method LetExit(w: Id)
      requires Stands(w, Waiting)
      modifies this
      ensures old(trace) <= trace
      ensures Stands(w, Waiting) && CanRun(sys.workers[w], sys.procs, Collect(w))
      ensures sys.workers[w] == old(sys.workers[w])
    {
      ClaimantWaits(sys, w);
      if sys.procs[0].leader.Live? {
        LeaderEnds(sys, w);
        Do(ProcessActs(sys.workers[w].handle.value, LeaderExit));
      } else {
        assert Possible(sys.procs[0], Reap);
      }
    }

    method Return(w: Id, outcome: Outcome)
      requires Stands(w, if outcome.Exited? then Collected else Waiting)
      modifies this
      ensures old(trace) <= trace
      ensures Stands(w, Reporting) && sys.workers[w].outcome == Some(outcome)
      ensures sys.workers[w].copy == old(sys.workers[w].copy)
      ensures !LeaderLive(sys.procs)
      ensures SomeAlive(sys.procs) ==> outcome.Exited? && OutOfReach(sys.procs)
    {
      ClaimantHasHandle(sys, w);
      var e := WaitReturns(w, outcome);
      WaitLeavesTreeExactly(sys, e);
      Do(e);
    }

    /** The run is over: nothing of it is alive, except what no kill by pid could find. */
    ghost predicate Over(w: Id)
      reads this
    {
      && Stands(w, Done)
      && IsFinished(sys.row.status) && sys.row.pid.None?
      && (LeaderLive(sys.procs) ==> sys.workers[w].unbound)
      && (SomeAlive(sys.procs) ==> sys.workers[w].unbound || OutOfReach(sys.procs))
    }

    /** Did this statement come last? */
    ghost predicate Last(e: Event)
      reads this
    {
      trace != [] && trace[|trace| - 1] == e
    }

    /** The whole of `execute_run`. */
    method Execute(w: Id, world: World) returns (stored: bool, ghost verdict: Verdict)
      requires Stands(w, Loaded) && FairPlay(world, w)
      modifies this
      ensures old(trace) <= trace
      ensures Over(w) || (Stands(w, Lost) && !stored)
      ensures Over(w) ==> Last(if stored then Finalize(w) else ClearPid(w))
      ensures stored ==>
                && Tells(sys.row, old(sys.workers[w].copy.stdout), verdict) && Happened(world, verdict)
                && sys.row.endedAt.Some?
    {
      stored, verdict := false, Refused("");
      Interfere(w, world);
      Own(w, Claim(w));
      assert old(trace) <= trace;
      if sys.workers[w].pc == Claimed {
        stored, verdict := ExecuteClaimed(w, world);
      }
    }

    /** Everything after a claim that was won. */
    method ExecuteClaimed(w: Id, world: World) returns (stored: bool, ghost verdict: Verdict)
      requires Stands(w, Claimed) && FairPlay(world, w)
      modifies this
      ensures old(trace) <= trace
      ensures Over(w) && Last(if stored then Finalize(w) else ClearPid(w))
      ensures stored ==>
                && Tells(sys.row, old(sys.workers[w].copy.stdout), verdict) && Happened(world, verdict)
                && sys.row.endedAt.Some?
    {
      Interfere(w, world);
      Own(w, Refresh(w));
      assert old(trace) <= trace;
      verdict := TryBlock(w, world);
      assert old(trace) <= trace;
      stored := Finally(w, world);
    }

    /** The `finally` block: the claimant's result is stored, unless the run was cancelled. */
    method Finally(w: Id, world: World) returns (stored: bool)
      requires Stands(w, Finalizing) && FairPlay(world, w)
      modifies this
      ensures old(trace) <= trace
      ensures Over(w) && Last(if stored then Finalize(w) else ClearPid(w))
      ensures stored ==>
                && sys.row.status == old(sys.workers[w].copy.status)
                && SameResult(old(sys.workers[w].copy), sys.row) && sys.row.endedAt.Some?
    {
      Interfere(w, world);
      stored := Store(w);
      assert old(trace) <= trace;
      if !stored {
        ForgetPid(w, world);
      }
      DoneTree(sys, w);
    }

    /** The conditional UPDATE that excludes CANCELLED. */
    method Store(w: Id) returns (stored: bool)
      requires Stands(w, Finalizing)
      modifies this
      ensures stored <==> old(sys.row.status) != Cancelled
      ensures old(trace) <= trace && Last(Finalize(w))
      ensures Stands(w, if stored then Done else ClearingPid)
      ensures stored ==>
                && sys.row.status == old(sys.workers[w].copy.status)
                && SameResult(old(sys.workers[w].copy), sys.row) && sys.row.endedAt.Some?
    {
      FinalizeResult(sys, w);
      stored := sys.row.status != Cancelled;
      Do(Finalize(w));
    }

    /** The run was cancelled: only its pid is cleared. */
    method ForgetPid(w: Id, world: World)
      requires Stands(w, ClearingPid) && FairPlay(world, w)
      modifies this
      ensures old(trace) <= trace && Last(ClearPid(w))
      ensures Stands(w, Done)
    {
      Interfere(w, world);
      Own(w, ClearPid(w));
    }
  }

  lemma OwnIsConsistent(s: Sys, w: Id, e: Event)
    requires Inv(s) && w in s.workers && ByWorker(e) && CanRun(s.workers[w], s.procs, e)
    ensures e.Claim? || e.Crash? || Consistent(s.workers[w], s.row, s.procs)
  {
    if !e.Claim? && !e.Crash? {
      OnlyClaimantsGoOn(s.workers[w], s.procs, e);
      ClaimantIsConsistent(s, w);
    }
  }

  lemma OnlyClaimantsGoOn(k: Worker, procs: seq<Process>, e: Event)
    requires ByWorker(e) && CanRun(k, procs, e) && !e.Claim? && !e.Crash?
    ensures k.pc != Loaded && !Stopped(k.pc)
  {}

  lemma ClaimantIsConsistent(s: Sys, w: Id)
    requires Inv(s) && w in s.workers && s.workers[w].pc != Loaded && !Stopped(s.workers[w].pc)
    ensures Consistent(s.workers[w], s.row, s.procs)
  {
    assert s.winner == Some(w);
  }

  lemma FinalizeResult(s: Sys, w: Id)
    requires w in s.workers && s.workers[w].pc == Finalizing
    ensures Enabled(s, Finalize(w))
    ensures var t := Step(s, Finalize(w)); var copy := s.workers[w].copy;
            && w in t.workers && t.workers[w].pc == (if s.row.status == Cancelled then ClearingPid else Done)
            && (s.row.status != Cancelled ==>
                  t.row.status == copy.status && SameResult(copy, t.row) && t.row.endedAt.Some?)
  {
    if s.row.status != Cancelled {
      FinalizeStores(s, w, Step(s, Finalize(w)));
    }
  }

  lemma ClaimantWaits(s: Sys, w: Id)
    requires Inv(s) && w in s.workers && s.workers[w].pc == Waiting
    ensures s.workers[w].handle.Some? && |s.procs| == 1
    ensures s.procs[0].pid == s.workers[w].handle.value && !s.procs[0].leader.Reaped?
  {
    assert s.winner == Some(w);
  }

  /** The exit of a live script is possible, and leaves it to be reaped. */
  lemma LeaderEnds(s: Sys, w: Id)
    requires Inv(s) && w in s.workers && s.workers[w].pc == Waiting
    requires |s.procs| == 1 && s.procs[0].leader.Live? && s.workers[w].handle == Some(s.procs[0].pid)
    ensures var e := ProcessActs(s.procs[0].pid, LeaderExit);
            && Enabled(s, e) && Step(s, e).workers == s.workers
            && CanRun(s.workers[w], Step(s, e).procs, Collect(w))
  {
    assert Possible(s.procs[0], LeaderExit);
    var procs := Changed(s.procs, s.procs[0].pid, LeaderExit);
    assert procs[0].leader.Zombie? && procs[0].pid == s.procs[0].pid;
  }

  lemma ClaimantHasHandle(s: Sys, w: Id)
    requires Inv(s) && w in s.workers && s.workers[w].pc in {Waiting, Collected}
    ensures s.workers[w].handle.Some?
  {
    assert s.winner == Some(w);
  }
}
