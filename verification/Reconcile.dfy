/** `Run.reconcile_stale` executed with nobody else touching the table. */
module Reconcile {
  import opened Wrappers
  import opened RunModel

  type Pk = nat

  /** The row this pass leaves behind. */
  function Reconciled(row: Row, timeout: nat, now: Time, workersAlive: bool): Row {
    if Overdue(row, timeout, now) then FailRunning(row, row.stderr, now)
    else if workersAlive && PendingLost(row, now) then FailPending(row, now)
    else row
  }

  predicate Flips(row: Row, timeout: nat, now: Time, workersAlive: bool) {
    Overdue(row, timeout, now) || (workersAlive && PendingLost(row, now))
  }

  ghost function Flipped(rows: map<Pk, Row>, timeouts: map<Pk, nat>, now: Time, workersAlive: bool): set<Pk>
    requires rows.Keys <= timeouts.Keys
  {
    set pk | pk in rows && (LongOverdue(rows[pk], timeouts[pk], now) || (workersAlive && LongQueued(rows[pk], now)))
  }

  /** The candidate query followed by the deadline test selects by age alone. */
  lemma PrefilterLosesNothing(row: Row, timeout: nat, now: Time)
    ensures RunningStale(row, timeout, now) <==> Overdue(row, timeout, now)
  {}

  /** What a pass leaves of one row, by the numbers and by its columns. */
  lemma ReconciledColumns(row: Row, timeout: nat, now: Time, workersAlive: bool)
    ensures var row' := Reconciled(row, timeout, now, workersAlive);
            && (LongOverdue(row, timeout, now) ==> FailedWhileRunning(row, row', row.stderr, now))
            && (workersAlive && LongQueued(row, now) ==> FailedWhilePending(row, row', now))
            && (!LongOverdue(row, timeout, now) && !(workersAlive && LongQueued(row, now)) ==> row' == row)
    ensures Flips(row, timeout, now, workersAlive) <==>
            LongOverdue(row, timeout, now) || (workersAlive && LongQueued(row, now))
  {
    StaleExactly(row, timeout, now);
    FailedColumns(row, row.stderr, now);
  }

  lemma FlippedIsFlips(rows: map<Pk, Row>, timeouts: map<Pk, nat>, now: Time, workersAlive: bool)
    requires rows.Keys <= timeouts.Keys
    ensures forall pk :: pk in Flipped(rows, timeouts, now, workersAlive) <==>
              pk in rows && Flips(rows[pk], timeouts[pk], now, workersAlive)
  {
    forall pk | pk in rows
      ensures Flips(rows[pk], timeouts[pk], now, workersAlive) <==>
              LongOverdue(rows[pk], timeouts[pk], now) || (workersAlive && LongQueued(rows[pk], now))
    {
      ReconciledColumns(rows[pk], timeouts[pk], now, workersAlive);
    }
  }

  /** A second pass at the same instant finds nothing to do. */
  lemma SecondPassIsIdle(rows: map<Pk, Row>, timeouts: map<Pk, nat>, now: Time, workersAlive: bool)
    requires rows.Keys <= timeouts.Keys
    ensures var after := map pk | pk in rows :: Reconciled(rows[pk], timeouts[pk], now, workersAlive);
            Flipped(after, timeouts, now, workersAlive) == {}
  {}

  predicate Distinct(s: seq<Pk>) {
    forall i, j :: 0 <= i < j < |s| ==> s[i] != s[j]
  }

  function Elements(s: seq<Pk>): set<Pk> {
    set pk | pk in s
  }

  lemma {:induction false} DistinctCardinality(s: seq<Pk>)
    requires Distinct(s)
    ensures |Elements(s)| == |s|
  {
    if s == [] {
      assert Elements(s) == {};
    } else {
      var rest := s[..|s| - 1];
      DistinctCardinality(rest);
      var last := s[|s| - 1];
      assert s == rest + [last] && last !in rest;
      var smaller := Elements(rest);
      assert last !in smaller;
      assert Elements(s) == smaller + {last};
    }
  }

  lemma DistinctConcat(s: seq<Pk>, t: seq<Pk>)
    requires Distinct(s) && Distinct(t) && forall pk :: pk in s ==> pk !in t
    ensures Distinct(s + t)
  {
    forall i, j | 0 <= i < j < |s + t|
      ensures (s + t)[i] != (s + t)[j]
    {
      assert i < |s| ==> s[i] in s;
      assert j >= |s| ==> t[j - |s|] in t;
    }
  }

  // ----- A sweep over the rows, in the order of the query -----

  ghost predicate Listed(order: seq<Pk>, rows: map<Pk, Row>, timeouts: map<Pk, nat>) {
    forall i :: 0 <= i < |order| ==> order[i] in rows && order[i] in timeouts
  }

  /** The rows after the candidates in `order` have been dealt with. */
  function Sweep(rows: map<Pk, Row>, timeouts: map<Pk, nat>, order: seq<Pk>, now: Time): map<Pk, Row>
    requires Listed(order, rows, timeouts)
  {
    if order == [] then rows else
    var pk := order[|order| - 1];
    Sweep(rows, timeouts, order[..|order| - 1], now)[pk := Reconciled(rows[pk], timeouts[pk], now, false)]
  }

  /** The overdue rows among them, in the same order. */
  function Late(rows: map<Pk, Row>, timeouts: map<Pk, nat>, order: seq<Pk>, now: Time): seq<Pk>
    requires Listed(order, rows, timeouts)
  {
    if order == [] then [] else
    var pk := order[|order| - 1];
    Late(rows, timeouts, order[..|order| - 1], now) + if Overdue(rows[pk], timeouts[pk], now) then [pk] else []
  }

  lemma {:induction false} SweepAt(rows: map<Pk, Row>, timeouts: map<Pk, nat>, order: seq<Pk>, now: Time, pk: Pk)
    requires Listed(order, rows, timeouts) && pk in rows
    ensures var swept := Sweep(rows, timeouts, order, now);
            && swept.Keys == rows.Keys
            && (pk !in order ==> swept[pk] == rows[pk])
            && (pk in order ==> pk in timeouts && swept[pk] == Reconciled(rows[pk], timeouts[pk], now, false))
    decreases |order|
  {
    if order != [] {
      var front, last := order[..|order| - 1], order[|order| - 1];
      SweepAt(rows, timeouts, front, now, pk);
      assert pk in order <==> pk in front || pk == last;
    }
  }

  lemma {:induction false} SweepKeys(rows: map<Pk, Row>, timeouts: map<Pk, nat>, order: seq<Pk>, now: Time)
    requires Listed(order, rows, timeouts)
    ensures Sweep(rows, timeouts, order, now).Keys == rows.Keys
    decreases |order|
  {
    if order != [] {
      SweepKeys(rows, timeouts, order[..|order| - 1], now);
    }
  }

  lemma {:induction false} LateMembers(rows: map<Pk, Row>, timeouts: map<Pk, nat>, order: seq<Pk>, now: Time)
    requires Listed(order, rows, timeouts) && Distinct(order)
    ensures var late := Late(rows, timeouts, order, now);
            && Distinct(late)
            && forall pk :: pk in late <==> pk in order && Overdue(rows[pk], timeouts[pk], now)
    decreases |order|
  {
    if order != [] {
      var front, last := order[..|order| - 1], order[|order| - 1];
      LateMembers(rows, timeouts, front, now);
      assert forall pk :: pk in order <==> pk in front || pk == last;
    }
  }

  lemma SweepColumns(rows: map<Pk, Row>, timeouts: map<Pk, nat>, order: seq<Pk>, now: Time)
    requires Listed(order, rows, timeouts) && Distinct(order) && rows.Keys <= timeouts.Keys
    ensures var swept, late := Sweep(rows, timeouts, order, now), Late(rows, timeouts, order, now);
            && swept.Keys == rows.Keys
            && forall pk :: pk in rows ==>
                 if pk in order && LongOverdue(rows[pk], timeouts[pk], now)
                 then pk in late && FailedWhileRunning(rows[pk], swept[pk], rows[pk].stderr, now)
                 else pk !in late && swept[pk] == rows[pk]
  {
    SweepKeys(rows, timeouts, order, now);
    LateMembers(rows, timeouts, order, now);
    forall pk | pk in rows
      ensures var swept, late := Sweep(rows, timeouts, order, now), Late(rows, timeouts, order, now);
              if pk in order && LongOverdue(rows[pk], timeouts[pk], now)
              then pk in late && FailedWhileRunning(rows[pk], swept[pk], rows[pk].stderr, now)
              else pk !in late && swept[pk] == rows[pk]
    {
      SweepAt(rows, timeouts, order, now, pk);
      StaleExactly(rows[pk], timeouts[pk], now);
      ReconciledColumns(rows[pk], timeouts[pk], now, false);
    }
  }

  lemma WholeSweep(rows: map<Pk, Row>, timeouts: map<Pk, nat>, order: seq<Pk>, now: Time)
    requires Listed(order, rows, timeouts) && Distinct(order) && rows.Keys == Elements(order) <= timeouts.Keys
    ensures var swept, late := Sweep(rows, timeouts, order, now), Late(rows, timeouts, order, now);
            && swept.Keys == rows.Keys
            && (forall pk :: pk in rows ==> swept[pk] == Reconciled(rows[pk], timeouts[pk], now, false))
            && Distinct(late)
            && forall pk :: pk in late <==> pk in rows && Overdue(rows[pk], timeouts[pk], now)
  {
    SweepKeys(rows, timeouts, order, now);
    LateMembers(rows, timeouts, order, now);
    forall pk | pk in rows
      ensures pk in order && Sweep(rows, timeouts, order, now)[pk] == Reconciled(rows[pk], timeouts[pk], now, false)
    {
      assert pk in Elements(order);
      SweepAt(rows, timeouts, order, now, pk);
    }
  }

  class RunTable {
    var rows: map<Pk, Row>
    var timeouts: map<Pk, nat>  // timeout_seconds of each run's script
    var notified: seq<Pk>

    ghost predicate Valid()
      reads this
    {
      rows.Keys <= timeouts.Keys
    }

    /** `filter(pk=pk, status=RUNNING).update(...)`: the number of rows changed. */
    method FailIfRunning(pk: Pk, readStderr: string, now: Time) returns (n: nat)
      requires Valid()
      modifies this`rows
      ensures n == if pk in old(rows) && old(rows)[pk].status == Running then 1 else 0
      ensures rows == if n == 1 then old(rows)[pk := FailRunning(old(rows)[pk], readStderr, now)] else old(rows)
    {
      n := 0;
      if pk in rows && rows[pk].status == Running {
        rows := rows[pk := FailRunning(rows[pk], readStderr, now)];
        n := 1;
      }
    }

    /** One candidate: skipped before its deadline, else one conditional UPDATE. */
    method FailIfOverdue(pk: Pk, run: Row, now: Time) returns (n: nat)
      requires Valid() && pk in rows && rows[pk] == run
      modifies this`rows
      ensures rows == old(rows)[pk := Reconciled(run, timeouts[pk], now, false)]
      ensures n == if Overdue(run, timeouts[pk], now) then 1 else 0
    {
      n := 0;
      if run.status == Running && run.startedAt.Some? && run.startedAt.value < now - RECONCILE_GRACE {
        var deadline := run.startedAt.value + timeouts[pk] * SECOND + RECONCILE_GRACE;
        if !(now < deadline) {
          n := FailIfRunning(pk, run.stderr, now);
        }
      }
    }

    /** The first half: RUNNING rows past their own deadline, one conditional UPDATE each. */
    method FailOverdue(order: seq<Pk>, now: Time) returns (reconciled: nat, notify: seq<Pk>)
      requires Valid() && Distinct(order) && Listed(order, rows, timeouts)
      modifies this`rows
      ensures rows == Sweep(old(rows), timeouts, order, now)
      ensures notify == Late(old(rows), timeouts, order, now) && reconciled == |notify|
      ensures rows.Keys == old(rows).Keys
      ensures forall pk :: pk in rows ==>
                if pk in order && LongOverdue(old(rows)[pk], timeouts[pk], now)
                then pk in notify && FailedWhileRunning(old(rows)[pk], rows[pk], old(rows)[pk].stderr, now)
                else pk !in notify && rows[pk] == old(rows)[pk]
    {
      var candidates := rows;  // the rows as the query read them
      reconciled, notify := 0, [];
      for i := 0 to |order|
        invariant rows == Sweep(candidates, timeouts, order[..i], now) && Valid()
        invariant notify == Late(candidates, timeouts, order[..i], now) && reconciled == |notify|
      {
        var pk := order[i];
        assert order[..i + 1][..i] == order[..i];
        SweepAt(candidates, timeouts, order[..i], now, pk);
        var flipped := FailIfOverdue(pk, candidates[pk], now);
        reconciled := reconciled + flipped;
        if flipped != 0 {
          notify := notify + [pk];
        }
      }
      assert order[..|order|] == order;
      SweepColumns(candidates, timeouts, order, now);
    }

    /** The second half: one UPDATE for every PENDING row lost from the queue. */
    method FailLost(order: seq<Pk>, now: Time) returns (reconciled: nat, notify: seq<Pk>)
      requires Valid() && Distinct(order) && rows.Keys == Elements(order)
      modifies this`rows
      ensures rows.Keys == old(rows).Keys
      ensures forall pk :: pk in rows ==>
                rows[pk] == if PendingLost(old(rows)[pk], now) then FailPending(old(rows)[pk], now) else old(rows)[pk]
      ensures Distinct(notify) && reconciled == |notify|
      ensures forall pk :: pk in notify <==> pk in old(rows) && PendingLost(old(rows)[pk], now)
      ensures forall pk :: pk in rows ==>
                if LongQueued(old(rows)[pk], now) then FailedWhilePending(old(rows)[pk], rows[pk], now)
                else rows[pk] == old(rows)[pk]
    {
      var stale := [];
      for i := 0 to |order|
        invariant Distinct(stale)
        invariant forall pk :: pk in stale <==> pk in order[..i] && pk in rows && PendingLost(rows[pk], now)
      {
        assert order[i] !in order[..i];
        if PendingLost(rows[order[i]], now) {
          stale := stale + [order[i]];
        }
      }
      ghost var was := rows;
      reconciled := 0;
      for i := 0 to |stale|
        invariant rows.Keys == was.Keys && reconciled == i
        invariant forall pk :: pk in was ==>
                                 rows[pk] == if pk in stale[..i] then FailPending(was[pk], now) else was[pk]
      {
        assert stale[i] !in stale[..i] && stale[i] in stale;
        if rows[stale[i]].status == Pending {
          rows := rows[stale[i] := FailPending(rows[stale[i]], now)];
          reconciled := reconciled + 1;
        }
      }
      notify := [];
      for i := 0 to |stale|
        invariant notify == stale[..i]
      {
        assert stale[i] in stale;
        if rows[stale[i]].status == Failed {
          notify := notify + [stale[i]];
        }
      }
    }

    /** The two halves; `notify` lists the rows they failed. */
    method FailStale(order: seq<Pk>, now: Time, workersAlive: bool) returns (reconciled: nat, notify: seq<Pk>)
      requires Valid() && Distinct(order) && rows.Keys == Elements(order)
      modifies this`rows
      ensures rows.Keys == old(rows).Keys
      ensures forall pk :: pk in rows ==>
                rows[pk] == Reconciled(old(rows)[pk], timeouts[pk], now, workersAlive)
      ensures Distinct(notify) && reconciled == |notify|
      ensures forall pk :: pk in notify <==> pk in old(rows) && Flips(old(rows)[pk], timeouts[pk], now, workersAlive)
    {
      ghost var was := rows;
      assert forall i :: 0 <= i < |order| ==> order[i] in Elements(order);
      WholeSweep(rows, timeouts, order, now);
      reconciled, notify := FailOverdue(order, now);
      if workersAlive {
        var n, lost := FailLost(order, now);
        assert forall pk :: pk in lost ==> pk in was && was[pk].status == Pending;
        DistinctConcat(notify, lost);
        reconciled := reconciled + n;
        notify := notify + lost;
      }
    }

    /** `order` is the order in which the database happens to list the rows. */
    method ReconcileStale(order: seq<Pk>, now: Time, workersAlive: bool) returns (reconciled: nat)
      requires Valid() && Distinct(order) && rows.Keys == Elements(order)
      modifies this`rows, this`notified
      ensures Valid() && rows.Keys == old(rows).Keys
      ensures forall pk :: pk in rows && LongOverdue(old(rows)[pk], timeouts[pk], now) ==>
                FailedWhileRunning(old(rows)[pk], rows[pk], old(rows)[pk].stderr, now)
      ensures forall pk :: pk in rows && workersAlive && LongQueued(old(rows)[pk], now) ==>
                FailedWhilePending(old(rows)[pk], rows[pk], now)
      ensures forall pk :: pk in rows && pk !in Flipped(old(rows), timeouts, now, workersAlive) ==>
                rows[pk] == old(rows)[pk]
      ensures reconciled == |Flipped(old(rows), timeouts, now, workersAlive)|
      ensures old(notified) <= notified && |notified| == |old(notified)| + reconciled
      ensures Elements(notified[|old(notified)|..]) == Flipped(old(rows), timeouts, now, workersAlive)
    {
      ghost var was := rows;
      var notify;
      reconciled, notify := FailStale(order, now, workersAlive);
      notified := notified + notify;
      FlippedIsFlips(was, timeouts, now, workersAlive);
      assert Elements(notify) == Flipped(was, timeouts, now, workersAlive);
      DistinctCardinality(notify);
      assert notified[|old(notified)|..] == notify;
      forall pk | pk in rows
        ensures LongOverdue(was[pk], timeouts[pk], now) ==>
                  FailedWhileRunning(was[pk], rows[pk], was[pk].stderr, now)
        ensures workersAlive && LongQueued(was[pk], now) ==> FailedWhilePending(was[pk], rows[pk], now)
        ensures pk !in Flipped(was, timeouts, now, workersAlive) ==> rows[pk] == was[pk]
      {
        ReconciledColumns(was[pk], timeouts[pk], now, workersAlive);
      }
    }
  }
}
