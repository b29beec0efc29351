/** Two-phase locking at work: what a finished transaction leaves behind, and conflict serializability of
    every run in which no transaction waiting to upgrade is overtaken on the row. */
module LockSerial {
  import opened Wrappers
  import opened LockSpec
  import opened LockInvariant
  import opened LockTheorems

  // ---------- What one step does to the transactions ----------

  // A step leaves other transactions' records and waits alone.
  lemma OthersRecord(s: State, step: Step, t: TxnId)
    requires Allowed(s, step) && step.t != t
    ensures var s' := Next(s, step).state;
      && (t in s'.txns <==> t in s.txns) && (t in s.txns ==> s'.txns[t] == s.txns[t])
      && (t in s'.waiting <==> t in s.waiting) && (t in s.waiting ==> s'.waiting[t] == s.waiting[t])
  {
  }

  function TxnOf(s: State, t: TxnId): Txn {
    if t in s.txns then s.txns[t] else Txn(Growing, {}, {})
  }

  function Owned(s: State, t: TxnId): set<Row> {
    TxnOf(s, t).shared + TxnOf(s, t).exclusive
  }

  /** Two-phase: a transaction gains a lock only while growing, has stopped growing once it loses one,
      and never grows again. */
  lemma TwoPhase(s: State, step: Step, t: TxnId)
    requires Inv(s) && Allowed(s, step) && t in s.txns
    ensures var x, x' := s.txns[t], TxnOf(Next(s, step).state, t);
      && t in Next(s, step).state.txns
      && (x.state != Growing ==> x'.state != Growing && x'.shared <= x.shared && x'.exclusive <= x.exclusive)
      && (x'.state == Growing ==> x.exclusive <= x'.exclusive && x.shared <= x'.shared + x'.exclusive)
  {
    if step.t != t { OthersRecord(s, step, t); }
    else if step.DoWake? { assert CellOK(s, t, s.waiting[t].row); }
  }

  // ---------- After Commit or Abort ----------

  // The rows t unlocks in some steps.
  function Unlocked(steps: seq<Step>, t: TxnId): set<Row> {
    set i | 0 <= i < |steps| && steps[i].DoUnlock? && steps[i].t == t :: steps[i].row
  }

  lemma OwnedShrinks(s: State, step: Step, t: TxnId)
    requires Inv(s) && Allowed(s, step) && t in s.txns && t !in s.waiting && (step.t == t ==> step.DoUnlock?)
    ensures var s' := Next(s, step).state;
      && t in s'.txns && t !in s'.waiting
      && Owned(s', t) <= Owned(s, t) && (step.t == t ==> step.row !in Owned(s', t))
      && (s.txns[t].state in {Committed, Aborted} ==> s'.txns[t].state == s.txns[t].state)
  {
    if step.t != t { OthersRecord(s, step, t); } else { assert CellOK(s, t, step.row); }
  }

  lemma {:induction false} Releasing(steps: seq<Step>, n: nat, t: TxnId)
    requires n < |steps| && IsRun(steps) && steps[n].Finish? && steps[n].t == t
    requires forall k :: n < k < |steps| && steps[k].t == t ==> steps[k].DoUnlock?
    ensures IsRun(steps[..n + 1])
    ensures var s, s' := After(steps[..n + 1]), After(steps);
      && t in s'.txns && t !in s'.waiting && s'.txns[t].state == (if steps[n].commit then Committed else Aborted)
      && Owned(s', t) <= Owned(s, t) - Unlocked(steps[n + 1..], t)
    decreases |steps|
  {
    var m := |steps| - 1;
    Reachable(steps[..m]);
    if n == m {
      assert steps[..n + 1] == steps;
    } else {
      var before := steps[..m];
      assert before[..n + 1] == steps[..n + 1];
      Releasing(before, n, t);
      OwnedShrinks(After(before), steps[m], t);
      assert steps[n + 1..] == before[n + 1..] + [steps[m]];
      UnlockedMore(before[n + 1..], steps[m], t);
    }
  }

  lemma UnlockedMore(steps: seq<Step>, step: Step, t: TxnId)
    ensures Unlocked(steps + [step], t) == Unlocked(steps, t) + if step.DoUnlock? && step.t == t then {step.row} else {}
  {
    var all := steps + [step];
    forall i | 0 <= i < |all| ensures all[i] == if i < |steps| then steps[i] else step {}
    forall row | row in Unlocked(steps, t) ensures row in Unlocked(all, t) {
      var i :| 0 <= i < |steps| && steps[i].DoUnlock? && steps[i].t == t && steps[i].row == row;
      assert all[i] == steps[i];
    }
    if step.DoUnlock? && step.t == t { assert all[|steps|] == step; }
  }

  /** Commit and Abort unlock what the transaction held when they began. However the steps of others fall
      in between, afterwards no request of the transaction is left on any row and its lock sets are
      empty. */
  lemma NothingLeft(steps: seq<Step>, n: nat, t: TxnId)
    requires n < |steps| && IsRun(steps) && IsRun(steps[..n + 1]) && steps[n].Finish? && steps[n].t == t
    requires forall k :: n < k < |steps| && steps[k].t == t ==> steps[k].DoUnlock?
    requires Owned(After(steps[..n + 1]), t) <= Unlocked(steps[n + 1..], t)
    ensures var s := After(steps);
      && t in s.txns && s.txns[t] == Txn(if steps[n].commit then Committed else Aborted, {}, {})
      && forall row :: RequestOf(s, t, row) == None
  {
    Releasing(steps, n, t);
    Reachable(steps);
    var s := After(steps);
    assert Owned(s, t) == {};
    forall row ensures RequestOf(s, t, row) == None {
      assert CellOK(s, t, row) && row !in Owned(s, t);
    }
  }

  // ---------- Lock points ----------

  /** The step adds a row to one of its transaction's lock sets. */
  predicate Gains(s: State, step: Step)
    requires Allowed(s, step)
  {
    var x, x' := TxnOf(s, step.t), TxnOf(Next(s, step).state, step.t);
    !(x'.shared <= x.shared && x'.exclusive <= x.exclusive)
  }

  /** The lock point of a transaction: one past the step that last gave it a lock. */
  ghost function LockPoint(steps: seq<Step>, t: TxnId): (p: nat)
    requires IsRun(steps)
    ensures p <= |steps|
  {
    if steps == [] then 0
    else
      var n := |steps| - 1;
      if steps[n].t == t && Gains(After(steps[..n]), steps[n]) then n + 1 else LockPoint(steps[..n], t)
  }

  // ---------- Overtaking ----------

  /** A growing transaction lists the row in its shared set while another one holds it exclusively. */
  predicate Overtaken(s: State, t: TxnId, u: TxnId, row: Row) {
    t != u && t in s.txns && u in s.txns && s.txns[t].state == Growing && row in s.txns[t].shared && row in s.txns[u].exclusive
  }

  ghost predicate NoneOvertaken(s: State) {
    forall t, u, row :: !Overtaken(s, t, u, row)
  }

  /** Nobody is overtaken in any state of the run. */
  ghost predicate NeverOvertaken(steps: seq<Step>)
    requires IsRun(steps)
  {
    NoneOvertaken(After(steps)) && (steps == [] || NeverOvertaken(steps[..|steps| - 1]))
  }

  /** The overtaken transaction is always one that waits to upgrade, and the other has been granted the row. */
  lemma OvertakenMeans(s: State, t: TxnId, u: TxnId, row: Row)
    requires Inv(s)
    ensures Overtaken(s, t, u, row) <==> Upgrading(s, t, row) && s.txns[t].state == Growing && IsExclusive(s, u, row)
  {
    assert CellOK(s, t, row) && CellOK(s, u, row) && RowOK(s, row);
  }

  // ---------- Conflicts ----------

  predicate Conflict(a: Step, b: Step) {
    a.Access? && b.Access? && a.t != b.t && a.row == b.row && (a.write || b.write)
  }

  /** A lock that protects an access: held, and not given up for an upgrade that still waits. */
  predicate Guards(s: State, t: TxnId, row: Row, write: bool) {
    Holds(s, t, row, write) && !Upgrading(s, t, row)
  }

  // Locks that protect accesses of different transactions never conflict.
  lemma GuardsAgree(s: State, t: TxnId, u: TxnId, row: Row, w: bool, w': bool)
    requires Inv(s) && t != u && (w || w')
    ensures !(Guards(s, t, row, w) && Guards(s, u, row, w'))
  {
    assert CellOK(s, t, row) && CellOK(s, u, row) && RowOK(s, row);
  }

  // Nor does such a lock with what a growing transaction lists, unless that one is overtaken.
  lemma ListedAgree(s: State, t: TxnId, u: TxnId, row: Row, w: bool, w': bool)
    requires Inv(s) && NoneOvertaken(s) && t != u && (w || w')
    requires t in s.txns && s.txns[t].state == Growing
    ensures !(Holds(s, t, row, w) && Guards(s, u, row, w'))
  {
    assert CellOK(s, t, row) && CellOK(s, u, row) && RowOK(s, row) && !Overtaken(s, t, u, row);
  }

  // A lock that starts to protect the row is gained by a step of its transaction.
  lemma NewGuard(s: State, step: Step, u: TxnId, row: Row, w: bool)
    requires Inv(s) && Allowed(s, step) && !Guards(s, u, row, w) && Guards(Next(s, step).state, u, row, w)
    ensures step.t == u && Gains(s, step)
  {
    if step.t != u { OthersRecord(s, step, u); }
    else { assert CellOK(s, u, row); }
  }

  // What holds after a run for an access made in it.
  ghost predicate AccessOK(steps: seq<Step>, i: nat)
    requires IsRun(steps) && i < |steps| && steps[i].Access?
  {
    var s, a := After(steps), steps[i];
    && a.t in s.txns
    && (Holds(s, a.t, a.row, a.write) || s.txns[a.t].state != Growing)
    && (forall u, w {:trigger Guards(s, u, a.row, w)} :: u != a.t && (w || a.write) && Guards(s, u, a.row, w) ==>
          s.txns[a.t].state != Growing && LockPoint(steps, a.t) < LockPoint(steps, u))
  }

  // What holds after a run for two conflicting accesses.
  ghost predicate PairOK(steps: seq<Step>, i: nat, j: nat)
    requires IsRun(steps) && i < j < |steps| && Conflict(steps[i], steps[j])
  {
    var s, t := After(steps), steps[i].t;
    t in s.txns && s.txns[t].state != Growing && LockPoint(steps, t) < LockPoint(steps, steps[j].t)
  }

  // One step: lock points only grow, and that of a transaction past growing stays.
  lemma PointStep(steps: seq<Step>, t: TxnId)
    requires steps != [] && IsRun(steps)
    ensures var before := steps[..|steps| - 1];
      && LockPoint(before, t) <= LockPoint(steps, t)
      && (steps[|steps| - 1].t != t || (t in After(before).txns && After(before).txns[t].state != Growing) ==>
            LockPoint(steps, t) == LockPoint(before, t))
  {
    var n := |steps| - 1;
    Reachable(steps[..n]);
    if t in After(steps[..n]).txns { TwoPhase(After(steps[..n]), steps[n], t); }
  }

  lemma NewAccess(steps: seq<Step>)
    requires steps != [] && IsRun(steps) && steps[|steps| - 1].Access?
    ensures AccessOK(steps, |steps| - 1)
  {
    var a, s := steps[|steps| - 1], After(steps);
    Reachable(steps);
    forall u, w | u != a.t && (w || a.write) ensures !Guards(s, u, a.row, w) { GuardsAgree(s, a.t, u, a.row, a.write, w); }
  }

  lemma OldAccess(steps: seq<Step>, i: nat)
    requires IsRun(steps) && NeverOvertaken(steps) && i < |steps| - 1 && steps[i].Access?
    requires AccessOK(steps[..|steps| - 1], i)
    ensures AccessOK(steps, i)
  {
    var n := |steps| - 1;
    var before, step, a := steps[..n], steps[n], steps[i];
    var s, s' := After(before), After(steps);
    Reachable(before);
    Reachable(steps);
    TwoPhase(s, step, a.t);
    PointStep(steps, a.t);
    forall u, w | u != a.t && (w || a.write) && Guards(s', u, a.row, w)
      ensures s'.txns[a.t].state != Growing && LockPoint(steps, a.t) < LockPoint(steps, u)
    {
      PointStep(steps, u);
      if s'.txns[a.t].state == Growing { ListedAgree(s', a.t, u, a.row, a.write, w); }
      if !Guards(s, u, a.row, w) { NewGuard(s, step, u, a.row, w); }
    }
  }

  lemma {:induction false} AllAccesses(steps: seq<Step>, i: nat)
    requires IsRun(steps) && NeverOvertaken(steps) && i < |steps| && steps[i].Access?
    ensures AccessOK(steps, i)
    decreases |steps|
  {
    if i == |steps| - 1 {
      NewAccess(steps);
    } else {
      AllAccesses(steps[..|steps| - 1], i);
      OldAccess(steps, i);
    }
  }

  lemma {:induction false} AllPairs(steps: seq<Step>, i: nat, j: nat)
    requires IsRun(steps) && NeverOvertaken(steps) && i < j < |steps| && Conflict(steps[i], steps[j])
    ensures PairOK(steps, i, j)
    decreases |steps|
  {
    var n := |steps| - 1;
    var before := steps[..n];
    var s, b := After(before), steps[j];
    Reachable(before);
    if j == n {
      AllAccesses(before, i);
      assert Guards(s, b.t, b.row, b.write);
    } else {
      AllPairs(before, i, j);
    }
    PointStep(steps, steps[i].t);
    PointStep(steps, b.t);
    TwoPhase(s, steps[n], steps[i].t);
  }

  // ---------- Serializability ----------

  /** Conflict serializability: of two conflicting accesses, the transaction that came first has the
      smaller lock point. Upgrades may wait, as long as nobody else is granted the row meanwhile. */
  lemma ConflictsFollowLockPoints(steps: seq<Step>, i: nat, j: nat)
    requires IsRun(steps) && NeverOvertaken(steps) && i < j < |steps| && Conflict(steps[i], steps[j])
    ensures LockPoint(steps, steps[i].t) < LockPoint(steps, steps[j].t)
  {
    AllPairs(steps, i, j);
  }

  /** An edge of the precedence graph. */
  ghost predicate Precedes(steps: seq<Step>, t: TxnId, u: TxnId) {
    exists i, j :: 0 <= i < j < |steps| && Conflict(steps[i], steps[j]) && steps[i].t == t && steps[j].t == u
  }

  ghost predicate IsPath(steps: seq<Step>, path: seq<TxnId>) {
    forall k :: 0 <= k < |path| - 1 ==> Precedes(steps, path[k], path[k + 1])
  }

  lemma {:induction false} PathClimbs(steps: seq<Step>, path: seq<TxnId>)
    requires IsRun(steps) && NeverOvertaken(steps) && |path| >= 2 && IsPath(steps, path)
    ensures LockPoint(steps, path[0]) < LockPoint(steps, path[|path| - 1])
    decreases |path|
  {
    var n := |path| - 2;
    assert Precedes(steps, path[n], path[n + 1]);
    var i, j :| 0 <= i < j < |steps| && Conflict(steps[i], steps[j]) && steps[i].t == path[n] && steps[j].t == path[n + 1];
    ConflictsFollowLockPoints(steps, i, j);
    if n > 0 { PathClimbs(steps, path[..n + 1]); }
  }

  /** The precedence graph of a run has no cycle. */
  lemma NoCycle(steps: seq<Step>, path: seq<TxnId>)
    requires IsRun(steps) && NeverOvertaken(steps) && |path| >= 2 && IsPath(steps, path)
    ensures path[0] != path[|path| - 1]
  {
    PathClimbs(steps, path);
  }

  /** The last write to a row before step j, or -1. */
  function LastWrite(steps: seq<Step>, j: nat, row: Row): (i: int)
    requires j <= |steps|
    ensures -1 <= i < j
    ensures i >= 0 ==> steps[i].Access? && steps[i].write && steps[i].row == row
    ensures forall k :: i < k < j ==> !(steps[k].Access? && steps[k].write && steps[k].row == row)
  {
    if j == 0 then -1
    else if steps[j - 1].Access? && steps[j - 1].write && steps[j - 1].row == row then j - 1
    else LastWrite(steps, j - 1, row)
  }

  /** The run reads what the serial order by lock points would: a transaction that reads another's write
      comes after that writer with no other writer of the row in between, and one that reads the row as
      it was at the start comes before all its writers. */
  lemma ReadsAsSerial(steps: seq<Step>, j: nat, k: nat)
    requires IsRun(steps) && NeverOvertaken(steps)
    requires j < |steps| && steps[j].Access? && k < |steps| && steps[k].Access? && steps[k].write
    requires steps[k].row == steps[j].row && steps[k].t != steps[j].t
    ensures var i := LastWrite(steps, j, steps[j].row);
      var reader, writer := LockPoint(steps, steps[j].t), LockPoint(steps, steps[k].t);
      if i == -1 then reader < writer
      else if steps[i].t == steps[k].t then writer < reader
      else if steps[i].t == steps[j].t then (k < i && writer < reader) || (k > j && reader < writer)
      else writer < LockPoint(steps, steps[i].t) < reader || LockPoint(steps, steps[i].t) < reader < writer
  {
    var i := LastWrite(steps, j, steps[j].row);
    if k < j { ConflictsFollowLockPoints(steps, k, j); } else { ConflictsFollowLockPoints(steps, j, k); }
    if i >= 0 && steps[i].t != steps[j].t { ConflictsFollowLockPoints(steps, i, j); }
    if i >= 0 && steps[i].t != steps[k].t && k < i { ConflictsFollowLockPoints(steps, k, i); }
  }

  /** The final value of a row is that of the transaction with the greatest lock point among its writers. */
  lemma FinalWriteAsSerial(steps: seq<Step>, k: nat)
    requires IsRun(steps) && NeverOvertaken(steps) && k < |steps| && steps[k].Access? && steps[k].write
    ensures var i := LastWrite(steps, |steps|, steps[k].row);
      i >= 0 && (steps[k].t == steps[i].t || LockPoint(steps, steps[k].t) < LockPoint(steps, steps[i].t))
  {
    var i := LastWrite(steps, |steps|, steps[k].row);
    if steps[k].t != steps[i].t { ConflictsFollowLockPoints(steps, k, i); }
  }
}
