/** What the lock manager guarantees over every run. */
module LockTheorems {
  import opened Wrappers
  import opened LockSpec
  import opened LockInvariant

  // ---------- Exclusion and agreement ----------

  /** A granted exclusive request on a row excludes every other transaction's grant. */
  lemma MutualExclusion(steps: seq<Step>, row: Row, t: TxnId, u: TxnId)
    requires IsRun(steps) && t != u
    ensures var s := After(steps);
      RequestOf(s, t, row) == Some(Request(t, Exclusive, true)) ==>
        RequestOf(s, u, row) == None || !RequestOf(s, u, row).value.granted
  {
    Reachable(steps);
    assert RowOK(After(steps), row);
  }

  /** Lock sets and queues agree: the exclusive set is what is granted exclusively, the shared set what
      is granted as shared or is being upgraded; and each transaction has one request per row. */
  lemma SetsAgree(steps: seq<Step>, t: TxnId, row: Row)
    requires IsRun(steps) && t in After(steps).txns
    ensures var s := After(steps); var r := RequestOf(s, t, row); var x := s.txns[t];
      && (row in x.exclusive <==> r == Some(Request(t, Exclusive, true)))
      && (row in x.shared <==> r == Some(Request(t, Shared, true)) || (r == Some(Request(t, Exclusive, false)) && Upgrading(s, t, row)))
      && OneEach(QueueOf(s, row).requests)
  {
    Reachable(steps);
    assert CellOK(After(steps), t, row) && RowOK(After(steps), row);
  }

  /** The upgrade flag of a row is set exactly while one transaction waits to upgrade on it. */
  lemma SingleUpgrader(steps: seq<Step>, row: Row)
    requires IsRun(steps)
    ensures var s := After(steps);
      && (QueueOf(s, row).upgrading <==> exists t :: Upgrading(s, t, row))
      && forall t, u :: Upgrading(s, t, row) && Upgrading(s, u, row) ==> t == u
  {
    Reachable(steps);
    assert RowOK(After(steps), row);
  }

  // ---------- Grants and wake-ups ----------

  predicate IsGranted(s: State, t: TxnId, row: Row) {
    RequestOf(s, t, row).Some? && RequestOf(s, t, row).value.granted
  }

  predicate IsExclusive(s: State, t: TxnId, row: Row) {
    IsGranted(s, t, row) && RequestOf(s, t, row).value.mode == Exclusive
  }

  lemma UpdatedOther(reqs: seq<Request>, i: nat, r: Request, t: TxnId)
    requires OneEach(reqs) && i < |reqs| && reqs[i].txn == r.txn && t != r.txn
    ensures Find(reqs[i := r], t) == Find(reqs, t)
  {
    Updated(reqs, i, r, t);
  }

  lemma EnqueueOther(s: State, u: TxnId, w: Wait, t: TxnId, row: Row)
    requires Inv(s) && u in s.txns && u !in s.waiting && t != u && !w.ForUpgrade?
    requires w.row !in s.txns[u].shared && w.row !in s.txns[u].exclusive
    ensures var q := QueueOf(s, w.row); var r := Request(u, if w.ForShared? then Shared else Exclusive, false);
      RequestOf(GrantOrWait(SetQueue(s, w.row, q.(requests := q.requests + [r])), u, w, |q.requests|).state, t, row) == RequestOf(s, t, row)
  {
    var q := QueueOf(s, w.row);
    var r := Request(u, if w.ForShared? then Shared else Exclusive, false);
    EnqueueLists(s, u, w.row, r);
    var l := q.requests + [r];
    UpdatedOther(l, |q.requests|, l[|q.requests|].(granted := true), t);
  }

  lemma UpgradeOther(s: State, u: TxnId, r: Row, t: TxnId, row: Row)
    requires Inv(s) && u in s.txns && u !in s.waiting && t != u
    ensures RequestOf(LockUpgrade(s, u, r).state, t, row) == RequestOf(s, t, row)
  {
    assert RowOK(s, r);
    var reqs, i := QueueOf(s, r).requests, IndexOf(QueueOf(s, r).requests, u);
    if i != -1 {
      UpdatedOther(reqs, i, Request(u, Exclusive, false), t);
      UpdatedOther(reqs, i, Request(u, Exclusive, true), t);
      assert reqs[i := Request(u, Exclusive, false)][i := Request(u, Exclusive, true)] == reqs[i := Request(u, Exclusive, true)];
    }
  }

  lemma WakeOther(s: State, u: TxnId, t: TxnId, row: Row)
    requires Inv(s) && u in s.txns && u in s.waiting && t != u
    ensures RequestOf(Wake(s, u).state, t, row) == RequestOf(s, t, row)
  {
    var r := s.waiting[u].row;
    assert CellOK(s, u, r) && RowOK(s, r);
    var reqs, i := QueueOf(s, r).requests, IndexOf(QueueOf(s, r).requests, u);
    Erased(reqs, i, t);
    UpdatedOther(reqs, i, reqs[i].(granted := true), t);
  }

  // Steps of u leave t's request on every row alone.
  lemma OthersRequest(s: State, step: Step, t: TxnId, row: Row)
    requires Inv(s) && Allowed(s, step) && step.t != t
    ensures RequestOf(Next(s, step).state, t, row) == RequestOf(s, t, row)
  {
    var u := step.t;
    match step
    case DoLockShared(_, r) =>
      if !Refused(s.txns[u]) && r !in s.txns[u].shared && r !in s.txns[u].exclusive { EnqueueOther(s, u, ForShared(r), t, row); }
    case DoLockExclusive(_, r) =>
      if !Refused(s.txns[u]) && r !in s.txns[u].exclusive { EnqueueOther(s, u, ForExclusive(r), t, row); }
    case DoLockUpgrade(_, r) => UpgradeOther(s, u, r, t, row);
    case DoWake(_) => WakeOther(s, u, t, row);
    case DoUnlock(_, r) =>
      assert RowOK(s, r);
      var reqs, i := QueueOf(s, r).requests, IndexOf(QueueOf(s, r).requests, u);
      if i != -1 { Erased(reqs, i, t); }
    case _ =>
  }

  // A granted request of t stays as it is unless t unlocks the row or asks to upgrade it.
  lemma OwnGrantKept(s: State, step: Step, row: Row)
    requires Inv(s) && Allowed(s, step) && IsGranted(s, step.t, row)
    ensures var r := RequestOf(Next(s, step).state, step.t, row);
      || r == RequestOf(s, step.t, row)
      || step == DoUnlock(step.t, row)
      || (step == DoLockUpgrade(step.t, row) && RequestOf(s, step.t, row) == Some(Request(step.t, Shared, true))
          && r == Some(Request(step.t, Exclusive, Next(s, step).outcome != Blocked)))
  {
    var t := step.t;
    assert CellOK(s, t, row) && RowOK(s, row);
    if step.DoLockUpgrade? && step.row == row {
      var reqs, i := QueueOf(s, row).requests, IndexOf(QueueOf(s, row).requests, t);
      Updated(reqs, i, Request(t, Exclusive, false), t);
      Updated(reqs, i, Request(t, Exclusive, true), t);
      assert reqs[i := Request(t, Exclusive, false)][i := Request(t, Exclusive, true)] == reqs[i := Request(t, Exclusive, true)];
    }
  }

  /** A request becomes granted only by a step of its own transaction, in a critical section in which
      no other grant on the row stands in its way. */
  lemma GrantedWhenFree(s: State, step: Step, t: TxnId, row: Row, u: TxnId)
    requires Inv(s) && Allowed(s, step) && !IsGranted(s, t, row) && IsGranted(Next(s, step).state, t, row) && u != t
    ensures step.t == t
    ensures !IsExclusive(s, u, row)
    ensures IsExclusive(Next(s, step).state, t, row) ==> !IsGranted(s, u, row)
  {
    if step.t != t { OthersRequest(s, step, t, row); }
    OthersRequest(s, step, u, row);
    StepKeeps(s, step);
    assert RowOK(Next(s, step).state, row);
  }

  /** What u has been granted stands in the way of the wait w. */
  predicate Blocks(s: State, w: Wait, u: TxnId) {
    if w.ForShared? then IsExclusive(s, u, w.row) else IsGranted(s, u, w.row)
  }

  // The waiting condition in terms of the other transactions' requests.
  lemma ProceedMeans(s: State, w: Wait, t: TxnId)
    requires OneEach(QueueOf(s, w.row).requests)
    ensures CanProceed(w, QueueOf(s, w.row).requests, t) <==>
      forall u :: u != t ==> !Blocks(s, w, u)
  {
    var reqs := QueueOf(s, w.row).requests;
    forall i | 0 <= i < |reqs| ensures Find(reqs, reqs[i].txn) == Some(reqs[i]) { IndexIs(reqs, reqs[i].txn, i); }
    if CanProceed(w, reqs, t) {
      forall u | u != t ensures !Blocks(s, w, u) {
        assert IndexOf(reqs, u) != -1 ==> reqs[IndexOf(reqs, u)].txn != t;
      }
    } else {
      var i :| 0 <= i < |reqs| && reqs[i].txn != t && reqs[i].granted && (w.ForShared? ==> reqs[i].mode == Exclusive);
      assert RequestOf(s, reqs[i].txn, w.row) == Some(reqs[i]) && Blocks(s, w, reqs[i].txn);
    }
  }

  /** The queue a step notifies, if it does. */
  function NotifiedRow(s: State, step: Step): Row
    requires Allowed(s, step) && (step.DoUnlock? || step.DoWake?)
  {
    if step.DoUnlock? then step.row else s.waiting[step.t].row
  }

  /** No lost wake-up: whenever a step of another transaction makes a waiter's condition true, that
      step notifies the queue the waiter is in. */
  lemma NoLostWakeup(s: State, step: Step, u: TxnId)
    requires Inv(s) && Allowed(s, step) && u in s.waiting && u != step.t
    requires !CanProceed(s.waiting[u], QueueOf(s, s.waiting[u].row).requests, u)
    requires CanProceed(s.waiting[u], QueueOf(Next(s, step).state, s.waiting[u].row).requests, u)
    ensures (step.DoUnlock? || step.DoWake?) && Next(s, step).notified && NotifiedRow(s, step) == s.waiting[u].row
  {
    var w, s', t := s.waiting[u], Next(s, step).state, step.t;
    var row := w.row;
    StepKeeps(s, step);
    assert RowOK(s, row) && RowOK(s', row) && CellOK(s, u, row);
    ProceedMeans(s, w, u);
    ProceedMeans(s', w, u);
    var v :| v != u && Blocks(s, w, v);
    assert !Blocks(s', w, v) && !Blocks(s', w, t);
    if v != t { OthersRequest(s, step, v, row); }
    OwnGrantKept(s, step, row);
    if step == DoLockUpgrade(t, row) && !w.ForShared? { BlockedUpgradeBlocks(s, t, row, u); }
  }

  /** An upgrade that changes the queue leaves some grant in place that still blocks exclusive waiters:
      its own if it goes through, another one if it has to wait. */
  lemma BlockedUpgradeBlocks(s: State, t: TxnId, row: Row, u: TxnId)
    requires Inv(s) && t in s.txns && t !in s.waiting && s.txns[t].state != Committed && u != t
    requires IsGranted(s, t, row) && !IsGranted(s, u, row)
    ensures !CanExclude(QueueOf(LockUpgrade(s, t, row).state, row).requests, u)
  {
    var s' := LockUpgrade(s, t, row).state;
    UpgradeKeeps(s, t, row);
    assert RowOK(s, row) && RowOK(s', row) && CellOK(s, t, row);
    ProceedMeans(s', ForUpgrade(row), u);
    OwnGrantKept(s, DoLockUpgrade(t, row), row);
    assert IsGranted(s', t, row) ==> Blocks(s', ForUpgrade(row), t);
    if !IsGranted(s', t, row) {
      ProceedMeans(s, ForUpgrade(row), t);
      var reqs := QueueOf(s, row).requests;
      var i := IndexOf(reqs, t);
      var next := reqs[i := Request(t, Exclusive, false)];
      var j :| 0 <= j < |next| && next[j].txn != t && next[j].granted;
      assert reqs[j] == next[j];
      IndexIs(reqs, reqs[j].txn, j);
      UpgradeOther(s, t, row, reqs[j].txn, row);
      assert Blocks(s', ForUpgrade(row), reqs[j].txn);
    }
  }
}
