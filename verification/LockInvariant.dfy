/** What holds in every reachable state of the lock manager: request queues, lock sets and blocked
    threads agree, and granted locks are compatible. */
module LockInvariant {
  import opened Wrappers
  import opened LockSpec

  function Find(reqs: seq<Request>, t: TxnId): Option<Request> {
    var i := IndexOf(reqs, t);
    if i == -1 then None else Some(reqs[i])
  }

  function RequestOf(s: State, t: TxnId, row: Row): Option<Request> {
    Find(QueueOf(s, row).requests, t)
  }

  predicate OneEach(reqs: seq<Request>) {
    forall i, j :: 0 <= i < j < |reqs| ==> reqs[i].txn != reqs[j].txn
  }

  /** The request of a transaction on a row, its two lock sets and its thread tell the same story. */
  predicate CellOK(s: State, t: TxnId, row: Row) {
    var r := RequestOf(s, t, row);
    var x := if t in s.txns then s.txns[t] else Txn(Growing, {}, {});
    var waits := t in s.waiting && s.waiting[t].row == row;
    if r == None then row !in x.shared && row !in x.exclusive && !waits
    else
      && t in s.txns
      && (r.value.granted ==> !waits && (row in x.shared <==> r.value.mode == Shared) && (row in x.exclusive <==> r.value.mode == Exclusive))
      && (!r.value.granted ==> waits && row !in x.exclusive)
      && (!r.value.granted && r.value.mode == Shared ==> s.waiting[t].ForShared? && row !in x.shared)
      && (!r.value.granted && r.value.mode == Exclusive ==>
            !s.waiting[t].ForShared? && (row in x.shared <==> s.waiting[t].ForUpgrade?))
  }

  /** The queue of a row: one request per transaction, a granted exclusive request alone, and the
      upgrade flag set exactly while an upgrade is pending. */
  ghost predicate RowOK(s: State, row: Row) {
    var q := QueueOf(s, row);
    && OneEach(q.requests)
    && Compatible(q.requests)
    && (q.upgrading <==> exists t :: Upgrading(s, t, row))
    && (forall t, u :: Upgrading(s, t, row) && Upgrading(s, u, row) ==> t == u)
  }

  /** A granted exclusive request excludes all other granted requests. */
  predicate Compatible(reqs: seq<Request>) {
    forall i, j | 0 <= i < |reqs| && 0 <= j < |reqs| && i != j && reqs[i].granted && reqs[j].granted ::
      reqs[i].mode != Exclusive
  }

  predicate Upgrading(s: State, t: TxnId, row: Row) {
    t in s.waiting && s.waiting[t] == ForUpgrade(row)
  }

  ghost predicate Inv(s: State) {
    && (forall t {:trigger t in s.waiting} :: t in s.waiting ==> t in s.txns && s.txns[t].state in {Growing, Aborted})
    && (forall t, row {:trigger CellOK(s, t, row)} :: CellOK(s, t, row))
    && (forall row {:trigger RowOK(s, row)} :: RowOK(s, row))
  }

  // ---------- Request lists ----------

  lemma IndexIs(reqs: seq<Request>, t: TxnId, i: nat)
    requires OneEach(reqs) && i < |reqs| && reqs[i].txn == t
    ensures IndexOf(reqs, t) == i
  {
  }

  lemma Appended(reqs: seq<Request>, r: Request, t: TxnId)
    requires IndexOf(reqs, r.txn) == -1
    ensures IndexOf(reqs + [r], t) == if t == r.txn then |reqs| else IndexOf(reqs, t)
    ensures OneEach(reqs) ==> OneEach(reqs + [r])
  {
    var l := reqs + [r];
    var i := IndexOf(l, t);
    assert l[|reqs|] == r;
    assert forall j :: 0 <= j < |reqs| ==> l[j] == reqs[j];
  }

  lemma Updated(reqs: seq<Request>, i: nat, r: Request, t: TxnId)
    requires OneEach(reqs) && i < |reqs| && reqs[i].txn == r.txn
    ensures OneEach(reqs[i := r]) && IndexOf(reqs[i := r], t) == IndexOf(reqs, t)
  {
    var l := reqs[i := r];
    assert forall j :: 0 <= j < |reqs| ==> l[j].txn == reqs[j].txn;
  }

  lemma Erased(reqs: seq<Request>, i: nat, t: TxnId)
    requires OneEach(reqs) && i < |reqs|
    ensures OneEach(Erase(reqs, i))
    ensures var j := IndexOf(Erase(reqs, i), t);
      if t == reqs[i].txn then j == -1
      else if IndexOf(reqs, t) == -1 then j == -1
      else j >= 0 && Erase(reqs, i)[j] == reqs[IndexOf(reqs, t)]
  {
    var l := Erase(reqs, i);
    assert forall j :: 0 <= j < |l| ==> l[j] == reqs[if j < i then j else j + 1];
    var k := IndexOf(reqs, t);
    if k >= 0 && k != i {
      var m := if k < i then k else k - 1;
      assert l[m] == reqs[k];
      IndexIs(l, t, m);
    }
  }

  // ---------- Each kind of change keeps the invariant ----------

  lemma StartInv()
    ensures Inv(Start)
  {
    forall t, row ensures CellOK(Start, t, row) {}
    forall row ensures RowOK(Start, row) {}
  }

  // Only the state of a transaction changes.
  lemma StateChange(s: State, t: TxnId, st: TxnState)
    requires Inv(s) && t in s.txns && (t in s.waiting ==> st == Aborted)
    ensures Inv(SetTxn(s, t, s.txns[t].(state := st)))
  {
    var s' := SetTxn(s, t, s.txns[t].(state := st));
    forall u, row ensures CellOK(s', u, row) { assert CellOK(s, u, row); }
    forall row ensures RowOK(s', row) {
      assert RowOK(s, row);
      forall u ensures Upgrading(s', u, row) <==> Upgrading(s, u, row) {}
    }
  }

  lemma BeginKeeps(s: State, t: TxnId)
    requires Inv(s) && t !in s.txns
    ensures Inv(SetTxn(s, t, Txn(Growing, {}, {})))
  {
    var s' := SetTxn(s, t, Txn(Growing, {}, {}));
    forall u, row ensures CellOK(s', u, row) { assert CellOK(s, u, row); }
    forall row ensures RowOK(s', row) {
      assert RowOK(s, row);
      forall u ensures Upgrading(s', u, row) <==> Upgrading(s, u, row) {}
    }
  }

  // The lock sets agree outside one row.
  ghost predicate SameElsewhere(x: Txn, y: Txn, row: Row) {
    forall r :: r != row ==> (r in x.shared <==> r in y.shared) && (r in x.exclusive <==> r in y.exclusive)
  }

  /** A step by t at one row: its queue, t's lock sets and t's wait may change, nothing else. */
  function Put(s: State, t: TxnId, row: Row, q: Queue, x: Txn, wait: Option<Wait>): State {
    State(s.txns[t := x], s.table[row := q], if wait == None then s.waiting - {t} else s.waiting[t := wait.value])
  }

  // CellOK for t and row, said of the parts.
  predicate Tells(r: Option<Request>, x: Txn, wait: Option<Wait>, row: Row) {
    match r
    case None => row !in x.shared && row !in x.exclusive && wait == None
    case Some(Request(_, m, true)) => wait == None && (row in x.shared <==> m == Shared) && (row in x.exclusive <==> m == Exclusive)
    case Some(Request(_, Shared, false)) => wait == Some(ForShared(row)) && row !in x.shared && row !in x.exclusive
    case Some(Request(_, Exclusive, false)) =>
      || (wait == Some(ForExclusive(row)) && row !in x.shared && row !in x.exclusive)
      || (wait == Some(ForUpgrade(row)) && row in x.shared && row !in x.exclusive)
  }

  // What the new queue must satisfy, given the old one.
  ghost predicate GoodQueue(s: State, t: TxnId, row: Row, q: Queue, wait: Option<Wait>) {
    && OneEach(q.requests) && Compatible(q.requests)
    && (forall u :: u != t ==> Find(q.requests, u) == Find(QueueOf(s, row).requests, u))
    && (if wait == Some(ForUpgrade(row)) then q.upgrading && !QueueOf(s, row).upgrading
        else if Upgrading(s, t, row) then !q.upgrading else q.upgrading == QueueOf(s, row).upgrading)
  }

  lemma PutCells(s: State, t: TxnId, row: Row, q: Queue, x: Txn, wait: Option<Wait>, u: TxnId, r: Row)
    requires Inv(s) && t in s.txns && (t in s.waiting ==> s.waiting[t].row == row)
    requires SameElsewhere(s.txns[t], x, row) && Tells(Find(q.requests, t), x, wait, row) && GoodQueue(s, t, row, q, wait)
    ensures CellOK(Put(s, t, row, q, x, wait), u, r)
  {
    assert CellOK(s, u, r);
  }

  lemma PutRow(s: State, t: TxnId, row: Row, q: Queue, x: Txn, wait: Option<Wait>, r: Row)
    requires Inv(s) && t in s.txns && (t in s.waiting ==> s.waiting[t].row == row)
    requires (wait.Some? ==> wait.value.row == row) && GoodQueue(s, t, row, q, wait)
    ensures RowOK(Put(s, t, row, q, x, wait), r)
  {
    var s' := Put(s, t, row, q, x, wait);
    assert RowOK(s, r);
    if r != row || (wait != Some(ForUpgrade(row)) && !Upgrading(s, t, row)) {
      forall u ensures Upgrading(s', u, r) <==> Upgrading(s, u, r) {}
    } else if wait == Some(ForUpgrade(row)) {
      forall u ensures Upgrading(s', u, r) <==> u == t { assert !Upgrading(s, u, r); }
      assert Upgrading(s', t, r);
    } else {
      forall u ensures !Upgrading(s', u, r) { assert Upgrading(s, u, r) ==> u == t; }
    }
  }

  lemma PutKeeps(s: State, t: TxnId, row: Row, q: Queue, x: Txn, wait: Option<Wait>)
    requires Inv(s) && t in s.txns && (t in s.waiting ==> s.waiting[t].row == row)
    requires SameElsewhere(s.txns[t], x, row) && Tells(Find(q.requests, t), x, wait, row) && GoodQueue(s, t, row, q, wait)
    requires wait.Some? ==> x.state in {Growing, Aborted}
    ensures Inv(Put(s, t, row, q, x, wait))
  {
    var s' := Put(s, t, row, q, x, wait);
    forall u, r ensures CellOK(s', u, r) { PutCells(s, t, row, q, x, wait, u, r); }
    forall r ensures RowOK(s', r) { PutRow(s, t, row, q, x, wait, r); }
  }

  // Granting where the waiting condition holds keeps granted requests compatible.
  lemma GrantCompatible(reqs: seq<Request>, i: nat)
    requires i < |reqs| && Compatible(reqs) && OneEach(reqs)
    requires if reqs[i].mode == Shared then CanShare(reqs, reqs[i].txn) else CanExclude(reqs, reqs[i].txn)
    ensures Compatible(reqs[i := reqs[i].(granted := true)])
  {
  }

  /** A new request that is granted at once. */
  lemma EnqueueGranted(s: State, t: TxnId, w: Wait, r: Request)
    requires Inv(s) && t in s.txns && t !in s.waiting && !w.ForUpgrade?
    requires w.row !in s.txns[t].shared && w.row !in s.txns[t].exclusive
    requires r == Request(t, if w.ForShared? then Shared else Exclusive, false)
    requires CanProceed(w, QueueOf(s, w.row).requests + [r], t)
    ensures var q := QueueOf(s, w.row);
      Inv(Grant(SetQueue(s, w.row, q.(requests := q.requests + [r])), t, w, |q.requests|))
  {
    var q := QueueOf(s, w.row);
    EnqueueLists(s, t, w.row, r);
    GrantCompatible(q.requests + [r], |q.requests|);
    GrantKeeps(s, t, w, q.requests + [r], |q.requests|, q.upgrading);
    assert s.waiting - {t} == s.waiting;
  }

  lemma EnqueueLists(s: State, t: TxnId, row: Row, r: Request)
    requires Inv(s) && t in s.txns && t !in s.waiting && row !in s.txns[t].shared && row !in s.txns[t].exclusive
    requires r.txn == t && !r.granted
    ensures var reqs := QueueOf(s, row).requests;
      && IndexOf(reqs, t) == -1 && OneEach(reqs + [r]) && Compatible(reqs + [r])
      && forall u :: Find(reqs + [r], u) == if u == t then Some(r) else Find(reqs, u)
  {
    var reqs := QueueOf(s, row).requests;
    assert CellOK(s, t, row) && RowOK(s, row);
    forall u ensures IndexOf(reqs + [r], u) == if u == t then |reqs| else IndexOf(reqs, u) { Appended(reqs, r, u); }
    Appended(reqs, r, t);
  }

  /** A new request, granted at once or left waiting. */
  lemma EnqueueKeeps(s: State, t: TxnId, w: Wait)
    requires Inv(s) && t in s.txns && t !in s.waiting && !w.ForUpgrade? && s.txns[t].state == Growing
    requires w.row !in s.txns[t].shared && w.row !in s.txns[t].exclusive
    ensures var q := QueueOf(s, w.row); var r := Request(t, if w.ForShared? then Shared else Exclusive, false);
      Inv(GrantOrWait(SetQueue(s, w.row, q.(requests := q.requests + [r])), t, w, |q.requests|).state)
  {
    var row := w.row;
    var q := QueueOf(s, row);
    var r := Request(t, if w.ForShared? then Shared else Exclusive, false);
    if CanProceed(w, q.requests + [r], t) {
      EnqueueGranted(s, t, w, r);
    } else {
      EnqueueLists(s, t, row, r);
      var q' := Queue(q.requests + [r], q.upgrading);
      assert CellOK(s, t, row) && RowOK(s, row);
      PutKeeps(s, t, row, q', s.txns[t], Some(w));
      assert SetQueue(s, row, q').(waiting := s.waiting[t := w]) == Put(s, t, row, q', s.txns[t], Some(w));
    }
  }

  lemma GrantedLists(reqs: seq<Request>, i: nat)
    requires i < |reqs| && OneEach(reqs)
    ensures var l := reqs[i := reqs[i].(granted := true)];
      OneEach(l) && forall u :: Find(l, u) == if u == reqs[i].txn then Some(l[i]) else Find(reqs, u)
  {
    var l := reqs[i := reqs[i].(granted := true)];
    forall u ensures OneEach(l) && IndexOf(l, u) == IndexOf(reqs, u) { Updated(reqs, i, l[i], u); }
    IndexIs(reqs, reqs[i].txn, i);
  }

  // The grant itself, on whatever list of requests the step has prepared.
  lemma GrantKeeps(s: State, t: TxnId, w: Wait, reqs: seq<Request>, i: nat, up: bool)
    requires Inv(s) && t in s.txns && (t in s.waiting ==> s.waiting[t].row == w.row)
    requires i < |reqs| && reqs[i] == Request(t, if w.ForShared? then Shared else Exclusive, false)
    requires OneEach(reqs) && Compatible(reqs[i := reqs[i].(granted := true)])
    requires forall u :: u != t ==> Find(reqs, u) == Find(QueueOf(s, w.row).requests, u)
    requires w.row !in s.txns[t].exclusive && (w.ForUpgrade? || w.row !in s.txns[t].shared)
    requires w.ForUpgrade? ==> Upgrading(s, t, w.row) || !QueueOf(s, w.row).upgrading
    requires !w.ForUpgrade? ==> !Upgrading(s, t, w.row) && up == QueueOf(s, w.row).upgrading
    ensures Inv(Grant(SetQueue(s, w.row, Queue(reqs, up)).(waiting := s.waiting - {t}), t, w, i))
  {
    var row := w.row;
    var granted := reqs[i := reqs[i].(granted := true)];
    var q := Queue(granted, if w.ForUpgrade? then false else up);
    GrantedLists(reqs, i);
    PutKeeps(s, t, row, q, Granted(s.txns[t], w), None);
    assert Grant(SetQueue(s, row, Queue(reqs, up)).(waiting := s.waiting - {t}), t, w, i)
        == Put(s, t, row, q, Granted(s.txns[t], w), None);
  }

  lemma UpgradeKeeps(s: State, t: TxnId, row: Row)
    requires Inv(s) && t in s.txns && t !in s.waiting && s.txns[t].state != Committed
    ensures Inv(LockUpgrade(s, t, row).state)
  {
    var x, q := s.txns[t], QueueOf(s, row);
    assert CellOK(s, t, row) && RowOK(s, row);
    if Refused(x) || (row !in x.exclusive && row in x.shared && q.upgrading) {
      StateChange(s, t, Aborted);
    } else if row !in x.exclusive && row in x.shared {
      var i := IndexOf(q.requests, t);
      var reqs := q.requests[i := Request(t, Exclusive, false)];
      forall u ensures OneEach(reqs) && IndexOf(reqs, u) == IndexOf(q.requests, u) { Updated(q.requests, i, reqs[i], u); }
      if CanExclude(reqs, t) {
        GrantCompatible(reqs, i);
        GrantKeeps(s, t, ForUpgrade(row), reqs, i, true);
        assert s.waiting - {t} == s.waiting;
      } else {
        PutKeeps(s, t, row, Queue(reqs, true), x, Some(ForUpgrade(row)));
        assert SetQueue(s, row, Queue(reqs, true)).(waiting := s.waiting[t := ForUpgrade(row)])
            == Put(s, t, row, Queue(reqs, true), x, Some(ForUpgrade(row)));
      }
    }
  }

  lemma WakeKeeps(s: State, t: TxnId)
    requires Inv(s) && t in s.txns && t in s.waiting
    ensures Inv(Wake(s, t).state)
  {
    var w, x := s.waiting[t], s.txns[t];
    var row := w.row;
    var q := QueueOf(s, row);
    assert CellOK(s, t, row) && RowOK(s, row);
    var i := IndexOf(q.requests, t);
    if x.state == Aborted {
      var reqs := Erase(q.requests, i);
      forall u ensures OneEach(reqs) && Find(reqs, u) == if u == t then None else Find(q.requests, u) { Erased(q.requests, i, u); }
      EraseCompatible(q.requests, i);
      var q' := Queue(reqs, if w.ForUpgrade? then false else q.upgrading);
      var x' := if w.ForUpgrade? then x.(shared := x.shared - {row}) else x;
      PutKeeps(s, t, row, q', x', None);
      assert Wake(s, t).state == Put(s, t, row, q', x', None);
    } else if CanProceed(w, q.requests, t) {
      GrantCompatible(q.requests, i);
      GrantKeeps(s, t, w, q.requests, i, q.upgrading);
      assert SetQueue(s, row, q).table == s.table;
    }
  }

  lemma EraseCompatible(reqs: seq<Request>, i: nat)
    requires i < |reqs| && Compatible(reqs)
    ensures Compatible(Erase(reqs, i))
  {
    var l := Erase(reqs, i);
    assert forall j :: 0 <= j < |l| ==> l[j] == reqs[if j < i then j else j + 1];
  }

  lemma UnlockKeeps(s: State, t: TxnId, row: Row)
    requires Inv(s) && t in s.txns && t !in s.waiting
    ensures Inv(Unlock(s, t, row).state)
  {
    assert CellOK(s, t, row) && RowOK(s, row);
    var q, x := QueueOf(s, row), s.txns[t];
    var i := IndexOf(q.requests, t);
    if row in s.table && i != -1 {
      var reqs := Erase(q.requests, i);
      forall u ensures OneEach(reqs) && Find(reqs, u) == if u == t then None else Find(q.requests, u) { Erased(q.requests, i, u); }
      EraseCompatible(q.requests, i);
      var st := if x.state == Growing then Shrinking else x.state;
      var x' := Txn(st, x.shared - {row}, x.exclusive - {row});
      PutKeeps(s, t, row, Queue(reqs, q.upgrading), x', None);
      assert Unlock(s, t, row).state == Put(s, t, row, Queue(reqs, q.upgrading), x', None);
    }
  }

  /** Every allowed step keeps the invariant. */
  lemma StepKeeps(s: State, step: Step)
    requires Inv(s) && Allowed(s, step)
    ensures Inv(Next(s, step).state)
  {
    match step
    case Begin(t) => BeginKeeps(s, t);
    case DoLockShared(t, row) =>
      if Refused(s.txns[t]) { StateChange(s, t, Aborted); }
      else if row !in s.txns[t].shared && row !in s.txns[t].exclusive { EnqueueKeeps(s, t, ForShared(row)); }
    case DoLockExclusive(t, row) =>
      if Refused(s.txns[t]) { StateChange(s, t, Aborted); }
      else if row !in s.txns[t].exclusive { EnqueueKeeps(s, t, ForExclusive(row)); }
    case DoLockUpgrade(t, row) => UpgradeKeeps(s, t, row);
    case DoWake(t) => WakeKeeps(s, t);
    case DoUnlock(t, row) => UnlockKeeps(s, t, row);
    case Finish(t, commit) => StateChange(s, t, if commit then Committed else Aborted);
    case Kill(t) => StateChange(s, t, Aborted);
    case Access(_, _, _) =>
  }

  /** The invariant holds after every run. */
  lemma {:induction false} Reachable(steps: seq<Step>)
    requires IsRun(steps)
    ensures Inv(After(steps))
    decreases |steps|
  {
    if steps == [] {
      StartInv();
    } else {
      Reachable(steps[..|steps| - 1]);
      StepKeeps(After(steps[..|steps| - 1]), steps[|steps| - 1]);
    }
  }
}
