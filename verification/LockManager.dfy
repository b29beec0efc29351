/** The lock manager and the transaction manager as objects, each call proved against its step of the state
    machine. A call that has to wait ends Blocked; Wake is the rest of that call, run when the thread is
    notified. */
module LockManager {
  import opened Wrappers
  import opened LockSpec
  import opened LockInvariant
  import opened LockTheorems
  import LockSerial

  class Transaction {
    const id: TxnId
    var state: TxnState
    var shared: set<Row>
    var exclusive: set<Row>

    constructor (id: TxnId)
      ensures this.id == id && Record() == Txn(Growing, {}, {})
    {
      this.id := id;
      state := Growing;
      shared, exclusive := {}, {};
    }

    function Record(): Txn
      reads this
    {
      Txn(state, shared, exclusive)
    }
  }

  class LockManager {
    var table: map<Row, Queue>
    // The threads asleep on a queue.
    var waiting: map<TxnId, Wait>

    constructor ()
      ensures table == map[] && waiting == map[]
    {
      table, waiting := map[], map[];
    }

    ghost predicate Registered(all: map<TxnId, Transaction>, txn: Transaction) {
      && txn.id in all && all[txn.id] == txn
      && forall t :: t in all ==> all[t].id == t
    }

    ghost function View(all: map<TxnId, Transaction>): State
      reads this, all.Values
    {
      State(map t | t in all :: all[t].Record(), table, waiting)
    }

    /** The condition the wait call tests: a scan of the other transactions' granted requests. */
    static method Check(w: Wait, reqs: seq<Request>, t: TxnId) returns (go: bool)
      ensures go == CanProceed(w, reqs, t)
    {
      for i := 0 to |reqs|
        invariant forall j :: 0 <= j < i && reqs[j].txn != t && reqs[j].granted ==> w.ForShared? && reqs[j].mode != Exclusive
      {
        if reqs[i].txn != t && reqs[i].granted && (!w.ForShared? || reqs[i].mode == Exclusive) {
          return false;
        }
      }
      return true;
    }

    /** The scan for the transaction's request. */
    static method Locate(reqs: seq<Request>, t: TxnId) returns (i: int)
      ensures i == IndexOf(reqs, t)
    {
      i := 0;
      while i < |reqs|
        invariant 0 <= i <= |reqs|
        invariant forall j :: 0 <= j < i ==> reqs[j].txn != t
      {
        if reqs[i].txn == t { return; }
        i := i + 1;
      }
      i := -1;
    }

    /** Lock calls of a shrinking transaction abort it; those of an aborted one just fail. */
    method RefuseIfOver(txn: Transaction, ghost all: map<TxnId, Transaction>) returns (refused: bool)
      requires Registered(all, txn)
      modifies txn`state
      ensures refused == Refused(old(txn.Record()))
      ensures View(all) == if refused then Refuse(old(View(all)), txn.id).state else old(View(all))
    {
      if txn.state == Shrinking {
        txn.state := Aborted;
        return true;
      }
      assert txn.state == Aborted ==> View(all).txns == View(all).txns[txn.id := txn.Record().(state := Aborted)];
      return txn.state == Aborted;
    }

    // Appends a request to the row's queue.
    method Enqueue(row: Row, r: Request, ghost all: map<TxnId, Transaction>) returns (i: nat)
      modifies this`table
      ensures i == |QueueOf(old(View(all)), row).requests|
      ensures row in table && i < |table[row].requests|
      ensures var q := QueueOf(old(View(all)), row);
        View(all) == SetQueue(old(View(all)), row, q.(requests := q.requests + [r]))
    {
      var q := if row in table then table[row] else NoQueue;
      i := |q.requests|;
      table := table[row := q.(requests := q.requests + [r])];
    }

    method LockShared(txn: Transaction, row: Row, ghost all: map<TxnId, Transaction>) returns (o: Outcome)
      requires Registered(all, txn)
      modifies this, txn
      ensures View(all) == LockSpec.LockShared(old(View(all)), txn.id, row).state
      ensures o == LockSpec.LockShared(old(View(all)), txn.id, row).outcome
    {
      var refused := RefuseIfOver(txn, all);
      if refused { return Returned(false); }
      if row in txn.shared || row in txn.exclusive { return Returned(true); }
      var i := Enqueue(row, Request(txn.id, Shared, false), all);
      o := GrantOrSleep(txn, ForShared(row), i, all);
    }

    method LockExclusive(txn: Transaction, row: Row, ghost all: map<TxnId, Transaction>) returns (o: Outcome)
      requires Registered(all, txn)
      modifies this, txn
      ensures View(all) == LockSpec.LockExclusive(old(View(all)), txn.id, row).state
      ensures o == LockSpec.LockExclusive(old(View(all)), txn.id, row).outcome
    {
      var refused := RefuseIfOver(txn, all);
      if refused { return Returned(false); }
      if row in txn.exclusive { return Returned(true); }
      var i := Enqueue(row, Request(txn.id, Exclusive, false), all);
      o := GrantOrSleep(txn, ForExclusive(row), i, all);
    }

    method LockUpgrade(txn: Transaction, row: Row, ghost all: map<TxnId, Transaction>) returns (o: Outcome)
      requires Registered(all, txn)
      modifies this, txn
      ensures View(all) == LockSpec.LockUpgrade(old(View(all)), txn.id, row).state
      ensures o == LockSpec.LockUpgrade(old(View(all)), txn.id, row).outcome
    {
      var refused := RefuseIfOver(txn, all);
      if refused { return Returned(false); }
      if row in txn.exclusive { return Returned(true); }
      if row !in txn.shared { return Returned(false); }
      var q := if row in table then table[row] else NoQueue;
      if q.upgrading {
        txn.state := Aborted;
        return Returned(false);
      }
      var i := MarkUpgrade(txn.id, row, q, all);
      if i == -1 { return Returned(false); }
      o := GrantOrSleep(txn, ForUpgrade(row), i, all);
    }

    // Sets the upgrade flag and turns the request into an exclusive one, no longer granted.
    method MarkUpgrade(t: TxnId, row: Row, q: Queue, ghost all: map<TxnId, Transaction>) returns (i: int)
      requires q == QueueOf(View(all), row) && !q.upgrading
      modifies this`table
      ensures i == IndexOf(q.requests, t) && row in table && (i != -1 ==> i < |table[row].requests|)
      ensures View(all) == SetQueue(old(View(all)), row,
        if i == -1 then q else Queue(q.requests[i := Request(t, Exclusive, false)], true))
    {
      var reqs := q.requests;
      i := Locate(reqs, t);
      if i == -1 {
        table := table[row := q.(upgrading := false)];
      } else {
        table := table[row := Queue(reqs[i := Request(t, Exclusive, false)], true)];
      }
    }

    // The wait call, and what follows it when the condition holds at once.
    method GrantOrSleep(txn: Transaction, w: Wait, i: nat, ghost all: map<TxnId, Transaction>) returns (o: Outcome)
      requires Registered(all, txn) && w.row in table && i < |table[w.row].requests|
      modifies this, txn
      ensures View(all) == GrantOrWait(old(View(all)), txn.id, w, i).state
      ensures o == GrantOrWait(old(View(all)), txn.id, w, i).outcome
    {
      var go := Check(w, table[w.row].requests, txn.id);
      if go {
        Enter(txn, w, i, all);
        o := Returned(true);
      } else {
        waiting := waiting[txn.id := w];
        o := Blocked;
      }
    }

    // Marks the request granted and records the lock.
    method Enter(txn: Transaction, w: Wait, i: nat, ghost all: map<TxnId, Transaction>)
      requires Registered(all, txn) && w.row in table && i < |table[w.row].requests|
      modifies this`table, txn`shared, txn`exclusive
      ensures View(all) == Grant(old(View(all)), txn.id, w, i)
    {
      var q := table[w.row];
      if w.ForUpgrade? { q := q.(upgrading := false); }
      q := q.(requests := q.requests[i := q.requests[i].(granted := true)]);
      table := table[w.row := q];
      match w {
        case ForShared(row) => txn.shared := txn.shared + {row};
        case ForExclusive(row) => txn.exclusive := txn.exclusive + {row};
        case ForUpgrade(row) =>
          txn.shared := txn.shared - {row};
          txn.exclusive := txn.exclusive + {row};
      }
      assert View(all).txns == old(View(all)).txns[txn.id := txn.Record()];
    }

    // An aborted waiter takes its request back.
    method GiveUp(txn: Transaction, w: Wait, q: Queue, i: nat, ghost all: map<TxnId, Transaction>)
      requires Registered(all, txn) && txn.id in waiting && w == waiting[txn.id]
      requires q == QueueOf(View(all), w.row) && i == IndexOf(q.requests, txn.id) && txn.state == Aborted
      modifies this, txn`shared
      ensures View(all) == LockSpec.Wake(old(View(all)), txn.id).state
    {
      waiting := waiting - {txn.id};
      var q' := q;
      if w.ForUpgrade? {
        q' := q'.(upgrading := false);
        txn.shared := txn.shared - {w.row};
      }
      table := table[w.row := q'.(requests := q'.requests[..i] + q'.requests[i + 1..])];
      assert View(all).txns == old(View(all)).txns[txn.id := txn.Record()];
    }

    // A woken thread tries again; `notified` tells whether it wakes the row's other waiters.
    method Wake(txn: Transaction, ghost all: map<TxnId, Transaction>) returns (o: Outcome, notified: bool)
      requires Registered(all, txn) && txn.id in waiting
      modifies this, txn
      ensures View(all) == LockSpec.Wake(old(View(all)), txn.id).state
      ensures o == LockSpec.Wake(old(View(all)), txn.id).outcome
      ensures notified == LockSpec.Wake(old(View(all)), txn.id).notified
    {
      var w := waiting[txn.id];
      var q := if w.row in table then table[w.row] else NoQueue;
      var i := Locate(q.requests, txn.id);
      if i == -1 { return Blocked, false; }
      if txn.state == Aborted {
        GiveUp(txn, w, q, i, all);
        return Returned(false), true;
      }
      var go := Check(w, q.requests, txn.id);
      if !go { return Blocked, false; }
      ghost var s := View(all);
      waiting := waiting - {txn.id};
      assert View(all) == s.(waiting := s.waiting - {txn.id});
      Enter(txn, w, i, all);
      o, notified := Returned(true), false;
    }

    // A request that goes wakes the row's waiters.
    method Unlock(txn: Transaction, row: Row, ghost all: map<TxnId, Transaction>) returns (ok: bool, notified: bool)
      requires Registered(all, txn)
      modifies this`table, txn
      ensures View(all) == LockSpec.Unlock(old(View(all)), txn.id, row).state
      ensures Returned(ok) == LockSpec.Unlock(old(View(all)), txn.id, row).outcome
      ensures notified == LockSpec.Unlock(old(View(all)), txn.id, row).notified
    {
      if row !in table { return false, false; }
      var q := table[row];
      var i := Locate(q.requests, txn.id);
      if i == -1 { return false, false; }
      if q.upgrading && q.requests[i].mode == Exclusive && !q.requests[i].granted {
        q := q.(upgrading := false);
      }
      table := table[row := q.(requests := q.requests[..i] + q.requests[i + 1..])];
      if txn.state == Growing { txn.state := Shrinking; }
      txn.shared := txn.shared - {row};
      txn.exclusive := txn.exclusive - {row};
      assert View(all).txns == old(View(all)).txns[txn.id := txn.Record()];
      return true, true;
    }
  }

  class TransactionManager {
    const locks: LockManager
    var nextId: TxnId
    var txns: map<TxnId, Transaction>

    ghost predicate Valid()
      reads this
    {
      forall t :: t in txns ==> t < nextId && txns[t].id == t
    }

    ghost function View(): State
      reads this, locks, txns.Values
    {
      locks.View(txns)
    }

    constructor (locks: LockManager)
      requires locks.table == map[] && locks.waiting == map[]
      ensures Valid() && View() == Start && this.locks == locks
    {
      this.locks := locks;
      nextId := 0;
      txns := map[];
    }

    /** A fresh identifier, and a growing transaction without locks. */
    method Begin() returns (txn: Transaction)
      requires Valid()
      modifies this
      ensures Valid() && fresh(txn)
      ensures Allowed(old(View()), Step.Begin(txn.id)) && View() == Next(old(View()), Step.Begin(txn.id)).state
      ensures txns == old(txns)[txn.id := txn]
    {
      txn := new Transaction(nextId);
      nextId := nextId + 1;
      txns := txns[txn.id := txn];
    }

    method Commit(txn: Transaction)
      requires Valid() && txn.id in txns && txns[txn.id] == txn && Inv(View()) && txn.id !in locks.waiting
      modifies locks`table, txn
      ensures Released(old(View()), View(), txn.id, Committed)
    {
      Release(txn, Committed);
    }

    method Abort(txn: Transaction)
      requires Valid() && txn.id in txns && txns[txn.id] == txn && Inv(View()) && txn.id !in locks.waiting
      modifies locks`table, txn
      ensures Released(old(View()), View(), txn.id, Aborted)
    {
      Release(txn, Aborted);
    }

    /** Sets the state, unlocks a snapshot of the shared set and then of the exclusive set, clears both. */
    method Release(txn: Transaction, st: TxnState)
      requires Valid() && txn.id in txns && txns[txn.id] == txn && Inv(View()) && txn.id !in locks.waiting
      requires st in {Committed, Aborted}
      modifies locks`table, txn
      ensures Released(old(View()), View(), txn.id, st)
    {
      ghost var before := View();
      SetState(txn, st);
      UnlockBoth(txn, before, st);
      ClearSets(txn);
    }

    // The sets are empty by now.
    method ClearSets(txn: Transaction)
      requires txn.shared == {} && txn.exclusive == {}
      modifies txn
      ensures View() == old(View()) && Valid() == old(Valid())
    {
      ghost var s := View();
      txn.shared, txn.exclusive := {}, {};
      assert View().txns == s.txns;
    }

    method SetState(txn: Transaction, st: TxnState)
      requires Valid() && txn.id in txns && txns[txn.id] == txn && Inv(View()) && txn.id !in locks.waiting
      requires st in {Committed, Aborted}
      modifies txn`state
      ensures Cleared(old(View()), View(), txn.id, st, {})
    {
      ghost var before := View();
      ReleaseStart(before, txn.id, st);
      txn.state := st;
      assert View().txns == before.txns[txn.id := txn.Record()];
    }

    method UnlockBoth(txn: Transaction, ghost before: State, ghost st: TxnState)
      requires Valid() && txn.id in txns && txns[txn.id] == txn && Cleared(before, View(), txn.id, st, {})
      modifies locks`table, txn
      ensures Released(before, View(), txn.id, st) && txn.shared == {} && txn.exclusive == {}
    {
      ghost var shared := txn.shared;
      assert View().txns[txn.id] == txn.Record();
      UnlockAll(txn, txn.shared, before, st, {});
      assert View().txns[txn.id] == txn.Record();
      ghost var gone := {} + shared + txn.exclusive;
      UnlockAll(txn, txn.exclusive, before, st, {} + shared);
      assert View().txns[txn.id] == txn.Record();
      AllGone(before, View(), txn.id, st, gone);
    }

    // Unlocks the rows of a snapshot, in any order.
    method UnlockAll(txn: Transaction, rows: set<Row>, ghost before: State, ghost st: TxnState, ghost gone: set<Row>)
      requires Valid() && txn.id in txns && txns[txn.id] == txn && Cleared(before, View(), txn.id, st, gone)
      modifies locks`table, txn
      ensures Cleared(before, View(), txn.id, st, gone + rows)
    {
      var todo := rows;
      ghost var done := gone;
      while todo != {}
        invariant done + todo == gone + rows && Cleared(before, View(), txn.id, st, done)
        decreases |todo|
      {
        var row :| row in todo;
        ClearedStep(before, View(), txn.id, row, st, done);
        var _, _ := locks.Unlock(txn, row, txns);
        todo, done := todo - {row}, done + {row};
      }
      assert done == gone + rows;
    }
  }

  /** The state between the first line of a commit or abort and its end. */
  ghost predicate Releasing(before: State, s: State, t: TxnId, st: TxnState) {
    && Inv(s) && t in s.txns && s.txns[t].state == st
    && s.txns.Keys == before.txns.Keys && s.waiting == before.waiting && t !in s.waiting
    && (forall u :: u in s.txns && u != t ==> s.txns[u] == before.txns[u])
    && (forall u, row {:trigger RequestOf(s, u, row)} :: u != t ==> RequestOf(s, u, row) == RequestOf(before, u, row))
  }

  // The rows already given back.
  ghost predicate Cleared(before: State, s: State, t: TxnId, st: TxnState, gone: set<Row>) {
    && Releasing(before, s, t, st) && st in {Committed, Aborted} && t in before.txns
    && s.txns[t].shared == before.txns[t].shared - gone && s.txns[t].exclusive == before.txns[t].exclusive - gone
  }

  lemma ClearedStep(before: State, s: State, t: TxnId, row: Row, st: TxnState, gone: set<Row>)
    requires Cleared(before, s, t, st, gone)
    ensures Cleared(before, LockSpec.Unlock(s, t, row).state, t, st, gone + {row})
  {
    ReleaseStep(before, s, t, row, st);
  }

  lemma AllGone(before: State, s: State, t: TxnId, st: TxnState, gone: set<Row>)
    requires Cleared(before, s, t, st, gone) && s.txns[t].exclusive + s.txns[t].shared <= gone
    ensures Released(before, s, t, st)
  {
    assert s.txns[t].shared == {} && s.txns[t].exclusive == {};
    ReleaseEnd(before, s, t, st);
  }

  /** What commit and abort promise: no request of the transaction is left and its sets are empty, nothing
      else changes, and the invariant holds. */
  ghost predicate Released(before: State, s: State, t: TxnId, st: TxnState) {
    && Releasing(before, s, t, st)
    && s.txns[t] == Txn(st, {}, {})
    && forall row {:trigger RequestOf(s, t, row)} :: RequestOf(s, t, row) == None
  }

  lemma ReleaseStart(before: State, t: TxnId, st: TxnState)
    requires Inv(before) && t in before.txns && t !in before.waiting
    ensures Releasing(before, SetTxn(before, t, before.txns[t].(state := st)), t, st)
  {
    StateChange(before, t, st);
  }

  lemma ReleaseEnd(before: State, s: State, t: TxnId, st: TxnState)
    requires Releasing(before, s, t, st) && s.txns[t] == Txn(st, {}, {})
    ensures Released(before, s, t, st)
  {
    forall row ensures RequestOf(s, t, row) == None { assert CellOK(s, t, row); }
  }

  lemma ReleaseStep(before: State, s: State, t: TxnId, row: Row, st: TxnState)
    requires Releasing(before, s, t, st) && st in {Committed, Aborted}
    ensures var s' := LockSpec.Unlock(s, t, row).state;
      && Releasing(before, s', t, st)
      && s'.txns[t].shared == s.txns[t].shared - {row} && s'.txns[t].exclusive == s.txns[t].exclusive - {row}
  {
    var step := DoUnlock(t, row);
    var s' := Next(s, step).state;
    StepKeeps(s, step);
    assert CellOK(s, t, row);
    forall u, r | u != t ensures RequestOf(s', u, r) == RequestOf(before, u, r) { OthersRequest(s, step, u, r); }
    forall u | u in s'.txns && u != t ensures s'.txns[u] == before.txns[u] { LockSerial.OthersRecord(s, step, u); }
  }
}
