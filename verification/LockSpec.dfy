/** The lock manager as a state machine: one step per critical section under its latch.

    A lock call that cannot be granted at once ends its critical section blocked; the thread's
    wake-ups are steps of their own, each checking the waiting condition again. */
module LockSpec {
  import opened Rids

  // Rows are locked by their identifiers.
  type Row = RID
  type TxnId = nat

  datatype Mode = Shared | Exclusive
  datatype Request = Request(txn: TxnId, mode: Mode, granted: bool)
  datatype Queue = Queue(requests: seq<Request>, upgrading: bool)

  datatype TxnState = Growing | Shrinking | Committed | Aborted
  datatype Txn = Txn(state: TxnState, shared: set<Row>, exclusive: set<Row>)

  // Where a blocked thread waits.
  datatype Wait = ForShared(row: Row) | ForExclusive(row: Row) | ForUpgrade(row: Row)

  datatype State = State(txns: map<TxnId, Txn>, table: map<Row, Queue>, waiting: map<TxnId, Wait>)

  datatype Outcome = Returned(ok: bool) | Blocked

  // A step's new state, what the caller sees, and whether the row's waiters were notified.
  datatype Result = Result(state: State, outcome: Outcome, notified: bool)

  const NoQueue := Queue([], false)
  const Start := State(map[], map[], map[])

  function QueueOf(s: State, row: Row): Queue {
    if row in s.table then s.table[row] else NoQueue
  }

  function SetTxn(s: State, t: TxnId, x: Txn): State {
    s.(txns := s.txns[t := x])
  }

  function SetQueue(s: State, row: Row, q: Queue): State {
    s.(table := s.table[row := q])
  }

  // ---------- Request lists ----------

  /** The first request of a transaction, or -1. */
  function IndexOf(reqs: seq<Request>, t: TxnId): (i: int)
    ensures -1 <= i < |reqs|
    ensures i >= 0 ==> reqs[i].txn == t
    ensures forall j :: 0 <= j < |reqs| && (i == -1 || j < i) ==> reqs[j].txn != t
  {
    if reqs == [] then -1
    else if reqs[0].txn == t then 0
    else
      var i := IndexOf(reqs[1..], t);
      assert forall j :: 1 <= j < |reqs| ==> reqs[j] == reqs[1..][j - 1];
      if i == -1 then -1 else i + 1
  }

  function Erase(reqs: seq<Request>, i: nat): seq<Request>
    requires i < |reqs|
  {
    reqs[..i] + reqs[i + 1..]
  }

  /** No other transaction has been granted an exclusive request. */
  predicate CanShare(reqs: seq<Request>, t: TxnId) {
    forall i :: 0 <= i < |reqs| && reqs[i].txn != t && reqs[i].granted ==> reqs[i].mode != Exclusive
  }

  /** No other transaction has been granted any request. */
  predicate CanExclude(reqs: seq<Request>, t: TxnId) {
    forall i :: 0 <= i < |reqs| && reqs[i].txn != t ==> !reqs[i].granted
  }

  predicate CanProceed(w: Wait, reqs: seq<Request>, t: TxnId) {
    if w.ForShared? then CanShare(reqs, t) else CanExclude(reqs, t)
  }

  // ---------- Steps ----------

  // The lock sets after a grant.
  function Granted(x: Txn, w: Wait): Txn {
    match w
    case ForShared(row) => x.(shared := x.shared + {row})
    case ForExclusive(row) => x.(exclusive := x.exclusive + {row})
    case ForUpgrade(row) => x.(shared := x.shared - {row}, exclusive := x.exclusive + {row})
  }

  /** Marks request i granted and enters the row in the transaction's lock sets. */
  function Grant(s: State, t: TxnId, w: Wait, i: nat): State
    requires t in s.txns && i < |QueueOf(s, w.row).requests|
  {
    var q := QueueOf(s, w.row);
    var q' := Queue(q.requests[i := q.requests[i].(granted := true)], if w.ForUpgrade? then false else q.upgrading);
    SetTxn(SetQueue(s, w.row, q'), t, Granted(s.txns[t], w))
  }

  /** The request is in place: granted if the condition holds, otherwise the thread waits. */
  function GrantOrWait(s: State, t: TxnId, w: Wait, i: nat): Result
    requires t in s.txns && i < |QueueOf(s, w.row).requests|
  {
    if CanProceed(w, QueueOf(s, w.row).requests, t) then Result(Grant(s, t, w, i), Returned(true), false)
    else Result(s.(waiting := s.waiting[t := w]), Blocked, false)
  }

  // Lock calls are refused while shrinking, which aborts, and when aborted.
  predicate Refused(x: Txn) {
    x.state == Shrinking || x.state == Aborted
  }

  function Refuse(s: State, t: TxnId): Result
    requires t in s.txns
  {
    Result(SetTxn(s, t, s.txns[t].(state := Aborted)), Returned(false), false)
  }

  function LockShared(s: State, t: TxnId, row: Row): Result
    requires t in s.txns
  {
    var x := s.txns[t];
    if Refused(x) then Refuse(s, t)
    else if row in x.shared || row in x.exclusive then Result(s, Returned(true), false)
    else
      var q := QueueOf(s, row);
      GrantOrWait(SetQueue(s, row, q.(requests := q.requests + [Request(t, Shared, false)])), t, ForShared(row), |q.requests|)
  }

  function LockExclusive(s: State, t: TxnId, row: Row): Result
    requires t in s.txns
  {
    var x := s.txns[t];
    if Refused(x) then Refuse(s, t)
    else if row in x.exclusive then Result(s, Returned(true), false)
    else
      var q := QueueOf(s, row);
      GrantOrWait(SetQueue(s, row, q.(requests := q.requests + [Request(t, Exclusive, false)])), t, ForExclusive(row), |q.requests|)
  }

  /** The request itself is turned into an exclusive one, no longer granted. */
  function LockUpgrade(s: State, t: TxnId, row: Row): Result
    requires t in s.txns
  {
    var x := s.txns[t];
    if Refused(x) then Refuse(s, t)
    else if row in x.exclusive then Result(s, Returned(true), false)
    else if row !in x.shared then Result(s, Returned(false), false)
    else
      var q := QueueOf(s, row);
      if q.upgrading then Refuse(s, t)
      else
        var i := IndexOf(q.requests, t);
        if i == -1 then Result(SetQueue(s, row, q), Returned(false), false)
        else GrantOrWait(SetQueue(s, row, Queue(q.requests[i := Request(t, Exclusive, false)], true)), t, ForUpgrade(row), i)
  }

  /** A blocked thread wakes: it gives up if aborted, goes on if its condition holds, or waits again. */
  function Wake(s: State, t: TxnId): Result
    requires t in s.txns && t in s.waiting
  {
    var w, x := s.waiting[t], s.txns[t];
    var q := QueueOf(s, w.row);
    var i := IndexOf(q.requests, t);
    var s1 := s.(waiting := s.waiting - {t});
    if i == -1 then Result(s, Blocked, false)
    else if x.state == Aborted then
      var q' := Queue(Erase(q.requests, i), if w.ForUpgrade? then false else q.upgrading);
      var x' := if w.ForUpgrade? then x.(shared := x.shared - {w.row}) else x;
      Result(SetTxn(SetQueue(s1, w.row, q'), t, x'), Returned(false), true)
    else if CanProceed(w, q.requests, t) then Result(Grant(s1, t, w, i), Returned(true), false)
    else Result(s, Blocked, false)
  }

  function Unlock(s: State, t: TxnId, row: Row): Result
    requires t in s.txns
  {
    if row !in s.table then Result(s, Returned(false), false)
    else
      var q, x := s.table[row], s.txns[t];
      var i := IndexOf(q.requests, t);
      if i == -1 then Result(s, Returned(false), false)
      else
        var r := q.requests[i];
        var up := if q.upgrading && r.mode == Exclusive && !r.granted then false else q.upgrading;
        var st := if x.state == Growing then Shrinking else x.state;
        Result(SetTxn(SetQueue(s, row, Queue(Erase(q.requests, i), up)), t, Txn(st, x.shared - {row}, x.exclusive - {row})),
               Returned(true), true)
  }

  // ---------- Runs ----------

  /** The steps of a run. Finish is the first line of Commit or Abort; the unlocks that follow are
      steps of their own. Kill is an abort from outside that only sets the state. Access is the
      transaction reading or writing the row. */
  datatype Step =
    | Begin(t: TxnId)
    | DoLockShared(t: TxnId, row: Row)
    | DoLockExclusive(t: TxnId, row: Row)
    | DoLockUpgrade(t: TxnId, row: Row)
    | DoWake(t: TxnId)
    | DoUnlock(t: TxnId, row: Row)
    | Finish(t: TxnId, commit: bool)
    | Kill(t: TxnId)
    | Access(t: TxnId, row: Row, write: bool)

  predicate Holds(s: State, t: TxnId, row: Row, write: bool) {
    t in s.txns && (row in s.txns[t].exclusive || (!write && row in s.txns[t].shared))
  }

  /** What clients may do: one thread per transaction, no lock calls after commit, an upgrade is asked
      for as an upgrade, and rows are accessed under a held lock. */
  predicate Allowed(s: State, step: Step) {
    match step
    case Begin(t) => t !in s.txns
    case DoLockShared(t, row) => t in s.txns && t !in s.waiting && s.txns[t].state != Committed
    case DoLockExclusive(t, row) =>
      t in s.txns && t !in s.waiting && s.txns[t].state != Committed && (Refused(s.txns[t]) || row !in s.txns[t].shared)
    case DoLockUpgrade(t, row) => t in s.txns && t !in s.waiting && s.txns[t].state != Committed
    case DoWake(t) => t in s.txns && t in s.waiting
    case DoUnlock(t, row) => t in s.txns && t !in s.waiting
    case Finish(t, _) => t in s.txns && t !in s.waiting
    case Kill(t) => t in s.txns && s.txns[t].state != Committed
    case Access(t, row, write) => t !in s.waiting && Holds(s, t, row, write)
  }

  function Next(s: State, step: Step): Result
    requires Allowed(s, step)
  {
    match step
    case Begin(t) => Result(SetTxn(s, t, Txn(Growing, {}, {})), Returned(true), false)
    case DoLockShared(t, row) => LockShared(s, t, row)
    case DoLockExclusive(t, row) => LockExclusive(s, t, row)
    case DoLockUpgrade(t, row) => LockUpgrade(s, t, row)
    case DoWake(t) => Wake(s, t)
    case DoUnlock(t, row) => Unlock(s, t, row)
    case Finish(t, commit) => Result(SetTxn(s, t, s.txns[t].(state := if commit then Committed else Aborted)), Returned(true), false)
    case Kill(t) => Result(SetTxn(s, t, s.txns[t].(state := Aborted)), Returned(true), false)
    case Access(_, _, _) => Result(s, Returned(true), false)
  }

  /** A run: each step allowed in the state the steps before it lead to. */
  ghost predicate IsRun(steps: seq<Step>)
    decreases |steps|, 0
  {
    steps == [] || (IsRun(steps[..|steps| - 1]) && Allowed(After(steps[..|steps| - 1]), steps[|steps| - 1]))
  }

  ghost function After(steps: seq<Step>): State
    requires IsRun(steps)
    decreases |steps|, 1
  {
    if steps == [] then Start else Next(After(steps[..|steps| - 1]), steps[|steps| - 1]).state
  }
}
