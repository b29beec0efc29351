/** Where an upgrade has to wait: the shared lock no longer protects the row, and a run that is not
    serializable. */
module LockExample {
  import opened Wrappers
  import opened Rids
  import opened LockSpec
  import opened LockInvariant
  import opened LockTheorems
  import opened LockSerial
  import opened LockExact

  /** An upgrade keeps the transaction's grant on the row exactly when it does not have to wait, that is
      when no other transaction has a grant there. */
  lemma UpgradeKeepsGrant(s: State, t: TxnId, row: Row)
    requires Inv(s) && t in s.txns && t !in s.waiting && s.txns[t].state == Growing
    requires RequestOf(s, t, row) == Some(Request(t, Shared, true)) && !QueueOf(s, row).upgrading
    ensures var r := LockUpgrade(s, t, row);
      && (IsGranted(r.state, t, row) <==> r.outcome != Blocked)
      && (IsGranted(r.state, t, row) <==> forall u :: u != t ==> !IsGranted(s, u, row))
  {
    var s' := LockUpgrade(s, t, row).state;
    assert CellOK(s, t, row) && RowOK(s, row);
    UpgradeKeeps(s, t, row);
    assert CellOK(s', t, row) && RowOK(s', row);
    var reqs, i := QueueOf(s, row).requests, IndexOf(QueueOf(s, row).requests, t);
    Updated(reqs, i, Request(t, Exclusive, false), t);
    OwnGrantKept(s, DoLockUpgrade(t, row), row);
    ProceedMeans(s, ForUpgrade(row), t);
    forall u ensures Blocks(s, ForUpgrade(row), u) == IsGranted(s, u, row) {}
    assert forall j :: 0 <= j < |reqs| && j != i ==> reqs[i := Request(t, Exclusive, false)][j] == reqs[j];
    assert CanExclude(reqs, t) == CanExclude(reqs[i := Request(t, Exclusive, false)], t);
  }

  /** A row in t's shared set keeps another transaction from locking it exclusively, except when t is
      waiting to upgrade on it and nobody else has a grant. */
  lemma SharedProtects(s: State, t: TxnId, u: TxnId, row: Row)
    requires Inv(s) && t in s.txns && row in s.txns[t].shared && u != t
    requires u in s.txns && u !in s.waiting && s.txns[u].state == Growing
    requires row !in s.txns[u].shared && row !in s.txns[u].exclusive
    ensures LockExclusive(s, u, row).outcome == (
      if Upgrading(s, t, row) && forall v :: v != u ==> !IsGranted(s, v, row) then Returned(true) else Blocked)
  {
    assert CellOK(s, t, row) && CellOK(s, u, row) && RowOK(s, row);
    var q := QueueOf(s, row);
    ProceedMeans(s, ForExclusive(row), u);
    forall v ensures Blocks(s, ForExclusive(row), v) == IsGranted(s, v, row) {}
    var next := q.requests + [Request(u, Exclusive, false)];
    assert next[|q.requests|].txn == u && forall j :: 0 <= j < |q.requests| ==> next[j] == q.requests[j];
    assert CanExclude(next, u) == CanExclude(q.requests, u);
  }

  const A: Row := RID(1, 0)

  const New := Txn(Growing, {}, {})
  const Reader := Txn(Growing, {A}, {})
  const Writer := Txn(Growing, {}, {A})
  const Done := Txn(Committed, {}, {})
  const S1 := Request(1, Shared, true)
  const S2 := Request(2, Shared, true)
  const X1 := Request(1, Exclusive, false)
  const X3 := Request(3, Exclusive, true)

  /** The steps of the run: 1 and 2 read the row, 1 asks to upgrade and waits, 2 commits, 3 comes and
      writes before 1 does. */
  function Act(n: nat): Step {
    match n
    case 0 => Begin(1)
    case 1 => Begin(2)
    case 2 => Begin(3)
    case 3 => DoLockShared(1, A)
    case 4 => DoLockShared(2, A)
    case 5 => Access(1, A, false)
    case 6 => DoLockUpgrade(1, A)
    case 7 => Finish(2, true)
    case 8 => DoUnlock(2, A)
    case 9 => DoLockExclusive(3, A)
    case 10 => Access(3, A, true)
    case 11 => Finish(3, true)
    case 12 => DoUnlock(3, A)
    case 13 => DoWake(1)
    case _ => Access(1, A, true)
  }

  // The state before step n.
  function At(n: nat): State {
    match n
    case 0 => Start
    case 1 => State(map[1 := New], map[], map[])
    case 2 => State(map[1 := New, 2 := New], map[], map[])
    case 3 => State(map[1 := New, 2 := New, 3 := New], map[], map[])
    case 4 => State(map[1 := Reader, 2 := New, 3 := New], map[A := Queue([S1], false)], map[])
    case 5 => State(map[1 := Reader, 2 := Reader, 3 := New], map[A := Queue([S1, S2], false)], map[])
    case 6 => State(map[1 := Reader, 2 := Reader, 3 := New], map[A := Queue([S1, S2], false)], map[])
    case 7 => State(map[1 := Reader, 2 := Reader, 3 := New], map[A := Queue([X1, S2], true)], map[1 := ForUpgrade(A)])
    case 8 => State(map[1 := Reader, 2 := Txn(Committed, {A}, {}), 3 := New], map[A := Queue([X1, S2], true)], map[1 := ForUpgrade(A)])
    case 9 => State(map[1 := Reader, 2 := Done, 3 := New], map[A := Queue([X1], true)], map[1 := ForUpgrade(A)])
    case 10 => State(map[1 := Reader, 2 := Done, 3 := Writer], map[A := Queue([X1, X3], true)], map[1 := ForUpgrade(A)])
    case 11 => State(map[1 := Reader, 2 := Done, 3 := Writer], map[A := Queue([X1, X3], true)], map[1 := ForUpgrade(A)])
    case 12 => State(map[1 := Reader, 2 := Done, 3 := Txn(Committed, {}, {A})], map[A := Queue([X1, X3], true)], map[1 := ForUpgrade(A)])
    case 13 => State(map[1 := Reader, 2 := Done, 3 := Done], map[A := Queue([X1], true)], map[1 := ForUpgrade(A)])
    case _ => State(map[1 := Writer, 2 := Done, 3 := Done], map[A := Queue([Request(1, Exclusive, true)], false)], map[])
  }

  function Acts(n: nat): (steps: seq<Step>)
    ensures |steps| == n && forall k {:trigger steps[k]} :: 0 <= k < n ==> steps[k] == Act(k)
  {
    if n == 0 then [] else Acts(n - 1) + [Act(n - 1)]
  }

  // Each step leads from its state to the next one.
  ghost predicate StepsTo(n: nat) {
    Allowed(At(n), Act(n)) && Next(At(n), Act(n)).state == At(n + 1)
  }

  lemma Begins()
    ensures StepsTo(0) && StepsTo(1) && StepsTo(2)
  {
  }

  lemma Reads()
    ensures StepsTo(3) && StepsTo(4) && StepsTo(5)
  {
    var r, r' := LockShared(At(3), 1, A).state, LockShared(At(4), 2, A).state;
    assert r.table[A].requests == [S1] && r.txns[1].shared == {A};
    assert r.table == At(4).table && r.txns == At(4).txns;
    assert r'.table[A].requests == [S1, S2] && r'.txns[2].shared == {A};
    assert r'.table == At(5).table && r'.txns == At(5).txns;
  }

  lemma Upgrades()
    ensures StepsTo(6)
  {
    assert [S1, S2][0 := X1] == [X1, S2] && [X1, S2][1].granted;
  }

  lemma Leaves(n: nat)
    requires n in {7, 11}
    ensures StepsTo(n)
  {
    var r := Next(At(n), Act(n)).state;
    assert r.txns == At(n + 1).txns;
  }

  lemma Unlocks(n: nat)
    requires n in {8, 12}
    ensures StepsTo(n)
  {
    var r := Next(At(n), Act(n)).state;
    assert IndexOf([X1, S2], 2) == 1 && IndexOf([X1, X3], 3) == 1;
    assert Erase([X1, S2], 1) == [X1] && Erase([X1, X3], 1) == [X1];
    assert {A} - {A} == {} && {} - {A} == {};
    assert r.txns == At(n + 1).txns && r.table == At(n + 1).table;
  }

  lemma Overtakes()
    ensures StepsTo(9) && StepsTo(10)
  {
    var r := LockExclusive(At(9), 3, A).state;
    assert r.table[A].requests == [X1, X3] && r.txns[3].exclusive == {A};
    assert r.table == At(10).table && r.txns == At(10).txns;
  }

  lemma Wakes()
    ensures StepsTo(13) && StepsTo(14)
  {
    var r := Wake(At(13), 1).state;
    assert r.table[A].requests == [Request(1, Exclusive, true)];
    assert r.txns[1].shared == {} && r.txns[1].exclusive == {A};
    assert r.table == At(14).table && r.txns == At(14).txns && r.waiting == At(14).waiting;
  }

  lemma {:induction false} Traced(n: nat)
    requires n <= 15
    ensures IsRun(Acts(n)) && After(Acts(n)) == At(n)
  {
    if n > 0 {
      Traced(n - 1);
      assert Acts(n)[..n - 1] == Acts(n - 1);
      assert StepsTo(n - 1) by {
        if n <= 3 { Begins(); } else if n <= 6 { Reads(); } else if n == 7 { Upgrades(); }
        else if n in {8, 12} { Leaves(n - 1); } else if n in {9, 13} { Unlocks(n - 1); }
        else if n in {10, 11} { Overtakes(); } else { Wakes(); }
      }
    }
  }

  lemma CycleOvertakes(steps: seq<Step>, t: TxnId, u: TxnId)
    requires IsRun(steps) && Precedes(steps, t, u) && Precedes(steps, u, t)
    ensures !NeverOvertaken(steps)
  {
    if NeverOvertaken(steps) { NoCycle(steps, [t, u, t]); }
  }

  lemma TheRun(n: nat) returns (steps: seq<Step>)
    requires n == 15
    ensures IsRun(steps) && Precedes(steps, 1, 3) && Precedes(steps, 3, 1)
  {
    steps := Acts(n);
    Traced(n);
    HasCycle(steps, 5, 10, 14);
  }

  /** A waiting upgrade can lose another transaction's write: the run is allowed, and its precedence graph
      has a cycle. */
  lemma WaitingUpgradeBreaks()
    ensures exists steps :: IsRun(steps) && !NeverOvertaken(steps) && Precedes(steps, 1, 3) && Precedes(steps, 3, 1)
  {
    var steps := TheRun(15);
    CycleOvertakes(steps, 1, 3);
  }
}
