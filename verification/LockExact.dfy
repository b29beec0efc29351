/** When the lock manager keeps runs serializable, exactly: from a run in which a transaction waiting to
    upgrade is overtaken one gets, with the same lock steps, a run whose precedence graph has a cycle. */
module LockExact {
  import opened LockSpec
  import opened LockInvariant
  import opened LockSerial

  // ---------- Extending a run ----------

  lemma Push(steps: seq<Step>, step: Step)
    requires IsRun(steps) && Allowed(After(steps), step)
    ensures IsRun(steps + [step]) && After(steps + [step]) == Next(After(steps), step).state
  {
    assert (steps + [step])[..|steps|] == steps;
  }

  lemma {:induction false} Prefix(steps: seq<Step>, n: nat)
    requires IsRun(steps) && n <= |steps|
    ensures IsRun(steps[..n]) && (NeverOvertaken(steps) ==> NeverOvertaken(steps[..n]))
    decreases |steps|
  {
    if n < |steps| {
      Prefix(steps[..|steps| - 1], n);
      assert steps[..|steps| - 1][..n] == steps[..n];
    } else {
      assert steps[..n] == steps;
    }
  }

  // An access may be put in anywhere its lock is held: the states that follow are the same.
  lemma {:induction false} PutIn(steps: seq<Step>, k: nat, a: Step)
    requires IsRun(steps) && k <= |steps| && IsRun(steps[..k]) && a.Access? && Allowed(After(steps[..k]), a)
    ensures IsRun(steps[..k] + [a] + steps[k..]) && After(steps[..k] + [a] + steps[k..]) == After(steps)
    decreases |steps|
  {
    if k == |steps| {
      assert steps[..k] == steps && steps[..k] + [a] + steps[k..] == steps + [a];
      Push(steps, a);
    } else {
      var n := |steps| - 1;
      var before := steps[..n];
      assert before[..k] == steps[..k];
      PutIn(before, k, a);
      Push(before[..k] + [a] + before[k..], steps[n]);
      assert before[..k] + [a] + before[k..] + [steps[n]] == steps[..k] + [a] + steps[k..];
    }
  }

  // ---------- The lock steps of a run ----------

  /** The run without its accesses. */
  function Bare(steps: seq<Step>): seq<Step> {
    if steps == [] then []
    else
      var n := |steps| - 1;
      Bare(steps[..n]) + if steps[n].Access? then [] else [steps[n]]
  }

  lemma BareMore(steps: seq<Step>, step: Step)
    ensures Bare(steps + [step]) == Bare(steps) + if step.Access? then [] else [step]
  {
    assert (steps + [step])[..|steps|] == steps;
  }

  lemma {:induction false} BareAs(a: seq<Step>, b: seq<Step>, c: seq<Step>)
    requires Bare(a) == Bare(b)
    ensures Bare(a + c) == Bare(b + c)
    decreases |c|
  {
    if c == [] {
      assert a + c == a && b + c == b;
    } else {
      var n := |c| - 1;
      BareAs(a, b, c[..n]);
      BareMore(a + c[..n], c[n]);
      BareMore(b + c[..n], c[n]);
      assert a + c == a + c[..n] + [c[n]] && b + c == b + c[..n] + [c[n]];
    }
  }

  lemma NeverMore(steps: seq<Step>, step: Step)
    requires IsRun(steps) && Allowed(After(steps), step)
    ensures IsRun(steps + [step]) && After(steps + [step]) == Next(After(steps), step).state
    ensures NeverOvertaken(steps + [step]) <==> NeverOvertaken(steps) && NoneOvertaken(After(steps + [step]))
  {
    Push(steps, step);
    assert (steps + [step])[..|steps|] == steps;
  }

  lemma {:induction false} BareRun(steps: seq<Step>)
    requires IsRun(steps)
    ensures IsRun(Bare(steps)) && After(Bare(steps)) == After(steps)
    ensures NeverOvertaken(Bare(steps)) <==> NeverOvertaken(steps)
    decreases |steps|
  {
    if steps != [] {
      var n := |steps| - 1;
      var before, step := steps[..n], steps[n];
      assert steps == before + [step];
      BareRun(before);
      NeverMore(before, step);
      BareMore(before, step);
      if step.Access? {
        assert Bare(steps) == Bare(before);
      } else {
        NeverMore(Bare(before), step);
      }
    }
  }

  // ---------- What can go wrong ----------

  ghost predicate Cyclic(steps: seq<Step>) {
    exists path: seq<TxnId> :: |path| >= 2 && IsPath(steps, path) && path[0] == path[|path| - 1]
  }

  /** The run does these lock steps, then u unlocks the row and t wakes; the accesses are its own. */
  ghost predicate Resumes(r: seq<Step>, lockSteps: seq<Step>, t: TxnId, u: TxnId, row: Row) {
    IsRun(r) && Bare(r) == lockSteps + [DoUnlock(u, row), DoWake(t)]
  }

  ghost predicate GoesWrong(steps: seq<Step>, t: TxnId, u: TxnId, row: Row)
    requires IsRun(steps)
  {
    Upgrading(After(steps), t, row) && exists r :: Resumes(r, Bare(steps), t, u, row) && Cyclic(r)
  }

  /** At some point of the run a transaction waits to upgrade, and once another one unlocks the row and the
      waiter wakes, accesses can be placed so that the precedence graph has a cycle. */
  ghost predicate CanGoWrong(steps: seq<Step>)
    requires IsRun(steps)
  {
    exists n, t, u, row :: 0 <= n <= |steps| && IsRun(steps[..n]) && GoesWrong(steps[..n], t, u, row)
  }

  // ---------- An overtaken run can go wrong ----------

  // The first time: the other transaction has just been granted the row, so it does not wait.
  lemma JustGranted(steps: seq<Step>, t: TxnId, u: TxnId, row: Row)
    requires steps != [] && IsRun(steps) && Overtaken(After(steps), t, u, row)
    requires NoneOvertaken(After(steps[..|steps| - 1]))
    ensures u !in After(steps).waiting
  {
    var n := |steps| - 1;
    var s, s', step := After(steps[..n]), After(steps), steps[n];
    Reachable(steps[..n]);
    Reachable(steps);
    OvertakenMeans(s', t, u, row);
    assert !Overtaken(s, t, u, row);
    if step.t != u {
      OthersRecord(s, step, u);
      if step.t != t { OthersRecord(s, step, t); }
    }
  }

  lemma {:induction false} FirstOvertaken(steps: seq<Step>) returns (n: nat, t: TxnId, u: TxnId, row: Row)
    requires IsRun(steps) && !NeverOvertaken(steps)
    ensures n <= |steps| && IsRun(steps[..n]) && Overtaken(After(steps[..n]), t, u, row) && u !in After(steps[..n]).waiting
    decreases |steps|
  {
    if steps != [] && !NeverOvertaken(steps[..|steps| - 1]) {
      n, t, u, row := FirstOvertaken(steps[..|steps| - 1]);
      assert steps[..|steps| - 1][..n] == steps[..n];
    } else {
      n := |steps|;
      assert steps[..n] == steps;
      t, u, row :| Overtaken(After(steps), t, u, row);
      JustGranted(steps, t, u, row);
    }
  }

  // Where a waiting upgrade was asked for: the transaction had the row shared and did not wait.
  lemma {:induction false} AskedFor(steps: seq<Step>, t: TxnId, row: Row) returns (k: nat)
    requires IsRun(steps) && Upgrading(After(steps), t, row)
    ensures k < |steps| && IsRun(steps[..k]) && Allowed(After(steps[..k]), Access(t, row, false))
    decreases |steps|
  {
    var n := |steps| - 1;
    if Upgrading(After(steps[..n]), t, row) {
      k := AskedFor(steps[..n], t, row);
      assert steps[..n][..k] == steps[..k];
    } else {
      k := n;
      if steps[n].t != t { OthersRecord(After(steps[..n]), steps[n], t); }
    }
  }

  // The overtaker unlocks the row; the waiter wakes and is granted it.
  lemma WakesUp(s: State, t: TxnId, u: TxnId, row: Row)
    requires Inv(s) && Overtaken(s, t, u, row) && u !in s.waiting
    ensures Allowed(s, DoUnlock(u, row))
    ensures var s1 := Next(s, DoUnlock(u, row)).state;
      Allowed(s1, DoWake(t)) && Allowed(Next(s1, DoWake(t)).state, Access(t, row, true))
  {
    var s1 := Next(s, DoUnlock(u, row)).state;
    OvertakenMeans(s, t, u, row);
    assert CellOK(s, t, row) && CellOK(s, u, row) && RowOK(s, row);
    StepKeeps(s, DoUnlock(u, row));
    assert CellOK(s1, t, row) && RowOK(s1, row);
    var reqs, i := QueueOf(s, row).requests, IndexOf(QueueOf(s, row).requests, u);
    assert forall j :: 0 <= j < |Erase(reqs, i)| ==> Erase(reqs, i)[j] == reqs[if j < i then j else j + 1];
    assert forall j :: 0 <= j < |reqs| && j != i ==> !reqs[j].granted;
    assert CanExclude(Erase(reqs, i), t);
  }

  // The steps after the overtaking: u writes and unlocks, t wakes and writes.
  lemma WriteBoth(x: seq<Step>, t: TxnId, u: TxnId, row: Row) returns (r: seq<Step>)
    requires IsRun(x) && Overtaken(After(x), t, u, row) && u !in After(x).waiting
    ensures Resumes(r, Bare(x), t, u, row)
    ensures r == x + [Access(u, row, true), DoUnlock(u, row), DoWake(t), Access(t, row, true)]
  {
    Reachable(x);
    WakesUp(After(x), t, u, row);
    var x1 := x + [Access(u, row, true)];
    var x2 := x1 + [DoUnlock(u, row)];
    var x3 := x2 + [DoWake(t)];
    Push(x, Access(u, row, true));
    BareMore(x, Access(u, row, true));
    Push(x1, DoUnlock(u, row));
    BareMore(x1, DoUnlock(u, row));
    Push(x2, DoWake(t));
    BareMore(x2, DoWake(t));
    Push(x3, Access(t, row, true));
    BareMore(x3, Access(t, row, true));
    r := x3 + [Access(t, row, true)];
  }

  // The cyclic run: t also reads before it asks to upgrade.
  lemma Broken(p: seq<Step>, k: nat, t: TxnId, u: TxnId, row: Row) returns (r: seq<Step>)
    requires IsRun(p) && Overtaken(After(p), t, u, row) && u !in After(p).waiting
    requires k < |p| && IsRun(p[..k]) && Allowed(After(p[..k]), Access(t, row, false))
    ensures Resumes(r, Bare(p), t, u, row) && Precedes(r, t, u) && Precedes(r, u, t)
  {
    var read := Access(t, row, false);
    var x := p[..k] + [read] + p[k..];
    PutIn(p, k, read);
    BareMore(p[..k], read);
    BareAs(p[..k] + [read], p[..k], p[k..]);
    assert p[..k] + p[k..] == p;
    r := WriteBoth(x, t, u, row);
    HasCycle(r, k, |x|, |x| + 3);
  }

  lemma HasCycle(r: seq<Step>, i: nat, j: nat, k: nat)
    requires i < j < k < |r| && Conflict(r[i], r[j]) && Conflict(r[j], r[k]) && r[k].t == r[i].t
    ensures Precedes(r, r[i].t, r[j].t) && Precedes(r, r[j].t, r[i].t)
  {
  }

  /** If anyone is overtaken in the run, the run can go wrong. */
  lemma OvertakenGoesWrong(steps: seq<Step>)
    requires IsRun(steps) && !NeverOvertaken(steps)
    ensures CanGoWrong(steps)
  {
    var n, t, u, row := FirstOvertaken(steps);
    var p := steps[..n];
    Reachable(p);
    OvertakenMeans(After(p), t, u, row);
    var k := AskedFor(p, t, row);
    var r := Broken(p, k, t, u, row);
    assert IsPath(r, [t, u, t]);
    assert GoesWrong(p, t, u, row);
  }

  // ---------- A run in which nobody is overtaken cannot ----------

  // Unlocking, and waking a transaction that waits to upgrade, overtake nobody.
  lemma UnlockOvertakesNone(s: State, t: TxnId, row: Row)
    requires Inv(s) && NoneOvertaken(s) && Allowed(s, DoUnlock(t, row))
    ensures NoneOvertaken(Next(s, DoUnlock(t, row)).state)
  {
    forall v, u, r ensures !Overtaken(Next(s, DoUnlock(t, row)).state, v, u, r) { assert !Overtaken(s, v, u, r); }
  }

  lemma WakeOvertakesNone(s: State, t: TxnId, row: Row)
    requires Inv(s) && NoneOvertaken(s) && Upgrading(s, t, row) && Allowed(s, DoWake(t))
    ensures NoneOvertaken(Next(s, DoWake(t)).state)
  {
    var s' := Next(s, DoWake(t)).state;
    StepKeeps(s, DoWake(t));
    forall v, u, r ensures !Overtaken(s', v, u, r) {
      assert !Overtaken(s, v, u, r);
      OvertakenMeans(s', v, u, r);
      assert RowOK(s, row);
      if v != t {
        OthersRecord(s, DoWake(t), v);
        assert r == row ==> !Upgrading(s, v, row);
      }
      if u != t { OthersRecord(s, DoWake(t), u); }
    }
  }

  lemma ResumesSafely(r: seq<Step>, lockSteps: seq<Step>, t: TxnId, u: TxnId, row: Row)
    requires IsRun(lockSteps) && NeverOvertaken(lockSteps) && Upgrading(After(lockSteps), t, row)
    requires Resumes(r, lockSteps, t, u, row)
    ensures NeverOvertaken(r)
  {
    var unlock, wake := DoUnlock(u, row), DoWake(t);
    BareRun(r);
    assert Bare(r)[..|lockSteps| + 1] == lockSteps + [unlock] && (lockSteps + [unlock])[..|lockSteps|] == lockSteps;
    Reachable(lockSteps);
    var s, s1 := After(lockSteps), After(lockSteps + [unlock]);
    UnlockOvertakesNone(s, u, row);
    Reachable(lockSteps + [unlock]);
    if u != t { OthersRecord(s, unlock, t); }
    WakeOvertakesNone(s1, t, row);
  }

  lemma SafeNeverWrong(steps: seq<Step>)
    requires IsRun(steps) && NeverOvertaken(steps)
    ensures !CanGoWrong(steps)
  {
    forall n, t, u, row | 0 <= n <= |steps| && IsRun(steps[..n]) ensures !GoesWrong(steps[..n], t, u, row) {
      Prefix(steps, n);
      BareRun(steps[..n]);
      if Upgrading(After(steps[..n]), t, row) {
        forall r, path | Resumes(r, Bare(steps[..n]), t, u, row) && |path| >= 2 && IsPath(r, path)
          ensures path[0] != path[|path| - 1]
        {
          ResumesSafely(r, Bare(steps[..n]), t, u, row);
          NoCycle(r, path);
        }
      }
    }
  }

  /** The condition of conflict serializability is exact: somebody is overtaken in a run if and only if, from
      some point of it where an upgrade waits, letting another transaction unlock the row and the waiter wake
      allows a run with the same lock steps and a cycle. */
  lemma SerializableIff(steps: seq<Step>)
    requires IsRun(steps)
    ensures NeverOvertaken(steps) <==> !CanGoWrong(steps)
  {
    if NeverOvertaken(steps) { SafeNeverWrong(steps); } else { OvertakenGoesWrong(steps); }
  }
}
