/** The LRU-K replacer: it keeps at most k access times per frame, and still evicts exactly the frame
    that the definition over the complete access history names. */
module LruK {

  type FrameId = nat

  datatype FrameEntry = FrameEntry(history: seq<nat>, evictable: bool)

  // All access times of each frame since its entry was created.
  type Log = map<FrameId, seq<nat>>

  datatype Eviction = Nothing | Evicted(frame: FrameId)

  function LastK(s: seq<nat>, k: nat): seq<nat> {
    if |s| <= k then s else s[|s| - k..]
  }

  ghost predicate Increasing(s: seq<nat>) {
    forall i, j :: 0 <= i < j < |s| ==> s[i] < s[j]
  }

  /** Backward k-distance: the age of the k-th most recent access, infinite below k accesses. */
  datatype Distance = Infinite(first: nat) | Finite(age: int)

  ghost function KDistance(times: seq<nat>, k: nat, now: nat): Distance
    requires k >= 1
  {
    if times == [] then Infinite(0)
    else if |times| < k then Infinite(times[0])
    else Finite(now - times[|times| - k])
  }

  /** Which of two frames goes first: infinite distances before finite ones, earliest first access
      among the infinite, largest distance among the finite. */
  ghost predicate GoesFirst(a: Distance, b: Distance) {
    match (a, b)
    case (Infinite(x), Infinite(y)) => x <= y
    case (Infinite(_), Finite(_)) => true
    case (Finite(_), Infinite(_)) => false
    case (Finite(x), Finite(y)) => x >= y
  }

  ghost predicate Beats(log: Log, k: nat, now: nat, f: FrameId, x: FrameId)
    requires k >= 1 && f in log && x in log
  {
    GoesFirst(KDistance(log[f], k, now), KDistance(log[x], k, now))
  }

  ghost predicate IsVictim(log: Log, candidates: set<FrameId>, k: nat, now: nat, f: FrameId)
    requires k >= 1 && candidates <= log.Keys
  {
    f in candidates && forall x {:trigger Beats(log, k, now, f, x)} :: x in candidates ==> Beats(log, k, now, f, x)
  }

  // One more candidate: the better of it and the best so far is the best of all.
  lemma OneMoreCandidate(log: Log, candidates: set<FrameId>, k: nat, now: nat, v: FrameId, f: FrameId)
    requires k >= 1 && candidates <= log.Keys && f in log && IsVictim(log, candidates, k, now, v)
    ensures Beats(log, k, now, v, f) ==> IsVictim(log, candidates + {f}, k, now, v)
    ensures Beats(log, k, now, f, v) ==> IsVictim(log, candidates + {f}, k, now, f)
  {
    forall x | x in candidates && Beats(log, k, now, f, v) ensures Beats(log, k, now, f, x) {
      assert Beats(log, k, now, v, x);
    }
  }

  // The access at time t was to frame accesses[t], so every access has its own time.
  ghost predicate TimesOK(times: seq<nat>, f: FrameId, accesses: seq<FrameId>) {
    && times != [] && Increasing(times)
    && forall i :: 0 <= i < |times| ==> times[i] < |accesses| && accesses[times[i]] == f
  }

  ghost predicate LogOK(log: Log, accesses: seq<FrameId>) {
    forall f {:trigger TimesOK(log[f], f, accesses)} :: f in log ==> TimesOK(log[f], f, accesses)
  }

  function Times(log: Log, f: FrameId): seq<nat> {
    if f in log then log[f] else []
  }

  lemma AccessKeepsLog(log: Log, accesses: seq<FrameId>, f: FrameId)
    requires LogOK(log, accesses)
    ensures LogOK(log[f := Times(log, f) + [|accesses|]], accesses + [f])
  {
    var l := log[f := Times(log, f) + [|accesses|]];
    forall a | a in l ensures TimesOK(l[a], a, accesses + [f]) {
      if a in log { assert TimesOK(log[a], a, accesses); }
      if a == f { OneMoreTime(Times(log, f), f, accesses); }
    }
  }

  lemma OneMoreTime(times: seq<nat>, f: FrameId, accesses: seq<FrameId>)
    requires times == [] || TimesOK(times, f, accesses)
    ensures TimesOK(times + [|accesses|], f, accesses + [f])
  {
  }

  /** The definition names at most one frame, so the order in which frames are looked at is irrelevant. */
  lemma OneVictim(log: Log, accesses: seq<FrameId>, candidates: set<FrameId>, k: nat, f: FrameId, g: FrameId)
    requires k >= 1 && candidates <= log.Keys && LogOK(log, accesses)
    requires IsVictim(log, candidates, k, |accesses|, f) && IsVictim(log, candidates, k, |accesses|, g)
    ensures f == g
  {
    var now := |accesses|;
    assert TimesOK(log[f], f, accesses) && TimesOK(log[g], g, accesses);
    var i, j := if |log[f]| < k then 0 else |log[f]| - k, if |log[g]| < k then 0 else |log[g]| - k;
    assert Beats(log, k, now, f, g) && Beats(log, k, now, g, f);
    assert log[f][i] == log[g][j];
  }

  ghost function EvictableIn(entries: map<FrameId, FrameEntry>): set<FrameId> {
    set f | f in entries && entries[f].evictable
  }

  // Each entry keeps the last k times of its frame.
  ghost predicate Kept(entries: map<FrameId, FrameEntry>, log: Log, k: nat, maxFrames: nat) {
    && entries.Keys == log.Keys
    && forall f {:trigger EntryOK(entries[f], log[f], k)} :: f in entries ==>
         f < maxFrames && EntryOK(entries[f], log[f], k)
  }

  ghost predicate EntryOK(e: FrameEntry, times: seq<nat>, k: nat) {
    e.history == LastK(times, k)
  }

  lemma PutKept(entries: map<FrameId, FrameEntry>, log: Log, k: nat, maxFrames: nat,
                f: FrameId, e: FrameEntry, times: seq<nat>)
    requires Kept(entries, log, k, maxFrames) && f < maxFrames && EntryOK(e, times, k)
    ensures Kept(entries[f := e], log[f := times], k, maxFrames)
  {
    var newEntries, newLog := entries[f := e], log[f := times];
    forall x | x in newEntries ensures EntryOK(newEntries[x], newLog[x], k) && x < maxFrames {
      if x != f { assert EntryOK(entries[x], log[x], k); }
    }
  }

  lemma DropKept(entries: map<FrameId, FrameEntry>, log: Log, accesses: seq<FrameId>, k: nat, maxFrames: nat, f: FrameId)
    requires Kept(entries, log, k, maxFrames) && LogOK(log, accesses)
    ensures Kept(entries - {f}, log - {f}, k, maxFrames) && LogOK(log - {f}, accesses)
    ensures EvictableIn(entries - {f}) == EvictableIn(entries) - {f}
  {
    var es, l := entries - {f}, log - {f};
    forall x | x in es ensures x < maxFrames && EntryOK(es[x], l[x], k) {
      assert EntryOK(entries[x], log[x], k) && es[x] == entries[x] && l[x] == log[x];
    }
    forall x | x in l ensures TimesOK(l[x], x, accesses) { assert TimesOK(log[x], x, accesses) && l[x] == log[x]; }
  }

  lemma SetEntry(entries: map<FrameId, FrameEntry>, f: FrameId, e: FrameEntry)
    ensures EvictableIn(entries[f := e]) == if e.evictable then EvictableIn(entries) + {f} else EvictableIn(entries) - {f}
  {
  }

  // An access leaves the flag as it is; a new entry starts unflagged.
  lemma SameFlag(entries: map<FrameId, FrameEntry>, f: FrameId, e: FrameEntry)
    requires e.evictable == (f in entries && entries[f].evictable)
    ensures EvictableIn(entries[f := e]) == EvictableIn(entries)
  {
  }

  lemma LastKPush(s: seq<nat>, k: nat, x: nat)
    requires k >= 1
    ensures var h := LastK(s, k) + [x]; LastK(s + [x], k) == if |h| > k then h[1..] else h
  {
  }

  class Replacer {
    const maxFrames: nat
    const k: nat
    var entries: map<FrameId, FrameEntry>
    var currSize: nat
    var clock: nat
    ghost var log: Log
    ghost var accesses: seq<FrameId>

    constructor (maxFrames: nat, k: nat)
      requires k >= 1
      ensures Valid() && this.maxFrames == maxFrames && this.k == k && entries == map[] && log == map[]
    {
      this.maxFrames, this.k := maxFrames, k;
      entries, currSize, clock, log, accesses := map[], 0, 0, map[], [];
    }

    ghost function Candidates(): set<FrameId>
      reads this
    {
      EvictableIn(entries)
    }

    ghost predicate Valid()
      reads this
    {
      && k >= 1
      && Kept(entries, log, k, maxFrames) && LogOK(log, accesses) && |accesses| == clock
      && currSize == |Candidates()|
    }

    // The front of the kept history gives the distance.
    lemma FrontTells(f: FrameId)
      requires Valid() && f in entries
      ensures entries[f].history != []
      ensures KDistance(log[f], k, clock) ==
        if |entries[f].history| < k then Infinite(entries[f].history[0]) else Finite(clock - entries[f].history[0])
      ensures entries[f].history[0] < clock
    {
      assert TimesOK(log[f], f, accesses) && EntryOK(entries[f], log[f], k);
      var i := if |log[f]| <= k then 0 else |log[f]| - k;
      assert entries[f].history[0] == log[f][i];
    }

    // The scan: best candidate so far, by running minimum or maximum.
    method PickVictim() returns (victim: int)
      requires Valid()
      ensures victim == -1 <==> Candidates() == {}
      ensures victim != -1 ==> victim >= 0 && IsVictim(log, Candidates(), k, clock, victim)
    {
      victim := -1;
      var foundInf := false;
      var minTimestamp: int := -1;  // stands for the largest value while no infinite distance was seen
      var maxDistance: int := 0;
      var todo := entries.Keys;
      ghost var seen: set<FrameId> := {};
      while todo != {}
        invariant seen !! todo && seen + todo == entries.Keys
        invariant -1 <= victim && (victim == -1 <==> seen * Candidates() == {})
        invariant victim != -1 ==> IsVictim(log, seen * Candidates(), k, clock, victim)
        invariant foundInf <==> victim != -1 && KDistance(log[victim], k, clock).Infinite?
        invariant foundInf ==> minTimestamp >= 0 && KDistance(log[victim], k, clock) == Infinite(minTimestamp)
        invariant !foundInf ==> minTimestamp == -1
        invariant !foundInf && victim != -1 ==> KDistance(log[victim], k, clock) == Finite(maxDistance)
        invariant victim == -1 ==> maxDistance == 0
      {
        var f :| f in todo;
        todo := todo - {f};
        FrontTells(f);
        var e := entries[f];
        ghost var before := seen * Candidates();
        seen := seen + {f};
        if e.evictable {
          assert seen * Candidates() == before + {f};
          if victim != -1 { OneMoreCandidate(log, before, k, clock, victim, f); }
          if |e.history| < k {
            foundInf := true;
            if minTimestamp == -1 || e.history[0] < minTimestamp {
              minTimestamp := e.history[0];
              victim := f;
            }
          } else if !foundInf {
            var d := clock - e.history[0];
            if d > maxDistance {
              maxDistance := d;
              victim := f;
            }
          }
        } else {
          assert seen * Candidates() == before;
        }
      }
      assert seen * Candidates() == Candidates();
    }

    /** Evicts the frame the definition names; fails, changing nothing, only if none is evictable. */
    method Evict() returns (r: Eviction)
      requires Valid()
      modifies this
      ensures Valid() && clock == old(clock)
      ensures r == Nothing <==> old(Candidates()) == {}
      ensures r == Nothing ==> entries == old(entries) && log == old(log) && currSize == old(currSize)
      ensures r.Evicted? ==>
        && IsVictim(old(log), old(Candidates()), k, clock, r.frame)
        && entries == old(entries) - {r.frame} && log == old(log) - {r.frame}
        && currSize + 1 == old(currSize)
    {
      var victim := PickVictim();
      if victim == -1 { return Nothing; }
      DropKept(entries, log, accesses, k, maxFrames, victim);
      entries := entries - {victim};
      log := log - {victim};
      currSize := currSize - 1;
      return Evicted(victim);
    }

    /** False for a frame id out of range, which the source reports as an exception. */
    method RecordAccess(f: FrameId) returns (ok: bool)
      requires Valid()
      modifies this
      ensures Valid() && ok == (f < maxFrames)
      ensures !ok ==> entries == old(entries) && log == old(log) && clock == old(clock)
      ensures ok ==> log == old(log)[f := Times(old(log), f) + [old(clock)]]
      ensures ok ==> clock == old(clock) + 1 && entries.Keys == old(entries).Keys + {f}
      ensures ok ==> Candidates() == old(Candidates()) && currSize == old(currSize)
      ensures forall x :: x in old(entries) ==> x in entries && entries[x].evictable == old(entries)[x].evictable
    {
      if f >= maxFrames { return false; }
      assert f in entries ==> EntryOK(entries[f], log[f], k);
      var e := if f in entries then entries[f] else FrameEntry([], false);
      var history := e.history + [clock];
      if |history| > k { history := history[1..]; }
      AccessKeepsLog(log, accesses, f);
      LastKPush(Times(log, f), k, clock);
      ghost var times := Times(log, f) + [clock];
      PutKept(entries, log, k, maxFrames, f, FrameEntry(history, e.evictable), times);
      SameFlag(entries, f, FrameEntry(history, e.evictable));
      entries := entries[f := FrameEntry(history, e.evictable)];
      log := log[f := times];
      accesses := accesses + [f];
      clock := clock + 1;
      return true;
    }

    method SetEvictable(f: FrameId, evictable: bool)
      requires Valid()
      modifies this`entries, this`currSize
      ensures Valid()
      ensures entries == if f in old(entries) then old(entries)[f := old(entries)[f].(evictable := evictable)] else old(entries)
    {
      if f !in entries { return; }
      var e := entries[f];
      SetEntry(entries, f, e.(evictable := evictable));
      assert EntryOK(e, log[f], k);
      PutKept(entries, log, k, maxFrames, f, e.(evictable := evictable), log[f]);
      assert log[f := log[f]] == log;
      assert e.evictable <==> f in Candidates();
      if evictable && !e.evictable { currSize := currSize + 1; }
      else if !evictable && e.evictable { currSize := currSize - 1; }
      entries := entries[f := e.(evictable := evictable)];
    }

    /** Forgets a frame; refused for a frame that is tracked but not evictable. */
    method Remove(f: FrameId) returns (ok: bool)
      requires Valid()
      modifies this`entries, this`currSize, this`log
      ensures Valid() && ok == !(f in old(entries) && !old(entries)[f].evictable)
      ensures entries == if ok then old(entries) - {f} else old(entries)
      ensures log == if ok then old(log) - {f} else old(log)
    {
      if f !in entries { return true; }
      if !entries[f].evictable { return false; }
      DropKept(entries, log, accesses, k, maxFrames, f);
      assert f in Candidates();
      entries := entries - {f};
      log := log - {f};
      currSize := currSize - 1;
      return true;
    }

    function Size(): nat
      reads this
    {
      currSize
    }
  }
}
