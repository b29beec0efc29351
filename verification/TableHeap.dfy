/** The table heap: a chain of slotted pages, filled first-fit and read in chain-and-slot order. */
module TableHeap {
  import opened Wrappers
  import opened Rids
  import opened PageBytes
  import opened TablePage

  type Entry = (RID, Bytes)
  type Pages = map<int, Bytes>

  const END := RID(INVALID, 0)

  // ---------- The live records of a chain ----------

  /** The live records of a page from a slot on. */
  function PageEntries(id: int, rs: seq<Bytes>, from: nat): seq<Entry>
    decreases |rs| - from
  {
    if from >= |rs| then []
    else (if rs[from] == [] then [] else [(RID(id, from), rs[from])]) + PageEntries(id, rs, from + 1)
  }

  predicate PageOK(pages: Pages, id: int) {
    id in pages && Sound(pages[id])
  }

  predicate AllOK(pages: Pages, chain: seq<int>) {
    forall i {:trigger chain[i]} :: 0 <= i < |chain| ==> PageOK(pages, chain[i])
  }

  lemma TailOK(pages: Pages, chain: seq<int>, k: nat)
    requires AllOK(pages, chain) && k <= |chain|
    ensures AllOK(pages, chain[k..]) && (k < |chain| ==> PageOK(pages, chain[k]))
  {
    var rest := chain[k..];
    forall i | 0 <= i < |rest| ensures PageOK(pages, rest[i]) { assert rest[i] == chain[k + i]; }
  }

  /** The live records of a chain of pages, in chain-and-slot order. */
  function Entries(pages: Pages, chain: seq<int>): seq<Entry>
    requires AllOK(pages, chain)
  {
    if chain == [] then []
    else
      TailOK(pages, chain, 0);
      TailOK(pages, chain, 1);
      PageEntries(chain[0], Records(pages[chain[0]]), 0) + Entries(pages, chain[1..])
  }

  // Each page of the chain names the next.
  predicate Linked(pages: Pages, chain: seq<int>, i: nat)
    requires i < |chain| && PageOK(pages, chain[i])
  {
    Next(pages[chain[i]]) == if i + 1 < |chain| then chain[i + 1] else INVALID
  }

  predicate NoRepeats(chain: seq<int>) {
    forall i, j {:trigger chain[i], chain[j]} :: 0 <= i < j < |chain| ==> chain[i] != chain[j]
  }

  predicate IsChain(pages: Pages, chain: seq<int>) {
    && AllOK(pages, chain)
    && (forall i {:trigger Linked(pages, chain, i)} :: 0 <= i < |chain| ==> Linked(pages, chain, i))
    && NoRepeats(chain)
    && (forall i {:trigger chain[i]} :: 0 <= i < |chain| ==> 0 <= chain[i] < 0x8000_0000)
  }

  // From a slot of the page at place k on.
  function From(pages: Pages, chain: seq<int>, k: nat, slot: nat): seq<Entry>
    requires AllOK(pages, chain) && k < |chain|
  {
    TailOK(pages, chain, k);
    TailOK(pages, chain, k + 1);
    PageEntries(chain[k], Records(pages[chain[k]]), slot) + Entries(pages, chain[k + 1..])
  }

  ghost predicate InChain(chain: seq<int>, id: int) {
    exists k :: 0 <= k < |chain| && chain[k] == id
  }

  ghost function PlaceIn(chain: seq<int>, id: int): (k: nat)
    requires InChain(chain, id)
    ensures k < |chain| && chain[k] == id
  {
    var k :| 0 <= k < |chain| && chain[k] == id;
    k
  }

  /** What an iterator at this identifier has still to visit. */
  ghost function Rest(pages: Pages, chain: seq<int>, rid: RID): seq<Entry>
    requires AllOK(pages, chain) && (rid == END || InChain(chain, rid.page))
  {
    if rid == END then [] else From(pages, chain, PlaceIn(chain, rid.page), rid.slot)
  }

  // An iterator stands at the end or on a live record.
  ghost predicate Standing(pages: Pages, chain: seq<int>, rid: RID)
    requires AllOK(pages, chain)
  {
    rid == END || (InChain(chain, rid.page) && IsLive(pages, rid))
  }

  predicate IsLive(pages: Pages, rid: RID) {
    PageOK(pages, rid.page) && rid.slot < Num(pages[rid.page]) && Records(pages[rid.page])[rid.slot] != []
  }

  // ---------- Order and completeness ----------

  lemma {:induction false} PageEntriesAt(id: int, rs: seq<Bytes>, from: nat, i: nat)
    requires i < |PageEntries(id, rs, from)|
    ensures var e := PageEntries(id, rs, from)[i];
      e.0.page == id && from <= e.0.slot < |rs| && e.1 == rs[e.0.slot] != []
    ensures forall j :: 0 <= j < i ==> PageEntries(id, rs, from)[j].0.slot < PageEntries(id, rs, from)[i].0.slot
    decreases |rs| - from
  {
    var head, tail := if rs[from] == [] then [] else [(RID(id, from), rs[from])], PageEntries(id, rs, from + 1);
    assert PageEntries(id, rs, from) == head + tail;
    if i >= |head| { PageEntriesAt(id, rs, from + 1, i - |head|); }
  }

  lemma {:induction false} EntriesAt(pages: Pages, chain: seq<int>, i: nat) returns (k: nat)
    requires AllOK(pages, chain) && i < |Entries(pages, chain)|
    ensures var e := Entries(pages, chain)[i];
      k < |chain| && e.0.page == chain[k] && PageOK(pages, chain[k])
      && e.0.slot < |Records(pages[chain[k]])| && e.1 == Records(pages[chain[k]])[e.0.slot] != []
  {
    assert PageOK(pages, chain[0]);
    var here := PageEntries(chain[0], Records(pages[chain[0]]), 0);
    if i < |here| {
      PageEntriesAt(chain[0], Records(pages[chain[0]]), 0, i);
      k := 0;
    } else {
      assert AllOK(pages, chain[1..]);
      var j := EntriesAt(pages, chain[1..], i - |here|);
      k := j + 1;
    }
  }

  lemma TailNoRepeats(chain: seq<int>)
    requires chain != [] && NoRepeats(chain)
    ensures NoRepeats(chain[1..]) && chain[0] !in chain[1..]
  {
    var rest := chain[1..];
    forall i | 0 <= i < |rest| ensures rest[i] == chain[i + 1] && rest[i] != chain[0] {}
  }

  /** No record is visited twice. */
  lemma {:induction false} VisitedOnce(pages: Pages, chain: seq<int>, i: nat, j: nat)
    requires AllOK(pages, chain) && NoRepeats(chain) && i < j < |Entries(pages, chain)|
    ensures Entries(pages, chain)[i].0 != Entries(pages, chain)[j].0
    decreases |chain|
  {
    TailOK(pages, chain, 0);
    TailOK(pages, chain, 1);
    TailNoRepeats(chain);
    var rest := chain[1..];
    var here, later := PageEntries(chain[0], Records(pages[chain[0]]), 0), Entries(pages, rest);
    assert Entries(pages, chain) == here + later;
    if i >= |here| {
      VisitedOnce(pages, rest, i - |here|, j - |here|);
      assert (here + later)[i] == later[i - |here|] && (here + later)[j] == later[j - |here|];
    } else {
      FirstIsApart(pages, chain, i, j);
    }
  }

  lemma FirstIsApart(pages: Pages, chain: seq<int>, i: nat, j: nat)
    requires AllOK(pages, chain) && chain != [] && chain[0] !in chain[1..] && PageOK(pages, chain[0]) && AllOK(pages, chain[1..])
    requires i < |PageEntries(chain[0], Records(pages[chain[0]]), 0)|
    requires i < j < |PageEntries(chain[0], Records(pages[chain[0]]), 0) + Entries(pages, chain[1..])|
    ensures var es := PageEntries(chain[0], Records(pages[chain[0]]), 0) + Entries(pages, chain[1..]); es[i].0 != es[j].0
  {
    var rs := Records(pages[chain[0]]);
    var here := PageEntries(chain[0], rs, 0);
    PageEntriesAt(chain[0], rs, 0, i);
    if j < |here| {
      PageEntriesAt(chain[0], rs, 0, j);
      assert here[i].0.slot < here[j].0.slot;
    } else {
      var k := EntriesAt(pages, chain[1..], j - |here|);
    }
  }

  lemma {:induction false} PageEntriesHold(id: int, rs: seq<Bytes>, from: nat, slot: nat)
    requires from <= slot < |rs| && rs[slot] != []
    ensures (RID(id, slot), rs[slot]) in PageEntries(id, rs, from)
    decreases |rs| - from
  {
    if from < slot { PageEntriesHold(id, rs, from + 1, slot); }
  }

  /** Every live record is visited. */
  lemma {:induction false} AllVisited(pages: Pages, chain: seq<int>, k: nat, slot: nat)
    requires AllOK(pages, chain) && k < |chain| && PageOK(pages, chain[k])
    requires slot < |Records(pages[chain[k]])| && Records(pages[chain[k]])[slot] != []
    ensures (RID(chain[k], slot), Records(pages[chain[k]])[slot]) in Entries(pages, chain)
    decreases |chain|
  {
    if k == 0 {
      PageEntriesHold(chain[0], Records(pages[chain[0]]), 0, slot);
    } else {
      assert PageOK(pages, chain[0]) && AllOK(pages, chain[1..]);
      AllVisited(pages, chain[1..], k - 1, slot);
    }
  }

  // ---------- Changing one page ----------

  // How often an entry is there.
  function Times(es: seq<Entry>, e: Entry): nat {
    if es == [] then 0 else (if es[0] == e then 1 else 0) + Times(es[1..], e)
  }

  lemma {:induction false} TimesSplit(a: seq<Entry>, b: seq<Entry>, e: Entry)
    ensures Times(a + b, e) == Times(a, e) + Times(b, e)
  {
    if a == [] {
      assert a + b == b;
    } else {
      assert (a + b)[0] == a[0] && (a + b)[1..] == a[1..] + b;
      TimesSplit(a[1..], b, e);
    }
  }

  // The entry of a record, if it is live.
  function OneEntry(id: int, slot: nat, t: Bytes): seq<Entry> {
    if t == [] then [] else [(RID(id, slot), t)]
  }

  lemma FirstSlot(id: int, rs: seq<Bytes>, from: nat, e: Entry)
    requires from < |rs|
    ensures Times(PageEntries(id, rs, from), e) == Times(OneEntry(id, from, rs[from]), e) + Times(PageEntries(id, rs, from + 1), e)
  {
    TimesSplit(OneEntry(id, from, rs[from]), PageEntries(id, rs, from + 1), e);
  }

  lemma {:induction false} PageEntriesChanged(id: int, rs: seq<Bytes>, slot: nat, t: Bytes, from: nat, e: Entry)
    requires from <= slot < |rs|
    ensures Times(PageEntries(id, rs[slot := t], from), e) + Times(OneEntry(id, slot, rs[slot]), e)
         == Times(PageEntries(id, rs, from), e) + Times(OneEntry(id, slot, t), e)
    decreases |rs| - from
  {
    var ts := rs[slot := t];
    FirstSlot(id, rs, from, e);
    FirstSlot(id, ts, from, e);
    if from < slot { PageEntriesChanged(id, rs, slot, t, from + 1, e); } else { LaterEntries(id, rs, ts, from + 1); }
  }

  lemma {:induction false} LaterEntries(id: int, rs: seq<Bytes>, ts: seq<Bytes>, from: nat)
    requires |rs| == |ts| && forall k :: from <= k < |rs| ==> rs[k] == ts[k]
    ensures PageEntries(id, rs, from) == PageEntries(id, ts, from)
    decreases |rs| - from
  {
    if from < |rs| { LaterEntries(id, rs, ts, from + 1); }
  }

  lemma {:induction false} PageEntriesMore(id: int, rs: seq<Bytes>, ts: seq<Bytes>, from: nat, e: Entry)
    requires from <= |rs| && |ts| == |rs| + 1 && forall k :: 0 <= k < |rs| ==> ts[k] == rs[k]
    ensures Times(PageEntries(id, ts, from), e) == Times(PageEntries(id, rs, from), e) + Times(OneEntry(id, |rs|, ts[|rs|]), e)
    decreases |rs| - from
  {
    FirstSlot(id, ts, from, e);
    if from < |rs| {
      FirstSlot(id, rs, from, e);
      PageEntriesMore(id, rs, ts, from + 1, e);
    }
  }

  // Pages outside the chain do not count.
  lemma {:induction false} OutsideChain(pages: Pages, chain: seq<int>, id: int, d: Bytes)
    requires AllOK(pages, chain) && id !in chain
    ensures AllOK(pages[id := d], chain) && Entries(pages[id := d], chain) == Entries(pages, chain)
  {
    var next := pages[id := d];
    forall i | 0 <= i < |chain| ensures PageOK(next, chain[i]) { assert PageOK(pages, chain[i]) && chain[i] in chain; }
    if chain != [] {
      assert PageOK(pages, chain[0]) && AllOK(pages, chain[1..]);
      OutsideChain(pages, chain[1..], id, d);
    }
  }

  // How often an entry is on a page.
  function OnPage(id: int, d: Bytes, e: Entry): nat
    requires Sound(d)
  {
    Times(PageEntries(id, Records(d), 0), e)
  }

  lemma FirstPage(pages: Pages, chain: seq<int>, e: Entry)
    requires AllOK(pages, chain) && chain != []
    ensures AllOK(pages, chain[1..]) && PageOK(pages, chain[0])
    ensures Times(Entries(pages, chain), e) == OnPage(chain[0], pages[chain[0]], e) + Times(Entries(pages, chain[1..]), e)
  {
    TailOK(pages, chain, 0);
    TailOK(pages, chain, 1);
    TimesSplit(PageEntries(chain[0], Records(pages[chain[0]]), 0), Entries(pages, chain[1..]), e);
  }

  /** Replacing one page of a chain changes the entries by that page's. */
  lemma {:induction false} PageReplaced(pages: Pages, chain: seq<int>, k: nat, d: Bytes, e: Entry)
    requires AllOK(pages, chain) && k < |chain| && Sound(d) && PageOK(pages, chain[k])
    requires NoRepeats(chain)
    ensures AllOK(pages[chain[k] := d], chain)
    ensures Times(Entries(pages[chain[k] := d], chain), e) + OnPage(chain[k], pages[chain[k]], e)
         == Times(Entries(pages, chain), e) + OnPage(chain[k], d, e)
    decreases |chain|
  {
    var id, rest := chain[k], chain[1..];
    var next := pages[id := d];
    PutOK(pages, chain, id, d);
    FirstPage(pages, chain, e);
    FirstPage(next, chain, e);
    TailNoRepeats(chain);
    if k == 0 { OutsideChain(pages, rest, id, d); } else { PageReplaced(pages, rest, k - 1, d, e); }
  }

  lemma PutOK(pages: Pages, chain: seq<int>, id: int, d: Bytes)
    requires AllOK(pages, chain) && Sound(d)
    ensures AllOK(pages[id := d], chain)
  {
    var next := pages[id := d];
    forall i | 0 <= i < |chain| ensures PageOK(next, chain[i]) { assert PageOK(pages, chain[i]); }
  }

  lemma SetNextKeeps(d: Bytes, id: int)
    requires Sound(d) && INVALID <= id < 0x8000_0000
    ensures var r := SetNext(d, id); Sound(r) && Next(r) == id && Records(r) == Records(d) && Remaining(r) == Remaining(d)
  {
    SetNextFields(d, id);
    var r := SetNext(d, id);
    forall k | 0 <= k < Num(r) ensures SlotOK(r, k) { assert SlotOK(d, k); }
    forall j, k | 0 <= j < k < Num(r) ensures Disjoint(r, j, k) { assert Disjoint(d, j, k); }
    forall k | 0 <= k < Num(r) ensures Records(r)[k] == Records(d)[k] { SameRecord(d, r, k); }
  }

  lemma SetNextFields(d: Bytes, id: int)
    requires Fits(d) && INVALID <= id < 0x8000_0000
    ensures var r := SetNext(d, id);
      |r| == PAGE_SIZE && Next(r) == id && Num(r) == Num(d) && Free(r) == Free(d)
      && SameSlots(d, r, Num(d), Num(d)) && SameFrom(d, r, HEADER)
  {
    var w := Word4(IdWord(id));
    var r := SetNext(d, id);
    Get4Put(d, 0, IdWord(id));
    Get4Kept(d, 0, w, 4);
    Get4Kept(d, 0, w, 8);
    forall k {:trigger Offset(r, k)} | 0 <= k < Num(d) ensures Offset(r, k) == Offset(d, k) && Length(r, k) == Length(d, k) { SlotKept(d, 0, w, k); }
  }

  lemma SameRecord(d: Bytes, r: Bytes, k: nat)
    requires Sound(d) && Sound(r) && Num(r) == Num(d) && k < Num(d) && Offset(r, k) == Offset(d, k) && Length(r, k) == Length(d, k)
    requires SameFrom(d, r, HEADER)
    ensures Records(r)[k] == Records(d)[k]
  {
    assert SlotOK(d, k);
    var at, n := Offset(d, k), Length(d, k);
    if n > 0 { assert r[at..at + n] == d[at..at + n]; }
  }

  // ---------- Insertion into a chain ----------

  predicate HasRoom(d: Bytes, t: Bytes)
    requires |d| == PAGE_SIZE
  {
    |t| + SLOT <= Remaining(d)
  }

  // The entries with one more, if the insertion found a place and the record is not empty.
  ghost predicate OneMore(before: seq<Entry>, after: seq<Entry>, rid: Option<RID>, t: Bytes) {
    forall e {:trigger Times(after, e)} ::
      Times(after, e) == Times(before, e) + if rid == None then 0 else Times(OneEntry(rid.value.page, rid.value.slot, t), e)
  }

  // The first k pages have no room.
  predicate NoRoomBefore(pages: Pages, chain: seq<int>, k: nat, t: Bytes)
    requires k <= |chain|
  {
    forall i {:trigger chain[i]} :: 0 <= i < k ==> PageOK(pages, chain[i]) && !HasRoom(pages[chain[i]], t)
  }

  // A page with one more record, in a given slot.
  ghost predicate Grown(id: int, d: Bytes, r: Bytes, slot: nat, t: Bytes)
    requires Sound(d)
  {
    Sound(r) && Next(r) == Next(d) && slot == Num(d) && Records(r) == Records(d) + [t]
  }

  /** A record placed on one page of the chain adds exactly its own entry. */
  lemma PlaceKeeps(pages: Pages, chain: seq<int>, k: nat, d: Bytes, t: Bytes)
    requires IsChain(pages, chain) && k < |chain| && PageOK(pages, chain[k]) && Grown(chain[k], pages[chain[k]], d, Num(pages[chain[k]]), t)
    ensures var next := pages[chain[k] := d];
      IsChain(next, chain) && OneMore(Entries(pages, chain), Entries(next, chain), Some(RID(chain[k], Num(pages[chain[k]]))), t)
  {
    var id := chain[k];
    var next := pages[id := d];
    PlaceLinks(pages, chain, k, d);
    var before, after := Entries(pages, chain), Entries(next, chain);
    forall e {:trigger Times(after, e)} ensures Times(after, e) == Times(before, e) + Times(OneEntry(id, Num(pages[id]), t), e) {
      PageEntriesMore(id, Records(pages[id]), Records(d), 0, e);
      PageReplaced(pages, chain, k, d, e);
    }
  }

  // The entries with one record replaced by another (which may be empty).
  ghost predicate Swapped(before: seq<Entry>, after: seq<Entry>, rid: RID, was: Bytes, t: Bytes) {
    forall e {:trigger Times(after, e)} ::
      Times(after, e) + Times(OneEntry(rid.page, rid.slot, was), e) == Times(before, e) + Times(OneEntry(rid.page, rid.slot, t), e)
  }

  /** A record replaced on one page of the chain replaces exactly its own entry. */
  lemma SwapKeeps(pages: Pages, chain: seq<int>, k: nat, slot: nat, d: Bytes, t: Bytes)
    requires IsChain(pages, chain) && k < |chain| && PageOK(pages, chain[k]) && slot < Num(pages[chain[k]])
    requires Sound(d) && Next(d) == Next(pages[chain[k]]) && Records(d) == Records(pages[chain[k]])[slot := t]
    ensures IsChain(pages[chain[k] := d], chain)
    ensures Swapped(Entries(pages, chain), Entries(pages[chain[k] := d], chain), RID(chain[k], slot), Records(pages[chain[k]])[slot], t)
  {
    var id := chain[k];
    var next := pages[id := d];
    PlaceLinks(pages, chain, k, d);
    var before, after, rs := Entries(pages, chain), Entries(next, chain), Records(pages[id]);
    forall e {:trigger Times(after, e)}
      ensures Times(after, e) + Times(OneEntry(id, slot, rs[slot]), e) == Times(before, e) + Times(OneEntry(id, slot, t), e)
    {
      PageEntriesChanged(id, rs, slot, t, 0, e);
      PageReplaced(pages, chain, k, d, e);
    }
  }

  lemma PlaceLinks(pages: Pages, chain: seq<int>, k: nat, d: Bytes)
    requires IsChain(pages, chain) && k < |chain| && PageOK(pages, chain[k]) && Sound(d) && Next(d) == Next(pages[chain[k]])
    ensures IsChain(pages[chain[k] := d], chain)
  {
    var next := pages[chain[k] := d];
    forall i | 0 <= i < |chain| ensures PageOK(next, chain[i]) && Linked(next, chain, i) {
      assert PageOK(pages, chain[i]) && Linked(pages, chain, i);
      assert PageOK(next, chain[i]);
    }
  }

  lemma {:induction false} EntriesAppend(pages: Pages, chain: seq<int>, id: int)
    requires AllOK(pages, chain) && PageOK(pages, id)
    ensures AllOK(pages, chain + [id])
    ensures Entries(pages, chain + [id]) == Entries(pages, chain) + PageEntries(id, Records(pages[id]), 0)
  {
    var all := chain + [id];
    forall i | 0 <= i < |all| ensures PageOK(pages, all[i]) { if i < |chain| { assert PageOK(pages, chain[i]); } }
    if chain == [] {
      assert all == [id] && all[1..] == [];
    } else {
      TailOK(pages, chain, 1);
      assert all[1..] == chain[1..] + [id];
      EntriesAppend(pages, chain[1..], id);
    }
  }

  lemma FreshId(pages: Pages, chain: seq<int>, id: int)
    requires AllOK(pages, chain) && id !in pages
    ensures id !in chain
  {
    forall i | 0 <= i < |chain| ensures chain[i] != id { assert PageOK(pages, chain[i]); }
  }

  lemma ExtendCounts(pages: Pages, chain: seq<int>, last: int, l: Bytes, id: int, d: Bytes, e: Entry)
    requires AllOK(pages, chain) && NoRepeats(chain) && chain != [] && chain[|chain| - 1] == last && PageOK(pages, last)
    requires id !in chain && Sound(d) && Sound(l) && Records(l) == Records(pages[last])
    ensures AllOK(pages[last := l][id := d], chain + [id])
    ensures Times(Entries(pages[last := l][id := d], chain + [id]), e) == Times(Entries(pages, chain), e) + OnPage(id, d, e)
  {
    var linked := pages[last := l];
    var next := linked[id := d];
    PageReplaced(pages, chain, |chain| - 1, l, e);
    OutsideChain(linked, chain, id, d);
    EntriesAppend(next, chain, id);
    TimesSplit(Entries(next, chain), PageEntries(id, Records(d), 0), e);
  }

  /** A page linked to the end of the chain, from the page that now names it. */
  lemma ExtendKeeps(pages: Pages, chain: seq<int>, last: int, l: Bytes, id: int, d: Bytes, e: Entry)
    requires IsChain(pages, chain) && chain != [] && chain[|chain| - 1] == last && PageOK(pages, last)
    requires id !in pages && 0 <= id < 0x8000_0000 && Sound(d) && Next(d) == INVALID
    requires Sound(l) && Next(l) == id && Records(l) == Records(pages[last])
    ensures var next := pages[last := l][id := d];
      IsChain(next, chain + [id]) && Times(Entries(next, chain + [id]), e) == Times(Entries(pages, chain), e) + OnPage(id, d, e)
  {
    FreshId(pages, chain, id);
    ExtendCounts(pages, chain, last, l, id, d, e);
    ExtendLinks(pages, chain, last, l, id, d);
  }

  lemma ExtendLinks(pages: Pages, chain: seq<int>, last: int, l: Bytes, id: int, d: Bytes)
    requires IsChain(pages, chain) && chain != [] && chain[|chain| - 1] == last && id !in chain && 0 <= id < 0x8000_0000
    requires Sound(d) && Next(d) == INVALID && Sound(l) && Next(l) == id && AllOK(pages[last := l][id := d], chain + [id])
    ensures IsChain(pages[last := l][id := d], chain + [id])
  {
    var all, next := chain + [id], pages[last := l][id := d];
    forall i | 0 <= i < |all| ensures PageOK(next, all[i]) && Linked(next, all, i) {
      assert PageOK(next, all[i]);
      if i < |chain| { assert PageOK(pages, chain[i]) && Linked(pages, chain, i) && all[i] == chain[i] != id; }
    }
    forall i, j {:trigger all[i], all[j]} | 0 <= i < j < |all| ensures all[i] != all[j] {}
  }

  // ---------- Iteration ----------

  // Past the last slot of a page the next page begins.
  lemma TurnPage(pages: Pages, chain: seq<int>, k: nat, slot: nat)
    requires AllOK(pages, chain) && k < |chain| && PageOK(pages, chain[k]) && slot >= Num(pages[chain[k]])
    ensures From(pages, chain, k, slot) == if k + 1 < |chain| then From(pages, chain, k + 1, 0) else []
  {
    TailOK(pages, chain, k + 1);
    var rest := chain[k + 1..];
    assert PageEntries(chain[k], Records(pages[chain[k]]), slot) == [];
    assert From(pages, chain, k, slot) == Entries(pages, rest);
    if k + 1 < |chain| { assert rest[0] == chain[k + 1] && rest[1..] == chain[k + 2..]; }
  }

  lemma NextSlot(pages: Pages, chain: seq<int>, k: nat, slot: nat)
    requires AllOK(pages, chain) && k < |chain| && PageOK(pages, chain[k]) && slot < Num(pages[chain[k]])
    ensures From(pages, chain, k, slot) == OneEntry(chain[k], slot, Records(pages[chain[k]])[slot]) + From(pages, chain, k, slot + 1)
  {
    TailOK(pages, chain, k + 1);
    var rs, later := Records(pages[chain[k]]), Entries(pages, chain[k + 1..]);
    Associate(OneEntry(chain[k], slot, rs[slot]), PageEntries(chain[k], rs, slot + 1), later);
  }

  lemma LiveSlot(d: Bytes, i: nat)
    requires Sound(d) && i < Num(d)
    ensures Records(d)[i] != [] <==> Length(d, i) > 0
  {
    assert SlotOK(d, i);
  }

  // A deleted slot is passed over.
  lemma SkipSlot(pages: Pages, chain: seq<int>, k: nat, slot: nat)
    requires AllOK(pages, chain) && k < |chain| && PageOK(pages, chain[k])
    requires slot < Num(pages[chain[k]]) && Length(pages[chain[k]], slot) == 0
    ensures From(pages, chain, k, slot) == From(pages, chain, k, slot + 1)
  {
    LiveSlot(pages[chain[k]], slot);
    NextSlot(pages, chain, k, slot);
    var rest := From(pages, chain, k, slot + 1);
    assert OneEntry(chain[k], slot, []) == [] && [] + rest == rest;
  }

  lemma Associate(a: seq<Entry>, b: seq<Entry>, c: seq<Entry>)
    ensures (a + b) + c == a + (b + c)
  {
  }

  lemma PlaceIs(chain: seq<int>, k: nat)
    requires NoRepeats(chain) && k < |chain|
    ensures InChain(chain, chain[k]) && PlaceIn(chain, chain[k]) == k
  {
    assert InChain(chain, chain[k]);
    var j := PlaceIn(chain, chain[k]);
  }

  lemma StartIs(pages: Pages, chain: seq<int>)
    requires AllOK(pages, chain) && chain != []
    ensures From(pages, chain, 0, 0) == Entries(pages, chain)
  {
    TailOK(pages, chain, 0);
    TailOK(pages, chain, 1);
  }

  lemma LiveFirst(pages: Pages, chain: seq<int>, k: nat, rid: RID)
    requires AllOK(pages, chain) && k < |chain| && chain[k] == rid.page && IsLive(pages, rid)
    ensures From(pages, chain, k, rid.slot) == [(rid, Records(pages[rid.page])[rid.slot])] + From(pages, chain, k, rid.slot + 1)
  {
    NextSlot(pages, chain, k, rid.slot);
  }

  // The record an iterator stands on is what it visits next.
  lemma StandingRecord(pages: Pages, chain: seq<int>, rid: RID)
    requires AllOK(pages, chain) && rid != END && Standing(pages, chain, rid)
    ensures Rest(pages, chain, rid)
         == [(rid, Records(pages[rid.page])[rid.slot])] + From(pages, chain, PlaceIn(chain, rid.page), rid.slot + 1)
  {
    LiveFirst(pages, chain, PlaceIn(chain, rid.page), rid);
  }

  // ---------- The heap object ----------

  lemma StartHeap()
    ensures var pages := map[0 := Initial(INVALID)]; IsChain(pages, [0]) && Entries(pages, [0]) == []
  {
    var pages, chain := map[0 := Initial(INVALID)], [0];
    InitialSound(INVALID);
    assert PageOK(pages, chain[0]) && Linked(pages, chain, 0);
    assert chain[1..] == [];
    assert PageEntries(0, Records(pages[0]), 0) == [];
  }

  // Where a record lands on a new page.
  function NewRid(id: int, t: Bytes): Option<RID> {
    if |t| + SLOT <= PAGE_SIZE - HEADER then Some(RID(id, 0)) else None
  }

  // A new page after trying to insert the record.
  ghost predicate Tried(id: int, d: Bytes, t: Bytes) {
    Sound(d) && Next(d) == INVALID && Records(d) == if NewRid(id, t) == None then [] else [t]
  }

  lemma TriedEntries(id: int, d: Bytes, t: Bytes, e: Entry)
    requires Tried(id, d, t)
    ensures OnPage(id, d, e) == if NewRid(id, t) == None then 0 else Times(OneEntry(id, 0, t), e)
  {
    if NewRid(id, t) != None { PageEntriesMore(id, [], [t], 0, e); }
  }

  lemma ExtendOne(pages: Pages, chain: seq<int>, last: int, l: Bytes, id: int, d: Bytes, t: Bytes)
    requires IsChain(pages, chain) && chain != [] && chain[|chain| - 1] == last && PageOK(pages, last)
    requires id !in pages && 0 <= id < 0x8000_0000 && Tried(id, d, t)
    requires Sound(l) && Next(l) == id && Records(l) == Records(pages[last])
    ensures var next := pages[last := l][id := d];
      IsChain(next, chain + [id]) && OneMore(Entries(pages, chain), Entries(next, chain + [id]), NewRid(id, t), t)
  {
    var next := pages[last := l][id := d];
    var any: Entry := (RID(0, 0), []);
    ExtendKeeps(pages, chain, last, l, id, d, any);
    var before, after := Entries(pages, chain), Entries(next, chain + [id]);
    forall e {:trigger Times(after, e)}
      ensures Times(after, e) == Times(before, e) + if NewRid(id, t) == None then 0 else Times(OneEntry(id, 0, t), e)
    {
      ExtendKeeps(pages, chain, last, l, id, d, e);
      TriedEntries(id, d, t, e);
    }
  }

  class TableHeap {
    var pages: Pages
    var nextId: int
    const first: int
    ghost var chain: seq<int>

    ghost predicate Valid()
      reads this
    {
      && chain != [] && chain[0] == first && IsChain(pages, chain)
      && 0 <= nextId && forall id {:trigger id in pages} :: id in pages ==> id < nextId
    }

    ghost function Contents(): seq<Entry>
      requires Valid()
      reads this
    {
      Entries(pages, chain)
    }

    constructor ()
      ensures Valid() && Contents() == [] && nextId == 1
    {
      first := 0;
      nextId := 1;
      pages := map[0 := Initial(INVALID)];
      chain := [0];
      StartHeap();
    }

    /** First-fit: the record goes on the first page of the chain with room for it. Without one, an empty page
        is linked to the end and tried; a record too long even for that one is not stored. */
    method InsertTuple(t: Bytes) returns (rid: Option<RID>)
      requires Valid() && nextId < 0x8000_0000
      modifies this
      ensures Valid() && OneMore(old(Contents()), Contents(), rid, t)
      ensures chain == old(chain) || chain == old(chain) + [old(nextId)]
      ensures chain == old(chain) ==> rid.Some? && Fitted(old(pages), chain, rid.value, t)
      ensures chain != old(chain) ==> NoRoomBefore(old(pages), old(chain), |old(chain)|, t)
      ensures chain != old(chain) ==> rid == NewRid(old(nextId), t)
    {
      var id, found := FindRoom(t);
      if found {
        ghost var k :| 0 <= k < |chain| && chain[k] == id && PageOK(pages, id) && HasRoom(pages[id], t) && NoRoomBefore(pages, chain, k, t);
        rid := Place(id, k, t);
      } else {
        rid := Extend(id, t);
      }
    }

    // The first page with room, or the last page if there is none.
    method FindRoom(t: Bytes) returns (id: int, found: bool)
      requires Valid()
      ensures found ==> exists k :: 0 <= k < |chain| && chain[k] == id && PageOK(pages, id) && HasRoom(pages[id], t) && NoRoomBefore(pages, chain, k, t)
      ensures !found ==> id == chain[|chain| - 1] && PageOK(pages, id) && NoRoomBefore(pages, chain, |chain|, t)
    {
      id := first;
      ghost var k := 0;
      while true
        invariant k < |chain| && id == chain[k] && NoRoomBefore(pages, chain, k, t)
        decreases |chain| - k
      {
        assert PageOK(pages, chain[k]) && Linked(pages, chain, k);
        if HasRoom(pages[id], t) { return id, true; }
        var next := Next(pages[id]);
        if next == INVALID { return id, false; }
        id, k := next, k + 1;
      }
    }

    // Inserts on a page of the chain that has room.
    method Place(id: int, ghost k: nat, t: Bytes) returns (rid: Option<RID>)
      requires Valid() && k < |chain| && chain[k] == id && PageOK(pages, id) && HasRoom(pages[id], t)
      modifies this`pages
      ensures Valid() && OneMore(old(Contents()), Contents(), rid, t) && rid == Some(RID(id, old(Num(pages[id]))))
    {
      var d := pages[id];
      var r := PutOn(id, d, t);
      PlaceKeeps(pages, chain, k, r, t);
      pages := pages[id := r];
      rid := Some(RID(id, Num(d)));
    }

    // Links a new page to the end and tries it.
    method Extend(last: int, t: Bytes) returns (rid: Option<RID>)
      requires Valid() && nextId < 0x8000_0000 && chain[|chain| - 1] == last && PageOK(pages, last)
      modifies this
      ensures Valid() && OneMore(old(Contents()), Contents(), rid, t)
      ensures chain == old(chain) + [old(nextId)] && nextId == old(nextId) + 1 && rid == NewRid(old(nextId), t)
    {
      var id := nextId;
      var l := NameNext(pages[last], id);
      var d := TryNewPage(id, t);
      ExtendOne(pages, chain, last, l, id, d, t);
      pages := pages[last := l][id := d];
      nextId := nextId + 1;
      chain := chain + [id];
      rid := if Num(d) > 0 then Some(RID(id, 0)) else None;
    }

    // An insertion on a page that has room, in terms of its records.
    static method PutOn(id: int, d: Bytes, t: Bytes) returns (r: Bytes)
      requires Sound(d) && HasRoom(d, t)
      ensures Grown(id, d, r, Num(d), t)
    {
      InsertKeeps(d, t);
      r := Inserted(d, t);
    }

    static method NameNext(d: Bytes, id: int) returns (r: Bytes)
      requires Sound(d) && 0 <= id < 0x8000_0000
      ensures Sound(r) && Next(r) == id && Records(r) == Records(d)
    {
      SetNextKeeps(d, id);
      r := SetNext(d, id);
    }

    static method TryNewPage(id: int, t: Bytes) returns (d: Bytes)
      ensures Tried(id, d, t)
    {
      InitialSound(INVALID);
      d := Initial(INVALID);
      if HasRoom(d, t) { d := PutOn(id, d, t); }
    }

    /** The record of a slot, nothing if it has been deleted. A live record is the one an iterator at the slot
        stands on. */
    method GetTuple(rid: RID) returns (t: Bytes)
      requires Valid() && InChain(chain, rid.page) && PageOK(pages, rid.page) && rid.slot < Num(pages[rid.page])
      ensures t == Records(pages[rid.page])[rid.slot] && (t != [] <==> IsLive(pages, rid))
      ensures t != [] ==> (rid, t) in Contents()
      ensures t != [] ==> Rest(pages, chain, rid) != [] && Rest(pages, chain, rid)[0] == (rid, t)
    {
      assert SlotOK(pages[rid.page], rid.slot);
      t := Record(pages[rid.page], rid.slot);
      if t != [] {
        StandingRecord(pages, chain, rid);
        AllVisited(pages, chain, PlaceIn(chain, rid.page), rid.slot);
      }
    }

    /** Removes exactly the entry of one record. */
    method DeleteTuple(rid: RID)
      requires Valid() && InChain(chain, rid.page) && PageOK(pages, rid.page) && rid.slot < Num(pages[rid.page])
      modifies this`pages
      ensures Valid() && Swapped(old(Contents()), Contents(), rid, old(Records(pages[rid.page])[rid.slot]), [])
    {
      var d := pages[rid.page];
      var r := Deleted(d, rid.slot);
      DeleteKeeps(d, rid.slot);
      SwapKeeps(pages, chain, PlaceIn(chain, rid.page), rid.slot, r, []);
      pages := pages[rid.page := r];
    }

    /** Replaces exactly the entry of one record if the new one fits the page's free space. */
    method UpdateTuple(rid: RID, t: Bytes) returns (o: Outcome)
      requires Valid() && InChain(chain, rid.page) && PageOK(pages, rid.page) && rid.slot < Num(pages[rid.page])
      modifies this`pages
      ensures o.Refused? <==> old(UpdateRefused(pages[rid.page], rid.slot, t))
      ensures o.Refused? ==> pages == old(pages)
      ensures o.Outside? ==> |t| > old(Remaining(pages[rid.page]))
      ensures o.Written? && |t| <= old(Remaining(pages[rid.page])) ==>
        Valid() && Swapped(old(Contents()), Contents(), rid, old(Records(pages[rid.page])[rid.slot]), t)
    {
      var d := pages[rid.page];
      if UpdateRefused(d, rid.slot, t) { return Refused; }
      RemainingIs(d);
      if |t| > Free(d) { return Outside; }
      var r := Updated(d, rid.slot, t);
      if |t| <= Remaining(d) {
        UpdateKeeps(d, rid.slot, t);
        SwapKeeps(pages, chain, PlaceIn(chain, rid.page), rid.slot, r, t);
      }
      pages := pages[rid.page := r];
      o := Written;
    }

    // The first live slot of a page from a slot on.
    method SeekOnPage(id: int, slot: nat, ghost k: nat) returns (i: nat)
      requires Valid() && k < |chain| && chain[k] == id && PageOK(pages, id)
      ensures From(pages, chain, k, i) == From(pages, chain, k, slot)
      ensures i < Num(pages[id]) ==> IsLive(pages, RID(id, i))
    {
      i := slot;
      var d := pages[id];
      while i < Num(d) && Length(d, i) == 0
        invariant From(pages, chain, k, i) == From(pages, chain, k, slot)
      {
        SkipSlot(pages, chain, k, i);
        i := i + 1;
      }
      if i < Num(d) { LiveSlot(d, i); }
    }

    // The first live record from a slot on, on this page or a later one.
    method Seek(page: int, slot: nat, ghost place: nat) returns (rid: RID)
      requires Valid() && place < |chain| && chain[place] == page
      ensures Standing(pages, chain, rid) && Rest(pages, chain, rid) == From(pages, chain, place, slot)
    {
      var id, from := page, slot;
      ghost var k := place;
      while true
        invariant k < |chain| && id == chain[k] && From(pages, chain, k, from) == From(pages, chain, place, slot)
        decreases |chain| - k
      {
        assert PageOK(pages, chain[k]) && Linked(pages, chain, k);
        var i := SeekOnPage(id, from, k);
        if i < Num(pages[id]) {
          PlaceIs(chain, k);
          return RID(id, i);
        }
        TurnPage(pages, chain, k, i);
        var next := Next(pages[id]);
        if next == INVALID { return END; }
        id, from, k := next, 0, k + 1;
      }
    }

    /** The first live record, or the end. */
    method Begin() returns (rid: RID)
      requires Valid()
      ensures Standing(pages, chain, rid) && Rest(pages, chain, rid) == Contents()
    {
      StartIs(pages, chain);
      rid := Seek(first, 0, 0);
    }

    /** The next live record, or the end. */
    method Advance(rid: RID) returns (next: RID)
      requires Valid() && rid != END && Standing(pages, chain, rid)
      ensures Rest(pages, chain, rid) != [] && Standing(pages, chain, next) && Rest(pages, chain, next) == Rest(pages, chain, rid)[1..]
    {
      StandingRecord(pages, chain, rid);
      next := Seek(rid.page, rid.slot + 1, PlaceIn(chain, rid.page));
    }

    /** A full iteration visits every live record exactly once, in chain-and-slot order, and ends. */
    method Scan() returns (out: seq<Entry>)
      requires Valid()
      ensures out == Contents()
    {
      out := [];
      var it := Begin();
      ghost var all, n := Contents(), 0;
      while it != END
        invariant n <= |all| && out == all[..n] && Standing(pages, chain, it) && Rest(pages, chain, it) == all[n..]
        decreases |all| - n
      {
        var t := GetTuple(it);
        out := out + [(it, t)];
        n := n + 1;
        it := Advance(it);
      }
    }
  }

  /** The record was placed by first fit on a page of the chain. */
  ghost predicate Fitted(pages: Pages, chain: seq<int>, rid: RID, t: Bytes) {
    exists k :: 0 <= k < |chain| && PageOK(pages, chain[k]) && rid == RID(chain[k], Num(pages[chain[k]]))
             && HasRoom(pages[chain[k]], t) && NoRoomBefore(pages, chain, k, t)
  }
}
