/** The slotted table page: a header, a directory of slots growing up and records growing down. */
module TablePage {
  import opened Wrappers
  import opened Rids
  import opened PageBytes

  const HEADER := 16
  const SLOT := 4

  // ---------- Fields ----------

  // The next page's id is a signed word.
  function Next(d: Bytes): int
    requires |d| == PAGE_SIZE
  {
    var v := Get4(d, 0);
    if v < 0x8000_0000 then v else v - 0x1_0000_0000
  }

  function Num(d: Bytes): nat
    requires |d| == PAGE_SIZE
  {
    Get4(d, 4)
  }

  function Free(d: Bytes): nat
    requires |d| == PAGE_SIZE
  {
    Get4(d, 8)
  }

  function SlotAt(i: nat): nat {
    HEADER + SLOT * i
  }

  function Offset(d: Bytes, i: nat): nat
    requires |d| == PAGE_SIZE && SlotAt(i + 1) <= PAGE_SIZE
  {
    Get2(d, SlotAt(i))
  }

  function Length(d: Bytes, i: nat): nat
    requires |d| == PAGE_SIZE && SlotAt(i + 1) <= PAGE_SIZE
  {
    Get2(d, SlotAt(i) + 2)
  }

  /** Free bytes between the directory and the records, in unsigned 32-bit arithmetic. */
  function Remaining(d: Bytes): nat
    requires |d| == PAGE_SIZE
  {
    (Free(d) - SlotAt(Num(d))) % 0x1_0000_0000
  }

  // ---------- Sound pages ----------

  predicate Fits(d: Bytes) {
    |d| == PAGE_SIZE && SlotAt(Num(d)) <= Free(d) <= PAGE_SIZE
  }

  /** A live record lies in the record area. */
  predicate SlotOK(d: Bytes, i: nat)
    requires Fits(d) && i < Num(d)
  {
    Length(d, i) > 0 ==> Free(d) <= Offset(d, i) && Offset(d, i) + Length(d, i) <= PAGE_SIZE
  }

  predicate Disjoint(d: Bytes, i: nat, j: nat)
    requires Fits(d) && i < Num(d) && j < Num(d)
  {
    Length(d, i) > 0 && Length(d, j) > 0 ==> Apart(Offset(d, i), Length(d, i), Offset(d, j), Length(d, j))
  }

  /** Live records are clear of the directory and of each other. */
  predicate Sound(d: Bytes) {
    && Fits(d)
    && (forall i {:trigger SlotOK(d, i)} :: 0 <= i < Num(d) ==> SlotOK(d, i))
    && (forall i, j {:trigger Disjoint(d, i, j)} :: 0 <= i < j < Num(d) ==> Disjoint(d, i, j))
  }

  /** What a slot reads back as; a deleted slot reads as nothing. */
  function Record(d: Bytes, i: nat): Bytes
    requires Fits(d) && i < Num(d) && SlotOK(d, i)
  {
    if Length(d, i) == 0 then [] else d[Offset(d, i)..Offset(d, i) + Length(d, i)]
  }

  /** The page as a list of records. */
  function Records(d: Bytes): (rs: seq<Bytes>)
    requires Sound(d)
    ensures |rs| == Num(d) && forall i :: 0 <= i < Num(d) ==> SlotOK(d, i) && rs[i] == Record(d, i)
  {
    seq(Num(d), i requires 0 <= i < Num(d) => assert SlotOK(d, i); Record(d, i))
  }

  // ---------- Operations on the bytes ----------

  function Zeros(n: nat): (z: Bytes)
    ensures |z| == n && forall k :: 0 <= k < n ==> z[k] == 0
  {
    seq(n, _ => 0)
  }

  // A page id as the word that stores it.
  function IdWord(id: int): (v: nat)
    requires INVALID <= id < 0x8000_0000
    ensures v < 0x1_0000_0000
  {
    if id < 0 then id + 0x1_0000_0000 else id
  }

  function SetNext(d: Bytes, id: int): Bytes
    requires |d| == PAGE_SIZE && INVALID <= id < 0x8000_0000
  {
    Put(d, 0, Word4(IdWord(id)))
  }

  function Initial(next: int): Bytes
    requires INVALID <= next < 0x8000_0000
  {
    Put(Put(SetNext(Zeros(PAGE_SIZE), next), 4, Word4(0)), 8, Word4(PAGE_SIZE))
  }

  // A slot entry.
  function PutSlot(d: Bytes, i: nat, offset: nat, length: nat): (r: Bytes)
    requires |d| == PAGE_SIZE && SlotAt(i + 1) <= PAGE_SIZE && offset < 0x1_0000 && length < 0x1_0000
    ensures |r| == PAGE_SIZE
  {
    Put(Put(d, SlotAt(i), Word2(offset)), SlotAt(i) + 2, Word2(length))
  }

  // The free-space pointer and the bytes of a record.
  function PutBody(d: Bytes, free: nat, t: Bytes): (r: Bytes)
    requires |d| == PAGE_SIZE && free + |t| <= PAGE_SIZE
    ensures |r| == PAGE_SIZE
  {
    Put(Put(d, 8, Word4(free)), free, t)
  }

  // A record written just below the records there are, and its slot entry.
  function PutRecord(d: Bytes, i: nat, free: nat, t: Bytes): (r: Bytes)
    requires |d| == PAGE_SIZE && SlotAt(i + 1) <= PAGE_SIZE && free + |t| <= PAGE_SIZE
    ensures |r| == PAGE_SIZE
  {
    PutSlot(PutBody(d, free, t), i, free, |t|)
  }

  /** The page after an insertion that found room. */
  function Inserted(d: Bytes, t: Bytes): Bytes
    requires Fits(d) && |t| + SLOT <= Remaining(d)
  {
    Put(PutRecord(d, Num(d), Free(d) - |t|, t), 4, Word4(Num(d) + 1))
  }

  function Deleted(d: Bytes, i: nat): Bytes
    requires Fits(d) && i < Num(d)
  {
    PutSlot(d, i, 0, 0)
  }

  /** The guard of an update looks at the growth only. */
  predicate UpdateRefused(d: Bytes, i: nat, t: Bytes)
    requires Fits(d) && i < Num(d)
  {
    |t| > Length(d, i) && |t| - Length(d, i) > Remaining(d)
  }

  /** The update then takes the whole new size from the free space. */
  function Updated(d: Bytes, i: nat, t: Bytes): Bytes
    requires Fits(d) && i < Num(d) && |t| <= Free(d)
  {
    PutRecord(Deleted(d, i), i, Free(d) - |t|, t)
  }

  // ---------- Effects on the fields ----------

  lemma InitialSound(next: int)
    requires INVALID <= next < 0x8000_0000
    ensures Sound(Initial(next)) && Records(Initial(next)) == [] && Next(Initial(next)) == next
    ensures Remaining(Initial(next)) == PAGE_SIZE - HEADER
  {
    var d1 := SetNext(Zeros(PAGE_SIZE), next);
    var d2 := Put(d1, 4, Word4(0));
    Get4Put(Zeros(PAGE_SIZE), 0, IdWord(next));
    Get4Put(d1, 4, 0);
    Get4Kept(d1, 4, Word4(0), 0);
    Get4Put(d2, 8, PAGE_SIZE);
    Get4Kept(d2, 8, Word4(PAGE_SIZE), 0);
    Get4Kept(d2, 8, Word4(PAGE_SIZE), 4);
  }

  // A slot that a write does not touch.
  lemma SlotKept(d: Bytes, at: nat, bs: Bytes, i: nat)
    requires |d| == PAGE_SIZE && at + |bs| <= PAGE_SIZE && SlotAt(i + 1) <= PAGE_SIZE && Apart(at, |bs|, SlotAt(i), SLOT)
    ensures Offset(Put(d, at, bs), i) == Offset(d, i) && Length(Put(d, at, bs), i) == Length(d, i)
  {
    Get2Kept(d, at, bs, SlotAt(i));
    Get2Kept(d, at, bs, SlotAt(i) + 2);
  }

  // A header word that a write does not touch.
  lemma HeaderKept(d: Bytes, at: nat, bs: Bytes)
    requires |d| == PAGE_SIZE && HEADER <= at && at + |bs| <= PAGE_SIZE
    ensures var r := Put(d, at, bs); Next(r) == Next(d) && Num(r) == Num(d) && Free(r) == Free(d)
  {
    Get4Kept(d, at, bs, 0);
    Get4Kept(d, at, bs, 4);
    Get4Kept(d, at, bs, 8);
  }

  // The first n slots but one are the same.
  predicate SameSlots(d: Bytes, r: Bytes, n: nat, i: nat)
    requires |d| == |r| == PAGE_SIZE && SlotAt(n) <= PAGE_SIZE
  {
    forall k {:trigger Offset(r, k)} {:trigger Length(r, k)} :: 0 <= k < n && k != i ==>
      Offset(r, k) == Offset(d, k) && Length(r, k) == Length(d, k)
  }

  predicate SameFrom(d: Bytes, r: Bytes, at: nat)
    requires |d| == |r| == PAGE_SIZE
  {
    forall k {:trigger r[k]} :: at <= k < PAGE_SIZE ==> r[k] == d[k]
  }

  lemma SlotFields(d: Bytes, i: nat, offset: nat, length: nat, n: nat)
    requires |d| == PAGE_SIZE && SlotAt(i + 1) <= PAGE_SIZE && SlotAt(n) <= PAGE_SIZE && offset < 0x1_0000 && length < 0x1_0000
    ensures var r := PutSlot(d, i, offset, length);
      && Next(r) == Next(d) && Num(r) == Num(d) && Free(r) == Free(d)
      && Offset(r, i) == offset && Length(r, i) == length
      && SameSlots(d, r, n, i) && SameFrom(d, r, SlotAt(i + 1))
  {
    var d1 := Put(d, SlotAt(i), Word2(offset));
    var r := PutSlot(d, i, offset, length);
    HeaderKept(d, SlotAt(i), Word2(offset));
    HeaderKept(d1, SlotAt(i) + 2, Word2(length));
    Get2Put(d, SlotAt(i), offset);
    Get2Kept(d1, SlotAt(i) + 2, Word2(length), SlotAt(i));
    Get2Put(d1, SlotAt(i) + 2, length);
    forall k {:trigger Offset(r, k)} | 0 <= k < n && k != i ensures Offset(r, k) == Offset(d, k) && Length(r, k) == Length(d, k) {
      SlotKept(d, SlotAt(i), Word2(offset), k);
      SlotKept(d1, SlotAt(i) + 2, Word2(length), k);
    }
  }

  lemma BodyFields(d: Bytes, free: nat, t: Bytes, n: nat)
    requires |d| == PAGE_SIZE && SlotAt(n) <= free && free + |t| <= PAGE_SIZE
    ensures var r := PutBody(d, free, t);
      && Next(r) == Next(d) && Num(r) == Num(d) && Free(r) == free
      && r[free..free + |t|] == t && SameSlots(d, r, n, n) && SameFrom(d, r, free + |t|)
  {
    var d1 := Put(d, 8, Word4(free));
    var r := PutBody(d, free, t);
    Get4Put(d, 8, free);
    Get4Kept(d, 8, Word4(free), 0);
    Get4Kept(d, 8, Word4(free), 4);
    HeaderKept(d1, free, t);
    RangePut(d1, free, t);
    forall k {:trigger Offset(r, k)} | 0 <= k < n ensures Offset(r, k) == Offset(d, k) && Length(r, k) == Length(d, k) {
      SlotKept(d, 8, Word4(free), k);
      SlotKept(d1, free, t, k);
    }
  }

  // The fields after writing a record clear of the directory's first n slots.
  lemma PutRecordFields(d: Bytes, i: nat, free: nat, t: Bytes, n: nat)
    requires |d| == PAGE_SIZE && SlotAt(n) <= free && SlotAt(i + 1) <= free && free + |t| <= PAGE_SIZE
    ensures var r := PutRecord(d, i, free, t);
      && Next(r) == Next(d) && Num(r) == Num(d) && Free(r) == free
      && Offset(r, i) == free && Length(r, i) == |t| && r[free..free + |t|] == t
      && SameSlots(d, r, n, i) && SameFrom(d, r, free + |t|)
  {
    var b := PutBody(d, free, t);
    BodyFields(d, free, t, n);
    SlotFields(b, i, free, |t|, n);
    assert PutRecord(d, i, free, t)[free..free + |t|] == b[free..free + |t|];
  }

  // ---------- Effects on the records ----------

  // A page that differs from a sound one in one slot, whose record is new and lies below all others.
  predicate OneNew(d: Bytes, r: Bytes, i: nat, t: Bytes)
    requires Sound(d) && |r| == PAGE_SIZE
  {
    && Fits(r) && Free(r) <= Free(d) && i <= Num(d) && Num(r) == (if i == Num(d) then i + 1 else Num(d))
    && SameSlots(d, r, Num(d), i) && SameFrom(d, r, Free(d))
    && Length(r, i) == |t| && (|t| > 0 ==> Free(r) == Offset(r, i) == Free(d) - |t| && r[Free(r)..Free(d)] == t)
  }

  lemma OneNewSound(d: Bytes, r: Bytes, i: nat, t: Bytes)
    requires Sound(d) && |r| == PAGE_SIZE && OneNew(d, r, i, t)
    ensures Sound(r)
  {
    forall k | 0 <= k < Num(r) ensures SlotOK(r, k) { if k != i { assert SlotOK(d, k); } }
    forall j, k | 0 <= j < k < Num(r) ensures Disjoint(r, j, k) {
      if j != i && k != i { assert Disjoint(d, j, k); }
      else if k == i { assert SlotOK(d, j); }
      else { assert SlotOK(d, k); }
    }
  }

  // What a slot of the changed page reads back as.
  lemma OneNewRecord(d: Bytes, r: Bytes, i: nat, t: Bytes, k: nat)
    requires Sound(d) && |r| == PAGE_SIZE && OneNew(d, r, i, t) && Sound(r) && k < Num(r)
    ensures Records(r)[k] == if k == i then t else Records(d)[k]
  {
    if k != i {
      assert SlotOK(d, k);
      var at, n := Offset(d, k), Length(d, k);
      assert Offset(r, k) == at && Length(r, k) == n;
      if n > 0 { assert r[at..at + n] == d[at..at + n]; }
    }
  }

  lemma OneSlotChanged(d: Bytes, r: Bytes, i: nat, t: Bytes)
    requires Sound(d) && |r| == PAGE_SIZE && OneNew(d, r, i, t)
    ensures Sound(r) && Records(r) == if i == Num(d) then Records(d) + [t] else Records(d)[i := t]
  {
    OneNewSound(d, r, i, t);
    var want := if i == Num(d) then Records(d) + [t] else Records(d)[i := t];
    forall k | 0 <= k < Num(r) ensures Records(r)[k] == want[k] { OneNewRecord(d, r, i, t, k); }
  }

  // Counting one more slot.
  lemma NumFields(d: Bytes, m: nat, n: nat)
    requires |d| == PAGE_SIZE && m < 0x1_0000_0000 && SlotAt(n) <= PAGE_SIZE
    ensures var r := Put(d, 4, Word4(m));
      && Next(r) == Next(d) && Num(r) == m && Free(r) == Free(d) && SameSlots(d, r, n, n) && SameFrom(d, r, HEADER)
  {
    var r := Put(d, 4, Word4(m));
    Get4Put(d, 4, m);
    Get4Kept(d, 4, Word4(m), 0);
    Get4Kept(d, 4, Word4(m), 8);
    forall k {:trigger Offset(r, k)} | 0 <= k < n ensures Offset(r, k) == Offset(d, k) && Length(r, k) == Length(d, k) {
      SlotKept(d, 4, Word4(m), k);
    }
  }

  // No wrap-around on a page whose directory and records do not overlap.
  lemma RemainingIs(d: Bytes)
    requires Fits(d)
    ensures Remaining(d) == Free(d) - SlotAt(Num(d))
  {
  }

  // A page with one more record and a slot counted for it.
  lemma GrownFields(d: Bytes, p: Bytes, r: Bytes, t: Bytes)
    requires Sound(d) && |p| == |r| == PAGE_SIZE && |t| + SLOT <= Remaining(d) && |t| <= Free(d)
    requires Free(p) == Free(d) - |t| && Offset(p, Num(d)) == Free(p) && Length(p, Num(d)) == |t| && p[Free(p)..Free(d)] == t
    requires SameSlots(d, p, Num(d), Num(d)) && SameFrom(d, p, Free(d))
    requires Num(r) == Num(d) + 1 && Free(r) == Free(p) && SameSlots(p, r, Num(d) + 1, Num(d) + 1) && SameFrom(p, r, HEADER)
    ensures OneNew(d, r, Num(d), t)
  {
    RemainingIs(d);
    var n, free := Num(d), Free(p);
    assert Offset(r, n) == Offset(p, n) && Length(r, n) == Length(p, n);
    assert r[free..Free(d)] == p[free..Free(d)];
    forall k {:trigger Offset(r, k)} | 0 <= k < n ensures Offset(r, k) == Offset(d, k) && Length(r, k) == Length(d, k) {
      assert Offset(p, k) == Offset(d, k);
    }
  }

  lemma InsertFields(d: Bytes, t: Bytes)
    requires Sound(d) && |t| + SLOT <= Remaining(d)
    ensures var r := Inserted(d, t);
      && OneNew(d, r, Num(d), t) && Next(r) == Next(d) && Num(r) == Num(d) + 1 && Free(r) == Free(d) - |t|
  {
    RemainingIs(d);
    var n, free := Num(d), Free(d) - |t|;
    var p, r := PutRecord(d, n, free, t), Inserted(d, t);
    PutRecordFields(d, n, free, t, n);
    NumFields(p, n + 1, n + 1);
    GrownFields(d, p, r, t);
  }

  /** Insertion appends a record, keeps all others and the next page, and uses up the record and a slot. */
  lemma InsertKeeps(d: Bytes, t: Bytes)
    requires Sound(d) && |t| + SLOT <= Remaining(d)
    ensures var r := Inserted(d, t);
      && Sound(r) && Records(r) == Records(d) + [t] && Next(r) == Next(d) && Remaining(r) == Remaining(d) - |t| - SLOT
  {
    InsertFields(d, t);
    OneSlotChanged(d, Inserted(d, t), Num(d), t);
    RemainingIs(d);
    RemainingIs(Inserted(d, t));
  }

  /** Deletion empties one record and keeps all others, the next page and the free space. */
  lemma DeleteKeeps(d: Bytes, i: nat)
    requires Sound(d) && i < Num(d)
    ensures var r := Deleted(d, i);
      && Sound(r) && Records(r) == Records(d)[i := []] && Next(r) == Next(d) && Remaining(r) == Remaining(d)
  {
    SlotFields(d, i, 0, 0, Num(d));
    OneSlotChanged(d, Deleted(d, i), i, []);
  }

  lemma UpdateFields(d: Bytes, i: nat, t: Bytes)
    requires Sound(d) && i < Num(d) && |t| <= Remaining(d)
    ensures |t| <= Free(d)
    ensures var r := Updated(d, i, t);
      && OneNew(d, r, i, t) && Next(r) == Next(d) && Num(r) == Num(d) && Free(r) == Free(d) - |t|
  {
    RemainingIs(d);
    var e, r, free := Deleted(d, i), Updated(d, i, t), Free(d) - |t|;
    SlotFields(d, i, 0, 0, Num(d));
    PutRecordFields(e, i, free, t, Num(d));
    assert SameSlots(d, r, Num(d), i) && SameFrom(d, r, Free(d));
  }

  /** An update that fits the free space replaces one record and keeps all others and the next page. */
  lemma UpdateKeeps(d: Bytes, i: nat, t: Bytes)
    requires Sound(d) && i < Num(d) && |t| <= Remaining(d)
    ensures |t| <= Free(d)
    ensures var r := Updated(d, i, t);
      && Sound(r) && Records(r) == Records(d)[i := t] && Next(r) == Next(d) && Remaining(r) == Remaining(d) - |t|
  {
    UpdateFields(d, i, t);
    OneSlotChanged(d, Updated(d, i, t), i, t);
    RemainingIs(d);
    RemainingIs(Updated(d, i, t));
  }

  /** The page is sound and its records are the old ones with one replaced. */
  predicate Replaced(d: Bytes, r: Bytes, i: nat, t: Bytes)
    requires Sound(d) && i < Num(d)
  {
    Sound(r) && Records(r) == Records(d)[i := t]
  }

  lemma UpdateSlot(d: Bytes, i: nat, t: Bytes)
    requires Fits(d) && i < Num(d) && |t| <= Free(d)
    ensures Offset(Updated(d, i, t), i) == Free(d) - |t| && Length(Updated(d, i, t), i) == |t|
  {
    var b := PutBody(Deleted(d, i), Free(d) - |t|, t);
    SlotFields(b, i, Free(d) - |t|, |t|, 0);
  }

  // A record that reaches into the directory cannot be in a sound page of as many slots.
  lemma UpdateBreaks(d: Bytes, i: nat, t: Bytes)
    requires Sound(d) && i < Num(d) && |t| <= Free(d) && |t| > Remaining(d)
    ensures !Replaced(d, Updated(d, i, t), i, t)
  {
    RemainingIs(d);
    UpdateSlot(d, i, t);
    var r := Updated(d, i, t);
    if Replaced(d, r, i, t) { SlotPlace(r, i); }
  }

  // Where a sound page keeps a live record.
  lemma SlotPlace(r: Bytes, i: nat)
    requires Sound(r) && i < |Records(r)| && Length(r, i) > 0
    ensures Offset(r, i) >= SlotAt(|Records(r)|)
  {
    assert SlotOK(r, i);
  }

  /** An update whose guard lets it pass does what it should exactly when the whole new record fits the free
      space. */
  lemma UpdateIff(d: Bytes, i: nat, t: Bytes)
    requires Sound(d) && i < Num(d) && |t| <= Free(d)
    ensures Replaced(d, Updated(d, i, t), i, t) <==> |t| <= Remaining(d)
  {
    if |t| <= Remaining(d) { UpdateKeeps(d, i, t); } else { UpdateBreaks(d, i, t); }
  }

  /** The guard lets records through that do not fit: once the free space is used up, it passes every update
      to a record of the same size, and each of them either writes outside the page or spoils it. */
  lemma GuardTooWeak(d: Bytes, i: nat, t: Bytes)
    requires Sound(d) && i < Num(d) && Remaining(d) == 0 && |t| == Length(d, i) > 0
    ensures !UpdateRefused(d, i, t) && (|t| > Free(d) || !Replaced(d, Updated(d, i, t), i, t))
  {
    if |t| <= Free(d) { UpdateBreaks(d, i, t); }
  }

  /** Such pages come up: a record that takes all the free space left on a page fills it, and then no record
      of that size can be updated into its slot. */
  lemma FillsPage(d: Bytes, t: Bytes, u: Bytes)
    requires Sound(d) && |t| + SLOT == Remaining(d) && |u| == |t| > 0
    ensures var r, i := Inserted(d, t), Num(d);
      && Sound(r) && Records(r) == Records(d) + [t] && Remaining(r) == 0 && i < Num(r)
      && !UpdateRefused(r, i, u) && (|u| > Free(r) || !Replaced(r, Updated(r, i, u), i, u))
  {
    InsertKeeps(d, t);
    var r, i := Inserted(d, t), Num(d);
    assert SlotOK(r, i) && Records(r)[i] == t;
    assert Length(r, i) == |Record(r, i)|;
    GuardTooWeak(r, i, u);
  }

  /** On a new page a single record of 4076 bytes does so. */
  lemma FillsNewPage(t: Bytes, u: Bytes)
    requires |u| == |t| == PAGE_SIZE - HEADER - SLOT
    ensures var d := Initial(INVALID);
      && Sound(d) && |t| + SLOT == Remaining(d)
      && Remaining(Inserted(d, t)) == 0 && Num(Inserted(d, t)) == 1 && !UpdateRefused(Inserted(d, t), 0, u)
      && |u| > Free(Inserted(d, t))
  {
    var d := Initial(INVALID);
    InitialSound(INVALID);
    FillsPage(d, t, u);
    RemainingIs(Inserted(d, t));
  }

  // ---------- Runs ----------

  datatype Op = Insert(t: Bytes) | Delete(i: nat) | Update(i: nat, t: Bytes)

  /** A page as its records and its free room, with no bytes in sight. */
  datatype Model = Model(records: seq<Bytes>, room: nat)

  function ModelOf(d: Bytes): Model
    requires Sound(d)
  {
    Model(Records(d), Remaining(d))
  }

  predicate Refuses(m: Model, i: nat, t: Bytes)
    requires i < |m.records|
  {
    |t| > |m.records[i]| && |t| - |m.records[i]| > m.room
  }

  // Slots must exist, and an update must be refused or fit.
  predicate CanDo(m: Model, op: Op) {
    match op
    case Insert(_) => true
    case Delete(i) => i < |m.records|
    case Update(i, t) => i < |m.records| && (Refuses(m, i, t) || |t| <= m.room)
  }

  function Do(m: Model, op: Op): Model
    requires CanDo(m, op)
  {
    match op
    case Insert(t) => if m.room < |t| + SLOT then m else Model(m.records + [t], m.room - |t| - SLOT)
    case Delete(i) => m.(records := m.records[i := []])
    case Update(i, t) => if Refuses(m, i, t) then m else Model(m.records[i := t], m.room - |t|)
  }

  // The same operation on the bytes.
  function DoBytes(d: Bytes, op: Op): Bytes
    requires Sound(d) && CanDo(ModelOf(d), op)
  {
    match op
    case Insert(t) => if Remaining(d) < |t| + SLOT then d else Inserted(d, t)
    case Delete(i) => Deleted(d, i)
    case Update(i, t) => if UpdateRefused(d, i, t) then d else (RemainingIs(d); Updated(d, i, t))
  }

  lemma DoAgrees(d: Bytes, op: Op)
    requires Sound(d) && CanDo(ModelOf(d), op)
    ensures Sound(DoBytes(d, op)) && ModelOf(DoBytes(d, op)) == Do(ModelOf(d), op) && Next(DoBytes(d, op)) == Next(d)
  {
    match op {
      case Insert(t) => if Remaining(d) >= |t| + SLOT { InsertKeeps(d, t); }
      case Delete(i) => DeleteKeeps(d, i);
      case Update(i, t) => if !UpdateRefused(d, i, t) { UpdateKeeps(d, i, t); }
    }
  }

  predicate CanDoAll(m: Model, ops: seq<Op>)
    decreases |ops|
  {
    ops != [] ==> CanDo(m, ops[0]) && CanDoAll(Do(m, ops[0]), ops[1..])
  }

  function DoAll(m: Model, ops: seq<Op>): Model
    requires CanDoAll(m, ops)
    decreases |ops|
  {
    if ops == [] then m else DoAll(Do(m, ops[0]), ops[1..])
  }

  function BytesAfter(d: Bytes, ops: seq<Op>): Bytes
    requires Sound(d) && CanDoAll(ModelOf(d), ops)
    decreases |ops|
  {
    if ops == [] then d else (DoAgrees(d, ops[0]); BytesAfter(DoBytes(d, ops[0]), ops[1..]))
  }

  /** Over any run of insertions, deletions and fitting updates the page stays sound, and every record reads
      back as it was last written. */
  lemma {:induction false} RunKeeps(d: Bytes, ops: seq<Op>)
    requires Sound(d) && CanDoAll(ModelOf(d), ops)
    ensures var r := BytesAfter(d, ops); Sound(r) && ModelOf(r) == DoAll(ModelOf(d), ops) && Next(r) == Next(d)
    decreases |ops|
  {
    if ops != [] {
      DoAgrees(d, ops[0]);
      RunKeeps(DoBytes(d, ops[0]), ops[1..]);
    }
  }

  // ---------- The page object ----------

  // An update is refused, written, or would write outside the page.
  datatype Outcome = Refused | Written | Outside

  class Page {
    const data: array<Byte>

    constructor ()
      ensures fresh(data) && data.Length == PAGE_SIZE
    {
      data := new Byte[PAGE_SIZE](_ => 0);
    }

    method Init(next: int)
      requires data.Length == PAGE_SIZE && INVALID <= next < 0x8000_0000
      modifies data
      ensures data[..] == Initial(next) && Sound(data[..]) && Records(data[..]) == []
    {
      Copy(data, 0, Zeros(PAGE_SIZE));
      assert data[..] == Zeros(PAGE_SIZE);
      Copy(data, 0, Word4(IdWord(next)));
      Copy(data, 4, Word4(0));
      Copy(data, 8, Word4(PAGE_SIZE));
      InitialSound(next);
    }

    method SetNextPageId(next: int)
      requires data.Length == PAGE_SIZE && INVALID <= next < 0x8000_0000
      modifies data
      ensures data[..] == SetNext(old(data[..]), next)
    {
      Copy(data, 0, Word4(IdWord(next)));
    }

    // The record, its slot and the free-space pointer.
    method Place(i: nat, free: nat, t: Bytes)
      requires data.Length == PAGE_SIZE && SlotAt(i + 1) <= PAGE_SIZE && free + |t| <= PAGE_SIZE
      modifies data
      ensures data[..] == PutRecord(old(data[..]), i, free, t)
    {
      Copy(data, 8, Word4(free));
      Copy(data, free, t);
      Copy(data, SlotAt(i), Word2(free));
      Copy(data, SlotAt(i) + 2, Word2(|t|));
    }

    method InsertTuple(t: Bytes) returns (slot: Option<nat>)
      requires data.Length == PAGE_SIZE && Sound(data[..])
      modifies data
      ensures Sound(data[..]) && Next(data[..]) == old(Next(data[..]))
      ensures slot == if old(Remaining(data[..])) < |t| + SLOT then None else Some(old(Num(data[..])))
      ensures slot == None ==> data[..] == old(data[..])
      ensures slot.Some? ==> data[..] == Inserted(old(data[..]), t) && Records(data[..]) == old(Records(data[..])) + [t]
    {
      ghost var d := data[..];
      if Remaining(data[..]) < |t| + SLOT { return None; }
      var n, free := Num(data[..]), Free(data[..]) - |t|;
      InsertKeeps(d, t);
      Place(n, free, t);
      Copy(data, 4, Word4(n + 1));
      slot := Some(n);
    }

    method GetTuple(i: nat) returns (t: Bytes)
      requires data.Length == PAGE_SIZE && Sound(data[..]) && i < Num(data[..])
      ensures t == Records(data[..])[i]
    {
      assert SlotOK(data[..], i);
      var offset, length := Offset(data[..], i), Length(data[..], i);
      if length == 0 { return []; }
      t := data[offset..offset + length];
    }

    method DeleteTuple(i: nat)
      requires data.Length == PAGE_SIZE && Sound(data[..]) && i < Num(data[..])
      modifies data
      ensures data[..] == Deleted(old(data[..]), i) && Sound(data[..]) && Next(data[..]) == old(Next(data[..]))
      ensures Records(data[..]) == old(Records(data[..]))[i := []]
    {
      ghost var d := data[..];
      DeleteKeeps(d, i);
      Copy(data, SlotAt(i) + 2, Word2(0));
      Copy(data, SlotAt(i), Word2(0));
      assert data[..] == PutSlot(d, i, 0, 0);
    }

    /** As the code stands: what the guard lets through is written at the new free-space pointer. */
    method UpdateTuple(i: nat, t: Bytes) returns (o: Outcome)
      requires data.Length == PAGE_SIZE && Sound(data[..]) && i < Num(data[..])
      modifies data
      ensures o.Refused? <==> old(UpdateRefused(data[..], i, t))
      ensures o.Refused? ==> data[..] == old(data[..])
      ensures o.Outside? <==> !old(UpdateRefused(data[..], i, t)) && |t| > old(Free(data[..]))
      ensures o.Written? ==> data[..] == Updated(old(data[..]), i, t)
      ensures o.Written? ==> (Replaced(old(data[..]), data[..], i, t) <==> |t| <= old(Remaining(data[..])))
    {
      ghost var d := data[..];
      if |t| > Length(data[..], i) && |t| - Length(data[..], i) > Remaining(data[..]) { return Refused; }
      var free := Free(data[..]);
      DeleteTuple(i);
      SlotFields(d, i, 0, 0, 0);
      if |t| > free { return Outside; }
      Place(i, free - |t|, t);
      UpdateIff(d, i, t);
      o := Written;
    }
  }
}
