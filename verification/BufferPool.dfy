/** The buffer pool: a write-back cache of pages in a fixed number of frames. Its clients see a plain
    store of pages; evictions, write-backs and re-reads cannot be told from it. */
module BufferPool {
  import opened Wrappers
  import opened Rids
  import opened LruK

  datatype Frame<D> = Frame(page: PageId, data: D, pins: nat, dirty: bool)

  type Entries = map<FrameId, FrameEntry>

  /** A page never written reads as zeroes. */
  function OnDisk<D>(disk: map<PageId, D>, zero: D, p: PageId): D {
    if p in disk then disk[p] else zero
  }

  /** The disk after a frame's page has been forgotten: a dirty page is written back first. */
  function WrittenBack<D>(disk: map<PageId, D>, fr: Frame<D>): map<PageId, D> {
    if fr.dirty then disk[fr.page := fr.data] else disk
  }

  /** What the next fetch returns once the frame's page has been evicted. */
  function ReadBack<D>(disk: map<PageId, D>, zero: D, fr: Frame<D>): D {
    OnDisk(WrittenBack(disk, fr), zero, fr.page)
  }

  // ---------- Bookkeeping ----------

  /** A frame is free, or resident: then the page table leads back to it and the replacer tracks it,
      as evictable exactly when it is not pinned. */
  ghost predicate FrameOK<D>(fs: seq<Frame<D>>, table: map<PageId, FrameId>, free: seq<FrameId>, entries: Entries, f: FrameId)
    requires f < |fs|
  {
    if fs[f].page == INVALID then f in free && f !in entries && fs[f].pins == 0 && !fs[f].dirty
    else && f !in free && f in entries && (entries[f].evictable <==> fs[f].pins == 0)
         && fs[f].page in table && table[fs[f].page] == f
  }

  ghost predicate TableOK<D>(fs: seq<Frame<D>>, table: map<PageId, FrameId>, p: PageId)
    requires p in table
  {
    0 <= p && table[p] < |fs| && fs[table[p]].page == p
  }

  /** All frames but `limbo` (one being reused, or -1) are accounted for. */
  ghost predicate Books<D>(fs: seq<Frame<D>>, table: map<PageId, FrameId>, free: seq<FrameId>, entries: Entries, limbo: int) {
    && Distinct(free) && (forall f :: f in free ==> f < |fs| && f != limbo && fs[f].page == INVALID)
    && (forall f :: f in entries ==> f < |fs| && f != limbo && fs[f].page != INVALID)
    && (forall f {:trigger FrameOK(fs, table, free, entries, f)} :: 0 <= f < |fs| && f != limbo ==> FrameOK(fs, table, free, entries, f))
    && (forall p {:trigger TableOK(fs, table, p)} :: p in table ==> TableOK(fs, table, p) && table[p] != limbo)
  }

  // ---------- Coherence with a plain page store ----------

  /** What the pool knows about page p agrees with the store. A resident page not marked dirty is
      on disk, unless a client is still writing it (`touched`), which it may do only while pinned. */
  ghost predicate PageOK<D>(fs: seq<Frame<D>>, table: map<PageId, FrameId>, disk: map<PageId, D>, zero: D,
                            store: map<PageId, D>, touched: set<PageId>, nextId: PageId, p: PageId)
  {
    && (p >= nextId ==> p !in store && p !in table && OnDisk(disk, zero, p) == zero)
    && (p in store ==> 0 <= p)
    && (p !in table ==> p !in touched && (p in store ==> OnDisk(disk, zero, p) == store[p]))
    && (p in table ==> table[p] < |fs| && var fr := fs[table[p]];
          && p in store && fr.data == store[p]
          && (fr.dirty || p in touched || OnDisk(disk, zero, p) == fr.data)
          && (p in touched ==> fr.pins > 0))
  }

  ghost predicate Coherent<D>(fs: seq<Frame<D>>, table: map<PageId, FrameId>, disk: map<PageId, D>, zero: D,
                              store: map<PageId, D>, touched: set<PageId>, nextId: PageId)
  {
    && nextId >= 0
    && forall p {:trigger PageOK(fs, table, disk, zero, store, touched, nextId, p)} ::
         PageOK(fs, table, disk, zero, store, touched, nextId, p)
  }

  function Pins<D>(fs: seq<Frame<D>>, table: map<PageId, FrameId>, p: PageId): nat {
    if p in table && table[p] < |fs| then fs[table[p]].pins else 0
  }

  // ---------- Steps on the books ----------

  lemma DistinctTail(s: seq<FrameId>)
    requires Distinct(s) && s != []
    ensures Distinct(s[1..]) && forall x :: x in s[1..] <==> x in s && x != s[0]
  {
    var t := s[1..];
    forall i | 0 <= i < |t| ensures t[i] == s[i + 1] && t[i] != s[0] {}
    forall x | x in s && x != s[0] ensures x in t {
      var i :| 0 <= i < |s| && s[i] == x;
      assert t[i - 1] == x;
    }
  }

  lemma TakeFree<D>(fs: seq<Frame<D>>, table: map<PageId, FrameId>, free: seq<FrameId>, entries: Entries)
    requires Books(fs, table, free, entries, -1) && free != []
    ensures free[0] < |fs| && Books(fs, table, free[1..], entries, free[0])
  {
    var f := free[0];
    DistinctTail(free);
    HeadIn(free);
    assert FrameOK(fs, table, free, entries, f);
    forall x | 0 <= x < |fs| && x != f ensures FrameOK(fs, table, free[1..], entries, x) {
      assert FrameOK(fs, table, free, entries, x);
    }
    forall p | p in table ensures TableOK(fs, table, p) && table[p] != f { assert TableOK(fs, table, p); }
  }

  lemma TakeVictim<D>(fs: seq<Frame<D>>, table: map<PageId, FrameId>, free: seq<FrameId>, entries: Entries, f: FrameId)
    requires Books(fs, table, free, entries, -1) && f in entries
    ensures f < |fs| && fs[f].page in table
    ensures Books(fs, table - {fs[f].page}, free, entries - {f}, f)
  {
    assert FrameOK(fs, table, free, entries, f);
    var t := table - {fs[f].page};
    forall x | 0 <= x < |fs| && x != f ensures FrameOK(fs, t, free, entries - {f}, x) {
      assert FrameOK(fs, table, free, entries, x);
    }
    forall p | p in t ensures TableOK(fs, t, p) && t[p] != f { assert TableOK(fs, table, p); }
  }

  /** Writing a dirty victim back before forgetting it loses nothing. */
  lemma WriteBack<D>(fs: seq<Frame<D>>, table: map<PageId, FrameId>, disk: map<PageId, D>, zero: D,
                     store: map<PageId, D>, touched: set<PageId>, nextId: PageId, p: PageId)
    requires Coherent(fs, table, disk, zero, store, touched, nextId) && p in table
    requires table[p] < |fs| && fs[table[p]].page == p && fs[table[p]].pins == 0
    ensures Coherent(fs, table - {p}, WrittenBack(disk, fs[table[p]]), zero, store, touched, nextId)
  {
    var d := WrittenBack(disk, fs[table[p]]);
    forall x ensures PageOK(fs, table - {p}, d, zero, store, touched, nextId, x) {
      assert PageOK(fs, table, disk, zero, store, touched, nextId, x);
    }
  }

  lemma Install<D>(fs: seq<Frame<D>>, table: map<PageId, FrameId>, free: seq<FrameId>, entries: Entries,
                   f: FrameId, p: PageId, d: D, es: Entries)
    requires f < |fs| && Books(fs, table, free, entries, f) && f !in free && p !in table && 0 <= p
    requires es.Keys == entries.Keys + {f} && !es[f].evictable
    requires forall x :: x in entries && x != f ==> es[x].evictable == entries[x].evictable
    ensures Books(fs[f := Frame(p, d, 1, false)], table[p := f], free, es, -1)
  {
    var gs, t := fs[f := Frame(p, d, 1, false)], table[p := f];
    forall x | 0 <= x < |gs| ensures FrameOK(gs, t, free, es, x) {
      if x != f { assert FrameOK(fs, table, free, entries, x); }
    }
    forall x | x in t ensures TableOK(gs, t, x) {
      if x != p { assert TableOK(fs, table, x); }
    }
  }

  lemma InstallCoherent<D>(fs: seq<Frame<D>>, table: map<PageId, FrameId>, disk: map<PageId, D>, zero: D,
                           store: map<PageId, D>, touched: set<PageId>, nextId: PageId, newId: PageId,
                           f: FrameId, p: PageId, d: D)
    requires Coherent(fs, table, disk, zero, store, touched, nextId)
    requires f < |fs| && (forall x :: x in table ==> table[x] != f) && p !in table
    requires 0 <= p < newId && nextId <= newId && (p >= nextId ==> newId == p + 1 && nextId == p)
    requires p < nextId ==> newId == nextId
    requires d == OnDisk(disk, zero, p)
    ensures Coherent(fs[f := Frame(p, d, 1, false)], table[p := f], disk, zero, store[p := d], touched, newId)
    ensures p in store ==> store[p := d] == store
  {
    var gs, t, st := fs[f := Frame(p, d, 1, false)], table[p := f], store[p := d];
    assert PageOK(fs, table, disk, zero, store, touched, nextId, p);
    forall x ensures PageOK(gs, t, disk, zero, st, touched, newId, x) {
      assert PageOK(fs, table, disk, zero, store, touched, nextId, x);
    }
  }

  // A resident frame changes its contents, pins and dirty mark but not its page.
  lemma TouchFrame<D>(fs: seq<Frame<D>>, table: map<PageId, FrameId>, free: seq<FrameId>, entries: Entries,
                      f: FrameId, fr: Frame<D>, es: Entries)
    requires Books(fs, table, free, entries, -1) && f in entries && f < |fs|
    requires fr.page == fs[f].page && es.Keys == entries.Keys
    requires es[f].evictable <==> fr.pins == 0
    requires forall x :: x in entries && x != f ==> es[x].evictable == entries[x].evictable
    ensures Books(fs[f := fr], table, free, es, -1)
  {
    var gs := fs[f := fr];
    assert FrameOK(fs, table, free, entries, f);
    forall x | 0 <= x < |fs| ensures FrameOK(gs, table, free, es, x) {
      assert FrameOK(fs, table, free, entries, x);
    }
    forall p | p in table ensures TableOK(gs, table, p) { assert TableOK(fs, table, p); }
  }

  lemma OneFrame<D>(fs: seq<Frame<D>>, table: map<PageId, FrameId>, free: seq<FrameId>, entries: Entries, p: PageId, q: PageId)
    requires Books(fs, table, free, entries, -1) && p in table && q in table && table[p] == table[q]
    ensures p == q
  {
    assert TableOK(fs, table, p) && TableOK(fs, table, q);
  }

  lemma ReleaseFrame<D>(fs: seq<Frame<D>>, table: map<PageId, FrameId>, free: seq<FrameId>, entries: Entries,
                        f: FrameId, blank: Frame<D>)
    requires f < |fs| && Books(fs, table, free, entries, f) && f !in free
    requires blank.page == INVALID && blank.pins == 0 && !blank.dirty
    ensures Books(fs[f := blank], table, free + [f], entries, -1)
  {
    var gs, fl := fs[f := blank], free + [f];
    forall x | 0 <= x < |fs| ensures FrameOK(gs, table, fl, entries, x) {
      if x != f {
        assert FrameOK(fs, table, free, entries, x);
        assert x in fl <==> x in free;
      } else {
        assert fl[|free|] == f;
      }
    }
    forall p | p in table ensures TableOK(gs, table, p) { assert TableOK(fs, table, p); }
  }

  lemma HeadIn(s: seq<FrameId>)
    ensures s != [] ==> s[0] in s
  {
  }

  lemma InstallPins<D>(fs: seq<Frame<D>>, table: map<PageId, FrameId>, f: FrameId, p: PageId, d: D)
    requires f < |fs| && p !in table && forall x :: x in table ==> table[x] != f
    ensures forall q :: Pins(fs[f := Frame(p, d, 1, false)], table[p := f], q) == if q == p then 1 else Pins(fs, table, q)
  {
    var gs, t := fs[f := Frame(p, d, 1, false)], table[p := f];
    forall q ensures Pins(gs, t, q) == if q == p then 1 else Pins(fs, table, q) {
      if q != p && q in table { assert t[q] == table[q] && table[q] != f; }
    }
  }

  // Changing one frame's pins changes the pin count of its page only.
  lemma TouchPins<D>(fs: seq<Frame<D>>, table: map<PageId, FrameId>, p: PageId, fr: Frame<D>)
    requires p in table && table[p] < |fs| && forall x :: x in table && x != p ==> table[x] != table[p]
    ensures forall q :: Pins(fs[table[p] := fr], table, q) == if q == p then fr.pins else Pins(fs, table, q)
  {
    var gs := fs[table[p] := fr];
    forall q ensures Pins(gs, table, q) == if q == p then fr.pins else Pins(fs, table, q) {
      if q != p && q in table { assert table[q] != table[p]; }
    }
  }

  /** A resident page's frame takes new contents, pins or mark; disk and store may follow. */
  lemma TouchCoherent<D>(fs: seq<Frame<D>>, table: map<PageId, FrameId>, disk: map<PageId, D>, zero: D,
                         store: map<PageId, D>, touched: set<PageId>, nextId: PageId, p: PageId,
                         fr: Frame<D>, d: map<PageId, D>, t: set<PageId>)
    requires Coherent(fs, table, disk, zero, store, touched, nextId)
    requires p in table && table[p] < |fs| && forall x :: x in table && x != p ==> table[x] != table[p]
    requires d == disk || d == disk[p := fr.data]
    requires forall x :: x != p ==> (x in t <==> x in touched)
    requires (fr.dirty || p in t || OnDisk(d, zero, p) == fr.data) && (p in t ==> fr.pins > 0)
    ensures Coherent(fs[table[p] := fr], table, d, zero, store[p := fr.data], t, nextId)
  {
    var gs, st := fs[table[p] := fr], store[p := fr.data];
    assert PageOK(fs, table, disk, zero, store, touched, nextId, p);
    forall x ensures PageOK(gs, table, d, zero, st, t, nextId, x) {
      assert PageOK(fs, table, disk, zero, store, touched, nextId, x);
      if x in table && x != p { assert table[x] != table[p]; }
    }
  }

  lemma TouchOK<D>(fs: seq<Frame<D>>, table: map<PageId, FrameId>, free: seq<FrameId>, entries: Entries,
                   disk: map<PageId, D>, zero: D, store: map<PageId, D>, touched: set<PageId>, nextId: PageId,
                   p: PageId, fr: Frame<D>, d: map<PageId, D>, t: set<PageId>)
    requires Books(fs, table, free, entries, -1) && Coherent(fs, table, disk, zero, store, touched, nextId)
    requires p in table && table[p] < |fs|
    requires d == disk || d == disk[p := fr.data]
    requires forall x :: x != p ==> (x in t <==> x in touched)
    requires (fr.dirty || p in t || OnDisk(d, zero, p) == fr.data) && (p in t ==> fr.pins > 0)
    ensures Coherent(fs[table[p] := fr], table, d, zero, store[p := fr.data], t, nextId)
    ensures forall q :: Pins(fs[table[p] := fr], table, q) == if q == p then fr.pins else Pins(fs, table, q)
  {
    forall x | x in table && x != p ensures table[x] != table[p] {
      if table[x] == table[p] { OneFrame(fs, table, free, entries, x, p); }
    }
    TouchCoherent(fs, table, disk, zero, store, touched, nextId, p, fr, d, t);
    TouchPins(fs, table, p, fr);
  }

  class Pool<D(==)> {
    const frames: array<Frame<D>>
    const replacer: Replacer
    const zero: D
    var table: map<PageId, FrameId>
    var free: seq<FrameId>
    // the disk: contents written so far and the next page id it hands out
    var disk: map<PageId, D>
    var nextId: PageId
    // what clients have written, and the pages they may still be writing
    ghost var store: map<PageId, D>
    ghost var touched: set<PageId>

    constructor (size: nat, k: nat, zero: D)
      requires k >= 1
      ensures Valid() && frames.Length == size && store == map[] && touched == {}
      ensures forall p :: PinCount(p) == 0
      ensures fresh(frames) && fresh(replacer) && this.zero == zero
    {
      frames := new Frame<D>[size](_ => Frame(INVALID, zero, 0, false));
      replacer := new Replacer(size, k);
      this.zero := zero;
      table, free, disk, nextId := map[], seq(size, i requires 0 <= i < size => i), map[], 0;
      store, touched := map[], {};
      new;
      forall f | 0 <= f < size ensures FrameOK(frames[..], table, free, replacer.entries, f) {
        assert free[f] == f;
      }
    }

    ghost predicate BooksBut(limbo: int)
      reads this, frames, replacer
    {
      && replacer.Valid() && replacer.maxFrames == frames.Length
      && Books(frames[..], table, free, replacer.entries, limbo)
      && Coherent(frames[..], table, disk, zero, store, touched, nextId)
    }

    ghost predicate Valid()
      reads this, frames, replacer
    {
      BooksBut(-1)
    }

    ghost predicate AllPinned()
      reads frames
    {
      forall f :: 0 <= f < frames.Length ==> frames[f].pins > 0
    }

    function PinCount(p: PageId): nat
      reads this, frames
    {
      Pins(frames[..], table, p)
    }

    // The frame of a resident page and what the books say about it.
    lemma Resident(p: PageId)
      requires Valid() && p in table
      ensures 0 <= p < nextId && p in store && table[p] < frames.Length
      ensures var f := table[p];
        && frames[f].page == p && f in replacer.entries && f !in free
        && frames[f].data == store[p]
        && (replacer.entries[f].evictable <==> frames[f].pins == 0)
        && (frames[f].dirty || p in touched || OnDisk(disk, zero, p) == store[p])
        && (p in touched ==> frames[f].pins > 0)
    {
      assert TableOK(frames[..], table, p);
      assert FrameOK(frames[..], table, free, replacer.entries, table[p]);
      assert PageOK(frames[..], table, disk, zero, store, touched, nextId, p);
    }

    // With no free frame and nothing evictable, every frame is pinned; and the other way round.
    lemma WhenFull()
      requires Valid()
      ensures free == [] && replacer.Candidates() == {} <==> AllPinned()
    {
      if free == [] && replacer.Candidates() == {} {
        forall f | 0 <= f < frames.Length ensures frames[f].pins > 0 {
          assert FrameOK(frames[..], table, free, replacer.entries, f);
          assert f !in replacer.Candidates();
        }
      }
      if AllPinned() {
        forall f | 0 <= f < frames.Length ensures f !in free && f !in replacer.Candidates() {
          assert FrameOK(frames[..], table, free, replacer.entries, f);
        }
        HeadIn(free);
      }
    }

    // Steps 1 and 2 of NewPage and FetchPage: a free frame, or a victim whose page is written back.
    method Acquire() returns (r: Option<FrameId>)
      requires Valid()
      modifies this`free, this`table, this`disk, replacer
      ensures r == None <==> old(AllPinned())
      ensures r == None ==> Valid() && free == old(free) && table == old(table) && disk == old(disk)
      ensures r == None ==> replacer.entries == old(replacer.entries) && replacer.log == old(replacer.log)
      ensures r.Some? ==> r.value < frames.Length && BooksBut(r.value) && frames[r.value].pins == 0
      ensures r.Some? ==> r.value !in replacer.entries && r.value !in free
      ensures table.Keys <= old(table).Keys && forall q :: PinCount(q) == old(PinCount(q))
    {
      WhenFull();
      if free != [] {
        var f := free[0];
        TakeFree(frames[..], table, free, replacer.entries);
        assert f in free && FrameOK(frames[..], table, free, replacer.entries, f);
        free := free[1..];
        return Some(f);
      }
      var v := replacer.Evict();
      if v == Nothing { return None; }
      Reclaim(v.frame, old(replacer.entries));
      return Some(v.frame);
    }

    // Writes a victim's page back if it is dirty and forgets it.
    method Reclaim(f: FrameId, ghost entries: Entries)
      requires replacer.Valid() && replacer.maxFrames == frames.Length
      requires Books(frames[..], table, free, entries, -1) && Coherent(frames[..], table, disk, zero, store, touched, nextId)
      requires f in entries && entries[f].evictable && replacer.entries == entries - {f}
      modifies this`table, this`disk
      ensures f < frames.Length && BooksBut(f) && frames[f].pins == 0 && f !in free
      ensures disk == WrittenBack(old(disk), frames[f]) && table == old(table) - {frames[f].page}
      ensures table.Keys <= old(table).Keys && forall q :: PinCount(q) == old(PinCount(q))
    {
      TakeVictim(frames[..], table, free, entries, f);
      assert FrameOK(frames[..], table, free, entries, f);
      var page := frames[f];
      WriteBack(frames[..], table, disk, zero, store, touched, nextId, page.page);
      if page.dirty { disk := disk[page.page := page.data]; }
      table := table - {page.page};
    }

    // Records an access to a frame and takes it from the evictable ones.
    method PinFrame(f: FrameId)
      requires replacer.Valid() && f < replacer.maxFrames
      modifies replacer
      ensures replacer.Valid()
      ensures replacer.entries.Keys == old(replacer.entries).Keys + {f} && !replacer.entries[f].evictable
      ensures forall x :: x in old(replacer.entries) && x != f ==> replacer.entries[x].evictable == old(replacer.entries)[x].evictable
    {
      var _ := replacer.RecordAccess(f);
      replacer.SetEvictable(f, false);
    }

    // Step 3: page p, read from disk or zeroed, takes over the frame, pinned once.
    method Occupy(f: FrameId, p: PageId, ghost oldId: PageId)
      requires f < frames.Length && f !in replacer.entries && f !in free
      requires replacer.Valid() && replacer.maxFrames == frames.Length
      requires Books(frames[..], table, free, replacer.entries, f)
      requires Coherent(frames[..], table, disk, zero, store, touched, oldId)
      requires 0 <= p < nextId && p !in table && (if p < oldId then nextId == oldId else p == oldId && nextId == p + 1)
      modifies this`table, this`store, frames, replacer
      ensures Valid() && p in table && table[p] == f && frames[f] == Frame(p, OnDisk(disk, zero, p), 1, false)
      ensures store == old(store)[p := OnDisk(disk, zero, p)]
      ensures p in old(store) ==> old(store)[p] == OnDisk(disk, zero, p)
      ensures p == oldId ==> OnDisk(disk, zero, p) == zero
      ensures forall q :: PinCount(q) == if q == p then 1 else old(PinCount(q))
    {
      ghost var fs, t, es := frames[..], table, replacer.entries;
      var data := OnDisk(disk, zero, p);
      OccupyOK(fs, t, free, es, disk, zero, store, touched, oldId, nextId, f, p);
      frames[f] := Frame(p, data, 1, false);
      table := table[p := f];
      store := store[p := data];
      assert frames[..] == fs[f := Frame(p, data, 1, false)];
      PinFrame(f);
      Install(fs, t, free, es, f, p, data, replacer.entries);
    }

    /** A new zeroed page, pinned once; none exactly when every frame is pinned, and then nothing changes. */
    method NewPage() returns (r: Option<PageId>)
      requires Valid()
      modifies this`free, this`table, this`disk, this`nextId, this`store, frames, replacer
      ensures Valid() && (r == None <==> old(AllPinned()))
      ensures r == None ==> store == old(store) && nextId == old(nextId) && table == old(table) && disk == old(disk)
      ensures r == None ==> free == old(free) && frames[..] == old(frames[..])
      ensures r == None ==> replacer.entries == old(replacer.entries) && replacer.log == old(replacer.log)
      ensures r.Some? ==> r.value == old(nextId) && r.value !in old(store) && store == old(store)[r.value := zero]
      ensures forall q :: PinCount(q) == if r == Some(q) then 1 else old(PinCount(q))
    {
      var f := Acquire();
      if f == None { return None; }
      var p := nextId;
      assert PageOK(frames[..], table, disk, zero, store, touched, nextId, p);
      nextId := nextId + 1;
      Occupy(f.value, p, p);
      return Some(p);
    }

    /** Pins an allocated page and returns its contents: those last written, if it is in the store. */
    method FetchPage(p: PageId) returns (r: Option<D>)
      requires Valid() && 0 <= p < nextId
      modifies this`free, this`table, this`disk, this`store, frames, replacer
      ensures Valid() && (r == None <==> p !in old(table) && old(AllPinned()))
      ensures r == None ==> store == old(store) && table == old(table) && disk == old(disk)
      ensures r == None ==> free == old(free) && frames[..] == old(frames[..])
      ensures r == None ==> replacer.entries == old(replacer.entries) && replacer.log == old(replacer.log)
      ensures r.Some? ==> p in table && store == old(store)[p := r.value]
      ensures r.Some? && p in old(store) ==> r.value == old(store)[p]
      ensures forall q :: PinCount(q) == old(PinCount(q)) + if r.Some? && q == p then 1 else 0
    {
      if p in table {
        Resident(p);
        var f := table[p];
        ghost var fs, es := frames[..], replacer.entries;
        var fr := frames[f].(pins := frames[f].pins + 1);
        TouchOK(fs, table, free, es, disk, zero, store, touched, nextId, p, fr, disk, touched);
        frames[f] := fr;
        assert frames[..] == fs[f := fr];
        PinFrame(f);
        TouchFrame(fs, table, free, es, f, fr, replacer.entries);
        assert store[p := fr.data] == store;
        return Some(frames[f].data);
      }
      var f := Acquire();
      if f == None { return None; }
      Occupy(f.value, p, nextId);
      return Some(frames[f.value].data);
    }

    /** A client writes through the pointer of a page it has pinned. */
    method Write(p: PageId, data: D)
      requires Valid() && PinCount(p) > 0
      modifies this`store, this`touched, frames
      ensures Valid() && store == old(store)[p := data] && touched == old(touched) + {p}
      ensures forall q :: PinCount(q) == old(PinCount(q))
    {
      Resident(p);
      var f := table[p];
      ghost var fs := frames[..];
      var fr := frames[f].(data := data);
      TouchOK(fs, table, free, replacer.entries, disk, zero, store, touched, nextId, p, fr, disk, touched + {p});
      TouchFrame(fs, table, free, replacer.entries, f, fr, replacer.entries);
      frames[f] := fr;
      assert frames[..] == fs[f := fr];
      store := store[p := data];
      touched := touched + {p};
    }

    // What the client discipline asks of the last unpin of a written page.
    ghost predicate MayUnpin(p: PageId, isDirty: bool)
      reads this, frames
    {
      PinCount(p) == 1 && p in touched ==>
        isDirty || (table[p] < frames.Length && (frames[table[p]].dirty || OnDisk(disk, zero, p) == frames[table[p]].data))
    }

    // The pool is sound but for what it would read back for page p.
    ghost predicate ValidBut(p: PageId)
      reads this, frames, replacer
    {
      && replacer.Valid() && replacer.maxFrames == frames.Length && nextId >= 0
      && Books(frames[..], table, free, replacer.entries, -1)
      && forall q {:trigger PageOK(frames[..], table, disk, zero, store, touched, nextId, q)} ::
           q != p ==> PageOK(frames[..], table, disk, zero, store, touched, nextId, q)
    }

    /** Drops one pin; refused for a page that is not resident or not pinned. The pool stays sound exactly when
        the client keeps the discipline; otherwise it does for all other pages, and evicting the page will
        lose what was written to it. */
    method UnpinPage(p: PageId, isDirty: bool) returns (ok: bool)
      requires Valid()
      modifies this`touched, frames, replacer`entries, replacer`currSize
      ensures Valid() <==> old(MayUnpin(p, isDirty))
      ensures !Valid() ==> ValidBut(p) && p in table && table[p] < frames.Length
      ensures !Valid() ==> p in store && frames[table[p]].data == store[p] && ReadBack(disk, zero, frames[table[p]]) != store[p]
      ensures ok == (old(PinCount(p)) > 0)
      ensures forall q :: PinCount(q) == if ok && q == p then old(PinCount(q)) - 1 else old(PinCount(q))
      ensures touched <= old(touched) && (ok && PinCount(p) == 0 ==> p !in touched)
    {
      if p !in table { return false; }
      Resident(p);
      var f := table[p];
      if frames[f].pins <= 0 { return false; }
      ghost var fs, es := frames[..], replacer.entries;
      var fr := frames[f].(pins := frames[f].pins - 1, dirty := frames[f].dirty || isDirty);
      ghost var t := if fr.dirty || fr.pins == 0 then touched - {p} else touched;
      UnpinOK(fs, table, free, es, disk, zero, store, touched, nextId, p, fr, t);
      frames[f] := fr;
      assert frames[..] == fs[f := fr];
      touched := t;
      if fr.pins == 0 { replacer.SetEvictable(f, true); }
      TouchFrame(fs, table, free, es, f, fr, replacer.entries);
      return true;
    }

    /** Writes a resident page to disk, pinned or not. */
    method FlushPage(p: PageId) returns (ok: bool)
      requires Valid()
      modifies this`disk, this`touched, frames
      ensures Valid() && ok == (p in table) && touched <= old(touched)
      ensures ok ==> p in store && disk == old(disk)[p := store[p]] && p !in touched
      ensures !ok ==> disk == old(disk)
      ensures forall q :: PinCount(q) == old(PinCount(q))
    {
      if p in table { Resident(p); }
      if p == INVALID || p !in table { return false; }
      var f := table[p];
      ghost var fs := frames[..];
      var fr := frames[f].(dirty := false);
      TouchOK(fs, table, free, replacer.entries, disk, zero, store, touched, nextId, p, fr,
              disk[p := fr.data], touched - {p});
      TouchFrame(fs, table, free, replacer.entries, f, fr, replacer.entries);
      disk := disk[p := frames[f].data];
      frames[f] := fr;
      assert frames[..] == fs[f := fr];
      touched := touched - {p};
      assert store[p := fr.data] == store;
      return true;
    }

    /** After flushing everything each resident page is on disk as it is in the store. */
    method FlushAllPages()
      requires Valid()
      modifies this`disk, this`touched, frames
      ensures Valid() && touched <= old(touched)
      ensures forall q :: PinCount(q) == old(PinCount(q))
      ensures forall p :: p in table ==> p in store && OnDisk(disk, zero, p) == store[p]
    {
      for i := 0 to frames.Length
        invariant Valid() && touched <= old(touched)
        invariant forall q :: PinCount(q) == old(PinCount(q))
        invariant forall p :: p in table && table[p] < i ==> p in store && OnDisk(disk, zero, p) == store[p]
      {
        assert FrameOK(frames[..], table, free, replacer.entries, i);
        if frames[i].page != INVALID {
          forall p | p in table && table[p] == i ensures p == frames[i].page {
            OneFrame(frames[..], table, free, replacer.entries, p, frames[i].page);
          }
          var ok := FlushPage(frames[i].page);
        } else {
          forall p | p in table ensures table[p] != i { assert TableOK(frames[..], table, p); }
        }
      }
      forall p | p in table ensures table[p] < frames.Length { Resident(p); }
    }

    /** Refused for a pinned page. A page that is not resident is left as it is on disk. */
    method DeletePage(p: PageId) returns (ok: bool)
      requires Valid()
      modifies this`free, this`table, this`store, frames, replacer`entries, replacer`currSize, replacer`log
      ensures Valid() && ok == (old(PinCount(p)) == 0)
      ensures store == if ok && p in old(table) then old(store) - {p} else old(store)
      ensures ok ==> p !in table
      ensures forall q :: PinCount(q) == old(PinCount(q))
    {
      if p !in table { return true; }
      Resident(p);
      var f := table[p];
      if frames[f].pins > 0 { return false; }
      ghost var fs, t, es := frames[..], table, replacer.entries;
      DeleteOK(fs, t, free, es, disk, zero, store, touched, nextId, p, Frame(INVALID, zero, 0, false));
      table := table - {p};
      ok := replacer.Remove(f);
      free := free + [f];
      frames[f] := Frame(INVALID, zero, 0, false);
      assert frames[..] == fs[f := Frame(INVALID, zero, 0, false)];
      store := store - {p};
    }

    /** Fewer pinned pages than frames: then not every frame is pinned, so the next fetch or
        allocation succeeds. */
    lemma FewPinned(pinned: set<PageId>)
      requires Valid() && |pinned| < frames.Length && forall p :: PinCount(p) > 0 ==> p in pinned
      ensures !AllPinned()
    {
      if AllPinned() {
        forall f | 0 <= f < frames.Length ensures frames[..][f].pins > 0 && frames[..][f].page in pinned {
          assert FrameOK(frames[..], table, free, replacer.entries, f);
          assert PinCount(frames[f].page) > 0;
        }
        PagesOfFrames(frames[..], table, free, replacer.entries, frames.Length, pinned);
      }
    }
  }

  // A page unpinned: sound again if what would be read back is what was written.
  lemma UnpinOK<D>(fs: seq<Frame<D>>, table: map<PageId, FrameId>, free: seq<FrameId>, entries: Entries,
                   disk: map<PageId, D>, zero: D, store: map<PageId, D>, touched: set<PageId>, nextId: PageId,
                   p: PageId, fr: Frame<D>, t: set<PageId>)
    requires Books(fs, table, free, entries, -1) && Coherent(fs, table, disk, zero, store, touched, nextId)
    requires p in table && table[p] < |fs| && fs[table[p]].pins > 0
    requires fr == fs[table[p]].(pins := fs[table[p]].pins - 1, dirty := fr.dirty) && (fs[table[p]].dirty ==> fr.dirty)
    requires t == if fr.dirty || fr.pins == 0 then touched - {p} else touched
    ensures p in store && fr.data == store[p]
    ensures forall q :: Pins(fs[table[p] := fr], table, q) == if q == p then fr.pins else Pins(fs, table, q)
    ensures forall q {:trigger PageOK(fs[table[p] := fr], table, disk, zero, store, t, nextId, q)} ::
      q != p ==> PageOK(fs[table[p] := fr], table, disk, zero, store, t, nextId, q)
    ensures Coherent(fs[table[p] := fr], table, disk, zero, store, t, nextId)
       <==> (fr.pins == 0 && p in touched ==> fr.dirty || OnDisk(disk, zero, p) == fr.data)
  {
    var gs := fs[table[p] := fr];
    assert TableOK(fs, table, p) && PageOK(fs, table, disk, zero, store, touched, nextId, p);
    forall x | x in table && x != p ensures table[x] != table[p] {
      if table[x] == table[p] { OneFrame(fs, table, free, entries, x, p); }
    }
    TouchPins(fs, table, p, fr);
    forall q | q != p ensures PageOK(gs, table, disk, zero, store, t, nextId, q) {
      assert PageOK(fs, table, disk, zero, store, touched, nextId, q);
    }
    assert PageOK(gs, table, disk, zero, store, t, nextId, p)
      <==> (fr.pins == 0 && p in touched ==> fr.dirty || OnDisk(disk, zero, p) == fr.data);
  }

  /** The discipline is needed: when the last pin of a page goes and the frame is not marked dirty, evicting
      the page and fetching it again returns the contents of the disk, and not what the client wrote. What is
      read back is what was written exactly when the pool is still coherent with the store. */
  lemma CleanUnpinLosesWrite<D>(fs: seq<Frame<D>>, table: map<PageId, FrameId>, free: seq<FrameId>, entries: Entries,
                                disk: map<PageId, D>, zero: D, store: map<PageId, D>, touched: set<PageId>, nextId: PageId,
                                p: PageId, fr: Frame<D>)
    requires Books(fs, table, free, entries, -1) && Coherent(fs, table, disk, zero, store, touched, nextId)
    requires p in table && table[p] < |fs| && fs[table[p]].pins == 1
    requires fr == fs[table[p]].(pins := 0, dirty := fr.dirty) && (fs[table[p]].dirty ==> fr.dirty)
    ensures p in store && ReadBack(disk, zero, fr) == if fr.dirty then store[p] else OnDisk(disk, zero, p)
    ensures ReadBack(disk, zero, fr) == store[p]
       <==> Coherent(fs[table[p] := fr], table, disk, zero, store, touched - {p}, nextId)
  {
    assert TableOK(fs, table, p) && PageOK(fs, table, disk, zero, store, touched, nextId, p);
    UnpinOK(fs, table, free, entries, disk, zero, store, touched, nextId, p, fr, touched - {p});
  }

  // n pinned frames hold n different pages.
  lemma {:induction false} PagesOfFrames<D>(fs: seq<Frame<D>>, table: map<PageId, FrameId>, free: seq<FrameId>, entries: Entries,
                         n: nat, pinned: set<PageId>)
    requires Books(fs, table, free, entries, -1) && n <= |fs|
    requires forall f :: 0 <= f < n ==> fs[f].pins > 0 && fs[f].page in pinned
    ensures |pinned| >= n
    decreases n
  {
    if n > 0 {
      var p := fs[n - 1].page;
      assert FrameOK(fs, table, free, entries, n - 1);
      forall f | 0 <= f < n - 1 ensures fs[f].page in pinned - {p} {
        assert FrameOK(fs, table, free, entries, f);
      }
      PagesOfFrames(fs, table, free, entries, n - 1, pinned - {p});
    }
  }

  lemma DeleteOK<D>(fs: seq<Frame<D>>, table: map<PageId, FrameId>, free: seq<FrameId>, entries: Entries,
                    disk: map<PageId, D>, zero: D, store: map<PageId, D>, touched: set<PageId>, nextId: PageId,
                    p: PageId, blank: Frame<D>)
    requires Books(fs, table, free, entries, -1) && Coherent(fs, table, disk, zero, store, touched, nextId)
    requires p in table && table[p] < |fs| && fs[table[p]].pins == 0
    requires blank.page == INVALID && blank.pins == 0 && !blank.dirty
    ensures var f := table[p]; var gs, t := fs[f := blank], table - {p};
      && f in entries
      && Books(gs, t, free + [f], entries - {f}, -1)
      && Coherent(gs, t, disk, zero, store - {p}, touched, nextId)
      && forall q :: Pins(gs, t, q) == Pins(fs, table, q)
  {
    var f := table[p];
    var gs, t := fs[f := blank], table - {p};
    assert TableOK(fs, table, p) && FrameOK(fs, table, free, entries, f);
    TakeVictim(fs, table, free, entries, f);
    ReleaseFrame(fs, t, free, entries - {f}, f, blank);
    assert PageOK(fs, table, disk, zero, store, touched, nextId, p);
    forall x | x in table && x != p ensures table[x] != f {
      if table[x] == f { OneFrame(fs, table, free, entries, x, p); }
    }
    var st := store - {p};
    forall x ensures PageOK(gs, t, disk, zero, st, touched, nextId, x) {
      assert PageOK(fs, table, disk, zero, store, touched, nextId, x);
    }
    forall q ensures Pins(gs, t, q) == Pins(fs, table, q) {
      if q in t { assert table[q] != f; }
    }
  }

  lemma OccupyOK<D>(fs: seq<Frame<D>>, table: map<PageId, FrameId>, free: seq<FrameId>, entries: Entries,
                    disk: map<PageId, D>, zero: D, store: map<PageId, D>, touched: set<PageId>,
                    oldId: PageId, nextId: PageId, f: FrameId, p: PageId)
    requires f < |fs| && Books(fs, table, free, entries, f) && Coherent(fs, table, disk, zero, store, touched, oldId)
    requires 0 <= p < nextId && p !in table && (if p < oldId then nextId == oldId else p == oldId && nextId == p + 1)
    ensures var d := OnDisk(disk, zero, p);
      && Coherent(fs[f := Frame(p, d, 1, false)], table[p := f], disk, zero, store[p := d], touched, nextId)
      && (p in store ==> store[p] == d) && (p == oldId ==> d == zero)
      && forall q :: Pins(fs[f := Frame(p, d, 1, false)], table[p := f], q) == if q == p then 1 else Pins(fs, table, q)
  {
    forall x | x in table ensures table[x] != f { assert TableOK(fs, table, x); }
    InstallCoherent(fs, table, disk, zero, store, touched, oldId, nextId, f, p, OnDisk(disk, zero, p));
    InstallPins(fs, table, f, p, OnDisk(disk, zero, p));
    assert PageOK(fs, table, disk, zero, store, touched, oldId, p);
  }
}
