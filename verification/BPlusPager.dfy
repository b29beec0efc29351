/** The pages of the B+ tree, kept by the buffer pool and pinned while in use.

    The preconditions are the discipline the tree keeps towards the pool: no page is pinned twice
    at once, a page is written only while it is pinned, a written page is unpinned as dirty, a
    deleted page is not pinned, and fewer pages are pinned than the pool has frames whenever one
    more is fetched or allocated, so none of these calls fails. */
module BPlusPager {
  import opened Rids
  import opened BPlusNodes
  import opened BufferPool

  class Pager {
    const pool: Pool<Node>
    // What the pool's other clients had stored when the tree came.
    ghost const others: map<PageId, Node>
    // The tree's pages, those pinned, and those written since they were last unpinned as dirty.
    ghost var pages: map<PageId, Node>
    ghost var pins: set<PageId>
    ghost var unsaved: set<PageId>

    constructor (pool: Pool<Node>)
      requires pool.Valid() && pool.touched == {} && forall p :: pool.PinCount(p) == 0
      ensures this.pool == pool && others == pool.store && pages == map[] && Valid() && Quiet()
    {
      this.pool := pool;
      others := pool.store;
      pages, pins, unsaved := map[], {}, {};
    }

    ghost predicate Valid()
      reads this, pool, pool.frames, pool.replacer
    {
      forall p {:trigger PageKept(p)} :: PageKept(p)
    }

    // The pool is sound, with no writes to come but the unsaved ones, and has the page as the tree last wrote
    // it, pinned once or not at all. The pages of other clients are as they were.
    ghost predicate PageKept(p: PageId)
      reads this, pool, pool.frames, pool.replacer
    {
      && pool.Valid() && pool.touched <= unsaved && pins <= pages.Keys
      && (p in pages ==> p in pool.store && pool.store[p] == pages[p])
      && (p in others ==> p !in pages && p in pool.store && pool.store[p] == others[p])
      && pool.PinCount(p) == if p in pins then 1 else 0
    }

    // Nothing is pinned and no write is waiting for a dirty unpin.
    ghost predicate Quiet()
      reads this
    {
      pins == {} && unsaved == {}
    }

    // What the pool knows of a page of the tree.
    lemma Known(pid: PageId)
      requires Valid() && pid in pages
      ensures pool.Valid() && 0 <= pid < pool.nextId && pid in pool.store && pool.store[pid] == pages[pid]
      ensures pool.PinCount(pid) == if pid in pins then 1 else 0
    {
      assert PageKept(pid);
      assert PageOK(pool.frames[..], pool.table, pool.disk, pool.zero, pool.store, pool.touched, pool.nextId, pid);
    }

    /** Whatever the tree does, the pages of other clients stay. */
    lemma OthersStay(p: PageId)
      requires Valid() && p in others
      ensures p in pool.store && pool.store[p] == others[p] && p !in pages
    {
      assert PageKept(p);
    }

    // A frame is left over.
    lemma RoomLeft()
      requires Valid() && |pins| < pool.frames.Length
      ensures !pool.AllPinned()
    {
      assert PageKept(INVALID);
      forall p | pool.PinCount(p) > 0 ensures p in pins { assert PageKept(p); }
      pool.FewPinned(pins);
    }

    // A zeroed page; its contents follow.
    method Allocate() returns (pid: PageId)
      requires Valid() && |pins| < pool.frames.Length
      modifies this`pages, this`pins, pool, pool.frames, pool.replacer
      ensures Valid() && pid !in old(pages) && pid != INVALID
      ensures pages == old(pages)[pid := pool.zero] && pins == old(pins) + {pid}
    {
      assert PageKept(INVALID);
      RoomLeft();
      var r := pool.NewPage();
      pid := r.value;
      assert old(PageKept(pid));
      pages, pins := pages[pid := pool.zero], pins + {pid};
      forall p ensures PageKept(p) { assert old(PageKept(p)); }
    }

    method New(node: Node) returns (pid: PageId)
      requires Valid() && |pins| < pool.frames.Length
      modifies this, pool, pool.frames, pool.replacer
      ensures Valid() && pid !in old(pages) && pid != INVALID
      ensures pages == old(pages)[pid := node] && pins == old(pins) + {pid} && unsaved == old(unsaved) + {pid}
    {
      pid := Allocate();
      Write(pid, node);
    }

    method Fetch(pid: PageId) returns (node: Node)
      requires Valid() && pid in pages && pid !in pins && |pins| < pool.frames.Length
      modifies this`pins, pool, pool.frames, pool.replacer
      ensures Valid() && node == pages[pid] && pins == old(pins) + {pid}
    {
      RoomLeft();
      Known(pid);
      var r := pool.FetchPage(pid);
      node := r.value;
      pins := pins + {pid};
      forall p ensures PageKept(p) { assert old(PageKept(p)); }
    }

    // A pinned page is read through the pointer that fetching it returned.
    function At(pid: PageId): (node: Node)
      requires Valid() && pid in pages && pid in pins
      reads this, pool, pool.frames, pool.replacer
      ensures node == pages[pid]
    {
      Known(pid);
      pool.Resident(pid);
      pool.frames[pool.table[pid]].data
    }

    method Write(pid: PageId, node: Node)
      requires Valid() && pid in pages && pid in pins
      modifies this`pages, this`unsaved, pool, pool.frames
      ensures Valid() && pages == old(pages)[pid := node] && unsaved == old(unsaved) + {pid}
    {
      Known(pid);
      pool.Write(pid, node);
      pages, unsaved := pages[pid := node], unsaved + {pid};
      forall p ensures PageKept(p) { assert old(PageKept(p)); }
    }

    method Unpin(pid: PageId, dirty: bool)
      requires Valid() && pid in pins
      requires pid in unsaved ==> dirty
      modifies this`pins, this`unsaved, pool, pool.frames, pool.replacer
      ensures Valid() && pins == old(pins) - {pid}
      ensures unsaved == if dirty then old(unsaved) - {pid} else old(unsaved)
    {
      assert PageKept(pid);
      Known(pid);
      assert pool.MayUnpin(pid, dirty);
      var ok := pool.UnpinPage(pid, dirty);
      pins := pins - {pid};
      if dirty { unsaved := unsaved - {pid}; }
      forall p ensures PageKept(p) { assert old(PageKept(p)); }
    }

    method Delete(pid: PageId)
      requires Valid() && pid in pages && pid !in pins
      modifies this`pages, pool, pool.frames, pool.replacer
      ensures Valid() && pages == old(pages) - {pid}
    {
      Known(pid);
      var ok := pool.DeletePage(pid);
      pages := pages - {pid};
      forall p ensures PageKept(p) { assert old(PageKept(p)); }
    }
  }
}
