/** Iterating along the leaf chain: what is left to visit is always the sorted rest of the map. */
module BPlusIterator {
  import opened Rids
  import opened BPlusNodes
  import opened BPlusShape
  import opened BPlusTree

  /** The entries from position i of leaf p to the end of the chain. */
  ghost function Rest(s: Store, g: Spans, root: PageId, p: PageId, i: nat): seq<Entry<RID>>
    requires Shape(s, g, root, Settled) && p in s && s[p].Leaf? && i <= |s[p].entries|
    decreases TOP - g[p].lo
  {
    NextLeaf(s, g, root, p);
    s[p].entries[i..] + if s[p].next == INVALID then [] else Rest(s, g, root, s[p].next, 0)
  }

  lemma NextLeaf(s: Store, g: Spans, root: PageId, p: PageId)
    requires Shape(s, g, root, Settled) && p in s && s[p].Leaf?
    ensures g[p].lo < g[p].hi <= TOP && (s[p].next == INVALID <==> g[p].hi == TOP)
    ensures s[p].next != INVALID ==> s[p].next in s && s[s[p].next].Leaf? && g[s[p].next].lo == g[p].hi < TOP
  {
    assert LeafOK(s, g, p) && SpanOK(g, root, p);
    if g[p].hi != TOP { assert SpanOK(g, root, s[p].next); }
  }

  /** r lists the map's entries with key at or above `from`, in increasing order of keys. */
  ghost predicate Lists(r: seq<Entry<RID>>, c: Contents, from: int) {
    && Increasing(r)
    && forall e :: e in r <==> e.key in c && c[e.key] == e.val && from <= e.key
  }

  /** There is only one such listing. */
  lemma {:induction false} OneListing(r: seq<Entry<RID>>, q: seq<Entry<RID>>, c: Contents, from: int)
    requires Lists(r, c, from) && Lists(q, c, from)
    ensures r == q
    decreases |r|
  {
    if r == [] {
      assert forall e :: e !in r && e !in q;
    } else {
      assert r[0] in r && r[0] in q;
      assert q[0] in q && q[0] in r;
      assert r[0].key <= q[0].key && q[0].key <= r[0].key;
      RestLists(r, c, from);
      RestLists(q, c, from);
      OneListing(r[1..], q[1..], c, r[0].key + 1);
      assert r == [r[0]] + r[1..] && q == [q[0]] + q[1..];
    }
  }

  lemma RestLists(r: seq<Entry<RID>>, c: Contents, from: int)
    requires Lists(r, c, from) && r != []
    ensures Lists(r[1..], c, r[0].key + 1)
  {
    forall e ensures e in r[1..] <==> e.key in c && c[e.key] == e.val && r[0].key + 1 <= e.key {
      if e in r[1..] {
        var i :| 0 <= i < |r| - 1 && r[1..][i] == e;
        assert r[i + 1] == e && r[0].key < r[i + 1].key && e in r && r[0] in r;
      }
      if e.key in c && c[e.key] == e.val && r[0].key + 1 <= e.key {
        assert r[0] in r;
        assert e in r;
        var i :| 0 <= i < |r| && r[i] == e;
        assert r[1..][i - 1] == e;
      }
    }
  }

  // The entries of one leaf are the map's entries inside its span.
  lemma LeafEntry(s: Store, g: Spans, root: PageId, c: Contents, p: PageId, e: Entry<RID>)
    requires Shape(s, g, root, Settled) && Agrees(s, c) && p in s && s[p].Leaf?
    ensures e in s[p].entries <==> e.key in c && c[e.key] == e.val && Covers(g, p, e.key)
  {
    assert LeafOK(s, g, p);
    if e in s[p].entries { assert Stored(s, p, e) && InStore(s, e); }
    if e.key in c && c[e.key] == e.val && Covers(g, p, e.key) {
      assert InStore(s, e);
      var x :| Stored(s, x, e);
      assert LeafOK(s, g, x);
      OneCover(s, g, root, Settled, x, p, e.key);
    }
  }

  /** The leaf chain from any leaf on is the sorted listing of the map from the leaf's lower bound. */
  lemma {:induction false} ChainLists(s: Store, g: Spans, root: PageId, c: Contents, p: PageId)
    requires Shape(s, g, root, Settled) && Agrees(s, c) && p in s && s[p].Leaf?
    ensures Lists(Rest(s, g, root, p, 0), c, g[p].lo)
    decreases TOP - g[p].lo
  {
    NextLeaf(s, g, root, p);
    assert LeafOK(s, g, p);
    var es := s[p].entries;
    var n := s[p].next;
    var tail := if n == INVALID then [] else Rest(s, g, root, n, 0);
    if n != INVALID { ChainLists(s, g, root, c, n); }
    assert Lists(tail, c, g[p].hi);
    assert Rest(s, g, root, p, 0) == es + tail;
    Chained(s, g, root, c, p, es, tail, g[p].lo);
  }

  lemma Chained(s: Store, g: Spans, root: PageId, c: Contents, p: PageId,
                es: seq<Entry<RID>>, tail: seq<Entry<RID>>, from: int)
    requires Shape(s, g, root, Settled) && Agrees(s, c) && p in s && s[p].Leaf?
    requires Increasing(es) && g[p].lo <= from <= g[p].hi
    requires forall e :: e in es <==> e in s[p].entries && from <= e.key
    requires Lists(tail, c, g[p].hi)
    ensures Lists(es + tail, c, from)
  {
    var r := es + tail;
    assert LeafOK(s, g, p);
    assert forall i :: 0 <= i < |es| ==> es[i] in es && es[i].key < g[p].hi;
    assert forall i :: 0 <= i < |tail| ==> tail[i] in tail && g[p].hi <= tail[i].key;
    forall e ensures e in r <==> e.key in c && c[e.key] == e.val && from <= e.key {
      LeafEntry(s, g, root, c, p, e);
      assert e in tail <==> e.key in c && c[e.key] == e.val && g[p].hi <= e.key;
    }
  }

  /** From position i on, the rest is the listing from any bound between entries i - 1 and i. */
  lemma PositionLists(s: Store, g: Spans, root: PageId, c: Contents, p: PageId, i: nat, from: int)
    requires Shape(s, g, root, Settled) && Agrees(s, c) && p in s && s[p].Leaf? && i <= |s[p].entries|
    requires g[p].lo <= from <= g[p].hi
    requires forall k :: 0 <= k < i ==> s[p].entries[k].key < from
    requires i < |s[p].entries| ==> from <= s[p].entries[i].key
    ensures Lists(Rest(s, g, root, p, i), c, from)
  {
    NextLeaf(s, g, root, p);
    assert LeafOK(s, g, p);
    var es := s[p].entries;
    var n := s[p].next;
    if n != INVALID { ChainLists(s, g, root, c, n); }
    var tail := if n == INVALID then [] else Rest(s, g, root, n, 0);
    assert Lists(tail, c, g[p].hi);
    forall e ensures e in es[i..] <==> e in es && from <= e.key {
      if e in es && from <= e.key {
        var k :| 0 <= k < |es| && es[k] == e;
        assert es[i..][k - i] == e;
      }
      if e in es[i..] {
        var k :| 0 <= k < |es| - i && es[i..][k] == e;
        assert es[i + k] == e && (k == 0 || es[i].key < es[i + k].key);
      }
    }
    IncreasingParts(es, i);
    Chained(s, g, root, c, p, es[i..], tail, from);
  }

  // A position: the end, or an entry of a leaf.
  predicate Position(s: Store, page: PageId, index: nat) {
    if page == INVALID then index == 0 else page in s && s[page].Leaf? && index < |s[page].entries|
  }

  /** What is left to visit from a position, the current entry first. */
  ghost function RestAt(s: Store, g: Spans, root: PageId, page: PageId, index: nat): seq<Entry<RID>>
    requires page != INVALID ==> Shape(s, g, root, Settled)
    requires Position(s, page, index)
  {
    if page == INVALID then [] else Rest(s, g, root, page, index)
  }

  lemma RestStep(s: Store, g: Spans, root: PageId, p: PageId, i: nat)
    requires Shape(s, g, root, Settled) && p in s && s[p].Leaf? && i < |s[p].entries|
    ensures Rest(s, g, root, p, i) != [] && Rest(s, g, root, p, i)[0] == s[p].entries[i]
    ensures Rest(s, g, root, p, i)[1..] == Rest(s, g, root, p, i + 1)
    ensures i + 1 == |s[p].entries| ==> s[p].next == INVALID || (s[p].next in s && s[s[p].next].Leaf?)
    ensures i + 1 == |s[p].entries| ==>
      Rest(s, g, root, p, i + 1) == if s[p].next == INVALID then [] else Rest(s, g, root, s[p].next, 0)
  {
    NextLeaf(s, g, root, p);
    var es := s[p].entries;
    assert es[i..] == [es[i]] + es[i + 1..];
  }

  // An entry stands in one place.
  lemma OnePlace(s: Store, g: Spans, root: PageId, p: PageId, i: nat, q: PageId, j: nat)
    requires Shape(s, g, root, Settled) && p in s && s[p].Leaf? && q in s && s[q].Leaf?
    requires i < |s[p].entries| && j < |s[q].entries| && s[p].entries[i] == s[q].entries[j]
    ensures p == q && i == j
  {
    assert LeafOK(s, g, p) && LeafOK(s, g, q);
    OneCover(s, g, root, Settled, p, q, s[p].entries[i].key);
  }

  // Leaves of a sound tree are not empty, so the first position of one is an entry.
  lemma LeafStart(s: Store, g: Spans, root: PageId, c: Contents, lim: Limits, p: PageId)
    requires Sound(s, g, root, c, lim, Settled, INVALID) && p in s && s[p].Leaf?
    ensures Position(s, p, 0)
  {
    assert SizeOK(s, root, lim, p);
  }

  class Iterator {
    const tree: BPlusTree
    var page: PageId
    var index: nat

    constructor (tree: BPlusTree, page: PageId, index: nat)
      ensures this.tree == tree && this.page == page && this.index == index
    {
      this.tree, this.page, this.index := tree, page, index;
    }

    predicate IsEnd() reads this { page == INVALID }

    ghost predicate Valid()
      reads this, tree, tree.pager, tree.pager.pool, tree.pager.pool.frames, tree.pager.pool.replacer
    {
      && tree.Valid() && Position(tree.pager.pages, page, index)
      && (page != INVALID ==> tree.root != INVALID)
    }

    ghost function Remaining(): seq<Entry<RID>>
      requires Valid()
      reads this, tree, tree.pager, tree.pager.pool, tree.pager.pool.frames, tree.pager.pool.replacer
    {
      RestAt(tree.pager.pages, tree.spans, tree.root, page, index)
    }

    // operator*
    method Current() returns (e: Entry<RID>)
      requires Valid() && !IsEnd()
      modifies tree.pager`pins, tree.pager`unsaved, tree.pager.pool, tree.pager.pool.frames, tree.pager.pool.replacer
      ensures Valid()
      ensures Remaining() != [] && e == Remaining()[0]
    {
      RestStep(tree.pager.pages, tree.spans, tree.root, page, index);
      var node := tree.pager.Fetch(page);
      e := node.entries[index];
      tree.pager.Unpin(page, false);
    }

    // operator++
    method Advance()
      requires Valid()
      modifies this`page, this`index, tree.pager`pins, tree.pager`unsaved, tree.pager.pool, tree.pager.pool.frames, tree.pager.pool.replacer
      ensures Valid()
      ensures Remaining() == if old(Remaining()) == [] then [] else old(Remaining())[1..]
    {
      if IsEnd() { return; }
      ghost var s, g, r := tree.pager.pages, tree.spans, tree.root;
      RestStep(s, g, r, page, index);
      var node := tree.pager.Fetch(page);
      index := index + 1;
      if index >= |node.entries| {
        tree.pager.Unpin(page, false);
        page, index := node.next, 0;
        if page != INVALID { LeafStart(s, g, r, tree.contents, tree.lim, page); }
      } else {
        tree.pager.Unpin(page, false);
      }
    }

    // operator==: the same position
    predicate Same(other: Iterator)
      reads this, other
    {
      page == other.page && index == other.index
    }

    /** Two iterators on a tree are equal exactly when the same is left to visit; so one equals the end exactly
        when nothing is. */
    lemma SameIff(other: Iterator)
      requires Valid() && other.Valid() && other.tree == tree
      ensures Same(other) <==> Remaining() == other.Remaining()
    {
      var s, g, r := tree.pager.pages, tree.spans, tree.root;
      if page != INVALID { RestStep(s, g, r, page, index); }
      if other.page != INVALID { RestStep(s, g, r, other.page, other.index); }
      if page != INVALID && other.page != INVALID && Remaining() == other.Remaining() {
        OnePlace(s, g, r, page, index, other.page, other.index);
      }
    }
  }

  // The leftmost descent.
  method FirstLeaf(t: BPlusTree) returns (cur: PageId)
    requires t.Valid() && t.root != INVALID
    modifies t.pager`pins, t.pager`unsaved, t.pager.pool, t.pager.pool.frames, t.pager.pool.replacer
    ensures t.Valid() && cur in t.pager.pages && t.pager.pages[cur].Leaf? && t.spans[cur].lo == BOTTOM
  {
    cur := t.root;
    var node := t.pager.Fetch(cur);
    while node.Inner?
      invariant t.pager.Valid() && t.pager.pins == {cur} && t.pager.unsaved == {}
      invariant cur in t.pager.pages && node == t.pager.pages[cur] && t.spans[cur].lo == BOTTOM
      decreases t.spans[cur].level
    {
      assert InnerOK(t.pager.pages, t.spans, Settled, cur) && ChildOK(t.pager.pages, t.spans, Settled, cur, 0);
      var next := node.slots[0].val;
      t.pager.Unpin(cur, false);
      cur := next;
      node := t.pager.Fetch(cur);
    }
    t.pager.Unpin(cur, false);
  }

  method Begin(t: BPlusTree) returns (it: Iterator)
    requires t.Valid()
    modifies t.pager`pins, t.pager`unsaved, t.pager.pool, t.pager.pool.frames, t.pager.pool.replacer
    ensures fresh(it) && it.tree == t && it.Valid()
    ensures Lists(it.Remaining(), t.contents, BOTTOM)
  {
    if t.root == INVALID {
      it := new Iterator(t, INVALID, 0);
      return;
    }
    var cur := FirstLeaf(t);
    it := new Iterator(t, cur, 0);
    LeafStart(t.pager.pages, t.spans, t.root, t.contents, t.lim, cur);
    ChainLists(t.pager.pages, t.spans, t.root, t.contents, cur);
  }

  // Where Begin(key) starts: it moves on to the next leaf if the one it routes to has no such key.
  lemma StartLists(s: Store, g: Spans, root: PageId, c: Contents, lim: Limits, p: PageId, key: Key)
    requires Sound(s, g, root, c, lim, Settled, INVALID) && Covers(g, p, key) && s[p].Leaf?
    ensures var i := LowerBound(s[p].entries, key);
      var page, index := if i < |s[p].entries| then p else s[p].next, if i < |s[p].entries| then i else 0;
      Position(s, page, index) && Lists(RestAt(s, g, root, page, index), c, key)
  {
    var i := LowerBound(s[p].entries, key);
    PositionLists(s, g, root, c, p, i, key);
    NextLeaf(s, g, root, p);
    if i == |s[p].entries| {
      if s[p].next != INVALID { LeafStart(s, g, root, c, lim, s[p].next); }
      assert Rest(s, g, root, p, i) == if s[p].next == INVALID then [] else Rest(s, g, root, s[p].next, 0);
    }
  }

  /** Starts at the first key not below the given one, also when the leaf it routes to has none. */
  method BeginAt(t: BPlusTree, key: Key) returns (it: Iterator)
    requires t.Valid()
    modifies t.pager`pins, t.pager`unsaved, t.pager.pool, t.pager.pool.frames, t.pager.pool.replacer
    ensures fresh(it) && it.tree == t && it.Valid()
    ensures Lists(it.Remaining(), t.contents, key)
  {
    if t.root == INVALID {
      it := new Iterator(t, INVALID, 0);
      return;
    }
    var cur, node := t.FindLeaf(key);
    var idx := LowerBound(node.entries, key);
    StartLists(t.pager.pages, t.spans, t.root, t.contents, t.lim, cur, key);
    t.pager.Unpin(cur, false);
    if idx >= |node.entries| {
      it := new Iterator(t, node.next, 0);
    } else {
      it := new Iterator(t, cur, idx);
    }
  }

  /** The loop over an iterator visits exactly what remained. */
  method Drain(it: Iterator) returns (r: seq<Entry<RID>>)
    requires it.Valid()
    modifies it`page, it`index, it.tree.pager`pins, it.tree.pager`unsaved, it.tree.pager.pool, it.tree.pager.pool.frames, it.tree.pager.pool.replacer
    ensures it.Valid() && it.IsEnd() && r == old(it.Remaining())
  {
    r := [];
    ghost var all, n := it.Remaining(), 0;
    while !it.IsEnd()
      invariant it.Valid() && n <= |all| && r == all[..n] && it.Remaining() == all[n..]
      decreases |all| - n
    {
      var e := it.Current();
      assert e == all[n..][0] == all[n];
      r := r + [e];
      it.Advance();
      assert all[n..][1..] == all[n + 1..];
      n := n + 1;
    }
  }

  /** From Begin(key) to End(): the map's entries from `key` on, in increasing order. */
  method Scan(t: BPlusTree, key: Key) returns (r: seq<Entry<RID>>)
    requires t.Valid()
    modifies t.pager`pins, t.pager`unsaved, t.pager.pool, t.pager.pool.frames, t.pager.pool.replacer
    ensures t.Valid() && Lists(r, t.contents, key)
  {
    var it := BeginAt(t, key);
    r := Drain(it);
  }

  /** From Begin() to End(): the whole map in increasing order. */
  method ScanAll(t: BPlusTree) returns (r: seq<Entry<RID>>)
    requires t.Valid()
    modifies t.pager`pins, t.pager`unsaved, t.pager.pool, t.pager.pool.frames, t.pager.pool.replacer
    ensures t.Valid() && Lists(r, t.contents, BOTTOM)
  {
    var it := Begin(t);
    r := Drain(it);
  }
}
