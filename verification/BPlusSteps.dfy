/** Each structural step as a whole: shape, contents and sizes together. */
module BPlusSteps {
  import opened Rids
  import opened BPlusNodes
  import opened BPlusShape
  import opened BPlusSplit
  import opened BPlusMerge
  import opened BPlusBorrow
  import opened BPlusSearch

  lemma SameAgrees(s: Store, t: Store, c: Contents)
    requires Agrees(s, c) && SameEntries(s, t)
    ensures Agrees(t, c)
  {
    forall e ensures InStore(t, e) <==> e.key in c && c[e.key] == e.val { assert InStore(t, e) <==> InStore(s, e); }
  }

  // ---------- Insertion ----------

  lemma StartSound(pid: PageId, key: Key, v: RID, lim: Limits)
    requires pid != INVALID && lim.leaf >= 2 && lim.inner >= 3
    ensures Sound(map[pid := Leaf(INVALID, INVALID, LeafInsert([], key, v))], map[pid := Span(BOTTOM, TOP, 0)],
                  pid, map[key := v], lim, Settled, INVALID)
  {
    var s := map[pid := Leaf(INVALID, INVALID, LeafInsert([], key, v))];
    assert s[pid].entries == [Entry(key, v)];
    forall e ensures InStore(s, e) <==> e == Entry(key, v) {
      if e == Entry(key, v) { assert Stored(s, pid, e); }
    }
  }

  lemma InsertSound(s: Store, g: Spans, root: PageId, c: Contents, lim: Limits, p: PageId, key: Key, v: RID)
    requires Sound(s, g, root, c, lim, Settled, INVALID) && Covers(g, p, key) && s[p].Leaf? && key !in c
    ensures var t := WriteLeaf(s, p, LeafInsert(s[p].entries, key, v));
      && Sound(t, g, root, c[key := v], lim, Settled, p)
      && t[p].Size() == s[p].Size() + 1 <= lim.leaf + 1
      && (t[p].Size() <= lim.leaf ==> Sound(t, g, root, c[key := v], lim, Settled, INVALID))
  {
    InsertAtLeaf(s, g, root, c, p, key, v);
    var t := WriteLeaf(s, p, LeafInsert(s[p].entries, key, v));
    assert SizeOK(s, root, lim, p);
    forall x | x in t && x != p ensures SizeOK(t, root, lim, x) { assert SizeOK(s, root, lim, x); }
    if t[p].Size() <= lim.leaf { assert SizeOK(t, root, lim, p); }
  }

  /** The leaf already holds the key: insertion leaves the entries alone. */
  lemma DuplicateInsert(s: Store, g: Spans, root: PageId, c: Contents, lim: Limits, p: PageId, key: Key, v: RID)
    requires Sound(s, g, root, c, lim, Settled, INVALID) && Covers(g, p, key) && s[p].Leaf?
    ensures |LeafInsert(s[p].entries, key, v)| == |s[p].entries| <==> key in c
  {
    LookupAtLeaf(s, g, root, c, p, key);
    assert LeafOK(s, g, p);
    LeafInsertMeaning(s[p].entries, key, v);
  }

  lemma SplitLeafSound(s: Store, g: Spans, root: PageId, c: Contents, lim: Limits, p: PageId, n: PageId)
    requires Sound(s, g, root, c, lim, Settled, p) && p in s && s[p].Leaf? && s[p].Size() == lim.leaf + 1
    requires n !in s && n != INVALID
    ensures var m := |s[p].entries| / 2;
      Sound(SplitLeaf(s, p, n, m, s[p].parent), SplitSpans(g, p, n, s[p].entries[m].key),
            root, c, lim, Pending(p, n), INVALID)
  {
    var m := |s[p].entries| / 2;
    var t := SplitLeaf(s, p, n, m, s[p].parent);
    SplitLeafKeeps(s, g, root, p, n, m, s[p].parent);
    SplitLeafEntries(s, p, n, m, s[p].parent);
    SameAgrees(s, t, c);
    var r := JudgedRoot(root, Pending(p, n));
    forall x | x in t ensures SizeOK(t, r, lim, x) {
      if x != p && x != n { assert SizeOK(s, root, lim, x); }
    }
  }

  lemma SplitInnerSound(s: Store, g: Spans, root: PageId, c: Contents, lim: Limits, p: PageId, n: PageId)
    requires Sound(s, g, root, c, lim, Settled, p) && p in s && s[p].Inner? && s[p].Size() == lim.inner + 1
    requires n !in s && n != INVALID
    ensures var m := |s[p].slots| / 2; var up := s[p].slots[m].key;
      Sound(SplitInner(s, p, n, m, UpperHalf(s[p].slots, m, up), s[p].parent), SplitSpans(g, p, n, up),
            root, c, lim, Pending(p, n), INVALID)
  {
    var m := |s[p].slots| / 2;
    var b := UpperHalf(s[p].slots, m, s[p].slots[m].key);
    var t := SplitInner(s, p, n, m, b, s[p].parent);
    SplitInnerKeeps(s, g, root, p, n, m, b, s[p].parent);
    SameAgrees(s, t, c);
    var r := JudgedRoot(root, Pending(p, n));
    forall x | x in t ensures SizeOK(t, r, lim, x) {
      if x != p && x != n { assert SizeOK(s, root, lim, x); }
    }
  }

  lemma LinkSound(s: Store, g: Spans, root: PageId, c: Contents, lim: Limits, w: Pending, q: PageId, j: nat)
    requires Sound(s, g, root, c, lim, w, INVALID) && LinkPre(s, g, root, w, q, j) && w.left != root
    ensures var t := Link(s, g, w, q, j);
      && Sound(t, g, root, c, lim, Settled, q)
      && t[q].Inner? && t[q].Size() == s[q].Size() + 1 <= lim.inner + 1 && g[q].level == g[w.left].level + 1
      && (t[q].Size() <= lim.inner ==> Sound(t, g, root, c, lim, Settled, INVALID))
  {
    var t := Link(s, g, w, q, j);
    LinkKeeps(s, g, root, w, q, j);
    SameAgrees(s, t, c);
    LinkParent(s, g, root, w, q, j);
    assert InnerOK(s, g, w, q) && ChildOK(s, g, w, q, j);
    assert SizeOK(s, root, lim, q);
    forall x | x in t && x != q ensures SizeOK(t, root, lim, x) { assert SizeOK(s, root, lim, x); }
    if t[q].Size() <= lim.inner { assert SizeOK(t, root, lim, q); }
  }

  lemma NewRootSound(s: Store, g: Spans, root: PageId, c: Contents, lim: Limits, w: Pending, r: PageId)
    requires Sound(s, g, root, c, lim, w, INVALID) && w.left == root && SpanOK(g, root, w.right)
    requires r !in s && r != INVALID
    ensures Sound(NewRoot(s, g, w, r, 0), NewRootSpans(g, w, r), r, c, lim, Settled, INVALID)
  {
    var t := NewRoot(s, g, w, r, 0);
    NewRootKeeps(s, g, root, w, r, 0);
    SameAgrees(s, t, c);
    forall x | x in t ensures SizeOK(t, r, lim, x) {
      if x != r { assert SizeOK(s, INVALID, lim, x); }
    }
  }

  // ---------- Removal ----------

  lemma RemoveSound(s: Store, g: Spans, root: PageId, c: Contents, lim: Limits, p: PageId, key: Key)
    requires Sound(s, g, root, c, lim, Settled, INVALID) && Covers(g, p, key) && s[p].Leaf?
    ensures LeafRemove(s[p].entries, key) == s[p].entries <==> key !in c
    ensures |LeafRemove(s[p].entries, key)| == |s[p].entries| <==> key !in c
    ensures key in c ==>
      var t := WriteLeaf(s, p, LeafRemove(s[p].entries, key));
      && Sound(t, g, root, c - {key}, lim, Settled, p)
      && t[p].Size() + 1 == s[p].Size() <= lim.leaf && (p != root ==> s[p].Size() >= lim.leaf / 2)
      && (p == root && t[p].Size() >= 1 ==> Sound(t, g, root, c - {key}, lim, Settled, INVALID))
  {
    LookupAtLeaf(s, g, root, c, p, key);
    assert LeafOK(s, g, p) && SizeOK(s, root, lim, p);
    LeafRemoveMeaning(s[p].entries, key);
    if key in c {
      RemoveAtLeaf(s, g, root, c, p, key);
      var t := WriteLeaf(s, p, LeafRemove(s[p].entries, key));
      forall x | x in t && x != p ensures SizeOK(t, root, lim, x) { assert SizeOK(s, root, lim, x); }
      if p == root && t[p].Size() >= 1 { assert SizeOK(t, root, lim, p); }
    }
  }

  /** A root leaf that loses its last entry held the whole tree. */
  lemma LastEntry(s: Store, g: Spans, root: PageId, c: Contents, lim: Limits, p: PageId)
    requires Sound(s, g, root, c, lim, Settled, p) && p == root && s[p].Leaf? && s[p].Size() == 0
    ensures s.Keys == {root} && c == map[]
  {
    assert LeafOK(s, g, root);
    forall x | x in s ensures x == root {
      var ps := PathTo(s, g, root, x);
      PathLevel(s, g, root, ps);
    }
    forall k: Key ensures k !in c { LookupAtLeaf(s, g, root, c, root, k); }
  }

  lemma ShareLeavesSound(s: Store, g: Spans, root: PageId, c: Contents, lim: Limits, but: PageId,
                         q: PageId, j: nat, a: seq<Entry<RID>>, b: seq<Entry<RID>>)
    requires Sound(s, g, root, c, lim, Settled, but) && UnlinkPre(s, g, root, q, j)
    requires Siblings(s, q, j).left in s && s[Siblings(s, q, j).left].Leaf?
    requires Siblings(s, q, j).right in s && s[Siblings(s, q, j).right].Leaf?
    requires a + b == s[Siblings(s, q, j).left].entries + s[Siblings(s, q, j).right].entries
    requires lim.leaf / 2 <= |a| <= lim.leaf && lim.leaf / 2 <= |b| <= lim.leaf
    requires but == Siblings(s, q, j).left || but == Siblings(s, q, j).right
    ensures Siblings(s, q, j).left in g && Siblings(s, q, j).right in g
    ensures Sound(ShareLeaves(s, q, j, a, b), MoveBoundary(g, Siblings(s, q, j), b[0].key),
                  root, c, lim, Settled, INVALID)
  {
    var w := Siblings(s, q, j);
    SiblingsPending(s, g, root, q, j);
    ShareLeavesKeeps(s, g, root, q, j, a, b);
    var t := ShareLeaves(s, q, j, a, b);
    SameAgrees(s, t, c);
    ParentlessIsRoot(s, g, root, Settled, w.left);
    ParentlessIsRoot(s, g, root, Settled, w.right);
    forall x | x in t ensures SizeOK(t, root, lim, x) {
      if x != w.left && x != w.right { assert SizeOK(s, root, lim, x); }
    }
  }

  lemma ShareInnersSound(s: Store, g: Spans, root: PageId, c: Contents, lim: Limits, but: PageId,
                         q: PageId, j: nat, a: seq<Entry<PageId>>, b: seq<Entry<PageId>>, at: Key)
    requires Sound(s, g, root, c, lim, Settled, but) && SharePre(s, g, root, q, j, a, b, at)
    requires (lim.inner + 1) / 2 <= |a| <= lim.inner && (lim.inner + 1) / 2 <= |b| <= lim.inner
    requires but == Siblings(s, q, j).left || but == Siblings(s, q, j).right
    ensures Siblings(s, q, j).left in g && Siblings(s, q, j).right in g
    ensures Sound(ShareInners(s, q, j, a, b, at), MoveBoundary(g, Siblings(s, q, j), at), root, c, lim, Settled, INVALID)
  {
    var w := Siblings(s, q, j);
    SiblingsPending(s, g, root, q, j);
    ShareInnersKeeps(s, g, root, q, j, a, b, at);
    var t := ShareInners(s, q, j, a, b, at);
    SameAgrees(s, t, c);
    ParentlessIsRoot(s, g, root, Settled, w.left);
    ParentlessIsRoot(s, g, root, Settled, w.right);
    forall x | x in t ensures SizeOK(t, root, lim, x) {
      if x != w.left && x != w.right { assert SizeOK(s, root, lim, x); }
    }
  }

  // Above the merged pages nothing changes but the parent.
  ghost predicate AgreeAbove(s: Store, g: Spans, t: Store, h: Spans, q: PageId) {
    && q in g
    && forall x {:trigger x in s} :: x in s && x in g && g[x].level >= g[q].level ==>
         x in t && x in h && h[x] == g[x] && (x != q ==> t[x] == s[x])
  }

  lemma MergeLeavesSound(s: Store, g: Spans, root: PageId, c: Contents, lim: Limits, but: PageId, q: PageId, j: nat)
    requires Sound(s, g, root, c, lim, Settled, but) && UnlinkPre(s, g, root, q, j)
    requires Siblings(s, q, j).left in s && s[Siblings(s, q, j).left].Leaf?
    requires Siblings(s, q, j).right in s && s[Siblings(s, q, j).right].Leaf?
    requires but == Siblings(s, q, j).left || but == Siblings(s, q, j).right
    requires lim.leaf / 2 <= s[Siblings(s, q, j).left].Size() + s[Siblings(s, q, j).right].Size() <= lim.leaf
    ensures var w := Siblings(s, q, j); var u := Unlink(s, q, j);
      && w.left in u && w.right in u && u[w.left].Leaf? && u[w.right].Leaf?
      && var t, h := JoinLeaves(u, w), JoinSpans(g, w);
      && Sound(t, h, root, c, lim, Settled, q)
      && q in t && t[q] == Inner(s[q].parent, RemoveSlot(s[q].slots, j)) && SizeOK(s, root, lim, q)
      && AgreeAbove(s, g, t, h, q)
  {
    var w, u := Siblings(s, q, j), Unlink(s, q, j);
    SiblingsPending(s, g, root, q, j);
    UnlinkKeeps(s, g, root, q, j);
    JoinLeavesKeeps(u, g, root, w);
    var t, h := JoinLeaves(u, w), JoinSpans(g, w);
    SameAgrees(s, u, c);
    SameAgrees(u, t, c);
    MergedSizes(s, g, root, lim, but, q, j, t);
  }

  lemma MergedSizes(s: Store, g: Spans, root: PageId, lim: Limits, but: PageId, q: PageId, j: nat, t: Store)
    requires UnlinkPre(s, g, root, q, j) && SizesBut(s, root, lim, but)
    requires var w := Siblings(s, q, j);
      && (but == w.left || but == w.right) && w.left in s && w.right in s && w.left in t
      && t.Keys == s.Keys - {w.right}
      && s[w.left].MinSize(lim.leaf, lim.inner) <= t[w.left].Size() <= s[w.left].MaxSize(lim.leaf, lim.inner)
      && (t[w.left].Leaf? <==> s[w.left].Leaf?)
      && forall x :: x in t && x != w.left && x != q ==> t[x].Size() == s[x].Size() && (t[x].Leaf? <==> s[x].Leaf?)
    ensures SizesBut(t, root, lim, q) && SizeOK(s, root, lim, q)
  {
    var w := Siblings(s, q, j);
    SiblingsPending(s, g, root, q, j);
    ParentlessIsRoot(s, g, root, Settled, w.left);
    assert SizeOK(s, root, lim, q);
    forall x | x in t && x != q ensures SizeOK(t, root, lim, x) {
      if x != w.left { assert SizeOK(s, root, lim, x); }
    }
  }

  lemma MergeInnersSound(s: Store, g: Spans, root: PageId, c: Contents, lim: Limits, but: PageId, q: PageId, j: nat)
    requires Sound(s, g, root, c, lim, Settled, but) && UnlinkPre(s, g, root, q, j)
    requires Siblings(s, q, j).left in s && s[Siblings(s, q, j).left].Inner?
    requires Siblings(s, q, j).right in s && s[Siblings(s, q, j).right].Inner? && s[Siblings(s, q, j).right].slots != []
    requires but == Siblings(s, q, j).left || but == Siblings(s, q, j).right
    requires (lim.inner + 1) / 2 <= s[Siblings(s, q, j).left].Size() + s[Siblings(s, q, j).right].Size() <= lim.inner
    ensures var w := Siblings(s, q, j); var u := Unlink(s, q, j);
      && w.left in u && w.right in u && u[w.left].Inner? && u[w.right].Inner? && u[w.right].slots != []
      && var t, h := JoinInners(u, w, s[q].slots[j].key), JoinSpans(g, w);
      && Sound(t, h, root, c, lim, Settled, q)
      && q in t && t[q] == Inner(s[q].parent, RemoveSlot(s[q].slots, j)) && SizeOK(s, root, lim, q)
      && AgreeAbove(s, g, t, h, q)
  {
    var w, u := Siblings(s, q, j), Unlink(s, q, j);
    SiblingsPending(s, g, root, q, j);
    UnlinkKeeps(s, g, root, q, j);
    JoinInnersKeeps(u, g, root, w);
    var t, h := JoinInners(u, w, s[q].slots[j].key), JoinSpans(g, w);
    SameAgrees(s, u, c);
    SameAgrees(u, t, c);
    MergedSizes(s, g, root, lim, but, q, j, t);
    MergeInnersAbove(s, g, root, q, j);
  }

  lemma MergeInnersAbove(s: Store, g: Spans, root: PageId, q: PageId, j: nat)
    requires UnlinkPre(s, g, root, q, j)
    requires Siblings(s, q, j).left in s && s[Siblings(s, q, j).left].Inner?
    requires Siblings(s, q, j).right in s && s[Siblings(s, q, j).right].Inner? && s[Siblings(s, q, j).right].slots != []
    ensures var w := Siblings(s, q, j); var u := Unlink(s, q, j);
      && w.left in u && w.right in u && u[w.left].Inner? && u[w.right].Inner? && u[w.right].slots != []
      && var t, h := JoinInners(u, w, s[q].slots[j].key), JoinSpans(g, w);
      && q in t && t[q] == Inner(s[q].parent, RemoveSlot(s[q].slots, j))
      && AgreeAbove(s, g, t, h, q)
  {
    var w := Siblings(s, q, j);
    SiblingsPending(s, g, root, q, j);
    forall x | x in s && g[x].level >= g[q].level ensures !HasChild(s[w.right].slots, x) {
      if HasChild(s[w.right].slots, x) { ChildBelow(s, g, root, Settled, w.right, x); }
    }
  }

  lemma ShrinkRootSound(s: Store, g: Spans, root: PageId, c: Contents, lim: Limits)
    requires Sound(s, g, root, c, lim, Settled, root) && s[root].Inner? && |s[root].slots| == 1
    ensures s[root].slots[0].val in s && s[root].slots[0].val != root
    ensures Sound(ShrinkRoot(s, root), g - {root}, s[root].slots[0].val, c, lim, Settled, INVALID)
  {
    ShrinkRootKeeps(s, g, root);
    var t, r := ShrinkRoot(s, root), s[root].slots[0].val;
    SameAgrees(s, t, c);
    forall x | x in t ensures SizeOK(t, r, lim, x) { assert SizeOK(s, root, lim, x); }
  }

  /** The neighbourhood of an underfull page: its position and its siblings. */
  lemma AroundPage(s: Store, g: Spans, root: PageId, c: Contents, lim: Limits, p: PageId)
    requires Sound(s, g, root, c, lim, Settled, p) && p in s && p != root
    ensures var q := s[p].parent;
      && q in s && s[q].Inner? && q != p && q != INVALID && |s[q].slots| >= 2
      && var i := ValueIndex(s[q].slots, p);
      && 0 <= i < |s[q].slots| && s[q].slots[i].val == p
      && (i > 0 ==> UnlinkPre(s, g, root, q, i) && SiblingOK(s, lim, p, q, s[q].slots[i - 1].val))
      && (i + 1 < |s[q].slots| ==> UnlinkPre(s, g, root, q, i + 1) && SiblingOK(s, lim, p, q, s[q].slots[i + 1].val))
  {
    assert Linked(s, p);
    var q := s[p].parent;
    ChildBelow(s, g, root, Settled, q, p);
    assert SizeOK(s, root, lim, q);
    var i := ValueIndex(s[q].slots, p);
    if i > 0 { SiblingAt(s, g, root, c, lim, p, i, i - 1); }
    if i + 1 < |s[q].slots| { SiblingAt(s, g, root, c, lim, p, i, i + 1); }
  }

  ghost predicate SiblingOK(s: Store, lim: Limits, p: PageId, q: PageId, x: PageId)
    requires p in s
  {
    && x in s && x != p && x != q && x != INVALID && (s[x].Leaf? <==> s[p].Leaf?)
    && s[x].MinSize(lim.leaf, lim.inner) <= s[x].Size() <= s[x].MaxSize(lim.leaf, lim.inner)
  }

  lemma SiblingAt(s: Store, g: Spans, root: PageId, c: Contents, lim: Limits, p: PageId, i: nat, k: nat)
    requires Sound(s, g, root, c, lim, Settled, p) && p in s && p != root
    requires s[p].parent in s && s[s[p].parent].Inner?
    requires var slots := s[s[p].parent].slots; i < |slots| && k < |slots| && i != k && slots[i].val == p
    ensures SiblingOK(s, lim, p, s[p].parent, s[s[p].parent].slots[k].val)
  {
    var q := s[p].parent;
    var x := s[q].slots[k].val;
    assert HasChild(s[q].slots, x) && HasChild(s[q].slots, p);
    ChildBelow(s, g, root, Settled, q, x);
    ChildBelow(s, g, root, Settled, q, p);
    if x == p { ChildAtOnce(s, g, root, Settled, q, i, k); }
    ParentlessIsRoot(s, g, root, Settled, x);
    LeafLevel(s, g, root, Settled, x);
    LeafLevel(s, g, root, Settled, p);
    assert SizeOK(s, root, lim, x);
  }

  /** Once the page in question has a proper size, the tree is sound. */
  lemma SizeRestored(s: Store, g: Spans, root: PageId, c: Contents, lim: Limits, p: PageId)
    requires Sound(s, g, root, c, lim, Settled, p) && p in s && SizeOK(s, root, lim, p)
    ensures Sound(s, g, root, c, lim, Settled, INVALID)
  {
    forall x | x in s ensures SizeOK(s, root, lim, x) {}
  }

  lemma LeftGivesSound(s: Store, g: Spans, root: PageId, c: Contents, lim: Limits, q: PageId, j: nat)
    requires UnlinkPre(s, g, root, q, j)
    requires Sound(s, g, root, c, lim, Settled, Siblings(s, q, j).right)
    requires Siblings(s, q, j).left in s && s[Siblings(s, q, j).left].Inner?
    requires Siblings(s, q, j).right in s && s[Siblings(s, q, j).right].Inner?
    requires (lim.inner + 1) / 2 < s[Siblings(s, q, j).left].Size() <= lim.inner
    requires s[Siblings(s, q, j).right].Size() + 1 == (lim.inner + 1) / 2
    ensures var w := Siblings(s, q, j); var l, r := s[w.left].slots, s[w.right].slots; var n := |l| - 1;
      && r != [] && w.left in g && w.right in g
      && var a, b := l[..n], WithNewFirst(r, l[n].val, s[q].slots[j].key);
      && var t := Reparent(s[w.left := Inner(s[w.left].parent, a)][w.right := Inner(s[w.right].parent, b)], b, w.right)
           [q := Inner(s[q].parent, SetSlotKey(s[q].slots, j, l[n].key))];
      && Sound(t, MoveBoundary(g, w, l[n].key), root, c, lim, Settled, INVALID)
  {
    var w := Siblings(s, q, j);
    var l, r := s[w.left].slots, s[w.right].slots;
    var n := |l| - 1;
    LeftGives(s, g, root, q, j);
    ShareInnersSound(s, g, root, c, lim, w.right, q, j, l[..n], WithNewFirst(r, l[n].val, s[q].slots[j].key), l[n].key);
  }

  lemma RightGivesSound(s: Store, g: Spans, root: PageId, c: Contents, lim: Limits, q: PageId, j: nat)
    requires UnlinkPre(s, g, root, q, j)
    requires Sound(s, g, root, c, lim, Settled, Siblings(s, q, j).left)
    requires Siblings(s, q, j).left in s && s[Siblings(s, q, j).left].Inner?
    requires Siblings(s, q, j).right in s && s[Siblings(s, q, j).right].Inner?
    requires (lim.inner + 1) / 2 < s[Siblings(s, q, j).right].Size() <= lim.inner
    requires s[Siblings(s, q, j).left].Size() + 1 == (lim.inner + 1) / 2
    ensures var w := Siblings(s, q, j); var l, r := s[w.left].slots, s[w.right].slots;
      && l != [] && |r| >= 3 && w.left in g && w.right in g
      && var a, b := l + [Entry(s[q].slots[j].key, r[0].val)], WithoutFirst(r);
      && var t := Reparent(s[w.left := Inner(s[w.left].parent, a)][w.right := Inner(s[w.right].parent, b)], a, w.left)
           [q := Inner(s[q].parent, SetSlotKey(s[q].slots, j, r[1].key))];
      && t == ShareInners(s, q, j, a, b, r[1].key)
      && Sound(t, MoveBoundary(g, w, r[1].key), root, c, lim, Settled, INVALID)
  {
    var w := Siblings(s, q, j);
    var l, r := s[w.left].slots, s[w.right].slots;
    RightGives(s, g, root, q, j);
    ShareInnersSound(s, g, root, c, lim, w.left, q, j, l + [Entry(s[q].slots[j].key, r[0].val)], WithoutFirst(r), r[1].key);
  }
}
