/** What it means for a page store to hold a B+ tree, and why every structural step keeps it.

    Each page is given a span: the interval of keys it is responsible for and its height above
    the leaves. All conditions are local to one page and its neighbours, so a step that rewrites
    a few pages only has those to check. While a split travels upwards (or before a merge) one
    page `right` is not in its parent yet: the pair (left, right) is pending, and the parent
    still sees both as `left`. */
module BPlusShape {
  import opened Rids
  import opened BPlusNodes

  datatype Span = Span(lo: int, hi: int, level: nat)

  type Store = map<PageId, Node>
  type Spans = map<PageId, Span>

  // The pair of a pending split; both INVALID when nothing is pending.
  datatype Pending = Pending(left: PageId, right: PageId)

  const Settled := Pending(INVALID, INVALID)

  /** The upper bound a parent sees for its child: a pending pair counts as one page. */
  ghost function SeenHi(g: Spans, w: Pending, c: PageId): int
    requires c in g && w.right in g.Keys + {INVALID}
  {
    if c == w.left && w.right in g then g[w.right].hi else g[c].hi
  }

  ghost function SepLo(sp: Span, slots: seq<Entry<PageId>>, i: nat): int
    requires i < |slots|
  {
    if i == 0 then sp.lo else slots[i].key
  }

  ghost function SepHi(sp: Span, slots: seq<Entry<PageId>>, i: nat): int
    requires i < |slots|
  {
    if i + 1 == |slots| then sp.hi else slots[i + 1].key
  }

  ghost predicate SpanOK(g: Spans, root: PageId, p: PageId)
    requires p in g && root in g
  {
    BOTTOM <= g[p].lo < g[p].hi <= TOP && g[p].level <= g[root].level
  }

  ghost predicate LeafOK(s: Store, g: Spans, p: PageId)
    requires p in s && p in g && s[p].Leaf? && s.Keys == g.Keys
  {
    var n := s[p];
    && g[p].level == 0
    && Increasing(n.entries)
    && (forall i :: 0 <= i < |n.entries| ==> g[p].lo <= n.entries[i].key < g[p].hi)
    && (if g[p].hi == TOP then n.next == INVALID
        else n.next in s && s[n.next].Leaf? && g[n.next].lo == g[p].hi)
  }

  ghost predicate ChildOK(s: Store, g: Spans, w: Pending, p: PageId, i: nat)
    requires p in s && p in g && s[p].Inner? && s.Keys == g.Keys && i < |s[p].slots|
    requires w.right in g.Keys + {INVALID}
  {
    var c := s[p].slots[i].val;
    && c in s
    && s[c].parent == p
    && g[c].level + 1 == g[p].level
    && g[c].lo == SepLo(g[p], s[p].slots, i)
    && SeenHi(g, w, c) == SepHi(g[p], s[p].slots, i)
  }

  ghost predicate InnerOK(s: Store, g: Spans, w: Pending, p: PageId)
    requires p in s && p in g && s[p].Inner? && s.Keys == g.Keys
    requires w.right in g.Keys + {INVALID}
  {
    var slots := s[p].slots;
    && 1 <= g[p].level
    && slots != []
    && Routed(slots)
    && (forall i :: 1 <= i < |slots| ==> g[p].lo < slots[i].key < g[p].hi)
    && (forall i {:trigger ChildOK(s, g, w, p, i)} :: 0 <= i < |slots| ==> ChildOK(s, g, w, p, i))
  }

  ghost predicate Linked(s: Store, p: PageId)
    requires p in s
  {
    var q := s[p].parent;
    q in s && s[q].Inner? && HasChild(s[q].slots, p)
  }

  ghost predicate PendingOK(s: Store, g: Spans, root: PageId, w: Pending)
    requires s.Keys == g.Keys
  {
    w == Settled
    || (&& w.left in s && w.right in s && w.left != w.right && w.right != root
        && g[w.left].hi == g[w.right].lo
        && g[w.left].level == g[w.right].level)
  }

  ghost predicate RootOK(s: Store, g: Spans, root: PageId, w: Pending)
    requires s.Keys == g.Keys
    requires w.right in g.Keys + {INVALID}
  {
    root in s && s[root].parent == INVALID && g[root].lo == BOTTOM && SeenHi(g, w, root) == TOP
  }

  ghost predicate Shape(s: Store, g: Spans, root: PageId, w: Pending) {
    && s.Keys == g.Keys
    && INVALID !in s
    && PendingOK(s, g, root, w)
    && RootOK(s, g, root, w)
    && (forall p {:trigger SpanOK(g, root, p)} :: p in s ==> SpanOK(g, root, p))
    && (forall p {:trigger LeafOK(s, g, p)} :: p in s && s[p].Leaf? ==> LeafOK(s, g, p))
    && (forall p {:trigger InnerOK(s, g, w, p)} :: p in s && s[p].Inner? ==> InnerOK(s, g, w, p))
    && (forall p {:trigger Linked(s, p)} :: p in s && p != root && p != w.right ==> Linked(s, p))
  }

  // ---------- Reading a shape ----------

  /** Pages hold their children in increasing spans, so no child occurs twice. */
  lemma ChildAtOnce(s: Store, g: Spans, root: PageId, w: Pending, p: PageId, i: nat, j: nat)
    requires Shape(s, g, root, w) && p in s && s[p].Inner?
    requires i < |s[p].slots| && j < |s[p].slots| && s[p].slots[i].val == s[p].slots[j].val
    ensures i == j
  {
    assert InnerOK(s, g, w, p);
    assert ChildOK(s, g, w, p, i) && ChildOK(s, g, w, p, j);
  }

  lemma ChildBelow(s: Store, g: Spans, root: PageId, w: Pending, p: PageId, c: PageId)
    requires Shape(s, g, root, w) && p in s && s[p].Inner? && HasChild(s[p].slots, c)
    ensures c in s && s[c].parent == p && g[c].level + 1 == g[p].level && c != p
  {
    var i :| 0 <= i < |s[p].slots| && s[p].slots[i].val == c;
    assert InnerOK(s, g, w, p) && ChildOK(s, g, w, p, i);
  }

  lemma LeafLevel(s: Store, g: Spans, root: PageId, w: Pending, p: PageId)
    requires Shape(s, g, root, w) && p in s
    ensures s[p].Leaf? <==> g[p].level == 0
  {
    assert if s[p].Leaf? then LeafOK(s, g, p) else InnerOK(s, g, w, p);
  }

  /** Only the root has no parent. */
  lemma ParentlessIsRoot(s: Store, g: Spans, root: PageId, w: Pending, p: PageId)
    requires Shape(s, g, root, w) && p in s && p != w.right
    ensures s[p].parent == INVALID <==> p == root
  {
    assert p == root || Linked(s, p);
  }

  ghost predicate Covers(g: Spans, p: PageId, key: int) {
    p in g && g[p].lo <= key < g[p].hi
  }

  // The page a parent knows for p: the pending right page is reached through its left one.
  ghost function Owner(w: Pending, p: PageId): PageId {
    if p == w.right then w.left else p
  }

  /** A page below the root is reached through one slot of its parent, whose span is larger. */
  lemma ParentCovers(s: Store, g: Spans, root: PageId, w: Pending, p: PageId, key: int) returns (q: PageId, i: nat)
    requires Shape(s, g, root, w) && Covers(g, p, key) && Owner(w, p) != root
    ensures q in s && s[q].Inner? && Covers(g, q, key) && g[q].level == g[p].level + 1
    ensures i < |s[q].slots| && s[q].slots[i].val == Owner(w, p)
    ensures SepLo(g[q], s[q].slots, i) <= key < SepHi(g[q], s[q].slots, i)
    ensures g[q].level <= g[root].level
  {
    var o := Owner(w, p);
    assert SpanOK(g, root, p) && SpanOK(g, root, o);
    if w != Settled { assert SpanOK(g, root, w.right); }
    assert Linked(s, o);
    q := s[o].parent;
    i :| 0 <= i < |s[q].slots| && s[q].slots[i].val == o;
    assert InnerOK(s, g, w, q) && ChildOK(s, g, w, q, i) && SpanOK(g, root, q);
  }

  lemma OneSlot(s: Store, g: Spans, root: PageId, w: Pending, q: PageId, i: nat, j: nat, key: int)
    requires Shape(s, g, root, w) && q in s && s[q].Inner? && i < |s[q].slots| && j < |s[q].slots|
    requires SepLo(g[q], s[q].slots, i) <= key < SepHi(g[q], s[q].slots, i)
    requires SepLo(g[q], s[q].slots, j) <= key < SepHi(g[q], s[q].slots, j)
    ensures i == j
  {
    assert InnerOK(s, g, w, q);
  }

  /** At each height at most one page is responsible for a key. */
  lemma {:induction false} OneCover(s: Store, g: Spans, root: PageId, w: Pending, x: PageId, y: PageId, key: int)
    requires Shape(s, g, root, w) && Covers(g, x, key) && Covers(g, y, key)
    requires g[x].level == g[y].level
    ensures x == y
    decreases g[root].level - g[x].level
  {
    assert SpanOK(g, root, x) && SpanOK(g, root, y);
    if Owner(w, x) != root {
      var q, i := ParentCovers(s, g, root, w, x, key);
      if Owner(w, y) != root {
        var q', i' := ParentCovers(s, g, root, w, y, key);
        OneCover(s, g, root, w, q, q', key);
        OneSlot(s, g, root, w, q, i, i', key);
      }
    } else if Owner(w, y) != root {
      var q, i := ParentCovers(s, g, root, w, y, key);
    }
  }

  // ---------- Contents ----------

  type Contents = map<Key, RID>

  ghost predicate Stored(s: Store, p: PageId, e: Entry<RID>) {
    p in s && s[p].Leaf? && e in s[p].entries
  }

  ghost predicate InStore(s: Store, e: Entry<RID>) {
    exists p :: Stored(s, p, e)
  }

  ghost predicate SameEntries(s: Store, t: Store) {
    forall e {:trigger InStore(t, e)} :: InStore(t, e) <==> InStore(s, e)
  }

  /** The pairs on the leaves are those of the map. */
  ghost predicate Agrees(s: Store, c: Contents) {
    forall e {:trigger InStore(s, e)} :: InStore(s, e) <==> e.key in c && c[e.key] == e.val
  }

  /** Steps that leave every leaf's entries in place keep the contents. */
  lemma SameLeaves(s: Store, t: Store)
    requires forall p, e :: Stored(s, p, e) <==> Stored(t, p, e)
    ensures SameEntries(s, t)
  {
  }

  // ---------- Sizes ----------

  // max_size of leaf and internal pages
  datatype Limits = Limits(leaf: nat, inner: nat)

  ghost predicate SizeOK(s: Store, root: PageId, lim: Limits, p: PageId)
    requires p in s
  {
    var n := s[p];
    && n.Size() <= n.MaxSize(lim.leaf, lim.inner)
    && (if p == root then n.Size() >= (if n.Leaf? then 1 else 2) else n.Size() >= n.MinSize(lim.leaf, lim.inner))
  }

  /** Every page but one is neither overfull nor underfull. */
  ghost predicate SizesBut(s: Store, root: PageId, lim: Limits, but: PageId) {
    forall p {:trigger SizeOK(s, root, lim, p)} :: p in s && p != but ==> SizeOK(s, root, lim, p)
  }

  // A root that is being split counts as an ordinary page.
  ghost function JudgedRoot(root: PageId, w: Pending): PageId {
    if w.left == root then INVALID else root
  }

  /** The whole invariant of a tree in the middle of an operation: shape, contents and sizes. */
  ghost predicate Sound(s: Store, g: Spans, root: PageId, c: Contents, lim: Limits, w: Pending, but: PageId) {
    && lim.leaf >= 2 && lim.inner >= 3
    && Shape(s, g, root, w) && Agrees(s, c) && SizesBut(s, JudgedRoot(root, w), lim, but)
  }
}
