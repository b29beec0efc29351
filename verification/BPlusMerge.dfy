/** Merges and redistributions.

    A sibling is first taken out of its parent (the reverse of linking), which leaves it pending,
    and then joined with its left neighbour. Borrowing from a sibling is joining the two pages and
    splitting them again elsewhere, so it needs no argument of its own. */
module BPlusMerge {
  import opened Rids
  import opened BPlusNodes
  import opened BPlusShape
  import opened BPlusSplit

  // ---------- Taking a child out of its parent ----------

  ghost function Unlink(s: Store, q: PageId, j: nat): Store
    requires q in s && s[q].Inner? && j < |s[q].slots|
  {
    s[q := Inner(s[q].parent, RemoveSlot(s[q].slots, j))]
  }

  ghost predicate UnlinkPre(s: Store, g: Spans, root: PageId, q: PageId, j: nat) {
    Shape(s, g, root, Settled) && q in s && s[q].Inner? && 1 <= j < |s[q].slots|
  }

  ghost function Siblings(s: Store, q: PageId, j: nat): Pending
    requires q in s && s[q].Inner? && 1 <= j < |s[q].slots|
  {
    Pending(s[q].slots[j - 1].val, s[q].slots[j].val)
  }

  lemma SiblingsPending(s: Store, g: Spans, root: PageId, q: PageId, j: nat)
    requires UnlinkPre(s, g, root, q, j)
    ensures PendingOK(s, g, root, Siblings(s, q, j)) && Siblings(s, q, j) != Settled
    ensures var w := Siblings(s, q, j);
      && s[w.left].parent == q && s[w.right].parent == q
      && g[w.right].hi == SepHi(g[q], s[q].slots, j) && g[w.right].lo == s[q].slots[j].key
      && g[w.left].level + 1 == g[q].level && w.left != q && w.right != q
  {
    assert InnerOK(s, g, Settled, q) && ChildOK(s, g, Settled, q, j - 1) && ChildOK(s, g, Settled, q, j);
    assert SpanOK(g, root, s[q].slots[j].val) && SpanOK(g, root, s[q].slots[j - 1].val);
    assert SpanOK(g, root, q);
  }

  lemma UnlinkChild(s: Store, g: Spans, root: PageId, q: PageId, j: nat, i: nat)
    requires UnlinkPre(s, g, root, q, j) && i < |s[q].slots| - 1
    ensures Siblings(s, q, j).right in g
    ensures ChildOK(Unlink(s, q, j), g, Siblings(s, q, j), q, i)
  {
    SiblingsPending(s, g, root, q, j);
    var k := if i < j then i else i + 1;
    assert InnerOK(s, g, Settled, q) && ChildOK(s, g, Settled, q, k);
    assert RemoveSlot(s[q].slots, j)[i] == s[q].slots[k];
    if s[q].slots[k].val == s[q].slots[j - 1].val { ChildAtOnce(s, g, root, Settled, q, k, j - 1); }
  }

  lemma UnlinkParent(s: Store, g: Spans, root: PageId, q: PageId, j: nat)
    requires UnlinkPre(s, g, root, q, j)
    ensures Siblings(s, q, j).right in g
    ensures InnerOK(Unlink(s, q, j), g, Siblings(s, q, j), q)
  {
    SiblingsPending(s, g, root, q, j);
    var slots := s[q].slots;
    var r := RemoveSlot(slots, j);
    assert InnerOK(s, g, Settled, q);
    assert forall i :: 0 <= i < |r| ==> r[i] == slots[if i < j then i else i + 1];
    forall i | 0 <= i < |r| ensures ChildOK(Unlink(s, q, j), g, Siblings(s, q, j), q, i) {
      UnlinkChild(s, g, root, q, j, i);
    }
  }

  lemma RemoveSlotKeepsChildren(slots: seq<Entry<PageId>>, j: nat, x: PageId)
    requires j < |slots| && HasChild(slots, x) && x != slots[j].val
    ensures HasChild(RemoveSlot(slots, j), x)
  {
    var i :| 0 <= i < |slots| && slots[i].val == x;
    assert RemoveSlot(slots, j)[if i < j then i else i - 1].val == x;
  }

  /** Dropping a child slot leaves that child pending next to its left neighbour. */
  lemma UnlinkKeeps(s: Store, g: Spans, root: PageId, q: PageId, j: nat)
    requires UnlinkPre(s, g, root, q, j)
    ensures Shape(Unlink(s, q, j), g, root, Siblings(s, q, j)) && SameEntries(s, Unlink(s, q, j))
  {
    var t := Unlink(s, q, j);
    var w := Siblings(s, q, j);
    SiblingsPending(s, g, root, q, j);
    forall x | x in t ensures SpanOK(g, root, x) { assert SpanOK(g, root, x); }
    forall x | x in t && t[x].Leaf? ensures LeafOK(t, g, x) { assert LeafOK(s, g, x); }
    forall x | x in t && t[x].Inner? ensures InnerOK(t, g, w, x) {
      if x == q {
        UnlinkParent(s, g, root, q, j);
      } else {
        assert InnerOK(s, g, Settled, x);
        forall i | 0 <= i < |s[x].slots| ensures ChildOK(t, g, w, x, i) { assert ChildOK(s, g, Settled, x, i); }
      }
    }
    forall x | x in t && x != root && x != w.right ensures Linked(t, x) {
      assert Linked(s, x);
      if s[x].parent == q { RemoveSlotKeepsChildren(s[q].slots, j, x); }
    }
    SameLeaves(s, t);
  }

  // ---------- Joining the pending pair ----------

  ghost function JoinSpans(g: Spans, w: Pending): Spans
    requires w.left in g && w.right in g
  {
    (g - {w.right})[w.left := g[w.left].(hi := g[w.right].hi)]
  }

  ghost function JoinLeaves(s: Store, w: Pending): Store
    requires w.left in s && w.right in s && s[w.left].Leaf? && s[w.right].Leaf?
  {
    (s - {w.right})[w.left := Leaf(s[w.left].parent, s[w.right].next, s[w.left].entries + s[w.right].entries)]
  }

  ghost function JoinInners(s: Store, w: Pending, middle: Key): Store
    requires w.left in s && w.right in s && s[w.left].Inner? && s[w.right].Inner? && s[w.right].slots != []
  {
    (Reparent(s, s[w.right].slots, w.left) - {w.right})
      [w.left := Inner(s[w.left].parent, Joined(s[w.left].slots, middle, s[w.right].slots))]
  }

  // Both kinds of page keep their place in the tree, so everything but the pair itself is as before.
  lemma JoinSpan(s: Store, g: Spans, root: PageId, w: Pending, x: PageId)
    requires Shape(s, g, root, w) && w != Settled && x in s && x != w.right
    ensures SpanOK(JoinSpans(g, w), root, x)
  {
    assert SpanOK(g, root, x) && SpanOK(g, root, w.right) && SpanOK(g, root, w.left);
  }

  // Only the left page of the pair is followed by the right one in the leaf chain.
  lemma OnePredecessor(s: Store, g: Spans, root: PageId, w: Pending, x: PageId)
    requires Shape(s, g, root, w) && w != Settled && s[w.left].Leaf?
    requires x in s && s[x].Leaf? && s[x].next == w.right
    ensures x == w.left
  {
    assert LeafOK(s, g, x) && LeafOK(s, g, w.left) && SpanOK(g, root, x) && SpanOK(g, root, w.left);
    OneCover(s, g, root, w, x, w.left, g[x].hi - 1);
  }

  lemma JoinedLeaf(s: Store, g: Spans, root: PageId, w: Pending)
    requires Shape(s, g, root, w) && w != Settled && s[w.left].Leaf? && s[w.right].Leaf?
    ensures LeafOK(JoinLeaves(s, w), JoinSpans(g, w), w.left)
  {
    assert LeafOK(s, g, w.left) && LeafOK(s, g, w.right);
    assert SpanOK(g, root, w.left) && SpanOK(g, root, w.right);
    var a, b := s[w.left].entries, s[w.right].entries;
    var c := a + b;
    forall i, k | 0 <= i < k < |c| ensures c[i].key < c[k].key {
      if i < |a| <= k { assert a[i].key < g[w.left].hi <= b[k - |a|].key; }
    }
    if s[w.right].next == w.right { OnePredecessor(s, g, root, w, w.right); }
  }

  lemma JoinLeavesEntries(s: Store, w: Pending)
    requires w.left in s && w.right in s && w.left != w.right && s[w.left].Leaf? && s[w.right].Leaf?
    ensures SameEntries(s, JoinLeaves(s, w))
  {
    var t := JoinLeaves(s, w);
    forall e ensures InStore(t, e) <==> InStore(s, e) {
      if InStore(s, e) {
        var x :| Stored(s, x, e);
        assert Stored(t, if x == w.right then w.left else x, e);
      }
      if InStore(t, e) {
        var x :| Stored(t, x, e);
        assert Stored(s, x, e) || Stored(s, w.right, e);
      }
    }
  }

  lemma JoinOtherInner(s: Store, g: Spans, root: PageId, w: Pending, t: Store, x: PageId)
    requires Shape(s, g, root, w) && w != Settled && x in s && x != w.right && s[x].Inner?
    requires t.Keys == s.Keys - {w.right} && t[x] == s[x]
    requires forall c :: c in t && s[c].parent == x ==> t[c].parent == x
    ensures InnerOK(t, JoinSpans(g, w), Settled, x) || x == w.left
  {
    var h := JoinSpans(g, w);
    assert InnerOK(s, g, w, x);
    if x != w.left {
      forall i | 0 <= i < |s[x].slots| ensures ChildOK(t, h, Settled, x, i) {
        assert ChildOK(s, g, w, x, i);
        RightHasNoParent(s, g, root, w, x, i);
      }
    }
  }

  /** Merging two leaves: the left one takes all entries and skips the right one in the chain. */
  lemma JoinLeavesKeeps(s: Store, g: Spans, root: PageId, w: Pending)
    requires Shape(s, g, root, w) && w != Settled && s[w.left].Leaf? && s[w.right].Leaf?
    ensures Shape(JoinLeaves(s, w), JoinSpans(g, w), root, Settled) && SameEntries(s, JoinLeaves(s, w))
  {
    var t, h := JoinLeaves(s, w), JoinSpans(g, w);
    JoinLeavesEntries(s, w);
    forall x | x in t ensures SpanOK(h, root, x) { JoinSpan(s, g, root, w, x); }
    forall x | x in t && t[x].Leaf? ensures LeafOK(t, h, x) {
      if x == w.left {
        JoinedLeaf(s, g, root, w);
      } else {
        assert LeafOK(s, g, x);
        if s[x].next == w.right { OnePredecessor(s, g, root, w, x); }
      }
    }
    forall x | x in t && t[x].Inner? ensures InnerOK(t, h, Settled, x) { JoinOtherInner(s, g, root, w, t, x); }
    forall x | x in t && x != root ensures Linked(t, x) {
      assert Linked(s, x);
      assert LeafOK(s, g, w.right);
    }
  }

  lemma JoinedChild(s: Store, g: Spans, root: PageId, w: Pending, i: nat)
    requires Shape(s, g, root, w) && w != Settled && s[w.left].Inner? && s[w.right].Inner?
    requires i < |s[w.left].slots| + |s[w.right].slots|
    requires s[w.right].slots != [] && BOTTOM <= g[w.right].lo < TOP
    ensures ChildOK(JoinInners(s, w, g[w.right].lo), JoinSpans(g, w), Settled, w.left, i)
  {
    var a, b := s[w.left].slots, s[w.right].slots;
    assert InnerOK(s, g, w, w.left) && InnerOK(s, g, w, w.right);
    if i < |a| {
      assert ChildOK(s, g, w, w.left, i);
      RightHasNoParent(s, g, root, w, w.left, i);
      if HasChild(b, a[i].val) { ChildOfOne(s, g, root, w, w.left, i, w.right); }
    } else {
      assert ChildOK(s, g, w, w.right, i - |a|);
      RightHasNoParent(s, g, root, w, w.right, i - |a|);
      assert HasChild(b, b[i - |a|].val);
    }
  }

  lemma JoinedInner(s: Store, g: Spans, root: PageId, w: Pending)
    requires Shape(s, g, root, w) && w != Settled && s[w.left].Inner? && s[w.right].Inner?
    requires s[w.right].slots != [] && BOTTOM <= g[w.right].lo < TOP
    ensures InnerOK(JoinInners(s, w, g[w.right].lo), JoinSpans(g, w), Settled, w.left)
  {
    var a, b, at := s[w.left].slots, s[w.right].slots, g[w.right].lo;
    assert InnerOK(s, g, w, w.left) && InnerOK(s, g, w, w.right);
    assert SpanOK(g, root, w.left) && SpanOK(g, root, w.right);
    var c := Joined(a, at, b);
    assert forall i :: 1 <= i < |a| ==> c[i].key == a[i].key < at;
    assert forall i :: |a| < i < |c| ==> c[i].key == b[i - |a|].key > at;
    forall i | 0 <= i < |c| ensures ChildOK(JoinInners(s, w, at), JoinSpans(g, w), Settled, w.left, i) {
      JoinedChild(s, g, root, w, i);
    }
  }

  lemma JoinInnersLinked(s: Store, g: Spans, root: PageId, w: Pending, x: PageId)
    requires Shape(s, g, root, w) && w != Settled && s[w.left].Inner? && s[w.right].Inner?
    requires s[w.right].slots != [] && BOTTOM <= g[w.right].lo < TOP
    requires x in s && x != root && x != w.right
    ensures Linked(JoinInners(s, w, g[w.right].lo), x)
  {
    var a, b, at := s[w.left].slots, s[w.right].slots, g[w.right].lo;
    var t := JoinInners(s, w, at);
    var c := Joined(a, at, b);
    assert Linked(s, x);
    var q := s[x].parent;
    var i :| 0 <= i < |s[q].slots| && s[q].slots[i].val == x;
    if HasChild(b, x) {
      ChildOfOne(s, g, root, w, q, i, w.right);
      assert c[|a| + i].val == x;
      assert InnerOK(s, g, w, w.right) && ChildOK(s, g, w, w.right, i);
    } else if q == w.left {
      assert c[i].val == x;
    } else if q != w.right {
      if HasChild(b, q) { }
    }
  }

  lemma ParentOfChild(s: Store, g: Spans, root: PageId, w: Pending, x: PageId, i: nat)
    requires Shape(s, g, root, w) && x in s && s[x].Inner? && i < |s[x].slots|
    ensures s[x].slots[i].val in s && s[s[x].slots[i].val].parent == x
  {
    assert InnerOK(s, g, w, x) && ChildOK(s, g, w, x, i);
  }

  // A page is a child of its parent only.
  lemma ChildOfOne(s: Store, g: Spans, root: PageId, w: Pending, x: PageId, i: nat, y: PageId)
    requires Shape(s, g, root, w) && x in s && s[x].Inner? && i < |s[x].slots|
    requires y in s && s[y].Inner? && HasChild(s[y].slots, s[x].slots[i].val)
    ensures x == y
  {
    var k :| 0 <= k < |s[y].slots| && s[y].slots[k].val == s[x].slots[i].val;
    ParentOfChild(s, g, root, w, x, i);
    ParentOfChild(s, g, root, w, y, k);
  }

  lemma RootIsNoChild(s: Store, g: Spans, root: PageId, w: Pending, x: PageId)
    requires Shape(s, g, root, w) && x in s && s[x].Inner?
    ensures !HasChild(s[x].slots, root)
  {
    forall i | 0 <= i < |s[x].slots| ensures s[x].slots[i].val != root { ParentOfChild(s, g, root, w, x, i); }
  }

  /** Merging two internal pages: the separator comes down and the right page's children move over. */
  lemma JoinInnersKeeps(s: Store, g: Spans, root: PageId, w: Pending)
    requires Shape(s, g, root, w) && w != Settled && s[w.left].Inner? && s[w.right].Inner?
    requires s[w.right].slots != [] && BOTTOM <= g[w.right].lo < TOP
    ensures Shape(JoinInners(s, w, g[w.right].lo), JoinSpans(g, w), root, Settled)
    ensures SameEntries(s, JoinInners(s, w, g[w.right].lo))
  {
    var t, h := JoinInners(s, w, g[w.right].lo), JoinSpans(g, w);
    SameLeaves(s, t);
    forall x | x in t ensures SpanOK(h, root, x) { JoinSpan(s, g, root, w, x); }
    forall x | x in t && t[x].Leaf? ensures LeafOK(t, h, x) { assert LeafOK(s, g, x); }
    forall x | x in t && t[x].Inner? ensures InnerOK(t, h, Settled, x) {
      if x == w.left {
        JoinedInner(s, g, root, w);
      } else {
        assert InnerOK(s, g, w, x);
        forall i | 0 <= i < |s[x].slots| ensures ChildOK(t, h, Settled, x, i) {
          assert ChildOK(s, g, w, x, i);
          RightHasNoParent(s, g, root, w, x, i);
          if HasChild(s[w.right].slots, s[x].slots[i].val) { ChildOfOne(s, g, root, w, x, i, w.right); }
        }
      }
    }
    forall x | x in t && x != root ensures Linked(t, x) { JoinInnersLinked(s, g, root, w, x); }
    RootIsNoChild(s, g, root, w, w.right);
  }

  // ---------- The root gives way to its only child ----------

  ghost function ShrinkRoot(s: Store, root: PageId): Store
    requires root in s && s[root].Inner? && |s[root].slots| == 1 && s[root].slots[0].val in s
  {
    var c := s[root].slots[0].val;
    s[c := s[c].(parent := INVALID)] - {root}
  }

  /** A root with one child is dropped and the child becomes the root. */
  lemma ShrinkRootKeeps(s: Store, g: Spans, root: PageId)
    requires Shape(s, g, root, Settled) && s[root].Inner? && |s[root].slots| == 1
    ensures s[root].slots[0].val in s && s[root].slots[0].val != root
    ensures Shape(ShrinkRoot(s, root), g - {root}, s[root].slots[0].val, Settled)
    ensures SameEntries(s, ShrinkRoot(s, root))
  {
    var c := s[root].slots[0].val;
    assert InnerOK(s, g, Settled, root) && ChildOK(s, g, Settled, root, 0);
    var t, h := ShrinkRoot(s, root), g - {root};
    forall x | x in t && x != c ensures Linked(t, x) && SpanOK(h, c, x) {
      assert Linked(s, x) && SpanOK(g, root, x);
      var q := s[x].parent;
      assert SpanOK(g, root, q);
      var k :| 0 <= k < |s[q].slots| && s[q].slots[k].val == x;
      assert InnerOK(s, g, Settled, q) && ChildOK(s, g, Settled, q, k);
    }
    assert SpanOK(g, root, c);
    forall x | x in t && t[x].Leaf? ensures LeafOK(t, h, x) { assert LeafOK(s, g, x); }
    forall x | x in t && t[x].Inner? ensures InnerOK(t, h, Settled, x) {
      assert InnerOK(s, g, Settled, x);
      forall i | 0 <= i < |s[x].slots| ensures ChildOK(t, h, Settled, x, i) { assert ChildOK(s, g, Settled, x, i); }
    }
    SameLeaves(s, t);
  }
}
