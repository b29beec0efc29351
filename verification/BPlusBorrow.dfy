/** Borrowing: two neighbouring pages share their rows anew. It is a join followed by a split. */
module BPlusBorrow {
  import opened Rids
  import opened BPlusNodes
  import opened BPlusShape
  import opened BPlusSplit
  import opened BPlusMerge

  ghost function MoveBoundary(g: Spans, w: Pending, at: int): Spans
    requires w.left in g && w.right in g
  {
    g[w.left := g[w.left].(hi := at)][w.right := g[w.right].(lo := at)]
  }

  ghost function ShareLeaves(s: Store, q: PageId, j: nat, a: seq<Entry<RID>>, b: seq<Entry<RID>>): Store
    requires q in s && s[q].Inner? && 1 <= j < |s[q].slots| && b != []
    requires Siblings(s, q, j).left in s && s[Siblings(s, q, j).left].Leaf?
    requires Siblings(s, q, j).right in s && s[Siblings(s, q, j).right].Leaf?
  {
    var w := Siblings(s, q, j);
    s[w.left := s[w.left].(entries := a)][w.right := s[w.right].(entries := b)]
     [q := Inner(s[q].parent, SetSlotKey(s[q].slots, j, b[0].key))]
  }

  lemma NextIsRight(s: Store, g: Spans, root: PageId, w: Pending)
    requires Shape(s, g, root, w) && w != Settled && s[w.left].Leaf? && s[w.right].Leaf?
    ensures s[w.left].next == w.right
  {
    assert LeafOK(s, g, w.left) && LeafOK(s, g, w.right) && SpanOK(g, root, w.right);
    var n := s[w.left].next;
    assert LeafOK(s, g, n) && SpanOK(g, root, n);
    OneCover(s, g, root, w, n, w.right, g[n].lo);
  }

  lemma ReinsertSlot(slots: seq<Entry<PageId>>, j: nat, at: Key)
    requires 1 <= j < |slots|
    ensures InsertSlot(RemoveSlot(slots, j), j - 1, at, slots[j].val) == SetSlotKey(slots, j, at)
  {
  }

  /** Two leaf siblings may divide their entries differently if the separator follows. */
  lemma ShareLeavesKeeps(s: Store, g: Spans, root: PageId, q: PageId, j: nat, a: seq<Entry<RID>>, b: seq<Entry<RID>>)
    requires UnlinkPre(s, g, root, q, j)
    requires Siblings(s, q, j).left in s && s[Siblings(s, q, j).left].Leaf?
    requires Siblings(s, q, j).right in s && s[Siblings(s, q, j).right].Leaf?
    requires a + b == s[Siblings(s, q, j).left].entries + s[Siblings(s, q, j).right].entries
    requires a != [] && b != []
    ensures Siblings(s, q, j).left in g && Siblings(s, q, j).right in g
    ensures Shape(ShareLeaves(s, q, j, a, b), MoveBoundary(g, Siblings(s, q, j), b[0].key), root, Settled)
    ensures SameEntries(s, ShareLeaves(s, q, j, a, b))
  {
    var w := Siblings(s, q, j);
    var at := b[0].key;
    SiblingsPending(s, g, root, q, j);
    UnlinkKeeps(s, g, root, q, j);
    var t1 := Unlink(s, q, j);
    NextIsRight(t1, g, root, w);
    JoinLeavesKeeps(t1, g, root, w);
    var t2, g2 := JoinLeaves(t1, w), JoinSpans(g, w);
    SplitLeafKeeps(t2, g2, root, w.left, w.right, |a|, q);
    SplitLeafEntries(t2, w.left, w.right, |a|, q);
    var t3, g3 := SplitLeaf(t2, w.left, w.right, |a|, q), SplitSpans(g2, w.left, w.right, at);
    assert t2[w.left].entries == a + b;
    assert SpanOK(g3, root, w.right);
    assert t3[q] == t1[q];
    LinkKeeps(t3, g3, root, w, q, j - 1);
    var t4 := Link(t3, g3, w, q, j - 1);
    ReinsertSlot(s[q].slots, j, at);
    assert t4 == ShareLeaves(s, q, j, a, b);
    assert g3 == MoveBoundary(g, w, at);
  }

  ghost function ShareInners(s: Store, q: PageId, j: nat, a: seq<Entry<PageId>>, b: seq<Entry<PageId>>, at: Key): Store
    requires q in s && s[q].Inner? && 1 <= j < |s[q].slots|
    requires Siblings(s, q, j).left in s && s[Siblings(s, q, j).left].Inner?
    requires Siblings(s, q, j).right in s && s[Siblings(s, q, j).right].Inner?
  {
    var w := Siblings(s, q, j);
    Reparent(Reparent(s, a, w.left), b, w.right)
      [w.left := Inner(s[w.left].parent, a)][w.right := Inner(s[w.right].parent, b)]
      [q := Inner(s[q].parent, SetSlotKey(s[q].slots, j, at))]
  }

  ghost predicate SharePre(s: Store, g: Spans, root: PageId, q: PageId, j: nat,
                           a: seq<Entry<PageId>>, b: seq<Entry<PageId>>, at: Key)
  {
    && UnlinkPre(s, g, root, q, j)
    && var w := Siblings(s, q, j);
    && w.left in s && w.right in s && s[w.left].Inner? && s[w.right].Inner? && s[w.right].slots != []
    && var c := Joined(s[w.left].slots, s[q].slots[j].key, s[w.right].slots);
    && 1 <= |a| < |c| && a == c[..|a|] && IsUpperHalf(b, c, |a|) && at == c[|a|].key
  }

  lemma ShareInnersParents(s: Store, g: Spans, root: PageId, q: PageId, j: nat,
                           a: seq<Entry<PageId>>, b: seq<Entry<PageId>>, at: Key, x: PageId)
    requires SharePre(s, g, root, q, j, a, b, at) && x in s && !HasChild(b, x)
    ensures var w := Siblings(s, q, j);
      HasChild(a, x) ==> HasChild(s[w.right].slots, x) || s[x].parent == w.left
    ensures HasChild(s[Siblings(s, q, j).right].slots, x) ==> HasChild(a, x)
  {
    var w := Siblings(s, q, j);
    var l, r := s[w.left].slots, s[w.right].slots;
    var c := Joined(l, s[q].slots[j].key, r);
    if HasChild(a, x) {
      var i :| 0 <= i < |a| && a[i].val == x;
      if i < |l| { ParentOfChild(s, g, root, Settled, w.left, i); } else { assert r[i - |l|].val == x; }
    }
    if HasChild(r, x) {
      var i :| 0 <= i < |r| && r[i].val == x;
      assert c[|l| + i].val == x;
      if |l| + i < |a| { assert a[|l| + i].val == x; } else { assert b[|l| + i - |a|].val == x; }
    }
  }

  // The pages that change places lie one level below the two siblings.
  lemma SharedLevel(s: Store, g: Spans, root: PageId, q: PageId, j: nat,
                    a: seq<Entry<PageId>>, b: seq<Entry<PageId>>, at: Key, x: PageId)
    requires SharePre(s, g, root, q, j, a, b, at)
    requires HasChild(a, x) || HasChild(b, x) || HasChild(s[Siblings(s, q, j).right].slots, x)
    ensures x in s && x != q && x != Siblings(s, q, j).left && x != Siblings(s, q, j).right
  {
    var w := Siblings(s, q, j);
    SiblingsPending(s, g, root, q, j);
    var l, r := s[w.left].slots, s[w.right].slots;
    var c := Joined(l, s[q].slots[j].key, r);
    var i: nat;
    if HasChild(a, x) {
      i :| 0 <= i < |a| && a[i].val == x;
    } else if HasChild(b, x) {
      var k :| 0 <= k < |b| && b[k].val == x;
      i := |a| + k;
    } else {
      var k :| 0 <= k < |r| && r[k].val == x;
      i := |l| + k;
    }
    assert c[i].val == x;
    var o, k := if i < |l| then w.left else w.right, if i < |l| then i else i - |l|;
    assert InnerOK(s, g, Settled, o) && ChildOK(s, g, Settled, o, k);
  }

  ghost function JoinedAgain(s: Store, q: PageId, j: nat, a: seq<Entry<PageId>>, b: seq<Entry<PageId>>): Store
    requires q in s && s[q].Inner? && 1 <= j < |s[q].slots|
    requires Siblings(s, q, j).left in s && s[Siblings(s, q, j).left].Inner? && q != Siblings(s, q, j).left
    requires Siblings(s, q, j).right in s && s[Siblings(s, q, j).right].Inner? && q != Siblings(s, q, j).right
    requires Siblings(s, q, j).left != Siblings(s, q, j).right && s[Siblings(s, q, j).right].slots != []
    requires 1 <= |a| < |s[Siblings(s, q, j).left].slots| + |s[Siblings(s, q, j).right].slots|
  {
    var w := Siblings(s, q, j);
    SplitInner(JoinInners(Unlink(s, q, j), w, s[q].slots[j].key), w.left, w.right, |a|, b, q)
  }

  lemma JoinedAgainAt(s: Store, g: Spans, root: PageId, q: PageId, j: nat,
                      a: seq<Entry<PageId>>, b: seq<Entry<PageId>>, at: Key, x: PageId)
    requires SharePre(s, g, root, q, j, a, b, at) && x in s
    ensures var w := Siblings(s, q, j); w.left != w.right && q != w.left && q != w.right && w.right in s
    ensures var w := Siblings(s, q, j);
      JoinedAgain(s, q, j, a, b)[x] ==
        if x == w.left then Inner(s[x].parent, a)
        else if x == w.right then Inner(q, b)
        else if x == q then Inner(s[q].parent, RemoveSlot(s[q].slots, j))
        else if HasChild(b, x) then s[x].(parent := w.right)
        else if HasChild(a, x) then s[x].(parent := w.left)
        else s[x]
  {
    SiblingsPending(s, g, root, q, j);
    var w := Siblings(s, q, j);
    if HasChild(a, x) || HasChild(b, x) || HasChild(s[w.right].slots, x) { SharedLevel(s, g, root, q, j, a, b, at, x); }
    if !HasChild(b, x) { ShareInnersParents(s, g, root, q, j, a, b, at, x); }
  }

  lemma ShareInnersSameAt(s: Store, g: Spans, root: PageId, q: PageId, j: nat,
                          a: seq<Entry<PageId>>, b: seq<Entry<PageId>>, at: Key, g3: Spans, x: PageId)
    requires SharePre(s, g, root, q, j, a, b, at) && x in s
    requires var w := Siblings(s, q, j); w.right in s && w.right in g3 && g3[w.right].lo == at
    ensures var w := Siblings(s, q, j);
      && w.left != w.right && q != w.left && q != w.right
      && JoinedAgain(s, q, j, a, b)[q] == Unlink(s, q, j)[q]
      && Link(JoinedAgain(s, q, j, a, b), g3, w, q, j - 1)[x] == ShareInners(s, q, j, a, b, at)[x]
  {
    SiblingsPending(s, g, root, q, j);
    JoinedAgainAt(s, g, root, q, j, a, b, at, q);
    JoinedAgainAt(s, g, root, q, j, a, b, at, x);
    ReinsertSlot(s[q].slots, j, at);
  }

  lemma ShareInnersSame(s: Store, g: Spans, root: PageId, q: PageId, j: nat,
                        a: seq<Entry<PageId>>, b: seq<Entry<PageId>>, at: Key, g3: Spans)
    requires SharePre(s, g, root, q, j, a, b, at)
    requires var w := Siblings(s, q, j); w.right in s && w.right in g3 && g3[w.right].lo == at
    ensures var w := Siblings(s, q, j);
      && w.left != w.right && q != w.left && q != w.right
      && JoinedAgain(s, q, j, a, b)[q] == Unlink(s, q, j)[q]
      && Link(JoinedAgain(s, q, j, a, b), g3, w, q, j - 1) == ShareInners(s, q, j, a, b, at)
  {
    ShareInnersSameAt(s, g, root, q, j, a, b, at, g3, q);
    var t := Link(JoinedAgain(s, q, j, a, b), g3, Siblings(s, q, j), q, j - 1);
    var u := ShareInners(s, q, j, a, b, at);
    assert t.Keys == u.Keys == s.Keys;
    forall x | x in s ensures t[x] == u[x] { ShareInnersSameAt(s, g, root, q, j, a, b, at, g3, x); }
  }

  /** Two internal siblings may divide their children differently if the middle key moves up. */
  lemma ShareInnersKeeps(s: Store, g: Spans, root: PageId, q: PageId, j: nat,
                         a: seq<Entry<PageId>>, b: seq<Entry<PageId>>, at: Key)
    requires SharePre(s, g, root, q, j, a, b, at)
    ensures Siblings(s, q, j).left in g && Siblings(s, q, j).right in g
    ensures Shape(ShareInners(s, q, j, a, b, at), MoveBoundary(g, Siblings(s, q, j), at), root, Settled)
    ensures SameEntries(s, ShareInners(s, q, j, a, b, at))
  {
    var w := Siblings(s, q, j);
    var sep := s[q].slots[j].key;
    SiblingsPending(s, g, root, q, j);
    UnlinkKeeps(s, g, root, q, j);
    var t1 := Unlink(s, q, j);
    JoinInnersKeeps(t1, g, root, w);
    var t2, g2 := JoinInners(t1, w, sep), JoinSpans(g, w);
    SplitInnerKeeps(t2, g2, root, w.left, w.right, |a|, b, q);
    var t3, g3 := JoinedAgain(s, q, j, a, b), SplitSpans(g2, w.left, w.right, at);
    assert SpanOK(g3, root, w.right);
    ShareInnersSame(s, g, root, q, j, a, b, at, g3);
    LinkKeeps(t3, g3, root, w, q, j - 1);
    assert g3 == MoveBoundary(g, w, at);
  }

  // ---------- The two directions of an internal borrow ----------

  // The last child of the left page moves to the front of the right one.
  lemma LeftGives(s: Store, g: Spans, root: PageId, q: PageId, j: nat)
    requires UnlinkPre(s, g, root, q, j)
    requires Siblings(s, q, j).left in s && s[Siblings(s, q, j).left].Inner? && |s[Siblings(s, q, j).left].slots| >= 2
    requires Siblings(s, q, j).right in s && s[Siblings(s, q, j).right].Inner? && s[Siblings(s, q, j).right].slots != []
    ensures var w := Siblings(s, q, j); var l, r := s[w.left].slots, s[w.right].slots; var n := |l| - 1;
      var a, b := l[..n], WithNewFirst(r, l[n].val, s[q].slots[j].key);
      && SharePre(s, g, root, q, j, a, b, l[n].key)
      && ShareInners(s, q, j, a, b, l[n].key) ==
           Reparent(s[w.left := Inner(s[w.left].parent, a)][w.right := Inner(s[w.right].parent, b)], b, w.right)
             [q := Inner(s[q].parent, SetSlotKey(s[q].slots, j, l[n].key))]
  {
    var w := Siblings(s, q, j);
    var l, r := s[w.left].slots, s[w.right].slots;
    var n := |l| - 1;
    var a, b := l[..n], WithNewFirst(r, l[n].val, s[q].slots[j].key);
    var c := Joined(l, s[q].slots[j].key, r);
    assert c[..n] == a;
    assert forall i :: 1 <= i < |b| ==> b[i] == c[n + i];
    assert SharePre(s, g, root, q, j, a, b, l[n].key);
    SiblingsPending(s, g, root, q, j);
    forall x | x in s && (HasChild(a, x) || HasChild(b, x)) ensures x != q && x != w.left && x != w.right {
      SharedLevel(s, g, root, q, j, a, b, l[n].key, x);
    }
    forall x | x in s && HasChild(a, x) ensures s[x].parent == w.left {
      var i :| 0 <= i < n && a[i].val == x;
      ParentOfChild(s, g, root, Settled, w.left, i);
    }
  }

  // The first child of the right page moves to the end of the left one.
  lemma RightGives(s: Store, g: Spans, root: PageId, q: PageId, j: nat)
    requires UnlinkPre(s, g, root, q, j)
    requires Siblings(s, q, j).left in s && s[Siblings(s, q, j).left].Inner? && s[Siblings(s, q, j).left].slots != []
    requires Siblings(s, q, j).right in s && s[Siblings(s, q, j).right].Inner? && |s[Siblings(s, q, j).right].slots| >= 2
    ensures var w := Siblings(s, q, j); var l, r := s[w.left].slots, s[w.right].slots;
      var a, b := l + [Entry(s[q].slots[j].key, r[0].val)], WithoutFirst(r);
      && SharePre(s, g, root, q, j, a, b, r[1].key)
      && ShareInners(s, q, j, a, b, r[1].key) ==
           Reparent(s[w.left := Inner(s[w.left].parent, a)][w.right := Inner(s[w.right].parent, b)], a, w.left)
             [q := Inner(s[q].parent, SetSlotKey(s[q].slots, j, r[1].key))]
  {
    var w := Siblings(s, q, j);
    var l, r := s[w.left].slots, s[w.right].slots;
    var a, b := l + [Entry(s[q].slots[j].key, r[0].val)], WithoutFirst(r);
    var c := Joined(l, s[q].slots[j].key, r);
    assert c[..|a|] == a;
    assert forall i :: 1 <= i < |b| ==> b[i] == c[|a| + i];
    assert SharePre(s, g, root, q, j, a, b, r[1].key);
    SiblingsPending(s, g, root, q, j);
    forall x | x in s && (HasChild(a, x) || HasChild(b, x)) ensures x != q && x != w.left && x != w.right {
      SharedLevel(s, g, root, q, j, a, b, r[1].key, x);
    }
    forall x | x in s && HasChild(b, x) ensures s[x].parent == w.right && !HasChild(a, x) {
      var i :| 0 <= i < |b| && b[i].val == x;
      assert r[i + 1].val == x;
      ParentOfChild(s, g, root, Settled, w.right, i + 1);
      if HasChild(a, x) { GivenOnce(s, g, root, q, j, x, i + 1); }
    }
  }

  lemma GivenOnce(s: Store, g: Spans, root: PageId, q: PageId, j: nat, x: PageId, i: nat)
    requires UnlinkPre(s, g, root, q, j)
    requires Siblings(s, q, j).left in s && s[Siblings(s, q, j).left].Inner?
    requires Siblings(s, q, j).right in s && s[Siblings(s, q, j).right].Inner?
    requires 1 <= i < |s[Siblings(s, q, j).right].slots| && s[Siblings(s, q, j).right].slots[i].val == x
    ensures var w := Siblings(s, q, j); var l, r := s[w.left].slots, s[w.right].slots;
      !HasChild(l + [Entry(s[q].slots[j].key, r[0].val)], x)
  {
    var w := Siblings(s, q, j);
    SiblingsPending(s, g, root, q, j);
    var l, r := s[w.left].slots, s[w.right].slots;
    var a := l + [Entry(s[q].slots[j].key, r[0].val)];
    forall k | 0 <= k < |a| ensures a[k].val != x {
      ParentOfChild(s, g, root, Settled, w.right, i);
      if k < |l| {
        ParentOfChild(s, g, root, Settled, w.left, k);
      } else if r[0].val == x {
        ChildAtOnce(s, g, root, Settled, w.right, 0, i);
      }
    }
  }

  // Merging may point all children of the joined page at it: the left page's own already do.
  lemma JoinAllChildren(s: Store, g: Spans, root: PageId, q: PageId, j: nat)
    requires UnlinkPre(s, g, root, q, j)
    requires Siblings(s, q, j).left in s && s[Siblings(s, q, j).left].Inner?
    requires Siblings(s, q, j).right in s && s[Siblings(s, q, j).right].Inner? && s[Siblings(s, q, j).right].slots != []
    ensures var w := Siblings(s, q, j); var u := Unlink(s, q, j);
      && w.left in u && w.right in u && u[w.left].Inner? && u[w.right].Inner? && u[w.right].slots != []
      && var l, r := s[w.left].slots, s[w.right].slots;
      && var c := Joined(l, s[q].slots[j].key, r);
      && JoinInners(u, w, s[q].slots[j].key) ==
           (Reparent(s[w.left := Inner(s[w.left].parent, c)][w.right := Inner(s[w.right].parent, [])], c, w.left)
              - {w.right})[q := Inner(s[q].parent, RemoveSlot(s[q].slots, j))]
  {
    var w := Siblings(s, q, j);
    SiblingsPending(s, g, root, q, j);
    var l, r := s[w.left].slots, s[w.right].slots;
    var c := Joined(l, s[q].slots[j].key, r);
    PairChildren(s, g, root, q, j);
    forall x | x in s ensures HasChild(c, x) <==> HasChild(l, x) || HasChild(r, x) { JoinedChildren(l, s[q].slots[j].key, r, x); }
    forall x | x in s && HasChild(l, x) ensures s[x].parent == w.left { ChildBelow(s, g, root, Settled, w.left, x); }
  }

  lemma JoinedChildren(l: seq<Entry<PageId>>, middle: Key, r: seq<Entry<PageId>>, x: PageId)
    requires r != []
    ensures HasChild(Joined(l, middle, r), x) <==> HasChild(l, x) || HasChild(r, x)
  {
    var c := Joined(l, middle, r);
    if HasChild(l, x) { var i :| 0 <= i < |l| && l[i].val == x; assert c[i].val == x; }
    if HasChild(r, x) { var i :| 0 <= i < |r| && r[i].val == x; assert c[|l| + i].val == x; }
    if HasChild(c, x) {
      var i :| 0 <= i < |c| && c[i].val == x;
      assert if i < |l| then l[i].val == x else r[i - |l|].val == x;
    }
  }

  /** The children of two neighbours are neither of the two nor their parent. */
  lemma PairChildren(s: Store, g: Spans, root: PageId, q: PageId, j: nat)
    requires UnlinkPre(s, g, root, q, j)
    requires Siblings(s, q, j).left in s && s[Siblings(s, q, j).left].Inner?
    requires Siblings(s, q, j).right in s && s[Siblings(s, q, j).right].Inner?
    ensures var w := Siblings(s, q, j);
      forall c :: HasChild(s[w.left].slots, c) || HasChild(s[w.right].slots, c) ==>
        c in s && c != q && c != w.left && c != w.right
  {
    var w := Siblings(s, q, j);
    SiblingsPending(s, g, root, q, j);
    forall c | HasChild(s[w.left].slots, c) ensures c in s && c != q && c != w.left && c != w.right {
      ChildBelow(s, g, root, Settled, w.left, c);
    }
    forall c | HasChild(s[w.right].slots, c) ensures c in s && c != q && c != w.left && c != w.right {
      ChildBelow(s, g, root, Settled, w.right, c);
    }
  }
}
