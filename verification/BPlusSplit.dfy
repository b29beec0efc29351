/** Splits: a full page gives its upper half to a new page, which then waits for a parent slot. */
module BPlusSplit {
  import opened Rids
  import opened BPlusNodes
  import opened BPlusShape

  // ---------- Splitting an internal page ----------

  ghost function Reparent(s: Store, kids: seq<Entry<PageId>>, q: PageId): (t: Store)
    ensures t.Keys == s.Keys
  {
    map p | p in s :: if HasChild(kids, p) then s[p].(parent := q) else s[p]
  }

  lemma ReparentOneMore(s: Store, kids: seq<Entry<PageId>>, i: nat, q: PageId)
    requires i < |kids| && kids[i].val in s
    ensures var t := Reparent(s, kids[..i], q);
      Reparent(s, kids[..i + 1], q) == t[kids[i].val := t[kids[i].val].(parent := q)]
  {
    var t, c := Reparent(s, kids[..i], q), kids[i].val;
    forall p ensures HasChild(kids[..i + 1], p) <==> HasChild(kids[..i], p) || p == c {
      if HasChild(kids[..i], p) {
        var k :| 0 <= k < i && kids[..i][k].val == p;
        assert kids[..i + 1][k].val == p;
      }
      if HasChild(kids[..i + 1], p) {
        var k :| 0 <= k < i + 1 && kids[..i + 1][k].val == p;
        assert k < i ==> kids[..i][k].val == p;
      }
      assert kids[..i + 1][i].val == c;
    }
  }

  ghost predicate IsUpperHalf(b: seq<Entry<PageId>>, slots: seq<Entry<PageId>>, m: nat)
    requires m < |slots|
  {
    && |b| == |slots| - m
    && b[0].val == slots[m].val
    && forall i :: 1 <= i < |b| ==> b[i] == slots[m + i]
  }

  ghost function SplitInner(s: Store, p: PageId, n: PageId, m: nat, b: seq<Entry<PageId>>, par: PageId): Store
    requires p in s && s[p].Inner? && m < |s[p].slots|
  {
    Reparent(s, b, n)[p := Inner(s[p].parent, s[p].slots[..m])][n := Inner(par, b)]
  }

  // The two pages may be written before the children are told their new parent.
  lemma SplitInnerLate(s: Store, p: PageId, n: PageId, m: nat, b: seq<Entry<PageId>>, par: PageId)
    requires p in s && s[p].Inner? && m < |s[p].slots| && n !in s
    requires forall i :: 0 <= i < |b| ==> b[i].val in s && b[i].val != p
    ensures Reparent(s[n := Inner(par, b)][p := Inner(s[p].parent, s[p].slots[..m])], b, n) == SplitInner(s, p, n, m, b, par)
  {
  }

  ghost function SplitSpans(g: Spans, p: PageId, n: PageId, at: int): Spans
    requires p in g
  {
    g[p := g[p].(hi := at)][n := g[p].(lo := at)]
  }

  ghost predicate SplitInnerPre(s: Store, g: Spans, root: PageId, p: PageId, n: PageId, m: nat, b: seq<Entry<PageId>>)
  {
    && Shape(s, g, root, Settled) && p in s && s[p].Inner? && 1 <= m < |s[p].slots|
    && n !in s && n != INVALID && IsUpperHalf(b, s[p].slots, m)
  }

  // The children that move are children of p alone, and none of them stays with p.
  lemma SplitInnerMoved(s: Store, g: Spans, root: PageId, p: PageId, n: PageId, m: nat,
                        b: seq<Entry<PageId>>, c: PageId)
    requires SplitInnerPre(s, g, root, p, n, m, b) && c in s && HasChild(b, c)
    ensures s[c].parent == p && g[c].level < g[p].level && !HasChild(s[p].slots[..m], c)
  {
    var slots := s[p].slots;
    assert InnerOK(s, g, Settled, p);
    var i :| 0 <= i < |b| && b[i].val == c;
    assert slots[m + i].val == c;
    assert ChildOK(s, g, Settled, p, m + i);
    if HasChild(slots[..m], c) {
      var j :| 0 <= j < m && slots[..m][j].val == c;
      ChildAtOnce(s, g, root, Settled, p, j, m + i);
    }
  }

  lemma SplitInnerUpper(s: Store, g: Spans, root: PageId, p: PageId, n: PageId, m: nat,
                        b: seq<Entry<PageId>>, par: PageId)
    requires SplitInnerPre(s, g, root, p, n, m, b)
    ensures InnerOK(SplitInner(s, p, n, m, b, par), SplitSpans(g, p, n, s[p].slots[m].key), Pending(p, n), n)
  {
    var t := SplitInner(s, p, n, m, b, par);
    var h := SplitSpans(g, p, n, s[p].slots[m].key);
    assert InnerOK(s, g, Settled, p);
    forall i | 0 <= i < |b| ensures ChildOK(t, h, Pending(p, n), n, i) {
      assert ChildOK(s, g, Settled, p, m + i);
      assert HasChild(b, b[i].val);
    }
  }

  lemma SplitInnerLower(s: Store, g: Spans, root: PageId, p: PageId, n: PageId, m: nat,
                        b: seq<Entry<PageId>>, par: PageId)
    requires SplitInnerPre(s, g, root, p, n, m, b)
    ensures InnerOK(SplitInner(s, p, n, m, b, par), SplitSpans(g, p, n, s[p].slots[m].key), Pending(p, n), p)
  {
    var t := SplitInner(s, p, n, m, b, par);
    var h := SplitSpans(g, p, n, s[p].slots[m].key);
    assert InnerOK(s, g, Settled, p);
    forall i | 0 <= i < m ensures ChildOK(t, h, Pending(p, n), p, i) {
      assert ChildOK(s, g, Settled, p, i);
      var c := s[p].slots[i].val;
      assert s[p].slots[..m][i].val == c;
      if HasChild(b, c) { SplitInnerMoved(s, g, root, p, n, m, b, c); }
    }
  }

  lemma SplitInnerOther(s: Store, g: Spans, root: PageId, p: PageId, n: PageId, m: nat,
                        b: seq<Entry<PageId>>, par: PageId, x: PageId)
    requires SplitInnerPre(s, g, root, p, n, m, b) && x in s && x != p && s[x].Inner?
    ensures InnerOK(SplitInner(s, p, n, m, b, par), SplitSpans(g, p, n, s[p].slots[m].key), Pending(p, n), x)
  {
    var t := SplitInner(s, p, n, m, b, par);
    var h := SplitSpans(g, p, n, s[p].slots[m].key);
    assert InnerOK(s, g, Settled, x);
    forall i | 0 <= i < |s[x].slots| ensures ChildOK(t, h, Pending(p, n), x, i) {
      assert ChildOK(s, g, Settled, x, i);
      var c := s[x].slots[i].val;
      if HasChild(b, c) { SplitInnerMoved(s, g, root, p, n, m, b, c); }
    }
  }

  lemma SplitInnerLinked(s: Store, g: Spans, root: PageId, p: PageId, n: PageId, m: nat,
                         b: seq<Entry<PageId>>, par: PageId, x: PageId)
    requires SplitInnerPre(s, g, root, p, n, m, b) && x in s && x != root
    ensures Linked(SplitInner(s, p, n, m, b, par), x)
  {
    var t := SplitInner(s, p, n, m, b, par);
    var slots := s[p].slots;
    assert Linked(s, x);
    if HasChild(b, p) { SplitInnerMoved(s, g, root, p, n, m, b, p); }
    if s[x].parent == p {
      var i :| 0 <= i < |slots| && slots[i].val == x;
      if i < m {
        assert slots[..m][i].val == x;
        if HasChild(b, x) { SplitInnerMoved(s, g, root, p, n, m, b, x); }
      } else {
        assert b[i - m].val == x;
      }
    } else if HasChild(b, x) {
      SplitInnerMoved(s, g, root, p, n, m, b, x);
    }
  }

  lemma SplitInnerSpan(s: Store, g: Spans, root: PageId, p: PageId, n: PageId, m: nat, b: seq<Entry<PageId>>, x: PageId)
    requires SplitInnerPre(s, g, root, p, n, m, b) && (x in s || x == n)
    ensures SpanOK(SplitSpans(g, p, n, s[p].slots[m].key), root, x)
  {
    assert SpanOK(g, root, p) && InnerOK(s, g, Settled, p);
    if x in s { assert SpanOK(g, root, x); }
  }

  lemma SplitInnerLeaf(s: Store, g: Spans, root: PageId, p: PageId, n: PageId, m: nat,
                       b: seq<Entry<PageId>>, par: PageId, x: PageId)
    requires SplitInnerPre(s, g, root, p, n, m, b) && x in s && s[x].Leaf?
    ensures LeafOK(SplitInner(s, p, n, m, b, par), SplitSpans(g, p, n, s[p].slots[m].key), x)
  {
    assert LeafOK(s, g, x);
  }

  lemma SplitInnerRoot(s: Store, g: Spans, root: PageId, p: PageId, n: PageId, m: nat,
                       b: seq<Entry<PageId>>, par: PageId)
    requires SplitInnerPre(s, g, root, p, n, m, b)
    ensures RootOK(SplitInner(s, p, n, m, b, par), SplitSpans(g, p, n, s[p].slots[m].key), root, Pending(p, n))
  {
    if HasChild(b, root) { SplitInnerMoved(s, g, root, p, n, m, b, root); }
  }

  /** Splitting an internal page: its upper children move to a new page, which waits for a parent. */
  lemma SplitInnerKeeps(s: Store, g: Spans, root: PageId, p: PageId, n: PageId, m: nat,
                        b: seq<Entry<PageId>>, par: PageId)
    requires SplitInnerPre(s, g, root, p, n, m, b)
    ensures Shape(SplitInner(s, p, n, m, b, par), SplitSpans(g, p, n, s[p].slots[m].key), root, Pending(p, n))
    ensures SameEntries(s, SplitInner(s, p, n, m, b, par))
  {
    var t := SplitInner(s, p, n, m, b, par);
    var h := SplitSpans(g, p, n, s[p].slots[m].key);
    SameLeaves(s, t);
    SplitInnerRoot(s, g, root, p, n, m, b, par);
    forall x | x in t ensures SpanOK(h, root, x) { SplitInnerSpan(s, g, root, p, n, m, b, x); }
    forall x | x in t && t[x].Inner? ensures InnerOK(t, h, Pending(p, n), x) {
      if x == n {
        SplitInnerUpper(s, g, root, p, n, m, b, par);
      } else if x == p {
        SplitInnerLower(s, g, root, p, n, m, b, par);
      } else {
        SplitInnerOther(s, g, root, p, n, m, b, par, x);
      }
    }
    forall x | x in t && x != root && x != n ensures Linked(t, x) {
      SplitInnerLinked(s, g, root, p, n, m, b, par, x);
    }
    forall x | x in t && t[x].Leaf? ensures LeafOK(t, h, x) {
      SplitInnerLeaf(s, g, root, p, n, m, b, par, x);
    }
  }

  // ---------- Splitting a leaf ----------

  ghost function SplitLeaf(s: Store, p: PageId, n: PageId, m: nat, par: PageId): Store
    requires p in s && s[p].Leaf? && m < |s[p].entries|
  {
    s[p := Leaf(s[p].parent, n, s[p].entries[..m])][n := Leaf(par, s[p].next, s[p].entries[m..])]
  }

  lemma SplitLeafEntries(s: Store, p: PageId, n: PageId, m: nat, par: PageId)
    requires p in s && s[p].Leaf? && m < |s[p].entries| && n !in s
    ensures SameEntries(s, SplitLeaf(s, p, n, m, par))
  {
    var es, t := s[p].entries, SplitLeaf(s, p, n, m, par);
    assert es == es[..m] + es[m..];
    forall e ensures InStore(t, e) <==> InStore(s, e) {
      if InStore(s, e) {
        var x :| Stored(s, x, e);
        assert Stored(t, x, e) || Stored(t, n, e);
      }
      if InStore(t, e) {
        var x :| Stored(t, x, e);
        assert Stored(s, if x == n then p else x, e);
      }
    }
  }

  /** Splitting a leaf: the new leaf takes the upper entries and its place in the leaf chain. */
  lemma SplitLeafKeeps(s: Store, g: Spans, root: PageId, p: PageId, n: PageId, m: nat, par: PageId)
    requires Shape(s, g, root, Settled) && p in s && s[p].Leaf? && 1 <= m < |s[p].entries|
    requires n !in s && n != INVALID
    ensures Shape(SplitLeaf(s, p, n, m, par), SplitSpans(g, p, n, s[p].entries[m].key), root, Pending(p, n))
  {
    var es := s[p].entries;
    var t := SplitLeaf(s, p, n, m, par);
    var h := SplitSpans(g, p, n, es[m].key);
    assert LeafOK(s, g, p) && SpanOK(g, root, p);
    assert es[0].key < es[m].key;
    forall x | x in t ensures SpanOK(h, root, x) {
      if x != n { assert SpanOK(g, root, x); }
    }
    forall x | x in t && t[x].Leaf? ensures LeafOK(t, h, x) {
      if x == n || x == p { IncreasingParts(es, m); } else { assert LeafOK(s, g, x); }
    }
    forall x | x in t && t[x].Inner? ensures InnerOK(t, h, Pending(p, n), x) {
      assert InnerOK(s, g, Settled, x);
      forall i | 0 <= i < |s[x].slots| ensures ChildOK(t, h, Pending(p, n), x, i) {
        assert ChildOK(s, g, Settled, x, i);
      }
    }
    forall x | x in t && x != root && x != n ensures Linked(t, x) { assert Linked(s, x); }
  }

  // ---------- The pending page finds its parent ----------

  ghost function Link(s: Store, g: Spans, w: Pending, q: PageId, j: nat): Store
    requires q in s && s[q].Inner? && j < |s[q].slots| && w.right in s && w.right in g && BOTTOM <= g[w.right].lo < TOP
  {
    s[q := Inner(s[q].parent, InsertSlot(s[q].slots, j, g[w.right].lo, w.right))]
     [w.right := s[w.right].(parent := q)]
  }

  ghost predicate LinkPre(s: Store, g: Spans, root: PageId, w: Pending, q: PageId, j: nat) {
    && Shape(s, g, root, w) && w != Settled && SpanOK(g, root, w.right)
    && q in s && s[q].Inner? && j < |s[q].slots| && s[q].slots[j].val == w.left
  }

  lemma InsertSlotAt(slots: seq<Entry<PageId>>, j: nat, key: Key, c: PageId)
    requires j < |slots|
    ensures var r := InsertSlot(slots, j, key, c);
      && |r| == |slots| + 1 && r[j + 1] == Entry(key, c)
      && (forall i :: 0 <= i <= j ==> r[i] == slots[i])
      && (forall i :: j + 1 < i < |r| ==> r[i] == slots[i - 1])
  {
  }

  lemma InsertSlotRouted(slots: seq<Entry<PageId>>, j: nat, key: Key, c: PageId)
    requires j < |slots| && Routed(slots)
    requires (j >= 1 ==> slots[j].key < key) && (j + 1 < |slots| ==> key < slots[j + 1].key)
    ensures Routed(InsertSlot(slots, j, key, c))
  {
    InsertSlotAt(slots, j, key, c);
    assert forall i :: 1 <= i <= j ==> slots[i].key <= slots[j].key < key;
    assert forall i :: j + 1 <= i < |slots| ==> key < slots[j + 1].key <= slots[i].key;
  }

  lemma InsertSlotKeepsChildren(slots: seq<Entry<PageId>>, j: nat, key: Key, c: PageId, x: PageId)
    requires j < |slots| && HasChild(slots, x)
    ensures HasChild(InsertSlot(slots, j, key, c), x)
  {
    InsertSlotAt(slots, j, key, c);
    var i :| 0 <= i < |slots| && slots[i].val == x;
    assert InsertSlot(slots, j, key, c)[if i <= j then i else i + 1].val == x;
  }

  lemma LinkChild(s: Store, g: Spans, root: PageId, w: Pending, q: PageId, j: nat, i: nat)
    requires LinkPre(s, g, root, w, q, j) && i <= |s[q].slots|
    ensures q != w.right && ChildOK(Link(s, g, w, q, j), g, Settled, q, i)
  {
    var slots := s[q].slots;
    assert InnerOK(s, g, w, q) && ChildOK(s, g, w, q, j);
    InsertSlotAt(slots, j, g[w.right].lo, w.right);
    if i != j && i != j + 1 {
      var k := if i < j then i else i - 1;
      assert ChildOK(s, g, w, q, k);
      RightHasNoParent(s, g, root, w, q, k);
      if slots[k].val == w.left { ChildAtOnce(s, g, root, w, q, j, k); }
    }
  }

  lemma LinkParent(s: Store, g: Spans, root: PageId, w: Pending, q: PageId, j: nat)
    requires LinkPre(s, g, root, w, q, j)
    ensures q != w.right && InnerOK(Link(s, g, w, q, j), g, Settled, q)
  {
    var slots := s[q].slots;
    var t := Link(s, g, w, q, j);
    var at := g[w.right].lo;
    assert InnerOK(s, g, w, q) && ChildOK(s, g, w, q, j) && SpanOK(g, root, w.left) && SpanOK(g, root, w.right);
    InsertSlotAt(slots, j, at, w.right);
    InsertSlotRouted(slots, j, at, w.right);
    forall i | 0 <= i <= |slots| ensures ChildOK(t, g, Settled, q, i) { LinkChild(s, g, root, w, q, j, i); }
  }

  lemma LinkOther(s: Store, g: Spans, root: PageId, w: Pending, q: PageId, j: nat, x: PageId)
    requires LinkPre(s, g, root, w, q, j) && x in s && s[x].Inner? && x != q
    ensures InnerOK(Link(s, g, w, q, j), g, Settled, x)
  {
    var t := Link(s, g, w, q, j);
    LinkParent(s, g, root, w, q, j);
    assert InnerOK(s, g, w, x) && ChildOK(s, g, w, q, j) && InnerOK(s, g, w, q);
    forall i | 0 <= i < |s[x].slots| ensures ChildOK(t, g, Settled, x, i) {
      assert ChildOK(s, g, w, x, i);
      var c := s[x].slots[i].val;
      if c == w.right { RightHasNoParent(s, g, root, w, x, i); }
    }
  }

  // No page has the pending right page among its children.
  lemma RightHasNoParent(s: Store, g: Spans, root: PageId, w: Pending, x: PageId, i: nat)
    requires Shape(s, g, root, w) && w != Settled && x in s && s[x].Inner? && i < |s[x].slots|
    ensures s[x].slots[i].val != w.right
  {
    if s[x].slots[i].val == w.right {
      assert InnerOK(s, g, w, x) && ChildOK(s, g, w, x, i) && SpanOK(g, root, w.right) && SpanOK(g, root, x);
      var key := g[w.right].lo;
      var q, j := ParentCovers(s, g, root, w, w.right, key);
      OneCover(s, g, root, w, x, q, key);
      OneSlot(s, g, root, w, x, i, j, key);
    }
  }

  /** Linking: the parent gets a slot for the pending page, and the tree is settled again. */
  lemma LinkKeeps(s: Store, g: Spans, root: PageId, w: Pending, q: PageId, j: nat)
    requires LinkPre(s, g, root, w, q, j)
    ensures Shape(Link(s, g, w, q, j), g, root, Settled) && SameEntries(s, Link(s, g, w, q, j))
  {
    var t := Link(s, g, w, q, j);
    LinkParent(s, g, root, w, q, j);
    assert InnerOK(s, g, w, q) && ChildOK(s, g, w, q, j) && SpanOK(g, root, q);
    forall x | x in t ensures SpanOK(g, root, x) { assert SpanOK(g, root, x); }
    forall x | x in t && t[x].Leaf? ensures LeafOK(t, g, x) { assert LeafOK(s, g, x); }
    forall x | x in t && t[x].Inner? ensures InnerOK(t, g, Settled, x) {
      if x != q { LinkOther(s, g, root, w, q, j, x); }
    }
    forall x | x in t && x != root ensures Linked(t, x) {
      if x == w.right {
        assert t[q].slots[j + 1].val == x;
      } else {
        assert Linked(s, x);
        if s[x].parent == q { InsertSlotKeepsChildren(s[q].slots, j, g[w.right].lo, w.right, x); }
      }
    }
    SameLeaves(s, t);
  }

  // ---------- The root splits ----------

  ghost function NewRoot(s: Store, g: Spans, w: Pending, r: PageId, junk: Key): Store
    requires w.left in s && w.right in s && w.right in g && BOTTOM <= g[w.right].lo < TOP
  {
    s[r := Inner(INVALID, [Entry(junk, w.left), Entry(g[w.right].lo, w.right)])]
     [w.left := s[w.left].(parent := r)][w.right := s[w.right].(parent := r)]
  }

  ghost function NewRootSpans(g: Spans, w: Pending, r: PageId): Spans
    requires w.left in g
  {
    g[r := Span(BOTTOM, TOP, g[w.left].level + 1)]
  }

  lemma NewRootInner(s: Store, g: Spans, root: PageId, w: Pending, r: PageId, junk: Key, x: PageId)
    requires Shape(s, g, root, w) && w.left == root && SpanOK(g, root, w.right) && r !in s && r != INVALID
    requires x == r || (x in s && s[x].Inner?)
    ensures InnerOK(NewRoot(s, g, w, r, junk), NewRootSpans(g, w, r), Settled, x)
  {
    var t := NewRoot(s, g, w, r, junk);
    var h := NewRootSpans(g, w, r);
    assert SpanOK(g, root, root);
    if x == r {
      forall i | 0 <= i < 2 ensures ChildOK(t, h, Settled, r, i) {}
    } else {
      assert InnerOK(s, g, w, x) && SpanOK(g, root, x);
      forall i | 0 <= i < |s[x].slots| ensures ChildOK(t, h, Settled, x, i) {
        assert ChildOK(s, g, w, x, i);
        RightHasNoParent(s, g, root, w, x, i);
      }
    }
  }

  /** A split root gets a new root above its two halves, one level higher. */
  lemma NewRootKeeps(s: Store, g: Spans, root: PageId, w: Pending, r: PageId, junk: Key)
    requires Shape(s, g, root, w) && w.left == root && SpanOK(g, root, w.right) && r !in s && r != INVALID
    ensures Shape(NewRoot(s, g, w, r, junk), NewRootSpans(g, w, r), r, Settled)
    ensures SameEntries(s, NewRoot(s, g, w, r, junk))
  {
    var t := NewRoot(s, g, w, r, junk);
    var h := NewRootSpans(g, w, r);
    assert SpanOK(g, root, root);
    forall x | x in t ensures SpanOK(h, r, x) {
      if x != r { assert SpanOK(g, root, x); }
    }
    forall x | x in t && t[x].Leaf? ensures LeafOK(t, h, x) { assert LeafOK(s, g, x); }
    forall x | x in t && t[x].Inner? ensures InnerOK(t, h, Settled, x) { NewRootInner(s, g, root, w, r, junk, x); }
    forall x | x in t && x != r ensures Linked(t, x) {
      if x == w.left { assert t[r].slots[0].val == x; }
      else if x == w.right { assert t[r].slots[1].val == x; }
      else { assert Linked(s, x); }
    }
    SameLeaves(s, t);
  }
}
