/** The B+ tree over pages: search, insertion with splits, removal with borrowing and merging. */
module BPlusTree {
  import opened Wrappers
  import opened Rids
  import opened BPlusNodes
  import opened BPlusShape
  import opened BPlusSplit
  import opened BPlusMerge
  import opened BPlusBorrow
  import opened BPlusSearch
  import opened BPlusSteps
  import opened BPlusFaults
  import opened BPlusPager
  import opened BufferPool

  class BPlusTree {
    const pager: Pager
    const lim: Limits
    var root: PageId
    // The span of every page, and the finite map the tree stands for.
    ghost var spans: Spans
    ghost var contents: Contents

    constructor (pager: Pager, lim: Limits)
      requires lim.leaf >= 2 && lim.inner >= 3 && pager.pool.frames.Length >= 4
      requires pager.pages == map[] && pager.Valid() && pager.Quiet()
      ensures this.pager == pager && Valid() && contents == map[]
    {
      this.pager, this.lim := pager, lim;
      root, spans, contents := INVALID, map[], map[];
    }

    ghost predicate Ready()
      reads this, pager, pager.pool, pager.pool.frames, pager.pool.replacer
    {
      lim.leaf >= 2 && lim.inner >= 3 && pager.pool.frames.Length >= 4 && pager.Valid() && pager.Quiet()
    }

    /** The tree in the middle of an operation: a pair may be pending, one page may have a wrong size. */
    ghost predicate Mid(w: Pending, but: PageId)
      reads this, pager, pager.pool, pager.pool.frames, pager.pool.replacer
    {
      Ready() && Sound(pager.pages, spans, root, contents, lim, w, but)
    }

    ghost predicate Valid()
      reads this, pager, pager.pool, pager.pool.frames, pager.pool.replacer
    {
      if root == INVALID then Ready() && pager.pages == map[] && contents == map[] else Mid(Settled, INVALID)
    }

    // ---------- Search ----------

    // The descent all operations start with; the leaf stays pinned.
    method FindLeaf(key: Key) returns (cur: PageId, node: Node)
      requires Mid(Settled, INVALID)
      modifies pager`pins, pager`unsaved, pager.pool, pager.pool.frames, pager.pool.replacer
      ensures pager.Valid() && pager.pins == {cur} && pager.unsaved == {}
      ensures Covers(spans, cur, key) && cur in pager.pages && node == pager.pages[cur] && node.Leaf?
    {
      cur := root;
      RootCovers(pager.pages, spans, root, key);
      node := pager.Fetch(cur);
      while node.Inner?
        invariant pager.Valid() && pager.pins == {cur} && pager.unsaved == {}
        invariant Covers(spans, cur, key) && cur in pager.pages && node == pager.pages[cur]
        decreases spans[cur].level
      {
        RouteCovers(pager.pages, spans, root, cur, key);
        var next := node.slots[Route(node.slots, key)].val;
        pager.Unpin(cur, false);
        cur := next;
        node := pager.Fetch(cur);
      }
    }

    lemma ValidIsCorrect()
      requires Valid()
      ensures Correct(pager.pages, root, contents)
    {
      if root == INVALID {
        assert FindsAll(pager.pages, root, contents, 0);
      } else {
        ShapeIsCorrect(pager.pages, spans, root, contents);
      }
    }

    method GetValue(key: Key) returns (r: Option<RID>)
      requires Valid()
      modifies pager`pins, pager`unsaved, pager.pool, pager.pool.frames, pager.pool.replacer
      ensures Valid() && r == Get(contents, key)
    {
      if root == INVALID { return None; }
      var cur, node := FindLeaf(key);
      r := LeafLookup(node.entries, key);
      LookupAtLeaf(pager.pages, spans, root, contents, cur, key);
      pager.Unpin(cur, false);
    }

    // ---------- Insert ----------

    // A new page, initialized and then filled; it stays pinned.
    method Make(blank: Node, node: Node) returns (pid: PageId)
      requires Ready()
      modifies pager, pager.pool, pager.pool.frames, pager.pool.replacer
      ensures pager.Valid() && pid !in old(pager.pages) && pid != INVALID
      ensures pager.pages == old(pager.pages)[pid := node] && pager.pins == {pid} && pager.unsaved == {pid}
    {
      pid := pager.New(blank);
      pager.Write(pid, node);
    }

    // The first page: a leaf of one entry.
    method FirstPage(node: Node) returns (pid: PageId)
      requires Ready() && pager.pages == map[]
      modifies pager, pager.pool, pager.pool.frames, pager.pool.replacer
      ensures Ready() && pid != INVALID && pager.pages == map[pid := node]
    {
      pid := Make(Leaf(INVALID, INVALID, []), node);
      pager.Unpin(pid, true);
    }

    method StartTree(key: Key, v: RID)
      requires Valid() && root == INVALID
      modifies this, pager, pager.pool, pager.pool.frames, pager.pool.replacer
      ensures Valid() && contents == map[key := v]
    {
      var pid := FirstPage(Leaf(INVALID, INVALID, LeafInsert([], key, v)));
      root := pid;
      spans, contents := map[pid := Span(BOTTOM, TOP, 0)], map[key := v];
      StartSound(pid, key, v, lim);
    }

    method Insert(key: Key, v: RID) returns (inserted: bool)
      requires Valid()
      modifies this, pager, pager.pool, pager.pool.frames, pager.pool.replacer
      ensures Valid()
      ensures inserted <==> key !in old(contents)
      ensures contents == if inserted then old(contents)[key := v] else old(contents)
    {
      if root == INVALID {
        StartTree(key, v);
        return true;
      }
      var cur, node := FindLeaf(key);
      var after := LeafInsert(node.entries, key, v);
      inserted := |after| != |node.entries|;
      var overflow := |after| > lim.leaf;
      DuplicateInsert(pager.pages, spans, root, contents, lim, cur, key, v);
      if !inserted {
        pager.Unpin(cur, overflow);
        return false;
      }
      InsertSound(pager.pages, spans, root, contents, lim, cur, key, v);
      pager.Write(cur, node.(entries := after));
      pager.Unpin(cur, true);
      contents := contents[key := v];
      if overflow {
        var up, right := SplitLeafPage(cur);
        Propagate(cur, up, right);
      }
    }

    // Step 3 of Insert: the overfull leaf moves its upper half to a new page.
    method MoveLeafHalf(cur: PageId) returns (up: Key, n: PageId)
      requires Ready() && cur in pager.pages && pager.pages[cur].Leaf? && pager.pages[cur].Size() >= 2
      modifies pager, pager.pool, pager.pool.frames, pager.pool.replacer
      ensures Ready() && n !in old(pager.pages) && n != INVALID
      ensures var s := old(pager.pages); var m := |s[cur].entries| / 2;
        pager.pages == SplitLeaf(s, cur, n, m, s[cur].parent) && up == s[cur].entries[m].key
    {
      n := pager.New(Leaf(INVALID, INVALID, []));
      var leaf := pager.Fetch(cur);
      var m := |leaf.entries| / 2;
      pager.Write(n, Leaf(leaf.parent, leaf.next, leaf.entries[m..]));
      pager.Write(cur, Leaf(leaf.parent, n, leaf.entries[..m]));
      up := leaf.entries[m].key;
      pager.Unpin(cur, true);
      pager.Unpin(n, true);
    }

    method SplitLeafPage(cur: PageId) returns (up: Key, n: PageId)
      requires Mid(Settled, cur)
      requires cur in pager.pages && pager.pages[cur].Leaf? && pager.pages[cur].Size() == lim.leaf + 1
      modifies this`spans, pager, pager.pool, pager.pool.frames, pager.pool.replacer
      ensures Mid(Pending(cur, n), INVALID)
      ensures n in spans && up == spans[n].lo && n != INVALID
    {
      ghost var s := pager.pages;
      up, n := MoveLeafHalf(cur);
      SplitLeafSound(s, spans, root, contents, lim, cur, n);
      spans := SplitSpans(spans, cur, n, up);
    }

    // Step 4 of Insert: parents take the new page, splitting in turn.
    method Propagate(left0: PageId, up0: Key, right0: PageId)
      requires Mid(Pending(left0, right0), INVALID)
      requires right0 != INVALID && right0 in spans && up0 == spans[right0].lo
      modifies this`root, this`spans, pager, pager.pool, pager.pool.frames, pager.pool.replacer
      ensures Valid()
    {
      var left, up, right := left0, up0, right0;
      while true
        invariant Mid(Pending(left, right), INVALID)
        invariant right != INVALID && right in spans && up == spans[right].lo
        decreases spans[root].level - spans[left].level
      {
        assert SpanOK(spans, root, left);
        var lnode := pager.Fetch(left);
        var parent := lnode.parent;
        pager.Unpin(left, false);
        if parent == INVALID {
          GrowRoot(left, up, right);
          return;
        }
        var overflow := InsertIntoParent(parent, left, up, right);
        if !overflow { return; }
        up, right := SplitInnerPage(parent);
        left := parent;
        assert SpanOK(spans, root, left);
      }
    }

    method SetParent(p: PageId, parent: PageId)
      requires pager.Valid() && p in pager.pages && p !in pager.pins + pager.unsaved && |pager.pins| < pager.pool.frames.Length
      modifies pager`pages, pager`pins, pager`unsaved, pager.pool, pager.pool.frames, pager.pool.replacer
      ensures pager.Valid() && pager.pins == old(pager.pins) && pager.unsaved == old(pager.unsaved)
      ensures pager.pages == old(pager.pages)[p := old(pager.pages)[p].(parent := parent)]
    {
      var node := pager.Fetch(p);
      pager.Write(p, node.(parent := parent));
      pager.Unpin(p, true);
    }

    method RaiseRoot(left: PageId, up: Key, right: PageId) returns (r: PageId)
      requires Ready() && left in pager.pages && right in pager.pages && left != right
      modifies pager, this`root, pager.pool, pager.pool.frames, pager.pool.replacer
      ensures Ready() && r !in old(pager.pages) && r != INVALID && root == r
      ensures var s := old(pager.pages);
        pager.pages == s[r := Inner(INVALID, [Entry(0, left), Entry(up, right)])]
                        [left := s[left].(parent := r)][right := s[right].(parent := r)]
    {
      r := Make(Inner(INVALID, []), Inner(INVALID, [Entry(0, left), Entry(up, right)]));
      root := r;
      SetParent(left, r);
      SetParent(right, r);
      pager.Unpin(r, true);
    }

    method GrowRoot(left: PageId, up: Key, right: PageId)
      requires Mid(Pending(left, right), INVALID)
      requires right != INVALID && right in spans && up == spans[right].lo && left in pager.pages
      requires pager.pages[left].parent == INVALID
      modifies this`root, this`spans, pager, pager.pool, pager.pool.frames, pager.pool.replacer
      ensures Valid()
    {
      ghost var s, w := pager.pages, Pending(left, right);
      ParentlessIsRoot(s, spans, root, w, left);
      assert SpanOK(spans, left, right);
      var r := RaiseRoot(left, up, right);
      NewRootSound(s, spans, left, contents, lim, w, r);
      spans := NewRootSpans(spans, w, r);
    }

    method AddChild(parent: PageId, left: PageId, up: Key, right: PageId) returns (overflow: bool)
      requires Ready() && parent in pager.pages && pager.pages[parent].Inner? && right in pager.pages && right != parent
      requires HasChild(pager.pages[parent].slots, left)
      modifies pager, pager.pool, pager.pool.frames, pager.pool.replacer
      ensures Ready()
      ensures var s := old(pager.pages); var slots := s[parent].slots; var j := ValueIndex(slots, left);
        && pager.pages == s[parent := Inner(s[parent].parent, InsertSlot(slots, j, up, right))]
                           [right := s[right].(parent := parent)]
        && (overflow <==> |slots| + 1 > lim.inner)
    {
      var pnode := pager.Fetch(parent);
      var idx := ValueIndex(pnode.slots, left);
      pager.Write(parent, Inner(pnode.parent, InsertSlot(pnode.slots, idx, up, right)));
      SetParent(right, parent);
      overflow := |pnode.slots| + 1 > lim.inner;
      pager.Unpin(parent, true);
    }

    method InsertIntoParent(parent: PageId, left: PageId, up: Key, right: PageId) returns (overflow: bool)
      requires Mid(Pending(left, right), INVALID)
      requires right != INVALID && right in spans && up == spans[right].lo && left in pager.pages
      requires parent == pager.pages[left].parent && parent != INVALID
      modifies pager, pager.pool, pager.pool.frames, pager.pool.replacer
      ensures Mid(Settled, parent)
      ensures parent in pager.pages && pager.pages[parent].Inner? && spans[parent].level == spans[left].level + 1
      ensures overflow <==> pager.pages[parent].Size() == lim.inner + 1
      ensures !overflow ==> Mid(Settled, INVALID)
    {
      ghost var s, w := pager.pages, Pending(left, right);
      assert left != root && SpanOK(spans, root, right);
      assert Linked(s, left);
      ghost var j := ValueIndex(s[parent].slots, left);
      LinkParent(s, spans, root, w, parent, j);
      overflow := AddChild(parent, left, up, right);
      LinkSound(s, spans, root, contents, lim, w, parent, j);
    }

    method SetChildrenParent(slots: seq<Entry<PageId>>, pid: PageId)
      requires pager.Valid() && |pager.pins| < pager.pool.frames.Length
      requires forall i :: 0 <= i < |slots| ==> slots[i].val in pager.pages && slots[i].val !in pager.unsaved + pager.pins
      modifies pager`pages, pager`pins, pager`unsaved, pager.pool, pager.pool.frames, pager.pool.replacer
      ensures pager.Valid() && pager.pages == Reparent(old(pager.pages), slots, pid)
      ensures pager.pins == old(pager.pins) && pager.unsaved == old(pager.unsaved)
    {
      assert pager.pages == Reparent(pager.pages, slots[..0], pid);
      for i := 0 to |slots|
        invariant pager.Valid() && pager.pages == Reparent(old(pager.pages), slots[..i], pid)
        invariant pager.pins == old(pager.pins) && pager.unsaved == old(pager.unsaved)
      {
        var child := slots[i].val;
        ghost var before := pager.pages;
        SetParent(child, pid);
        ReparentOneMore(old(pager.pages), slots, i, pid);
        assert pager.pages == before[child := before[child].(parent := pid)];
      }
      assert slots[..|slots|] == slots;
    }

    // The upper half of the slots goes to a new page; both pages stay pinned.
    method HalveInner(p: PageId) returns (up: Key, n: PageId, upper: seq<Entry<PageId>>)
      requires Ready() && p in pager.pages && pager.pages[p].Inner? && pager.pages[p].Size() >= 2
      modifies pager, pager.pool, pager.pool.frames, pager.pool.replacer
      ensures pager.Valid() && n !in old(pager.pages) && n != INVALID
      ensures pager.pins == {p, n} && pager.unsaved == {p, n}
      ensures var s := old(pager.pages); var node := s[p]; var m := |node.slots| / 2;
        && up == node.slots[m].key && upper == UpperHalf(node.slots, m, up)
        && pager.pages == s[n := Inner(node.parent, upper)][p := Inner(node.parent, node.slots[..m])]
    {
      var node := pager.Fetch(p);
      var m := |node.slots| / 2;
      up := node.slots[m].key;
      n := pager.New(Inner(INVALID, []));
      upper := UpperHalf(node.slots, m, up);
      pager.Write(n, Inner(node.parent, upper));
      pager.Write(p, Inner(node.parent, node.slots[..m]));
    }

    method MoveInnerHalf(p: PageId) returns (up: Key, n: PageId)
      requires Ready() && p in pager.pages && pager.pages[p].Inner? && pager.pages[p].Size() >= 2
      requires forall c :: HasChild(pager.pages[p].slots, c) ==> c in pager.pages && c != p
      modifies pager, pager.pool, pager.pool.frames, pager.pool.replacer
      ensures Ready() && n !in old(pager.pages) && n != INVALID
      ensures var s := old(pager.pages); var m := |s[p].slots| / 2;
        && up == s[p].slots[m].key
        && pager.pages == SplitInner(s, p, n, m, UpperHalf(s[p].slots, m, up), s[p].parent)
    {
      ghost var s, node := pager.pages, pager.pages[p];
      ghost var m := |node.slots| / 2;
      var upper: seq<Entry<PageId>>;
      up, n, upper := HalveInner(p);
      forall i | 0 <= i < |upper| ensures upper[i].val in s && upper[i].val != p {
        assert HasChild(node.slots, node.slots[m + i].val);
      }
      SplitInnerLate(s, p, n, m, upper, node.parent);
      SetChildrenParent(upper, n);
      pager.Unpin(p, true);
      pager.Unpin(n, true);
    }

    method SplitInnerPage(p: PageId) returns (up: Key, n: PageId)
      requires Mid(Settled, p)
      requires p in pager.pages && pager.pages[p].Inner? && pager.pages[p].Size() == lim.inner + 1
      modifies this`spans, pager, pager.pool, pager.pool.frames, pager.pool.replacer
      ensures Mid(Pending(p, n), INVALID)
      ensures n in spans && up == spans[n].lo && n != INVALID
      ensures p in spans && p in old(spans) && spans[p].level == old(spans)[p].level
      ensures root in spans && root in old(spans) && spans[root].level == old(spans)[root].level
    {
      ghost var s := pager.pages;
      forall c | HasChild(s[p].slots, c) ensures c in s && c != p { ChildBelow(s, spans, root, Settled, p, c); }
      up, n := MoveInnerHalf(p);
      SplitInnerSound(s, spans, root, contents, lim, p, n);
      spans := SplitSpans(spans, p, n, up);
    }

    // ---------- Remove ----------

    // The pages of a repair: the parent, two neighbouring children, and nothing else pinned.
    ghost predicate PinnedPair(q: PageId, j: nat, left: PageId, right: PageId)
      reads pager, pager.pool, pager.pool.frames, pager.pool.replacer
    {
      && pager.pool.frames.Length >= 4 && pager.Valid() && pager.pins == {q, left, right} && pager.unsaved == {}
      && q in pager.pages && left in pager.pages && right in pager.pages
      && q != left && q != right && left != right
      && pager.pages[q].Inner? && 1 <= j < |pager.pages[q].slots|
      && Siblings(pager.pages, q, j) == Pending(left, right)
    }

    method LeafFromLeft(q: PageId, j: nat, left: PageId, right: PageId)
      requires PinnedPair(q, j, left, right) && pager.pages[left].Leaf? && pager.pages[right].Leaf?
      requires pager.pages[left].entries != []
      modifies pager`pages, pager`pins, pager`unsaved, pager.pool, pager.pool.frames, pager.pool.replacer
      ensures pager.Valid() && pager.Quiet()
      ensures var s := old(pager.pages); var l, r := s[left].entries, s[right].entries;
        pager.pages == ShareLeaves(s, q, j, l[..|l| - 1], [l[|l| - 1]] + r)
    {
      var l, r, p := pager.At(left), pager.At(right), pager.At(q);
      var n := |l.entries| - 1;
      var grown := [l.entries[n]] + r.entries;
      pager.Write(left, l.(entries := l.entries[..n]));
      pager.Write(right, r.(entries := grown));
      pager.Write(q, Inner(p.parent, SetSlotKey(p.slots, j, grown[0].key)));
      pager.Unpin(left, true);
      pager.Unpin(right, true);
      pager.Unpin(q, true);
    }

    method LeafFromRight(q: PageId, j: nat, left: PageId, right: PageId)
      requires PinnedPair(q, j, left, right) && pager.pages[left].Leaf? && pager.pages[right].Leaf?
      requires |pager.pages[right].entries| >= 2
      modifies pager`pages, pager`pins, pager`unsaved, pager.pool, pager.pool.frames, pager.pool.replacer
      ensures pager.Valid() && pager.Quiet()
      ensures var s := old(pager.pages); var l, r := s[left].entries, s[right].entries;
        pager.pages == ShareLeaves(s, q, j, l + [r[0]], r[1..])
    {
      var l, r, p := pager.At(left), pager.At(right), pager.At(q);
      pager.Write(left, l.(entries := l.entries + [r.entries[0]]));
      pager.Write(right, r.(entries := r.entries[1..]));
      pager.Write(q, Inner(p.parent, SetSlotKey(p.slots, j, r.entries[1].key)));
      pager.Unpin(right, true);
      pager.Unpin(left, true);
      pager.Unpin(q, true);
    }

    method MergeLeafPair(q: PageId, j: nat, left: PageId, right: PageId)
      requires PinnedPair(q, j, left, right) && pager.pages[left].Leaf? && pager.pages[right].Leaf?
      modifies pager`pages, pager`pins, pager`unsaved, pager.pool, pager.pool.frames, pager.pool.replacer
      ensures pager.Valid() && pager.pins == {q} && pager.unsaved == {q}
      ensures pager.pages == JoinLeaves(Unlink(old(pager.pages), q, j), Pending(left, right))
    {
      var l, r, p := pager.At(left), pager.At(right), pager.At(q);
      pager.Write(left, Leaf(l.parent, r.next, l.entries + r.entries));
      pager.Write(right, Leaf(r.parent, INVALID, []));
      pager.Unpin(left, true);
      pager.Unpin(right, true);
      pager.Delete(right);
      pager.Write(q, Inner(p.parent, RemoveSlot(p.slots, j)));
    }

    // The same with the whole tree sound but for one of the pair.
    ghost predicate Sharing(q: PageId, j: nat, left: PageId, right: PageId, but: PageId)
      reads this, pager, pager.pool, pager.pool.frames, pager.pool.replacer
    {
      && PinnedPair(q, j, left, right) && (but == left || but == right)
      && Sound(pager.pages, spans, root, contents, lim, Settled, but)
    }

    method BorrowLeafLeft(q: PageId, j: nat, left: PageId, right: PageId)
      requires Sharing(q, j, left, right, right) && pager.pages[left].Leaf? && pager.pages[right].Leaf?
      requires lim.leaf / 2 < pager.pages[left].Size() <= lim.leaf
      requires pager.pages[right].Size() + 1 == lim.leaf / 2
      modifies this`spans, pager`pages, pager`pins, pager`unsaved, pager.pool, pager.pool.frames, pager.pool.replacer
      ensures Mid(Settled, INVALID)
    {
      ghost var s := pager.pages;
      ghost var l, r := s[left].entries, s[right].entries;
      ghost var a, b := l[..|l| - 1], [l[|l| - 1]] + r;
      LeafFromLeft(q, j, left, right);
      assert a + b == l + r;
      ShareLeavesSound(s, spans, root, contents, lim, right, q, j, a, b);
      spans := MoveBoundary(spans, Pending(left, right), b[0].key);
    }

    method BorrowLeafRight(q: PageId, j: nat, left: PageId, right: PageId)
      requires Sharing(q, j, left, right, left) && pager.pages[left].Leaf? && pager.pages[right].Leaf?
      requires lim.leaf / 2 < pager.pages[right].Size() <= lim.leaf
      requires pager.pages[left].Size() + 1 == lim.leaf / 2
      modifies this`spans, pager`pages, pager`pins, pager`unsaved, pager.pool, pager.pool.frames, pager.pool.replacer
      ensures Mid(Settled, INVALID)
    {
      ghost var s := pager.pages;
      ghost var l, r := s[left].entries, s[right].entries;
      ghost var a, b := l + [r[0]], r[1..];
      LeafFromRight(q, j, left, right);
      assert a + b == l + r;
      ShareLeavesSound(s, spans, root, contents, lim, left, q, j, a, b);
      spans := MoveBoundary(spans, Pending(left, right), b[0].key);
    }

    // After a merge the parent has one row less and everything above it is as before.
    ghost predicate Merged(s: Store, g: Spans, q: PageId)
      reads this, pager, pager.pool, pager.pool.frames, pager.pool.replacer
    {
      && pager.pool.frames.Length >= 4 && pager.Valid() && pager.pins == {q} && pager.unsaved == {q}
      && Sound(pager.pages, spans, root, contents, lim, Settled, q)
      && AgreeAbove(s, g, pager.pages, spans, q)
      && q in s && s[q].Inner? && SizeOK(s, root, lim, q)
      && q in pager.pages && pager.pages[q].Inner? && pager.pages[q].parent == s[q].parent
      && pager.pages[q].Size() + 1 == s[q].Size()
    }

    method MergeLeaves(q: PageId, j: nat, left: PageId, right: PageId, ghost but: PageId)
      requires Sharing(q, j, left, right, but) && pager.pages[left].Leaf? && pager.pages[right].Leaf?
      requires lim.leaf / 2 <= pager.pages[left].Size() + pager.pages[right].Size() <= lim.leaf
      modifies this`spans, pager`pages, pager`pins, pager`unsaved, pager.pool, pager.pool.frames, pager.pool.replacer
      ensures Merged(old(pager.pages), old(spans), q)
    {
      ghost var s := pager.pages;
      MergeLeafPair(q, j, left, right);
      MergeLeavesSound(s, spans, root, contents, lim, but, q, j);
      spans := JoinSpans(spans, Pending(left, right));
    }

    // An underfull page, pinned together with its parent, and the rest of the tree sound.
    ghost predicate Underfull(q: PageId, idx: nat, under: PageId, pins: set<PageId>)
      reads this, pager, pager.pool, pager.pool.frames, pager.pool.replacer
    {
      && pager.pool.frames.Length >= 4 && pager.Valid() && pager.pins == pins && pager.unsaved == {}
      && Sound(pager.pages, spans, root, contents, lim, Settled, under)
      && under in pager.pages && under != root && pager.pages[under].parent == q
      && q in pager.pages && pager.pages[q].Inner? && HasChild(pager.pages[q].slots, under)
      && idx == ValueIndex(pager.pages[q].slots, under)
    }

    ghost function Fix(under: PageId): Repair
      requires under in pager.pages && pager.pages[under].parent in pager.pages
      requires pager.pages[pager.pages[under].parent].Inner?
      requires HasChild(pager.pages[pager.pages[under].parent].slots, under)
      reads this, pager, pager.pool, pager.pool.frames, pager.pool.replacer
    {
      HowToFix(pager.pages, lim, under, pager.pages[under].Size())
    }

    method RebalanceLeaf(q: PageId, idx: nat, under: PageId) returns (merged: bool)
      requires Underfull(q, idx, under, {q}) && pager.pages[under].Leaf?
      requires lim.leaf / 2 <= pager.pages[under].Size() + 1 && pager.pages[under].Size() <= lim.leaf
      modifies this`spans, pager`pages, pager`pins, pager`unsaved, pager.pool, pager.pool.frames, pager.pool.replacer
      ensures merged <==> old(Fix(under)) == Merge
      ensures if merged then Merged(old(pager.pages), old(spans), q) else Mid(Settled, INVALID)
    {
      AroundPage(pager.pages, spans, root, contents, lim, under);
      var slots := pager.At(q).slots;
      var left := if idx > 0 then slots[idx - 1].val else INVALID;
      var u := pager.Fetch(under);
      if |u.entries| >= lim.leaf / 2 {
        pager.Unpin(under, false);
        pager.Unpin(q, false);
        SizeRestored(pager.pages, spans, root, contents, lim, under);
        return false;
      }
      if left != INVALID {
        var l := pager.Fetch(left);
        if |l.entries| > lim.leaf / 2 {
          BorrowLeafLeft(q, idx, left, under);
          return false;
        }
        pager.Unpin(left, false);
      }
      merged := RebalanceLeafRight(q, idx, under);
    }

    // The left sibling had nothing to spare.
    method RebalanceLeafRight(q: PageId, idx: nat, under: PageId) returns (merged: bool)
      requires Underfull(q, idx, under, {q, under}) && pager.pages[under].Leaf? && Fix(under) in {FromRight, Merge}
      requires pager.pages[under].Size() + 1 == lim.leaf / 2
      modifies this`spans, pager`pages, pager`pins, pager`unsaved, pager.pool, pager.pool.frames, pager.pool.replacer
      ensures merged <==> old(Fix(under)) == Merge
      ensures if merged then Merged(old(pager.pages), old(spans), q) else Mid(Settled, INVALID)
    {
      AroundPage(pager.pages, spans, root, contents, lim, under);
      var slots := pager.At(q).slots;
      var right := if idx + 1 < |slots| then slots[idx + 1].val else INVALID;
      if right != INVALID {
        var r := pager.Fetch(right);
        if |r.entries| > lim.leaf / 2 {
          BorrowLeafRight(q, idx + 1, under, right);
          return false;
        }
        pager.Unpin(right, false);
      }
      MergeLeafAt(q, idx, under);
      return true;
    }

    method MergeLeafAt(q: PageId, idx: nat, under: PageId)
      requires Underfull(q, idx, under, {q, under}) && pager.pages[under].Leaf? && Fix(under) == Merge
      requires pager.pages[under].Size() + 1 == lim.leaf / 2
      modifies this`spans, pager`pages, pager`pins, pager`unsaved, pager.pool, pager.pool.frames, pager.pool.replacer
      ensures Merged(old(pager.pages), old(spans), q)
    {
      AroundPage(pager.pages, spans, root, contents, lim, under);
      var slots := pager.At(q).slots;
      if idx == 0 {
        var right := slots[1].val;
        var r := pager.Fetch(right);
        MergeLeaves(q, 1, under, right, under);
      } else {
        var left := slots[idx - 1].val;
        var l := pager.Fetch(left);
        MergeLeaves(q, idx, left, under, under);
      }
    }

    // ---------- Internal pages that underflow ----------

    // The pair's children are pages of their own.
    ghost predicate OwnChildren(q: PageId, left: PageId, right: PageId)
      requires left in pager.pages && right in pager.pages && pager.pages[left].Inner? && pager.pages[right].Inner?
      reads pager, pager.pool, pager.pool.frames, pager.pool.replacer
    {
      forall c {:trigger HasChild(pager.pages[left].slots, c)} {:trigger HasChild(pager.pages[right].slots, c)} ::
        HasChild(pager.pages[left].slots, c) || HasChild(pager.pages[right].slots, c) ==>
          c in pager.pages && c != q && c != left && c != right
    }

    // Writes both pages of the pair, then points the children of one of them at it.
    method WritePair(q: PageId, left: PageId, ls: seq<Entry<PageId>>, right: PageId, rs: seq<Entry<PageId>>,
                     kids: seq<Entry<PageId>>, parent: PageId)
      requires pager.pool.frames.Length >= 4 && pager.Valid() && pager.pins == {q, left, right} && pager.unsaved == {}
      requires left in pager.pages && right in pager.pages && left != right && left != q && right != q
      requires pager.pages[left].Inner? && pager.pages[right].Inner?
      requires forall i :: 0 <= i < |kids| ==>
        kids[i].val in pager.pages && kids[i].val != q && kids[i].val != left && kids[i].val != right
      modifies pager`pages, pager`pins, pager`unsaved, pager.pool, pager.pool.frames, pager.pool.replacer
      ensures pager.Valid() && pager.pins == {q, left, right} && pager.unsaved == {left, right}
      ensures var s := old(pager.pages);
        pager.pages == Reparent(s[left := Inner(s[left].parent, ls)][right := Inner(s[right].parent, rs)], kids, parent)
    {
      var l, r := pager.At(left), pager.At(right);
      pager.Write(left, Inner(l.parent, ls));
      pager.Write(right, Inner(r.parent, rs));
      SetChildrenParent(kids, parent);
    }

    // Ends a redistribution: the parent gets its new separator and everything is unpinned as dirty.
    method Finish(q: PageId, j: nat, key: Key, left: PageId, right: PageId)
      requires pager.Valid() && pager.pins == {q, left, right} && pager.unsaved == {left, right}
      requires q in pager.pages && pager.pages[q].Inner? && j < |pager.pages[q].slots|
      requires q != left && q != right && left != right
      modifies pager`pages, pager`pins, pager`unsaved, pager.pool, pager.pool.frames, pager.pool.replacer
      ensures pager.Valid() && pager.Quiet()
      ensures var s := old(pager.pages); pager.pages == s[q := Inner(s[q].parent, SetSlotKey(s[q].slots, j, key))]
    {
      var p := pager.At(q);
      pager.Write(q, Inner(p.parent, SetSlotKey(p.slots, j, key)));
      pager.Unpin(left, true);
      pager.Unpin(right, true);
      pager.Unpin(q, true);
    }

    method InnerFromLeft(q: PageId, j: nat, left: PageId, right: PageId)
      requires PinnedPair(q, j, left, right) && pager.pages[left].Inner? && pager.pages[right].Inner?
      requires |pager.pages[left].slots| >= 2 && pager.pages[right].slots != [] && OwnChildren(q, left, right)
      modifies pager`pages, pager`pins, pager`unsaved, pager.pool, pager.pool.frames, pager.pool.replacer
      ensures pager.Valid() && pager.Quiet()
      ensures var s := old(pager.pages); var l, r := s[left].slots, s[right].slots; var n := |l| - 1;
        var b := WithNewFirst(r, l[n].val, s[q].slots[j].key);
        pager.pages == Reparent(s[left := Inner(s[left].parent, l[..n])][right := Inner(s[right].parent, b)], b, right)
                         [q := Inner(s[q].parent, SetSlotKey(s[q].slots, j, l[n].key))]
    {
      var l, r, p := pager.At(left).slots, pager.At(right).slots, pager.At(q).slots;
      var n := |l| - 1;
      var newKey, sep := l[n].key, p[j].key;
      var b := WithNewFirst(r, l[n].val, sep);
      forall i | 0 <= i < |b| ensures HasChild(l, b[i].val) || HasChild(r, b[i].val) {
        assert i == 0 || b[i].val == r[i - 1].val;
      }
      WritePair(q, left, l[..n], right, b, b, right);
      assert pager.pages[q] == old(pager.pages)[q] by { NotAmong(b, l, r, q); }
      Finish(q, j, newKey, left, right);
    }

    // The source reads the new separator after the move; `early` reads it before.
    method InnerFromRight(q: PageId, j: nat, left: PageId, right: PageId, early: bool)
      requires PinnedPair(q, j, left, right) && pager.pages[left].Inner? && pager.pages[right].Inner?
      requires pager.pages[left].slots != [] && |pager.pages[right].slots| >= 3 && OwnChildren(q, left, right)
      modifies pager`pages, pager`pins, pager`unsaved, pager.pool, pager.pool.frames, pager.pool.replacer
      ensures pager.Valid() && pager.Quiet()
      ensures var s := old(pager.pages); var l, r := s[left].slots, s[right].slots;
        var a := l + [Entry(s[q].slots[j].key, r[0].val)];
        pager.pages == Reparent(s[left := Inner(s[left].parent, a)][right := Inner(s[right].parent, WithoutFirst(r))], a, left)
                         [q := Inner(s[q].parent, SetSlotKey(s[q].slots, j, if early then r[1].key else r[2].key))]
    {
      var l, r, p := pager.At(left).slots, pager.At(right).slots, pager.At(q).slots;
      var sep := p[j].key;
      var a, rest := l + [Entry(sep, r[0].val)], WithoutFirst(r);
      var newKey := if early then r[1].key else rest[1].key;
      forall i | 0 <= i < |a| ensures HasChild(l, a[i].val) || HasChild(r, a[i].val) {
        assert i == |l| || a[i].val == l[i].val;
      }
      WritePair(q, left, a, right, rest, a, left);
      assert pager.pages[q] == old(pager.pages)[q] by { NotAmong(a, l, r, q); }
      Finish(q, j, newKey, left, right);
    }

    method MergeInnerPair(q: PageId, j: nat, left: PageId, right: PageId)
      requires PinnedPair(q, j, left, right) && pager.pages[left].Inner? && pager.pages[right].Inner?
      requires pager.pages[right].slots != [] && OwnChildren(q, left, right)
      modifies pager`pages, pager`pins, pager`unsaved, pager.pool, pager.pool.frames, pager.pool.replacer
      ensures pager.Valid() && pager.pins == {q} && pager.unsaved == {q}
      ensures var s := old(pager.pages); var l, r := s[left].slots, s[right].slots;
        var c := Joined(l, s[q].slots[j].key, r);
        pager.pages == (Reparent(s[left := Inner(s[left].parent, c)][right := Inner(s[right].parent, [])], c, left)
                         - {right})[q := Inner(s[q].parent, RemoveSlot(s[q].slots, j))]
    {
      var l, r, p := pager.At(left).slots, pager.At(right).slots, pager.At(q);
      var middle := p.slots[j].key;
      var c := Joined(l, middle, r);
      forall i | 0 <= i < |c| ensures HasChild(l, c[i].val) || HasChild(r, c[i].val) {
        assert if i < |l| then c[i].val == l[i].val else c[i].val == r[i - |l|].val;
      }
      WritePair(q, left, c, right, [], c, left);
      pager.Unpin(left, true);
      pager.Unpin(right, true);
      pager.Delete(right);
      pager.Write(q, Inner(p.parent, RemoveSlot(p.slots, j)));
    }

    static lemma NotAmong(c: seq<Entry<PageId>>, l: seq<Entry<PageId>>, r: seq<Entry<PageId>>, x: PageId)
      requires forall i :: 0 <= i < |c| ==> HasChild(l, c[i].val) || HasChild(r, c[i].val)
      requires !HasChild(l, x) && !HasChild(r, x)
      ensures !HasChild(c, x)
    {
    }

    method BorrowInnerLeft(q: PageId, j: nat, left: PageId, right: PageId)
      requires Sharing(q, j, left, right, right) && pager.pages[left].Inner? && pager.pages[right].Inner?
      requires (lim.inner + 1) / 2 < pager.pages[left].Size() <= lim.inner
      requires pager.pages[right].Size() + 1 == (lim.inner + 1) / 2
      modifies this`spans, pager`pages, pager`pins, pager`unsaved, pager.pool, pager.pool.frames, pager.pool.replacer
      ensures Mid(Settled, INVALID)
    {
      ghost var s := pager.pages;
      PairChildren(s, spans, root, q, j);
      LeftGivesSound(s, spans, root, contents, lim, q, j);
      ghost var l := s[left].slots;
      InnerFromLeft(q, j, left, right);
      spans := MoveBoundary(spans, Pending(left, right), l[|l| - 1].key);
    }

    // Sound if the separator is read early; otherwise some stored keys are out of reach.
    method BorrowInnerRight(q: PageId, j: nat, left: PageId, right: PageId, early: bool)
      requires Sharing(q, j, left, right, left) && pager.pages[left].Inner? && pager.pages[right].Inner?
      requires (lim.inner + 1) / 2 < pager.pages[right].Size() <= lim.inner
      requires pager.pages[left].Size() + 1 == (lim.inner + 1) / 2
      modifies this`spans, pager`pages, pager`pins, pager`unsaved, pager.pool, pager.pool.frames, pager.pool.replacer
      ensures Ready()
      ensures if early then Mid(Settled, INVALID) else !Correct(pager.pages, root, contents)
    {
      ghost var s, g := pager.pages, spans;
      PairChildren(s, g, root, q, j);
      RightGivesSound(s, g, root, contents, lim, q, j);
      ghost var l, r := s[left].slots, s[right].slots;
      InnerFromRight(q, j, left, right, early);
      spans := MoveBoundary(g, Pending(left, right), r[1].key);
      if !early {
        LateSeparatorRaises(s, g, root, contents, lim, q, j);
        ghost var a, b := l + [Entry(s[q].slots[j].key, r[0].val)], WithoutFirst(r);
        RaisedIsWrong(ShareInners(s, q, j, a, b, r[1].key), pager.pages, spans, root, contents, lim, q, j);
      }
    }

    method MergeInners(q: PageId, j: nat, left: PageId, right: PageId, ghost but: PageId)
      requires Sharing(q, j, left, right, but) && pager.pages[left].Inner? && pager.pages[right].Inner?
      requires pager.pages[right].slots != []
      requires (lim.inner + 1) / 2 <= pager.pages[left].Size() + pager.pages[right].Size() <= lim.inner
      modifies this`spans, pager`pages, pager`pins, pager`unsaved, pager.pool, pager.pool.frames, pager.pool.replacer
      ensures Merged(old(pager.pages), old(spans), q)
    {
      ghost var s := pager.pages;
      PairChildren(s, spans, root, q, j);
      JoinAllChildren(s, spans, root, q, j);
      MergeInnersSound(s, spans, root, contents, lim, but, q, j);
      MergeInnerPair(q, j, left, right);
      spans := JoinSpans(spans, Pending(left, right));
    }

    method RebalanceInner(q: PageId, idx: nat, under: PageId, early: bool) returns (merged: bool)
      requires Underfull(q, idx, under, {q}) && pager.pages[under].Inner?
      requires (lim.inner + 1) / 2 <= pager.pages[under].Size() + 1 && pager.pages[under].Size() <= lim.inner
      modifies this`spans, pager`pages, pager`pins, pager`unsaved, pager.pool, pager.pool.frames, pager.pool.replacer
      ensures merged <==> old(Fix(under)) == Merge
      ensures merged ==> Merged(old(pager.pages), old(spans), q)
      ensures !merged && (early || old(Fix(under)) != FromRight) ==> Mid(Settled, INVALID)
      ensures !early && old(Fix(under)) == FromRight ==> Ready() && !Correct(pager.pages, root, contents)
    {
      ParentAt(pager.pages, spans, root, under);
      var u := pager.Fetch(under);
      if |u.slots| >= (lim.inner + 1) / 2 {
        pager.Unpin(under, false);
        pager.Unpin(q, false);
        SizeRestored(pager.pages, spans, root, contents, lim, under);
        return false;
      }
      var done := TryInnerLeft(q, idx, under);
      if done { return false; }
      merged := RebalanceInnerRight(q, idx, under, early);
    }

    method TryInnerLeft(q: PageId, idx: nat, under: PageId) returns (done: bool)
      requires Underfull(q, idx, under, {q, under}) && pager.pages[under].Inner? && Fix(under) != Fine
      requires pager.pages[under].Size() + 1 == (lim.inner + 1) / 2
      modifies this`spans, pager`pages, pager`pins, pager`unsaved, pager.pool, pager.pool.frames, pager.pool.replacer
      ensures done <==> old(Fix(under)) == FromLeft
      ensures if done then Mid(Settled, INVALID)
        else Underfull(q, idx, under, {q, under}) && pager.pages == old(pager.pages) && spans == old(spans)
    {
      AroundPage(pager.pages, spans, root, contents, lim, under);
      var slots := pager.At(q).slots;
      var left := if idx > 0 then slots[idx - 1].val else INVALID;
      if left != INVALID {
        var l := pager.Fetch(left);
        if |l.slots| > (lim.inner + 1) / 2 {
          BorrowInnerLeft(q, idx, left, under);
          return true;
        }
        pager.Unpin(left, false);
      }
      return false;
    }

    // The left sibling had nothing to spare.
    method RebalanceInnerRight(q: PageId, idx: nat, under: PageId, early: bool) returns (merged: bool)
      requires Underfull(q, idx, under, {q, under}) && pager.pages[under].Inner? && Fix(under) in {FromRight, Merge}
      requires pager.pages[under].Size() + 1 == (lim.inner + 1) / 2
      modifies this`spans, pager`pages, pager`pins, pager`unsaved, pager.pool, pager.pool.frames, pager.pool.replacer
      ensures merged <==> old(Fix(under)) == Merge
      ensures merged ==> Merged(old(pager.pages), old(spans), q)
      ensures !merged ==> Ready() && if early then Mid(Settled, INVALID) else !Correct(pager.pages, root, contents)
    {
      AroundPage(pager.pages, spans, root, contents, lim, under);
      var slots := pager.At(q).slots;
      var right := if idx + 1 < |slots| then slots[idx + 1].val else INVALID;
      if right != INVALID {
        var r := pager.Fetch(right);
        if |r.slots| > (lim.inner + 1) / 2 {
          BorrowInnerRight(q, idx + 1, under, right, early);
          return false;
        }
        pager.Unpin(right, false);
      }
      MergeInnerAt(q, idx, under);
      return true;
    }

    method MergeInnerAt(q: PageId, idx: nat, under: PageId)
      requires Underfull(q, idx, under, {q, under}) && pager.pages[under].Inner? && Fix(under) == Merge
      requires pager.pages[under].Size() + 1 == (lim.inner + 1) / 2
      modifies this`spans, pager`pages, pager`pins, pager`unsaved, pager.pool, pager.pool.frames, pager.pool.replacer
      ensures Merged(old(pager.pages), old(spans), q)
    {
      AroundPage(pager.pages, spans, root, contents, lim, under);
      var slots := pager.At(q).slots;
      if idx == 0 {
        var right := slots[1].val;
        var r := pager.Fetch(right);
        MergeInners(q, 1, under, right, under);
      } else {
        var left := slots[idx - 1].val;
        var l := pager.Fetch(left);
        MergeInners(q, idx, left, under, under);
      }
    }

    // ---------- The loop up the tree ----------

    // Row counts of a page that may have just lost one.
    ghost predicate OneShort(p: PageId)
      requires p in pager.pages
      reads this, pager, pager.pool, pager.pool.frames, pager.pool.replacer
    {
      var n := pager.pages[p];
      n.MinSize(lim.leaf, lim.inner) <= n.Size() + 1 && n.Size() <= n.MaxSize(lim.leaf, lim.inner)
    }

    /** What follows a merge: a root with one child is dropped, another parent may be underfull in turn. */
    method AfterMerge(q: PageId) returns (again: bool)
      requires lim.leaf >= 2 && lim.inner >= 3 && pager.pool.frames.Length >= 4 && pager.Valid()
      requires pager.pins == {q} && pager.unsaved == {q}
      requires Sound(pager.pages, spans, root, contents, lim, Settled, q)
      requires q in pager.pages && pager.pages[q].Inner? && pager.pages[q].Size() >= 1
      requires if q == root then pager.pages[q].Size() <= lim.inner else OneShort(q)
      modifies this`root, this`spans, pager`pages, pager`pins, pager`unsaved, pager.pool, pager.pool.frames, pager.pool.replacer
      ensures again <==> q != old(root) && old(pager.pages[q]).Size() < (lim.inner + 1) / 2
      ensures if again then Mid(Settled, q) && pager.pages == old(pager.pages) && spans == old(spans) && root == old(root)
        else root != INVALID && Mid(Settled, INVALID)
    {
      ghost var s := pager.pages;
      var p := pager.At(q);
      ParentlessIsRoot(s, spans, root, Settled, q);
      if p.parent == INVALID {
        if |p.slots| == 1 {
          DropRoot(q);
          return false;
        }
        pager.Unpin(q, true);
        SizeRestored(s, spans, root, contents, lim, q);
        return false;
      }
      again := |p.slots| < (lim.inner + 1) / 2;
      pager.Unpin(q, true);
      if !again { SizeRestored(s, spans, root, contents, lim, q); }
    }

    method DropRoot(q: PageId)
      requires lim.leaf >= 2 && lim.inner >= 3 && pager.pool.frames.Length >= 4 && pager.Valid()
      requires pager.pins == {q} && pager.unsaved == {q}
      requires q == root && Sound(pager.pages, spans, root, contents, lim, Settled, q)
      requires q in pager.pages && pager.pages[q].Inner? && pager.pages[q].Size() == 1
      modifies this`root, this`spans, pager`pages, pager`pins, pager`unsaved, pager.pool, pager.pool.frames, pager.pool.replacer
      ensures root != INVALID && Mid(Settled, INVALID)
    {
      ShrinkRootSound(pager.pages, spans, root, contents, lim);
      PromoteChild(q);
      spans := spans - {q};
    }

    // The old root's only child takes its place, and its page is deleted.
    method PromoteChild(q: PageId)
      requires pager.pool.frames.Length >= 4 && pager.Valid() && pager.pins == {q} && pager.unsaved == {q}
      requires q in pager.pages && pager.pages[q].Inner? && pager.pages[q].Size() == 1
      requires pager.pages[q].slots[0].val in pager.pages && pager.pages[q].slots[0].val != q
      modifies this`root, pager`pages, pager`pins, pager`unsaved, pager.pool, pager.pool.frames, pager.pool.replacer
      ensures pager.Valid() && pager.Quiet() && root == old(pager.pages)[q].slots[0].val
      ensures pager.pages == ShrinkRoot(old(pager.pages), q)
    {
      var p := pager.At(q);
      var newRoot := p.slots[0].val;
      pager.Write(q, Inner(p.parent, []));
      root := newRoot;
      SetParent(newRoot, INVALID);
      pager.Unpin(q, true);
      pager.Delete(q);
    }

    // The parent is pinned and the page repaired from its siblings, or merged with one of them.
    method Rebalance(under: PageId, early: bool) returns (merged: bool, q: PageId)
      requires Mid(Settled, under) && under in pager.pages && under != root && OneShort(under)
      modifies this`spans, pager`pages, pager`pins, pager`unsaved, pager.pool, pager.pool.frames, pager.pool.replacer
      ensures q == old(pager.pages)[under].parent && q in old(pager.pages) && old(pager.pages)[q].Inner?
      ensures HasChild(old(pager.pages)[q].slots, under)
      ensures ghost var f := HowToFix(old(pager.pages), lim, under, old(pager.pages)[under].Size());
        && (merged <==> f == Merge)
        && (merged ==> Merged(old(pager.pages), old(spans), q))
        && (merged || Ready())
        && (merged || if early || f != FromRight || old(pager.pages)[under].Leaf? then Mid(Settled, INVALID)
                      else !Correct(pager.pages, root, contents))
    {
      ParentAt(pager.pages, spans, root, under);
      var node := pager.Fetch(under);
      q := node.parent;
      pager.Unpin(under, false);
      var pnode := pager.Fetch(q);
      var idx := ValueIndex(pnode.slots, under);
      if node.Leaf? {
        merged := RebalanceLeaf(q, idx, under);
      } else {
        merged := RebalanceInner(q, idx, under, early);
      }
    }

    // One round at a page: true if its parent is the next to look at, false if all is done.
    method RepairPage(under: PageId, early: bool) returns (again: bool, q: PageId)
      requires Mid(Settled, under) && under in pager.pages && under != root && OneShort(under)
      modifies this`root, this`spans, pager`pages, pager`pins, pager`unsaved, pager.pool, pager.pool.frames, pager.pool.replacer
      ensures ghost var b := old(Breaks(pager.pages, spans, root, lim, under, pager.pages[under].Size()));
        if again then
          && Mid(Settled, q) && q in pager.pages && q != root && OneShort(q) && root == old(root)
          && q in spans && under in old(spans) && spans[q].level == old(spans)[under].level + 1
          && root in spans && root in old(spans) && spans[root].level == old(spans)[root].level
          && Breaks(pager.pages, spans, root, lim, q, pager.pages[q].Size()) == b
        else Ready() && root != INVALID && if early || !b then Mid(Settled, INVALID) else !Correct(pager.pages, root, contents)
    {
      ghost var s, g, r := pager.pages, spans, root;
      ParentAt(s, g, root, under);
      var merged: bool;
      merged, q := Rebalance(under, early);
      again := false;
      if merged {
        ghost var t, h := pager.pages, spans;
        BreaksAbove(s, g, r, t, h, lim, q, t[q].Size());
        again := AfterMerge(q);
        if q != r { ParentAt(t, h, r, q); }
      }
    }

    /** Repairs an underfull page and, merge by merge, its ancestors. */
    method RepairUp(leaf: PageId, early: bool)
      requires Mid(Settled, leaf) && leaf in pager.pages && leaf != root && OneShort(leaf)
      modifies this`root, this`spans, pager`pages, pager`pins, pager`unsaved, pager.pool, pager.pool.frames, pager.pool.replacer
      ensures Ready() && root != INVALID
      ensures if early || !old(Breaks(pager.pages, spans, root, lim, leaf, pager.pages[leaf].Size()))
        then Mid(Settled, INVALID) else !Correct(pager.pages, root, contents)
    {
      ghost var b := Breaks(pager.pages, spans, root, lim, leaf, pager.pages[leaf].Size());
      var under := leaf;
      while true
        invariant Mid(Settled, under) && under in pager.pages && under != root && OneShort(under)
        invariant Breaks(pager.pages, spans, root, lim, under, pager.pages[under].Size()) == b
        decreases spans[root].level - spans[under].level
      {
        assert SpanOK(spans, root, under);
        var again, q := RepairPage(under, early);
        if !again { return; }
        assert SpanOK(spans, root, q);
        under := q;
      }
    }

    /** Whether removing `key` now would end in an internal borrow from the right. */
    ghost predicate RemoveBreaks(key: Key)
      requires Valid()
      reads this, pager, pager.pool, pager.pool.frames, pager.pool.replacer
    {
      root != INVALID && RemovalBreaks(pager.pages, spans, root, contents, lim, key)
    }

    // Whether a page has a row to spare.
    method HasSpare(p: PageId) returns (b: bool)
      requires Valid() && root != INVALID && p in pager.pages
      modifies pager`pins, pager`unsaved, pager.pool, pager.pool.frames, pager.pool.replacer
      ensures Valid() && b == Rich(pager.pages, lim, p)
    {
      var node := pager.Fetch(p);
      pager.Unpin(p, false);
      b := node.Size() > node.MinSize(lim.leaf, lim.inner);
    }

    // The repair a page would take if it were left with `size` rows, and its parent's size.
    method Foresee(p: PageId, size: int) returns (f: Repair, node: Node, above: nat)
      requires Valid() && root != INVALID && p in pager.pages && p != root
      modifies pager`pins, pager`unsaved, pager.pool, pager.pool.frames, pager.pool.replacer
      ensures Valid() && node == pager.pages[p]
      ensures var s := pager.pages; var q := s[p].parent;
        && q in s && s[q].Inner? && HasChild(s[q].slots, p)
        && f == HowToFix(s, lim, p, size) && above == |s[q].slots|
    {
      AroundPage(pager.pages, spans, root, contents, lim, p);
      ParentAt(pager.pages, spans, root, p);
      node := pager.Fetch(p);
      pager.Unpin(p, false);
      var parent := pager.Fetch(node.parent);
      pager.Unpin(node.parent, false);
      above := |parent.slots|;
      var i := ValueIndex(parent.slots, p);
      if size >= node.MinSize(lim.leaf, lim.inner) { return Fine, node, above; }
      if i > 0 {
        var spare := HasSpare(parent.slots[i - 1].val);
        if spare { return FromLeft, node, above; }
      }
      if i + 1 < |parent.slots| {
        var spare := HasSpare(parent.slots[i + 1].val);
        if spare { return FromRight, node, above; }
      }
      f := Merge;
    }

    /** The condition is one a caller can check: it takes a descent and a walk back up. */
    method WillBreak(key: Key) returns (b: bool)
      requires Valid()
      modifies pager`pins, pager`unsaved, pager.pool, pager.pool.frames, pager.pool.replacer
      ensures Valid() && b == RemoveBreaks(key)
    {
      if root == INVALID { return false; }
      var p, node := FindLeaf(key);
      LookupAtLeaf(pager.pages, spans, root, contents, p, key);
      LeafDecides(pager.pages, spans, root, contents, lim, p, key);
      pager.Unpin(p, false);
      if LeafLookup(node.entries, key) == None { return false; }
      b := FaultAbove(p, |node.entries| - 1, key);
    }

    // The walk: up as long as the repair is a merge.
    method FaultAbove(leaf: PageId, rows: int, ghost key: Key) returns (b: bool)
      requires Valid() && root != INVALID && leaf in pager.pages
      requires Breaks(pager.pages, spans, root, lim, leaf, rows) == RemoveBreaks(key)
      modifies pager`pins, pager`unsaved, pager.pool, pager.pool.frames, pager.pool.replacer
      ensures Valid() && b == RemoveBreaks(key)
    {
      var p, size := leaf, rows;
      while p != root
        invariant Valid() && p in pager.pages
        invariant Breaks(pager.pages, spans, root, lim, p, size) == RemoveBreaks(key)
        decreases spans[root].level - spans[p].level
      {
        ParentAt(pager.pages, spans, root, p);
        var f, node, above := Foresee(p, size);
        if f != Merge { return f == FromRight && node.Inner?; }
        p, size := node.parent, above - 1;
      }
      return false;
    }

    method RemoveWith(key: Key, early: bool)
      requires Valid()
      modifies this, pager`pages, pager`pins, pager`unsaved, pager.pool, pager.pool.frames, pager.pool.replacer
      ensures contents == old(contents) - {key}
      ensures if early || !old(RemoveBreaks(key)) then Valid() else Ready() && !Correct(pager.pages, root, contents)
    {
      if root == INVALID { return; }
      var cur, node := FindLeaf(key);
      if node.parent == INVALID {
        ParentlessIsRoot(pager.pages, spans, root, Settled, cur);
        LeafDecides(pager.pages, spans, root, contents, lim, cur, key);
        RemoveFromRoot(cur, key);
      } else {
        RemoveFromLeaf(cur, node, key, early);
      }
    }

    // The leaf has a parent: it may need to borrow or merge once the row is gone.
    method RemoveFromLeaf(cur: PageId, node: Node, key: Key, early: bool)
      requires lim.leaf >= 2 && lim.inner >= 3 && pager.pool.frames.Length >= 4 && pager.Valid()
      requires pager.pins == {cur} && pager.unsaved == {} && root != INVALID
      requires Sound(pager.pages, spans, root, contents, lim, Settled, INVALID) && Covers(spans, cur, key)
      requires cur in pager.pages && node == pager.pages[cur] && node.Leaf? && node.parent != INVALID
      modifies this, pager`pages, pager`pins, pager`unsaved, pager.pool, pager.pool.frames, pager.pool.replacer
      ensures contents == old(contents) - {key}
      ensures if early || !old(RemovalBreaks(pager.pages, spans, root, contents, lim, key)) then Valid()
              else Ready() && !Correct(pager.pages, root, contents)
    {
      var after := LeafRemove(node.entries, key);
      var changed := |after| != |node.entries|;
      RemoveSound(pager.pages, spans, root, contents, lim, cur, key);
      ParentlessIsRoot(pager.pages, spans, root, Settled, cur);
      LeafDecides(pager.pages, spans, root, contents, lim, cur, key);
      if !changed {
        pager.Unpin(cur, changed);
        return;
      }
      ToldBefore(pager.pages, spans, root, contents, lim, cur, key);
      pager.Write(cur, node.(entries := after));
      contents := contents - {key};
      pager.Unpin(cur, changed);
      RepairUp(cur, early);
    }

    // The root is a leaf: it may become smaller than any bound, and the tree empty.
    method RemoveFromRoot(cur: PageId, key: Key)
      requires lim.leaf >= 2 && lim.inner >= 3 && pager.pool.frames.Length >= 4 && pager.Valid()
      requires pager.pins == {cur} && pager.unsaved == {} && cur == root && root != INVALID
      requires Sound(pager.pages, spans, root, contents, lim, Settled, INVALID) && Covers(spans, cur, key)
      requires cur in pager.pages && pager.pages[cur].Leaf?
      modifies this, pager`pages, pager`pins, pager`unsaved, pager.pool, pager.pool.frames, pager.pool.replacer
      ensures Valid() && contents == old(contents) - {key}
    {
      var node := pager.At(cur);
      var after := LeafRemove(node.entries, key);
      var changed := |after| != |node.entries|;
      RemoveSound(pager.pages, spans, root, contents, lim, cur, key);
      assert SizeOK(pager.pages, root, lim, cur);
      if changed {
        pager.Write(cur, node.(entries := after));
        contents := contents - {key};
      }
      if |after| == 0 {
        LastEntry(pager.pages, spans, root, contents, lim, cur);
        ForgetRoot(cur);
        spans := map[];
      } else {
        pager.Unpin(cur, changed);
      }
    }

    // The last page goes.
    method ForgetRoot(cur: PageId)
      requires pager.Valid() && pager.pins == {cur} && pager.unsaved <= {cur} && pager.pages.Keys == {cur}
      modifies this`root, pager`pages, pager`pins, pager`unsaved, pager.pool, pager.pool.frames, pager.pool.replacer
      ensures pager.Valid() && pager.Quiet() && pager.pages == map[] && root == INVALID
    {
      root := INVALID;
      pager.Unpin(cur, true);
      pager.Delete(cur);
    }

    /** Removal as coded: right exactly when it does not end in an internal borrow from the right. */
    method Remove(key: Key)
      requires Valid()
      modifies this, pager`pages, pager`pins, pager`unsaved, pager.pool, pager.pool.frames, pager.pool.replacer
      ensures contents == old(contents) - {key}
      ensures !old(RemoveBreaks(key)) ==> Valid()
      ensures Ready()
      ensures Correct(pager.pages, root, contents) <==> !old(RemoveBreaks(key))
    {
      ghost var b := RemoveBreaks(key);
      RemoveWith(key, false);
      if !b { ValidIsCorrect(); }
    }

    /** Removal with the separator read before the move: right on every tree. */
    method RemoveRepaired(key: Key)
      requires Valid()
      modifies this, pager`pages, pager`pins, pager`unsaved, pager.pool, pager.pool.frames, pager.pool.replacer
      ensures Valid() && contents == old(contents) - {key}
    {
      RemoveWith(key, true);
    }
  }

  // ---------- Whole runs ----------

  datatype Op = Put(key: Key, val: RID) | Drop(key: Key)

  /** What a run means for a plain finite map. */
  function Apply(c: Contents, op: Op): Contents {
    match op
    case Put(k, v) => if k in c then c else c[k := v]
    case Drop(k) => c - {k}
  }

  function ApplyAll(c: Contents, ops: seq<Op>): Contents {
    if ops == [] then c else Apply(ApplyAll(c, ops[..|ops| - 1]), ops[|ops| - 1])
  }

  // One operation; it is left out if it is a removal that would break the tree.
  method Step(t: BPlusTree, op: Op, repaired: bool) returns (stop: bool)
    requires t.Valid()
    modifies t, t.pager, t.pager.pool, t.pager.pool.frames, t.pager.pool.replacer
    ensures t.Valid() && t.contents == if stop then old(t.contents) else Apply(old(t.contents), op)
    ensures stop ==> !repaired && op.Drop? && t.RemoveBreaks(op.key)
  {
    stop := false;
    match op {
      case Put(k, v) => var _ := t.Insert(k, v);
      case Drop(k) =>
        if repaired {
          t.RemoveRepaired(k);
        } else {
          stop := t.WillBreak(k);
          if !stop { t.Remove(k); }
        }
    }
  }

  /** Any run of insertions and removals from the empty tree, over a pool of four frames or more, leaves
      exactly the entries the finite map has, as long as no removal breaks; with the repaired removal,
      always. The pages other clients have in the pool stay as they were. */
  method Run(pool: Pool<Node>, lim: Limits, ops: seq<Op>, repaired: bool) returns (t: BPlusTree, done: nat)
    requires lim.leaf >= 2 && lim.inner >= 3 && pool.frames.Length >= 4
    requires pool.Valid() && pool.touched == {} && forall p :: pool.PinCount(p) == 0
    modifies pool, pool.frames, pool.replacer
    ensures forall p :: p in old(pool.store) ==> p in pool.store && pool.store[p] == old(pool.store)[p]
    ensures done <= |ops| && t.pager.pool == pool && t.Valid() && t.contents == ApplyAll(map[], ops[..done])
    ensures done < |ops| ==> !repaired && ops[done].Drop? && t.RemoveBreaks(ops[done].key)
  {
    var pager := new Pager(pool);
    t := new BPlusTree(pager, lim);
    done := 0;
    while done < |ops|
      invariant done <= |ops| && fresh(t) && fresh(t.pager) && t.pager == pager && pager.pool == pool
      invariant t.Valid() && t.contents == ApplyAll(map[], ops[..done])
    {
      assert ops[..done + 1][..done] == ops[..done];
      var stop := Step(t, ops[done], repaired);
      if stop { break; }
      done := done + 1;
    }
    assert ops[..|ops|] == ops;
    forall p | p in old(pool.store) ensures p in pool.store && pool.store[p] == old(pool.store)[p] { pager.OthersStay(p); }
  }
}
