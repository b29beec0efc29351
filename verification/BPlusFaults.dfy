/** Where removal, as coded, goes wrong: borrowing from the right sibling of an internal page.

    After the move the new separator is read from slot 1 of the donor, which by then holds the
    donor's second routing key instead of its first. Keys between the two are still stored, but
    the parent routes searches for them to the wrong child. */
module BPlusFaults {
  import opened Wrappers
  import opened Rids
  import opened BPlusNodes
  import opened BPlusShape
  import opened BPlusSplit
  import opened BPlusMerge
  import opened BPlusBorrow
  import opened BPlusSearch
  import opened BPlusSteps

  predicate Rich(s: Store, lim: Limits, p: PageId) {
    p in s && s[p].Size() > s[p].MinSize(lim.leaf, lim.inner)
  }

  // How an underfull page is repaired: the left sibling is asked first, then the right one.
  datatype Repair = Fine | FromLeft | FromRight | Merge

  /** The repair chosen for page p if it is left with `size` rows. */
  function HowToFix(s: Store, lim: Limits, p: PageId, size: int): Repair
    requires p in s && s[p].parent in s && s[s[p].parent].Inner? && HasChild(s[s[p].parent].slots, p)
  {
    var slots := s[s[p].parent].slots;
    var i := ValueIndex(slots, p);
    if size >= s[p].MinSize(lim.leaf, lim.inner) then Fine
    else if i > 0 && Rich(s, lim, slots[i - 1].val) then FromLeft
    else if i + 1 < |slots| && Rich(s, lim, slots[i + 1].val) then FromRight
    else Merge
  }

  /** Page p is left with `size` rows: does repairing it end in an internal borrow from the right?
      Only page sizes and parent links above p are looked at. */
  ghost predicate Breaks(s: Store, g: Spans, root: PageId, lim: Limits, p: PageId, size: int)
    requires Shape(s, g, root, Settled) && p in s
    decreases g[root].level - g[p].level
  {
    p != root &&
    (ParentAt(s, g, root, p);
     var f := HowToFix(s, lim, p, size);
     || (f == FromRight && s[p].Inner?)
     || (f == Merge && Breaks(s, g, root, lim, s[p].parent, s[s[p].parent].Size() - 1)))
  }

  lemma ParentAt(s: Store, g: Spans, root: PageId, p: PageId)
    requires Shape(s, g, root, Settled) && p in s && p != root
    ensures var q := s[p].parent;
      && q in s && s[q].Inner? && HasChild(s[q].slots, p)
      && g[q].level == g[p].level + 1 <= g[root].level && q != p
  {
    assert Linked(s, p);
    ChildBelow(s, g, root, Settled, s[p].parent, p);
    assert SpanOK(g, root, s[p].parent);
  }

  /** The prediction depends only on pages at the height of p and above. */
  lemma {:induction false} BreaksAbove(s: Store, g: Spans, root: PageId, t: Store, h: Spans, lim: Limits, p: PageId, size: int)
    requires Shape(s, g, root, Settled) && Shape(t, h, root, Settled) && p in s && p in t
    requires t[p].parent == s[p].parent && (t[p].Leaf? <==> s[p].Leaf?)
    requires AgreeAbove(s, g, t, h, p)
    ensures Breaks(s, g, root, lim, p, size) == Breaks(t, h, root, lim, p, size)
    decreases g[root].level - g[p].level
  {
    if p != root {
      ParentAt(s, g, root, p);
      var q := s[p].parent;
      assert t[q] == s[q];
      forall i | 0 <= i < |s[q].slots| && s[q].slots[i].val != p
        ensures s[q].slots[i].val in s && s[q].slots[i].val in t && t[s[q].slots[i].val] == s[s[q].slots[i].val]
      {
        assert HasChild(s[q].slots, s[q].slots[i].val);
        ChildBelow(s, g, root, Settled, q, s[q].slots[i].val);
      }
      NotOwnSibling(s, g, root, q, p);
      BreaksAbove(s, g, root, t, h, lim, q, s[q].Size() - 1);
    }
  }

  lemma NotOwnSibling(s: Store, g: Spans, root: PageId, q: PageId, p: PageId)
    requires Shape(s, g, root, Settled) && q in s && s[q].Inner? && HasChild(s[q].slots, p)
    ensures var i := ValueIndex(s[q].slots, p);
      && (i > 0 ==> s[q].slots[i - 1].val != p && s[q].slots[i - 1].val in s)
      && (i + 1 < |s[q].slots| ==> s[q].slots[i + 1].val != p && s[q].slots[i + 1].val in s)
  {
    var i := ValueIndex(s[q].slots, p);
    if i > 0 {
      ChildBelow(s, g, root, Settled, q, s[q].slots[i - 1].val);
      if s[q].slots[i - 1].val == p { ChildAtOnce(s, g, root, Settled, q, i - 1, i); }
    }
    if i + 1 < |s[q].slots| {
      ChildBelow(s, g, root, Settled, q, s[q].slots[i + 1].val);
      if s[q].slots[i + 1].val == p { ChildAtOnce(s, g, root, Settled, q, i + 1, i); }
    }
  }

  // ---------- What the wrong separator does ----------

  /** t is the sound store s but for one separator of page q, raised to the first routing key of
      the child on its right. */
  ghost predicate Raised(s: Store, t: Store, g: Spans, root: PageId, c: Contents, lim: Limits, q: PageId, j: nat) {
    && Sound(s, g, root, c, lim, Settled, INVALID)
    && q in s && s[q].Inner? && 1 <= j < |s[q].slots|
    && var r := s[q].slots[j].val;
    && r in s && s[r].Inner? && |s[r].slots| >= 2
    && t == s[q := Inner(s[q].parent, SetSlotKey(s[q].slots, j, s[r].slots[1].key))]
  }

  /** The keys the raised separator cuts off: they belong to the first child of the right sibling. */
  predicate CutOff(s: Store, q: PageId, j: nat, key: Key)
    requires q in s && s[q].Inner? && 1 <= j < |s[q].slots|
    requires s[q].slots[j].val in s && s[s[q].slots[j].val].Inner? && |s[s[q].slots[j].val].slots| >= 2
  {
    s[q].slots[j].key <= key < s[s[q].slots[j].val].slots[1].key
  }

  lemma RaisedFacts(s: Store, t: Store, g: Spans, root: PageId, c: Contents, lim: Limits, q: PageId, j: nat)
    requires Raised(s, t, g, root, c, lim, q, j)
    ensures var slots := s[q].slots; var r := slots[j].val; var l := slots[j - 1].val;
      && l in s && r in s && g[l].level + 1 == g[q].level == g[r].level + 1 && l != q && r != q
      && g[l].hi == slots[j].key == g[r].lo < s[r].slots[1].key < g[r].hi == SepHi(g[q], slots, j) <= g[q].hi
      && g[q].lo <= g[l].lo < g[l].hi
      && Routed(slots) && Routed(s[r].slots)
      && var k := s[r].slots[0].val;
      && k in s && k != root && g[k].lo == slots[j].key && g[k].hi == s[r].slots[1].key
  {
    var slots := s[q].slots;
    var r, l := slots[j].val, slots[j - 1].val;
    assert InnerOK(s, g, Settled, q) && ChildOK(s, g, Settled, q, j) && ChildOK(s, g, Settled, q, j - 1);
    assert InnerOK(s, g, Settled, r) && ChildOK(s, g, Settled, r, 0) && SpanOK(g, root, l);
    assert SpanOK(g, root, r);
  }

  lemma RouteIs(slots: seq<Entry<PageId>>, key: Key, i: nat)
    requires Routed(slots) && i < |slots|
    requires (i > 0 ==> slots[i].key <= key) && (i + 1 < |slots| ==> key < slots[i + 1].key)
    ensures Route(slots, key) == i
  {
  }

  // Past the upper end of a page's span a search ends in its last leaf and finds nothing.
  lemma {:induction false} FindBeyond(s: Store, t: Store, g: Spans, root: PageId, q: PageId, p: PageId, key: Key, fuel: nat)
    requires Shape(s, g, root, Settled) && q in s && p in s && g[p].level < g[q].level && g[p].hi <= key
    requires t.Keys == s.Keys && forall x :: x in s && x != q ==> t[x] == s[x]
    ensures Find(t, p, key, fuel) == None
    decreases fuel
  {
    if fuel > 0 {
      if s[p].Leaf? {
        assert LeafOK(s, g, p);
      } else {
        assert InnerOK(s, g, Settled, p);
        var last := |s[p].slots| - 1;
        RouteIs(s[p].slots, key, last);
        assert ChildOK(s, g, Settled, p, last);
        FindBeyond(s, t, g, root, q, s[p].slots[last].val, key, fuel - 1);
      }
    }
  }

  /** No search finds a key that was cut off. */
  lemma {:induction false} CutOffLost(s: Store, t: Store, g: Spans, root: PageId, c: Contents, lim: Limits,
                                      q: PageId, j: nat, p: PageId, key: Key, fuel: nat)
    requires Raised(s, t, g, root, c, lim, q, j) && CutOff(s, q, j, key)
    requires Covers(g, p, key) && g[p].level >= g[q].level
    ensures Find(t, p, key, fuel) == None
    decreases fuel
  {
    if fuel > 0 {
      RaisedFacts(s, t, g, root, c, lim, q, j);
      if g[p].level == g[q].level {
        OneCover(s, g, root, Settled, p, q, key);
        CutOffRoute(s, t, g, root, c, lim, q, j, key);
        FindBeyond(s, t, g, root, q, s[q].slots[j - 1].val, key, fuel - 1);
      } else {
        LeafLevel(s, g, root, Settled, p);
        RouteCovers(s, g, root, p, key);
        CutOffLost(s, t, g, root, c, lim, q, j, s[p].slots[Route(s[p].slots, key)].val, key, fuel - 1);
      }
    }
  }

  lemma CutOffRoute(s: Store, t: Store, g: Spans, root: PageId, c: Contents, lim: Limits, q: PageId, j: nat, key: Key)
    requires Raised(s, t, g, root, c, lim, q, j) && CutOff(s, q, j, key)
    ensures Route(t[q].slots, key) == j - 1
  {
    RaisedFacts(s, t, g, root, c, lim, q, j);
    var slots, raised := s[q].slots, t[q].slots;
    assert j + 1 < |slots| ==> g[slots[j].val].hi == slots[j + 1].key;
    assert Routed(raised);
    RouteIs(raised, key, j - 1);
  }

  /** All other searches answer as before. */
  lemma {:induction false} OthersFound(s: Store, t: Store, g: Spans, root: PageId, c: Contents, lim: Limits,
                                       q: PageId, j: nat, p: PageId, key: Key, fuel: nat)
    requires Raised(s, t, g, root, c, lim, q, j) && !CutOff(s, q, j, key)
    ensures Find(t, p, key, fuel) == Find(s, p, key, fuel)
    decreases fuel
  {
    if fuel > 0 && p in s && s[p].Inner? && s[p].slots != [] {
      if p == q {
        RaisedFacts(s, t, g, root, c, lim, q, j);
        var slots := s[q].slots;
        assert j + 1 < |slots| ==> g[slots[j].val].hi == slots[j + 1].key;
        assert Routed(t[q].slots);
        RouteIs(t[q].slots, key, Route(slots, key));
      }
      OthersFound(s, t, g, root, c, lim, q, j, s[p].slots[Route(s[p].slots, key)].val, key, fuel - 1);
    }
  }

  /** Below every page but the root there is a stored key. */
  lemma {:induction false} SomeKeyBelow(s: Store, g: Spans, root: PageId, c: Contents, lim: Limits, p: PageId)
      returns (key: Key)
    requires Sound(s, g, root, c, lim, Settled, INVALID) && p in s && p != root
    ensures Covers(g, p, key) && key in c
    decreases g[p].level
  {
    assert SizeOK(s, root, lim, p);
    if s[p].Leaf? {
      assert LeafOK(s, g, p);
      var e := s[p].entries[0];
      key := e.key;
      assert Stored(s, p, e) && InStore(s, e);
    } else {
      assert InnerOK(s, g, Settled, p) && ChildOK(s, g, Settled, p, 0);
      var k := s[p].slots[0].val;
      ParentlessIsRoot(s, g, root, Settled, k);
      key := SomeKeyBelow(s, g, root, c, lim, k);
    }
  }

  /** A raised separator loses exactly the cut-off keys, and there is at least one of them. */
  lemma RaisedIsWrong(s: Store, t: Store, g: Spans, root: PageId, c: Contents, lim: Limits, q: PageId, j: nat)
    requires Raised(s, t, g, root, c, lim, q, j)
    ensures !Correct(t, root, c)
    ensures forall key: Key, n: nat | n > g[root].level ::
      Find(t, root, key, n) == if CutOff(s, q, j, key) then None else Get(c, key)
    ensures exists key: Key :: key in c && CutOff(s, q, j, key)
  {
    RaisedFacts(s, t, g, root, c, lim, q, j);
    assert SpanOK(g, root, q);
    forall key: Key, n: nat | n > g[root].level
      ensures Find(t, root, key, n) == if CutOff(s, q, j, key) then None else Get(c, key)
    {
      RootCovers(s, g, root, key);
      if CutOff(s, q, j, key) {
        CutOffLost(s, t, g, root, c, lim, q, j, root, key, n);
      } else {
        OthersFound(s, t, g, root, c, lim, q, j, root, key, n);
        FindAgrees(s, g, root, c, root, key, n);
      }
    }
    var lost := SomeKeyBelow(s, g, root, c, lim, s[s[q].slots[j].val].slots[0].val);
    assert CutOff(s, q, j, lost);
    forall n: nat ensures !FindsAll(t, root, c, n) {
      RootCovers(s, g, root, lost);
      CutOffLost(s, t, g, root, c, lim, q, j, root, lost, n);
      assert Find(t, root, lost, n) != Get(c, lost);
    }
  }

  /** An internal borrow from the right that reads the separator after the move raises it. */
  lemma LateSeparatorRaises(s: Store, g: Spans, root: PageId, c: Contents, lim: Limits, q: PageId, j: nat)
    requires UnlinkPre(s, g, root, q, j)
    requires Sound(s, g, root, c, lim, Settled, Siblings(s, q, j).left)
    requires Siblings(s, q, j).left in s && s[Siblings(s, q, j).left].Inner?
    requires Siblings(s, q, j).right in s && s[Siblings(s, q, j).right].Inner?
    requires (lim.inner + 1) / 2 < s[Siblings(s, q, j).right].Size() <= lim.inner
    requires s[Siblings(s, q, j).left].Size() + 1 == (lim.inner + 1) / 2
    ensures var w := Siblings(s, q, j); var l, r := s[w.left].slots, s[w.right].slots;
      && l != [] && |r| >= 3 && w.left in g && w.right in g
      && var a, b := l + [Entry(s[q].slots[j].key, r[0].val)], WithoutFirst(r);
      && var right := ShareInners(s, q, j, a, b, r[1].key);
      && var t := Reparent(s[w.left := Inner(s[w.left].parent, a)][w.right := Inner(s[w.right].parent, b)], a, w.left)
           [q := Inner(s[q].parent, SetSlotKey(s[q].slots, j, r[2].key))];
      && Raised(right, t, MoveBoundary(g, w, r[1].key), root, c, lim, q, j)
  {
    RightGives(s, g, root, q, j);
    RightGivesSound(s, g, root, c, lim, q, j);
    SiblingsPending(s, g, root, q, j);
    var r := s[Siblings(s, q, j).right].slots;
    assert SetSlotKey(SetSlotKey(s[q].slots, j, r[1].key), j, r[2].key) == SetSlotKey(s[q].slots, j, r[2].key);
  }

  /** Whether a removal breaks can be told before the leaf is touched. */
  lemma ToldBefore(s: Store, g: Spans, root: PageId, c: Contents, lim: Limits, p: PageId, key: Key)
    requires Sound(s, g, root, c, lim, Settled, INVALID) && Covers(g, p, key) && s[p].Leaf? && key in c
    ensures var t := WriteLeaf(s, p, LeafRemove(s[p].entries, key));
      Shape(t, g, root, Settled) && Breaks(t, g, root, lim, p, t[p].Size()) == Breaks(s, g, root, lim, p, s[p].Size() - 1)
  {
    RemoveSound(s, g, root, c, lim, p, key);
    var t := WriteLeaf(s, p, LeafRemove(s[p].entries, key));
    BreaksAbove(s, g, root, t, g, lim, p, t[p].Size());
  }

  /** Whether removing `key` ends in an internal borrow from the right: read off the leaf
      responsible for the key, the sizes of the pages above it and those of their siblings. */
  ghost predicate RemovalBreaks(s: Store, g: Spans, root: PageId, c: Contents, lim: Limits, key: Key)
    requires Shape(s, g, root, Settled)
  {
    key in c && exists p :: Covers(g, p, key) && p in s && s[p].Leaf? && Breaks(s, g, root, lim, p, s[p].Size() - 1)
  }

  lemma LeafDecides(s: Store, g: Spans, root: PageId, c: Contents, lim: Limits, cur: PageId, key: Key)
    requires Shape(s, g, root, Settled) && Covers(g, cur, key) && s[cur].Leaf?
    ensures RemovalBreaks(s, g, root, c, lim, key) <==> key in c && Breaks(s, g, root, lim, cur, s[cur].Size() - 1)
  {
    forall p | Covers(g, p, key) && p in s && s[p].Leaf? ensures p == cur {
      LeafLevel(s, g, root, Settled, p);
      LeafLevel(s, g, root, Settled, cur);
      OneCover(s, g, root, Settled, p, cur, key);
    }
  }
}
