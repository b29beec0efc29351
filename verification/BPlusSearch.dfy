/** Descending from the root to the leaf responsible for a key, and what is found there. */
module BPlusSearch {
  import opened Wrappers
  import opened Rids
  import opened BPlusNodes
  import opened BPlusShape

  /** Routing stays inside the span: the chosen child is responsible for the key. */
  lemma RouteCovers(s: Store, g: Spans, root: PageId, p: PageId, key: Key)
    requires Shape(s, g, root, Settled) && Covers(g, p, key) && s[p].Inner?
    ensures s[p].slots != []
    ensures var c := s[p].slots[Route(s[p].slots, key)].val;
      c in s && Covers(g, c, key) && g[c].level + 1 == g[p].level
  {
    assert InnerOK(s, g, Settled, p);
    assert ChildOK(s, g, Settled, p, Route(s[p].slots, key));
  }

  lemma RootCovers(s: Store, g: Spans, root: PageId, key: Key)
    requires Shape(s, g, root, Settled)
    ensures Covers(g, root, key)
  {
  }

  // The descent towards a key meets a page of every height.
  lemma SomeCover(s: Store, g: Spans, root: PageId, key: Key, level: nat) returns (p: PageId)
    requires Shape(s, g, root, Settled) && level <= g[root].level
    ensures Covers(g, p, key) && p in s && g[p].level == level
  {
    p := root;
    RootCovers(s, g, root, key);
    while g[p].level > level
      invariant p in s && Covers(g, p, key) && g[p].level >= level
      decreases g[p].level
    {
      assert s[p].Leaf? ==> LeafOK(s, g, p);
      RouteCovers(s, g, root, p, key);
      p := s[p].slots[Route(s[p].slots, key)].val;
    }
  }

  /** At each height exactly one page is responsible for a key. */
  lemma OneResponsible(s: Store, g: Spans, root: PageId, key: Key, level: nat)
    requires Shape(s, g, root, Settled) && level <= g[root].level
    ensures exists p :: (
      && Covers(g, p, key) && g[p].level == level
      && forall q :: Covers(g, q, key) && g[q].level == level ==> q == p)
  {
    var p := SomeCover(s, g, root, key, level);
    forall q | Covers(g, q, key) && g[q].level == level ensures q == p { OneCover(s, g, root, Settled, q, p, key); }
  }

  function Get(c: Contents, key: Key): Option<RID> {
    if key in c then Some(c[key]) else None
  }

  /** The responsible leaf holds the key exactly when the map does, and with the same value. */
  lemma LookupAtLeaf(s: Store, g: Spans, root: PageId, c: Contents, p: PageId, key: Key)
    requires Shape(s, g, root, Settled) && Agrees(s, c) && Covers(g, p, key) && s[p].Leaf?
    ensures LeafLookup(s[p].entries, key) == Get(c, key)
    ensures HasKey(s[p].entries, key) <==> key in c
  {
    var es := s[p].entries;
    assert LeafOK(s, g, p);
    LowerBoundFinds(es, key);
    if key in c {
      var e := Entry(key, c[key]);
      assert InStore(s, e);
      var x :| Stored(s, x, e);
      assert LeafOK(s, g, x);
      OneCover(s, g, root, Settled, x, p, key);
    }
    if HasKey(es, key) {
      var e := es[LowerBound(es, key)];
      assert Stored(s, p, e) && InStore(s, e);
    }
  }

  /** What GetValue computes on any store, sound or not: follow the routing, then look into the leaf. */
  function Find(s: Store, p: PageId, key: Key, fuel: nat): Option<RID>
    decreases fuel
  {
    if fuel == 0 || p !in s then None
    else match s[p]
      case Leaf(_, _, entries) => LeafLookup(entries, key)
      case Inner(_, slots) => if slots == [] then None else Find(s, slots[Route(slots, key)].val, key, fuel - 1)
  }

  /** Searching from any page responsible for the key gives the map's answer. */
  lemma {:induction false} FindAgrees(s: Store, g: Spans, root: PageId, c: Contents, p: PageId, key: Key, fuel: nat)
    requires Shape(s, g, root, Settled) && Agrees(s, c) && Covers(g, p, key) && g[p].level < fuel
    ensures Find(s, p, key, fuel) == Get(c, key)
    decreases fuel
  {
    if s[p].Leaf? {
      LookupAtLeaf(s, g, root, c, p, key);
    } else {
      RouteCovers(s, g, root, p, key);
      FindAgrees(s, g, root, c, s[p].slots[Route(s[p].slots, key)].val, key, fuel - 1);
    }
  }

  /** Lookups answer as the finite map does, for every key. */
  ghost predicate Correct(s: Store, root: PageId, c: Contents) {
    exists n: nat :: FindsAll(s, root, c, n)
  }

  ghost predicate FindsAll(s: Store, root: PageId, c: Contents, fuel: nat) {
    forall key: Key :: Find(s, root, key, fuel) == Get(c, key)
  }

  lemma ShapeIsCorrect(s: Store, g: Spans, root: PageId, c: Contents)
    requires Shape(s, g, root, Settled) && Agrees(s, c)
    ensures Correct(s, root, c)
  {
    var n := g[root].level + 1;
    forall key: Key ensures Find(s, root, key, n) == Get(c, key) {
      RootCovers(s, g, root, key);
      FindAgrees(s, g, root, c, root, key, n);
    }
    assert FindsAll(s, root, c, n);
  }

  // ---------- Changing the entries of one leaf ----------

  ghost function WriteLeaf(s: Store, p: PageId, es: seq<Entry<RID>>): Store
    requires p in s && s[p].Leaf?
  {
    s[p := s[p].(entries := es)]
  }

  lemma WriteLeafKeeps(s: Store, g: Spans, root: PageId, p: PageId, es: seq<Entry<RID>>)
    requires Shape(s, g, root, Settled) && p in s && s[p].Leaf? && Increasing(es)
    requires forall i :: 0 <= i < |es| ==> g[p].lo <= es[i].key < g[p].hi
    ensures Shape(WriteLeaf(s, p, es), g, root, Settled)
  {
    var t := WriteLeaf(s, p, es);
    forall x | x in t ensures SpanOK(g, root, x) { assert SpanOK(g, root, x); }
    forall x | x in t && t[x].Leaf? ensures LeafOK(t, g, x) { assert LeafOK(s, g, x); }
    forall x | x in t && t[x].Inner? ensures InnerOK(t, g, Settled, x) {
      assert InnerOK(s, g, Settled, x);
      forall i | 0 <= i < |s[x].slots| ensures ChildOK(t, g, Settled, x, i) { assert ChildOK(s, g, Settled, x, i); }
    }
    forall x | x in t && x != root ensures Linked(t, x) { assert Linked(s, x); }
  }

  /** Inserting a new key into its leaf adds one pair to the tree. */
  lemma InsertAtLeaf(s: Store, g: Spans, root: PageId, c: Contents, p: PageId, key: Key, v: RID)
    requires Shape(s, g, root, Settled) && Agrees(s, c) && Covers(g, p, key) && s[p].Leaf? && key !in c
    ensures var t := WriteLeaf(s, p, LeafInsert(s[p].entries, key, v));
      && Shape(t, g, root, Settled) && Agrees(t, c[key := v])
      && t[p].Size() == s[p].Size() + 1
  {
    var es := s[p].entries;
    var t := WriteLeaf(s, p, LeafInsert(es, key, v));
    assert LeafOK(s, g, p);
    LookupAtLeaf(s, g, root, c, p, key);
    LeafInsertMeaning(es, key, v);
    var r := LeafInsert(es, key, v);
    forall i | 0 <= i < |r| ensures g[p].lo <= r[i].key < g[p].hi { assert r[i] in r; }
    WriteLeafKeeps(s, g, root, p, r);
    forall e ensures InStore(t, e) <==> e.key in c[key := v] && c[key := v][e.key] == e.val {
      InsertAtLeafEntry(s, p, key, v, e);
      assert InStore(s, e) <==> e.key in c && c[e.key] == e.val;
    }
  }

  lemma InsertAtLeafEntry(s: Store, p: PageId, key: Key, v: RID, e: Entry<RID>)
    requires p in s && s[p].Leaf? && Increasing(s[p].entries) && !HasKey(s[p].entries, key)
    ensures InStore(WriteLeaf(s, p, LeafInsert(s[p].entries, key, v)), e) <==> e == Entry(key, v) || InStore(s, e)
  {
    LeafInsertMeaning(s[p].entries, key, v);
    var t := WriteLeaf(s, p, LeafInsert(s[p].entries, key, v));
    if InStore(s, e) { var x :| Stored(s, x, e); assert Stored(t, x, e); }
    if e == Entry(key, v) { assert Stored(t, p, e); }
    if InStore(t, e) && e != Entry(key, v) { var x :| Stored(t, x, e); assert Stored(s, x, e); }
  }

  /** Removing a present key from its leaf drops one pair from the tree. */
  lemma RemoveAtLeaf(s: Store, g: Spans, root: PageId, c: Contents, p: PageId, key: Key)
    requires Shape(s, g, root, Settled) && Agrees(s, c) && Covers(g, p, key) && s[p].Leaf? && key in c
    ensures var t := WriteLeaf(s, p, LeafRemove(s[p].entries, key));
      && Shape(t, g, root, Settled) && Agrees(t, c - {key})
      && t[p].Size() + 1 == s[p].Size()
  {
    var es := s[p].entries;
    var r := LeafRemove(es, key);
    var t := WriteLeaf(s, p, r);
    assert LeafOK(s, g, p);
    LookupAtLeaf(s, g, root, c, p, key);
    LeafRemoveMeaning(es, key);
    forall i | 0 <= i < |r| ensures g[p].lo <= r[i].key < g[p].hi { assert r[i] in r; }
    WriteLeafKeeps(s, g, root, p, r);
    forall e ensures InStore(t, e) <==> e.key in c - {key} && (c - {key})[e.key] == e.val {
      RemoveAtLeafEntry(s, g, root, p, key, e);
      assert InStore(s, e) <==> e.key in c && c[e.key] == e.val;
    }
  }

  lemma RemoveAtLeafEntry(s: Store, g: Spans, root: PageId, p: PageId, key: Key, e: Entry<RID>)
    requires Shape(s, g, root, Settled) && Covers(g, p, key) && s[p].Leaf?
    ensures InStore(WriteLeaf(s, p, LeafRemove(s[p].entries, key)), e) <==> InStore(s, e) && e.key != key
  {
    assert LeafOK(s, g, p);
    LeafRemoveMeaning(s[p].entries, key);
    var t := WriteLeaf(s, p, LeafRemove(s[p].entries, key));
    if InStore(s, e) && e.key != key { var x :| Stored(s, x, e); assert Stored(t, x, e); }
    if InStore(t, e) {
      var x :| Stored(t, x, e);
      assert Stored(s, x, e);
      if x != p && e.key == key {
        assert LeafOK(s, g, x);
        OneCover(s, g, root, Settled, x, p, key);
      }
    }
  }

  // ---------- Every page has one place in the tree ----------

  /** A path from the root down, each page a child of the one before. */
  ghost predicate Path(s: Store, root: PageId, ps: seq<PageId>) {
    && ps != [] && ps[0] == root
    && forall i :: 0 <= i < |ps| - 1 ==> ps[i] in s && s[ps[i]].Inner? && HasChild(s[ps[i]].slots, ps[i + 1])
  }

  /** A path reaches height level(root) - length: all leaves are at one depth. */
  lemma {:induction false} PathLevel(s: Store, g: Spans, root: PageId, ps: seq<PageId>)
    requires Shape(s, g, root, Settled) && Path(s, root, ps)
    ensures ps[|ps| - 1] in s && g[ps[|ps| - 1]].level + |ps| - 1 == g[root].level
  {
    if |ps| > 1 {
      PathLevel(s, g, root, ps[..|ps| - 1]);
      var q, c := ps[|ps| - 2], ps[|ps| - 1];
      assert HasChild(s[q].slots, c);
      var i :| 0 <= i < |s[q].slots| && s[q].slots[i].val == c;
      assert InnerOK(s, g, Settled, q) && ChildOK(s, g, Settled, q, i);
    }
  }

  lemma LeafDepth(s: Store, g: Spans, root: PageId, ps: seq<PageId>)
    requires Shape(s, g, root, Settled) && Path(s, root, ps) && ps[|ps| - 1] in s && s[ps[|ps| - 1]].Leaf?
    ensures |ps| == g[root].level + 1
  {
    PathLevel(s, g, root, ps);
    assert LeafOK(s, g, ps[|ps| - 1]);
  }

  /** No page is reachable twice: two paths to the same page are the same path. */
  lemma {:induction false} OnePath(s: Store, g: Spans, root: PageId, ps: seq<PageId>, qs: seq<PageId>)
    requires Shape(s, g, root, Settled) && Path(s, root, ps) && Path(s, root, qs)
    requires ps[|ps| - 1] == qs[|qs| - 1]
    ensures ps == qs
    decreases |ps|
  {
    PathLevel(s, g, root, ps);
    PathLevel(s, g, root, qs);
    if |ps| > 1 {
      var p, q, c := ps[|ps| - 2], qs[|qs| - 2], ps[|ps| - 1];
      assert HasChild(s[p].slots, c) && HasChild(s[q].slots, c);
      var i :| 0 <= i < |s[p].slots| && s[p].slots[i].val == c;
      var j :| 0 <= j < |s[q].slots| && s[q].slots[j].val == c;
      assert InnerOK(s, g, Settled, p) && ChildOK(s, g, Settled, p, i);
      assert InnerOK(s, g, Settled, q) && ChildOK(s, g, Settled, q, j);
      OnePath(s, g, root, ps[..|ps| - 1], qs[..|qs| - 1]);
      assert ps == ps[..|ps| - 1] + [c] && qs == qs[..|qs| - 1] + [c];
    }
  }

  /** And every page of the store is reachable. */
  lemma {:induction false} PathTo(s: Store, g: Spans, root: PageId, p: PageId) returns (ps: seq<PageId>)
    requires Shape(s, g, root, Settled) && p in s
    ensures Path(s, root, ps) && ps[|ps| - 1] == p
    decreases g[root].level - g[p].level
  {
    if p == root {
      ps := [root];
    } else {
      assert Linked(s, p);
      var q := s[p].parent;
      var i :| 0 <= i < |s[q].slots| && s[q].slots[i].val == p;
      assert InnerOK(s, g, Settled, q) && ChildOK(s, g, Settled, q, i) && SpanOK(g, root, q);
      var qs := PathTo(s, g, root, q);
      ps := qs + [p];
    }
  }
}
