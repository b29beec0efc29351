/** A concrete tree on which removal, as coded, loses a key: five leaves under two internal pages,
    with at most two entries to a leaf and three children to an internal page. Removing 20 merges
    the first two leaves, their parent borrows from its right sibling, and key 40 is out of reach. */
module BPlusExample {
  import opened Rids
  import opened BPlusNodes
  import opened BPlusShape
  import opened BPlusFaults

  const V := RID(0, 0)
  const LIMITS := Limits(2, 3)

  const PAGES: Store := map[
    0 := Inner(INVALID, [Entry(0, 1), Entry(30, 2)]),
    1 := Inner(0, [Entry(0, 3), Entry(20, 4)]),
    2 := Inner(0, [Entry(0, 5), Entry(40, 6), Entry(50, 7)]),
    3 := Leaf(1, 4, [Entry(10, V)]),
    4 := Leaf(1, 5, [Entry(20, V)]),
    5 := Leaf(2, 6, [Entry(30, V)]),
    6 := Leaf(2, 7, [Entry(40, V)]),
    7 := Leaf(2, INVALID, [Entry(50, V)])]

  const SPANS: Spans := map[
    0 := Span(BOTTOM, TOP, 2), 1 := Span(BOTTOM, 30, 1), 2 := Span(30, TOP, 1),
    3 := Span(BOTTOM, 20, 0), 4 := Span(20, 30, 0), 5 := Span(30, 40, 0), 6 := Span(40, 50, 0), 7 := Span(50, TOP, 0)]

  const ENTRIES: Contents := map[10 := V, 20 := V, 30 := V, 40 := V, 50 := V]

  lemma ExampleLeaves(p: PageId)
    requires 3 <= p <= 7
    ensures LeafOK(PAGES, SPANS, p) && SpanOK(SPANS, 0, p) && Linked(PAGES, p) && SizeOK(PAGES, 0, LIMITS, p)
  {
    var q := PAGES[p].parent;
    assert PAGES[q].slots[if q == 1 then p - 3 else p - 5].val == p;
  }

  lemma ExampleInners(p: PageId)
    requires 0 <= p <= 2
    ensures InnerOK(PAGES, SPANS, Settled, p) && SpanOK(SPANS, 0, p) && SizeOK(PAGES, 0, LIMITS, p)
    ensures p != 0 ==> Linked(PAGES, p)
  {
    forall i | 0 <= i < |PAGES[p].slots| ensures ChildOK(PAGES, SPANS, Settled, p, i) {}
    if p != 0 { assert PAGES[0].slots[p - 1].val == p; }
  }

  lemma ExampleAgrees()
    ensures Agrees(PAGES, ENTRIES)
  {
    forall e ensures InStore(PAGES, e) <==> e.key in ENTRIES && ENTRIES[e.key] == e.val {
      if e.key in ENTRIES && ENTRIES[e.key] == e.val {
        assert PAGES[e.key / 10 + 2].entries[0] == e;
        assert Stored(PAGES, e.key / 10 + 2, e);
      }
      if InStore(PAGES, e) {
        var x :| Stored(PAGES, x, e);
        assert e == PAGES[x].entries[0];
      }
    }
  }

  lemma ExampleShape()
    ensures Shape(PAGES, SPANS, 0, Settled)
  {
    forall p | p in PAGES && PAGES[p].Leaf? ensures LeafOK(PAGES, SPANS, p) { ExampleLeaves(p); }
    forall p | p in PAGES && PAGES[p].Inner? ensures InnerOK(PAGES, SPANS, Settled, p) { ExampleInners(p); }
    forall p | p in PAGES ensures SpanOK(SPANS, 0, p) && (p != 0 ==> Linked(PAGES, p)) { ExamplePlaces(p); }
  }

  lemma ExamplePlaces(p: PageId)
    requires p in PAGES
    ensures SpanOK(SPANS, 0, p) && (p != 0 ==> Linked(PAGES, p)) && SizeOK(PAGES, 0, LIMITS, p)
  {
    if p <= 2 { ExampleInners(p); } else { ExampleLeaves(p); }
  }

  lemma ExampleSizes()
    ensures SizesBut(PAGES, 0, LIMITS, INVALID)
  {
    forall p | p in PAGES ensures SizeOK(PAGES, 0, LIMITS, p) { ExamplePlaces(p); }
  }

  // Leaf 4 merges with leaf 3; page 1 then takes a child from page 2.
  lemma ExampleRepairs()
    ensures HasChild(PAGES[1].slots, 4) && HasChild(PAGES[0].slots, 1)
    ensures HowToFix(PAGES, LIMITS, 4, 0) == Merge && HowToFix(PAGES, LIMITS, 1, 1) == FromRight
  {
    assert PAGES[1].slots[1..] == [Entry(20, 4)];
    assert HasChild(PAGES[1].slots, 4) by { assert PAGES[1].slots[1].val == 4; }
    assert HasChild(PAGES[0].slots, 1) by { assert PAGES[0].slots[0].val == 1; }
  }

  /** The tree is sound, and the condition under which removal breaks holds for key 20. */
  lemma RemovalCanBreak()
    ensures Sound(PAGES, SPANS, 0, ENTRIES, LIMITS, Settled, INVALID)
    ensures RemovalBreaks(PAGES, SPANS, 0, ENTRIES, LIMITS, 20)
  {
    ExampleShape();
    ExampleAgrees();
    ExampleSizes();
    ExampleRepairs();
    assert Breaks(PAGES, SPANS, 0, LIMITS, 1, 1);
    assert Covers(SPANS, 4, 20) && Breaks(PAGES, SPANS, 0, LIMITS, 4, 0);
  }
}
