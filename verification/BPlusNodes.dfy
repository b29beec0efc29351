/** The pages of the B+ tree as values, and what each page operation does to them.

    Keys are 32-bit signed integers: the template is instantiated for `int` only.
    Slot 0 of an internal page carries a child and a meaningless key, as in the source. */
module BPlusNodes {
  import opened Wrappers
  import opened Rids

  const BOTTOM := -0x8000_0000
  const TOP := 0x8000_0000

  type Key = k: int | BOTTOM <= k < TOP witness 0

  datatype Entry<V> = Entry(key: Key, val: V)

  datatype Node =
    | Leaf(parent: PageId, next: PageId, entries: seq<Entry<RID>>)
    | Inner(parent: PageId, slots: seq<Entry<PageId>>)
  {
    function Size(): nat {
      if Leaf? then |entries| else |slots|
    }

    // Size bounds: an overfull page splits, an underfull one borrows or merges.
    function MaxSize(leafMax: nat, innerMax: nat): nat {
      if Leaf? then leafMax else innerMax
    }

    function MinSize(leafMax: nat, innerMax: nat): nat {
      if Leaf? then leafMax / 2 else (innerMax + 1) / 2
    }
  }

  predicate Increasing<V>(es: seq<Entry<V>>) {
    forall i, j :: 0 <= i < j < |es| ==> es[i].key < es[j].key
  }

  // The routing keys of an internal page: all but the one in slot 0.
  predicate Routed(slots: seq<Entry<PageId>>) {
    forall i, j :: 1 <= i < j < |slots| ==> slots[i].key < slots[j].key
  }

  /** The first slot holding child `c`, or -1. */
  function ValueIndex(slots: seq<Entry<PageId>>, c: PageId): (r: int)
    ensures if HasChild(slots, c) then 0 <= r < |slots| && slots[r].val == c else r == -1
  {
    if slots == [] then -1
    else if slots[0].val == c then 0
    else
      var r := ValueIndex(slots[1..], c);
      assert forall i :: 1 <= i < |slots| ==> slots[i] == slots[1..][i - 1];
      if r == -1 then -1 else r + 1
  }

  predicate HasChild(slots: seq<Entry<PageId>>, c: PageId) {
    exists i :: 0 <= i < |slots| && slots[i].val == c
  }

  // ---------- Leaf pages ----------

  /** The first position whose key is not below `key`. */
  function LowerBound(es: seq<Entry<RID>>, key: Key): (i: nat)
    ensures i <= |es|
    ensures forall j :: 0 <= j < i ==> es[j].key < key
    ensures i < |es| ==> key <= es[i].key
  {
    if es == [] || key <= es[0].key then 0 else
      var r := LowerBound(es[1..], key);
      assert forall j :: 1 <= j < r + 1 ==> es[j] == es[1..][j - 1];
      r + 1
  }

  predicate HasKey(es: seq<Entry<RID>>, key: Key) {
    exists i :: 0 <= i < |es| && es[i].key == key
  }

  function LeafInsert(es: seq<Entry<RID>>, key: Key, v: RID): seq<Entry<RID>> {
    var i := LowerBound(es, key);
    if i < |es| && es[i].key == key then es else es[..i] + [Entry(key, v)] + es[i..]
  }

  function LeafRemove(es: seq<Entry<RID>>, key: Key): seq<Entry<RID>> {
    var i := LowerBound(es, key);
    if i < |es| && es[i].key == key then es[..i] + es[i + 1..] else es
  }

  function LeafLookup(es: seq<Entry<RID>>, key: Key): Option<RID> {
    var i := LowerBound(es, key);
    if i < |es| && es[i].key == key then Some(es[i].val) else None
  }

  lemma LowerBoundFinds(es: seq<Entry<RID>>, key: Key)
    requires Increasing(es)
    ensures HasKey(es, key) <==> LowerBound(es, key) < |es| && es[LowerBound(es, key)].key == key
  {
    var i := LowerBound(es, key);
    if HasKey(es, key) {
      var j :| 0 <= j < |es| && es[j].key == key;
      assert i <= j;
    }
  }

  /** Inserting keeps the order, adds exactly the new pair, and does nothing on a present key. */
  lemma LeafInsertMeaning(es: seq<Entry<RID>>, key: Key, v: RID)
    requires Increasing(es)
    ensures var r := LeafInsert(es, key, v);
      && Increasing(r)
      && (if HasKey(es, key) then r == es
          else |r| == |es| + 1 && forall e :: e in r <==> e == Entry(key, v) || e in es)
  {
    LowerBoundFinds(es, key);
    var i := LowerBound(es, key);
    if !HasKey(es, key) {
      var r := LeafInsert(es, key, v);
      forall a, b | 0 <= a < b < |r| ensures r[a].key < r[b].key {
        if i < |es| && i < b { assert key < es[i].key; assert es[i].key <= es[b - 1].key; }
      }
      assert es == es[..i] + es[i..];
    }
  }

  /** Removing keeps the order and drops exactly the pair with that key, if any. */
  lemma LeafRemoveMeaning(es: seq<Entry<RID>>, key: Key)
    requires Increasing(es)
    ensures var r := LeafRemove(es, key);
      && Increasing(r)
      && (if HasKey(es, key) then |r| + 1 == |es| else r == es)
      && (forall e :: e in r <==> e in es && e.key != key)
  {
    LowerBoundFinds(es, key);
    var i := LowerBound(es, key);
    if HasKey(es, key) {
      DropAt(es, i);
    }
  }

  lemma DropAt(es: seq<Entry<RID>>, i: nat)
    requires Increasing(es) && i < |es|
    ensures Increasing(es[..i] + es[i + 1..])
    ensures forall e :: e in es[..i] + es[i + 1..] <==> e in es && e.key != es[i].key
  {
    var r := es[..i] + es[i + 1..];
    assert forall j :: 0 <= j < |r| ==> r[j] == es[if j < i then j else j + 1];
    forall e | e in es && e.key != es[i].key ensures e in r {
      var j :| 0 <= j < |es| && es[j] == e;
      assert r[if j < i then j else j - 1] == e;
    }
  }

  /** Splitting and merging rows of entries keep the order across the two pages. */
  lemma IncreasingParts<V>(es: seq<Entry<V>>, m: nat)
    requires Increasing(es) && m <= |es|
    ensures Increasing(es[..m]) && Increasing(es[m..])
  {
  }

  // ---------- Internal pages ----------

  /** Where the routing loop stops: the last slot reached before a separator above `key`. */
  function RouteFrom(slots: seq<Entry<PageId>>, key: Key, i: nat): (r: nat)
    requires 1 <= i <= |slots|
    ensures i - 1 <= r < |slots|
    ensures forall j :: i <= j <= r ==> slots[j].key <= key
    ensures r + 1 < |slots| ==> key < slots[r + 1].key
    decreases |slots| - i
  {
    if i == |slots| || key < slots[i].key then i - 1 else RouteFrom(slots, key, i + 1)
  }

  function Route(slots: seq<Entry<PageId>>, key: Key): nat
    requires slots != []
  {
    RouteFrom(slots, key, 1)
  }

  function InsertSlot(slots: seq<Entry<PageId>>, i: nat, key: Key, child: PageId): seq<Entry<PageId>>
    requires i < |slots|
  {
    slots[..i + 1] + [Entry(key, child)] + slots[i + 1..]
  }

  function RemoveSlot(slots: seq<Entry<PageId>>, i: nat): seq<Entry<PageId>>
    requires i < |slots|
  {
    slots[..i] + slots[i + 1..]
  }

  function SetSlotKey(slots: seq<Entry<PageId>>, i: nat, key: Key): seq<Entry<PageId>>
    requires i < |slots|
  {
    slots[i := Entry(key, slots[i].val)]
  }

  /** The upper half of a split page; its slot 0 keeps the promoted key as a placeholder. */
  function UpperHalf(slots: seq<Entry<PageId>>, m: nat, middle: Key): seq<Entry<PageId>>
    requires m < |slots|
  {
    [Entry(middle, slots[m].val)] + slots[m + 1..]
  }

  /** Two sibling pages as one, the separator brought down between them. */
  function Joined(ls: seq<Entry<PageId>>, middle: Key, rs: seq<Entry<PageId>>): seq<Entry<PageId>>
    requires rs != []
  {
    ls + [Entry(middle, rs[0].val)] + rs[1..]
  }

  /** What remains of a donor that gave its first child away. */
  function WithoutFirst(rs: seq<Entry<PageId>>): seq<Entry<PageId>>
    requires |rs| >= 2
  {
    [Entry(rs[0].key, rs[1].val)] + rs[2..]
  }

  /** A recipient that got a new first child; its old first child moves behind the separator. */
  function WithNewFirst(rs: seq<Entry<PageId>>, child: PageId, middle: Key): seq<Entry<PageId>>
    requires rs != []
  {
    [Entry(rs[0].key, child), Entry(middle, rs[0].val)] + rs[1..]
  }
}
