/** The page objects of the B+ tree: rows in a fixed array, shifted in place.

    Every operation is shown to do to the rows what the functions of BPlusNodes say, so those
    functions may stand for the pages in the tree. The arrays hold one row more than max_size,
    because a row is inserted first and the page split afterwards. */
module BPlusPages {
  import opened Wrappers
  import opened Rids
  import opened BPlusNodes

  class Page<V(0)> {
    const rows: array<Entry<V>>
    var size: nat

    constructor (maxSize: nat, blank: Entry<V>)
      ensures Valid() && fresh(rows) && rows.Length == maxSize + 1 && View() == []
    {
      rows := new Entry<V>[maxSize + 1](_ => blank);
      size := 0;
    }

    ghost predicate Valid() reads this { size <= rows.Length }

    ghost function View(): seq<Entry<V>>
      requires Valid()
      reads this, rows
    {
      rows[..size]
    }

    // Opens a gap at idx: rows idx.. move up by one.
    method ShiftUp(idx: nat)
      requires Valid() && idx <= size < rows.Length
      modifies rows
      ensures rows[..idx] == old(rows[..idx]) && rows[idx + 1..size + 1] == old(rows[idx..size])
    {
      var i := size;
      while i > idx
        invariant idx <= i <= size
        invariant rows[..i] == old(rows[..i])
        invariant forall k :: i < k <= size ==> rows[k] == old(rows[k - 1])
      {
        rows[i] := rows[i - 1];
        i := i - 1;
      }
    }

    // Closes the gap at idx: rows idx + 1.. move down by one.
    method ShiftDown(idx: nat)
      requires Valid() && idx < size
      modifies rows
      ensures rows[..idx] == old(rows[..idx]) && rows[idx..size - 1] == old(rows[idx + 1..size])
    {
      var i := idx;
      while i + 1 < size
        invariant idx <= i < size
        invariant rows[..idx] == old(rows[..idx])
        invariant forall k :: idx <= k < i ==> rows[k] == old(rows[k + 1])
        invariant forall k :: i <= k < size ==> rows[k] == old(rows[k])
      {
        rows[i] := rows[i + 1];
        i := i + 1;
      }
    }

    // Puts a row in front of all others.
    method PushFront(e: Entry<V>)
      requires Valid() && size < rows.Length
      modifies this`size, rows
      ensures Valid() && View() == [e] + old(View())
    {
      ghost var rs := View();
      ShiftUp(0);
      rows[0] := e;
      size := size + 1;
      assert rows[1..size] == rs;
      assert View() == [rows[0]] + rows[1..size];
    }

    // Copies rows from.. of this page behind the first `at` rows of another one.
    method CopyTo(recipient: Page<V>, from: nat, at: nat)
      requires Valid() && recipient.Valid() && recipient != this && recipient.rows != rows
      requires from <= size && at + size - from <= recipient.rows.Length
      modifies recipient.rows
      ensures recipient.rows[..at] == old(recipient.rows[..at])
      ensures recipient.rows[at..at + size - from] == rows[from..size]
    {
      var n := size - from;
      for i := 0 to n
        invariant recipient.rows[..at] == old(recipient.rows[..at])
        invariant recipient.rows[at..at + i] == rows[from..from + i]
      {
        recipient.rows[at + i] := rows[from + i];
      }
    }
  }

  lemma OneBound(es: seq<Entry<RID>>, key: Key, i: nat)
    requires i <= |es| && (forall k :: 0 <= k < i ==> es[k].key < key) && (i < |es| ==> key <= es[i].key)
    ensures i == LowerBound(es, key)
  {
  }

  class LeafPage {
    const page: Page<RID>
    var next: PageId

    constructor (maxSize: nat)
      ensures Valid() && fresh(page) && fresh(page.rows) && page.rows.Length == maxSize + 1
      ensures Entries() == [] && next == INVALID
    {
      page := new Page<RID>(maxSize, Entry(0, RID(INVALID, 0)));
      next := INVALID;
    }

    ghost predicate Valid() reads this, page { page.Valid() }

    ghost function Entries(): seq<Entry<RID>>
      requires Valid()
      reads this, page, page.rows
    {
      page.View()
    }

    /** Binary search for the first position whose key is not below `key`. */
    method KeyIndex(key: Key) returns (i: nat)
      requires Valid() && Increasing(Entries())
      ensures i == LowerBound(Entries(), key)
    {
      var l, r := 0, page.size;
      while l < r
        invariant 0 <= l <= r <= page.size
        invariant forall k :: 0 <= k < l ==> page.rows[k].key < key
        invariant forall k :: r <= k < page.size ==> key <= page.rows[k].key
      {
        var mid := l + (r - l) / 2;
        assert page.rows[mid] == Entries()[mid];
        assert forall k :: 0 <= k < page.size ==> page.rows[k] == Entries()[k];
        if page.rows[mid].key < key { l := mid + 1; } else { r := mid; }
      }
      i := l;
      OneBound(Entries(), key, i);
    }

    method Lookup(key: Key) returns (r: Option<RID>)
      requires Valid() && Increasing(Entries())
      ensures r == LeafLookup(Entries(), key)
    {
      var idx := KeyIndex(key);
      if idx >= page.size { return None; }
      assert page.rows[idx] == Entries()[idx];
      var k := page.rows[idx].key;
      if !(k < key) && !(key < k) { return Some(page.rows[idx].val); }
      return None;
    }

    method Insert(key: Key, v: RID) returns (n: nat)
      requires Valid() && Increasing(Entries()) && page.size < page.rows.Length
      modifies page, page.rows
      ensures Valid() && Entries() == LeafInsert(old(Entries()), key, v) && n == |Entries()|
    {
      var idx := KeyIndex(key);
      if idx < page.size {
        assert page.rows[idx] == Entries()[idx];
        if !(page.rows[idx].key < key) && !(key < page.rows[idx].key) { return page.size; }
      }
      PutAt(idx, Entry(key, v));
      n := page.size;
    }

    // Makes room at an index and writes the row there.
    method PutAt(idx: nat, e: Entry<RID>)
      requires Valid() && idx <= page.size < page.rows.Length
      modifies page, page.rows
      ensures Valid() && Entries() == old(Entries())[..idx] + [e] + old(Entries())[idx..]
    {
      ghost var es := Entries();
      page.ShiftUp(idx);
      page.rows[idx] := e;
      page.size := page.size + 1;
      assert page.rows[..idx] == es[..idx] && page.rows[idx + 1..page.size] == es[idx..];
      assert Entries() == page.rows[..idx] + [page.rows[idx]] + page.rows[idx + 1..page.size];
    }

    method RemoveAndDeleteRecord(key: Key) returns (n: nat)
      requires Valid() && Increasing(Entries())
      modifies page, page.rows
      ensures Valid() && Entries() == LeafRemove(old(Entries()), key) && n == |Entries()|
    {
      var idx := KeyIndex(key);
      if idx >= page.size { return page.size; }
      assert page.rows[idx] == Entries()[idx];
      if page.rows[idx].key < key || key < page.rows[idx].key { return page.size; }
      ghost var es := Entries();
      page.ShiftDown(idx);
      page.size := page.size - 1;
      n := page.size;
      assert page.rows[..idx] == es[..idx] && page.rows[idx..n] == es[idx + 1..];
      assert Entries() == page.rows[..idx] + page.rows[idx..n];
    }

    // Two pages of the same tree share nothing.
    ghost predicate Apart(other: LeafPage)
      reads this, page, other, other.page
    {
      && Valid() && other.Valid() && other != this
      && page != other.page && page.rows != other.page.rows
    }

    method MoveHalfTo(recipient: LeafPage)
      requires Apart(recipient) && page.size <= recipient.page.rows.Length
      modifies page`size, recipient.page, recipient.page.rows
      ensures Valid() && recipient.Valid()
      ensures var es := old(Entries()); Entries() == es[..|es| / 2] && recipient.Entries() == es[|es| / 2..]
    {
      var split := page.size / 2;
      ghost var es := Entries();
      page.CopyTo(recipient.page, split, 0);
      recipient.page.size := page.size - split;
      page.size := split;
      assert recipient.Entries() == es[split..];
    }

    /** Merging also takes this page out of the leaf chain. */
    method MoveAllTo(recipient: LeafPage)
      requires Apart(recipient) && page.size + recipient.page.size <= recipient.page.rows.Length
      modifies this`next, page`size, recipient`next, recipient.page, recipient.page.rows
      ensures Valid() && recipient.Valid()
      ensures recipient.Entries() == old(recipient.Entries()) + old(Entries()) && Entries() == []
      ensures recipient.next == old(next) && next == INVALID
    {
      var rsz := recipient.page.size;
      ghost var es, rs := Entries(), recipient.Entries();
      page.CopyTo(recipient.page, 0, rsz);
      recipient.page.size := rsz + page.size;
      recipient.next := next;
      page.size := 0;
      next := INVALID;
      assert recipient.Entries() == rs + es;
    }

    // Borrowing from an empty page is an error (ok == false) and changes nothing.
    method MoveFirstToEndOf(recipient: LeafPage) returns (ok: bool)
      requires Apart(recipient) && recipient.page.size < recipient.page.rows.Length
      modifies page, page.rows, recipient.page, recipient.page.rows
      ensures Valid() && recipient.Valid() && ok == (old(Entries()) != [])
      ensures var es, rs := old(Entries()), old(recipient.Entries());
        if ok then Entries() == es[1..] && recipient.Entries() == rs + [es[0]]
        else Entries() == es && recipient.Entries() == rs
    {
      if page.size == 0 { return false; }
      ok := true;
      var rsz := recipient.page.size;
      ghost var es, rs := Entries(), recipient.Entries();
      recipient.page.rows[rsz] := page.rows[0];
      recipient.page.size := rsz + 1;
      page.ShiftDown(0);
      page.size := page.size - 1;
      assert recipient.Entries() == rs + [es[0]];
      assert Entries() == es[1..];
    }

    method MoveLastToFrontOf(recipient: LeafPage) returns (ok: bool)
      requires Apart(recipient) && recipient.page.size < recipient.page.rows.Length
      modifies page`size, recipient.page, recipient.page.rows
      ensures Valid() && recipient.Valid() && ok == (old(Entries()) != [])
      ensures var es, rs := old(Entries()), old(recipient.Entries());
        if ok then Entries() == es[..|es| - 1] && recipient.Entries() == [es[|es| - 1]] + rs
        else Entries() == es && recipient.Entries() == rs
    {
      if page.size == 0 { return false; }
      ok := true;
      ghost var es, rs := Entries(), recipient.Entries();
      recipient.page.PushFront(page.rows[page.size - 1]);
      page.size := page.size - 1;
      assert Entries() == es[..|es| - 1];
    }
  }

  class InternalPage {
    const page: Page<PageId>

    constructor (maxSize: nat)
      ensures Valid() && fresh(page) && fresh(page.rows) && page.rows.Length == maxSize + 1 && Slots() == []
    {
      page := new Page<PageId>(maxSize, Entry(0, INVALID));
    }

    ghost predicate Valid() reads this, page { page.Valid() }

    ghost function Slots(): seq<Entry<PageId>>
      requires Valid()
      reads this, page, page.rows
    {
      page.View()
    }

    ghost predicate Apart(other: InternalPage)
      reads this, page, other, other.page
    {
      && Valid() && other.Valid() && other != this
      && page != other.page && page.rows != other.page.rows
    }

    method FindChild(child: PageId) returns (r: int)
      requires Valid()
      ensures r == ValueIndex(Slots(), child)
    {
      ghost var slots := Slots();
      for i := 0 to page.size
        invariant ValueIndex(slots[i..], child) == if HasChild(slots, child) then ValueIndex(slots, child) - i else -1
        invariant HasChild(slots, child) ==> i <= ValueIndex(slots, child)
      {
        assert slots[i..][0] == page.rows[i] && slots[i..][1..] == slots[i + 1..];
        if page.rows[i].val == child { return i; }
      }
      assert slots[page.size..] == [];
      return -1;
    }

    /** The routing loop: slot 0 unless later separators are not above the key. */
    method Lookup(key: Key) returns (child: PageId)
      requires Valid() && page.size > 0
      ensures child == Slots()[Route(Slots(), key)].val
    {
      child := page.rows[0].val;
      ghost var slots := Slots();
      var i := 1;
      while i < page.size
        invariant 1 <= i <= page.size && child == slots[i - 1].val
        invariant Route(slots, key) == RouteFrom(slots, key, i)
      {
        if key < page.rows[i].key { break; }
        child := page.rows[i].val;
        i := i + 1;
      }
    }

    method PopulateNewRoot(left: PageId, key: Key, right: PageId)
      requires Valid() && page.rows.Length >= 2
      modifies page`size, page.rows
      ensures Valid() && Slots() == [Entry(old(page.rows[0]).key, left), Entry(key, right)]
    {
      page.size := 2;
      page.rows[0] := Entry(page.rows[0].key, left);
      page.rows[1] := Entry(key, right);
    }

    method PutSlot(at: nat, e: Entry<PageId>)
      requires Valid() && at <= page.size < page.rows.Length
      modifies page`size, page.rows
      ensures Valid() && Slots() == old(Slots())[..at] + [e] + old(Slots())[at..]
    {
      ghost var s := Slots();
      page.ShiftUp(at);
      page.rows[at] := e;
      page.size := page.size + 1;
      assert Slots()[..at] == s[..at] && Slots()[at + 1..] == s[at..];
    }

    // False, and nothing changes, if the left page is not a child.
    method InsertNodeAfter(left: PageId, key: Key, right: PageId) returns (ok: bool)
      requires Valid() && page.size < page.rows.Length
      modifies page`size, page.rows
      ensures Valid() && ok == HasChild(old(Slots()), left)
      ensures var s := old(Slots()); Slots() == if ok then InsertSlot(s, ValueIndex(s, left), key, right) else s
    {
      var idx := FindChild(left);
      if idx < 0 { return false; }
      PutSlot(idx + 1, Entry(key, right));
      return true;
    }

    method Remove(index: int) returns (ok: bool)
      requires Valid()
      modifies page`size, page.rows
      ensures Valid() && ok == (0 <= index < |old(Slots())|)
      ensures Slots() == if ok then RemoveSlot(old(Slots()), index) else old(Slots())
    {
      if index < 0 || index >= page.size { return false; }
      ghost var s := Slots();
      page.ShiftDown(index);
      page.size := page.size - 1;
      assert Slots() == s[..index] + s[index + 1..];
      return true;
    }

    method RemoveAndReturnOnlyChild() returns (r: Option<PageId>)
      requires Valid()
      modifies page`size
      ensures Valid()
      ensures if |old(Slots())| == 1 then r == Some(old(Slots())[0].val) && Slots() == []
        else r == None && Slots() == old(Slots())
    {
      if page.size != 1 { return None; }
      r := Some(page.rows[0].val);
      page.size := 0;
    }

    method MoveAllTo(recipient: InternalPage, middle: Key)
      requires Apart(recipient) && page.size + recipient.page.size <= recipient.page.rows.Length
      modifies page`size, recipient.page`size, recipient.page.rows
      ensures Valid() && recipient.Valid() && Slots() == []
      ensures var s, r := old(Slots()), old(recipient.Slots());
        recipient.Slots() == if s == [] then r else Joined(r, middle, s)
    {
      var rsz := recipient.page.size;
      if page.size == 0 { return; }
      ghost var s, r := Slots(), recipient.Slots();
      recipient.page.rows[rsz] := Entry(middle, page.rows[0].val);
      page.CopyTo(recipient.page, 1, rsz + 1);
      recipient.page.size := rsz + page.size;
      page.size := 0;
      assert recipient.Slots() == r + [Entry(middle, s[0].val)] + s[1..];
    }

    method MoveHalfTo(recipient: InternalPage, middle: Key)
      requires Apart(recipient) && page.size <= recipient.page.rows.Length
      modifies page`size, recipient.page`size, recipient.page.rows
      ensures Valid() && recipient.Valid()
      ensures var s := old(Slots()); var m := |s| / 2;
        if |s| <= 1 then Slots() == s && recipient.Slots() == []
        else Slots() == s[..m] && recipient.Slots() == UpperHalf(s, m, middle)
    {
      if page.size <= 1 {
        recipient.page.size := 0;
        return;
      }
      ghost var s := Slots();
      var split := page.size / 2;
      recipient.page.rows[0] := Entry(middle, page.rows[split].val);
      page.CopyTo(recipient.page, split + 1, 1);
      recipient.page.size := page.size - split;
      page.size := split;
      assert recipient.Slots() == [Entry(middle, s[split].val)] + s[split + 1..];
    }

    // Slot 0 keeps its meaningless key: only the child moves down, then the rows behind it.
    method MoveFirstToEndOf(recipient: InternalPage, middle: Key) returns (ok: bool)
      requires Apart(recipient) && recipient.page.size < recipient.page.rows.Length
      modifies page`size, page.rows, recipient.page`size, recipient.page.rows
      ensures Valid() && recipient.Valid() && ok == (old(Slots()) != [])
      ensures var s, r := old(Slots()), old(recipient.Slots());
        if ok then recipient.Slots() == r + [Entry(middle, s[0].val)]
                 && Slots() == if |s| == 1 then [] else WithoutFirst(s)
        else Slots() == s && recipient.Slots() == r
    {
      if page.size == 0 { return false; }
      ok := true;
      ghost var s, r := Slots(), recipient.Slots();
      recipient.page.rows[recipient.page.size] := Entry(middle, page.rows[0].val);
      recipient.page.size := recipient.page.size + 1;
      assert recipient.Slots() == r + [Entry(middle, s[0].val)];
      if page.size == 1 {
        page.size := 0;
        return;
      }
      page.rows[0] := Entry(page.rows[0].key, page.rows[1].val);
      page.ShiftDown(1);
      page.size := page.size - 1;
      assert Slots() == [Entry(s[0].key, s[1].val)] + s[2..];
    }

    // The shift starts one row beyond the last, so the array must have room for two more rows.
    method MoveLastToFrontOf(recipient: InternalPage, middle: Key) returns (ok: bool)
      requires Apart(recipient) && recipient.page.size + 1 < recipient.page.rows.Length
      modifies page`size, recipient.page`size, recipient.page.rows
      ensures Valid() && recipient.Valid() && ok == (old(Slots()) != [])
      ensures var s, r := old(Slots()), old(recipient.Slots()); var n := |s| - 1;
        && (!ok ==> Slots() == s && recipient.Slots() == r)
        && (ok ==> Slots() == s[..n])
        && (ok && r == [] ==> |recipient.Slots()| == 1 && recipient.Slots()[0].val == s[n].val)
        && (ok && r != [] ==> recipient.Slots() == WithNewFirst(r, s[n].val, middle))
    {
      if page.size == 0 { return false; }
      ok := true;
      ghost var s, r := Slots(), recipient.Slots();
      var moved := page.rows[page.size - 1].val;
      page.size := page.size - 1;
      assert Slots() == s[..|s| - 1];
      var rsz := recipient.page.size;
      if rsz == 0 {
        recipient.page.rows[0] := Entry(recipient.page.rows[0].key, moved);
        recipient.page.size := 1;
        return;
      }
      var first := recipient.page.rows[0];
      recipient.page.rows[rsz + 1] := recipient.page.rows[rsz];
      recipient.page.ShiftUp(0);
      recipient.page.rows[0] := Entry(first.key, moved);
      recipient.page.rows[1] := Entry(middle, first.val);
      recipient.page.size := rsz + 1;
      assert recipient.Slots() == [Entry(r[0].key, moved), Entry(middle, r[0].val)] + r[1..];
    }
  }
}
