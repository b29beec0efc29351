/** Scans of a stored table: the sequential scan, the building of an index, and the index scan. */
module Scans {
  import opened Wrappers
  import opened Rids
  import opened Values
  import opened Expressions
  import opened Pulls
  import TablePage
  import H = TableHeap
  import opened Tuples
  import P = Plans
  import Optimizer

  // ---------- The rows of a table ----------

  // The columns of every stored tuple can be read.
  predicate AllReadable(types: seq<Type>, es: seq<H.Entry>) {
    forall i {:trigger es[i]} :: 0 <= i < |es| ==> Readable(types, es[i].1)
  }

  /** The rows of the stored tuples, with their identifiers. */
  function RowsOf(types: seq<Type>, es: seq<H.Entry>): (rows: seq<P.Entry>)
    requires AllReadable(types, es)
    ensures |rows| == |es| && forall i :: 0 <= i < |es| ==> rows[i] == (es[i].0, Deserialize(types, es[i].1))
  {
    seq(|es|, i requires 0 <= i < |es| => (es[i].0, Deserialize(types, es[i].1)))
  }

  lemma ReadableTail(types: seq<Type>, es: seq<H.Entry>)
    requires AllReadable(types, es) && es != []
    ensures AllReadable(types, es[1..]) && RowsOf(types, es)[1..] == RowsOf(types, es[1..])
  {
    assert forall i :: 0 <= i < |es| - 1 ==> es[1..][i] == es[i + 1];
  }

  lemma {:induction false} RidsWithMore(heap: seq<P.Entry>, e: P.Entry, c: nat, key: Int32)
    ensures P.RidsWith(heap + [e], c, key) == P.RidsWith(heap, c, key) + if At(e.1, c) == Some(IntV(key)) then [e.0] else []
  {
    if heap == [] {
      assert heap + [e] == [e];
    } else {
      assert (heap + [e])[1..] == heap[1..] + [e];
      RidsWithMore(heap[1..], e, c, key);
    }
  }

  class StoredTable {
    const name: string
    const types: seq<Type>
    const heap: H.TableHeap

    constructor (name: string, types: seq<Type>, heap: H.TableHeap)
      ensures this.name == name && this.types == types && this.heap == heap
    {
      this.name, this.types, this.heap := name, types, heap;
    }

    ghost predicate Valid()
      reads this, heap
    {
      heap.Valid() && AllReadable(types, heap.Contents())
    }

    /** The table as a value: its rows in heap order. */
    ghost function Rows(): seq<P.Entry>
      requires Valid()
      reads this, heap
    {
      RowsOf(types, heap.Contents())
    }

    // The rows an iterator has still to visit.
    ghost function RowsFrom(rid: RID): seq<P.Entry>
      requires Valid() && H.Standing(heap.pages, heap.chain, rid) && AllReadable(types, H.Rest(heap.pages, heap.chain, rid))
      reads this, heap
    {
      RowsOf(types, H.Rest(heap.pages, heap.chain, rid))
    }

    // An iterator on the table.
    ghost predicate On(rid: RID)
      requires Valid()
      reads this, heap
    {
      H.Standing(heap.pages, heap.chain, rid) && AllReadable(types, H.Rest(heap.pages, heap.chain, rid))
    }

    method Begin() returns (rid: RID)
      requires Valid()
      ensures On(rid) && RowsFrom(rid) == Rows()
    {
      rid := heap.Begin();
    }

    // The row an iterator stands on, and the next place.
    method Take(rid: RID, ghost rows: seq<P.Entry>, ghost n: nat) returns (row: Row, next: RID)
      requires Valid() && On(rid) && rid != H.END && n <= |rows| && RowsFrom(rid) == rows[n..]
      ensures n < |rows| && rows[n] == (rid, row) && On(next) && RowsFrom(next) == rows[n + 1..]
      ensures |row| == |types| && forall c :: 0 <= c < |types| ==> TypeIn(row[c]) == types[c] && !row[c].NullV?
    {
      var t := heap.GetTuple(rid);
      next := heap.Advance(rid);
      ghost var rest := H.Rest(heap.pages, heap.chain, rid);
      ReadableTail(types, rest);
      assert rest[0] == (rid, t);
      row := Deserialize(types, t);
      assert rows[n..][0] == rows[n] && rows[n..][1..] == rows[n + 1..];
    }
  }

  // ---------- The sequential scan ----------

  class SeqScan {
    const table: StoredTable
    const pred: Option<Expr>
    var iter: RID

    constructor (table: StoredTable, pred: Option<Expr>)
      ensures this.table == table && this.pred == pred
    {
      this.table, this.pred := table, pred;
      iter := H.END;
    }

    ghost predicate Valid()
      reads this, table, table.heap
    {
      table.Valid() && table.On(iter)
    }

    ghost function Todo(): seq<P.Entry>
      requires Valid()
      reads this, table, table.heap
    {
      table.RowsFrom(iter)
    }

    method Init()
      requires table.Valid()
      modifies this
      ensures Valid() && Todo() == table.Rows()
    {
      iter := table.Begin();
    }

    /** Skips rows until one passes the predicate. */
    method Next() returns (r: Pulled<Row>)
      requires Valid()
      modifies this
      ensures Valid() && (r, Todo()) == Pull(old(Todo()), P.ScanStep(pred))
    {
      ghost var f := P.ScanStep(pred);
      while iter != H.END
        invariant Valid() && Pull(old(Todo()), f) == Pull(Todo(), f)
        decreases |Todo()|
      {
        ghost var todo := Todo();
        assert todo[0..] == todo;
        var row, next := table.Take(iter, todo, 0);
        iter := next;
        match Passes(pred, One(row)) {
          case None => return Error;
          case Some(true) => return Got(row);
          case Some(false) =>
        }
      }
      r := End;
    }
  }

  // ---------- Building an index ----------

  // The entries hold the identifiers of the first n rows, key by key and in order.
  ghost predicate Holds(entries: map<Int32, seq<RID>>, rows: seq<P.Entry>, n: nat, c: nat)
    requires n <= |rows|
  {
    forall key {:trigger P.RidsOf(entries, key)} :: P.RidsOf(entries, key) == P.RidsWith(rows[..n], c, key)
  }

  /** Each key's identifiers, in the order the heap is iterated. */
  method BuildIndex(table: StoredTable, c: nat) returns (entries: map<Int32, seq<RID>>)
    requires table.Valid() && c < |table.types| && table.types[c] == Integer
    ensures Holds(entries, table.Rows(), |table.Rows()|, c)
  {
    ghost var rows, n := table.Rows(), 0;
    var it := StartIndex(table, rows);
    entries := map[];
    NoEntries(rows, c);
    while it != H.END
      invariant n <= |rows| && table.On(it) && table.RowsFrom(it) == rows[n..] && Holds(entries, rows, n, c)
      invariant it == H.END ==> n == |rows|
      decreases |rows| - n
    {
      entries, it := IndexRow(table, c, entries, it, rows, n);
      n := n + 1;
    }
  }

  method StartIndex(table: StoredTable, ghost rows: seq<P.Entry>) returns (it: RID)
    requires table.Valid() && rows == table.Rows()
    ensures table.On(it) && table.RowsFrom(it) == rows[0..] && (it == H.END ==> rows == [])
  {
    it := table.Begin();
    assert rows[0..] == rows;
  }

  // Enters the row an iterator stands on and moves it on.
  method IndexRow(table: StoredTable, c: nat, entries: map<Int32, seq<RID>>, it: RID, ghost rows: seq<P.Entry>, ghost n: nat)
    returns (more: map<Int32, seq<RID>>, next: RID)
    requires table.Valid() && c < |table.types| && table.types[c] == Integer && table.On(it) && it != H.END
    requires n <= |rows| && table.RowsFrom(it) == rows[n..] && Holds(entries, rows, n, c)
    ensures n < |rows| && table.On(next) && table.RowsFrom(next) == rows[n + 1..] && Holds(more, rows, n + 1, c)
    ensures next == H.END ==> n + 1 == |rows|
  {
    var row;
    row, next := table.Take(it, rows, n);
    more := InsertEntry(entries, row[c].i, it, rows, n, c);
  }

  method InsertEntry(entries: map<Int32, seq<RID>>, key: Int32, rid: RID, ghost rows: seq<P.Entry>, ghost n: nat, ghost c: nat)
    returns (next: map<Int32, seq<RID>>)
    requires n < |rows| && rows[n].0 == rid && At(rows[n].1, c) == Some(IntV(key)) && Holds(entries, rows, n, c)
    ensures Holds(next, rows, n + 1, c)
  {
    AddEntry(entries, rows, n, c, key);
    next := entries[key := P.RidsOf(entries, key) + [rid]];
  }

  lemma NoEntries(rows: seq<P.Entry>, c: nat)
    ensures Holds(map[], rows, 0, c)
  {
    assert rows[..0] == [];
  }

  lemma AddEntry(entries: map<Int32, seq<RID>>, rows: seq<P.Entry>, n: nat, c: nat, key: Int32)
    requires n < |rows| && At(rows[n].1, c) == Some(IntV(key)) && Holds(entries, rows, n, c)
    ensures Holds(entries[key := P.RidsOf(entries, key) + [rows[n].0]], rows, n + 1, c)
  {
    var next := entries[key := P.RidsOf(entries, key) + [rows[n].0]];
    forall k {:trigger P.RidsOf(next, k)} ensures P.RidsOf(next, k) == P.RidsWith(rows[..n + 1], c, k) {
      assert P.RidsOf(entries, k) == P.RidsWith(rows[..n], c, k);
      NextRids(rows, n, c, k);
    }
  }

  lemma NextRids(rows: seq<P.Entry>, n: nat, c: nat, k: Int32)
    requires n < |rows|
    ensures P.RidsWith(rows[..n + 1], c, k) == P.RidsWith(rows[..n], c, k) + if At(rows[n].1, c) == Some(IntV(k)) then [rows[n].0] else []
  {
    assert rows[..n + 1] == rows[..n] + [rows[n]];
    RidsWithMore(rows[..n], rows[n], c, k);
  }

  // ---------- The index scan ----------

  // Identifiers of rows of the table.
  ghost predicate AllLive(table: StoredTable, rids: seq<RID>)
    requires table.Valid()
    reads table, table.heap
  {
    forall i {:trigger rids[i]} :: 0 <= i < |rids| ==> P.HasRid(table.Rows(), rids[i])
  }

  class IndexScan {
    const table: StoredTable
    const point: bool
    const entries: map<Int32, seq<RID>>
    const key: Value
    const pred: Option<Expr>
    var rids: seq<RID>
    var cursor: nat

    constructor (table: StoredTable, point: bool, entries: map<Int32, seq<RID>>, key: Value, pred: Option<Expr>)
      ensures this.table == table && this.point == point && this.entries == entries && this.key == key && this.pred == pred
    {
      this.table, this.point, this.entries, this.key, this.pred := table, point, entries, key, pred;
      rids, cursor := [], 0;
    }

    ghost predicate Valid()
      reads this, table, table.heap
    {
      table.Valid() && cursor <= |rids| && AllLive(table, rids)
    }

    // The identifiers an integer key stands for.
    function Matching(): seq<RID> {
      if point && key.IntV? then P.RidsOf(entries, key.i) else []
    }

    method Init()
      requires table.Valid() && AllLive(table, Matching())
      modifies this
      ensures Valid() && rids[cursor..] == Matching()
    {
      rids, cursor := [], 0;
      if !point || !key.IntV? { return; }
      if key.i !in entries { return; }
      rids := entries[key.i];
    }

    /** Fetches rows until one passes the predicate. */
    method Next() returns (r: Pulled<Row>)
      requires Valid()
      modifies this`cursor
      ensures Valid() && (r, rids[cursor..]) == Pull(old(rids[cursor..]), P.FetchStep(table.Rows(), pred))
    {
      ghost var f := P.FetchStep(table.Rows(), pred);
      ghost var start := rids[cursor..];
      while cursor < |rids|
        invariant Valid() && Pull(start, f) == Pull(rids[cursor..], f)
      {
        ghost var todo := rids[cursor..];
        var rid := rids[cursor];
        assert todo[0] == rid && todo[1..] == rids[cursor + 1..];
        var step := Try(rid, cursor);
        cursor := cursor + 1;
        match step {
          case Fail => return Error;
          case Emit(row) => return Got(row);
          case Skip =>
        }
      }
      r := End;
    }

    // One fetched row against the predicate.
    method Try(rid: RID, ghost i: nat) returns (step: Step<Row>)
      requires Valid() && i < |rids| && rids[i] == rid
      ensures step == P.FetchStep(table.Rows(), pred)(rid)
    {
      assert P.HasRid(table.Rows(), rids[i]);
      var row := Fetch(rid);
      step := P.Filtered(pred, row);
    }

    method Fetch(rid: RID) returns (row: Row)
      requires table.Valid() && P.HasRid(table.Rows(), rid)
      ensures row == P.RowAt(table.Rows(), rid)
    {
      ghost var es := table.heap.Contents();
      ghost var i :| 0 <= i < |es| && table.Rows()[i].0 == rid;
      LiveRow(table, i);
      var t := table.heap.GetTuple(rid);
      H.StandingRecord(table.heap.pages, table.heap.chain, rid);
      row := Deserialize(table.types, t);
    }
  }

  // A row of the table, found by its identifier.
  lemma LiveRow(table: StoredTable, i: nat)
    requires table.Valid() && i < |table.heap.Contents()|
    ensures var e := table.heap.Contents()[i]; var h := table.heap;
      && H.InChain(h.chain, e.0.page) && H.IsLive(h.pages, e.0) && e.0 != H.END
      && TablePage.Records(h.pages[e.0.page])[e.0.slot] == e.1
      && P.RowAt(table.Rows(), e.0) == table.Rows()[i].1
  {
    var h := table.heap;
    var k := H.EntriesAt(h.pages, h.chain, i);
    assert H.InChain(h.chain, h.chain[k]);
    RowsDistinct(table);
    P.RowAtIs(table.Rows(), i);
  }

  lemma RowsDistinct(table: StoredTable)
    requires table.Valid()
    ensures forall i, j :: 0 <= i < j < |table.Rows()| ==> table.Rows()[i].0 != table.Rows()[j].0
  {
    var h := table.heap;
    forall i, j | 0 <= i < j < |table.Rows()| ensures table.Rows()[i].0 != table.Rows()[j].0 {
      H.VisitedOnce(h.pages, h.chain, i, j);
    }
  }

  // ---------- The two scans ----------

  /** The table as the planner's catalog sees it. */
  ghost function AsTable(table: StoredTable): P.Table
    requires table.Valid()
    reads table, table.heap
  {
    P.Table(table.name, table.types, table.Rows())
  }

  lemma TableOK(table: StoredTable)
    requires table.Valid()
    ensures P.HeapOK(AsTable(table))
  {
    RowsDistinct(table);
  }

  /** While the table is as it was when the index was built, the index scan for an integer returns the rows of
      the filtered sequential scan in the same order, and neither raises an error. */
  lemma ScansAgree(table: StoredTable, c: nat, entries: map<Int32, seq<RID>>, pred: Expr, key: Int32)
    requires table.Valid() && c < |table.types| && table.types[c] == Integer
    requires Holds(entries, table.Rows(), |table.Rows()|, c)
    requires pred.Comparing? && pred.op == Equal && Optimizer.LookupIn(pred.left, pred.right) == Some(Optimizer.Lookup(c, Constant(IntV(key))))
    ensures var rows := Collect(table.Rows(), P.ScanStep(Some(pred)));
      && rows.Some? && AllLive(table, P.RidsOf(entries, key))
      && Collect(P.RidsOf(entries, key), P.FetchStep(table.Rows(), Some(pred))) == rows
  {
    TableOK(table);
    var x := P.Index(table.name, [c], true, entries);
    assert table.Rows()[..|table.Rows()|] == table.Rows();
    assert P.IndexCurrent(AsTable(table), x);
    Optimizer.SameScan(AsTable(table), x, pred, key);
    var rids := P.RidsOf(entries, key);
    forall i {:trigger rids[i]} | 0 <= i < |rids| ensures P.HasRid(table.Rows(), rids[i]) {
      var j := P.RidsWithLive(table.Rows(), c, key, i);
    }
  }
}
