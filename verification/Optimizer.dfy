/** The optimizer's rewrites, and that they keep what a plan returns. */
module Optimizer {
  import opened Wrappers
  import opened Values
  import opened Expressions
  import opened Bags
  import opened Pulls
  import opened Joins
  import opened Plans

  // ---------- The two rules ----------

  datatype Lookup = Lookup(col: nat, key: Expr)

  // A column compared with a constant, in either order.
  function LookupIn(l: Expr, r: Expr): Option<Lookup> {
    if l.Column? && r.Constant? then Some(Lookup(l.col, r))
    else if r.Column? && l.Constant? then Some(Lookup(r.col, l))
    else None
  }

  predicate Serves(cat: Catalog, index: nat, col: nat) {
    index in cat.indexes && cat.indexes[index].point && cat.indexes[index].attrs != [] && cat.indexes[index].attrs[0] == col
  }

  /** The first index of the list that supports lookups on the column. */
  function FirstServing(cat: Catalog, list: seq<nat>, col: nat): (r: Option<nat>)
    ensures r.Some? ==> r.value in list && Serves(cat, r.value, col)
    decreases list
  {
    if list == [] then None
    else if Serves(cat, list[0], col) then Some(list[0])
    else FirstServing(cat, list[1..], col)
  }

  function IndexList(cat: Catalog, name: string): seq<nat> {
    if name in cat.byTable then cat.byTable[name] else []
  }

  /** A sequential scan filtered by a column equal to a constant becomes an index scan, if some index serves
      the column. */
  function ToIndexScan(catalog: Option<Catalog>, p: Plan): Plan {
    match (catalog, p.node)
    case (Some(cat), SeqScan(t, Some(Comparing(Equal, l, r)))) =>
      (match LookupIn(l, r)
       case None => p
       case Some(lookup) =>
         if t !in cat.tables then p
         else match FirstServing(cat, IndexList(cat, cat.tables[t].name), lookup.col)
           case None => p
           case Some(index) => Plan(IndexScan(t, index, lookup.key, p.node.pred), []))
    case _ => p
  }

  /** A nested-loop join on the equality of a left and a right column becomes a hash join. */
  function ToHashJoin(p: Plan): Plan {
    match p.node
    case NestedLoop(Some(Comparing(Equal, Column(0, i), Column(1, j)))) => Plan(Hash(Column(0, i), Column(0, j)), p.children)
    case NestedLoop(Some(Comparing(Equal, Column(1, i), Column(0, j)))) => Plan(Hash(Column(0, j), Column(0, i)), p.children)
    case _ => p
  }

  /** Children first, then the rules at the node. */
  function Optimized(catalog: Option<Catalog>, p: Plan): Plan
    decreases p
  {
    ToHashJoin(ToIndexScan(catalog, Plan(p.node, OptimizedAll(catalog, p))))
  }

  function OptimizedAll(catalog: Option<Catalog>, p: Plan): (cs: seq<Plan>)
    ensures |cs| == |p.children| && forall i :: 0 <= i < |cs| ==> cs[i] == Optimized(catalog, p.children[i])
    decreases p, 0
  {
    seq(|p.children|, i requires 0 <= i < |p.children| => Optimized(catalog, p.children[i]))
  }

  // ---------- When the rules apply ----------

  lemma {:induction false} ServingFound(cat: Catalog, list: seq<nat>, col: nat, index: nat)
    requires index in list && Serves(cat, index, col)
    ensures FirstServing(cat, list, col).Some?
  {
    if !Serves(cat, list[0], col) {
      assert index in list[1..];
      ServingFound(cat, list[1..], col, index);
    }
  }

  /** A scan is rewritten exactly when it filters by a column equal to a constant and some index of its table
      serves the column. */
  lemma ScanRewritten(cat: Catalog, p: Plan)
    ensures ToIndexScan(Some(cat), p) != p <==>
      && p.node.SeqScan? && p.node.table in cat.tables && p.node.pred.Some?
      && p.node.pred.value.Comparing? && p.node.pred.value.op == Equal
      && var lookup := LookupIn(p.node.pred.value.left, p.node.pred.value.right);
        lookup.Some? && exists index :: index in IndexList(cat, cat.tables[p.node.table].name) && Serves(cat, index, lookup.value.col)
  {
    if p.node.SeqScan? && p.node.table in cat.tables && p.node.pred.Some? && p.node.pred.value.Comparing? {
      var lookup := LookupIn(p.node.pred.value.left, p.node.pred.value.right);
      var list := IndexList(cat, cat.tables[p.node.table].name);
      if lookup.Some? {
        forall index | index in list && Serves(cat, index, lookup.value.col) ensures FirstServing(cat, list, lookup.value.col).Some? {
          ServingFound(cat, list, lookup.value.col, index);
        }
      }
    }
  }

  // The key columns of a rewritten join: the left one and the right one.
  function JoinColumns(e: Expr): (nat, nat)
    requires e.Comparing? && e.left.Column? && e.right.Column?
  {
    if e.left.tuple == 0 then (e.left.col, e.right.col) else (e.right.col, e.left.col)
  }

  /** A join is rewritten exactly when its predicate equates a left and a right column. */
  lemma JoinRewritten(p: Plan)
    ensures ToHashJoin(p) != p <==> p.node.NestedLoop? && p.node.pred.Some? && exists lc, rc :: IsEquality(p.node.pred.value, lc, rc)
  {
    if ToHashJoin(p) != p {
      var e := p.node.pred.value;
      assert IsEquality(e, JoinColumns(e).0, JoinColumns(e).1);
    }
  }

  /** Both rules have been applied wherever they can: optimizing again changes nothing. */
  lemma {:induction false} OptimizedTwice(catalog: Option<Catalog>, p: Plan)
    ensures Optimized(catalog, Optimized(catalog, p)) == Optimized(catalog, p)
    decreases p
  {
    var cs := OptimizedAll(catalog, p);
    var q := Optimized(catalog, p);
    forall i | 0 <= i < |cs| ensures Optimized(catalog, cs[i]) == cs[i] { OptimizedTwice(catalog, p.children[i]); }
    assert q.children == cs || q.children == [];
    assert OptimizedAll(catalog, q) == q.children;
    assert Plan(q.node, q.children) == q;
  }

  class Optimizer {
    const catalog: Option<Catalog>

    constructor (catalog: Option<Catalog>)
      ensures this.catalog == catalog
    {
      this.catalog := catalog;
    }

    method Optimize(plan: Plan) returns (r: Plan)
      ensures r == Optimized(catalog, plan)
      decreases plan
    {
      r := plan;
      for i := 0 to |plan.children|
        invariant r.node == plan.node && |r.children| == |plan.children|
        invariant forall k :: 0 <= k < i ==> r.children[k] == Optimized(catalog, plan.children[k])
        invariant forall k :: i <= k < |plan.children| ==> r.children[k] == plan.children[k]
      {
        var child := Optimize(r.children[i]);
        r := Plan(r.node, r.children[i := child]);
      }
      assert r.children == OptimizedAll(catalog, plan);
      r := OptimizeSeqScanToIndexScan(r);
      r := ToHashJoin(r);
    }

    method OptimizeSeqScanToIndexScan(plan: Plan) returns (r: Plan)
      ensures r == ToIndexScan(catalog, plan)
    {
      r := plan;
      match (catalog, plan.node) {
        case (Some(cat), SeqScan(t, Some(Comparing(Equal, left, right)))) =>
          var lookup := LookupIn(left, right);
          if lookup == None || t !in cat.tables { return; }
          var list := IndexList(cat, cat.tables[t].name);
          for i := 0 to |list|
            invariant FirstServing(cat, list, lookup.value.col) == FirstServing(cat, list[i..], lookup.value.col)
          {
            if Serves(cat, list[i], lookup.value.col) {
              return Plan(IndexScan(t, list[i], lookup.value.key, plan.node.pred), []);
            }
          }
        case _ =>
      }
    }
  }

  // ---------- Equivalent plans ----------

  /** If the second run raises no error, then neither does the first, and it returns the same rows up to their
      order. */
  predicate Below(o: Outcome<Row>, o': Outcome<Row>) {
    o'.Ok() ==> o.Ok() && multiset(o.rows) == multiset(o'.rows)
  }

  /** Either both raise an error, or both return the same rows up to their order. */
  predicate Alike(o: Outcome<Row>, o': Outcome<Row>) {
    Below(o, o') && Below(o', o)
  }

  /** Whatever the two plans come to, they raise an error together, and otherwise return the same rows up to
      their order. */
  ghost predicate Equivalent(cat: Catalog, p: Plan, q: Plan) {
    forall o, o' :: Yields(cat, p, o) && Yields(cat, q, o') ==> Alike(o, o')
  }

  // ---------- Sequential scan to index scan ----------

  // What a typed equality of an integer column and a constant tests.
  lemma EqualityTests(pred: Expr, c: nat, key: Value, row: Row)
    requires pred.Comparing? && pred.op == Equal && LookupIn(pred.left, pred.right) == Some(Lookup(c, Constant(key)))
    requires c < |row| && row[c].IntV? && TypeIn(key) == Integer
    ensures Passes(Some(pred), One(row)) == Some(row[c] == Payload(key))
  {
    assert Eval(pred.left, One(row)).Some? && Eval(pred.right, One(row)).Some?;
    assert Eval(pred, One(row)) == BoolValue(Some(row[c] == Payload(key)));
  }

  // Scanning rows on from place i, or fetching the rows of theirs that hold the key.
  lemma {:induction false} IndexedEmits(heap: seq<Entry>, pred: Option<Expr>, c: nat, key: Int32, i: nat)
    requires i <= |heap| && forall j, k :: 0 <= j < k < |heap| ==> heap[j].0 != heap[k].0
    requires forall j :: 0 <= j < |heap| ==> Passes(pred, One(heap[j].1)) == Some(At(heap[j].1, c) == Some(IntV(key)))
    ensures Emitted(heap[i..], ScanStep(pred)) == Emitted(RidsWith(heap[i..], c, key), FetchStep(heap, pred))
    decreases |heap| - i
  {
    if i < |heap| {
      IndexedEmits(heap, pred, c, key, i + 1);
      var rest, rids := heap[i..], RidsWith(heap[i..], c, key);
      assert rest[0] == heap[i] && rest[1..] == heap[i + 1..];
      RowAtIs(heap, i);
      if At(heap[i].1, c) == Some(IntV(key)) {
        assert rids[0] == heap[i].0 && rids[1..] == RidsWith(heap[i + 1..], c, key);
        assert FetchStep(heap, pred)(rids[0]) == Emit(heap[i].1);
        assert ScanStep(pred)(rest[0]) == Emit(heap[i].1);
      } else {
        assert ScanStep(pred)(rest[0]) == Skip;
        assert rids == RidsWith(heap[i + 1..], c, key);
      }
    }
  }

  lemma FetchesPass(heap: seq<Entry>, pred: Option<Expr>, c: nat, key: Int32)
    requires forall j, k :: 0 <= j < k < |heap| ==> heap[j].0 != heap[k].0
    requires forall j :: 0 <= j < |heap| ==> Passes(pred, One(heap[j].1)) == Some(At(heap[j].1, c) == Some(IntV(key)))
    ensures NoneFails(heap, ScanStep(pred)) && NoneFails(RidsWith(heap, c, key), FetchStep(heap, pred))
  {
    var rids, f := RidsWith(heap, c, key), FetchStep(heap, pred);
    forall i | 0 <= i < |rids| ensures f(rids[i]) != Fail {
      var j := RidsWithLive(heap, c, key, i);
      RowAtIs(heap, j);
      assert f(rids[i]) == Filtered(pred, heap[j].1);
    }
  }

  /** On a current index, the index scan for a non-null integer returns exactly the rows of the filtered
      sequential scan, in the same order. */
  lemma SameScan(t: Table, x: Index, pred: Expr, key: Int32)
    requires HeapOK(t) && IndexCurrent(t, x) && x.point
    requires pred.Comparing? && pred.op == Equal && LookupIn(pred.left, pred.right) == Some(Lookup(x.attrs[0], Constant(IntV(key))))
    ensures var rids := RidsOf(x.entries, key);
      && Collect(t.heap, ScanStep(Some(pred))).Some?
      && Collect(rids, FetchStep(t.heap, Some(pred))) == Collect(t.heap, ScanStep(Some(pred)))
  {
    var c := x.attrs[0];
    forall j | 0 <= j < |t.heap| ensures Passes(Some(pred), One(t.heap[j].1)) == Some(At(t.heap[j].1, c) == Some(IntV(key))) {
      var row := t.heap[j].1;
      assert Fits(row[c], StoredTypes(t.types)[c]);
      EqualityTests(pred, c, IntV(key), row);
    }
    var rids := RidsOf(x.entries, key);
    assert rids == RidsWith(t.heap, c, key);
    IndexedEmits(t.heap, Some(pred), c, key, 0);
    assert t.heap[0..] == t.heap;
    FetchesPass(t.heap, Some(pred), c, key);
    CollectEmits(t.heap, ScanStep(Some(pred)));
    CollectEmits(rids, FetchStep(t.heap, Some(pred)));
  }

  // A scan that tests for the zero payload of a null constant.
  lemma {:induction false} ZeroScan(heap: seq<Entry>, pred: Option<Expr>, c: nat)
    requires forall j :: 0 <= j < |heap| ==> Passes(pred, One(heap[j].1)) == Some(At(heap[j].1, c) == Some(IntV(0)))
    ensures Emitted(heap, ScanStep(pred)) == [] <==> forall j :: 0 <= j < |heap| ==> At(heap[j].1, c) != Some(IntV(0))
    ensures NoneFails(heap, ScanStep(pred))
  {
    if heap != [] {
      ZeroScan(heap[1..], pred, c);
      assert forall j :: 1 <= j < |heap| ==> heap[j] == heap[1..][j - 1];
    }
  }

  predicate NoZero(heap: seq<Entry>, c: nat) {
    forall j :: 0 <= j < |heap| ==> At(heap[j].1, c) != Some(IntV(0))
  }

  /** A rewritten scan: it tests a column of its table for a constant, and the index found serves the column. */
  ghost predicate ScanFacts(cat: Catalog, p: Plan, q: Plan) {
    && p.node.SeqScan? && p.children == [] && p.node.table in cat.tables && p.node.pred.Some?
    && var e, t := p.node.pred.value, cat.tables[p.node.table];
      && e.Comparing? && e.op == Equal && q.node.IndexScan? && q.node.lookup.Constant? && TypeIn(q.node.lookup.v) == Integer
      && q == Plan(IndexScan(p.node.table, q.node.index, q.node.lookup, p.node.pred), [])
      && q.node.index in cat.indexes && cat.indexes[q.node.index].point && cat.indexes[q.node.index].table == t.name
      && IndexCurrent(t, cat.indexes[q.node.index]) && HeapOK(t)
      && LookupIn(e.left, e.right) == Some(Lookup(cat.indexes[q.node.index].attrs[0], q.node.lookup))
  }

  lemma Rewritten(cat: Catalog, p: Plan)
    requires CatalogOK(cat) && SchemaOf(cat, p).Some? && ToIndexScan(Some(cat), p) != p
    ensures ScanFacts(cat, p, ToIndexScan(Some(cat), p))
  {
    var q, e, t := ToIndexScan(Some(cat), p), p.node.pred.value, cat.tables[p.node.table];
    assert ListOK(cat, t.name) && CurrentFor(cat, p.node.table, q.node.index);
    var ss := OneOf(StoredTypes(t.types));
    assert TypeOf(e.left, ss).Some? && TypeOf(e.right, ss).Some? && TypeOf(e.left, ss).value.ty == TypeOf(e.right, ss).value.ty;
  }

  // The plan comes to this and nothing else.
  ghost predicate ComesTo(cat: Catalog, p: Plan, o: Outcome<Row>) {
    Yields(cat, p, o) && forall o' :: Yields(cat, p, o') ==> o' == o
  }

  lemma OneRunEach(cat: Catalog, p: Plan, q: Plan, a: seq<Row>, b: seq<Row>)
    requires ComesTo(cat, p, Gave(a, true)) && ComesTo(cat, q, Gave(b, true))
    ensures Equivalent(cat, p, q) <==> multiset(a) == multiset(b)
  {
    var o, o' := Gave(a, true), Gave(b, true);
    assert Alike(o, o') <==> multiset(a) == multiset(b);
  }

  /** The constant the scan looks for is not null, or no row holds a zero in the column. */
  predicate NullHarmless(cat: Catalog, p: Plan, q: Plan) {
    q.node.IndexScan? && q.node.lookup.Constant? && p.node.SeqScan? && p.node.table in cat.tables && q.node.index in cat.indexes
    && cat.indexes[q.node.index].attrs != []
    && (q.node.lookup.v.IntV? || NoZero(cat.tables[p.node.table].heap, cat.indexes[q.node.index].attrs[0]))
  }

  // The runs of a rewritten scan: neither raises an error.
  lemma ScanRuns(cat: Catalog, p: Plan) returns (before: seq<Row>, after: seq<Row>)
    requires CatalogOK(cat) && SchemaOf(cat, p).Some? && ToIndexScan(Some(cat), p) != p
    ensures ComesTo(cat, p, Gave(before, true)) && ComesTo(cat, ToIndexScan(Some(cat), p), Gave(after, true))
    ensures ScanFacts(cat, p, ToIndexScan(Some(cat), p))
    ensures var key := ToIndexScan(Some(cat), p).node.lookup.v;
      if key.IntV? then after == before
      else after == [] && (before == [] <==> NullHarmless(cat, p, ToIndexScan(Some(cat), p)))
  {
    Rewritten(cat, p);
    var q, e, t := ToIndexScan(Some(cat), p).node, p.node.pred.value, cat.tables[p.node.table];
    var x, key := cat.indexes[q.index], q.lookup.v;
    if key.IntV? { SameScan(t, x, e, key.i); } else { NullScan(t, x, e); }
    before := Collect(t.heap, ScanStep(Some(e))).value;
    after := if key.IntV? then before else [];
    assert IndexOutcome(cat, p.node.table, q.index, q.lookup, p.node.pred) == Gave(after, true);
  }

  /** The rewrite of a scan keeps the returned rows exactly when the constant is not null or no row holds a
      zero in the column: a null compares like zero, but an index is never searched for it. */
  lemma IndexScanIff(cat: Catalog, p: Plan)
    requires CatalogOK(cat) && SchemaOf(cat, p).Some? && ToIndexScan(Some(cat), p) != p
    ensures ScanFacts(cat, p, ToIndexScan(Some(cat), p))
    ensures Equivalent(cat, p, ToIndexScan(Some(cat), p)) <==> NullHarmless(cat, p, ToIndexScan(Some(cat), p))
  {
    var before, after := ScanRuns(cat, p);
    OneRunEach(cat, p, ToIndexScan(Some(cat), p), before, after);
    assert multiset(before) == multiset([]) <==> before == [] by { assert |multiset(before)| == |before|; }
  }

  lemma NullScan(t: Table, x: Index, pred: Expr)
    requires HeapOK(t) && IndexCurrent(t, x) && x.point
    requires pred.Comparing? && pred.op == Equal && LookupIn(pred.left, pred.right) == Some(Lookup(x.attrs[0], Constant(NullV(Integer))))
    ensures var out := Collect(t.heap, ScanStep(Some(pred))); out.Some? && (out.value == [] <==> NoZero(t.heap, x.attrs[0]))
  {
    var c := x.attrs[0];
    forall j | 0 <= j < |t.heap| ensures Passes(Some(pred), One(t.heap[j].1)) == Some(At(t.heap[j].1, c) == Some(IntV(0))) {
      var row := t.heap[j].1;
      assert Fits(row[c], StoredTypes(t.types)[c]);
      EqualityTests(pred, c, NullV(Integer), row);
    }
    ZeroScan(t.heap, Some(pred), c);
    CollectEmits(t.heap, ScanStep(Some(pred)));
  }

  // ---------- Nested-loop join to hash join ----------

  lemma RewrittenJoin(cat: Catalog, p: Plan)
    requires SchemaOf(cat, p).Some? && ToHashJoin(p) != p
    ensures p.node.NestedLoop? && |p.children| == 2 && p.node.pred.Some?
    ensures var e := p.node.pred.value;
      && e.Comparing? && e.left.Column? && e.right.Column?
      && var (lc, rc) := JoinColumns(e);
        && IsEquality(e, lc, rc) && ToHashJoin(p) == Plan(Hash(Column(0, lc), Column(0, rc)), p.children)
        && var (sl, sr) := (SchemaOf(cat, p.children[0]).value, SchemaOf(cat, p.children[1]).value);
          lc < |sl| && rc < |sr| && sl[lc].ty == sr[rc].ty
  {
    var e, ss := p.node.pred.value, TwoOf(SchemaOf(cat, p.children[0]).value, SchemaOf(cat, p.children[1]).value);
    assert TypeOf(e.left, ss).Some? && TypeOf(e.right, ss).Some? && TypeOf(e.left, ss).value.ty == TypeOf(e.right, ss).value.ty;
  }

  /** The key columns are known to hold no nulls. */
  predicate KeysNonNull(cat: Catalog, p: Plan)
    requires p.node.NestedLoop? && |p.children| == 2
  {
    p.node.pred.Some? && p.node.pred.value.Comparing? && p.node.pred.value.left.Column? && p.node.pred.value.right.Column? ==>
      var (lc, rc) := JoinColumns(p.node.pred.value);
      match (SchemaOf(cat, p.children[0]), SchemaOf(cat, p.children[1]))
      case (Some(sl), Some(sr)) => lc < |sl| && rc < |sr| ==> sl[lc].nonNull && sr[rc].nonNull
      case _ => true
  }

  /** No pair of keys of these rows clashes. */
  predicate Meet(e: Expr, ls: seq<Row>, rs: seq<Row>)
    requires e.Comparing? && e.left.Column? && e.right.Column?
  {
    var (lc, rc) := JoinColumns(e);
    forall i, j :: 0 <= i < |ls| && 0 <= j < |rs| && lc < |ls[i]| && rc < |rs[j]| ==> !Clash(ls[i][lc], rs[j][rc])
  }

  /** The two joins of given children: when the hash join runs, the nested-loop join does, and they return the same
      rows exactly when no keys clash; the other way round only the right side of an empty left one matters. */
  lemma TwoJoins(l: Outcome<Row>, r: Outcome<Row>, sl: Schema, sr: Schema, pred: Expr, lc: nat, rc: nat)
    requires Fitting(l, sl) && Fitting(r, sr) && IsEquality(pred, lc, rc)
    requires lc < |sl| && rc < |sr| && sl[lc].ty == sr[rc].ty
    ensures var o, h := LoopOutcome(Some(pred), l, r), HashOutcome(Column(0, lc), Column(0, rc), l, r);
      && (h.Ok() <==> l.Ok() && r.Ok())
      && (o.Ok() <==> l.Ok() && r.Gave? && (l.rows == [] || r.ok))
      && (l.Ok() && r.Ok() ==> (multiset(o.rows) == multiset(h.rows) <==> Meet(pred, l.rows, r.rows)))
  {
    LoopJoinRows(Some(pred), l, r);
    if l.Gave? && r.Gave? {
      HashJoinIff(l.rows, r.rows, sl, sr, pred, lc, rc);
      assert NoClash(l.rows, r.rows, lc, rc) <==> Meet(pred, l.rows, r.rows);
    }
  }

  /** Whenever the left side turns out empty and the right side starts, the right side would run through. */
  ghost predicate NothingUnseen(cat: Catalog, p: Plan)
    requires |p.children| == 2
  {
    forall l, r :: Yields(cat, p.children[0], l) && Yields(cat, p.children[1], r) && l.Ok() && l.rows == [] && r.Gave? ==> r.ok
  }

  predicate ComparesColumns(p: Plan) {
    p.node.NestedLoop? && |p.children| == 2 && p.node.pred.Some? && p.node.pred.value.Comparing?
    && p.node.pred.value.left.Column? && p.node.pred.value.right.Column?
  }

  /** Whenever both sides run through, no keys of theirs clash. */
  ghost predicate NeverClash(cat: Catalog, p: Plan)
    requires ComparesColumns(p)
  {
    forall l, r :: Yields(cat, p.children[0], l) && Yields(cat, p.children[1], r) && l.Ok() && r.Ok() ==>
      Meet(p.node.pred.value, l.rows, r.rows)
  }

  // Columns known to hold no nulls never do.
  lemma NonNullMeet(cat: Catalog, p: Plan)
    requires CatalogOK(cat) && SchemaOf(cat, p).Some? && ToHashJoin(p) != p && p.node.NestedLoop? && |p.children| == 2 && KeysNonNull(cat, p)
    ensures ComparesColumns(p) && NeverClash(cat, p)
  {
    RewrittenJoin(cat, p);
    var e := p.node.pred.value;
    var (lc, rc) := JoinColumns(e);
    forall l, r | Yields(cat, p.children[0], l) && Yields(cat, p.children[1], r) && l.Ok() && r.Ok() ensures Meet(e, l.rows, r.rows) {
      PlanSound(cat, p.children[0], l);
      PlanSound(cat, p.children[1], r);
      NonNullNeverClash(l.rows, r.rows, SchemaOf(cat, p.children[0]).value, SchemaOf(cat, p.children[1]).value, lc, rc);
    }
  }

  // What the runs of a rewritten join come to.
  lemma JoinRuns(cat: Catalog, p: Plan, l: Outcome<Row>, r: Outcome<Row>)
    requires CatalogOK(cat) && SchemaOf(cat, p).Some? && ToHashJoin(p) != p && p.node.NestedLoop? && |p.children| == 2
    requires Yields(cat, p.children[0], l) && Yields(cat, p.children[1], r)
    ensures ComparesColumns(p) && ToHashJoin(p).node.Hash?
    ensures var q := ToHashJoin(p).node; var o, h := LoopOutcome(p.node.pred, l, r), HashOutcome(q.leftKey, q.rightKey, l, r);
      && (h.Ok() <==> l.Ok() && r.Ok()) && (o.Ok() <==> l.Ok() && r.Gave? && (l.rows == [] || r.ok))
      && (l.Ok() && r.Ok() ==> (multiset(o.rows) == multiset(h.rows) <==> Meet(p.node.pred.value, l.rows, r.rows)))
  {
    RewrittenJoin(cat, p);
    PlanSound(cat, p.children[0], l);
    PlanSound(cat, p.children[1], r);
    var e := p.node.pred.value;
    var (lc, rc) := JoinColumns(e);
    TwoJoins(l, r, SchemaOf(cat, p.children[0]).value, SchemaOf(cat, p.children[1]).value, e, lc, rc);
  }

  /** Permuting the children of a hash join permutes its rows. */
  lemma HashBelow(lk: Expr, rk: Expr, w: nat, l: Outcome<Row>, r: Outcome<Row>, l': Outcome<Row>, r': Outcome<Row>)
    requires Below(l, l') && Below(r, r') && (l'.Ok() ==> Wide(l'.rows, w))
    ensures Below(HashOutcome(lk, rk, l, r), HashOutcome(lk, rk, l', r'))
  {
    if HashOutcome(lk, rk, l', r').Ok() {
      KeysPermuted(lk, l'.rows, l.rows);
      KeysPermuted(rk, r'.rows, r.rows);
      HashPermuted(l'.rows, l.rows, r'.rows, r.rows, w, SameKey(lk, rk));
    }
  }

  lemma HashPermuted(ls: seq<Row>, ls': seq<Row>, rs: seq<Row>, rs': seq<Row>, w: nat, c: Matching)
    requires Wide(ls, w) && multiset(ls) == multiset(ls') && multiset(rs) == multiset(rs')
    ensures multiset(RightMajor(ls, rs, c)) == multiset(RightMajor(ls', rs', c))
  {
    WidePermuted(ls, ls', w);
    OrdersAgree(ls, rs, w, c);
    OrdersAgree(ls', rs', w, c);
    JoinPermuted(ls, ls', rs, rs', w, c);
  }

  lemma WidePermuted(ls: seq<Row>, ls': seq<Row>, w: nat)
    requires Wide(ls, w) && multiset(ls) == multiset(ls')
    ensures Wide(ls', w)
  {
    SameMembers(ls, ls');
    forall i | 0 <= i < |ls'| ensures |ls'[i]| == w { assert ls'[i] in ls; }
  }

  lemma KeysPermuted(e: Expr, rows: seq<Row>, rows': seq<Row>)
    requires multiset(rows) == multiset(rows') && KeysDefined(e, rows, |rows|)
    ensures KeysDefined(e, rows', |rows'|)
  {
    SameMembers(rows, rows');
    forall i | 0 <= i < |rows'| ensures HasText(e, rows'[i]) {
      assert rows'[i] in rows;
      var j :| 0 <= j < |rows| && rows[j] == rows'[i];
      assert HasText(e, rows[j]);
    }
  }

  // A join rewritten over other children.
  ghost predicate RewrittenTo(cat: Catalog, p: Plan, q: Plan) {
    && SchemaOf(cat, p).Some? && ToHashJoin(p) != p && p.node.NestedLoop? && |p.children| == |q.children| == 2
    && q.node == ToHashJoin(p).node
    && (forall i :: 0 <= i < 2 ==> SchemaOf(cat, q.children[i]) == SchemaOf(cat, p.children[i]))
  }

  ghost predicate SameChildren(cat: Catalog, p: Plan, q: Plan)
    requires |p.children| == |q.children| == 2
  {
    Equivalent(cat, p.children[0], q.children[0]) && Equivalent(cat, p.children[1], q.children[1])
  }

  // The sides of two joins with equivalent children.
  lemma SidesAlike(cat: Catalog, p: Plan, q: Plan, l: Outcome<Row>, r: Outcome<Row>, l': Outcome<Row>, r': Outcome<Row>)
    requires CatalogOK(cat) && |p.children| == |q.children| == 2 && SameChildren(cat, p, q)
    requires SchemaOf(cat, p.children[0]).Some? && SchemaOf(cat, q.children[0]).Some?
    requires Yields(cat, p.children[0], l) && Yields(cat, p.children[1], r)
    requires Yields(cat, q.children[0], l') && Yields(cat, q.children[1], r')
    ensures Alike(l, l') && Alike(r, r')
    ensures l.Ok() ==> Wide(l.rows, |SchemaOf(cat, p.children[0]).value|)
    ensures l'.Ok() ==> Wide(l'.rows, |SchemaOf(cat, q.children[0]).value|)
  {
    PlanSound(cat, p.children[0], l);
    PlanSound(cat, q.children[0], l');
  }

  lemma HashAlike(lk: Expr, rk: Expr, w: nat, w': nat, l: Outcome<Row>, r: Outcome<Row>, l': Outcome<Row>, r': Outcome<Row>)
    requires Alike(l, l') && Alike(r, r') && (l.Ok() ==> Wide(l.rows, w)) && (l'.Ok() ==> Wide(l'.rows, w'))
    ensures Alike(HashOutcome(lk, rk, l, r), HashOutcome(lk, rk, l', r'))
  {
    HashBelow(lk, rk, w', l, r, l', r');
    HashBelow(lk, rk, w, l', r', l, r);
  }

  /** The rewrite of a join, its children replaced by equivalent ones: it keeps what the plan comes to exactly when
      no error of the right side goes unseen for want of a left row, and no keys ever clash. */
  lemma JoinRewriteIff(cat: Catalog, p: Plan, q: Plan)
    requires CatalogOK(cat) && RewrittenTo(cat, p, q) && SameChildren(cat, p, q)
    ensures ComparesColumns(p)
    ensures Equivalent(cat, p, q) <==> NothingUnseen(cat, p) && NeverClash(cat, p)
  {
    RewrittenJoin(cat, p);
    if !NothingUnseen(cat, p) {
      var l, r := SomethingUnseen(cat, p);
      var o, h := Unlike(cat, p, q, l, r);
    } else if !NeverClash(cat, p) {
      var l, r := SomeClash(cat, p);
      var o, h := Unlike(cat, p, q, l, r);
    } else {
      forall o, h | Yields(cat, p, o) && Yields(cat, q, h) ensures Alike(o, h) { JoinAlike(cat, p, q, o, h); }
    }
  }

  lemma SomethingUnseen(cat: Catalog, p: Plan) returns (l: Outcome<Row>, r: Outcome<Row>)
    requires |p.children| == 2 && !NothingUnseen(cat, p)
    ensures Yields(cat, p.children[0], l) && Yields(cat, p.children[1], r) && l == Gave([], true) && r.Gave? && !r.ok
  {
    l, r :| Yields(cat, p.children[0], l) && Yields(cat, p.children[1], r) && l.Ok() && l.rows == [] && r.Gave? && !r.ok;
  }

  lemma SomeClash(cat: Catalog, p: Plan) returns (l: Outcome<Row>, r: Outcome<Row>)
    requires ComparesColumns(p) && !NeverClash(cat, p)
    ensures Yields(cat, p.children[0], l) && Yields(cat, p.children[1], r) && l.Ok() && r.Ok() && !Meet(p.node.pred.value, l.rows, r.rows)
  {
    l, r :| Yields(cat, p.children[0], l) && Yields(cat, p.children[1], r) && l.Ok() && r.Ok() && !Meet(p.node.pred.value, l.rows, r.rows);
  }

  // An error of the right side that the nested-loop join never sees, or rows that only one of the joins returns.
  lemma Unlike(cat: Catalog, p: Plan, q: Plan, l: Outcome<Row>, r: Outcome<Row>) returns (o: Outcome<Row>, h: Outcome<Row>)
    requires CatalogOK(cat) && RewrittenTo(cat, p, q) && SameChildren(cat, p, q) && ComparesColumns(p)
    requires Yields(cat, p.children[0], l) && Yields(cat, p.children[1], r)
    requires (l == Gave([], true) && r.Gave? && !r.ok) || (l.Ok() && r.Ok() && !Meet(p.node.pred.value, l.rows, r.rows))
    ensures Yields(cat, p, o) && Yields(cat, q, h) && !Alike(o, h)
  {
    JoinRuns(cat, p, l, r);
    RewrittenJoin(cat, p);
    var l' := PlanRuns(cat, q.children[0]);
    var r' := PlanRuns(cat, q.children[1]);
    o, h := LoopOutcome(p.node.pred, l, r), HashOutcome(q.node.leftKey, q.node.rightKey, l', r');
    LoopYields(cat, p, l, r);
    HashYields(cat, q, l', r');
    HashedAlike(cat, p, q, l, r, l', r');
  }

  // The hash joins of the sides, before and after.
  lemma HashedAlike(cat: Catalog, p: Plan, q: Plan, l: Outcome<Row>, r: Outcome<Row>, l': Outcome<Row>, r': Outcome<Row>)
    requires CatalogOK(cat) && RewrittenTo(cat, p, q) && SameChildren(cat, p, q) && q.node.Hash?
    requires SchemaOf(cat, p.children[0]).Some?
    requires Yields(cat, p.children[0], l) && Yields(cat, p.children[1], r)
    requires Yields(cat, q.children[0], l') && Yields(cat, q.children[1], r')
    ensures Alike(HashOutcome(q.node.leftKey, q.node.rightKey, l, r), HashOutcome(q.node.leftKey, q.node.rightKey, l', r'))
  {
    SidesAlike(cat, p, q, l, r, l', r');
    var w := |SchemaOf(cat, p.children[0]).value|;
    HashAlike(q.node.leftKey, q.node.rightKey, w, w, l, r, l', r');
  }

  lemma HashYields(cat: Catalog, p: Plan, l: Outcome<Row>, r: Outcome<Row>)
    requires p.node.Hash? && |p.children| == 2 && Yields(cat, p.children[0], l) && Yields(cat, p.children[1], r)
    ensures Yields(cat, p, HashOutcome(p.node.leftKey, p.node.rightKey, l, r))
  {
  }

  lemma JoinAlike(cat: Catalog, p: Plan, q: Plan, o: Outcome<Row>, h: Outcome<Row>)
    requires CatalogOK(cat) && RewrittenTo(cat, p, q) && SameChildren(cat, p, q) && ComparesColumns(p)
    requires NothingUnseen(cat, p) && NeverClash(cat, p) && Yields(cat, p, o) && Yields(cat, q, h)
    ensures Alike(o, h)
  {
    RewrittenJoin(cat, p);
    var l, r := SplitJoin(cat, p, o);
    var l', r' := SplitJoin(cat, q, h);
    JoinRuns(cat, p, l, r);
    HashedAlike(cat, p, q, l, r, l', r');
    assert Alike(o, HashOutcome(q.node.leftKey, q.node.rightKey, l, r));
  }

  /** A nested-loop join of other children: what raises no error there raises none here and returns the same
      rows, given that for an empty left side the right sides start together. */
  lemma LoopBelow(pred: Option<Expr>, w: nat, l: Outcome<Row>, r: Outcome<Row>, l': Outcome<Row>, r': Outcome<Row>)
    requires Below(l, l') && Below(r, r') && (l'.Ok() ==> Wide(l'.rows, w))
    requires l'.Ok() && l'.rows == [] && r'.Gave? ==> r.Gave?
    ensures Below(LoopOutcome(pred, l, r), LoopOutcome(pred, l', r'))
  {
    LoopJoinRows(pred, l, r);
    LoopJoinRows(pred, l', r');
    if LoopOutcome(pred, l', r').Ok() {
      if l'.rows == [] {
        assert l.rows == [] by { assert |multiset(l.rows)| == |l.rows|; }
      } else {
        assert l.rows != [];
        DecidedPermuted(pred, l'.rows, r'.rows, l.rows, r.rows);
        JoinPermuted(l'.rows, l.rows, r'.rows, r.rows, w, Matched(pred));
      }
    }
  }

  /** For an empty left side, the right side of the first join starts whenever that of the second does; and the
      other way round, unless one way is enough. */
  ghost predicate StartTogether(cat: Catalog, p: Plan, q: Plan, oneWay: bool)
    requires |p.children| == |q.children| == 2
  {
    forall l, r, l', r' :: (
      && Yields(cat, p.children[0], l) && Yields(cat, p.children[1], r)
      && Yields(cat, q.children[0], l') && Yields(cat, q.children[1], r') && l.Ok() && l.rows == []) ==> StartAlike(r, r', oneWay)
  }

  predicate StartAlike(o: Outcome<Row>, o': Outcome<Row>, oneWay: bool) {
    (o'.Gave? ==> o.Gave?) && (oneWay || (o.Gave? ==> o'.Gave?))
  }

  lemma NotTogether(cat: Catalog, p: Plan, q: Plan) returns (l: Outcome<Row>, r: Outcome<Row>, l': Outcome<Row>, r': Outcome<Row>)
    requires |p.children| == |q.children| == 2 && !StartTogether(cat, p, q, false)
    ensures Yields(cat, p.children[0], l) && Yields(cat, p.children[1], r)
    ensures Yields(cat, q.children[0], l') && Yields(cat, q.children[1], r') && l == Gave([], true) && r.Gave? != r'.Gave?
  {
    l, r, l', r' :| Yields(cat, p.children[0], l) && Yields(cat, p.children[1], r) && Yields(cat, q.children[0], l')
      && Yields(cat, q.children[1], r') && l.Ok() && l.rows == [] && !StartAlike(r, r', false);
  }

  // The join of two children.
  lemma LoopYields(cat: Catalog, p: Plan, l: Outcome<Row>, r: Outcome<Row>)
    requires p.node.NestedLoop? && |p.children| == 2 && Yields(cat, p.children[0], l) && Yields(cat, p.children[1], r)
    ensures Yields(cat, p, LoopOutcome(p.node.pred, l, r))
  {
  }

  /** Replacing the children of a nested-loop join by equivalent ones keeps what it comes to exactly when, for an
      empty left side, the right sides start together. */
  lemma LoopKeepsIff(cat: Catalog, p: Plan, q: Plan)
    requires CatalogOK(cat) && SchemaOf(cat, p).Some? && SchemaOf(cat, q).Some? && p.node.NestedLoop? && q.node == p.node
    requires |p.children| == |q.children| == 2 && SameChildren(cat, p, q)
    ensures Equivalent(cat, p, q) <==> StartTogether(cat, p, q, false)
  {
    if StartTogether(cat, p, q, false) {
      forall o, o' | Yields(cat, p, o) && Yields(cat, q, o') ensures Alike(o, o') { LoopAlike(cat, p, q, o, o'); }
    } else {
      var l, r, l', r' := NotTogether(cat, p, q);
      var pred := p.node.pred;
      LoopYields(cat, p, l, r);
      LoopYields(cat, q, l', r');
      EmptyLeft(pred, l, r, l', r');
      assert !Alike(LoopOutcome(pred, l, r), LoopOutcome(pred, l', r'));
    }
  }

  lemma EmptyLeft(pred: Option<Expr>, l: Outcome<Row>, r: Outcome<Row>, l': Outcome<Row>, r': Outcome<Row>)
    requires l == Gave([], true) && Alike(l, l') && r.Gave? != r'.Gave?
    ensures LoopOutcome(pred, l, r).Ok() != LoopOutcome(pred, l', r').Ok()
  {
    assert l'.rows == [] by { assert |multiset(l'.rows)| == |l'.rows|; }
    LoopJoinRows(pred, l, r);
    LoopJoinRows(pred, l', r');
  }

  lemma LoopAlike(cat: Catalog, p: Plan, q: Plan, o: Outcome<Row>, o': Outcome<Row>)
    requires CatalogOK(cat) && SchemaOf(cat, p).Some? && SchemaOf(cat, q).Some? && p.node.NestedLoop? && q.node == p.node
    requires |p.children| == |q.children| == 2 && StartTogether(cat, p, q, false)
    requires SameChildren(cat, p, q) && Yields(cat, p, o) && Yields(cat, q, o')
    ensures Alike(o, o')
  {
    var l, r := SplitJoin(cat, p, o);
    var l', r' := SplitJoin(cat, q, o');
    LoopSides(cat, p, q, l, r, l', r');
  }

  lemma LoopSides(cat: Catalog, p: Plan, q: Plan, l: Outcome<Row>, r: Outcome<Row>, l': Outcome<Row>, r': Outcome<Row>)
    requires CatalogOK(cat) && |p.children| == |q.children| == 2 && SameChildren(cat, p, q) && p.node.NestedLoop?
    requires SchemaOf(cat, p.children[0]).Some? && SchemaOf(cat, q.children[0]).Some?
    requires StartTogether(cat, p, q, false)
    requires Yields(cat, p.children[0], l) && Yields(cat, p.children[1], r)
    requires Yields(cat, q.children[0], l') && Yields(cat, q.children[1], r')
    ensures Alike(LoopOutcome(p.node.pred, l, r), LoopOutcome(p.node.pred, l', r'))
  {
    SidesAlike(cat, p, q, l, r, l', r');
    if l.Ok() && l.rows == [] { assert StartAlike(r, r', false); }
    LoopsAlike(p.node.pred, |SchemaOf(cat, p.children[0]).value|, |SchemaOf(cat, q.children[0]).value|, l, r, l', r');
  }

  lemma LoopsAlike(pred: Option<Expr>, w: nat, w': nat, l: Outcome<Row>, r: Outcome<Row>, l': Outcome<Row>, r': Outcome<Row>)
    requires Alike(l, l') && Alike(r, r') && (l.Ok() ==> Wide(l.rows, w)) && (l'.Ok() ==> Wide(l'.rows, w'))
    requires l.Ok() && l.rows == [] ==> (r.Gave? <==> r'.Gave?)
    ensures Alike(LoopOutcome(pred, l, r), LoopOutcome(pred, l', r'))
  {
    if l'.Ok() && l'.rows == [] { assert l.rows == [] by { assert |multiset(l.rows)| == |l.rows|; } }
    LoopBelow(pred, w', l, r, l', r');
    LoopBelow(pred, w, l', r', l, r);
  }

  // What a node makes of two children.
  ghost predicate Joined(node: Node, l: Outcome<Row>, r: Outcome<Row>, o: Outcome<Row>) {
    match node
    case NestedLoop(pred) => o == LoopOutcome(pred, l, r)
    case Hash(lk, rk) => o == HashOutcome(lk, rk, l, r)
    case _ => false
  }

  lemma SplitJoin(cat: Catalog, p: Plan, o: Outcome<Row>) returns (l: Outcome<Row>, r: Outcome<Row>)
    requires (p.node.NestedLoop? || p.node.Hash?) && |p.children| == 2 && Yields(cat, p, o)
    ensures Yields(cat, p.children[0], l) && Yields(cat, p.children[1], r) && Joined(p.node, l, r, o)
  {
    if p.node.NestedLoop? {
      l, r :| Yields(cat, p.children[0], l) && Yields(cat, p.children[1], r) && o == LoopOutcome(p.node.pred, l, r);
    } else {
      l, r :| Yields(cat, p.children[0], l) && Yields(cat, p.children[1], r) && o == HashOutcome(p.node.leftKey, p.node.rightKey, l, r);
    }
  }

  lemma DecidedPermuted(pred: Option<Expr>, ls: seq<Row>, rs: seq<Row>, ls': seq<Row>, rs': seq<Row>)
    requires multiset(ls) == multiset(ls') && multiset(rs) == multiset(rs') && Decided(ls, rs, pred)
    ensures Decided(ls', rs', pred)
  {
    SameMembers(ls, ls');
    SameMembers(rs, rs');
    forall i, j | 0 <= i < |ls'| && 0 <= j < |rs'| ensures Passes(pred, Two(ls'[i], rs'[j])).Some? {
      assert ls'[i] in ls && rs'[j] in rs;
      var k :| 0 <= k < |ls| && ls[k] == ls'[i];
      var m :| 0 <= m < |rs| && rs[m] == rs'[j];
    }
  }
}
