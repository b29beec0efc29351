/** Plans that can raise no error: no expression in them divides, and no sort is by a BOOLEAN key. */
module CalmPlans {
  import opened Wrappers
  import opened Values
  import opened Expressions
  import opened Pulls
  import opened Joins
  import opened Aggregates
  import opened Aggregation
  import opened Sorts
  import opened Plans

  predicate CalmPred(pred: Option<Expr>) {
    pred.Some? ==> !Divides(pred.value)
  }

  predicate CalmAll(exprs: seq<Expr>) {
    forall i {:trigger exprs[i]} :: 0 <= i < |exprs| ==> !Divides(exprs[i])
  }

  predicate CalmAggs(aggs: seq<Agg>) {
    forall i {:trigger aggs[i]} :: 0 <= i < |aggs| ==> !Divides(aggs[i].arg)
  }

  // Keys that can be compared.
  predicate CalmOrder(order: Order, s: Schema) {
    forall i {:trigger order[i]} :: 0 <= i < |order| ==>
      !Divides(order[i].1) && TypeOf(order[i].1, OneOf(s)).Some? && TypeOf(order[i].1, OneOf(s)).value.ty != Boolean
  }

  predicate CalmNode(cat: Catalog, p: Plan) {
    match p.node
    case SeqScan(_, pred) => CalmPred(pred)
    case IndexScan(_, _, _, pred) => CalmPred(pred)
    case NestedLoop(pred) => CalmPred(pred)
    case Hash(lk, rk) => !Divides(lk) && !Divides(rk)
    case Aggregate(keys, aggs) => CalmAll(keys) && CalmAggs(aggs)
    case Sort(order) => |p.children| == 1 && SchemaOf(cat, p.children[0]).Some? ==> CalmOrder(order, SchemaOf(cat, p.children[0]).value)
    case Project(exprs) => CalmAll(exprs)
    case Limit(_) => true
  }

  predicate Calm(cat: Catalog, p: Plan)
    decreases p
  {
    CalmNode(cat, p) && forall i :: 0 <= i < |p.children| ==> Calm(cat, p.children[i])
  }

  // ---------- Expressions ----------

  lemma PassesTyped(pred: Option<Expr>, ts: Tuples, ss: Schemas)
    requires CalmPred(pred) && PredTyped(pred, ss) && TuplesFit(ts, ss)
    ensures Passes(pred, ts).Some?
  {
    if pred.Some? { EvalSound(pred.value, ts, ss); }
  }

  lemma {:induction false} KeyValsTotal(exprs: seq<Expr>, s: Schema, row: Row)
    requires CalmAll(exprs) && TypesOf(exprs, s).Some? && RowFits(row, s)
    ensures KeyVals(exprs, row).Some?
  {
    if exprs != [] {
      var n := |exprs| - 1;
      assert forall i :: 0 <= i < n ==> exprs[..n][i] == exprs[i];
      KeyValsTotal(exprs[..n], s, row);
      EvalSound(exprs[n], One(row), OneOf(s));
    }
  }

  // ---------- Scans and joins ----------

  lemma CalmSeqScan(t: Table, pred: Option<Expr>)
    requires HeapOK(t) && CalmPred(pred) && PredTyped(pred, OneOf(StoredTypes(t.types)))
    ensures Drained(t.heap, ScanStep(pred)).ok
  {
    forall i | 0 <= i < |t.heap| ensures ScanStep(pred)(t.heap[i]) != Fail {
      PassesTyped(pred, One(t.heap[i].1), OneOf(StoredTypes(t.types)));
    }
    CollectEmits(t.heap, ScanStep(pred));
  }

  lemma CalmIndexScan(cat: Catalog, t: nat, index: nat, lookup: Expr, pred: Option<Expr>)
    requires CatalogOK(cat) && t in cat.tables && IndexesTable(cat, index, t) && lookup.Constant?
    requires CalmPred(pred) && PredTyped(pred, OneOf(StoredTypes(cat.tables[t].types)))
    ensures IndexOutcome(cat, t, index, lookup, pred).Ok()
  {
    var rids, f := LookupRids(cat, t, index, lookup.v), FetchStep(cat.tables[t].heap, pred);
    forall j | 0 <= j < |rids| ensures f(rids[j]) != Fail {
      var k := FetchedRow(cat, t, index, lookup.v, j);
      PassesTyped(pred, One(cat.tables[t].heap[k].1), OneOf(StoredTypes(cat.tables[t].types)));
    }
    CollectEmits(rids, f);
  }

  lemma CalmLoop(pred: Option<Expr>, l: Outcome<Row>, r: Outcome<Row>, sl: Schema, sr: Schema)
    requires CalmPred(pred) && PredTyped(pred, TwoOf(sl, sr)) && l.Ok() && r.Ok() && Fitting(l, sl) && Fitting(r, sr)
    ensures LoopOutcome(pred, l, r).Ok()
  {
    LoopJoinRows(pred, l, r);
    forall i, j | 0 <= i < |l.rows| && 0 <= j < |r.rows| ensures Passes(pred, Two(l.rows[i], r.rows[j])).Some? {
      PassesTyped(pred, Two(l.rows[i], r.rows[j]), TwoOf(sl, sr));
    }
  }

  lemma CalmKeys(e: Expr, o: Outcome<Row>, s: Schema)
    requires !Divides(e) && TypeOf(e, OneOf(s)).Some? && o.Ok() && Fitting(o, s)
    ensures KeysDefined(e, o.rows, |o.rows|)
  {
    forall i | 0 <= i < |o.rows| ensures HasText(e, o.rows[i]) { EvalSound(e, One(o.rows[i]), OneOf(s)); }
  }

  // ---------- Operators with one child ----------

  lemma CalmGroups(keys: seq<Expr>, aggs: seq<Agg>, s: Schema, rows: seq<Row>)
    requires CalmAll(keys) && CalmAggs(aggs) && UnarySchema(Aggregate(keys, aggs), s).Some? && AllFit(rows, s)
    ensures !Fails(keys, aggs, rows)
  {
    forall i | 0 <= i < |rows| ensures KeyOK(keys, rows[i]) { KeyValsTotal(keys, s, rows[i]); }
    forall text, k | 0 <= k < |aggs| ensures AggOK(aggs[k], GroupRows(keys, rows, text)) {
      CalmFold(aggs, s, rows, GroupRows(keys, rows, text), k);
    }
  }

  lemma CalmFold(aggs: seq<Agg>, s: Schema, rows: seq<Row>, group: seq<Row>, k: nat)
    requires CalmAggs(aggs) && AggTypes(aggs, s).Some? && k < |aggs| && AllFit(rows, s) && forall row :: row in group ==> row in rows
    ensures Fold(aggs[k], group).Some?
  {
    AggTypesAt(aggs, s, k);
    var a := aggs[k];
    var t := TypeOf(a.arg, OneOf(s)).value.ty;
    forall i | 0 <= i < |group| ensures RowFits(group[i], s) && Eval(a.arg, One(group[i])).Some? {
      assert group[i] in rows;
      EvalSound(a.arg, One(group[i]), OneOf(s));
    }
    ArgsFit(a, s, group);
    FoldMeans(a, group, t);
  }

  lemma {:induction false} KeysDecide(order: Order, s: Schema, a: Row, b: Row)
    requires CalmOrder(order, s) && RowFits(a, s) && RowFits(b, s)
    ensures SortsBefore(order, a, b).Some?
  {
    if order != [] {
      var e := order[0].1;
      EvalSound(e, One(a), OneOf(s));
      EvalSound(e, One(b), OneOf(s));
      assert forall i :: 0 <= i < |order| - 1 ==> order[1..][i] == order[i + 1];
      KeysDecide(order[1..], s, a, b);
    }
  }

  lemma CalmSort(order: Order, s: Schema, rows: seq<Row>)
    requires CalmOrder(order, s) && AllFit(rows, s)
    ensures !Undecided(order, rows)
  {
    forall a, b | multiset{a, b} <= multiset(rows) ensures SortsBefore(order, a, b).Some? {
      assert a in multiset(rows) && b in multiset(rows);
      var i :| 0 <= i < |rows| && rows[i] == a;
      var j :| 0 <= j < |rows| && rows[j] == b;
      KeysDecide(order, s, a, b);
    }
  }

  lemma CalmUnary(node: Node, s: Schema, c: Outcome<Row>, o: Outcome<Row>)
    requires UnaryOutcome(node, c, o) && UnarySchema(node, s).Some? && Fitting(c, s) && c.Ok()
    requires match node
      case Aggregate(keys, aggs) => CalmAll(keys) && CalmAggs(aggs)
      case Sort(order) => CalmOrder(order, s)
      case Project(exprs) => CalmAll(exprs)
      case _ => true
    ensures o.Ok()
  {
    match node {
      case Aggregate(keys, aggs) => CalmGroups(keys, aggs, s, c.rows);
      case Sort(order) => CalmSort(order, s, c.rows);
      case Project(exprs) =>
        forall i | 0 <= i < |c.rows| ensures ProjectStep(exprs)(c.rows[i]) != Fail { KeyValsTotal(exprs, s, c.rows[i]); }
        CollectEmits(c.rows, ProjectStep(exprs));
      case _ =>
    }
  }

  /** Such a plan never raises an error. */
  lemma {:induction false} CalmRuns(cat: Catalog, p: Plan, o: Outcome<Row>)
    requires CatalogOK(cat) && SchemaOf(cat, p).Some? && Calm(cat, p) && Yields(cat, p, o)
    ensures o.Ok()
    decreases p, 1
  {
    var cs := p.children;
    match p.node {
      case SeqScan(t, pred) => CalmSeqScan(cat.tables[t], pred);
      case IndexScan(t, index, lookup, pred) => CalmIndexScan(cat, t, index, lookup, pred);
      case NestedLoop(pred) =>
        var l, r :| Yields(cat, cs[0], l) && Yields(cat, cs[1], r) && o == LoopOutcome(pred, l, r);
        CalmChild(cat, p, 0, l);
        CalmChild(cat, p, 1, r);
        CalmLoop(pred, l, r, SchemaOf(cat, cs[0]).value, SchemaOf(cat, cs[1]).value);
      case Hash(lk, rk) =>
        var l, r :| Yields(cat, cs[0], l) && Yields(cat, cs[1], r) && o == HashOutcome(lk, rk, l, r);
        CalmChild(cat, p, 0, l);
        CalmChild(cat, p, 1, r);
        CalmKeys(lk, l, SchemaOf(cat, cs[0]).value);
        CalmKeys(rk, r, SchemaOf(cat, cs[1]).value);
      case _ =>
        var c :| Yields(cat, cs[0], c) && UnaryOutcome(p.node, c, o);
        CalmChild(cat, p, 0, c);
        CalmUnary(p.node, SchemaOf(cat, cs[0]).value, c, o);
    }
  }

  lemma {:induction false} CalmChild(cat: Catalog, p: Plan, i: nat, c: Outcome<Row>)
    requires CatalogOK(cat) && i < |p.children| && Calm(cat, p) && SchemaOf(cat, p.children[i]).Some?
    requires Yields(cat, p.children[i], c)
    ensures c.Ok() && Fitting(c, SchemaOf(cat, p.children[i]).value)
    decreases p, 0
  {
    CalmRuns(cat, p.children[i], c);
    PlanSound(cat, p.children[i], c);
  }
}
