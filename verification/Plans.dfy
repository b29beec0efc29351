/** Query plans over a catalog: what running a plan returns, and the types of its rows. */
module Plans {
  import opened Wrappers
  import opened Rids
  import opened Values
  import opened Expressions
  import opened Bags
  import opened Pulls
  import opened Joins
  import opened Aggregates
  import opened Aggregation
  import opened Sorts

  // ---------- The catalog ----------

  type Entry = (RID, Row)

  // A table: its live rows in heap order.
  datatype Table = Table(name: string, types: seq<Type>, heap: seq<Entry>)

  // An index: the record identifiers of each integer key, if it supports point lookups.
  datatype Index = Index(table: string, attrs: seq<nat>, point: bool, entries: map<Int32, seq<RID>>)

  datatype Catalog = Catalog(tables: map<nat, Table>, indexes: map<nat, Index>, byTable: map<string, seq<nat>>)

  // ---------- Plans ----------

  datatype Node =
    | SeqScan(table: nat, pred: Option<Expr>)
    | IndexScan(table: nat, index: nat, lookup: Expr, pred: Option<Expr>)
    | NestedLoop(pred: Option<Expr>)
    | Hash(leftKey: Expr, rightKey: Expr)
    | Aggregate(keys: seq<Expr>, aggs: seq<Agg>)
    | Sort(order: Order)
    | Project(exprs: seq<Expr>)
    | Limit(n: nat)

  datatype Plan = Plan(node: Node, children: seq<Plan>)

  // ---------- Scans ----------

  // A row that passes the filter is returned.
  function Filtered(pred: Option<Expr>, row: Row): Step<Row> {
    match Passes(pred, One(row))
    case None => Fail
    case Some(true) => Emit(row)
    case Some(false) => Skip
  }

  /** A sequential scan's step on an entry of the heap. */
  function ScanStep(pred: Option<Expr>): Entry -> Step<Row> {
    (e: Entry) => Filtered(pred, e.1)
  }

  predicate HasRid(heap: seq<Entry>, rid: RID) {
    exists i :: 0 <= i < |heap| && heap[i].0 == rid
  }

  /** The row stored under an identifier. */
  function RowAt(heap: seq<Entry>, rid: RID): Row {
    if heap == [] then [] else if heap[0].0 == rid then heap[0].1 else RowAt(heap[1..], rid)
  }

  /** An index scan's step: fetch the row, check the predicate again. */
  function FetchStep(heap: seq<Entry>, pred: Option<Expr>): RID -> Step<Row> {
    (rid: RID) => Filtered(pred, RowAt(heap, rid))
  }

  function RidsOf(entries: map<Int32, seq<RID>>, key: Int32): seq<RID> {
    if key in entries then entries[key] else []
  }

  /** The identifiers an index scan starts from: none unless the table and the index exist, the index
      supports lookups and the key is a non-null integer. */
  function LookupRids(cat: Catalog, table: nat, index: nat, key: Value): seq<RID> {
    if table in cat.tables && index in cat.indexes && cat.indexes[index].point && key.IntV?
      then RidsOf(cat.indexes[index].entries, key.i) else []
  }

  function HeapOf(cat: Catalog, table: nat): seq<Entry> {
    if table in cat.tables then cat.tables[table].heap else []
  }

  /** What an index scan comes to: a key that cannot be evaluated is an error when it starts. */
  function IndexOutcome(cat: Catalog, t: nat, index: nat, lookup: Expr, pred: Option<Expr>): Outcome<Row> {
    if t !in cat.tables || index !in cat.indexes || !cat.indexes[index].point then Gave([], true)
    else
      match Eval(lookup, One([]))
      case None => NoStart
      case Some(key) => Drained(LookupRids(cat, t, index, key), FetchStep(HeapOf(cat, t), pred))
  }

  // ---------- Projection and limit ----------

  function ProjectStep(exprs: seq<Expr>): Row -> Step<Row> {
    row => match KeyVals(exprs, row) case None => Fail case Some(vs) => Emit(vs)
  }

  // A projection pulls its child row by row.
  function ProjectOutcome(exprs: seq<Expr>, c: Outcome<Row>): Outcome<Row> {
    if c.NoStart? then NoStart
    else var o := Drained(c.rows, ProjectStep(exprs)); Gave(o.rows, o.ok && c.ok)
  }

  // A limit asks for no row beyond its number, so an error behind it never comes up.
  function LimitOutcome(n: nat, c: Outcome<Row>): Outcome<Row> {
    if c.NoStart? then NoStart else if n <= |c.rows| then Gave(c.rows[..n], true) else c
  }

  // ---------- What a plan returns ----------

  /** What running the plan can come to. The order of groups and of rows that sort alike is left open. A child
      that is asked for no row raises no error but when it starts. */
  ghost predicate Yields(cat: Catalog, p: Plan, o: Outcome<Row>)
    decreases p
  {
    var cs := p.children;
    match p.node
    case SeqScan(t, pred) => cs == [] && t in cat.tables && o == Drained(cat.tables[t].heap, ScanStep(pred))
    case IndexScan(t, index, lookup, pred) => cs == [] && o == IndexOutcome(cat, t, index, lookup, pred)
    case NestedLoop(pred) =>
      |cs| == 2 && exists l, r :: Yields(cat, cs[0], l) && Yields(cat, cs[1], r) && o == LoopOutcome(pred, l, r)
    case Hash(lk, rk) =>
      |cs| == 2 && exists l, r :: Yields(cat, cs[0], l) && Yields(cat, cs[1], r) && o == HashOutcome(lk, rk, l, r)
    case _ =>
      |cs| == 1 && exists c :: Yields(cat, cs[0], c) && UnaryOutcome(p.node, c, o)
  }

  ghost predicate UnaryOutcome(node: Node, c: Outcome<Row>, o: Outcome<Row>) {
    match node
    case Aggregate(keys, aggs) => GroupsOutcome(keys, aggs, c, o)
    case Sort(order) => SortOutcome(order, c, o)
    case Project(exprs) => o == ProjectOutcome(exprs, c)
    case Limit(n) => o == LimitOutcome(n, c)
    case _ => false
  }

  // ---------- Typing ----------

  function StoredTypes(types: seq<Type>): (s: Schema)
    ensures |s| == |types| && forall i :: 0 <= i < |types| ==> s[i] == ColType(types[i], true)
  {
    seq(|types|, i requires 0 <= i < |types| => ColType(types[i], true))
  }

  predicate PredTyped(pred: Option<Expr>, ss: Schemas) {
    pred.Some? ==> TypeOf(pred.value, ss).Some? && TypeOf(pred.value, ss).value.ty == Boolean
  }

  function TypesOf(exprs: seq<Expr>, s: Schema): Option<Schema> {
    if exprs == [] then Some([])
    else
      var n := |exprs| - 1;
      match (TypesOf(exprs[..n], s), TypeOf(exprs[n], OneOf(s)))
      case (Some(ts), Some(t)) => Some(ts + [t])
      case _ => None
  }

  function AggType(a: Agg, s: Schema): Option<ColType> {
    match TypeOf(a.arg, OneOf(s))
    case None => None
    case Some(t) =>
      if !Typed(a, t.ty) || (a.kind !in {CountStar, Aggregates.Count} && a.out != t.ty) then None
      else Some(ColType(a.out, a.kind in {CountStar, Aggregates.Count}))
  }

  function AggTypes(aggs: seq<Agg>, s: Schema): Option<Schema> {
    if aggs == [] then Some([])
    else
      var n := |aggs| - 1;
      match (AggTypes(aggs[..n], s), AggType(aggs[n], s))
      case (Some(ts), Some(t)) => Some(ts + [t])
      case _ => None
  }

  function OrderExprs(order: seq<(bool, Expr)>): (es: seq<Expr>)
    ensures |es| == |order|
  {
    seq(|order|, i requires 0 <= i < |order| => order[i].1)
  }

  /** The types of the rows a plan returns, or None for an ill-typed plan. */
  function SchemaOf(cat: Catalog, p: Plan): Option<Schema>
    decreases p
  {
    var cs := p.children;
    match p.node
    case SeqScan(t, pred) =>
      if cs == [] && t in cat.tables && PredTyped(pred, OneOf(StoredTypes(cat.tables[t].types))) then Some(StoredTypes(cat.tables[t].types)) else None
    case IndexScan(t, index, lookup, pred) =>
      if cs == [] && t in cat.tables && lookup.Constant? && IndexesTable(cat, index, t) && PredTyped(pred, OneOf(StoredTypes(cat.tables[t].types)))
        then Some(StoredTypes(cat.tables[t].types)) else None
    case NestedLoop(pred) =>
      if |cs| != 2 then None
      else
        (match (SchemaOf(cat, cs[0]), SchemaOf(cat, cs[1]))
         case (Some(sl), Some(sr)) => if PredTyped(pred, TwoOf(sl, sr)) then Some(sl + sr) else None
         case _ => None)
    case Hash(lk, rk) =>
      if |cs| != 2 then None
      else
        (match (SchemaOf(cat, cs[0]), SchemaOf(cat, cs[1]))
         case (Some(sl), Some(sr)) => if TypeOf(lk, OneOf(sl)).Some? && TypeOf(rk, OneOf(sr)).Some? then Some(sl + sr) else None
         case _ => None)
    case _ =>
      if |cs| != 1 then None
      else match SchemaOf(cat, cs[0])
        case None => None
        case Some(s) => UnarySchema(p.node, s)
  }

  function UnarySchema(node: Node, s: Schema): Option<Schema> {
    match node
    case Aggregate(keys, aggs) =>
      (match (TypesOf(keys, s), AggTypes(aggs, s))
       case (Some(ks), Some(ts)) => Some(ks + ts)
       case _ => None)
    case Sort(order) => if TypesOf(OrderExprs(order), s).Some? then Some(s) else None
    case Project(exprs) => TypesOf(exprs, s)
    case Limit(_) => Some(s)
    case _ => None
  }

  predicate IndexesTable(cat: Catalog, index: nat, t: nat)
    requires t in cat.tables
  {
    index in cat.indexes ==> cat.indexes[index].table == cat.tables[t].name
  }

  /** The identifiers of the rows with a key in a column, in heap order: what an index is built to hold. */
  function RidsWith(heap: seq<Entry>, c: nat, key: Int32): seq<RID> {
    if heap == [] then []
    else (if At(heap[0].1, c) == Some(IntV(key)) then [heap[0].0] else []) + RidsWith(heap[1..], c, key)
  }

  // The index agrees with the table as it is now.
  ghost predicate IndexCurrent(t: Table, x: Index) {
    x.point ==>
      && |x.attrs| == 1 && x.attrs[0] < |t.types| && t.types[x.attrs[0]] == Integer
      && forall key {:trigger RidsOf(x.entries, key)} :: RidsOf(x.entries, key) == RidsWith(t.heap, x.attrs[0], key)
  }

  ghost predicate CurrentFor(cat: Catalog, t: nat, index: nat) {
    t in cat.tables && index in cat.indexes && cat.indexes[index].table == cat.tables[t].name ==>
      IndexCurrent(cat.tables[t], cat.indexes[index])
  }

  predicate ListOK(cat: Catalog, name: string) {
    name in cat.byTable ==> forall i :: 0 <= i < |cat.byTable[name]| ==>
      cat.byTable[name][i] in cat.indexes && cat.indexes[cat.byTable[name][i]].table == name
  }

  /** Stored rows have their table's types, identifiers are distinct, and indexes are current. */
  ghost predicate CatalogOK(cat: Catalog) {
    && (forall t {:trigger cat.tables[t]} :: t in cat.tables ==> HeapOK(cat.tables[t]))
    && (forall t, index {:trigger CurrentFor(cat, t, index)} :: CurrentFor(cat, t, index))
    && (forall name {:trigger ListOK(cat, name)} :: ListOK(cat, name))
  }

  predicate HeapOK(t: Table) {
    && (forall i :: 0 <= i < |t.heap| ==> RowFits(t.heap[i].1, StoredTypes(t.types)))
    && (forall i, j :: 0 <= i < j < |t.heap| ==> t.heap[i].0 != t.heap[j].0)
  }

  // ---------- Type soundness ----------

  predicate Fitting(o: Outcome<Row>, s: Schema) {
    o.Gave? ==> AllFit(o.rows, s)
  }

  lemma {:induction false} KeyValsFit(exprs: seq<Expr>, s: Schema, row: Row)
    requires RowFits(row, s) && TypesOf(exprs, s).Some? && KeyVals(exprs, row).Some?
    ensures |TypesOf(exprs, s).value| == |exprs| && RowFits(KeyVals(exprs, row).value, TypesOf(exprs, s).value)
  {
    if exprs != [] {
      var n := |exprs| - 1;
      KeyValsFit(exprs[..n], s, row);
      EvalSound(exprs[n], One(row), OneOf(s));
    }
  }

  lemma {:induction false} AggTypesAt(aggs: seq<Agg>, s: Schema, i: nat)
    requires AggTypes(aggs, s).Some? && i < |aggs|
    ensures |AggTypes(aggs, s).value| == |aggs| && AggType(aggs[i], s) == Some(AggTypes(aggs, s).value[i])
  {
    var n := |aggs| - 1;
    if n > 0 { AggTypesAt(aggs[..n], s, if i < n then i else 0); } else { assert aggs[..n] == []; }
  }

  lemma ArgsFit(a: Agg, s: Schema, rows: seq<Row>)
    requires AggType(a, s).Some? && AllFit(rows, s)
    ensures AllOf(Map(rows, Arg(a, TypeOf(a.arg, OneOf(s)).value.ty)), TypeOf(a.arg, OneOf(s)).value.ty)
  {
    var t := TypeOf(a.arg, OneOf(s)).value.ty;
    forall i | 0 <= i < |rows| ensures TypeIn(Map(rows, Arg(a, t))[i]) == t { EvalSound(a.arg, One(rows[i]), OneOf(s)); }
  }

  lemma AggFits(a: Agg, s: Schema, rows: seq<Row>)
    requires AggType(a, s).Some? && AllFit(rows, s) && Fold(a, rows).Some?
    ensures Fits(Fold(a, rows).value, AggType(a, s).value)
  {
    var t := TypeOf(a.arg, OneOf(s)).value.ty;
    ArgsFit(a, s, rows);
    FoldMeans(a, rows, t);
    var vs, r := Map(rows, Arg(a, t)), Fold(a, rows).value;
    if r in vs { var i :| 0 <= i < |vs| && vs[i] == r; }
  }

  lemma OutputFits(keys: seq<Expr>, aggs: seq<Agg>, s: Schema, rows: seq<Row>, out: seq<Row>)
    requires AllFit(rows, s) && IsOutput(keys, aggs, rows, out) && UnarySchema(Aggregate(keys, aggs), s).Some?
    ensures AllFit(out, UnarySchema(Aggregate(keys, aggs), s).value)
  {
    var want := UnarySchema(Aggregate(keys, aggs), s).value;
    if rows == [] {
      if keys == [] { NoKeysFits(aggs, s); }
    } else {
      var texts :| OnePerText(keys, aggs, rows, out, texts);
      forall i | 0 <= i < |out| ensures RowFits(out[i], want) { OutputRowFits(keys, aggs, s, rows, out, texts, i); }
    }
  }

  lemma NoKeysFits(aggs: seq<Agg>, s: Schema)
    requires UnarySchema(Aggregate([], aggs), s).Some?
    ensures AllFit([InitialRow(aggs)], UnarySchema(Aggregate([], aggs), s).value)
  {
    InitialFits(aggs, s);
    assert [] + AggTypes(aggs, s).value == AggTypes(aggs, s).value;
  }

  lemma OutputRowFits(keys: seq<Expr>, aggs: seq<Agg>, s: Schema, rows: seq<Row>, out: seq<Row>, texts: seq<string>, i: nat)
    requires AllFit(rows, s) && UnarySchema(Aggregate(keys, aggs), s).Some?
    requires OnePerText(keys, aggs, rows, out, texts) && i < |out|
    ensures RowFits(out[i], UnarySchema(Aggregate(keys, aggs), s).value)
  {
    var text := texts[i];
    GroupRowFits(keys, aggs, s, rows, text, out[i]);
  }

  lemma InitialFits(aggs: seq<Agg>, s: Schema)
    requires AggTypes(aggs, s).Some?
    ensures RowFits(InitialRow(aggs), AggTypes(aggs, s).value)
  {
    forall i | 0 <= i < |aggs|
      ensures |AggTypes(aggs, s).value| == |aggs| && Fits(Initial(aggs[i]), AggTypes(aggs, s).value[i])
    {
      AggTypesAt(aggs, s, i);
    }
  }

  lemma GroupRowFits(keys: seq<Expr>, aggs: seq<Agg>, s: Schema, rows: seq<Row>, text: string, r: Row)
    requires AllFit(rows, s) && UnarySchema(Aggregate(keys, aggs), s).Some? && OutputRow(keys, aggs, GroupRows(keys, rows, text), r)
    ensures RowFits(r, UnarySchema(Aggregate(keys, aggs), s).value)
  {
    var group := GroupRows(keys, rows, text);
    forall i | 0 <= i < |group| ensures RowFits(group[i], s) { assert group[i] in rows; }
    KeyValsFit(keys, s, group[0]);
    var n, ts := |keys|, AggTypes(aggs, s).value;
    if aggs == [] { assert ts == []; } else { AggTypesAt(aggs, s, 0); }
    forall i | 0 <= i < |aggs| ensures Fits(r[n..][i], ts[i]) {
      AggTypesAt(aggs, s, i);
      AggFits(aggs[i], s, group);
    }
    assert r == r[..n] + r[n..];
  }

  lemma UnaryFits(node: Node, s: Schema, c: Outcome<Row>, o: Outcome<Row>)
    requires Fitting(c, s) && UnarySchema(node, s).Some? && UnaryOutcome(node, c, o)
    ensures Fitting(o, UnarySchema(node, s).value)
  {
    match node {
      case Aggregate(keys, aggs) => if o.Gave? { OutputFits(keys, aggs, s, c.rows, o.rows); }
      case Sort(_) =>
        if o.Gave? {
          SameMembers(c.rows, o.rows);
          forall i | 0 <= i < |o.rows| ensures RowFits(o.rows[i], s) {
            assert o.rows[i] in c.rows;
            var j :| 0 <= j < |c.rows| && c.rows[j] == o.rows[i];
          }
        }
      case Project(exprs) =>
        if o.Gave? {
          forall i | 0 <= i < |o.rows| ensures RowFits(o.rows[i], TypesOf(exprs, s).value) {
            var j := GivenFrom(c.rows, ProjectStep(exprs), o.rows[i]);
            KeyValsFit(exprs, s, c.rows[j]);
          }
        }
      case _ =>
    }
  }

  lemma BothFit(ls: seq<Row>, rs: seq<Row>, sl: Schema, sr: Schema, a: Row, b: Row)
    requires AllFit(ls, sl) && AllFit(rs, sr) && a in ls && b in rs
    ensures RowFits(a + b, sl + sr)
  {
    var i :| 0 <= i < |ls| && ls[i] == a;
    var j :| 0 <= j < |rs| && rs[j] == b;
  }

  lemma LoopFits(pred: Option<Expr>, l: Outcome<Row>, r: Outcome<Row>, sl: Schema, sr: Schema)
    requires Fitting(l, sl) && Fitting(r, sr)
    ensures Fitting(LoopOutcome(pred, l, r), sl + sr)
  {
    var o := LoopOutcome(pred, l, r);
    if o.Gave? {
      forall i | 0 <= i < |o.rows| ensures RowFits(o.rows[i], sl + sr) {
        var a, b := JoinedFrom(pred, l, r, o.rows[i]);
        BothFit(l.rows, r.rows, sl, sr, a, b);
      }
    }
  }

  lemma HashFits(lk: Expr, rk: Expr, l: Outcome<Row>, r: Outcome<Row>, sl: Schema, sr: Schema)
    requires Fitting(l, sl) && Fitting(r, sr)
    ensures Fitting(HashOutcome(lk, rk, l, r), sl + sr)
  {
    var o := HashOutcome(lk, rk, l, r);
    if o.Gave? {
      forall i | 0 <= i < |o.rows| ensures RowFits(o.rows[i], sl + sr) {
        var a, b := MatchFrom(l.rows, r.rows, SameKey(lk, rk), o.rows[i]);
        BothFit(l.rows, r.rows, sl, sr, a, b);
      }
    }
  }

  lemma {:induction false} MatchFrom(ls: seq<Row>, rs: seq<Row>, c: Matching, o: Row) returns (a: Row, b: Row)
    requires o in RightMajor(ls, rs, c)
    ensures a in ls && b in rs && o == a + b
  {
    if o in MatchesOf(ls, rs[0], c) {
      a := MatchOf(ls, rs[0], c, o);
      b := rs[0];
    } else {
      a, b := MatchFrom(ls, rs[1..], c, o);
    }
  }

  lemma {:induction false} MatchOf(ls: seq<Row>, r: Row, c: Matching, o: Row) returns (a: Row)
    requires o in MatchesOf(ls, r, c)
    ensures a in ls && o == a + r
  {
    if c(ls[0], r) && o == ls[0] + r { a := ls[0]; } else { a := MatchOf(ls[1..], r, c, o); }
  }

  lemma {:induction false} RowAtIs(heap: seq<Entry>, i: nat)
    requires i < |heap| && forall j, k :: 0 <= j < k < |heap| ==> heap[j].0 != heap[k].0
    ensures RowAt(heap, heap[i].0) == heap[i].1
  {
    if i > 0 { RowAtIs(heap[1..], i - 1); }
  }

  lemma {:induction false} RidsWithLive(heap: seq<Entry>, c: nat, key: Int32, i: nat) returns (j: nat)
    requires i < |RidsWith(heap, c, key)|
    ensures j < |heap| && heap[j].0 == RidsWith(heap, c, key)[i] && At(heap[j].1, c) == Some(IntV(key))
  {
    if At(heap[0].1, c) == Some(IntV(key)) && i == 0 {
      j := 0;
    } else {
      var k := RidsWithLive(heap[1..], c, key, if At(heap[0].1, c) == Some(IntV(key)) then i - 1 else i);
      j := k + 1;
    }
  }

  lemma SeqScanFits(t: Table, pred: Option<Expr>)
    requires HeapOK(t)
    ensures Fitting(Drained(t.heap, ScanStep(pred)), StoredTypes(t.types))
  {
    var out := Drained(t.heap, ScanStep(pred)).rows;
    forall i | 0 <= i < |out| ensures RowFits(out[i], StoredTypes(t.types)) { var j := GivenFrom(t.heap, ScanStep(pred), out[i]); }
  }

  // A fetched row is a row of the table.
  lemma IndexScanFits(cat: Catalog, t: nat, index: nat, lookup: Expr, pred: Option<Expr>)
    requires CatalogOK(cat) && t in cat.tables && IndexesTable(cat, index, t)
    ensures Fitting(IndexOutcome(cat, t, index, lookup, pred), StoredTypes(cat.tables[t].types))
  {
    var table, o := cat.tables[t], IndexOutcome(cat, t, index, lookup, pred);
    if o.Gave? && o.rows != [] {
      var key := Eval(lookup, One([])).value;
      var rids, f := LookupRids(cat, t, index, key), FetchStep(table.heap, pred);
      forall i | 0 <= i < |o.rows| ensures RowFits(o.rows[i], StoredTypes(table.types)) {
        var j := GivenFrom(rids, f, o.rows[i]);
        var k := FetchedRow(cat, t, index, key, j);
      }
    }
  }

  // An identifier of the index leads to a row of the table.
  lemma FetchedRow(cat: Catalog, t: nat, index: nat, key: Value, j: nat) returns (k: nat)
    requires CatalogOK(cat) && t in cat.tables && IndexesTable(cat, index, t) && j < |LookupRids(cat, t, index, key)|
    ensures k < |cat.tables[t].heap| && RowAt(cat.tables[t].heap, LookupRids(cat, t, index, key)[j]) == cat.tables[t].heap[k].1
    ensures RowFits(cat.tables[t].heap[k].1, StoredTypes(cat.tables[t].types))
  {
    var table, x := cat.tables[t], cat.indexes[index];
    assert CurrentFor(cat, t, index) && RidsOf(x.entries, key.i) == RidsWith(table.heap, x.attrs[0], key.i);
    k := RidsWithLive(table.heap, x.attrs[0], key.i, j);
    RowAtIs(table.heap, k);
    assert HeapOK(table);
  }

  /** Whatever a well-typed plan returns, also before an error, has the plan's types. */
  lemma {:induction false} PlanSound(cat: Catalog, p: Plan, o: Outcome<Row>)
    requires CatalogOK(cat) && SchemaOf(cat, p).Some? && Yields(cat, p, o)
    ensures Fitting(o, SchemaOf(cat, p).value)
    decreases p
  {
    var cs := p.children;
    match p.node {
      case SeqScan(t, pred) => SeqScanFits(cat.tables[t], pred);
      case IndexScan(t, index, lookup, pred) => IndexScanFits(cat, t, index, lookup, pred);
      case NestedLoop(pred) =>
        var l, r :| Yields(cat, cs[0], l) && Yields(cat, cs[1], r) && o == LoopOutcome(pred, l, r);
        PlanSound(cat, cs[0], l);
        PlanSound(cat, cs[1], r);
        LoopFits(pred, l, r, SchemaOf(cat, cs[0]).value, SchemaOf(cat, cs[1]).value);
      case Hash(lk, rk) =>
        var l, r :| Yields(cat, cs[0], l) && Yields(cat, cs[1], r) && o == HashOutcome(lk, rk, l, r);
        PlanSound(cat, cs[0], l);
        PlanSound(cat, cs[1], r);
        HashFits(lk, rk, l, r, SchemaOf(cat, cs[0]).value, SchemaOf(cat, cs[1]).value);
      case _ =>
        var c :| Yields(cat, cs[0], c) && UnaryOutcome(p.node, c, o);
        PlanSound(cat, cs[0], c);
        UnaryFits(p.node, SchemaOf(cat, cs[0]).value, c, o);
    }
  }

  // ---------- Every plan comes to something ----------

  lemma UnaryExists(node: Node, c: Outcome<Row>) returns (o: Outcome<Row>)
    requires node.Aggregate? || node.Sort? || node.Project? || node.Limit?
    ensures UnaryOutcome(node, c, o)
  {
    o := NoStart;
    match node {
      case Aggregate(keys, aggs) =>
        if c.Ok() && !Fails(keys, aggs, c.rows) {
          var out := OutputExists(keys, aggs, c.rows);
          o := Gave(out, true);
        }
      case Sort(order) =>
        if c.Ok() && !Undecided(order, c.rows) {
          var out := SortedExists(order, c.rows);
          o := Gave(out, true);
        }
      case Project(exprs) => o := ProjectOutcome(exprs, c);
      case Limit(n) => o := LimitOutcome(n, c);
      case _ =>
    }
  }

  /** Running a well-typed plan comes to something: rows, or an error. */
  lemma {:induction false} PlanRuns(cat: Catalog, p: Plan) returns (o: Outcome<Row>)
    requires SchemaOf(cat, p).Some?
    ensures Yields(cat, p, o)
    decreases p
  {
    var cs := p.children;
    match p.node {
      case SeqScan(t, pred) => o := Drained(cat.tables[t].heap, ScanStep(pred));
      case IndexScan(t, index, lookup, pred) => o := IndexOutcome(cat, t, index, lookup, pred);
      case NestedLoop(pred) =>
        var l := PlanRuns(cat, cs[0]);
        var r := PlanRuns(cat, cs[1]);
        o := LoopOutcome(pred, l, r);
      case Hash(lk, rk) =>
        var l := PlanRuns(cat, cs[0]);
        var r := PlanRuns(cat, cs[1]);
        o := HashOutcome(lk, rk, l, r);
      case _ =>
        var c := PlanRuns(cat, cs[0]);
        o := UnaryExists(p.node, c);
    }
  }
}
