/** Optimizing a whole plan: its types stay, an optimized plan that runs returns the rows of the plan, and where
    no error can go unseen the two raise errors together. */
module OptimizerTheorem {
  import opened Wrappers
  import opened Values
  import opened Expressions
  import opened Bags
  import opened Pulls
  import opened Joins
  import opened Aggregates
  import opened Aggregation
  import opened GroupBy
  import opened Plans
  import opened Optimizer

  // ---------- Operators on permuted inputs ----------

  // The argument types of typed aggregates.
  function ArgTypes(aggs: seq<Agg>, s: Schema): (ts: seq<Type>)
    requires forall i :: 0 <= i < |aggs| ==> TypeOf(aggs[i].arg, OneOf(s)).Some?
    ensures |ts| == |aggs| && forall i :: 0 <= i < |aggs| ==> ts[i] == TypeOf(aggs[i].arg, OneOf(s)).value.ty
  {
    seq(|aggs|, i requires 0 <= i < |aggs| => TypeOf(aggs[i].arg, OneOf(s)).value.ty)
  }

  lemma AggsTyped(aggs: seq<Agg>, s: Schema, rows: seq<Row>) returns (ts: seq<Type>)
    requires AllFit(rows, s) && AggTypes(aggs, s).Some?
    ensures ArgsOK(aggs, ts, rows)
  {
    forall i | 0 <= i < |aggs| ensures AggType(aggs[i], s).Some? { AggTypesAt(aggs, s, i); }
    ts := ArgTypes(aggs, s);
    forall i | 0 <= i < |aggs| ensures ArgOK(aggs[i], ts[i], rows) { ArgsFit(aggs[i], s, rows); }
  }

  function Projected(exprs: seq<Expr>): Row -> Row {
    row => if KeyVals(exprs, row).Some? then KeyVals(exprs, row).value else []
  }

  lemma {:induction false} ProjectRows(exprs: seq<Expr>, rows: seq<Row>)
    requires NoneFails(rows, ProjectStep(exprs))
    ensures Emitted(rows, ProjectStep(exprs)) == Map(rows, Projected(exprs))
  {
    if rows != [] {
      FailsFirst(rows, ProjectStep(exprs));
      ProjectRows(exprs, rows[1..]);
      assert Map(rows, Projected(exprs)) == [Projected(exprs)(rows[0])] + Map(rows[1..], Projected(exprs));
    }
  }

  lemma FailsPermuted<T, U>(xs: seq<T>, ys: seq<T>, f: T -> Step<U>)
    requires multiset(xs) == multiset(ys) && NoneFails(xs, f)
    ensures NoneFails(ys, f)
  {
    SameMembers(xs, ys);
    forall i | 0 <= i < |ys| ensures f(ys[i]) != Fail {
      assert ys[i] in xs;
      var j :| 0 <= j < |xs| && xs[j] == ys[i];
    }
  }

  lemma ProjectBelow(exprs: seq<Expr>, c: Outcome<Row>, c': Outcome<Row>)
    requires Below(c, c')
    ensures Below(ProjectOutcome(exprs, c), ProjectOutcome(exprs, c'))
  {
    var f := ProjectStep(exprs);
    if c'.Ok() && Drained(c'.rows, f).ok {
      CollectEmits(c'.rows, f);
      FailsPermuted(c'.rows, c.rows, f);
      CollectEmits(c.rows, f);
      ProjectRows(exprs, c.rows);
      ProjectRows(exprs, c'.rows);
      MapPermuted(c.rows, c'.rows, Projected(exprs));
    }
  }

  lemma TellsPermuted(keys: seq<Expr>, rows: seq<Row>, rows': seq<Row>)
    requires multiset(rows) == multiset(rows') && TellsApart(keys, rows)
    ensures TellsApart(keys, rows')
  {
    SameMembers(rows, rows');
    forall i, j {:trigger rows'[i], rows'[j]} | 0 <= i < |rows'| && 0 <= j < |rows'| ensures ToldApart(keys, rows'[i], rows'[j]) {
      assert rows'[i] in rows && rows'[j] in rows;
      var k :| 0 <= k < |rows| && rows[k] == rows'[i];
      var m :| 0 <= m < |rows| && rows[m] == rows'[j];
      assert ToldApart(keys, rows[k], rows[m]);
    }
  }

  lemma GroupsBelow(keys: seq<Expr>, aggs: seq<Agg>, s: Schema, c: Outcome<Row>, c': Outcome<Row>, o: Outcome<Row>, o': Outcome<Row>)
    requires Fitting(c', s) && UnarySchema(Aggregate(keys, aggs), s).Some? && (c.Ok() ==> TellsApart(keys, c.rows))
    requires Below(c, c') && GroupsOutcome(keys, aggs, c, o) && GroupsOutcome(keys, aggs, c', o')
    ensures Below(o, o')
  {
    if o'.Ok() {
      TellsPermuted(keys, c.rows, c'.rows);
      var ts := AggsTyped(aggs, s, c'.rows);
      OutputStays(keys, aggs, ts, c'.rows, c.rows, o'.rows);
      OutputMeansNoFail(keys, aggs, c.rows, o'.rows);
      OutputPermuted(keys, aggs, ts, c'.rows, c.rows, o'.rows, o.rows);
    }
  }

  // The operator does not look at the order of these rows.
  predicate OrderFree(node: Node, c: Outcome<Row>) {
    !node.Limit? && (node.Aggregate? && c.Ok() ==> TellsApart(node.keys, c.rows))
  }

  /** An operator on another child: if that child raises no error only where this one raises none and returns the
      same rows, the same holds of the operator. */
  lemma UnaryBelow(node: Node, s: Schema, c: Outcome<Row>, c': Outcome<Row>, o: Outcome<Row>, o': Outcome<Row>)
    requires Fitting(c', s) && UnarySchema(node, s).Some? && OrderFree(node, c)
    requires Below(c, c') && UnaryOutcome(node, c, o) && UnaryOutcome(node, c', o')
    ensures Below(o, o')
  {
    match node {
      case Aggregate(keys, aggs) => GroupsBelow(keys, aggs, s, c, c', o, o');
      case Project(exprs) => ProjectBelow(exprs, c, c');
      case _ =>
    }
  }

  // ---------- The types stay ----------

  // The optimizer may run without a catalog; otherwise it is the one the plan runs on.
  predicate SeenAs(catalog: Option<Catalog>, cat: Catalog) {
    catalog == None || catalog == Some(cat)
  }

  // What the optimizer makes of a node.
  lemma OptimizedNode(catalog: Option<Catalog>, p: Plan)
    ensures var q, cs := Optimized(catalog, p), OptimizedAll(catalog, p);
      && (p.node.SeqScan? && p.children == [] ==> q == ToIndexScan(catalog, p))
      && (p.node.NestedLoop? ==> q == ToHashJoin(Plan(p.node, cs)))
      && (!p.node.SeqScan? && !p.node.NestedLoop? ==> q == Plan(p.node, cs))
  {
    if p.children == [] {
      assert OptimizedAll(catalog, p) == p.children;
      assert Plan(p.node, OptimizedAll(catalog, p)) == p;
    }
  }

  /** The optimized plan has the plan's types. */
  lemma {:induction false} TypesStay(catalog: Option<Catalog>, cat: Catalog, p: Plan)
    requires CatalogOK(cat) && SchemaOf(cat, p).Some? && SeenAs(catalog, cat)
    ensures SchemaOf(cat, Optimized(catalog, p)) == SchemaOf(cat, p)
    decreases p
  {
    OptimizedNode(catalog, p);
    var cs := OptimizedAll(catalog, p);
    forall i | 0 <= i < |cs| ensures SchemaOf(cat, cs[i]) == SchemaOf(cat, p.children[i]) {
      assert SchemaOf(cat, p.children[i]).Some?;
      TypesStay(catalog, cat, p.children[i]);
    }
    if p.node.SeqScan? {
      if catalog.Some? && ToIndexScan(catalog, p) != p { Rewritten(cat, p); }
    } else if p.node.NestedLoop? {
      var q := Plan(p.node, cs);
      assert SchemaOf(cat, q) == SchemaOf(cat, p);
      if ToHashJoin(q) != q { RewrittenJoin(cat, q); }
    }
  }

  // ---------- What the nodes must meet ----------

  /** A plan without joins to rewrite, groups or sorts: its rows come in one order. */
  predicate Fixed(p: Plan)
    decreases p
  {
    && !p.node.Aggregate? && !p.node.Sort? && ToHashJoin(p) == p
    && forall i :: 0 <= i < |p.children| ==> Fixed(p.children[i])
  }

  /** The rewrites and the order of rows leave what this node returns alone: a null constant finds no row of the
      scan it is looked up for, keys of a rewritten join never clash, texts tell group keys apart, and a LIMIT is
      taken of rows in one order. */
  ghost predicate NodeSame(catalog: Option<Catalog>, cat: Catalog, p: Plan) {
    && (p.node.SeqScan? && ToIndexScan(catalog, p) != p ==> NullHarmless(cat, p, ToIndexScan(catalog, p)))
    && (ComparesColumns(p) && ToHashJoin(p) != p ==> NeverClash(cat, p))
    && (p.node.Aggregate? && |p.children| == 1 ==>
          forall c :: Yields(cat, p.children[0], c) && c.Ok() ==> TellsApart(p.node.keys, c.rows))
    && (p.node.Limit? && |p.children| == 1 ==> Fixed(p.children[0]))
  }

  ghost predicate AllSame(catalog: Option<Catalog>, cat: Catalog, p: Plan)
    decreases p
  {
    NodeSame(catalog, cat, p) && forall i :: 0 <= i < |p.children| ==> AllSame(catalog, cat, p.children[i])
  }

  /** No error goes unseen at this node that the optimized plan comes to; and no error is come to only in the order
      the plan returns its rows in, or, unless one way is enough, only in that of the optimized plan. */
  ghost predicate NodeKeeps(catalog: Option<Catalog>, cat: Catalog, p: Plan, oneWay: bool) {
    p.node.NestedLoop? && |p.children| == 2 ==>
      if ToHashJoin(p) != p then oneWay || NothingUnseen(cat, p)
      else StartTogether(cat, p, Plan(p.node, OptimizedAll(catalog, p)), oneWay)
  }

  ghost predicate AllKeep(catalog: Option<Catalog>, cat: Catalog, p: Plan, oneWay: bool)
    decreases p
  {
    NodeKeeps(catalog, cat, p, oneWay) && forall i :: 0 <= i < |p.children| ==> AllKeep(catalog, cat, p.children[i], oneWay)
  }

  // ---------- One node ----------

  // A scan and what becomes of it come to the same.
  lemma ScanStays(catalog: Option<Catalog>, cat: Catalog, p: Plan, o: Outcome<Row>, o': Outcome<Row>)
    requires CatalogOK(cat) && SchemaOf(cat, p).Some? && NodeSame(catalog, cat, p) && SeenAs(catalog, cat)
    requires p.node.SeqScan? || p.node.IndexScan?
    requires Yields(cat, p, o) && Yields(cat, Optimized(catalog, p), o')
    ensures o == o'
  {
    OptimizedNode(catalog, p);
    if p.node.SeqScan? && ToIndexScan(catalog, p) != p {
      var before, after := ScanRuns(cat, p);
    } else {
      assert OptimizedAll(catalog, p) == [];
      assert Optimized(catalog, p) == p;
    }
  }

  // The node a join becomes.
  lemma JoinNode(catalog: Option<Catalog>, p: Plan)
    requires p.node.NestedLoop? || p.node.Hash?
    ensures Optimized(catalog, p) == Plan(ToHashJoin(p).node, OptimizedAll(catalog, p))
    ensures ToHashJoin(p).node == p.node || ToHashJoin(p).node.Hash?
    ensures ToHashJoin(p).node == p.node <==> ToHashJoin(p) == p
  {
    OptimizedNode(catalog, p);
  }

  // The runs of an operator and of what becomes of it, over runs of their children.
  lemma SplitUnary(catalog: Option<Catalog>, cat: Catalog, p: Plan, o: Outcome<Row>, o': Outcome<Row>)
    returns (s: Schema, c: Outcome<Row>, c': Outcome<Row>)
    requires CatalogOK(cat) && SchemaOf(cat, p).Some? && SeenAs(catalog, cat)
    requires !(p.node.SeqScan? || p.node.IndexScan? || p.node.NestedLoop? || p.node.Hash?)
    requires Yields(cat, p, o) && Yields(cat, Optimized(catalog, p), o')
    ensures |p.children| == 1 && SchemaOf(cat, p.children[0]) == Some(s) && UnarySchema(p.node, s).Some?
    ensures Yields(cat, p.children[0], c) && Yields(cat, Optimized(catalog, p.children[0]), c')
    ensures UnaryOutcome(p.node, c, o) && UnaryOutcome(p.node, c', o') && Fitting(c, s) && Fitting(c', s)
  {
    OptimizedNode(catalog, p);
    c :| Yields(cat, p.children[0], c) && UnaryOutcome(p.node, c, o);
    c' :| Yields(cat, OptimizedAll(catalog, p)[0], c') && UnaryOutcome(p.node, c', o');
    s := SchemaOf(cat, p.children[0]).value;
    TypesStay(catalog, cat, p.children[0]);
    PlanSound(cat, p.children[0], c);
    PlanSound(cat, Optimized(catalog, p.children[0]), c');
  }

  // The same for a join.
  lemma SplitBoth(catalog: Option<Catalog>, cat: Catalog, p: Plan, o: Outcome<Row>, o': Outcome<Row>)
    returns (w: nat, l: Outcome<Row>, r: Outcome<Row>, l': Outcome<Row>, r': Outcome<Row>)
    requires CatalogOK(cat) && SchemaOf(cat, p).Some? && SeenAs(catalog, cat) && (p.node.NestedLoop? || p.node.Hash?)
    requires Yields(cat, p, o) && Yields(cat, Optimized(catalog, p), o')
    ensures |p.children| == 2 && SchemaOf(cat, p.children[0]).Some? && SchemaOf(cat, p.children[1]).Some?
    ensures Yields(cat, p.children[0], l) && Yields(cat, Optimized(catalog, p.children[0]), l')
    ensures Yields(cat, p.children[1], r) && Yields(cat, Optimized(catalog, p.children[1]), r')
    ensures Joined(p.node, l, r, o) && Joined(ToHashJoin(p).node, l', r', o')
    ensures (l.Ok() ==> Wide(l.rows, w)) && (l'.Ok() ==> Wide(l'.rows, w))
  {
    JoinNode(catalog, p);
    l, r := SplitJoin(cat, p, o);
    l', r' := SplitJoin(cat, Optimized(catalog, p), o');
    w := |SchemaOf(cat, p.children[0]).value|;
    TypesStay(catalog, cat, p.children[0]);
    PlanSound(cat, p.children[0], l);
    PlanSound(cat, Optimized(catalog, p.children[0]), l');
  }

  /** A plan whose rows come in one order comes to the same once it is optimized. */
  lemma {:induction false} FixedStays(catalog: Option<Catalog>, cat: Catalog, p: Plan, o: Outcome<Row>, o': Outcome<Row>)
    requires CatalogOK(cat) && SchemaOf(cat, p).Some? && AllSame(catalog, cat, p) && Fixed(p) && SeenAs(catalog, cat)
    requires Yields(cat, p, o) && Yields(cat, Optimized(catalog, p), o')
    ensures o == o'
    decreases p
  {
    if p.node.SeqScan? || p.node.IndexScan? {
      ScanStays(catalog, cat, p, o, o');
    } else if p.node.NestedLoop? || p.node.Hash? {
      var w, l, r, l', r' := SplitBoth(catalog, cat, p, o, o');
      assert AllSame(catalog, cat, p.children[0]) && AllSame(catalog, cat, p.children[1]);
      FixedStays(catalog, cat, p.children[0], l, l');
      FixedStays(catalog, cat, p.children[1], r, r');
    } else {
      var s, c, c' := SplitUnary(catalog, cat, p, o, o');
      assert AllSame(catalog, cat, p.children[0]);
      FixedStays(catalog, cat, p.children[0], c, c');
    }
  }

  // ---------- Rows ----------

  // Two runs that raise no error return the same rows.
  predicate SameRows(o: Outcome<Row>, o': Outcome<Row>) {
    o.Ok() && o'.Ok() ==> multiset(o.rows) == multiset(o'.rows)
  }

  lemma JoinedRuns(node: Node, l: Outcome<Row>, r: Outcome<Row>, o: Outcome<Row>)
    requires Joined(node, l, r, o) && o.Ok()
    ensures l.Ok() && r.Gave? && (l.rows == [] || r.ok)
  {
    if node.NestedLoop? { LoopJoinRows(node.pred, l, r); }
  }

  lemma EmptyJoin(node: Node, l: Outcome<Row>, r: Outcome<Row>, o: Outcome<Row>)
    requires Joined(node, l, r, o) && o.Ok() && l.Ok() && l.rows == []
    ensures o.rows == []
  {
    match node {
      case NestedLoop(pred) => LoopJoinRows(pred, l, r);
      case Hash(lk, rk) => EmptyMajor(r.rows, SameKey(lk, rk));
      case _ =>
    }
  }

  lemma {:induction false} EmptyMajor(rs: seq<Row>, c: Matching)
    ensures RightMajor([], rs, c) == []
  {
    if rs != [] { EmptyMajor(rs[1..], c); }
  }

  lemma EmptyBag(l: Outcome<Row>, l': Outcome<Row>)
    requires SameRows(l, l') && l.Ok() && l'.Ok()
    ensures l.rows == [] <==> l'.rows == []
  {
    assert |multiset(l.rows)| == |l.rows| && |multiset(l'.rows)| == |l'.rows|;
  }

  // A join and what becomes of it, when both run.
  lemma JoinRows(cat: Catalog, p: Plan, w: nat, o: Outcome<Row>, o': Outcome<Row>,
                 l: Outcome<Row>, r: Outcome<Row>, l': Outcome<Row>, r': Outcome<Row>)
    requires CatalogOK(cat) && SchemaOf(cat, p).Some? && (p.node.NestedLoop? || p.node.Hash?) && |p.children| == 2
    requires Yields(cat, p.children[0], l) && Yields(cat, p.children[1], r)
    requires ComparesColumns(p) && ToHashJoin(p) != p ==> NeverClash(cat, p)
    requires Joined(p.node, l, r, o) && Joined(ToHashJoin(p).node, l', r', o') && o.Ok() && o'.Ok()
    requires SameRows(l, l') && SameRows(r, r') && (l'.Ok() ==> Wide(l'.rows, w))
    ensures multiset(o.rows) == multiset(o'.rows)
  {
    JoinedRuns(p.node, l, r, o);
    JoinedRuns(ToHashJoin(p).node, l', r', o');
    EmptyBag(l, l');
    if l.rows == [] {
      EmptyJoin(p.node, l, r, o);
      EmptyJoin(ToHashJoin(p).node, l', r', o');
    } else {
      if ToHashJoin(p) != p { JoinRuns(cat, p, l, r); }
      JoinBelow(cat, p, w, o, o', l, r, l', r');
    }
  }

  /** If plan and optimized plan both run through, they return the same rows up to their order, whatever errors
      other runs or other parts of them come to. */
  lemma {:induction false} OptimizedRows(catalog: Option<Catalog>, cat: Catalog, p: Plan, o: Outcome<Row>, o': Outcome<Row>)
    requires CatalogOK(cat) && SchemaOf(cat, p).Some? && AllSame(catalog, cat, p) && SeenAs(catalog, cat)
    requires Yields(cat, p, o) && Yields(cat, Optimized(catalog, p), o')
    ensures SameRows(o, o')
    decreases p
  {
    if o.Ok() && o'.Ok() {
      if p.node.SeqScan? || p.node.IndexScan? {
        ScanStays(catalog, cat, p, o, o');
      } else if p.node.NestedLoop? || p.node.Hash? {
        var w, l, r, l', r' := SplitBoth(catalog, cat, p, o, o');
        assert AllSame(catalog, cat, p.children[0]) && AllSame(catalog, cat, p.children[1]);
        OptimizedRows(catalog, cat, p.children[0], l, l');
        OptimizedRows(catalog, cat, p.children[1], r, r');
        JoinRows(cat, p, w, o, o', l, r, l', r');
      } else if p.node.Limit? {
        assert AllSame(catalog, cat, p.children[0]);
        LimitStays(catalog, cat, p, o, o');
      } else {
        var s, c, c' := SplitUnary(catalog, cat, p, o, o');
        assert AllSame(catalog, cat, p.children[0]);
        OptimizedRows(catalog, cat, p.children[0], c, c');
        UnaryBelow(p.node, s, c, c', o, o');
      }
    }
  }

  lemma LimitStays(catalog: Option<Catalog>, cat: Catalog, p: Plan, o: Outcome<Row>, o': Outcome<Row>)
    requires CatalogOK(cat) && SchemaOf(cat, p).Some? && AllSame(catalog, cat, p) && SeenAs(catalog, cat) && p.node.Limit?
    requires Yields(cat, p, o) && Yields(cat, Optimized(catalog, p), o')
    ensures o == o'
  {
    var s, c, c' := SplitUnary(catalog, cat, p, o, o');
    assert AllSame(catalog, cat, p.children[0]);
    FixedStays(catalog, cat, p.children[0], c, c');
  }

  // ---------- Errors ----------

  // The relation of the theorem: one way, or both.
  predicate Kept(o: Outcome<Row>, o': Outcome<Row>, oneWay: bool) {
    Below(o, o') && (oneWay || Below(o', o))
  }

  // A join and what becomes of it, for children of which the same holds.
  lemma JoinBelow(cat: Catalog, p: Plan, w: nat, o: Outcome<Row>, o': Outcome<Row>,
                  l: Outcome<Row>, r: Outcome<Row>, l': Outcome<Row>, r': Outcome<Row>)
    requires CatalogOK(cat) && SchemaOf(cat, p).Some? && (p.node.NestedLoop? || p.node.Hash?)
    requires |p.children| == 2 && Yields(cat, p.children[0], l) && Yields(cat, p.children[1], r)
    requires ComparesColumns(p) && ToHashJoin(p) != p ==> NeverClash(cat, p)
    requires Joined(p.node, l, r, o) && Joined(ToHashJoin(p).node, l', r', o')
    requires Below(l, l') && Below(r, r') && (l'.Ok() ==> Wide(l'.rows, w))
    requires p.node.NestedLoop? && ToHashJoin(p) == p && l.Ok() && l.rows == [] ==> (r'.Gave? ==> r.Gave?)
    ensures Below(o, o')
  {
    if p.node.Hash? {
      HashBelow(p.node.leftKey, p.node.rightKey, w, l, r, l', r');
    } else if ToHashJoin(p) != p {
      JoinRuns(cat, p, l, r);
      HashBelow(ToHashJoin(p).node.leftKey, ToHashJoin(p).node.rightKey, w, l, r, l', r');
    } else {
      if l'.Ok() && l'.rows == [] { assert l.rows == [] by { assert |multiset(l.rows)| == |l.rows|; } }
      LoopBelow(p.node.pred, w, l, r, l', r');
    }
  }

  // The other way round.
  lemma JoinAbove(cat: Catalog, p: Plan, w: nat, o: Outcome<Row>, o': Outcome<Row>,
                  l: Outcome<Row>, r: Outcome<Row>, l': Outcome<Row>, r': Outcome<Row>)
    requires CatalogOK(cat) && SchemaOf(cat, p).Some? && (p.node.NestedLoop? || p.node.Hash?)
    requires |p.children| == 2 && Yields(cat, p.children[0], l) && Yields(cat, p.children[1], r)
    requires ComparesColumns(p) && ToHashJoin(p) != p ==> NeverClash(cat, p)
    requires Joined(p.node, l, r, o) && Joined(ToHashJoin(p).node, l', r', o')
    requires Below(l', l) && Below(r', r) && (l.Ok() ==> Wide(l.rows, w))
    requires p.node.NestedLoop? && l.Ok() && l.rows == [] && r.Gave? ==> if ToHashJoin(p) == p then r'.Gave? else r.ok
    ensures Below(o', o)
  {
    if p.node.Hash? {
      HashBelow(p.node.leftKey, p.node.rightKey, w, l', r', l, r);
    } else if ToHashJoin(p) != p {
      JoinRuns(cat, p, l, r);
      HashBelow(ToHashJoin(p).node.leftKey, ToHashJoin(p).node.rightKey, w, l', r', l, r);
    } else {
      LoopBelow(p.node.pred, w, l', r', l, r);
    }
  }

  // What the condition on the starts says of these runs.
  lemma StartsAt(catalog: Option<Catalog>, cat: Catalog, p: Plan, oneWay: bool,
                 l: Outcome<Row>, r: Outcome<Row>, l': Outcome<Row>, r': Outcome<Row>)
    requires p.node.NestedLoop? && |p.children| == 2 && NodeKeeps(catalog, cat, p, oneWay) && l.Ok() && l.rows == []
    requires Yields(cat, p.children[0], l) && Yields(cat, Optimized(catalog, p.children[0]), l')
    requires Yields(cat, p.children[1], r) && Yields(cat, Optimized(catalog, p.children[1]), r')
    ensures if ToHashJoin(p) == p then StartAlike(r, r', oneWay) else oneWay || (r.Gave? ==> r.ok)
  {
    if ToHashJoin(p) == p {
      var q := Plan(p.node, OptimizedAll(catalog, p));
      assert StartTogether(cat, p, q, oneWay);
      assert q.children[0] == Optimized(catalog, p.children[0]) && q.children[1] == Optimized(catalog, p.children[1]);
    }
  }

  lemma JoinKept(catalog: Option<Catalog>, cat: Catalog, p: Plan, oneWay: bool, w: nat, o: Outcome<Row>, o': Outcome<Row>,
                 l: Outcome<Row>, r: Outcome<Row>, l': Outcome<Row>, r': Outcome<Row>)
    requires CatalogOK(cat) && SchemaOf(cat, p).Some? && (p.node.NestedLoop? || p.node.Hash?) && |p.children| == 2
    requires NodeSame(catalog, cat, p) && NodeKeeps(catalog, cat, p, oneWay)
    requires Yields(cat, p.children[0], l) && Yields(cat, Optimized(catalog, p.children[0]), l')
    requires Yields(cat, p.children[1], r) && Yields(cat, Optimized(catalog, p.children[1]), r')
    requires Joined(p.node, l, r, o) && Joined(ToHashJoin(p).node, l', r', o')
    requires Kept(l, l', oneWay) && Kept(r, r', oneWay) && (l.Ok() ==> Wide(l.rows, w)) && (l'.Ok() ==> Wide(l'.rows, w))
    ensures Kept(o, o', oneWay)
  {
    if p.node.NestedLoop? && l.Ok() && l.rows == [] { StartsAt(catalog, cat, p, oneWay, l, r, l', r'); }
    JoinBelow(cat, p, w, o, o', l, r, l', r');
    if !oneWay { JoinAbove(cat, p, w, o, o', l, r, l', r'); }
  }

  /** If the condition on errors holds at every node, one way or both, then so does the relation of what the plan
      and the optimized plan come to. */
  lemma {:induction false} KeptAll(catalog: Option<Catalog>, cat: Catalog, p: Plan, oneWay: bool, o: Outcome<Row>, o': Outcome<Row>)
    requires CatalogOK(cat) && SchemaOf(cat, p).Some? && SeenAs(catalog, cat)
    requires AllSame(catalog, cat, p) && AllKeep(catalog, cat, p, oneWay)
    requires Yields(cat, p, o) && Yields(cat, Optimized(catalog, p), o')
    ensures Kept(o, o', oneWay)
    decreases p
  {
    if p.node.SeqScan? || p.node.IndexScan? {
      ScanStays(catalog, cat, p, o, o');
    } else if p.node.NestedLoop? || p.node.Hash? {
      var w, l, r, l', r' := SplitBoth(catalog, cat, p, o, o');
      assert AllSame(catalog, cat, p.children[0]) && AllSame(catalog, cat, p.children[1]);
      assert AllKeep(catalog, cat, p.children[0], oneWay) && AllKeep(catalog, cat, p.children[1], oneWay);
      KeptAll(catalog, cat, p.children[0], oneWay, l, l');
      KeptAll(catalog, cat, p.children[1], oneWay, r, r');
      JoinKept(catalog, cat, p, oneWay, w, o, o', l, r, l', r');
    } else if p.node.Limit? {
      LimitStays(catalog, cat, p, o, o');
    } else {
      var s, c, c' := SplitUnary(catalog, cat, p, o, o');
      assert AllSame(catalog, cat, p.children[0]) && AllKeep(catalog, cat, p.children[0], oneWay);
      KeptAll(catalog, cat, p.children[0], oneWay, c, c');
      UnaryKept(p.node, s, oneWay, c, c', o, o');
    }
  }

  lemma UnaryKept(node: Node, s: Schema, oneWay: bool, c: Outcome<Row>, c': Outcome<Row>, o: Outcome<Row>, o': Outcome<Row>)
    requires Fitting(c, s) && Fitting(c', s) && UnarySchema(node, s).Some? && OrderFree(node, c)
    requires Kept(c, c', oneWay) && UnaryOutcome(node, c, o) && UnaryOutcome(node, c', o')
    ensures Kept(o, o', oneWay)
  {
    UnaryBelow(node, s, c, c', o, o');
    if !oneWay {
      if node.Aggregate? && c'.Ok() { TellsPermuted(node.keys, c.rows, c'.rows); }
      UnaryBelow(node, s, c', c, o', o);
    }
  }

  /** The conditions are exact join by join: where the children of a nested-loop join are kept, the join is kept if
      and only if no error goes unseen and no keys clash, if it is rewritten, and otherwise if and only if the right
      sides start together for an empty left one. */
  lemma JoinDecides(catalog: Option<Catalog>, cat: Catalog, p: Plan)
    requires CatalogOK(cat) && SchemaOf(cat, p).Some? && SeenAs(catalog, cat) && p.node.NestedLoop? && |p.children| == 2
    requires Equivalent(cat, p.children[0], Optimized(catalog, p.children[0]))
    requires Equivalent(cat, p.children[1], Optimized(catalog, p.children[1]))
    ensures Equivalent(cat, p, Optimized(catalog, p)) <==>
      NodeKeeps(catalog, cat, p, false) && (ComparesColumns(p) && ToHashJoin(p) != p ==> NeverClash(cat, p))
  {
    SidesTyped(catalog, cat, p);
    var q := Plan(ToHashJoin(p).node, OptimizedAll(catalog, p));
    SameSides(cat, p, q);
    if ToHashJoin(p) != p {
      JoinRewriteIff(cat, p, q);
    } else {
      LoopKeepsIff(cat, p, q);
    }
  }

  lemma SameSides(cat: Catalog, p: Plan, q: Plan)
    requires |p.children| == |q.children| == 2
    requires Equivalent(cat, p.children[0], q.children[0]) && Equivalent(cat, p.children[1], q.children[1])
    ensures SameChildren(cat, p, q)
  {
  }

  lemma SidesTyped(catalog: Option<Catalog>, cat: Catalog, p: Plan)
    requires CatalogOK(cat) && SchemaOf(cat, p).Some? && SeenAs(catalog, cat) && p.node.NestedLoop? && |p.children| == 2
    ensures var q := Plan(ToHashJoin(p).node, OptimizedAll(catalog, p));
      && Optimized(catalog, p) == q && q.children == [Optimized(catalog, p.children[0]), Optimized(catalog, p.children[1])]
      && SchemaOf(cat, q).Some? && (ToHashJoin(p) != p ==> RewrittenTo(cat, p, q)) && (ToHashJoin(p) == p ==> q.node == p.node)
  {
    JoinNode(catalog, p);
    TypesStay(catalog, cat, p);
    TypesStay(catalog, cat, p.children[0]);
    TypesStay(catalog, cat, p.children[1]);
  }
}
