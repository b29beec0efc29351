/** When the optimizer keeps a plan, as a check of the plan tree and its types. */
module OptimizerChecks {
  import opened Wrappers
  import opened Values
  import opened Expressions
  import opened Pulls
  import opened Joins
  import opened Aggregation
  import opened GroupKeys
  import opened GroupBy
  import opened Plans
  import opened CalmPlans
  import opened Optimizer
  import opened OptimizerTheorem

  // ---------- Rows ----------

  // Key columns of separable types tell the keys of the rows apart.
  lemma KeysTold(keys: seq<Expr>, s: Schema, rows: seq<Row>)
    requires AllFit(rows, s) && TypesOf(keys, s).Some? && Separable(TypesOf(keys, s).value)
    ensures TellsApart(keys, rows)
  {
    var ks := TypesOf(keys, s).value;
    TextsTellIff(ks);
    forall i, j {:trigger rows[i], rows[j]} | 0 <= i < |rows| && 0 <= j < |rows| ensures ToldApart(keys, rows[i], rows[j]) {
      if KeyVals(keys, rows[i]).Some? && KeyVals(keys, rows[j]).Some? {
        KeyValsFit(keys, s, rows[i]);
        KeyValsFit(keys, s, rows[j]);
      }
    }
  }

  predicate LookupNonNull(q: Plan) {
    q.node.IndexScan? && q.node.lookup.Constant? && !q.node.lookup.v.NullV?
  }

  predicate SeparableKeys(node: Node, s: Schema) {
    node.Aggregate? ==> TypesOf(node.keys, s).Some? && Separable(TypesOf(node.keys, s).value)
  }

  /** No lookup of a null constant, no nullable keys at a rewritten join, group keys with at most one string, never
      null, and a LIMIT only of rows in one order. */
  predicate NodeSafe(cat: Catalog, p: Plan) {
    && (p.node.SeqScan? && ToIndexScan(Some(cat), p) != p ==> LookupNonNull(ToIndexScan(Some(cat), p)))
    && (p.node.NestedLoop? && |p.children| == 2 && ToHashJoin(p) != p ==> KeysNonNull(cat, p))
    && (p.node.Aggregate? && |p.children| == 1 && SchemaOf(cat, p.children[0]).Some? ==>
          SeparableKeys(p.node, SchemaOf(cat, p.children[0]).value))
    && (p.node.Limit? && |p.children| == 1 ==> Fixed(p.children[0]))
  }

  predicate AllSafe(cat: Catalog, p: Plan)
    decreases p
  {
    NodeSafe(cat, p) && forall i :: 0 <= i < |p.children| ==> AllSafe(cat, p.children[i])
  }

  lemma NodeSafeSame(catalog: Option<Catalog>, cat: Catalog, p: Plan)
    requires CatalogOK(cat) && SchemaOf(cat, p).Some? && NodeSafe(cat, p) && SeenAs(catalog, cat)
    ensures NodeSame(catalog, cat, p)
  {
    if p.node.SeqScan? && ToIndexScan(catalog, p) != p { Rewritten(cat, p); }
    if p.node.NestedLoop? && ToHashJoin(p) != p { NonNullMeet(cat, p); }
    if p.node.Aggregate? {
      forall c | Yields(cat, p.children[0], c) && c.Ok() ensures TellsApart(p.node.keys, c.rows) {
        PlanSound(cat, p.children[0], c);
        KeysTold(p.node.keys, SchemaOf(cat, p.children[0]).value, c.rows);
      }
    }
  }

  lemma {:induction false} SafeSame(catalog: Option<Catalog>, cat: Catalog, p: Plan)
    requires CatalogOK(cat) && SchemaOf(cat, p).Some? && AllSafe(cat, p) && SeenAs(catalog, cat)
    ensures AllSame(catalog, cat, p)
    decreases p
  {
    NodeSafeSame(catalog, cat, p);
    forall i | 0 <= i < |p.children| ensures AllSame(catalog, cat, p.children[i]) {
      assert SchemaOf(cat, p.children[i]).Some?;
      SafeSame(catalog, cat, p.children[i]);
    }
  }

  /** Plan and optimized plan return the same rows up to their order whenever both run through. */
  lemma RowsStay(catalog: Option<Catalog>, cat: Catalog, p: Plan, o: Outcome<Row>, o': Outcome<Row>)
    requires CatalogOK(cat) && SchemaOf(cat, p).Some? && AllSafe(cat, p) && SeenAs(catalog, cat)
    requires Yields(cat, p, o) && Yields(cat, Optimized(catalog, p), o') && o.Ok() && o'.Ok()
    ensures multiset(o.rows) == multiset(o'.rows)
  {
    SafeSame(catalog, cat, p);
    OptimizedRows(catalog, cat, p, o, o');
  }

  // ---------- Errors ----------

  // Whether its first row can be had does not depend on the order of rows.
  predicate Prompt(cat: Catalog, p: Plan, oneWay: bool) {
    Fixed(p) || p.node.Hash? || p.node.Aggregate? || p.node.Sort? || Calm(cat, p) || (oneWay && ToHashJoin(p) != p)
  }

  /** Whether the plan starts does not depend on the order in which its parts return their rows, nor, unless one way
      is enough, on a rewrite. */
  predicate Steady(cat: Catalog, p: Plan, oneWay: bool)
    decreases p
  {
    Fixed(p) || Calm(cat, p) ||
    match p.node
    case NestedLoop(_) =>
      if ToHashJoin(p) != p then oneWay
      else |p.children| == 2 && Steady(cat, p.children[0], oneWay) && Steady(cat, p.children[1], oneWay) && Prompt(cat, p.children[0], oneWay)
    case Project(_) => |p.children| == 1 && Steady(cat, p.children[0], oneWay)
    case Limit(_) => false
    case _ => true
  }

  /** Also the right side of a join that is rewritten can raise no error, unless one way is enough; and that of one
      that stays a nested-loop join starts or not whatever the order of rows. */
  predicate Safe(cat: Catalog, p: Plan, oneWay: bool)
    decreases p
  {
    && NodeSafe(cat, p)
    && (p.node.NestedLoop? && |p.children| == 2 ==>
          if ToHashJoin(p) != p then oneWay || Calm(cat, p.children[1]) else Steady(cat, p.children[1], oneWay))
    && forall i :: 0 <= i < |p.children| ==> Safe(cat, p.children[i], oneWay)
  }

  lemma {:induction false} SafeAllSafe(cat: Catalog, p: Plan, oneWay: bool)
    requires Safe(cat, p, oneWay)
    ensures AllSafe(cat, p)
    decreases p
  {
    forall i | 0 <= i < |p.children| ensures AllSafe(cat, p.children[i]) { SafeAllSafe(cat, p.children[i], oneWay); }
  }

  predicate FirstOK(o: Outcome<Row>) {
    o.Gave? ==> o.rows != [] || o.ok
  }

  // A plan whose first row can be had together with that of the optimized plan.
  lemma FirstKept(catalog: Option<Catalog>, cat: Catalog, p: Plan, oneWay: bool, o: Outcome<Row>, o': Outcome<Row>)
    requires CatalogOK(cat) && SchemaOf(cat, p).Some? && SeenAs(catalog, cat)
    requires AllSame(catalog, cat, p) && AllKeep(catalog, cat, p, oneWay) && Prompt(cat, p, oneWay)
    requires Yields(cat, p, o) && Yields(cat, Optimized(catalog, p), o') && o.Gave? && o'.Gave?
    ensures (FirstOK(o') ==> FirstOK(o)) && (oneWay || (FirstOK(o) ==> FirstOK(o')))
  {
    if Fixed(p) {
      FixedStays(catalog, cat, p, o, o');
    } else {
      KeptAll(catalog, cat, p, oneWay, o, o');
      if Calm(cat, p) { CalmRuns(cat, p, o); } else { AtOnce(catalog, cat, p, o, o'); }
    }
  }

  // These run their children through when they start.
  lemma AtOnce(catalog: Option<Catalog>, cat: Catalog, p: Plan, o: Outcome<Row>, o': Outcome<Row>)
    requires CatalogOK(cat) && SchemaOf(cat, p).Some? && SeenAs(catalog, cat)
    requires p.node.Hash? || p.node.Aggregate? || p.node.Sort? || ToHashJoin(p) != p
    requires Yields(cat, p, o) && Yields(cat, Optimized(catalog, p), o')
    ensures (o'.Gave? ==> o'.Ok()) && (ToHashJoin(p) == p ==> (o.Gave? ==> o.Ok()))
  {
    if p.node.NestedLoop? || p.node.Hash? {
      JoinNode(catalog, p);
      HashAtOnce(cat, Optimized(catalog, p), o');
      if ToHashJoin(p) == p { HashAtOnce(cat, p, o); }
    } else {
      var s, c, c' := SplitUnary(catalog, cat, p, o, o');
    }
  }

  lemma HashAtOnce(cat: Catalog, p: Plan, o: Outcome<Row>)
    requires p.node.Hash? && Yields(cat, p, o)
    ensures o.Gave? ==> o.Ok()
  {
  }

  /** Plan and optimized plan start together, where that does not depend on the order of rows. */
  lemma {:induction false} StartKept(catalog: Option<Catalog>, cat: Catalog, p: Plan, oneWay: bool, o: Outcome<Row>, o': Outcome<Row>)
    requires CatalogOK(cat) && SchemaOf(cat, p).Some? && SeenAs(catalog, cat)
    requires AllSame(catalog, cat, p) && AllKeep(catalog, cat, p, oneWay) && Steady(cat, p, oneWay)
    requires Yields(cat, p, o) && Yields(cat, Optimized(catalog, p), o')
    ensures StartAlike(o, o', oneWay)
    decreases p, 1
  {
    if Fixed(p) {
      FixedStays(catalog, cat, p, o, o');
    } else if Calm(cat, p) {
      CalmRuns(cat, p, o);
      KeptAll(catalog, cat, p, oneWay, o, o');
    } else if p.node.NestedLoop? && ToHashJoin(p) == p {
      LoopStartKept(catalog, cat, p, oneWay, o, o');
    } else if p.node.Project? {
      var s, c, c' := SplitUnary(catalog, cat, p, o, o');
      assert AllSame(catalog, cat, p.children[0]) && AllKeep(catalog, cat, p.children[0], oneWay);
      StartKept(catalog, cat, p.children[0], oneWay, c, c');
    } else {
      StartAtOnce(catalog, cat, p, oneWay, o, o');
    }
  }

  lemma {:induction false} LoopStartKept(catalog: Option<Catalog>, cat: Catalog, p: Plan, oneWay: bool, o: Outcome<Row>, o': Outcome<Row>)
    requires CatalogOK(cat) && SchemaOf(cat, p).Some? && SeenAs(catalog, cat)
    requires AllSame(catalog, cat, p) && AllKeep(catalog, cat, p, oneWay) && |p.children| == 2
    requires Steady(cat, p.children[0], oneWay) && Steady(cat, p.children[1], oneWay) && Prompt(cat, p.children[0], oneWay)
    requires p.node.NestedLoop? && ToHashJoin(p) == p && Yields(cat, p, o) && Yields(cat, Optimized(catalog, p), o')
    ensures StartAlike(o, o', oneWay)
    decreases p, 0
  {
    var w, l, r, l', r' := SplitBoth(catalog, cat, p, o, o');
    assert AllSame(catalog, cat, p.children[0]) && AllSame(catalog, cat, p.children[1]);
    assert AllKeep(catalog, cat, p.children[0], oneWay) && AllKeep(catalog, cat, p.children[1], oneWay);
    StartKept(catalog, cat, p.children[0], oneWay, l, l');
    StartKept(catalog, cat, p.children[1], oneWay, r, r');
    if l.Gave? && l'.Gave? { FirstKept(catalog, cat, p.children[0], oneWay, l, l'); }
    LoopStarts(p.node.pred, oneWay, l, r, l', r');
  }

  // A nested-loop join starts when both sides do and the first left row can be had.
  lemma LoopStarts(pred: Option<Expr>, oneWay: bool, l: Outcome<Row>, r: Outcome<Row>, l': Outcome<Row>, r': Outcome<Row>)
    requires StartAlike(l, l', oneWay) && StartAlike(r, r', oneWay)
    requires l.Gave? && l'.Gave? ==> (FirstOK(l') ==> FirstOK(l)) && (oneWay || (FirstOK(l) ==> FirstOK(l')))
    ensures StartAlike(LoopOutcome(pred, l, r), LoopOutcome(pred, l', r'), oneWay)
  {
  }

  lemma StartAtOnce(catalog: Option<Catalog>, cat: Catalog, p: Plan, oneWay: bool, o: Outcome<Row>, o': Outcome<Row>)
    requires CatalogOK(cat) && SchemaOf(cat, p).Some? && SeenAs(catalog, cat)
    requires AllSame(catalog, cat, p) && AllKeep(catalog, cat, p, oneWay) && Steady(cat, p, oneWay)
    requires !Fixed(p) && !Calm(cat, p) && !p.node.Project? && !(p.node.NestedLoop? && ToHashJoin(p) == p)
    requires Yields(cat, p, o) && Yields(cat, Optimized(catalog, p), o')
    ensures StartAlike(o, o', oneWay)
  {
    KeptAll(catalog, cat, p, oneWay, o, o');
    AtOnce(catalog, cat, p, o, o');
  }

  lemma NodeSafeKeeps(catalog: Option<Catalog>, cat: Catalog, p: Plan, oneWay: bool)
    requires CatalogOK(cat) && SchemaOf(cat, p).Some? && Safe(cat, p, oneWay) && SeenAs(catalog, cat)
    requires forall i :: 0 <= i < |p.children| ==> AllSame(catalog, cat, p.children[i]) && AllKeep(catalog, cat, p.children[i], oneWay)
    ensures NodeKeeps(catalog, cat, p, oneWay)
  {
    if p.node.NestedLoop? {
      var right := p.children[1];
      if ToHashJoin(p) != p {
        if !oneWay {
          forall r | Yields(cat, right, r) ensures r.Ok() { CalmRuns(cat, right, r); }
        }
      } else {
        var q := Plan(p.node, OptimizedAll(catalog, p));
        assert q.children[1] == Optimized(catalog, right);
        forall r, r' | Yields(cat, right, r) && Yields(cat, q.children[1], r') ensures StartAlike(r, r', oneWay) {
          StartKept(catalog, cat, right, oneWay, r, r');
        }
      }
    }
  }

  lemma {:induction false} SafeKeep(catalog: Option<Catalog>, cat: Catalog, p: Plan, oneWay: bool)
    requires CatalogOK(cat) && SchemaOf(cat, p).Some? && Safe(cat, p, oneWay) && SeenAs(catalog, cat)
    ensures AllSame(catalog, cat, p) && AllKeep(catalog, cat, p, oneWay)
    decreases p
  {
    forall i | 0 <= i < |p.children| ensures AllSame(catalog, cat, p.children[i]) && AllKeep(catalog, cat, p.children[i], oneWay) {
      assert SchemaOf(cat, p.children[i]).Some?;
      SafeKeep(catalog, cat, p.children[i], oneWay);
    }
    NodeSafeSame(catalog, cat, p);
    NodeSafeKeeps(catalog, cat, p, oneWay);
  }

  /** If the optimized plan raises no error, the plan raises none and returns the same rows up to their order. */
  lemma OptimizedRuns(catalog: Option<Catalog>, cat: Catalog, p: Plan, o: Outcome<Row>, o': Outcome<Row>)
    requires CatalogOK(cat) && SchemaOf(cat, p).Some? && Safe(cat, p, true) && SeenAs(catalog, cat)
    requires Yields(cat, p, o) && Yields(cat, Optimized(catalog, p), o')
    ensures Below(o, o')
  {
    SafeKeep(catalog, cat, p, true);
    KeptAll(catalog, cat, p, true, o, o');
  }

  /** The optimizer keeps a plan's types and what it comes to: whatever the two plans come to, they raise an error
      together, and otherwise return the same rows up to their order. */
  lemma OptimizeKeeps(catalog: Option<Catalog>, cat: Catalog, p: Plan)
    requires CatalogOK(cat) && SchemaOf(cat, p).Some? && Safe(cat, p, false) && SeenAs(catalog, cat)
    ensures Equivalent(cat, p, Optimized(catalog, p)) && SchemaOf(cat, Optimized(catalog, p)) == SchemaOf(cat, p)
  {
    TypesStay(catalog, cat, p);
    SafeKeep(catalog, cat, p, false);
    forall o, o' | Yields(cat, p, o) && Yields(cat, Optimized(catalog, p), o') ensures Alike(o, o') {
      KeptAll(catalog, cat, p, false, o, o');
    }
  }
}
