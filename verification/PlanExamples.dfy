/** Two plans the optimizer does not keep: it can make an error appear that a nested-loop join never comes to,
    and hide one that depends on the order of rows. */
module PlanExamples {
  import opened Wrappers
  import opened Rids
  import opened Values
  import opened Expressions
  import opened Bags
  import opened Pulls
  import opened Joins
  import opened Aggregation
  import opened Plans
  import opened CalmPlans
  import opened Optimizer
  import opened OptimizerTheorem
  import opened OptimizerChecks

  function Stored(page: int, values: seq<Int32>): (heap: seq<Entry>)
    ensures |heap| == |values| && forall i :: 0 <= i < |values| ==> heap[i] == (RID(page, i), [IntV(values[i])])
  {
    seq(|values|, i requires 0 <= i < |values| => (RID(page, i), [IntV(values[i])]))
  }

  // Tables of one INTEGER column, without indexes: one empty, one with a zero, and two with 1 and 2.
  const Db: Catalog := Catalog(
    map[0 := Table("e", [Integer], Stored(0, [])), 1 := Table("z", [Integer], Stored(1, [0])),
        2 := Table("a", [Integer], Stored(2, [1, 2])), 3 := Table("b", [Integer], Stored(3, [2, 1]))],
    map[], map[])

  lemma DbOK()
    ensures CatalogOK(Db)
  {
    forall t | t in Db.tables ensures HeapOK(Db.tables[t]) {}
    forall t, index ensures CurrentFor(Db, t, index) {}
    forall name ensures ListOK(Db, name) {}
  }

  const Equals: Option<Expr> := Some(Comparing(Equal, Column(0, 0), Column(1, 0)))

  function Scan(t: nat): Plan {
    Plan(SeqScan(t, None), [])
  }

  function Rows(values: seq<Int32>): (rows: seq<Row>)
    ensures |rows| == |values| && forall i :: 0 <= i < |values| ==> rows[i] == [IntV(values[i])]
  {
    seq(|values|, i requires 0 <= i < |values| => [IntV(values[i])])
  }

  lemma {:induction false} AllScanned(heap: seq<Entry>, rows: seq<Row>)
    requires |rows| == |heap| && forall i :: 0 <= i < |heap| ==> heap[i].1 == rows[i]
    ensures Drained(heap, ScanStep(None)) == Gave(rows, true)
  {
    if heap != [] {
      DrainedFirst(heap, ScanStep(None));
      AllScanned(heap[1..], rows[1..]);
      assert rows == [rows[0]] + rows[1..];
    }
  }

  // ---------- What plans come to ----------

  lemma Scanned(t: nat, values: seq<Int32>)
    requires t in Db.tables && Db.tables[t].heap == Stored(t, values)
    ensures ComesTo(Db, Scan(t), Gave(Rows(values), true))
  {
    AllScanned(Stored(t, values), Rows(values));
  }

  lemma LoopComesTo(p: Plan, l: Outcome<Row>, r: Outcome<Row>)
    requires p.node.NestedLoop? && |p.children| == 2 && ComesTo(Db, p.children[0], l) && ComesTo(Db, p.children[1], r)
    ensures ComesTo(Db, p, LoopOutcome(p.node.pred, l, r))
  {
    forall o | Yields(Db, p, o) ensures o == LoopOutcome(p.node.pred, l, r) { var l', r' := SplitJoin(Db, p, o); }
  }

  lemma HashComesTo(p: Plan, l: Outcome<Row>, r: Outcome<Row>)
    requires p.node.Hash? && |p.children| == 2 && ComesTo(Db, p.children[0], l) && ComesTo(Db, p.children[1], r)
    ensures ComesTo(Db, p, HashOutcome(p.node.leftKey, p.node.rightKey, l, r))
  {
    forall o | Yields(Db, p, o) ensures o == HashOutcome(p.node.leftKey, p.node.rightKey, l, r) { var l', r' := SplitJoin(Db, p, o); }
  }

  lemma ProjectComesTo(p: Plan, c: Outcome<Row>)
    requires p.node.Project? && |p.children| == 1 && ComesTo(Db, p.children[0], c)
    ensures ComesTo(Db, p, ProjectOutcome(p.node.exprs, c))
  {
    var o := ProjectOutcome(p.node.exprs, c);
    assert UnaryOutcome(p.node, c, o);
  }

  // ---------- What the optimizer makes of them ----------

  lemma ScanStaysScan(t: nat)
    ensures Optimized(None, Scan(t)) == Scan(t)
  {
    OptimizedNode(None, Scan(t));
  }

  lemma LoopOf(pred: Option<Expr>, l: Plan, r: Plan)
    ensures Optimized(None, Plan(NestedLoop(pred), [l, r])) == ToHashJoin(Plan(NestedLoop(pred), [Optimized(None, l), Optimized(None, r)]))
  {
    var p := Plan(NestedLoop(pred), [l, r]);
    OptimizedNode(None, p);
    assert OptimizedAll(None, p) == [Optimized(None, l), Optimized(None, r)];
  }

  lemma ProjectOf(exprs: seq<Expr>, c: Plan)
    ensures Optimized(None, Plan(Project(exprs), [c])) == Plan(Project(exprs), [Optimized(None, c)])
  {
    var p := Plan(Project(exprs), [c]);
    OptimizedNode(None, p);
    assert OptimizedAll(None, p) == [Optimized(None, c)];
  }

  // ---------- An error appears ----------

  // 1 / c0 of the table with a zero
  const Inverse: Expr := Computing(Divide, Constant(IntV(1)), Column(0, 0))
  const Inverses: Plan := Plan(Project([Inverse]), [Scan(1)])
  const Guest: Plan := Plan(NestedLoop(Equals), [Scan(0), Inverses])

  // A projection that fails on its first row.
  lemma FailsAtOnce(e: Expr, rows: seq<Row>, ok: bool)
    requires rows != [] && Eval(e, One(rows[0])) == None
    ensures ProjectOutcome([e], Gave(rows, ok)) == Gave([], false)
  {
    KeyStuck([e], rows[0], 0);
    DrainedFirst(rows, ProjectStep([e]));
  }

  lemma InversesFail()
    ensures ComesTo(Db, Inverses, Gave([], false))
  {
    Scanned(1, [0]);
    ProjectComesTo(Inverses, Gave(Rows([0]), true));
    FailsAtOnce(Inverse, Rows([0]), true);
  }

  const Ints: Schema := [ColType(Integer, true)]

  lemma ScanTyped(t: nat)
    requires t in Db.tables
    ensures SchemaOf(Db, Scan(t)) == Some(Ints)
  {
    assert StoredTypes([Integer]) == Ints;
  }

  lemma InversesTyped()
    ensures SchemaOf(Db, Inverses) == Some(Ints)
  {
    ScanTyped(1);
    assert TypeOf(Inverse, OneOf(Ints)) == Some(ColType(Integer, true));
    assert [Inverse][..0] == [];
    assert TypesOf([Inverse][..0], Ints) == Some([]);
    assert TypesOf([Inverse], Ints) == Some([] + [ColType(Integer, true)]);
    assert [] + [ColType(Integer, true)] == Ints;
    assert UnarySchema(Project([Inverse]), Ints) == Some(Ints);
  }

  lemma GuestTyped()
    ensures SchemaOf(Db, Guest) == Some(Ints + Ints)
  {
    ScanTyped(0);
    InversesTyped();
    assert PredTyped(Equals, TwoOf(Ints, Ints));
  }

  /** The left side is empty, so the nested-loop join never asks the right side for a row, and the plan returns
      nothing. The hash join it becomes runs the right side, which divides by zero. */
  lemma ErrorAppears()
    ensures CatalogOK(Db) && SchemaOf(Db, Guest).Some? && NodeSafe(Db, Guest)
    ensures ComesTo(Db, Guest, Gave([], true)) && ComesTo(Db, Optimized(None, Guest), NoStart)
    ensures !Equivalent(Db, Guest, Optimized(None, Guest))
  {
    DbOK();
    GuestTyped();
    ScanTyped(0);
    InversesTyped();
    Scanned(0, []);
    assert Rows([]) == [];
    InversesFail();
    LoopComesTo(Guest, Gave([], true), Gave([], false));
    LoopJoinRows(Equals, Gave([], true), Gave([], false));
    ScanStaysScan(0);
    ScanStaysScan(1);
    ProjectOf([Inverse], Scan(1));
    LoopOf(Equals, Scan(0), Inverses);
    HashComesTo(Optimized(None, Guest), Gave([], true), Gave([], false));
    assert !Alike(Gave([], true), NoStart);
  }

  // ---------- An error goes ----------

  // 1 / (c0 - 1) of the rows of 1 and 2 joined with those of 2 and 1, at the left of a join that is at the right
  // of another one.
  const Shifted: Expr := Computing(Divide, Constant(IntV(1)), Computing(Minus, Column(0, 0), Constant(IntV(1))))
  const Both: Plan := Plan(NestedLoop(Equals), [Scan(2), Scan(3)])
  const Shift: Plan := Plan(Project([Shifted]), [Both])
  const Inside: Plan := Plan(NestedLoop(None), [Shift, Scan(2)])
  const Outside: Plan := Plan(NestedLoop(None), [Scan(0), Inside])

  const HashBoth: Plan := Plan(Hash(Column(0, 0), Column(0, 0)), [Scan(2), Scan(3)])
  const HashShift: Plan := Plan(Project([Shifted]), [HashBoth])
  const HashInside: Plan := Plan(NestedLoop(None), [HashShift, Scan(2)])
  const HashOutside: Plan := Plan(NestedLoop(None), [Scan(0), HashInside])

  lemma OutsideOptimized()
    ensures Optimized(None, Outside) == HashOutside
  {
    ScanStaysScan(0);
    ScanStaysScan(2);
    ScanStaysScan(3);
    LoopOf(Equals, Scan(2), Scan(3));
    ProjectOf([Shifted], Both);
    LoopOf(None, Shift, Scan(2));
    LoopOf(None, Scan(0), Inside);
  }

  const One1: Row := [IntV(1), IntV(1)]
  const Two2: Row := [IntV(2), IntV(2)]

  lemma KeysMeet(l: Row, r: Row)
    requires |l| == |r| == 1 && l[0].IntV? && r[0].IntV?
    ensures Passes(Equals, Two(l, r)) == Some(l == r)
    ensures Matched(Equals)(l, r) == (l == r) && SameKey(Column(0, 0), Column(0, 0))(l, r) == (l == r)
  {
    EqualityMatches(l, r, Equals.value, 0, 0);
    assert Eval(Equals.value, Two(l, r)) == BoolValue(CompareEquals(l[0], r[0]));
    assert l == r <==> l[0] == r[0];
  }

  // The nested-loop join meets 1 first, the hash join 2.
  lemma BothOrders()
    ensures ComesTo(Db, Both, Gave([One1, Two2], true)) && ComesTo(Db, HashBoth, Gave([Two2, One1], true))
  {
    var ls, rs := Rows([1, 2]), Rows([2, 1]);
    Scanned(2, [1, 2]);
    Scanned(3, [2, 1]);
    LoopComesTo(Both, Gave(ls, true), Gave(rs, true));
    HashComesTo(HashBoth, Gave(ls, true), Gave(rs, true));
    BothGive(ls, rs);
  }

  lemma BothGive(ls: seq<Row>, rs: seq<Row>)
    requires ls == Rows([1, 2]) && rs == Rows([2, 1])
    ensures LoopOutcome(Equals, Gave(ls, true), Gave(rs, true)) == Gave([One1, Two2], true)
    ensures HashOutcome(Column(0, 0), Column(0, 0), Gave(ls, true), Gave(rs, true)) == Gave([Two2, One1], true)
  {
    forall i, j | 0 <= i < 2 && 0 <= j < 2 ensures Passes(Equals, Two(ls[i], rs[j])).Some? { KeysMeet(ls[i], rs[j]); }
    LoopJoinRows(Equals, Gave(ls, true), Gave(rs, true));
    FourPairs(ls, rs);
    forall i | 0 <= i < 2 ensures HasText(Column(0, 0), ls[i]) && HasText(Column(0, 0), rs[i]) {}
  }

  lemma FourPairs(ls: seq<Row>, rs: seq<Row>)
    requires ls == Rows([1, 2]) && rs == Rows([2, 1])
    ensures LeftMajor(ls, rs, Matched(Equals)) == [One1, Two2]
    ensures RightMajor(ls, rs, SameKey(Column(0, 0), Column(0, 0))) == [Two2, One1]
  {
    var a, b := [IntV(1)], [IntV(2)];
    assert ls == [a, b] && rs == [b, a];
    KeysMeet(a, a);
    KeysMeet(a, b);
    KeysMeet(b, a);
    KeysMeet(b, b);
    Leftwards(a, b, Matched(Equals));
    Rightwards(a, b, SameKey(Column(0, 0), Column(0, 0)));
    assert a + a == One1 && b + b == Two2;
  }

  lemma Leftwards(a: Row, b: Row, c: Matching)
    requires c(a, a) && c(b, b) && !c(a, b) && !c(b, a)
    ensures LeftMajor([a, b], [b, a], c) == [a + a, b + b]
  {
    assert [b, a][1..] == [a] && [a][1..] == [] && [a, b][1..] == [b] && [b][1..] == [];
    assert Matches(a, [], c) == [] && Matches(a, [a], c) == [a + a] + [] && Matches(b, [a], c) == [] + [];
    assert Matches(a, [b, a], c) == [] + ([a + a] + []) && Matches(b, [b, a], c) == [b + b] + [];
    assert Matches(a, [b, a], c) == [a + a] && Matches(b, [b, a], c) == [b + b];
    assert LeftMajor([b], [b, a], c) == Matches(b, [b, a], c) + [];
  }

  lemma Rightwards(a: Row, b: Row, c: Matching)
    requires c(a, a) && c(b, b) && !c(a, b) && !c(b, a)
    ensures RightMajor([a, b], [b, a], c) == [b + b, a + a]
  {
    assert [b, a][1..] == [a] && [a][1..] == [] && [a, b][1..] == [b] && [b][1..] == [];
    assert MatchesOf([], a, c) == [] && MatchesOf([b], b, c) == [b + b] + [] && MatchesOf([b], a, c) == [] + [];
    assert MatchesOf([a, b], b, c) == [] + ([b + b] + []) && MatchesOf([a, b], a, c) == [a + a] + [];
    assert MatchesOf([a, b], b, c) == [b + b] && MatchesOf([a, b], a, c) == [a + a];
    assert RightMajor([a, b], [a], c) == MatchesOf([a, b], a, c) + [];
  }

  lemma OneExpr(e: Expr, row: Row, v: Value)
    requires Eval(e, One(row)) == Some(v)
    ensures ProjectStep([e])(row) == Emit([v])
  {
    assert [e][..0] == [] && KeyVals([], row) == Some([]);
    assert KeyVals([e], row) == Some([] + [v]);
    assert [] + [v] == [v];
  }

  // One row comes before the error.
  lemma FailsSecond(e: Expr, a: Row, b: Row, v: Value)
    requires Eval(e, One(a)) == Some(v) && Eval(e, One(b)) == None
    ensures ProjectOutcome([e], Gave([a, b], true)) == Gave([[v]], false)
  {
    OneExpr(e, a, v);
    FailsAtOnce(e, [b], true);
    DrainedFirst([a, b], ProjectStep([e]));
    assert [a, b][1..] == [b];
  }

  lemma ShiftEval(row: Row, n: Int32)
    requires row != [] && row[0] == IntV(n) && 1 <= n <= 2
    ensures Eval(Shifted, One(row)) == if n == 1 then None else Some(IntV(1))
  {
    var less := Computing(Minus, Column(0, 0), Constant(IntV(1)));
    assert Eval(Column(0, 0), One(row)) == Some(IntV(n));
    LessOne(n);
    assert Eval(less, One(row)) == Some(IntV(n - 1));
    assert Eval(Shifted, One(row)) == Compute(Divide, IntV(1), IntV(n - 1));
    if n == 2 { DivideOnes(); }
  }

  lemma LessOne(n: Int32)
    requires 1 <= n <= 2
    ensures Compute(Minus, IntV(n), IntV(1)) == Some(IntV(n - 1))
  {
    assert Wrap(n - 1) == n - 1;
  }

  lemma DivideOnes()
    ensures Compute(Divide, IntV(1), IntV(1)) == Some(IntV(1))
  {
    assert Quotient(1, 1) == 1 && Wrap(1) == 1;
  }

  lemma ShiftOrders()
    ensures ComesTo(Db, Shift, Gave([], false)) && ComesTo(Db, HashShift, Gave([[IntV(1)]], false))
  {
    BothOrders();
    ProjectComesTo(Shift, Gave([One1, Two2], true));
    ProjectComesTo(HashShift, Gave([Two2, One1], true));
    ShiftEval(One1, 1);
    ShiftEval(Two2, 2);
    FailsAtOnce(Shifted, [One1, Two2], true);
    FailsSecond(Shifted, Two2, One1, IntV(1));
  }

  /** The inner join asks for its first left row when it starts. In the plan that row raises an error, in the
      optimized plan another row comes first and the error is never come to: the plan raises an error, the
      optimized plan returns nothing. */
  lemma ErrorGoes()
    ensures CatalogOK(Db) && ComesTo(Db, Outside, NoStart) && ComesTo(Db, Optimized(None, Outside), Gave([], true))
    ensures AllSafe(Db, Outside) && !Steady(Db, Inside, true)
  {
    DbOK();
    OutsideOptimized();
    Scanned(0, []);
    assert Rows([]) == [];
    Scanned(2, [1, 2]);
    ShiftOrders();
    LoopComesTo(Inside, Gave([], false), Gave(Rows([1, 2]), true));
    LoopComesTo(HashInside, Gave([[IntV(1)]], false), Gave(Rows([1, 2]), true));
    var inner := LoopOutcome(None, Gave([[IntV(1)]], false), Gave(Rows([1, 2]), true));
    LoopComesTo(Outside, Gave([], true), NoStart);
    LoopComesTo(HashOutside, Gave([], true), inner);
    LoopJoinRows(None, Gave([], true), inner);
    ShiftNotCalm();
    OutsideSafe();
  }

  lemma ShiftNotCalm()
    ensures !Prompt(Db, Shift, true) && !Steady(Db, Inside, true)
  {
    assert [Shifted][0] == Shifted && Divides(Shifted);
    assert !CalmAll([Shifted]) && !Calm(Db, Shift);
    assert ToHashJoin(Both).node.Hash? && !Fixed(Both);
    assert Shift.children[0] == Both && !Fixed(Shift);
    assert Inside.children[0] == Shift && !Fixed(Inside) && !Calm(Db, Inside);
  }

  // Nothing else is amiss with the plan.
  lemma OutsideSafe()
    ensures AllSafe(Db, Outside)
  {
    ScanTyped(2);
    ScanTyped(3);
    assert NodeSafe(Db, Both);
    assert AllSafe(Db, Both);
    assert AllSafe(Db, Shift);
    assert AllSafe(Db, Inside);
  }
}
