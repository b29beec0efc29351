/** Aggregate functions: what the running update computes, and that the order of the rows does not matter. */
module Aggregates {
  import opened Wrappers
  import opened Values
  import opened Expressions
  import opened Bags

  datatype Kind = CountStar | Count | Sum | Min | Max

  // The argument (ignored by CountStar) and the type of the output column.
  datatype Agg = Agg(kind: Kind, arg: Expr, out: Type)

  // ---------- The running update ----------

  function Initial(a: Agg): Value {
    if a.kind in {CountStar, Count} then Payload(NullV(a.out)) else NullV(a.out)
  }

  // Counting adds a one of the accumulator's type, which only works for integers.
  function AddOne(acc: Value): Option<Value> {
    Compute(Plus, acc, if TypeIn(acc) == Integer then IntV(1) else acc)
  }

  function Update(kind: Kind, acc: Value, v: Value): Option<Value> {
    if kind == CountStar then AddOne(acc)
    else if v.NullV? then Some(acc)
    else match kind
      case Count => AddOne(acc)
      case Sum => if acc.NullV? then Some(v) else Compute(Plus, acc, v)
      case Min => if acc.NullV? then Some(v) else Choose(CompareLess(v, acc), v, acc)
      case _ => if acc.NullV? then Some(v) else Choose(CompareLess(acc, v), v, acc)
  }

  function Choose(b: Option<bool>, v: Value, w: Value): Option<Value> {
    match b case None => None case Some(true) => Some(v) case Some(false) => Some(w)
  }

  /** The accumulator after some rows, or None if an evaluation or an operator raises an error. */
  function Fold(a: Agg, rows: seq<Row>): Option<Value> {
    if rows == [] then Some(Initial(a))
    else
      var n := |rows| - 1;
      match Fold(a, rows[..n])
      case None => None
      case Some(acc) => UpdateRow(a, acc, rows[n])
  }

  function UpdateRow(a: Agg, acc: Value, row: Row): Option<Value> {
    if a.kind == CountStar then AddOne(acc)
    else match Eval(a.arg, One(row))
      case None => None
      case Some(v) => Update(a.kind, acc, v)
  }

  // ---------- What it means ----------

  // The values an aggregate over arguments of type t sees, when none of them fails.
  function Arg(a: Agg, t: Type): Row -> Value {
    row => if Eval(a.arg, One(row)).Some? then Eval(a.arg, One(row)).value else NullV(t)
  }

  function Total(vs: seq<Value>, f: Value -> int): int {
    if vs == [] then 0 else Total(vs[..|vs| - 1], f) + f(vs[|vs| - 1])
  }

  const Present: Value -> int := (v: Value) => if v.NullV? then 0 else 1
  const Number: Value -> int := (v: Value) => if v.IntV? then v.i as int else 0

  // v is no later than w in the aggregate's direction.
  predicate NoWorse(kind: Kind, v: Value, w: Value) {
    (if kind == Min then CompareLess(w, v) else CompareLess(v, w)) == Some(false)
  }

  /** r is the aggregate of the values: counts and sums modulo 2^32; null when there is nothing to add or
      compare; otherwise the least or greatest value. */
  ghost predicate Means(a: Agg, vs: seq<Value>, r: Value) {
    match a.kind
    case CountStar => r == IntV(Wrap(|vs|))
    case Count => r == IntV(Wrap(Total(vs, Present)))
    case Sum => r == if Total(vs, Present) == 0 then NullV(a.out) else IntV(Wrap(Total(vs, Number)))
    case _ =>
      if Total(vs, Present) == 0 then r == NullV(a.out)
      else r in vs && !r.NullV? && forall i :: 0 <= i < |vs| && !vs[i].NullV? ==> NoWorse(a.kind, r, vs[i])
  }

  /** What the planner guarantees about an aggregate over arguments of type t. */
  predicate Typed(a: Agg, t: Type) {
    match a.kind
    case CountStar => a.out == Integer
    case Count => a.out == Integer
    case Sum => t == Integer
    case _ => t in {Integer, Varchar}
  }

  predicate AllOf(vs: seq<Value>, t: Type) {
    forall i :: 0 <= i < |vs| ==> TypeIn(vs[i]) == t
  }

  lemma WrapAdds(m: int, n: int)
    ensures Wrap(Wrap(m) + n) == Wrap(m + n)
  {
  }

  lemma {:induction false} TotalPresent(vs: seq<Value>)
    ensures 0 <= Total(vs, Present) <= |vs|
    ensures Total(vs, Present) == 0 <==> forall i :: 0 <= i < |vs| ==> vs[i].NullV?
  {
    if vs != [] {
      var n := |vs| - 1;
      TotalPresent(vs[..n]);
      assert forall i :: 0 <= i < n ==> vs[i] == vs[..n][i];
    }
  }

  lemma {:induction false} NoNumber(vs: seq<Value>)
    requires Total(vs, Present) == 0
    ensures Total(vs, Number) == 0
  {
    if vs != [] {
      var n := |vs| - 1;
      TotalPresent(vs[..n]);
      NoNumber(vs[..n]);
    }
  }

  // The strict order of a type that has one.
  lemma LessOrder(u: Value, v: Value, w: Value)
    requires TypeIn(u) == TypeIn(v) == TypeIn(w) && TypeIn(u) in {Integer, Varchar} && !u.NullV? && !v.NullV? && !w.NullV?
    ensures CompareLess(u, v).Some? && CompareLess(u, u) == Some(false)
    ensures CompareLess(u, v) == Some(true) ==> CompareLess(v, u) == Some(false)
    ensures CompareLess(u, v) == Some(false) && CompareLess(v, u) == Some(false) ==> u == v
    ensures CompareLess(u, v) == Some(true) && CompareLess(v, w) == Some(true) ==> CompareLess(u, w) == Some(true)
  {
    if u.StrV? {
      BeforeTotal(u.s, v.s);
      BeforeTotal(u.s, u.s);
      if Before(u.s, v.s) && Before(v.s, w.s) { BeforeTransitive(u.s, v.s, w.s); }
    }
  }

  // Keeping the better of two values keeps it no worse than everything seen.
  lemma BestStep(a: Agg, vs: seq<Value>, acc: Value, v: Value, t: Type)
    requires a.kind in {Min, Max} && t in {Integer, Varchar} && AllOf(vs + [v], t) && !v.NullV?
    requires Means(a, vs, acc) && Total(vs, Present) > 0
    ensures Update(a.kind, acc, v).Some? && Means(a, vs + [v], Update(a.kind, acc, v).value)
  {
    var all := vs + [v];
    assert forall i :: 0 <= i < |vs| ==> all[i] == vs[i];
    assert all[|vs|] == v && all[..|vs|] == vs;
    var k :| 0 <= k < |vs| && vs[k] == acc;
    LessOrder(acc, v, v);
    LessOrder(v, acc, v);
    LessOrder(v, v, v);
    var r := Update(a.kind, acc, v).value;
    assert r in all;
    forall i | 0 <= i < |all| && !all[i].NullV? ensures NoWorse(a.kind, r, all[i]) {
      var x := all[i];
      LessOrder(x, v, acc);
      LessOrder(v, x, acc);
      LessOrder(x, acc, v);
      LessOrder(acc, x, v);
      LessOrder(v, acc, x);
      LessOrder(acc, v, x);
    }
  }

  lemma UpdateMeans(a: Agg, vs: seq<Value>, acc: Value, v: Value, t: Type)
    requires Typed(a, t) && AllOf(vs + [v], t) && Means(a, vs, acc)
    ensures Update(a.kind, acc, v).Some? && Means(a, vs + [v], Update(a.kind, acc, v).value)
  {
    var all := vs + [v];
    assert all[..|vs|] == vs && all[|vs|] == v;
    assert Total(all, Present) == Total(vs, Present) + Present(v);
    assert Total(all, Number) == Total(vs, Number) + Number(v);
    TotalPresent(vs);
    assert TypeIn(v) == t;
    match a.kind {
      case CountStar => WrapAdds(|vs|, 1);
      case Count => WrapAdds(Total(vs, Present), 1);
      case Sum =>
        if Total(vs, Present) == 0 { NoNumber(vs); }
        if v.IntV? { WrapAdds(Total(vs, Number), v.i); }
      case _ => BestMeans(a, vs, acc, v, t);
    }
  }

  lemma BestMeans(a: Agg, vs: seq<Value>, acc: Value, v: Value, t: Type)
    requires a.kind in {Min, Max} && t in {Integer, Varchar} && AllOf(vs + [v], t) && Means(a, vs, acc)
    ensures Update(a.kind, acc, v).Some? && Means(a, vs + [v], Update(a.kind, acc, v).value)
  {
    var all := vs + [v];
    assert all[..|vs|] == vs && all[|vs|] == v;
    assert Total(all, Present) == Total(vs, Present) + Present(v);
    assert forall i :: 0 <= i < |vs| ==> all[i] == vs[i];
    TotalPresent(vs);
    assert TypeIn(v) == t;
    if v.NullV? {
      if Total(vs, Present) > 0 { assert acc in all; }
    } else if Total(vs, Present) > 0 {
      BestStep(a, vs, acc, v, t);
    } else {
      LessOrder(v, v, v);
      assert v in all;
    }
  }

  predicate ArgsDefined(a: Agg, rows: seq<Row>) {
    a.kind == CountStar || forall i :: 0 <= i < |rows| ==> Eval(a.arg, One(rows[i])).Some?
  }

  lemma InitialMeans(a: Agg, t: Type)
    requires Typed(a, t)
    ensures Means(a, [], Initial(a))
  {
  }

  /** The running update computes the aggregate's meaning, and fails exactly when an argument does. */
  lemma {:induction false} FoldMeans(a: Agg, rows: seq<Row>, t: Type)
    requires Typed(a, t) && AllOf(Map(rows, Arg(a, t)), t)
    ensures Fold(a, rows).Some? <==> ArgsDefined(a, rows)
    ensures Fold(a, rows).Some? ==> Means(a, Map(rows, Arg(a, t)), Fold(a, rows).value)
  {
    if rows == [] {
      InitialMeans(a, t);
    } else {
      var n := |rows| - 1;
      var vs, v := Map(rows[..n], Arg(a, t)), Arg(a, t)(rows[n]);
      assert Map(rows, Arg(a, t)) == vs + [v];
      assert forall i :: 0 <= i < n ==> vs[i] == Map(rows, Arg(a, t))[i];
      FoldMeans(a, rows[..n], t);
      assert forall i :: 0 <= i < n ==> rows[..n][i] == rows[i];
      if Fold(a, rows[..n]).Some? { UpdateMeans(a, vs, Fold(a, rows[..n]).value, v, t); }
    }
  }

  // ---------- The order of the rows does not matter ----------

  lemma {:induction false} TotalSplit(vs: seq<Value>, ws: seq<Value>, f: Value -> int)
    ensures Total(vs + ws, f) == Total(vs, f) + Total(ws, f)
  {
    if ws == [] {
      assert vs + ws == vs;
    } else {
      var n := |ws| - 1;
      assert (vs + ws)[..|vs| + n] == vs + ws[..n];
      TotalSplit(vs, ws[..n], f);
    }
  }

  lemma TotalWithout(ws: seq<Value>, i: nat, f: Value -> int)
    requires i < |ws|
    ensures Total(ws, f) == Total(ws[..i] + ws[i + 1..], f) + f(ws[i])
  {
    var a, b := ws[..i], ws[i + 1..];
    TotalSplit(a, b, f);
    TotalSplit(ws[..i + 1], b, f);
    assert ws == ws[..i + 1] + b && ws[..i + 1][..i] == a;
  }

  lemma {:induction false} TotalPermuted(vs: seq<Value>, ws: seq<Value>, f: Value -> int)
    requires multiset(vs) == multiset(ws)
    ensures Total(vs, f) == Total(ws, f)
    decreases |vs|
  {
    if vs == [] {
      assert |multiset(ws)| == 0;
    } else {
      var n := |vs| - 1;
      var i, rest := TakeOut(ws, vs[n]);
      assert vs == vs[..n] + [vs[n]];
      assert multiset(vs[..n]) == multiset(vs) - multiset{vs[n]};
      TotalPermuted(vs[..n], rest, f);
      TotalWithout(ws, i, f);
    }
  }

  // A list of values has one aggregate, whatever its order.
  lemma MeansOne(a: Agg, vs: seq<Value>, ws: seq<Value>, r: Value, s: Value, t: Type)
    requires Typed(a, t) && AllOf(vs, t) && multiset(vs) == multiset(ws) && Means(a, vs, r) && Means(a, ws, s)
    ensures r == s
  {
    TotalPermuted(vs, ws, Present);
    TotalPermuted(vs, ws, Number);
    SameMembers(vs, ws);
    if a.kind in {Min, Max} && Total(vs, Present) != 0 {
      assert r in ws && s in vs;
      var i :| 0 <= i < |vs| && vs[i] == s;
      var j :| 0 <= j < |ws| && ws[j] == r;
      var k :| 0 <= k < |vs| && vs[k] == r;
      LessOrder(r, s, s);
      LessOrder(s, r, r);
    }
  }

  /** The result of an aggregate does not depend on the order of the rows. */
  lemma FoldPermuted(a: Agg, rows: seq<Row>, rows': seq<Row>, t: Type)
    requires Typed(a, t) && AllOf(Map(rows, Arg(a, t)), t) && multiset(rows) == multiset(rows')
    ensures Fold(a, rows) == Fold(a, rows')
  {
    var vs, ws := Map(rows, Arg(a, t)), Map(rows', Arg(a, t));
    MapPermuted(rows, rows', Arg(a, t));
    SameMembers(rows, rows');
    SameMembers(vs, ws);
    forall i | 0 <= i < |ws| ensures TypeIn(ws[i]) == t { assert ws[i] in vs; }
    FoldMeans(a, rows, t);
    FoldMeans(a, rows', t);
    assert forall i :: 0 <= i < |rows'| ==> rows'[i] in rows;
    assert forall i :: 0 <= i < |rows| ==> rows[i] in rows';
    if Fold(a, rows).Some? && Fold(a, rows').Some? {
      MeansOne(a, vs, ws, Fold(a, rows).value, Fold(a, rows').value, t);
    }
  }
}
