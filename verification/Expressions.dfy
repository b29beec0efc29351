/** Expressions over one tuple, or over a left and a right tuple in a join, with their typing. */
module Expressions {
  import opened Wrappers
  import opened Values

  datatype Expr =
    | Column(tuple: nat, col: nat)
    | Constant(v: Value)
    | Comparing(op: Comparison, left: Expr, right: Expr)
    | Computing(arith: Arithmetic, left: Expr, right: Expr)
    | Logic(conj: bool, left: Expr, right: Expr)

  // What an expression is evaluated on.
  datatype Tuples = One(row: Row) | Two(lrow: Row, rrow: Row)

  function At(row: Row, c: nat): Option<Value> {
    if c < |row| then Some(row[c]) else None
  }

  // The tuple index counts only in a join.
  function Lookup(ts: Tuples, tuple: nat, c: nat): Option<Value> {
    match ts
    case One(row) => At(row, c)
    case Two(l, r) => if tuple == 0 then At(l, c) else At(r, c)
  }

  function BoolValue(r: Option<bool>): Option<Value> {
    match r case None => None case Some(b) => Some(BoolV(b))
  }

  function Truth(v: Value): Option<bool> {
    match Payload(v) case BoolV(b) => Some(b) case _ => None
  }

  /** None when the evaluation raises an error. */
  function Eval(e: Expr, ts: Tuples): Option<Value> {
    match e
    case Column(t, c) => Lookup(ts, t, c)
    case Constant(v) => Some(v)
    case Comparing(op, l, r) =>
      (match (Eval(l, ts), Eval(r, ts))
       case (Some(v), Some(w)) => BoolValue(Compare(op, v, w))
       case _ => None)
    case Computing(op, l, r) =>
      (match (Eval(l, ts), Eval(r, ts))
       case (Some(v), Some(w)) => Compute(op, v, w)
       case _ => None)
    case Logic(conj, l, r) =>
      (match (Eval(l, ts), Eval(r, ts))
       case (Some(v), Some(w)) =>
         (match (Truth(v), Truth(w))
          case (Some(a), Some(b)) => Some(BoolV(if conj then a && b else a || b))
          case _ => None)
       case _ => None)
  }

  /** A filter: no predicate lets every tuple pass. */
  function Passes(pred: Option<Expr>, ts: Tuples): Option<bool> {
    match pred
    case None => Some(true)
    case Some(e) => (match Eval(e, ts) case None => None case Some(v) => Truth(v))
  }

  // ---------- Typing ----------

  // The type of a column, and whether it is known to hold no nulls.
  datatype ColType = ColType(ty: Type, nonNull: bool)
  type Schema = seq<ColType>
  datatype Schemas = OneOf(cols: Schema) | TwoOf(lcols: Schema, rcols: Schema)

  predicate Fits(v: Value, t: ColType) {
    TypeIn(v) == t.ty && (t.nonNull ==> !v.NullV?)
  }

  predicate RowFits(row: Row, s: Schema) {
    |row| == |s| && forall c :: 0 <= c < |s| ==> Fits(row[c], s[c])
  }

  predicate TuplesFit(ts: Tuples, ss: Schemas) {
    match (ts, ss)
    case (One(row), OneOf(s)) => RowFits(row, s)
    case (Two(l, r), TwoOf(sl, sr)) => RowFits(l, sl) && RowFits(r, sr)
    case _ => false
  }

  function ColumnType(ss: Schemas, tuple: nat, c: nat): Option<ColType> {
    var s := if ss.OneOf? then ss.cols else if tuple == 0 then ss.lcols else ss.rcols;
    if c < |s| then Some(s[c]) else None
  }

  const Answer := ColType(Boolean, true)

  function TypeOf(e: Expr, ss: Schemas): Option<ColType> {
    match e
    case Column(t, c) => ColumnType(ss, t, c)
    case Constant(v) => Some(ColType(TypeIn(v), !v.NullV?))
    case Comparing(op, l, r) =>
      (match (TypeOf(l, ss), TypeOf(r, ss))
       case (Some(a), Some(b)) =>
         if a.ty == b.ty && (op in {Equal, NotEqual} || a.ty != Boolean) then Some(Answer) else None
       case _ => None)
    case Computing(_, l, r) =>
      (match (TypeOf(l, ss), TypeOf(r, ss))
       case (Some(a), Some(b)) => if a.ty == b.ty == Integer then Some(ColType(Integer, true)) else None
       case _ => None)
    case Logic(_, l, r) =>
      (match (TypeOf(l, ss), TypeOf(r, ss))
       case (Some(a), Some(b)) => if a.ty == b.ty == Boolean then Some(Answer) else None
       case _ => None)
  }

  // A constant that can be divided by.
  predicate NonZero(e: Expr) {
    e.Constant? && e.v.IntV? && e.v.i != 0
  }

  predicate Divides(e: Expr) {
    match e
    case Column(_, _) => false
    case Constant(_) => false
    case Comparing(_, l, r) => Divides(l) || Divides(r)
    case Computing(op, l, r) => (op in {Divide, Modulo} && !NonZero(r)) || Divides(l) || Divides(r)
    case Logic(_, l, r) => Divides(l) || Divides(r)
  }

  lemma CompareDefined(op: Comparison, v: Value, w: Value)
    requires TypeIn(v) == TypeIn(w) && (op in {Equal, NotEqual} || TypeIn(v) != Boolean)
    ensures Compare(op, v, w).Some?
  {
  }

  /** A typed expression evaluates to a value of its type, and only a division can raise an error. */
  lemma {:induction false} EvalSound(e: Expr, ts: Tuples, ss: Schemas)
    requires TuplesFit(ts, ss) && TypeOf(e, ss).Some?
    ensures Eval(e, ts).Some? ==> Fits(Eval(e, ts).value, TypeOf(e, ss).value)
    ensures !Divides(e) ==> Eval(e, ts).Some?
  {
    match e
    case Column(_, _) =>
    case Constant(_) =>
    case Comparing(op, l, r) =>
      EvalSound(l, ts, ss);
      EvalSound(r, ts, ss);
      if Eval(l, ts).Some? && Eval(r, ts).Some? { CompareDefined(op, Eval(l, ts).value, Eval(r, ts).value); }
    case Computing(_, l, r) =>
      EvalSound(l, ts, ss);
      EvalSound(r, ts, ss);
    case Logic(_, l, r) =>
      EvalSound(l, ts, ss);
      EvalSound(r, ts, ss);
  }
}
