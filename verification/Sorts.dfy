/** The order a sort puts its rows in, and that there always is such an order unless a comparison raises an
    error. */
module Sorts {
  import opened Wrappers
  import opened Values
  import opened Expressions
  import opened Pulls

  type Order = seq<(bool, Expr)>

  /** The comparison of a sort: the first key that differs decides. */
  function SortsBefore(order: Order, a: Row, b: Row): Option<bool> {
    if order == [] then Some(false)
    else
      match (Eval(order[0].1, One(a)), Eval(order[0].1, One(b)))
      case (Some(v), Some(w)) =>
        (match CompareEquals(v, w)
         case None => None
         case Some(true) => SortsBefore(order[1..], a, b)
         case Some(false) => if order[0].0 then CompareLess(v, w) else CompareLess(w, v))
      case _ => None
  }

  // The rows can be compared, and the first does not come first.
  predicate NotBefore(order: Order, a: Row, b: Row) {
    SortsBefore(order, a, b) == Some(false)
  }

  predicate Sorted(order: Order, rows: seq<Row>) {
    forall i, j {:trigger NotBefore(order, rows[j], rows[i])} :: 0 <= i < j < |rows| ==> NotBefore(order, rows[j], rows[i])
  }

  /** Two of the rows cannot be compared. Sorting then raises an error: rows that tie on the first keys are
      told apart by the next one, so each of them is compared with some other by it. */
  ghost predicate Undecided(order: Order, rows: seq<Row>) {
    exists a, b {:trigger SortsBefore(order, a, b)} :: multiset{a, b} <= multiset(rows) && SortsBefore(order, a, b) == None
  }

  /** What a sort of this child can come to: the child is run through when it starts. */
  ghost predicate SortOutcome(order: Order, c: Outcome<Row>, o: Outcome<Row>) {
    if !c.Ok() || Undecided(order, c.rows) then o == NoStart
    else o.Ok() && multiset(o.rows) == multiset(c.rows) && Sorted(order, o.rows)
  }

  // ---------- The comparison is an order ----------

  predicate BothWays(order: Order, a: Row, b: Row) {
    SortsBefore(order, a, b).Some? && SortsBefore(order, b, a).Some?
  }

  // Of two comparable rows at most one comes before the other; and what comes before a row comes before all
  // that this one comes before.
  lemma OneFirst(order: Order, a: Row, b: Row)
    requires BothWays(order, a, b) && !NotBefore(order, a, b)
    ensures NotBefore(order, b, a)
  {
    if SortsBefore(order, a, b).value { Asymmetric(order, a, b); }
  }

  lemma Between(order: Order, a: Row, b: Row, c: Row)
    requires BothWays(order, a, b) && BothWays(order, b, c) && !NotBefore(order, b, c) && NotBefore(order, a, c)
    ensures NotBefore(order, a, b)
  {
    if SortsBefore(order, a, b).value && SortsBefore(order, b, c).value { Transitive(order, a, b, c); }
  }

  lemma {:induction false} Asymmetric(order: Order, a: Row, b: Row)
    requires BothWays(order, a, b) && SortsBefore(order, a, b) == Some(true)
    ensures SortsBefore(order, b, a) == Some(false)
  {
    var v, w := Eval(order[0].1, One(a)).value, Eval(order[0].1, One(b)).value;
    if CompareEquals(v, w) == Some(true) {
      Asymmetric(order[1..], a, b);
    } else {
      LessOneWay(v, w);
    }
  }

  lemma LessOneWay(v: Value, w: Value)
    requires CompareEquals(v, w) == Some(false) && CompareLess(v, w).Some?
    ensures CompareLess(w, v) == Some(!CompareLess(v, w).value)
  {
    match (Payload(v), Payload(w)) {
      case (StrV(s), StrV(t)) => BeforeTotal(s, t);
      case _ =>
    }
  }

  lemma LessChain(u: Value, v: Value, w: Value)
    requires CompareLess(u, v) == Some(true) && CompareLess(v, w) == Some(true)
    ensures CompareLess(u, w) == Some(true) && CompareEquals(u, w) == Some(false)
  {
    match (Payload(u), Payload(v), Payload(w)) {
      case (StrV(r), StrV(s), StrV(t)) =>
        BeforeTransitive(r, s, t);
        BeforeTotal(r, t);
      case _ =>
    }
  }

  lemma {:induction false} Transitive(order: Order, a: Row, b: Row, c: Row)
    requires SortsBefore(order, a, b) == Some(true) && SortsBefore(order, b, c) == Some(true)
    ensures SortsBefore(order, a, c) == Some(true)
  {
    var u, v, w := Eval(order[0].1, One(a)).value, Eval(order[0].1, One(b)).value, Eval(order[0].1, One(c)).value;
    if CompareEquals(u, v) == Some(true) {
      SamePayload(u, v, w);
      if CompareEquals(v, w) == Some(true) { Transitive(order[1..], a, b, c); }
    } else if CompareEquals(v, w) == Some(true) {
      SamePayload(v, w, u);
    } else if order[0].0 {
      LessChain(u, v, w);
    } else {
      LessChain(w, v, u);
    }
  }

  // Comparison looks at the payload only.
  lemma SamePayload(u: Value, v: Value, w: Value)
    requires CompareEquals(u, v) == Some(true)
    ensures CompareEquals(u, w) == CompareEquals(v, w) && CompareEquals(w, u) == CompareEquals(w, v)
    ensures CompareLess(u, w) == CompareLess(v, w) && CompareLess(w, u) == CompareLess(w, v)
  {
  }

  // ---------- Sorting exists ----------

  lemma Decides(order: Order, rows: seq<Row>, i: nat, j: nat)
    requires !Undecided(order, rows) && i < j < |rows|
    ensures BothWays(order, rows[i], rows[j])
  {
    var a, b := rows[i], rows[j];
    TwoOfThem(rows, i, j);
    assert multiset{a, b} == multiset{b, a};
  }

  lemma TwoOfThem(rows: seq<Row>, i: nat, j: nat)
    requires i < j < |rows|
    ensures multiset{rows[i], rows[j]} <= multiset(rows)
  {
    assert rows == rows[..i] + [rows[i]] + rows[i + 1..j] + [rows[j]] + rows[j + 1..];
  }

  lemma FewerDecided(order: Order, rows: seq<Row>, more: multiset<Row>)
    requires !Undecided(order, rows) && more <= multiset(rows)
    ensures forall some: seq<Row> :: multiset(some) <= more ==> !Undecided(order, some)
  {
  }

  predicate Compared(order: Order, x: Row, rows: seq<Row>) {
    forall k {:trigger rows[k]} :: 0 <= k < |rows| ==> BothWays(order, x, rows[k])
  }

  lemma FirstCompared(order: Order, x: Row, rows: seq<Row>)
    requires !Undecided(order, [x] + rows)
    ensures Compared(order, x, rows)
  {
    forall k | 0 <= k < |rows| ensures BothWays(order, x, rows[k]) {
      assert ([x] + rows)[k + 1] == rows[k];
      Decides(order, [x] + rows, 0, k + 1);
    }
  }

  // The place of x among the rows: before the first one it comes before.
  lemma Place(order: Order, x: Row, rows: seq<Row>) returns (i: nat)
    ensures i <= |rows| && forall k {:trigger rows[k]} :: 0 <= k < i ==> NotBefore(order, x, rows[k])
    ensures i < |rows| ==> !NotBefore(order, x, rows[i])
  {
    i := 0;
    while i < |rows| && NotBefore(order, x, rows[i])
      invariant i <= |rows| && forall k {:trigger rows[k]} :: 0 <= k < i ==> NotBefore(order, x, rows[k])
    {
      i := i + 1;
    }
  }

  lemma Behind(order: Order, x: Row, rows: seq<Row>, i: nat, k: nat)
    requires Sorted(order, rows) && Compared(order, x, rows) && i <= k < |rows| && !NotBefore(order, x, rows[i])
    ensures NotBefore(order, rows[k], x)
  {
    var y, z := rows[k], rows[i];
    assert BothWays(order, x, y) && BothWays(order, x, z);
    if k == i {
      OneFirst(order, x, z);
    } else {
      assert NotBefore(order, y, z);
      Between(order, y, x, z);
    }
  }

  function PutAt(rows: seq<Row>, i: nat, x: Row): (out: seq<Row>)
    requires i <= |rows|
    ensures |out| == |rows| + 1 && multiset(out) == multiset([x] + rows)
    ensures forall k :: 0 <= k < |out| ==> out[k] == if k < i then rows[k] else if k == i then x else rows[k - 1]
  {
    assert rows == rows[..i] + rows[i..];
    rows[..i] + [x] + rows[i..]
  }

  lemma Insert(order: Order, x: Row, rows: seq<Row>) returns (out: seq<Row>)
    requires Sorted(order, rows) && Compared(order, x, rows)
    ensures Sorted(order, out) && multiset(out) == multiset([x] + rows)
  {
    var i := Place(order, x, rows);
    out := PutAt(rows, i, x);
    forall j, k | 0 <= j < k < |out| ensures NotBefore(order, out[k], out[j]) {
      if j == i {
        Behind(order, x, rows, i, k - 1);
      } else if k != i {
        assert NotBefore(order, rows[if k < i then k else k - 1], rows[if j < i then j else j - 1]);
      }
    }
  }

  /** Rows that can all be compared have a sorted order. */
  lemma {:induction false} SortedExists(order: Order, rows: seq<Row>) returns (out: seq<Row>)
    requires !Undecided(order, rows)
    ensures Sorted(order, out) && multiset(out) == multiset(rows)
  {
    if rows == [] {
      out := [];
    } else {
      assert rows == [rows[0]] + rows[1..];
      assert multiset(rows[1..]) <= multiset(rows);
      FewerDecided(order, rows, multiset(rows[1..]));
      var rest := SortedExists(order, rows[1..]);
      assert multiset([rows[0]] + rest) == multiset(rows);
      FewerDecided(order, rows, multiset(rows));
      FirstCompared(order, rows[0], rest);
      out := Insert(order, rows[0], rest);
    }
  }
}
