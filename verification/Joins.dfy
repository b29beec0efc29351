/** The nested-loop join, the hash join, and when they return the same rows. */
module Joins {
  import opened Wrappers
  import opened Values
  import opened Expressions
  import opened Bags
  import opened Pulls

  // ---------- The nested-loop join ----------

  // What the double loop meets: a pair of rows, or an error raised by a child.
  datatype Item = Pair(l: Row, r: Row) | Broken

  function JoinStep(pred: Option<Expr>): Item -> Step<Row> {
    (p: Item) =>
      if p.Broken? then Fail
      else
        match Passes(pred, Two(p.l, p.r))
        case None => Fail
        case Some(true) => Emit(p.l + p.r)
        case Some(false) => Skip
  }

  // Where a child ends.
  function Last(ok: bool): seq<Item> {
    if ok then [] else [Broken]
  }

  // A left row with each right row, up to the end of the right side.
  function With(l: Row, rs: seq<Row>, ok: bool): (ps: seq<Item>)
    ensures |ps| == |rs| + |Last(ok)| && forall i :: 0 <= i < |ps| ==> ps[i] == if i < |rs| then Pair(l, rs[i]) else Broken
  {
    seq(|rs|, i requires 0 <= i < |rs| => Pair(l, rs[i])) + Last(ok)
  }

  /** The cross product, left row by left row; the right side runs again for each of them. */
  function Pairs(ls: seq<Row>, lok: bool, rs: seq<Row>, rok: bool): seq<Item> {
    if ls == [] then Last(lok) else With(ls[0], rs, rok) + Pairs(ls[1..], lok, rs, rok)
  }

  /** What a nested-loop join of these children comes to: both are started and the first left row is asked for;
      without one, the right side is never asked for a row. */
  function LoopOutcome(pred: Option<Expr>, l: Outcome<Row>, r: Outcome<Row>): Outcome<Row> {
    if l.NoStart? || r.NoStart? || (l.rows == [] && !l.ok) then NoStart
    else Drained(Pairs(l.rows, l.ok, r.rows, r.ok), JoinStep(pred))
  }

  function Matched(pred: Option<Expr>): Matching {
    (l, r) => Passes(pred, Two(l, r)) == Some(true)
  }

  // Pulling past items that emit nothing.
  lemma {:induction false} PullSkips<T, U>(xs: seq<T>, ys: seq<T>, f: T -> Step<U>)
    requires Pull(xs, f).0.End?
    ensures Pull(xs + ys, f) == Pull(ys, f)
  {
    if xs == [] {
      assert xs + ys == ys;
    } else {
      assert (xs + ys)[1..] == xs[1..] + ys;
      PullSkips(xs[1..], ys, f);
    }
  }

  lemma {:induction false} PullStops<T, U>(xs: seq<T>, ys: seq<T>, f: T -> Step<U>)
    requires !Pull(xs, f).0.End?
    ensures Pull(xs + ys, f) == (Pull(xs, f).0, Pull(xs, f).1 + ys)
  {
    assert (xs + ys)[1..] == xs[1..] + ys && (xs + ys)[0] == xs[0];
    if f(xs[0]).Skip? { PullStops(xs[1..], ys, f); }
  }

  class NestedLoopJoin {
    const left: Child
    const right: Child
    const pred: Option<Expr>
    var hasLeft: bool
    var leftRow: Row

    constructor (left: Child, right: Child, pred: Option<Expr>)
      requires left != right
      ensures this.left == left && this.right == right && this.pred == pred
    {
      this.left, this.right, this.pred := left, right, pred;
      hasLeft, leftRow := false, [];
    }

    ghost predicate Valid()
      reads this, left, right
    {
      left != right && left.Valid() && right.Valid()
    }

    /** The pairs not yet looked at: the rest of the right side for the current left row, then the whole
        right side for each later one. */
    ghost function Todo(): seq<Item>
      requires Valid()
      reads this, left, right
    {
      if hasLeft then With(leftRow, right.Left(), right.out.ok) + Later() else []
    }

    ghost function Later(): seq<Item>
      requires Valid()
      reads this, left, right
    {
      Pairs(left.Left(), left.out.ok, right.out.rows, right.out.ok)
    }

    method Init() returns (ok: bool)
      requires left != right
      modifies this, left, right
      ensures ok == LoopOutcome(pred, left.out, right.out).Gave?
      ensures ok ==> Valid() && Todo() == Pairs(left.out.rows, left.out.ok, right.out.rows, right.out.ok)
    {
      ok := left.Init();
      if !ok { return; }
      ok := right.Init();
      if !ok { return; }
      ok := NextLeft();
    }

    // Moves on to the next left row.
    method NextLeft() returns (ok: bool)
      requires Valid()
      modifies this, left
      ensures Valid() && ok == (old(left.Left()) != [] || left.out.ok)
      ensures ok ==> hasLeft == (old(left.Left()) != [])
      ensures hasLeft && ok ==> old(left.Left()) == [leftRow] + left.Left()
    {
      var l := left.Next();
      match l {
        case Got(row) =>
          hasLeft, leftRow := true, row;
          assert old(left.Left())[0] == row && old(left.Left())[1..] == left.Left();
        case End => hasLeft := false;
        case Error => return false;
      }
      ok := true;
    }

    /** Resumes the double loop where the last call left it. */
    method Next() returns (r: Pulled<Row>)
      requires Valid()
      modifies this, left, right
      ensures r == Pull(old(Todo()), JoinStep(pred)).0
      ensures !r.Error? ==> Valid() && Todo() == Pull(old(Todo()), JoinStep(pred)).1
    {
      ghost var f := JoinStep(pred);
      while hasLeft
        invariant Valid() && Pull(old(Todo()), f) == Pull(Todo(), f)
        decreases hasLeft, |left.Left()|
      {
        ghost var here, later := With(leftRow, right.Left(), right.out.ok), Later();
        r := NextMatch();
        if !r.End? {
          PullStops(here, later, f);
          return;
        }
        PullSkips(here, later, f);
        var ok := MoveOn();
        if !ok { return Error; }
      }
      r := End;
    }

    // The next left row, with the right side at its start.
    method MoveOn() returns (ok: bool)
      requires Valid()
      modifies this, left, right
      ensures if ok then Valid() && Todo() == old(Later()) else old(Later()) == [Broken]
      ensures ok && hasLeft ==> |left.Left()| < old(|left.Left()|)
    {
      ok := NextLeft();
      if ok { var _ := right.Init(); }
    }

    // The inner loop: the next right row that matches the current left row.
    method NextMatch() returns (r: Pulled<Row>)
      requires Valid()
      modifies right
      ensures Valid() && r == Pull(old(With(leftRow, right.Left(), right.out.ok)), JoinStep(pred)).0
      ensures !r.Error? ==>
        With(leftRow, right.Left(), right.out.ok) == Pull(old(With(leftRow, right.Left(), right.out.ok)), JoinStep(pred)).1
    {
      ghost var f := JoinStep(pred);
      while true
        invariant Valid()
        invariant Pull(old(With(leftRow, right.Left(), right.out.ok)), f) == Pull(With(leftRow, right.Left(), right.out.ok), f)
        decreases |right.Left()|
      {
        ghost var here := With(leftRow, right.Left(), right.out.ok);
        var row := right.Next();
        if !row.Got? { return if row.End? then End else Error; }
        assert here[0] == Pair(leftRow, row.row) && here[1..] == With(leftRow, right.Left(), right.out.ok);
        match Passes(pred, Two(leftRow, row.row)) {
          case None => return Error;
          case Some(true) => return Got(leftRow + row.row);
          case Some(false) =>
        }
      }
    }

    /** Init, then Next until the end or an error. */
    method Run() returns (out: Outcome<Row>)
      requires left != right
      modifies this, left, right
      ensures out == LoopOutcome(pred, left.out, right.out)
    {
      var ok := Init();
      if !ok { return NoStart; }
      var rows: seq<Row> := [];
      ghost var f := JoinStep(pred);
      ghost var all := LoopOutcome(pred, left.out, right.out);
      assert [] + all.rows == all.rows;
      while true
        invariant Valid() && all == Prepend(rows, Drained(Todo(), f))
        decreases |Todo()|
      {
        PrependMore(rows, Todo(), f);
        var r := Next();
        match r {
          case End => return Gave(rows, true);
          case Error => return Gave(rows, false);
          case Got(row) => rows := rows + [row];
        }
      }
    }
  }

  // Rows already returned, then the rest.
  function Prepend(rows: seq<Row>, rest: Outcome<Row>): Outcome<Row>
    requires rest.Gave?
  {
    Gave(rows + rest.rows, rest.ok)
  }

  lemma PrependMore<T>(rows: seq<Row>, xs: seq<T>, f: T -> Step<Row>)
    ensures var (r, rest) := Pull(xs, f);
      Prepend(rows, Drained(xs, f)) ==
        match r
        case Got(row) => Prepend(rows + [row], Drained(rest, f))
        case End => Gave(rows, true)
        case Error => Gave(rows, false)
  {
    var (r, rest) := Pull(xs, f);
    if r.Got? { Associative(rows, [r.row], Drained(rest, f).rows); }
    assert rows + [] == rows;
  }

  lemma {:induction false} EmittedWith(l: Row, rs: seq<Row>, ok: bool, pred: Option<Expr>)
    ensures Emitted(With(l, rs, ok), JoinStep(pred)) == Matches(l, rs, Matched(pred))
  {
    if rs == [] {
      assert With(l, rs, ok) == Last(ok);
    } else {
      assert With(l, rs, ok)[1..] == With(l, rs[1..], ok);
      EmittedWith(l, rs[1..], ok, pred);
    }
  }

  lemma {:induction false} EmittedPairs(ls: seq<Row>, lok: bool, rs: seq<Row>, rok: bool, pred: Option<Expr>)
    ensures Emitted(Pairs(ls, lok, rs, rok), JoinStep(pred)) == LeftMajor(ls, rs, Matched(pred))
  {
    if ls != [] {
      EmittedSplit(With(ls[0], rs, rok), Pairs(ls[1..], lok, rs, rok), JoinStep(pred));
      EmittedWith(ls[0], rs, rok, pred);
      EmittedPairs(ls[1..], lok, rs, rok, pred);
    }
  }

  predicate Decided(ls: seq<Row>, rs: seq<Row>, pred: Option<Expr>) {
    forall i, j :: 0 <= i < |ls| && 0 <= j < |rs| ==> Passes(pred, Two(ls[i], rs[j])).Some?
  }

  lemma WithFails(l: Row, rs: seq<Row>, ok: bool, pred: Option<Expr>)
    ensures NoneFails(With(l, rs, ok), JoinStep(pred)) <==> ok && forall j :: 0 <= j < |rs| ==> Passes(pred, Two(l, rs[j])).Some?
  {
    var f, here := JoinStep(pred), With(l, rs, ok);
    forall j ensures 0 <= j < |rs| ==> (f(here[j]) != Fail <==> Passes(pred, Two(l, rs[j])).Some?) {}
    if !ok { assert here[|rs|] == Broken; }
  }

  lemma NoneFailsSplit<T, U>(xs: seq<T>, ys: seq<T>, f: T -> Step<U>)
    ensures NoneFails(xs + ys, f) <==> NoneFails(xs, f) && NoneFails(ys, f)
  {
    forall i ensures 0 <= i < |xs| ==> (xs + ys)[i] == xs[i] {}
    forall i ensures 0 <= i < |ys| ==> (xs + ys)[|xs| + i] == ys[i] {}
  }

  lemma {:induction false} PairsFail(ls: seq<Row>, lok: bool, rs: seq<Row>, rok: bool, pred: Option<Expr>)
    ensures NoneFails(Pairs(ls, lok, rs, rok), JoinStep(pred)) <==> lok && (ls == [] || rok) && Decided(ls, rs, pred)
  {
    if ls == [] {
      if !lok { assert Pairs(ls, lok, rs, rok)[0] == Broken; }
    } else {
      PairsFail(ls[1..], lok, rs, rok, pred);
      WithFails(ls[0], rs, rok, pred);
      NoneFailsSplit(With(ls[0], rs, rok), Pairs(ls[1..], lok, rs, rok), JoinStep(pred));
      assert forall i :: 1 <= i < |ls| ==> ls[i] == ls[1..][i - 1];
    }
  }

  /** All calls of a nested-loop join together: the matching rows of the cross product in left-major order. It
      raises no error exactly when the left side runs through, the right side starts, and, if there is a left
      row, the right side runs through as well and the predicate has a value on every pair. */
  lemma LoopJoinRows(pred: Option<Expr>, l: Outcome<Row>, r: Outcome<Row>)
    ensures var o := LoopOutcome(pred, l, r);
      && (o.Ok() <==> l.Ok() && r.Gave? && (l.rows == [] || r.ok) && Decided(l.rows, r.rows, pred))
      && (o.Ok() ==> o.rows == LeftMajor(l.rows, r.rows, Matched(pred)))
  {
    if l.Gave? && r.Gave? {
      CollectEmits(Pairs(l.rows, l.ok, r.rows, r.ok), JoinStep(pred));
      EmittedPairs(l.rows, l.ok, r.rows, r.ok, pred);
      PairsFail(l.rows, l.ok, r.rows, r.ok, pred);
    }
  }

  lemma {:induction false} PairFrom(ls: seq<Row>, lok: bool, rs: seq<Row>, rok: bool, i: nat)
    requires i < |Pairs(ls, lok, rs, rok)|
    ensures var p := Pairs(ls, lok, rs, rok)[i]; p.Pair? ==> p.l in ls && p.r in rs
  {
    if ls != [] {
      var n := |With(ls[0], rs, rok)|;
      if i >= n { PairFrom(ls[1..], lok, rs, rok, i - n); }
    }
  }

  // Every row the join gives, also before an error, is a left row with a right row.
  lemma JoinedFrom(pred: Option<Expr>, l: Outcome<Row>, r: Outcome<Row>, o: Row) returns (a: Row, b: Row)
    requires LoopOutcome(pred, l, r).Gave? && o in LoopOutcome(pred, l, r).rows
    ensures a in l.rows && b in r.rows && o == a + b
  {
    var ps := Pairs(l.rows, l.ok, r.rows, r.ok);
    var i := GivenFrom(ps, JoinStep(pred), o);
    PairFrom(l.rows, l.ok, r.rows, r.ok, i);
    a, b := ps[i].l, ps[i].r;
  }

  // ---------- The hash join ----------

  function KeyOf(e: Expr, row: Row): Option<string> {
    match Eval(e, One(row)) case None => None case Some(v) => Some(Text(v))
  }

  predicate HasText(e: Expr, row: Row) {
    KeyOf(e, row).Some?
  }

  // The first n rows have keys.
  predicate KeysDefined(e: Expr, rows: seq<Row>, n: nat)
    requires n <= |rows|
  {
    forall i {:trigger HasText(e, rows[i])} :: 0 <= i < n ==> HasText(e, rows[i])
  }

  /** What a hash join of these children comes to: both are run through when it starts. */
  function HashOutcome(lk: Expr, rk: Expr, l: Outcome<Row>, r: Outcome<Row>): Outcome<Row> {
    if l.Ok() && r.Ok() && KeysDefined(lk, l.rows, |l.rows|) && KeysDefined(rk, r.rows, |r.rows|)
      then Gave(RightMajor(l.rows, r.rows, SameKey(lk, rk)), true)
      else NoStart
  }

  function SameKey(lk: Expr, rk: Expr): Matching {
    (l, r) => KeyOf(lk, l).Some? && KeyOf(lk, l) == KeyOf(rk, r)
  }

  function HasKey(e: Expr, key: string): Row -> bool {
    row => KeyOf(e, row) == Some(key)
  }

  // The rows stored under a key.
  function Bucket(table: map<string, seq<Row>>, key: string): seq<Row> {
    if key in table then table[key] else []
  }

  // Each bucket holds the rows of its key among the first n, in order.
  ghost predicate IsTable(table: map<string, seq<Row>>, e: Expr, rows: seq<Row>, n: nat)
    requires n <= |rows|
  {
    forall key {:trigger Bucket(table, key)} :: Bucket(table, key) == Filter(rows[..n], HasKey(e, key))
  }

  function Beside(bs: seq<Row>, r: Row): (out: seq<Row>)
    ensures |out| == |bs| && forall i :: 0 <= i < |bs| ==> out[i] == bs[i] + r
  {
    seq(|bs|, i requires 0 <= i < |bs| => bs[i] + r)
  }

  lemma BesideMore(b: Row, bs: seq<Row>, r: Row)
    ensures Beside([b] + bs, r) == [b + r] + Beside(bs, r)
  {
  }

  lemma {:induction false} BucketMatches(ls: seq<Row>, r: Row, lk: Expr, rk: Expr, key: string)
    requires KeyOf(rk, r) == Some(key)
    ensures MatchesOf(ls, r, SameKey(lk, rk)) == Beside(Filter(ls, HasKey(lk, key)), r)
  {
    if ls != [] {
      BucketMatches(ls[1..], r, lk, rk, key);
      BesideMore(ls[0], Filter(ls[1..], HasKey(lk, key)), r);
      assert SameKey(lk, rk)(ls[0], r) == HasKey(lk, key)(ls[0]);
    }
  }

  lemma {:induction false} RightMajorMore(ls: seq<Row>, rs: seq<Row>, r: Row, c: Matching)
    ensures RightMajor(ls, rs + [r], c) == RightMajor(ls, rs, c) + MatchesOf(ls, r, c)
  {
    if rs == [] {
      assert [] + [r] == [r];
    } else {
      assert (rs + [r])[1..] == rs[1..] + [r];
      RightMajorMore(ls, rs[1..], r, c);
    }
  }

  class HashJoin {
    const left: Child
    const right: Child
    const leftKey: Expr
    const rightKey: Expr
    var table: map<string, seq<Row>>
    var results: seq<Row>
    var cursor: nat

    constructor (left: Child, right: Child, leftKey: Expr, rightKey: Expr)
      ensures this.left == left && this.right == right && this.leftKey == leftKey && this.rightKey == rightKey
    {
      this.left, this.right, this.leftKey, this.rightKey := left, right, leftKey, rightKey;
      table, results, cursor := map[], [], 0;
    }

    /** Builds the table from the left side, then probes it with each right row. */
    method Init() returns (ok: bool)
      requires left != right
      modifies this, left, right
      ensures cursor == 0
      ensures HashOutcome(leftKey, rightKey, left.out, right.out) == if ok then Gave(results, true) else NoStart
    {
      table, results, cursor := map[], [], 0;
      ok := left.Init();
      if !ok { return; }
      ok := right.Init();
      if !ok { return; }
      ok := Build();
      if ok { ok := Probe(); }
    }

    method Build() returns (ok: bool)
      requires left.Valid() && left.cursor == 0 && table == map[]
      modifies this`table, left
      ensures ok <==> left.out.ok && KeysDefined(leftKey, left.out.rows, |left.out.rows|)
      ensures ok ==> IsTable(table, leftKey, left.out.rows, |left.out.rows|)
    {
      ghost var rows := left.out.rows;
      while true
        invariant left.Valid() && KeysDefined(leftKey, rows, left.cursor)
        invariant IsTable(table, leftKey, rows, left.cursor)
        decreases |rows| - left.cursor
      {
        ghost var n := left.cursor;
        var l := left.Next();
        if !l.Got? { return l.End?; }
        assert HasText(leftKey, rows[n]) <==> KeyOf(leftKey, l.row).Some?;
        match KeyOf(leftKey, l.row) {
          case None => return false;
          case Some(key) =>
            Stored(table, leftKey, rows, n, key);
            table := table[key := Bucket(table, key) + [l.row]];
        }
      }
    }

    method Probe() returns (ok: bool)
      requires left.out.Gave? && right.Valid() && right.cursor == 0 && results == []
      requires IsTable(table, leftKey, left.out.rows, |left.out.rows|)
      modifies this`results, right
      ensures ok <==> right.out.ok && KeysDefined(rightKey, right.out.rows, |right.out.rows|)
      ensures ok ==> results == RightMajor(left.out.rows, right.out.rows, SameKey(leftKey, rightKey))
    {
      ghost var c, rows := SameKey(leftKey, rightKey), right.out.rows;
      while true
        invariant right.Valid() && KeysDefined(rightKey, rows, right.cursor)
        invariant results == ProbedTo(left.out.rows, rows, right.cursor, c)
        decreases |rows| - right.cursor
      {
        ghost var n := right.cursor;
        var r := right.Next();
        if !r.Got? {
          assert rows[..n] == rows;
          return r.End?;
        }
        assert HasText(rightKey, rows[n]) <==> KeyOf(rightKey, r.row).Some?;
        ok := ProbeRow(r.row, n);
        if !ok { return; }
      }
    }

    // Joins one right row with the left rows of its key.
    method ProbeRow(r: Row, ghost n: nat) returns (ok: bool)
      requires left.out.Gave? && right.out.Gave? && n < |right.out.rows| && right.out.rows[n] == r
      requires IsTable(table, leftKey, left.out.rows, |left.out.rows|)
      requires results == ProbedTo(left.out.rows, right.out.rows, n, SameKey(leftKey, rightKey))
      modifies this`results
      ensures ok <==> KeyOf(rightKey, r).Some?
      ensures ok ==> results == ProbedTo(left.out.rows, right.out.rows, n + 1, SameKey(leftKey, rightKey))
    {
      match KeyOf(rightKey, r) {
        case None => return false;
        case Some(key) =>
          BucketIs(table, leftKey, left.out.rows, key);
          ProbeMore(left.out.rows, right.out.rows, n, leftKey, rightKey, key);
          if key in table { Append(table[key], r); } else { assert Beside(Bucket(table, key), r) == []; }
          return true;
      }
    }

    // One output row for each stored left row.
    method Append(bucket: seq<Row>, r: Row)
      modifies this`results
      ensures results == old(results) + Beside(bucket, r)
    {
      for i := 0 to |bucket|
        invariant results == old(results) + Beside(bucket, r)[..i]
      {
        results := results + [bucket[i] + r];
      }
    }

    method Next() returns (r: Pulled<Row>)
      requires cursor <= |results|
      modifies this`cursor
      ensures cursor <= |results|
      ensures r == if old(cursor) == |results| then End else Got(results[old(cursor)])
      ensures cursor == if r.End? then old(cursor) else old(cursor) + 1
    {
      if cursor >= |results| { return End; }
      r := Got(results[cursor]);
      cursor := cursor + 1;
    }
  }

  function ProbedTo(ls: seq<Row>, rs: seq<Row>, n: nat, c: Matching): seq<Row>
    requires n <= |rs|
  {
    RightMajor(ls, rs[..n], c)
  }

  lemma BucketIs(table: map<string, seq<Row>>, e: Expr, rows: seq<Row>, key: string)
    requires IsTable(table, e, rows, |rows|)
    ensures Bucket(table, key) == Filter(rows, HasKey(e, key))
  {
    assert rows[..|rows|] == rows;
  }

  // What one more probe adds.
  lemma ProbeMore(ls: seq<Row>, rs: seq<Row>, n: nat, lk: Expr, rk: Expr, key: string)
    requires n < |rs| && KeyOf(rk, rs[n]) == Some(key)
    ensures var c := SameKey(lk, rk);
      ProbedTo(ls, rs, n + 1, c) == ProbedTo(ls, rs, n, c) + Beside(Filter(ls, HasKey(lk, key)), rs[n])
  {
    BucketMatches(ls, rs[n], lk, rk, key);
    RightMajorMore(ls, rs[..n], rs[n], SameKey(lk, rk));
    assert rs[..n + 1] == rs[..n] + [rs[n]];
  }

  lemma Stored(table: map<string, seq<Row>>, e: Expr, rows: seq<Row>, n: nat, key: string)
    requires n < |rows| && IsTable(table, e, rows, n) && KeyOf(e, rows[n]) == Some(key)
    ensures IsTable(table[key := Bucket(table, key) + [rows[n]]], e, rows, n + 1)
  {
    var next := table[key := Bucket(table, key) + [rows[n]]];
    assert rows[..n + 1] == rows[..n] + [rows[n]];
    forall k ensures Bucket(next, k) == Filter(rows[..n + 1], HasKey(e, k)) {
      assert Bucket(table, k) == Filter(rows[..n], HasKey(e, k));
      FilterMore(rows[..n], rows[n], HasKey(e, k));
    }
  }

  lemma FilterMore(rows: seq<Row>, row: Row, p: Row -> bool)
    ensures Filter(rows + [row], p) == if p(row) then Filter(rows, p) + [row] else Filter(rows, p)
  {
    FilterSplit(rows, [row], p);
  }

  // ---------- The two joins ----------

  predicate AllFit(rows: seq<Row>, s: Schema) {
    forall i :: 0 <= i < |rows| ==> RowFits(rows[i], s)
  }

  /** An equality of a left and a right column, written in either order. */
  predicate IsEquality(pred: Expr, lc: nat, rc: nat) {
    pred == Comparing(Equal, Column(0, lc), Column(1, rc)) || pred == Comparing(Equal, Column(1, rc), Column(0, lc))
  }

  lemma EqualityMatches(l: Row, r: Row, pred: Expr, lc: nat, rc: nat)
    requires IsEquality(pred, lc, rc) && lc < |l| && rc < |r| && TypeIn(l[lc]) == TypeIn(r[rc])
    ensures Passes(Some(pred), Two(l, r)).Some?
    ensures (Matched(Some(pred))(l, r) <==> SameKey(Column(0, lc), Column(0, rc))(l, r)) <==> !Clash(l[lc], r[rc])
  {
    TextDecides(l[lc], r[rc]);
    assert Eval(Column(0, lc), Two(l, r)) == Some(l[lc]) && Eval(Column(1, rc), Two(l, r)) == Some(r[rc]);
    var e := if pred.left == Column(0, lc) then CompareEquals(l[lc], r[rc]) else CompareEquals(r[rc], l[lc]);
    assert Eval(pred, Two(l, r)) == BoolValue(e);
    assert KeyOf(Column(0, lc), l) == Some(Text(l[lc])) && KeyOf(Column(0, rc), r) == Some(Text(r[rc]));
    assert Passes(Some(pred), Two(l, r)) == e;
    assert CompareEquals(l[lc], r[rc]) == CompareEquals(r[rc], l[lc]);
  }

  predicate NoClash(ls: seq<Row>, rs: seq<Row>, lc: nat, rc: nat)
    requires forall i :: 0 <= i < |ls| ==> lc < |ls[i]|
    requires forall j :: 0 <= j < |rs| ==> rc < |rs[j]|
  {
    forall i, j :: 0 <= i < |ls| && 0 <= j < |rs| ==> !Clash(ls[i][lc], rs[j][rc])
  }

  /** On a column equality of one type the hash join returns a permutation of the nested-loop join's rows
      exactly when no pair of keys clashes. */
  lemma HashJoinIff(ls: seq<Row>, rs: seq<Row>, sl: Schema, sr: Schema, pred: Expr, lc: nat, rc: nat)
    requires AllFit(ls, sl) && AllFit(rs, sr) && IsEquality(pred, lc, rc)
    requires lc < |sl| && rc < |sr| && sl[lc].ty == sr[rc].ty
    ensures Decided(ls, rs, Some(pred)) && KeysDefined(Column(0, lc), ls, |ls|) && KeysDefined(Column(0, rc), rs, |rs|)
    ensures multiset(RightMajor(ls, rs, SameKey(Column(0, lc), Column(0, rc)))) == multiset(LeftMajor(ls, rs, Matched(Some(pred))))
      <==> NoClash(ls, rs, lc, rc)
  {
    var c, d := Matched(Some(pred)), SameKey(Column(0, lc), Column(0, rc));
    forall i, j | 0 <= i < |ls| && 0 <= j < |rs|
      ensures Passes(Some(pred), Two(ls[i], rs[j])).Some?
      ensures c(ls[i], rs[j]) == d(ls[i], rs[j]) <==> !Clash(ls[i][lc], rs[j][rc])
    {
      assert Fits(ls[i][lc], sl[lc]) && Fits(rs[j][rc], sr[rc]);
      EqualityMatches(ls[i], rs[j], pred, lc, rc);
    }
    OrdersAgree(ls, rs, |sl|, d);
    ConditionsAgree(ls, rs, |sl|, c, d);
  }

  /** Columns known to hold no nulls, and no string that reads as null against one, never clash. */
  lemma NonNullNeverClash(ls: seq<Row>, rs: seq<Row>, sl: Schema, sr: Schema, lc: nat, rc: nat)
    requires AllFit(ls, sl) && AllFit(rs, sr) && lc < |sl| && rc < |sr| && sl[lc].nonNull && sr[rc].nonNull
    ensures NoClash(ls, rs, lc, rc)
  {
    forall i, j | 0 <= i < |ls| && 0 <= j < |rs| ensures !Clash(ls[i][lc], rs[j][rc]) {
      assert Fits(ls[i][lc], sl[lc]) && Fits(rs[j][rc], sr[rc]);
    }
  }
}
