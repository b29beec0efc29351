/** Pull-based execution: what a call of Next does to the work that is left, and what all calls together
    yield. */
module Pulls {
  import opened Wrappers
  import opened Values

  // What an executor does with one item of its work.
  datatype Step<U> = Skip | Emit(row: U) | Fail

  // What a call of Next returns.
  datatype Pulled<U> = Got(row: U) | End | Error

  /** One call: skips items until one is emitted. */
  function Pull<T, U>(xs: seq<T>, f: T -> Step<U>): (r: (Pulled<U>, seq<T>))
    ensures |r.1| <= |xs| && (xs != [] ==> |r.1| < |xs|) && (r.0.End? ==> r.1 == [])
    ensures xs == [] ==> r.0.End?
  {
    if xs == [] then (End, [])
    else match f(xs[0])
      case Skip => Pull(xs[1..], f)
      case Emit(row) => (Got(row), xs[1..])
      case Fail => (Error, xs[1..])
  }

  /** What running an executor comes to: it does not start, or it gives these rows and then ends or raises an
      error. */
  datatype Outcome<U> = NoStart | Gave(rows: seq<U>, ok: bool)
  {
    predicate Ok() {
      Gave? && ok
    }
  }

  /** All calls until the end or an error. */
  function Drained<T, U>(xs: seq<T>, f: T -> Step<U>): (o: Outcome<U>)
    ensures o.Gave?
    decreases |xs|
  {
    match Pull(xs, f)
    case (End, _) => Gave([], true)
    case (Error, _) => Gave([], false)
    case (Got(row), rest) => var o := Drained(rest, f); Gave([row] + o.rows, o.ok)
  }

  /** The emitted rows in order, or None if a call raises an error. */
  function Collect<T, U>(xs: seq<T>, f: T -> Step<U>): Option<seq<U>> {
    if Drained(xs, f).ok then Some(Drained(xs, f).rows) else None
  }

  function Emitted<T, U>(xs: seq<T>, f: T -> Step<U>): seq<U> {
    if xs == [] then [] else (if f(xs[0]).Emit? then [f(xs[0]).row] else []) + Emitted(xs[1..], f)
  }

  predicate NoneFails<T, U>(xs: seq<T>, f: T -> Step<U>) {
    forall i :: 0 <= i < |xs| ==> f(xs[i]) != Fail
  }

  // What the first item makes of the outcome of the others.
  lemma DrainedFirst<T, U>(xs: seq<T>, f: T -> Step<U>)
    requires xs != []
    ensures Drained(xs, f) ==
      match f(xs[0])
      case Skip => Drained(xs[1..], f)
      case Emit(row) => Gave([row] + Drained(xs[1..], f).rows, Drained(xs[1..], f).ok)
      case Fail => Gave([], false)
  {
    match f(xs[0]) {
      case Skip => assert Pull(xs, f) == Pull(xs[1..], f);
      case Emit(row) => assert Pull(xs, f) == (Got(row), xs[1..]);
      case Fail => assert Pull(xs, f) == (Error, xs[1..]);
    }
  }

  /** Pulling until the end yields exactly what the items emit, unless some item fails. */
  lemma {:induction false} CollectEmits<T, U>(xs: seq<T>, f: T -> Step<U>)
    ensures Collect(xs, f) == if NoneFails(xs, f) then Some(Emitted(xs, f)) else None
    decreases |xs|
  {
    if xs != [] {
      CollectEmits(xs[1..], f);
      FailsFirst(xs, f);
      DrainedFirst(xs, f);
      if f(xs[0]).Skip? { assert Emitted(xs, f) == Emitted(xs[1..], f); }
      if f(xs[0]).Fail? { assert !Drained(xs, f).ok; }
    }
  }

  // Every row given, also before an error, is emitted by some item.
  lemma {:induction false} GivenFrom<T, U>(xs: seq<T>, f: T -> Step<U>, u: U) returns (i: nat)
    requires u in Drained(xs, f).rows
    ensures i < |xs| && f(xs[i]) == Emit(u)
  {
    DrainedFirst(xs, f);
    if f(xs[0]) == Emit(u) { i := 0; } else {
      var j := GivenFrom(xs[1..], f, u);
      i := j + 1;
    }
  }

  lemma FailsFirst<T, U>(xs: seq<T>, f: T -> Step<U>)
    requires xs != []
    ensures NoneFails(xs, f) <==> f(xs[0]) != Fail && NoneFails(xs[1..], f)
  {
    assert forall i :: 1 <= i < |xs| ==> xs[i] == xs[1..][i - 1];
  }

  lemma Associative<T>(a: seq<T>, b: seq<T>, c: seq<T>)
    ensures a + (b + c) == (a + b) + c
  {
  }

  lemma {:induction false} EmittedSplit<T, U>(xs: seq<T>, ys: seq<T>, f: T -> Step<U>)
    ensures Emitted(xs + ys, f) == Emitted(xs, f) + Emitted(ys, f)
  {
    if xs == [] {
      assert xs + ys == ys;
    } else {
      var all := xs + ys;
      assert all[0] == xs[0] && all[1..] == xs[1..] + ys;
      EmittedSplit(xs[1..], ys, f);
      Associative(if f(xs[0]).Emit? then [f(xs[0]).row] else [], Emitted(xs[1..], f), Emitted(ys, f));
    }
  }

  // ---------- A child executor ----------

  /** A child executor as its parent sees it. Init may raise an error; otherwise it starts over, and Next hands
      out the rows one by one until the end or an error. */
  class Child {
    const out: Outcome<Row>
    var cursor: nat

    constructor (out: Outcome<Row>)
      ensures this.out == out && cursor == 0
    {
      this.out := out;
      cursor := 0;
    }

    ghost predicate Valid()
      reads this
    {
      out.Gave? && cursor <= |out.rows|
    }

    ghost function Left(): seq<Row>
      requires Valid()
      reads this
    {
      out.rows[cursor..]
    }

    method Init() returns (ok: bool)
      modifies this
      ensures ok == out.Gave? && cursor == 0 && (ok ==> Valid())
    {
      cursor := 0;
      ok := out.Gave?;
    }

    method Next() returns (r: Pulled<Row>)
      requires Valid()
      modifies this
      ensures Valid()
      ensures r == if old(cursor) < |out.rows| then Got(out.rows[old(cursor)]) else if out.ok then End else Error
      ensures cursor == if r.Got? then old(cursor) + 1 else old(cursor)
    {
      if cursor == |out.rows| { return if out.ok then End else Error; }
      r := Got(out.rows[cursor]);
      cursor := cursor + 1;
    }
  }
}
