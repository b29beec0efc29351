/** Lists of rows as bags: what filters, maps and joins keep when only the order of their inputs changes. */
module Bags {
  import opened Values

  // ---------- Counting ----------

  function Count<T(==)>(xs: seq<T>, x: T): nat {
    multiset(xs)[x]
  }

  lemma CountFirst<T>(xs: seq<T>, x: T)
    requires xs != []
    ensures Count(xs, x) == (if xs[0] == x then 1 else 0) + Count(xs[1..], x)
  {
    assert xs == [xs[0]] + xs[1..];
  }

  lemma CountSplit<T>(xs: seq<T>, ys: seq<T>, x: T)
    ensures Count(xs + ys, x) == Count(xs, x) + Count(ys, x)
  {
  }

  // Lists with equal counts hold the same bag.
  lemma CountsDecide<T>(xs: seq<T>, ys: seq<T>)
    ensures multiset(xs) == multiset(ys) <==> forall x :: Count(xs, x) == Count(ys, x)
  {
    if forall x :: Count(xs, x) == Count(ys, x) {
      forall x ensures multiset(xs)[x] == multiset(ys)[x] { assert Count(xs, x) == Count(ys, x); }
      assert multiset(xs) == multiset(ys);
    }
  }

  // ---------- Filters and maps ----------

  function Filter<T>(xs: seq<T>, p: T -> bool): (ys: seq<T>)
    ensures forall y :: y in ys ==> y in xs && p(y)
  {
    if xs == [] then [] else if p(xs[0]) then [xs[0]] + Filter(xs[1..], p) else Filter(xs[1..], p)
  }

  lemma {:induction false} FilterCount<T>(xs: seq<T>, p: T -> bool, x: T)
    ensures Count(Filter(xs, p), x) == if p(x) then Count(xs, x) else 0
  {
    if xs != [] {
      FilterCount(xs[1..], p, x);
      CountFirst(xs, x);
      CountSplit([xs[0]], Filter(xs[1..], p), x);
    }
  }

  lemma FilterPermuted<T>(xs: seq<T>, ys: seq<T>, p: T -> bool)
    requires multiset(xs) == multiset(ys)
    ensures multiset(Filter(xs, p)) == multiset(Filter(ys, p))
  {
    forall x ensures Count(Filter(xs, p), x) == Count(Filter(ys, p), x) {
      FilterCount(xs, p, x);
      FilterCount(ys, p, x);
    }
    CountsDecide(Filter(xs, p), Filter(ys, p));
  }

  lemma {:induction false} FilterSplit<T>(xs: seq<T>, ys: seq<T>, p: T -> bool)
    ensures Filter(xs + ys, p) == Filter(xs, p) + Filter(ys, p)
  {
    if xs == [] {
      assert xs + ys == ys;
    } else {
      assert (xs + ys)[1..] == xs[1..] + ys;
      FilterSplit(xs[1..], ys, p);
    }
  }

  // Two filters that agree on the list.
  lemma {:induction false} FilterSame<T>(xs: seq<T>, p: T -> bool, q: T -> bool)
    requires forall x :: x in xs ==> p(x) == q(x)
    ensures Filter(xs, p) == Filter(xs, q)
  {
    if xs != [] { FilterSame(xs[1..], p, q); }
  }

  function Map<T, U>(xs: seq<T>, f: T -> U): (ys: seq<U>)
    ensures |ys| == |xs| && forall i :: 0 <= i < |xs| ==> ys[i] == f(xs[i])
  {
    seq(|xs|, i requires 0 <= i < |xs| => f(xs[i]))
  }

  /** A place of x in a list, and the list without it. */
  lemma TakeOut<T>(xs: seq<T>, x: T) returns (i: nat, rest: seq<T>)
    requires x in multiset(xs)
    ensures i < |xs| && xs[i] == x && rest == xs[..i] + xs[i + 1..]
    ensures multiset(rest) == multiset(xs) - multiset{x}
  {
    i :| 0 <= i < |xs| && xs[i] == x;
    rest := xs[..i] + xs[i + 1..];
    assert xs == xs[..i] + [x] + xs[i + 1..];
  }

  lemma MapWithout<T, U>(xs: seq<T>, i: nat, f: T -> U)
    requires i < |xs|
    ensures multiset(Map(xs, f)) == multiset(Map(xs[..i] + xs[i + 1..], f)) + multiset{f(xs[i])}
  {
    var a, b := Map(xs[..i], f), Map(xs[i + 1..], f);
    assert Map(xs, f) == a + [f(xs[i])] + b;
    assert Map(xs[..i] + xs[i + 1..], f) == a + b;
  }

  lemma {:induction false} MapPermuted<T, U>(xs: seq<T>, ys: seq<T>, f: T -> U)
    requires multiset(xs) == multiset(ys)
    ensures multiset(Map(xs, f)) == multiset(Map(ys, f))
    decreases |xs|
  {
    if xs == [] {
      assert |multiset(ys)| == 0;
    } else {
      var x := xs[0];
      assert xs == [x] + xs[1..];
      var i, rest := TakeOut(ys, x);
      assert multiset(xs[1..]) == multiset(xs) - multiset{x};
      MapPermuted(xs[1..], rest, f);
      MapWithout(ys, i, f);
      MapWithout(xs, 0, f);
      assert xs[..0] + xs[1..] == xs[1..];
    }
  }

  lemma SameMembers<T>(xs: seq<T>, ys: seq<T>)
    requires multiset(xs) == multiset(ys)
    ensures forall x :: x in xs <==> x in ys
    ensures |xs| == |ys|
  {
    forall x ensures x in xs <==> x in ys { assert x in xs <==> x in multiset(xs); assert x in ys <==> x in multiset(ys); }
    assert |multiset(xs)| == |xs| && |multiset(ys)| == |ys|;
  }

  // ---------- Joins ----------

  type Matching = (Row, Row) -> bool

  // One left row against a list of right rows.
  function Matches(l: Row, rs: seq<Row>, c: Matching): seq<Row> {
    if rs == [] then [] else (if c(l, rs[0]) then [l + rs[0]] else []) + Matches(l, rs[1..], c)
  }

  // A list of left rows against one right row.
  function MatchesOf(ls: seq<Row>, r: Row, c: Matching): seq<Row> {
    if ls == [] then [] else (if c(ls[0], r) then [ls[0] + r] else []) + MatchesOf(ls[1..], r, c)
  }

  /** All matching pairs, left row by left row. */
  function LeftMajor(ls: seq<Row>, rs: seq<Row>, c: Matching): seq<Row> {
    if ls == [] then [] else Matches(ls[0], rs, c) + LeftMajor(ls[1..], rs, c)
  }

  /** All matching pairs, right row by right row. */
  function RightMajor(ls: seq<Row>, rs: seq<Row>, c: Matching): seq<Row> {
    if rs == [] then [] else MatchesOf(ls, rs[0], c) + RightMajor(ls, rs[1..], c)
  }

  predicate Wide(ls: seq<Row>, w: nat) {
    forall i :: 0 <= i < |ls| ==> |ls[i]| == w
  }

  /** How often a row appears in a join: for each copy of its left part, each copy of its right part, if
      the parts match. */
  function PairCount(ls: seq<Row>, rs: seq<Row>, w: nat, c: Matching, o: Row): nat {
    if w <= |o| && c(o[..w], o[w..]) then Count(ls, o[..w]) * Count(rs, o[w..]) else 0
  }

  lemma Parts(l: Row, r: Row, o: Row)
    ensures o == l + r <==> |l| <= |o| && o[..|l|] == l && o[|l|..] == r
  {
    if |l| <= |o| { assert o == o[..|l|] + o[|l|..]; }
  }

  lemma {:induction false} MatchesCount(l: Row, rs: seq<Row>, c: Matching, o: Row)
    ensures var w := |l|;
      Count(Matches(l, rs, c), o) == if w <= |o| && o[..w] == l && c(l, o[w..]) then Count(rs, o[w..]) else 0
  {
    if rs != [] {
      var w := |l|;
      var first := if c(l, rs[0]) then [l + rs[0]] else [];
      MatchesCount(l, rs[1..], c, o);
      if w <= |o| { CountFirst(rs, o[w..]); }
      Parts(l, rs[0], o);
      CountSplit(first, Matches(l, rs[1..], c), o);
    }
  }

  lemma {:induction false} MatchesOfCount(ls: seq<Row>, r: Row, w: nat, c: Matching, o: Row)
    requires Wide(ls, w)
    ensures Count(MatchesOf(ls, r, c), o) == if w <= |o| && o[w..] == r && c(o[..w], r) then Count(ls, o[..w]) else 0
  {
    if ls != [] {
      var first := if c(ls[0], r) then [ls[0] + r] else [];
      MatchesOfCount(ls[1..], r, w, c, o);
      if w <= |o| { CountFirst(ls, o[..w]); }
      Parts(ls[0], r, o);
      CountSplit(first, MatchesOf(ls[1..], r, c), o);
    }
  }

  lemma OneMore(a: nat, b: nat, n: nat)
    requires a == b + 1
    ensures a * n == n + b * n && n * a == n + n * b
  {
  }

  lemma {:induction false} LeftMajorCount(ls: seq<Row>, rs: seq<Row>, w: nat, c: Matching, o: Row)
    requires Wide(ls, w)
    ensures Count(LeftMajor(ls, rs, c), o) == PairCount(ls, rs, w, c, o)
  {
    if ls != [] {
      LeftMajorCount(ls[1..], rs, w, c, o);
      MatchesCount(ls[0], rs, c, o);
      CountSplit(Matches(ls[0], rs, c), LeftMajor(ls[1..], rs, c), o);
      if w <= |o| {
        var l, r := o[..w], o[w..];
        CountFirst(ls, l);
        if ls[0] == l { OneMore(Count(ls, l), Count(ls[1..], l), Count(rs, r)); }
      }
    }
  }

  lemma {:induction false} RightMajorCount(ls: seq<Row>, rs: seq<Row>, w: nat, c: Matching, o: Row)
    requires Wide(ls, w)
    ensures Count(RightMajor(ls, rs, c), o) == PairCount(ls, rs, w, c, o)
  {
    if rs != [] {
      RightMajorCount(ls, rs[1..], w, c, o);
      MatchesOfCount(ls, rs[0], w, c, o);
      CountSplit(MatchesOf(ls, rs[0], c), RightMajor(ls, rs[1..], c), o);
      if w <= |o| {
        var l, r := o[..w], o[w..];
        CountFirst(rs, r);
        if rs[0] == r { OneMore(Count(rs, r), Count(rs[1..], r), Count(ls, l)); }
      }
    }
  }

  /** The two orders hold the same rows. */
  lemma OrdersAgree(ls: seq<Row>, rs: seq<Row>, w: nat, c: Matching)
    requires Wide(ls, w)
    ensures multiset(LeftMajor(ls, rs, c)) == multiset(RightMajor(ls, rs, c))
  {
    var a, b := LeftMajor(ls, rs, c), RightMajor(ls, rs, c);
    forall o ensures Count(a, o) == Count(b, o) {
      LeftMajorCount(ls, rs, w, c, o);
      RightMajorCount(ls, rs, w, c, o);
    }
    CountsDecide(a, b);
  }

  /** Permuting the inputs of a join permutes its output. */
  lemma JoinPermuted(ls: seq<Row>, ls': seq<Row>, rs: seq<Row>, rs': seq<Row>, w: nat, c: Matching)
    requires Wide(ls, w) && multiset(ls) == multiset(ls') && multiset(rs) == multiset(rs')
    ensures multiset(LeftMajor(ls, rs, c)) == multiset(LeftMajor(ls', rs', c))
  {
    SameMembers(ls, ls');
    forall i | 0 <= i < |ls'| ensures |ls'[i]| == w { assert ls'[i] in ls; }
    var a, b := LeftMajor(ls, rs, c), LeftMajor(ls', rs', c);
    forall o ensures Count(a, o) == Count(b, o) {
      LeftMajorCount(ls, rs, w, c, o);
      LeftMajorCount(ls', rs', w, c, o);
    }
    CountsDecide(a, b);
  }

  predicate Agree(ls: seq<Row>, rs: seq<Row>, c: Matching, d: Matching) {
    forall i, j :: 0 <= i < |ls| && 0 <= j < |rs| ==> c(ls[i], rs[j]) == d(ls[i], rs[j])
  }

  lemma SamePairCount(ls: seq<Row>, rs: seq<Row>, w: nat, c: Matching, d: Matching, o: Row)
    requires Agree(ls, rs, c, d)
    ensures PairCount(ls, rs, w, c, o) == PairCount(ls, rs, w, d, o)
  {
    if w <= |o| {
      var l, r := o[..w], o[w..];
      assert l in multiset(ls) <==> l in ls;
      assert r in multiset(rs) <==> r in rs;
    }
  }

  lemma Positive(a: nat, b: nat)
    requires a > 0 && b > 0
    ensures a * b > 0
  {
  }

  lemma DifferentCount(ls: seq<Row>, rs: seq<Row>, w: nat, c: Matching, d: Matching, i: nat, j: nat)
    requires Wide(ls, w) && i < |ls| && j < |rs| && c(ls[i], rs[j]) != d(ls[i], rs[j])
    ensures Count(LeftMajor(ls, rs, c), ls[i] + rs[j]) != Count(LeftMajor(ls, rs, d), ls[i] + rs[j])
  {
    var l, r := ls[i], rs[j];
    var o := l + r;
    Parts(l, r, o);
    LeftMajorCount(ls, rs, w, c, o);
    LeftMajorCount(ls, rs, w, d, o);
    assert l in multiset(ls) && r in multiset(rs);
    Positive(Count(ls, l), Count(rs, r));
  }

  /** Two conditions give the same bag exactly when they agree on every pair. */
  lemma ConditionsAgree(ls: seq<Row>, rs: seq<Row>, w: nat, c: Matching, d: Matching)
    requires Wide(ls, w)
    ensures multiset(LeftMajor(ls, rs, c)) == multiset(LeftMajor(ls, rs, d)) <==> Agree(ls, rs, c, d)
  {
    var a, b := LeftMajor(ls, rs, c), LeftMajor(ls, rs, d);
    CountsDecide(a, b);
    if Agree(ls, rs, c, d) {
      forall o ensures Count(a, o) == Count(b, o) {
        LeftMajorCount(ls, rs, w, c, o);
        LeftMajorCount(ls, rs, w, d, o);
        SamePairCount(ls, rs, w, c, d, o);
      }
    } else {
      var i, j :| 0 <= i < |ls| && 0 <= j < |rs| && c(ls[i], rs[j]) != d(ls[i], rs[j]);
      DifferentCount(ls, rs, w, c, d, i, j);
    }
  }
}
