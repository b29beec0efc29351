/** Which column types make the joined key text of the grouping tell all keys apart. */
module GroupKeys {
  import opened Values
  import opened Expressions

  /** At most one string column, and that one never null. */
  predicate Separable(s: Schema) {
    && (forall c :: 0 <= c < |s| && s[c].ty == Varchar ==> s[c].nonNull)
    && (forall c, d :: 0 <= c < d < |s| ==> s[c].ty != Varchar || s[d].ty != Varchar)
  }

  // ---------- A separable key can be read back from its text ----------

  function Bars(s: string): nat {
    if s == "" then 0 else Bars(s[..|s| - 1]) + if s[|s| - 1] == '|' then 1 else 0
  }

  lemma {:induction false} BarsSplit(a: string, b: string)
    ensures Bars(a + b) == Bars(a) + Bars(b)
    decreases |b|
  {
    if b == "" {
      assert a + b == a;
    } else {
      assert (a + b)[..|a + b| - 1] == a + b[..|b| - 1];
      BarsSplit(a, b[..|b| - 1]);
    }
  }

  lemma {:induction false} NoBars(s: string)
    requires '|' !in s
    ensures Bars(s) == 0
    decreases |s|
  {
    if s != "" { NoBars(s[..|s| - 1]); }
  }

  // A text cut at a separator with the same number of them on its left.
  lemma CutAtBar(a: string, b: string, s: string, t: string)
    requires a + "|" + s == b + "|" + t && Bars(a) == Bars(b)
    ensures a == b && s == t
  {
    var l, r := a + "|" + s, b + "|" + t;
    if |a| < |b| { BarWithin(a, b, s, t); }
    if |b| < |a| { BarWithin(b, a, t, s); }
    assert a == l[..|a|] && b == r[..|b|] && s == l[|a| + 1..] && t == r[|b| + 1..];
  }

  // The longer left part holds the other's separator as well.
  lemma BarWithin(a: string, b: string, s: string, t: string)
    requires a + "|" + s == b + "|" + t && |a| < |b|
    ensures Bars(a) < Bars(b)
  {
    var l, n := a + "|" + s, |a| + 1;
    assert l[..n] == a + "|";
    assert l[..|b|] == b;
    assert b == b[..n] + b[n..] && b[..n] == l[..n];
    BarsSplit(a, "|");
    BarsSplit(b[..n], b[n..]);
  }

  predicate NoStrings(s: Schema) {
    forall c :: 0 <= c < |s| ==> s[c].ty != Varchar
  }

  // Without strings there is one separator between any two columns.
  lemma {:induction false} BarsBetween(vs: seq<Value>, s: Schema)
    requires RowFits(vs, s) && NoStrings(s) && vs != []
    ensures Bars(KeyText(vs)) == |vs| - 1
    decreases |vs|
  {
    var n := |vs| - 1;
    NoBars(Text(vs[n]));
    if n > 0 {
      BarsBetween(vs[..n], s[..n]);
      BarsSplit(KeyText(vs[..n]) + "|", Text(vs[n]));
      BarsSplit(KeyText(vs[..n]), "|");
    }
  }

  // The text of the last column and of those before it.
  lemma LastColumn(vs: seq<Value>, ws: seq<Value>, s: Schema)
    requires Separable(s) && RowFits(vs, s) && RowFits(ws, s) && KeyText(vs) == KeyText(ws) && |s| > 1
    ensures var n := |s| - 1; KeyText(vs[..n]) == KeyText(ws[..n]) && Text(vs[n]) == Text(ws[n])
  {
    var n := |s| - 1;
    var a, b, x, y := KeyText(vs[..n]), KeyText(ws[..n]), Text(vs[n]), Text(ws[n]);
    if s[n].ty == Varchar {
      BarsBetween(vs[..n], s[..n]);
      BarsBetween(ws[..n], s[..n]);
    } else {
      NoBars(x);
      NoBars(y);
      BarsSplit(a + "|", x);
      BarsSplit(a, "|");
      BarsSplit(b + "|", y);
      BarsSplit(b, "|");
    }
    CutAtBar(a, b, x, y);
  }

  lemma Shorter(vs: seq<Value>, s: Schema, n: nat)
    requires RowFits(vs, s) && n <= |s|
    ensures RowFits(vs[..n], s[..n])
  {
  }

  lemma {:induction false} KeysApart(vs: seq<Value>, ws: seq<Value>, s: Schema)
    requires Separable(s) && RowFits(vs, s) && RowFits(ws, s) && KeyText(vs) == KeyText(ws)
    ensures vs == ws
    decreases |s|
  {
    if s != [] {
      var n := |s| - 1;
      if n > 0 { LastColumn(vs, ws, s); }
      OneColumn(vs[n], ws[n], s[n]);
      Shorter(vs, s, n);
      Shorter(ws, s, n);
      KeysApart(vs[..n], ws[..n], s[..n]);
      assert vs == vs[..n] + [vs[n]] && ws == ws[..n] + [ws[n]];
    }
  }

  lemma OneColumn(v: Value, w: Value, c: ColType)
    requires Fits(v, c) && Fits(w, c) && (c.ty == Varchar ==> c.nonNull) && Text(v) == Text(w)
    ensures v == w
  {
    if c.ty != Varchar { TextInjective(v, w); }
  }

  // ---------- Other column types have two keys of one text ----------

  // A row of zero values.
  function Zeros(s: Schema): (vs: seq<Value>)
    ensures RowFits(vs, s) && forall c :: 0 <= c < |s| ==> vs[c] == Payload(NullV(s[c].ty))
  {
    seq(|s|, c requires 0 <= c < |s| => Payload(NullV(s[c].ty)))
  }

  lemma KeyTextMore(vs: seq<Value>, v: Value)
    requires vs != []
    ensures KeyText(vs + [v]) == KeyText(vs) + "|" + Text(v)
  {
    assert (vs + [v])[..|vs|] == vs;
  }

  lemma {:induction false} KeyTextSplit(a: seq<Value>, b: seq<Value>)
    requires a != [] && b != []
    ensures KeyText(a + b) == KeyText(a) + "|" + KeyText(b)
    decreases |b|
  {
    var n := |b| - 1;
    assert a + b == a + b[..n] + [b[n]];
    KeyTextMore(a + b[..n], b[n]);
    if n > 0 {
      KeyTextSplit(a, b[..n]);
      JoinAssociates(KeyText(a), KeyText(b[..n]), Text(b[n]));
    } else {
      assert a + b[..n] == a;
    }
  }

  lemma JoinAssociates(a: string, b: string, c: string)
    ensures a + "|" + b + "|" + c == a + "|" + (b + "|" + c)
  {
  }

  // Columns in the middle may be replaced by others of the same text.
  lemma Around(a: seq<Value>, x: seq<Value>, y: seq<Value>, b: seq<Value>)
    requires x != [] && y != [] && KeyText(x) == KeyText(y)
    ensures KeyText(a + x + b) == KeyText(a + y + b)
  {
    if a == [] {
      assert a + x == x && a + y == y;
    } else {
      KeyTextSplit(a, x);
      KeyTextSplit(a, y);
    }
    if b == [] {
      assert a + x + b == a + x && a + y + b == a + y;
    } else {
      KeyTextSplit(a + x, b);
      KeyTextSplit(a + y, b);
    }
  }

  // A null prints like a string.
  lemma NullMerges(s: Schema, c: nat) returns (vs: seq<Value>, ws: seq<Value>)
    requires c < |s| && s[c].ty == Varchar && !s[c].nonNull
    ensures RowFits(vs, s) && RowFits(ws, s) && KeyText(vs) == KeyText(ws) && vs != ws
  {
    var z := Zeros(s);
    vs, ws := z[c := NullV(Varchar)], z[c := StrV("NULL")];
    assert vs == z[..c] + [NullV(Varchar)] + z[c + 1..] && ws == z[..c] + [StrV("NULL")] + z[c + 1..];
    Around(z[..c], [NullV(Varchar)], [StrV("NULL")], z[c + 1..]);
    assert vs[c] != ws[c];
  }

  // An empty string, the columns between and m again: as m stands for the text between, the empty string
  // and m can trade places.
  lemma EndsTrade(mid: seq<Value>) returns (m: string)
    ensures m != "" && KeyText([StrV("")] + mid + [StrV(m)]) == KeyText([StrV(m)] + mid + [StrV("")])
  {
    var e := StrV("");
    var left, right := [e] + mid, mid + [e];
    m := KeyText(left) + "|";
    KeyTextMore(left, StrV(m));
    KeyTextMore(left, e);
    KeyTextFirst(StrV(m), right);
    KeyTextFirst(e, right);
    assert left + [e] == [e] + right && [StrV(m)] + right == [StrV(m)] + mid + [e];
    Trade(KeyText(left), KeyText(right), m);
  }

  lemma KeyTextFirst(v: Value, vs: seq<Value>)
    requires vs != []
    ensures KeyText([v] + vs) == Text(v) + "|" + KeyText(vs)
  {
    KeyTextSplit([v], vs);
  }

  lemma Trade(l: string, r: string, m: string)
    requires m == l + "|" && l + "|" + "" == "" + "|" + r
    ensures l + "|" + m == m + "|" + r
  {
    assert l + "|" + "" == l + "|" && "" + "|" + r == "|" + r;
    assert l + "|" + m == m + m && m + "|" + r == m + ("|" + r);
  }

  lemma SetBetween(z: seq<Value>, c: nat, d: nat, x: Value, y: Value)
    requires c < d < |z|
    ensures z[c := x][d := y] == z[..c] + ([x] + z[c + 1..d] + [y]) + z[d + 1..]
    ensures z[c := x][d := y][c] == x
  {
  }

  lemma FitsSet(vs: seq<Value>, s: Schema, c: nat, x: Value)
    requires RowFits(vs, s) && c < |s| && Fits(x, s[c])
    ensures RowFits(vs[c := x], s)
  {
  }

  lemma StringsMerge(s: Schema, c: nat, d: nat) returns (vs: seq<Value>, ws: seq<Value>)
    requires c < d < |s| && s[c].ty == s[d].ty == Varchar
    ensures RowFits(vs, s) && RowFits(ws, s) && KeyText(vs) == KeyText(ws) && vs != ws
  {
    var z := Zeros(s);
    var mid := z[c + 1..d];
    var m := EndsTrade(mid);
    var e, f := StrV(""), StrV(m);
    vs, ws := z[c := e][d := f], z[c := f][d := e];
    FitsSet(z, s, c, e);
    FitsSet(z[c := e], s, d, f);
    FitsSet(z, s, c, f);
    FitsSet(z[c := f], s, d, e);
    SetBetween(z, c, d, e, f);
    SetBetween(z, c, d, f, e);
    Around(z[..c], [e] + mid + [f], [f] + mid + [e], z[d + 1..]);
    assert e != f;
  }

  /** The joined text tells apart all keys of the given column types. */
  ghost predicate TextsTell(s: Schema) {
    forall vs, ws :: RowFits(vs, s) && RowFits(ws, s) && KeyText(vs) == KeyText(ws) ==> vs == ws
  }

  /** It does so exactly when at most one column is a string and that column is never null. */
  lemma TextsTellIff(s: Schema)
    ensures TextsTell(s) <==> Separable(s)
  {
    if Separable(s) {
      forall vs, ws | RowFits(vs, s) && RowFits(ws, s) && KeyText(vs) == KeyText(ws) ensures vs == ws { KeysApart(vs, ws, s); }
    } else if c :| 0 <= c < |s| && s[c].ty == Varchar && !s[c].nonNull {
      var vs, ws := NullMerges(s, c);
    } else {
      var c, d :| 0 <= c < d < |s| && s[c].ty == s[d].ty == Varchar;
      var vs, ws := StringsMerge(s, c, d);
    }
  }
}
