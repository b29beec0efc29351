/** The aggregation executor: grouping by key text, running updates, and the output rows. */
module Aggregation {
  import opened Wrappers
  import opened Values
  import opened Expressions
  import opened Bags
  import opened Pulls
  import opened Aggregates

  // ---------- Groups ----------

  /** The values of the GROUP BY expressions, or None if one raises an error. */
  function KeyVals(keys: seq<Expr>, row: Row): Option<seq<Value>> {
    if keys == [] then Some([])
    else
      var n := |keys| - 1;
      match (KeyVals(keys[..n], row), Eval(keys[n], One(row)))
      case (Some(vs), Some(v)) => Some(vs + [v])
      case _ => None
  }

  function KeyString(keys: seq<Expr>, row: Row): Option<string> {
    match KeyVals(keys, row) case None => None case Some(vs) => Some(KeyText(vs))
  }

  function TextIs(keys: seq<Expr>, text: string): Row -> bool {
    row => KeyString(keys, row) == Some(text)
  }

  /** The rows of a group, in the order they came. */
  function GroupRows(keys: seq<Expr>, rows: seq<Row>, text: string): seq<Row> {
    Filter(rows, TextIs(keys, text))
  }

  predicate KeyOK(keys: seq<Expr>, row: Row) {
    KeyVals(keys, row).Some?
  }

  predicate KeysOK(keys: seq<Expr>, rows: seq<Row>, n: nat)
    requires n <= |rows|
  {
    forall i {:trigger KeyOK(keys, rows[i])} :: 0 <= i < n ==> KeyOK(keys, rows[i])
  }

  predicate AggOK(a: Agg, rows: seq<Row>) {
    Fold(a, rows).Some?
  }

  /** The output row of a group: its first row's key values, then its aggregates. */
  ghost predicate IsGroupRow(keys: seq<Expr>, aggs: seq<Agg>, group: seq<Row>, vals: seq<Value>, accs: seq<Value>) {
    && group != [] && KeyVals(keys, group[0]) == Some(vals) && |accs| == |aggs|
    && forall i :: 0 <= i < |aggs| ==> Fold(aggs[i], group) == Some(accs[i])
  }

  function InitialRow(aggs: seq<Agg>): (r: Row)
    ensures |r| == |aggs| && forall i :: 0 <= i < |aggs| ==> r[i] == Initial(aggs[i])
  {
    seq(|aggs|, i requires 0 <= i < |aggs| => Initial(aggs[i]))
  }

  ghost predicate OutputRow(keys: seq<Expr>, aggs: seq<Agg>, group: seq<Row>, r: Row) {
    |r| == |keys| + |aggs| && IsGroupRow(keys, aggs, group, r[..|keys|], r[|keys|..])
  }

  /** One row for each key text that occurs, in any order. */
  ghost predicate OnePerText(keys: seq<Expr>, aggs: seq<Agg>, rows: seq<Row>, out: seq<Row>, texts: seq<string>) {
    && Distinct(texts) && |out| == |texts|
    && (forall text {:trigger GroupRows(keys, rows, text)} :: text in texts <==> GroupRows(keys, rows, text) != [])
    && (forall i {:trigger texts[i]} :: 0 <= i < |texts| ==> OutputRow(keys, aggs, GroupRows(keys, rows, texts[i]), out[i]))
  }

  /** The rows the executor returns, in some order of the groups: one for each group, and for an empty input
      one row of initial values if there is no GROUP BY. */
  ghost predicate IsOutput(keys: seq<Expr>, aggs: seq<Agg>, rows: seq<Row>, out: seq<Row>) {
    && KeysOK(keys, rows, |rows|)
    && if rows == [] then out == (if keys == [] then [InitialRow(aggs)] else [])
       else exists texts :: OnePerText(keys, aggs, rows, out, texts)
  }

  /** Some evaluation or some update raises an error. */
  ghost predicate Fails(keys: seq<Expr>, aggs: seq<Agg>, rows: seq<Row>) {
    || !KeysOK(keys, rows, |rows|)
    || exists text, i :: 0 <= i < |aggs| && !AggOK(aggs[i], GroupRows(keys, rows, text))
  }

  /** What an aggregation of this child can come to: the child is run through when it starts. */
  ghost predicate GroupsOutcome(keys: seq<Expr>, aggs: seq<Agg>, c: Outcome<Row>, o: Outcome<Row>) {
    if !c.Ok() || Fails(keys, aggs, c.rows) then o == NoStart else o.Ok() && IsOutput(keys, aggs, c.rows, o.rows)
  }

  // ---------- The executor ----------

  datatype Group = Group(vals: seq<Value>, accs: seq<Value>)

  ghost predicate GroupIs(groups: map<string, Group>, keys: seq<Expr>, aggs: seq<Agg>, rows: seq<Row>, text: string) {
    var group := GroupRows(keys, rows, text);
    && (text in groups <==> group != [])
    && (text in groups ==> IsGroupRow(keys, aggs, group, groups[text].vals, groups[text].accs))
  }

  ghost predicate AreGroups(groups: map<string, Group>, keys: seq<Expr>, aggs: seq<Agg>, rows: seq<Row>) {
    forall text {:trigger GroupIs(groups, keys, aggs, rows, text)} :: GroupIs(groups, keys, aggs, rows, text)
  }

  class Aggregation {
    const child: Child
    const keys: seq<Expr>
    const aggs: seq<Agg>
    var groups: map<string, Group>
    var results: seq<Row>
    var cursor: nat

    constructor (child: Child, keys: seq<Expr>, aggs: seq<Agg>)
      ensures this.child == child && this.keys == keys && this.aggs == aggs
    {
      this.child, this.keys, this.aggs := child, keys, aggs;
      groups, results, cursor := map[], [], 0;
    }

    method Init() returns (ok: bool)
      modifies this, child
      ensures cursor == 0
      ensures GroupsOutcome(keys, aggs, child.out, if ok then Gave(results, true) else NoStart)
    {
      groups, results, cursor := map[], [], 0;
      ok := child.Init();
      if !ok { return; }
      ok := FormGroups();
      if ok { Materialize(); }
    }

    // The loop over the child's rows.
    method FormGroups() returns (ok: bool)
      requires child.Valid() && child.cursor == 0 && groups == map[] && results == []
      modifies this`groups, child
      ensures ok == (child.out.ok && !Fails(keys, aggs, child.out.rows))
      ensures ok ==> AreGroups(groups, keys, aggs, child.out.rows) && KeysOK(keys, child.out.rows, |child.out.rows|)
    {
      ghost var rows := child.out.rows;
      assert AreGroups(groups, keys, aggs, rows[..0]) by {
        forall text ensures GroupIs(groups, keys, aggs, rows[..0], text) {}
      }
      while true
        invariant child.Valid() && KeysOK(keys, rows, child.cursor)
        invariant AreGroups(groups, keys, aggs, rows[..child.cursor])
        decreases |rows| - child.cursor
      {
        ghost var n := child.cursor;
        var r := child.Next();
        if !r.Got? {
          assert rows[..n] == rows;
          GroupsHold(groups, keys, aggs, rows);
          return r.End?;
        }
        var key := FindKey(r.row);
        assert KeyOK(keys, rows[n]) <==> key.Some?;
        if key == None { return false; }
        ok := AddRow(key.value.0, key.value.1, n);
        if !ok { return false; }
      }
    }

    // The GROUP BY values of a row and their text, built column by column.
    method FindKey(row: Row) returns (key: Option<(seq<Value>, string)>)
      ensures key == match KeyVals(keys, row) case None => None case Some(vs) => Some((vs, KeyText(vs)))
    {
      var vals, text := [], "";
      for i := 0 to |keys|
        invariant KeyVals(keys[..i], row) == Some(vals) && |vals| == i && text == KeyText(vals)
      {
        assert keys[..i + 1][..i] == keys[..i];
        var v := Eval(keys[i], One(row));
        if v == None {
          KeyStuck(keys, row, i);
          return None;
        }
        assert (vals + [v.value])[..i] == vals;
        if i > 0 { text := text + "|"; }
        text := text + Text(v.value);
        vals := vals + [v.value];
      }
      assert keys[..|keys|] == keys;
      key := Some((vals, text));
    }

    // Finds or starts the row's group and updates its aggregates.
    method AddRow(vals: seq<Value>, text: string, ghost n: nat) returns (ok: bool)
      requires child.out.Gave? && n < |child.out.rows| && child.cursor == n + 1
      requires KeyVals(keys, child.out.rows[n]) == Some(vals) && text == KeyText(vals)
      requires AreGroups(groups, keys, aggs, child.out.rows[..n])
      modifies this`groups
      ensures ok ==> AreGroups(groups, keys, aggs, child.out.rows[..n + 1])
      ensures !ok ==> Fails(keys, aggs, child.out.rows)
    {
      var row := child.out.rows[child.cursor - 1];
      ghost var group := GroupRows(keys, child.out.rows[..n], text);
      assert GroupIs(groups, keys, aggs, child.out.rows[..n], text);
      var g := if text in groups then groups[text] else Group(vals, InitialRow(aggs));
      var accs := g.accs;
      for i := 0 to |aggs|
        invariant |accs| == |aggs|
        invariant forall k :: 0 <= k < i ==> Fold(aggs[k], group + [row]) == Some(accs[k])
        invariant forall k :: i <= k < |aggs| ==> Fold(aggs[k], group) == Some(accs[k])
      {
        assert (group + [row])[..|group|] == group;
        var acc := UpdateRow(aggs[i], accs[i], row);
        if acc == None {
          UpdateFails(keys, aggs, child.out.rows, n, text, i);
          return false;
        }
        accs := accs[i := acc.value];
      }
      ghost var before := groups;
      groups := groups[text := Group(g.vals, accs)];
      GroupsGrow(before, keys, aggs, child.out.rows, n, text, Group(g.vals, accs));
      ok := true;
    }

    // The output rows, group by group in whatever order the table yields them.
    method Materialize()
      requires child.out.Gave? && AreGroups(groups, keys, aggs, child.out.rows)
      requires KeysOK(keys, child.out.rows, |child.out.rows|) && results == []
      modifies this`results
      ensures IsOutput(keys, aggs, child.out.rows, results)
    {
      if groups == map[] {
        if child.out.rows != [] { SomeGroup(groups, keys, aggs, child.out.rows); }
        if keys == [] { results := [InitialRow(aggs)]; }
        return;
      }
      var rest := groups.Keys;
      ghost var texts := [];
      while rest != {}
        invariant rest <= groups.Keys && |results| == |texts| && Distinct(texts)
        invariant forall text :: text in groups <==> text in texts || text in rest
        invariant forall text :: !(text in texts && text in rest)
        invariant forall i {:trigger texts[i]} :: 0 <= i < |texts| ==> texts[i] in groups && results[i] == groups[texts[i]].vals + groups[texts[i]].accs
      {
        var text :| text in rest;
        results := results + [groups[text].vals + groups[text].accs];
        texts := texts + [text];
        rest := rest - {text};
      }
      GroupsOut(groups, keys, aggs, child.out.rows, results, texts);
    }

    method Next() returns (r: Pulled<Row>)
      requires cursor <= |results|
      modifies this`cursor
      ensures cursor <= |results|
      ensures r == if old(cursor) == |results| then End else Got(results[old(cursor)])
      ensures cursor == if r.End? then old(cursor) else old(cursor) + 1
    {
      if cursor >= |results| { return End; }
      r := Got(results[cursor]);
      cursor := cursor + 1;
    }
  }

  // ---------- Steps of the grouping loop ----------

  lemma {:induction false} KeyStuck(keys: seq<Expr>, row: Row, i: nat)
    requires i < |keys| && Eval(keys[i], One(row)) == None
    ensures KeyVals(keys, row) == None
    decreases |keys|
  {
    var n := |keys| - 1;
    if i < n { KeyStuck(keys[..n], row, i); }
  }

  lemma {:induction false} KeyWidth(keys: seq<Expr>, row: Row)
    ensures KeyVals(keys, row).Some? ==> |KeyVals(keys, row).value| == |keys|
  {
    if keys != [] { KeyWidth(keys[..|keys| - 1], row); }
  }

  lemma {:induction false} FoldStuck(a: Agg, xs: seq<Row>, ys: seq<Row>)
    requires Fold(a, xs) == None
    ensures Fold(a, xs + ys) == None
  {
    if ys == [] {
      assert xs + ys == xs;
    } else {
      var n := |ys| - 1;
      assert (xs + ys)[..|xs| + n] == xs + ys[..n];
      FoldStuck(a, xs, ys[..n]);
    }
  }

  // The groups after one more row.
  lemma GroupMore(keys: seq<Expr>, rows: seq<Row>, n: nat, text: string)
    requires n < |rows|
    ensures GroupRows(keys, rows[..n + 1], text)
         == GroupRows(keys, rows[..n], text) + if TextIs(keys, text)(rows[n]) then [rows[n]] else []
  {
    assert rows[..n + 1] == rows[..n] + [rows[n]];
    FilterSplit(rows[..n], [rows[n]], TextIs(keys, text));
  }

  lemma UpdateFails(keys: seq<Expr>, aggs: seq<Agg>, rows: seq<Row>, n: nat, text: string, i: nat)
    requires n < |rows| && i < |aggs| && TextIs(keys, text)(rows[n])
    requires Fold(aggs[i], GroupRows(keys, rows[..n], text) + [rows[n]]) == None
    ensures Fails(keys, aggs, rows)
  {
    GroupMore(keys, rows, n, text);
    assert rows == rows[..n + 1] + rows[n + 1..];
    FilterSplit(rows[..n + 1], rows[n + 1..], TextIs(keys, text));
    FoldStuck(aggs[i], GroupRows(keys, rows[..n + 1], text), GroupRows(keys, rows[n + 1..], text));
    assert !AggOK(aggs[i], GroupRows(keys, rows, text));
  }

  lemma GroupsGrow(groups: map<string, Group>, keys: seq<Expr>, aggs: seq<Agg>, rows: seq<Row>, n: nat, text: string, g: Group)
    requires n < |rows| && AreGroups(groups, keys, aggs, rows[..n]) && KeyString(keys, rows[n]) == Some(text)
    requires |g.accs| == |aggs|
    requires forall i :: 0 <= i < |aggs| ==> Fold(aggs[i], GroupRows(keys, rows[..n], text) + [rows[n]]) == Some(g.accs[i])
    requires Some(g.vals) == if text in groups then Some(groups[text].vals) else KeyVals(keys, rows[n])
    ensures AreGroups(groups[text := g], keys, aggs, rows[..n + 1])
  {
    var next, more := groups[text := g], rows[..n + 1];
    forall t ensures GroupIs(next, keys, aggs, more, t) {
      GroupMore(keys, rows, n, t);
      assert GroupIs(groups, keys, aggs, rows[..n], t);
      if t == text {
        GrownGroup(keys, aggs, GroupRows(keys, rows[..n], text), rows[n], g);
      } else {
        assert GroupRows(keys, more, t) == GroupRows(keys, rows[..n], t);
      }
    }
  }

  // A group with one more row.
  lemma GrownGroup(keys: seq<Expr>, aggs: seq<Agg>, group: seq<Row>, row: Row, g: Group)
    requires KeyVals(keys, if group == [] then row else group[0]) == Some(g.vals) && |g.accs| == |aggs|
    requires forall i :: 0 <= i < |aggs| ==> Fold(aggs[i], group + [row]) == Some(g.accs[i])
    ensures IsGroupRow(keys, aggs, group + [row], g.vals, g.accs)
  {
  }

  lemma InGroup(keys: seq<Expr>, rows: seq<Row>, i: nat, text: string)
    requires i < |rows| && KeyString(keys, rows[i]) == Some(text)
    ensures GroupRows(keys, rows, text) != []
  {
    FilterCount(rows, TextIs(keys, text), rows[i]);
    assert rows[i] in multiset(rows);
  }

  lemma SomeGroup(groups: map<string, Group>, keys: seq<Expr>, aggs: seq<Agg>, rows: seq<Row>)
    requires AreGroups(groups, keys, aggs, rows) && KeysOK(keys, rows, |rows|) && rows != []
    ensures groups != map[]
  {
    assert KeyOK(keys, rows[0]);
    var text := KeyString(keys, rows[0]).value;
    InGroup(keys, rows, 0, text);
    assert GroupIs(groups, keys, aggs, rows, text);
  }

  lemma GroupsHold(groups: map<string, Group>, keys: seq<Expr>, aggs: seq<Agg>, rows: seq<Row>)
    requires AreGroups(groups, keys, aggs, rows) && KeysOK(keys, rows, |rows|)
    ensures !Fails(keys, aggs, rows)
  {
    forall text, i | 0 <= i < |aggs| ensures AggOK(aggs[i], GroupRows(keys, rows, text)) {
      assert GroupIs(groups, keys, aggs, rows, text);
    }
  }

  lemma GroupsOut(groups: map<string, Group>, keys: seq<Expr>, aggs: seq<Agg>, rows: seq<Row>, out: seq<Row>, texts: seq<string>)
    requires AreGroups(groups, keys, aggs, rows) && KeysOK(keys, rows, |rows|) && groups != map[]
    requires Distinct(texts) && |out| == |texts| && forall text :: text in groups <==> text in texts
    requires forall i {:trigger texts[i]} :: 0 <= i < |texts| ==> texts[i] in groups && out[i] == groups[texts[i]].vals + groups[texts[i]].accs
    ensures IsOutput(keys, aggs, rows, out)
  {
    forall text ensures text in texts <==> GroupRows(keys, rows, text) != [] { assert GroupIs(groups, keys, aggs, rows, text); }
    forall i | 0 <= i < |texts| ensures OutputRow(keys, aggs, GroupRows(keys, rows, texts[i]), out[i]) {
      var group, g := GroupRows(keys, rows, texts[i]), groups[texts[i]];
      assert GroupIs(groups, keys, aggs, rows, texts[i]);
      KeyWidth(keys, group[0]);
      assert out[i][..|keys|] == g.vals && out[i][|keys|..] == g.accs;
    }
    assert OnePerText(keys, aggs, rows, out, texts);
    var text :| text in groups;
    assert GroupIs(groups, keys, aggs, rows, text);
  }

  // ---------- There is an output exactly when nothing fails ----------

  // The key texts of some rows, each once.
  function TextsOf(keys: seq<Expr>, rows: seq<Row>): seq<string> {
    if rows == [] then []
    else
      var n := |rows| - 1;
      var before, text := TextsOf(keys, rows[..n]), KeyString(keys, rows[n]);
      if text == None || text.value in before then before else before + [text.value]
  }

  lemma {:induction false} TextsCover(keys: seq<Expr>, rows: seq<Row>, text: string)
    ensures Distinct(TextsOf(keys, rows)) && (text in TextsOf(keys, rows) <==> GroupRows(keys, rows, text) != [])
    decreases |rows|
  {
    if rows != [] {
      var n := |rows| - 1;
      TextsCover(keys, rows[..n], text);
      GroupMore(keys, rows, n, text);
      assert rows[..n + 1] == rows;
    }
  }

  function Folds(aggs: seq<Agg>, group: seq<Row>): (accs: seq<Value>)
    requires forall i :: 0 <= i < |aggs| ==> AggOK(aggs[i], group)
    ensures |accs| == |aggs| && forall i :: 0 <= i < |aggs| ==> Fold(aggs[i], group) == Some(accs[i])
  {
    if aggs == [] then []
    else
      var n := |aggs| - 1;
      assert AggOK(aggs[n], group);
      assert forall i :: 0 <= i < n ==> AggOK(aggs[i], group);
      Folds(aggs[..n], group) + [Fold(aggs[n], group).value]
  }

  function RowFor(keys: seq<Expr>, aggs: seq<Agg>, group: seq<Row>): (r: Row)
    requires group != [] && KeyOK(keys, group[0]) && forall i :: 0 <= i < |aggs| ==> AggOK(aggs[i], group)
    ensures OutputRow(keys, aggs, group, r)
  {
    KeyWidth(keys, group[0]);
    var vals, accs := KeyVals(keys, group[0]).value, Folds(aggs, group);
    assert (vals + accs)[..|keys|] == vals && (vals + accs)[|keys|..] == accs;
    vals + accs
  }

  lemma OutputExists(keys: seq<Expr>, aggs: seq<Agg>, rows: seq<Row>) returns (out: seq<Row>)
    requires !Fails(keys, aggs, rows)
    ensures IsOutput(keys, aggs, rows, out)
  {
    if rows == [] { return if keys == [] then [InitialRow(aggs)] else []; }
    var texts := TextsOf(keys, rows);
    TextsCover(keys, rows, "");
    forall text ensures text in texts <==> GroupRows(keys, rows, text) != [] { TextsCover(keys, rows, text); }
    forall i | 0 <= i < |texts|
      ensures var group := GroupRows(keys, rows, texts[i]);
        group != [] && KeyOK(keys, group[0]) && forall k :: 0 <= k < |aggs| ==> AggOK(aggs[k], group)
    {
      var group := GroupRows(keys, rows, texts[i]);
      assert texts[i] in texts && group[0] in group;
    }
    out := seq(|texts|, i requires 0 <= i < |texts| => RowFor(keys, aggs, GroupRows(keys, rows, texts[i])));
    assert OnePerText(keys, aggs, rows, out, texts);
  }

  lemma OutputMeansNoFail(keys: seq<Expr>, aggs: seq<Agg>, rows: seq<Row>, out: seq<Row>)
    requires IsOutput(keys, aggs, rows, out)
    ensures !Fails(keys, aggs, rows)
  {
    if rows != [] {
      var texts :| OnePerText(keys, aggs, rows, out, texts);
      forall text, k | 0 <= k < |aggs| ensures AggOK(aggs[k], GroupRows(keys, rows, text)) {
        var group := GroupRows(keys, rows, text);
        if group != [] {
          var i :| 0 <= i < |texts| && texts[i] == text;
          assert OutputRow(keys, aggs, group, out[i]);
        }
      }
    }
  }
}
