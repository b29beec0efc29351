/** What the aggregation executor's output means: one row for each key, whatever the order of the input. */
module GroupBy {
  import opened Wrappers
  import opened Values
  import opened Expressions
  import opened Bags
  import opened Aggregates
  import opened Aggregation

  function KeyIs(keys: seq<Expr>, vals: seq<Value>): Row -> bool {
    row => KeyVals(keys, row) == Some(vals)
  }

  /** The rows with given values of the GROUP BY expressions. */
  function KeyRows(keys: seq<Expr>, rows: seq<Row>, vals: seq<Value>): seq<Row> {
    Filter(rows, KeyIs(keys, vals))
  }

  predicate ToldApart(keys: seq<Expr>, row: Row, row': Row) {
    KeyString(keys, row) == KeyString(keys, row') ==> KeyVals(keys, row) == KeyVals(keys, row')
  }

  /** Rows with the same key text have the same key. */
  predicate TellsApart(keys: seq<Expr>, rows: seq<Row>) {
    forall i, j {:trigger rows[i], rows[j]} :: 0 <= i < |rows| && 0 <= j < |rows| ==> ToldApart(keys, rows[i], rows[j])
  }

  predicate ArgOK(a: Agg, t: Type, rows: seq<Row>) {
    Typed(a, t) && AllOf(Map(rows, Arg(a, t)), t)
  }

  predicate ArgsOK(aggs: seq<Agg>, ts: seq<Type>, rows: seq<Row>) {
    |ts| == |aggs| && forall i {:trigger ArgOK(aggs[i], ts[i], rows)} :: 0 <= i < |aggs| ==> ArgOK(aggs[i], ts[i], rows)
  }

  // No row has the text of these key values and others itself.
  predicate NoOther(keys: seq<Expr>, rows: seq<Row>, vals: seq<Value>) {
    forall i {:trigger rows[i]} :: 0 <= i < |rows| && KeyString(keys, rows[i]) == Some(KeyText(vals)) ==> KeyVals(keys, rows[i]) == Some(vals)
  }

  /** A group by key text is the group by key values exactly when no other key among the rows has that text. */
  lemma TextGroup(keys: seq<Expr>, rows: seq<Row>, vals: seq<Value>)
    ensures GroupRows(keys, rows, KeyText(vals)) == KeyRows(keys, rows, vals) <==> NoOther(keys, rows, vals)
  {
    if NoOther(keys, rows, vals) {
      forall row | row in rows ensures TextIs(keys, KeyText(vals))(row) == KeyIs(keys, vals)(row) {
        var i :| 0 <= i < |rows| && rows[i] == row;
      }
      FilterSame(rows, TextIs(keys, KeyText(vals)), KeyIs(keys, vals));
    } else {
      var i :| 0 <= i < |rows| && KeyString(keys, rows[i]) == Some(KeyText(vals)) && KeyVals(keys, rows[i]) != Some(vals);
      FilterCount(rows, TextIs(keys, KeyText(vals)), rows[i]);
      FilterCount(rows, KeyIs(keys, vals), rows[i]);
      assert rows[i] in multiset(rows);
    }
  }

  /** The aggregates of an output row, over all input rows with its key. */
  ghost predicate RowMeans(keys: seq<Expr>, aggs: seq<Agg>, ts: seq<Type>, rows: seq<Row>, r: Row)
    requires |r| == |keys| + |aggs| && |ts| == |aggs|
  {
    forall i {:trigger aggs[i]} :: 0 <= i < |aggs| ==>
      Means(aggs[i], Map(KeyRows(keys, rows, r[..|keys|]), Arg(aggs[i], ts[i])), r[|keys| + i])
  }

  lemma SubsetOf(rows: seq<Row>, p: Row -> bool, a: Agg, t: Type)
    requires ArgOK(a, t, rows)
    ensures ArgOK(a, t, Filter(rows, p))
  {
    var some := Filter(rows, p);
    forall i | 0 <= i < |some| ensures TypeIn(Map(some, Arg(a, t))[i]) == t {
      assert some[i] in rows;
      var j :| 0 <= j < |rows| && rows[j] == some[i];
      assert TypeIn(Map(rows, Arg(a, t))[j]) == t;
    }
  }

  // The key columns of an output row.
  function KeyPart(r: Row, n: nat): Row {
    if n <= |r| then r[..n] else r
  }

  predicate HasInput(keys: seq<Expr>, rows: seq<Row>, vals: seq<Value>) {
    exists j :: 0 <= j < |rows| && KeyVals(keys, rows[j]) == Some(vals)
  }

  /** An output row: its key is that of some input row, its aggregates are over all rows with that key. */
  ghost predicate GoodRow(keys: seq<Expr>, aggs: seq<Agg>, ts: seq<Type>, rows: seq<Row>, r: Row)
    requires |ts| == |aggs|
  {
    |r| == |keys| + |aggs| && HasInput(keys, rows, r[..|keys|]) && RowMeans(keys, aggs, ts, rows, r)
  }

  ghost predicate AllGood(keys: seq<Expr>, aggs: seq<Agg>, ts: seq<Type>, rows: seq<Row>, out: seq<Row>)
    requires |ts| == |aggs|
  {
    forall i {:trigger out[i]} :: 0 <= i < |out| ==> GoodRow(keys, aggs, ts, rows, out[i])
  }

  predicate KeysDiffer(keys: seq<Expr>, out: seq<Row>) {
    forall i, j {:trigger out[i], out[j]} :: 0 <= i < j < |out| ==> KeyPart(out[i], |keys|) != KeyPart(out[j], |keys|)
  }

  predicate KeyAppears(keys: seq<Expr>, row: Row, out: seq<Row>) {
    exists i {:trigger out[i]} :: 0 <= i < |out| && KeyVals(keys, row) == Some(KeyPart(out[i], |keys|))
  }

  predicate KeysAppear(keys: seq<Expr>, rows: seq<Row>, out: seq<Row>) {
    forall j {:trigger rows[j]} :: 0 <= j < |rows| ==> KeyAppears(keys, rows[j], out)
  }

  // The key of an output row.
  lemma RowKey(keys: seq<Expr>, aggs: seq<Agg>, rows: seq<Row>, text: string, r: Row)
    requires OutputRow(keys, aggs, GroupRows(keys, rows, text), r)
    ensures KeyText(r[..|keys|]) == text && HasInput(keys, rows, r[..|keys|])
  {
    var group := GroupRows(keys, rows, text);
    assert group[0] in group;
    var j :| 0 <= j < |rows| && rows[j] == group[0];
  }

  // One output row, said by key values.
  lemma RowByKey(keys: seq<Expr>, aggs: seq<Agg>, ts: seq<Type>, rows: seq<Row>, text: string, r: Row)
    requires TellsApart(keys, rows) && ArgsOK(aggs, ts, rows) && OutputRow(keys, aggs, GroupRows(keys, rows, text), r)
    ensures GoodRow(keys, aggs, ts, rows, r)
  {
    var vals := r[..|keys|];
    RowKey(keys, aggs, rows, text, r);
    var j :| 0 <= j < |rows| && KeyVals(keys, rows[j]) == Some(vals);
    forall i {:trigger rows[i]} | 0 <= i < |rows| && KeyString(keys, rows[i]) == Some(KeyText(vals))
      ensures KeyVals(keys, rows[i]) == Some(vals)
    {
      assert ToldApart(keys, rows[i], rows[j]);
    }
    TextGroup(keys, rows, vals);
    forall i {:trigger aggs[i]} | 0 <= i < |aggs|
      ensures Means(aggs[i], Map(KeyRows(keys, rows, vals), Arg(aggs[i], ts[i])), r[|keys| + i])
    {
      AggByKey(keys, aggs, ts, rows, text, r, i);
    }
  }

  lemma AggByKey(keys: seq<Expr>, aggs: seq<Agg>, ts: seq<Type>, rows: seq<Row>, text: string, r: Row, i: nat)
    requires ArgsOK(aggs, ts, rows) && OutputRow(keys, aggs, GroupRows(keys, rows, text), r) && i < |aggs|
    ensures Means(aggs[i], Map(GroupRows(keys, rows, text), Arg(aggs[i], ts[i])), r[|keys| + i])
  {
    assert ArgOK(aggs[i], ts[i], rows);
    SubsetOf(rows, TextIs(keys, text), aggs[i], ts[i]);
    FoldMeans(aggs[i], GroupRows(keys, rows, text), ts[i]);
    assert r[|keys|..][i] == r[|keys| + i];
  }

  /** The output of a GROUP BY: its rows have different keys. The key of every input row has an output row
      exactly when the texts tell the keys of the input apart; then every output row has the key of some input
      row, and its aggregates are those of all rows with that key. */
  lemma OneRowPerKey(keys: seq<Expr>, aggs: seq<Agg>, ts: seq<Type>, rows: seq<Row>, out: seq<Row>)
    requires ArgsOK(aggs, ts, rows) && rows != [] && IsOutput(keys, aggs, rows, out)
    ensures KeysDiffer(keys, out)
    ensures KeysAppear(keys, rows, out) <==> TellsApart(keys, rows)
    ensures TellsApart(keys, rows) ==> AllGood(keys, aggs, ts, rows, out)
  {
    var texts :| OnePerText(keys, aggs, rows, out, texts);
    OutputKeys(keys, aggs, rows, out, texts);
    if TellsApart(keys, rows) {
      KeysCovered(keys, aggs, rows, out, texts);
      forall i {:trigger out[i]} | 0 <= i < |out| ensures GoodRow(keys, aggs, ts, rows, out[i]) {
        RowByKey(keys, aggs, ts, rows, texts[i], out[i]);
      }
    } else if KeysAppear(keys, rows, out) {
      var i, j :| 0 <= i < |rows| && 0 <= j < |rows| && !ToldApart(keys, rows[i], rows[j]);
      AppearApart(keys, aggs, rows, out, texts, i, j);
    }
  }

  lemma OutputKeys(keys: seq<Expr>, aggs: seq<Agg>, rows: seq<Row>, out: seq<Row>, texts: seq<string>)
    requires OnePerText(keys, aggs, rows, out, texts)
    ensures forall i {:trigger out[i]} :: 0 <= i < |out| ==> KeyText(KeyPart(out[i], |keys|)) == texts[i]
    ensures KeysDiffer(keys, out)
  {
    forall i {:trigger out[i]} | 0 <= i < |out| ensures KeyText(KeyPart(out[i], |keys|)) == texts[i] {
      RowKey(keys, aggs, rows, texts[i], out[i]);
    }
  }

  lemma KeysCovered(keys: seq<Expr>, aggs: seq<Agg>, rows: seq<Row>, out: seq<Row>, texts: seq<string>)
    requires TellsApart(keys, rows) && KeysOK(keys, rows, |rows|) && OnePerText(keys, aggs, rows, out, texts)
    ensures KeysAppear(keys, rows, out)
  {
    forall j {:trigger rows[j]} | 0 <= j < |rows| ensures KeyAppears(keys, rows[j], out) {
      var i := KeyHasRow(keys, aggs, rows, out, texts, j);
    }
  }

  lemma KeyHasRow(keys: seq<Expr>, aggs: seq<Agg>, rows: seq<Row>, out: seq<Row>, texts: seq<string>, j: nat) returns (i: nat)
    requires TellsApart(keys, rows) && KeysOK(keys, rows, |rows|) && OnePerText(keys, aggs, rows, out, texts) && j < |rows|
    ensures i < |out| && KeyVals(keys, rows[j]) == Some(KeyPart(out[i], |keys|))
  {
    assert KeyOK(keys, rows[j]);
    var text := KeyString(keys, rows[j]).value;
    InGroup(keys, rows, j, text);
    assert GroupRows(keys, rows, text) != [];
    i :| 0 <= i < |texts| && texts[i] == text;
    assert OutputRow(keys, aggs, GroupRows(keys, rows, texts[i]), out[i]);
    RowKey(keys, aggs, rows, texts[i], out[i]);
    var k :| 0 <= k < |rows| && KeyVals(keys, rows[k]) == Some(out[i][..|keys|]);
    assert ToldApart(keys, rows[j], rows[k]);
  }

  // Two keys of one text share an output row, which shows one of them only.
  lemma AppearApart(keys: seq<Expr>, aggs: seq<Agg>, rows: seq<Row>, out: seq<Row>, texts: seq<string>, i: nat, j: nat)
    requires OnePerText(keys, aggs, rows, out, texts) && KeysAppear(keys, rows, out) && i < |rows| && j < |rows|
    ensures ToldApart(keys, rows[i], rows[j])
  {
    OutputKeys(keys, aggs, rows, out, texts);
    assert KeyAppears(keys, rows[i], out) && KeyAppears(keys, rows[j], out);
    var a :| 0 <= a < |out| && KeyVals(keys, rows[i]) == Some(KeyPart(out[a], |keys|));
    var b :| 0 <= b < |out| && KeyVals(keys, rows[j]) == Some(KeyPart(out[b], |keys|));
    assert texts[a] == texts[b] ==> a == b;
  }

  // ---------- Group sizes ----------

  function Sizes(keys: seq<Expr>, rows: seq<Row>, texts: seq<string>): nat {
    if texts == [] then 0 else |GroupRows(keys, rows, texts[0])| + Sizes(keys, rows, texts[1..])
  }

  lemma {:induction false} SizesMore(keys: seq<Expr>, rows: seq<Row>, row: Row, texts: seq<string>)
    requires Distinct(texts) && KeyString(keys, row).Some?
    ensures Sizes(keys, rows + [row], texts) == Sizes(keys, rows, texts) + if KeyString(keys, row).value in texts then 1 else 0
  {
    if texts != [] {
      SizesMore(keys, rows, row, texts[1..]);
      FilterSplit(rows, [row], TextIs(keys, texts[0]));
    }
  }

  lemma {:induction false} SizesTotal(keys: seq<Expr>, rows: seq<Row>, texts: seq<string>)
    requires Distinct(texts)
    requires forall i :: 0 <= i < |rows| ==> KeyString(keys, rows[i]).Some? && KeyString(keys, rows[i]).value in texts
    ensures Sizes(keys, rows, texts) == |rows|
  {
    if rows == [] {
      NoSizes(keys, texts);
    } else {
      var n := |rows| - 1;
      assert rows == rows[..n] + [rows[n]];
      SizesTotal(keys, rows[..n], texts);
      SizesMore(keys, rows[..n], rows[n], texts);
    }
  }

  lemma {:induction false} NoSizes(keys: seq<Expr>, texts: seq<string>)
    ensures Sizes(keys, [], texts) == 0
  {
    if texts != [] { NoSizes(keys, texts[1..]); }
  }

  /** The groups of an output share out the input rows: their sizes add up to the size of the input. */
  lemma GroupsShareRows(keys: seq<Expr>, aggs: seq<Agg>, rows: seq<Row>, out: seq<Row>, texts: seq<string>)
    requires KeysOK(keys, rows, |rows|) && OnePerText(keys, aggs, rows, out, texts)
    ensures Sizes(keys, rows, texts) == |rows|
  {
    forall i | 0 <= i < |rows| ensures KeyString(keys, rows[i]).Some? && KeyString(keys, rows[i]).value in texts {
      assert KeyOK(keys, rows[i]);
      InGroup(keys, rows, i, KeyString(keys, rows[i]).value);
      assert GroupRows(keys, rows, KeyString(keys, rows[i]).value) != [];
    }
    SizesTotal(keys, rows, texts);
  }

  // ---------- The order of the input does not matter ----------

  lemma SameKeys(keys: seq<Expr>, rows: seq<Row>, rows': seq<Row>)
    requires multiset(rows) == multiset(rows') && KeysOK(keys, rows, |rows|)
    ensures KeysOK(keys, rows', |rows'|)
  {
    SameMembers(rows, rows');
    forall i | 0 <= i < |rows'| ensures KeyOK(keys, rows'[i]) {
      assert rows'[i] in rows;
      var j :| 0 <= j < |rows| && rows[j] == rows'[i];
      assert KeyOK(keys, rows[j]);
    }
  }

  // A row is the output row of a group, whatever the order of the input.
  lemma GroupRowPermuted(keys: seq<Expr>, aggs: seq<Agg>, ts: seq<Type>, rows: seq<Row>, rows': seq<Row>, text: string, r: Row)
    requires multiset(rows) == multiset(rows') && TellsApart(keys, rows) && ArgsOK(aggs, ts, rows)
    requires OutputRow(keys, aggs, GroupRows(keys, rows, text), r)
    ensures OutputRow(keys, aggs, GroupRows(keys, rows', text), r)
  {
    var group, group' := GroupRows(keys, rows, text), GroupRows(keys, rows', text);
    FilterPermuted(rows, rows', TextIs(keys, text));
    SameMembers(group, group');
    assert group'[0] in group && group[0] in group;
    var i :| 0 <= i < |rows| && rows[i] == group'[0];
    var j :| 0 <= j < |rows| && rows[j] == group[0];
    assert ToldApart(keys, rows[i], rows[j]);
    forall k | 0 <= k < |aggs| ensures Fold(aggs[k], group') == Some(r[|keys|..][k]) {
      assert ArgOK(aggs[k], ts[k], rows);
      SubsetOf(rows, TextIs(keys, text), aggs[k], ts[k]);
      FoldPermuted(aggs[k], group, group', ts[k]);
    }
  }

  // One group has one output row.
  lemma OneOutputRow(keys: seq<Expr>, aggs: seq<Agg>, group: seq<Row>, r: Row, s: Row)
    requires OutputRow(keys, aggs, group, r) && OutputRow(keys, aggs, group, s)
    ensures r == s
  {
    var n := |keys|;
    var x, y := r[n..], s[n..];
    assert forall i :: 0 <= i < |aggs| ==> Fold(aggs[i], group) == Some(x[i]) && Fold(aggs[i], group) == Some(y[i]);
    assert x == y;
    assert r == r[..n] + r[n..] && s == s[..n] + s[n..];
  }

  lemma SameTexts(texts: seq<string>, texts': seq<string>)
    requires Distinct(texts) && Distinct(texts') && forall t :: t in texts <==> t in texts'
    ensures multiset(texts) == multiset(texts')
  {
    forall t ensures Bags.Count(texts, t) == Bags.Count(texts', t) {
      DistinctCount(texts, t);
      DistinctCount(texts', t);
    }
    CountsDecide(texts, texts');
  }

  lemma {:induction false} DistinctCount(texts: seq<string>, t: string)
    requires Distinct(texts)
    ensures Bags.Count(texts, t) == if t in texts then 1 else 0
  {
    if texts != [] {
      DistinctCount(texts[1..], t);
      CountFirst(texts, t);
      assert t in texts[1..] ==> exists i :: 1 <= i < |texts| && texts[i] == t;
    }
  }

  /** A permutation of the input gives an output of the same rows. */
  lemma OutputPermuted(keys: seq<Expr>, aggs: seq<Agg>, ts: seq<Type>, rows: seq<Row>, rows': seq<Row>, out: seq<Row>, out': seq<Row>)
    requires multiset(rows) == multiset(rows') && TellsApart(keys, rows) && ArgsOK(aggs, ts, rows)
    requires IsOutput(keys, aggs, rows, out) && IsOutput(keys, aggs, rows', out')
    ensures multiset(out) == multiset(out')
  {
    SameMembers(rows, rows');
    if rows != [] {
      var texts :| OnePerText(keys, aggs, rows, out, texts);
      var texts' :| OnePerText(keys, aggs, rows', out', texts');
      forall t ensures t in texts <==> t in texts' {
        FilterPermuted(rows, rows', TextIs(keys, t));
        SameMembers(GroupRows(keys, rows, t), GroupRows(keys, rows', t));
        assert GroupRows(keys, rows, t) == [] <==> GroupRows(keys, rows', t) == [];
      }
      SameTexts(texts, texts');
      var f := (t: string) => if t in texts then out[PlaceOf(texts, t)] else [];
      forall i | 0 <= i < |texts| ensures out[i] == f(texts[i]) { assert PlaceOf(texts, texts[i]) == i; }
      assert out == Map(texts, f);
      forall i | 0 <= i < |texts'| ensures out'[i] == f(texts'[i]) {
        assert texts'[i] in texts;
        var j := PlaceOf(texts, texts'[i]);
        assert OutputRow(keys, aggs, GroupRows(keys, rows, texts[j]), out[j]);
        assert OutputRow(keys, aggs, GroupRows(keys, rows', texts'[i]), out'[i]);
        GroupRowPermuted(keys, aggs, ts, rows, rows', texts[j], out[j]);
        OneOutputRow(keys, aggs, GroupRows(keys, rows', texts[j]), out[j], out'[i]);
      }
      assert out' == Map(texts', f);
      MapPermuted(texts, texts', f);
    }
  }

  function PlaceOf(texts: seq<string>, t: string): (i: nat)
    requires t in texts
    ensures i < |texts| && texts[i] == t
  {
    if texts[0] == t then 0 else PlaceOf(texts[1..], t) + 1
  }

  /** An output for an input is one for each permutation of it. */
  lemma OutputStays(keys: seq<Expr>, aggs: seq<Agg>, ts: seq<Type>, rows: seq<Row>, rows': seq<Row>, out: seq<Row>)
    requires multiset(rows) == multiset(rows') && TellsApart(keys, rows) && ArgsOK(aggs, ts, rows)
    requires IsOutput(keys, aggs, rows, out)
    ensures IsOutput(keys, aggs, rows', out)
  {
    SameMembers(rows, rows');
    SameKeys(keys, rows, rows');
    if rows != [] {
      var texts :| OnePerText(keys, aggs, rows, out, texts);
      forall t {:trigger GroupRows(keys, rows', t)} ensures t in texts <==> GroupRows(keys, rows', t) != [] {
        FilterPermuted(rows, rows', TextIs(keys, t));
        SameMembers(GroupRows(keys, rows, t), GroupRows(keys, rows', t));
        assert GroupRows(keys, rows, t) == [] <==> GroupRows(keys, rows', t) == [];
      }
      forall i {:trigger texts[i]} | 0 <= i < |texts| ensures OutputRow(keys, aggs, GroupRows(keys, rows', texts[i]), out[i]) {
        GroupRowPermuted(keys, aggs, ts, rows, rows', texts[i], out[i]);
      }
      assert OnePerText(keys, aggs, rows', out, texts);
    }
  }

  // ---------- Where it does ----------

  // The row that comes first gives its key to the output row of its text.
  lemma FirstShows(keys: seq<Expr>, aggs: seq<Agg>, rows: seq<Row>, out: seq<Row>) returns (a: nat)
    requires rows != [] && IsOutput(keys, aggs, rows, out)
    ensures a < |out| && KeyVals(keys, rows[0]) == Some(KeyPart(out[a], |keys|))
    ensures forall b {:trigger out[b]} :: 0 <= b < |out| && KeyText(KeyPart(out[b], |keys|)) == KeyText(KeyPart(out[a], |keys|)) ==> b == a
  {
    var texts :| OnePerText(keys, aggs, rows, out, texts);
    OutputKeys(keys, aggs, rows, out, texts);
    assert KeyOK(keys, rows[0]);
    var text := KeyString(keys, rows[0]).value;
    assert GroupRows(keys, rows, text)[0] == rows[0];
    a :| 0 <= a < |texts| && texts[a] == text;
    assert OutputRow(keys, aggs, GroupRows(keys, rows, texts[a]), out[a]);
  }

  function ToFront(rows: seq<Row>, i: nat): (r: seq<Row>)
    requires i < |rows|
    ensures r != [] && r[0] == rows[i] && multiset(r) == multiset(rows)
  {
    assert rows == rows[..i] + [rows[i]] + rows[i + 1..];
    [rows[i]] + rows[..i] + rows[i + 1..]
  }

  /** An output stays one under every reordering of the input exactly when the texts tell the keys apart. */
  lemma OutputStaysIff(keys: seq<Expr>, aggs: seq<Agg>, ts: seq<Type>, rows: seq<Row>, out: seq<Row>)
    requires ArgsOK(aggs, ts, rows) && IsOutput(keys, aggs, rows, out)
    ensures TellsApart(keys, rows) <==> forall rows' :: multiset(rows') == multiset(rows) ==> IsOutput(keys, aggs, rows', out)
  {
    if TellsApart(keys, rows) {
      forall rows' | multiset(rows') == multiset(rows) ensures IsOutput(keys, aggs, rows', out) {
        OutputStays(keys, aggs, ts, rows, rows', out);
      }
    } else {
      var i, j :| 0 <= i < |rows| && 0 <= j < |rows| && !ToldApart(keys, rows[i], rows[j]);
      var front, front' := ToFront(rows, i), ToFront(rows, j);
      if IsOutput(keys, aggs, front, out) && IsOutput(keys, aggs, front', out) {
        var a := FirstShows(keys, aggs, front, out);
        var b := FirstShows(keys, aggs, front', out);
        assert false;
      }
    }
  }
}
