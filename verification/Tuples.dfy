/** Stored tuples: the serialized values one after another, read back by column offset. The offsets count every
    string column as four bytes, however long its strings are. */
module Tuples {
  import opened Wrappers
  import opened Values
  import opened PageBytes

  // ---------- Layout ----------

  // What the schema counts for a column.
  function Width(t: Type): nat {
    if t == Boolean then 1 else 4
  }

  /** A column's offset: the widths of the columns before it. */
  function OffsetOf(types: seq<Type>, c: nat): nat
    requires c <= |types|
  {
    if c == 0 then 0 else OffsetOf(types, c - 1) + Width(types[c - 1])
  }

  // A 32-bit integer as an unsigned word.
  function Unsigned(i: Int32): (n: nat)
    ensures n < 0x1_0000_0000
  {
    if i < 0 then i as int + 0x1_0000_0000 else i as int
  }

  function Signed32(n: nat): (i: Int32)
    requires n < 0x1_0000_0000
    ensures Unsigned(i) == n
  {
    if n < 0x8000_0000 then n else n - 0x1_0000_0000
  }

  // A string holds bytes.
  predicate Storable(v: Value) {
    v.StrV? ==> |v.s| < 0x1_0000_0000 && forall k :: 0 <= k < |v.s| ==> v.s[k] as int < 256
  }

  function Letters(b: Bytes): (s: string)
    ensures |s| == |b| && forall k :: 0 <= k < |b| ==> s[k] as int == b[k]
  {
    seq(|b|, k requires 0 <= k < |b| => b[k] as char)
  }

  function Codes(s: string): (b: Bytes)
    requires forall k :: 0 <= k < |s| ==> s[k] as int < 256
    ensures |b| == |s| && forall k :: 0 <= k < |s| ==> b[k] == s[k] as int
  {
    seq(|s|, k requires 0 <= k < |s| => s[k] as int)
  }

  /** The bytes of a value: a string has its length before it, and the null flag is not stored. */
  function Bytes1(v: Value): (b: Bytes)
    requires Storable(v)
    ensures Payload(v) != StrV("") && TypeIn(v) == Varchar <==> |b| != Width(TypeIn(v))
  {
    match Payload(v)
    case IntV(i) => Word4(Unsigned(i))
    case BoolV(b) => if b then [1] else [0]
    case StrV(s) => Word4(|s|) + Codes(s)
  }

  predicate RowOf(row: Row, types: seq<Type>) {
    |row| == |types| && forall c {:trigger row[c]} :: 0 <= c < |row| ==> TypeIn(row[c]) == types[c] && Storable(row[c])
  }

  function Serialize(row: Row): Bytes
    requires forall c {:trigger row[c]} :: 0 <= c < |row| ==> Storable(row[c])
  {
    if row == [] then [] else Serialize(row[..|row| - 1]) + Bytes1(row[|row| - 1])
  }

  // ---------- Reading ----------

  /** The value read at a place; None if it does not lie within the tuple's bytes. */
  function Read(t: Type, b: Bytes, at: nat): (v: Option<Value>)
    ensures v.Some? ==> TypeIn(v.value) == t && !v.value.NullV?
  {
    if at + Width(t) > |b| then None
    else
      match t
      case Boolean => Some(BoolV(b[at] != 0))
      case Integer => Some(IntV(Signed32(Get4(b, at))))
      case Varchar =>
        var n := Get4(b, at);
        if at + 4 + n > |b| then None else Some(StrV(Letters(b[at + 4..at + 4 + n])))
  }

  predicate Readable(types: seq<Type>, b: Bytes) {
    forall c :: 0 <= c < |types| ==> Read(types[c], b, OffsetOf(types, c)).Some?
  }

  /** A tuple read through its schema. */
  function Deserialize(types: seq<Type>, b: Bytes): (row: Row)
    requires Readable(types, b)
    ensures |row| == |types| && forall c :: 0 <= c < |row| ==> TypeIn(row[c]) == types[c] && !row[c].NullV?
  {
    seq(|types|, c requires 0 <= c < |types| => Read(types[c], b, OffsetOf(types, c)).value)
  }

  // Reading a value within the first part of some bytes.
  lemma ReadFirst(t: Type, a: Bytes, b: Bytes, at: nat)
    requires Read(t, a, at).Some?
    ensures Read(t, a + b, at) == Read(t, a, at)
  {
    var all := a + b;
    assert forall k :: 0 <= k < |a| ==> all[k] == a[k];
    if t == Varchar {
      var n := Get4(a, at);
      assert all[at + 4..at + 4 + n] == a[at + 4..at + 4 + n];
    }
  }

  // Reading a value just written at the end.
  lemma ReadLast(a: Bytes, v: Value)
    requires Storable(v)
    ensures Read(TypeIn(v), a + Bytes1(v), |a|) == Some(Payload(v))
  {
    var w := Bytes1(v);
    match Payload(v) {
      case IntV(i) => ReadWord(a, i);
      case BoolV(_) => assert (a + w)[|a|] == w[0];
      case StrV(s) => ReadString(a, s);
    }
  }

  lemma ReadWord(a: Bytes, i: Int32)
    ensures Read(Integer, a + Word4(Unsigned(i)), |a|) == Some(IntV(i))
  {
    var w := Word4(Unsigned(i));
    WordAfter(a, w, []);
    assert a + w + [] == a + w;
  }

  lemma ReadString(a: Bytes, s: string)
    requires Storable(StrV(s))
    ensures Read(Varchar, a + (Word4(|s|) + Codes(s)), |a|) == Some(StrV(s))
  {
    var b, n := a + (Word4(|s|) + Codes(s)), |a| + 4;
    WordAfter(a, Word4(|s|), Codes(s));
    assert a + Word4(|s|) + Codes(s) == b;
    assert b[n..n + |s|] == Codes(s);
    assert Letters(Codes(s)) == s;
  }

  lemma WordAfter(a: Bytes, w: Bytes, rest: Bytes)
    requires |w| == 4
    ensures Get4(a + w + rest, |a|) == Get4(w, 0)
  {
    var all := a + w + rest;
    assert all[|a|] == w[0] && all[|a| + 1] == w[1] && all[|a| + 2] == w[2] && all[|a| + 3] == w[3];
  }

  lemma {:induction false} OffsetPrefix(types: seq<Type>, n: nat, c: nat)
    requires c <= n <= |types|
    ensures OffsetOf(types[..n], c) == OffsetOf(types, c)
  {
    if c > 0 { OffsetPrefix(types, n, c - 1); }
  }

  lemma PrefixOK(row: Row, types: seq<Type>, n: nat)
    requires RowOf(row, types) && n <= |row|
    ensures RowOf(row[..n], types[..n])
    ensures forall c: nat :: c <= n && NoText(row, c) ==> NoText(row[..n], c)
  {
    forall c: nat | c <= n && NoText(row, c) ensures NoText(row[..n], c) {
      forall k | 0 <= k < c && TypeIn(row[..n][k]) == Varchar ensures Payload(row[..n][k]) == StrV("") {
        assert row[..n][k] == row[k];
      }
    }
  }

  // ---------- Round trips ----------

  /** The first n columns hold no string but empty ones. */
  predicate NoText(row: Row, n: nat)
    requires n <= |row|
  {
    forall c {:trigger row[c]} :: 0 <= c < n && TypeIn(row[c]) == Varchar ==> Payload(row[c]) == StrV("")
  }

  lemma {:induction false} SerializedSize(row: Row, types: seq<Type>)
    requires RowOf(row, types) && NoText(row, |row|)
    ensures |Serialize(row)| == OffsetOf(types, |types|)
  {
    if row != [] {
      var n := |row| - 1;
      PrefixOK(row, types, n);
      SerializedSize(row[..n], types[..n]);
      OffsetPrefix(types, n, n);
    }
  }

  /** A column reads back as it was written, with null turned into zero, if no text stands before it. */
  lemma {:induction false} ReadsBack(row: Row, types: seq<Type>, c: nat)
    requires RowOf(row, types) && c < |row| && NoText(row, c)
    ensures ReadsAs(row, types, c)
    decreases |row|
  {
    var n := |row| - 1;
    PrefixOK(row, types, n);
    OffsetPrefix(types, n, c);
    assert Serialize(row) == Serialize(row[..n]) + Bytes1(row[n]);
    if c == n {
      SerializedSize(row[..n], types[..n]);
      ReadLast(Serialize(row[..n]), row[n]);
    } else {
      ReadsBack(row[..n], types[..n], c);
      assert row[..n][c] == row[c] && types[..n][c] == types[c];
      ReadFirst(types[c], Serialize(row[..n]), Bytes1(row[n]), OffsetOf(types, c));
    }
  }

  /** Every row of the schema reads back as it was written, but for nulls. */
  ghost predicate AllReadBack(types: seq<Type>) {
    forall row :: RowOf(row, types) ==> SameBack(row, types)
  }

  predicate SameBack(row: Row, types: seq<Type>)
    requires RowOf(row, types)
  {
    forall c {:trigger ReadsAs(row, types, c)} :: 0 <= c < |row| ==> ReadsAs(row, types, c)
  }

  // The column reads back as it was written, but for null.
  predicate ReadsAs(row: Row, types: seq<Type>, c: nat)
    requires RowOf(row, types) && c < |row|
  {
    Read(types[c], Serialize(row), OffsetOf(types, c)) == Some(Payload(row[c]))
  }

  // Only the last column may be a string.
  predicate StringLast(types: seq<Type>) {
    forall c :: 0 <= c < |types| - 1 ==> types[c] != Varchar
  }

  /** Writing a tuple and reading it back gives the same values, with nulls turned into zeros, if no text
      stands before the last column. */
  lemma RoundTrip(row: Row, types: seq<Type>)
    requires RowOf(row, types) && (row == [] || NoText(row, |row| - 1))
    ensures SameBack(row, types) && Readable(types, Serialize(row))
    ensures forall c :: 0 <= c < |row| ==> Deserialize(types, Serialize(row))[c] == Payload(row[c])
    ensures Deserialize(types, Serialize(row)) == row <==> forall c :: 0 <= c < |row| ==> !row[c].NullV?
  {
    forall c | 0 <= c < |row| ensures ReadsAs(row, types, c) {
      PrefixText(row, c);
      ReadsBack(row, types, c);
    }
    ReadRow(row, types);
  }

  lemma PrefixText(row: Row, c: nat)
    requires c < |row| && NoText(row, |row| - 1)
    ensures NoText(row, c)
  {
  }

  lemma ReadRow(row: Row, types: seq<Type>)
    requires RowOf(row, types) && SameBack(row, types)
    ensures Readable(types, Serialize(row))
    ensures forall c :: 0 <= c < |row| ==> Deserialize(types, Serialize(row))[c] == Payload(row[c])
    ensures Deserialize(types, Serialize(row)) == row <==> forall c :: 0 <= c < |row| ==> !row[c].NullV?
  {
    var b := Serialize(row);
    forall c | 0 <= c < |types| ensures Read(types[c], b, OffsetOf(types, c)).Some? { assert ReadsAs(row, types, c); }
    var r := Deserialize(types, b);
    forall c | 0 <= c < |row| ensures r[c] == Payload(row[c]) { assert ReadsAs(row, types, c); }
  }

  // ---------- Where it fails ----------

  lemma {:induction false} SerializePrefix(row: Row, types: seq<Type>, n: nat)
    requires RowOf(row, types) && n <= |row|
    ensures |Serialize(row[..n])| <= |Serialize(row)| && Serialize(row)[..|Serialize(row[..n])|] == Serialize(row[..n])
    decreases |row|
  {
    if n == |row| {
      assert row[..n] == row;
    } else {
      var m := |row| - 1;
      PrefixOK(row, types, m);
      SerializePrefix(row[..m], types[..m], n);
      assert row[..m][..n] == row[..n];
    }
  }

  // Zeros, but for one string.
  function OneText(types: seq<Type>, i: nat, s: string): (row: Row)
    requires i < |types| && types[i] == Varchar && Storable(StrV(s))
    ensures RowOf(row, types) && row[i] == StrV(s) && forall c :: 0 <= c < |types| && c != i ==> row[c] == Payload(NullV(types[c]))
  {
    seq(|types|, c requires 0 <= c < |types| => if c == i then StrV(s) else Payload(NullV(types[c])))
  }

  const Ones: string := [1 as char, 1 as char, 1 as char, 1 as char]

  // The bytes up to a text, with no text before it.
  lemma TextBytes(row: Row, types: seq<Type>, i: nat)
    requires RowOf(row, types) && i < |row| && row[i] == StrV(Ones) && NoText(row, i)
    ensures |Serialize(row[..i])| == OffsetOf(types, i)
    ensures Serialize(row[..i + 1]) == Serialize(row[..i]) + (Word4(4) + Codes(Ones))
  {
    PrefixOK(row, types, i);
    SerializedSize(row[..i], types[..i]);
    OffsetPrefix(types, i, i);
    assert row[..i + 1][..i] == row[..i] && row[..i + 1][i] == StrV(Ones);
  }

  // Where its letters are stored.
  lemma TextPlace(row: Row, types: seq<Type>, i: nat)
    requires RowOf(row, types) && i < |row| && row[i] == StrV(Ones) && NoText(row, i)
    ensures var b := Serialize(row); var at := OffsetOf(types, i) + 4;
      at + 4 <= |b| && b[at] == b[at + 1] == b[at + 2] == b[at + 3] == 1
  {
    TextBytes(row, types, i);
    SerializePrefix(row, types, i + 1);
    OnesAfter(Serialize(row[..i]), Serialize(row));
  }

  lemma OnesAfter(p: Bytes, b: Bytes)
    requires var f := p + (Word4(4) + Codes(Ones)); |f| <= |b| && b[..|f|] == f
    ensures var at := |p| + 4; at + 4 <= |b| && b[at] == b[at + 1] == b[at + 2] == b[at + 3] == 1
  {
    var f, at := p + (Word4(4) + Codes(Ones)), |p| + 4;
    assert f[at] == f[at + 1] == f[at + 2] == f[at + 3] == 1;
    assert forall k :: 0 <= k < |f| ==> b[..|f|][k] == b[k];
  }

  // The column behind a text is read out of that text.
  lemma Misread(row: Row, types: seq<Type>, i: nat)
    requires RowOf(row, types) && i + 1 < |row| && row[i] == StrV(Ones) && NoText(row, i)
    requires row[i + 1] == Payload(NullV(types[i + 1]))
    ensures !ReadsAs(row, types, i + 1)
  {
    TextPlace(row, types, i);
    OffsetAfter(types, i);
    var b, at, v := Serialize(row), OffsetOf(types, i + 1), row[i + 1];
    ZeroStays(types[i + 1]);
    NotZero(types[i + 1], b, at, v);
  }

  lemma ZeroStays(t: Type)
    ensures Payload(Payload(NullV(t))) == Payload(NullV(t))
  {
  }

  lemma OffsetAfter(types: seq<Type>, i: nat)
    requires i + 1 < |types| && types[i] == Varchar
    ensures OffsetOf(types, i + 1) == OffsetOf(types, i) + 4
  {
  }

  lemma NotZero(t: Type, b: Bytes, at: nat, v: Value)
    requires at + 4 <= |b| && b[at] == b[at + 1] == b[at + 2] == b[at + 3] == 1 && v == Payload(NullV(t))
    ensures Read(t, b, at) != Some(v)
  {
    assert Get4(b, at) == 0x101_0101;
  }

  lemma {:induction false} FirstString(types: seq<Type>, c: nat) returns (i: nat)
    requires c < |types| && types[c] == Varchar
    ensures i <= c && types[i] == Varchar && forall k :: 0 <= k < i ==> types[k] != Varchar
  {
    if k :| 0 <= k < c && types[k] == Varchar { i := FirstString(types, k); } else { i := c; }
  }

  lemma NoTextBefore(row: Row, types: seq<Type>)
    requires RowOf(row, types) && StringLast(types) && row != []
    ensures NoText(row, |row| - 1)
  {
  }

  /** The rows of a schema all read back exactly when only its last column may be a string: the text of an
      earlier one is taken for the columns behind it. */
  lemma RoundTripIff(types: seq<Type>)
    ensures AllReadBack(types) <==> StringLast(types)
  {
    if StringLast(types) {
      forall row | RowOf(row, types) ensures SameBack(row, types) {
        if row != [] { NoTextBefore(row, types); }
        RoundTrip(row, types);
      }
    } else {
      var c :| 0 <= c < |types| - 1 && types[c] == Varchar;
      var i := FirstString(types, c);
      var row := OneText(types, i, Ones);
      assert NoText(row, i);
      Misread(row, types, i);
    }
  }
}
