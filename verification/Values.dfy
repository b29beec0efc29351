/** SQL values: comparison, addition and the text that hashing and grouping use as a key. FLOAT is not
    modelled. */
module Values {
  import opened Wrappers

  datatype Type = Integer | Boolean | Varchar

  type Int32 = x: int | -0x8000_0000 <= x < 0x8000_0000

  // A null value keeps its type and a zero payload.
  datatype Value = IntV(i: Int32) | BoolV(b: bool) | StrV(s: string) | NullV(ty: Type)

  type Row = seq<Value>

  function TypeIn(v: Value): Type {
    match v
    case IntV(_) => Integer
    case BoolV(_) => Boolean
    case StrV(_) => Varchar
    case NullV(t) => t
  }

  // What the comparison and arithmetic operators read: they do not look at the null flag.
  function Payload(v: Value): (p: Value)
    ensures TypeIn(p) == TypeIn(v) && !p.NullV?
    ensures !v.NullV? ==> p == v
  {
    match v
    case NullV(Integer) => IntV(0)
    case NullV(Boolean) => BoolV(false)
    case NullV(Varchar) => StrV("")
    case _ => v
  }

  // ---------- Operators ----------

  /** 32-bit two's complement. */
  function Wrap(n: int): (r: Int32)
    ensures (r - n) % 0x1_0000_0000 == 0
    ensures -0x8000_0000 <= n < 0x8000_0000 ==> r == n
  {
    (n + 0x8000_0000) % 0x1_0000_0000 - 0x8000_0000
  }

  /** Lexicographic order on strings. */
  predicate Before(a: string, b: string) {
    b != [] && (a == [] || a[0] < b[0] || (a[0] == b[0] && Before(a[1..], b[1..])))
  }

  datatype Comparison = Equal | NotEqual | Less | LessOrEqual | Greater | GreaterOrEqual

  // None: the operator raises an error.
  function CompareLess(v: Value, w: Value): Option<bool> {
    match (Payload(v), Payload(w))
    case (IntV(i), IntV(j)) => Some(i < j)
    case (StrV(s), StrV(t)) => Some(Before(s, t))
    case _ => None
  }

  function CompareEquals(v: Value, w: Value): Option<bool> {
    if TypeIn(v) == TypeIn(w) then Some(Payload(v) == Payload(w)) else None
  }

  function Negate(r: Option<bool>): Option<bool> {
    match r case None => None case Some(b) => Some(!b)
  }

  function Compare(op: Comparison, v: Value, w: Value): Option<bool> {
    match op
    case Equal => CompareEquals(v, w)
    case NotEqual => Negate(CompareEquals(v, w))
    case Less => CompareLess(v, w)
    case LessOrEqual => Negate(CompareLess(w, v))
    case Greater => CompareLess(w, v)
    case GreaterOrEqual => Negate(CompareLess(v, w))
  }

  datatype Arithmetic = Plus | Minus | Multiply | Divide | Modulo

  // C++ division truncates toward zero.
  function Quotient(i: int, j: int): int
    requires j != 0
  {
    if i >= 0 then i / j else -((-i) / j)
  }

  function Compute(op: Arithmetic, v: Value, w: Value): Option<Value> {
    match (Payload(v), Payload(w))
    case (IntV(i), IntV(j)) =>
      (match op
       case Plus => Some(IntV(Wrap(i + j)))
       case Minus => Some(IntV(Wrap(i - j)))
       case Multiply => Some(IntV(Wrap(i * j)))
       case Divide => if j == 0 then None else Some(IntV(Wrap(Quotient(i, j))))
       case Modulo => if j == 0 then None else Some(IntV(Wrap(i - j * Quotient(i, j)))))
    case _ => None
  }

  // ---------- The order on strings ----------

  lemma {:induction false} BeforeTotal(a: string, b: string)
    ensures Before(a, b) || a == b || Before(b, a)
    ensures !(Before(a, b) && (a == b || Before(b, a)))
  {
    if a != [] && b != [] && a[0] == b[0] {
      BeforeTotal(a[1..], b[1..]);
      assert a == [a[0]] + a[1..] && b == [b[0]] + b[1..];
    }
  }

  lemma {:induction false} BeforeTransitive(a: string, b: string, c: string)
    requires Before(a, b) && Before(b, c)
    ensures Before(a, c)
  {
    if a != [] && b != [] && c != [] && a[0] == b[0] && b[0] == c[0] { BeforeTransitive(a[1..], b[1..], c[1..]); }
  }

  // ---------- Text ----------

  const DIGITS: string := "0123456789"

  function Decimal(n: nat): (s: string)
    ensures |s| > 0 && forall k :: 0 <= k < |s| ==> '0' <= s[k] <= '9'
  {
    if n < 10 then [DIGITS[n]] else Decimal(n / 10) + [DIGITS[n % 10]]
  }

  function Signed(n: int): (s: string)
    ensures |s| > 0 && '|' !in s && s[0] != 'N' && (s[0] == '-' <==> n < 0)
  {
    if n < 0 then "-" + Decimal(-n) else Decimal(n)
  }

  function Text(v: Value): string {
    match v
    case IntV(i) => Signed(i)
    case BoolV(b) => if b then "true" else "false"
    case StrV(s) => s
    case NullV(_) => "NULL"
  }

  lemma {:induction false} DecimalInjective(m: nat, n: nat)
    requires Decimal(m) == Decimal(n)
    ensures m == n
  {
    if m >= 10 && n >= 10 {
      var s, t := Decimal(m / 10), Decimal(n / 10);
      LastDigit(s, t, m % 10, n % 10);
      DecimalInjective(m / 10, n / 10);
    }
  }

  lemma LastDigit(s: string, t: string, i: nat, j: nat)
    requires i < 10 && j < 10 && s + [DIGITS[i]] == t + [DIGITS[j]]
    ensures s == t && i == j
  {
    var l, r := s + [DIGITS[i]], t + [DIGITS[j]];
    assert s == l[..|l| - 1] && t == r[..|r| - 1];
    assert l[|l| - 1] == DIGITS[i] && r[|r| - 1] == DIGITS[j];
  }

  lemma SignedInjective(i: int, j: int)
    requires Signed(i) == Signed(j)
    ensures i == j
  {
    if i < 0 && j < 0 {
      assert Decimal(-i) == Signed(i)[1..] && Decimal(-j) == Signed(j)[1..];
      DecimalInjective(-i, -j);
    } else if i >= 0 && j >= 0 {
      DecimalInjective(i, j);
    }
  }

  // The texts of values of one type other than strings tell them apart.
  lemma TextInjective(v: Value, w: Value)
    requires TypeIn(v) == TypeIn(w) != Varchar && Text(v) == Text(w)
    ensures v == w
  {
    assert "true"[0] == 't' && "false"[0] == 'f' && "NULL"[0] == 'N';
    if v.IntV? && w.IntV? { SignedInjective(v.i, w.i); }
    assert Text(v)[0] == Text(w)[0];
  }

  /** The pairs on which text and comparison disagree: exactly one side null, and the other the zero value
      of its type or the text that null prints as. */
  predicate Clash(v: Value, w: Value) {
    v.NullV? != w.NullV? && (var x := if v.NullV? then w else v; x == Payload(NullV(TypeIn(x))) || x == StrV("NULL"))
  }

  /** Two values of one type have the same text exactly when they compare equal, but for the clashing pairs,
      where always exactly one of the two holds. */
  lemma TextDecides(v: Value, w: Value)
    requires TypeIn(v) == TypeIn(w)
    ensures (Text(v) == Text(w) <==> CompareEquals(v, w) == Some(true)) <==> !Clash(v, w)
  {
    if TypeIn(v) != Varchar && Text(v) == Text(w) { TextInjective(v, w); }
  }

  // ---------- Group keys ----------

  /** The grouping key: the values' texts with '|' between them. */
  function KeyText(vs: seq<Value>): string {
    if vs == [] then "" else if |vs| == 1 then Text(vs[0]) else KeyText(vs[..|vs| - 1]) + "|" + Text(vs[|vs| - 1])
  }

  /** Strings that hold the separator can merge two groups. */
  lemma SeparatorMerges()
    ensures var v, w := [StrV("a|b"), StrV("c")], [StrV("a"), StrV("b|c")]; v != w && KeyText(v) == KeyText(w)
  {
    var v, w := [StrV("a|b"), StrV("c")], [StrV("a"), StrV("b|c")];
    assert KeyText(v) == "a|b" + "|" + "c" && KeyText(w) == "a" + "|" + "b|c";
  }
}
