/** Bytes of a page: little-endian words and overwritten ranges. */
module PageBytes {

  const PAGE_SIZE := 4096

  type Byte = x: int | 0 <= x < 256
  type Bytes = seq<Byte>

  function Get2(d: Bytes, at: nat): (v: nat)
    requires at + 2 <= |d|
    ensures v < 0x1_0000
  {
    (d[at] as int) + 0x100 * (d[at + 1] as int)
  }

  function Get4(d: Bytes, at: nat): (v: nat)
    requires at + 4 <= |d|
    ensures v < 0x1_0000_0000
  {
    Get2(d, at) + 0x1_0000 * Get2(d, at + 2)
  }

  function Word2(v: nat): (w: Bytes)
    requires v < 0x1_0000
    ensures |w| == 2 && Get2(w, 0) == v
  {
    [v % 0x100, v / 0x100]
  }

  function Word4(v: nat): (w: Bytes)
    requires v < 0x1_0000_0000
    ensures |w| == 4 && Get4(w, 0) == v
  {
    var lo, hi := Word2(v % 0x1_0000), Word2(v / 0x1_0000);
    assert Get2(lo + hi, 0) == Get2(lo, 0) && Get2(lo + hi, 2) == Get2(hi, 0);
    lo + hi
  }

  /** The bytes from place at on replaced by bs. */
  function Put(d: Bytes, at: nat, bs: Bytes): (r: Bytes)
    requires at + |bs| <= |d|
    ensures |r| == |d|
    ensures forall k {:trigger r[k]} :: 0 <= k < |d| ==> r[k] == if at <= k < at + |bs| then bs[k - at] else d[k]
  {
    d[..at] + bs + d[at + |bs|..]
  }

  // Two ranges without a byte in common.
  predicate Apart(a: nat, m: nat, b: nat, n: nat) {
    a + m <= b || b + n <= a
  }

  lemma Get2Kept(d: Bytes, at: nat, bs: Bytes, p: nat)
    requires at + |bs| <= |d| && p + 2 <= |d| && Apart(at, |bs|, p, 2)
    ensures Get2(Put(d, at, bs), p) == Get2(d, p)
  {
  }

  lemma Get4Kept(d: Bytes, at: nat, bs: Bytes, p: nat)
    requires at + |bs| <= |d| && p + 4 <= |d| && Apart(at, |bs|, p, 4)
    ensures Get4(Put(d, at, bs), p) == Get4(d, p)
  {
    Get2Kept(d, at, bs, p);
    Get2Kept(d, at, bs, p + 2);
  }

  lemma Get2Put(d: Bytes, at: nat, v: nat)
    requires at + 2 <= |d| && v < 0x1_0000
    ensures Get2(Put(d, at, Word2(v)), at) == v
  {
    var w := Word2(v);
    assert Put(d, at, w)[at] == w[0] && Put(d, at, w)[at + 1] == w[1];
  }

  lemma Get4Put(d: Bytes, at: nat, v: nat)
    requires at + 4 <= |d| && v < 0x1_0000_0000
    ensures Get4(Put(d, at, Word4(v)), at) == v
  {
    var w := Word4(v);
    var r := Put(d, at, w);
    assert r[at] == w[0] && r[at + 1] == w[1] && r[at + 2] == w[2] && r[at + 3] == w[3];
  }

  lemma RangePut(d: Bytes, at: nat, bs: Bytes)
    requires at + |bs| <= |d|
    ensures Put(d, at, bs)[at..at + |bs|] == bs
  {
  }

  /** Copies bytes into an array, one by one. */
  method Copy(data: array<Byte>, at: nat, bs: Bytes)
    requires at + |bs| <= data.Length
    modifies data
    ensures data[..] == Put(old(data[..]), at, bs)
  {
    for i := 0 to |bs|
      invariant forall k :: 0 <= k < data.Length ==> data[k] == if at <= k < at + i then bs[k - at] else old(data[k])
    {
      data[at + i] := bs[i];
    }
  }
}
