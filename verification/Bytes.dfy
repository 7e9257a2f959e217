/** Little-endian integers in byte buffers, shared by the on-disk formats. */
module Bytes {

  type Byte = b: int | 0 <= b < 256

  datatype Option<+T> = None | Some(value: T)

  /** n zero bytes. */
  function Blank(n: nat): (s: seq<Byte>)
    ensures |s| == n && forall i :: 0 <= i < n ==> s[i] == 0
  {
    seq(n, _ => 0)
  }

  /** The 16-bit integer stored at `off`. */
  function U16(b: seq<Byte>, off: nat): (v: nat)
    requires off + 2 <= |b|
    ensures v < 0x1_0000
  {
    b[off] as int + 0x100 * b[off + 1] as int
  }

  /** The 32-bit integer stored at `off`. */
  function U32(b: seq<Byte>, off: nat): (v: nat)
    requires off + 4 <= |b|
    ensures v < 0x1_0000_0000
  {
    U16(b, off) + 0x1_0000 * U16(b, off + 2)
  }

  /** Remainders by a product, digit by digit. */
  lemma ModDigits(v: int, m: int, n: int)
    requires m > 0 && n > 0
    ensures m * n > 0 && v % (m * n) == v % m + m * (v / m % n)
  {
    var q := v / m;
    var k, r := q / n, v % m + m * (q % n);
    assert v == (m * n) * k + r by {
      assert v == m * (n * k + q % n) + v % m;
      assert m * (n * k + q % n) == m * (n * k) + m * (q % n);
      assert m * (n * k) == (m * n) * k;
    }
    assert 0 <= r < m * n by {
      assert m * (q % n) <= m * (n - 1);
    }
    Remainder(v, m * n, k, r);
  }

  lemma Remainder(v: int, m: int, k: int, r: int)
    requires v == m * k + r && 0 <= r < m
    ensures v % m == r && v / m == k
  {
    var j := v / m - k;
    assert m * j == r - v % m;
    assert j > 0 ==> m * j >= m;
    assert j < 0 ==> m * j <= -m;
  }

  /** The two bytes of a 16-bit integer, low byte first; higher bits are dropped. */
  function Le16(v: nat): (r: seq<Byte>)
    ensures |r| == 2 && r[0] as int + 0x100 * r[1] as int == v % 0x1_0000
  {
    ModDigits(v, 0x100, 0x100);
    [v % 0x100, v / 0x100 % 0x100]
  }

  /** The four bytes of a 32-bit integer, low byte first; higher bits are dropped. */
  function Le32(v: nat): (r: seq<Byte>)
    ensures |r| == 4 && U32(r, 0) == v % 0x1_0000_0000
  {
    var lo, hi := Le16(v), Le16(v / 0x1_0000);
    var r := lo + hi;
    assert U16(r, 0) == v % 0x1_0000 && U16(r, 2) == v / 0x1_0000 % 0x1_0000;
    ModDigits(v, 0x1_0000, 0x1_0000);
    r
  }

  /** Overwrites the bytes of `b` from `off` on with those of `s`. */
  function Splice(b: seq<Byte>, off: nat, s: seq<Byte>): (r: seq<Byte>)
    requires off + |s| <= |b|
    ensures |r| == |b|
    ensures forall k :: 0 <= k < |b| ==> r[k] == if off <= k < off + |s| then s[k - off] else b[k]
  {
    b[..off] + s + b[off + |s|..]
  }

  /** Overwrites bytes of the buffer, one after another. */
  method PutBytes(buf: array<Byte>, at: nat, s: seq<Byte>)
    requires at + |s| <= buf.Length
    modifies buf
    ensures buf[..] == Splice(old(buf[..]), at, s)
  {
    hide Splice;
    var i := 0;
    while i < |s|
      invariant 0 <= i <= |s|
      invariant forall k :: 0 <= k < i ==> buf[at + k] == s[k]
      invariant forall k :: 0 <= k < buf.Length && !(at <= k < at + i) ==> buf[k] == old(buf[k])
    {
      buf[at + i] := s[i];
      i := i + 1;
    }
    ghost var t := Splice(old(buf[..]), at, s);
    forall k | 0 <= k < buf.Length ensures buf[k] == t[k] {
      if at <= k < at + |s| { assert buf[at + (k - at)] == s[k - at]; }
    }
  }

  lemma U32Splice(b: seq<Byte>, off: nat, v: nat, at: nat)
    requires off + 4 <= |b| && at + 4 <= |b|
    requires at == off || at + 4 <= off || off + 4 <= at
    ensures U32(Splice(b, off, Le32(v)), at) == if at == off then v % 0x1_0000_0000 else U32(b, at)
  {
    var w := Le32(v);
    var r := Splice(b, off, w);
    if at == off {
      assert r[off] == w[0] && r[off + 1] == w[1] && r[off + 2] == w[2] && r[off + 3] == w[3];
    }
  }

  /** The 64-bit integer stored at `off`. */
  function U64(b: seq<Byte>, off: nat): (v: nat)
    requires off + 8 <= |b|
    ensures v < 0x1_0000_0000_0000_0000
  {
    U32(b, off) + 0x1_0000_0000 * U32(b, off + 4)
  }

  /** The eight bytes of a 64-bit integer, low byte first. */
  function Le64(v: nat): (r: seq<Byte>)
    requires v < 0x1_0000_0000_0000_0000
    ensures |r| == 8
  {
    Le32(v) + Le32(v / 0x1_0000_0000)
  }

  lemma Le64Reads(v: nat)
    requires v < 0x1_0000_0000_0000_0000
    ensures U64(Le64(v), 0) == v
  {
    hide Le32, U32, U64;
    Halves(Le32(v), Le32(v / 0x1_0000_0000));
  }

  lemma Halves(lo: seq<Byte>, hi: seq<Byte>)
    requires |lo| == |hi| == 4
    ensures U64(lo + hi, 0) == U32(lo, 0) + 0x1_0000_0000 * U32(hi, 0)
  {
    var r := lo + hi;
    assert U16(r, 0) == U16(lo, 0) && U16(r, 2) == U16(lo, 2) && U16(r, 4) == U16(hi, 0) && U16(r, 6) == U16(hi, 2);
  }

  lemma U64Splice(b: seq<Byte>, off: nat, v: nat)
    requires off + 8 <= |b| && v < 0x1_0000_0000_0000_0000
    ensures U64(Splice(b, off, Le64(v)), off) == v
  {
    hide Le64, U32, Splice;
    var w := Le64(v);
    Le64Reads(v);
    SpliceReads(b, off, w, 0);
    SpliceReads(b, off, w, 4);
  }

  lemma SpliceReads(b: seq<Byte>, off: nat, w: seq<Byte>, at: nat)
    requires off + |w| <= |b| && at + 4 <= |w|
    ensures U32(Splice(b, off, w), off + at) == U32(w, at)
  {
    var r := Splice(b, off, w);
    assert r[off + at] == w[at] && r[off + at + 1] == w[at + 1] && r[off + at + 2] == w[at + 2] && r[off + at + 3] == w[at + 3];
  }
}
