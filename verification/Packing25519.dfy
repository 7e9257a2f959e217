/** Canonical byte strings of field elements: packing, comparison, unpacking. */
module Packing25519 {
  import opened Bytes
  import opened Limbs
  import opened Field25519

  /** The number a byte string stands for, least significant byte first. */
  function LeVal(s: seq<Byte>): nat {
    if s == [] then 0 else s[0] + 256 * LeVal(s[1..])
  }

  /** Byte strings of one length are determined by their number. */
  lemma {:induction false} LeValUnique(s: seq<Byte>, t: seq<Byte>)
    requires |s| == |t| && LeVal(s) == LeVal(t)
    ensures s == t
    decreases |s|
  {
    if s != [] {
      LeValUnique(s[1..], t[1..]);
      assert s == [s[0]] + s[1..] && t == [t[0]] + t[1..];
    }
  }

  /** One more byte at the top. */
  lemma {:induction false} LeValSnoc(s: seq<Byte>, b: Byte)
    ensures LeVal(s + [b]) == LeVal(s) + b * Pow(256, |s|)
    decreases |s|
  {
    if s == [] {
      assert s + [b] == [b] && [b][1..] == [];
    } else {
      assert (s + [b])[1..] == s[1..] + [b];
      LeValSnoc(s[1..], b);
      Swap(256, b, Pow(256, |s| - 1));
    }
  }

  lemma {:induction false} LeBound(s: seq<Byte>)
    ensures LeVal(s) < Pow(256, |s|)
    decreases |s|
  {
    if s != [] { LeBound(s[1..]); }
  }

  function Pair(lo: int, hi: int): int {
    lo + 256 * hi
  }

  ghost predicate Digits(s: seq<Int64>) {
    forall i :: 0 <= i < |s| ==> 0 <= s[i] as int < B
  }

  /** Byte pairs read as 16-bit digits. */
  ghost predicate Pairs(o: seq<Byte>, t: seq<Int64>) {
    |o| == 2 * |t| && forall i :: 0 <= i < |t| ==> t[i] as int == Pair(o[2 * i], o[2 * i + 1])
  }

  lemma {:induction false} PairsVal(o: seq<Byte>, t: seq<Int64>)
    requires Pairs(o, t)
    ensures LeVal(o) == Val(t, B)
    decreases |t|
  {
    if t != [] {
      var o', t' := o[2..], t[1..];
      assert Pairs(o', t') by {
        forall i | 0 <= i < |t'| ensures t'[i] as int == Pair(o'[2 * i], o'[2 * i + 1]) {
          assert t'[i] == t[i + 1] && o'[2 * i] == o[2 * (i + 1)] && o'[2 * i + 1] == o[2 * (i + 1) + 1];
        }
      }
      PairsVal(o', t');
      assert o[1..][1..] == o';
      assert t[0] as int == Pair(o[2 * 0], o[2 * 0 + 1]);
    }
  }

  // ---- the conditional swap ----

  /** Exchanging two words by masked exclusive-or exchanges them under the mask of
      b == 1, which is all ones, and keeps them under that of b == 0, which is zero. */
  lemma MaskedSwap(p: bv64, q: bv64)
    ensures !((1 as bv64) - 1) == 0xffff_ffff_ffff_ffff && !((0 as bv64) - 1) == 0
    ensures p ^ (0xffff_ffff_ffff_ffff & (p ^ q)) == q && q ^ (0xffff_ffff_ffff_ffff & (p ^ q)) == p
    ensures p ^ (0 & (p ^ q)) == p && q ^ (0 & (p ^ q)) == q
  {
  }

  method Sel25519(p: array<Int64>, q: array<Int64>, b: Int64)
    requires p.Length == q.Length == 16 && p != q && (b == 0 || b == 1)
    modifies p, q
    ensures b == 1 ==> p[..] == old(q[..]) && q[..] == old(p[..])
    ensures b == 0 ==> p[..] == old(p[..]) && q[..] == old(q[..])
  {
    var i := 0;
    while i < 16
      invariant 0 <= i <= 16
      invariant forall k :: 0 <= k < i ==> p[k] == (if b == 1 then old(q[k]) else old(p[k]))
      invariant forall k :: 0 <= k < i ==> q[k] == (if b == 1 then old(p[k]) else old(q[k]))
      invariant forall k :: i <= k < 16 ==> p[k] == old(p[k]) && q[k] == old(q[k])
    {
      if b == 1 {
        p[i], q[i] := q[i], p[i];
      }
      i := i + 1;
    }
  }

  // ---- reduction to the canonical range ----

  /** The sixteen limbs of P. */
  function PrimeLimbs(): seq<Int64> {
    [0xffed, 0xffff, 0xffff, 0xffff, 0xffff, 0xffff, 0xffff, 0xffff,
     0xffff, 0xffff, 0xffff, 0xffff, 0xffff, 0xffff, 0xffff, 0x7fff]
  }

  lemma {:induction false} AllOnes(s: seq<Int64>)
    requires forall i :: 0 <= i < |s| ==> s[i] == 0xffff
    ensures Val(s, B) == Pow(B, |s|) - 1
    decreases |s|
  {
    if s != [] { AllOnes(s[1..]); }
  }

  lemma PrimeLimbsVal()
    ensures Val(PrimeLimbs(), B) == P
  {
    hide Val, Pow;
    var ones := seq(16, i => 0xffff as Int64);
    AllOnes(ones);
    ValUpdate(ones, B, 0, 0xffed);
    ValUpdate(ones[0 := 0xffed], B, 15, 0x7fff);
    assert PrimeLimbs() == ones[0 := 0xffed][15 := 0x7fff];
    RadixIs();
    PowZero();
  }

  /** Limbs m after subtracting P from t with borrows: all but the last are digits. */
  ghost predicate Borrowed(m: seq<Int64>, t: seq<Int64>) {
    && |m| == |t| == 16 && Val(m, B) == Val(t, B) - P
    && (forall i :: 0 <= i < 15 ==> 0 <= m[i] as int < B) && -B <= m[15] as int < B
  }

  /** The last limb has the sign of the whole. */
  lemma BorrowedSign(m: seq<Int64>, t: seq<Int64>)
    requires Borrowed(m, t)
    ensures m[15] < 0 <==> Val(t, B) < P
    ensures m[15] >= 0 ==> Digits(m)
  {
    hide Val, Pow;
    assert m[..16] == m;
    ValSnoc(m, B, 15);
    DigitsBound(m[..15], B);
    PowPos(B, 15);
    var v, x, p := Val(m[..15], B), m[15] as int, Pow(B, 15);
    if x >= 0 { MulMono(p, 0, x); } else { MulMono(p, x, -1); }
  }

  lemma Limbwise(t: seq<Int64>) returns (u: seq<Int64>)
    requires |t| == 16 && Digits(t)
    ensures |u| == 16 && Val(u, B) == Val(t, B) - P
    ensures forall k :: 0 <= k < 16 ==> u[k] == t[k] - (if k == 0 then 0xffed else if k == 15 then 0x7fff else 0xffff)
  {
    hide Val, Pow;
    u := seq(16, k requires 0 <= k < 16 => t[k] - (if k == 0 then 0xffed else if k == 15 then 0x7fff else 0xffff));
    PrimeLimbsVal();
    assert Combines(u, t, PrimeLimbs(), -1);
    CombineVal(u, t, PrimeLimbs(), B, -1);
  }

  /** Subtracts P limb by limb; the borrow bit of the last limb says the result is negative. */
  method SubtractPrime(t: array<Int64>, m: array<Int64>) returns (b: Int64)
    requires t.Length == m.Length == 16 && t != m && Digits(t[..])
    modifies m
    ensures Borrowed(m[..], t[..])
    ensures b == if Val(t[..], B) < P then 1 else 0
  {
    hide Val, Pow;
    ghost var u := Limbwise(t[..]);
    ghost var w := u;
    m[0] := t[0] - 0xffed;
    var i := 1;
    while i < 15
      invariant 1 <= i <= 15
      invariant |w| == 16 && Val(w, B) == Val(u, B)
      invariant forall k :: 0 <= k < i ==> w[k] == m[k]
      invariant forall k :: i <= k < 16 ==> w[k] == u[k]
      invariant forall k :: 0 <= k < i - 1 ==> 0 <= m[k] as int < B
      invariant -B <= m[i - 1] as int < B
    {
      ghost var d := m[i - 1] as int / B;
      m[i] := t[i] - 0xffff - (m[i - 1] / 0x1_0000) % 2;
      m[i - 1] := m[i - 1] % 0x1_0000;
      CarryStep(w, i - 1, d, m[i - 1], m[i]);
      w := w[i := m[i]][i - 1 := m[i - 1]];
      i := i + 1;
    }
    ghost var d := m[14] as int / B;
    m[15] := t[15] - 0x7fff - (m[14] / 0x1_0000) % 2;
    b := (m[15] / 0x1_0000) % 2;
    m[14] := m[14] % 0x1_0000;
    CarryStep(w, 14, d, m[14], m[15]);
    w := w[15 := m[15]][14 := m[14]];
    assert w == m[..];
    BorrowedSign(m[..], t[..]);
  }

  /** Three carry passes turn any limbs below 2^62 into digits of the same residue. */
  method Carry3(t: array<Int64>)
    requires t.Length == 16 && Bounded(t[..], LIMB_MAX)
    modifies t
    ensures Digits(t[..]) && Cong(Val(t[..], B), old(Val(t[..], B)))
  {
    hide Val, Pow, Cong;
    ghost var s := t[..];
    CarTwice(t);
    ghost var u := t[..];
    ghost var q := Car25519(t);
    TightThird(u, t[..], q);
  }

  lemma TightThird(u: seq<Int64>, v: seq<Int64>, q: int)
    requires Tight(u) && |v| == 16 && Val(u, B) == q * R + Val(v, B) - 38 * q
    requires 0 <= v[0] as int - 38 * q < B && forall i :: 1 <= i < 16 ==> 0 <= v[i] as int < B
    ensures q == 0 && Digits(v) && Val(v, B) == Val(u, B)
  {
    hide Val, Pow;
    CarriedRange(v, q);
  }

  /** From digits to the least residue: two conditional subtractions suffice,
      because 2^256 is less than 3P. */
  method Canonical(t: array<Int64>)
    requires t.Length == 16 && Digits(t[..])
    modifies t
    ensures Digits(t[..]) && Val(t[..], B) == old(Val(t[..], B)) % P
  {
    hide Val, Pow;
    var m := new Int64[16];
    var j := 0;
    ghost var v := Val(t[..], B);
    DigitsBound(t[..], B);
    RadixIs();
    while j < 2
      invariant 0 <= j <= 2 && fresh(m) && Digits(t[..])
      invariant 0 <= Val(t[..], B) < if j == 0 then R else if j == 1 then P + 38 else P
      invariant Val(t[..], B) % P == v % P
    {
      ghost var s := t[..];
      var b := SubtractPrime(t, m);
      BorrowedSign(m[..], s);
      ghost var r := m[..];
      Sel25519(t, m, 1 - b);
      assert t[..] == if b == 0 then r else s;
      if b == 0 { CongBy(Val(r, B), Val(s, B), -1); }
      j := j + 1;
    }
  }

  /** Writes the least non-negative residue, least significant byte first. */
  method Pack25519(o: array<Byte>, n: array<Int64>)
    requires o.Length == 32 && n.Length == 16 && Bounded(n[..], LIMB_MAX)
    modifies o
    ensures LeVal(o[..]) == Val(n[..], B) % P
  {
    hide Val, Pow, LeVal;
    var t := new Int64[16];
    CopyGf(t, n);
    assert t[..] == n[..];
    ghost var v := Val(n[..], B);
    Carry3(t);
    CongMod(Val(t[..], B), v);
    Canonical(t);
    ghost var s := t[..];
    var i := 0;
    while i < 16
      modifies o
      invariant 0 <= i <= 16 && t[..] == s
      invariant forall k :: 0 <= k < i ==> t[k] as int == Pair(o[2 * k], o[2 * k + 1])
    {
      o[2 * i] := (t[i] % 0x100) as int;
      o[2 * i + 1] := (t[i] / 0x100) as int;
      i := i + 1;
    }
    assert Pairs(o[..], s);
    PairsVal(o[..], s);
  }

  /** True exactly when the two elements differ modulo P. */
  method Neq25519(a: array<Int64>, b: array<Int64>) returns (neq: bool)
    requires a.Length == b.Length == 16 && Bounded(a[..], LIMB_MAX) && Bounded(b[..], LIMB_MAX)
    ensures neq <==> !Cong(Val(a[..], B), Val(b[..], B))
  {
    hide Val, LeVal, Cong;
    var c, d := new Byte[32], new Byte[32];
    Pack25519(c, a);
    Pack25519(d, b);
    neq := false;
    var i := 0;
    while i < 32
      modifies {}
      invariant 0 <= i <= 32 && (neq <==> c[..i] != d[..i])
    {
      if c[i] != d[i] { neq := true; }
      i := i + 1;
    }
    assert c[..32] == c[..] && d[..32] == d[..];
    if c[..] != d[..] && LeVal(c[..]) == LeVal(d[..]) { LeValUnique(c[..], d[..]); }
    CongMod(Val(a[..], B), Val(b[..], B));
  }

  /** The lowest bit of the canonical representative. */
  method Par25519(a: array<Int64>) returns (r: Byte)
    requires a.Length == 16 && Bounded(a[..], LIMB_MAX)
    ensures r == Val(a[..], B) % P % 2
  {
    var d := new Byte[32];
    Pack25519(d, a);
    r := d[0] % 2;
  }

  /** Reads 255 bits; the top bit is dropped. */
  method Unpack25519(o: array<Int64>, a: array<Byte>)
    requires o.Length == 16 && a.Length == 32
    modifies o
    ensures Digits(o[..]) && Val(o[..], B) == LeVal(a[..]) % (R / 2)
  {
    hide Val, Pow, LeVal;
    var i := 0;
    while i < 16
      invariant 0 <= i <= 16
      invariant forall k :: 0 <= k < i ==> o[k] as int == Pair(a[2 * k], a[2 * k + 1])
    {
      o[i] := a[2 * i] as Int64 + a[2 * i + 1] as Int64 * 0x100;
      i := i + 1;
    }
    PairsVal(a[..], o[..]);
    ghost var s := o[..];
    o[15] := o[15] % 0x8000;
    assert o[..] == s[15 := o[15]];
    DropTopBit(s, o[15]);
  }

  lemma DropTopBit(s: seq<Int64>, x: Int64)
    requires |s| == 16 && Digits(s) && x as int == s[15] as int % 0x8000
    ensures Val(s[15 := x], B) == Val(s, B) % (R / 2)
  {
    hide Val, Pow;
    ValUpdate(s, B, 15, x);
    RadixIs();
    var t := s[15 := x];
    assert t[..16] == t;
    ValSnoc(t, B, 15);
    DigitsBound(t[..15], B);
    var k := s[15] as int / 0x8000;
    assert Val(t, B) == Val(s, B) - k * (R / 2);
    BelowHalf(Val(s, B), Val(t, B), k, R / 2);
  }

  lemma BelowHalf(v: int, w: int, k: int, h: int)
    requires v == w + k * h && 0 <= w < h
    ensures v % h == w
  {
    Remainder(v, h, k, w);
  }
}
