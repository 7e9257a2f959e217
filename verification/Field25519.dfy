/** Arithmetic modulo 2^255 - 19 on sixteen 16-bit limbs held in 64-bit integers.
    The limb type admits no value outside 64 bits, so each method below is also a
    proof that none of its additions, products and shifts overflows. */
module Field25519 {
  import opened Limbs

  const B := 0x1_0000
  const P := 0x7fff_ffff_ffff_ffff_ffff_ffff_ffff_ffff_ffff_ffff_ffff_ffff_ffff_ffff_ffff_ffed
  const R := 0x1_0000_0000_0000_0000_0000_0000_0000_0000_0000_0000_0000_0000_0000_0000_0000_0000

  lemma RadixIs()
    ensures R == 2 * P + 38 && Pow(B, 16) == R && B * Pow(B, 15) == R
  {
    assert Pow(B, 1) == B;
    PowAdd(B, 1, 1);
    PowAdd(B, 2, 2);
    PowAdd(B, 4, 4);
    PowAdd(B, 8, 8);
    PowAdd(B, 1, 15);
  }

  // ---- congruence modulo P ----

  ghost predicate Cong(x: int, y: int) {
    (x - y) % P == 0
  }

  lemma CongBy(x: int, y: int, k: int)
    requires x - y == k * P
    ensures Cong(x, y) && x % P == y % P
  {
    assert (x - y) % P == 0;
  }

  lemma CongMul(x: int, x': int, y: int, y': int)
    requires Cong(x, x') && Cong(y, y')
    ensures Cong(x * y, x' * y')
  {
    var j, k := (x - x') / P, (y - y') / P;
    assert x == x' + j * P && y == y' + k * P;
    assert x * y - x' * y' == (j * y + x' * k) * P by {
      assert x * y == x' * y + (j * P) * y;
      assert x' * y == x' * y' + x' * (k * P);
    }
    CongBy(x * y, x' * y', j * y + x' * k);
  }

  lemma CongTrans(x: int, y: int, z: int)
    requires Cong(x, y) && Cong(y, z)
    ensures Cong(x, z) && Cong(z, x)
  {
    var j, k := (x - y) / P, (y - z) / P;
    assert x - z == (j + k) * P;
    CongBy(x, z, j + k);
    CongBy(z, x, -(j + k));
  }

  lemma CongAdd(x: int, x': int, y: int, y': int)
    requires Cong(x, x') && Cong(y, y')
    ensures Cong(x + y, x' + y') && Cong(x - y, x' - y')
  {
    var j, k := (x - x') / P, (y - y') / P;
    CongBy(x + y, x' + y', j + k);
    CongBy(x - y, x' - y', j - k);
  }

  lemma CongMod(x: int, y: int)
    ensures Cong(x, y) <==> x % P == y % P
    ensures Cong(x, x % P) && Cong(x % P, x)
  {
    var a, b := x / P, y / P;
    assert x == a * P + x % P && y == b * P + y % P;
    if Cong(x, y) {
      CongBy(x, y, (x - y) / P);
    }
    if x % P == y % P {
      CongBy(x, y, a - b);
    }
    CongBy(x, x % P, a);
    CongBy(x % P, x, -a);
  }

  // ---- carrying ----

  const LIMB_MAX := 0x4000_0000_0000_0000

  ghost predicate Bounded(s: seq<Int64>, m: int) {
    forall i :: 0 <= i < |s| ==> -m <= s[i] as int <= m
  }

  /** Moving a carry of `d` units from limb `i` to the next keeps the value. */
  lemma CarryStep(s: seq<Int64>, i: nat, d: int, x: Int64, y: Int64)
    requires i + 1 < |s| && x as int == s[i] as int - d * B && y as int == s[i + 1] as int + d
    ensures Val(s[i + 1 := y][i := x], B) == Val(s, B)
  {
    ValUpdate(s, B, i + 1, y);
    ValUpdate(s[i + 1 := y], B, i, x);
    assert Pow(B, i + 1) == B * Pow(B, i);
    Assoc(d, B, Pow(B, i));
  }

  /** The carry out of the last limb comes back in at the first, times 38. */
  lemma CarryWrap(s: seq<Int64>, d: int, x: Int64, y: Int64)
    requires |s| == 16 && x as int == s[15] as int - d * B && y as int == s[0] as int + 38 * d
    ensures Val(s[0 := y][15 := x], B) == Val(s, B) - d * R + 38 * d
  {
    ValUpdate(s, B, 0, y);
    ValUpdate(s[0 := y], B, 15, x);
    RadixIs();
    Assoc(d, B, Pow(B, 15));
  }

  /** One carry pass. All limbs but the first become 16-bit digits, and so does
      the first up to 38 times the quotient of the value by 2^256. */
  method Car25519(o: array<Int64>) returns (ghost q: int)
    requires o.Length == 16 && Bounded(o[..], LIMB_MAX)
    modifies o
    ensures old(Val(o[..], B)) == q * R + Val(o[..], B) - 38 * q
    ensures 0 <= o[0] as int - 38 * q < B
    ensures forall i :: 1 <= i < 16 ==> 0 <= o[i] as int < B
  {
    hide Val, Pow;
    var i := 0;
    q := 0;
    while i < 16
      invariant 0 <= i <= 16
      invariant old(Val(o[..], B)) == q * R + Val(o[..], B) - 38 * q
      invariant i < 16 ==> q == 0
      invariant 0 < i ==> 0 <= o[0] as int - 38 * q < B
      invariant forall k :: 1 <= k < i ==> 0 <= o[k] as int < B
      invariant i < 16 ==> -LIMB_MAX - 0x2_0000_0000_0000 <= o[i] as int <= LIMB_MAX + 0x2_0000_0000_0000
      invariant forall k :: i < k < 16 ==> o[k] == old(o[k])
    {
      ghost var s, d := o[..], o[i] as int / B;
      o[i] := o[i] + 0x1_0000;
      var c := o[i] / 0x1_0000;
      assert c as int - 1 == d;
      if i < 15 {
        assert o[i + 1] == old(o[..])[i + 1];
        o[i + 1] := o[i + 1] + (c - 1);
      } else {
        o[0] := o[0] + (c - 1) + 37 * (c - 1);
      }
      o[i] := o[i] - c * 0x1_0000;
      if i < 15 {
        CarryStep(s, i, d, o[i], o[i + 1]);
        assert o[..] == s[i + 1 := o[i + 1]][i := o[i]];
      } else {
        CarryWrap(s, d, o[15], o[0]);
        assert o[..] == s[0 := o[0]][15 := o[15]];
        q := d;
      }
      i := i + 1;
    }
  }

  /** Limbs as two carry passes leave them: digits, except that the first may be
      off by 38; the value lies below 2^256. */
  ghost predicate Tight(s: seq<Int64>) {
    && |s| == 16 && -38 <= s[0] as int < B + 38
    && (forall i :: 1 <= i < 16 ==> 0 <= s[i] as int < B)
    && 0 <= Val(s, B) < R
  }

  /** A carried sequence is a number below 2^256 plus 38 times the quotient. */
  lemma CarriedRange(s: seq<Int64>, q: int)
    requires |s| == 16 && 0 <= s[0] as int - 38 * q < B && forall i :: 1 <= i < 16 ==> 0 <= s[i] as int < B
    ensures 0 <= Val(s, B) - 38 * q < R
  {
    hide Val, Pow;
    var x := (s[0] as int - 38 * q) as Int64;
    ValUpdate(s, B, 0, x);
    DigitsBound(s[0 := x], B);
    PowZero();
    RadixIs();
  }

  lemma PowZero()
    ensures Pow(B, 0) == 1
  {
  }

  lemma QuotientBound(s: seq<Int64>, v: int, q: int)
    requires |s| == 16 && Bounded(s, LIMB_MAX) && Val(s, B) == q * R + v && 0 <= v < R
    ensures -0x1_0000_0000_0000 <= q <= 0x1_0000_0000_0000
  {
    hide Val, Pow;
    ValBounds(s, B, -LIMB_MAX, LIMB_MAX);
    RadixIs();
  }

  /** After two passes the limbs are tight and the residue is the same. */
  lemma CarriedTwice(s0: seq<Int64>, s1: seq<Int64>, q1: int, s2: seq<Int64>, q2: int)
    requires |s0| == |s1| == |s2| == 16 && Bounded(s0, LIMB_MAX)
    requires Val(s0, B) == q1 * R + Val(s1, B) - 38 * q1 && Val(s1, B) == q2 * R + Val(s2, B) - 38 * q2
    requires 0 <= s1[0] as int - 38 * q1 < B && forall i :: 1 <= i < 16 ==> 0 <= s1[i] as int < B
    requires 0 <= s2[0] as int - 38 * q2 < B && forall i :: 1 <= i < 16 ==> 0 <= s2[i] as int < B
    ensures Tight(s2) && Cong(Val(s2, B), Val(s0, B))
  {
    hide Val, Pow, Cong, Bounded;
    CarriedRange(s1, q1);
    CarriedRange(s2, q2);
    QuotientBound(s0, Val(s1, B) - 38 * q1, q1);
    RadixIs();
    CongBy(Val(s2, B), Val(s0, B), -2 * (q1 + q2));
  }

  // ---- addition, subtraction, multiplication ----

  method CopyGf(r: array<Int64>, a: array<Int64>)
    requires r.Length == a.Length == 16
    modifies r
    ensures r[..] == old(a[..])
  {
    var i := 0;
    while i < 16
      invariant 0 <= i <= 16
      invariant forall k :: 0 <= k < i ==> r[k] == old(a[k])
      invariant forall k :: i <= k < 16 ==> a[k] == old(a[k])
    {
      r[i] := a[i];
      i := i + 1;
    }
  }

  method Add(o: array<Int64>, a: array<Int64>, b: array<Int64>)
    requires o.Length == a.Length == b.Length == 16
    requires Bounded(a[..], LIMB_MAX / 2) && Bounded(b[..], LIMB_MAX / 2)
    modifies o
    ensures Combines(o[..], old(a[..]), old(b[..]), 1)
    ensures Val(o[..], B) == old(Val(a[..], B)) + old(Val(b[..], B))
  {
    var i := 0;
    while i < 16
      invariant 0 <= i <= 16
      invariant forall k :: 0 <= k < i ==> o[k] as int == old(a[k]) as int + old(b[k]) as int
      invariant forall k :: i <= k < 16 ==> a[k] == old(a[k]) && b[k] == old(b[k])
    {
      assert a[i] == old(a[..])[i] && b[i] == old(b[..])[i];
      o[i] := a[i] + b[i];
      i := i + 1;
    }
    CombineVal(o[..], old(a[..]), old(b[..]), B, 1);
  }

  method Sub(o: array<Int64>, a: array<Int64>, b: array<Int64>)
    requires o.Length == a.Length == b.Length == 16
    requires Bounded(a[..], LIMB_MAX / 2) && Bounded(b[..], LIMB_MAX / 2)
    modifies o
    ensures Combines(o[..], old(a[..]), old(b[..]), -1)
    ensures Val(o[..], B) == old(Val(a[..], B)) - old(Val(b[..], B))
  {
    var i := 0;
    while i < 16
      invariant 0 <= i <= 16
      invariant forall k :: 0 <= k < i ==> o[k] as int == old(a[k]) as int - old(b[k]) as int
      invariant forall k :: i <= k < 16 ==> a[k] == old(a[k]) && b[k] == old(b[k])
    {
      assert a[i] == old(a[..])[i] && b[i] == old(b[..])[i];
      o[i] := a[i] - b[i];
      i := i + 1;
    }
    CombineVal(o[..], old(a[..]), old(b[..]), B, -1);
  }

  const FACTOR_MAX := 0x400_0000

  lemma ProductStep(t: seq<Int64>, a: Int64, i: nat, bs: seq<Int64>, j: nat, x: Int64)
    requires i + j < |t| && j < |bs| && x as int == t[i + j] as int + a as int * bs[j] as int
    ensures Val(t[i + j := x], B) == Val(t, B) + (a as int * Pow(B, i)) * (Val(bs[..j + 1], B) - Val(bs[..j], B))
  {
    hide Val, Pow;
    ValUpdate(t, B, i + j, x);
    ValSnoc(bs, B, j);
    PowAdd(B, i, j);
    Rearrange(a as int, bs[j] as int, Pow(B, i), Pow(B, j));
  }

  lemma Rearrange(x: int, y: int, p: int, q: int)
    ensures (x * y) * (p * q) == (x * p) * (y * q)
  {
    Assoc(x, y, p * q);
    Swap(y, p, q);
    Assoc(x, p, y * q);
  }

  /** Adds one row of the schoolbook product. */
  method ProductRow(t: array<Int64>, a: array<Int64>, b: array<Int64>, i: nat)
    requires t.Length == 31 && a.Length == b.Length == 16 && i < 16 && t != a && t != b
    requires Bounded(a[..], FACTOR_MAX) && Bounded(b[..], FACTOR_MAX)
    requires Bounded(t[..], i * 0x10_0000_0000_0000)
    modifies t
    ensures Bounded(t[..], (i + 1) * 0x10_0000_0000_0000)
    ensures Val(t[..], B) == old(Val(t[..], B)) + (a[i] as int * Pow(B, i)) * Val(b[..], B)
  {
    hide Val, Pow;
    ghost var bs := b[..];
    ghost var w := a[i] as int * Pow(B, i);
    var j := 0;
    NoLimbs(bs);
    while j < 16
      invariant 0 <= j <= 16
      invariant Val(t[..], B) == old(Val(t[..], B)) + w * Val(bs[..j], B)
      invariant forall k :: i + j <= k < 31 ==> t[k] == old(t[k])
      invariant Bounded(t[..], (i + 1) * 0x10_0000_0000_0000)
      invariant a[..] == old(a[..]) && b[..] == bs
    {
      assert a[i] == a[..][i] && b[j] == bs[j] && t[i + j] == old(t[..])[i + j];
      MulBound(a[i] as int, b[j] as int, FACTOR_MAX, FACTOR_MAX);
      ghost var s := t[..];
      t[i + j] := t[i + j] + a[i] * b[j];
      assert t[..] == s[i + j := t[i + j]];
      ProductStep(s, a[i], i, bs, j, t[i + j]);
      Distrib(w, Val(bs[..j + 1], B), Val(bs[..j], B));
      j := j + 1;
    }
    assert bs[..16] == bs;
  }

  lemma NoLimbs(s: seq<Int64>)
    ensures Val(s[..0], B) == 0
  {
  }

  ghost predicate Folded(t: seq<Int64>, u: seq<Int64>, k: int)
    requires |t| == 31 && |u| == 16 && 0 <= k < 16
  {
    u[k] as int == t[k] as int + if k < 15 then 38 * t[k + 16] as int else 0
  }

  lemma FoldCombines(t: seq<Int64>, u: seq<Int64>)
    requires |t| == 31 && |u| == 16 && Bounded(t, 0x100_0000_0000_0000) && forall k :: 0 <= k < 16 ==> Folded(t, u, k)
    ensures Bounded(u, LIMB_MAX) && Combines(u, t[..16], t[16..], 38)
  {
    forall k | 0 <= k < 16
      ensures u[k] as int == t[..16][k] as int + if k < 15 then 38 * t[16..][k] as int else 0
      ensures -LIMB_MAX <= u[k] as int <= LIMB_MAX
    {
      assert Folded(t, u, k);
      assert t[..16][k] == t[k];
      if k < 15 { assert t[16..][k] == t[k + 16]; }
    }
  }

  /** Folding the upper half of a product back, times 38, keeps the residue. */
  lemma FoldProduct(t: seq<Int64>, u: seq<Int64>)
    requires |t| == 31 && |u| == 16 && Bounded(t, 0x100_0000_0000_0000)
    requires forall k :: 0 <= k < 16 ==> Folded(t, u, k)
    ensures Bounded(u, LIMB_MAX) && Cong(Val(u, B), Val(t, B))
  {
    hide Val, Pow, Cong;
    FoldCombines(t, u);
    CombineVal(u, t[..16], t[16..], B, 38);
    assert t == t[..16] + t[16..];
    ValConcat(t[..16], t[16..], B);
    RadixIs();
    CongBy(Val(u, B), Val(t, B), -2 * Val(t[16..], B));
  }

  /** The 31 limbs of the schoolbook product. */
  method Product(a: array<Int64>, b: array<Int64>) returns (t: array<Int64>)
    requires a.Length == b.Length == 16 && Bounded(a[..], FACTOR_MAX) && Bounded(b[..], FACTOR_MAX)
    ensures fresh(t) && t.Length == 31 && Bounded(t[..], 0x100_0000_0000_0000)
    ensures Val(t[..], B) == Val(a[..], B) * Val(b[..], B)
  {
    hide Val, Pow;
    ghost var as', bs := a[..], b[..];
    t := new Int64[31](_ => 0);
    var i: nat := 0;
    ZeroVal(t[..]);
    NoLimbs(as');
    while i < 16
      invariant i <= 16
      invariant Val(t[..], B) == Val(as'[..i], B) * Val(bs, B)
      invariant Bounded(t[..], i * 0x10_0000_0000_0000)
      invariant a[..] == as' && b[..] == bs
    {
      ValSnoc(as', B, i);
      Distrib(Val(bs, B), Val(as'[..i], B), as'[i] as int * Pow(B, i));
      assert a[i] == as'[i];
      ProductRow(t, a, b, i);
      i := i + 1;
    }
    assert as'[..16] == as';
  }

  /** Folds the upper limbs of a product into the lower sixteen. */
  method Fold(o: array<Int64>, t: array<Int64>)
    requires o.Length == 16 && t.Length == 31 && o != t && Bounded(t[..], 0x100_0000_0000_0000)
    modifies o, t
    ensures Bounded(o[..], LIMB_MAX) && Cong(Val(o[..], B), old(Val(t[..], B)))
  {
    hide Val, Cong;
    ghost var s := t[..];
    var i := 0;
    while i < 15
      invariant 0 <= i <= 15
      invariant forall k :: 0 <= k < i ==> t[k] as int == s[k] as int + 38 * s[k + 16] as int
      invariant forall k :: i <= k < 31 ==> t[k] == s[k]
    {
      assert t[i] == s[i] && t[i + 16] == s[i + 16];
      t[i] := t[i] + 38 * t[i + 16];
      i := i + 1;
    }
    i := 0;
    while i < 16
      modifies o
      invariant 0 <= i <= 16
      invariant forall k :: 0 <= k < i ==> o[k] == t[k]
    {
      o[i] := t[i];
      i := i + 1;
    }
    forall k | 0 <= k < 16 ensures Folded(s, o[..], k) {
      assert o[k] == t[k];
      if k < 15 { assert t[k] as int == s[k] as int + 38 * s[k + 16] as int; } else { assert t[k] == s[k]; }
    }
    FoldProduct(s, o[..]);
  }

  method CarTwice(o: array<Int64>)
    requires o.Length == 16 && Bounded(o[..], LIMB_MAX)
    modifies o
    ensures Tight(o[..]) && Cong(Val(o[..], B), old(Val(o[..], B)))
  {
    hide Val, Cong, Tight;
    ghost var u := o[..];
    ghost var q1 := Car25519(o);
    ghost var v := o[..];
    CarriedSmall(u, v, q1);
    ghost var q2 := Car25519(o);
    CarriedTwice(u, v, q1, o[..], q2);
  }

  /** The product of two elements with limbs below 2^26. */
  method Mul(o: array<Int64>, a: array<Int64>, b: array<Int64>)
    requires o.Length == a.Length == b.Length == 16
    requires Bounded(a[..], FACTOR_MAX) && Bounded(b[..], FACTOR_MAX)
    modifies o
    ensures Tight(o[..]) && Cong(Val(o[..], B), old(Val(a[..], B)) * old(Val(b[..], B)))
  {
    hide Val, Cong, Tight, Bounded;
    var t := Product(a, b);
    ghost var v := Val(t[..], B);
    Fold(o, t);
    ghost var w := Val(o[..], B);
    CarTwice(o);
    CongTrans(Val(o[..], B), w, v);
  }

  lemma ZeroVal(s: seq<Int64>)
    requires forall k :: 0 <= k < |s| ==> s[k] == 0
    ensures Val(s, B) == 0
  {
  }

  /** A carried element is within range of a further pass. */
  lemma CarriedSmall(s0: seq<Int64>, s1: seq<Int64>, q: int)
    requires |s0| == |s1| == 16 && Bounded(s0, LIMB_MAX)
    requires Val(s0, B) == q * R + Val(s1, B) - 38 * q
    requires 0 <= s1[0] as int - 38 * q < B && forall i :: 1 <= i < 16 ==> 0 <= s1[i] as int < B
    ensures Bounded(s1, LIMB_MAX)
  {
    hide Val, Pow;
    CarriedRange(s1, q);
    QuotientBound(s0, Val(s1, B) - 38 * q, q);
  }
}
