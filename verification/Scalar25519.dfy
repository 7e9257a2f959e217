/** Reduction of scalars modulo the group order L, on signed limbs in base 256. */
module Scalar25519 {
  import opened Bytes
  import opened Limbs
  import opened Packing25519

  /** The group order, 2^252 + 27742317777372353535851937790883648493. */
  const L := 0x1000_0000_0000_0000_0000_0000_0000_0000_14de_f9de_a2f7_9cd6_5812_631a_5cf5_d3ed

  function OrderA(): seq<Int64> {
    [0xed, 0xd3, 0xf5, 0x5c, 0x1a, 0x63, 0x12, 0x58]
  }

  function OrderB(): seq<Int64> {
    [0xd6, 0x9c, 0xf7, 0xa2, 0xde, 0xf9, 0xde, 0x14]
  }

  /** The bytes of L, least significant first. */
  function Order(): (s: seq<Int64>)
    ensures |s| == 32 && s[..16] == OrderA() + OrderB() && s[31] == 0x10
    ensures forall k :: 16 <= k < 31 ==> s[k] == 0
    ensures forall k :: 0 <= k < 32 ==> 0 <= s[k] < 256
  {
    OrderA() + OrderB() + [0, 0, 0, 0, 0, 0, 0, 0, 0, 0, 0, 0, 0, 0, 0, 0x10]
  }

  const LOW := 0x14de_f9de_a2f7_9cd6_5812_631a_5cf5_d3ed

  lemma Weight(k: nat)
    ensures k == 16 ==> Pow(256, k) == 0x1_0000_0000_0000_0000_0000_0000_0000_0000
    ensures k == 31 ==> L == LOW + 16 * Pow(256, k)
    ensures k == 32 ==> 16 * L == 16 * LOW + Pow(256, k) && Pow(256, k) == 0x1_0000_0000_0000_0000_0000_0000_0000_0000_0000_0000_0000_0000_0000_0000_0000_0000
  {
    hide Pow;
    PowFirst();
    PowAdd(256, 1, 1);
    PowAdd(256, 2, 2);
    PowAdd(256, 4, 4);
    PowAdd(256, 8, 8);
    PowAdd(256, 16, 16);
    PowAdd(256, 16, 8);
    PowAdd(256, 24, 4);
    PowAdd(256, 28, 2);
    PowAdd(256, 30, 1);
  }

  /** The order of the base point, as RFC 8032 gives it: 2^252 = 16 * 256^31 and a number in decimal. */
  lemma OrderIs()
    ensures L == 16 * Pow(256, 31) + 27742317777372353535851937790883648493
  {
    hide Pow;
    Weight(31);
  }

  lemma PowFirst()
    ensures Pow(256, 0) == 1 && Pow(256, 1) == 256
  {
  }

  lemma {:induction false} ZeroLimbs(s: seq<Int64>)
    requires forall k :: 0 <= k < |s| ==> s[k] == 0
    ensures Val(s, 256) == 0
    decreases |s|
  {
    if s != [] { ZeroLimbs(s[1..]); }
  }

  lemma Pow8()
    ensures Pow(256, 8) == 0x1_0000_0000_0000_0000
  {
    hide Pow;
    PowFirst();
    PowAdd(256, 1, 1);
    PowAdd(256, 2, 2);
    PowAdd(256, 4, 4);
  }

  lemma LowVal()
    ensures Val(Order()[..16], 256) == LOW
  {
    hide Val, Pow;
    EightVal(OrderA(), 256);
    EightVal(OrderB(), 256);
    ValConcat(OrderA(), OrderB(), 256);
    Pow8();
  }

  /** The bytes from the seventeenth to the one before last are zero. */
  lemma OrderPrefix(k: int)
    requires 16 <= k <= 31
    ensures Val(Order()[..k], 256) == LOW
  {
    hide Val, Pow, Order;
    var s, t := Order()[..16], Order()[16..k];
    LowVal();
    assert Order()[..k] == s + t;
    ValConcat(s, t, 256);
    ZeroLimbs(t);
  }

  lemma OrderVal()
    ensures Val(Order(), 256) == L
  {
    hide Val, Pow, Order;
    OrderPrefix(31);
    ValSnoc(Order(), 256, 31);
    assert Order()[..32] == Order();
    Weight(31);
  }

  // ---- the sweep from the top ----

  /** Bound on every limb during the sweep; inputs are half of it. */
  const WIDE := 0x40_0000

  ghost predicate Within(s: seq<Int64>, lo: int, hi: int, m: int) {
    forall k :: lo <= k < hi && 0 <= k < |s| ==> -m <= s[k] as int <= m
  }

  /** Digits in the balanced range. */
  ghost predicate Balanced(s: seq<Int64>, lo: int, hi: int) {
    forall k :: lo <= k < hi && 0 <= k < |s| ==> -128 <= s[k] as int < 128
  }

  ghost predicate Zero(s: seq<Int64>, lo: int) {
    forall k :: lo <= k < |s| && 0 <= k ==> s[k] == 0
  }

  /** Limbs when the sweep has come down to limb i: zero above it, balanced in the
      window that the previous step normalised, and small where earlier windows were. */
  ghost predicate Swept(s: seq<Int64>, i: int) {
    && |s| == 64 && Zero(s, i + 1) && Within(s, 0, i + 1, WIDE)
    && (i <= 62 ==> Balanced(s, i - 31, i - 11) && Within(s, i - 11, if i <= 50 then i + 1 else 51, 129))
    && (i == 63 ==> Within(s, 0, 64, WIDE / 2))
  }

  /** How far the carry can have grown after k of the twenty columns. */
  function CarryMax(k: int, top: bool): int {
    if k <= 16 then 0x800_0000
    else if top then if k == 17 then 0x8_4002 else if k == 18 then 0x2900 else 0x2100
    else if k == 17 then 0x8_0002 else if k == 18 then 0x802 else if k == 19 then 10 else 1
  }

  lemma CarryBound(k: int, top: bool, y: int, c: int, x: int, o: int)
    requires 0 <= k < 20 && -CarryMax(k, top) <= c <= CarryMax(k, top) && -WIDE <= x <= WIDE && 0 <= o < 256 && (k >= 16 ==> o == 0)
    requires -WIDE <= y <= WIDE && (top ==> -WIDE <= 2 * y <= WIDE) && (!top && k > 0 ==> -128 <= y < 128)
    ensures var c' := (y + c - 16 * x * o + 128) / 256; -CarryMax(k + 1, top) <= c' <= CarryMax(k + 1, top)
    ensures -0x10_0000_0000 <= y + c - 16 * x * o <= 0x10_0000_0000
  {
    MulBound(16 * x, o, 16 * WIDE, 255);
    if k >= 16 { assert 16 * x * o == 0; }
  }

  /** One column: the running value, with the carry counted at its place, drops by
      the product of this column. */
  lemma Column(s: seq<Int64>, j: nat, c: int, d: int, y: Int64, c': int)
    requires j < |s| && y as int + 256 * c' == s[j] as int + c - d
    ensures Val(s[j := y], 256) + c' * Pow(256, j + 1) == Val(s, 256) + c * Pow(256, j) - d * Pow(256, j)
  {
    hide Val;
    var w := Pow(256, j);
    ValUpdate(s, 256, j, y);
    assert c' * Pow(256, j + 1) == (256 * c') * w;
    Distrib(w, y as int - s[j] as int, 256 * c');
    Distrib(w, c, d);
  }

  lemma ColumnTotal(x: int, i: nat, k: nat)
    requires k < 32
    ensures (16 * x * Order()[k] as int) * Pow(256, i + k)
         == 16 * x * Pow(256, i) * (Val(Order()[..k + 1], 256) - Val(Order()[..k], 256))
  {
    hide Val, Pow, Order;
    ValSnoc(Order(), 256, k);
    PowAdd(256, i, k);
    var o, p, q := Order()[k] as int, Pow(256, i), Pow(256, k);
    Assoc(16 * x, o, p * q);
    Swap(o, p, q);
    Assoc(16 * x, p, o * q);
  }

  /** The columns of one step: subtracts 16 x[i] times the low bytes of L from limb
      i - 32 on, normalising as it goes, and returns the carry that is left over. */
  method Columns(x: array<Int64>, i: int) returns (carry: Int64)
    requires x.Length == 64 && 32 <= i <= 63 && Swept(x[..], i)
    modifies x
    ensures -CarryMax(20, i == 63) <= carry as int <= CarryMax(20, i == 63)
    ensures Balanced(x[..], i - 32, i - 12) && forall m :: 0 <= m < i - 32 || i - 12 <= m < 64 ==> x[m] == old(x[m])
    ensures Val(x[..], 256) + carry as int * Pow(256, i - 12)
         == old(Val(x[..], 256)) - 16 * x[i] as int * Pow(256, i - 32) * LOW
  {
    hide Val, Pow, Order;
    ghost var v, xi := Val(x[..], 256), x[i] as int;
    ghost var w: int := 16 * xi * Pow(256, i - 32);
    carry := 0;
    var j := i - 32;
    NoneYet();
    while j < i - 12
      invariant i - 32 <= j <= i - 12 && x[i] as int == xi
      invariant -CarryMax(j - (i - 32), i == 63) <= carry as int <= CarryMax(j - (i - 32), i == 63)
      invariant Val(x[..], 256) + carry as int * Pow(256, j) == v - w * Val(Order()[..j - (i - 32)], 256)
      invariant forall m :: i - 32 <= m < j ==> -128 <= x[m] as int < 128
      invariant forall m :: 0 <= m < i - 32 || j <= m < 64 ==> x[m] == old(x[m])
    {
      ghost var k, s, c: int := j - (i - 32), x[..], carry as int;
      assert x[j] == old(x[..])[j] && x[i] == old(x[..])[i];
      CarryBound(k, i == 63, x[j] as int, c, xi, Order()[k] as int);
      x[j] := x[j] + (carry - 16 * x[i] * Order()[j - (i - 32)]);
      carry := (x[j] + 128) / 0x100;
      x[j] := x[j] - carry * 0x100;
      assert x[..] == s[j := x[j]];
      Column(s, j, c, 16 * xi * Order()[k] as int, x[j], carry as int);
      ColumnTotal(xi, i - 32, k);
      Distrib(w, Val(Order()[..k + 1], 256), Val(Order()[..k], 256));
      j := j + 1;
    }
    OrderPrefix(20);
  }

  lemma NoneYet()
    ensures Val(Order()[..0], 256) == 0
  {
    assert Order()[..0] == [];
  }

  /** One step of the sweep takes away a multiple of L and clears limb i. */
  method Sweep(x: array<Int64>, i: int)
    requires x.Length == 64 && 32 <= i <= 63 && Swept(x[..], i)
    modifies x
    ensures Swept(x[..], i - 1)
    ensures Val(x[..], 256) == old(Val(x[..], 256)) - old(x[i]) as int * Pow(256, i - 32) * 16 * L
  {
    hide Val, Pow;
    ghost var s0 := x[..];
    var carry := Columns(x, i);
    ghost var s := x[..];
    ColumnsKeep(s0, s, i);
    x[i - 12] := x[i - 12] + carry;
    x[i] := 0;
    assert x[..] == s[i - 12 := s[i - 12] + carry][i := 0];
    SweepValue(s, i, carry);
    SweepKeeps(s0, s, i, carry);
  }

  lemma ColumnsKeep(s0: seq<Int64>, s: seq<Int64>, i: int)
    requires 32 <= i <= 63 && Swept(s0, i) && |s| == 64
    requires forall m :: 0 <= m < i - 32 || i - 12 <= m < 64 ==> s[m] == s0[m]
    ensures -WIDE <= s[i - 12] as int <= WIDE
  {
    assert s[i - 12] == s0[i - 12];
  }

  lemma SweepValue(s: seq<Int64>, i: int, c: Int64)
    requires |s| == 64 && 32 <= i <= 63 && -WIDE <= s[i - 12] as int <= WIDE && -WIDE <= c as int <= WIDE
    ensures Val(s[i - 12 := s[i - 12] + c][i := 0], 256)
         == Val(s, 256) + c as int * Pow(256, i - 12) - s[i] as int * Pow(256, i)
    ensures s[i] as int * Pow(256, i) + 16 * s[i] as int * Pow(256, i - 32) * LOW == s[i] as int * Pow(256, i - 32) * 16 * L
  {
    hide Val, Pow;
    ValUpdate(s, 256, i - 12, s[i - 12] + c);
    ValUpdate(s[i - 12 := s[i - 12] + c], 256, i, 0);
    PowAdd(256, i - 32, 32);
    Weight(32);
    SweepTotal(s[i] as int, Pow(256, i - 32), Pow(256, 32));
  }

  lemma SweepTotal(x: int, p: int, q: int)
    requires 16 * L == 16 * LOW + q
    ensures x * (p * q) + 16 * x * p * LOW == x * p * 16 * L
  {
    var w := x * p;
    assert x * (p * q) == w * q by { Assoc(x, p, q); }
    assert w * 16 * L == w * (16 * LOW + q);
    Distrib(w, 16 * LOW, q);
  }

  lemma SweepKeeps(s0: seq<Int64>, s: seq<Int64>, i: int, c: Int64)
    requires 32 <= i <= 63 && Swept(s0, i) && |s| == 64
    requires forall m :: 0 <= m < i - 32 || i - 12 <= m < 64 ==> s[m] == s0[m]
    requires Balanced(s, i - 32, i - 12) && -CarryMax(20, i == 63) <= c as int <= CarryMax(20, i == 63)
    requires -WIDE <= s[i - 12] as int <= WIDE
    ensures Swept(s[i - 12 := s[i - 12] + c][i := 0], i - 1)
  {
    var t := s[i - 12 := s[i - 12] + c][i := 0];
    assert s[i - 12] == s0[i - 12];
    forall k | 0 <= k < 64
      ensures i <= k ==> t[k] == 0
      ensures k < i ==> -WIDE <= t[k] as int <= WIDE
      ensures i - 32 <= k < i - 12 ==> -128 <= t[k] as int < 128
      ensures i - 12 <= k < (if i <= 51 then i else 51) ==> -129 <= t[k] as int <= 129
    {
      if k < i - 32 || i - 12 <= k { assert s[k] == s0[k]; }
    }
  }

  // ---- the last quotient ----

  /** With the quotient of the top limb by 16, what is left lies between -L and L. */
  lemma LastQuotient(s: seq<Int64>, q: int)
    requires |s| == 64 && Swept(s, 31) && q == s[31] as int / 16
    ensures -9 <= q <= 8 && -L < Val(s, 256) - q * L < L
  {
    hide Val, Pow;
    assert s == s[..32] + s[32..];
    ValConcat(s[..32], s[32..], 256);
    ZeroLimbs(s[32..]);
    ValSnoc(s, 256, 31);
    assert Small(s[..31]) by { SmallLimbs(s); }
    ValBounds(s[..31], 256, -129, 129);
    Weight(31);
  }

  ghost predicate Small(s: seq<Int64>) {
    forall k :: 0 <= k < |s| ==> -129 <= s[k] as int <= 129
  }

  lemma SmallLimbs(s: seq<Int64>)
    requires |s| == 64 && Swept(s, 31)
    ensures Small(s[..32]) && Small(s[..31])
  {
    forall k | 0 <= k < 32 ensures -129 <= s[k] as int <= 129 {
      if k < 20 { assert -128 <= s[k] as int < 128; }
    }
  }

  /** Subtracts the quotient times L, leaving bytes; the carry out is the sign. */
  method SubtractQuotient(x: array<Int64>) returns (carry: Int64)
    requires x.Length == 64 && Swept(x[..], 31)
    modifies x
    ensures Bytes32(x[..]) && Zero(x[..], 32)
    ensures Val(x[..], 256) + carry as int * Pow(256, 32) == old(Val(x[..], 256)) - old(x[31]) as int / 16 * L
    ensures -10 <= carry <= 10
  {
    hide Val, Pow, Order;
    ghost var v, q := Val(x[..], 256), x[31] as int / 16;
    ghost var s0 := x[..];
    SmallLimbs(s0);
    carry := 0;
    var j := 0;
    NoneYet();
    while j < 32
      invariant 0 <= j <= 32 && (j < 32 ==> x[31] == s0[31]) && -10 <= carry <= 10
      invariant Val(x[..], 256) + carry as int * Pow(256, j) == v - q * Val(Order()[..j], 256)
      invariant forall m :: 0 <= m < j ==> 0 <= x[m] as int < 256
      invariant forall m :: j <= m < 64 ==> x[m] == s0[m]
    {
      ghost var s, c := x[..], carry as int;
      assert s0[..32][j] == s0[j] && s0[..32][31] == s0[31];
      MulBound(q, Order()[j] as int, 9, 255);
      x[j] := x[j] + (carry - x[31] / 16 * Order()[j]);
      carry := x[j] / 0x100;
      x[j] := x[j] % 0x100;
      assert x[..] == s[j := x[j]];
      Column(s, j, c, q * Order()[j] as int, x[j], carry as int);
      QuotientColumn(q, j);
      j := j + 1;
    }
    OrderVal();
    assert Order()[..32] == Order();
    assert forall m :: 32 <= m < 64 ==> x[m] == s0[m];
  }

  ghost predicate Bytes32(s: seq<Int64>) {
    |s| == 64 && forall m :: 0 <= m < 32 ==> 0 <= s[m] as int < 256
  }

  lemma QuotientColumn(q: int, j: nat)
    requires j < 32
    ensures (q * Order()[j] as int) * Pow(256, j) == q * Val(Order()[..j + 1], 256) - q * Val(Order()[..j], 256)
  {
    hide Val, Pow, Order;
    ValSnoc(Order(), 256, j);
    Assoc(q, Order()[j] as int, Pow(256, j));
    Distrib(q, Val(Order()[..j + 1], 256), Val(Order()[..j], 256));
  }

  /** Adds L back when the remainder was negative. */
  method AddBack(x: array<Int64>, carry: Int64)
    requires x.Length == 64 && Bytes32(x[..]) && Zero(x[..], 32) && (carry == 0 || carry == -1)
    modifies x
    ensures Val(x[..], 256) == old(Val(x[..], 256)) - carry as int * L
    ensures Zero(x[..], 32) && Within(x[..], 0, 64, 3000)
  {
    hide Val, Order;
    var j := 0;
    ghost var s0 := x[..];
    while j < 32
      invariant 0 <= j <= 32
      invariant forall m :: 0 <= m < j ==> Plus(s0, carry, m, x[m])
      invariant forall m :: j <= m < 64 ==> x[m] == s0[m]
    {
      x[j] := x[j] - carry * Order()[j];
      j := j + 1;
    }
    AddedBack(s0, x[..], carry);
  }

  ghost predicate Plus(s: seq<Int64>, c: Int64, m: int, y: Int64)
    requires |s| == 64 && 0 <= m < 32
  {
    y as int == s[m] as int - c as int * Order()[m] as int
  }

  lemma AddedBack(s0: seq<Int64>, s: seq<Int64>, c: Int64)
    requires |s| == 64 && Bytes32(s0) && Zero(s0, 32) && (c == 0 || c == -1)
    requires forall m :: 0 <= m < 32 ==> Plus(s0, c, m, s[m])
    requires forall m :: 32 <= m < 64 ==> s[m] == s0[m]
    ensures Val(s, 256) == Val(s0, 256) - c as int * L && Zero(s, 32) && Within(s, 0, 64, 3000)
  {
    hide Val, Order;
    forall m | 0 <= m < 64
      ensures s[m] as int == s0[m] as int + if m < 32 then -(c as int) * Order()[m] as int else 0
      ensures -3000 <= s[m] as int <= 3000 && (m >= 32 ==> s[m] == 0)
    {
      if m < 32 { assert Plus(s0, c, m, s[m]); }
    }
    CombineVal(s, s0, Order(), 256, -(c as int));
    OrderVal();
  }

  lemma EmitStep(s: seq<Int64>, i: nat, x: Int64, n: nat)
    requires i + 1 < n <= |s| && x as int == s[i + 1] as int + s[i] as int / 256
    ensures Pow(256, i) * Val(s[i..n], 256)
         == (s[i] as int % 256) * Pow(256, i) + Pow(256, i + 1) * Val(s[i + 1 := x][i + 1..n], 256)
  {
    hide Val;
    var t, u := s[i..n], s[i + 1 := x][i + 1..n];
    ValTail(t, 256, 0);
    assert t[0..] == t && t[0 + 1..] == s[i + 1..n] && u == s[i + 1..n][0 := x];
    ValUpdate(s[i + 1..n], 256, 0, x);
    assert Val(t, 256) == s[i] as int % 256 + 256 * Val(u, 256);
    Distrib(Pow(256, i), s[i] as int % 256, 256 * Val(u, 256));
    Swap(Pow(256, i), 256, Val(u, 256));
    Assoc(256, Pow(256, i), Val(u, 256));
  }

  /** Writes the low 32 bytes of the value; the rest ends up in limb 32. */
  method Emit(r: array<Byte>, x: array<Int64>)
    requires r.Length >= 32 && x.Length == 64 && Zero(x[..], 32) && Within(x[..], 0, 64, 3000)
    modifies r, x
    ensures LeVal(r[..32]) + Pow(256, 32) * x[32] as int == old(Val(x[..33], 256))
    ensures forall k :: 32 <= k < r.Length ==> r[k] == old(r[k])
  {
    hide Val, Pow, LeVal;
    ghost var v, s0 := Val(x[..33], 256), x[..];
    var i := 0;
    EmitStart(r[..], x[..]);
    while i < 32
      invariant 0 <= i <= 32
      invariant LeVal(r[..i]) + Pow(256, i) * Val(x[i..33], 256) == v
      invariant -3012 <= x[i] as int <= 3012
      invariant forall m :: i < m < 64 ==> x[m] == s0[m]
      invariant forall k :: 32 <= k < r.Length ==> r[k] == old(r[k])
    {
      ghost var s, b := x[..], r[..];
      assert x[i + 1] == s0[i + 1];
      x[i + 1] := x[i + 1] + x[i] / 0x100;
      r[i] := (x[i] % 0x100) as int;
      assert x[i + 1..33] == s[i + 1 := x[i + 1]][i + 1..33] && s[i..33] == s[i..33];
      EmitStep(s, i, x[i + 1], 33);
      LeValSnoc(b[..i], r[i]);
      assert r[..i + 1] == b[..i] + [r[i]];
      i := i + 1;
    }
    assert x[32..33] == [x[32]];
    ValOne(x[32], 256);
  }

  lemma EmitStart(r: seq<Byte>, s: seq<Int64>)
    requires |s| == 64
    ensures LeVal(r[..0]) + Pow(256, 0) * Val(s[0..33], 256) == Val(s[..33], 256)
  {
    assert s[0..33] == s[..33];
  }

  /** The residue in [0, L) of the 64-limb number x. */
  method ModL(r: array<Byte>, x: array<Int64>)
    requires r.Length >= 32 && x.Length == 64 && Within(x[..], 0, 64, WIDE / 2)
    modifies r, x
    ensures LeVal(r[..32]) == old(Val(x[..], 256)) % L
    ensures forall k :: 32 <= k < r.Length ==> r[k] == old(r[k])
  {
    hide Val, Pow, LeVal;
    ghost var v, m := Val(x[..], 256), 0;
    var i := 63;
    while i >= 32
      modifies x
      invariant 31 <= i <= 63 && Swept(x[..], i)
      invariant Val(x[..], 256) == v - m * L
    {
      m := m + x[i] as int * Pow(256, i - 32) * 16;
      Distrib(L, m, 0);
      Sweep(x, i);
      i := i - 1;
    }
    LastQuotient(x[..], x[31] as int / 16);
    m := m + x[31] as int / 16;
    var carry := SubtractQuotient(x);
    Sign(x[..], carry as int, v - m * L);
    AddBack(x, carry);
    Low33(x[..]);
    ghost var w := Val(x[..], 256);
    Emit(r, x);
    LeBound(r[..32]);
    Residue(v, m, carry as int, LeVal(r[..32]), x[32] as int);
  }

  lemma Low33(s: seq<Int64>)
    requires |s| == 64 && Zero(s, 32)
    ensures Val(s[..33], 256) == Val(s, 256)
  {
    hide Val, Pow;
    assert s == s[..33] + s[33..];
    ValConcat(s[..33], s[33..], 256);
    ZeroLimbs(s[33..]);
  }

  /** The carry out of the bytes is -1 for a negative remainder and 0 otherwise. */
  lemma Sign(s: seq<Int64>, c: int, t: int)
    requires Bytes32(s) && Zero(s, 32) && Val(s, 256) + c * Pow(256, 32) == t && -L < t < L
    ensures c == if t < 0 then -1 else 0
  {
    hide Val, Pow;
    assert s == s[..32] + s[32..];
    ValConcat(s[..32], s[32..], 256);
    ZeroLimbs(s[32..]);
    DigitsBound(s[..32], 256);
    Weight(32);
  }

  lemma Residue(v: int, m: int, c: int, b: int, top: int)
    requires -L < v - m * L < L && c == (if v - m * L < 0 then -1 else 0)
    requires 0 <= b < Pow(256, 32) && b + Pow(256, 32) * top == v - m * L - c * Pow(256, 32) - c * L
    ensures b == v % L
  {
    hide Pow;
    Weight(32);
    var w := Pow(256, 32);
    assert b == (v - m * L - c * L) - w * (c + top);
    Remainder(v, L, m + c, b);
  }

  // ---- callers ----

  /** Bytes and limbs of the same digits have the same value. */
  lemma {:induction false} BytesVal(b: seq<Byte>, s: seq<Int64>)
    requires |b| == |s| && forall k :: 0 <= k < |b| ==> s[k] as int == b[k]
    ensures Val(s, 256) == LeVal(b)
    decreases |b|
  {
    if b != [] { BytesVal(b[1..], s[1..]); }
  }

  /** Replaces a 64-byte number by its residue. */
  method Reduce(r: array<Byte>)
    requires r.Length == 64
    modifies r
    ensures LeVal(r[..32]) == old(LeVal(r[..])) % L && forall k :: 32 <= k < 64 ==> r[k] == 0
  {
    hide Val, LeVal;
    var x := new Int64[64];
    var i := 0;
    while i < 64
      modifies x
      invariant 0 <= i <= 64 && r[..] == old(r[..]) && forall k :: 0 <= k < i ==> x[k] as int == r[k]
    {
      x[i] := r[i] as Int64;
      i := i + 1;
    }
    BytesVal(r[..], x[..]);
    ghost var s := x[..];
    assert Within(s, 0, 64, WIDE / 2);
    i := 0;
    while i < 64
      modifies r
      invariant 0 <= i <= 64 && x[..] == s && forall k :: 0 <= k < i ==> r[k] == 0
    {
      r[i] := 0;
      i := i + 1;
    }
    ModL(r, x);
  }

  lemma ScalarStep(s: seq<Int64>, h: int, i: nat, az: seq<Byte>, j: nat, y: Int64)
    requires i + j < |s| && j < |az| && y as int == s[i + j] as int + h * az[j]
    ensures Val(s[i + j := y], 256) == Val(s, 256) + (h * Pow(256, i)) * (LeVal(az[..j + 1]) - LeVal(az[..j]))
  {
    hide Val, Pow, LeVal;
    ValUpdate(s, 256, i + j, y);
    assert az[..j + 1] == az[..j] + [az[j]];
    LeValSnoc(az[..j], az[j]);
    PowAdd(256, i, j);
    var p, q := Pow(256, i), Pow(256, j);
    Assoc(h, az[j], p * q);
    Swap(az[j], p, q);
    Assoc(h, p, az[j] * q);
  }

  /** Adds h 256^i times the key to x. */
  method ScalarRow(x: array<Int64>, h: Byte, az: array<Byte>, i: nat)
    requires x.Length == 64 && az.Length >= 32 && i < 32 && Within(x[..], 0, 64, 255 + i * 65025)
    modifies x
    ensures Within(x[..], 0, 64, 255 + (i + 1) * 65025)
    ensures Val(x[..], 256) == old(Val(x[..], 256)) + (h * Pow(256, i)) * LeVal(az[..32])
  {
    hide Val, Pow, LeVal;
    ghost var w: int := h * Pow(256, i);
    ghost var a := az[..32];
    var j := 0;
    Nothing(a);
    while j < 32
      invariant 0 <= j <= 32 && az[..32] == a
      invariant Val(x[..], 256) == old(Val(x[..], 256)) + w * LeVal(a[..j])
      invariant Within(x[..], 0, 64, 255 + (i + 1) * 65025)
      invariant forall k :: i + j <= k < 64 ==> x[k] == old(x[k])
    {
      assert x[i + j] == old(x[..])[i + j] && az[j] == a[j];
      MulBound(h, az[j], 255, 255);
      ghost var s := x[..];
      x[i + j] := x[i + j] + h as Int64 * az[j] as Int64;
      assert x[..] == s[i + j := x[i + j]];
      ScalarStep(s, h, i, a, j, x[i + j]);
      Distrib(w, LeVal(a[..j + 1]), LeVal(a[..j]));
      j := j + 1;
    }
    assert a[..32] == a;
  }

  lemma Nothing(a: seq<Byte>)
    ensures LeVal(a[..0]) == 0
  {
  }

  /** The scalar of a signature: nonce + hram * key, reduced. */
  method SignScalar(sig: array<Byte>, nonce: array<Byte>, hram: array<Byte>, az: array<Byte>)
    requires sig.Length == nonce.Length == 32 && hram.Length >= 32 && az.Length >= 32
    modifies sig
    ensures LeVal(sig[..]) == (old(LeVal(nonce[..])) + old(LeVal(hram[..32])) * old(LeVal(az[..32]))) % L
  {
    hide Val, Pow, LeVal;
    var x := new Int64[64](k reads nonce requires nonce.Length == 32 => if 0 <= k < 32 then nonce[k] as Int64 else 0);
    NonceVal(nonce[..], x[..]);
    ghost var n, h, a := LeVal(nonce[..]), hram[..32], LeVal(az[..32]);
    var i: nat := 0;
    Nothing(h);
    while i < 32
      modifies x
      invariant i <= 32 && hram[..32] == h && LeVal(az[..32]) == a
      invariant Within(x[..], 0, 64, 255 + i * 65025)
      invariant Val(x[..], 256) == n + LeVal(h[..i]) * a
    {
      assert h[..i + 1] == h[..i] + [h[i]] && hram[i] == h[i];
      LeValSnoc(h[..i], h[i]);
      Distrib(a, LeVal(h[..i]), h[i] * Pow(256, i));
      ScalarRow(x, hram[i], az, i);
      i := i + 1;
    }
    assert h[..32] == h;
    ModL(sig, x);
    assert sig[..32] == sig[..];
  }

  lemma NonceVal(b: seq<Byte>, s: seq<Int64>)
    requires |b| == 32 && |s| == 64 && forall k :: 0 <= k < 64 ==> s[k] as int == if k < 32 then b[k] else 0
    ensures Val(s, 256) == LeVal(b) && Within(s, 0, 64, 255)
  {
    hide Val, Pow, LeVal;
    assert s == s[..32] + s[32..];
    ValConcat(s[..32], s[32..], 256);
    BytesVal(b, s[..32]);
    ZeroLimbs(s[32..]);
  }
}
