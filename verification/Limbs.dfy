/** Numbers as sequences of 64-bit limbs in some base, least significant first. */
module Limbs {

  newtype Int64 = x: int | -0x8000_0000_0000_0000 <= x < 0x8000_0000_0000_0000

  function Pow(b: int, n: nat): int {
    if n == 0 then 1 else b * Pow(b, n - 1)
  }

  function Val(s: seq<Int64>, b: int): int {
    if s == [] then 0 else s[0] as int + b * Val(s[1..], b)
  }

  lemma {:induction false} PowAdd(b: int, m: nat, n: nat)
    ensures Pow(b, m + n) == Pow(b, m) * Pow(b, n)
    decreases m
  {
    if m > 0 {
      PowAdd(b, m - 1, n);
      Assoc(b, Pow(b, m - 1), Pow(b, n));
    }
  }

  lemma Assoc(x: int, y: int, z: int)
    ensures (x * y) * z == x * (y * z)
  {
  }

  lemma Distrib(x: int, y: int, z: int)
    ensures x * (y + z) == x * y + x * z
    ensures (y + z) * x == y * x + z * x
    ensures x * (y - z) == x * y - x * z
  {
  }

  /** Changing one limb changes the value by that much at its place. */
  lemma {:induction false} ValUpdate(s: seq<Int64>, b: int, i: nat, x: Int64)
    requires i < |s|
    ensures Val(s[i := x], b) == Val(s, b) + (x as int - s[i] as int) * Pow(b, i)
    decreases i
  {
    var t := s[i := x];
    if i == 0 {
      assert t[1..] == s[1..];
    } else {
      assert t[1..] == s[1..][i - 1 := x];
      ValUpdate(s[1..], b, i - 1, x);
      var d, p := x as int - s[i] as int, Pow(b, i - 1);
      Distrib(b, Val(s[1..], b), d * p);
      Assoc(b, d, p);
      Assoc(d, b, p);
    }
  }

  /** Value of a concatenation. */
  lemma {:induction false} ValConcat(s: seq<Int64>, t: seq<Int64>, b: int)
    ensures Val(s + t, b) == Val(s, b) + Pow(b, |s|) * Val(t, b)
    decreases |s|
  {
    if s == [] {
      assert s + t == t;
    } else {
      assert (s + t)[1..] == s[1..] + t;
      ValConcat(s[1..], t, b);
      Distrib(b, Val(s[1..], b), Pow(b, |s| - 1) * Val(t, b));
      Assoc(b, Pow(b, |s| - 1), Val(t, b));
    }
  }

  /** Splitting off the last limb. */
  lemma ValSnoc(s: seq<Int64>, b: int, i: nat)
    requires i < |s|
    ensures Val(s[..i + 1], b) == Val(s[..i], b) + s[i] as int * Pow(b, i)
  {
    assert s[..i + 1] == s[..i] + [s[i]];
    ValConcat(s[..i], [s[i]], b);
    ValOne(s[i], b);
  }

  lemma ValOne(x: Int64, b: int)
    ensures Val([x], b) == x as int
  {
    assert [x][1..] == [];
  }

  /** Digits in range give a value in range. */
  lemma {:induction false} ValBounds(s: seq<Int64>, b: int, lo: int, hi: int)
    requires b > 1 && lo <= 0 <= hi && forall i :: 0 <= i < |s| ==> lo <= s[i] as int <= hi
    ensures lo * Pow(b, |s|) <= (b - 1) * Val(s, b) + lo
    ensures (b - 1) * Val(s, b) + hi <= hi * Pow(b, |s|)
    decreases |s|
  {
    if s != [] {
      ValBounds(s[1..], b, lo, hi);
      var v, p := Val(s[1..], b), Pow(b, |s| - 1);
      BoundStep(b, s[0] as int, v, p, lo, hi);
    }
  }

  lemma BoundStep(b: int, x: int, v: int, p: int, lo: int, hi: int)
    requires b > 1 && lo <= x <= hi
    requires lo * p <= (b - 1) * v + lo && (b - 1) * v + hi <= hi * p
    ensures lo * (b * p) <= (b - 1) * (x + b * v) + lo
    ensures (b - 1) * (x + b * v) + hi <= hi * (b * p)
  {
    var w := (b - 1) * v;
    MulMono(b, lo * p, w + lo);
    MulMono(b, w + hi, hi * p);
    MulMono(b - 1, lo, x);
    MulMono(b - 1, x, hi);
    Distrib(b - 1, x, b * v);
    Swap(b - 1, b, v);
    Swap(b, lo, p);
    Swap(b, hi, p);
    Distrib(b, w, lo);
    Distrib(b, w, hi);
  }

  lemma Swap(x: int, y: int, z: int)
    ensures x * (y * z) == y * (x * z)
  {
  }

  lemma MulMono(x: int, y: int, z: int)
    requires x >= 0 && y <= z
    ensures x * y <= x * z
  {
  }

  lemma {:induction false} PowPos(b: int, n: nat)
    requires b > 0
    ensures Pow(b, n) > 0
  {
    if n > 0 {
      PowPos(b, n - 1);
      MulMono(b, 1, Pow(b, n - 1));
    }
  }

  /** Limbs that are all digits of the base: the value is that of a number below b^n. */
  lemma DigitsBound(s: seq<Int64>, b: int)
    requires b > 1 && forall i :: 0 <= i < |s| ==> 0 <= s[i] as int < b
    ensures 0 <= Val(s, b) < Pow(b, |s|)
  {
    ValBounds(s, b, 0, b - 1);
    var v, p := Val(s, b), Pow(b, |s|);
    assert (b - 1) * v + (b - 1) <= (b - 1) * p && 0 <= (b - 1) * v;
    CancelLe(b - 1, v, p);
  }

  lemma CancelLe(m: int, v: int, p: int)
    requires m > 0 && m * v + m <= m * p && 0 <= m * v
    ensures 0 <= v < p
  {
    if v >= p { MulMono(m, p, v); }
    if v < 0 { MulMono(m, v, -1); }
  }

  /** Digit sequences of one length are determined by their value. */
  lemma {:induction false} DigitsUnique(s: seq<Int64>, t: seq<Int64>, b: int)
    requires b > 1 && |s| == |t| && Val(s, b) == Val(t, b)
    requires forall i :: 0 <= i < |s| ==> 0 <= s[i] as int < b && 0 <= t[i] as int < b
    ensures s == t
    decreases |s|
  {
    if s != [] {
      var v, w := Val(s[1..], b), Val(t[1..], b);
      SameDigit(b, s[0] as int, t[0] as int, v, w);
      DigitsUnique(s[1..], t[1..], b);
      assert s == [s[0]] + s[1..] && t == [t[0]] + t[1..];
    }
  }

  lemma SameDigit(b: int, x: int, y: int, v: int, w: int)
    requires b > 1 && 0 <= x < b && 0 <= y < b && x + b * v == y + b * w
    ensures x == y && v == w
  {
    assert b * (v - w) == y - x by { Distrib(b, v, w); }
    if v > w { MulMono(b, 1, v - w); }
    if v < w { MulMono(b, v - w, -1); }
  }

  /** Limbwise s + c * t, where t may be shorter. */
  ghost predicate Combines(u: seq<Int64>, s: seq<Int64>, t: seq<Int64>, c: int) {
    |u| == |s| >= |t| && forall k :: 0 <= k < |s| ==> u[k] as int == s[k] as int + if k < |t| then c * t[k] as int else 0
  }

  lemma {:induction false} CombineVal(u: seq<Int64>, s: seq<Int64>, t: seq<Int64>, b: int, c: int)
    requires Combines(u, s, t, c)
    ensures Val(u, b) == Val(s, b) + c * Val(t, b)
    decreases |s|
  {
    if t == [] {
      assert u == s;
    } else {
      var v, w := Val(s[1..], b), Val(t[1..], b);
      assert Combines(u[1..], s[1..], t[1..], c);
      CombineVal(u[1..], s[1..], t[1..], b, c);
      Distrib(b, v, c * w);
      Swap(b, c, w);
      Distrib(c, t[0] as int, b * w);
    }
  }

  lemma MulBound(x: int, y: int, m: int, n: int)
    requires -m <= x <= m && -n <= y <= n
    ensures -(m * n) <= x * y <= m * n
  {
    if x >= 0 {
      MulMono(x, y, n);
      MulMono(x, -n, y);
      MulMono(n, x, m);
    } else {
      MulMono(-x, y, n);
      MulMono(-x, -n, y);
      MulMono(n, -x, m);
    }
  }

  function Horner(x: Int64, b: int, v: int): int {
    x as int + b * v
  }

  lemma ValTail(s: seq<Int64>, b: int, i: nat)
    requires i < |s|
    ensures Val(s[i..], b) == Horner(s[i], b, Val(s[i + 1..], b))
  {
    assert s[i..][1..] == s[i + 1..];
  }

  /** Eight limbs written out. */
  function Eight(s: seq<Int64>, b: int): int
    requires |s| == 8
  {
    Horner(s[0], b, Horner(s[1], b, Horner(s[2], b, Horner(s[3], b,
    Horner(s[4], b, Horner(s[5], b, Horner(s[6], b, s[7] as int)))))))
  }

  lemma EightVal(s: seq<Int64>, b: int)
    requires |s| == 8
    ensures Val(s, b) == Eight(s, b)
  {
    hide Val, Horner;
    ValTail(s, b, 0);
    ValTail(s, b, 1);
    ValTail(s, b, 2);
    ValTail(s, b, 3);
    ValTail(s, b, 4);
    ValTail(s, b, 5);
    ValTail(s, b, 6);
    assert s[7..] == [s[7]] && s[0..] == s;
    ValOne(s[7], b);
  }
}
