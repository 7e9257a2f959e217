/** Scalar multiplication: the 256 steps of double-and-add over the bits of a scalar. */
module Ladder25519 {
  import opened Bytes
  import opened Limbs
  import opened Field25519
  import opened Packing25519
  import opened Curve25519
  import opened Points25519

  // ---- bits of a scalar ----

  function Shift(b: int, k: int): int
    requires 0 <= k < 8
  {
    if k == 0 then b else if k == 1 then b / 2 else if k == 2 then b / 4 else if k == 3 then b / 8
    else if k == 4 then b / 16 else if k == 5 then b / 32 else if k == 6 then b / 64 else b / 128
  }

  /** Bit i of a byte string, counted from its first byte's lowest bit. */
  function Bit(s: seq<Byte>, i: int): (b: int)
    requires 0 <= i < 8 * |s|
    ensures b == 0 || b == 1
  {
    Shift(s[i / 8], i % 8) % 2
  }

  /** The number formed by bit i and those above it. */
  function High(s: seq<Byte>, i: int): nat
    requires 0 <= i <= 8 * |s|
    decreases 8 * |s| - i
  {
    if i == 8 * |s| then 0 else 2 * High(s, i + 1) + Bit(s, i)
  }

  lemma {:induction false} HighBytes(s: seq<Byte>, j: nat)
    requires j <= |s|
    ensures High(s, 8 * j) == LeVal(s[j..])
    decreases |s| - j
  {
    if j < |s| {
      HighBytes(s, j + 1);
      HighByte(s, j);
      assert s[j..][1..] == s[j + 1..];
    }
  }

  lemma HighStep(s: seq<Byte>, j: nat, k: int)
    requires j < |s| && 0 <= k < 8
    ensures High(s, 8 * j + k) == 2 * High(s, 8 * j + k + 1) + Shift(s[j], k) % 2
  {
    hide Shift;
    assert (8 * j + k) / 8 == j && (8 * j + k) % 8 == k;
  }

  lemma ShiftHalf(b: Byte, k: int)
    requires 0 <= k < 8
    ensures Shift(b, k) == (if k < 7 then 2 * Shift(b, k + 1) else 0) + Shift(b, k) % 2
    ensures Shift(b, 0) == b
  {
  }

  lemma HighByte(s: seq<Byte>, j: nat)
    requires j < |s|
    ensures High(s, 8 * j) == 256 * High(s, 8 * (j + 1)) + s[j]
  {
    hide High, Shift;
    ShiftHalf(s[j], 0);
    ShiftHalf(s[j], 1);
    ShiftHalf(s[j], 2);
    ShiftHalf(s[j], 3);
    ShiftHalf(s[j], 4);
    ShiftHalf(s[j], 5);
    ShiftHalf(s[j], 6);
    ShiftHalf(s[j], 7);
    HighStep(s, j, 0);
    HighStep(s, j, 1);
    HighStep(s, j, 2);
    HighStep(s, j, 3);
    HighStep(s, j, 4);
    HighStep(s, j, 5);
    HighStep(s, j, 6);
    HighStep(s, j, 7);
  }

  // ---- the ladder ----

  method CopyPoint(r: Point, p: Point, ghost v: Ext)
    requires r.Apart() && p.Apart() && r.Repr() !! p.Repr() && p.Holds(v)
    modifies r.x, r.y, r.z, r.t
    ensures r.Holds(v)
  {
    hide Fe;
    CopyGf(r.x, p.x);
    CopyGf(r.y, p.y);
    CopyGf(r.z, p.z);
    CopyGf(r.t, p.t);
  }

  method SelPoint(p: Point, q: Point, b: Int64, ghost v: Ext, ghost w: Ext)
    requires p.Apart() && q.Apart() && p.Repr() !! q.Repr() && p.Holds(v) && q.Holds(w) && (b == 0 || b == 1)
    modifies p.x, p.y, p.z, p.t, q.x, q.y, q.z, q.t
    ensures p.Holds(if b == 1 then w else v)
  {
    hide Fe;
    Sel25519(p.x, q.x, b);
    Sel25519(p.y, q.y, b);
    Sel25519(p.z, q.z, b);
    Sel25519(p.t, q.t, b);
  }

  lemma SmallHolds(s: seq<Int64>, n: Int64)
    requires |s| == 16 && s[0] == n && (n == 0 || n == 1) && forall i :: 1 <= i < 16 ==> s[i] == 0
    ensures Fe(s, n as int, LIMB)
  {
    var u := s[0 := 0];
    ZeroVal(u);
    ValUpdate(u, B, 0, n);
    PowZero();
    assert u[0 := n] == s;
    CongBy(Val(s, B), n as int, 0);
  }

  method SetSmall(r: array<Int64>, n: Int64)
    requires r.Length == 16 && (n == 0 || n == 1)
    modifies r
    ensures Fe(r[..], n as int, LIMB)
  {
    hide Fe;
    forall i | 0 <= i < 16 {
      r[i] := if i == 0 then n else 0;
    }
    SmallHolds(r[..], n);
  }

  method SetNeutral(p: Point)
    requires p.Apart()
    modifies p.x, p.y, p.z, p.t
    ensures p.Holds(NEUTRAL)
  {
    hide Fe;
    SetSmall(p.x, 0);
    SetSmall(p.y, 1);
    SetSmall(p.z, 1);
    SetSmall(p.t, 0);
  }

  /** p := 2p, then plus q when the bit is set. */
  method LadderStep(p: Point, q: Point, tmp: Point, b: Int64, ghost v: Ext, ghost w: Ext)
    requires p.Apart() && q.Apart() && tmp.Apart() && p.Repr() !! q.Repr() && p.Repr() !! tmp.Repr() && q.Repr() !! tmp.Repr()
    requires p.Holds(v) && q.Holds(w) && (b == 0 || b == 1)
    modifies p.x, p.y, p.z, p.t, tmp.x, tmp.y, tmp.z, tmp.t
    ensures p.Holds(if b == 1 then Plus(Plus(v, v, D()), w, D()) else Plus(v, v, D())) && q.Holds(w)
  {
    hide Fe, Plus, D;
    CopyPoint(tmp, p, v);
    AddPoints(p, tmp, v, v);
    CopyPoint(tmp, p, Plus(v, v, D()));
    AddPoints(tmp, q, Plus(v, v, D()), w);
    SelPoint(p, tmp, b, Plus(v, v, D()), Plus(Plus(v, v, D()), w, D()));
  }

  /** p := n q for the 256-bit little-endian scalar n, by double-and-add. */
  method ScalarMult(p: Point, s: array<Byte>, q: Point, ghost w: Ext)
    requires p.Apart() && q.Apart() && p.Repr() !! q.Repr() && s.Length == 32 && s !in p.Repr()
    requires q.Holds(w)
    modifies p.x, p.y, p.z, p.t
    ensures p.Holds(Times(LeVal(s[..]), 256, w, D()))
  {
    hide Fe, Plus, Times, LeVal, High, D;
    SetNeutral(p);
    var tmp := new Point();
    ghost var bits, steps: nat := s[..], 0;
    var i := 255;
    StartLadder(bits, w);
    while i >= 0
      modifies p.x, p.y, p.z, p.t, tmp.x, tmp.y, tmp.z, tmp.t
      invariant -1 <= i <= 255 && steps == 255 - i
      invariant p.Holds(Times(High(bits, i + 1), steps, w, D())) && q.Holds(w)
    {
      var b := (Shift(s[i / 8], i % 8) % 2) as Int64;
      LadderStep(p, q, tmp, b, Times(High(bits, i + 1), steps, w, D()), w);
      TimesStep(bits, i, steps, w);
      steps := steps + 1;
      i := i - 1;
    }
    HighBytes(bits, 0);
    assert bits[0..] == bits;
  }

  lemma StartLadder(s: seq<Byte>, w: Ext)
    requires |s| == 32
    ensures Times(High(s, 256), 0, w, D()) == NEUTRAL
  {
  }

  lemma TimesStep(s: seq<Byte>, i: int, k: nat, w: Ext)
    requires 0 <= i < 8 * |s|
    ensures var d := Plus(Times(High(s, i + 1), k, w, D()), Times(High(s, i + 1), k, w, D()), D());
            Times(High(s, i), k + 1, w, D()) == if Bit(s, i) == 1 then Plus(d, w, D()) else d
  {
    hide Plus, D;
    var n := High(s, i);
    assert n / 2 == High(s, i + 1) && n % 2 == Bit(s, i);
  }

  /** p := n B for the base point B of section 5.1 of RFC 8032. */
  method ScalarMultBase(p: Point, s: array<Byte>)
    requires p.Apart() && s.Length == 32 && s !in p.Repr()
    modifies p.x, p.y, p.z, p.t
    ensures p.Holds(Times(LeVal(s[..]), 256, Base(), D()))
  {
    hide Fe, Times, LeVal, D;
    var bp := new Point();
    var x := new Int64[16](i requires 0 <= i < 16 => BaseX()[i]);
    var y := new Int64[16](i requires 0 <= i < 16 => BaseY()[i]);
    assert x[..] == BaseX() && y[..] == BaseY();
    BaseHolds();
    CopyGf(bp.x, x);
    CopyGf(bp.y, y);
    SetSmall(bp.z, 1);
    FeWide(x[..], BASE_X);
    FeWide(y[..], BASE_Y);
    MulFe(bp.t, x, y, BASE_X, BASE_Y);
    ScalarMult(p, s, bp, Base());
  }

  ghost function Base(): Ext {
    Ext(BASE_X, BASE_Y, 1, BASE_X * BASE_Y)
  }

  lemma BaseHolds()
    ensures Fe(BaseX(), BASE_X, LIMB) && Fe(BaseY(), BASE_Y, LIMB)
  {
    hide Val;
    ConstantsAre();
  }

  /** Every multiple that the ladder computes is on the curve. */
  lemma BaseMultiplesOnCurve(n: nat)
    ensures OnCurve(Times(n, 256, Base(), D()), D())
  {
    hide OnCurve, Times, D;
    DomainParameters();
    TimesOnCurve(n, 256, Base(), D());
  }

  /** What the ladder leaves for 32 bytes is the sum of as many copies of the point as they count. */
  lemma LadderAdds(s: seq<Byte>, q: Ext) returns (e: Sum)
    requires |s| == 32
    ensures Copies(e) == LeVal(s) && Added(e, q, D()) == Times(LeVal(s), 256, q, D())
  {
    hide Times, D, LeVal, Pow;
    BitsOf(s);
    e := TimesAdds(LeVal(s), 256, q, D());
  }

  lemma {:induction false} BitsOf(s: seq<Byte>)
    ensures LeVal(s) < Pow(2, 8 * |s|)
    decreases |s|
  {
    if s != [] {
      BitsOf(s[1..]);
      var n := 8 * |s[1..]|;
      PowAdd(2, 8, n);
      assert Pow(2, 8) == 256;
    } else {
      assert Pow(2, 0) == 1;
    }
  }
}
