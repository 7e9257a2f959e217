/** Points of the curve held in limb arrays: addition and the two scalar ladders. */
module Points25519 {
  import opened Limbs
  import opened Field25519
  import opened Curve25519

  /** The limbs stay within m and stand for v modulo P. */
  ghost predicate Fe(s: seq<Int64>, v: int, m: int) {
    |s| == 16 && Bounded(s, m) && Cong(Val(s, B), v)
  }

  /** Bound on the limbs of a point's coordinates. */
  const LIMB := 0x2_0000

  lemma FeTight(s: seq<Int64>, x: int)
    requires Tight(s) && Cong(Val(s, B), x)
    ensures Fe(s, x, LIMB)
  {
  }

  method MulFe(o: array<Int64>, a: array<Int64>, b: array<Int64>, ghost x: int, ghost y: int)
    requires o.Length == a.Length == b.Length == 16
    requires Fe(a[..], x, FACTOR_MAX) && Fe(b[..], y, FACTOR_MAX)
    modifies o
    ensures Fe(o[..], x * y, LIMB)
  {
    hide Val, Cong, Tight, Bounded;
    ghost var v, w := Val(a[..], B), Val(b[..], B);
    Mul(o, a, b);
    CongMul(v, x, w, y);
    CongTrans(Val(o[..], B), v * w, x * y);
    FeTight(o[..], x * y);
  }

  method AddFe(o: array<Int64>, a: array<Int64>, b: array<Int64>, ghost x: int, ghost y: int, ghost m: int)
    requires o.Length == a.Length == b.Length == 16 && m <= FACTOR_MAX
    requires Fe(a[..], x, m) && Fe(b[..], y, m)
    modifies o
    ensures Fe(o[..], x + y, 2 * m)
  {
    hide Val, Cong;
    ghost var v, w := Val(a[..], B), Val(b[..], B);
    Add(o, a, b);
    CongAdd(v, x, w, y);
  }

  method SubFe(o: array<Int64>, a: array<Int64>, b: array<Int64>, ghost x: int, ghost y: int, ghost m: int)
    requires o.Length == a.Length == b.Length == 16 && m <= FACTOR_MAX
    requires Fe(a[..], x, m) && Fe(b[..], y, m)
    modifies o
    ensures Fe(o[..], x - y, 2 * m)
  {
    hide Val, Cong;
    ghost var v, w := Val(a[..], B), Val(b[..], B);
    Sub(o, a, b);
    CongAdd(v, x, w, y);
  }

  // ---- constants ----

  function TwoD(): seq<Int64> {
    [0xf159, 0x26b2, 0x9b94, 0xebd6, 0xb156, 0x8283, 0x149a, 0x00e0,
     0xd130, 0xeef3, 0x80f2, 0x198e, 0xfce7, 0x56df, 0xd9dc, 0x2406]
  }

  function BaseX(): seq<Int64> {
    [0xd51a, 0x8f25, 0x2d60, 0xc956, 0xa7b2, 0x9525, 0xc760, 0x692c,
     0xdc5c, 0xfdd6, 0xe231, 0xc0a4, 0x53fe, 0xcd6e, 0x36d3, 0x2169]
  }

  function BaseY(): seq<Int64> {
    [0x6658, 0x6666, 0x6666, 0x6666, 0x6666, 0x6666, 0x6666, 0x6666,
     0x6666, 0x6666, 0x6666, 0x6666, 0x6666, 0x6666, 0x6666, 0x6666]
  }

  const BASE_X := 0x2169_36d3_cd6e_53fe_c0a4_e231_fdd6_dc5c_692c_c760_9525_a7b2_c956_2d60_8f25_d51a
  const BASE_Y := 0x6666_6666_6666_6666_6666_6666_6666_6666_6666_6666_6666_6666_6666_6666_6666_6658

  /** The value of sixteen limbs written out. */
  lemma Sixteen(s: seq<Int64>)
    requires |s| == 16
    ensures Val(s, B) == Eight(s[..8], B) + 0x1_0000_0000_0000_0000_0000_0000_0000_0000 * Eight(s[8..], B)
  {
    hide Val, Pow;
    EightVal(s[..8], B);
    EightVal(s[8..], B);
    assert s == s[..8] + s[8..];
    ValConcat(s[..8], s[8..], B);
    Radix8();
  }

  lemma Radix8()
    ensures Pow(B, 8) == 0x1_0000_0000_0000_0000_0000_0000_0000_0000
  {
    assert Pow(B, 1) == B;
    PowAdd(B, 1, 1);
    PowAdd(B, 2, 2);
    PowAdd(B, 4, 4);
  }

  /** The value of d; nothing else needs more than its limbs. */
  lemma DValue()
    ensures D() == 0x5203_6cee_2b6f_fe73_8cc7_4079_7779_e898_0070_0a4d_4141_d8ab_75eb_4dca_1359_78a3
  {
    hide Val;
    Sixteen(CurveD());
  }

  lemma ConstantsAre()
    ensures Val(TwoD(), B) == 2 * D() - P && Val(BaseX(), B) == BASE_X && Val(BaseY(), B) == BASE_Y
  {
    hide Val, D;
    DValue();
    Sixteen(TwoD());
    Sixteen(BaseX());
    Sixteen(BaseY());
  }

  /** d is -121665/121666, and the base point has y = 4/5, lies on the curve, and is the one
      of the two such points whose x is even. */
  lemma DomainParameters()
    ensures Cong(121666 * D(), -121665) && Cong(5 * BASE_Y, 4)
    ensures OnCurve(Ext(BASE_X, BASE_Y, 1, BASE_X * BASE_Y), D())
    ensures 0 <= BASE_X < P && BASE_X % 2 == 0 && 0 <= BASE_Y < P
  {
    hide D;
    DValue();
  }

  // ---- points in memory ----

  class Point {
    const x: array<Int64>
    const y: array<Int64>
    const z: array<Int64>
    const t: array<Int64>

    constructor ()
      ensures Apart() && fresh(x) && fresh(y) && fresh(z) && fresh(t)
    {
      x, y := new Int64[16], new Int64[16];
      z, t := new Int64[16], new Int64[16];
    }

    ghost predicate Apart() {
      && x.Length == y.Length == z.Length == t.Length == 16
      && x != y && x != z && x != t && y != z && y != t && z != t
    }

    ghost function Repr(): set<object> {
      {x, y, z, t}
    }

    /** The four coordinates stand for those of v. */
    ghost predicate Holds(v: Ext)
      reads x, y, z, t
    {
      Fe(x[..], v.x, LIMB) && Fe(y[..], v.y, LIMB) && Fe(z[..], v.z, LIMB) && Fe(t[..], v.t, LIMB)
    }
  }

  lemma FeWide(s: seq<Int64>, x: int)
    requires Fe(s, x, LIMB)
    ensures Fe(s, x, 2 * LIMB) && Fe(s, x, FACTOR_MAX)
  {
  }

  lemma FeWide2(s: seq<Int64>, x: int)
    requires Fe(s, x, 2 * LIMB)
    ensures Fe(s, x, FACTOR_MAX)
  {
  }

  lemma FeWide4(s: seq<Int64>, x: int)
    requires Fe(s, x, 4 * LIMB)
    ensures Fe(s, x, FACTOR_MAX)
  {
  }

  /** (y1 - x1)(y2 - x2) into a and (x1 + y1)(x2 + y2) into b. */
  method Sums(p: Point, q: Point, ghost v: Ext, ghost w: Ext) returns (a: array<Int64>, b: array<Int64>)
    requires p.Apart() && q.Apart() && p.Holds(v) && q.Holds(w)
    ensures fresh(a) && fresh(b) && a != b && a.Length == b.Length == 16
    ensures Fe(a[..], (v.y - v.x) * (w.y - w.x), LIMB) && Fe(b[..], (v.x + v.y) * (w.x + w.y), LIMB)
  {
    hide Fe;
    a, b := new Int64[16], new Int64[16];
    var h := new Int64[16];
    SubFe(a, p.y, p.x, v.y, v.x, LIMB);
    SubFe(h, q.y, q.x, w.y, w.x, LIMB);
    FeWide2(a[..], v.y - v.x);
    FeWide2(h[..], w.y - w.x);
    MulFe(a, a, h, v.y - v.x, w.y - w.x);
    AddFe(b, p.x, p.y, v.x, v.y, LIMB);
    AddFe(h, q.x, q.y, w.x, w.y, LIMB);
    FeWide2(b[..], v.x + v.y);
    FeWide2(h[..], w.x + w.y);
    MulFe(b, b, h, v.x + v.y, w.x + w.y);
  }

  /** 2 d t1 t2 into c and 2 z1 z2 into d. */
  method Products(p: Point, q: Point, ghost v: Ext, ghost w: Ext) returns (c: array<Int64>, d: array<Int64>)
    requires p.Apart() && q.Apart() && p.Holds(v) && q.Holds(w)
    ensures fresh(c) && fresh(d) && c != d && c.Length == d.Length == 16
    ensures Fe(c[..], v.t * w.t * (2 * D()), LIMB) && Fe(d[..], v.z * w.z + v.z * w.z, 2 * LIMB)
  {
    hide Fe, D;
    c, d := new Int64[16], new Int64[16];
    var d2 := new Int64[16](i requires 0 <= i < 16 => TwoD()[i]);
    assert d2[..] == TwoD();
    TwoDHolds();
    FeWide(p.t[..], v.t);
    FeWide(q.t[..], w.t);
    MulFe(c, p.t, q.t, v.t, w.t);
    FeWide(c[..], v.t * w.t);
    MulFe(c, c, d2, v.t * w.t, 2 * D());
    FeWide(p.z[..], v.z);
    FeWide(q.z[..], w.z);
    MulFe(d, p.z, q.z, v.z, w.z);
    AddFe(d, d, d, v.z * w.z, v.z * w.z, LIMB);
  }

  lemma TwoDHolds()
    ensures Fe(TwoD(), 2 * D(), FACTOR_MAX)
  {
    hide Val, Cong, D;
    ConstantsAre();
    CongBy(2 * D() - P, 2 * D(), -1);
  }

  /** p := p + q, by the unified formula. */
  method AddPoints(p: Point, q: Point, ghost v: Ext, ghost w: Ext)
    requires p.Apart() && q.Apart() && p.Holds(v) && q.Holds(w)
    modifies p.x, p.y, p.z, p.t
    ensures p.Holds(Plus(v, w, D()))
  {
    hide Fe, D;
    var a, b := Sums(p, q, v, w);
    var c, d := Products(p, q, v, w);
    ghost var av, bv := (v.y - v.x) * (w.y - w.x), (v.x + v.y) * (w.x + w.y);
    ghost var cv, dv := v.t * w.t * (2 * D()), v.z * w.z + v.z * w.z;
    Combine(p, a, b, c, d, av, bv, cv, dv);
    assert Plus(v, w, D()) == Ext((bv - av) * (dv - cv), (bv + av) * (dv + cv), (dv + cv) * (dv - cv), (bv - av) * (bv + av));
  }

  method Combine(p: Point, a: array<Int64>, b: array<Int64>, c: array<Int64>, d: array<Int64>,
                 ghost av: int, ghost bv: int, ghost cv: int, ghost dv: int)
    requires p.Apart() && a.Length == b.Length == c.Length == d.Length == 16
    requires Fe(a[..], av, LIMB) && Fe(b[..], bv, LIMB) && Fe(c[..], cv, LIMB) && Fe(d[..], dv, 2 * LIMB)
    modifies p.x, p.y, p.z, p.t
    ensures p.Holds(Ext((bv - av) * (dv - cv), (bv + av) * (dv + cv), (dv + cv) * (dv - cv), (bv - av) * (bv + av)))
  {
    hide Fe;
    var e, f := new Int64[16], new Int64[16];
    var g, h := new Int64[16], new Int64[16];
    FeWide(c[..], cv);
    SubFe(e, b, a, bv, av, LIMB);
    SubFe(f, d, c, dv, cv, 2 * LIMB);
    AddFe(g, d, c, dv, cv, 2 * LIMB);
    AddFe(h, b, a, bv, av, LIMB);
    FeWide2(e[..], bv - av);
    FeWide4(f[..], dv - cv);
    FeWide4(g[..], dv + cv);
    FeWide2(h[..], bv + av);
    MulFe(p.x, e, f, bv - av, dv - cv);
    MulFe(p.y, h, g, bv + av, dv + cv);
    MulFe(p.z, g, f, dv + cv, dv - cv);
    MulFe(p.t, e, h, bv - av, bv + av);
  }
}
