/** The curves -x^2 + y^2 = 1 + d x^2 y^2 modulo P, on integers, in the extended
    coordinates of section 5.1.4 of RFC 8032. Coordinates are not reduced here:
    every statement is a congruence modulo P. The constant d is a parameter, so that
    the algebra holds for every d and never meets the 255-bit value. */
module Curve25519 {
  import opened Limbs
  import opened Field25519

  function CurveD(): seq<Int64> {
    [0x78a3, 0x1359, 0x4dca, 0x75eb, 0xd8ab, 0x4141, 0x0a4d, 0x0070,
     0xe898, 0x7779, 0x4079, 0x8cc7, 0xfe73, 0x2b6f, 0x6cee, 0x5203]
  }

  /** The d of edwards25519, by its limbs. */
  function D(): int {
    Val(CurveD(), B)
  }

  datatype Ext = Ext(x: int, y: int, z: int, t: int)

  ghost predicate OnCurve(p: Ext, d: int) {
    && Cong(p.y * p.y - p.x * p.x, p.z * p.z + d * (p.t * p.t))
    && Cong(p.x * p.y, p.z * p.t)
  }

  /** The unified addition of section 5.1.4 of RFC 8032. */
  function Plus(p: Ext, q: Ext, d: int): Ext {
    var a := (p.y - p.x) * (q.y - q.x);
    var b := (p.y + p.x) * (q.y + q.x);
    var c := p.t * q.t * (2 * d);
    var m := 2 * (p.z * q.z);
    var e, f, g, h := b - a, m - c, m + c, b + a;
    Ext(e * f, g * h, f * g, e * h)
  }

  const NEUTRAL := Ext(0, 1, 1, 0)

  /** Double-and-add over the k low bits of n, most significant first. */
  function Times(n: nat, k: nat, q: Ext, d: int): Ext
    decreases k, n
  {
    if k == 0 then NEUTRAL
    else
      var r := Times(n / 2, k - 1, q, d);
      var r2 := Plus(r, r, d);
      if n % 2 == 1 then Plus(r2, q, d) else r2
  }

  // ---- small facts about multiples of P ----

  lemma ZeroTimes(x: int, k: int)
    requires Cong(x, 0)
    ensures Cong(k * x, 0)
  {
    CongBy(k, k, 0);
    CongMul(k, k, x, 0);
  }

  lemma ZeroSum(x: int, y: int)
    requires Cong(x, 0) && Cong(y, 0)
    ensures Cong(x + y, 0)
  {
    CongAdd(x, 0, y, 0);
  }

  lemma DiffZero(x: int, y: int)
    ensures Cong(x, y) <==> Cong(x - y, 0)
  {
  }

  lemma Square(x: int, y: int)
    ensures (x + y) * (x + y) == x * x + 2 * (x * y) + y * y
    ensures (x - y) * (x - y) == x * x - 2 * (x * y) + y * y
    ensures (x + y) * (x - y) == x * x - y * y
  {
  }

  lemma Four(a: int, b: int, c: int, d: int)
    ensures (a * b) * (c * d) == (a * c) * (b * d)
    ensures (a * b) * (c * d) == (a * d) * (b * c)
  {
  }

  // ---- closure: the sum of two points of the curve is on the curve ----

  /** The four quantities that the addition multiplies, halved, and two more
      with which the sum can be written without the curve's constant. */
  datatype Parts = Parts(e: int, f: int, g: int, h: int, u: int, m: int, w: int)

  function PartsOf(p: Ext, q: Ext, d: int): Parts {
    var zz, tt := p.z * q.z, p.t * q.t;
    Parts(p.x * q.y + p.y * q.x, zz - d * tt, zz + d * tt, p.y * q.y + p.x * q.x,
          p.z * q.t + p.t * q.z, p.y * q.y - p.x * q.x, (p.z * p.t) * (q.z * q.t))
  }

  lemma PlusParts(p: Ext, q: Ext, d: int)
    ensures var s := PartsOf(p, q, d);
            Plus(p, q, d) == Ext((2 * s.e) * (2 * s.f), (2 * s.g) * (2 * s.h), (2 * s.f) * (2 * s.g), (2 * s.e) * (2 * s.h))
  {
    Distrib(p.y - p.x, q.y, q.x);
    Distrib(p.y + p.x, q.y, q.x);
    Distrib(q.y, p.y, -p.x);
    Distrib(q.x, p.y, -p.x);
    Distrib(q.y, p.y, p.x);
    Distrib(q.x, p.y, p.x);
  }

  /** h^2 - e^2 is the product of the left-hand sides of the two curve equations,
      f^2 + d u^2 that of their right-hand sides. */
  lemma Difference(p: Ext, q: Ext, d: int)
    requires OnCurve(p, d) && OnCurve(q, d)
    ensures var s := PartsOf(p, q, d); Cong(s.h * s.h - s.e * s.e, s.f * s.f + d * (s.u * s.u))
  {
    hide Cong;
    var s := PartsOf(p, q, d);
    CongMul(p.y * p.y - p.x * p.x, p.z * p.z + d * (p.t * p.t), q.y * q.y - q.x * q.x, q.z * q.z + d * (q.t * q.t));
    Norm(p.x, p.y, q.x, q.y);
    NormD(p.z, p.t, q.z, q.t, d);
  }

  lemma Norm(a: int, b: int, c: int, d: int)
    ensures (b * d + a * c) * (b * d + a * c) - (a * d + b * c) * (a * d + b * c) == (b * b - a * a) * (d * d - c * c)
  {
  }

  lemma NormD(z: int, t: int, z': int, t': int, d: int)
    ensures var f, u := z * z' - d * (t * t'), z * t' + t * z';
            f * f + d * (u * u) == (z * z + d * (t * t)) * (z' * z' + d * (t' * t'))
  {
    Four(z, z', t, t');
    NormSquares(z * z', t * t', z * t', t * z', d);
    NormProduct(z * z, t * t, z' * z', t' * t', d);
    Four(z, z', z, z');
    Four(t, t', t, t');
    Four(z, t', z, t');
    Four(t, z', t, z');
  }

  lemma NormSquares(a: int, b: int, c: int, e: int, d: int)
    requires a * b == c * e
    ensures (a - d * b) * (a - d * b) + d * ((c + e) * (c + e)) == a * a + d * (d * (b * b)) + d * (c * c) + d * (e * e)
  {
    Square(a, d * b);
    Square(c, e);
    Swap(a, d, b);
    Assoc(d, b, d * b);
    Swap(b, d, b);
    Distrib(d, c * c + 2 * (c * e), e * e);
    Distrib(d, c * c, 2 * (c * e));
  }

  lemma NormProduct(p: int, q: int, r: int, s: int, d: int)
    ensures (p + d * q) * (r + d * s) == p * r + d * (p * s) + d * (q * r) + d * (d * (q * s))
  {
    Distrib(p + d * q, r, d * s);
    Distrib(r, p, d * q);
    Distrib(d * s, p, d * q);
    Swap(p, d, s);
    Assoc(d, q, r);
    Assoc(d, q, d * s);
    Swap(q, d, s);
  }

  /** e m and g u agree: the sum has a second form, without the constant. */
  lemma SecondForm(p: Ext, q: Ext, d: int)
    requires OnCurve(p, d) && OnCurve(q, d)
    ensures var s := PartsOf(p, q, d); Cong(s.e * s.m, s.g * s.u)
  {
    hide Cong;
    CongMul(p.x * p.y, p.z * p.t, q.y * q.y - q.x * q.x, q.z * q.z + d * (q.t * q.t));
    CongMul(q.x * q.y, q.z * q.t, p.y * p.y - p.x * p.x, p.z * p.z + d * (p.t * p.t));
    CongAdd((p.x * p.y) * (q.y * q.y - q.x * q.x), (p.z * p.t) * (q.z * q.z + d * (q.t * q.t)),
            (q.x * q.y) * (p.y * p.y - p.x * p.x), (q.z * q.t) * (p.z * p.z + d * (p.t * p.t)));
    ExpandE(p.x, p.y, q.x, q.y);
    ExpandU(p.z, p.t, q.z, q.t, d);
  }

  lemma ExpandE(x: int, y: int, x': int, y': int)
    ensures (x * y' + y * x') * (y * y' - x * x') == (x * y) * (y' * y' - x' * x') + (x' * y') * (y * y - x * x)
  {
    var a, b, c, d := x * y', y * x', y * y', x * x';
    Distrib(a + b, c, d);
    Distrib(c, a, b);
    Distrib(d, a, b);
    Four(x, y', y, y');
    Four(x, y', x, x');
    Four(y, x', y, y');
    Four(y, x', x, x');
    Distrib(x * y, y' * y', x' * x');
    Distrib(x' * y', y * y, x * x);
  }

  lemma ExpandU(z: int, t: int, z': int, t': int, d: int)
    ensures (z * z' + d * (t * t')) * (z * t' + t * z') == (z * t) * (z' * z' + d * (t' * t')) + (z' * t') * (z * z + d * (t * t))
  {
    var a, b, c, e := z * z', t * t', z * t', t * z';
    Distrib(a + d * b, c, e);
    Distrib(c, a, d * b);
    Distrib(e, a, d * b);
    Assoc(d, b, c);
    Assoc(d, b, e);
    Four(z, z', z, t');
    Four(z, z', t, z');
    Four(t, t', z, t');
    Four(t, t', t, z');
    Distrib(z * t, z' * z', d * (t' * t'));
    Distrib(z' * t', z * z, d * (t * t));
    Swap(z * t, d, t' * t');
    Swap(z' * t', d, t * t);
  }

  /** m^2 - h^2 and g^2 - f^2 are both four times the product of all the x y. */
  lemma CrossTerms(p: Ext, q: Ext, d: int)
    requires OnCurve(p, d) && OnCurve(q, d)
    ensures var s := PartsOf(p, q, d);
            Cong(s.m * s.m - s.h * s.h, -4 * s.w) && s.g * s.g - s.f * s.f == 4 * (d * s.w)
  {
    hide Cong;
    var s := PartsOf(p, q, d);
    CongMul(p.x * p.y, p.z * p.t, q.x * q.y, q.z * q.t);
    CongBy(-4, -4, 0);
    CongMul(-4, -4, (p.x * p.y) * (q.x * q.y), s.w);
    SquareGap(p.x, p.y, q.x, q.y);
    CrossSquares(p.z, p.t, q.z, q.t, d);
  }

  lemma SquareGap(x: int, y: int, x': int, y': int)
    ensures var m, h := y * y' - x * x', y * y' + x * x'; m * m - h * h == -4 * ((x * y) * (x' * y'))
  {
    Square(y * y', x * x');
    Four(y, y', x, x');
  }

  lemma CrossSquares(z: int, t: int, z': int, t': int, d: int)
    ensures var zz, tt := z * z', t * t';
            (zz + d * tt) * (zz + d * tt) - (zz - d * tt) * (zz - d * tt) == 4 * (d * ((z * t) * (z' * t')))
  {
    var zz, tt := z * z', t * t';
    Square(zz, d * tt);
    Swap(zz, d, tt);
    Four(z, z', t, t');
  }

  lemma Recombine(s: Parts, d: int)
    requires s.g * s.g - s.f * s.f == 4 * (d * s.w)
    ensures (s.g * s.h) * (s.g * s.h) - (s.e * s.f) * (s.e * s.f) - (s.f * s.g) * (s.f * s.g) - d * ((s.e * s.h) * (s.e * s.h))
         == (s.g * s.g) * (s.h * s.h - s.e * s.e - (s.f * s.f + d * (s.u * s.u)))
            + d * ((s.g * s.u) * (s.g * s.u) - (s.e * s.m) * (s.e * s.m))
            + (d * (s.e * s.e)) * (s.m * s.m - s.h * s.h + 4 * s.w)
  {
    var e, f, g, h, u, m := s.e * s.e, s.f * s.f, s.g * s.g, s.h * s.h, s.u * s.u, s.m * s.m;
    Four(s.g, s.h, s.g, s.h);
    Four(s.e, s.f, s.e, s.f);
    Four(s.f, s.g, s.f, s.g);
    Four(s.e, s.h, s.e, s.h);
    Four(s.g, s.u, s.g, s.u);
    Four(s.e, s.m, s.e, s.m);
    Distrib(g, h - e, f + d * u);
    Distrib(g, h, e);
    Distrib(g, f, d * u);
    Swap(g, d, u);
    Distrib(d, g * u, e * m);
    Distrib(d * e, m - h, 4 * s.w);
    Distrib(d * e, m, h);
    Assoc(d, e, m);
    Assoc(d, e, h);
    Assoc(d, e, s.w);
    Distrib(e, g, f);
    Swap(e, d, s.w);
  }

  /** Closure, in the halved quantities. */
  lemma PartsOnCurve(p: Ext, q: Ext, d: int)
    requires OnCurve(p, d) && OnCurve(q, d)
    ensures var s := PartsOf(p, q, d);
            Cong((s.g * s.h) * (s.g * s.h) - (s.e * s.f) * (s.e * s.f), (s.f * s.g) * (s.f * s.g) + d * ((s.e * s.h) * (s.e * s.h)))
  {
    hide Cong, OnCurve;
    var s := PartsOf(p, q, d);
    Difference(p, q, d);
    SecondForm(p, q, d);
    CrossTerms(p, q, d);
    Recombine(s, d);
    var i, j, k := s.h * s.h - s.e * s.e, s.f * s.f + d * (s.u * s.u), s.m * s.m - s.h * s.h;
    var l, r := (s.g * s.u) * (s.g * s.u), (s.e * s.m) * (s.e * s.m);
    CongMul(s.e * s.m, s.g * s.u, s.e * s.m, s.g * s.u);
    CongSym(r, l);
    DiffZero(l, r);
    DiffZero(i, j);
    DiffZero(k, -4 * s.w);
    ZeroTimes(i - j, s.g * s.g);
    ZeroTimes(l - r, d);
    ZeroTimes(k + 4 * s.w, d * (s.e * s.e));
    ZeroSum((s.g * s.g) * (i - j), d * (l - r));
    ZeroSum((s.g * s.g) * (i - j) + d * (l - r), (d * (s.e * s.e)) * (k + 4 * s.w));
    DiffZero((s.g * s.h) * (s.g * s.h) - (s.e * s.f) * (s.e * s.f), (s.f * s.g) * (s.f * s.g) + d * ((s.e * s.h) * (s.e * s.h)));
  }

  lemma CongSym(x: int, y: int)
    requires Cong(x, y)
    ensures Cong(y, x)
  {
    CongBy(x, x, 0);
    CongTrans(x, y, y);
  }

  /** Adding two points of the curve gives a point of the curve. */
  lemma PlusOnCurve(p: Ext, q: Ext, d: int)
    requires OnCurve(p, d) && OnCurve(q, d)
    ensures OnCurve(Plus(p, q, d), d)
  {
    hide Cong, OnCurve, Plus, PartsOf;
    var s := PartsOf(p, q, d);
    PlusParts(p, q, d);
    PartsOnCurve(p, q, d);
    DoubledOnCurve(s.e, s.f, s.g, s.h, d);
  }

  lemma DoubledOnCurve(e: int, f: int, g: int, h: int, d: int)
    requires Cong((g * h) * (g * h) - (e * f) * (e * f), (f * g) * (f * g) + d * ((e * h) * (e * h)))
    ensures OnCurve(Ext((2 * e) * (2 * f), (2 * g) * (2 * h), (2 * f) * (2 * g), (2 * e) * (2 * h)), d)
  {
    hide Cong;
    var a, b, m, n := (g * h) * (g * h), (e * f) * (e * f), (f * g) * (f * g), (e * h) * (e * h);
    Double2(e, f);
    Double2(g, h);
    Double2(f, g);
    Double2(e, h);
    CongBy(16, 16, 0);
    CongMul(16, 16, a - b, m + d * n);
    assert 16 * (m + d * n) == 16 * m + d * (16 * n) by { Distrib(16, m, d * n); Swap(16, d, n); }
    var x := ((2 * e) * (2 * f)) * ((2 * g) * (2 * h));
    assert x == ((2 * f) * (2 * g)) * ((2 * e) * (2 * h)) by {
      Four(2 * e, 2 * f, 2 * g, 2 * h);
      Four(2 * f, 2 * g, 2 * e, 2 * h);
    }
    CongBy(x, x, 0);
  }

  lemma Double2(x: int, y: int)
    ensures ((2 * x) * (2 * y)) * ((2 * x) * (2 * y)) == 16 * ((x * y) * (x * y))
  {
    var w := x * y;
    assert (2 * x) * (2 * y) == 4 * w;
  }

  // ---- what the sum is ----

  /** Numerators and denominators of the affine sum
      ((x y' + x' y) / (1 + d x x' y y'), (y y' + x x') / (1 - d x x' y y')),
      over the common denominators of the operands. */
  lemma PlusIsEdwards(p: Ext, q: Ext, d: int)
    requires OnCurve(p, d) && OnCurve(q, d)
    ensures var r, z, w := Plus(p, q, d), p.z * q.z, d * ((p.x * p.y) * (q.x * q.y));
            && Cong(r.x * (z * z + w), r.z * (z * (p.x * q.y + p.y * q.x)))
            && Cong(r.y * (z * z - w), r.z * (z * (p.y * q.y + p.x * q.x)))
  {
    hide Cong, OnCurve, Plus;
    var s, z, w := PartsOf(p, q, d), p.z * q.z, d * ((p.x * p.y) * (q.x * q.y));
    PlusParts(p, q, d);
    Denominators(p, q, d);
    Fraction(s.e, s.f, s.g, z, z * z + w);
    Fraction(s.h, s.g, s.f, z, z * z - w);
  }

  lemma Denominators(p: Ext, q: Ext, d: int)
    requires OnCurve(p, d) && OnCurve(q, d)
    ensures var s, z, w := PartsOf(p, q, d), p.z * q.z, d * ((p.x * p.y) * (q.x * q.y));
            Cong(z * z + w, z * s.g) && Cong(z * z - w, z * s.f)
  {
    hide Cong;
    var z, xx, zt := p.z * q.z, (p.x * p.y) * (q.x * q.y), (p.z * p.t) * (q.z * q.t);
    CongMul(p.x * p.y, p.z * p.t, q.x * q.y, q.z * q.t);
    CongBy(d, d, 0);
    CongMul(d, d, xx, zt);
    CongBy(z * z, z * z, 0);
    CongAdd(z * z, z * z, d * xx, d * zt);
    Spread(p.z, p.t, q.z, q.t, d);
  }

  lemma Fraction(e: int, f: int, g: int, z: int, c: int)
    requires Cong(c, z * g)
    ensures Cong(((2 * e) * (2 * f)) * c, ((2 * f) * (2 * g)) * (z * e))
    ensures Cong(((2 * f) * (2 * e)) * c, ((2 * g) * (2 * f)) * (z * e))
  {
    hide Cong;
    var x := (2 * e) * (2 * f);
    CongBy(x, x, 0);
    CongMul(x, x, c, z * g);
    Ratio(e, f, g, z);
  }

  lemma Spread(z: int, t: int, z': int, t': int, d: int)
    ensures var zz, w := z * z', d * ((z * t) * (z' * t'));
            zz * zz + w == zz * (zz + d * (t * t')) && zz * zz - w == zz * (zz - d * (t * t'))
  {
    var zz, tt := z * z', t * t';
    Distrib(zz, zz, d * tt);
    Swap(zz, d, tt);
    Four(z, z', t, t');
  }

  lemma Ratio(e: int, f: int, g: int, z: int)
    ensures ((2 * e) * (2 * f)) * (z * g) == ((2 * f) * (2 * g)) * (z * e)
    ensures ((2 * f) * (2 * e)) * (z * g) == ((2 * g) * (2 * f)) * (z * e)
  {
    Four(2 * e, 2 * f, z, g);
    Four(2 * f, 2 * g, z, e);
    var w := f * z;
    assert (2 * f) * z == 2 * w && (2 * e) * g == 2 * (e * g) && (2 * g) * e == 2 * (e * g);
    Swap(2 * w, 2, e * g);
  }

  ghost predicate IsNeutral(p: Ext) {
    p.x == 0 && p.t == 0 && p.y == p.z
  }

  /** Leading zero bits keep the neutral element. */
  lemma {:induction false} TimesZero(k: nat, q: Ext, d: int)
    ensures IsNeutral(Times(0, k, q, d))
    decreases k
  {
    if k > 0 {
      TimesZero(k - 1, q, d);
    }
  }

  /** One times q is q, in projective terms, after any number of leading zero bits. */
  lemma TimesOne(k: nat, q: Ext, d: int)
    ensures var r := Times(1, k + 1, q, d); r.x * q.z == q.x * r.z && r.y * q.z == q.y * r.z
  {
    TimesZero(k, q, d);
    var o := Times(0, k, q, d);
    var r := Plus(o, o, d);
    assert IsNeutral(r);
    PlusNeutral(r, q, d);
  }

  lemma PlusNeutral(r: Ext, q: Ext, d: int)
    requires IsNeutral(r)
    ensures var s := Plus(r, q, d); s.x * q.z == q.x * s.z && s.y * q.z == q.y * s.z
  {
    hide Plus;
    PlusParts(r, q, d);
    var z := r.z;
    assert PartsOf(r, q, d) == Parts(z * q.x, z * q.z, z * q.z, z * q.y, z * q.t, z * q.y, 0);
    Four(2 * (z * q.x), 2 * (z * q.z), 1, q.z);
    Cross(z * q.z, z, q.x, q.z);
    Cross(z * q.z, z, q.y, q.z);
  }

  lemma Cross(c: int, z: int, x: int, y: int)
    requires c == z * y
    ensures ((2 * (z * x)) * (2 * c)) * y == x * ((2 * c) * (2 * c)) && ((2 * c) * (2 * (z * x))) * y == x * ((2 * c) * (2 * c))
  {
    var w := (2 * c) * 2;
    assert (2 * (z * x)) * (2 * c) == w * (z * x) by { Four(2, z * x, 2, c); }
    Assoc(w, z * x, y);
    Assoc(z, x, y);
    Swap(z, x, y);
    Swap(w, x, c);
    Four(2, c, 2, c);
  }

  /** Whatever is added or multiplied, the fourth coordinate keeps its meaning: x y = z t. */
  lemma TimesExtended(n: nat, k: nat, q: Ext, d: int)
    ensures var r := Times(n, k, q, d); r.x * r.y == r.z * r.t
  {
    hide Plus;
    if k > 0 {
      var r := Times(n / 2, k - 1, q, d);
      PlusExtended(r, r, d);
      PlusExtended(Plus(r, r, d), q, d);
    }
  }

  lemma PlusExtended(p: Ext, q: Ext, d: int)
    ensures var r := Plus(p, q, d); r.x * r.y == r.z * r.t
  {
    hide Plus;
    PlusParts(p, q, d);
    var s := PartsOf(p, q, d);
    Four(2 * s.e, 2 * s.f, 2 * s.g, 2 * s.h);
    Four(2 * s.f, 2 * s.g, 2 * s.e, 2 * s.h);
  }

  /** Double-and-add never leaves the curve. */
  lemma {:induction false} TimesOnCurve(n: nat, k: nat, q: Ext, d: int)
    requires OnCurve(q, d)
    ensures OnCurve(Times(n, k, q, d), d)
    decreases k
  {
    hide OnCurve, Plus;
    if k == 0 {
      NeutralOnCurve(d);
    } else {
      TimesOnCurve(n / 2, k - 1, q, d);
      var r := Times(n / 2, k - 1, q, d);
      PlusOnCurve(r, r, d);
      PlusOnCurve(Plus(r, r, d), q, d);
    }
  }

  lemma NeutralOnCurve(d: int)
    ensures OnCurve(NEUTRAL, d)
  {
  }

  // ---- how many copies the ladder adds up ----

  /** A way to add up copies of one point. */
  datatype Sum = Nothing | Copy | Both(left: Sum, right: Sum)

  function Copies(e: Sum): nat {
    match e
    case Nothing => 0
    case Copy => 1
    case Both(l, r) => Copies(l) + Copies(r)
  }

  function Added(e: Sum, q: Ext, d: int): Ext {
    match e
    case Nothing => NEUTRAL
    case Copy => q
    case Both(l, r) => Plus(Added(l, q, d), Added(r, q, d), d)
  }

  /** Double-and-add over k bits adds up n copies of the point, for every n of k bits. */
  lemma {:induction false} TimesAdds(n: nat, k: nat, q: Ext, d: int) returns (e: Sum)
    requires n < Pow(2, k)
    ensures Copies(e) == n && Added(e, q, d) == Times(n, k, q, d)
    decreases k
  {
    hide Plus;
    if k == 0 {
      e := Nothing;
    } else {
      var half := TimesAdds(n / 2, k - 1, q, d);
      e := Both(half, half);
      if n % 2 == 1 { e := Both(e, Copy); }
    }
  }
}
