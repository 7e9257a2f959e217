/** Square roots and inverses modulo P by powers, from the theorem of Fermat for P. */
module Roots25519 {
  import opened Limbs
  import opened Field25519
  import opened Curve25519

  /** Fermat's theorem for P, stated with its exponent P - 1. */
  ghost predicate Fermat(e: nat) {
    e == P - 1 && forall a :: !Cong(a, 0) ==> Cong(Pow(a, e), 1)
  }

  lemma CongSelf(x: int)
    ensures Cong(x, x)
  {
  }

  lemma PowStep(a: int, e: nat)
    ensures Pow(a, e + 1) == a * Pow(a, e)
  {
  }

  /** The power before the last is the inverse. */
  lemma InverseIs(a: int, e: nat)
    requires Fermat(e + 1) && !Cong(a, 0)
    ensures Cong(a * Pow(a, e), 1)
  {
    hide Cong, Fermat, Pow;
    PowStep(a, e);
    FermatAt(a, e + 1);
  }

  /** There are no divisors of zero. */
  lemma NoZeroDivisors(a: int, b: int, e: nat)
    requires Fermat(e + 1) && Cong(a * b, 0)
    ensures Cong(a, 0) || Cong(b, 0)
  {
    hide Fermat, Cong, Pow;
    if !Cong(a, 0) {
      InverseIs(a, e);
      var i := Pow(a, e);
      CongSelf(b);
      CongMul(a * i, 1, b, b);
      CongSelf(i);
      CongMul(a * b, 0, i, i);
      assert (a * i) * b == (a * b) * i by { Shuffle(a, i, b); }
      CongSym((a * i) * b, 1 * b);
      CongTrans(b, (a * b) * i, 0);
    }
  }

  lemma Shuffle(a: int, i: int, b: int)
    ensures (a * i) * b == (a * b) * i
  {
  }

  lemma {:induction false} PowProduct(a: int, b: int, m: nat)
    ensures Pow(a * b, m) == Pow(a, m) * Pow(b, m)
  {
    if m > 0 {
      PowProduct(a, b, m - 1);
      Four(a, b, Pow(a, m - 1), Pow(b, m - 1));
    }
  }

  lemma {:induction false} PowCong(a: int, b: int, m: nat)
    requires Cong(a, b)
    ensures Cong(Pow(a, m), Pow(b, m))
  {
    hide Cong;
    if m > 0 {
      PowCong(a, b, m - 1);
      CongMul(a, b, Pow(a, m - 1), Pow(b, m - 1));
    } else {
      CongSelf(1);
    }
  }

  /** A square root of one is one or minus one. */
  lemma RootsOfOne(s: int, e: nat)
    requires Fermat(e + 1) && Cong(s * s, 1)
    ensures Cong(s, 1) || Cong(s, -1)
  {
    hide Fermat, Cong;
    assert (s - 1) * (s + 1) == s * s - 1 by { Difference(s); }
    CongSelf(1);
    CongAdd(s * s, 1, 1, 1);
    NoZeroDivisors(s - 1, s + 1, e);
    if Cong(s - 1, 0) { CongAdd(s - 1, 0, 1, 1); } else { CongAdd(s + 1, 0, 1, 1); }
  }

  lemma Difference(s: int)
    ensures (s - 1) * (s + 1) == s * s - 1
  {
  }

  /** What the square of the candidate comes to, in the integers. */
  lemma CandidateSquare(n: int, d: int, a: int, t: int, x: int)
    requires a == (d * d) * (d * d) * (d * d) * n * d && x == t * n * d * d * d
    ensures x * x * d == ((t * t) * a) * n
  {
    var c := n * d * d * d;
    assert x == t * c by { Assoc(t, n, d); Assoc(t, n * d, d); Assoc(t, n * d * d, d); }
    Four(t, c, t, c);
    assert c * c * d == a * n by { Seventh(n, d); }
    Assoc(t * t, c * c, d);
    Assoc(t * t, a, n);
  }

  lemma Seventh(n: int, d: int)
    ensures var c := n * d * d * d; c * c * d == ((d * d) * (d * d) * (d * d) * n * d) * n
  {
    var q := d * d;
    var u := n * q;
    assert n * d * d * d == u * d by { Assoc(n, d, d); }
    Four(u, d, u, d);
    assert u * u == (n * n) * (q * q) by { Four(n, q, n, q); }
    var l := (u * d) * (u * d);
    assert l == ((n * n) * (q * q)) * q;
    Assoc(n * n, q * q, q);
    assert l == (n * n) * (q * q * q);
    var k := q * q * q;
    Assoc(k, n, d);
    Assoc(k, n * d, n);
    assert (k * n * d) * n == k * ((n * d) * n);
    assert (n * d) * n == (n * n) * d by { Shuffle(n, d, n); }
    Assoc(n * n, k, d);
    Assoc(k, n * n, d);
    assert (n * n) * k == k * (n * n);
  }

  /** If the quotient is a square, the argument of the power is the square of w d^4. */
  lemma ArgumentSquare(n: int, d: int, a: int, w: int, c: int)
    requires a == (d * d) * (d * d) * (d * d) * n * d && c == w * ((d * d) * (d * d)) && Cong(w * w * d, n)
    ensures Cong(a, c * c)
  {
    hide Cong;
    var q := d * d;
    var k := q * q * q;
    CongSelf(k);
    CongSelf(d);
    CongSym(w * w * d, n);
    CongMul(k, k, n, w * w * d);
    CongMul(k * n, k * (w * w * d), d, d);
    assert (k * (w * w * d)) * d == c * c by { Eighth(w, d); }
  }

  lemma Eighth(w: int, d: int)
    ensures var q := d * d; (q * q * q * (w * w * d)) * d == (w * (q * q)) * (w * (q * q))
  {
    var q := d * d;
    var k, v := q * q * q, w * w;
    Assoc(k, v * d, d);
    Assoc(v, d, d);
    assert (v * d) * d == v * q;
    Four(w, q * q, w, q * q);
    assert k * (v * q) == v * (k * q) by { Assoc(k, v, q); Assoc(v, k, q); }
    Assoc(q * q, q, q);
  }

  /** The candidate, or the candidate times a root of minus one, is a root whenever there is one. */
  lemma Decodes(n: int, d: int, w: int, a: int, h: nat, x: int, r: int, e: nat)
    requires Fermat(e + 1) && h == (P - 5) / 8 && Cong(r * r, -1) && Cong(w * w * d, n)
    requires a == (d * d) * (d * d) * (d * d) * n * d && x == Pow(a, h) * n * d * d * d
    ensures Cong(x * x * d, n) || Cong((x * r) * (x * r) * d, n)
  {
    hide Cong, Pow;
    var c := w * ((d * d) * (d * d));
    var m := 2 * h + 1;
    CandidateSquare(n, d, a, Pow(a, h), x);
    PowAdd(a, h, h);
    PowAdd(a, 2 * h, 1);
    PowOne(a);
    assert x * x * d == Pow(a, m) * n;
    ArgumentSquare(n, d, a, w, c);
    PowCong(a, c * c, m);
    PowProduct(c, c, m);
    PowAdd(c, m, m);
    var s := Pow(c, 2 * m);
    CongSelf(n);
    CongMul(Pow(a, m), s, n, n);
    Signs(n, d, w, c, s, m, x, r, e);
  }

  lemma PowOne(x: int)
    ensures Pow(x, 1) == x
  {
  }

  lemma Signs(n: int, d: int, w: int, c: int, s: int, m: nat, x: int, r: int, e: nat)
    requires Fermat(e + 1) && 4 * m == e + 1 && Cong(r * r, -1) && c == w * ((d * d) * (d * d)) && s == Pow(c, 2 * m) && Cong(w * w * d, n)
    requires Cong(x * x * d, s * n)
    ensures Cong(x * x * d, n) || Cong((x * r) * (x * r) * d, n)
  {
    hide Cong, Pow, Fermat;
    if !Cong(c, 0) {
      PowAdd(c, 2 * m, 2 * m);
      FermatAt(c, e + 1);
      RootsOfOne(s, e);
      CongSelf(n);
      if Cong(s, 1) {
        CongMul(s, 1, n, n);
        CongTrans(x * x * d, s * n, n);
      } else {
        CongMul(s, -1, n, n);
        CongTrans(x * x * d, s * n, -n);
        Turned(x, d, n, r);
      }
    } else {
      ZeroCase(n, d, w, c, s, m, x, e);
    }
  }

  lemma FermatAt(a: int, e: nat)
    requires Fermat(e) && !Cong(a, 0)
    ensures Cong(Pow(a, e), 1)
  {
  }

  lemma Turned(x: int, d: int, n: int, r: int)
    requires Cong(x * x * d, -n) && Cong(r * r, -1)
    ensures Cong((x * r) * (x * r) * d, n)
  {
    hide Cong;
    var q := r * r;
    CongMul(x * x * d, -n, q, -1);
    assert (x * r) * (x * r) * d == (x * x * d) * q by {
      Four(x, r, x, r);
      Shuffle(x * x, q, d);
    }
  }

  lemma ZeroCase(n: int, d: int, w: int, c: int, s: int, m: nat, x: int, e: nat)
    requires Fermat(e + 1) && m > 0 && c == w * ((d * d) * (d * d)) && s == Pow(c, 2 * m) && Cong(w * w * d, n) && Cong(c, 0)
    requires Cong(x * x * d, s * n)
    ensures Cong(x * x * d, n)
  {
    hide Cong, Pow, Fermat;
    var q := d * d;
    NoZeroDivisors(w, q * q, e);
    if Cong(w, 0) {
      CongMul(w, 0, w, 0);
      CongSelf(d);
      CongMul(w * w, 0, d, d);
    } else {
      NoZeroDivisors(q, q, e);
      NoZeroDivisors(d, d, e);
      CongSelf(w * w);
      CongMul(w * w, w * w, d, 0);
    }
    CongSym(w * w * d, n);
    CongTrans(n, w * w * d, 0);
    CongSelf(s);
    CongMul(s, s, n, 0);
    CongTrans(x * x * d, s * n, 0);
    CongSym(n, 0);
    CongTrans(x * x * d, 0, n);
  }

  // ---- the x of a point ----

  /** x and y satisfy the equation of the curve, solved for x^2. */
  ghost predicate IsX(x: int, y: int, d: int) {
    Cong(x * x * (1 + (y * y) * d), y * y - 1)
  }

  /** Some point of the curve has this y. */
  ghost predicate HasX(y: int, d: int) {
    exists x :: IsX(x, y, d)
  }

  /** An x for y makes a point of the curve. */
  lemma PointOf(x: int, y: int, d: int)
    ensures IsX(x, y, d) ==> OnCurve(Ext(x, y, 1, x * y), d)
  {
    hide Cong;
    var a, b := y * y - x * x, 1 + d * ((x * y) * (x * y));
    var m, n := x * x * (1 + (y * y) * d), y * y - 1;
    Solved(x, y, d);
    CongSelf(b);
    CongSelf(n);
    CongSelf(x * y);
    if Cong(m, n) {
      CongAdd(n, n, m, n);
      CongAdd(b, b, a - b, 0);
    }
  }

  // ---- from projective to affine and back ----

  /** Dividing the coordinates of a point of the curve by z gives an x for its y. */
  lemma AffineX(v: Ext, i: int, d: int)
    ensures OnCurve(v, d) && Cong(v.z * i, 1) ==> IsX(v.x * i, v.y * i, d)
  {
    hide Cong;
    if OnCurve(v, d) && Cong(v.z * i, 1) {
      var x, y, t := v.x * i, v.y * i, v.t * i;
      var q := i * i;
      CongSelf(q);
      CongSelf(d);
      CongMul(v.y * v.y - v.x * v.x, v.z * v.z + d * (v.t * v.t), q, q);
      assert (v.y * v.y - v.x * v.x) * q == y * y - x * x by {
        Four(v.y, i, v.y, i);
        Four(v.x, i, v.x, i);
        Distrib(q, v.y * v.y, v.x * v.x);
        LessTimes(v.y * v.y, v.x * v.x, q);
      }
      var z1 := v.z * i;
      assert (v.z * v.z + d * (v.t * v.t)) * q == z1 * z1 + d * (t * t) by {
        Four(v.z, i, v.z, i);
        Four(v.t, i, v.t, i);
        Distrib(q, v.z * v.z, d * (v.t * v.t));
        Assoc(d, v.t * v.t, q);
      }
      CongMul(z1, 1, z1, 1);
      CongMul(v.x * v.y, v.z * v.t, q, q);
      assert (v.x * v.y) * q == x * y && (v.z * v.t) * q == z1 * t by {
        Four(v.x, i, v.y, i);
        Four(v.z, i, v.t, i);
      }
      CongSelf(t);
      CongMul(z1, 1, t, t);
      CongTrans(x * y, z1 * t, t);
      CongMul(t, x * y, t, x * y);
      CongMul(d, d, t * t, (x * y) * (x * y));
      CongAdd(z1 * z1, 1, d * (t * t), d * ((x * y) * (x * y)));
      CongTrans(y * y - x * x, z1 * z1 + d * (t * t), 1 + d * ((x * y) * (x * y)));
      var a, b, n := y * y - x * x, 1 + d * ((x * y) * (x * y)), y * y - 1;
      CongSelf(b);
      CongSelf(n);
      CongAdd(a, b, b, b);
      CongAdd(n, n, a - b, 0);
      Solved(x, y, d);
    }
  }

  lemma LessTimes(a: int, b: int, q: int)
    ensures (a - b) * q == a * q - b * q
  {
  }

  lemma Solved(x: int, y: int, d: int)
    ensures y * y - x * x - (1 + d * ((x * y) * (x * y))) == (y * y - 1) - x * x * (1 + (y * y) * d)
  {
    Four(x, y, x, y);
    Distrib(x * x, 1, (y * y) * d);
    Assoc(x * x, y * y, d);
  }

  /** The denominator of x^2 is not zero; q stands for y^2. */
  lemma DenominatorNotZero(m: int, q: int, k: int)
    requires Cong(m * (1 + q * k), q - 1) && !Cong(1 + k, 0)
    ensures !Cong(1 + q * k, 0)
  {
    hide Cong;
    var d, n := 1 + q * k, q - 1;
    if Cong(d, 0) {
      CongSelf(m);
      CongMul(m, m, d, 0);
      CongSym(m * d, n);
      CongTrans(n, m * d, 0);
      CongSelf(1);
      CongAdd(n, 0, 1, 1);
      CongSelf(k);
      CongMul(q, 1, k, k);
      CongAdd(1, 1, q * k, k);
      CongSym(d, 1 + k);
      CongTrans(1 + k, d, 0);
      assert false;
    }
  }

  /** Two roots of one quotient are the same up to sign. */
  lemma UpToSign(x: int, w: int, n: int, d: int, e: nat)
    requires Fermat(e + 1) && Cong(x * x * d, n) && Cong(w * w * d, n) && !Cong(d, 0)
    ensures Cong(w, x) || Cong(w, -x)
  {
    hide Cong, Fermat;
    CongAdd(w * w * d, n, x * x * d, n);
    LessTimes(w * w, x * x, d);
    NoZeroDivisors(w * w - x * x, d, e);
    assert w * w - x * x == (w - x) * (w + x) by { Squares(w, x); }
    NoZeroDivisors(w - x, w + x, e);
    CongSelf(x);
    if Cong(w - x, 0) { CongAdd(w - x, 0, x, x); } else { CongAdd(w + x, 0, x, x); }
  }

  lemma Squares(w: int, x: int)
    ensures w * w - x * x == (w - x) * (w + x)
  {
  }

  /** A root of a quotient is one of any congruent quotient. */
  lemma QuotientCong(x: int, n: int, d: int, n': int, d': int)
    requires Cong(x * x * d, n) && Cong(n, n') && Cong(d, d')
    ensures Cong(x * x * d', n')
  {
    hide Cong;
    CongSelf(x * x);
    CongMul(x * x, x * x, d, d');
    CongSym(x * x * d, x * x * d');
    CongTrans(x * x * d', x * x * d, n);
    CongTrans(x * x * d', n, n');
  }

  /** Numerator and denominator depend on y only modulo P. */
  lemma FractionCong(y: int, y': int, d: int)
    requires Cong(y, y')
    ensures Cong(y * y - 1, y' * y' - 1) && Cong(1 + (y * y) * d, 1 + (y' * y') * d)
  {
    hide Cong;
    CongMul(y, y', y, y');
    CongSelf(d);
    CongSelf(1);
    CongMul(y * y, y' * y', d, d);
    CongAdd(1, 1, (y * y) * d, (y' * y') * d);
    CongAdd(y * y, y' * y', 1, 1);
  }
}
