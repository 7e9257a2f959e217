/** Inversion, square roots and the byte encodings of points. */
module Keys25519 {
  import opened Bytes
  import opened Limbs
  import opened Field25519
  import opened Packing25519
  import opened Curve25519
  import opened Points25519
  import opened Ladder25519
  import opened Roots25519

  // ---- exponentiation by fixed chains ----

  /** The exponent after k of the n steps: square each time, and multiply except at
      the steps in skip, where steps count down from n - 1. */
  function Exponent(k: nat, n: int, skip: set<int>): nat {
    if k == 0 then 1 else 2 * Exponent(k - 1, n, skip) + if n - k in skip then 0 else 1
  }

  lemma {:induction false} AllBits(k: nat, n: int, skip: set<int>)
    requires forall i :: i in skip ==> i < n - k
    ensures Exponent(k, n, skip) == Pow(2, k + 1) - 1
  {
    if k == 0 {
      assert Pow(2, 1) == 2 * Pow(2, 0);
    } else {
      AllBits(k - 1, n, skip);
    }
  }

  lemma Pow250()
    ensures Pow(2, 250) == 0x400_0000_0000_0000_0000_0000_0000_0000_0000_0000_0000_0000_0000_0000_0000_0000
  {
    hide Pow;
    PowOne(2);
    PowAdd(2, 1, 1);
    PowAdd(2, 2, 2);
    PowAdd(2, 4, 4);
    PowAdd(2, 8, 8);
    PowAdd(2, 16, 16);
    PowAdd(2, 32, 32);
    PowAdd(2, 64, 64);
    PowAdd(2, 128, 64);
    PowAdd(2, 192, 32);
    PowAdd(2, 224, 16);
    PowAdd(2, 240, 8);
    PowAdd(2, 248, 2);
  }

  lemma ExponentStep(k: nat, n: int, skip: set<int>)
    ensures Exponent(k + 1, n, skip) == 2 * Exponent(k, n, skip) + if n - 1 - k in skip then 0 else 1
  {
  }

  lemma InverseExponent(n: int, k: nat)
    requires n == 254 && k == 249
    ensures Exponent(k + 5, n, {2, 4}) == P - 2
  {
    hide Exponent, Pow;
    AllBits(k, n, {2, 4});
    Pow250();
    ExponentStep(k, n, {2, 4});
    ExponentStep(k + 1, n, {2, 4});
    ExponentStep(k + 2, n, {2, 4});
    ExponentStep(k + 3, n, {2, 4});
    ExponentStep(k + 4, n, {2, 4});
  }

  lemma RootExponent(n: int, k: nat)
    requires n == 251 && k == 249
    ensures Exponent(k + 2, n, {1}) == (P - 5) / 8
  {
    hide Exponent, Pow;
    AllBits(k, n, {1});
    Pow250();
    ExponentStep(k, n, {1});
    ExponentStep(k + 1, n, {1});
  }

  method SquareFe(o: array<Int64>, a: array<Int64>, ghost x: int)
    requires o.Length == a.Length == 16 && Fe(a[..], x, FACTOR_MAX)
    modifies o
    ensures Fe(o[..], x * x, LIMB)
  {
    MulFe(o, a, a, x, x);
  }

  /** One step of a chain: c := c^2, times a when wanted. */
  method ChainStep(c: array<Int64>, a: array<Int64>, multiply: bool, ghost x: int, ghost e: nat)
    requires c.Length == a.Length == 16 && c != a
    requires Fe(c[..], Pow(x, e), FACTOR_MAX) && Fe(a[..], x, FACTOR_MAX)
    modifies c
    ensures Fe(c[..], Pow(x, 2 * e + if multiply then 1 else 0), LIMB)
  {
    hide Fe, Pow;
    SquareFe(c, c, Pow(x, e));
    PowAdd(x, e, e);
    if multiply {
      FeWide(c[..], Pow(x, 2 * e));
      MulFe(c, c, a, Pow(x, 2 * e), x);
      PowOne(x);
      PowAdd(x, 2 * e, 1);
    }
  }

  /** The (P - 2)-th power, which is the inverse when P is prime. */
  method Inv25519(o: array<Int64>, a: array<Int64>, ghost x: int) returns (ghost e: nat)
    requires o.Length == a.Length == 16 && Fe(a[..], x, FACTOR_MAX)
    modifies o
    ensures e == P - 2 && Fe(o[..], Pow(x, e), LIMB)
  {
    hide Fe, Pow, Exponent;
    ghost var skip: set<int> := {2, 4};
    var c := new Int64[16];
    CopyGf(c, a);
    assert c[..] == a[..];
    ChainStart(x, 254, skip);
    var i := 253;
    ghost var k: nat := 0;
    while i >= 0
      modifies c
      invariant -1 <= i <= 253 && k == 253 - i && Fe(a[..], x, FACTOR_MAX)
      invariant Fe(c[..], Pow(x, Exponent(k, 254, skip)), FACTOR_MAX)
      invariant i < 0 ==> Fe(c[..], Pow(x, Exponent(k, 254, skip)), LIMB)
    {
      ChainStep(c, a, i != 2 && i != 4, x, Exponent(k, 254, skip));
      ExponentStep(k, 254, skip);
      k := k + 1;
      FeWide(c[..], Pow(x, Exponent(k, 254, skip)));
      i := i - 1;
    }
    e := Exponent(k, 254, skip);
    InverseExponent(254, 249);
    CopyGf(o, c);
  }

  lemma ChainStart(x: int, n: int, skip: set<int>)
    ensures Pow(x, Exponent(0, n, skip)) == x
  {
    PowOne(x);
  }

  /** The ((P - 5) / 8)-th power. */
  method Pow2523(o: array<Int64>, a: array<Int64>, ghost x: int) returns (ghost e: nat)
    requires o.Length == a.Length == 16 && Fe(a[..], x, FACTOR_MAX)
    modifies o
    ensures e == (P - 5) / 8 && Fe(o[..], Pow(x, e), LIMB)
  {
    hide Fe, Pow, Exponent;
    ghost var skip: set<int> := {1};
    var c := new Int64[16];
    CopyGf(c, a);
    assert c[..] == a[..];
    ChainStart(x, 251, skip);
    var i := 250;
    ghost var k: nat := 0;
    while i >= 0
      modifies c
      invariant -1 <= i <= 250 && k == 250 - i && Fe(a[..], x, FACTOR_MAX)
      invariant Fe(c[..], Pow(x, Exponent(k, 251, skip)), FACTOR_MAX)
      invariant i < 0 ==> Fe(c[..], Pow(x, Exponent(k, 251, skip)), LIMB)
    {
      ChainStep(c, a, i != 1, x, Exponent(k, 251, skip));
      ExponentStep(k, 251, skip);
      k := k + 1;
      FeWide(c[..], Pow(x, Exponent(k, 251, skip)));
      i := i - 1;
    }
    e := Exponent(k, 251, skip);
    RootExponent(251, 249);
    CopyGf(o, c);
  }

  // ---- encoding a point ----

  /** The top bit of a 32-byte string is worth 2^255. */
  lemma TopBit(s: seq<Byte>)
    requires |s| == 32
    ensures s[31] < 128 <==> LeVal(s) < R / 2
    ensures s[31] < 128 ==> LeVal(s[31 := s[31] + 128]) == LeVal(s) + R / 2
  {
    hide LeVal, Pow;
    var t, w := s[..31], Pow(256, 31);
    assert s == t + [s[31]];
    LeValSnoc(t, s[31]);
    Pow31();
    LeBound(t);
    TopDigit(LeVal(t), s[31], w);
    if s[31] < 128 {
      LeValSnoc(t, s[31] + 128);
      Distrib(w, s[31], 128);
      assert s[31 := s[31] + 128] == t + [s[31] + 128];
    }
  }

  lemma TopDigit(v: int, x: int, w: int)
    requires 0 <= v < w
    ensures x < 128 <==> v + x * w < 128 * w
  {
    if x < 128 { MulMono(w, x, 127); } else { MulMono(w, 128, x); }
  }

  lemma Pow31()
    ensures Pow(256, 31) * 128 == R / 2
  {
    hide Pow;
    PowOne(256);
    PowAdd(256, 1, 1);
    PowAdd(256, 2, 2);
    PowAdd(256, 4, 4);
    PowAdd(256, 8, 8);
    PowAdd(256, 16, 8);
    PowAdd(256, 24, 4);
    PowAdd(256, 28, 2);
    PowAdd(256, 30, 1);
  }

  /** Writes y/z in 255 bits and the lowest bit of x/z on top, division being by the (P - 2)-th power. */
  method PackPoint(r: array<Byte>, p: Point, ghost v: Ext) returns (ghost e: nat)
    requires r.Length == 32 && p.Apart() && p.Holds(v) && r !in p.Repr()
    modifies r
    ensures e == P - 2
    ensures LeVal(r[..]) == (v.y * Pow(v.z, e)) % P + (v.x * Pow(v.z, e)) % P % 2 * (R / 2)
  {
    hide Fe, Pow, LeVal;
    var tx, ty := new Int64[16], new Int64[16];
    var zi := new Int64[16];
    FeWide(p.x[..], v.x);
    FeWide(p.y[..], v.y);
    FeWide(p.z[..], v.z);
    e := Inv25519(zi, p.z, v.z);
    ghost var i := Pow(v.z, e);
    FeWide(zi[..], i);
    MulFe(tx, p.x, zi, v.x, i);
    MulFe(ty, p.y, zi, v.y, i);
    FePack(ty[..], v.y * i);
    FePack(tx[..], v.x * i);
    var parity := Par25519(tx);
    Pack25519(r, ty);
    TopBit(r[..]);
    ghost var s := r[..];
    if parity == 1 {
      r[31] := r[31] + 128;
      assert r[..] == s[31 := s[31] + 128];
    }
  }

  lemma FePack(s: seq<Int64>, x: int)
    requires Fe(s, x, LIMB)
    ensures Bounded(s, LIMB_MAX) && Val(s, B) % P == x % P
  {
    hide Val;
    CongMod(Val(s, B), x);
  }

  // ---- decoding a point ----

  /** y^2 - 1 and d y^2 + 1, whose quotient is x^2 on the curve. */
  method Fraction(num: array<Int64>, den: array<Int64>, y: array<Int64>, one: array<Int64>, ghost yv: int)
    requires num.Length == den.Length == y.Length == one.Length == 16
    requires num != den && num != y && den != y && num != one && den != one
    requires Fe(y[..], yv, LIMB) && Fe(one[..], 1, LIMB)
    modifies num, den
    ensures Fe(num[..], yv * yv - 1, 2 * LIMB) && Fe(den[..], 1 + (yv * yv) * D(), 2 * LIMB)
  {
    hide Fe, D;
    var d := new Int64[16](i requires 0 <= i < 16 => CurveD()[i]);
    assert d[..] == CurveD();
    CurveDHolds();
    FeWide(y[..], yv);
    SquareFe(num, y, yv);
    FeWide(num[..], yv * yv);
    MulFe(den, num, d, yv * yv, D());
    SubFe(num, num, one, yv * yv, 1, LIMB);
    AddFe(den, one, den, 1, (yv * yv) * D(), LIMB);
  }

  lemma CurveDHolds()
    ensures Fe(CurveD(), D(), FACTOR_MAX)
  {
    hide Val;
    Sixteen(CurveD());
  }

  function RootOfMinusOne(): seq<Int64> {
    [0xa0b0, 0x4a0e, 0x1b27, 0xc4ee, 0xe478, 0xad2f, 0x1806, 0x2f43,
     0xd7a7, 0x3dfb, 0x0099, 0x2b4d, 0xdf0b, 0x4fc1, 0x2480, 0x2b83]
  }

  /** A square root of minus one, by its limbs. */
  function Root(): int {
    Val(RootOfMinusOne(), B)
  }

  lemma RootHolds()
    ensures Fe(RootOfMinusOne(), Root(), FACTOR_MAX) && Cong(Root() * Root(), -1)
  {
    hide Val;
    Sixteen(RootOfMinusOne());
  }

  /** x^2 den and num differ modulo P. */
  method NotRoot(x: array<Int64>, num: array<Int64>, den: array<Int64>, ghost xv: int, ghost n: int, ghost d: int)
    returns (bad: bool)
    requires x.Length == num.Length == den.Length == 16
    requires Fe(x[..], xv, LIMB) && Fe(num[..], n, 2 * LIMB) && Fe(den[..], d, 2 * LIMB)
    ensures bad <==> !Cong(xv * xv * d, n)
  {
    hide Fe, Cong, Val;
    var chk := new Int64[16];
    FeWide(x[..], xv);
    SquareFe(chk, x, xv);
    FeWide(chk[..], xv * xv);
    FeWide2(den[..], d);
    MulFe(chk, chk, den, xv * xv, d);
    FeLimb(chk[..], xv * xv * d, LIMB);
    FeLimb(num[..], n, 2 * LIMB);
    bad := Neq25519(chk, num);
    CongMod(Val(chk[..], B), Val(num[..], B));
    CongMod(xv * xv * d, n);
  }

  lemma FeLimb(s: seq<Int64>, x: int, m: int)
    requires Fe(s, x, m) && m <= LIMB_MAX
    ensures Bounded(s, LIMB_MAX) && Val(s, B) % P == x % P
  {
    hide Val;
    CongMod(Val(s, B), x);
  }

  /** A candidate square root of num / den. */
  method Candidate(x: array<Int64>, num: array<Int64>, den: array<Int64>, ghost n: int, ghost d: int) returns (ghost xv: int, ghost a: int, ghost h: nat)
    requires x.Length == num.Length == den.Length == 16 && x != num && x != den
    requires Fe(num[..], n, FACTOR_MAX) && Fe(den[..], d, FACTOR_MAX)
    modifies x
    ensures Fe(x[..], xv, LIMB)
    ensures h == (P - 5) / 8 && a == (d * d) * (d * d) * (d * d) * n * d && xv == Pow(a, h) * n * d * d * d
  {
    hide Fe, Pow;
    var t, den2 := new Int64[16], new Int64[16];
    var den4, den6 := new Int64[16], new Int64[16];
    SquareFe(den2, den, d);
    ghost var d2 := d * d;
    FeWide(den2[..], d2);
    SquareFe(den4, den2, d2);
    FeWide(den4[..], d2 * d2);
    MulFe(den6, den4, den2, d2 * d2, d2);
    ghost var d6 := d2 * d2 * d2;
    FeWide(den6[..], d6);
    MulFe(t, den6, num, d6, n);
    FeWide(t[..], d6 * n);
    MulFe(t, t, den, d6 * n, d);
    a := d6 * n * d;
    FeWide(t[..], a);
    h := Pow2523(t, t, a);
    xv := Pow(a, h);
    FeWide(t[..], xv);
    MulFe(t, t, num, xv, n);
    FeWide(t[..], xv * n);
    MulFe(t, t, den, xv * n, d);
    FeWide(t[..], xv * n * d);
    MulFe(t, t, den, xv * n * d, d);
    FeWide(t[..], xv * n * d * d);
    MulFe(x, t, den, xv * n * d * d, d);
    xv := xv * n * d * d * d;
  }

  /** The sign bit asked for, once a root has been negated when its parity equals the bit. */
  ghost predicate Negated(x: int, bit: int) {
    x % P == 0 || x % P % 2 != bit
  }

  lemma FlipSign(x: int, bit: int)
    requires x % P % 2 == bit
    ensures Negated(0 - x, bit)
  {
    var r, k := x % P, x / P;
    assert x == k * P + r;
    if r != 0 { CongBy(0 - x, P - r, -k - 1); } else { CongBy(0 - x, 0, -k); }
  }

  /** Decodes a public key to the negative of its point: on success the point is on
      the curve, has the encoded y, and the sign opposite to the encoded one. Given
      Fermat's theorem for P, it fails exactly when no point of the curve has this y. */
  method UnpackNeg(r: Point, p: array<Byte>) returns (ok: bool, ghost v: Ext)
    requires r.Apart() && p.Length == 32 && p !in r.Repr()
    modifies r.x, r.y, r.z, r.t
    ensures ok ==> r.Holds(v) && OnCurve(v, D()) && v.z == 1 && v.y == LeVal(p[..]) % (R / 2) && Negated(v.x, p[31] / 128)
    ensures ok ==> HasX(LeVal(p[..]) % (R / 2), D())
    ensures forall e: nat :: Fermat(e) ==> (ok <==> HasX(LeVal(p[..]) % (R / 2), D()))
  {
    hide Fe, LeVal, Cong, Val, Negated, Pow, Fermat, OnCurve, D, Root;
    var num, den := new Int64[16], new Int64[16];
    SetSmall(r.z, 1);
    Unpack25519(r.y, p);
    ghost var y, x := Val(r.y[..], B), 0;
    DigitsHold(r.y[..]);
    Fraction(num, den, r.y, r.z, y);
    ghost var n, d := y * y - 1, 1 + (y * y) * D();
    FeWide2(num[..], n);
    FeWide2(den[..], d);
    ghost var a, h;
    x, a, h := Candidate(r.x, num, den, n, d);
    ghost var c := x;
    forall e: nat | Fermat(e) && HasX(y, D()) ensures Cong(c * c * d, n) || Cong((c * Root()) * (c * Root()) * d, n) {
      var w :| IsX(w, y, D());
      FermatIs(e);
      RootHolds();
      Decodes(n, d, w, a, h, c, Root(), e - 1);
    }
    var bad := NotRoot(r.x, num, den, x, n, d);
    if bad {
      x := TimesRoot(r.x, x);
    }
    bad := NotRoot(r.x, num, den, x, n, d);
    v := Ext(x, y, 1, x * y);
    if bad {
      return false, v;
    }
    x := FixSign(r.x, p[31] / 128, x, d, n);
    v := Ext(x, y, 1, x * y);
    assert IsX(x, y, D());
    PointOf(x, y, D());
    FeWide(r.x[..], x);
    FeWide(r.y[..], y);
    MulFe(r.t, r.x, r.y, x, y);
    ok := true;
  }

  lemma DigitsHold(s: seq<Int64>)
    requires |s| == 16 && Digits(s)
    ensures Fe(s, Val(s, B), LIMB)
  {
  }

  method TimesRoot(x: array<Int64>, ghost xv: int) returns (ghost w: int)
    requires x.Length == 16 && Fe(x[..], xv, LIMB)
    modifies x
    ensures Fe(x[..], w, LIMB) && w == xv * Root()
  {
    hide Fe, Root, Cong;
    var i := new Int64[16](i requires 0 <= i < 16 => RootOfMinusOne()[i]);
    assert i[..] == RootOfMinusOne();
    RootHolds();
    FeWide(x[..], xv);
    MulFe(x, x, i, xv, Root());
    w := xv * Root();
  }

  method FixSign(x: array<Int64>, bit: Byte, ghost xv: int, ghost d: int, ghost n: int) returns (ghost w: int)
    requires x.Length == 16 && Fe(x[..], xv, LIMB) && Cong(xv * xv * d, n)
    modifies x
    ensures Fe(x[..], w, LIMB) && Cong(w * w * d, n) && Negated(w, bit)
  {
    hide Fe, Cong;
    FePack(x[..], xv);
    var parity := Par25519(x);
    w := xv;
    if parity == bit {
      FlipSign(xv, bit);
      Negate(x, xv);
      w := 0 - xv;
      assert w * w == xv * xv;
    }
  }

  method Negate(x: array<Int64>, ghost xv: int)
    requires x.Length == 16 && Fe(x[..], xv, LIMB)
    modifies x
    ensures Fe(x[..], 0 - xv, LIMB)
  {
    hide Val, Cong;
    var zero := new Int64[16](_ => 0);
    ZeroVal(zero[..]);
    ghost var s := x[..];
    Sub(x, zero, x);
    CongBy(0, 0, 0);
    CongAdd(0, 0, Val(s, B), xv);
  }

  /** What a packed point says: its top bit, and the rest. */
  lemma PackedParts(s: seq<Byte>, y: int, bit: int)
    requires |s| == 32 && 0 <= y < P && (bit == 0 || bit == 1) && LeVal(s) == y + bit * (R / 2)
    ensures LeVal(s) % (R / 2) == y && s[31] / 128 == bit
  {
    hide LeVal;
    TopBit(s);
    HalfParts(LeVal(s), y, bit, R / 2);
  }

  lemma HalfParts(v: int, y: int, bit: int, h: int)
    requires 0 <= y < h && (bit == 0 || bit == 1) && v == y + bit * h
    ensures v % h == y && (v < h <==> bit == 0)
  {
    Remainder(v, h, bit, y);
  }

  /** A root with the sign turned is minus the x that was packed. */
  lemma TurnedRoot(x: int, w: int, n: int, d: int, e: nat)
    requires Fermat(e + 1) && Cong(x * x * d, n) && Cong(w * w * d, n) && !Cong(d, 0) && Negated(w, x % P % 2)
    ensures Cong(w, -x)
  {
    hide Cong, Fermat;
    UpToSign(x, w, n, d, e);
    CongMod(w, x);
    CongMod(w, 0);
    CongMod(x, 0);
    if Cong(w, x) {
      CongSelf(0);
      CongAdd(0, 0, x, 0);
      CongSym(-x, 0);
      CongTrans(w, 0, -x);
    }
  }

  lemma TimesBack(a: int, z: int, i: int)
    requires Cong(z * i, 1)
    ensures Cong((a * i) * z, a)
  {
    hide Cong;
    CongSelf(a);
    CongMul(a, a, z * i, 1);
    assert (a * i) * z == a * (z * i) by { Assoc(a, i, z); }
  }

  /** A multiple of the negative. */
  lemma ScaledBack(x: int, y: int, z: int, vx: int, vy: int, wx: int, wy: int)
    requires Cong(x * z, vx) && Cong(y * z, vy) && Cong(wx, -x) && Cong(wy, y)
    ensures Cong(wx * z, -vx) && Cong(wy * z, vy)
  {
    hide Cong;
    CongSelf(z);
    CongMul(wx, -x, z, z);
    CongMul(wy, y, z, z);
    CongTrans(wy * z, y * z, vy);
    CongSelf(0);
    CongAdd(0, 0, x * z, vx);
    assert (-x) * z == 0 - x * z;
    CongTrans(wx * z, (-x) * z, -vx);
  }

  /** Packs a point and decodes the bytes again: given Fermat's theorem for P, a point of the
      curve with a denominator comes back as its negative. */
  method Reencode(p: Point, r: Point, ghost v: Ext) returns (ok: bool, ghost w: Ext)
    requires p.Apart() && p.Holds(v) && r.Apart() && p.Repr() !! r.Repr()
    modifies r.x, r.y, r.z, r.t
    ensures ok ==> r.Holds(w)
    ensures forall e: nat :: Fermat(e) && OnCurve(v, D()) && !Cong(v.z, 0) ==>
              ok && OnCurve(w, D()) && w.z == 1 && Cong(w.x * v.z, -v.x) && Cong(w.y * v.z, v.y)
  {
    hide Cong, Fermat, LeVal, Negated, OnCurve, Fe, Pow, D;
    var s := new Byte[32];
    ghost var e := PackPoint(s, p, v);
    ok, w := UnpackNeg(r, s);
    forall f: nat | Fermat(f) && OnCurve(v, D()) && !Cong(v.z, 0)
      ensures ok && OnCurve(w, D()) && w.z == 1 && Cong(w.x * v.z, -v.x) && Cong(w.y * v.z, v.y)
    {
      FermatIs(f);
      InverseIs(v.z, e);
      ghost var i := Pow(v.z, e);
      ghost var x, y := v.x * i, v.y * i;
      ghost var y1 := y % P;
      ghost var n, d := y1 * y1 - 1, 1 + (y1 * y1) * D();
      AffineX(v, i, D());
      PackedParts(s[..], y1, x % P % 2);
      CongMod(y, y1);
      FractionCong(y, y1, D());
      QuotientCong(x, y * y - 1, 1 + (y * y) * D(), n, d);
      assert IsX(x, y1, D());
      assert ok;
      NotMinusOne();
      DenominatorNotZero(x * x, y1 * y1, D());
      AffineX(w, 1, D());
      CongSelf(1);
      assert w.x * 1 == w.x && w.y * 1 == w.y;
      TurnedRoot(x, w.x, n, d, e);
      TimesBack(v.x, v.z, i);
      TimesBack(v.y, v.z, i);
      CongMod(w.y, y);
      ScaledBack(x, y, v.z, v.x, v.y, w.x, w.y);
    }
  }

  lemma NotMinusOne()
    ensures !Cong(1 + D(), 0)
  {
    hide D;
    DValue();
  }

  lemma FermatIs(e: nat)
    requires Fermat(e)
    ensures e == P - 1
  {
  }
}
