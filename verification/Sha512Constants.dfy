/** Where the constants of SHA-512 come from: the first 64 bits of the fractional parts of
    the cube roots of the first eighty primes, and of the square roots of the first eight
    (sections 4.2.3 and 5.3.5 of FIPS 180-4). */
module Sha512Constants {
  import opened Sha512

  // ---- the first eighty primes ----

  function PrimeRow(i: int): (r: seq<int>)
    requires 0 <= i < 10
    ensures |r| == 8
  {
    if i == 0 then [2, 3, 5, 7, 11, 13, 17, 19]
    else if i == 1 then [23, 29, 31, 37, 41, 43, 47, 53]
    else if i == 2 then [59, 61, 67, 71, 73, 79, 83, 89]
    else if i == 3 then [97, 101, 103, 107, 109, 113, 127, 131]
    else if i == 4 then [137, 139, 149, 151, 157, 163, 167, 173]
    else if i == 5 then [179, 181, 191, 193, 197, 199, 211, 223]
    else if i == 6 then [227, 229, 233, 239, 241, 251, 257, 263]
    else if i == 7 then [269, 271, 277, 281, 283, 293, 307, 311]
    else if i == 8 then [313, 317, 331, 337, 347, 349, 353, 359]
    else [367, 373, 379, 383, 389, 397, 401, 409]
  }

  function Prime(t: int): int
    requires 0 <= t < 80
  {
    PrimeRow(t / 8)[t % 8]
  }

  ghost predicate IsPrime(n: int) {
    n >= 2 && forall d :: 2 <= d < n ==> n % d != 0
  }

  predicate Divides(d: int, n: int) {
    0 < d < n && n % d == 0
  }

  /** Some prime below 20 divides n and is not n. */
  predicate Divisible(n: int) {
    || Divides(2, n) || Divides(3, n) || Divides(5, n) || Divides(7, n)
    || Divides(11, n) || Divides(13, n) || Divides(17, n) || Divides(19, n)
  }

  lemma DivisibleComposite(n: int)
    requires Divisible(n)
    ensures !IsPrime(n)
  {
  }

  lemma MultipleDivisible(n: int, m: int)
    requires m >= 2 && (n == 2 * m || n == 3 * m || n == 5 * m || n == 7 * m || n == 11 * m || n == 13 * m || n == 17 * m || n == 19 * m)
    ensures Divisible(n)
  {
    if n == 2 * m { assert n % 2 == 0; }
    else if n == 3 * m { assert n % 3 == 0; }
    else if n == 5 * m { assert n % 5 == 0; }
    else if n == 7 * m { assert n % 7 == 0; }
    else if n == 11 * m { assert n % 11 == 0; }
    else if n == 13 * m { assert n % 13 == 0; }
    else if n == 17 * m { assert n % 17 == 0; }
    else { assert n % 19 == 0; }
  }

  lemma SmallFactor(n: int, d: int, e: int)
    requires n == d * e && 2 <= d <= 20 && e >= 2
    ensures Divisible(n)
  {
    hide Divisible;
    if d == 2 || d == 3 || d == 5 || d == 7 || d == 11 || d == 13 || d == 17 || d == 19 { MultipleDivisible(n, e); }
    else if d == 4 || d == 6 { MultipleDivisible(n, if d == 4 then 2 * e else 3 * e); }
    else if d == 8 || d == 10 { MultipleDivisible(n, if d == 8 then 4 * e else 5 * e); }
    else if d == 12 || d == 14 { MultipleDivisible(n, if d == 12 then 6 * e else 7 * e); }
    else if d == 16 || d == 18 { MultipleDivisible(n, if d == 16 then 8 * e else 9 * e); }
    else if d == 9 || d == 15 { MultipleDivisible(n, if d == 9 then 3 * e else 5 * e); }
    else { MultipleDivisible(n, 10 * e); }
  }

  /** One of two factors of a number below 441 is at most 20. */
  lemma IndivisiblePrime(n: int)
    requires 2 <= n < 441 && !Divisible(n)
    ensures IsPrime(n)
  {
    hide Divisible;
    forall d | 2 <= d < n ensures n % d != 0 {
      if n % d == 0 {
        Cofactor(n, d);
      }
    }
  }

  lemma Cofactor(n: int, d: int)
    requires 2 <= d < n < 441 && n % d == 0
    ensures Divisible(n)
  {
    hide Divisible;
    var e := n / d;
    assert n == d * e;
    assert e >= 2 by {
      if e <= 1 { Grows(d, d, e, 1); }
    }
    if d <= 20 {
      SmallFactor(n, d, e);
    } else {
      assert e <= 20 by {
        if e > 20 { Grows(21, d, 21, e); }
      }
      SmallFactor(n, e, d);
    }
  }

  lemma Grows(a: int, b: int, c: int, d: int)
    requires 0 <= a <= b && c <= d && 0 <= d
    ensures a * c <= b * d
  {
    assert a * c <= a * d;
    assert a * d <= b * d;
  }

  /** Every number from lo on and below hi is divisible. */
  predicate AllDivisible(lo: int, hi: int)
    decreases hi - lo
  {
    lo >= hi || (Divisible(lo) && AllDivisible(lo + 1, hi))
  }

  lemma {:induction false} InRange(lo: int, hi: int, n: int)
    requires AllDivisible(lo, hi) && lo <= n < hi
    ensures Divisible(n)
    decreases hi - lo
  {
    if lo < n { InRange(lo + 1, hi, n); }
  }

  // ---- roots as integers ----

  /** c and k are the integer part and the first 64 bits of the fraction of the cube root of p:
      n = c * 2^64 + k is the largest integer with n^3 <= p * 2^192. */
  ghost predicate CubeRoot(p: int, c: int, k: int) {
    var n := c * 0x1_0000_0000_0000_0000 + k;
    n * n * n <= p * 0x1_0000_0000_0000_0000_0000_0000_0000_0000_0000_0000_0000_0000 < (n + 1) * (n + 1) * (n + 1)
  }

  /** The same for the square root: n^2 <= p * 2^128 < (n + 1)^2. */
  ghost predicate SquareRoot(p: int, c: int, k: int) {
    var n := c * 0x1_0000_0000_0000_0000 + k;
    n * n <= p * 0x1_0000_0000_0000_0000_0000_0000_0000_0000 < (n + 1) * (n + 1)
  }

  // ---- the two tables, entry by entry ----

  /** The entry before entry t, or 1. */
  function Previous(t: int): int
    requires 0 <= t < 80
  {
    if t == 0 then 1 else Prime(t - 1)
  }

  /** Entry t is not divisible, and every number between the entry before and it is. */
  ghost predicate NextAt(t: int)
    requires 0 <= t < 80
  {
    Previous(t) < Prime(t) && !Divisible(Prime(t)) && AllDivisible(Previous(t) + 1, Prime(t))
  }

  lemma PutNext(t: int, lo: int, p: int)
    requires 0 <= t < 80 && Previous(t) + 1 == lo <= p == Prime(t) && !Divisible(p) && AllDivisible(lo, p)
    ensures NextAt(t)
  {
    hide Divisible, AllDivisible, Prime;
  }

  lemma Sieve0(t: int)
    requires 0 <= t < 5
    ensures NextAt(t)
  {
    hide NextAt;
    PutNext(0, 2, 2);
    PutNext(1, 3, 3);
    PutNext(2, 4, 5);
    PutNext(3, 6, 7);
    PutNext(4, 8, 11);
    assert t == 0 || t == 1 || t == 2 || t == 3 || t == 4;
  }

  lemma Sieve1(t: int)
    requires 5 <= t < 10
    ensures NextAt(t)
  {
    hide NextAt;
    PutNext(5, 12, 13);
    PutNext(6, 14, 17);
    PutNext(7, 18, 19);
    PutNext(8, 20, 23);
    PutNext(9, 24, 29);
    assert t == 5 || t == 6 || t == 7 || t == 8 || t == 9;
  }

  lemma Sieve2(t: int)
    requires 10 <= t < 15
    ensures NextAt(t)
  {
    hide NextAt;
    PutNext(10, 30, 31);
    PutNext(11, 32, 37);
    PutNext(12, 38, 41);
    PutNext(13, 42, 43);
    PutNext(14, 44, 47);
    assert t == 10 || t == 11 || t == 12 || t == 13 || t == 14;
  }

  lemma Sieve3(t: int)
    requires 15 <= t < 20
    ensures NextAt(t)
  {
    hide NextAt;
    PutNext(15, 48, 53);
    PutNext(16, 54, 59);
    PutNext(17, 60, 61);
    PutNext(18, 62, 67);
    PutNext(19, 68, 71);
    assert t == 15 || t == 16 || t == 17 || t == 18 || t == 19;
  }

  lemma Sieve4(t: int)
    requires 20 <= t < 25
    ensures NextAt(t)
  {
    hide NextAt;
    PutNext(20, 72, 73);
    PutNext(21, 74, 79);
    PutNext(22, 80, 83);
    PutNext(23, 84, 89);
    PutNext(24, 90, 97);
    assert t == 20 || t == 21 || t == 22 || t == 23 || t == 24;
  }

  lemma Sieve5(t: int)
    requires 25 <= t < 30
    ensures NextAt(t)
  {
    hide NextAt;
    PutNext(25, 98, 101);
    PutNext(26, 102, 103);
    PutNext(27, 104, 107);
    PutNext(28, 108, 109);
    PutNext(29, 110, 113);
    assert t == 25 || t == 26 || t == 27 || t == 28 || t == 29;
  }

  lemma Sieve6(t: int)
    requires 30 <= t < 35
    ensures NextAt(t)
  {
    hide NextAt;
    PutNext(30, 114, 127);
    PutNext(31, 128, 131);
    PutNext(32, 132, 137);
    PutNext(33, 138, 139);
    PutNext(34, 140, 149);
    assert t == 30 || t == 31 || t == 32 || t == 33 || t == 34;
  }

  lemma Sieve7(t: int)
    requires 35 <= t < 40
    ensures NextAt(t)
  {
    hide NextAt;
    PutNext(35, 150, 151);
    PutNext(36, 152, 157);
    PutNext(37, 158, 163);
    PutNext(38, 164, 167);
    PutNext(39, 168, 173);
    assert t == 35 || t == 36 || t == 37 || t == 38 || t == 39;
  }

  lemma Sieve8(t: int)
    requires 40 <= t < 45
    ensures NextAt(t)
  {
    hide NextAt;
    PutNext(40, 174, 179);
    PutNext(41, 180, 181);
    PutNext(42, 182, 191);
    PutNext(43, 192, 193);
    PutNext(44, 194, 197);
    assert t == 40 || t == 41 || t == 42 || t == 43 || t == 44;
  }

  lemma Sieve9(t: int)
    requires 45 <= t < 50
    ensures NextAt(t)
  {
    hide NextAt;
    PutNext(45, 198, 199);
    PutNext(46, 200, 211);
    PutNext(47, 212, 223);
    PutNext(48, 224, 227);
    PutNext(49, 228, 229);
    assert t == 45 || t == 46 || t == 47 || t == 48 || t == 49;
  }

  lemma Sieve10(t: int)
    requires 50 <= t < 55
    ensures NextAt(t)
  {
    hide NextAt;
    PutNext(50, 230, 233);
    PutNext(51, 234, 239);
    PutNext(52, 240, 241);
    PutNext(53, 242, 251);
    PutNext(54, 252, 257);
    assert t == 50 || t == 51 || t == 52 || t == 53 || t == 54;
  }

  lemma Sieve11(t: int)
    requires 55 <= t < 60
    ensures NextAt(t)
  {
    hide NextAt;
    PutNext(55, 258, 263);
    PutNext(56, 264, 269);
    PutNext(57, 270, 271);
    PutNext(58, 272, 277);
    PutNext(59, 278, 281);
    assert t == 55 || t == 56 || t == 57 || t == 58 || t == 59;
  }

  lemma Sieve12(t: int)
    requires 60 <= t < 65
    ensures NextAt(t)
  {
    hide NextAt;
    PutNext(60, 282, 283);
    PutNext(61, 284, 293);
    PutNext(62, 294, 307);
    PutNext(63, 308, 311);
    PutNext(64, 312, 313);
    assert t == 60 || t == 61 || t == 62 || t == 63 || t == 64;
  }

  lemma Sieve13(t: int)
    requires 65 <= t < 70
    ensures NextAt(t)
  {
    hide NextAt;
    PutNext(65, 314, 317);
    PutNext(66, 318, 331);
    PutNext(67, 332, 337);
    PutNext(68, 338, 347);
    PutNext(69, 348, 349);
    assert t == 65 || t == 66 || t == 67 || t == 68 || t == 69;
  }

  lemma Sieve14(t: int)
    requires 70 <= t < 75
    ensures NextAt(t)
  {
    hide NextAt;
    PutNext(70, 350, 353);
    PutNext(71, 354, 359);
    PutNext(72, 360, 367);
    PutNext(73, 368, 373);
    PutNext(74, 374, 379);
    assert t == 70 || t == 71 || t == 72 || t == 73 || t == 74;
  }

  lemma Sieve15(t: int)
    requires 75 <= t < 80
    ensures NextAt(t)
  {
    hide NextAt;
    PutNext(75, 380, 383);
    PutNext(76, 384, 389);
    PutNext(77, 390, 397);
    PutNext(78, 398, 401);
    PutNext(79, 402, 409);
    assert t == 75 || t == 76 || t == 77 || t == 78 || t == 79;
  }

  lemma AllNext(t: int)
    requires 0 <= t < 80
    ensures NextAt(t)
  {
    hide NextAt;
    if t < 5 { Sieve0(t); }
    else if t < 10 { Sieve1(t); }
    else if t < 15 { Sieve2(t); }
    else if t < 20 { Sieve3(t); }
    else if t < 25 { Sieve4(t); }
    else if t < 30 { Sieve5(t); }
    else if t < 35 { Sieve6(t); }
    else if t < 40 { Sieve7(t); }
    else if t < 45 { Sieve8(t); }
    else if t < 50 { Sieve9(t); }
    else if t < 55 { Sieve10(t); }
    else if t < 60 { Sieve11(t); }
    else if t < 65 { Sieve12(t); }
    else if t < 70 { Sieve13(t); }
    else if t < 75 { Sieve14(t); }
    else { Sieve15(t); }
  }

  // ---- the constants ----

  function Value(t: int): int
    requires 0 <= t < 80
  {
    K(t).v as int
  }

  ghost predicate RootAt(t: int)
    requires 0 <= t < 80
  {
    exists c: nat :: CubeRoot(Prime(t), c, Value(t))
  }

  lemma PutRoot(t: int, p: int, c: nat, w: bv64, k: int)
    requires 0 <= t < 80 && Prime(t) == p && K(t) == Bits(w) && w as int == k && CubeRoot(p, c, k)
    ensures RootAt(t)
  {
    hide CubeRoot, Prime, K;
    assert CubeRoot(Prime(t), c, Value(t));
  }

  lemma Roots0(t: int)
    requires 0 <= t < 8
    ensures RootAt(t)
  {
    hide RootAt;
    PutRoot(0, 2, 1, 0x428a_2f98_d728_ae22, 0x428a_2f98_d728_ae22);
    PutRoot(1, 3, 1, 0x7137_4491_23ef_65cd, 0x7137_4491_23ef_65cd);
    PutRoot(2, 5, 1, 0xb5c0_fbcf_ec4d_3b2f, 0xb5c0_fbcf_ec4d_3b2f);
    PutRoot(3, 7, 1, 0xe9b5_dba5_8189_dbbc, 0xe9b5_dba5_8189_dbbc);
    PutRoot(4, 11, 2, 0x3956_c25b_f348_b538, 0x3956_c25b_f348_b538);
    PutRoot(5, 13, 2, 0x59f1_11f1_b605_d019, 0x59f1_11f1_b605_d019);
    PutRoot(6, 17, 2, 0x923f_82a4_af19_4f9b, 0x923f_82a4_af19_4f9b);
    PutRoot(7, 19, 2, 0xab1c_5ed5_da6d_8118, 0xab1c_5ed5_da6d_8118);
    assert t == 0 || t == 1 || t == 2 || t == 3 || t == 4 || t == 5 || t == 6 || t == 7;
  }

  lemma Roots1(t: int)
    requires 8 <= t < 16
    ensures RootAt(t)
  {
    hide RootAt;
    PutRoot(8, 23, 2, 0xd807_aa98_a303_0242, 0xd807_aa98_a303_0242);
    PutRoot(9, 29, 3, 0x1283_5b01_4570_6fbe, 0x1283_5b01_4570_6fbe);
    PutRoot(10, 31, 3, 0x2431_85be_4ee4_b28c, 0x2431_85be_4ee4_b28c);
    PutRoot(11, 37, 3, 0x550c_7dc3_d5ff_b4e2, 0x550c_7dc3_d5ff_b4e2);
    PutRoot(12, 41, 3, 0x72be_5d74_f27b_896f, 0x72be_5d74_f27b_896f);
    PutRoot(13, 43, 3, 0x80de_b1fe_3b16_96b1, 0x80de_b1fe_3b16_96b1);
    PutRoot(14, 47, 3, 0x9bdc_06a7_25c7_1235, 0x9bdc_06a7_25c7_1235);
    PutRoot(15, 53, 3, 0xc19b_f174_cf69_2694, 0xc19b_f174_cf69_2694);
    assert t == 8 || t == 9 || t == 10 || t == 11 || t == 12 || t == 13 || t == 14 || t == 15;
  }

  lemma Roots2(t: int)
    requires 16 <= t < 24
    ensures RootAt(t)
  {
    hide RootAt;
    PutRoot(16, 59, 3, 0xe49b_69c1_9ef1_4ad2, 0xe49b_69c1_9ef1_4ad2);
    PutRoot(17, 61, 3, 0xefbe_4786_384f_25e3, 0xefbe_4786_384f_25e3);
    PutRoot(18, 67, 4, 0x0fc1_9dc6_8b8c_d5b5, 0x0fc1_9dc6_8b8c_d5b5);
    PutRoot(19, 71, 4, 0x240c_a1cc_77ac_9c65, 0x240c_a1cc_77ac_9c65);
    PutRoot(20, 73, 4, 0x2de9_2c6f_592b_0275, 0x2de9_2c6f_592b_0275);
    PutRoot(21, 79, 4, 0x4a74_84aa_6ea6_e483, 0x4a74_84aa_6ea6_e483);
    PutRoot(22, 83, 4, 0x5cb0_a9dc_bd41_fbd4, 0x5cb0_a9dc_bd41_fbd4);
    PutRoot(23, 89, 4, 0x76f9_88da_8311_53b5, 0x76f9_88da_8311_53b5);
    assert t == 16 || t == 17 || t == 18 || t == 19 || t == 20 || t == 21 || t == 22 || t == 23;
  }

  lemma Roots3(t: int)
    requires 24 <= t < 32
    ensures RootAt(t)
  {
    hide RootAt;
    PutRoot(24, 97, 4, 0x983e_5152_ee66_dfab, 0x983e_5152_ee66_dfab);
    PutRoot(25, 101, 4, 0xa831_c66d_2db4_3210, 0xa831_c66d_2db4_3210);
    PutRoot(26, 103, 4, 0xb003_27c8_98fb_213f, 0xb003_27c8_98fb_213f);
    PutRoot(27, 107, 4, 0xbf59_7fc7_beef_0ee4, 0xbf59_7fc7_beef_0ee4);
    PutRoot(28, 109, 4, 0xc6e0_0bf3_3da8_8fc2, 0xc6e0_0bf3_3da8_8fc2);
    PutRoot(29, 113, 4, 0xd5a7_9147_930a_a725, 0xd5a7_9147_930a_a725);
    PutRoot(30, 127, 5, 0x06ca_6351_e003_826f, 0x06ca_6351_e003_826f);
    PutRoot(31, 131, 5, 0x1429_2967_0a0e_6e70, 0x1429_2967_0a0e_6e70);
    assert t == 24 || t == 25 || t == 26 || t == 27 || t == 28 || t == 29 || t == 30 || t == 31;
  }

  lemma Roots4(t: int)
    requires 32 <= t < 40
    ensures RootAt(t)
  {
    hide RootAt;
    PutRoot(32, 137, 5, 0x27b7_0a85_46d2_2ffc, 0x27b7_0a85_46d2_2ffc);
    PutRoot(33, 139, 5, 0x2e1b_2138_5c26_c926, 0x2e1b_2138_5c26_c926);
    PutRoot(34, 149, 5, 0x4d2c_6dfc_5ac4_2aed, 0x4d2c_6dfc_5ac4_2aed);
    PutRoot(35, 151, 5, 0x5338_0d13_9d95_b3df, 0x5338_0d13_9d95_b3df);
    PutRoot(36, 157, 5, 0x650a_7354_8baf_63de, 0x650a_7354_8baf_63de);
    PutRoot(37, 163, 5, 0x766a_0abb_3c77_b2a8, 0x766a_0abb_3c77_b2a8);
    PutRoot(38, 167, 5, 0x81c2_c92e_47ed_aee6, 0x81c2_c92e_47ed_aee6);
    PutRoot(39, 173, 5, 0x9272_2c85_1482_353b, 0x9272_2c85_1482_353b);
    assert t == 32 || t == 33 || t == 34 || t == 35 || t == 36 || t == 37 || t == 38 || t == 39;
  }

  lemma Roots5(t: int)
    requires 40 <= t < 48
    ensures RootAt(t)
  {
    hide RootAt;
    PutRoot(40, 179, 5, 0xa2bf_e8a1_4cf1_0364, 0xa2bf_e8a1_4cf1_0364);
    PutRoot(41, 181, 5, 0xa81a_664b_bc42_3001, 0xa81a_664b_bc42_3001);
    PutRoot(42, 191, 5, 0xc24b_8b70_d0f8_9791, 0xc24b_8b70_d0f8_9791);
    PutRoot(43, 193, 5, 0xc76c_51a3_0654_be30, 0xc76c_51a3_0654_be30);
    PutRoot(44, 197, 5, 0xd192_e819_d6ef_5218, 0xd192_e819_d6ef_5218);
    PutRoot(45, 199, 5, 0xd699_0624_5565_a910, 0xd699_0624_5565_a910);
    PutRoot(46, 211, 5, 0xf40e_3585_5771_202a, 0xf40e_3585_5771_202a);
    PutRoot(47, 223, 6, 0x106a_a070_32bb_d1b8, 0x106a_a070_32bb_d1b8);
    assert t == 40 || t == 41 || t == 42 || t == 43 || t == 44 || t == 45 || t == 46 || t == 47;
  }

  lemma Roots6(t: int)
    requires 48 <= t < 56
    ensures RootAt(t)
  {
    hide RootAt;
    PutRoot(48, 227, 6, 0x19a4_c116_b8d2_d0c8, 0x19a4_c116_b8d2_d0c8);
    PutRoot(49, 229, 6, 0x1e37_6c08_5141_ab53, 0x1e37_6c08_5141_ab53);
    PutRoot(50, 233, 6, 0x2748_774c_df8e_eb99, 0x2748_774c_df8e_eb99);
    PutRoot(51, 239, 6, 0x34b0_bcb5_e19b_48a8, 0x34b0_bcb5_e19b_48a8);
    PutRoot(52, 241, 6, 0x391c_0cb3_c5c9_5a63, 0x391c_0cb3_c5c9_5a63);
    PutRoot(53, 251, 6, 0x4ed8_aa4a_e341_8acb, 0x4ed8_aa4a_e341_8acb);
    PutRoot(54, 257, 6, 0x5b9c_ca4f_7763_e373, 0x5b9c_ca4f_7763_e373);
    PutRoot(55, 263, 6, 0x682e_6ff3_d6b2_b8a3, 0x682e_6ff3_d6b2_b8a3);
    assert t == 48 || t == 49 || t == 50 || t == 51 || t == 52 || t == 53 || t == 54 || t == 55;
  }

  lemma Roots7(t: int)
    requires 56 <= t < 64
    ensures RootAt(t)
  {
    hide RootAt;
    PutRoot(56, 269, 6, 0x748f_82ee_5def_b2fc, 0x748f_82ee_5def_b2fc);
    PutRoot(57, 271, 6, 0x78a5_636f_4317_2f60, 0x78a5_636f_4317_2f60);
    PutRoot(58, 277, 6, 0x84c8_7814_a1f0_ab72, 0x84c8_7814_a1f0_ab72);
    PutRoot(59, 281, 6, 0x8cc7_0208_1a64_39ec, 0x8cc7_0208_1a64_39ec);
    PutRoot(60, 283, 6, 0x90be_fffa_2363_1e28, 0x90be_fffa_2363_1e28);
    PutRoot(61, 293, 6, 0xa450_6ceb_de82_bde9, 0xa450_6ceb_de82_bde9);
    PutRoot(62, 307, 6, 0xbef9_a3f7_b2c6_7915, 0xbef9_a3f7_b2c6_7915);
    PutRoot(63, 311, 6, 0xc671_78f2_e372_532b, 0xc671_78f2_e372_532b);
    assert t == 56 || t == 57 || t == 58 || t == 59 || t == 60 || t == 61 || t == 62 || t == 63;
  }

  lemma Roots8(t: int)
    requires 64 <= t < 72
    ensures RootAt(t)
  {
    hide RootAt;
    PutRoot(64, 313, 6, 0xca27_3ece_ea26_619c, 0xca27_3ece_ea26_619c);
    PutRoot(65, 317, 6, 0xd186_b8c7_21c0_c207, 0xd186_b8c7_21c0_c207);
    PutRoot(66, 331, 6, 0xeada_7dd6_cde0_eb1e, 0xeada_7dd6_cde0_eb1e);
    PutRoot(67, 337, 6, 0xf57d_4f7f_ee6e_d178, 0xf57d_4f7f_ee6e_d178);
    PutRoot(68, 347, 7, 0x06f0_67aa_7217_6fba, 0x06f0_67aa_7217_6fba);
    PutRoot(69, 349, 7, 0x0a63_7dc5_a2c8_98a6, 0x0a63_7dc5_a2c8_98a6);
    PutRoot(70, 353, 7, 0x113f_9804_bef9_0dae, 0x113f_9804_bef9_0dae);
    PutRoot(71, 359, 7, 0x1b71_0b35_131c_471b, 0x1b71_0b35_131c_471b);
    assert t == 64 || t == 65 || t == 66 || t == 67 || t == 68 || t == 69 || t == 70 || t == 71;
  }

  lemma Roots9(t: int)
    requires 72 <= t < 80
    ensures RootAt(t)
  {
    hide RootAt;
    PutRoot(72, 367, 7, 0x28db_77f5_2304_7d84, 0x28db_77f5_2304_7d84);
    PutRoot(73, 373, 7, 0x32ca_ab7b_40c7_2493, 0x32ca_ab7b_40c7_2493);
    PutRoot(74, 379, 7, 0x3c9e_be0a_15c9_bebc, 0x3c9e_be0a_15c9_bebc);
    PutRoot(75, 383, 7, 0x431d_67c4_9c10_0d4c, 0x431d_67c4_9c10_0d4c);
    PutRoot(76, 389, 7, 0x4cc5_d4be_cb3e_42b6, 0x4cc5_d4be_cb3e_42b6);
    PutRoot(77, 397, 7, 0x597f_299c_fc65_7e2a, 0x597f_299c_fc65_7e2a);
    PutRoot(78, 401, 7, 0x5fcb_6fab_3ad6_faec, 0x5fcb_6fab_3ad6_faec);
    PutRoot(79, 409, 7, 0x6c44_198c_4a47_5817, 0x6c44_198c_4a47_5817);
    assert t == 72 || t == 73 || t == 74 || t == 75 || t == 76 || t == 77 || t == 78 || t == 79;
  }

  /** Constant t is the first 64 bits of the fraction of the cube root of prime number t. */
  lemma KFromCubeRoot(t: int)
    requires 0 <= t < 80
    ensures RootAt(t)
  {
    hide RootAt;
    if t < 8 { Roots0(t); }
    else if t < 16 { Roots1(t); }
    else if t < 24 { Roots2(t); }
    else if t < 32 { Roots3(t); }
    else if t < 40 { Roots4(t); }
    else if t < 48 { Roots5(t); }
    else if t < 56 { Roots6(t); }
    else if t < 64 { Roots7(t); }
    else if t < 72 { Roots8(t); }
    else { Roots9(t); }
  }

  // ---- the results ----

  lemma {:induction false} Reached(t: int, n: int)
    requires 0 <= t < 80 && 2 <= n <= Prime(t)
    ensures Divisible(n) || exists i :: 0 <= i < 80 && Prime(i) == n
    decreases t
  {
    hide Prime, Divisible, AllDivisible;
    AllNext(t);
    if n < Prime(t) {
      if n <= Previous(t) { Reached(t - 1, n); } else { InRange(Previous(t) + 1, Prime(t), n); }
    }
  }

  lemma {:induction false} AtLeastTwo(t: int)
    requires 0 <= t < 80
    ensures 2 <= Prime(t)
    decreases t
  {
    hide Prime, Divisible, AllDivisible;
    AllNext(t);
    if t > 0 { AtLeastTwo(t - 1); }
  }

  lemma {:induction false} AtMost(t: int, u: int)
    requires 0 <= t <= u < 80
    ensures Prime(t) <= Prime(u) && (t < u ==> Prime(t) < Prime(u))
    decreases u
  {
    hide Prime, Divisible, AllDivisible;
    if t < u {
      AllNext(u);
      AtMost(t, u - 1);
    }
  }

  /** The table holds the primes up to 409, all of them, in order: the first eighty. */
  lemma PrimesAre(n: int, t: int, u: int)
    requires 2 <= n <= 409 && 0 <= t < u < 80
    ensures IsPrime(n) <==> exists i :: 0 <= i < 80 && Prime(i) == n
    ensures Prime(t) < Prime(u)
  {
    hide IsPrime, Divisible, AllDivisible;
    assert Prime(79) == 409;
    hide Prime;
    Reached(79, n);
    AtMost(t, u);
    if Divisible(n) {
      DivisibleComposite(n);
      forall i | 0 <= i < 80 ensures Prime(i) != n {
        AllNext(i);
      }
    } else {
      IndivisiblePrime(n);
    }
  }

  /** The initial values come from the square roots of the first eight. */
  lemma InitialFromSquareRoots()
    ensures var s := InitialHash();
            && SquareRoot(2, 1, s[0].v as int)
            && SquareRoot(3, 1, s[1].v as int)
            && SquareRoot(5, 2, s[2].v as int)
            && SquareRoot(7, 2, s[3].v as int)
            && SquareRoot(11, 3, s[4].v as int)
            && SquareRoot(13, 3, s[5].v as int)
            && SquareRoot(17, 4, s[6].v as int)
            && SquareRoot(19, 4, s[7].v as int)
  {
    assert SquareRoot(2, 1, 0x6a09_e667_f3bc_c908);
    assert SquareRoot(3, 1, 0xbb67_ae85_84ca_a73b);
    assert SquareRoot(5, 2, 0x3c6e_f372_fe94_f82b);
    assert SquareRoot(7, 2, 0xa54f_f53a_5f1d_36f1);
    assert SquareRoot(11, 3, 0x510e_527f_ade6_82d1);
    assert SquareRoot(13, 3, 0x9b05_688c_2b3e_6c1f);
    assert SquareRoot(17, 4, 0x1f83_d9ab_fb41_bd6b);
    assert SquareRoot(19, 4, 0x5be0_cd19_137e_2179);
  }
}
