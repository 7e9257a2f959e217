/** SHA-512: the function of FIPS 180-4 and the buffered computation of it. */
module Sha512 {
  import opened Bytes

  /** A 64-bit word. */
  datatype Word = Bits(v: bv64)

  const BLOCK := 128

  // ---- sections 4.1.3 and 4.2.3 of FIPS 180-4 ----

  function Rotr(x: bv64, n: bv7): bv64
    requires 0 < n < 64
  {
    (x >> n) | (x << (64 - n))
  }

  function Ch(x: bv64, y: bv64, z: bv64): bv64 {
    (x & y) ^ (!x & z)
  }

  function Maj(x: bv64, y: bv64, z: bv64): bv64 {
    (x & y) ^ (x & z) ^ (y & z)
  }

  function Sum0(x: bv64): bv64 {
    Rotr(x, 28) ^ Rotr(x, 34) ^ Rotr(x, 39)
  }

  function Sum1(x: bv64): bv64 {
    Rotr(x, 14) ^ Rotr(x, 18) ^ Rotr(x, 41)
  }

  function Sigma0(x: bv64): bv64 {
    Rotr(x, 1) ^ Rotr(x, 8) ^ (x >> 7)
  }

  function Sigma1(x: bv64): bv64 {
    Rotr(x, 19) ^ Rotr(x, 61) ^ (x >> 6)
  }

  /** Eight of the eighty constants. */
  function KRow(i: int): (r: seq<bv64>)
    requires 0 <= i < 10
    ensures |r| == 8
  {
    if i == 0 then
      [0x428a_2f98_d728_ae22, 0x7137_4491_23ef_65cd, 0xb5c0_fbcf_ec4d_3b2f, 0xe9b5_dba5_8189_dbbc,
       0x3956_c25b_f348_b538, 0x59f1_11f1_b605_d019, 0x923f_82a4_af19_4f9b, 0xab1c_5ed5_da6d_8118]
    else if i == 1 then
      [0xd807_aa98_a303_0242, 0x1283_5b01_4570_6fbe, 0x2431_85be_4ee4_b28c, 0x550c_7dc3_d5ff_b4e2,
       0x72be_5d74_f27b_896f, 0x80de_b1fe_3b16_96b1, 0x9bdc_06a7_25c7_1235, 0xc19b_f174_cf69_2694]
    else if i == 2 then
      [0xe49b_69c1_9ef1_4ad2, 0xefbe_4786_384f_25e3, 0x0fc1_9dc6_8b8c_d5b5, 0x240c_a1cc_77ac_9c65,
       0x2de9_2c6f_592b_0275, 0x4a74_84aa_6ea6_e483, 0x5cb0_a9dc_bd41_fbd4, 0x76f9_88da_8311_53b5]
    else if i == 3 then
      [0x983e_5152_ee66_dfab, 0xa831_c66d_2db4_3210, 0xb003_27c8_98fb_213f, 0xbf59_7fc7_beef_0ee4,
       0xc6e0_0bf3_3da8_8fc2, 0xd5a7_9147_930a_a725, 0x06ca_6351_e003_826f, 0x1429_2967_0a0e_6e70]
    else if i == 4 then
      [0x27b7_0a85_46d2_2ffc, 0x2e1b_2138_5c26_c926, 0x4d2c_6dfc_5ac4_2aed, 0x5338_0d13_9d95_b3df,
       0x650a_7354_8baf_63de, 0x766a_0abb_3c77_b2a8, 0x81c2_c92e_47ed_aee6, 0x9272_2c85_1482_353b]
    else if i == 5 then
      [0xa2bf_e8a1_4cf1_0364, 0xa81a_664b_bc42_3001, 0xc24b_8b70_d0f8_9791, 0xc76c_51a3_0654_be30,
       0xd192_e819_d6ef_5218, 0xd699_0624_5565_a910, 0xf40e_3585_5771_202a, 0x106a_a070_32bb_d1b8]
    else if i == 6 then
      [0x19a4_c116_b8d2_d0c8, 0x1e37_6c08_5141_ab53, 0x2748_774c_df8e_eb99, 0x34b0_bcb5_e19b_48a8,
       0x391c_0cb3_c5c9_5a63, 0x4ed8_aa4a_e341_8acb, 0x5b9c_ca4f_7763_e373, 0x682e_6ff3_d6b2_b8a3]
    else if i == 7 then
      [0x748f_82ee_5def_b2fc, 0x78a5_636f_4317_2f60, 0x84c8_7814_a1f0_ab72, 0x8cc7_0208_1a64_39ec,
       0x90be_fffa_2363_1e28, 0xa450_6ceb_de82_bde9, 0xbef9_a3f7_b2c6_7915, 0xc671_78f2_e372_532b]
    else if i == 8 then
      [0xca27_3ece_ea26_619c, 0xd186_b8c7_21c0_c207, 0xeada_7dd6_cde0_eb1e, 0xf57d_4f7f_ee6e_d178,
       0x06f0_67aa_7217_6fba, 0x0a63_7dc5_a2c8_98a6, 0x113f_9804_bef9_0dae, 0x1b71_0b35_131c_471b]
    else
      [0x28db_77f5_2304_7d84, 0x32ca_ab7b_40c7_2493, 0x3c9e_be0a_15c9_bebc, 0x431d_67c4_9c10_0d4c,
       0x4cc5_d4be_cb3e_42b6, 0x597f_299c_fc65_7e2a, 0x5fcb_6fab_3ad6_faec, 0x6c44_198c_4a47_5817]
  }

  function K(t: int): Word
    requires 0 <= t < 80
  {
    Bits(KRow(t / 8)[t % 8])
  }

  function InitialHash(): seq<Word> {
    [Bits(0x6a09_e667_f3bc_c908), Bits(0xbb67_ae85_84ca_a73b), Bits(0x3c6e_f372_fe94_f82b), Bits(0xa54f_f53a_5f1d_36f1),
     Bits(0x510e_527f_ade6_82d1), Bits(0x9b05_688c_2b3e_6c1f), Bits(0x1f83_d9ab_fb41_bd6b), Bits(0x5be0_cd19_137e_2179)]
  }

  // ---- big-endian words ----

  function Eight(s: seq<Byte>): (v: nat)
    requires |s| == 8
    ensures v < 0x1_0000_0000_0000_0000
  {
    0x100_0000_0000_0000 * s[0] as int + 0x1_0000_0000_0000 * s[1] as int + 0x100_0000_0000 * s[2] as int
    + 0x1_0000_0000 * s[3] as int + 0x100_0000 * s[4] as int + 0x1_0000 * s[5] as int + 0x100 * s[6] as int + s[7]
  }

  function Load(s: seq<Byte>): Word
    requires |s| == 8
  {
    Bits(Eight(s) as bv64)
  }

  /** The k bytes of v, most significant first. */
  function Be(v: nat, k: nat): (s: seq<Byte>)
    ensures |s| == k
  {
    if k == 0 then [] else Be(v / 256, k - 1) + [v % 256]
  }

  // ---- section 6.4.2: one block ----

  /** Addition modulo 2^64. */
  function Plus(x: Word, y: Word): Word {
    Bits(x.v + y.v)
  }

  function Extend(w2: Word, w7: Word, w15: Word, w16: Word): Word {
    Bits(Sigma1(w2.v) + w7.v + Sigma0(w15.v) + w16.v)
  }

  function T1(e: Word, f: Word, g: Word, h: Word, k: Word, w: Word): Word {
    Bits(h.v + Sum1(e.v) + Ch(e.v, f.v, g.v) + k.v + w.v)
  }

  function T2(a: Word, b: Word, c: Word): Word {
    Bits(Sum0(a.v) + Maj(a.v, b.v, c.v))
  }

  function W(block: seq<Byte>, t: nat): Word
    requires |block| == BLOCK && t < 80
  {
    if t < 16 then Load(block[8 * t..8 * t + 8])
    else Extend(W(block, t - 2), W(block, t - 7), W(block, t - 15), W(block, t - 16))
  }

  datatype Regs = Regs(a: Word, b: Word, c: Word, d: Word, e: Word, f: Word, g: Word, h: Word)

  function Round(r: Regs, k: Word, w: Word): Regs {
    var t1 := T1(r.e, r.f, r.g, r.h, k, w);
    Regs(Plus(t1, T2(r.a, r.b, r.c)), r.a, r.b, r.c, Plus(r.d, t1), r.e, r.f, r.g)
  }

  function Rounds(r: Regs, block: seq<Byte>, t: nat): Regs
    requires |block| == BLOCK && t <= 80
  {
    if t == 0 then r else Round(Rounds(r, block, t - 1), K(t - 1), W(block, t - 1))
  }

  function Load8(s: seq<Word>): Regs
    requires |s| == 8
  {
    Regs(s[0], s[1], s[2], s[3], s[4], s[5], s[6], s[7])
  }

  function Compress(s: seq<Word>, block: seq<Byte>): (r: seq<Word>)
    requires |s| == 8 && |block| == BLOCK
    ensures |r| == 8
  {
    var x := Listed(Rounds(Load8(s), block, 80));
    seq(8, i requires 0 <= i < 8 => Plus(s[i], x[i]))
  }

  function Listed(r: Regs): (s: seq<Word>)
    ensures |s| == 8
  {
    [r.a, r.b, r.c, r.d, r.e, r.f, r.g, r.h]
  }

  // ---- section 5.1.2: padding; section 6.4: the hash ----

  function Absorb(s: seq<Word>, m: seq<Byte>): (r: seq<Word>)
    requires |s| == 8 && |m| % BLOCK == 0
    ensures |r| == 8
    decreases |m|
  {
    if m == [] then s
    else
      OneLess(|m|);
      Absorb(Compress(s, m[..BLOCK]), m[BLOCK..])
  }

  lemma OneLess(n: nat)
    requires n > 0 && n % BLOCK == 0
    ensures n >= BLOCK && (n - BLOCK) % BLOCK == 0
  {
  }

  /** The number of zero bytes after the one bit: the least that leaves 16 bytes of a block. */
  function ZeroBytes(n: nat): (k: nat)
    ensures k < BLOCK && (n + 1 + k) % BLOCK == 112
  {
    (BLOCK + 111 - n % BLOCK) % BLOCK
  }

  function Pad(m: seq<Byte>): (p: seq<Byte>)
    ensures |p| % BLOCK == 0 && m <= p
  {
    var z := ZeroBytes(|m|);
    WholeBlocks(|m| + 1 + z);
    m + [0x80] + Blank(z) + Be(8 * |m|, 16)
  }

  lemma WholeBlocks(n: nat)
    requires n % BLOCK == 112
    ensures (n + 16) % BLOCK == 0
  {
  }

  function WordBytes(w: Word): (b: seq<Byte>)
    ensures |b| == 8
  {
    Be(w.v as int, 8)
  }

  function Output(s: seq<Word>): (o: seq<Byte>)
    ensures |o| == 8 * |s|
  {
    if s == [] then [] else WordBytes(s[0]) + Output(s[1..])
  }

  function Hash(m: seq<Byte>): seq<Byte> {
    Output(Absorb(InitialHash(), Pad(m)))
  }

  /** Absorbing whole blocks first and the rest later is absorbing all of it. */
  lemma {:induction false} AbsorbConcat(s: seq<Word>, a: seq<Byte>, b: seq<Byte>)
    requires |s| == 8 && |a| % BLOCK == 0 && |b| % BLOCK == 0
    ensures Absorb(s, a + b) == Absorb(Absorb(s, a), b)
    decreases |a|
  {
    hide Compress;
    if a == [] {
      assert a + b == b;
    } else {
      assert (a + b)[..BLOCK] == a[..BLOCK] && (a + b)[BLOCK..] == a[BLOCK..] + b;
      AbsorbConcat(Compress(s, a[..BLOCK]), a[BLOCK..], b);
    }
  }

  // ---- the length field ----

  const SPAN := 0x1_0000_0000_0000_0000

  lemma {:induction false} BeSplit(hi: nat, lo: nat, k: nat, b: nat)
    requires lo < b && Power(b, k)
    ensures Be(hi * b + lo, k + 8) == Be(hi, 8) + Be(lo, k)
    decreases k
  {
    hide Be;
    if k == 0 {
      NoBytes(lo);
      assert Be(hi, 8) + [] == Be(hi, 8);
    } else {
      var v, c := hi * b + lo, b / 256;
      assert b == 256 * c && lo / 256 < c;
      DivSum(hi, c, lo);
      BeSplit(hi, lo / 256, k - 1, c);
      BeStep(v, k + 8);
      BeStep(lo, k);
      assert Be(hi, 8) + (Be(lo / 256, k - 1) + [lo % 256]) == (Be(hi, 8) + Be(lo / 256, k - 1)) + [lo % 256];
    }
  }

  lemma NoBytes(v: nat)
    ensures Be(v, 0) == []
  {
  }

  lemma BeStep(v: nat, k: nat)
    requires k > 0
    ensures Be(v, k) == Be(v / 256, k - 1) + [v % 256]
  {
  }

  lemma DivSum(hi: nat, c: nat, lo: nat)
    ensures (hi * (256 * c) + lo) / 256 == hi * c + lo / 256 && (hi * (256 * c) + lo) % 256 == lo % 256
  {
    var w := hi * c;
    assert hi * (256 * c) == 256 * w;
  }

  /** b is 256 to the k. */
  ghost predicate Power(b: nat, k: nat) {
    if k == 0 then b == 1 else b % 256 == 0 && Power(b / 256, k - 1)
  }

  /** The two 64-bit words that the code writes are the 128-bit bit count, for any
      length below 2^125 bytes. */
  lemma LengthField(n: nat, c0: nat, c1: nat)
    requires n == c0 + SPAN * c1 && c0 < SPAN && n < 0x2000_0000_0000_0000 * SPAN
    ensures Be(8 * n, 16) == Be((c1 * 8) % SPAN + c0 / 0x2000_0000_0000_0000, 8) + Be((c0 * 8) % SPAN, 8)
  {
    var hi, lo := (c1 * 8) % SPAN + c0 / 0x2000_0000_0000_0000, (c0 * 8) % SPAN;
    assert c1 < 0x2000_0000_0000_0000;
    assert 8 * n == hi * SPAN + lo;
    assert Power(SPAN, 8);
    BeSplit(hi, lo, 8, SPAN);
  }

  // ---- the streaming computation ----

  /** The number of whole blocks in n bytes. */
  function Full(n: nat): (k: nat)
    ensures BLOCK * k <= n < BLOCK * k + BLOCK
  {
    n / BLOCK
  }

  /** The two counters hold the length modulo 2^128. */
  ghost predicate Counts(n: nat, c0: nat, c1: nat) {
    c0 < SPAN && c1 < SPAN && n % (SPAN * SPAN) == c0 + SPAN * c1
  }

  /** The state after the first k blocks of m. */
  ghost function Prefix(m: seq<Byte>, k: nat): (r: seq<Word>)
    requires BLOCK * k <= |m|
    ensures |r| == 8
  {
    Absorb(InitialHash(), m[..BLOCK * k])
  }

  lemma SplitAt(m: seq<Byte>, from: nat, mid: nat, n: nat)
    requires from <= mid && mid + n <= |m|
    ensures m[mid..][..n] == m[mid..mid + n]
    ensures m[from..mid + n] == m[from..mid] + m[mid..mid + n]
  {
  }

  class Context {
    const state: array<Word>
    const buffer: array<Byte>
    var count0: nat
    var count1: nat
    ghost var fed: seq<Byte>

    /** The state has absorbed every whole block of what was fed, the buffer holds the
        rest, and the two counters hold the length modulo 2^128. */
    ghost predicate Valid()
      reads this, state, buffer
    {
      && state.Length == 8 && buffer.Length == BLOCK && Counts(|fed|, count0, count1)
      && state[..] == Prefix(fed, Full(|fed|))
      && buffer[..|fed| - BLOCK * Full(|fed|)] == fed[BLOCK * Full(|fed|)..]
    }

    constructor ()
      ensures Valid() && fed == [] && fresh(state) && fresh(buffer)
    {
      state := new Word[8](i requires 0 <= i < 8 => InitialHash()[i]);
      buffer := new Byte[BLOCK];
      count0, count1, fed := 0, 0, [];
      new;
      assert state[..] == InitialHash() && fed[..BLOCK * Full(0)] == [];
    }

    method CopyIn(at: nat, data: seq<Byte>)
      requires buffer.Length == BLOCK && at + |data| <= BLOCK
      modifies buffer
      ensures buffer[..at] == old(buffer[..at]) && buffer[at..at + |data|] == data
      ensures buffer[at + |data|..] == old(buffer[at + |data|..])
    {
      var i := 0;
      while i < |data|
        invariant 0 <= i <= |data|
        invariant buffer[..at] == old(buffer[..at]) && buffer[at..at + i] == data[..i]
        invariant buffer[at + |data|..] == old(buffer[at + |data|..])
      {
        buffer[at + i] := data[i];
        assert buffer[at..at + i + 1] == buffer[at..at + i] + [data[i]];
        i := i + 1;
      }
    }

    /** Block k of the message m. */
    method AbsorbBlock(block: seq<Byte>, ghost m: seq<Byte>, ghost k: nat)
      requires state.Length == 8 && BLOCK * k + BLOCK <= |m| && block == m[BLOCK * k..BLOCK * k + BLOCK]
      requires state[..] == Prefix(m, k)
      modifies state
      ensures state[..] == Prefix(m, k + 1)
    {
      hide Compress, Prefix;
      Transform(state, block);
      AbsorbNext(m, k);
    }

    /** Completes the buffered block if the data reach that far. */
    method TopUp(at: nat, data: seq<Byte>, ghost m: seq<Byte>, ghost k: nat) returns (n: nat)
      requires state.Length == 8 && buffer.Length == BLOCK && 0 < at < BLOCK && BLOCK * k + at + |data| == |m|
      requires state[..] == Prefix(m, k) && buffer[..at] == m[BLOCK * k..BLOCK * k + at] && data == m[BLOCK * k + at..]
      modifies state, buffer
      ensures n == if |data| < BLOCK - at then |data| else BLOCK - at
      ensures if at + n == BLOCK then state[..] == Prefix(m, k + 1)
              else state[..] == Prefix(m, k) && buffer[..at + n] == m[BLOCK * k..]
    {
      hide Prefix;
      n := if |data| < BLOCK - at then |data| else BLOCK - at;
      CopyIn(at, data[..n]);
      ghost var p := BLOCK * k;
      assert buffer[..at + n] == buffer[..at] + buffer[at..at + n];
      SplitAt(m, p, p + at, n);
      if at + n == BLOCK {
        assert buffer[..] == buffer[..BLOCK];
        AbsorbBlock(buffer[..], m, k);
      } else {
        assert m[p..p + at + n] == m[p..];
      }
    }

    /** Absorbs whole blocks straight from the data. */
    method Blocks(data: seq<Byte>, ghost m: seq<Byte>, ghost k0: nat) returns (rest: seq<Byte>, ghost k: nat)
      requires state.Length == 8 && BLOCK * k0 <= |m| && state[..] == Prefix(m, k0) && data == m[BLOCK * k0..]
      modifies state
      ensures BLOCK * k <= |m| < BLOCK * k + BLOCK && state[..] == Prefix(m, k) && rest == m[BLOCK * k..]
    {
      hide Prefix;
      rest, k := data, k0;
      while |rest| >= BLOCK
        invariant BLOCK * k <= |m| && state[..] == Prefix(m, k) && rest == m[BLOCK * k..]
      {
        assert rest[..BLOCK] == m[BLOCK * k..BLOCK * k + BLOCK];
        AbsorbBlock(rest[..BLOCK], m, k);
        k := k + 1;
        rest := rest[BLOCK..];
      }
    }

    method AddCount(len: nat, ghost n: nat)
      requires len < SPAN && Counts(n, count0, count1)
      modifies `count0, `count1
      ensures Counts(n + len, count0, count1)
    {
      hide Counts;
      Counted(n, len, count0, count1);
      count0 := (count0 + len) % SPAN;
      if count0 < len { count1 := (count1 + 1) % SPAN; }
    }

    /** Feeds more of the message. */
    method Update(data: seq<Byte>)
      requires Valid() && |data| < SPAN
      modifies this, state, buffer
      ensures Valid() && fed == old(fed) + data
    {
      hide Prefix, Counts, Full;
      assert fed + [] == fed;
      if |data| == 0 { return; }
      ghost var m := fed + data;
      ghost var k := Full(|fed|);
      Aligned(|fed|, count0, count1);
      StartOf(fed, data, k);
      var buffered := count0 % BLOCK;
      AddCount(|data|, |fed|);
      fed := m;
      var rest := data;
      if buffered > 0 {
        var n := TopUp(buffered, data, m, k);
        rest := data[n..];
        if buffered + n < BLOCK {
          FullIs(|m|, k);
          return;
        }
        k := k + 1;
        assert rest == m[BLOCK * k..];
      }
      rest, k := Blocks(rest, m, k);
      CopyIn(0, rest);
      assert buffer[..|rest|] == rest;
      FullIs(|m|, k);
    }

    method ZeroFill(from: nat, to: nat)
      requires buffer.Length == BLOCK && from <= to <= BLOCK
      modifies buffer
      ensures buffer[..from] == old(buffer[..from]) && buffer[from..to] == Blank(to - from)
    {
      var n := from;
      while n < to
        invariant from <= n <= to && buffer[..from] == old(buffer[..from]) && forall i :: from <= i < n ==> buffer[i] == 0
      {
        buffer[n] := 0;
        n := n + 1;
      }
    }

    /** The one bit after the buffered bytes, and a block of its own when it leaves no
        room for the length field. Returns how many bytes of the next block are set. */
    method OneBit(at: nat, ghost t: seq<Byte>) returns (n: nat)
      requires state.Length == 8 && buffer.Length == BLOCK && at < BLOCK && buffer[..at] == t
      modifies state, buffer
      ensures if at < 112 then n == at + 1 && state[..] == old(state[..]) && buffer[..n] == t + [0x80]
              else n == 0 && state[..] == Compress(old(state[..]), t + [0x80] + Blank(127 - at))
    {
      hide Compress;
      CopyIn(at, [0x80]);
      n := at + 1;
      assert buffer[..n] == buffer[..at] + buffer[at..n];
      if n > 112 {
        ZeroFill(n, BLOCK);
        assert buffer[..] == buffer[..n] + buffer[n..BLOCK];
        Transform(state, buffer[..]);
        n := 0;
      }
    }

    /** Zeros up to the length field, the field, and the last block. */
    method LengthBlock(n: nat, hi: nat, lo: nat)
      requires state.Length == 8 && buffer.Length == BLOCK && n <= 112
      modifies state, buffer
      ensures state[..] == Compress(old(state[..]), old(buffer[..n]) + Blank(112 - n) + (Be(hi, 8) + Be(lo, 8)))
    {
      hide Compress, Be;
      ghost var head := buffer[..n];
      ZeroFill(n, 112);
      ghost var z := buffer[..112];
      assert z == buffer[..n] + buffer[n..112];
      CopyIn(112, Be(hi, 8));
      ghost var h := buffer[..120];
      assert h == buffer[..112] + buffer[112..120];
      CopyIn(120, Be(lo, 8));
      assert buffer[..] == buffer[..120] + buffer[120..128];
      assert buffer[..] == head + Blank(112 - n) + (Be(hi, 8) + Be(lo, 8));
      Transform(state, buffer[..]);
    }

    /** Pads what is buffered and absorbs the last one or two blocks. */
    method Finish()
      requires Valid() && |fed| < 0x2000_0000_0000_0000 * SPAN
      modifies state, buffer
      ensures state[..] == Absorb(InitialHash(), Pad(fed))
    {
      hide Prefix, Full, Absorb, InitialHash, Pad, Compress, Counts, Be, Blank;
      ghost var m, k := fed, Full(|fed|);
      Aligned(|m|, count0, count1);
      CountsExact(|m|, count0, count1);
      PadBlocks(m);
      LengthField(|m|, count0, count1);
      var lo, hi := (count0 * 8) % SPAN, (count1 * 8) % SPAN + count0 / 0x2000_0000_0000_0000;
      var n := OneBit(count0 % BLOCK, m[BLOCK * k..]);
      if n == 0 { assert buffer[..0] + Blank(112) == Blank(112); }
      LengthBlock(n, hi, lo);
    }

    /** The digest of everything that was fed, for any message below 2^125 bytes. */
    method Final(out: array<Byte>)
      requires Valid() && |fed| < 0x2000_0000_0000_0000 * SPAN && out.Length == 64 && out != buffer
      modifies state, buffer, out
      ensures out[..] == Hash(fed)
    {
      hide Absorb, InitialHash, Pad, Prefix, Counts, Output;
      Finish();
      StoreWords(out, state);
    }
  }

  method StoreWord(out: array<Byte>, at: nat, w: Word)
    requires at + 8 <= out.Length
    modifies out
    ensures out[..at] == old(out[..at]) && out[at..at + 8] == WordBytes(w)
  {
    hide WordBytes;
    var b := WordBytes(w);
    var i := 0;
    while i < 8
      invariant 0 <= i <= 8 && out[..at] == old(out[..at]) && forall j :: 0 <= j < i ==> out[at + j] == b[j]
    {
      out[at + i] := b[i];
      i := i + 1;
    }
  }

  method StoreWords(out: array<Byte>, state: array<Word>)
    requires out.Length == 8 * state.Length
    modifies out
    ensures out[..] == Output(state[..])
  {
    hide Output, WordBytes;
    ghost var s := state[..];
    var i := 0;
    NoOutput(s);
    while i < state.Length
      invariant 0 <= i <= state.Length && out[..8 * i] == Output(s[..i])
    {
      StoreWord(out, 8 * i, state[i]);
      assert s[..i + 1] == s[..i] + [s[i]];
      OutputSnoc(s[..i], s[i]);
      assert out[..8 * i + 8] == out[..8 * i] + out[8 * i..8 * i + 8];
      i := i + 1;
    }
    assert s[..i] == s && out[..8 * i] == out[..];
  }

  /** The one-shot hash. */
  method HashOnce(data: seq<Byte>, out: array<Byte>)
    requires |data| < SPAN && out.Length == 64
    modifies out
    ensures out[..] == Hash(data)
  {
    hide Hash;
    var ctx := new Context();
    ctx.Update(data);
    assert [] + data == data;
    ctx.Final(out);
  }

  function Concat(pieces: seq<seq<Byte>>): seq<Byte> {
    if pieces == [] then [] else Concat(pieces[..|pieces| - 1]) + pieces[|pieces| - 1]
  }

  /** However a message is cut into pieces, the digest is that of the whole. */
  method HashPieces(pieces: seq<seq<Byte>>, out: array<Byte>)
    requires (forall i :: 0 <= i < |pieces| ==> |pieces[i]| < SPAN) && out.Length == 64
    requires |Concat(pieces)| < 0x2000_0000_0000_0000 * SPAN
    modifies out
    ensures out[..] == Hash(Concat(pieces))
  {
    hide Hash, Prefix, Full, Counts;
    var ctx := new Context();
    var i := 0;
    while i < |pieces|
      modifies ctx, ctx.state, ctx.buffer
      invariant 0 <= i <= |pieces| && ctx.Valid() && ctx.fed == Concat(pieces[..i])
    {
      assert pieces[..i + 1][..i] == pieces[..i];
      ctx.Update(pieces[i]);
      i := i + 1;
    }
    assert pieces[..i] == pieces;
    ctx.Final(out);
  }

  lemma CountsExact(n: nat, c0: nat, c1: nat)
    requires Counts(n, c0, c1) && n < 0x2000_0000_0000_0000 * SPAN
    ensures n == c0 + SPAN * c1
  {
  }

  lemma NoOutput(s: seq<Word>)
    ensures Output(s[..0]) == []
  {
  }

  lemma {:induction false} OutputSnoc(s: seq<Word>, w: Word)
    ensures Output(s + [w]) == Output(s) + WordBytes(w)
    decreases |s|
  {
    hide WordBytes;
    if s == [] {
      assert s + [w] == [w] && [w][1..] == [];
      assert WordBytes(w) + [] == WordBytes(w);
    } else {
      assert (s + [w])[1..] == s[1..] + [w];
      OutputSnoc(s[1..], w);
    }
  }

  /** The padded message beyond its whole blocks is one block, or two when the length
      field does not fit after the rest. */
  lemma PadBlocks(m: seq<Byte>)
    ensures var k, len := Full(|m|), Be(8 * |m|, 16); var t := m[BLOCK * k..]; var h := Prefix(m, k);
            Absorb(InitialHash(), Pad(m)) ==
              if |t| < 112 then Compress(h, t + [0x80] + Blank(111 - |t|) + len)
              else Compress(Compress(h, t + [0x80] + Blank(127 - |t|)), Blank(112) + len)
  {
    hide Absorb, Compress, InitialHash, Be, Full;
    EightWords();
    var k, len := Full(|m|), Be(8 * |m|, 16);
    var a, t := m[..BLOCK * k], m[BLOCK * k..];
    var z := ZeroBytes(|m|);
    ZerosAre(|m|, k);
    var x := t + [0x80] + Blank(z) + len;
    assert Pad(m) == a + x;
    AbsorbConcat(InitialHash(), a, x);
    if |t| < 112 {
      AbsorbOne(Prefix(m, k), x);
    } else {
      var b, c := t + [0x80] + Blank(127 - |t|), Blank(112) + len;
      assert x == b + c;
      AbsorbConcat(Prefix(m, k), b, c);
      AbsorbOne(Prefix(m, k), b);
      AbsorbOne(Compress(Prefix(m, k), b), c);
    }
  }

  lemma ZerosAre(n: nat, k: nat)
    requires BLOCK * k <= n < BLOCK * k + BLOCK
    ensures ZeroBytes(n) == if n - BLOCK * k < 112 then 111 - (n - BLOCK * k) else 239 - (n - BLOCK * k)
    ensures (BLOCK * k) % BLOCK == 0
  {
  }

  lemma StartOf(fed: seq<Byte>, data: seq<Byte>, k: nat)
    requires k == Full(|fed|)
    ensures Prefix(fed, k) == Prefix(fed + data, k)
    ensures fed[BLOCK * k..] == (fed + data)[BLOCK * k..|fed|] && data == (fed + data)[|fed|..]
  {
    hide Absorb;
    assert fed[..BLOCK * k] == (fed + data)[..BLOCK * k];
  }

  lemma FullIs(n: nat, k: nat)
    requires BLOCK * k <= n < BLOCK * k + BLOCK
    ensures Full(n) == k
  {
  }

  lemma Aligned(n: nat, c0: nat, c1: nat)
    requires Counts(n, c0, c1)
    ensures c0 < SPAN && c1 < SPAN && c0 % BLOCK == n - BLOCK * Full(n)
  {
    var q, unit := n / (SPAN * SPAN), 0x200_0000_0000_0000;
    assert n == q * (SPAN * SPAN) + (c0 + SPAN * c1);
    var w := q * SPAN * unit + unit * c1;
    SameRest(n, c0, w);
  }

  lemma SameRest(n: nat, c: nat, w: int)
    requires n - c == BLOCK * w
    ensures c % BLOCK == n - BLOCK * Full(n)
  {
  }

  /** The two counters after adding a length, with the carry between them. */
  lemma Counted(n: nat, k: nat, c0: nat, c1: nat)
    requires Counts(n, c0, c1) && k < SPAN
    ensures var d0 := (c0 + k) % SPAN; var d1 := if d0 < k then (c1 + 1) % SPAN else c1;
            Counts(n + k, d0, d1)
  {
    var q := n / (SPAN * SPAN);
    var d0 := if c0 + k < SPAN then c0 + k else c0 + k - SPAN;
    assert (c0 + k) % SPAN == d0;
    if d0 >= k {
      Remainder(n + k, SPAN * SPAN, q, d0 + SPAN * c1);
    } else if c1 + 1 < SPAN {
      Remainder(n + k, SPAN * SPAN, q, d0 + SPAN * (c1 + 1));
    } else {
      Remainder(n + k, SPAN * SPAN, q + 1, d0);
    }
  }

  lemma AbsorbNext(m: seq<Byte>, k: nat)
    requires BLOCK * k + BLOCK <= |m|
    ensures var b := m[BLOCK * k..BLOCK * k + BLOCK]; Prefix(m, k + 1) == Compress(Prefix(m, k), b)
  {
    hide Compress, InitialHash, Absorb;
    var a, b := m[..BLOCK * k], m[BLOCK * k..BLOCK * k + BLOCK];
    assert m[..BLOCK * (k + 1)] == a + b;
    EightWords();
    AbsorbConcat(InitialHash(), a, b);
    AbsorbOne(Absorb(InitialHash(), a), b);
  }

  lemma EightWords()
    ensures |InitialHash()| == 8
  {
  }

  lemma AbsorbOne(s: seq<Word>, b: seq<Byte>)
    requires |s| == 8 && |b| == BLOCK
    ensures Absorb(s, b) == Compress(s, b)
  {
    hide Compress;
    assert b[..BLOCK] == b && b[BLOCK..] == [];
  }

  /** The eighty rounds. */
  method Mix(state: array<Word>, block: seq<Byte>) returns (x: Regs)
    requires state.Length == 8 && |block| == BLOCK
    ensures x == Rounds(Load8(state[..]), block, 80)
  {
    hide Plus, T1, T2, K, W, Rounds;
    var w := Schedule(block);
    ghost var r := Load8(state[..]);
    var a, b, c, d := state[0], state[1], state[2], state[3];
    var e, f, g, h := state[4], state[5], state[6], state[7];
    var i: nat := 0;
    NoRounds(r, block);
    while i < 80
      modifies {}
      invariant i <= 80 && Regs(a, b, c, d, e, f, g, h) == Rounds(r, block, i)
    {
      OneRound(r, block, i);
      var t1 := T1(e, f, g, h, K(i), w[i]);
      var t2 := T2(a, b, c);
      h := g;
      g := f;
      f := e;
      e := Plus(d, t1);
      d := c;
      c := b;
      b := a;
      a := Plus(t1, t2);
      i := i + 1;
    }
    x := Regs(a, b, c, d, e, f, g, h);
  }

  /** Absorbs one block into the state. */
  method Transform(state: array<Word>, block: seq<Byte>)
    requires state.Length == 8 && |block| == BLOCK
    modifies state
    ensures state[..] == Compress(old(state[..]), block)
  {
    hide Plus, Rounds, Listed;
    var r := Mix(state, block);
    var x := Listed(r);
    var i := 0;
    while i < 8
      invariant 0 <= i <= 8
      invariant forall j :: 0 <= j < i ==> state[j] == Plus(old(state[j]), x[j])
      invariant forall j :: i <= j < 8 ==> state[j] == old(state[j])
    {
      state[i] := Plus(state[i], x[i]);
      i := i + 1;
    }
  }

  lemma NoRounds(r: Regs, block: seq<Byte>)
    requires |block| == BLOCK
    ensures Rounds(r, block, 0) == r
  {
  }

  lemma OneRound(r: Regs, block: seq<Byte>, t: nat)
    requires |block| == BLOCK && t < 80
    ensures Rounds(r, block, t + 1) == Round(Rounds(r, block, t), K(t), W(block, t))
  {
    hide Round, K, W;
  }

  method Schedule(block: seq<Byte>) returns (w: array<Word>)
    requires |block| == BLOCK
    ensures fresh(w) && w.Length == 80 && forall j: nat :: j < 80 ==> w[j] == W(block, j)
  {
    hide Extend, Load, W;
    w := new Word[80];
    var i: nat := 0;
    while i < 16
      invariant i <= 16 && forall j: nat :: j < i ==> w[j] == W(block, j)
    {
      Word16(block, i);
      w[i] := Load(block[8 * i..8 * i + 8]);
      i := i + 1;
    }
    while i < 80
      invariant 16 <= i <= 80 && forall j: nat :: j < i ==> w[j] == W(block, j)
    {
      Word80(block, i);
      w[i] := Extend(w[i - 2], w[i - 7], w[i - 15], w[i - 16]);
      i := i + 1;
    }
  }

  lemma Word16(block: seq<Byte>, t: nat)
    requires |block| == BLOCK && t < 16
    ensures W(block, t) == Load(block[8 * t..8 * t + 8])
  {
    hide Load;
  }

  lemma Word80(block: seq<Byte>, t: nat)
    requires |block| == BLOCK && 16 <= t < 80
    ensures W(block, t) == Extend(W(block, t - 2), W(block, t - 7), W(block, t - 15), W(block, t - 16))
  {
    hide Extend, Load;
  }
}
