/** What the logical functions of SHA-512 do to the bits of a word (sections 3.2 and 4.1.3 of FIPS 180-4). */
module Sha512Bits {
  import opened Sha512

  /** Ch takes the bits of y where x has ones, ... */
  lemma ChOnes(x: bv64, y: bv64, z: bv64)
    ensures Ch(x, y, z) & x == y & x
  {
  }

  /** ... and those of z where x has zeros. */
  lemma ChZeros(x: bv64, y: bv64, z: bv64)
    ensures Ch(x, y, z) & !x == z & !x
  {
  }

  /** Maj has ones where x and y have ones, ... */
  lemma MajOnes(x: bv64, y: bv64, z: bv64)
    ensures Maj(x, y, z) & (x & y) == x & y
  {
  }

  /** ... zeros where both have zeros, ... */
  lemma MajZeros(x: bv64, y: bv64, z: bv64)
    ensures Maj(x, y, z) | (x | y) == x | y
  {
  }

  /** ... and takes its arguments in any order. */
  lemma MajAnyOrder(x: bv64, y: bv64, z: bv64)
    ensures Maj(x, y, z) == Maj(y, z, x)
    ensures Maj(x, y, z) == Maj(y, x, z)
  {
  }

  // A rotation by n puts the upper 64 - n bits at the bottom, in their order, and the lower
  // n bits at the top: for every n that is used.

  lemma Rotr1(x: bv64)
    ensures Rotr(x, 1) & 0x7fffffffffffffff == x >> 1 && Rotr(x, 1) >> 63 == x & 0x1
  {
  }

  lemma Rotr8(x: bv64)
    ensures Rotr(x, 8) & 0xffffffffffffff == x >> 8 && Rotr(x, 8) >> 56 == x & 0xff
  {
  }

  lemma Rotr14(x: bv64)
    ensures Rotr(x, 14) & 0x3ffffffffffff == x >> 14 && Rotr(x, 14) >> 50 == x & 0x3fff
  {
  }

  lemma Rotr18(x: bv64)
    ensures Rotr(x, 18) & 0x3fffffffffff == x >> 18 && Rotr(x, 18) >> 46 == x & 0x3ffff
  {
  }

  lemma Rotr19(x: bv64)
    ensures Rotr(x, 19) & 0x1fffffffffff == x >> 19 && Rotr(x, 19) >> 45 == x & 0x7ffff
  {
  }

  lemma Rotr28(x: bv64)
    ensures Rotr(x, 28) & 0xfffffffff == x >> 28 && Rotr(x, 28) >> 36 == x & 0xfffffff
  {
  }

  lemma Rotr34(x: bv64)
    ensures Rotr(x, 34) & 0x3fffffff == x >> 34 && Rotr(x, 34) >> 30 == x & 0x3ffffffff
  {
  }

  lemma Rotr39(x: bv64)
    ensures Rotr(x, 39) & 0x1ffffff == x >> 39 && Rotr(x, 39) >> 25 == x & 0x7fffffffff
  {
  }

  lemma Rotr41(x: bv64)
    ensures Rotr(x, 41) & 0x7fffff == x >> 41 && Rotr(x, 41) >> 23 == x & 0x1ffffffffff
  {
  }

  lemma Rotr61(x: bv64)
    ensures Rotr(x, 61) & 0x7 == x >> 61 && Rotr(x, 61) >> 3 == x & 0x1fffffffffffffff
  {
  }
}
