/** The per-subject capability bitset. */
module CapTable {

  const SUBJECTS := 8
  const CAP_MIN := 1
  const CAP_MAX := 19
  const WORDS := 3

  datatype Result = Ok | Missing | SubjectInvalid | CapInvalid

  predicate SubjectValid(s: int) {
    0 <= s < SUBJECTS
  }

  predicate CapValid(c: int) {
    CAP_MIN <= c <= CAP_MAX
  }

  /** The single bit k of a byte. */
  function Mask(k: int): bv8
    requires 0 <= k < 8
  {
    if k == 0 then 1 else if k == 1 then 2 else if k == 2 then 4 else if k == 3 then 8
    else if k == 4 then 16 else if k == 5 then 32 else if k == 6 then 64 else 128
  }

  lemma MasksApart(k: int, j: int)
    requires 0 <= k < 8 && 0 <= j < 8
    ensures Mask(k) != 0 && (k != j ==> Mask(k) & Mask(j) == 0)
  {
  }

  lemma SetBit(b: bv8, m: bv8, y: bv8)
    ensures m != 0 ==> (b | m) & m != 0
    ensures m & y == 0 ==> (b | m) & y == b & y
  {
  }

  lemma ClearBit(b: bv8, m: bv8, y: bv8)
    ensures (b & !m) & m == 0
    ensures m & y == 0 ==> (b & !m) & y == b & y
  {
  }

  function WordOf(c: int): int {
    (c - CAP_MIN) / 8
  }

  function BitOf(c: int): (k: int)
    ensures 0 <= k < 8
  {
    (c - CAP_MIN) % 8
  }

  predicate Has(b: bv8, k: int)
    requires 0 <= k < 8
  {
    b & Mask(k) != 0
  }

  lemma SetHas(b: bv8, k: int, j: int)
    requires 0 <= k < 8 && 0 <= j < 8
    ensures Has(b | Mask(k), j) <==> j == k || Has(b, j)
  {
    MasksApart(k, j);
    SetBit(b, Mask(k), Mask(j));
  }

  lemma ClearHas(b: bv8, k: int, j: int)
    requires 0 <= k < 8 && 0 <= j < 8
    ensures Has(b & !Mask(k), j) <==> j != k && Has(b, j)
  {
    MasksApart(k, j);
    ClearBit(b, Mask(k), Mask(j));
  }

  class Table {
    const bits: array2<bv8>

    ghost predicate Valid() {
      bits.Length0 == SUBJECTS && bits.Length1 == WORDS
    }

    predicate Bit(s: int, c: int)
      requires bits.Length0 == SUBJECTS && bits.Length1 == WORDS && SubjectValid(s) && CapValid(c)
      reads bits
    {
      Has(bits[s, WordOf(c)], BitOf(c))
    }

    /** The pairs that are granted. */
    ghost function Held(): set<(int, int)>
      requires Valid()
      reads bits
    {
      set s: int, c: int | 0 <= s < SUBJECTS && CAP_MIN <= c <= CAP_MAX && Bit(s, c) :: (s, c)
    }

    constructor ()
      ensures Valid() && fresh(bits) && Held() == {}
    {
      bits := new bv8[SUBJECTS, WORDS]((_, _) => 0);
    }

    method Grant(s: int, c: int) returns (r: Result)
      requires Valid()
      modifies bits
      ensures r == Allowed(s, c) && Held() == if r == Ok then old(Held()) + {(s, c)} else old(Held())
      ensures r == Ok <==> 0 <= s < 8 && 1 <= c <= 19
    {
      hide Has, Mask;
      if !SubjectValid(s) { return SubjectInvalid; }
      if !CapValid(c) { return CapInvalid; }
      ghost var was := Held();
      ghost var b := bits[s, WordOf(c)];
      bits[s, WordOf(c)] := bits[s, WordOf(c)] | Mask(BitOf(c));
      forall s', c' | SubjectValid(s') && CapValid(c') ensures Bit(s', c') <==> (s' == s && c' == c) || old(Bit(s', c')) {
        SetHas(b, BitOf(c), BitOf(c'));
      }
      assert Held() == was + {(s, c)};
      r := Ok;
    }

    method Revoke(s: int, c: int) returns (r: Result)
      requires Valid()
      modifies bits
      ensures r == Allowed(s, c) && Held() == if r == Ok then old(Held()) - {(s, c)} else old(Held())
      ensures r == Ok <==> 0 <= s < 8 && 1 <= c <= 19
    {
      hide Has, Mask;
      if !SubjectValid(s) { return SubjectInvalid; }
      if !CapValid(c) { return CapInvalid; }
      ghost var was := Held();
      ghost var b := bits[s, WordOf(c)];
      bits[s, WordOf(c)] := bits[s, WordOf(c)] & !Mask(BitOf(c));
      forall s', c' | SubjectValid(s') && CapValid(c') ensures Bit(s', c') <==> !(s' == s && c' == c) && old(Bit(s', c')) {
        ClearHas(b, BitOf(c), BitOf(c'));
      }
      assert Held() == was - {(s, c)};
      r := Ok;
    }

    method Check(s: int, c: int) returns (r: Result)
      requires Valid()
      ensures r == if Allowed(s, c) != Ok then Allowed(s, c) else if (s, c) in Held() then Ok else Missing
    {
      hide Has;
      if !SubjectValid(s) { return SubjectInvalid; }
      if !CapValid(c) { return CapInvalid; }
      r := if Bit(s, c) then Ok else Missing;
    }
  }

  /** What the arguments alone decide. */
  function Allowed(s: int, c: int): Result {
    if !SubjectValid(s) then SubjectInvalid else if !CapValid(c) then CapInvalid else Ok
  }
}
