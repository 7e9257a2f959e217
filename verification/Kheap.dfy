/** The kernel heap: a first-fit allocator over a fixed arena, as a linked list of blocks
    in address order. Block headers are bytes of the arena, in front of the payloads. */
module Kheap {
  import opened Bytes

  const ARENA := 0x20_0000
  const ALIGN := 16
  const WORD := 0x1_0000_0000_0000_0000

  const MASK := 0x1_0000_0000

  /** Rounds up to the alignment, in 64-bit arithmetic. The mask that clears the low bits
      is a 32-bit constant, so that it clears the upper half of the word as well. */
  function AlignUp(n: int): (r: int)
    requires 0 <= n < WORD
    ensures r % ALIGN == 0 && 0 <= r < MASK
    ensures n <= MASK - ALIGN ==> n <= r < n + ALIGN
  {
    var s := (n + ALIGN - 1) % WORD % MASK;
    s - s % ALIGN
  }

  /** The header's fields, and the header rounded up. */
  const FIELDS := 24
  const HEADER := 32
  const NIL := -1

  datatype Header = Header(size: int, free: bool, next: int)

  type Headers = map<int, Header>

  /** The header is its fields rounded up to the alignment, and the arena is two megabytes. */
  lemma HeaderSize()
    ensures HEADER == AlignUp(FIELDS) && HEADER == 32 && ARENA == 2 * 1024 * 1024
  {
  }

  // ---- the block list ----

  function Next(list: seq<int>, i: int): int
    requires 0 <= i < |list|
  {
    if i + 1 < |list| then list[i + 1] else NIL
  }

  function End(list: seq<int>, i: int): int
    requires 0 <= i < |list|
  {
    if i + 1 < |list| then list[i + 1] else ARENA
  }

  /** Block i is where its predecessor ends, aligned, and ends where the next one begins. */
  ghost predicate BlockOk(list: seq<int>, hs: Headers, i: int)
    requires 0 <= i < |list|
  {
    var o := list[i];
    && o in hs && 0 <= o && o % ALIGN == 0 && hs[o].size >= 0 && hs[o].size % ALIGN == 0
    && o + HEADER + hs[o].size == End(list, i) && hs[o].next == Next(list, i)
  }

  /** The blocks tile the arena. */
  ghost predicate Tiled(list: seq<int>, hs: Headers) {
    list != [] && list[0] == 0 && forall i :: 0 <= i < |list| ==> BlockOk(list, hs, i)
  }

  ghost predicate Free(list: seq<int>, hs: Headers, i: int) {
    0 <= i < |list| && list[i] in hs && hs[list[i]].free
  }

  /** Among the first n blocks, no free one is followed by another. */
  ghost predicate Apart(list: seq<int>, hs: Headers, n: int) {
    forall i :: 0 <= i < n ==> !(Free(list, hs, i) && Free(list, hs, i + 1))
  }

  ghost predicate Inv(list: seq<int>, hs: Headers) {
    Tiled(list, hs) && Apart(list, hs, |list|)
  }

  /** Offsets grow along the list, by at least a header and the payload. */
  lemma {:induction false} Ordered(list: seq<int>, hs: Headers, i: int, j: int)
    requires Tiled(list, hs) && 0 <= i < j < |list|
    ensures list[i] in hs && list[i] + HEADER + hs[list[i]].size <= list[j]
    decreases j - i
  {
    assert BlockOk(list, hs, i);
    if i + 1 < j {
      Ordered(list, hs, i + 1, j);
      assert BlockOk(list, hs, i + 1);
    }
  }

  lemma {:induction false} Inside(list: seq<int>, hs: Headers, i: int)
    requires Tiled(list, hs) && 0 <= i < |list|
    ensures list[i] in hs && 0 <= list[i] && list[i] + HEADER + hs[list[i]].size <= ARENA
    decreases |list| - i
  {
    assert BlockOk(list, hs, i);
    if i + 1 < |list| {
      Inside(list, hs, i + 1);
      assert BlockOk(list, hs, i + 1);
    }
  }

  // ---- what is allocated ----

  /** The sizes of the blocks in use, by offset. */
  ghost function Live(list: seq<int>, hs: Headers): map<int, int> {
    map o | o in list && o in hs && !hs[o].free :: hs[o].size
  }

  /** A payload in use is aligned, inside the arena, and disjoint from every other block,
      free or in use, headers included. */
  lemma LiveDisjoint(list: seq<int>, hs: Headers, a: int, b: int)
    requires Tiled(list, hs) && a in Live(list, hs) && b in list && a != b
    ensures var live := Live(list, hs);
            && (a + HEADER) % ALIGN == 0 && 0 <= a && a + HEADER + live[a] <= ARENA
            && b in hs && hs[b].size >= 0 && (a + HEADER + live[a] <= b || b + HEADER + hs[b].size <= a)
  {
    var i :| 0 <= i < |list| && list[i] == a;
    var j :| 0 <= j < |list| && list[j] == b;
    assert BlockOk(list, hs, i) && BlockOk(list, hs, j);
    Inside(list, hs, i);
    Inside(list, hs, j);
    if i < j { Ordered(list, hs, i, j); } else { Ordered(list, hs, j, i); }
  }

  /** With nothing in use there is one block again, the initial one. */
  lemma AllFree(list: seq<int>, hs: Headers)
    requires Inv(list, hs) && Live(list, hs) == map[]
    ensures list == [0] && 0 in hs && hs[0] == Header(ARENA - HEADER, true, NIL)
  {
    forall i | 0 <= i < |list| ensures Free(list, hs, i) {
      assert BlockOk(list, hs, i);
      assert list[i] !in Live(list, hs);
    }
    assert Free(list, hs, 0) && BlockOk(list, hs, 0);
    assert !Free(list, hs, 0 + 1);
  }

  // ---- conservation ----

  function Sum(list: seq<int>, hs: Headers, free: bool): int {
    if list == [] then 0
    else Sum(list[..|list| - 1], hs, free)
         + if list[|list| - 1] in hs && hs[list[|list| - 1]].free == free then hs[list[|list| - 1]].size else 0
  }

  /** Headers, payloads in use and free bytes make up the arena. */
  lemma {:induction false} Conserved(list: seq<int>, hs: Headers, n: nat)
    requires Tiled(list, hs) && n <= |list|
    ensures Sum(list[..n], hs, true) + Sum(list[..n], hs, false) + HEADER * n == if n == |list| then ARENA else list[n]
  {
    if n > 0 {
      Conserved(list, hs, n - 1);
      assert BlockOk(list, hs, n - 1);
      assert list[..n][..n - 1] == list[..n - 1] && list[..n][n - 1] == list[n - 1];
    }
  }

  // ---- splitting, marking and merging ----

  ghost function SplitList(list: seq<int>, i: int, n: int): seq<int>
    requires 0 <= i < |list|
  {
    list[..i + 1] + [n] + list[i + 1..]
  }

  function SplitHeaders(hs: Headers, o: int, n: int, size: int): Headers
    requires o in hs
  {
    hs[n := Header(hs[o].size - size - HEADER, true, hs[o].next)][o := Header(size, false, n)]
  }

  /** Splitting block i at the given payload size and taking its first part. */
  lemma SplitTiled(list: seq<int>, hs: Headers, i: int, o: int, n: int, size: int)
    requires Tiled(list, hs) && 0 <= i < |list| && o == list[i] && o in hs && size >= 0 && size % ALIGN == 0
    requires n == o + HEADER + size && hs[o].size >= size + HEADER
    ensures n !in list && Tiled(SplitList(list, i, n), SplitHeaders(hs, o, n, size))
    ensures Live(SplitList(list, i, n), SplitHeaders(hs, o, n, size)) == Live(list, hs)[o := size]
  {
    var list', hs' := SplitList(list, i, n), SplitHeaders(hs, o, n, size);
    assert BlockOk(list, hs, i);
    forall j | 0 <= j < |list| ensures list[j] in hs && list[j] != n && (j != i ==> list[j] != o) {
      assert BlockOk(list, hs, j);
      if j < i { Ordered(list, hs, j, i); }
      if i < j { Ordered(list, hs, i, j); }
    }
    forall j | 0 <= j < |list'| ensures BlockOk(list', hs', j) {
      if j < i { assert BlockOk(list, hs, j) && list'[j] == list[j]; }
      if j > i + 1 { assert BlockOk(list, hs, j - 1) && list'[j] == list[j - 1]; }
    }
    SplitLive(list, hs, list', hs', i, n, size);
  }

  lemma SplitLive(list: seq<int>, hs: Headers, list': seq<int>, hs': Headers, i: int, n: int, size: int)
    requires 0 <= i < |list| && n !in list && list' == list[..i + 1] + [n] + list[i + 1..]
    requires forall o :: o in list && o != list[i] ==> o in hs && o in hs' && hs'[o] == hs[o]
    requires n in hs' && hs'[n].free && list[i] in hs' && !hs'[list[i]].free && hs'[list[i]].size == size
    ensures Live(list', hs') == Live(list, hs)[list[i] := size]
  {
    assert list == list[..i + 1] + list[i + 1..];
    var a, b := Live(list', hs'), Live(list, hs)[list[i] := size];
    forall o ensures o in a <==> o in b {
      assert o in list' <==> o in list || o == n;
    }
    forall o | o in a ensures a[o] == b[o] {
      assert o in list;
    }
  }

  /** Changing whether block i is free keeps the tiling. */
  lemma MarkTiled(list: seq<int>, hs: Headers, i: int, o: int, free: bool)
    requires Tiled(list, hs) && 0 <= i < |list| && o == list[i] && o in hs
    ensures Tiled(list, hs[o := hs[o].(free := free)])
    ensures Live(list, hs[o := hs[o].(free := free)]) == if free then Live(list, hs) - {o} else Live(list, hs)[o := hs[o].size]
  {
    var hs' := hs[o := hs[o].(free := free)];
    forall j | 0 <= j < |list| ensures BlockOk(list, hs', j) {
      assert BlockOk(list, hs, j);
    }
  }

  ghost function MergeList(list: seq<int>, i: int): seq<int>
    requires 0 <= i < |list| - 1
  {
    list[..i + 1] + list[i + 2..]
  }

  function MergeHeaders(hs: Headers, o: int, n: int): Headers
    requires o in hs && n in hs
  {
    hs[o := Header(hs[o].size + HEADER + hs[n].size, hs[o].free, hs[n].next)]
  }

  /** Merging block i with its free successor. */
  lemma MergeTiled(list: seq<int>, hs: Headers, i: int, o: int, n: int)
    requires Tiled(list, hs) && 0 <= i < |list| - 1 && o == list[i] && n == list[i + 1] && o in hs && n in hs && hs[o].free && hs[n].free
    ensures Tiled(MergeList(list, i), MergeHeaders(hs, o, n))
    ensures Live(MergeList(list, i), MergeHeaders(hs, o, n)) == Live(list, hs)
  {
    var list', hs' := MergeList(list, i), MergeHeaders(hs, o, n);
    assert BlockOk(list, hs, i) && BlockOk(list, hs, i + 1);
    forall j | 0 <= j < |list| ensures list[j] in hs && (j != i ==> list[j] != o) && (j != i + 1 ==> list[j] != n) {
      assert BlockOk(list, hs, j);
      if j < i { Ordered(list, hs, j, i); }
      if i < j { Ordered(list, hs, i, j); }
      if j < i + 1 { Ordered(list, hs, j, i + 1); }
      if i + 1 < j { Ordered(list, hs, i + 1, j); }
    }
    forall j | 0 <= j < |list'| ensures BlockOk(list', hs', j) {
      if j < i { assert BlockOk(list, hs, j) && list'[j] == list[j]; }
      if j > i { assert BlockOk(list, hs, j + 1) && list'[j] == list[j + 1]; }
    }
    forall x ensures x in list <==> x in list' || x == n {
      assert list == list[..i + 1] + [n] + list[i + 2..];
    }
  }

  lemma SplitApart(list: seq<int>, hs: Headers, i: int, o: int, n: int, size: int)
    requires Inv(list, hs) && 0 <= i < |list| && o == list[i] && o in hs && hs[o].free && n !in list && n != o
    ensures Apart(SplitList(list, i, n), SplitHeaders(hs, o, n, size), |list| + 1)
  {
    var list', hs' := SplitList(list, i, n), SplitHeaders(hs, o, n, size);
    forall j | 0 <= j < |list'| ensures !(Free(list', hs', j) && Free(list', hs', j + 1)) {
      if j + 1 < i { assert !(Free(list, hs, j) && Free(list, hs, j + 1)); }
      if j == i + 1 { assert Free(list, hs, i) && !Free(list, hs, i + 1); }
      if j > i + 1 { assert !(Free(list, hs, j - 1) && Free(list, hs, j)); }
    }
  }

  lemma TakeApart(list: seq<int>, hs: Headers, o: int)
    requires Apart(list, hs, |list|) && o in hs
    ensures Apart(list, hs[o := hs[o].(free := false)], |list|)
  {
    var hs' := hs[o := hs[o].(free := false)];
    forall j | 0 <= j < |list| ensures !(Free(list, hs', j) && Free(list, hs', j + 1)) {
      assert !(Free(list, hs, j) && Free(list, hs, j + 1));
    }
  }

  lemma MergeApart(list: seq<int>, hs: Headers, i: int, o: int, n: int)
    requires Tiled(list, hs) && Apart(list, hs, i) && 0 <= i < |list| - 1 && o == list[i] && n == list[i + 1]
    requires o in hs && n in hs && hs[o].free && hs[n].free
    ensures Apart(MergeList(list, i), MergeHeaders(hs, o, n), i)
  {
    var list', hs' := MergeList(list, i), MergeHeaders(hs, o, n);
    forall j | 0 <= j < i ensures !(Free(list', hs', j) && Free(list', hs', j + 1)) {
      assert !(Free(list, hs, j) && Free(list, hs, j + 1));
    }
  }

  /** No free block among the first n holds the size. */
  ghost predicate NoneFits(list: seq<int>, hs: Headers, size: int, n: int) {
    forall i :: 0 <= i < n ==> !(Free(list, hs, i) && hs[list[i]].size >= size)
  }

  // ---- headers in the arena ----

  /** Where the arena may lie: aligned, not at address zero, and not around the end of the address space. */
  predicate Placed(base: int) {
    0 < base && base % ALIGN == 0 && base + ARENA <= WORD
  }

  function Addr(base: int, o: int): int {
    if o == NIL then 0 else base + o
  }

  function Offset(base: int, a: int): int {
    if a == 0 then NIL else a - base
  }

  /** The header in front of a payload: size, flag, four bytes of padding, address of the next one. */
  function HeaderAt(m: seq<Byte>, base: int, o: int): Header
    requires 0 <= o && o + FIELDS <= |m|
  {
    Header(U64(m, o), U32(m, o + 8) != 0, Offset(base, U64(m, o + 16)))
  }

  /** The list's headers are those in the arena. */
  ghost predicate Stored(m: seq<Byte>, base: int, list: seq<int>, hs: Headers) {
    |m| == ARENA && forall o :: o in list ==> StoredAt(m, base, hs, o)
  }

  ghost predicate StoredAt(m: seq<Byte>, base: int, hs: Headers, o: int) {
    0 <= o && o + FIELDS <= |m| && o in hs && HeaderAt(m, base, o) == hs[o]
  }

  /** Two arenas agree on bytes lo to hi - 1. */
  ghost predicate Same(m: seq<Byte>, m': seq<Byte>, lo: int, hi: int) {
    |m| == |m'| && forall k :: 0 <= k < |m| && lo <= k < hi ==> m[k] == m'[k]
  }

  /** Every payload of the given blocks reads the same. */
  ghost predicate Kept(live: map<int, int>, m: seq<Byte>, m': seq<Byte>) {
    forall o :: o in live ==> Same(m, m', o + HEADER, o + HEADER + live[o])
  }

  lemma KeptTrans(live: map<int, int>, m: seq<Byte>, m': seq<Byte>, m'': seq<Byte>)
    requires Kept(live, m, m') && Kept(live, m', m'')
    ensures Kept(live, m, m'')
  {
    forall o | o in live ensures Same(m, m'', o + HEADER, o + HEADER + live[o]) {
      assert Same(m, m', o + HEADER, o + HEADER + live[o]) && Same(m', m'', o + HEADER, o + HEADER + live[o]);
    }
  }

  lemma SameHeader(m: seq<Byte>, m': seq<Byte>, base: int, o: int)
    requires 0 <= o && o + FIELDS <= |m| && Same(m, m', o, o + FIELDS)
    ensures HeaderAt(m, base, o) == HeaderAt(m', base, o)
  {
  }

  /** Outside two headers everything is as it was. */
  ghost predicate Aside(m: seq<Byte>, m': seq<Byte>, o: int, n: int) {
    |m| == |m'| && forall k :: 0 <= k < |m| && !(o <= k < o + FIELDS) && !(n <= k < n + FIELDS) ==> m[k] == m'[k]
  }

  lemma BlocksApart(list: seq<int>, hs: Headers, a: int, b: int)
    requires Tiled(list, hs) && a in list && b in list && a != b
    ensures a + HEADER <= b || b + HEADER <= a
  {
    var i :| 0 <= i < |list| && list[i] == a;
    var j :| 0 <= j < |list| && list[j] == b;
    assert BlockOk(list, hs, i) && BlockOk(list, hs, j);
    if i < j { Ordered(list, hs, i, j); } else { Ordered(list, hs, j, i); }
  }

  /** Writing the headers of two blocks o and n of the new list: the arena stores the new
      list, and no payload in use has changed. */
  lemma HeadersWritten(m: seq<Byte>, m': seq<Byte>, base: int, list: seq<int>, hs: Headers, list': seq<int>, hs': Headers, o: int, n: int)
    requires Stored(m, base, list, hs) && Tiled(list', hs') && Aside(m, m', o, n) && o in list' && n in list'
    requires forall b :: b in list' && b != o && b != n ==> b in list && b in hs && b in hs' && hs[b] == hs'[b]
    requires StoredAt(m', base, hs', o) && StoredAt(m', base, hs', n)
    ensures Stored(m', base, list', hs') && Kept(Live(list', hs'), m, m')
  {
    hide Tiled, HeaderAt;
    forall b | b in list' ensures StoredAt(m', base, hs', b) {
      if b != o && b != n {
        assert StoredAt(m, base, hs, b);
        BlocksApart(list', hs', b, o);
        BlocksApart(list', hs', b, n);
        assert Same(m, m', b, b + FIELDS);
        SameHeader(m, m', base, b);
      }
    }
    var live := Live(list', hs');
    forall a | a in live ensures Same(m, m', a + HEADER, a + HEADER + live[a]) {
      if a != o { LiveDisjoint(list', hs', a, o); }
      if a != n { LiveDisjoint(list', hs', a, n); }
    }
  }

  /** Whatever is written into one payload in use, headers and other payloads stay. */
  lemma PayloadWritten(m: seq<Byte>, m': seq<Byte>, base: int, list: seq<int>, hs: Headers, a: int)
    requires Stored(m, base, list, hs) && Tiled(list, hs) && a in Live(list, hs) && |m'| == |m|
    requires forall k :: 0 <= k < |m| && !(a + HEADER <= k < a + HEADER + hs[a].size) ==> m[k] == m'[k]
    ensures Stored(m', base, list, hs) && Kept(Live(list, hs) - {a}, m, m')
  {
    hide Tiled, HeaderAt;
    forall b | b in list ensures StoredAt(m', base, hs, b) {
      assert StoredAt(m, base, hs, b);
      if b != a { LiveDisjoint(list, hs, a, b); }
      SameHeader(m, m', base, b);
    }
    var live := Live(list, hs);
    forall b | b in live && b != a ensures Same(m, m', b + HEADER, b + HEADER + live[b]) {
      LiveDisjoint(list, hs, a, b);
    }
  }

  lemma SizeWritten(m: seq<Byte>, base: int, o: int, v: int)
    requires 0 <= o && o + FIELDS <= |m| && 0 <= v < WORD
    ensures HeaderAt(Splice(m, o, Le64(v)), base, o) == HeaderAt(m, base, o).(size := v)
  {
    hide Le64;
    U64Splice(m, o, v);
  }

  lemma FlagWritten(m: seq<Byte>, base: int, o: int, v: int)
    requires 0 <= o && o + FIELDS <= |m| && 0 <= v <= 1
    ensures HeaderAt(Splice(m, o + 8, Le32(v)), base, o) == HeaderAt(m, base, o).(free := v != 0)
  {
    hide Le32;
    U32Splice(m, o + 8, v, o + 8);
  }

  lemma NextWritten(m: seq<Byte>, base: int, o: int, n: int)
    requires 0 <= o && o + FIELDS <= |m| && Placed(base) && (n == NIL || 0 <= n < ARENA)
    ensures HeaderAt(Splice(m, o + 16, Le64(Addr(base, n))), base, o) == HeaderAt(m, base, o).(next := n)
  {
    hide Le64;
    U64Splice(m, o + 16, Addr(base, n));
  }

  class Heap {
    const mem: array<Byte>
    const base: int
    var head: int
    var ready: bool
    ghost var list: seq<int>
    ghost var hs: Headers

    ghost predicate Valid()
      reads this, mem
    {
      mem.Length == ARENA && Placed(base) && (ready ==> head == 0 && Inv(list, hs) && Stored(mem[..], base, list, hs))
    }

    /** The arena at some address. */
    constructor (address: int)
      requires Placed(address)
      ensures Valid() && !ready && fresh(mem)
    {
      mem := new Byte[ARENA](_ => 0);
      base := address;
      head, ready, list, hs := NIL, false, [], map[];
    }

    function At(o: int): Header
      reads mem
      requires 0 <= o && o + FIELDS <= mem.Length
    {
      HeaderAt(mem[..], base, o)
    }

    method PutSize(o: int, size: int)
      requires 0 <= o && o + FIELDS <= mem.Length && 0 <= size < WORD
      modifies mem
      ensures At(o) == old(At(o)).(size := size) && Aside(old(mem[..]), mem[..], o, o)
    {
      hide HeaderAt, Le64;
      PutBytes(mem, o, Le64(size));
      SizeWritten(old(mem[..]), base, o, size);
    }

    method PutFree(o: int, free: bool)
      requires 0 <= o && o + FIELDS <= mem.Length
      modifies mem
      ensures At(o) == old(At(o)).(free := free) && Aside(old(mem[..]), mem[..], o, o)
    {
      hide HeaderAt, Le32;
      var v := if free then 1 else 0;
      PutBytes(mem, o + 8, Le32(v));
      FlagWritten(old(mem[..]), base, o, v);
    }

    method PutNext(o: int, n: int)
      requires 0 <= o && o + FIELDS <= mem.Length && Placed(base) && (n == NIL || 0 <= n < ARENA)
      modifies mem
      ensures At(o) == old(At(o)).(next := n) && Aside(old(mem[..]), mem[..], o, o)
    {
      hide HeaderAt, Le64;
      PutBytes(mem, o + 16, Le64(Addr(base, n)));
      NextWritten(old(mem[..]), base, o, n);
    }

    method Init()
      requires Valid()
      modifies this, mem
      ensures Valid() && ready && list == [0] && Live(list, hs) == map[] && 0 in hs && hs[0] == Header(ARENA - HEADER, true, NIL)
    {
      hide HeaderAt;
      head := 0;
      PutSize(0, ARENA - HEADER);
      PutFree(0, true);
      PutNext(0, NIL);
      ready := true;
      list := [0];
      hs := map[0 := Header(ARENA - HEADER, true, NIL)];
      assert BlockOk(list, hs, 0);
    }

    /** The first free block that holds the size, or NIL; i is its place in the list. */
    method FirstFit(size: int) returns (o: int, ghost i: int)
      requires Valid() && ready
      ensures o == NIL ==> NoneFits(list, hs, size, |list|)
      ensures o != NIL ==> 0 <= i < |list| && o == list[i] && o in hs && hs[o].free && hs[o].size >= size && NoneFits(list, hs, size, i)
    {
      hide Apart, Tiled, HeaderAt;
      o, i := head, 0;
      HeadIs(list, hs);
      while o != NIL
        invariant 0 <= i <= |list| && NoneFits(list, hs, size, i)
        invariant o == (if i < |list| then list[i] else NIL) && (o == NIL <==> i == |list|)
        decreases |list| - i
      {
        BlockAt(list, hs, i);
        assert StoredAt(mem[..], base, hs, o);
        var h := At(o);
        if h.free && h.size >= size { return; }
        o := h.next;
        i := i + 1;
      }
    }

    method Clear(from: int, n: int)
      requires mem.Length == ARENA && 0 <= from && 0 <= n && from + n <= ARENA
      modifies mem
      ensures forall k :: 0 <= k < ARENA ==> mem[k] == if from <= k < from + n then 0 else old(mem[k])
    {
      var k := 0;
      while k < n
        invariant 0 <= k <= n
        invariant forall j :: 0 <= j < ARENA ==> mem[j] == if from <= j < from + k then 0 else old(mem[j])
      {
        mem[from + k] := 0;
        k := k + 1;
      }
    }

    /** Writes a new free block n behind the first part of block o. */
    method Cut(o: int, n: int, size: int)
      requires mem.Length == ARENA && Placed(base) && 0 <= o && o + FIELDS <= n && n + FIELDS <= ARENA && 0 <= size < WORD
      requires 0 <= At(o).size - size - HEADER < WORD && (At(o).next == NIL || 0 <= At(o).next < ARENA)
      modifies mem
      ensures At(n) == Header(old(At(o)).size - size - HEADER, true, old(At(o)).next)
      ensures At(o) == Header(size, old(At(o)).free, n) && Aside(old(mem[..]), mem[..], o, n)
    {
      hide HeaderAt;
      ghost var m0 := mem[..];
      PutSize(n, At(o).size - size - HEADER);
      ghost var m1 := mem[..];
      SameHeader(m0, m1, base, o);
      PutFree(n, true);
      ghost var m2 := mem[..];
      SameHeader(m1, m2, base, o);
      PutNext(n, At(o).next);
      ghost var m3 := mem[..];
      SameHeader(m2, m3, base, o);
      PutNext(o, n);
      ghost var m4 := mem[..];
      SameHeader(m3, m4, base, n);
      PutSize(o, size);
      SameHeader(m4, mem[..], base, n);
    }

    /** Marks block o as used, split when the rest can hold another block. */
    method Take(o: int, size: int, ghost i: int)
      requires Valid() && ready && 0 <= i < |list| && o == list[i] && o in hs && hs[o].free && hs[o].size >= size
      requires size >= 0 && size % ALIGN == 0
      modifies `hs, `list, mem
      ensures Valid() && o in hs && size <= hs[o].size < size + HEADER + ALIGN
      ensures Live(list, hs) == old(Live(list, hs))[o := hs[o].size] && Kept(Live(list, hs), old(mem[..]), mem[..])
    {
      hide Tiled, Apart, HeaderAt, Live, Kept;
      ghost var m := mem[..];
      Inside(list, hs, i);
      BlockAt(list, hs, i);
      assert StoredAt(m, base, hs, o);
      var n := o + HEADER + size;
      if At(o).size >= size + HEADER + ALIGN {
        SplitTiled(list, hs, i, o, n, size);
        SplitApart(list, hs, i, o, n, size);
        NextInside(list, hs, i);
        Cut(o, n, size);
        ghost var m1 := mem[..];
        PutFree(o, false);
        SameHeader(m1, mem[..], base, n);
        ghost var list', hs' := SplitList(list, i, n), SplitHeaders(hs, o, n, size);
        SplitListed(list, hs, i, o, n, size);
        HeadersWritten(m, mem[..], base, list, hs, list', hs', o, n);
        list, hs := list', hs';
      } else {
        MarkTiled(list, hs, i, o, false);
        TakeApart(list, hs, o);
        PutFree(o, false);
        ghost var hs' := hs[o := hs[o].(free := false)];
        MarkListed(list, hs, hs', o);
        HeadersWritten(m, mem[..], base, list, hs, list, hs', o, o);
        hs := hs';
      }
    }

    /** Allocates: fails only when no free block holds the rounded size; otherwise one new
        block is in use, zeroed, and every payload that was in use is as it was. */
    method Kmalloc(size: int) returns (p: int)
      requires Valid() && 0 <= size < WORD
      modifies `hs, `list, mem
      ensures Valid()
      ensures p == NIL <==> !ready || size == 0 || old(NoneFits(list, hs, AlignUp(size), |list|))
      ensures p == NIL ==> list == old(list) && hs == old(hs) && mem[..] == old(mem[..])
      ensures p != NIL ==> var o, n := p - HEADER, AlignUp(size);
                o !in old(Live(list, hs)) && o in hs && n <= hs[o].size < n + HEADER + ALIGN
                && Live(list, hs) == old(Live(list, hs))[o := hs[o].size]
                && (exists i :: 0 <= i < |old(list)| && old(list)[i] == o && NoneFits(old(list), old(hs), n, i))
                && Kept(old(Live(list, hs)), old(mem[..]), mem[..])
                && forall k :: 0 <= k < ARENA && p <= k < p + hs[o].size ==> mem[k] == 0
    {
      hide Tiled, Apart, HeaderAt, Live, Kept;
      if !ready || size == 0 { return NIL; }
      var n := AlignUp(size);
      ghost var i, live := 0, Live(list, hs);
      var o;
      o, i := FirstFit(n);
      if o == NIL { return NIL; }
      FreeFits(list, hs, n, i);
      Take(o, n, i);
      ghost var m := mem[..];
      LiveIs(list, hs, o);
      LiveInside(list, hs, o);
      LiveListed(list, hs, o);
      assert StoredAt(m, base, hs, o);
      Clear(o + HEADER, At(o).size);
      PayloadWritten(m, mem[..], base, list, hs, o);
      KeptLess(live, Live(list, hs), o, old(mem[..]), m, mem[..]);
      p := o + HEADER;
    }

    /** Merges free neighbours along the list. */
    method Coalesce()
      requires mem.Length == ARENA && Placed(base) && head == 0 && Tiled(list, hs) && Stored(mem[..], base, list, hs)
      modifies `hs, `list, mem
      ensures Inv(list, hs) && Stored(mem[..], base, list, hs)
      ensures Live(list, hs) == old(Live(list, hs)) && Kept(Live(list, hs), old(mem[..]), mem[..])
    {
      hide Tiled, Live, HeaderAt, Kept, Stored;
      ghost var i := 0;
      ghost var was, m := Live(list, hs), mem[..];
      var o := head;
      HeadIs(list, hs);
      KeptSelf(was, m);
      while o != NIL
        invariant Tiled(list, hs) && Stored(mem[..], base, list, hs) && Live(list, hs) == was && 0 <= i <= |list| && Apart(list, hs, i)
        invariant o == (if i < |list| then list[i] else NIL) && (o == NIL <==> i == |list|) && Kept(was, m, mem[..])
        decreases |list| - i
      {
        BlockAt(list, hs, i);
        StoredBlock(mem[..], base, list, hs, i);
        var n := At(o).next;
        if At(o).free && n != NIL && At(n).free {
          Join(o, n, i, m);
        } else {
          o := n;
          i := i + 1;
        }
      }
    }

    /** Merges block o, number i in the list, with the next one. */
    method Join(o: int, n: int, ghost i: int, ghost m: seq<Byte>)
      requires mem.Length == ARENA && Placed(base) && Tiled(list, hs) && Stored(mem[..], base, list, hs) && Apart(list, hs, i)
      requires 0 <= i < |list| - 1 && o == list[i] && n == list[i + 1] && o in hs && n in hs && hs[o].free && hs[n].free
      requires Kept(Live(list, hs), m, mem[..])
      modifies `hs, `list, mem
      ensures Tiled(list, hs) && Stored(mem[..], base, list, hs) && Apart(list, hs, i)
      ensures |list| == old(|list|) - 1 && list[i] == o && Live(list, hs) == old(Live(list, hs)) && Kept(Live(list, hs), m, mem[..])
    {
      hide Tiled, Apart, HeaderAt, Live, Kept;
      ghost var m0 := mem[..];
      Inside(list, hs, i);
      Inside(list, hs, i + 1);
      BlockAt(list, hs, i);
      BlockAt(list, hs, i + 1);
      assert StoredAt(m0, base, hs, o) && StoredAt(m0, base, hs, n);
      NextInside(list, hs, i + 1);
      MergeTiled(list, hs, i, o, n);
      MergeApart(list, hs, i, o, n);
      PutSize(o, At(o).size + HEADER + At(n).size);
      SameHeader(m0, mem[..], base, n);
      PutNext(o, At(n).next);
      ghost var list', hs' := MergeList(list, i), MergeHeaders(hs, o, n);
      MergeListed(list, hs, i, o, n);
      HeadersWritten(m0, mem[..], base, list, hs, list', hs', o, o);
      list, hs := list', hs';
      KeptTrans(Live(list, hs), m, m0, mem[..]);
    }

    /** Frees a block; NULL and pointers outside the arena are ignored. */
    method Kfree(p: int)
      requires Valid() && (p == NIL || !ready || !(0 <= p - HEADER < ARENA) || p - HEADER in list)
      modifies `hs, `list, mem
      ensures Valid()
      ensures if p == NIL || !ready || !(0 <= p - HEADER < ARENA) then list == old(list) && hs == old(hs) && mem[..] == old(mem[..])
              else Live(list, hs) == old(Live(list, hs)) - {p - HEADER} && Kept(Live(list, hs), old(mem[..]), mem[..])
    {
      hide Tiled, Apart, HeaderAt, Live, Kept;
      if p == NIL || !ready { return; }
      var o := p - HEADER;
      if o < 0 || o >= ARENA { return; }
      ghost var i :| 0 <= i < |list| && list[i] == o;
      ghost var m := mem[..];
      Inside(list, hs, i);
      assert StoredAt(m, base, hs, o);
      MarkTiled(list, hs, i, o, true);
      PutFree(o, true);
      ghost var hs' := hs[o := hs[o].(free := true)];
      MarkListed(list, hs, hs', o);
      HeadersWritten(m, mem[..], base, list, hs, list, hs', o, o);
      hs := hs';
      ghost var m1 := mem[..];
      Coalesce();
      KeptTrans(Live(list, hs), m, m1, mem[..]);
    }

    /** Freeing every block in use, in any order, restores the single initial block. */
    method FreeAll(ps: seq<int>)
      requires Valid() && ready && Names(ps, Live(list, hs))
      modifies `hs, `list, mem
      ensures Valid() && list == [0] && 0 in hs && hs[0] == Header(ARENA - HEADER, true, NIL)
    {
      hide Tiled, Apart, Live, Names, Stored, Kept;
      var i := 0;
      assert ps[0..] == ps;
      while i < |ps|
        invariant 0 <= i <= |ps| && Valid() && ready && Names(ps[i..], Live(list, hs))
      {
        NamesFirst(ps[i..], Live(list, hs));
        LiveInside(list, hs, ps[i] - HEADER);
        LiveListed(list, hs, ps[i] - HEADER);
        Kfree(ps[i]);
        assert ps[i..][1..] == ps[i + 1..];
        i := i + 1;
      }
      NamesNone(ps[i..], Live(list, hs));
      AllFree(list, hs);
    }

    /** The bytes that can still be handed out: the arena less headers and blocks in use. */
    method FreeBytes() returns (total: int)
      requires Valid()
      ensures !ready ==> total == 0
      ensures ready ==> total == Sum(list, hs, true) && total + Sum(list, hs, false) + HEADER * |list| == ARENA
    {
      hide Tiled, Apart, HeaderAt;
      total := 0;
      if !ready { return; }
      var o := head;
      ghost var i := 0;
      HeadIs(list, hs);
      while o != NIL
        invariant 0 <= i <= |list| && o == (if i < |list| then list[i] else NIL) && (o == NIL <==> i == |list|) && total == Sum(list[..i], hs, true)
        decreases |list| - i
      {
        BlockAt(list, hs, i);
        assert StoredAt(mem[..], base, hs, o);
        assert list[..i + 1][..i] == list[..i] && list[..i + 1][i] == list[i];
        if At(o).free { total := total + At(o).size; }
        o := At(o).next;
        i := i + 1;
      }
      assert list[..i] == list;
      Conserved(list, hs, |list|);
    }
  }

  lemma KeptSelf(live: map<int, int>, m: seq<Byte>)
    ensures Kept(live, m, m)
  {
  }

  lemma KeptLess(live: map<int, int>, live': map<int, int>, o: int, m: seq<Byte>, m': seq<Byte>, m'': seq<Byte>)
    requires o !in live && o in live' && live' == live[o := live'[o]] && Kept(live', m, m') && Kept(live' - {o}, m', m'')
    ensures Kept(live, m, m'')
  {
    forall a | a in live ensures Same(m, m'', a + HEADER, a + HEADER + live[a]) {
      assert a in live' && a in live' - {o} && live'[a] == live[a];
      assert Same(m, m', a + HEADER, a + HEADER + live'[a]) && Same(m', m'', a + HEADER, a + HEADER + live'[a]);
    }
  }

  lemma LiveIs(list: seq<int>, hs: Headers, o: int)
    requires o in Live(list, hs)
    ensures o in list && o in hs && Live(list, hs)[o] == hs[o].size
  {
  }

  lemma NextInside(list: seq<int>, hs: Headers, i: int)
    requires Tiled(list, hs) && 0 <= i < |list|
    ensures list[i] in hs && (hs[list[i]].next == NIL || 0 <= hs[list[i]].next < ARENA)
  {
    assert BlockOk(list, hs, i);
    if i + 1 < |list| { assert BlockOk(list, hs, i + 1); Inside(list, hs, i + 1); }
  }

  lemma StoredBlock(m: seq<Byte>, base: int, list: seq<int>, hs: Headers, i: int)
    requires Stored(m, base, list, hs) && 0 <= i < |list|
    ensures StoredAt(m, base, hs, list[i]) && (i + 1 < |list| ==> StoredAt(m, base, hs, list[i + 1]))
  {
  }

  lemma SplitListed(list: seq<int>, hs: Headers, i: int, o: int, n: int, size: int)
    requires Tiled(list, hs) && 0 <= i < |list| && o == list[i] && o in hs
    ensures o in SplitList(list, i, n) && n in SplitList(list, i, n)
    ensures forall b :: b in SplitList(list, i, n) && b != o && b != n ==>
              b in list && b in hs && b in SplitHeaders(hs, o, n, size) && hs[b] == SplitHeaders(hs, o, n, size)[b]
  {
    var list' := SplitList(list, i, n);
    assert list'[i] == o && list'[i + 1] == n;
    forall b | b in list' && b != n ensures b in list && b in hs {
      var j :| 0 <= j < |list'| && list'[j] == b;
      assert b == if j <= i then list[j] else list[j - 1];
      assert BlockOk(list, hs, if j <= i then j else j - 1);
    }
  }

  lemma MarkListed(list: seq<int>, hs: Headers, hs': Headers, o: int)
    requires Tiled(list, hs) && o in hs && o in hs' && hs' == hs[o := hs'[o]]
    ensures forall b :: b in list && b != o ==> b in hs && b in hs' && hs[b] == hs'[b]
  {
    forall b | b in list ensures b in hs {
      var j :| 0 <= j < |list| && list[j] == b;
      assert BlockOk(list, hs, j);
    }
  }

  lemma MergeListed(list: seq<int>, hs: Headers, i: int, o: int, n: int)
    requires Tiled(list, hs) && 0 <= i < |list| - 1 && o == list[i] && n == list[i + 1] && o in hs && n in hs
    ensures o in MergeList(list, i) && MergeList(list, i)[i] == o
    ensures forall b :: b in MergeList(list, i) && b != o ==> b in list && b in hs && MergeHeaders(hs, o, n)[b] == hs[b]
  {
    var list' := MergeList(list, i);
    forall b | b in list' ensures b in list && b in hs {
      var j :| 0 <= j < |list'| && list'[j] == b;
      assert b == if j <= i then list[j] else list[j + 1];
      assert BlockOk(list, hs, if j <= i then j else j + 1);
    }
  }

  lemma FreeFits(list: seq<int>, hs: Headers, size: int, i: int)
    requires 0 <= i < |list| && list[i] in hs && hs[list[i]].free && hs[list[i]].size >= size
    ensures !NoneFits(list, hs, size, |list|) && list[i] !in Live(list, hs)
  {
    assert Free(list, hs, i);
  }

  lemma LiveInside(list: seq<int>, hs: Headers, o: int)
    requires Tiled(list, hs) && o in Live(list, hs)
    ensures 0 <= o && o in hs && hs[o].size >= 0 && o + HEADER + hs[o].size <= ARENA
  {
    var i :| 0 <= i < |list| && list[i] == o;
    assert BlockOk(list, hs, i);
    Inside(list, hs, i);
  }

  /** The payload pointers of the blocks in use, each once. */
  ghost predicate Names(ps: seq<int>, live: map<int, int>) {
    && (forall a, b :: 0 <= a < b < |ps| ==> ps[a] != ps[b])
    && forall p :: p in ps <==> p - HEADER in live
  }

  lemma NamesFirst(ps: seq<int>, live: map<int, int>)
    requires Names(ps, live) && ps != []
    ensures ps[0] - HEADER in live && Names(ps[1..], live - {ps[0] - HEADER})
  {
    assert ps == [ps[0]] + ps[1..];
    assert ps[0] in ps;
    forall p ensures p in ps[1..] <==> p - HEADER in live - {ps[0] - HEADER} {
      assert p in ps <==> p - HEADER in live;
    }
  }

  lemma NamesNone(ps: seq<int>, live: map<int, int>)
    requires Names(ps, live) && ps == []
    ensures live == map[]
  {
    forall o ensures o !in live {
      assert o + HEADER !in ps;
    }
  }

  lemma LiveListed(list: seq<int>, hs: Headers, o: int)
    requires o in Live(list, hs)
    ensures o in list
  {
  }

  lemma HeadIs(list: seq<int>, hs: Headers)
    requires Tiled(list, hs)
    ensures |list| > 0 && list[0] == 0
  {
  }

  lemma BlockAt(list: seq<int>, hs: Headers, i: int)
    requires Tiled(list, hs) && 0 <= i < |list|
    ensures BlockOk(list, hs, i) && (i + 1 < |list| ==> BlockOk(list, hs, i + 1) && list[i + 1] != NIL)
  {
    if i + 1 < |list| { assert BlockOk(list, hs, i + 1); }
  }

  /** A block that is handed out holds what was asked for exactly up to 2^32 - 16 bytes;
      a larger request is rounded to its size modulo 2^32. */
  lemma GrantedSize(size: int, given: int)
    requires 0 < size < WORD && AlignUp(size) <= given < AlignUp(size) + HEADER + ALIGN && given <= ARENA
    ensures given >= size <==> size <= MASK - ALIGN
  {
  }

  /** A fresh heap of two megabytes hands out a block for a request of four gigabytes. */
  method Oversized(address: int) returns (p: int, given: int)
    requires Placed(address)
    ensures p != NIL && given < 0x1_0000_0000
  {
    hide HeaderAt, Tiled, Apart;
    var h := new Heap(address);
    h.Init();
    assert Free(h.list, h.hs, 0);
    p := h.Kmalloc(0x1_0000_0000);
    LiveInside(h.list, h.hs, p - HEADER);
    LiveListed(h.list, h.hs, p - HEADER);
    assert StoredAt(h.mem[..], h.base, h.hs, p - HEADER);
    given := h.At(p - HEADER).size;
  }
}
