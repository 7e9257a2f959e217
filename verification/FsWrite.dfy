/** Streaming a write over a file's clusters, on a device that never fails. */
module FsWrite {
  import opened Bytes
  import opened FsLayout
  import opened FsTree
  import opened FsVolume
  import opened FsChain
  import opened FsSpec

  /** Ownership agrees outside object `o`. */
  ghost predicate SameOwnOff(own: Own, own': Own, o: int) {
    && (forall c :: c in own && own[c].obj != o ==> c in own' && own'[c] == own[c])
    && (forall c :: c in own' && own'[c].obj != o ==> c in own && own'[c] == own[c])
  }

  /** Clusters of other objects keep their bytes. */
  ghost predicate SameDataOff(data: seq<Sector>, data': seq<Sector>, own: Own, o: int)
    requires |data| == |data'| == FAT_ENTRIES
  {
    forall c :: c in own && own[c].obj != o && ROOT <= c <= MAX_ALLOC ==> data'[c] == data[c]
  }

  lemma ExtendOwn(own: Own, own': Own, o: int, n: int, x: Pos)
    requires SameOwnOff(own, own', o) && n !in own' && x.obj == o
    ensures SameOwnOff(own, own'[n := x], o)
  {
  }

  /** A write to one of `o`'s own clusters touches no other object. */
  lemma OwnChunk(data: seq<Sector>, data1: seq<Sector>, data2: seq<Sector>, own: Own, own': Own, o: int, c: int)
    requires |data| == |data1| == |data2| == FAT_ENTRIES
    requires forall k :: 0 <= k < FAT_ENTRIES && k != c ==> data2[k] == data1[k]
    requires SameDataOff(data, data1, own, o) && SameOwnOff(own, own', o) && c in own' && own'[c].obj == o
    ensures SameDataOff(data, data2, own, o)
  {
  }

  lemma DistinctAt(fat: seq<int>, objs: Objs, own: Own, o: int, j: nat)
    requires FatInv(fat, objs, own) && o in objs && j < |objs[o].chain|
    ensures forall i :: 0 <= i < |objs[o].chain| && i != j ==> objs[o].chain[i] != objs[o].chain[j]
  {
    ChainDistinct(fat, objs, own, o);
  }

  /** The chain of `first` has been extended to `chain`, at the cost of as many
      clusters that were free; nothing else in the table has changed hands. */
  ghost predicate Growing(fat: seq<int>, objs: Objs, own: Own, first: int, chain: seq<int>, own': Own) {
    && first in objs && FatInv(fat, objs[first := objs[first].(chain := chain)], own')
    && SameOwnOff(own, own', first) && own.Keys <= own'.Keys
    && objs[first].chain <= chain && InArea(chain)
    && |own'| - |own| == |chain| - |objs[first].chain| && |own'| <= CLUSTERS
  }

  lemma GrowingStart(fat: seq<int>, objs: Objs, own: Own, first: int)
    requires FatInv(fat, objs, own) && first in objs
    ensures Growing(fat, objs, own, first, objs[first].chain, own)
    ensures |objs[first].chain| > 0 && objs[first].chain[0] == first && InArea(objs[first].chain)
  {
    assert objs[first := objs[first].(chain := objs[first].chain)] == objs;
    assert ChainOk(fat, own, first, objs[first].chain);
    FreeCount(fat, objs, own);
  }

  lemma GrowingAt(fat: seq<int>, objs: Objs, own: Own, first: int, chain: seq<int>, own': Own, j: nat)
    requires Growing(fat, objs, own, first, chain, own') && j < |chain|
    ensures InArea(chain) && objs[first].chain <= chain
    ensures SameOwnOff(own, own', first) && chain[j] in own' && own'[chain[j]].obj == first
    ensures forall i :: 0 <= i < |chain| && i != j ==> chain[i] != chain[j]
    ensures |own'| - |own| == |chain| - |objs[first].chain| && |own'| <= CLUSTERS
  {
    hide FatInv;
    var objs' := objs[first := objs[first].(chain := chain)];
    LinkOf(fat, objs', own', first, j);
    DistinctAt(fat, objs', own', first, j);
  }

  /** Moves to the cluster after link `j`, chaining a free one at the end. */
  method Advance(current: int, fat: array<Byte>, ghost objs: Objs, ghost own: Own, ghost first: int,
                 ghost chain: seq<int>, ghost own1: Own, ghost j: nat)
    returns (next: Option<int>, grew: bool, ghost chain': seq<int>, ghost own2: Own)
    requires fat.Length == FAT_BYTES && Growing(Links(fat), objs, own, first, chain, own1)
    requires j < |chain| && current == chain[j]
    modifies fat
    ensures Growing(Links(fat), objs, own, first, chain', own2) && chain <= chain'
    ensures next.Some? <==> j + 1 < |chain| || |own1| < CLUSTERS
    ensures next.Some? ==> j + 1 < |chain'| && chain'[j + 1] == next.value && MIN_ALLOC <= next.value <= MAX_ALLOC
    ensures |chain'| == if grew then j + 2 else |chain|
    ensures grew <==> next.Some? && j + 1 == |chain|
    ensures grew ==> next.value !in own
  {
    hide FatInv, SameOwnOff;
    ghost var objs' := objs[first := objs[first].(chain := chain)];
    next, grew, chain', own2 := NextOrExtend(current, fat, objs', own1, first, j);
    assert objs'[first := objs'[first].(chain := chain')] == objs[first := objs[first].(chain := chain')];
    FreeCount(Links(fat), objs[first := objs[first].(chain := chain')], own2);
    if grew {
      ExtendOwn(own, own1, first, next.value, Pos(first, j + 1));
    }
  }

  class Device {
    var blocks: seq<Sector>

    ghost predicate Big()
      reads this
    {
      |blocks| >= DEVICE_BLOCKS
    }

    ghost function Data(): (d: seq<Sector>)
      reads this
      requires Big()
      ensures |d| == FAT_ENTRIES
    {
      DataArea(blocks)
    }

    /** What writes to clusters leave alone: boot sector, stored table, device size. */
    ghost function Meta(): (Sector, seq<Byte>, int)
      reads this
      requires Big()
    {
      (blocks[0], FatBytes(blocks), |blocks|)
    }

    constructor (image: seq<Sector>)
      ensures blocks == image
    {
      blocks := image;
    }

    method ReadCluster(c: int) returns (s: Sector)
      requires Big() && ROOT <= c <= MAX_ALLOC
      ensures s == Data()[c]
    {
      s := blocks[Lba(c)];
    }

    method WriteCluster(c: int, s: Sector)
      requires Big() && ROOT <= c <= MAX_ALLOC
      modifies this
      ensures Big() && Meta() == old(Meta())
      ensures Data() == old(Data())[c := s]
    {
      ClusterWrite(blocks, c, s);
      blocks := blocks[Lba(c) := s];
    }

    method WriteBoot(boot: Sector)
      requires Big()
      modifies this
      ensures Big() && blocks == old(blocks)[0 := boot]
    {
      blocks := blocks[0 := boot];
    }

    /** Reads the table sector by sector into a fresh buffer. */
    method LoadFat() returns (fat: array<Byte>)
      requires Big()
      ensures fresh(fat) && fat.Length == FAT_BYTES && fat[..] == FatBytes(blocks)
    {
      fat := new Byte[FAT_BYTES];
      var i := 0;
      while i < FAT_SECTORS
        invariant 0 <= i <= FAT_SECTORS
        invariant forall k :: 0 <= k < BLOCK * i ==> fat[k] == FatBytes(blocks)[k]
      {
        var k := 0;
        while k < BLOCK
          invariant 0 <= k <= BLOCK
          invariant forall q :: 0 <= q < BLOCK * i + k ==> fat[q] == FatBytes(blocks)[q]
        {
          assert (BLOCK * i + k) / BLOCK == i && (BLOCK * i + k) % BLOCK == k;
          fat[BLOCK * i + k] := blocks[1 + i][k];
          k := k + 1;
        }
        i := i + 1;
      }
    }

    method StoreFat(fat: array<Byte>)
      requires Big() && fat.Length == FAT_BYTES
      modifies this
      ensures Big() && |blocks| == old(|blocks|)
      ensures FatBytes(blocks) == fat[..]
      ensures Data() == old(Data()) && blocks[0] == old(blocks[0])
    {
      var i := 0;
      while i < FAT_SECTORS
        invariant 0 <= i <= FAT_SECTORS
        invariant |blocks| == old(|blocks|)
        invariant forall k :: 0 <= k < i ==> blocks[1 + k] == FatSector(fat[..], k)
        invariant blocks[0] == old(blocks[0])
        invariant forall k :: 1 + FAT_SECTORS <= k < |blocks| ==> blocks[k] == old(blocks)[k]
      {
        blocks := blocks[1 + i := FatSector(fat[..], i)];
        i := i + 1;
      }
      FatStored(blocks, fat[..]);
    }

    /** Walks, extending if need be, to the cluster that holds byte `start`. */
    method WalkTo(first: int, start: nat, fat: array<Byte>, ghost objs: Objs, ghost own: Own)
      returns (ok: bool, current: int, offset: nat, ghost j: nat, ghost chain: seq<int>, ghost own': Own)
      requires Big() && fat.Length == FAT_BYTES && FatInv(Links(fat), objs, own)
      requires first in objs && start <= BLOCK * |objs[first].chain|
      modifies this, fat
      ensures Big() && Meta() == old(Meta())
      ensures SameOwned(old(Data()), Data(), own)
      ensures ok <==> start / BLOCK + 1 <= CLUSTERS - |own| + |objs[first].chain|
      ensures ok ==> Growing(Links(fat), objs, own, first, chain, own')
      ensures ok ==> j < |chain| && current == chain[j]
      ensures ok ==> start == BLOCK * j + offset && offset < BLOCK
      ensures ok ==> |chain| == AtLeast(|objs[first].chain|, j + 1)
    {
      hide FatInv, SameOwned, Growing;
      current, offset, j, chain, own' := first, start, 0, objs[first].chain, own;
      GrowingStart(Links(fat), objs, own, first);
      GrowingAt(Links(fat), objs, own, first, chain, own', 0);
      SameOwnedRefl(Data(), own);
      while offset >= BLOCK
        invariant Big() && Meta() == old(Meta())
        invariant SameOwned(old(Data()), Data(), own)
        invariant Growing(Links(fat), objs, own, first, chain, own')
        invariant j < |chain| && current == chain[j] && start == BLOCK * j + offset
        invariant |chain| == AtLeast(|objs[first].chain|, j + 1)
        invariant |own'| - |own| == |chain| - |objs[first].chain| && |own'| <= CLUSTERS
      {
        var next, grew;
        next, grew, chain, own' := Advance(current, fat, objs, own, first, chain, own', j);
        GrowingAt(Links(fat), objs, own, first, chain, own', j);
        if next.None? {
          ok := false;
          return;
        }
        if grew {
          FreshWrite(old(Data()), Data(), own, next.value, Zeros());
          WriteCluster(next.value, Zeros());
        }
        current, offset, j := next.value, offset - BLOCK, j + 1;
      }
      ok := true;
    }

    /** Writes `piece` at `offset` of a cluster, keeping the bytes before it. */
    method WriteChunk(current: int, offset: nat, piece: seq<Byte>, ghost chain: seq<int>, ghost j: nat)
      requires Big() && InArea(chain) && j < |chain| && current == chain[j]
      requires forall i :: 0 <= i < |chain| && i != j ==> chain[i] != chain[j]
      requires offset + |piece| <= BLOCK
      modifies this
      ensures Big() && Meta() == old(Meta())
      ensures forall c :: 0 <= c < FAT_ENTRIES && c != current ==> Data()[c] == old(Data())[c]
      ensures Flatten(Data(), chain)[..BLOCK * j + offset + |piece|] == Flatten(old(Data()), chain)[..BLOCK * j + offset] + piece
    {
      var data := Zeros();
      if offset != 0 {
        data := ReadCluster(current);
      }
      data := Splice(data, offset, piece);
      FlattenWrite(Data(), chain, j, offset, data, piece);
      WriteCluster(current, data);
    }

    /** Writes as much of `content` from `src` on as the current cluster takes. */
    method PutChunk(content: seq<Byte>, src: nat, current: int, offset: nat, ghost chain: seq<int>, ghost j: nat,
                    ghost start: nat, ghost base: seq<Byte>) returns (chunk: nat)
      requires Big() && InArea(chain) && j < |chain| && current == chain[j] && offset < BLOCK && src < |content|
      requires forall i :: 0 <= i < |chain| && i != j ==> chain[i] != chain[j]
      requires start + src == BLOCK * j + offset && Written(Data(), chain, start, base, content[..src])
      modifies this
      ensures Big() && Meta() == old(Meta())
      ensures forall c :: 0 <= c < FAT_ENTRIES && c != current ==> Data()[c] == old(Data())[c]
      ensures 0 < chunk && src + chunk <= |content| && offset + chunk <= BLOCK
      ensures src + chunk < |content| ==> offset + chunk == BLOCK
      ensures Written(Data(), chain, start, base, content[..src + chunk])
    {
      var avail := BLOCK - offset;
      chunk := if |content| - src < avail then |content| - src else avail;
      WriteChunk(current, offset, content[src..src + chunk], chain, j);
      WrittenChunk(old(Data()), Data(), chain, start, base, content, src, chunk);
    }

    /** Streams `content` from byte `at` of link `j0` on, extending the chain as needed. */
    method Stream(content: seq<Byte>, from: int, at: nat, fat: array<Byte>, ghost objs: Objs, ghost own: Own,
                  ghost first: int, ghost chain0: seq<int>, ghost own0: Own, ghost j0: nat)
      returns (ok: bool, ghost chain: seq<int>, ghost own': Own)
      requires Big() && fat.Length == FAT_BYTES && Growing(Links(fat), objs, own, first, chain0, own0)
      requires j0 < |chain0| && from == chain0[j0] && at < BLOCK && InArea(chain0)
      modifies this, fat
      ensures Big() && Meta() == old(Meta())
      ensures SameDataOff(old(Data()), Data(), own, first)
      ensures Flatten(Data(), chain0)[..BLOCK * j0 + at] == Flatten(old(Data()), chain0)[..BLOCK * j0 + at]
      ensures ok <==> BLOCK * (CLUSTERS - |own0| + |chain0|) >= BLOCK * j0 + at + |content|
      ensures ok ==> Growing(Links(fat), objs, own, first, chain, own') && chain0 <= chain
      ensures ok ==> |chain| == |chain0| || BLOCK * (|chain| - 1) < BLOCK * j0 + at + |content|
      ensures ok ==> Written(Data(), chain, BLOCK * j0 + at, Flatten(old(Data()), chain0)[..BLOCK * j0 + at], content)
    {
      hide FatInv, SameOwnOff, SameDataOff, Flatten, Written, Growing, Data, Meta, Links, InArea;
      ghost var start := BLOCK * j0 + at;
      ghost var base := Flatten(old(Data()), chain0)[..start];
      ghost var j: nat := j0;
      chain, own' := chain0, own0;
      var current, offset: nat, src: nat := from, at, 0;
      GrowingAt(Links(fat), objs, own, first, chain, own', j);
      StreamStart(Data(), own, first, chain, start);
      assert content[..0] == [];
      while src < |content|
        invariant Big() && Meta() == old(Meta())
        invariant SameDataOff(old(Data()), Data(), own, first)
        invariant Growing(Links(fat), objs, own, first, chain, own') && chain0 <= chain
        invariant j < |chain| && current == chain[j] && offset < BLOCK
        invariant |own'| - |own0| == |chain| - |chain0| && (|chain| == |chain0| || |chain| == j + 1)
        invariant src <= |content| && start + src == BLOCK * j + offset && |own'| <= CLUSTERS
        invariant Written(Data(), chain, start, base, content[..src])
        invariant src > 0 ==> src < |content|
      {
        GrowingAt(Links(fat), objs, own, first, chain, own', j);
        ghost var data := Data();
        var chunk := PutChunk(content, src, current, offset, chain, j, start, base);
        OwnChunk(old(Data()), data, Data(), own, own', first, current);
        src := src + chunk;
        if src == |content| {
          break;
        }
        ghost var shorter := chain;
        var next, grew;
        next, grew, chain, own' := Advance(current, fat, objs, own, first, chain, own', j);
        GrowingAt(Links(fat), objs, own, first, chain, own', j);
        WrittenLonger(Data(), shorter, chain, start, base, content[..src]);
        if next.None? {
          WrittenBase(Data(), chain0, chain, start, base, content[..src]);
          ok := false;
          return;
        }
        current, offset, j := next.value, 0, j + 1;
      }
      assert content[..src] == content;
      WrittenBase(Data(), chain0, chain, start, base, content);
      ok := true;
    }

    /** Cuts the chain of `first` back to that one cluster. */
    method TruncateChain(first: int, fat: array<Byte>, ghost objs: Objs, ghost own: Own)
      requires fat.Length == FAT_BYTES && FatInv(Links(fat), objs, own) && first in objs
      modifies fat
      ensures FatInv(Links(fat), objs[first := objs[first].(chain := [first])], own - Tail(own, first, 1))
      ensures |own - Tail(own, first, 1)| == |own| - (|objs[first].chain| - 1)
    {
      hide FatInv, Tail;
      GrowingStart(Links(fat), objs, own, first);
      LinkOf(Links(fat), objs, own, first, 0);
      Truncate(Links(fat), objs, own, first);
      TailEmpty(Links(fat), objs, own, first);
      var next := GetEntry(fat, first);
      if MIN_ALLOC <= next <= MAX_ALLOC {
        FreeClusterChain(next, fat, objs, own, first, 1);
      }
      SetEntry(fat, first, EOC);
    }

    /** Writes `content` over or behind the `size` bytes a file has. In overwrite
        mode the chain is first cut back to its first cluster. Only clusters of the
        file or free ones are written, and the table changes in memory only. */
    method WriteEntryContent(first: int, content: seq<Byte>, append: bool, size: nat, fat: array<Byte>, ghost objs: Objs, ghost own: Own)
      returns (ok: bool, newSize: nat, ghost chain: seq<int>, ghost own': Own)
      requires Big() && fat.Length == FAT_BYTES && FatInv(Links(fat), objs, own)
      requires first in objs && InArea(objs[first].chain) && size <= BLOCK * |objs[first].chain|
      modifies this, fat
      ensures Big() && Meta() == old(Meta())
      ensures SameDataOff(old(Data()), Data(), own, first)
      ensures append ==> Flatten(Data(), objs[first].chain)[..size] == Flatten(old(Data()), objs[first].chain)[..size]
      ensures ok <==> Needed(if append then size else 0, |content|) <= CLUSTERS - |own| + |objs[first].chain|
      ensures ok ==> newSize == (if append then size else 0) + |content|
      ensures ok ==> Written(Data(), chain, if append then size else 0,
                             if append then Flatten(old(Data()), objs[first].chain)[..size] else [], content)
      ensures ok ==> FatInv(Links(fat), objs[first := objs[first].(chain := chain)], own') && SameOwnOff(own, own', first)
      ensures ok ==> |own'| - |own| == |chain| - |objs[first].chain|
      ensures ok ==> |chain| == AtLeast(if append then |objs[first].chain| else 1, Needed(if append then size else 0, |content|))
    {
      hide FatInv, SameOwnOff, SameDataOff, SameOwned, Flatten, Growing, Tail, Written, Data, Meta, Links, InArea;
      var start := if append then size else 0;
      ghost var objs1, own1 := objs, own;
      StreamStart(Data(), own, first, objs[first].chain, 0);
      if !append {
        TruncateOff(own, first);
        TruncateChain(first, fat, objs, own);
        objs1, own1 := objs[first := objs[first].(chain := [first])], own - Tail(own, first, 1);
      }
      GrowingStart(Links(fat), objs1, own1, first);
      ghost var avail := CLUSTERS - |own1| + |objs1[first].chain|;
      NeededIff(start, |content|, avail);
      ghost var fat1, data0 := Links(fat), Data();
      var current, offset;
      ghost var j, chain1, own2;
      ok, current, offset, j, chain1, own2 := WalkTo(first, start, fat, objs1, own1);
      ghost var data1 := Data();
      SameOwnedBytes(fat1, objs1, own1, data0, data1, first);
      SameOwnedOff(data0, data1, own1, first);
      newSize, chain, own' := 0, [], own;
      if !ok {
        SameOffCompose(data0, data0, data1, own, own1, own1, first);
        return;
      }
      GrowingAt(Links(fat), objs1, own1, first, chain1, own2, j);
      ok, chain, own' := Stream(content, current, offset, fat, objs1, own1, first, chain1, own2, j);
      KeptBytes(data0, data1, Data(), objs1[first].chain, chain1, start);
      if ok {
        newSize := start + |content|;
        GrowingEnd(Links(fat), objs, own, objs1, own1, first, chain, own');
        WrittenBase(Data(), chain1, chain, start, Flatten(data1, chain1)[..start], content);
        CountIs(|objs1[first].chain|, j, offset, |content|, |chain1|, |chain|);
      }
      SameOffCompose(data0, data1, Data(), own, own1, own', first);
    }
  }

  lemma TailEmpty(fat: seq<int>, objs: Objs, own: Own, o: int)
    requires FatInv(fat, objs, own) && o in objs
    ensures |objs[o].chain| == 1 ==> Freed(fat, Tail(own, o, 1)) == fat
  {
    if |objs[o].chain| == 1 {
      assert forall c :: c in own && own[c].obj == o ==> own[c].idx < 1;
    }
  }

  /** The chain ends up with exactly the clusters it had or needs. */
  lemma CountIs(k: nat, j: nat, offset: nat, n: nat, walked: nat, total: nat)
    requires offset < BLOCK && walked == AtLeast(k, j + 1) && walked <= total
    requires BLOCK * j + offset + n <= BLOCK * total
    requires total == walked || BLOCK * (total - 1) < BLOCK * j + offset + n
    ensures total == AtLeast(k, Needed(BLOCK * j + offset, n))
  {
  }

  /** Bytes below `start` through both phases of a write. */
  lemma KeptBytes(data: seq<Sector>, data1: seq<Sector>, data2: seq<Sector>, chain: seq<int>, longer: seq<int>, start: nat)
    requires |data| == |data1| == |data2| == FAT_ENTRIES && InArea(longer) && InArea(chain) && chain <= longer
    requires start <= BLOCK * |chain|
    requires Flatten(data1, chain) == Flatten(data, chain)
    requires Flatten(data2, longer)[..start] == Flatten(data1, longer)[..start]
    ensures Flatten(data2, chain)[..start] == Flatten(data, chain)[..start] == Flatten(data1, longer)[..start]
  {
    FlattenPrefix(data1, chain, longer);
    FlattenPrefix(data2, chain, longer);
  }

  lemma GrowingEnd(fat: seq<int>, objs: Objs, own: Own, objs1: Objs, own1: Own, first: int, chain: seq<int>, own': Own)
    requires Growing(fat, objs1, own1, first, chain, own') && first in objs
    requires objs1 == objs || objs1 == objs[first := objs[first].(chain := [first])]
    ensures FatInv(fat, objs[first := objs[first].(chain := chain)], own') && SameOwnOff(own1, own', first)
    ensures |own'| - |own1| == |chain| - |objs1[first].chain|
  {
    assert objs1[first := objs1[first].(chain := chain)] == objs[first := objs[first].(chain := chain)];
  }

  /** Enough clusters for the walk and for the bytes. */
  lemma NeededIff(start: nat, n: nat, avail: int)
    ensures Needed(start, n) <= avail <==> start / BLOCK + 1 <= avail && start + n <= BLOCK * avail
  {
  }

  lemma SameOffCompose(data: seq<Sector>, data1: seq<Sector>, data2: seq<Sector>, own: Own, own1: Own, own2: Own, o: int)
    requires |data| == |data1| == |data2| == FAT_ENTRIES
    requires SameOwned(data, data1, own1) && SameDataOff(data1, data2, own1, o)
    requires SameOwnOff(own, own1, o)
    ensures SameDataOff(data, data2, own, o)
    ensures SameOwnOff(own1, own2, o) ==> SameOwnOff(own, own2, o)
  {
  }

  lemma SameOwnedOff(data: seq<Sector>, data': seq<Sector>, own: Own, o: int)
    requires |data| == |data'| == FAT_ENTRIES && SameOwned(data, data', own)
    ensures SameDataOff(data, data', own, o)
  {
  }

  /** Bytes of an owned chain are untouched when every owned cluster is. */
  lemma SameOwnedBytes(fat: seq<int>, objs: Objs, own: Own, data: seq<Sector>, data': seq<Sector>, o: int)
    requires |data| == |data'| == FAT_ENTRIES && FatInv(fat, objs, own) && o in objs && SameOwned(data, data', own)
    ensures InArea(objs[o].chain) && Flatten(data', objs[o].chain) == Flatten(data, objs[o].chain)
  {
    assert ChainOk(fat, own, o, objs[o].chain);
    FlattenSame(data, data', objs[o].chain);
  }

  lemma TruncateOff(own: Own, o: int)
    ensures SameOwnOff(own, own - Tail(own, o, 1), o)
  {
  }

  /** The chain starts with the `start` bytes of `base`, then holds `done`. */
  ghost predicate Written(data: seq<Sector>, chain: seq<int>, start: nat, base: seq<Byte>, done: seq<Byte>)
    requires |data| == FAT_ENTRIES
  {
    && InArea(chain) && |base| == start && start + |done| <= BLOCK * |chain|
    && Flatten(data, chain)[..start + |done|] == base + done
  }

  lemma WrittenChunk(data: seq<Sector>, data': seq<Sector>, chain: seq<int>, start: nat, base: seq<Byte>,
                     content: seq<Byte>, src: nat, chunk: nat)
    requires |data| == |data'| == FAT_ENTRIES && InArea(chain)
    requires src + chunk <= |content| && start + src + chunk <= BLOCK * |chain|
    requires Written(data, chain, start, base, content[..src])
    requires Flatten(data', chain)[..start + src + chunk] == Flatten(data, chain)[..start + src] + content[src..src + chunk]
    ensures Written(data', chain, start, base, content[..src + chunk])
  {
    assert base + content[..src] + content[src..src + chunk] == base + content[..src + chunk];
  }

  lemma WrittenLonger(data: seq<Sector>, chain: seq<int>, longer: seq<int>, start: nat, base: seq<Byte>, done: seq<Byte>)
    requires |data| == FAT_ENTRIES && Written(data, chain, start, base, done) && chain <= longer && InArea(longer)
    ensures Written(data, longer, start, base, done)
  {
    FlattenPrefix(data, chain, longer);
  }

  lemma WrittenBase(data: seq<Sector>, shorter: seq<int>, chain: seq<int>, start: nat, base: seq<Byte>, done: seq<Byte>)
    requires |data| == FAT_ENTRIES && Written(data, chain, start, base, done) && shorter <= chain
    requires start <= BLOCK * |shorter|
    ensures InArea(shorter) && Flatten(data, shorter)[..start] == base
    ensures InArea(chain) && start + |done| <= BLOCK * |chain|
    ensures Flatten(data, chain)[..start + |done|] == base + done
  {
    FlattenPrefix(data, shorter, chain);
    assert (base + done)[..start] == base;
  }

  /** Every owned cluster keeps its bytes. */
  ghost predicate SameOwned(data: seq<Sector>, data': seq<Sector>, own: Own)
    requires |data| == |data'| == FAT_ENTRIES
  {
    forall c :: c in own && ROOT <= c <= MAX_ALLOC ==> data'[c] == data[c]
  }

  lemma SameOwnedRefl(data: seq<Sector>, own: Own)
    requires |data| == FAT_ENTRIES
    ensures SameOwned(data, data, own)
    ensures forall o :: SameOwnOff(own, own, o)
  {
  }

  lemma StreamStart(data: seq<Sector>, own: Own, o: int, chain: seq<int>, start: nat)
    requires |data| == FAT_ENTRIES && InArea(chain) && start <= BLOCK * |chain|
    ensures SameDataOff(data, data, own, o) && SameOwnOff(own, own, o)
    ensures Written(data, chain, start, Flatten(data, chain)[..start], [])
  {
  }

  /** A cluster outside the current ownership is outside the first one too. */
  lemma FreshWrite(data: seq<Sector>, data': seq<Sector>, own: Own, c: int, s: Sector)
    requires |data| == |data'| == FAT_ENTRIES && ROOT <= c <= MAX_ALLOC
    requires SameOwned(data, data', own) && c !in own
    ensures SameOwned(data, data'[c := s], own)
  {
  }
}
