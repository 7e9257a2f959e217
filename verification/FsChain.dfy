/** The allocation table buffer in memory, and the operations on chains that the
    service performs on it before storing it. */
module FsChain {
  import opened Bytes
  import opened FsLayout
  import opened FsTree
  import opened FsVolume

  // ---- bytes of a chain ----

  lemma FlattenSame(data: seq<Sector>, data': seq<Sector>, chain: seq<int>)
    requires |data| == |data'| == FAT_ENTRIES && InArea(chain)
    requires forall i :: 0 <= i < |chain| ==> data'[chain[i]] == data[chain[i]]
    ensures Flatten(data', chain) == Flatten(data, chain)
  {
  }

  lemma FlattenPrefix(data: seq<Sector>, chain: seq<int>, longer: seq<int>)
    requires |data| == FAT_ENTRIES && InArea(longer) && chain <= longer
    ensures InArea(chain) && Flatten(data, chain) == Flatten(data, longer)[..BLOCK * |chain|]
  {
    assert forall i :: 0 <= i < |chain| ==> chain[i] == longer[i];
  }

  /** Writing one cluster of a chain: bytes before the write point stay, then
      come the bytes written. */
  lemma FlattenWrite(data: seq<Sector>, chain: seq<int>, j: nat, off: nat, t: Sector, piece: seq<Byte>)
    requires |data| == FAT_ENTRIES && InArea(chain) && j < |chain|
    requires forall i :: 0 <= i < |chain| && i != j ==> chain[i] != chain[j]
    requires off + |piece| <= BLOCK
    requires forall k :: 0 <= k < off ==> t[k] == data[chain[j]][k]
    requires forall k :: off <= k < off + |piece| ==> t[k] == piece[k - off]
    ensures Flatten(data[chain[j] := t], chain)[..BLOCK * j + off + |piece|] ==
            Flatten(data, chain)[..BLOCK * j + off] + piece
  {
    var a, b := Flatten(data[chain[j] := t], chain), Flatten(data, chain);
    var n := BLOCK * j + off;
    forall k | 0 <= k < n + |piece| ensures a[k] == (b[..n] + piece)[k] {
      if k / BLOCK < j {
        assert chain[k / BLOCK] != chain[j];
      } else {
        assert k / BLOCK == j && k % BLOCK == k - BLOCK * j;
      }
    }
  }

  // ---- the table buffer ----

  /** The links held by a buffer. */
  ghost function Links(fat: array<Byte>): (f: seq<int>)
    requires fat.Length == FAT_BYTES
    reads fat
    ensures |f| == FAT_ENTRIES
  {
    FatView(fat[..])
  }

  method GetEntry(fat: array<Byte>, c: int) returns (v: int)
    requires fat.Length == FAT_BYTES && 0 <= c < FAT_ENTRIES
    ensures v == Links(fat)[c]
  {
    v := FatGet(fat[..], c);
  }

  method SetEntry(fat: array<Byte>, c: int, v: int)
    requires fat.Length == FAT_BYTES && 0 <= c < FAT_ENTRIES && 0 <= v < 0x1_0000_0000
    modifies fat
    ensures Links(fat) == old(Links(fat))[c := v % 0x1000_0000]
  {
    var w := Le32(v);
    ghost var before := fat[..];
    fat[4 * c] := w[0];
    fat[4 * c + 1] := w[1];
    fat[4 * c + 2] := w[2];
    fat[4 * c + 3] := w[3];
    assert fat[..] == Splice(before, 4 * c, w);
    FatSetView(before, c, v);
  }

  /** First-fit: the lowest free cluster. */
  method FindFreeCluster(fat: array<Byte>) returns (r: Option<int>)
    requires fat.Length == FAT_BYTES
    ensures r.Some? ==> MIN_ALLOC <= r.value <= MAX_ALLOC && Links(fat)[r.value] == FREE
    ensures forall c :: MIN_ALLOC <= c < (if r.Some? then r.value else FAT_ENTRIES) ==> Links(fat)[c] != FREE
  {
    var c := MIN_ALLOC;
    while c <= MAX_ALLOC
      invariant MIN_ALLOC <= c <= FAT_ENTRIES
      invariant forall k :: MIN_ALLOC <= k < c ==> Links(fat)[k] != FREE
    {
      var v := GetEntry(fat, c);
      if v == FREE {
        return Some(c);
      }
      c := c + 1;
    }
    return None;
  }

  /** A free cluster is found exactly when not all are owned. */
  method Allocate(fat: array<Byte>, ghost objs: Objs, ghost own: Own) returns (r: Option<int>)
    requires fat.Length == FAT_BYTES && FatInv(Links(fat), objs, own)
    ensures r.Some? <==> |own| < CLUSTERS
    ensures r.Some? ==> MIN_ALLOC <= r.value <= MAX_ALLOC && Links(fat)[r.value] == FREE
    ensures |own| <= CLUSTERS
  {
    r := FindFreeCluster(fat);
    FreeCount(Links(fat), objs, own);
  }

  /** Links of a chain as the service reads them. */
  lemma LinkOf(fat: seq<int>, objs: Objs, own: Own, o: int, j: int)
    requires FatInv(fat, objs, own) && o in objs && 0 <= j < |objs[o].chain|
    ensures InArea(objs[o].chain) && ROOT <= objs[o].chain[j] <= MAX_ALLOC
    ensures objs[o].chain[j] in own && own[objs[o].chain[j]] == Pos(o, j)
    ensures o != ROOT || j > 0 ==> MIN_ALLOC <= objs[o].chain[j]
    ensures j < |objs[o].chain| - 1 ==> fat[objs[o].chain[j]] == objs[o].chain[j + 1] && MIN_ALLOC <= objs[o].chain[j + 1] <= MAX_ALLOC
    ensures j == |objs[o].chain| - 1 ==> fat[objs[o].chain[j]] == EOC
  {
    ChainDistinct(fat, objs, own, o);
    assert ChainOk(fat, own, o, objs[o].chain);
    assert Link(fat, objs[o].chain, j);
  }

  /** The cluster after link `j`, chaining a free one when the chain ends there. */
  method NextOrExtend(current: int, fat: array<Byte>, ghost objs: Objs, ghost own: Own, ghost o: int, ghost j: nat)
    returns (next: Option<int>, grew: bool, ghost chain: seq<int>, ghost own': Own)
    requires fat.Length == FAT_BYTES && FatInv(Links(fat), objs, own) && o in objs
    requires j < |objs[o].chain| && current == objs[o].chain[j]
    modifies fat
    ensures FatInv(Links(fat), objs[o := objs[o].(chain := chain)], own')
    ensures next.Some? <==> j + 1 < |objs[o].chain| || |own| < CLUSTERS
    ensures next.None? ==> chain == objs[o].chain && own' == own
    ensures next.Some? ==> j + 1 < |chain| && chain[j + 1] == next.value && MIN_ALLOC <= next.value <= MAX_ALLOC
    ensures j + 1 < |objs[o].chain| ==> chain == objs[o].chain && own' == own
    ensures grew <==> next.Some? && j + 1 == |objs[o].chain|
    ensures grew ==>
              && chain == objs[o].chain + [next.value] && next.value !in own
              && own' == own[next.value := Pos(o, j + 1)] && |own'| == |own| + 1
  {
    hide FatInv;
    LinkOf(Links(fat), objs, own, o, j);
    chain, own' := objs[o].chain, own;
    var link := GetEntry(fat, current);
    assert objs[o := objs[o].(chain := chain)] == objs;
    if link == EOC || link == FREE {
      var n := Allocate(fat, objs, own);
      if n.None? {
        return None, false, chain, own';
      }
      Grow(Links(fat), objs, own, o, n.value);
      SetEntry(fat, current, n.value);
      SetEntry(fat, n.value, EOC);
      chain, own' := chain + [n.value], own[n.value := Pos(o, j + 1)];
      return n, true, chain, own';
    }
    return Some(link), false, chain, own';
  }

  /** Frees the chain of `o` from link `k` on. */
  method FreeClusterChain(first: int, fat: array<Byte>, ghost objs: Objs, ghost own: Own, ghost o: int, ghost k: nat)
    requires fat.Length == FAT_BYTES && FatInv(Links(fat), objs, own) && o in objs
    requires k < |objs[o].chain| && first == objs[o].chain[k]
    modifies fat
    ensures Links(fat) == Freed(old(Links(fat)), Tail(own, o, k))
  {
    hide FatInv, Tail;
    ghost var fat0 := Links(fat);
    ghost var i := k;
    ghost var chain := objs[o].chain;
    var current := first;
    assert Links(fat) == Freed(fat0, Tail(own, o, k) - Tail(own, o, k));
    while true
      invariant k <= i < |chain| && current == chain[i]
      invariant Links(fat) == Freed(fat0, Tail(own, o, k) - Tail(own, o, i))
      decreases |chain| - i
    {
      LinkOf(fat0, objs, own, o, i);
      FreeStep(fat0, objs, own, o, k, i);
      var next := GetEntry(fat, current);
      SetEntry(fat, current, FREE);
      if next == EOC || next == FREE {
        TailEnd(fat0, objs, own, o, k, i + 1);
        return;
      }
      current := next;
      i := i + 1;
    }
  }

  lemma TailEnd(fat: seq<int>, objs: Objs, own: Own, o: int, k: int, i: int)
    requires FatInv(fat, objs, own) && o in objs && i == |objs[o].chain|
    ensures Tail(own, o, k) - Tail(own, o, i) == Tail(own, o, k)
  {
    assert forall c :: c in Tail(own, o, i) ==> own[c].idx < |objs[o].chain|;
  }

  /** Freeing one more link; the link read before that is still the old one. */
  lemma FreeStep(fat: seq<int>, objs: Objs, own: Own, o: int, k: int, i: int)
    requires FatInv(fat, objs, own) && o in objs && 0 <= k <= i < |objs[o].chain|
    ensures var c := objs[o].chain[i];
            && ROOT <= c <= MAX_ALLOC
            && Freed(fat, Tail(own, o, k) - Tail(own, o, i))[c] == fat[c]
            && Freed(fat, Tail(own, o, k) - Tail(own, o, i))[c := FREE] == Freed(fat, Tail(own, o, k) - Tail(own, o, i + 1))
  {
    LinkOf(fat, objs, own, o, i);
    assert Placed(objs, own);
    TailStep(objs, own, o, i);
    var c := objs[o].chain[i];
    assert c in Tail(own, o, i) && c in Tail(own, o, k);
    FreedOne(fat, Tail(own, o, k) - Tail(own, o, i), Tail(own, o, k) - Tail(own, o, i + 1), c);
  }

  lemma FreedOne(fat: seq<int>, a: set<int>, b: set<int>, c: int)
    requires 0 <= c < |fat| && b == a + {c} && c !in a
    ensures Freed(fat, a)[c := FREE] == Freed(fat, b) && Freed(fat, a)[c] == fat[c]
  {
  }
}
