/** The directory routines of the service that read a device or change a
    directory buffer: lookup, extension, emptiness, and slot edits. */
module FsLookup {
  import opened Bytes
  import opened FsLayout
  import opened FsTree
  import opened FsVolume
  import opened FsDirs
  import opened FsChain
  import opened FsScan
  import opened FsWrite

  /** The links stored on a device. */
  ghost function Stored(dev: Device): (f: seq<int>)
    reads dev
    requires dev.Big()
    ensures |f| == FAT_ENTRIES
  {
    FatView(FatBytes(dev.blocks))
  }

  method CopySector(s: Sector, buf: array<Byte>)
    requires buf.Length == BLOCK
    modifies buf
    ensures buf[..] == s
  {
    var k := 0;
    while k < BLOCK
      invariant 0 <= k <= BLOCK
      invariant forall q :: 0 <= q < k ==> buf[q] == s[q]
    {
      buf[k] := s[k];
      k := k + 1;
    }
  }

  /** Searches one cluster: the first match, and the first reusable slot unless one is known. */
  method SearchCluster(s: Sector, c: int, name: Name, known: Option<(int, nat)>) returns (hit: Option<int>, free: Option<(int, nat)>)
    ensures hit == MatchIn(s, name, 0)
    ensures hit.None? ==> free == FreeAfter(s, c, known)
  {
    hide MatchIn, VacantIn, FreeAfter, SlotAt;
    free := known;
    var i: nat := 0;
    ghost var z: nat := 0;
    while i < SLOTS
      invariant 0 <= i <= SLOTS
      invariant z == 0 && MatchIn(s, name, z) == MatchIn(s, name, i)
      invariant known.Some? ==> free == known
      invariant known.None? && free.None? ==> VacantIn(s, z) == VacantIn(s, i)
      invariant known.None? && free.Some? ==> VacantIn(s, z).Some? && free.value == (c, VacantIn(s, z).value)
    {
      MatchStep(s, name, i);
      var slot := SlotAt(s, i);
      if slot.End? {
        if free.None? {
          free := Some((c, i));
        }
        FreeAfterIs(s, c, known, z, free);
        return None, free;
      }
      if slot.Dead? {
        if free.None? {
          free := Some((c, i));
        }
      } else if slot.name == name {
        return Some(i), free;
      }
      i := i + 1;
    }
    MatchStep(s, name, i);
    FreeAfterIs(s, c, known, z, free);
    hit := None;
  }

  lemma MatchStep(s: Sector, name: Name, i: nat)
    requires i <= SLOTS
    ensures i == SLOTS ==> MatchIn(s, name, i).None? && VacantIn(s, i).None?
    ensures i < SLOTS && SlotAt(s, i).End? ==> MatchIn(s, name, i).None?
    ensures i < SLOTS && !SlotAt(s, i).Live? ==> VacantIn(s, i) == Some(i)
    ensures i < SLOTS && SlotAt(s, i).Live? ==> VacantIn(s, i) == VacantIn(s, i + 1)
    ensures i < SLOTS && SlotAt(s, i).Live? && SlotAt(s, i).name == name ==> MatchIn(s, name, i) == Some(i)
    ensures i < SLOTS && !SlotAt(s, i).End? && !(SlotAt(s, i).Live? && SlotAt(s, i).name == name) ==>
              MatchIn(s, name, i) == MatchIn(s, name, i + 1)
  {
  }

  lemma FreeAfterIs(s: Sector, c: int, known: Option<(int, nat)>, z: nat, free: Option<(int, nat)>)
    requires z == 0
    requires known.Some? ==> free == known
    requires known.None? && free.None? ==> VacantIn(s, z).None?
    requires known.None? && free.Some? ==> VacantIn(s, z).Some? && free.value == (c, VacantIn(s, z).value)
    ensures free == FreeAfter(s, c, known)
  {
    hide VacantIn;
  }

  /** Looks a name up in a directory. The buffer is left holding the cluster of the reported slot. */
  method FindEntryInDir(dev: Device, dir: int, name: Name, dirData: array<Byte>) returns (r: Lookup)
    requires dev.Big() && dirData.Length == BLOCK
    modifies dirData
    ensures r == Look(Stored(dev), dev.Data(), dir, name)
    ensures !r.Full? ==> ROOT <= r.cluster <= MAX_ALLOC && dirData[..] == dev.Data()[r.cluster]
  {
    hide Look, Scan, MatchIn, VacantIn, FreeAfter, Outcome, SlotAt;
    var fat := dev.LoadFat();
    LinksStored(dev, fat);
    ghost var links, data := Stored(dev), dev.Data();
    var limit: nat := DIR_CLUSTERS_MAX;
    var current, count: nat := dir, 0;
    var free: Option<(int, nat)> := None;
    LookIs(links, data, dir, limit, name);
    var more := true;
    while more && ROOT <= current <= MAX_ALLOC && count < limit
      invariant count <= limit
      invariant Look(links, data, dir, name) ==
                if more then Scan(links, data, current, limit - count, name, free) else Outcome(free)
      invariant free.Some? ==> ROOT <= free.value.0 <= MAX_ALLOC
      invariant Links(fat) == links && dev.Data() == data
      decreases more, limit - count
    {
      ScanStep(links, data, current, limit - count, name, free);
      var s := dev.ReadCluster(current);
      CopySector(s, dirData);
      var hit, free' := SearchCluster(s, current, name, free);
      if hit.Some? {
        return Found(current, hit.value);
      }
      free := free';
      var next := GetEntry(fat, current);
      if next == EOC || next < MIN_ALLOC || next > MAX_ALLOC {
        more := false;
      } else {
        current, count := next, count + 1;
      }
    }
    ScanStop(links, data, current, limit - count, name, free);
    if free.Some? {
      var s := dev.ReadCluster(free.value.0);
      CopySector(s, dirData);
      return Vacant(free.value.0, free.value.1);
    }
    return Full;
  }

  lemma ScanStep(fat: seq<int>, data: seq<Sector>, c: int, n: nat, name: Name, free: Option<(int, nat)>)
    requires |fat| == |data| == FAT_ENTRIES && ROOT <= c <= MAX_ALLOC && n > 0
    ensures MatchIn(data[c], name, 0).Some? ==>
              MatchIn(data[c], name, 0).value >= 0 && Scan(fat, data, c, n, name, free) == Found(c, MatchIn(data[c], name, 0).value)
    ensures MatchIn(data[c], name, 0).None? && MIN_ALLOC <= fat[c] <= MAX_ALLOC ==>
              Scan(fat, data, c, n, name, free) == Scan(fat, data, fat[c], n - 1, name, FreeAfter(data[c], c, free))
    ensures MatchIn(data[c], name, 0).None? && !(MIN_ALLOC <= fat[c] <= MAX_ALLOC) ==>
              Scan(fat, data, c, n, name, free) == Outcome(FreeAfter(data[c], c, free))
    ensures var f := FreeAfter(data[c], c, free); f.Some? ==> f.value.0 == c || f == free
  {
    hide MatchIn, VacantIn;
  }

  lemma ScanStop(fat: seq<int>, data: seq<Sector>, c: int, n: nat, name: Name, free: Option<(int, nat)>)
    requires |fat| == |data| == FAT_ENTRIES
    ensures c < ROOT || c > MAX_ALLOC || n == 0 ==> Scan(fat, data, c, n, name, free) == Outcome(free)
    ensures Outcome(free) == if free.Some? then Vacant(free.value.0, free.value.1) else Full
  {
  }

  /** Walks a directory's chain to its end. */
  method LastCluster(dir: int, fat: array<Byte>, ghost objs: Objs, ghost own: Own) returns (last: int)
    requires fat.Length == FAT_BYTES && FatInv(Links(fat), objs, own)
    requires dir in objs && |objs[dir].chain| <= DIR_CLUSTERS_MAX
    ensures |objs[dir].chain| > 0 && last == objs[dir].chain[|objs[dir].chain| - 1] && ROOT <= last <= MAX_ALLOC
  {
    hide FatInv;
    GrowingStart(Links(fat), objs, own, dir);
    ghost var chain := objs[dir].chain;
    var count := 0;
    last := dir;
    while count < DIR_CLUSTERS_MAX
      invariant 0 <= count < |chain| && last == chain[count]
    {
      LinkOf(Links(fat), objs, own, dir, count);
      var next := GetEntry(fat, last);
      if next == EOC || next < MIN_ALLOC || next > MAX_ALLOC {
        break;
      }
      last, count := next, count + 1;
    }
    LinkOf(Links(fat), objs, own, dir, count);
  }

  /** Chains a zeroed cluster behind a directory of at most 128 clusters. */
  method ExtendDirectory(dev: Device, dir: int, fat: array<Byte>, dirData: array<Byte>, ghost objs: Objs, ghost own: Own)
    returns (r: Option<int>)
    requires dev.Big() && fat.Length == FAT_BYTES && dirData.Length == BLOCK && fat != dirData
    requires FatInv(Links(fat), objs, own) && dir in objs && |objs[dir].chain| <= DIR_CLUSTERS_MAX
    modifies dev, fat, dirData
    ensures dev.Big() && dev.Meta() == old(dev.Meta())
    ensures r.Some? <==> |own| < CLUSTERS
    ensures r.None? ==> Links(fat) == old(Links(fat)) && dev.Data() == old(dev.Data())
    ensures r.Some? ==> MIN_ALLOC <= r.value <= MAX_ALLOC && old(Links(fat))[r.value] == FREE
    ensures r.Some? ==> var chain := objs[dir].chain;
              && |chain| > 0 && ROOT <= chain[|chain| - 1] <= MAX_ALLOC
              && Links(fat) == old(Links(fat))[chain[|chain| - 1] := r.value][r.value := EOC]
              && dev.Data() == old(dev.Data())[r.value := Zeros()] && dirData[..] == Zeros()
  {
    hide FatInv, Links;
    var last := LastCluster(dir, fat, objs, own);
    r := Allocate(fat, objs, own);
    if r.Some? {
      SetEntry(fat, last, r.value);
      SetEntry(fat, r.value, EOC);
      CopySector(Zeros(), dirData);
      dev.WriteCluster(r.value, Zeros());
    }
  }

  // ---- emptiness ----

  datatype Seen = HasLive(slot: nat) | EndReached(slot: nat) | NoneLive

  ghost predicate NoLive(s: Sector) {
    forall k :: 0 <= k < SLOTS ==> !SlotAt(s, k).Live?
  }

  method SearchLive(s: Sector) returns (r: Seen)
    ensures r.HasLive? ==> r.slot < SLOTS && SlotAt(s, r.slot).Live?
    ensures r.EndReached? ==> r.slot < SLOTS && SlotAt(s, r.slot).End? && forall k :: 0 <= k < r.slot ==> !SlotAt(s, k).Live?
    ensures r.NoneLive? ==> NoLive(s)
  {
    hide SlotAt;
    var i: nat := 0;
    while i < SLOTS
      invariant i <= SLOTS
      invariant forall k :: 0 <= k < i ==> !SlotAt(s, k).Live?
    {
      var slot := SlotAt(s, i);
      if slot.End? {
        return EndReached(i);
      }
      if slot.Live? {
        return HasLive(i);
      }
      i := i + 1;
    }
    return NoneLive;
  }

  /** An unused slot is in the last cluster, with nothing live behind it. */
  lemma EndMeansLast(fat: seq<int>, data: seq<Sector>, objs: Objs, own: Own, d: int, j: nat, i: nat)
    requires Inv(fat, data, objs, own) && d in objs && objs[d].isDir && j < |objs[d].chain| && InArea(objs[d].chain)
    requires i < SLOTS && SlotAt(data[objs[d].chain[j]], i).End?
    requires forall k :: 0 <= k < i ==> !SlotAt(data[objs[d].chain[j]], k).Live?
    ensures j == |objs[d].chain| - 1 && NoLive(data[objs[d].chain[j]])
  {
    hide FatInv, TreeInv, SlotAt;
    assert ShapeOk(data, objs[d]) && TailOk(data, objs[d].chain);
    assert j < |objs[d].chain| - 1 ==> NoEnd(data[objs[d].chain[j]]);
    assert j == |objs[d].chain| - 1 ==> EndTail(data[objs[d].chain[j]]);
  }

  lemma NoLiveChildless(fat: seq<int>, data: seq<Sector>, objs: Objs, own: Own, d: int)
    requires Inv(fat, data, objs, own) && d in objs && objs[d].isDir && InArea(objs[d].chain)
    requires forall j :: 0 <= j < |objs[d].chain| ==> NoLive(data[objs[d].chain[j]])
    ensures Childless(objs, d)
  {
    hide Inv, NoLive;
    forall u | u in objs && u != ROOT ensures objs[u].parent != d {
      ChildIsLive(fat, data, objs, own, d, u);
    }
  }

  lemma ChildIsLive(fat: seq<int>, data: seq<Sector>, objs: Objs, own: Own, d: int, u: int)
    requires Inv(fat, data, objs, own) && d in objs && u in objs && u != ROOT && InArea(objs[d].chain)
    ensures objs[u].parent == d ==> exists j :: 0 <= j < |objs[d].chain| && !NoLive(data[objs[d].chain[j]])
  {
    hide FatInv, TreeInv, DirInv;
    if objs[u].parent == d {
      ChildHasSlot(fat, data, objs, own, d, u);
      var j := own[objs[u].at].idx;
      assert !NoLive(data[objs[d].chain[j]]);
    }
  }

  /** Whether a directory has no entries. */
  method DirectoryIsEmpty(dev: Device, dir: int, ghost objs: Objs, ghost own: Own) returns (empty: bool)
    requires dev.Big() && Inv(Stored(dev), dev.Data(), objs, own) && dir in objs && objs[dir].isDir
    ensures empty <==> Childless(objs, dir)
  {
    hide Inv, SlotAt, Childless, NoLive;
    ghost var data, chain := dev.Data(), objs[dir].chain;
    DirStart(Stored(dev), data, objs, own, dir);
    var fat := dev.LoadFat();
    LinksStored(dev, fat);
    var current, count: nat := dir, 0;
    while count < DIR_CLUSTERS_MAX
      invariant count < |chain| && current == chain[count]
      invariant forall k :: 0 <= k < count ==> NoLive(data[chain[k]])
      modifies {}
    {
      InvLink(Stored(dev), data, objs, own, dir, count);
      var s := dev.ReadCluster(current);
      var seen := SearchLive(s);
      if seen.EndReached? {
        EndMeansLast(Stored(dev), data, objs, own, dir, count, seen.slot);
        NoLiveChildless(Stored(dev), data, objs, own, dir);
        return true;
      }
      if seen.HasLive? {
        LiveMeansChild(Stored(dev), data, objs, own, dir, count, seen.slot);
        return false;
      }
      var next := GetEntry(fat, current);
      if next == EOC || next < MIN_ALLOC || next > MAX_ALLOC {
        break;
      }
      current, count := next, count + 1;
    }
    NoLiveChildless(Stored(dev), data, objs, own, dir);
    empty := true;
  }

  lemma InvLink(fat: seq<int>, data: seq<Sector>, objs: Objs, own: Own, d: int, j: nat)
    requires Inv(fat, data, objs, own) && d in objs && j < |objs[d].chain|
    ensures |fat| == FAT_ENTRIES && InArea(objs[d].chain) && ROOT <= objs[d].chain[j] <= MAX_ALLOC
    ensures j < |objs[d].chain| - 1 ==> fat[objs[d].chain[j]] == objs[d].chain[j + 1] && MIN_ALLOC <= objs[d].chain[j + 1] <= MAX_ALLOC
    ensures j == |objs[d].chain| - 1 ==> fat[objs[d].chain[j]] == EOC
  {
    hide FatInv, TreeInv, DirInv;
    LinkOf(fat, objs, own, d, j);
  }

  lemma LiveMeansChild(fat: seq<int>, data: seq<Sector>, objs: Objs, own: Own, d: int, j: nat, i: nat)
    requires Inv(fat, data, objs, own) && d in objs && objs[d].isDir && j < |objs[d].chain| && InArea(objs[d].chain)
    requires i < SLOTS && SlotAt(data[objs[d].chain[j]], i).Live?
    ensures !Childless(objs, d)
  {
    hide FatInv, TreeInv, DirInv, SlotAt;
    ChainOwned(fat, objs, own, d, j);
    SlotIsChild(fat, data, objs, own, d, objs[d].chain[j], i);
  }

  // ---- slot edits in a directory buffer ----

  method StartEntry(buf: array<Byte>, i: nat, name: Name, attr: Byte, cluster: nat)
    requires buf.Length == BLOCK && i < SLOTS && |name| == 11
    modifies buf
    ensures buf[..] == StartSlot(old(buf[..]), i, name, attr, cluster)
  {
    var off := SLOT_BYTES * i;
    PutBytes(buf, off, name);
    PutBytes(buf, off + 11, [attr]);
    PutBytes(buf, off + 20, Le16(cluster / 0x1_0000));
    PutBytes(buf, off + 26, Le16(cluster));
  }

  ghost predicate SameButAt(data: seq<Sector>, data': seq<Sector>, objs: Objs, own: Own, at: int)
    requires |data| == |data'| == FAT_ENTRIES
  {
    forall c :: IsDirCluster(objs, own, c) && c != at ==> data'[c] == data[c]
  }

  lemma FillIsSet(data: seq<Sector>, data': seq<Sector>, objs: Objs, own: Own, at: int, i: nat,
                  name: Name, attr: Byte, cluster: nat, size: nat)
    requires |data| == |data'| == FAT_ENTRIES && ROOT <= at <= MAX_ALLOC && i < SLOTS && |name| == 11
    requires cluster < 0x1_0000_0000 && size < 0x1_0000_0000 && name[0] != 0 && name[0] != 0xE5 && attr != 0x0F
    requires SameButAt(data, data', objs, own, at)
    requires data'[at] == FillSlot(data[at], i, name, attr, cluster, size)
    ensures SlotSet(data, data', objs, own, at, i, Live(name, attr, cluster, size))
  {
    hide SlotAt, FillSlot;
    forall k | 0 <= k < SLOTS
      ensures SlotAt(data'[at], k) == if k == i then Live(name, attr, cluster, size) else SlotAt(data[at], k)
    {
      FillSlotReads(data[at], i, name, attr, cluster, size, k);
    }
  }

  lemma ResizeIsSet(data: seq<Sector>, data': seq<Sector>, objs: Objs, own: Own, at: int, i: nat, size: nat)
    requires |data| == |data'| == FAT_ENTRIES && ROOT <= at <= MAX_ALLOC && i < SLOTS && size < 0x1_0000_0000
    requires SlotAt(data[at], i).Live? && SameButAt(data, data', objs, own, at)
    requires data'[at] == Splice(data[at], SLOT_BYTES * i + 28, Le32(size))
    ensures SlotSet(data, data', objs, own, at, i, SlotAt(data[at], i).(size := size))
  {
    hide SlotAt, Splice;
    forall k | 0 <= k < SLOTS
      ensures SlotAt(data'[at], k) == if k == i then SlotAt(data[at], i).(size := size) else SlotAt(data[at], k)
    {
      ResizeReads(data[at], i, size, k);
    }
  }

  lemma DeleteIsSet(data: seq<Sector>, data': seq<Sector>, objs: Objs, own: Own, at: int, i: nat)
    requires |data| == |data'| == FAT_ENTRIES && ROOT <= at <= MAX_ALLOC && i < SLOTS
    requires SameButAt(data, data', objs, own, at) && data'[at] == data[at][SLOT_BYTES * i := 0xE5]
    ensures SlotSet(data, data', objs, own, at, i, Dead)
  {
    hide SlotAt;
    forall k | 0 <= k < SLOTS
      ensures SlotAt(data'[at], k) == if k == i then Dead else SlotAt(data[at], k)
    {
      DeleteReads(data[at], i, k);
    }
  }

  lemma MetaStored(dev: Device)
    requires dev.Big()
    ensures Stored(dev) == FatView(dev.Meta().1) && dev.blocks[0] == dev.Meta().0
  {
  }

  /** Stores the table, then the directory cluster. */
  method Commit(dev: Device, fat: array<Byte>, at: int, dirData: array<Byte>)
    requires dev.Big() && fat.Length == FAT_BYTES && dirData.Length == BLOCK && ROOT <= at <= MAX_ALLOC
    modifies dev
    ensures dev.Big() && Stored(dev) == Links(fat) && dev.blocks[0] == old(dev.blocks[0])
    ensures dev.Data() == old(dev.Data())[at := dirData[..]]
  {
    dev.StoreFat(fat);
    dev.WriteCluster(at, dirData[..]);
  }

  lemma LinksStored(dev: Device, fat: array<Byte>)
    requires dev.Big() && fat.Length == FAT_BYTES && fat[..] == FatBytes(dev.blocks)
    ensures Links(fat) == Stored(dev)
  {
  }
}
