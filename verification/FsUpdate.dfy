/** Writing a file's content and its entry: overwriting or extending an existing
    file, creating one, and what a write that runs out of space leaves behind. */
module FsUpdate {
  import opened Bytes
  import opened FsLayout
  import opened FsTree
  import opened FsVolume
  import opened FsDirs
  import opened FsChain
  import opened FsScan
  import opened FsSpec
  import opened FsWrite
  import opened FsLookup
  import opened FsMap
  import opened FsUnseen
  import opened FsCreate

  /** Writes the content, then the size in the entry, and stores table and entry. */
  method StoreContent(dev: Device, first: int, content: seq<Byte>, append: bool, size: nat, at: int, slot: nat,
                      fat: array<Byte>, dirData: array<Byte>, ghost objs: Objs, ghost own: Own)
    returns (ok: bool, newSize: nat, ghost chain: seq<int>, ghost own': Own, ghost data': seq<Sector>)
    requires dev.Big() && fat.Length == FAT_BYTES && dirData.Length == BLOCK && fat != dirData
    requires FatInv(Links(fat), objs, own) && ROOT <= at <= MAX_ALLOC && slot < SLOTS
    requires first in objs && InArea(objs[first].chain) && size <= BLOCK * |objs[first].chain|
    modifies dev, fat, dirData
    ensures dev.Big() && dev.blocks[0] == old(dev.blocks[0]) && |data'| == FAT_ENTRIES
    ensures SameDataOff(old(dev.Data()), data', own, first)
    ensures append ==> Flatten(data', objs[first].chain)[..size] == Flatten(old(dev.Data()), objs[first].chain)[..size]
    ensures ok <==> Needed(if append then size else 0, |content|) <= CLUSTERS - |own| + |objs[first].chain|
    ensures !ok ==> dev.Meta() == old(dev.Meta()) && Stored(dev) == old(Stored(dev)) && dev.Data() == data'
    ensures ok ==> newSize == (if append then size else 0) + |content| && newSize < 0x1_0000_0000
    ensures ok ==> dev.Data() == data'[at := Splice(old(dirData[..]), SLOT_BYTES * slot + 28, Le32(newSize))]
    ensures ok ==> FatInv(Stored(dev), objs[first := objs[first].(chain := chain, size := newSize)], own')
    ensures ok ==> SameOwnOff(own, own', first) && |own'| - |own| == |chain| - |objs[first].chain|
    ensures ok ==> |chain| == AtLeast(if append then |objs[first].chain| else 1, Needed(if append then size else 0, |content|))
    ensures ok ==> Written(data', chain, if append then size else 0,
                           if append then Flatten(old(dev.Data()), objs[first].chain)[..size] else [], content)
  {
    hide FatInv, Links, Stored, Splice, Le32, Device.Data, Device.Meta, SameDataOff, SameOwnOff, Flatten, Written, InArea, Needed;
    MetaStored(dev);
    ok, newSize, chain, own' := dev.WriteEntryContent(first, content, append, size, fat, objs, own);
    MetaStored(dev);
    data' := dev.Data();
    if ok {
      FileBound(Links(fat), objs, own', first, chain, newSize, data', if append then size else 0,
                if append then Flatten(old(dev.Data()), objs[first].chain)[..size] else [], content);
      PutBytes(dirData, SLOT_BYTES * slot + 28, Le32(newSize));
      Commit(dev, fat, at, dirData);
    }
  }

  /** A chain cannot outgrow the volume, so sizes fit their 32-bit field. */
  lemma FileBound(fat: seq<int>, objs: Objs, own: Own, o: int, chain: seq<int>, size: nat,
                  data: seq<Sector>, start: nat, base: seq<Byte>, content: seq<Byte>)
    requires |data| == FAT_ENTRIES && o in objs && FatInv(fat, objs[o := objs[o].(chain := chain)], own)
    requires Written(data, chain, start, base, content) && size == start + |content|
    ensures size < 0x1_0000_0000 && size <= BLOCK * |chain|
    ensures FatInv(fat, objs[o := objs[o].(chain := chain, size := size)], own)
  {
    hide Written, Flatten;
    var objs' := objs[o := objs[o].(chain := chain)];
    ChainBound(fat, objs', own, o);
    WrittenSize(data, chain, start, base, content);
    Resized(fat, objs', own, o, size);
    assert objs'[o := objs'[o].(size := size)] == objs[o := objs[o].(chain := chain, size := size)];
  }

  lemma WrittenSize(data: seq<Sector>, chain: seq<int>, start: nat, base: seq<Byte>, content: seq<Byte>)
    requires |data| == FAT_ENTRIES && Written(data, chain, start, base, content)
    ensures InArea(chain) && start + |content| <= BLOCK * |chain|
  {
  }

  lemma ChainBound(fat: seq<int>, objs: Objs, own: Own, o: int)
    requires FatInv(fat, objs, own) && o in objs
    ensures |objs[o].chain| <= CLUSTERS
  {
    FreeCount(fat, objs, own);
    TailSize(fat, objs, own, o, 0);
    SubsetSize(Tail(own, o, 0), own.Keys);
    assert |own| == |own.Keys|;
  }

  lemma Resized(fat: seq<int>, objs: Objs, own: Own, o: int, size: nat)
    requires FatInv(fat, objs, own) && o in objs
    ensures FatInv(fat, objs[o := objs[o].(size := size)], own)
  {
    hide ChainOk;
    var objs' := objs[o := objs[o].(size := size)];
    assert forall u :: u in objs ==> objs'[u].chain == objs[u].chain;
  }

  // ---- an existing file ----

  /** Other objects' clusters are kept, so the volume stays consistent and only `p` can change. */
  lemma OffWrites(fat: seq<int>, data: seq<Sector>, objs: Objs, own: Own, data': seq<Sector>, o: int, p: Path)
    requires |fat| == |data| == |data'| == FAT_ENTRIES && Inv(fat, data, objs, own)
    requires o in objs && !objs[o].isDir && Resolve(objs, p) == Some(o) && SameDataOff(data, data', own, o)
    ensures Sized(objs[o]) && Adds(fat, data, objs, own, fat, data', objs, own, p, ValOf(data', objs[o]))
  {
    hide FatInv, TreeInv, DirInv, Mapped, Resolve;
    assert SameOnDirs(data, data', objs, own);
    DataFrame(fat, data, data', objs, own);
    assert FilesKept(data, objs, own, data', objs, o);
    MappedUpdated(fat, data, objs, own, fat, data', objs, own, o, p);
  }

  /** A failed append leaves the whole map as it was. */
  lemma FailedAppend(fat: seq<int>, data: seq<Sector>, objs: Objs, own: Own, data': seq<Sector>, o: int, p: Path)
    requires |fat| == |data| == |data'| == FAT_ENTRIES && o in objs && Sized(objs[o]) && !objs[o].isDir
    requires Adds(fat, data, objs, own, fat, data', objs, own, p, ValOf(data', objs[o]))
    requires Flatten(data', objs[o].chain)[..objs[o].size] == Flatten(data, objs[o].chain)[..objs[o].size]
    requires p in Mapped(fat, data, objs, own) && Mapped(fat, data, objs, own)[p] == ValOf(data, objs[o])
    ensures Mapped(fat, data', objs, own) == Mapped(fat, data, objs, own)
  {
    hide Inv, Mapped;
    UpdateSame(Mapped(fat, data, objs, own), p, ValOf(data', objs[o]));
  }

  /** A completed write shows the new bytes at `p`, and nothing else changes. */
  lemma Rewritten(fat: seq<int>, data: seq<Sector>, objs: Objs, own: Own, o: int, p: Path,
                  data1: seq<Sector>, fat2: seq<int>, data2: seq<Sector>, own2: Own, chain: seq<int>,
                  start: nat, base: seq<Byte>, content: seq<Byte>)
    requires |fat| == |data| == |data1| == |fat2| == |data2| == FAT_ENTRIES
    requires o in objs && !objs[o].isDir && Resolve(objs, p) == Some(o)
    requires ROOT <= objs[o].at <= MAX_ALLOC && objs[o].col < SLOTS && start + |content| < 0x1_0000_0000
    requires SlotAt(data[objs[o].at], objs[o].col) == Live(objs[o].name, ATTR_ARCHIVE, o, objs[o].size)
    requires SameDataOff(data, data1, own, o) && SameOwnOff(own, own2, o)
    requires data2 == data1[objs[o].at := Splice(data[objs[o].at], SLOT_BYTES * objs[o].col + 28, Le32(start + |content|))]
    requires Written(data1, chain, start, base, content)
    requires FatInv(fat2, objs[o := objs[o].(chain := chain, size := start + |content|)], own2) && Inv(fat, data, objs, own)
    ensures Adds(fat, data, objs, own, fat2, data2, objs[o := objs[o].(chain := chain, size := start + |content|)], own2, p, File(base + content))
  {
    hide FatInv, Inv, Mapped, Resolve, SlotAt, SlotSet, Written, Flatten, Splice, Le32, SameDataOff, SameOwnOff, SameShape, FilesKept;
    var x := objs[o].(chain := chain, size := start + |content|);
    var objs2, at := objs[o := x], objs[o].at;
    WrittenSize(data1, chain, start, base, content);
    EntryApart(fat, data, objs, own, o);
    RewriteDirs(data, data1, data2, objs, own, o, at);
    ResizeIsSet(data, data2, objs, own, at, objs[o].col, start + |content|);
    SameOff(own, own2, o);
    ResizeEntry(fat, data, objs, own, fat2, data2, own2, o, chain, start + |content|);
    RewriteKept(data, data1, data2, objs, own, o, x, at);
    MappedUpdated(fat, data, objs, own, fat2, data2, objs2, own2, o, p);
    OutsideChain(fat2, objs2, own, own2, o, at);
    WrittenVal(data1, data2, x, at, start, base, content);
  }

  lemma SameOff(own: Own, own': Own, o: int)
    requires SameOwnOff(own, own', o)
    ensures forall c :: c in own && own[c].obj != o ==> c in own' && own'[c] == own[c]
    ensures forall c :: c in own' && own'[c].obj != o ==> c in own && own'[c] == own[c]
  {
  }

  lemma EntryApart(fat: seq<int>, data: seq<Sector>, objs: Objs, own: Own, o: int)
    requires Inv(fat, data, objs, own) && o in objs && !objs[o].isDir
    ensures IsDirCluster(objs, own, objs[o].at) && own[objs[o].at].obj != o
  {
    hide FatInv, SlotAt;
    EntryDir(fat, data, objs, own, o);
  }

  lemma RewriteDirs(data: seq<Sector>, data1: seq<Sector>, data2: seq<Sector>, objs: Objs, own: Own, o: int, at: int)
    requires |data| == |data1| == |data2| == FAT_ENTRIES && o in objs && !objs[o].isDir && SameDataOff(data, data1, own, o)
    requires forall c :: 0 <= c < FAT_ENTRIES && c != at ==> data2[c] == data1[c]
    ensures SameButAt(data, data2, objs, own, at)
  {
  }

  lemma RewriteKept(data: seq<Sector>, data1: seq<Sector>, data2: seq<Sector>, objs: Objs, own: Own, o: int, x: Obj, at: int)
    requires |data| == |data1| == |data2| == FAT_ENTRIES && o in objs && SameDataOff(data, data1, own, o)
    requires IsDirCluster(objs, own, at) && forall c :: 0 <= c < FAT_ENTRIES && c != at ==> data2[c] == data1[c]
    ensures FilesKept(data, objs, own, data2, objs[o := x], o)
  {
  }

  /** The cluster of a file's entry is none of the file's own. */
  lemma OutsideChain(fat: seq<int>, objs: Objs, own: Own, own': Own, o: int, at: int)
    requires FatInv(fat, objs, own') && o in objs && SameOwnOff(own, own', o) && at in own && own[at].obj != o
    ensures forall i :: 0 <= i < |objs[o].chain| ==> objs[o].chain[i] != at
  {
    assert ChainOk(fat, own', o, objs[o].chain);
  }

  lemma WrittenVal(data1: seq<Sector>, data2: seq<Sector>, x: Obj, at: int, start: nat, base: seq<Byte>, content: seq<Byte>)
    requires |data1| == |data2| == FAT_ENTRIES && !x.isDir && x.size == start + |content|
    requires Written(data1, x.chain, start, base, content)
    requires forall i :: 0 <= i < |x.chain| ==> x.chain[i] != at
    requires forall c :: 0 <= c < FAT_ENTRIES && c != at ==> data2[c] == data1[c]
    ensures Sized(x) && ValOf(data2, x) == File(base + content)
  {
    FlattenSame(data1, data2, x.chain);
  }

  // ---- a new file ----

  /** A new file shows up in the map with its content, unless its entry is out of sight. */
  lemma FileMade(fat: seq<int>, data: seq<Sector>, objs: Objs, own: Own, f: Lookup, d: int, at: int, slot: nat,
                 fat1: seq<int>, data1: seq<Sector>, objs1: Objs, own1: Own,
                 data2: seq<Sector>, fat3: seq<int>, data3: seq<Sector>, own3: Own, n: int, x: Obj, dp: Path, content: seq<Byte>)
    requires |fat| == |data| == |fat1| == |data1| == |data2| == |fat3| == |data3| == FAT_ENTRIES && slot < SLOTS && ROOT <= at <= MAX_ALLOC
    requires d in objs && objs[d].isDir && |x.name| == 11 && x.name[0] != 0 && MIN_ALLOC <= n <= MAX_ALLOC && n !in objs1 && n !in own1
    requires x == NewObj(false, d, x.name, at, slot, objs[d].depth, |content|, x.chain) && |content| < 0x1_0000_0000
    requires data3 == data2[at := FillSlot(data1[at], slot, x.name, ATTR_ARCHIVE, n, |content|)]
    requires SameDataOff(data1, data2, own1[n := Pos(n, 0)], n) && SameOwnOff(own1[n := Pos(n, 0)], own3, n)
    requires Written(data2, x.chain, 0, [], content)
    requires !f.Found? && Resolve(objs, dp) == Some(d) && Child(objs, d, x.name).None? && LookupMeans(f, data, objs, own, d, x.name)
    requires Ready(data, objs, own, f, d, at, slot, fat1, data1, objs1, own1)
    requires FatInv(fat3, objs1[n := x], own3) && Inv(fat, data, objs, own)
    ensures if x.name[0] == 0xE5 || Overflows(f, objs[d]) then Unseen(Mapped(fat, data, objs, own), fat3, data3, objs, d, x.name)
            else Adds(fat, data, objs, own, fat3, data3, objs1[n := x], own3, dp + [x.name], File(content))
  {
    hide Inv, FatInv, Mapped, Resolve, Child, LookupMeans, Look, SlotAt, Ready, FillSlot, SameBut, OwnGrows, Overflows, Written, Flatten, SameDataOff, SameOwnOff;
    ReadyFat(data, objs, own, f, d, at, slot, fat1, data1, objs1, own1);
    ReadyOther(fat1, objs1, own1, n);
    FileWrites(data1, data2, data3, own1, own3, at, n);
    WrittenSize(data2, x.chain, 0, [], content);
    if x.name[0] == 0xE5 || Overflows(f, objs[d]) {
      HiddenAfter(fat, data, objs, own, f, d, at, slot, fat1, data1, objs1, own1, fat3, data3, own3, n, x, DIR_CLUSTERS_MAX);
    } else {
      Created(fat, data, objs, own, f, d, at, slot, fat1, data1, objs1, own1, fat3, data3, own3, n, x, dp);
      NotOwn(own1, n, at);
      OutsideChain(fat3, objs1[n := x], own1[n := Pos(n, 0)], own3, n, at);
      WrittenVal(data2, data3, x, at, 0, [], content);
      assert [] + content == content;
    }
  }

  lemma NotOwn(own: Own, n: int, at: int)
    requires n !in own && at in own
    ensures at in own[n := Pos(n, 0)] && own[n := Pos(n, 0)][at] == own[at]
  {
  }

  /** No cluster is owned by an object that is not there. */
  lemma ReadyOther(fat: seq<int>, objs: Objs, own: Own, n: int)
    requires FatInv(fat, objs, own) && n !in objs
    ensures forall c :: c in own ==> own[c].obj != n
  {
  }

  lemma FileWrites(data1: seq<Sector>, data2: seq<Sector>, data3: seq<Sector>, own1: Own, own3: Own, at: int, n: int)
    requires |data1| == |data2| == |data3| == FAT_ENTRIES && n !in own1
    requires forall c :: c in own1 ==> own1[c].obj != n
    requires SameDataOff(data1, data2, own1[n := Pos(n, 0)], n) && SameOwnOff(own1[n := Pos(n, 0)], own3, n)
    requires forall c :: 0 <= c < FAT_ENTRIES && c != at ==> data3[c] == data2[c]
    ensures SameBut(data1, data3, own1, at) && OwnGrows(own1, own3, n)
  {
  }

  /** A create that runs out of space has written only to clusters that were free. */
  lemma FailedCreate(data: seq<Sector>, data1: seq<Sector>, data2: seq<Sector>, own: Own, own1: Own, d: int, n: int)
    requires |data| == |data1| == |data2| == FAT_ENTRIES && n !in own1 && OwnGrows(own, own1, d)
    requires forall c :: c in own1 ==> own1[c].obj != n
    requires SameOwned(data, data1, own) && SameDataOff(data1, data2, own1[n := Pos(n, 0)], n)
    ensures SameOwned(data, data2, own)
  {
  }
}
