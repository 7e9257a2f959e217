/** The file service: read, write, append, make and remove directories, unlink.
    Every operation keeps the volume consistent and acts on the map from paths
    to values as its caller expects. */
module FsService {
  import opened Bytes
  import opened FsLayout
  import opened FsTree
  import opened FsVolume
  import opened FsDirs
  import opened FsChain
  import opened FsScan
  import opened FsPath
  import opened FsSpec
  import opened FsWrite
  import opened FsLookup
  import opened FsFormat
  import opened FsMap
  import opened FsUnseen
  import opened FsCreate
  import opened FsUpdate
  import opened FsList

  class FileService {
    const dev: Device
    ghost var objs: Objs
    ghost var own: Own

    /** The device holds a consistent volume, or nothing the service accepts as one. */
    ghost predicate Valid()
      reads this, dev
    {
      && dev.Big()
      && if BootValid(dev.blocks[0]) then Inv(Stored(dev), dev.Data(), objs, own)
         else objs == FreshObjs() && own == FreshOwn()
    }

    /** The map from paths to values; a device not yet formatted holds the bare root. */
    ghost function View(): Tree
      reads this, dev
      requires Valid()
    {
      if BootValid(dev.blocks[0]) then Mapped(Stored(dev), dev.Data(), objs, own)
      else (FreshTree(); Contents(dev.Data(), objs))
    }

    /** Free clusters. */
    ghost function Free(): int
      reads this
    {
      CLUSTERS - |own|
    }

    /** Clusters of the object at a path. */
    ghost function ClustersAt(p: Path): nat
      reads this
    {
      var o := Resolve(objs, p);
      if o.Some? && o.value in objs then |objs[o.value].chain| else 0
    }

    /** Every slot of the directory at a path holds a live entry. */
    ghost predicate DirFull(dp: Path)
      reads this, dev
      requires Valid()
    {
      && BootValid(dev.blocks[0])
      && var d := Resolve(objs, dp);
         d.Some? && d.value in objs && FullChain(dev.Data(), objs[d.value].chain)
    }

    /** Where a path leads in the current map. */
    ghost function Target(path: Text): Located
      reads this, dev
      requires Valid()
    {
      Locating(View(), path)
    }

    /** Clusters of what is at a path now. */
    ghost function Held(path: Text): nat
      reads this, dev
      requires Valid()
    {
      var t := Target(path);
      if t.Target? then ClustersAt(t.dir + [t.name]) else 0
    }

    ghost predicate NoSlot(path: Text)
      reads this, dev
      requires Valid()
    {
      Target(path).Target? && DirFull(Target(path).dir)
    }

    /** The cluster of the directory a path leads to. */
    ghost function DirAt(path: Text): int
      reads this, dev
      requires Valid()
    {
      var t := Target(path);
      var d := if t.Target? then Resolve(objs, t.dir) else None;
      if d.Some? then d.value else ROOT
    }

    /** An entry made at this path is never found: its name starts with the
        deletion mark, or its directory is full and as long as lookups go. */
    ghost predicate Hidden(path: Text)
      reads this, dev
      requires Valid()
    {
      var t := Target(path);
      t.Target? && ((|t.name| > 0 && t.name[0] == 0xE5) || (NoSlot(path) && ClustersAt(t.dir) >= DIR_CLUSTERS_MAX))
    }

    ghost predicate Formatted()
      reads this, dev
    {
      dev.Big() && BootValid(dev.blocks[0]) && Inv(Stored(dev), dev.Data(), objs, own)
    }

    constructor (device: Device)
      requires device.Big() && !BootValid(device.blocks[0])
      ensures dev == device && Valid() && Free() == CLUSTERS - 1
      ensures View() == imap[[] := Directory]
    {
      dev, objs, own := device, FreshObjs(), FreshOwn();
      new;
      FreshView(dev.Data());
    }

    method EnsureInitialized()
      requires Valid()
      modifies dev
      ensures Formatted() && View() == old(View())
      ensures forall dp: Path :: DirFull(dp) == old(DirFull(dp))
      ensures old(BootValid(dev.blocks[0])) ==> dev.Meta() == old(dev.Meta()) && dev.Data() == old(dev.Data())
      ensures !old(BootValid(dev.blocks[0])) ==> View() == imap[[] := Directory]
    {
      hide Unseen, Inv, Contents;
      if !BootValid(dev.blocks[0]) {
        FreshView(dev.Data());
        Format(dev);
        FreshView(dev.Data());
        MappedIs(Stored(dev), dev.Data(), objs, own);
        FreshNotFull(dev.Data());
      }
    }

    /** Reads a whole file into the caller's buffer. */
    method ReadFileBytes(path: Text, out: array<Byte>) returns (r: Code, len: nat)
      requires Valid()
      modifies dev, out
      ensures Valid() && View() == old(View()) && Free() == old(Free())
      ensures r == ReadCode(old(View()), old(Target(path)), out.Length)
      ensures r != OK ==> out[..] == old(out[..])
      ensures r == OK ==> len == |ReadBytes(old(View()), old(Target(path)))| <= out.Length
      ensures r == OK ==> out[..] == ReadBytes(old(View()), old(Target(path))) + old(out[..])[len..]
    {
      hide Unseen, Inv, Mapped, Resolve, Child, LookupMeans, Look, SlotAt, Locating, Flatten;
      EnsureInitialized();
      len := 0;
      var code, parent, name;
      ghost var dp;
      code, parent, name, dp := ResolveParentAndLeaf(dev, path, objs, own);
      if code != OK {
        return NOT_FOUND, 0;
      }
      ghost var fat, data := Stored(dev), dev.Data();
      var dirData := new Byte[BLOCK];
      var f := FindEntryInDir(dev, parent, name, dirData);
      LookLocated(fat, data, objs, own, dp, parent, name, f);
      if !f.Found? {
        return NOT_FOUND, 0;
      }
      var entry := SlotAt(dirData[..], f.slot);
      if HasDirBit(entry.attr) {
        return NOT_DIR, 0;
      }
      if entry.size > out.Length {
        return NO_SPACE, 0;
      }
      ReadChain(dev, entry.cluster, entry.size, out, objs, own);
      return OK, entry.size;
    }

    /** Lists a directory into the caller's buffer, one name a line. */
    method ListDir(path: Text, out: array<Byte>) returns (r: Code, len: nat, ghost shown: seq<Shown>)
      requires Valid()
      modifies dev, out
      ensures Valid() && View() == old(View())
      ensures r == if out.Length == 0 then INVALID_ARG
                   else if LocateDir(old(View()), Components(path, 0), []).None? then NOT_FOUND
                   else if Named(shown) && |Lines(shown)| < out.Length then OK else NO_SPACE
      ensures r == OK ==> Named(shown) && len < out.Length && out[..len] == Lines(shown) && out[len] == 0
      ensures r in {OK, NO_SPACE} ==> NoDup(shown) && Shows(old(View()), LocateDir(old(View()), Components(path, 0), []).value, shown)
    {
      hide Unseen, Inv, Mapped, Resolve, Child, LocateDir, Entries, Lines, Components, NoDup, Shows;
      shown, len := [], 0;
      if out.Length == 0 {
        return INVALID_ARG, 0, shown;
      }
      EnsureInitialized();
      var d;
      ghost var dp;
      d, dp := ResolveDir(dev, path, objs, own);
      if d.None? {
        return NOT_FOUND, 0, shown;
      }
      StartsChain(Stored(dev), dev.Data(), objs, own, d.value);
      shown := Entries(dev.Data(), objs[d.value].chain, 0);
      ListingMap(Stored(dev), dev.Data(), objs, own, dp, d.value);
      var ok;
      ok, len := ListEntries(dev, d.value, out, objs, own);
      r := if ok then OK else NO_SPACE;
    }

    /** Overwrites or extends the file whose entry is in the buffer. */
    method WriteExisting(o: int, content: seq<Byte>, append: bool, fat: array<Byte>, dirData: array<Byte>, at: int, slot: nat, ghost p: Path)
      returns (r: Code)
      requires Formatted() && fat.Length == FAT_BYTES && dirData.Length == BLOCK && fat != dirData
      requires Links(fat) == Stored(dev) && ROOT <= at <= MAX_ALLOC && slot < SLOTS && dirData[..] == dev.Data()[at]
      requires o in objs && !objs[o].isDir && objs[o].at == at && objs[o].col == slot && Sized(objs[o])
      requires SlotAt(dev.Data()[at], slot) == Live(objs[o].name, ATTR_ARCHIVE, o, objs[o].size)
      requires Resolve(objs, p) == Some(o) && p in View() && View()[p] == ValOf(dev.Data(), objs[o])
      modifies this, dev, fat, dirData
      ensures Formatted()
      ensures var bytes := old(View())[p].bytes;
              var start := if append then |bytes| else 0;
              var need := Needed(start, |content|);
              if need <= old(Free()) + |old(objs)[o].chain| then
                && r == OK && View() == old(View())[p := File(bytes[..start] + content)]
                && Free() == old(Free()) + |old(objs)[o].chain| - AtLeast(if append then |old(objs)[o].chain| else 1, need)
              else
                && r == NO_SPACE && Free() == old(Free()) && dev.Meta() == old(dev.Meta()) && SameOnDirs(old(dev.Data()), dev.Data(), old(objs), old(own))
                && p in View() && View()[p].File? && |View()[p].bytes| == |bytes|
                && View() == old(View())[p := View()[p]] && (append ==> View() == old(View()))
    {
      hide Unseen, Inv, FatInv, Mapped, Resolve, SlotAt, Links, Stored, Flatten, Written, SameDataOff, SameOwnOff, Splice, Le32, Device.Data, Device.Meta, Needed, InArea;
      ghost var fat0, data0, objs0, own0 := Stored(dev), dev.Data(), objs, own;
      InvFat(fat0, data0, objs, own);
      ghost var bytes := Flatten(data0, objs[o].chain)[..objs[o].size];
      var size := SlotAt(dirData[..], slot).size;
      var ok, newSize;
      ghost var chain, own', data';
      ok, newSize, chain, own', data' := StoreContent(dev, o, content, append, size, at, slot, fat, dirData, objs, own);
      if ok {
        ghost var start := if append then size else 0;
        assert bytes[..start] == if append then bytes else [];
        Rewritten(fat0, data0, objs, own, o, p, data', Stored(dev), dev.Data(), own', chain, start, bytes[..start], content);
        objs, own := objs[o := objs[o].(chain := chain, size := newSize)], own';
        return OK;
      }
      OffWrites(fat0, data0, objs, own, data', o, p);
      OffDirs(data0, data', objs, own, o);
      if append {
        FailedAppend(fat0, data0, objs, own, data', o, p);
      }
      return NO_SPACE;
    }

    /** Creates a file in the ready slot. */
    method WriteNew(parent: int, name: Name, content: seq<Byte>, append: bool, fat: array<Byte>, dirData: array<Byte>, at: int, slot: nat,
                    ghost data0: seq<Sector>, ghost f: Lookup, ghost objs1: Objs, ghost own1: Own, ghost dp: Path)
      returns (r: Code)
      requires dev.Big() && BootValid(dev.blocks[0]) && fat.Length == FAT_BYTES && dirData.Length == BLOCK && fat != dirData
      requires |data0| == FAT_ENTRIES && parent in objs && objs[parent].isDir && |name| == 11 && name[0] != 0
      requires ROOT <= at <= MAX_ALLOC && slot < SLOTS && dirData[..] == dev.Data()[at]
      requires Resolve(objs, dp) == Some(parent) && !f.Found? && Child(objs, parent, name).None? && LookupMeans(f, data0, objs, own, parent, name)
      requires Ready(data0, objs, own, f, parent, at, slot, Links(fat), dev.Data(), objs1, own1) && Inv(Stored(dev), data0, objs, own)
      modifies this, dev, fat, dirData
      ensures dev.Big() && BootValid(dev.blocks[0])
      ensures r == if Needed(0, |content|) <= CLUSTERS - |own1| then OK else NO_SPACE
      ensures r == NO_SPACE ==> dev.Meta() == old(dev.Meta()) && SameOnDirs(data0, dev.Data(), objs, own)
      ensures r == NO_SPACE ==> Formatted() && own == old(own) && objs == old(objs) && View() == Mapped(old(Stored(dev)), data0, objs, own)
      ensures r == OK ==>
                if name[0] == 0xE5 || Overflows(f, old(objs)[parent]) then Unseen(Mapped(old(Stored(dev)), data0, old(objs), old(own)), Stored(dev), dev.Data(), old(objs), parent, name)
                else
                  && Formatted() && |own| == |own1| + Needed(0, |content|)
                  && View() == Mapped(old(Stored(dev)), data0, old(objs), old(own))[dp + [name] := File(content)]
    {
      hide Unseen, Inv, FatInv, Mapped, Resolve, Child, LookupMeans, Look, SlotAt, Ready, Links, Stored, Flatten, Written, SameDataOff, SameOwnOff, SameOwned, OwnGrows, StartSlot, FillSlot, Splice, Le32, Device.Data, Device.Meta, Needed, Overflows, InArea;
      ghost var fat0, fat1, data1 := Stored(dev), Links(fat), dev.Data();
      ReadyFat(data0, objs, own, f, parent, at, slot, fat1, data1, objs1, own1);
      var n := Allocate(fat, objs1, own1);
      if n.None? {
        FreeWrites(fat0, data0, objs, own, data1);
        OwnedDirs(data0, data1, objs, own);
        return NO_SPACE;
      }
      ghost var x0, own2 := NewObj(false, parent, name, at, slot, objs[parent].depth, 0, [n.value]), own1[n.value := Pos(n.value, 0)];
      Start(fat1, objs1, own1, n.value, x0);
      SetEntry(fat, n.value, EOC);
      FillIs(dirData[..], slot, name, ATTR_ARCHIVE, n.value, |content|);
      StartEntry(dirData, slot, name, ATTR_ARCHIVE, n.value);
      OneCluster(n.value);
      ReadyOther(fat1, objs1, own1, n.value);
      var ok, newSize;
      ghost var chain, own3, data2;
      ok, newSize, chain, own3, data2 := StoreContent(dev, n.value, content, append, 0, at, slot, fat, dirData, objs1[n.value := x0], own2);
      if !ok {
        FailedCreate(data0, data1, data2, own, own1, parent, n.value);
        FreeWrites(fat0, data0, objs, own, data2);
        OwnedDirs(data0, data2, objs, own);
        return NO_SPACE;
      }
      ghost var x := x0.(chain := chain, size := newSize);
      assert objs1[n.value := x0][n.value := x] == objs1[n.value := x];
      NoBytes(data1, [n.value], append);
      FileMade(fat0, data0, objs, own, f, parent, at, slot, fat1, data1, objs1, own1, data2, Stored(dev), dev.Data(), own3, n.value, x, dp, content);
      if !(name[0] == 0xE5 || Overflows(f, objs[parent])) {
        objs, own := objs1[n.value := x], own3;
      }
      return OK;
    }

    /** Resolves a path and finds its entry, or makes a slot ready for it. */
    method OpenEntry(path: Text, fat: array<Byte>, dirData: array<Byte>)
      returns (r: Code, parent: int, name: Name, found: bool, ok: bool, at: int, slot: nat,
               ghost dp: Path, ghost f: Lookup, ghost objs1: Objs, ghost own1: Own)
      requires Formatted() && fat.Length == FAT_BYTES && dirData.Length == BLOCK && fat != dirData && Links(fat) == Stored(dev)
      modifies dev, fat, dirData
      ensures dev.Big() && dev.Meta() == old(dev.Meta()) && dev.blocks[0] == old(dev.blocks[0])
      ensures Stored(dev) == old(Stored(dev)) && Inv(Stored(dev), old(dev.Data()), objs, own)
      ensures r != OK ==> old(Target(path)) == Fails(r) && dev.Data() == old(dev.Data())
      ensures r == OK ==> old(Target(path)) == Located.Target(dp, name) && |name| == 11 && name[0] != 0
      ensures r == OK ==> parent in objs && objs[parent].isDir && Resolve(objs, dp) == Some(parent) && old(DirAt(path)) == parent
      ensures r == OK ==> (found <==> dp + [name] in old(View()))
      ensures r == OK && found ==>
                && dev.Data() == old(dev.Data()) && Links(fat) == Stored(dev)
                && ROOT <= at <= MAX_ALLOC && slot < SLOTS && dirData[..] == dev.Data()[at]
                && EntryIs(SlotAt(dev.Data()[at], slot), dev.Data(), objs, at, slot, parent, name)
                && Resolve(objs, dp + [name]) == Some(SlotAt(dev.Data()[at], slot).cluster)
                && old(View())[dp + [name]] == ValOf(dev.Data(), objs[SlotAt(dev.Data()[at], slot).cluster])
      ensures r == OK && !found ==>
                && !f.Found? && LookupMeans(f, old(dev.Data()), objs, own, parent, name) && Child(objs, parent, name).None?
                && (old(NoSlot(path)) <==> f.Full?) && (ok <==> f.Vacant? || |own| < CLUSTERS)
                && (old(Hidden(path)) <==> name[0] == 0xE5 || Overflows(f, objs[parent]))
      ensures r == OK && !found && !ok ==> dev.Data() == old(dev.Data())
      ensures r == OK && !found && ok ==>
                && Ready(old(dev.Data()), objs, own, f, parent, at, slot, Links(fat), dev.Data(), objs1, own1)
                && ROOT <= at <= MAX_ALLOC && slot < SLOTS && dirData[..] == dev.Data()[at]
                && |own1| == |own| + Extra(f.Full?) && SameOwned(old(dev.Data()), dev.Data(), own)
    {
      hide Unseen, Inv, Mapped, Resolve, Child, LookupMeans, Look, SlotAt, Locating, Flatten, Ready, FatInv, Links, Stored, SameOwned, Device.Meta, Overflows;
      found, ok, at, slot, f, objs1, own1 := false, false, ROOT, 0, Full, objs, own;
      r, parent, name, dp := ResolveParentAndLeaf(dev, path, objs, own);
      if r != OK {
        return;
      }
      MetaStored(dev);
      ghost var fat0, data0 := Stored(dev), dev.Data();
      found, ok, at, slot, f, objs1, own1 := FindOrExtend(dev, parent, name, fat, dirData, objs, own);
      MetaStored(dev);
      LookLocated(fat0, data0, objs, own, dp, parent, name, f);
      FullIs(fat0, data0, objs, own, parent, name, f);
      OverflowsIs(f, objs[parent]);
      if !found && ok {
        ReadyFat(data0, objs, own, f, parent, at, slot, Links(fat), dev.Data(), objs1, own1);
      }
    }

    /** A write to a volume that is there. */
    method WriteFormatted(path: Text, content: seq<Byte>, append: bool) returns (r: Code)
      requires Formatted()
      modifies this, dev
      ensures r == WriteCode(old(View()), old(Target(path)), |content|, append, old(Free()), old(Held(path)), old(NoSlot(path)))
      ensures if r == OK && Creates(old(View()), old(Target(path))) && old(Hidden(path)) then
                dev.Big() && Unseen(old(View()), Stored(dev), dev.Data(), old(objs), old(DirAt(path)), old(Target(path)).name)
              else
                && Valid()
                && WriteEffect(old(View()), old(Target(path)), content, append, old(Free()), old(Held(path)), old(NoSlot(path)), r, View(), Free())
      ensures r != OK ==> dev.Meta() == old(dev.Meta()) && SameOnDirs(old(dev.Data()), dev.Data(), old(objs), old(own))
    {
      hide Unseen, Inv, Mapped, Resolve, Child, LookupMeans, Look, SlotAt, Locating, Flatten, Ready, FatInv, Links, Stored, SameOwned, SameOnDirs, Device.Meta, Device.Data, Needed, Overflows, FullChain, Contents;
      DirsRefl(dev.Data(), objs, own);
      var fat := dev.LoadFat();
      LinksStored(dev, fat);
      var dirData := new Byte[BLOCK];
      var parent, name, found, ok, at, slot;
      ghost var fat0, data0, dp, f, objs1, own1 := Stored(dev), dev.Data(), [], Full, objs, own;
      r, parent, name, found, ok, at, slot, dp, f, objs1, own1 := OpenEntry(path, fat, dirData);
      if r != OK {
        return;
      }
      if found {
        var entry := SlotAt(dirData[..], slot);
        if HasDirBit(entry.attr) {
          return NOT_DIR;
        }
        r := WriteExisting(entry.cluster, content, append, fat, dirData, at, slot, dp + [name]);
        return;
      }
      if !ok {
        return NO_SPACE;
      }
      r := WriteNew(parent, name, content, append, fat, dirData, at, slot, data0, f, objs1, own1, dp);
    }

    /** Writes or appends to a file, creating it if need be. */
    method WriteFileBytes(path: Text, content: seq<Byte>, append: bool) returns (r: Code)
      requires Valid()
      modifies this, dev
      ensures r == WriteCode(old(View()), old(Target(path)), |content|, append, old(Free()), old(Held(path)), old(NoSlot(path)))
      ensures if r == OK && Creates(old(View()), old(Target(path))) && old(Hidden(path)) then
                dev.Big() && Unseen(old(View()), Stored(dev), dev.Data(), old(objs), old(DirAt(path)), old(Target(path)).name)
              else
                && Valid()
                && WriteEffect(old(View()), old(Target(path)), content, append, old(Free()), old(Held(path)), old(NoSlot(path)), r, View(), Free())
      ensures r != OK && old(BootValid(dev.blocks[0])) ==> dev.Meta() == old(dev.Meta()) && SameOnDirs(old(dev.Data()), dev.Data(), old(objs), old(own))
    {
      hide Unseen, Inv, Mapped, Resolve, Child, LookupMeans, Look, SlotAt, Locating, Flatten, Ready, FatInv, Links, Stored, SameOwned, SameOnDirs, Device.Meta, Device.Data, Needed, Overflows, FullChain, Contents;
      EnsureInitialized();
      r := WriteFormatted(path, content, append);
    }

    /** Creates a directory in the ready slot. */
    method MakeNew(parent: int, name: Name, fat: array<Byte>, dirData: array<Byte>, at: int, slot: nat,
                   ghost data0: seq<Sector>, ghost f: Lookup, ghost objs1: Objs, ghost own1: Own, ghost dp: Path)
      returns (r: Code)
      requires dev.Big() && BootValid(dev.blocks[0]) && fat.Length == FAT_BYTES && dirData.Length == BLOCK && fat != dirData
      requires |data0| == FAT_ENTRIES && parent in objs && objs[parent].isDir && |name| == 11 && name[0] != 0
      requires ROOT <= at <= MAX_ALLOC && slot < SLOTS && dirData[..] == dev.Data()[at]
      requires Resolve(objs, dp) == Some(parent) && !f.Found? && Child(objs, parent, name).None? && LookupMeans(f, data0, objs, own, parent, name)
      requires Ready(data0, objs, own, f, parent, at, slot, Links(fat), dev.Data(), objs1, own1) && Inv(Stored(dev), data0, objs, own)
      modifies this, dev, fat, dirData
      ensures dev.Big() && BootValid(dev.blocks[0])
      ensures r == if |own1| < CLUSTERS then OK else NO_SPACE
      ensures r == NO_SPACE ==> Formatted() && own == old(own) && objs == old(objs) && View() == Mapped(old(Stored(dev)), data0, objs, own)
      ensures r == OK ==>
                if name[0] == 0xE5 || Overflows(f, old(objs)[parent]) then Unseen(Mapped(old(Stored(dev)), data0, old(objs), old(own)), Stored(dev), dev.Data(), old(objs), parent, name)
                else
                  && Formatted() && |own| == |own1| + 1
                  && View() == Mapped(old(Stored(dev)), data0, old(objs), old(own))[dp + [name] := Directory]
    {
      hide Unseen, Inv, FatInv, Mapped, Resolve, Child, LookupMeans, Look, SlotAt, Ready, Links, Stored, SameOwned, FillSlot, Device.Data, Device.Meta, Overflows;
      ghost var fat0, fat1, data1 := Stored(dev), Links(fat), dev.Data();
      ReadyFat(data0, objs, own, f, parent, at, slot, fat1, data1, objs1, own1);
      var n := BuildDirectory(dev, name, at, slot, fat, dirData, objs1, own1);
      if n.None? {
        FreeWrites(fat0, data0, objs, own, data1);
        return NO_SPACE;
      }
      ghost var x := NewObj(true, parent, name, at, slot, objs[parent].depth, 0, [n.value]);
      DirectoryMade(fat0, data0, objs, own, f, parent, at, slot, fat1, data1, objs1, own1, Stored(dev), dev.Data(), n.value, x, dp);
      if !(name[0] == 0xE5 || Overflows(f, objs[parent])) {
        objs, own := objs1[n.value := x], own1[n.value := Pos(n.value, 0)];
      }
      return OK;
    }

    method MkDir(path: Text) returns (r: Code)
      requires Valid()
      modifies this, dev
      ensures r == MkDirCode(old(View()), old(Target(path)), old(Free()), old(NoSlot(path)))
      ensures if r == OK && old(Hidden(path)) then
                dev.Big() && Unseen(old(View()), Stored(dev), dev.Data(), old(objs), old(DirAt(path)), old(Target(path)).name)
              else
                Valid() && MkDirEffect(old(View()), old(Target(path)), old(Free()), old(NoSlot(path)), r, View(), Free())
    {
      hide Unseen, Inv, Mapped, Resolve, Child, LookupMeans, Look, SlotAt, Locating, Flatten, Ready, FatInv, Links, Stored, SameOwned, Device.Meta, Device.Data, Overflows, FullChain, Contents;
      EnsureInitialized();
      var fat := dev.LoadFat();
      LinksStored(dev, fat);
      var dirData := new Byte[BLOCK];
      var parent, name, found, ok, at, slot;
      ghost var fat0, data0, dp, f, objs1, own1 := Stored(dev), dev.Data(), [], Full, objs, own;
      r, parent, name, found, ok, at, slot, dp, f, objs1, own1 := OpenEntry(path, fat, dirData);
      if r != OK {
        return;
      }
      if found {
        var entry := SlotAt(dirData[..], slot);
        r := if HasDirBit(entry.attr) then ALREADY_EXISTS else NOT_DIR;
        return;
      }
      if !ok {
        return NO_SPACE;
      }
      r := MakeNew(parent, name, fat, dirData, at, slot, data0, f, objs1, own1, dp);
    }

    /** Frees an object's chain, marks its slot deleted, and stores both. */
    method RemoveEntry(o: int, fat: array<Byte>, dirData: array<Byte>, at: int, slot: nat, ghost dp: Path)
      requires Formatted() && fat.Length == FAT_BYTES && dirData.Length == BLOCK && fat != dirData
      requires Links(fat) == Stored(dev) && ROOT <= at <= MAX_ALLOC && dirData[..] == dev.Data()[at] && slot < SLOTS
      requires o in objs && o != ROOT && objs[o].at == at && objs[o].col == slot && Childless(objs, o)
      requires Resolve(objs, dp) == Some(objs[o].parent)
      modifies this, dev, fat, dirData
      ensures Formatted() && View() == old(View()) - {dp + [old(objs)[o].name]}
      ensures Free() == old(Free()) + |old(objs)[o].chain|
    {
      hide Unseen, Inv, FatInv, Resolve, Mapped, Childless, Tail, SlotAt, Freed, Links, Stored;
      ghost var fat0, data0, own0 := Stored(dev), dev.Data(), own;
      StartsChain(fat0, data0, objs, own, o);
      InvFat(fat0, data0, objs, own);
      FreeClusterChain(o, fat, objs, own, o, 0);
      dirData[SLOT_BYTES * slot] := 0xE5;
      Commit(dev, fat, at, dirData);
      Removed(fat0, data0, objs, own, o, Stored(dev), dev.Data(), dp);
      objs, own := objs - {o}, own - Tail(own, o, 0);
    }

    method Unlink(path: Text) returns (r: Code)
      requires Valid()
      modifies this, dev
      ensures Valid()
      ensures r == UnlinkCode(old(View()), old(Target(path)))
      ensures RemoveEffect(old(View()), old(Target(path)), old(Free()), old(Held(path)), r, View(), Free())
    {
      hide Unseen, Inv, Mapped, Resolve, Child, LookupMeans, Look, SlotAt, Locating, Flatten;
      EnsureInitialized();
      var fat := dev.LoadFat();
      LinksStored(dev, fat);
      var parent, name;
      ghost var dp;
      r, parent, name, dp := ResolveParentAndLeaf(dev, path, objs, own);
      if r != OK {
        return;
      }
      var dirData := new Byte[BLOCK];
      var f := FindEntryInDir(dev, parent, name, dirData);
      LookLocated(Stored(dev), dev.Data(), objs, own, dp, parent, name, f);
      if !f.Found? {
        return NOT_FOUND;
      }
      var entry := SlotAt(dirData[..], f.slot);
      if HasDirBit(entry.attr) {
        return NOT_DIR;
      }
      FileChildless(Stored(dev), dev.Data(), objs, own, entry.cluster);
      RemoveEntry(entry.cluster, fat, dirData, f.cluster, f.slot, dp);
      r := OK;
    }

    method RmDir(path: Text) returns (r: Code)
      requires Valid()
      modifies this, dev
      ensures Valid()
      ensures r == RmDirCode(old(View()), path, old(Target(path)))
      ensures RemoveEffect(old(View()), old(Target(path)), old(Free()), old(Held(path)), r, View(), Free())
    {
      hide Unseen, Inv, Mapped, Resolve, Child, LookupMeans, Look, SlotAt, Locating, Flatten, Childless;
      if path == [] || path == [47] {
        return INVALID_ARG;
      }
      EnsureInitialized();
      var fat := dev.LoadFat();
      LinksStored(dev, fat);
      var parent, name;
      ghost var dp;
      r, parent, name, dp := ResolveParentAndLeaf(dev, path, objs, own);
      if r != OK {
        return;
      }
      var dirData := new Byte[BLOCK];
      var f := FindEntryInDir(dev, parent, name, dirData);
      LookLocated(Stored(dev), dev.Data(), objs, own, dp, parent, name, f);
      if !f.Found? {
        return NOT_FOUND;
      }
      var entry := SlotAt(dirData[..], f.slot);
      if !HasDirBit(entry.attr) {
        return NOT_DIR;
      }
      var empty := DirectoryIsEmpty(dev, entry.cluster, objs, own);
      ChildlessMap(Stored(dev), dev.Data(), objs, own, dp + [name], entry.cluster);
      if !empty {
        return NOT_EMPTY;
      }
      RemoveEntry(entry.cluster, fat, dirData, f.cluster, f.slot, dp);
      r := OK;
    }
  }

  /** A lookup reports a full directory exactly when every slot is live. */
  lemma FullIs(fat: seq<int>, data: seq<Sector>, objs: Objs, own: Own, d: int, name: Name, f: Lookup)
    requires Inv(fat, data, objs, own) && d in objs && objs[d].isDir && LookupMeans(f, data, objs, own, d, name)
    ensures !f.Found? ==> (f.Full? <==> FullChain(data, objs[d].chain))
  {
    hide FatInv, TreeInv, DirInv, SlotAt;
    if f.Vacant? {
      OwnedAt(fat, data, objs, own, f.cluster);
    }
  }

  lemma OwnedAt(fat: seq<int>, data: seq<Sector>, objs: Objs, own: Own, c: int)
    requires Inv(fat, data, objs, own) && c in own
    ensures own[c].obj in objs && own[c].idx < |objs[own[c].obj].chain| && objs[own[c].obj].chain[own[c].idx] == c
  {
  }

  lemma OffDirs(data: seq<Sector>, data': seq<Sector>, objs: Objs, own: Own, o: int)
    requires |data| == |data'| == FAT_ENTRIES && o in objs && !objs[o].isDir && SameDataOff(data, data', own, o)
    ensures SameOnDirs(data, data', objs, own)
  {
  }

  /** The entries shown are those of the map directly below `dp`. */
  ghost predicate Shows(m: Tree, dp: Path, es: seq<Shown>) {
    forall e: Shown :: e in es <==> dp + [e.0] in m && (m[dp + [e.0]] == Directory <==> e.1)
  }

  lemma ListingMap(fat: seq<int>, data: seq<Sector>, objs: Objs, own: Own, dp: Path, d: int)
    requires |data| == FAT_ENTRIES && Inv(fat, data, objs, own) && d in objs && objs[d].isDir && InArea(objs[d].chain)
    requires Resolve(objs, dp) == Some(d)
    ensures Shows(Mapped(fat, data, objs, own), dp, Entries(data, objs[d].chain, 0)) && NoDup(Entries(data, objs[d].chain, 0))
  {
    hide Inv, Entries, Child, Mapped, Resolve;
    ListingExact(fat, data, objs, own, d);
    forall e: Shown
      ensures e in Entries(data, objs[d].chain, 0) <==>
              dp + [e.0] in Mapped(fat, data, objs, own) && (Mapped(fat, data, objs, own)[dp + [e.0]] == Directory <==> e.1)
    {
      MappedChild(fat, data, objs, own, dp, d, e.0);
    }
  }

  lemma OverflowsIs(f: Lookup, x: Obj)
    ensures Overflows(f, x) <==> f.Full? && |x.chain| >= DIR_CLUSTERS_MAX
  {
  }

  lemma OwnedDirs(data: seq<Sector>, data': seq<Sector>, objs: Objs, own: Own)
    requires |data| == |data'| == FAT_ENTRIES && SameOwned(data, data', own)
    ensures SameOnDirs(data, data', objs, own)
  {
  }

  lemma DirsRefl(data: seq<Sector>, objs: Objs, own: Own)
    requires |data| == FAT_ENTRIES
    ensures SameOnDirs(data, data, objs, own)
  {
  }

  lemma OneCluster(n: int)
    requires MIN_ALLOC <= n <= MAX_ALLOC
    ensures InArea([n])
  {
  }

  lemma NoBytes(data: seq<Sector>, chain: seq<int>, append: bool)
    requires |data| == FAT_ENTRIES && InArea(chain)
    ensures Flatten(data, chain)[..0] == []
  {
  }

  lemma InvFat(fat: seq<int>, data: seq<Sector>, objs: Objs, own: Own)
    requires Inv(fat, data, objs, own)
    ensures |fat| == |data| == FAT_ENTRIES && FatInv(fat, objs, own)
  {
  }

  lemma FileChildless(fat: seq<int>, data: seq<Sector>, objs: Objs, own: Own, o: int)
    requires Inv(fat, data, objs, own) && o in objs && !objs[o].isDir
    ensures Childless(objs, o)
  {
  }

  /** A directory without entries is one no path of the map goes through. */
  lemma ChildlessMap(fat: seq<int>, data: seq<Sector>, objs: Objs, own: Own, p: Path, d: int)
    requires Inv(fat, data, objs, own) && Resolve(objs, p) == Some(d) && d in objs && objs[d].isDir
    ensures Childless(objs, d) <==> !exists n: Name :: p + [n] in Mapped(fat, data, objs, own)
  {
    hide Inv, Mapped, Resolve;
    forall n: Name ensures p + [n] in Mapped(fat, data, objs, own) <==> Child(objs, d, n).Some? {
      MappedChild(fat, data, objs, own, p, d, n);
    }
    if !Childless(objs, d) {
      var u :| u in objs && u != ROOT && objs[u].parent == d;
      assert IsChild(objs, u, d, objs[u].name);
      assert p + [objs[u].name] in Mapped(fat, data, objs, own);
    }
  }

  /** Freeing the chain and deleting the slot removes exactly that path. */
  lemma Removed(fat: seq<int>, data: seq<Sector>, objs: Objs, own: Own, o: int, fat': seq<int>, data': seq<Sector>, dp: Path)
    requires |fat| == |data| == FAT_ENTRIES && Inv(fat, data, objs, own)
    requires o in objs && o != ROOT && Childless(objs, o) && Resolve(objs, dp) == Some(objs[o].parent)
    requires fat' == Freed(fat, Tail(own, o, 0))
    requires ROOT <= objs[o].at <= MAX_ALLOC && objs[o].col < SLOTS
    requires data' == data[objs[o].at := data[objs[o].at][SLOT_BYTES * objs[o].col := 0xE5]]
    ensures Inv(fat', data', objs - {o}, own - Tail(own, o, 0))
    ensures Mapped(fat', data', objs - {o}, own - Tail(own, o, 0)) == Mapped(fat, data, objs, own) - {dp + [objs[o].name]}
    ensures |own - Tail(own, o, 0)| == |own| - |objs[o].chain|
  {
    hide FatInv, TreeInv, DirInv, Mapped, Tail, Childless, Resolve, Added, SlotAt, Freed;
    Release(fat, objs, own, o);
    EntryDir(fat, data, objs, own, o);
    DeleteIsSet(data, data', objs, own, objs[o].at, objs[o].col);
    DeleteEntry(fat, data, objs, own, fat', data', o);
    EntryParentDir(fat, data, objs, own, o);
    RemovedKept(fat, data, objs, own, o, data');
    MappedRemoved(fat, data, objs, own, fat', data', objs - {o}, own - Tail(own, o, 0), o, objs[o].parent, objs[o].name, dp);
  }

  lemma EntryParentDir(fat: seq<int>, data: seq<Sector>, objs: Objs, own: Own, o: int)
    requires Inv(fat, data, objs, own) && o in objs && o != ROOT
    ensures objs[o].parent in objs && objs[objs[o].parent].isDir
  {
  }

  lemma RemovedKept(fat: seq<int>, data: seq<Sector>, objs: Objs, own: Own, o: int, data': seq<Sector>)
    requires |data| == |data'| == FAT_ENTRIES && Inv(fat, data, objs, own) && o in objs && o != ROOT
    requires forall c :: ROOT <= c <= MAX_ALLOC && c != objs[o].at ==> data'[c] == data[c]
    ensures FilesKept(data', objs - {o}, own - Tail(own, o, 0), data, objs, o)
  {
    hide FatInv, TreeInv, DirInv, SlotAt;
    EntryDir(fat, data, objs, own, o);
  }

  /** A live slot holds the entry of an object with this name and place. */
  ghost predicate EntryIs(e: Slot, data: seq<Sector>, objs: Objs, at: int, slot: nat, d: int, name: Name) {
    && e.Live? && e.name == name && e.cluster in objs && e.cluster != ROOT && MIN_ALLOC <= e.cluster <= MAX_ALLOC
    && e.size == objs[e.cluster].size && e.attr == AttrOf(objs[e.cluster].isDir)
    && objs[e.cluster].at == at && objs[e.cluster].col == slot
    && objs[e.cluster].parent == d && objs[e.cluster].name == name
    && (HasDirBit(e.attr) <==> objs[e.cluster].isDir)
    && Sized(objs[e.cluster])
  }

  /** A lookup below a located directory, in terms of the map. */
  lemma LookLocated(fat: seq<int>, data: seq<Sector>, objs: Objs, own: Own, dp: Path, d: int, name: Name, f: Lookup)
    requires |fat| == |data| == FAT_ENTRIES && Inv(fat, data, objs, own)
    requires Resolve(objs, dp) == Some(d) && d in objs && objs[d].isDir
    requires f == Look(fat, data, d, name)
    ensures LookupMeans(f, data, objs, own, d, name)
    ensures var m, p := Mapped(fat, data, objs, own), dp + [name];
            && (f.Found? <==> p in m)
            && (f.Found? ==>
                  && ROOT <= f.cluster <= MAX_ALLOC && f.slot < SLOTS
                  && var e := SlotAt(data[f.cluster], f.slot);
                     && EntryIs(e, data, objs, f.cluster, f.slot, d, name)
                     && Resolve(objs, p) == Some(e.cluster) && m[p] == ValOf(data, objs[e.cluster]))
    ensures !f.Found? ==> Child(objs, d, name).None?
  {
    hide Inv, Mapped, Resolve, Child, Look, SlotAt;
    LookChild(fat, data, objs, own, d, DIR_CLUSTERS_MAX, name);
    MappedChild(fat, data, objs, own, dp, d, name);
    if f.Found? {
      FoundEntry(fat, data, objs, own, d, name, f);
    } else {
      NotFoundChild(f, data, objs, own, d, name);
    }
  }

  method CopyOut(s: Sector, out: array<Byte>, at: nat, n: nat)
    requires n <= BLOCK && at + n <= out.Length
    modifies out
    ensures forall k :: 0 <= k < out.Length ==> out[k] == if at <= k < at + n then s[k - at] else old(out[k])
  {
    var i := 0;
    while i < n
      invariant 0 <= i <= n
      invariant forall k :: 0 <= k < out.Length ==> out[k] == if at <= k < at + i then s[k - at] else old(out[k])
    {
      out[at + i] := s[i];
      i := i + 1;
    }
  }

  lemma ClusterBytes(data: seq<Sector>, chain: seq<int>, j: nat)
    requires |data| == FAT_ENTRIES && InArea(chain) && j < |chain|
    ensures forall k :: BLOCK * j <= k < BLOCK * (j + 1) ==> Flatten(data, chain)[k] == data[chain[j]][k - BLOCK * j]
  {
    forall k | BLOCK * j <= k < BLOCK * (j + 1) ensures Flatten(data, chain)[k] == data[chain[j]][k - BLOCK * j] {
      assert k / BLOCK == j && k % BLOCK == k - BLOCK * j;
    }
  }

  /** Copies `size` bytes of a file's clusters into the buffer. */
  method ReadChain(dev: Device, first: int, size: nat, out: array<Byte>, ghost objs: Objs, ghost own: Own)
    requires dev.Big() && Inv(Stored(dev), dev.Data(), objs, own)
    requires first in objs && size == objs[first].size <= out.Length && Sized(objs[first])
    modifies out
    ensures out[..] == Flatten(dev.Data(), objs[first].chain)[..size] + old(out[..])[size..]
  {
    hide Inv, Flatten;
    ghost var data, chain := dev.Data(), objs[first].chain;
    ghost var bytes := Flatten(data, chain);
    var fat := dev.LoadFat();
    LinksStored(dev, fat);
    StartsChain(Stored(dev), data, objs, own, first);
    var current, copied := first, 0;
    ghost var j: nat := 0;
    while copied < size
      invariant 0 <= copied <= size
      invariant copied < size ==> copied == BLOCK * j && j < |chain| && current == chain[j]
      invariant forall k :: 0 <= k < out.Length ==> out[k] == if k < copied then bytes[k] else old(out[k])
      invariant Links(fat) == Stored(dev) && dev.Data() == data
    {
      InvLink(Stored(dev), data, objs, own, first, j);
      var s := dev.ReadCluster(current);
      var chunk := if size - copied > BLOCK then BLOCK else size - copied;
      CopyOut(s, out, copied, chunk);
      ClusterBytes(data, chain, j);
      copied := copied + chunk;
      if copied < size {
        current := GetEntry(fat, current);
        j := j + 1;
      }
    }
  }

  ghost predicate FullChain(data: seq<Sector>, chain: seq<int>)
    requires |data| == FAT_ENTRIES
  {
    InArea(chain) && forall j :: 0 <= j < |chain| ==> AllLive(data[chain[j]])
  }

  lemma FreshNotFull(data: seq<Sector>)
    requires |data| == FAT_ENTRIES && data[ROOT] == Zeros()
    ensures forall dp: Path :: Resolve(FreshObjs(), dp).Some? ==>
              Resolve(FreshObjs(), dp).value in FreshObjs() && !FullChain(data, FreshObjs()[Resolve(FreshObjs(), dp).value].chain)
  {
    assert !AllLive(data[ROOT]) by { assert SlotAt(data[ROOT], 0).End?; }
    var one := FreshObjs()[ROOT].chain;
    assert one[0] == ROOT && !FullChain(data, one);
    forall dp: Path ensures Resolve(FreshObjs(), dp) == if dp == [] then Some(ROOT) else None {
      FreshResolve(dp);
    }
  }

  lemma FreshView(data: seq<Sector>)
    requires |data| == FAT_ENTRIES
    ensures TreeInv(FreshObjs()) && AllSized(FreshObjs()) && Contents(data, FreshObjs()) == imap[[] := Directory]
  {
    FreshTree();
    var objs := FreshObjs();
    forall p: Path ensures Resolve(objs, p) == if p == [] then Some(ROOT) else None {
      FreshResolve(p);
    }
  }

  lemma {:induction false} FreshResolve(p: Path)
    ensures Resolve(FreshObjs(), p) == if p == [] then Some(ROOT) else None
    decreases |p|
  {
    if p != [] {
      FreshResolve(p[..|p| - 1]);
      var objs, name := FreshObjs(), p[|p| - 1];
      assert forall o :: !IsChild(objs, o, ROOT, name);
    }
  }

  lemma MappedIs(fat: seq<int>, data: seq<Sector>, objs: Objs, own: Own)
    requires Inv(fat, data, objs, own)
    ensures TreeInv(objs) && AllSized(objs) && Mapped(fat, data, objs, own) == Contents(data, objs)
  {
    InvSized(fat, data, objs, own);
  }
}
