/** Making room for a new entry and recording it: what creating a file or a
    directory does to the volume and to the map. */
module FsCreate {
  import opened Bytes
  import opened FsLayout
  import opened FsTree
  import opened FsVolume
  import opened FsDirs
  import opened FsChain
  import opened FsScan
  import opened FsSpec
  import opened FsWrite
  import opened FsLookup
  import opened FsMap
  import opened FsUnseen

  ghost predicate OwnGrows(own: Own, own': Own, o: int) {
    && (forall c :: c in own ==> c in own' && own'[c] == own[c])
    && (forall c :: c in own' && c !in own ==> own'[c].obj == o)
  }

  /** The lookup found no slot to reuse, and the directory is as long as lookups go. */
  ghost predicate Overflows(f: Lookup, x: Obj) {
    f.Full? && |x.chain| >= DIR_CLUSTERS_MAX
  }

  /** Slot `slot` of cluster `at` in directory `d` is ready for a new entry, in
      the table in memory and on the device; the stored table is as before. */
  ghost predicate Ready(data: seq<Sector>, objs: Objs, own: Own, f: Lookup, d: int, at: int, slot: nat,
                        fat1: seq<int>, data1: seq<Sector>, objs1: Objs, own1: Own)
    requires |data| == FAT_ENTRIES
  {
    && d in objs && |fat1| == |data1| == FAT_ENTRIES && slot < SLOTS && ROOT <= at <= MAX_ALLOC
    && FatInv(fat1, objs1, own1) && OwnGrows(own, own1, d) && SameOwned(data, data1, own)
    && (f.Vacant? ==> objs1 == objs && own1 == own && data1 == data)
    && (f.Full? ==> at !in own && objs1 == objs[d := objs[d].(chain := objs[d].chain + [at])])
    && |own1| == |own| + (if f.Full? then 1 else 0)
    && at in own1 && own1[at].obj == d
    && (!Overflows(f, objs[d]) ==> Inv(fat1, data1, objs1, own1) && Reusable(data1[at], slot))
  }

  lemma VacantReady(fat: seq<int>, data: seq<Sector>, objs: Objs, own: Own, f: Lookup, d: int, name: Name)
    requires Inv(fat, data, objs, own) && d in objs && objs[d].isDir && f.Vacant? && LookupMeans(f, data, objs, own, d, name)
    ensures Ready(data, objs, own, f, d, f.cluster, f.slot, fat, data, objs, own)
  {
    hide FatInv, TreeInv, DirInv, SlotAt;
  }

  lemma ExtendedReady(fat: seq<int>, data: seq<Sector>, objs: Objs, own: Own, f: Lookup, d: int, name: Name, n: int)
    requires |fat| == |data| == FAT_ENTRIES && Inv(fat, data, objs, own)
    requires d in objs && objs[d].isDir && f.Full? && LookupMeans(f, data, objs, own, d, name)
    requires MIN_ALLOC <= n <= MAX_ALLOC && fat[n] == FREE
    ensures |objs[d].chain| > 0 && ROOT <= objs[d].chain[|objs[d].chain| - 1] <= MAX_ALLOC
    ensures var chain := objs[d].chain;
            Ready(data, objs, own, f, d, n, 0, fat[chain[|chain| - 1] := n][n := EOC], data[n := Zeros()],
                  objs[d := objs[d].(chain := chain + [n])], own[n := Pos(d, |chain|)])
  {
    hide FatInv, TreeInv, DirInv, AllLive, NoMatch;
    var chain := objs[d].chain;
    DirStart(fat, data, objs, own, d);
    Grow(fat, objs, own, d, n);
    if |chain| < DIR_CLUSTERS_MAX {
      forall j | 0 <= j < |chain| ensures ROOT <= chain[j] <= MAX_ALLOC && NoEnd(data[chain[j]]) {
        LiveNoEnd(data[chain[j]]);
      }
      FsDirs.ExtendDirectory(fat, data, objs, own, d, n);
    }
  }

  lemma LiveNoEnd(s: Sector)
    requires AllLive(s)
    ensures NoEnd(s)
  {
  }

  /** Finds an entry, or makes a slot ready for it, extending a full directory. */
  method FindOrExtend(dev: Device, parent: int, name: Name, fat: array<Byte>, dirData: array<Byte>, ghost objs: Objs, ghost own: Own)
    returns (found: bool, ok: bool, at: int, slot: nat, ghost f: Lookup, ghost objs1: Objs, ghost own1: Own)
    requires dev.Big() && fat.Length == FAT_BYTES && dirData.Length == BLOCK && fat != dirData
    requires Links(fat) == Stored(dev) && Inv(Stored(dev), dev.Data(), objs, own)
    requires parent in objs && objs[parent].isDir
    modifies dev, fat, dirData
    ensures dev.Big() && dev.Meta() == old(dev.Meta())
    ensures f == Look(old(Stored(dev)), old(dev.Data()), parent, name) && (found <==> f.Found?)
    ensures found ==> at == f.cluster && slot == f.slot && ROOT <= at <= MAX_ALLOC && dirData[..] == dev.Data()[at]
    ensures found ==> dev.Data() == old(dev.Data()) && Links(fat) == old(Links(fat))
    ensures !found ==> (ok <==> f.Vacant? || |own| < CLUSTERS)
    ensures !found && !ok ==> dev.Data() == old(dev.Data())
    ensures !found && ok ==> Ready(old(dev.Data()), objs, own, f, parent, at, slot, Links(fat), dev.Data(), objs1, own1)
    ensures !found && ok ==> dirData[..] == dev.Data()[at]
  {
    hide Inv, FatInv, Ready, Look, LookupMeans, Links, Stored;
    objs1, own1, at, slot, ok := objs, own, ROOT, 0, true;
    ghost var fat0, data0 := Stored(dev), dev.Data();
    var r := FindEntryInDir(dev, parent, name, dirData);
    f, found := r, r.Found?;
    LookChild(fat0, data0, objs, own, parent, DIR_CLUSTERS_MAX, name);
    if !r.Full? {
      at, slot := r.cluster, r.slot;
      if r.Vacant? {
        VacantReady(fat0, data0, objs, own, f, parent, name);
      }
      return;
    }
    InvFatDir(fat0, data0, objs, own, parent);
    var n := FsLookup.ExtendDirectory(dev, parent, fat, dirData, objs, own);
    if n.None? {
      ok := false;
      return;
    }
    at := n.value;
    ExtendedReady(fat0, data0, objs, own, f, parent, name, at);
    objs1, own1 := objs[parent := objs[parent].(chain := objs[parent].chain + [at])], own[at := Pos(parent, |objs[parent].chain|)];
  }

  lemma InvFatDir(fat: seq<int>, data: seq<Sector>, objs: Objs, own: Own, d: int)
    requires Inv(fat, data, objs, own) && d in objs && objs[d].isDir
    ensures |fat| == |data| == FAT_ENTRIES && FatInv(fat, objs, own) && |objs[d].chain| <= DIR_CLUSTERS_MAX
  {
    DirStart(fat, data, objs, own, d);
  }

  /** Writes to clusters no one owns change neither consistency nor the map. */
  lemma FreeWrites(fat: seq<int>, data: seq<Sector>, objs: Objs, own: Own, data': seq<Sector>)
    requires Inv(fat, data, objs, own) && |data'| == FAT_ENTRIES && |data| == FAT_ENTRIES && SameOwned(data, data', own)
    ensures Inv(fat, data', objs, own) && Mapped(fat, data', objs, own) == Mapped(fat, data, objs, own)
  {
    hide FatInv, TreeInv, DirInv, Mapped;
    DataFrame(fat, data, data', objs, own);
    RootIs(fat, data, objs, own);
    assert FilesKept(data, objs, own, data', objs, ROOT);
    MappedUpdated(fat, data, objs, own, fat, data', objs, own, ROOT, []);
    RootVal(fat, data, objs, own);
    UpdateSame(Mapped(fat, data, objs, own), [], Directory);
  }

  lemma RootVal(fat: seq<int>, data: seq<Sector>, objs: Objs, own: Own)
    requires Inv(fat, data, objs, own)
    ensures [] in Mapped(fat, data, objs, own) && Mapped(fat, data, objs, own)[[]] == Directory
  {
    hide FatInv, DirInv;
    InvSized(fat, data, objs, own);
    assert Resolve(objs, []) == Some(ROOT);
    assert At(data, objs, []) == Some(Directory);
    assert Mapped(fat, data, objs, own) == Contents(data, objs);
  }

  lemma UpdateSame(m: Tree, p: Path, v: Val)
    requires p in m && m[p] == v
    ensures m[p := v] == m
  {
  }

  // ---- recording the entry ----

  /** Owned clusters keep their bytes, except `at`. */
  ghost predicate SameBut(data: seq<Sector>, data': seq<Sector>, own: Own, at: int)
    requires |data| == |data'| == FAT_ENTRIES
  {
    forall c :: c in own && ROOT <= c <= MAX_ALLOC && c != at ==> data'[c] == data[c]
  }

  /** The entry of new object `n` has been written to the ready slot. */
  lemma Created(fat: seq<int>, data: seq<Sector>, objs: Objs, own: Own, f: Lookup, d: int, at: int, slot: nat,
                fat1: seq<int>, data1: seq<Sector>, objs1: Objs, own1: Own,
                fat2: seq<int>, data2: seq<Sector>, own2: Own, n: int, x: Obj, dp: Path)
    requires |fat| == |data| == |data1| == |data2| == |fat2| == FAT_ENTRIES && slot < SLOTS && ROOT <= at <= MAX_ALLOC
    requires Inv(fat, data, objs, own) && d in objs && objs[d].isDir && Resolve(objs, dp) == Some(d)
    requires Ready(data, objs, own, f, d, at, slot, fat1, data1, objs1, own1) && !Overflows(f, objs[d]) && !f.Found?
    requires x.parent == d && x.at == at && x.col == slot && x.depth == objs[d].depth + 1 && Child(objs, d, x.name).None?
    requires |x.name| == 11 && x.name[0] != 0 && x.name[0] != 0xE5 && x.size < 0x1_0000_0000
    requires MIN_ALLOC <= n <= MAX_ALLOC && n !in objs1 && FatInv(fat2, objs1[n := x], own2) && OwnGrows(own1, own2, n)
    requires SameBut(data1, data2, own1, at) && data2[at] == FillSlot(data1[at], slot, x.name, AttrOf(x.isDir), n, x.size)
    requires x.size <= BLOCK * |x.chain| && (x.isDir ==> x.size == 0 && x.chain == [n] && data2[n] == Zeros())
    ensures Inv(fat2, data2, objs1[n := x], own2) && Sized(x)
    ensures dp + [x.name] !in Mapped(fat, data, objs, own)
    ensures Mapped(fat2, data2, objs1[n := x], own2) == Mapped(fat, data, objs, own)[dp + [x.name] := ValOf(data2, x)]
  {
    hide FatInv, TreeInv, DirInv, Resolve, Child, SlotAt, FillSlot, Mapped, Added, SlotSet, Ready, SameBut, SameButAt, Inv;
    ReadyParts(data, objs, own, f, d, at, slot, fat1, data1, objs1, own1);
    var objs2 := objs1[n := x];
    SlotsBut(data1, data2, objs1, own1, at);
    FillIsSet(data1, data2, objs1, own1, at, slot, x.name, AttrOf(x.isDir), n, x.size);
    ReadyChild(fat, data, objs, own, fat1, data1, objs1, own1, d, x.name);
    CreateEntry(fat1, data1, objs1, own1, fat2, data2, own2, n, x);
    AddedThrough(objs, objs1, objs2, n, d, x.name);
    CreatedKept(data, objs, own, data1, objs1, own1, data2, n, x, d, at);
    MappedAdded(fat, data, objs, own, fat2, data2, objs2, own2, n, d, x.name, dp);
  }

  lemma ReadyParts(data: seq<Sector>, objs: Objs, own: Own, f: Lookup, d: int, at: int, slot: nat,
                   fat1: seq<int>, data1: seq<Sector>, objs1: Objs, own1: Own)
    requires |data| == FAT_ENTRIES && Ready(data, objs, own, f, d, at, slot, fat1, data1, objs1, own1)
    requires !Overflows(f, objs[d]) && !f.Found? && objs[d].isDir
    ensures Inv(fat1, data1, objs1, own1) && Reusable(data1[at], slot)
    ensures IsDirCluster(objs1, own1, at) && own1[at].obj == d && d in objs1 && objs1[d].isDir && objs1[d].depth == objs[d].depth && objs1[d].size == objs[d].size
    ensures SameShape(objs, objs1) && OwnGrows(own, own1, d) && SameOwned(data, data1, own)
    ensures forall u :: u in objs && u != d ==> objs1[u] == objs[u]
    ensures forall i :: 0 <= i < slot ==> !SlotAt(data1[at], i).End?
    ensures !SlotAt(data1[at], slot).Live?
  {
    hide FatInv, TreeInv, DirInv, SlotAt;
  }

  lemma SlotsBut(data: seq<Sector>, data': seq<Sector>, objs: Objs, own: Own, at: int)
    requires |data| == |data'| == FAT_ENTRIES && SameBut(data, data', own, at)
    ensures SameButAt(data, data', objs, own, at)
  {
  }

  lemma ReadyChild(fat: seq<int>, data: seq<Sector>, objs: Objs, own: Own, fat1: seq<int>, data1: seq<Sector>, objs1: Objs, own1: Own, d: int, name: Name)
    requires Inv(fat, data, objs, own) && Inv(fat1, data1, objs1, own1) && SameShape(objs, objs1)
    ensures Child(objs1, d, name) == Child(objs, d, name)
  {
    hide FatInv, DirInv;
    ChildSame(objs, objs1, d, name);
  }

  lemma AddedThrough(objs: Objs, objs1: Objs, objs2: Objs, o: int, d: int, name: Name)
    requires SameShape(objs, objs1) && Added(objs1, objs2, o, d, name) && Child(objs, d, name).None?
    ensures Added(objs, objs2, o, d, name)
  {
  }

  lemma CreatedKept(data: seq<Sector>, objs: Objs, own: Own, data1: seq<Sector>, objs1: Objs, own1: Own, data2: seq<Sector>,
                    n: int, x: Obj, d: int, at: int)
    requires |data| == |data1| == |data2| == FAT_ENTRIES && SameShape(objs, objs1) && n !in objs1
    requires forall u :: u in objs && u != d ==> objs1[u] == objs[u]
    requires d in objs && objs[d].isDir && OwnGrows(own, own1, d) && at in own1 && own1[at].obj == d
    requires SameOwned(data, data1, own) && SameBut(data1, data2, own1, at)
    ensures FilesKept(data, objs, own, data2, objs1[n := x], n)
  {
  }

  // ---- entries no lookup finds ----

  /** A name that starts with the deletion mark is never found. */
  lemma {:induction false} MarkedHidden(fat: seq<int>, data: seq<Sector>, c: int, n: nat, name: Name, free: Option<(int, nat)>)
    requires |fat| == |data| == FAT_ENTRIES && |name| == 11 && name[0] == 0xE5
    ensures !Scan(fat, data, c, n, name, free).Found?
    decreases n
  {
    hide MatchIn, VacantIn, FreeAfter, SlotAt;
    if n > 0 && ROOT <= c <= MAX_ALLOC {
      MarkedNoMatch(data[c], name, 0);
      if IsLink(fat[c]) {
        MarkedHidden(fat, data, fat[c], n - 1, name, FreeAfter(data[c], c, free));
      }
    }
  }

  lemma {:induction false} MarkedNoMatch(s: Sector, name: Name, i: nat)
    requires |name| == 11 && name[0] == 0xE5 && i <= SLOTS
    ensures MatchIn(s, name, i).None?
    decreases SLOTS - i
  {
    if i < SLOTS {
      MarkedNoMatch(s, name, i + 1);
      assert SlotAt(s, i).Live? ==> SlotAt(s, i).name[0] == s[SLOT_BYTES * i];
    }
  }

  /** An entry in a cluster chained behind the 128th is never found. */
  lemma OverflowHidden(fat: seq<int>, data: seq<Sector>, objs: Objs, own: Own, d: int, chain: seq<int>, name: Name, n: nat)
    requires |fat| == |data| == FAT_ENTRIES && FatInv(fat, objs, own) && d in objs && chain < objs[d].chain
    requires |chain| == DIR_CLUSTERS_MAX == n && InArea(chain)
    requires forall k :: 0 <= k < |chain| ==> AllLive(data[chain[k]]) && NoMatch(data[chain[k]], name)
    ensures !Look(fat, data, d, name).Found?
  {
    hide Look, Scan, FatInv, AllLive, NoMatch;
    GrowingStart(fat, objs, own, d);
    forall k | 0 <= k < |chain| - 1 ensures Step(fat, chain, k) {
      LinkOf(fat, objs, own, d, k);
      LinkOf(fat, objs, own, d, k + 1);
      assert chain[k] == objs[d].chain[k] && chain[k + 1] == objs[d].chain[k + 1];
    }
    OverflowScan(fat, data, chain, 0, name);
    LookIs(fat, data, d, n, name);
    assert chain[0] == objs[d].chain[0];
  }

  /** Either way the new entry stays out of sight once the operation is done, and nothing
      else does. */
  lemma HiddenAfter(fat: seq<int>, data: seq<Sector>, objs: Objs, own: Own, f: Lookup, d: int, at: int, slot: nat,
                    fat1: seq<int>, data1: seq<Sector>, objs1: Objs, own1: Own,
                    fat2: seq<int>, data2: seq<Sector>, own2: Own, n: int, x: Obj, limit: nat)
    requires |fat| == |data| == |data1| == |data2| == |fat2| == FAT_ENTRIES && |x.name| == 11 && limit == DIR_CLUSTERS_MAX
    requires Inv(fat, data, objs, own) && d in objs && objs[d].isDir && LookupMeans(f, data, objs, own, d, x.name) && !f.Found?
    requires Ready(data, objs, own, f, d, at, slot, fat1, data1, objs1, own1) && slot < SLOTS && ROOT <= at <= MAX_ALLOC
    requires x.name[0] == 0xE5 || Overflows(f, objs[d])
    requires MIN_ALLOC <= n <= MAX_ALLOC && x.size < 0x1_0000_0000
    requires n !in objs1 && FatInv(fat2, objs1[n := x], own2) && SameBut(data1, data2, own1, at)
    requires data2[at] == FillSlot(data1[at], slot, x.name, AttrOf(x.isDir), n, x.size)
    ensures Unseen(Mapped(fat, data, objs, own), fat2, data2, objs, d, x.name)
  {
    hide FatInv, Inv, Look, Scan, AllLive, NoMatch, Lookups, Values, Mapped, Ready, SameBut, FillSlot, LookupMeans, Overflows;
    LookIs(fat2, data2, d, limit, x.name);
    FilesAfter(fat, data, objs, own, f, d, at, slot, fat1, data1, objs1, own1, fat2, data2, own2, n, x);
    if Overflows(f, objs[d]) {
      OverflowAfter(fat, data, objs, own, f, d, at, slot, fat1, data1, objs1, own1, fat2, data2, own2, n, x, limit);
    } else {
      MarkedHidden(fat2, data2, d, limit, x.name, None);
      MarkedAfter(fat, data, objs, own, f, d, at, slot, fat1, data1, objs1, own1, fat2, data2, own2, n, x, limit);
    }
  }

  lemma FilesAfter(fat: seq<int>, data: seq<Sector>, objs: Objs, own: Own, f: Lookup, d: int, at: int, slot: nat,
                   fat1: seq<int>, data1: seq<Sector>, objs1: Objs, own1: Own,
                   fat2: seq<int>, data2: seq<Sector>, own2: Own, n: int, x: Obj)
    requires |fat| == |data| == |data1| == |data2| == |fat2| == FAT_ENTRIES && !f.Found?
    requires Inv(fat, data, objs, own) && d in objs && objs[d].isDir
    requires Ready(data, objs, own, f, d, at, slot, fat1, data1, objs1, own1)
    requires n !in objs1 && FatInv(fat2, objs1[n := x], own2) && SameBut(data1, data2, own1, at)
    ensures Values(Mapped(fat, data, objs, own), fat2, data2, objs)
  {
    hide FatInv, TreeInv, DirInv, Values, Mapped;
    forall o | o in objs && !objs[o].isDir ensures Linked(fat2, objs[o].chain, o) && SameChain(data, data2, objs[o].chain) {
      assert objs1[n := x][o] == objs[o];
      ChainLinked(fat2, objs1[n := x], own2, o);
      var chain := objs[o].chain;
      forall i | 0 <= i < |chain| ensures data2[chain[i]] == data[chain[i]] {
        ChainOwned(fat, objs, own, o, i);
        assert chain[i] in own1 && own1[chain[i]].obj == o;
      }
    }
    ValuesKept(fat, data, objs, own, fat2, data2);
  }

  lemma ChainLinked(fat: seq<int>, objs: Objs, own: Own, o: int)
    requires FatInv(fat, objs, own) && o in objs
    ensures Linked(fat, objs[o].chain, o)
  {
    assert ChainOk(fat, own, o, objs[o].chain);
  }

  lemma OverflowAfter(fat: seq<int>, data: seq<Sector>, objs: Objs, own: Own, f: Lookup, d: int, at: int, slot: nat,
                      fat1: seq<int>, data1: seq<Sector>, objs1: Objs, own1: Own,
                      fat2: seq<int>, data2: seq<Sector>, own2: Own, n: int, x: Obj, limit: nat)
    requires |fat| == |data| == |data1| == |data2| == |fat2| == FAT_ENTRIES && limit == DIR_CLUSTERS_MAX
    requires Inv(fat, data, objs, own) && d in objs && objs[d].isDir && LookupMeans(f, data, objs, own, d, x.name)
    requires Ready(data, objs, own, f, d, at, slot, fat1, data1, objs1, own1) && Overflows(f, objs[d])
    requires n !in objs1 && FatInv(fat2, objs1[n := x], own2) && SameBut(data1, data2, own1, at)
    ensures Lookups(fat2, data2, objs) && !Look(fat2, data2, d, x.name).Found?
  {
    hide FatInv, TreeInv, DirInv, Look, Scan, AllLive, NoMatch, Answers, Alike, Follows;
    DirStart(fat, data, objs, own, d);
    forall u, k | u in objs && 0 <= k < |objs[u].chain| ensures objs[u].chain[k] in own && ROOT <= objs[u].chain[k] <= MAX_ALLOC && data2[objs[u].chain[k]] == data[objs[u].chain[k]] {
      InvOwned(fat, data, objs, own, u, k);
    }
    forall u, m: Name | u in objs && objs[u].isDir ensures Answers(fat2, data2, objs, u, m) {
      DirStart(fat, data, objs, own, u);
      ChainFollows(fat2, objs1[n := x], own2, u);
      FollowsShort(fat2, objs1[n := x][u].chain, objs[u].chain);
      forall k | 0 <= k < |objs[u].chain| ensures Alike(data[objs[u].chain[k]], data2[objs[u].chain[k]]) {
        AlikeSelf(data[objs[u].chain[k]]);
      }
      LookAlike(fat, data, objs, own, fat2, data2, u, m, limit);
    }
    OverflowHidden(fat2, data2, objs1[n := x], own2, d, objs[d].chain, x.name, limit);
  }

  lemma AlikeSelf(s: Sector)
    ensures Alike(s, s)
  {
    hide SlotAt;
  }

  lemma FollowsShort(fat: seq<int>, long: seq<int>, chain: seq<int>)
    requires |fat| == FAT_ENTRIES && InArea(long) && InArea(chain) && Follows(fat, long) && chain <= long
    requires chain == long || |chain| == DIR_CLUSTERS_MAX
    ensures Follows(fat, chain)
  {
    forall k | 0 <= k < |chain| - 1 ensures Step(fat, chain, k) {
      assert Step(fat, long, k);
    }
  }

  lemma MarkedAfter(fat: seq<int>, data: seq<Sector>, objs: Objs, own: Own, f: Lookup, d: int, at: int, slot: nat,
                    fat1: seq<int>, data1: seq<Sector>, objs1: Objs, own1: Own,
                    fat2: seq<int>, data2: seq<Sector>, own2: Own, n: int, x: Obj, limit: nat)
    requires |fat| == |data| == |data1| == |data2| == |fat2| == FAT_ENTRIES && |x.name| == 11 && x.name[0] == 0xE5 && limit == DIR_CLUSTERS_MAX
    requires Inv(fat, data, objs, own) && d in objs && objs[d].isDir && !f.Found? && slot < SLOTS && ROOT <= at <= MAX_ALLOC
    requires Ready(data, objs, own, f, d, at, slot, fat1, data1, objs1, own1) && !Overflows(f, objs[d])
    requires MIN_ALLOC <= n <= MAX_ALLOC && x.size < 0x1_0000_0000
    requires n !in objs1 && FatInv(fat2, objs1[n := x], own2) && SameBut(data1, data2, own1, at)
    requires data2[at] == FillSlot(data1[at], slot, x.name, AttrOf(x.isDir), n, x.size)
    ensures Lookups(fat2, data2, objs)
  {
    hide FatInv, TreeInv, DirInv, Inv, Look, Scan, Answers, Alike, Follows, Ready, FillSlot, SlotAt, Child;
    ReadyParts(data, objs, own, f, d, at, slot, fat1, data1, objs1, own1);
    ReadyFat(data, objs, own, f, d, at, slot, fat1, data1, objs1, own1);
    MarkedAlike(data1[at], slot, x.name, AttrOf(x.isDir), n, x.size);
    forall u, m: Name | u in objs && objs[u].isDir ensures Answers(fat2, data2, objs, u, m) {
      var chain := objs1[u].chain;
      DirStart(fat1, data1, objs1, own1, u);
      ChainFollows(fat2, objs1[n := x], own2, u);
      forall k | 0 <= k < |chain| ensures Alike(data1[chain[k]], data2[chain[k]]) {
        InvOwned(fat1, data1, objs1, own1, u, k);
        AlikeSelf(data1[chain[k]]);
      }
      LookAlike(fat1, data1, objs1, own1, fat2, data2, u, m, limit);
      ReadyChild(fat, data, objs, own, fat1, data1, objs1, own1, u, m);
      AnswersSame(fat2, data2, objs, objs1, u, m);
    }
  }

  lemma AnswersSame(fat: seq<int>, data: seq<Sector>, objs: Objs, objs1: Objs, u: int, m: Name)
    requires |fat| == |data| == FAT_ENTRIES && SameShape(objs, objs1) && Child(objs1, u, m) == Child(objs, u, m) && Answers(fat, data, objs1, u, m)
    requires forall o :: o in objs ==> objs1[o].size == objs[o].size
    ensures Answers(fat, data, objs, u, m)
  {
    hide Look, SlotAt;
  }

  lemma MarkedAlike(s: Sector, slot: nat, name: Name, attr: Byte, n: int, size: nat)
    requires slot < SLOTS && Reusable(s, slot) && |name| == 11 && name[0] == 0xE5 && attr != 0x0F && 0 <= n < 0x1_0000_0000 && size < 0x1_0000_0000
    ensures Alike(s, FillSlot(s, slot, name, attr, n, size))
  {
    hide SlotAt, FillSlot;
    forall k | 0 <= k < SLOTS ensures SlotAt(FillSlot(s, slot, name, attr, n, size), k) == if k == slot then Dead else SlotAt(s, k) {
      FillSlotReads(s, slot, name, attr, n, size, k);
    }
  }

  lemma InvOwned(fat: seq<int>, data: seq<Sector>, objs: Objs, own: Own, d: int, k: nat)
    requires Inv(fat, data, objs, own) && d in objs && k < |objs[d].chain|
    ensures objs[d].chain[k] in own && ROOT <= objs[d].chain[k] <= MAX_ALLOC
  {
    ChainOwned(fat, objs, own, d, k);
  }

  // ---- a new directory ----

  /** Allocates a cluster for a directory, records it in the slot, stores the
      table and the entry, and zeroes the new cluster. */
  method BuildDirectory(dev: Device, name: Name, at: int, slot: nat, fat: array<Byte>, dirData: array<Byte>, ghost objs: Objs, ghost own: Own)
    returns (n: Option<int>)
    requires dev.Big() && fat.Length == FAT_BYTES && dirData.Length == BLOCK && fat != dirData && slot < SLOTS && |name| == 11
    requires FatInv(Links(fat), objs, own) && ROOT <= at <= MAX_ALLOC && dirData[..] == dev.Data()[at]
    modifies dev, fat, dirData
    ensures dev.Big() && dev.blocks[0] == old(dev.blocks[0])
    ensures n.Some? <==> |own| < CLUSTERS
    ensures n.None? ==> dev.Data() == old(dev.Data()) && Stored(dev) == old(Stored(dev))
    ensures n.Some? ==> MIN_ALLOC <= n.value <= MAX_ALLOC && old(Links(fat))[n.value] == FREE
    ensures n.Some? ==> Stored(dev) == old(Links(fat))[n.value := EOC]
    ensures n.Some? ==> dev.Data() == old(dev.Data())[at := FillSlot(old(dev.Data())[at], slot, name, ATTR_DIRECTORY, n.value, 0)][n.value := Zeros()]
  {
    hide FatInv, Links, Stored, StartSlot, FillSlot, Splice, Le32, Device.Data, Device.Meta;
    n := Allocate(fat, objs, own);
    if n.Some? {
      FillIs(dirData[..], slot, name, ATTR_DIRECTORY, n.value, 0);
      SetEntry(fat, n.value, EOC);
      StartEntry(dirData, slot, name, ATTR_DIRECTORY, n.value);
      PutBytes(dirData, SLOT_BYTES * slot + 28, Le32(0));
      Commit(dev, fat, at, dirData);
      MetaStored(dev);
      dev.WriteCluster(n.value, Zeros());
      MetaStored(dev);
    }
  }

  ghost function NewObj(isDir: bool, d: int, name: Name, at: int, slot: nat, depth: nat, size: nat, chain: seq<int>): Obj {
    Obj(isDir, d, name, at, slot, depth + 1, size, chain)
  }

  /** A new directory shows up in the map, unless its entry is out of sight. */
  lemma DirectoryMade(fat: seq<int>, data: seq<Sector>, objs: Objs, own: Own, f: Lookup, d: int, at: int, slot: nat,
                      fat1: seq<int>, data1: seq<Sector>, objs1: Objs, own1: Own,
                      fat2: seq<int>, data2: seq<Sector>, n: int, x: Obj, dp: Path)
    requires |fat| == |data| == |fat1| == |data1| == |fat2| == |data2| == FAT_ENTRIES && slot < SLOTS && ROOT <= at <= MAX_ALLOC
    requires d in objs && objs[d].isDir && |x.name| == 11 && x.name[0] != 0 && MIN_ALLOC <= n <= MAX_ALLOC && fat1[n] == FREE
    requires fat2 == fat1[n := EOC] && data2 == data1[at := FillSlot(data1[at], slot, x.name, ATTR_DIRECTORY, n, 0)][n := Zeros()]
    requires x == NewObj(true, d, x.name, at, slot, objs[d].depth, 0, [n]) && !f.Found? && Resolve(objs, dp) == Some(d)
    requires Child(objs, d, x.name).None? && LookupMeans(f, data, objs, own, d, x.name)
    requires Ready(data, objs, own, f, d, at, slot, fat1, data1, objs1, own1) && Inv(fat, data, objs, own)
    ensures |own1[n := Pos(n, 0)]| == |own1| + 1
    ensures if x.name[0] == 0xE5 || Overflows(f, objs[d]) then Unseen(Mapped(fat, data, objs, own), fat2, data2, objs, d, x.name)
            else Adds(fat, data, objs, own, fat2, data2, objs1[n := x], own1[n := Pos(n, 0)], dp + [x.name], Directory)
  {
    hide Inv, FatInv, Mapped, Resolve, Child, LookupMeans, Look, SlotAt, Ready, FillSlot, SameBut, OwnGrows, Overflows;
    var own2 := own1[n := Pos(n, 0)];
    ReadyFat(data, objs, own, f, d, at, slot, fat1, data1, objs1, own1);
    Start(fat1, objs1, own1, n, x);
    DirMade(data1, data2, own1, at, n);
    if x.name[0] == 0xE5 || Overflows(f, objs[d]) {
      HiddenAfter(fat, data, objs, own, f, d, at, slot, fat1, data1, objs1, own1, fat2, data2, own2, n, x, DIR_CLUSTERS_MAX);
    } else {
      Created(fat, data, objs, own, f, d, at, slot, fat1, data1, objs1, own1, fat2, data2, own2, n, x, dp);
    }
  }

  /** The second volume is consistent and its map is the first one's with `p` added or changed to `v`. */
  ghost predicate Adds(fat: seq<int>, data: seq<Sector>, objs: Objs, own: Own,
                       fat2: seq<int>, data2: seq<Sector>, objs2: Objs, own2: Own, p: Path, v: Val)
  {
    && Inv(fat, data, objs, own) && Inv(fat2, data2, objs2, own2)
    && Mapped(fat2, data2, objs2, own2) == Mapped(fat, data, objs, own)[p := v]
  }

  lemma ReadyFat(data: seq<Sector>, objs: Objs, own: Own, f: Lookup, d: int, at: int, slot: nat,
                 fat1: seq<int>, data1: seq<Sector>, objs1: Objs, own1: Own)
    requires |data| == FAT_ENTRIES && Ready(data, objs, own, f, d, at, slot, fat1, data1, objs1, own1)
    ensures |fat1| == |data1| == FAT_ENTRIES && FatInv(fat1, objs1, own1) && SameOwned(data, data1, own)
    ensures |own1| == |own| + (if f.Full? then 1 else 0) && at in own1 && ROOT <= at <= MAX_ALLOC && slot < SLOTS
    ensures OwnGrows(own, own1, d)
  {
  }

  /** The writes of a new directory: its entry, and its own zeroed cluster. */
  lemma DirMade(data: seq<Sector>, data': seq<Sector>, own: Own, at: int, n: int)
    requires |data| == |data'| == FAT_ENTRIES && ROOT <= n <= MAX_ALLOC && n !in own
    requires forall c :: 0 <= c < FAT_ENTRIES && c != at && c != n ==> data'[c] == data[c]
    ensures SameBut(data, data', own, at) && OwnGrows(own, own[n := Pos(n, 0)], n)
  {
  }
}
