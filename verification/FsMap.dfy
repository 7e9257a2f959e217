/** A consistent volume as a map from paths to values: how paths are resolved
    against it, and how each change of the volume shows in it. */
module FsMap {
  import opened Bytes
  import opened FsLayout
  import opened FsTree
  import opened FsVolume
  import opened FsDirs
  import opened FsChain
  import opened FsScan
  import opened FsPath
  import opened FsSpec
  import opened FsWrite
  import opened FsLookup

  predicate HasDirBit(attr: Byte) {
    attr / ATTR_DIRECTORY % 2 == 1
  }

  /** The map a consistent volume stands for. */
  ghost function Mapped(fat: seq<int>, data: seq<Sector>, objs: Objs, own: Own): Tree
    requires Inv(fat, data, objs, own)
  {
    InvSized(fat, data, objs, own);
    Contents(data, objs)
  }

  /** What the map says of a name in a directory. */
  lemma MappedChild(fat: seq<int>, data: seq<Sector>, objs: Objs, own: Own, dp: Path, d: int, name: Name)
    requires Inv(fat, data, objs, own) && Resolve(objs, dp) == Some(d) && d in objs && objs[d].isDir
    ensures var m := Mapped(fat, data, objs, own);
            && (dp + [name] in m <==> Child(objs, d, name).Some?)
            && Resolve(objs, dp + [name]) == Child(objs, d, name)
            && (Child(objs, d, name).Some? ==>
                  && Child(objs, d, name).value in objs && Sized(objs[Child(objs, d, name).value])
                  && m[dp + [name]] == ValOf(data, objs[Child(objs, d, name).value]))
  {
    hide FatInv, DirInv, Resolve, Child;
    InvSized(fat, data, objs, own);
    ResolveChild(objs, dp, name);
    ResolveIn(objs, dp + [name]);
    assert Mapped(fat, data, objs, own) == Contents(data, objs);
  }

  /** What the slot of a found entry holds. */
  lemma FoundEntry(fat: seq<int>, data: seq<Sector>, objs: Objs, own: Own, d: int, name: Name, r: Lookup)
    requires Inv(fat, data, objs, own) && d in objs && r.Found? && LookupMeans(r, data, objs, own, d, name)
    ensures ROOT <= r.cluster <= MAX_ALLOC && r.slot < SLOTS && SlotAt(data[r.cluster], r.slot).Live?
    ensures var e := SlotAt(data[r.cluster], r.slot);
            && Child(objs, d, name) == Some(e.cluster) && e.cluster in objs && e.cluster != ROOT
            && objs[e.cluster].at == r.cluster && objs[e.cluster].col == r.slot
            && objs[e.cluster].parent == d && objs[e.cluster].name == e.name == name
            && e.attr == AttrOf(objs[e.cluster].isDir) && e.size == objs[e.cluster].size
            && (HasDirBit(e.attr) <==> objs[e.cluster].isDir)
            && MIN_ALLOC <= e.cluster <= MAX_ALLOC
  {
    hide FatInv, TreeInv, DirInv, SlotAt;
    var o := SlotAt(data[r.cluster], r.slot).cluster;
    EntryDir(fat, data, objs, own, o);
    StartsChain(fat, data, objs, own, o);
  }

  lemma StartsChain(fat: seq<int>, data: seq<Sector>, objs: Objs, own: Own, o: int)
    requires Inv(fat, data, objs, own) && o in objs
    ensures |objs[o].chain| > 0 && objs[o].chain[0] == o && InArea(objs[o].chain)
    ensures o != ROOT ==> MIN_ALLOC <= o <= MAX_ALLOC
    ensures objs[o].size <= BLOCK * |objs[o].chain|
    ensures |own| <= CLUSTERS && |objs[o].chain| <= CLUSTERS
  {
    hide TreeInv;
    assert ChainOk(fat, own, o, objs[o].chain) && ShapeOk(data, objs[o]);
    ChainDistinct(fat, objs, own, o);
    FreeCount(fat, objs, own);
    TailSize(fat, objs, own, o, 0);
    SubsetSize(Tail(own, o, 0), own.Keys);
    assert |own| == |own.Keys|;
  }

  /** Finds the directory and the leaf name a path ends in. */
  method ResolveParentAndLeaf(dev: Device, path: Text, ghost objs: Objs, ghost own: Own)
    returns (code: Code, parent: int, name: Name, ghost dp: Path)
    requires dev.Big() && Inv(Stored(dev), dev.Data(), objs, own)
    ensures Locating(Mapped(Stored(dev), dev.Data(), objs, own), path) == if code == OK then Target(dp, name) else Fails(code)
    ensures code == OK ==> |name| == 11 && name[0] != 0
    ensures code == OK ==> parent in objs && objs[parent].isDir && Resolve(objs, dp) == Some(parent)
  {
    hide Inv, Mapped, Resolve, Child, LookupMeans, Look, SlotAt, ShortName, Components;
    ghost var fat, data := Stored(dev), dev.Data();
    ghost var m := Mapped(fat, data, objs, own);
    RootIs(fat, data, objs, own);
    var dirData := new Byte[BLOCK];
    var pos: nat := 0;
    var pending: Option<Text> := None;
    parent, name, dp := ROOT, [], [];
    assert [] + Components(path, 0) == Components(path, 0);
    while true
      invariant pos <= |path| && parent in objs && objs[parent].isDir && Resolve(objs, dp) == Some(parent)
      invariant Locating(m, path) == Locate(m, (if pending.Some? then [pending.value] else []) + Components(path, pos), dp)
      invariant pending.None? ==> dp == [] && pos == 0
      decreases |path| - pos
    {
      var c, next := NextComponent(path, pos);
      if c.None? {
        break;
      }
      ghost var rest := Components(path, next);
      if pending.None? {
        pending, pos := c, next;
        assert [c.value] + rest == [] + ([c.value] + rest);
        continue;
      }
      LocateStep(m, pending.value, [c.value] + rest, dp);
      var leaf := ParseName(pending.value);
      if leaf.None? {
        code := INVALID_ARG;
        return;
      }
      var r := FindEntryInDir(dev, parent, leaf.value, dirData);
      LookChild(fat, data, objs, own, parent, DIR_CLUSTERS_MAX, leaf.value);
      MappedChild(fat, data, objs, own, dp, parent, leaf.value);
      if !r.Found? {
        NotFoundChild(r, data, objs, own, parent, leaf.value);
        code := NOT_FOUND;
        return;
      }
      FoundEntry(fat, data, objs, own, parent, leaf.value, r);
      var entry := SlotAt(dirData[..], r.slot);
      if !HasDirBit(entry.attr) {
        code := NOT_DIR;
        return;
      }
      parent, dp := entry.cluster, dp + [leaf.value];
      pending, pos := c, next;
    }
    if pending.None? {
      code := INVALID_ARG;
      return;
    }
    assert [pending.value] + [] == [pending.value];
    LocateStep(m, pending.value, [], dp);
    var leaf := ParseName(pending.value);
    if leaf.None? {
      code := INVALID_ARG;
      return;
    }
    code, name := OK, leaf.value;
  }

  /** Finds the directory a path names. */
  method ResolveDir(dev: Device, path: Text, ghost objs: Objs, ghost own: Own) returns (r: Option<int>, ghost dp: Path)
    requires dev.Big() && Inv(Stored(dev), dev.Data(), objs, own)
    ensures LocateDir(Mapped(Stored(dev), dev.Data(), objs, own), Components(path, 0), []) == if r.Some? then Some(dp) else None
    ensures r.Some? ==> r.value in objs && objs[r.value].isDir && Resolve(objs, dp) == Some(r.value)
  {
    hide Inv, Mapped, Resolve, Child, LookupMeans, Look, SlotAt, ShortName, Components;
    ghost var fat, data := Stored(dev), dev.Data();
    ghost var m := Mapped(fat, data, objs, own);
    RootIs(fat, data, objs, own);
    var dirData := new Byte[BLOCK];
    var pos: nat, current := 0, ROOT;
    dp := [];
    while true
      invariant pos <= |path| && current in objs && objs[current].isDir && Resolve(objs, dp) == Some(current)
      invariant LocateDir(m, Components(path, 0), []) == LocateDir(m, Components(path, pos), dp)
      decreases |path| - pos
    {
      var c, next := NextComponent(path, pos);
      if c.None? {
        return Some(current), dp;
      }
      LocateDirStep(m, c.value, Components(path, next), dp);
      var leaf := ParseName(c.value);
      if leaf.None? {
        return None, dp;
      }
      var r := FindEntryInDir(dev, current, leaf.value, dirData);
      LookChild(fat, data, objs, own, current, DIR_CLUSTERS_MAX, leaf.value);
      MappedChild(fat, data, objs, own, dp, current, leaf.value);
      if !r.Found? {
        NotFoundChild(r, data, objs, own, current, leaf.value);
        return None, dp;
      }
      FoundEntry(fat, data, objs, own, current, leaf.value, r);
      var entry := SlotAt(dirData[..], r.slot);
      if !HasDirBit(entry.attr) {
        return None, dp;
      }
      current, dp, pos := entry.cluster, dp + [leaf.value], next;
    }
  }

  lemma LocateDirStep(m: Tree, c: Text, rest: seq<Text>, dp: Path)
    ensures ShortName(c).None? ==> LocateDir(m, [c] + rest, dp).None?
    ensures ShortName(c).Some? ==>
              var p := dp + [ShortName(c).value];
              LocateDir(m, [c] + rest, dp) == if p in m && m[p] == Directory then LocateDir(m, rest, p) else None
  {
    var cs := [c] + rest;
    assert cs[1..] == rest;
  }

  lemma RootIs(fat: seq<int>, data: seq<Sector>, objs: Objs, own: Own)
    requires Inv(fat, data, objs, own)
    ensures ROOT in objs && objs[ROOT].isDir && Resolve(objs, []) == Some(ROOT)
  {
  }

  lemma NotFoundChild(r: Lookup, data: seq<Sector>, objs: Objs, own: Own, d: int, name: Name)
    requires |data| == FAT_ENTRIES && d in objs && !r.Found? && LookupMeans(r, data, objs, own, d, name)
    ensures Child(objs, d, name).None?
  {
  }

  lemma LocateStep(m: Tree, c: Text, rest: seq<Text>, dp: Path)
    ensures ShortName(c).None? ==> Locate(m, [c] + rest, dp) == Fails(INVALID_ARG)
    ensures ShortName(c).Some? && rest == [] ==> Locate(m, [c] + rest, dp) == Target(dp, ShortName(c).value)
    ensures ShortName(c).Some? && rest != [] ==>
              var p := dp + [ShortName(c).value];
              Locate(m, [c] + rest, dp) ==
              if p !in m then Fails(NOT_FOUND) else if m[p] != Directory then Fails(NOT_DIR) else Locate(m, rest, p)
  {
    var cs := [c] + rest;
    assert cs[1..] == rest;
  }

  // ---- how each change of the volume shows in the map ----

  /** Files other than `o` keep their clusters and size, and those clusters their bytes. */
  ghost predicate FilesKept(data: seq<Sector>, objs: Objs, own: Own, data': seq<Sector>, after: Objs, o: int)
    requires |data| == |data'| == FAT_ENTRIES
  {
    && (forall u :: u in objs && u != o ==>
          && u in after && SamePlace(objs[u], after[u])
          && (!objs[u].isDir ==> after[u].chain == objs[u].chain && after[u].size == objs[u].size))
    && (forall c :: c in own && own[c].obj in objs && own[c].obj != o && !objs[own[c].obj].isDir && ROOT <= c <= MAX_ALLOC ==>
          data'[c] == data[c])
  }

  lemma KeptVals(fat: seq<int>, data: seq<Sector>, objs: Objs, own: Own, data': seq<Sector>, after: Objs, o: int)
    requires Inv(fat, data, objs, own) && |data'| == FAT_ENTRIES && AllSized(objs) && AllSized(after)
    requires FilesKept(data, objs, own, data', after, o)
    ensures SameVals(data, objs, data', after, o)
  {
    hide FatInv, TreeInv, DirInv;
    forall u | u in objs && u != o
      ensures u in after && SamePlace(objs[u], after[u]) && ValOf(data', after[u]) == ValOf(data, objs[u])
    {
      if !objs[u].isDir {
        forall i | 0 <= i < |objs[u].chain| ensures data'[objs[u].chain[i]] == data[objs[u].chain[i]] {
          ChainOwned(fat, objs, own, u, i);
        }
        FlattenSame(data, data', objs[u].chain);
      }
    }
  }

  lemma MappedAdded(fat: seq<int>, data: seq<Sector>, objs: Objs, own: Own,
                    fat': seq<int>, data': seq<Sector>, objs': Objs, own': Own, o: int, d: int, name: Name, dp: Path)
    requires Inv(fat, data, objs, own) && Inv(fat', data', objs', own')
    requires Added(objs, objs', o, d, name) && FilesKept(data, objs, own, data', objs', o)
    requires Resolve(objs, dp) == Some(d) && d in objs && objs[d].isDir
    ensures o in objs' && Sized(objs'[o])
    ensures dp + [name] !in Mapped(fat, data, objs, own)
    ensures Mapped(fat', data', objs', own') == Mapped(fat, data, objs, own)[dp + [name] := ValOf(data', objs'[o])]
  {
    hide FatInv, DirInv, FilesKept, Resolve, Added, Contents;
    InvSized(fat, data, objs, own);
    InvSized(fat', data', objs', own');
    KeptVals(fat, data, objs, own, data', objs', o);
    AddedIn(objs, objs', o, d, name);
    ContentsAdded(data, objs, data', objs', o, d, name, dp);
  }

  lemma AddedIn(objs: Objs, after: Objs, o: int, d: int, name: Name)
    requires Added(objs, after, o, d, name)
    ensures o in after
  {
  }

  lemma MappedRemoved(fat: seq<int>, data: seq<Sector>, objs: Objs, own: Own,
                      fat': seq<int>, data': seq<Sector>, objs': Objs, own': Own, o: int, d: int, name: Name, dp: Path)
    requires Inv(fat, data, objs, own) && Inv(fat', data', objs', own')
    requires Added(objs', objs, o, d, name) && FilesKept(data', objs', own', data, objs, o)
    requires Resolve(objs, dp) == Some(d) && d in objs && objs[d].isDir
    ensures Mapped(fat', data', objs', own') == Mapped(fat, data, objs, own) - {dp + [name]}
  {
    hide FatInv, DirInv, FilesKept, Resolve, Added, Contents;
    InvSized(fat, data, objs, own);
    InvSized(fat', data', objs', own');
    KeptVals(fat', data', objs', own', data, objs, o);
    ContentsRemoved(data, objs, data', objs', o, d, name, dp);
  }

  lemma MappedUpdated(fat: seq<int>, data: seq<Sector>, objs: Objs, own: Own,
                      fat': seq<int>, data': seq<Sector>, objs': Objs, own': Own, o: int, p: Path)
    requires Inv(fat, data, objs, own) && Inv(fat', data', objs', own')
    requires SameShape(objs, objs') && FilesKept(data, objs, own, data', objs', o)
    requires Resolve(objs, p) == Some(o) && o in objs
    ensures o in objs' && Sized(objs'[o])
    ensures Mapped(fat', data', objs', own') == Mapped(fat, data, objs, own)[p := ValOf(data', objs'[o])]
  {
    hide FatInv, DirInv, FilesKept, Resolve, Contents;
    InvSized(fat, data, objs, own);
    InvSized(fat', data', objs', own');
    KeptVals(fat, data, objs, own, data', objs', o);
    ContentsUpdate(data, objs, data', objs', o, p);
  }

  /** No leaks and no cross-links: a used cluster lies on the chain of exactly one
      object, at one place, and a path from the root leads to that object. */
  lemma UsedClusterReached(fat: seq<int>, data: seq<Sector>, objs: Objs, own: Own, c: int)
    requires Inv(fat, data, objs, own) && MIN_ALLOC <= c <= MAX_ALLOC && fat[c] != FREE
    ensures exists o, i ::
              && o in objs && 0 <= i < |objs[o].chain| && objs[o].chain[i] == c
              && Resolve(objs, PathOf(objs, o)) == Some(o)
              && (forall u, j :: u in objs && 0 <= j < |objs[u].chain| && objs[u].chain[j] == c ==> u == o && j == i)
  {
    hide DirInv, Resolve;
    var o, i := own[c].obj, own[c].idx;
    PathOfResolves(objs, o);
    forall u, j | u in objs && 0 <= j < |objs[u].chain| && objs[u].chain[j] == c ensures u == o && j == i {
      ChainOwned(fat, objs, own, u, j);
    }
  }
}
