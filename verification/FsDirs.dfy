/** Directory clusters as the record of the tree: each object has exactly one
    live slot, unused (0x00) slots form the tail of a directory's last cluster,
    and creating, resizing and deleting entries keep it so. */
module FsDirs {
  import opened Bytes
  import opened FsLayout
  import opened FsTree
  import opened FsVolume

  function AttrOf(isDir: bool): Byte {
    if isDir then ATTR_DIRECTORY else ATTR_ARCHIVE
  }

  /** The slot recorded for `o` holds its entry and lies in its parent. */
  ghost predicate EntryOk(data: seq<Sector>, objs: Objs, own: Own, o: int)
    requires |data| == FAT_ENTRIES && o in objs
  {
    var x := objs[o];
    && x.at in own && ROOT <= x.at <= MAX_ALLOC && own[x.at].obj == x.parent && x.col < SLOTS
    && SlotAt(data[x.at], x.col) == Live(x.name, AttrOf(x.isDir), o, x.size)
  }

  ghost predicate IsDirCluster(objs: Objs, own: Own, c: int) {
    c in own && ROOT <= c <= MAX_ALLOC && own[c].obj in objs && objs[own[c].obj].isDir
  }

  /** Live slots of cluster `c` are those of objects recorded there. */
  ghost predicate SlotsOk(data: seq<Sector>, objs: Objs, c: int)
    requires |data| == FAT_ENTRIES && ROOT <= c <= MAX_ALLOC
  {
    forall i :: 0 <= i < SLOTS && SlotAt(data[c], i).Live? ==>
      var o := SlotAt(data[c], i).cluster; o in objs && o != ROOT && objs[o].at == c && objs[o].col == i
  }

  ghost predicate NoEnd(s: Sector) {
    forall i :: 0 <= i < SLOTS ==> !SlotAt(s, i).End?
  }

  ghost predicate EndTail(s: Sector) {
    forall i, k :: 0 <= i < k < SLOTS && SlotAt(s, i).End? ==> SlotAt(s, k).End?
  }

  /** Unused slots are only the tail of the last cluster. */
  ghost predicate TailOk(data: seq<Sector>, chain: seq<int>)
    requires |data| == FAT_ENTRIES && InArea(chain)
  {
    && (forall j :: 0 <= j < |chain| - 1 ==> NoEnd(data[chain[j]]))
    && (|chain| > 0 ==> EndTail(data[chain[|chain| - 1]]))
  }

  ghost predicate ShapeOk(data: seq<Sector>, x: Obj)
    requires |data| == FAT_ENTRIES
  {
    && InArea(x.chain)
    && x.size <= BLOCK * |x.chain|
    && (x.isDir ==> x.size == 0 && |x.chain| <= DIR_CLUSTERS_MAX && TailOk(data, x.chain))
  }

  ghost predicate DirInv(data: seq<Sector>, objs: Objs, own: Own)
    requires |data| == FAT_ENTRIES
  {
    && (forall o :: o in objs && o != ROOT ==> EntryOk(data, objs, own, o))
    && (forall c :: IsDirCluster(objs, own, c) ==> SlotsOk(data, objs, c))
    && (forall o :: o in objs ==> ShapeOk(data, objs[o]))
  }

  /** The volume invariant. */
  ghost predicate Inv(fat: seq<int>, data: seq<Sector>, objs: Objs, own: Own) {
    |fat| == |data| == FAT_ENTRIES && FatInv(fat, objs, own) && TreeInv(objs) && DirInv(data, objs, own)
  }

  lemma InvSized(fat: seq<int>, data: seq<Sector>, objs: Objs, own: Own)
    requires Inv(fat, data, objs, own)
    ensures AllSized(objs)
  {
    forall o | o in objs ensures Sized(objs[o]) {
      assert ShapeOk(data, objs[o]);
    }
  }

  /** Clusters of a chain belong to its object. */
  lemma ChainOwned(fat: seq<int>, objs: Objs, own: Own, o: int, j: int)
    requires FatInv(fat, objs, own) && o in objs && 0 <= j < |objs[o].chain|
    ensures objs[o].chain[j] in own && own[objs[o].chain[j]] == Pos(o, j)
    ensures ROOT <= objs[o].chain[j] <= MAX_ALLOC
  {
    assert ChainOk(fat, own, o, objs[o].chain);
  }

  lemma ShapeFrame(data: seq<Sector>, data': seq<Sector>, x: Obj)
    requires |data| == |data'| == FAT_ENTRIES && ShapeOk(data, x)
    requires x.isDir ==> forall j :: 0 <= j < |x.chain| ==> data'[x.chain[j]] == data[x.chain[j]]
    ensures ShapeOk(data', x)
  {
    if x.isDir && |x.chain| > 0 {
      var l := x.chain[|x.chain| - 1];
      assert data'[l] == data[l];
    }
  }

  ghost predicate SameOnDirs(data: seq<Sector>, data': seq<Sector>, objs: Objs, own: Own)
    requires |data| == |data'| == FAT_ENTRIES
  {
    forall c :: IsDirCluster(objs, own, c) ==> data'[c] == data[c]
  }

  lemma EntryDir(fat: seq<int>, data: seq<Sector>, objs: Objs, own: Own, o: int)
    requires Inv(fat, data, objs, own) && o in objs && o != ROOT
    ensures EntryOk(data, objs, own, o) && IsDirCluster(objs, own, objs[o].at)
  {
  }

  /** Writes that avoid directory clusters keep the invariant. */
  lemma DataFrame(fat: seq<int>, data: seq<Sector>, data': seq<Sector>, objs: Objs, own: Own)
    requires Inv(fat, data, objs, own) && |data'| == FAT_ENTRIES && SameOnDirs(data, data', objs, own)
    ensures Inv(fat, data', objs, own)
  {
    forall o | o in objs && o != ROOT ensures EntryOk(data', objs, own, o) {
      EntryDir(fat, data, objs, own, o);
    }
    forall c | IsDirCluster(objs, own, c) ensures SlotsOk(data', objs, c) {
      assert SlotsOk(data, objs, c);
    }
    forall o | o in objs ensures ShapeOk(data', objs[o]) {
      ShapeKept(fat, data, data', objs, own, o);
    }
  }

  lemma ShapeKept(fat: seq<int>, data: seq<Sector>, data': seq<Sector>, objs: Objs, own: Own, o: int)
    requires Inv(fat, data, objs, own) && |data'| == FAT_ENTRIES && o in objs
    requires objs[o].isDir ==> forall c :: c in own && own[c].obj == o ==> ROOT <= c <= MAX_ALLOC && data'[c] == data[c]
    ensures ShapeOk(data', objs[o])
  {
    assert ShapeOk(data, objs[o]);
    if objs[o].isDir {
      forall j | 0 <= j < |objs[o].chain| ensures data'[objs[o].chain[j]] == data[objs[o].chain[j]] {
        ChainOwned(fat, objs, own, o, j);
      }
    }
    ShapeFrame(data, data', objs[o]);
  }

  // ---- changing one slot ----

  /** `data'` has slot `col` of directory cluster `at` replaced by `slot`;
      all other directory slots of the old tree are as before. */
  ghost predicate SlotSet(data: seq<Sector>, data': seq<Sector>, objs: Objs, own: Own, at: int, col: nat, slot: Slot)
    requires |data| == |data'| == FAT_ENTRIES
  {
    && ROOT <= at <= MAX_ALLOC && col < SLOTS
    && (forall c, i :: IsDirCluster(objs, own, c) && 0 <= i < SLOTS ==>
          SlotAt(data'[c], i) == if c == at && i == col then slot else SlotAt(data[c], i))
  }

  lemma SlotSetTail(fat: seq<int>, data: seq<Sector>, data': seq<Sector>, objs: Objs, own: Own,
                    at: int, col: nat, slot: Slot, d: int)
    requires Inv(fat, data, objs, own) && |data'| == FAT_ENTRIES
    requires SlotSet(data, data', objs, own, at, col, slot) && !slot.End?
    requires forall i :: 0 <= i < col ==> !SlotAt(data[at], i).End?
    requires d in objs && objs[d].isDir
    ensures ShapeOk(data', objs[d])
  {
    var chain := objs[d].chain;
    assert ShapeOk(data, objs[d]) && TailOk(data, chain);
    forall j | 0 <= j < |chain|
      ensures IsDirCluster(objs, own, chain[j])
      ensures NoEnd(data[chain[j]]) ==> NoEnd(data'[chain[j]])
      ensures EndTail(data[chain[j]]) ==> EndTail(data'[chain[j]])
    {
      ChainOwned(fat, objs, own, d, j);
    }
  }

  /** An entry other than the one in the written slot stays. */
  lemma EntryKept(data: seq<Sector>, objs: Objs, own: Own, data': seq<Sector>, objs': Objs, own': Own,
                  at: int, col: nat, slot: Slot, o: int)
    requires |data| == |data'| == FAT_ENTRIES && SlotSet(data, data', objs, own, at, col, slot)
    requires o in objs && EntryOk(data, objs, own, o) && IsDirCluster(objs, own, objs[o].at)
    requires objs[o].at != at || objs[o].col != col
    requires o in objs' && objs'[o].(chain := objs[o].chain) == objs[o]
    requires objs[o].at in own' && own'[objs[o].at] == own[objs[o].at]
    ensures EntryOk(data', objs', own', o)
  {
  }

  /** A cluster of an old directory lists the objects of the new table. */
  lemma SlotsKept(data: seq<Sector>, objs: Objs, own: Own, data': seq<Sector>, objs': Objs,
                  at: int, col: nat, slot: Slot, c: int)
    requires |data| == |data'| == FAT_ENTRIES && SlotSet(data, data', objs, own, at, col, slot)
    requires IsDirCluster(objs, own, c) && SlotsOk(data, objs, c)
    requires slot.Live? ==> slot.cluster in objs' && slot.cluster != ROOT && objs'[slot.cluster].at == at && objs'[slot.cluster].col == col
    requires forall u :: u in objs && (objs[u].at != at || objs[u].col != col) ==>
               u in objs' && objs'[u].at == objs[u].at && objs'[u].col == objs[u].col
    ensures SlotsOk(data', objs', c)
  {
  }

  /** Recording a new object in a slot that held no live entry. */
  lemma CreateEntry(fat: seq<int>, data: seq<Sector>, objs: Objs, own: Own,
                    fat': seq<int>, data': seq<Sector>, own': Own, n: int, x: Obj)
    requires |data| == |data'| == |fat'| == FAT_ENTRIES && n !in objs
    requires ROOT <= x.at <= MAX_ALLOC && x.col < SLOTS && (x.isDir ==> ROOT <= n <= MAX_ALLOC)
    requires x.parent in objs && objs[x.parent].isDir && x.depth == objs[x.parent].depth + 1
    requires x.at in own && own[x.at].obj == x.parent
    requires forall c :: c in own ==> c in own' && own'[c] == own[c]
    requires forall c :: c in own' && c !in own ==> own'[c].obj == n
    requires SlotSet(data, data', objs, own, x.at, x.col, Live(x.name, AttrOf(x.isDir), n, x.size))
    requires !SlotAt(data[x.at], x.col).Live?
    requires forall i :: 0 <= i < x.col ==> !SlotAt(data[x.at], i).End?
    requires Child(objs, x.parent, x.name).None?
    requires x.size <= BLOCK * |x.chain|
    requires x.isDir ==> x.size == 0 && x.chain == [n] && data'[n] == Zeros()
    requires Inv(fat, data, objs, own) && FatInv(fat', objs[n := x], own')
    ensures Inv(fat', data', objs[n := x], own')
    ensures Added(objs, objs[n := x], n, x.parent, x.name)
  {
    hide FatInv, TreeInv, SlotSet, EntryOk, SlotsOk, ShapeOk, Child, Added;
    var objs', slot := objs[n := x], Live(x.name, AttrOf(x.isDir), n, x.size);
    CreateTree(objs, n, x);
    RootDir(fat, objs, own, n);
    forall o | o in objs' && o != ROOT ensures EntryOk(data', objs', own', o) {
      if o == n {
        CreateOwn(data, objs, own, data', own', n, x);
      } else {
        EntryDir(fat, data, objs, own, o);
        EntryNotAt(data, objs, own, o, x.at, x.col);
        EntryKept(data, objs, own, data', objs', own', x.at, x.col, slot, o);
      }
    }
    forall c | IsDirCluster(objs', own', c) ensures SlotsOk(data', objs', c) {
      if own'[c].obj == n {
        CreateFresh(fat', data', objs', own', n, c);
      } else {
        SlotsKept(data, objs, own, data', objs', x.at, x.col, slot, c);
      }
    }
    forall o | o in objs' ensures ShapeOk(data', objs'[o]) {
      if o == n {
        CreateShape(fat', data', objs', own', n);
      } else {
        ShapeSet(fat, data, data', objs, own, x.at, x.col, slot, o);
      }
    }
  }

  lemma RootDir(fat: seq<int>, objs: Objs, own: Own, n: int)
    requires FatInv(fat, objs, own) && n !in objs
    ensures n != ROOT
  {
  }

  lemma CreateOwn(data: seq<Sector>, objs: Objs, own: Own, data': seq<Sector>, own': Own, n: int, x: Obj)
    requires |data| == |data'| == FAT_ENTRIES
    requires SlotSet(data, data', objs, own, x.at, x.col, Live(x.name, AttrOf(x.isDir), n, x.size))
    requires IsDirCluster(objs, own, x.at) && own[x.at].obj == x.parent
    requires x.at in own' && own'[x.at] == own[x.at]
    ensures EntryOk(data', objs[n := x], own', n)
  {
  }

  lemma EntryNotAt(data: seq<Sector>, objs: Objs, own: Own, o: int, at: int, col: nat)
    requires |data| == FAT_ENTRIES && o in objs && EntryOk(data, objs, own, o)
    requires ROOT <= at <= MAX_ALLOC && col < SLOTS && !SlotAt(data[at], col).Live?
    ensures objs[o].at != at || objs[o].col != col
  {
  }

  /** A new directory's only cluster has no entries. */
  lemma CreateFresh(fat: seq<int>, data: seq<Sector>, objs: Objs, own: Own, n: int, c: int)
    requires FatInv(fat, objs, own) && n in objs && objs[n].chain == [n] && |data| == FAT_ENTRIES && data[n] == Zeros()
    requires c in own && own[c].obj == n && ROOT <= c <= MAX_ALLOC
    ensures SlotsOk(data, objs, c)
  {
    assert c == n;
  }

  lemma CreateShape(fat: seq<int>, data: seq<Sector>, objs: Objs, own: Own, n: int)
    requires FatInv(fat, objs, own) && n in objs && |data| == FAT_ENTRIES
    requires objs[n].size <= BLOCK * |objs[n].chain|
    requires objs[n].isDir ==> objs[n].size == 0 && objs[n].chain == [n] && data[n] == Zeros()
    ensures ShapeOk(data, objs[n])
  {
    assert ChainOk(fat, own, n, objs[n].chain);
    if objs[n].isDir {
      assert EndTail(data[n]);
    }
  }

  lemma ShapeSet(fat: seq<int>, data: seq<Sector>, data': seq<Sector>, objs: Objs, own: Own,
                 at: int, col: nat, slot: Slot, o: int)
    requires Inv(fat, data, objs, own) && |data'| == FAT_ENTRIES
    requires SlotSet(data, data', objs, own, at, col, slot) && !slot.End?
    requires forall i :: 0 <= i < col ==> !SlotAt(data[at], i).End?
    requires o in objs
    ensures ShapeOk(data', objs[o])
  {
    if objs[o].isDir {
      SlotSetTail(fat, data, data', objs, own, at, col, slot, o);
    } else {
      assert ShapeOk(data, objs[o]);
    }
  }

  lemma CreateTree(objs: Objs, n: int, x: Obj)
    requires TreeInv(objs) && n !in objs
    requires x.parent in objs && objs[x.parent].isDir && x.depth == objs[x.parent].depth + 1
    requires Child(objs, x.parent, x.name).None?
    ensures TreeInv(objs[n := x]) && Added(objs, objs[n := x], n, x.parent, x.name)
  {
    var objs' := objs[n := x];
    assert forall o :: !IsChild(objs, o, x.parent, x.name);
    forall o, u | o in objs' && u in objs' && o != ROOT && u != ROOT &&
        objs'[o].parent == objs'[u].parent && objs'[o].name == objs'[u].name
      ensures o == u
    {
      if o == n && u != n { assert IsChild(objs, u, x.parent, x.name); }
      if u == n && o != n { assert IsChild(objs, o, x.parent, x.name); }
    }
    assert objs'.Keys == objs.Keys + {n};
  }

  /** Rewriting the size and the chain of a file. */
  lemma ResizeEntry(fat: seq<int>, data: seq<Sector>, objs: Objs, own: Own,
                    fat': seq<int>, data': seq<Sector>, own': Own, o: int, chain: seq<int>, size: nat)
    requires Inv(fat, data, objs, own) && |data'| == |fat'| == FAT_ENTRIES
    requires o in objs && !objs[o].isDir
    requires FatInv(fat', objs[o := objs[o].(chain := chain, size := size)], own')
    requires forall c :: c in own && own[c].obj != o ==> c in own' && own'[c] == own[c]
    requires forall c :: c in own' && own'[c].obj != o ==> c in own && own'[c] == own[c]
    requires SlotSet(data, data', objs, own, objs[o].at, objs[o].col,
                     Live(objs[o].name, ATTR_ARCHIVE, o, size))
    requires size <= BLOCK * |chain|
    ensures Inv(fat', data', objs[o := objs[o].(chain := chain, size := size)], own')
    ensures SameShape(objs, objs[o := objs[o].(chain := chain, size := size)])
  {
    hide FatInv, TreeInv, SlotSet, EntryOk, SlotsOk, ShapeOk, SameShape;
    var x, slot := objs[o].(chain := chain, size := size), Live(objs[o].name, ATTR_ARCHIVE, o, size);
    var objs' := objs[o := x];
    FileNotRoot(objs, o);
    EntryDir(fat, data, objs, own, o);
    LiveEntry(data, objs, own, o);
    LiveBeforeEnd(fat, data, objs, own, objs[o].at, objs[o].col);
    ResizeTree(objs, o, x);
    forall u | u in objs' && u != ROOT ensures EntryOk(data', objs', own', u) {
      EntryDir(fat, data, objs, own, u);
      if u == o {
        ResizeOwn(data, objs, own, data', own', o, x);
      } else {
        EntriesApart(fat, data, objs, own, o, u);
        EntryKept(data, objs, own, data', objs', own', objs[o].at, objs[o].col, slot, u);
      }
    }
    forall c | IsDirCluster(objs', own', c) ensures SlotsOk(data', objs', c) {
      SlotsKept(data, objs, own, data', objs', objs[o].at, objs[o].col, slot, c);
    }
    forall u | u in objs' ensures ShapeOk(data', objs'[u]) {
      if u == o {
        CreateShape(fat', data', objs', own', o);
      } else {
        ShapeSet(fat, data, data', objs, own, objs[o].at, objs[o].col, slot, u);
      }
    }
  }

  lemma FileNotRoot(objs: Objs, o: int)
    requires TreeInv(objs) && o in objs && !objs[o].isDir
    ensures o != ROOT
  {
  }

  lemma ResizeOwn(data: seq<Sector>, objs: Objs, own: Own, data': seq<Sector>, own': Own, o: int, x: Obj)
    requires |data| == |data'| == FAT_ENTRIES && o in objs && !objs[o].isDir && EntryOk(data, objs, own, o)
    requires IsDirCluster(objs, own, objs[o].at) && x.(chain := objs[o].chain, size := objs[o].size) == objs[o]
    requires SlotSet(data, data', objs, own, x.at, x.col, Live(x.name, ATTR_ARCHIVE, o, x.size))
    requires x.at in own' && own'[x.at] == own[x.at]
    ensures EntryOk(data', objs[o := x], own', o)
  {
  }

  lemma ResizeTree(objs: Objs, o: int, x: Obj)
    requires TreeInv(objs) && o in objs && SamePlace(objs[o], x) && x.depth == objs[o].depth
    ensures TreeInv(objs[o := x]) && SameShape(objs, objs[o := x])
  {
  }

  /** No unused slot precedes a used one in a directory cluster. */
  lemma LiveBeforeEnd(fat: seq<int>, data: seq<Sector>, objs: Objs, own: Own, c: int, i: nat)
    requires Inv(fat, data, objs, own) && IsDirCluster(objs, own, c) && i < SLOTS
    requires !SlotAt(data[c], i).End?
    ensures forall k :: 0 <= k < i ==> !SlotAt(data[c], k).End?
  {
    var d := own[c].obj;
    assert ShapeOk(data, objs[d]) && TailOk(data, objs[d].chain);
    assert objs[d].chain[own[c].idx] == c;
    if own[c].idx < |objs[d].chain| - 1 {
      assert NoEnd(data[c]);
    } else {
      assert EndTail(data[c]);
    }
  }

  ghost predicate Childless(objs: Objs, o: int) {
    forall u :: u in objs && u != ROOT ==> objs[u].parent != o
  }

  /** Deleting the entry of an object nothing hangs below. */
  lemma DeleteEntry(fat: seq<int>, data: seq<Sector>, objs: Objs, own: Own,
                    fat': seq<int>, data': seq<Sector>, o: int)
    requires Inv(fat, data, objs, own) && |data'| == |fat'| == FAT_ENTRIES
    requires o in objs && o != ROOT && Childless(objs, o)
    requires FatInv(fat', objs - {o}, own - Tail(own, o, 0))
    requires SlotSet(data, data', objs, own, objs[o].at, objs[o].col, Dead)
    ensures Inv(fat', data', objs - {o}, own - Tail(own, o, 0))
    ensures Added(objs - {o}, objs, o, objs[o].parent, objs[o].name)
  {
    hide FatInv, TreeInv, SlotSet, EntryOk, SlotsOk, ShapeOk, Added, Tail;
    var objs', own' := objs - {o}, own - Tail(own, o, 0);
    DeleteTree(objs, o);
    EntryDir(fat, data, objs, own, o);
    LiveEntry(data, objs, own, o);
    LiveBeforeEnd(fat, data, objs, own, objs[o].at, objs[o].col);
    forall u | u in objs' && u != ROOT ensures EntryOk(data', objs', own', u) {
      EntryDir(fat, data, objs, own, u);
      EntriesApart(fat, data, objs, own, o, u);
      EntryParent(data, objs, own, u);
      StillOwned(own, o, objs[u].at);
      EntryKept(data, objs, own, data', objs', own', objs[o].at, objs[o].col, Dead, u);
    }
    forall c | IsDirCluster(objs', own', c) ensures SlotsOk(data', objs', c) {
      SlotsKept(data, objs, own, data', objs', objs[o].at, objs[o].col, Dead, c);
    }
    forall u | u in objs' ensures ShapeOk(data', objs'[u]) {
      ShapeSet(fat, data, data', objs, own, objs[o].at, objs[o].col, Dead, u);
    }
  }

  lemma StillOwned(own: Own, o: int, c: int)
    requires c in own && own[c].obj != o
    ensures c in own - Tail(own, o, 0) && (own - Tail(own, o, 0))[c] == own[c]
  {
  }

  lemma LiveEntry(data: seq<Sector>, objs: Objs, own: Own, o: int)
    requires |data| == FAT_ENTRIES && o in objs && EntryOk(data, objs, own, o)
    ensures objs[o].col < SLOTS && SlotAt(data[objs[o].at], objs[o].col).Live?
  {
  }

  lemma EntryParent(data: seq<Sector>, objs: Objs, own: Own, o: int)
    requires |data| == FAT_ENTRIES && o in objs && EntryOk(data, objs, own, o)
    ensures objs[o].at in own && own[objs[o].at].obj == objs[o].parent
  {
  }

  lemma EntriesApart(fat: seq<int>, data: seq<Sector>, objs: Objs, own: Own, o: int, u: int)
    requires Inv(fat, data, objs, own) && o in objs && u in objs && o != ROOT && u != ROOT && o != u
    ensures objs[o].at != objs[u].at || objs[o].col != objs[u].col
  {
    EntryDir(fat, data, objs, own, o);
    EntryDir(fat, data, objs, own, u);
  }

  lemma DeleteTree(objs: Objs, o: int)
    requires TreeInv(objs) && o in objs && o != ROOT && Childless(objs, o)
    ensures TreeInv(objs - {o})
    ensures Added(objs - {o}, objs, o, objs[o].parent, objs[o].name)
  {
    var objs' := objs - {o};
    assert objs.Keys == objs'.Keys + {o};
    var d, name := objs[o].parent, objs[o].name;
    assert forall u :: IsChild(objs', u, d, name) ==> IsChild(objs, u, d, name);
    assert forall u :: IsChild(objs, u, d, name) ==> u == o;
  }

  /** Chaining a zeroed cluster to a directory none of whose slots is unused. */
  lemma ExtendDirectory(fat: seq<int>, data: seq<Sector>, objs: Objs, own: Own, d: int, n: int)
    requires Inv(fat, data, objs, own) && d in objs && objs[d].isDir
    requires |objs[d].chain| < DIR_CLUSTERS_MAX
    requires |fat| == FAT_ENTRIES && MIN_ALLOC <= n <= MAX_ALLOC && fat[n] == FREE
    requires forall j :: 0 <= j < |objs[d].chain| ==>
               ROOT <= objs[d].chain[j] <= MAX_ALLOC && NoEnd(data[objs[d].chain[j]])
    ensures |objs[d].chain| > 0 && 0 <= objs[d].chain[|objs[d].chain| - 1] < FAT_ENTRIES
    ensures var chain := objs[d].chain;
            Inv(fat[chain[|chain| - 1] := n][n := EOC], data[n := Zeros()],
                objs[d := objs[d].(chain := chain + [n])], own[n := Pos(d, |chain|)])
  {
    hide FatInv, TreeInv, EntryOk, SlotsOk, ShapeOk;
    var chain := objs[d].chain;
    Grow(fat, objs, own, d, n);
    var x := objs[d].(chain := chain + [n]);
    var fat', data', objs', own' := fat[chain[|chain| - 1] := n][n := EOC], data[n := Zeros()], objs[d := x], own[n := Pos(d, |chain|)];
    ResizeTree(objs, d, x);
    forall u | u in objs' && u != ROOT ensures EntryOk(data', objs', own', u) {
      EntryDir(fat, data, objs, own, u);
      EntryExtended(data, objs, own, d, n, u);
    }
    forall c | IsDirCluster(objs', own', c) ensures SlotsOk(data', objs', c) {
      SlotsExtended(data, objs, own, d, n, c);
    }
    forall u | u in objs' ensures ShapeOk(data', objs'[u]) {
      if u == d {
        ExtendShape(fat, data, objs, own, d, n);
      } else {
        ShapeExtended(fat, data, objs, own, n, u);
      }
    }
  }

  lemma EntryExtended(data: seq<Sector>, objs: Objs, own: Own, d: int, n: int, u: int)
    requires |data| == FAT_ENTRIES && ROOT <= n <= MAX_ALLOC && n !in own && d in objs
    requires u in objs && EntryOk(data, objs, own, u)
    ensures EntryOk(data[n := Zeros()], objs[d := objs[d].(chain := objs[d].chain + [n])],
                    own[n := Pos(d, |objs[d].chain|)], u)
  {
  }

  lemma SlotsExtended(data: seq<Sector>, objs: Objs, own: Own, d: int, n: int, c: int)
    requires |data| == FAT_ENTRIES && ROOT <= n <= MAX_ALLOC && n !in own && d in objs && objs[d].isDir
    requires c in own ==> IsDirCluster(objs, own, c) && SlotsOk(data, objs, c)
    requires c in own || c == n
    ensures SlotsOk(data[n := Zeros()], objs[d := objs[d].(chain := objs[d].chain + [n])], c)
  {
  }

  lemma ShapeExtended(fat: seq<int>, data: seq<Sector>, objs: Objs, own: Own, n: int, u: int)
    requires Inv(fat, data, objs, own) && ROOT <= n <= MAX_ALLOC && n !in own && u in objs
    ensures ShapeOk(data[n := Zeros()], objs[u])
  {
    ShapeKept(fat, data, data[n := Zeros()], objs, own, u);
  }

  lemma ExtendShape(fat: seq<int>, data: seq<Sector>, objs: Objs, own: Own, d: int, n: int)
    requires Inv(fat, data, objs, own) && d in objs && objs[d].isDir
    requires |objs[d].chain| < DIR_CLUSTERS_MAX
    requires MIN_ALLOC <= n <= MAX_ALLOC && n !in own
    requires forall j :: 0 <= j < |objs[d].chain| ==>
               ROOT <= objs[d].chain[j] <= MAX_ALLOC && NoEnd(data[objs[d].chain[j]])
    ensures ShapeOk(data[n := Zeros()], objs[d].(chain := objs[d].chain + [n]))
  {
    var chain, data' := objs[d].chain, data[n := Zeros()];
    assert ShapeOk(data, objs[d]);
    forall j | 0 <= j < |chain| ensures data'[chain[j]] == data[chain[j]] {
      ChainOwned(fat, objs, own, d, j);
    }
    assert EndTail(data'[n]);
  }
}
