/** What an entry that no lookup finds leaves alone: every other lookup, and the
    contents of every file. */
module FsUnseen {
  import opened Bytes
  import opened FsLayout
  import opened FsTree
  import opened FsVolume
  import opened FsDirs
  import opened FsScan
  import opened FsSpec
  import opened FsMap

  /** The lookup of a name in a directory finds the entry of the child with that name, and
      nothing when there is no such child. */
  ghost predicate Answers(fat: seq<int>, data: seq<Sector>, objs: Objs, u: int, n: Name)
    requires |fat| == |data| == FAT_ENTRIES
  {
    var r, o := Look(fat, data, u, n), Child(objs, u, n);
    if o.None? then !r.Found?
    else
      && r.Found? && ROOT <= r.cluster <= MAX_ALLOC && r.slot < SLOTS && o.value in objs
      && SlotAt(data[r.cluster], r.slot) == Live(n, AttrOf(objs[o.value].isDir), o.value, objs[o.value].size)
  }

  ghost predicate Lookups(fat: seq<int>, data: seq<Sector>, objs: Objs)
    requires |fat| == |data| == FAT_ENTRIES
  {
    forall u, n: Name :: u in objs && objs[u].isDir ==> Answers(fat, data, objs, u, n)
  }

  /** The object at a path holds what the map says; a file's clusters are linked to their end. */
  ghost predicate Holds(m: Tree, fat: seq<int>, data: seq<Sector>, objs: Objs, p: Path)
    requires |fat| == |data| == FAT_ENTRIES && p in m
  {
    var o := Resolve(objs, p);
    && o.Some? && o.value in objs && Sized(objs[o.value]) && ValOf(data, objs[o.value]) == m[p]
    && (!objs[o.value].isDir ==> Linked(fat, objs[o.value].chain, o.value))
  }

  ghost predicate Linked(fat: seq<int>, chain: seq<int>, o: int)
    requires |fat| == FAT_ENTRIES
  {
    |chain| > 0 && chain[0] == o && InArea(chain) && forall i :: 0 <= i < |chain| ==> Link(fat, chain, i)
  }

  ghost predicate Values(m: Tree, fat: seq<int>, data: seq<Sector>, objs: Objs)
    requires |fat| == |data| == FAT_ENTRIES
  {
    forall p: Path :: p in m ==> Holds(m, fat, data, objs, p)
  }

  /** A new entry is not found, every lookup answers as before, and every path holds what it held. */
  ghost predicate Unseen(m: Tree, fat: seq<int>, data: seq<Sector>, objs: Objs, d: int, name: Name)
    requires |fat| == |data| == FAT_ENTRIES
  {
    !Look(fat, data, d, name).Found? && Lookups(fat, data, objs) && Values(m, fat, data, objs)
  }

  // ---- lookups ----

  /** Slots differ at most where neither is live, and no slot has become unused. */
  ghost predicate Alike(s: Sector, s': Sector) {
    forall k :: 0 <= k < SLOTS ==>
      && (SlotAt(s', k) == SlotAt(s, k) || (!SlotAt(s', k).Live? && !SlotAt(s, k).Live?))
      && (SlotAt(s', k).End? ==> SlotAt(s, k).End?)
  }

  ghost predicate LiveFirst(s: Sector) {
    NoEnd(s) || EndTail(s)
  }

  lemma {:induction false} NoneLive(s: Sector, n: Name, i: nat)
    requires i <= SLOTS && forall k :: i <= k < SLOTS ==> !SlotAt(s, k).Live?
    ensures MatchIn(s, n, i).None?
    decreases SLOTS - i
  {
    hide SlotAt;
    if i < SLOTS { NoneLive(s, n, i + 1); }
  }

  lemma {:induction false} MatchAlike(s: Sector, s': Sector, n: Name, i: nat)
    requires Alike(s, s') && LiveFirst(s) && i <= SLOTS
    ensures MatchIn(s', n, i) == MatchIn(s, n, i)
    decreases SLOTS - i
  {
    hide SlotAt;
    if i < SLOTS {
      MatchAlike(s, s', n, i + 1);
      if SlotAt(s, i).End? {
        assert forall k :: i <= k < SLOTS ==> !SlotAt(s', k).Live?;
        NoneLive(s', n, i);
      }
    }
  }

  /** The links lead along the chain, and on from its end only when it is as long as lookups go. */
  ghost predicate Follows(fat: seq<int>, chain: seq<int>)
    requires |fat| == FAT_ENTRIES && InArea(chain)
  {
    && (forall k :: 0 <= k < |chain| - 1 ==> Step(fat, chain, k))
    && (|chain| > 0 ==> |chain| == DIR_CLUSTERS_MAX || !IsLink(fat[chain[|chain| - 1]]))
  }

  lemma {:induction false} ScanAlike(fat: seq<int>, data: seq<Sector>, fat': seq<int>, data': seq<Sector>, chain: seq<int>, j: nat, n: Name,
                                     free: Option<(int, nat)>, free': Option<(int, nat)>)
    requires |fat| == |data| == |fat'| == |data'| == FAT_ENTRIES && InArea(chain) && j < |chain| <= DIR_CLUSTERS_MAX
    requires Follows(fat, chain) && Follows(fat', chain)
    requires forall k :: 0 <= k < |chain| ==> Alike(data[chain[k]], data'[chain[k]]) && LiveFirst(data[chain[k]])
    ensures var a, b := Scan(fat, data, chain[j], DIR_CLUSTERS_MAX - j, n, free), Scan(fat', data', chain[j], DIR_CLUSTERS_MAX - j, n, free');
            (a.Found? <==> b.Found?) && (a.Found? ==> a == b)
    decreases |chain| - j
  {
    hide Alike, LiveFirst, MatchIn, FreeAfter, Outcome;
    var c := chain[j];
    MatchAlike(data[c], data'[c], n, 0);
    OutcomeNone(FreeAfter(data[c], c, free));
    OutcomeNone(FreeAfter(data'[c], c, free'));
    if MatchIn(data[c], n, 0).None? {
      if j < |chain| - 1 {
        assert Step(fat, chain, j) && Step(fat', chain, j);
        ScanAlike(fat, data, fat', data', chain, j + 1, n, FreeAfter(data[c], c, free), FreeAfter(data'[c], c, free'));
      } else if |chain| == DIR_CLUSTERS_MAX {
        ScanNone(fat, data, fat[c], DIR_CLUSTERS_MAX - j - 1, n, FreeAfter(data[c], c, free));
        ScanNone(fat', data', fat'[c], DIR_CLUSTERS_MAX - j - 1, n, FreeAfter(data'[c], c, free'));
      }
    }
  }

  lemma OutcomeNone(free: Option<(int, nat)>)
    ensures !Outcome(free).Found?
  {
  }

  lemma ScanNone(fat: seq<int>, data: seq<Sector>, c: int, n: nat, name: Name, free: Option<(int, nat)>)
    requires |fat| == |data| == FAT_ENTRIES && n == 0
    ensures !Scan(fat, data, c, n, name, free).Found?
  {
  }

  lemma DirFollows(fat: seq<int>, data: seq<Sector>, objs: Objs, own: Own, u: int)
    requires Inv(fat, data, objs, own) && u in objs && objs[u].isDir
    ensures InArea(objs[u].chain) && Follows(fat, objs[u].chain)
  {
    hide TreeInv, DirInv;
    DirStart(fat, data, objs, own, u);
    ChainFollows(fat, objs, own, u);
  }

  lemma ChainFollows(fat: seq<int>, objs: Objs, own: Own, u: int)
    requires FatInv(fat, objs, own) && u in objs
    ensures InArea(objs[u].chain) && Follows(fat, objs[u].chain)
  {
    var chain := objs[u].chain;
    assert ChainOk(fat, own, u, chain);
    ChainDistinct(fat, objs, own, u);
    forall k | 0 <= k < |chain| - 1 ensures Step(fat, chain, k) {
      assert Link(fat, chain, k);
    }
    assert Link(fat, chain, |chain| - 1);
  }

  /** A volume whose links still follow a directory's clusters, and whose slots there are
      alike, answers lookups in it as before. */
  lemma LookAlike(fat: seq<int>, data: seq<Sector>, objs: Objs, own: Own, fat': seq<int>, data': seq<Sector>, u: int, n: Name, limit: nat)
    requires |fat| == |data| == |fat'| == |data'| == FAT_ENTRIES && limit == DIR_CLUSTERS_MAX
    requires Inv(fat, data, objs, own) && u in objs && objs[u].isDir && InArea(objs[u].chain) && Follows(fat', objs[u].chain)
    requires forall k :: 0 <= k < |objs[u].chain| ==> Alike(data[objs[u].chain[k]], data'[objs[u].chain[k]])
    ensures Answers(fat', data', objs, u, n)
  {
    hide FatInv, TreeInv, DirInv, Alike, Follows, Scan, Look, SlotAt, NoMatch, AllLive, Reusable;
    var chain := objs[u].chain;
    DirStart(fat, data, objs, own, u);
    DirFollows(fat, data, objs, own, u);
    forall k | 0 <= k < |chain| ensures LiveFirst(data[chain[k]]) {
      ChainSector(fat, data, objs, own, u, k);
    }
    ScanAlike(fat, data, fat', data', chain, 0, n, None, None);
    LookIs(fat, data, u, limit, n);
    LookIs(fat', data', u, limit, n);
    LookChild(fat, data, objs, own, u, limit, n);
    var r := Look(fat, data, u, n);
    if r.Found? {
      FoundChild(fat, data, objs, own, u, n, r);
      FoundAlike(fat, data, objs, own, data', u, n, r);
    }
  }

  lemma FoundChild(fat: seq<int>, data: seq<Sector>, objs: Objs, own: Own, u: int, n: Name, r: Lookup)
    requires Inv(fat, data, objs, own) && u in objs && objs[u].isDir && r.Found? && LookupMeans(r, data, objs, own, u, n)
    ensures r.slot < SLOTS && ROOT <= r.cluster <= MAX_ALLOC && Child(objs, u, n).Some? && Child(objs, u, n).value in objs
    ensures var o := Child(objs, u, n).value; SlotAt(data[r.cluster], r.slot) == Live(n, AttrOf(objs[o].isDir), o, objs[o].size)
    ensures r.cluster in own && own[r.cluster].idx < |objs[u].chain| && objs[u].chain[own[r.cluster].idx] == r.cluster
  {
    hide FatInv, TreeInv, SlotAt, TailOk;
    var o := Child(objs, u, n).value;
    assert EntryOk(data, objs, own, o);
    ChildHasSlot(fat, data, objs, own, u, o);
  }

  lemma FoundAlike(fat: seq<int>, data: seq<Sector>, objs: Objs, own: Own, data': seq<Sector>, u: int, n: Name, r: Lookup)
    requires |data| == |data'| == FAT_ENTRIES && r.Found? && r.slot < SLOTS && ROOT <= r.cluster <= MAX_ALLOC && r.cluster in own && u in objs
    requires InArea(objs[u].chain) && own[r.cluster].idx < |objs[u].chain| && objs[u].chain[own[r.cluster].idx] == r.cluster
    requires forall k :: 0 <= k < |objs[u].chain| ==> Alike(data[objs[u].chain[k]], data'[objs[u].chain[k]])
    requires SlotAt(data[r.cluster], r.slot).Live?
    ensures SlotAt(data'[r.cluster], r.slot) == SlotAt(data[r.cluster], r.slot)
  {
    hide SlotAt;
    assert Alike(data[objs[u].chain[own[r.cluster].idx]], data'[objs[u].chain[own[r.cluster].idx]]);
  }

  // ---- contents ----

  /** Files hold what they held when their clusters keep their bytes and links. */
  lemma ValuesKept(fat: seq<int>, data: seq<Sector>, objs: Objs, own: Own, fat': seq<int>, data': seq<Sector>)
    requires |fat'| == |data'| == FAT_ENTRIES && Inv(fat, data, objs, own)
    requires forall o :: o in objs && !objs[o].isDir ==> Linked(fat', objs[o].chain, o) && SameChain(data, data', objs[o].chain)
    ensures Values(Mapped(fat, data, objs, own), fat', data', objs)
  {
    hide FatInv, TreeInv, DirInv, Resolve, Linked, SameChain, Flatten;
    var m := Mapped(fat, data, objs, own);
    InvSized(fat, data, objs, own);
    forall p: Path | p in m ensures Holds(m, fat', data', objs, p) {
      assert At(data, objs, p).Some?;
      ResolveIn(objs, p);
      var o := Resolve(objs, p).value;
      if !objs[o].isDir { SameFlatten(data, data', objs[o].chain); }
    }
  }

  ghost predicate SameChain(data: seq<Sector>, data': seq<Sector>, chain: seq<int>)
    requires |data| == |data'| == FAT_ENTRIES
  {
    InArea(chain) && forall i :: 0 <= i < |chain| ==> data'[chain[i]] == data[chain[i]]
  }

  lemma SameFlatten(data: seq<Sector>, data': seq<Sector>, chain: seq<int>)
    requires |data| == |data'| == FAT_ENTRIES && SameChain(data, data', chain)
    ensures Flatten(data', chain) == Flatten(data, chain)
  {
    var a, b := Flatten(data, chain), Flatten(data', chain);
    forall k | 0 <= k < |a| ensures a[k] == b[k] {
      assert 0 <= k / BLOCK < |chain|;
    }
  }
}
