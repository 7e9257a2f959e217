/** Directory lookup: the bounded walk over a directory's clusters, and what its
    three outcomes mean on a consistent volume. */
module FsScan {
  import opened Bytes
  import opened FsLayout
  import opened FsTree
  import opened FsVolume
  import opened FsDirs
  import opened FsChain

  /** Outcome of a lookup: the slot of the entry, the first reusable slot, or none. */
  datatype Lookup = Found(cluster: int, slot: nat) | Vacant(cluster: int, slot: nat) | Full

  /** First live slot from `i` on with this name, stopping at an unused slot. */
  function MatchIn(s: Sector, name: Name, i: nat): (r: Option<int>)
    ensures r.Some? ==> i <= r.value < SLOTS && SlotAt(s, r.value).Live? && SlotAt(s, r.value).name == name
    ensures r.None? && (NoEnd(s) || EndTail(s)) ==>
              forall k :: i <= k < SLOTS && SlotAt(s, k).Live? ==> SlotAt(s, k).name != name
    decreases SLOTS - i
  {
    if i >= SLOTS || SlotAt(s, i).End? then None
    else if SlotAt(s, i).Live? && SlotAt(s, i).name == name then Some(i)
    else MatchIn(s, name, i + 1)
  }

  /** First slot from `i` on that holds no live entry. */
  function VacantIn(s: Sector, i: nat): (r: Option<int>)
    ensures r.Some? ==> i <= r.value < SLOTS && !SlotAt(s, r.value).Live? && forall k :: i <= k < r.value ==> SlotAt(s, k).Live?
    ensures r.None? ==> forall k :: i <= k < SLOTS ==> SlotAt(s, k).Live?
    decreases SLOTS - i
  {
    if i >= SLOTS then None
    else if !SlotAt(s, i).Live? then Some(i)
    else VacantIn(s, i + 1)
  }

  predicate IsLink(next: int) {
    MIN_ALLOC <= next <= MAX_ALLOC
  }

  function Outcome(free: Option<(int, nat)>): Lookup {
    if free.Some? then Vacant(free.value.0, free.value.1) else Full
  }

  /** The first reusable slot once cluster `c` has been searched. */
  function FreeAfter(s: Sector, c: int, free: Option<(int, nat)>): Option<(int, nat)> {
    if free.Some? then free
    else if VacantIn(s, 0).Some? then Some((c, VacantIn(s, 0).value)) else None
  }

  /** The lookup of `name` over at most `n` clusters from `c` on. */
  function Scan(fat: seq<int>, data: seq<Sector>, c: int, n: nat, name: Name, free: Option<(int, nat)>): Lookup
    requires |fat| == |data| == FAT_ENTRIES
    decreases n
  {
    if n == 0 || c < ROOT || c > MAX_ALLOC then Outcome(free)
    else if MatchIn(data[c], name, 0).Some? then Found(c, MatchIn(data[c], name, 0).value)
    else if IsLink(fat[c]) then Scan(fat, data, fat[c], n - 1, name, FreeAfter(data[c], c, free))
    else Outcome(FreeAfter(data[c], c, free))
  }

  ghost predicate NoMatch(s: Sector, name: Name) {
    forall k :: 0 <= k < SLOTS && SlotAt(s, k).Live? ==> SlotAt(s, k).name != name
  }

  ghost predicate AllLive(s: Sector) {
    forall k :: 0 <= k < SLOTS ==> SlotAt(s, k).Live?
  }

  /** A slot that can take a new entry: not live, with only live slots before it. */
  ghost predicate Reusable(s: Sector, i: nat) {
    i < SLOTS && !SlotAt(s, i).Live? && forall k :: 0 <= k < i ==> SlotAt(s, k).Live?
  }

  /** What the walk says about the clusters of directory `d` from link `j` on. */
  ghost predicate Reports(r: Lookup, data: seq<Sector>, chain: seq<int>, j: nat, name: Name, free: Option<(int, nat)>)
    requires |data| == FAT_ENTRIES && InArea(chain)
  {
    match r
    case Found(c, i) => (exists k :: j <= k < |chain| && chain[k] == c) && i < SLOTS && ROOT <= c <= MAX_ALLOC
                        && SlotAt(data[c], i).Live? && SlotAt(data[c], i).name == name
    case Vacant(c, i) => (forall k :: j <= k < |chain| ==> NoMatch(data[chain[k]], name))
                         && (free.Some? ==> free.value == (c, i))
                         && (free.None? ==> ROOT <= c <= MAX_ALLOC && (exists k :: j <= k < |chain| && chain[k] == c) && Reusable(data[c], i))
    case Full => free.None? && (forall k :: j <= k < |chain| ==> NoMatch(data[chain[k]], name) && AllLive(data[chain[k]]))
  }

  lemma ChainSector(fat: seq<int>, data: seq<Sector>, objs: Objs, own: Own, d: int, j: int)
    requires Inv(fat, data, objs, own) && d in objs && objs[d].isDir && 0 <= j < |objs[d].chain|
    ensures ROOT <= objs[d].chain[j] <= MAX_ALLOC && |objs[d].chain| <= DIR_CLUSTERS_MAX
    ensures NoEnd(data[objs[d].chain[j]]) || EndTail(data[objs[d].chain[j]])
  {
    assert ShapeOk(data, objs[d]) && TailOk(data, objs[d].chain);
    ChainOwned(fat, objs, own, d, j);
  }

  lemma {:induction false} ScanChain(fat: seq<int>, data: seq<Sector>, objs: Objs, own: Own,
                                     d: int, j: nat, name: Name, free: Option<(int, nat)>)
    requires Inv(fat, data, objs, own) && d in objs && objs[d].isDir && j < |objs[d].chain| <= DIR_CLUSTERS_MAX
    requires InArea(objs[d].chain)
    ensures Reports(Scan(fat, data, objs[d].chain[j], DIR_CLUSTERS_MAX - j, name, free), data, objs[d].chain, j, name, free)
    decreases |objs[d].chain| - j
  {
    hide FatInv, TreeInv, DirInv, NoEnd, EndTail, Reports, FreeAfter, Outcome, MatchIn;
    var chain := objs[d].chain;
    ChainSector(fat, data, objs, own, d, j);
    LinkOf(fat, objs, own, d, j);
    var c := chain[j];
    var free' := FreeAfter(data[c], c, free);
    if MatchIn(data[c], name, 0).Some? {
      ReportFound(data, chain, j, name, free);
    } else if j < |chain| - 1 {
      ScanChain(fat, data, objs, own, d, j + 1, name, free');
      ReportNext(Scan(fat, data, chain[j + 1], DIR_CLUSTERS_MAX - (j + 1), name, free'), data, chain, j, name, free);
    } else {
      ReportLast(data, chain, j, name, free);
    }
  }

  lemma ReportFound(data: seq<Sector>, chain: seq<int>, j: nat, name: Name, free: Option<(int, nat)>)
    requires |data| == FAT_ENTRIES && InArea(chain) && j < |chain|
    requires MatchIn(data[chain[j]], name, 0).Some?
    ensures Reports(Found(chain[j], MatchIn(data[chain[j]], name, 0).value), data, chain, j, name, free)
  {
    hide MatchIn, VacantIn;
  }

  lemma ReportNext(r: Lookup, data: seq<Sector>, chain: seq<int>, j: nat, name: Name, free: Option<(int, nat)>)
    requires |data| == FAT_ENTRIES && InArea(chain) && j < |chain| - 1
    requires MatchIn(data[chain[j]], name, 0).None? && (NoEnd(data[chain[j]]) || EndTail(data[chain[j]]))
    requires Reports(r, data, chain, j + 1, name, FreeAfter(data[chain[j]], chain[j], free))
    ensures Reports(r, data, chain, j, name, free)
  {
    hide MatchIn, VacantIn;
    assert NoMatch(data[chain[j]], name);
    assert VacantIn(data[chain[j]], 0).None? ==> AllLive(data[chain[j]]);
  }

  lemma ReportLast(data: seq<Sector>, chain: seq<int>, j: nat, name: Name, free: Option<(int, nat)>)
    requires |data| == FAT_ENTRIES && InArea(chain) && j == |chain| - 1
    requires MatchIn(data[chain[j]], name, 0).None? && (NoEnd(data[chain[j]]) || EndTail(data[chain[j]]))
    ensures Reports(Outcome(FreeAfter(data[chain[j]], chain[j], free)), data, chain, j, name, free)
  {
    hide MatchIn, VacantIn;
    assert NoMatch(data[chain[j]], name);
    assert VacantIn(data[chain[j]], 0).None? ==> AllLive(data[chain[j]]);
  }

  /** What a lookup of `name` in directory `d` says about the tree. */
  ghost predicate LookupMeans(r: Lookup, data: seq<Sector>, objs: Objs, own: Own, d: int, name: Name)
    requires |data| == FAT_ENTRIES && d in objs
  {
    match r
    case Found(c, i) =>
      && ROOT <= c <= MAX_ALLOC && i < SLOTS && SlotAt(data[c], i).Live?
      && var o := SlotAt(data[c], i).cluster;
         o in objs && Child(objs, d, name) == Some(o) && objs[o].at == c && objs[o].col == i
    case Vacant(c, i) =>
      && Child(objs, d, name).None?
      && IsDirCluster(objs, own, c) && own[c].obj == d && Reusable(data[c], i)
    case Full =>
      && Child(objs, d, name).None?
      && InArea(objs[d].chain)
      && forall j :: 0 <= j < |objs[d].chain| ==> AllLive(data[objs[d].chain[j]]) && NoMatch(data[objs[d].chain[j]], name)
  }

  /** The lookup of `name` in directory `d`, as a question about the tree. */
  lemma ScanChild(fat: seq<int>, data: seq<Sector>, objs: Objs, own: Own, d: int, n: nat, name: Name)
    requires Inv(fat, data, objs, own) && d in objs && objs[d].isDir && n == DIR_CLUSTERS_MAX
    ensures LookupMeans(Scan(fat, data, d, n, name, None), data, objs, own, d, name)
  {
    hide FatInv, TreeInv, DirInv, Reports, LookupMeans;
    DirStart(fat, data, objs, own, d);
    ScanChain(fat, data, objs, own, d, 0, name, None);
    ReportMeans(fat, data, objs, own, d, name, Scan(fat, data, d, n, name, None));
  }

  /** The lookup as the service runs it, over at most 128 clusters. */
  function Look(fat: seq<int>, data: seq<Sector>, d: int, name: Name): Lookup
    requires |fat| == |data| == FAT_ENTRIES
  {
    Scan(fat, data, d, DIR_CLUSTERS_MAX, name, None)
  }

  lemma LookIs(fat: seq<int>, data: seq<Sector>, d: int, n: nat, name: Name)
    requires |fat| == |data| == FAT_ENTRIES && n == DIR_CLUSTERS_MAX
    ensures Look(fat, data, d, name) == Scan(fat, data, d, n, name, None)
  {
  }

  lemma LookChild(fat: seq<int>, data: seq<Sector>, objs: Objs, own: Own, d: int, n: nat, name: Name)
    requires |fat| == |data| == FAT_ENTRIES && n == DIR_CLUSTERS_MAX
    requires Inv(fat, data, objs, own) && d in objs && objs[d].isDir
    ensures LookupMeans(Look(fat, data, d, name), data, objs, own, d, name)
  {
    hide Inv, Look, Scan, LookupMeans;
    LookIs(fat, data, d, n, name);
    ScanChild(fat, data, objs, own, d, n, name);
  }

  lemma DirStart(fat: seq<int>, data: seq<Sector>, objs: Objs, own: Own, d: int)
    requires Inv(fat, data, objs, own) && d in objs && objs[d].isDir
    ensures 0 < |objs[d].chain| <= DIR_CLUSTERS_MAX && objs[d].chain[0] == d && InArea(objs[d].chain)
  {
    assert ChainOk(fat, own, d, objs[d].chain) && ShapeOk(data, objs[d]);
  }

  lemma ReportMeans(fat: seq<int>, data: seq<Sector>, objs: Objs, own: Own, d: int, name: Name, r: Lookup)
    requires Inv(fat, data, objs, own) && d in objs && objs[d].isDir && InArea(objs[d].chain)
    requires Reports(r, data, objs[d].chain, 0, name, None)
    ensures LookupMeans(r, data, objs, own, d, name)
  {
    hide FatInv, TreeInv, DirInv, NoMatch;
    var chain := objs[d].chain;
    if !r.Full? {
      var k :| 0 <= k < |chain| && chain[k] == r.cluster;
      ChainOwned(fat, objs, own, d, k);
    }
    if r.Found? {
      SlotIsChild(fat, data, objs, own, d, r.cluster, r.slot);
    } else if Child(objs, d, name).Some? {
      var o := Child(objs, d, name).value;
      ChildHasSlot(fat, data, objs, own, d, o);
      assert NoMatch(data[objs[o].at], name) by {
        var k := own[objs[o].at].idx;
        assert chain[k] == objs[o].at;
      }
      NoMatchAt(data[objs[o].at], name, objs[o].col);
    }
  }

  lemma NoMatchAt(s: Sector, name: Name, i: nat)
    requires NoMatch(s, name) && i < SLOTS && SlotAt(s, i).Live?
    ensures SlotAt(s, i).name != name
  {
  }

  lemma SlotIsChild(fat: seq<int>, data: seq<Sector>, objs: Objs, own: Own, d: int, c: int, i: nat)
    requires Inv(fat, data, objs, own) && IsDirCluster(objs, own, c) && own[c].obj == d
    requires i < SLOTS && SlotAt(data[c], i).Live?
    ensures var o := SlotAt(data[c], i).cluster;
            o in objs && objs[o].at == c && objs[o].col == i && Child(objs, d, SlotAt(data[c], i).name) == Some(o)
  {
    assert SlotsOk(data, objs, c);
    var o := SlotAt(data[c], i).cluster;
    assert EntryOk(data, objs, own, o);
    assert IsChild(objs, o, d, SlotAt(data[c], i).name);
  }

  lemma ChildHasSlot(fat: seq<int>, data: seq<Sector>, objs: Objs, own: Own, d: int, o: int)
    requires Inv(fat, data, objs, own) && o in objs && o != ROOT && objs[o].parent == d
    ensures EntryOk(data, objs, own, o) && IsDirCluster(objs, own, objs[o].at)
    ensures d in objs && own[objs[o].at].idx < |objs[d].chain| && objs[d].chain[own[objs[o].at].idx] == objs[o].at
  {
    EntryDir(fat, data, objs, own, o);
  }

  /** When the directory already has as many clusters as the walk visits, nothing
      linked behind them is ever found: the same full directory is reported. */
  lemma {:induction false} OverflowScan(fat': seq<int>, data': seq<Sector>,
                     chain: seq<int>, j: int, name: Name)
    requires |fat'| == |data'| == FAT_ENTRIES && InArea(chain)
    requires |chain| == DIR_CLUSTERS_MAX && 0 <= j < |chain|
    requires forall k :: 0 <= k < |chain| ==> AllLive(data'[chain[k]]) && NoMatch(data'[chain[k]], name)
    requires forall k :: 0 <= k < |chain| - 1 ==> Step(fat', chain, k)
    ensures Scan(fat', data', chain[j], DIR_CLUSTERS_MAX - j, name, None) == Full
    decreases |chain| - j
  {
    assert NoEnd(data'[chain[j]]);
    assert AllLive(data'[chain[j]]) && NoMatch(data'[chain[j]], name);
    if j < |chain| - 1 {
      assert Step(fat', chain, j);
      OverflowScan(fat', data', chain, j + 1, name);
    }
  }

  ghost predicate Step(fat: seq<int>, chain: seq<int>, k: int)
    requires |fat| == FAT_ENTRIES && InArea(chain) && 0 <= k < |chain| - 1
  {
    fat[chain[k]] == chain[k + 1] && IsLink(chain[k + 1])
  }
}
