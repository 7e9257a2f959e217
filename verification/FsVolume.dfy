/** What it means for the allocation table and the directory clusters to
    describe one tree: the invariant of the volume, and the table updates and
    directory writes that keep it. */
module FsVolume {
  import opened FsLayout
  import opened FsTree

  /** A cluster's place: link `idx` of the chain of object `obj`. */
  datatype Pos = Pos(obj: int, idx: nat)
  type Own = map<int, Pos>

  /** Clusters 2..8191. */
  const CLUSTERS := 8190

  // ---- allocation table ----

  ghost predicate UsedIffOwned(fat: seq<int>, own: Own)
    requires |fat| == FAT_ENTRIES
  {
    forall c :: ROOT <= c <= MAX_ALLOC ==> (c in own <==> fat[c] != FREE)
  }

  /** Every owned cluster has a place in a chain. */
  ghost predicate Placed(objs: Objs, own: Own) {
    forall c :: c in own ==>
      && ROOT <= c <= MAX_ALLOC
      && own[c].obj in objs
      && own[c].idx < |objs[own[c].obj].chain|
      && objs[own[c].obj].chain[own[c].idx] == c
  }

  ghost predicate Link(fat: seq<int>, chain: seq<int>, i: int)
    requires |fat| == FAT_ENTRIES && InArea(chain) && 0 <= i < |chain|
  {
    fat[chain[i]] == if i == |chain| - 1 then EOC else chain[i + 1]
  }

  /** The chain of `o` starts at `o`, follows the links to EOC, and each of its
      clusters is owned at that place and no other. */
  ghost predicate ChainOk(fat: seq<int>, own: Own, o: int, chain: seq<int>)
    requires |fat| == FAT_ENTRIES
  {
    && |chain| > 0 && chain[0] == o && InArea(chain)
    && (forall i :: 0 <= i < |chain| ==> chain[i] in own && own[chain[i]] == Pos(o, i))
    && (forall i :: 0 <= i < |chain| ==> Link(fat, chain, i))
  }

  /** The table links exactly the chains of the objects: every used cluster has
      one place in one chain, chains follow the links and end in EOC, and every
      other cluster is free. */
  ghost predicate FatInv(fat: seq<int>, objs: Objs, own: Own) {
    && |fat| == FAT_ENTRIES
    && ROOT in objs
    && UsedIffOwned(fat, own)
    && Placed(objs, own)
    && (forall o :: o in objs ==> ChainOk(fat, own, o, objs[o].chain))
  }

  lemma ChainFrame(fat: seq<int>, own: Own, fat': seq<int>, own': Own, o: int, chain: seq<int>)
    requires |fat| == |fat'| == FAT_ENTRIES && ChainOk(fat, own, o, chain)
    requires forall i :: 0 <= i < |chain| ==>
               chain[i] in own' && own'[chain[i]] == own[chain[i]] && fat'[chain[i]] == fat[chain[i]]
    ensures ChainOk(fat', own', o, chain)
  {
    forall i | 0 <= i < |chain| ensures Link(fat', chain, i) {
      assert Link(fat, chain, i);
    }
  }

  lemma ChainDistinct(fat: seq<int>, objs: Objs, own: Own, o: int)
    requires FatInv(fat, objs, own) && o in objs
    ensures forall i :: 0 <= i < |objs[o].chain| && (o != ROOT || i > 0) ==> objs[o].chain[i] >= MIN_ALLOC
    ensures forall i, j :: 0 <= i < j < |objs[o].chain| ==> objs[o].chain[i] != objs[o].chain[j]
  {
    var chain := objs[o].chain;
    assert ChainOk(fat, own, ROOT, objs[ROOT].chain) && ChainOk(fat, own, o, chain);
    assert own[ROOT] == Pos(ROOT, 0);
    forall i, j | 0 <= i < j < |chain| ensures chain[i] != chain[j] {
      assert own[chain[i]] == Pos(o, i) && own[chain[j]] == Pos(o, j);
    }
  }

  /** A free cluster exists exactly while fewer than all clusters are owned. */
  lemma FreeCount(fat: seq<int>, objs: Objs, own: Own)
    requires FatInv(fat, objs, own)
    ensures |own| <= CLUSTERS
    ensures |own| < CLUSTERS <==> exists c :: MIN_ALLOC <= c <= MAX_ALLOC && fat[c] == FREE
  {
    KeysWithin(own.Keys, ROOT, MAX_ALLOC + 1);
    assert |own| == |own.Keys|;
    assert ROOT in own by { assert ChainOk(fat, own, ROOT, objs[ROOT].chain); }
    if |own| < CLUSTERS {
      var c :| ROOT <= c < MAX_ALLOC + 1 && c !in own.Keys;
      assert fat[c] == FREE;
    }
  }

  lemma KeysWithin(s: set<int>, lo: int, hi: int)
    requires lo <= hi && forall c :: c in s ==> lo <= c < hi
    ensures |s| <= hi - lo
    ensures |s| < hi - lo <==> exists c :: lo <= c < hi && c !in s
  {
    var all := Interval(lo, hi);
    SubsetSize(s, all);
    if |s| < hi - lo {
      assert s != all;
    }
  }

  ghost function Interval(lo: int, hi: int): (s: set<int>)
    requires lo <= hi
    ensures forall c :: c in s <==> lo <= c < hi
    ensures |s| == hi - lo
    decreases hi - lo
  {
    if lo == hi then {} else Interval(lo, hi - 1) + {hi - 1}
  }

  lemma {:induction false} SubsetSize<T>(a: set<T>, b: set<T>)
    requires a <= b
    ensures |a| <= |b| && (|a| == |b| ==> a == b)
    decreases a
  {
    if |a| != 0 {
      var x :| x in a;
      SubsetSize(a - {x}, b - {x});
    }
  }

  /** Free clusters start no chain. */
  lemma FreeUnowned(fat: seq<int>, objs: Objs, own: Own, n: int)
    requires FatInv(fat, objs, own)
    requires MIN_ALLOC <= n <= MAX_ALLOC && fat[n] == FREE
    ensures n !in own && n !in objs
  {
    assert n in objs ==> ChainOk(fat, own, n, objs[n].chain);
  }

  lemma GrowChain(fat: seq<int>, own: Own, o: int, chain: seq<int>, n: int)
    requires |fat| == FAT_ENTRIES && ChainOk(fat, own, o, chain)
    requires ROOT <= n <= MAX_ALLOC && n !in own
    ensures ChainOk(fat[chain[|chain| - 1] := n][n := EOC], own[n := Pos(o, |chain|)], o, chain + [n])
  {
    var fat', chain' := fat[chain[|chain| - 1] := n][n := EOC], chain + [n];
    forall i | 0 <= i < |chain'| ensures Link(fat', chain', i) {
      if i < |chain| - 1 {
        assert Link(fat, chain, i);
        assert own[chain[i]] == Pos(o, i) && own[chain[|chain| - 1]] == Pos(o, |chain| - 1);
      }
    }
  }

  /** Chains that avoid the changed clusters keep their links. */
  lemma OthersKept(fat: seq<int>, objs: Objs, own: Own, fat': seq<int>, own': Own, o: int, u: int)
    requires FatInv(fat, objs, own) && u in objs && u != o && |fat'| == FAT_ENTRIES
    requires forall c :: c in own && own[c].obj != o ==> c in own' && own'[c] == own[c] && fat'[c] == fat[c]
    ensures ChainOk(fat', own', u, objs[u].chain)
  {
    assert ChainOk(fat, own, u, objs[u].chain);
    ChainFrame(fat, own, fat', own', u, objs[u].chain);
  }

  lemma AddPlaced(objs: Objs, own: Own, o: int, x: Obj, n: int)
    requires Placed(objs, own) && ROOT <= n <= MAX_ALLOC && |x.chain| > 0 && x.chain[|x.chain| - 1] == n
    requires n !in own && if o in objs then x.chain[..|x.chain| - 1] == objs[o].chain else |x.chain| == 1
    ensures Placed(objs[o := x], own[n := Pos(o, |x.chain| - 1)])
  {
    var objs', own' := objs[o := x], own[n := Pos(o, |x.chain| - 1)];
    forall c | c in own'
      ensures own'[c].obj in objs' && own'[c].idx < |objs'[own'[c].obj].chain| && objs'[own'[c].obj].chain[own'[c].idx] == c
    {
      if c != n && own[c].obj == o {
        assert x.chain[..|x.chain| - 1][own[c].idx] == c;
      }
    }
  }

  /** Linking a free cluster to the end of a chain. */
  lemma Grow(fat: seq<int>, objs: Objs, own: Own, o: int, n: int)
    requires FatInv(fat, objs, own) && o in objs
    requires MIN_ALLOC <= n <= MAX_ALLOC && fat[n] == FREE
    ensures n !in own && n !in objs && ChainOk(fat, own, o, objs[o].chain)
    ensures var chain := objs[o].chain;
            && FatInv(fat[chain[|chain| - 1] := n][n := EOC],
                      objs[o := objs[o].(chain := chain + [n])], own[n := Pos(o, |chain|)])
            && |own[n := Pos(o, |chain|)]| == |own| + 1
  {
    var chain := objs[o].chain;
    FreeUnowned(fat, objs, own, n);
    assert ChainOk(fat, own, o, chain);
    var last := chain[|chain| - 1];
    assert own[last] == Pos(o, |chain| - 1);
    var fat', x := fat[last := n][n := EOC], objs[o].(chain := chain + [n]);
    var own' := own[n := Pos(o, |chain|)];
    forall u | u in objs && u != o ensures ChainOk(fat', own', u, objs[u].chain) {
      OthersKept(fat, objs, own, fat', own', o, u);
    }
    GrowChain(fat, own, o, chain, n);
    AddPlaced(objs, own, o, x, n);
    MapPlus(own, n, Pos(o, |chain|));
  }

  lemma MapPlus(m: Own, n: int, x: Pos)
    requires n !in m
    ensures |m[n := x]| == |m| + 1
  {
    assert m[n := x].Keys == m.Keys + {n};
    assert |m[n := x]| == |m[n := x].Keys|;
  }

  /** Starting a new chain at a free cluster. */
  lemma Start(fat: seq<int>, objs: Objs, own: Own, n: int, x: Obj)
    requires FatInv(fat, objs, own)
    requires MIN_ALLOC <= n <= MAX_ALLOC && fat[n] == FREE && x.chain == [n]
    ensures n !in objs && n !in own
    ensures FatInv(fat[n := EOC], objs[n := x], own[n := Pos(n, 0)])
    ensures |own[n := Pos(n, 0)]| == |own| + 1
  {
    FreeUnowned(fat, objs, own, n);
    var fat', own' := fat[n := EOC], own[n := Pos(n, 0)];
    forall u | u in objs ensures ChainOk(fat', own', u, objs[u].chain) {
      OthersKept(fat, objs, own, fat', own', n, u);
    }
    assert Link(fat', x.chain, 0);
    AddPlaced(objs, own, n, x, n);
    MapPlus(own, n, Pos(n, 0));
  }

  /** The table with every cluster of `dead` free. */
  ghost function Freed(fat: seq<int>, dead: set<int>): (f: seq<int>)
    ensures |f| == |fat|
    ensures forall c :: 0 <= c < |fat| ==> f[c] == if c in dead then FREE else fat[c]
  {
    seq(|fat|, c requires 0 <= c < |fat| => if c in dead then FREE else fat[c])
  }

  /** The clusters object `o` owns from link `k` of its chain on. */
  ghost function Tail(own: Own, o: int, k: int): (s: set<int>)
    ensures s <= own.Keys
  {
    set c | c in own && own[c].obj == o && own[c].idx >= k
  }

  lemma {:induction false} TailSize(fat: seq<int>, objs: Objs, own: Own, o: int, k: int)
    requires FatInv(fat, objs, own) && o in objs && 0 <= k <= |objs[o].chain|
    ensures |Tail(own, o, k)| == |objs[o].chain| - k
    decreases |objs[o].chain| - k
  {
    var chain := objs[o].chain;
    assert ChainOk(fat, own, o, chain);
    if k == |chain| {
      assert forall c :: c in Tail(own, o, k) ==> own[c].idx < |chain|;
      assert Tail(own, o, k) == {};
    } else {
      TailSize(fat, objs, own, o, k + 1);
      assert own[chain[k]] == Pos(o, k);
      TailStep(objs, own, o, k);
    }
  }

  lemma TailStep(objs: Objs, own: Own, o: int, k: int)
    requires Placed(objs, own) && o in objs && 0 <= k < |objs[o].chain|
    requires objs[o].chain[k] in own && own[objs[o].chain[k]] == Pos(o, k)
    ensures Tail(own, o, k) == Tail(own, o, k + 1) + {objs[o].chain[k]}
    ensures objs[o].chain[k] !in Tail(own, o, k + 1)
  {
    forall c | c in own ensures c in Tail(own, o, k) <==> c in Tail(own, o, k + 1) || c == objs[o].chain[k] {
      assert own[c].obj == o && own[c].idx == k ==> c == objs[o].chain[k];
    }
  }

  lemma MapMinus(m: Own, s: set<int>)
    requires s <= m.Keys
    ensures |m - s| == |m| - |s|
  {
    assert (m - s).Keys == m.Keys - s;
    assert |m.Keys - s| == |m.Keys| - |s|;
  }

  /** Dropping the clusters of a chain from `k` on: who owns what afterwards. */
  lemma Cut(fat: seq<int>, objs: Objs, own: Own, o: int, k: int)
    requires FatInv(fat, objs, own) && o in objs && 0 <= k <= |objs[o].chain|
    ensures var dead := Tail(own, o, k);
            && UsedIffOwned(Freed(fat, dead), own - dead)
            && |own - dead| == |own| - (|objs[o].chain| - k)
            && (forall u :: u in objs && u != o ==> ChainOk(Freed(fat, dead), own - dead, u, objs[u].chain))
  {
    var dead := Tail(own, o, k);
    TailSize(fat, objs, own, o, k);
    MapMinus(own, dead);
    forall u | u in objs && u != o ensures ChainOk(Freed(fat, dead), own - dead, u, objs[u].chain) {
      OthersKept(fat, objs, own, Freed(fat, dead), own - dead, o, u);
    }
  }

  /** Cutting a chain back to its first cluster. */
  lemma Truncate(fat: seq<int>, objs: Objs, own: Own, o: int)
    requires FatInv(fat, objs, own) && o in objs
    ensures ROOT <= o <= MAX_ALLOC && |objs[o].chain| > 0
    ensures var dead := Tail(own, o, 1);
            && FatInv(Freed(fat, dead)[o := EOC], objs[o := objs[o].(chain := [o])], own - dead)
            && |own - dead| == |own| - (|objs[o].chain| - 1)
  {
    hide Placed, Tail;
    assert ChainOk(fat, own, o, objs[o].chain);
    var dead, x := Tail(own, o, 1), objs[o].(chain := [o]);
    Cut(fat, objs, own, o, 1);
    assert x.chain == objs[o].chain[..1];
    CutPlaced(objs, own, o, 1, x);
    TruncateChains(fat, objs, own, o);
  }

  lemma CutPlaced(objs: Objs, own: Own, o: int, k: int, x: Obj)
    requires Placed(objs, own) && o in objs && 0 <= k <= |objs[o].chain| && x.chain == objs[o].chain[..k]
    ensures Placed(objs[o := x], own - Tail(own, o, k))
  {
  }

  lemma TruncateChains(fat: seq<int>, objs: Objs, own: Own, o: int)
    requires FatInv(fat, objs, own) && o in objs && ROOT <= o <= MAX_ALLOC
    ensures var fat', own' := Freed(fat, Tail(own, o, 1))[o := EOC], own - Tail(own, o, 1);
            && UsedIffOwned(fat', own') && ChainOk(fat', own', o, [o])
            && forall u :: u in objs && u != o ==> ChainOk(fat', own', u, objs[u].chain)
  {
    assert ChainOk(fat, own, o, objs[o].chain);
    assert own[o] == Pos(o, 0);
    Cut(fat, objs, own, o, 1);
    var fat1, own' := Freed(fat, Tail(own, o, 1)), own - Tail(own, o, 1);
    var fat' := fat1[o := EOC];
    forall u | u in objs && u != o ensures ChainOk(fat', own', u, objs[u].chain) {
      assert ChainOk(fat, own, u, objs[u].chain);
      ChainFrame(fat1, own', fat', own', u, objs[u].chain);
    }
    assert Link(fat', [o], 0);
  }

  /** Freeing a whole chain and forgetting its object. */
  lemma Release(fat: seq<int>, objs: Objs, own: Own, o: int)
    requires FatInv(fat, objs, own) && o in objs && o != ROOT
    ensures var dead := Tail(own, o, 0);
            && FatInv(Freed(fat, dead), objs - {o}, own - dead)
            && |own - dead| == |own| - |objs[o].chain|
  {
    Cut(fat, objs, own, o, 0);
  }
}
