/** The directory tree as a flat table of objects keyed by first cluster, the
    meaning of a path in it, and how that meaning changes when one object is
    added, removed or rewritten. */
module FsTree {
  import opened Bytes
  import opened FsLayout

  type Name = seq<Byte>
  type Path = seq<Name>

  /** A file or directory: where its entry sits (slot `col` of cluster `at` in
      directory `parent`), and the clusters and size it has. */
  datatype Obj = Obj(isDir: bool, parent: int, name: Name, at: int, col: nat,
                     depth: nat, size: nat, chain: seq<int>)
  type Objs = map<int, Obj>

  /** Every object but the root hangs below a shallower directory, and no two
      children of a directory share a name. */
  ghost predicate TreeInv(objs: Objs) {
    && ROOT in objs && objs[ROOT].isDir
    && (forall o :: o in objs && o != ROOT ==>
          && objs[o].parent in objs && objs[objs[o].parent].isDir
          && objs[objs[o].parent].depth < objs[o].depth)
    && (forall o, u | o in objs && u in objs && o != ROOT && u != ROOT &&
            objs[o].parent == objs[u].parent && objs[o].name == objs[u].name :: o == u)
  }

  ghost predicate IsChild(objs: Objs, o: int, d: int, name: Name) {
    o in objs && o != ROOT && objs[o].parent == d && objs[o].name == name
  }

  /** The child of directory `d` called `name`. */
  ghost function Child(objs: Objs, d: int, name: Name): (r: Option<int>)
    ensures r.Some? ==> IsChild(objs, r.value, d, name)
    ensures r.None? ==> forall o :: !IsChild(objs, o, d, name)
  {
    if o: int :| IsChild(objs, o, d, name) then Some(o) else None
  }

  /** The object a path names, following children from the root. */
  ghost function Resolve(objs: Objs, p: Path): (r: Option<int>) {
    if p == [] then Some(ROOT)
    else
      var d := Resolve(objs, p[..|p| - 1]);
      if d.Some? && d.value in objs && objs[d.value].isDir then Child(objs, d.value, p[|p| - 1]) else None
  }

  lemma ResolveIn(objs: Objs, p: Path)
    requires TreeInv(objs)
    ensures Resolve(objs, p).Some? ==> Resolve(objs, p).value in objs
  {
  }

  /** Two paths to one object are the same path. */
  lemma {:induction false} PathUnique(objs: Objs, p: Path, q: Path)
    requires TreeInv(objs)
    requires Resolve(objs, p).Some? && Resolve(objs, p) == Resolve(objs, q)
    ensures p == q
    decreases |p|
  {
    if p != [] && q != [] {
      PathUnique(objs, p[..|p| - 1], q[..|q| - 1]);
      assert p == p[..|p| - 1] + [p[|p| - 1]] && q == q[..|q| - 1] + [q[|q| - 1]];
    }
  }

  /** The path of an object, climbing to the root. */
  ghost function PathOf(objs: Objs, o: int): (p: Path)
    requires TreeInv(objs) && o in objs
    decreases objs[o].depth
  {
    if o == ROOT then [] else PathOf(objs, objs[o].parent) + [objs[o].name]
  }

  /** Every object is reachable from the root, along its own path. */
  lemma {:induction false} PathOfResolves(objs: Objs, o: int)
    requires TreeInv(objs) && o in objs
    ensures Resolve(objs, PathOf(objs, o)) == Some(o)
    decreases objs[o].depth
  {
    if o != ROOT {
      var d := objs[o].parent;
      PathOfResolves(objs, d);
      var p := PathOf(objs, o);
      assert p[..|p| - 1] == PathOf(objs, d);
      assert IsChild(objs, o, d, objs[o].name);
    }
  }

  // ---- what a reader sees ----

  datatype Val = Directory | File(bytes: seq<Byte>)

  ghost predicate InArea(chain: seq<int>) {
    forall i :: 0 <= i < |chain| ==> ROOT <= chain[i] <= MAX_ALLOC
  }

  /** The bytes of a chain of clusters, one after another. */
  ghost function Flatten(data: seq<Sector>, chain: seq<int>): (b: seq<Byte>)
    requires |data| == FAT_ENTRIES && InArea(chain)
    ensures |b| == BLOCK * |chain|
    ensures forall k :: 0 <= k < |b| ==> b[k] == data[chain[k / BLOCK]][k % BLOCK]
  {
    seq(BLOCK * |chain|, k requires 0 <= k < BLOCK * |chain| => data[chain[k / BLOCK]][k % BLOCK])
  }

  ghost predicate Sized(x: Obj) {
    InArea(x.chain) && x.size <= BLOCK * |x.chain|
  }

  ghost function ValOf(data: seq<Sector>, x: Obj): Val
    requires |data| == FAT_ENTRIES && Sized(x)
  {
    if x.isDir then Directory else File(Flatten(data, x.chain)[..x.size])
  }

  ghost predicate AllSized(objs: Objs) {
    forall o :: o in objs ==> Sized(objs[o])
  }

  /** The value a path names, if any. */
  ghost function At(data: seq<Sector>, objs: Objs, p: Path): Option<Val>
    requires |data| == FAT_ENTRIES && TreeInv(objs) && AllSized(objs)
  {
    ResolveIn(objs, p);
    var r := Resolve(objs, p);
    if r.Some? then Some(ValOf(data, objs[r.value])) else None
  }

  /** The file system as a map from paths to values. */
  ghost function Contents(data: seq<Sector>, objs: Objs): (m: imap<Path, Val>)
    requires |data| == FAT_ENTRIES && TreeInv(objs) && AllSized(objs)
    ensures forall p: Path :: p in m <==> At(data, objs, p).Some?
    ensures forall p: Path :: p in m ==> m[p] == At(data, objs, p).value
  {
    imap p: Path | At(data, objs, p).Some? :: At(data, objs, p).value
  }

  lemma UpdateMap(m: imap<Path, Val>, after: imap<Path, Val>, p: Path, v: Val)
    requires forall q: Path :: q in after <==> q in m || q == p
    requires forall q: Path :: q in after ==> after[q] == if q == p then v else m[q]
    ensures after == m[p := v]
  {
  }

  lemma RemoveMap(m: imap<Path, Val>, after: imap<Path, Val>, p: Path)
    requires forall q: Path :: q in after <==> q in m && q != p
    requires forall q: Path :: q in after ==> after[q] == m[q]
    ensures after == m - {p}
  {
  }

  ghost predicate SamePlace(x: Obj, y: Obj) {
    x.isDir == y.isDir && x.parent == y.parent && x.name == y.name
  }

  ghost predicate SameShape(objs: Objs, after: Objs) {
    objs.Keys == after.Keys && forall o :: o in objs ==> SamePlace(objs[o], after[o])
  }

  lemma {:induction false} ResolveSame(objs: Objs, after: Objs, p: Path)
    requires TreeInv(objs) && TreeInv(after) && SameShape(objs, after)
    ensures Resolve(after, p) == Resolve(objs, p)
    decreases |p|
  {
    if p != [] {
      ResolveSame(objs, after, p[..|p| - 1]);
      var d := Resolve(objs, p[..|p| - 1]);
      if d.Some? && d.value in objs && objs[d.value].isDir {
        ChildSame(objs, after, d.value, p[|p| - 1]);
      }
    }
  }

  lemma ChildSame(objs: Objs, after: Objs, d: int, name: Name)
    requires TreeInv(objs) && TreeInv(after) && SameShape(objs, after)
    ensures Child(after, d, name) == Child(objs, d, name)
  {
    assert forall o :: IsChild(objs, o, d, name) <==> IsChild(after, o, d, name);
  }

  /** Values agree on every object of the first table, except possibly `o`. */
  ghost predicate SameVals(data: seq<Sector>, objs: Objs, data': seq<Sector>, after: Objs, o: int)
    requires |data| == |data'| == FAT_ENTRIES && AllSized(objs) && AllSized(after)
  {
    forall u :: u in objs && u != o ==>
      u in after && SamePlace(objs[u], after[u]) && ValOf(data', after[u]) == ValOf(data, objs[u])
  }

  lemma AtUpdate(data: seq<Sector>, objs: Objs, data': seq<Sector>, after: Objs, o: int, p: Path, q: Path)
    requires |data| == |data'| == FAT_ENTRIES && AllSized(objs) && AllSized(after)
    requires TreeInv(objs) && TreeInv(after) && SameShape(objs, after)
    requires SameVals(data, objs, data', after, o)
    requires Resolve(objs, p) == Some(o) && o in objs
    ensures At(data', after, q) == if q == p then Some(ValOf(data', after[o])) else At(data, objs, q)
  {
    ResolveSame(objs, after, q);
    if Resolve(objs, q) == Some(o) {
      PathUnique(objs, p, q);
    } else if Resolve(objs, q).Some? {
      ResolveIn(objs, q);
    }
  }

  /** Rewriting the object at path `p` changes the value at `p` and nothing else. */
  lemma ContentsUpdate(data: seq<Sector>, objs: Objs, data': seq<Sector>, after: Objs, o: int, p: Path)
    requires |data| == |data'| == FAT_ENTRIES && AllSized(objs) && AllSized(after)
    requires TreeInv(objs) && TreeInv(after) && SameShape(objs, after)
    requires SameVals(data, objs, data', after, o)
    requires Resolve(objs, p) == Some(o) && o in objs
    ensures Contents(data', after) == Contents(data, objs)[p := ValOf(data', after[o])]
  {
    var m, m', v := Contents(data, objs), Contents(data', after), ValOf(data', after[o]);
    forall q: Path
      ensures (q in m' <==> q in m || q == p) && (q in m' ==> m'[q] == if q == p then v else m[q])
    {
      AtUpdate(data, objs, data', after, o, p, q);
    }
    UpdateMap(m, m', p, v);
  }

  /** The table has one more object, below `d` under a name not used there. */
  ghost predicate Added(objs: Objs, after: Objs, o: int, d: int, name: Name) {
    && o !in objs && after.Keys == objs.Keys + {o}
    && (forall u :: u in objs ==> SamePlace(objs[u], after[u]))
    && IsChild(after, o, d, name) && Child(objs, d, name).None?
  }

  lemma ChildAdded(objs: Objs, after: Objs, o: int, d: int, name: Name, e: int, m: Name)
    requires TreeInv(objs) && TreeInv(after) && Added(objs, after, o, d, name)
    ensures Child(after, e, m) == if e == d && m == name then Some(o) else Child(objs, e, m)
    ensures Child(objs, o, m).None?
  {
    assert forall u :: IsChild(after, u, e, m) <==> IsChild(objs, u, e, m) || (u == o && e == d && m == name);
    assert forall u :: !IsChild(objs, u, o, m);
  }

  lemma ResolveChild(objs: Objs, dp: Path, name: Name)
    requires Resolve(objs, dp).Some? && Resolve(objs, dp).value in objs && objs[Resolve(objs, dp).value].isDir
    ensures Resolve(objs, dp + [name]) == Child(objs, Resolve(objs, dp).value, name)
  {
    var p := dp + [name];
    assert p[..|p| - 1] == dp;
  }

  lemma {:induction false} ResolveAdded(objs: Objs, after: Objs, o: int, d: int, name: Name, dp: Path, q: Path)
    requires TreeInv(objs) && TreeInv(after) && Added(objs, after, o, d, name)
    requires Resolve(objs, dp) == Some(d) && d in objs && objs[d].isDir
    ensures Resolve(after, q) == if q == dp + [name] then Some(o) else Resolve(objs, q)
    decreases |q|
  {
    if q != [] {
      var q0, m := q[..|q| - 1], q[|q| - 1];
      assert q == q0 + [m];
      ResolveAdded(objs, after, o, d, name, dp, q0);
      ResolveAddedStep(objs, after, o, d, name, dp, q0, m);
    }
  }

  lemma ResolveAddedStep(objs: Objs, after: Objs, o: int, d: int, name: Name, dp: Path, q0: Path, m: Name)
    requires TreeInv(objs) && TreeInv(after) && Added(objs, after, o, d, name)
    requires Resolve(objs, dp) == Some(d) && d in objs && objs[d].isDir
    requires Resolve(after, q0) == if q0 == dp + [name] then Some(o) else Resolve(objs, q0)
    ensures Resolve(after, q0 + [m]) == if q0 + [m] == dp + [name] then Some(o) else Resolve(objs, q0 + [m])
  {
    var p, q := dp + [name], q0 + [m];
    ResolveChild(objs, dp, name);
    assert q[..|q| - 1] == q0 && p[..|p| - 1] == dp;
    ResolveIn(objs, q0);
    if q0 == p {
      ChildAdded(objs, after, o, d, name, o, m);
    } else if Resolve(objs, q0).Some? {
      var e := Resolve(objs, q0).value;
      ChildAdded(objs, after, o, d, name, e, m);
      if e == d { PathUnique(objs, q0, dp); }
    }
  }

  lemma AtAdded(data: seq<Sector>, objs: Objs, data': seq<Sector>, after: Objs, o: int, d: int, name: Name, dp: Path, q: Path)
    requires |data| == |data'| == FAT_ENTRIES && AllSized(objs) && AllSized(after)
    requires TreeInv(objs) && TreeInv(after) && Added(objs, after, o, d, name)
    requires SameVals(data, objs, data', after, o)
    requires Resolve(objs, dp) == Some(d) && d in objs && objs[d].isDir
    ensures At(data', after, q) == if q == dp + [name] then Some(ValOf(data', after[o])) else At(data, objs, q)
    ensures At(data, objs, dp + [name]).None?
  {
    ResolveChild(objs, dp, name);
    ResolveAdded(objs, after, o, d, name, dp, q);
    if Resolve(objs, q).Some? { ResolveIn(objs, q); }
  }

  /** Adding an object adds its path and changes no other. */
  lemma ContentsAdded(data: seq<Sector>, objs: Objs, data': seq<Sector>, after: Objs, o: int, d: int, name: Name, dp: Path)
    requires |data| == |data'| == FAT_ENTRIES && AllSized(objs) && AllSized(after)
    requires TreeInv(objs) && TreeInv(after) && Added(objs, after, o, d, name)
    requires SameVals(data, objs, data', after, o)
    requires Resolve(objs, dp) == Some(d) && d in objs && objs[d].isDir
    ensures dp + [name] !in Contents(data, objs)
    ensures Contents(data', after) == Contents(data, objs)[dp + [name] := ValOf(data', after[o])]
  {
    var m, m', p, v := Contents(data, objs), Contents(data', after), dp + [name], ValOf(data', after[o]);
    forall q: Path
      ensures (q in m' <==> q in m || q == p) && (q in m' ==> m'[q] == if q == p then v else m[q])
    {
      AtAdded(data, objs, data', after, o, d, name, dp, q);
    }
    AtAdded(data, objs, data', after, o, d, name, dp, p);
    UpdateMap(m, m', p, v);
  }

  /** Removing a childless object removes its path and changes no other. */
  lemma ContentsRemoved(data: seq<Sector>, objs: Objs, data': seq<Sector>, after: Objs, o: int, d: int, name: Name, dp: Path)
    requires |data| == |data'| == FAT_ENTRIES && AllSized(objs) && AllSized(after)
    requires TreeInv(objs) && TreeInv(after) && Added(after, objs, o, d, name)
    requires SameVals(data', after, data, objs, o)
    requires Resolve(objs, dp) == Some(d) && d in objs && objs[d].isDir
    ensures dp + [name] in Contents(data, objs)
    ensures Contents(data', after) == Contents(data, objs) - {dp + [name]}
  {
    ResolveBefore(objs, after, o, d, name, dp);
    var m, m', p := Contents(data, objs), Contents(data', after), dp + [name];
    AtAdded(data', after, data, objs, o, d, name, dp, p);
    forall q: Path
      ensures (q in m' <==> q in m && q != p) && (q in m' ==> m'[q] == m[q])
    {
      AtAdded(data', after, data, objs, o, d, name, dp, q);
    }
    RemoveMap(m, m', p);
  }

  /** The directory above a removed object keeps its path. */
  lemma ResolveBefore(objs: Objs, after: Objs, o: int, d: int, name: Name, dp: Path)
    requires TreeInv(objs) && TreeInv(after) && Added(after, objs, o, d, name)
    requires Resolve(objs, dp) == Some(d) && d in objs && objs[d].isDir
    ensures d in after && after[d].isDir && Resolve(after, dp) == Some(d)
  {
    assert d in after by {
      assert objs[o].parent == d && objs[d].depth < objs[o].depth;
    }
    PathOfResolves(after, d);
    var p := PathOf(after, d);
    ResolveAdded(after, objs, o, d, name, p, p);
    PathUnique(objs, p, dp);
  }
}
