/** How many entries a directory holds: at most 2048, and a create in a directory with 2048
    entries is exactly one whose entry no lookup finds. Such a directory is reached. */
module FsCapacity {
  import opened Bytes
  import opened FsLayout
  import opened FsTree
  import opened FsVolume
  import opened FsDirs
  import opened FsScan
  import opened FsPath
  import opened FsSpec
  import opened FsWrite
  import opened FsLookup
  import opened FsMap
  import opened FsUnseen
  import opened FsService
  import opened FsRuns

  const ENTRIES_MAX := 2048

  /** The map has exactly k paths directly below dp. */
  ghost predicate HasEntries(m: Tree, dp: Path, k: nat) {
    exists s: set<Name> :: EntriesAre(m, dp, s) && |s| == k
  }

  ghost predicate EntriesAre(m: Tree, dp: Path, s: set<Name>) {
    forall n: Name :: n in s <==> dp + [n] in m
  }

  lemma EntriesUnique(m: Tree, dp: Path, k: nat, l: nat)
    requires HasEntries(m, dp, k) && HasEntries(m, dp, l)
    ensures k == l
  {
    var s: set<Name> :| EntriesAre(m, dp, s) && |s| == k;
    var t: set<Name> :| EntriesAre(m, dp, t) && |t| == l;
    assert s == t;
  }

  ghost function Pick<T>(s: set<T>): (x: T)
    requires s != {}
    ensures x in s
  {
    var x :| x in s; x
  }

  // ---- children and slots ----

  ghost function Children(objs: Objs, d: int): set<int> {
    set o | o in objs && o != ROOT && objs[o].parent == d
  }

  /** The number of a child's slot among all slots of its directory. */
  ghost function SlotNumber(objs: Objs, own: Own, o: int): int
    requires o in objs && objs[o].at in own
  {
    SLOTS * own[objs[o].at].idx + objs[o].col
  }

  lemma SlotInside(fat: seq<int>, data: seq<Sector>, objs: Objs, own: Own, d: int, o: int)
    requires Inv(fat, data, objs, own) && d in objs && objs[d].isDir && o in Children(objs, d)
    ensures objs[o].at in own && 0 <= SlotNumber(objs, own, o) < SLOTS * |objs[d].chain|
    ensures InArea(objs[d].chain) && objs[o].col < SLOTS && objs[d].chain[SlotNumber(objs, own, o) / SLOTS] == objs[o].at
    ensures SlotNumber(objs, own, o) % SLOTS == objs[o].col && SlotAt(data[objs[o].at], objs[o].col).Live?
    ensures SlotAt(data[objs[o].at], objs[o].col).cluster == o
  {
    hide FatInv, TreeInv, DirInv, SlotAt;
    ChildHasSlot(fat, data, objs, own, d, o);
    DirStart(fat, data, objs, own, d);
    SlotDigits(own[objs[o].at].idx, objs[o].col);
  }

  lemma SlotDigits(j: nat, i: nat)
    requires i < SLOTS
    ensures (SLOTS * j + i) / SLOTS == j && (SLOTS * j + i) % SLOTS == i
  {
  }

  /** Children and live slots of a directory are in one-to-one correspondence. */
  lemma ChildCount(fat: seq<int>, data: seq<Sector>, objs: Objs, own: Own, d: int)
    requires Inv(fat, data, objs, own) && d in objs && objs[d].isDir
    ensures InArea(objs[d].chain) && |Children(objs, d)| <= SLOTS * |objs[d].chain|
    ensures |Children(objs, d)| == SLOTS * |objs[d].chain| <==> FullChain(data, objs[d].chain)
  {
    hide FatInv, TreeInv, DirInv, SlotAt, FullChain;
    DirStart(fat, data, objs, own, d);
    var kids, size := Children(objs, d), SLOTS * |objs[d].chain|;
    forall o | o in kids ensures objs[o].at in own && 0 <= SlotNumber(objs, own, o) < size {
      SlotInside(fat, data, objs, own, d, o);
    }
    var taken := Numbers(objs, own, kids);
    forall o, u | o in kids && u in kids && SlotNumber(objs, own, o) == SlotNumber(objs, own, u) ensures o == u {
      SlotInside(fat, data, objs, own, d, o);
      SlotInside(fat, data, objs, own, d, u);
    }
    NumbersCount(objs, own, kids);
    KeysWithin(taken, 0, size);
    TakenFull(fat, data, objs, own, d);
  }

  ghost function Numbers(objs: Objs, own: Own, kids: set<int>): set<int>
    requires forall o :: o in kids ==> o in objs && objs[o].at in own
  {
    set o | o in kids :: SlotNumber(objs, own, o)
  }

  lemma {:induction false} NumbersCount(objs: Objs, own: Own, kids: set<int>)
    requires forall o :: o in kids ==> o in objs && objs[o].at in own
    requires forall o, u :: o in kids && u in kids && SlotNumber(objs, own, o) == SlotNumber(objs, own, u) ==> o == u
    ensures |Numbers(objs, own, kids)| == |kids|
    decreases |kids|
  {
    hide SlotNumber;
    if kids != {} {
      var o := Pick(kids);
      var rest := kids - {o};
      NumbersCount(objs, own, rest);
      assert Numbers(objs, own, kids) == Numbers(objs, own, rest) + {SlotNumber(objs, own, o)};
      assert SlotNumber(objs, own, o) !in Numbers(objs, own, rest);
    }
  }

  /** Every slot is live exactly when every number is taken. */
  lemma TakenFull(fat: seq<int>, data: seq<Sector>, objs: Objs, own: Own, d: int)
    requires |data| == FAT_ENTRIES && Inv(fat, data, objs, own) && d in objs && objs[d].isDir && InArea(objs[d].chain)
    requires forall o :: o in Children(objs, d) ==> o in objs && objs[o].at in own
    ensures FullChain(data, objs[d].chain) <==> forall c :: 0 <= c < SLOTS * |objs[d].chain| ==> c in Numbers(objs, own, Children(objs, d))
  {
    hide Inv, SlotAt, SlotNumber;
    var chain, taken := objs[d].chain, Numbers(objs, own, Children(objs, d));
    forall c | 0 <= c < SLOTS * |chain| ensures c in taken <==> SlotAt(data[chain[c / SLOTS]], c % SLOTS).Live? {
      assert 0 <= c / SLOTS < |chain|;
      NumberLive(fat, data, objs, own, d, c);
    }
    if forall c :: 0 <= c < SLOTS * |chain| ==> c in taken {
      forall j, i | 0 <= j < |chain| && 0 <= i < SLOTS ensures SlotAt(data[chain[j]], i).Live? {
        SlotDigits(j, i);
        assert SLOTS * j + i in taken;
      }
    }
  }

  lemma NumberLive(fat: seq<int>, data: seq<Sector>, objs: Objs, own: Own, d: int, c: int)
    requires Inv(fat, data, objs, own) && d in objs && objs[d].isDir && InArea(objs[d].chain) && 0 <= c < SLOTS * |objs[d].chain| && 0 <= c / SLOTS < |objs[d].chain|
    requires forall o :: o in Children(objs, d) ==> o in objs && objs[o].at in own
    ensures c in Numbers(objs, own, Children(objs, d)) <==> SlotAt(data[objs[d].chain[c / SLOTS]], c % SLOTS).Live?
  {
    hide FatInv, TreeInv, DirInv, SlotAt;
    var chain := objs[d].chain;
    if c in Numbers(objs, own, Children(objs, d)) {
      var o :| o in Children(objs, d) && SlotNumber(objs, own, o) == c;
      SlotInside(fat, data, objs, own, d, o);
    }
    if SlotAt(data[chain[c / SLOTS]], c % SLOTS).Live? {
      ChainOwned(fat, objs, own, d, c / SLOTS);
      SlotIsChild(fat, data, objs, own, d, chain[c / SLOTS], c % SLOTS);
      var o := SlotAt(data[chain[c / SLOTS]], c % SLOTS).cluster;
      assert o in Children(objs, d) && SlotNumber(objs, own, o) == c;
    }
  }

  // ---- entries of the map ----

  lemma {:induction false} NamesCount(objs: Objs, kids: set<int>)
    requires forall o :: o in kids ==> o in objs
    requires forall o, u :: o in kids && u in kids && objs[o].name == objs[u].name ==> o == u
    ensures |set o | o in kids :: objs[o].name| == |kids|
    decreases |kids|
  {
    if kids != {} {
      var o := Pick(kids);
      var rest := kids - {o};
      NamesCount(objs, rest);
      var all, some := set u | u in kids :: objs[u].name, set u | u in rest :: objs[u].name;
      assert all == some + {objs[o].name};
      assert objs[o].name !in some;
    }
  }

  lemma MapCount(fat: seq<int>, data: seq<Sector>, objs: Objs, own: Own, dp: Path, d: int)
    requires Inv(fat, data, objs, own) && Resolve(objs, dp) == Some(d) && d in objs && objs[d].isDir
    ensures HasEntries(Mapped(fat, data, objs, own), dp, |Children(objs, d)|)
  {
    hide FatInv, DirInv, Mapped, Resolve, Child;
    var m, kids := Mapped(fat, data, objs, own), Children(objs, d);
    var names := set o | o in kids :: objs[o].name;
    NamesCount(objs, kids);
    forall n: Name ensures n in names <==> dp + [n] in m {
      MappedChild(fat, data, objs, own, dp, d, n);
      if n in names {
        var o :| o in kids && objs[o].name == n;
        assert IsChild(objs, o, d, n);
      }
      if Child(objs, d, n).Some? { assert IsChild(objs, Child(objs, d, n).value, d, n); }
    }
    assert EntriesAre(m, dp, names);
  }

  /** A directory holds at most 2048 entries; all its slots are taken exactly when it holds
      16 for each of its clusters. */
  lemma Capacity(fat: seq<int>, data: seq<Sector>, objs: Objs, own: Own, dp: Path, d: int, k: nat)
    requires Inv(fat, data, objs, own) && Resolve(objs, dp) == Some(d) && d in objs && objs[d].isDir
    requires HasEntries(Mapped(fat, data, objs, own), dp, k)
    ensures k <= SLOTS * |objs[d].chain| && |objs[d].chain| <= DIR_CLUSTERS_MAX && k <= ENTRIES_MAX
    ensures k == SLOTS * |objs[d].chain| <==> FullChain(data, objs[d].chain)
  {
    hide Inv, Mapped, Resolve, FullChain, HasEntries;
    MapCount(fat, data, objs, own, dp, d);
    EntriesUnique(Mapped(fat, data, objs, own), dp, k, |Children(objs, d)|);
    ChildCount(fat, data, objs, own, d);
    DirStart(fat, data, objs, own, d);
  }

  // ---- the service ----

  lemma DirectoryAt(fat: seq<int>, data: seq<Sector>, objs: Objs, own: Own, dp: Path)
    requires Inv(fat, data, objs, own) && dp in Mapped(fat, data, objs, own) && Mapped(fat, data, objs, own)[dp] == Directory
    ensures Resolve(objs, dp).Some? && Resolve(objs, dp).value in objs && objs[Resolve(objs, dp).value].isDir
  {
    hide FatInv, DirInv, Resolve;
    InvSized(fat, data, objs, own);
    ResolveIn(objs, dp);
  }

  lemma NoEntries(m: Tree, k: nat)
    requires m == imap[[] := Directory] && HasEntries(m, [], k)
    ensures k == 0
  {
    var s: set<Name> :| EntriesAre(m, [], s) && |s| == k;
    forall n: Name ensures n !in s {
      assert [] + [n] != [];
      assert n in s <==> [] + [n] in m;
    }
    assert s == {};
  }

  /** An entry made at a path is never found if and only if its name starts with the
      deletion mark or its directory has 2048 entries already. */
  lemma HiddenIff(fs: FileService, path: Text)
    requires fs.Valid() && fs.Target(path).Target?
    ensures fs.Hidden(path) <==>
              var t := fs.Target(path); (|t.name| > 0 && t.name[0] == 0xE5) || HasEntries(fs.View(), t.dir, ENTRIES_MAX)
  {
    hide Inv, Resolve, FullChain, HasEntries, Closed, Locate, Contents, Mapped;
    var t := fs.Target(path);
    ServiceClosed(fs);
    RootOf(fs.View());
    LocateClosed(fs.View(), Components(path, 0), []);
    if BootValid(fs.dev.blocks[0]) {
      var fat, data := Stored(fs.dev), fs.dev.Data();
      DirectoryAt(fat, data, fs.objs, fs.own, t.dir);
      var d := Resolve(fs.objs, t.dir).value;
      MapCount(fat, data, fs.objs, fs.own, t.dir, d);
      Capacity(fat, data, fs.objs, fs.own, t.dir, d, |Children(fs.objs, d)|);
      if HasEntries(fs.View(), t.dir, ENTRIES_MAX) { EntriesUnique(fs.View(), t.dir, ENTRIES_MAX, |Children(fs.objs, d)|); }
    } else {
      FreshView(fs.dev.Data());
      if HasEntries(fs.View(), t.dir, ENTRIES_MAX) { NoEntries(fs.View(), ENTRIES_MAX); }
    }
  }

  // ---- a directory that is full ----

  /** Three letters that spell a number. */
  function Letters(k: nat): Text
    requires k < 4096
  {
    [65 + k / 256, 65 + k / 16 % 16, 65 + k % 16]
  }

  lemma LettersName(k: nat)
    requires k < 4096
    ensures Components(Letters(k), 0) == [Letters(k)] && ShortName(Letters(k)).Some?
    ensures ShortName(Letters(k)).value[..3] == Letters(k)
  {
    var c := Letters(k);
    assert SkipSeps(c, 0) == 0 && ComponentEnd(c, 3) == 3 && ComponentEnd(c, 2) == 3 && ComponentEnd(c, 1) == 3 && ComponentEnd(c, 0) == 3;
    assert c[0..3] == c && Components(c, 3) == [];
    DotIs(c, 3);
    var n := ShortName(c).value;
    assert n[0] == NameByte(c, 0) && n[1] == NameByte(c, 1) && n[2] == NameByte(c, 2);
  }

  function NameOf(k: nat): Name
    requires k < 4096
  {
    if ShortName(Letters(k)).Some? then ShortName(Letters(k)).value else []
  }

  lemma NamesApart(k: nat, l: nat)
    requires k < 4096 && l < 4096 && NameOf(k) == NameOf(l)
    ensures k == l
  {
    hide ShortName, Components;
    LettersName(k);
    LettersName(l);
    SpelledAlike(k, l);
  }

  lemma SpelledAlike(k: nat, l: nat)
    requires k < 4096 && l < 4096 && Letters(k) == Letters(l)
    ensures k == l
  {
    var a, b := Letters(k), Letters(l);
    assert a[0] == b[0] && a[1] == b[1] && a[2] == b[2];
    ThreeDigits(k);
    ThreeDigits(l);
  }

  lemma ThreeDigits(k: nat)
    ensures k == 256 * (k / 256) + 16 * (k / 16 % 16) + k % 16
  {
    ModDigits(k, 16, 16);
  }

  /** The map after k empty files were made in the root. */
  ghost function Crowd(k: nat): Tree
    requires k <= 4096
  {
    if k == 0 then imap[[] := Directory] else Crowd(k - 1)[[NameOf(k - 1)] := File([])]
  }

  lemma {:induction false} CrowdHas(k: nat, p: Path)
    requires k <= 4096
    ensures p in Crowd(k) <==> p == [] || exists j :: 0 <= j < k && p == [NameOf(j)]
    ensures [] in Crowd(k) && Crowd(k)[[]] == Directory
  {
    hide NameOf;
    if k > 0 { CrowdHas(k - 1, p); }
  }

  ghost function NamesBelow(k: nat): (s: set<Name>)
    requires k <= 4096
    ensures forall n: Name :: n in s <==> exists j :: 0 <= j < k && n == NameOf(j)
  {
    set j | 0 <= j < k :: NameOf(j)
  }

  lemma {:induction false} CrowdCount(k: nat)
    requires k <= 4096
    ensures |NamesBelow(k)| == k
  {
    hide NameOf;
    if k > 0 {
      CrowdCount(k - 1);
      assert NamesBelow(k) == NamesBelow(k - 1) + {NameOf(k - 1)};
      if NameOf(k - 1) in NamesBelow(k - 1) {
        var j :| 0 <= j < k - 1 && NameOf(k - 1) == NameOf(j);
        NamesApart(k - 1, j);
      }
    } else {
      assert NamesBelow(0) == {};
    }
  }

  lemma CrowdEntries(k: nat)
    requires k <= 4096
    ensures HasEntries(Crowd(k), [], k)
  {
    hide NameOf, Crowd;
    CrowdCount(k);
    forall n: Name ensures n in NamesBelow(k) <==> [] + [n] in Crowd(k) {
      assert [] + [n] == [n];
      CrowdHas(k, [n]);
    }
    assert EntriesAre(Crowd(k), [], NamesBelow(k));
  }

  lemma NextInCrowd(k: nat)
    requires k < 4096
    ensures Locating(Crowd(k), Letters(k)) == Target([], NameOf(k)) && [NameOf(k)] !in Crowd(k) && |NameOf(k)| == 11 && NameOf(k)[0] < 0xE5
  {
    hide Components, ShortName, Crowd;
    LettersName(k);
    CrowdHas(k, [NameOf(k)]);
    if [NameOf(k)] in Crowd(k) {
      var j :| 0 <= j < k && [NameOf(k)] == [NameOf(j)];
      NamesApart(k, j);
    }
    assert NameOf(k)[..3][0] == Letters(k)[0];
    NameLength(k);
  }

  lemma NameLength(k: nat)
    requires k < 4096 && ShortName(Letters(k)).Some?
    ensures |NameOf(k)| == 11
  {
  }

  lemma CrowdStep(fs: FileService, k: nat, path: Text)
    requires fs.Valid() && k < ENTRIES_MAX && fs.View() == Crowd(k) && path == Letters(k)
    ensures fs.Target(path) == Target([], NameOf(k)) && Creates(fs.View(), fs.Target(path)) && !fs.Hidden(path)
  {
    hide FileService.View, FileService.Valid, FileService.Hidden, Crowd, NameOf, Letters, HasEntries;
    NextInCrowd(k);
    TargetIs(fs, path);
    HiddenIff(fs, path);
    CrowdEntries(k);
    if HasEntries(fs.View(), [], ENTRIES_MAX) { EntriesUnique(fs.View(), [], k, ENTRIES_MAX); }
    assert [] + [NameOf(k)] == [NameOf(k)];
  }

  lemma CrowdFull(fs: FileService, path: Text)
    requires fs.Valid() && fs.View() == Crowd(ENTRIES_MAX) && path == Letters(ENTRIES_MAX)
    ensures fs.Target(path) == Target([], NameOf(ENTRIES_MAX)) && Creates(fs.View(), fs.Target(path)) && fs.Hidden(path)
  {
    hide FileService.View, FileService.Valid, FileService.Hidden, Crowd, NameOf, Letters, HasEntries;
    NextInCrowd(ENTRIES_MAX);
    TargetIs(fs, path);
    HiddenIff(fs, path);
    CrowdEntries(ENTRIES_MAX);
    assert [] + [NameOf(ENTRIES_MAX)] == [NameOf(ENTRIES_MAX)];
  }

  lemma CrowdWritten(m: Tree, t: Located, k: nat, free: int, held: nat, full: bool, r: Code, m': Tree, free': int)
    requires k < ENTRIES_MAX && m == Crowd(k) && t == Target([], NameOf(k)) && Creates(m, t) && free >= 2
    requires r == WriteCode(m, t, 0, false, free, held, full) && WriteEffect(m, t, [], false, free, held, full, r, m', free')
    ensures r == OK && m' == Crowd(k + 1) && free' >= free - 2
  {
    hide NameOf;
    NothingNeeded();
    assert [] + [NameOf(k)] == [NameOf(k)];
  }

  lemma NothingNeeded()
    ensures Needed(0, 0) == 1
  {
  }

  /** On a fresh device 2048 empty files can be made in the root; making one more returns
      OK as well, and it is not found. */
  method LostFile(device: Device) returns (r: Code, fs: FileService)
    requires device.Big() && !BootValid(device.blocks[0])
    modifies device
    ensures r == OK && device.Big() && !Look(Stored(device), device.Data(), ROOT, NameOf(ENTRIES_MAX)).Found?
  {
    hide FileService.View, FileService.Valid, FileService.Hidden, FileService.Target, FileService.Held, FileService.NoSlot, FileService.DirAt, Crowd, NameOf, Letters, WriteCode, WriteEffect, Creates, Lookups, Values, Look, Device.Data, Stored;
    fs := new FileService(device);
    CrowdNone();
    var k := 0;
    while k < ENTRIES_MAX
      invariant 0 <= k <= ENTRIES_MAX && fs.dev == device && fresh(fs) && fs.Valid() && fs.View() == Crowd(k)
      invariant fs.Free() >= CLUSTERS - 1 - 2 * k
    {
      ghost var m, t, free, held, full := fs.View(), fs.Target(Letters(k)), fs.Free(), fs.Held(Letters(k)), fs.NoSlot(Letters(k));
      CrowdStep(fs, k, Letters(k));
      r := fs.WriteFileBytes(Letters(k), [], false);
      CrowdWritten(m, t, k, free, held, full, r, fs.View(), fs.Free());
      k := k + 1;
    }
    CrowdFull(fs, Letters(k));
    ghost var free, held, full, d := fs.Free(), fs.Held(Letters(k)), fs.NoSlot(Letters(k)), fs.DirAt(Letters(k));
    RootTarget(fs, Letters(k));
    CreateCode(fs.View(), fs.Target(Letters(k)), free, held, full);
    r := fs.WriteFileBytes(Letters(k), [], false);
  }

  lemma CrowdNone()
    ensures Crowd(0) == imap[[] := Directory]
  {
  }

  lemma CreateCode(m: Tree, t: Located, free: int, held: nat, full: bool)
    requires Creates(m, t) && free >= 2
    ensures WriteCode(m, t, 0, false, free, held, full) == OK
  {
    NothingNeeded();
  }

  lemma RootTarget(fs: FileService, path: Text)
    requires fs.Valid() && fs.Target(path).Target? && fs.Target(path).dir == []
    ensures fs.DirAt(path) == ROOT
  {
  }
}
