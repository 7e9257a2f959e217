/** Directory listing: one line per live entry, in slot order, and the proof that
    the lines are exactly the names a lookup finds. */
module FsList {
  import opened Bytes
  import opened FsLayout
  import opened FsTree
  import opened FsVolume
  import opened FsDirs
  import opened FsChain
  import opened FsScan
  import opened FsPath
  import opened FsWrite
  import opened FsLookup
  import opened FsMap

  /** A directory entry as a listing shows it: its name, and whether it is a directory. */
  type Shown = (Name, bool)

  function Lower(b: Byte): Byte {
    if 65 <= b <= 90 then b + 32 else b
  }

  /** Lower-case characters of a name field up to its padding. */
  function Word(name: Name, i: nat, end: nat): seq<Byte>
    requires end <= |name|
    decreases end - i
  {
    if i >= end || name[i] == SPACE then [] else [Lower(name[i])] + Word(name, i + 1, end)
  }

  /** `base.ext`, with a slash for a directory and a line end. */
  function Line(e: Shown): seq<Byte>
    requires |e.0| == 11
  {
    Word(e.0, 0, 8)
    + (if e.0[8] != SPACE || e.0[9] != SPACE || e.0[10] != SPACE then [DOT] + Word(e.0, 8, 11) else [])
    + (if e.1 then [47] else []) + [10]
  }

  ghost predicate Named(es: seq<Shown>) {
    forall k :: 0 <= k < |es| ==> |es[k].0| == 11
  }

  ghost function Lines(es: seq<Shown>): seq<Byte>
    requires Named(es)
  {
    if es == [] then [] else Lines(es[..|es| - 1]) + Line(es[|es| - 1])
  }

  lemma {:induction false} LinesGrow(a: seq<Shown>, b: seq<Shown>)
    requires Named(a + b)
    ensures Named(a) && |Lines(a)| <= |Lines(a + b)|
    decreases |b|
  {
    assert forall k :: 0 <= k < |a| ==> a[k] == (a + b)[k];
    if b == [] {
      assert a + b == a;
    } else {
      var c := b[..|b| - 1];
      assert (a + b)[..|a + b| - 1] == a + c;
      assert forall k :: 0 <= k < |a + c| ==> (a + c)[k] == (a + b)[k];
      LinesGrow(a, c);
    }
  }

  function Entry(slot: Slot): Shown
    requires slot.Live?
  {
    (slot.name, HasDirBit(slot.attr))
  }

  /** Live entries of a cluster from slot `i` on, up to the first unused slot. */
  ghost function EntriesIn(s: Sector, i: nat): (es: seq<Shown>)
    ensures Named(es)
    decreases SLOTS - i
  {
    if i >= SLOTS || SlotAt(s, i).End? then []
    else if SlotAt(s, i).Live? then [Entry(SlotAt(s, i))] + EntriesIn(s, i + 1)
    else EntriesIn(s, i + 1)
  }

  /** Live entries of a chain of clusters from link `j` on. */
  ghost function Entries(data: seq<Sector>, chain: seq<int>, j: nat): (es: seq<Shown>)
    requires |data| == FAT_ENTRIES && InArea(chain)
    ensures Named(es)
    decreases |chain| - j
  {
    if j >= |chain| then [] else EntriesIn(data[chain[j]], 0) + Entries(data, chain, j + 1)
  }

  /** The entries of a directory are its children, each once. */
  ghost predicate ListsChildren(es: seq<Shown>, objs: Objs, d: int) {
    && (forall e: Shown :: e in es <==> Child(objs, d, e.0).Some? && Child(objs, d, e.0).value in objs && objs[Child(objs, d, e.0).value].isDir == e.1)
    && (forall i, k :: 0 <= i < k < |es| ==> es[i].0 != es[k].0)
  }

  // ---- membership ----

  ghost predicate LiveAs(s: Sector, i: nat, e: Shown)
    requires i < SLOTS
  {
    SlotAt(s, i).Live? && Entry(SlotAt(s, i)) == e
  }

  lemma {:induction false} EntriesInHas(s: Sector, i: nat, e: Shown)
    requires i <= SLOTS && (NoEnd(s) || EndTail(s))
    ensures e in EntriesIn(s, i) <==> exists k :: i <= k < SLOTS && LiveAs(s, k, e)
    decreases SLOTS - i
  {
    hide SlotAt;
    if i < SLOTS {
      EntriesInHas(s, i + 1, e);
      if SlotAt(s, i).End? {
        assert forall k :: i < k < SLOTS ==> SlotAt(s, k).End?;
      } else if SlotAt(s, i).Live? {
        assert LiveAs(s, i, e) <==> Entry(SlotAt(s, i)) == e;
      }
    }
  }

  lemma {:induction false} EntriesHas(fat: seq<int>, data: seq<Sector>, objs: Objs, own: Own, d: int, j: nat, e: Shown)
    requires |data| == FAT_ENTRIES && Inv(fat, data, objs, own) && d in objs && objs[d].isDir && InArea(objs[d].chain) && j <= |objs[d].chain|
    ensures e in Entries(data, objs[d].chain, j) <==>
            exists k, i :: j <= k < |objs[d].chain| && 0 <= i < SLOTS && LiveAs(data[objs[d].chain[k]], i, e)
    decreases |objs[d].chain| - j
  {
    hide Inv, EntriesIn, LiveAs, NoEnd, EndTail;
    var chain := objs[d].chain;
    if j < |chain| {
      ChainSector(fat, data, objs, own, d, j);
      EntriesInHas(data[chain[j]], 0, e);
      EntriesHas(fat, data, objs, own, d, j + 1, e);
    }
  }

  lemma EntriesAreChildren(fat: seq<int>, data: seq<Sector>, objs: Objs, own: Own, d: int, e: Shown)
    requires |data| == FAT_ENTRIES && Inv(fat, data, objs, own) && d in objs && objs[d].isDir && InArea(objs[d].chain)
    ensures e in Entries(data, objs[d].chain, 0) <==>
            Child(objs, d, e.0).Some? && Child(objs, d, e.0).value in objs && objs[Child(objs, d, e.0).value].isDir == e.1
  {
    hide Inv, Entries, Child, SlotAt, HasDirBit;
    var chain := objs[d].chain;
    EntriesHas(fat, data, objs, own, d, 0, e);
    if e in Entries(data, chain, 0) {
      var k, i :| 0 <= k < |chain| && 0 <= i < SLOTS && LiveAs(data[chain[k]], i, e);
      EntrySound(fat, data, objs, own, d, k, i);
    }
    if Child(objs, d, e.0).Some? && Child(objs, d, e.0).value in objs && objs[Child(objs, d, e.0).value].isDir == e.1 {
      EntryComplete(fat, data, objs, own, d, Child(objs, d, e.0).value);
    }
  }

  lemma EntrySound(fat: seq<int>, data: seq<Sector>, objs: Objs, own: Own, d: int, k: nat, i: nat)
    requires |data| == FAT_ENTRIES && Inv(fat, data, objs, own) && d in objs && objs[d].isDir && InArea(objs[d].chain) && k < |objs[d].chain| && i < SLOTS
    requires SlotAt(data[objs[d].chain[k]], i).Live?
    ensures var e := Entry(SlotAt(data[objs[d].chain[k]], i));
            Child(objs, d, e.0).Some? && Child(objs, d, e.0).value in objs && objs[Child(objs, d, e.0).value].isDir == e.1
  {
    hide FatInv, TreeInv, DirInv, SlotAt;
    var c := objs[d].chain[k];
    ChainOwned(fat, objs, own, d, k);
    SlotIsChild(fat, data, objs, own, d, c, i);
    EntryDir(fat, data, objs, own, SlotAt(data[c], i).cluster);
  }

  lemma EntryComplete(fat: seq<int>, data: seq<Sector>, objs: Objs, own: Own, d: int, o: int)
    requires Inv(fat, data, objs, own) && d in objs && objs[d].isDir && InArea(objs[d].chain)
    requires o in objs && IsChild(objs, o, d, objs[o].name)
    ensures exists k, i :: 0 <= k < |objs[d].chain| && 0 <= i < SLOTS && LiveAs(data[objs[d].chain[k]], i, (objs[o].name, objs[o].isDir))
  {
    hide FatInv, TreeInv, DirInv, SlotAt;
    ChildHasSlot(fat, data, objs, own, d, o);
    var k, i := own[objs[o].at].idx, objs[o].col;
    assert LiveAs(data[objs[d].chain[k]], i, (objs[o].name, objs[o].isDir));
  }

  // ---- no name twice ----

  ghost predicate NoDup(es: seq<Shown>) {
    forall a, b :: 0 <= a < b < |es| ==> es[a].0 != es[b].0
  }

  lemma NameAt(fat: seq<int>, data: seq<Sector>, objs: Objs, own: Own, d: int, k: nat, i: nat, k': nat, i': nat)
    requires |data| == FAT_ENTRIES && Inv(fat, data, objs, own) && d in objs && objs[d].isDir && InArea(objs[d].chain)
    requires k < |objs[d].chain| && k' < |objs[d].chain| && i < SLOTS && i' < SLOTS
    requires SlotAt(data[objs[d].chain[k]], i).Live? && SlotAt(data[objs[d].chain[k']], i').Live?
    requires SlotAt(data[objs[d].chain[k]], i).name == SlotAt(data[objs[d].chain[k']], i').name
    ensures k == k' && i == i'
  {
    hide FatInv, TreeInv, DirInv, SlotAt;
    ChainOwned(fat, objs, own, d, k);
    ChainOwned(fat, objs, own, d, k');
    SlotIsChild(fat, data, objs, own, d, objs[d].chain[k], i);
    SlotIsChild(fat, data, objs, own, d, objs[d].chain[k'], i');
  }

  lemma NoDupCons(e: Shown, es: seq<Shown>)
    requires NoDup(es) && forall x :: x in es ==> x.0 != e.0
    ensures NoDup([e] + es)
  {
  }

  lemma NoDupConcat(a: seq<Shown>, b: seq<Shown>)
    requires NoDup(a) && NoDup(b) && forall x, y :: x in a && y in b ==> x.0 != y.0
    ensures NoDup(a + b)
  {
  }

  lemma {:induction false} UniqueIn(fat: seq<int>, data: seq<Sector>, objs: Objs, own: Own, d: int, k: nat, i: nat)
    requires |data| == FAT_ENTRIES && Inv(fat, data, objs, own) && d in objs && objs[d].isDir && InArea(objs[d].chain)
    requires k < |objs[d].chain| && i <= SLOTS
    ensures NoDup(EntriesIn(data[objs[d].chain[k]], i))
    decreases SLOTS - i
  {
    hide Inv, SlotAt, NoEnd, EndTail, NoDup, HasDirBit;
    var s := data[objs[d].chain[k]];
    ChainSector(fat, data, objs, own, d, k);
    if i < SLOTS && !SlotAt(s, i).End? {
      UniqueIn(fat, data, objs, own, d, k, i + 1);
      if SlotAt(s, i).Live? {
        forall x | x in EntriesIn(s, i + 1) ensures x.0 != SlotAt(s, i).name {
          EntriesInHas(s, i + 1, x);
          var i' :| i + 1 <= i' < SLOTS && LiveAs(s, i', x);
          if x.0 == SlotAt(s, i).name { NameAt(fat, data, objs, own, d, k, i, k, i'); }
        }
        NoDupCons(Entry(SlotAt(s, i)), EntriesIn(s, i + 1));
      }
    } else {
      NoDupNil();
    }
  }

  lemma NoDupNil()
    ensures NoDup([])
  {
  }

  lemma {:induction false} UniqueFrom(fat: seq<int>, data: seq<Sector>, objs: Objs, own: Own, d: int, j: nat)
    requires |data| == FAT_ENTRIES && Inv(fat, data, objs, own) && d in objs && objs[d].isDir && InArea(objs[d].chain)
    requires j <= |objs[d].chain|
    ensures NoDup(Entries(data, objs[d].chain, j))
    decreases |objs[d].chain| - j
  {
    hide Inv, SlotAt, NoEnd, EndTail, NoDup, EntriesIn, HasDirBit;
    var chain := objs[d].chain;
    if j < |chain| {
      UniqueIn(fat, data, objs, own, d, j, 0);
      UniqueFrom(fat, data, objs, own, d, j + 1);
      ChainSector(fat, data, objs, own, d, j);
      forall x, y | x in EntriesIn(data[chain[j]], 0) && y in Entries(data, chain, j + 1) ensures x.0 != y.0 {
        EntriesInHas(data[chain[j]], 0, x);
        EntriesHas(fat, data, objs, own, d, j + 1, y);
        var i :| 0 <= i < SLOTS && LiveAs(data[chain[j]], i, x);
        var k, i' :| j + 1 <= k < |chain| && 0 <= i' < SLOTS && LiveAs(data[chain[k]], i', y);
        if x.0 == y.0 { NameAt(fat, data, objs, own, d, j, i, k, i'); }
      }
      NoDupConcat(EntriesIn(data[chain[j]], 0), Entries(data, chain, j + 1));
    } else {
      NoDupNil();
    }
  }

  /** A listing shows exactly the names lookups find, each once, marked as directory or file. */
  lemma ListingExact(fat: seq<int>, data: seq<Sector>, objs: Objs, own: Own, d: int)
    requires |data| == FAT_ENTRIES && Inv(fat, data, objs, own) && d in objs && objs[d].isDir && InArea(objs[d].chain)
    ensures ListsChildren(Entries(data, objs[d].chain, 0), objs, d)
  {
    hide Inv, Entries, Child;
    forall e: Shown
      ensures e in Entries(data, objs[d].chain, 0) <==>
              Child(objs, d, e.0).Some? && Child(objs, d, e.0).value in objs && objs[Child(objs, d, e.0).value].isDir == e.1
    {
      EntriesAreChildren(fat, data, objs, own, d, e);
    }
    UniqueFrom(fat, data, objs, own, d, 0);
  }

  // ---- the listing itself ----

  method PutWord(name: Name, start: nat, end: nat, out: seq<Byte>) returns (r: seq<Byte>)
    requires start <= end <= |name|
    ensures r == out + Word(name, start, end)
  {
    r := out;
    var i := start;
    while i < end && name[i] != SPACE
      invariant start <= i <= end
      invariant r + Word(name, i, end) == out + Word(name, start, end)
    {
      assert Word(name, i, end) == [Lower(name[i])] + Word(name, i + 1, end);
      r := r + [Lower(name[i])];
      i := i + 1;
    }
    assert Word(name, i, end) == [];
  }

  method FormatName(name: Name, isDir: bool) returns (r: seq<Byte>)
    requires |name| == 11
    ensures r + [10] == Line((name, isDir))
  {
    hide Word;
    r := PutWord(name, 0, 8, []);
    assert r == Word(name, 0, 8);
    if name[8] != SPACE || name[9] != SPACE || name[10] != SPACE {
      r := PutWord(name, 8, 11, r + [DOT]);
      assert r == Word(name, 0, 8) + ([DOT] + Word(name, 8, 11));
    } else {
      assert r == r + [];
    }
    if isDir {
      r := r + [47];
    } else {
      assert r == r + [];
    }
  }

  /** Copies text behind the cursor, keeping room for the terminator. */
  method PutText(out: array<Byte>, cursor: nat, text: seq<Byte>) returns (ok: bool)
    requires cursor < out.Length
    modifies out
    ensures ok <==> cursor + |text| < out.Length
    ensures ok ==> out[..cursor + |text|] == old(out[..cursor]) + text
  {
    var j := 0;
    while j < |text|
      invariant 0 <= j <= |text| && cursor + j < out.Length
      invariant out[..cursor + j] == old(out[..cursor]) + text[..j]
    {
      if cursor + j + 1 >= out.Length {
        return false;
      }
      out[cursor + j] := text[j];
      assert text[..j + 1] == text[..j] + [text[j]];
      j := j + 1;
    }
    assert text[..j] == text;
    ok := true;
  }

  /** Lists one cluster. `stop` says that an unused slot was reached. */
  method ListCluster(s: Sector, out: array<Byte>, from: nat, ghost done: seq<Shown>) returns (ok: bool, stop: bool, cursor: nat)
    requires Named(done) && from < out.Length && out[..from] == Lines(done)
    modifies out
    ensures Named(done + EntriesIn(s, 0))
    ensures ok <==> |Lines(done + EntriesIn(s, 0))| < out.Length
    ensures ok ==> cursor < out.Length && out[..cursor] == Lines(done + EntriesIn(s, 0))
    ensures ok && stop ==> exists i :: 0 <= i < SLOTS && SlotAt(s, i).End?
  {
    hide SlotAt, HasDirBit, Lines, Line;
    cursor, stop, ok := from, false, true;
    var i: nat := 0;
    ghost var z: nat := 0;
    ghost var all, seen := EntriesIn(s, z), done;
    assert seen + EntriesIn(s, i) == done + all;
    NamedConcat(done, all);
    while i < SLOTS
      invariant i <= SLOTS && Named(seen) && cursor < out.Length && out[..cursor] == Lines(seen)
      invariant seen + EntriesIn(s, i) == done + all
    {
      var slot := SlotAt(s, i);
      if slot.End? {
        stop := true;
        assert seen + [] == seen;
        return;
      }
      if slot.Live? {
        ghost var e := Entry(slot);
        ghost var rest := EntriesIn(s, i + 1);
        assert seen + ([e] + rest) == seen + [e] + rest;
        LinesSnoc(seen, e);
        LinesGrow(seen + [e], rest);
        var text := FormatName(slot.name, HasDirBit(slot.attr));
        ok := PutText(out, cursor, text + [10]);
        if !ok {
          return;
        }
        cursor := cursor + |text| + 1;
        seen := seen + [e];
      }
      i := i + 1;
    }
    assert seen + [] == seen;
  }

  lemma NamedConcat(a: seq<Shown>, b: seq<Shown>)
    requires Named(a) && Named(b)
    ensures Named(a + b)
  {
  }

  lemma LinesSnoc(es: seq<Shown>, e: Shown)
    requires Named(es) && |e.0| == 11
    ensures Named(es + [e]) && Lines(es + [e]) == Lines(es) + Line(e)
  {
    assert (es + [e])[..|es|] == es;
  }

  /** Lists a directory into the caller's buffer, terminated by a zero byte. */
  method ListEntries(dev: Device, dir: int, out: array<Byte>, ghost objs: Objs, ghost own: Own) returns (ok: bool, len: nat)
    requires dev.Big() && Inv(Stored(dev), dev.Data(), objs, own) && dir in objs && objs[dir].isDir && out.Length > 0
    requires InArea(objs[dir].chain)
    modifies out
    ensures ok <==> |Lines(Entries(dev.Data(), objs[dir].chain, 0))| < out.Length
    ensures ok ==> len < out.Length && out[..len] == Lines(Entries(dev.Data(), objs[dir].chain, 0)) && out[len] == 0
  {
    hide Inv, EntriesIn, Lines, SlotAt;
    ghost var data, chain := dev.Data(), objs[dir].chain;
    ghost var all := Entries(data, chain, 0);
    DirStart(Stored(dev), data, objs, own, dir);
    var fat := dev.LoadFat();
    LinksStored(dev, fat);
    out[0] := 0;
    len := 0;
    var current, count: nat, more := dir, 0, true;
    ghost var done: seq<Shown> := [];
    assert done + Entries(data, chain, 0) == all;
    LinesNil();
    while more && count < DIR_CLUSTERS_MAX
      invariant count <= |chain| && (more ==> count < |chain| && current == chain[count])
      invariant Named(done) && len < out.Length && out[..len] == Lines(done)
      invariant done + (if more then Entries(data, chain, count) else []) == all
      invariant Links(fat) == Stored(dev) && dev.Data() == data
      decreases more, DIR_CLUSTERS_MAX - count
    {
      InvLink(Stored(dev), data, objs, own, dir, count);
      ghost var here, rest := EntriesIn(data[chain[count]], 0), Entries(data, chain, count + 1);
      assert done + (here + rest) == done + here + rest;
      var s := dev.ReadCluster(current);
      var stop;
      ok, stop, len := ListCluster(s, out, len, done);
      LinesGrow(done + here, rest);
      if !ok {
        return;
      }
      done := done + here;
      InnerNoEnd(Stored(dev), data, objs, own, dir, count);
      var next := GetEntry(fat, current);
      if stop || next == EOC || next < MIN_ALLOC || next > MAX_ALLOC {
        assert rest == [];
        more := false;
      } else {
        current, count := next, count + 1;
      }
    }
    assert done + [] == done;
    out[len] := 0;
    ok := true;
  }

  lemma LinesNil()
    ensures Named([]) && Lines([]) == []
  {
  }

  /** Only the last cluster of a directory has unused slots. */
  lemma InnerNoEnd(fat: seq<int>, data: seq<Sector>, objs: Objs, own: Own, d: int, j: nat)
    requires |data| == FAT_ENTRIES && Inv(fat, data, objs, own) && d in objs && objs[d].isDir && j < |objs[d].chain| && InArea(objs[d].chain)
    ensures j < |objs[d].chain| - 1 ==> NoEnd(data[objs[d].chain[j]])
  {
    hide FatInv, TreeInv, SlotAt;
    assert ShapeOk(data, objs[d]) && TailOk(data, objs[d].chain);
  }

  // ---- what a line tells ----

  /** Bytes that stored names do not have: small letters, the dot and the slash. */
  ghost predicate Plain(name: Name) {
    |name| == 11 && forall k :: 0 <= k < 11 ==> !(97 <= name[k] <= 122) && name[k] != DOT && name[k] != 47
  }

  /** Spaces are only padding. */
  ghost predicate Padded(name: Name) {
    |name| == 11 && (forall i, k :: 0 <= i < k < 8 && name[i] == SPACE ==> name[k] == SPACE)
    && forall i, k :: 8 <= i < k < 11 && name[i] == SPACE ==> name[k] == SPACE
  }

  lemma ShortNamePlain(c: Text)
    requires IsShortName(c)
    ensures Plain(ShortName(c).value)
  {
    var p, n := DotAt(c), ShortName(c).value;
    forall k | 0 <= k < 11 ensures !(97 <= n[k] <= 122) && n[k] != DOT && n[k] != 47 {
      assert n[k] == NameByte(c, k);
      if k < 8 && k < p { assert !IsSep(c[k]); }
      if k >= 8 && p + k - 7 < |c| { assert !IsSep(c[p + k - 7]); }
    }
  }

  predicate HasExtension(name: Name)
    requires |name| == 11
  {
    name[8] != SPACE || name[9] != SPACE || name[10] != SPACE
  }

  lemma {:induction false} WordPlain(name: Name, i: nat, end: nat)
    requires Plain(name) && end <= 11
    ensures forall k :: 0 <= k < |Word(name, i, end)| ==> Word(name, i, end)[k] != DOT && Word(name, i, end)[k] != 47
    decreases end - i
  {
    if i < end && name[i] != SPACE { WordPlain(name, i + 1, end); }
  }

  /** Two entries print the same line exactly when they agree on the letters before the
      first space of each part, on having an extension, and on being directories. */
  lemma LineIff(e: Shown, f: Shown)
    requires Plain(e.0) && Plain(f.0)
    ensures Line(e) == Line(f) <==>
              && Word(e.0, 0, 8) == Word(f.0, 0, 8) && e.1 == f.1 && HasExtension(e.0) == HasExtension(f.0)
              && (HasExtension(e.0) ==> Word(e.0, 8, 11) == Word(f.0, 8, 11))
  {
    hide Word;
    WordPlain(e.0, 0, 8);
    WordPlain(f.0, 0, 8);
    WordPlain(e.0, 8, 11);
    WordPlain(f.0, 8, 11);
    var x, y := Word(e.0, 8, 11), Word(f.0, 8, 11);
    if Line(e) == Line(f) {
      Split(Word(e.0, 0, 8), HasExtension(e.0), x, e.1, Word(f.0, 0, 8), HasExtension(f.0), y, f.1);
    }
  }

  function Joined(w: seq<Byte>, ext: bool, x: seq<Byte>, dir: bool): seq<Byte> {
    w + (if ext then [DOT] + x else []) + (if dir then [47] else []) + [10]
  }

  ghost predicate Clean(w: seq<Byte>) {
    forall k :: 0 <= k < |w| ==> w[k] != DOT && w[k] != 47
  }

  lemma Split(w: seq<Byte>, ext: bool, x: seq<Byte>, dir: bool, w': seq<Byte>, ext': bool, x': seq<Byte>, dir': bool)
    requires Clean(w) && Clean(x) && Clean(w') && Clean(x') && Joined(w, ext, x, dir) == Joined(w', ext', x', dir')
    ensures w == w' && ext == ext' && dir == dir' && (ext ==> x == x')
  {
    var a, b := w + (if ext then [DOT] + x else []), w' + (if ext' then [DOT] + x' else []);
    var s, t := (if dir then [47] else []), (if dir' then [47] else []);
    assert (a + s) + [10] == (b + t) + [10];
    assert a + s == (a + s + [10])[..|a + s|] && b + t == (b + t + [10])[..|b + t|];
    assert a + s == b + t;
    assert dir == dir' by {
      NoSlash(w, ext, x);
      NoSlash(w', ext', x');
      assert dir ==> (a + s)[|a|] == 47;
      assert dir' ==> (b + t)[|b|] == 47;
      assert !dir ==> a + s == a;
      assert !dir' ==> b + t == b;
    }
    assert a == (a + s)[..|a|] && b == (b + t)[..|b|];
    assert a == b;
    SplitDot(w, ext, x, w', ext', x');
  }

  lemma NoSlash(w: seq<Byte>, ext: bool, x: seq<Byte>)
    requires Clean(w) && Clean(x)
    ensures var a := w + (if ext then [DOT] + x else []); forall k :: 0 <= k < |a| ==> a[k] != 47
  {
  }

  lemma SplitDot(w: seq<Byte>, ext: bool, x: seq<Byte>, w': seq<Byte>, ext': bool, x': seq<Byte>)
    requires Clean(w) && Clean(x) && Clean(w') && Clean(x')
    requires w + (if ext then [DOT] + x else []) == w' + (if ext' then [DOT] + x' else [])
    ensures w == w' && ext == ext' && (ext ==> x == x')
  {
    var a, b := w + (if ext then [DOT] + x else []), w' + (if ext' then [DOT] + x' else []);
    assert ext ==> a[|w|] == DOT;
    assert ext' ==> b[|w'|] == DOT;
    assert |w| == |w'|;
    assert w == a[..|w|] && w' == b[..|w'|];
    if ext { assert x == a[|w| + 1..] && x' == b[|w'| + 1..]; }
  }

  lemma {:induction false} WordDetermines(n: Name, m: Name, i: nat, end: nat)
    requires Plain(n) && Plain(m) && i <= end <= 11 && Word(n, i, end) == Word(m, i, end)
    requires forall j, k :: i <= j < k < end && n[j] == SPACE ==> n[k] == SPACE
    requires forall j, k :: i <= j < k < end && m[j] == SPACE ==> m[k] == SPACE
    ensures forall k :: i <= k < end ==> n[k] == m[k]
    decreases end - i
  {
    if i < end {
      var a, b := Word(n, i, end), Word(m, i, end);
      if n[i] != SPACE && m[i] != SPACE {
        assert a[0] == Lower(n[i]) && b[0] == Lower(m[i]);
        assert a[1..] == Word(n, i + 1, end) && b[1..] == Word(m, i + 1, end);
        WordDetermines(n, m, i + 1, end);
      }
    }
  }

  /** Between names whose spaces are only padding, a line determines its entry. */
  lemma LineDetermines(e: Shown, f: Shown)
    requires Plain(e.0) && Plain(f.0) && Padded(e.0) && Padded(f.0) && Line(e) == Line(f)
    ensures e == f
  {
    LineIff(e, f);
    var n, m := e.0, f.0;
    WordDetermines(n, m, 0, 8);
    if HasExtension(n) { WordDetermines(n, m, 8, 11); }
    assert n == m;
  }

  /** With an inner space it need not: two short names, one line. */
  lemma SameLine()
    ensures ShortName([65, 32, 66]).Some? && ShortName([65, 32, 67]).Some? && ShortName([65, 32, 66]) != ShortName([65, 32, 67])
    ensures Line((ShortName([65, 32, 66]).value, false)) == Line((ShortName([65, 32, 67]).value, false))
  {
    var b: Text, c: Text := [65, 32, 66], [65, 32, 67];
    DotIs(b, 3);
    DotIs(c, 3);
    var n, m := ShortName(b).value, ShortName(c).value;
    assert n[2] == NameByte(b, 2) && m[2] == NameByte(c, 2);
    assert n[0] == NameByte(b, 0) && m[0] == NameByte(c, 0) && n[1] == NameByte(b, 1) && m[1] == NameByte(c, 1);
    assert n[8] == NameByte(b, 8) && m[8] == NameByte(c, 8) && n[9] == NameByte(b, 9) && m[9] == NameByte(c, 9);
    assert n[10] == NameByte(b, 10) && m[10] == NameByte(c, 10);
    assert Word(n, 1, 8) == [] && Word(m, 1, 8) == [];
    assert Word(n, 0, 8) == [97] + Word(n, 1, 8) && Word(m, 0, 8) == [97] + Word(m, 1, 8);
  }

  /** A to Z, 65 to 90, become a to z; every other byte stays. */
  function InLowerCase(c: seq<Byte>): (r: seq<Byte>)
    ensures |r| == |c|
  {
    seq(|c|, k requires 0 <= k < |c| => if 65 <= c[k] <= 90 then c[k] + 32 else c[k])
  }

  ghost predicate InUpperCase(n: Byte, b: Byte) {
    n != 32 && (n == b || (97 <= b <= 122 && n == b - 32))
  }

  lemma {:induction false} WordIs(name: Name, i: nat, end: nat, w: seq<Byte>)
    requires end <= |name| && i + |w| <= end && (i + |w| < end ==> name[i + |w|] == 32)
    requires forall k :: 0 <= k < |w| ==> InUpperCase(name[i + k], w[k])
    ensures Word(name, i, end) == InLowerCase(w)
    decreases |w|
  {
    if w != [] {
      assert InUpperCase(name[i + 0], w[0]);
      assert forall k :: 0 <= k < |w[1..]| ==> w[1..][k] == w[k + 1] && name[i + 1 + k] == name[i + (k + 1)];
      WordIs(name, i + 1, end, w[1..]);
      assert InLowerCase(w) == [InLowerCase(w)[0]] + InLowerCase(w[1..]);
    }
  }

  /** The listing shows a readable component as it was given, in lower case. */
  lemma ListedAs(c: Text, isDir: bool)
    requires ShortName(c).Some? && Readable(c)
    ensures Line((ShortName(c).value, isDir)) == InLowerCase(c) + (if isDir then [47] else []) + [10]
  {
    hide Word, InLowerCase, ShortName;
    var n, p := ShortName(c).value, DotAt(c);
    var ext := if p < |c| then c[p + 1..] else [];
    ShortNameFits(c);
    forall k: nat | k < 11 ensures n[k] == NameByte(c, k) && (k < 8 ==> (n[k] == 32 <==> p <= k)) && (k >= 8 ==> (n[k] == 32 <==> |c| <= p + k - 7)) {
      Pads(c, k);
    }
    WordIs(n, 0, 8, c[..p]);
    if p < |c| {
      WordIs(n, 8, 11, ext);
    }
    Lowered(c, p, ext);
  }

  lemma Lowered(c: seq<Byte>, p: nat, ext: seq<Byte>)
    requires p <= |c| && (if p == |c| then ext == [] else c[p] == 46 && ext == c[p + 1..])
    ensures InLowerCase(c) == InLowerCase(c[..p]) + if p == |c| then [] else [46] + InLowerCase(ext)
  {
  }
}
