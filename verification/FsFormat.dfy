/** The empty volume: boot sector, table and root directory of a fresh layout. */
module FsFormat {
  import opened Bytes
  import opened FsLayout
  import opened FsTree
  import opened FsVolume
  import opened FsDirs
  import opened FsChain
  import opened FsWrite
  import opened FsLookup

  /** The boot sector of a fresh layout. */
  function BootImage(): Sector {
    var b: Sector := Zeros();
    var b := Splice(b, 0, [0xEB, 0x58, 0x90, 77, 83, 68, 79, 83]);
    var b := Splice(b, 11, Le16(BLOCK) + [1] + Le16(1) + [1]);
    var b := Splice(b, 21, [0xF8]);
    var b := Splice(b, 24, Le16(63) + Le16(255));
    var b := Splice(b, 32, Le32(128) + Le32(FAT_SECTORS));
    var b := Splice(b, 44, Le32(ROOT) + Le16(1) + Le16(6));
    var b := Splice(b, 64, [0x80, 0, 0x29] + Le32(0x1234ABCD) + [83, 69, 67, 85, 82, 69, 79, 83]);
    var b := Splice(b, 82, [70, 65, 84, 51, 50]);
    Splice(b, 510, [0x55, 0xAA])
  }

  lemma BootImageValid()
    ensures BootValid(BootImage())
  {
    var b := BootImage();
    var x, y, z := Le16(BLOCK) + [1] + Le16(1) + [1], Le32(128) + Le32(FAT_SECTORS), Le32(ROOT) + Le16(1) + Le16(6);
    assert b[11] == x[0] && b[12] == x[1] && b[13] == x[2] && b[14] == x[3] && b[15] == x[4] && b[16] == x[5];
    assert b[36] == y[4] && b[37] == y[5] && b[38] == y[6] && b[39] == y[7];
    assert b[44] == z[0] && b[45] == z[1] && b[46] == z[2] && b[47] == z[3];
    assert U32(Le32(FAT_SECTORS), 0) == FAT_SECTORS && U32(Le32(ROOT), 0) == ROOT;
  }

  /** The boot sector byte by byte: what is written, ... */
  lemma BootStart()
    ensures var b := BootImage();
            b[0..8] == [0xEB, 0x58, 0x90, 77, 83, 68, 79, 83] && b[11..17] == [0, 2, 1, 1, 0, 1] && b[21] == 0xF8 && b[24..28] == [63, 0, 255, 0]
  {
    hide Le16, Le32;
    Numbers();
  }

  lemma BootMiddle()
    ensures var b := BootImage(); b[32..40] == [128, 0, 0, 0, 64, 0, 0, 0] && b[44..52] == [2, 0, 0, 0, 1, 0, 6, 0]
  {
    hide Le16, Le32;
    Numbers();
  }

  lemma BootLabel()
    ensures var b := BootImage();
            b[64..79] == [0x80, 0, 0x29, 0xCD, 0xAB, 0x34, 0x12, 83, 69, 67, 85, 82, 69, 79, 83] && b[82..87] == [70, 65, 84, 51, 50] && b[510..512] == [0x55, 0xAA]
  {
    hide Le16, Le32;
    Numbers();
  }

  /** ... and zeros everywhere else. */
  lemma BootZeros(k: int)
    requires 8 <= k < 11 || 17 <= k < 21 || 22 <= k < 24 || 28 <= k < 32 || 40 <= k < 44 || 52 <= k < 64 || 79 <= k < 82 || 87 <= k < 510
    ensures BootImage()[k] == 0
  {
    hide Le16, Le32;
    Numbers();
  }

  lemma Numbers()
    ensures Le16(BLOCK) == [0, 2] && Le16(1) == [1, 0] && Le16(63) == [63, 0] && Le16(255) == [255, 0] && Le16(6) == [6, 0]
    ensures Le32(128) == [128, 0, 0, 0] && Le32(FAT_SECTORS) == [64, 0, 0, 0] && Le32(ROOT) == [2, 0, 0, 0]
    ensures Le32(0x1234ABCD) == [0xCD, 0xAB, 0x34, 0x12]
  {
  }

  ghost function FreshObjs(): Objs {
    map[ROOT := Obj(true, ROOT, [], ROOT, 0, 0, 0, [ROOT])]
  }

  ghost function FreshOwn(): Own {
    map[ROOT := Pos(ROOT, 0)]
  }

  lemma FreshTree()
    ensures TreeInv(FreshObjs()) && AllSized(FreshObjs())
  {
  }

  lemma FreshFat(fat: seq<int>)
    requires |fat| == FAT_ENTRIES && fat[ROOT] == EOC
    requires forall c :: MIN_ALLOC <= c <= MAX_ALLOC ==> fat[c] == FREE
    ensures FatInv(fat, FreshObjs(), FreshOwn())
  {
    assert Link(fat, [ROOT], 0);
  }

  lemma FreshDir(data: seq<Sector>)
    requires |data| == FAT_ENTRIES && data[ROOT] == Zeros()
    ensures DirInv(data, FreshObjs(), FreshOwn())
  {
    assert EndTail(data[ROOT]);
    assert ShapeOk(data, FreshObjs()[ROOT]);
  }

  lemma FreshInv(fat: seq<int>, data: seq<Sector>)
    requires |fat| == |data| == FAT_ENTRIES && fat[ROOT] == EOC && data[ROOT] == Zeros()
    requires forall c :: MIN_ALLOC <= c <= MAX_ALLOC ==> fat[c] == FREE
    ensures Inv(fat, data, FreshObjs(), FreshOwn())
  {
    hide FatInv, TreeInv, DirInv;
    FreshFat(fat);
    FreshTree();
    FreshDir(data);
  }

  /** The table of a fresh layout: two reserved entries and a root of one cluster. */
  method FreshTable() returns (fat: array<Byte>)
    ensures fresh(fat) && fat.Length == FAT_BYTES && Links(fat)[ROOT] == EOC && Links(fat)[0] == 0x0FFF_FFF8 && Links(fat)[1] == 0x0FFF_FFFF
    ensures forall c :: MIN_ALLOC <= c <= MAX_ALLOC ==> Links(fat)[c] == FREE
  {
    fat := new Byte[FAT_BYTES](_ => 0);
    assert forall c :: 0 <= c < FAT_ENTRIES ==> Links(fat)[c] == 0;
    SetEntry(fat, 0, 0x0FFFFFF8);
    SetEntry(fat, 1, 0xFFFFFFFF);
    SetEntry(fat, ROOT, EOC);
  }

  /** Writes a fresh layout. */
  method Format(dev: Device)
    requires dev.Big()
    modifies dev
    ensures dev.Big() && BootValid(dev.blocks[0]) && dev.blocks[0] == BootImage()
    ensures Stored(dev)[0] == 0x0FFF_FFF8 && Stored(dev)[1] == 0x0FFF_FFFF
    ensures Inv(Stored(dev), dev.Data(), FreshObjs(), FreshOwn()) && dev.Data()[ROOT] == Zeros()
  {
    hide Inv, BootImage, BootValid, FatView;
    var fat := FreshTable();
    dev.WriteBoot(BootImage());
    BootImageValid();
    dev.StoreFat(fat);
    dev.WriteCluster(ROOT, Zeros());
    FreshInv(Stored(dev), dev.Data());
  }
}
