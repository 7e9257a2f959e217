/** The on-disk layout of the file system: boot sector, file allocation table
    and 32-byte directory slots, each as a decoder over bytes together with the
    effect of the byte writes the service performs. */
module FsLayout {
  import opened Bytes

  const BLOCK := 512
  const SLOT_BYTES := 32
  const SLOTS := 16
  const FAT_SECTORS := 64
  const FAT_BYTES := 32768
  const FAT_ENTRIES := 8192
  const ROOT := 2
  const MIN_ALLOC := 3
  const MAX_ALLOC := 8191
  const FREE := 0
  const EOC := 0x0FFF_FFFF
  const DIR_CLUSTERS_MAX := 128
  /** Blocks the service touches: boot sector, table and clusters 2..8191. */
  const DEVICE_BLOCKS := 8255

  const ATTR_DIRECTORY := 0x10
  const ATTR_ARCHIVE := 0x20

  type Sector = s: seq<Byte> | |s| == BLOCK witness seq(BLOCK, _ => 0)

  function Zeros(): (z: Sector)
    ensures forall k :: 0 <= k < BLOCK ==> z[k] == 0
  {
    seq(BLOCK, _ => 0)
  }

  // ---- file allocation table ----

  /** The 28-bit link of cluster `c`. */
  function FatGet(b: seq<Byte>, c: nat): (v: nat)
    requires |b| == FAT_BYTES && c < FAT_ENTRIES
    ensures v <= EOC
  {
    U32(b, 4 * c) % 0x1000_0000
  }

  /** All links of a table image. */
  function FatView(b: seq<Byte>): (f: seq<int>)
    requires |b| == FAT_BYTES
    ensures |f| == FAT_ENTRIES
    ensures forall c :: 0 <= c < FAT_ENTRIES ==> f[c] == FatGet(b, c)
  {
    seq(FAT_ENTRIES, c requires 0 <= c < FAT_ENTRIES => FatGet(b, c))
  }

  /** Writing one link changes that link and no other. */
  lemma FatSetView(b: seq<Byte>, c: nat, v: nat)
    requires |b| == FAT_BYTES && c < FAT_ENTRIES && v < 0x1_0000_0000
    ensures FatView(Splice(b, 4 * c, Le32(v))) == FatView(b)[c := v % 0x1000_0000]
  {
    var r := Splice(b, 4 * c, Le32(v));
    forall k | 0 <= k < FAT_ENTRIES
      ensures FatGet(r, k) == if k == c then v % 0x1000_0000 else FatGet(b, k)
    {
      U32Splice(b, 4 * c, v, 4 * k);
    }
  }

  /** The table image spread over the sectors after the boot sector. */
  function FatBytes(blocks: seq<Sector>): (b: seq<Byte>)
    requires |blocks| > FAT_SECTORS
    ensures |b| == FAT_BYTES
  {
    seq(FAT_BYTES, k requires 0 <= k < FAT_BYTES => blocks[1 + k / BLOCK][k % BLOCK])
  }

  /** The i-th sector of a table image. */
  function FatSector(b: seq<Byte>, i: nat): Sector
    requires |b| == FAT_BYTES && i < FAT_SECTORS
  {
    b[BLOCK * i..BLOCK * (i + 1)]
  }

  /** Writing back every sector of an image makes it the stored table. */
  lemma FatStored(blocks: seq<Sector>, b: seq<Byte>)
    requires |blocks| > FAT_SECTORS && |b| == FAT_BYTES
    requires forall i :: 0 <= i < FAT_SECTORS ==> blocks[1 + i] == FatSector(b, i)
    ensures FatBytes(blocks) == b
  {
    forall k | 0 <= k < FAT_BYTES
      ensures FatBytes(blocks)[k] == b[k]
    {
      var i := k / BLOCK;
      assert blocks[1 + i] == FatSector(b, i);
      assert FatSector(b, i)[k % BLOCK] == b[BLOCK * i + k % BLOCK];
    }
  }

  /** Block 1 + c / 128 holds the link of cluster c in the four bytes from 4 (c % 128) on, the least
      significant first; the upper four bits do not count. */
  lemma LinkBytes(blocks: seq<Sector>, c: nat)
    requires |blocks| > FAT_SECTORS && c < FAT_ENTRIES
    ensures var s, o := blocks[1 + c / 128], 4 * (c % 128);
            FatGet(FatBytes(blocks), c) == (s[o] as int + 0x100 * s[o + 1] as int + 0x1_0000 * s[o + 2] as int + 0x100_0000 * s[o + 3] as int) % 0x1000_0000
  {
    var b, s, o := FatBytes(blocks), blocks[1 + c / 128], 4 * (c % 128);
    assert 4 * c == 512 * (c / 128) + o;
    assert b[4 * c] == s[o] && b[4 * c + 1] == s[o + 1] && b[4 * c + 2] == s[o + 2] && b[4 * c + 3] == s[o + 3];
  }

  // ---- clusters ----

  /** The data area, indexed by cluster; the two numbers below the root are unused. */
  function DataArea(blocks: seq<Sector>): (d: seq<Sector>)
    requires |blocks| >= DEVICE_BLOCKS
    ensures |d| == FAT_ENTRIES
    ensures forall c :: ROOT <= c <= MAX_ALLOC ==> d[c] == blocks[Lba(c)]
  {
    seq<Sector>(FAT_ENTRIES, c requires 0 <= c < FAT_ENTRIES => ClusterAt(blocks, c))
  }

  function ClusterAt(blocks: seq<Sector>, c: nat): Sector
    requires |blocks| >= DEVICE_BLOCKS && c < FAT_ENTRIES
  {
    if c < ROOT then Zeros() else blocks[Lba(c)]
  }

  function Lba(cluster: nat): (lba: nat)
    requires ROOT <= cluster <= MAX_ALLOC
    ensures 1 + FAT_SECTORS <= lba < DEVICE_BLOCKS
  {
    1 + FAT_SECTORS + (cluster - ROOT)
  }

  /** The root directory starts in block 65, behind the boot sector and the 64 blocks of the table. */
  lemma LbaIs(c: nat)
    requires ROOT <= c <= MAX_ALLOC
    ensures Lba(c) == 65 + (c - 2)
  {
  }

  /** A cluster write changes that cluster and leaves boot sector and table alone. */
  lemma ClusterWrite(blocks: seq<Sector>, c: nat, s: Sector)
    requires |blocks| >= DEVICE_BLOCKS && ROOT <= c <= MAX_ALLOC
    ensures var after := blocks[Lba(c) := s];
            && DataArea(after) == DataArea(blocks)[c := s]
            && FatBytes(after) == FatBytes(blocks)
            && after[0] == blocks[0]
  {
  }

  // ---- boot sector ----

  predicate BootValid(boot: Sector) {
    && U16(boot, 11) == BLOCK
    && boot[13] == 1
    && U16(boot, 14) == 1
    && boot[16] == 1
    && U32(boot, 36) == FAT_SECTORS
    && U32(boot, 44) == ROOT
    && boot[510] == 0x55
    && boot[511] == 0xAA
  }

  /** The bytes that make a boot sector valid: 512 bytes a sector, one sector a cluster, one
      reserved sector, one table of 64 sectors, the root at cluster 2, and the signature. */
  lemma BootValidIff(b: Sector)
    ensures BootValid(b) <==> b[11..17] == [0, 2, 1, 1, 0, 1] && b[36..40] == [64, 0, 0, 0] && b[44..48] == [2, 0, 0, 0] && b[510..512] == [0x55, 0xAA]
  {
    Four(b, 36, 64);
    Four(b, 44, 2);
    var s, t := b[11..17], b[510..512];
    assert s[0] == b[11] && s[1] == b[12] && s[2] == b[13] && s[3] == b[14] && s[4] == b[15] && s[5] == b[16];
    assert s == [s[0], s[1], s[2], s[3], s[4], s[5]] && t == [t[0], t[1]];
    assert t[0] == b[510] && t[1] == b[511];
  }

  lemma Four(b: Sector, o: nat, v: Byte)
    requires o + 4 <= BLOCK
    ensures U32(b, o) == v <==> b[o..o + 4] == [v, 0, 0, 0]
  {
    var s := b[o..o + 4];
    assert s[0] == b[o] && s[1] == b[o + 1] && s[2] == b[o + 2] && s[3] == b[o + 3];
    assert s == [s[0], s[1], s[2], s[3]];
  }

  // ---- directory slots ----

  /** What the service reads in a 32-byte directory slot. */
  datatype Slot =
    | End                                                        // first byte 0x00
    | Dead                                                       // 0xE5, or a long-name slot
    | Live(name: seq<Byte>, attr: Byte, cluster: int, size: int)

  function SlotAt(s: Sector, i: nat): (slot: Slot)
    requires i < SLOTS
    ensures slot.Live? ==> |slot.name| == 11 && 0 <= slot.size < 0x1_0000_0000 && 0 <= slot.cluster
  {
    var off := SLOT_BYTES * i;
    if s[off] == 0 then End
    else if s[off] == 0xE5 || s[off + 11] == 0x0F then Dead
    else Live(s[off..off + 11], s[off + 11], 0x1_0000 * U16(s, off + 20) + U16(s, off + 26), U32(s, off + 28))
  }

  /** Bytes outside a slot do not matter to it. */
  lemma SlotLocal(s: Sector, t: Sector, i: nat)
    requires i < SLOTS
    requires forall k :: SLOT_BYTES * i <= k < SLOT_BYTES * (i + 1) ==> s[k] == t[k]
    ensures SlotAt(s, i) == SlotAt(t, i)
  {
    var off := SLOT_BYTES * i;
    assert s[off..off + 11] == t[off..off + 11];
  }

  /** The byte writes that start an entry in a slot: name, attribute, and both
      halves of the first cluster. The other bytes keep their values. */
  function StartSlot(s: Sector, i: nat, name: seq<Byte>, attr: Byte, cluster: nat): (t: Sector)
    requires i < SLOTS && |name| == 11
  {
    var off := SLOT_BYTES * i;
    var t := Splice(s, off, name);
    var t := Splice(t, off + 11, [attr]);
    var t := Splice(t, off + 20, Le16(cluster / 0x1_0000));
    Splice(t, off + 26, Le16(cluster))
  }

  /** A started entry with its size. */
  function FillSlot(s: Sector, i: nat, name: seq<Byte>, attr: Byte, cluster: nat, size: nat): (t: Sector)
    requires i < SLOTS && |name| == 11
  {
    Splice(StartSlot(s, i, name, attr, cluster), SLOT_BYTES * i + 28, Le32(size))
  }

  lemma FillIs(s: Sector, i: nat, name: seq<Byte>, attr: Byte, cluster: nat, size: nat)
    requires i < SLOTS && |name| == 11
    ensures FillSlot(s, i, name, attr, cluster, size) == Splice(StartSlot(s, i, name, attr, cluster), SLOT_BYTES * i + 28, Le32(size))
  {
  }

  /** A filled slot reads back as the entry written, unless its first name byte
      is the deletion mark; the other slots are untouched. */
  lemma FillSlotReads(s: Sector, i: nat, name: seq<Byte>, attr: Byte, cluster: nat, size: nat, k: nat)
    requires i < SLOTS && |name| == 11 && k < SLOTS
    requires cluster < 0x1_0000_0000 && size < 0x1_0000_0000
    requires name[0] != 0 && attr != 0x0F
    ensures SlotAt(FillSlot(s, i, name, attr, cluster, size), k) ==
            if k != i then SlotAt(s, k)
            else if name[0] == 0xE5 then Dead
            else Live(name, attr, cluster, size)
  {
    var t := FillSlot(s, i, name, attr, cluster, size);
    if k != i {
      SlotLocal(s, t, k);
    } else {
      FillSlotFields(s, i, name, attr, cluster, size);
      assert t[SLOT_BYTES * i] == name[0];
    }
  }

  lemma FillSlotFields(s: Sector, i: nat, name: seq<Byte>, attr: Byte, cluster: nat, size: nat)
    requires i < SLOTS && |name| == 11
    requires cluster < 0x1_0000_0000 && size < 0x1_0000_0000
    ensures var t, off := FillSlot(s, i, name, attr, cluster, size), SLOT_BYTES * i;
            && t[off..off + 11] == name && t[off + 11] == attr
            && 0x1_0000 * U16(t, off + 20) + U16(t, off + 26) == cluster
            && U32(t, off + 28) == size
  {
    var t, off := FillSlot(s, i, name, attr, cluster, size), SLOT_BYTES * i;
    assert t[off..off + 11] == name;
    var hi, lo, sz := Le16(cluster / 0x1_0000), Le16(cluster), Le32(size);
    assert t[off + 20] == hi[0] && t[off + 21] == hi[1];
    assert t[off + 26] == lo[0] && t[off + 27] == lo[1];
    assert t[off + 28] == sz[0] && t[off + 29] == sz[1] && t[off + 30] == sz[2] && t[off + 31] == sz[3];
    assert U16(t, off + 20) == cluster / 0x1_0000 % 0x1_0000 == cluster / 0x1_0000;
    assert U16(t, off + 26) == cluster % 0x1_0000;
  }

  /** Rewriting the size field of a live slot. */
  lemma ResizeReads(s: Sector, i: nat, size: nat, k: nat)
    requires i < SLOTS && k < SLOTS && size < 0x1_0000_0000
    requires SlotAt(s, i).Live?
    ensures SlotAt(Splice(s, SLOT_BYTES * i + 28, Le32(size)), k) ==
            if k == i then SlotAt(s, i).(size := size) else SlotAt(s, k)
  {
    var off := SLOT_BYTES * i;
    var t: Sector := Splice(s, off + 28, Le32(size));
    if k != i {
      SlotLocal(s, t, k);
    } else {
      U32Splice(s, off + 28, size, off + 28);
      assert t[off..off + 11] == s[off..off + 11];
    }
  }

  /** Marking a slot deleted. */
  lemma DeleteReads(s: Sector, i: nat, k: nat)
    requires i < SLOTS && k < SLOTS
    ensures SlotAt(s[SLOT_BYTES * i := 0xE5], k) == if k == i then Dead else SlotAt(s, k)
  {
    if k != i {
      SlotLocal(s, s[SLOT_BYTES * i := 0xE5], k);
    }
  }
}
