/**
 Formatting a device: the layout, the zeroed regions, the root catalog, and the
 invariants that every later operation relies on.
 */
module OwfsFormat {
  import opened Words
  import opened Bitmap
  import opened Veils
  import opened Records
  import opened Fletcher64
  import opened Layout
  import opened OwfsTypes
  import opened OwfsVolume
  import opened OwfsBitmap
  import opened OwfsOwnership
  import opened OwfsInode
  import opened OwfsDirectory
  import opened OwfsCatalog
  import opened OwfsState
  import opened OwfsSync

  /** What every operation keeps on a device that does not fail. */
  ghost predicate InOrder(v: Volume)
    reads v
  {
    var r: bool :| forall k {:trigger Lifted(Ordering, k)} :: Lifted(Ordering, k) ==> (r <==> InOrderInFull(v));
    r
  }

  ghost predicate InOrderInFull(v: Volume)
    reads v
  {
    v.Valid() && Sound(v.fs, v.geo) && AllTidy(v.fs) && Identified(v)
  }

  lemma OpenInOrder(v: Volume)
    ensures InOrder(v) <==> InOrderInFull(v)
  {
    assert Lifted(Ordering, 0);
  }

  // ---- the empty volume ----

  function EmptyTable(n: nat): (t: seq<Inode>)
    ensures |t| == n && forall i :: 0 <= i < n ==> Zeroed(t[i])
  {
    if n == 0 then [] else EmptyTable(n - 1) + [ZERO_INODE]
  }

  lemma {:induction false} AllVacant(n: nat)
    ensures Vacancies(EmptyTable(n)) == n
  {
    if n > 0 {
      assert EmptyTable(n)[..n - 1] == EmptyTable(n - 1);
      AllVacant(n - 1);
    }
  }

  ghost predicate ZeroFrom(blocks: seq<Block>, from: nat, to: nat) {
    to <= |blocks| && forall b :: from <= b < to ==> blocks[b] == ZeroBlock()
  }

  lemma ZeroBits(blocks: seq<Block>, g: Geometry)
    requires Laid(g) && ZeroFrom(blocks, 17, g.inodeStart)
    ensures BitmapRep(blocks, g, {})
  {
    forall r: nat | r < g.totalBlocks - g.dataStart
      ensures !Marked(blocks, r)
    {
      BitmapBlockBelow(g, r);
      assert blocks[17 + r / 32768] == ZeroBlock();
      NoBits(r % 8);
    }
  }

  lemma ZeroTable(blocks: seq<Block>, g: Geometry, table: seq<Inode>)
    requires Laid(g) && ZeroFrom(blocks, g.inodeStart, g.dataStart) && |table| == 4096
    requires forall i :: 0 <= i < |table| ==> Zeroed(table[i])
    ensures TableRep(blocks, g, table) && TableSound(table)
  {
    forall i: nat | i < 4096
      ensures SlotBytes(blocks, g.inodeStart, i) == EncodeInode(table[i])
    {
      assert blocks[g.inodeStart + i / 16] == ZeroBlock();
      ZeroSlot(i % 16);
      ZeroInodeBytes(table[i]);
    }
  }

  ghost function Blank(blocks: seq<Block>, g: Geometry): FS
    requires g.totalBlocks <= |blocks|
  {
    FS({}, EmptyTable(g.totalInodes), blocks[..g.totalBlocks])
  }

  lemma BlankStored(blocks: seq<Block>, g: Geometry)
    requires Laid(g) && g.totalBlocks <= |blocks| && ZeroFrom(blocks, 17, g.inodeStart)
    requires ZeroFrom(blocks, g.inodeStart, g.dataStart)
    ensures Sized(g, Blank(blocks, g)) && Stored(blocks, g, Blank(blocks, g))
    ensures Unused(g, {}) == g.totalBlocks - g.dataStart
  {
    var fs := Blank(blocks, g);
    ZeroBits(blocks, g);
    ZeroTable(blocks, g, fs.table);
    OpenStored(blocks, g, fs);
    OpenUnused(g, {});
  }

  method ZeroRun(v: Volume, from: nat, count: nat) returns (st: Status)
    requires from + count <= |v.blocks|
    modifies v`blocks
    ensures |v.blocks| == |old(v.blocks)|
    ensures st == Ok ==>
      && ZeroFrom(v.blocks, from, from + count)
      && forall b :: 0 <= b < |v.blocks| && !(from <= b < from + count) ==> v.blocks[b] == old(v.blocks)[b]
    ensures v.healthy ==> st == Ok
  {
    var i := 0;
    while i < count
      invariant 0 <= i <= count && |v.blocks| == |old(v.blocks)|
      invariant ZeroFrom(v.blocks, from, from + i)
      invariant forall b :: 0 <= b < |v.blocks| && !(from <= b < from + i) ==> v.blocks[b] == old(v.blocks)[b]
    {
      var hres := v.WriteBlock(from + i, ZeroBlock());
      if hres != HtlOk {
        return WriteStatus(hres);
      }
      i := i + 1;
    }
    st := Ok;
  }

  // ---- the root catalog ----

  function RootInode(block: u32): Inode {
    InodeRecord(0, ENTRY_CATALOG, 1, DefaultMode(ENTRY_CATALOG), 0, 1, Zeros(8), 0,
                [block, 0, 0, 0, 0, 0, 0, 0, 0, 0], 0, NameField([0x2F]), Zeros(4), 0, Zeros(45), 0)
  }

  /** The record of the root, field by field: a catalog named `/`, its own parent, with one block. */
  predicate RootRecord(ino: Inode, block: nat) {
    && ino.number == 0 && ino.entryType == 2 && ino.nameLength == 1 && ino.name[0] == 0x2F
    && (forall k :: 1 <= k < 128 ==> ino.name[k] == 0)
    && ino.mode == [0xED, 0x01, 0, 0] && ino.owner == [0, 0, 0, 0] && ino.security == 0 && ino.parent == 0
    && ino.size == 0 && ino.blockCount == 1 && ino.direct[0] == block && ino.indirect == 0
    && (forall k :: 1 <= k < 10 ==> ino.direct[k] == 0)
    && (forall k :: 0 <= k < 8 ==> ino.stamps[k] == 0) && (forall k :: 0 <= k < 45 ==> ino.reserved[k] == 0)
  }

  lemma RootFields(ino: Inode, block: u32)
    requires Restamped(RootInode(block), ino)
    ensures RootRecord(ino, block)
  {
  }

  /** Slot 0 holds a live catalog of one block without names; no other slot was ever used. */
  ghost predicate RootAlone(fs: FS) {
    && |fs.table| > 0 && fs.table[0].entryType == ENTRY_CATALOG && fs.table[0].security == 0
    && fs.table[0].blockCount == 1 && Dir(fs, 0) == map[]
    && forall i :: 0 < i < |fs.table| ==> fs.table[i].entryType == 0 && fs.table[i].security == 0
  }

  /** The volume with nothing but an empty root catalog. */
  lemma RootOnly(fs: FS, g: Geometry, block: u32, root: Inode)
    requires Laid(g) && Sized(g, fs) && InData(g, block) && Restamped(RootInode(block), root)
    requires fs.used == {block as nat} && fs.table == EmptyTable(g.totalInodes)[0 := root]
    requires fs.data[block] == ZeroBlock()
    ensures Sound(fs, g) && AllTidy(fs) && RootAlone(fs) && Vacancies(fs.table) == 4095
  {
    OpenSound(fs, g);
    OpenAllTidy(fs);
    AllVacant(g.totalInodes);
    VacanciesUpdate(EmptyTable(g.totalInodes), 0, root);
    assert root.direct[0] == block;
    assert Entries(fs.data, root, 1) == Entries(fs.data, root, 0) + SlotsOf(BlockOf(fs.data, root, 0));
    ZeroSlots(ZeroBlock());
    DirPad([], SlotsOf(ZeroBlock()));
    assert Cat(fs, 0) == [] + SlotsOf(ZeroBlock());
    assert Between(fs.data, root, 0, 1) == Between(fs.data, root, 0, 0) + {block as nat};
    forall i: nat | Holds(fs, i)
      ensures i == 0
    {
    }
  }

  method MakeRoot(v: Volume) returns (st: Status)
    requires v.Valid() && v.Writable() && v.fs.used == {} && v.fs.table == EmptyTable(v.geo.totalInodes)
    requires Room(v.Free()) > 0
    modifies v`blocks, v`freeBlocks, v`fs
    ensures v.Valid()
    ensures st == Ok ==> Took(old(v.Free()), v.Free(), 1)
    ensures st == Ok ==> Sound(v.fs, v.geo) && AllTidy(v.fs) && RootAlone(v.fs) && Vacancies(v.fs.table) == 4095
    ensures st == Ok ==> |v.fs.table| == 4096 && RootRecord(v.fs.table[0], v.geo.dataStart)
    ensures v.healthy ==> st == Ok
  {
    var block;
    st, block := BitmapAlloc(v);
    if st == Ok {
      FirstOfAll(v.geo, old(v.fs.used), block);
      st := StoreRoot(v, block);
    }
  }

  lemma FirstOfAll(g: Geometry, used: set<nat>, block: u32)
    requires used == {} && InData(g, block) && forall b :: g.dataStart <= b < block ==> b in used
    ensures block == g.dataStart
  {
    assert g.dataStart as nat !in used;
  }

  /** The root's block, zeroed, and its record. */
  method StoreRoot(v: Volume, block: u32) returns (st: Status)
    requires v.Valid() && v.Writable() && InData(v.geo, block) && v.fs.used == {block as nat}
    requires v.fs.table == EmptyTable(v.geo.totalInodes)
    modifies v`blocks, v`freeBlocks, v`fs
    ensures v.Valid()
    ensures st == Ok ==> v.Free() == old(v.Free())
    ensures st == Ok ==> Sound(v.fs, v.geo) && AllTidy(v.fs) && RootAlone(v.fs) && Vacancies(v.fs.table) == 4095
    ensures st == Ok ==> |v.fs.table| == 4096 && RootRecord(v.fs.table[0], block)
    ensures v.healthy ==> st == Ok
  {
    var hres := WriteData(v, block, ZeroBlock());
    if hres != HtlOk {
      var ignored := BitmapFree(v, block);
      return WriteStatus(hres);
    }
    var root;
    st, root := InodeWrite(v, 0, RootInode(block));
    if st == Ok {
      RootOnly(v.fs, v.geo, block, root);
      RootFields(root, block);
    }
  }

  // ---- formatting ----

  /** What identifies a fresh volume. */
  function FreshId(volumeLabel: seq<byte>, nonce: seq<byte>): Ident
    requires |volumeLabel| == 64 && |nonce| == 12
  {
    Identity(MAGIC, 0x0002_0001, 4096, 0, volumeLabel, Zeros(256), Zeros(256), nonce, Zeros(3432))
  }

  method FillHeader(v: Volume, total: u32, bitmapBlocks: u32, volumeLabel: seq<byte>, nonce: seq<byte>)
    requires |volumeLabel| == 64 && |nonce| == 12 && 273 + bitmapBlocks < total
    modifies v`id, v`geo, v`freeBlocks, v`freeInodes, v`mountCount, v`state, v`sum1, v`sum2, v`security, v`checksum
    ensures v.geo == Geometry(total, 4096, 17, bitmapBlocks, 17 + bitmapBlocks, 256, 273 + bitmapBlocks)
    ensures v.freeBlocks == total - (273 + bitmapBlocks) && v.freeInodes == 4096
    ensures v.Writable() && v.state == CLEAN && v.security == 0 && Identified(v)
    ensures v.id == FreshId(volumeLabel, nonce) && v.mountCount == 0
  {
    v.id := FreshId(volumeLabel, nonce);
    v.geo := Geometry(total, 4096, 17, bitmapBlocks, 17 + bitmapBlocks, 256, 273 + bitmapBlocks);
    v.freeBlocks, v.freeInodes, v.mountCount, v.state := total - (273 + bitmapBlocks), 4096, 0, CLEAN;
    v.sum1, v.sum2, v.security, v.checksum := 0, 0, 0, 0;
  }

  /** How formatting lays out a device. */
  function Planned(total: u32): Geometry
    requires OwfsAccepts(total)
  {
    var b := OwfsBitmapBlocks(total);
    Geometry(total, 4096, 17, b, 17 + b, 256, 273 + b)
  }

  /**
   Formats the first `total` blocks; accepts exactly the sizes whose layout works
   out.  It works on a superblock of its own: the one in memory is as before, and
   the volume has to be mounted.
   */
  method FormatVolume(v: Volume, total: u32, volumeLabel: seq<byte>, nonce: seq<byte>) returns (st: Status)
    requires |volumeLabel| == 64 && |nonce| == 12
    modifies v
    ensures v.healthy == old(v.healthy) && Super(v) == old(Super(v))
    ensures total > |old(v.blocks)| || !OwfsAccepts(total) ==> st == InvalidParam && v.blocks == old(v.blocks)
    ensures v.healthy && total <= |old(v.blocks)| && OwfsAccepts(total) ==> st == Ok
    ensures st == Ok ==> OwfsAccepts(total) && Holding(v.blocks, Planned(total), v.fs)
    ensures v.healthy && st == Ok ==> |v.blocks| > 16 && OnDisk(v).geo == Planned(total) && Formatted(v)
    ensures v.healthy && st == Ok ==> OnDisk(v).state == After(old(Observed(v)), Format).disk
    ensures v.healthy && st == Ok ==>
      && total >= 273 && |v.fs.table| == 4096 && RootRecord(v.fs.table[0], OnDisk(v).geo.dataStart)
      && (var b := (total - 273 + 32768) / 32769;
          b < total - 273 && OnDisk(v).geo == Geometry(total, 4096, 17, b, 17 + b, 256, 273 + b))
    ensures v.healthy && st == Ok ==>
      var id := OnDisk(v).id;
      && id.magic == 0x4F57_4653 && id.version == 0x0002_0001 && id.blockSize == 4096 && id.root == 0
      && id.volumeLabel == volumeLabel && id.nonce == nonce && OnDisk(v).mountCount == 0
      && (forall k :: 0 <= k < 256 ==> id.key1[k] == 0 && id.key2[k] == 0)
      && (forall k :: 0 <= k < 3432 ==> id.reserved[k] == 0)
  {
    var callers := Super(v);
    st := FormatOwn(v, total, volumeLabel, nonce);
    Load(v, callers);
  }

  /** The device holds an empty root catalog, and a superblock that is right about it. */
  ghost predicate Formatted(v: Volume)
    reads v
    requires |v.blocks| > 16
  {
    var s := OnDisk(v);
    && Authentic(s) && s.state == CLEAN && s.security == 0
    && Holding(v.blocks, s.geo, v.fs) && Sound(v.fs, s.geo) && AllTidy(v.fs) && RootAlone(v.fs)
    && SumOf(v.blocks, s.geo.bitmapBlocks, Sums(s.sum1, s.sum2))
    && s.freeBlocks == Unused(s.geo, v.fs.used) == s.geo.totalBlocks - s.geo.dataStart - 1 && s.freeInodes == 4096
  }

  /** The work, with the formatting superblock in memory. */
  method FormatOwn(v: Volume, total: u32, volumeLabel: seq<byte>, nonce: seq<byte>) returns (st: Status)
    requires |volumeLabel| == 64 && |nonce| == 12
    modifies v
    ensures v.healthy == old(v.healthy)
    ensures total > |old(v.blocks)| || !OwfsAccepts(total) ==> st == InvalidParam && v.blocks == old(v.blocks)
    ensures v.healthy && total <= |old(v.blocks)| && OwfsAccepts(total) ==> st == Ok
    ensures st == Ok ==> OwfsAccepts(total) && v.Exact() && v.geo == Planned(total)
    ensures v.healthy && st == Ok ==> |v.blocks| > 16 && OnDisk(v) == Super(v) && Formatted(v)
    ensures v.healthy && st == Ok ==>
      && v.id == FreshId(volumeLabel, nonce) && v.mountCount == 0
      && |v.fs.table| == 4096 && RootRecord(v.fs.table[0], v.geo.dataStart)
  {
    if total > |v.blocks| || total < 275 {
      return InvalidParam;
    }
    var bitmapBlocks := OwfsBitmapBlocks(total);
    if total <= 273 + bitmapBlocks || bitmapBlocks == 0 {
      return InvalidParam;
    }
    OwfsLayoutLeast(total, 0);
    FillHeader(v, total, bitmapBlocks, volumeLabel, nonce);
    st := Populate(v);
  }

  /** The regions, the root and the first sync. */
  method Populate(v: Volume) returns (st: Status)
    requires OwfsSync.Fits(v) && v.freeBlocks == v.geo.totalBlocks - v.geo.dataStart && v.freeInodes == 4096
    requires v.Writable() && v.state == CLEAN && v.security == 0 && Identified(v)
    modifies v`blocks, v`freeBlocks, v`fs, v`checksum, v`state, v`sum1, v`sum2, v`drift
    ensures st == Ok ==> v.Exact()
    ensures v.healthy ==> st == Ok && |v.blocks| > 16 && OnDisk(v) == Super(v) && Formatted(v)
    ensures v.healthy ==> |v.fs.table| == 4096 && RootRecord(v.fs.table[0], v.geo.dataStart)
  {
    st := Clear(v);
    if st == Ok {
      st := MakeRoot(v);
      if st == Ok {
        st := FirstSync(v);
      }
    }
  }

  method FirstSync(v: Volume) returns (st: Status)
    requires v.Exact() && v.state == CLEAN && v.security == 0 && Identified(v) && v.freeInodes == 4096
    requires Sound(v.fs, v.geo) && AllTidy(v.fs) && RootAlone(v.fs)
    requires v.freeBlocks == v.geo.totalBlocks - v.geo.dataStart - 1
    modifies v`blocks, v`checksum, v`state, v`sum1, v`sum2
    ensures |v.blocks| == |old(v.blocks)| && v.Exact()
    ensures v.healthy ==> st == Ok && |v.blocks| > 16 && OnDisk(v) == Super(v) && Formatted(v)
  {
    assert v.geo.totalBlocks <= |v.blocks| by { OpenStored(v.blocks, v.geo, v.fs); }
    st := SyncChanges(v);
  }

  /** Zeroes the bitmap and the inode table. */
  method Clear(v: Volume) returns (st: Status)
    requires Laid(v.geo) && v.geo.totalBlocks <= |v.blocks| && v.freeBlocks == v.geo.totalBlocks - v.geo.dataStart
    modifies v`blocks, v`fs, v`drift
    ensures |v.blocks| == |old(v.blocks)|
    ensures st == Ok ==>
      && v.Valid() && v.fs.used == {} && v.fs.table == EmptyTable(v.geo.totalInodes)
      && v.Free() == Stock(v.freeBlocks, v.freeBlocks)
    ensures v.healthy ==> st == Ok
  {
    st := ZeroRun(v, v.geo.bitmapStart, v.geo.bitmapBlocks);
    if st != Ok {
      return;
    }
    st := ZeroRun(v, v.geo.inodeStart, v.geo.inodeBlocks);
    if st != Ok {
      return;
    }
    v.fs := Blank(v.blocks, v.geo);
    BlankStored(v.blocks, v.geo);
    Measure(v);
  }
}
