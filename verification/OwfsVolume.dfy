/**
 A mounted OWFS volume: the device's blocks and the in-memory superblock, with
 the abstract state they stand for (blocks in use, inode table, data blocks).
 */
module OwfsVolume {
  import opened Words
  import opened Veils
  import opened Bitmap
  import opened Records
  import opened Crc32c
  import opened OwfsTypes

  /** Outcome of one device call. */
  datatype Htl = HtlOk | HtlIo | HtlWriteProtect

  /** What the bytes on the device mean. Blocks are named by their device numbers. */
  datatype FS = FS(used: set<nat>, table: seq<Inode>, data: seq<Block>)

  /** The regions: superblock at 16, bitmap from 17, inode table, data. */
  predicate Laid(g: Geometry) {
    && g.bitmapStart == 17
    && g.inodeStart == 17 + g.bitmapBlocks
    && g.inodeBlocks == 256
    && g.totalInodes == 4096
    && g.dataStart == g.inodeStart + 256
    && g.dataStart < g.totalBlocks
    && g.totalBlocks - g.dataStart <= 32768 * g.bitmapBlocks < 0x1_0000_0000
  }

  /** `b` is a block of the data region. */
  predicate InData(g: Geometry, b: int) {
    g.dataStart <= b < g.totalBlocks
  }

  /** The block that holds the superblock. */
  function Head(blocks: seq<Block>): Block {
    if |blocks| > 16 then blocks[16] else ZeroBlock()
  }

  ghost predicate BitmapRep(blocks: seq<Block>, g: Geometry, used: set<nat>) {
    && (forall b :: b in used ==> InData(g, b))
    && (forall r: nat {:trigger Marked(blocks, r)} :: r < g.totalBlocks - g.dataStart ==>
           (Marked(blocks, r) <==> g.dataStart + r in used))
  }

  ghost predicate TableRep(blocks: seq<Block>, g: Geometry, table: seq<Inode>) {
    && |table| == 4096
    && (forall i: nat {:trigger SlotBytes(blocks, g.inodeStart, i)} :: i < 4096 ==>
           SlotBytes(blocks, g.inodeStart, i) == EncodeInode(table[i]))
  }

  ghost predicate DataRep(blocks: seq<Block>, g: Geometry, data: seq<Block>) {
    && |data| == g.totalBlocks <= |blocks|
    && (forall b {:trigger blocks[b]} :: InData(g, b) ==> data[b] == blocks[b])
  }

  ghost predicate Rep(blocks: seq<Block>, g: Geometry, fs: FS) {
    BitmapRep(blocks, g, fs.used) && TableRep(blocks, g, fs.table) && DataRep(blocks, g, fs.data)
  }

  /** Every slot that was ever used holds a record whose checksum verifies, of a type the code writes. */
  ghost predicate TableSound(table: seq<Inode>) {
    && (forall i {:trigger InodeVerifies(table[i])} :: 0 <= i < |table| && table[i].entryType != 0 ==>
           InodeVerifies(table[i]))
    && (forall i :: 0 <= i < |table| ==> KnownType(table[i].entryType))
  }

  /**
   The device stores `fs`.  The meaning is veiled, so that proofs about the abstract
   state do not look at bytes unless they ask to.
   */
  ghost predicate Stored(blocks: seq<Block>, g: Geometry, fs: FS) {
    var r: bool :| forall k {:trigger Lifted(Device, k)} :: Lifted(Device, k) ==> (r <==> StoredInFull(blocks, g, fs));
    r
  }

  ghost predicate StoredInFull(blocks: seq<Block>, g: Geometry, fs: FS) {
    Rep(blocks, g, fs) && TableSound(fs.table)
  }

  lemma OpenStored(blocks: seq<Block>, g: Geometry, fs: FS)
    ensures Stored(blocks, g, fs) <==> StoredInFull(blocks, g, fs)
  {
    assert Lifted(Device, 0);
  }

  /** The superblock's count of free blocks, and how many there are. */
  datatype Stock = Stock(free: u32, clear: nat)

  /** How many blocks allocation can hand out. */
  function Room(s: Stock): nat {
    Min(s.free, s.clear)
  }

  /** `k` blocks were taken. */
  predicate Took(s: Stock, s': Stock, k: nat) {
    s.free == s'.free + k && s.clear == s'.clear + k
  }

  /** `k` blocks were given back; the count is in 32 bits. */
  predicate Gave(s: Stock, s': Stock, k: nat) {
    s'.free == Wrap(s.free + k) && s'.clear == s.clear + k
  }

  /** How many data blocks are not in use. */
  ghost function Unused(g: Geometry, used: set<nat>): nat {
    assert IsUnused(UnusedInFull(g, used), g, used);
    var n: nat :| IsUnused(n, g, used);
    n
  }

  ghost predicate IsUnused(n: nat, g: Geometry, used: set<nat>) {
    forall k {:trigger Lifted(Count, k)} :: Lifted(Count, k) ==> n == UnusedInFull(g, used)
  }

  ghost function UnusedInFull(g: Geometry, used: set<nat>): nat {
    if |used| <= g.totalBlocks - g.dataStart then g.totalBlocks - g.dataStart - |used| else 0
  }

  lemma OpenUnused(g: Geometry, used: set<nat>)
    ensures Unused(g, used) == UnusedInFull(g, used)
  {
    assert Lifted(Count, 0);
  }

  /** The free count differs from the number of free blocks by `drift`, in 32 bits. */
  ghost predicate Drifted(s: Stock, drift: u32) {
    var r: bool :| forall k {:trigger Lifted(Drift, k)} :: Lifted(Drift, k) ==> (r <==> DriftedInFull(s, drift));
    r
  }

  ghost predicate DriftedInFull(s: Stock, drift: u32) {
    s.free == Wrap(s.clear + drift)
  }

  lemma OpenDrifted(s: Stock, drift: u32)
    ensures Drifted(s, drift) <==> DriftedInFull(s, drift)
  {
    assert Lifted(Drift, 0);
  }

  /** The drift of any stock. */
  function DriftOf(s: Stock): u32 {
    if s.clear <= 0x1_0000_0000 then Wrap(s.free + (0x1_0000_0000 - s.clear)) else 0
  }

  lemma DriftIs(s: Stock, drift: u32)
    requires s.clear < 0x1_0000_0000
    ensures Drifted(s, drift) <==> drift == DriftOf(s)
    ensures drift == 0 ==> (Drifted(s, drift) <==> s.free == s.clear)
  {
    OpenDrifted(s, drift);
  }

  /** Taking blocks, or giving them back, does not change the drift. */
  lemma KeepsDrift(s: Stock, s': Stock, k: nat, drift: u32)
    requires Drifted(s, drift) && (Took(s, s', k) || Gave(s, s', k))
    ensures Drifted(s', drift)
  {
    OpenDrifted(s, drift);
    OpenDrifted(s', drift);
    if Took(s, s', k) {
      TakenWrap(s'.clear + drift, s'.free, k);
    } else {
      WrapTwice(s.clear + drift, k);
    }
  }

  lemma TakenWrap(a: nat, b: nat, k: nat)
    requires Wrap(a + k) == b + k
    ensures Wrap(a) == b
  {
    var q := (a + k) / 0x1_0000_0000;
    assert a + k == 0x1_0000_0000 * q + b + k;
    SameRemainder(b, q);
  }

  ghost predicate Sized(g: Geometry, fs: FS) {
    |fs.data| == g.totalBlocks && |fs.table| == 4096 && forall b :: b in fs.used ==> InData(g, b)
  }

  /** Whatever the drift, the count grows by as many blocks as were given back. */
  lemma StockGiven(g: Geometry, used: set<nat>, used': set<nat>, s: Stock, s': Stock, drift: u32)
    requires used' <= used && |used| <= g.totalBlocks - g.dataStart
    requires Drifted(s, drift) && Drifted(s', drift) && s.clear == Unused(g, used) && s'.clear == Unused(g, used')
    ensures Gave(s, s', |used - used'|)
  {
    OpenUnused(g, used);
    OpenUnused(g, used');
    OpenDrifted(s, drift);
    OpenDrifted(s', drift);
    assert |used| == |used'| + |used - used'| by { assert used == used' + (used - used'); }
    WrapTwice(s.clear + drift, |used - used'|);
  }

  lemma WrapTwice(a: nat, b: nat)
    ensures Wrap(Wrap(a) + b) == Wrap(a + b)
  {
    var q := a / 0x1_0000_0000;
    assert Wrap(a) == a - 0x1_0000_0000 * q;
    SameRemainder(Wrap(a) + b, q);
  }

  lemma SameRemainder(x: nat, q: nat)
    ensures Wrap(x + 0x1_0000_0000 * q) == Wrap(x)
  {
    assert (x + 0x1_0000_0000 * q) % 0x1_0000_0000 == x % 0x1_0000_0000;
  }

  predicate KnownType(t: byte) {
    t == 0 || t == 1 || t == 2 || t == 0x81 || t == 0x82
  }

  class Volume {
    var blocks: seq<Block>
    /** A healthy device completes every call; any other may fail any call. */
    var healthy: bool

    // the in-memory superblock
    var id: Ident
    var geo: Geometry
    var freeBlocks: u32
    var freeInodes: u32
    var mountCount: u32
    var state: Flags
    var sum1: u32
    var sum2: u32
    var security: u32
    var checksum: u32

    /** What the device holds. */
    ghost var fs: FS
    /** How far the free count is from the number of free blocks; no operation on files changes it. */
    ghost var drift: u32

    /** The geometry describes the layout and the abstract state is what the device holds. */
    ghost predicate Represents()
      reads this
    {
      Laid(geo) && Sized(geo, fs) && Stored(blocks, geo, fs)
    }

    ghost function Free(): Stock
      reads this
    {
      Stock(freeBlocks, Unused(geo, fs.used))
    }

    /** Moreover, the free count has drifted by `drift`. */
    ghost predicate Valid()
      reads this
    {
      Represents() && Drifted(Free(), drift)
    }

    /** The free count is right. */
    ghost predicate Exact()
      reads this
    {
      Represents() && freeBlocks == Unused(geo, fs.used)
    }

    predicate Writable()
      reads this
    {
      !state.locked && !state.error && !ReadOnly(security)
    }

    /** `owfs_volume_writable` */
    function WritableStatus(): Status
      reads this
    {
      if state.locked || state.error then VolumeDirty
      else if ReadOnly(security) then WriteProtected
      else Ok
    }

    /** Flushing the device's cache. */
    method Flush() returns (st: Htl)
      ensures healthy ==> st == HtlOk
    {
      st := *;
      if healthy {
        st := HtlOk;
      }
    }

    method ReadBlock(b: nat) returns (st: Htl, buf: Block)
      ensures st == HtlOk ==> b < |blocks| && buf == blocks[b]
      ensures healthy && b < |blocks| ==> st == HtlOk
    {
      st, buf := HtlIo, *;
      if b < |blocks| {
        var fails: bool := *;
        if healthy || !fails {
          st, buf := HtlOk, blocks[b];
        }
      }
    }

    /** A failed write leaves the block unchanged. */
    method WriteBlock(b: nat, buf: Block) returns (st: Htl)
      modifies this`blocks
      ensures st == HtlOk ==> b < |old(blocks)| && blocks == old(blocks)[b := buf]
      ensures st != HtlOk ==> blocks == old(blocks)
      ensures healthy && b < |old(blocks)| ==> st == HtlOk
    {
      st := *;
      if st == HtlOk && b >= |blocks| {
        st := HtlIo;
      }
      if healthy && b < |blocks| {
        st := HtlOk;
      }
      if st == HtlOk {
        blocks := blocks[b := buf];
      }
    }
  }

  /** How the filesystem reports a failed write. */
  function WriteStatus(st: Htl): (r: Status)
    requires st != HtlOk
    ensures r == WriteProtected || r == IoError
    ensures r == WriteProtected <==> st == HtlWriteProtect
  {
    if st == HtlWriteProtect then WriteProtected else IoError
  }

  // ---- the three regions do not touch each other ----

  lemma BitmapWriteKeeps(blocks: seq<Block>, g: Geometry, fs: FS, k: nat, buf: Block)
    requires Laid(g) && TableRep(blocks, g, fs.table) && DataRep(blocks, g, fs.data)
    requires 17 <= k < g.inodeStart
    ensures TableRep(blocks[k := buf], g, fs.table) && DataRep(blocks[k := buf], g, fs.data)
  {
    var after := blocks[k := buf];
    forall i: nat | i < 4096
      ensures SlotBytes(after, g.inodeStart, i) == EncodeInode(fs.table[i])
    {
      assert SlotBytes(after, g.inodeStart, i) == SlotBytes(blocks, g.inodeStart, i);
    }
    forall b | InData(g, b)
      ensures fs.data[b] == after[b]
    {
      assert after[b] == blocks[b];
    }
  }

  lemma BitmapBlockBelow(g: Geometry, r: nat)
    requires Laid(g) && r < g.totalBlocks - g.dataStart
    ensures 17 <= 17 + r / 32768 < g.inodeStart
  {
  }

  lemma TableWriteKeepsBits(blocks: seq<Block>, g: Geometry, used: set<nat>, k: nat, buf: Block)
    requires Laid(g) && BitmapRep(blocks, g, used)
    requires g.inodeStart <= k < |blocks|
    ensures BitmapRep(blocks[k := buf], g, used)
  {
    var after := blocks[k := buf];
    forall r: nat | r < g.totalBlocks - g.dataStart
      ensures Marked(after, r) <==> g.dataStart + r in used
    {
      BitmapBlockBelow(g, r);
      assert Marked(after, r) == Marked(blocks, r);
    }
  }

  lemma TableWriteKeepsData(blocks: seq<Block>, g: Geometry, data: seq<Block>, k: nat, buf: Block)
    requires Laid(g) && DataRep(blocks, g, data) && k < g.dataStart
    ensures DataRep(blocks[k := buf], g, data)
  {
    var after := blocks[k := buf];
    forall b | InData(g, b)
      ensures data[b] == after[b]
    {
      assert after[b] == blocks[b];
    }
  }

  /** Writing one slot's record replaces one inode. */
  lemma TableWrite(blocks: seq<Block>, g: Geometry, table: seq<Inode>, i: nat, ino: Inode)
    requires Laid(g) && TableRep(blocks, g, table) && i < 4096 && g.inodeStart + i / 16 < |blocks|
    ensures var k := g.inodeStart + i / 16;
            TableRep(blocks[k := WithSlot(blocks[k], i % 16, EncodeInode(ino))], g, table[i := ino])
  {
    var k := g.inodeStart + i / 16;
    var after := blocks[k := WithSlot(blocks[k], i % 16, EncodeInode(ino))];
    forall j: nat | j < 4096
      ensures SlotBytes(after, g.inodeStart, j) == EncodeInode(table[i := ino][j])
    {
      assert SlotBytes(blocks, g.inodeStart, j) == EncodeInode(table[j]);
      if j / 16 == i / 16 {
        WithSlotAt(blocks[k], i % 16, EncodeInode(ino), j % 16);
        assert j == i || j % 16 != i % 16;
      }
    }
  }

  // ---- data blocks ----

  method ReadData(v: Volume, b: nat) returns (st: Htl, buf: Block)
    requires v.Valid()
    ensures st == HtlOk && InData(v.geo, b) ==> buf == v.fs.data[b]
    ensures v.healthy && InData(v.geo, b) ==> st == HtlOk
  {
    OpenStored(v.blocks, v.geo, v.fs);
    st, buf := v.ReadBlock(b);
  }

  method WriteData(v: Volume, b: nat, buf: Block) returns (st: Htl)
    requires v.Valid() && InData(v.geo, b)
    modifies v`blocks, v`fs
    ensures Head(v.blocks) == Head(old(v.blocks))
    ensures v.Valid()
    ensures st == HtlOk ==> v.fs == old(v.fs).(data := old(v.fs.data)[b := buf])
    ensures st != HtlOk ==> v.fs == old(v.fs)
    ensures v.healthy ==> st == HtlOk
  {
    assert b < |v.blocks| by { OpenStored(v.blocks, v.geo, v.fs); }
    st := v.WriteBlock(b, buf);
    if st == HtlOk {
      StoreData(old(v.blocks), v.geo, v.fs, b, buf);
      v.fs := v.fs.(data := v.fs.data[b := buf]);
    }
  }

  lemma StoreData(blocks: seq<Block>, g: Geometry, fs: FS, b: nat, buf: Block)
    requires Laid(g) && Sized(g, fs) && Stored(blocks, g, fs) && InData(g, b) && b < |blocks|
    ensures Stored(blocks[b := buf], g, fs.(data := fs.data[b := buf]))
  {
    OpenStored(blocks, g, fs);
    TableWriteKeepsBits(blocks, g, fs.used, b, buf);
    DataWrite(blocks, g, fs, b, buf);
    OpenStored(blocks[b := buf], g, fs.(data := fs.data[b := buf]));
  }

  lemma DataWrite(blocks: seq<Block>, g: Geometry, fs: FS, b: nat, buf: Block)
    requires Laid(g) && TableRep(blocks, g, fs.table) && DataRep(blocks, g, fs.data) && InData(g, b)
    ensures TableRep(blocks[b := buf], g, fs.table) && DataRep(blocks[b := buf], g, fs.data[b := buf])
  {
    var after := blocks[b := buf];
    forall i: nat | i < 4096
      ensures SlotBytes(after, g.inodeStart, i) == EncodeInode(fs.table[i])
    {
      assert SlotBytes(after, g.inodeStart, i) == SlotBytes(blocks, g.inodeStart, i);
    }
    forall c | InData(g, c)
      ensures fs.data[b := buf][c] == after[c]
    {
      assert fs.data[c] == blocks[c];
    }
  }

  // ---- inode slots ----

  lemma ReadSlot(blocks: seq<Block>, g: Geometry, fs: FS, i: nat)
    requires Laid(g) && Sized(g, fs) && Stored(blocks, g, fs) && i < 4096
    ensures g.inodeStart + i / 16 < |blocks|
    ensures SlotAt(blocks[g.inodeStart + i / 16], i % 16) == EncodeInode(fs.table[i])
    ensures fs.table[i].entryType != 0 ==> InodeVerifies(fs.table[i])
    ensures KnownType(fs.table[i].entryType)
  {
    OpenStored(blocks, g, fs);
    assert InodeVerifies(fs.table[i]) == InodeVerifies(fs.table[i]);
    assert SlotBytes(blocks, g.inodeStart, i) == EncodeInode(fs.table[i]);
  }

  lemma HeldIsKnown(blocks: seq<Block>, g: Geometry, fs: FS, i: nat)
    requires Stored(blocks, g, fs) && i < |fs.table|
    ensures KnownType(fs.table[i].entryType)
  {
    OpenStored(blocks, g, fs);
  }

  /** The inode in a record. */
  ghost function InodeIn(record: seq<byte>): Inode
    requires |record| == 256
  {
    assert IsInodeIn(DecodeInode(record), record);
    var r: Inode :| IsInodeIn(r, record);
    r
  }

  ghost predicate IsInodeIn(i: Inode, record: seq<byte>)
    requires |record| == 256
  {
    forall k {:trigger Lifted(Slot, k)} :: Lifted(Slot, k) ==> i == DecodeInode(record)
  }

  /** Where the fields of an inode lie in its record. */
  lemma InodeLayout(r: seq<byte>, body: seq<byte>, i: Inode)
    requires |r| == 256 && i == InodeIn(r) && body == r[..252]
    ensures i.number == Le32(body[0..4]) && i.entryType == body[4] && i.nameLength == body[5] && i.mode == body[6..10]
    ensures i.size == Le32(body[10..14]) && i.blockCount == Le32(body[14..18]) && i.stamps == body[18..26]
    ensures i.parent == Le32(body[26..30]) && i.direct == GetAll(body[30..70], 10) && i.indirect == Le32(body[70..74])
    ensures i.name == body[74..202] && i.owner == body[202..206] && i.security == body[206]
    ensures i.reserved == body[207..252] && i.checksum == Le32(r[252..])
  {
    assert i == InodeFrom(FieldsOf(r), Le32(r[252..])) by { assert Lifted(Slot, 0); }
    InodeWidthsTotal();
    FieldsLayout(body, InodeWidths(), FieldsOf(r));
    InodeFieldsLayout(body, FieldsOf(r), Le32(r[252..]), i);
  }

  /** A slot is bad when it is in use and its last four bytes are not the checksum of its record. */
  lemma SlotIsBad(r: seq<byte>)
    requires |r| == 256
    ensures SlotBad(r) <==> r[4] != 0 && Le32(r[252..256]) != StructCrc(r, 252)
  {
    InodeLayout(r, r[..252], InodeIn(r));
    assert Lifted(Slot, 0);
  }

  /** The record is in use and its checksum does not verify. */
  ghost predicate SlotBad(record: seq<byte>)
    requires |record| == 256
  {
    var r: bool :| forall k {:trigger Lifted(Slot, k)} :: Lifted(Slot, k) ==> (r <==> SlotBadInFull(record));
    r
  }

  ghost predicate SlotBadInFull(record: seq<byte>)
    requires |record| == 256
  {
    DecodeInode(record).entryType != 0 && !Verifies(record, 252)
  }

  lemma OpenSlotBad(record: seq<byte>)
    requires |record| == 256
    ensures SlotBad(record) <==> SlotBadInFull(record)
  {
    assert Lifted(Slot, 0);
  }

  lemma StoredRecord(record: seq<byte>, stored: Inode)
    requires record == EncodeInode(stored)
    ensures InodeIn(record) == stored
    ensures SlotBad(record) <==> stored.entryType != 0 && !InodeVerifies(stored)
  {
    assert Lifted(Slot, 0);
    InodeRoundTrip(stored);
    InodeVerifiesBytes(stored);
  }

  method ParseInode(record: seq<byte>) returns (ino: Inode, bad: bool)
    requires |record| == 256
    ensures ino == InodeIn(record) && (bad <==> SlotBad(record))
  {
    assert Lifted(Slot, 0);
    OpenSlotBad(record);
    ino := DecodeInode(record);
    bad := ino.entryType != 0 && !Verifies(record, 252);
  }

  /** Reads a slot of the inode table, whatever is on the device. */
  method SlotRead(v: Volume, i: u32) returns (st: Status, ino: Inode)
    requires Laid(v.geo) && v.geo.totalBlocks <= |v.blocks|
    ensures i >= 4096 ==> st == NotFound
    ensures i < 4096 ==> st == Ok || st == ChecksumMismatch || (st == IoError && !v.healthy)
    ensures i < 4096 && st != IoError ==>
      var record := SlotBytes(v.blocks, v.geo.inodeStart, i);
      ino == InodeIn(record) && (st == ChecksumMismatch <==> SlotBad(record))
  {
    ino := ZERO_INODE;
    if i >= v.geo.totalInodes {
      return NotFound, ino;
    }
    var hres, buf := v.ReadBlock(v.geo.inodeStart + i / 16);
    if hres != HtlOk {
      return IoError, ino;
    }
    var bad;
    ino, bad := ParseInode(SlotAt(buf, i % 16));
    return if bad then ChecksumMismatch else Ok, ino;
  }

  method InodeRead(v: Volume, i: u32) returns (st: Status, ino: Inode)
    requires v.Valid()
    ensures st == Ok ==> i < 4096 && ino == v.fs.table[i] && KnownType(ino.entryType)
    ensures i >= 4096 ==> st == NotFound
    ensures i < 4096 ==> st == Ok || st == IoError
    ensures i < 4096 && v.healthy ==> st == Ok
  {
    if i < 4096 {
      ReadSlot(v.blocks, v.geo, v.fs, i);
      StoredRecord(SlotBytes(v.blocks, v.geo.inodeStart, i), v.fs.table[i]);
    }
    assert v.geo.totalBlocks <= |v.blocks| by { OpenStored(v.blocks, v.geo, v.fs); }
    st, ino := SlotRead(v, i);
  }

  lemma WriteSlot(blocks: seq<Block>, g: Geometry, fs: FS, i: nat, ino: Inode, k: nat, after: Block)
    requires Laid(g) && Sized(g, fs) && Stored(blocks, g, fs) && i < 4096 && KnownType(ino.entryType)
    requires k == g.inodeStart + i / 16 < |blocks| && after == WithSlot(blocks[k], i % 16, EncodeInode(Seal(ino)))
    ensures Stored(blocks[k := after], g, fs.(table := fs.table[i := Seal(ino)]))
  {
    OpenStored(blocks, g, fs);
    TableWriteKeepsBits(blocks, g, fs.used, k, after);
    TableWriteKeepsData(blocks, g, fs.data, k, after);
    TableWrite(blocks, g, fs.table, i, Seal(ino));
    SealedTable(fs.table, i, ino);
    OpenStored(blocks[k := after], g, fs.(table := fs.table[i := Seal(ino)]));
  }

  lemma SealedTable(table: seq<Inode>, i: nat, ino: Inode)
    requires TableSound(table) && i < |table| && KnownType(ino.entryType)
    ensures TableSound(table[i := Seal(ino)])
  {
    SealVerifies(ino);
    var after := table[i := Seal(ino)];
    forall j | 0 <= j < |after| && after[j].entryType != 0
      ensures InodeVerifies(after[j])
    {
      assert j != i ==> InodeVerifies(table[j]);
    }
  }

  /** The same inode, up to its checksum. */
  predicate Restamped(ino: Inode, ino': Inode) {
    ino' == ino.(checksum := ino'.checksum)
  }

  /** The same inode, up to its size, its map and its checksum. */
  predicate SameButMap(ino: Inode, ino': Inode) {
    ino' == ino.(size := ino'.size, blockCount := ino'.blockCount, direct := ino'.direct, indirect := ino'.indirect,
        checksum := ino'.checksum)
  }

  /** Writes an inode with its checksum recomputed; the caller's copy gets the new checksum too. */
  method InodeWrite(v: Volume, i: u32, ino: Inode) returns (st: Status, ino': Inode)
    requires v.Valid() && KnownType(ino.entryType)
    modifies v`blocks, v`fs
    ensures Head(v.blocks) == Head(old(v.blocks))
    ensures v.Valid()
    ensures st == Ok ==> i < 4096 && Restamped(ino, ino') && v.fs == old(v.fs).(table := old(v.fs.table)[i := ino'])
    ensures st != Ok ==> v.fs == old(v.fs)
    ensures v.healthy && i < 4096 ==> st == v.WritableStatus()
    ensures i >= 4096 ==> st == NotFound
  {
    ino' := ino;
    if i >= v.geo.totalInodes {
      return NotFound, ino';
    }
    st := v.WritableStatus();
    if st != Ok {
      return;
    }
    var k := v.geo.inodeStart + i / 16;
    ReadSlot(v.blocks, v.geo, v.fs, i);
    var hres, buf := v.ReadBlock(k);
    if hres != HtlOk {
      return IoError, ino';
    }
    ino' := Seal(ino);
    var after := WithSlot(buf, i % 16, EncodeInode(ino'));
    hres := v.WriteBlock(k, after);
    if hres != HtlOk {
      return WriteStatus(hres), ino';
    }
    WriteSlot(old(v.blocks), v.geo, v.fs, i, ino, k, after);
    v.fs := v.fs.(table := v.fs.table[i := ino']);
  }
}
