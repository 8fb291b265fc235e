/**
 What the state of an OWFS volume is on the device, byte by byte and bit by bit, and
 what the records are that its operations store.
 */
module OwfsOnDevice {
  import opened Words
  import opened Veils
  import opened Bitmap
  import opened Splice
  import opened Records
  import opened Fletcher64
  import opened Layout
  import opened Crc32c
  import opened OwfsTypes
  import opened OwfsVolume
  import opened OwfsOwnership
  import opened OwfsContent
  import opened OwfsInode
  import opened OwfsDirectory
  import opened OwfsCatalog
  import opened OwfsFile
  import opened OwfsState
  import opened OwfsSync
  import opened OwfsObjects
  import opened OwfsEffects
  import opened OwfsAtRest
  import opened OwfsFormat
  import opened OwfsRuns

  // ---- the superblock ----

  lemma HeaderWord(b: Block, k: nat)
    requires k < 17
    ensures GetAll(b[..68], 17)[k] == Le32(b[4 * k..4 * k + 4])
  {
    GetAllAt(b[..68], 17, k);
    assert b[..68][4 * k..4 * k + 4] == b[4 * k..4 * k + 4];
  }

  lemma HeaderFields(b: Block, s: Superblock, w: seq<u32>)
    requires s == SuperIn(b) && w == GetAll(b[..68], 17)
    ensures s.id.magic == w[0] && s.id.version == w[1] && s.id.blockSize == w[2] && s.geo.totalBlocks == w[3]
    ensures s.freeBlocks == w[4] && s.geo.totalInodes == w[5] && s.freeInodes == w[6] && s.geo.bitmapStart == w[7]
    ensures s.geo.bitmapBlocks == w[8] && s.geo.inodeStart == w[9] && s.geo.inodeBlocks == w[10]
    ensures s.geo.dataStart == w[11] && s.id.root == w[12] && s.mountCount == w[13] && s.state == FlagsOf(w[14])
    ensures s.sum1 == w[15] && s.sum2 == w[16]
    ensures s.id.volumeLabel == b[68..132] && s.checksum == Le32(b[132..136]) && s.security == Le32(b[136..140])
    ensures s.id.key1 == b[140..396] && s.id.key2 == b[396..652] && s.id.nonce == b[652..664]
    ensures s.id.reserved == b[664..]
  {
    assert Lifted(Header, 0);
  }

  lemma HeaderAuthentic(b: Block, s: Superblock)
    requires s == SuperIn(b)
    ensures Authentic(s) <==> s.id.magic == 0x4F57_4653 && s.id.blockSize == 4096 && s.checksum == StructCrc(b, 132)
  {
    OpenAuthentic(s);
    assert s == DecodeSuper(b) by { assert Lifted(Header, 0); }
    SuperWritten(b);
  }

  /** The superblock is block 16, its fields one after the other. */
  lemma SuperOnDevice(v: Volume, b: Block)
    requires |v.blocks| > 16 && b == v.blocks[16]
    ensures var s := OnDisk(v);
            && s.id.magic == Le32(b[0..4]) && s.id.version == Le32(b[4..8]) && s.id.blockSize == Le32(b[8..12])
            && s.geo.totalBlocks == Le32(b[12..16]) && s.freeBlocks == Le32(b[16..20])
            && s.geo.totalInodes == Le32(b[20..24]) && s.freeInodes == Le32(b[24..28])
            && s.geo.bitmapStart == Le32(b[28..32]) && s.geo.bitmapBlocks == Le32(b[32..36])
            && s.geo.inodeStart == Le32(b[36..40]) && s.geo.inodeBlocks == Le32(b[40..44])
            && s.geo.dataStart == Le32(b[44..48]) && s.id.root == Le32(b[48..52]) && s.mountCount == Le32(b[52..56])
            && s.sum1 == Le32(b[60..64]) && s.sum2 == Le32(b[64..68])
            && s.id.volumeLabel == b[68..132] && s.checksum == Le32(b[132..136]) && s.security == Le32(b[136..140])
            && s.id.key1 == b[140..396] && s.id.key2 == b[396..652] && s.id.nonce == b[652..664]
            && s.id.reserved == b[664..]
    ensures var (f, x) := (OnDisk(v).state, Le32(b[56..60]));
            f.dirty == (x % 2 == 1) && f.error == (x / 2 % 2 == 1) && f.locked == (x / 4 % 2 == 1) && f.other == x / 8
    ensures Authentic(OnDisk(v)) <==>
              Le32(b[0..4]) == 0x4F57_4653 && Le32(b[8..12]) == 4096 && Le32(b[132..136]) == StructCrc(b, 132)
  {
    var w := GetAll(b[..68], 17);
    HeaderFields(b, OnDisk(v), w);
    HeaderAuthentic(b, OnDisk(v));
    HeaderWords(b, w);
  }

  lemma HeaderWords(b: Block, w: seq<u32>)
    requires w == GetAll(b[..68], 17)
    ensures w[0] == Le32(b[0..4]) && w[1] == Le32(b[4..8]) && w[2] == Le32(b[8..12]) && w[3] == Le32(b[12..16])
    ensures w[4] == Le32(b[16..20]) && w[5] == Le32(b[20..24]) && w[6] == Le32(b[24..28]) && w[7] == Le32(b[28..32])
    ensures w[8] == Le32(b[32..36]) && w[9] == Le32(b[36..40]) && w[10] == Le32(b[40..44]) && w[11] == Le32(b[44..48])
    ensures w[12] == Le32(b[48..52]) && w[13] == Le32(b[52..56]) && w[14] == Le32(b[56..60])
    ensures w[15] == Le32(b[60..64]) && w[16] == Le32(b[64..68])
  {
    HeaderWord(b, 0);
    HeaderWord(b, 1);
    HeaderWord(b, 2);
    HeaderWord(b, 3);
    HeaderWord(b, 4);
    HeaderWord(b, 5);
    HeaderWord(b, 6);
    HeaderWord(b, 7);
    HeaderWord(b, 8);
    HeaderWord(b, 9);
    HeaderWord(b, 10);
    HeaderWord(b, 11);
    HeaderWord(b, 12);
    HeaderWord(b, 13);
    HeaderWord(b, 14);
    HeaderWord(b, 15);
    HeaderWord(b, 16);
  }

  /** Where the regions are. */
  lemma RegionsOnDevice(v: Volume)
    requires v.Represents()
    ensures var g := v.geo;
            && g.bitmapStart == 17 && g.inodeStart == 17 + g.bitmapBlocks && g.inodeBlocks == 256
            && g.totalInodes == 4096 && g.dataStart == 273 + g.bitmapBlocks < g.totalBlocks <= |v.blocks|
            && g.totalBlocks - g.dataStart <= 32768 * g.bitmapBlocks
  {
    OpenStored(v.blocks, v.geo, v.fs);
  }

  // ---- the bitmap ----

  /** A data block is used exactly if its bit is set, in the bitmap that starts at block 17. */
  lemma BitOnDevice(v: Volume, b: nat, y: nat, t: nat)
    requires v.Represents() && y < 4096 && t < 8
    requires 32768 * b + 8 * y + t < v.geo.totalBlocks - v.geo.dataStart
    ensures 17 + b < v.geo.inodeStart <= |v.blocks|
    ensures v.geo.dataStart + (32768 * b + 8 * y + t) in v.fs.used <==> Set(v.blocks, 17 + b, y, t)
  {
    OpenStored(v.blocks, v.geo, v.fs);
    MarkedIsSet(v.blocks, b, y, t);
  }

  /** What can be handed out: the count in the superblock, and the data blocks that are not used. */
  lemma StockOnDevice(v: Volume)
    requires v.Represents()
    ensures |v.fs.used| <= v.geo.totalBlocks - v.geo.dataStart
    ensures v.Free().free == v.freeBlocks && v.Free().clear + |v.fs.used| == v.geo.totalBlocks - v.geo.dataStart
    ensures forall b :: b in v.fs.used ==> v.geo.dataStart <= b < v.geo.totalBlocks
  {
    OpenUnused(v.geo, v.fs.used);
    UsedWithin(v.geo.dataStart, v.geo.totalBlocks, v.fs.used);
  }

  /** The free count is `drift` more than there are free blocks, in 32 bits. */
  lemma DriftIs(s: Stock, drift: u32)
    ensures Drifted(s, drift) <==> s.free == (s.clear + drift) % 0x1_0000_0000
  {
    OpenDrifted(s, drift);
  }

  lemma {:induction false} UsedWithin(lo: nat, hi: nat, used: set<nat>)
    requires lo <= hi && forall b :: b in used ==> lo <= b < hi
    ensures |used| <= hi - lo
    decreases hi
  {
    if lo < hi {
      var rest := used - {hi - 1};
      assert forall b :: b in rest ==> lo <= b < hi - 1;
      UsedWithin(lo, hi - 1, rest);
    } else if b :| b in used {
      assert false;
    }
  }

  // ---- inodes ----

  lemma Within(r: seq<byte>, body: seq<byte>, a: nat, b: nat)
    requires |r| == 256 && body == r[..252] && a <= b <= 252
    ensures body[a..b] == r[a..b]
  {
  }

  lemma InodeFields(r: seq<byte>, i: Inode)
    requires |r| == 256 && i == InodeIn(r)
    ensures i.number == Le32(r[0..4]) && i.entryType == r[4] && i.nameLength == r[5] && i.mode == r[6..10]
    ensures i.size == Le32(r[10..14]) && i.blockCount == Le32(r[14..18]) && i.stamps == r[18..26]
    ensures i.parent == Le32(r[26..30]) && i.direct == GetAll(r[30..70], 10) && i.indirect == Le32(r[70..74])
    ensures i.name == r[74..202] && i.owner == r[202..206] && i.security == r[206] && i.reserved == r[207..252]
  {
    var body := r[..252];
    InodeLayout(r, body, i);
    Within(r, body, 0, 4);
    Within(r, body, 6, 10);
    Within(r, body, 10, 14);
    Within(r, body, 14, 18);
    Within(r, body, 18, 26);
    Within(r, body, 26, 30);
    Within(r, body, 30, 70);
    Within(r, body, 70, 74);
    Within(r, body, 74, 202);
    Within(r, body, 202, 206);
    Within(r, body, 207, 252);
  }

  lemma DirectPointers(r: seq<byte>, i: Inode)
    requires |r| == 256 && i == InodeIn(r)
    ensures forall k :: 0 <= k < 10 ==> i.direct[k] == Le32(r[30 + 4 * k..34 + 4 * k])
  {
    InodeFields(r, i);
    AllPointers(r, r[30..70], i.direct);
  }

  lemma AllPointers(r: seq<byte>, d: seq<byte>, ps: seq<u32>)
    requires |r| == 256 && d == r[30..70] && ps == GetAll(d, 10)
    ensures forall k :: 0 <= k < 10 ==> ps[k] == Le32(r[30 + 4 * k..34 + 4 * k])
  {
    forall k: nat | k < 10
      ensures ps[k] == Le32(r[30 + 4 * k..34 + 4 * k])
    {
      OnePointer(r, d, k);
    }
  }

  lemma OnePointer(r: seq<byte>, d: seq<byte>, k: nat)
    requires |r| == 256 && d == r[30..70] && k < 10
    ensures GetAll(d, 10)[k] == Le32(r[30 + 4 * k..34 + 4 * k])
  {
    GetAllAt(d, 10, k);
    PointerBytes(r, d, k);
  }

  lemma PointerBytes(r: seq<byte>, d: seq<byte>, k: nat)
    requires |r| == 256 && d == r[30..70] && k < 10
    ensures d[4 * k..4 * k + 4] == r[30 + 4 * k..34 + 4 * k]
  {
  }

  /** Inode `i` is the record in slot `i % 16` of block `i / 16` of the inode table, and its checksum verifies. */
  lemma InodeOnDevice(v: Volume, i: nat, r: seq<byte>)
    requires v.Represents() && i < 4096 && 17 + v.geo.bitmapBlocks + i / 16 < |v.blocks|
    requires r == v.blocks[17 + v.geo.bitmapBlocks + i / 16][256 * (i % 16)..256 * (i % 16) + 256]
    ensures var e := v.fs.table[i];
            && e.number == Le32(r[0..4]) && e.entryType == r[4] && e.nameLength == r[5] && e.mode == r[6..10]
            && e.size == Le32(r[10..14]) && e.blockCount == Le32(r[14..18]) && e.stamps == r[18..26]
            && e.parent == Le32(r[26..30]) && e.indirect == Le32(r[70..74])
            && e.name == r[74..202] && e.owner == r[202..206] && e.security == r[206] && e.reserved == r[207..252]
            && (forall k :: 0 <= k < 10 ==> e.direct[k] == Le32(r[30 + 4 * k..34 + 4 * k]))
            && (e.entryType != 0 ==> Le32(r[252..256]) == StructCrc(r, 252))
  {
    ReadSlot(v.blocks, v.geo, v.fs, i);
    StoredRecord(r, v.fs.table[i]);
    InodeFields(r, v.fs.table[i]);
    DirectPointers(r, v.fs.table[i]);
    SlotIsBad(r);
  }

  /** Where block `k` of a file or directory lies: ten pointers in the inode, the others in the indirect block. */
  lemma BlockOnDevice(v: Volume, ino: Inode, k: nat)
    requires v.Represents() && Mapped(v.fs.data, v.geo, ino) && k < ino.blockCount
    ensures var b := BlockAt(v.fs.data, ino, k);
            && v.geo.dataStart <= b < v.geo.totalBlocks <= |v.blocks| && v.fs.data[b] == v.blocks[b]
            && (k < 10 ==> b == ino.direct[k])
            && (k >= 10 ==>
                  && v.geo.dataStart <= ino.indirect < v.geo.totalBlocks && k < 1034
                  && b == Le32(v.blocks[ino.indirect][4 * (k - 10)..4 * (k - 10) + 4]))
  {
    OpenStored(v.blocks, v.geo, v.fs);
  }

  /** On a sound volume no block is mapped twice, whoever maps it, and every mapped block is marked used. */
  lemma BlocksApart(v: Volume, i: nat, j: nat, k: nat, l: nat)
    requires Sound(v.fs, v.geo) && i < |v.fs.table| && j < |v.fs.table| && (i, k) != (j, l)
    requires v.fs.table[i].entryType != 0 && k < v.fs.table[i].blockCount
    requires v.fs.table[j].entryType != 0 && l < v.fs.table[j].blockCount
    ensures BlockAt(v.fs.data, v.fs.table[i], k) != BlockAt(v.fs.data, v.fs.table[j], l)
    ensures BlockAt(v.fs.data, v.fs.table[i], k) in v.fs.used
    ensures v.fs.table[i].blockCount > 10 ==> v.fs.table[i].indirect as nat in v.fs.used
  {
    OpenSound(v.fs, v.geo);
    assert Holds(v.fs, i) && Holds(v.fs, j);
    OwnedAt(v.fs.data, v.fs.table[i], k);
    OwnedAt(v.fs.data, v.fs.table[j], l);
    OwnedHas(v.fs.data, v.fs.table[i], v.fs.table[i].indirect);
  }

  // ---- directories ----

  /** Slot `e` of block `k` of a directory. */
  lemma EntryOnDevice(v: Volume, ci: nat, k: nat, e: nat, r: seq<byte>)
    requires v.Represents() && ci < 4096 && Mapped(v.fs.data, v.geo, v.fs.table[ci])
    requires k < v.fs.table[ci].blockCount && e < 16
    requires r == v.fs.data[BlockAt(v.fs.data, v.fs.table[ci], k)][256 * e..256 * e + 256]
    ensures var x := Cat(v.fs, ci)[16 * k + e];
            && x.inode == Le32(r[0..4]) && x.entryType == r[4] && x.nameLength == r[5] && x.name == r[6..134]
            && x.reserved == r[134..252] && x.checksum == Le32(r[252..256])
    ensures |Cat(v.fs, ci)| == 16 * v.fs.table[ci].blockCount
  {
    var ino := v.fs.table[ci];
    EntriesAt(v.fs.data, ino, ino.blockCount, k, e);
    assert r == SlotAt(BlockOf(v.fs.data, ino, k), e);
    assert SlotsOf(BlockOf(v.fs.data, ino, k))[e] == DecodeEntry(r) by { assert Lifted(Slots, 0); }
  }

  /** A name is bound exactly if a live slot carries it: to the slot's inode number, as the slot's kind. */
  lemma NamesOnDevice(v: Volume, ci: nat, name: seq<byte>)
    requires ci < |v.fs.table| && Tidy(Cat(v.fs, ci)) && |name| <= 128
    ensures name in Dir(v.fs, ci) <==> exists s: nat :: Carrier(Cat(v.fs, ci), s, name)
    ensures forall s: nat :: Carrier(Cat(v.fs, ci), s, name) ==>
              name in Dir(v.fs, ci) && Dir(v.fs, ci)[name].inode == Cat(v.fs, ci)[s].inode
              && Dir(v.fs, ci)[name].kind == Cat(v.fs, ci)[s].entryType
  {
    var es := Cat(v.fs, ci);
    DirHas(es, name);
    if name in Dir(v.fs, ci) {
      var s: nat :| s < |es| && Live(es[s]) && NameOf(es[s]) == name;
      assert SoundEntry(es[s]);
      OpenSoundEntry(es[s]);
      assert Carrier(es, s, name);
    }
    forall s: nat | Carrier(es, s, name)
      ensures name in Dir(v.fs, ci) && Dir(v.fs, ci)[name].inode == es[s].inode
      ensures Dir(v.fs, ci)[name].kind == es[s].entryType
    {
      assert NameOf(es[s]) == name;
      DirAt(es, s);
    }
  }

  predicate Carrier(es: seq<Entry>, s: nat, name: seq<byte>) {
    s < |es| && 0 < es[s].entryType < 0x80 && es[s].nameLength == |name| <= 128 && es[s].name[..|name|] == name
  }

  // ---- the abstract state ----

  /** The abstract state of a volume, field by field. */
  lemma NowIs(v: Volume)
    requires v.Represents()
    ensures var s := Now(v);
            && s.flags == v.state && s.security == v.security && s.freeInodes == v.freeInodes
            && s.stock.free == v.freeBlocks && s.stock.clear + |v.fs.used| == v.geo.totalBlocks - v.geo.dataStart
            && |s.objects| == 4096
  {
    StockOnDevice(v);
  }

  /** What an inode number stands for. */
  lemma ObjectIs(v: Volume, i: nat)
    requires v.Represents() && i < 4096
    ensures var (o, ino) := (Now(v).objects[i], v.fs.table[i]);
            && o.kind == ino.entryType && o.readOnly == (ino.security / 2 % 2 == 1)
            && (ino.entryType / 2 % 2 == 1 ==> o.body == Directory(ino.blockCount, Dir(v.fs, i)))
            && (ino.entryType / 2 % 2 == 0 && ino.entryType % 2 == 0 ==> o.body == Nothing)
            && (ino.entryType / 2 % 2 == 0 && ino.entryType % 2 == 1 ==>
                  && o.body.File? && o.body.clear == !(v.security % 2 == 1 && ino.security % 2 == 1)
                  && o.body.size == ino.size && |o.body.held| == 4096 * ino.blockCount)
  {
    assert Now(v).objects[i] == ObjectAt(v.security, v.id, v.fs, i);
  }

  /** What a file holds are the bytes of its blocks, unmasked if they are masked. */
  lemma HeldRests(v: Volume, i: nat, p: nat)
    requires v.Valid() && Sound(v.fs, v.geo) && i < 4096 && Now(v).objects[i].body.File?
    requires p < 4096 * v.fs.table[i].blockCount
    ensures p < |Now(v).objects[i].body.held|
    ensures ByteRests(v, v.fs.table[i], p, Now(v).objects[i].body.held[p])
  {
    assert Now(v).objects[i] == ObjectAt(v.security, v.id, v.fs, i);
    SoundMapped(v.fs, v.geo, i);
    ByteOnDevice(v, v.fs.table[i], p);
  }

  // ---- the records that are stored ----

  /** A new inode, field by field. */
  lemma NewIs(ino: Inode, i: u32, t: byte, name: seq<byte>, parent: u32, owner: seq<byte>, encrypted: bool)
    requires |name| < 128 && |owner| == 4 && IsNew(ino, i, t, name, parent, owner, encrypted)
    ensures ino.number == i && ino.entryType == t && ino.nameLength == |name| && ino.parent == parent
    ensures ino.mode == if t == 2 then [0xED, 0x01, 0, 0] else [0xA4, 0x01, 0, 0]
    ensures ino.owner == owner && ino.security == (if encrypted then 1 else 0) && ino.size == 0 && ino.blockCount == 0
    ensures ino.indirect == 0 && (forall k :: 0 <= k < 10 ==> ino.direct[k] == 0)
    ensures forall k :: 0 <= k < 128 ==> ino.name[k] == if k < |name| then name[k] else 0
    ensures (forall k :: 0 <= k < 8 ==> ino.stamps[k] == 0) && (forall k :: 0 <= k < 45 ==> ino.reserved[k] == 0)
  {
    OpenIsNew(ino, i, t, name, parent, owner, encrypted);
  }

  /** Where allocation puts it: in the first slot that was never used or is deleted. */
  lemma AllocatedIs(fs: FS, fs': FS, i: u32, t: byte, name: seq<byte>, parent: u32, owner: seq<byte>, encrypted: bool)
    requires Allocated(fs, fs', i, t, name, parent, owner, encrypted)
    ensures i < |fs.table| && !(0 < fs.table[i].entryType < 0x80)
    ensures forall j :: 0 <= j < i ==> 0 < fs.table[j].entryType < 0x80
    ensures fs' == fs.(table := fs.table[i := fs'.table[i]])
    ensures |name| < 128 && |owner| == 4 && IsNew(fs'.table[i], i, t, name, parent, owner, encrypted)
  {
  }

  /** What deletion leaves of an inode: its number, name, mode, owner, parent and flags, its kind marked. */
  lemma FreedIs(fs: FS, fs': FS, i: nat)
    requires Freed(fs, fs', i)
    ensures i < |fs.table| && 0 < fs.table[i].entryType < 0x80
    ensures var (e, e') := (fs.table[i], fs'.table[i]);
            && e'.entryType == e.entryType + 0x80 && e'.size == 0 && e'.blockCount == 0 && e'.indirect == 0
            && (forall k :: 0 <= k < 10 ==> e'.direct[k] == 0)
            && e'.number == e.number && e'.nameLength == e.nameLength && e'.name == e.name && e'.mode == e.mode
            && e'.owner == e.owner && e'.parent == e.parent && e'.security == e.security && e'.stamps == e.stamps
            && e'.reserved == e.reserved
            && fs' == fs.(table := fs.table[i := e'], used := fs.used - Owned(fs.data, e))
  {
  }

  /** Which slot of a directory an insertion changes, and what it holds then. */
  lemma EnteredIs(es: seq<Entry>, es': seq<Entry>, name: seq<byte>, target: u32, t: byte) returns (s: nat)
    requires Entered(es, es', name, target, t)
    ensures s <= |es| && s < |es'| && (forall r :: 0 <= r < s ==> 0 < es[r].entryType < 0x80)
    ensures s < |es| ==> !(0 < es[s].entryType < 0x80) && es' == es[s := es'[s]]
    ensures s == |es| ==>
              |es'| == s + 16 && es'[..s] == es && forall r :: s < r < |es'| ==> es'[r].entryType == 0
    ensures es'[s].inode == target && es'[s].entryType == t && es'[s].nameLength == |name|
    ensures forall k :: 0 <= k < 128 ==> es'[s].name[k] == if k < |name| then name[k] else 0
    ensures (forall k :: 0 <= k < 118 ==> es'[s].reserved[k] == 0)
    ensures es'[s].checksum == StructCrc(EncodeEntry(es'[s]), 252)
  {
    OpenEntered(es, es', name, target, t);
    s :| EnteredAt(es, es', s) && Bears(es'[s], name, target, t);
  }

  /** Which slot a removal changes: its kind is marked, its checksum recomputed, all else is kept. */
  lemma StruckIs(es: seq<Entry>, es': seq<Entry>, name: seq<byte>) returns (s: nat)
    requires Struck(es, es', name)
    ensures s < |es| == |es'| && 0 < es[s].entryType < 0x80 && es[s].nameLength == |name| <= 128
    ensures es[s].name[..|name|] == name
    ensures es' == es[s := es[s].(entryType := es[s].entryType + 0x80,
                                  checksum := StructCrc(EncodeEntry(es'[s]), 252))]
  {
    OpenStruck(es, es', name);
    s :| StruckAt(es, es', s, name);
  }

  // ---- what a check counts ----

  lemma SameJoin(s: Sums, t: Sums)
    requires s.s1 < 0x1_0000_0000 && t.s1 < 0x1_0000_0000
    ensures s == t <==> Join(s) == 0x1_0000_0000 * t.s2 + t.s1
  {
  }

  lemma {:induction false} ClearCount(blocks: seq<Block>, n: nat)
    ensures CountClear(blocks, n) == |set r: nat | r < n && !Marked(blocks, r)|
  {
    if n > 0 {
      ClearCount(blocks, n - 1);
      OneMoreBit(blocks, n - 1, set r: nat | r < n - 1 && !Marked(blocks, r), set r: nat | r < n && !Marked(blocks, r));
    }
  }

  lemma OneMoreBit(blocks: seq<Block>, n: nat, less: set<nat>, more: set<nat>)
    requires forall r: nat :: r in less <==> r < n && !Marked(blocks, r)
    requires forall r: nat :: r in more <==> r < n + 1 && !Marked(blocks, r)
    ensures |more| == |less| + if Marked(blocks, n) then 0 else 1
  {
    assert more == less + if Marked(blocks, n) then {} else {n};
  }

  /** The bitmap checksum: Fletcher-64 of the blocks from 17 on. */
  lemma SumIs(blocks: seq<Block>, n: nat, s: Sums, bytes: seq<byte>)
    requires 17 + n <= |blocks| && |bytes| == 4096 * n && s.s1 < 0x1_0000_0000
    requires forall p :: 0 <= p < |bytes| ==> bytes[p] == blocks[17 + p / 4096][p % 4096]
    ensures SumOf(blocks, n, s) <==> Fletcher(bytes) == 0x1_0000_0000 * s.s2 + s.s1
  {
    OpenSumOf(blocks, n, s);
    var flat := Flatten(BitmapOf(blocks, n));
    forall p: nat | p < |bytes|
      ensures flat[p] == bytes[p]
    {
      FlattenAt(BitmapOf(blocks, n), p);
    }
    assert flat == bytes;
    FletcherHoldsBoth(bytes, bytes);
    SameJoin(Checksum(bytes), s);
  }

  /**
   A check finds the inode records in use whose checksum is wrong, a bitmap checksum
   that is not zero and not right, and a free count that is not the number of clear bits.
   */
  lemma FindingsAre(v: Volume, bad: set<nat>, clear: set<nat>)
    requires OwfsSync.Fits(v)
    requires bad == set i: nat | i < 4096 && BadAt(v.blocks, v.geo.inodeStart, i)
    requires clear == set r: nat | r < v.geo.totalBlocks - v.geo.dataStart && !Marked(v.blocks, r)
    ensures Findings(v) ==
        |bad| + (if (v.sum1 == 0 && v.sum2 == 0) || SumOf(v.blocks, v.geo.bitmapBlocks, Sums(v.sum1, v.sum2)) then 0
                 else 1)
          + if |clear| == v.freeBlocks then 0 else 1
  {
    BadSlotsCount(v.blocks, v.geo.inodeStart, 4096);
    ClearCount(v.blocks, v.geo.totalBlocks - v.geo.dataStart);
  }

  // ---- runs ----

  /** Which inodes a run is about: those its operations name. */
  lemma {:induction false} TouchedIs(ops: seq<Op>, i: nat)
    ensures i in TouchedBy(ops) <==> exists k :: 0 <= k < |ops| && Names(ops[k], i)
  {
    if ops != [] {
      var n := |ops| - 1;
      TouchedIs(ops[..n], i);
      if k :| 0 <= k < |ops| && Names(ops[k], i) {
        assert k < n ==> ops[..n][k] == ops[k];
      }
      if k :| 0 <= k < n && Names(ops[..n][k], i) {
        assert ops[k] == ops[..n][k];
      }
    }
  }

  predicate Names(op: Op, i: nat) {
    match op
    case CreateFile(parent, _) => i == parent
    case MakeCatalog(parent, _) => i == parent
    case Link(parent, _, _, _) => i == parent
    case Unlink(parent, _) => i == parent
    case AllocateInode(_, _, _) => false
    case FreeInode(number) => i == number
    case WriteFile(number, _, _) => i == number
    case TruncateFile(number, _) => i == number
    case SyncVolume => false
  }

  /** A volume just formatted and mounted: dirty, an empty root of one block, every other number never used. */
  lemma NewStateIs(total: u32)
    requires OwfsAccepts(total)
    ensures var s := NewState(total);
            && s.flags.dirty && !s.flags.error && !s.flags.locked && s.flags.other == 0 && s.security == 0
            && s.stock.free == s.stock.clear && s.stock.free + 1 + 273 + (total - 273 + 32768) / 32769 == total
            && s.freeInodes == 4096 && |s.objects| == 4096
            && s.objects[0].kind == 2 && !s.objects[0].readOnly && s.objects[0].body == Directory(1, map[])
            && forall i :: 1 <= i < 4096 ==>
              s.objects[i].kind == 0 && !s.objects[i].readOnly && s.objects[i].body == Nothing
  {
  }

  /** How much of a run its last sync covers. */
  lemma {:induction false} LastSyncIs(ops: seq<Op>)
    ensures LastSync(ops) > 0 ==> ops[LastSync(ops) - 1].SyncVolume?
    ensures forall k :: LastSync(ops) <= k < |ops| ==> !ops[k].SyncVolume?
  {
    if ops != [] && !ops[|ops| - 1].SyncVolume? {
      LastSyncIs(ops[..|ops| - 1]);
      forall k | LastSync(ops) <= k < |ops|
        ensures !ops[k].SyncVolume?
      {
        assert k < |ops| - 1 ==> ops[k] == ops[..|ops| - 1][k];
      }
    }
  }
}
