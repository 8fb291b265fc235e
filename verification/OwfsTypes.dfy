/**
 The OWFS records: inodes, catalog entries and the superblock, with their byte
 layouts.  Fields that no operation looks at are kept as raw bytes.
 */
module OwfsTypes {
  import opened Words
  import opened Records
  import opened Crc32c

  datatype Status =
    | Ok
    | CorruptSuperblock
    | ChecksumMismatch
    | NoFreeBlocks
    | NoFreeInodes
    | NameTooLong
    | NotFound
    | AlreadyExists
    | NotCatalog
    | NotFile
    | IoError
    | BufferTooSmall
    | CatalogFull
    | VolumeDirty
    | WriteProtected
    | InvalidParam

  // ---- entry types and flags ----

  const ENTRY_FILE: byte := 1
  const ENTRY_CATALOG: byte := 2

  predicate IsFile(t: byte) { t % 2 == 1 }
  predicate IsCatalog(t: byte) { t / 2 % 2 == 1 }
  predicate IsDeleted(t: byte) { t >= 0x80 }
  function MarkDeleted(t: byte): byte { if t >= 0x80 then t else t + 0x80 }

  /** A slot that allocation may take: never used, or deleted. */
  predicate IsVacant(t: byte) { t == 0 || IsDeleted(t) }

  predicate Encrypted(flags: nat) { flags % 2 == 1 }
  predicate ReadOnly(flags: nat) { flags / 2 % 2 == 1 }

  // ---- inodes ----

  datatype InodeRecord = InodeRecord(
    number: u32, entryType: byte, nameLength: byte, mode: seq<byte>, size: u32, blockCount: u32, stamps: seq<byte>,
    parent: u32, direct: seq<u32>, indirect: u32, name: seq<byte>, owner: seq<byte>, security: byte,
        reserved: seq<byte>,
    checksum: u32)

  predicate InodeShape(i: InodeRecord) {
    |i.mode| == 4 && |i.stamps| == 8 && |i.direct| == 10 && |i.name| == 128 && |i.owner| == 4 && |i.reserved| == 45
  }

  const ZERO_INODE: InodeRecord :=
    InodeRecord(0, 0, 0, Zeros(4), 0, 0, Zeros(8), 0, [0, 0, 0, 0, 0, 0, 0, 0, 0, 0], 0, Zeros(128), Zeros(4), 0,
        Zeros(45), 0)

  type Inode = i: InodeRecord | InodeShape(i) witness ZERO_INODE

  function InodeWidths(): seq<nat> {
    [4, 1, 1, 4, 4, 4, 8, 4, 40, 4, 128, 4, 1, 45]
  }

  function InodeFields(i: Inode): seq<seq<byte>> {
    [PutLe32(i.number), [i.entryType], [i.nameLength], i.mode, PutLe32(i.size), PutLe32(i.blockCount), i.stamps,
     PutLe32(i.parent), PutAll(i.direct), PutLe32(i.indirect), i.name, i.owner, [i.security], i.reserved]
  }

  lemma InodeWidthsTotal()
    ensures Total(InodeWidths()) == 252
  {
    assert InodeWidths()[5..] == [4, 8, 4, 40, 4, 128, 4, 1, 45];
    assert InodeWidths()[10..] == [128, 4, 1, 45];
  }

  lemma InodeFits(i: Inode)
    ensures Fits(InodeFields(i), InodeWidths())
  {
  }

  /** Everything but the checksum: bytes 0 to 251 of the record. */
  function InodeBody(i: Inode): (r: seq<byte>)
    ensures |r| == 252
  {
    InodeFits(i);
    InodeWidthsTotal();
    FlatLength(InodeFields(i), InodeWidths());
    Flat(InodeFields(i))
  }

  /** The 256-byte record. */
  function EncodeInode(i: Inode): (r: seq<byte>)
    ensures |r| == 256
  {
    InodeBody(i) + PutLe32(i.checksum)
  }

  predicate InodeSizes(f: seq<seq<byte>>) {
    && |f| == 14
    && |f[0]| == 4 && |f[1]| == 1 && |f[2]| == 1 && |f[3]| == 4 && |f[4]| == 4 && |f[5]| == 4 && |f[6]| == 8
    && |f[7]| == 4 && |f[8]| == 40 && |f[9]| == 4 && |f[10]| == 128 && |f[11]| == 4 && |f[12]| == 1 && |f[13]| == 45
  }

  function InodeFrom(f: seq<seq<byte>>, checksum: u32): Inode
    requires InodeSizes(f)
  {
    InodeRecord(Le32(f[0]), f[1][0], f[2][0], f[3], Le32(f[4]), Le32(f[5]), f[6], Le32(f[7]), GetAll(f[8], 10),
                Le32(f[9]), f[10], f[11], f[12][0], f[13], checksum)
  }

  /** The fields of a record, in order. */
  function FieldsOf(r: seq<byte>): (f: seq<seq<byte>>)
    requires |r| == 256
    ensures InodeSizes(f)
  {
    InodeWidthsTotal();
    FieldSizes(Split(r[..252], InodeWidths()));
    Split(r[..252], InodeWidths())
  }

  function DecodeInode(r: seq<byte>): Inode
    requires |r| == 256
  {
    InodeFrom(FieldsOf(r), Le32(r[252..]))
  }

  lemma FieldSizes(f: seq<seq<byte>>)
    requires |f| == |InodeWidths()| && forall k :: 0 <= k < |f| ==> |f[k]| == InodeWidths()[k]
    ensures InodeSizes(f)
  {
  }

  lemma InodeNumbers(i: Inode)
    ensures Le32(PutLe32(i.number)) == i.number && Le32(PutLe32(i.size)) == i.size
    ensures Le32(PutLe32(i.blockCount)) == i.blockCount && Le32(PutLe32(i.parent)) == i.parent
    ensures Le32(PutLe32(i.indirect)) == i.indirect && Le32(PutLe32(i.checksum)) == i.checksum
    ensures GetAll(PutAll(i.direct), 10) == i.direct
  {
    Le32RoundTrip(i.number);
    Le32RoundTrip(i.size);
    Le32RoundTrip(i.blockCount);
    Le32RoundTrip(i.parent);
    Le32RoundTrip(i.indirect);
    Le32RoundTrip(i.checksum);
    GetPutAll(i.direct);
  }

  lemma InodeFromParts(i: Inode, f: seq<seq<byte>>)
    requires InodeSizes(f) && Le32(f[0]) == i.number && f[1] == [i.entryType] && f[2] == [i.nameLength]
    requires f[3] == i.mode && Le32(f[4]) == i.size && Le32(f[5]) == i.blockCount && f[6] == i.stamps
    requires Le32(f[7]) == i.parent
    requires GetAll(f[8], 10) == i.direct && Le32(f[9]) == i.indirect && f[10] == i.name && f[11] == i.owner
    requires f[12] == [i.security] && f[13] == i.reserved
    ensures InodeFrom(f, i.checksum) == i
  {
  }

  lemma InodeParts(i: Inode, f: seq<seq<byte>>)
    requires f == InodeFields(i)
    ensures InodeSizes(f) && InodeFrom(f, i.checksum) == i
  {
    InodeNumbers(i);
    assert f[8] == PutAll(i.direct);
    InodeFromParts(i, f);
  }

  lemma InodeFromFields(i: Inode)
    ensures InodeSizes(InodeFields(i)) && InodeFrom(InodeFields(i), i.checksum) == i
  {
    InodeParts(i, InodeFields(i));
  }

  lemma SplitInode(i: Inode)
    ensures FieldsOf(EncodeInode(i)) == InodeFields(i)
  {
    InodeWidthsTotal();
    InodeFits(i);
    SplitFlat(InodeFields(i), InodeWidths());
    assert EncodeInode(i)[..252] == Flat(InodeFields(i));
  }

  /** Reading a stored inode gives the inode that was stored. */
  lemma InodeRoundTrip(i: Inode)
    ensures DecodeInode(EncodeInode(i)) == i
  {
    SplitInode(i);
    InodeFromFields(i);
    Le32RoundTrip(i.checksum);
    assert EncodeInode(i)[252..] == PutLe32(i.checksum);
  }

  /** The widths of the fields of an inode. */
  predicate InodeColumns(w: seq<nat>) {
    && |w| == 14 && w[0] == 4 && w[1] == 1 && w[2] == 1 && w[3] == 4 && w[4] == 4 && w[5] == 4 && w[6] == 8 && w[7] == 4
    && w[8] == 40 && w[9] == 4 && w[10] == 128 && w[11] == 4 && w[12] == 1 && w[13] == 45
  }

  lemma FieldsLayout(body: seq<byte>, w: seq<nat>, f: seq<seq<byte>>)
    requires InodeColumns(w) && |body| == Total(w) == 252 && f == Split(body, w)
    ensures f[0] == body[0..4] && f[1] == body[4..5] && f[2] == body[5..6] && f[3] == body[6..10]
    ensures f[4] == body[10..14]
    ensures f[5] == body[14..18] && f[6] == body[18..26] && f[7] == body[26..30] && f[8] == body[30..70]
    ensures f[9] == body[70..74] && f[10] == body[74..202] && f[11] == body[202..206] && f[12] == body[206..207]
    ensures f[13] == body[207..252]
  {
    var at := FieldAt(body, w, 0, 0);
    at := FieldAt(body, w, 1, at);
    at := FieldAt(body, w, 2, at);
    at := FieldAt(body, w, 3, at);
    at := FieldAt(body, w, 4, at);
    at := FieldAt(body, w, 5, at);
    at := FieldAt(body, w, 6, at);
    at := FieldAt(body, w, 7, at);
    at := FieldAt(body, w, 8, at);
    at := FieldAt(body, w, 9, at);
    at := FieldAt(body, w, 10, at);
    at := FieldAt(body, w, 11, at);
    at := FieldAt(body, w, 12, at);
    at := FieldAt(body, w, 13, at);
  }

  lemma InodeFieldsLayout(body: seq<byte>, f: seq<seq<byte>>, checksum: u32, i: Inode)
    requires |body| == 252 && InodeSizes(f) && i == InodeFrom(f, checksum)
    requires f[0] == body[0..4] && f[1] == body[4..5] && f[2] == body[5..6] && f[3] == body[6..10]
    requires f[4] == body[10..14]
    requires f[5] == body[14..18] && f[6] == body[18..26] && f[7] == body[26..30] && f[8] == body[30..70]
    requires f[9] == body[70..74] && f[10] == body[74..202] && f[11] == body[202..206] && f[12] == body[206..207]
    requires f[13] == body[207..252]
    ensures i.number == Le32(body[0..4]) && i.entryType == body[4] && i.nameLength == body[5] && i.mode == body[6..10]
    ensures i.size == Le32(body[10..14]) && i.blockCount == Le32(body[14..18]) && i.stamps == body[18..26]
    ensures i.parent == Le32(body[26..30]) && i.direct == GetAll(body[30..70], 10) && i.indirect == Le32(body[70..74])
    ensures i.name == body[74..202] && i.owner == body[202..206] && i.security == body[206]
    ensures i.reserved == body[207..252]
  {
  }

  // ---- record checksums ----

  function InodeCrc(i: Inode): u32 {
    StructCrc(EncodeInode(i), 252)
  }

  predicate InodeVerifies(i: Inode) {
    i.checksum == InodeCrc(i)
  }

  /** The inode with its checksum recomputed, as every write of it does. */
  function Seal(i: Inode): Inode {
    i.(checksum := InodeCrc(i))
  }

  lemma TrailerIsBlank(body: seq<byte>, c: seq<byte>, d: seq<byte>)
    requires |body| == 252 && |c| == 4 && |d| == 4
    ensures StructCrc(body + c, 252) == StructCrc(body + d, 252)
  {
    assert Blank(body + c, 252) == Blank(body + d, 252);
  }

  /** A sealed inode verifies, and sealing changes nothing but the checksum. */
  lemma SealVerifies(i: Inode)
    ensures InodeVerifies(Seal(i))
  {
    TrailerIsBlank(InodeBody(i), PutLe32(i.checksum), PutLe32(InodeCrc(i)));
    assert InodeFields(Seal(i)) == InodeFields(i);
  }

  /** The test on the bytes of a slot is the test on the inode. */
  lemma InodeVerifiesBytes(i: Inode)
    ensures Verifies(EncodeInode(i), 252) <==> InodeVerifies(i)
  {
    assert EncodeInode(i)[252..256] == PutLe32(i.checksum);
    Le32RoundTrip(i.checksum);
  }

  /** Every field is zero. */
  predicate Zeroed(i: Inode) {
    && i.number == 0 && i.entryType == 0 && i.nameLength == 0 && i.mode == Zeros(4) && i.size == 0 && i.blockCount == 0
    && i.stamps == Zeros(8) && i.parent == 0 && (forall k :: 0 <= k < 10 ==> i.direct[k] == 0) && i.indirect == 0
    && i.name == Zeros(128) && i.owner == Zeros(4) && i.security == 0 && i.reserved == Zeros(45) && i.checksum == 0
  }

  /** A slot of a zeroed block holds such an inode. */
  lemma ZeroInodeBytes(i: Inode)
    requires Zeroed(i)
    ensures EncodeInode(i) == Zeros(256)
  {
    var f := InodeFields(i);
    PutLe32Zero(0);
    PutAllZeros(i.direct);
    FlatZeros(f, InodeWidths());
    InodeWidthsTotal();
  }

  lemma {:induction false} PutAllZeros(ps: seq<u32>)
    requires forall k :: 0 <= k < |ps| ==> ps[k] == 0
    ensures PutAll(ps) == Zeros(4 * |ps|)
  {
    if ps != [] {
      PutLe32Zero(ps[0]);
      PutAllZeros(ps[1..]);
    }
  }

  // ---- catalog entries ----

  datatype EntryRecord = EntryRecord(inode: u32, entryType: byte, nameLength: byte, name: seq<byte>,
      reserved: seq<byte>, checksum: u32)

  const ZERO_ENTRY: EntryRecord := EntryRecord(0, 0, 0, Zeros(128), Zeros(118), 0)

  type Entry = e: EntryRecord | |e.name| == 128 && |e.reserved| == 118 witness ZERO_ENTRY

  function EntryBody(e: Entry): (r: seq<byte>)
    ensures |r| == 252
  {
    PutLe32(e.inode) + [e.entryType, e.nameLength] + e.name + e.reserved
  }

  function EncodeEntry(e: Entry): (r: seq<byte>)
    ensures |r| == 256
  {
    EntryBody(e) + PutLe32(e.checksum)
  }

  function DecodeEntry(r: seq<byte>): Entry
    requires |r| == 256
  {
    EntryRecord(Le32(r[..4]), r[4], r[5], r[6..134], r[134..252], Le32(r[252..]))
  }

  lemma EntryRoundTrip(e: Entry)
    ensures DecodeEntry(EncodeEntry(e)) == e
  {
    var r := EncodeEntry(e);
    Le32RoundTrip(e.inode);
    Le32RoundTrip(e.checksum);
    assert r[..4] == PutLe32(e.inode);
    assert r[6..134] == e.name;
    assert r[134..252] == e.reserved;
    assert r[252..] == PutLe32(e.checksum);
  }

  function EntryCrc(e: Entry): u32 {
    StructCrc(EncodeEntry(e), 252)
  }

  predicate EntryVerifies(e: Entry) {
    e.checksum == EntryCrc(e)
  }

  function SealEntry(e: Entry): Entry {
    e.(checksum := EntryCrc(e))
  }

  lemma SealEntryVerifies(e: Entry)
    ensures EntryVerifies(SealEntry(e))
  {
    TrailerIsBlank(EntryBody(e), PutLe32(e.checksum), PutLe32(EntryCrc(e)));
  }

  // ---- the superblock ----

  /** Volume state: the three flags of the state word, and its other bits. */
  datatype FlagRecord = FlagRecord(dirty: bool, error: bool, locked: bool, other: nat)

  type Flags = f: FlagRecord | f.other < 0x2000_0000 witness CLEAN

  const CLEAN: FlagRecord := FlagRecord(false, false, false, 0)

  function FlagsWord(f: Flags): u32 {
    (if f.dirty then 1 else 0) + (if f.error then 2 else 0) + (if f.locked then 4 else 0) + 8 * f.other
  }

  function FlagsOf(w: u32): Flags {
    FlagRecord(w % 2 == 1, w / 2 % 2 == 1, w / 4 % 2 == 1, w / 8)
  }

  lemma FlagsRoundTrip(f: Flags)
    ensures FlagsOf(FlagsWord(f)) == f
  {
    var d, e, l := One(f.dirty), One(f.error), One(f.locked);
    assert FlagsWord(f) == d + 2 * e + 4 * l + 8 * f.other;
    SplitBits(d, e, l, f.other);
  }

  lemma SplitBits(d: nat, e: nat, l: nat, o: nat)
    requires d < 2 && e < 2 && l < 2
    ensures var w := d + 2 * e + 4 * l + 8 * o; w % 2 == d && w / 2 % 2 == e && w / 4 % 2 == l && w / 8 == o
  {
    SplitBit(e + 2 * l + 4 * o, d);
    SplitBit(l + 2 * o, e);
    SplitBit(o, l);
    SplitTwo(l + 2 * o, d + 2 * e);
    SplitThree(o, d + 2 * e + 4 * l);
  }

  lemma SplitBit(x: nat, b: nat)
    requires b < 2
    ensures (b + 2 * x) % 2 == b && (b + 2 * x) / 2 == x
  {
  }

  lemma SplitTwo(x: nat, b: nat)
    requires b < 4
    ensures (b + 4 * x) / 4 == x
  {
  }

  lemma SplitThree(x: nat, b: nat)
    requires b < 8
    ensures (b + 8 * x) / 8 == x
  {
  }

  /** Where everything is: set by formatting, read by mounting, changed by nothing else. */
  datatype Geometry = Geometry(
    totalBlocks: u32, totalInodes: u32, bitmapStart: u32, bitmapBlocks: u32, inodeStart: u32, inodeBlocks: u32,
        dataStart: u32)

  /** What else stays put: identification, label, key slots and nonce. */
  datatype Identity = Identity(
    magic: u32, version: u32, blockSize: u32, root: u32, volumeLabel: seq<byte>, key1: seq<byte>, key2: seq<byte>,
        nonce: seq<byte>,
    reserved: seq<byte>)

  datatype SuperRecord = SuperRecord(
    id: Identity, geo: Geometry, freeBlocks: u32, freeInodes: u32, mountCount: u32, state: Flags, sum1: u32, sum2: u32,
    security: u32, checksum: u32)

  predicate IdentityShape(i: Identity) {
    |i.volumeLabel| == 64 && |i.key1| == 256 && |i.key2| == 256 && |i.nonce| == 12 && |i.reserved| == 3432
  }

  const ZERO_IDENTITY: Identity := Identity(0, 0, 0, 0, Zeros(64), Zeros(256), Zeros(256), Zeros(12), Zeros(3432))

  type Ident = i: Identity | IdentityShape(i) witness ZERO_IDENTITY

  predicate SuperShape(s: SuperRecord) {
    IdentityShape(s.id)
  }

  const ZERO_SUPER: SuperRecord :=
    SuperRecord(ZERO_IDENTITY, Geometry(0, 0, 0, 0, 0, 0, 0),
                0, 0, 0, CLEAN, 0, 0, 0, 0)

  type Superblock = s: SuperRecord | SuperShape(s) witness ZERO_SUPER

  const MAGIC: u32 := 0x4F57_4653

  function SuperWords(s: Superblock): seq<u32> {
    [s.id.magic, s.id.version, s.id.blockSize, s.geo.totalBlocks, s.freeBlocks, s.geo.totalInodes, s.freeInodes,
        s.geo.bitmapStart,
     s.geo.bitmapBlocks, s.geo.inodeStart, s.geo.inodeBlocks, s.geo.dataStart, s.id.root, s.mountCount,
         FlagsWord(s.state), s.sum1, s.sum2]
  }

  /** The record before the checksum field at offset 0x84. */
  function SuperHead(s: Superblock): (r: seq<byte>)
    ensures |r| == 132
  {
    PutAll(SuperWords(s)) + s.id.volumeLabel
  }

  /** The record after it. */
  function SuperTail(s: Superblock): (r: seq<byte>)
    ensures |r| == 3960
  {
    PutLe32(s.security) + s.id.key1 + s.id.key2 + s.id.nonce + s.id.reserved
  }

  function EncodeSuper(s: Superblock): Block {
    SuperHead(s) + PutLe32(s.checksum) + SuperTail(s)
  }

  function DecodeSuper(b: Block): Superblock {
    var w := GetAll(b[..68], 17);
    var f := FlagsOf(w[14]);
    SuperRecord(Identity(w[0], w[1], w[2], w[12], b[68..132], b[140..396], b[396..652], b[652..664], b[664..]),
                Geometry(w[3], w[5], w[7], w[8], w[9], w[10], w[11]), w[4], w[6], w[13], f, w[15], w[16],
                Le32(b[136..140]), Le32(b[132..136]))
  }

  /** Reading a stored superblock gives the superblock that was stored. */
  lemma SuperRoundTrip(s: Superblock)
    ensures DecodeSuper(EncodeSuper(s)) == s
  {
    var b := EncodeSuper(s);
    GetPutAll(SuperWords(s));
    FlagsRoundTrip(s.state);
    Le32RoundTrip(s.checksum);
    Le32RoundTrip(s.security);
    SuperSlices(s, b);
  }

  lemma FlagsWritten(w: u32)
    ensures FlagsWord(FlagsOf(w)) == w
  {
  }

  /** Storing what was read gives the block back, whatever it holds. */
  lemma SuperWritten(b: Block)
    ensures EncodeSuper(DecodeSuper(b)) == b
  {
    WordsWritten(b, DecodeSuper(b), GetAll(b[..68], 17));
    PutGetAll(b[..68], 17);
    PutLoaded(b[132..136]);
    PutLoaded(b[136..140]);
    SuperPieces(b, DecodeSuper(b));
  }

  lemma WordsWritten(b: Block, s: Superblock, w: seq<u32>)
    requires s == DecodeSuper(b) && w == GetAll(b[..68], 17)
    ensures SuperWords(s) == w
  {
    FlagsWritten(w[14]);
  }

  lemma SuperPieces(b: Block, s: Superblock)
    requires PutAll(SuperWords(s)) == b[..68] && s.id.volumeLabel == b[68..132] && PutLe32(s.checksum) == b[132..136]
    requires PutLe32(s.security) == b[136..140] && s.id.key1 == b[140..396] && s.id.key2 == b[396..652]
    requires s.id.nonce == b[652..664] && s.id.reserved == b[664..]
    ensures EncodeSuper(s) == b
  {
    assert SuperHead(s) == b[..132];
    assert SuperTail(s) == b[136..];
    assert b == b[..132] + b[132..136] + b[136..];
  }

  lemma SuperSlices(s: Superblock, b: Block)
    requires b == EncodeSuper(s)
    ensures b[..68] == PutAll(SuperWords(s)) && b[68..132] == s.id.volumeLabel
    ensures b[132..136] == PutLe32(s.checksum) && b[136..140] == PutLe32(s.security)
    ensures b[140..396] == s.id.key1 && b[396..652] == s.id.key2 && b[652..664] == s.id.nonce
    ensures b[664..] == s.id.reserved
  {
    assert b[136..] == SuperTail(s);
  }

  function SuperCrc(s: Superblock): u32 {
    StructCrc(EncodeSuper(s), 132)
  }

  /** `owfs_superblock_validate`. */
  predicate SuperValid(s: Superblock) {
    s.id.magic == MAGIC && s.id.blockSize == 4096 && s.checksum == SuperCrc(s)
  }

  function SealSuper(s: Superblock): Superblock {
    s.(checksum := SuperCrc(s))
  }

  lemma SealSuperValid(s: Superblock)
    ensures SuperCrc(SealSuper(s)) == SuperCrc(s)
  {
    var t := SealSuper(s);
    assert SuperHead(t) == SuperHead(s) && SuperTail(t) == SuperTail(s);
    assert Blank(EncodeSuper(t), 132) == Blank(EncodeSuper(s), 132);
  }

  /** The test on the bytes of the superblock's block is the test on the record. */
  lemma SuperVerifiesBytes(s: Superblock)
    ensures Verifies(EncodeSuper(s), 132) <==> s.checksum == SuperCrc(s)
  {
    assert EncodeSuper(s)[132..136] == PutLe32(s.checksum);
    Le32RoundTrip(s.checksum);
  }

  /** The record around word `k` of its header. */
  lemma SuperAround(s: Superblock, k: nat, head: seq<byte>, tail: seq<byte>)
    requires k < 17 && head == PutAll(SuperWords(s)[..k])
    requires tail == PutAll(SuperWords(s)[k + 1..]) + s.id.volumeLabel + PutLe32(s.checksum) + SuperTail(s)
    ensures EncodeSuper(s) == head + PutLe32(SuperWords(s)[k]) + tail
  {
    var ws := SuperWords(s);
    PutAllAround(ws, k);
    Regroup(head, PutLe32(ws[k]), PutAll(ws[k + 1..]), s.id.volumeLabel, PutLe32(s.checksum), SuperTail(s));
  }

  lemma Regroup(a: seq<byte>, b: seq<byte>, c: seq<byte>, d: seq<byte>, e: seq<byte>, f: seq<byte>)
    ensures (((a + b + c) + d) + e) + f == a + b + (c + d + e + f)
  {
  }

  /** A superblock that verifies no longer does when any one word of its header changes. */
  lemma WordChangeNoticed(s: Superblock, s': Superblock, k: nat)
    requires s.checksum == SuperCrc(s) && k < 17 && SuperWords(s')[k] != SuperWords(s)[k]
    requires forall j :: 0 <= j < 17 && j != k ==> SuperWords(s')[j] == SuperWords(s)[j]
    requires s'.id.volumeLabel == s.id.volumeLabel && s'.checksum == s.checksum && SuperTail(s') == SuperTail(s)
    ensures s'.checksum != SuperCrc(s')
  {
    var ws, ws' := SuperWords(s), SuperWords(s');
    assert ws'[..k] == ws[..k] && ws'[k + 1..] == ws[k + 1..];
    var head, tail := PutAll(ws[..k]), PutAll(ws[k + 1..]) + s.id.volumeLabel + PutLe32(s.checksum) + SuperTail(s);
    SuperAround(s, k, head, tail);
    SuperAround(s', k, head, tail);
    Le32RoundTrip(ws[k]);
    Le32RoundTrip(ws'[k]);
    SuperVerifiesBytes(s);
    SuperVerifiesBytes(s');
    CorruptionNoticed(head, PutLe32(ws[k]), PutLe32(ws'[k]), tail, 132);
  }

  /** In particular when the count of free blocks changes, or the count of free inodes. */
  lemma CountChangeNoticed(s: Superblock, f: u32)
    requires SuperValid(s)
    ensures f != s.freeBlocks ==> !SuperValid(s.(freeBlocks := f))
    ensures f != s.freeInodes ==> !SuperValid(s.(freeInodes := f))
  {
    if f != s.freeBlocks {
      WordChangeNoticed(s, s.(freeBlocks := f), 4);
    }
    if f != s.freeInodes {
      WordChangeNoticed(s, s.(freeInodes := f), 6);
    }
  }
}
