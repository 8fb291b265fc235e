/**
 The entries of a USFS volume and their 256-byte records.  The record's checksum
 exists only on the device: it is made when a record is written and tested when
 one is read.
 */
module UsfsTypes {
  import opened Words
  import opened Veils
  import opened Records
  import opened Crc32c

  datatype Status =
    | Ok
    | ChecksumMismatch
    | NoFreeBlocks
    | NoFreeEntries
    | NameTooLong
    | NotFound
    | IoError
    | VolumeDirty
    | WriteProtected
    | InvalidParam
    | NotFile

  const ENTRY_FILE: byte := 1
  const ENTRY_CATALOG: byte := 2
  const ENTRY_DELETED: byte := 0x80

  /** A directory entry: the start and length of its contiguous run, its size and its name. */
  datatype EntryRecord = EntryRecord(
    index: u32, kind: byte, nameLength: byte, security: byte, reserved: byte, mode: seq<byte>, size: u32, first: u32,
    blockCount: u32, parent: u32, stamps: seq<byte>, name: seq<byte>, owner: seq<byte>, padding: seq<byte>)

  const NO_ENTRY: EntryRecord :=
    EntryRecord(0, 0, 0, 0, 0, Zeros(4), 0, 0, 0, 0, Zeros(8), Zeros(128), Zeros(4), Zeros(84))

  type Entry = e: EntryRecord |
    |e.mode| == 4 && |e.stamps| == 8 && |e.name| == 128 && |e.owner| == 4 && |e.padding| == 84
    witness NO_ENTRY

  predicate IsDeleted(kind: byte) { kind >= 0x80 }
  predicate IsVacant(kind: byte) { kind == 0 || IsDeleted(kind) }
  predicate Encrypted(flags: nat) { flags % 2 == 1 }
  predicate ReadOnly(flags: nat) { flags / 2 % 2 == 1 }

  /** The name of an entry: as many bytes of the field as its length says. */
  function NameOf(e: Entry): seq<byte> {
    e.name[..Min(e.nameLength, 128)]
  }

  // ---- records ----

  function EntryWidths(): seq<nat> {
    [4, 4, 4, 4, 4, 4, 4, 8, 128, 4, 84]
  }

  function EntryFields(e: Entry): seq<seq<byte>> {
    [PutLe32(e.index), [e.kind, e.nameLength, e.security, e.reserved], e.mode, PutLe32(e.size), PutLe32(e.first),
     PutLe32(e.blockCount), PutLe32(e.parent), e.stamps, e.name, e.owner, e.padding]
  }

  lemma EntryWidthsTotal()
    ensures Total(EntryWidths()) == 252
  {
    assert EntryWidths()[5..] == [4, 4, 8, 128, 4, 84];
  }

  lemma EntryFits(e: Entry)
    ensures Fits(EntryFields(e), EntryWidths())
  {
  }

  /** Everything but the checksum. */
  function EntryBody(e: Entry): (r: seq<byte>)
    ensures |r| == 252
  {
    EntryFits(e);
    EntryWidthsTotal();
    FlatLength(EntryFields(e), EntryWidths());
    Flat(EntryFields(e))
  }

  /** The record as it is written, checksum included. */
  function EncodeEntry(e: Entry): (r: seq<byte>)
    ensures |r| == 256
  {
    EntryBody(e) + PutLe32(StructCrc(EntryBody(e) + Zeros(4), 252))
  }

  predicate EntrySizes(f: seq<seq<byte>>) {
    && |f| == 11
    && |f[0]| == 4 && |f[1]| == 4 && |f[2]| == 4 && |f[3]| == 4 && |f[4]| == 4 && |f[5]| == 4 && |f[6]| == 4
    && |f[7]| == 8 && |f[8]| == 128 && |f[9]| == 4 && |f[10]| == 84
  }

  function EntryFrom(f: seq<seq<byte>>): Entry
    requires EntrySizes(f)
  {
    EntryRecord(Le32(f[0]), f[1][0], f[1][1], f[1][2], f[1][3], f[2], Le32(f[3]), Le32(f[4]), Le32(f[5]), Le32(f[6]),
                f[7], f[8], f[9], f[10])
  }

  /** The fields of a record, in order. */
  function FieldsOf(r: seq<byte>): (f: seq<seq<byte>>)
    requires |r| == 256
    ensures EntrySizes(f)
  {
    EntryWidthsTotal();
    FieldSizes(Split(r[..252], EntryWidths()));
    Split(r[..252], EntryWidths())
  }

  lemma FieldSizes(f: seq<seq<byte>>)
    requires |f| == |EntryWidths()| && forall k :: 0 <= k < |f| ==> |f[k]| == EntryWidths()[k]
    ensures EntrySizes(f)
  {
  }

  function DecodeEntry(r: seq<byte>): Entry
    requires |r| == 256
  {
    EntryFrom(FieldsOf(r))
  }

  /** The widths of the fields of an entry. */
  predicate EntryColumns(w: seq<nat>) {
    && |w| == 11 && w[0] == 4 && w[1] == 4 && w[2] == 4 && w[3] == 4 && w[4] == 4 && w[5] == 4 && w[6] == 4 && w[7] == 8
    && w[8] == 128 && w[9] == 4 && w[10] == 84
  }

  lemma FieldsLayout(body: seq<byte>, w: seq<nat>, f: seq<seq<byte>>)
    requires EntryColumns(w) && |body| == Total(w) == 252 && f == Split(body, w)
    ensures f[0] == body[0..4] && f[1] == body[4..8] && f[2] == body[8..12] && f[3] == body[12..16]
    ensures f[4] == body[16..20] && f[5] == body[20..24] && f[6] == body[24..28] && f[7] == body[28..36]
    ensures f[8] == body[36..164] && f[9] == body[164..168] && f[10] == body[168..252]
  {
    var at := FieldAt(body, w, 0, 0);
    at := FieldAt(body, w, 1, at);
    at := FieldAt(body, w, 2, at);
    at := FieldAt(body, w, 3, at);
    at := FieldAt(body, w, 4, at);
    at := FieldAt(body, w, 5, at);
    at := FieldAt(body, w, 6, at);
    at := FieldAt(body, w, 7, at);
    at := FieldAt(body, w, 8, at);
    at := FieldAt(body, w, 9, at);
    at := FieldAt(body, w, 10, at);
  }

  lemma EntryFieldsLayout(body: seq<byte>, f: seq<seq<byte>>, e: Entry)
    requires |body| == 252 && EntrySizes(f) && e == EntryFrom(f)
    requires f[0] == body[0..4] && f[1] == body[4..8] && f[2] == body[8..12] && f[3] == body[12..16]
    requires f[4] == body[16..20] && f[5] == body[20..24] && f[6] == body[24..28] && f[7] == body[28..36]
    requires f[8] == body[36..164] && f[9] == body[164..168] && f[10] == body[168..252]
    ensures e.index == Le32(body[0..4]) && e.kind == body[4] && e.nameLength == body[5] && e.security == body[6]
    ensures e.reserved == body[7] && e.mode == body[8..12] && e.size == Le32(body[12..16])
    ensures e.first == Le32(body[16..20]) && e.blockCount == Le32(body[20..24]) && e.parent == Le32(body[24..28])
    ensures e.stamps == body[28..36] && e.name == body[36..164] && e.owner == body[164..168]
    ensures e.padding == body[168..252]
  {
    assert forall k :: 0 <= k < 4 ==> f[1][k] == body[4 + k];
  }

  lemma EntryFromFields(e: Entry)
    ensures EntrySizes(EntryFields(e)) && EntryFrom(EntryFields(e)) == e
  {
    Le32RoundTrip(e.index);
    Le32RoundTrip(e.size);
    Le32RoundTrip(e.first);
    Le32RoundTrip(e.blockCount);
    Le32RoundTrip(e.parent);
  }

  lemma SplitEntry(e: Entry)
    ensures FieldsOf(EncodeEntry(e)) == EntryFields(e)
  {
    EntryWidthsTotal();
    EntryFits(e);
    SplitFlat(EntryFields(e), EntryWidths());
    assert EncodeEntry(e)[..252] == Flat(EntryFields(e));
  }

  /** What was written is what is read, and it verifies. */
  lemma EntryRoundTrip(e: Entry)
    ensures DecodeEntry(EncodeEntry(e)) == e
    ensures Verifies(EncodeEntry(e), 252)
  {
    SplitEntry(e);
    EntryFromFields(e);
    var blank := EntryBody(e) + Zeros(4);
    assert EncodeEntry(e) == blank[..252] + PutLe32(StructCrc(blank, 252)) + blank[256..];
    StampVerifies(blank, 252, EncodeEntry(e));
  }

  lemma NoEntryIsZero(e: Entry)
    requires e == NO_ENTRY
    ensures EntryBody(e) == Zeros(252)
  {
    PutLe32Zero(e.index);
    FlatZeros(EntryFields(e), EntryWidths());
    EntryWidthsTotal();
  }

  lemma BodyDecides(r: seq<byte>, r': seq<byte>)
    requires |r| == |r'| == 256 && r[..252] == r'[..252]
    ensures DecodeEntry(r) == DecodeEntry(r')
  {
  }

  /** A zeroed slot holds no entry. */
  lemma ZeroEntry(z: seq<byte>, e: Entry)
    requires |z| == 256 && (forall k :: 0 <= k < 256 ==> z[k] == 0) && e == NO_ENTRY
    ensures DecodeEntry(z) == e
  {
    NoEntryIsZero(e);
    assert z[..252] == EntryBody(e) == EncodeEntry(e)[..252];
    BodyDecides(z, EncodeEntry(e));
    EntryRoundTrip(e);
  }

  // ---- slots ----

  /** The entry in a record. */
  ghost function EntryIn(record: seq<byte>): Entry
    requires |record| == 256
  {
    assert IsEntryIn(DecodeEntry(record), record);
    var r: Entry :| IsEntryIn(r, record);
    r
  }

  ghost predicate IsEntryIn(e: Entry, record: seq<byte>)
    requires |record| == 256
  {
    forall k {:trigger Lifted(Slot, k)} :: Lifted(Slot, k) ==> e == DecodeEntry(record)
  }

  /** Where the fields of an entry lie in its record. */
  lemma EntryLayout(r: seq<byte>, body: seq<byte>, e: Entry)
    requires |r| == 256 && e == EntryIn(r) && body == r[..252]
    ensures e.index == Le32(body[0..4]) && e.kind == body[4] && e.nameLength == body[5] && e.security == body[6]
    ensures e.reserved == body[7] && e.mode == body[8..12] && e.size == Le32(body[12..16])
    ensures e.first == Le32(body[16..20]) && e.blockCount == Le32(body[20..24]) && e.parent == Le32(body[24..28])
    ensures e.stamps == body[28..36] && e.name == body[36..164] && e.owner == body[164..168]
    ensures e.padding == body[168..252]
  {
    assert e == EntryFrom(FieldsOf(r)) by { assert Lifted(Slot, 0); }
    EntryWidthsTotal();
    FieldsLayout(body, EntryWidths(), FieldsOf(r));
    EntryFieldsLayout(body, FieldsOf(r), e);
  }

  /** The record is in use and its checksum does not verify. */
  ghost predicate EntryBad(record: seq<byte>)
    requires |record| == 256
  {
    var r: bool :| forall k {:trigger Lifted(Slot, k)} :: Lifted(Slot, k) ==> (r <==> EntryBadInFull(record));
    r
  }

  ghost predicate EntryBadInFull(record: seq<byte>)
    requires |record| == 256
  {
    DecodeEntry(record).kind != 0 && !Verifies(record, 252)
  }

  /** A slot is bad when it is in use and its last four bytes are not the checksum of its record. */
  lemma SlotIsBad(r: seq<byte>)
    requires |r| == 256
    ensures EntryBad(r) <==> r[4] != 0 && Le32(r[252..256]) != StructCrc(r, 252)
  {
    EntryLayout(r, r[..252], EntryIn(r));
    assert Lifted(Slot, 0);
  }

  lemma OpenEntryBad(record: seq<byte>)
    requires |record| == 256
    ensures EntryBad(record) <==> EntryBadInFull(record)
  {
    assert Lifted(Slot, 0);
  }

  lemma WrittenRecord(e: Entry)
    ensures EntryIn(EncodeEntry(e)) == e && !EntryBad(EncodeEntry(e))
  {
    assert Lifted(Slot, 0);
    EntryRoundTrip(e);
  }

  lemma ZeroRecord(z: seq<byte>)
    requires |z| == 256 && forall k :: 0 <= k < 256 ==> z[k] == 0
    ensures EntryIn(z) == NO_ENTRY && !EntryBad(z)
  {
    assert Lifted(Slot, 0);
    ZeroEntry(z, NO_ENTRY);
  }

  method ParseEntry(record: seq<byte>) returns (e: Entry, bad: bool)
    requires |record| == 256
    ensures e == EntryIn(record) && (bad <==> EntryBad(record))
  {
    assert Lifted(Slot, 0);
    OpenEntryBad(record);
    e := DecodeEntry(record);
    bad := e.kind != 0 && !Verifies(record, 252);
  }
}
