/**
 A mounted USFS volume: the device's blocks and the in-memory superblock, with the
 entries that the blocks of the entry table hold.
 */
module UsfsVolume {
  import opened Words
  import opened Veils
  import opened Bitmap
  import opened Records
  import opened UsfsTypes

  datatype Htl = HtlOk | HtlIo | HtlWriteProtect

  /** The regions: superblock at 0, entry table at 1, bitmap from 17, data. */
  datatype Plan = Plan(total: u32, bitmapBlocks: u32, dataStart: u32)

  predicate Laid(p: Plan) {
    && p.dataStart == 17 + p.bitmapBlocks < p.total
    && p.total - p.dataStart <= 32768 * p.bitmapBlocks
  }

  predicate InData(p: Plan, b: int) {
    p.dataStart <= b < p.total
  }

  /** The bitmap marks exactly the blocks of `used`. */
  ghost predicate BitsAre(blocks: seq<Block>, p: Plan, used: set<nat>) {
    var r: bool :| forall k {:trigger Lifted(Bits, k)} :: Lifted(Bits, k) ==> (r <==> BitsInFull(blocks, p, used));
    r
  }

  ghost predicate BitsInFull(blocks: seq<Block>, p: Plan, used: set<nat>) {
    && (forall b :: b in used ==> InData(p, b))
    && (forall r: nat {:trigger Marked(blocks, r)} :: r < p.total - p.dataStart ==>
           (Marked(blocks, r) <==> p.dataStart + r in used))
  }

  lemma OpenBits(blocks: seq<Block>, p: Plan, used: set<nat>)
    ensures BitsAre(blocks, p, used) <==> BitsInFull(blocks, p, used)
  {
    assert Lifted(Bits, 0);
  }

  /** The free count is exact. */
  ghost predicate Counted(free: nat, p: Plan, used: set<nat>) {
    var r: bool :| forall k {:trigger Lifted(Count, k)} :: Lifted(Count, k) ==> (r <==> CountedInFull(free, p, used));
    r
  }

  ghost predicate CountedInFull(free: nat, p: Plan, used: set<nat>) {
    free + |used| == p.total - p.dataStart
  }

  lemma OpenCounted(free: nat, p: Plan, used: set<nat>)
    ensures Counted(free, p, used) <==> CountedInFull(free, p, used)
  {
    assert Lifted(Count, 0);
  }

  /** The blocks of the entry table. */
  function Rows(blocks: seq<Block>): seq<Block> {
    if |blocks| > 16 then blocks[1..17] else []
  }

  /** The table's blocks hold these entries, and every record in use verifies. */
  ghost predicate Tabled(rows: seq<Block>, table: seq<Entry>) {
    var r: bool :| forall k {:trigger Lifted(Table, k)} :: Lifted(Table, k) ==> (r <==> TabledInFull(rows, table));
    r
  }

  ghost predicate TabledInFull(rows: seq<Block>, table: seq<Entry>) {
    && |rows| == 16 && |table| == 256
    && forall i: nat {:trigger SlotBytes(rows, 0, i)} :: i < 256 ==>
         EntryIn(SlotBytes(rows, 0, i)) == table[i] && !EntryBad(SlotBytes(rows, 0, i))
  }

  lemma OpenTabled(rows: seq<Block>, table: seq<Entry>)
    ensures Tabled(rows, table) <==> TabledInFull(rows, table)
  {
    assert Lifted(Table, 0);
  }

  lemma TabledAt(rows: seq<Block>, table: seq<Entry>, i: nat)
    requires Tabled(rows, table) && i < 256
    ensures |rows| == 16 && |table| == 256
    ensures EntryIn(SlotBytes(rows, 0, i)) == table[i] && !EntryBad(SlotBytes(rows, 0, i))
  {
    OpenTabled(rows, table);
  }

  /** Storing an entry's record changes that entry and no other. */
  lemma RowWrite(rows: seq<Block>, table: seq<Entry>, i: nat, e: Entry)
    requires Tabled(rows, table) && i < 256 && |rows| == 16 && |table| == 256
    ensures Tabled(rows[i / 16 := WithSlot(rows[i / 16], i % 16, EncodeEntry(e))], table[i := e])
  {
    OpenTabled(rows, table);
    var after := rows[i / 16 := WithSlot(rows[i / 16], i % 16, EncodeEntry(e))];
    WrittenRecord(e);
    forall j: nat | j < 256
      ensures SlotBytes(after, 0, j) == if j == i then EncodeEntry(e) else SlotBytes(rows, 0, j)
    {
      if j / 16 == i / 16 {
        WithSlotAt(rows[i / 16], i % 16, EncodeEntry(e), j % 16);
        assert j == i || j % 16 != i % 16;
      }
    }
    OpenTabled(after, table[i := e]);
  }

  lemma RowsWith(blocks: seq<Block>, k: nat, buf: Block)
    requires |blocks| > 16 && k < 16
    ensures Rows(blocks[1 + k := buf]) == Rows(blocks)[k := buf]
  {
  }

  /** No block from the bitmap on has changed. */
  ghost predicate RowsOnly(blocks: seq<Block>, blocks': seq<Block>) {
    |blocks'| == |blocks| && forall b :: 17 <= b < |blocks| ==> blocks'[b] == blocks[b]
  }

  lemma RowsKeepBits(blocks: seq<Block>, blocks': seq<Block>, p: Plan, used: set<nat>)
    requires Laid(p) && BitsAre(blocks, p, used) && RowsOnly(blocks, blocks')
    ensures BitsAre(blocks', p, used)
  {
    OpenBits(blocks, p, used);
    OpenBits(blocks', p, used);
    forall r: nat | r < p.total - p.dataStart
      ensures Marked(blocks', r) == Marked(blocks, r)
    {
    }
  }

  // ---- which data blocks have changed ----

  /** Between the two states of the device, no data block outside a run of `n` blocks from `lo` on has changed. */
  ghost predicate OnlyRun(before: seq<Block>, blocks: seq<Block>, p: Plan, lo: nat, n: nat) {
    var r: bool :| forall k {:trigger Lifted(Framing, k)} :: Lifted(Framing, k) ==>
      (r <==> OnlyRunInFull(before, blocks, p, lo, n));
    r
  }

  ghost predicate OnlyRunInFull(before: seq<Block>, blocks: seq<Block>, p: Plan, lo: nat, n: nat) {
    |blocks| == |before| && forall b :: p.dataStart <= b < |blocks| && !(lo <= b < lo + n) ==> blocks[b] == before[b]
  }

  lemma OpenOnlyRun(before: seq<Block>, blocks: seq<Block>, p: Plan, lo: nat, n: nat)
    ensures OnlyRun(before, blocks, p, lo, n) <==> OnlyRunInFull(before, blocks, p, lo, n)
  {
    assert Lifted(Framing, 0);
  }

  /** No data block has changed. */
  ghost predicate OutsideKept(before: seq<Block>, blocks: seq<Block>, p: Plan) {
    OnlyRun(before, blocks, p, 0, 0)
  }

  lemma OutsideSelf(blocks: seq<Block>, p: Plan)
    ensures OutsideKept(blocks, blocks, p)
  {
    OpenOnlyRun(blocks, blocks, p, 0, 0);
  }

  predicate Within(l: nat, m: nat, lo: nat, n: nat) {
    m == 0 || (lo <= l && l + m <= lo + n)
  }

  /** What changed in two steps, each within the run. */
  lemma OnlyThen(a: seq<Block>, b: seq<Block>, c: seq<Block>, p: Plan, lo: nat, n: nat, l: nat, m: nat, l': nat,
      m': nat)
    requires OnlyRun(a, b, p, l, m) && OnlyRun(b, c, p, l', m') && Within(l, m, lo, n) && Within(l', m', lo, n)
    ensures OnlyRun(a, c, p, lo, n)
  {
    OpenOnlyRun(a, b, p, l, m);
    OpenOnlyRun(b, c, p, l', m');
    OpenOnlyRun(a, c, p, lo, n);
  }

  lemma OnlyMore(a: seq<Block>, b: seq<Block>, p: Plan, lo: nat, n: nat, l: nat, m: nat)
    requires OnlyRun(a, b, p, l, m) && Within(l, m, lo, n)
    ensures OnlyRun(a, b, p, lo, n)
  {
    OpenOnlyRun(a, b, p, l, m);
    OpenOnlyRun(a, b, p, lo, n);
  }

  /** Writing one block of the run, or one below the data region. */
  lemma OnlyOne(blocks: seq<Block>, p: Plan, lo: nat, n: nat, b: nat, buf: Block)
    requires b < |blocks| && (lo <= b < lo + n || b < p.dataStart)
    ensures OnlyRun(blocks, blocks[b := buf], p, lo, n)
  {
    OpenOnlyRun(blocks, blocks[b := buf], p, lo, n);
  }

  lemma OnlyBoth(a: seq<Block>, b: seq<Block>, c: seq<Block>, p: Plan, lo: nat, n: nat)
    requires OnlyRun(a, b, p, lo, n) && OnlyRun(b, c, p, lo, n)
    ensures OnlyRun(a, c, p, lo, n)
  {
    OnlyThen(a, b, c, p, lo, n, lo, n, lo, n);
  }

  /** One more block of the run. */
  lemma OnlyAgain(before: seq<Block>, blocks: seq<Block>, p: Plan, lo: nat, n: nat, b: nat, buf: Block)
    requires OnlyRun(before, blocks, p, lo, n) && b < |blocks| && lo <= b < lo + n
    ensures OnlyRun(before, blocks[b := buf], p, lo, n)
  {
    OnlyOne(blocks, p, lo, n, b, buf);
    OnlyThen(before, blocks, blocks[b := buf], p, lo, n, lo, n, lo, n);
  }

  function WritableIn(locked: bool, error: bool, security: nat): Status {
    if locked || error then VolumeDirty else if ReadOnly(security) then WriteProtected else Ok
  }

  class Volume {
    var blocks: seq<Block>
    /** A healthy device completes every call; any other may fail any call. */
    var healthy: bool

    // the in-memory superblock
    var plan: Plan
    var freeBlocks: u32
    var usedEntries: u32
    var locked: bool
    var error: bool
    var security: u32
    var key: seq<byte>
    var nonce: seq<byte>

    /** The data blocks the bitmap marks. */
    ghost var used: set<nat>
    /** The 256 entries of the table. */
    ghost var table: seq<Entry>

    ghost predicate Shaped()
      reads this
    {
      Laid(plan) && plan.total <= |blocks| && |key| == 32 && |nonce| == 12 && |table| == 256
          && Tabled(Rows(blocks), table)
    }

    /** The bitmap marks the used blocks and the free count is exact. */
    ghost predicate Valid()
      reads this
    {
      Shaped() && BitsAre(blocks, plan, used) && Counted(freeBlocks, plan, used)
    }

    predicate Writable()
      reads this
    {
      !locked && !error && !ReadOnly(security)
    }

    /** `usfs_volume_writable` */
    function WritableStatus(): Status
      reads this
    {
      WritableIn(locked, error, security)
    }

    method ReadBlock(b: nat) returns (st: Htl, buf: Block)
      ensures st == HtlOk ==> b < |blocks| && buf == blocks[b]
      ensures healthy && b < |blocks| ==> st == HtlOk
    {
      st, buf := HtlIo, *;
      if b < |blocks| {
        var fails: bool := *;
        if healthy || !fails {
          st, buf := HtlOk, blocks[b];
        }
      }
    }

    /** A failed write leaves the block unchanged. */
    method WriteBlock(b: nat, buf: Block) returns (st: Htl)
      modifies this`blocks
      ensures |blocks| == |old(blocks)|
      ensures st == HtlOk ==> b < |old(blocks)| && blocks == old(blocks)[b := buf]
      ensures st != HtlOk ==> blocks == old(blocks)
      ensures healthy && b < |old(blocks)| ==> st == HtlOk
      ensures b >= 17 ==> Rows(blocks) == Rows(old(blocks))
    {
      st := *;
      if st == HtlOk && b >= |blocks| {
        st := HtlIo;
      }
      if healthy && b < |blocks| {
        st := HtlOk;
      }
      if st == HtlOk {
        blocks := blocks[b := buf];
      }
    }

    /** Reads a slot of the entry table, whatever is on the device. */
    method SlotRead(i: u32) returns (st: Status, e: Entry)
      requires |blocks| > 16
      ensures i >= 256 ==> st == NotFound
      ensures i < 256 ==> st == Ok || st == ChecksumMismatch || (st == IoError && !healthy)
      ensures i < 256 && st != IoError ==>
        var record := SlotBytes(Rows(blocks), 0, i);
        e == EntryIn(record) && (st == ChecksumMismatch <==> EntryBad(record))
    {
      e := NO_ENTRY;
      if i >= 256 {
        return NotFound, e;
      }
      var hres, buf := ReadBlock(1 + i / 16);
      if hres != HtlOk {
        return IoError, e;
      }
      assert buf == Rows(blocks)[i / 16];
      var bad;
      e, bad := ParseEntry(SlotAt(buf, i % 16));
      return if bad then ChecksumMismatch else Ok, e;
    }

    /** On a volume in shape that is the entry in the table, and its checksum verifies. */
    method EntryRead(i: u32) returns (st: Status, e: Entry)
      requires Shaped()
      ensures i >= 256 ==> st == NotFound
      ensures st == Ok ==> i < 256 && e == table[i]
      ensures i < 256 ==> st == Ok || (st == IoError && !healthy)
    {
      if i < 256 {
        TabledAt(Rows(blocks), table, i);
      }
      st, e := SlotRead(i);
    }

    /** Writes a slot of the entry table: its block is read, the record replaced, checksum and all, and written back. */
    method EntryWrite(i: u32, e: Entry) returns (st: Status)
      requires Shaped()
      modifies this`blocks, this`table
      ensures Shaped() && OutsideKept(old(blocks), blocks, plan)
      ensures i >= 256 ==> st == NotFound
      ensures st == Ok ==> i < 256 && table == old(table)[i := e]
      ensures st != Ok ==> table == old(table) && blocks == old(blocks)
      ensures i < 256 && healthy ==> st == WritableStatus()
      ensures old(Valid()) ==> Valid()
    {
      OutsideSelf(blocks, plan);
      if i >= 256 {
        return NotFound;
      }
      st := WritableStatus();
      if st != Ok {
        return;
      }
      var hres, buf := ReadBlock(1 + i / 16);
      if hres != HtlOk {
        return IoError;
      }
      TabledAt(Rows(blocks), table, i);
      assert buf == Rows(blocks)[i / 16];
      var after := WithSlot(buf, i % 16, EncodeEntry(e));
      RowWrite(Rows(blocks), table, i, e);
      hres := WriteBlock(1 + i / 16, after);
      if hres != HtlOk {
        return WriteStatus(hres);
      }
      table := table[i := e];
      RowsWith(old(blocks), i / 16, after);
      OnlyOne(old(blocks), plan, 0, 0, 1 + i / 16, after);
      if old(Valid()) {
        RowsKeepBits(old(blocks), blocks, plan, used);
      }
    }
  }

  function WriteStatus(st: Htl): (r: Status)
    requires st != HtlOk
    ensures r == WriteProtected || r == IoError
    ensures r == WriteProtected <==> st == HtlWriteProtect
  {
    if st == HtlWriteProtect then WriteProtected else IoError
  }

  /** Writing a data block leaves the bitmap alone. */
  lemma DataWriteKeepsBits(blocks: seq<Block>, p: Plan, used: set<nat>, b: nat, buf: Block)
    requires Laid(p) && BitsAre(blocks, p, used) && p.dataStart <= b < |blocks|
    ensures BitsAre(blocks[b := buf], p, used)
  {
    OpenBits(blocks, p, used);
    OpenBits(blocks[b := buf], p, used);
    var after := blocks[b := buf];
    forall r: nat | r < p.total - p.dataStart
      ensures Marked(after, r) == Marked(blocks, r)
    {
    }
  }
}
