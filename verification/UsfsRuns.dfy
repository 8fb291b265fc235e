/**
 Formatting a USFS volume and whole runs on it: the bitmap is always exactly the
 union of the entries' runs, and no operation changes another entry's bytes.
 */
module UsfsRuns {
  import opened Words
  import opened Veils
  import opened Ranges
  import opened Records
  import opened Bitmap
  import opened Layout
  import Sutf8
  import opened UsfsTypes
  import opened UsfsVolume
  import opened UsfsBitmap
  import opened UsfsContent
  import opened UsfsFile
  import opened UsfsEntry
  import opened UsfsObjects
  import opened UsfsEffects

  // ---- the recount ----

  /** Recounts the clear bits; on a valid volume that is the free count. */
  method CountFree(v: Volume) returns (free: nat)
    requires v.Shaped()
    ensures v.healthy ==> free == CountClear(v.blocks, v.plan.total - v.plan.dataStart)
    ensures v.healthy && v.Valid() ==> free == v.freeBlocks
  {
    free := 0;
    var total := v.plan.total - v.plan.dataStart;
    var rel, current, buf := 0, 0xFFFF_FFFF, ZeroBlock();
    while rel < total
      invariant 0 <= rel <= total && free == CountClear(v.blocks, rel)
      invariant Cached(v.blocks, current, buf)
    {
      var st, marked;
      st, marked, current, buf := ReadBit(v, rel, current, buf);
      if st != Ok {
        return 0;
      }
      if !marked {
        free := free + 1;
      }
      rel := rel + 1;
    }
    if v.Valid() {
      ClearIsFreeCount(v);
    }
  }

  /** The bitmap block read last, if any. */
  predicate Cached(blocks: seq<Block>, current: nat, buf: Block) {
    current == 0xFFFF_FFFF || (17 + current < |blocks| && buf == blocks[17 + current])
  }

  /** One bit; its bitmap block is read unless it was the last one. */
  method ReadBit(v: Volume, rel: nat, current: nat, buf: Block)
      returns (st: Status, marked: bool, current': nat, buf': Block)
    requires v.Shaped() && rel < v.plan.total - v.plan.dataStart && Cached(v.blocks, current, buf)
    ensures st == Ok ==> marked == Marked(v.blocks, rel)
    ensures Cached(v.blocks, current', buf')
    ensures v.healthy ==> st == Ok
  {
    st, marked, current', buf' := Ok, false, current, buf;
    var blk := rel / 32768;
    assert blk < 0xFFFF_FFFF && 17 + blk < v.plan.dataStart;
    if blk != current {
      var hres, read := v.ReadBlock(17 + blk);
      if hres != HtlOk {
        return IoError, false, current, buf;
      }
      current', buf' := blk, read;
    }
    marked := Bit(buf'[rel % 32768 / 8], rel % 8);
  }

  lemma ClearIsFreeCount(v: Volume)
    requires v.Valid()
    ensures CountClear(v.blocks, v.plan.total - v.plan.dataStart) == v.freeBlocks
  {
    OpenBits(v.blocks, v.plan, v.used);
    OpenCounted(v.freeBlocks, v.plan, v.used);
    ClearAreFree(v.blocks, v.plan.dataStart, v.used, v.plan.total - v.plan.dataStart);
    assert Below(v.used, v.plan.total) == v.used;
  }

  // ---- the state of a volume ----

  ghost function SecretOf(v: Volume): Secret
    reads v
    requires v.Shaped()
  {
    SecretRecord(v.security, v.key, v.nonce)
  }

  ghost function SettingOf(v: Volume): Setting
    reads v
    requires v.Shaped()
  {
    Setting(v.locked, v.error, v.plan, SecretOf(v))
  }

  /** What decides the next operation. */
  ghost function Now(v: Volume): State
    reads v
    requires v.Shaped()
  {
    StateOf(SettingOf(v), v.usedEntries, v.table, v.blocks)
  }

  /** An empty entry table. */
  function EmptyState(plan: Plan): State {
    State(false, false, plan, 0, 0, seq(256, _ => NO_ENTRY), seq(256, _ => []))
  }

  /** A formatted volume: the root catalog allocated in an empty table. */
  ghost function NewState(plan: Plan, owner: seq<byte>): State
    requires |owner| == 4
  {
    Allocate(EmptyState(plan), ENTRY_CATALOG, [0x2F], 0, owner, []).state
  }

  // ---- formatting ----

  ghost predicate AllEmpty(table: seq<Entry>) {
    forall i :: 0 <= i < |table| ==> table[i] == NO_ENTRY
  }

  lemma {:induction false} NoneLive(table: seq<Entry>)
    requires AllEmpty(table)
    ensures LiveCount(table) == 0
  {
    if table != [] {
      NoneLive(table[..|table| - 1]);
    }
  }

  lemma BlankTable(rows: seq<Block>, table: seq<Entry>)
    requires |rows| == 16 && |table| == 256 && AllEmpty(table) && forall b :: 0 <= b < 16 ==> rows[b] == ZeroBlock()
    ensures Tabled(rows, table)
  {
    forall i: nat | i < 256
      ensures EntryIn(SlotBytes(rows, 0, i)) == table[i] && !EntryBad(SlotBytes(rows, 0, i))
    {
      assert rows[i / 16] == ZeroBlock();
      ZeroSlot(i % 16);
      ZeroRecord(SlotBytes(rows, 0, i));
    }
    OpenTabled(rows, table);
  }

  /** Zeroes the entry table. */
  method ClearTable(v: Volume) returns (st: Status)
    requires |v.blocks| > 16
    modifies v`blocks, v`table
    ensures |v.blocks| == |old(v.blocks)|
    ensures st == Ok ==> |v.table| == 256 && AllEmpty(v.table) && Tabled(Rows(v.blocks), v.table)
    ensures v.healthy ==> st == Ok
  {
    var i := 0;
    while i < 16
      invariant 0 <= i <= 16 && |v.blocks| == |old(v.blocks)|
      invariant forall b :: 0 <= b < i ==> Rows(v.blocks)[b] == ZeroBlock()
    {
      RowsWith(v.blocks, i, ZeroBlock());
      var hres := v.WriteBlock(1 + i, ZeroBlock());
      if hres != HtlOk {
        return IoError;
      }
      i := i + 1;
    }
    v.table := seq(256, _ => NO_ENTRY);
    BlankTable(Rows(v.blocks), v.table);
    st := Ok;
  }

  lemma EmptyIsExact(p: Plan, table: seq<Entry>)
    requires AllEmpty(table)
    ensures Exact(p, table, {})
  {
    OpenExact(p, table, {});
    forall i | 0 <= i < |table|
      ensures RunOf(table[i]) == {}
    {
      EmptyRun({}, table[i]);
    }
  }

  lemma ZeroBits(blocks: seq<Block>, p: Plan)
    requires Laid(p) && p.dataStart <= |blocks| && forall b :: 17 <= b < p.dataStart ==> blocks[b] == ZeroBlock()
    ensures BitsAre(blocks, p, {})
  {
    OpenBits(blocks, p, {});
    forall r: nat | r < p.total - p.dataStart
      ensures !Marked(blocks, r)
    {
      assert 17 + r / 32768 < p.dataStart;
      assert blocks[17 + r / 32768] == ZeroBlock();
      NoBits(r % 8);
    }
  }

  /** Zeroes the bitmap. */
  method BitmapInit(v: Volume) returns (st: Status)
    requires Laid(v.plan) && v.plan.total <= |v.blocks|
    modifies v`blocks
    ensures |v.blocks| == |old(v.blocks)| && Rows(v.blocks) == Rows(old(v.blocks))
    ensures st == Ok ==> forall b :: 17 <= b < v.plan.dataStart ==> v.blocks[b] == ZeroBlock()
    ensures v.healthy ==> st == Ok
  {
    var i := 0;
    while i < v.plan.bitmapBlocks
      invariant 0 <= i <= v.plan.bitmapBlocks && |v.blocks| == |old(v.blocks)| && Rows(v.blocks) == Rows(old(v.blocks))
      invariant forall b :: 17 <= b < 17 + i ==> v.blocks[b] == ZeroBlock()
    {
      var hres := v.WriteBlock(17 + i, ZeroBlock());
      if hres != HtlOk {
        return WriteStatus(hres);
      }
      i := i + 1;
    }
    st := Ok;
  }

  /**
   Formats a volume: a bitmap that covers the data region, an empty table, a root
   catalog with one block.  The superblock in memory is then the one it wrote.
   */
  method FormatVolume(v: Volume, total: u32, key: seq<byte>, nonce: seq<byte>, owner: seq<byte>) returns (st: Status)
    requires |key| == 32 && |nonce| == 12 && |owner| == 4 && total <= |v.blocks| && total <= 0x1_0000_0000 - 32750
    modifies v
    ensures v.healthy == old(v.healthy)
    ensures total < 19 ==> st == InvalidParam && v.blocks == old(v.blocks)
    ensures v.healthy && total >= 19 ==>
      && st == Ok && InOrder(v) && v.plan.total == total && v.plan.dataStart == 17 + v.plan.bitmapBlocks
      && v.key == key && v.nonce == nonce && v.security == 0 && !v.locked && !v.error
      && v.usedEntries == LiveCount(v.table) == 1 && v.table[0].kind == ENTRY_CATALOG
      && v.freeBlocks == total - v.plan.dataStart - 1 && Now(v) == NewState(v.plan, owner)
  {
    if total < 19 {
      return InvalidParam;
    }
    FillHeader(v, total, key, nonce);
    st := Populate(v, owner);
  }

  /** The superblock in memory. */
  method FillHeader(v: Volume, total: u32, key: seq<byte>, nonce: seq<byte>)
    requires |key| == 32 && |nonce| == 12 && 19 <= total <= |v.blocks| && total <= 0x1_0000_0000 - 32750
    modifies v`plan, v`freeBlocks, v`usedEntries, v`security, v`locked, v`error, v`key, v`nonce
    ensures Laid(v.plan) && v.plan.total == total && v.freeBlocks == total - v.plan.dataStart && v.usedEntries == 0
    ensures v.key == key && v.nonce == nonce && v.security == 0 && !v.locked && !v.error
  {
    var bitmapBlocks, dataStart;
    ghost var turns;
    bitmapBlocks, dataStart, turns := UsfsLayoutBitmapBlocks(total);
    v.plan := Plan(total, bitmapBlocks, dataStart);
    v.usedEntries, v.freeBlocks, v.security, v.locked, v.error := 0, total - dataStart, 0, false, false;
    v.key, v.nonce := key, nonce;
  }

  /** The regions and the root. */
  method Populate(v: Volume, owner: seq<byte>) returns (st: Status)
    requires Laid(v.plan) && v.plan.total <= |v.blocks| && |owner| == 4 && |v.key| == 32 && |v.nonce| == 12
    requires v.freeBlocks == v.plan.total - v.plan.dataStart && v.usedEntries == 0 && v.Writable() && v.security == 0
    modifies v`blocks, v`freeBlocks, v`used, v`table, v`usedEntries
    ensures v.healthy ==>
      && st == Ok && InOrder(v) && v.usedEntries == LiveCount(v.table) == 1 && v.table[0].kind == ENTRY_CATALOG
      && v.freeBlocks == v.plan.total - v.plan.dataStart - 1 && Now(v) == NewState(v.plan, owner)
  {
    st := ClearTable(v);
    if st != Ok {
      return;
    }
    st := BitmapInit(v);
    if st != Ok {
      return;
    }
    v.used := {};
    Blank(v);
    st := MakeRoot(v, owner);
  }

  lemma Blank(v: Volume)
    requires v.Shaped() && AllEmpty(v.table) && v.used == {} && v.freeBlocks == v.plan.total - v.plan.dataStart
    requires forall b :: 17 <= b < v.plan.dataStart ==> v.blocks[b] == ZeroBlock()
    ensures InOrder(v) && LiveCount(v.table) == 0 && NoneVacant(v.table, 0) && IsVacant(v.table[0].kind)
  {
    ZeroBits(v.blocks, v.plan);
    OpenCounted(v.freeBlocks, v.plan, v.used);
    EmptyIsExact(v.plan, v.table);
    NoneLive(v.table);
  }

  method MakeRoot(v: Volume, owner: seq<byte>) returns (st: Status)
    requires v.Shaped() && |owner| == 4 && v.Writable() && v.usedEntries == 0 && v.used == {}
    requires AllEmpty(v.table) && IsVacant(v.table[0].kind) && LiveCount(v.table) == 0 && v.security == 0
    requires v.healthy ==> InOrder(v)
    modifies v`blocks, v`freeBlocks, v`used, v`table, v`usedEntries
    ensures v.Shaped()
    ensures v.healthy ==>
      && st == Ok && InOrder(v) && v.usedEntries == LiveCount(v.table) == 1 && v.table[0].kind == ENTRY_CATALOG
      && v.freeBlocks == v.plan.total - v.plan.dataStart - 1 && Now(v) == NewState(v.plan, owner)
  {
    var i;
    var name := [0x2F];
    RootAllowed(v.plan, v.table, name);
    ghost var table, blocks := v.table, v.blocks;
    NothingHeld(SettingOf(v), table, blocks);
    st, i := EntryAlloc(v, ENTRY_CATALOG, name, 0, owner);
    if v.healthy {
      FirstSlot(table, i);
      ExactAt(v.plan, v.table, v.used, 0);
      RootNow(v, table, blocks, owner, st);
      OneUsed(v);
    }
  }

  lemma RootAllowed(p: Plan, table: seq<Entry>, name: seq<byte>)
    requires AllEmpty(table) && |table| == 256 && Laid(p) && name == [0x2F] && IsVacant(table[0].kind)
    ensures AllocAnswer(Ok, p, table, {}, 0, ENTRY_CATALOG, name, 0) == Ok
  {
    assert Sutf8.Valid([0x2F]) by { SlashIsValid(); }
    assert FreeRun(p, {}, p.dataStart, 1);
  }

  lemma FirstSlot(table: seq<Entry>, i: nat)
    requires |table| == 256 && i < 256 && IsVacant(table[0].kind) && NoneVacant(table, i)
    ensures i == 0
  {
  }

  lemma NothingHeld(w: Setting, table: seq<Entry>, blocks: seq<Block>)
    requires AllEmpty(table) && |table| == 256 && w.Writable() == Ok && w.secret.security == 0
    ensures StateOf(w, 0, table, blocks) == EmptyState(w.plan)
  {
    forall i: nat | i < 256
      ensures HeldAt(w.secret, table, blocks, i) == []
    {
      assert table[i] == NO_ENTRY;
    }
  }

  /** The root is what the abstract allocation makes it. */
  lemma RootNow(v: Volume, table: seq<Entry>, blocks: seq<Block>, owner: seq<byte>, st: Status)
    requires v.Shaped() && |owner| == 4 && |table| == 256 && st == Ok
    requires Exact(v.plan, table, {}) && BitsAre(blocks, v.plan, {}) && KeepsMarked(blocks, v.blocks, v.plan, {})
    requires StateOf(SettingOf(v), 0, table, blocks) == EmptyState(v.plan)
    requires st == AllocAnswer(v.WritableStatus(), v.plan, table, {}, 0, ENTRY_CATALOG, [0x2F], 0)
    requires IsVacant(table[0].kind) && v.usedEntries == 1
    requires var e := v.table[0];
      && v.table == table[0 := e] && WellFormed(v.plan, e) && e.blockCount == 1
      && e == NewEntry(0, ENTRY_CATALOG, [0x2F], 0, owner, Encrypted(v.security)).(first := e.first,
             blockCount := e.blockCount)
      && FirstFree(v.plan, {}, e.first, 1) && ZeroedOnly(blocks, v.blocks, v.plan, e)
    ensures Now(v) == NewState(v.plan, owner)
  {
    var shown := AllocateEffect(SettingOf(v), 0, table, {}, blocks, 1, v.table, v.blocks, 0, ENTRY_CATALOG, [0x2F], 0,
        owner, st);
    ClearlyZero(EmptyState(v.plan), ENTRY_CATALOG, [0x2F], 0, owner, shown);
  }

  lemma ClearlyZero(s: State, kind: byte, name: seq<byte>, parent: nat, owner: seq<byte>, shown: seq<byte>)
    requires Formed(s) && |owner| == 4 && !Encrypted(s.security)
    ensures Allocate(s, kind, name, parent, owner, shown) == Allocate(s, kind, name, parent, owner, [])
  {
  }

  lemma OneUsed(v: Volume)
    requires InOrder(v) && v.table[0].blockCount == 1 && v.used == {} + RunOf(v.table[0])
    ensures v.freeBlocks == v.plan.total - v.plan.dataStart - 1
  {
    OpenCounted(v.freeBlocks, v.plan, v.used);
    RunSize(v.table[0].first, 1, v.table[0].first + 1);
    assert v.used == RunOf(v.table[0]);
  }

  lemma SlashIsValid()
    ensures Sutf8.Valid([0x2F])
  {
    Sutf8.EncodingIsValid([0x2F]);
    assert Sutf8.EncodeAll([0x2F]) == [0x2F] by {
      assert Sutf8.Encode(0x2F) == [0x2F];
    }
  }

  // ---- runs ----

  function Touches(op: Op): set<nat> {
    match op
    case AllocateEntry(_, _, _) => {}
    case FreeEntry(i) => {i}
    case WriteFile(i, _, _) => {i}
    case TruncateFile(i, _) => {i}
  }

  function TouchedBy(ops: seq<Op>): set<nat> {
    if ops == [] then {} else TouchedBy(ops[..|ops| - 1]) + Touches(ops[|ops| - 1])
  }

  /** Every live entry outside `who` is as it was, and reads the same under any key. */
  ghost predicate Spared(table: seq<Entry>, blocks: seq<Block>, table': seq<Entry>, blocks': seq<Block>,
      who: set<nat>) {
    var r: bool :| forall k {:trigger Lifted(Sparing, k)} :: Lifted(Sparing, k) ==>
      (r <==> SparedInFull(table, blocks, table', blocks', who));
    r
  }

  ghost predicate SparedInFull(table: seq<Entry>, blocks: seq<Block>, table': seq<Entry>, blocks': seq<Block>,
      who: set<nat>) {
    forall j: nat :: j < |table| && !IsVacant(table[j].kind) && j !in who ==>
        SparedOne(table, blocks, table', blocks', j)
  }

  lemma OpenSpared(table: seq<Entry>, blocks: seq<Block>, table': seq<Entry>, blocks': seq<Block>, who: set<nat>)
    ensures Spared(table, blocks, table', blocks', who) <==> SparedInFull(table, blocks, table', blocks', who)
  {
    assert Lifted(Sparing, 0);
  }

  ghost predicate SparedOne(table: seq<Entry>, blocks: seq<Block>, table': seq<Entry>, blocks': seq<Block>, j: nat)
    requires j < |table|
  {
    j < |table'| && table'[j] == table[j] && forall c :: Plain(c, blocks', table'[j]) == Plain(c, blocks, table[j])
  }

  lemma SparedSelf(table: seq<Entry>, blocks: seq<Block>, who: set<nat>)
    ensures Spared(table, blocks, table, blocks, who)
  {
    OpenSpared(table, blocks, table, blocks, who);
  }

  lemma SparedTransitive(table: seq<Entry>, blocks: seq<Block>, mid: seq<Entry>, middle: seq<Block>,
                         table': seq<Entry>, blocks': seq<Block>, who: set<nat>, who': set<nat>)
    requires Spared(table, blocks, mid, middle, who) && Spared(mid, middle, table', blocks', who')
    ensures Spared(table, blocks, table', blocks', who + who')
  {
    OpenSpared(table, blocks, mid, middle, who);
    OpenSpared(mid, middle, table', blocks', who');
    OpenSpared(table, blocks, table', blocks', who + who');
    forall j: nat | j < |table| && !IsVacant(table[j].kind) && j !in who + who'
      ensures SparedOne(table, blocks, table', blocks', j)
    {
      assert SparedOne(table, blocks, mid, middle, j);
      assert SparedOne(mid, middle, table', blocks', j);
    }
  }

  /**
   Whatever failed: if of the blocks marked used only those of `own` changed, every live entry that
   was kept and owns none of them reads the same.
   */
  lemma SparedByMarks(p: Plan, table: seq<Entry>, used: set<nat>, blocks: seq<Block>, table': seq<Entry>,
      blocks': seq<Block>, own: set<nat>, who: set<nat>)
    requires Laid(p) && Exact(p, table, used) && BitsAre(blocks, p, used) && KeepsMarked(blocks, blocks', p, own)
    requires |table'| == |table|
    requires forall j :: 0 <= j < |table| && j !in who && !IsVacant(table[j].kind) ==>
      table'[j] == table[j] && own !! RunOf(table[j])
    ensures Spared(table, blocks, table', blocks', who)
  {
    OpenSpared(table, blocks, table', blocks', who);
    forall j: nat | j < |table| && !IsVacant(table[j].kind) && j !in who
      ensures SparedOne(table, blocks, table', blocks', j)
    {
      forall c
        ensures Plain(c, blocks', table'[j]) == Plain(c, blocks, table[j])
      {
        MarkedReadTheSame(c, p, table, used, blocks, blocks', own, j);
      }
    }
  }

  lemma SparedByOne(p: Plan, table: seq<Entry>, used: set<nat>, blocks: seq<Block>, table': seq<Entry>,
      blocks': seq<Block>, i: nat)
    requires Laid(p) && Exact(p, table, used) && BitsAre(blocks, p, used) && i < |table|
    requires OnlyEntry(table, table', i) && KeepsMarked(blocks, blocks', p, RunOf(table[i]))
    ensures Spared(table, blocks, table', blocks', {i})
  {
    ExactAt(p, table, used, i);
    SparedByMarks(p, table, used, blocks, table', blocks', RunOf(table[i]), {i});
  }

  // ---- one operation ----

  /** The entry count lags behind the live entries by at most `n`. */
  predicate Lags(usedEntries: nat, table: seq<Entry>, n: nat) {
    usedEntries <= LiveCount(table) <= usedEntries + n
  }

  /** The operation freed a slot that was deleted already when it came. */
  predicate HitsDeleted(op: Op, st: Status, table: seq<Entry>) {
    op.FreeEntry? && st == Ok && op.i < |table| && IsVacant(table[op.i].kind)
  }

  /** The lag grows by one when the operation hits a deleted slot, and not otherwise. */
  ghost predicate LagStep(s: State, s': State, op: Op, st: Status) {
    forall n: nat :: Lags(s.usedEntries, s.table, n) ==>
      Lags(s'.usedEntries, s'.table, n + One(HitsDeleted(op, st, s.table)))
  }

  method DoWrite(v: Volume, i: u32, offset: u32, bytes: seq<byte>, ghost owner: seq<byte>) returns (st: Status)
    requires InOrder(v) && |owner| == 4 && |bytes| < 0x1_0000_0000
    modifies v`blocks, v`freeBlocks, v`used, v`table
    ensures v.Shaped() && Spared(old(v.table), old(v.blocks), v.table, v.blocks, {i})
    ensures v.healthy ==>
      && InOrder(v) && Turns(old(Now(v)), Now(v), WriteFile(i, offset, bytes), owner, st)
      && LagStep(old(Now(v)), Now(v), WriteFile(i, offset, bytes), st)
  {
    SparedSelf(v.table, v.blocks, {i});
    var e;
    st, e := v.EntryRead(i);
    if st == Ok {
      st := WriteCurrent(v, e, i, offset, bytes, owner);
    } else if v.healthy {
      Refused(Now(v), WriteFile(i, offset, bytes), owner, st);
    }
  }

  method WriteCurrent(v: Volume, e: Entry, i: u32, offset: u32, bytes: seq<byte>, ghost owner: seq<byte>)
      returns (st: Status)
    requires InOrder(v) && |owner| == 4 && |bytes| < 0x1_0000_0000 && i < 256 && v.table[i] == e
    modifies v`blocks, v`freeBlocks, v`used, v`table
    ensures v.Shaped() && Spared(old(v.table), old(v.blocks), v.table, v.blocks, {i})
    ensures v.healthy ==>
      && InOrder(v) && Turns(old(Now(v)), Now(v), WriteFile(i, offset, bytes), owner, st)
      && LiveCount(v.table) == LiveCount(old(v.table))
  {
    ghost var table, blocks, used := v.table, v.blocks, v.used;
    assert WellFormed(v.plan, e) by { ExactAt(v.plan, v.table, v.used, i); }
    var written, e';
    st, written, e' := FileWrite(v, e, i, offset, bytes);
    SparedByOne(v.plan, table, used, blocks, v.table, v.blocks, i);
    if v.healthy {
      WroteNow(v, table, used, blocks, i, e', offset, bytes, owner, st);
    }
  }

  /** What a write that did not meet a failing device left. */
  lemma WroteNow(v: Volume, table: seq<Entry>, used: set<nat>, blocks: seq<Block>, i: u32, e': Entry, offset: u32,
      bytes: seq<byte>, owner: seq<byte>, st: Status)
    requires |owner| == 4 && v.Shaped() && Exact(v.plan, table, used) && BitsAre(blocks, v.plan, used)
    requires i < 256 == |table|
    requires |bytes| < ROUND && KeepsMarked(blocks, v.blocks, v.plan, RunOf(table[i]))
    requires v.table == table[i := v.table[i]]
    requires st == WriteAnswer(v.WritableStatus(), v.plan, used, table[i], offset, |bytes|)
    requires st != Ok || bytes == [] ==> v.table == table && OutsideKept(blocks, v.blocks, v.plan)
    requires st == Ok && bytes != [] ==>
      var e := table[i];
      && Rewrote(v, e, e', i, table, used, blocks)
      && e'.blockCount == Max(e.blockCount, UsfsFile.BlocksFor(offset + |bytes|)) && e'.size == Wrap(offset + |bytes|)
      && Wrote(CipherFor(v.security, v.key, v.nonce, e), blocks, v.blocks, e, e', offset, bytes)
    ensures Turns(StateOf(SettingOf(v), v.usedEntries, table, blocks), Now(v), WriteFile(i, offset, bytes), owner, st)
    ensures LiveCount(v.table) == LiveCount(table)
  {
    if st == Ok && bytes != [] {
      RewroteEntry(v, table[i], e', i, table, used, blocks);
      SameKind(table, v.table, i);
    }
    var shown := WriteEffect(SettingOf(v), v.usedEntries, table, used, blocks, v.table, v.blocks, i, offset, bytes, st);
    Turned(StateOf(SettingOf(v), v.usedEntries, table, blocks), Now(v), WriteFile(i, offset, bytes), owner, shown, st);
  }

  lemma Turned(s: State, s': State, op: Op, owner: seq<byte>, shown: seq<byte>, st: Status)
    requires Formed(s) && |owner| == 4 && (op.WriteFile? ==> |op.bytes| < ROUND)
    requires Next(s, op, owner, shown) == Outcome(s', st)
    ensures Turns(s, s', op, owner, st)
  {
    OpenTurns(s, s', op, owner, st);
  }

  /** There is no such slot. */
  lemma Refused(s: State, op: Op, owner: seq<byte>, st: Status)
    requires Formed(s) && |owner| == 4 && (op.WriteFile? ==> |op.bytes| < ROUND && op.i >= 256)
    requires op.WriteFile? || (op.TruncateFile? && op.i >= 256)
    requires st == NotFound
    ensures Turns(s, s, op, owner, st)
  {
    Turned(s, s, op, owner, [], st);
  }

  /** An entry of the same kind makes no difference to the entry count. */
  lemma SameKind(table: seq<Entry>, table': seq<Entry>, i: nat)
    requires i < |table| == |table'| && table' == table[i := table'[i]] && table'[i].kind == table[i].kind
    ensures LiveCount(table') == LiveCount(table)
  {
    LiveCountUpdate(table, i, table'[i]);
  }

  method DoTruncate(v: Volume, i: u32, size: u32, ghost owner: seq<byte>) returns (st: Status)
    requires InOrder(v) && |owner| == 4
    modifies v`blocks, v`freeBlocks, v`used, v`table
    ensures v.Shaped() && Spared(old(v.table), old(v.blocks), v.table, v.blocks, {i})
    ensures v.healthy ==>
      && InOrder(v) && Turns(old(Now(v)), Now(v), TruncateFile(i, size), owner, st)
      && LagStep(old(Now(v)), Now(v), TruncateFile(i, size), st)
  {
    SparedSelf(v.table, v.blocks, {i});
    var e;
    st, e := v.EntryRead(i);
    if st == Ok {
      st := TruncateCurrent(v, e, i, size, owner);
    } else if v.healthy {
      Refused(Now(v), TruncateFile(i, size), owner, st);
    }
  }

  method TruncateCurrent(v: Volume, e: Entry, i: u32, size: u32, ghost owner: seq<byte>) returns (st: Status)
    requires InOrder(v) && |owner| == 4 && i < 256 && v.table[i] == e
    modifies v`blocks, v`freeBlocks, v`used, v`table
    ensures v.Shaped() && Spared(old(v.table), old(v.blocks), v.table, v.blocks, {i})
    ensures v.healthy ==>
      && InOrder(v) && Turns(old(Now(v)), Now(v), TruncateFile(i, size), owner, st)
      && LiveCount(v.table) == LiveCount(old(v.table))
  {
    ghost var table, blocks, used := v.table, v.blocks, v.used;
    assert WellFormed(v.plan, e) by { ExactAt(v.plan, v.table, v.used, i); }
    var e';
    st, e' := FileTruncate(v, e, i, size);
    KeepsMore(blocks, v.blocks, v.plan, {}, RunOf(e));
    SparedByOne(v.plan, table, used, blocks, v.table, v.blocks, i);
    if v.healthy {
      TruncatedNow(v, table, used, blocks, i, e', size, owner, st);
    }
  }

  lemma TruncatedNow(v: Volume, table: seq<Entry>, used: set<nat>, blocks: seq<Block>, i: u32, e': Entry, size: u32,
      owner: seq<byte>, st: Status)
    requires |owner| == 4 && v.Shaped() && Exact(v.plan, table, used) && BitsAre(blocks, v.plan, used)
    requires i < 256 == |table|
    requires KeepsMarked(blocks, v.blocks, v.plan, RunOf(table[i])) && v.table == table[i := v.table[i]]
    requires st == TruncateAnswer(v.WritableStatus(), v.plan, used, table[i], size)
    requires st != Ok || size == table[i].size ==> v.table == table && OutsideKept(blocks, v.blocks, v.plan)
    requires st == Ok && size != table[i].size ==>
      var e := table[i];
      && Rewrote(v, e, e', i, table, used, blocks) && e'.size == size
      && e'.blockCount == (if size < e.size then Min(e.blockCount, UsfsFile.BlocksFor(size))
             else Max(e.blockCount, UsfsFile.BlocksFor(size)))
      && PrefixKept(CipherFor(v.security, v.key, v.nonce, e), blocks, v.blocks, e, e')
    ensures Turns(StateOf(SettingOf(v), v.usedEntries, table, blocks), Now(v), TruncateFile(i, size), owner, st)
    ensures LiveCount(v.table) == LiveCount(table)
  {
    if st == Ok && size != table[i].size {
      RewroteEntry(v, table[i], e', i, table, used, blocks);
      SameKind(table, v.table, i);
    }
    var shown := TruncateEffect(SettingOf(v), v.usedEntries, table, used, blocks, v.table, v.blocks, i, size, st);
    Turned(StateOf(SettingOf(v), v.usedEntries, table, blocks), Now(v), TruncateFile(i, size), owner, shown, st);
  }

  method DoFree(v: Volume, i: u32, ghost owner: seq<byte>) returns (st: Status)
    requires InOrder(v) && |owner| == 4
    modifies v`blocks, v`freeBlocks, v`used, v`table, v`usedEntries
    ensures v.Shaped() && Spared(old(v.table), old(v.blocks), v.table, v.blocks, {i})
    ensures v.healthy ==>
      && InOrder(v) && Turns(old(Now(v)), Now(v), FreeEntry(i), owner, st)
      && LagStep(old(Now(v)), Now(v), FreeEntry(i), st)
  {
    ghost var table, blocks, used, count := v.table, v.blocks, v.used, v.usedEntries;
    SparedSelf(v.table, v.blocks, {i});
    st := EntryFree(v, i);
    KeepsSelf(blocks, v.plan, {});
    KeepsOutside(blocks, blocks, v.blocks, v.plan, {});
    if i < 256 {
      KeepsMore(blocks, v.blocks, v.plan, {}, RunOf(table[i]));
      SparedByOne(v.plan, table, used, blocks, v.table, v.blocks, i);
      if st == Ok && !IsVacant(table[i].kind) {
        LiveOne(table, i);
      }
    } else {
      SparedByMarks(v.plan, table, used, blocks, v.table, v.blocks, {}, {i});
    }
    if v.healthy {
      FreedNow(v, count, table, used, blocks, i, owner, st);
    }
  }

  lemma FreedNow(v: Volume, count: nat, table: seq<Entry>, used: set<nat>, blocks: seq<Block>, i: u32,
      owner: seq<byte>, st: Status)
    requires |owner| == 4 && v.Shaped() && Exact(v.plan, table, used) && BitsAre(blocks, v.plan, used) && |table| == 256
    requires OutsideKept(blocks, v.blocks, v.plan) && st == FreeRefusal(v.WritableStatus(), table, i)
    requires st != Ok ==> v.table == table && v.usedEntries == count
    requires st == Ok ==>
      i < 256 && v.table == table[i := Gone(table[i])] && v.usedEntries == (if count > 0 then count - 1 else 0)
    ensures Turns(StateOf(SettingOf(v), count, table, blocks), Now(v), FreeEntry(i), owner, st)
  {
    FreeEffect(SettingOf(v), count, table, used, blocks, v.usedEntries, v.table, v.blocks, i, st);
    Turned(StateOf(SettingOf(v), count, table, blocks), Now(v), FreeEntry(i), owner, [], st);
  }

  lemma LiveOne(table: seq<Entry>, i: nat)
    requires i < |table| && !IsVacant(table[i].kind)
    ensures LiveCount(table) > 0
  {
    LiveCountUpdate(table, i, NO_ENTRY);
  }

  method DoAllocate(v: Volume, kind: byte, name: seq<byte>, parent: u32, owner: seq<byte>) returns (st: Status)
    requires InOrder(v) && |owner| == 4
    modifies v`blocks, v`freeBlocks, v`used, v`table, v`usedEntries
    ensures v.Shaped() && Spared(old(v.table), old(v.blocks), v.table, v.blocks, {})
    ensures v.healthy ==>
      && InOrder(v) && Turns(old(Now(v)), Now(v), AllocateEntry(kind, name, parent), owner, st)
      && LagStep(old(Now(v)), Now(v), AllocateEntry(kind, name, parent), st)
  {
    ghost var table, blocks, used, count := v.table, v.blocks, v.used, v.usedEntries;
    var i;
    st, i := EntryAlloc(v, kind, name, parent, owner);
    SparedByMarks(v.plan, table, used, blocks, v.table, v.blocks, {}, {});
    if v.healthy {
      if st == Ok {
        ExactAt(v.plan, v.table, v.used, i);
      }
      AllocatedNow(v, count, table, used, blocks, i, kind, name, parent, owner, st);
    }
  }

  lemma AllocatedNow(v: Volume, count: nat, table: seq<Entry>, used: set<nat>, blocks: seq<Block>, i: u32, kind: byte,
      name: seq<byte>, parent: u32, owner: seq<byte>, st: Status)
    requires v.Shaped() && Exact(v.plan, table, used) && BitsAre(blocks, v.plan, used) && |table| == 256
    requires |owner| == 4 && KeepsMarked(blocks, v.blocks, v.plan, {})
    requires st == AllocAnswer(v.WritableStatus(), v.plan, table, used, count, kind, name, parent)
    requires st != Ok ==> v.table == table && v.usedEntries == count && OutsideKept(blocks, v.blocks, v.plan)
    requires st == Ok ==>
      && i < 256 && |name| < 128 && IsVacant(table[i].kind) && NoneVacant(table, i)
      && (var e := v.table[i];
          && v.table == table[i := e] && WellFormed(v.plan, e)
          && e == NewEntry(i, kind, name, parent, owner, Encrypted(v.security)).(first := e.first,
                 blockCount := e.blockCount)
          && e.blockCount == One(kind == ENTRY_CATALOG)
          && (if kind == ENTRY_CATALOG then FirstFree(v.plan, used, e.first, 1) else e.first == 0)
          && ZeroedOnly(blocks, v.blocks, v.plan, e))
      && v.usedEntries == count + 1
    ensures Turns(StateOf(SettingOf(v), count, table, blocks), Now(v), AllocateEntry(kind, name, parent), owner, st)
  {
    var shown := AllocateEffect(SettingOf(v), count, table, used, blocks, v.usedEntries, v.table, v.blocks, i, kind,
        name, parent, owner, st);
    Turned(StateOf(SettingOf(v), count, table, blocks), Now(v), AllocateEntry(kind, name, parent), owner, shown, st);
  }

  /**
   Performs one operation.  Whatever device calls fail, every live entry it is not
   about is as it was and reads the same; on a device that does not fail it answers
   and leaves what `Next` says.
   */
  method Perform(v: Volume, op: Op, owner: seq<byte>) returns (st: Status)
    requires InOrder(v) && |owner| == 4 && (op.WriteFile? ==> |op.bytes| < 0x1_0000_0000)
    modifies v`blocks, v`freeBlocks, v`used, v`table, v`usedEntries
    ensures v.Shaped() && Spared(old(v.table), old(v.blocks), v.table, v.blocks, Touches(op))
    ensures v.healthy ==>
      InOrder(v) && Turns(old(Now(v)), Now(v), op, owner, st) && LagStep(old(Now(v)), Now(v), op, st)
  {
    match op
    case AllocateEntry(kind, name, parent) => st := DoAllocate(v, kind, name, parent, owner);
    case FreeEntry(i) => st := DoFree(v, i, owner);
    case WriteFile(i, offset, bytes) => st := DoWrite(v, i, offset, bytes, owner);
    case TruncateFile(i, size) => st := DoTruncate(v, i, size, owner);
  }

  // ---- sequences of operations ----

  /** The states between operations, each following from the one before. */
  ghost predicate Simulates(states: seq<State>, ops: seq<Op>, owner: seq<byte>, answers: seq<Status>) {
    && |states| == |ops| + 1 && |answers| == |ops|
    && (forall k :: 0 <= k < |ops| ==> Turns(states[k], states[k + 1], ops[k], owner, answers[k]))
  }

  lemma SimulateOne(states: seq<State>, ops: seq<Op>, owner: seq<byte>, answers: seq<Status>, s: State, op: Op,
      st: Status)
    requires Simulates(states, ops, owner, answers) && Turns(states[|ops|], s, op, owner, st)
    ensures Simulates(states + [s], ops + [op], owner, answers + [st])
  {
    var states', ops', answers' := states + [s], ops + [op], answers + [st];
    forall k | 0 <= k < |ops'|
      ensures Turns(states'[k], states'[k + 1], ops'[k], owner, answers'[k])
    {
      if k < |ops| {
        assert Turns(states[k], states[k + 1], ops[k], owner, answers[k]);
      }
    }
  }

  /** A run is determined by where it starts: its answers, and its states but for what files hold. */
  lemma {:induction false} Determined(states: seq<State>, states': seq<State>, ops: seq<Op>, owner: seq<byte>,
      answers: seq<Status>, answers': seq<Status>, k: nat)
    requires Simulates(states, ops, owner, answers) && Simulates(states', ops, owner, answers') && k <= |ops|
    requires Alike(states[0], states'[0])
    ensures Alike(states[k], states'[k]) && answers[..k] == answers'[..k]
  {
    if k > 0 {
      var n := k - 1;
      Determined(states, states', ops, owner, answers, answers', n);
      assert Turns(states[n], states[n + 1], ops[n], owner, answers[n]);
      assert Turns(states'[n], states'[n + 1], ops[n], owner, answers'[n]);
      OpenTurns(states[n], states[n + 1], ops[n], owner, answers[n]);
      OpenTurns(states'[n], states'[n + 1], ops[n], owner, answers'[n]);
      var shown :| Next(states[n], ops[n], owner, shown) == Outcome(states[n + 1], answers[n]);
      var shown' :| Next(states'[n], ops[n], owner, shown') == Outcome(states'[n + 1], answers'[n]);
      NextAlike(states[n], states'[n], ops[n], owner, shown, shown');
    }
  }

  /** How many operations of a run freed a slot that was deleted already. */
  function Again(ops: seq<Op>, answers: seq<Status>, states: seq<State>): nat
    requires |answers| == |ops| <= |states|
  {
    if ops == [] then 0
    else
      var n := |ops| - 1;
      Again(ops[..n], answers[..n], states) + One(HitsDeleted(ops[n], answers[n], states[n].table))
  }

  lemma AgainOneMore(ops: seq<Op>, answers: seq<Status>, states: seq<State>, op: Op, st: Status, s: State)
    requires |answers| == |ops| && |states| == |ops| + 1
    ensures Again(ops + [op], answers + [st], states + [s])
         == Again(ops, answers, states) + One(HitsDeleted(op, st, states[|ops|].table))
  {
    assert (ops + [op])[..|ops|] == ops && (answers + [st])[..|ops|] == answers;
    AgainSame(ops, answers, states, states + [s]);
  }

  lemma {:induction false} AgainSame(ops: seq<Op>, answers: seq<Status>, states: seq<State>, states': seq<State>)
    requires |answers| == |ops| <= |states| && states <= states'
    ensures Again(ops, answers, states') == Again(ops, answers, states)
  {
    if ops != [] {
      var n := |ops| - 1;
      AgainSame(ops[..n], answers[..n], states, states');
    }
  }

  /** No operation freed a slot that was deleted already. */
  ghost predicate NeverHits(ops: seq<Op>, answers: seq<Status>, states: seq<State>)
    requires |answers| == |ops| <= |states|
  {
    forall k :: 0 <= k < |ops| ==> !HitsDeleted(ops[k], answers[k], states[k].table)
  }

  lemma {:induction false} NoneAgain(ops: seq<Op>, answers: seq<Status>, states: seq<State>)
    requires |answers| == |ops| <= |states| && NeverHits(ops, answers, states)
    ensures Again(ops, answers, states) == 0
  {
    if ops != [] {
      var n := |ops| - 1;
      assert !HitsDeleted(ops[n], answers[n], states[n].table);
      forall k | 0 <= k < n
        ensures !HitsDeleted(ops[..n][k], answers[..n][k], states[k].table)
      {
        assert !HitsDeleted(ops[k], answers[k], states[k].table);
      }
      NoneAgain(ops[..n], answers[..n], states);
    }
  }

  /** The run from `s` led here, but for what files hold, with these answers. */
  ghost predicate Played(s: State, ops: seq<Op>, owner: seq<byte>, answers: seq<Status>, now: State) {
    var r: bool :| forall k {:trigger Lifted(Recording, k)} :: Lifted(Recording, k) ==>
      (r <==> PlayedInFull(s, ops, owner, answers, now));
    r
  }

  ghost predicate PlayedInFull(s: State, ops: seq<Op>, owner: seq<byte>, answers: seq<Status>, now: State) {
    && Formed(s) && |owner| == 4 && Short(ops)
    && Play(s, ops, owner).answers == answers && Alike(Play(s, ops, owner).state, now)
  }

  lemma OpenPlayed(s: State, ops: seq<Op>, owner: seq<byte>, answers: seq<Status>, now: State)
    ensures Played(s, ops, owner, answers, now) <==> PlayedInFull(s, ops, owner, answers, now)
  {
    assert Lifted(Recording, 0);
  }

  lemma PlayedOne(s: State, ops: seq<Op>, owner: seq<byte>, answers: seq<Status>, now: State, op: Op, st: Status,
      next: State)
    requires Played(s, ops, owner, answers, now) && Turns(now, next, op, owner, st)
    ensures Played(s, ops + [op], owner, answers + [st], next)
  {
    OpenPlayed(s, ops, owner, answers, now);
    OpenPlayed(s, ops + [op], owner, answers + [st], next);
    OpenTurns(now, next, op, owner, st);
    var shown :| Next(now, op, owner, shown) == Outcome(next, st);
    NextAlike(Play(s, ops, owner).state, now, op, owner, [], shown);
    PlayOneMore(s, ops, op, owner);
  }

  lemma PlayedNothing(s: State, owner: seq<byte>)
    requires Formed(s) && |owner| == 4
    ensures Played(s, [], owner, [], s)
  {
    OpenPlayed(s, [], owner, [], s);
  }

  /**
   Any run keeps the bitmap the exact disjoint union of the entries' runs and the
   free count exact, and spares every entry it does not name.  Its answers, entries,
   places and counters are those of the abstract run; what the files hold is what
   each operation leaves, one after the other.  The entry count lags behind by at
   most the number of frees that hit a slot deleted already; a run without such
   frees keeps it exact.
   */
  method RunAll(v: Volume, ops: seq<Op>, owner: seq<byte>) returns (answers: seq<Status>, ghost states: seq<State>)
    requires v.healthy && InOrder(v) && |owner| == 4 && Short(ops)
    modifies v`blocks, v`freeBlocks, v`used, v`table, v`usedEntries
    ensures InOrder(v) && Spared(old(v.table), old(v.blocks), v.table, v.blocks, TouchedBy(ops))
    ensures Simulates(states, ops, owner, answers) && states[0] == old(Now(v)) && states[|ops|] == Now(v)
    ensures Played(old(Now(v)), ops, owner, answers, Now(v))
    ensures old(v.usedEntries) == LiveCount(old(v.table)) ==>
      && Lags(v.usedEntries, v.table, Again(ops, answers, states))
      && (NeverHits(ops, answers, states) ==> v.usedEntries == LiveCount(v.table))
  {
    var n := 0;
    answers, states := [], [Now(v)];
    assert ops[..0] == [];
    SparedSelf(v.table, v.blocks, TouchedBy([]));
    PlayedNothing(Now(v), owner);
    while n < |ops|
      invariant 0 <= n <= |ops| && InOrder(v)
      invariant Spared(old(v.table), old(v.blocks), v.table, v.blocks, TouchedBy(ops[..n]))
      invariant Simulates(states, ops[..n], owner, answers) && states[0] == old(Now(v)) && states[n] == Now(v)
      invariant Played(old(Now(v)), ops[..n], owner, answers, Now(v))
      invariant old(v.usedEntries) == LiveCount(old(v.table)) ==>
        Lags(v.usedEntries, v.table, Again(ops[..n], answers, states))
    {
      ghost var table, blocks := v.table, v.blocks;
      answers, states := PerformNext(v, ops[n], owner, ops[..n], answers, states, old(Now(v)));
      assert ops[..n + 1] == ops[..n] + [ops[n]] && ops[..n + 1][..n] == ops[..n];
      SparedTransitive(old(v.table), old(v.blocks), table, blocks, v.table, v.blocks, TouchedBy(ops[..n]),
          Touches(ops[n]));
      n := n + 1;
    }
    assert ops[..n] == ops;
    if NeverHits(ops, answers, states) {
      NoneAgain(ops, answers, states);
    }
  }

  /** One turn of the loop. */
  method PerformNext(v: Volume, op: Op, owner: seq<byte>, ghost done: seq<Op>, answers: seq<Status>,
      ghost states: seq<State>, ghost s: State)
    returns (answers': seq<Status>, ghost states': seq<State>)
    requires v.healthy && InOrder(v) && |owner| == 4 && (op.WriteFile? ==> |op.bytes| < 0x1_0000_0000)
    requires Simulates(states, done, owner, answers) && states[|done|] == Now(v)
    requires Played(s, done, owner, answers, Now(v))
    modifies v`blocks, v`freeBlocks, v`used, v`table, v`usedEntries
    ensures InOrder(v) && Spared(old(v.table), old(v.blocks), v.table, v.blocks, Touches(op))
    ensures Simulates(states', done + [op], owner, answers') && states' == states + [Now(v)]
    ensures Played(s, done + [op], owner, answers', Now(v))
    ensures Lags(old(v.usedEntries), old(v.table), Again(done, answers, states)) ==>
      Lags(v.usedEntries, v.table, Again(done + [op], answers', states'))
  {
    ghost var before := Now(v);
    var st := Perform(v, op, owner);
    AgainOneMore(done, answers, states, op, st, Now(v));
    SimulateOne(states, done, owner, answers, Now(v), op, st);
    PlayedOne(s, done, owner, answers, before, op, st, Now(v));
    answers', states' := answers + [st], states + [Now(v)];
  }

  /**
   From formatting on, whatever is done, answers, entries, places and counters are
   those of the abstract run from a new volume; the recount agrees with the
   superblock, and the entry count with the live entries up to the frees of deleted
   slots.
   */
  method Lifetime(v: Volume, total: u32, key: seq<byte>, nonce: seq<byte>, ops: seq<Op>, owner: seq<byte>)
    returns (st: Status, counted: nat, answers: seq<Status>, ghost states: seq<State>)
    requires v.healthy && |key| == 32 && |nonce| == 12 && |owner| == 4 && 19 <= total <= |v.blocks|
    requires total <= 0x1_0000_0000 - 32750 && Short(ops)
    modifies v
    ensures st == Ok && InOrder(v) && v.plan.total == total && counted == v.freeBlocks
    ensures var start := NewState(v.plan, owner);
            && Simulates(states, ops, owner, answers) && states[0] == start && states[|ops|] == Now(v)
            && Played(start, ops, owner, answers, Now(v))
    ensures Lags(v.usedEntries, v.table, Again(ops, answers, states))
  {
    st := FormatVolume(v, total, key, nonce, owner);
    answers, states := RunAll(v, ops, owner);
    counted := CountFree(v);
  }
}
