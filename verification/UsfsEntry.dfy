/**
 The USFS entry table: taking the first vacant slot, with a zeroed block for a
 catalog, and giving a slot and its run back.
 */
module UsfsEntry {
  import opened Words
  import opened Ranges
  import opened Bitmap
  import Sutf8
  import opened UsfsTypes
  import opened UsfsVolume
  import opened UsfsBitmap
  import opened UsfsContent
  import opened UsfsFile

  // ---- how many entries are live ----

  function LiveCount(table: seq<Entry>): (n: nat)
    ensures n <= |table|
  {
    if table == [] then 0 else LiveCount(table[..|table| - 1]) + One(!IsVacant(table[|table| - 1].kind))
  }

  lemma {:induction false} LiveCountUpdate(table: seq<Entry>, i: nat, e: Entry)
    requires i < |table|
    ensures LiveCount(table[i := e]) == LiveCount(table) - One(!IsVacant(table[i].kind)) + One(!IsVacant(e.kind))
    decreases |table|
  {
    var n := |table| - 1;
    if i < n {
      assert table[i := e][..n] == table[..n][i := e];
      LiveCountUpdate(table[..n], i, e);
    } else {
      assert table[i := e][..n] == table[..n];
    }
  }

  // ---- allocation ----

  /** The default mode: 0644 for files, 0755 for catalogs. */
  function DefaultMode(kind: byte): (r: seq<byte>)
    ensures |r| == 4
  {
    if kind == ENTRY_CATALOG then [0xED, 0x01, 0, 0] else [0xA4, 0x01, 0, 0]
  }

  /** A new entry without blocks. */
  function NewEntry(i: u32, kind: byte, name: seq<byte>, parent: u32, owner: seq<byte>, encrypted: bool): (e: Entry)
    requires |name| < 128 && |owner| == 4
    ensures NameOf(e) == name
  {
    EntryRecord(i, kind, |name|, if encrypted then 1 else 0, 0, DefaultMode(kind), 0, 0, 0, parent, Zeros(8),
                name + Zeros(128 - |name|), owner, Zeros(84))
  }

  predicate Creatable(kind: byte) { kind == ENTRY_FILE || kind == ENTRY_CATALOG }

  ghost predicate NoneVacant(table: seq<Entry>, n: nat) {
    n <= |table| && forall j {:trigger table[j]} :: 0 <= j < n ==> !IsVacant(table[j].kind)
  }

  ghost function AllocRefusal(writable: Status, table: seq<Entry>, usedEntries: nat, kind: byte, name: seq<byte>,
      parent: nat): Status {
    if !Creatable(kind) then InvalidParam
    else if name == [] || |name| >= 128 then NameTooLong
    else if !Sutf8.Valid(name) then InvalidParam
    else if usedEntries >= 256 then NoFreeEntries
    else if writable != Ok then writable
    else if parent == 0 && usedEntries == 0 then Ok
    else if parent >= |table| || table[parent].kind == 0 then NotFound
    else Ok
  }

  /** What allocation answers on a device that does not fail. */
  ghost function AllocAnswer(writable: Status, p: Plan, table: seq<Entry>, used: set<nat>, usedEntries: nat,
      kind: byte, name: seq<byte>, parent: nat): Status
    requires |table| == 256
  {
    var refusal := AllocRefusal(writable, table, usedEntries, kind, name, parent);
    if refusal != Ok then refusal
    else if NoneVacant(table, 256) then NoFreeEntries
    else if kind == ENTRY_CATALOG && (forall f: nat :: !FreeRun(p, used, f, 1)) then NoFreeBlocks
    else Ok
  }

  method AllocTests(v: Volume, kind: byte, name: seq<byte>, parent: u32) returns (st: Status)
    requires v.Shaped()
    ensures st == Ok ==> AllocRefusal(v.WritableStatus(), v.table, v.usedEntries, kind, name, parent) == Ok
    ensures v.healthy ==> st == AllocRefusal(v.WritableStatus(), v.table, v.usedEntries, kind, name, parent)
  {
    if kind != ENTRY_FILE && kind != ENTRY_CATALOG {
      return InvalidParam;
    }
    if |name| == 0 || |name| >= 128 {
      return NameTooLong;
    }
    var sound := Sutf8.Validate(name);
    if !sound {
      return InvalidParam;
    }
    if v.usedEntries >= 256 {
      return NoFreeEntries;
    }
    st := v.WritableStatus();
    if st != Ok {
      return;
    }
    if parent != 0 || v.usedEntries > 0 {
      var e;
      st, e := v.EntryRead(parent);
      if st == Ok && e.kind == 0 {
        st := NotFound;
      }
    }
  }

  method FirstVacant(v: Volume) returns (st: Status, i: u32)
    requires v.Shaped()
    ensures st == Ok ==> i < 256 && IsVacant(v.table[i].kind) && NoneVacant(v.table, i)
    ensures v.healthy ==> st == if NoneVacant(v.table, 256) then NoFreeEntries else Ok
  {
    i := 0;
    while i < 256
      invariant 0 <= i <= 256 && NoneVacant(v.table, i)
    {
      var e;
      st, e := v.EntryRead(i);
      if st != Ok {
        return;
      }
      if IsVacant(e.kind) {
        return Ok, i;
      }
      i := i + 1;
    }
    return NoFreeEntries, i;
  }

  /** The tests, and the slot. */
  method ChooseSlot(v: Volume, kind: byte, name: seq<byte>, parent: u32) returns (st: Status, i: u32)
    requires v.Shaped()
    ensures st == Ok ==>
      && AllocRefusal(v.WritableStatus(), v.table, v.usedEntries, kind, name, parent) == Ok
      && i < 256 && IsVacant(v.table[i].kind) && NoneVacant(v.table, i)
    ensures v.healthy ==>
      var refusal := AllocRefusal(v.WritableStatus(), v.table, v.usedEntries, kind, name, parent);
      st == if refusal != Ok then refusal else if NoneVacant(v.table, 256) then NoFreeEntries else Ok
  {
    i := 0;
    st := AllocTests(v, kind, name, parent);
    if st == Ok {
      st, i := FirstVacant(v);
    }
  }

  /** The new entry's blocks are zero; no other data block has changed. */
  ghost predicate ZeroedOnly(before: seq<Block>, blocks: seq<Block>, p: Plan, e: Entry) {
    && OnlyRun(before, blocks, p, e.first, e.blockCount)
    && (forall b :: e.first <= b < e.first + e.blockCount ==> HoldsZero(blocks, b))
  }

  predicate HoldsZero(blocks: seq<Block>, b: nat) {
    b < |blocks| && blocks[b] == ZeroBlock()
  }

  /** Every live entry is as it was. */
  ghost predicate LiveKept(table: seq<Entry>, table': seq<Entry>) {
    |table'| == |table| && forall j :: 0 <= j < |table| && !IsVacant(table[j].kind) ==> table'[j] == table[j]
  }

  /**
   Takes the first vacant slot for a new entry of size zero; a catalog gets one
   zeroed block at once.  Whatever device calls fail, no live entry and no block that
   was marked used has changed.
   */
  method EntryAlloc(v: Volume, kind: byte, name: seq<byte>, parent: u32, owner: seq<byte>) returns (st: Status, i: u32)
    requires v.Shaped() && (v.healthy ==> InOrder(v)) && |owner| == 4
    modifies v`blocks, v`freeBlocks, v`used, v`table, v`usedEntries
    ensures v.Shaped() && KeepsMarked(old(v.blocks), v.blocks, v.plan, {}) && LiveKept(old(v.table), v.table)
    ensures v.healthy ==> InOrder(v)
    ensures v.healthy ==>
      st == AllocAnswer(v.WritableStatus(), v.plan, old(v.table), old(v.used), old(v.usedEntries), kind, name, parent)
    ensures v.healthy && st == Ok ==>
      && i < 256 && |name| < 128 && Creatable(kind) && IsVacant(old(v.table)[i].kind) && NoneVacant(old(v.table), i)
      && (var e := v.table[i];
          && v.table == old(v.table)[i := e]
          && e == NewEntry(i, kind, name, parent, owner, Encrypted(v.security)).(first := e.first,
                 blockCount := e.blockCount)
          && e.blockCount == One(kind == ENTRY_CATALOG) && RunOf(e) !! old(v.used) && v.used == old(v.used) + RunOf(e)
          && (if kind == ENTRY_CATALOG then FirstFree(v.plan, old(v.used), e.first, 1) else e.first == 0)
          && ZeroedOnly(old(v.blocks), v.blocks, v.plan, e))
      && v.usedEntries == old(v.usedEntries) + 1 && LiveCount(v.table) == LiveCount(old(v.table)) + 1
    ensures v.healthy && st != Ok ==>
      && v.table == old(v.table) && v.used == old(v.used) && v.usedEntries == old(v.usedEntries)
      && OutsideKept(old(v.blocks), v.blocks, v.plan)
  {
    i := 0;
    OutsideSelf(v.blocks, v.plan);
    KeepsSelf(v.blocks, v.plan, {});
    st, i := ChooseSlot(v, kind, name, parent);
    if st != Ok {
      return;
    }
    st := PlaceEntry(v, i, NewEntry(i, kind, name, parent, owner, Encrypted(v.security)), old(v.blocks));
  }

  method PlaceEntry(v: Volume, i: u32, e0: Entry, ghost before: seq<Block>) returns (st: Status)
    requires v.Shaped() && before == v.blocks && i < 256 && IsVacant(v.table[i].kind) && e0.blockCount == 0
    requires e0.size == 0 && Creatable(e0.kind) && v.Writable() && v.usedEntries < 256
    requires v.healthy ==> InOrder(v)
    modifies v`blocks, v`freeBlocks, v`used, v`table, v`usedEntries
    ensures v.Shaped() && KeepsMarked(old(v.blocks), v.blocks, v.plan, {}) && LiveKept(old(v.table), v.table)
    ensures v.healthy ==> InOrder(v)
    ensures v.healthy ==>
      st == if e0.kind == ENTRY_CATALOG && (forall f: nat :: !FreeRun(v.plan, old(v.used), f, 1)) then NoFreeBlocks
          else Ok
    ensures v.healthy && st == Ok ==>
      && (var e := v.table[i];
          && v.table == old(v.table)[i := e] && e == e0.(first := e.first, blockCount := One(e0.kind == ENTRY_CATALOG))
          && RunOf(e) !! old(v.used) && v.used == old(v.used) + RunOf(e)
          && (if e0.kind == ENTRY_CATALOG then FirstFree(v.plan, old(v.used), e.first, 1) else e.first == e0.first)
          && ZeroedOnly(old(v.blocks), v.blocks, v.plan, e))
      && v.usedEntries == old(v.usedEntries) + 1 && LiveCount(v.table) == LiveCount(old(v.table)) + 1
    ensures v.healthy && st != Ok ==>
      && v.table == old(v.table) && v.used == old(v.used) && v.usedEntries == old(v.usedEntries)
      && OutsideKept(old(v.blocks), v.blocks, v.plan)
  {
    var e;
    st, e := MakeRoom(v, e0);
    if st == Ok {
      ghost var mid := v.blocks;
      st := RecordNew(v, i, e, old(v.used));
      KeepsOutside(before, mid, v.blocks, v.plan, {});
      OnlyThen(before, mid, v.blocks, v.plan, e.first, e.blockCount, e.first, e.blockCount, 0, 0);
    }
  }

  /** The block of a catalog. */
  method MakeRoom(v: Volume, e0: Entry) returns (st: Status, e: Entry)
    requires v.Shaped() && e0.blockCount == 0 && e0.size == 0 && Creatable(e0.kind) && v.Writable()
    requires (v.healthy ==> v.Valid())
    modifies v`blocks, v`freeBlocks, v`used
    ensures v.Shaped() && KeepsMarked(old(v.blocks), v.blocks, v.plan, {})
    ensures st == Ok ==>
      && e == e0.(first := e.first, blockCount := One(e0.kind == ENTRY_CATALOG)) && WellFormed(v.plan, e)
      && OnlyRun(old(v.blocks), v.blocks, v.plan, e.first, e.blockCount)
    ensures v.healthy ==>
      && v.Valid()
      && st == (if e0.kind == ENTRY_CATALOG && (forall f: nat :: !FreeRun(v.plan, old(v.used), f, 1)) then NoFreeBlocks
             else Ok)
      && (st != Ok ==> v.used == old(v.used) && OutsideKept(old(v.blocks), v.blocks, v.plan))
      && (st == Ok ==>
             RunOf(e) !! old(v.used) && v.used == old(v.used) + RunOf(e)
                 && (if e0.kind == ENTRY_CATALOG then FirstFree(v.plan, old(v.used), e.first, 1)
                     else e.first == e0.first)
                 && ZeroedOnly(old(v.blocks), v.blocks, v.plan, e))
  {
    st, e := Ok, e0;
    KeepsSelf(v.blocks, v.plan, {});
    if e0.kind == ENTRY_CATALOG {
      var first;
      st, first := ZeroedBlock(v);
      KeepsRun(old(v.blocks), old(v.blocks), v.blocks, v.plan, {}, first, if st == Ok then 1 else 0);
      if st == Ok {
        e := e0.(first := first, blockCount := 1);
      }
    } else {
      EmptyRun(v.used, e);
      OutsideSelf(v.blocks, v.plan);
      OnlyMore(v.blocks, v.blocks, v.plan, e.first, 0, 0, 0);
    }
  }

  lemma EmptyRun(used: set<nat>, e: Entry)
    requires e.blockCount == 0
    ensures RunOf(e) == {} && used + RunOf(e) == used
  {
  }

  /** One block, zeroed. */
  method ZeroedBlock(v: Volume) returns (st: Status, first: u32)
    requires v.Shaped() && v.Writable() && (v.healthy ==> v.Valid())
    modifies v`blocks, v`freeBlocks, v`used
    ensures v.Shaped() && OnlyRun(old(v.blocks), v.blocks, v.plan, first, if st == Ok then 1 else 0)
    ensures st == Ok ==> v.plan.dataStart <= first < v.plan.total && !Marked(old(v.blocks), first - v.plan.dataStart)
    ensures v.healthy ==>
      && v.Valid() && (st == if forall f: nat :: !FreeRun(v.plan, old(v.used), f, 1) then NoFreeBlocks else Ok)
      && (st != Ok ==> v.used == old(v.used) && OutsideKept(old(v.blocks), v.blocks, v.plan))
      && (st == Ok ==>
            && FreeRun(v.plan, old(v.used), first, 1) && v.used == old(v.used) + Range(first, first + 1)
            && FirstFree(v.plan, old(v.used), first, 1)
            && HoldsZero(v.blocks, first))
  {
    st, first := BlockAlloc(v, 1);
    ghost var mid := v.blocks;
    OnlyMore(old(v.blocks), mid, v.plan, first, if st == Ok then 1 else 0, 0, 0);
    if st != Ok {
      return;
    }
    var hres := v.WriteBlock(first, ZeroBlock());
    if hres != HtlOk {
      var ignored := BlockFree(v, first, 1);
      OnlyThen(old(v.blocks), mid, v.blocks, v.plan, 0, 0, 0, 0, 0, 0);
      return WriteStatus(hres), 0;
    }
    OnlyOne(mid, v.plan, first, 1, first, ZeroBlock());
    OnlyThen(old(v.blocks), mid, v.blocks, v.plan, first, 1, 0, 0, first, 1);
    if v.healthy {
      DataWriteKeepsBits(mid, v.plan, v.used, first, ZeroBlock());
    }
  }

  /** Records the new entry, or gives its block back. */
  method RecordNew(v: Volume, i: u32, e: Entry, ghost used: set<nat>) returns (st: Status)
    requires v.Shaped() && i < 256 && WellFormed(v.plan, e) && !IsVacant(e.kind) && v.Writable() && v.usedEntries < 256
    requires v.healthy ==>
      && v.Valid() && Exact(v.plan, v.table, used) && IsVacant(v.table[i].kind) && RunOf(e) !! used
      && v.used == used + RunOf(e)
    modifies v`blocks, v`freeBlocks, v`used, v`table, v`usedEntries
    ensures v.Shaped() && OutsideKept(old(v.blocks), v.blocks, v.plan)
    ensures (v.table == old(v.table) || v.table == old(v.table)[i := e])
    ensures v.healthy ==>
      && st == Ok && InOrder(v) && v.table == old(v.table)[i := e] && v.used == old(v.used)
      && v.usedEntries == old(v.usedEntries) + 1 && LiveCount(v.table) == LiveCount(old(v.table)) + 1
      && (forall b :: e.first <= b < e.first + e.blockCount && old(HoldsZero(v.blocks, b)) ==> HoldsZero(v.blocks, b))
  {
    ghost var before := v.blocks;
    if v.healthy {
      NewRun(v.plan, v.table, used, i, e);
      LiveCountUpdate(v.table, i, e);
    }
    st := v.EntryWrite(i, e);
    if st != Ok {
      if e.blockCount > 0 {
        var ignored := BlockFree(v, e.first, e.blockCount);
      }
      return;
    }
    OpenOnlyRun(before, v.blocks, v.plan, 0, 0);
    v.usedEntries := v.usedEntries + 1;
  }

  lemma NewRun(p: Plan, table: seq<Entry>, used: set<nat>, i: nat, e: Entry)
    requires Exact(p, table, used) && i < |table| && IsVacant(table[i].kind) && WellFormed(p, e) && RunOf(e) !! used
    ensures Exact(p, table[i := e], used + RunOf(e))
  {
    ExactAt(p, table, used, i);
    EmptyRun(used, table[i]);
    assert used - RunOf(table[i]) == used;
    Reassign(p, table, used, i, e, used + RunOf(e));
  }

  // ---- freeing ----

  ghost function FreeRefusal(writable: Status, table: seq<Entry>, i: nat): Status {
    if writable != Ok then writable
    else if i >= |table| || table[i].kind == 0 then NotFound
    else if ReadOnly(table[i].security) then WriteProtected
    else Ok
  }

  /**
   Gives back a slot and its run.  A slot that is already deleted is accepted too,
   and then the count of used entries goes wrong.  Whatever device calls fail, no
   other entry and no data block has changed.
   */
  method EntryFree(v: Volume, i: u32) returns (st: Status)
    requires v.Shaped() && (v.healthy ==> InOrder(v))
    modifies v`blocks, v`freeBlocks, v`used, v`table, v`usedEntries
    ensures v.Shaped() && OutsideKept(old(v.blocks), v.blocks, v.plan) && OnlyEntry(old(v.table), v.table, i)
    ensures v.healthy ==> InOrder(v) && st == FreeRefusal(v.WritableStatus(), old(v.table), i)
    ensures v.healthy && st != Ok ==>
      v.table == old(v.table) && v.used == old(v.used) && v.usedEntries == old(v.usedEntries)
    ensures v.healthy && st == Ok ==>
      && i < 256 && v.table == old(v.table)[i := Gone(old(v.table)[i])]
      && v.used == old(v.used) - RunOf(old(v.table)[i])
      && v.usedEntries == (if old(v.usedEntries) > 0 then old(v.usedEntries) - 1 else 0)
      && LiveCount(v.table) == LiveCount(old(v.table)) - One(!IsVacant(old(v.table)[i].kind))
    ensures v.healthy && st == Ok && old(v.usedEntries) == LiveCount(old(v.table)) ==>
      (v.usedEntries == LiveCount(v.table) <==> !IsVacant(old(v.table)[i].kind) || old(v.usedEntries) == 0)
  {
    OutsideSelf(v.blocks, v.plan);
    st := v.WritableStatus();
    if st != Ok {
      return;
    }
    var e;
    st, e := v.EntryRead(i);
    if st != Ok {
      return;
    }
    if e.kind == 0 {
      return NotFound;
    }
    if ReadOnly(e.security) {
      return WriteProtected;
    }
    st := Release(v, i, e);
  }

  /** What is left of an entry that was freed. */
  function Gone(e: Entry): Entry {
    if e.blockCount > 0 then e.(first := 0, blockCount := 0, size := 0, kind := ENTRY_DELETED)
    else e.(kind := ENTRY_DELETED)
  }

  /** At most entry `i` has changed. */
  ghost predicate OnlyEntry(table: seq<Entry>, table': seq<Entry>, i: nat) {
    |table'| == |table| && forall j :: 0 <= j < |table| && j != i ==> table'[j] == table[j]
  }

  method Release(v: Volume, i: u32, e: Entry) returns (st: Status)
    requires v.Shaped() && i < 256 && v.Writable() && v.table[i] == e && e.kind != 0 && (v.healthy ==> InOrder(v))
    modifies v`blocks, v`freeBlocks, v`used, v`table, v`usedEntries
    ensures v.Shaped() && OutsideKept(old(v.blocks), v.blocks, v.plan) && OnlyEntry(old(v.table), v.table, i)
    ensures v.healthy ==>
      && InOrder(v) && st == Ok
      && v.table == old(v.table)[i := Gone(e)]
      && v.used == old(v.used) - RunOf(e)
      && v.usedEntries == (if old(v.usedEntries) > 0 then old(v.usedEntries) - 1 else 0)
      && LiveCount(v.table) == LiveCount(old(v.table)) - One(!IsVacant(e.kind))
  {
    var gone;
    st, gone := GiveUpRun(v, i, e);
    if st == Ok {
      ghost var freed := v.blocks;
      if v.healthy {
        LiveCountUpdate(v.table, i, gone);
        GoneRun(v.plan, v.table, old(v.used), i, gone, v.used);
      }
      st := v.EntryWrite(i, gone);
      OnlyThen(old(v.blocks), freed, v.blocks, v.plan, 0, 0, 0, 0, 0, 0);
      if st == Ok && v.usedEntries > 0 {
        v.usedEntries := v.usedEntries - 1;
      }
    }
  }

  /** Frees the run of an entry; what is left of it is deleted. */
  method GiveUpRun(v: Volume, ghost i: u32, e: Entry) returns (st: Status, gone: Entry)
    requires v.Shaped() && i < 256 && v.Writable() && v.table[i] == e && (v.healthy ==> InOrder(v))
    modifies v`blocks, v`freeBlocks, v`used
    ensures v.Shaped() && OutsideKept(old(v.blocks), v.blocks, v.plan)
    ensures gone.kind == ENTRY_DELETED && (st == Ok ==> gone == Gone(e) && gone.blockCount == 0)
    ensures v.healthy ==> st == Ok && v.Valid() && v.used == old(v.used) - RunOf(e) && gone.size == 0
  {
    st, gone := Ok, e;
    OutsideSelf(v.blocks, v.plan);
    if v.healthy {
      FreedRun(v.plan, v.table, v.used, i);
    }
    if e.blockCount > 0 {
      st := BlockFree(v, e.first, e.blockCount);
      gone := e.(first := 0, blockCount := 0, size := 0);
    }
    gone := gone.(kind := ENTRY_DELETED);
  }

  lemma FreedRun(p: Plan, table: seq<Entry>, used: set<nat>, i: nat)
    requires Exact(p, table, used) && i < |table|
    ensures WellFormed(p, table[i]) && RunOf(table[i]) <= used
    ensures (table[i].blockCount == 0 ==> used - RunOf(table[i]) == used)
  {
    ExactAt(p, table, used, i);
    if table[i].blockCount == 0 {
      EmptyRun(used, table[i]);
      assert used - {} == used;
    }
  }

  lemma GoneRun(p: Plan, table: seq<Entry>, used: set<nat>, i: nat, gone: Entry, used': set<nat>)
    requires Exact(p, table, used) && i < |table| && gone.blockCount == 0 && gone.size == 0
    requires used' == used - RunOf(table[i])
    ensures Exact(p, table[i := gone], used')
  {
    EmptyRun(used', gone);
    Reassign(p, table, used, i, gone, used');
  }
}
