/**
 What the operations of a USFS volume answer and leave, each case by the field it is
 decided by: the flags and the security bits, kinds as numbers, sizes as byte counts,
 room as a gap between the runs of the table.
 */
module UsfsAnswers {
  import opened Words
  import opened Splice
  import Sutf8
  import opened UsfsTypes
  import opened UsfsVolume
  import opened UsfsBitmap
  import opened UsfsContent
  import opened UsfsFile
  import opened UsfsEntry
  import opened UsfsObjects

  // ---- room ----

  /** `n` blocks from `f` on lie in the data region, and no entry has a block among them. */
  ghost predicate Gap(s: State, f: nat, n: nat) {
    && s.plan.dataStart <= f && f + n <= s.plan.total
    && forall i :: 0 <= i < |s.table| && s.table[i].blockCount > 0 ==>
      s.table[i].first + s.table[i].blockCount <= f || f + n <= s.table[i].first
  }

  /** The gap is the first one of its length. */
  ghost predicate LeastGap(s: State, f: nat, n: nat) {
    Gap(s, f, n) && forall g: nat :: g < f ==> !Gap(s, g, n)
  }

  lemma GapIsFree(s: State, f: nat, n: nat)
    requires n > 0
    ensures Gap(s, f, n) <==> FreeRun(s.plan, AllRuns(s.table), f, n)
  {
    if Gap(s, f, n) {
      forall b: nat | f <= b < f + n
        ensures b !in AllRuns(s.table)
      {
        AllRunsHas(s.table, b);
      }
    } else if FreeRun(s.plan, AllRuns(s.table), f, n) {
      var i :| 0 <= i < |s.table| && s.table[i].blockCount > 0
        && s.table[i].first < f + n && f < s.table[i].first + s.table[i].blockCount;
      var b: nat := if f <= s.table[i].first then s.table[i].first else f;
      assert b in RunOf(s.table[i]);
      AllRunsHas(s.table, b);
      assert b in AllRuns(s.table);
    }
  }

  lemma RoomIsGap(s: State, n: nat)
    requires n > 0
    ensures (exists f: nat :: Gap(s, f, n)) <==> exists f: nat :: FreeRun(s.plan, AllRuns(s.table), f, n)
  {
    if f: nat :| Gap(s, f, n) {
      GapIsFree(s, f, n);
    }
    if f: nat :| FreeRun(s.plan, AllRuns(s.table), f, n) {
      GapIsFree(s, f, n);
    }
  }

  /** Where a gap is, the first one is chosen. */
  lemma LeastIsChosen(s: State, n: nat)
    requires n > 0 && exists f: nat :: Gap(s, f, n)
    ensures LeastGap(s, FirstRunOf(s.plan, AllRuns(s.table), n), n)
  {
    var used := AllRuns(s.table);
    var f: nat :| Gap(s, f, n);
    GapIsFree(s, f, n);
    var g := LeastRun(s.plan, used, f, n);
    FirstRunIs(s.plan, used, g, n);
    GapIsFree(s, g, n);
    forall h: nat | h < g
      ensures !Gap(s, h, n)
    {
      GapIsFree(s, h, n);
    }
  }

  lemma {:induction false} LeastRun(p: Plan, used: set<nat>, f: nat, n: nat) returns (g: nat)
    requires FreeRun(p, used, f, n)
    ensures FirstFree(p, used, g, n)
    ensures FreeRun(p, used, g, n) && forall h: nat :: h < g ==> !FreeRun(p, used, h, n)
  {
    OpenFirstFree(p, used, f, n);
    if h: nat :| h < f && FreeRun(p, used, h, n) {
      g := LeastRun(p, used, h, n);
    } else {
      g := f;
    }
  }

  lemma NeedsBlocks(end: nat, n: nat)
    requires Needs(end, n)
    ensures BlocksFor(end) == n
  {
  }

  // ---- files ----

  /** Whether an entry's run already has `n` blocks, or the data region a gap of that length. */
  ghost predicate Fits(s: State, e: Entry, n: nat) {
    e.blockCount >= n || exists f: nat :: Gap(s, f, n)
  }

  lemma FitsInRoom(s: State, e: Entry, n: nat)
    requires n > 0
    ensures Fits(s, e, n) <==> HasRoom(s.plan, AllRuns(s.table), e, n)
  {
    RoomIsGap(s, n);
  }

  /** What a file operation may be refused for, whatever it would do. */
  function Refused(s: State, i: nat): Status
    requires |s.table| == 256
  {
    if i >= 256 then NotFound
    else if s.table[i].kind != 1 then NotFile
    else if s.locked || s.error then VolumeDirty
    else if s.security / 2 % 2 == 1 || s.table[i].security / 2 % 2 == 1 then WriteProtected
    else Ok
  }

  /** A write to a file that may be written succeeds exactly if there is room. */
  lemma WriteAnswers(s: State, i: nat, offset: u32, bytes: seq<byte>, shown: seq<byte>, n: nat)
    requires Formed(s) && |bytes| < 0x1_0000_0000 && Needs(offset + |bytes|, n)
    ensures Write(s, i, offset, bytes, shown).answer ==
        if Refused(s, i) != Ok then Refused(s, i)
        else if bytes == [] || Fits(s, s.table[i], n) then Ok
        else NoFreeBlocks
    ensures Write(s, i, offset, bytes, shown).answer != Ok || bytes == [] ==>
      Write(s, i, offset, bytes, shown).state == s
  {
    NeedsBlocks(offset + |bytes|, n);
    if i < 256 && n > 0 {
      FitsInRoom(s, s.table[i], n);
    }
  }

  /**
   What a file's run holds after a write: the buffer from `offset` on, wrapped around
   at 2^32, and everywhere else what it held.
   */
  ghost predicate Carries(held: seq<byte>, now: seq<byte>, offset: u32, bytes: seq<byte>) {
    forall p :: 0 <= p < |now| ==>
      if p + 0x1_0000_0000 < offset + |bytes| then now[p] == bytes[p + 0x1_0000_0000 - offset]
      else if offset <= p < offset + |bytes| && p < 0x1_0000_0000 then now[p] == bytes[p - offset]
      else p < |held| ==> now[p] == held[p]
  }

  lemma WriteLeaves(s: State, i: nat, offset: u32, bytes: seq<byte>, shown: seq<byte>, n: nat)
    requires Formed(s) && 0 < |bytes| < 0x1_0000_0000 && Needs(offset + |bytes|, n)
    requires Write(s, i, offset, bytes, shown).answer == Ok
    ensures i < 256
    ensures var (e, s') := (s.table[i], Write(s, i, offset, bytes, shown).state);
            var (e', now) := (s'.table[i], s'.held[i]);
            && s' == s.(table := s.table[i := e'], held := s.held[i := now])
            && e' == e.(first := e'.first, blockCount := e'.blockCount, size := e'.size)
            && e'.size == (offset + |bytes|) % 0x1_0000_0000
            && (if e.blockCount >= n then e'.first == e.first && e'.blockCount == e.blockCount
                else LeastGap(s, e'.first, n) && e'.blockCount == n)
            && |now| == (if |s.held[i]| >= 4096 * n then |s.held[i]| else 4096 * n)
            && Carries(s.held[i], now, offset, bytes)
  {
    NeedsBlocks(offset + |bytes|, n);
    WriteAnswers(s, i, offset, bytes, shown, n);
    if s.table[i].blockCount < n {
      LeastIsChosen(s, n);
    }
    OverwrittenCarries(s.held[i], offset, bytes, shown);
  }

  lemma OverwrittenCarries(held: seq<byte>, offset: u32, bytes: seq<byte>, shown: seq<byte>)
    requires |bytes| < ROUND
    ensures Carries(held, Overwritten(held, offset, bytes, shown), offset, bytes)
  {
    var n := Max(|held|, 4096 * BlocksFor(offset + |bytes|)) - |held|;
    var base := held + Appended(false, shown, n);
    forall p | 0 <= p < |base|
      ensures Overwritten(held, offset, bytes, shown)[p] ==
          if Hit(p, offset, |bytes|) then bytes[Source(p, offset, |bytes|)] else base[p]
    {
      LaidAt(base, offset, bytes, p);
    }
  }

  /** A truncation to a larger size needs room as a write does; any other always succeeds. */
  lemma TruncateAnswers(s: State, i: nat, size: u32, shown: seq<byte>, n: nat)
    requires Formed(s) && Needs(size, n)
    ensures Truncate(s, i, size, shown).answer ==
        if Refused(s, i) != Ok then Refused(s, i)
        else if size <= s.table[i].size || Fits(s, s.table[i], n) then Ok
        else NoFreeBlocks
    ensures Truncate(s, i, size, shown).answer != Ok || size == s.table[i].size ==>
      Truncate(s, i, size, shown).state == s
  {
    NeedsBlocks(size, n);
    if i < 256 && n > 0 {
      FitsInRoom(s, s.table[i], n);
    }
  }

  lemma TruncateLeaves(s: State, i: nat, size: u32, shown: seq<byte>, n: nat)
    requires Formed(s) && Needs(size, n)
    requires Truncate(s, i, size, shown).answer == Ok
    ensures i < 256
    ensures var (e, s') := (s.table[i], Truncate(s, i, size, shown).state);
            var (e', held, now) := (s'.table[i], s.held[i], s'.held[i]);
            && s' == s.(table := s.table[i := e'], held := s.held[i := now])
            && e' == e.(first := e'.first, blockCount := e'.blockCount, size := size)
            && (size > e.size && e.blockCount < n ==> LeastGap(s, e'.first, n) && e'.blockCount == n)
            && (size > e.size && e.blockCount >= n ==> e' == e.(size := size))
            && (size == e.size ==> s' == s)
            && (size < e.size ==> e'.first == e.first && e'.blockCount == if e.blockCount < n then e.blockCount else n)
            && (size > e.size ==> |now| == (if |held| >= 4096 * n then |held| else 4096 * n) && held <= now)
            && (size < e.size ==> |now| == (if |held| < 4096 * n then |held| else 4096 * n) && now <= held)
  {
    NeedsBlocks(size, n);
    TruncateAnswers(s, i, size, shown, n);
    if size > s.table[i].size && s.table[i].blockCount < n {
      LeastIsChosen(s, n);
    }
  }

  // ---- entries ----

  lemma FreeAnswers(s: State, i: nat)
    requires Formed(s)
    ensures Free(s, i).answer ==
        if s.locked || s.error then VolumeDirty
        else if s.security / 2 % 2 == 1 then WriteProtected
        else if i >= 256 || s.table[i].kind == 0 then NotFound
        else if s.table[i].security / 2 % 2 == 1 then WriteProtected
        else Ok
    ensures Free(s, i).answer != Ok ==> Free(s, i).state == s
  {
  }

  /** A freed entry keeps its name and loses its run, and its kind is 0x80; the used entries are one less. */
  lemma FreeLeaves(s: State, i: nat)
    requires Formed(s) && Free(s, i).answer == Ok
    ensures i < 256
    ensures var (e, s') := (s.table[i], Free(s, i).state);
            && s' == s.(usedEntries := s'.usedEntries, table := s.table[i := s'.table[i]], held := s.held[i := []])
            && s'.usedEntries == (if s.usedEntries == 0 then 0 else s.usedEntries - 1)
            && (e.blockCount > 0 ==> s'.table[i] == e.(kind := 0x80, first := 0, blockCount := 0, size := 0))
            && (e.blockCount == 0 ==> s'.table[i] == e.(kind := 0x80))
  {
  }

  lemma AllocateTests(s: State, kind: byte, name: seq<byte>, parent: nat)
    requires Formed(s)
    ensures AllocRefusal(WritableState(s), s.table, s.usedEntries, kind, name, parent) ==
        if kind != 1 && kind != 2 then InvalidParam
        else if |name| == 0 || |name| >= 128 then NameTooLong
        else if !Sutf8.Valid(name) then InvalidParam
        else if s.usedEntries >= 256 then NoFreeEntries
        else if s.locked || s.error then VolumeDirty
        else if s.security / 2 % 2 == 1 then WriteProtected
        else if (parent != 0 || s.usedEntries != 0) && (parent >= 256 || s.table[parent].kind == 0) then NotFound
        else Ok
  {
  }

  lemma AllocateAnswers(s: State, kind: byte, name: seq<byte>, parent: nat, owner: seq<byte>, shown: seq<byte>)
    requires Formed(s) && |owner| == 4
    ensures Allocate(s, kind, name, parent, owner, shown).answer ==
        if kind != 1 && kind != 2 then InvalidParam
        else if |name| == 0 || |name| >= 128 then NameTooLong
        else if !Sutf8.Valid(name) then InvalidParam
        else if s.usedEntries >= 256 then NoFreeEntries
        else if s.locked || s.error then VolumeDirty
        else if s.security / 2 % 2 == 1 then WriteProtected
        else if (parent != 0 || s.usedEntries != 0) && (parent >= 256 || s.table[parent].kind == 0) then NotFound
        else if forall j :: 0 <= j < 256 ==> 0 < s.table[j].kind < 0x80 then NoFreeEntries
        else if kind == 2 && !exists f: nat :: Gap(s, f, 1) then NoFreeBlocks
        else Ok
    ensures Allocate(s, kind, name, parent, owner, shown).answer != Ok ==>
      Allocate(s, kind, name, parent, owner, shown).state == s
  {
    var used := AllRuns(s.table);
    AllocateTests(s, kind, name, parent);
    SlotTests(s, used, kind, name, parent);
    AnswerIs(s, kind, name, parent, owner, shown, AllocAnswer(WritableState(s), s.plan, s.table, used, s.usedEntries,
        kind, name, parent));
  }

  /** What is left to decide once the tests are passed. */
  lemma SlotTests(s: State, used: set<nat>, kind: byte, name: seq<byte>, parent: nat)
    requires Formed(s) && used == AllRuns(s.table)
    ensures var refusal := AllocRefusal(WritableState(s), s.table, s.usedEntries, kind, name, parent);
            AllocAnswer(WritableState(s), s.plan, s.table, used, s.usedEntries, kind, name, parent) ==
                if refusal != Ok then refusal
                else if forall j :: 0 <= j < 256 ==> 0 < s.table[j].kind < 0x80 then NoFreeEntries
                else if kind == 2 && !exists f: nat :: Gap(s, f, 1) then NoFreeBlocks
                else Ok
  {
    RoomIsGap(s, 1);
    AllTaken(s.table);
  }

  lemma AnswerIs(s: State, kind: byte, name: seq<byte>, parent: nat, owner: seq<byte>, shown: seq<byte>, st: Status)
    requires Formed(s) && |owner| == 4
    requires st == AllocAnswer(WritableState(s), s.plan, s.table, AllRuns(s.table), s.usedEntries, kind, name, parent)
    ensures Allocate(s, kind, name, parent, owner, shown).answer == st
    ensures st != Ok ==> Allocate(s, kind, name, parent, owner, shown).state == s
  {
    AllTaken(s.table);
  }

  lemma AllTaken(table: seq<Entry>)
    requires |table| == 256
    ensures NoneVacant(table, 256) <==> forall j :: 0 <= j < 256 ==> 0 < table[j].kind < 0x80
    ensures NoneVacant(table, 256) <==> LeastVacant(table) == 256
  {
  }

  /** The record of a new entry, field by field. */
  predicate Fresh(e: Entry, i: nat, kind: byte, name: seq<byte>, parent: u32, owner: seq<byte>, encrypted: bool) {
    && e.index == i && e.kind == kind && e.nameLength == |name| && e.security == (if encrypted then 1 else 0)
    && e.reserved == 0 && e.mode == (if kind == 2 then [0xED, 0x01, 0, 0] else [0xA4, 0x01, 0, 0])
    && e.size == 0 && e.parent == parent && e.owner == owner
    && (forall k :: 0 <= k < 8 ==> e.stamps[k] == 0) && (forall k :: 0 <= k < 84 ==> e.padding[k] == 0)
    && |name| < 128 && (forall k :: 0 <= k < 128 ==> e.name[k] == if k < |name| then name[k] else 0)
  }

  /** The first slot that is vacant gets a fresh entry, a catalog's with the first free block. */
  lemma AllocateLeaves(s: State, kind: byte, name: seq<byte>, parent: u32, owner: seq<byte>, shown: seq<byte>)
      returns (i: nat)
    requires Formed(s) && |owner| == 4
    requires Allocate(s, kind, name, parent, owner, shown).answer == Ok
    ensures i < 256 && !(0 < s.table[i].kind < 0x80) && forall j :: 0 <= j < i ==> 0 < s.table[j].kind < 0x80
    ensures var s' := Allocate(s, kind, name, parent, owner, shown).state;
            var (e, now) := (s'.table[i], s'.held[i]);
            && s' == s.(usedEntries := s.usedEntries + 1, table := s.table[i := e], held := s.held[i := now])
            && Fresh(e, i, kind, name, parent, owner, s.security % 2 == 1)
            && (kind == 1 ==> e.first == 0 && e.blockCount == 0 && now == [])
            && (kind == 2 ==> LeastGap(s, e.first, 1) && e.blockCount == 1 && |now| == 4096)
            && (s.security % 2 == 0 ==> forall p :: 0 <= p < |now| ==> now[p] == 0)
  {
    i := LeastVacant(s.table);
    AllocateAnswers(s, kind, name, parent, owner, shown);
    if kind == 2 {
      LeastIsChosen(s, 1);
    }
  }

  /** Which operation a step of a run is. */
  lemma NextIs(s: State, owner: seq<byte>, shown: seq<byte>)
    requires Formed(s) && |owner| == 4
    ensures forall k: byte, name, p: u32 ::
              Next(s, AllocateEntry(k, name, p), owner, shown) == Allocate(s, k, name, p, owner, shown)
    ensures forall i: u32 :: Next(s, FreeEntry(i), owner, shown) == Free(s, i)
    ensures forall i: u32, o: u32, bytes :: |bytes| < 0x1_0000_0000 ==>
              Next(s, WriteFile(i, o, bytes), owner, shown) == Write(s, i, o, bytes, shown)
    ensures forall i: u32, n: u32 :: Next(s, TruncateFile(i, n), owner, shown) == Truncate(s, i, n, shown)
  {
  }
}
