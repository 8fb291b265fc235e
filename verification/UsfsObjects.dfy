/**
 What a USFS volume means to its users: an abstract filesystem of entries, each with
 the bytes its blocks hold.  `Next` says what each operation answers and leaves
 behind, the place of every run included.
 */
module UsfsObjects {
  import opened Words
  import opened Veils
  import opened UsfsTypes
  import opened UsfsVolume
  import opened UsfsBitmap
  import opened UsfsContent
  import opened UsfsFile
  import opened UsfsEntry

  /** The file of slot `i` is the first `table[i].size` bytes of `held[i]`. */
  datatype State = State(
    locked: bool, error: bool, plan: Plan, security: nat, usedEntries: nat, table: seq<Entry>, held: seq<seq<byte>>)

  datatype Op =
    | AllocateEntry(kind: byte, name: seq<byte>, parent: u32)
    | FreeEntry(i: u32)
    | WriteFile(i: u32, offset: u32, bytes: seq<byte>)
    | TruncateFile(i: u32, size: u32)

  function WritableState(s: State): Status {
    WritableIn(s.locked, s.error, s.security)
  }

  /** An answer, and the state it leaves. */
  datatype Outcome = Outcome(state: State, answer: Status)

  // ---- where runs are placed ----

  /** The blocks of all entries. */
  ghost function AllRuns(table: seq<Entry>): set<nat> {
    if table == [] then {} else AllRuns(table[..|table| - 1]) + RunOf(table[|table| - 1])
  }

  lemma {:induction false} AllRunsHas(table: seq<Entry>, b: nat)
    ensures b in AllRuns(table) <==> exists i :: 0 <= i < |table| && b in RunOf(table[i])
  {
    if table != [] {
      var n := |table| - 1;
      AllRunsHas(table[..n], b);
      if i :| 0 <= i < |table| && b in RunOf(table[i]) {
        assert i < n ==> b in RunOf(table[..n][i]);
      }
      if i :| 0 <= i < n && b in RunOf(table[..n][i]) {
        assert b in RunOf(table[i]);
      }
    }
  }

  /** When the accounting is exact, the used blocks are those of the entries. */
  lemma ExactIsAll(p: Plan, table: seq<Entry>, used: set<nat>)
    requires Exact(p, table, used)
    ensures used == AllRuns(table)
  {
    OpenExact(p, table, used);
    forall b: nat
      ensures b in used <==> b in AllRuns(table)
    {
      AllRunsHas(table, b);
    }
  }

  /** The first run of `count` free blocks, if there is one. */
  ghost function FirstRunOf(p: Plan, used: set<nat>, count: nat): nat {
    if f: nat :| FirstFree(p, used, f, count) then f else 0
  }

  lemma FirstRunIs(p: Plan, used: set<nat>, first: nat, count: nat)
    requires FirstFree(p, used, first, count)
    ensures FirstRunOf(p, used, count) == first
  {
    FirstFreeUnique(p, used, first, FirstRunOf(p, used, count), count);
  }

  // ---- operations ----

  /** The least vacant slot, or the number of slots when there is none. */
  function LeastVacant(table: seq<Entry>): (i: nat)
    ensures i <= |table| && (i < |table| ==> IsVacant(table[i].kind))
    ensures forall j :: 0 <= j < i ==> !IsVacant(table[j].kind)
  {
    if table == [] then 0
    else
      var i := LeastVacant(table[..|table| - 1]);
      if i < |table| - 1 || IsVacant(table[|table| - 1].kind) then i else |table|
  }

  lemma LeastVacantIs(table: seq<Entry>, i: nat)
    requires i <= |table| && (i < |table| ==> IsVacant(table[i].kind)) && NoneVacant(table, i)
    ensures LeastVacant(table) == i
  {
  }

  /** `n` appended bytes: zeros where the code writes zeros in the clear, otherwise whatever the blocks show. */
  function Appended(zeros: bool, shown: seq<byte>, n: nat): (r: seq<byte>)
    ensures |r| == n
  {
    if zeros || |shown| != n then Zeros(n) else shown
  }

  /** State `s` with slot `i` replaced. */
  function WithSlot(s: State, i: nat, e: Entry, held: seq<byte>): State
    requires i < |s.table| == |s.held|
  {
    s.(table := s.table[i := e], held := s.held[i := held])
  }

  /** The entry with room for `need` blocks. */
  ghost function Roomy(s: State, e: Entry, need: u32): Entry {
    if e.blockCount >= need then e
    else e.(first := Wrap(FirstRunOf(s.plan, AllRuns(s.table), need)), blockCount := need)
  }

  predicate Formed(s: State) {
    |s.table| == |s.held| == 256
  }

  ghost function Allocate(s: State, kind: byte, name: seq<byte>, parent: nat, owner: seq<byte>, shown: seq<byte>)
    : Outcome
    requires Formed(s) && |owner| == 4
  {
    var used := AllRuns(s.table);
    var st := AllocAnswer(WritableState(s), s.plan, s.table, used, s.usedEntries, kind, name, parent);
    var i := LeastVacant(s.table);
    if st != Ok || i == 256 || |name| >= 128 then Outcome(s, st)
    else
      var e := NewEntry(i, kind, name, Wrap(parent), owner, Encrypted(s.security));
      var placed :=
        if kind == ENTRY_CATALOG then e.(first := Wrap(FirstRunOf(s.plan, used, 1)), blockCount := 1) else e;
      Outcome(WithSlot(s, i, placed, Appended(!Encrypted(s.security), shown, 4096 * placed.blockCount)).(
                usedEntries := s.usedEntries + 1), Ok)
  }

  ghost function Free(s: State, i: nat): Outcome
    requires Formed(s)
  {
    var st := FreeRefusal(WritableState(s), s.table, i);
    if st != Ok then Outcome(s, st)
    else
      Outcome(WithSlot(s, i, Gone(s.table[i]), []).(
                usedEntries := if s.usedEntries > 0 then s.usedEntries - 1 else 0), Ok)
  }

  ghost function Write(s: State, i: nat, offset: u32, bytes: seq<byte>, shown: seq<byte>): Outcome
    requires Formed(s) && |bytes| < ROUND
  {
    if i >= 256 then Outcome(s, NotFound)
    else
      var e := s.table[i];
      var end := offset + |bytes|;
      var st := WriteAnswer(WritableState(s), s.plan, AllRuns(s.table), e, offset, |bytes|);
      if st != Ok || bytes == [] then Outcome(s, st)
      else
        Outcome(WithSlot(s, i, Roomy(s, e, BlocksFor(end)).(size := Wrap(end)),
                         Overwritten(s.held[i], offset, bytes, shown)), Ok)
  }

  /** What a run holds after a write; `shown` is what the blocks it grows by held before. */
  ghost function Overwritten(held: seq<byte>, offset: u32, bytes: seq<byte>, shown: seq<byte>): (r: seq<byte>)
    ensures |r| == Max(|held|, 4096 * BlocksFor(offset + |bytes|))
  {
    var n := Max(|held|, 4096 * BlocksFor(offset + |bytes|)) - |held|;
    LaidOver(held + Appended(false, shown, n), offset, bytes)
  }

  ghost function Truncate(s: State, i: nat, size: u32, shown: seq<byte>): Outcome
    requires Formed(s)
  {
    if i >= 256 then Outcome(s, NotFound)
    else
      var e, held := s.table[i], s.held[i];
      var need := BlocksFor(size);
      var st := TruncateAnswer(WritableState(s), s.plan, AllRuns(s.table), e, size);
      if st != Ok || size == e.size then Outcome(s, st)
      else if size > e.size then
        Outcome(WithSlot(s, i, Roomy(s, e, need).(size := size),
                         held + Appended(false, shown, Max(|held|, 4096 * need) - |held|)), Ok)
      else
        Outcome(WithSlot(s, i, e.(blockCount := Min(e.blockCount, need), size := size),
                         held[..Min(|held|, 4096 * need)]), Ok)
  }

  /** What an operation answers and leaves; `shown` is what appended blocks show that are not written. */
  ghost function Next(s: State, op: Op, owner: seq<byte>, shown: seq<byte>): Outcome
    requires Formed(s) && |owner| == 4 && (op.WriteFile? ==> |op.bytes| < ROUND)
  {
    match op
    case AllocateEntry(kind, name, parent) => Allocate(s, kind, name, parent, owner, shown)
    case FreeEntry(i) => Free(s, i)
    case WriteFile(i, offset, bytes) => Write(s, i, offset, bytes, shown)
    case TruncateFile(i, size) => Truncate(s, i, size, shown)
  }

  /** One operation takes the volume from one state to another with this answer. */
  ghost predicate Turns(s: State, s': State, op: Op, owner: seq<byte>, st: Status) {
    var r: bool :| forall k {:trigger Lifted(Turning, k)} :: Lifted(Turning, k) ==>
      (r <==> TurnsInFull(s, s', op, owner, st));
    r
  }

  ghost predicate TurnsInFull(s: State, s': State, op: Op, owner: seq<byte>, st: Status) {
    && Formed(s) && |owner| == 4 && (op.WriteFile? ==> |op.bytes| < ROUND)
    && exists shown: seq<byte> :: Next(s, op, owner, shown) == Outcome(s', st)
  }

  lemma OpenTurns(s: State, s': State, op: Op, owner: seq<byte>, st: Status)
    ensures Turns(s, s', op, owner, st) <==> TurnsInFull(s, s', op, owner, st)
  {
    assert Lifted(Turning, 0);
  }

  // ---- what the abstract operations mean ----

  /** Below 2^32 the range reads back and the bytes before it are kept; the size is then the end. */
  lemma OverwrittenReads(held: seq<byte>, offset: u32, bytes: seq<byte>, shown: seq<byte>)
    requires offset + |bytes| < ROUND
    ensures var now := Overwritten(held, offset, bytes, shown);
            && offset + |bytes| <= |now| && now[offset..offset + |bytes|] == bytes
            && forall p :: 0 <= p < offset && p < |held| ==> now[p] == held[p]
  {
    var n := Max(|held|, 4096 * BlocksFor(offset + |bytes|)) - |held|;
    var base := held + Appended(false, shown, n);
    var now := Overwritten(held, offset, bytes, shown);
    forall p | 0 <= p < |now|
      ensures now[p] == if Hit(p, offset, |bytes|) then bytes[Source(p, offset, |bytes|)] else base[p]
    {
      LaidAt(base, offset, bytes, p);
    }
    assert now[offset..offset + |bytes|] == bytes;
  }

  /** Freeing a new entry again leaves all other slots, and the entry count, as they were. */
  lemma AllocateThenFree(s: State, kind: byte, name: seq<byte>, parent: nat, owner: seq<byte>, shown: seq<byte>)
    requires Formed(s) && |owner| == 4 && Allocate(s, kind, name, parent, owner, shown).answer == Ok
    requires LeastVacant(s.table) < 256 && |name| < 128
    ensures var i := LeastVacant(s.table);
            var s' := Free(Allocate(s, kind, name, parent, owner, shown).state, i);
            && s'.answer == Ok && s'.state.usedEntries == s.usedEntries && IsVacant(s'.state.table[i].kind)
            && forall j :: 0 <= j < 256 && j != i ==>
              s'.state.table[j] == s.table[j] && s'.state.held[j] == s.held[j]
  {
  }

  // ---- runs ----

  /** A run's last state, and its answers. */
  datatype Course = Course(state: State, answers: seq<Status>)

  predicate Short(ops: seq<Op>) {
    forall k :: 0 <= k < |ops| && ops[k].WriteFile? ==> |ops[k].bytes| < ROUND
  }

  lemma NextFormed(s: State, op: Op, owner: seq<byte>, shown: seq<byte>)
    requires Formed(s) && |owner| == 4 && (op.WriteFile? ==> |op.bytes| < ROUND)
    ensures Formed(Next(s, op, owner, shown).state)
  {
  }

  lemma ShortPrefix(ops: seq<Op>)
    requires Short(ops) && ops != []
    ensures Short(ops[..|ops| - 1])
    ensures ops[|ops| - 1].WriteFile? ==> |ops[|ops| - 1].bytes| < ROUND
  {
  }

  /** The run of `ops` from `s`, as if appended blocks showed zeros. */
  ghost function Play(s: State, ops: seq<Op>, owner: seq<byte>): (c: Course)
    requires Formed(s) && |owner| == 4 && Short(ops)
    ensures |c.answers| == |ops| && Formed(c.state)
  {
    if ops == [] then Course(s, [])
    else
      ShortPrefix(ops);
      var c := Play(s, ops[..|ops| - 1], owner);
      NextFormed(c.state, ops[|ops| - 1], owner, []);
      var o := Next(c.state, ops[|ops| - 1], owner, []);
      Course(o.state, c.answers + [o.answer])
  }

  lemma PlayOneMore(s: State, ops: seq<Op>, op: Op, owner: seq<byte>)
    requires Formed(s) && |owner| == 4 && Short(ops + [op])
    ensures Short(ops) && (op.WriteFile? ==> |op.bytes| < ROUND)
    ensures var o := Next(Play(s, ops, owner).state, op, owner, []);
            Play(s, ops + [op], owner) == Course(o.state, Play(s, ops, owner).answers + [o.answer])
  {
    assert (ops + [op])[..|ops|] == ops;
    forall k | 0 <= k < |ops|
      ensures ops[k] == (ops + [op])[k]
    {
    }
    assert op == (ops + [op])[|ops|];
  }

  /** The same but for what the files hold. */
  predicate Alike(s: State, t: State) {
    && t.locked == s.locked && t.error == s.error && t.plan == s.plan && t.security == s.security
    && t.usedEntries == s.usedEntries && t.table == s.table && |t.held| == |s.held|
  }

  lemma AllocateAlike(s: State, t: State, kind: byte, name: seq<byte>, parent: nat, owner: seq<byte>,
      shown: seq<byte>, shown': seq<byte>)
    requires Alike(s, t) && Formed(s) && |owner| == 4
    ensures var r, r' := Allocate(s, kind, name, parent, owner, shown), Allocate(t, kind, name, parent, owner, shown');
            r.answer == r'.answer && Alike(r.state, r'.state)
  {
  }

  lemma WriteAlike(s: State, t: State, i: nat, offset: u32, bytes: seq<byte>, shown: seq<byte>, shown': seq<byte>)
    requires Alike(s, t) && Formed(s) && |bytes| < ROUND
    ensures Write(s, i, offset, bytes, shown).answer == Write(t, i, offset, bytes, shown').answer
    ensures Alike(Write(s, i, offset, bytes, shown).state, Write(t, i, offset, bytes, shown').state)
  {
  }

  lemma TruncateAlike(s: State, t: State, i: nat, size: u32, shown: seq<byte>, shown': seq<byte>)
    requires Alike(s, t) && Formed(s)
    ensures Truncate(s, i, size, shown).answer == Truncate(t, i, size, shown').answer
    ensures Alike(Truncate(s, i, size, shown).state, Truncate(t, i, size, shown').state)
  {
  }

  /** Answers, entries, places and counters do not depend on what files hold. */
  lemma NextAlike(s: State, t: State, op: Op, owner: seq<byte>, shown: seq<byte>, shown': seq<byte>)
    requires Alike(s, t) && Formed(s) && |owner| == 4 && (op.WriteFile? ==> |op.bytes| < ROUND)
    ensures Next(s, op, owner, shown).answer == Next(t, op, owner, shown').answer
    ensures Alike(Next(s, op, owner, shown).state, Next(t, op, owner, shown').state)
  {
    match op
    case AllocateEntry(kind, name, parent) => AllocateAlike(s, t, kind, name, parent, owner, shown, shown');
    case FreeEntry(i) =>
    case WriteFile(i, offset, bytes) => WriteAlike(s, t, i, offset, bytes, shown, shown');
    case TruncateFile(i, size) => TruncateAlike(s, t, i, size, shown, shown');
  }
}
