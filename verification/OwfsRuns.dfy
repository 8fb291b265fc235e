/**
 Whole runs: from formatting on, any sequence of operations on a device that does
 not fail keeps the volume in order, leaves alone what it is not asked to touch,
 and ends in a state that passes the consistency check.
 */
module OwfsRuns {
  import opened Words
  import opened Veils
  import opened Layout
  import opened OwfsTypes
  import opened OwfsVolume
  import opened OwfsOwnership
  import opened OwfsBlockmap
  import opened OwfsInode
  import opened OwfsDirectory
  import opened OwfsCatalog
  import opened OwfsFile
  import opened OwfsObjects
  import opened OwfsEffects
  import opened OwfsState
  import opened OwfsSync
  import opened OwfsFormat

  /** The inode an operation is about. */
  function Touches(op: Op): set<nat> {
    match op
    case CreateFile(parent, _) => {parent}
    case MakeCatalog(parent, _) => {parent}
    case Link(parent, _, _, _) => {parent}
    case Unlink(parent, _) => {parent}
    case AllocateInode(_, _, _) => {}
    case FreeInode(i) => {i}
    case WriteFile(i, _, _) => {i}
    case TruncateFile(i, _) => {i}
    case SyncVolume => {}
  }

  function TouchedBy(ops: seq<Op>): set<nat> {
    if ops == [] then {} else TouchedBy(ops[..|ops| - 1]) + Touches(ops[|ops| - 1])
  }

  // ---- one operation ----

  /** What decides the next operation. */
  ghost function Now(v: Volume): State
    reads v
  {
    StateOf(Setting(v.state, v.security, v.id), v.fs, v.Free(), v.freeInodes)
  }

  lemma AfterNothing(fs: FS, who: set<nat>)
    ensures Spared(fs, fs, who)
  {
    SparedSelf(fs, who);
  }

  /** A step on inode `i` that leaves it in order leaves the volume in order, and spares the others. */
  lemma AfterStep(fs: FS, fs': FS, g: Geometry, i: nat)
    requires Sound(fs, g) && AllTidy(fs) && StepOn(fs, fs', g, i) && (HoldsCatalog(fs', i) ==> Tidy(Cat(fs', i)))
    ensures Sound(fs', g) && AllTidy(fs') && Spared(fs, fs', {i}) && (!InUse(fs, i) ==> Spared(fs, fs', {}))
  {
    StepGood(fs, fs', g, i);
    StepConfined(fs, fs', g, i);
    SparedByStep(fs, fs', g, i);
  }

  lemma FileIsNoCatalog(t: byte)
    requires KnownType(t) && IsFile(t)
    ensures !IsCatalog(t)
  {
  }

  /** An operation on a file leaves the volume in order. */
  lemma AfterFileStep(fs: FS, fs': FS, g: Geometry, i: nat)
    requires Sound(fs, g) && AllTidy(fs) && StepOn(fs, fs', g, i) && Holds(fs, i) && KnownType(fs.table[i].entryType)
    requires SameButMap(fs.table[i], fs'.table[i]) && (!IsFile(fs.table[i].entryType) ==> fs' == fs)
    ensures Sound(fs', g) && AllTidy(fs') && Spared(fs, fs', {i})
  {
    AfterNothing(fs, {i});
    if IsFile(fs.table[i].entryType) {
      FileIsNoCatalog(fs.table[i].entryType);
      AfterStep(fs, fs', g, i);
    }
  }

  method DoWrite(v: Volume, i: u32, offset: u32, bytes: seq<byte>) returns (st: Status)
    requires v.healthy && InOrder(v) && |bytes| < 0x1_0000_0000
    modifies v`blocks, v`freeBlocks, v`fs
    ensures Head(v.blocks) == Head(old(v.blocks))
    ensures Turns(old(Now(v)), Now(v), WriteFile(i, offset, bytes), st)
    ensures InOrder(v) && Spared(old(v.fs), v.fs, {i})
  {
    OpenInOrder(v);
    ghost var s := Now(v);
    ghost var shown: seq<byte> := [];
    AfterNothing(v.fs, {i});
    var ino;
    st, ino := InodeRead(v, i);
    if st == Ok {
      st := NotFile;
      if ino.entryType != 0 {
        st, shown := WriteCurrent(v, ino, i, offset, bytes);
      }
    }
    Turned(s, Now(v), WriteFile(i, offset, bytes), shown, st);
    OpenInOrder(v);
  }

  method WriteCurrent(v: Volume, ino: Inode, i: u32, offset: u32, bytes: seq<byte>)
      returns (st: Status, ghost shown: seq<byte>)
    requires v.healthy && InOrderInFull(v) && |bytes| < 0x1_0000_0000 && Holds(v.fs, i) && v.fs.table[i] == ino
    modifies v`blocks, v`freeBlocks, v`fs
    ensures Head(v.blocks) == Head(old(v.blocks))
    ensures Write(old(Now(v)), i, offset, bytes, shown) == Outcome(Now(v), st)
    ensures InOrderInFull(v) && Spared(old(v.fs), v.fs, {i})
  {
    ghost var before, stock := v.fs, v.Free();
    var written, ino';
    HeldIsKnown(v.blocks, v.geo, v.fs, i);
    st, written, ino' := FileWrite(v, ino, i, offset, bytes);
    AfterFileStep(before, v.fs, v.geo, i);
    assert st == Ok ==> bytes[..written] == bytes;
    shown := WriteEffect(Setting(v.state, v.security, v.id), before, v.fs, v.geo, stock, v.Free(), v.freeInodes, i,
        offset, bytes, v.WritableStatus(), st);
  }

  lemma Turned(s: State, s': State, op: Op, shown: seq<byte>, st: Status)
    requires Next(s, op, shown) == Outcome(s', st)
    ensures Turns(s, s', op, st)
  {
    OpenTurns(s, s', op, st);
  }

  method DoTruncate(v: Volume, i: u32, size: u32) returns (st: Status)
    requires v.healthy && InOrder(v)
    modifies v`blocks, v`freeBlocks, v`fs
    ensures Head(v.blocks) == Head(old(v.blocks))
    ensures Truncate(old(Now(v)), i, size) == Outcome(Now(v), st)
    ensures InOrder(v) && Spared(old(v.fs), v.fs, {i})
  {
    OpenInOrder(v);
    AfterNothing(v.fs, {i});
    var ino;
    st, ino := InodeRead(v, i);
    if st == Ok {
      st := NotFile;
      if ino.entryType != 0 {
        st := TruncateCurrent(v, ino, i, size);
      }
    }
    OpenInOrder(v);
  }

  method TruncateCurrent(v: Volume, ino: Inode, i: u32, size: u32) returns (st: Status)
    requires v.healthy && InOrderInFull(v) && Holds(v.fs, i) && v.fs.table[i] == ino
    modifies v`blocks, v`freeBlocks, v`fs
    ensures Head(v.blocks) == Head(old(v.blocks))
    ensures Truncate(old(Now(v)), i, size) == Outcome(Now(v), st)
    ensures InOrderInFull(v) && Spared(old(v.fs), v.fs, {i})
  {
    ghost var before, stock := v.fs, v.Free();
    var ino';
    HeldIsKnown(v.blocks, v.geo, v.fs, i);
    st, ino' := FileTruncate(v, ino, i, size);
    AfterFileStep(before, v.fs, v.geo, i);
    TruncateEffect(Setting(v.state, v.security, v.id), before, v.fs, v.geo, stock, v.Free(), v.freeInodes, i, size,
        v.WritableStatus(), st);
  }

  method DoUnlink(v: Volume, parent: u32, name: seq<byte>) returns (st: Status)
    requires v.healthy && InOrder(v)
    modifies v`blocks, v`fs
    ensures Head(v.blocks) == Head(old(v.blocks))
    ensures Unbind(old(Now(v)), parent, name) == Outcome(Now(v), st)
    ensures InOrder(v) && Spared(old(v.fs), v.fs, {parent})
  {
    OpenInOrder(v);
    ghost var before, stock := v.fs, v.Free();
    AfterNothing(v.fs, {parent});
    st := CatalogRemove(v, parent, name);
    if st == Ok {
      AfterStep(before, v.fs, v.geo, parent);
    }
    UnbindEffect(Setting(v.state, v.security, v.id), before, v.fs, v.geo, stock, v.freeInodes, parent, name,
        v.WritableStatus(), st);
    OpenInOrder(v);
  }

  /** Binding.  On a device that fails the volume stays sound, but a name may be bound twice. */
  method DoLink(v: Volume, parent: u32, name: seq<byte>, target: u32, kind: byte) returns (st: Status)
    requires InOrder(v)
    modifies v`blocks, v`freeBlocks, v`fs
    ensures Head(v.blocks) == Head(old(v.blocks))
    ensures v.Valid() && Sound(v.fs, v.geo)
    ensures v.healthy ==>
      && InOrder(v) && Bind(old(Now(v)), parent, name, target, kind) == Outcome(Now(v), st)
      && Spared(old(v.fs), v.fs, {parent}) && (st != Ok ==> Spared(old(v.fs), v.fs, {}))
      && |v.fs.table| == |old(v.fs.table)|
      && forall j :: 0 <= j < |v.fs.table| && j != parent ==> v.fs.table[j] == old(v.fs.table)[j]
  {
    OpenInOrder(v);
    ghost var before, stock := v.fs, v.Free();
    st := CatalogInsert(v, parent, name, target, kind);
    if parent < 4096 {
      StepConfined(before, v.fs, v.geo, parent);
      StepKeepsSound(before, v.fs, v.geo, parent);
    }
    if v.healthy {
      AfterLink(before, v.fs, v.geo, parent, st);
      BindEffect(Setting(v.state, v.security, v.id), before, v.fs, v.geo, stock, v.Free(), v.freeInodes, parent, name,
          target, kind, v.WritableStatus(), st);
      OpenInOrder(v);
    }
  }

  lemma AfterLink(fs: FS, fs': FS, g: Geometry, p: u32, st: Status)
    requires Sound(fs, g) && AllTidy(fs)
    requires if p < |fs.table| then StepOn(fs, fs', g, p) else fs' == fs
    requires st == Ok ==> p < |fs.table| && Tidy(Cat(fs', p))
    requires st != Ok ==>
      Unharmed(fs, fs') && (p < |fs.table| ==> fs'.table == fs.table && Cat(fs', p) == Cat(fs, p))
    ensures Sound(fs', g) && AllTidy(fs') && Spared(fs, fs', {p}) && (st != Ok ==> Spared(fs, fs', {}))
  {
    AfterNothing(fs, {p});
    if p < |fs.table| {
      if HoldsCatalog(fs, p) {
        OpenTidy(fs, p);
      }
      AfterStep(fs, fs', g, p);
    }
    if st != Ok {
      UnharmedSpares(fs, fs', g);
    }
  }

  /** Allocating leaves the volume in order even on a device that fails. */
  method DoAllocate(v: Volume, kind: byte, name: seq<byte>, parent: u32, owner: seq<byte>)
      returns (st: Status, i: u32)
    requires InOrder(v) && |owner| == 4
    modifies v`blocks, v`fs, v`freeInodes
    ensures Head(v.blocks) == Head(old(v.blocks))
    ensures InOrder(v) && Spared(old(v.fs), v.fs, {}) && |v.fs.table| == |old(v.fs.table)| == 4096
    ensures st == Ok ==>
      && i < 4096 && |name| < 128 && i == LeastVacant(old(Now(v)).objects) && v.Writable()
      && IsVacant(old(v.fs.table)[i].entryType)
      && IsNew(v.fs.table[i], i, kind, name, parent, owner, Encrypted(v.security))
    ensures v.healthy ==> Allocate(old(Now(v)), kind, name) == Outcome(Now(v), st)
  {
    OpenInOrder(v);
    ghost var before, free := v.fs, v.freeInodes;
    st, i := InodeAlloc(v, kind, name, parent, owner);
    AfterNothing(before, {});
    if st == Ok {
      EmptyIsTidy(v.fs, i);
      AfterStep(before, v.fs, v.geo, i);
      LeastVacantIs(Objects(v.security, v.id, before), i);
    }
    if v.healthy {
      AllocateEffect(Setting(v.state, v.security, v.id), before, v.fs, v.geo, v.Free(), free, v.freeInodes, kind, name,
          parent, owner, i, v.WritableStatus(), st);
    }
    OpenInOrder(v);
  }

  method DoFree(v: Volume, i: u32) returns (st: Status)
    requires v.Valid() && Sound(v.fs, v.geo) && (v.healthy ==> InOrder(v))
    modifies v`blocks, v`freeBlocks, v`fs, v`freeInodes
    ensures Head(v.blocks) == Head(old(v.blocks)) && v.Valid()
    ensures v.healthy ==>
      InOrder(v) && Free(old(Now(v)), i) == Outcome(Now(v), st) && Spared(old(v.fs), v.fs, {i})
  {
    OpenInOrder(v);
    ghost var before, stock, free := v.fs, v.Free(), v.freeInodes;
    st := InodeFree(v, i);
    if v.healthy {
      if i < 4096 {
        HeldIsKnown(old(v.blocks), v.geo, before, i);
      }
      AfterFree(before, v.fs, v.geo, i);
      FreeEffect(Setting(v.state, v.security, v.id), before, v.fs, v.geo, stock, v.Free(), free, v.freeInodes, i,
          v.WritableStatus(), st);
      OpenInOrder(v);
    }
  }

  lemma AfterFree(fs: FS, fs': FS, g: Geometry, i: u32)
    requires Sound(fs, g) && AllTidy(fs)
    requires fs' == fs || (i < |fs.table| && StepOn(fs, fs', g, i) && Freed(fs, fs', i))
    ensures Sound(fs', g) && AllTidy(fs') && Spared(fs, fs', {i})
  {
    AfterNothing(fs, {i});
    if fs' != fs {
      EmptyIsTidy(fs', i);
      AfterStep(fs, fs', g, i);
    }
  }

  /**
   `create` and `mkdir`: a new inode of type `t` bound to `name` in catalog `parent`.
   When it cannot be bound it is freed again.
   */
  method CatalogCreate(v: Volume, parent: u32, name: seq<byte>, t: byte, owner: seq<byte>) returns (st: Status, i: u32)
    requires InOrder(v) && |owner| == 4 && Creatable(t)
    modifies v`blocks, v`freeBlocks, v`fs, v`freeInodes
    ensures Head(v.blocks) == Head(old(v.blocks)) && v.Valid()
    ensures v.healthy ==> InOrder(v) && Create(old(Now(v)), parent, name, t) == Outcome(Now(v), st)
    ensures v.healthy ==> Spared(old(v.fs), v.fs, {parent}) && (st != Ok ==> Spared(old(v.fs), v.fs, {}))
    ensures v.healthy && st == Ok ==>
      && i < |v.fs.table| && |name| < 128 && i == LeastVacant(old(Now(v)).objects)
      && (i != parent ==> IsNew(v.fs.table[i], i, t, name, parent, owner, Encrypted(v.security)))
  {
    ghost var fs0, s0 := v.fs, Now(v);
    var ino;
    i := 0;
    OpenInOrder(v);
    st, ino := DoAllocate(v, t, name, parent, owner);
    OpenInOrder(v);
    ghost var fs1, s1 := v.fs, Now(v);
    SparedMore(fs0, fs1, {}, {parent});
    if st != Ok {
      return;
    }
    st := DoLink(v, parent, name, ino, t);
    ghost var fs2, s2 := v.fs, Now(v);
    if st == Ok {
      i := ino;
      if v.healthy {
        Created(s0, s1, s2, parent, name, t, ino);
        SparedTransitive(fs0, fs1, fs2, {parent}, {parent});
      }
    } else {
      var freed := DoFree(v, ino);
      if v.healthy {
        NotCreated(s0, s1, s2, parent, name, t, ino, st);
        SparedTransitive(fs0, fs1, fs2, {}, {});
        SparedUndo(fs0, fs2, v.fs, {}, ino);
        SparedMore(fs0, v.fs, {}, {parent});
      }
    }
  }

  lemma Created(s: State, s1: State, s2: State, p: nat, name: seq<byte>, kind: byte, i: u32)
    requires Allocate(s, kind, name) == Outcome(s1, Ok) && i == LeastVacant(s.objects)
    requires Bind(s1, p, name, i, kind) == Outcome(s2, Ok)
    ensures Create(s, p, name, kind) == Outcome(s2, Ok)
  {
  }

  lemma NotCreated(s: State, s1: State, s2: State, p: nat, name: seq<byte>, kind: byte, i: u32, st: Status)
    requires Allocate(s, kind, name) == Outcome(s1, Ok) && i == LeastVacant(s.objects)
    requires Bind(s1, p, name, i, kind) == Outcome(s2, st) && st != Ok
    ensures Create(s, p, name, kind) == Outcome(Free(s2, i).state, st)
  {
  }

  /** The device's superblock is sound, of this volume, and records the counters of `s`. */
  ghost predicate Saved(v: Volume, s: State)
    reads v
  {
    && |v.blocks| > 16 && Authentic(OnDisk(v))
    && OnDisk(v).geo == v.geo && OnDisk(v).id == v.id && OnDisk(v).security == v.security
    && OnDisk(v).freeBlocks == s.stock.free && OnDisk(v).freeInodes == s.freeInodes
  }

  method DoSync(v: Volume) returns (st: Status)
    requires v.healthy && InOrder(v)
    modifies v`blocks, v`checksum, v`state, v`sum1, v`sum2
    ensures InOrder(v) && Next(old(Now(v)), SyncVolume, []) == Outcome(Now(v), st)
    ensures Saved(v, Now(v)) && Observed(v) == Written(Settled(old(v.state)))
  {
    OpenInOrder(v);
    assert v.geo.totalBlocks <= |v.blocks| by { OpenStored(v.blocks, v.geo, v.fs); }
    st := SyncChanges(v);
    OpenInOrder(v);
  }

  /**
   Performs one operation: it answers and leaves what `Next` says, spares what it is
   not about, and only syncing touches the superblock.
   */
  method Perform(v: Volume, op: Op, owner: seq<byte>) returns (st: Status)
    requires v.healthy && InOrder(v) && |owner| == 4
    requires op.WriteFile? ==> |op.bytes| < 0x1_0000_0000
    modifies v`blocks, v`freeBlocks, v`freeInodes, v`fs, v`checksum, v`state, v`sum1, v`sum2
    ensures InOrder(v) && Spared(old(v.fs), v.fs, Touches(op))
    ensures Turns(old(Now(v)), Now(v), op, st)
    ensures op.SyncVolume? ==> Saved(v, Now(v)) && Observed(v) == Written(Settled(old(v.state)))
    ensures !op.SyncVolume? ==> Head(v.blocks) == Head(old(v.blocks)) && v.state == old(v.state)
  {
    if op.WriteFile? {
      st := DoWrite(v, op.i, op.offset, op.bytes);
    } else {
      ghost var before := Now(v);
      st := PerformPlain(v, op, owner);
      Turned(before, Now(v), op, [], st);
    }
  }

  /** Any operation but a write: what it leaves is determined. */
  method PerformPlain(v: Volume, op: Op, owner: seq<byte>) returns (st: Status)
    requires v.healthy && InOrder(v) && |owner| == 4 && !op.WriteFile?
    modifies v`blocks, v`freeBlocks, v`freeInodes, v`fs, v`checksum, v`state, v`sum1, v`sum2
    ensures InOrder(v) && Spared(old(v.fs), v.fs, Touches(op))
    ensures Next(old(Now(v)), op, []) == Outcome(Now(v), st)
    ensures op.SyncVolume? ==> Saved(v, Now(v)) && Observed(v) == Written(Settled(old(v.state)))
    ensures !op.SyncVolume? ==> Head(v.blocks) == Head(old(v.blocks)) && v.state == old(v.state)
  {
    AfterNothing(v.fs, {});
    var i;
    match op
    case CreateFile(parent, name) => st, i := CatalogCreate(v, parent, name, ENTRY_FILE, owner);
    case MakeCatalog(parent, name) => st, i := CatalogCreate(v, parent, name, ENTRY_CATALOG, owner);
    case Link(parent, name, target, kind) => st := DoLink(v, parent, name, target, kind);
    case Unlink(parent, name) => st := DoUnlink(v, parent, name);
    case AllocateInode(kind, name, parent) => st, i := DoAllocate(v, kind, name, parent, owner);
    case FreeInode(n) =>
      OpenInOrder(v);
      st := DoFree(v, n);
    case TruncateFile(n, size) => st := DoTruncate(v, n, size);
    case SyncVolume => st := DoSync(v);
  }

  // ---- runs ----

  /** The states between operations, each following from the one before. */
  ghost predicate Simulates(states: seq<State>, ops: seq<Op>, answers: seq<Status>) {
    && |states| == |ops| + 1 && |answers| == |ops|
    && (forall k :: 0 <= k < |ops| ==> Turns(states[k], states[k + 1], ops[k], answers[k]))
  }

  lemma SimulateOne(states: seq<State>, ops: seq<Op>, answers: seq<Status>, s: State, op: Op, st: Status)
    requires Simulates(states, ops, answers) && Turns(states[|ops|], s, op, st)
    ensures Simulates(states + [s], ops + [op], answers + [st])
  {
    var states', ops', answers' := states + [s], ops + [op], answers + [st];
    forall k | 0 <= k < |ops'|
      ensures Turns(states'[k], states'[k + 1], ops'[k], answers'[k])
    {
      if k < |ops| {
        assert Turns(states[k], states[k + 1], ops[k], answers[k]);
      }
    }
  }

  /** A run is determined by where it starts: its answers, and its states but for what encrypted files hold. */
  lemma {:induction false} Determined(states: seq<State>, states': seq<State>, ops: seq<Op>, answers: seq<Status>,
      answers': seq<Status>, k: nat)
    requires Simulates(states, ops, answers) && Simulates(states', ops, answers') && k <= |ops|
    requires Alike(states[0], states'[0])
    ensures Alike(states[k], states'[k]) && answers[..k] == answers'[..k]
  {
    if k > 0 {
      var n := k - 1;
      Determined(states, states', ops, answers, answers', n);
      assert Turns(states[n], states[n + 1], ops[n], answers[n]);
      assert Turns(states'[n], states'[n + 1], ops[n], answers'[n]);
      OpenTurns(states[n], states[n + 1], ops[n], answers[n]);
      OpenTurns(states'[n], states'[n + 1], ops[n], answers'[n]);
      var shown :| Next(states[n], ops[n], shown) == Outcome(states[n + 1], answers[n]);
      var shown' :| Next(states'[n], ops[n], shown') == Outcome(states'[n + 1], answers'[n]);
      NextAlike(states[n], states'[n], ops[n], shown, shown');
    }
  }

  /** The run from `s` led here, but for what encrypted files hold, with these answers. */
  ghost predicate Played(s: State, ops: seq<Op>, answers: seq<Status>, now: State) {
    var r: bool :| forall k {:trigger Lifted(Recording, k)} :: Lifted(Recording, k) ==>
      (r <==> PlayedInFull(s, ops, answers, now));
    r
  }

  ghost predicate PlayedInFull(s: State, ops: seq<Op>, answers: seq<Status>, now: State) {
    Play(s, ops).answers == answers && Alike(Play(s, ops).state, now)
  }

  lemma OpenPlayed(s: State, ops: seq<Op>, answers: seq<Status>, now: State)
    ensures Played(s, ops, answers, now) <==> PlayedInFull(s, ops, answers, now)
  {
    assert Lifted(Recording, 0);
  }

  lemma PlayedOne(s: State, ops: seq<Op>, answers: seq<Status>, now: State, op: Op, st: Status, next: State)
    requires Played(s, ops, answers, now) && Turns(now, next, op, st)
    ensures Played(s, ops + [op], answers + [st], next)
  {
    OpenPlayed(s, ops, answers, now);
    OpenPlayed(s, ops + [op], answers + [st], next);
    OpenTurns(now, next, op, st);
    var shown :| Next(now, op, shown) == Outcome(next, st);
    NextAlike(Play(s, ops).state, now, op, [], shown);
    PlayOneMore(s, ops, op);
  }

  lemma PlayedNothing(s: State)
    ensures Played(s, [], [], s)
  {
    OpenPlayed(s, [], [], s);
  }

  /** After how many operations the last sync was over; 0 if there was none. */
  function LastSync(ops: seq<Op>): (k: nat)
    ensures k <= |ops|
  {
    if ops == [] then 0 else if ops[|ops| - 1].SyncVolume? then |ops| else LastSync(ops[..|ops| - 1])
  }

  /** The superblock on the device since `head`, `flags` and `s`: that of the last sync, if there was one. */
  ghost predicate Recorded(v: Volume, head: Block, flags: Flags, s: State, ops: seq<Op>)
    reads v
  {
    var r: bool :| forall k {:trigger Lifted(Recording, k)} :: Lifted(Recording, k) ==>
      (r <==> RecordedInFull(v, head, flags, s, ops));
    r
  }

  ghost predicate RecordedInFull(v: Volume, head: Block, flags: Flags, s: State, ops: seq<Op>)
    reads v
  {
    if LastSync(ops) == 0 then Head(v.blocks) == head && v.state == flags
    else Saved(v, Play(s, ops[..LastSync(ops)]).state) && Observed(v) == Written(Settled(flags))
  }

  lemma OpenRecorded(v: Volume, head: Block, flags: Flags, s: State, ops: seq<Op>)
    ensures Recorded(v, head, flags, s, ops) <==> RecordedInFull(v, head, flags, s, ops)
  {
    assert Lifted(Recording, 0);
  }

  /**
   Any run keeps the volume in order and spares every inode it does not name.  Its
   answers, counters, names and sizes are those of the abstract run, and so are all
   bytes when nothing is encrypted; in any case each operation leaves what `Next`
   says.  The superblock on the device is that of the last sync, if there was one.
   */
  method RunAll(v: Volume, ops: seq<Op>, owner: seq<byte>) returns (answers: seq<Status>, ghost states: seq<State>)
    requires v.healthy && InOrder(v) && |owner| == 4
    requires forall k :: 0 <= k < |ops| && ops[k].WriteFile? ==> |ops[k].bytes| < 0x1_0000_0000
    modifies v`blocks, v`freeBlocks, v`freeInodes, v`fs, v`checksum, v`state, v`sum1, v`sum2
    ensures InOrder(v)
    ensures Spared(old(v.fs), v.fs, TouchedBy(ops))
    ensures Simulates(states, ops, answers) && states[0] == old(Now(v)) && states[|ops|] == Now(v)
    ensures Played(old(Now(v)), ops, answers, Now(v))
    ensures Recorded(v, Head(old(v.blocks)), old(v.state), old(Now(v)), ops)
  {
    var n := 0;
    answers, states := [], [Now(v)];
    assert ops[..0] == [];
    AfterNothing(v.fs, TouchedBy([]));
    PlayedNothing(Now(v));
    OpenRecorded(v, Head(v.blocks), v.state, Now(v), []);
    while n < |ops|
      invariant 0 <= n <= |ops| && InOrder(v)
      invariant Spared(old(v.fs), v.fs, TouchedBy(ops[..n]))
      invariant Simulates(states, ops[..n], answers) && states[0] == old(Now(v))
      invariant states[n] == Now(v)
      invariant Played(old(Now(v)), ops[..n], answers, Now(v))
      invariant Recorded(v, Head(old(v.blocks)), old(v.state), old(Now(v)), ops[..n])
    {
      ghost var before := v.fs;
      answers, states := PerformNext(v, ops[n], owner, ops[..n], answers, states, Head(old(v.blocks)), old(v.state),
          old(Now(v)));
      assert ops[..n + 1][..n] == ops[..n] && ops[..n + 1] == ops[..n] + [ops[n]];
      SparedTransitive(old(v.fs), before, v.fs, TouchedBy(ops[..n]), Touches(ops[n]));
      n := n + 1;
    }
    assert ops[..n] == ops;
  }

  /** One turn of the loop. */
  method PerformNext(v: Volume, op: Op, owner: seq<byte>, ghost done: seq<Op>, answers: seq<Status>,
      ghost states: seq<State>, ghost head: Block, ghost flags: Flags, ghost s: State)
    returns (answers': seq<Status>, ghost states': seq<State>)
    requires v.healthy && InOrder(v) && |owner| == 4 && (op.WriteFile? ==> |op.bytes| < 0x1_0000_0000)
    requires Simulates(states, done, answers) && states[|done|] == Now(v) && Played(s, done, answers, Now(v))
    requires Recorded(v, head, flags, s, done)
    modifies v`blocks, v`freeBlocks, v`freeInodes, v`fs, v`checksum, v`state, v`sum1, v`sum2
    ensures InOrder(v) && Spared(old(v.fs), v.fs, Touches(op))
    ensures Simulates(states', done + [op], answers') && states' == states + [Now(v)]
    ensures Played(s, done + [op], answers', Now(v))
    ensures Recorded(v, head, flags, s, done + [op])
  {
    ghost var before := Now(v);
    OpenRecorded(v, head, flags, s, done);
    var st := Perform(v, op, owner);
    SimulateOne(states, done, answers, Now(v), op, st);
    PlayedOne(s, done, answers, before, op, st, Now(v));
    answers', states' := answers + [st], states + [Now(v)];
    StillRecorded(v, s, done, op, answers', Now(v));
    assert |v.blocks| > 16 by { OpenInOrder(v); OpenStored(v.blocks, v.geo, v.fs); }
    OpenRecorded(v, head, flags, s, done + [op]);
  }

  lemma StillRecorded(v: Volume, s: State, done: seq<Op>, op: Op, answers: seq<Status>, now: State)
    requires Played(s, done + [op], answers, now)
    ensures LastSync(done + [op]) == if op.SyncVolume? then |done| + 1 else LastSync(done)
    ensures !op.SyncVolume? ==> (done + [op])[..LastSync(done + [op])] == done[..LastSync(done)]
    ensures op.SyncVolume? ==> (done + [op])[..LastSync(done + [op])] == done + [op]
    ensures Saved(v, now) <==> Saved(v, Play(s, done + [op]).state)
  {
    assert (done + [op])[..|done|] == done;
    OpenPlayed(s, done + [op], answers, now);
  }

  // ---- from formatting on ----

  /** A formatted and mounted volume: an empty root directory of one block and nothing else. */
  function NewState(total: u32): State
    requires OwfsAccepts(total)
  {
    var free := total - OwfsDataStart(total) - 1;
    State(Unsettled(CLEAN), 0, Stock(free, free), 4096, RootObjects(Planned(total).totalInodes))
  }

  function RootObjects(n: nat): (os: seq<Object>)
    ensures |os| == n
  {
    seq(n, i => if i == 0 then Object(ENTRY_CATALOG, false, Directory(1, map[])) else Object(0, false, Nothing))
  }

  lemma RootState(total: u32, id: Ident, fs: FS, stock: Stock)
    requires OwfsAccepts(total) && RootAlone(fs) && |fs.table| == Planned(total).totalInodes
    requires stock.free == stock.clear == Planned(total).totalBlocks - Planned(total).dataStart - 1
    ensures StateOf(Setting(Unsettled(CLEAN), 0, id), fs, stock, 4096) == NewState(total)
  {
    forall i: nat | i < |fs.table|
      ensures ObjectAt(0, id, fs, i) == RootObjects(|fs.table|)[i]
    {
    }
  }

  /** Formats a device and mounts it. */
  method FormatAndMount(v: Volume, total: u32, volumeLabel: seq<byte>, nonce: seq<byte>) returns (st: Status)
    requires v.healthy && |volumeLabel| == 64 && |nonce| == 12
    modifies v
    ensures st == if total <= |old(v.blocks)| && OwfsAccepts(total) then Ok else InvalidParam
    ensures v.healthy && (st == Ok ==> InOrder(v) && v.drift == 0 && Now(v) == NewState(total))
  {
    st := FormatVolume(v, total, volumeLabel, nonce);
    if st == Ok {
      st := MountNew(v);
      RootState(total, v.id, v.fs, v.Free());
    }
  }

  /** The first mount. */
  method MountNew(v: Volume) returns (st: Status)
    requires v.healthy && |v.blocks| > 16 && Formatted(v)
    modifies v
    ensures v.healthy && st == Ok && InOrder(v) && v.drift == 0
    ensures v.geo == old(OnDisk(v)).geo && RootAlone(v.fs) && |v.fs.table| == v.geo.totalInodes
    ensures v.state == Unsettled(CLEAN) && v.security == 0 && v.freeInodes == 4096
    ensures v.Free().free == v.Free().clear == v.geo.totalBlocks - v.geo.dataStart - 1
  {
    AuthenticIsIdentified(OnDisk(v));
    st := MountVolume(v);
    DriftIs(v.Free(), v.drift);
    OpenInOrder(v);
  }

  lemma {:induction false} VacantsAre(os: seq<Object>, table: seq<Inode>)
    requires |os| == |table| && forall i :: 0 <= i < |os| ==> os[i].kind == table[i].entryType
    ensures VacantCount(os) == Vacancies(table)
  {
    if os != [] {
      VacantsAre(os[..|os| - 1], table[..|os| - 1]);
    }
  }

  lemma {:induction false} RootVacants(n: nat)
    requires n > 0
    ensures VacantCount(RootObjects(n)) == n - 1
  {
    assert RootObjects(n)[..n - 1] == RootObjects(n - 1);
    if n > 1 {
      RootVacants(n - 1);
    }
  }

  lemma NewInodeDrift(total: u32)
    requires OwfsAccepts(total)
    ensures InodeDrift(NewState(total)) == 1
  {
    RootVacants(Planned(total).totalInodes);
  }

  /** So the inode counter is one more than the vacant slots, from formatting on. */
  lemma NewCounts(start: State, s: State, table: seq<Inode>)
    requires InodeDrift(start) == 1 && AsWrong(start, s) && |s.objects| == |table| <= 4096
    requires forall i :: 0 <= i < |table| ==> s.objects[i].kind == table[i].entryType
    ensures s.freeInodes == Vacancies(table) + 1
  {
    VacantsAre(s.objects, table);
  }

  /** Where nothing is encrypted, a run that was played is the abstract one. */
  lemma PlayedInTheClear(s: State, ops: seq<Op>, answers: seq<Status>, now: State)
    requires Played(s, ops, answers, now) && InTheClear(s)
    ensures now == Play(s, ops).state && answers == Play(s, ops).answers
  {
    OpenPlayed(s, ops, answers, now);
    PlayInTheClear(s, ops);
    AlikeInTheClear(Play(s, ops).state, now);
  }

  lemma ExactNow(v: Volume)
    requires v.Valid() && v.drift == 0
    ensures v.Exact()
  {
    OpenUnused(v.geo, v.fs.used);
    DriftIs(v.Free(), v.drift);
  }

  /** A run on a new volume is the abstract run, and both counters stay right. */
  method RunFromNew(v: Volume, ghost total: u32, ops: seq<Op>, owner: seq<byte>) returns (answers: seq<Status>)
    requires v.healthy && InOrder(v) && v.drift == 0 && OwfsAccepts(total) && Now(v) == NewState(total) && |owner| == 4
    requires forall k :: 0 <= k < |ops| && ops[k].WriteFile? ==> |ops[k].bytes| < 0x1_0000_0000
    modifies v`blocks, v`freeBlocks, v`freeInodes, v`fs, v`checksum, v`state, v`sum1, v`sum2
    ensures InOrder(v) && v.Exact() && v.freeInodes == Vacancies(v.fs.table) + 1
    ensures answers == Play(NewState(total), ops).answers && Now(v) == Play(NewState(total), ops).state
  {
    ghost var states;
    answers, states := RunAll(v, ops, owner);
    PlayedInTheClear(NewState(total), ops, answers, Now(v));
    OpenInOrder(v);
    NewInodeDrift(total);
    PlayKeeps(NewState(total), ops);
    NewCounts(NewState(total), Now(v), v.fs.table);
    ExactNow(v);
  }

  /**
   Formatting, mounting, any run, syncing and checking.  The answers are those of the
   abstract run from a new volume; files, names and counters end as it says; both
   counters are right; and the check answers OK and finds nothing.
   */
  method Lifetime(v: Volume, total: u32, volumeLabel: seq<byte>, nonce: seq<byte>, ops: seq<Op>, owner: seq<byte>)
    returns (formatted: Status, answers: seq<Status>, st: Status, corrupt: nat)
    requires v.healthy && |volumeLabel| == 64 && |nonce| == 12 && |owner| == 4
    requires forall k :: 0 <= k < |ops| && ops[k].WriteFile? ==> |ops[k].bytes| < 0x1_0000_0000
    modifies v
    ensures formatted == if total <= |old(v.blocks)| && OwfsAccepts(total) then Ok else InvalidParam
    ensures formatted == Ok ==> answers == Play(NewState(total), ops).answers
    ensures formatted == Ok ==>
      var end := Play(NewState(total), ops).state;
      && Objects(v.security, v.id, v.fs) == end.objects && v.Free() == end.stock && v.freeInodes == end.freeInodes
    ensures formatted == Ok ==>
      v.Exact() && Sound(v.fs, v.geo) && AllTidy(v.fs) && v.freeInodes == Vacancies(v.fs.table) + 1
    ensures formatted == Ok ==> st == Ok && corrupt == 0
  {
    st, corrupt, answers := Ok, 0, [];
    formatted := FormatAndMount(v, total, volumeLabel, nonce);
    if formatted == Ok {
      answers := RunFromNew(v, total, ops, owner);
      OpenInOrder(v);
      st, corrupt := SyncThenCheck(v);
    }
  }

  // ---- mounting again ----

  /** Unmounting a volume in order and mounting it again gives it back in order: the same files, catalogs and counts. */
  method Remount(v: Volume) returns (st: Status)
    requires v.healthy && InOrder(v) && !v.state.error
    modifies v`blocks, v`id, v`geo, v`freeBlocks, v`freeInodes, v`mountCount, v`state, v`sum1, v`sum2, v`security,
        v`checksum, v`drift
    ensures st == Ok && InOrder(v)
    ensures v.geo == old(v.geo) && v.id == old(v.id)
    ensures v.mountCount == Wrap(old(v.mountCount) + 1)
    ensures Now(v) == old(Now(v)).(flags := Unsettled(Settled(old(v.state))))
    ensures Saved(v, Now(v)) && Observed(v) == Written(v.state)
  {
    OpenInOrder(v);
    assert v.geo.totalBlocks <= |v.blocks| by { OpenStored(v.blocks, v.geo, v.fs); }
    st := UnmountVolume(v);
    st := MountVolume(v);
    OpenInOrder(v);
  }

  /** The state after a crash: everything in place, but the counters are those of `at`. */
  function Crashed(end: State, at: State, flags: Flags): State {
    end.(flags := flags, stock := Stock(at.stock.free, end.stock.clear), freeInodes := at.freeInodes)
  }

  /** The flags after mounting a device whose superblock has `f`, without ERROR. */
  function Mounted(f: Flags): Flags {
    if f.dirty || f.locked then LockedUp(f) else Unsettled(f)
  }

  /** A crash, and a mount from a superblock that records the counters of `at`. */
  method CrashAndMount(v: Volume, garbage: Superblock, ghost at: State) returns (st: Status)
    requires v.healthy && InOrder(v) && Saved(v, at) && !OnDisk(v).state.error && !OnDisk(v).state.locked
    modifies v
    ensures st == if old(OnDisk(v)).state.dirty then VolumeDirty else Ok
    ensures |v.blocks| > 16 && (OnDisk(v).state.locked <==> st == VolumeDirty)
    ensures InOrder(v) && Now(v) == Crashed(old(Now(v)), at, Mounted(old(OnDisk(v)).state))
    ensures v.Exact() <==> at.stock.free == old(v.Free()).clear
  {
    OpenInOrder(v);
    assert Holding(v.blocks, v.geo, v.fs);
    AuthenticIsIdentified(OnDisk(v));
    LoseMemory(v, garbage);
    st := MountVolume(v);
    OpenInOrder(v);
  }

  /**
   A volume is mounted, any run is performed on it, and then it crashes.  The next
   mount answers VOLUME_DIRTY and locks it exactly when the run did not sync.
   Either way every file and every name is as the run left it, the volume is in order
   for further operations, and its counters are those of the last sync, or of the
   mount.
   */
  method MountRunCrash(v: Volume, ops: seq<Op>, owner: seq<byte>, garbage: Superblock)
    returns (mounted: Status, answers: seq<Status>, st: Status, ghost states: seq<State>)
    requires v.healthy && InOrder(v) && !v.state.error && |owner| == 4
    requires forall k :: 0 <= k < |ops| && ops[k].WriteFile? ==> |ops[k].bytes| < 0x1_0000_0000
    modifies v
    ensures mounted == Ok && |states| == |ops| + 1
    ensures var start := old(Now(v)).(flags := Unsettled(Settled(old(v.state))));
            var at, end := Play(start, ops[..LastSync(ops)]).state, states[|ops|];
            && Simulates(states, ops, answers) && states[0] == start && Played(start, ops, answers, end)
            && Now(v) == Crashed(end, at, Mounted(if LastSync(ops) > 0 then Settled(start.flags) else start.flags))
            && (v.Exact() <==> at.stock.free == end.stock.clear)
    ensures st == if LastSync(ops) > 0 then Ok else VolumeDirty
    ensures |v.blocks| > 16 && (OnDisk(v).state.locked <==> st == VolumeDirty)
    ensures InOrder(v)
  {
    mounted := Remount(v);
    ghost var head, start := Head(v.blocks), Now(v);
    assert |v.blocks| > 16 by { OpenInOrder(v); OpenStored(v.blocks, v.geo, v.fs); }
    answers, states := RunAll(v, ops, owner);
    assert |v.blocks| > 16 by { OpenInOrder(v); OpenStored(v.blocks, v.geo, v.fs); }
    OpenRecorded(v, head, start.flags, start, ops);
    if LastSync(ops) == 0 {
      assert ops[..0] == [];
    }
    st := CrashAndMount(v, garbage, Play(start, ops[..LastSync(ops)]).state);
  }
}
