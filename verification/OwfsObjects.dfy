/**
 What a volume means to its users: an abstract filesystem.  For every inode number
 it has nothing, a file with its bytes, or a directory with its names; beside them
 the flags and the counters that decide what operations answer.  `Next` says what
 each operation answers and leaves behind.
 */
module OwfsObjects {
  import opened Words
  import opened Veils
  import opened Splice
  import opened OwfsTypes
  import opened OwfsVolume
  import opened OwfsOwnership
  import opened OwfsInode
  import opened OwfsDirectory
  import opened OwfsCatalog
  import opened OwfsFile
  import opened OwfsState

  /** A file is the first `size` bytes of what its blocks hold; a clear one is stored unencrypted. */
  datatype Body =
    | Nothing
    | File(clear: bool, size: nat, held: seq<byte>)
    | Directory(blocks: nat, names: map<seq<byte>, Binding>)

  /** What an inode number stands for; it is free for something new when its kind is vacant. */
  datatype Object = Object(kind: byte, readOnly: bool, body: Body)

  datatype State = State(flags: Flags, security: u32, stock: Stock, freeInodes: u32, objects: seq<Object>)

  datatype Op =
    | CreateFile(parent: u32, name: seq<byte>)
    | MakeCatalog(parent: u32, name: seq<byte>)
    | Link(parent: u32, name: seq<byte>, target: u32, kind: byte)
    | Unlink(parent: u32, name: seq<byte>)
    | AllocateInode(kind: byte, name: seq<byte>, parent: u32)
    | FreeInode(i: u32)
    | WriteFile(i: u32, offset: u32, bytes: seq<byte>)
    | TruncateFile(i: u32, size: u32)
    | SyncVolume

  /** An answer, and the state it leaves. */
  datatype Outcome = Outcome(state: State, answer: Status)

  function BytesOf(b: Body): seq<byte>
    requires b.File?
  {
    if b.size <= |b.held| then b.held[..b.size] else b.held
  }

  function BlocksOf(b: Body): nat {
    match b
    case Nothing => 0
    case File(_, _, held) => |held| / 4096
    case Directory(blocks, _) => blocks
  }

  function WritableState(s: State): Status {
    if s.flags.locked || s.flags.error then VolumeDirty else if ReadOnly(s.security) then WriteProtected else Ok
  }

  /** `k` blocks fewer. */
  function Less(s: Stock, k: nat): Stock {
    if k <= Room(s) then Stock(s.free - k, s.clear - k) else s
  }

  /** `k` blocks more; the count is in 32 bits. */
  function More(s: Stock, k: nat): Stock {
    Stock(Wrap(s.free + k), s.clear + k)
  }

  // ---- inodes ----

  /** The least vacant number, or the number of objects when there is none. */
  function LeastVacant(os: seq<Object>): (i: nat)
    ensures i <= |os| && (i < |os| ==> IsVacant(os[i].kind))
    ensures forall j :: 0 <= j < i ==> !IsVacant(os[j].kind)
  {
    if os == [] then 0
    else
      var i := LeastVacant(os[..|os| - 1]);
      if i < |os| - 1 || IsVacant(os[|os| - 1].kind) then i else |os|
  }

  lemma LeastVacantIs(os: seq<Object>, i: nat)
    requires i <= |os| && (i < |os| ==> IsVacant(os[i].kind))
    requires forall j :: 0 <= j < i ==> !IsVacant(os[j].kind)
    ensures LeastVacant(os) == i
  {
  }

  function Newborn(kind: byte, clear: bool): Object {
    Object(kind, false, if kind == ENTRY_CATALOG then Directory(0, map[]) else File(clear, 0, []))
  }

  ghost function Allocate(s: State, kind: byte, name: seq<byte>): Outcome {
    var refusal := AllocRefusal(WritableState(s), kind, name, s.freeInodes);
    var i := LeastVacant(s.objects);
    if refusal != Ok then Outcome(s, refusal)
    else if i == |s.objects| then Outcome(s, NoFreeInodes)
    else
      Outcome(s.(freeInodes := s.freeInodes - 1,
                 objects := s.objects[i := Newborn(kind, !Encrypted(s.security))]), Ok)
  }

  /** What deletion leaves of an object. */
  function Remains(o: Object): Object {
    Object(MarkDeleted(o.kind), o.readOnly,
           match o.body
           case Nothing => Nothing
           case File(clear, _, _) => File(clear, 0, [])
           case Directory(_, _) => Directory(0, map[]))
  }

  function Free(s: State, i: nat): Outcome {
    if WritableState(s) != Ok then Outcome(s, WritableState(s))
    else if i >= |s.objects| || s.objects[i].kind == 0 then Outcome(s, NotFound)
    else if IsDeleted(s.objects[i].kind) then Outcome(s, Ok)
    else if s.objects[i].readOnly then Outcome(s, WriteProtected)
    else
      Outcome(s.(stock := More(s.stock, Footprint(BlocksOf(s.objects[i].body))), freeInodes := Increment(s.freeInodes),
                 objects := s.objects[i := Remains(s.objects[i])]), Ok)
  }

  // ---- names ----

  function DirectoryRefusal(s: State, p: nat): Status {
    if p >= |s.objects| then NotFound else if !s.objects[p].body.Directory? then NotCatalog else Ok
  }

  ghost function Bind(s: State, p: nat, name: seq<byte>, target: u32, kind: byte): Outcome {
    if InsertRefusal(WritableState(s), name, kind) != Ok then Outcome(s, InsertRefusal(WritableState(s), name, kind))
    else if DirectoryRefusal(s, p) != Ok then Outcome(s, DirectoryRefusal(s, p))
    else
      var d := s.objects[p].body;
      var room := RoomAnswer(|d.names|, d.blocks, Room(s.stock));
      if name in d.names then Outcome(s, AlreadyExists)
      else if room != Ok then Outcome(s, room)
      else
        Outcome(s.(stock := Less(s.stock, EntryCost(|d.names|, d.blocks)),
                   objects := s.objects[p := s.objects[p].(body := WithName(d, name, target, kind))]), Ok)
  }

  /** The directory with one more name; one that is full grows by a block. */
  function WithName(d: Body, name: seq<byte>, target: u32, kind: byte): Body
    requires d.Directory?
  {
    Directory(d.blocks + One(Full(|d.names|, d.blocks)), d.names[name := Binding(target, kind)])
  }

  function Unbind(s: State, p: nat, name: seq<byte>): Outcome {
    if NameRefusal(name) != Ok then Outcome(s, NameRefusal(name))
    else if WritableState(s) != Ok then Outcome(s, WritableState(s))
    else if DirectoryRefusal(s, p) != Ok then Outcome(s, DirectoryRefusal(s, p))
    else
      var d := s.objects[p].body;
      if name !in d.names then Outcome(s, NotFound)
      else Outcome(s.(objects := s.objects[p := s.objects[p].(body := d.(names := d.names - {name}))]), Ok)
  }

  /** Allocates, then binds; when binding fails, frees again. */
  ghost function Create(s: State, p: nat, name: seq<byte>, kind: byte): Outcome {
    var first := Allocate(s, kind, name);
    var i := LeastVacant(s.objects);
    if first.answer != Ok then first
    else
      var bound := Bind(first.state, p, name, Wrap(i), kind);
      if bound.answer == Ok then bound else Outcome(Free(bound.state, i).state, bound.answer)
  }

  // ---- bytes ----

  function WriteRefusalOf(s: State, i: nat, offset: nat, len: nat): Status {
    if i >= |s.objects| then NotFound
    else if !s.objects[i].body.File? then NotFile
    else if len == 0 then Ok
    else if WritableState(s) != Ok then WritableState(s)
    else if s.objects[i].readOnly then WriteProtected
    else if offset + len > 1034 * 4096 then BufferTooSmall
    else Ok
  }

  /** `n` appended bytes: zeros in a clear file, in an encrypted one whatever the keystream makes of them. */
  function Appended(clear: bool, shown: seq<byte>, n: nat): (r: seq<byte>)
    ensures |r| == n
  {
    if clear || |shown| != n then Zeros(n) else shown
  }

  /** The file after a write; `shown` is what the blocks it grows by show. */
  function Overwritten(f: Body, offset: nat, bytes: seq<byte>, shown: seq<byte>): (r: Body)
    requires f.File?
    ensures r.File? && r.clear == f.clear && r.size == Max(f.size, offset + |bytes|)
    ensures |r.held| == Max(|f.held|, 4096 * BlocksFor(offset + |bytes|))
  {
    var n := Max(|f.held|, 4096 * BlocksFor(offset + |bytes|)) - |f.held|;
    Covered(offset + |bytes|);
    File(f.clear, Max(f.size, offset + |bytes|), Over(f.held + Appended(f.clear, shown, n), offset, bytes))
  }

  lemma Covered(end: nat)
    ensures end <= 4096 * BlocksFor(end)
  {
  }

  function Write(s: State, i: nat, offset: nat, bytes: seq<byte>, shown: seq<byte>): Outcome {
    var refusal := WriteRefusalOf(s, i, offset, |bytes|);
    if refusal != Ok || bytes == [] then Outcome(s, refusal)
    else
      var f := s.objects[i].body;
      var demand := Demand(BlocksOf(f), BlocksFor(offset + |bytes|));
      if demand > Room(s.stock) then
        Outcome(s.(stock := Less(s.stock, Wasted(BlocksOf(f), Room(s.stock)))), NoFreeBlocks)
      else
        Outcome(s.(stock := Less(s.stock, demand),
                   objects := s.objects[i := s.objects[i].(body := Overwritten(f, offset, bytes, shown))]), Ok)
  }

  /** The file cut down to `size` bytes and the blocks they lie in. */
  function CutTo(f: Body, size: nat): Body
    requires f.File?
  {
    File(f.clear, size, f.held[..Min(|f.held|, 4096 * BlocksFor(size))])
  }

  function Truncate(s: State, i: nat, size: nat): Outcome {
    if i >= |s.objects| then Outcome(s, NotFound)
    else if !s.objects[i].body.File? then Outcome(s, NotFile)
    else if WritableState(s) != Ok then Outcome(s, WritableState(s))
    else if s.objects[i].readOnly then Outcome(s, WriteProtected)
    else
      var f := s.objects[i].body;
      var n, m := BlocksOf(f), BlocksFor(size);
      if size >= f.size then Outcome(s, Ok)
      else
        Outcome(s.(stock := More(s.stock, Footprint(n) - Footprint(Min(n, m))),
                   objects := s.objects[i := s.objects[i].(body := CutTo(f, size))]), Ok)
  }

  // ---- one operation ----

  /** What an operation answers and leaves; `shown` matters only to a write that makes an encrypted file grow. */
  ghost function Next(s: State, op: Op, shown: seq<byte>): Outcome {
    match op
    case CreateFile(p, name) => Create(s, p, name, ENTRY_FILE)
    case MakeCatalog(p, name) => Create(s, p, name, ENTRY_CATALOG)
    case Link(p, name, target, kind) => Bind(s, p, name, target, kind)
    case Unlink(p, name) => Unbind(s, p, name)
    case AllocateInode(kind, name, _) => Allocate(s, kind, name)
    case FreeInode(i) => Free(s, i)
    case WriteFile(i, offset, bytes) => Write(s, i, offset, bytes, shown)
    case TruncateFile(i, size) => Truncate(s, i, size)
    case SyncVolume => Outcome(s.(flags := Settled(s.flags)), Ok)
  }

  /** One operation takes the volume from one state to another with this answer. */
  ghost predicate Turns(s: State, s': State, op: Op, st: Status) {
    var r: bool :| forall k {:trigger Lifted(Turning, k)} :: Lifted(Turning, k) ==> (r <==> TurnsInFull(s, s', op, st));
    r
  }

  ghost predicate TurnsInFull(s: State, s': State, op: Op, st: Status) {
    exists shown: seq<byte> :: Next(s, op, shown) == Outcome(s', st)
  }

  lemma OpenTurns(s: State, s': State, op: Op, st: Status)
    ensures Turns(s, s', op, st) <==> TurnsInFull(s, s', op, st)
  {
    assert Lifted(Turning, 0);
  }

  // ---- what the abstract operations mean ----

  /** Freeing what was just allocated gives back only its number. */
  lemma NewbornFreed(s: State, i: nat, kind: byte, clear: bool)
    requires i < |s.objects| && s.objects[i] == Newborn(kind, clear) && Creatable(kind) && WritableState(s) == Ok
    ensures Free(s, i).state ==
        s.(freeInodes := Increment(s.freeInodes), objects := s.objects[i := Remains(s.objects[i])])
  {
  }

  /** Creation that fails leaves everything as it was, but for the kind of a slot that stays vacant. */
  lemma CreateUndone(s: State, p: nat, name: seq<byte>, kind: byte)
    requires Create(s, p, name, kind).answer != Ok
    ensures var s', i := Create(s, p, name, kind).state, LeastVacant(s.objects);
            && s'.flags == s.flags && s'.security == s.security && s'.stock == s.stock && s'.freeInodes == s.freeInodes
            && |s'.objects| == |s.objects|
            && (forall j :: 0 <= j < |s.objects| && j != i ==> s'.objects[j] == s.objects[j])
            && (i < |s.objects| ==> IsVacant(s'.objects[i].kind))
  {
    var first, i := Allocate(s, kind, name), LeastVacant(s.objects);
    if first.answer == Ok {
      NewbornFreed(first.state, i, kind, !Encrypted(s.security));
    }
  }

  /** Creation in a live directory: one new empty object under the least vacant number, and one name for it. */
  lemma CreateBinds(s: State, p: nat, name: seq<byte>, kind: byte)
    requires p < |s.objects| && s.objects[p].body.Directory? && !IsVacant(s.objects[p].kind)
    requires AllocRefusal(WritableState(s), kind, name, s.freeInodes) == Ok && name != []
    requires LeastVacant(s.objects) < |s.objects| <= 0x1_0000_0000
    ensures var d, i, o := s.objects[p].body, LeastVacant(s.objects), Create(s, p, name, kind);
            && o.answer == (if name in d.names then AlreadyExists
                   else RoomAnswer(|d.names|, d.blocks, Room(s.stock)))
            && (o.answer == Ok ==>
                  o.state.objects == s.objects[i := Newborn(kind, !Encrypted(s.security))]
                      [p := s.objects[p].(body := WithName(d, name, i, kind))])
  {
  }

  /** Unbinding a name that was just bound gives back the names there were. */
  lemma BindThenUnbind(s: State, p: nat, name: seq<byte>, target: u32, kind: byte)
    requires Bind(s, p, name, target, kind).answer == Ok
    ensures var bound := Bind(s, p, name, target, kind).state;
            && Unbind(bound, p, name).answer == Ok
            && Unbind(bound, p, name).state.objects[p].body.names == s.objects[p].body.names
  {
    var d := s.objects[p].body;
    assert d.names[name := Binding(target, kind)] - {name} == d.names;
  }

  /**
   A written file reads back what was written and keeps every other byte; the gap of
   a clear file reads as zeros exactly when its blocks held zeros there.
   */
  lemma OverwrittenReads(f: Body, offset: nat, bytes: seq<byte>, shown: seq<byte>)
    requires f.File? && f.size <= |f.held|
    ensures var was, now := BytesOf(f), BytesOf(Overwritten(f, offset, bytes, shown));
            && |now| == Max(|was|, offset + |bytes|) && now[offset..offset + |bytes|] == bytes
            && (forall p :: 0 <= p < |was| && !(offset <= p < offset + |bytes|) ==> now[p] == was[p])
            && (f.clear ==> (now == WriteTo(was, offset, bytes) <==>
                  forall p :: f.size <= p < Min(offset, |f.held|) ==> f.held[p] == 0))
  {
    Covered(offset + |bytes|);
    var n := Max(|f.held|, 4096 * BlocksFor(offset + |bytes|)) - |f.held|;
    var base := f.held + Appended(f.clear, shown, n);
    var now := BytesOf(Overwritten(f, offset, bytes, shown));
    OverReads(base, offset, bytes);
    SliceOfPrefix(Over(base, offset, bytes), |now|, offset, |bytes|);
    if f.clear {
      GapBytes(f.held, n, f.size, offset, bytes, BytesOf(f), now);
    }
  }

  lemma CutReads(f: Body, size: nat)
    requires f.File? && size <= f.size <= |f.held|
    ensures BytesOf(CutTo(f, size)) == BytesOf(f)[..size]
  {
    Covered(size);
  }

  // ---- runs ----

  /** A run's last state, and its answers. */
  datatype Course = Course(state: State, answers: seq<Status>)

  /** The run of `ops` from `s`, as if appended blocks showed zeros. */
  ghost function Play(s: State, ops: seq<Op>): (c: Course)
    ensures |c.answers| == |ops|
  {
    if ops == [] then Course(s, [])
    else
      var c := Play(s, ops[..|ops| - 1]);
      var o := Next(c.state, ops[|ops| - 1], []);
      Course(o.state, c.answers + [o.answer])
  }

  lemma PlayOneMore(s: State, ops: seq<Op>, op: Op)
    ensures Play(s, ops + [op]).state == Next(Play(s, ops).state, op, []).state
    ensures Play(s, ops + [op]).answers == Play(s, ops).answers + [Next(Play(s, ops).state, op, []).answer]
  {
    assert (ops + [op])[..|ops|] == ops;
  }

  /** The same but for what encrypted files hold. */
  predicate AlikeBodies(a: Body, b: Body) {
    match a
    case Nothing => b.Nothing?
    case Directory(_, _) => b == a
    case File(clear, size, held) =>
      && b.File? && b.clear == clear && b.size == size && |b.held| == |held|
      && (clear ==> b.held == held)
  }

  predicate AlikeObjects(a: Object, b: Object) {
    b.kind == a.kind && b.readOnly == a.readOnly && AlikeBodies(a.body, b.body)
  }

  ghost predicate Alike(s: State, t: State) {
    && t.flags == s.flags && t.security == s.security && t.stock == s.stock && t.freeInodes == s.freeInodes
    && |t.objects| == |s.objects| && forall i :: 0 <= i < |s.objects| ==> AlikeObjects(s.objects[i], t.objects[i])
  }

  lemma AlikeVacant(s: State, t: State)
    requires Alike(s, t)
    ensures LeastVacant(t.objects) == LeastVacant(s.objects)
  {
    var i := LeastVacant(s.objects);
    assert i < |s.objects| ==> AlikeObjects(s.objects[i], t.objects[i]);
    forall j | 0 <= j < i
      ensures !IsVacant(t.objects[j].kind)
    {
      assert AlikeObjects(s.objects[j], t.objects[j]);
    }
    LeastVacantIs(t.objects, i);
  }

  lemma AllocateAlike(s: State, t: State, kind: byte, name: seq<byte>)
    requires Alike(s, t)
    ensures Allocate(s, kind, name).answer == Allocate(t, kind, name).answer
    ensures Alike(Allocate(s, kind, name).state, Allocate(t, kind, name).state)
  {
    AlikeVacant(s, t);
  }

  lemma FreeAlike(s: State, t: State, i: nat)
    requires Alike(s, t)
    ensures Free(s, i).answer == Free(t, i).answer && Alike(Free(s, i).state, Free(t, i).state)
  {
    assert i < |s.objects| ==> AlikeObjects(s.objects[i], t.objects[i]);
  }

  lemma BindAlike(s: State, t: State, p: nat, name: seq<byte>, target: u32, kind: byte)
    requires Alike(s, t)
    ensures Bind(s, p, name, target, kind).answer == Bind(t, p, name, target, kind).answer
    ensures Alike(Bind(s, p, name, target, kind).state, Bind(t, p, name, target, kind).state)
  {
    assert p < |s.objects| ==> AlikeObjects(s.objects[p], t.objects[p]);
  }

  lemma UnbindAlike(s: State, t: State, p: nat, name: seq<byte>)
    requires Alike(s, t)
    ensures Unbind(s, p, name).answer == Unbind(t, p, name).answer
    ensures Alike(Unbind(s, p, name).state, Unbind(t, p, name).state)
  {
    assert p < |s.objects| ==> AlikeObjects(s.objects[p], t.objects[p]);
  }

  lemma CreateAlike(s: State, t: State, p: nat, name: seq<byte>, kind: byte)
    requires Alike(s, t)
    ensures Create(s, p, name, kind).answer == Create(t, p, name, kind).answer
    ensures Alike(Create(s, p, name, kind).state, Create(t, p, name, kind).state)
  {
    AlikeVacant(s, t);
    AllocateAlike(s, t, kind, name);
    var s', t' := Allocate(s, kind, name).state, Allocate(t, kind, name).state;
    var i := LeastVacant(s.objects);
    BindAlike(s', t', p, name, Wrap(i), kind);
    FreeAlike(Bind(s', p, name, Wrap(i), kind).state, Bind(t', p, name, Wrap(i), kind).state, i);
  }

  lemma WriteAlike(s: State, t: State, i: nat, offset: nat, bytes: seq<byte>, shown: seq<byte>, shown': seq<byte>)
    requires Alike(s, t)
    ensures Write(s, i, offset, bytes, shown).answer == Write(t, i, offset, bytes, shown').answer
    ensures Alike(Write(s, i, offset, bytes, shown).state, Write(t, i, offset, bytes, shown').state)
  {
    assert i < |s.objects| ==> AlikeObjects(s.objects[i], t.objects[i]);
    if i < |s.objects| && s.objects[i].body.File? {
      assert AlikeBodies(Overwritten(s.objects[i].body, offset, bytes, shown),
          Overwritten(t.objects[i].body, offset, bytes, shown'));
    }
  }

  lemma TruncateAlike(s: State, t: State, i: nat, size: nat)
    requires Alike(s, t)
    ensures Truncate(s, i, size).answer == Truncate(t, i, size).answer
    ensures Alike(Truncate(s, i, size).state, Truncate(t, i, size).state)
  {
    assert i < |s.objects| ==> AlikeObjects(s.objects[i], t.objects[i]);
  }

  /** So answers, counters, names and sizes do not depend on what encrypted files hold. */
  lemma NextAlike(s: State, t: State, op: Op, shown: seq<byte>, shown': seq<byte>)
    requires Alike(s, t)
    ensures Next(s, op, shown).answer == Next(t, op, shown').answer
    ensures Alike(Next(s, op, shown).state, Next(t, op, shown').state)
  {
    match op
    case CreateFile(p, name) => CreateAlike(s, t, p, name, ENTRY_FILE);
    case MakeCatalog(p, name) => CreateAlike(s, t, p, name, ENTRY_CATALOG);
    case Link(p, name, target, kind) => BindAlike(s, t, p, name, target, kind);
    case Unlink(p, name) => UnbindAlike(s, t, p, name);
    case AllocateInode(kind, name, _) => AllocateAlike(s, t, kind, name);
    case FreeInode(i) => FreeAlike(s, t, i);
    case WriteFile(i, offset, bytes) => WriteAlike(s, t, i, offset, bytes, shown, shown');
    case TruncateFile(i, size) => TruncateAlike(s, t, i, size);
    case SyncVolume =>
  }

  /** Nothing is encrypted, nor will be. */
  ghost predicate InTheClear(s: State) {
    !Encrypted(s.security) && forall i :: 0 <= i < |s.objects| && s.objects[i].body.File? ==> s.objects[i].body.clear
  }

  /** Then alike is the same. */
  lemma AlikeInTheClear(s: State, t: State)
    requires Alike(s, t) && InTheClear(s)
    ensures t == s
  {
    forall i | 0 <= i < |s.objects|
      ensures t.objects[i] == s.objects[i]
    {
      assert AlikeObjects(s.objects[i], t.objects[i]);
    }
  }

  lemma NextInTheClear(s: State, op: Op, shown: seq<byte>)
    requires InTheClear(s)
    ensures InTheClear(Next(s, op, shown).state)
  {
    match op
    case CreateFile(p, name) => CreateInTheClear(s, p, name, ENTRY_FILE);
    case MakeCatalog(p, name) => CreateInTheClear(s, p, name, ENTRY_CATALOG);
    case Link(p, name, target, kind) => BindInTheClear(s, p, name, target, kind);
    case FreeInode(i) => FreeInTheClear(s, i);
    case _ =>
  }

  lemma BindInTheClear(s: State, p: nat, name: seq<byte>, target: u32, kind: byte)
    requires InTheClear(s)
    ensures InTheClear(Bind(s, p, name, target, kind).state)
  {
  }

  lemma FreeInTheClear(s: State, i: nat)
    requires InTheClear(s)
    ensures InTheClear(Free(s, i).state)
  {
  }

  lemma CreateInTheClear(s: State, p: nat, name: seq<byte>, kind: byte)
    requires InTheClear(s)
    ensures InTheClear(Create(s, p, name, kind).state)
  {
    var first, i := Allocate(s, kind, name), LeastVacant(s.objects);
    assert InTheClear(first.state);
    BindInTheClear(first.state, p, name, Wrap(i), kind);
    FreeInTheClear(Bind(first.state, p, name, Wrap(i), kind).state, i);
  }

  lemma {:induction false} PlayInTheClear(s: State, ops: seq<Op>)
    requires InTheClear(s)
    ensures InTheClear(Play(s, ops).state)
  {
    if ops != [] {
      PlayInTheClear(s, ops[..|ops| - 1]);
      NextInTheClear(Play(s, ops[..|ops| - 1]).state, ops[|ops| - 1], []);
    }
  }

  // ---- what every run conserves ----

  function VacantCount(os: seq<Object>): (n: nat)
    ensures n <= |os|
  {
    if os == [] then 0 else VacantCount(os[..|os| - 1]) + One(IsVacant(os[|os| - 1].kind))
  }

  lemma {:induction false} VacantCountUpdate(os: seq<Object>, i: nat, o: Object)
    requires i < |os|
    ensures VacantCount(os[i := o]) == VacantCount(os) - One(IsVacant(os[i].kind)) + One(IsVacant(o.kind))
    decreases |os|
  {
    var n := |os| - 1;
    if i < n {
      assert os[i := o][..n] == os[..n][i := o];
      VacantCountUpdate(os[..n], i, o);
    } else {
      assert os[i := o][..n] == os[..n];
    }
  }

  /** How far the two counters of the superblock are from the truth, in 32 bits. */
  function BlockDrift(s: State): int {
    (s.stock.free - s.stock.clear) % 0x1_0000_0000
  }

  function InodeDrift(s: State): int {
    (s.freeInodes - VacantCount(s.objects)) % 0x1_0000_0000
  }

  /** Both are as wrong as before. */
  predicate AsWrong(s: State, s': State) {
    BlockDrift(s') == BlockDrift(s) && InodeDrift(s') == InodeDrift(s)
  }

  lemma WrapDrift(a: nat, b: nat)
    ensures (Wrap(a) - b) % 0x1_0000_0000 == (a - b) % 0x1_0000_0000
  {
    var q := a / 0x1_0000_0000;
    assert Wrap(a) == a - 0x1_0000_0000 * q;
    assert (a - b) % 0x1_0000_0000 == (a - b - 0x1_0000_0000 * q) % 0x1_0000_0000;
  }

  lemma FreeKeeps(s: State, i: nat)
    ensures AsWrong(s, Free(s, i).state)
  {
    if Free(s, i).state != s {
      var o := s.objects[i];
      VacantCountUpdate(s.objects, i, Remains(o));
      WrapDrift(s.freeInodes + 1, VacantCount(s.objects) + 1);
      WrapDrift(s.stock.free + Footprint(BlocksOf(o.body)), s.stock.clear + Footprint(BlocksOf(o.body)));
    }
  }

  lemma AllocateKeeps(s: State, kind: byte, name: seq<byte>)
    ensures AsWrong(s, Allocate(s, kind, name).state)
  {
    var i := LeastVacant(s.objects);
    if i < |s.objects| {
      VacantCountUpdate(s.objects, i, Newborn(kind, !Encrypted(s.security)));
    }
  }

  /** Changing only the body of an object, and taking blocks. */
  lemma BodyKeeps(s: State, i: nat, b: Body, stock: Stock)
    requires i < |s.objects| && (stock.free - stock.clear) % 0x1_0000_0000 == BlockDrift(s)
    ensures AsWrong(s, s.(stock := stock, objects := s.objects[i := s.objects[i].(body := b)]))
  {
    VacantCountUpdate(s.objects, i, s.objects[i].(body := b));
  }

  lemma BindKeeps(s: State, p: nat, name: seq<byte>, target: u32, kind: byte)
    ensures AsWrong(s, Bind(s, p, name, target, kind).state)
  {
    if Bind(s, p, name, target, kind).state != s {
      var d := s.objects[p].body;
      BodyKeeps(s, p, WithName(d, name, target, kind), Less(s.stock, EntryCost(|d.names|, d.blocks)));
    }
  }

  lemma WriteKeeps(s: State, i: nat, offset: nat, bytes: seq<byte>, shown: seq<byte>)
    ensures AsWrong(s, Write(s, i, offset, bytes, shown).state)
  {
    if i < |s.objects| && s.objects[i].body.File? {
      var f := s.objects[i].body;
      BodyKeeps(s, i, Overwritten(f, offset, bytes, shown),
          Less(s.stock, Demand(BlocksOf(f), BlocksFor(offset + |bytes|))));
    }
  }

  lemma TruncateKeeps(s: State, i: nat, size: nat)
    ensures AsWrong(s, Truncate(s, i, size).state)
  {
    if Truncate(s, i, size).state != s {
      var f := s.objects[i].body;
      var k := Footprint(BlocksOf(f)) - Footprint(Min(BlocksOf(f), BlocksFor(size)));
      WrapDrift(s.stock.free + k, s.stock.clear + k);
      BodyKeeps(s, i, CutTo(f, size), More(s.stock, k));
    }
  }

  /** No operation makes the counters more or less right than they were. */
  lemma NextKeeps(s: State, op: Op, shown: seq<byte>)
    ensures AsWrong(s, Next(s, op, shown).state)
  {
    match op
    case CreateFile(p, name) => CreateKeeps(s, p, name, ENTRY_FILE);
    case MakeCatalog(p, name) => CreateKeeps(s, p, name, ENTRY_CATALOG);
    case Link(p, name, target, kind) => BindKeeps(s, p, name, target, kind);
    case Unlink(p, name) =>
      if Unbind(s, p, name).state != s {
        BodyKeeps(s, p, Unbind(s, p, name).state.objects[p].body, s.stock);
      }
    case AllocateInode(kind, name, _) => AllocateKeeps(s, kind, name);
    case FreeInode(i) => FreeKeeps(s, i);
    case WriteFile(i, offset, bytes) => WriteKeeps(s, i, offset, bytes, shown);
    case TruncateFile(i, size) => TruncateKeeps(s, i, size);
    case SyncVolume =>
  }

  lemma CreateKeeps(s: State, p: nat, name: seq<byte>, kind: byte)
    ensures AsWrong(s, Create(s, p, name, kind).state)
  {
    var first, i := Allocate(s, kind, name), LeastVacant(s.objects);
    AllocateKeeps(s, kind, name);
    BindKeeps(first.state, p, name, Wrap(i), kind);
    FreeKeeps(Bind(first.state, p, name, Wrap(i), kind).state, i);
  }

  lemma {:induction false} PlayKeeps(s: State, ops: seq<Op>)
    ensures AsWrong(s, Play(s, ops).state)
  {
    if ops != [] {
      PlayKeeps(s, ops[..|ops| - 1]);
      NextKeeps(Play(s, ops[..|ops| - 1]).state, ops[|ops| - 1], []);
    }
  }
}
