/**
 From the contracts of the operations to the abstract filesystem: what each of them
 does to the blocks, the inode table and the counters is what `Next` says.
 */
module OwfsEffects {
  import opened Words
  import opened Splice
  import opened Ciphers
  import opened OwfsTypes
  import opened OwfsVolume
  import opened OwfsOwnership
  import opened OwfsBlockmap
  import opened OwfsContent
  import opened OwfsInode
  import opened OwfsDirectory
  import opened OwfsCatalog
  import opened OwfsFile
  import opened OwfsObjects

  ghost function BodyAt(c: Cipher, fs: FS, i: nat): Body
    requires i < |fs.table|
  {
    var ino := fs.table[i];
    if IsCatalog(ino.entryType) then Directory(ino.blockCount, Dir(fs, i))
    else if IsFile(ino.entryType) then File(c.Clear?, ino.size, Plain(c, fs.data, ino))
    else Nothing
  }

  ghost function ObjectAt(security: nat, id: Ident, fs: FS, i: nat): Object
    requires i < |fs.table|
  {
    var ino := fs.table[i];
    Object(ino.entryType, ReadOnly(ino.security), BodyAt(CipherFor(security, id, ino), fs, i))
  }

  /** One object per inode number. */
  ghost function Objects(security: nat, id: Ident, fs: FS): (os: seq<Object>)
    ensures |os| == |fs.table| && forall i :: 0 <= i < |os| ==> os[i] == ObjectAt(security, id, fs, i)
  {
    seq(|fs.table|, i requires 0 <= i < |fs.table| => ObjectAt(security, id, fs, i))
  }

  /** The part of the state that operations on files do not change. */
  datatype Setting = Setting(flags: Flags, security: u32, id: Ident)

  ghost function StateOf(w: Setting, fs: FS, stock: Stock, freeInodes: u32): State {
    State(w.flags, w.security, stock, freeInodes, Objects(w.security, w.id, fs))
  }

  // ---- other objects ----

  /** An inode with the same record, the same bytes and the same slots is the same object. */
  lemma SameObject(security: nat, id: Ident, fs: FS, fs': FS, j: nat)
    requires j < |fs.table| == |fs'.table| && fs'.table[j] == fs.table[j]
    requires Holds(fs, j) ==>
      Plain(CipherFor(security, id, fs.table[j]), fs'.data, fs.table[j]) ==
          Plain(CipherFor(security, id, fs.table[j]), fs.data, fs.table[j])
    requires HoldsCatalog(fs, j) ==> Dir(fs', j) == Dir(fs, j)
    ensures ObjectAt(security, id, fs', j) == ObjectAt(security, id, fs, j)
  {
  }

  /** A step on inode `i` changes no other object. */
  lemma StepEffect(security: nat, id: Ident, fs: FS, fs': FS, g: Geometry, i: nat)
    requires Sound(fs, g) && Confined(fs, fs', g, i)
    ensures Objects(security, id, fs') == Objects(security, id, fs)[i := ObjectAt(security, id, fs', i)]
  {
    forall j: nat | j < |fs.table| && j != i
      ensures ObjectAt(security, id, fs', j) == ObjectAt(security, id, fs, j)
    {
      if Holds(fs, j) {
        OthersReadTheSame(CipherFor(security, id, fs.table[j]), fs, fs', g, i, j);
        OtherCatalogs(fs, fs', g, i, j);
      }
      SameObject(security, id, fs, fs', j);
    }
  }

  /** If nothing in use changed, no object did. */
  lemma UnharmedEffect(security: nat, id: Ident, fs: FS, fs': FS, g: Geometry)
    requires Sound(fs, g) && Unharmed(fs, fs')
    ensures Objects(security, id, fs') == Objects(security, id, fs)
  {
    forall j: nat | j < |fs.table|
      ensures ObjectAt(security, id, fs', j) == ObjectAt(security, id, fs, j)
    {
      if Holds(fs, j) {
        SoundMapped(fs, g, j);
        SameContent(CipherFor(security, id, fs.table[j]), fs.data, fs'.data, g, fs.table[j]);
        UnharmedSlots(fs, fs', g, j);
      }
      SameObject(security, id, fs, fs', j);
    }
  }

  lemma UnharmedSlots(fs: FS, fs': FS, g: Geometry, j: nat)
    requires Sound(fs, g) && Unharmed(fs, fs') && Holds(fs, j)
    ensures Cat(fs', j) == Cat(fs, j)
  {
    SoundMapped(fs, g, j);
    var ino := fs.table[j];
    if ino.indirect != 0 {
      OwnedHas(fs.data, ino, ino.indirect);
    }
    SameMap(fs.data, fs'.data, g, ino);
    forall k: nat | k < ino.blockCount
      ensures BlockOf(fs'.data, ino, k) == BlockOf(fs.data, ino, k)
    {
      OwnedAt(fs.data, ino, k);
    }
    EntriesSame(fs.data, ino, fs'.data, ino, ino.blockCount);
  }

  // ---- inodes ----

  lemma NewbornObject(security: nat, id: Ident, fs: FS, i: u32, t: byte, name: seq<byte>, parent: u32, owner: seq<byte>)
    requires i < |fs.table| && |name| < 128 && |owner| == 4 && Creatable(t)
    requires IsNew(fs.table[i], i, t, name, parent, owner, Encrypted(security))
    ensures ObjectAt(security, id, fs, i) == Newborn(t, !Encrypted(security))
  {
    OpenIsNew(fs.table[i], i, t, name, parent, owner, Encrypted(security));
  }

  lemma AllocateEffect(w: Setting, fs: FS, fs': FS, g: Geometry, stock: Stock, freeInodes: u32, freeInodes': u32,
      kind: byte, name: seq<byte>, parent: u32, owner: seq<byte>, i: u32, writable: Status, st: Status)
    requires Sound(fs, g) && |owner| == 4 && writable == WritableState(StateOf(w, fs, stock, freeInodes))
    requires st == AllocAnswer(writable, fs.table, kind, name, freeInodes)
    requires st == Ok ==>
      && freeInodes' + 1 == freeInodes && Creatable(kind)
      && Allocated(fs, fs', i, kind, name, parent, owner, Encrypted(w.security)) && StepOn(fs, fs', g, i)
    requires st != Ok ==> fs' == fs && freeInodes' == freeInodes
    ensures Allocate(StateOf(w, fs, stock, freeInodes), kind, name) == Outcome(StateOf(w, fs', stock, freeInodes'), st)
    ensures st == Ok ==> LeastVacant(Objects(w.security, w.id, fs)) == i
  {
    var os := Objects(w.security, w.id, fs);
    if st == Ok {
      LeastVacantIs(os, i);
      StepConfined(fs, fs', g, i);
      StepEffect(w.security, w.id, fs, fs', g, i);
      NewbornObject(w.security, w.id, fs', i, kind, name, parent, owner);
    } else if NoneVacant(fs.table, |fs.table|) {
      LeastVacantIs(os, |os|);
    }
  }

  lemma RemainsObject(security: nat, id: Ident, fs: FS, fs': FS, i: nat)
    requires Freed(fs, fs', i) && KnownType(fs.table[i].entryType)
    ensures ObjectAt(security, id, fs', i) == Remains(ObjectAt(security, id, fs, i))
  {
  }

  lemma FreeEffect(w: Setting, fs: FS, fs': FS, g: Geometry, stock: Stock, stock': Stock, freeInodes: u32,
      freeInodes': u32, i: u32, writable: Status, st: Status)
    requires Sound(fs, g) && |fs.table| == 4096 && writable == WritableState(StateOf(w, fs, stock, freeInodes))
    requires i >= 4096 ==> st == (if writable == Ok then NotFound else writable) && fs' == fs
    requires i < 4096 ==> st == FreeRefusal(writable, fs.table[i]) && KnownType(fs.table[i].entryType)
    requires st != Ok || i >= 4096 || IsVacant(fs.table[i].entryType) ==>
      fs' == fs && stock' == stock && freeInodes' == freeInodes
    requires i < 4096 && st == Ok && !IsVacant(fs.table[i].entryType) ==>
      && StepOn(fs, fs', g, i) && Freed(fs, fs', i) && freeInodes' == Increment(freeInodes)
      && Gave(stock, stock', Footprint(fs.table[i].blockCount))
    ensures Free(StateOf(w, fs, stock, freeInodes), i) == Outcome(StateOf(w, fs', stock', freeInodes'), st)
  {
    if i < 4096 && st == Ok && !IsVacant(fs.table[i].entryType) {
      StepConfined(fs, fs', g, i);
      StepEffect(w.security, w.id, fs, fs', g, i);
      RemainsObject(w.security, w.id, fs, fs', i);
    }
  }

  // ---- names ----

  lemma BindEffect(w: Setting, fs: FS, fs': FS, g: Geometry, stock: Stock, stock': Stock, freeInodes: u32, p: u32,
      name: seq<byte>, target: u32, kind: byte, writable: Status, st: Status)
    requires Sound(fs, g) && |fs.table| == 4096 && writable == WritableState(StateOf(w, fs, stock, freeInodes))
    requires st == InsertAnswer(writable, fs, p, name, kind, Room(stock))
    requires st == Ok ==>
      && HoldsCatalog(fs, p) && StepOn(fs, fs', g, p) && SameButMap(fs.table[p], fs'.table[p])
      && Dir(fs', p) == Dir(fs, p)[name := Binding(target, kind)]
      && fs'.table[p].blockCount == fs.table[p].blockCount + One(Full(|Dir(fs, p)|, fs.table[p].blockCount))
      && Took(stock, stock', EntryCost(|Dir(fs, p)|, fs.table[p].blockCount))
    requires st != Ok ==> Unharmed(fs, fs') && stock' == stock
    ensures Bind(StateOf(w, fs, stock, freeInodes), p, name, target, kind)
         == Outcome(StateOf(w, fs', stock', freeInodes), st)
  {
    if st == Ok {
      StepConfined(fs, fs', g, p);
      StepEffect(w.security, w.id, fs, fs', g, p);
    } else {
      UnharmedEffect(w.security, w.id, fs, fs', g);
    }
  }

  lemma UnbindEffect(w: Setting, fs: FS, fs': FS, g: Geometry, stock: Stock, freeInodes: u32, p: u32, name: seq<byte>,
      writable: Status, st: Status)
    requires Sound(fs, g) && |fs.table| == 4096 && writable == WritableState(StateOf(w, fs, stock, freeInodes))
    requires st == RemoveAnswer(writable, fs, p, name)
    requires st == Ok ==>
      && HoldsCatalog(fs, p) && StepOn(fs, fs', g, p) && fs'.table == fs.table
      && Dir(fs', p) == Dir(fs, p) - {name}
    requires st != Ok ==> fs' == fs
    ensures Unbind(StateOf(w, fs, stock, freeInodes), p, name) == Outcome(StateOf(w, fs', stock, freeInodes), st)
  {
    if st == Ok {
      StepConfined(fs, fs', g, p);
      StepEffect(w.security, w.id, fs, fs', g, p);
    }
  }

  // ---- bytes ----

  /** `Overwritten`, when `shown` has the right length. */
  lemma OverwrittenIs(f: Body, offset: nat, bytes: seq<byte>, shown: seq<byte>)
    requires f.File? && |f.held| + |shown| == Max(|f.held|, 4096 * BlocksFor(offset + |bytes|))
    requires offset + |bytes| <= |f.held| + |shown| && (f.clear ==> shown == Zeros(|shown|))
    ensures Overwritten(f, offset, bytes, shown)
         == File(f.clear, Max(f.size, offset + |bytes|), Over(f.held + shown, offset, bytes))
  {
  }

  lemma FileBody(c: Cipher, fs: FS, i: nat)
    requires i < |fs.table| && IsFile(fs.table[i].entryType) && !IsCatalog(fs.table[i].entryType)
    ensures BodyAt(c, fs, i) == File(c.Clear?, fs.table[i].size, Plain(c, fs.data, fs.table[i]))
  {
  }

  lemma WroteFile(c: Cipher, fs: FS, fs': FS, ino: Inode, ino': Inode, offset: nat, bytes: seq<byte>)
      returns (shown: seq<byte>)
    requires Wrote(c, fs, fs', ino, ino', offset, bytes, BlocksFor(offset + |bytes|))
    ensures File(c.Clear?, ino'.size, Plain(c, fs'.data, ino'))
         == Overwritten(File(c.Clear?, ino.size, Plain(c, fs.data, ino)), offset, bytes, shown)
  {
    OpenOverlaid(c, fs, fs', ino, ino', offset, bytes);
    shown := Flatten(ZeroViews(c, fs'.data, ino', ino.blockCount, ino'.blockCount));
    if c.Clear? {
      ZeroViewsClear(fs'.data, ino', ino.blockCount, ino'.blockCount);
    }
    OverwrittenIs(File(c.Clear?, ino.size, Plain(c, fs.data, ino)), offset, bytes, shown);
  }

  /** A file that was written to: its old bytes, what the new blocks show, and the piece laid over. */
  lemma WrittenBody(c: Cipher, fs: FS, fs': FS, i: nat, offset: nat, bytes: seq<byte>) returns (shown: seq<byte>)
    requires i < |fs.table| == |fs'.table| && IsFile(fs.table[i].entryType) && !IsCatalog(fs.table[i].entryType)
    requires Wrote(c, fs, fs', fs.table[i], fs'.table[i], offset, bytes, BlocksFor(offset + |bytes|))
    ensures BodyAt(c, fs', i) == Overwritten(BodyAt(c, fs, i), offset, bytes, shown)
  {
    FileBody(c, fs, i);
    FileBody(c, fs', i);
    shown := WroteFile(c, fs, fs', fs.table[i], fs'.table[i], offset, bytes);
  }

  lemma KeptBody(c: Cipher, fs: FS, fs': FS, i: nat)
    requires i < |fs.table| && fs'.table == fs.table && !IsCatalog(fs.table[i].entryType)
    requires BytesKept(c, fs, fs', fs.table[i])
    ensures BodyAt(c, fs', i) == BodyAt(c, fs, i)
  {
    OpenBytesKept(c, fs, fs', fs.table[i]);
  }

  /** A step on inode `i` that changes only its map and its size changes only the body of its object. */
  lemma BodyEffect(w: Setting, fs: FS, fs': FS, g: Geometry, stock: Stock, stock': Stock, freeInodes: u32, i: nat)
    requires Sound(fs, g) && StepOn(fs, fs', g, i) && SameButMap(fs.table[i], fs'.table[i])
    ensures var s, b := StateOf(w, fs, stock, freeInodes), BodyAt(CipherFor(w.security, w.id, fs.table[i]), fs', i);
            StateOf(w, fs', stock', freeInodes) ==
                s.(stock := stock', objects := s.objects[i := s.objects[i].(body := b)])
  {
    StepConfined(fs, fs', g, i);
    StepEffect(w.security, w.id, fs, fs', g, i);
  }

  /** What the object of inode `i` shows of it. */
  lemma ObjectIs(w: Setting, fs: FS, stock: Stock, freeInodes: u32, i: nat)
    requires i < |fs.table| && KnownType(fs.table[i].entryType)
    ensures var ino, o := fs.table[i], StateOf(w, fs, stock, freeInodes).objects[i];
            && o.kind == ino.entryType && o.readOnly == ReadOnly(ino.security) && i < |Objects(w.security, w.id, fs)|
            && o.body == BodyAt(CipherFor(w.security, w.id, ino), fs, i)
            && (o.body.File? <==> IsFile(ino.entryType))
            && (o.body.File? ==> BlocksOf(o.body) == ino.blockCount && o.body.size == ino.size)
  {
  }

  lemma WriteDone(w: Setting, fs: FS, fs': FS, g: Geometry, stock: Stock, stock': Stock, freeInodes: u32, i: u32,
      offset: u32, bytes: seq<byte>, writable: Status) returns (shown: seq<byte>)
    requires Sound(fs, g) && StepOn(fs, fs', g, i) && Holds(fs, i) && KnownType(fs.table[i].entryType)
    requires writable == WritableState(StateOf(w, fs, stock, freeInodes))
    requires WriteAnswer(writable, fs.table[i], offset, |bytes|, Room(stock)) == Ok && bytes != []
    requires SameButMap(fs.table[i], fs'.table[i])
    requires Took(stock, stock', Demand(fs.table[i].blockCount, BlocksFor(offset + |bytes|)))
    requires Wrote(CipherFor(w.security, w.id, fs.table[i]), fs, fs', fs.table[i], fs'.table[i], offset, bytes,
               BlocksFor(offset + |bytes|))
    ensures Write(StateOf(w, fs, stock, freeInodes), i, offset, bytes, shown)
         == Outcome(StateOf(w, fs', stock', freeInodes), Ok)
  {
    ObjectIs(w, fs, stock, freeInodes, i);
    BodyEffect(w, fs, fs', g, stock, stock', freeInodes, i);
    shown := WrittenBody(CipherFor(w.security, w.id, fs.table[i]), fs, fs', i, offset, bytes);
  }

  lemma WriteEffect(w: Setting, fs: FS, fs': FS, g: Geometry, stock: Stock, stock': Stock, freeInodes: u32, i: u32,
      offset: u32, bytes: seq<byte>, writable: Status, st: Status) returns (shown: seq<byte>)
    requires Sound(fs, g) && StepOn(fs, fs', g, i) && Holds(fs, i) && KnownType(fs.table[i].entryType)
    requires writable == WritableState(StateOf(w, fs, stock, freeInodes))
    requires st == WriteAnswer(writable, fs.table[i], offset, |bytes|, Room(stock))
    requires SameButMap(fs.table[i], fs'.table[i])
    requires WriteRefusal(writable, fs.table[i], offset, |bytes|) != Ok || bytes == [] ==> fs' == fs && stock' == stock
    requires st == NoFreeBlocks ==>
      && fs'.table == fs.table && BytesKept(CipherFor(w.security, w.id, fs.table[i]), fs, fs', fs.table[i])
      && Took(stock, stock', Wasted(fs.table[i].blockCount, Room(stock)))
    requires st == Ok && bytes != [] ==>
      && Took(stock, stock', Demand(fs.table[i].blockCount, BlocksFor(offset + |bytes|)))
      && Wrote(CipherFor(w.security, w.id, fs.table[i]), fs, fs', fs.table[i], fs'.table[i], offset, bytes,
             BlocksFor(offset + |bytes|))
    ensures Write(StateOf(w, fs, stock, freeInodes), i, offset, bytes, shown)
         == Outcome(StateOf(w, fs', stock', freeInodes), st)
  {
    shown := [];
    if WriteRefusal(writable, fs.table[i], offset, |bytes|) != Ok || bytes == [] {
      ObjectIs(w, fs, stock, freeInodes, i);
    } else if st == Ok {
      shown := WriteDone(w, fs, fs', g, stock, stock', freeInodes, i, offset, bytes, writable);
    } else {
      ObjectIs(w, fs, stock, freeInodes, i);
      BodyEffect(w, fs, fs', g, stock, stock', freeInodes, i);
      KeptBody(CipherFor(w.security, w.id, fs.table[i]), fs, fs', i);
    }
  }

  lemma CutBody(c: Cipher, fs: FS, fs': FS, i: nat, size: nat)
    requires i < |fs.table| == |fs'.table| && IsFile(fs.table[i].entryType) && !IsCatalog(fs.table[i].entryType)
    requires Truncated(c, fs, fs', fs.table[i], fs'.table[i], size)
    ensures BodyAt(c, fs', i) == CutTo(BodyAt(c, fs, i), size)
  {
    OpenCutOff(c, fs, fs', fs.table[i], fs'.table[i]);
  }

  lemma TruncateEffect(w: Setting, fs: FS, fs': FS, g: Geometry, stock: Stock, stock': Stock, freeInodes: u32, i: u32,
      size: u32, writable: Status, st: Status)
    requires Sound(fs, g) && StepOn(fs, fs', g, i) && Holds(fs, i) && KnownType(fs.table[i].entryType)
    requires writable == WritableState(StateOf(w, fs, stock, freeInodes))
    requires st == TruncateRefusal(writable, fs.table[i]) && SameButMap(fs.table[i], fs'.table[i])
    requires st != Ok || size >= fs.table[i].size ==> fs' == fs && stock' == stock
    requires st == Ok && size < fs.table[i].size ==>
      && Truncated(CipherFor(w.security, w.id, fs.table[i]), fs, fs', fs.table[i], fs'.table[i], size)
      && Gave(stock, stock', Footprint(fs.table[i].blockCount) - Footprint(fs'.table[i].blockCount))
    ensures Truncate(StateOf(w, fs, stock, freeInodes), i, size) == Outcome(StateOf(w, fs', stock', freeInodes), st)
  {
    ObjectIs(w, fs, stock, freeInodes, i);
    if st == Ok && size < fs.table[i].size {
      BodyEffect(w, fs, fs', g, stock, stock', freeInodes, i);
      CutBody(CipherFor(w.security, w.id, fs.table[i]), fs, fs', i, size);
    }
  }
}
