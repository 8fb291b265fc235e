/**
 Allocating and freeing inodes: the first vacant slot of the table, and the
 accounting of free inodes.
 */
module OwfsInode {
  import opened Words
  import opened Veils
  import Sutf8
  import opened OwfsTypes
  import opened OwfsVolume
  import opened OwfsOwnership
  import opened OwfsBlockmap

  // ---- how many slots are vacant ----

  function Vacancies(table: seq<Inode>): (n: nat)
    ensures n <= |table|
  {
    if table == [] then 0
    else Vacancies(table[..|table| - 1]) + if IsVacant(table[|table| - 1].entryType) then 1 else 0
  }

  lemma {:induction false} VacanciesUpdate(table: seq<Inode>, i: nat, ino: Inode)
    requires i < |table|
    ensures Vacancies(table[i := ino]) == Vacancies(table) - One(IsVacant(table[i].entryType))
        + One(IsVacant(ino.entryType))
    decreases |table|
  {
    var n := |table| - 1;
    if i < n {
      assert table[i := ino][..n] == table[..n][i := ino];
      VacanciesUpdate(table[..n], i, ino);
    } else {
      assert table[i := ino][..n] == table[..n];
    }
  }

  // ---- allocation ----

  /** The default mode: 0644 for files, 0755 for catalogs. */
  function DefaultMode(t: byte): (r: seq<byte>)
    ensures |r| == 4
  {
    if t == ENTRY_CATALOG then [0xED, 0x01, 0, 0] else [0xA4, 0x01, 0, 0]
  }

  /** A name field: the name, padded with zeros. */
  function NameField(name: seq<byte>): (r: seq<byte>)
    requires |name| < 128
    ensures |r| == 128 && r[..|name|] == name
  {
    name + Zeros(128 - |name|)
  }

  /** A new inode, empty, of type `t`. */
  function NewInode(i: u32, t: byte, name: seq<byte>, parent: u32, owner: seq<byte>, encrypted: bool): Inode
    requires |name| < 128 && |owner| == 4
  {
    InodeRecord(i, t, |name|, DefaultMode(t), 0, 0, Zeros(8), parent, NoPointers(), 0, NameField(name), owner,
                if encrypted then 1 else 0, Zeros(45), 0)
  }

  function NoPointers(): (r: seq<u32>)
    ensures |r| == 10 && forall k :: 0 <= k < 10 ==> r[k] == 0
  {
    seq(10, _ => 0)
  }

  predicate Creatable(t: byte) { t == ENTRY_FILE || t == ENTRY_CATALOG }

  /** The tests made before the table is looked at. */
  ghost function AllocRefusal(writable: Status, t: byte, name: seq<byte>, free: nat): Status {
    if !Creatable(t) then InvalidParam
    else if |name| >= 128 then NameTooLong
    else if |name| > 0 && !Sutf8.Valid(name) then InvalidParam
    else if writable != Ok then writable
    else if free == 0 then NoFreeInodes
    else Ok
  }

  /** What allocation answers on a device that does not fail. */
  ghost function AllocAnswer(writable: Status, table: seq<Inode>, t: byte, name: seq<byte>, free: nat): Status {
    var refusal := AllocRefusal(writable, t, name, free);
    if refusal == Ok && NoneVacant(table, |table|) then NoFreeInodes else refusal
  }

  ghost predicate NoneVacant(table: seq<Inode>, n: nat) {
    n <= |table| && forall j {:trigger table[j]} :: 0 <= j < n ==> !IsVacant(table[j].entryType)
  }

  /** Slot `i` was the first vacant one and now holds an empty inode of type `t`; nothing else changed. */
  ghost predicate Allocated(fs: FS, fs': FS, i: u32, t: byte, name: seq<byte>, parent: u32, owner: seq<byte>,
      encrypted: bool) {
    && |name| < 128 && |owner| == 4 && i < |fs.table| && |fs'.table| == |fs.table|
    && IsVacant(fs.table[i].entryType) && NoneVacant(fs.table, i)
    && fs' == fs.(table := fs.table[i := fs'.table[i]])
    && IsNew(fs'.table[i], i, t, name, parent, owner, encrypted)
    && fs'.table[i].entryType == t && Empty(fs'.table[i]) && !ReadOnly(fs'.table[i].security)
  }

  /** Up to its checksum, the inode is the new one made from these parts. */
  ghost predicate IsNew(ino: Inode, i: u32, t: byte, name: seq<byte>, parent: u32, owner: seq<byte>, encrypted: bool)
    requires |name| < 128 && |owner| == 4
  {
    var r: bool :| forall k {:trigger Lifted(Birth, k)} :: Lifted(Birth, k) ==>
      (r <==> IsNewInFull(ino, i, t, name, parent, owner, encrypted));
    r
  }

  ghost predicate IsNewInFull(ino: Inode, i: u32, t: byte, name: seq<byte>, parent: u32, owner: seq<byte>,
      encrypted: bool)
    requires |name| < 128 && |owner| == 4
  {
    Restamped(NewInode(i, t, name, parent, owner, encrypted), ino)
  }

  lemma OpenIsNew(ino: Inode, i: u32, t: byte, name: seq<byte>, parent: u32, owner: seq<byte>, encrypted: bool)
    requires |name| < 128 && |owner| == 4
    ensures IsNew(ino, i, t, name, parent, owner, encrypted) <==> IsNewInFull(ino, i, t, name, parent, owner, encrypted)
  {
    assert Lifted(Birth, 0);
  }

  lemma StoredNew(ino: Inode, i: u32, t: byte, name: seq<byte>, parent: u32, owner: seq<byte>, encrypted: bool)
    requires |name| < 128 && |owner| == 4 && Restamped(NewInode(i, t, name, parent, owner, encrypted), ino)
    ensures IsNew(ino, i, t, name, parent, owner, encrypted) && ino.entryType == t && Empty(ino)
    ensures !ReadOnly(ino.security)
  {
    assert Lifted(Birth, 0);
  }

  predicate Empty(ino: Inode) {
    ino.size == 0 && ino.blockCount == 0 && NoneMapped(ino)
  }

  lemma EmptyStep(fs: FS, fs': FS, g: Geometry, i: nat)
    requires i < |fs.table| == |fs'.table| && |fs.data| == g.totalBlocks && Empty(fs'.table[i])
    requires fs' == fs.(table := fs.table[i := fs'.table[i]])
    ensures StepOn(fs, fs', g, i)
  {
    OpenStepOn(fs, fs', g, i);
  }

  /** Takes the first vacant slot for a new, empty inode; refuses exactly when there is none or the count says so. */
  method InodeAlloc(v: Volume, t: byte, name: seq<byte>, parent: u32, owner: seq<byte>) returns (st: Status, i: u32)
    requires v.Valid() && |owner| == 4
    modifies v`blocks, v`fs, v`freeInodes
    ensures Head(v.blocks) == Head(old(v.blocks))
    ensures v.Valid()
    ensures st == Ok ==>
      && i < 4096 && Allocated(old(v.fs), v.fs, i, t, name, parent, owner, Encrypted(v.security))
      && StepOn(old(v.fs), v.fs, v.geo, i)
    ensures st == Ok ==> old(v.freeInodes) > 0 && v.freeInodes == old(v.freeInodes) - 1 && Creatable(t) && v.Writable()
    ensures st == Ok ==> Vacancies(v.fs.table) == Vacancies(old(v.fs.table)) - 1
    ensures st != Ok ==> v.fs == old(v.fs) && v.freeInodes == old(v.freeInodes)
    ensures v.healthy ==> st == AllocAnswer(v.WritableStatus(), old(v.fs.table), t, name, old(v.freeInodes))
  {
    i := 0;
    st := AllocTests(v, t, name);
    if st != Ok {
      return;
    }
    st, i := FirstVacant(v);
    if st == Ok {
      st := TakeSlot(v, i, NewInode(i, t, name, parent, owner, Encrypted(v.security)));
      if st == Ok {
        StoredNew(v.fs.table[i], i, t, name, parent, owner, Encrypted(v.security));
      }
    }
  }

  method AllocTests(v: Volume, t: byte, name: seq<byte>) returns (st: Status)
    ensures st == AllocRefusal(v.WritableStatus(), t, name, v.freeInodes)
  {
    if t != ENTRY_FILE && t != ENTRY_CATALOG {
      return InvalidParam;
    }
    if |name| >= 128 {
      return NameTooLong;
    }
    if |name| > 0 {
      var sound := Sutf8.Validate(name);
      if !sound {
        return InvalidParam;
      }
    }
    st := v.WritableStatus();
    if st == Ok && v.freeInodes == 0 {
      st := NoFreeInodes;
    }
  }

  /** The scan. */
  method FirstVacant(v: Volume) returns (st: Status, i: u32)
    requires v.Valid()
    ensures st == Ok ==> i < 4096 && IsVacant(v.fs.table[i].entryType) && NoneVacant(v.fs.table, i)
    ensures st == NoFreeInodes ==> NoneVacant(v.fs.table, 4096)
    ensures v.healthy ==> st == if NoneVacant(v.fs.table, 4096) then NoFreeInodes else Ok
    ensures st == Ok || st == NoFreeInodes || st == IoError
  {
    i := 0;
    while i < v.geo.totalInodes
      invariant 0 <= i <= 4096
      invariant NoneVacant(v.fs.table, i)
    {
      var temp;
      st, temp := InodeRead(v, i);
      if st != Ok && st != ChecksumMismatch {
        return;
      }
      if IsVacant(temp.entryType) {
        return Ok, i;
      }
      i := i + 1;
    }
    return NoFreeInodes, i;
  }

  method TakeSlot(v: Volume, i: u32, ino: Inode) returns (st: Status)
    requires v.Valid() && i < 4096 && IsVacant(v.fs.table[i].entryType) && Empty(ino) && Creatable(ino.entryType)
    requires v.freeInodes > 0 && v.Writable()
    modifies v`blocks, v`fs, v`freeInodes
    ensures Head(v.blocks) == Head(old(v.blocks))
    ensures v.Valid()
    ensures st == Ok ==>
      && v.fs == old(v.fs).(table := old(v.fs.table)[i := v.fs.table[i]]) && Restamped(ino, v.fs.table[i])
      && v.freeInodes == old(v.freeInodes) - 1
      && StepOn(old(v.fs), v.fs, v.geo, i) && Vacancies(v.fs.table) == Vacancies(old(v.fs.table)) - 1
    ensures st != Ok ==> v.fs == old(v.fs) && v.freeInodes == old(v.freeInodes)
    ensures v.healthy ==> st == Ok
  {
    var stored;
    st, stored := InodeWrite(v, i, ino);
    if st == Ok {
      VacanciesUpdate(old(v.fs.table), i, stored);
      v.freeInodes := v.freeInodes - 1;
      EmptyStep(old(v.fs), v.fs, v.geo, i);
    }
  }

  // ---- freeing ----

  /** The 32-bit increment. */
  function Increment(n: u32): u32 {
    if n == 0xFFFF_FFFF then 0 else n + 1
  }

  function FreeRefusal(writable: Status, ino: Inode): Status {
    if writable != Ok then writable
    else if ino.entryType == 0 then NotFound
    else if IsDeleted(ino.entryType) then Ok
    else if ReadOnly(ino.security) then WriteProtected
    else Ok
  }

  /** Slot `i` was live; it is deleted and empty now, and its blocks are free. */
  ghost predicate Freed(fs: FS, fs': FS, i: nat) {
    && i < |fs.table| == |fs'.table|
    && !IsVacant(fs.table[i].entryType) && fs'.table[i].entryType == MarkDeleted(fs.table[i].entryType)
    && Empty(fs'.table[i])
    && SameButMap(fs.table[i].(entryType := fs'.table[i].entryType), fs'.table[i])
    && fs' == fs.(table := fs.table[i := fs'.table[i]], used := fs.used - OwnedBy(fs, i))
  }

  /** Deletes a live inode and frees its blocks; a deleted one is left as it is. */
  method InodeFree(v: Volume, i: u32) returns (st: Status)
    requires v.Valid() && Sound(v.fs, v.geo)
    modifies v`blocks, v`freeBlocks, v`fs, v`freeInodes
    ensures Head(v.blocks) == Head(old(v.blocks))
    ensures v.Valid()
    ensures i >= 4096 ==>
      && st == (if v.Writable() then NotFound else v.WritableStatus()) && v.fs == old(v.fs)
      && v.freeInodes == old(v.freeInodes)
    ensures i < 4096 ==> Confined(old(v.fs), v.fs, v.geo, i)
    ensures i < 4096 && (v.healthy || st == Ok) ==> StepOn(old(v.fs), v.fs, v.geo, i)
    ensures i < 4096 && v.healthy ==> st == FreeRefusal(v.WritableStatus(), old(v.fs.table)[i])
    ensures i < 4096 && st == Ok && !IsVacant(old(v.fs.table)[i].entryType) ==>
      && Freed(old(v.fs), v.fs, i)
      && Vacancies(v.fs.table) == Vacancies(old(v.fs.table)) + 1
      && v.freeInodes == Increment(old(v.freeInodes))
      && Gave(old(v.Free()), v.Free(), Footprint(old(v.fs.table)[i].blockCount))
    ensures i < 4096 && st == Ok && IsVacant(old(v.fs.table)[i].entryType) ==>
      v.fs == old(v.fs) && v.freeInodes == old(v.freeInodes) && v.freeBlocks == old(v.freeBlocks)
    ensures v.healthy && st != Ok ==>
      v.fs == old(v.fs) && v.freeInodes == old(v.freeInodes) && v.freeBlocks == old(v.freeBlocks)
  {
    st := v.WritableStatus();
    if i < 4096 {
      StepSelf(v.fs, v.geo, i);
    }
    if st != Ok {
      return;
    }
    var temp;
    st, temp := InodeRead(v, i);
    if st != Ok {
      return;
    }
    st := FreeRefusal(st, temp);
    if st != Ok || IsDeleted(temp.entryType) {
      return;
    }
    assert Backed(v.fs, v.geo, temp) by { SoundBacked(v.fs, v.geo, i); }
    st := ReleaseInode(v, i, temp);
  }

  method ReleaseInode(v: Volume, i: u32, ino: Inode) returns (st: Status)
    requires v.Valid() && Backed(v.fs, v.geo, ino) && Holds(v.fs, i) && v.fs.table[i] == ino && !IsVacant(ino.entryType)
    requires v.Writable()
    modifies v`blocks, v`freeBlocks, v`fs, v`freeInodes
    ensures Head(v.blocks) == Head(old(v.blocks))
    ensures v.Valid()
    ensures Confined(old(v.fs), v.fs, v.geo, i)
    ensures st == Ok ==>
      && StepOn(old(v.fs), v.fs, v.geo, i) && Freed(old(v.fs), v.fs, i)
      && Vacancies(v.fs.table) == Vacancies(old(v.fs.table)) + 1
      && v.freeInodes == Increment(old(v.freeInodes))
      && Gave(old(v.Free()), v.Free(), Footprint(ino.blockCount))
    ensures v.healthy ==> st == Ok
  {
    ghost var before := v.fs;
    var temp;
    st, temp := ReleaseAll(v, ino);
    ReleasedConfined(before, v.fs, v.geo, i);
    if st == Ok {
      st := DeleteSlot(v, i, temp, before);
    }
  }

  lemma ReleasedConfined(fs: FS, fs': FS, g: Geometry, i: nat)
    requires Holds(fs, i) && |fs.data| == g.totalBlocks
    requires fs'.table == fs.table && fs'.data == fs.data && fs.used - fs'.used <= OwnedBy(fs, i)
    ensures Confined(fs, fs', g, i)
  {
  }

  method DeleteSlot(v: Volume, i: u32, ino: Inode, ghost before: FS) returns (st: Status)
    requires v.Valid() && Holds(before, i) && !IsVacant(before.table[i].entryType) && v.Writable()
    requires v.fs == before.(used := before.used - OwnedBy(before, i))
    requires NoneMapped(ino) && SameButMap(before.table[i], ino)
    modifies v`blocks, v`fs, v`freeInodes
    ensures Head(v.blocks) == Head(old(v.blocks))
    ensures v.Valid()
    ensures st == Ok ==>
      && StepOn(before, v.fs, v.geo, i) && Freed(before, v.fs, i)
      && Vacancies(v.fs.table) == Vacancies(before.table) + 1
      && v.freeInodes == Increment(old(v.freeInodes))
    ensures v.fs.used == old(v.fs.used)
    ensures st != Ok ==> v.fs == old(v.fs)
    ensures v.healthy ==> st == Ok
  {
    HeldIsKnown(v.blocks, v.geo, v.fs, i);
    var temp;
    st, temp := InodeWrite(v, i, ino.(entryType := MarkDeleted(ino.entryType), size := 0, blockCount := 0));
    if st == Ok {
      FreedStep(before, v.fs, v.geo, i, before.table[i], temp);
      v.freeInodes := Increment(v.freeInodes);
    }
  }

  /** Releases every block of an inode. */
  method ReleaseAll(v: Volume, ino: Inode) returns (st: Status, ino': Inode)
    requires v.Valid() && Backed(v.fs, v.geo, ino) && v.Writable()
    modifies v`blocks, v`freeBlocks, v`fs
    ensures Head(v.blocks) == Head(old(v.blocks))
    ensures v.Valid()
    ensures v.fs.table == old(v.fs.table) && v.fs.data == old(v.fs.data)
    ensures v.fs.used <= old(v.fs.used) && old(v.fs.used) - v.fs.used <= Owned(old(v.fs.data), ino)
    ensures st == Ok ==>
      && NoneMapped(ino') && SameButMap(ino, ino') && v.fs.used == old(v.fs.used) - Owned(old(v.fs.data), ino)
      && Gave(old(v.Free()), v.Free(), Footprint(ino.blockCount))
    ensures v.healthy ==> st == Ok
  {
    st, ino' := BlockmapRelease(v, ino, 0);
    AllReleased(old(v.fs), v.geo, ino, if 0 < ino.blockCount then CutBack(ino, 0) else ino);
  }

  predicate NoneMapped(ino: Inode) {
    ino.indirect == 0 && forall k :: 0 <= k < 10 ==> ino.direct[k] == 0
  }

  lemma FreedStep(fs: FS, fs': FS, g: Geometry, i: nat, ino: Inode, stored: Inode)
    requires Holds(fs, i) && fs.table[i] == ino && !IsVacant(ino.entryType) && |fs.data| == g.totalBlocks
    requires Empty(stored) && stored.entryType == MarkDeleted(ino.entryType)
    requires SameButMap(ino.(entryType := stored.entryType), stored)
    requires fs'.table == fs.table[i := stored] && fs'.data == fs.data && fs'.used == fs.used - Owned(fs.data, ino)
    ensures StepOn(fs, fs', g, i) && Freed(fs, fs', i)
    ensures Vacancies(fs'.table) == Vacancies(fs.table) + 1
  {
    OpenStepOn(fs, fs', g, i);
    VacanciesUpdate(fs.table, i, stored);
  }

  lemma AllReleased(fs: FS, g: Geometry, ino: Inode, cut: Inode)
    requires Laid(g) && Backed(fs, g, ino) && cut == if 0 < ino.blockCount then CutBack(ino, 0) else ino
    ensures Owned(fs.data, cut) == {} && NoneMapped(cut)
    ensures fs.used - (Owned(fs.data, ino) - Owned(fs.data, cut)) == fs.used - Owned(fs.data, ino)
  {
    OpenBacked(fs, g, ino);
  }
}
