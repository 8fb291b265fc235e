/**
 Catalogs: entry slots in the blocks of a catalog inode.  Lookup, insertion with
 reuse of deleted slots and growth, removal and listing, each tied to the finite
 map that the slots stand for.
 */
module OwfsCatalog {
  import opened Words
  import opened Veils
  import opened Records
  import Sutf8
  import opened OwfsTypes
  import opened OwfsVolume
  import opened OwfsOwnership
  import opened OwfsBlockmap
  import opened OwfsInode
  import opened OwfsDirectory
  import OwfsFile

  // ---- the slots of a catalog ----

  /** The sixteen entries of a block. */
  ghost function SlotsOf(b: Block): (r: seq<Entry>)
    ensures |r| == 16
  {
    assert AreSlots(ParsedSlots(b), b);
    var r: seq<Entry> :| |r| == 16 && AreSlots(r, b);
    r
  }

  function ParsedSlots(b: Block): (r: seq<Entry>)
    ensures |r| == 16 && forall e :: 0 <= e < 16 ==> r[e] == DecodeEntry(SlotAt(b, e))
  {
    seq(16, e requires 0 <= e < 16 => DecodeEntry(SlotAt(b, e)))
  }

  ghost predicate AreSlots(r: seq<Entry>, b: Block) {
    forall k {:trigger Lifted(Slots, k)} :: Lifted(Slots, k) ==> r == ParsedSlots(b)
  }

  method ParseSlots(b: Block) returns (r: seq<Entry>)
    ensures r == SlotsOf(b)
  {
    assert Lifted(Slots, 0);
    r := ParsedSlots(b);
  }

  function BlockOf(data: seq<Block>, ino: Inode, k: nat): Block {
    var b := BlockAt(data, ino, k);
    if b < |data| then data[b] else ZeroBlock()
  }

  /** The entries of the first `n` blocks. */
  ghost function Entries(data: seq<Block>, ino: Inode, n: nat): (r: seq<Entry>)
    ensures |r| == 16 * n
  {
    if n == 0 then [] else Entries(data, ino, n - 1) + SlotsOf(BlockOf(data, ino, n - 1))
  }

  lemma {:induction false} EntriesAt(data: seq<Block>, ino: Inode, n: nat, k: nat, e: nat)
    requires k < n && e < 16
    ensures Entries(data, ino, n)[16 * k + e] == SlotsOf(BlockOf(data, ino, k))[e]
  {
    if k < n - 1 {
      EntriesAt(data, ino, n - 1, k, e);
    }
  }

  /** The entries before slot `e` of block `k`. */
  lemma {:induction false} EntriesBefore(data: seq<Block>, ino: Inode, n: nat, k: nat, e: nat)
    requires k < n && e <= 16
    ensures Entries(data, ino, n)[..16 * k + e] == Entries(data, ino, k) + SlotsOf(BlockOf(data, ino, k))[..e]
  {
    if k < n - 1 {
      EntriesBefore(data, ino, n - 1, k, e);
    }
  }

  lemma {:induction false} EntriesSame(data: seq<Block>, ino: Inode, data': seq<Block>, ino': Inode, n: nat)
    requires forall k: nat :: k < n ==> BlockOf(data', ino', k) == BlockOf(data, ino, k)
    ensures Entries(data', ino', n) == Entries(data, ino, n)
  {
    if n > 0 {
      EntriesSame(data, ino, data', ino', n - 1);
    }
  }

  /** Rewriting one slot of one block rewrites one entry. */
  lemma {:induction false} EntriesRewrite(data: seq<Block>, ino: Inode, data': seq<Block>, n: nat, k: nat, e: nat,
      entry: Entry)
    requires k < n && e < 16
    requires forall j: nat :: j < n && j != k ==> BlockOf(data', ino, j) == BlockOf(data, ino, j)
    requires SlotsOf(BlockOf(data', ino, k)) == SlotsOf(BlockOf(data, ino, k))[e := entry]
    ensures Entries(data', ino, n) == Entries(data, ino, n)[16 * k + e := entry]
  {
    if k < n - 1 {
      EntriesRewrite(data, ino, data', n - 1, k, e, entry);
    } else {
      EntriesSame(data, ino, data', ino, n - 1);
    }
  }

  lemma SlotsRewrite(b: Block, e: nat, entry: Entry)
    requires e < 16
    ensures SlotsOf(WithSlot(b, e, EncodeEntry(entry))) == SlotsOf(b)[e := entry]
  {
    assert Lifted(Slots, 0);
    var after := WithSlot(b, e, EncodeEntry(entry));
    forall j | 0 <= j < 16
      ensures SlotsOf(after)[j] == SlotsOf(b)[e := entry][j]
    {
      WithSlotAt(b, e, EncodeEntry(entry), j);
      EntryRoundTrip(entry);
    }
  }

  /** A zeroed block has no live entry. */
  lemma ZeroSlots(z: Block)
    requires forall i :: 0 <= i < 4096 ==> z[i] == 0
    ensures forall e :: 0 <= e < 16 ==> SlotsOf(z)[e].entryType == 0
  {
    assert Lifted(Slots, 0);
    forall e | 0 <= e < 16
      ensures SlotsOf(z)[e].entryType == 0
    {
      assert SlotAt(z, e)[4] == z[256 * e + 4];
    }
  }

  /** The slots of catalog `i`. */
  ghost function Cat(fs: FS, i: nat): seq<Entry>
    requires i < |fs.table|
  {
    Entries(fs.data, fs.table[i], fs.table[i].blockCount)
  }

  /** The names bound in catalog `i`. */
  ghost function Dir(fs: FS, i: nat): map<seq<byte>, Binding>
    requires i < |fs.table|
  {
    DirOf(Cat(fs, i))
  }

  predicate HoldsCatalog(fs: FS, i: nat) {
    Holds(fs, i) && IsCatalog(fs.table[i].entryType)
  }

  /** Every catalog of the volume is tidy. */
  ghost predicate AllTidy(fs: FS) {
    var r: bool :| forall k {:trigger Lifted(Catalogs, k)} :: Lifted(Catalogs, k) ==> (r <==> AllTidyInFull(fs));
    r
  }

  ghost predicate AllTidyInFull(fs: FS) {
    forall i: nat :: HoldsCatalog(fs, i) ==> Tidy(Cat(fs, i))
  }

  lemma OpenAllTidy(fs: FS)
    ensures AllTidy(fs) <==> AllTidyInFull(fs)
  {
    assert Lifted(Catalogs, 0);
  }

  lemma OpenTidy(fs: FS, i: nat)
    requires AllTidy(fs) && HoldsCatalog(fs, i)
    ensures Tidy(Cat(fs, i))
  {
    OpenAllTidy(fs);
  }

  /** Operations on one inode leave every other catalog's slots alone. */
  lemma OtherCatalogs(fs: FS, fs': FS, g: Geometry, i: nat, j: nat)
    requires Sound(fs, g) && Confined(fs, fs', g, i) && Holds(fs, j) && j != i
    ensures Holds(fs', j) && fs'.table[j] == fs.table[j] && Cat(fs', j) == Cat(fs, j)
  {
    OtherUnchanged(fs, fs', g, i, j);
    SoundMapped(fs, g, j);
    var ino := fs.table[j];
    if ino.indirect != 0 {
      OwnedHas(fs.data, ino, ino.indirect);
    }
    SameMap(fs.data, fs'.data, g, ino);
    forall k: nat | k < ino.blockCount
      ensures BlockOf(fs'.data, ino, k) == BlockOf(fs.data, ino, k)
    {
      OwnedAt(fs.data, ino, k);
    }
    EntriesSame(fs.data, ino, fs'.data, ino, ino.blockCount);
  }

  /** So tidiness is a matter of the one inode. */
  lemma StepKeepsTidy(fs: FS, fs': FS, g: Geometry, i: nat)
    requires Sound(fs, g) && Confined(fs, fs', g, i) && AllTidy(fs)
    requires HoldsCatalog(fs', i) ==> Tidy(Cat(fs', i))
    ensures AllTidy(fs')
  {
    OpenAllTidy(fs');
    forall j: nat | HoldsCatalog(fs', j)
      ensures Tidy(Cat(fs', j))
    {
      if j != i {
        assert HoldsCatalog(fs, j);
        OpenTidy(fs, j);
        OtherCatalogs(fs, fs', g, i, j);
      }
    }
  }

  // ---- scanning ----

  /** The entry answers to `name`. Lookup asks for a checksum that verifies, removal does not. */
  ghost predicate Answers(e: Entry, name: seq<byte>, verify: bool) {
    var r: bool :| forall k {:trigger Lifted(Answering, k)} :: Lifted(Answering, k) ==>
      (r <==> AnswersInFull(e, name, verify));
    r
  }

  lemma OpenAnswers(e: Entry, name: seq<byte>, verify: bool)
    ensures Answers(e, name, verify) <==> AnswersInFull(e, name, verify)
  {
    assert Lifted(Answering, 0);
  }

  ghost predicate AnswersInFull(e: Entry, name: seq<byte>, verify: bool) {
    Live(e) && (verify ==> EntryVerifies(e)) && Sutf8.NameCmp(NameOf(e), name) == 0
  }

  method Ask(e: Entry, name: seq<byte>, verify: bool) returns (answers: bool)
    ensures answers <==> Answers(e, name, verify)
  {
    OpenAnswers(e, name, verify);
    answers := false;
    if Live(e) && (!verify || EntryVerifies(e)) {
      var c := Sutf8.OwNameCmp(NameOf(e), name);
      answers := c == 0;
    }
  }

  ghost predicate NoneAnswers(es: seq<Entry>, name: seq<byte>, verify: bool) {
    forall s :: 0 <= s < |es| ==> !Answers(es[s], name, verify)
  }

  ghost predicate AllLive(es: seq<Entry>) {
    forall s :: 0 <= s < |es| ==> Live(es[s])
  }

  /** In a tidy catalog, answering to a name is carrying it. */
  lemma AnswersName(e: Entry, name: seq<byte>, verify: bool)
    requires Live(e) ==> SoundEntry(e)
    ensures Answers(e, name, verify) <==> Live(e) && NameOf(e) == name
  {
    OpenAnswers(e, name, verify);
    OpenSoundEntry(e);
    Sutf8.NameCmpZero(NameOf(e), name);
  }

  lemma NoneAnswersDir(es: seq<Entry>, name: seq<byte>, verify: bool)
    requires Tidy(es)
    ensures NoneAnswers(es, name, verify) <==> name !in DirOf(es)
  {
    DirHas(es, name);
    forall s | 0 <= s < |es|
      ensures Answers(es[s], name, verify) <==> Live(es[s]) && NameOf(es[s]) == name
    {
      AnswersName(es[s], name, verify);
    }
  }

  /** The slot loop over the entries of one block. */
  method FindInBlock(slots: seq<Entry>, name: seq<byte>, verify: bool) returns (e: nat)
    requires |slots| == 16
    ensures e <= 16 && NoneAnswers(slots[..e], name, verify)
    ensures e < 16 ==> Answers(slots[e], name, verify)
  {
    e := 0;
    while e < 16
      invariant 0 <= e <= 16
      invariant NoneAnswers(slots[..e], name, verify)
    {
      var answers := Ask(slots[e], name, verify);
      if answers {
        return;
      }
      e := e + 1;
    }
  }

  method VacantInBlock(slots: seq<Entry>) returns (e: nat)
    requires |slots| == 16
    ensures e <= 16 && AllLive(slots[..e])
    ensures e < 16 ==> !Live(slots[e])
  {
    e := 0;
    while e < 16
      invariant 0 <= e <= 16
      invariant AllLive(slots[..e])
    {
      if IsVacant(slots[e].entryType) {
        return;
      }
      e := e + 1;
    }
  }

  /** Logical block `k` of a catalog. */
  method ReadCatalogBlock(v: Volume, ino: Inode, k: u32) returns (st: Status, b: u32, buf: Block)
    requires v.Valid() && MapKept(v.fs.data, v.geo, ino) && k < ino.blockCount
    ensures st == Ok ==>
      InData(v.geo, b) && b == BlockAt(v.fs.data, ino, k) && buf == BlockOf(v.fs.data, ino, k) == v.fs.data[b]
    ensures st == Ok || (st == IoError && !v.healthy)
  {
    buf := ZeroBlock();
    OpenMapKept(v.fs.data, v.geo, ino);
    assert InData(v.geo, BlockAt(v.fs.data, ino, k));
    st, b := BlockmapGet(v, ino, k);
    if st != Ok {
      return;
    }
    var hres;
    hres, buf := ReadData(v, b);
    if hres != HtlOk {
      return IoError, b, buf;
    }
  }

  /** The first slot that answers to `name`. */
  method FindEntry(v: Volume, ino: Inode, name: seq<byte>, verify: bool)
      returns (st: Status, k: u32, e: nat, b: u32, buf: Block)
    requires v.Valid() && MapKept(v.fs.data, v.geo, ino)
    ensures st == Ok ==>
      && k < ino.blockCount && e < 16 && InData(v.geo, b) && b == BlockAt(v.fs.data, ino, k)
      && buf == BlockOf(v.fs.data, ino, k) == v.fs.data[b]
      && SlotsOf(buf)[e] == Entries(v.fs.data, ino, ino.blockCount)[16 * k + e]
      && Answers(SlotsOf(buf)[e], name, verify)
    ensures st == NotFound ==> NoneAnswers(Entries(v.fs.data, ino, ino.blockCount), name, verify)
    ensures st == Ok || st == NotFound || (st == IoError && !v.healthy)
  {
    k, e, b, buf := 0, 0, 0, ZeroBlock();
    while k < ino.blockCount
      invariant 0 <= k <= ino.blockCount
      invariant NoneAnswers(Entries(v.fs.data, ino, k), name, verify)
    {
      st, b, buf := ReadCatalogBlock(v, ino, k);
      if st != Ok {
        return;
      }
      var slots := ParseSlots(buf);
      e := FindInBlock(slots, name, verify);
      if e < 16 {
        EntriesAt(v.fs.data, ino, ino.blockCount, k, e);
        return;
      }
      assert SlotsOf(buf)[..16] == SlotsOf(buf);
      k := k + 1;
    }
    st := NotFound;
  }

  lemma LiveBefore(es: seq<Entry>, more: seq<Entry>)
    requires AllLive(es) && AllLive(more)
    ensures AllLive(es + more)
  {
  }

  /** The first vacant slot. */
  method FindVacant(v: Volume, ino: Inode) returns (st: Status, k: u32, e: nat, b: u32, buf: Block)
    requires v.Valid() && MapKept(v.fs.data, v.geo, ino)
    ensures st == Ok ==>
      && k < ino.blockCount && e < 16 && InData(v.geo, b) && b == BlockAt(v.fs.data, ino, k)
      && buf == BlockOf(v.fs.data, ino, k) == v.fs.data[b]
      && SlotsOf(buf)[e] == Entries(v.fs.data, ino, ino.blockCount)[16 * k + e] && !Live(SlotsOf(buf)[e])
      && AllLive(Entries(v.fs.data, ino, ino.blockCount)[..16 * k + e])
    ensures st == NotFound ==> AllLive(Entries(v.fs.data, ino, ino.blockCount))
    ensures st == Ok || st == NotFound || (st == IoError && !v.healthy)
  {
    k, e, b, buf := 0, 0, 0, ZeroBlock();
    while k < ino.blockCount
      invariant 0 <= k <= ino.blockCount
      invariant AllLive(Entries(v.fs.data, ino, k))
    {
      st, b, buf := ReadCatalogBlock(v, ino, k);
      if st != Ok {
        return;
      }
      var slots := ParseSlots(buf);
      e := VacantInBlock(slots);
      if e < 16 {
        EntriesAt(v.fs.data, ino, ino.blockCount, k, e);
        EntriesBefore(v.fs.data, ino, ino.blockCount, k, e);
        LiveBefore(Entries(v.fs.data, ino, k), slots[..e]);
        return;
      }
      assert SlotsOf(buf)[..16] == SlotsOf(buf);
      k := k + 1;
    }
    st := NotFound;
  }

  // ---- lookup ----

  /** Reads a catalog's inode. */
  method CatalogRead(v: Volume, ci: u32) returns (st: Status, ino: Inode)
    requires v.Valid() && Sound(v.fs, v.geo)
    ensures ci >= 4096 ==> st == NotFound
    ensures st == Ok ==>
      && ci < 4096 && HoldsCatalog(v.fs, ci) && ino == v.fs.table[ci] && Backed(v.fs, v.geo, ino)
      && MapKept(v.fs.data, v.geo, ino)
    ensures ci < 4096 && v.healthy ==> st == if IsCatalog(v.fs.table[ci].entryType) then Ok else NotCatalog
  {
    st, ino := InodeRead(v, ci);
    if st != Ok {
      return;
    }
    if !IsCatalog(ino.entryType) {
      return NotCatalog, ino;
    }
    SoundBacked(v.fs, v.geo, ci);
    assert Lifted(Map, 0);
  }

  function NameRefusal(name: seq<byte>): Status {
    if name == [] then InvalidParam else if |name| >= 128 then NameTooLong else Ok
  }

  ghost function CatalogRefusal(fs: FS, ci: u32): Status {
    if ci >= |fs.table| then NotFound else if !IsCatalog(fs.table[ci].entryType) then NotCatalog else Ok
  }

  /** Finds the inode bound to `name`: the value of the map, or NOT_FOUND when the map has none. */
  method CatalogLookup(v: Volume, ci: u32, name: seq<byte>) returns (st: Status, target: u32)
    requires v.Valid() && Sound(v.fs, v.geo) && AllTidy(v.fs)
    ensures st == Ok ==> CatalogRefusal(v.fs, ci) == Ok && name in Dir(v.fs, ci) && target == Dir(v.fs, ci)[name].inode
    ensures v.healthy ==>
      st == if NameRefusal(name) != Ok then NameRefusal(name)
            else if CatalogRefusal(v.fs, ci) != Ok then CatalogRefusal(v.fs, ci)
            else if name in Dir(v.fs, ci) then Ok else NotFound
  {
    target := 0;
    st := NameRefusal(name);
    if st != Ok {
      return;
    }
    var cinode;
    st, cinode := CatalogRead(v, ci);
    if st != Ok {
      return;
    }
    OpenTidy(v.fs, ci);
    var k, e, b, buf;
    st, k, e, b, buf := FindEntry(v, cinode, name, true);
    if st == Ok {
      var slots := ParseSlots(buf);
      target := slots[e].inode;
      FoundIsBound(Cat(v.fs, ci), 16 * k + e, name, true);
    } else if st == NotFound {
      NoneAnswersDir(Cat(v.fs, ci), name, true);
    }
  }

  lemma FoundIsBound(es: seq<Entry>, s: nat, name: seq<byte>, verify: bool)
    requires Tidy(es) && s < |es| && Answers(es[s], name, verify)
    ensures NameOf(es[s]) == name && name in DirOf(es) && DirOf(es)[name] == BindingOf(es[s])
  {
    AnswersName(es[s], name, verify);
    DirAt(es, s);
  }

  // ---- changing one slot ----

  /** Rewriting a slot is a step on the catalog and changes one entry of it. */
  lemma SlotStep(fs: FS, fs': FS, g: Geometry, ci: nat, k: nat, e: nat, b: nat, entry: Entry)
    requires Holds(fs, ci) && Backed(fs, g, fs.table[ci]) && |fs.data| == g.totalBlocks && k < fs.table[ci].blockCount
    requires e < 16
    requires b == BlockAt(fs.data, fs.table[ci], k) && b < |fs.data|
    requires fs' == fs.(data := fs.data[b := WithSlot(fs.data[b], e, EncodeEntry(entry))])
    ensures StepOn(fs, fs', g, ci)
    ensures Cat(fs', ci) == Cat(fs, ci)[16 * k + e := entry]
  {
    var ino := fs.table[ci];
    OpenBacked(fs, g, ino);
    OpenStepOn(fs, fs', g, ci);
    OwnedAt(fs.data, ino, k);
    SameMap(fs.data, fs'.data, g, ino);
    forall j: nat | j < ino.blockCount && j != k
      ensures BlockOf(fs'.data, ino, j) == BlockOf(fs.data, ino, j)
    {
      assert BlockAt(fs.data, ino, j) != b;
    }
    SlotsRewrite(fs.data[b], e, entry);
    EntriesRewrite(fs.data, ino, fs'.data, ino.blockCount, k, e, entry);
  }

  /** Writes one slot of a catalog block back. */
  method WriteSlotBack(v: Volume, ci: u32, ghost k: nat, e: nat, b: u32, buf: Block, entry: Entry) returns (st: Status)
    requires v.Valid() && Holds(v.fs, ci) && Backed(v.fs, v.geo, v.fs.table[ci]) && k < v.fs.table[ci].blockCount
    requires e < 16
    requires InData(v.geo, b) && b == BlockAt(v.fs.data, v.fs.table[ci], k) && buf == v.fs.data[b]
    modifies v`blocks, v`fs
    ensures Head(v.blocks) == Head(old(v.blocks))
    ensures v.Valid() && v.fs.table == old(v.fs.table) && v.fs.used == old(v.fs.used)
    ensures st == Ok ==> StepOn(old(v.fs), v.fs, v.geo, ci) && Cat(v.fs, ci) == Cat(old(v.fs), ci)[16 * k + e := entry]
    ensures st != Ok ==> v.fs == old(v.fs) && !v.healthy
  {
    ghost var before := v.fs;
    var hres := WriteData(v, b, WithSlot(buf, e, EncodeEntry(entry)));
    if hres != HtlOk {
      return WriteStatus(hres);
    }
    SlotStep(before, v.fs, v.geo, ci, k, e, b, entry);
    return Ok;
  }

  // ---- removal ----

  ghost function RemoveAnswer(writable: Status, fs: FS, ci: u32, name: seq<byte>): Status {
    if NameRefusal(name) != Ok then NameRefusal(name)
    else if writable != Ok then writable
    else if CatalogRefusal(fs, ci) != Ok then CatalogRefusal(fs, ci)
    else if name in Dir(fs, ci) then Ok else NotFound
  }

  /** The entry marked deleted, with its checksum recomputed. */
  method Killed(e: Entry) returns (r: Entry)
    ensures !Live(r) && r == e.(entryType := MarkDeleted(e.entryType), checksum := r.checksum)
    ensures r.checksum == EntryCrc(r)
  {
    var marked := e.(entryType := MarkDeleted(e.entryType));
    SealEntryVerifies(marked);
    r := SealEntry(marked);
  }

  /** Unbinds exactly `name`. */
  method CatalogRemove(v: Volume, ci: u32, name: seq<byte>) returns (st: Status)
    requires v.Valid() && Sound(v.fs, v.geo) && AllTidy(v.fs)
    modifies v`blocks, v`fs
    ensures Head(v.blocks) == Head(old(v.blocks))
    ensures v.Valid() && v.fs.table == old(v.fs.table) && v.fs.used == old(v.fs.used)
    ensures v.healthy ==> st == RemoveAnswer(v.WritableStatus(), old(v.fs), ci, name)
    ensures st == Ok ==>
      && HoldsCatalog(old(v.fs), ci) && StepOn(old(v.fs), v.fs, v.geo, ci)
      && Tidy(Cat(v.fs, ci)) && name in Dir(old(v.fs), ci) && Dir(v.fs, ci) == Dir(old(v.fs), ci) - {name}
      && Struck(Cat(old(v.fs), ci), Cat(v.fs, ci), name)
    ensures st != Ok ==> v.fs == old(v.fs)
  {
    st := NameRefusal(name);
    if st != Ok {
      return;
    }
    st := v.WritableStatus();
    if st != Ok {
      return;
    }
    var cinode;
    st, cinode := CatalogRead(v, ci);
    if st != Ok {
      return;
    }
    OpenTidy(v.fs, ci);
    st := RemoveFrom(v, ci, cinode, name);
  }

  method RemoveFrom(v: Volume, ci: u32, cinode: Inode, name: seq<byte>) returns (st: Status)
    requires v.Valid() && Holds(v.fs, ci) && v.fs.table[ci] == cinode && Backed(v.fs, v.geo, cinode)
    requires MapKept(v.fs.data, v.geo, cinode)
    requires Tidy(Cat(v.fs, ci))
    modifies v`blocks, v`fs
    ensures Head(v.blocks) == Head(old(v.blocks))
    ensures v.Valid() && v.fs.table == old(v.fs.table) && v.fs.used == old(v.fs.used)
    ensures v.healthy ==> st == if name in Dir(old(v.fs), ci) then Ok else NotFound
    ensures st == Ok ==>
      && StepOn(old(v.fs), v.fs, v.geo, ci)
      && Tidy(Cat(v.fs, ci)) && name in Dir(old(v.fs), ci) && Dir(v.fs, ci) == Dir(old(v.fs), ci) - {name}
      && Struck(Cat(old(v.fs), ci), Cat(v.fs, ci), name)
    ensures st != Ok ==> v.fs == old(v.fs)
  {
    ghost var es := Cat(v.fs, ci);
    var k, e, b, buf;
    st, k, e, b, buf := FindEntry(v, cinode, name, false);
    if st == Ok {
      var slots := ParseSlots(buf);
      var dead := Killed(slots[e]);
      AnsweringDies(es, 16 * k + e, name, dead);
      st := WriteSlotBack(v, ci, k, e, b, buf, dead);
    } else if st == NotFound {
      NoneAnswersDir(es, name, false);
    }
  }

  lemma AnsweringDies(es: seq<Entry>, s: nat, name: seq<byte>, dead: Entry)
    requires Tidy(es) && s < |es| && Answers(es[s], name, false) && !Live(dead) && dead.checksum == EntryCrc(dead)
    requires dead == es[s].(entryType := MarkDeleted(es[s].entryType), checksum := dead.checksum)
    ensures name in DirOf(es) && Tidy(es[s := dead]) && DirOf(es[s := dead]) == DirOf(es) - {name}
    ensures Struck(es, es[s := dead], name)
  {
    FoundIsBound(es, s, name, false);
    AnswersName(es[s], name, false);
    DirKill(es, s, dead);
    StruckSlot(es, s, dead, name);
  }

  // ---- insertion ----

  /** A new entry, sealed. */
  method MakeEntry(target: u32, t: byte, name: seq<byte>) returns (r: Entry)
    requires 0 < |name| < 128 && Creatable(t) && Sutf8.Valid(name)
    ensures Live(r) && SoundEntry(r) && NameOf(r) == name && r.inode == target && r.entryType == t
    ensures Bears(r, name, target, t)
  {
    var e := EntryRecord(target, t, |name|, NameField(name), Zeros(118), 0);
    assert Lifted(Record, 0);
    SealEntryVerifies(e);
    r := SealEntry(e);
    assert NameOf(r) == name;
    assert r == e.(checksum := r.checksum);
  }

  ghost function InsertRefusal(writable: Status, name: seq<byte>, t: byte): Status {
    if NameRefusal(name) != Ok then NameRefusal(name)
    else if !Creatable(t) then InvalidParam
    else if !Sutf8.Valid(name) then InvalidParam
    else writable
  }

  ghost function InsertAnswer(writable: Status, fs: FS, ci: u32, name: seq<byte>, t: byte, free: nat): Status {
    if InsertRefusal(writable, name, t) != Ok then InsertRefusal(writable, name, t)
    else if CatalogRefusal(fs, ci) != Ok then CatalogRefusal(fs, ci)
    else if name in Dir(fs, ci) then AlreadyExists
    else RoomAnswer(|Dir(fs, ci)|, fs.table[ci].blockCount, free)
  }

  /** A catalog of `blocks` blocks with this many names has no vacant slot. */
  predicate Full(names: nat, blocks: nat) {
    names == 16 * blocks
  }

  /** Whether there is a vacant slot, or room for one more block. */
  function RoomAnswer(names: nat, blocks: nat, free: nat): Status {
    if Full(names, blocks) && (blocks == 1034 || Need(blocks) > free) then CatalogFull else Ok
  }

  /** How many blocks one more name takes. */
  function EntryCost(names: nat, blocks: nat): nat {
    if Full(names, blocks) then Need(blocks) else 0
  }

  lemma FullIsAllLive(fs: FS, ci: nat)
    requires ci < |fs.table| && Tidy(Cat(fs, ci))
    ensures AllLive(Cat(fs, ci)) <==> Full(|Dir(fs, ci)|, fs.table[ci].blockCount)
  {
    DirSize(Cat(fs, ci));
  }

  method InsertTests(v: Volume, name: seq<byte>, t: byte) returns (st: Status)
    ensures st == InsertRefusal(v.WritableStatus(), name, t)
  {
    st := NameRefusal(name);
    if st != Ok {
      return;
    }
    if t != ENTRY_FILE && t != ENTRY_CATALOG {
      return InvalidParam;
    }
    var sound := Sutf8.Validate(name);
    if !sound {
      return InvalidParam;
    }
    st := v.WritableStatus();
  }

  /** One more block of slots. */
  lemma {:induction false} EntriesGrow(data: seq<Block>, ino: Inode, data': seq<Block>, ino': Inode, n: nat)
    requires forall k: nat :: k < n ==> BlockOf(data', ino', k) == BlockOf(data, ino, k)
    ensures Entries(data', ino', n + 1) == Entries(data, ino, n) + SlotsOf(BlockOf(data', ino', n))
  {
    EntriesSame(data, ino, data', ino', n);
  }

  /**
   Growing a catalog by a block holding `buf` is a step on it, and appends the block's slots once the
   inode is stored.
   */
  lemma GrowthStep(fs: FS, mid: FS, fs': FS, g: Geometry, ci: nat, grown: Inode, stored: Inode, b: u32, buf: Block)
    requires Laid(g) && Holds(fs, ci) && Backed(fs, g, fs.table[ci]) && |fs.data| == g.totalBlocks
    requires Grown(fs, mid, g, fs.table[ci], grown, b) && b < |mid.data| && Restamped(grown, stored) && ci < |mid.table|
    requires fs'.used == mid.used && fs'.data == mid.data[b := buf]
    requires fs'.table == mid.table || fs'.table == mid.table[ci := stored]
    ensures StepOn(fs, fs', g, ci)
    ensures fs'.table == mid.table[ci := stored] ==> Cat(fs', ci) == Cat(fs, ci) + SlotsOf(buf)
    ensures fs'.table == mid.table ==> Cat(fs', ci) == Cat(fs, ci)
  {
    var ino := fs.table[ci];
    GrownExtends(fs, mid, g, ino, grown, b);
    ExtendsBacked(fs, mid, g, ino, grown);
    OldSlotsStand(fs, mid, fs', g, ino, grown, b, buf);
    GrownSlots(fs, mid, fs', g, ino, grown, stored, b, buf);
    OwfsFile.WriteIsStep(fs, mid, fs', g, ci, ino, grown, fs'.table == mid.table, stored);
  }

  /** The inode as it was before growing still has the same slots. */
  lemma OldSlotsStand(fs: FS, mid: FS, fs': FS, g: Geometry, ino: Inode, grown: Inode, b: u32, buf: Block)
    requires Laid(g) && Backed(fs, g, ino) && |fs.data| == g.totalBlocks && Grown(fs, mid, g, ino, grown, b)
    requires b < |mid.data|
    requires fs'.used == mid.used && fs'.data == mid.data[b := buf]
    ensures Entries(fs'.data, ino, ino.blockCount) == Entries(fs.data, ino, ino.blockCount)
  {
    assert Lifted(Growth, 0);
    BetweenHas(mid.data, grown, 0, grown.blockCount, b);
    GrownExtends(fs, mid, g, ino, grown, b);
    OwfsFile.OldMapStands(fs, mid, fs', g, ino, grown);
    OpenBacked(fs, g, ino);
    forall k: nat | k < ino.blockCount
      ensures BlockOf(fs'.data, ino, k) == BlockOf(fs.data, ino, k)
    {
      OwnedAt(fs.data, ino, k);
    }
    EntriesSame(fs.data, ino, fs'.data, ino, ino.blockCount);
  }

  lemma GrownSlots(fs: FS, mid: FS, fs': FS, g: Geometry, ino: Inode, grown: Inode, stored: Inode, b: u32, buf: Block)
    requires Backed(fs, g, ino) && |fs.data| == g.totalBlocks
    requires Grown(fs, mid, g, ino, grown, b) && b < |mid.data| && Restamped(grown, stored)
    requires fs'.used == mid.used && fs'.data == mid.data[b := buf]
    ensures OwfsFile.OnlyItsBlocks(mid, fs', grown) && Mapped(fs'.data, g, stored)
    ensures Owned(fs'.data, stored) == Owned(mid.data, grown)
    ensures Entries(fs'.data, stored, stored.blockCount) == Entries(fs.data, ino, ino.blockCount) + SlotsOf(buf)
  {
    assert Lifted(Growth, 0);
    BetweenHas(mid.data, grown, 0, grown.blockCount, b);
    SameMap(mid.data, fs'.data, g, grown);
    StampedMap(fs'.data, g, grown, stored);
    OpenBacked(fs, g, ino);
    forall k: nat | k < ino.blockCount
      ensures BlockOf(fs'.data, stored, k) == BlockOf(fs.data, ino, k)
    {
      OwnedAt(fs.data, ino, k);
      assert BlockAt(fs'.data, stored, k) == BlockAt(fs.data, ino, k);
    }
    EntriesGrow(fs.data, ino, fs'.data, stored, ino.blockCount);
  }

  lemma StampedMap(data: seq<Block>, g: Geometry, ino: Inode, ino': Inode)
    requires Mapped(data, g, ino) && Restamped(ino, ino')
    ensures Mapped(data, g, ino') && Owned(data, ino') == Owned(data, ino)
    ensures forall k: nat :: BlockAt(data, ino', k) == BlockAt(data, ino, k)
  {
    BetweenSame(data, ino, data, ino', 0, ino.blockCount);
  }

  /** When growing fails, nothing that was in use has changed. */
  lemma FailedGrowth(fs: FS, fs': FS, g: Geometry, ci: nat)
    requires Laid(g) && Holds(fs, ci) && Backed(fs, g, fs.table[ci]) && |fs.data| == g.totalBlocks && Unharmed(fs, fs')
    ensures StepOn(fs, fs', g, ci) && Cat(fs', ci) == Cat(fs, ci)
  {
    var ino := fs.table[ci];
    ExtendsSelf(fs, g, ino);
    OwfsFile.WriteIsStep(fs, fs, fs', g, ci, ino, ino, true, ino);
    OwfsFile.OldMapStands(fs, fs, fs', g, ino, ino);
    OpenBacked(fs, g, ino);
    forall k: nat | k < ino.blockCount
      ensures BlockOf(fs'.data, ino, k) == BlockOf(fs.data, ino, k)
    {
      OwnedAt(fs.data, ino, k);
    }
    EntriesSame(fs.data, ino, fs'.data, ino, ino.blockCount);
  }

  /** A block with `entry` in its first slot and nothing else adds one binding. */
  lemma FirstOfBlock(es: seq<Entry>, entry: Entry)
    requires Tidy(es) && Live(entry) && SoundEntry(entry)
    ensures var after := es + SlotsOf(FirstSlot(entry));
            && (Tidy(after) <==> NameOf(entry) !in DirOf(es))
            && (NameOf(entry) !in DirOf(es) ==>
                  DirOf(after) == DirOf(es)[NameOf(entry) := Binding(entry.inode, entry.entryType)])
  {
    ZeroSlots(ZeroBlock());
    SlotsRewrite(ZeroBlock(), 0, entry);
    if NameOf(entry) !in DirOf(es) {
      DirExtend(es, SlotsOf(ZeroBlock()), entry);
    } else {
      DirAmbiguous(es, es + SlotsOf(FirstSlot(entry)), |es|, entry);
    }
  }

  /** A zeroed block with `entry` in its first slot. */
  function FirstSlot(entry: Entry): Block {
    WithSlot(ZeroBlock(), 0, EncodeEntry(entry))
  }

  /** The new entry goes into a fresh block. */
  method GrowCatalog(v: Volume, ci: u32, cinode: Inode, entry: Entry) returns (st: Status)
    requires v.Valid() && v.Writable() && HoldsCatalog(v.fs, ci) && v.fs.table[ci] == cinode
    requires Backed(v.fs, v.geo, cinode) && ci < 4096
    modifies v`blocks, v`freeBlocks, v`fs
    ensures Head(v.blocks) == Head(old(v.blocks))
    ensures v.Valid() && StepOn(old(v.fs), v.fs, v.geo, ci)
    ensures SameButMap(cinode, v.fs.table[ci]) && v.fs.table[ci].size == cinode.size
    ensures st == Ok ==> Cat(v.fs, ci) == Cat(old(v.fs), ci) + SlotsOf(FirstSlot(entry))
    ensures st == Ok ==>
      v.fs.table[ci].blockCount == cinode.blockCount + 1 && Took(old(v.Free()), v.Free(), Need(cinode.blockCount))
    ensures st != Ok ==> v.fs.table == old(v.fs.table) && Cat(v.fs, ci) == Cat(old(v.fs), ci)
    ensures v.healthy ==>
      st == if cinode.blockCount == 1034 || Need(cinode.blockCount) > Room(old(v.Free())) then CatalogFull else Ok
    ensures v.healthy && st != Ok ==>
      Unharmed(old(v.fs), v.fs) && v.fs.used == old(v.fs.used) && v.freeBlocks == old(v.freeBlocks)
  {
    ghost var before := v.fs;
    var b, grown;
    ghost var lost;
    assert cinode.blockCount <= 1034 by { OpenBacked(v.fs, v.geo, cinode); }
    st, b, grown, lost := BlockmapEnsure(v, cinode, cinode.blockCount);
    if st != Ok {
      FailedGrowth(before, v.fs, v.geo, ci);
      return if st == NoFreeBlocks then CatalogFull else st;
    }
    st := FillGrown(v, ci, grown, b, entry, before);
  }

  method FillGrown(v: Volume, ci: u32, grown: Inode, b: u32, entry: Entry, ghost before: FS) returns (st: Status)
    requires v.Valid() && v.Writable() && HoldsCatalog(before, ci) && Backed(before, v.geo, before.table[ci])
    requires ci < 4096 && |before.data| == v.geo.totalBlocks
    requires Grown(before, v.fs, v.geo, before.table[ci], grown, b)
    modifies v`blocks, v`fs
    ensures Head(v.blocks) == Head(old(v.blocks))
    ensures v.Valid() && StepOn(before, v.fs, v.geo, ci)
    ensures SameButMap(before.table[ci], v.fs.table[ci]) && v.fs.table[ci].size == before.table[ci].size
    ensures st == Ok ==> Cat(v.fs, ci) == Cat(before, ci) + SlotsOf(FirstSlot(entry))
    ensures v.fs.used == old(v.fs.used) && (st == Ok ==> v.fs.table[ci].blockCount == before.table[ci].blockCount + 1)
    ensures st != Ok ==> v.fs.table == before.table && Cat(v.fs, ci) == Cat(before, ci)
    ensures v.healthy ==> st == Ok
  {
    ghost var mid := v.fs;
    assert InData(v.geo, b) && mid.table == before.table && mid.data[b] == ZeroBlock()
        && SameButMap(before.table[ci], grown) && grown.size == before.table[ci].size
        && grown.blockCount == before.table[ci].blockCount + 1 by { assert Lifted(Growth, 0); }
    HeldIsKnown(v.blocks, v.geo, v.fs, ci);
    var buf := FirstSlot(entry);
    var hres := WriteData(v, b, buf);
    if hres != HtlOk {
      assert mid.data[b := ZeroBlock()] == mid.data;
      GrowthStep(before, mid, v.fs, v.geo, ci, grown, grown, b, ZeroBlock());
      return WriteStatus(hres);
    }
    var stored;
    st, stored := InodeWrite(v, ci, grown);
    GrowthStep(before, mid, v.fs, v.geo, ci, grown, if st == Ok then stored else grown, b, buf);
  }

  /** Binds `name` to `target`, or says why not. */
  method CatalogInsert(v: Volume, ci: u32, name: seq<byte>, target: u32, t: byte) returns (st: Status)
    requires v.Valid() && Sound(v.fs, v.geo) && AllTidy(v.fs)
    modifies v`blocks, v`freeBlocks, v`fs
    ensures Head(v.blocks) == Head(old(v.blocks))
    ensures v.Valid()
    ensures ci < 4096 ==>
      && StepOn(old(v.fs), v.fs, v.geo, ci) && SameButMap(old(v.fs.table)[ci], v.fs.table[ci])
      && v.fs.table[ci].size == old(v.fs.table)[ci].size
    ensures ci >= 4096 ==> v.fs == old(v.fs)
    ensures v.healthy ==> st == InsertAnswer(v.WritableStatus(), old(v.fs), ci, name, t, Room(old(v.Free())))
    ensures st == Ok ==>
      HoldsCatalog(old(v.fs), ci) && HoldsCatalog(v.fs, ci) && (Tidy(Cat(v.fs, ci)) <==> name !in Dir(old(v.fs), ci))
    ensures st == Ok && name !in Dir(old(v.fs), ci) ==> Dir(v.fs, ci) == Dir(old(v.fs), ci)[name := Binding(target, t)]
    ensures st == Ok ==> Entered(Cat(old(v.fs), ci), Cat(v.fs, ci), name, target, t)
    ensures st == Ok ==>
      var names, n := |Dir(old(v.fs), ci)|, old(v.fs.table)[ci].blockCount;
      v.fs.table[ci].blockCount == n + One(Full(names, n)) && Took(old(v.Free()), v.Free(), EntryCost(names, n))
    ensures v.healthy && st == Ok ==> name !in Dir(old(v.fs), ci)
    ensures st != Ok ==> v.fs.table == old(v.fs.table) && (ci < 4096 ==> Cat(v.fs, ci) == Cat(old(v.fs), ci))
    ensures v.healthy && st != Ok ==>
      Unharmed(old(v.fs), v.fs) && v.fs.used == old(v.fs.used) && v.freeBlocks == old(v.freeBlocks)
  {
    if ci < 4096 {
      StepSelf(v.fs, v.geo, ci);
    }
    st := InsertTests(v, name, t);
    if st != Ok {
      return;
    }
    var found, existing := CatalogLookup(v, ci, name);
    if found == Ok {
      return AlreadyExists;
    }
    st := AddEntry(v, ci, name, target, t);
  }

  /** The part after the lookup. */
  method AddEntry(v: Volume, ci: u32, name: seq<byte>, target: u32, t: byte) returns (st: Status)
    requires v.Valid() && Sound(v.fs, v.geo) && AllTidy(v.fs) && v.Writable() && 0 < |name| < 128 && Creatable(t)
    requires Sutf8.Valid(name)
    modifies v`blocks, v`freeBlocks, v`fs
    ensures Head(v.blocks) == Head(old(v.blocks))
    ensures v.Valid()
    ensures ci < 4096 ==>
      && StepOn(old(v.fs), v.fs, v.geo, ci) && SameButMap(old(v.fs.table)[ci], v.fs.table[ci])
      && v.fs.table[ci].size == old(v.fs.table)[ci].size
    ensures ci >= 4096 ==> v.fs == old(v.fs)
    ensures v.healthy ==>
      st == if CatalogRefusal(old(v.fs), ci) != Ok then CatalogRefusal(old(v.fs), ci)
          else RoomAnswer(|Dir(old(v.fs), ci)|, old(v.fs.table)[ci].blockCount, Room(old(v.Free())))
    ensures st == Ok ==>
      HoldsCatalog(old(v.fs), ci) && HoldsCatalog(v.fs, ci) && (Tidy(Cat(v.fs, ci)) <==> name !in Dir(old(v.fs), ci))
    ensures st == Ok && name !in Dir(old(v.fs), ci) ==> Dir(v.fs, ci) == Dir(old(v.fs), ci)[name := Binding(target, t)]
    ensures st == Ok ==> Entered(Cat(old(v.fs), ci), Cat(v.fs, ci), name, target, t)
    ensures st == Ok ==>
      var names, n := |Dir(old(v.fs), ci)|, old(v.fs.table)[ci].blockCount;
      v.fs.table[ci].blockCount == n + One(Full(names, n)) && Took(old(v.Free()), v.Free(), EntryCost(names, n))
    ensures st != Ok ==> v.fs.table == old(v.fs.table) && (ci < 4096 ==> Cat(v.fs, ci) == Cat(old(v.fs), ci))
    ensures v.healthy && st != Ok ==>
      Unharmed(old(v.fs), v.fs) && v.fs.used == old(v.fs.used) && v.freeBlocks == old(v.freeBlocks)
  {
    if ci < 4096 {
      StepSelf(v.fs, v.geo, ci);
    }
    var cinode;
    st, cinode := CatalogRead(v, ci);
    if st != Ok {
      return;
    }
    var entry := MakeEntry(target, t, name);
    OpenTidy(v.fs, ci);
    st := PlaceEntry(v, ci, cinode, entry, name);
  }

  /** The first vacant slot, or a new block. */
  method PlaceEntry(v: Volume, ci: u32, cinode: Inode, entry: Entry, ghost name: seq<byte>) returns (st: Status)
    requires Bears(entry, name, entry.inode, entry.entryType)
    requires v.Valid() && v.Writable() && HoldsCatalog(v.fs, ci) && v.fs.table[ci] == cinode
    requires Backed(v.fs, v.geo, cinode) && MapKept(v.fs.data, v.geo, cinode) && ci < 4096
    requires Tidy(Cat(v.fs, ci)) && Live(entry) && SoundEntry(entry)
    requires StepOn(v.fs, v.fs, v.geo, ci)
    modifies v`blocks, v`freeBlocks, v`fs
    ensures Head(v.blocks) == Head(old(v.blocks))
    ensures v.Valid() && StepOn(old(v.fs), v.fs, v.geo, ci)
    ensures SameButMap(cinode, v.fs.table[ci]) && v.fs.table[ci].size == cinode.size
    ensures st == Ok ==> (Tidy(Cat(v.fs, ci)) <==> NameOf(entry) !in Dir(old(v.fs), ci))
    ensures st == Ok && NameOf(entry) !in Dir(old(v.fs), ci) ==>
      Dir(v.fs, ci) == Dir(old(v.fs), ci)[NameOf(entry) := Binding(entry.inode, entry.entryType)]
    ensures st == Ok ==> Entered(Cat(old(v.fs), ci), Cat(v.fs, ci), name, entry.inode, entry.entryType)
    ensures v.healthy ==> st == RoomAnswer(|Dir(old(v.fs), ci)|, cinode.blockCount, Room(old(v.Free())))
    ensures st == Ok ==>
      && v.fs.table[ci].blockCount == cinode.blockCount + One(Full(|Dir(old(v.fs), ci)|, cinode.blockCount))
      && Took(old(v.Free()), v.Free(), EntryCost(|Dir(old(v.fs), ci)|, cinode.blockCount))
    ensures st != Ok ==> v.fs.table == old(v.fs.table) && Cat(v.fs, ci) == Cat(old(v.fs), ci)
    ensures v.healthy && st != Ok ==>
      Unharmed(old(v.fs), v.fs) && v.fs.used == old(v.fs.used) && v.freeBlocks == old(v.freeBlocks)
  {
    ghost var es := Cat(v.fs, ci);
    var k, e, b, buf;
    FullIsAllLive(v.fs, ci);
    st, k, e, b, buf := FindVacant(v, cinode);
    if st == Ok {
      VacantFilled(es, 16 * k + e, entry, name);
      st := WriteSlotBack(v, ci, k, e, b, buf, entry);
    } else if st == NotFound {
      FirstOfBlock(es, entry);
      FurtherBlock(es, entry, name);
      st := GrowCatalog(v, ci, cinode, entry);
    }
  }

  /** The record goes first in the further block. */
  lemma FurtherBlock(es: seq<Entry>, entry: Entry, name: seq<byte>)
    requires AllLive(es) && Bears(entry, name, entry.inode, entry.entryType)
    ensures Entered(es, es + SlotsOf(FirstSlot(entry)), name, entry.inode, entry.entryType)
  {
    ZeroSlots(ZeroBlock());
    SlotsRewrite(ZeroBlock(), 0, entry);
    EnteredFurther(es, SlotsOf(FirstSlot(entry)), name, entry.inode, entry.entryType);
  }

  lemma VacantFilled(es: seq<Entry>, s: nat, entry: Entry, name: seq<byte>)
    requires Tidy(es) && s < |es| && !Live(es[s]) && Live(entry) && SoundEntry(entry) && AllLive(es[..s])
    requires Bears(entry, name, entry.inode, entry.entryType)
    ensures !AllLive(es) && Entered(es, es[s := entry], name, entry.inode, entry.entryType)
    ensures Tidy(es[s := entry]) <==> NameOf(entry) !in DirOf(es)
    ensures NameOf(entry) !in DirOf(es) ==>
      DirOf(es[s := entry]) == DirOf(es)[NameOf(entry) := Binding(entry.inode, entry.entryType)]
  {
    FilledFirst(es, s, entry, name);
    if NameOf(entry) !in DirOf(es) {
      DirFill(es, s, entry);
    } else {
      DirAmbiguous(es, es[s := entry], s, entry);
    }
  }

  lemma FilledFirst(es: seq<Entry>, s: nat, entry: Entry, name: seq<byte>)
    requires s < |es| && !Live(es[s]) && AllLive(es[..s]) && Bears(entry, name, entry.inode, entry.entryType)
    ensures Entered(es, es[s := entry], name, entry.inode, entry.entryType)
  {
    forall r | 0 <= r < s
      ensures Live(es[r])
    {
      assert es[..s][r] == es[r];
    }
    EnteredVacant(es, s, entry, name, entry.inode, entry.entryType);
  }

  // ---- listing ----

  /** Lists the live entries in slot order, as many as there is room for. */
  method CatalogList(v: Volume, ci: u32, max: u32) returns (st: Status, out: seq<Entry>)
    requires v.Valid() && Sound(v.fs, v.geo) && AllTidy(v.fs)
    ensures v.healthy ==> st == if max == 0 then InvalidParam else CatalogRefusal(v.fs, ci)
    ensures st == Ok ==> HoldsCatalog(v.fs, ci) && Tidy(Cat(v.fs, ci)) && out == Take(LiveOnes(Cat(v.fs, ci)), max)
  {
    out := [];
    if max == 0 {
      return InvalidParam, [];
    }
    var cinode;
    st, cinode := CatalogRead(v, ci);
    if st != Ok {
      return;
    }
    OpenTidy(v.fs, ci);
    st, out := ListBlocks(v, cinode, max);
  }

  lemma BlockIsSound(data: seq<Block>, ino: Inode, k: nat)
    requires k < ino.blockCount && Tidy(Entries(data, ino, ino.blockCount))
    ensures forall s :: 0 <= s < 16 && Live(SlotsOf(BlockOf(data, ino, k))[s]) ==>
      SoundEntry(SlotsOf(BlockOf(data, ino, k))[s])
  {
    forall s | 0 <= s < 16 && Live(SlotsOf(BlockOf(data, ino, k))[s])
      ensures SoundEntry(SlotsOf(BlockOf(data, ino, k))[s])
    {
      EntriesAt(data, ino, ino.blockCount, k, s);
    }
  }

  lemma NoneListed(data: seq<Block>, ino: Inode, max: nat)
    ensures Take(LiveOnes(Entries(data, ino, 0)), max) == []
  {
  }

  method ListBlocks(v: Volume, ino: Inode, max: u32) returns (st: Status, out: seq<Entry>)
    requires v.Valid() && MapKept(v.fs.data, v.geo, ino) && Tidy(Entries(v.fs.data, ino, ino.blockCount))
    ensures st == Ok ==> out == Take(LiveOnes(Entries(v.fs.data, ino, ino.blockCount)), max)
    ensures v.healthy ==> st == Ok
  {
    out := [];
    NoneListed(v.fs.data, ino, max);
    var k := 0;
    while k < ino.blockCount
      invariant 0 <= k <= ino.blockCount
      invariant out == Take(LiveOnes(Entries(v.fs.data, ino, k)), max)
    {
      st, out := ListBlock(v, ino, k, out, max);
      if st != Ok {
        return;
      }
      k := k + 1;
    }
    st := Ok;
  }

  method ListBlock(v: Volume, ino: Inode, k: u32, out: seq<Entry>, max: u32) returns (st: Status, out': seq<Entry>)
    requires v.Valid() && MapKept(v.fs.data, v.geo, ino) && Tidy(Entries(v.fs.data, ino, ino.blockCount))
    requires k < ino.blockCount && out == Take(LiveOnes(Entries(v.fs.data, ino, k)), max)
    ensures st == Ok ==> out' == Take(LiveOnes(Entries(v.fs.data, ino, k + 1)), max)
    ensures v.healthy ==> st == Ok
  {
    out' := out;
    var b, buf;
    st, b, buf := ReadCatalogBlock(v, ino, k);
    if st == Ok {
      BlockIsSound(v.fs.data, ino, k);
      var slots := ParseSlots(buf);
      out' := ListSlots(slots, out, max);
      ListStep(Entries(v.fs.data, ino, k), SlotsOf(buf), max);
    }
  }

  lemma ListStep(a: seq<Entry>, b: seq<Entry>, max: nat)
    ensures Take(Take(LiveOnes(a), max) + LiveOnes(b), max) == Take(LiveOnes(a + b), max)
  {
    LiveOnesConcat(a, b);
    TakeMore(LiveOnes(a), LiveOnes(b), max);
  }

  /** With enough room, the listing is exactly what lookup finds. */
  lemma ListFindsAll(fs: FS, ci: nat, max: nat)
    requires ci < |fs.table| && Tidy(Cat(fs, ci)) && |LiveOnes(Cat(fs, ci))| <= max
    ensures var out := Take(LiveOnes(Cat(fs, ci)), max);
            && (forall e :: e in out ==>
                  NameOf(e) in Dir(fs, ci) && Dir(fs, ci)[NameOf(e)] == Binding(e.inode, e.entryType))
            && (forall name :: name in Dir(fs, ci) ==> exists e :: e in out && NameOf(e) == name)
            && (forall s, t :: 0 <= s < t < |out| ==> NameOf(out[s]) != NameOf(out[t]))
  {
    ListIsDir(Cat(fs, ci));
  }

  // ---- the catalogs of the whole volume ----

  /** A step on inode `i` that leaves `i` in order leaves the whole volume in order. */
  lemma StepGood(fs: FS, fs': FS, g: Geometry, i: nat)
    requires Sound(fs, g) && AllTidy(fs) && StepOn(fs, fs', g, i) && (HoldsCatalog(fs', i) ==> Tidy(Cat(fs', i)))
    ensures Sound(fs', g) && AllTidy(fs')
  {
    StepConfined(fs, fs', g, i);
    StepKeepsSound(fs, fs', g, i);
    StepKeepsTidy(fs, fs', g, i);
  }

  lemma EmptyIsTidy(fs: FS, i: nat)
    requires i < |fs.table| && Empty(fs.table[i])
    ensures Tidy(Cat(fs, i)) && OwnedBy(fs, i) == {}
  {
  }
}
