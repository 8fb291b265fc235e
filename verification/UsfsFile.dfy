/**
 USFS files: contiguous runs that move, and are encrypted anew, when they grow.
 */
module UsfsFile {
  import opened Words
  import opened Veils
  import opened Splice
  import opened Ranges
  import opened Bitmap
  import opened Ciphers
  import opened UsfsTypes
  import opened UsfsVolume
  import opened UsfsBitmap
  import opened UsfsContent

  /** The keystream applies when both the volume and the entry are marked encrypted. */
  ghost function CipherFor(security: nat, key: seq<byte>, nonce: seq<byte>, e: Entry): Cipher
    requires |key| == 32 && |nonce| == 12
  {
    CipherOf(Encrypted(security) && Encrypted(e.security), key, nonce)
  }

  /** What every operation keeps on a device that does not fail. */
  ghost predicate InOrder(v: Volume)
    reads v
  {
    v.Valid() && Exact(v.plan, v.table, v.used)
  }

  method EntryXform(v: Volume, e: Entry, buf: Block, b: u32) returns (r: Block)
    requires v.Shaped()
    ensures r == Xform(CipherFor(v.security, v.key, v.nonce, e), b, buf)
  {
    r := CryptoXform(Encrypted(v.security) && Encrypted(e.security), v.key, v.nonce, buf, b);
  }

  /** Stores the changed entry; the bytes of its run are not touched. */
  method StoreEntry(v: Volume, i: u32, e: Entry, ghost c: Cipher) returns (st: Status)
    requires v.Shaped() && i < 256 && WellFormed(v.plan, e)
    requires v.healthy ==> v.Valid() && v.Writable() && Exact(v.plan, v.table[i := e], v.used)
    modifies v`blocks, v`table
    ensures v.Shaped() && OutsideKept(old(v.blocks), v.blocks, v.plan) && v.table == old(v.table)[i := v.table[i]]
    ensures Plain(c, v.blocks, e) == Plain(c, old(v.blocks), e)
    ensures v.healthy ==> st == Ok && InOrder(v) && v.table == old(v.table)[i := e]
  {
    st := v.EntryWrite(i, e);
    OutsideKeepsPlain(c, v.plan, old(v.blocks), v.blocks, e);
  }

  // ---- moving a file ----

  /**
   The first `done` blocks have been copied from one run to another, under the new block numbers; the
   rest of the old run is as it was.
   */
  ghost predicate Copied(c: Cipher, before: seq<Block>, blocks: seq<Block>, p: Plan, from: nat, to: nat, done: nat) {
    var r: bool :| forall k {:trigger Lifted(Copying, k)} :: Lifted(Copying, k) ==>
      (r <==> CopiedInFull(c, before, blocks, p, from, to, done));
    r
  }

  lemma OpenCopied(c: Cipher, before: seq<Block>, blocks: seq<Block>, p: Plan, from: nat, to: nat, done: nat)
    ensures Copied(c, before, blocks, p, from, to, done) <==> CopiedInFull(c, before, blocks, p, from, to, done)
  {
    assert Lifted(Copying, 0);
  }

  ghost predicate CopiedInFull(c: Cipher, before: seq<Block>, blocks: seq<Block>, p: Plan, from: nat, to: nat,
      done: nat) {
    && |blocks| == |before|
    && (forall k: nat :: k < done ==> ViewAt(c, blocks, to, k) == ViewAt(c, before, from, k))
    && OnlyRun(before, blocks, p, to, done)
  }

  lemma CopyStart(c: Cipher, before: seq<Block>, blocks: seq<Block>, p: Plan, from: nat, to: nat)
    requires OutsideKept(before, blocks, p)
    ensures Copied(c, before, blocks, p, from, to, 0)
  {
    OpenOnlyRun(before, blocks, p, 0, 0);
    OpenOnlyRun(before, blocks, p, to, 0);
    OpenCopied(c, before, blocks, p, from, to, 0);
  }

  lemma CopyStep(c: Cipher, before: seq<Block>, blocks: seq<Block>, p: Plan, from: nat, to: nat, done: nat, count: nat,
      blocks': seq<Block>)
    requires Copied(c, before, blocks, p, from, to, done) && done < count
    requires p.dataStart <= from && from + count <= |blocks| && p.dataStart <= to && to + count <= |blocks|
    requires from + count <= to || to + count <= from
    requires blocks' == blocks[to + done := Recrypted(c, blocks, from + done, to + done)]
    ensures Copied(c, before, blocks', p, from, to, done + 1)
  {
    assert Lifted(Copying, 0);
    OpenOnlyRun(before, blocks, p, to, done);
    OpenOnlyRun(before, blocks', p, to, done + 1);
    XformInvolution(c, to + done, Xform(c, from + done, blocks[from + done]));
    forall k: nat | k < done + 1
      ensures ViewAt(c, blocks', to, k) == ViewAt(c, before, from, k)
    {
      if k < done {
        assert ViewAt(c, blocks', to, k) == ViewAt(c, blocks, to, k);
      }
    }
  }

  lemma CopyEnd(c: Cipher, before: seq<Block>, blocks: seq<Block>, p: Plan, from: nat, to: nat, count: nat)
    requires Copied(c, before, blocks, p, from, to, count)
    ensures |blocks| == |before| && Views(c, blocks, to, count) == Views(c, before, from, count)
    ensures OnlyRun(before, blocks, p, to, count)
  {
    OpenCopied(c, before, blocks, p, from, to, count);
    ViewsSame(c, before, from, blocks, to, count);
  }

  /** The file's old blocks read the same in its new run, and no data block outside the new run has changed. */
  ghost predicate Moved(c: Cipher, before: seq<Block>, blocks: seq<Block>, p: Plan, e: Entry, e': Entry) {
    var r: bool :| forall k {:trigger Lifted(Moving, k)} :: Lifted(Moving, k) ==>
      (r <==> MovedInFull(c, before, blocks, p, e, e'));
    r
  }

  ghost predicate MovedInFull(c: Cipher, before: seq<Block>, blocks: seq<Block>, p: Plan, e: Entry, e': Entry) {
    && e.blockCount <= e'.blockCount
    && Plain(c, blocks, e')[..4096 * e.blockCount] == Plain(c, before, e)
    && OnlyRun(before, blocks, p, e'.first, e'.blockCount)
  }

  lemma OpenMoved(c: Cipher, before: seq<Block>, blocks: seq<Block>, p: Plan, e: Entry, e': Entry)
    ensures Moved(c, before, blocks, p, e, e') <==> MovedInFull(c, before, blocks, p, e, e')
  {
    assert Lifted(Moving, 0);
  }

  /** What became of the rest of the device does not matter. */
  lemma MovedAside(c: Cipher, before: seq<Block>, mid: seq<Block>, blocks: seq<Block>, p: Plan, e: Entry, e': Entry)
    requires Moved(c, before, mid, p, e, e') && OutsideKept(mid, blocks, p) && Plain(c, blocks, e') == Plain(c, mid, e')
    ensures Moved(c, before, blocks, p, e, e')
  {
    OpenMoved(c, before, mid, p, e, e');
    OnlyThen(before, mid, blocks, p, e'.first, e'.blockCount, e'.first, e'.blockCount, 0, 0);
    OpenMoved(c, before, blocks, p, e, e');
  }

  /** Copies a run, decrypting each block under its old number and encrypting it under its new one. */
  method CopyRun(v: Volume, e: Entry, from: u32, to: u32, count: u32, ghost before: seq<Block>) returns (st: Status)
    requires v.Shaped() && OutsideKept(before, v.blocks, v.plan)
    requires count > 0 ==> v.plan.dataStart <= from && from + count <= v.plan.total
    requires v.plan.dataStart <= to && to + count <= v.plan.total
    requires v.healthy ==> count == 0 || from + count <= to || to + count <= from
    modifies v`blocks
    ensures v.Shaped()
    ensures OnlyRun(before, v.blocks, v.plan, to, count)
    ensures v.healthy ==>
      st == Ok && Copied(CipherFor(v.security, v.key, v.nonce, e), before, v.blocks, v.plan, from, to, count)
    ensures v.healthy && old(v.Valid()) ==> v.Valid()
  {
    ghost var c := CipherFor(v.security, v.key, v.nonce, e);
    CopyStart(c, before, v.blocks, v.plan, from, to);
    OnlyMore(before, v.blocks, v.plan, to, count, 0, 0);
    var i := 0;
    while i < count
      invariant 0 <= i <= count && v.Shaped() && OnlyRun(before, v.blocks, v.plan, to, count)
      invariant v.healthy ==> Copied(c, before, v.blocks, v.plan, from, to, i)
      invariant v.healthy && old(v.Valid()) ==> v.Valid()
    {
      st := CopyOne(v, e, from, to, i, count, before);
      if st != Ok {
        return;
      }
      i := i + 1;
    }
    st := Ok;
  }

  method CopyOne(v: Volume, e: Entry, from: u32, to: u32, i: u32, ghost count: u32, ghost before: seq<Block>)
      returns (st: Status)
    requires v.Shaped() && i < count
    requires v.plan.dataStart <= from && from + count <= v.plan.total && v.plan.dataStart <= to
    requires to + count <= v.plan.total
    requires v.healthy ==> from + count <= to || to + count <= from
    requires v.healthy ==> Copied(CipherFor(v.security, v.key, v.nonce, e), before, v.blocks, v.plan, from, to, i)
    requires OnlyRun(before, v.blocks, v.plan, to, count)
    modifies v`blocks
    ensures v.Shaped() && OnlyRun(before, v.blocks, v.plan, to, count)
    ensures v.healthy ==>
      st == Ok && Copied(CipherFor(v.security, v.key, v.nonce, e), before, v.blocks, v.plan, from, to, i + 1)
    ensures v.healthy && old(v.Valid()) ==> v.Valid()
  {
    ghost var blocks := v.blocks;
    st := CopyBlock(v, e, from + i, to + i);
    if st == Ok {
      OnlyAgain(before, blocks, v.plan, to, count, to + i, v.blocks[to + i]);
      if v.healthy {
        CopyStep(CipherFor(v.security, v.key, v.nonce, e), before, blocks, v.plan, from, to, i, count, v.blocks);
      }
    }
  }

  /** Block `a` as block `b` holds it: decrypted under its own number and encrypted under the other. */
  ghost function Recrypted(c: Cipher, blocks: seq<Block>, a: nat, b: nat): Block
    requires a < |blocks|
  {
    Xform(c, b, Xform(c, a, blocks[a]))
  }

  method CopyBlock(v: Volume, e: Entry, a: u32, b: u32) returns (st: Status)
    requires v.Shaped() && v.plan.dataStart <= a < v.plan.total && v.plan.dataStart <= b < v.plan.total
    modifies v`blocks
    ensures v.Shaped() && (st != Ok ==> v.blocks == old(v.blocks))
    ensures st == Ok ==>
      v.blocks == old(v.blocks)[b := Recrypted(CipherFor(v.security, v.key, v.nonce, e), old(v.blocks), a, b)]
    ensures v.healthy ==> st == Ok
    ensures v.healthy && old(v.Valid()) ==> v.Valid()
  {
    var hres, buf := v.ReadBlock(a);
    if hres != HtlOk {
      return IoError;
    }
    buf := EntryXform(v, e, buf, a);
    buf := EntryXform(v, e, buf, b);
    hres := v.WriteBlock(b, buf);
    if hres != HtlOk {
      return WriteStatus(hres);
    }
    if v.healthy && old(v.Valid()) {
      DataWriteKeepsBits(old(v.blocks), v.plan, v.used, b, buf);
    }
    return Ok;
  }

  /** The new run, the accounting, and what stays. */
  ghost predicate Rewrote(v: Volume, e: Entry, e': Entry, i: nat, table: seq<Entry>, used: set<nat>, before: seq<Block>)
    reads v
  {
    var r: bool :| forall k {:trigger Lifted(Replacing, k)} :: Lifted(Replacing, k) ==>
      (r <==> RewroteInFull(v, e, e', i, table, used, before));
    r
  }

  lemma OpenRewrote(v: Volume, e: Entry, e': Entry, i: nat, table: seq<Entry>, used: set<nat>, before: seq<Block>)
    ensures Rewrote(v, e, e', i, table, used, before) <==> RewroteInFull(v, e, e', i, table, used, before)
  {
    assert Lifted(Replacing, 0);
  }

  lemma RewroteEntry(v: Volume, e: Entry, e': Entry, i: nat, table: seq<Entry>, used: set<nat>, before: seq<Block>)
    requires Rewrote(v, e, e', i, table, used, before)
    ensures i < |table| && v.table == table[i := e']
    ensures e' == e.(first := e'.first, blockCount := e'.blockCount, size := e'.size)
    ensures Placed(v.plan, used, e, e')
  {
    OpenRewrote(v, e, e', i, table, used, before);
  }

  /** A file that has more blocks than before lies in the first free run as long; any other has not moved. */
  ghost predicate Placed(p: Plan, used: set<nat>, e: Entry, e': Entry) {
    if e'.blockCount > e.blockCount then FirstFree(p, used, e'.first, e'.blockCount) else e'.first == e.first
  }

  ghost predicate RewroteInFull(v: Volume, e: Entry, e': Entry, i: nat, table: seq<Entry>, used: set<nat>,
      before: seq<Block>)
    reads v
  {
    && i < |table| && v.table == table[i := e']
    && e' == e.(first := e'.first, blockCount := e'.blockCount, size := e'.size) && Placed(v.plan, used, e, e')
    && v.used == (used - RunOf(e)) + RunOf(e')
    && OnlyRun(before, v.blocks, v.plan, e'.first, e'.blockCount)
  }

  /** What growing leaves behind, moved or not. */
  ghost predicate Grew(v: Volume, e: Entry, grown: Entry, i: nat, table: seq<Entry>, used: set<nat>, before: seq<Block>)
    reads v
    requires v.Shaped()
  {
    Rewrote(v, e, grown, i, table, used, before) && Moved(CipherFor(v.security, v.key, v.nonce, e), before, v.blocks,
        v.plan, e, grown)
  }

  lemma StaysPut(v: Volume, e: Entry, i: nat)
    requires InOrder(v) && i < |v.table| && v.table[i] == e
    ensures Grew(v, e, e, i, v.table, v.used, v.blocks)
  {
    ExactAt(v.plan, v.table, v.used, i);
    assert (v.used - RunOf(e)) + RunOf(e) == v.used;
    OpenOnlyRun(v.blocks, v.blocks, v.plan, e.first, e.blockCount);
    OpenRewrote(v, e, e, i, v.table, v.used, v.blocks);
    ghost var was := Plain(CipherFor(v.security, v.key, v.nonce, e), v.blocks, e);
    assert was[..4096 * e.blockCount] == was;
    OpenMoved(CipherFor(v.security, v.key, v.nonce, e), v.blocks, v.blocks, v.plan, e, e);
  }

  /** Every block of `e'` is one of `e` or was free by its bit. */
  ghost predicate OwnOrFree(before: seq<Block>, p: Plan, e: Entry, e': Entry) {
    var r: bool :| forall k {:trigger Lifted(Keeping, k)} :: Lifted(Keeping, k) ==>
      (r <==> OwnOrFreeInFull(before, p, e, e'));
    r
  }

  ghost predicate OwnOrFreeInFull(before: seq<Block>, p: Plan, e: Entry, e': Entry) {
    forall b: nat :: e'.first <= b < e'.first + e'.blockCount ==> MayChange(before, p, RunOf(e), b)
  }

  lemma OpenOwnOrFree(before: seq<Block>, p: Plan, e: Entry, e': Entry)
    ensures OwnOrFree(before, p, e, e') <==> OwnOrFreeInFull(before, p, e, e')
  {
    assert Lifted(Keeping, 0);
  }

  lemma KeepsOwn(before: seq<Block>, mid: seq<Block>, blocks: seq<Block>, p: Plan, e: Entry, e': Entry)
    requires KeepsMarked(before, mid, p, {}) && OwnOrFree(before, p, e, e')
    requires OnlyRun(mid, blocks, p, e'.first, e'.blockCount)
    ensures KeepsMarked(before, blocks, p, RunOf(e))
  {
    KeepsMore(before, mid, p, {}, RunOf(e));
    OpenOwnOrFree(before, p, e, e');
    KeepsRun(before, mid, blocks, p, RunOf(e), e'.first, e'.blockCount);
  }

  /** A run of clear bits was free. */
  lemma KeepsFree(before: seq<Block>, blocks: seq<Block>, p: Plan, e: Entry, e': Entry)
    requires OnlyRun(before, blocks, p, e'.first, e'.blockCount)
    requires p.dataStart <= e'.first && e'.first + e'.blockCount <= p.total
    requires ClearRun(before, e'.first - p.dataStart, e'.blockCount)
    ensures KeepsMarked(before, blocks, p, {}) && OwnOrFree(before, p, e, e')
  {
    forall b: nat | e'.first <= b < e'.first + e'.blockCount
      ensures MayChange(before, p, {}, b)
    {
      assert !Marked(before, b - p.dataStart);
    }
    KeepsSelf(before, p, {});
    KeepsRun(before, before, blocks, p, {}, e'.first, e'.blockCount);
    OpenOwnOrFree(before, p, e, e');
  }

  /** The file has `need` blocks, or there is a free run as long. */
  ghost predicate HasRoom(p: Plan, used: set<nat>, e: Entry, need: nat) {
    e.blockCount >= need || exists f: nat :: FreeRun(p, used, f, need)
  }

  /**
   Makes room for `need` blocks by moving the file to a longer run.  All old blocks
   read the same, although they are elsewhere and encrypted under other numbers.
   Whatever device calls fail, no block that was marked used has changed.
   */
  method GrowFile(v: Volume, e: Entry, i: u32, need: u32) returns (st: Status, e': Entry)
    requires v.Shaped() && i < 256 && (v.healthy ==> InOrder(v) && v.table[i] == e && v.Writable())
    requires WellFormed(v.plan, e) && !IsVacant(e.kind)
    modifies v`blocks, v`freeBlocks, v`used, v`table
    ensures v.Shaped() && KeepsMarked(old(v.blocks), v.blocks, v.plan, {}) && v.table == old(v.table)[i := v.table[i]]
    ensures st == Ok ==>
      WellFormed(v.plan, e') && e'.blockCount >= need && e'.kind == e.kind && OwnOrFree(old(v.blocks), v.plan, e, e')
    ensures v.healthy ==> InOrder(v)
    ensures v.healthy ==> st == if HasRoom(v.plan, old(v.used), e, need) then Ok else NoFreeBlocks
    ensures v.healthy && st != Ok ==>
      && e' == e && v.table == old(v.table) && v.used == old(v.used)
      && OutsideKept(old(v.blocks), v.blocks, v.plan)
    ensures v.healthy && e.blockCount >= need ==>
      e' == e && v.table == old(v.table) && v.used == old(v.used) && v.blocks == old(v.blocks)
    ensures v.healthy && st == Ok ==>
      Grew(v, e, e', i, old(v.table), old(v.used), old(v.blocks)) && e'.blockCount == Max(e.blockCount, need)
    ensures v.healthy && st == Ok && e.blockCount < need ==>
      && e' == e.(first := e'.first, blockCount := need) && v.table == old(v.table)[i := e']
      && RunOf(e') !! old(v.used) && v.used == (old(v.used) - RunOf(e)) + RunOf(e')
      && v.freeBlocks == old(v.freeBlocks) + e.blockCount - need && FirstFree(v.plan, old(v.used), e'.first, need)
      && Moved(CipherFor(v.security, v.key, v.nonce, e), old(v.blocks), v.blocks, v.plan, e, e')
  {
    e' := e;
    KeepsSelf(v.blocks, v.plan, {});
    if e.blockCount >= need {
      OpenOwnOrFree(v.blocks, v.plan, e, e);
      if v.healthy {
        StaysPut(v, e, i);
      }
      return Ok, e;
    }
    st, e' := MoveFile(v, e, i, need);
    OpenMoved(CipherFor(v.security, v.key, v.nonce, e), old(v.blocks), v.blocks, v.plan, e, e');
    OpenRewrote(v, e, e', i, old(v.table), old(v.used), old(v.blocks));
  }

  /** A longer run is found, and the file moved there. */
  method MoveFile(v: Volume, e: Entry, i: u32, need: u32) returns (st: Status, e': Entry)
    requires v.Shaped() && i < 256 && WellFormed(v.plan, e) && !IsVacant(e.kind) && e.blockCount < need
    requires v.healthy ==> InOrder(v) && v.table[i] == e && v.Writable()
    modifies v`blocks, v`freeBlocks, v`used, v`table
    ensures v.Shaped() && KeepsMarked(old(v.blocks), v.blocks, v.plan, {}) && v.table == old(v.table)[i := v.table[i]]
    ensures st == Ok ==>
      WellFormed(v.plan, e') && e'.blockCount == need && e'.kind == e.kind && OwnOrFree(old(v.blocks), v.plan, e, e')
    ensures v.healthy ==> InOrder(v)
    ensures v.healthy ==> (st == Ok <==> exists f: nat :: FreeRun(v.plan, old(v.used), f, need))
    ensures v.healthy && st != Ok ==>
      && st == NoFreeBlocks && e' == e && v.table == old(v.table) && v.used == old(v.used)
      && OutsideKept(old(v.blocks), v.blocks, v.plan)
    ensures v.healthy && st == Ok ==>
      && e' == e.(first := e'.first, blockCount := need) && v.table == old(v.table)[i := e']
      && RunOf(e') !! old(v.used) && v.used == (old(v.used) - RunOf(e)) + RunOf(e')
      && v.freeBlocks == old(v.freeBlocks) + e.blockCount - need && FirstFree(v.plan, old(v.used), e'.first, need)
      && Moved(CipherFor(v.security, v.key, v.nonce, e), old(v.blocks), v.blocks, v.plan, e, e')
  {
    e' := e;
    KeepsSelf(v.blocks, v.plan, {});
    ghost var before := v.blocks;
    var newFirst;
    st, newFirst := BlockAlloc(v, need);
    if st != Ok {
      KeepsOutside(before, before, v.blocks, v.plan, {});
      return;
    }
    st, e' := Relocate(v, e, i, newFirst, need, before, old(v.used), old(v.freeBlocks));
    KeepsFree(before, v.blocks, v.plan, e, e.(first := newFirst, blockCount := need));
    SameRun(before, v.plan, e, e.(first := newFirst, blockCount := need), e');
  }

  lemma SameRun(before: seq<Block>, p: Plan, e: Entry, a: Entry, b: Entry)
    requires OwnOrFree(before, p, e, a)
    ensures a.first == b.first && a.blockCount == b.blockCount ==> OwnOrFree(before, p, e, b)
  {
    OpenOwnOrFree(before, p, e, a);
    OpenOwnOrFree(before, p, e, b);
  }

  /** The second half: copy, free the old run, record the new one. */
  method Relocate(v: Volume, e: Entry, i: u32, newFirst: u32, need: u32, ghost before: seq<Block>,
      ghost used: set<nat>, ghost free: nat) returns (st: Status, e': Entry)
    requires v.Shaped() && i < 256 && WellFormed(v.plan, e) && !IsVacant(e.kind) && e.blockCount < need
    requires OutsideKept(before, v.blocks, v.plan)
    requires v.plan.dataStart <= newFirst && newFirst + need <= v.plan.total
    requires v.healthy ==>
      && v.Valid() && v.Writable() && v.table[i] == e && Exact(v.plan, v.table, used)
      && FreeRun(v.plan, used, newFirst, need)
      && v.used == used + Range(newFirst, newFirst + need) && v.freeBlocks == free - need
    modifies v`blocks, v`freeBlocks, v`used, v`table
    ensures v.Shaped() && OnlyRun(before, v.blocks, v.plan, newFirst, need) && v.table == old(v.table)[i := v.table[i]]
    ensures st == Ok ==> WellFormed(v.plan, e') && e'.kind == e.kind && e'.first == newFirst && e'.blockCount == need
    ensures v.healthy ==>
      && st == Ok && InOrder(v)
      && e' == e.(first := e'.first, blockCount := need) && v.table == old(v.table)[i := e']
      && RunOf(e') !! used && v.used == (used - RunOf(e)) + RunOf(e')
      && v.freeBlocks == free + e.blockCount - need
      && Moved(CipherFor(v.security, v.key, v.nonce, e), before, v.blocks, v.plan, e, e')
  {
    e' := e;
    if v.healthy {
      RunsApart(v.plan, v.table, used, i, newFirst, need);
    }
    st := SwapRuns(v, e, newFirst, need, before);
    if st == Ok {
      e' := e.(first := newFirst, blockCount := need);
      st := RecordMoved(v, e, e', i, before, used);
    }
  }

  /** Records the new run. */
  method RecordMoved(v: Volume, ghost e: Entry, e': Entry, i: u32, ghost before: seq<Block>, ghost used: set<nat>)
      returns (st: Status)
    requires v.Shaped() && i < 256 && WellFormed(v.plan, e')
    requires OnlyRun(before, v.blocks, v.plan, e'.first, e'.blockCount)
    requires v.healthy ==>
      && v.Valid() && v.Writable() && v.table[i] == e && Exact(v.plan, v.table, used) && RunOf(e') !! used
      && v.used == (used + RunOf(e')) - RunOf(e)
      && Moved(CipherFor(v.security, v.key, v.nonce, e), before, v.blocks, v.plan, e, e')
    modifies v`blocks, v`table
    ensures v.Shaped() && OnlyRun(before, v.blocks, v.plan, e'.first, e'.blockCount)
    ensures v.table == old(v.table)[i := v.table[i]]
    ensures v.healthy ==>
      && st == Ok && InOrder(v) && v.table == old(v.table)[i := e'] && v.used == (used - RunOf(e)) + RunOf(e')
      && Moved(CipherFor(v.security, v.key, v.nonce, e), before, v.blocks, v.plan, e, e')
  {
    ghost var swapped := v.blocks;
    if v.healthy {
      MovedRun(v.plan, v.table, used, i, e', v.used);
    }
    st := StoreEntry(v, i, e', CipherFor(v.security, v.key, v.nonce, e));
    if v.healthy {
      MovedAside(CipherFor(v.security, v.key, v.nonce, e), before, swapped, v.blocks, v.plan, e, e');
    }
    OnlyThen(before, swapped, v.blocks, v.plan, e'.first, e'.blockCount, e'.first, e'.blockCount, 0, 0);
  }

  method SwapRuns(v: Volume, e: Entry, newFirst: u32, need: u32, ghost before: seq<Block>) returns (st: Status)
    requires v.Shaped() && WellFormed(v.plan, e) && e.blockCount < need && OutsideKept(before, v.blocks, v.plan)
    requires v.plan.dataStart <= newFirst && newFirst + need <= v.plan.total
    requires v.healthy ==>
      && v.Valid() && v.Writable() && RunOf(e) <= v.used
      && (e.blockCount == 0 || e.first + e.blockCount <= newFirst || newFirst + e.blockCount <= e.first)
    modifies v`blocks, v`freeBlocks, v`used
    ensures v.Shaped() && OnlyRun(before, v.blocks, v.plan, newFirst, need)
    ensures v.healthy ==>
      && st == Ok && v.Valid() && v.used == old(v.used) - RunOf(e) && v.freeBlocks == old(v.freeBlocks) + e.blockCount
      && Moved(CipherFor(v.security, v.key, v.nonce, e), before, v.blocks, v.plan, e,
             e.(first := newFirst, blockCount := need))
  {
    st := CopyRun(v, e, e.first, newFirst, e.blockCount, before);
    ghost var copied := v.blocks;
    if st != Ok {
      var ignored := BlockFree(v, newFirst, need);
      OnlyThen(before, copied, v.blocks, v.plan, newFirst, need, newFirst, e.blockCount, 0, 0);
      return;
    }
    OutsideSelf(v.blocks, v.plan);
    if e.blockCount > 0 {
      st := FreeOwned(v, e.first, e.blockCount);
      if st != Ok {
        ghost var mid := v.blocks;
        var ignored := BlockFree(v, newFirst, need);
        OnlyThen(copied, mid, v.blocks, v.plan, 0, 0, 0, 0, 0, 0);
        OnlyThen(before, copied, v.blocks, v.plan, newFirst, need, newFirst, e.blockCount, 0, 0);
        return;
      }
    }
    OnlyThen(before, copied, v.blocks, v.plan, newFirst, need, newFirst, e.blockCount, 0, 0);
    if v.healthy {
      MovedBytes(CipherFor(v.security, v.key, v.nonce, e), before, copied, v.blocks, v.plan, e,
          e.(first := newFirst, blockCount := need));
      assert e.blockCount == 0 ==> old(v.used) - RunOf(e) == old(v.used);
    }
  }

  /** Frees a run that is wholly in use. */
  method FreeOwned(v: Volume, first: u32, count: u32) returns (st: Status)
    requires v.Shaped() && v.plan.dataStart <= first && first + count <= v.plan.total
    requires v.healthy ==> v.Valid() && v.Writable() && Range(first, first + count) <= v.used
    modifies v`blocks, v`freeBlocks, v`used
    ensures v.Shaped() && OutsideKept(old(v.blocks), v.blocks, v.plan)
    ensures v.healthy ==>
      && st == Ok && v.Valid() && v.used == old(v.used) - Range(first, first + count)
      && v.freeBlocks == old(v.freeBlocks) + count
  {
    if v.healthy {
      OpenBits(v.blocks, v.plan, v.used);
      OpenCounted(v.freeBlocks, v.plan, v.used);
      RunWithin(v.plan, v.used, first, count);
    }
    st := BlockFree(v, first, count);
  }

  lemma RunWithin(p: Plan, used: set<nat>, first: nat, count: nat)
    requires Laid(p) && (forall b :: b in used ==> InData(p, b)) && Range(first, first + count) <= used
    ensures count <= |used| <= p.total - p.dataStart
  {
    RunSize(first, count, first + count);
    RangeSize(p.dataStart, p.total);
    SubsetSize(Range(first, first + count), used);
    SubsetSize(used, Range(p.dataStart, p.total));
  }

  /** A free run does not meet the run of an entry. */
  lemma RunsApart(p: Plan, table: seq<Entry>, used: set<nat>, i: nat, newFirst: nat, need: nat)
    requires Exact(p, table, used) && i < |table| && FreeRun(p, used, newFirst, need) && table[i].blockCount < need
    ensures
      var e := table[i];
      e.blockCount == 0 || e.first + e.blockCount <= newFirst || newFirst + e.blockCount <= e.first
    ensures RunOf(table[i]) <= used + Range(newFirst, newFirst + need) && Range(newFirst, newFirst + need) !! used
  {
    var e := table[i];
    ExactAt(p, table, used, i);
    assert e.first <= newFirst < e.first + e.blockCount ==> newFirst in RunOf(e);
    assert newFirst <= e.first < newFirst + need && e.blockCount > 0 ==> e.first in RunOf(e);
  }

  lemma MovedRun(p: Plan, table: seq<Entry>, used: set<nat>, i: nat, e': Entry, used': set<nat>)
    requires Exact(p, table, used) && i < |table|
    requires WellFormed(p, e') && RunOf(e') !! used && used' == (used + RunOf(e')) - RunOf(table[i])
    ensures used' == (used - RunOf(table[i])) + RunOf(e') && Exact(p, table[i := e'], used')
  {
    ExactAt(p, table, used, i);
    assert used' == (used - RunOf(table[i])) + RunOf(e');
    Reassign(p, table, used, i, e', used');
  }

  lemma MovedBytes(c: Cipher, before: seq<Block>, copied: seq<Block>, blocks: seq<Block>, p: Plan, e: Entry, e': Entry)
    requires Copied(c, before, copied, p, e.first, e'.first, e.blockCount) && OutsideKept(copied, blocks, p)
    requires e.blockCount <= e'.blockCount && p.dataStart <= e'.first
    ensures Moved(c, before, blocks, p, e, e')
  {
    CopyEnd(c, before, copied, p, e.first, e'.first, e.blockCount);
    OnlyThen(before, copied, blocks, p, e'.first, e'.blockCount, e'.first, e.blockCount, 0, 0);
    OpenOnlyRun(copied, blocks, p, 0, 0);
    forall k: nat | k < e.blockCount
      ensures ViewAt(c, blocks, e'.first, k) == ViewAt(c, copied, e'.first, k)
    {
    }
    ViewsSame(c, copied, e'.first, blocks, e'.first, e.blockCount);
    PlainPrefix(c, blocks, e', e'.(blockCount := e.blockCount));
    OpenMoved(c, before, blocks, p, e, e');
  }

  // ---- reading ----

  lemma InBlock(off: nat, n: nat)
    requires off < 4096 * n
    ensures off / 4096 < n && 4096 * (off / 4096) + off % 4096 == off && off % 4096 < 4096
  {
  }

  method ReadPart(v: Volume, e: Entry, off: u32, want: u32) returns (st: Status, piece: seq<byte>)
    requires v.Shaped() && WellFormed(v.plan, e) && want > 0 && off + want <= 4096 * e.blockCount
    ensures st == Ok ==>
      0 < |piece| <= want && piece == Plain(CipherFor(v.security, v.key, v.nonce, e), v.blocks, e)[off..off + |piece|]
    ensures v.healthy ==> st == Ok
  {
    var k, at := off / 4096, off % 4096;
    var chunk := want;
    if chunk > 4096 - at {
      chunk := 4096 - at;
    }
    InBlock(off, e.blockCount);
    piece := [];
    var buf;
    st, buf := ReadView(v, e, k);
    if st == Ok {
      piece := buf[at..at + chunk];
      ViewSlice(CipherFor(v.security, v.key, v.nonce, e), v.blocks, e, k, at, chunk);
    }
  }

  /** Block `k` of the run, decrypted. */
  method ReadView(v: Volume, e: Entry, k: u32) returns (st: Status, buf: Block)
    requires v.Shaped() && WellFormed(v.plan, e) && k < e.blockCount
    ensures st == Ok ==> buf == View(CipherFor(v.security, v.key, v.nonce, e), v.blocks, e.first + k)
    ensures v.healthy ==> st == Ok
  {
    var hres;
    hres, buf := v.ReadBlock(e.first + k);
    if hres != HtlOk {
      return IoError, buf;
    }
    buf := EntryXform(v, e, buf, e.first + k);
    st := Ok;
  }

  /** Reads up to `len` bytes from `offset`: exactly the file's bytes there, cut off at its end. */
  method FileRead(v: Volume, e: Entry, offset: u32, len0: u32) returns (st: Status, out: seq<byte>)
    requires v.Shaped() && WellFormed(v.plan, e)
    ensures e.kind != 1 ==> st == NotFile
    ensures st == Ok ==> out == Slice(Content(CipherFor(v.security, v.key, v.nonce, e), v.blocks, e), offset, len0)
    ensures e.kind == 1 && v.healthy ==> st == Ok
  {
    out := [];
    if e.kind != ENTRY_FILE {
      return NotFile, [];
    }
    if e.blockCount == 0 || offset >= e.size {
      return Ok, [];
    }
    var len := len0;
    if len > e.size - offset {
      len := e.size - offset;
    }
    st, out := ReadAll(v, e, offset, len);
    SliceOfPrefix(Plain(CipherFor(v.security, v.key, v.nonce, e), v.blocks, e), e.size, offset, len);
  }

  method ReadAll(v: Volume, e: Entry, offset: u32, len: u32) returns (st: Status, out: seq<byte>)
    requires v.Shaped() && WellFormed(v.plan, e) && offset + len <= e.size
    ensures st == Ok ==> out == Plain(CipherFor(v.security, v.key, v.nonce, e), v.blocks, e)[offset..offset + len]
    ensures v.healthy ==> st == Ok
  {
    ghost var all := Plain(CipherFor(v.security, v.key, v.nonce, e), v.blocks, e);
    out := [];
    var done := 0;
    while done < len
      invariant 0 <= done <= len && out == all[offset..offset + done]
    {
      var piece;
      st, piece := ReadPart(v, e, offset + done, len - done);
      if st != Ok {
        return;
      }
      Extend(all, offset, done, |piece|);
      out := out + piece;
      done := done + |piece|;
    }
    st := Ok;
  }

  // ---- writing ----

  /** One more than the largest position. */
  const ROUND: nat := 0x1_0000_0000

  /** `buf` laid over `s` from `offset` on, where the position after 2^32 - 1 is zero. */
  function LaidOut(s: seq<byte>, offset: nat, buf: seq<byte>): (r: seq<byte>)
    requires offset <= ROUND && offset + |buf| <= |s|
    ensures |r| == |s|
  {
    if offset + |buf| <= ROUND then Over(s, offset, buf)
    else Over(Over(s, offset, buf[..ROUND - offset]), 0, buf[ROUND - offset..])
  }

  /** The same, veiled. */
  ghost function LaidOver(s: seq<byte>, offset: nat, buf: seq<byte>): (r: seq<byte>)
    requires offset <= ROUND && offset + |buf| <= |s|
    ensures |r| == |s|
  {
    assert IsLaidOver(LaidOut(s, offset, buf), s, offset, buf);
    var r: seq<byte> :| |r| == |s| && IsLaidOver(r, s, offset, buf);
    r
  }

  ghost predicate IsLaidOver(r: seq<byte>, s: seq<byte>, offset: nat, buf: seq<byte>)
    requires offset <= ROUND && offset + |buf| <= |s|
  {
    forall k {:trigger Lifted(Reading, k)} :: Lifted(Reading, k) ==> r == LaidOut(s, offset, buf)
  }

  lemma OpenLaidOver(s: seq<byte>, offset: nat, buf: seq<byte>)
    requires offset <= ROUND && offset + |buf| <= |s|
    ensures LaidOver(s, offset, buf) == LaidOut(s, offset, buf)
  {
    assert Lifted(Reading, 0);
  }

  /** Position `p` is written by `n` bytes from `offset` on. */
  predicate Hit(p: nat, offset: nat, n: nat) {
    (offset <= p < offset + n && p < ROUND) || p + ROUND < offset + n
  }

  /** Which of the bytes lands there. */
  function Source(p: nat, offset: nat, n: nat): nat
    requires Hit(p, offset, n) && offset <= ROUND
  {
    if p + ROUND < offset + n then p + ROUND - offset else p - offset
  }

  lemma LaidAt(s: seq<byte>, offset: nat, buf: seq<byte>, p: nat)
    requires offset <= ROUND && offset + |buf| <= |s| && |buf| < ROUND && p < |s|
    ensures LaidOver(s, offset, buf)[p] == if Hit(p, offset, |buf|) then buf[Source(p, offset, |buf|)] else s[p]
  {
    OpenLaidOver(s, offset, buf);
    if offset + |buf| <= ROUND {
      OverAt(s, offset, buf, p);
    } else {
      var m := ROUND - offset;
      OverAt(s, offset, buf[..m], p);
      OverAt(Over(s, offset, buf[..m]), 0, buf[m..], p);
    }
  }

  /** One more chunk, which does not cross 2^32. */
  lemma LaidMore(s: seq<byte>, offset: nat, buf: seq<byte>, done: nat, chunk: nat, pos: nat)
    requires offset < ROUND && offset + |buf| <= |s| && done + chunk <= |buf| < ROUND
    requires pos == (if offset + done < ROUND then offset + done else offset + done - ROUND) && pos + chunk <= ROUND
    ensures pos + chunk <= |s|
    ensures Over(LaidOver(s, offset, buf[..done]), pos, buf[done..done + chunk]) ==
        LaidOver(s, offset, buf[..done + chunk])
  {
    OpenLaidOver(s, offset, buf[..done]);
    OpenLaidOver(s, offset, buf[..done + chunk]);
    if offset + done < ROUND {
      OverMore(s, offset, buf, done, chunk);
    } else {
      LaidMoreWrapped(s, offset, buf, done, chunk);
    }
  }

  lemma LaidMoreWrapped(s: seq<byte>, offset: nat, buf: seq<byte>, done: nat, chunk: nat)
    requires offset < ROUND <= offset + done && offset + |buf| <= |s| && done + chunk <= |buf| < ROUND
    ensures Over(LaidOut(s, offset, buf[..done]), offset + done - ROUND, buf[done..done + chunk]) ==
        LaidOut(s, offset, buf[..done + chunk])
  {
    var m := ROUND - offset;
    var once, rest := Over(s, offset, buf[..m]), buf[m..];
    CutAt(buf, m, done, chunk);
    LaidWrapped(s, offset, buf[..done], m);
    LaidWrapped(s, offset, buf[..done + chunk], m);
    OverMore(once, 0, rest, done - m, chunk);
  }

  /** Past 2^32 the buffer lies in two pieces; the second may be empty. */
  lemma LaidWrapped(s: seq<byte>, offset: nat, buf: seq<byte>, m: nat)
    requires offset <= ROUND && m == ROUND - offset <= |buf| && offset + |buf| <= |s|
    ensures LaidOut(s, offset, buf) == Over(Over(s, offset, buf[..m]), 0, buf[m..])
  {
    if |buf| == m {
      assert buf[..m] == buf && buf[m..] == [];
      OverNothing(Over(s, offset, buf), 0);
    }
  }

  lemma CutAt(buf: seq<byte>, m: nat, done: nat, chunk: nat)
    requires m <= done && done + chunk <= |buf|
    ensures buf[..done][..m] == buf[..m] && buf[..done][m..] == buf[m..][..done - m]
    ensures buf[..done + chunk][..m] == buf[..m] && buf[..done + chunk][m..] == buf[m..][..done - m + chunk]
    ensures buf[m..][done - m..done - m + chunk] == buf[done..done + chunk]
  {
  }

  /** The first `done` bytes of `buf` have been laid over the run; nothing outside the run has changed. */
  ghost predicate Laying(c: Cipher, before: seq<Block>, blocks: seq<Block>, p: Plan, e: Entry, offset: nat,
      buf: seq<byte>, done: nat) {
    var r: bool :| forall k {:trigger Lifted(Overwriting, k)} :: Lifted(Overwriting, k) ==>
      (r <==> LayingInFull(c, before, blocks, p, e, offset, buf, done));
    r
  }

  lemma OpenLaying(c: Cipher, before: seq<Block>, blocks: seq<Block>, p: Plan, e: Entry, offset: nat, buf: seq<byte>,
      done: nat)
    ensures Laying(c, before, blocks, p, e, offset, buf, done) <==>
        LayingInFull(c, before, blocks, p, e, offset, buf, done)
  {
    assert Lifted(Overwriting, 0);
  }

  ghost predicate LayingInFull(c: Cipher, before: seq<Block>, blocks: seq<Block>, p: Plan, e: Entry, offset: nat,
      buf: seq<byte>, done: nat) {
    && |blocks| == |before| && done <= |buf| && offset + |buf| <= 4096 * e.blockCount
    && OnlyRun(before, blocks, p, e.first, e.blockCount)
    && offset <= ROUND && Plain(c, blocks, e) == LaidOver(Plain(c, before, e), offset, buf[..done])
  }

  lemma LayStart(c: Cipher, before: seq<Block>, p: Plan, e: Entry, offset: nat, buf: seq<byte>)
    requires offset + |buf| <= 4096 * e.blockCount && offset <= ROUND
    ensures Laying(c, before, before, p, e, offset, buf, 0)
  {
    assert Lifted(Overwriting, 0);
    OpenOnlyRun(before, before, p, e.first, e.blockCount);
    assert buf[..0] == [];
    OverNothing(Plain(c, before, e), offset);
    OpenLaidOver(Plain(c, before, e), offset, buf[..0]);
  }

  lemma LayStep(c: Cipher, before: seq<Block>, blocks: seq<Block>, p: Plan, e: Entry, offset: nat, buf: seq<byte>,
      done: nat, k: nat, at: nat, chunk: nat, blocks': seq<Block>)
    requires Laying(c, before, blocks, p, e, offset, buf, done) && done + chunk <= |buf|
    requires e.first + e.blockCount <= |blocks|
    requires k < e.blockCount && at + chunk <= 4096 && offset < ROUND && |buf| < ROUND && chunk > 0
    requires 4096 * k + at == if offset + done < ROUND then offset + done else offset + done - ROUND
    requires var b := e.first + k;
             blocks' == blocks[b := Xform(c, b, Over(View(c, blocks, b), at, buf[done..done + chunk]))]
    ensures Laying(c, before, blocks', p, e, offset, buf, done + chunk)
  {
    OpenLaying(c, before, blocks, p, e, offset, buf, done);
    OnlyAgain(before, blocks, p, e.first, e.blockCount, e.first + k, blocks'[e.first + k]);
    LaidStep(c, blocks, e, Plain(c, before, e), offset, buf, done, k, at, chunk, blocks');
    OpenLaying(c, before, blocks', p, e, offset, buf, done + chunk);
  }

  lemma LaidStep(c: Cipher, blocks: seq<Block>, e: Entry, base: seq<byte>, offset: nat, buf: seq<byte>, done: nat,
      k: nat, at: nat, chunk: nat, blocks': seq<Block>)
    requires offset < ROUND && |buf| < ROUND && done + chunk <= |buf| && offset + |buf| <= |base|
    requires Plain(c, blocks, e) == LaidOver(base, offset, buf[..done]) && e.first + e.blockCount <= |blocks|
    requires k < e.blockCount && at + chunk <= 4096 && 0 < chunk
    requires 4096 * k + at == if offset + done < ROUND then offset + done else offset + done - ROUND
    requires var b := e.first + k;
             blocks' == blocks[b := Xform(c, b, Over(View(c, blocks, b), at, buf[done..done + chunk]))]
    ensures Plain(c, blocks', e) == LaidOver(base, offset, buf[..done + chunk])
  {
    RewriteView(c, blocks, e, k, at, buf[done..done + chunk], blocks');
    LaidMore(base, offset, buf, done, chunk, 4096 * k + at);
  }

  lemma LayEnd(c: Cipher, before: seq<Block>, blocks: seq<Block>, p: Plan, e: Entry, offset: nat, buf: seq<byte>)
    requires Laying(c, before, blocks, p, e, offset, buf, |buf|)
    ensures |blocks| == |before| && offset + |buf| <= 4096 * e.blockCount
    ensures OnlyRun(before, blocks, p, e.first, e.blockCount)
    ensures offset <= ROUND && Plain(c, blocks, e) == LaidOver(Plain(c, before, e), offset, buf)
  {
    assert Lifted(Overwriting, 0);
    assert buf[..|buf|] == buf;
  }

  /** Lays `piece` over the bytes at `off`, inside one block. */
  method StorePart(v: Volume, e: Entry, off: u32, piece: seq<byte>) returns (st: Status)
    requires v.Shaped() && WellFormed(v.plan, e) && off / 4096 < e.blockCount && off % 4096 + |piece| <= 4096
    modifies v`blocks
    ensures v.Shaped() && (st != Ok ==> v.blocks == old(v.blocks))
    ensures st == Ok ==>
      var c, b := CipherFor(v.security, v.key, v.nonce, e), e.first + off / 4096;
      v.blocks == old(v.blocks)[b := Xform(c, b, Over(View(c, old(v.blocks), b), off % 4096, piece))]
    ensures v.healthy ==> st == Ok
    ensures v.healthy && old(v.Valid()) ==> v.Valid()
  {
    var b := e.first + off / 4096;
    var hres, buf := v.ReadBlock(b);
    if hres != HtlOk {
      return IoError;
    }
    buf := EntryXform(v, e, buf, b);
    buf := Over(buf, off % 4096, piece);
    buf := EntryXform(v, e, buf, b);
    hres := v.WriteBlock(b, buf);
    if hres != HtlOk {
      return WriteStatus(hres);
    }
    if old(v.Valid()) {
      DataWriteKeepsBits(old(v.blocks), v.plan, v.used, b, buf);
    }
    return Ok;
  }

  /** The chunk loop.  The running position is a 32-bit number. */
  method WriteAll(v: Volume, e: Entry, offset: u32, buf: seq<byte>, ghost before: seq<Block>) returns (st: Status)
    requires v.Shaped() && WellFormed(v.plan, e) && |buf| < 0x1_0000_0000 && offset + |buf| <= 4096 * e.blockCount
    requires before == v.blocks
    modifies v`blocks
    ensures v.Shaped() && OnlyRun(before, v.blocks, v.plan, e.first, e.blockCount)
    ensures v.healthy ==>
      st == Ok && Laying(CipherFor(v.security, v.key, v.nonce, e), before, v.blocks, v.plan, e, offset, buf, |buf|)
    ensures v.healthy && old(v.Valid()) ==> v.Valid()
  {
    ghost var c := CipherFor(v.security, v.key, v.nonce, e);
    LayStart(c, v.blocks, v.plan, e, offset, buf);
    var done, off := 0, offset;
    while done < |buf|
      invariant 0 <= done <= |buf| && v.Shaped() && 0 <= off < 0x1_0000_0000
      invariant off == if offset + done < 0x1_0000_0000 then offset + done else offset + done - 0x1_0000_0000
      invariant Laying(c, before, v.blocks, v.plan, e, offset, buf, done)
      invariant v.healthy && old(v.Valid()) ==> v.Valid()
    {
      var chunk;
      st, chunk := WritePart(v, e, offset, buf, done, off, before);
      if st != Ok {
        OpenLaying(c, before, v.blocks, v.plan, e, offset, buf, done);
        return;
      }
      done := done + chunk;
      off := NextPosition(off, chunk);
    }
    OpenLaying(c, before, v.blocks, v.plan, e, offset, buf, done);
    st := Ok;
  }

  method WritePart(v: Volume, e: Entry, ghost offset: u32, buf: seq<byte>, done: nat, off: u32,
      ghost before: seq<Block>) returns (st: Status, chunk: nat)
    requires v.Shaped() && WellFormed(v.plan, e) && done < |buf| < ROUND && off < 4096 * e.blockCount
    requires off == if offset + done < ROUND then offset + done else offset + done - ROUND
    requires Laying(CipherFor(v.security, v.key, v.nonce, e), before, v.blocks, v.plan, e, offset, buf, done)
    modifies v`blocks
    ensures v.Shaped() && (st != Ok ==> v.blocks == old(v.blocks))
    ensures st == Ok ==>
      && 0 < chunk <= |buf| - done && off % 4096 + chunk <= 4096
      && Laying(CipherFor(v.security, v.key, v.nonce, e), before, v.blocks, v.plan, e, offset, buf, done + chunk)
    ensures v.healthy ==> st == Ok
    ensures v.healthy && old(v.Valid()) ==> v.Valid()
  {
    InBlock(off, e.blockCount);
    chunk := |buf| - done;
    if chunk > 4096 - off % 4096 {
      chunk := 4096 - off % 4096;
    }
    ghost var blocks := v.blocks;
    st := StorePart(v, e, off, buf[done..done + chunk]);
    if st == Ok {
      LayStep(CipherFor(v.security, v.key, v.nonce, e), before, blocks, v.plan, e, offset, buf, done, off / 4096,
          off % 4096, chunk, v.blocks);
    }
  }

  /** The 32-bit sum; a chunk ends at most at the end of the last block below 2^32. */
  function NextPosition(off: u32, chunk: nat): u32
    requires off % 4096 + chunk <= 4096
  {
    if off + chunk < 0x1_0000_0000 then off + chunk else off + chunk - 0x1_0000_0000
  }

  /** The blocks a file of `end` bytes needs. */
  function BlocksFor(end: nat): nat {
    (end + 4095) / 4096
  }

  function WriteRefusal(writable: Status, e: Entry): Status {
    if e.kind != ENTRY_FILE then NotFile
    else if writable != Ok then writable
    else if ReadOnly(e.security) then WriteProtected
    else Ok
  }

  /** What a write answers on a device that does not fail. */
  ghost function WriteAnswer(writable: Status, p: Plan, used: set<nat>, e: Entry, offset: nat, len: nat): Status {
    if WriteRefusal(writable, e) != Ok then WriteRefusal(writable, e)
    else if len > 0 && !HasRoom(p, used, e, BlocksFor(offset + len)) then NoFreeBlocks
    else Ok
  }

  ghost function TruncateAnswer(writable: Status, p: Plan, used: set<nat>, e: Entry, size: nat): Status {
    if WriteRefusal(writable, e) != Ok then WriteRefusal(writable, e)
    else if size > e.size && !HasRoom(p, used, e, BlocksFor(size)) then NoFreeBlocks
    else Ok
  }

  /**
   Every position that is written holds its byte of `buf`, and the rest of what the
   file's blocks held is as before.
   */
  ghost predicate Wrote(c: Cipher, before: seq<Block>, blocks: seq<Block>, e: Entry, e': Entry, offset: nat,
      buf: seq<byte>) {
    && offset + |buf| <= 4096 * e'.blockCount
    && var r: bool :| forall k {:trigger Lifted(Landing, k)} :: Lifted(Landing, k) ==>
         (r <==> WroteInFull(c, before, blocks, e, e', offset, buf));
       r
  }

  ghost predicate WroteInFull(c: Cipher, before: seq<Block>, blocks: seq<Block>, e: Entry, e': Entry, offset: nat,
      buf: seq<byte>) {
    && e.blockCount <= e'.blockCount && offset + |buf| <= 4096 * e'.blockCount
    && offset <= ROUND
    && (forall p: nat :: p < 4096 * e'.blockCount && Hit(p, offset, |buf|) ==>
          Plain(c, blocks, e')[p] == buf[Source(p, offset, |buf|)])
    && (forall p: nat :: p < 4096 * e.blockCount && !Hit(p, offset, |buf|) ==>
          Plain(c, blocks, e')[p] == Plain(c, before, e)[p])
  }

  lemma OpenWrote(c: Cipher, before: seq<Block>, blocks: seq<Block>, e: Entry, e': Entry, offset: nat, buf: seq<byte>)
    ensures Wrote(c, before, blocks, e, e', offset, buf) <==> WroteInFull(c, before, blocks, e, e', offset, buf)
  {
    assert Lifted(Landing, 0);
  }

  /** The file's bytes decide, not where on the device they are. */
  lemma WroteAside(c: Cipher, before: seq<Block>, mid: seq<Block>, blocks: seq<Block>, e: Entry, e': Entry, offset: nat,
      buf: seq<byte>)
    requires Wrote(c, before, mid, e, e', offset, buf) && Plain(c, blocks, e') == Plain(c, mid, e')
    ensures Wrote(c, before, blocks, e, e', offset, buf)
  {
    OpenWrote(c, before, mid, e, e', offset, buf);
    OpenWrote(c, before, blocks, e, e', offset, buf);
  }

  lemma GrowThenLay(c: Cipher, before: seq<Block>, mid: seq<Block>, blocks: seq<Block>, p: Plan, e: Entry,
      grown: Entry, e': Entry, offset: nat, buf: seq<byte>)
    requires e.blockCount <= grown.blockCount && Plain(c, mid, grown)[..4096 * e.blockCount] == Plain(c, before, e)
    requires offset <= ROUND && |buf| < ROUND && offset + |buf| <= 4096 * grown.blockCount
    requires Plain(c, blocks, grown) == LaidOver(Plain(c, mid, grown), offset, buf)
    requires e'.first == grown.first && e'.blockCount == grown.blockCount
    ensures Wrote(c, before, blocks, e, e', offset, buf)
  {
    var was, wide, now := Plain(c, before, e), Plain(c, mid, grown), Plain(c, blocks, e');
    forall q: nat | q < 4096 * e'.blockCount
      ensures now[q] == if Hit(q, offset, |buf|) then buf[Source(q, offset, |buf|)] else wide[q]
    {
      LaidAt(wide, offset, buf, q);
    }
    forall q: nat | q < 4096 * e.blockCount && !Hit(q, offset, |buf|)
      ensures now[q] == was[q]
    {
      assert wide[..4096 * e.blockCount][q] == wide[q];
    }
    OpenWrote(c, before, blocks, e, e', offset, buf);
  }

  /**
   Writes `buf` at `offset`, growing the file first.  The size becomes the end of
   the write, in 32 bits, even when the file was longer.  Whatever device calls
   fail, of the blocks that were marked used only the file's own may have changed.
   */
  method FileWrite(v: Volume, e: Entry, i: u32, offset: u32, buf: seq<byte>)
      returns (st: Status, written: nat, e': Entry)
    requires v.Shaped() && i < 256 && |buf| < 0x1_0000_0000 && WellFormed(v.plan, e)
    requires (v.healthy ==> InOrder(v) && v.table[i] == e)
    modifies v`blocks, v`freeBlocks, v`used, v`table
    ensures v.Shaped() && KeepsMarked(old(v.blocks), v.blocks, v.plan, RunOf(e))
    ensures v.table == old(v.table)[i := v.table[i]]
    ensures v.healthy ==> InOrder(v)
    ensures v.healthy ==> st == WriteAnswer(v.WritableStatus(), v.plan, old(v.used), e, offset, |buf|)
    ensures v.healthy && e.kind != 1 ==> st == NotFile
    ensures v.healthy && e.kind == 1 && (v.locked || v.error) ==> st == VolumeDirty
    ensures v.healthy && e.kind == 1 && !v.locked && !v.error ==>
      st == if v.security / 2 % 2 == 1 || e.security / 2 % 2 == 1 then WriteProtected
            else if |buf| == 0 || HasRoom(v.plan, old(v.used), e, BlocksFor(offset + |buf|)) then Ok else NoFreeBlocks
    ensures v.healthy && (st != Ok || |buf| == 0) ==>
      e' == e && v.table == old(v.table) && v.used == old(v.used) && OutsideKept(old(v.blocks), v.blocks, v.plan)
    ensures v.healthy && st == Ok && |buf| > 0 ==>
      && written == |buf| && Rewrote(v, e, e', i, old(v.table), old(v.used), old(v.blocks))
      && e'.blockCount == Max(e.blockCount, BlocksFor(offset + |buf|)) && e'.size == Wrap(offset + |buf|)
      && Wrote(CipherFor(v.security, v.key, v.nonce, e), old(v.blocks), v.blocks, e, e', offset, buf)
  {
    written, e' := 0, e;
    OutsideSelf(v.blocks, v.plan);
    KeepsSelf(v.blocks, v.plan, RunOf(e));
    st := WriteRefusal(v.WritableStatus(), e);
    if st != Ok || |buf| == 0 {
      return;
    }
    st, written, e' := GrowAndWrite(v, e, i, offset, buf);
  }

  method GrowAndWrite(v: Volume, e: Entry, i: u32, offset: u32, buf: seq<byte>)
      returns (st: Status, written: nat, e': Entry)
    requires v.Shaped() && i < 256 && 0 < |buf| < 0x1_0000_0000 && WellFormed(v.plan, e) && !IsVacant(e.kind)
    requires v.healthy ==> InOrder(v) && v.table[i] == e && v.Writable()
    modifies v`blocks, v`freeBlocks, v`used, v`table
    ensures v.Shaped() && KeepsMarked(old(v.blocks), v.blocks, v.plan, RunOf(e))
    ensures v.table == old(v.table)[i := v.table[i]]
    ensures v.healthy ==>
      InOrder(v) && st == if HasRoom(v.plan, old(v.used), e, BlocksFor(offset + |buf|)) then Ok else NoFreeBlocks
    ensures v.healthy && st != Ok ==>
      e' == e && v.table == old(v.table) && v.used == old(v.used) && OutsideKept(old(v.blocks), v.blocks, v.plan)
    ensures v.healthy && st == Ok ==>
      && written == |buf| && Rewrote(v, e, e', i, old(v.table), old(v.used), old(v.blocks))
      && e'.blockCount == Max(e.blockCount, BlocksFor(offset + |buf|)) && e'.size == Wrap(offset + |buf|)
      && Wrote(CipherFor(v.security, v.key, v.nonce, e), old(v.blocks), v.blocks, e, e', offset, buf)
  {
    written := 0;
    st, e' := GrowFile(v, e, i, BlocksFor(offset + |buf|));
    if st == Ok {
      ghost var grown, mid, table := e', v.blocks, v.table;
      st, written, e' := WriteGrown(v, e, e', i, offset, buf, old(v.blocks), old(v.table), old(v.used));
      KeepsOwn(old(v.blocks), mid, v.blocks, v.plan, e, grown);
      SameSlot(old(v.table), table, v.table, i);
    } else {
      KeepsMore(old(v.blocks), v.blocks, v.plan, {}, RunOf(e));
    }
  }

  method WriteGrown(v: Volume, ghost e: Entry, grown: Entry, i: u32, offset: u32, buf: seq<byte>,
      ghost before: seq<Block>, ghost table: seq<Entry>, ghost used: set<nat>)
    returns (st: Status, written: nat, e': Entry)
    requires v.Shaped() && i < 256 && 0 < |buf| < 0x1_0000_0000
    requires v.healthy ==>
      InOrder(v) && v.Writable() && v.table[i] == grown && Grew(v, e, grown, i, table, used, before)
    requires WellFormed(v.plan, grown) && BlocksFor(offset + |buf|) <= grown.blockCount && !IsVacant(grown.kind)
    modifies v`blocks, v`table
    ensures v.Shaped() && OnlyRun(old(v.blocks), v.blocks, v.plan, grown.first, grown.blockCount)
    ensures v.table == old(v.table)[i := v.table[i]]
    ensures v.healthy ==>
      && InOrder(v) && st == Ok && written == |buf| && Rewrote(v, e, e', i, table, used, before)
      && e'.blockCount == grown.blockCount && e'.size == Wrap(offset + |buf|)
      && Wrote(CipherFor(v.security, v.key, v.nonce, e), before, v.blocks, e, e', offset, buf)
  {
    written, e' := 0, grown;
    ghost var mid := v.blocks;
    OpenRewrote(v, e, grown, i, table, used, before);
    st := WriteAll(v, grown, offset, buf, mid);
    if st == Ok {
      written := |buf|;
      ghost var c, laid := CipherFor(v.security, v.key, v.nonce, e), v.blocks;
      if v.healthy {
        OpenMoved(c, before, mid, v.plan, e, grown);
        LayEnd(c, mid, laid, v.plan, grown, offset, buf);
        GrowThenLay(c, before, mid, laid, v.plan, e, grown, grown.(size := Wrap(offset + |buf|)), offset, buf);
        OnlyBoth(before, mid, laid, v.plan, grown.first, grown.blockCount);
        OpenRewrote(v, e, grown, i, table, used, before);
      }
      st, e' := RecordSize(v, e, grown, i, Wrap(offset + |buf|), before, table, used);
      if v.healthy {
        WroteAside(c, before, laid, v.blocks, e, e', offset, buf);
      }
      OnlyMore(laid, v.blocks, v.plan, grown.first, grown.blockCount, 0, 0);
      OnlyBoth(mid, laid, v.blocks, v.plan, grown.first, grown.blockCount);
    }
  }

  /** Records the new size of a file that has room for it. */
  method RecordSize(v: Volume, ghost e: Entry, grown: Entry, i: u32, size: u32, ghost before: seq<Block>,
      ghost table: seq<Entry>, ghost used: set<nat>)
    returns (st: Status, e': Entry)
    requires v.Shaped() && i < 256 && WellFormed(v.plan, grown) && BlocksFor(size) <= grown.blockCount
    requires !IsVacant(grown.kind)
    requires v.healthy ==>
      InOrder(v) && v.Writable() && v.table[i] == grown && Rewrote(v, e, grown, i, table, used, before)
    modifies v`blocks, v`table
    ensures v.Shaped() && OutsideKept(old(v.blocks), v.blocks, v.plan) && v.table == old(v.table)[i := v.table[i]]
    ensures e' == grown.(size := size)
    ensures Plain(CipherFor(v.security, v.key, v.nonce, e), v.blocks, e')
         == Plain(CipherFor(v.security, v.key, v.nonce, e), old(v.blocks), grown)
    ensures v.healthy ==> InOrder(v) && st == Ok && Rewrote(v, e, e', i, table, used, before)
  {
    e' := grown.(size := size);
    OpenRewrote(v, e, grown, i, table, used, before);
    if v.healthy {
      ExactAt(v.plan, v.table, v.used, i);
      Reassign(v.plan, v.table, v.used, i, e', v.used);
    }
    ghost var mid := v.blocks;
    st := StoreEntry(v, i, e', CipherFor(v.security, v.key, v.nonce, e));
    if v.healthy {
      OnlyThen(before, mid, v.blocks, v.plan, grown.first, grown.blockCount, grown.first, grown.blockCount, 0, 0);
    }
    OpenRewrote(v, e, e', i, table, used, before);
  }

  /** After a write that ends below 2^32, the range reads back and the bytes before it are as they were. */
  lemma WriteReadsBack(c: Cipher, before: seq<Block>, blocks: seq<Block>, e: Entry, e': Entry, offset: nat,
      buf: seq<byte>)
    requires Wrote(c, before, blocks, e, e', offset, buf) && e.size <= 4096 * e.blockCount
    requires e'.size == Wrap(offset + |buf|) && offset + |buf| < 0x1_0000_0000
    ensures |Content(c, blocks, e')| == offset + |buf| && Content(c, blocks, e')[offset..offset + |buf|] == buf
    ensures forall p :: 0 <= p < offset && p < e.size ==> Content(c, blocks, e')[p] == Content(c, before, e)[p]
  {
    OpenWrote(c, before, blocks, e, e', offset, buf);
    var now := Content(c, blocks, e');
    forall k | 0 <= k < |buf|
      ensures now[offset + k] == buf[k]
    {
      assert Hit(offset + k, offset, |buf|) && Source(offset + k, offset, |buf|) == k;
    }
    assert now[offset..offset + |buf|] == buf;
    forall p | 0 <= p < offset && p < e.size
      ensures now[p] == Content(c, before, e)[p]
    {
      assert !Hit(p, offset, |buf|);
    }
  }

  /**
   The range reads back exactly when the write ends below 2^32: past that the recorded size wraps to
   no more than the offset.
   */
  lemma ReadsBackIff(c: Cipher, before: seq<Block>, blocks: seq<Block>, e: Entry, e': Entry, offset: u32,
      buf: seq<byte>)
    requires 0 < |buf| < 0x1_0000_0000 && e.size <= 4096 * e.blockCount
    requires e'.size == Wrap(offset + |buf|) <= 4096 * e'.blockCount
    requires Wrote(c, before, blocks, e, e', offset, buf)
    ensures Slice(Content(c, blocks, e'), offset, |buf|) == buf <==> offset + |buf| < 0x1_0000_0000
  {
    if offset + |buf| < 0x1_0000_0000 {
      WriteReadsBack(c, before, blocks, e, e', offset, buf);
      assert Slice(Content(c, blocks, e'), offset, |buf|) == Content(c, blocks, e')[offset..offset + |buf|];
    } else {
      assert e'.size <= offset;
    }
  }

  // ---- truncating ----

  /** Sets the size: growing makes room first, shrinking frees the blocks past the new end. */
  method FileTruncate(v: Volume, e: Entry, i: u32, newSize: u32) returns (st: Status, e': Entry)
    requires v.Shaped() && i < 256 && WellFormed(v.plan, e) && (v.healthy ==> InOrder(v) && v.table[i] == e)
    modifies v`blocks, v`freeBlocks, v`used, v`table
    ensures v.Shaped() && KeepsMarked(old(v.blocks), v.blocks, v.plan, {}) && v.table == old(v.table)[i := v.table[i]]
    ensures v.healthy ==> InOrder(v)
    ensures v.healthy ==> st == TruncateAnswer(v.WritableStatus(), v.plan, old(v.used), e, newSize)
    ensures v.healthy && e.kind != 1 ==> st == NotFile
    ensures v.healthy && e.kind == 1 && (v.locked || v.error) ==> st == VolumeDirty
    ensures v.healthy && e.kind == 1 && !v.locked && !v.error ==>
      st == if v.security / 2 % 2 == 1 || e.security / 2 % 2 == 1 then WriteProtected
            else if newSize <= e.size || HasRoom(v.plan, old(v.used), e, BlocksFor(newSize)) then Ok else NoFreeBlocks
    ensures v.healthy && (st != Ok || newSize == e.size) ==>
      e' == e && v.table == old(v.table) && v.used == old(v.used) && OutsideKept(old(v.blocks), v.blocks, v.plan)
    ensures v.healthy && st == Ok && newSize != e.size ==>
      && Rewrote(v, e, e', i, old(v.table), old(v.used), old(v.blocks)) && e'.size == newSize
      && e'.blockCount == (if newSize < e.size then Min(e.blockCount, BlocksFor(newSize))
             else Max(e.blockCount, BlocksFor(newSize)))
      && PrefixKept(CipherFor(v.security, v.key, v.nonce, e), old(v.blocks), v.blocks, e, e')
  {
    e' := e;
    OutsideSelf(v.blocks, v.plan);
    KeepsSelf(v.blocks, v.plan, {});
    st := WriteRefusal(v.WritableStatus(), e);
    if st != Ok || newSize == e.size {
      return;
    }
    if newSize > e.size {
      st, e' := Enlarge(v, e, i, newSize);
    } else {
      st, e' := Shrink(v, e, i, newSize);
      KeepsOutside(old(v.blocks), old(v.blocks), v.blocks, v.plan, {});
    }
  }

  method Enlarge(v: Volume, e: Entry, i: u32, newSize: u32) returns (st: Status, e': Entry)
    requires v.Shaped() && i < 256 && WellFormed(v.plan, e) && !IsVacant(e.kind)
    requires (v.healthy ==> InOrder(v) && v.table[i] == e && v.Writable())
    modifies v`blocks, v`freeBlocks, v`used, v`table
    ensures v.Shaped() && KeepsMarked(old(v.blocks), v.blocks, v.plan, {}) && v.table == old(v.table)[i := v.table[i]]
    ensures v.healthy ==>
      InOrder(v) && st == if HasRoom(v.plan, old(v.used), e, BlocksFor(newSize)) then Ok else NoFreeBlocks
    ensures v.healthy && st != Ok ==>
      e' == e && v.table == old(v.table) && v.used == old(v.used) && OutsideKept(old(v.blocks), v.blocks, v.plan)
    ensures v.healthy && st == Ok ==>
      && Rewrote(v, e, e', i, old(v.table), old(v.used), old(v.blocks)) && e'.size == newSize
      && e'.blockCount == Max(e.blockCount, BlocksFor(newSize))
      && PrefixKept(CipherFor(v.security, v.key, v.nonce, e), old(v.blocks), v.blocks, e, e')
  {
    var need := BlocksFor(newSize);
    st, e' := GrowFile(v, e, i, need);
    if st == Ok {
      ghost var grown, table := v.blocks, v.table;
      st, e' := ResizeGrown(v, e, e', i, newSize, old(v.blocks), old(v.table), old(v.used));
      KeepsOutside(old(v.blocks), grown, v.blocks, v.plan, {});
      SameSlot(old(v.table), table, v.table, i);
    }
  }

  /** Two changes of one entry are one. */
  lemma SameSlot(table: seq<Entry>, table': seq<Entry>, table'': seq<Entry>, i: nat)
    requires i < |table| == |table'| == |table''|
    requires table' == table[i := table'[i]] && table'' == table'[i := table''[i]]
    ensures table'' == table[i := table''[i]]
  {
  }

  /** What both runs have room for reads the same. */
  ghost predicate PrefixKept(c: Cipher, before: seq<Block>, blocks: seq<Block>, e: Entry, e': Entry) {
    var r: bool :| forall k {:trigger Lifted(Moving, k)} :: Lifted(Moving, k) ==>
      (r <==> PrefixKeptInFull(c, before, blocks, e, e'));
    r
  }

  ghost predicate PrefixKeptInFull(c: Cipher, before: seq<Block>, blocks: seq<Block>, e: Entry, e': Entry) {
    var n := 4096 * Min(e.blockCount, e'.blockCount);
    Plain(c, blocks, e')[..n] == Plain(c, before, e)[..n]
  }

  lemma OpenPrefixKept(c: Cipher, before: seq<Block>, blocks: seq<Block>, e: Entry, e': Entry)
    ensures PrefixKept(c, before, blocks, e, e') <==> PrefixKeptInFull(c, before, blocks, e, e')
  {
    assert Lifted(Moving, 0);
  }

  /** What a longer run holds first is what the file's old one held. */
  lemma GrownPrefix(c: Cipher, before: seq<Block>, mid: seq<Block>, blocks: seq<Block>, p: Plan, e: Entry, grown: Entry,
      e': Entry)
    requires Moved(c, before, mid, p, e, grown) && e'.blockCount == grown.blockCount
    requires Plain(c, blocks, e') == Plain(c, mid, grown)
    ensures PrefixKept(c, before, blocks, e, e')
  {
    OpenMoved(c, before, mid, p, e, grown);
    OpenPrefixKept(c, before, blocks, e, e');
    var was := Plain(c, before, e);
    assert was[..4096 * e.blockCount] == was;
  }

  method ResizeGrown(v: Volume, ghost e: Entry, grown: Entry, i: u32, newSize: u32, ghost before: seq<Block>,
      ghost table: seq<Entry>, ghost used: set<nat>)
    returns (st: Status, e': Entry)
    requires v.Shaped() && i < 256 && WellFormed(v.plan, grown) && BlocksFor(newSize) <= grown.blockCount
    requires !IsVacant(grown.kind)
    requires v.healthy ==>
      InOrder(v) && v.Writable() && v.table[i] == grown && Grew(v, e, grown, i, table, used, before)
    modifies v`blocks, v`table
    ensures v.Shaped() && OutsideKept(old(v.blocks), v.blocks, v.plan) && v.table == old(v.table)[i := v.table[i]]
    ensures v.healthy ==>
      && InOrder(v) && st == Ok && Rewrote(v, e, e', i, table, used, before)
      && e'.size == newSize && e'.blockCount == grown.blockCount
      && PrefixKept(CipherFor(v.security, v.key, v.nonce, e), before, v.blocks, e, e')
  {
    ghost var mid := v.blocks;
    st, e' := RecordSize(v, e, grown, i, newSize, before, table, used);
    if v.healthy {
      GrownPrefix(CipherFor(v.security, v.key, v.nonce, e), before, mid, v.blocks, v.plan, e, grown, e');
    }
  }

  method Shrink(v: Volume, e: Entry, i: u32, newSize: u32) returns (st: Status, e': Entry)
    requires v.Shaped() && i < 256 && WellFormed(v.plan, e) && newSize < e.size && !IsVacant(e.kind)
    requires v.healthy ==> InOrder(v) && v.Writable() && v.table[i] == e
    modifies v`blocks, v`freeBlocks, v`used, v`table
    ensures v.Shaped() && OutsideKept(old(v.blocks), v.blocks, v.plan) && v.table == old(v.table)[i := v.table[i]]
    ensures v.healthy ==>
      && InOrder(v) && st == Ok && Rewrote(v, e, e', i, old(v.table), old(v.used), old(v.blocks)) && e'.size == newSize
      && e'.blockCount == Min(e.blockCount, BlocksFor(newSize))
      && PrefixKept(CipherFor(v.security, v.key, v.nonce, e), old(v.blocks), v.blocks, e, e')
  {
    assert v.healthy ==> RunOf(e) <= v.used by {
      if v.healthy {
        ExactAt(v.plan, v.table, v.used, i);
      }
    }
    st, e' := CutRun(v, e, BlocksFor(newSize));
    if st == Ok {
      st, e' := RecordCut(v, e, e'.(size := newSize), i, old(v.blocks), old(v.used));
    }
  }

  /** Records the shorter run. */
  method RecordCut(v: Volume, ghost e: Entry, cut: Entry, i: u32, ghost before: seq<Block>, ghost used: set<nat>)
      returns (st: Status, e': Entry)
    requires v.Shaped() && i < 256 && WellFormed(v.plan, cut) && OutsideKept(before, v.blocks, v.plan)
    requires cut == e.(blockCount := cut.blockCount, size := cut.size) && cut.blockCount <= e.blockCount
    requires v.healthy ==>
      && v.Valid() && v.Writable() && v.table[i] == e && Exact(v.plan, v.table, used)
      && v.used == used - Range(e.first + cut.blockCount, e.first + e.blockCount)
    modifies v`blocks, v`table
    ensures v.Shaped() && OutsideKept(before, v.blocks, v.plan) && v.table == old(v.table)[i := v.table[i]] && e' == cut
    ensures v.healthy ==>
      && InOrder(v) && st == Ok && Rewrote(v, e, e', i, old(v.table), used, before)
      && PrefixKept(CipherFor(v.security, v.key, v.nonce, e), before, v.blocks, e, e')
  {
    e' := cut;
    ghost var mid := v.blocks;
    if v.healthy {
      ShrunkRun(v.plan, v.table, used, i, e', v.used);
    }
    st := StoreEntry(v, i, e', CipherFor(v.security, v.key, v.nonce, e));
    OnlyThen(before, mid, v.blocks, v.plan, 0, 0, 0, 0, 0, 0);
    OnlyMore(before, v.blocks, v.plan, e'.first, e'.blockCount, 0, 0);
    OpenRewrote(v, e, e', i, old(v.table), used, before);
    ShrunkBytes(CipherFor(v.security, v.key, v.nonce, e), before, v.blocks, v.plan, e, e');
  }

  /** Frees the blocks from index `newBlocks` on. */
  method CutRun(v: Volume, e: Entry, newBlocks: u32) returns (st: Status, e': Entry)
    requires v.Shaped() && WellFormed(v.plan, e) && (v.healthy ==> v.Valid() && v.Writable() && RunOf(e) <= v.used)
    modifies v`blocks, v`freeBlocks, v`used
    ensures v.Shaped() && OutsideKept(old(v.blocks), v.blocks, v.plan)
    ensures e' == e.(blockCount := if st == Ok then Min(e.blockCount, newBlocks) else e.blockCount)
    ensures v.healthy ==>
      st == Ok && v.Valid() && v.used == old(v.used) - Range(e.first + e'.blockCount, e.first + e.blockCount)
  {
    OutsideSelf(v.blocks, v.plan);
    st, e' := Ok, e;
    if newBlocks < e.blockCount {
      st := FreeOwned(v, e.first + newBlocks, e.blockCount - newBlocks);
      if st == Ok {
        e' := e.(blockCount := newBlocks);
      }
    } else {
      assert v.used - Range(e.first + e.blockCount, e.first + e.blockCount) == v.used;
    }
  }

  lemma ShrunkRun(p: Plan, table: seq<Entry>, used: set<nat>, i: nat, e': Entry, used': set<nat>)
    requires Exact(p, table, used) && i < |table| && WellFormed(p, e') && e'.first == table[i].first
    requires e'.blockCount <= table[i].blockCount
    requires used' == used - Range(e'.first + e'.blockCount, table[i].first + table[i].blockCount)
    ensures used' == (used - RunOf(table[i])) + RunOf(e') && Exact(p, table[i := e'], used')
  {
    ExactAt(p, table, used, i);
    assert used' == (used - RunOf(table[i])) + RunOf(e');
    Reassign(p, table, used, i, e', used');
  }

  lemma ShrunkBytes(c: Cipher, before: seq<Block>, blocks: seq<Block>, p: Plan, e: Entry, e': Entry)
    requires OutsideKept(before, blocks, p) && e'.first == e.first && e'.blockCount <= e.blockCount
    requires (e'.blockCount > 0 ==> p.dataStart <= e.first)
    ensures PrefixKept(c, before, blocks, e, e')
  {
    OpenOnlyRun(before, blocks, p, 0, 0);
    forall k: nat | k < e'.blockCount
      ensures ViewAt(c, blocks, e.first, k) == ViewAt(c, before, e.first, k)
    {
    }
    ViewsSame(c, before, e.first, blocks, e.first, e'.blockCount);
    PlainPrefix(c, before, e, e');
    var n := 4096 * e'.blockCount;
    assert Plain(c, blocks, e')[..n] == Plain(c, blocks, e');
    OpenPrefixKept(c, before, blocks, e, e');
  }
}
