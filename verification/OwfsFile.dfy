/**
 Reading, writing and truncating OWFS files: chunk loops over mapped blocks,
 with a read-modify-write through the cipher for partial blocks.
 */
module OwfsFile {
  import opened Words
  import opened Veils
  import opened Splice
  import opened Ciphers
  import opened OwfsTypes
  import opened OwfsVolume
  import opened OwfsOwnership
  import opened OwfsBlockmap
  import opened OwfsContent

  /** The keystream applies when both the volume and the inode are marked encrypted. */
  ghost function CipherFor(security: nat, id: Ident, ino: Inode): Cipher {
    CipherOf(Encrypted(security) && Encrypted(ino.security), id.key1[..32], id.nonce)
  }

  method InodeXform(v: Volume, ino: Inode, buf: Block, b: u32) returns (r: Block)
    ensures r == Xform(CipherFor(v.security, v.id, ino), b, buf)
  {
    r := CryptoXform(Encrypted(v.security) && Encrypted(ino.security), v.id.key1[..32], v.id.nonce, buf, b);
  }

  // ---- reading ----

  /** One block of a file, decrypted. */
  method ReadPlain(v: Volume, ino: Inode, k: u32) returns (st: Status, buf: Block)
    requires v.Valid() && Mapped(v.fs.data, v.geo, ino) && k < ino.blockCount
    ensures st == Ok ==> buf == PlainBlock(CipherFor(v.security, v.id, ino), v.fs.data, ino, k)
    ensures st == Ok || (st == IoError && !v.healthy)
  {
    var b;
    buf := ZeroBlock();
    st, b := BlockmapGet(v, ino, k);
    if st != Ok {
      return;
    }
    assert InData(v.geo, BlockAt(v.fs.data, ino, k));
    var hres;
    hres, buf := ReadData(v, b);
    if hres != HtlOk {
      return IoError, buf;
    }
    buf := InodeXform(v, ino, buf, b);
  }

  lemma PlainSlice(c: Cipher, data: seq<Block>, ino: Inode, k: nat, o: nat, n: nat)
    requires k < ino.blockCount && o + n <= 4096
    ensures Plain(c, data, ino)[4096 * k + o..4096 * k + o + n] == PlainBlock(c, data, ino, k)[o..o + n]
  {
    PlainBlocksAt(c, data, ino, ino.blockCount, k);
    BlockSlice(PlainBlocks(c, data, ino, ino.blockCount), k, o, n);
  }

  /** The part of the read that lies in one block. */
  method ReadChunk(v: Volume, ino: Inode, pos: u32, want: u32) returns (st: Status, piece: seq<byte>)
    requires v.Valid() && Mapped(v.fs.data, v.geo, ino) && want > 0 && pos + want <= 4096 * ino.blockCount
    ensures st == Ok ==>
      0 < |piece| <= want && piece == Plain(CipherFor(v.security, v.id, ino), v.fs.data, ino)[pos..pos + |piece|]
    ensures st == Ok || (st == IoError && !v.healthy)
  {
    var idx, off := pos / 4096, pos % 4096;
    var chunk := want;
    if chunk > 4096 - off {
      chunk := 4096 - off;
    }
    var buf;
    st, buf := ReadPlain(v, ino, idx);
    piece := [];
    if st == Ok {
      piece := buf[off..off + chunk];
      PlainSlice(CipherFor(v.security, v.id, ino), v.fs.data, ino, idx, off, chunk);
    }
  }

  /** The loop: bytes `offset` to `offset + len - 1`. */
  method ReadRange(v: Volume, ino: Inode, offset: u32, len: u32) returns (st: Status, out: seq<byte>)
    requires v.Valid() && Mapped(v.fs.data, v.geo, ino) && offset + len <= ino.size
    ensures st == Ok ==> out == Plain(CipherFor(v.security, v.id, ino), v.fs.data, ino)[offset..offset + len]
    ensures st == Ok || (st == IoError && !v.healthy)
  {
    ghost var all := Plain(CipherFor(v.security, v.id, ino), v.fs.data, ino);
    out := [];
    var done := 0;
    while done < len
      invariant 0 <= done <= len && out == all[offset..offset + done]
    {
      var piece;
      st, piece := ReadChunk(v, ino, offset + done, len - done);
      if st != Ok {
        return;
      }
      Extend(all, offset, done, |piece|);
      out := out + piece;
      done := done + |piece|;
    }
    st := Ok;
  }

  /** Reads up to `len` bytes from `offset`: exactly the file's bytes there, cut off at its end. */
  method FileRead(v: Volume, ino: Inode, offset: u32, len0: u32) returns (st: Status, out: seq<byte>)
    requires v.Valid() && Mapped(v.fs.data, v.geo, ino)
    ensures ino.entryType % 2 == 0 ==> st == NotFile
    ensures st == Ok ==> out == Slice(Content(CipherFor(v.security, v.id, ino), v.fs.data, ino), offset, len0)
    ensures st != Ok ==> out == []
    ensures ino.entryType % 2 == 1 ==> st == Ok || (st == IoError && !v.healthy)
  {
    if !IsFile(ino.entryType) {
      return NotFile, [];
    }
    if offset >= ino.size || len0 == 0 {
      return Ok, [];
    }
    var len := len0;
    if len > ino.size - offset {
      len := ino.size - offset;
    }
    st, out := ReadRange(v, ino, offset, len);
    if st != Ok {
      return st, [];
    }
    SliceOfPrefix(Plain(CipherFor(v.security, v.id, ino), v.fs.data, ino), ino.size, offset, len);
  }

  // ---- growing ----

  /** How many free blocks growing from `n` to `m` blocks takes. */
  function Demand(n: nat, m: nat): nat
    decreases m - n
  {
    if m <= n then 0 else Need(n) + Demand(n + 1, m)
  }

  lemma {:induction false} DemandIs(n: nat, m: nat)
    requires n <= m
    ensures Demand(n, m) == m - n + One(n <= 10 < m)
    decreases m - n
  {
    if n < m {
      DemandIs(n + 1, m);
    }
  }

  /**
   How many free blocks are left when growing from `n` blocks runs out of them:
   none, or the one that cannot be both the eleventh block and the indirect block.
   */
  function Leftover(n: nat, free: nat): nat {
    if n <= 10 && free == 11 - n then 1 else 0
  }

  /** How many blocks growing from `n` blocks takes before it runs out of `free` ones. */
  function Wasted(n: nat, free: nat): nat {
    if free >= Leftover(n, free) then free - Leftover(n, free) else 0
  }

  /** Growing that has come from `n` to `k` blocks stops with what is left over. */
  lemma StopsWith(n: nat, k: nat, free: nat, left: nat)
    requires n <= k && free == left + Demand(n, k) && Need(k) > left
    ensures left == Leftover(n, free)
  {
    DemandIs(n, k);
  }

  lemma DemandSplit(n: nat, k: nat, m: nat)
    requires n <= k < m
    ensures Demand(n, m) == Demand(n, k) + Demand(k, m) && Demand(k, m) >= Need(k)
  {
    DemandIs(n, m);
    DemandIs(n, k);
    DemandIs(k, m);
  }

  lemma DemandMore(n: nat, k: nat)
    requires n <= k
    ensures Demand(n, k + 1) == Demand(n, k) + Need(k)
  {
    DemandIs(n, k);
    DemandIs(n, k + 1);
  }

  /** The next block of a file that has grown since `before`. */
  method EnsureNext(v: Volume, ghost ino: Inode, ino': Inode, ghost before: FS, ghost stock: Stock)
      returns (st: Status, grown: Inode)
    requires v.Valid() && Backed(before, v.geo, ino) && ino'.blockCount < 1034
    requires Extends(before, v.fs, v.geo, ino, ino') && ino.blockCount <= ino'.blockCount
    requires Took(stock, v.Free(), Demand(ino.blockCount, ino'.blockCount))
    modifies v`blocks, v`freeBlocks, v`fs
    ensures Head(v.blocks) == Head(old(v.blocks))
    ensures v.Valid()
    ensures st == Ok ==>
      && Extends(before, v.fs, v.geo, ino, grown) && grown.blockCount == ino'.blockCount + 1
      && Took(stock, v.Free(), Demand(ino.blockCount, grown.blockCount))
    ensures st != Ok ==> Unharmed(old(v.fs), v.fs) && (v.healthy ==> v.fs.used == old(v.fs.used))
    ensures v.healthy && v.Writable() ==>
      st == if Need(ino'.blockCount) <= Room(old(v.Free())) then Ok else NoFreeBlocks
    ensures v.healthy && st == NoFreeBlocks ==> Took(stock, v.Free(), Wasted(ino.blockCount, Room(stock)))
  {
    var b;
    ghost var mid, lost := v.fs, {};
    ExtendsBacked(before, mid, v.geo, ino, ino');
    st, b, grown, lost := BlockmapEnsure(v, ino', ino'.blockCount);
    if st == Ok {
      DemandMore(ino.blockCount, ino'.blockCount);
      GrownExtends(mid, v.fs, v.geo, ino', grown, b);
      ExtendsTransitive(before, mid, v.fs, v.geo, ino, ino', grown);
    } else if v.healthy && st == NoFreeBlocks {
      StopsWith(ino.blockCount, ino'.blockCount, Room(stock), Room(v.Free()));
    }
  }

  /**
   Grows the inode until it has block `last`.  On failure the inode has grown as
   far as it got (`mid` is the state then), and nothing else was lost.
   */
  method EnsureBlocks(v: Volume, ino: Inode, last: u32) returns (st: Status, ino': Inode, ghost mid: FS)
    requires v.Valid() && Backed(v.fs, v.geo, ino) && last < 1034
    modifies v`blocks, v`freeBlocks, v`fs
    ensures Head(v.blocks) == Head(old(v.blocks))
    ensures v.Valid()
    ensures Extends(old(v.fs), mid, v.geo, ino, ino')
    ensures Unharmed(mid, v.fs)
    ensures st == Ok ==> mid == v.fs && ino'.blockCount == if ino.blockCount <= last then last + 1 else ino.blockCount
    ensures st == Ok ==> Took(old(v.Free()), v.Free(), Demand(ino.blockCount, last + 1))
    ensures v.healthy && v.Writable() ==>
      st == if Demand(ino.blockCount, last + 1) <= Room(old(v.Free())) then Ok else NoFreeBlocks
    ensures v.healthy ==> v.fs.used == mid.used
    ensures v.healthy && st == NoFreeBlocks ==>
      Took(old(v.Free()), v.Free(), Wasted(ino.blockCount, Room(old(v.Free()))))
  {
    ino', mid := ino, v.fs;
    ExtendsSelf(v.fs, v.geo, ino);
    while ino'.blockCount <= last
      invariant v.Valid() && mid == v.fs && Head(v.blocks) == Head(old(v.blocks))
      invariant Extends(old(v.fs), v.fs, v.geo, ino, ino')
      invariant ino'.blockCount <= last + 1 || ino' == ino
      invariant ino.blockCount <= ino'.blockCount
      invariant Took(old(v.Free()), v.Free(), Demand(ino.blockCount, ino'.blockCount))
      decreases last + 1 - ino'.blockCount
    {
      var grown;
      DemandSplit(ino.blockCount, ino'.blockCount, last + 1);
      st, grown := EnsureNext(v, ino, ino', old(v.fs), old(v.Free()));
      if st != Ok {
        return;
      }
      ino', mid := grown, v.fs;
    }
    st := Ok;
  }

  /** Growing an inode and releasing it to its old count gives back every block, the indirect block included. */
  method EnsureThenRelease(v: Volume, ino: Inode, last: u32) returns (st: Status, ino': Inode)
    requires v.Valid() && Backed(v.fs, v.geo, ino) && ino.blockCount <= last < 1034
    modifies v`blocks, v`freeBlocks, v`fs
    ensures Head(v.blocks) == Head(old(v.blocks))
    ensures v.Valid()
    ensures st == Ok ==>
      ino' == ino && v.fs.used == old(v.fs.used) && v.freeBlocks == old(v.freeBlocks) && v.fs.table == old(v.fs.table)
    ensures v.healthy && v.Writable() ==>
      st == if Demand(ino.blockCount, last + 1) <= Room(old(v.Free())) then Ok else NoFreeBlocks
  {
    ghost var before := v.fs;
    ghost var mid;
    st, ino', mid := EnsureBlocks(v, ino, last);
    if st == Ok {
      ExtendsBacked(before, mid, v.geo, ino, ino');
      var grown := ino';
      st, ino' := BlockmapRelease(v, grown, ino.blockCount);
      if st == Ok {
        GrowThenRelease(before, mid, v.geo, ino, grown, v.fs.used);
        DemandIs(ino.blockCount, last + 1);
      }
    }
  }

  // ---- writing ----

  /** Since `mid`, only the data blocks of `ino` have been rewritten, and the file now reads as `plain`. */
  ghost predicate Rewritten(c: Cipher, mid: FS, fs: FS, g: Geometry, ino: Inode, plain: seq<byte>) {
    var r: bool :| forall k {:trigger Lifted(Rewrite, k)} :: Lifted(Rewrite, k) ==>
      (r <==> (RewrittenInFull(c, mid, fs, g, ino, plain)));
    r
  }

  lemma OpenRewritten(c: Cipher, mid: FS, fs: FS, g: Geometry, ino: Inode, plain: seq<byte>)
    ensures Rewritten(c, mid, fs, g, ino, plain) <==> RewrittenInFull(c, mid, fs, g, ino, plain)
  {
    assert Lifted(Rewrite, 0);
  }

  ghost predicate RewrittenInFull(c: Cipher, mid: FS, fs: FS, g: Geometry, ino: Inode, plain: seq<byte>) {
    && fs.used == mid.used && fs.table == mid.table && |fs.data| == |mid.data| == g.totalBlocks
    && Mapped(fs.data, g, ino) && Owned(fs.data, ino) == Owned(mid.data, ino)
    && (forall k: nat :: k < ino.blockCount ==> BlockAt(fs.data, ino, k) == BlockAt(mid.data, ino, k))
    && (forall b :: 0 <= b < |fs.data| && b !in Between(mid.data, ino, 0, ino.blockCount) ==> fs.data[b] == mid.data[b])
    && Plain(c, fs.data, ino) == plain
  }

  lemma RewrittenStart(c: Cipher, fs: FS, g: Geometry, ino: Inode)
    requires Backed(fs, g, ino) && |fs.data| == g.totalBlocks
    ensures Rewritten(c, fs, fs, g, ino, Plain(c, fs.data, ino))
  {
    OpenBacked(fs, g, ino);
    OpenRewritten(c, fs, fs, g, ino, Plain(c, fs.data, ino));
  }

  lemma RewrittenMapped(c: Cipher, mid: FS, fs: FS, g: Geometry, ino: Inode, plain: seq<byte>)
    requires Rewritten(c, mid, fs, g, ino, plain)
    ensures MapKept(fs.data, g, ino) && |fs.data| == g.totalBlocks && fs.table == mid.table && fs.used == mid.used
    ensures plain == Plain(c, fs.data, ino)
  {
    assert Lifted(Rewrite, 0) && Lifted(Map, 0);
  }

  /** Bytes `done` to `done + chunk - 1` of `buf` were laid over the file, inside one block. */
  ghost predicate ChunkDone(c: Cipher, fs: FS, fs': FS, g: Geometry, ino: Inode, offset: nat, buf: seq<byte>,
      done: nat, chunk: nat) {
    var r: bool :| forall k {:trigger Lifted(Chunk, k)} :: Lifted(Chunk, k) ==>
      (r <==> ChunkDoneInFull(c, fs, fs', g, ino, offset, buf, done, chunk));
    r
  }

  ghost predicate ChunkDoneInFull(c: Cipher, fs: FS, fs': FS, g: Geometry, ino: Inode, offset: nat, buf: seq<byte>,
      done: nat, chunk: nat) {
    done + chunk <= |buf| && ChunkInFull(c, fs, fs', g, ino, offset + done, buf[done..done + chunk])
  }

  lemma OpenChunkDone(c: Cipher, fs: FS, fs': FS, g: Geometry, ino: Inode, offset: nat, buf: seq<byte>, done: nat,
      chunk: nat)
    ensures ChunkDone(c, fs, fs', g, ino, offset, buf, done, chunk) <==>
        ChunkDoneInFull(c, fs, fs', g, ino, offset, buf, done, chunk)
  {
    assert Lifted(Chunk, 0);
  }

  ghost predicate ChunkInFull(c: Cipher, fs: FS, fs': FS, g: Geometry, ino: Inode, pos: nat, piece: seq<byte>) {
    var k, at := pos / 4096, pos % 4096;
    var b := BlockAt(fs.data, ino, k);
    && k < ino.blockCount && at + |piece| <= 4096 && InData(g, b) && b < |fs.data|
    && fs' == fs.(data := fs.data[b := Xform(c, b, Over(PlainBlock(c, fs.data, ino, k), at, piece))])
  }

  /** How much of the next `left` bytes from `pos` on lies in one block. */
  function ChunkLength(pos: nat, left: nat): (n: nat)
    requires left > 0
    ensures 0 < n <= left && pos % 4096 + n <= 4096
  {
    if left > 4096 - pos % 4096 then 4096 - pos % 4096 else left
  }

  lemma InMap(pos: nat, left: nat, n: nat)
    requires left > 0 && pos + left <= 4096 * n
    ensures pos / 4096 < n
  {
  }

  /** One chunk of the write of `buf` at `offset`, `done` bytes in: a whole block, or a read, an overlay and a write. */
  method WriteChunk(v: Volume, ino: Inode, offset: u32, buf: seq<byte>, done: nat) returns (hres: Status, chunk: nat)
    requires v.Valid() && MapKept(v.fs.data, v.geo, ino) && done < |buf|
    requires offset + |buf| <= 4096 * ino.blockCount <= 4096 * 1034
    modifies v`blocks, v`fs
    ensures Head(v.blocks) == Head(old(v.blocks))
    ensures v.Valid()
    ensures 0 < chunk <= |buf| - done
    ensures hres != Ok ==> v.fs == old(v.fs) && !v.healthy
    ensures hres == Ok ==>
      ChunkDone(CipherFor(v.security, v.id, ino), old(v.fs), v.fs, v.geo, ino, offset, buf, done, chunk)
  {
    var pos := offset + done;
    chunk := ChunkLength(pos, |buf| - done);
    InMap(pos, |buf| - done, ino.blockCount);
    var b;
    hres, b := LocateBlock(v, ino, pos / 4096);
    if hres != Ok {
      return;
    }
    hres := StoreOverlay(v, ino, pos / 4096, b, pos % 4096, buf[done..done + chunk]);
    OpenChunkDone(CipherFor(v.security, v.id, ino), old(v.fs), v.fs, v.geo, ino, offset, buf, done, chunk);
  }

  /** The device block behind logical block `idx`. */
  method LocateBlock(v: Volume, ino: Inode, idx: u32) returns (st: Status, b: u32)
    requires v.Valid() && MapKept(v.fs.data, v.geo, ino) && idx < ino.blockCount
    ensures st == Ok ==> b == BlockAt(v.fs.data, ino, idx) && InData(v.geo, b)
    ensures st == Ok || (st == IoError && !v.healthy)
  {
    OpenMapKept(v.fs.data, v.geo, ino);
    assert InData(v.geo, BlockAt(v.fs.data, ino, idx));
    st, b := BlockmapGet(v, ino, idx);
  }

  /** Lays `piece` over logical block `idx` and writes the block back through the cipher. */
  method StoreOverlay(v: Volume, ino: Inode, ghost idx: nat, b: u32, off: nat, piece: seq<byte>) returns (st: Status)
    requires v.Valid() && InData(v.geo, b) && off + |piece| <= 4096 && b == BlockAt(v.fs.data, ino, idx)
    modifies v`blocks, v`fs
    ensures Head(v.blocks) == Head(old(v.blocks))
    ensures v.Valid()
    ensures st != Ok ==> v.fs == old(v.fs) && !v.healthy
    ensures st == Ok ==>
      var c := CipherFor(v.security, v.id, ino);
      v.fs == old(v.fs).(
        data := old(v.fs.data)[b := Xform(c, b, Over(PlainBlock(c, old(v.fs.data), ino, idx), off, piece))])
  {
    var block;
    if off == 0 && |piece| == 4096 {
      block := InodeXform(v, ino, piece, b);
      WholeBlock(PlainBlock(CipherFor(v.security, v.id, ino), v.fs.data, ino, idx), piece);
    } else {
      var rres;
      rres, block := ReadData(v, b);
      if rres != HtlOk {
        return IoError;
      }
      block := InodeXform(v, ino, block, b);
      block := Over(block, off, piece);
      block := InodeXform(v, ino, block, b);
    }
    var wres := WriteData(v, b, block);
    return if wres == HtlOk then Ok else WriteStatus(wres);
  }

  lemma RewrittenStep(c: Cipher, mid: FS, fs: FS, fs': FS, g: Geometry, ino: Inode, plain: seq<byte>, pos: nat,
      piece: seq<byte>)
    requires Rewritten(c, mid, fs, g, ino, plain) && ChunkInFull(c, fs, fs', g, ino, pos, piece)
    ensures |plain| == 4096 * ino.blockCount && pos + |piece| <= |plain|
    ensures Rewritten(c, mid, fs', g, ino, Over(plain, pos, piece))
  {
    RewrittenBlock(c, mid, fs, fs', g, ino, plain, pos / 4096, pos % 4096, piece);
  }

  lemma RewrittenBlock(c: Cipher, mid: FS, fs: FS, fs': FS, g: Geometry, ino: Inode, plain: seq<byte>, k: nat, at: nat,
      piece: seq<byte>)
    requires Rewritten(c, mid, fs, g, ino, plain) && k < ino.blockCount && at + |piece| <= 4096
    requires var b := BlockAt(fs.data, ino, k);
             && InData(g, b) && b < |fs.data|
             && fs' == fs.(data := fs.data[b := Xform(c, b, Over(PlainBlock(c, fs.data, ino, k), at, piece))])
    ensures |plain| == 4096 * ino.blockCount && 4096 * k + at + |piece| <= |plain|
    ensures Rewritten(c, mid, fs', g, ino, Over(plain, 4096 * k + at, piece))
  {
    OpenRewritten(c, mid, fs, g, ino, plain);
    var b := BlockAt(fs.data, ino, k);
    RewriteBlock(c, fs.data, g, ino, k, at, piece, fs'.data[b]);
    BetweenHas(mid.data, ino, 0, ino.blockCount, b);
    OpenRewritten(c, mid, fs', g, ino, Over(plain, 4096 * k + at, piece));
  }

  /** The first `done` bytes of `buf` have been laid over `base` at `offset`. */
  ghost predicate Progress(c: Cipher, mid: FS, fs: FS, g: Geometry, ino: Inode, base: seq<byte>, offset: nat,
      buf: seq<byte>, done: nat) {
    var r: bool :| forall k {:trigger Lifted(Progressing, k)} :: Lifted(Progressing, k) ==>
      (r <==> ProgressInFull(c, mid, fs, g, ino, base, offset, buf, done));
    r
  }

  lemma OpenProgress(c: Cipher, mid: FS, fs: FS, g: Geometry, ino: Inode, base: seq<byte>, offset: nat, buf: seq<byte>,
      done: nat)
    ensures Progress(c, mid, fs, g, ino, base, offset, buf, done) <==>
        ProgressInFull(c, mid, fs, g, ino, base, offset, buf, done)
  {
    assert Lifted(Progressing, 0);
  }

  ghost predicate ProgressInFull(c: Cipher, mid: FS, fs: FS, g: Geometry, ino: Inode, base: seq<byte>, offset: nat,
      buf: seq<byte>, done: nat) {
    && offset + |buf| <= |base| == 4096 * ino.blockCount && done <= |buf|
    && Rewritten(c, mid, fs, g, ino, Over(base, offset, buf[..done]))
  }

  lemma ProgressStart(c: Cipher, fs: FS, g: Geometry, ino: Inode, base: seq<byte>, offset: nat, buf: seq<byte>)
    requires Backed(fs, g, ino) && |fs.data| == g.totalBlocks && base == Plain(c, fs.data, ino)
    requires offset + |buf| <= |base|
    ensures Progress(c, fs, fs, g, ino, base, offset, buf, 0)
  {
    OpenProgress(c, fs, fs, g, ino, base, offset, buf, 0);
    RewrittenStart(c, fs, g, ino);
    assert buf[..0] == [];
    OverNothing(base, offset);
  }

  lemma ProgressMapped(c: Cipher, mid: FS, fs: FS, g: Geometry, ino: Inode, base: seq<byte>, offset: nat,
      buf: seq<byte>, done: nat)
    requires Progress(c, mid, fs, g, ino, base, offset, buf, done)
    ensures MapKept(fs.data, g, ino) && offset + |buf| <= 4096 * ino.blockCount
    ensures fs.table == mid.table && fs.used == mid.used
  {
    OpenProgress(c, mid, fs, g, ino, base, offset, buf, done);
    RewrittenMapped(c, mid, fs, g, ino, Over(base, offset, buf[..done]));
    RewrittenOnly(c, mid, fs, g, ino, Over(base, offset, buf[..done]));
  }

  lemma ProgressStep(c: Cipher, mid: FS, fs: FS, fs': FS, g: Geometry, ino: Inode, base: seq<byte>, offset: nat,
      buf: seq<byte>, done: nat, chunk: nat)
    requires Progress(c, mid, fs, g, ino, base, offset, buf, done)
    requires ChunkDone(c, fs, fs', g, ino, offset, buf, done, chunk)
    ensures Progress(c, mid, fs', g, ino, base, offset, buf, done + chunk)
  {
    assert Lifted(Progressing, 0) && Lifted(Chunk, 0);
    RewrittenStep(c, mid, fs, fs', g, ino, Over(base, offset, buf[..done]), offset + done, buf[done..done + chunk]);
    OverMore(base, offset, buf, done, chunk);
  }

  /** The chunk loop: stops early when the device fails. */
  method WriteRange(v: Volume, ino: Inode, offset: u32, buf: seq<byte>, ghost c: Cipher, ghost mid: FS,
      ghost base: seq<byte>) returns (failure: Status, written: nat)
    requires v.Valid() && c == CipherFor(v.security, v.id, ino) && ino.blockCount <= 1034
    requires Progress(c, mid, v.fs, v.geo, ino, base, offset, buf, 0)
    modifies v`blocks, v`fs
    ensures Head(v.blocks) == Head(old(v.blocks))
    ensures v.Valid()
    ensures written <= |buf|
    ensures Progress(c, mid, v.fs, v.geo, ino, base, offset, buf, written)
    ensures failure == Ok ==> written == |buf|
    ensures v.healthy ==> failure == Ok
  {
    failure, written := Ok, 0;
    while written < |buf|
      invariant v.Valid() && 0 <= written <= |buf| && failure == Ok && Head(v.blocks) == Head(old(v.blocks))
      invariant Progress(c, mid, v.fs, v.geo, ino, base, offset, buf, written)
    {
      failure, written := WriteNext(v, ino, offset, buf, written, c, mid, base);
      if failure != Ok {
        return;
      }
    }
  }

  /** One turn of the loop. */
  method WriteNext(v: Volume, ino: Inode, offset: u32, buf: seq<byte>, done: nat, ghost c: Cipher, ghost mid: FS,
      ghost base: seq<byte>)
    returns (failure: Status, written: nat)
    requires v.Valid() && c == CipherFor(v.security, v.id, ino) && ino.blockCount <= 1034 && done < |buf|
    requires Progress(c, mid, v.fs, v.geo, ino, base, offset, buf, done)
    modifies v`blocks, v`fs
    ensures Head(v.blocks) == Head(old(v.blocks))
    ensures v.Valid()
    ensures if failure == Ok then done < written <= |buf| else written == done && !v.healthy
    ensures Progress(c, mid, v.fs, v.geo, ino, base, offset, buf, written)
  {
    ghost var before := v.fs;
    ProgressMapped(c, mid, v.fs, v.geo, ino, base, offset, buf, done);
    var chunk;
    written := done;
    failure, chunk := WriteChunk(v, ino, offset, buf, done);
    if failure == Ok {
      ProgressStep(c, mid, before, v.fs, v.geo, ino, base, offset, buf, done, chunk);
      written := done + chunk;
    }
  }

  // ---- what a write means for the rest of the volume ----

  /** Since `mid`, nothing in use but the data blocks of `ino` has changed. */
  ghost predicate OnlyItsBlocks(mid: FS, fs: FS, ino: Inode) {
    && |fs.data| == |mid.data| && mid.used <= fs.used
    && (forall b :: b in mid.used && b < |mid.data| && b !in Between(mid.data, ino, 0, ino.blockCount) ==>
           fs.data[b] == mid.data[b])
  }

  lemma RewrittenOnly(c: Cipher, mid: FS, fs: FS, g: Geometry, ino: Inode, plain: seq<byte>)
    requires Rewritten(c, mid, fs, g, ino, plain)
    ensures OnlyItsBlocks(mid, fs, ino) && fs.table == mid.table && fs.used == mid.used
    ensures Mapped(fs.data, g, ino) && Owned(fs.data, ino) == Owned(mid.data, ino) && Plain(c, fs.data, ino) == plain
  {
    OpenRewritten(c, mid, fs, g, ino, plain);
  }

  /** The inode before growing still maps the same blocks afterwards. */
  lemma OldMapStands(fs: FS, mid: FS, fs': FS, g: Geometry, ino: Inode, ino': Inode)
    requires Backed(fs, g, ino) && Extends(fs, mid, g, ino, ino') && OnlyItsBlocks(mid, fs', ino')
    ensures Mapped(fs'.data, g, ino) && Owned(fs'.data, ino) == Owned(fs.data, ino) <= fs'.used
    ensures forall k: nat :: k < ino.blockCount ==> BlockAt(fs'.data, ino, k) == BlockAt(fs.data, ino, k)
  {
    assert Lifted(Extension, 0);
    OpenBacked(fs, g, ino);
    OpenBacked(mid, g, ino');
    if ino.indirect != 0 {
      BetweenHas(mid.data, ino', 0, ino'.blockCount, ino.indirect);
      assert fs'.data[ino.indirect] == mid.data[ino.indirect];
    }
    forall k: nat | k < ino.blockCount
      ensures BlockAt(fs'.data, ino, k) == BlockAt(fs.data, ino, k)
    {
      assert BlockAt(mid.data, ino', k) == BlockAt(fs.data, ino, k);
    }
    BetweenSame(fs.data, ino, fs'.data, ino, 0, ino.blockCount);
  }

  lemma RestUntouched(fs: FS, mid: FS, fs': FS, g: Geometry, ino: Inode, ino': Inode, b: nat)
    requires Backed(fs, g, ino) && Extends(fs, mid, g, ino, ino') && OnlyItsBlocks(mid, fs', ino')
    requires b in fs.used && b !in Owned(fs.data, ino) && 0 < b < |fs.data|
    ensures b in fs'.used && b < |fs'.data| && fs'.data[b] == fs.data[b]
  {
    assert Lifted(Extension, 0);
    assert b !in Owned(mid.data, ino');
    assert b != ino.indirect;
  }

  /** Whatever became of the inode itself, a write is a step on that inode. */
  lemma WriteIsStep(fs: FS, mid: FS, fs': FS, g: Geometry, i: nat, ino: Inode, ino': Inode, kept: bool, stored: Inode)
    requires Laid(g) && Holds(fs, i) && ino == fs.table[i] && Backed(fs, g, ino)
    requires Extends(fs, mid, g, ino, ino') && OnlyItsBlocks(mid, fs', ino')
    requires kept ==> fs'.table == fs.table
    requires !kept ==>
      && fs'.table == fs.table[i := stored] && Mapped(fs'.data, g, stored)
      && Owned(fs'.data, stored) == Owned(mid.data, ino')
    ensures StepOn(fs, fs', g, i)
  {
    ExtendsBacked(fs, mid, g, ino, ino');
    forall b | b in fs.used && b !in OwnedBy(fs, i) && InData(g, b)
      ensures b in fs'.used && fs'.data[b] == fs.data[b]
    {
      RestUntouched(fs, mid, fs', g, ino, ino', b);
    }
    OpenExtends(fs, mid, g, ino, ino');
    OpenStepOn(fs, fs', g, i);
    OpenBacked(mid, g, ino');
    if kept {
      OldMapStands(fs, mid, fs', g, ino, ino');
    }
  }

  /** Growing appends zeroed blocks, as the cipher shows them. */
  lemma ExtendsContent(c: Cipher, fs: FS, mid: FS, g: Geometry, ino: Inode, ino': Inode)
    requires Backed(fs, g, ino) && Extends(fs, mid, g, ino, ino')
    ensures Plain(c, mid.data, ino') == Plain(c, fs.data, ino)
        + Flatten(ZeroViews(c, mid.data, ino', ino.blockCount, ino'.blockCount))
  {
    assert Lifted(Extension, 0);
    OpenBacked(fs, g, ino);
    OpenBacked(mid, g, ino');
    forall k: nat | k < ino.blockCount
      ensures PlainBlock(c, mid.data, ino', k) == PlainBlock(c, fs.data, ino, k)
    {
      OwnedAt(fs.data, ino, k);
    }
    forall k: nat | ino.blockCount <= k < ino'.blockCount
      ensures PlainBlock(c, mid.data, ino', k) == Xform(c, BlockAt(mid.data, ino', k), ZeroBlock())
    {
      assert InData(g, BlockAt(mid.data, ino', k));
    }
    PlainBlocksGrow(c, fs.data, ino, mid.data, ino', ino.blockCount, ino'.blockCount);
    FlattenConcat(PlainBlocks(c, fs.data, ino, ino.blockCount),
        ZeroViews(c, mid.data, ino', ino.blockCount, ino'.blockCount));
  }

  lemma AppendLast(a: seq<Block>, b: seq<Block>, last: Block)
    ensures (a + b) + [last] == a + (b + [last])
  {
  }

  lemma {:induction false} OneMoreZero(c: Cipher, was: seq<Block>, data': seq<Block>, ino': Inode, n: nat, m: nat)
    requires n < m && PlainBlocks(c, data', ino', m - 1) == was + ZeroViews(c, data', ino', n, m - 1)
    requires PlainBlock(c, data', ino', m - 1) == Xform(c, BlockAt(data', ino', m - 1), ZeroBlock())
    ensures PlainBlocks(c, data', ino', m) == was + ZeroViews(c, data', ino', n, m)
  {
    AppendLast(was, ZeroViews(c, data', ino', n, m - 1), PlainBlock(c, data', ino', m - 1));
  }

  lemma {:induction false} PlainBlocksGrow(c: Cipher, data: seq<Block>, ino: Inode, data': seq<Block>, ino': Inode,
      n: nat, m: nat)
    requires n <= m
    requires forall k: nat :: k < n ==> PlainBlock(c, data', ino', k) == PlainBlock(c, data, ino, k)
    requires forall k: nat :: n <= k < m ==>
      PlainBlock(c, data', ino', k) == Xform(c, BlockAt(data', ino', k), ZeroBlock())
    ensures PlainBlocks(c, data', ino', m) == PlainBlocks(c, data, ino, n) + ZeroViews(c, data', ino', n, m)
    decreases m
  {
    if n < m {
      PlainBlocksGrow(c, data, ino, data', ino', n, m - 1);
      OneMoreZero(c, PlainBlocks(c, data, ino, n), data', ino', n, m);
    } else {
      PlainBlocksSame(c, data, ino, data', ino', n);
    }
  }

  // ---- the write ----

  /** The blocks a write of bytes up to `end` needs. */
  function BlocksFor(end: nat): nat {
    if end == 0 then 0 else (end - 1) / 4096 + 1
  }

  /**
   The effect of writing `piece` at `offset`: the size is the maximum of the old
   size and the end of the piece, the blocks that were missing were appended
   zeroed, and the piece was laid over the result.
   */
  ghost predicate Wrote(c: Cipher, fs: FS, fs': FS, ino: Inode, ino': Inode, offset: nat, piece: seq<byte>,
      blocks: nat) {
    && ino'.size == Max(ino.size, offset + |piece|)
    && ino'.blockCount == Max(ino.blockCount, blocks)
    && SameButMap(ino, ino')
    && offset + |piece| <= 4096 * ino'.blockCount
    && Overlaid(c, fs, fs', ino, ino', offset, piece)
  }

  /** The file reads as its old bytes with the appended blocks behind them and the piece over that. */
  ghost predicate Overlaid(c: Cipher, fs: FS, fs': FS, ino: Inode, ino': Inode, offset: nat, piece: seq<byte>)
    requires ino.blockCount <= ino'.blockCount && offset + |piece| <= 4096 * ino'.blockCount
  {
    var r: bool :| forall k {:trigger Lifted(Overlaying, k)} :: Lifted(Overlaying, k) ==>
      (r <==> OverlaidInFull(c, fs, fs', ino, ino', offset, piece));
    r
  }

  ghost predicate OverlaidInFull(c: Cipher, fs: FS, fs': FS, ino: Inode, ino': Inode, offset: nat, piece: seq<byte>)
    requires ino.blockCount <= ino'.blockCount && offset + |piece| <= 4096 * ino'.blockCount
  {
    Plain(c, fs'.data, ino') == Over(Enlarged(c, fs, fs', ino, ino'), offset, piece)
  }

  lemma OpenOverlaid(c: Cipher, fs: FS, fs': FS, ino: Inode, ino': Inode, offset: nat, piece: seq<byte>)
    requires ino.blockCount <= ino'.blockCount && offset + |piece| <= 4096 * ino'.blockCount
    ensures Overlaid(c, fs, fs', ino, ino', offset, piece) <==> OverlaidInFull(c, fs, fs', ino, ino', offset, piece)
  {
    assert Lifted(Overlaying, 0);
  }

  /** The old bytes, followed by the appended blocks as the cipher shows their zeros. */
  ghost function Enlarged(c: Cipher, fs: FS, fs': FS, ino: Inode, ino': Inode): (r: seq<byte>)
    requires ino.blockCount <= ino'.blockCount
    ensures |r| == 4096 * ino'.blockCount
  {
    Plain(c, fs.data, ino) + Flatten(ZeroViews(c, fs'.data, ino', ino.blockCount, ino'.blockCount))
  }

  lemma ExtendsCarries(fs: FS, mid: FS, g: Geometry, ino: Inode, ino': Inode)
    requires Extends(fs, mid, g, ino, ino')
    ensures ino' == ino.(blockCount := ino'.blockCount, direct := ino'.direct, indirect := ino'.indirect)
    ensures ino.blockCount <= ino'.blockCount <= 1034 && ino.size <= 4096 * ino'.blockCount
  {
    assert Lifted(Extension, 0);
    OpenBacked(mid, g, ino');
  }

  /** A file keeps its bytes when a write gave up before writing. */
  lemma GrowthKeepsBytes(c: Cipher, fs: FS, mid: FS, fs': FS, g: Geometry, ino: Inode, ino': Inode)
    requires Laid(g) && Backed(fs, g, ino) && Extends(fs, mid, g, ino, ino') && Unharmed(mid, fs')
    ensures BytesKept(c, fs, fs', ino)
  {
    OpenBytesKept(c, fs, fs', ino);
    OldMapStands(fs, mid, fs', g, ino, ino');
    assert Lifted(Extension, 0);
    OpenBacked(fs, g, ino);
    forall k: nat | k < ino.blockCount
      ensures PlainBlock(c, fs'.data, ino, k) == PlainBlock(c, fs.data, ino, k)
    {
      OwnedAt(fs.data, ino, k);
      assert InData(g, BlockAt(fs.data, ino, k));
    }
    PlainBlocksSame(c, fs.data, ino, fs'.data, ino, ino.blockCount);
  }

  /** The blocks that growing took before it gave up stay in use, and belong to nobody. */
  lemma GrowthKeepsUsed(fs: FS, mid: FS, fs': FS, g: Geometry, ino: Inode, ino': Inode)
    requires Laid(g) && Backed(fs, g, ino) && Extends(fs, mid, g, ino, ino') && Unharmed(mid, fs')
    ensures Owned(fs'.data, ino) == Owned(fs.data, ino) && fs.used <= fs'.used
  {
    OldMapStands(fs, mid, fs', g, ino, ino');
    OpenExtends(fs, mid, g, ino, ino');
  }

  /** From the chunks to the effect. */
  lemma WroteAll(c: Cipher, fs: FS, mid: FS, fs': FS, g: Geometry, ino: Inode, grown: Inode, stored: Inode,
      offset: nat, buf: seq<byte>, written: nat, blocks: nat)
    requires Backed(fs, g, ino) && Extends(fs, mid, g, ino, grown) && written <= |buf|
    requires Progress(c, mid, fs', g, grown, Plain(c, mid.data, grown), offset, buf, written)
    requires stored.direct == grown.direct && stored.indirect == grown.indirect
    requires stored.blockCount == grown.blockCount == Max(ino.blockCount, blocks)
    requires stored.size == Max(ino.size, offset + written)
    requires SameButMap(ino, stored)
    ensures Wrote(c, fs, fs', ino, stored, offset, buf[..written], blocks)
    ensures Mapped(fs'.data, g, stored) && Owned(fs'.data, stored) == Owned(mid.data, grown)
    ensures OnlyItsBlocks(mid, fs', grown)
  {
    var base := Plain(c, mid.data, grown);
    assert Lifted(Progressing, 0);
    RewrittenOnly(c, mid, fs', g, grown, Over(base, offset, buf[..written]));
    RewrittenBlocks(c, mid, fs', g, grown, Over(base, offset, buf[..written]));
    ExtendsContent(c, fs, mid, g, ino, grown);
    ExtendsCarries(fs, mid, g, ino, grown);
    SamePointers(c, fs'.data, g, grown, stored);
    ZeroViewsSame(c, mid.data, grown, fs'.data, stored, ino.blockCount, grown.blockCount);
    OpenOverlaid(c, fs, fs', ino, stored, offset, buf[..written]);
  }

  lemma RewrittenBlocks(c: Cipher, mid: FS, fs: FS, g: Geometry, ino: Inode, plain: seq<byte>)
    requires Rewritten(c, mid, fs, g, ino, plain)
    ensures forall k: nat :: k < ino.blockCount ==> BlockAt(fs.data, ino, k) == BlockAt(mid.data, ino, k)
  {
    assert Lifted(Rewrite, 0);
  }

  /** The tests made before anything is touched. */
  function WriteRefusal(writable: Status, ino: Inode, offset: nat, len: nat): Status {
    if !IsFile(ino.entryType) then NotFile
    else if len == 0 then Ok
    else if writable != Ok then writable
    else if ReadOnly(ino.security) then WriteProtected
    else if offset + len > 1034 * 4096 then BufferTooSmall
    else Ok
  }

  /** What a write answers on a device that does not fail. */
  function WriteAnswer(writable: Status, ino: Inode, offset: nat, len: nat, free: nat): Status {
    var refusal := WriteRefusal(writable, ino, offset, len);
    if refusal == Ok && len > 0 && Demand(ino.blockCount, BlocksFor(offset + len)) > free then NoFreeBlocks else refusal
  }

  /**
   Writes `buf` at `offset`.  Under any device failures this is a step on inode `i`
   alone; on a healthy device the answer and the effect are exact.
   */
  method FileWrite(v: Volume, ino: Inode, i: u32, offset: u32, buf: seq<byte>)
      returns (st: Status, written: nat, ino': Inode)
    requires v.Valid() && Sound(v.fs, v.geo) && Holds(v.fs, i) && v.fs.table[i] == ino && |buf| < 0x1_0000_0000
    modifies v`blocks, v`freeBlocks, v`fs
    ensures Head(v.blocks) == Head(old(v.blocks))
    ensures v.Valid()
    ensures StepOn(old(v.fs), v.fs, v.geo, i)
    ensures v.healthy ==>
      && st == WriteAnswer(v.WritableStatus(), ino, offset, |buf|, Room(old(v.Free())))
      && written == if st == Ok then |buf| else 0
    ensures v.healthy && ino.entryType % 2 == 0 ==> st == NotFile
    ensures v.healthy && ino.entryType % 2 == 1 && |buf| == 0 ==> st == Ok
    ensures v.healthy && ino.entryType % 2 == 1 && |buf| > 0 && (v.state.locked || v.state.error) ==> st == VolumeDirty
    ensures v.healthy && ino.entryType % 2 == 1 && |buf| > 0 && !v.state.locked && !v.state.error ==>
      st == if v.security / 2 % 2 == 1 || ino.security / 2 % 2 == 1 then WriteProtected
            else if offset + |buf| > 4_235_264 then BufferTooSmall
            else if Demand(ino.blockCount, BlocksFor(offset + |buf|)) <= Room(old(v.Free())) then Ok
            else NoFreeBlocks
    ensures st == Ok && |buf| > 0 ==>
      && written <= |buf| && v.fs.table[i] == ino'
      && Took(old(v.Free()), v.Free(), Demand(ino.blockCount, BlocksFor(offset + |buf|)))
      && Wrote(CipherFor(v.security, v.id, ino), old(v.fs), v.fs, ino, ino', offset, buf[..written],
             BlocksFor(offset + |buf|))
    ensures st != Ok && v.healthy ==>
      && v.fs.table == old(v.fs.table)
      && BytesKept(CipherFor(v.security, v.id, ino), old(v.fs), v.fs, ino)
    ensures WriteRefusal(v.WritableStatus(), ino, offset, |buf|) != Ok || |buf| == 0 ==>
      v.fs == old(v.fs) && v.freeBlocks == old(v.freeBlocks)
    ensures v.healthy && st == NoFreeBlocks ==>
      && Owned(v.fs.data, ino) == Owned(old(v.fs.data), ino) && old(v.fs.used) <= v.fs.used
      && Took(old(v.Free()), v.Free(), Wasted(ino.blockCount, Room(old(v.Free()))))
    ensures v.healthy ==> SameButMap(ino, v.fs.table[i]) && (!IsFile(ino.entryType) ==> v.fs == old(v.fs))
  {
    written, ino' := 0, ino;
    st := WriteRefusal(v.WritableStatus(), ino, offset, |buf|);
    if st != Ok || |buf| == 0 {
      OpenBytesKept(CipherFor(v.security, v.id, ino), v.fs, v.fs, ino);
      StepSelf(v.fs, v.geo, i);
      return;
    }
    assert Backed(v.fs, v.geo, ino) by { SoundBacked(v.fs, v.geo, i); }
    st, written, ino' := GrowAndWrite(v, ino, i, offset, buf);
  }

  method GrowAndWrite(v: Volume, ino: Inode, i: u32, offset: u32, buf: seq<byte>)
      returns (st: Status, written: nat, ino': Inode)
    requires v.Valid() && Backed(v.fs, v.geo, ino) && Holds(v.fs, i) && v.fs.table[i] == ino && v.Writable()
    requires 0 < |buf| && offset + |buf| <= 1034 * 4096
    modifies v`blocks, v`freeBlocks, v`fs
    ensures Head(v.blocks) == Head(old(v.blocks))
    ensures v.Valid()
    ensures StepOn(old(v.fs), v.fs, v.geo, i)
    ensures v.healthy ==>
      st == if Demand(ino.blockCount, BlocksFor(offset + |buf|)) <= Room(old(v.Free())) then Ok else NoFreeBlocks
    ensures v.healthy ==> written == if st == Ok then |buf| else 0
    ensures st == Ok ==>
      && written <= |buf| && v.fs.table[i] == ino'
      && Took(old(v.Free()), v.Free(), Demand(ino.blockCount, BlocksFor(offset + |buf|)))
      && Wrote(CipherFor(v.security, v.id, ino), old(v.fs), v.fs, ino, ino', offset, buf[..written],
             BlocksFor(offset + |buf|))
    ensures st == NoFreeBlocks && v.healthy ==>
      && v.fs.table == old(v.fs.table)
      && BytesKept(CipherFor(v.security, v.id, ino), old(v.fs), v.fs, ino)
      && Owned(v.fs.data, ino) == Owned(old(v.fs.data), ino) && old(v.fs.used) <= v.fs.used
      && Took(old(v.Free()), v.Free(), Wasted(ino.blockCount, Room(old(v.Free()))))
  {
    ghost var c := CipherFor(v.security, v.id, ino);
    ghost var mid;
    var last := (offset + |buf| - 1) / 4096;
    written := 0;
    st, ino', mid := EnsureBlocks(v, ino, last);
    if st != Ok {
      ExtendsBacked(old(v.fs), mid, v.geo, ino, ino');
      WriteIsStep(old(v.fs), mid, v.fs, v.geo, i, ino, ino', true, ino);
      GrowthKeepsBytes(c, old(v.fs), mid, v.fs, v.geo, ino, ino');
      GrowthKeepsUsed(old(v.fs), mid, v.fs, v.geo, ino, ino');
      return;
    }
    st, written, ino' := WriteAndRecord(v, ino, ino', i, offset, buf, c, old(v.fs));
  }

  /** The chunks, the new size and the inode. */
  method WriteAndRecord(v: Volume, ino: Inode, grown: Inode, i: u32, offset: u32, buf: seq<byte>, ghost c: Cipher,
      ghost before: FS)
    returns (st: Status, written: nat, ino': Inode)
    requires v.Valid() && Backed(before, v.geo, ino) && Holds(before, i) && before.table[i] == ino && v.Writable()
    requires Extends(before, v.fs, v.geo, ino, grown) && c == CipherFor(v.security, v.id, ino)
    requires 0 < |buf| && offset + |buf| <= 1034 * 4096
    requires grown.blockCount == Max(ino.blockCount, BlocksFor(offset + |buf|))
    modifies v`blocks, v`fs
    ensures Head(v.blocks) == Head(old(v.blocks))
    ensures v.Valid()
    ensures StepOn(before, v.fs, v.geo, i) && v.fs.used == old(v.fs.used)
    ensures v.healthy ==> st == Ok && written == |buf|
    ensures st == Ok ==>
      && written <= |buf| && v.fs.table[i] == ino'
      && Wrote(c, before, v.fs, ino, ino', offset, buf[..written], BlocksFor(offset + |buf|))
  {
    ghost var mid := v.fs;
    ExtendsCarries(before, mid, v.geo, ino, grown);
    ExtendsBacked(before, mid, v.geo, ino, grown);
    ProgressStart(c, mid, v.geo, grown, Plain(c, mid.data, grown), offset, buf);
    var failure;
    failure, written := WriteRange(v, grown, offset, buf, c, mid, Plain(c, mid.data, grown));
    ProgressMapped(c, mid, v.fs, v.geo, grown, Plain(c, mid.data, grown), offset, buf, written);
    st, ino' := RecordSize(v, ino, grown, i, offset, buf, written, c, before, mid);
    if st != Ok {
      written := 0;
    } else if failure != Ok && written == 0 {
      st := failure;
    }
  }

  /** The inode as it is stored after the first `end` bytes have been reached. */
  function Reaching(ino: Inode, end: u32): Inode {
    if end > ino.size then ino.(size := end) else ino
  }

  /** The whole write as one step, whether or not the inode could be stored. */
  lemma WriteLands(c: Cipher, before: FS, mid: FS, after: FS, fs': FS, g: Geometry, i: nat, ino: Inode, grown: Inode,
      stored: Inode, offset: u32, buf: seq<byte>, written: nat, blocks: nat)
    requires Laid(g) && Backed(before, g, ino) && Holds(before, i) && before.table[i] == ino
    requires Extends(before, mid, g, ino, grown) && written <= |buf| && offset + written < 0x1_0000_0000
    requires Progress(c, mid, after, g, grown, Plain(c, mid.data, grown), offset, buf, written)
    requires grown.blockCount == Max(ino.blockCount, blocks) && Restamped(Reaching(grown, offset + written), stored)
    requires after.table == mid.table && i < |after.table|
    requires (fs' == after || fs' == after.(table := after.table[i := stored]))
    ensures StepOn(before, fs', g, i)
    ensures Wrote(c, before, fs', ino, stored, offset, buf[..written], blocks)
  {
    ExtendsCarries(before, mid, g, ino, grown);
    ExtendsBacked(before, mid, g, ino, grown);
    WroteAll(c, before, mid, after, g, ino, grown, stored, offset, buf, written, blocks);
    OpenOverlaid(c, before, after, ino, stored, offset, buf[..written]);
    OpenOverlaid(c, before, fs', ino, stored, offset, buf[..written]);
    WriteIsStep(before, mid, fs', g, i, ino, grown, fs' == after, stored);
  }

  method RecordSize(v: Volume, ghost ino: Inode, grown: Inode, i: u32, offset: u32, ghost buf: seq<byte>, written: nat,
      ghost c: Cipher, ghost before: FS, ghost mid: FS)
    returns (st: Status, ino': Inode)
    requires v.Valid() && Backed(before, v.geo, ino) && Holds(before, i) && before.table[i] == ino && v.Writable()
    requires Extends(before, mid, v.geo, ino, grown)
    requires 0 < |buf| && offset + |buf| <= 1034 * 4096
    requires grown.blockCount == Max(ino.blockCount, BlocksFor(offset + |buf|)) && written <= |buf|
    requires Progress(c, mid, v.fs, v.geo, grown, Plain(c, mid.data, grown), offset, buf, written)
    modifies v`blocks, v`fs
    ensures Head(v.blocks) == Head(old(v.blocks))
    ensures v.Valid()
    ensures StepOn(before, v.fs, v.geo, i) && v.fs.used == old(v.fs.used)
    ensures v.healthy ==> st == Ok
    ensures st == Ok ==>
      v.fs.table[i] == ino' && Wrote(c, before, v.fs, ino, ino', offset, buf[..written], BlocksFor(offset + |buf|))
  {
    ghost var after := v.fs;
    assert v.fs.table == before.table && KnownType(grown.entryType) by {
      ExtendsCarries(before, mid, v.geo, ino, grown);
      ExtendsBacked(before, mid, v.geo, ino, grown);
      ProgressMapped(c, mid, v.fs, v.geo, grown, Plain(c, mid.data, grown), offset, buf, written);
      HeldIsKnown(v.blocks, v.geo, v.fs, i);
    }
    assert mid.table == before.table by { ExtendsBacked(before, mid, v.geo, ino, grown); }
    var stored := Reaching(grown, offset + written);
    st, ino' := InodeWrite(v, i, stored);
    WriteLands(c, before, mid, after, v.fs, v.geo, i, ino, grown, if st == Ok then ino' else stored, offset, buf,
        written, BlocksFor(offset + |buf|));
  }

  // ---- truncating ----

  lemma CutBackStep(fs: FS, fs': FS, g: Geometry, i: nat, ino: Inode, cut: Inode, stored: Inode, newSize: u32,
      c: Cipher)
    requires Laid(g) && Backed(fs, g, ino) && Holds(fs, i) && fs.table[i] == ino && |fs.data| == g.totalBlocks
    requires newSize < ino.size
    requires cut == if BlocksFor(newSize) < ino.blockCount then CutBack(ino, BlocksFor(newSize)) else ino
    requires Restamped(cut.(size := newSize), stored)
    requires fs'.data == fs.data && fs'.table == fs.table[i := stored]
    requires fs'.used == fs.used - (Owned(fs.data, ino) - Owned(fs.data, cut))
    ensures StepOn(fs, fs', g, i)
    ensures Truncated(c, fs, fs', ino, stored, newSize)
  {
    OpenBacked(fs, g, ino);
    if BlocksFor(newSize) < ino.blockCount {
      CutBackDrops(fs.data, g, ino, BlocksFor(newSize));
    }
    CutMap(fs.data, g, ino, cut, stored, newSize, c);
    OpenCutOff(c, fs, fs', ino, stored);
    OpenStepOn(fs, fs', g, i);
  }

  lemma CutMap(data: seq<Block>, g: Geometry, ino: Inode, cut: Inode, stored: Inode, newSize: u32, c: Cipher)
    requires Laid(g) && Mapped(data, g, ino) && newSize < ino.size
    requires cut == if BlocksFor(newSize) < ino.blockCount then CutBack(ino, BlocksFor(newSize)) else ino
    requires Restamped(cut.(size := newSize), stored)
    ensures Mapped(data, g, stored) && Owned(data, stored) == Owned(data, cut)
    ensures Plain(c, data, stored) == Plain(c, data, ino)[..4096 * stored.blockCount]
  {
    if BlocksFor(newSize) < ino.blockCount {
      CutMapAt(data, g, ino, BlocksFor(newSize), stored, newSize, c);
    } else {
      SamePointers(c, data, g, ino, stored);
    }
  }

  /** When there are blocks to cut off. */
  lemma CutMapAt(data: seq<Block>, g: Geometry, ino: Inode, m: u32, stored: Inode, newSize: u32, c: Cipher)
    requires Laid(g) && Mapped(data, g, ino) && newSize < ino.size && newSize <= 4096 * m && m < ino.blockCount
    requires Restamped(CutBack(ino, m).(size := newSize), stored)
    ensures Mapped(data, g, stored) && Owned(data, stored) == Owned(data, CutBack(ino, m))
    ensures Plain(c, data, stored) == Plain(c, data, ino)[..4096 * m]
  {
    var shrunk := ino.(size := newSize);
    SamePointers(c, data, g, ino, shrunk);
    CutBackMap(data, g, shrunk, m);
    assert CutBack(shrunk, m) == CutBack(ino, m).(size := newSize);
    SamePointers(c, data, g, CutBack(shrunk, m), stored);
    SamePointers(c, data, g, CutBack(ino, m), stored);
    CutBackBytes(c, data, g, ino, m);
  }

  lemma CutBackBytes(c: Cipher, data: seq<Block>, g: Geometry, ino: Inode, from: u32)
    requires Laid(g) && Mapped(data, g, ino) && from < ino.blockCount
    ensures Plain(c, data, CutBack(ino, from)) == Plain(c, data, ino)[..4096 * from]
  {
    CutBackMap(data, g, ino, from);
    PlainBlocksSame(c, data, ino, data, CutBack(ino, from), from);
    PlainBlocksAt(c, data, ino, ino.blockCount, from);
    FlattenParts(PlainBlocks(c, data, ino, ino.blockCount), from);
  }

  /** The file reads as the first of its old blocks. */
  ghost predicate CutOff(c: Cipher, fs: FS, fs': FS, ino: Inode, ino': Inode)
    requires ino'.blockCount <= ino.blockCount
  {
    var r: bool :| forall k {:trigger Lifted(Overlaying, k)} :: Lifted(Overlaying, k) ==>
      (r <==> CutOffInFull(c, fs, fs', ino, ino'));
    r
  }

  ghost predicate CutOffInFull(c: Cipher, fs: FS, fs': FS, ino: Inode, ino': Inode)
    requires ino'.blockCount <= ino.blockCount
  {
    Plain(c, fs'.data, ino') == Plain(c, fs.data, ino)[..4096 * ino'.blockCount]
  }

  lemma OpenCutOff(c: Cipher, fs: FS, fs': FS, ino: Inode, ino': Inode)
    requires ino'.blockCount <= ino.blockCount
    ensures CutOff(c, fs, fs', ino, ino') <==> CutOffInFull(c, fs, fs', ino, ino')
  {
    assert Lifted(Overlaying, 0);
  }

  /** The file reads as it did. */
  ghost predicate BytesKept(c: Cipher, fs: FS, fs': FS, ino: Inode) {
    var r: bool :| forall k {:trigger Lifted(Overlaying, k)} :: Lifted(Overlaying, k) ==>
      (r <==> BytesKeptInFull(c, fs, fs', ino));
    r
  }

  ghost predicate BytesKeptInFull(c: Cipher, fs: FS, fs': FS, ino: Inode) {
    Plain(c, fs'.data, ino) == Plain(c, fs.data, ino)
  }

  lemma OpenBytesKept(c: Cipher, fs: FS, fs': FS, ino: Inode)
    ensures BytesKept(c, fs, fs', ino) <==> BytesKeptInFull(c, fs, fs', ino)
  {
    assert Lifted(Overlaying, 0);
  }

  /**
   The effect of cutting a file down to `newSize`: the whole blocks that still hold some of it
   remain, with their bytes.
   */
  ghost predicate Truncated(c: Cipher, fs: FS, fs': FS, ino: Inode, ino': Inode, newSize: nat) {
    && ino'.size == newSize
    && ino'.blockCount == Min(ino.blockCount, BlocksFor(newSize))
    && SameButMap(ino, ino')
    && CutOff(c, fs, fs', ino, ino')
    && fs'.used == fs.used - (Owned(fs.data, ino) - Owned(fs.data, ino'))
  }

  function TruncateRefusal(writable: Status, ino: Inode): Status {
    if !IsFile(ino.entryType) then NotFile
    else if writable != Ok then writable
    else if ReadOnly(ino.security) then WriteProtected
    else Ok
  }

  /** Cuts a file down to `newSize` bytes; a size that is not smaller changes nothing. */
  method FileTruncate(v: Volume, ino: Inode, i: u32, newSize: u32) returns (st: Status, ino': Inode)
    requires v.Valid() && Sound(v.fs, v.geo) && Holds(v.fs, i) && v.fs.table[i] == ino
    modifies v`blocks, v`freeBlocks, v`fs
    ensures Head(v.blocks) == Head(old(v.blocks))
    ensures v.Valid()
    ensures Confined(old(v.fs), v.fs, v.geo, i)
    ensures v.healthy || st == Ok ==> StepOn(old(v.fs), v.fs, v.geo, i)
    ensures v.healthy ==> st == TruncateRefusal(v.WritableStatus(), ino)
    ensures v.healthy && ino.entryType % 2 == 0 ==> st == NotFile
    ensures v.healthy && ino.entryType % 2 == 1 && (v.state.locked || v.state.error) ==> st == VolumeDirty
    ensures v.healthy && ino.entryType % 2 == 1 && !v.state.locked && !v.state.error ==>
      st == if v.security / 2 % 2 == 1 || ino.security / 2 % 2 == 1 then WriteProtected else Ok
    ensures st == Ok && newSize >= ino.size ==> v.fs == old(v.fs) && ino' == ino
    ensures st == Ok && newSize < ino.size ==>
      && v.fs.table[i] == ino' && Truncated(CipherFor(v.security, v.id, ino), old(v.fs), v.fs, ino, ino', newSize)
      && Gave(old(v.Free()), v.Free(), Footprint(ino.blockCount) - Footprint(ino'.blockCount))
    ensures v.healthy && (st != Ok || newSize >= ino.size) ==> v.fs == old(v.fs) && v.freeBlocks == old(v.freeBlocks)
    ensures v.healthy ==> SameButMap(ino, v.fs.table[i])
  {
    ino' := ino;
    st := TruncateRefusal(v.WritableStatus(), ino);
    if st != Ok || newSize >= ino.size {
      StepSelf(v.fs, v.geo, i);
      return;
    }
    assert Backed(v.fs, v.geo, ino) by { SoundBacked(v.fs, v.geo, i); }
    st, ino' := CutDown(v, ino, i, newSize);
  }

  method CutDown(v: Volume, ino: Inode, i: u32, newSize: u32) returns (st: Status, ino': Inode)
    requires v.Valid() && Backed(v.fs, v.geo, ino) && Holds(v.fs, i) && v.fs.table[i] == ino && newSize < ino.size
    requires v.Writable()
    modifies v`blocks, v`freeBlocks, v`fs
    ensures Head(v.blocks) == Head(old(v.blocks))
    ensures v.Valid()
    ensures Confined(old(v.fs), v.fs, v.geo, i)
    ensures v.healthy ==> st == Ok
    ensures st == Ok ==>
      && StepOn(old(v.fs), v.fs, v.geo, i)
      && v.fs.table[i] == ino' && Truncated(CipherFor(v.security, v.id, ino), old(v.fs), v.fs, ino, ino', newSize)
      && Gave(old(v.Free()), v.Free(), Footprint(ino.blockCount) - Footprint(ino'.blockCount))
  {
    ghost var before := v.fs;
    st, ino' := ReleaseBeyond(v, ino, newSize);
    if st == Ok {
      ghost var cut := ino';
      HeldIsKnown(v.blocks, v.geo, v.fs, i);
      st, ino' := InodeWrite(v, i, ino'.(size := newSize));
      if st == Ok {
        CutBackStep(before, v.fs, v.geo, i, ino, cut, ino', newSize, CipherFor(v.security, v.id, ino));
      }
    }
  }

  /** Releases the blocks that no byte below `newSize` lies in. */
  method ReleaseBeyond(v: Volume, ino: Inode, newSize: u32) returns (st: Status, ino': Inode)
    requires v.Valid() && Backed(v.fs, v.geo, ino) && v.Writable()
    modifies v`blocks, v`freeBlocks, v`fs
    ensures Head(v.blocks) == Head(old(v.blocks))
    ensures v.Valid()
    ensures v.fs.table == old(v.fs.table) && v.fs.data == old(v.fs.data)
    ensures v.fs.used <= old(v.fs.used) && old(v.fs.used) - v.fs.used <= Owned(old(v.fs.data), ino)
    ensures st == Ok ==> ino' == if BlocksFor(newSize) < ino.blockCount then CutBack(ino, BlocksFor(newSize)) else ino
    ensures st == Ok ==> v.fs.used == old(v.fs.used) - (Owned(v.fs.data, ino) - Owned(v.fs.data, ino'))
    ensures st == Ok ==> Gave(old(v.Free()), v.Free(), Footprint(ino.blockCount) - Footprint(ino'.blockCount))
    ensures v.healthy ==> st == Ok
  {
    st, ino' := Ok, ino;
    var newBlocks := newSize / 4096;
    if newSize % 4096 != 0 {
      newBlocks := newBlocks + 1;
    }
    assert newBlocks == BlocksFor(newSize);
    if newBlocks < ino.blockCount {
      st, ino' := BlockmapRelease(v, ino, newBlocks);
    } else {
      assert Owned(v.fs.data, ino) - Owned(v.fs.data, ino) == {};
    }
  }

  // ---- a file is a sequence of bytes ----

  /** After a write, the range reads back as the piece and every other byte of the old file is as it was. */
  lemma WriteReadsBack(c: Cipher, fs: FS, fs': FS, ino: Inode, ino': Inode, offset: nat, piece: seq<byte>, blocks: nat)
    requires Wrote(c, fs, fs', ino, ino', offset, piece, blocks)
    requires ino.size <= 4096 * ino.blockCount && ino'.size <= 4096 * ino'.blockCount
    ensures |Content(c, fs'.data, ino')| == Max(ino.size, offset + |piece|)
    ensures Content(c, fs'.data, ino')[offset..offset + |piece|] == piece
    ensures forall p :: 0 <= p < ino.size && !(offset <= p < offset + |piece|) ==>
      Content(c, fs'.data, ino')[p] == Content(c, fs.data, ino)[p]
  {
    OpenOverlaid(c, fs, fs', ino, ino', offset, piece);
    var base := Enlarged(c, fs, fs', ino, ino');
    OverReads(base, offset, piece);
    SliceOfPrefix(Plain(c, fs'.data, ino'), ino'.size, offset, |piece|);
  }

  /** `s` with `piece` written at `offset`, any gap filled with zeros. */
  function WriteTo(s: seq<byte>, offset: nat, piece: seq<byte>): (r: seq<byte>)
    ensures |r| == Max(|s|, offset + |piece|)
  {
    if offset + |piece| <= |s| then Over(s, offset, piece) else Over(s + Zeros(offset + |piece| - |s|), offset, piece)
  }

  /** Whatever the last block holds past the end of the file is zero. */
  ghost predicate ZeroTail(c: Cipher, fs: FS, ino: Inode) {
    forall p :: ino.size <= p < 4096 * ino.blockCount ==> Plain(c, fs.data, ino)[p] == 0
  }

  /** The old bytes from the end of the file up to where the write begins are zero, as far as its blocks go. */
  ghost predicate ZeroGap(c: Cipher, fs: FS, ino: Inode, offset: nat) {
    forall p :: ino.size <= p < Min(offset, 4096 * ino.blockCount) ==> Plain(c, fs.data, ino)[p] == 0
  }

  /**
   A write to an unencrypted file fills its gap with zeros if and only if what the
   file's blocks held there was zero.
   */
  lemma WriteFillsGaps(fs: FS, fs': FS, ino: Inode, ino': Inode, offset: nat, piece: seq<byte>, blocks: nat)
    requires Wrote(Clear, fs, fs', ino, ino', offset, piece, blocks)
    requires ino.size <= 4096 * ino.blockCount && ino'.size <= 4096 * ino'.blockCount
    ensures Content(Clear, fs'.data, ino') == WriteTo(Content(Clear, fs.data, ino), offset, piece) <==>
        ZeroGap(Clear, fs, ino, offset)
  {
    OpenOverlaid(Clear, fs, fs', ino, ino', offset, piece);
    ZeroViewsClear(fs'.data, ino', ino.blockCount, ino'.blockCount);
    var all, more := Plain(Clear, fs.data, ino), 4096 * (ino'.blockCount - ino.blockCount);
    assert Plain(Clear, fs'.data, ino') == Over(all + Zeros(more), offset, piece);
    GapBytes(all, more, ino.size, offset, piece, Content(Clear, fs.data, ino), Content(Clear, fs'.data, ino'));
  }

  /** The same about the bytes: `all` are those of the old blocks, and the new ones are zeros. */
  lemma GapBytes(all: seq<byte>, more: nat, size: nat, offset: nat, piece: seq<byte>, was: seq<byte>, now: seq<byte>)
    requires size <= |all| && offset + |piece| <= |all| + more && was == all[..size]
    requires now == Over(all + Zeros(more), offset, piece)[..Max(size, offset + |piece|)]
    ensures now == WriteTo(was, offset, piece) <==> forall p :: size <= p < Min(offset, |all|) ==> all[p] == 0
  {
    var base := all + Zeros(more);
    var spec := WriteTo(was, offset, piece);
    forall p | 0 <= p < |now|
      ensures now[p] == if offset <= p < offset + |piece| then piece[p - offset] else base[p]
      ensures spec[p] ==
        if offset <= p < offset + |piece| then piece[p - offset] else if p < size then base[p] else 0
    {
      OverAt(base, offset, piece, p);
      WriteToAt(was, offset, piece, p);
    }
    if now == spec {
      forall p | size <= p < Min(offset, |all|)
        ensures all[p] == 0
      {
        assert now[p] == spec[p];
      }
    }
  }

  /** Whatever lay past the new end stays there. */
  lemma WriteZeroTail(fs: FS, fs': FS, ino: Inode, ino': Inode, offset: nat, piece: seq<byte>, blocks: nat)
    requires Wrote(Clear, fs, fs', ino, ino', offset, piece, blocks)
    ensures ZeroTail(Clear, fs', ino') <==> forall p :: ino'.size <= p < 4096 * ino.blockCount ==>
        Plain(Clear, fs.data, ino)[p] == 0
  {
    OpenOverlaid(Clear, fs, fs', ino, ino', offset, piece);
    var base := Enlarged(Clear, fs, fs', ino, ino');
    var was, now := Plain(Clear, fs.data, ino), Plain(Clear, fs'.data, ino');
    ZeroViewsClear(fs'.data, ino', ino.blockCount, ino'.blockCount);
    forall p | ino'.size <= p < 4096 * ino'.blockCount
      ensures now[p] == if p < 4096 * ino.blockCount then was[p] else 0
    {
      OverAt(base, offset, piece, p);
    }
    if ZeroTail(Clear, fs', ino') {
      forall p | ino'.size <= p < 4096 * ino.blockCount
        ensures was[p] == 0
      {
        assert now[p] == 0;
      }
    }
  }

  lemma WriteToAt(s: seq<byte>, offset: nat, piece: seq<byte>, p: nat)
    requires p < Max(|s|, offset + |piece|)
    ensures WriteTo(s, offset, piece)[p] ==
      if offset <= p < offset + |piece| then piece[p - offset] else if p < |s| then s[p] else 0
  {
    OverAt(if offset + |piece| <= |s| then s else s + Zeros(offset + |piece| - |s|), offset, piece, p);
  }

  /** Truncating keeps the bytes below the new size. */
  lemma TruncateKeepsPrefix(c: Cipher, fs: FS, fs': FS, ino: Inode, ino': Inode, newSize: nat)
    requires Truncated(c, fs, fs', ino, ino', newSize) && newSize <= ino.size <= 4096 * ino.blockCount
    requires newSize <= 4096 * ino'.blockCount
    ensures Content(c, fs'.data, ino') == Content(c, fs.data, ino)[..newSize]
  {
    OpenCutOff(c, fs, fs', ino, ino');
    var all := Plain(c, fs.data, ino);
    assert all[..4096 * ino'.blockCount][..newSize] == all[..newSize];
    assert all[..ino.size][..newSize] == all[..newSize];
  }

  /**
   But it does not clear the rest of the last block: the tail stays zero only if what was cut off
   inside that block was zero.
   */
  lemma TruncateZeroTail(c: Cipher, fs: FS, fs': FS, ino: Inode, ino': Inode, newSize: nat)
    requires Truncated(c, fs, fs', ino, ino', newSize) && newSize <= ino.size <= 4096 * ino.blockCount
    ensures ZeroTail(c, fs', ino') <==> forall p :: newSize <= p < 4096 * Min(ino.blockCount, BlocksFor(newSize)) ==>
        Plain(c, fs.data, ino)[p] == 0
  {
    OpenCutOff(c, fs, fs', ino, ino');
  }

  /** No operation on one file changes a byte of another. */
  lemma OthersReadTheSame(c: Cipher, fs: FS, fs': FS, g: Geometry, i: nat, j: nat)
    requires Sound(fs, g) && Confined(fs, fs', g, i) && Holds(fs, j) && j != i
    ensures Holds(fs', j) && fs'.table[j] == fs.table[j]
    ensures Plain(c, fs'.data, fs'.table[j]) == Plain(c, fs.data, fs.table[j])
  {
    OtherUnchanged(fs, fs', g, i, j);
    SoundMapped(fs, g, j);
    SameContent(c, fs.data, fs'.data, g, fs.table[j]);
  }

  /** A write that reports every byte written can be read back, on any file, across any boundary, encrypted or not. */
  method WriteThenRead(v: Volume, ino: Inode, i: u32, offset: u32, buf: seq<byte>)
      returns (st: Status, written: nat, out: seq<byte>)
    requires v.Valid() && Sound(v.fs, v.geo) && Holds(v.fs, i) && v.fs.table[i] == ino && 0 < |buf| < 0x1_0000_0000
    modifies v`blocks, v`freeBlocks, v`fs
    ensures Head(v.blocks) == Head(old(v.blocks))
    ensures st == Ok && written == |buf| ==> out == buf
    ensures v.healthy ==> (st == Ok ==> written == |buf|)
  {
    out := [];
    var ino';
    st, written, ino' := FileWrite(v, ino, i, offset, buf);
    if st == Ok && written == |buf| {
      ghost var before := old(v.fs);
      NowMapped(before, v.fs, v.geo, i);
      SoundMapped(before, v.geo, i);
      assert buf[..written] == buf;
      WrittenSlice(CipherFor(v.security, v.id, ino), before, v.fs, v.geo, ino, ino', offset, buf);
      st, out := FileRead(v, ino', offset, |buf|);
    }
  }

  lemma WrittenSlice(c: Cipher, fs: FS, fs': FS, g: Geometry, ino: Inode, ino': Inode, offset: nat, buf: seq<byte>)
    requires Wrote(c, fs, fs', ino, ino', offset, buf, BlocksFor(offset + |buf|))
    requires Mapped(fs.data, g, ino) && Mapped(fs'.data, g, ino')
    ensures Slice(Content(c, fs'.data, ino'), offset, |buf|) == buf
  {
    WriteReadsBack(c, fs, fs', ino, ino', offset, buf, BlocksFor(offset + |buf|));
  }

  lemma NowMapped(fs: FS, fs': FS, g: Geometry, i: nat)
    requires StepOn(fs, fs', g, i) && Holds(fs', i)
    ensures Mapped(fs'.data, g, fs'.table[i])
  {
    OpenStepOn(fs, fs', g, i);
  }

  // ---- what runs leave alone ----

  /** Slot `j` holds an inode that is not deleted. */
  predicate InUse(fs: FS, j: nat) {
    Holds(fs, j) && !IsDeleted(fs.table[j].entryType)
  }

  /** Every inode in use outside `who` is still there with the same record, and reads the same under any key. */
  ghost predicate Spared(fs: FS, fs': FS, who: set<nat>) {
    var r: bool :| forall k {:trigger Lifted(Sparing, k)} :: Lifted(Sparing, k) ==> (r <==> SparedInFull(fs, fs', who));
    r
  }

  ghost predicate SparedInFull(fs: FS, fs': FS, who: set<nat>) {
    forall j: nat :: InUse(fs, j) && j !in who ==> SparedOne(fs, fs', j)
  }

  lemma OpenSpared(fs: FS, fs': FS, who: set<nat>)
    ensures Spared(fs, fs', who) <==> SparedInFull(fs, fs', who)
  {
    assert Lifted(Sparing, 0);
  }

  ghost predicate SparedOne(fs: FS, fs': FS, j: nat)
    requires InUse(fs, j)
  {
    && InUse(fs', j) && fs'.table[j] == fs.table[j]
    && forall c :: Plain(c, fs'.data, fs'.table[j]) == Plain(c, fs.data, fs.table[j])
  }

  lemma SparedSelf(fs: FS, who: set<nat>)
    ensures Spared(fs, fs, who)
  {
    OpenSpared(fs, fs, who);
  }

  lemma SparedMore(fs: FS, fs': FS, who: set<nat>, who': set<nat>)
    requires Spared(fs, fs', who) && who <= who'
    ensures Spared(fs, fs', who')
  {
    OpenSpared(fs, fs', who);
    OpenSpared(fs, fs', who');
  }

  /** If nothing that was in use has changed, nobody notices. */
  lemma UnharmedSpares(fs: FS, fs': FS, g: Geometry)
    requires Sound(fs, g) && Unharmed(fs, fs')
    ensures Spared(fs, fs', {})
  {
    OpenSpared(fs, fs', {});
    forall j: nat | InUse(fs, j)
      ensures SparedOne(fs, fs', j)
    {
      SoundMapped(fs, g, j);
      forall c
        ensures Plain(c, fs'.data, fs'.table[j]) == Plain(c, fs.data, fs.table[j])
      {
        SameContent(c, fs.data, fs'.data, g, fs.table[j]);
      }
    }
  }

  lemma SparedByStep(fs: FS, fs': FS, g: Geometry, i: nat)
    requires Sound(fs, g) && Confined(fs, fs', g, i)
    ensures Spared(fs, fs', {i})
    ensures !InUse(fs, i) ==> Spared(fs, fs', {})
  {
    OpenSpared(fs, fs', {i});
    OpenSpared(fs, fs', {});
    forall j: nat | InUse(fs, j) && j != i
      ensures SparedOne(fs, fs', j)
    {
      forall c
        ensures InUse(fs', j) && fs'.table[j] == fs.table[j]
        ensures Plain(c, fs'.data, fs'.table[j]) == Plain(c, fs.data, fs.table[j])
      {
        OthersReadTheSame(c, fs, fs', g, i, j);
      }
      OthersReadTheSame(Clear, fs, fs', g, i, j);
    }
  }

  lemma SparedTransitive(fs: FS, mid: FS, fs': FS, who: set<nat>, who': set<nat>)
    requires Spared(fs, mid, who) && Spared(mid, fs', who')
    ensures Spared(fs, fs', who + who')
    ensures who' <= who ==> Spared(fs, fs', who)
  {
    OpenSpared(fs, mid, who);
    OpenSpared(mid, fs', who');
    OpenSpared(fs, fs', who + who');
    OpenSpared(fs, fs', who);
    forall j: nat | InUse(fs, j) && j !in who && j !in who'
      ensures SparedOne(fs, fs', j)
    {
      assert SparedOne(fs, mid, j) && SparedOne(mid, fs', j);
    }
  }

  /** A slot that was vacant at first does not matter. */
  lemma SparedUndo(fs: FS, mid: FS, fs': FS, who: set<nat>, ino: nat)
    requires Spared(fs, mid, who) && Spared(mid, fs', {ino}) && !InUse(fs, ino)
    ensures Spared(fs, fs', who)
  {
    OpenSpared(fs, mid, who);
    OpenSpared(mid, fs', {ino});
    OpenSpared(fs, fs', who);
    forall j: nat | InUse(fs, j) && j !in who
      ensures SparedOne(fs, fs', j)
    {
      assert SparedOne(fs, mid, j) && SparedOne(mid, fs', j);
    }
  }
}
