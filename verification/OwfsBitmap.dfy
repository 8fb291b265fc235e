/**
 The OWFS allocation bitmap: one bit per data block, scanned first-fit.
 */
module OwfsBitmap {
  import opened Words
  import opened Bitmap
  import opened Ranges
  import opened Splice
  import opened Fletcher64
  import opened OwfsTypes
  import opened OwfsVolume

  // ---- how many blocks are in use ----

  lemma UsedFits(g: Geometry, used: set<nat>)
    requires Laid(g) && forall b :: b in used ==> InData(g, b)
    ensures |used| <= g.totalBlocks - g.dataStart
  {
    var all := Range(g.dataStart, g.totalBlocks);
    RangeSize(g.dataStart, g.totalBlocks);
    assert used <= all;
    SubsetSize(used, all);
  }

  /** At most every data block is in use; if every one is, none is free. */
  lemma UsedSize(blocks: seq<Block>, g: Geometry, used: set<nat>)
    requires Laid(g) && BitmapRep(blocks, g, used)
    ensures |used| <= g.totalBlocks - g.dataStart
    ensures AllMarked(blocks, g.totalBlocks - g.dataStart) ==> |used| == g.totalBlocks - g.dataStart
  {
    UsedFits(g, used);
    if AllMarked(blocks, g.totalBlocks - g.dataStart) {
      var all := Range(g.dataStart, g.totalBlocks);
      RangeSize(g.dataStart, g.totalBlocks);
      forall b | b in all
        ensures b in used
      {
        assert Marked(blocks, b - g.dataStart);
      }
      assert used == all;
    }
  }

  // ---- allocation ----

  /** The scan: the first clear bit, over blocks, bytes and bits. */
  method FirstClear(v: Volume) returns (st: Status, b: nat, y: nat, t: nat, buf: Block)
    requires Laid(v.geo) && v.geo.totalBlocks <= |v.blocks|
    ensures st == Ok ==> b < v.geo.bitmapBlocks && y < 4096 && t < 8 && buf == v.blocks[17 + b]
    ensures st == Ok ==> !Bit(buf[y], t) && AllMarked(v.blocks, BitIndex(b, y, t))
    ensures st == NoFreeBlocks ==> AllMarked(v.blocks, 32768 * v.geo.bitmapBlocks)
    ensures st == Ok || st == NoFreeBlocks || (st == IoError && !v.healthy)
  {
    b, y, t, buf := 0, 0, 0, ZeroBlock();
    while b < v.geo.bitmapBlocks
      invariant 0 <= b <= v.geo.bitmapBlocks
      invariant AllMarked(v.blocks, 32768 * b)
    {
      var hres;
      hres, buf := v.ReadBlock(v.geo.bitmapStart + b);
      if hres != HtlOk {
        return IoError, b, y, t, buf;
      }
      y := 0;
      while y < 4096
        invariant 0 <= y <= 4096
        invariant AllMarked(v.blocks, 32768 * b + 8 * y)
      {
        if buf[y] != 0xFF {
          t := 0;
          while t < 8
            invariant 0 <= t <= 8
            invariant AllMarked(v.blocks, BitIndex(b, y, t))
          {
            if !Bit(buf[y], t) {
              return Ok, b, y, t, buf;
            }
            MarkedAt(v.blocks, b, y, t);
            t := t + 1;
          }
        } else {
          FullByteMarks(v.blocks, b, y);
        }
        y := y + 1;
      }
      b := b + 1;
    }
    return NoFreeBlocks, b, y, t, buf;
  }

  /** Marking a block used or free is one change to the set of used blocks. */
  lemma MarkUsed(blocks: seq<Block>, g: Geometry, fs: FS, r: nat, after: seq<Block>)
    requires Laid(g) && Sized(g, fs) && Stored(blocks, g, fs) && r < g.totalBlocks - g.dataStart
    requires 17 + r / 32768 < |blocks| && after == WithByte(blocks, r, ByteWithBit(ByteOfBit(blocks, r), r % 8))
    ensures Stored(after, g, fs.(used := fs.used + {g.dataStart + r}))
  {
    OpenStored(blocks, g, fs);
    BitmapBlockBelow(g, r);
    BitmapWriteKeeps(blocks, g, fs, 17 + r / 32768, after[17 + r / 32768]);
    forall q: nat | q < g.totalBlocks - g.dataStart
      ensures Marked(after, q) <==> g.dataStart + q in fs.used + {g.dataStart + r}
    {
      SetMark(blocks, r, q);
    }
    OpenStored(after, g, fs.(used := fs.used + {g.dataStart + r}));
  }

  lemma MarkFree(blocks: seq<Block>, g: Geometry, fs: FS, r: nat, after: seq<Block>)
    requires Laid(g) && Sized(g, fs) && Stored(blocks, g, fs) && r < g.totalBlocks - g.dataStart
    requires 17 + r / 32768 < |blocks| && after == WithByte(blocks, r, ByteWithoutBit(ByteOfBit(blocks, r), r % 8))
    ensures Stored(after, g, fs.(used := fs.used - {g.dataStart + r}))
  {
    OpenStored(blocks, g, fs);
    BitmapBlockBelow(g, r);
    BitmapWriteKeeps(blocks, g, fs, 17 + r / 32768, after[17 + r / 32768]);
    forall q: nat | q < g.totalBlocks - g.dataStart
      ensures Marked(after, q) <==> g.dataStart + q in fs.used - {g.dataStart + r}
    {
      ClearMark(blocks, r, q);
    }
    OpenStored(after, g, fs.(used := fs.used - {g.dataStart + r}));
  }

  lemma MarkOnly(blocks: seq<Block>, g: Geometry, used: set<nat>, r: nat)
    requires Laid(g) && BitmapRep(blocks, g, used) && r < g.totalBlocks - g.dataStart
    ensures Marked(blocks, r) <==> g.dataStart + r in used
  {
  }

  /** Everything below the first clear bit is in use. */
  lemma FirstFit(blocks: seq<Block>, g: Geometry, used: set<nat>, r: nat)
    requires Laid(g) && BitmapRep(blocks, g, used) && AllMarked(blocks, r) && r <= g.totalBlocks - g.dataStart
    ensures forall b :: g.dataStart <= b < g.dataStart + r ==> b in used
  {
    forall b | g.dataStart <= b < g.dataStart + r
      ensures b in used
    {
      assert Marked(blocks, b - g.dataStart);
    }
  }

  /** Writes the bitmap block with the bit of `block` set. */
  method SetBlockBit(v: Volume, block: nat, k: nat, buf: Block) returns (st: Status)
    requires v.Represents() && InData(v.geo, block)
    requires k == 17 + (block - v.geo.dataStart) / 32768 < |v.blocks| && buf == v.blocks[k]
    modifies v`blocks, v`fs
    ensures Head(v.blocks) == Head(old(v.blocks))
    ensures v.Represents()
    ensures st == Ok ==> v.fs == old(v.fs).(used := old(v.fs.used) + {block})
    ensures st != Ok ==> v.fs == old(v.fs)
    ensures st == Ok || (!v.healthy && (st == IoError || st == WriteProtected))
  {
    var rel := block - v.geo.dataStart;
    var y, t := rel % 32768 / 8, rel % 8;
    var hres := v.WriteBlock(k, buf[y := ByteWithBit(buf[y], t)]);
    if hres != HtlOk {
      return WriteStatus(hres);
    }
    MarkUsed(old(v.blocks), v.geo, v.fs, rel, v.blocks);
    v.fs := v.fs.(used := v.fs.used + {block});
    return Ok;
  }

  /** Writes the bitmap block with the bit of `block` cleared. */
  method ClearBlockBit(v: Volume, block: nat, k: nat, buf: Block) returns (st: Status)
    requires v.Represents() && InData(v.geo, block)
    requires k == 17 + (block - v.geo.dataStart) / 32768 < |v.blocks| && buf == v.blocks[k]
    modifies v`blocks, v`fs
    ensures Head(v.blocks) == Head(old(v.blocks))
    ensures v.Represents()
    ensures st == Ok ==> v.fs == old(v.fs).(used := old(v.fs.used) - {block})
    ensures st != Ok ==> v.fs == old(v.fs)
    ensures st == Ok || (!v.healthy && (st == IoError || st == WriteProtected))
  {
    var rel := block - v.geo.dataStart;
    var y, t := rel % 32768 / 8, rel % 8;
    var hres := v.WriteBlock(k, buf[y := ByteWithoutBit(buf[y], t)]);
    if hres != HtlOk {
      return WriteStatus(hres);
    }
    MarkFree(old(v.blocks), v.geo, v.fs, rel, v.blocks);
    v.fs := v.fs.(used := v.fs.used - {block});
    return Ok;
  }

  lemma FirstClearBlock(blocks: seq<Block>, g: Geometry, used: set<nat>, b: nat, y: nat, t: nat)
    requires Laid(g) && BitmapRep(blocks, g, used) && 17 + b < |blocks| && y < 4096 && t < 8
    requires !Bit(blocks[17 + b][y], t) && AllMarked(blocks, BitIndex(b, y, t))
    requires BitIndex(b, y, t) < g.totalBlocks - g.dataStart
    ensures BitIndex(b, y, t) / 32768 == b
    ensures g.dataStart + BitIndex(b, y, t) !in used
    ensures forall c :: g.dataStart <= c < g.dataStart + BitIndex(b, y, t) ==> c in used
  {
    Coordinates(b, y, t);
    MarkedAt(blocks, b, y, t);
    MarkOnly(blocks, g, used, BitIndex(b, y, t));
    FirstFit(blocks, g, used, BitIndex(b, y, t));
  }

  /** Taking a block takes one from the free ones. */
  lemma OneTaken(blocks: seq<Block>, g: Geometry, fs: FS, block: nat)
    requires Laid(g) && Sized(g, fs) && Stored(blocks, g, fs) && InData(g, block) && block !in fs.used
    ensures Unused(g, fs.used) == Unused(g, fs.used + {block}) + 1
  {
    OpenStored(blocks, g, fs);
    OpenUnused(g, fs.used);
    OpenUnused(g, fs.used + {block});
    UsedFits(g, fs.used + {block});
  }

  /** Giving back a block that was in use makes one more free. */
  lemma OneGiven(blocks: seq<Block>, g: Geometry, fs: FS, block: nat)
    requires Laid(g) && Sized(g, fs) && Stored(blocks, g, fs) && InData(g, block)
    ensures Unused(g, fs.used - {block}) == Unused(g, fs.used) + One(block in fs.used)
  {
    OpenStored(blocks, g, fs);
    OpenUnused(g, fs.used);
    OpenUnused(g, fs.used - {block});
    UsedSize(blocks, g, fs.used);
    if block !in fs.used {
      assert fs.used - {block} == fs.used;
    }
  }

  /** Allocates the lowest free data block; reports NO_FREE_BLOCKS exactly when none is free or the count says so. */
  method BitmapAlloc(v: Volume) returns (st: Status, block: u32)
    requires v.Valid()
    modifies v`blocks, v`freeBlocks, v`fs
    ensures Head(v.blocks) == Head(old(v.blocks))
    ensures v.Valid()
    ensures st == Ok ==>
      && InData(v.geo, block) && block !in old(v.fs.used)
      && v.fs == old(v.fs).(used := old(v.fs.used) + {block})
      && Took(old(v.Free()), v.Free(), 1)
      && (forall b :: v.geo.dataStart <= b < block ==> b in old(v.fs.used))
    ensures st != Ok ==> v.fs == old(v.fs) && v.freeBlocks == old(v.freeBlocks)
    ensures st == NoFreeBlocks ==> Room(old(v.Free())) == 0
    ensures v.healthy && Room(old(v.Free())) == 0 ==> st == NoFreeBlocks
    ensures v.healthy ==> st == Ok || st == NoFreeBlocks
  {
    block := 0;
    if v.freeBlocks == 0 {
      return NoFreeBlocks, 0;
    }
    var b, buf;
    st, block, b, buf := FirstFree(v);
    if st == Ok {
      st := SetBlockBit(v, block, v.geo.bitmapStart + b, buf);
      if st == Ok {
        v.freeBlocks := v.freeBlocks - 1;
        OneTaken(old(v.blocks), v.geo, old(v.fs), block);
        KeepsDrift(old(v.Free()), v.Free(), 1, v.drift);
      }
    }
  }

  /** The lowest free data block, and the bitmap block that holds its bit; NO_FREE_BLOCKS when there is none. */
  method FirstFree(v: Volume) returns (st: Status, block: u32, b: nat, buf: Block)
    requires v.Valid() && v.freeBlocks > 0
    ensures st == NoFreeBlocks ==> Unused(v.geo, v.fs.used) == 0
    ensures st == Ok ==>
      && InData(v.geo, block) && block !in v.fs.used
      && 17 + b == 17 + (block - v.geo.dataStart) / 32768 < |v.blocks| && buf == v.blocks[17 + b]
      && (forall c :: v.geo.dataStart <= c < block ==> c in v.fs.used)
    ensures st == Ok || st == NoFreeBlocks || (st == IoError && !v.healthy)
  {
    block := 0;
    OpenStored(v.blocks, v.geo, v.fs);
    OpenUnused(v.geo, v.fs.used);
    var y, t;
    st, b, y, t, buf := FirstClear(v);
    UsedSize(v.blocks, v.geo, v.fs.used);
    if st == Ok {
      var rel := (b * 4096 + y) * 8 + t;
      if rel > v.geo.totalBlocks - 1 - v.geo.dataStart {
        assert rel == BitIndex(b, y, t);
        assert AllMarked(v.blocks, v.geo.totalBlocks - v.geo.dataStart);
        st := NoFreeBlocks;
      } else {
        assert rel == BitIndex(b, y, t);
        FirstClearBlock(v.blocks, v.geo, v.fs.used, b, y, t);
        block := v.geo.dataStart + rel;
      }
    }
  }

  /** Frees a data block; only a block that was in use is counted. */
  method BitmapFree(v: Volume, block: u32) returns (st: Status)
    requires v.Valid()
    modifies v`blocks, v`freeBlocks, v`fs
    ensures Head(v.blocks) == Head(old(v.blocks))
    ensures v.Valid()
    ensures st == Ok ==>
      && InData(v.geo, block)
      && v.fs == old(v.fs).(used := old(v.fs.used) - {block})
      && Gave(old(v.Free()), v.Free(), One(block in old(v.fs.used)))
    ensures st != Ok ==> v.fs == old(v.fs) && v.freeBlocks == old(v.freeBlocks)
    ensures !InData(v.geo, block) ==> st == InvalidParam
    ensures v.healthy && InData(v.geo, block) ==> st == Ok
  {
    if block < v.geo.dataStart || block >= v.geo.totalBlocks {
      return InvalidParam;
    }
    var rel := block - v.geo.dataStart;
    var k := v.geo.bitmapStart + rel / 32768;
    BitmapBlockBelow(v.geo, rel);
    OpenStored(v.blocks, v.geo, v.fs);
    var hres, buf := v.ReadBlock(k);
    if hres != HtlOk {
      return IoError;
    }
    OneGiven(v.blocks, v.geo, v.fs, block);
    MarkOnly(v.blocks, v.geo, v.fs.used, rel);
    if Bit(buf[rel % 32768 / 8], rel % 8) {
      st := ClearBlockBit(v, block, k, buf);
      if st == Ok {
        v.freeBlocks := Wrap(v.freeBlocks + 1);
        KeepsDrift(old(v.Free()), v.Free(), 1, v.drift);
      }
    } else {
      assert v.fs.used - {block as nat} == v.fs.used;
      st := Ok;
    }
  }

  // ---- checksum and recount of the whole bitmap ----

  /** Streaming the bitmap block by block gives the checksum of the whole bitmap. */
  method ComputeFletcher(v: Volume) returns (s: Sums)
    requires Laid(v.geo) && v.geo.totalBlocks <= |v.blocks|
    ensures v.healthy ==> s == Checksum(Flatten(BitmapOf(v.blocks, v.geo.bitmapBlocks)))
    ensures s.s1 < MODULUS && s.s2 < MODULUS
  {
    ghost var all := BitmapOf(v.blocks, v.geo.bitmapBlocks);
    s := Sums(0, 0);
    var b := 0;
    while b < v.geo.bitmapBlocks
      invariant 0 <= b <= v.geo.bitmapBlocks == |all|
      invariant s == Run(Sums(0, 0), WordsOf(Flatten(all[..b])))
    {
      var hres, buf := v.ReadBlock(v.geo.bitmapStart + b);
      if hres != HtlOk {
        return Sums(0, 0);
      }
      assert buf == all[b];
      s := AddBlock(s, buf);
      OneMoreBlock(all, b);
      b := b + 1;
    }
    assert all[..b] == all;
    InRange(WordsOf(Flatten(all)));
  }

  /** The recount: every clear bit that stands for a data block. */
  method CountFree(v: Volume) returns (free: nat)
    requires Laid(v.geo) && v.geo.totalBlocks <= |v.blocks|
    ensures v.healthy ==> free == CountClear(v.blocks, v.geo.totalBlocks - v.geo.dataStart)
  {
    free := 0;
    var total := v.geo.totalBlocks - v.geo.dataStart;
    var b := 0;
    while b < v.geo.bitmapBlocks
      invariant 0 <= b <= v.geo.bitmapBlocks
      invariant free == CountClear(v.blocks, Min(32768 * b, total))
    {
      var hres, buf := v.ReadBlock(v.geo.bitmapStart + b);
      if hres != HtlOk {
        return 0;
      }
      free := CountBlock(v.blocks, b, buf, total, free);
      b := b + 1;
    }
  }

  /** On a volume whose accounting is exact, the recount agrees with the superblock. */
  lemma RecountAgrees(blocks: seq<Block>, g: Geometry, fs: FS, free: nat)
    requires Laid(g) && Stored(blocks, g, fs)
    ensures CountClear(blocks, g.totalBlocks - g.dataStart) == free <==> free == Unused(g, fs.used)
  {
    OpenStored(blocks, g, fs);
    OpenUnused(g, fs.used);
    UsedSize(blocks, g, fs.used);
    ClearAreFree(blocks, g.dataStart, fs.used, g.totalBlocks - g.dataStart);
    assert Below(fs.used, g.totalBlocks) == fs.used;
  }
}
