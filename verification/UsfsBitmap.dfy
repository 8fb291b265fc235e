/**
 The USFS allocator: the first run of free blocks that is long enough, marked
 across as many bitmap blocks as it spans.
 */
module UsfsBitmap {
  import opened Words
  import opened Veils
  import opened Ranges
  import opened Bitmap
  import opened UsfsTypes
  import opened UsfsVolume

  // ---- finding a run ----

  /** Bits `s` to `s + n - 1` are clear. */
  ghost predicate ClearRun(blocks: seq<Block>, s: nat, n: nat) {
    forall r {:trigger Marked(blocks, r)} :: s <= r < s + n ==> !Marked(blocks, r)
  }

  /**
   The scan has reached `rel`: the last `len` bits are clear, the one before them is not, and no run
   of `count` ends by here.
   */
  ghost predicate Scanned(blocks: seq<Block>, rel: nat, len: nat, count: nat) {
    var r: bool :| forall k {:trigger Lifted(Scanning, k)} :: Lifted(Scanning, k) ==>
      (r <==> ScannedInFull(blocks, rel, len, count));
    r
  }

  lemma OpenScanned(blocks: seq<Block>, rel: nat, len: nat, count: nat)
    ensures Scanned(blocks, rel, len, count) <==> ScannedInFull(blocks, rel, len, count)
  {
    assert Lifted(Scanning, 0);
  }

  ghost predicate ScannedInFull(blocks: seq<Block>, rel: nat, len: nat, count: nat) {
    && len <= rel && ClearRun(blocks, rel - len, len)
    && (len < rel ==> Marked(blocks, rel - len - 1))
    && NoRun(blocks, rel, count)
  }

  /** No clear run of `count` bits lies below `end`. */
  ghost predicate NoRun(blocks: seq<Block>, end: nat, count: nat) {
    forall s: nat :: s + count <= end ==> !ClearRun(blocks, s, count)
  }

  lemma ScanStart(blocks: seq<Block>, count: nat)
    requires count > 0
    ensures Scanned(blocks, 0, 0, count)
  {
    OpenScanned(blocks, 0, 0, count);
  }

  lemma ScanSet(blocks: seq<Block>, rel: nat, len: nat, count: nat)
    requires Scanned(blocks, rel, len, count) && Marked(blocks, rel) && count > 0
    ensures Scanned(blocks, rel + 1, 0, count)
  {
    assert Lifted(Scanning, 0);
    forall s: nat | s + count <= rel + 1
      ensures !ClearRun(blocks, s, count)
    {
      if s + count == rel + 1 {
        assert Marked(blocks, rel);
      }
    }
  }

  lemma ScanClear(blocks: seq<Block>, rel: nat, len: nat, count: nat)
    requires Scanned(blocks, rel, len, count) && !Marked(blocks, rel) && len + 1 < count
    ensures Scanned(blocks, rel + 1, len + 1, count)
  {
    assert Lifted(Scanning, 0);
    forall s: nat | s + count <= rel + 1
      ensures !ClearRun(blocks, s, count)
    {
      if s + count == rel + 1 {
        assert Marked(blocks, rel - len - 1);
      }
    }
  }

  /** The run is complete, and it is the first. */
  lemma ScanFound(blocks: seq<Block>, rel: nat, len: nat, count: nat)
    requires Scanned(blocks, rel, len, count) && !Marked(blocks, rel) && len + 1 == count
    ensures len <= rel && ClearRun(blocks, rel - len, count)
    ensures forall s: nat :: s < rel - len ==> !ClearRun(blocks, s, count)
  {
    assert Lifted(Scanning, 0);
  }

  lemma ScanEnd(blocks: seq<Block>, rel: nat, len: nat, count: nat)
    requires Scanned(blocks, rel, len, count)
    ensures NoRun(blocks, rel, count)
  {
    OpenScanned(blocks, rel, len, count);
  }

  /** The scan over all data blocks, reading each bitmap block once. */
  method FindRun(v: Volume, count: u32) returns (st: Status, start: u32)
    requires v.Shaped() && count > 0
    ensures st == Ok ==>
      && start + count <= v.plan.total - v.plan.dataStart && ClearRun(v.blocks, start, count)
      && (forall s: nat :: s < start ==> !ClearRun(v.blocks, s, count))
    ensures st == NoFreeBlocks ==> NoRun(v.blocks, v.plan.total - v.plan.dataStart, count)
    ensures st == Ok || st == NoFreeBlocks || (st == IoError && !v.healthy)
  {
    var total := v.plan.total - v.plan.dataStart;
    var rel, runLen := 0, 0;
    start := 0;
    var current, buf := 0xFFFF_FFFF, ZeroBlock();
    ScanStart(v.blocks, count);
    while rel < total
      invariant 0 <= rel <= total && 0 <= runLen < count
      invariant Scanned(v.blocks, rel, runLen, count)
      invariant runLen > 0 ==> start == rel - runLen
      invariant current == 0xFFFF_FFFF || (0 <= current && 17 + current < |v.blocks| && buf == v.blocks[17 + current])
    {
      var blk := rel / 32768;
      if blk != current {
        var hres;
        hres, buf := v.ReadBlock(17 + blk);
        if hres != HtlOk {
          return IoError, 0;
        }
        current := blk;
      }
      if !Bit(buf[rel % 32768 / 8], rel % 8) {
        if runLen == 0 {
          start := rel;
        }
        if runLen + 1 == count {
          ScanFound(v.blocks, rel, runLen, count);
          return Ok, start;
        }
        ScanClear(v.blocks, rel, runLen, count);
        runLen := runLen + 1;
      } else {
        ScanSet(v.blocks, rel, runLen, count);
        runLen := 0;
      }
      rel := rel + 1;
    }
    ScanEnd(v.blocks, rel, runLen, count);
    return NoFreeBlocks, 0;
  }

  // ---- marking a run ----

  /** Bit `x` of a bitmap block. */
  predicate BlockBit(buf: Block, x: nat)
    requires x < 32768
  {
    Bit(buf[x / 8], x % 8)
  }

  lemma MarkedInBlock(blocks: seq<Block>, r: nat)
    requires 17 + r / 32768 < |blocks|
    ensures Marked(blocks, r) == BlockBit(blocks[17 + r / 32768], r % 32768)
  {
    BitWithin(r);
  }

  /** One bit set or cleared. */
  function WithBlockBit(buf: Block, x: nat, value: bool): Block
    requires x < 32768
  {
    buf[x / 8 := if value then ByteWithBit(buf[x / 8], x % 8) else ByteWithoutBit(buf[x / 8], x % 8)]
  }

  lemma OneBlockBit(buf: Block, x: nat, value: bool, y: nat)
    requires x < 32768 && y < 32768
    ensures BlockBit(WithBlockBit(buf, x, value), y) == if y == x then value else BlockBit(buf, y)
  {
    SetBitSetsOne(buf[x / 8], x % 8, y % 8);
    ClearBitClearsOne(buf[x / 8], x % 8, y % 8);
    assert x / 8 == y / 8 && x % 8 == y % 8 ==> x == y;
  }

  /** Sets or clears bits `begin` to `end - 1` of a bitmap block. */
  method PaintBlock(buf: Block, begin: nat, end: nat, value: bool) returns (buf': Block)
    requires begin <= end <= 32768
    ensures forall x: nat {:trigger BlockBit(buf', x)} :: x < 32768 ==>
      BlockBit(buf', x) == if begin <= x < end then value else BlockBit(buf, x)
  {
    buf' := buf;
    var rel := begin;
    while rel < end
      invariant begin <= rel <= end
      invariant forall x: nat {:trigger BlockBit(buf', x)} :: x < 32768 ==>
        BlockBit(buf', x) == if begin <= x < rel then value else BlockBit(buf, x)
    {
      ghost var before := buf';
      buf' := WithBlockBit(buf', rel, value);
      forall x: nat | x < 32768
        ensures BlockBit(buf', x) == if begin <= x < rel + 1 then value else BlockBit(buf, x)
      {
        OneBlockBit(before, rel, value, x);
      }
      rel := rel + 1;
    }
  }

  /** Of the bits `start` to `start + count - 1`, those below `upto` have been painted; no other bit has changed. */
  ghost predicate Painted(before: seq<Block>, blocks: seq<Block>, start: nat, count: nat, value: bool, upto: nat) {
    var r: bool :| forall k {:trigger Lifted(Painting, k)} :: Lifted(Painting, k) ==>
      (r <==> PaintedInFull(before, blocks, start, count, value, upto));
    r
  }

  lemma OpenPainted(before: seq<Block>, blocks: seq<Block>, start: nat, count: nat, value: bool, upto: nat)
    ensures Painted(before, blocks, start, count, value, upto) <==>
        PaintedInFull(before, blocks, start, count, value, upto)
  {
    assert Lifted(Painting, 0);
  }

  ghost predicate PaintedInFull(before: seq<Block>, blocks: seq<Block>, start: nat, count: nat, value: bool,
      upto: nat) {
    && |blocks| == |before|
    && forall q: nat {:trigger Marked(blocks, q)} :: 17 + q / 32768 < |before| ==>
         Marked(blocks, q) == if start <= q < start + count && q < upto then value else Marked(before, q)
  }

  lemma PaintStart(before: seq<Block>, start: nat, count: nat, value: bool, upto: nat)
    requires upto <= start
    ensures Painted(before, before, start, count, value, upto)
  {
    OpenPainted(before, before, start, count, value, upto);
  }

  /** One more bitmap block. */
  lemma PaintStep(before: seq<Block>, blocks: seq<Block>, start: nat, count: nat, value: bool, blk: nat, begin: nat,
      end: nat, buf: Block)
    requires Painted(before, blocks, start, count, value, 32768 * blk) && 17 + blk < |blocks|
    requires begin <= end <= 32768
    requires 32768 * blk + begin == (if start >= 32768 * blk then start else 32768 * blk)
    requires 32768 * blk + end == (if start + count <= 32768 * (blk + 1) then start + count else 32768 * (blk + 1))
    requires forall x: nat {:trigger BlockBit(buf, x)} :: x < 32768 ==>
      BlockBit(buf, x) == if begin <= x < end then value else BlockBit(blocks[17 + blk], x)
    ensures Painted(before, blocks[17 + blk := buf], start, count, value, 32768 * (blk + 1))
  {
    assert Lifted(Painting, 0);
    var after := blocks[17 + blk := buf];
    forall q: nat | 17 + q / 32768 < |before|
      ensures Marked(after, q) == if start <= q < start + count && q < 32768 * (blk + 1) then value
          else Marked(before, q)
    {
      if q / 32768 == blk {
        MarkedInBlock(after, q);
        MarkedInBlock(blocks, q);
        assert BlockBit(buf, q % 32768) == BlockBit(after[17 + blk], q % 32768);
        assert Marked(blocks, q) == Marked(before, q) by { assert !(q < 32768 * blk); }
      } else {
        assert Marked(after, q) == Marked(blocks, q);
      }
    }
  }

  lemma PaintEnd(before: seq<Block>, blocks: seq<Block>, start: nat, count: nat, value: bool, upto: nat)
    requires Painted(before, blocks, start, count, value, upto) && start + count <= upto
    ensures forall q: nat {:trigger Marked(blocks, q)} :: 17 + q / 32768 < |before| ==>
              Marked(blocks, q) == if start <= q < start + count then value else Marked(before, q)
  {
    OpenPainted(before, blocks, start, count, value, upto);
  }

  /** Sets or clears the bits of a run, writing each affected bitmap block once. */
  method PaintRun(v: Volume, start: u32, count: u32, value: bool) returns (st: Status)
    requires v.Shaped() && count > 0 && start + count <= v.plan.total - v.plan.dataStart
    modifies v`blocks
    ensures v.Shaped() && OutsideKept(old(v.blocks), v.blocks, v.plan)
    ensures st == Ok ==>
      Painted(old(v.blocks), v.blocks, start, count, value, 32768 * ((start + count - 1) / 32768 + 1))
    ensures v.healthy ==> st == Ok
  {
    var firstBlk, lastBlk := start / 32768, (start + count - 1) / 32768;
    var blk := firstBlk;
    PaintStart(v.blocks, start, count, value, 32768 * blk);
    OutsideSelf(v.blocks, v.plan);
    while blk <= lastBlk
      invariant firstBlk <= blk <= lastBlk + 1
      invariant v.Shaped() && OutsideKept(old(v.blocks), v.blocks, v.plan)
      invariant Painted(old(v.blocks), v.blocks, start, count, value, 32768 * blk)
    {
      st := PaintOne(v, start, count, value, blk, old(v.blocks));
      if st != Ok {
        return;
      }
      blk := blk + 1;
    }
    st := Ok;
  }

  method PaintOne(v: Volume, start: u32, count: u32, value: bool, blk: nat, ghost before: seq<Block>)
      returns (st: Status)
    requires v.Shaped() && count > 0 && start + count <= v.plan.total - v.plan.dataStart
    requires start / 32768 <= blk <= (start + count - 1) / 32768
    requires OutsideKept(before, v.blocks, v.plan) && Painted(before, v.blocks, start, count, value, 32768 * blk)
    modifies v`blocks
    ensures v.Shaped() && OutsideKept(before, v.blocks, v.plan)
    ensures st == Ok ==> Painted(before, v.blocks, start, count, value, 32768 * (blk + 1))
    ensures v.healthy ==> st == Ok
  {
    var hres, buf := v.ReadBlock(17 + blk);
    BlkInBitmap(v.plan, start, count, blk);
    if hres != HtlOk {
      return IoError;
    }
    var begin := if blk == start / 32768 then start % 32768 else 0;
    var end := if blk == (start + count - 1) / 32768 then (start + count - 1) % 32768 else 32767;
    BeginAndEnd(start, count, blk, begin, end);
    buf := PaintBlock(buf, begin, end + 1, value);
    ghost var blocks := v.blocks;
    hres := v.WriteBlock(17 + blk, buf);
    if hres != HtlOk {
      return WriteStatus(hres);
    }
    PaintStep(before, blocks, start, count, value, blk, begin, end + 1, buf);
    OnlyOne(blocks, v.plan, 0, 0, 17 + blk, buf);
    OnlyThen(before, blocks, v.blocks, v.plan, 0, 0, 0, 0, 0, 0);
    return Ok;
  }

  lemma BlkInBitmap(p: Plan, start: nat, count: nat, blk: nat)
    requires Laid(p) && count > 0 && start + count <= p.total - p.dataStart && blk <= (start + count - 1) / 32768
    ensures 17 + blk < p.dataStart
  {
  }

  lemma BeginAndEnd(start: nat, count: nat, blk: nat, begin: nat, end: nat)
    requires count > 0 && start / 32768 <= blk <= (start + count - 1) / 32768
    requires begin == if blk == start / 32768 then start % 32768 else 0
    requires end == if blk == (start + count - 1) / 32768 then (start + count - 1) % 32768 else 32767
    ensures begin <= end + 1 <= 32768
    ensures 32768 * blk + begin == (if start >= 32768 * blk then start else 32768 * blk)
    ensures 32768 * blk + end + 1 == (if start + count <= 32768 * (blk + 1) then start + count else 32768 * (blk + 1))
  {
  }

  /** Painting a run changes the set of used blocks by that run. */
  lemma PaintedBits(before: seq<Block>, blocks: seq<Block>, p: Plan, used: set<nat>, start: nat, count: nat,
      value: bool, used': set<nat>)
    requires Laid(p) && p.total <= |before| && BitsAre(before, p, used) && count > 0
    requires start + count <= p.total - p.dataStart
    requires Painted(before, blocks, start, count, value, 32768 * ((start + count - 1) / 32768 + 1))
    requires var run := Range(p.dataStart + start, p.dataStart + start + count);
             used' == if value then used + run else used - run
    ensures BitsAre(blocks, p, used')
  {
    PaintEnd(before, blocks, start, count, value, 32768 * ((start + count - 1) / 32768 + 1));
    OpenBits(before, p, used);
    OpenBits(blocks, p, used');
    forall r: nat | r < p.total - p.dataStart
      ensures Marked(blocks, r) <==> p.dataStart + r in used'
    {
      assert 17 + r / 32768 < p.dataStart;
      assert Marked(before, r) <==> p.dataStart + r in used;
    }
  }

  // ---- allocating and freeing ----

  /** `count` consecutive data blocks from `first` on, all free. */
  ghost predicate FreeRun(p: Plan, used: set<nat>, first: nat, count: nat) {
    p.dataStart <= first && first + count <= p.total && forall b {:trigger b in used} :: first <= b < first + count ==>
        b !in used
  }

  /** The first such run. */
  ghost predicate FirstFree(p: Plan, used: set<nat>, first: nat, count: nat) {
    var r: bool :| forall k {:trigger Lifted(Placing, k)} :: Lifted(Placing, k) ==>
      (r <==> FirstFreeInFull(p, used, first, count));
    r
  }

  ghost predicate FirstFreeInFull(p: Plan, used: set<nat>, first: nat, count: nat) {
    FreeRun(p, used, first, count) && forall f: nat :: f < first ==> !FreeRun(p, used, f, count)
  }

  lemma OpenFirstFree(p: Plan, used: set<nat>, first: nat, count: nat)
    ensures FirstFree(p, used, first, count) <==> FirstFreeInFull(p, used, first, count)
  {
    assert Lifted(Placing, 0);
  }

  /** There is no more than one. */
  lemma FirstFreeUnique(p: Plan, used: set<nat>, f: nat, g: nat, count: nat)
    requires FirstFree(p, used, f, count) && FirstFree(p, used, g, count)
    ensures f == g
  {
    OpenFirstFree(p, used, f, count);
    OpenFirstFree(p, used, g, count);
  }

  /** On the bitmap, that is a run of clear bits. */
  lemma FreeRunBits(blocks: seq<Block>, p: Plan, used: set<nat>, s: nat, count: nat)
    requires Laid(p) && BitsAre(blocks, p, used) && s + count <= p.total - p.dataStart
    ensures ClearRun(blocks, s, count) <==> FreeRun(p, used, p.dataStart + s, count)
  {
    OpenBits(blocks, p, used);
    if ClearRun(blocks, s, count) {
      forall b | p.dataStart + s <= b < p.dataStart + s + count
        ensures b !in used
      {
        assert !Marked(blocks, b - p.dataStart);
      }
    }
    if FreeRun(p, used, p.dataStart + s, count) {
      forall r | s <= r < s + count
        ensures !Marked(blocks, r)
      {
        assert p.dataStart + r !in used;
      }
    }
  }

  /** A free run is no longer than the free count says. */
  lemma FreeRunFits(p: Plan, used: set<nat>, first: nat, count: nat)
    requires Laid(p) && FreeRun(p, used, first, count) && forall b :: b in used ==> InData(p, b)
    ensures |used| + count <= p.total - p.dataStart
    ensures |used + Range(first, first + count)| == |used| + count
  {
    RunSize(first, count, first + count);
    RangeSize(p.dataStart, p.total);
    DisjointWithin(used, Range(first, first + count), Range(p.dataStart, p.total));
  }

  lemma FirstRun(blocks: seq<Block>, p: Plan, used: set<nat>, start: nat, count: nat)
    requires Laid(p) && BitsAre(blocks, p, used) && start + count <= p.total - p.dataStart
    requires ClearRun(blocks, start, count) && forall s: nat :: s < start ==> !ClearRun(blocks, s, count)
    ensures FreeRun(p, used, p.dataStart + start, count)
    ensures forall f: nat :: f < p.dataStart + start ==> !FreeRun(p, used, f, count)
  {
    FreeRunBits(blocks, p, used, start, count);
    forall f: nat | f < p.dataStart + start
      ensures !FreeRun(p, used, f, count)
    {
      if FreeRun(p, used, f, count) {
        FreeRunBits(blocks, p, used, f - p.dataStart, count);
      }
    }
  }

  lemma NoneFree(blocks: seq<Block>, p: Plan, used: set<nat>, count: nat)
    requires Laid(p) && BitsAre(blocks, p, used) && NoRun(blocks, p.total - p.dataStart, count)
    ensures forall f: nat :: !FreeRun(p, used, f, count)
  {
    forall f: nat
      ensures !FreeRun(p, used, f, count)
    {
      if FreeRun(p, used, f, count) {
        FreeRunBits(blocks, p, used, f - p.dataStart, count);
      }
    }
  }

  lemma TooMany(v: Volume, count: nat)
    requires v.Valid() && count > v.freeBlocks
    ensures forall f: nat :: !FreeRun(v.plan, v.used, f, count)
  {
    OpenBits(v.blocks, v.plan, v.used);
    OpenCounted(v.freeBlocks, v.plan, v.used);
    forall f: nat
      ensures !FreeRun(v.plan, v.used, f, count)
    {
      if FreeRun(v.plan, v.used, f, count) {
        FreeRunFits(v.plan, v.used, f, count);
      }
    }
  }

  /**
   Allocates the first run of `count` free blocks: exactly its bits are set, and
   NO_FREE_BLOCKS is answered exactly when there is no such run.
   */
  method BlockAlloc(v: Volume, count: u32) returns (st: Status, first: u32)
    requires v.Shaped()
    modifies v`blocks, v`freeBlocks, v`used
    ensures v.Shaped() && OutsideKept(old(v.blocks), v.blocks, v.plan)
    ensures st == Ok ==>
      && 0 < count && v.plan.dataStart <= first && first + count <= v.plan.total
      && ClearRun(old(v.blocks), first - v.plan.dataStart, count)
    ensures v.healthy && old(v.Valid()) ==>
      && v.Valid()
      && (count == 0 ==> st == NoFreeBlocks)
      && (count > 0 && v.Writable() ==>
             (st == NoFreeBlocks <==> forall f: nat :: !FreeRun(v.plan, old(v.used), f, count)))
      && (st != Ok ==>
             v.used == old(v.used) && v.freeBlocks == old(v.freeBlocks)
                 && (st == NoFreeBlocks || st == v.WritableStatus()))
      && (st == Ok ==>
            && count > 0 && FreeRun(v.plan, old(v.used), first, count)
            && (forall f: nat :: f < first ==> !FreeRun(v.plan, old(v.used), f, count))
            && FirstFree(v.plan, old(v.used), first, count)
            && v.used == old(v.used) + Range(first, first + count) && v.freeBlocks == old(v.freeBlocks) - count)
  {
    OutsideSelf(v.blocks, v.plan);
    first := 0;
    if count == 0 || count > v.freeBlocks {
      if count > 0 && v.Valid() {
        TooMany(v, count);
      }
      return NoFreeBlocks, 0;
    }
    st := v.WritableStatus();
    if st != Ok {
      return;
    }
    var start;
    st, start := FindRun(v, count);
    if st == Ok {
      first := v.plan.dataStart + start;
      st := TakeRun(v, start, count);
      OpenFirstFree(v.plan, old(v.used), first, count);
    } else if v.healthy && v.Valid() {
      NoneFree(v.blocks, v.plan, v.used, count);
    }
  }

  method TakeRun(v: Volume, start: u32, count: u32) returns (st: Status)
    requires v.Shaped() && 0 < count <= v.freeBlocks && start + count <= v.plan.total - v.plan.dataStart
    requires ClearRun(v.blocks, start, count) && forall s: nat :: s < start ==> !ClearRun(v.blocks, s, count)
    modifies v`blocks, v`freeBlocks, v`used
    ensures v.Shaped() && OutsideKept(old(v.blocks), v.blocks, v.plan)
    ensures v.healthy ==> st == Ok
    ensures v.healthy && old(v.Valid()) ==>
      && v.Valid()
      && (var first := v.plan.dataStart + start;
          && FreeRun(v.plan, old(v.used), first, count)
          && (forall f: nat :: f < first ==> !FreeRun(v.plan, old(v.used), f, count))
          && v.used == old(v.used) + Range(first, first + count) && v.freeBlocks == old(v.freeBlocks) - count)
  {
    ghost var before := v.blocks;
    st := PaintRun(v, start, count, true);
    if st == Ok {
      v.freeBlocks := v.freeBlocks - count;
      if old(v.Valid()) {
        ghost var first := v.plan.dataStart + start;
        v.used := v.used + Range(first, first + count);
        PaintedBits(before, v.blocks, v.plan, old(v.used), start, count, true, v.used);
        TakenRun(before, v.plan, old(v.used), start, count, old(v.freeBlocks));
      }
    }
  }

  /** The run was the first free one, and the free count stays exact. */
  lemma TakenRun(before: seq<Block>, p: Plan, used: set<nat>, start: nat, count: nat, free: nat)
    requires Laid(p) && BitsAre(before, p, used) && Counted(free, p, used) && count <= free
    requires start + count <= p.total - p.dataStart
    requires ClearRun(before, start, count) && forall s: nat :: s < start ==> !ClearRun(before, s, count)
    ensures
      var first := p.dataStart + start;
      && FreeRun(p, used, first, count) && (forall f: nat :: f < first ==> !FreeRun(p, used, f, count))
      && Counted(free - count, p, used + Range(first, first + count))
  {
    var first := p.dataStart + start;
    FirstRun(before, p, used, start, count);
    OpenBits(before, p, used);
    FreeRunFits(p, used, first, count);
    OpenCounted(free, p, used);
    OpenCounted(free - count, p, used + Range(first, first + count));
  }

  lemma RunRemoved(p: Plan, used: set<nat>, first: nat, count: nat, free: nat)
    requires Laid(p) && (forall b :: b in used ==> InData(p, b)) && p.dataStart <= first && first + count <= p.total
    requires Counted(free, p, used)
    ensures Wrap(free + count) + |used - Range(first, first + count)| == p.total - p.dataStart <==>
        Range(first, first + count) <= used
  {
    RunSize(first, count, first + count);
    RangeSize(p.dataStart, p.total);
    OpenCounted(free, p, used);
    DifferenceSize(used, Range(first, first + count));
    DisjointWithin(used - Range(first, first + count), Range(first, first + count), Range(p.dataStart, p.total));
    WrapExact(free, count, |used - Range(first, first + count)|, p.total - p.dataStart, |used|);
  }

  lemma WrapExact(free: nat, count: nat, rest: nat, total: nat, used: nat)
    requires free + used == total < 0x1_0000_0000 && rest + count <= total && rest + count >= used
    ensures Wrap(free + count) + rest == total <==> rest + count == used
  {
  }

  /**
   Frees a run without looking at its bits: the free count stays exact if and only
   if every block of the run was in use.
   */
  method BlockFree(v: Volume, first: u32, count: u32) returns (st: Status)
    requires v.Shaped()
    modifies v`blocks, v`freeBlocks, v`used
    ensures v.Shaped() && OutsideKept(old(v.blocks), v.blocks, v.plan)
    ensures v.healthy ==>
      st == if count == 0 then Ok
            else if first < v.plan.dataStart || first + count > v.plan.total then InvalidParam
            else v.WritableStatus()
    ensures v.healthy && old(v.Valid()) ==>
      && BitsAre(v.blocks, v.plan, v.used)
      && v.used == (if st == Ok then old(v.used) - Range(first, first + count) else old(v.used))
      && v.freeBlocks == (if st == Ok then Wrap(old(v.freeBlocks) + count) else old(v.freeBlocks))
      && (st == Ok ==> (v.Valid() <==> Range(first, first + count) <= old(v.used)))
  {
    OutsideSelf(v.blocks, v.plan);
    if count == 0 {
      assert v.used - Range(first, first + count) == v.used;
      return Ok;
    }
    if first < v.plan.dataStart || first + count > v.plan.total {
      return InvalidParam;
    }
    st := v.WritableStatus();
    if st != Ok {
      return;
    }
    st := ReleaseRun(v, first, count);
  }

  method ReleaseRun(v: Volume, first: u32, count: u32) returns (st: Status)
    requires v.Shaped() && count > 0 && v.plan.dataStart <= first && first + count <= v.plan.total
    modifies v`blocks, v`freeBlocks, v`used
    ensures v.Shaped() && OutsideKept(old(v.blocks), v.blocks, v.plan)
    ensures v.healthy ==> st == Ok
    ensures v.healthy && old(v.Valid()) ==>
      && BitsAre(v.blocks, v.plan, v.used)
      && v.used == old(v.used) - Range(first, first + count) && v.freeBlocks == Wrap(old(v.freeBlocks) + count)
      && (v.Valid() <==> Range(first, first + count) <= old(v.used))
  {
    ghost var before := v.blocks;
    var start := first - v.plan.dataStart;
    st := PaintRun(v, start, count, false);
    if st == Ok {
      v.freeBlocks := Wrap(v.freeBlocks + count);
      if old(v.Valid()) {
        v.used := v.used - Range(first, first + count);
        PaintedBits(before, v.blocks, v.plan, old(v.used), start, count, false, v.used);
        OpenBits(before, v.plan, old(v.used));
        RunRemoved(v.plan, old(v.used), first, count, old(v.freeBlocks));
        OpenCounted(v.freeBlocks, v.plan, v.used);
      }
    }
  }
}
