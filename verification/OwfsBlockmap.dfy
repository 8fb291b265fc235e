/**
 Logical to physical block translation: growing an inode's map by one block,
 with rollback when a step fails, and releasing its tail.
 */
module OwfsBlockmap {
  import opened Words
  import opened Veils
  import opened Records
  import opened OwfsTypes
  import opened OwfsVolume
  import opened OwfsBitmap
  import opened OwfsOwnership

  /** The inode handed in is mapped, and its blocks are marked used. */
  ghost predicate Backed(fs: FS, g: Geometry, ino: Inode) {
    var r: bool :| forall k {:trigger Lifted(Backing, k)} :: Lifted(Backing, k) ==> (r <==> BackedInFull(fs, g, ino));
    r
  }

  ghost predicate BackedInFull(fs: FS, g: Geometry, ino: Inode) {
    Mapped(fs.data, g, ino) && Owned(fs.data, ino) <= fs.used
  }

  /** The map alone, veiled too. */
  ghost predicate MapKept(data: seq<Block>, g: Geometry, ino: Inode) {
    var r: bool :| forall k {:trigger Lifted(Map, k)} :: Lifted(Map, k) ==> (r <==> MapKeptInFull(data, g, ino));
    r
  }

  ghost predicate MapKeptInFull(data: seq<Block>, g: Geometry, ino: Inode) {
    Mapped(data, g, ino)
  }

  lemma OpenMapKept(data: seq<Block>, g: Geometry, ino: Inode)
    ensures MapKept(data, g, ino) <==> MapKeptInFull(data, g, ino)
  {
    assert Lifted(Map, 0);
  }

  lemma OpenBacked(fs: FS, g: Geometry, ino: Inode)
    ensures Backed(fs, g, ino) <==> BackedInFull(fs, g, ino)
  {
    assert Lifted(Backing, 0);
  }

  lemma SoundBacked(fs: FS, g: Geometry, i: nat)
    requires Sound(fs, g) && Holds(fs, i)
    ensures Backed(fs, g, fs.table[i]) && Mapped(fs.data, g, fs.table[i])
  {
    SoundMapped(fs, g, i);
    assert Lifted(Backing, 0);
  }

  /** Translates logical block `idx` of an inode. */
  method BlockmapGet(v: Volume, ino: Inode, idx: u32) returns (st: Status, block: u32)
    requires v.Valid()
    ensures idx >= ino.blockCount ==> st == InvalidParam
    ensures Mapped(v.fs.data, v.geo, ino) && idx < ino.blockCount ==>
              (st == Ok && block == BlockAt(v.fs.data, ino, idx)) || (st == IoError && !v.healthy)
  {
    block := 0;
    if idx >= ino.blockCount {
      return InvalidParam, 0;
    }
    ghost var mapped := Mapped(v.fs.data, v.geo, ino);
    assert mapped ==> InData(v.geo, BlockAt(v.fs.data, ino, idx));
    if idx < 10 {
      if ino.direct[idx] == 0 {
        return InvalidParam, 0;
      }
      return Ok, ino.direct[idx];
    }
    if ino.indirect == 0 {
      return InvalidParam, 0;
    }
    var hres, buf := ReadData(v, ino.indirect);
    if hres != HtlOk {
      return IoError, 0;
    }
    if idx - 10 >= 1024 {
      return InvalidParam, 0;
    }
    var b := PtrAt(buf, idx - 10);
    if b == 0 {
      return InvalidParam, 0;
    }
    return Ok, b;
  }

  /**
   Blocks that were free and are marked used now, although nothing refers to them; the free count
   went down by as many.
   */
  ghost predicate Lost(lost: set<nat>, used: set<nat>, s: Stock, s': Stock) {
    lost !! used && Took(s, s', |lost|)
  }

  /** A fresh block, zeroed.  When the zeroing fails the block is given back; when that fails too it is `lost`. */
  method AllocAndZero(v: Volume) returns (st: Status, block: u32, ghost lost: set<nat>)
    requires v.Valid()
    modifies v`blocks, v`freeBlocks, v`fs
    ensures Head(v.blocks) == Head(old(v.blocks))
    ensures v.Valid()
    ensures st == Ok ==>
      && InData(v.geo, block) && block !in old(v.fs.used)
      && v.fs == old(v.fs).(used := old(v.fs.used) + {block}, data := old(v.fs.data)[block := ZeroBlock()])
      && Took(old(v.Free()), v.Free(), 1)
    ensures st != Ok ==>
      && v.fs == old(v.fs).(used := old(v.fs.used) + lost)
      && Lost(lost, old(v.fs.used), old(v.Free()), v.Free()) && |lost| <= 1
    ensures v.healthy ==> lost == {} && (st == if Room(old(v.Free())) == 0 then NoFreeBlocks else Ok)
  {
    lost := {};
    st, block := BitmapAlloc(v);
    if st != Ok {
      return;
    }
    var hres := WriteData(v, block, ZeroBlock());
    if hres != HtlOk {
      st := WriteStatus(hres);
      var freed := BitmapFree(v, block);
      lost := if freed == Ok then {} else {block as nat};
      assert (old(v.fs.used) + {block as nat}) - {block as nat} == old(v.fs.used);
      block := 0;
    }
  }

  // ---- growing by one block ----

  /**
   The blocks that growing an inode of `n` blocks by one takes: the data block, and the indirect
   block for the eleventh.
   */
  ghost function Taken(n: nat, block: nat, indirect: nat): set<nat> {
    if n == 10 then {block, indirect} else {block}
  }

  /** `ino'` is `ino` with `block` mapped behind its last block, and nothing else in use was touched. */
  ghost predicate Grown(fs: FS, fs': FS, g: Geometry, ino: Inode, ino': Inode, block: u32) {
    var r: bool :| forall k {:trigger Lifted(Growth, k)} :: Lifted(Growth, k) ==>
      (r <==> (GrownInFull(fs, fs', g, ino, ino', block)));
    r
  }

  lemma OpenGrown(fs: FS, fs': FS, g: Geometry, ino: Inode, ino': Inode, block: u32)
    ensures Grown(fs, fs', g, ino, ino', block) <==> GrownInFull(fs, fs', g, ino, ino', block)
  {
    assert Lifted(Growth, 0);
  }

  ghost predicate GrownInFull(fs: FS, fs': FS, g: Geometry, ino: Inode, ino': Inode, block: u32) {
    var n := ino.blockCount;
    && n < 1034
    && ino' == ino.(blockCount := n + 1, direct := if n < 10 then ino.direct[n := block] else ino.direct,
           indirect := ino'.indirect)
    && (n != 10 ==> ino'.indirect == ino.indirect)
    && fs'.table == fs.table && |fs'.data| == |fs.data|
    && Taken(n, block, ino'.indirect) !! fs.used
    && (n == 10 ==> block != ino'.indirect)
    && fs'.used == fs.used + Taken(n, block, ino'.indirect)
    && (forall b :: b in fs.used && b != ino.indirect && b < |fs.data| ==> fs'.data[b] == fs.data[b])
    && InData(g, block) && block < |fs'.data| && fs'.data[block] == ZeroBlock()
    && Mapped(fs'.data, g, ino')
    && (forall k: nat :: k < n ==> BlockAt(fs'.data, ino', k) == BlockAt(fs.data, ino, k))
    && BlockAt(fs'.data, ino', n) == block
    && Owned(fs'.data, ino') == Owned(fs.data, ino) + Taken(n, block, ino'.indirect)
  }

  lemma GrowDirect(fs: FS, g: Geometry, ino: Inode, block: u32, fs': FS, ino': Inode)
    requires Backed(fs, g, ino) && |fs.data| == g.totalBlocks && ino.blockCount < 10
    requires InData(g, block) && block !in fs.used && block != 0
    requires fs' == fs.(used := fs.used + {block}, data := fs.data[block := ZeroBlock()])
    requires ino' == ino.(blockCount := ino.blockCount + 1, direct := ino.direct[ino.blockCount := block])
    ensures Grown(fs, fs', g, ino, ino', block)
  {
    OpenBacked(fs, g, ino);
    OpenGrown(fs, fs', g, ino, ino', block);
    var n := ino.blockCount;
    forall k: nat | k < n
      ensures BlockAt(fs'.data, ino', k) == BlockAt(fs.data, ino, k)
      ensures BlockAt(fs.data, ino, k) != block
    {
      OwnedAt(fs.data, ino, k);
    }
    assert Owned(fs'.data, ino') == Owned(fs.data, ino) + {block as nat} by {
      OwnedGrows(fs.data, ino, fs'.data, ino');
    }
  }

  /** One more logical block is one more block owned (and the indirect block, if it is new). */
  lemma OwnedGrows(data: seq<Block>, ino: Inode, data': seq<Block>, ino': Inode)
    requires ino'.blockCount == ino.blockCount + 1
    requires forall k: nat :: k < ino.blockCount ==> BlockAt(data', ino', k) == BlockAt(data, ino, k)
    requires ino.indirect == 0 || ino'.indirect == ino.indirect
    ensures Owned(data', ino') == Owned(data, ino) + {BlockAt(data', ino', ino.blockCount)}
        + (if ino'.indirect != 0 then {ino'.indirect} else {})
  {
    BetweenSame(data, ino, data', ino', 0, ino.blockCount);
  }

  lemma GrowIndirect(fs: FS, g: Geometry, ino: Inode, block: u32, pointers: Block, fs': FS, ino': Inode)
    requires Backed(fs, g, ino) && |fs.data| == g.totalBlocks && 10 <= ino.blockCount < 1034
    requires InData(g, block) && block !in fs.used
    requires ino' == ino.(blockCount := ino.blockCount + 1, indirect := ino'.indirect) && ino'.indirect != 0
    requires InData(g, ino'.indirect) && ino'.indirect != block
    requires
      if ino.blockCount == 10 then ino'.indirect !in fs.used
      else ino'.indirect == ino.indirect && pointers == fs.data[ino.indirect]
    requires fs'.table == fs.table && fs'.used == fs.used + Taken(ino.blockCount, block, ino'.indirect)
    requires fs'.data == fs.data[block := ZeroBlock()][ino'.indirect := WithPtr(pointers, ino.blockCount - 10, block)]
    ensures Grown(fs, fs', g, ino, ino', block)
  {
    OpenBacked(fs, g, ino);
    var n := ino.blockCount;
    forall k: nat | k < n
      ensures BlockAt(fs.data, ino, k) != block && BlockAt(fs.data, ino, k) != ino'.indirect
    {
      OwnedAt(fs.data, ino, k);
    }
    IndirectMap(fs.data, g, ino, block, pointers, fs'.data, ino');
    OwnedGrows(fs.data, ino, fs'.data, ino');
    assert n > 10 ==> ino.indirect in Owned(fs.data, ino);
    OpenGrown(fs, fs', g, ino, ino', block);
  }

  /** The pointer is stored behind the others, which keep their places. */
  lemma IndirectMap(data: seq<Block>, g: Geometry, ino: Inode, block: u32, pointers: Block, data': seq<Block>,
      ino': Inode)
    requires Mapped(data, g, ino) && |data| == g.totalBlocks && 10 <= ino.blockCount < 1034 && InData(g, block)
    requires ino' == ino.(blockCount := ino.blockCount + 1, indirect := ino'.indirect) && ino'.indirect != 0
    requires InData(g, ino'.indirect) && ino'.indirect != block
    requires ino.blockCount > 10 ==> ino'.indirect == ino.indirect && pointers == data[ino.indirect]
    requires forall k: nat :: k < ino.blockCount ==>
      BlockAt(data, ino, k) != block && BlockAt(data, ino, k) != ino'.indirect
    requires data' == data[block := ZeroBlock()][ino'.indirect := WithPtr(pointers, ino.blockCount - 10, block)]
    ensures Mapped(data', g, ino') && BlockAt(data', ino', ino.blockCount) == block
    ensures forall k: nat :: k < ino.blockCount ==> BlockAt(data', ino', k) == BlockAt(data, ino, k)
  {
    var n := ino.blockCount;
    forall k: nat | k < n
      ensures BlockAt(data', ino', k) == BlockAt(data, ino, k)
    {
      if 10 <= k {
        WithPtrAt(pointers, n - 10, block, k - 10);
      }
    }
    WithPtrAt(pointers, n - 10, block, n - 10);
  }

  /** Nothing that was in use before has changed or been given up. */
  ghost predicate Unharmed(fs: FS, fs': FS) {
    && fs'.table == fs.table && |fs'.data| == |fs.data|
    && fs.used <= fs'.used
    && (forall b :: b in fs.used && b < |fs.data| ==> fs'.data[b] == fs.data[b])
  }

  /** How many free blocks the next block of an inode of `n` blocks needs. */
  function Need(n: nat): nat {
    if n == 10 then 2 else 1
  }

  /**
   Maps logical block `idx`, allocating it when it is the next one.  A failure
   leaves the inode as it was, and the used blocks too, but for the blocks whose
   giving back failed: these are `lost`.
   */
  method BlockmapEnsure(v: Volume, ino: Inode, idx: u32)
      returns (st: Status, block: u32, ino': Inode, ghost lost: set<nat>)
    requires v.Valid() && Backed(v.fs, v.geo, ino)
    modifies v`blocks, v`freeBlocks, v`fs
    ensures Head(v.blocks) == Head(old(v.blocks))
    ensures v.Valid()
    ensures idx >= 1034 ==> st == NoFreeBlocks
    ensures idx < 1034 && !v.Writable() ==> st == v.WritableStatus()
    ensures idx < 1034 && v.Writable() && idx > ino.blockCount ==> st == InvalidParam
    ensures st == Ok && idx < ino.blockCount ==>
      ino' == ino && v.fs == old(v.fs) && v.freeBlocks == old(v.freeBlocks) && block == BlockAt(v.fs.data, ino, idx)
    ensures st == Ok && idx >= ino.blockCount ==>
      && idx == ino.blockCount && Grown(old(v.fs), v.fs, v.geo, ino, ino', block)
      && Took(old(v.Free()), v.Free(), Need(idx))
    ensures st != Ok ==> ino' == ino && Unharmed(old(v.fs), v.fs)
    ensures st != Ok ==>
      && v.fs.used == old(v.fs.used) + lost && Lost(lost, old(v.fs.used), old(v.Free()), v.Free())
      && |lost| <= (if idx == ino.blockCount then Need(idx) else 0)
    ensures v.healthy ==> lost == {}
    ensures v.healthy && v.Writable() && idx == ino.blockCount < 1034 ==>
      st == if Need(idx) <= Room(old(v.Free())) then Ok else NoFreeBlocks
  {
    block, ino', lost := 0, ino, {};
    if idx >= 1034 {
      return NoFreeBlocks, 0, ino, {};
    }
    st := v.WritableStatus();
    if st != Ok {
      return;
    }
    if idx < ino.blockCount {
      OpenBacked(v.fs, v.geo, ino);
      st, block := BlockmapGet(v, ino, idx);
      return;
    }
    if idx != ino.blockCount {
      return InvalidParam, 0, ino, {};
    }
    st, block, ino', lost := MapNext(v, ino);
  }

  /** Allocates and maps the next block. */
  method MapNext(v: Volume, ino: Inode) returns (st: Status, block: u32, ino': Inode, ghost lost: set<nat>)
    requires v.Valid() && Backed(v.fs, v.geo, ino) && ino.blockCount < 1034
    modifies v`blocks, v`freeBlocks, v`fs
    ensures Head(v.blocks) == Head(old(v.blocks))
    ensures v.Valid()
    ensures st == Ok ==>
      Grown(old(v.fs), v.fs, v.geo, ino, ino', block) && Took(old(v.Free()), v.Free(), Need(ino.blockCount))
    ensures st != Ok ==> ino' == ino && Unharmed(old(v.fs), v.fs)
    ensures st != Ok ==>
      && v.fs.used == old(v.fs.used) + lost && Lost(lost, old(v.fs.used), old(v.Free()), v.Free())
      && |lost| <= Need(ino.blockCount)
    ensures v.healthy ==> lost == {} && st == if Need(ino.blockCount) <= Room(old(v.Free())) then Ok else NoFreeBlocks
  {
    ino' := ino;
    st, block, lost := AllocAndZero(v);
    if st != Ok {
      return;
    }
    if ino.blockCount < 10 {
      ino' := ino.(blockCount := ino.blockCount + 1, direct := ino.direct[ino.blockCount := block]);
      GrowDirect(old(v.fs), v.geo, ino, block, v.fs, ino');
    } else {
      st, ino', lost := MapIndirect(v, ino, block, old(v.fs), old(v.Free()));
    }
  }

  /** The state with `block` taken and zeroed, and for the eleventh block of a file the indirect block `ind` too. */
  ghost function Readied(before: FS, n: nat, block: u32, ind: u32): FS
    requires block < |before.data| && ind < |before.data|
  {
    var data := before.data[block := ZeroBlock()];
    FS(before.used + Taken(n, block, ind), before.table, if n == 10 then data[ind := ZeroBlock()] else data)
  }

  lemma ReadiedUnharmed(before: FS, n: nat, block: u32, ind: u32)
    requires block < |before.data| && ind < |before.data| && block !in before.used && (n == 10 ==> ind !in before.used)
    ensures Unharmed(before, Readied(before, n, block, ind))
  {
  }

  lemma ReadiedOne(before: FS, mid: FS, n: nat, block: u32, ind: u32)
    requires block < |before.data| && ind < |before.data| && n > 10
    requires mid == before.(used := before.used + {block}, data := before.data[block := ZeroBlock()])
    ensures mid == Readied(before, n, block, ind)
  {
  }

  lemma ReadiedTwo(before: FS, mid: FS, fs: FS, block: u32, ind: u32)
    requires block < |before.data| && ind < |before.data|
    requires mid == before.(used := before.used + {block}, data := before.data[block := ZeroBlock()])
    requires fs == mid.(used := mid.used + {ind}, data := mid.data[ind := ZeroBlock()])
    ensures fs == Readied(before, 10, block, ind)
  {
    assert before.used + {block as nat} + {ind as nat} == before.used + {block as nat, ind as nat};
  }

  /** The state after `block` has been stored as the next pointer of the indirect block `ind`. */
  ghost function Pointed(before: FS, n: nat, block: u32, ind: u32, pointers: Block): FS
    requires 10 <= n < 1034 && block < |before.data| && ind < |before.data|
  {
    FS(before.used + Taken(n, block, ind), before.table,
       before.data[block := ZeroBlock()][ind := WithPtr(pointers, n - 10, block)])
  }

  /** The part past the tenth block: create or read the indirect block, store the pointer, write it back. */
  method MapIndirect(v: Volume, ino: Inode, block: u32, ghost before: FS, ghost stock: Stock)
    returns (st: Status, ino': Inode, ghost lost: set<nat>)
    requires v.Valid() && Backed(before, v.geo, ino) && 10 <= ino.blockCount < 1034
    requires InData(v.geo, block) && block !in before.used && |before.data| == v.geo.totalBlocks
    requires v.fs == before.(used := before.used + {block}, data := before.data[block := ZeroBlock()])
    requires Took(stock, v.Free(), 1)
    modifies v`blocks, v`freeBlocks, v`fs
    ensures Head(v.blocks) == Head(old(v.blocks))
    ensures v.Valid()
    ensures st == Ok ==>
      Grown(before, v.fs, v.geo, ino, ino', block) && Took(old(v.Free()), v.Free(), Need(ino.blockCount) - 1)
    ensures st != Ok ==> ino' == ino && Unharmed(before, v.fs)
    ensures st != Ok ==>
      && v.fs.used == before.used + lost && Lost(lost, before.used, stock, v.Free())
      && |lost| <= Need(ino.blockCount)
    ensures v.healthy ==>
      lost == {} && st == if Need(ino.blockCount) - 1 <= Room(old(v.Free())) then Ok else NoFreeBlocks
  {
    var ptrs, ind;
    ino' := ino;
    st, ind, ptrs, lost := FindIndirect(v, ino, block, before, stock);
    if st == Ok {
      st, lost := StorePointer(v, ino.blockCount, block, ind, ptrs, before, stock);
      if st == Ok {
        ino' := ino.(blockCount := ino.blockCount + 1, indirect := ind);
        GrowIndirect(before, v.geo, ino, block, ptrs, v.fs, ino');
      }
    }
  }

  /** A new indirect block, or the data block is given back. */
  method FreshIndirect(v: Volume, block: u32, ghost before: FS, ghost stock: Stock)
      returns (st: Status, ind: u32, ghost lost: set<nat>)
    requires v.Valid() && InData(v.geo, block) && block !in before.used
    requires Unharmed(before, v.fs) && v.fs.used == before.used + {block}
    requires Took(stock, v.Free(), 1)
    modifies v`blocks, v`freeBlocks, v`fs
    ensures Head(v.blocks) == Head(old(v.blocks))
    ensures v.Valid()
    ensures st == Ok ==>
      && InData(v.geo, ind) && ind !in old(v.fs.used) && Took(old(v.Free()), v.Free(), 1)
      && v.fs == old(v.fs).(used := old(v.fs.used) + {ind}, data := old(v.fs.data)[ind := ZeroBlock()])
    ensures st != Ok ==>
      && Unharmed(before, v.fs)
      && v.fs.used == before.used + lost && Lost(lost, before.used, stock, v.Free()) && |lost| <= 2
    ensures v.healthy ==> lost == {} && st == if Room(old(v.Free())) == 0 then NoFreeBlocks else Ok
  {
    st, ind, lost := AllocAndZero(v);
    if st != Ok {
      assert v.fs.used == before.used + lost + {block as nat};
      lost := GiveBack(v, block, before, stock, lost);
    }
  }

  /** Taking a free block harms nothing. */
  lemma TakenUnharmed(fs: FS, fs': FS, block: u32)
    requires block !in fs.used && block < |fs.data|
    requires fs' == fs.(used := fs.used + {block}, data := fs.data[block := ZeroBlock()])
    ensures Unharmed(fs, fs')
  {
  }

  /** The indirect block to store a pointer in, created for the eleventh block. */
  method FindIndirect(v: Volume, ino: Inode, block: u32, ghost before: FS, ghost stock: Stock)
      returns (st: Status, ind: u32, ptrs: Block, ghost lost: set<nat>)
    requires v.Valid() && Backed(before, v.geo, ino) && 10 <= ino.blockCount < 1034
    requires InData(v.geo, block) && block !in before.used && |before.data| == v.geo.totalBlocks
    requires v.fs == before.(used := before.used + {block}, data := before.data[block := ZeroBlock()])
    requires Took(stock, v.Free(), 1)
    modifies v`blocks, v`freeBlocks, v`fs
    ensures Head(v.blocks) == Head(old(v.blocks))
    ensures v.Valid()
    ensures st == Ok ==>
      && InData(v.geo, ind) && ind != block
      && (if ino.blockCount == 10 then ind !in before.used else ind == ino.indirect && ptrs == before.data[ind])
      && v.fs == Readied(before, ino.blockCount, block, ind)
      && Took(old(v.Free()), v.Free(), Need(ino.blockCount) - 1)
    ensures st != Ok ==> Unharmed(before, v.fs)
    ensures st != Ok ==>
      && v.fs.used == before.used + lost && Lost(lost, before.used, stock, v.Free())
      && |lost| <= Need(ino.blockCount)
    ensures v.healthy ==>
      lost == {} && st == if Need(ino.blockCount) - 1 <= Room(old(v.Free())) then Ok else NoFreeBlocks
  {
    ptrs, ind, lost := ZeroBlock(), ino.indirect, {};
    assert
      && (ino.indirect == 0 <==> ino.blockCount == 10)
      && (ino.indirect != 0 ==> InData(v.geo, ino.indirect) && ino.indirect in before.used) by {
      OpenBacked(before, v.geo, ino);
    }
    TakenUnharmed(before, v.fs, block);
    if ino.indirect == 0 {
      st, ind, lost := FreshIndirect(v, block, before, stock);
      if st == Ok {
        ReadiedTwo(before, old(v.fs), v.fs, block, ind);
      }
    } else {
      ReadiedOne(before, v.fs, ino.blockCount, block, ino.indirect);
      st, ptrs, lost := ReadIndirect(v, ino.indirect, block, before, stock);
    }
  }

  /** The indirect block that is there already; when it cannot be read, `block` is given back. */
  method ReadIndirect(v: Volume, ind: u32, block: u32, ghost before: FS, ghost stock: Stock)
      returns (st: Status, ptrs: Block, ghost lost: set<nat>)
    requires v.Valid() && InData(v.geo, ind) && ind in before.used && InData(v.geo, block) && block !in before.used
    requires Unharmed(before, v.fs) && v.fs.used == before.used + {block} && |before.data| == v.geo.totalBlocks
    requires Took(stock, v.Free(), 1)
    modifies v`blocks, v`freeBlocks, v`fs
    ensures Head(v.blocks) == Head(old(v.blocks))
    ensures v.Valid() && Unharmed(before, v.fs)
    ensures st == Ok ==> v.fs == old(v.fs) && v.freeBlocks == old(v.freeBlocks) && ptrs == before.data[ind]
    ensures st != Ok ==>
      && v.fs.used == before.used + lost && Lost(lost, before.used, stock, v.Free()) && |lost| <= 1
    ensures v.healthy ==> lost == {} && st == Ok
  {
    lost := {};
    var hres;
    hres, ptrs := ReadData(v, ind);
    st := Ok;
    if hres != HtlOk {
      lost := GiveBack(v, block, before, stock, {});
      st := IoError;
    }
  }

  /** Stores the pointer in the indirect block `ind`, or undoes the allocations. */
  method StorePointer(v: Volume, n: u32, block: u32, ind: u32, pointers: Block, ghost before: FS, ghost stock: Stock)
      returns (st: Status, ghost lost: set<nat>)
    requires v.Valid() && 10 <= n < 1034
    requires InData(v.geo, block) && block !in before.used && |before.data| == v.geo.totalBlocks
    requires InData(v.geo, ind) && ind != block && (n == 10 ==> ind !in before.used)
    requires v.fs == Readied(before, n, block, ind)
    requires Took(stock, v.Free(), Need(n))
    modifies v`blocks, v`freeBlocks, v`fs
    ensures Head(v.blocks) == Head(old(v.blocks))
    ensures v.Valid()
    ensures st == Ok ==> v.fs == Pointed(before, n, block, ind, pointers) && v.freeBlocks == old(v.freeBlocks)
    ensures st != Ok ==> Unharmed(before, v.fs)
    ensures st != Ok ==>
      && v.fs.used == before.used + lost && Lost(lost, before.used, stock, v.Free())
      && |lost| <= Need(n)
    ensures v.healthy ==> lost == {} && st == Ok
  {
    lost := {};
    var entry := n - 10;
    var hres := WriteData(v, ind, WithPtr(pointers, entry, block));
    if hres == HtlOk {
      assert v.fs.data == before.data[block := ZeroBlock()][ind := WithPtr(pointers, entry, block)];
      return Ok, {};
    }
    st := WriteStatus(hres);
    ReadiedUnharmed(before, n, block, ind);
    lost := GiveBackTaken(v, n, block, ind, before, stock);
  }

  /** Rolls back what mapping block `n` took. */
  method GiveBackTaken(v: Volume, n: u32, block: u32, ind: u32, ghost before: FS, ghost stock: Stock)
      returns (ghost lost: set<nat>)
    requires v.Valid() && 10 <= n && InData(v.geo, block) && InData(v.geo, ind) && block != ind
    requires block !in before.used && (n == 10 ==> ind !in before.used)
    requires Unharmed(before, v.fs) && v.fs.used == before.used + Taken(n, block, ind)
    requires Took(stock, v.Free(), Need(n))
    modifies v`blocks, v`freeBlocks, v`fs
    ensures Head(v.blocks) == Head(old(v.blocks))
    ensures v.Valid() && Unharmed(before, v.fs)
    ensures v.fs.used == before.used + lost && Lost(lost, before.used, stock, v.Free())
    ensures |lost| <= Need(n)
    ensures v.healthy ==> lost == {}
  {
    var entry := n - 10;
    if n == 10 && entry == 0 {
      lost := GiveBackBoth(v, block, ind, before, stock);
    } else {
      lost := GiveBack(v, block, before, stock, {});
    }
  }

  /** Rolls one allocation back; the block is lost when freeing it fails. */
  method GiveBack(v: Volume, block: u32, ghost before: FS, ghost stock: Stock, ghost lostSoFar: set<nat>)
      returns (ghost lost: set<nat>)
    requires v.Valid() && InData(v.geo, block) && block !in before.used && block !in lostSoFar
    requires lostSoFar !! before.used
    requires Unharmed(before, v.fs) && v.fs.used == before.used + lostSoFar + {block}
    requires Took(stock, v.Free(), |lostSoFar| + 1)
    modifies v`blocks, v`freeBlocks, v`fs
    ensures Head(v.blocks) == Head(old(v.blocks))
    ensures v.Valid() && Unharmed(before, v.fs)
    ensures v.fs.used == before.used + lost && Lost(lost, before.used, stock, v.Free()) && |lost| <= |lostSoFar| + 1
    ensures v.healthy ==> lost == lostSoFar
  {
    var freed := BitmapFree(v, block);
    lost := if freed == Ok then lostSoFar else lostSoFar + {block as nat};
    assert v.fs.used == before.used + lost;
  }

  /** Rolls both allocations of the eleventh block back. */
  method GiveBackBoth(v: Volume, block: u32, ind: u32, ghost before: FS, ghost stock: Stock)
      returns (ghost lost: set<nat>)
    requires v.Valid() && InData(v.geo, block) && InData(v.geo, ind) && block != ind
    requires block !in before.used && ind !in before.used
    requires Unharmed(before, v.fs) && v.fs.used == before.used + {block, ind}
    requires Took(stock, v.Free(), 2)
    modifies v`blocks, v`freeBlocks, v`fs
    ensures Head(v.blocks) == Head(old(v.blocks))
    ensures v.Valid() && Unharmed(before, v.fs)
    ensures v.fs.used == before.used + lost && Lost(lost, before.used, stock, v.Free())
    ensures |lost| <= 2
    ensures v.healthy ==> lost == {}
  {
    var freed := BitmapFree(v, block);
    lost := if freed == Ok then {} else {block as nat};
    assert v.fs.used == before.used + lost + {ind as nat};
    lost := GiveBack(v, ind, before, stock, lost);
  }

  // ---- releasing the tail ----

  /** The first `from` pointers, the rest cleared. */
  function Cleared(direct: seq<u32>, from: nat): (r: seq<u32>)
    requires |direct| == 10
    ensures |r| == 10 && forall k :: 0 <= k < 10 ==> r[k] == if k < from then direct[k] else 0
  {
    seq(10, k requires 0 <= k < 10 => if k < from then direct[k] else 0)
  }

  /** The inode cut back to `from` blocks; the indirect block goes with the eleventh. */
  function CutBack(ino: Inode, from: u32): Inode {
    ino.(blockCount := from, direct := Cleared(ino.direct, from), indirect := if from > 10 then ino.indirect else 0)
  }

  lemma CutBackMap(data: seq<Block>, g: Geometry, ino: Inode, from: u32)
    requires Laid(g) && Mapped(data, g, ino) && from < ino.blockCount
    ensures forall k: nat :: k < from ==> BlockAt(data, CutBack(ino, from), k) == BlockAt(data, ino, k)
    ensures ino.size <= 4096 * from ==> Mapped(data, g, CutBack(ino, from))
  {
    var cut := CutBack(ino, from);
    forall k: nat | k < from
      ensures BlockAt(data, cut, k) == BlockAt(data, ino, k)
    {
    }
  }

  /** What cutting back gives up: the blocks from `from` on, and the indirect block when no more than ten remain. */
  lemma CutBackDrops(data: seq<Block>, g: Geometry, ino: Inode, from: u32)
    requires Laid(g) && Mapped(data, g, ino) && from < ino.blockCount
    ensures Owned(data, CutBack(ino, from)) <= Owned(data, ino)
    ensures Owned(data, ino) - Owned(data, CutBack(ino, from))
         == Between(data, ino, from, ino.blockCount) + (if from <= 10 && ino.indirect != 0 then {ino.indirect} else {})
  {
    var cut := CutBack(ino, from);
    CutBackMap(data, g, ino, from);
    forall b: nat
      ensures b in Owned(data, cut) ==>
        b in Owned(data, ino) && b !in Between(data, ino, from, ino.blockCount) && (from <= 10 ==> b != ino.indirect)
      ensures b in Owned(data, ino) && b !in Owned(data, cut) ==>
        b in Between(data, ino, from, ino.blockCount) || (from <= 10 && ino.indirect != 0 && b == ino.indirect)
      ensures b in Between(data, ino, from, ino.blockCount) ==> b in Owned(data, ino)
    {
      BetweenHas(data, ino, from, ino.blockCount, b);
      OwnedHas(data, ino, b);
      OwnedHas(data, cut, b);
    }
  }

  /** Releases the blocks from logical index `from` on, and the indirect block when it becomes unreferenced. */
  method BlockmapRelease(v: Volume, ino: Inode, from: u32) returns (st: Status, ino': Inode)
    requires v.Valid() && Backed(v.fs, v.geo, ino)
    modifies v`blocks, v`freeBlocks, v`fs
    ensures Head(v.blocks) == Head(old(v.blocks))
    ensures v.Valid()
    ensures v.fs.table == old(v.fs.table) && v.fs.data == old(v.fs.data)
    ensures v.fs.used <= old(v.fs.used) && old(v.fs.used) - v.fs.used <= Owned(old(v.fs.data), ino)
    ensures !v.Writable() ==> st == v.WritableStatus()
    ensures st == Ok ==> ino' == if from < ino.blockCount then CutBack(ino, from) else ino
    ensures st == Ok ==> v.fs.used == old(v.fs.used) - (Owned(v.fs.data, ino) - Owned(v.fs.data, ino'))
    ensures st == Ok ==> Gave(old(v.Free()), v.Free(), Footprint(ino.blockCount) - Footprint(Min(from, ino.blockCount)))
    ensures v.healthy && v.Writable() ==> st == Ok
  {
    ino' := ino;
    st := v.WritableStatus();
    if st != Ok {
      return;
    }
    if from >= ino.blockCount {
      assert Owned(v.fs.data, ino) - Owned(v.fs.data, ino) == {};
      return;
    }
    ghost var dropped := Between(v.fs.data, ino, from, ino.blockCount)
        + (if from <= 10 && ino.indirect != 0 then {ino.indirect} else {});
    assert dropped == Owned(v.fs.data, ino) - Owned(v.fs.data, CutBack(ino, from)) by {
      OpenBacked(v.fs, v.geo, ino);
      CutBackDrops(v.fs.data, v.geo, ino, from);
    }
    assert MapKept(v.fs.data, v.geo, ino) && (ino.indirect != 0 ==> InData(v.geo, ino.indirect)) by {
      OpenBacked(v.fs, v.geo, ino);
      assert Lifted(Map, 0);
    }
    st := ReleaseTail(v, ino, from, dropped);
    if st == Ok {
      ino' := CutBack(ino, from);
      DroppedStock(old(v.fs), v.geo, ino, from, v.fs.used, old(v.Free()), v.Free(), v.drift);
    }
  }

  /** Releasing the blocks of an inode from `from` on gives back as many as it owned beyond. */
  lemma DroppedStock(fs: FS, g: Geometry, ino: Inode, from: u32, used': set<nat>, s: Stock, s': Stock, drift: u32)
    requires Laid(g) && Sized(g, fs) && Backed(fs, g, ino) && from < ino.blockCount
    requires used' == fs.used - (Owned(fs.data, ino) - Owned(fs.data, CutBack(ino, from)))
    requires Drifted(s, drift) && Drifted(s', drift) && s.clear == Unused(g, fs.used) && s'.clear == Unused(g, used')
    ensures Gave(s, s', Footprint(ino.blockCount) - Footprint(from))
  {
    OpenBacked(fs, g, ino);
    CutBackDrops(fs.data, g, ino, from);
    DroppedSize(fs.data, g, ino, from);
    UsedFits(g, fs.used);
    StockGiven(g, fs.used, used', s, s', drift);
    assert fs.used - used' == Owned(fs.data, ino) - Owned(fs.data, CutBack(ino, from));
  }

  lemma DroppedSize(data: seq<Block>, g: Geometry, ino: Inode, from: u32)
    requires Laid(g) && Mapped(data, g, ino) && from < ino.blockCount
    ensures
      |Between(data, ino, from, ino.blockCount) + (if from <= 10 && ino.indirect != 0 then {ino.indirect} else {})|
         == Footprint(ino.blockCount) - Footprint(from)
  {
    BetweenSize(data, ino, from, ino.blockCount);
    BetweenHas(data, ino, from, ino.blockCount, ino.indirect);
  }

  method ReleaseTail(v: Volume, ino: Inode, from: u32, ghost dropped: set<nat>) returns (st: Status)
    requires v.Valid() && MapKept(v.fs.data, v.geo, ino) && from < ino.blockCount
    requires (ino.indirect != 0 ==> InData(v.geo, ino.indirect))
    requires dropped == Between(v.fs.data, ino, from, ino.blockCount)
        + (if from <= 10 && ino.indirect != 0 then {ino.indirect} else {})
    modifies v`blocks, v`freeBlocks, v`fs
    ensures Head(v.blocks) == Head(old(v.blocks))
    ensures v.Valid()
    ensures v.fs.table == old(v.fs.table) && v.fs.data == old(v.fs.data)
    ensures v.fs.used <= old(v.fs.used) && old(v.fs.used) - v.fs.used <= dropped
    ensures st == Ok ==> v.fs.used == old(v.fs.used) - dropped
    ensures v.healthy ==> st == Ok
  {
    st := FreeBetween(v, ino, from);
    if st == Ok && !(from > 10) && ino.indirect != 0 {
      st := BitmapFree(v, ino.indirect);
    }
  }

  /** The loop over the released indices; the indirect block is read once. */
  method FreeBetween(v: Volume, ino: Inode, from: u32) returns (st: Status)
    requires v.Valid() && MapKept(v.fs.data, v.geo, ino) && from < ino.blockCount
    modifies v`blocks, v`freeBlocks, v`fs
    ensures Head(v.blocks) == Head(old(v.blocks))
    ensures v.Valid()
    ensures v.fs.table == old(v.fs.table) && v.fs.data == old(v.fs.data)
    ensures v.fs.used <= old(v.fs.used) && old(v.fs.used) - v.fs.used <= Between(v.fs.data, ino, from, ino.blockCount)
    ensures st == Ok ==> v.fs.used == old(v.fs.used) - Between(v.fs.data, ino, from, ino.blockCount)
    ensures v.healthy ==> st == Ok
  {
    ghost var data := v.fs.data;
    var idx := from;
    var pointers, loaded := ZeroBlock(), false;
    while idx < ino.blockCount
      invariant from <= idx <= ino.blockCount
      invariant v.Valid() && Head(v.blocks) == Head(old(v.blocks))
      invariant v.fs.table == old(v.fs.table) && v.fs.data == data
      invariant v.fs.used == old(v.fs.used) - Between(data, ino, from, idx)
      invariant loaded ==> ino.indirect != 0 && ino.indirect < |data| && pointers == data[ino.indirect]
    {
      BetweenGrows(data, ino, from, idx, ino.blockCount);
      st, pointers, loaded := FreeOne(v, ino, idx, pointers, loaded);
      if st != Ok {
        return;
      }
      assert v.fs.used == old(v.fs.used) - Between(data, ino, from, idx + 1);
      idx := idx + 1;
    }
    st := Ok;
  }

  method FreeOne(v: Volume, ino: Inode, idx: u32, pointers: Block, loaded: bool)
      returns (st: Status, pointers': Block, loaded': bool)
    requires v.Valid() && MapKept(v.fs.data, v.geo, ino) && idx < ino.blockCount
    requires loaded ==> ino.indirect != 0 && ino.indirect < |v.fs.data| && pointers == v.fs.data[ino.indirect]
    modifies v`blocks, v`freeBlocks, v`fs
    ensures Head(v.blocks) == Head(old(v.blocks))
    ensures v.Valid()
    ensures loaded' ==> ino.indirect != 0 && ino.indirect < |v.fs.data| && pointers' == v.fs.data[ino.indirect]
    ensures v.fs == old(v.fs).(used := if st == Ok then old(v.fs.used) - {BlockAt(old(v.fs.data), ino, idx)}
        else old(v.fs.used))
    ensures v.healthy ==> st == Ok
  {
    var b;
    st, b, pointers', loaded' := PointerAt(v, ino, idx, pointers, loaded);
    if st == Ok && b != 0 {
      st := BitmapFree(v, b);
    }
  }

  lemma {:induction false} BetweenGrows(data: seq<Block>, ino: Inode, from: nat, to: nat, end: nat)
    requires to <= end
    ensures Between(data, ino, from, to) <= Between(data, ino, from, end)
    decreases end - to
  {
    if to < end {
      BetweenGrows(data, ino, from, to, end - 1);
    }
  }

  /** The block number behind index `idx`, reading the indirect block on first use. */
  method PointerAt(v: Volume, ino: Inode, idx: u32, pointers: Block, loaded: bool)
      returns (st: Status, b: u32, pointers': Block, loaded': bool)
    requires v.Valid() && MapKept(v.fs.data, v.geo, ino) && idx < ino.blockCount
    requires loaded ==> ino.indirect != 0 && ino.indirect < |v.fs.data| && pointers == v.fs.data[ino.indirect]
    ensures loaded' ==> ino.indirect != 0 && ino.indirect < |v.fs.data| && pointers' == v.fs.data[ino.indirect]
    ensures st == Ok ==> b == BlockAt(v.fs.data, ino, idx) && InData(v.geo, b)
    ensures v.healthy ==> st == Ok
  {
    st, b, pointers', loaded' := Ok, 0, pointers, loaded;
    OpenMapKept(v.fs.data, v.geo, ino);
    assert InData(v.geo, BlockAt(v.fs.data, ino, idx));
    if idx < 10 {
      b := ino.direct[idx];
    } else if ino.indirect != 0 {
      if !loaded {
        var hres;
        hres, pointers' := ReadData(v, ino.indirect);
        if hres != HtlOk {
          return IoError, 0, pointers', false;
        }
        loaded' := true;
      }
      b := PtrAt(pointers', idx - 10);
    }
  }

  // ---- growing and releasing are inverse on the allocator ----

  /**
   `ino'` is `ino` with blocks appended: the old ones keep their places, the new
   ones were free, read as zeros, and are all that was taken.
   */
  ghost predicate Extends(fs: FS, fs': FS, g: Geometry, ino: Inode, ino': Inode) {
    var r: bool :| forall k {:trigger Lifted(Extension, k)} :: Lifted(Extension, k) ==>
      (r <==> (ExtendsInFull(fs, fs', g, ino, ino')));
    r
  }

  lemma OpenExtends(fs: FS, fs': FS, g: Geometry, ino: Inode, ino': Inode)
    ensures Extends(fs, fs', g, ino, ino') <==> ExtendsInFull(fs, fs', g, ino, ino')
  {
    assert Lifted(Extension, 0);
  }

  ghost predicate ExtendsInFull(fs: FS, fs': FS, g: Geometry, ino: Inode, ino': Inode) {
    && fs'.table == fs.table && |fs'.data| == |fs.data| == g.totalBlocks
    && ino' == ino.(blockCount := ino'.blockCount, direct := ino'.direct, indirect := ino'.indirect)
    && ino.blockCount <= ino'.blockCount
    && (forall k :: 0 <= k < 10 && k < ino.blockCount ==> ino'.direct[k] == ino.direct[k])
    && (ino.indirect != 0 ==> ino'.indirect == ino.indirect)
    && Backed(fs', g, ino')
    && (forall k: nat :: k < ino.blockCount ==> BlockAt(fs'.data, ino', k) == BlockAt(fs.data, ino, k))
    && (forall k: nat :: ino.blockCount <= k < ino'.blockCount && BlockAt(fs'.data, ino', k) < |fs'.data| ==>
           fs'.data[BlockAt(fs'.data, ino', k)] == ZeroBlock())
    && Owned(fs.data, ino) <= Owned(fs'.data, ino')
    && fs'.used == fs.used + (Owned(fs'.data, ino') - Owned(fs.data, ino))
    && (Owned(fs'.data, ino') - Owned(fs.data, ino)) !! fs.used
    && (forall b :: b in fs.used && b != ino.indirect && b < |fs.data| ==> fs'.data[b] == fs.data[b])
  }

  lemma ExtendsBacked(fs: FS, fs': FS, g: Geometry, ino: Inode, ino': Inode)
    requires Extends(fs, fs', g, ino, ino')
    ensures Backed(fs', g, ino') && |fs'.data| == |fs.data| == g.totalBlocks && fs'.table == fs.table
  {
    assert Lifted(Extension, 0);
  }

  lemma ExtendsSelf(fs: FS, g: Geometry, ino: Inode)
    requires Backed(fs, g, ino) && |fs.data| == g.totalBlocks
    ensures Extends(fs, fs, g, ino, ino)
  {
    OpenBacked(fs, g, ino);
    assert Lifted(Extension, 0);
    assert ino == ino.(blockCount := ino.blockCount, direct := ino.direct, indirect := ino.indirect);
    assert fs.used == fs.used + (Owned(fs.data, ino) - Owned(fs.data, ino));
  }

  lemma GrownExtends(fs: FS, fs': FS, g: Geometry, ino: Inode, ino': Inode, b: u32)
    requires Backed(fs, g, ino) && |fs.data| == g.totalBlocks && Grown(fs, fs', g, ino, ino', b)
    ensures Extends(fs, fs', g, ino, ino')
    ensures ino'.blockCount == ino.blockCount + 1
  {
    assert Lifted(Growth, 0) && Lifted(Extension, 0) && Lifted(Backing, 0);
    OpenBacked(fs, g, ino);
    assert ino' == ino.(blockCount := ino'.blockCount, direct := ino'.direct, indirect := ino'.indirect);
    var t := Taken(ino.blockCount, b, ino'.indirect);
    assert Owned(fs'.data, ino') - Owned(fs.data, ino) == t;
  }

  lemma ExtendsTransitive(fs: FS, mid: FS, fs': FS, g: Geometry, ino: Inode, mino: Inode, ino': Inode)
    requires Extends(fs, mid, g, ino, mino) && Extends(mid, fs', g, mino, ino') && Backed(fs, g, ino)
    ensures Extends(fs, fs', g, ino, ino')
  {
    assert Lifted(Extension, 0);
    OpenBacked(fs, g, ino);
    OpenBacked(mid, g, mino);
    OpenBacked(fs', g, ino');
    assert ino' == ino.(blockCount := ino'.blockCount, direct := ino'.direct, indirect := ino'.indirect);
    var a, b, c := Owned(fs.data, ino), Owned(mid.data, mino), Owned(fs'.data, ino');
    assert c - a == (c - b) + (b - a);
    forall k: nat | ino.blockCount <= k < ino'.blockCount && BlockAt(fs'.data, ino', k) < |fs'.data|
      ensures fs'.data[BlockAt(fs'.data, ino', k)] == ZeroBlock()
    {
      if k < mino.blockCount {
        OwnedAt(mid.data, mino, k);
      }
    }
    if ino.indirect == 0 && mino.indirect != 0 {
      OwnedHas(fs.data, ino, mino.indirect);
      assert mino.indirect in b - a;
    }
  }

  /**
   Growing by any number of blocks, across the indirect boundary or not, and
   releasing to the old count restores the inode and the set of used blocks.
   */
  lemma GrowThenRelease(fs: FS, grown: FS, g: Geometry, ino: Inode, ino': Inode, released: set<nat>)
    requires Laid(g) && Backed(fs, g, ino) && Extends(fs, grown, g, ino, ino') && ino.blockCount < ino'.blockCount
    requires released == grown.used - (Owned(grown.data, ino') - Owned(grown.data, CutBack(ino', ino.blockCount)))
    ensures CutBack(ino', ino.blockCount) == ino
    ensures released == fs.used
  {
    assert Lifted(Extension, 0);
    OpenBacked(fs, g, ino);
    OpenBacked(grown, g, ino');
    var cut := CutBack(ino', ino.blockCount);
    CutBackMap(grown.data, g, ino', ino.blockCount);
    assert cut.direct == ino.direct;
    assert cut == ino;
    BetweenSame(grown.data, ino, fs.data, ino, 0, ino.blockCount);
  }
}
