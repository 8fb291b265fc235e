/**
 What a file contains: its mapped blocks, decrypted, one after the other.
 */
module OwfsContent {
  import opened Words
  import opened Splice
  import opened Ciphers
  import opened OwfsTypes
  import opened OwfsVolume
  import opened OwfsOwnership

  /** Logical block `k` of a file as the reader sees it. */
  function PlainBlock(c: Cipher, data: seq<Block>, ino: Inode, k: nat): Block {
    var b := BlockAt(data, ino, k);
    if b < |data| then Xform(c, b, data[b]) else ZeroBlock()
  }

  /** Logical blocks `0` to `n - 1` of a file. */
  function PlainBlocks(c: Cipher, data: seq<Block>, ino: Inode, n: nat): (r: seq<Block>)
    ensures |r| == n
  {
    if n == 0 then [] else PlainBlocks(c, data, ino, n - 1) + [PlainBlock(c, data, ino, n - 1)]
  }

  lemma {:induction false} PlainBlocksAt(c: Cipher, data: seq<Block>, ino: Inode, n: nat, k: nat)
    requires k < n
    ensures PlainBlocks(c, data, ino, n)[k] == PlainBlock(c, data, ino, k)
    ensures PlainBlocks(c, data, ino, n)[..k] == PlainBlocks(c, data, ino, k)
  {
    if k < n - 1 {
      PlainBlocksAt(c, data, ino, n - 1, k);
    }
  }

  /** The blocks are decided one by one. */
  lemma PlainBlocksAre(c: Cipher, data: seq<Block>, ino: Inode, bs: seq<Block>)
    requires forall k: nat :: k < |bs| ==> bs[k] == PlainBlock(c, data, ino, k)
    ensures PlainBlocks(c, data, ino, |bs|) == bs
  {
    forall k: nat | k < |bs|
      ensures PlainBlocks(c, data, ino, |bs|)[k] == bs[k]
    {
      PlainBlocksAt(c, data, ino, |bs|, k);
    }
  }

  /** Everything the file's blocks hold, up to the end of the last one. */
  function Plain(c: Cipher, data: seq<Block>, ino: Inode): (r: seq<byte>)
    ensures |r| == 4096 * ino.blockCount
  {
    Flatten(PlainBlocks(c, data, ino, ino.blockCount))
  }

  /** The file: the first `size` bytes of that. */
  function Content(c: Cipher, data: seq<Block>, ino: Inode): (r: seq<byte>)
    requires ino.size <= 4096 * ino.blockCount
    ensures |r| == ino.size
  {
    Plain(c, data, ino)[..ino.size]
  }

  /** Changing one logical block changes just its stretch of the file. */
  lemma PlainChange(c: Cipher, data: seq<Block>, data': seq<Block>, ino: Inode, k: nat, at: nat, piece: seq<byte>)
    requires k < ino.blockCount && at + |piece| <= 4096
    requires forall j: nat :: j < ino.blockCount && j != k ==>
      PlainBlock(c, data', ino, j) == PlainBlock(c, data, ino, j)
    requires PlainBlock(c, data', ino, k) == Over(PlainBlock(c, data, ino, k), at, piece)
    ensures Plain(c, data', ino) == Over(Plain(c, data, ino), 4096 * k + at, piece)
  {
    var n := ino.blockCount;
    var bs := PlainBlocks(c, data, ino, n);
    PlainBlocksAt(c, data, ino, n, k);
    var after := bs[k := Over(bs[k], at, piece)];
    forall j: nat | j < n
      ensures after[j] == PlainBlock(c, data', ino, j)
    {
      PlainBlocksAt(c, data, ino, n, j);
    }
    PlainBlocksAre(c, data', ino, after);
    FlattenOver(bs, k, at, piece);
  }

  /** Rewriting block `k` through the cipher with a piece laid over it. */
  lemma RewriteBlock(c: Cipher, data: seq<Block>, g: Geometry, ino: Inode, k: nat, at: nat, piece: seq<byte>,
      buf: Block)
    requires Mapped(data, g, ino) && |data| == g.totalBlocks && k < ino.blockCount && at + |piece| <= 4096
    requires buf == Xform(c, BlockAt(data, ino, k), Over(PlainBlock(c, data, ino, k), at, piece))
    ensures InData(g, BlockAt(data, ino, k))
    ensures var data' := data[BlockAt(data, ino, k) := buf];
            && Mapped(data', g, ino) && Owned(data', ino) == Owned(data, ino)
            && (forall j: nat :: j < ino.blockCount ==> BlockAt(data', ino, j) == BlockAt(data, ino, j))
            && Plain(c, data', ino) == Over(Plain(c, data, ino), 4096 * k + at, piece)
  {
    var b := BlockAt(data, ino, k);
    var data' := data[b := buf];
    SameMap(data, data', g, ino);
    XformInvolution(c, b, Over(PlainBlock(c, data, ino, k), at, piece));
    forall j: nat | j < ino.blockCount && j != k
      ensures PlainBlock(c, data', ino, j) == PlainBlock(c, data, ino, j)
    {
      assert BlockAt(data, ino, j) != b;
    }
    PlainChange(c, data, data', ino, k, at, piece);
  }

  /**
   What fresh, zeroed blocks `from` to `to - 1` of a file read as: zeros, or the bare keystream of an
   encrypted file.
   */
  function ZeroViews(c: Cipher, data: seq<Block>, ino: Inode, from: nat, to: nat): (r: seq<Block>)
    ensures |r| == if from <= to then to - from else 0
  {
    if to <= from then []
    else ZeroViews(c, data, ino, from, to - 1) + [Xform(c, BlockAt(data, ino, to - 1), ZeroBlock())]
  }

  lemma {:induction false} ZeroViewsClear(data: seq<Block>, ino: Inode, from: nat, to: nat)
    requires from <= to
    ensures Flatten(ZeroViews(Clear, data, ino, from, to)) == Zeros(4096 * (to - from))
  {
    if from < to {
      ZeroViewsClear(data, ino, from, to - 1);
      var vs := ZeroViews(Clear, data, ino, from, to);
      assert vs[..|vs| - 1] == ZeroViews(Clear, data, ino, from, to - 1);
    }
  }

  lemma {:induction false} ZeroViewsSame(c: Cipher, data: seq<Block>, ino: Inode, data': seq<Block>, ino': Inode,
      from: nat, to: nat)
    requires forall k: nat :: from <= k < to ==> BlockAt(data', ino', k) == BlockAt(data, ino, k)
    ensures ZeroViews(c, data', ino', from, to) == ZeroViews(c, data, ino, from, to)
  {
    if from < to {
      ZeroViewsSame(c, data, ino, data', ino', from, to - 1);
    }
  }

  lemma {:induction false} PlainBlocksSame(c: Cipher, data: seq<Block>, ino: Inode, data': seq<Block>, ino': Inode,
      n: nat)
    requires forall k: nat :: k < n ==> PlainBlock(c, data', ino', k) == PlainBlock(c, data, ino, k)
    ensures PlainBlocks(c, data', ino', n) == PlainBlocks(c, data, ino, n)
  {
    if n > 0 {
      PlainBlocksSame(c, data, ino, data', ino', n - 1);
    }
  }

  /** Only the block pointers of an inode matter to what it maps and reads as. */
  lemma SamePointers(c: Cipher, data: seq<Block>, g: Geometry, ino: Inode, ino': Inode)
    requires ino'.blockCount == ino.blockCount && ino'.direct == ino.direct && ino'.indirect == ino.indirect
    ensures Owned(data, ino') == Owned(data, ino)
    ensures Plain(c, data, ino') == Plain(c, data, ino)
    ensures forall k: nat :: BlockAt(data, ino', k) == BlockAt(data, ino, k)
    ensures ino'.size <= 4096 * ino.blockCount && Mapped(data, g, ino) ==> Mapped(data, g, ino')
  {
    BetweenSame(data, ino, data, ino', 0, ino.blockCount);
    PlainBlocksSame(c, data, ino, data, ino', ino.blockCount);
  }

  /** A file reads the same as long as its own blocks do. */
  lemma SameContent(c: Cipher, data: seq<Block>, data': seq<Block>, g: Geometry, ino: Inode)
    requires Mapped(data, g, ino) && |data| == |data'| == g.totalBlocks
    requires forall b :: b in Owned(data, ino) && b < |data| ==> data'[b] == data[b]
    ensures Plain(c, data', ino) == Plain(c, data, ino)
  {
    if ino.indirect != 0 {
      OwnedHas(data, ino, ino.indirect);
    }
    SameMap(data, data', g, ino);
    forall k: nat | k < ino.blockCount
      ensures PlainBlock(c, data', ino, k) == PlainBlock(c, data, ino, k)
    {
      OwnedAt(data, ino, k);
    }
    PlainBlocksSame(c, data, ino, data', ino, ino.blockCount);
  }
}
