/**
 What an OWFS file leaves on the device, byte by byte: where each byte of the file
 lies, and whether it is masked with the keystream.
 */
module OwfsAtRest {
  import opened Words
  import opened Splice
  import opened Ciphers
  import opened OwfsTypes
  import opened OwfsVolume
  import opened OwfsOwnership
  import opened OwfsContent
  import opened OwfsFile

  lemma PageByte(c: Cipher, data: seq<Block>, ino: Inode, p: nat)
    requires p < 4096 * ino.blockCount && BlockAt(data, ino, p / 4096) < |data|
    ensures Plain(c, data, ino)[p] ==
        Xform(c, BlockAt(data, ino, p / 4096), data[BlockAt(data, ino, p / 4096)])[p % 4096]
  {
    PlainBlocksAt(c, data, ino, ino.blockCount, p / 4096);
    FlattenAt(PlainBlocks(c, data, ino, ino.blockCount), p);
  }

  /** Encryption is on when both the volume and the inode say so. */
  predicate Masked(security: nat, ino: Inode) {
    security % 2 == 1 && ino.security % 2 == 1
  }

  /** Byte `p` of a file lies in the block of its page, and is masked if encryption is on. */
  lemma ByteAtRest(security: nat, id: Ident, data: seq<Block>, g: Geometry, ino: Inode, p: nat)
    requires Mapped(data, g, ino) && |data| == g.totalBlocks && p < 4096 * ino.blockCount
    ensures var b := BlockAt(data, ino, p / 4096);
            && InData(g, b)
            && AtRest(Masked(security, ino), id.key1[..32], id.nonce, b, p % 4096,
                 Plain(CipherFor(security, id, ino), data, ino)[p], data[b][p % 4096])
  {
    var b := BlockAt(data, ino, p / 4096);
    PageByte(CipherFor(security, id, ino), data, ino, p);
    RawBytes(Masked(security, ino), id.key1[..32], id.nonce, b, data[b], p % 4096);
  }

  /** Every byte of `buf`, at `offset` in the file, is where it belongs on the device. */
  ghost predicate Rests(v: Volume, ino: Inode, offset: nat, buf: seq<byte>)
    reads v
  {
    forall p :: 0 <= p < |buf| ==> ByteRests(v, ino, offset + p, buf[p])
  }

  ghost predicate ByteRests(v: Volume, ino: Inode, p: nat, x: byte)
    reads v
  {
    var b := BlockAt(v.fs.data, ino, p / 4096);
    && b < |v.blocks| && b < 0x1_0000_0000
    && AtRest(Masked(v.security, ino), v.id.key1[..32], v.id.nonce, b, p % 4096, x, v.blocks[b][p % 4096])
  }

  lemma ByteOnDevice(v: Volume, ino: Inode, p: nat)
    requires v.Valid() && Mapped(v.fs.data, v.geo, ino) && p < 4096 * ino.blockCount
    ensures ByteRests(v, ino, p, Plain(CipherFor(v.security, v.id, ino), v.fs.data, ino)[p])
  {
    ByteAtRest(v.security, v.id, v.fs.data, v.geo, ino, p);
    OpenStored(v.blocks, v.geo, v.fs);
  }

  /** After a write that succeeds, every byte of the buffer is on the device: masked, or in the clear. */
  method WriteAtRest(v: Volume, ino: Inode, i: u32, offset: u32, buf: seq<byte>)
      returns (st: Status, written: nat, ino': Inode)
    requires v.Valid() && v.healthy && Sound(v.fs, v.geo) && Holds(v.fs, i) && v.fs.table[i] == ino
    requires 0 < |buf| < 0x1_0000_0000
    modifies v`blocks, v`freeBlocks, v`fs
    ensures st == Ok ==>
      written == |buf| && i < |v.fs.table| && v.fs.table[i] == ino' && Rests(v, ino', offset, buf)
  {
    ghost var before := v.fs;
    st, written, ino' := FileWrite(v, ino, i, offset, buf);
    if st == Ok {
      assert buf[..written] == buf;
      AllWritten(v, before, ino, ino', i, offset, buf);
    }
  }

  lemma AllWritten(v: Volume, before: FS, ino: Inode, ino': Inode, i: u32, offset: u32, buf: seq<byte>)
    requires v.Valid() && Sound(before, v.geo) && StepOn(before, v.fs, v.geo, i) && Holds(before, i) && 0 < |buf|
    requires i < |v.fs.table| && v.fs.table[i] == ino' && before.table[i] == ino && Holds(v.fs, i)
    requires Wrote(CipherFor(v.security, v.id, ino), before, v.fs, ino, ino', offset, buf, BlocksFor(offset + |buf|))
    ensures Rests(v, ino', offset, buf)
  {
    SoundMapped(before, v.geo, i);
    NowMapped(before, v.fs, v.geo, i);
    WriteReadsBack(CipherFor(v.security, v.id, ino), before, v.fs, ino, ino', offset, buf, BlocksFor(offset + |buf|));
    BytesRest(v, ino', offset, buf);
  }

  lemma BytesRest(v: Volume, ino: Inode, offset: nat, buf: seq<byte>)
    requires v.Valid() && Mapped(v.fs.data, v.geo, ino) && offset + |buf| <= ino.size
    requires Content(CipherFor(v.security, v.id, ino), v.fs.data, ino)[offset..offset + |buf|] == buf
    ensures Rests(v, ino, offset, buf)
  {
    var all := Content(CipherFor(v.security, v.id, ino), v.fs.data, ino);
    forall p | 0 <= p < |buf|
      ensures ByteRests(v, ino, offset + p, buf[p])
    {
      assert all[offset..offset + |buf|][p] == all[offset + p];
      assert all[offset + p] == Plain(CipherFor(v.security, v.id, ino), v.fs.data, ino)[offset + p];
      ByteOnDevice(v, ino, offset + p);
    }
  }
}
