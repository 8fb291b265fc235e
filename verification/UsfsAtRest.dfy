/**
 What a USFS file leaves on the device, byte by byte: its run holds the file from the
 first block on, masked with the keystream if the file is encrypted.
 */
module UsfsAtRest {
  import opened Words
  import opened Splice
  import opened Ciphers
  import opened UsfsTypes
  import opened UsfsVolume
  import opened UsfsContent
  import opened UsfsFile

  lemma PageByte(c: Cipher, blocks: seq<Block>, e: Entry, p: nat)
    requires p < 4096 * e.blockCount && e.first + p / 4096 < |blocks|
    ensures Plain(c, blocks, e)[p] == Xform(c, e.first + p / 4096, blocks[e.first + p / 4096])[p % 4096]
  {
    ViewsAt(c, blocks, e.first, e.blockCount, p / 4096);
    FlattenAt(Views(c, blocks, e.first, e.blockCount), p);
  }

  /** Encryption is on when both the volume and the entry say so. */
  predicate Masked(security: nat, e: Entry) {
    security % 2 == 1 && e.security % 2 == 1
  }

  ghost predicate ByteRests(v: Volume, e: Entry, p: nat, x: byte)
    reads v
    requires |v.key| == 32 && |v.nonce| == 12
  {
    var b := e.first + p / 4096;
    && b < |v.blocks| && b < 0x1_0000_0000
    && AtRest(Masked(v.security, e), v.key, v.nonce, b, p % 4096, x, v.blocks[b][p % 4096])
  }

  /** Where byte `p` of a run lies, and how. */
  lemma ByteOnDevice(v: Volume, e: Entry, p: nat)
    requires v.Shaped() && WellFormed(v.plan, e) && p < 4096 * e.blockCount
    ensures ByteRests(v, e, p, Plain(CipherFor(v.security, v.key, v.nonce, e), v.blocks, e)[p])
  {
    var b := e.first + p / 4096;
    PageByte(CipherFor(v.security, v.key, v.nonce, e), v.blocks, e, p);
    RawBytes(Masked(v.security, e), v.key, v.nonce, b, v.blocks[b], p % 4096);
  }

  /** Every byte of `buf`, at `offset` in the file, is where it belongs on the device. */
  ghost predicate Rests(v: Volume, e: Entry, offset: nat, buf: seq<byte>)
    reads v
    requires |v.key| == 32 && |v.nonce| == 12
  {
    forall p :: 0 <= p < |buf| ==> ByteRests(v, e, offset + p, buf[p])
  }

  lemma BytesRest(v: Volume, e: Entry, offset: nat, buf: seq<byte>)
    requires v.Shaped() && WellFormed(v.plan, e) && offset + |buf| <= e.size
    requires Content(CipherFor(v.security, v.key, v.nonce, e), v.blocks, e)[offset..offset + |buf|] == buf
    ensures Rests(v, e, offset, buf)
  {
    var all := Content(CipherFor(v.security, v.key, v.nonce, e), v.blocks, e);
    forall p | 0 <= p < |buf|
      ensures ByteRests(v, e, offset + p, buf[p])
    {
      assert all[offset..offset + |buf|][p] == all[offset + p];
      assert all[offset + p] == Plain(CipherFor(v.security, v.key, v.nonce, e), v.blocks, e)[offset + p];
      ByteOnDevice(v, e, offset + p);
    }
  }

  lemma AllWritten(v: Volume, before: seq<Block>, e: Entry, e': Entry, i: nat, offset: u32, buf: seq<byte>)
    requires v.Shaped() && WellFormed(v.plan, e') && e'.security == e.security && e.size <= 4096 * e.blockCount
    requires Wrote(CipherFor(v.security, v.key, v.nonce, e), before, v.blocks, e, e', offset, buf)
    requires e'.size == Wrap(offset + |buf|) && offset + |buf| < 0x1_0000_0000
    ensures Rests(v, e', offset, buf)
  {
    WriteReadsBack(CipherFor(v.security, v.key, v.nonce, e), before, v.blocks, e, e', offset, buf);
    BytesRest(v, e', offset, buf);
  }

  /** After a write that ends below 2^32, every byte of the buffer is on the device: masked, or in the clear. */
  method WriteAtRest(v: Volume, e: Entry, i: u32, offset: u32, buf: seq<byte>)
      returns (st: Status, written: nat, e': Entry)
    requires v.healthy && InOrder(v) && i < 256 && v.table[i] == e && 0 < |buf| && offset + |buf| < 0x1_0000_0000
    modifies v`blocks, v`freeBlocks, v`used, v`table
    ensures v.Shaped()
    ensures st == Ok ==> written == |buf| && v.table[i] == e' && Rests(v, e', offset, buf)
  {
    ghost var before := v.blocks;
    ghost var table, used := v.table, v.used;
    assert WellFormed(v.plan, e) by { ExactAt(v.plan, v.table, v.used, i); }
    st, written, e' := FileWrite(v, e, i, offset, buf);
    if st == Ok {
      RewroteEntry(v, e, e', i, table, used, before);
      ExactAt(v.plan, v.table, v.used, i);
      AllWritten(v, before, e, e', i, offset, buf);
    }
  }
}
