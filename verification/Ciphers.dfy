/**
 Block encryption as both filesystems use it: each block is masked with the
 keystream that starts at its own block number.
 */
module Ciphers {
  import opened Words
  import opened Veils
  import opened ChaCha20

  /** A keystream, or none for a file that is not encrypted. */
  datatype Cipher = Clear | Keyed(stream: Keystream)

  /** Encrypts or decrypts a block under its own number. */
  function Xform(c: Cipher, b: nat, buf: Block): Block {
    if c.Clear? || b >= 0x1_0000_0000 then buf else Crypt(c.stream, b, buf)
  }

  lemma XformInvolution(c: Cipher, b: nat, buf: Block)
    ensures Xform(c, b, Xform(c, b, buf)) == buf
  {
    if c.Keyed? && b < 0x1_0000_0000 {
      CryptInvolution(c.stream, b, buf);
    }
  }

  /** The cipher of a key and a nonce, if encryption is on. */
  ghost function CipherOf(on: bool, key: seq<byte>, nonce: seq<byte>): Cipher
    requires |key| == 32 && |nonce| == 12
  {
    if on then Keyed(Stream(key, nonce)) else Clear
  }

  /** A block is masked byte by byte, under its own number. */
  lemma XformBytes(on: bool, key: seq<byte>, nonce: seq<byte>, b: u32, buf: Block)
    requires |key| == 32 && |nonce| == 12
    ensures forall k :: 0 <= k < 4096 ==>
      Xform(CipherOf(on, key, nonce), b, buf)[k] ==
        if on then XorByte(buf[k], KeyBlock((b + k / 64) % 0x1_0000_0000, key, nonce)[k % 64]) else buf[k]
  {
    forall k: nat | k < 4096 && on
      ensures Xform(CipherOf(on, key, nonce), b, buf)[k] ==
          XorByte(buf[k], KeyBlock((b + k / 64) % 0x1_0000_0000, key, nonce)[k % 64])
    {
      CryptByte(b, key, nonce, buf, k);
    }
  }

  /** Byte `k` of block `b` lies on the device as `raw` and reads as `x`: masked if encryption is on. */
  ghost predicate AtRest(on: bool, key: seq<byte>, nonce: seq<byte>, b: u32, k: nat, x: byte, raw: byte)
    requires |key| == 32 && |nonce| == 12
  {
    var r: bool :| forall n {:trigger Lifted(Masking, n)} :: Lifted(Masking, n) ==>
      (r <==> raw == if on then XorByte(x, KeyBlock((b + k / 64) % 0x1_0000_0000, key, nonce)[k % 64]) else x);
    r
  }

  lemma OpenAtRest(on: bool, key: seq<byte>, nonce: seq<byte>, b: u32, k: nat, x: byte, raw: byte)
    requires |key| == 32 && |nonce| == 12
    ensures AtRest(on, key, nonce, b, k, x, raw) <==>
      raw == if on then XorByte(x, KeyBlock((b + k / 64) % 0x1_0000_0000, key, nonce)[k % 64]) else x
  {
    assert Lifted(Masking, 0);
  }

  /** A block on the device, from what it reads as. */
  lemma RawBytes(on: bool, key: seq<byte>, nonce: seq<byte>, b: u32, raw: Block, k: nat)
    requires |key| == 32 && |nonce| == 12 && k < 4096
    ensures AtRest(on, key, nonce, b, k, Xform(CipherOf(on, key, nonce), b, raw)[k], raw[k])
  {
    var plain := Xform(CipherOf(on, key, nonce), b, raw);
    XformInvolution(CipherOf(on, key, nonce), b, raw);
    XformBytes(on, key, nonce, b, plain);
    OpenAtRest(on, key, nonce, b, k, plain[k], raw[k]);
  }

  method CryptoXform(on: bool, key: seq<byte>, nonce: seq<byte>, buf: Block, b: u32) returns (r: Block)
    requires |key| == 32 && |nonce| == 12
    ensures r == Xform(CipherOf(on, key, nonce), b, buf)
    ensures forall k :: 0 <= k < 4096 ==>
      r[k] == if on then XorByte(buf[k], KeyBlock((b + k / 64) % 0x1_0000_0000, key, nonce)[k % 64]) else buf[k]
  {
    r := buf;
    if on {
      var a := new byte[4096](i requires 0 <= i < 4096 => buf[i]);
      assert a[..] == buf;
      ChaCha20Xor(b, key, nonce, a);
      r := a[..];
    }
    XformBytes(on, key, nonce, b, buf);
  }
}
