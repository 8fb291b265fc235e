/**
 ChaCha20 as sections 2.1 to 2.4 of RFC 8439 define it, and the in-place
 exclusive or with its keystream that encrypts and decrypts data blocks.
 */
module ChaCha20 {
  import opened Words

  type State = s: seq<u32> | |s| == 16 witness seq(16, _ => 0)
  type Key = k: seq<byte> | |k| == 32 witness seq(32, _ => 0)
  type Nonce = n: seq<byte> | |n| == 12 witness seq(12, _ => 0)

  const DOUBLE_ROUNDS: nat := 10

  function Plus(a: u32, b: u32): u32 {
    (a + b) % 0x1_0000_0000
  }

  /** Rotation by the bit count whose power of two is `up`, where `up * down == 2^32`. */
  function Rotl(x: u32, up: nat, down: nat): u32
    requires (up == 0x1_0000 && down == 0x1_0000) || (up == 0x1000 && down == 0x10_0000)
          || (up == 0x100 && down == 0x100_0000) || (up == 0x80 && down == 0x200_0000)
  {
    x % down * up + x / down
  }

  function Rotl16(x: u32): u32 { Rotl(x, 0x1_0000, 0x1_0000) }
  function Rotl12(x: u32): u32 { Rotl(x, 0x1000, 0x10_0000) }
  function Rotl8(x: u32): u32 { Rotl(x, 0x100, 0x100_0000) }
  function Rotl7(x: u32): u32 { Rotl(x, 0x80, 0x200_0000) }

  /** The quarter round on four words. */
  function QuarterRound(a0: u32, b0: u32, c0: u32, d0: u32): (u32, u32, u32, u32) {
    var a1 := Plus(a0, b0);
    var d1 := Rotl16(XorWord(d0, a1));
    var c1 := Plus(c0, d1);
    var b1 := Rotl12(XorWord(b0, c1));
    var a2 := Plus(a1, b1);
    var d2 := Rotl8(XorWord(d1, a2));
    var c2 := Plus(c1, d2);
    var b2 := Rotl7(XorWord(b1, c2));
    (a2, b2, c2, d2)
  }

  /** The quarter round on four words of the state. */
  function QuarterRoundAt(s: State, i: nat, j: nat, k: nat, l: nat): State
    requires i < 4 <= j < 8 <= k < 12 <= l < 16
  {
    var (a, b, c, d) := QuarterRound(s[i], s[j], s[k], s[l]);
    s[i := a][j := b][k := c][l := d]
  }

  /** A column round: the four columns of the state. */
  function ColumnRound(s: State): State {
    QuarterRoundAt(QuarterRoundAt(QuarterRoundAt(QuarterRoundAt(s, 0, 4, 8, 12), 1, 5, 9, 13), 2, 6, 10, 14), 3, 7, 11,
        15)
  }

  /** A diagonal round: the four diagonals of the state. */
  function DiagonalRound(s: State): State {
    QuarterRoundAt(QuarterRoundAt(QuarterRoundAt(QuarterRoundAt(s, 0, 5, 10, 15), 1, 6, 11, 12), 2, 7, 8, 13), 3, 4, 9,
        14)
  }

  function DoubleRounds(s: State, n: nat): State {
    if n == 0 then s else DiagonalRound(ColumnRound(DoubleRounds(s, n - 1)))
  }

  function WordsFrom(p: seq<byte>, n: nat): (ws: seq<u32>)
    requires 4 * n <= |p|
    ensures |ws| == n
  {
    if n == 0 then [] else WordsFrom(p, n - 1) + [Le32(p[4 * n - 4..4 * n])]
  }

  function InitialState(counter: u32, key: Key, nonce: Nonce): State {
    [0x6170_7865, 0x3320_646E, 0x7962_2D32, 0x6B20_6574] + WordsFrom(key, 8) + [counter] + WordsFrom(nonce, 3)
  }

  lemma {:induction false} WordsFromAt(p: seq<byte>, n: nat, j: nat)
    requires 4 * n <= |p| && j < n
    ensures WordsFrom(p, n)[j] == Le32(p[4 * j..4 * j + 4])
  {
    if j < n - 1 {
      WordsFromAt(p, n - 1, j);
    }
  }

  /** Where everything goes: four constants, the key, the block counter, the nonce. */
  lemma InitialStateIs(counter: u32, key: Key, nonce: Nonce)
    ensures var s := InitialState(counter, key, nonce);
            && s[0] == 0x6170_7865 && s[1] == 0x3320_646e && s[2] == 0x7962_2d32 && s[3] == 0x6b20_6574
            && (forall j :: 0 <= j < 8 ==> s[4 + j] == Le32(key[4 * j..4 * j + 4]))
            && s[12] == counter
            && s[13] == Le32(nonce[0..4]) && s[14] == Le32(nonce[4..8]) && s[15] == Le32(nonce[8..12])
  {
    var s := InitialState(counter, key, nonce);
    forall j | 0 <= j < 8
      ensures s[4 + j] == Le32(key[4 * j..4 * j + 4])
    {
      WordsFromAt(key, 8, j);
    }
    WordsFromAt(nonce, 3, 0);
    WordsFromAt(nonce, 3, 1);
    WordsFromAt(nonce, 3, 2);
  }

  /** The first `n` words of the state sum, serialized. */
  function Serialized(work: State, start: State, n: nat): (p: seq<byte>)
    requires n <= 16
    ensures |p| == 4 * n
  {
    if n == 0 then [] else Serialized(work, start, n - 1) + PutLe32(Plus(work[n - 1], start[n - 1]))
  }

  /** One 64-byte block of keystream. */
  function KeyBlock(counter: u32, key: Key, nonce: Nonce): Pad {
    var start := InitialState(counter, key, nonce);
    Serialized(DoubleRounds(start, DOUBLE_ROUNDS), start, 16)
  }

  type Pad = p: seq<byte> | |p| == 64 witness seq(64, _ => 0)

  /** A keystream: one 64-byte pad per block counter. */
  type Keystream = u32 -> Pad

  /** `s` is the keystream of a key and a nonce. */
  ghost predicate IsStream(s: Keystream, key: Key, nonce: Nonce) {
    forall counter: u32 {:trigger KeyBlock(counter, key, nonce)} :: s(counter) == KeyBlock(counter, key, nonce)
  }

  /** The keystream of a key and a nonce. */
  ghost function Stream(key: Key, nonce: Nonce): (s: Keystream)
    ensures IsStream(s, key, nonce)
  {
    var f: Keystream := counter => KeyBlock(counter, key, nonce);
    assert IsStream(f, key, nonce);
    var s: Keystream :| IsStream(s, key, nonce);
    s
  }

  /** Exclusive or of a buffer with as much of a keystream block. */
  function Mask(data: seq<byte>, pad: seq<byte>): (r: seq<byte>)
    requires |data| <= |pad|
    ensures |r| == |data|
  {
    if data == [] then []
    else var n := |data| - 1; Mask(data[..n], pad) + [XorByte(data[n], pad[n])]
  }

  /** The 32-bit counter one block on, wrapping to zero. */
  function Succ(counter: u32): u32 {
    if counter == 0xFFFF_FFFF then 0 else counter + 1
  }

  /** The counter `m` blocks on. */
  function Advance(counter: u32, m: nat): u32
    decreases m
  {
    if m == 0 then counter else Advance(Succ(counter), m - 1)
  }

  /** A keystream laid over a buffer from block `counter` on; the block counter wraps. */
  function Crypt(stream: Keystream, counter: u32, data: seq<byte>): (r: seq<byte>)
    ensures |r| == |data|
    decreases |data|
  {
    if |data| <= 64 then Mask(data, stream(counter))
    else Mask(data[..64], stream(counter)) + Crypt(stream, Succ(counter), data[64..])
  }

  // ---- the code ----

  method ChachaQr(work: array<u32>, i: nat, j: nat, k: nat, l: nat)
    requires work.Length == 16 && i < 4 <= j < 8 <= k < 12 <= l < 16
    modifies work
    ensures work[..] == QuarterRoundAt(old(work[..]), i, j, k, l)
  {
    work[i] := Plus(work[i], work[j]);
    work[l] := Rotl16(XorWord(work[l], work[i]));
    work[k] := Plus(work[k], work[l]);
    work[j] := Rotl12(XorWord(work[j], work[k]));
    work[i] := Plus(work[i], work[j]);
    work[l] := Rotl8(XorWord(work[l], work[i]));
    work[k] := Plus(work[k], work[l]);
    work[j] := Rotl7(XorWord(work[j], work[k]));
  }

  method DoubleRound(work: array<u32>)
    requires work.Length == 16
    modifies work
    ensures work[..] == DiagonalRound(ColumnRound(old(work[..])))
  {
    ChachaQr(work, 0, 4, 8, 12);
    ChachaQr(work, 1, 5, 9, 13);
    ChachaQr(work, 2, 6, 10, 14);
    ChachaQr(work, 3, 7, 11, 15);
    ChachaQr(work, 0, 5, 10, 15);
    ChachaQr(work, 1, 6, 11, 12);
    ChachaQr(work, 2, 7, 8, 13);
    ChachaQr(work, 3, 4, 9, 14);
  }

  method Mix(start: State) returns (work: array<u32>)
    ensures fresh(work) && work.Length == 16 && work[..] == DoubleRounds(start, DOUBLE_ROUNDS)
  {
    work := new u32[16](i requires 0 <= i < 16 => start[i]);
    assert work[..] == start;
    for round := 0 to DOUBLE_ROUNDS
      invariant work[..] == DoubleRounds(start, round)
    {
      DoubleRound(work);
    }
  }

  method ChaCha20Block(counter: u32, key: Key, nonce: Nonce) returns (out: Pad)
    ensures out == KeyBlock(counter, key, nonce)
  {
    var start := InitialState(counter, key, nonce);
    var work := Mix(start);
    out := SumAndStore(work, start);
  }

  method SumAndStore(work: array<u32>, start: State) returns (out: seq<byte>)
    requires work.Length == 16
    ensures out == Serialized(work[..], start, 16)
  {
    out := [];
    for i := 0 to 16
      invariant out == Serialized(work[..], start, i)
    {
      out := out + PutLe32(Plus(work[i], start[i]));
    }
  }

  lemma {:induction false} MaskAt(data: seq<byte>, pad: seq<byte>, i: nat)
    requires i < |data| <= |pad|
    ensures Mask(data, pad)[i] == XorByte(data[i], pad[i])
  {
    var n := |data| - 1;
    if i < n {
      MaskAt(data[..n], pad, i);
    }
  }

  /** `r` in the place of a stretch of `all`. */
  lemma Replaced(all: seq<byte>, now: seq<byte>, pos: nat, r: seq<byte>)
    requires pos + |r| <= |all| == |now|
    requires forall k :: 0 <= k < |all| ==> now[k] == if pos <= k < pos + |r| then r[k - pos] else all[k]
    ensures now == all[..pos] + r + all[pos + |r|..]
  {
  }

  method MaskRange(data: array<byte>, pos: nat, stream: seq<byte>, chunk: nat)
    requires pos + chunk <= data.Length && chunk <= |stream|
    modifies data
    ensures data[..] == old(data[..pos]) + Mask(old(data[pos..pos + chunk]), stream) + old(data[pos + chunk..])
  {
    ghost var all := data[..];
    ghost var piece := data[pos..pos + chunk];
    ghost var masked := Mask(piece, stream);
    for i := 0 to chunk
      invariant forall k :: 0 <= k < data.Length ==> data[k] == if pos <= k < pos + i then masked[k - pos] else all[k]
    {
      MaskAt(piece, stream, i);
      assert data[pos + i] == piece[i];
      data[pos + i] := XorByte(data[pos + i], stream[i]);
    }
    Replaced(all, data[..], pos, masked);
    assert all[..pos] == old(data[..pos]) && all[pos + chunk..] == old(data[pos + chunk..]);
  }

  /** Exclusive-ors the keystream over the buffer in place, one 64-byte block at a time. */
  method ChaCha20Xor(counter0: u32, key: Key, nonce: Nonce, data: array<byte>)
    modifies data
    ensures data[..] == Crypt(Stream(key, nonce), counter0, old(data[..]))
  {
    ghost var s := Stream(key, nonce);
    var counter, pos := counter0, 0;
    ghost var all, done: seq<byte> := data[..], [];
    ProgressStart(s, counter, all);
    while pos < data.Length
      invariant 0 <= pos <= data.Length
      invariant Progress(s, counter0, counter, all, done, pos, data[..])
      decreases data.Length - pos
    {
      var pad := NextPad(counter, key, nonce, s);
      var chunk := if data.Length - pos > 64 then 64 else data.Length - pos;
      ghost var before := data[..];
      MaskRange(data, pos, pad, chunk);
      ProgressStep(s, counter0, counter, all, done, pos, before, chunk, data[..]);
      done := done + Mask(all[pos..pos + chunk], pad);
      counter := Succ(counter);
      pos := pos + chunk;
    }
    ProgressDone(s, counter0, counter, all, done, data[..]);
  }

  lemma ProgressDone(s: Keystream, counter0: u32, counter: u32, all: seq<byte>, done: seq<byte>, now: seq<byte>)
    requires Progress(s, counter0, counter, all, done, |all|, now)
    ensures now == Crypt(s, counter0, all)
  {
    assert all[|all|..] == [];
    assert done + [] == done;
  }

  lemma ProgressStart(s: Keystream, counter: u32, all: seq<byte>)
    ensures Progress(s, counter, counter, all, [], 0, all)
  {
    assert all[0..] == all;
    assert [] + all == all && [] + Crypt(s, counter, all) == Crypt(s, counter, all);
  }

  /** The first `pos` bytes are done, the rest untouched, and the rest still needs the keystream from `counter` on. */
  ghost predicate Progress(s: Keystream, counter0: u32, counter: u32, all: seq<byte>, done: seq<byte>, pos: nat,
      now: seq<byte>) {
    && |done| == pos <= |all|
    && now == done + all[pos..]
    && Crypt(s, counter0, all) == done + Crypt(s, counter, all[pos..])
  }

  lemma ProgressStep(s: Keystream, counter0: u32, counter: u32, all: seq<byte>, done: seq<byte>, pos: nat,
      now: seq<byte>, chunk: nat, after: seq<byte>)
    requires Progress(s, counter0, counter, all, done, pos, now)
    requires pos + chunk <= |all| && (chunk == 64 || chunk == |all| - pos < 64)
    requires after == now[..pos] + Mask(now[pos..pos + chunk], s(counter)) + now[pos + chunk..]
    ensures Progress(s, counter0, Succ(counter), all, done + Mask(all[pos..pos + chunk], s(counter)), pos + chunk,
        after)
  {
    var head, tail := all[pos..pos + chunk], all[pos + chunk..];
    Pieces(all, done, pos, chunk, now);
    CryptHead(s, counter, all[pos..], chunk);
    Associative(done, Mask(head, s(counter)), Crypt(s, Succ(counter), tail));
  }

  lemma Pieces(all: seq<byte>, done: seq<byte>, pos: nat, chunk: nat, now: seq<byte>)
    requires |done| == pos && pos + chunk <= |all| && now == done + all[pos..]
    ensures now[..pos] == done && now[pos..pos + chunk] == all[pos..pos + chunk]
    ensures now[pos + chunk..] == all[pos + chunk..]
    ensures all[pos..][..chunk] == all[pos..pos + chunk] && all[pos..][chunk..] == all[pos + chunk..]
  {
  }

  method NextPad(counter: u32, key: Key, nonce: Nonce, ghost s: Keystream) returns (pad: Pad)
    requires s == Stream(key, nonce)
    ensures pad == s(counter)
  {
    pad := ChaCha20Block(counter, key, nonce);
  }

  lemma CryptHead(s: Keystream, counter: u32, rest: seq<byte>, chunk: nat)
    requires chunk <= |rest| && (chunk == 64 || chunk == |rest| < 64)
    ensures Crypt(s, counter, rest) == Mask(rest[..chunk], s(counter)) + Crypt(s, Succ(counter), rest[chunk..])
  {
    if |rest| <= 64 {
      assert rest[..chunk] == rest && rest[chunk..] == [];
    }
  }

  // ---- what the filesystems rely on ----

  lemma MaskInvolution(data: seq<byte>, pad: seq<byte>)
    requires |data| <= |pad|
    ensures Mask(Mask(data, pad), pad) == data
  {
    var once := Mask(data, pad);
    forall i | 0 <= i < |data|
      ensures Mask(once, pad)[i] == data[i]
    {
      MaskAt(data, pad, i);
      MaskAt(once, pad, i);
      XorInverse(data[i], pad[i]);
    }
  }

  /** Applying a keystream twice gives the data back, for every length and counter. */
  lemma {:induction false} CryptInvolution(s: Keystream, counter: u32, data: seq<byte>)
    ensures Crypt(s, counter, Crypt(s, counter, data)) == data
    decreases |data|
  {
    if |data| <= 64 {
      MaskInvolution(data, s(counter));
    } else {
      MaskInvolution(data[..64], s(counter));
      CryptInvolution(s, Succ(counter), data[64..]);
      var once := Crypt(s, counter, data);
      assert once[..64] == Mask(data[..64], s(counter));
      assert once[64..] == Crypt(s, Succ(counter), data[64..]);
      assert data == data[..64] + data[64..];
    }
  }

  lemma {:induction false} AdvanceIsSum(counter: u32, m: nat)
    ensures Advance(counter, m) == (counter + m) % 0x1_0000_0000
    decreases m
  {
    if m > 0 {
      AdvanceIsSum(Succ(counter), m - 1);
    }
  }

  lemma {:induction false} CryptInBlock(s: Keystream, counter: u32, data: seq<byte>, q: nat, o: nat)
    requires o < 64 && 64 * q + o < |data|
    ensures Crypt(s, counter, data)[64 * q + o] == XorByte(data[64 * q + o], s(Advance(counter, q))[o])
    decreases q
  {
    if |data| <= 64 {
      MaskAt(data, s(counter), o);
    } else if q == 0 {
      MaskAt(data[..64], s(counter), o);
    } else {
      CryptInBlock(s, Succ(counter), data[64..], q - 1, o);
      assert data[64..][64 * (q - 1) + o] == data[64 * q + o];
      CryptHead(s, counter, data, 64);
    }
  }

  /** Byte by byte: byte `k` is masked with byte `k % 64` of the block `k / 64` after the first one. */
  lemma CryptAt(s: Keystream, counter: u32, data: seq<byte>, k: nat)
    requires k < |data|
    ensures Crypt(s, counter, data)[k] == XorByte(data[k], s((counter + k / 64) % 0x1_0000_0000)[k % 64])
  {
    AdvanceIsSum(counter, k / 64);
    CryptInBlock(s, counter, data, k / 64, k % 64);
  }

  /** For the keystream of a key and a nonce. */
  lemma CryptByte(counter: u32, key: Key, nonce: Nonce, data: seq<byte>, k: nat)
    requires k < |data|
    ensures Crypt(Stream(key, nonce), counter, data)[k] ==
        XorByte(data[k], KeyBlock((counter + k / 64) % 0x1_0000_0000, key, nonce)[k % 64])
  {
    CryptAt(Stream(key, nonce), counter, data, k);
  }

  /**
   A buffer can be processed in two calls split at any multiple of 64 bytes, advancing the counter by
   the blocks done, in 32 bits.
   */
  lemma CryptSplits(s: Keystream, counter: u32, a: seq<byte>, m: nat, b: seq<byte>)
    requires |a| == 64 * m
    ensures Crypt(s, counter, a + b) == Crypt(s, counter, a) + Crypt(s, (counter + m) % 0x1_0000_0000, b)
  {
    CryptSplitsAt(s, counter, a, m, b);
    AdvanceIsSum(counter, m);
  }

  lemma {:induction false} CryptSplitsAt(s: Keystream, counter: u32, a: seq<byte>, m: nat, b: seq<byte>)
    requires |a| == 64 * m
    ensures Crypt(s, counter, a + b) == Crypt(s, counter, a) + Crypt(s, Advance(counter, m), b)
    decreases m
  {
    if m == 0 {
      assert a + b == b;
    } else {
      CryptFront(s, counter, a, b);
      CryptSplitsAt(s, Succ(counter), a[64..], m - 1, b);
      Associative(Mask(a[..64], s(counter)), Crypt(s, Succ(counter), a[64..]), Crypt(s, Advance(counter, m), b));
    }
  }

  lemma CryptFront(s: Keystream, counter: u32, a: seq<byte>, b: seq<byte>)
    requires |a| >= 64
    ensures Crypt(s, counter, a + b) == Mask(a[..64], s(counter)) + Crypt(s, Succ(counter), a[64..] + b)
    ensures Crypt(s, counter, a) == Mask(a[..64], s(counter)) + Crypt(s, Succ(counter), a[64..])
  {
    TakeFromFront(a, b);
    CryptHead(s, counter, a + b, 64);
    CryptHead(s, counter, a, 64);
  }

  lemma TakeFromFront(a: seq<byte>, b: seq<byte>)
    requires |a| >= 64
    ensures (a + b)[..64] == a[..64] && (a + b)[64..] == a[64..] + b
  {
  }

  lemma Associative(a: seq<byte>, b: seq<byte>, c: seq<byte>)
    ensures a + (b + c) == a + b + c
  {
  }
}
