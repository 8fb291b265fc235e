/** Byte sequences: blocks laid end to end, and overwriting a part. */
module Splice {
  import opened Words

  /** `s` with `piece` laid over it at `at`. */
  function Over(s: seq<byte>, at: nat, piece: seq<byte>): (r: seq<byte>)
    requires at + |piece| <= |s|
    ensures |r| == |s|
  {
    s[..at] + piece + s[at + |piece|..]
  }

  /** The piece can be read back, and every byte outside it is as before. */
  lemma OverReads(s: seq<byte>, at: nat, piece: seq<byte>)
    requires at + |piece| <= |s|
    ensures Over(s, at, piece)[at..at + |piece|] == piece
    ensures forall p :: 0 <= p < |s| && !(at <= p < at + |piece|) ==> Over(s, at, piece)[p] == s[p]
  {
  }

  lemma OverAt(s: seq<byte>, at: nat, piece: seq<byte>, p: nat)
    requires at + |piece| <= |s| && p < |s|
    ensures Over(s, at, piece)[p] == if at <= p < at + |piece| then piece[p - at] else s[p]
  {
  }

  /** Two adjacent pieces laid down one after the other are one piece. */
  lemma OverTwice(s: seq<byte>, at: nat, a: seq<byte>, b: seq<byte>)
    requires at + |a| + |b| <= |s|
    ensures Over(Over(s, at, a), at + |a|, b) == Over(s, at, a + b)
  {
    var once := Over(s, at, a);
    assert once[..at + |a|] == s[..at] + a;
    assert once[at + |a| + |b|..] == s[at + |a| + |b|..];
  }

  /** A piece inside the second part changes only that. */
  lemma OverSecond(a: seq<byte>, m: seq<byte>, at: nat, piece: seq<byte>)
    requires at + |piece| <= |m|
    ensures Over(a + m, |a| + at, piece) == a + Over(m, at, piece)
  {
    var s := a + m;
    assert s[..|a| + at] == a + m[..at];
    assert s[|a| + at + |piece|..] == m[at + |piece|..];
  }

  /** A piece inside the first part changes only that. */
  lemma OverFirst(a: seq<byte>, m: seq<byte>, at: nat, piece: seq<byte>)
    requires at + |piece| <= |a|
    ensures Over(a + m, at, piece) == Over(a, at, piece) + m
  {
    var s := a + m;
    assert s[..at] == a[..at];
    assert s[at + |piece|..] == a[at + |piece|..] + m;
  }

  lemma OverNothing(s: seq<byte>, at: nat)
    requires at <= |s|
    ensures Over(s, at, []) == s
  {
  }

  /** Blocks one after the other. */
  function Flatten(blocks: seq<Block>): (data: seq<byte>)
    ensures |data| == 4096 * |blocks|
  {
    if blocks == [] then [] else Flatten(blocks[..|blocks| - 1]) + blocks[|blocks| - 1]
  }

  /** The bytes before and in block `k`. */
  lemma {:induction false} FlattenParts(blocks: seq<Block>, k: nat)
    requires k < |blocks|
    ensures Flatten(blocks)[..4096 * k] == Flatten(blocks[..k])
    ensures Flatten(blocks)[4096 * k..4096 * k + 4096] == blocks[k]
  {
    var n := |blocks| - 1;
    var r, last := Flatten(blocks[..n]), blocks[n];
    if k == n {
      assert (r + last)[..4096 * k] == r;
      assert (r + last)[4096 * k..4096 * k + 4096] == last;
    } else {
      FlattenParts(blocks[..n], k);
      assert blocks[..n][..k] == blocks[..k];
      PartOfLonger(r, last, 0, 4096 * k);
      PartOfLonger(r, last, 4096 * k, 4096 * k + 4096);
    }
  }

  lemma PartOfLonger(a: seq<byte>, b: seq<byte>, i: nat, j: nat)
    requires i <= j <= |a|
    ensures (a + b)[i..j] == a[i..j]
  {
  }

  /** Overwriting inside block `k` overwrites that stretch of the whole. */
  /** Byte `p` of the blocks one after the other. */
  lemma FlattenAt(blocks: seq<Block>, p: nat)
    requires p < 4096 * |blocks|
    ensures Flatten(blocks)[p] == blocks[p / 4096][p % 4096]
  {
    FlattenParts(blocks, p / 4096);
    assert Flatten(blocks)[p] == Flatten(blocks)[4096 * (p / 4096)..4096 * (p / 4096) + 4096][p % 4096];
  }

  lemma {:induction false} FlattenOver(blocks: seq<Block>, k: nat, at: nat, piece: seq<byte>)
    requires k < |blocks| && at + |piece| <= 4096
    ensures Flatten(blocks[k := Over(blocks[k], at, piece)]) == Over(Flatten(blocks), 4096 * k + at, piece)
  {
    var n := |blocks| - 1;
    var after := blocks[k := Over(blocks[k], at, piece)];
    var r, last := Flatten(blocks[..n]), blocks[n];
    if k == n {
      assert after[..n] == blocks[..n];
      OverSecond(r, last, at, piece);
    } else {
      assert after[..n] == blocks[..n][k := Over(blocks[k], at, piece)];
      FlattenOver(blocks[..n], k, at, piece);
      OverFirst(r, last, 4096 * k + at, piece);
    }
  }

  /** Changing one byte of block `k` changes that byte of the whole. */
  lemma FlattenByte(blocks: seq<Block>, k: nat, at: nat, x: byte)
    requires k < |blocks| && at < 4096
    ensures Flatten(blocks[k := blocks[k][at := x]]) == Flatten(blocks)[4096 * k + at := x]
  {
    FlattenOver(blocks, k, at, [x]);
    OverByte(blocks[k], at, x);
    OverByte(Flatten(blocks), 4096 * k + at, x);
  }

  lemma OverByte(s: seq<byte>, at: nat, x: byte)
    requires at < |s|
    ensures Over(s, at, [x]) == s[at := x]
  {
  }

  lemma {:induction false} FlattenConcat(a: seq<Block>, b: seq<Block>)
    ensures Flatten(a + b) == Flatten(a) + Flatten(b)
    decreases |b|
  {
    if b == [] {
      assert a + b == a;
    } else {
      assert (a + b)[..|a + b| - 1] == a + b[..|b| - 1];
      FlattenConcat(a, b[..|b| - 1]);
    }
  }

  lemma FlattenPrefix(blocks: seq<Block>, k: nat)
    requires k <= |blocks|
    ensures Flatten(blocks[..k]) == Flatten(blocks)[..4096 * k]
  {
    if k < |blocks| {
      FlattenParts(blocks, k);
    } else {
      assert blocks[..k] == blocks;
    }
  }

  // ---- slices ----

  lemma SubSlice(f: seq<byte>, a: nat, b: nat, o: nat, n: nat)
    requires a <= b <= |f| && a + o + n <= b
    ensures f[a..b][o..o + n] == f[a + o..a + o + n]
  {
    var x, y := f[a..b][o..o + n], f[a + o..a + o + n];
    forall i | 0 <= i < n
      ensures x[i] == y[i]
    {
    }
    assert |x| == |y|;
  }

  lemma BlockSlice(bs: seq<Block>, k: nat, o: nat, n: nat)
    requires k < |bs| && o + n <= 4096
    ensures Flatten(bs)[4096 * k + o..4096 * k + o + n] == bs[k][o..o + n]
  {
    var f, a := Flatten(bs), 4096 * k;
    assert a + 4096 <= |f| && f[a..a + 4096] == bs[k] by { FlattenParts(bs, k); }
    SliceInside(f, a, bs[k], o, n);
  }

  lemma SliceInside(f: seq<byte>, a: nat, block: Block, o: nat, n: nat)
    requires a + 4096 <= |f| && f[a..a + 4096] == block && o + n <= 4096
    ensures f[a + o..a + o + n] == block[o..o + n]
  {
    SubSlice(f, a, a + 4096, o, n);
  }

  lemma Extend(s: seq<byte>, a: nat, m: nat, n: nat)
    requires a + m + n <= |s|
    ensures s[a..a + m] + s[a + m..a + m + n] == s[a..a + m + n]
  {
  }

  /** At most `n` bytes of `s` from `at` on. */
  function Slice(s: seq<byte>, at: nat, n: nat): seq<byte> {
    if at >= |s| then [] else if n > |s| - at then s[at..] else s[at..at + n]
  }

  lemma SliceOfPrefix(all: seq<byte>, size: nat, at: nat, n: nat)
    requires at + n <= size <= |all|
    ensures all[..size][at..at + n] == all[at..at + n]
    ensures at + n == size ==> all[..size][at..] == all[at..at + n]
  {
  }

  lemma OverMore(base: seq<byte>, offset: nat, buf: seq<byte>, done: nat, chunk: nat)
    requires offset + |buf| <= |base| && done + chunk <= |buf|
    ensures Over(Over(base, offset, buf[..done]), offset + done, buf[done..done + chunk]) ==
        Over(base, offset, buf[..done + chunk])
  {
    OverTwice(base, offset, buf[..done], buf[done..done + chunk]);
    assert buf[..done] + buf[done..done + chunk] == buf[..done + chunk];
  }

  lemma WholeBlock(old_: Block, buf: Block)
    ensures Over(old_, 0, buf) == buf
  {
  }

  /** What a slice is: from `at` on, as many as `n` if there are so many. */
  lemma SliceIs(s: seq<byte>, at: nat, n: nat)
    ensures |Slice(s, at, n)| == if at >= |s| then 0 else if at + n <= |s| then n else |s| - at
    ensures forall p :: 0 <= p < |Slice(s, at, n)| ==> Slice(s, at, n)[p] == s[at + p]
  {
  }

  /** `n` is the least number of blocks that hold `end` bytes. */
  predicate Needs(end: nat, n: nat) {
    end <= 4096 * n && (n > 0 ==> 4096 * (n - 1) < end)
  }
}
