/**
 Where the two formatters put the bitmap and the data region: 32-bit arithmetic
 that may wrap, and the totals for which the result is sound.
 */
module Layout {
  import opened Words

  // ---- OWFS: blocks 0..15 boot loader, 16 superblock, bitmap, 256 inode blocks, data ----

  /** `(total_blocks - fixed_overhead + 32768) / 32769`, in 32 bits. */
  function OwfsBitmapBlocks(total: u32): u32
    requires total >= 273
  {
    Wrap(total - 273 + 32768) / 32769
  }

  function OwfsDataStart(total: u32): nat
    requires total >= 273
  {
    17 + OwfsBitmapBlocks(total) + 256
  }

  /** The tests that formatting makes: a minimal size, a nonempty data region, a bitmap of at least one block. */
  predicate OwfsAccepts(total: u32) {
    total >= 275 && total > OwfsDataStart(total) && OwfsBitmapBlocks(total) != 0
  }

  /** Formatting accepts exactly the totals from 275 on whose bitmap size does not wrap. */
  lemma OwfsAcceptsExactly(total: u32)
    ensures OwfsAccepts(total) <==> 275 <= total < 0x1_0000_0000 - 32495
    ensures total >= 0x1_0000_0000 - 32495 ==> OwfsBitmapBlocks(total) == 0
  {
  }

  /** One bit for each of `data` blocks. */
  predicate Covers(bitmapBlocks: nat, data: int) {
    0 < data <= 32768 * bitmapBlocks
  }

  /** The bitmap is the least one that covers the data region it leaves, and no bit index leaves 32 bits. */
  lemma OwfsLayoutLeast(total: u32, fewer: nat)
    requires OwfsAccepts(total)
    ensures var b := OwfsBitmapBlocks(total);
            && Covers(b, total - (273 + b))
            && 32768 * b < 0x1_0000_0000
            && (fewer < b ==> !Covers(fewer, total - (273 + fewer)))
  {
    OwfsAcceptsExactly(total);
    var b := OwfsBitmapBlocks(total);
    assert 32769 * b >= total - 273 > 32769 * (b - 1);
  }

  // ---- USFS: block 0 superblock, 16 entry blocks, bitmap, data ----

  /** The bitmap covers the data region it leaves, and no smaller one does. */
  ghost predicate LeastCover(b: nat, total: nat) {
    UsfsCovers(b, total) && forall fewer: nat :: fewer < b ==> !UsfsCovers(fewer, total)
  }

  /** `b` bitmap blocks cover the data region they leave of `total` blocks. */
  predicate UsfsCovers(b: nat, total: nat) {
    Covers(b, total - (17 + b))
  }

  /** A total whose last bitmap block is needed even though it takes up a block itself. */
  predicate Snug(total: nat) {
    total <= 32786 || (total - 19) % 32768 + 2 > (total - 19) / 32768
  }

  /** What the loop settles on is the least bitmap exactly for the snug totals. */
  lemma LeastIffSnug(total: nat, b: nat)
    requires 19 <= total && b == if total > 32786 then (total - 18 + 32767) / 32768 else 1
    ensures LeastCover(b, total) <==> Snug(total)
  {
    var q, r := (total - 19) / 32768, (total - 19) % 32768;
    assert total - 19 == 32768 * q + r;
    if total > 32786 {
      assert b == q + 1;
      assert UsfsCovers(q, total) <==> r + 2 <= q;
      forall fewer: nat | fewer < b && r + 2 > q
        ensures !UsfsCovers(fewer, total)
      {
        assert 32769 * fewer <= 32769 * q;
      }
    } else {
      assert q == 0;
    }
  }

  /** The loop that grows the bitmap until it covers the data region it leaves. */
  method UsfsLayoutBitmapBlocks(total: u32) returns (b: u32, dataStart: u32, ghost increases: nat)
    ensures total <= 18 ==> b == 0
    ensures total >= 19 ==> 1 <= b && dataStart == 17 + b < total
    ensures total >= 19 ==> (UsfsCovers(b, total) <==> total <= 0x1_0000_0000 - 32750)
    ensures increases <= 1
    ensures total >= 19 ==> b == if 32786 < total <= 0x1_0000_0000 - 32750 then (total - 18 + 32767) / 32768 else 1
    ensures 19 <= total <= 0x1_0000_0000 - 32750 ==> (LeastCover(b, total) <==> Snug(total))
  {
    b, dataStart, increases := 1, 0, 0;
    while true
      invariant 1 <= b && increases <= 1
      invariant increases == 0 ==> b == 1
      invariant increases == 1 ==> 32786 < total <= 0x1_0000_0000 - 32750 && b == (total - 18 + 32767) / 32768
      decreases 1 - increases
    {
      if total <= 17 + b {
        return 0, dataStart, increases;
      }
      var data := total - 17 - b;
      var needed := Wrap(data + 32768 - 1) / 32768;
      if needed > b {
        b := needed;
        increases := increases + 1;
      } else {
        dataStart := 17 + b;
        if total <= 0x1_0000_0000 - 32750 {
          LeastIffSnug(total, b);
        }
        return;
      }
    }
  }

  /** A total that is not snug: at 65555 blocks the loop settles on 3 bitmap blocks where 2 would do. */
  method UsfsLayoutNotLeast() returns (b: u32)
    ensures b == 3 && UsfsCovers(2, 65555) && !LeastCover(b, 65555) && !Snug(65555)
  {
    var dataStart;
    ghost var increases;
    b, dataStart, increases := UsfsLayoutBitmapBlocks(65555);
  }
}
