/**
 Allocation bitmaps as both filesystems keep them: from block 17 on, one bit per
 data block, 32768 bits to a block.
 */
module Bitmap {
  import opened Words

  /** The bitmap bit of relative data block `r`. */
  predicate Marked(blocks: seq<Block>, r: nat) {
    17 + r / 32768 < |blocks| && Bit(blocks[17 + r / 32768][r % 32768 / 8], r % 8)
  }

  /** The bits of a byte, least significant first. */
  lemma {:induction false} ByteBit(x: byte, t: nat)
    requires t < 8
    ensures t == 0 ==> (Bit(x, t) <==> x % 2 == 1)
    ensures t == 1 ==> (Bit(x, t) <==> x / 2 % 2 == 1)
    ensures t == 2 ==> (Bit(x, t) <==> x / 4 % 2 == 1)
    ensures t == 3 ==> (Bit(x, t) <==> x / 8 % 2 == 1)
    ensures t == 4 ==> (Bit(x, t) <==> x / 16 % 2 == 1)
    ensures t == 5 ==> (Bit(x, t) <==> x / 32 % 2 == 1)
    ensures t == 6 ==> (Bit(x, t) <==> x / 64 % 2 == 1)
    ensures t == 7 ==> (Bit(x, t) <==> x / 128 % 2 == 1)
    decreases t
  {
    if t > 0 {
      Halves(x);
      ByteBit(x / 2, t - 1);
    }
  }

  lemma Halves(x: byte)
    ensures x / 2 / 2 == x / 4 && x / 2 / 4 == x / 8 && x / 2 / 8 == x / 16 && x / 2 / 16 == x / 32
    ensures x / 2 / 32 == x / 64 && x / 2 / 64 == x / 128
  {
  }

  /** Whether bit `t` of byte `y` of block `b` is set. */
  predicate Set(blocks: seq<Block>, b: nat, y: nat, t: nat)
    requires b < |blocks| && y < 4096 && t < 8
  {
    var x := blocks[b][y];
    match t
    case 0 => x % 2 == 1
    case 1 => x / 2 % 2 == 1
    case 2 => x / 4 % 2 == 1
    case 3 => x / 8 % 2 == 1
    case 4 => x / 16 % 2 == 1
    case 5 => x / 32 % 2 == 1
    case 6 => x / 64 % 2 == 1
    case _ => x / 128 % 2 == 1
  }

  /** The bit of relative data block `r`: blocks from 17 on, 32768 bits to a block, eight to a byte. */
  lemma MarkedIsSet(blocks: seq<Block>, b: nat, y: nat, t: nat)
    requires 17 + b < |blocks| && y < 4096 && t < 8
    ensures Marked(blocks, 32768 * b + 8 * y + t) <==> Set(blocks, 17 + b, y, t)
  {
    MarkedAt(blocks, b, y, t);
    ByteBit(blocks[17 + b][y], t);
  }

  // ---- where a bit lives ----

  /** Bit `t` of byte `y` of bitmap block `b`. */
  function BitIndex(b: nat, y: nat, t: nat): nat {
    32768 * b + 8 * y + t
  }

  lemma Coordinates(b: nat, y: nat, t: nat)
    requires y < 4096 && t < 8
    ensures var r := BitIndex(b, y, t); r / 32768 == b && r % 32768 / 8 == y && r % 8 == t
  {
    Split32768(b, 8 * y + t);
    Split8(y, t);
    Split8(4096 * b + y, t);
  }

  lemma Split32768(b: nat, x: nat)
    requires x < 32768
    ensures (32768 * b + x) / 32768 == b && (32768 * b + x) % 32768 == x
  {
  }

  lemma Split8(y: nat, t: nat)
    requires t < 8
    ensures (8 * y + t) / 8 == y && (8 * y + t) % 8 == t
  {
  }

  lemma BitWithin(r: nat)
    ensures r % 32768 % 8 == r % 8
  {
    Split8(4096 * (r / 32768) + r % 32768 / 8, r % 32768 % 8);
  }

  lemma SameCoordinates(r: nat, q: nat)
    requires r / 32768 == q / 32768 && r % 32768 / 8 == q % 32768 / 8 && r % 8 == q % 8
    ensures r == q
  {
    BitWithin(r);
    BitWithin(q);
  }

  lemma MarkedAt(blocks: seq<Block>, b: nat, y: nat, t: nat)
    requires 17 + b < |blocks| && y < 4096 && t < 8
    ensures Marked(blocks, BitIndex(b, y, t)) == Bit(blocks[17 + b][y], t)
  {
    Coordinates(b, y, t);
  }

  /** The device with the byte that holds bit `r` replaced. */
  function WithByte(blocks: seq<Block>, r: nat, x: byte): seq<Block>
    requires 17 + r / 32768 < |blocks|
  {
    blocks[17 + r / 32768 := blocks[17 + r / 32768][r % 32768 / 8 := x]]
  }

  function ByteOfBit(blocks: seq<Block>, r: nat): byte
    requires 17 + r / 32768 < |blocks|
  {
    blocks[17 + r / 32768][r % 32768 / 8]
  }

  lemma SetMark(blocks: seq<Block>, r: nat, q: nat)
    requires 17 + r / 32768 < |blocks|
    ensures Marked(WithByte(blocks, r, ByteWithBit(ByteOfBit(blocks, r), r % 8)), q) == (q == r || Marked(blocks, q))
  {
    SetBitSetsOne(ByteOfBit(blocks, r), r % 8, q % 8);
    if q != r && q / 32768 == r / 32768 && q % 32768 / 8 == r % 32768 / 8 && q % 8 == r % 8 {
      SameCoordinates(q, r);
    }
  }

  lemma ClearMark(blocks: seq<Block>, r: nat, q: nat)
    requires 17 + r / 32768 < |blocks|
    ensures Marked(WithByte(blocks, r, ByteWithoutBit(ByteOfBit(blocks, r), r % 8)), q) == (q != r && Marked(blocks, q))
  {
    ClearBitClearsOne(ByteOfBit(blocks, r), r % 8, q % 8);
    if q != r && q / 32768 == r / 32768 && q % 32768 / 8 == r % 32768 / 8 && q % 8 == r % 8 {
      SameCoordinates(q, r);
    }
  }

  ghost predicate AllMarked(blocks: seq<Block>, n: nat) {
    forall r: nat {:trigger Marked(blocks, r)} :: r < n ==> Marked(blocks, r)
  }

  lemma FullByteMarks(blocks: seq<Block>, b: nat, y: nat)
    requires 17 + b < |blocks| && y < 4096 && blocks[17 + b][y] == 0xFF
    requires AllMarked(blocks, 32768 * b + 8 * y)
    ensures AllMarked(blocks, 32768 * b + 8 * (y + 1))
  {
    forall r: nat | r < 32768 * b + 8 * (y + 1)
      ensures Marked(blocks, r)
    {
      if r >= 32768 * b + 8 * y {
        var t := r - (32768 * b + 8 * y);
        MarkedAt(blocks, b, y, t);
        FullByte(0xFF, t);
      }
    }
  }

  function BitmapOf(blocks: seq<Block>, n: nat): seq<Block> {
    if 17 + n <= |blocks| then blocks[17..17 + n] else []
  }

  /** The clear bits among the first `n`. */
  ghost function CountClear(blocks: seq<Block>, n: nat): nat {
    if n == 0 then 0 else CountClear(blocks, n - 1) + if Marked(blocks, n - 1) then 0 else 1
  }

  /** One bit of the recount. */
  lemma CountStep(blocks: seq<Block>, b: nat, y: nat, t: nat, total: nat)
    requires 17 + b < |blocks| && y < 4096 && t < 8 && BitIndex(b, y, t) < total
    ensures CountClear(blocks, BitIndex(b, y, t) + 1) == CountClear(blocks, BitIndex(b, y, t))
        + if Bit(blocks[17 + b][y], t) then 0 else 1
  {
    MarkedAt(blocks, b, y, t);
  }

  method CountBlock(ghost blocks: seq<Block>, b: nat, buf: Block, total: nat, before: nat) returns (free: nat)
    requires 17 + b < |blocks| && buf == blocks[17 + b] && before == CountClear(blocks, Min(32768 * b, total))
    ensures free == CountClear(blocks, Min(32768 * (b + 1), total))
  {
    free := before;
    var y := 0;
    while y < 4096
      invariant 0 <= y <= 4096
      invariant free == CountClear(blocks, Min(BitIndex(b, y, 0), total))
    {
      free := CountByte(blocks, b, y, buf[y], total, free);
      y := y + 1;
    }
  }

  method CountByte(ghost blocks: seq<Block>, b: nat, y: nat, x: byte, total: nat, before: nat) returns (free: nat)
    requires 17 + b < |blocks| && y < 4096 && x == blocks[17 + b][y]
    requires before == CountClear(blocks, Min(BitIndex(b, y, 0), total))
    ensures free == CountClear(blocks, Min(BitIndex(b, y + 1, 0), total))
  {
    free := before;
    var t := 0;
    while t < 8
      invariant 0 <= t <= 8
      invariant free == CountClear(blocks, Min(BitIndex(b, y, t), total))
    {
      var rel := (b * 4096 + y) * 8 + t;
      if rel >= total {
        break;
      }
      CountStep(blocks, b, y, t, total);
      if !Bit(x, t) {
        free := free + 1;
      }
      t := t + 1;
    }
  }

  ghost function Below(used: set<nat>, n: nat): set<nat> {
    set b | b in used && b < n
  }

  /** If bit `r` is set exactly for block `start + r` in use, the clear bits are the blocks not in use. */
  lemma {:induction false} ClearAreFree(blocks: seq<Block>, start: nat, used: set<nat>, n: nat)
    requires forall b :: b in used ==> start <= b
    requires forall r: nat {:trigger Marked(blocks, r)} :: r < n ==> (Marked(blocks, r) <==> start + r in used)
    ensures CountClear(blocks, n) + |Below(used, start + n)| == n
  {
    if n == 0 {
      assert Below(used, start) == {};
    } else {
      ClearAreFree(blocks, start, used, n - 1);
      OneBelow(used, start + n - 1);
      assert Marked(blocks, n - 1) <==> start + n - 1 in used;
    }
  }

  lemma OneBelow(used: set<nat>, b: nat)
    ensures |Below(used, b + 1)| == |Below(used, b)| + if b in used then 1 else 0
  {
    if b in used {
      assert Below(used, b + 1) == Below(used, b) + {b};
    } else {
      assert Below(used, b + 1) == Below(used, b);
    }
  }
}
