/**
 CRC32c (the Castagnoli polynomial of section 12.1 of RFC 3720) as the record
 checksums of both filesystems use it.  The reference definition feeds the
 message one bit at a time; the code folds a whole byte in and then shifts.
 */
module Crc32c {
  import opened Words

  /** The reflected polynomial. */
  const POLY: u32 := 0x82F6_3B78

  // ---- reference definition: one message bit at a time ----

  /** One shift of the register. */
  function Step(c: u32): u32 {
    if c % 2 == 1 then XorWord(c / 2, POLY) else c / 2
  }

  /** The register with its lowest bit flipped when the message bit is set. */
  function Inject(c: u32, d: bool): u32 {
    if !d then c else if c % 2 == 0 then c + 1 else c - 1
  }

  function BitIn(c: u32, d: bool): u32 {
    Step(Inject(c, d))
  }

  /** The first `n` bits of a byte, least significant first. */
  function BitsIn(c: u32, b: byte, n: nat): u32 {
    if n == 0 then c else BitIn(BitsIn(c, b, n - 1), Bit(b, n - 1))
  }

  /** The register after a whole buffer. */
  function Fold(c: u32, data: seq<byte>): u32 {
    if data == [] then c else BitsIn(Fold(c, data[..|data| - 1]), data[|data| - 1], 8)
  }

  function Not(c: u32): u32 {
    0xFFFF_FFFF - c
  }

  function Crc(initial: u32, data: seq<byte>): u32 {
    Not(Fold(Not(initial), data))
  }

  // ---- bits of the register after one step ----

  /** The polynomial's top bit is set, which is what makes a step reversible. */
  lemma PolyTop()
    ensures Bit(POLY, 31)
  {
    PowersOfTwo();
    TopBit(POLY, 31);
  }

  lemma StepBit(c: u32, i: nat)
    ensures Bit(Step(c), i) == (Bit(c, i + 1) != (c % 2 == 1 && Bit(POLY, i)))
  {
    XorBit(c / 2, POLY, i);
  }

  lemma InjectBit(c: u32, d: bool, i: nat)
    ensures Bit(Inject(c, d), i) == (Bit(c, i) != (d && i == 0))
  {
    assert Inject(c, d) / 2 == c / 2;
  }

  lemma NoBitPast(c: u32, i: nat)
    requires 32 <= i
    ensures !Bit(c, i)
  {
    PowersOfTwo();
    BitOfSmall(c, 32, i);
  }

  // ---- the code: a byte at a time ----

  /** `r` is the bit-serial register `c` with the bits of `b` from `k` on still folded in. */
  ghost predicate Ahead(r: u32, c: u32, b: byte, k: nat) {
    forall i {:trigger Bit(r, i)} :: 0 <= i < 32 ==> Bit(r, i) == (Bit(c, i) != (i + k < 8 && Bit(b, i + k)))
  }

  lemma AheadBit(r: u32, c: u32, b: byte, k: nat, i: nat)
    requires k < 8 && i < 32 && Ahead(r, c, b, k)
    ensures Bit(Step(r), i) == (Bit(BitIn(c, Bit(b, k)), i) != (i + 1 + k < 8 && Bit(b, i + 1 + k)))
  {
    var d := Bit(b, k);
    var x := Inject(c, d);
    assert Bit(r, 0) == (Bit(c, 0) != d);
    assert (r % 2 == 1) == (x % 2 == 1);
    StepBit(r, i);
    StepBit(x, i);
    InjectBit(c, d, i + 1);
    if i == 31 {
      NoBitPast(r, 32);
      NoBitPast(c, 32);
    } else {
      assert Bit(r, i + 1) == (Bit(c, i + 1) != (i + 1 + k < 8 && Bit(b, i + 1 + k)));
    }
  }

  lemma AheadStep(r: u32, c: u32, b: byte, k: nat)
    requires k < 8 && Ahead(r, c, b, k)
    ensures Ahead(Step(r), BitIn(c, Bit(b, k)), b, k + 1)
  {
    var r', c' := Step(r), BitIn(c, Bit(b, k));
    forall i | 0 <= i < 32
      ensures Bit(r', i) == (Bit(c', i) != (i + (k + 1) < 8 && Bit(b, i + (k + 1))))
    {
      AheadBit(r, c, b, k, i);
    }
  }

  method Crc32cByte(crc: u32, b: byte) returns (r: u32)
    ensures r == BitsIn(crc, b, 8)
  {
    r := XorWord(crc, b);
    forall i | 0 <= i < 32
      ensures Bit(r, i) == (Bit(crc, i) != (i < 8 && Bit(b, i)))
    {
      XorBit(crc, b, i);
      if 8 <= i {
        PowersOfTwo();
        BitOfSmall(b, 8, i);
      }
    }
    for k := 0 to 8
      invariant Ahead(r, BitsIn(crc, b, k), b, k)
    {
      AheadStep(r, BitsIn(crc, b, k), b, k);
      if r % 2 == 1 {
        r := XorWord(r / 2, POLY);
      } else {
        r := r / 2;
      }
    }
    PowersOfTwo();
    BitsDetermine(r, BitsIn(crc, b, 8), 32);
  }

  method OwCrc32c(initial: u32, data: seq<byte>) returns (r: u32)
    ensures r == Crc(initial, data)
  {
    var crc := Not(initial);
    for i := 0 to |data|
      invariant crc == Fold(Not(initial), data[..i])
    {
      assert data[..i + 1][..i] == data[..i];
      crc := Crc32cByte(crc, data[i]);
    }
    assert data[..|data|] == data;
    r := Not(crc);
  }

  // ---- chaining ----

  lemma {:induction false} FoldConcat(c: u32, a: seq<byte>, b: seq<byte>)
    ensures Fold(c, a + b) == Fold(Fold(c, a), b)
    decreases |b|
  {
    if b == [] {
      assert a + b == a;
    } else {
      var b' := b[..|b| - 1];
      assert (a + b)[..|a + b| - 1] == a + b';
      FoldConcat(c, a, b');
    }
  }

  /** Feeding one CRC in as the next initial value gives the CRC of the concatenation. */
  lemma CrcChains(initial: u32, a: seq<byte>, b: seq<byte>)
    ensures Crc(Crc(initial, a), b) == Crc(initial, a + b)
  {
    FoldConcat(Not(initial), a, b);
  }

  // ---- two registers side by side ----

  /** The registers differ in some bit at or above `m`. */
  ghost predicate Apart(a: u32, b: u32, m: nat) {
    exists t :: m <= t < 32 && Bit(a, t) != Bit(b, t)
  }

  /** A difference moves down by at most one place per bit, or jumps back to the top. */
  lemma ApartMovesDown(a: u32, b: u32, d: bool, e: bool, m: nat)
    requires m > 0 && Apart(a, b, m)
    ensures Apart(BitIn(a, d), BitIn(b, e), m - 1)
  {
    var t :| m <= t < 32 && Bit(a, t) != Bit(b, t);
    var x, y := Inject(a, d), Inject(b, e);
    InjectBit(a, d, t);
    InjectBit(b, e, t);
    var u := if x % 2 == y % 2 then t - 1 else 31;
    StepBit(x, u);
    StepBit(y, u);
    if u == 31 {
      PolyTop();
      NoBitPast(x, 32);
      NoBitPast(y, 32);
    }
    assert Bit(BitIn(a, d), u) != Bit(BitIn(b, e), u);
  }

  /** Equal registers fed different bits differ at the top; different registers fed equal bits stay different. */
  lemma ApartStarts(a: u32, b: u32, d: bool, e: bool)
    requires a == b && d != e
    ensures Apart(BitIn(a, d), BitIn(b, e), 31)
  {
    var x, y := Inject(a, d), Inject(b, e);
    StepBit(x, 31);
    StepBit(y, 31);
    PolyTop();
    NoBitPast(x, 32);
    NoBitPast(y, 32);
    assert Bit(BitIn(a, d), 31) != Bit(BitIn(b, e), 31);
  }

  lemma StepInjective(a: u32, b: u32)
    requires Step(a) == Step(b)
    ensures a == b
  {
    PolyTop();
    StepBit(a, 31);
    StepBit(b, 31);
    NoBitPast(a, 32);
    NoBitPast(b, 32);
    if a % 2 == 1 {
      XorInverse(a / 2, POLY);
      XorInverse(b / 2, POLY);
    }
  }

  lemma {:induction false} BitsInInjective(a: u32, b: u32, x: byte, n: nat)
    requires BitsIn(a, x, n) == BitsIn(b, x, n)
    ensures a == b
  {
    if n > 0 {
      var a', b' := BitsIn(a, x, n - 1), BitsIn(b, x, n - 1);
      StepInjective(Inject(a', Bit(x, n - 1)), Inject(b', Bit(x, n - 1)));
      BitsInInjective(a, b, x, n - 1);
    }
  }

  /** Different registers never meet again while both read the same bytes. */
  lemma {:induction false} FoldInjective(a: u32, b: u32, data: seq<byte>)
    requires Fold(a, data) == Fold(b, data)
    ensures a == b
    decreases |data|
  {
    if data != [] {
      var rest := data[..|data| - 1];
      BitsInInjective(Fold(a, rest), Fold(b, rest), data[|data| - 1], 8);
      FoldInjective(a, b, rest);
    }
  }

  // ---- burst errors ----

  /** After `used` message bits the registers are equal, or their difference is still within reach of the top. */
  ghost predicate Diverged(a: u32, b: u32, used: nat) {
    a == b || (used <= 32 && Apart(a, b, 32 - used))
  }

  lemma {:induction false} ByteDiverges(a: u32, b: u32, x: byte, y: byte, n: nat, used: nat)
    requires n <= 8 && used + 8 <= 32
    requires Diverged(a, b, used)
    ensures Diverged(BitsIn(a, x, n), BitsIn(b, y, n), used + n)
    ensures a != b || (exists k :: 0 <= k < n && Bit(x, k) != Bit(y, k)) ==> BitsIn(a, x, n) != BitsIn(b, y, n)
  {
    if n > 0 {
      var a', b' := BitsIn(a, x, n - 1), BitsIn(b, y, n - 1);
      var d, e := Bit(x, n - 1), Bit(y, n - 1);
      ByteDiverges(a, b, x, y, n - 1, used);
      if a' != b' {
        ApartMovesDown(a', b', d, e, 32 - (used + n - 1));
        ApartWeakens(BitsIn(a, x, n), BitsIn(b, y, n), 32 - (used + n));
      } else if d != e {
        ApartStarts(a', b', d, e);
        var t :| 31 <= t < 32 && Bit(BitIn(a', d), t) != Bit(BitIn(b', e), t);
        assert Apart(BitsIn(a, x, n), BitsIn(b, y, n), 32 - (used + n));
        ApartWeakens(BitsIn(a, x, n), BitsIn(b, y, n), 32 - (used + n));
      }
    }
  }

  lemma ApartWeakens(a: u32, b: u32, m: nat)
    requires Apart(a, b, m)
    ensures a != b
  {
  }

  lemma {:induction false} BurstDiverges(c: u32, p: seq<byte>, q: seq<byte>)
    requires |p| == |q| <= 4
    ensures Diverged(Fold(c, p), Fold(c, q), 8 * |p|)
    ensures p != q ==> Fold(c, p) != Fold(c, q)
  {
    if p != [] {
      var n := |p| - 1;
      BurstDiverges(c, p[..n], q[..n]);
      ByteDiverges(Fold(c, p[..n]), Fold(c, q[..n]), p[n], q[n], 8, 8 * n);
      if p[n] != q[n] {
        DifferentBytes(p[n], q[n]);
      } else {
        assert p == p[..n] + [p[n]] && q == q[..n] + [q[n]];
      }
    }
  }

  lemma DifferentBytes(x: byte, y: byte)
    requires x != y
    ensures exists k :: 0 <= k < 8 && Bit(x, k) != Bit(y, k)
  {
    if forall k :: 0 <= k < 8 ==> Bit(x, k) == Bit(y, k) {
      PowersOfTwo();
      BitsDetermine(x, y, 8);
    }
  }

  lemma FoldBurst(c: u32, head: seq<byte>, p: seq<byte>, q: seq<byte>, tail: seq<byte>)
    requires |p| == |q| <= 4 && p != q
    ensures Fold(c, head + p + tail) != Fold(c, head + q + tail)
  {
    FoldConcat(c, head + p, tail);
    FoldConcat(c, head + q, tail);
    FoldConcat(c, head, p);
    FoldConcat(c, head, q);
    BurstDiverges(Fold(c, head), p, q);
    if Fold(c, head + p + tail) == Fold(c, head + q + tail) {
      FoldInjective(Fold(c, head + p), Fold(c, head + q), tail);
    }
  }

  /** A change confined to four consecutive bytes (a burst of up to 32 bits) always changes the CRC. */
  lemma BurstDetected(initial: u32, head: seq<byte>, p: seq<byte>, q: seq<byte>, tail: seq<byte>)
    requires |p| == |q| <= 4 && p != q
    ensures Crc(initial, head + p + tail) != Crc(initial, head + q + tail)
  {
    FoldBurst(Not(initial), head, p, q, tail);
  }

  // ---- the checksum of a record that holds its own checksum ----

  /** The record with its four checksum bytes read as zero. */
  function Blank(data: seq<byte>, off: nat): (r: seq<byte>)
    ensures |r| == |data|
    ensures forall i :: 0 <= i < |r| ==> r[i] == if off <= i < off + 4 then 0 else data[i]
  {
    seq(|data|, i requires 0 <= i < |data| => if off <= i < off + 4 then 0 else data[i])
  }

  function StructCrc(data: seq<byte>, off: nat): u32 {
    Not(Fold(0xFFFF_FFFF, Blank(data, off)))
  }

  /** Of a record, it is the CRC of the record with zeros in the four bytes of its checksum. */
  lemma StructCrcIs(data: seq<byte>, off: nat, d: seq<byte>)
    requires off + 4 <= |data| && d == data[..off] + [0, 0, 0, 0] + data[off + 4..]
    ensures StructCrc(data, off) == Crc(0, d)
  {
    assert d == Blank(data, off);
  }

  method OwCrc32cStruct(data: seq<byte>, off: nat) returns (r: u32)
    ensures r == StructCrc(data, off)
  {
    var crc: u32 := 0xFFFF_FFFF;
    ghost var all := Blank(data, off);
    for i := 0 to |data|
      invariant crc == Fold(0xFFFF_FFFF, all[..i])
    {
      var b := data[i];
      if i >= off && i < off + 4 {
        b := 0;
      }
      assert all[..i + 1][..i] == all[..i];
      crc := Crc32cByte(crc, b);
    }
    assert all[..|data|] == all;
    r := Not(crc);
  }

  /** The record holds the checksum that its other bytes call for. */
  predicate Verifies(data: seq<byte>, off: nat)
    requires off + 4 <= |data|
  {
    Le32(data[off..off + 4]) == StructCrc(data, off)
  }

  /** The stored checksum plays no part in the computed one, so storing the computed one makes any record verify. */
  lemma StampVerifies(data: seq<byte>, off: nat, stamped: seq<byte>)
    requires off + 4 <= |data|
    requires stamped == data[..off] + PutLe32(StructCrc(data, off)) + data[off + 4..]
    ensures StructCrc(stamped, off) == StructCrc(data, off)
    ensures Verifies(stamped, off)
  {
    assert stamped[off..off + 4] == PutLe32(StructCrc(data, off));
    assert Blank(stamped, off) == Blank(data, off);
    Le32RoundTrip(StructCrc(data, off));
  }

  lemma BlankOutside(head: seq<byte>, p: seq<byte>, tail: seq<byte>, off: nat)
    requires |head| + |p| <= off || off + 4 <= |head|
    ensures Blank(head + p + tail, off) == Blank(head, off) + p + Blank(Zeros(|head| + |p|) + tail, off)[|head| + |p|..]
  {
  }

  lemma FieldOutside(head: seq<byte>, p: seq<byte>, q: seq<byte>, tail: seq<byte>, off: nat)
    requires |p| == |q| && off + 4 <= |head| + |p| + |tail|
    requires |head| + |p| <= off || off + 4 <= |head|
    ensures (head + p + tail)[off..off + 4] == (head + q + tail)[off..off + 4]
  {
  }

  /** In a record that verifies, a change to at most four consecutive bytes outside the field is noticed. */
  lemma CorruptionNoticed(head: seq<byte>, p: seq<byte>, q: seq<byte>, tail: seq<byte>, off: nat)
    requires |p| == |q| <= 4 && p != q
    requires off + 4 <= |head| + |p| + |tail|
    requires |head| + |p| <= off || off + 4 <= |head|
    requires Verifies(head + p + tail, off)
    ensures !Verifies(head + q + tail, off)
  {
    BlankOutside(head, p, tail, off);
    BlankOutside(head, q, tail, off);
    FieldOutside(head, p, q, tail, off);
    FoldBurst(0xFFFF_FFFF, Blank(head, off), p, q, Blank(Zeros(|head| + |p|) + tail, off)[|head| + |p|..]);
  }
}
