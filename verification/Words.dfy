/**
 Bytes, 32-bit words and their bits, as numbers: what every on-disk structure of
 the two filesystems is made of.  A mask or shift of the C code is written as
 the division or remainder it stands for; exclusive or is defined bit by bit.
 */
module Words {

  type byte = x: int | 0 <= x < 0x100

  /** A C `uint32_t`. Storing a value in it proves that nothing wrapped. */
  type u32 = x: int | 0 <= x < 0x1_0000_0000

  /** One device block. */
  type Block = b: seq<byte> | |b| == 4096 witness seq(4096, _ => 0)

  function Max(a: nat, b: nat): nat { if a < b then b else a }
  function Min(a: nat, b: nat): nat { if a < b then a else b }
  function One(b: bool): nat { if b then 1 else 0 }

  /** What a `uint32_t` keeps of a sum. */
  function Wrap(x: nat): u32 {
    if x < 0x1_0000_0000 then x else x % 0x1_0000_0000
  }

  function Zeros(n: nat): (z: seq<byte>)
    ensures |z| == n
    ensures forall k :: 0 <= k < n ==> z[k] == 0
  {
    seq(n, _ => 0)
  }

  function ZeroBlock(): (b: Block)
    ensures forall k :: 0 <= k < 4096 ==> b[k] == 0
  {
    Zeros(4096)
  }

  // ---- bits ----

  /** Bit `i` of a number. */
  predicate Bit(x: nat, i: nat) {
    if i == 0 then x % 2 == 1 else Bit(x / 2, i - 1)
  }

  lemma {:induction false} NoBits(i: nat)
    ensures !Bit(0, i)
  {
    if i > 0 {
      NoBits(i - 1);
    }
  }

  function Pow2(n: nat): (p: nat)
    ensures p > 0
  {
    if n == 0 then 1 else 2 * Pow2(n - 1)
  }

  /** Exclusive or. */
  function Xor(a: nat, b: nat): nat {
    if a == 0 && b == 0 then 0 else (if a % 2 == b % 2 then 0 else 1) + 2 * Xor(a / 2, b / 2)
  }

  /** `x | (1 << i)`. */
  function SetBit(x: nat, i: nat): nat {
    if i == 0 then 2 * (x / 2) + 1 else x % 2 + 2 * SetBit(x / 2, i - 1)
  }

  /** `x & ~(1 << i)`. */
  function ClearBit(x: nat, i: nat): nat {
    if i == 0 then 2 * (x / 2) else x % 2 + 2 * ClearBit(x / 2, i - 1)
  }

  lemma {:induction false} XorBit(a: nat, b: nat, i: nat)
    ensures Bit(Xor(a, b), i) == (Bit(a, i) != Bit(b, i))
  {
    if a == 0 && b == 0 {
      BitOfSmall(0, 0, i);
    } else if i > 0 {
      XorBit(a / 2, b / 2, i - 1);
      assert Xor(a, b) / 2 == Xor(a / 2, b / 2);
    }
  }

  lemma {:induction false} XorBound(a: nat, b: nat, n: nat)
    requires a < Pow2(n) && b < Pow2(n)
    ensures Xor(a, b) < Pow2(n)
  {
    if n > 0 && (a != 0 || b != 0) {
      XorBound(a / 2, b / 2, n - 1);
    }
  }

  lemma {:induction false} XorInverse(a: nat, b: nat)
    ensures Xor(Xor(a, b), b) == a
  {
    if a != 0 || b != 0 {
      XorInverse(a / 2, b / 2);
      assert Xor(a, b) / 2 == Xor(a / 2, b / 2);
    }
  }

  lemma {:induction false} SetBitSetsOne(x: nat, i: nat, j: nat)
    ensures Bit(SetBit(x, i), j) == (i == j || Bit(x, j))
  {
    if i > 0 && j > 0 {
      SetBitSetsOne(x / 2, i - 1, j - 1);
    }
  }

  lemma {:induction false} ClearBitClearsOne(x: nat, i: nat, j: nat)
    ensures Bit(ClearBit(x, i), j) == (i != j && Bit(x, j))
  {
    if i > 0 && j > 0 {
      ClearBitClearsOne(x / 2, i - 1, j - 1);
    }
  }

  /** Numbers of `n` bits that agree on all of them are equal. */
  lemma {:induction false} BitsDetermine(a: nat, b: nat, n: nat)
    requires a < Pow2(n) && b < Pow2(n)
    requires forall i :: 0 <= i < n ==> Bit(a, i) == Bit(b, i)
    ensures a == b
  {
    if n > 0 {
      forall i | 0 <= i < n - 1
        ensures Bit(a / 2, i) == Bit(b / 2, i)
      {
        assert Bit(a, i + 1) == Bit(b, i + 1);
      }
      BitsDetermine(a / 2, b / 2, n - 1);
      assert Bit(a, 0) == Bit(b, 0);
    }
  }

  lemma {:induction false} BitOfSmall(x: nat, n: nat, i: nat)
    requires x < Pow2(n) && n <= i
    ensures !Bit(x, i)
  {
    if n > 0 {
      BitOfSmall(x / 2, n - 1, i - 1);
    } else if i > 0 {
      BitOfSmall(x / 2, 0, i - 1);
    }
  }

  lemma {:induction false} TopBit(x: nat, n: nat)
    requires Pow2(n) <= x < 2 * Pow2(n)
    ensures Bit(x, n)
  {
    if n > 0 {
      TopBit(x / 2, n - 1);
    }
  }

  lemma {:induction false} SetBitBound(x: nat, i: nat, n: nat)
    requires x < Pow2(n) && i < n
    ensures SetBit(x, i) < Pow2(n)
  {
    var h := x / 2;
    assert h < Pow2(n - 1);
    if i > 0 {
      SetBitBound(h, i - 1, n - 1);
    }
  }

  lemma {:induction false} ClearBitBound(x: nat, i: nat)
    ensures ClearBit(x, i) <= x
  {
    if i > 0 {
      ClearBitBound(x / 2, i - 1);
    }
  }

  lemma PowersOfTwo()
    ensures Pow2(8) == 0x100 && Pow2(31) == 0x8000_0000 && Pow2(32) == 0x1_0000_0000
  {
    assert Pow2(8) == 0x100;
    assert Pow2(16) == 0x1_0000;
    assert Pow2(24) == 0x100_0000;
    assert Pow2(32) == 0x1_0000_0000;
  }

  // ---- bits and exclusive or on bytes ----

  function XorByte(a: byte, b: byte): byte {
    PowersOfTwo();
    XorBound(a, b, 8);
    Xor(a, b)
  }

  function XorWord(a: u32, b: u32): u32 {
    PowersOfTwo();
    XorBound(a, b, 32);
    Xor(a, b)
  }

  function ByteWithBit(x: byte, i: nat): byte
    requires i < 8
  {
    PowersOfTwo();
    SetBitBound(x, i, 8);
    SetBit(x, i)
  }

  function ByteWithoutBit(x: byte, i: nat): byte {
    ClearBitBound(x, i);
    ClearBit(x, i)
  }

  lemma FullByte(x: byte, i: nat)
    requires x == 0xFF && i < 8
    ensures Bit(x, i)
  {
    PowersOfTwo();
    AllOnes(8, i);
    assert x == Pow2(8) - 1;
  }

  lemma {:induction false} AllOnes(n: nat, i: nat)
    requires i < n
    ensures Bit(Pow2(n) - 1, i)
  {
    assert (Pow2(n) - 1) / 2 == Pow2(n - 1) - 1;
    if i > 0 {
      AllOnes(n - 1, i - 1);
    }
  }

  // ---- little-endian numbers ----

  function Quad(a: byte, b: byte, c: byte, d: byte): u32 {
    a + 0x100 * (b as int) + 0x1_0000 * (c as int) + 0x100_0000 * (d as int)
  }

  /** Four bytes read as a number, least significant first (`ptr_load`, `load32_le`). */
  function Le32(p: seq<byte>): u32
    requires |p| == 4
  {
    Quad(p[0], p[1], p[2], p[3])
  }

  /** A number as four bytes (`ptr_store`, `store32_le`). */
  function PutLe32(n: u32): (p: seq<byte>)
    ensures |p| == 4
  {
    [n % 0x100, n / 0x100 % 0x100, n / 0x1_0000 % 0x100, n / 0x100_0000]
  }

  lemma Digits(n: u32)
    ensures n % 0x100 + 0x100 * (n / 0x100 % 0x100) + 0x1_0000 * (n / 0x1_0000 % 0x100) + 0x100_0000 * (n / 0x100_0000)
        == n
  {
  }

  /** Loading a stored number gives it back. */
  lemma Le32RoundTrip(n: u32)
    ensures Le32(PutLe32(n)) == n
  {
    Digits(n);
  }

  lemma QuadDigits(a: byte, b: byte, c: byte, d: byte, n: u32)
    requires n == Quad(a, b, c, d)
    ensures n % 0x100 == a && n / 0x100 % 0x100 == b && n / 0x1_0000 % 0x100 == c && n / 0x100_0000 == d
  {
    var x: nat := c + 0x100 * d;
    var y: nat := b + 0x100 * x;
    LastDigit(a, y, n);
    LastDigit(b, x, y);
    LastDigit(c, d, x);
    QuotientTwice(n);
  }

  lemma LastDigit(a: byte, x: nat, n: nat)
    requires n == a + 0x100 * x
    ensures n % 0x100 == a && n / 0x100 == x
  {
  }

  lemma QuotientTwice(n: nat)
    ensures n / 0x1_0000 == n / 0x100 / 0x100 && n / 0x100_0000 == n / 0x100 / 0x100 / 0x100
  {
  }

  /** Storing a loaded number gives its bytes back. */
  lemma PutLoaded(p: seq<byte>)
    requires |p| == 4
    ensures PutLe32(Le32(p)) == p
  {
    QuadDigits(p[0], p[1], p[2], p[3], Le32(p));
  }
}
