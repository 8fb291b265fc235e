/**
 Words as bit vectors.  Elsewhere the 32-bit operations of the code are written out
 on integers: wrapping sums, exclusive or bit by bit, rotations as quotient and
 remainder.  Here they are shown to be `+`, `^` and rotation of machine words.
 */
module WordBits {
  import opened Words
  import opened Veils

  /** A machine word, with the operations on it named so that proofs need not look inside. */
  datatype Word = Word(bits: bv32)

  // ---- the operations, named ----

  function And(x: bv32, y: bv32): bv32 { x & y }

  function Exor(x: bv32, y: bv32): bv32 { x ^ y }

  function Add(x: bv32, y: bv32): bv32 { x + y }

  function Right1(x: bv32): bv32 { x >> 1 }

  function Right4(x: bv32): bv32 { x >> 4 }

  function Right8(x: bv32): bv32 { x >> 8 }

  function Right16(x: bv32): bv32 { x >> 16 }

  function Left7(x: bv32): bv32 { x.RotateLeft(7) }

  function Left8(x: bv32): bv32 { x.RotateLeft(8) }

  function Left12(x: bv32): bv32 { x.RotateLeft(12) }

  function Left16(x: bv32): bv32 { x.RotateLeft(16) }

  predicate Odd(x: bv32) { x & 1 == 1 }

  function LastByte(x: bv32): bv8 { (x & 0xFF) as bv8 }

  // ---- bit by bit ----

  /** The last bit. */
  ghost function Low(x: Word): (b: nat)
    ensures b <= 1
  {
    assert IsLow(One(Odd(x.bits)), x);
    var b: nat :| IsLow(b, x) && b <= 1;
    b
  }

  ghost predicate IsLow(b: nat, x: Word) {
    forall k {:trigger Lifted(Halving, k)} :: Lifted(Halving, k) ==> b == One(Odd(x.bits))
  }

  /** The other bits. */
  ghost function Half(x: Word): Word {
    assert IsHalf(Word(Right1(x.bits)), x);
    var h: Word :| IsHalf(h, x);
    h
  }

  ghost predicate IsHalf(h: Word, x: Word) {
    forall k {:trigger Lifted(Halving, k)} :: Lifted(Halving, k) ==> h.bits == Right1(x.bits)
  }

  lemma OpenLow(x: Word)
    ensures Low(x) == One(Odd(x.bits))
  {
    assert Lifted(Halving, 0);
  }

  lemma OpenHalf(x: Word)
    ensures Half(x).bits == Right1(x.bits)
  {
    assert Lifted(Halving, 0);
  }

  /** The number that the last `n` bits stand for. */
  ghost function Bits(x: Word, n: nat): nat
    decreases n
  {
    if n == 0 then 0 else Low(x) + 2 * Bits(Half(x), n - 1)
  }

  lemma {:induction false} BitsBound(x: Word, n: nat)
    ensures Bits(x, n) < Pow2(n)
    decreases n
  {
    if n > 0 {
      BitsBound(Half(x), n - 1);
    }
  }

  /** The number a word stands for. */
  ghost function Value(x: bv32): u32 {
    BitsBound(Word(x), 32);
    PowersOfTwo();
    assert IsValue(Bits(Word(x), 32), x);
    var n: u32 :| IsValue(n, x);
    n
  }

  /** 32, kept from being counted down to 0. */
  lemma Width() returns (n: nat)
    ensures n == 32
  {
    n := 32;
  }

  ghost predicate IsValue(v: nat, x: bv32) {
    forall n {:trigger Lifted(Halving, n)} :: Lifted(Halving, n) && n == 32 ==> v == Bits(Word(x), n)
  }

  lemma OpenValue(x: bv32, w: Word, n: nat)
    requires w == Word(x) && n == 32
    ensures Value(x) == Bits(w, n)
  {
    assert Lifted(Halving, n);
  }

  // ---- parts of a word ----

  /** The word without its last `j` bits. */
  ghost function Drop(x: Word, j: nat): Word
    decreases j
  {
    if j == 0 then x else Drop(Half(x), j - 1)
  }

  lemma {:induction false} DropMore(x: Word, j: nat, k: nat)
    ensures Drop(x, j + k) == Drop(Drop(x, j), k)
    decreases j
  {
    if j > 0 {
      DropMore(Half(x), j - 1, k);
    }
  }

  lemma Regroup(l: nat, p: nat, b: nat, d: nat)
    ensures l + 2 * (b + p * d) == (l + 2 * b) + 2 * p * d
  {
  }

  /** The number in two parts. */
  lemma {:induction false} BitsSplit(x: Word, j: nat, n: nat)
    ensures Bits(x, j + n) == Bits(x, j) + Pow2(j) * Bits(Drop(x, j), n)
    decreases j
  {
    if j > 0 {
      BitsSplit(Half(x), j - 1, n);
      Regroup(Low(x), Pow2(j - 1), Bits(Half(x), j - 1), Bits(Drop(x, j), n));
    }
  }

  /** Four bits at once. */
  lemma DropFour(x: Word)
    ensures Drop(x, 3) == Half(Half(Half(x))) && Drop(x, 4) == Half(Half(Half(Half(x))))
  {
    assert Drop(x, 2) == Half(Half(x)) && Drop(Half(Half(x)), 2) == Half(Half(Half(Half(x))));
    DropMore(x, 2, 1);
    DropMore(x, 2, 2);
  }

  lemma ShiftsAdd(x: bv32)
    ensures Right4(x) == Right1(Right1(Right1(Right1(x)))) && Right8(x) == Right4(Right4(x))
    ensures Right16(x) == Right8(Right8(x))
  {
  }

  lemma DropsFour(x: Word)
    ensures Drop(x, 1).bits == Right1(x.bits) && Drop(x, 3).bits == Right1(Right1(Right1(x.bits)))
    ensures Drop(x, 4).bits == Right4(x.bits)
  {
    DropFour(x);
    OpenHalf(x);
    OpenHalf(Half(x));
    OpenHalf(Half(Half(x)));
    OpenHalf(Half(Half(Half(x))));
    ShiftsAdd(x.bits);
  }

  lemma DropsEight(x: Word)
    ensures Drop(x, 8).bits == Right8(x.bits)
  {
    DropMore(x, 4, 4);
    DropsFour(x);
    DropsFour(Drop(x, 4));
    ShiftsAdd(x.bits);
  }

  lemma DropsSixteen(x: Word)
    ensures Drop(x, 16).bits == Right16(x.bits)
  {
    DropMore(x, 8, 8);
    DropsEight(x);
    DropsEight(Drop(x, 8));
    ShiftsAdd(x.bits);
  }

  /** Seven, twelve, twenty and more bits. */
  lemma DropsSeven(x: Word)
    ensures Drop(x, 7).bits == Right1(Right1(Right1(Right4(x.bits))))
  {
    DropMore(x, 4, 3);
    DropsFour(x);
    DropsFour(Drop(x, 4));
  }

  lemma DropsTwelve(x: Word)
    ensures Drop(x, 12).bits == Right4(Right8(x.bits))
  {
    DropMore(x, 8, 4);
    DropsEight(x);
    DropsFour(Drop(x, 8));
  }

  lemma DropsTwenty(x: Word)
    ensures Drop(x, 20).bits == Right4(Right16(x.bits))
  {
    DropMore(x, 16, 4);
    DropsSixteen(x);
    DropsFour(Drop(x, 16));
  }

  lemma DropsTwentyFour(x: Word)
    ensures Drop(x, 24).bits == Right8(Right16(x.bits))
  {
    DropMore(x, 16, 8);
    DropsSixteen(x);
    DropsEight(Drop(x, 16));
  }

  lemma DropsTwentyFive(x: Word)
    ensures Drop(x, 25).bits == Right1(Right8(Right16(x.bits)))
  {
    DropMore(x, 24, 1);
    DropsTwentyFour(x);
    DropsFour(Drop(x, 24));
  }

  // ---- words that agree on their last bits ----

  /** `x` and `y` agree where `m` has ones. */
  ghost predicate Agree(x: Word, y: Word, m: Word) {
    var r: bool :| forall k {:trigger Lifted(Halving, k)} :: Lifted(Halving, k) ==>
      (r <==> And(x.bits, m.bits) == And(y.bits, m.bits));
    r
  }

  lemma OpenAgree(x: Word, y: Word, m: Word)
    ensures Agree(x, y, m) <==> And(x.bits, m.bits) == And(y.bits, m.bits)
  {
    assert Lifted(Halving, 0);
  }

  /** Whether the last `n` bits are ones. */
  ghost predicate Ones(m: Word, n: nat)
    decreases n
  {
    n == 0 || (Low(m) == 1 && Ones(Half(m), n - 1))
  }

  lemma {:induction false} FewerOnes(m: Word, n: nat, k: nat)
    requires Ones(m, n) && k <= n
    ensures Ones(m, k)
    decreases n
  {
    if k > 0 {
      FewerOnes(Half(m), n - 1, k - 1);
    }
  }

  lemma {:induction false} MoreOnes(m: Word, j: nat, k: nat)
    requires Ones(Drop(m, j), k) && Ones(m, j)
    ensures Ones(m, j + k)
    decreases j
  {
    if j > 0 {
      MoreOnes(Half(m), j - 1, k);
    }
  }

  lemma MaskedParts(x: bv32, y: bv32, m: bv32)
    requires And(x, m) == And(y, m)
    ensures And(Right1(x), Right1(m)) == And(Right1(y), Right1(m))
    ensures Odd(m) ==> Odd(x) == Odd(y)
  {
  }

  lemma HalfAgree(x: Word, y: Word, m: Word)
    requires Agree(x, y, m)
    ensures Agree(Half(x), Half(y), Half(m))
    ensures Low(m) == 1 ==> Low(x) == Low(y)
  {
    OpenAgree(x, y, m);
    OpenAgree(Half(x), Half(y), Half(m));
    OpenHalf(x);
    OpenHalf(y);
    OpenHalf(m);
    OpenLow(x);
    OpenLow(y);
    OpenLow(m);
    MaskedParts(x.bits, y.bits, m.bits);
  }

  /** Words that agree on their last bits stand for the same number there. */
  lemma {:induction false} SameBits(x: Word, y: Word, m: Word, n: nat)
    requires Agree(x, y, m) && Ones(m, n)
    ensures Bits(x, n) == Bits(y, n)
    decreases n
  {
    if n > 0 {
      HalfAgree(x, y, m);
      SameBits(Half(x), Half(y), Half(m), n - 1);
    }
  }

  predicate Fours(x: bv32) { x & 0xF == 0xF }

  predicate Eights(x: bv32) { x & 0xFF == 0xFF }

  predicate Sixteens(x: bv32) { x & 0xFFFF == 0xFFFF }

  lemma OnesApart(m: bv32)
    ensures Fours(m) ==> Odd(m) && Odd(Right1(m)) && Odd(Right1(Right1(m))) && Odd(Right1(Right1(Right1(m))))
    ensures Eights(m) ==> Fours(m) && Fours(Right4(m))
    ensures Sixteens(m) ==> Eights(m) && Eights(Right8(m))
  {
  }

  lemma FourOnes(m: Word)
    requires Fours(m.bits)
    ensures Ones(m, 1) && Ones(m, 3) && Ones(m, 4)
  {
    OnesApart(m.bits);
    OpenLow(m);
    OpenHalf(m);
    OpenLow(Half(m));
    OpenHalf(Half(m));
    OpenLow(Half(Half(m)));
    OpenHalf(Half(Half(m)));
    OpenLow(Half(Half(Half(m))));
    assert Ones(Half(Half(m)), 2) && Ones(Half(Half(m)), 1);
    assert Ones(Half(m), 3) && Ones(Half(m), 2);
  }

  lemma EightOnes(m: Word)
    requires Eights(m.bits)
    ensures Ones(m, 8) && Ones(m, 7)
  {
    OnesApart(m.bits);
    DropsFour(m);
    FourOnes(m);
    FourOnes(Drop(m, 4));
    MoreOnes(m, 4, 4);
    MoreOnes(m, 4, 3);
  }

  lemma SixteenOnes(m: Word)
    requires Sixteens(m.bits)
    ensures Ones(m, 16) && Ones(m, 12)
  {
    OnesApart(m.bits);
    DropsEight(m);
    EightOnes(m);
    EightOnes(Drop(m, 8));
    FewerOnes(Drop(m, 8), 8, 4);
    MoreOnes(m, 8, 8);
    MoreOnes(m, 8, 4);
  }

  lemma SevenOnes(m: Word)
    requires Fours(m.bits) && Odd(Right4(m.bits)) && Odd(Right1(Right4(m.bits))) && Odd(Right1(Right1(Right4(m.bits))))
    ensures Ones(m, 7)
  {
    DropsFour(m);
    FourOnes(m);
    ThreeOnes(Drop(m, 4));
    MoreOnes(m, 4, 3);
  }

  lemma ThreeOnes(m: Word)
    requires Odd(m.bits) && Odd(Right1(m.bits)) && Odd(Right1(Right1(m.bits)))
    ensures Ones(m, 3)
  {
    OpenLow(m);
    OpenHalf(m);
    OpenLow(Half(m));
    OpenHalf(Half(m));
    OpenLow(Half(Half(m)));
    assert Ones(Half(m), 2) && Ones(Half(Half(m)), 1);
  }

  lemma TwelveOnes(m: Word)
    requires Eights(m.bits) && Fours(Right8(m.bits))
    ensures Ones(m, 12)
  {
    DropsEight(m);
    EightOnes(m);
    FourOnes(Drop(m, 8));
    MoreOnes(m, 8, 4);
  }

  lemma TwentyOnes(m: Word)
    requires Sixteens(m.bits) && Fours(Right16(m.bits))
    ensures Ones(m, 20)
  {
    DropsSixteen(m);
    SixteenOnes(m);
    FourOnes(Drop(m, 16));
    MoreOnes(m, 16, 4);
  }

  lemma TwentyFourOnes(m: Word)
    requires Sixteens(m.bits) && Eights(Right16(m.bits))
    ensures Ones(m, 24)
  {
    DropsSixteen(m);
    SixteenOnes(m);
    EightOnes(Drop(m, 16));
    MoreOnes(m, 16, 8);
  }

  lemma TwentyFiveOnes(m: Word)
    requires Sixteens(m.bits) && Eights(Right16(m.bits)) && Odd(Right8(Right16(m.bits)))
    ensures Ones(m, 25)
  {
    TwentyFourOnes(m);
    DropsTwentyFour(m);
    OpenLow(Drop(m, 24));
    assert Ones(Drop(m, 24), 1);
    MoreOnes(m, 24, 1);
  }

  lemma ThirtyOneOnes(m: Word)
    requires m.bits == 0x7FFF_FFFF
    ensures Ones(m, 31)
  {
    TwentyFourOnes(m);
    DropsTwentyFour(m);
    SevenOnes(Drop(m, 24));
    MoreOnes(m, 24, 7);
  }

  // ---- exclusive or ----

  ghost predicate IsXor(z: Word, x: Word, y: Word) {
    var r: bool :| forall k {:trigger Lifted(Halving, k)} :: Lifted(Halving, k) ==>
      (r <==> z.bits == Exor(x.bits, y.bits));
    r
  }

  lemma OpenIsXor(z: Word, x: Word, y: Word)
    ensures IsXor(z, x, y) <==> z.bits == Exor(x.bits, y.bits)
  {
    assert Lifted(Halving, 0);
  }

  lemma XorShifted(x: bv32, y: bv32)
    ensures Right1(Exor(x, y)) == Exor(Right1(x), Right1(y))
    ensures Odd(Exor(x, y)) <==> Odd(x) != Odd(y)
  {
  }

  lemma XorParts(z: Word, x: Word, y: Word)
    requires IsXor(z, x, y)
    ensures IsXor(Half(z), Half(x), Half(y)) && Low(z) == if Low(x) == Low(y) then 0 else 1
  {
    OpenIsXor(z, x, y);
    OpenIsXor(Half(z), Half(x), Half(y));
    OpenHalf(x);
    OpenHalf(y);
    OpenHalf(z);
    OpenLow(x);
    OpenLow(y);
    OpenLow(z);
    XorShifted(x.bits, y.bits);
  }

  lemma XorStep(x: nat, y: nat, z: nat, a: nat, b: nat, i: nat, j: nat)
    requires i <= 1 && j <= 1 && x == i + 2 * a && y == j + 2 * b && z == (if i == j then 0 else 1) + 2 * Xor(a, b)
    ensures Xor(x, y) == z
  {
    assert x / 2 == a && x % 2 == i && y / 2 == b && y % 2 == j;
  }

  lemma {:induction false} XorBits(z: Word, x: Word, y: Word, n: nat)
    requires IsXor(z, x, y)
    ensures Xor(Bits(x, n), Bits(y, n)) == Bits(z, n)
    decreases n
  {
    if n > 0 {
      XorParts(z, x, y);
      XorBits(Half(z), Half(x), Half(y), n - 1);
      XorStep(Bits(x, n), Bits(y, n), Bits(z, n), Bits(Half(x), n - 1), Bits(Half(y), n - 1), Low(x), Low(y));
    }
  }

  /** Exclusive or of words. */
  lemma XorValue(x: bv32, y: bv32)
    ensures XorWord(Value(x), Value(y)) == Value(Exor(x, y))
  {
    var z := Exor(x, y);
    var n := Width();
    OpenIsXor(Word(z), Word(x), Word(y));
    XorBits(Word(z), Word(x), Word(y), n);
    OpenValue(x, Word(x), n);
    OpenValue(y, Word(y), n);
    OpenValue(z, Word(z), n);
  }

  // ---- sums ----

  ghost function Next(x: Word): Word {
    assert IsNext(Word(x.bits + 1), x);
    var y: Word :| IsNext(y, x);
    y
  }

  ghost predicate IsNext(y: Word, x: Word) {
    forall k {:trigger Lifted(Halving, k)} :: Lifted(Halving, k) ==> y.bits == x.bits + 1
  }

  lemma OpenNext(x: Word)
    ensures Next(x).bits == x.bits + 1
  {
    assert Lifted(Halving, 0);
  }

  lemma EvenPlusOne(x: bv32)
    requires !Odd(x)
    ensures Odd(x + 1) && Right1(x + 1) == Right1(x)
  {
  }

  lemma OddPlusOne(x: bv32)
    requires Odd(x)
    ensures !Odd(x + 1) && And(Right1(x + 1), 0x7FFF_FFFF) == And(Right1(x) + 1, 0x7FFF_FFFF)
  {
  }

  lemma NextEven(x: Word)
    requires Low(x) == 0
    ensures Low(Next(x)) == 1 && Half(Next(x)) == Half(x)
  {
    OpenLow(x);
    OpenNext(x);
    OpenLow(Next(x));
    OpenHalf(x);
    OpenHalf(Next(x));
    EvenPlusOne(x.bits);
  }

  lemma NextOdd(x: Word, m: Word)
    requires Low(x) == 1 && m.bits == 0x7FFF_FFFF
    ensures Low(Next(x)) == 0 && Agree(Half(Next(x)), Next(Half(x)), m)
  {
    OpenLow(x);
    OpenNext(x);
    OpenLow(Next(x));
    OpenHalf(x);
    OpenHalf(Next(x));
    OpenNext(Half(x));
    OpenAgree(Half(Next(x)), Next(Half(x)), m);
    OddPlusOne(x.bits);
  }

  lemma {:induction false} NextBits(x: Word, m: Word, n: nat) returns (carry: bool)
    requires n <= 32 && m.bits == 0x7FFF_FFFF && Ones(m, 31)
    ensures Bits(x, n) + 1 == Bits(Next(x), n) + Pow2(n) * One(carry)
    decreases n
  {
    carry := true;
    if n > 0 {
      if Low(x) == 0 {
        NextEven(x);
        carry := false;
      } else {
        NextOdd(x, m);
        carry := NextBits(Half(x), m, n - 1);
        FewerOnes(m, 31, n - 1);
        SameBits(Half(Next(x)), Next(Half(x)), m, n - 1);
      }
    }
  }

  lemma Carried(v: u32, w: u32, carry: bool)
    requires v + 1 == w + 0x1_0000_0000 * One(carry)
    ensures w == (v + 1) % 0x1_0000_0000
  {
  }

  lemma NextNumber(x: Word, m: Word, n: nat, v: u32, w: u32)
    requires n == 32 && m.bits == 0x7FFF_FFFF && v == Bits(x, n) && w == Bits(Next(x), n)
    ensures w == (v + 1) % 0x1_0000_0000
  {
    ThirtyOneOnes(m);
    var carry := NextBits(x, m, n);
    PowersOfTwo();
    Carried(v, w, carry);
  }

  lemma NextValue(x: bv32)
    ensures Value(x + 1) == (Value(x) + 1) % 0x1_0000_0000
  {
    var w := Word(x);
    var n := Width();
    OpenNext(w);
    OpenValue(x, w, n);
    OpenValue(x + 1, Next(w), n);
    NextNumber(w, Word(0x7FFF_FFFF), n, Value(x), Value(x + 1));
  }

  lemma {:induction false} ZeroBits(x: Word, n: nat)
    requires x.bits == 0
    ensures Bits(x, n) == 0
    decreases n
  {
    if n > 0 {
      OpenLow(x);
      OpenHalf(x);
      ZeroBits(Half(x), n - 1);
    }
  }

  lemma ZeroValue()
    ensures Value(0) == 0
  {
    var n := Width();
    ZeroBits(Word(0), n);
    OpenValue(0, Word(0), n);
  }

  lemma Remainders(a: u32, b: u32, next: u32, sum: u32, more: u32)
    requires next == (b + 1) % 0x1_0000_0000 && sum == (a + b) % 0x1_0000_0000 && more == (sum + 1) % 0x1_0000_0000
    ensures more == (a + next) % 0x1_0000_0000
  {
  }

  ghost function SumNumber(x: bv32, y: bv32): u32 {
    Value(x + y)
  }

  lemma NothingMore(x: bv32)
    ensures SumNumber(x, 0) == (Value(x) + Value(0)) % 0x1_0000_0000
  {
    ZeroValue();
    assert x + 0 == x;
  }

  lemma OneMore(x: bv32, y: bv32)
    requires SumNumber(x, y) == (Value(x) + Value(y)) % 0x1_0000_0000
    ensures SumNumber(x, y + 1) == (Value(x) + Value(y + 1)) % 0x1_0000_0000
  {
    NextValue(y);
    NextValue(x + y);
    Remainders(Value(x), Value(y), Value(y + 1), Value(x + y), Value((x + y) + 1));
  }

  lemma Previous(y: bv32) returns (p: bv32)
    requires y != 0
    ensures y == p + 1 && p < y
  {
    p := y - 1;
  }

  lemma {:induction false} SumNumbers(x: bv32, y: bv32)
    ensures SumNumber(x, y) == (Value(x) + Value(y)) % 0x1_0000_0000
    decreases y
  {
    if y == 0 {
      NothingMore(x);
    } else {
      var p := Previous(y);
      SumNumbers(x, p);
      OneMore(x, p);
    }
  }

  /** Sums of words wrap. */
  lemma SumValue(x: bv32, y: bv32)
    ensures Value(Add(x, y)) == (Value(x) + Value(y)) % 0x1_0000_0000
  {
    SumNumbers(x, y);
  }

  // ---- rotations ----

  /** Rotation takes the number apart and puts the parts together the other way round. */
  lemma Rotated(x: Word, r: Word, j: nat, k: nat, low: Word, high: Word) returns (a: nat, b: nat)
    requires Ones(low, k) && Ones(high, j)
    requires Agree(r, Drop(x, j), low) && Agree(Drop(r, k), x, high)
    ensures Bits(x, j + k) == a + Pow2(j) * b && Bits(r, j + k) == b + Pow2(k) * a && a < Pow2(j)
  {
    a, b := Bits(x, j), Bits(Drop(x, j), k);
    BitsSplit(x, j, k);
    BitsSplit(r, k, j);
    SameBits(r, Drop(x, j), low, k);
    SameBits(Drop(r, k), x, high, j);
    BitsBound(x, j);
  }

  lemma Powers(k: nat)
    ensures k == 7 ==> Pow2(k) == 0x80
    ensures k == 8 ==> Pow2(k) == 0x100
    ensures k == 12 ==> Pow2(k) == 0x1000
    ensures k == 16 ==> Pow2(k) == 0x1_0000
    ensures k == 20 ==> Pow2(k) == 0x10_0000
    ensures k == 24 ==> Pow2(k) == 0x100_0000
    ensures k == 25 ==> Pow2(k) == 0x200_0000
  {
    assert Pow2(4) == 0x10 && Pow2(8) == 0x100 && Pow2(12) == 0x1000 && Pow2(16) == 0x1_0000;
    assert Pow2(20) == 0x10_0000 && Pow2(24) == 0x100_0000 && Pow2(25) == 0x200_0000 && Pow2(7) == 0x80;
  }

  lemma Bits16(x: bv32)
    ensures And(Left16(x), 0xFFFF) == And(Right16(x), 0xFFFF) && And(Right16(Left16(x)), 0xFFFF) == And(x, 0xFFFF)
  {
  }

  lemma Turned16(x: Word, r: Word, m: Word)
    requires r.bits == Left16(x.bits) && m.bits == 0xFFFF
    ensures Agree(r, Drop(x, 16), m) && Agree(Drop(r, 16), x, m)
  {
    DropsSixteen(x);
    DropsSixteen(r);
    OpenAgree(r, Drop(x, 16), m);
    OpenAgree(Drop(r, 16), x, m);
    Bits16(x.bits);
  }

  lemma Left16Number(x: Word, r: Word, m: Word, n: nat, v: nat, w: nat)
    requires r.bits == Left16(x.bits) && m.bits == 0xFFFF
    requires n == 32 && v == Bits(x, n) && w == Bits(r, n)
    ensures w == v % 0x1_0000 * 0x1_0000 + v / 0x1_0000
  {
    var k: nat := n - 16;
    var j: nat := n - k;
    SixteenOnes(m);
    Turned16(x, r, m);
    var a, b := Rotated(x, r, j, k, m, m);
    Powers(j);
    Powers(k);
    Swapped16(v, w, a, b);
  }

  lemma Swapped16(v: nat, w: nat, a: nat, b: nat)
    requires v == a + 0x1_0000 * b && w == b + 0x1_0000 * a && a < 0x1_0000
    ensures w == v % 0x1_0000 * 0x1_0000 + v / 0x1_0000
  {
  }

  lemma Left16Value(x: bv32)
    ensures Value(Left16(x)) == Value(x) % 0x1_0000 * 0x1_0000 + Value(x) / 0x1_0000
  {
    var n := Width();
    OpenValue(x, Word(x), n);
    OpenValue(Left16(x), Word(Left16(x)), n);
    Left16Number(Word(x), Word(Left16(x)), Word(0xFFFF), n, Value(x), Value(Left16(x)));
  }

  lemma Bits12(x: bv32)
    ensures And(Left12(x), 0xFFF) == And(Right4(Right16(x)), 0xFFF)
    ensures And(Right4(Right8(Left12(x))), 0xF_FFFF) == And(x, 0xF_FFFF)
  {
  }

  lemma Turned12(x: Word, r: Word, low: Word, high: Word)
    requires r.bits == Left12(x.bits) && low.bits == 0xFFF && high.bits == 0xF_FFFF
    ensures Agree(r, Drop(x, 20), low) && Agree(Drop(r, 12), x, high)
  {
    DropsTwenty(x);
    DropsTwelve(r);
    OpenAgree(r, Drop(x, 20), low);
    OpenAgree(Drop(r, 12), x, high);
    Bits12(x.bits);
  }

  lemma Left12Number(x: Word, r: Word, low: Word, high: Word, n: nat, v: nat, w: nat)
    requires r.bits == Left12(x.bits) && low.bits == 0xFFF && high.bits == 0xF_FFFF
    requires n == 32 && v == Bits(x, n) && w == Bits(r, n)
    ensures w == v % 0x10_0000 * 0x1000 + v / 0x10_0000
  {
    var k: nat := n - 20;
    var j: nat := n - k;
    TwelveOnes(low);
    TwentyOnes(high);
    Turned12(x, r, low, high);
    var a, b := Rotated(x, r, j, k, low, high);
    Powers(j);
    Powers(k);
    Swapped12(v, w, a, b);
  }

  lemma Swapped12(v: nat, w: nat, a: nat, b: nat)
    requires v == a + 0x10_0000 * b && w == b + 0x1000 * a && a < 0x10_0000
    ensures w == v % 0x10_0000 * 0x1000 + v / 0x10_0000
  {
  }

  lemma Left12Value(x: bv32)
    ensures Value(Left12(x)) == Value(x) % 0x10_0000 * 0x1000 + Value(x) / 0x10_0000
  {
    var n := Width();
    OpenValue(x, Word(x), n);
    OpenValue(Left12(x), Word(Left12(x)), n);
    Left12Number(Word(x), Word(Left12(x)), Word(0xFFF), Word(0xF_FFFF), n, Value(x), Value(Left12(x)));
  }

  lemma Bits8(x: bv32)
    ensures And(Left8(x), 0xFF) == And(Right8(Right16(x)), 0xFF)
    ensures And(Right8(Left8(x)), 0xFF_FFFF) == And(x, 0xFF_FFFF)
  {
  }

  lemma Turned8(x: Word, r: Word, low: Word, high: Word)
    requires r.bits == Left8(x.bits) && low.bits == 0xFF && high.bits == 0xFF_FFFF
    ensures Agree(r, Drop(x, 24), low) && Agree(Drop(r, 8), x, high)
  {
    DropsTwentyFour(x);
    DropsEight(r);
    OpenAgree(r, Drop(x, 24), low);
    OpenAgree(Drop(r, 8), x, high);
    Bits8(x.bits);
  }

  lemma Left8Number(x: Word, r: Word, low: Word, high: Word, n: nat, v: nat, w: nat)
    requires r.bits == Left8(x.bits) && low.bits == 0xFF && high.bits == 0xFF_FFFF
    requires n == 32 && v == Bits(x, n) && w == Bits(r, n)
    ensures w == v % 0x100_0000 * 0x100 + v / 0x100_0000
  {
    var k: nat := n - 24;
    var j: nat := n - k;
    EightOnes(low);
    TwentyFourOnes(high);
    Turned8(x, r, low, high);
    var a, b := Rotated(x, r, j, k, low, high);
    Powers(j);
    Powers(k);
    Swapped8(v, w, a, b);
  }

  lemma Swapped8(v: nat, w: nat, a: nat, b: nat)
    requires v == a + 0x100_0000 * b && w == b + 0x100 * a && a < 0x100_0000
    ensures w == v % 0x100_0000 * 0x100 + v / 0x100_0000
  {
  }

  lemma Left8Value(x: bv32)
    ensures Value(Left8(x)) == Value(x) % 0x100_0000 * 0x100 + Value(x) / 0x100_0000
  {
    var n := Width();
    OpenValue(x, Word(x), n);
    OpenValue(Left8(x), Word(Left8(x)), n);
    Left8Number(Word(x), Word(Left8(x)), Word(0xFF), Word(0xFF_FFFF), n, Value(x), Value(Left8(x)));
  }

  lemma Bits7(x: bv32)
    ensures And(Left7(x), 0x7F) == And(Right1(Right8(Right16(x))), 0x7F)
    ensures And(Right1(Right1(Right1(Right4(Left7(x))))), 0x1FF_FFFF) == And(x, 0x1FF_FFFF)
  {
  }

  lemma Turned7(x: Word, r: Word, low: Word, high: Word)
    requires r.bits == Left7(x.bits) && low.bits == 0x7F && high.bits == 0x1FF_FFFF
    ensures Agree(r, Drop(x, 25), low) && Agree(Drop(r, 7), x, high)
  {
    DropsTwentyFive(x);
    DropsSeven(r);
    OpenAgree(r, Drop(x, 25), low);
    OpenAgree(Drop(r, 7), x, high);
    Bits7(x.bits);
  }

  lemma Left7Number(x: Word, r: Word, low: Word, high: Word, n: nat, v: nat, w: nat)
    requires r.bits == Left7(x.bits) && low.bits == 0x7F && high.bits == 0x1FF_FFFF
    requires n == 32 && v == Bits(x, n) && w == Bits(r, n)
    ensures w == v % 0x200_0000 * 0x80 + v / 0x200_0000
  {
    var k: nat := n - 25;
    var j: nat := n - k;
    SevenOnes(low);
    TwentyFiveOnes(high);
    Turned7(x, r, low, high);
    var a, b := Rotated(x, r, j, k, low, high);
    Powers(j);
    Powers(k);
    Swapped7(v, w, a, b);
  }

  lemma Swapped7(v: nat, w: nat, a: nat, b: nat)
    requires v == a + 0x200_0000 * b && w == b + 0x80 * a && a < 0x200_0000
    ensures w == v % 0x200_0000 * 0x80 + v / 0x200_0000
  {
  }

  lemma Left7Value(x: bv32)
    ensures Value(Left7(x)) == Value(x) % 0x200_0000 * 0x80 + Value(x) / 0x200_0000
  {
    var n := Width();
    OpenValue(x, Word(x), n);
    OpenValue(Left7(x), Word(Left7(x)), n);
    Left7Number(Word(x), Word(Left7(x)), Word(0x7F), Word(0x1FF_FFFF), n, Value(x), Value(Left7(x)));
  }

  // ---- halving ----

  lemma TopClear(x: bv32)
    ensures !Odd(Right1(Right1(Right1(Right4(Right8(Right16(Right1(x))))))))
  {
  }

  lemma TopZero(x: Word, h: Word, n: nat)
    requires n == 31 && h == Half(x)
    ensures Bits(Drop(h, n), 1) == 0
  {
    DropMore(h, n - 7, 7);
    DropsTwentyFour(h);
    DropsSeven(Drop(h, n - 7));
    OpenHalf(x);
    OpenLow(Drop(h, n));
    TopClear(x.bits);
  }

  lemma HalfBits(x: Word, h: Word, n: nat)
    requires n == 31 && h == Half(x)
    ensures Bits(x, n + 1) == Low(x) + 2 * Bits(h, n + 1)
  {
    BitsSplit(h, n, 1);
    TopZero(x, h, n);
  }

  lemma HalfNumber(v: nat, h: nat, l: nat)
    requires v == l + 2 * h && l <= 1
    ensures h == v / 2 && v % 2 == l
  {
  }

  /** Halving, and the last bit. */
  lemma HalfValue(x: bv32)
    ensures Value(Right1(x)) == Value(x) / 2 && Value(x) % 2 == One(Odd(x))
  {
    var n := Width();
    HalfBits(Word(x), Half(Word(x)), n - 1);
    OpenHalf(Word(x));
    OpenLow(Word(x));
    OpenValue(x, Word(x), n);
    OpenValue(Right1(x), Half(Word(x)), n);
    HalfNumber(Value(x), Value(Right1(x)), Low(Word(x)));
  }

  // ---- bytes ----

  /** The four bytes of a word, least significant first. */
  function Bytes(x: bv32): u32 {
    Quad(Number(LastByte(x)), Number(LastByte(Right8(x))), Number(LastByte(Right16(x))),
      Number(LastByte(Right8(Right16(x)))))
  }

  function Number(b: bv8): byte { b as int }

  predicate Has(b: bv8, m: bv8) { b & m == m }

  lemma ByteNumber(b: bv8)
    ensures Number(b) == One(Has(b, 1)) + 2 * One(Has(b, 2)) + 4 * One(Has(b, 4)) + 8 * One(Has(b, 8))
        + 16 * (One(Has(b, 16)) + 2 * One(Has(b, 32)) + 4 * One(Has(b, 64)) + 8 * One(Has(b, 128)))
  {
  }

  lemma LowHalf(x: bv32)
    ensures Odd(x) == Has(LastByte(x), 1) && Odd(Right1(x)) == Has(LastByte(x), 2)
    ensures Odd(Right1(Right1(x))) == Has(LastByte(x), 4) && Odd(Right1(Right1(Right1(x)))) == Has(LastByte(x), 8)
  {
  }

  lemma HighHalf(x: bv32, h: bv32)
    requires h == Right4(x)
    ensures Odd(h) == Has(LastByte(x), 16) && Odd(Right1(h)) == Has(LastByte(x), 32)
    ensures Odd(Right1(Right1(h))) == Has(LastByte(x), 64) && Odd(Right1(Right1(Right1(h)))) == Has(LastByte(x), 128)
  {
  }

  lemma FourBits(x: Word, n: nat)
    requires n == 4
    ensures Bits(x, n) == One(Odd(x.bits)) + 2 * One(Odd(Right1(x.bits)))
        + 4 * One(Odd(Right1(Right1(x.bits)))) + 8 * One(Odd(Right1(Right1(Right1(x.bits)))))
  {
    var h, q := Half(x), Half(Half(x));
    assert Bits(q, n - 2) == Low(q) + 2 * Low(Half(q));
    assert Bits(x, n) == Low(x) + 2 * Bits(h, n - 1);
    OpenHalf(x);
    OpenHalf(h);
    OpenHalf(q);
    OpenLow(x);
    OpenLow(h);
    OpenLow(q);
    OpenLow(Half(q));
  }

  lemma EightBits(x: Word, n: nat)
    requires n == 4
    ensures Bits(x, n + n) == Number(LastByte(x.bits))
  {
    BitsSplit(x, n, n);
    DropsFour(x);
    FourBits(x, n);
    FourBits(Drop(x, n), n);
    Nibbles(x.bits, Right4(x.bits), Bits(x, n), Bits(Drop(x, n), n));
    assert Pow2(n) == 0x10 by { assert Pow2(4) == 0x10; }
  }

  lemma Nibbles(x: bv32, h: bv32, a: nat, b: nat)
    requires h == Right4(x)
    requires a == One(Odd(x)) + 2 * One(Odd(Right1(x)))
        + 4 * One(Odd(Right1(Right1(x)))) + 8 * One(Odd(Right1(Right1(Right1(x)))))
    requires b == One(Odd(h)) + 2 * One(Odd(Right1(h)))
        + 4 * One(Odd(Right1(Right1(h)))) + 8 * One(Odd(Right1(Right1(Right1(h)))))
    ensures a + 0x10 * b == Number(LastByte(x))
  {
    LowHalf(x);
    HighHalf(x, h);
    ByteNumber(LastByte(x));
  }

  lemma FourBytes(x: Word, n: nat)
    requires n == 8
    ensures Bits(x, n + n + n + n) == Bits(x, n) + 0x100 * Bits(Drop(x, n), n)
        + 0x1_0000 * Bits(Drop(x, n + n), n) + 0x100_0000 * Bits(Drop(x, n + n + n), n)
  {
    Powers(n);
    Powers(n + n);
    Powers(n + n + n);
    BitsSplit(x, n + n + n, n);
    BitsSplit(x, n + n, n);
    BitsSplit(x, n, n);
  }

  lemma BytesNumber(x: Word, n: nat)
    requires n == 4
    ensures Bits(x, 8 * n) == Bytes(x.bits)
  {
    FourBytes(x, n + n);
    DropsEight(x);
    DropsSixteen(x);
    DropsTwentyFour(x);
    EightBits(x, n);
    EightBits(Drop(x, 2 * n), n);
    EightBits(Drop(x, 4 * n), n);
    EightBits(Drop(x, 6 * n), n);
  }

  /** A word is its bytes. */
  lemma ValueBytes(x: bv32)
    ensures Value(x) == Bytes(x)
  {
    var n := Width();
    OpenValue(x, Word(x), n);
    BytesNumber(Word(x), n / 8);
  }
}
