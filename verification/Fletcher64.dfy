/**
 Fletcher-64 over little-endian 32-bit words, modulo 2^32 - 1: the checksum each
 volume keeps of its allocation bitmap.
 */
module Fletcher64 {
  import opened Words
  import opened Splice

  const MODULUS: int := 0xFFFF_FFFF

  datatype Sums = Sums(s1: nat, s2: nat)

  /** The remainder by 2^32 - 1, by repeated subtraction. */
  function Reduce(x: nat): nat {
    if x < MODULUS then x else Reduce(x - MODULUS)
  }

  function Add(s: Sums, w: nat): Sums {
    var a := Reduce(s.s1 + w);
    Sums(a, Reduce(s.s2 + a))
  }

  function Run(s: Sums, ws: seq<nat>): Sums {
    if ws == [] then s else Add(Run(s, ws[..|ws| - 1]), ws[|ws| - 1])
  }

  function Join(s: Sums): nat {
    s.s2 * 0x1_0000_0000 + s.s1
  }

  function WordCount(n: nat): nat {
    (n + 3) / 4
  }

  /** Byte `i`, or the zero that pads the last word. */
  function ByteAt(data: seq<byte>, i: nat): byte {
    if i < |data| then data[i] else 0
  }

  function WordAt(data: seq<byte>, k: nat): u32 {
    Quad(ByteAt(data, 4 * k), ByteAt(data, 4 * k + 1), ByteAt(data, 4 * k + 2), ByteAt(data, 4 * k + 3))
  }

  function FirstWords(data: seq<byte>, n: nat): (ws: seq<nat>)
    ensures |ws| == n
  {
    if n == 0 then [] else FirstWords(data, n - 1) + [WordAt(data, n - 1)]
  }

  /** The buffer as little-endian words, the last one padded with zeros. */
  function WordsOf(data: seq<byte>): (ws: seq<nat>)
    ensures |ws| == WordCount(|data|)
  {
    FirstWords(data, WordCount(|data|))
  }

  lemma {:induction false} FirstWordsAt(data: seq<byte>, n: nat, k: nat)
    requires k < n
    ensures FirstWords(data, n)[k] == WordAt(data, k)
  {
    if k < n - 1 {
      FirstWordsAt(data, n - 1, k);
    }
  }

  /** The words are exactly those read at each position. */
  lemma WordsAre(data: seq<byte>, ws: seq<nat>)
    requires |ws| == WordCount(|data|)
    requires forall k :: 0 <= k < |ws| ==> ws[k] == WordAt(data, k)
    ensures WordsOf(data) == ws
  {
    forall k | 0 <= k < |ws|
      ensures WordsOf(data)[k] == ws[k]
    {
      FirstWordsAt(data, |ws|, k);
    }
  }

  function OfWords(ws: seq<nat>): Sums {
    Run(Sums(0, 0), ws)
  }

  /** The two running sums of a buffer. */
  function Checksum(data: seq<byte>): Sums {
    OfWords(WordsOf(data))
  }

  /** The checksum as the code returns it: `(sum2 << 32) | sum1`. */
  function Fletcher(data: seq<byte>): nat {
    Join(Checksum(data))
  }

  // ---- the code ----

  method OwFletcher64(data: seq<byte>) returns (r: nat)
    ensures r == Fletcher(data)
  {
    var s := Sums(0, 0);
    var i, len := 0, |data|;
    ghost var k := 0;
    while len >= 4
      invariant 0 <= k && i == 4 * k && i + len == |data| && 0 <= len
      invariant s == Run(Sums(0, 0), WordsOf(data)[..k])
    {
      OneMoreWord(Sums(0, 0), data, k);
      s := Add(s, Quad(data[i], data[i + 1], data[i + 2], data[i + 3]));
      i := i + 4;
      len := len - 4;
      k := k + 1;
    }
    if len > 0 {
      OneMoreWord(Sums(0, 0), data, k);
      s := Add(s, Quad(data[i], if len > 1 then data[i + 1] else 0, if len > 2 then data[i + 2] else 0, 0));
      k := k + 1;
    }
    assert WordsOf(data)[..k] == WordsOf(data);
    r := Join(s);
  }

  lemma OneMoreWord(s: Sums, data: seq<byte>, k: nat)
    requires k < WordCount(|data|)
    ensures Run(s, WordsOf(data)[..k + 1])
         == Add(Run(s, WordsOf(data)[..k]), Quad(ByteAt(data, 4 * k), ByteAt(data, 4 * k + 1), ByteAt(data, 4 * k + 2),
             ByteAt(data, 4 * k + 3)))
  {
    FirstWordsAt(data, WordCount(|data|), k);
    assert WordsOf(data)[..k + 1][..k] == WordsOf(data)[..k];
  }

  /** The inner loop: one more block of words. */
  method AddBlock(s0: Sums, block: Block) returns (s: Sums)
    ensures s == Run(s0, WordsOf(block))
  {
    s := s0;
    ghost var k := 0;
    var i := 0;
    while i + 4 <= |block|
      invariant 0 <= k && i == 4 * k <= |block|
      invariant s == Run(s0, WordsOf(block)[..k])
    {
      OneMoreWord(s0, block, k);
      s := Add(s, Quad(block[i], block[i + 1], block[i + 2], block[i + 3]));
      i := i + 4;
      k := k + 1;
    }
    assert WordsOf(block)[..k] == WordsOf(block);
  }

  lemma OneMoreBlock(blocks: seq<Block>, b: nat)
    requires b < |blocks|
    ensures Run(Sums(0, 0), WordsOf(Flatten(blocks[..b + 1])))
         == Run(Run(Sums(0, 0), WordsOf(Flatten(blocks[..b]))), WordsOf(blocks[b]))
  {
    assert blocks[..b + 1][..b] == blocks[..b];
    WordsOfConcat(Flatten(blocks[..b]), blocks[b], 1024 * b);
    RunConcat(Sums(0, 0), WordsOf(Flatten(blocks[..b])), WordsOf(blocks[b]));
  }

  lemma {:induction false} RunConcat(s: Sums, a: seq<nat>, b: seq<nat>)
    ensures Run(s, a + b) == Run(Run(s, a), b)
    decreases |b|
  {
    if b == [] {
      assert a + b == a;
    } else {
      assert (a + b)[..|a + b| - 1] == a + b[..|b| - 1];
      RunConcat(s, a, b[..|b| - 1]);
    }
  }

  lemma WordsOfConcat(a: seq<byte>, b: seq<byte>, n: nat)
    requires |a| == 4 * n
    ensures WordsOf(a + b) == WordsOf(a) + WordsOf(b)
  {
    var ws := WordsOf(a) + WordsOf(b);
    forall k | 0 <= k < |ws|
      ensures ws[k] == WordAt(a + b, k)
    {
      if k < n {
        FirstWordsAt(a, n, k);
      } else {
        FirstWordsAt(b, WordCount(|b|), k - n);
        BytesPast(a, b, 4 * (k - n));
        BytesPast(a, b, 4 * (k - n) + 1);
        BytesPast(a, b, 4 * (k - n) + 2);
        BytesPast(a, b, 4 * (k - n) + 3);
      }
    }
    WordsAre(a + b, ws);
  }

  lemma BytesPast(a: seq<byte>, b: seq<byte>, i: nat)
    ensures ByteAt(a + b, |a| + i) == ByteAt(b, i)
  {
  }

  // ---- closed form ----

  /** The sum of the first `n` words. */
  function Sum(ws: seq<nat>, n: nat): nat
    requires n <= |ws|
  {
    if n == 0 then 0 else Sum(ws, n - 1) + ws[n - 1]
  }

  /** Every word counted once for itself and once for each word after it. */
  function Weighted(ws: seq<nat>, n: nat): nat
    requires n <= |ws|
  {
    if n == 0 then 0 else Weighted(ws, n - 1) + Sum(ws, n)
  }

  lemma {:induction false} ReduceIsRemainder(x: nat)
    ensures Reduce(x) == x % MODULUS
  {
    if x >= MODULUS {
      ReduceIsRemainder(x - MODULUS);
    }
  }

  lemma RemainderAdd(a: nat, b: nat)
    ensures (a % MODULUS + b) % MODULUS == (a + b) % MODULUS
  {
  }

  lemma ReduceAdd(a: nat, b: nat)
    ensures Reduce(Reduce(a) + b) == Reduce(a + b)
  {
    ReduceIsRemainder(a);
    ReduceIsRemainder(a + b);
    ReduceIsRemainder(Reduce(a) + b);
    RemainderAdd(a, b);
  }

  lemma AddReduced(sum: nat, weighted: nat, w: nat)
    ensures Add(Sums(Reduce(sum), Reduce(weighted)), w) == Sums(Reduce(sum + w), Reduce(weighted + (sum + w)))
  {
    ReduceAdd(sum, w);
    ReduceAdd(weighted, Reduce(sum + w));
    ReduceAdd(sum + w, weighted);
  }

  /** The two running sums are the plain and the weighted sum of the words. */
  lemma {:induction false} RunClosedForm(ws: seq<nat>, n: nat)
    requires n <= |ws|
    ensures Run(Sums(0, 0), ws[..n]) == Sums(Reduce(Sum(ws, n)), Reduce(Weighted(ws, n)))
  {
    if n > 0 {
      assert ws[..n][..n - 1] == ws[..n - 1];
      RunClosedForm(ws, n - 1);
      AddReduced(Sum(ws, n - 1), Weighted(ws, n - 1), ws[n - 1]);
    }
  }

  /** The result is the weighted sum and the plain sum of the words, each modulo 2^32 - 1, side by side. */
  lemma FletcherIs(data: seq<byte>)
    ensures var ws := WordsOf(data);
            Fletcher(data) == 0x1_0000_0000 * (Weighted(ws, |ws|) % 0xFFFF_FFFF) + Sum(ws, |ws|) % 0xFFFF_FFFF
  {
    var ws := WordsOf(data);
    RunClosedForm(ws, |ws|);
    assert ws[..|ws|] == ws;
    ReduceIs(Weighted(ws, |ws|));
    ReduceIs(Sum(ws, |ws|));
  }

  lemma {:induction false} ReduceIs(x: nat)
    ensures Reduce(x) == x % 0xFFFF_FFFF
  {
    if x >= 0xFFFF_FFFF {
      ReduceIs(x - 0xFFFF_FFFF);
    }
  }

  /** Four bytes to a word, least significant first; the bytes missing at the end count as zeros. */
  lemma WordIs(data: seq<byte>, k: nat)
    ensures |WordsOf(data)| == |data| / 4 + if |data| % 4 == 0 then 0 else 1
    ensures 4 * k + 4 <= |data| ==>
              k < |WordsOf(data)| && WordsOf(data)[k] ==
                data[4 * k] as int + 0x100 * data[4 * k + 1] as int + 0x1_0000 * data[4 * k + 2] as int
                  + 0x100_0000 * data[4 * k + 3] as int
    ensures 4 * k + 3 == |data| ==>
              k < |WordsOf(data)| && WordsOf(data)[k] ==
                data[4 * k] as int + 0x100 * data[4 * k + 1] as int + 0x1_0000 * data[4 * k + 2] as int
    ensures 4 * k + 2 == |data| ==>
              k < |WordsOf(data)| && WordsOf(data)[k] == data[4 * k] as int + 0x100 * data[4 * k + 1] as int
    ensures 4 * k + 1 == |data| ==> k < |WordsOf(data)| && WordsOf(data)[k] == data[4 * k]
  {
    if k < |WordsOf(data)| {
      FirstWordsAt(data, |WordsOf(data)|, k);
    }
  }

  /** Of two words: the first counts twice in the upper half. */
  lemma TwoWords(data: seq<byte>, ws: seq<nat>)
    requires |data| == 8 && ws == WordsOf(data)
    ensures |ws| == 2 && ws[0] == WordAt(data, 0) && ws[1] == WordAt(data, 1)
    ensures Sum(ws, |ws|) == ws[0] + ws[1] && Weighted(ws, |ws|) == ws[0] + (ws[0] + ws[1])
  {
    FirstWordsAt(data, 2, 0);
    FirstWordsAt(data, 2, 1);
    assert Sum(ws, 1) == ws[0];
    assert Weighted(ws, 1) == ws[0];
  }

  lemma OfTwoWords(data: seq<byte>, a: u32, b: u32, r: nat)
    requires |data| == 8 && WordAt(data, 0) == a && WordAt(data, 1) == b
    requires r == 0x1_0000_0000 * ((a + (a + b)) % 0xFFFF_FFFF) + (a + b) % 0xFFFF_FFFF
    ensures Fletcher(data) == r
  {
    FletcherIs(data);
    TwoWords(data, WordsOf(data));
  }

  /** Eight bytes, `abcdefgh`. */
  lemma FletcherExample(data: seq<byte>)
    requires |data| == 8 && data[0] == 0x61 && data[1] == 0x62 && data[2] == 0x63 && data[3] == 0x64
    requires data[4] == 0x65 && data[5] == 0x66 && data[6] == 0x67 && data[7] == 0x68
    ensures Fletcher(data) == 0x312E_2B28_CCCA_C8C6
  {
    assert WordAt(data, 0) == 0x6463_6261;
    assert WordAt(data, 1) == 0x6867_6665;
    OfTwoWords(data, 0x6463_6261, 0x6867_6665, 0x312E_2B28_CCCA_C8C6);
  }

  lemma HalvesOf(s: Sums)
    requires s.s1 < MODULUS && s.s2 < MODULUS
    ensures Join(s) % 0x1_0000_0000 == s.s1 && Join(s) / 0x1_0000_0000 == s.s2
  {
  }

  lemma ReduceSmall(x: nat)
    ensures Reduce(x) < MODULUS
  {
    ReduceIsRemainder(x);
  }

  /**
   Both sums stay below 2^32 - 1, so the 64-bit result holds them both and two results agree exactly
   when the sums do.
   */
  lemma FletcherHoldsBoth(a: seq<byte>, b: seq<byte>)
    ensures Checksum(a).s1 < MODULUS && Checksum(a).s2 < MODULUS
    ensures Fletcher(a) == Fletcher(b) <==> Checksum(a) == Checksum(b)
  {
    InRange(WordsOf(a));
    InRange(WordsOf(b));
    HalvesOf(Checksum(a));
    HalvesOf(Checksum(b));
  }

  lemma InRange(ws: seq<nat>)
    ensures OfWords(ws).s1 < MODULUS && OfWords(ws).s2 < MODULUS
  {
    Halves(ws);
    ReduceSmall(Sum(ws, |ws|));
    ReduceSmall(Weighted(ws, |ws|));
  }

  lemma Halves(ws: seq<nat>)
    ensures OfWords(ws) == Sums(Reduce(Sum(ws, |ws|)), Reduce(Weighted(ws, |ws|)))
  {
    RunClosedForm(ws, |ws|);
    assert ws[..|ws|] == ws;
  }

  lemma DifferentChecksum(a: seq<nat>, b: seq<nat>)
    requires Reduce(Sum(a, |a|)) != Reduce(Sum(b, |b|)) || Reduce(Weighted(a, |a|)) != Reduce(Weighted(b, |b|))
    ensures OfWords(a) != OfWords(b)
  {
    Halves(a);
    Halves(b);
  }

  /** `n` times `d`. */
  function Scaled(n: nat, d: int): int {
    if n == 0 then 0 else Scaled(n - 1, d) + d
  }

  lemma {:induction false} ScaledIsProduct(n: nat, d: int)
    ensures Scaled(n, d) == n * d
  {
    if n > 0 {
      ScaledIsProduct(n - 1, d);
      assert n * d == (n - 1) * d + d;
    }
  }

  /**
   Adding `d` to word `i` adds `d` to the plain sum and `d` once for word `i` and each later one to
   the weighted sum.
   */
  lemma {:induction false} ChangeOneWord(ws: seq<nat>, i: nat, d: int, vs: seq<nat>, n: nat)
    requires i < |ws| && 0 <= ws[i] + d && vs == ws[i := ws[i] + d] && n <= |ws|
    ensures Sum(vs, n) == Sum(ws, n) + (if i < n then d else 0)
    ensures Weighted(vs, n) == Weighted(ws, n) + (if i < n then Scaled(n - i, d) else 0)
  {
    if n > 0 {
      ChangeOneWord(ws, i, d, vs, n - 1);
    }
  }

  // ---- the weight of a bit ----

  lemma {:induction false} BitWeight(x: nat, i: nat)
    ensures Bit(x, i) ==> ClearBit(x, i) + Pow2(i) == x
    ensures !Bit(x, i) ==> SetBit(x, i) == x + Pow2(i)
  {
    if i > 0 {
      BitWeight(x / 2, i - 1);
    }
  }

  lemma {:induction false} PowAdd(a: nat, b: nat)
    ensures Pow2(a + b) == Pow2(a) * Pow2(b)
  {
    if a > 0 {
      PowAdd(a - 1, b);
      assert Pow2(a) * Pow2(b) == 2 * (Pow2(a - 1) * Pow2(b));
    }
  }

  lemma {:induction false} PowMonotone(a: nat, b: nat)
    requires a < b
    ensures Pow2(a) < Pow2(b)
  {
    if a + 1 < b {
      PowMonotone(a, b - 1);
    }
  }

  /** What one unit of byte `j` of a word is worth. */
  function Unit(j: nat): nat
    requires j < 4
  {
    if j == 0 then 1 else if j == 1 then 0x100 else if j == 2 then 0x1_0000 else 0x100_0000
  }

  /** The weight, as a power of two, of bit `b` of byte `j` of a word. */
  function Place(j: nat, b: nat): nat {
    8 * j + b
  }

  lemma UnitIsPower(j: nat, b: nat)
    requires j < 4
    ensures Pow2(Place(j, b)) == Unit(j) * Pow2(b)
  {
    PowersOfTwo();
    PowAdd(8, 8);
    PowAdd(8, 16);
    PowAdd(8 * j, b);
    assert Pow2(0) == 1;
    assert j == 0 || j == 1 || j == 2 || j == 3;
  }

  lemma WordChange(data: seq<byte>, k: nat, j: nat, x: byte)
    requires j < 4 && 4 * k + j < |data|
    ensures WordAt(data[4 * k + j := x], k) == WordAt(data, k) + (x - data[4 * k + j]) * Unit(j)
  {
  }

  lemma WordKept(data: seq<byte>, k: nat, j: nat, x: byte, m: nat)
    requires j < 4 && 4 * k + j < |data| && m != k
    ensures WordAt(data[4 * k + j := x], m) == WordAt(data, m)
  {
  }

  /** Changing a byte changes the word it lies in by as many units, and no other word. */
  lemma ByteInWord(data: seq<byte>, k: nat, j: nat, x: byte, d: int)
    requires j < 4 && 4 * k + j < |data| && d == (x - data[4 * k + j]) * Unit(j)
    ensures 0 <= WordsOf(data)[k] + d
    ensures WordsOf(data[4 * k + j := x]) == WordsOf(data)[k := WordsOf(data)[k] + d]
  {
    var n := WordCount(|data|);
    FirstWordsAt(data, n, k);
    WordChange(data, k, j, x);
    var ws := WordsOf(data)[k := WordsOf(data)[k] + d];
    forall m | 0 <= m < n
      ensures ws[m] == WordAt(data[4 * k + j := x], m)
    {
      FirstWordsAt(data, n, m);
      if m != k {
        WordKept(data, k, j, x, m);
      }
    }
    WordsAre(data[4 * k + j := x], ws);
  }

  lemma WeightInWord(d: int, j: nat, b: nat)
    requires j < 4 && (d == Pow2(b) || d == 0 - Pow2(b))
    ensures d * Unit(j) == if d > 0 then Pow2(Place(j, b)) else 0 - Pow2(Place(j, b))
  {
    UnitIsPower(j, b);
    Negate(Pow2(b), Unit(j));
  }

  lemma Negate(w: int, u: int)
    ensures (0 - w) * u == 0 - u * w && w * u == u * w
  {
  }

  lemma PlaceBound(k: nat)
    requires k < 32
    ensures 1 <= Pow2(k) < MODULUS
  {
    PowersOfTwo();
    if k < 31 { PowMonotone(k, 31); }
  }

  lemma Congruent(a: nat, b: nat)
    requires Reduce(a) == Reduce(b) && a - b < MODULUS && b - a < MODULUS
    ensures a == b
  {
    ReduceIsRemainder(a);
    ReduceIsRemainder(b);
  }

  // ---- every single-bit change is seen ----

  lemma WordFlipDetected(ws: seq<nat>, k: nat, d: int)
    requires k < |ws| && 0 <= ws[k] + d && d != 0 && 0 - MODULUS < d < MODULUS
    ensures OfWords(ws[k := ws[k] + d]) != OfWords(ws)
  {
    var vs := ws[k := ws[k] + d];
    ChangeOneWord(ws, k, d, vs, |ws|);
    if Reduce(Sum(vs, |vs|)) == Reduce(Sum(ws, |ws|)) {
      Congruent(Sum(vs, |vs|), Sum(ws, |ws|));
    }
    DifferentChecksum(vs, ws);
  }

  function Flipped(x: byte, b: nat): byte
    requires b < 8
  {
    if Bit(x, b) then ByteWithoutBit(x, b) else ByteWithBit(x, b)
  }

  /** Flipping any one bit (bit `b` of byte `j` of word `k`) changes the checksum. */
  lemma FlipDetected(data: seq<byte>, k: nat, j: nat, b: nat)
    requires j < 4 && b < 8 && 4 * k + j < |data|
    ensures Checksum(data[4 * k + j := Flipped(data[4 * k + j], b)]) != Checksum(data)
  {
    var x := data[4 * k + j];
    BitWeight(x, b);
    WeightChangeDetected(data, k, j, b, Flipped(x, b));
  }

  lemma WeightChangeDetected(data: seq<byte>, k: nat, j: nat, b: nat, y: byte)
    requires j < 4 && b < 8 && 4 * k + j < |data|
    requires y - data[4 * k + j] == Pow2(b) || y - data[4 * k + j] == 0 - Pow2(b)
    ensures Checksum(data[4 * k + j := y]) != Checksum(data)
  {
    var d := y - data[4 * k + j];
    WeightInWord(d, j, b);
    PlaceBound(Place(j, b));
    ByteInWord(data, k, j, y, d * Unit(j));
    WordFlipDetected(WordsOf(data), k, d * Unit(j));
  }

  lemma MulAssoc(a: int, b: int, c: int)
    ensures (a * b) * c == a * (b * c)
  {
  }

  /** Powers of two are invertible modulo 2^32 - 1. */
  lemma OddModulus(d: int, k: nat, t: int)
    requires k < 32 && d * Pow2(k) == MODULUS * t
    ensures exists u :: d == MODULUS * u
  {
    var P := Pow2(32 - k);
    PowAdd(k, 32 - k);
    PowersOfTwo();
    MulAssoc(d, Pow2(k), P);
    MulAssoc(MODULUS, t, P);
    assert d * 0x1_0000_0000 == MODULUS * (t * P);
    assert d == MODULUS * (t * P - d);
  }

  lemma CongruentWeights(w: nat, w': nat, d: int, k: nat)
    requires k < 32 && w' == w + d * Pow2(k)
    requires Reduce(w') == Reduce(w)
    requires 0 - MODULUS < d < MODULUS
    ensures d == 0
  {
    ReduceIsRemainder(w);
    ReduceIsRemainder(w');
    assert w' - w == MODULUS * (w' / MODULUS - w / MODULUS);
    OddModulus(d, k, w' / MODULUS - w / MODULUS);
    var u :| d == MODULUS * u;
  }

  lemma SamePlace(k: nat, l: nat)
    requires Pow2(k) == Pow2(l)
    ensures k == l
  {
    if k < l { PowMonotone(k, l); } else if l < k { PowMonotone(l, k); }
  }

  lemma WeightsDiffer(n: int, i: int, j: int, w: int)
    ensures (n - i) * (0 - w) + (n - j) * w == (i - j) * w
  {
  }

  lemma MoveImpossible(sum: nat, weighted: nat, sum': nat, weighted': nat, n: nat, k: nat, l: nat, v: nat, w: nat)
    requires k < n && l < n < MODULUS && v < 32 && w < 32
    requires sum' == sum + (0 - Pow2(v)) + Pow2(w)
    requires weighted' == weighted + Scaled(n - k, 0 - Pow2(v)) + Scaled(n - l, Pow2(w))
    requires Reduce(sum') == Reduce(sum)
    requires Reduce(weighted') == Reduce(weighted)
    ensures k == l && v == w
  {
    PlaceBound(v);
    PlaceBound(w);
    Congruent(sum', sum);
    SamePlace(v, w);
    ScaledIsProduct(n - k, 0 - Pow2(v));
    ScaledIsProduct(n - l, Pow2(v));
    WeightsDiffer(n, k, l, Pow2(v));
    CongruentWeights(weighted, weighted', k - l, v);
  }

  lemma SumsMove(sum: nat, weighted: nat, sum': nat, weighted': nat, n: nat, k: nat, l: nat, v: nat, w: nat)
    requires k < n && l < n < MODULUS && v < 32 && w < 32
    requires sum' == sum + (0 - Pow2(v)) + Pow2(w)
    requires weighted' == weighted + Scaled(n - k, 0 - Pow2(v)) + Scaled(n - l, Pow2(w))
    requires k != l || v != w
    ensures Reduce(sum') != Reduce(sum) || Reduce(weighted') != Reduce(weighted)
  {
    if Reduce(sum') == Reduce(sum) && Reduce(weighted') == Reduce(weighted) {
      MoveImpossible(sum, weighted, sum', weighted', n, k, l, v, w);
    }
  }

  lemma ChangeTwoWords(ws: seq<nat>, k: nat, d: int, l: nat, e: nat, us: seq<nat>, vs: seq<nat>)
    requires k < |ws| && l < |ws| && 0 <= ws[k] + d
    requires us == ws[k := ws[k] + d] && vs == us[l := us[l] + e]
    ensures Sum(vs, |vs|) == Sum(ws, |ws|) + d + e
    ensures Weighted(vs, |vs|) == Weighted(ws, |ws|) + Scaled(|ws| - k, d) + Scaled(|ws| - l, e)
  {
    ChangeOneWord(ws, k, d, us, |ws|);
    ChangeOneWord(us, l, e, vs, |ws|);
  }

  lemma TotalsMove(ws: seq<nat>, vs: seq<nat>, k: nat, v: nat, l: nat, w: nat)
    requires k < |ws| && l < |ws| < MODULUS && v < 32 && w < 32
    requires k != l || v != w
    requires Sum(vs, |vs|) == Sum(ws, |ws|) + (0 - Pow2(v)) + Pow2(w)
    requires Weighted(vs, |vs|) == Weighted(ws, |ws|) + Scaled(|ws| - k, 0 - Pow2(v)) + Scaled(|ws| - l, Pow2(w))
    ensures OfWords(vs) != OfWords(ws)
  {
    SumsMove(Sum(ws, |ws|), Weighted(ws, |ws|), Sum(vs, |vs|), Weighted(vs, |vs|), |ws|, k, l, v, w);
    DifferentChecksum(vs, ws);
  }

  lemma TakeWeight(data: seq<byte>, k: nat, j: nat, b: nat, x: byte)
    requires j < 4 && b < 8 && 4 * k + j < |data| && x - data[4 * k + j] == 0 - Pow2(b)
    ensures 0 <= WordsOf(data)[k] + (0 - Pow2(Place(j, b)))
    ensures WordsOf(data[4 * k + j := x]) == WordsOf(data)[k := WordsOf(data)[k] + (0 - Pow2(Place(j, b)))]
  {
    WeightInWord(0 - Pow2(b), j, b);
    ByteInWord(data, k, j, x, 0 - Pow2(Place(j, b)));
  }

  lemma AddWeight(data: seq<byte>, k: nat, j: nat, b: nat, x: byte)
    requires j < 4 && b < 8 && 4 * k + j < |data| && x - data[4 * k + j] == Pow2(b)
    ensures WordsOf(data[4 * k + j := x]) == WordsOf(data)[k := WordsOf(data)[k] + Pow2(Place(j, b))]
  {
    WeightInWord(Pow2(b), j, b);
    ByteInWord(data, k, j, x, Pow2(Place(j, b)));
  }

  lemma WordMoveDetected(ws: seq<nat>, k: nat, v: nat, l: nat, w: nat, us: seq<nat>, vs: seq<nat>)
    requires k < |ws| && l < |ws| < MODULUS && v < 32 && w < 32
    requires 0 <= ws[k] + (0 - Pow2(v)) && us == ws[k := ws[k] + (0 - Pow2(v))]
    requires vs == us[l := us[l] + Pow2(w)]
    requires k != l || v != w
    ensures OfWords(vs) != OfWords(ws)
  {
    ChangeTwoWords(ws, k, 0 - Pow2(v), l, Pow2(w), us, vs);
    TotalsMove(ws, vs, k, v, l, w);
  }

  /**
   Moving a set bit (bit `b` of byte `j` of word `k`) to any clear position (bit
   `c` of byte `i` of word `l`) changes the checksum of any bitmap of fewer than
   2^32 - 1 words.
   */
  lemma MoveDetected(data: seq<byte>, k: nat, j: nat, b: nat, l: nat, i: nat, c: nat)
    requires j < 4 && b < 8 && 4 * k + j < |data| && Bit(data[4 * k + j], b)
    requires i < 4 && c < 8 && 4 * l + i < |data| && !Bit(data[4 * l + i], c)
    requires WordCount(|data|) < MODULUS
    ensures var mid := data[4 * k + j := ByteWithoutBit(data[4 * k + j], b)];
            Checksum(mid[4 * l + i := ByteWithBit(mid[4 * l + i], c)]) != Checksum(data)
  {
    var p, q := 4 * k + j, 4 * l + i;
    var x := ByteWithoutBit(data[p], b);
    var mid := data[p := x];
    BitWeight(data[p], b);
    StillClear(data, p, b, q, c, mid);
    BitWeight(mid[q], c);
    var y := ByteWithBit(mid[q], c);
    TakeWeight(data, k, j, b, x);
    AddWeight(mid, l, i, c, y);
    WordMoveDetected(WordsOf(data), k, Place(j, b), l, Place(i, c), WordsOf(mid), WordsOf(mid[q := y]));
  }

  lemma StillClear(data: seq<byte>, p: nat, b: nat, q: nat, c: nat, mid: seq<byte>)
    requires p < |data| && b < 8 && mid == data[p := ByteWithoutBit(data[p], b)]
    requires q < |data| && c < 8 && !Bit(data[q], c)
    ensures !Bit(mid[q], c)
  {
    if p == q {
      ClearBitClearsOne(data[p], b, c);
    }
  }
}
