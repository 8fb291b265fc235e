/**
 ChaCha20 on machine words, as section 2 of RFC 8439 writes it: the block function
 with `+`, `^` and rotation on bit vectors.  The block function of the code computes
 the same, and its values on the examples of the RFC are the printed ones.
 */
module ChaChaWords {
  import opened Words
  import opened Veils
  import opened WordBits
  import opened ChaCha20

  function Turn16(d: bv32, a: bv32): bv32 { Left16(Exor(d, a)) }
  function Turn12(b: bv32, c: bv32): bv32 { Left12(Exor(b, c)) }
  function Turn8(d: bv32, a: bv32): bv32 { Left8(Exor(d, a)) }
  function Turn7(b: bv32, c: bv32): bv32 { Left7(Exor(b, c)) }

  datatype Quarter = Quarter(a: bv32, b: bv32, c: bv32, d: bv32)

  /** The first two lines of the quarter round, then the last two. */
  function FirstHalf(q: Quarter): Quarter {
    var a := Add(q.a, q.b);
    var d := Turn16(q.d, a);
    var c := Add(q.c, d);
    Quarter(a, Turn12(q.b, c), c, d)
  }

  function SecondHalf(q: Quarter): Quarter {
    var a := Add(q.a, q.b);
    var d := Turn8(q.d, a);
    var c := Add(q.c, d);
    Quarter(a, Turn7(q.b, c), c, d)
  }

  /** Section 2.1. */
  function QuarterWords(q: Quarter): Quarter {
    SecondHalf(FirstHalf(q))
  }

  lemma AddValue(a: bv32, b: bv32)
    ensures Value(Add(a, b)) == Plus(Value(a), Value(b))
  {
    SumValue(a, b);
  }

  lemma Turn16Value(x: bv32, y: bv32)
    ensures Value(Turn16(x, y)) == Rotl16(XorWord(Value(x), Value(y)))
  {
    XorValue(x, y);
    Left16Value(Exor(x, y));
  }

  lemma Turn12Value(x: bv32, y: bv32)
    ensures Value(Turn12(x, y)) == Rotl12(XorWord(Value(x), Value(y)))
  {
    XorValue(x, y);
    Left12Value(Exor(x, y));
  }

  lemma Turn8Value(x: bv32, y: bv32)
    ensures Value(Turn8(x, y)) == Rotl8(XorWord(Value(x), Value(y)))
  {
    XorValue(x, y);
    Left8Value(Exor(x, y));
  }

  lemma Turn7Value(x: bv32, y: bv32)
    ensures Value(Turn7(x, y)) == Rotl7(XorWord(Value(x), Value(y)))
  {
    XorValue(x, y);
    Left7Value(Exor(x, y));
  }

  /** The code's quarter round takes one column or diagonal to the other. */
  ghost predicate Quartered(s: State, r: State, i: nat, j: nat, k: nat, l: nat)
    requires i < 16 && j < 16 && k < 16 && l < 16
  {
    var b: bool :| forall n {:trigger Lifted(Halving, n)} :: Lifted(Halving, n) ==>
      (b <==> QuarterRound(s[i], s[j], s[k], s[l]) == (r[i], r[j], r[k], r[l]));
    b
  }

  lemma OpenQuartered(s: State, r: State, i: nat, j: nat, k: nat, l: nat)
    requires i < 16 && j < 16 && k < 16 && l < 16
    ensures Quartered(s, r, i, j, k, l) <==> QuarterRound(s[i], s[j], s[k], s[l]) == (r[i], r[j], r[k], r[l])
  {
    assert Lifted(Halving, 0);
  }

  lemma QuarterValue(q: Quarter)
    ensures var r := QuarterWords(q);
            QuarterRound(Value(q.a), Value(q.b), Value(q.c), Value(q.d)) ==
                (Value(r.a), Value(r.b), Value(r.c), Value(r.d))
  {
    var h := FirstHalf(q);
    AddValue(q.a, q.b);
    Turn16Value(q.d, h.a);
    AddValue(q.c, h.d);
    Turn12Value(q.b, h.c);
    var r := SecondHalf(h);
    AddValue(h.a, h.b);
    Turn8Value(h.d, r.a);
    AddValue(h.c, r.d);
    Turn7Value(h.b, r.c);
  }

  // ---- the block ----

  datatype Matrix = Matrix(
    w0: bv32, w1: bv32, w2: bv32, w3: bv32, w4: bv32, w5: bv32, w6: bv32, w7: bv32,
    w8: bv32, w9: bv32, w10: bv32, w11: bv32, w12: bv32, w13: bv32, w14: bv32, w15: bv32)

  function WordAt(m: Matrix, i: nat): bv32 {
    match i
    case 0 => m.w0
    case 1 => m.w1
    case 2 => m.w2
    case 3 => m.w3
    case 4 => m.w4
    case 5 => m.w5
    case 6 => m.w6
    case 7 => m.w7
    case 8 => m.w8
    case 9 => m.w9
    case 10 => m.w10
    case 11 => m.w11
    case 12 => m.w12
    case 13 => m.w13
    case 14 => m.w14
    case _ => m.w15
  }

  ghost function Values(m: Matrix): (s: State)
    ensures forall i :: 0 <= i < 16 ==> s[i] == Value(WordAt(m, i))
  {
    seq(16, i requires 0 <= i < 16 => Value(WordAt(m, i)))
  }

  function Columns(m: Matrix): Matrix {
    var p := QuarterWords(Quarter(m.w0, m.w4, m.w8, m.w12));
    var q := QuarterWords(Quarter(m.w1, m.w5, m.w9, m.w13));
    var r := QuarterWords(Quarter(m.w2, m.w6, m.w10, m.w14));
    var s := QuarterWords(Quarter(m.w3, m.w7, m.w11, m.w15));
    Matrix(p.a, q.a, r.a, s.a, p.b, q.b, r.b, s.b, p.c, q.c, r.c, s.c, p.d, q.d, r.d, s.d)
  }

  function Diagonals(m: Matrix): Matrix {
    var p := QuarterWords(Quarter(m.w0, m.w5, m.w10, m.w15));
    var q := QuarterWords(Quarter(m.w1, m.w6, m.w11, m.w12));
    var r := QuarterWords(Quarter(m.w2, m.w7, m.w8, m.w13));
    var s := QuarterWords(Quarter(m.w3, m.w4, m.w9, m.w14));
    Matrix(p.a, q.a, r.a, s.a, s.b, p.b, q.b, r.b, r.c, s.c, p.c, q.c, q.d, r.d, s.d, p.d)
  }

  /** A round is decided by its quarter rounds. */
  lemma ColumnsAre(s: State, r: State)
    requires Quartered(s, r, 0, 4, 8, 12)
    requires Quartered(s, r, 1, 5, 9, 13)
    requires Quartered(s, r, 2, 6, 10, 14)
    requires Quartered(s, r, 3, 7, 11, 15)
    ensures ColumnRound(s) == r
  {
    OpenQuartered(s, r, 0, 4, 8, 12);
    OpenQuartered(s, r, 1, 5, 9, 13);
    OpenQuartered(s, r, 2, 6, 10, 14);
    OpenQuartered(s, r, 3, 7, 11, 15);
  }

  lemma DiagonalsAre(s: State, r: State)
    requires Quartered(s, r, 0, 5, 10, 15)
    requires Quartered(s, r, 1, 6, 11, 12)
    requires Quartered(s, r, 2, 7, 8, 13)
    requires Quartered(s, r, 3, 4, 9, 14)
    ensures DiagonalRound(s) == r
  {
    OpenQuartered(s, r, 0, 5, 10, 15);
    OpenQuartered(s, r, 1, 6, 11, 12);
    OpenQuartered(s, r, 2, 7, 8, 13);
    OpenQuartered(s, r, 3, 4, 9, 14);
  }

  lemma QuarterIs(q: Quarter, r: Quarter, s: State, s': State, i: nat, j: nat, k: nat, l: nat)
    requires i < 16 && j < 16 && k < 16 && l < 16 && QuarterWords(q) == r
    requires Value(q.a) == s[i] && Value(q.b) == s[j] && Value(q.c) == s[k] && Value(q.d) == s[l]
    requires Value(r.a) == s'[i] && Value(r.b) == s'[j] && Value(r.c) == s'[k] && Value(r.d) == s'[l]
    ensures Quartered(s, s', i, j, k, l)
  {
    QuarterValue(q);
    OpenQuartered(s, s', i, j, k, l);
  }

  lemma Located(m: Matrix, s: State)
    requires s == Values(m)
    ensures s[0] == Value(m.w0) && s[1] == Value(m.w1) && s[2] == Value(m.w2) && s[3] == Value(m.w3)
    ensures s[4] == Value(m.w4) && s[5] == Value(m.w5) && s[6] == Value(m.w6) && s[7] == Value(m.w7)
    ensures s[8] == Value(m.w8) && s[9] == Value(m.w9) && s[10] == Value(m.w10) && s[11] == Value(m.w11)
    ensures s[12] == Value(m.w12) && s[13] == Value(m.w13) && s[14] == Value(m.w14) && s[15] == Value(m.w15)
  {
  }

  lemma ColumnsValue(m: Matrix)
    ensures ColumnRound(Values(m)) == Values(Columns(m))
  {
    var r, s, s' := Columns(m), Values(m), Values(Columns(m));
    Located(m, s);
    Located(r, s');
    QuarterIs(Quarter(m.w0, m.w4, m.w8, m.w12), Quarter(r.w0, r.w4, r.w8, r.w12), s, s', 0, 4, 8, 12);
    QuarterIs(Quarter(m.w1, m.w5, m.w9, m.w13), Quarter(r.w1, r.w5, r.w9, r.w13), s, s', 1, 5, 9, 13);
    QuarterIs(Quarter(m.w2, m.w6, m.w10, m.w14), Quarter(r.w2, r.w6, r.w10, r.w14), s, s', 2, 6, 10, 14);
    QuarterIs(Quarter(m.w3, m.w7, m.w11, m.w15), Quarter(r.w3, r.w7, r.w11, r.w15), s, s', 3, 7, 11, 15);
    ColumnsAre(s, s');
  }

  lemma DiagonalsValue(m: Matrix)
    ensures DiagonalRound(Values(m)) == Values(Diagonals(m))
  {
    var r, s, s' := Diagonals(m), Values(m), Values(Diagonals(m));
    Located(m, s);
    Located(r, s');
    QuarterIs(Quarter(m.w0, m.w5, m.w10, m.w15), Quarter(r.w0, r.w5, r.w10, r.w15), s, s', 0, 5, 10, 15);
    QuarterIs(Quarter(m.w1, m.w6, m.w11, m.w12), Quarter(r.w1, r.w6, r.w11, r.w12), s, s', 1, 6, 11, 12);
    QuarterIs(Quarter(m.w2, m.w7, m.w8, m.w13), Quarter(r.w2, r.w7, r.w8, r.w13), s, s', 2, 7, 8, 13);
    QuarterIs(Quarter(m.w3, m.w4, m.w9, m.w14), Quarter(r.w3, r.w4, r.w9, r.w14), s, s', 3, 4, 9, 14);
    DiagonalsAre(s, s');
  }

  /** `n` double rounds. */
  function Rounds(m: Matrix, n: nat): Matrix {
    if n == 0 then m else Diagonals(Columns(Rounds(m, n - 1)))
  }

  /** One double round, on words and in the code. */
  ghost predicate Steps(p: Matrix, q: Matrix) {
    var b: bool :| forall n {:trigger Lifted(Halving, n)} :: Lifted(Halving, n) ==>
      (b <==> q == Diagonals(Columns(p)) && DiagonalRound(ColumnRound(Values(p))) == Values(q));
    b
  }

  lemma StepIs(p: Matrix, q: Matrix)
    requires Diagonals(Columns(p)) == q
    ensures Steps(p, q)
  {
    ColumnsValue(p);
    DiagonalsValue(Columns(p));
    assert Lifted(Halving, 0);
  }

  lemma StepOf(p: Matrix) returns (q: Matrix)
    ensures Steps(p, q)
  {
    q := Diagonals(Columns(p));
    StepIs(p, q);
  }

  /** `n` double rounds, on words and in the code. */
  ghost predicate Reaches(m: Matrix, q: Matrix, n: nat) {
    var b: bool :| forall k {:trigger Lifted(Halving, k)} :: Lifted(Halving, k) ==>
      (b <==> Rounds(m, n) == q && DoubleRounds(Values(m), n) == Values(q));
    b
  }

  lemma OpenReaches(m: Matrix, q: Matrix, n: nat)
    ensures Reaches(m, q, n) <==> Rounds(m, n) == q && DoubleRounds(Values(m), n) == Values(q)
  {
    assert Lifted(Halving, 0);
  }

  lemma ReachesSelf(m: Matrix)
    ensures Reaches(m, m, 0)
  {
    OpenReaches(m, m, 0);
  }

  lemma ReachesMore(m: Matrix, p: Matrix, q: Matrix, n: nat)
    requires n > 0 && Steps(p, q) && Reaches(m, p, n - 1)
    ensures Reaches(m, q, n)
  {
    assert Lifted(Halving, 0);
  }

  lemma {:induction false} RoundsUpTo(m: Matrix, n: nat) returns (q: Matrix)
    ensures Reaches(m, q, n)
  {
    q := m;
    ReachesSelf(m);
    if n > 0 {
      var p := RoundsUpTo(m, n - 1);
      q := StepOf(p);
      ReachesMore(m, p, q, n);
    }
  }

  /** Every number is that of a word. */
  lemma {:induction false} WordOf(v: u32) returns (x: bv32)
    ensures Value(x) == v
  {
    x := 0;
    if v == 0 {
      ZeroValue();
    } else {
      var y := WordOf(v - 1);
      NextValue(y);
      x := y + 1;
    }
  }

  lemma MatrixOf(s: State) returns (m: Matrix)
    ensures Values(m) == s
  {
    var x0 := WordOf(s[0]);
    var x1 := WordOf(s[1]);
    var x2 := WordOf(s[2]);
    var x3 := WordOf(s[3]);
    var x4 := WordOf(s[4]);
    var x5 := WordOf(s[5]);
    var x6 := WordOf(s[6]);
    var x7 := WordOf(s[7]);
    var x8 := WordOf(s[8]);
    var x9 := WordOf(s[9]);
    var x10 := WordOf(s[10]);
    var x11 := WordOf(s[11]);
    var x12 := WordOf(s[12]);
    var x13 := WordOf(s[13]);
    var x14 := WordOf(s[14]);
    var x15 := WordOf(s[15]);
    m := Matrix(x0, x1, x2, x3, x4, x5, x6, x7, x8, x9, x10, x11, x12, x13, x14, x15);
    Located(m, Values(m));
  }

  lemma {:induction false} SerializedAt(work: State, start: State, n: nat, j: nat)
    requires j < n <= 16
    ensures Serialized(work, start, n)[4 * j..4 * j + 4] == PutLe32(Plus(work[j], start[j]))
  {
    if j < n - 1 {
      SerializedAt(work, start, n - 1, j);
    }
  }

  /** The block function of the code is that of the RFC: the state after ten double rounds plus the state before. */
  lemma BlockValue(counter: u32, key: Key, nonce: Nonce, m: Matrix) returns (q: Matrix)
    requires InitialState(counter, key, nonce) == Values(m)
    ensures Reaches(m, q, 10)
    ensures forall j: nat :: j < 16 ==>
      KeyBlock(counter, key, nonce)[4 * j..4 * j + 4] == PutLe32(Value(Add(WordAt(q, j), WordAt(m, j))))
  {
    q := RoundsUpTo(m, 10);
    forall j: nat | j < 16
      ensures KeyBlock(counter, key, nonce)[4 * j..4 * j + 4] == PutLe32(Value(Add(WordAt(q, j), WordAt(m, j))))
    {
      BlockWord(counter, key, nonce, m, q, j);
    }
  }

  lemma BlockWord(counter: u32, key: Key, nonce: Nonce, m: Matrix, q: Matrix, j: nat)
    requires InitialState(counter, key, nonce) == Values(m) && Reaches(m, q, 10) && j < 16
    ensures KeyBlock(counter, key, nonce)[4 * j..4 * j + 4] == PutLe32(Value(Add(WordAt(q, j), WordAt(m, j))))
  {
    OpenReaches(m, q, 10);
    SerializedAt(Values(q), Values(m), 16, j);
    AddValue(WordAt(q, j), WordAt(m, j));
  }

  // ---- the examples of the RFC ----

  /** Section 2.1.1. */
  lemma QuarterExample()
    ensures QuarterRound(0x1111_1111, 0x0102_0304, 0x9b8d_6f43, 0x0123_4567)
         == (0xea2a_92f4, 0xcb1c_f8ce, 0x4581_472e, 0x5881_c4bb)
  {
    var q := Quarter(0x1111_1111, 0x0102_0304, 0x9b8d_6f43, 0x0123_4567);
    var r := Quarter(0xea2a_92f4, 0xcb1c_f8ce, 0x4581_472e, 0x5881_c4bb);
    assert QuarterWords(q) == r;
    QuarterValue(q);
    QuarterBytes(q);
    QuarterBytes(r);
    assert Bytes(q.a) == 0x1111_1111 && Bytes(q.b) == 0x0102_0304 && Bytes(q.c) == 0x9b8d_6f43;
    assert Bytes(q.d) == 0x0123_4567 && Bytes(r.a) == 0xea2a_92f4 && Bytes(r.b) == 0xcb1c_f8ce;
    assert Bytes(r.c) == 0x4581_472e && Bytes(r.d) == 0x5881_c4bb;
  }

  lemma QuarterBytes(q: Quarter)
    ensures Value(q.a) == Bytes(q.a) && Value(q.b) == Bytes(q.b)
    ensures Value(q.c) == Bytes(q.c) && Value(q.d) == Bytes(q.d)
  {
    ValueBytes(q.a);
    ValueBytes(q.b);
    ValueBytes(q.c);
    ValueBytes(q.d);
  }

  /** Section 2.3.2: the key 00 01 02 ... 1f and the nonce 00 00 00 09 00 00 00 4a 00 00 00 00. */
  const KEY: Key := seq(32, i requires 0 <= i < 32 => i)
  const NONCE: Nonce := [0, 0, 0, 9, 0, 0, 0, 0x4a, 0, 0, 0, 0]

  const START: Matrix := Matrix(
    0x6170_7865, 0x3320_646e, 0x7962_2d32, 0x6b20_6574, 0x0302_0100, 0x0706_0504, 0x0b0a_0908, 0x0f0e_0d0c,
    0x1312_1110, 0x1716_1514, 0x1b1a_1918, 0x1f1e_1d1c, 0x0000_0001, 0x0900_0000, 0x4a00_0000, 0x0000_0000)

  const END: Matrix := Matrix(
    0x8377_78ab, 0xe238_d763, 0xa67a_e21e, 0x5950_bb2f, 0xc4f2_d0c7, 0xfc62_bb2f, 0x8fa0_18fc, 0x3f5e_c7b7,
    0x3352_71c2, 0xf294_89f3, 0xeabd_a8fc, 0x82e4_6ebd, 0xd19c_12b4, 0xb04e_16de, 0x9e83_d0cb, 0x4e3c_50a2)

  const AFTER_1: Matrix := Matrix(
    0xcd52_e917, 0x85ab_03b4, 0xb345_7395, 0xf96d_e7dd, 0xc4b7_cd22, 0x5c2e_187a, 0xc95e_b461, 0x316c_801a,
    0x7bf7_d740, 0x7edd_d644, 0xf1a1_bdf5, 0x7612_46ca, 0x6b0d_58a3, 0x6798_471a, 0xd737_f167, 0xf173_888d)

  const AFTER_2: Matrix := Matrix(
    0xcf1a_7584, 0x0489_27ec, 0x5405_1fda, 0xc244_ff28, 0x901d_2f40, 0x7974_b81c, 0x378d_cfb4, 0xcd47_fd0e,
    0x2daf_b216, 0x27c8_9cd6, 0xcd3c_9aa0, 0x79fc_89c7, 0x10ae_f18d, 0x1621_8765, 0x68f7_6705, 0x04d6_ee22)

  const AFTER_3: Matrix := Matrix(
    0x03a1_4032, 0x66b1_5927, 0x9d6b_6b42, 0xb84c_4109, 0xa714_3ae0, 0xa09b_33dd, 0xa5da_af88, 0x2fd9_1a73,
    0xc90c_6b18, 0x5a20_2413, 0xc20e_01b6, 0x72cd_6b74, 0xba35_d777, 0xb360_f1bf, 0x8178_315b, 0x2cd1_1b1a)

  const AFTER_4: Matrix := Matrix(
    0x9a2d_3589, 0x0b23_fc4e, 0x40af_3b6b, 0xceea_8144, 0x0a1b_ffc6, 0x5e59_93f7, 0x9904_c2e7, 0x0d33_4718,
    0xe46c_6354, 0xc950_3229, 0x04fe_f5aa, 0xf893_3f72, 0x2687_d476, 0x54e6_5231, 0x3594_ffc5, 0x2b3b_b2ca)

  const AFTER_5: Matrix := Matrix(
    0xc533_18c5, 0xca32_5d96, 0x7e7d_11cb, 0x3404_e2ca, 0x26d7_cf73, 0x6088_d379, 0xc0f0_e9bd, 0xe310_cdb9,
    0xae2c_a8db, 0x42f6_7c72, 0x7166_9aca, 0x975c_171d, 0x9e5e_c228, 0x7d85_a9f3, 0x201d_0756, 0x63fa_6953)

  const AFTER_6: Matrix := Matrix(
    0x04a3_131a, 0x6617_6309, 0x0415_bab1, 0x61b8_80a2, 0x36cc_86c7, 0xbf8a_4465, 0xf77d_d720, 0xfc0b_dc90,
    0x07d1_3aca, 0xeb0b_e9af, 0x6159_9491, 0x9185_12dc, 0x33b6_686d, 0x795c_c671, 0xc004_9972, 0xa0a8_1bde)

  const AFTER_7: Matrix := Matrix(
    0x9b70_f51f, 0x7ea8_ac11, 0x21e5_4da9, 0xca39_3b2f, 0x93b0_8686, 0x6a4c_50ae, 0x1921_2a5a, 0x9b03_2958,
    0xd839_165e, 0x4c06_e28a, 0xd3fd_e99e, 0x26ac_c13d, 0xa609_f555, 0x2c24_6549, 0x9515_1853, 0x2c84_7a0d)

  const AFTER_8: Matrix := Matrix(
    0xca5c_85dd, 0x93a4_f90e, 0xd9f0_df58, 0x26dd_82dd, 0x9825_63f8, 0x712a_a9ff, 0x279a_61e8, 0x970f_72bd,
    0x1c25_931a, 0x5180_bb10, 0x779c_27e7, 0x5407_7e08, 0xa9b7_51fb, 0x382f_3ce2, 0x8db1_757d, 0xcc38_080b)

  const AFTER_9: Matrix := Matrix(
    0xb6b8_7de6, 0x9a01_6148, 0x9385_9815, 0x4915_e6cc, 0xdc33_c122, 0x98e1_8fa3, 0x5ffb_e8fc, 0xf715_4b8b,
    0x28c1_fcb3, 0xc4b3_8f9d, 0x83e2_f5d7, 0x7d24_b98b, 0x2107_8b22, 0xb193_e7a3, 0xb2f4_9389, 0x6cde_6026)

  lemma Round1()
    ensures Steps(START, AFTER_1)
  {
    StepIs(START, AFTER_1);
  }

  lemma Round2()
    ensures Steps(AFTER_1, AFTER_2)
  {
    StepIs(AFTER_1, AFTER_2);
  }

  lemma Round3()
    ensures Steps(AFTER_2, AFTER_3)
  {
    StepIs(AFTER_2, AFTER_3);
  }

  lemma Round4()
    ensures Steps(AFTER_3, AFTER_4)
  {
    StepIs(AFTER_3, AFTER_4);
  }

  lemma Round5()
    ensures Steps(AFTER_4, AFTER_5)
  {
    StepIs(AFTER_4, AFTER_5);
  }

  lemma Round6()
    ensures Steps(AFTER_5, AFTER_6)
  {
    StepIs(AFTER_5, AFTER_6);
  }

  lemma Round7()
    ensures Steps(AFTER_6, AFTER_7)
  {
    StepIs(AFTER_6, AFTER_7);
  }

  lemma Round8()
    ensures Steps(AFTER_7, AFTER_8)
  {
    StepIs(AFTER_7, AFTER_8);
  }

  lemma Round9()
    ensures Steps(AFTER_8, AFTER_9)
  {
    StepIs(AFTER_8, AFTER_9);
  }

  lemma Round10()
    ensures Steps(AFTER_9, END)
  {
    StepIs(AFTER_9, END);
  }

  /** Ten double rounds. */
  lemma RoundsExample(n: nat)
    requires n == 10
    ensures Reaches(START, END, n)
  {
    ReachesSelf(START);
    Round1();
    ReachesMore(START, START, AFTER_1, n - 9);
    Round2();
    ReachesMore(START, AFTER_1, AFTER_2, n - 8);
    Round3();
    ReachesMore(START, AFTER_2, AFTER_3, n - 7);
    Round4();
    ReachesMore(START, AFTER_3, AFTER_4, n - 6);
    Round5();
    ReachesMore(START, AFTER_4, AFTER_5, n - 5);
    Round6();
    ReachesMore(START, AFTER_5, AFTER_6, n - 4);
    Round7();
    ReachesMore(START, AFTER_6, AFTER_7, n - 3);
    Round8();
    ReachesMore(START, AFTER_7, AFTER_8, n - 2);
    Round9();
    ReachesMore(START, AFTER_8, AFTER_9, n - 1);
    Round10();
    ReachesMore(START, AFTER_9, END, n);
  }

  /** A word of the example key. */
  lemma KeyWord(j: nat)
    requires j < 8
    ensures Le32(KEY[4 * j..4 * j + 4]) == 0x0302_0100 + 0x0404_0404 * j
  {
  }

  lemma FirstRow()
    ensures Value(START.w0) == 0x6170_7865 && Value(START.w1) == 0x3320_646e
    ensures Value(START.w2) == 0x7962_2d32 && Value(START.w3) == 0x6b20_6574
  {
    assert Value(START.w0) == 0x6170_7865 by { ValueBytes(START.w0); }
    assert Value(START.w1) == 0x3320_646e by { ValueBytes(START.w1); }
    assert Value(START.w2) == 0x7962_2d32 by { ValueBytes(START.w2); }
    assert Value(START.w3) == 0x6b20_6574 by { ValueBytes(START.w3); }
  }

  lemma SecondRow()
    ensures Value(START.w4) == 0x0302_0100 && Value(START.w5) == 0x0706_0504
    ensures Value(START.w6) == 0x0b0a_0908 && Value(START.w7) == 0x0f0e_0d0c
  {
    assert Value(START.w4) == 0x0302_0100 by { ValueBytes(START.w4); }
    assert Value(START.w5) == 0x0706_0504 by { ValueBytes(START.w5); }
    assert Value(START.w6) == 0x0b0a_0908 by { ValueBytes(START.w6); }
    assert Value(START.w7) == 0x0f0e_0d0c by { ValueBytes(START.w7); }
  }

  lemma ThirdRow()
    ensures Value(START.w8) == 0x1312_1110 && Value(START.w9) == 0x1716_1514
    ensures Value(START.w10) == 0x1b1a_1918 && Value(START.w11) == 0x1f1e_1d1c
  {
    assert Value(START.w8) == 0x1312_1110 by { ValueBytes(START.w8); }
    assert Value(START.w9) == 0x1716_1514 by { ValueBytes(START.w9); }
    assert Value(START.w10) == 0x1b1a_1918 by { ValueBytes(START.w10); }
    assert Value(START.w11) == 0x1f1e_1d1c by { ValueBytes(START.w11); }
  }

  lemma LastRow()
    ensures Value(START.w12) == 0x0000_0001 && Value(START.w13) == 0x0900_0000
    ensures Value(START.w14) == 0x4a00_0000 && Value(START.w15) == 0x0000_0000
  {
    assert Value(START.w12) == 0x0000_0001 by { ValueBytes(START.w12); }
    assert Value(START.w13) == 0x0900_0000 by { ValueBytes(START.w13); }
    assert Value(START.w14) == 0x4a00_0000 by { ValueBytes(START.w14); }
    assert Value(START.w15) == 0x0000_0000 by { ValueBytes(START.w15); }
  }

  lemma NonceWords()
    ensures Le32(NONCE[0..4]) == 0x0900_0000 && Le32(NONCE[4..8]) == 0x4a00_0000 && Le32(NONCE[8..12]) == 0
  {
  }

  lemma StartWord(s: State, key: Key, j: nat)
    requires key == KEY && j < 8 && forall j: nat :: j < 8 ==> s[4 + j] == Le32(key[4 * j..4 * j + 4])
    ensures s[4 + j] == 0x0302_0100 + 0x0404_0404 * j
  {
    KeyWord(j);
  }

  /** The words of a starting state for this key and nonce. */
  lemma StartKey(s: State, key: Key)
    requires key == KEY && forall j: nat :: j < 8 ==> s[4 + j] == Le32(key[4 * j..4 * j + 4])
    ensures s[4] == 0x0302_0100 && s[5] == 0x0706_0504 && s[6] == 0x0b0a_0908 && s[7] == 0x0f0e_0d0c
    ensures s[8] == 0x1312_1110 && s[9] == 0x1716_1514 && s[10] == 0x1b1a_1918 && s[11] == 0x1f1e_1d1c
  {
    StartWord(s, key, 0);
    StartWord(s, key, 1);
    StartWord(s, key, 2);
    StartWord(s, key, 3);
    StartWord(s, key, 4);
    StartWord(s, key, 5);
    StartWord(s, key, 6);
    StartWord(s, key, 7);
  }

  lemma StartNonce(s: State, nonce: Nonce)
    requires nonce == NONCE
    requires s[13] == Le32(nonce[0..4]) && s[14] == Le32(nonce[4..8]) && s[15] == Le32(nonce[8..12])
    ensures s[13] == 0x0900_0000 && s[14] == 0x4a00_0000 && s[15] == 0
  {
    NonceWords();
  }

  /** States with the same sixteen words are the same. */
  lemma SameState(s: State, t: State)
    requires s[0] == t[0] && s[1] == t[1] && s[2] == t[2] && s[3] == t[3] && s[4] == t[4] && s[5] == t[5]
    requires s[6] == t[6] && s[7] == t[7] && s[8] == t[8] && s[9] == t[9] && s[10] == t[10] && s[11] == t[11]
    requires s[12] == t[12] && s[13] == t[13] && s[14] == t[14] && s[15] == t[15]
    ensures s == t
  {
  }

  lemma StartIs(counter: u32, key: Key, nonce: Nonce, s: State, v: State)
    requires counter == 1 && key == KEY && nonce == NONCE
    requires s == InitialState(counter, key, nonce) && v == Values(START)
    ensures s == v
  {
    InitialStateIs(counter, key, nonce);
    StartKey(s, key);
    StartNonce(s, nonce);
    Located(START, v);
    FirstRow();
    SecondRow();
    ThirdRow();
    LastRow();
    SameState(s, v);
  }

  function WordIn(b: Pad, j: nat): u32
    requires j < 16
  {
    Le32(b[4 * j..4 * j + 4])
  }

  /** The block from these two states. */
  ghost predicate FromExample(b: Pad) {
    forall j: nat :: j < 16 ==> b[4 * j..4 * j + 4] == PutLe32(Value(Add(WordAt(END, j), WordAt(START, j))))
  }

  lemma BlockNumber(b: Pad, j: nat, x: bv32, y: bv32, n: u32)
    requires FromExample(b) && j < 16 && WordAt(END, j) == x && WordAt(START, j) == y && Bytes(Add(x, y)) == n
    ensures WordIn(b, j) == n
  {
    ValueBytes(Add(x, y));
    Le32RoundTrip(n);
  }

  lemma FirstNumbers(b: Pad)
    requires FromExample(b)
    ensures WordIn(b, 0) == 0xe4e7_f110 && WordIn(b, 1) == 0x1559_3bd1
    ensures WordIn(b, 2) == 0x1fdd_0f50 && WordIn(b, 3) == 0xc471_20a3
  {
    assert WordIn(b, 0) == 0xe4e7_f110 by { BlockNumber(b, 0, 0x8377_78ab, 0x6170_7865, 0xe4e7_f110); }
    assert WordIn(b, 1) == 0x1559_3bd1 by { BlockNumber(b, 1, 0xe238_d763, 0x3320_646e, 0x1559_3bd1); }
    assert WordIn(b, 2) == 0x1fdd_0f50 by { BlockNumber(b, 2, 0xa67a_e21e, 0x7962_2d32, 0x1fdd_0f50); }
    assert WordIn(b, 3) == 0xc471_20a3 by { BlockNumber(b, 3, 0x5950_bb2f, 0x6b20_6574, 0xc471_20a3); }
  }

  lemma SecondNumbers(b: Pad)
    requires FromExample(b)
    ensures WordIn(b, 4) == 0xc7f4_d1c7 && WordIn(b, 5) == 0x0368_c033
    ensures WordIn(b, 6) == 0x9aaa_2204 && WordIn(b, 7) == 0x4e6c_d4c3
  {
    assert WordIn(b, 4) == 0xc7f4_d1c7 by { BlockNumber(b, 4, 0xc4f2_d0c7, 0x0302_0100, 0xc7f4_d1c7); }
    assert WordIn(b, 5) == 0x0368_c033 by { BlockNumber(b, 5, 0xfc62_bb2f, 0x0706_0504, 0x0368_c033); }
    assert WordIn(b, 6) == 0x9aaa_2204 by { BlockNumber(b, 6, 0x8fa0_18fc, 0x0b0a_0908, 0x9aaa_2204); }
    assert WordIn(b, 7) == 0x4e6c_d4c3 by { BlockNumber(b, 7, 0x3f5e_c7b7, 0x0f0e_0d0c, 0x4e6c_d4c3); }
  }

  lemma ThirdNumbers(b: Pad)
    requires FromExample(b)
    ensures WordIn(b, 8) == 0x4664_82d2 && WordIn(b, 9) == 0x09aa_9f07
    ensures WordIn(b, 10) == 0x05d7_c214 && WordIn(b, 11) == 0xa202_8bd9
  {
    assert WordIn(b, 8) == 0x4664_82d2 by { BlockNumber(b, 8, 0x3352_71c2, 0x1312_1110, 0x4664_82d2); }
    assert WordIn(b, 9) == 0x09aa_9f07 by { BlockNumber(b, 9, 0xf294_89f3, 0x1716_1514, 0x09aa_9f07); }
    assert WordIn(b, 10) == 0x05d7_c214 by { BlockNumber(b, 10, 0xeabd_a8fc, 0x1b1a_1918, 0x05d7_c214); }
    assert WordIn(b, 11) == 0xa202_8bd9 by { BlockNumber(b, 11, 0x82e4_6ebd, 0x1f1e_1d1c, 0xa202_8bd9); }
  }

  lemma LastNumbers(b: Pad)
    requires FromExample(b)
    ensures WordIn(b, 12) == 0xd19c_12b5 && WordIn(b, 13) == 0xb94e_16de
    ensures WordIn(b, 14) == 0xe883_d0cb && WordIn(b, 15) == 0x4e3c_50a2
  {
    assert WordIn(b, 12) == 0xd19c_12b5 by { BlockNumber(b, 12, 0xd19c_12b4, 0x0000_0001, 0xd19c_12b5); }
    assert WordIn(b, 13) == 0xb94e_16de by { BlockNumber(b, 13, 0xb04e_16de, 0x0900_0000, 0xb94e_16de); }
    assert WordIn(b, 14) == 0xe883_d0cb by { BlockNumber(b, 14, 0x9e83_d0cb, 0x4a00_0000, 0xe883_d0cb); }
    assert WordIn(b, 15) == 0x4e3c_50a2 by { BlockNumber(b, 15, 0x4e3c_50a2, 0x0000_0000, 0x4e3c_50a2); }
  }

  lemma ExampleBlock(counter: u32, key: Key, nonce: Nonce, b: Pad)
    requires counter == 1 && key == KEY && nonce == NONCE && b == KeyBlock(counter, key, nonce)
    ensures FromExample(b)
  {
    StartIs(counter, key, nonce, InitialState(counter, key, nonce), Values(START));
    RoundsExample(10);
    forall j: nat | j < 16
      ensures b[4 * j..4 * j + 4] == PutLe32(Value(Add(WordAt(END, j), WordAt(START, j))))
    {
      BlockWord(counter, key, nonce, START, END, j);
    }
  }

  /** The keystream block of the example, word by word. */
  lemma BlockExample(counter: u32, key: Key, nonce: Nonce, b: Pad)
    requires counter == 1 && key == KEY && nonce == NONCE && b == KeyBlock(counter, key, nonce)
    ensures WordIn(b, 0) == 0xe4e7_f110 && WordIn(b, 1) == 0x1559_3bd1
    ensures WordIn(b, 2) == 0x1fdd_0f50 && WordIn(b, 3) == 0xc471_20a3
    ensures WordIn(b, 4) == 0xc7f4_d1c7 && WordIn(b, 5) == 0x0368_c033
    ensures WordIn(b, 6) == 0x9aaa_2204 && WordIn(b, 7) == 0x4e6c_d4c3
    ensures WordIn(b, 8) == 0x4664_82d2 && WordIn(b, 9) == 0x09aa_9f07
    ensures WordIn(b, 10) == 0x05d7_c214 && WordIn(b, 11) == 0xa202_8bd9
    ensures WordIn(b, 12) == 0xd19c_12b5 && WordIn(b, 13) == 0xb94e_16de
    ensures WordIn(b, 14) == 0xe883_d0cb && WordIn(b, 15) == 0x4e3c_50a2
  {
    ExampleBlock(counter, key, nonce, b);
    FirstNumbers(b);
    SecondNumbers(b);
    ThirdNumbers(b);
    LastNumbers(b);
  }
}
