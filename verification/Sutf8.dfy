/**
 SUTF-8, the encoding of names: framed like section 2 of RFC 2279, with 31-bit
 code points, but the four-byte form stops at 0x10FFFF and the five-byte form
 starts at 0x110000.
 */
module Sutf8 {
  import opened Words
  import opened Veils

  /** What decoding one sequence reports: nothing left, malformed, or `n` bytes giving `cp`. */
  datatype Decoded = End | Bad | Char(n: nat, cp: nat)

  const MAX_CP: nat := 0x7FFF_FFEF

  /** The sequence length a lead byte announces; 0 for continuation bytes, 0xFE and 0xFF. */
  function LengthByLead(u: byte): (n: nat)
    ensures n <= 6
  {
    if u < 0x80 then 1
    else if u < 0xC0 then 0
    else if u < 0xE0 then 2
    else if u < 0xF0 then 3
    else if u < 0xF8 then 4
    else if u < 0xFC then 5
    else if u < 0xFE then 6
    else 0
  }

  /** The lead byte that carries a zero payload. */
  function LeadBase(n: nat): nat
    requires 1 <= n <= 6
  {
    if n == 1 then 0 else if n == 2 then 0xC0 else if n == 3 then 0xE0 else if n == 4 then 0xF0 else if n == 5
        then 0xF8 else 0xFC
  }

  function MinCp(n: nat): nat
    requires 1 <= n <= 6
  {
    if n == 1 then 0 else if n == 2 then 0x80 else if n == 3 then 0x800
    else if n == 4 then 0x1_0000 else if n == 5 then 0x11_0000 else 0x400_0000
  }

  function MaxCp(n: nat): nat
    requires 1 <= n <= 6
  {
    if n == 1 then 0x7F else if n == 2 then 0x7FF else if n == 3 then 0xFFFF
    else if n == 4 then 0x10_FFFF else if n == 5 then 0x3FF_FFFF else MAX_CP
  }

  predicate Continuation(b: byte) {
    0x80 <= b < 0xC0
  }

  predicate AllContinuation(t: seq<byte>) {
    forall i :: 0 <= i < |t| ==> Continuation(t[i])
  }

  /** Six more payload bits per continuation byte. */
  function Payload(lead: nat, t: seq<byte>): nat
    requires AllContinuation(t)
  {
    if t == [] then lead else 64 * Payload(lead, t[..|t| - 1]) + (t[|t| - 1] - 0x80)
  }

  /** One sequence from the front of a buffer; overlong, misframed and reserved code points are malformed. */
  function DecodeOne(s: seq<byte>): Decoded {
    if s == [] then End
    else
      var n := LengthByLead(s[0]);
      if n == 0 || |s| < n || !AllContinuation(s[1..n]) then Bad
      else
        var cp := Payload(s[0] - LeadBase(n), s[1..n]);
        if cp < MinCp(n) || MaxCp(n) < cp then Bad else Char(n, cp)
  }

  // ---- the encoder the decoder must undo ----

  function LengthByCp(cp: nat): nat
    requires cp <= MAX_CP
  {
    if cp <= MaxCp(1) then 1 else if cp <= MaxCp(2) then 2 else if cp <= MaxCp(3) then 3
    else if cp <= MaxCp(4) then 4 else if cp <= MaxCp(5) then 5 else 6
  }

  /** What is left of a code point above its last `k` groups of six bits. */
  function High(cp: nat, k: nat): nat {
    if k == 0 then cp else High(cp / 64, k - 1)
  }

  /** The last `k` groups of six bits. */
  function Tail(cp: nat, k: nat): (t: seq<byte>)
    ensures |t| == k && AllContinuation(t)
  {
    if k == 0 then [] else Tail(cp / 64, k - 1) + [0x80 + cp % 64]
  }

  lemma {:induction false} HighBound(cp: nat, k: nat, m: nat)
    requires cp < m * Pow64(k)
    ensures High(cp, k) < m
  {
    if k > 0 {
      assert m * Pow64(k) == 64 * (m * Pow64(k - 1));
      HighBound(cp / 64, k - 1, m);
    }
  }

  function Pow64(k: nat): nat {
    if k == 0 then 1 else 64 * Pow64(k - 1)
  }

  lemma LeadFits(cp: nat)
    requires cp <= MAX_CP
    ensures var n := LengthByCp(cp);
            && LeadBase(n) + High(cp, n - 1) < 0xFE
            && LengthByLead(LeadBase(n) + High(cp, n - 1)) == n
  {
    var n := LengthByCp(cp);
    assert Pow64(0) == 1 && Pow64(1) == 0x40 && Pow64(2) == 0x1000 && Pow64(3) == 0x4_0000 && Pow64(4) == 0x100_0000;
    assert Pow64(5) == 0x4000_0000;
    HighBound(cp, n - 1, if n == 1 then 0x80 else if n == 2 then 32 else if n == 3 then 16 else if n == 4 then 8
        else if n == 5 then 4 else 2);
  }

  function Encode(cp: nat): (s: seq<byte>)
    requires cp <= MAX_CP
    ensures |s| == LengthByCp(cp)
  {
    LeadFits(cp);
    var n := LengthByCp(cp);
    [LeadBase(n) + High(cp, n - 1)] + Tail(cp, n - 1)
  }

  function EncodeAll(cps: seq<nat>): seq<byte>
    requires forall i :: 0 <= i < |cps| ==> cps[i] <= MAX_CP
  {
    if cps == [] then [] else Encode(cps[0]) + EncodeAll(cps[1..])
  }

  // ---- decoder and encoder undo each other ----

  lemma {:induction false} PayloadOfTail(cp: nat, k: nat)
    ensures Payload(High(cp, k), Tail(cp, k)) == cp
  {
    if k > 0 {
      PayloadOfTail(cp / 64, k - 1);
      assert Tail(cp, k)[..k - 1] == Tail(cp / 64, k - 1);
    }
  }

  lemma {:induction false} TailOfPayload(lead: nat, t: seq<byte>)
    requires AllContinuation(t)
    ensures Tail(Payload(lead, t), |t|) == t
    ensures High(Payload(lead, t), |t|) == lead
  {
    if t != [] {
      var t' := t[..|t| - 1];
      TailOfPayload(lead, t');
      assert Payload(lead, t) / 64 == Payload(lead, t');
      assert t == t' + [t[|t| - 1]];
    }
  }

  /** Whatever follows it, an encoded code point decodes to itself and consumes exactly its own bytes. */
  lemma DecodeEncoded(cp: nat, rest: seq<byte>)
    requires cp <= MAX_CP
    ensures DecodeOne(Encode(cp) + rest) == Char(|Encode(cp)|, cp)
  {
    var s := Encode(cp) + rest;
    var n := LengthByCp(cp);
    LeadFits(cp);
    assert s[1..n] == Tail(cp, n - 1);
    PayloadOfTail(cp, n - 1);
  }

  /** Whatever decodes was the one encoding of its code point. */
  lemma DecodedWasEncoded(s: seq<byte>)
    requires DecodeOne(s).Char?
    ensures var d := DecodeOne(s); d.cp <= MAX_CP && 1 <= d.n <= |s| && s[..d.n] == Encode(d.cp)
  {
    var n, cp := DecodeOne(s).n, DecodeOne(s).cp;
    TailOfPayload(s[0] - LeadBase(n), s[1..n]);
    assert LengthByCp(cp) == n;
    assert s[..n] == [s[0]] + s[1..n];
  }

  /** How long an encoding is. */
  lemma EncodedLength(cp: nat)
    requires cp <= 0x7FFF_FFEF
    ensures |Encode(cp)| ==
      if cp < 0x80 then 1 else if cp < 0x800 then 2 else if cp < 0x1_0000 then 3 else if cp < 0x11_0000 then 4
      else if cp < 0x400_0000 then 5 else 6
  {
  }

  lemma TailBytes(cp: nat, k: nat)
    requires k > 0
    ensures Tail(cp, k) == Tail(cp / 64, k - 1) + [0x80 + cp % 64]
  {
  }

  lemma HighTwo(cp: nat)
    ensures High(cp, 0) == cp && High(cp, 1) == cp / 64 && High(cp, 2) == cp / 64 / 64
  {
    assert High(cp / 64, 1) == High(cp / 64 / 64, 0);
  }

  /** The bytes of an encoding: the lead byte tells the length, the others carry six bits each. */
  lemma EncodedBytes(cp: nat)
    requires cp <= 0x7FFF_FFEF
    ensures var (c, d, e) := (cp / 64, cp / 64 / 64, cp / 64 / 64 / 64);
            && (cp < 0x80 ==> Encode(cp) == [cp])
            && (0x80 <= cp < 0x800 ==> Encode(cp) == [0xC0 + c, 0x80 + cp % 64])
            && (0x800 <= cp < 0x1_0000 ==> Encode(cp) == [0xE0 + d, 0x80 + c % 64, 0x80 + cp % 64])
            && (0x1_0000 <= cp < 0x11_0000 ==> Encode(cp) == [0xF0 + e, 0x80 + d % 64, 0x80 + c % 64, 0x80 + cp % 64])
  {
    var (c, d) := (cp / 64, cp / 64 / 64);
    EncodedLength(cp);
    HighTwo(cp);
    HighTwo(c);
    assert High(cp, 3) == High(c, 2);
    TailBytes(cp, 3);
    TailBytes(c, 2);
    TailBytes(d, 1);
    TailBytes(cp, 2);
    TailBytes(c, 1);
    TailBytes(cp, 1);
  }

  lemma EncodedLongBytes(cp: nat)
    requires 0x11_0000 <= cp <= 0x7FFF_FFEF
    ensures var (c, d, e, f) := (cp / 64, cp / 64 / 64, cp / 64 / 64 / 64, cp / 64 / 64 / 64 / 64);
            && (cp < 0x400_0000 ==>
                  Encode(cp) == [0xF8 + f, 0x80 + e % 64, 0x80 + d % 64, 0x80 + c % 64, 0x80 + cp % 64])
            && (0x400_0000 <= cp ==>
                  Encode(cp) == [0xFC + f / 64, 0x80 + f % 64, 0x80 + e % 64, 0x80 + d % 64, 0x80 + c % 64,
                      0x80 + cp % 64])
  {
    var (c, d, e, f) := (cp / 64, cp / 64 / 64, cp / 64 / 64 / 64, cp / 64 / 64 / 64 / 64);
    HighTwo(d);
    HighTwo(e);
    HighTwo(f);
    assert High(cp, 4) == High(c, 3) == High(d, 2) && High(cp, 5) == High(c, 4) == High(d, 3) == High(e, 2);
    TailBytes(cp, 5);
    TailBytes(c, 4);
    TailBytes(d, 3);
    TailBytes(e, 2);
    TailBytes(f, 1);
    TailBytes(cp, 4);
    TailBytes(c, 3);
    TailBytes(d, 2);
    TailBytes(e, 1);
  }

  /** The code points there are. */
  lemma CodePoints(cp: nat)
    ensures (exists s :: DecodeOne(s).Char? && DecodeOne(s).cp == cp) <==> cp <= 0x7FFF_FFEF
  {
    if s :| DecodeOne(s).Char? && DecodeOne(s).cp == cp {
      DecodedWasEncoded(s);
    }
    if cp <= 0x7FFF_FFEF {
      DecodeEncoded(cp, []);
      assert DecodeOne(Encode(cp) + []).Char?;
    }
  }

  // ---- whole names ----

  /** What decoding at the front of a name gives. */
  ghost function Front(s: seq<byte>): (d: Decoded)
    ensures d.Char? ==> 1 <= d.n <= |s| && d.cp <= MAX_CP
  {
    assert IsFront(DecodeOne(s), s);
    var d :| IsFront(d, s);
    assert d.Char? ==> 1 <= d.n <= |s| && d.cp <= MAX_CP by {
      assert Lifted(Decoding, 0);
      if d.Char? {
        DecodedWasEncoded(s);
      }
    }
    d
  }

  ghost predicate IsFront(d: Decoded, s: seq<byte>) {
    forall k {:trigger Lifted(Decoding, k)} :: Lifted(Decoding, k) ==> d == DecodeOne(s)
  }

  lemma FrontOfEncoded(cp: nat, rest: seq<byte>)
    requires cp <= MAX_CP
    ensures Front(Encode(cp) + rest) == Char(|Encode(cp)|, cp)
  {
    assert Lifted(Decoding, 0);
    DecodeEncoded(cp, rest);
  }

  lemma FrontWasEncoded(s: seq<byte>)
    requires Front(s).Char?
    ensures s[..Front(s).n] == Encode(Front(s).cp)
  {
    assert Lifted(Decoding, 0);
    DecodedWasEncoded(s);
  }

  method DecodeFront(s: seq<byte>) returns (d: Decoded)
    ensures d == Front(s)
  {
    assert Lifted(Decoding, 0);
    d := DecodeOne(s);
  }

  ghost predicate Valid(s: seq<byte>) {
    s == [] || (Front(s).Char? && 1 <= Front(s).n <= |s| && Valid(s[Front(s).n..]))
  }

  method Validate(s: seq<byte>) returns (ok: bool)
    ensures ok == Valid(s)
  {
    var pos := 0;
    while pos < |s|
      invariant 0 <= pos <= |s|
      invariant Valid(s) == Valid(s[pos..])
    {
      var d := DecodeFront(s[pos..]);
      if !d.Char? {
        return false;
      }
      FrontWasEncoded(s[pos..]);
      assert s[pos..][d.n..] == s[pos + d.n..];
      pos := pos + d.n;
    }
    return true;
  }

  ghost function DecodeAll(s: seq<byte>): (cps: seq<nat>)
    requires Valid(s)
    ensures forall i :: 0 <= i < |cps| ==> cps[i] <= MAX_CP
  {
    if s == [] then [] else (FrontWasEncoded(s); [Front(s).cp] + DecodeAll(s[Front(s).n..]))
  }

  /** A valid name is the concatenation of the encodings of its code points. */
  lemma {:induction false} ValidIsEncoding(s: seq<byte>)
    requires Valid(s)
    ensures EncodeAll(DecodeAll(s)) == s
  {
    if s != [] {
      var n := Front(s).n;
      FrontWasEncoded(s);
      ValidIsEncoding(s[n..]);
      assert DecodeAll(s)[1..] == DecodeAll(s[n..]);
      assert s == s[..n] + s[n..];
    }
  }

  /** Every concatenation of encodings is a valid name, and decodes to the code points it was made of. */
  lemma {:induction false} EncodingIsValid(cps: seq<nat>)
    requires forall i :: 0 <= i < |cps| ==> cps[i] <= MAX_CP
    ensures Valid(EncodeAll(cps)) && DecodeAll(EncodeAll(cps)) == cps
  {
    if cps != [] {
      var rest := EncodeAll(cps[1..]);
      EncodingIsValid(cps[1..]);
      FrontOfEncoded(cps[0], rest);
      assert EncodeAll(cps)[|Encode(cps[0])|..] == rest;
      assert cps == [cps[0]] + cps[1..];
    }
  }

  // ---- comparing names ----

  /** Compares by code points; a malformed left name sorts first, then a malformed right name last. */
  ghost function NameCmp(a: seq<byte>, b: seq<byte>): int {
    if a == [] || b == [] then (if a != [] then 1 else if b != [] then -1 else 0)
    else
      var x, y := Front(a), Front(b);
      if !x.Char? then -1
      else if !y.Char? then 1
      else if x.cp != y.cp then (if x.cp < y.cp then -1 else 1)
      else (FrontWasEncoded(a); FrontWasEncoded(b); NameCmp(a[x.n..], b[y.n..]))
  }

  method OwNameCmp(a: seq<byte>, b: seq<byte>) returns (r: int)
    ensures r == NameCmp(a, b)
  {
    var pa, pb := 0, 0;
    while pa < |a| && pb < |b|
      invariant 0 <= pa <= |a| && 0 <= pb <= |b|
      invariant NameCmp(a, b) == NameCmp(a[pa..], b[pb..])
      decreases |a| - pa
    {
      var x := DecodeFront(a[pa..]);
      var y := DecodeFront(b[pb..]);
      if !x.Char? || !y.Char? {
        return if !x.Char? then -1 else 1;
      }
      if x.cp != y.cp {
        return if x.cp < y.cp then -1 else 1;
      }
      FrontWasEncoded(a[pa..]);
      FrontWasEncoded(b[pb..]);
      assert a[pa..][x.n..] == a[pa + x.n..] && b[pb..][y.n..] == b[pb + y.n..];
      pa := pa + x.n;
      pb := pb + y.n;
    }
    if pa < |a| { return 1; }
    if pb < |b| { return -1; }
    return 0;
  }

  /** Plain bytewise lexicographic order. */
  function LexCmp(a: seq<byte>, b: seq<byte>): int {
    if a == [] || b == [] then (if a != [] then 1 else if b != [] then -1 else 0)
    else if a[0] != b[0] then (if a[0] < b[0] then -1 else 1)
    else LexCmp(a[1..], b[1..])
  }

  /** The strings differ at `k`, the first is smaller there, and they agree before it. */
  ghost predicate Below(a: seq<byte>, b: seq<byte>, k: nat) {
    k < |a| && k < |b| && a[k] < b[k] && a[..k] == b[..k]
  }

  lemma {:induction false} BelowDecides(a: seq<byte>, b: seq<byte>, k: nat)
    requires Below(a, b, k)
    ensures LexCmp(a, b) == -1 && LexCmp(b, a) == 1
  {
    if k > 0 {
      assert a[0] == a[..k][0] == b[..k][0] == b[0];
      assert a[1..][..k - 1] == a[..k][1..] && b[1..][..k - 1] == b[..k][1..];
      BelowDecides(a[1..], b[1..], k - 1);
    }
  }

  lemma BelowExtends(a: seq<byte>, b: seq<byte>, k: nat, x: seq<byte>, y: seq<byte>)
    requires Below(a, b, k)
    ensures Below(a + x, b + y, k)
  {
    assert (a + x)[..k] == a[..k] && (b + y)[..k] == b[..k];
  }

  lemma {:induction false} TailOrder(p: nat, q: nat, k: nat, u: byte, v: byte) returns (i: nat)
    requires p < q
    requires High(p, k) < High(q, k) ==> u < v
    requires High(p, k) == High(q, k) ==> u == v
    ensures Below([u] + Tail(p, k), [v] + Tail(q, k), i)
  {
    if k == 0 {
      i := 0;
    } else if p / 64 < q / 64 {
      i := TailOrder(p / 64, q / 64, k - 1, u, v);
      BelowExtends([u] + Tail(p / 64, k - 1), [v] + Tail(q / 64, k - 1), i, [0x80 + p % 64], [0x80 + q % 64]);
      assert [u] + Tail(p, k) == [u] + Tail(p / 64, k - 1) + [0x80 + p % 64];
      assert [v] + Tail(q, k) == [v] + Tail(q / 64, k - 1) + [0x80 + q % 64];
    } else {
      i := k;
      assert ([u] + Tail(p, k))[..k] == [u] + Tail(p / 64, k - 1);
      assert ([v] + Tail(q, k))[..k] == [v] + Tail(q / 64, k - 1);
    }
  }

  lemma {:induction false} HighMonotone(p: nat, q: nat, k: nat)
    requires p <= q
    ensures High(p, k) <= High(q, k)
  {
    if k > 0 {
      HighMonotone(p / 64, q / 64, k - 1);
    }
  }

  /** Encoding keeps the order of code points, across all six lengths. */
  lemma EncodeOrder(p: nat, q: nat) returns (i: nat)
    requires p < q <= MAX_CP
    ensures Below(Encode(p), Encode(q), i)
  {
    var m, n := LengthByCp(p), LengthByCp(q);
    if m == n {
      HighMonotone(p, q, n - 1);
      LeadFits(p);
      LeadFits(q);
      i := TailOrder(p, q, n - 1, LeadBase(n) + High(p, n - 1), LeadBase(n) + High(q, n - 1));
    } else {
      assert m < n;
      LeadFits(p);
      LeadFits(q);
      i := 0;
    }
  }

  lemma {:induction false} LexPrefix(p: seq<byte>, a: seq<byte>, b: seq<byte>)
    ensures LexCmp(p + a, p + b) == LexCmp(a, b)
  {
    if p == [] {
      assert p + a == a && p + b == b;
    } else {
      assert (p + a)[1..] == p[1..] + a && (p + b)[1..] == p[1..] + b;
      LexPrefix(p[1..], a, b);
    }
  }

  /** On valid names, comparing code points is comparing bytes. */
  lemma {:induction false} NameCmpIsLexCmp(a: seq<byte>, b: seq<byte>)
    requires Valid(a) && Valid(b)
    ensures NameCmp(a, b) == LexCmp(a, b)
  {
    if a != [] && b != [] {
      var x, y := Front(a), Front(b);
      FrontWasEncoded(a);
      FrontWasEncoded(b);
      assert a == a[..x.n] + a[x.n..] && b == b[..y.n] + b[y.n..];
      if x.cp < y.cp {
        var i := EncodeOrder(x.cp, y.cp);
        BelowExtends(a[..x.n], b[..y.n], i, a[x.n..], b[y.n..]);
        BelowDecides(a, b, i);
      } else if y.cp < x.cp {
        var i := EncodeOrder(y.cp, x.cp);
        BelowExtends(b[..y.n], a[..x.n], i, b[y.n..], a[x.n..]);
        BelowDecides(b, a, i);
      } else {
        LexPrefix(a[..x.n], a[x.n..], b[y.n..]);
        NameCmpIsLexCmp(a[x.n..], b[y.n..]);
      }
    }
  }

  /** For any two byte strings, valid or not: the comparison is zero exactly for equal valid names. */
  lemma {:induction false} NameCmpZero(a: seq<byte>, b: seq<byte>)
    ensures NameCmp(a, b) == 0 <==> a == b && Valid(a)
  {
    if a != [] && b != [] && Front(a).Char? && Front(b).Char? && Front(a).cp == Front(b).cp {
      var n := Front(a).n;
      FrontWasEncoded(a);
      FrontWasEncoded(b);
      NameCmpZero(a[n..], b[n..]);
      assert a == a[..n] + a[n..] && b == b[..n] + b[n..];
    }
  }

  lemma {:induction false} LexAntisymmetric(a: seq<byte>, b: seq<byte>)
    ensures LexCmp(a, b) == -LexCmp(b, a)
    ensures LexCmp(a, b) == 0 ==> a == b
  {
    if a != [] && b != [] && a[0] == b[0] {
      LexAntisymmetric(a[1..], b[1..]);
      assert a == [a[0]] + a[1..] && b == [b[0]] + b[1..];
    }
  }

  lemma {:induction false} LexTransitive(a: seq<byte>, b: seq<byte>, c: seq<byte>)
    requires LexCmp(a, b) <= 0 && LexCmp(b, c) <= 0
    ensures LexCmp(a, c) <= 0
  {
    if a != [] && b != [] && c != [] && a[0] == b[0] == c[0] {
      LexTransitive(a[1..], b[1..], c[1..]);
    }
  }

  /** The comparison is a total order on valid names. */
  lemma NameCmpTotalOrder(a: seq<byte>, b: seq<byte>, c: seq<byte>)
    requires Valid(a) && Valid(b) && Valid(c)
    ensures NameCmp(a, b) == -NameCmp(b, a)
    ensures NameCmp(a, b) == 0 <==> a == b
    ensures NameCmp(a, b) <= 0 && NameCmp(b, c) <= 0 ==> NameCmp(a, c) <= 0
  {
    NameCmpIsLexCmp(a, b);
    NameCmpIsLexCmp(b, a);
    NameCmpIsLexCmp(b, c);
    NameCmpIsLexCmp(a, c);
    NameCmpZero(a, b);
    LexAntisymmetric(a, b);
    if LexCmp(a, b) <= 0 && LexCmp(b, c) <= 0 {
      LexTransitive(a, b, c);
    }
  }
}
