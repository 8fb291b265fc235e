/**
 Packed records: a record is the concatenation of its fields, and is taken apart
 again by the fields' widths.
 */
module Records {
  import opened Words

  function Flat(fields: seq<seq<byte>>): seq<byte> {
    if fields == [] then [] else fields[0] + Flat(fields[1..])
  }

  function Total(widths: seq<nat>): nat {
    if widths == [] then 0 else widths[0] + Total(widths[1..])
  }

  ghost predicate Fits(fields: seq<seq<byte>>, widths: seq<nat>) {
    |fields| == |widths| && forall k :: 0 <= k < |fields| ==> |fields[k]| == widths[k]
  }

  function Split(record: seq<byte>, widths: seq<nat>): (fields: seq<seq<byte>>)
    requires |record| == Total(widths)
    ensures |fields| == |widths|
    ensures forall k :: 0 <= k < |fields| ==> |fields[k]| == widths[k]
    decreases |widths|
  {
    if widths == [] then [] else [record[..widths[0]]] + Split(record[widths[0]..], widths[1..])
  }

  lemma {:induction false} FlatLength(fields: seq<seq<byte>>, widths: seq<nat>)
    requires Fits(fields, widths)
    ensures |Flat(fields)| == Total(widths)
  {
    if fields != [] {
      FlatLength(fields[1..], widths[1..]);
    }
  }

  /** Taking a record apart gives back the fields it was put together from. */
  lemma {:induction false} SplitFlat(fields: seq<seq<byte>>, widths: seq<nat>)
    requires Fits(fields, widths)
    ensures |Flat(fields)| == Total(widths)
    ensures Split(Flat(fields), widths) == fields
  {
    FlatLength(fields, widths);
    if fields != [] {
      SplitFlat(fields[1..], widths[1..]);
      assert Flat(fields)[..widths[0]] == fields[0];
      assert Flat(fields)[widths[0]..] == Flat(fields[1..]);
    }
  }

  lemma {:induction false} TotalMore(widths: seq<nat>, k: nat)
    requires k < |widths|
    ensures Total(widths[..k + 1]) == Total(widths[..k]) + widths[k]
  {
    if k == 0 {
      assert widths[..1][1..] == [];
    } else {
      TotalMore(widths[1..], k - 1);
      assert widths[..k + 1][1..] == widths[1..][..k] && widths[..k][1..] == widths[1..][..k - 1];
    }
  }

  lemma {:induction false} SplitAt(record: seq<byte>, widths: seq<nat>, k: nat)
    requires |record| == Total(widths) && k < |widths|
    ensures Total(widths[..k]) + widths[k] <= |record|
    ensures Split(record, widths)[k] == record[Total(widths[..k])..Total(widths[..k]) + widths[k]]
    decreases |widths|
  {
    if k > 0 {
      SplitAt(record[widths[0]..], widths[1..], k - 1);
      assert widths[..k][1..] == widths[1..][..k - 1];
      Deeper(record, widths[0], Total(widths[1..][..k - 1]), widths[k]);
    }
  }

  lemma Deeper(record: seq<byte>, w: nat, at: nat, n: nat)
    requires w + at + n <= |record|
    ensures record[w..][at..at + n] == record[w + at..w + at + n]
  {
  }

  /** Field `k` of a record lies behind the fields before it. */
  lemma FieldAt(record: seq<byte>, widths: seq<nat>, k: nat, at: nat) returns (next: nat)
    requires |record| == Total(widths) && k < |widths| && at == Total(widths[..k])
    ensures next == at + widths[k] <= |record| && next == Total(widths[..k + 1])
    ensures Split(record, widths)[k] == record[at..next]
  {
    SplitAt(record, widths, k);
    TotalMore(widths, k);
    next := at + widths[k];
  }

  lemma {:induction false} GetAllAt(r: seq<byte>, n: nat, k: nat)
    requires |r| == 4 * n && k < n
    ensures GetAll(r, n)[k] == Le32(r[4 * k..4 * k + 4])
    decreases n
  {
    if k > 0 {
      GetAllAt(r[4..], n - 1, k - 1);
      Deeper(r, 4, 4 * (k - 1), 4);
    }
  }

  /** Fields of zeros make a record of zeros. */
  lemma {:induction false} FlatZeros(fields: seq<seq<byte>>, widths: seq<nat>)
    requires |fields| == |widths|
    requires forall k :: 0 <= k < |fields| ==> fields[k] == Zeros(widths[k])
    ensures Flat(fields) == Zeros(Total(widths))
  {
    if fields != [] {
      FlatZeros(fields[1..], widths[1..]);
    }
  }

  lemma PutLe32Zero(n: u32)
    requires n == 0
    ensures PutLe32(n) == Zeros(4)
  {
  }

  // ---- arrays of pointers ----

  function PutAll(ps: seq<u32>): (r: seq<byte>)
    ensures |r| == 4 * |ps|
  {
    if ps == [] then [] else PutLe32(ps[0]) + PutAll(ps[1..])
  }

  function GetAll(r: seq<byte>, n: nat): (ps: seq<u32>)
    requires |r| == 4 * n
    ensures |ps| == n
    decreases n
  {
    if n == 0 then [] else [Le32(r[..4])] + GetAll(r[4..], n - 1)
  }

  lemma {:induction false} GetPutAll(ps: seq<u32>)
    ensures GetAll(PutAll(ps), |ps|) == ps
  {
    if ps != [] {
      GetPutAll(ps[1..]);
      Le32RoundTrip(ps[0]);
      assert PutAll(ps)[..4] == PutLe32(ps[0]);
      assert PutAll(ps)[4..] == PutAll(ps[1..]);
    }
  }

  /** The bytes before, of and after number `k`. */
  lemma {:induction false} PutGetAll(r: seq<byte>, n: nat)
    requires |r| == 4 * n
    ensures PutAll(GetAll(r, n)) == r
    decreases n
  {
    if n > 0 {
      PutLoaded(r[..4]);
      PutGetAll(r[4..], n - 1);
    }
  }

  lemma {:induction false} PutAllAround(ps: seq<u32>, k: nat)
    requires k < |ps|
    ensures PutAll(ps) == PutAll(ps[..k]) + PutLe32(ps[k]) + PutAll(ps[k + 1..])
  {
    if k > 0 {
      PutAllAround(ps[1..], k - 1);
      assert ps[..k][1..] == ps[1..][..k - 1] && ps[1..][k..] == ps[k + 1..];
    }
  }

  lemma PutAllAt(ps: seq<u32>, k: nat)
    requires k < |ps|
    ensures PutAll(ps)[4 * k..4 * k + 4] == PutLe32(ps[k])
  {
    PutAllAround(ps, k);
  }

  // ---- pointer tables and slots inside a block ----

  /** Pointer `e` of an indirect block. */
  function PtrAt(b: Block, e: nat): u32
    requires e < 1024
  {
    Le32(b[4 * e..4 * e + 4])
  }

  function WithPtr(b: Block, e: nat, p: u32): Block
    requires e < 1024
  {
    b[..4 * e] + PutLe32(p) + b[4 * e + 4..]
  }

  /** Storing a pointer changes that pointer and no other. */
  lemma WithPtrAt(b: Block, e: nat, p: u32, k: nat)
    requires e < 1024 && k < 1024
    ensures PtrAt(WithPtr(b, e, p), k) == if k == e then p else PtrAt(b, k)
  {
    var w := WithPtr(b, e, p);
    if k == e {
      assert w[4 * e..4 * e + 4] == PutLe32(p);
      Le32RoundTrip(p);
    } else {
      assert w[4 * k..4 * k + 4] == b[4 * k..4 * k + 4];
    }
  }

  /** Slot `s` of sixteen 256-byte records. */
  function SlotAt(b: Block, s: nat): (r: seq<byte>)
    requires s < 16
    ensures |r| == 256
  {
    b[256 * s..256 * s + 256]
  }

  function WithSlot(b: Block, s: nat, r: seq<byte>): Block
    requires s < 16 && |r| == 256
  {
    b[..256 * s] + r + b[256 * s + 256..]
  }

  /** Storing a record changes that slot and no other. */
  lemma WithSlotAt(b: Block, s: nat, r: seq<byte>, k: nat)
    requires s < 16 && k < 16 && |r| == 256
    ensures SlotAt(WithSlot(b, s, r), k) == if k == s then r else SlotAt(b, k)
  {
    var w := WithSlot(b, s, r);
    if k == s {
      assert w[256 * s..256 * s + 256] == r;
    } else {
      assert w[256 * k..256 * k + 256] == b[256 * k..256 * k + 256];
    }
  }

  lemma ZeroSlot(s: nat)
    requires s < 16
    ensures SlotAt(ZeroBlock(), s) == Zeros(256)
  {
  }

  /** The record in slot `i` of a table that begins at block `start`. */
  function SlotBytes(blocks: seq<Block>, start: nat, i: nat): (r: seq<byte>)
    ensures |r| == 256
  {
    if start + i / 16 < |blocks| then SlotAt(blocks[start + i / 16], i % 16) else Zeros(256)
  }
}
