/**
 Mounting, unmounting, marking, syncing and checking a volume: the superblock in
 memory against the superblock on the device.
 */
module OwfsSync {
  import opened Words
  import opened Records
  import opened Bitmap
  import opened Veils
  import opened Splice
  import opened Fletcher64
  import opened OwfsTypes
  import opened OwfsVolume
  import opened OwfsBitmap
  import opened OwfsState
  import Crc32c

  // ---- the superblock in memory and on the device ----

  /** The superblock in memory, as a record. */
  function Super(v: Volume): Superblock
    reads v
  {
    SuperRecord(v.id, v.geo, v.freeBlocks, v.freeInodes, v.mountCount, v.state, v.sum1, v.sum2, v.security, v.checksum)
  }

  /** Magic number, block size and checksum are right. */
  ghost predicate Authentic(s: Superblock) {
    var r: bool :| forall k {:trigger Lifted(Header, k)} :: Lifted(Header, k) ==> (r <==> AuthenticInFull(s));
    r
  }

  ghost predicate AuthenticInFull(s: Superblock) {
    SuperValid(s)
  }

  lemma OpenAuthentic(s: Superblock)
    ensures Authentic(s) <==> AuthenticInFull(s)
  {
    assert Lifted(Header, 0);
  }

  /** What block 16 holds. */
  ghost function SuperIn(b: Block): Superblock {
    assert IsSuperIn(DecodeSuper(b), b);
    var r: Superblock :| IsSuperIn(r, b);
    r
  }

  ghost predicate IsSuperIn(s: Superblock, b: Block) {
    forall k {:trigger Lifted(Header, k)} :: Lifted(Header, k) ==> s == DecodeSuper(b)
  }

  ghost function OnDisk(v: Volume): Superblock
    reads v
    requires |v.blocks| > 16
  {
    SuperIn(v.blocks[16])
  }

  /** The device has its superblock and the regions the superblock tells of. */
  ghost predicate Fits(v: Volume)
    reads v
  {
    Laid(v.geo) && v.geo.totalBlocks <= |v.blocks|
  }

  predicate Identified(v: Volume)
    reads v
  {
    v.id.magic == MAGIC && v.id.blockSize == 4096
  }

  method Seal(s: Superblock) returns (t: Superblock, b: Block)
    ensures t == s.(checksum := t.checksum) && SuperIn(b) == t
    ensures s.id.magic == MAGIC && s.id.blockSize == 4096 <==> Authentic(t)
  {
    assert Lifted(Header, 0);
    t := SealSuper(s);
    b := EncodeSuper(t);
    SealSuperValid(s);
    SuperRoundTrip(t);
  }

  lemma SuperblockAside(blocks: seq<Block>, g: Geometry, fs: FS, buf: Block)
    requires Laid(g) && Stored(blocks, g, fs) && |blocks| > 16
    ensures Stored(blocks[16 := buf], g, fs)
  {
    OpenStored(blocks, g, fs);
    var after := blocks[16 := buf];
    forall r: nat | r < g.totalBlocks - g.dataStart
      ensures Marked(after, r) <==> g.dataStart + r in fs.used
    {
      assert Marked(after, r) == Marked(blocks, r);
    }
    forall i: nat | i < 4096
      ensures SlotBytes(after, g.inodeStart, i) == EncodeInode(fs.table[i])
    {
      assert SlotBytes(after, g.inodeStart, i) == SlotBytes(blocks, g.inodeStart, i);
    }
    forall b | InData(g, b)
      ensures fs.data[b] == after[b]
    {
      assert after[b] == blocks[b];
    }
    OpenStored(after, g, fs);
  }

  /** Recomputes the checksum and writes the superblock; nothing else on the device changes. */
  method SuperWrite(v: Volume) returns (st: Status)
    requires |v.blocks| > 16
    modifies v`blocks, v`checksum
    ensures |v.blocks| == |old(v.blocks)|
    ensures forall b :: 0 <= b < |v.blocks| && b != 16 ==> v.blocks[b] == old(v.blocks)[b]
    ensures old(v.Represents()) ==> v.Represents()
    ensures Identified(v) <==> Authentic(Super(v))
    ensures st == Ok ==> OnDisk(v) == Super(v)
    ensures st != Ok ==> v.blocks == old(v.blocks)
    ensures v.healthy ==> st == Ok
  {
    var t, b := Seal(Super(v));
    v.checksum := t.checksum;
    var hres := v.WriteBlock(16, b);
    if hres != HtlOk {
      return WriteStatus(hres);
    }
    if old(v.Represents()) {
      SuperblockAside(old(v.blocks), v.geo, v.fs, b);
    }
    return Ok;
  }

  /** The flags on the device and in memory. */
  ghost function Observed(v: Volume): Machine
    reads v
    requires |v.blocks| > 16
  {
    Machine(OnDisk(v).state, Held(v.state, false))
  }

  // ---- marking, unmounting, syncing ----

  method MarkVolumeDirty(v: Volume) returns (st: Status)
    requires |v.blocks| > 16
    modifies v`blocks, v`checksum, v`state
    ensures |v.blocks| == |old(v.blocks)|
    ensures old(v.Represents()) ==> v.Represents()
    ensures old(v.Valid()) ==> v.Valid()
    ensures v.healthy ==> st == Answer(old(Observed(v)), MarkDirty) && Observed(v) == After(old(Observed(v)), MarkDirty)
    ensures v.healthy ==> st == Ok && v.state == old(v.state).(dirty := true) && OnDisk(v).state == v.state
    ensures v.healthy ==> OnDisk(v) == Super(v) && (Identified(v) <==> Authentic(Super(v)))
  {
    v.state := v.state.(dirty := true);
    st := SuperWrite(v);
  }

  method MarkVolumeClean(v: Volume) returns (st: Status)
    requires |v.blocks| > 16
    modifies v`blocks, v`checksum, v`state
    ensures |v.blocks| == |old(v.blocks)|
    ensures old(v.Represents()) ==> v.Represents()
    ensures old(v.Valid()) ==> v.Valid()
    ensures v.healthy ==> st == Answer(old(Observed(v)), MarkClean) && Observed(v) == After(old(Observed(v)), MarkClean)
    ensures v.healthy && !old(v.state).error ==>
      st == Ok && v.state == old(v.state).(dirty := false, locked := false) && OnDisk(v).state == v.state
    ensures old(v.state).error ==> st == ChecksumMismatch && v.blocks == old(v.blocks) && v.state == old(v.state)
    ensures v.healthy && st == Ok ==> OnDisk(v) == Super(v) && (Identified(v) <==> Authentic(Super(v)))
  {
    if v.state.error {
      return ChecksumMismatch;
    }
    st := WriteSettled(v);
  }

  method UnmountVolume(v: Volume) returns (st: Status)
    requires |v.blocks| > 16
    modifies v`blocks, v`checksum, v`state
    ensures |v.blocks| == |old(v.blocks)|
    ensures old(v.Represents()) ==> v.Represents()
    ensures old(v.Valid()) ==> v.Valid()
    ensures v.healthy ==> st == Answer(old(Observed(v)), Unmount) && Observed(v) == After(old(Observed(v)), Unmount)
    ensures v.healthy && !old(v.state).error ==>
      st == Ok && v.state == old(v.state).(dirty := false, locked := false) && OnDisk(v).state == v.state
    ensures old(v.state).error ==> st == ChecksumMismatch && v.blocks == old(v.blocks) && v.state == old(v.state)
    ensures v.healthy && st == Ok ==> OnDisk(v) == Super(v) && (Identified(v) <==> Authentic(Super(v)))
  {
    if v.state.error {
      return ChecksumMismatch;
    }
    st := WriteSettled(v);
  }

  method WriteSettled(v: Volume) returns (st: Status)
    requires |v.blocks| > 16
    modifies v`blocks, v`checksum, v`state
    ensures |v.blocks| == |old(v.blocks)|
    ensures forall b :: 0 <= b < |v.blocks| && b != 16 ==> v.blocks[b] == old(v.blocks)[b]
    ensures old(v.Represents()) ==> v.Represents()
    ensures Identified(v) <==> Authentic(Super(v))
    ensures v.healthy ==> st == Ok && Observed(v) == Written(Settled(old(v.state))) && OnDisk(v) == Super(v)
  {
    v.state := v.state.(dirty := false, locked := false);
    st := SuperWrite(v);
    if st != Ok {
      return;
    }
    var hres := v.Flush();
    return if hres == HtlOk then Ok else IoError;
  }

  /** The stored bitmap checksum is that of the bitmap on the device. */
  ghost predicate Summed(v: Volume)
    reads v
  {
    SumOf(v.blocks, v.geo.bitmapBlocks, Sums(v.sum1, v.sum2))
  }

  ghost predicate SumOf(blocks: seq<Block>, n: nat, s: Sums) {
    var r: bool :| forall k {:trigger Lifted(Recount, k)} :: Lifted(Recount, k) ==> (r <==> SumOfInFull(blocks, n, s));
    r
  }

  ghost predicate SumOfInFull(blocks: seq<Block>, n: nat, s: Sums) {
    s == Checksum(Flatten(BitmapOf(blocks, n)))
  }

  lemma OpenSumOf(blocks: seq<Block>, n: nat, s: Sums)
    ensures SumOf(blocks, n, s) <==> SumOfInFull(blocks, n, s)
  {
    assert Lifted(Recount, 0);
  }

  lemma SameSum(blocks: seq<Block>, blocks': seq<Block>, n: nat, s: Sums)
    requires |blocks'| == |blocks| && forall b :: 0 <= b < |blocks| && b != 16 ==> blocks'[b] == blocks[b]
    ensures SumOf(blocks', n, s) <==> SumOf(blocks, n, s)
  {
    assert Lifted(Recount, 0);
    assert BitmapOf(blocks', n) == BitmapOf(blocks, n);
  }

  method StoredSum(v: Volume) returns (s: Sums)
    requires Fits(v)
    ensures s.s1 < MODULUS && s.s2 < MODULUS
    ensures v.healthy ==> forall t :: SumOf(v.blocks, v.geo.bitmapBlocks, t) <==> s == t
  {
    assert Lifted(Recount, 0);
    s := ComputeFletcher(v);
  }

  /** Records the bitmap's checksum and writes the superblock, settled. */
  method SyncChanges(v: Volume) returns (st: Status)
    requires Fits(v)
    modifies v`blocks, v`checksum, v`state, v`sum1, v`sum2
    ensures |v.blocks| == |old(v.blocks)|
    ensures old(v.Represents()) ==> v.Represents()
    ensures v.healthy ==> st == Answer(old(Observed(v)), Sync) && Observed(v) == After(old(Observed(v)), Sync)
    ensures v.healthy ==>
      st == Ok && v.state == old(v.state).(dirty := false, locked := false) && OnDisk(v).state == v.state
    ensures v.healthy ==> Summed(v) && OnDisk(v) == Super(v) && (Identified(v) <==> Authentic(Super(v)))
  {
    var s := StoredSum(v);
    v.sum1, v.sum2 := s.s1, s.s2;
    st := WriteSettled(v);
    SameSum(old(v.blocks), v.blocks, v.geo.bitmapBlocks, s);
  }

  // ---- what the stored checksum sees ----

  /** The byte of the bitmap that holds bit `r`. */
  function BytePosition(r: nat): nat {
    4096 * (r / 32768) + r % 32768 / 8
  }

  lemma BitmapByte(blocks: seq<Block>, n: nat, r: nat, x: byte)
    requires 17 + n <= |blocks| && r / 32768 < n
    ensures Flatten(BitmapOf(WithByte(blocks, r, x), n)) ==
        Flatten(BitmapOf(blocks, n))[BytePosition(r) := x]
  {
    var k, at := r / 32768, r % 32768 / 8;
    var bitmap := BitmapOf(blocks, n);
    FlattenByte(bitmap, k, at, x);
    assert BitmapOf(WithByte(blocks, r, x), n) == bitmap[k := bitmap[k][at := x]];
  }

  /** Setting or clearing any one bit of the bitmap makes its stored checksum stale: the check will find it. */
  lemma FlipMakesStale(blocks: seq<Block>, n: nat, r: nat, s: Sums)
    requires 17 + n <= |blocks| && r / 32768 < n && SumOf(blocks, n, s)
    ensures !SumOf(WithByte(blocks, r, Flipped(ByteOfBit(blocks, r), r % 8)), n, s)
  {
    FlippedBytes(blocks, n, r, BytePosition(r));
    FlippedSum(Flatten(BitmapOf(blocks, n)), BytePosition(r), r % 8);
    Stale(blocks, WithByte(blocks, r, Flipped(ByteOfBit(blocks, r), r % 8)), n, s);
  }

  lemma FlippedSum(bytes: seq<byte>, p: nat, b: nat)
    requires p < |bytes| && b < 8
    ensures Checksum(bytes[p := Flipped(bytes[p], b)]) != Checksum(bytes)
  {
    FlipDetected(bytes, p / 4, p % 4, b);
  }

  lemma FlippedBytes(blocks: seq<Block>, n: nat, r: nat, p: nat)
    requires 17 + n <= |blocks| && r / 32768 < n && p == BytePosition(r)
    ensures var bytes := Flatten(BitmapOf(blocks, n));
            && p < |bytes|
            && Flatten(BitmapOf(WithByte(blocks, r, Flipped(ByteOfBit(blocks, r), r % 8)), n)) ==
                   bytes[p := Flipped(bytes[p], r % 8)]
  {
    BitmapByteAt(blocks, n, r);
    BitmapByte(blocks, n, r, Flipped(ByteOfBit(blocks, r), r % 8));
  }

  /** So does freeing one block and allocating another. */
  lemma MoveMakesStale(blocks: seq<Block>, n: nat, r: nat, q: nat, s: Sums)
    requires 17 + n <= |blocks| && 1024 * n < MODULUS && r / 32768 < n && q / 32768 < n && SumOf(blocks, n, s)
    requires Marked(blocks, r) && !Marked(blocks, q)
    ensures var freed := WithByte(blocks, r, ByteWithoutBit(ByteOfBit(blocks, r), r % 8));
            !SumOf(WithByte(freed, q, ByteWithBit(ByteOfBit(freed, q), q % 8)), n, s)
  {
    var freed := WithByte(blocks, r, ByteWithoutBit(ByteOfBit(blocks, r), r % 8));
    MovedBytes(blocks, n, r, q, BytePosition(r), BytePosition(q));
    MovedSum(Flatten(BitmapOf(blocks, n)), n, BytePosition(r), r % 8, BytePosition(q), q % 8);
    Stale(blocks, WithByte(freed, q, ByteWithBit(ByteOfBit(freed, q), q % 8)), n, s);
  }

  lemma MovedSum(bytes: seq<byte>, n: nat, p: nat, b: nat, q: nat, c: nat)
    requires |bytes| == 4096 * n && 1024 * n < MODULUS && p < |bytes| && q < |bytes| && b < 8 && c < 8
    requires Bit(bytes[p], b) && !Bit(bytes[q], c)
    ensures var mid := bytes[p := ByteWithoutBit(bytes[p], b)];
            Checksum(mid[q := ByteWithBit(mid[q], c)]) != Checksum(bytes)
  {
    MoveDetected(bytes, p / 4, p % 4, b, q / 4, q % 4, c);
  }

  lemma Stale(blocks: seq<Block>, blocks': seq<Block>, n: nat, s: Sums)
    requires SumOf(blocks, n, s) && Checksum(Flatten(BitmapOf(blocks', n))) != Checksum(Flatten(BitmapOf(blocks, n)))
    ensures !SumOf(blocks', n, s)
  {
    OpenSumOf(blocks, n, s);
    OpenSumOf(blocks', n, s);
  }

  lemma MovedBytes(blocks: seq<Block>, n: nat, r: nat, q: nat, p: nat, p': nat)
    requires 17 + n <= |blocks| && r / 32768 < n && q / 32768 < n && Marked(blocks, r) && !Marked(blocks, q)
    requires p == BytePosition(r) && p' == BytePosition(q)
    ensures var bytes := Flatten(BitmapOf(blocks, n));
            var freed := WithByte(blocks, r, ByteWithoutBit(ByteOfBit(blocks, r), r % 8));
            var mid := bytes[p := ByteWithoutBit(bytes[p], r % 8)];
            && p < |bytes| == 4096 * n && p' < |bytes|
            && Bit(bytes[p], r % 8) && !Bit(bytes[p'], q % 8)
            && Flatten(BitmapOf(WithByte(freed, q, ByteWithBit(ByteOfBit(freed, q), q % 8)), n)) ==
                   mid[p' := ByteWithBit(mid[p'], q % 8)]
  {
    var freed := WithByte(blocks, r, ByteWithoutBit(ByteOfBit(blocks, r), r % 8));
    BitmapByteAt(blocks, n, r);
    BitmapByteAt(blocks, n, q);
    BitmapByteAt(freed, n, q);
    BitmapByte(blocks, n, r, ByteWithoutBit(ByteOfBit(blocks, r), r % 8));
    BitmapByte(freed, n, q, ByteWithBit(ByteOfBit(freed, q), q % 8));
  }

  lemma BitmapByteAt(blocks: seq<Block>, n: nat, r: nat)
    requires 17 + n <= |blocks| && r / 32768 < n
    ensures ByteOfBit(blocks, r) == Flatten(BitmapOf(blocks, n))[BytePosition(r)]
  {
    var k, at := r / 32768, r % 32768 / 8;
    var bytes := Flatten(BitmapOf(blocks, n));
    FlattenParts(BitmapOf(blocks, n), k);
    assert bytes[4096 * k..4096 * k + 4096][at] == bytes[4096 * k + at];
  }

  // ---- the consistency check ----

  /** How many of the first `n` inode slots are in use with a checksum that does not verify. */
  ghost function BadSlots(blocks: seq<Block>, start: nat, n: nat): nat {
    if n == 0 then 0 else BadSlots(blocks, start, n - 1) + One(BadAt(blocks, start, n - 1))
  }

  /** Slot `i` is in use with a checksum that does not verify. */
  ghost predicate BadAt(blocks: seq<Block>, start: nat, i: nat) {
    var r: bool :| forall k {:trigger Lifted(Slot, k)} :: Lifted(Slot, k) ==>
      (r <==> SlotBad(SlotBytes(blocks, start, i)));
    r
  }

  lemma OpenBadAt(blocks: seq<Block>, start: nat, i: nat)
    ensures BadAt(blocks, start, i) <==> SlotBad(SlotBytes(blocks, start, i))
  {
    assert Lifted(Slot, 0);
  }

  /** What the scan finds: bad inode slots, a bitmap checksum that does not match, a free count that is off. */
  ghost function Findings(v: Volume): nat
    reads v
    requires Fits(v)
  {
    FindingsIn(v.blocks, v.geo, Sums(v.sum1, v.sum2), v.freeBlocks)
  }

  ghost function FindingsIn(blocks: seq<Block>, g: Geometry, s: Sums, free: nat): nat
    requires Laid(g)
  {
    BadSlots(blocks, g.inodeStart, g.totalInodes) + (if s == Sums(0, 0) || SumOf(blocks, g.bitmapBlocks, s) then 0
        else 1)
      + (if CountClear(blocks, g.totalBlocks - g.dataStart) == free then 0 else 1)
  }

  /** The loop over the first `n` slots. */
  method ScanInodes(v: Volume, n: nat) returns (st: Status, corrupt: nat)
    requires Fits(v) && n <= v.geo.totalInodes
    ensures v.healthy ==> st == Ok && corrupt == BadSlots(v.blocks, v.geo.inodeStart, n)
  {
    corrupt := 0;
    var i := 0;
    while i < n
      invariant 0 <= i <= n
      invariant corrupt == BadSlots(v.blocks, v.geo.inodeStart, i)
    {
      var bad;
      st, bad := ScanSlot(v, i);
      if st != Ok {
        return;
      }
      corrupt := corrupt + One(bad);
      i := i + 1;
    }
    st := Ok;
  }

  /** One slot of the scan. */
  method ScanSlot(v: Volume, i: u32) returns (st: Status, bad: bool)
    requires Fits(v) && i < v.geo.totalInodes
    ensures st == Ok ==> bad == BadAt(v.blocks, v.geo.inodeStart, i)
    ensures v.healthy ==> st == Ok
  {
    var ino;
    st, ino := SlotRead(v, i);
    OpenBadAt(v.blocks, v.geo.inodeStart, i);
    bad := st == ChecksumMismatch;
    if bad || st == NotFound {
      st := Ok;
    }
  }

  method Scan(v: Volume) returns (st: Status, corrupt: nat)
    requires Fits(v)
    ensures v.healthy ==> st == Ok && corrupt == Findings(v)
  {
    st, corrupt := ScanInodes(v, v.geo.totalInodes);
    if st != Ok {
      return;
    }
    var s := StoredSum(v);
    var differs := Differs(s, Sums(v.sum1, v.sum2));
    if differs {
      corrupt := corrupt + 1;
    }
    var counted := CountFree(v);
    if counted != v.freeBlocks {
      corrupt := corrupt + 1;
    }
  }

  /** The comparison of the 64-bit checksums; a stored zero means none was recorded. */
  method Differs(s: Sums, t: Sums) returns (differs: bool)
    requires s.s1 < 0x1_0000_0000 && t.s1 < 0x1_0000_0000
    ensures differs <==> t != Sums(0, 0) && s != t
  {
    JoinsApart(s, t);
    differs := Join(t) != 0 && Join(s) != Join(t);
  }

  lemma JoinsApart(s: Sums, t: Sums)
    requires s.s1 < 0x1_0000_0000 && t.s1 < 0x1_0000_0000
    ensures Join(s) == Join(t) <==> s == t
    ensures Join(t) == 0 <==> t == Sums(0, 0)
  {
  }

  method Validate(v: Volume) returns (ok: bool)
    ensures ok == Authentic(Super(v))
  {
    assert Lifted(Header, 0);
    ok := SuperValid(Super(v));
  }

  /** Locks the volume, scans it, and settles it or marks it failed. */
  method ConsistencyCheck(v: Volume) returns (st: Status, corrupt: nat)
    requires Fits(v)
    modifies v`blocks, v`checksum, v`state
    ensures |v.blocks| == |old(v.blocks)|
    ensures old(v.Represents()) ==> v.Represents()
    ensures v.healthy && !old(Authentic(Super(v))) ==>
      && corrupt == 1 && st == Answer(old(Observed(v)), CheckRefused)
      && Observed(v) == After(old(Observed(v)), CheckRefused)
    ensures v.healthy && old(Authentic(Super(v))) ==>
      && corrupt == old(Findings(v))
      && var scanning := After(old(Observed(v)), CheckBegins);
         st == Answer(scanning, CheckEnds(corrupt)) && Observed(v) == After(scanning, CheckEnds(corrupt))
    ensures v.healthy && st == Ok ==>
      corrupt == 0 && v.state == old(v.state).(dirty := false, locked := false, error := false)
      && OnDisk(v).state == v.state
    ensures v.healthy && st != Ok ==>
      corrupt > 0 && v.state == old(v.state).(locked := true, error := true) && OnDisk(v).state == v.state
  {
    corrupt := 0;
    var sound := Validate(v);
    if !sound {
      st := Refuse(v);
      corrupt := 1;
    } else {
      st, corrupt := LockAndScan(v);
      if st == Ok {
        st := Conclude(v, corrupt);
      }
    }
  }

  method Refuse(v: Volume) returns (st: Status)
    requires Fits(v)
    modifies v`blocks, v`checksum, v`state
    ensures |v.blocks| == |old(v.blocks)|
    ensures old(v.Represents()) ==> v.Represents()
    ensures st == CorruptSuperblock
    ensures v.healthy ==> Observed(v) == Written(LockedUp(Failed(old(v.state))))
  {
    v.state := v.state.(error := true, locked := true);
    var ignored := SuperWrite(v);
    var flushed := v.Flush();
    st := CorruptSuperblock;
  }

  /** Persists the lock, then scans. */
  method LockAndScan(v: Volume) returns (st: Status, corrupt: nat)
    requires Fits(v)
    modifies v`blocks, v`checksum, v`state
    ensures Fits(v) && |v.blocks| == |old(v.blocks)|
    ensures old(v.Represents()) ==> v.Represents()
    ensures v.healthy ==>
      st == Ok && corrupt == old(Findings(v)) && v.state == LockedUp(old(v.state)) && OnDisk(v).state == v.state
  {
    corrupt := 0;
    v.state := v.state.(locked := true);
    st := SuperWrite(v);
    if st != Ok {
      return;
    }
    SameFindings(old(v.blocks), v.blocks, v.geo, Sums(v.sum1, v.sum2), v.freeBlocks);
    st, corrupt := Scan(v);
  }

  method Conclude(v: Volume, corrupt: nat) returns (st: Status)
    requires Fits(v)
    modifies v`blocks, v`checksum, v`state
    ensures |v.blocks| == |old(v.blocks)|
    ensures old(v.Represents()) ==> v.Represents()
    ensures v.healthy ==> st == if corrupt == 0 then Ok else ChecksumMismatch
    ensures v.healthy ==> Observed(v) == Written(if corrupt == 0 then Passed(old(v.state)) else Failed(old(v.state)))
  {
    if corrupt == 0 {
      v.state := v.state.(dirty := false, locked := false, error := false);
      st := SuperWrite(v);
      if st == Ok {
        var flushed := v.Flush();
      }
    } else {
      v.state := v.state.(error := true);
      var ignored := SuperWrite(v);
      var flushed := v.Flush();
      st := ChecksumMismatch;
    }
  }

  /** The scan does not look at the superblock's block. */
  lemma SameFindings(blocks: seq<Block>, blocks': seq<Block>, g: Geometry, s: Sums, free: nat)
    requires Laid(g) && |blocks'| == |blocks|
    requires forall b :: 0 <= b < |blocks| && b != 16 ==> blocks'[b] == blocks[b]
    ensures FindingsIn(blocks', g, s, free) == FindingsIn(blocks, g, s, free)
  {
    SameBadSlots(blocks, blocks', g.inodeStart, g.totalInodes);
    SameSum(blocks, blocks', g.bitmapBlocks, s);
    SameCount(blocks, blocks', g.totalBlocks - g.dataStart);
  }

  lemma {:induction false} SameBadSlots(blocks: seq<Block>, blocks': seq<Block>, start: nat, n: nat)
    requires |blocks'| == |blocks| && start > 16
    requires forall b :: 0 <= b < |blocks| && b != 16 ==> blocks'[b] == blocks[b]
    ensures BadSlots(blocks', start, n) == BadSlots(blocks, start, n)
  {
    if n > 0 {
      SameBadSlots(blocks, blocks', start, n - 1);
      OpenBadAt(blocks, start, n - 1);
      OpenBadAt(blocks', start, n - 1);
    }
  }

  lemma {:induction false} SameCount(blocks: seq<Block>, blocks': seq<Block>, n: nat)
    requires |blocks'| == |blocks|
    requires forall b :: 0 <= b < |blocks| && b != 16 ==> blocks'[b] == blocks[b]
    ensures CountClear(blocks', n) == CountClear(blocks, n)
  {
    if n > 0 {
      SameCount(blocks, blocks', n - 1);
    }
  }

  /** On a valid volume no inode slot is bad and the recount agrees. */
  lemma {:induction false} ValidHasNoBadSlots(blocks: seq<Block>, g: Geometry, fs: FS, n: nat)
    requires Laid(g) && Sized(g, fs) && Stored(blocks, g, fs) && n <= 4096
    ensures BadSlots(blocks, g.inodeStart, n) == 0
  {
    if n > 0 {
      ValidHasNoBadSlots(blocks, g, fs, n - 1);
      ReadSlot(blocks, g, fs, n - 1);
      StoredRecord(SlotBytes(blocks, g.inodeStart, n - 1), fs.table[n - 1]);
      OpenBadAt(blocks, g.inodeStart, n - 1);
    }
  }

  /** No bitmap checksum is stored, or it is that of the bitmap. */
  ghost predicate SumHolds(v: Volume)
    reads v
  {
    (v.sum1 == 0 && v.sum2 == 0) || Summed(v)
  }

  /**
   So on a volume whose blocks mean anything at all, the scan finds at most two
   things: a stale bitmap checksum and a free count that is off.
   */
  lemma HeldFindings(v: Volume)
    requires v.Represents()
    ensures Fits(v) && Findings(v) == One(!SumHolds(v)) + One(!v.Exact())
  {
    assert v.geo.totalBlocks <= |v.blocks| by { OpenStored(v.blocks, v.geo, v.fs); }
    ValidHasNoBadSlots(v.blocks, v.geo, v.fs, v.geo.totalInodes);
    RecountAgrees(v.blocks, v.geo, v.fs, v.freeBlocks);
  }

  /** An inode slot is bad when it is in use and its last four bytes are not the checksum of its record. */
  lemma BadSlot(blocks: seq<Block>, start: nat, i: nat)
    ensures var r := SlotBytes(blocks, start, i);
            BadAt(blocks, start, i) <==> r[4] != 0 && Le32(r[252..256]) != Crc32c.StructCrc(r, 252)
  {
    OpenBadAt(blocks, start, i);
    SlotIsBad(SlotBytes(blocks, start, i));
  }

  /** The scan counts every bad slot once. */
  lemma {:induction false} BadSlotsCount(blocks: seq<Block>, start: nat, n: nat)
    ensures BadSlots(blocks, start, n) == |set i: nat | i < n && BadAt(blocks, start, i)|
  {
    if n > 0 {
      BadSlotsCount(blocks, start, n - 1);
      var less := set i: nat | i < n - 1 && BadAt(blocks, start, i);
      var more := set i: nat | i < n && BadAt(blocks, start, i);
      assert more == less + if BadAt(blocks, start, n - 1) then {n - 1 as nat} else {};
    }
  }

  /**
   The check passes exactly when the superblock in memory is authentic, the free
   count exact and the bitmap checksum absent or current; otherwise it says what is
   wrong, and the volume is marked and locked.
   */
  method CheckVolume(v: Volume) returns (st: Status, corrupt: nat)
    requires v.Represents() && v.healthy
    modifies v`blocks, v`checksum, v`state
    ensures v.Represents() && |v.blocks| == |old(v.blocks)| > 16
    ensures st == Ok <==> old(Authentic(Super(v)) && v.Exact() && SumHolds(v))
    ensures st == Ok ==> corrupt == 0 && Observed(v) == Written(Passed(old(v.state)))
    ensures !old(Authentic(Super(v))) ==>
      st == CorruptSuperblock && corrupt == 1 && Observed(v) == Written(LockedUp(Failed(old(v.state))))
    ensures old(Authentic(Super(v))) && st != Ok ==>
      && st == ChecksumMismatch && corrupt == One(!old(SumHolds(v))) + One(!old(v.Exact()))
      && Observed(v) == Written(Failed(LockedUp(old(v.state))))
  {
    HeldFindings(v);
    st, corrupt := ConsistencyCheck(v);
  }

  /**
   Syncing a volume and checking it finds a free count that is off and nothing else;
   when it is right, the check clears every flag.
   */
  method SyncThenCheck(v: Volume) returns (st: Status, corrupt: nat)
    requires v.Represents() && v.healthy && Identified(v)
    modifies v`blocks, v`checksum, v`state, v`sum1, v`sum2
    ensures v.Represents()
    ensures st == (if v.Exact() then Ok else ChecksumMismatch) && corrupt == One(!v.Exact())
    ensures v.Exact() ==>
       |v.blocks| > 16 && !v.state.error && !v.state.locked && !v.state.dirty && OnDisk(v).state == v.state
  {
    HeldFindings(v);
    var synced := SyncChanges(v);
    st, corrupt := CheckVolume(v);
  }

  /** Whoever takes one block and has the volume checked before syncing it gets it refused, with ERROR on the device. */
  method AllocateThenCheck(v: Volume) returns (st: Status, corrupt: nat)
    requires v.Valid() && v.healthy && Authentic(Super(v)) && Room(v.Free()) > 0
    modifies v`blocks, v`freeBlocks, v`fs, v`checksum, v`state
    ensures v.Valid()
    ensures st == CorruptSuperblock && corrupt == 1
    ensures |v.blocks| > 16 && OnDisk(v).state.error && OnDisk(v).state.locked
  {
    ghost var before := Super(v);
    var block;
    st, block := BitmapAlloc(v);
    assert Super(v) == before.(freeBlocks := v.freeBlocks);
    CountMakesStale(before, v.freeBlocks);
    st, corrupt := CheckVolume(v);
  }

  /** A change of one counter makes an authentic superblock unauthentic. */
  lemma CountMakesStale(s: Superblock, f: u32)
    requires Authentic(s)
    ensures f != s.freeBlocks ==> !Authentic(s.(freeBlocks := f))
    ensures f != s.freeInodes ==> !Authentic(s.(freeInodes := f))
  {
    OpenAuthentic(s);
    OpenAuthentic(s.(freeBlocks := f));
    OpenAuthentic(s.(freeInodes := f));
    CountChangeNoticed(s, f);
  }

  // ---- mounting ----

  /** Reads block 16 into memory. */
  method SuperRead(v: Volume) returns (st: Status)
    requires |v.blocks| > 16
    modifies v`id, v`geo, v`freeBlocks, v`freeInodes, v`mountCount, v`state, v`sum1, v`sum2, v`security, v`checksum
    ensures st != IoError ==> Super(v) == OnDisk(v) && st == if Authentic(OnDisk(v)) then Ok else CorruptSuperblock
    ensures st == IoError ==> Super(v) == old(Super(v))
    ensures v.healthy ==> st != IoError
  {
    var hres, buf := v.ReadBlock(16);
    if hres != HtlOk {
      return IoError;
    }
    var s := Parse(buf);
    Load(v, s);
    var ok := Validate(v);
    return if ok then Ok else CorruptSuperblock;
  }

  method Load(v: Volume, s: Superblock)
    modifies v`id, v`geo, v`freeBlocks, v`freeInodes, v`mountCount, v`state, v`sum1, v`sum2, v`security, v`checksum
    ensures Super(v) == s
  {
    v.id, v.geo, v.freeBlocks, v.freeInodes, v.mountCount := s.id, s.geo, s.freeBlocks, s.freeInodes, s.mountCount;
    v.state, v.sum1, v.sum2, v.security, v.checksum := s.state, s.sum1, s.sum2, s.security, s.checksum;
  }

  method Parse(b: Block) returns (s: Superblock)
    ensures s == SuperIn(b)
  {
    assert Lifted(Header, 0);
    s := DecodeSuper(b);
  }

  /** Whatever the free count says, it has drifted by some amount. */
  ghost method Measure(v: Volume)
    requires v.Represents()
    modifies v`drift
    ensures v.Valid() && (v.drift == 0 <==> v.Exact())
  {
    OpenUnused(v.geo, v.fs.used);
    v.drift := DriftOf(v.Free());
    DriftIs(v.Free(), v.drift);
    DriftIs(v.Free(), 0);
  }

  /** The device holds `fs`, laid out as `g` says. */
  ghost predicate Holding(blocks: seq<Block>, g: Geometry, fs: FS) {
    Laid(g) && Sized(g, fs) && Stored(blocks, g, fs)
  }

  /**
   Reads the superblock and takes the volume into use, or refuses it and keeps it
   locked.  Whatever was in memory before is lost, as after a crash: the free count
   is then right exactly when the one on the device is.
   */
  method MountVolume(v: Volume) returns (st: Status)
    requires |v.blocks| > 16
    modifies v`blocks, v`id, v`geo, v`freeBlocks, v`freeInodes, v`mountCount, v`state, v`sum1, v`sum2, v`security,
        v`checksum, v`drift
    ensures |v.blocks| == |old(v.blocks)|
    ensures v.healthy && !Authentic(old(OnDisk(v))) ==> st == CorruptSuperblock && v.blocks == old(v.blocks)
    ensures v.healthy && Authentic(old(OnDisk(v))) ==>
      && st == Answer(old(Observed(v)), Mount) && Observed(v) == After(old(Observed(v)), Mount)
      && v.id == old(OnDisk(v)).id && v.geo == old(OnDisk(v)).geo && v.freeBlocks == old(OnDisk(v)).freeBlocks
      && v.freeInodes == old(OnDisk(v)).freeInodes
      && v.security == old(OnDisk(v)).security && v.sum1 == old(OnDisk(v)).sum1 && v.sum2 == old(OnDisk(v)).sum2
    ensures v.healthy ==> (st == Ok <==> Authentic(old(OnDisk(v))) && Unflagged(old(OnDisk(v)).state))
    ensures v.healthy && st == Ok ==> v.state == old(OnDisk(v)).state.(dirty := true) && OnDisk(v).state == v.state
    ensures v.healthy && Authentic(old(OnDisk(v))) && st != Ok ==>
      && st == VolumeDirty && OnDisk(v).state == v.state
      && v.state == old(OnDisk(v)).state.(locked := old(OnDisk(v)).state.locked || !old(OnDisk(v)).state.error)
    ensures st == Ok ==> v.mountCount == Wrap(old(OnDisk(v)).mountCount + 1)
    ensures v.healthy && st == Ok ==> OnDisk(v) == Super(v) && Authentic(Super(v))
    ensures v.healthy && Authentic(old(OnDisk(v))) && old(Holding(v.blocks, OnDisk(v).geo, v.fs)) ==>
      v.Valid() && (v.Exact() <==> old(OnDisk(v)).freeBlocks == Unused(v.geo, v.fs.used))
  {
    if Authentic(OnDisk(v)) {
      AuthenticIsIdentified(OnDisk(v));
    }
    st := SuperRead(v);
    if st == Ok {
      st := TakeOrRefuse(v);
    }
    if v.Represents() {
      Measure(v);
    }
  }

  lemma AuthenticIsIdentified(s: Superblock)
    requires Authentic(s)
    ensures s.id.magic == MAGIC && s.id.blockSize == 4096
  {
    OpenAuthentic(s);
  }

  predicate Unflagged(f: Flags) {
    !f.error && !f.dirty && !f.locked
  }

  /** The second half of a mount: the flags decide. */
  method TakeOrRefuse(v: Volume) returns (st: Status)
    requires |v.blocks| > 16 && Super(v) == OnDisk(v)
    modifies v`blocks, v`mountCount, v`state, v`checksum
    ensures |v.blocks| == |old(v.blocks)| && v.geo == old(v.geo)
    ensures old(v.Represents()) ==> v.Represents()
    ensures v.healthy ==> st == Answer(old(Observed(v)), Mount) && Observed(v) == After(old(Observed(v)), Mount)
    ensures st == Ok ==> v.mountCount == Wrap(old(v.mountCount) + 1)
    ensures v.healthy && st == Ok ==> OnDisk(v) == Super(v) && (Identified(v) <==> Authentic(Super(v)))
  {
    if v.state.error {
      return VolumeDirty;
    }
    if v.state.dirty || v.state.locked {
      v.state := v.state.(locked := true);
      st := SuperWrite(v);
      return if st == Ok then VolumeDirty else st;
    }
    v.mountCount := Wrap(v.mountCount + 1);
    v.state := v.state.(dirty := true);
    st := SuperWrite(v);
  }

  // ---- crashing ----

  /** A crash: the device keeps what it holds, and what was in memory is anything. */
  method LoseMemory(v: Volume, garbage: Superblock)
    modifies v`id, v`geo, v`freeBlocks, v`freeInodes, v`mountCount, v`state, v`sum1, v`sum2, v`security, v`checksum
    ensures Super(v) == garbage
  {
    Load(v, garbage);
  }

  /**
   Whoever syncs, takes one block and crashes finds the volume mounting without
   complaint, its files intact and its free count wrong.
   */
  method AllocateThenCrash(v: Volume, garbage: Superblock) returns (st: Status)
    requires v.Valid() && v.Exact() && v.healthy && Identified(v) && v.freeBlocks > 0 && !v.state.error
    modifies v
    ensures st == Ok && v.Valid() && !v.Exact() && v.drift == 1
    ensures v.freeBlocks == old(v.freeBlocks) && v.geo == old(v.geo)
    ensures v.fs.table == old(v.fs.table) && v.fs.data == old(v.fs.data) && |v.fs.used| == |old(v.fs.used)| + 1
  {
    ghost var geo := v.geo;
    assert v.geo.totalBlocks <= |v.blocks| by { OpenStored(v.blocks, v.geo, v.fs); }
    st := SyncChanges(v);
    var block;
    st, block := BitmapAlloc(v);
    assert |v.blocks| > 16 && Holding(v.blocks, geo, v.fs) by { OpenStored(v.blocks, v.geo, v.fs); }
    LoseMemory(v, garbage);
    st := MountVolume(v);
    DriftIs(v.Free(), v.drift);
  }
}
