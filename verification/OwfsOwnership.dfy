/**
 Which blocks an inode owns, and what it takes for the files of a volume not to
 share any.
 */
module OwfsOwnership {
  import opened Words
  import opened Records
  import opened OwfsTypes
  import opened OwfsVolume
  import opened Veils

  /** The device block behind logical block `k` of an inode: a direct pointer, or one in the indirect block. */
  function BlockAt(data: seq<Block>, ino: Inode, k: nat): nat {
    if k < 10 then ino.direct[k]
    else if k < 1034 && ino.indirect < |data| then PtrAt(data[ino.indirect], k - 10)
    else 0
  }

  /**
   An inode's map: as many distinct data blocks as it counts, plus the indirect block exactly when
   there are more than ten.
   */
  ghost predicate Mapped(data: seq<Block>, g: Geometry, ino: Inode) {
    && ino.blockCount <= 1034
    && ino.size <= 4096 * ino.blockCount
    && (ino.indirect != 0 <==> ino.blockCount > 10)
    && (ino.indirect != 0 ==> InData(g, ino.indirect))
    && (forall k :: 0 <= k < ino.blockCount ==>
           InData(g, BlockAt(data, ino, k)) && BlockAt(data, ino, k) != ino.indirect)
    && (forall j, k :: 0 <= j < k < ino.blockCount ==> BlockAt(data, ino, j) != BlockAt(data, ino, k))
    && (forall k :: ino.blockCount <= k < 10 ==> ino.direct[k] == 0)
  }

  /** The data blocks behind logical blocks `from` to `to - 1`. */
  ghost function Between(data: seq<Block>, ino: Inode, from: nat, to: nat): set<nat> {
    if to <= from then {} else Between(data, ino, from, to - 1) + {BlockAt(data, ino, to - 1)}
  }

  lemma {:induction false} BetweenHas(data: seq<Block>, ino: Inode, from: nat, to: nat, b: nat)
    ensures b in Between(data, ino, from, to) <==> exists k: nat :: from <= k < to && BlockAt(data, ino, k) == b
  {
    if from < to {
      BetweenHas(data, ino, from, to - 1, b);
      if k: nat :| from <= k < to && BlockAt(data, ino, k) == b {
        assert k < to - 1 || k == to - 1;
      }
      assert BlockAt(data, ino, to - 1) == b ==> from <= to - 1 < to;
    }
  }

  lemma {:induction false} BetweenSame(data: seq<Block>, ino: Inode, data': seq<Block>, ino': Inode, from: nat, to: nat)
    requires forall k: nat :: from <= k < to ==> BlockAt(data', ino', k) == BlockAt(data, ino, k)
    ensures Between(data', ino', from, to) == Between(data, ino, from, to)
  {
    if from < to {
      BetweenSame(data, ino, data', ino', from, to - 1);
    }
  }

  lemma {:induction false} BetweenSize(data: seq<Block>, ino: Inode, from: nat, to: nat)
    requires from <= to && forall j, k :: from <= j < k < to ==> BlockAt(data, ino, j) != BlockAt(data, ino, k)
    ensures |Between(data, ino, from, to)| == to - from
  {
    if from < to {
      BetweenSize(data, ino, from, to - 1);
      BetweenHas(data, ino, from, to - 1, BlockAt(data, ino, to - 1));
    }
  }

  /** How many blocks an inode of `n` blocks owns, the indirect block included. */
  function Footprint(n: nat): nat {
    n + One(n > 10)
  }

  /** Every block an inode refers to. */
  ghost function Owned(data: seq<Block>, ino: Inode): set<nat> {
    Between(data, ino, 0, ino.blockCount) + (if ino.indirect != 0 then {ino.indirect} else {})
  }

  lemma OwnedHas(data: seq<Block>, ino: Inode, b: nat)
    ensures b in Owned(data, ino) <==> (ino.indirect != 0 && b == ino.indirect) || exists k: nat ::
        0 <= k < ino.blockCount && BlockAt(data, ino, k) == b
  {
    BetweenHas(data, ino, 0, ino.blockCount, b);
  }

  lemma OwnedSize(data: seq<Block>, g: Geometry, ino: Inode)
    requires Mapped(data, g, ino)
    ensures |Owned(data, ino)| == Footprint(ino.blockCount)
  {
    BetweenSize(data, ino, 0, ino.blockCount);
    BetweenHas(data, ino, 0, ino.blockCount, ino.indirect);
  }

  lemma OwnedAt(data: seq<Block>, ino: Inode, k: nat)
    requires k < ino.blockCount
    ensures BlockAt(data, ino, k) in Owned(data, ino)
  {
    OwnedHas(data, ino, BlockAt(data, ino, k));
  }

  lemma OwnedInData(data: seq<Block>, g: Geometry, ino: Inode, b: nat)
    requires Mapped(data, g, ino) && b in Owned(data, ino)
    ensures InData(g, b)
  {
    OwnedHas(data, ino, b);
  }

  /** The map of an inode is decided by the inode and its indirect block. */
  lemma SameMap(data: seq<Block>, data': seq<Block>, g: Geometry, ino: Inode)
    requires |data| == |data'|
    requires ino.indirect != 0 && ino.indirect < |data| ==> data[ino.indirect] == data'[ino.indirect]
    requires Mapped(data, g, ino)
    ensures Mapped(data', g, ino)
    ensures forall k :: 0 <= k < ino.blockCount ==> BlockAt(data', ino, k) == BlockAt(data, ino, k)
    ensures Owned(data', ino) == Owned(data, ino)
  {
    forall k: nat | k < ino.blockCount
      ensures BlockAt(data', ino, k) == BlockAt(data, ino, k)
    {
    }
    BetweenSame(data, ino, data', ino, 0, ino.blockCount);
  }

  // ---- the whole volume ----

  /** Slot `i` of the inode table has been used. */
  predicate Holds(fs: FS, i: nat) {
    i < |fs.table| && fs.table[i].entryType != 0
  }

  ghost function OwnedBy(fs: FS, i: nat): set<nat>
    requires i < |fs.table|
  {
    Owned(fs.data, fs.table[i])
  }

  /** Every inode owns distinct blocks that are marked used, and no two inodes share one. */
  ghost predicate Sound(fs: FS, g: Geometry) {
    var r: bool :| forall k {:trigger Lifted(Soundness, k)} :: Lifted(Soundness, k) ==> (r <==> (SoundInFull(fs, g)));
    r
  }

  lemma OpenSound(fs: FS, g: Geometry)
    ensures Sound(fs, g) <==> SoundInFull(fs, g)
  {
    assert Lifted(Soundness, 0);
  }

  ghost predicate SoundInFull(fs: FS, g: Geometry) {
    && |fs.data| == g.totalBlocks
    && (forall i: nat :: Holds(fs, i) ==> Mapped(fs.data, g, fs.table[i]) && OwnedBy(fs, i) <= fs.used)
    && (forall i: nat, j: nat :: Holds(fs, i) && Holds(fs, j) && i != j ==> OwnedBy(fs, i) !! OwnedBy(fs, j))
  }

  /**
   One operation on inode `i`, as the rest of the volume sees it, whatever device
   calls failed: the other inodes are as before, and blocks in use that `i` did not
   own are untouched and stay in use.
   */
  ghost predicate Confined(fs: FS, fs': FS, g: Geometry, i: nat) {
    && i < |fs.table| == |fs'.table|
    && |fs'.data| == |fs.data| == g.totalBlocks
    && (forall j :: 0 <= j < |fs.table| && j != i ==> fs'.table[j] == fs.table[j])
    && (forall b :: b in fs.used && !(Holds(fs, i) && b in OwnedBy(fs, i)) && InData(g, b) ==>
           b in fs'.used && fs'.data[b] == fs.data[b])
  }

  /** Moreover `i` itself stays in order: whatever it owns now it owned before or was free. */
  ghost predicate StepOn(fs: FS, fs': FS, g: Geometry, i: nat) {
    && i < |fs.table| == |fs'.table| && |fs'.data| == |fs.data| == g.totalBlocks
    && var r: bool :| forall k {:trigger Lifted(Stepping, k)} :: Lifted(Stepping, k) ==>
           (r <==> StepInFull(fs, fs', g, i));
       r
  }

  lemma OpenStepOn(fs: FS, fs': FS, g: Geometry, i: nat)
    ensures StepOn(fs, fs', g, i) <==> StepInFull(fs, fs', g, i)
  {
    assert Lifted(Stepping, 0);
  }

  ghost predicate StepInFull(fs: FS, fs': FS, g: Geometry, i: nat) {
    && Confined(fs, fs', g, i)
    && (Holds(fs', i) ==>
          && Mapped(fs'.data, g, fs'.table[i])
          && OwnedBy(fs', i) <= fs'.used
          && (forall b :: b in OwnedBy(fs', i) ==> b !in fs.used || (Holds(fs, i) && b in OwnedBy(fs, i))))
  }

  lemma StepSelf(fs: FS, g: Geometry, i: nat)
    requires Sound(fs, g) && i < |fs.table|
    ensures StepOn(fs, fs, g, i)
  {
    OpenSound(fs, g);
    OpenStepOn(fs, fs, g, i);
  }

  lemma SoundMapped(fs: FS, g: Geometry, i: nat)
    requires Sound(fs, g) && Holds(fs, i)
    ensures Mapped(fs.data, g, fs.table[i]) && OwnedBy(fs, i) <= fs.used && |fs.data| == g.totalBlocks
  {
    OpenSound(fs, g);
  }

  lemma StepConfined(fs: FS, fs': FS, g: Geometry, i: nat)
    requires StepOn(fs, fs', g, i)
    ensures Confined(fs, fs', g, i)
  {
    OpenStepOn(fs, fs', g, i);
  }

  lemma OtherUnchanged(fs: FS, fs': FS, g: Geometry, i: nat, j: nat)
    requires Sound(fs, g) && Confined(fs, fs', g, i) && Holds(fs, j) && j != i
    ensures Holds(fs', j) && fs'.table[j] == fs.table[j]
    ensures Mapped(fs'.data, g, fs'.table[j]) && OwnedBy(fs', j) == OwnedBy(fs, j) <= fs'.used
    ensures forall b :: b in OwnedBy(fs, j) ==> InData(g, b) && fs'.data[b] == fs.data[b]
  {
    OpenSound(fs, g);
    var ino := fs.table[j];
    assert Mapped(fs.data, g, ino) && OwnedBy(fs, j) <= fs.used;
    assert Holds(fs, i) ==> OwnedBy(fs, i) !! OwnedBy(fs, j);
    forall b | b in OwnedBy(fs, j)
      ensures InData(g, b) && b in fs'.used && fs'.data[b] == fs.data[b]
    {
      OwnedInData(fs.data, g, ino, b);
    }
    if ino.indirect != 0 {
      assert ino.indirect in OwnedBy(fs, j);
    }
    SameMap(fs.data, fs'.data, g, ino);
  }

  /** Soundness survives every operation, and the operation leaves every other inode's blocks alone. */
  lemma StepKeepsSound(fs: FS, fs': FS, g: Geometry, i: nat)
    requires Sound(fs, g) && StepOn(fs, fs', g, i)
    ensures Sound(fs', g)
    ensures forall j: nat :: Holds(fs, j) && j != i ==>
      Holds(fs', j) && fs'.table[j] == fs.table[j] && OwnedBy(fs', j) == OwnedBy(fs, j)
    ensures forall j: nat, b :: Holds(fs, j) && j != i && b in OwnedBy(fs, j) ==>
      InData(g, b) && fs'.data[b] == fs.data[b]
  {
    OpenSound(fs, g);
    OpenSound(fs', g);
    OpenStepOn(fs, fs', g, i);
    forall j: nat | Holds(fs', j) && j != i
      ensures Holds(fs, j) && fs'.table[j] == fs.table[j]
      ensures Mapped(fs'.data, g, fs'.table[j]) && OwnedBy(fs', j) == OwnedBy(fs, j) <= fs'.used
      ensures forall b :: b in OwnedBy(fs, j) ==> InData(g, b) && fs'.data[b] == fs.data[b]
    {
      assert Holds(fs, j);
      OtherUnchanged(fs, fs', g, i, j);
    }
    forall j: nat, k: nat | Holds(fs', j) && Holds(fs', k) && j != k
      ensures OwnedBy(fs', j) !! OwnedBy(fs', k)
    {
      if j == i {
        NoOverlap(fs, fs', g, i, k);
      } else if k == i {
        NoOverlap(fs, fs', g, i, j);
      }
    }
  }

  lemma NoOverlap(fs: FS, fs': FS, g: Geometry, i: nat, j: nat)
    requires Sound(fs, g) && StepOn(fs, fs', g, i) && Holds(fs', i) && Holds(fs', j) && j != i
    ensures OwnedBy(fs', i) !! OwnedBy(fs', j)
  {
    OpenSound(fs, g);
    OpenStepOn(fs, fs', g, i);
    assert Holds(fs, j);
    OtherUnchanged(fs, fs', g, i, j);
    SoundMapped(fs, g, j);
  }
}
