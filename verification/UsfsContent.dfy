/**
 What USFS files contain, which blocks they own, and what it takes for the bitmap
 to be exactly the union of their runs.
 */
module UsfsContent {
  import opened Words
  import opened Veils
  import opened Splice
  import opened Ranges
  import opened Bitmap
  import opened Ciphers
  import opened UsfsTypes
  import opened UsfsVolume

  // ---- contents ----

  /** Block `b` as the reader sees it. */
  function View(c: Cipher, blocks: seq<Block>, b: nat): Block {
    if b < |blocks| then Xform(c, b, blocks[b]) else ZeroBlock()
  }

  /** Block `k` of the run that starts at `first`. */
  function ViewAt(c: Cipher, blocks: seq<Block>, first: nat, k: nat): Block {
    View(c, blocks, first + k)
  }

  /** The `n` blocks from `first` on. */
  function Views(c: Cipher, blocks: seq<Block>, first: nat, n: nat): (r: seq<Block>)
    ensures |r| == n
  {
    if n == 0 then [] else Views(c, blocks, first, n - 1) + [ViewAt(c, blocks, first, n - 1)]
  }

  lemma {:induction false} ViewsAt(c: Cipher, blocks: seq<Block>, first: nat, n: nat, k: nat)
    requires k < n
    ensures Views(c, blocks, first, n)[k] == ViewAt(c, blocks, first, k)
  {
    if k < n - 1 {
      ViewsAt(c, blocks, first, n - 1, k);
    }
  }

  lemma {:induction false} ViewsPrefix(c: Cipher, blocks: seq<Block>, first: nat, k: nat, n: nat)
    requires k <= n
    ensures Views(c, blocks, first, n)[..k] == Views(c, blocks, first, k)
    decreases n
  {
    if k < n {
      ViewsPrefix(c, blocks, first, k, n - 1);
    }
  }

  lemma {:induction false} ViewsSame(c: Cipher, blocks: seq<Block>, first: nat, blocks': seq<Block>, first': nat,
      n: nat)
    requires forall k: nat :: k < n ==> ViewAt(c, blocks', first', k) == ViewAt(c, blocks, first, k)
    ensures Views(c, blocks', first', n) == Views(c, blocks, first, n)
  {
    if n > 0 {
      ViewsSame(c, blocks, first, blocks', first', n - 1);
    }
  }

  lemma ViewsAre(c: Cipher, blocks: seq<Block>, first: nat, bs: seq<Block>)
    requires forall k: nat :: k < |bs| ==> bs[k] == ViewAt(c, blocks, first, k)
    ensures Views(c, blocks, first, |bs|) == bs
  {
    forall k: nat | k < |bs|
      ensures Views(c, blocks, first, |bs|)[k] == bs[k]
    {
      ViewsAt(c, blocks, first, |bs|, k);
    }
  }

  /** Everything a file's run holds. */
  function Plain(c: Cipher, blocks: seq<Block>, e: Entry): (r: seq<byte>)
    ensures |r| == 4096 * e.blockCount
  {
    Flatten(Views(c, blocks, e.first, e.blockCount))
  }

  /** The file: the first `size` bytes of that. */
  function Content(c: Cipher, blocks: seq<Block>, e: Entry): (r: seq<byte>)
    requires e.size <= 4096 * e.blockCount
    ensures |r| == e.size
  {
    Plain(c, blocks, e)[..e.size]
  }

  /** Rewriting one block of the run through the cipher rewrites that stretch of the file. */
  lemma RewriteView(c: Cipher, blocks: seq<Block>, e: Entry, k: nat, at: nat, piece: seq<byte>, blocks': seq<Block>)
    requires k < e.blockCount && at + |piece| <= 4096 && e.first + e.blockCount <= |blocks|
    requires var b := e.first + k; blocks' == blocks[b := Xform(c, b, Over(View(c, blocks, b), at, piece))]
    ensures Plain(c, blocks', e) == Over(Plain(c, blocks, e), 4096 * k + at, piece)
  {
    var n, b := e.blockCount, e.first + k;
    var bs := Views(c, blocks, e.first, n);
    ViewsAt(c, blocks, e.first, n, k);
    var after := bs[k := Over(bs[k], at, piece)];
    XformInvolution(c, b, Over(View(c, blocks, b), at, piece));
    forall j: nat | j < n
      ensures after[j] == ViewAt(c, blocks', e.first, j)
    {
      ViewsAt(c, blocks, e.first, n, j);
    }
    ViewsAre(c, blocks', e.first, after);
    FlattenOver(bs, k, at, piece);
  }

  /** A slice inside one block of the run. */
  lemma ViewSlice(c: Cipher, blocks: seq<Block>, e: Entry, k: nat, o: nat, n: nat)
    requires k < e.blockCount && o + n <= 4096
    ensures Plain(c, blocks, e)[4096 * k + o..4096 * k + o + n] == View(c, blocks, e.first + k)[o..o + n]
  {
    ViewsAt(c, blocks, e.first, e.blockCount, k);
    BlockSlice(Views(c, blocks, e.first, e.blockCount), k, o, n);
  }

  /** A shorter run of the same blocks holds a prefix. */
  lemma PlainPrefix(c: Cipher, blocks: seq<Block>, e: Entry, e': Entry)
    requires e'.first == e.first && e'.blockCount <= e.blockCount
    ensures Plain(c, blocks, e') == Plain(c, blocks, e)[..4096 * e'.blockCount]
  {
    ViewsPrefix(c, blocks, e.first, e'.blockCount, e.blockCount);
    FlattenPrefix(Views(c, blocks, e.first, e.blockCount), e'.blockCount);
  }

  // ---- ownership ----

  /** The blocks of an entry. */
  ghost function RunOf(e: Entry): set<nat> {
    Range(e.first, e.first + e.blockCount)
  }

  /** The entry's run lies in the data region and holds its bytes; a vacant slot has no run. */
  predicate WellFormed(p: Plan, e: Entry) {
    && (e.blockCount > 0 ==> p.dataStart <= e.first && e.first + e.blockCount <= p.total)
    && e.size <= 4096 * e.blockCount
    && (IsVacant(e.kind) ==> e.blockCount == 0)
  }

  /** The used blocks are exactly the disjoint union of the entries' runs. */
  ghost predicate Exact(p: Plan, table: seq<Entry>, used: set<nat>) {
    var r: bool :| forall k {:trigger Lifted(Exactness, k)} :: Lifted(Exactness, k) ==>
      (r <==> ExactInFull(p, table, used));
    r
  }

  ghost predicate ExactInFull(p: Plan, table: seq<Entry>, used: set<nat>) {
    && (forall i :: 0 <= i < |table| ==> WellFormed(p, table[i]) && RunOf(table[i]) <= used)
    && (forall i, j :: 0 <= i < j < |table| ==> RunOf(table[i]) !! RunOf(table[j]))
    && (forall b :: b in used ==> exists i :: 0 <= i < |table| && b in RunOf(table[i]))
  }

  lemma OpenExact(p: Plan, table: seq<Entry>, used: set<nat>)
    ensures Exact(p, table, used) <==> ExactInFull(p, table, used)
  {
    assert Lifted(Exactness, 0);
  }

  lemma ExactAt(p: Plan, table: seq<Entry>, used: set<nat>, i: nat)
    requires Exact(p, table, used) && i < |table|
    ensures WellFormed(p, table[i]) && RunOf(table[i]) <= used
    ensures forall j :: 0 <= j < |table| && j != i ==> RunOf(table[j]) !! RunOf(table[i])
  {
    OpenExact(p, table, used);
  }

  /** Giving slot `i` another run, of free blocks or its own, keeps the accounting exact. */
  lemma Reassign(p: Plan, table: seq<Entry>, used: set<nat>, i: nat, e: Entry, used': set<nat>)
    requires Exact(p, table, used) && i < |table| && WellFormed(p, e)
    requires RunOf(e) !! (used - RunOf(table[i])) && used' == (used - RunOf(table[i])) + RunOf(e)
    ensures Exact(p, table[i := e], used')
  {
    OpenExact(p, table, used);
    OpenExact(p, table[i := e], used');
    var after := table[i := e];
    forall j | 0 <= j < |after| && j != i
      ensures RunOf(after[j]) <= used - RunOf(table[i])
    {
      assert RunOf(table[j]) <= used;
      assert RunOf(table[j]) !! RunOf(table[i]) by { ExactAt(p, table, used, i); }
    }
    forall b | b in used'
      ensures exists j :: 0 <= j < |after| && b in RunOf(after[j])
    {
      if b in RunOf(e) {
        assert b in RunOf(after[i]);
      } else {
        var j :| 0 <= j < |table| && b in RunOf(table[j]);
        assert after[j] == table[j];
      }
    }
  }

  // ---- what may change ----

  /** Data block `b` is one of `own`, or its bit was clear. */
  predicate MayChange(before: seq<Block>, p: Plan, own: set<nat>, b: nat) {
    b in own || (p.dataStart <= b < p.total && !Marked(before, b - p.dataStart))
  }

  /** No data block has changed that was marked used, but for those of `own`. */
  ghost predicate KeepsMarked(before: seq<Block>, blocks: seq<Block>, p: Plan, own: set<nat>) {
    var r: bool :| forall k {:trigger Lifted(Keeping, k)} :: Lifted(Keeping, k) ==>
      (r <==> KeepsMarkedInFull(before, blocks, p, own));
    r
  }

  ghost predicate KeepsMarkedInFull(before: seq<Block>, blocks: seq<Block>, p: Plan, own: set<nat>) {
    |blocks| == |before| && forall b: nat :: p.dataStart <= b < |blocks| && blocks[b] != before[b] ==>
        MayChange(before, p, own, b)
  }

  lemma OpenKeepsMarked(before: seq<Block>, blocks: seq<Block>, p: Plan, own: set<nat>)
    ensures KeepsMarked(before, blocks, p, own) <==> KeepsMarkedInFull(before, blocks, p, own)
  {
    assert Lifted(Keeping, 0);
  }

  lemma KeepsSelf(blocks: seq<Block>, p: Plan, own: set<nat>)
    ensures KeepsMarked(blocks, blocks, p, own)
  {
    OpenKeepsMarked(blocks, blocks, p, own);
  }

  lemma KeepsRun(before: seq<Block>, mid: seq<Block>, blocks: seq<Block>, p: Plan, own: set<nat>, lo: nat, n: nat)
    requires KeepsMarked(before, mid, p, own) && OnlyRun(mid, blocks, p, lo, n)
    requires forall b: nat :: lo <= b < lo + n ==> MayChange(before, p, own, b)
    ensures KeepsMarked(before, blocks, p, own)
  {
    OpenOnlyRun(mid, blocks, p, lo, n);
    OpenKeepsMarked(before, mid, p, own);
    OpenKeepsMarked(before, blocks, p, own);
  }

  /** No data block changed at all. */
  lemma KeepsOutside(before: seq<Block>, mid: seq<Block>, blocks: seq<Block>, p: Plan, own: set<nat>)
    requires KeepsMarked(before, mid, p, own) && OutsideKept(mid, blocks, p)
    ensures KeepsMarked(before, blocks, p, own)
  {
    KeepsRun(before, mid, blocks, p, own, 0, 0);
  }

  lemma KeepsMore(before: seq<Block>, blocks: seq<Block>, p: Plan, own: set<nat>, own': set<nat>)
    requires KeepsMarked(before, blocks, p, own) && own <= own'
    ensures KeepsMarked(before, blocks, p, own')
  {
    OpenKeepsMarked(before, blocks, p, own);
    OpenKeepsMarked(before, blocks, p, own');
  }

  /** Whatever device calls failed: if the accounting was exact, every file that owns none of `own` reads as it did. */
  lemma MarkedReadTheSame(c: Cipher, p: Plan, table: seq<Entry>, used: set<nat>, before: seq<Block>,
      blocks: seq<Block>, own: set<nat>, j: nat)
    requires Laid(p) && Exact(p, table, used) && BitsAre(before, p, used) && j < |table|
    requires KeepsMarked(before, blocks, p, own) && own !! RunOf(table[j])
    ensures Plain(c, blocks, table[j]) == Plain(c, before, table[j])
  {
    ExactAt(p, table, used, j);
    OpenBits(before, p, used);
    OpenKeepsMarked(before, blocks, p, own);
    var e := table[j];
    forall k: nat | k < e.blockCount
      ensures ViewAt(c, blocks, e.first, k) == ViewAt(c, before, e.first, k)
    {
      var b := e.first + k;
      assert b in RunOf(e);
      assert Marked(before, b - p.dataStart);
    }
    ViewsSame(c, before, e.first, blocks, e.first, e.blockCount);
  }

  /** No data block changed: the file reads the same. */
  lemma OutsideKeepsPlain(c: Cipher, p: Plan, blocks: seq<Block>, blocks': seq<Block>, e: Entry)
    requires WellFormed(p, e) && OutsideKept(blocks, blocks', p)
    ensures Plain(c, blocks', e) == Plain(c, blocks, e)
  {
    OpenOnlyRun(blocks, blocks', p, 0, 0);
    forall k: nat | k < e.blockCount
      ensures ViewAt(c, blocks', e.first, k) == ViewAt(c, blocks, e.first, k)
    {
    }
    ViewsSame(c, blocks, e.first, blocks', e.first, e.blockCount);
  }
}
