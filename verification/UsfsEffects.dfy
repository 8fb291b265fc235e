/**
 From the contracts of the operations to the abstract filesystem: what each of them
 does to the device, the entry table and the counter is what `Next` says.
 */
module UsfsEffects {
  import opened Words
  import opened Splice
  import opened UsfsTypes
  import opened UsfsVolume
  import opened UsfsBitmap
  import opened UsfsContent
  import opened UsfsFile
  import opened UsfsEntry
  import opened UsfsObjects

  /** What the keystream is made from. */
  datatype SecretRecord = SecretRecord(security: nat, key: seq<byte>, nonce: seq<byte>)

  type Secret = s: SecretRecord | |s.key| == 32 && |s.nonce| == 12 witness SecretRecord(0, Zeros(32), Zeros(12))

  /** The part of the state that operations on files do not change. */
  datatype Setting = Setting(locked: bool, error: bool, plan: Plan, secret: Secret) {
    function Writable(): Status {
      WritableIn(locked, error, secret.security)
    }
  }

  ghost function HeldAt(secret: Secret, table: seq<Entry>, blocks: seq<Block>, i: nat): seq<byte>
    requires i < |table|
  {
    Plain(CipherFor(secret.security, secret.key, secret.nonce, table[i]), blocks, table[i])
  }

  ghost function Holdings(secret: Secret, table: seq<Entry>, blocks: seq<Block>): (hs: seq<seq<byte>>)
    ensures |hs| == |table| && forall i :: 0 <= i < |hs| ==> hs[i] == HeldAt(secret, table, blocks, i)
  {
    seq(|table|, i requires 0 <= i < |table| => HeldAt(secret, table, blocks, i))
  }

  ghost function StateOf(w: Setting, usedEntries: nat, table: seq<Entry>, blocks: seq<Block>): State {
    State(w.locked, w.error, w.plan, w.secret.security, usedEntries, table, Holdings(w.secret, table, blocks))
  }

  /** If at most slot `i` changed, and of the blocks marked used at most its own, every other slot holds what it did. */
  lemma StepEffect(secret: Secret, p: Plan, table: seq<Entry>, used: set<nat>, blocks: seq<Block>, table': seq<Entry>,
      blocks': seq<Block>, i: nat)
    requires Laid(p) && Exact(p, table, used) && BitsAre(blocks, p, used) && i < |table|
    requires OnlyEntry(table, table', i) && KeepsMarked(blocks, blocks', p, RunOf(table[i]))
    ensures Holdings(secret, table', blocks')
         == Holdings(secret, table, blocks)[i := HeldAt(secret, table', blocks', i)]
  {
    forall j: nat | j < |table| && j != i
      ensures HeldAt(secret, table', blocks', j) == HeldAt(secret, table, blocks, j)
    {
      ExactAt(p, table, used, j);
      var e := table[j];
      MarkedReadTheSame(CipherFor(secret.security, secret.key, secret.nonce, e), p, table, used, blocks, blocks',
          RunOf(table[i]), j);
    }
  }

  /** If no entry and no data block changed, no file did. */
  lemma QuietEffect(secret: Secret, p: Plan, table: seq<Entry>, used: set<nat>, blocks: seq<Block>, blocks': seq<Block>)
    requires Laid(p) && Exact(p, table, used) && OutsideKept(blocks, blocks', p)
    ensures Holdings(secret, table, blocks') == Holdings(secret, table, blocks)
  {
    forall j: nat | j < |table|
      ensures HeldAt(secret, table, blocks', j) == HeldAt(secret, table, blocks, j)
    {
      ExactAt(p, table, used, j);
      OutsideKeepsPlain(CipherFor(secret.security, secret.key, secret.nonce, table[j]), p, blocks, blocks', table[j]);
    }
  }

  // ---- entries ----

  /** A new entry holds nothing, or the zeros of a catalog's block as the cipher shows them. */
  lemma NewbornHeld(secret: Secret, p: Plan, table: seq<Entry>, before: seq<Block>, blocks: seq<Block>, i: nat)
    returns (shown: seq<byte>)
    requires i < |table| && Laid(p) && WellFormed(p, table[i]) && p.total <= |blocks| && table[i].blockCount <= 1
    requires ZeroedOnly(before, blocks, p, table[i]) && Encrypted(table[i].security) == Encrypted(secret.security)
    ensures HeldAt(secret, table, blocks, i)
         == Appended(!Encrypted(secret.security), shown, 4096 * table[i].blockCount)
  {
    var e := table[i];
    var c := CipherFor(secret.security, secret.key, secret.nonce, e);
    shown := HeldAt(secret, table, blocks, i);
    if e.blockCount == 1 {
      assert HoldsZero(blocks, e.first);
      assert Views(c, blocks, e.first, 1) == [] + [ViewAt(c, blocks, e.first, 0)];
      assert Flatten([ViewAt(c, blocks, e.first, 0)]) == ViewAt(c, blocks, e.first, 0) by {
        FlattenOne(ViewAt(c, blocks, e.first, 0));
      }
      AllZero(blocks[e.first]);
    } else {
      assert Views(c, blocks, e.first, 0) == [];
    }
  }

  lemma AllZero(s: seq<byte>)
    requires forall k :: 0 <= k < |s| ==> s[k] == 0
    ensures s == Zeros(|s|)
  {
  }

  lemma FlattenOne(b: Block)
    ensures Flatten([b]) == b
  {
  }

  lemma AllocateEffect(w: Setting, usedEntries: nat, table: seq<Entry>, used: set<nat>, blocks: seq<Block>,
      usedEntries': nat, table': seq<Entry>, blocks': seq<Block>, i: u32, kind: byte, name: seq<byte>, parent: u32,
      owner: seq<byte>, st: Status) returns (shown: seq<byte>)
    requires Laid(w.plan) && Exact(w.plan, table, used) && BitsAre(blocks, w.plan, used) && |table| == 256
    requires |owner| == 4 && KeepsMarked(blocks, blocks', w.plan, {})
    requires st == AllocAnswer(w.Writable(), w.plan, table, used, usedEntries, kind, name, parent)
    requires st != Ok ==> table' == table && usedEntries' == usedEntries && OutsideKept(blocks, blocks', w.plan)
    requires st == Ok ==>
      && i < 256 && |name| < 128 && IsVacant(table[i].kind) && NoneVacant(table, i) && |table'| == 256
      && (var e := table'[i];
          && table' == table[i := e] && WellFormed(w.plan, e)
          && e == NewEntry(i, kind, name, parent, owner, Encrypted(w.secret.security)).(first := e.first,
                 blockCount := e.blockCount)
          && e.blockCount == One(kind == ENTRY_CATALOG)
          && (if kind == ENTRY_CATALOG then FirstFree(w.plan, used, e.first, 1) else e.first == 0)
          && ZeroedOnly(blocks, blocks', w.plan, e) && w.plan.total <= |blocks'|)
      && usedEntries' == usedEntries + 1
    ensures Allocate(StateOf(w, usedEntries, table, blocks), kind, name, parent, owner, shown)
         == Outcome(StateOf(w, usedEntries', table', blocks'), st)
  {
    shown := [];
    ExactIsAll(w.plan, table, used);
    if st != Ok {
      QuietEffect(w.secret, w.plan, table, used, blocks, blocks');
    } else {
      KeepsMore(blocks, blocks', w.plan, {}, RunOf(table[i]));
      StepEffect(w.secret, w.plan, table, used, blocks, table', blocks', i);
      LeastVacantIs(table, i);
      if kind == ENTRY_CATALOG {
        FirstRunIs(w.plan, used, table'[i].first, 1);
      }
      shown := NewbornHeld(w.secret, w.plan, table', blocks, blocks', i);
    }
  }

  lemma FreeEffect(w: Setting, usedEntries: nat, table: seq<Entry>, used: set<nat>, blocks: seq<Block>,
      usedEntries': nat, table': seq<Entry>, blocks': seq<Block>, i: u32, st: Status)
    requires Laid(w.plan) && Exact(w.plan, table, used) && BitsAre(blocks, w.plan, used) && |table| == 256
    requires OutsideKept(blocks, blocks', w.plan) && st == FreeRefusal(w.Writable(), table, i)
    requires st != Ok ==> table' == table && usedEntries' == usedEntries
    requires st == Ok ==>
      && i < 256 && table' == table[i := Gone(table[i])]
      && usedEntries' == (if usedEntries > 0 then usedEntries - 1 else 0)
    ensures Free(StateOf(w, usedEntries, table, blocks), i) == Outcome(StateOf(w, usedEntries', table', blocks'), st)
  {
    if st != Ok {
      QuietEffect(w.secret, w.plan, table, used, blocks, blocks');
    } else {
      KeepsSelf(blocks, w.plan, RunOf(table[i]));
      KeepsOutside(blocks, blocks, blocks', w.plan, RunOf(table[i]));
      StepEffect(w.secret, w.plan, table, used, blocks, table', blocks', i);
      assert HeldAt(w.secret, table', blocks', i) == [];
    }
  }

  // ---- bytes ----

  lemma RoomyIs(s: State, used: set<nat>, e: Entry, e': Entry, need: u32)
    requires Exact(s.plan, s.table, used) && Placed(s.plan, used, e, e') && e'.blockCount == Max(e.blockCount, need)
    requires e' == e.(first := e'.first, blockCount := e'.blockCount, size := e'.size)
    ensures e' == Roomy(s, e, need).(size := e'.size)
  {
    ExactIsAll(s.plan, s.table, used);
    if e'.blockCount > e.blockCount {
      FirstRunIs(s.plan, used, e'.first, need);
    }
  }

  /** A written run is the old bytes, what the appended blocks showed, and the buffer laid over. */
  lemma WrittenHeld(was: seq<byte>, now: seq<byte>, offset: u32, bytes: seq<byte>) returns (shown: seq<byte>)
    requires |bytes| < ROUND && |now| == Max(|was|, 4096 * BlocksFor(offset + |bytes|))
    requires forall p: nat :: p < |now| && Hit(p, offset, |bytes|) ==> now[p] == bytes[Source(p, offset, |bytes|)]
    requires forall p: nat :: p < |was| && !Hit(p, offset, |bytes|) ==> now[p] == was[p]
    ensures now == Overwritten(was, offset, bytes, shown)
  {
    shown := now[|was|..];
    var base := was + Appended(false, shown, |now| - |was|);
    forall p | 0 <= p < |now|
      ensures now[p] == Overwritten(was, offset, bytes, shown)[p]
    {
      LaidAt(base, offset, bytes, p);
    }
  }

  lemma WriteEffect(w: Setting, usedEntries: nat, table: seq<Entry>, used: set<nat>, blocks: seq<Block>,
      table': seq<Entry>, blocks': seq<Block>, i: u32, offset: u32, bytes: seq<byte>, st: Status)
    returns (shown: seq<byte>)
    requires Laid(w.plan) && Exact(w.plan, table, used) && BitsAre(blocks, w.plan, used) && i < 256 == |table|
    requires |bytes| < ROUND && KeepsMarked(blocks, blocks', w.plan, RunOf(table[i]))
    requires |table'| == 256 && table' == table[i := table'[i]]
    requires st == WriteAnswer(w.Writable(), w.plan, used, table[i], offset, |bytes|)
    requires st != Ok || bytes == [] ==> table' == table && OutsideKept(blocks, blocks', w.plan)
    requires st == Ok && bytes != [] ==>
      var e, e' := table[i], table'[i];
      && e' == e.(first := e'.first, blockCount := e'.blockCount, size := e'.size) && Placed(w.plan, used, e, e')
      && e'.blockCount == Max(e.blockCount, BlocksFor(offset + |bytes|)) && e'.size == Wrap(offset + |bytes|)
      && Wrote(CipherFor(w.secret.security, w.secret.key, w.secret.nonce, e), blocks, blocks', e, e', offset, bytes)
    ensures Write(StateOf(w, usedEntries, table, blocks), i, offset, bytes, shown)
         == Outcome(StateOf(w, usedEntries, table', blocks'), st)
  {
    shown := [];
    ExactIsAll(w.plan, table, used);
    if st != Ok || bytes == [] {
      QuietEffect(w.secret, w.plan, table, used, blocks, blocks');
    } else {
      var e, e' := table[i], table'[i];
      StepEffect(w.secret, w.plan, table, used, blocks, table', blocks', i);
      RoomyIs(StateOf(w, usedEntries, table, blocks), used, e, e', BlocksFor(offset + |bytes|));
      OpenWrote(CipherFor(w.secret.security, w.secret.key, w.secret.nonce, e), blocks, blocks', e, e', offset, bytes);
      shown := WrittenHeld(HeldAt(w.secret, table, blocks, i), HeldAt(w.secret, table', blocks', i), offset, bytes);
    }
  }

  /** A run that was lengthened or shortened holds a prefix of what it held, and what appended blocks show. */
  lemma ResizedHeld(was: seq<byte>, now: seq<byte>) returns (shown: seq<byte>)
    requires now[..Min(|was|, |now|)] == was[..Min(|was|, |now|)]
    ensures |now| >= |was| ==> now == was + Appended(false, shown, |now| - |was|)
    ensures |now| <= |was| ==> now == was[..|now|]
  {
    shown := [];
    if |now| >= |was| {
      shown := now[|was|..];
      assert was[..|was|] == was;
    } else {
      assert now[..|now|] == now;
    }
  }

  lemma TruncateEffect(w: Setting, usedEntries: nat, table: seq<Entry>, used: set<nat>, blocks: seq<Block>,
      table': seq<Entry>, blocks': seq<Block>, i: u32, size: u32, st: Status)
    returns (shown: seq<byte>)
    requires Laid(w.plan) && Exact(w.plan, table, used) && BitsAre(blocks, w.plan, used) && i < 256 == |table|
    requires KeepsMarked(blocks, blocks', w.plan, RunOf(table[i])) && |table'| == 256 && table' == table[i := table'[i]]
    requires st == TruncateAnswer(w.Writable(), w.plan, used, table[i], size)
    requires st != Ok || size == table[i].size ==> table' == table && OutsideKept(blocks, blocks', w.plan)
    requires st == Ok && size != table[i].size ==>
      var e, e' := table[i], table'[i];
      && e' == e.(first := e'.first, blockCount := e'.blockCount, size := e'.size) && e'.size == size
      && Placed(w.plan, used, e, e')
      && e'.blockCount == (if size < e.size then Min(e.blockCount, BlocksFor(size))
             else Max(e.blockCount, BlocksFor(size)))
      && PrefixKept(CipherFor(w.secret.security, w.secret.key, w.secret.nonce, e), blocks, blocks', e, e')
    ensures Truncate(StateOf(w, usedEntries, table, blocks), i, size, shown)
         == Outcome(StateOf(w, usedEntries, table', blocks'), st)
  {
    shown := [];
    if st != Ok || size == table[i].size {
      ExactIsAll(w.plan, table, used);
    } else {
      OpenPrefixKept(CipherFor(w.secret.security, w.secret.key, w.secret.nonce, table[i]), blocks, blocks', table[i],
          table'[i]);
    }
    if st != Ok || size == table[i].size {
      QuietEffect(w.secret, w.plan, table, used, blocks, blocks');
    } else {
      StepEffect(w.secret, w.plan, table, used, blocks, table', blocks', i);
      shown := ResizedSlot(w, usedEntries, table, used, blocks, table'[i], HeldAt(w.secret, table', blocks', i), i,
          size);
    }
  }

  lemma ResizedSlot(w: Setting, usedEntries: nat, table: seq<Entry>, used: set<nat>, blocks: seq<Block>, e': Entry,
      now: seq<byte>, i: u32, size: u32) returns (shown: seq<byte>)
    requires Exact(w.plan, table, used) && i < 256 == |table| && size != table[i].size
    requires TruncateAnswer(w.Writable(), w.plan, used, table[i], size) == Ok
    requires var e, was := table[i], HeldAt(w.secret, table, blocks, i);
      && e' == e.(first := e'.first, blockCount := e'.blockCount, size := e'.size) && e'.size == size
      && Placed(w.plan, used, e, e')
      && e'.blockCount == (if size < e.size then Min(e.blockCount, BlocksFor(size))
             else Max(e.blockCount, BlocksFor(size)))
      && |now| == 4096 * e'.blockCount && now[..Min(|was|, |now|)] == was[..Min(|was|, |now|)]
    ensures var s := StateOf(w, usedEntries, table, blocks);
            Truncate(s, i, size, shown) == Outcome(WithSlot(s, i, e', now), Ok)
  {
    var e := table[i];
    ExactIsAll(w.plan, table, used);
    shown := ResizedHeld(HeldAt(w.secret, table, blocks, i), now);
    if size > e.size {
      RoomyIs(StateOf(w, usedEntries, table, blocks), used, e, e', BlocksFor(size));
    }
  }
}
