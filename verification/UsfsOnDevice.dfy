/**
 What the state of a USFS volume is on the device, byte by byte and bit by bit, and
 what a fresh volume holds.
 */
module UsfsOnDevice {
  import opened Words
  import opened Bitmap
  import opened Records
  import opened Crc32c
  import Sutf8
  import opened UsfsTypes
  import opened UsfsVolume
  import opened UsfsBitmap
  import opened UsfsContent
  import opened UsfsFile
  import opened UsfsEntry
  import opened UsfsObjects
  import opened UsfsEffects
  import opened UsfsAnswers
  import opened UsfsAtRest
  import opened UsfsRuns

  /** The abstract state is the volume's, field by field. */
  lemma NowIs(v: Volume)
    requires v.Shaped()
    ensures var s := Now(v);
            && s.locked == v.locked && s.error == v.error && s.plan == v.plan && s.security == v.security
            && s.usedEntries == v.usedEntries && s.table == v.table && |s.held| == 256
  {
  }

  /** What a slot holds are the bytes of its blocks, unmasked if they are masked. */
  lemma HeldRests(v: Volume, i: nat, p: nat)
    requires InOrder(v) && i < 256
    ensures |Now(v).held[i]| == 4096 * v.table[i].blockCount
    ensures p < 4096 * v.table[i].blockCount ==> ByteRests(v, v.table[i], p, Now(v).held[i][p])
  {
    ExactAt(v.plan, v.table, v.used, i);
    if p < 4096 * v.table[i].blockCount {
      ByteOnDevice(v, v.table[i], p);
    }
  }

  /** A data block is used exactly if its bit is set, in the bitmap that starts at block 17; the others are counted. */
  lemma BitOnDevice(v: Volume, b: nat, y: nat, t: nat)
    requires v.Valid() && y < 4096 && t < 8 && 32768 * b + 8 * y + t < v.plan.total - v.plan.dataStart
    ensures 17 + b < v.plan.dataStart <= |v.blocks|
    ensures v.plan.dataStart + (32768 * b + 8 * y + t) in v.used <==> Set(v.blocks, 17 + b, y, t)
    ensures v.freeBlocks == v.plan.total - v.plan.dataStart - |v.used|
  {
    OpenBits(v.blocks, v.plan, v.used);
    OpenCounted(v.freeBlocks, v.plan, v.used);
    MarkedIsSet(v.blocks, b, y, t);
  }

  /** The used blocks are those of the entries, and no two entries share one. */
  lemma RunsOnDevice(v: Volume, b: nat)
    requires InOrder(v)
    ensures b in v.used <==>
              exists i :: 0 <= i < 256 && v.table[i].first <= b < v.table[i].first + v.table[i].blockCount
    ensures forall i, j :: 0 <= i < j < 256 && v.table[i].first <= b < v.table[i].first + v.table[i].blockCount ==>
              !(v.table[j].first <= b < v.table[j].first + v.table[j].blockCount)
    ensures b in v.used ==> v.plan.dataStart <= b < v.plan.total
  {
    OpenExact(v.plan, v.table, v.used);
    OpenBits(v.blocks, v.plan, v.used);
    forall i, j | 0 <= i < j < 256 && v.table[i].first <= b < v.table[i].first + v.table[i].blockCount
      ensures !(v.table[j].first <= b < v.table[j].first + v.table[j].blockCount)
    {
      assert b in RunOf(v.table[i]);
      assert b in RunOf(v.table[j]) <==> v.table[j].first <= b < v.table[j].first + v.table[j].blockCount;
    }
    assert forall i :: 0 <= i < 256 ==>
      (b in RunOf(v.table[i]) <==> v.table[i].first <= b < v.table[i].first + v.table[i].blockCount);
  }

  /** Entry `i` is the record in slot `i % 16` of block `1 + i / 16`, and its checksum verifies. */
  lemma EntryOnDevice(v: Volume, i: nat, r: seq<byte>)
    requires v.Shaped() && i < 256 && r == v.blocks[1 + i / 16][256 * (i % 16)..256 * (i % 16) + 256]
    ensures var e := v.table[i];
            && e.index == Le32(r[0..4]) && e.kind == r[4] && e.nameLength == r[5] && e.security == r[6]
            && e.reserved == r[7] && e.mode == r[8..12] && e.size == Le32(r[12..16])
            && e.first == Le32(r[16..20]) && e.blockCount == Le32(r[20..24]) && e.parent == Le32(r[24..28])
            && e.stamps == r[28..36] && e.name == r[36..164] && e.owner == r[164..168] && e.padding == r[168..252]
            && (e.kind != 0 ==> Le32(r[252..256]) == StructCrc(r, 252))
  {
    OpenTabled(Rows(v.blocks), v.table);
    assert SlotBytes(Rows(v.blocks), 0, i) == r;
    RecordFields(r, v.table[i]);
    SlotIsBad(r);
  }

  lemma RecordFields(r: seq<byte>, e: Entry)
    requires |r| == 256 && e == EntryIn(r)
    ensures e.index == Le32(r[0..4]) && e.kind == r[4] && e.nameLength == r[5] && e.security == r[6]
    ensures e.reserved == r[7] && e.mode == r[8..12] && e.size == Le32(r[12..16])
    ensures e.first == Le32(r[16..20]) && e.blockCount == Le32(r[20..24]) && e.parent == Le32(r[24..28])
    ensures e.stamps == r[28..36] && e.name == r[36..164] && e.owner == r[164..168] && e.padding == r[168..252]
  {
    var body := r[..252];
    EntryLayout(r, body, e);
    Within(r, body, 0, 4);
    Within(r, body, 8, 12);
    Within(r, body, 12, 16);
    Within(r, body, 16, 20);
    Within(r, body, 20, 24);
    Within(r, body, 24, 28);
    Within(r, body, 28, 36);
    Within(r, body, 36, 164);
    Within(r, body, 164, 168);
    Within(r, body, 168, 252);
  }

  lemma Within(r: seq<byte>, body: seq<byte>, a: nat, b: nat)
    requires |r| == 256 && body == r[..252] && a <= b <= 252
    ensures body[a..b] == r[a..b]
  {
  }

  // ---- a fresh volume ----

  /** The root catalog in slot 0, with the first data block; nothing else. */
  lemma NewStateIs(plan: Plan, owner: seq<byte>)
    requires Laid(plan) && |owner| == 4
    ensures var s := NewState(plan, owner);
            && Formed(s) && s.plan == plan && !s.locked && !s.error && s.security == 0 && s.usedEntries == 1
            && Fresh(s.table[0], 0, 2, [0x2F], 0, owner, false)
            && s.table[0].first == plan.dataStart && s.table[0].blockCount == 1
            && |s.held[0]| == 4096 && (forall p :: 0 <= p < 4096 ==> s.held[0][p] == 0)
            && forall j :: 1 <= j < 256 ==>
              s.table[j].kind == 0 && s.table[j].blockCount == 0 && s.table[j].size == 0 && s.held[j] == []
  {
    var s, s' := EmptyState(plan), NewState(plan, owner);
    RootAnswers(s, owner);
    var i := AllocateLeaves(s, 2, [0x2F], 0, owner, []);
    assert i == 0 by { assert s.table[0].kind == 0; }
    var e := s'.table[0];
    assert e.first == plan.dataStart by {
      assert Gap(s, plan.dataStart, 1);
      assert LeastGap(s, e.first, 1);
    }
    forall j | 1 <= j < 256
      ensures s'.table[j] == NO_ENTRY && s'.held[j] == []
    {
      assert s.table[j] == NO_ENTRY && s.held[j] == [];
    }
  }

  lemma RootAnswers(s: State, owner: seq<byte>)
    requires Laid(s.plan) && |owner| == 4 && s == EmptyState(s.plan)
    ensures Allocate(s, 2, [0x2F], 0, owner, []).answer == Ok
  {
    assert Sutf8.Valid([0x2F]) by { SlashIsValid(); }
    assert s.table[0].kind == 0;
    assert Gap(s, s.plan.dataStart, 1);
    AllocateAnswers(s, 2, [0x2F], 0, owner, []);
  }

  // ---- runs ----

  /** Which entries a run is about: those its operations name. */
  lemma {:induction false} TouchedIs(ops: seq<Op>, i: nat)
    ensures i in TouchedBy(ops) <==> exists k :: 0 <= k < |ops| && Names(ops[k], i)
  {
    if ops != [] {
      var n := |ops| - 1;
      TouchedIs(ops[..n], i);
      if k :| 0 <= k < |ops| && Names(ops[k], i) {
        assert k < n ==> ops[..n][k] == ops[k];
      }
      if k :| 0 <= k < n && Names(ops[..n][k], i) {
        assert ops[k] == ops[..n][k];
      }
    }
  }

  predicate Names(op: Op, i: nat) {
    match op
    case AllocateEntry(_, _, _) => false
    case FreeEntry(number) => i == number
    case WriteFile(number, _, _) => i == number
    case TruncateFile(number, _) => i == number
  }

  /** How often a run frees what is deleted already: the frees that succeed on a slot that is not live. */
  lemma {:induction false} AgainIs(ops: seq<Op>, answers: seq<Status>, states: seq<State>, again: set<nat>)
    requires |answers| == |ops| <= |states|
    requires forall k: nat :: k in again <==> Twice(ops, answers, states, k)
    ensures Again(ops, answers, states) == |again|
  {
    if ops == [] {
      assert again == {};
    } else {
      var n: nat := |ops| - 1;
      var before := again - {n};
      forall k: nat
        ensures k in before <==> Twice(ops[..n], answers[..n], states, k)
      {
        TwiceBefore(ops, answers, states, n, k);
      }
      AgainIs(ops[..n], answers[..n], states, before);
      assert again == if Twice(ops, answers, states, n) then before + {n} else before;
    }
  }

  lemma TwiceBefore(ops: seq<Op>, answers: seq<Status>, states: seq<State>, n: nat, k: nat)
    requires n < |ops| == |answers| <= |states|
    ensures Twice(ops[..n], answers[..n], states, k) <==> k < n && Twice(ops, answers, states, k)
  {
  }

  predicate Twice(ops: seq<Op>, answers: seq<Status>, states: seq<State>, k: nat)
    requires |answers| == |ops| <= |states|
  {
    && k < |ops| && ops[k].FreeEntry? && answers[k] == Ok && ops[k].i < |states[k].table|
    && !(0 < states[k].table[ops[k].i].kind < 0x80)
  }
}
