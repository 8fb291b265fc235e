/**
 What the operations of an OWFS volume answer and leave, each case by the field it is
 decided by: the flags and the security bits, kinds as numbers, sizes as byte counts,
 room as the smaller of the two counts of free blocks.
 */
module OwfsAnswers {
  import opened Words
  import opened Splice
  import Sutf8
  import opened OwfsTypes
  import opened OwfsVolume
  import opened OwfsOwnership
  import opened OwfsBlockmap
  import opened OwfsInode
  import opened OwfsDirectory
  import opened OwfsCatalog
  import opened OwfsFile
  import opened OwfsState
  import opened OwfsObjects

  // ---- blocks ----

  /** What a file or directory of `n` blocks takes: past ten, one more for the indirect block. */
  function Takes(n: nat): nat {
    if n > 10 then n + 1 else n
  }

  /** What growing from `n` to `m` blocks takes. */
  function Price(n: nat, m: nat): nat {
    if m <= n then 0 else Takes(m) - Takes(n)
  }

  predicate Affords(s: State, k: nat) {
    k <= s.stock.free && k <= s.stock.clear
  }

  lemma DemandIsPrice(n: nat, m: nat)
    ensures Demand(n, m) == Price(n, m)
  {
    if n < m {
      DemandIs(n, m);
    }
  }

  lemma NeedsBlocks(end: nat, n: nat)
    requires Needs(end, n)
    ensures BlocksFor(end) == n
  {
  }

  /** What every writing operation is refused for first. */
  function Barred(s: State): Status {
    if s.flags.locked || s.flags.error then VolumeDirty
    else if s.security / 2 % 2 == 1 then WriteProtected
    else Ok
  }

  // ---- files ----

  lemma WriteAnswers(s: State, i: nat, offset: nat, bytes: seq<byte>, shown: seq<byte>, m: nat)
    requires Needs(offset + |bytes|, m)
    ensures Write(s, i, offset, bytes, shown).answer ==
        if i >= |s.objects| then NotFound
        else if !s.objects[i].body.File? then NotFile
        else if bytes == [] then Ok
        else if Barred(s) != Ok then Barred(s)
        else if s.objects[i].readOnly then WriteProtected
        else if offset + |bytes| > 4_235_264 then BufferTooSmall
        else if Affords(s, Price(|s.objects[i].body.held| / 4096, m)) then Ok
        else NoFreeBlocks
    ensures bytes == [] || Write(s, i, offset, bytes, shown).answer !in {Ok, NoFreeBlocks} ==>
      Write(s, i, offset, bytes, shown).state == s
  {
    NeedsBlocks(offset + |bytes|, m);
    if i < |s.objects| && s.objects[i].body.File? {
      DemandIsPrice(|s.objects[i].body.held| / 4096, m);
    }
  }

  /** The buffer from `offset` on, everywhere else what there was; zeros in what a clear file grows by. */
  ghost predicate Carries(f: Body, now: Body, offset: nat, bytes: seq<byte>)
    requires f.File? && now.File?
  {
    forall p :: 0 <= p < |now.held| ==>
      if offset <= p < offset + |bytes| then now.held[p] == bytes[p - offset]
      else if p < |f.held| then now.held[p] == f.held[p]
      else f.clear ==> now.held[p] == 0
  }

  lemma WriteLeaves(s: State, i: nat, offset: nat, bytes: seq<byte>, shown: seq<byte>, m: nat)
    requires Needs(offset + |bytes|, m) && bytes != [] && Write(s, i, offset, bytes, shown).answer == Ok
    ensures i < |s.objects| && s.objects[i].body.File? && Affords(s, Price(|s.objects[i].body.held| / 4096, m))
    ensures var (f, s') := (s.objects[i].body, Write(s, i, offset, bytes, shown).state);
            var now := s'.objects[i].body;
            var k := Price(|f.held| / 4096, m);
            && s' == s.(stock := Stock(s.stock.free - k, s.stock.clear - k),
                        objects := s.objects[i := s.objects[i].(body := now)])
            && now.File? && now.clear == f.clear
            && now.size == (if offset + |bytes| > f.size then offset + |bytes| else f.size)
            && |now.held| == (if |f.held| > 4096 * m then |f.held| else 4096 * m)
            && Carries(f, now, offset, bytes)
  {
    NeedsBlocks(offset + |bytes|, m);
    WriteAnswers(s, i, offset, bytes, shown, m);
    DemandIsPrice(|s.objects[i].body.held| / 4096, m);
    OverwrittenCarries(s.objects[i].body, offset, bytes, shown);
  }

  lemma OverwrittenCarries(f: Body, offset: nat, bytes: seq<byte>, shown: seq<byte>)
    requires f.File?
    ensures Carries(f, Overwritten(f, offset, bytes, shown), offset, bytes)
  {
    Covered(offset + |bytes|);
    var n := Max(|f.held|, 4096 * BlocksFor(offset + |bytes|)) - |f.held|;
    var base := f.held + Appended(f.clear, shown, n);
    forall p | 0 <= p < |base|
      ensures Over(base, offset, bytes)[p] == if offset <= p < offset + |bytes| then bytes[p - offset] else base[p]
    {
      OverAt(base, offset, bytes, p);
    }
  }

  /** A write that runs out of blocks changes no object; at most one free block is left, before the indirect block. */
  lemma WriteRunsOut(s: State, i: nat, offset: nat, bytes: seq<byte>, shown: seq<byte>)
    requires bytes != [] && Write(s, i, offset, bytes, shown).answer == NoFreeBlocks
    ensures i < |s.objects| && s.objects[i].body.File?
    ensures var (n, s') := (|s.objects[i].body.held| / 4096, Write(s, i, offset, bytes, shown).state);
            var room := if s.stock.free <= s.stock.clear then s.stock.free else s.stock.clear;
            var left := if n <= 10 && room == 11 - n then 1 else 0;
            s' == s.(stock := Stock(s.stock.free - (room - left), s.stock.clear - (room - left)))
  {
  }

  lemma TruncateAnswers(s: State, i: nat, size: nat)
    ensures Truncate(s, i, size).answer ==
        if i >= |s.objects| then NotFound
        else if !s.objects[i].body.File? then NotFile
        else if Barred(s) != Ok then Barred(s)
        else if s.objects[i].readOnly then WriteProtected
        else Ok
    ensures Truncate(s, i, size).answer != Ok || size >= s.objects[i].body.size ==> Truncate(s, i, size).state == s
  {
  }

  /** A file that is cut keeps its first blocks; the blocks it loses are counted in 32 bits. */
  lemma TruncateLeaves(s: State, i: nat, size: nat, m: nat)
    requires Needs(size, m) && Truncate(s, i, size).answer == Ok && size < s.objects[i].body.size
    ensures var f := s.objects[i].body;
            var (n, s') := (|f.held| / 4096, Truncate(s, i, size).state);
            var k := Takes(n) - Takes(if n < m then n else m);
            && s'.stock == Stock((s.stock.free + k) % 0x1_0000_0000, s.stock.clear + k)
            && s' == s.(stock := s'.stock, objects := s.objects[i := s.objects[i].(body := s'.objects[i].body)])
            && s'.objects[i].body ==
                 File(f.clear, size, f.held[..if |f.held| < 4096 * m then |f.held| else 4096 * m])
  {
    NeedsBlocks(size, m);
  }

  // ---- inodes ----

  lemma AllocateAnswers(s: State, kind: byte, name: seq<byte>)
    ensures Allocate(s, kind, name).answer ==
        if kind != 1 && kind != 2 then InvalidParam
        else if |name| >= 128 then NameTooLong
        else if name != [] && !Sutf8.Valid(name) then InvalidParam
        else if Barred(s) != Ok then Barred(s)
        else if s.freeInodes == 0 then NoFreeInodes
        else if forall j :: 0 <= j < |s.objects| ==> 0 < s.objects[j].kind < 0x80 then NoFreeInodes
        else Ok
    ensures Allocate(s, kind, name).answer != Ok ==> Allocate(s, kind, name).state == s
  {
  }

  /** The first vacant number gets an empty object; what is stored for it is clear unless the volume is encrypted. */
  lemma AllocateLeaves(s: State, kind: byte, name: seq<byte>) returns (i: nat)
    requires Allocate(s, kind, name).answer == Ok
    ensures i < |s.objects| && !(0 < s.objects[i].kind < 0x80)
    ensures forall j :: 0 <= j < i ==> 0 < s.objects[j].kind < 0x80
    ensures s.freeInodes > 0 && (kind == 1 || kind == 2)
    ensures Allocate(s, kind, name).state ==
        s.(freeInodes := s.freeInodes - 1,
           objects := s.objects[i := Object(kind, false,
                          if kind == 2 then Directory(0, map[]) else File(s.security % 2 == 0, 0, []))])
  {
    i := LeastVacant(s.objects);
  }

  lemma FreeAnswers(s: State, i: nat)
    ensures Free(s, i).answer ==
        if Barred(s) != Ok then Barred(s)
        else if i >= |s.objects| || s.objects[i].kind == 0 then NotFound
        else if s.objects[i].kind < 0x80 && s.objects[i].readOnly then WriteProtected
        else Ok
    ensures Free(s, i).answer != Ok || s.objects[i].kind >= 0x80 ==> Free(s, i).state == s
  {
  }

  /** A live object that is freed is empty, its kind marked; its blocks and its number are counted in 32 bits. */
  lemma FreeLeaves(s: State, i: nat)
    requires Free(s, i).answer == Ok && s.objects[i].kind < 0x80
    ensures var (o, s') := (s.objects[i], Free(s, i).state);
            var k := match o.body
              case Nothing => 0
              case File(_, _, held) => Takes(|held| / 4096)
              case Directory(blocks, _) => Takes(blocks);
            && s'.stock == Stock((s.stock.free + k) % 0x1_0000_0000, s.stock.clear + k)
            && s'.freeInodes == (s.freeInodes + 1) % 0x1_0000_0000
            && s' == s.(stock := s'.stock, freeInodes := s'.freeInodes, objects := s.objects[i := s'.objects[i]])
            && s'.objects[i].kind == o.kind + 0x80 && s'.objects[i].readOnly == o.readOnly
            && match o.body
               case Nothing => s'.objects[i].body.Nothing?
               case File(clear, _, _) => s'.objects[i].body == File(clear, 0, [])
               case Directory(_, _) => s'.objects[i].body == Directory(0, map[])
  {
  }

  // ---- names ----

  /** What one more block takes: the eleventh brings the indirect block with it. */
  function NextPrice(blocks: nat): nat {
    if blocks == 10 then 2 else 1
  }

  lemma BindAnswers(s: State, p: nat, name: seq<byte>, target: u32, kind: byte)
    ensures Bind(s, p, name, target, kind).answer ==
        if name == [] then InvalidParam
        else if |name| >= 128 then NameTooLong
        else if kind != 1 && kind != 2 then InvalidParam
        else if !Sutf8.Valid(name) then InvalidParam
        else if Barred(s) != Ok then Barred(s)
        else if p >= |s.objects| then NotFound
        else if !s.objects[p].body.Directory? then NotCatalog
        else
          var d := s.objects[p].body;
          if name in d.names then AlreadyExists
          else if |d.names| == 16 * d.blocks && (d.blocks == 1034 || !Affords(s, NextPrice(d.blocks))) then CatalogFull
          else Ok
    ensures Bind(s, p, name, target, kind).answer != Ok ==> Bind(s, p, name, target, kind).state == s
  {
  }

  /** A directory whose slots are all taken grows by a block. */
  lemma BindLeaves(s: State, p: nat, name: seq<byte>, target: u32, kind: byte)
    requires Bind(s, p, name, target, kind).answer == Ok
    ensures var (d, s') := (s.objects[p].body, Bind(s, p, name, target, kind).state);
            var k := if |d.names| == 16 * d.blocks then NextPrice(d.blocks) else 0;
            && Affords(s, k)
            && s' == s.(stock := Stock(s.stock.free - k, s.stock.clear - k),
                        objects := s.objects[p := s.objects[p].(body := s'.objects[p].body)])
            && s'.objects[p].body ==
                 Directory(if |d.names| == 16 * d.blocks then d.blocks + 1 else d.blocks,
                           d.names[name := Binding(target, kind)])
  {
  }

  lemma UnbindAnswers(s: State, p: nat, name: seq<byte>)
    ensures Unbind(s, p, name).answer ==
        if name == [] then InvalidParam
        else if |name| >= 128 then NameTooLong
        else if Barred(s) != Ok then Barred(s)
        else if p >= |s.objects| then NotFound
        else if !s.objects[p].body.Directory? then NotCatalog
        else if name !in s.objects[p].body.names then NotFound
        else Ok
    ensures Unbind(s, p, name).answer != Ok ==> Unbind(s, p, name).state == s
  {
  }

  lemma UnbindLeaves(s: State, p: nat, name: seq<byte>)
    requires Unbind(s, p, name).answer == Ok
    ensures var d := s.objects[p].body;
            Unbind(s, p, name).state ==
                s.(objects := s.objects[p := s.objects[p].(body := Directory(d.blocks, d.names - {name}))])
  {
  }

  // ---- creation ----

  /** In a live directory, on a volume that is not barred, with a number to spare: what decides a creation. */
  lemma CreateAnswers(s: State, p: nat, name: seq<byte>, kind: byte)
    requires p < |s.objects| <= 0x1_0000_0000 && s.objects[p].body.Directory? && 0 < s.objects[p].kind < 0x80
    requires kind == 1 || kind == 2
    ensures Create(s, p, name, kind).answer ==
        if |name| >= 128 then NameTooLong
        else if name != [] && !Sutf8.Valid(name) then InvalidParam
        else if Barred(s) != Ok then Barred(s)
        else if s.freeInodes == 0 || forall j :: 0 <= j < |s.objects| ==> 0 < s.objects[j].kind < 0x80 then NoFreeInodes
        else if name == [] then InvalidParam
        else
          var d := s.objects[p].body;
          if name in d.names then AlreadyExists
          else if |d.names| == 16 * d.blocks && (d.blocks == 1034 || !Affords(s, NextPrice(d.blocks))) then CatalogFull
          else Ok
  {
    AllocateAnswers(s, kind, name);
    if Allocate(s, kind, name).answer == Ok {
      var i := AllocateLeaves(s, kind, name);
      assert i == LeastVacant(s.objects);
      BindAnswers(Allocate(s, kind, name).state, p, name, Wrap(i), kind);
    }
  }

  /** One empty object under the first vacant number, a name for it with its kind, a block if there was no slot. */
  lemma CreateLeaves(s: State, p: nat, name: seq<byte>, kind: byte) returns (i: u32)
    requires p < |s.objects| <= 0x1_0000_0000 && s.objects[p].body.Directory? && 0 < s.objects[p].kind < 0x80
    requires Create(s, p, name, kind).answer == Ok
    ensures i < |s.objects| && i != p && !(0 < s.objects[i].kind < 0x80)
    ensures forall j :: 0 <= j < i ==> 0 < s.objects[j].kind < 0x80
    ensures var d := s.objects[p].body;
            var full := |d.names| == 16 * d.blocks;
            var k := if full then NextPrice(d.blocks) else 0;
            && Affords(s, k) && s.freeInodes > 0
            && Create(s, p, name, kind).state ==
                 s.(stock := Stock(s.stock.free - k, s.stock.clear - k), freeInodes := s.freeInodes - 1,
                    objects := s.objects
                      [i := Object(kind, false,
                         if kind == 2 then Directory(0, map[]) else File(s.security % 2 == 0, 0, []))]
                      [p := s.objects[p].(body := Directory(if full then d.blocks + 1 else d.blocks,
                                                            d.names[name := Binding(i, kind)]))])
  {
    var first := Allocate(s, kind, name);
    var j := AllocateLeaves(s, kind, name);
    assert j == LeastVacant(s.objects);
    i := j;
    BindLeaves(first.state, p, name, i, kind);
  }

  // ---- the operations of a run ----

  /** Which operation a step of a run is; syncing clears DIRTY and LOCKED and keeps ERROR. */
  lemma NextIs(s: State, shown: seq<byte>)
    ensures forall p: u32, name :: Next(s, CreateFile(p, name), shown) == Create(s, p, name, 1)
    ensures forall p: u32, name :: Next(s, MakeCatalog(p, name), shown) == Create(s, p, name, 2)
    ensures forall p: u32, name, t: u32, k: byte :: Next(s, Link(p, name, t, k), shown) == Bind(s, p, name, t, k)
    ensures forall p: u32, name :: Next(s, Unlink(p, name), shown) == Unbind(s, p, name)
    ensures forall k: byte, name, p: u32 :: Next(s, AllocateInode(k, name, p), shown) == Allocate(s, k, name)
    ensures forall i: u32 :: Next(s, FreeInode(i), shown) == Free(s, i)
    ensures forall i: u32, o: u32, bytes :: Next(s, WriteFile(i, o, bytes), shown) == Write(s, i, o, bytes, shown)
    ensures forall i: u32, n: u32 :: Next(s, TruncateFile(i, n), shown) == Truncate(s, i, n)
    ensures Next(s, SyncVolume, shown) == Outcome(s.(flags := s.flags.(dirty := false, locked := false)), Ok)
  {
  }
}
