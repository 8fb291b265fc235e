/**
 A catalog as a finite map from names to inode numbers and kinds, seen through its
 array of entry slots.
 */
module OwfsDirectory {
  import opened Words
  import opened Veils
  import Sutf8
  import opened OwfsTypes

  predicate Live(e: Entry) {
    e.entryType != 0 && !IsDeleted(e.entryType)
  }

  function NameOf(e: Entry): seq<byte> {
    if e.nameLength <= 128 then e.name[..e.nameLength] else e.name
  }

  /** What insertion writes: a checksum that verifies and a name of one to 127 bytes of valid SUTF-8. */
  ghost predicate SoundEntry(e: Entry) {
    var r: bool :| forall k {:trigger Lifted(Record, k)} :: Lifted(Record, k) ==> (r <==> SoundEntryInFull(e));
    r
  }

  ghost predicate SoundEntryInFull(e: Entry) {
    EntryVerifies(e) && 0 < e.nameLength < 128 && Sutf8.Valid(NameOf(e))
  }

  lemma OpenSoundEntry(e: Entry)
    ensures SoundEntry(e) <==> SoundEntryInFull(e)
  {
    assert Lifted(Record, 0);
  }

  ghost predicate Unique(es: seq<Entry>) {
    forall s, t :: 0 <= s < t < |es| && Live(es[s]) && Live(es[t]) ==> NameOf(es[s]) != NameOf(es[t])
  }

  /** Every live entry is sound and no two live entries share a name. */
  ghost predicate Tidy(es: seq<Entry>) {
    Unique(es) && forall s :: 0 <= s < |es| && Live(es[s]) ==> SoundEntry(es[s])
  }

  /** What a name stands for: an inode number, and whether it is listed as a file or as a catalog. */
  datatype Binding = Binding(inode: u32, kind: byte)

  function BindingOf(e: Entry): Binding {
    Binding(e.inode, e.entryType)
  }

  /** The names bound by the live slots. */
  function DirOf(es: seq<Entry>): map<seq<byte>, Binding> {
    if es == [] then map[]
    else
      var e := es[|es| - 1];
      var d := DirOf(es[..|es| - 1]);
      if Live(e) then d[NameOf(e) := BindingOf(e)] else d
  }

  /** A name is bound exactly when a live slot carries it. */
  lemma {:induction false} DirHas(es: seq<Entry>, name: seq<byte>)
    ensures name in DirOf(es) <==> exists s :: 0 <= s < |es| && Live(es[s]) && NameOf(es[s]) == name
  {
    if es != [] {
      var n := |es| - 1;
      DirHas(es[..n], name);
      if s :| 0 <= s < |es| && Live(es[s]) && NameOf(es[s]) == name {
        assert s < n ==> es[..n][s] == es[s];
      }
      if s :| 0 <= s < n && Live(es[..n][s]) && NameOf(es[..n][s]) == name {
        assert es[s] == es[..n][s];
      }
    }
  }

  /** And it is bound to that slot's inode, as that slot's kind. */
  lemma {:induction false} DirAt(es: seq<Entry>, s: nat)
    requires Unique(es) && s < |es| && Live(es[s])
    ensures NameOf(es[s]) in DirOf(es) && DirOf(es)[NameOf(es[s])] == Binding(es[s].inode, es[s].entryType)
  {
    var n := |es| - 1;
    if s < n {
      assert es[..n][s] == es[s];
      DirAt(es[..n], s);
    }
  }

  /** There are as many names as live slots; so all are live exactly when there are as many names as slots. */
  lemma {:induction false} DirSize(es: seq<Entry>)
    requires Unique(es)
    ensures |DirOf(es)| <= |es| && (|DirOf(es)| == |es| <==> forall s :: 0 <= s < |es| ==> Live(es[s]))
  {
    if es != [] {
      var n := |es| - 1;
      DirSize(es[..n]);
      if Live(es[n]) {
        DirHas(es[..n], NameOf(es[n]));
        assert NameOf(es[n]) !in DirOf(es[..n]);
        assert DirOf(es).Keys == DirOf(es[..n]).Keys + {NameOf(es[n])};
        assert |DirOf(es)| == |DirOf(es[..n])| + 1;
      }
    }
  }

  /** The map is decided by those two facts. */
  lemma DirIs(es: seq<Entry>, m: map<seq<byte>, Binding>)
    requires Unique(es)
    requires forall name :: name in m ==> exists s :: 0 <= s < |es| && Live(es[s]) && NameOf(es[s]) == name
    requires forall s :: 0 <= s < |es| && Live(es[s]) ==> NameOf(es[s]) in m && m[NameOf(es[s])] == BindingOf(es[s])
    ensures DirOf(es) == m
  {
    var d := DirOf(es);
    forall name
      ensures name in d <==> name in m
      ensures name in d ==> d[name] == m[name]
    {
      DirHas(es, name);
      if name in m {
        var s :| 0 <= s < |es| && Live(es[s]) && NameOf(es[s]) == name;
        DirAt(es, s);
      }
    }
  }

  /** Filling a vacant slot binds one new name; every other binding survives. */
  lemma DirFill(es: seq<Entry>, s: nat, e: Entry)
    requires Tidy(es) && s < |es| && !Live(es[s]) && Live(e) && SoundEntry(e) && NameOf(e) !in DirOf(es)
    ensures Tidy(es[s := e]) && DirOf(es[s := e]) == DirOf(es)[NameOf(e) := Binding(e.inode, e.entryType)]
  {
    var after := es[s := e];
    var m := DirOf(es)[NameOf(e) := Binding(e.inode, e.entryType)];
    DirHas(es, NameOf(e));
    forall name | name in m
      ensures exists t :: 0 <= t < |after| && Live(after[t]) && NameOf(after[t]) == name
    {
      if name == NameOf(e) {
        assert after[s] == e;
      } else {
        DirHas(es, name);
        var t :| 0 <= t < |es| && Live(es[t]) && NameOf(es[t]) == name;
        assert after[t] == es[t];
      }
    }
    forall t | 0 <= t < |after| && Live(after[t])
      ensures NameOf(after[t]) in m && m[NameOf(after[t])] == BindingOf(after[t])
    {
      if t != s {
        DirAt(es, t);
      }
    }
    DirIs(after, m);
  }

  /** Killing a live slot unbinds exactly its name. */
  lemma DirKill(es: seq<Entry>, s: nat, e: Entry)
    requires Tidy(es) && s < |es| && Live(es[s]) && !Live(e)
    ensures Tidy(es[s := e]) && DirOf(es[s := e]) == DirOf(es) - {NameOf(es[s])}
  {
    var after := es[s := e];
    var m := DirOf(es) - {NameOf(es[s])};
    forall name | name in m
      ensures exists t :: 0 <= t < |after| && Live(after[t]) && NameOf(after[t]) == name
    {
      DirHas(es, name);
      var t :| 0 <= t < |es| && Live(es[t]) && NameOf(es[t]) == name;
      assert after[t] == es[t];
    }
    forall t | 0 <= t < |after| && Live(after[t])
      ensures NameOf(after[t]) in m && m[NameOf(after[t])] == BindingOf(after[t])
    {
      DirAt(es, t);
    }
    DirIs(after, m);
  }

  /** Slots that are not live bind nothing. */
  lemma {:induction false} DirPad(es: seq<Entry>, pad: seq<Entry>)
    requires Tidy(es) && forall s :: 0 <= s < |pad| ==> !Live(pad[s])
    ensures Tidy(es + pad) && DirOf(es + pad) == DirOf(es)
    decreases |pad|
  {
    if pad == [] {
      assert es + pad == es;
    } else {
      var n := |pad| - 1;
      DirPad(es, pad[..n]);
      assert (es + pad)[..|es| + n] == es + pad[..n];
    }
  }

  /** A fresh block of slots, with `e` in the first of them, adds one binding. */
  lemma DirExtend(es: seq<Entry>, pad: seq<Entry>, e: Entry)
    requires Tidy(es) && pad != [] && forall s :: 0 <= s < |pad| ==> !Live(pad[s])
    requires Live(e) && SoundEntry(e) && NameOf(e) !in DirOf(es)
    ensures Tidy(es + pad[0 := e]) && DirOf(es + pad[0 := e]) == DirOf(es)[NameOf(e) := Binding(e.inode, e.entryType)]
  {
    DirPad(es, pad);
    DirFill(es + pad, |es|, e);
    assert (es + pad)[|es| := e] == es + pad[0 := e];
  }

  /** A live slot under a name that is bound already makes the name ambiguous, wherever the slot is. */
  lemma DirAmbiguous(es: seq<Entry>, after: seq<Entry>, s: nat, e: Entry)
    requires Live(e) && NameOf(e) in DirOf(es) && s < |after| && after[s] == e
    requires forall t :: 0 <= t < |es| && Live(es[t]) ==> t != s && t < |after| && after[t] == es[t]
    ensures !Unique(after)
  {
    DirHas(es, NameOf(e));
    var t :| 0 <= t < |es| && Live(es[t]) && NameOf(es[t]) == NameOf(e);
    assert after[t] == es[t] && t != s;
    if t < s {
      assert NameOf(after[t]) == NameOf(after[s]);
    } else {
      assert NameOf(after[s]) == NameOf(after[t]);
    }
  }

  // ---- which slot changes, and how ----

  /** The record of a name, field by field. */
  predicate Bears(e: Entry, name: seq<byte>, target: u32, t: byte) {
    && e.inode == target && e.entryType == t && e.nameLength == |name| <= 128 && e.checksum == EntryCrc(e)
    && (forall k :: 0 <= k < 128 ==> e.name[k] == if k < |name| then name[k] else 0)
    && (forall k :: 0 <= k < 118 ==> e.reserved[k] == 0)
  }

  /** Only slot `s` differs: it was the first vacant one, or it is the first of a further block of empty slots. */
  predicate EnteredAt(es: seq<Entry>, es': seq<Entry>, s: nat) {
    && s <= |es| <= |es'| && s < |es'|
    && (forall r :: 0 <= r < s ==> 0 < es[r].entryType < 0x80)
    && (forall r :: 0 <= r < |es| && r != s ==> es'[r] == es[r])
    && (s < |es| ==> |es'| == |es| && !(0 < es[s].entryType < 0x80))
    && (s == |es| ==> |es'| == |es| + 16 && forall r :: |es| < r < |es'| ==> es'[r].entryType == 0)
  }

  /** So a record was entered under this name. */
  ghost predicate Entered(es: seq<Entry>, es': seq<Entry>, name: seq<byte>, target: u32, t: byte) {
    var r: bool :| forall k {:trigger Lifted(Entering, k)} :: Lifted(Entering, k) ==>
      (r <==> EnteredInFull(es, es', name, target, t));
    r
  }

  ghost predicate EnteredInFull(es: seq<Entry>, es': seq<Entry>, name: seq<byte>, target: u32, t: byte) {
    exists s: nat :: EnteredAt(es, es', s) && Bears(es'[s], name, target, t)
  }

  lemma OpenEntered(es: seq<Entry>, es': seq<Entry>, name: seq<byte>, target: u32, t: byte)
    ensures Entered(es, es', name, target, t) <==> EnteredInFull(es, es', name, target, t)
  {
    assert Lifted(Entering, 0);
  }

  lemma EnteredVacant(es: seq<Entry>, s: nat, e: Entry, name: seq<byte>, target: u32, t: byte)
    requires s < |es| && !Live(es[s]) && (forall r :: 0 <= r < s ==> Live(es[r])) && Bears(e, name, target, t)
    ensures Entered(es, es[s := e], name, target, t)
  {
    OpenEntered(es, es[s := e], name, target, t);
    assert EnteredAt(es, es[s := e], s);
  }

  lemma EnteredFurther(es: seq<Entry>, more: seq<Entry>, name: seq<byte>, target: u32, t: byte)
    requires |more| == 16 && Bears(more[0], name, target, t) && forall r :: 0 <= r < |es| ==> Live(es[r])
    requires forall r :: 1 <= r < 16 ==> more[r].entryType == 0
    ensures Entered(es, es + more, name, target, t)
  {
    OpenEntered(es, es + more, name, target, t);
    assert EnteredAt(es, es + more, |es|);
  }

  /** One live record under this name was marked deleted and sealed; nothing else changed. */
  ghost predicate Struck(es: seq<Entry>, es': seq<Entry>, name: seq<byte>) {
    var r: bool :| forall k {:trigger Lifted(Entering, k)} :: Lifted(Entering, k) ==>
      (r <==> StruckInFull(es, es', name));
    r
  }

  ghost predicate StruckInFull(es: seq<Entry>, es': seq<Entry>, name: seq<byte>) {
    exists s: nat :: StruckAt(es, es', s, name)
  }

  predicate StruckAt(es: seq<Entry>, es': seq<Entry>, s: nat, name: seq<byte>) {
    && s < |es| == |es'| && 0 < es[s].entryType < 0x80 && es[s].nameLength == |name| <= 128
    && es[s].name[..|name|] == name && es' == es[s := es'[s]]
    && es'[s] == es[s].(entryType := es[s].entryType + 0x80, checksum := es'[s].checksum)
    && es'[s].checksum == EntryCrc(es'[s])
  }

  lemma OpenStruck(es: seq<Entry>, es': seq<Entry>, name: seq<byte>)
    ensures Struck(es, es', name) <==> StruckInFull(es, es', name)
  {
    assert Lifted(Entering, 0);
  }

  lemma StruckSlot(es: seq<Entry>, s: nat, dead: Entry, name: seq<byte>)
    requires s < |es| && Live(es[s]) && SoundEntry(es[s]) && NameOf(es[s]) == name && dead.checksum == EntryCrc(dead)
    requires dead == es[s].(entryType := MarkDeleted(es[s].entryType), checksum := dead.checksum)
    ensures Struck(es, es[s := dead], name)
  {
    OpenSoundEntry(es[s]);
    OpenStruck(es, es[s := dead], name);
    assert StruckAt(es, es[s := dead], s, name);
  }

  // ---- listing ----

  /** The live entries, in slot order. */
  function LiveOnes(es: seq<Entry>): seq<Entry> {
    if es == [] then []
    else LiveOnes(es[..|es| - 1]) + if Live(es[|es| - 1]) then [es[|es| - 1]] else []
  }

  lemma {:induction false} LiveOnesHas(es: seq<Entry>, e: Entry)
    ensures e in LiveOnes(es) <==> Live(e) && e in es
  {
    if es != [] {
      var n := |es| - 1;
      LiveOnesHas(es[..n], e);
      assert es == es[..n] + [es[n]];
    }
  }

  /** The listing is in slot order: a live entry comes after as many as are live before it. */
  lemma {:induction false} LiveOnesAt(es: seq<Entry>, s: nat)
    requires s < |es| && 0 < es[s].entryType < 0x80
    ensures |LiveOnes(es[..s])| < |LiveOnes(es)| && LiveOnes(es)[|LiveOnes(es[..s])|] == es[s]
    ensures LiveOnes(es[..s]) <= LiveOnes(es)
  {
    var n := |es| - 1;
    if s < n {
      assert es[..n][..s] == es[..s];
      LiveOnesAt(es[..n], s);
    }
  }

  lemma {:induction false} LiveOnesDistinct(es: seq<Entry>)
    requires Unique(es)
    ensures forall s, t :: 0 <= s < t < |LiveOnes(es)| ==> NameOf(LiveOnes(es)[s]) != NameOf(LiveOnes(es)[t])
  {
    if es != [] {
      var n := |es| - 1;
      LiveOnesDistinct(es[..n]);
      var before := LiveOnes(es[..n]);
      forall s | 0 <= s < |before| && Live(es[n])
        ensures NameOf(before[s]) != NameOf(es[n])
      {
        LiveOnesHas(es[..n], before[s]);
        var t :| 0 <= t < n && es[..n][t] == before[s];
      }
    }
  }

  /**
   A complete listing is the map: every listed entry is a binding, every binding is listed, and no
   name is listed twice.
   */
  lemma ListIsDir(es: seq<Entry>)
    requires Tidy(es)
    ensures forall e :: e in LiveOnes(es) ==>
      NameOf(e) in DirOf(es) && DirOf(es)[NameOf(e)] == Binding(e.inode, e.entryType)
    ensures forall name :: name in DirOf(es) ==> exists e :: e in LiveOnes(es) && NameOf(e) == name
    ensures forall s, t :: 0 <= s < t < |LiveOnes(es)| ==> NameOf(LiveOnes(es)[s]) != NameOf(LiveOnes(es)[t])
  {
    forall e | e in LiveOnes(es)
      ensures NameOf(e) in DirOf(es) && DirOf(es)[NameOf(e)] == Binding(e.inode, e.entryType)
    {
      LiveOnesHas(es, e);
      var s :| 0 <= s < |es| && es[s] == e;
      DirAt(es, s);
    }
    forall name | name in DirOf(es)
      ensures exists e :: e in LiveOnes(es) && NameOf(e) == name
    {
      DirHas(es, name);
      var s :| 0 <= s < |es| && Live(es[s]) && NameOf(es[s]) == name;
      LiveOnesHas(es, es[s]);
    }
    LiveOnesDistinct(es);
  }

  lemma {:induction false} LiveOnesConcat(a: seq<Entry>, b: seq<Entry>)
    ensures LiveOnes(a + b) == LiveOnes(a) + LiveOnes(b)
    decreases |b|
  {
    if b == [] {
      assert a + b == a;
    } else {
      var n := |b| - 1;
      assert (a + b)[..|a| + n] == a + b[..n];
      LiveOnesConcat(a, b[..n]);
    }
  }

  /** The first `n` of a listing. */
  function Take(es: seq<Entry>, n: nat): seq<Entry> {
    if |es| <= n then es else es[..n]
  }

  lemma TakeIs(es: seq<Entry>, n: nat)
    ensures |Take(es, n)| == (if |es| < n then |es| else n) && Take(es, n) == es[..|Take(es, n)|]
  {
  }

  lemma TakeMore(a: seq<Entry>, b: seq<Entry>, n: nat)
    ensures Take(Take(a, n) + b, n) == Take(a + b, n)
  {
  }

  /** The slot loop of a listing: the live entries that verify, as long as there is room. */
  method ListSlots(slots: seq<Entry>, out: seq<Entry>, max: nat) returns (out': seq<Entry>)
    requires forall s :: 0 <= s < |slots| && Live(slots[s]) ==> SoundEntry(slots[s])
    requires |out| <= max
    ensures out' == Take(out + LiveOnes(slots), max)
  {
    out' := out;
    var e := 0;
    while e < |slots|
      invariant 0 <= e <= |slots|
      invariant out' == Take(out + LiveOnes(slots[..e]), max)
    {
      assert slots[..e + 1][..e] == slots[..e];
      if Live(slots[e]) {
        var verifies := Verified(slots[e]);
        if verifies && |out'| < max {
          out' := out' + [slots[e]];
        }
      }
      e := e + 1;
    }
    assert slots[..|slots|] == slots;
  }

  method Verified(e: Entry) returns (ok: bool)
    ensures SoundEntry(e) ==> ok
  {
    assert SoundEntry(e) ==> EntryVerifies(e) by { assert Lifted(Record, 0); }
    ok := EntryVerifies(e);
  }
}
