/**
 The volume state machine: the DIRTY, LOCKED and ERROR flags on the device and in
 memory, over runs of mounting, unmounting, marking, syncing and checking, with
 crashes anywhere in between.
 */
module OwfsState {
  import opened OwfsTypes

  /** The checking of a volume is two events: its lock is persisted before the scan. */
  datatype Event =
    | Mount
    | Unmount
    | MarkDirty
    | MarkClean
    | Sync
    | CheckRefused
    | CheckBegins
    | CheckEnds(findings: nat)
    | Format
    | Crash

  /** The superblock in memory; a crash loses it. */
  datatype Memory = Lost | Held(flags: Flags, scanning: bool)

  datatype Machine = Machine(disk: Flags, memory: Memory)

  function Unsettled(f: Flags): Flags { f.(dirty := true) }
  function Settled(f: Flags): Flags { f.(dirty := false, locked := false) }
  function LockedUp(f: Flags): Flags { f.(locked := true) }
  function Failed(f: Flags): Flags { f.(error := true) }
  function Passed(f: Flags): Flags { f.(dirty := false, locked := false, error := false) }

  /**
   Everything but mounting, formatting and crashing works on the superblock in memory; while a check
   scans, only it can end.
   */
  predicate Enabled(m: Machine, e: Event) {
    match e
    case Mount => m.memory.Held? ==> !m.memory.scanning
    case Format => true
    case Crash => true
    case CheckEnds(_) => m.memory.Held? && m.memory.scanning
    case _ => m.memory.Held? && !m.memory.scanning
  }

  function Answer(m: Machine, e: Event): Status
    requires Enabled(m, e)
  {
    match e
    case Mount => if m.disk.error || m.disk.dirty || m.disk.locked then VolumeDirty else Ok
    case Unmount => if m.memory.flags.error then ChecksumMismatch else Ok
    case MarkClean => if m.memory.flags.error then ChecksumMismatch else Ok
    case CheckRefused => CorruptSuperblock
    case CheckEnds(n) => if n == 0 then Ok else ChecksumMismatch
    case _ => Ok
  }

  /** Memory and device agree again after a superblock write. */
  function Written(f: Flags): Machine {
    Machine(f, Held(f, false))
  }

  /**
   What an event leaves.  Formatting works on a superblock of its own: what the
   caller has in memory is of a volume that is gone, and the new one has to be
   mounted.
   */
  function After(m: Machine, e: Event): Machine
    requires Enabled(m, e)
  {
    match e
    case Mount =>
      if m.disk.error then Machine(m.disk, Held(m.disk, false))
      else if m.disk.dirty || m.disk.locked then Written(LockedUp(m.disk))
      else Written(Unsettled(m.disk))
    case Unmount => if m.memory.flags.error then m else Written(Settled(m.memory.flags))
    case MarkDirty => Written(Unsettled(m.memory.flags))
    case MarkClean => if m.memory.flags.error then m else Written(Settled(m.memory.flags))
    case Sync => Written(Settled(m.memory.flags))
    case CheckRefused => Written(LockedUp(Failed(m.memory.flags)))
    case CheckBegins => Machine(LockedUp(m.memory.flags), Held(LockedUp(m.memory.flags), true))
    case CheckEnds(n) => if n == 0 then Written(Passed(m.memory.flags)) else Written(Failed(m.memory.flags))
    case Format => Machine(CLEAN, Lost)
    case Crash => Machine(m.disk, Lost)
  }

  /**
   What marking, settling and unmounting write: DIRTY and nothing else is set, DIRTY and
   LOCKED and nothing else are cleared, and ERROR forbids clearing them but for a sync.
   */
  lemma MarkingFlags(m: Machine, e: Event)
    requires Enabled(m, e) && m.memory.Held? && (e.MarkDirty? || e.MarkClean? || e.Unmount? || e.Sync?)
    ensures var (f, r) := (m.memory.flags, After(m, e));
            && (e.MarkDirty? ==> Answer(m, e) == Ok && r.disk == FlagRecord(true, f.error, f.locked, f.other))
            && (e.Sync? ==> Answer(m, e) == Ok && r.disk == FlagRecord(false, f.error, false, f.other))
            && ((e.MarkClean? || e.Unmount?) && !f.error ==>
                  Answer(m, e) == Ok && r.disk == FlagRecord(false, false, false, f.other))
            && ((e.MarkClean? || e.Unmount?) && f.error ==> Answer(m, e) == ChecksumMismatch && r == m)
            && (Answer(m, e) == Ok ==> r.memory == Held(r.disk, false))
  {
  }

  /** What checking writes: LOCKED before the scan, ERROR when something was found, nothing at all otherwise. */
  lemma CheckingFlags(m: Machine, e: Event)
    requires Enabled(m, e) && m.memory.Held? && (e.CheckRefused? || e.CheckBegins? || e.CheckEnds?)
    ensures var (f, r) := (m.memory.flags, After(m, e));
            && (e.CheckBegins? ==> r.disk == FlagRecord(f.dirty, f.error, true, f.other))
            && (e.CheckRefused? ==>
                  Answer(m, e) == CorruptSuperblock && r.disk == FlagRecord(f.dirty, true, true, f.other))
            && (e.CheckEnds? && e.findings == 0 ==>
                  Answer(m, e) == Ok && r.disk == FlagRecord(false, false, false, f.other))
            && (e.CheckEnds? && e.findings > 0 ==>
                  Answer(m, e) == ChecksumMismatch && r.disk == FlagRecord(f.dirty, true, f.locked, f.other))
            && r.memory == Held(r.disk, e.CheckBegins?)
  {
  }

  /** Formatting writes no flag; formatting and crashing lose what was in memory, and a crash keeps the device. */
  lemma LosingFlags(m: Machine)
    ensures Enabled(m, Format) && After(m, Format) == Machine(FlagRecord(false, false, false, 0), Lost)
    ensures Enabled(m, Crash) && After(m, Crash) == Machine(m.disk, Lost)
  {
  }

  /** What mounting does: any of the three flags forbids it, and then LOCKED is set unless ERROR is. */
  lemma MountingFlags(m: Machine)
    requires Enabled(m, Mount)
    ensures var (f, r) := (m.disk, After(m, Mount));
            && (Answer(m, Mount) == Ok <==> !f.dirty && !f.error && !f.locked)
            && (Answer(m, Mount) != Ok ==> Answer(m, Mount) == VolumeDirty)
            && r.disk == FlagRecord(f.dirty || (!f.error && !f.locked), f.error,
                 f.locked || (f.dirty && !f.error), f.other)
            && r.memory == Held(r.disk, false)
  {
  }

  /** A run: the states, and the events between them. */
  ghost predicate Run(ms: seq<Machine>, es: seq<Event>) {
    && |ms| == |es| + 1
    && (forall k :: 0 <= k < |es| ==> Enabled(ms[k], es[k]) && ms[k + 1] == After(ms[k], es[k]))
  }

  /** What memory holds is what the device holds, and a scan holds the lock. */
  predicate Agreed(m: Machine) {
    m.memory.Held? ==> m.memory.flags == m.disk && (m.memory.scanning ==> m.disk.locked)
  }

  lemma {:induction false} StaysAgreed(ms: seq<Machine>, es: seq<Event>, k: nat)
    requires Run(ms, es) && Agreed(ms[0]) && k < |ms|
    ensures Agreed(ms[k])
  {
    if k > 0 {
      StaysAgreed(ms, es, k - 1);
      assert ms[k - 1 + 1] == After(ms[k - 1], es[k - 1]);
    }
  }

  // ---- ERROR is sticky ----

  predicate ClearsError(e: Event) {
    e.Format? || (e.CheckEnds? && e.findings == 0)
  }

  lemma OnlyTheseClearError(m: Machine, e: Event)
    requires Enabled(m, e) && Agreed(m) && m.disk.error && !After(m, e).disk.error
    ensures ClearsError(e)
  {
  }

  /** Whenever ERROR was set and no longer is, a check without findings or a reformat happened in between. */
  lemma {:induction false} ErrorIsSticky(ms: seq<Machine>, es: seq<Event>, i: nat, j: nat) returns (k: nat)
    requires Run(ms, es) && Agreed(ms[0]) && i <= j < |ms|
    requires ms[i].disk.error && !ms[j].disk.error
    ensures i <= k < j && ClearsError(es[k])
    decreases j - i
  {
    assert ms[i + 1] == After(ms[i], es[i]);
    if ms[i + 1].disk.error {
      k := ErrorIsSticky(ms, es, i + 1, j);
    } else {
      StaysAgreed(ms, es, i);
      OnlyTheseClearError(ms[i], es[i]);
      k := i;
    }
  }

  // ---- a crash is noticed ----

  /** The event takes back the marks that mounting or checking left. */
  predicate Settles(m: Machine, e: Event)
    requires Enabled(m, e)
  {
    match e
    case Unmount => !m.memory.flags.error
    case MarkClean => !m.memory.flags.error
    case Sync => true
    case CheckEnds(n) => n == 0
    case Format => true
    case _ => false
  }

  /** From here on, a crash would be noticed. */
  predicate Guarded(m: Machine) {
    (m.disk.dirty || m.disk.locked) && (m.disk.error ==> m.disk.locked)
  }

  /** The events that put the marks there: a mount, marking without ERROR, a refused check, the start of a scan. */
  predicate Guards(m: Machine, e: Event)
    requires Enabled(m, e)
  {
    || (e == Mount && Answer(m, e) == Ok)
    || (e == MarkDirty && !m.memory.flags.error)
    || e == CheckRefused
    || e == CheckBegins
  }

  lemma GuardsGuard(m: Machine, e: Event)
    requires Enabled(m, e) && Agreed(m) && Guards(m, e)
    ensures Guarded(After(m, e))
  {
  }

  lemma StaysGuarded(m: Machine, e: Event)
    requires Enabled(m, e) && Agreed(m) && Guarded(m) && !Settles(m, e)
    ensures Guarded(After(m, e))
  {
  }

  lemma {:induction false} GuardedUntilSettled(ms: seq<Machine>, es: seq<Event>, i: nat, j: nat)
    requires Run(ms, es) && Agreed(ms[0]) && i <= j < |ms| && Guarded(ms[i])
    requires forall k :: i <= k < j ==> !(Enabled(ms[k], es[k]) && Settles(ms[k], es[k]))
    ensures Guarded(ms[j])
    decreases j - i
  {
    if i < j {
      StaysAgreed(ms, es, i);
      assert ms[i + 1] == After(ms[i], es[i]);
      StaysGuarded(ms[i], es[i]);
      GuardedUntilSettled(ms, es, i + 1, j);
    }
  }

  /**
   After a successful mount, after marking a volume without ERROR, or from the start of
   a scan on, a crash makes the next mount answer VOLUME_DIRTY and leaves LOCKED on the
   device, unless something settled the volume first.
   */
  lemma CrashIsNoticed(ms: seq<Machine>, es: seq<Event>, i: nat, j: nat)
    requires Run(ms, es) && Agreed(ms[0]) && i < j < |es|
    requires Guards(ms[i], es[i]) && es[j] == Crash
    requires forall k :: i < k < j ==> !(Enabled(ms[k], es[k]) && Settles(ms[k], es[k]))
    ensures Enabled(ms[j + 1], Mount) && Answer(ms[j + 1], Mount) == VolumeDirty
    ensures After(ms[j + 1], Mount).disk.locked
  {
    StaysAgreed(ms, es, i);
    assert ms[i + 1] == After(ms[i], es[i]) && ms[j + 1] == After(ms[j], es[j]);
    GuardsGuard(ms[i], es[i]);
    GuardedUntilSettled(ms, es, i + 1, j);
  }

  /** Conversely, a volume settled without ERROR mounts again, crash or no crash. */
  lemma SettledMounts(m: Machine, e: Event)
    requires Enabled(m, e) && Agreed(m) && Settles(m, e) && !After(m, e).disk.error
    ensures var m' := After(After(m, e), Crash); Enabled(m', Mount) && Answer(m', Mount) == Ok
  {
  }
}
