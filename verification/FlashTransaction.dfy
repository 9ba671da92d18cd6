/**
  The image-flash transaction on Super: preparation releases devices, commits one new table and
  remaps; a failure before any image byte is written is rolled back to the checkpoint table.
  Every call into the device mapper, liblp or the snapshot state may fail.
 */
module FlashTransaction {
  import opened Wrappers
  import opened SuperTable
  import opened SuperLayout
  import opened RomLayout

  /** A selected target: a claimed block device, "/logical/<bare>", or an fstab entry. */
  datatype Target = Block(path: string) | Logical(bare: string) | Listed(bare: string, inSuper: bool)

  /** Device-mapper devices and the extents they were created with. */
  type Mappings = map<string, seq<nat>>

  /** What preparation remembers for the rollback. */
  datatype Trackers = Trackers(resized: seq<string>, metadataChanged: bool, unmappedCows: seq<string>,
                               layoutMappings: seq<string>, originalMappings: seq<string>)

  const NO_TRACKERS := Trackers([], false, [], [], [])

  /** The table entry of a partition known by its bare name. */
  function EntryName(t: Table, suffix: string, bare: string): string {
    if bare + suffix in t.parts then bare + suffix else bare
  }

  function ResizedNames(t: Table, suffix: string, bares: seq<string>): set<string> {
    set i | 0 <= i < |bares| :: EntryName(t, suffix, bares[i])
  }

  /** Every device of a partition in the table shows that partition's blocks. */
  ghost predicate Coherent(t: Table, mapped: Mappings) {
    forall n :: n in mapped && n in t.parts ==> mapped[n] == t.parts[n].extents
  }

  // ----- the run invariant -----

  /** The rollback will map `n` again. */
  ghost predicate Recorded(t0: Table, suffix: string, tr: Trackers, n: string) {
    n in tr.originalMappings || n in tr.unmappedCows || n in ResizedNames(t0, suffix, tr.resized)
  }

  /** The rollback will unmap `n` before it writes the table. */
  ghost predicate InScope(t0: Table, suffix: string, tr: Trackers, n: string) {
    n in tr.layoutMappings || n in ResizedNames(t0, suffix, tr.resized)
  }

  ghost predicate Untouched(m0: Mappings, mapped: Mappings, n: string) {
    n in m0 && n in mapped && mapped[n] == m0[n]
  }

  /**
    The invariant of preparation. Every device that changed since the checkpoint was released, every released device
    is recorded for remapping, and every table write and new device is in reach of the rollback.
   */
  ghost predicate Tracked(t0: Table, m0: Mappings, suffix: string, disk: Table, mapped: Mappings, tr: Trackers,
                          released: set<string>)
  {
    match tr
    case Trackers(resized, metadataChanged, unmappedCows, layoutMappings, originalMappings) =>
      && (disk == t0 || metadataChanged)
      && (forall n :: n in m0 ==> Untouched(m0, mapped, n) || n in released)
      && (forall n :: n in m0 && n in released ==> Recorded(t0, suffix, tr, n))
      && (forall n :: n in mapped ==>
        || Untouched(m0, mapped, n)
        || InScope(t0, suffix, tr, n)
        || (n in t0.parts && mapped[n] == t0.parts[n].extents))
      && (forall n :: n in ResizedNames(t0, suffix, resized) ==> n in t0.parts)
      && (forall n :: n in unmappedCows ==> n in t0.parts)
      && (forall n :: n in originalMappings ==> n in layoutMappings)
      && (metadataChanged ==> forall n :: n in m0 && n in layoutMappings ==> n in originalMappings)
      && (!metadataChanged ==> forall n :: n in mapped && n in layoutMappings ==> n in m0)
  }

  // ----- what a complete rollback leaves -----

  ghost function Remapped(t0: Table, suffix: string, tr: Trackers): set<string> {
    ResizedNames(t0, suffix, tr.resized) + (set n | n in tr.originalMappings && n in t0.parts)
    + (set n | n in tr.unmappedCows)
  }

  /** The devices after every destroy, update and map call of the rollback has succeeded. */
  ghost function AfterRollback(t0: Table, suffix: string, mapped: Mappings, tr: Trackers): Mappings
    requires Remapped(t0, suffix, tr) <= t0.parts.Keys
  {
    map n | n in (set k | k in mapped && !InScope(t0, suffix, tr, k)) + Remapped(t0, suffix, tr) ::
      if n in mapped && !InScope(t0, suffix, tr, n) then mapped[n] else t0.parts[n].extents
  }

  /** Every device is as it was, or shows the blocks the table gives it. */
  ghost predicate KnownBlocks(t0: Table, m0: Mappings, mapped: Mappings) {
    forall n :: n in mapped ==> Untouched(m0, mapped, n) || (n in t0.parts && mapped[n] == t0.parts[n].extents)
  }

  /** Every released device that has a table entry is back. */
  ghost predicate GivenBack(t0: Table, m0: Mappings, mapped: Mappings, released: set<string>) {
    forall n :: n in released && n in m0 && n in t0.parts ==> Untouched(m0, mapped, n)
  }

  /**
    Atomicity: from any point of any preparation, a complete rollback maps every released partition
    again, and no surviving device shows blocks other than the checkpoint table's.
   */
  lemma {:induction false} RollbackRestoresReleased(t0: Table, m0: Mappings, suffix: string, disk: Table,
                                                    mapped: Mappings, tr: Trackers, released: set<string>)
    requires Coherent(t0, m0) && Tracked(t0, m0, suffix, disk, mapped, tr, released)
    ensures Remapped(t0, suffix, tr) <= t0.parts.Keys
    ensures KnownBlocks(t0, m0, AfterRollback(t0, suffix, mapped, tr))
    ensures GivenBack(t0, m0, AfterRollback(t0, suffix, mapped, tr), released)
  {
    var after := AfterRollback(t0, suffix, mapped, tr);
    forall n | n in released && n in m0 && n in t0.parts ensures Untouched(m0, after, n) {
      assert Recorded(t0, suffix, tr, n);
      assert n in after;
    }
  }

  /** Which devices a complete rollback loses: those listed for the layout and not recorded when they were released. */
  lemma {:induction false} RollbackLosesIff(t0: Table, m0: Mappings, suffix: string, disk: Table, mapped: Mappings,
                                            tr: Trackers, released: set<string>, n: string)
    requires Coherent(t0, m0) && Tracked(t0, m0, suffix, disk, mapped, tr, released) && n in m0
    ensures Remapped(t0, suffix, tr) <= t0.parts.Keys
    ensures !Untouched(m0, AfterRollback(t0, suffix, mapped, tr), n) ==> n in tr.layoutMappings
    ensures n in t0.parts ==>
      (!Untouched(m0, AfterRollback(t0, suffix, mapped, tr), n)
       <==> n in tr.layoutMappings && !Recorded(t0, suffix, tr, n))
  {
    var after := AfterRollback(t0, suffix, mapped, tr);
    RollbackRestoresReleased(t0, m0, suffix, disk, mapped, tr, released);
    if Recorded(t0, suffix, tr, n) && n in t0.parts {
      assert n in Remapped(t0, suffix, tr) && n in after;
    } else {
      assert n !in Remapped(t0, suffix, tr);
    }
  }

  // ----- steps that keep the invariant -----

  lemma {:induction false} TrackedStart(t0: Table, m0: Mappings, suffix: string, layoutMappings: seq<string>)
    ensures Tracked(t0, m0, suffix, t0, m0, NO_TRACKERS.(layoutMappings := layoutMappings), {})
  {
  }

  lemma {:induction false} TrackedRelease(t0: Table, m0: Mappings, suffix: string, disk: Table, mapped: Mappings,
                                          tr: Trackers, released: set<string>, n: string)
    requires Tracked(t0, m0, suffix, disk, mapped, tr, released) && (n in m0 ==> Recorded(t0, suffix, tr, n))
    ensures Tracked(t0, m0, suffix, disk, mapped - {n}, tr, released + {n})
  {
    var mapped' := mapped - {n};
    forall k | k in m0 && k != n && Untouched(m0, mapped, k) ensures Untouched(m0, mapped', k) {
    }
    forall k | k in mapped' && Untouched(m0, mapped, k) ensures Untouched(m0, mapped', k) {
    }
  }

  /** Remembering more never breaks the invariant before the commit. */
  lemma {:induction false} TrackedRemember(t0: Table, m0: Mappings, suffix: string, disk: Table, mapped: Mappings,
                                           tr: Trackers, tr': Trackers, released: set<string>)
    requires Tracked(t0, m0, suffix, disk, mapped, tr, released) && !tr.metadataChanged
    requires tr'.layoutMappings == tr.layoutMappings && !tr'.metadataChanged
    requires forall n :: n in ResizedNames(t0, suffix, tr.resized) ==> n in ResizedNames(t0, suffix, tr'.resized)
    requires forall n :: n in ResizedNames(t0, suffix, tr'.resized) ==> n in t0.parts
    requires forall n :: n in tr.originalMappings ==> n in tr'.originalMappings
    requires forall n :: n in tr'.originalMappings ==> n in tr'.layoutMappings
    requires forall n :: n in tr.unmappedCows ==> n in tr'.unmappedCows
    requires forall n :: n in tr'.unmappedCows ==> n in t0.parts
    ensures Tracked(t0, m0, suffix, disk, mapped, tr', released)
  {
    forall n | Recorded(t0, suffix, tr, n) ensures Recorded(t0, suffix, tr', n) {
    }
    forall n | InScope(t0, suffix, tr, n) ensures InScope(t0, suffix, tr', n) {
    }
  }

  lemma {:induction false} TrackedCommit(t0: Table, m0: Mappings, suffix: string, disk: Table, disk': Table,
                                         mapped: Mappings, tr: Trackers, released: set<string>)
    requires Tracked(t0, m0, suffix, disk, mapped, tr, released)
    requires forall n :: n in m0 && n in tr.layoutMappings ==> n in tr.originalMappings
    ensures Tracked(t0, m0, suffix, disk', mapped, tr.(metadataChanged := true), released)
  {
    var tr' := tr.(metadataChanged := true);
    forall n | Recorded(t0, suffix, tr, n) ensures Recorded(t0, suffix, tr', n) {
    }
    forall n | InScope(t0, suffix, tr, n) ensures InScope(t0, suffix, tr', n) {
    }
  }

  lemma {:induction false} TrackedMap(t0: Table, m0: Mappings, suffix: string, disk: Table, mapped: Mappings,
                                      tr: Trackers, released: set<string>, n: string, e: seq<nat>)
    requires Tracked(t0, m0, suffix, disk, mapped, tr, released) && n !in mapped
    requires InScope(t0, suffix, tr, n) || (n in t0.parts && e == t0.parts[n].extents)
    requires tr.metadataChanged || n !in tr.layoutMappings
    ensures Tracked(t0, m0, suffix, disk, mapped[n := e], tr, released)
  {
    var mapped' := mapped[n := e];
    forall k | Untouched(m0, mapped, k) ensures Untouched(m0, mapped', k) {
    }
  }
}
